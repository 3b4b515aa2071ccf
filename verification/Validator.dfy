/** The structured validator: one pass over the lines, every finding collected. */
module Validator {
  import opened Wrappers
  import opened JsText
  import opened Json
  import opened JsonParser
  import opened LedgerEntry
  import opened LedgerBuild
  import opened LedgerShape
  import opened Logs

  datatype Code =
    | SCHEMA
    | CANONICALIZATION
    | ENTRY_HASH
    | PREVIOUS_HASH
    | SEQUENCE
    | LEDGER_IDENTITY
    | RECEIPT_REFERENCE
    | SIGNATURE
    | TRUST
    | UNSUPPORTED_VERSION
    | DUPLICATE
    | GENESIS_RULE
    | PARSE

  /** Which entry a finding is about, when the line could be read as one. */
  datatype About = About(entryId: Text, sequence: int)

  datatype Finding = Finding(code: Code, entryIndex: nat, about: Option<About>)

  function Of(code: Code, index: nat, e: Entry): Finding {
    Finding(code, index, Some(About(e.entryId, e.sequence)))
  }

  datatype Slot = Slot(entry: Entry, index: nat)

  datatype Report = Report(
    valid: bool,
    ledgerId: Text,
    entriesChecked: nat,
    headHash: Option<Text>,
    findings: seq<Finding>)

  /** The key ids of a supplied trust root, if one is supplied. */
  type TrustRoot = Option<set<Text>>

  type Findings = seq<Finding>

  // ---------- Reading a line ----------

  /** A line that can be read as an entry. */
  function ReadLine(line: Text): Option<Entry> {
    if line == [] then None
    else
      match Parse(line)
      case None => None
      case Some(data) => if ShapeProblems(data) == [] then Some(EntryOf(data)) else None
  }

  function SchemaFindings(n: nat, index: nat): Findings {
    seq(n, i => Finding(SCHEMA, index, None))
  }

  /** What one line contributes. */
  datatype LineCheck = LineCheck(entry: Option<Entry>, findings: Findings)

  /** The findings of the three checks of a line that could be read as an entry. */
  function EntryFindings(line: Text, canonical: Text, e: Entry, index: nat): Findings {
    var a := Add([], line != canonical, Of(CANONICALIZATION, index, e));
    var b := Add(a, e.schemaVersion != SCHEMA_VERSION, Of(UNSUPPORTED_VERSION, index, e));
    Add(b, !IsEntryType(e.entryType), Of(SCHEMA, index, e))
  }

  function CheckLine(line: Text, index: nat): LineCheck {
    if line == [] then LineCheck(None, [Finding(PARSE, index, None)])
    else
      match Parse(line)
      case None => LineCheck(None, [Finding(PARSE, index, None)])
      case Some(data) =>
        var problems := ShapeProblems(data);
        if problems != [] then LineCheck(None, SchemaFindings(|problems|, index))
        else
          LineCheck(Some(EntryOf(data)), EntryFindings(line, Stringify(data), EntryOf(data), index))
  }

  /** A line without findings: the canonical text of an entry in a known version and vocabulary. */
  predicate LineOk(line: Text) {
    && ReadLine(line).Some?
    && line == Stringify(Parse(line).value)
    && ReadLine(line).value.schemaVersion == SCHEMA_VERSION
    && IsEntryType(ReadLine(line).value.entryType)
  }

  lemma {:induction false} CheckLineClean(line: Text, index: nat)
    ensures CheckLine(line, index).findings == [] <==> LineOk(line)
    ensures CheckLine(line, index).entry == ReadLine(line)
  {
  }

  datatype ParseState = ParseState(slots: seq<Slot>, findings: Findings)

  /** What has been read and found after the first `n` lines, each of them checked alone. */
  function AfterLines(check: (Text, nat) -> LineCheck, lines: seq<Text>, n: nat): ParseState
    requires n <= |lines|
  {
    if n == 0 then ParseState([], [])
    else
      var before := AfterLines(check, lines, n - 1);
      var line := check(lines[n - 1], n - 1);
      ParseState(
        match line.entry case None => before.slots case Some(e) => before.slots + [Slot(e, n - 1)],
        before.findings + line.findings)
  }

  method ParseLines(lines: seq<Text>, findings: Log<Finding>) returns (parsedEntries: seq<Slot>)
    requires findings.items == []
    modifies findings
    ensures ParseState(parsedEntries, findings.items) == AfterLines(CheckLine, lines, |lines|)
  {
    parsedEntries := [];
    for index := 0 to |lines|
      invariant ParseState(parsedEntries, findings.items) == AfterLines(CheckLine, lines, index)
    {
      var parsed := ParseLine(lines[index], index, findings);
      if parsed.Some? {
        parsedEntries := parsedEntries + [Slot(parsed.value, index)];
      }
    }
  }

  lemma {:induction false} AddOnto<T>(acc: seq<T>, s: seq<T>, condition: bool, x: T)
    ensures acc + Add(s, condition, x) == Add(acc + s, condition, x)
  {
  }

  method CheckEntryLine(line: Text, canonical: Text, e: Entry, index: nat, findings: Log<Finding>)
    modifies findings
    ensures findings.items == old(findings.items) + EntryFindings(line, canonical, e, index)
  {
    ghost var acc := findings.items;
    if line != canonical {
      findings.Push(Of(CANONICALIZATION, index, e));
    }
    if e.schemaVersion != SCHEMA_VERSION {
      findings.Push(Of(UNSUPPORTED_VERSION, index, e));
    }
    if !IsEntryType(e.entryType) {
      findings.Push(Of(SCHEMA, index, e));
    }
    ghost var a := Add([], line != canonical, Of(CANONICALIZATION, index, e));
    ghost var b := Add(a, e.schemaVersion != SCHEMA_VERSION, Of(UNSUPPORTED_VERSION, index, e));
    assert acc + [] == acc;
    AddOnto(acc, [], line != canonical, Of(CANONICALIZATION, index, e));
    AddOnto(acc, a, e.schemaVersion != SCHEMA_VERSION, Of(UNSUPPORTED_VERSION, index, e));
    AddOnto(acc, b, !IsEntryType(e.entryType), Of(SCHEMA, index, e));
  }

  method ParseLine(line: Text, index: nat, findings: Log<Finding>) returns (parsed: Option<Entry>)
    modifies findings
    ensures parsed == CheckLine(line, index).entry
    ensures findings.items == old(findings.items) + CheckLine(line, index).findings
  {
    if |line| == 0 {
      findings.Push(Finding(PARSE, index, None));
      return None;
    }
    var data := Parse(line);
    if data.None? {
      findings.Push(Finding(PARSE, index, None));
      return None;
    }
    var problems := CollectShapeProblems(data.value);
    if |problems| > 0 {
      for i := 0 to |problems|
        invariant findings.items == old(findings.items) + SchemaFindings(i, index)
      {
        findings.Push(Finding(SCHEMA, index, None));
        assert SchemaFindings(i + 1, index) == SchemaFindings(i, index) + [Finding(SCHEMA, index, None)];
      }
      return None;
    }
    var e := EntryOf(data.value);
    CheckEntryLine(line, Stringify(data.value), e, index, findings);
    return Some(e);
  }

  // ---------- Genesis ----------

  const MANIFEST_KEYS: seq<Text> := [
    Lit("protocolVersion"), Lit("hashAlgorithm"), Lit("trustRoot"), Lit("jurisdiction"), Lit("createdAt"), Lit("signingPolicy")
  ]

  function WithManifest(acc: Findings, e: Entry, index: nat, n: nat): (r: Findings)
    requires n <= |MANIFEST_KEYS|
    ensures |acc| <= |r| && (|r| == |acc| <==> forall i :: 0 <= i < n ==> PayloadField(e, MANIFEST_KEYS[i]).Some?)
  {
    if n == 0 then acc
    else
      Add(WithManifest(acc, e, index, n - 1), PayloadField(e, MANIFEST_KEYS[n - 1]).None?, Of(GENESIS_RULE, index, e))
  }

  ghost predicate GenesisOk(c: Crypto, e: Entry) {
    && e.entryType == GENESIS
    && e.sequence == 1
    && e.previousEntryHash == EmptyHash(c)
    && e.receiptHash == EmptyHash(c)
    && e.signerKeyId == HASH_ONLY
    && e.payload.Some?
    && forall i :: 0 <= i < |MANIFEST_KEYS| ==> PayloadField(e, MANIFEST_KEYS[i]).Some?
  }

  function WithGenesis(acc: Findings, c: Crypto, e: Entry, index: nat): (r: Findings)
    ensures |acc| <= |r| && (|r| == |acc| <==> GenesisOk(c, e))
  {
    var f := Of(GENESIS_RULE, index, e);
    var a := Add(acc, e.entryType != GENESIS, f);
    var b := Add(a, e.sequence != 1, f);
    var d := Add(b, e.previousEntryHash != EmptyHash(c), f);
    var g := Add(d, e.receiptHash != EmptyHash(c), f);
    var h := Add(g, e.signerKeyId != HASH_ONLY, f);
    if e.payload.None? then h + [f] else WithManifest(h, e, index, |MANIFEST_KEYS|)
  }

  method CheckGenesis(c: Crypto, e: Entry, index: nat, findings: Log<Finding>)
    modifies findings
    ensures findings.items == WithGenesis(old(findings.items), c, e, index)
  {
    var f := Of(GENESIS_RULE, index, e);
    if e.entryType != GENESIS {
      findings.Push(f);
    }
    if e.sequence != 1 {
      findings.Push(f);
    }
    if e.previousEntryHash != EmptyHash(c) {
      findings.Push(f);
    }
    if e.receiptHash != EmptyHash(c) {
      findings.Push(f);
    }
    if e.signerKeyId != HASH_ONLY {
      findings.Push(f);
    }
    if e.payload.None? {
      findings.Push(f);
      return;
    }
    ghost var before := findings.items;
    for n := 0 to |MANIFEST_KEYS|
      invariant findings.items == WithManifest(before, e, index, n)
    {
      if PayloadField(e, MANIFEST_KEYS[n]).None? {
        findings.Push(f);
      }
    }
  }

  // ---------- Links ----------

  function WithLinkage(acc: Findings, c: Crypto, e: Entry, prior: Entry, ledgerId: Text, index: nat): (r: Findings)
    ensures |acc| <= |r|
    ensures |r| == |acc| <==> e.previousEntryHash == EntryHash(c, prior) && e.ledgerId == ledgerId
  {
    var a := Add(acc, e.previousEntryHash != EntryHash(c, prior), Of(PREVIOUS_HASH, index, e));
    Add(a, e.ledgerId != ledgerId, Of(LEDGER_IDENTITY, index, e))
  }

  method CheckLinkage(c: Crypto, e: Entry, prior: Entry, ledgerId: Text, index: nat, findings: Log<Finding>)
    modifies findings
    ensures findings.items == WithLinkage(old(findings.items), c, e, prior, ledgerId, index)
  {
    if e.previousEntryHash != EntryHash(c, prior) {
      findings.Push(Of(PREVIOUS_HASH, index, e));
    }
    if e.ledgerId != ledgerId {
      findings.Push(Of(LEDGER_IDENTITY, index, e));
    }
  }

  // ---------- Payload and receipt ----------

  ghost predicate ReceiptOk(c: Crypto, e: Entry) {
    var receiptId := PayloadField(e, Lit("receiptId"));
    var receipt := PayloadField(e, Lit("receipt"));
    && NonEmptyStr(receiptId)
    && receipt.Some? && IsObjectOrNull(receipt.value)
    && e.receiptHash == c.sha256(Stringify(receipt.value))
  }

  /** `typeof v === "object"` and not an array. */
  predicate IsObjectOrNull(v: Json) {
    v.Obj? || v.Null?
  }

  function WithReceipt(acc: Findings, c: Crypto, e: Entry, index: nat): (r: Findings)
    ensures |acc| <= |r| && (|r| == |acc| <==> ReceiptOk(c, e))
  {
    var f := Of(RECEIPT_REFERENCE, index, e);
    var a := Add(acc, !NonEmptyStr(PayloadField(e, Lit("receiptId"))), f);
    var receipt := PayloadField(e, Lit("receipt"));
    if receipt.None? || !IsObjectOrNull(receipt.value) then a + [f]
    else Add(a, e.receiptHash != c.sha256(Stringify(receipt.value)), f)
  }

  method CheckReceiptReference(c: Crypto, e: Entry, index: nat, findings: Log<Finding>)
    modifies findings
    ensures findings.items == WithReceipt(old(findings.items), c, e, index)
  {
    var receiptId := PayloadField(e, Lit("receiptId"));
    if !NonEmptyStr(receiptId) {
      findings.Push(Of(RECEIPT_REFERENCE, index, e));
    }
    var receipt := PayloadField(e, Lit("receipt"));
    if receipt.None? || !IsObjectOrNull(receipt.value) {
      findings.Push(Of(RECEIPT_REFERENCE, index, e));
    } else if e.receiptHash != c.sha256(Stringify(receipt.value)) {
      findings.Push(Of(RECEIPT_REFERENCE, index, e));
    }
  }

  // ---------- Signatures and trust ----------

  predicate KeyIdsLeaveOut(trustRoot: seq<Member>, keyId: Text) {
    match Get(trustRoot, Lit("keyIds"))
    case Some(Arr(items)) => Str(keyId) !in items
    case _ => false
  }

  /** Whether the genesis manifest lists key ids and leaves this one out. */
  predicate NotInGenesisRoot(genesis: Entry, keyId: Text) {
    match PayloadField(genesis, Lit("trustRoot"))
    case Some(Obj(ms)) => KeyIdsLeaveOut(ms, keyId)
    case _ => false
  }

  ghost predicate TrustOk(e: Entry, genesis: Option<Entry>, trust: TrustRoot) {
    && (genesis.Some? ==> !NotInGenesisRoot(genesis.value, e.signerKeyId))
    && (trust.Some? ==> e.signerKeyId in trust.value)
  }

  ghost predicate SignatureOk(c: Crypto, e: Entry, genesis: Option<Entry>, trust: TrustRoot) {
    if e.signerKeyId == HASH_ONLY then e.signature.None? && e.signerPublicKey.None?
    else VerifyEntrySignature(c, e) && TrustOk(e, genesis, trust)
  }

  function WithTrust(acc: Findings, e: Entry, genesis: Option<Entry>, trust: TrustRoot, index: nat): (r: Findings)
    ensures |acc| <= |r| && (|r| == |acc| <==> TrustOk(e, genesis, trust))
  {
    var f := Of(TRUST, index, e);
    var a := Add(acc, genesis.Some? && NotInGenesisRoot(genesis.value, e.signerKeyId), f);
    Add(a, trust.Some? && e.signerKeyId !in trust.value, f)
  }

  function WithSignature(
    acc: Findings, c: Crypto, e: Entry, genesis: Option<Entry>, trust: TrustRoot, index: nat): (r: Findings)
    ensures |acc| <= |r| && (|r| == |acc| <==> SignatureOk(c, e, genesis, trust))
  {
    var f := Of(SIGNATURE, index, e);
    if e.signerKeyId == HASH_ONLY then
      Add(acc, e.signature.Some? || e.signerPublicKey.Some?, f)
    else
      WithTrust(Add(acc, !VerifyEntrySignature(c, e), f), e, genesis, trust, index)
  }

  method CheckSignatureAndTrust(
    c: Crypto, e: Entry, genesis: Option<Entry>, trust: TrustRoot, index: nat, findings: Log<Finding>)
    modifies findings
    ensures findings.items == WithSignature(old(findings.items), c, e, genesis, trust, index)
  {
    if e.signerKeyId == HASH_ONLY {
      if e.signature.Some? || e.signerPublicKey.Some? {
        findings.Push(Of(SIGNATURE, index, e));
      }
      return;
    }
    if e.signature.None? || e.signerPublicKey.None? {
      findings.Push(Of(SIGNATURE, index, e));
    } else if !VerifyEntrySignature(c, e) {
      findings.Push(Of(SIGNATURE, index, e));
    }
    if genesis.Some? && NotInGenesisRoot(genesis.value, e.signerKeyId) {
      findings.Push(Of(TRUST, index, e));
    }
    if trust.Some? && e.signerKeyId !in trust.value {
      findings.Push(Of(TRUST, index, e));
    }
  }

  // ---------- Duplicates ----------

  predicate Clash(prior: Entry, e: Entry) {
    prior.entryId == e.entryId || (prior.ledgerId == e.ledgerId && prior.sequence == e.sequence)
  }

  /** After comparing the entry at `position` with the first `n` entries. */
  function WithDuplicates(acc: Findings, slots: seq<Slot>, position: nat, n: nat): (r: Findings)
    requires n <= position < |slots|
    ensures |acc| <= |r|
    ensures |r| == |acc| <==> forall i :: 0 <= i < n ==> !Clash(slots[i].entry, slots[position].entry)
  {
    if n == 0 then acc
    else
      var prior, e := slots[n - 1].entry, slots[position].entry;
      var f := Of(DUPLICATE, slots[position].index, e);
      var a := Add(WithDuplicates(acc, slots, position, n - 1), prior.entryId == e.entryId, f);
      Add(a, prior.ledgerId == e.ledgerId && prior.sequence == e.sequence, f)
  }

  method CheckDuplicates(slots: seq<Slot>, position: nat, findings: Log<Finding>)
    requires position < |slots|
    modifies findings
    ensures findings.items == WithDuplicates(old(findings.items), slots, position, position)
  {
    var e, index := slots[position].entry, slots[position].index;
    for earlier := 0 to position
      invariant findings.items == WithDuplicates(old(findings.items), slots, position, earlier)
    {
      var prior := slots[earlier].entry;
      if prior.entryId == e.entryId {
        findings.Push(Of(DUPLICATE, index, e));
      }
      if prior.ledgerId == e.ledgerId && prior.sequence == e.sequence {
        findings.Push(Of(DUPLICATE, index, e));
      }
    }
  }

  // ---------- One entry ----------

  function WithEntry(
    acc: Findings, c: Crypto, slots: seq<Slot>, position: nat, ledgerId: Text, trust: TrustRoot): (r: Findings)
    requires position < |slots|
    ensures |acc| <= |r|
  {
    var e, index := slots[position].entry, slots[position].index;
    var a := if position == 0 then WithGenesis(acc, c, e, index)
             else WithLinkage(acc, c, e, slots[position - 1].entry, ledgerId, index);
    var b := Add(a, e.sequence != position + 1, Of(SEQUENCE, index, e));
    var d := Add(b, e.payloadHash != c.sha256(PayloadText(e)), Of(ENTRY_HASH, index, e));
    var f := if e.entryType == RECEIPT_RECORDED then WithReceipt(d, c, e, index) else d;
    var genesis := if position > 0 then Some(slots[0].entry) else None;
    var g := WithSignature(f, c, e, genesis, trust, index);
    WithDuplicates(g, slots, position, position)
  }

  /** Everything that is checked of one entry, given those before it. */
  ghost predicate EntryOk(c: Crypto, slots: seq<Slot>, position: nat, ledgerId: Text, trust: TrustRoot)
    requires position < |slots|
  {
    var e := slots[position].entry;
    && (if position == 0 then GenesisOk(c, e)
        else e.previousEntryHash == EntryHash(c, slots[position - 1].entry) && e.ledgerId == ledgerId)
    && e.sequence == position + 1
    && e.payloadHash == c.sha256(PayloadText(e))
    && (e.entryType == RECEIPT_RECORDED ==> ReceiptOk(c, e))
    && SignatureOk(c, e, if position > 0 then Some(slots[0].entry) else None, trust)
    && forall i :: 0 <= i < position ==> !Clash(slots[i].entry, e)
  }

  lemma {:induction false} WithEntryClean(
    acc: Findings, c: Crypto, slots: seq<Slot>, position: nat, ledgerId: Text, trust: TrustRoot)
    requires position < |slots|
    ensures |WithEntry(acc, c, slots, position, ledgerId, trust)| == |acc| <==> EntryOk(c, slots, position, ledgerId, trust)
  {
  }

  method CheckParsedEntry(
    c: Crypto, slots: seq<Slot>, position: nat, ledgerId: Text, trust: TrustRoot, findings: Log<Finding>)
    requires position < |slots|
    modifies findings
    ensures findings.items == WithEntry(old(findings.items), c, slots, position, ledgerId, trust)
  {
    var e, index := slots[position].entry, slots[position].index;
    if position == 0 {
      CheckGenesis(c, e, index, findings);
    } else {
      CheckLinkage(c, e, slots[position - 1].entry, ledgerId, index, findings);
    }
    if e.sequence != position + 1 {
      findings.Push(Of(SEQUENCE, index, e));
    }
    if e.payloadHash != c.sha256(PayloadText(e)) {
      findings.Push(Of(ENTRY_HASH, index, e));
    }
    if e.entryType == RECEIPT_RECORDED {
      CheckReceiptReference(c, e, index, findings);
    }
    var genesis := if position > 0 then Some(slots[0].entry) else None;
    CheckSignatureAndTrust(c, e, genesis, trust, index, findings);
    CheckDuplicates(slots, position, findings);
  }

  // ---------- The whole ledger ----------

  function LedgerIdOf(slots: seq<Slot>): Text {
    if slots == [] then [] else slots[0].entry.ledgerId
  }

  /** After running a check over the first `n` positions. */
  function AfterChecks(check: (Findings, nat) -> Findings, acc: Findings, n: nat): Findings {
    if n == 0 then acc else check(AfterChecks(check, acc, n - 1), n - 1)
  }

  /** The check of the entry at a position. */
  function EntryCheck(c: Crypto, slots: seq<Slot>, trust: TrustRoot): (Findings, nat) -> Findings {
    (acc: Findings, position: nat) =>
      if position < |slots| then WithEntry(acc, c, slots, position, LedgerIdOf(slots), trust) else acc
  }

  function MakeReport(c: Crypto, checked: nat, slots: seq<Slot>, findings: Findings): Report {
    var last := if |slots| > 0 then Some(slots[|slots| - 1]) else None;
    Report(
      |findings| == 0,
      LedgerIdOf(slots),
      checked,
      if last.Some? then Some(EntryHash(c, last.value.entry)) else None,
      findings)
  }

  function ReportOf(c: Crypto, lines: seq<Text>, trust: TrustRoot): Report {
    var parsed := AfterLines(CheckLine, lines, |lines|);
    var findings := AfterChecks(EntryCheck(c, parsed.slots, trust), parsed.findings, |parsed.slots|);
    MakeReport(c, |lines|, parsed.slots, findings)
  }

  method CheckEntries(c: Crypto, slots: seq<Slot>, trust: TrustRoot, findings: Log<Finding>) returns (ledgerId: Text)
    modifies findings
    ensures ledgerId == LedgerIdOf(slots)
    ensures findings.items == AfterChecks(EntryCheck(c, slots, trust), old(findings.items), |slots|)
  {
    ledgerId := [];
    for position := 0 to |slots|
      invariant ledgerId == if position == 0 then [] else LedgerIdOf(slots)
      invariant findings.items == AfterChecks(EntryCheck(c, slots, trust), old(findings.items), position)
    {
      if position == 0 {
        ledgerId := slots[0].entry.ledgerId;
      }
      CheckParsedEntry(c, slots, position, ledgerId, trust, findings);
    }
  }

  method ValidateLedger(c: Crypto, lines: seq<Text>, trust: TrustRoot) returns (report: Report)
    ensures report == ReportOf(c, lines, trust)
  {
    var findings := new Log<Finding>();
    var parsedEntries := ParseLines(lines, findings);
    var ledgerId := CheckEntries(c, parsedEntries, trust, findings);
    report := MakeReport(c, |lines|, parsedEntries, findings.items).(ledgerId := ledgerId);
  }
}
