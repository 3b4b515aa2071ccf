/** What the findings of a report say: each kind of fault is reported at exactly the lines that have it. */
module Diagnosis {
  import opened Wrappers
  import opened JsText
  import opened Json
  import opened JsonParser
  import opened LedgerEntry
  import opened LedgerBuild
  import opened LedgerShape
  import opened Validator
  import opened LedgerRules

  /** The kinds of findings, with the lines they are about. */
  ghost function Marks(fs: Findings): set<(Code, nat)> {
    set f | f in fs :: (f.code, f.entryIndex)
  }

  lemma {:induction false} MarksMore(fs: Findings, f: Finding)
    ensures Marks(fs + [f]) == Marks(fs) + {(f.code, f.entryIndex)}
  {
  }

  lemma {:induction false} MarksConcat(fs: Findings, gs: Findings)
    ensures Marks(fs + gs) == Marks(fs) + Marks(gs)
  {
  }

  ghost function MarkIf(condition: bool, code: Code, index: nat): set<(Code, nat)> {
    if condition then {(code, index)} else {}
  }

  lemma {:induction false} MarksAdd(fs: Findings, condition: bool, f: Finding)
    ensures Marks(Add(fs, condition, f)) == Marks(fs) + MarkIf(condition, f.code, f.entryIndex)
  {
  }

  // ---------- The faults of a line ----------

  /** The faults of a line that cannot be read as an entry, or not as a known one. */
  ghost predicate LineFault(code: Code, line: Text) {
    match code
    case PARSE => line == [] || Parse(line).None?
    case SCHEMA =>
      && line != [] && Parse(line).Some?
      && (ReadLine(line).Some? ==> !InVocabulary(ReadLine(line).value.entryType))
    case CANONICALIZATION => ReadLine(line).Some? && line != Stringify(Parse(line).value)
    case UNSUPPORTED_VERSION => ReadLine(line).Some? && ReadLine(line).value.schemaVersion != Lit("1.0")
    case _ => false
  }

  lemma {:induction false} EntryFindingsMark(line: Text, canonical: Text, e: Entry, index: nat)
    ensures Marks(EntryFindings(line, canonical, e, index)) ==
              MarkIf(line != canonical, CANONICALIZATION, index)
              + MarkIf(e.schemaVersion != SCHEMA_VERSION, UNSUPPORTED_VERSION, index)
              + MarkIf(!IsEntryType(e.entryType), SCHEMA, index)
  {
  }

  lemma {:induction false} SchemaFindingsMark(n: nat, index: nat)
    requires n > 0
    ensures Marks(SchemaFindings(n, index)) == {(SCHEMA, index)}
  {
    assert SchemaFindings(n, index)[0] == Finding(SCHEMA, index, None);
  }

  lemma {:induction false} ReadableCheck(line: Text, index: nat)
    requires ReadLine(line).Some?
    ensures CheckLine(line, index).findings ==
              EntryFindings(line, Stringify(Parse(line).value), ReadLine(line).value, index)
  {
  }

  lemma {:induction false} ThreeMarks(a: bool, b: bool, d: bool, index: nat, code: Code, i: nat)
    ensures var marks :=
              MarkIf(a, CANONICALIZATION, index) + MarkIf(b, UNSUPPORTED_VERSION, index) + MarkIf(d, SCHEMA, index);
      (code, i) in marks <==> i == index && match code
        case CANONICALIZATION => a
        case UNSUPPORTED_VERSION => b
        case SCHEMA => d
        case _ => false
  {
  }

  lemma {:induction false} ReadableFaults(line: Text, e: Entry, code: Code)
    requires ReadLine(line) == Some(e)
    ensures LineFault(code, line) <==> match code
              case CANONICALIZATION => line != Stringify(Parse(line).value)
              case UNSUPPORTED_VERSION => e.schemaVersion != SCHEMA_VERSION
              case SCHEMA => !IsEntryType(e.entryType)
              case _ => false
  {
  }

  lemma {:induction false} ReadableMarks(line: Text, index: nat, code: Code, i: nat)
    requires ReadLine(line).Some?
    ensures (code, i) in Marks(CheckLine(line, index).findings) <==> i == index && LineFault(code, line)
  {
    var e, canonical := ReadLine(line).value, Stringify(Parse(line).value);
    ReadableCheck(line, index);
    EntryFindingsMark(line, canonical, e, index);
    ThreeMarks(line != canonical, e.schemaVersion != SCHEMA_VERSION, !IsEntryType(e.entryType), index, code, i);
    ReadableFaults(line, e, code);
  }

  lemma {:induction false} UnreadableMarks(line: Text, index: nat, code: Code, i: nat)
    requires ReadLine(line).None?
    ensures (code, i) in Marks(CheckLine(line, index).findings) <==> i == index && LineFault(code, line)
  {
    var parsed := if line == [] then None else Parse(line);
    match parsed
    case None =>
      assert CheckLine(line, index).findings == [Finding(PARSE, index, None)];
    case Some(data) =>
      SchemaFindingsMark(|ShapeProblems(data)|, index);
      assert CheckLine(line, index).findings == SchemaFindings(|ShapeProblems(data)|, index);
  }

  lemma {:induction false} LineMarks(line: Text, index: nat, code: Code, i: nat)
    ensures (code, i) in Marks(CheckLine(line, index).findings) <==> i == index && LineFault(code, line)
  {
    if ReadLine(line).Some? {
      ReadableMarks(line, index, code, i);
    } else {
      UnreadableMarks(line, index, code, i);
    }
  }

  // ---------- The faults of an entry ----------

  /** The rules that an entry breaks, given the entries read before it. */
  ghost predicate EntryFault(code: Code, c: Crypto, slots: seq<Slot>, p: nat, trust: TrustRoot)
    requires p < |slots|
  {
    var e := slots[p].entry;
    match code
    case GENESIS_RULE => p == 0 && !GenesisRule(c, e)
    case PREVIOUS_HASH => p > 0 && !LinkRule(c, e, slots[p - 1].entry)
    case LEDGER_IDENTITY => p > 0 && e.ledgerId != slots[0].entry.ledgerId
    case SEQUENCE => e.sequence != p + 1
    case ENTRY_HASH => !PayloadRule(c, e)
    case RECEIPT_REFERENCE => !ReceiptRule(c, e)
    case SIGNATURE => !SignatureRule(c, e)
    case TRUST => !TrustRule(e, if p > 0 then Some(slots[0].entry) else None, trust)
    case DUPLICATE =>
      exists j :: 0 <= j < p && (|| slots[j].entry.entryId == e.entryId
                                 || (slots[j].entry.ledgerId == e.ledgerId && slots[j].entry.sequence == e.sequence))
    case _ => false
  }

  lemma {:induction false} ManifestMarks(acc: Findings, e: Entry, index: nat, n: nat)
    requires n <= |MANIFEST_KEYS|
    ensures Marks(WithManifest(acc, e, index, n)) == Marks(acc) +
              MarkIf(exists i :: 0 <= i < n && PayloadField(e, MANIFEST_KEYS[i]).None?, GENESIS_RULE, index)
  {
    if n > 0 {
      ManifestMarks(acc, e, index, n - 1);
      MarksAdd(WithManifest(acc, e, index, n - 1), PayloadField(e, MANIFEST_KEYS[n - 1]).None?, Of(GENESIS_RULE, index, e));
    }
  }

  lemma {:induction false} GenesisMarks(acc: Findings, c: Crypto, e: Entry, index: nat)
    ensures Marks(WithGenesis(acc, c, e, index)) == Marks(acc) + MarkIf(!GenesisOk(c, e), GENESIS_RULE, index)
  {
    var f := Of(GENESIS_RULE, index, e);
    var a := Add(acc, e.entryType != GENESIS, f);
    var b := Add(a, e.sequence != 1, f);
    var d := Add(b, e.previousEntryHash != EmptyHash(c), f);
    var g := Add(d, e.receiptHash != EmptyHash(c), f);
    var h := Add(g, e.signerKeyId != HASH_ONLY, f);
    MarksAdd(acc, e.entryType != GENESIS, f);
    MarksAdd(a, e.sequence != 1, f);
    MarksAdd(b, e.previousEntryHash != EmptyHash(c), f);
    MarksAdd(d, e.receiptHash != EmptyHash(c), f);
    MarksAdd(g, e.signerKeyId != HASH_ONLY, f);
    MarksMore(h, f);
    ManifestMarks(h, e, index, |MANIFEST_KEYS|);
  }

  lemma {:induction false} LinkageMarks(acc: Findings, c: Crypto, e: Entry, prior: Entry, ledgerId: Text, index: nat)
    ensures Marks(WithLinkage(acc, c, e, prior, ledgerId, index)) == Marks(acc)
              + MarkIf(e.previousEntryHash != EntryHash(c, prior), PREVIOUS_HASH, index)
              + MarkIf(e.ledgerId != ledgerId, LEDGER_IDENTITY, index)
  {
  }

  lemma {:induction false} ReceiptMarks(acc: Findings, c: Crypto, e: Entry, index: nat)
    ensures Marks(WithReceipt(acc, c, e, index)) == Marks(acc) + MarkIf(!ReceiptOk(c, e), RECEIPT_REFERENCE, index)
  {
  }

  lemma {:induction false} SignatureMarks(
    acc: Findings, c: Crypto, e: Entry, genesis: Option<Entry>, trust: TrustRoot, index: nat)
    ensures Marks(WithSignature(acc, c, e, genesis, trust, index)) == Marks(acc)
              + MarkIf(if e.signerKeyId == HASH_ONLY then e.signature.Some? || e.signerPublicKey.Some?
                       else !VerifyEntrySignature(c, e), SIGNATURE, index)
              + MarkIf(e.signerKeyId != HASH_ONLY && !TrustOk(e, genesis, trust), TRUST, index)
  {
  }

  lemma {:induction false} DuplicateMarks(acc: Findings, slots: seq<Slot>, p: nat, n: nat)
    requires n <= p < |slots|
    ensures Marks(WithDuplicates(acc, slots, p, n)) == Marks(acc) +
              MarkIf(exists j :: 0 <= j < n && Clash(slots[j].entry, slots[p].entry), DUPLICATE, slots[p].index)
  {
    if n > 0 {
      DuplicateMarks(acc, slots, p, n - 1);
      var prior, e := slots[n - 1].entry, slots[p].entry;
      var f := Of(DUPLICATE, slots[p].index, e);
      var before := WithDuplicates(acc, slots, p, n - 1);
      MarksAdd(before, prior.entryId == e.entryId, f);
      MarksAdd(Add(before, prior.entryId == e.entryId, f), prior.ledgerId == e.ledgerId && prior.sequence == e.sequence, f);
      assert Clash(prior, e) <==> prior.entryId == e.entryId || (prior.ledgerId == e.ledgerId && prior.sequence == e.sequence);
    }
  }

  /** The marks of the rules an entry breaks, at its line. */
  ghost function BrokenMarks(fault: Code -> bool, index: nat): set<(Code, nat)> {
    MarkIf(fault(GENESIS_RULE), GENESIS_RULE, index) + MarkIf(fault(PREVIOUS_HASH), PREVIOUS_HASH, index)
    + MarkIf(fault(LEDGER_IDENTITY), LEDGER_IDENTITY, index) + MarkIf(fault(SEQUENCE), SEQUENCE, index)
    + MarkIf(fault(ENTRY_HASH), ENTRY_HASH, index) + MarkIf(fault(RECEIPT_REFERENCE), RECEIPT_REFERENCE, index)
    + MarkIf(fault(SIGNATURE), SIGNATURE, index) + MarkIf(fault(TRUST), TRUST, index)
    + MarkIf(fault(DUPLICATE), DUPLICATE, index)
  }

  lemma {:induction false} InBrokenMarks(fault: Code -> bool, index: nat, code: Code, i: nat)
    requires !fault(PARSE) && !fault(SCHEMA) && !fault(CANONICALIZATION) && !fault(UNSUPPORTED_VERSION)
    ensures (code, i) in BrokenMarks(fault, index) <==> i == index && fault(code)
  {
  }

  ghost predicate FaultIs(fault: Code -> bool, c: Crypto, slots: seq<Slot>, p: nat, trust: TrustRoot)
    requires p < |slots|
  {
    forall code {:trigger EntryFault(code, c, slots, p, trust)} :: fault(code) <==> EntryFault(code, c, slots, p, trust)
  }

  /** The marks after the checks of an entry, in the order they are made. */
  lemma {:induction false} StepsAddUp(
    acc: set<(Code, nat)>, fault: Code -> bool, index: nat,
    s0: set<(Code, nat)>, s1: set<(Code, nat)>, s2: set<(Code, nat)>, s3: set<(Code, nat)>)
    requires s0 == acc + MarkIf(fault(GENESIS_RULE), GENESIS_RULE, index)
                   + MarkIf(fault(PREVIOUS_HASH), PREVIOUS_HASH, index)
                   + MarkIf(fault(LEDGER_IDENTITY), LEDGER_IDENTITY, index)
    requires s1 == s0 + MarkIf(fault(SEQUENCE), SEQUENCE, index) + MarkIf(fault(ENTRY_HASH), ENTRY_HASH, index)
    requires s2 == s1 + MarkIf(fault(RECEIPT_REFERENCE), RECEIPT_REFERENCE, index)
                   + MarkIf(fault(SIGNATURE), SIGNATURE, index) + MarkIf(fault(TRUST), TRUST, index)
    requires s3 == s2 + MarkIf(fault(DUPLICATE), DUPLICATE, index)
    ensures s3 == acc + BrokenMarks(fault, index)
  {
  }

  lemma {:induction false} PlaceFaults(fault: Code -> bool, c: Crypto, slots: seq<Slot>, p: nat, trust: TrustRoot)
    requires p < |slots| && FaultIs(fault, c, slots, p, trust)
    ensures fault(GENESIS_RULE) <==> p == 0 && !GenesisOk(c, slots[p].entry)
    ensures fault(PREVIOUS_HASH) <==> p > 0 && slots[p].entry.previousEntryHash != EntryHash(c, slots[p - 1].entry)
    ensures fault(LEDGER_IDENTITY) <==> p > 0 && slots[p].entry.ledgerId != LedgerIdOf(slots)
    ensures fault(SEQUENCE) <==> slots[p].entry.sequence != p + 1
  {
    GenesisRuleIs(c, slots[p].entry);
    HashRulesAre(c, slots[p].entry, if p > 0 then slots[p - 1].entry else slots[p].entry);
    assert fault(GENESIS_RULE) <==> EntryFault(GENESIS_RULE, c, slots, p, trust);
    assert fault(PREVIOUS_HASH) <==> EntryFault(PREVIOUS_HASH, c, slots, p, trust);
    assert fault(LEDGER_IDENTITY) <==> EntryFault(LEDGER_IDENTITY, c, slots, p, trust);
    assert fault(SEQUENCE) <==> EntryFault(SEQUENCE, c, slots, p, trust);
  }

  lemma {:induction false} ContentFaults(fault: Code -> bool, c: Crypto, slots: seq<Slot>, p: nat, trust: TrustRoot)
    requires p < |slots| && FaultIs(fault, c, slots, p, trust)
    ensures var e := slots[p].entry;
      var genesis := if p > 0 then Some(slots[0].entry) else None;
      && (fault(ENTRY_HASH) <==> e.payloadHash != c.sha256(PayloadText(e)))
      && (fault(RECEIPT_REFERENCE) <==> e.entryType == RECEIPT_RECORDED && !ReceiptOk(c, e))
      && (fault(SIGNATURE) <==> if e.signerKeyId == HASH_ONLY then e.signature.Some? || e.signerPublicKey.Some?
                                else !VerifyEntrySignature(c, e))
      && (fault(TRUST) <==> e.signerKeyId != HASH_ONLY && !TrustOk(e, genesis, trust))
      && (fault(DUPLICATE) <==> exists j :: 0 <= j < p && Clash(slots[j].entry, slots[p].entry))
  {
    HashRulesAre(c, slots[p].entry, slots[p].entry);
    ReceiptRuleIs(c, slots[p].entry);
    SignatureRulesAre(c, slots[p].entry, if p > 0 then Some(slots[0].entry) else None, trust);
    assert fault(ENTRY_HASH) <==> EntryFault(ENTRY_HASH, c, slots, p, trust);
    assert fault(RECEIPT_REFERENCE) <==> EntryFault(RECEIPT_REFERENCE, c, slots, p, trust);
    assert fault(SIGNATURE) <==> EntryFault(SIGNATURE, c, slots, p, trust);
    assert fault(TRUST) <==> EntryFault(TRUST, c, slots, p, trust);
    assert fault(DUPLICATE) <==> EntryFault(DUPLICATE, c, slots, p, trust);
  }

  lemma {:induction false} PlaceMarks(
    acc: Findings, fault: Code -> bool, c: Crypto, slots: seq<Slot>, p: nat, trust: TrustRoot)
    requires p < |slots| && FaultIs(fault, c, slots, p, trust)
    ensures var e, index := slots[p].entry, slots[p].index;
      var a := if p == 0 then WithGenesis(acc, c, e, index)
               else WithLinkage(acc, c, e, slots[p - 1].entry, LedgerIdOf(slots), index);
      Marks(a) == Marks(acc) + MarkIf(fault(GENESIS_RULE), GENESIS_RULE, index)
                  + MarkIf(fault(PREVIOUS_HASH), PREVIOUS_HASH, index)
                  + MarkIf(fault(LEDGER_IDENTITY), LEDGER_IDENTITY, index)
  {
    var e, index := slots[p].entry, slots[p].index;
    PlaceFaults(fault, c, slots, p, trust);
    if p == 0 {
      GenesisMarks(acc, c, e, index);
    } else {
      LinkageMarks(acc, c, e, slots[p - 1].entry, LedgerIdOf(slots), index);
    }
  }

  lemma {:induction false} BindingMarks(
    acc: Findings, fault: Code -> bool, c: Crypto, slots: seq<Slot>, p: nat, trust: TrustRoot)
    requires p < |slots| && FaultIs(fault, c, slots, p, trust)
    ensures var e, index := slots[p].entry, slots[p].index;
      var a := Add(acc, e.sequence != p + 1, Of(SEQUENCE, index, e));
      var b := Add(a, e.payloadHash != c.sha256(PayloadText(e)), Of(ENTRY_HASH, index, e));
      Marks(b) == Marks(acc) + MarkIf(fault(SEQUENCE), SEQUENCE, index) + MarkIf(fault(ENTRY_HASH), ENTRY_HASH, index)
  {
    var e, index := slots[p].entry, slots[p].index;
    PlaceFaults(fault, c, slots, p, trust);
    ContentFaults(fault, c, slots, p, trust);
    MarksAdd(acc, e.sequence != p + 1, Of(SEQUENCE, index, e));
    MarksAdd(Add(acc, e.sequence != p + 1, Of(SEQUENCE, index, e)), fault(ENTRY_HASH), Of(ENTRY_HASH, index, e));
  }

  lemma {:induction false} ContentMarks(
    acc: Findings, fault: Code -> bool, c: Crypto, slots: seq<Slot>, p: nat, trust: TrustRoot)
    requires p < |slots| && FaultIs(fault, c, slots, p, trust)
    ensures var e, index := slots[p].entry, slots[p].index;
      var a := if e.entryType == RECEIPT_RECORDED then WithReceipt(acc, c, e, index) else acc;
      var b := WithSignature(a, c, e, if p > 0 then Some(slots[0].entry) else None, trust, index);
      Marks(b) == Marks(acc) + MarkIf(fault(RECEIPT_REFERENCE), RECEIPT_REFERENCE, index)
                  + MarkIf(fault(SIGNATURE), SIGNATURE, index) + MarkIf(fault(TRUST), TRUST, index)
  {
    var e, index := slots[p].entry, slots[p].index;
    var a := if e.entryType == RECEIPT_RECORDED then WithReceipt(acc, c, e, index) else acc;
    ContentFaults(fault, c, slots, p, trust);
    ReceiptMarks(acc, c, e, index);
    SignatureMarks(a, c, e, if p > 0 then Some(slots[0].entry) else None, trust, index);
  }

  lemma {:induction false} RepeatMarks(
    acc: Findings, fault: Code -> bool, c: Crypto, slots: seq<Slot>, p: nat, trust: TrustRoot)
    requires p < |slots| && FaultIs(fault, c, slots, p, trust)
    ensures Marks(WithDuplicates(acc, slots, p, p)) == Marks(acc) + MarkIf(fault(DUPLICATE), DUPLICATE, slots[p].index)
  {
    ContentFaults(fault, c, slots, p, trust);
    DuplicateMarks(acc, slots, p, p);
  }

  /** One entry adds exactly the marks of the rules it breaks, at its own line. */
  lemma {:induction false} WithEntryMarks(
    acc: Findings, fault: Code -> bool, c: Crypto, slots: seq<Slot>, p: nat, trust: TrustRoot)
    requires p < |slots| && FaultIs(fault, c, slots, p, trust)
    ensures Marks(WithEntry(acc, c, slots, p, LedgerIdOf(slots), trust)) ==
              Marks(acc) + BrokenMarks(fault, slots[p].index)
  {
    var e, index := slots[p].entry, slots[p].index;
    var s0 := if p == 0 then WithGenesis(acc, c, e, index)
              else WithLinkage(acc, c, e, slots[p - 1].entry, LedgerIdOf(slots), index);
    var s1 := Add(Add(s0, e.sequence != p + 1, Of(SEQUENCE, index, e)),
                  e.payloadHash != c.sha256(PayloadText(e)), Of(ENTRY_HASH, index, e));
    var receipt := if e.entryType == RECEIPT_RECORDED then WithReceipt(s1, c, e, index) else s1;
    var s2 := WithSignature(receipt, c, e, if p > 0 then Some(slots[0].entry) else None, trust, index);
    PlaceMarks(acc, fault, c, slots, p, trust);
    BindingMarks(s0, fault, c, slots, p, trust);
    ContentMarks(s1, fault, c, slots, p, trust);
    RepeatMarks(s2, fault, c, slots, p, trust);
    StepsAddUp(Marks(acc), fault, index, Marks(s0), Marks(s1), Marks(s2), Marks(WithDuplicates(s2, slots, p, p)));
  }

  lemma {:induction false} NoLineFaults(fault: Code -> bool, c: Crypto, slots: seq<Slot>, p: nat, trust: TrustRoot)
    requires p < |slots| && FaultIs(fault, c, slots, p, trust)
    ensures !fault(PARSE) && !fault(SCHEMA) && !fault(CANONICALIZATION) && !fault(UNSUPPORTED_VERSION)
  {
    assert fault(PARSE) <==> EntryFault(PARSE, c, slots, p, trust);
    assert fault(SCHEMA) <==> EntryFault(SCHEMA, c, slots, p, trust);
    assert fault(CANONICALIZATION) <==> EntryFault(CANONICALIZATION, c, slots, p, trust);
    assert fault(UNSUPPORTED_VERSION) <==> EntryFault(UNSUPPORTED_VERSION, c, slots, p, trust);
  }

  lemma {:induction false} EntryMarks(
    acc: Findings, fault: Code -> bool, c: Crypto, slots: seq<Slot>, p: nat, trust: TrustRoot, code: Code, i: nat)
    requires p < |slots| && FaultIs(fault, c, slots, p, trust)
    ensures (code, i) in Marks(WithEntry(acc, c, slots, p, LedgerIdOf(slots), trust)) <==>
              (code, i) in Marks(acc) || (i == slots[p].index && fault(code))
  {
    WithEntryMarks(acc, fault, c, slots, p, trust);
    NoLineFaults(fault, c, slots, p, trust);
    InBrokenMarks(fault, slots[p].index, code, i);
  }

  // ---------- The whole report ----------

  /** The slots are the lines that can be read as entries, in order. */
  ghost predicate SlotsOf(read: Text -> Option<Entry>, lines: seq<Text>, n: nat, slots: seq<Slot>)
    requires n <= |lines|
  {
    && (forall p :: 0 <= p < |slots| ==> slots[p].index < n && read(lines[slots[p].index]) == Some(slots[p].entry))
    && (forall p, q :: 0 <= p < q < |slots| ==> slots[p].index < slots[q].index)
    && (forall i :: 0 <= i < n && read(lines[i]).Some? ==> exists p :: 0 <= p < |slots| && slots[p].index == i)
  }

  lemma {:induction false} SlotsMore(
    read: Text -> Option<Entry>, lines: seq<Text>, n: nat, before: seq<Slot>, after: seq<Slot>)
    requires n < |lines| && SlotsOf(read, lines, n, before)
    requires after == match read(lines[n]) case None => before case Some(e) => before + [Slot(e, n)]
    ensures SlotsOf(read, lines, n + 1, after)
  {
    forall i | 0 <= i < n + 1 && read(lines[i]).Some? ensures exists p :: 0 <= p < |after| && after[p].index == i {
      if i < n {
        var p :| 0 <= p < |before| && before[p].index == i;
        assert after[p] == before[p];
      } else {
        assert after[|before|].index == n;
      }
    }
  }

  function WithSlot(slots: seq<Slot>, read: Option<Entry>, n: nat): seq<Slot> {
    match read
    case None => slots
    case Some(e) => slots + [Slot(e, n)]
  }

  lemma {:induction false} SlotsFoldBy(
    check: (Text, nat) -> LineCheck, lines: seq<Text>, n: nat, ok: (nat, seq<Slot>) -> bool)
    requires n <= |lines| && ok(0, [])
    requires forall k: nat, slots {:trigger ok(k, slots)} :: k < |lines| && ok(k, slots) ==>
               ok(k + 1, WithSlot(slots, check(lines[k], k).entry, k))
    ensures ok(n, AfterLines(check, lines, n).slots)
  {
    if n > 0 {
      SlotsFoldBy(check, lines, n - 1, ok);
    }
  }

  lemma {:induction false} SlotsFold(
    check: (Text, nat) -> LineCheck, read: Text -> Option<Entry>, lines: seq<Text>, n: nat)
    requires n <= |lines|
    requires forall line, i {:trigger check(line, i)} :: check(line, i).entry == read(line)
    ensures SlotsOf(read, lines, n, AfterLines(check, lines, n).slots)
  {
    var ok := (k: nat, slots: seq<Slot>) => k <= |lines| && SlotsOf(read, lines, k, slots);
    forall k: nat, slots | k < |lines| && ok(k, slots) ensures ok(k + 1, WithSlot(slots, check(lines[k], k).entry, k)) {
      SlotsMore(read, lines, k, slots, WithSlot(slots, check(lines[k], k).entry, k));
    }
    SlotsFoldBy(check, lines, n, ok);
  }

  lemma {:induction false} LinesFoldMarks(
    check: (Text, nat) -> LineCheck, fault: (Code, Text) -> bool, lines: seq<Text>, n: nat, code: Code, i: nat)
    requires n <= |lines|
    requires forall line, j {:trigger check(line, j)} ::
               (code, i) in Marks(check(line, j).findings) <==> i == j && fault(code, line)
    ensures (code, i) in Marks(AfterLines(check, lines, n).findings) <==> i < n && fault(code, lines[i])
  {
    if n > 0 {
      LinesFoldMarks(check, fault, lines, n - 1, code, i);
      MarksConcat(AfterLines(check, lines, n - 1).findings, check(lines[n - 1], n - 1).findings);
    }
  }

  lemma {:induction false} ChecksFoldMarks(
    check: (Findings, nat) -> Findings, faulty: nat -> bool, acc: Findings, n: nat, code: Code, i: nat)
    requires forall fs, p: nat {:trigger check(fs, p)} :: p < n ==>
               ((code, i) in Marks(check(fs, p)) <==> (code, i) in Marks(fs) || faulty(p))
    ensures (code, i) in Marks(AfterChecks(check, acc, n)) <==>
              (code, i) in Marks(acc) || exists p: nat :: p < n && faulty(p)
  {
    if n > 0 {
      ChecksFoldMarks(check, faulty, acc, n - 1, code, i);
    }
  }

  /** The faults of the entry at a position, as a value. */
  ghost function FaultsAt(c: Crypto, slots: seq<Slot>, p: nat, trust: TrustRoot): (fault: Code -> bool)
    requires p < |slots|
    ensures FaultIs(fault, c, slots, p, trust)
  {
    (code: Code) => p < |slots| && EntryFault(code, c, slots, p, trust)
  }

  lemma {:induction false} ChecksMarks(c: Crypto, slots: seq<Slot>, trust: TrustRoot, acc: Findings, code: Code, i: nat)
    ensures (code, i) in Marks(AfterChecks(EntryCheck(c, slots, trust), acc, |slots|)) <==>
              || (code, i) in Marks(acc)
              || exists p: nat :: p < |slots| && slots[p].index == i && EntryFault(code, c, slots, p, trust)
  {
    var check := EntryCheck(c, slots, trust);
    var faulty := (p: nat) => p < |slots| && i == slots[p].index && EntryFault(code, c, slots, p, trust);
    forall fs, p: nat | p < |slots|
      ensures (code, i) in Marks(check(fs, p)) <==> (code, i) in Marks(fs) || faulty(p)
    {
      var fault := FaultsAt(c, slots, p, trust);
      EntryMarks(fs, fault, c, slots, p, trust, code, i);
      assert fault(code) <==> EntryFault(code, c, slots, p, trust);
    }
    ChecksFoldMarks(check, faulty, acc, |slots|, code, i);
    assert forall p: nat :: faulty(p) <==> p < |slots| && slots[p].index == i && EntryFault(code, c, slots, p, trust);
  }

  /**
   * The report has a finding of a kind at a line exactly when the line has that fault, or is the
   * entry of a slot that breaks that rule; the slots are the readable lines in order.
   */
  lemma {:induction false} FindingsAreFaults(c: Crypto, lines: seq<Text>, trust: TrustRoot, code: Code, i: nat)
      returns (slots: seq<Slot>)
    ensures SlotsOf(ReadLine, lines, |lines|, slots)
    ensures (code, i) in Marks(ReportOf(c, lines, trust).findings) <==>
              || (i < |lines| && LineFault(code, lines[i]))
              || exists p: nat :: p < |slots| && slots[p].index == i && EntryFault(code, c, slots, p, trust)
  {
    var parsed := AfterLines(CheckLine, lines, |lines|);
    slots := parsed.slots;
    forall line, j ensures CheckLine(line, j).entry == ReadLine(line) {
      CheckLineClean(line, j);
    }
    SlotsFold(CheckLine, ReadLine, lines, |lines|);
    LinesMarks(lines, code, i);
    ChecksMarks(c, slots, trust, parsed.findings, code, i);
  }

  lemma {:induction false} LinesMarks(lines: seq<Text>, code: Code, i: nat)
    ensures (code, i) in Marks(AfterLines(CheckLine, lines, |lines|).findings) <==>
              i < |lines| && LineFault(code, lines[i])
  {
    forall line, j: nat ensures (code, i) in Marks(CheckLine(line, j).findings) <==> i == j && LineFault(code, line) {
      LineMarks(line, j, code, i);
    }
    LinesFoldMarks(CheckLine, (k: Code, line: Text) => LineFault(k, line), lines, |lines|, code, i);
  }

  /** A readable line gets a signature finding exactly when its entry breaks the rule for signatures. */
  lemma {:induction false} SignatureMarkIff(c: Crypto, lines: seq<Text>, trust: TrustRoot, i: nat)
    ensures (SIGNATURE, i) in Marks(ReportOf(c, lines, trust).findings) <==>
              i < |lines| && ReadLine(lines[i]).Some? && !SignatureRule(c, ReadLine(lines[i]).value)
  {
    var slots := FindingsAreFaults(c, lines, trust, SIGNATURE, i);
    SlotOfLine(c, lines, slots, trust, i);
  }

  lemma {:induction false} SlotOfLine(c: Crypto, lines: seq<Text>, slots: seq<Slot>, trust: TrustRoot, i: nat)
    requires SlotsOf(ReadLine, lines, |lines|, slots)
    ensures (exists p: nat :: p < |slots| && slots[p].index == i && EntryFault(SIGNATURE, c, slots, p, trust)) <==>
              i < |lines| && ReadLine(lines[i]).Some? && !SignatureRule(c, ReadLine(lines[i]).value)
  {
    forall p: nat | p < |slots| ensures EntryFault(SIGNATURE, c, slots, p, trust) <==> !SignatureRule(c, slots[p].entry) {
    }
    if i < |lines| && ReadLine(lines[i]).Some? {
      var p :| 0 <= p < |slots| && slots[p].index == i;
    }
  }

  /** An entry whose signature does not verify over its signed text is found out, wherever it stands. */
  lemma {:induction false} UnverifiedIsFound(c: Crypto, lines: seq<Text>, trust: TrustRoot, i: nat, e: Entry)
    requires i < |lines| && ReadLine(lines[i]) == Some(e) && e.signerKeyId != Lit("hash-only")
    requires e.signature.Some? && e.signerPublicKey.Some? ==>
               !c.verify(e.signerPublicKey.value, SigningString(e), e.signature.value)
    ensures (SIGNATURE, i) in Marks(ReportOf(c, lines, trust).findings)
  {
    SignedTextIs(e);
    SignatureMarkIff(c, lines, trust, i);
  }

  // ---------- What findings are about ----------

  /** The finding names the line, and the entry if the line can be read as one. */
  ghost predicate Named(lines: seq<Text>, f: Finding) {
    && f.entryIndex < |lines|
    && f.about == match ReadLine(lines[f.entryIndex])
                  case None => None
                  case Some(e) => Some(About(e.entryId, e.sequence))
  }

  ghost predicate AllNamed(lines: seq<Text>, fs: Findings) {
    forall f {:trigger f in fs} :: f in fs ==> Named(lines, f)
  }

  /** Findings added to others are about one entry. */
  ghost predicate AddsAbout(acc: Findings, r: Findings, e: Entry, index: nat) {
    forall f :: f in r ==> f in acc || (f.entryIndex == index && f.about == Some(About(e.entryId, e.sequence)))
  }

  lemma {:induction false} AboutManifest(acc: Findings, e: Entry, index: nat, n: nat)
    requires n <= |MANIFEST_KEYS|
    ensures AddsAbout(acc, WithManifest(acc, e, index, n), e, index)
  {
    if n > 0 {
      AboutManifest(acc, e, index, n - 1);
    }
  }

  lemma {:induction false} AboutGenesis(acc: Findings, c: Crypto, e: Entry, index: nat)
    ensures AddsAbout(acc, WithGenesis(acc, c, e, index), e, index)
  {
    var f := Of(GENESIS_RULE, index, e);
    var a := Add(acc, e.entryType != GENESIS, f);
    var b := Add(a, e.sequence != 1, f);
    var d := Add(b, e.previousEntryHash != EmptyHash(c), f);
    var g := Add(d, e.receiptHash != EmptyHash(c), f);
    var h := Add(g, e.signerKeyId != HASH_ONLY, f);
    assert AddsAbout(acc, h, e, index);
    AboutManifest(h, e, index, |MANIFEST_KEYS|);
  }

  lemma {:induction false} AboutDuplicates(acc: Findings, slots: seq<Slot>, p: nat, n: nat)
    requires n <= p < |slots|
    ensures AddsAbout(acc, WithDuplicates(acc, slots, p, n), slots[p].entry, slots[p].index)
  {
    if n > 0 {
      AboutDuplicates(acc, slots, p, n - 1);
    }
  }

  lemma {:induction false} AboutReceipt(acc: Findings, c: Crypto, e: Entry, index: nat)
    ensures AddsAbout(acc, WithReceipt(acc, c, e, index), e, index)
  {
  }

  lemma {:induction false} AboutLinkage(acc: Findings, c: Crypto, e: Entry, prior: Entry, ledgerId: Text, index: nat)
    ensures AddsAbout(acc, WithLinkage(acc, c, e, prior, ledgerId, index), e, index)
  {
  }

  lemma {:induction false} AboutSignature(
    acc: Findings, c: Crypto, e: Entry, genesis: Option<Entry>, trust: TrustRoot, index: nat)
    ensures AddsAbout(acc, WithSignature(acc, c, e, genesis, trust, index), e, index)
  {
  }

  lemma {:induction false} AboutEntry(acc: Findings, c: Crypto, slots: seq<Slot>, p: nat, trust: TrustRoot)
    requires p < |slots|
    ensures AddsAbout(acc, WithEntry(acc, c, slots, p, LedgerIdOf(slots), trust), slots[p].entry, slots[p].index)
  {
    var e, index := slots[p].entry, slots[p].index;
    var a := if p == 0 then WithGenesis(acc, c, e, index)
             else WithLinkage(acc, c, e, slots[p - 1].entry, LedgerIdOf(slots), index);
    if p == 0 {
      AboutGenesis(acc, c, e, index);
    } else {
      AboutLinkage(acc, c, e, slots[p - 1].entry, LedgerIdOf(slots), index);
    }
    var b := Add(a, e.sequence != p + 1, Of(SEQUENCE, index, e));
    var d := Add(b, e.payloadHash != c.sha256(PayloadText(e)), Of(ENTRY_HASH, index, e));
    var f := if e.entryType == RECEIPT_RECORDED then WithReceipt(d, c, e, index) else d;
    AboutReceipt(d, c, e, index);
    var genesis := if p > 0 then Some(slots[0].entry) else None;
    AboutSignature(f, c, e, genesis, trust, index);
    AboutDuplicates(WithSignature(f, c, e, genesis, trust, index), slots, p, p);
  }

  lemma {:induction false} AboutLine(line: Text, canonical: Text, e: Entry, index: nat)
    ensures AddsAbout([], EntryFindings(line, canonical, e, index), e, index)
  {
  }

  lemma {:induction false} UnreadableCheck(line: Text, index: nat)
    requires ReadLine(line).None?
    ensures forall f :: f in CheckLine(line, index).findings ==> f.entryIndex == index && f.about.None?
  {
  }

  lemma {:induction false} LineNamed(lines: seq<Text>, index: nat)
    requires index < |lines|
    ensures AllNamed(lines, CheckLine(lines[index], index).findings)
  {
    var line := lines[index];
    if ReadLine(line).Some? {
      ReadableCheck(line, index);
      AboutLine(line, Stringify(Parse(line).value), ReadLine(line).value, index);
    } else {
      UnreadableCheck(line, index);
    }
  }

  lemma {:induction false} LinesNamed(check: (Text, nat) -> LineCheck, lines: seq<Text>, n: nat)
    requires n <= |lines|
    requires forall i :: 0 <= i < |lines| ==> AllNamed(lines, check(lines[i], i).findings)
    ensures AllNamed(lines, AfterLines(check, lines, n).findings)
  {
    if n > 0 {
      LinesNamed(check, lines, n - 1);
      assert AllNamed(lines, check(lines[n - 1], n - 1).findings);
    }
  }

  lemma {:induction false} AddedNamed(lines: seq<Text>, acc: Findings, r: Findings, e: Entry, index: nat)
    requires AllNamed(lines, acc) && AddsAbout(acc, r, e, index) && index < |lines| && ReadLine(lines[index]) == Some(e)
    ensures AllNamed(lines, r)
  {
    forall f | f in r ensures Named(lines, f) {
      assert f in acc || f.entryIndex == index;
    }
  }

  lemma {:induction false} ChecksNamed(
    check: (Findings, nat) -> Findings, named: Findings -> bool, acc: Findings, n: nat)
    requires named(acc)
    requires forall fs, p: nat {:trigger check(fs, p)} :: p < n && named(fs) ==> named(check(fs, p))
    ensures named(AfterChecks(check, acc, n))
  {
    if n > 0 {
      ChecksNamed(check, named, acc, n - 1);
    }
  }

  /** Every finding names its line and the entry on it; the report counts all lines and names the first entry's ledger. */
  lemma {:induction false} ReportNamesEntries(c: Crypto, lines: seq<Text>, trust: TrustRoot)
    ensures var report := ReportOf(c, lines, trust);
      && report.entriesChecked == |lines|
      && AllNamed(lines, report.findings)
      && (forall i :: 0 <= i < |lines| && ReadLine(lines[i]).Some? && (forall j :: 0 <= j < i ==> ReadLine(lines[j]).None?) ==>
            report.ledgerId == ReadLine(lines[i]).value.ledgerId)
      && ((forall i :: 0 <= i < |lines| ==> ReadLine(lines[i]).None?) ==> report.ledgerId == [])
  {
    var parsed := AfterLines(CheckLine, lines, |lines|);
    forall line, j ensures CheckLine(line, j).entry == ReadLine(line) {
      CheckLineClean(line, j);
    }
    SlotsFold(CheckLine, ReadLine, lines, |lines|);
    forall i | 0 <= i < |lines| ensures AllNamed(lines, CheckLine(lines[i], i).findings) {
      LineNamed(lines, i);
    }
    LinesNamed(CheckLine, lines, |lines|);
    EntriesNamed(c, lines, parsed.slots, trust, parsed.findings);
    FirstSlot(lines, parsed.slots);
  }

  lemma {:induction false} EntriesNamed(c: Crypto, lines: seq<Text>, slots: seq<Slot>, trust: TrustRoot, acc: Findings)
    requires SlotsOf(ReadLine, lines, |lines|, slots) && AllNamed(lines, acc)
    ensures AllNamed(lines, AfterChecks(EntryCheck(c, slots, trust), acc, |slots|))
  {
    var check := EntryCheck(c, slots, trust);
    forall fs, p: nat | p < |slots| && AllNamed(lines, fs) ensures AllNamed(lines, check(fs, p)) {
      AboutEntry(fs, c, slots, p, trust);
      AddedNamed(lines, fs, check(fs, p), slots[p].entry, slots[p].index);
    }
    ChecksNamed(check, fs => AllNamed(lines, fs), acc, |slots|);
  }

  lemma {:induction false} FirstSlot(lines: seq<Text>, slots: seq<Slot>)
    requires SlotsOf(ReadLine, lines, |lines|, slots)
    ensures forall i :: 0 <= i < |lines| && ReadLine(lines[i]).Some? && (forall j :: 0 <= j < i ==> ReadLine(lines[j]).None?) ==>
              LedgerIdOf(slots) == ReadLine(lines[i]).value.ledgerId
    ensures (forall i :: 0 <= i < |lines| ==> ReadLine(lines[i]).None?) ==> LedgerIdOf(slots) == []
  {
    forall i | 0 <= i < |lines| && ReadLine(lines[i]).Some? && (forall j :: 0 <= j < i ==> ReadLine(lines[j]).None?)
      ensures LedgerIdOf(slots) == ReadLine(lines[i]).value.ledgerId
    {
      var p :| 0 <= p < |slots| && slots[p].index == i;
      assert slots[0].index <= slots[p].index;
      assert ReadLine(lines[slots[0].index]).Some?;
    }
    if slots != [] {
      assert ReadLine(lines[slots[0].index]).Some?;
    }
  }
}
