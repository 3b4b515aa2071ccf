/**
 * What a valid ledger is, without reference to the validator's passes: the lines are the
 * canonical texts of a chain of entries in which every entry obeys the rules that look at
 * itself and at what precedes it.
 */
module LedgerChain {
  import opened Wrappers
  import opened JsText
  import opened Json
  import opened JsonParser
  import opened Canonical
  import opened LedgerEntry
  import opened LedgerShape
  import opened Validator

  /** The rules for the entry at `i`, given the chain up to it. */
  ghost predicate RulesOk(c: Crypto, es: seq<Entry>, i: nat, trust: TrustRoot)
    requires i < |es|
  {
    var e := es[i];
    && (if i == 0 then GenesisOk(c, e) else e.previousEntryHash == EntryHash(c, es[i - 1]))
    && e.ledgerId == es[0].ledgerId
    && e.sequence == i + 1
    && e.payloadHash == c.sha256(PayloadText(e))
    && (e.entryType == RECEIPT_RECORDED ==> ReceiptOk(c, e))
    && SignatureOk(c, e, if i > 0 then Some(es[0]) else None, trust)
    && forall j :: 0 <= j < i ==> es[j].entryId != e.entryId
  }

  ghost predicate FormOk(e: Entry) {
    EntryShape(e) && PayloadWf(e) && e.schemaVersion == SCHEMA_VERSION && IsEntryType(e.entryType)
  }

  ghost predicate LocalOk(c: Crypto, es: seq<Entry>, i: nat, trust: TrustRoot)
    requires i < |es|
  {
    FormOk(es[i]) && RulesOk(c, es, i, trust)
  }

  ghost predicate GoodChain(c: Crypto, es: seq<Entry>, trust: TrustRoot) {
    forall i {:trigger LocalOk(c, es, i, trust)} :: 0 <= i < |es| ==> LocalOk(c, es, i, trust)
  }

  ghost predicate LinesOk(lines: seq<Text>) {
    forall i {:trigger LineOk(lines[i])} :: 0 <= i < |lines| ==> LineOk(lines[i])
  }

  /** The lines are the canonical texts of the entries. */
  ghost predicate Stores(lines: seq<Text>, es: seq<Entry>) {
    && |lines| == |es|
    && forall i {:trigger EntryLine(es[i])} :: 0 <= i < |es| ==> PayloadWf(es[i]) && lines[i] == EntryLine(es[i])
  }

  ghost predicate Valid(c: Crypto, lines: seq<Text>, trust: TrustRoot) {
    ReportOf(c, lines, trust).valid
  }

  // ---------- Reading canonical lines ----------

  lemma {:induction false} EntryLineNotEmpty(e: Entry)
    ensures EntryLine(e) != []
  {
  }

  lemma {:induction false} ReadParsed(line: Text, data: Json)
    requires line != [] && Parse(line) == Some(data)
    ensures ShapeProblems(data) == [] ==> data.Obj? && ReadLine(line) == Some(EntryOf(data))
    ensures ShapeProblems(data) != [] ==> ReadLine(line) == None
  {
  }

  /** The line of an entry can be read exactly when the entry is shaped, and reads as that entry. */
  lemma {:induction false} ReadEntryLine(e: Entry)
    requires PayloadWf(e)
    ensures ReadLine(EntryLine(e)) == if EntryShape(e) then Some(NormEntry(e)) else None
    ensures Wf(EntryJson(e)) && Parse(EntryLine(e)) == Some(Norm(EntryJson(e)))
    ensures EntryLine(e) == Stringify(Norm(EntryJson(e)))
  {
    EntryLineNotEmpty(e);
    EntryLineReadsBack(e);
    PrintParse(EntryJson(e));
    ReadParsed(EntryLine(e), Norm(EntryJson(e)));
  }

  /** It passes without findings exactly when the version and the vocabulary are known, too. */
  lemma {:induction false} LineOkOfEntry(e: Entry)
    requires PayloadWf(e)
    ensures LineOk(EntryLine(e)) <==> FormOk(e)
  {
    ReadEntryLine(e);
  }

  lemma {:induction false} LineOkIsEntry(line: Text)
    requires LineOk(line)
    ensures FormOk(ReadLine(line).value)
    ensures line == EntryLine(ReadLine(line).value)
  {
    var data := Parse(line).value;
    ParseWf(line);
    ReadParsed(line, data);
    ShapedIsEntry(data);
    var e := EntryOf(data);
    EntryJsonWf(e);
    SameTextIffSame(data, EntryJson(e));
  }

  /** The entries of lines that all pass. */
  function ReadAll(lines: seq<Text>): (es: seq<Entry>)
    ensures |es| == |lines|
    ensures forall i {:trigger es[i]} :: 0 <= i < |lines| ==> es[i] == ReadOr(lines[i])
  {
    seq(|lines|, i requires 0 <= i < |lines| => ReadOr(lines[i]))
  }

  function ReadOr(line: Text): Entry {
    ReadLine(line).GetOr(EntryFrom(k => None))
  }

  // ---------- The passes of the validator ----------

  /** Nothing was found exactly when nothing was found on any line, and then every line was read. */
  lemma {:induction false} LinesFold(check: (Text, nat) -> LineCheck, lines: seq<Text>, n: nat)
    requires n <= |lines|
    ensures AfterLines(check, lines, n).findings == [] <==>
              forall i :: 0 <= i < n ==> check(lines[i], i).findings == []
    ensures (forall i :: 0 <= i < n ==> check(lines[i], i).entry.Some?) ==>
              var slots := AfterLines(check, lines, n).slots;
              |slots| == n && forall i :: 0 <= i < n ==> slots[i] == Slot(check(lines[i], i).entry.value, i)
  {
    if n > 0 {
      LinesFold(check, lines, n - 1);
    }
  }

  lemma {:induction false} LinesClean(lines: seq<Text>)
    ensures AfterLines(CheckLine, lines, |lines|).findings == [] <==> LinesOk(lines)
  {
    LinesFold(CheckLine, lines, |lines|);
    forall i | 0 <= i < |lines| ensures CheckLine(lines[i], i).findings == [] <==> LineOk(lines[i]) {
      CheckLineClean(lines[i], i);
    }
  }

  lemma {:induction false} LinesFoldRead(check: (Text, nat) -> LineCheck, lines: seq<Text>, es: seq<Entry>)
    requires |es| == |lines| && forall i :: 0 <= i < |lines| ==> check(lines[i], i).entry == Some(es[i])
    ensures EntriesOf(AfterLines(check, lines, |lines|).slots) == es
  {
    LinesFold(check, lines, |lines|);
  }

  lemma {:induction false} LinesRead(lines: seq<Text>)
    requires LinesOk(lines)
    ensures EntriesOf(AfterLines(CheckLine, lines, |lines|).slots) == ReadAll(lines)
  {
    var es := ReadAll(lines);
    forall i | 0 <= i < |lines| ensures CheckLine(lines[i], i).entry == Some(es[i]) {
      assert LineOk(lines[i]);
      CheckLineClean(lines[i], i);
    }
    LinesFoldRead(CheckLine, lines, es);
  }

  lemma {:induction false} LinesOkLast(lines: seq<Text>, line: Text)
    ensures LinesOk(lines + [line]) <==> LinesOk(lines) && LineOk(line)
    ensures ReadAll(lines + [line]) == ReadAll(lines) + [ReadOr(line)]
  {
    var more := lines + [line];
    if LinesOk(more) {
      assert LineOk(more[|lines|]);
      forall i | 0 <= i < |lines| ensures LineOk(lines[i]) {
        assert LineOk(more[i]);
      }
    }
    if LinesOk(lines) && LineOk(line) {
      forall i | 0 <= i < |more| ensures LineOk(more[i]) {
        if i < |lines| {
          assert LineOk(lines[i]);
        }
      }
    }
  }

  function EntriesOf(slots: seq<Slot>): seq<Entry> {
    seq(|slots|, i requires 0 <= i < |slots| => slots[i].entry)
  }

  ghost function Oks(c: Crypto, slots: seq<Slot>, trust: TrustRoot): (oks: seq<bool>)
    ensures |oks| == |slots|
  {
    seq(|slots|, k requires 0 <= k < |slots| => EntryOk(c, slots, k, LedgerIdOf(slots), trust))
  }

  ghost predicate AllTrue(oks: seq<bool>) {
    forall k :: 0 <= k < |oks| ==> oks[k]
  }

  /** Checks that only add findings have added none exactly when none of them has. */
  lemma {:induction false} ChecksClean(check: (Findings, nat) -> Findings, acc: Findings, n: nat, oks: seq<bool>)
    requires n <= |oks|
    requires forall f, k: nat :: k < |oks| ==> |f| <= |check(f, k)| && (|check(f, k)| == |f| <==> oks[k])
    ensures |acc| <= |AfterChecks(check, acc, n)|
    ensures |AfterChecks(check, acc, n)| == |acc| <==> forall k :: 0 <= k < n ==> oks[k]
  {
    if n > 0 {
      ChecksClean(check, acc, n - 1, oks);
    }
  }

  lemma {:induction false} EntriesClean(acc: Findings, c: Crypto, slots: seq<Slot>, trust: TrustRoot)
    ensures |acc| <= |AfterChecks(EntryCheck(c, slots, trust), acc, |slots|)|
    ensures |AfterChecks(EntryCheck(c, slots, trust), acc, |slots|)| == |acc| <==> AllTrue(Oks(c, slots, trust))
  {
    var check, oks := EntryCheck(c, slots, trust), Oks(c, slots, trust);
    forall f, k: nat | k < |oks| ensures |f| <= |check(f, k)| && (|check(f, k)| == |f| <==> oks[k]) {
      WithEntryClean(f, c, slots, k, LedgerIdOf(slots), trust);
    }
    ChecksClean(check, acc, |slots|, oks);
  }

  ghost predicate AllRulesOk(c: Crypto, es: seq<Entry>, trust: TrustRoot) {
    forall i {:trigger RulesOk(c, es, i, trust)} :: 0 <= i < |es| ==> RulesOk(c, es, i, trust)
  }

  /** The rules over slots, all of them together, are the rules over the chain. */
  lemma {:induction false} SlotsOk(c: Crypto, slots: seq<Slot>, trust: TrustRoot)
    ensures AllTrue(Oks(c, slots, trust)) <==> AllRulesOk(c, EntriesOf(slots), trust)
  {
    var es, oks := EntriesOf(slots), Oks(c, slots, trust);
    if AllTrue(oks) {
      forall i | 0 <= i < |es| ensures RulesOk(c, es, i, trust) {
        assert oks[i];
        SlotToRules(c, slots, i, trust);
      }
    }
    if AllRulesOk(c, es, trust) {
      forall i | 0 <= i < |es| ensures oks[i] {
        forall j | 0 <= j < i ensures es[j].sequence != es[i].sequence {
          SequenceIs(c, es, i, trust);
          SequenceIs(c, es, j, trust);
        }
        assert RulesOk(c, es, i, trust);
        RulesToSlot(c, slots, i, trust);
      }
    }
  }

  lemma {:induction false} SlotToRules(c: Crypto, slots: seq<Slot>, i: nat, trust: TrustRoot)
    requires i < |slots| && EntryOk(c, slots, i, LedgerIdOf(slots), trust)
    ensures RulesOk(c, EntriesOf(slots), i, trust)
  {
  }

  lemma {:induction false} RulesToSlot(c: Crypto, slots: seq<Slot>, i: nat, trust: TrustRoot)
    requires i < |slots| && RulesOk(c, EntriesOf(slots), i, trust)
    requires forall j :: 0 <= j < i ==> EntriesOf(slots)[j].sequence != EntriesOf(slots)[i].sequence
    ensures EntryOk(c, slots, i, LedgerIdOf(slots), trust)
  {
    var es := EntriesOf(slots);
    forall j | 0 <= j < i ensures !Clash(slots[j].entry, slots[i].entry) {
      assert es[j] == slots[j].entry;
    }
  }

  lemma {:induction false} SequenceIs(c: Crypto, es: seq<Entry>, i: nat, trust: TrustRoot)
    requires AllRulesOk(c, es, trust) && i < |es|
    ensures es[i].sequence == i + 1
  {
    assert RulesOk(c, es, i, trust);
  }

  lemma {:induction false} GoodIsFormAndRules(c: Crypto, es: seq<Entry>, trust: TrustRoot)
    requires forall i {:trigger FormOk(es[i])} :: 0 <= i < |es| ==> FormOk(es[i])
    ensures GoodChain(c, es, trust) <==> AllRulesOk(c, es, trust)
  {
    if GoodChain(c, es, trust) {
      forall i | 0 <= i < |es| ensures RulesOk(c, es, i, trust) {
        assert LocalOk(c, es, i, trust);
      }
    }
    if AllRulesOk(c, es, trust) {
      forall i | 0 <= i < |es| ensures LocalOk(c, es, i, trust) {
        assert FormOk(es[i]) && RulesOk(c, es, i, trust);
      }
    }
  }

  lemma {:induction false} NoFindings(c: Crypto, lines: seq<Text>, trust: TrustRoot)
    ensures Valid(c, lines, trust) <==>
              LinesOk(lines) && AllTrue(Oks(c, AfterLines(CheckLine, lines, |lines|).slots, trust))
  {
    var parsed := AfterLines(CheckLine, lines, |lines|);
    EntriesClean(parsed.findings, c, parsed.slots, trust);
    LinesClean(lines);
  }

  /** The hash of the head of a chain, if it has one. */
  function HeadHashOf(c: Crypto, es: seq<Entry>): Option<Text> {
    if es == [] then None else Some(EntryHash(c, es[|es| - 1]))
  }

  lemma {:induction false} ReportedHead(c: Crypto, checked: nat, slots: seq<Slot>, findings: Findings)
    ensures MakeReport(c, checked, slots, findings).headHash == HeadHashOf(c, EntriesOf(slots))
  {
  }

  /** The entries of the lines that can be read, in order. */
  function Readable(read: Text -> Option<Entry>, lines: seq<Text>): seq<Entry> {
    if lines == [] then []
    else
      var init := Readable(read, lines[..|lines| - 1]);
      match read(lines[|lines| - 1])
      case None => init
      case Some(e) => init + [e]
  }

  lemma {:induction false} SlotsAreReadable(
    check: (Text, nat) -> LineCheck, read: Text -> Option<Entry>, lines: seq<Text>, n: nat)
    requires n <= |lines|
    requires forall line, i {:trigger check(line, i)} :: check(line, i).entry == read(line)
    ensures EntriesOf(AfterLines(check, lines, n).slots) == Readable(read, lines[..n])
  {
    if n > 0 {
      SlotsAreReadable(check, read, lines, n - 1);
      assert lines[..n][..n - 1] == lines[..n - 1];
      var before := AfterLines(check, lines, n - 1).slots;
      match read(lines[n - 1])
      case None =>
      case Some(e) => assert EntriesOf(before + [Slot(e, n - 1)]) == EntriesOf(before) + [e];
    }
  }

  /** Whatever the ledger, its head hash is that of the last line that can be read. */
  lemma {:induction false} HeadHash(c: Crypto, lines: seq<Text>, trust: TrustRoot)
    ensures ReportOf(c, lines, trust).headHash == HeadHashOf(c, Readable(ReadLine, lines))
  {
    var parsed := AfterLines(CheckLine, lines, |lines|);
    var findings := AfterChecks(EntryCheck(c, parsed.slots, trust), parsed.findings, |parsed.slots|);
    forall line, i ensures CheckLine(line, i).entry == ReadLine(line) {
      CheckLineClean(line, i);
    }
    SlotsAreReadable(CheckLine, ReadLine, lines, |lines|);
    assert lines[..|lines|] == lines;
    ReportedHead(c, |lines|, parsed.slots, findings);
  }

  lemma {:induction false} AllReadable(read: Text -> Option<Entry>, lines: seq<Text>, es: seq<Entry>)
    requires |es| == |lines| && forall i :: 0 <= i < |lines| ==> read(lines[i]) == Some(es[i])
    ensures Readable(read, lines) == es
  {
    if lines != [] {
      AllReadable(read, lines[..|lines| - 1], es[..|es| - 1]);
    }
  }

  /** If every line passes, that is the last line. */
  lemma {:induction false} HeadHashOfPassing(c: Crypto, lines: seq<Text>, trust: TrustRoot)
    requires LinesOk(lines)
    ensures ReportOf(c, lines, trust).headHash == HeadHashOf(c, ReadAll(lines))
  {
    HeadHash(c, lines, trust);
    forall i | 0 <= i < |lines| ensures ReadLine(lines[i]) == Some(ReadAll(lines)[i]) {
      assert LineOk(lines[i]);
    }
    AllReadable(ReadLine, lines, ReadAll(lines));
  }

  lemma {:induction false} ReadFormOk(lines: seq<Text>)
    requires LinesOk(lines)
    ensures forall i {:trigger FormOk(ReadAll(lines)[i])} :: 0 <= i < |lines| ==> FormOk(ReadAll(lines)[i])
  {
    forall i | 0 <= i < |lines| ensures FormOk(ReadAll(lines)[i]) {
      assert LineOk(lines[i]);
      LineOkIsEntry(lines[i]);
    }
  }

  /** Valid means: every line passes and, read as a chain, every entry obeys the rules. */
  lemma {:induction false} ValidByReading(c: Crypto, lines: seq<Text>, trust: TrustRoot)
    ensures Valid(c, lines, trust) <==> LinesOk(lines) && GoodChain(c, ReadAll(lines), trust)
  {
    NoFindings(c, lines, trust);
    if LinesOk(lines) {
      LinesRead(lines);
      SlotsOk(c, AfterLines(CheckLine, lines, |lines|).slots, trust);
      ReadFormOk(lines);
      GoodIsFormAndRules(c, ReadAll(lines), trust);
    }
  }

  // ---------- Only the order of payload keys is lost ----------

  lemma {:induction false} PayloadFieldNorm(e: Entry, k: Text)
    requires PayloadWf(e)
    ensures PayloadField(NormEntry(e), k) == NormOption(PayloadField(e, k))
    ensures PayloadField(e, k).Some? ==> Wf(PayloadField(e, k).value)
  {
    match e.payload
    case Some(Obj(ms)) =>
      GetNorm(e.payload.value, k);
      if k in Keys(ms) {
        assert At(e.payload.value, k) == PayloadField(e, k).value;
      }
    case _ =>
  }

  lemma {:induction false} TextsNorm(c: Crypto, e: Entry)
    requires PayloadWf(e)
    ensures SigningString(NormEntry(e)) == SigningString(e)
    ensures PayloadText(NormEntry(e)) == PayloadText(e)
  {
    assert HeaderFields(NormEntry(e)) == HeaderFields(e);
    if e.payload.Some? {
      PrintParse(e.payload.value);
    }
  }

  lemma {:induction false} GenesisNorm(c: Crypto, e: Entry)
    requires PayloadWf(e)
    ensures GenesisOk(c, NormEntry(e)) <==> GenesisOk(c, e)
  {
    forall k ensures PayloadField(NormEntry(e), k).Some? <==> PayloadField(e, k).Some? {
      PayloadFieldNorm(e, k);
    }
  }

  lemma {:induction false} ReceiptNorm(c: Crypto, e: Entry)
    requires PayloadWf(e)
    ensures ReceiptOk(c, NormEntry(e)) <==> ReceiptOk(c, e)
  {
    PayloadFieldNorm(e, Lit("receiptId"));
    PayloadFieldNorm(e, Lit("receipt"));
    var receipt := PayloadField(e, Lit("receipt"));
    if receipt.Some? {
      PrintParse(receipt.value);
    }
  }

  lemma {:induction false} StrInNormItems(items: seq<Json>, s: Text)
    ensures Str(s) in NormItems(items) <==> Str(s) in items
  {
  }

  lemma {:induction false} KeyIdsNorm(trustRoot: seq<Member>, keyId: Text)
    requires Wf(Obj(trustRoot))
    ensures Norm(Obj(trustRoot)).Obj?
    ensures KeyIdsLeaveOut(Norm(Obj(trustRoot)).members, keyId) <==> KeyIdsLeaveOut(trustRoot, keyId)
  {
    GetNorm(Obj(trustRoot), Lit("keyIds"));
    match Get(trustRoot, Lit("keyIds"))
    case Some(Arr(items)) => StrInNormItems(items, keyId);
    case _ =>
  }

  lemma {:induction false} TrustNorm(genesis: Entry, keyId: Text)
    requires PayloadWf(genesis)
    ensures NotInGenesisRoot(NormEntry(genesis), keyId) <==> NotInGenesisRoot(genesis, keyId)
  {
    PayloadFieldNorm(genesis, Lit("trustRoot"));
    match PayloadField(genesis, Lit("trustRoot"))
    case Some(Obj(ms)) => KeyIdsNorm(ms, keyId);
    case _ =>
  }

  lemma {:induction false} SignatureNorm(c: Crypto, e: Entry, genesis: Option<Entry>, trust: TrustRoot)
    requires PayloadWf(e) && (genesis.Some? ==> PayloadWf(genesis.value))
    ensures SignatureOk(c, NormEntry(e), match genesis case None => None case Some(g) => Some(NormEntry(g)), trust)
       <==> SignatureOk(c, e, genesis, trust)
  {
    TextsNorm(c, e);
    if genesis.Some? {
      TrustNorm(genesis.value, e.signerKeyId);
    }
  }

  function NormAll(es: seq<Entry>): (r: seq<Entry>)
    ensures |r| == |es|
  {
    seq(|es|, i requires 0 <= i < |es| => NormEntry(es[i]))
  }

  lemma {:induction false} RulesNorm(c: Crypto, es: seq<Entry>, i: nat, trust: TrustRoot)
    requires i < |es| && forall j :: 0 <= j < |es| ==> PayloadWf(es[j])
    ensures RulesOk(c, NormAll(es), i, trust) <==> RulesOk(c, es, i, trust)
  {
    var e, ns := es[i], NormAll(es);
    GenesisNorm(c, e);
    ReceiptNorm(c, e);
    TextsNorm(c, e);
    if i > 0 {
      TextsNorm(c, es[i - 1]);
      assert ns[i - 1] == NormEntry(es[i - 1]);
    }
    assert ns[0] == NormEntry(es[0]);
    SignatureNorm(c, e, if i > 0 then Some(es[0]) else None, trust);
    assert forall j :: 0 <= j < i ==> ns[j].entryId == es[j].entryId;
  }

  lemma {:induction false} GoodNorm(c: Crypto, es: seq<Entry>, i: nat, trust: TrustRoot)
    requires i < |es| && forall j :: 0 <= j < |es| ==> PayloadWf(es[j])
    ensures LocalOk(c, NormAll(es), i, trust) <==> LocalOk(c, es, i, trust)
  {
    RulesNorm(c, es, i, trust);
    if es[i].payload.Some? {
      NormSame(es[i].payload.value);
    }
  }

  // ---------- Main results ----------

  lemma {:induction false} StoresReads(lines: seq<Text>, es: seq<Entry>)
    requires Stores(lines, es) && forall i {:trigger FormOk(es[i])} :: 0 <= i < |es| ==> FormOk(es[i])
    ensures LinesOk(lines) && ReadAll(lines) == NormAll(es)
  {
    var ns := ReadAll(lines);
    forall i | 0 <= i < |es| ensures LineOk(lines[i]) && ns[i] == NormEntry(es[i]) {
      assert FormOk(es[i]) && lines[i] == EntryLine(es[i]);
      ReadEntryLine(es[i]);
      LineOkOfEntry(es[i]);
    }
  }

  lemma {:induction false} ReadsStore(lines: seq<Text>)
    requires LinesOk(lines)
    ensures Stores(lines, ReadAll(lines))
  {
    var es := ReadAll(lines);
    forall i | 0 <= i < |es| ensures PayloadWf(es[i]) && lines[i] == EntryLine(es[i]) {
      assert LineOk(lines[i]);
      LineOkIsEntry(lines[i]);
    }
  }

  lemma {:induction false} StoredIsGood(c: Crypto, lines: seq<Text>, es: seq<Entry>, trust: TrustRoot)
    requires Stores(lines, es) && GoodChain(c, es, trust)
    ensures LinesOk(lines) && ReadAll(lines) == NormAll(es)
    ensures GoodChain(c, NormAll(es), trust)
  {
    forall i | 0 <= i < |es| ensures FormOk(es[i]) {
      assert LocalOk(c, es, i, trust);
    }
    StoresReads(lines, es);
    forall i | 0 <= i < |es| ensures LocalOk(c, NormAll(es), i, trust) {
      assert LocalOk(c, es, i, trust);
      GoodNorm(c, es, i, trust);
    }
  }

  lemma {:induction false} StoredIsValid(c: Crypto, lines: seq<Text>, es: seq<Entry>, trust: TrustRoot)
    requires Stores(lines, es) && GoodChain(c, es, trust)
    ensures Valid(c, lines, trust)
    ensures es != [] ==> ReportOf(c, lines, trust).headHash == Some(EntryHash(c, es[|es| - 1]))
  {
    StoredIsGood(c, lines, es, trust);
    ValidByReading(c, lines, trust);
    if es != [] {
      StoredHead(c, lines, es, trust);
    }
  }

  lemma {:induction false} StoredHead(c: Crypto, lines: seq<Text>, es: seq<Entry>, trust: TrustRoot)
    requires Stores(lines, es) && LinesOk(lines) && ReadAll(lines) == NormAll(es) && es != []
    ensures ReportOf(c, lines, trust).headHash == Some(EntryHash(c, es[|es| - 1]))
  {
    assert EntryLine(es[|es| - 1]) == lines[|es| - 1];
    HeadHashOfPassing(c, lines, trust);
    LastHash(c, es, ReadAll(lines));
  }

  lemma {:induction false} LastHash(c: Crypto, es: seq<Entry>, ns: seq<Entry>)
    requires es != [] && ns == NormAll(es) && PayloadWf(es[|es| - 1])
    ensures EntryHash(c, ns[|es| - 1]) == EntryHash(c, es[|es| - 1])
  {
  }

  /**
   * The validator is sound and complete: it reports a ledger valid exactly when its lines are
   * the canonical texts of a good chain.
   */
  lemma {:induction false} ValidIff(c: Crypto, lines: seq<Text>, trust: TrustRoot)
    ensures Valid(c, lines, trust) <==> exists es: seq<Entry> :: Stores(lines, es) && GoodChain(c, es, trust)
  {
    ValidByReading(c, lines, trust);
    if Valid(c, lines, trust) {
      ReadsStore(lines);
      assert Stores(lines, ReadAll(lines)) && GoodChain(c, ReadAll(lines), trust);
    }
    if es: seq<Entry> :| Stores(lines, es) && GoodChain(c, es, trust) {
      StoredIsValid(c, lines, es, trust);
    }
  }

  /** Whether an entry obeys the rules depends on the chain up to it, not on what follows. */
  lemma {:induction false} LocalIsLocal(c: Crypto, es: seq<Entry>, n: nat, i: nat, trust: TrustRoot)
    requires i < n <= |es|
    ensures LocalOk(c, es[..n], i, trust) <==> LocalOk(c, es, i, trust)
  {
  }

  lemma {:induction false} GoodSplit(c: Crypto, es: seq<Entry>, e: Entry, trust: TrustRoot)
    ensures GoodChain(c, es + [e], trust) <==> GoodChain(c, es, trust) && LocalOk(c, es + [e], |es|, trust)
  {
    var fs := es + [e];
    assert fs[..|es|] == es;
    forall i | 0 <= i < |es| ensures LocalOk(c, es, i, trust) <==> LocalOk(c, fs, i, trust) {
      LocalIsLocal(c, fs, |es|, i, trust);
    }
    if GoodChain(c, es, trust) && LocalOk(c, fs, |es|, trust) {
      forall i | 0 <= i < |fs| ensures LocalOk(c, fs, i, trust) {
        if i < |es| {
          assert LocalOk(c, es, i, trust);
        }
      }
    }
  }

  /** The good ledgers, by reading their lines. */
  ghost predicate LedgerOk(c: Crypto, lines: seq<Text>, trust: TrustRoot) {
    LinesOk(lines) && GoodChain(c, ReadAll(lines), trust)
  }

  /** Validity of a longer ledger is validity of the shorter one and the local check of the new line. */
  lemma {:induction false} LedgerOkSplit(c: Crypto, lines: seq<Text>, line: Text, trust: TrustRoot)
    ensures LedgerOk(c, lines + [line], trust)
       <==> LedgerOk(c, lines, trust) && LineOk(line) && LocalOk(c, ReadAll(lines) + [ReadOr(line)], |lines|, trust)
  {
    LinesOkLast(lines, line);
    GoodSplit(c, ReadAll(lines), ReadOr(line), trust);
  }

  lemma {:induction false} LedgerOkInit(c: Crypto, lines: seq<Text>, trust: TrustRoot)
    requires LedgerOk(c, lines, trust) && lines != []
    ensures LedgerOk(c, lines[..|lines| - 1], trust)
  {
    var init, last := lines[..|lines| - 1], lines[|lines| - 1];
    assert lines == init + [last];
    LedgerOkSplit(c, init, last, trust);
  }

  lemma {:induction false} LedgerOkPrefix(c: Crypto, lines: seq<Text>, n: nat, trust: TrustRoot)
    requires LedgerOk(c, lines, trust) && n <= |lines|
    ensures LedgerOk(c, lines[..n], trust)
    decreases |lines|
  {
    if n < |lines| {
      var init := lines[..|lines| - 1];
      LedgerOkInit(c, lines, trust);
      LedgerOkPrefix(c, init, n, trust);
      assert init[..n] == lines[..n];
    } else {
      assert lines[..n] == lines;
    }
  }

  /** Every prefix of a valid ledger is valid. */
  lemma {:induction false} PrefixClosed(c: Crypto, lines: seq<Text>, n: nat, trust: TrustRoot)
    requires Valid(c, lines, trust) && n <= |lines|
    ensures Valid(c, lines[..n], trust)
  {
    ValidByReading(c, lines, trust);
    LedgerOkPrefix(c, lines, n, trust);
    ValidByReading(c, lines[..n], trust);
  }

  /** A ledger stays valid exactly when the new line passes the check of that line alone. */
  lemma {:induction false} AppendNeedsLocalCheckOnly(c: Crypto, lines: seq<Text>, line: Text, trust: TrustRoot)
    ensures Valid(c, lines + [line], trust)
       <==> Valid(c, lines, trust) && LineOk(line) && LocalOk(c, ReadAll(lines) + [ReadOr(line)], |lines|, trust)
  {
    ValidByReading(c, lines, trust);
    ValidByReading(c, lines + [line], trust);
    LedgerOkSplit(c, lines, line, trust);
  }

  /** The same for a new entry, on the chain that the lines store. */
  lemma {:induction false} AppendEntryLocal(c: Crypto, lines: seq<Text>, es: seq<Entry>, e: Entry, trust: TrustRoot)
    requires Stores(lines, es) && GoodChain(c, es, trust) && PayloadWf(e)
    ensures Valid(c, lines + [EntryLine(e)], trust) <==> LocalOk(c, es + [e], |es|, trust)
  {
    var line := EntryLine(e);
    StoredIsGood(c, lines, es, trust);
    LedgerOkSplit(c, lines, line, trust);
    ValidByReading(c, lines + [line], trust);
    LineOkOfEntry(e);
    if FormOk(e) {
      ReadEntryLine(e);
      NormLast(c, es, e, trust);
    }
  }

  lemma {:induction false} NormLast(c: Crypto, es: seq<Entry>, e: Entry, trust: TrustRoot)
    requires PayloadWf(e) && GoodChain(c, es, trust)
    ensures LocalOk(c, NormAll(es) + [NormEntry(e)], |es|, trust) <==> LocalOk(c, es + [e], |es|, trust)
  {
    var fs := es + [e];
    assert NormAll(es) + [NormEntry(e)] == NormAll(fs);
    forall j | 0 <= j < |fs| ensures PayloadWf(fs[j]) {
      if j < |es| {
        assert LocalOk(c, es, j, trust);
      }
    }
    GoodNorm(c, fs, |es|, trust);
  }
}
