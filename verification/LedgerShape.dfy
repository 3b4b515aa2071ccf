/** Which parsed JSON values are ledger entries. */
module LedgerShape {
  import opened Wrappers
  import opened JsText
  import opened Json
  import opened Canonical
  import opened LedgerEntry
  import opened Logs

  datatype Problem =
    | NotAnObject
    | UnknownField(key: Text)
    | MissingField(key: Text)
    | NotANonEmptyString(key: Text)
    | SequenceNotPositive
    | PayloadNotAnObject
    | NotAString(key: Text)

  const REQUIRED_FIELDS: seq<Text> := [
    Lit("entryId"), Lit("ledgerId"), Lit("sequence"), Lit("entryType"), Lit("previousEntryHash"), Lit("payloadHash"),
    Lit("receiptHash"), Lit("occurredAt"), Lit("recordedAt"), Lit("actor"), Lit("schemaVersion"), Lit("signerKeyId")
  ]

  const STRING_FIELDS: seq<Text> := [
    Lit("entryId"), Lit("ledgerId"), Lit("entryType"), Lit("previousEntryHash"), Lit("payloadHash"), Lit("receiptHash"),
    Lit("occurredAt"), Lit("recordedAt"), Lit("actor"), Lit("schemaVersion"), Lit("signerKeyId")
  ]

  const OPTIONAL_STRINGS: seq<Text> := [Lit("signature"), Lit("signerPublicKey"), Lit("idempotencyKey")]

  predicate Allowed(k: Text) {
    k in REQUIRED_FIELDS || k in OPTIONAL_STRINGS || k == Lit("payload")
  }

  predicate IsStr(v: Option<Json>) {
    v.Some? && v.value.Str?
  }

  predicate NonEmptyStr(v: Option<Json>) {
    IsStr(v) && v.value.s != []
  }

  predicate IsPositiveInteger(v: Option<Json>) {
    v.Some? && v.value.Num? && v.value.n >= 1
  }

  /** A JavaScript object as a map from keys to values, `undefined` being None. */
  type Record = Text -> Option<Json>

  function Reader(ms: seq<Member>): Record {
    k => Get(ms, k)
  }

  // ---------- What the checks report ----------

  /** `if (condition) problems.push(problem)` */
  function Add<T>(acc: seq<T>, condition: bool, x: T): (r: seq<T>)
    ensures |r| == |acc| + if condition then 1 else 0
  {
    if condition then acc + [x] else acc
  }

  function WithUnknown(acc: seq<Problem>, ks: seq<Text>): (r: seq<Problem>)
    ensures |acc| <= |r| && (|r| == |acc| <==> forall k :: k in ks ==> Allowed(k))
  {
    if ks == [] then acc
    else
      var init, k := ks[..|ks| - 1], ks[|ks| - 1];
      assert ks == init + [k];
      Add(WithUnknown(acc, init), !Allowed(k), UnknownField(k))
  }

  function WithMissing(acc: seq<Problem>, record: Record, ks: seq<Text>): (r: seq<Problem>)
    ensures |acc| <= |r| && (|r| == |acc| <==> forall i :: 0 <= i < |ks| ==> record(ks[i]).Some?)
  {
    if ks == [] then acc
    else
      var init, k := ks[..|ks| - 1], ks[|ks| - 1];
      assert ks == init + [k];
      Add(WithMissing(acc, record, init), record(k).None?, MissingField(k))
  }

  function WithNonStrings(acc: seq<Problem>, record: Record, ks: seq<Text>): (r: seq<Problem>)
    ensures |acc| <= |r| && (|r| == |acc| <==> forall i :: 0 <= i < |ks| ==> NonEmptyStr(record(ks[i])))
  {
    if ks == [] then acc
    else
      var init, k := ks[..|ks| - 1], ks[|ks| - 1];
      assert ks == init + [k];
      Add(WithNonStrings(acc, record, init), !NonEmptyStr(record(k)), NotANonEmptyString(k))
  }

  function WithOptional(acc: seq<Problem>, record: Record): (r: seq<Problem>)
    ensures |acc| <= |r| && (|r| == |acc| <==> OptionalOk(record))
  {
    var a := Add(acc, !IsPositiveInteger(record(Lit("sequence"))), SequenceNotPositive);
    var payload := record(Lit("payload"));
    var b := Add(a, payload.Some? && !payload.value.Obj?, PayloadNotAnObject);
    var s := record(Lit("signature"));
    var d := Add(b, s.Some? && !s.value.Str?, NotAString(Lit("signature")));
    var p := record(Lit("signerPublicKey"));
    var e := Add(d, p.Some? && !p.value.Str?, NotAString(Lit("signerPublicKey")));
    var i := record(Lit("idempotencyKey"));
    Add(e, i.Some? && !i.value.Str?, NotAString(Lit("idempotencyKey")))
  }

  predicate OptionalOk(record: Record) {
    && IsPositiveInteger(record(Lit("sequence")))
    && (var payload := record(Lit("payload")); payload.Some? ==> payload.value.Obj?)
    && (var s := record(Lit("signature")); s.Some? ==> s.value.Str?)
    && (var p := record(Lit("signerPublicKey")); p.Some? ==> p.value.Str?)
    && (var i := record(Lit("idempotencyKey")); i.Some? ==> i.value.Str?)
  }

  function WithRecordProblems(acc: seq<Problem>, record: Record): (r: seq<Problem>)
    ensures |acc| <= |r| && (|r| == |acc| <==> RecordOk(record))
  {
    WithOptional(WithNonStrings(WithMissing(acc, record, REQUIRED_FIELDS), record, STRING_FIELDS), record)
  }

  predicate RecordOk(record: Record) {
    && (forall i :: 0 <= i < |REQUIRED_FIELDS| ==> record(REQUIRED_FIELDS[i]).Some?)
    && (forall i :: 0 <= i < |STRING_FIELDS| ==> NonEmptyStr(record(STRING_FIELDS[i])))
    && OptionalOk(record)
  }

  function ShapeProblems(data: Json): seq<Problem> {
    match data
    case Obj(ms) =>
      WithRecordProblems(WithUnknown([], Keys(ms)), Reader(ms))
    case _ => [NotAnObject]
  }

  // ---------- The checks ----------

  method CollectShapeProblems(data: Json) returns (problems: seq<Problem>)
    ensures problems == ShapeProblems(data)
  {
    if !data.Obj? {
      return [NotAnObject];
    }
    var log := new Log<Problem>();
    var record := Reader(data.members);
    CheckAllowedFields(Keys(data.members), log);
    CheckRequiredFields(record, log);
    CheckStringFields(record, log);
    CheckOptionalFields(record, log);
    problems := log.items;
  }

  method CheckAllowedFields(ks: seq<Text>, problems: Log<Problem>)
    modifies problems
    ensures problems.items == WithUnknown(old(problems.items), ks)
  {
    for n := 0 to |ks|
      invariant problems.items == WithUnknown(old(problems.items), ks[..n])
    {
      assert ks[..n + 1][..n] == ks[..n];
      if !Allowed(ks[n]) {
        problems.Push(UnknownField(ks[n]));
      }
    }
    assert ks[..|ks|] == ks;
  }

  method CheckRequiredFields(record: Record, problems: Log<Problem>)
    modifies problems
    ensures problems.items == WithMissing(old(problems.items), record, REQUIRED_FIELDS)
  {
    var ks := REQUIRED_FIELDS;
    for n := 0 to |ks|
      invariant problems.items == WithMissing(old(problems.items), record, ks[..n])
    {
      assert ks[..n + 1][..n] == ks[..n];
      if record(ks[n]).None? {
        problems.Push(MissingField(ks[n]));
      }
    }
    assert ks[..|ks|] == ks;
  }

  method CheckStringFields(record: Record, problems: Log<Problem>)
    modifies problems
    ensures problems.items == WithNonStrings(old(problems.items), record, STRING_FIELDS)
  {
    var ks := STRING_FIELDS;
    for n := 0 to |ks|
      invariant problems.items == WithNonStrings(old(problems.items), record, ks[..n])
    {
      assert ks[..n + 1][..n] == ks[..n];
      if !NonEmptyStr(record(ks[n])) {
        problems.Push(NotANonEmptyString(ks[n]));
      }
    }
    assert ks[..|ks|] == ks;
  }

  method CheckOptionalFields(record: Record, problems: Log<Problem>)
    modifies problems
    ensures problems.items == WithOptional(old(problems.items), record)
  {
    if !IsPositiveInteger(record(Lit("sequence"))) {
      problems.Push(SequenceNotPositive);
    }
    var payload := record(Lit("payload"));
    if payload.Some? && !payload.value.Obj? {
      problems.Push(PayloadNotAnObject);
    }
    var signature := record(Lit("signature"));
    if signature.Some? && !signature.value.Str? {
      problems.Push(NotAString(Lit("signature")));
    }
    var signerPublicKey := record(Lit("signerPublicKey"));
    if signerPublicKey.Some? && !signerPublicKey.value.Str? {
      problems.Push(NotAString(Lit("signerPublicKey")));
    }
    var idempotencyKey := record(Lit("idempotencyKey"));
    if idempotencyKey.Some? && !idempotencyKey.value.Str? {
      problems.Push(NotAString(Lit("idempotencyKey")));
    }
  }

  // ---------- Shaped values are entries ----------

  function StrAt(record: Record, k: Text): Text {
    var v := record(k);
    if IsStr(v) then v.value.s else []
  }

  function OptionalStrAt(record: Record, k: Text): Option<Text> {
    if record(k).Some? then Some(StrAt(record, k)) else None
  }

  /** `data as LedgerEntry` on a value without shape problems. */
  function EntryOf(data: Json): Entry
    requires data.Obj?
  {
    EntryFrom(Reader(data.members))
  }

  function EntryFrom(record: Record): Entry {
    var sequence := record(Lit("sequence"));
    Entry(
      StrAt(record, Lit("entryId")),
      StrAt(record, Lit("ledgerId")),
      if IsPositiveInteger(sequence) then sequence.value.n else 0,
      StrAt(record, Lit("entryType")),
      StrAt(record, Lit("previousEntryHash")),
      StrAt(record, Lit("payloadHash")),
      StrAt(record, Lit("receiptHash")),
      StrAt(record, Lit("occurredAt")),
      StrAt(record, Lit("recordedAt")),
      StrAt(record, Lit("actor")),
      StrAt(record, Lit("schemaVersion")),
      StrAt(record, Lit("signerKeyId")),
      OptionalStrAt(record, Lit("signature")),
      OptionalStrAt(record, Lit("signerPublicKey")),
      OptionalStrAt(record, Lit("idempotencyKey")),
      record(Lit("payload")))
  }

  predicate StringsNonEmpty(e: Entry) {
    && e.entryId != [] && e.ledgerId != [] && e.entryType != [] && e.previousEntryHash != [] && e.payloadHash != []
    && e.receiptHash != [] && e.occurredAt != [] && e.recordedAt != [] && e.actor != [] && e.schemaVersion != []
    && e.signerKeyId != []
  }

  /** The entries whose stored object has no shape problems. */
  predicate EntryShape(e: Entry) {
    && StringsNonEmpty(e)
    && e.sequence >= 1
    && (e.payload.Some? ==> e.payload.value.Obj?)
  }

  /** The entry as it comes back from its line: only the order of payload keys may change. */
  function NormEntry(e: Entry): Entry {
    e.(payload := match e.payload case None => None case Some(p) => Some(Norm(p)))
  }

  /** Reading the sixteen fields of an object gives those of the entry. */
  ghost predicate HasFields(record: Record, e: Entry) {
    && record(Lit("entryId")) == Some(Str(e.entryId))
    && record(Lit("ledgerId")) == Some(Str(e.ledgerId))
    && record(Lit("sequence")) == Some(Num(e.sequence))
    && record(Lit("entryType")) == Some(Str(e.entryType))
    && record(Lit("previousEntryHash")) == Some(Str(e.previousEntryHash))
    && record(Lit("payloadHash")) == Some(Str(e.payloadHash))
    && record(Lit("receiptHash")) == Some(Str(e.receiptHash))
    && record(Lit("occurredAt")) == Some(Str(e.occurredAt))
    && record(Lit("recordedAt")) == Some(Str(e.recordedAt))
    && record(Lit("actor")) == Some(Str(e.actor))
    && record(Lit("schemaVersion")) == Some(Str(e.schemaVersion))
    && record(Lit("signerKeyId")) == Some(Str(e.signerKeyId))
    && record(Lit("signature")) == OptionalStr(e.signature)
    && record(Lit("signerPublicKey")) == OptionalStr(e.signerPublicKey)
    && record(Lit("idempotencyKey")) == OptionalStr(e.idempotencyKey)
    && record(Lit("payload")) == e.payload
  }

  ghost predicate OnlyAllowed(ks: seq<Text>) {
    forall k :: k in ks ==> Allowed(k)
  }

  lemma {:induction false} CompactFields(fs: seq<Field>)
    requires Distinct(Names(fs))
    ensures Distinct(Keys(Compact(fs)))
    ensures forall i :: 0 <= i < |fs| ==> Get(Compact(fs), fs[i].name) == fs[i].value
  {
    CompactDistinct(fs);
    forall i | 0 <= i < |fs| ensures Get(Compact(fs), fs[i].name) == fs[i].value {
      CompactGet(fs, i);
    }
  }

  lemma {:induction false} EntryJsonFields(e: Entry)
    ensures Distinct(Keys(Compact(Fields(e))))
    ensures HasFields(Reader(Compact(Fields(e))), e)
    ensures OnlyAllowed(Keys(Compact(Fields(e))))
  {
    FieldNames(e);
    var fs := Fields(e);
    CompactFields(fs);
    FieldsSpelledOut(Reader(Compact(fs)), e);
    CompactKeys(fs);
    forall k | k in Keys(Compact(fs)) ensures Allowed(k) {
      var i :| 0 <= i < |fs| && fs[i].name == k && fs[i].value.Some?;
      FieldAllowed(e, i);
    }
  }

  lemma {:induction false} FieldsSpelledOut(record: Record, e: Entry)
    requires forall i :: 0 <= i < |Fields(e)| ==> record(Fields(e)[i].name) == Fields(e)[i].value
    ensures HasFields(record, e)
  {
    var fs := Fields(e);
    assert |fs| == 16;
    assert record(fs[0].name) == fs[0].value && record(fs[1].name) == fs[1].value;
    assert record(fs[2].name) == fs[2].value && record(fs[3].name) == fs[3].value;
    assert record(fs[4].name) == fs[4].value && record(fs[5].name) == fs[5].value;
    assert record(fs[6].name) == fs[6].value && record(fs[7].name) == fs[7].value;
    assert record(fs[8].name) == fs[8].value && record(fs[9].name) == fs[9].value;
    assert record(fs[10].name) == fs[10].value && record(fs[11].name) == fs[11].value;
    assert record(fs[12].name) == fs[12].value && record(fs[13].name) == fs[13].value;
    assert record(fs[14].name) == fs[14].value && record(fs[15].name) == fs[15].value;
  }

  lemma {:induction false} FieldAllowed(e: Entry, i: nat)
    requires i < 16
    ensures Allowed(Fields(e)[i].name)
  {
  }

  /** Two objects that have the fields of the same entry agree on every allowed key. */
  lemma {:induction false} FieldsDetermineRecord(f: Record, g: Record, e: Entry, k: Text)
    requires HasFields(f, e) && HasFields(g, e) && Allowed(k)
    ensures f(k) == g(k)
  {
  }

  lemma {:induction false} SameFields(ms: seq<Member>, ns: seq<Member>, e: Entry)
    requires Wf(Obj(ms)) && HasFields(Reader(ms), e) && HasFields(Reader(ns), e)
    requires OnlyAllowed(Keys(ms)) && OnlyAllowed(Keys(ns))
    ensures Same(Obj(ms), Obj(ns))
  {
    var f, g := Reader(ms), Reader(ns);
    forall k | Allowed(k) ensures Get(ms, k) == Get(ns, k) {
      FieldsDetermineRecord(f, g, e, k);
      assert f(k) == Get(ms, k) && g(k) == Get(ns, k);
    }
    SameByReading(ms, ns);
  }

  lemma {:induction false} SameByReading(ms: seq<Member>, ns: seq<Member>)
    requires Wf(Obj(ms))
    requires OnlyAllowed(Keys(ms)) && OnlyAllowed(Keys(ns))
    requires forall k :: Allowed(k) ==> Get(ms, k) == Get(ns, k)
    ensures Same(Obj(ms), Obj(ns))
  {
    forall k ensures k in Keys(ms) <==> k in Keys(ns) {
      if Allowed(k) {
        assert Get(ms, k) == Get(ns, k);
      }
    }
    forall k | k in Keys(ms) && k in Keys(ns) ensures Same(At(Obj(ms), k), At(Obj(ns), k)) {
      assert Allowed(k);
      SameRefl(At(Obj(ms), k));
    }
  }

  lemma {:induction false} SameRefl(v: Json)
    requires Wf(v)
    ensures Same(v, v)
  {
    match v
    case Arr(items) =>
      forall i | 0 <= i < |items| ensures Same(items[i], items[i]) {
        SameRefl(items[i]);
      }
    case Obj(ms) =>
      forall k | k in Keys(ms) ensures Same(At(v, k), At(v, k)) {
        SameRefl(At(v, k));
      }
    case _ =>
  }

  lemma {:induction false} FieldsGiveEntry(record: Record, e: Entry)
    requires HasFields(record, e) && e.sequence >= 1
    ensures EntryFrom(record) == e
  {
  }

  /** The problems of a record with the fields of an entry are those of the entry's own values. */
  lemma {:induction false} FieldsGiveShape(record: Record, e: Entry)
    requires HasFields(record, e)
    ensures RecordOk(record) <==> EntryShape(e)
  {
    var a := STRING_FIELDS;
    assert RecordOk(record) ==>
        && NonEmptyStr(record(a[0])) && NonEmptyStr(record(a[1])) && NonEmptyStr(record(a[2]))
        && NonEmptyStr(record(a[3])) && NonEmptyStr(record(a[4])) && NonEmptyStr(record(a[5]))
        && NonEmptyStr(record(a[6])) && NonEmptyStr(record(a[7])) && NonEmptyStr(record(a[8]))
        && NonEmptyStr(record(a[9])) && NonEmptyStr(record(a[10]));
  }

  lemma {:induction false} RecordHasFields(record: Record)
    requires RecordOk(record)
    ensures HasFields(record, EntryFrom(record))
  {
    var a := STRING_FIELDS;
    assert NonEmptyStr(record(a[0])) && NonEmptyStr(record(a[1])) && NonEmptyStr(record(a[2]));
    assert NonEmptyStr(record(a[3])) && NonEmptyStr(record(a[4])) && NonEmptyStr(record(a[5]));
    assert NonEmptyStr(record(a[6])) && NonEmptyStr(record(a[7])) && NonEmptyStr(record(a[8]));
    assert NonEmptyStr(record(a[9])) && NonEmptyStr(record(a[10]));
  }

  lemma {:induction false} ShapeProblemsEmpty(ms: seq<Member>)
    ensures ShapeProblems(Obj(ms)) == [] <==> OnlyAllowed(Keys(ms)) && RecordOk(Reader(ms))
  {
  }

  lemma {:induction false} PayloadOf(ms: seq<Member>)
    requires Wf(Obj(ms))
    ensures Get(ms, Lit("payload")).Some? ==> Wf(Get(ms, Lit("payload")).value)
  {
  }

  /** A value without shape problems is the stored object of the entry read from it, up to key order. */
  lemma {:induction false} ShapedIsEntry(data: Json)
    requires Wf(data) && ShapeProblems(data) == []
    ensures data.Obj?
    ensures EntryShape(EntryOf(data)) && PayloadWf(EntryOf(data))
    ensures Same(data, EntryJson(EntryOf(data)))
  {
    var e, record := EntryOf(data), Reader(data.members);
    ShapeProblemsEmpty(data.members);
    RecordHasFields(record);
    FieldsGiveShape(record, e);
    EntryJsonFields(e);
    SameFields(data.members, Compact(Fields(e)), e);
    PayloadOf(data.members);
    assert record(Lit("payload")) == Get(data.members, Lit("payload"));
  }

  lemma {:induction false} EntryJsonWf(e: Entry)
    requires PayloadWf(e)
    ensures Wf(EntryJson(e))
  {
    EntryJsonFields(e);
    var ms := Compact(Fields(e));
    var record := Reader(ms);
    forall i | 0 <= i < |ms| ensures Wf(ms[i].value) {
      assert Keys(ms)[i] == ms[i].key;
      assert ms[i].key in Keys(ms);
      GetAt(ms, i);
      assert record(ms[i].key) == Some(ms[i].value);
      FieldValueWf(record, e, ms[i].key);
    }
  }

  lemma {:induction false} FieldValueWf(record: Record, e: Entry, k: Text)
    requires HasFields(record, e) && PayloadWf(e) && Allowed(k)
    ensures record(k).Some? ==> Wf(record(k).value)
  {
  }

  function NormOption(v: Option<Json>): Option<Json> {
    match v
    case None => None
    case Some(x) => Some(Norm(x))
  }

  /** The line of an entry parses to a value that is shaped when the entry is, and to the same entry. */
  lemma {:induction false} EntryLineReadsBack(e: Entry)
    requires PayloadWf(e)
    ensures Wf(EntryJson(e)) && Norm(EntryJson(e)).Obj? && Wf(Norm(EntryJson(e)))
    ensures ShapeProblems(Norm(EntryJson(e))) == [] <==> EntryShape(e)
    ensures e.sequence >= 1 ==> EntryOf(Norm(EntryJson(e))) == NormEntry(e)
  {
    EntryJsonWf(e);
    EntryJsonFields(e);
    var v := EntryJson(e);
    NormSame(v);
    forall k ensures Norm(v).Obj? && Get(Norm(v).members, k) == NormOption(Get(v.members, k)) {
      GetNorm(v, k);
    }
    var ms, ns := v.members, Norm(v).members;
    forall k | k in Keys(ns) ensures Allowed(k) {
      assert Get(ns, k) == NormOption(Get(ms, k));
    }
    var f, g := Reader(ms), Reader(ns);
    forall k ensures g(k) == NormOption(f(k)) {
      assert Get(ns, k) == NormOption(Get(ms, k));
    }
    NormFields(f, g, e);
    ShapeProblemsEmpty(ns);
    FieldsGiveShape(g, NormEntry(e));
    if e.sequence >= 1 {
      FieldsGiveEntry(g, NormEntry(e));
    }
  }

  lemma {:induction false} NormFields(f: Record, g: Record, e: Entry)
    requires HasFields(f, e)
    requires forall k {:trigger g(k)} :: g(k) == NormOption(f(k))
    ensures HasFields(g, NormEntry(e))
    ensures EntryShape(NormEntry(e)) <==> EntryShape(e)
  {
  }
}
