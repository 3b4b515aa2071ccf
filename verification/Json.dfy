/**
 * JSON values and the canonical printer of the ledger.
 *
 * An object is a sequence of members, so the order in which its keys were written is
 * real and the sort in the printer has something to do. Numbers are integers.
 */
module Json {
  import opened Wrappers
  import opened JsText

  datatype Json =
    | Null
    | Bool(b: bool)
    | Num(n: int)
    | Str(s: Text)
    | Arr(items: seq<Json>)
    | Obj(members: seq<Member>)

  datatype Member = Member(key: Text, value: Json)

  // Punctuation of RFC 8259, section 2.
  const QUOTE: Unit := '"' as int
  const BACKSLASH: Unit := '\\' as int
  const COMMA: Unit := ',' as int
  const COLON: Unit := ':' as int
  const OPEN_BRACE: Unit := '{' as int
  const CLOSE_BRACE: Unit := '}' as int
  const OPEN_BRACKET: Unit := '[' as int
  const CLOSE_BRACKET: Unit := ']' as int
  const MINUS: Unit := '-' as int
  const ZERO: Unit := '0' as int
  const NEWLINE: Unit := '\n' as int

  function Keys(ms: seq<Member>): (ks: seq<Text>)
    ensures |ks| == |ms|
  {
    seq(|ms|, i requires 0 <= i < |ms| => ms[i].key)
  }

  /** A JavaScript object never holds the same key twice. */
  ghost predicate Wf(v: Json) {
    match v
    case Arr(items) => forall i :: 0 <= i < |items| ==> Wf(items[i])
    case Obj(ms) => Distinct(Keys(ms)) && forall i :: 0 <= i < |ms| ==> Wf(ms[i].value)
    case _ => true
  }

  /** `record[key]` on the members of an object. */
  function Get(ms: seq<Member>, k: Text): (r: Option<Json>)
    ensures r.Some? <==> k in Keys(ms)
    ensures r.Some? ==> exists i :: 0 <= i < |ms| && ms[i] == Member(k, r.value)
  {
    if ms == [] then None
    else if ms[0].key == k then
      assert ms[0] == Member(k, ms[0].value);
      assert Keys(ms)[0] == k;
      Some(ms[0].value)
    else
      assert Keys(ms) == [ms[0].key] + Keys(ms[1..]);
      var r := Get(ms[1..], k);
      assert r.Some? ==> exists i :: 0 <= i < |ms| && ms[i] == Member(k, r.value) by {
        if r.Some? {
          var j :| 0 <= j < |ms[1..]| && ms[1..][j] == Member(k, r.value);
          assert ms[j + 1] == Member(k, r.value);
        }
      }
      r
  }

  /** `record[key]` of an object known to hold the key. */
  function At(v: Json, k: Text): (r: Json)
    requires v.Obj? && k in Keys(v.members)
    ensures r < v
    ensures Get(v.members, k) == Some(r)
    ensures Wf(v) ==> Wf(r)
  {
    var r := Get(v.members, k).value;
    assert r < v && (Wf(v) ==> Wf(r)) by {
      var i :| 0 <= i < |v.members| && v.members[i] == Member(k, r);
      assert v.members[i].value == r;
    }
    r
  }

  lemma {:induction false} GetAt(ms: seq<Member>, i: nat)
    requires i < |ms| && Distinct(Keys(ms))
    ensures Get(ms, ms[i].key) == Some(ms[i].value)
  {
    var k := ms[i].key;
    assert Keys(ms)[i] == k;
    var r := Get(ms, k);
    var j :| 0 <= j < |ms| && ms[j] == Member(k, r.value);
    assert Keys(ms)[j] == k;
    assert i == j;
  }

  /** Equal up to the order of keys, at every level. */
  ghost predicate Same(a: Json, b: Json)
    decreases a
  {
    match (a, b)
    case (Arr(xs), Arr(ys)) =>
      |xs| == |ys| && forall i :: 0 <= i < |xs| ==> Same(xs[i], ys[i])
    case (Obj(ms), Obj(ns)) =>
      && ToSet(Keys(ms)) == ToSet(Keys(ns))
      && forall k :: k in Keys(ms) && k in Keys(ns) ==> Same(At(a, k), At(b, k))
    case (_, _) => a == b
  }

  // ---------- Printing ----------

  predicate HighSurrogate(u: Unit) { 0xD800 <= u < 0xDC00 }

  predicate LowSurrogate(u: Unit) { 0xDC00 <= u < 0xE000 }

  function UnicodeEscape(u: Unit): Text {
    [BACKSLASH, 'u' as int, HexDigit(u / 4096), HexDigit(u / 256 % 16), HexDigit(u / 16 % 16), HexDigit(u % 16)]
  }

  /** How `JSON.stringify` writes one unit that is not part of a surrogate pair. */
  function EscapeUnit(u: Unit): Text {
    if u == QUOTE || u == BACKSLASH then [BACKSLASH, u]
    else if u == 0x08 then [BACKSLASH, 'b' as int]
    else if u == 0x0C then [BACKSLASH, 'f' as int]
    else if u == 0x0A then [BACKSLASH, 'n' as int]
    else if u == 0x0D then [BACKSLASH, 'r' as int]
    else if u == 0x09 then [BACKSLASH, 't' as int]
    else if u < 0x20 || HighSurrogate(u) || LowSurrogate(u) then UnicodeEscape(u)
    else [u]
  }

  function Escape(s: Text): Text {
    if s == [] then []
    else if |s| > 1 && HighSurrogate(s[0]) && LowSurrogate(s[1]) then [s[0], s[1]] + Escape(s[2..])
    else EscapeUnit(s[0]) + Escape(s[1..])
  }

  function Quote(s: Text): Text {
    [QUOTE] + Escape(s) + [QUOTE]
  }

  function Digits(n: nat): Text {
    if n < 10 then [ZERO + n] else Digits(n / 10) + [ZERO + n % 10]
  }

  function Decimal(n: int): Text {
    if n < 0 then [MINUS] + Digits(-n) else Digits(n)
  }

  /** `sortedStringify`: compact JSON with the keys sorted at every level. */
  function Stringify(v: Json): Text {
    match v
    case Null => Lit("null")
    case Bool(b) => if b then Lit("true") else Lit("false")
    case Num(n) => Decimal(n)
    case Str(s) => Quote(s)
    case Arr(items) => [OPEN_BRACKET] + StringifyItems(items) + [CLOSE_BRACKET]
    case Obj(ms) =>
      SortMembers(Keys(ms));
      [OPEN_BRACE] + StringifyMembers(v, Sort(Keys(ms))) + [CLOSE_BRACE]
  }

  function StringifyItems(items: seq<Json>): Text {
    if items == [] then []
    else if |items| == 1 then Stringify(items[0])
    else Stringify(items[0]) + [COMMA] + StringifyItems(items[1..])
  }

  function StringifyMembers(v: Json, ks: seq<Text>): Text
    requires v.Obj? && forall k :: k in ks ==> k in Keys(v.members)
    decreases v, |ks|
  {
    if ks == [] then []
    else
      var member := Quote(ks[0]) + [COLON] + Stringify(At(v, ks[0]));
      if |ks| == 1 then member else member + [COMMA] + StringifyMembers(v, ks[1..])
  }

  /** The value as it comes back from its canonical text: every object with its keys sorted. */
  function Norm(v: Json): Json {
    match v
    case Arr(items) => Arr(NormItems(items))
    case Obj(ms) =>
      SortMembers(Keys(ms));
      Obj(NormMembers(v, Sort(Keys(ms))))
    case _ => v
  }

  function NormItems(items: seq<Json>): (r: seq<Json>)
    ensures |r| == |items|
    ensures forall i :: 0 <= i < |items| ==> r[i] == Norm(items[i])
  {
    if items == [] then [] else [Norm(items[0])] + NormItems(items[1..])
  }

  function NormMembers(v: Json, ks: seq<Text>): (r: seq<Member>)
    requires v.Obj? && forall k :: k in ks ==> k in Keys(v.members)
    ensures Keys(r) == ks
    ensures forall i :: 0 <= i < |ks| ==> r[i] == Member(ks[i], Norm(At(v, ks[i])))
    decreases v, |ks|
  {
    if ks == [] then []
    else [Member(ks[0], Norm(At(v, ks[0])))] + NormMembers(v, ks[1..])
  }
}
