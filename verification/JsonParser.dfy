/** `JSON.parse` on the grammar of RFC 8259, with integers for numbers. */
module JsonParser {
  import opened Wrappers
  import opened JsText
  import opened Json

  /** A parsed value and the text that is left after it. */
  datatype Parsed<T> = Fail | Ok(value: T, rest: Text) {
    predicate IsFailure() {
      Fail?
    }

    function PropagateFailure<U>(): Parsed<U>
      requires Fail?
    {
      Fail
    }

    function Extract(): (T, Text)
      requires Ok?
    {
      (value, rest)
    }
  }

  // ---------- Tokens ----------

  predicate IsSpace(u: Unit) {
    u == 0x20 || u == 0x09 || u == 0x0A || u == 0x0D
  }

  function SkipSpace(s: Text): (r: Text)
    ensures |r| <= |s|
  {
    if s != [] && IsSpace(s[0]) then SkipSpace(s[1..]) else s
  }

  predicate IsDigit(u: Unit) {
    ZERO <= u <= ZERO + 9
  }

  function HexValue(u: Unit): Option<nat> {
    if IsDigit(u) then Some(u - ZERO)
    else if 'a' as int <= u <= 'f' as int then Some(u - 'a' as int + 10)
    else if 'A' as int <= u <= 'F' as int then Some(u - 'A' as int + 10)
    else None
  }

  function Hex4(s: Text): Option<Unit>
    requires |s| >= 4
  {
    var a :- HexValue(s[0]);
    var b :- HexValue(s[1]);
    var c :- HexValue(s[2]);
    var d :- HexValue(s[3]);
    var u := a * 4096 + b * 256 + c * 16 + d;
    if u < 0x1_0000 then Some(u) else None
  }

  /** The rest of a string whose opening quote has been read (RFC 8259, section 7). */
  function ParseString(s: Text): (r: Parsed<Text>)
    ensures r.Ok? ==> |r.rest| < |s|
  {
    if s == [] || s[0] < 0x20 then Fail
    else if s[0] == QUOTE then Ok([], s[1..])
    else if s[0] != BACKSLASH then
      var (t, rest) :- ParseString(s[1..]);
      Ok([s[0]] + t, rest)
    else if |s| < 2 then Fail
    else if s[1] == 'u' as int then
      if |s| < 6 then Fail
      else
        match Hex4(s[2..6])
        case None => Fail
        case Some(u) =>
          var (t, rest) :- ParseString(s[6..]);
          Ok([u] + t, rest)
    else
      match ShortEscape(s[1])
      case None => Fail
      case Some(u) =>
        var (t, rest) :- ParseString(s[2..]);
        Ok([u] + t, rest)
  }

  function ShortEscape(u: Unit): Option<Unit> {
    if u == QUOTE || u == BACKSLASH || u == '/' as int then Some(u)
    else if u == 'b' as int then Some(0x08)
    else if u == 'f' as int then Some(0x0C)
    else if u == 'n' as int then Some(0x0A)
    else if u == 'r' as int then Some(0x0D)
    else if u == 't' as int then Some(0x09)
    else None
  }

  /** Reads the digits at the front of `s` onto the number read so far. */
  function ParseDigits(s: Text, n: nat): (r: (nat, Text))
    ensures |r.1| <= |s|
  {
    if s != [] && IsDigit(s[0]) then ParseDigits(s[1..], 10 * n + (s[0] - ZERO)) else (n, s)
  }

  /** An integer without superfluous zeros (RFC 8259, section 6). */
  function ParseNat(s: Text): (r: Parsed<nat>)
    ensures r.Ok? ==> |r.rest| < |s|
  {
    if s == [] || !IsDigit(s[0]) then Fail
    else if s[0] == ZERO then Ok(0, s[1..])
    else
      var (n, rest) := ParseDigits(s[1..], s[0] - ZERO);
      Ok(n, rest)
  }

  /** `record[k] = v`: a repeated key keeps its place and takes the last value. */
  function Put(ms: seq<Member>, k: Text, v: Json): (r: seq<Member>)
    ensures k !in Keys(ms) ==> r == ms + [Member(k, v)]
    ensures k in Keys(ms) ==> Keys(r) == Keys(ms)
    ensures forall i :: 0 <= i < |r| ==> r[i] == Member(k, v) || (i < |ms| && r[i] == ms[i])
  {
    if ms == [] then [Member(k, v)]
    else
      assert Keys(ms) == [ms[0].key] + Keys(ms[1..]);
      if ms[0].key == k then
        var r := [Member(k, v)] + ms[1..];
        assert Keys(r) == Keys(ms);
        r
      else
        var t := Put(ms[1..], k, v);
        assert Keys([ms[0]] + t) == [ms[0].key] + Keys(t);
        [ms[0]] + t
  }

  // ---------- Values ----------

  function ParseValue(s: Text): (r: Parsed<Json>)
    ensures r.Ok? ==> |r.rest| < |s|
    decreases |s|, 0
  {
    var t := SkipSpace(s);
    if t == [] then Fail
    else if t[0] == OPEN_BRACE then
      var u := SkipSpace(t[1..]);
      if u != [] && u[0] == CLOSE_BRACE then Ok(Obj([]), u[1..])
      else
        var (ms, rest) :- ParseMembers(u, []);
        Ok(Obj(ms), rest)
    else if t[0] == OPEN_BRACKET then
      var u := SkipSpace(t[1..]);
      if u != [] && u[0] == CLOSE_BRACKET then Ok(Arr([]), u[1..])
      else
        var (items, rest) :- ParseItems(u);
        Ok(Arr(items), rest)
    else if t[0] == QUOTE then
      var (x, rest) :- ParseString(t[1..]);
      Ok(Str(x), rest)
    else if t[0] == MINUS then
      var (n, rest) :- ParseNat(t[1..]);
      Ok(Num(-(n as int)), rest)
    else if IsDigit(t[0]) then
      var (n, rest) :- ParseNat(t);
      Ok(Num(n), rest)
    else if StartsWith(t, Lit("null")) then Ok(Null, t[4..])
    else if StartsWith(t, Lit("true")) then Ok(Bool(true), t[4..])
    else if StartsWith(t, Lit("false")) then Ok(Bool(false), t[5..])
    else Fail
  }

  /** The items of an array that is known not to be empty, with the closing bracket. */
  function ParseItems(s: Text): (r: Parsed<seq<Json>>)
    ensures r.Ok? ==> |r.rest| < |s|
    decreases |s|, 1
  {
    var (v, rest) :- ParseValue(s);
    var t := SkipSpace(rest);
    if t == [] then Fail
    else if t[0] == CLOSE_BRACKET then Ok([v], t[1..])
    else if t[0] == COMMA then
      var (vs, rest2) :- ParseItems(t[1..]);
      Ok([v] + vs, rest2)
    else Fail
  }

  /** The members of an object that is known not to be empty, put onto those read so far. */
  function ParseMembers(s: Text, ms: seq<Member>): (r: Parsed<seq<Member>>)
    ensures r.Ok? ==> |r.rest| < |s|
    decreases |s|, 1
  {
    var t := SkipSpace(s);
    if t == [] || t[0] != QUOTE then Fail
    else
      var (k, rest) :- ParseString(t[1..]);
      var c := SkipSpace(rest);
      if c == [] || c[0] != COLON then Fail
      else
        var (v, rest2) :- ParseValue(c[1..]);
        var u := SkipSpace(rest2);
        if u == [] then Fail
        else if u[0] == CLOSE_BRACE then Ok(Put(ms, k, v), u[1..])
        else if u[0] == COMMA then ParseMembers(u[1..], Put(ms, k, v))
        else Fail
  }

  /** `JSON.parse`; None where it throws. */
  function Parse(s: Text): Option<Json> {
    match ParseValue(s)
    case Fail => None
    case Ok(v, rest) => if SkipSpace(rest) == [] then Some(v) else None
  }

  // ---------- What is parsed is well formed ----------

  lemma {:induction false} PutWf(ms: seq<Member>, k: Text, v: Json)
    requires Wf(Obj(ms)) && Wf(v)
    ensures Wf(Obj(Put(ms, k, v)))
  {
    var r := Put(ms, k, v);
    if k !in Keys(ms) {
      assert Keys(r) == Keys(ms) + [k];
    }
  }

  lemma {:induction false} ParseValueWf(s: Text)
    ensures ParseValue(s).Ok? ==> Wf(ParseValue(s).value)
    decreases |s|, 0
  {
    var t := SkipSpace(s);
    if t != [] && t[0] == OPEN_BRACE {
      ParseMembersWf(SkipSpace(t[1..]), []);
    } else if t != [] && t[0] == OPEN_BRACKET {
      ParseItemsWf(SkipSpace(t[1..]));
    }
  }

  lemma {:induction false} ParseItemsWf(s: Text)
    ensures ParseItems(s).Ok? ==> Wf(Arr(ParseItems(s).value))
    decreases |s|, 1
  {
    ParseValueWf(s);
    if ParseValue(s).Ok? {
      var t := SkipSpace(ParseValue(s).rest);
      if t != [] && t[0] == COMMA {
        ParseItemsWf(t[1..]);
      }
    }
  }

  lemma {:induction false} ParseMembersWf(s: Text, ms: seq<Member>)
    requires Wf(Obj(ms))
    ensures ParseMembers(s, ms).Ok? ==> Wf(Obj(ParseMembers(s, ms).value))
    decreases |s|, 1
  {
    if ParseMembers(s, ms).Ok? {
      var t := SkipSpace(s);
      var key := ParseString(t[1..]);
      var c := SkipSpace(key.rest);
      ParseValueWf(c[1..]);
      var v := ParseValue(c[1..]);
      PutWf(ms, key.value, v.value);
      var u := SkipSpace(v.rest);
      if u[0] == COMMA {
        ParseMembersWf(u[1..], Put(ms, key.value, v.value));
      }
    }
  }

  lemma {:induction false} ParseWf(s: Text)
    ensures Parse(s).Some? ==> Wf(Parse(s).value)
  {
    ParseValueWf(s);
  }
}
