/**
 * The canonical text of a JSON value decodes uniquely: the parser reads back, from any
 * canonical text and whatever follows it, exactly the value up to the order of keys.
 */
module Canonical {
  import opened Wrappers
  import opened JsText
  import opened Json
  import opened JsonParser

  predicate DigitFirst(s: Text) {
    s != [] && IsDigit(s[0])
  }

  // ---------- Tokens read back ----------

  lemma {:induction false} HexDigitRoundTrip(d: int)
    requires 0 <= d < 16
    ensures HexValue(HexDigit(d)) == Some(d)
  {
  }

  lemma {:induction false} HexRoundTrip(u: Unit)
    ensures Hex4(UnicodeEscape(u)[2..6]) == Some(u)
  {
    var a, b, c, d := u / 4096, u / 256 % 16, u / 16 % 16, u % 16;
    assert UnicodeEscape(u)[2..6] == [HexDigit(a), HexDigit(b), HexDigit(c), HexDigit(d)];
    HexDigitRoundTrip(a);
    HexDigitRoundTrip(b);
    HexDigitRoundTrip(c);
    HexDigitRoundTrip(d);
    HexPlaces(u);
  }

  lemma {:induction false} HexPlaces(u: Unit)
    ensures u / 4096 * 4096 + u / 256 % 16 * 256 + u / 16 % 16 * 16 + u % 16 == u
  {
    assert u / 16 / 16 == u / 256;
    assert u / 256 / 16 == u / 4096;
  }

  lemma {:induction false} ParsePlainUnit(u: Unit, t: Text)
    requires u >= 0x20 && u != QUOTE && u != BACKSLASH
    requires ParseString(t).Ok?
    ensures ParseString([u] + t) == Ok([u] + ParseString(t).value, ParseString(t).rest)
  {
  }

  lemma {:induction false} ParseUnicodeEscape(u: Unit, t: Text)
    requires ParseString(t).Ok?
    ensures ParseString(UnicodeEscape(u) + t) == Ok([u] + ParseString(t).value, ParseString(t).rest)
  {
    var s := UnicodeEscape(u) + t;
    assert s[6..] == t;
    assert s[2..6] == UnicodeEscape(u)[2..6];
    HexRoundTrip(u);
  }

  lemma {:induction false} ParseEscapedUnit(u: Unit, t: Text)
    requires ParseString(t).Ok?
    ensures ParseString(EscapeUnit(u) + t) == Ok([u] + ParseString(t).value, ParseString(t).rest)
  {
    var e := EscapeUnit(u);
    if e == [u] {
      ParsePlainUnit(u, t);
    } else if |e| == 2 {
      assert (e + t)[2..] == t;
    } else {
      ParseUnicodeEscape(u, t);
    }
  }

  lemma {:induction false} EscapePair(s: Text, tail: Text)
    requires |s| > 1 && HighSurrogate(s[0]) && LowSurrogate(s[1])
    ensures Escape(s) + tail == [s[0]] + ([s[1]] + (Escape(s[2..]) + tail))
    ensures s == [s[0]] + ([s[1]] + s[2..])
  {
  }

  lemma {:induction false} EscapeOne(s: Text, tail: Text)
    requires s != [] && !(|s| > 1 && HighSurrogate(s[0]) && LowSurrogate(s[1]))
    ensures Escape(s) + tail == EscapeUnit(s[0]) + (Escape(s[1..]) + tail)
    ensures s == [s[0]] + s[1..]
  {
  }

  lemma {:induction false} ParseEscape(s: Text, rest: Text)
    ensures ParseString(Escape(s) + ([QUOTE] + rest)) == Ok(s, rest)
  {
    var tail := [QUOTE] + rest;
    if s == [] {
      assert Escape(s) + tail == tail && tail[1..] == rest;
    } else if |s| > 1 && HighSurrogate(s[0]) && LowSurrogate(s[1]) {
      ParseEscape(s[2..], rest);
      var t := Escape(s[2..]) + tail;
      ParsePlainUnit(s[1], t);
      ParsePlainUnit(s[0], [s[1]] + t);
      EscapePair(s, tail);
    } else {
      ParseEscape(s[1..], rest);
      var t := Escape(s[1..]) + tail;
      ParseEscapedUnit(s[0], t);
      EscapeOne(s, tail);
    }
  }

  lemma {:induction false} ParseQuote(s: Text, rest: Text)
    ensures (Quote(s) + rest)[0] == QUOTE
    ensures ParseString((Quote(s) + rest)[1..]) == Ok(s, rest)
  {
    ParseEscape(s, rest);
    assert (Quote(s) + rest)[1..] == Escape(s) + ([QUOTE] + rest);
  }

  lemma {:induction false} ParseDigitsOf(n: nat, t: Text)
    ensures ParseDigits(Digits(n) + t, 0) == ParseDigits(t, n)
  {
    if n < 10 {
      assert (Digits(n) + t)[1..] == t;
    } else {
      var u := [ZERO + n % 10] + t;
      assert Digits(n) + t == Digits(n / 10) + u;
      ParseDigitsOf(n / 10, u);
      assert u[1..] == t;
    }
  }

  lemma {:induction false} LeadingDigit(n: nat)
    ensures |Digits(n)| > 0 && IsDigit(Digits(n)[0])
    ensures Digits(n)[0] == ZERO <==> n == 0
  {
    if n >= 10 {
      LeadingDigit(n / 10);
    }
  }

  lemma {:induction false} ParseNatOf(n: nat, rest: Text)
    requires !DigitFirst(rest)
    ensures ParseNat(Digits(n) + rest) == Ok(n, rest)
  {
    LeadingDigit(n);
    var s := Digits(n) + rest;
    assert s[0] == Digits(n)[0];
    if n == 0 {
      assert s[1..] == rest;
    } else {
      ParseDigitsOf(n, rest);
      assert ParseDigits(s, 0) == ParseDigits(s[1..], s[0] - ZERO);
    }
  }

  // ---------- Values read back ----------

  /** No canonical text is empty, and none starts with a space or a closing bracket. */
  lemma {:induction false} FirstUnit(v: Json)
    ensures var s := Stringify(v);
            |s| > 0 && !IsSpace(s[0]) && s[0] != CLOSE_BRACKET && s[0] != CLOSE_BRACE
  {
    if v.Num? {
      LeadingDigit(if v.n < 0 then -v.n else v.n);
    } else if v.Bool? {
      assert Lit("true")[0] == 't' as int && Lit("false")[0] == 'f' as int;
    }
  }

  lemma {:induction false} ParseConstant(v: Json, rest: Text)
    requires v.Null? || v.Bool?
    ensures ParseValue(Stringify(v) + rest) == Ok(v, rest)
  {
  }

  lemma {:induction false} ParseNegative(s: Text, n: nat, rest: Text)
    requires ParseNat(s) == Ok(n, rest)
    ensures ParseValue([MINUS] + s) == Ok(Num(-(n as int)), rest)
  {
  }

  lemma {:induction false} ParseNotNegative(s: Text, n: nat, rest: Text)
    requires s != [] && IsDigit(s[0]) && ParseNat(s) == Ok(n, rest)
    ensures ParseValue(s) == Ok(Num(n), rest)
  {
  }

  lemma {:induction false} ParseNumber(n: int, rest: Text)
    requires !DigitFirst(rest)
    ensures ParseValue(Decimal(n) + rest) == Ok(Num(n), rest)
  {
    if n < 0 {
      ParseNatOf(-n, rest);
      ParseNegative(Digits(-n) + rest, -n, rest);
      Assoc([MINUS], Digits(-n), rest);
    } else {
      ParseNatOf(n, rest);
      LeadingDigit(n);
      assert (Digits(n) + rest)[0] == Digits(n)[0];
      ParseNotNegative(Digits(n) + rest, n, rest);
    }
  }

  // One step of the parser at a time.

  lemma {:induction false} ParseEmpty(open: Unit, close: Unit, empty: Json, rest: Text)
    requires (open, close, empty) in {(OPEN_BRACE, CLOSE_BRACE, Obj([])), (OPEN_BRACKET, CLOSE_BRACKET, Arr([]))}
    ensures ParseValue([open] + ([close] + rest)) == Ok(empty, rest)
  {
  }

  lemma {:induction false} ParseArrayStep(s: Text, items: seq<Json>, rest: Text)
    requires s != [] && !IsSpace(s[0]) && s[0] != CLOSE_BRACKET
    requires ParseItems(s) == Ok(items, rest)
    ensures ParseValue([OPEN_BRACKET] + s) == Ok(Arr(items), rest)
  {
  }

  lemma {:induction false} ParseObjectStep(s: Text, ms: seq<Member>, rest: Text)
    requires s != [] && s[0] == QUOTE
    requires ParseMembers(s, []) == Ok(ms, rest)
    ensures ParseValue([OPEN_BRACE] + s) == Ok(Obj(ms), rest)
  {
  }

  lemma {:induction false} ParseItemsLast(s: Text, v: Json, rest: Text)
    requires ParseValue(s) == Ok(v, [CLOSE_BRACKET] + rest)
    ensures ParseItems(s) == Ok([v], rest)
  {
  }

  lemma {:induction false} ParseItemsMore(s: Text, v: Json, more: Text)
    requires ParseValue(s) == Ok(v, [COMMA] + more)
    requires ParseItems(more).Ok?
    ensures ParseItems(s) == Ok([v] + ParseItems(more).value, ParseItems(more).rest)
  {
  }

  lemma {:induction false} ParseMembersStep(t: Text, k: Text, s: Text, v: Json, ms: seq<Member>, rest: Text)
    requires t != [] && t[0] == QUOTE && ParseString(t[1..]) == Ok(k, [COLON] + s)
    requires ParseValue(s) == Ok(v, rest) && rest != [] && !IsSpace(rest[0])
    ensures ParseMembers(t, ms) ==
              if rest[0] == CLOSE_BRACE then Ok(Put(ms, k, v), rest[1..])
              else if rest[0] == COMMA then ParseMembers(rest[1..], Put(ms, k, v))
              else Fail
  {
    assert ([COLON] + s)[1..] == s;
  }

  lemma {:induction false} ParseMembersLast(k: Text, s: Text, v: Json, ms: seq<Member>, rest: Text)
    requires ParseValue(s) == Ok(v, [CLOSE_BRACE] + rest)
    ensures ParseMembers(Quote(k) + ([COLON] + s), ms) == Ok(Put(ms, k, v), rest)
  {
    ParseQuote(k, [COLON] + s);
    ParseMembersStep(Quote(k) + ([COLON] + s), k, s, v, ms, [CLOSE_BRACE] + rest);
    assert ([CLOSE_BRACE] + rest)[1..] == rest;
  }

  lemma {:induction false} ParseMembersMore(k: Text, s: Text, v: Json, ms: seq<Member>, more: Text)
    requires ParseValue(s) == Ok(v, [COMMA] + more)
    ensures ParseMembers(Quote(k) + ([COLON] + s), ms) == ParseMembers(more, Put(ms, k, v))
  {
    ParseQuote(k, [COLON] + s);
    ParseMembersStep(Quote(k) + ([COLON] + s), k, s, v, ms, [COMMA] + more);
    assert ([COMMA] + more)[1..] == more;
  }

  lemma {:induction false} ParseStr(t: Text, rest: Text)
    ensures ParseValue(Quote(t) + rest) == Ok(Str(t), rest)
  {
    ParseQuote(t, rest);
  }

  /** Print, then parse: the value up to key order, and all that followed it. */
  lemma {:induction false} ParseStringify(v: Json, rest: Text)
    requires Wf(v) && !DigitFirst(rest)
    ensures ParseValue(Stringify(v) + rest) == Ok(Norm(v), rest)
    decreases v, 2, 0
  {
    match v
    case Null => ParseConstant(v, rest);
    case Bool(_) => ParseConstant(v, rest);
    case Num(n) => ParseNumber(n, rest);
    case Str(t) => ParseStr(t, rest);
    case Arr(items) =>
      var tail := [CLOSE_BRACKET] + rest;
      var s := StringifyItems(items) + tail;
      assert Stringify(v) + rest == [OPEN_BRACKET] + s;
      if items == [] {
        assert s == tail;
        ParseEmpty(OPEN_BRACKET, CLOSE_BRACKET, Arr([]), rest);
      } else {
        FirstUnit(items[0]);
        ParseStringifyItems(items, rest);
        ParseArrayStep(s, NormItems(items), rest);
      }
    case Obj(_) => ParseObjectText(v, rest);
  }

  lemma {:induction false} ObjectText(v: Json, rest: Text)
    requires v.Obj?
    ensures forall k :: k in Sort(Keys(v.members)) ==> k in Keys(v.members)
    ensures Stringify(v) + rest ==
              [OPEN_BRACE] + (StringifyMembers(v, Sort(Keys(v.members))) + ([CLOSE_BRACE] + rest))
  {
    SortMembers(Keys(v.members));
  }

  lemma {:induction false} ParseObjectText(v: Json, rest: Text)
    requires Wf(v) && v.Obj?
    ensures ParseValue(Stringify(v) + rest) == Ok(Norm(v), rest)
    decreases v, 1, 0
  {
    var ms := v.members;
    ObjectText(v, rest);
    SortIncreasing(Keys(ms));
    var ks := Sort(Keys(ms));
    var s := StringifyMembers(v, ks) + ([CLOSE_BRACE] + rest);
    if ks == [] {
      assert s == [CLOSE_BRACE] + rest;
      ParseEmpty(OPEN_BRACE, CLOSE_BRACE, Obj([]), rest);
    } else {
      assert Keys([]) + ks == ks;
      ParseStringifyMembers(v, ks, [], rest);
      assert [] + NormMembers(v, ks) == NormMembers(v, ks);
      ParseObjectStep(s, NormMembers(v, ks), rest);
    }
  }

  lemma {:induction false} ItemsWithTail(items: seq<Json>, tail: Text)
    requires |items| > 1
    ensures StringifyItems(items) + tail == Stringify(items[0]) + ([COMMA] + (StringifyItems(items[1..]) + tail))
  {
  }

  lemma {:induction false} ParseStringifyItems(items: seq<Json>, rest: Text)
    requires items != [] && Wf(Arr(items))
    ensures ParseItems(StringifyItems(items) + ([CLOSE_BRACKET] + rest)) == Ok(NormItems(items), rest)
    decreases items
  {
    var tail := [CLOSE_BRACKET] + rest;
    if |items| == 1 {
      ParseStringify(items[0], tail);
      ParseItemsLast(Stringify(items[0]) + tail, Norm(items[0]), rest);
      assert NormItems(items) == [Norm(items[0])];
    } else {
      var more := StringifyItems(items[1..]) + tail;
      ItemsWithTail(items, tail);
      ParseStringify(items[0], [COMMA] + more);
      ParseStringifyItems(items[1..], rest);
      ParseItemsMore(Stringify(items[0]) + ([COMMA] + more), Norm(items[0]), more);
    }
  }

  lemma {:induction false} MembersWithTail(v: Json, ks: seq<Text>, tail: Text)
    requires v.Obj? && ks != [] && forall k :: k in ks ==> k in Keys(v.members)
    ensures StringifyMembers(v, ks) + tail
         == Quote(ks[0]) + ([COLON] + (Stringify(At(v, ks[0])) +
              (if |ks| == 1 then tail else [COMMA] + (StringifyMembers(v, ks[1..]) + tail))))
  {
    var q, x := Quote(ks[0]), Stringify(At(v, ks[0]));
    var member := q + [COLON] + x;
    if |ks| == 1 {
      assert StringifyMembers(v, ks) == member;
      MemberWithTail(q, x, tail);
    } else {
      var more := StringifyMembers(v, ks[1..]);
      assert StringifyMembers(v, ks) == member + [COMMA] + more;
      Assoc(member + [COMMA], more, tail);
      Assoc(member, [COMMA], more + tail);
      MemberWithTail(q, x, [COMMA] + (more + tail));
    }
  }

  lemma {:induction false} MemberWithTail(q: Text, x: Text, tail: Text)
    ensures (q + [COLON] + x) + tail == q + ([COLON] + (x + tail))
  {
    Assoc(q + [COLON], x, tail);
    Assoc(q, [COLON], x + tail);
  }

  lemma {:induction false} ParseStringifyMembers(v: Json, ks: seq<Text>, ms: seq<Member>, rest: Text)
    requires Wf(v) && v.Obj? && ks != [] && forall k :: k in ks ==> k in Keys(v.members)
    requires Distinct(Keys(ms) + ks)
    ensures ParseMembers(StringifyMembers(v, ks) + ([CLOSE_BRACE] + rest), ms) == Ok(ms + NormMembers(v, ks), rest)
    decreases v, 0, |ks|
  {
    var close := [CLOSE_BRACE] + rest;
    var k, x := ks[0], At(v, ks[0]);
    var next := ms + [Member(k, Norm(x))];
    MembersWithTail(v, ks, close);
    NextMember(v, ks, ms);
    if |ks| == 1 {
      ParseStringify(x, close);
      ParseMembersLast(k, Stringify(x) + close, Norm(x), ms, rest);
    } else {
      var more := StringifyMembers(v, ks[1..]) + close;
      ParseStringify(x, [COMMA] + more);
      ParseMembersMore(k, Stringify(x) + ([COMMA] + more), Norm(x), ms, more);
      ParseStringifyMembers(v, ks[1..], next, rest);
    }
  }

  lemma {:induction false} NextMember(v: Json, ks: seq<Text>, ms: seq<Member>)
    requires v.Obj? && ks != [] && forall k :: k in ks ==> k in Keys(v.members)
    requires Distinct(Keys(ms) + ks)
    ensures var m := Member(ks[0], Norm(At(v, ks[0])));
            && Put(ms, ks[0], m.value) == ms + [m]
            && Distinct(Keys(ms + [m]) + ks[1..])
            && ms + NormMembers(v, ks) == (ms + [m]) + NormMembers(v, ks[1..])
            && (|ks| == 1 ==> ms + NormMembers(v, ks) == ms + [m])
  {
    NotInPrefix(Keys(ms), ks);
    var m := Member(ks[0], Norm(At(v, ks[0])));
    assert Keys(ms + [m]) + ks[1..] == Keys(ms) + ks;
    Assoc(ms, [m], NormMembers(v, ks[1..]));
  }

  lemma {:induction false} NotInPrefix(a: seq<Text>, b: seq<Text>)
    requires Distinct(a + b) && b != []
    ensures b[0] !in a
  {
    assert (a + b)[|a|] == b[0];
    forall i | 0 <= i < |a| ensures a[i] != b[0] {
      assert (a + b)[i] == a[i];
    }
  }

  // ---------- Equality up to key order ----------

  lemma {:induction false} SortedKeys(ms: seq<Member>)
    requires Distinct(Keys(ms))
    ensures forall k :: k in Sort(Keys(ms)) <==> k in Keys(ms)
    ensures Distinct(Sort(Keys(ms)))
  {
    SortMembers(Keys(ms));
    SortIncreasing(Keys(ms));
  }

  /** Reading a key commutes with sorting the keys. */
  lemma {:induction false} GetNorm(v: Json, k: Text)
    requires Wf(v) && v.Obj?
    ensures Norm(v).Obj?
    ensures Get(Norm(v).members, k) == if k in Keys(v.members) then Some(Norm(At(v, k))) else None
  {
    SortedKeys(v.members);
    var ks := Sort(Keys(v.members));
    var ns := NormMembers(v, ks);
    assert Norm(v) == Obj(ns);
    if k in Keys(v.members) {
      var i :| 0 <= i < |ks| && ks[i] == k;
      assert ns[i] == Member(k, Norm(At(v, k)));
      GetAt(ns, i);
    }
  }

  lemma {:induction false} NormSame(v: Json)
    requires Wf(v)
    ensures Wf(Norm(v)) && Same(v, Norm(v))
  {
    match v
    case Arr(items) =>
      forall i | 0 <= i < |items| ensures Wf(Norm(items[i])) && Same(items[i], Norm(items[i])) {
        NormSame(items[i]);
      }
    case Obj(ms) =>
      SortedKeys(ms);
      var ks := Sort(Keys(ms));
      var ns := NormMembers(v, ks);
      assert Norm(v) == Obj(ns) && Keys(ns) == ks;
      forall k | k in Keys(ms) ensures k in Keys(ns) && Same(At(v, k), At(Norm(v), k)) {
        GetNorm(v, k);
        NormSame(At(v, k));
      }
      forall i | 0 <= i < |ns| ensures Wf(ns[i].value) {
        assert ks[i] in ks;
        NormSame(At(v, ks[i]));
      }
      assert ToSet(Keys(ms)) == ToSet(Keys(ns));
    case _ =>
  }

  lemma {:induction false} NormEqualImpliesSame(a: Json, b: Json)
    requires Wf(a) && Wf(b) && Norm(a) == Norm(b)
    ensures Same(a, b)
    decreases a
  {
    match (a, b)
    case (Arr(xs), Arr(ys)) =>
      assert NormItems(xs) == NormItems(ys);
      forall i | 0 <= i < |xs| ensures Same(xs[i], ys[i]) {
        assert NormItems(xs)[i] == NormItems(ys)[i];
        NormEqualImpliesSame(xs[i], ys[i]);
      }
    case (Obj(ms), Obj(ns)) =>
      SortedKeys(ms);
      SortedKeys(ns);
      assert Keys(NormMembers(a, Sort(Keys(ms)))) == Keys(NormMembers(b, Sort(Keys(ns))));
      assert ToSet(Keys(ms)) == ToSet(Keys(ns));
      forall k | k in Keys(ms) && k in Keys(ns) ensures Same(At(a, k), At(b, k)) {
        GetNorm(a, k);
        GetNorm(b, k);
        NormEqualImpliesSame(At(a, k), At(b, k));
      }
    case _ =>
  }

  /** Reordering keys anywhere never changes the text. */
  lemma {:induction false} SameImpliesSameText(a: Json, b: Json)
    requires Wf(a) && Wf(b) && Same(a, b)
    ensures Stringify(a) == Stringify(b)
    decreases a, 1, 0
  {
    match (a, b)
    case (Arr(xs), Arr(ys)) => SameItemsText(a, b, 0);
    case (Obj(ms), Obj(ns)) =>
      SortedKeys(ms);
      SortedKeys(ns);
      SortDependsOnSetOnly(Keys(ms), Keys(ns));
      forall k | k in Keys(ms) ensures k in Keys(ns) {
        assert k in ToSet(Keys(ms));
      }
      SameMembersText(a, b, Sort(Keys(ms)));
    case _ =>
  }

  lemma {:induction false} SameItemsText(a: Json, b: Json, i: nat)
    requires Wf(a) && Wf(b) && Same(a, b) && a.Arr? && i <= |a.items|
    ensures b.Arr? && StringifyItems(a.items[i..]) == StringifyItems(b.items[i..])
    decreases a, 0, |a.items| - i
  {
    var xs, ys := a.items[i..], b.items[i..];
    if xs != [] {
      assert xs[0] == a.items[i] && ys[0] == b.items[i];
      SameImpliesSameText(a.items[i], b.items[i]);
      SameItemsText(a, b, i + 1);
      assert xs[1..] == a.items[i + 1..] && ys[1..] == b.items[i + 1..];
    }
  }

  lemma {:induction false} SameMembersText(a: Json, b: Json, ks: seq<Text>)
    requires Wf(a) && Wf(b) && Same(a, b) && a.Obj? && b.Obj?
    requires forall k :: k in ks ==> k in Keys(a.members) && k in Keys(b.members)
    ensures StringifyMembers(a, ks) == StringifyMembers(b, ks)
    decreases a, 0, |ks|
  {
    if ks != [] {
      SameImpliesSameText(At(a, ks[0]), At(b, ks[0]));
      SameMembersText(a, b, ks[1..]);
    }
  }

  // ---------- Main results ----------

  /**
   * Unique decodability: two canonical texts followed by anything that does not continue
   * a number can only be equal when the values are equal up to key order and the
   * remainders are the same.
   */
  lemma {:induction false} UniquelyDecodable(a: Json, x: Text, b: Json, y: Text)
    requires Wf(a) && Wf(b)
    requires !DigitFirst(x) && !DigitFirst(y)
    ensures Stringify(a) + x == Stringify(b) + y <==> Same(a, b) && x == y
  {
    ParseStringify(a, x);
    ParseStringify(b, y);
    if Stringify(a) + x == Stringify(b) + y {
      NormEqualImpliesSame(a, b);
    }
    if Same(a, b) {
      SameImpliesSameText(a, b);
    }
  }

  /** The same for objects, whatever follows: a closing brace cannot be extended. */
  lemma {:induction false} ObjectsUniquelyDecodable(a: Json, x: Text, b: Json, y: Text)
    requires Wf(a) && Wf(b) && a.Obj? && b.Obj?
    requires Stringify(a) + x == Stringify(b) + y
    ensures Same(a, b) && x == y
  {
    ParseObjectText(a, x);
    ParseObjectText(b, y);
    NormEqualImpliesSame(a, b);
  }

  /** Two values have the same canonical text exactly when they differ only in key order. */
  lemma {:induction false} SameTextIffSame(a: Json, b: Json)
    requires Wf(a) && Wf(b)
    ensures Stringify(a) == Stringify(b) <==> Same(a, b)
  {
    UniquelyDecodable(a, [], b, []);
    assert Stringify(a) + [] == Stringify(a) && Stringify(b) + [] == Stringify(b);
  }

  /** Print, then parse, then print: the value up to key order, and the same text again. */
  lemma {:induction false} PrintParse(v: Json)
    requires Wf(v)
    ensures Parse(Stringify(v)) == Some(Norm(v))
    ensures Wf(Norm(v)) && Same(v, Norm(v))
    ensures Stringify(Norm(v)) == Stringify(v)
  {
    ParseStringify(v, []);
    assert Stringify(v) + [] == Stringify(v);
    NormSame(v);
    SameTextIffSame(v, Norm(v));
  }

  /** Of all the texts that parse to a value, up to key order, exactly one is canonical. */
  lemma {:induction false} OneCanonicalText(s: Text, t: Text)
    requires Parse(s).Some? && Parse(t).Some? && Same(Parse(s).value, Parse(t).value)
    requires s == Stringify(Parse(s).value)
    ensures t == Stringify(Parse(t).value) <==> t == s
  {
    ParseWf(s);
    ParseWf(t);
    SameTextIffSame(Parse(s).value, Parse(t).value);
  }

  // ---------- No newline ----------

  predicate Printable(s: Text) {
    forall i :: 0 <= i < |s| ==> s[i] >= 0x20
  }

  lemma {:induction false} DigitsPrintable(n: nat)
    ensures Printable(Digits(n))
  {
    if n >= 10 {
      DigitsPrintable(n / 10);
    }
  }

  lemma {:induction false} EscapePrintable(s: Text)
    ensures Printable(Escape(s))
  {
    if |s| > 1 && HighSurrogate(s[0]) && LowSurrogate(s[1]) {
      EscapePrintable(s[2..]);
    } else if s != [] {
      EscapePrintable(s[1..]);
      assert Printable(EscapeUnit(s[0]));
    }
  }

  lemma {:induction false} QuotePrintable(s: Text)
    ensures Printable(Quote(s))
  {
    EscapePrintable(s);
  }

  /** The printer emits no control character, and so no newline. */
  lemma {:induction false} ScalarPrintable(v: Json)
    requires v.Null? || v.Bool? || v.Num?
    ensures Printable(Stringify(v))
  {
    if v.Num? {
      DigitsPrintable(if v.n < 0 then -v.n else v.n);
    }
  }

  lemma {:induction false} StringifyPrintable(v: Json)
    requires Wf(v)
    ensures Printable(Stringify(v))
    decreases v
  {
    match v
    case Null => ScalarPrintable(v);
    case Bool(_) => ScalarPrintable(v);
    case Num(_) => ScalarPrintable(v);
    case Str(s) => QuotePrintable(s);
    case Arr(items) => ItemsPrintable(items);
    case Obj(ms) =>
      SortMembers(Keys(ms));
      MembersPrintable(v, Sort(Keys(ms)));
  }

  lemma {:induction false} ItemsPrintable(items: seq<Json>)
    requires Wf(Arr(items))
    ensures Printable(StringifyItems(items))
    decreases items
  {
    if items != [] {
      StringifyPrintable(items[0]);
      ItemsPrintable(items[1..]);
    }
  }

  lemma {:induction false} MembersPrintable(v: Json, ks: seq<Text>)
    requires Wf(v) && v.Obj? && forall k :: k in ks ==> k in Keys(v.members)
    ensures Printable(StringifyMembers(v, ks))
    decreases v, |ks|
  {
    if ks != [] {
      QuotePrintable(ks[0]);
      StringifyPrintable(At(v, ks[0]));
      MembersPrintable(v, ks[1..]);
    }
  }
}
