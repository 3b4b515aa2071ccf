/** What canonical texts look like, said of their units and of what a parser makes of them. */
module PrintedForm {
  import opened Wrappers
  import opened JsText
  import opened Json
  import opened JsonParser
  import opened Canonical

  // ---------- The order of keys ----------

  /** At every level, any two neighbouring keys are in the order of their code units. */
  ghost predicate KeysInOrder(v: Json) {
    match v
    case Arr(items) => forall i :: 0 <= i < |items| ==> KeysInOrder(items[i])
    case Obj(ms) =>
      && (forall i, j :: 0 <= i < |ms| && j == i + 1 && j < |ms| ==> Precedes(ms[i].key, ms[j].key))
      && (forall i :: 0 <= i < |ms| ==> KeysInOrder(ms[i].value))
    case _ => true
  }

  lemma {:induction false} NormInOrder(v: Json)
    requires Wf(v)
    ensures KeysInOrder(Norm(v))
  {
    match v
    case Arr(items) =>
      forall i | 0 <= i < |items| ensures KeysInOrder(Norm(items[i])) {
        NormInOrder(items[i]);
      }
    case Obj(ms) =>
      SortMembers(Keys(ms));
      SortIncreasing(Keys(ms));
      var ks := Sort(Keys(ms));
      var ns := NormMembers(v, ks);
      forall i | 0 <= i < |ns| ensures ns[i].key == ks[i] && KeysInOrder(ns[i].value) {
        assert Keys(ns)[i] == ks[i] && ks[i] in ks;
        NormInOrder(At(v, ks[i]));
      }
      forall i | 0 <= i < |ns| - 1 ensures Precedes(ns[i].key, ns[i + 1].key) {
        LessIff(ks[i], ks[i + 1]);
      }
    case _ =>
  }

  /** Parsing a canonical text finds the keys of every object in order. */
  lemma {:induction false} PrintedInOrder(v: Json)
    requires Wf(v)
    ensures Parse(Stringify(v)).Some? && KeysInOrder(Parse(Stringify(v)).value) && Same(v, Parse(Stringify(v)).value)
  {
    PrintParse(v);
    NormInOrder(v);
  }

  // ---------- Escapes ----------

  predicate Surrogate(u: Unit) {
    0xD800 <= u <= 0xDFFF
  }

  /** What stands for one unit between quotes. */
  ghost predicate StandsFor(t: Text, u: Unit) {
    ParseString(t + [QUOTE]) == Ok([u], [])
  }

  /** Of all texts that stand for a unit, the printer writes a shortest. Lone surrogates it always writes in six units. */
  lemma {:induction false} EscapesAreShortest(u: Unit, t: Text)
    requires StandsFor(t, u)
    ensures StandsFor(EscapeUnit(u), u)
    ensures if Surrogate(u) then |EscapeUnit(u)| == 6 else |EscapeUnit(u)| <= |t|
  {
    ParseEscape([u], []);
    assert Escape([u]) == EscapeUnit(u);
    if !Surrogate(u) && |EscapeUnit(u)| > 1 {
      LongEscape(u, t);
    }
  }

  lemma {:induction false} LongEscape(u: Unit, t: Text)
    requires StandsFor(t, u) && (u == QUOTE || u == BACKSLASH || u < 0x20)
    ensures |t| >= 2 && (ShortEscapeFor(u).None? ==> |t| >= 6)
  {
    var s := t + [QUOTE];
    assert ParseString(s).value[0] == u;
    assert s[0] == BACKSLASH;
    assert t != [] && |s| == |t| + 1;
    assert |s| >= 6 ==> s[2..6][3] == s[5];
    assert HexValue(QUOTE).None? && s[|t|] == QUOTE;
  }

  /** The letter of the two-unit escape that a unit has, if any (RFC 8259, section 7). */
  function ShortEscapeFor(u: Unit): Option<Unit> {
    if u == QUOTE then Some(QUOTE)
    else if u == BACKSLASH then Some(BACKSLASH)
    else if u == 0x08 then Some('b' as int)
    else if u == 0x0C then Some('f' as int)
    else if u == 0x0A then Some('n' as int)
    else if u == 0x0D then Some('r' as int)
    else if u == 0x09 then Some('t' as int)
    else None
  }

  /** Hexadecimal digits are written in lower case. */
  lemma {:induction false} HexIsLowerCase(u: Unit, i: nat)
    requires |EscapeUnit(u)| == 6 && 2 <= i < 6
    ensures '0' as int <= EscapeUnit(u)[i] <= '9' as int || 'a' as int <= EscapeUnit(u)[i] <= 'f' as int
  {
  }

  // ---------- No lone surrogates ----------

  /** Every high surrogate is followed by a low one, and every low one follows a high one. */
  predicate WellFormed(t: Text) {
    if t == [] then true
    else if HighSurrogate(t[0]) then |t| > 1 && LowSurrogate(t[1]) && WellFormed(t[2..])
    else !LowSurrogate(t[0]) && WellFormed(t[1..])
  }

  lemma {:induction false} WellFormedConcat(s: Text, t: Text)
    requires WellFormed(s) && WellFormed(t)
    ensures WellFormed(s + t)
  {
    if s == [] {
      assert s + t == t;
    } else if HighSurrogate(s[0]) {
      WellFormedConcat(s[2..], t);
      assert (s + t)[2..] == s[2..] + t;
    } else {
      WellFormedConcat(s[1..], t);
      assert (s + t)[1..] == s[1..] + t;
    }
  }

  lemma {:induction false} NoSurrogatesWellFormed(t: Text)
    requires forall i :: 0 <= i < |t| ==> !Surrogate(t[i])
    ensures WellFormed(t)
  {
    if t != [] {
      NoSurrogatesWellFormed(t[1..]);
    }
  }

  lemma {:induction false} EscapeWellFormed(s: Text)
    ensures WellFormed(Escape(s))
  {
    if s == [] {
    } else if |s| > 1 && HighSurrogate(s[0]) && LowSurrogate(s[1]) {
      EscapeWellFormed(s[2..]);
      assert [s[0], s[1]][1..] == [s[1]] && [s[0], s[1]][2..] == [];
      WellFormedConcat([s[0], s[1]], Escape(s[2..]));
    } else {
      EscapeWellFormed(s[1..]);
      NoSurrogatesWellFormed(EscapeUnit(s[0]));
      WellFormedConcat(EscapeUnit(s[0]), Escape(s[1..]));
    }
  }

  lemma {:induction false} WrappedWellFormed(a: Unit, t: Text, b: Unit)
    requires WellFormed(t) && !Surrogate(a) && !Surrogate(b)
    ensures WellFormed([a] + t + [b])
  {
    NoSurrogatesWellFormed([a]);
    NoSurrogatesWellFormed([b]);
    WellFormedConcat([a], t);
    WellFormedConcat([a] + t, [b]);
  }

  lemma {:induction false} DigitsWellFormed(n: nat)
    ensures forall i :: 0 <= i < |Digits(n)| ==> !Surrogate(Digits(n)[i])
  {
    if n >= 10 {
      DigitsWellFormed(n / 10);
    }
  }

  lemma {:induction false} ScalarWellFormed(v: Json)
    requires v.Null? || v.Bool? || v.Num?
    ensures WellFormed(Stringify(v))
  {
    if v.Num? {
      DigitsWellFormed(if v.n < 0 then -v.n else v.n);
    }
    NoSurrogatesWellFormed(Stringify(v));
  }

  /** No canonical text holds a lone surrogate, whatever the strings in it. */
  lemma {:induction false} PrintedWellFormed(v: Json)
    requires Wf(v)
    ensures WellFormed(Stringify(v))
    decreases v
  {
    match v
    case Str(s) =>
      EscapeWellFormed(s);
      WrappedWellFormed(QUOTE, Escape(s), QUOTE);
    case Arr(items) =>
      ItemsWellFormed(items);
      WrappedWellFormed(OPEN_BRACKET, StringifyItems(items), CLOSE_BRACKET);
    case Obj(ms) =>
      SortMembers(Keys(ms));
      MembersWellFormed(v, Sort(Keys(ms)));
      WrappedWellFormed(OPEN_BRACE, StringifyMembers(v, Sort(Keys(ms))), CLOSE_BRACE);
    case _ => ScalarWellFormed(v);
  }

  lemma {:induction false} ItemsWellFormed(items: seq<Json>)
    requires Wf(Arr(items))
    ensures WellFormed(StringifyItems(items))
    decreases items
  {
    if items != [] {
      PrintedWellFormed(items[0]);
      ItemsWellFormed(items[1..]);
      NoSurrogatesWellFormed([COMMA]);
      WellFormedConcat(Stringify(items[0]), [COMMA]);
      WellFormedConcat(Stringify(items[0]) + [COMMA], StringifyItems(items[1..]));
    }
  }

  lemma {:induction false} MembersWellFormed(v: Json, ks: seq<Text>)
    requires Wf(v) && v.Obj? && forall k :: k in ks ==> k in Keys(v.members)
    ensures WellFormed(StringifyMembers(v, ks))
    decreases v, |ks|
  {
    if ks != [] {
      EscapeWellFormed(ks[0]);
      WrappedWellFormed(QUOTE, Escape(ks[0]), QUOTE);
      PrintedWellFormed(At(v, ks[0]));
      MembersWellFormed(v, ks[1..]);
      NoSurrogatesWellFormed([COLON]);
      NoSurrogatesWellFormed([COMMA]);
      var member := Quote(ks[0]) + [COLON] + Stringify(At(v, ks[0]));
      WellFormedConcat(Quote(ks[0]), [COLON]);
      WellFormedConcat(Quote(ks[0]) + [COLON], Stringify(At(v, ks[0])));
      WellFormedConcat(member, [COMMA]);
      WellFormedConcat(member + [COMMA], StringifyMembers(v, ks[1..]));
    }
  }
}
