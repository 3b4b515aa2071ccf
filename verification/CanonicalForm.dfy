/**
 * Canonical texts by the grammar: `sortedStringify` prints exactly the texts of tight derivations,
 * which have no white space, sorted keys, and one way to write every unit and number.
 */
module CanonicalForm {
  import opened Wrappers
  import opened JsText
  import opened Json
  import opened JsonParser
  import opened Canonical
  import opened JsonGrammar
  import opened PrintedForm

  // ---------- Tight derivations ----------

  predicate LowerCase(u: Unit) {
    48 <= u <= 57 || 97 <= u <= 102
  }

  /** Units are written as they are; with an escape, the short one if there is one, only where they have to. */
  predicate CharTight(ch: Char) {
    match ch
    case Plain(u) => !Surrogate(u)
    case Short(letter, _) => letter != '/' as int
    case Hex(a, b, c, d) =>
      && LowerCase(a) && LowerCase(b) && LowerCase(c) && LowerCase(d)
      && CharOk(ch)
      && var u := CharValue(ch);
         Surrogate(u) || (u < 0x20 && u != 0x08 && u != 0x09 && u != 0x0A && u != 0x0C && u != 0x0D)
  }

  /** A surrogate pair is written as it is, a lone surrogate escaped. */
  predicate CharsTight(chars: seq<Char>)
    requires CharsOk(chars)
    decreases |chars|
  {
    if chars == [] then true
    else if |chars| > 1 && 0xD800 <= CharValue(chars[0]) <= 0xDBFF && 0xDC00 <= CharValue(chars[1]) <= 0xDFFF then
      chars[0].Plain? && chars[1].Plain? && CharsTight(chars[2..])
    else CharTight(chars[0]) && CharsTight(chars[1..])
  }

  ghost predicate Tight(t: Tree) {
    match t
    case Word(_) => true
    case Number(negative, digits) => negative ==> digits != ['0' as int]
    case String(chars) => CharsOk(chars) && CharsTight(chars)
    case Array(items, gap) => gap == [] && ItemsTight(items)
    case Object(ps, gap) =>
      && gap == [] && PairsTight(ps)
      && forall i, j :: 0 <= i < |ps| && j == i + 1 && j < |ps| ==>
           Precedes(CharsValue(ps[i].key), CharsValue(ps[j].key))
  }

  ghost predicate ItemsTight(items: seq<Item>) {
    forall i :: 0 <= i < |items| ==> items[i].before == [] && items[i].after == [] && Tight(items[i].value)
  }

  ghost predicate PairsTight(ps: seq<Pair>) {
    forall i :: 0 <= i < |ps| ==>
      && ps[i].before == [] && ps[i].mid == [] && ps[i].gap == [] && ps[i].after == []
      && CharsOk(ps[i].key) && CharsTight(ps[i].key) && Tight(ps[i].value)
  }

  // ---------- Tight texts are printed ----------

  lemma {:induction false} HexText(a: Unit, b: Unit, c: Unit, d: Unit)
    requires CharOk(Hex(a, b, c, d)) && LowerCase(a) && LowerCase(b) && LowerCase(c) && LowerCase(d)
    ensures CharText(Hex(a, b, c, d)) == UnicodeEscape(CharValue(Hex(a, b, c, d)))
  {
    var w, x, y, z := Nibble(a), Nibble(b), Nibble(c), Nibble(d);
    Places(w, x, y, z);
    assert HexDigit(w) == a && HexDigit(x) == b && HexDigit(y) == c && HexDigit(z) == d;
  }

  lemma {:induction false} Places(w: nat, x: nat, y: nat, z: nat)
    requires w < 16 && x < 16 && y < 16 && z < 16
    ensures var u := 0x1000 * w + 0x100 * x + 0x10 * y + z;
            u / 4096 == w && u / 256 % 16 == x && u / 16 % 16 == y && u % 16 == z
  {
    var u := 0x1000 * w + 0x100 * x + 0x10 * y + z;
    assert u / 16 == 0x100 * w + 0x10 * x + y;
    assert u / 256 == 0x10 * w + x;
  }

  lemma {:induction false} TightCharText(ch: Char)
    requires CharOk(ch) && CharTight(ch)
    ensures CharText(ch) == EscapeUnit(CharValue(ch))
  {
    if ch.Hex? {
      HexText(ch.a, ch.b, ch.c, ch.d);
    }
  }

  lemma {:induction false} TightCharsText(chars: seq<Char>)
    requires CharsOk(chars) && CharsTight(chars)
    ensures CharsText(chars) == Escape(CharsValue(chars))
    decreases |chars|
  {
    var s := CharsValue(chars);
    if chars != [] {
      assert CharsValue(chars[1..]) == s[1..];
      if |chars| > 1 && HighSurrogate(s[0]) && LowSurrogate(s[1]) {
        assert CharsValue(chars[2..]) == s[2..];
        assert chars[1..][1..] == chars[2..];
        TightCharsText(chars[2..]);
        assert CharsText(chars) == [s[0]] + ([s[1]] + CharsText(chars[2..]));
      } else {
        TightCharText(chars[0]);
        TightCharsText(chars[1..]);
      }
    }
  }

  lemma {:induction false} DigitsAgain(digits: Text)
    requires DigitsOk(digits)
    ensures Digits(DigitsValue(digits)) == digits
    ensures digits != ['0' as int] ==> DigitsValue(digits) > 0
  {
    var last := |digits| - 1;
    if last > 0 {
      DigitsAgain(digits[..last]);
    } else {
      assert digits[..0] == [];
    }
  }

  /** The members of a tight object, one for each pair. */
  ghost function MembersOf(ps: seq<Pair>): (ms: seq<Member>)
    requires PairsOk(ps)
    ensures |ms| == |ps|
    ensures forall i :: 0 <= i < |ps| ==> ms[i] == Member(CharsValue(ps[i].key), TreeValue(ps[i].value))
  {
    if ps == [] then [] else [Member(CharsValue(ps[0].key), TreeValue(ps[0].value))] + MembersOf(ps[1..])
  }

  lemma {:induction false} PairsValueDistinct(ms: seq<Member>, ps: seq<Pair>)
    requires PairsOk(ps) && Distinct(Keys(ms + MembersOf(ps)))
    ensures PairsValue(ms, ps) == ms + MembersOf(ps)
    decreases ps
  {
    if ps != [] {
      var m := MembersOf(ps)[0];
      var all := ms + MembersOf(ps);
      assert Keys(all)[|ms|] == m.key;
      forall i | 0 <= i < |ms| ensures Keys(ms)[i] != m.key {
        assert Keys(all)[i] == Keys(ms)[i];
      }
      assert ms + [m] + MembersOf(ps[1..]) == all;
      PairsValueDistinct(ms + [m], ps[1..]);
    }
  }

  lemma {:induction false} AscendingKeys(ks: seq<Text>)
    requires forall i, j :: 0 <= i < |ks| && j == i + 1 && j < |ks| ==> Precedes(ks[i], ks[j])
    ensures Increasing(ks) && Distinct(ks) && Sort(ks) == ks
  {
    forall i, j | 0 <= i < j < |ks| ensures Less(ks[i], ks[j]) {
      Ascends(ks, i, j);
    }
    IncreasingIsDistinct(ks);
    SortIncreasing(ks);
    SortMembers(ks);
    assert ToSet(Sort(ks)) == ToSet(ks);
    IncreasingUnique(Sort(ks), ks);
  }

  lemma {:induction false} Ascends(ks: seq<Text>, i: nat, j: nat)
    requires forall i, j :: 0 <= i < |ks| && j == i + 1 && j < |ks| ==> Precedes(ks[i], ks[j])
    requires i < j < |ks|
    ensures Less(ks[i], ks[j])
  {
    LessIff(ks[j - 1], ks[j]);
    if i < j - 1 {
      Ascends(ks, i, j - 1);
      LessTransitive(ks[i], ks[j - 1], ks[j]);
    }
  }

  /** What a tight object holds: its pairs, in order, under distinct keys. */
  lemma {:induction false} TightObject(t: Tree)
    requires TreeOk(t) && t.Object? && Tight(t)
    ensures TreeValue(t) == Obj(MembersOf(t.members))
    ensures var ks := Keys(MembersOf(t.members)); Distinct(ks) && Sort(ks) == ks
  {
    var ks := Keys(MembersOf(t.members));
    forall i, j | 0 <= i < |ks| && j == i + 1 && j < |ks| ensures Precedes(ks[i], ks[j]) {
      assert Precedes(CharsValue(t.members[i].key), CharsValue(t.members[j].key));
    }
    AscendingKeys(ks);
    var none: seq<Member> := [];
    assert none + MembersOf(t.members) == MembersOf(t.members);
    PairsValueDistinct(none, t.members);
  }

  /** The text of a tight derivation is the canonical text of its value. */
  lemma {:induction false} TightIsPrinted(t: Tree)
    requires TreeOk(t) && Tight(t)
    ensures Wf(TreeValue(t)) && TreeText(t) == Stringify(TreeValue(t))
    decreases t, 1
  {
    match t
    case Word(_) =>
    case Number(_, digits) => DigitsAgain(digits);
    case String(chars) => TightCharsText(chars);
    case Array(items, _) => TightItemsText(items);
    case Object(ps, _) =>
      TightObject(t);
      var ms := MembersOf(ps);
      forall i | 0 <= i < |ps| ensures Get(ms, CharsValue(ps[i].key)) == Some(TreeValue(ps[i].value)) {
        GetAt(ms, i);
      }
      TightPairsText(TreeValue(t), ps);
      forall i | 0 <= i < |ms| ensures Wf(ms[i].value) {
        TightIsPrinted(ps[i].value);
      }
  }

  lemma {:induction false} TightItemsText(items: seq<Item>)
    requires ItemsOk(items) && ItemsTight(items)
    ensures Wf(Arr(ItemsValue(items)))
    ensures (if items == [] then [] else ItemsText(items)) == StringifyItems(ItemsValue(items))
    decreases items, 0
  {
    if items != [] {
      var it := items[0];
      TightIsPrinted(it.value);
      TightItemsText(items[1..]);
      ItemsTextOf(it, items[1..], TreeValue(it.value), ItemsValue(items[1..]));
      assert items == [it] + items[1..];
    }
  }

  lemma {:induction false} ItemsTextOf(it: Item, more: seq<Item>, v: Json, vs: seq<Json>)
    requires it.before == [] && it.after == [] && TreeText(it.value) == Stringify(v)
    requires (if more == [] then [] else ItemsText(more)) == StringifyItems(vs) && |more| == |vs|
    ensures ItemsText([it] + more) == StringifyItems([v] + vs)
  {
    assert ([it] + more)[1..] == more && ([v] + vs)[1..] == vs;
    assert ItemText(it) == Stringify(v);
  }

  /** The object holds, under the keys of the pairs, their values. */
  ghost predicate Holds(v: Json, ps: seq<Pair>)
    requires PairsOk(ps)
  {
    && v.Obj?
    && (forall i :: 0 <= i < |ps| ==> Get(v.members, CharsValue(ps[i].key)) == Some(TreeValue(ps[i].value)))
    && (forall k :: k in Keys(MembersOf(ps)) ==> k in Keys(v.members))
  }

  lemma {:induction false} HoldsFirst(v: Json, ps: seq<Pair>)
    requires ps != [] && PairsOk(ps) && PairsTight(ps) && Holds(v, ps)
    ensures PairsOk(ps[1..]) && PairsTight(ps[1..]) && Holds(v, ps[1..])
    ensures CharsOk(ps[0].key) && CharsTight(ps[0].key) && TreeOk(ps[0].value) && Tight(ps[0].value)
    ensures ps[0].before == [] && ps[0].mid == [] && ps[0].gap == [] && ps[0].after == []
    ensures Get(v.members, CharsValue(ps[0].key)) == Some(TreeValue(ps[0].value))
    ensures Keys(MembersOf(ps)) == [CharsValue(ps[0].key)] + Keys(MembersOf(ps[1..]))
  {
    MemberKeys(ps);
  }

  lemma {:induction false} TightPairsText(v: Json, ps: seq<Pair>)
    requires PairsOk(ps) && PairsTight(ps) && Holds(v, ps)
    ensures (if ps == [] then [] else PairsText(ps)) == StringifyMembers(v, Keys(MembersOf(ps)))
    decreases ps, 0
  {
    if ps != [] {
      var p := ps[0];
      HoldsFirst(v, ps);
      TightIsPrinted(p.value);
      TightCharsText(p.key);
      TightPairsText(v, ps[1..]);
      TightPairText(p, CharsValue(p.key), TreeValue(p.value));
      PairsTextOf(v, p, ps[1..], CharsValue(p.key), Keys(MembersOf(ps[1..])));
      assert ps == [p] + ps[1..];
    }
  }

  lemma {:induction false} MemberKeys(ps: seq<Pair>)
    requires ps != [] && PairsOk(ps)
    ensures Keys(MembersOf(ps)) == [CharsValue(ps[0].key)] + Keys(MembersOf(ps[1..]))
  {
  }

  lemma {:induction false} TightPairText(p: Pair, k: Text, v: Json)
    requires p.before == [] && p.mid == [] && p.gap == [] && p.after == []
    requires CharsText(p.key) == Escape(k) && TreeText(p.value) == Stringify(v)
    ensures PairText(p) == Quote(k) + [COLON] + Stringify(v)
  {
  }

  lemma {:induction false} PairsTextOf(v: Json, p: Pair, more: seq<Pair>, k: Text, ks: seq<Text>)
    requires v.Obj? && k in Keys(v.members) && forall x :: x in ks ==> x in Keys(v.members)
    requires PairText(p) == Quote(k) + [COLON] + Stringify(At(v, k))
    requires (if more == [] then [] else PairsText(more)) == StringifyMembers(v, ks) && |more| == |ks|
    ensures PairsText([p] + more) == StringifyMembers(v, [k] + ks)
  {
    assert ([p] + more)[1..] == more && ([k] + ks)[1..] == ks;
  }

  // ---------- Printed texts are tight ----------

  lemma {:induction false} UnitChar(u: Unit) returns (ch: Char)
    ensures CharOk(ch) && CharTight(ch) && CharValue(ch) == u
  {
    if u == QUOTE || u == BACKSLASH {
      ch := Short(u, u);
    } else if u == 0x08 {
      ch := Short('b' as int, u);
    } else if u == 0x09 {
      ch := Short('t' as int, u);
    } else if u == 0x0A {
      ch := Short('n' as int, u);
    } else if u == 0x0C {
      ch := Short('f' as int, u);
    } else if u == 0x0D {
      ch := Short('r' as int, u);
    } else if u < 0x20 || Surrogate(u) {
      ch := HexChar(u);
    } else {
      ch := Plain(u);
    }
  }

  lemma {:induction false} HexChar(u: Unit) returns (ch: Char)
    ensures ch.Hex? && CharOk(ch) && CharValue(ch) == u
    ensures LowerCase(ch.a) && LowerCase(ch.b) && LowerCase(ch.c) && LowerCase(ch.d)
  {
    ch := Hex(HexDigit(u / 4096), HexDigit(u / 256 % 16), HexDigit(u / 16 % 16), HexDigit(u % 16));
    NibbleOf(u / 4096);
    NibbleOf(u / 256 % 16);
    NibbleOf(u / 16 % 16);
    NibbleOf(u % 16);
    HexPlaces(u);
  }

  lemma {:induction false} NibbleOf(d: nat)
    requires d < 16
    ensures Nibble(HexDigit(d)) == d && LowerCase(HexDigit(d))
  {
  }

  lemma {:induction false} TightChars(s: Text) returns (chars: seq<Char>)
    ensures CharsOk(chars) && CharsTight(chars) && CharsValue(chars) == s
    decreases |s|
  {
    if s == [] {
      chars := [];
    } else if |s| > 1 && HighSurrogate(s[0]) && LowSurrogate(s[1]) {
      var more := TightChars(s[2..]);
      chars := [Plain(s[0]), Plain(s[1])] + more;
      assert chars[2..] == more;
    } else {
      var ch := UnitChar(s[0]);
      var more := TightChars(s[1..]);
      chars := [ch] + more;
      assert chars[1..] == more;
      assert CharsValue(chars) == [s[0]] + CharsValue(more);
    }
  }

  lemma {:induction false} TightNumber(n: int) returns (t: Tree)
    ensures TreeOk(t) && Tight(t) && TreeValue(t) == Num(n)
  {
    var k := if n < 0 then -n else n;
    ParseNatOf(k, []);
    assert Digits(k) + [] == Digits(k);
    var digits := NumberDerives(Digits(k));
    t := Number(n < 0, digits);
    assert [48][..0] == [];
  }

  /** Every value with its keys in order has a tight derivation. */
  lemma {:induction false} TightTree(v: Json) returns (t: Tree)
    requires Wf(v) && KeysInOrder(v)
    ensures TreeOk(t) && Tight(t) && TreeValue(t) == v
    decreases v, 1, 0
  {
    match v
    case Null => t := Word(v);
    case Bool(_) => t := Word(v);
    case Num(n) => t := TightNumber(n);
    case Str(s) =>
      var chars := TightChars(s);
      t := String(chars);
    case Arr(vs) =>
      var items := TightItems(v, 0);
      t := Array(items, []);
    case Obj(ms) =>
      var ps := TightPairs(v, 0);
      t := Object(ps, []);
      forall i, j | 0 <= i < |ps| && j == i + 1 && j < |ps|
        ensures Precedes(CharsValue(ps[i].key), CharsValue(ps[j].key))
      {
        assert Precedes(ms[i].key, ms[j].key);
      }
      TightObject(t);
      assert MembersOf(ps) == ms;
  }

  lemma {:induction false} TightItems(v: Json, i: nat) returns (items: seq<Item>)
    requires v.Arr? && Wf(v) && KeysInOrder(v) && i <= |v.items|
    ensures ItemsOk(items) && ItemsValue(items) == v.items[i..]
    ensures ItemsTight(items)
    decreases v, 0, |v.items| - i
  {
    items := [];
    if i < |v.items| {
      var t := TightTree(v.items[i]);
      var more := TightItems(v, i + 1);
      items := [Item([], t, [])] + more;
      ItemsValueCons(Item([], t, []), more);
      assert v.items[i..] == [v.items[i]] + v.items[i + 1..];
    }
  }

  lemma {:induction false} TightPairs(v: Json, i: nat) returns (ps: seq<Pair>)
    requires v.Obj? && Wf(v) && KeysInOrder(v) && i <= |v.members|
    ensures PairsOk(ps) && |ps| == |v.members| - i
    ensures PairsTight(ps)
    ensures forall j :: 0 <= j < |ps| ==> CharsValue(ps[j].key) == v.members[i + j].key
    ensures forall j :: 0 <= j < |ps| ==> TreeValue(ps[j].value) == v.members[i + j].value
    decreases v, 0, |v.members| - i
  {
    ps := [];
    if i < |v.members| {
      var t := TightTree(v.members[i].value);
      var key := TightChars(v.members[i].key);
      var more := TightPairs(v, i + 1);
      ps := [Pair([], key, [], [], t, [])] + more;
    }
  }

  // ---------- Canonical texts ----------

  ghost predicate TightText(s: Text, t: Tree) {
    TreeOk(t) && Tight(t) && TreeText(t) == s
  }

  /** A text is the canonical text of a value if and only if it is the text of a tight derivation of that value. */
  lemma {:induction false} PrintedIff(v: Json, s: Text)
    requires Wf(v)
    ensures s == Stringify(v) <==> exists t :: TightText(s, t) && Same(v, TreeValue(t))
  {
    if s == Stringify(v) {
      NormSame(v);
      NormInOrder(v);
      var t := TightTree(Norm(v));
      TightIsPrinted(t);
      SameImpliesSameText(v, Norm(v));
      assert TightText(s, t);
    }
    forall t | TightText(s, t) && Same(v, TreeValue(t))
      ensures s == Stringify(v)
    {
      TightIsPrinted(t);
      SameImpliesSameText(v, TreeValue(t));
    }
  }

  /** A line passes the canonical form check of the validator if and only if it has a tight derivation. */
  lemma {:induction false} CanonicalLineIff(s: Text)
    ensures (Parse(s).Some? && Stringify(Parse(s).value) == s) <==> exists t :: TightText(s, t)
  {
    if Parse(s).Some? && Stringify(Parse(s).value) == s {
      ParseWf(s);
      PrintedIff(Parse(s).value, s);
    }
    forall t | TightText(s, t)
      ensures Parse(s).Some? && Stringify(Parse(s).value) == s
    {
      TightIsPrinted(t);
      var none: Text := [];
      assert s == none + TreeText(t) + none;
      assert Derives(s, none, t, none);
      ParseIff(s, TreeValue(t));
    }
  }
}
