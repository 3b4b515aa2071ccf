/**
 * The grammar of RFC 8259, sections 2 to 7, with integers for numbers, as derivations and their
 * texts; and the parser accepts exactly the texts of derivations, with their values.
 */
module JsonGrammar {
  import opened Wrappers
  import opened JsText
  import opened Json
  import opened JsonParser
  import opened Canonical

  // ---------- Derivations ----------

  /** One unit of a string: as it is, with a short escape, or with four hexadecimal digits of either case. */
  datatype Char =
    | Plain(u: Unit)
    | Short(letter: Unit, u: Unit)
    | Hex(a: Unit, b: Unit, c: Unit, d: Unit)

  datatype Tree =
    | Word(value: Json)
    | Number(negative: bool, digits: Text)
    | String(chars: seq<Char>)
    | Array(items: seq<Item>, gap: Text)
    | Object(members: seq<Pair>, gap: Text)

  /** A value with the white space around it; in an object, with its key. */
  datatype Item = Item(before: Text, value: Tree, after: Text)

  datatype Pair = Pair(before: Text, key: seq<Char>, mid: Text, gap: Text, value: Tree, after: Text)

  predicate Space(t: Text) {
    forall i :: 0 <= i < |t| ==> t[i] == 0x20 || t[i] == 0x09 || t[i] == 0x0A || t[i] == 0x0D
  }

  /** The digit a unit stands for in base 16, or -1. */
  function Nibble(u: Unit): (d: int)
    ensures -1 <= d <= 15
  {
    if 48 <= u <= 57 then u - 48
    else if 97 <= u <= 102 then u - 87
    else if 65 <= u <= 70 then u - 55
    else -1
  }

  predicate CharOk(ch: Char) {
    match ch
    case Plain(u) => u >= 0x20 && u != 0x22 && u != 0x5C
    case Short(letter, u) =>
      || (letter == u && (u == 0x22 || u == 0x5C || u == 0x2F))
      || (letter == 'b' as int && u == 0x08) || (letter == 'f' as int && u == 0x0C)
      || (letter == 'n' as int && u == 0x0A) || (letter == 'r' as int && u == 0x0D) || (letter == 't' as int && u == 0x09)
    case Hex(a, b, c, d) => Nibble(a) >= 0 && Nibble(b) >= 0 && Nibble(c) >= 0 && Nibble(d) >= 0
  }

  function CharText(ch: Char): Text {
    match ch
    case Plain(u) => [u]
    case Short(letter, _) => [0x5C, letter]
    case Hex(a, b, c, d) => [0x5C, 'u' as int, a, b, c, d]
  }

  function CharValue(ch: Char): Unit
    requires CharOk(ch)
  {
    match ch
    case Plain(u) => u
    case Short(_, u) => u
    case Hex(a, b, c, d) => 0x1000 * Nibble(a) + 0x100 * Nibble(b) + 0x10 * Nibble(c) + Nibble(d)
  }

  predicate CharsOk(chars: seq<Char>) {
    forall i :: 0 <= i < |chars| ==> CharOk(chars[i])
  }

  function CharsText(chars: seq<Char>): Text {
    if chars == [] then [] else CharText(chars[0]) + CharsText(chars[1..])
  }

  function CharsValue(chars: seq<Char>): Text
    requires CharsOk(chars)
  {
    seq(|chars|, i requires 0 <= i < |chars| => CharValue(chars[i]))
  }

  predicate AllDigits(t: Text) {
    forall i :: 0 <= i < |t| ==> 48 <= t[i] <= 57
  }

  /** Digits, with no zero in front of others. */
  predicate DigitsOk(digits: Text) {
    digits != [] && AllDigits(digits) && (|digits| > 1 ==> digits[0] != 48)
  }

  function DigitsValue(digits: Text): nat
    requires AllDigits(digits)
  {
    if digits == [] then 0
    else DigitsValue(digits[..|digits| - 1]) * 10 + (digits[|digits| - 1] - 48)
  }

  ghost predicate TreeOk(t: Tree) {
    match t
    case Word(v) => v.Null? || v.Bool?
    case Number(_, digits) => DigitsOk(digits)
    case String(chars) => CharsOk(chars)
    case Array(items, gap) => Space(gap) && ItemsOk(items)
    case Object(members, gap) => Space(gap) && PairsOk(members)
  }

  ghost predicate ItemsOk(items: seq<Item>) {
    forall i :: 0 <= i < |items| ==> Space(items[i].before) && Space(items[i].after) && TreeOk(items[i].value)
  }

  ghost predicate PairsOk(ps: seq<Pair>) {
    forall i :: 0 <= i < |ps| ==>
      && Space(ps[i].before) && Space(ps[i].mid) && Space(ps[i].gap) && Space(ps[i].after)
      && CharsOk(ps[i].key) && TreeOk(ps[i].value)
  }

  function TreeText(t: Tree): Text {
    match t
    case Word(v) => Lit(if v == Null then "null" else if v == Bool(true) then "true" else "false")
    case Number(negative, digits) => if negative then ['-' as int] + digits else digits
    case String(chars) => ['\"' as int] + CharsText(chars) + ['\"' as int]
    case Array(items, gap) => ['[' as int] + (if items == [] then gap else ItemsText(items)) + [']' as int]
    case Object(members, gap) => ['{' as int] + (if members == [] then gap else PairsText(members)) + ['}' as int]
  }

  function ItemText(it: Item): Text {
    it.before + TreeText(it.value) + it.after
  }

  function ItemsText(items: seq<Item>): Text
    requires items != []
  {
    if |items| == 1 then ItemText(items[0]) else ItemText(items[0]) + [',' as int] + ItemsText(items[1..])
  }

  function PairText(p: Pair): Text {
    p.before + (['\"' as int] + CharsText(p.key) + ['\"' as int]) + p.mid + [':' as int] + p.gap + TreeText(p.value) + p.after
  }

  function PairsText(ps: seq<Pair>): Text
    requires ps != []
  {
    if |ps| == 1 then PairText(ps[0]) else PairText(ps[0]) + [',' as int] + PairsText(ps[1..])
  }

  /** Of a repeated key the last value counts, at the place of the first. */
  function TreeValue(t: Tree): Json
    requires TreeOk(t)
  {
    match t
    case Word(v) => v
    case Number(negative, digits) => Num(if negative then -(DigitsValue(digits) as int) else DigitsValue(digits))
    case String(chars) => Str(CharsValue(chars))
    case Array(items, _) => Arr(ItemsValue(items))
    case Object(members, _) => Obj(PairsValue([], members))
  }

  function ItemsValue(items: seq<Item>): (vs: seq<Json>)
    requires ItemsOk(items)
    ensures |vs| == |items|
  {
    if items == [] then [] else [TreeValue(items[0].value)] + ItemsValue(items[1..])
  }

  function PairsValue(ms: seq<Member>, ps: seq<Pair>): seq<Member>
    requires PairsOk(ps)
    decreases ps
  {
    if ps == [] then ms
    else PairsValue(Put(ms, CharsValue(ps[0].key), TreeValue(ps[0].value)), ps[1..])
  }

  /** Writing a key gives it the new value, and leaves every other key its own. */
  lemma {:induction false} PutGet(ms: seq<Member>, k: Text, v: Json, x: Text)
    ensures Get(Put(ms, k, v), x) == if x == k then Some(v) else Get(ms, x)
  {
    if ms != [] {
      PutGet(ms[1..], k, v, x);
      var r := Put(ms, k, v);
      assert r[1..] == if ms[0].key == k then ms[1..] else Put(ms[1..], k, v);
    }
  }

  // ---------- White space ----------

  lemma {:induction false} SkipGap(gap: Text, s: Text)
    requires Space(gap)
    ensures SkipSpace(gap + s) == SkipSpace(s)
    ensures ParseValue(gap + s) == ParseValue(s)
  {
    if gap == [] {
      assert gap + s == s;
    } else {
      SkipGap(gap[1..], s);
      assert (gap + s)[1..] == gap[1..] + s;
    }
  }

  lemma {:induction false} SkippedGap(s: Text) returns (gap: Text)
    ensures Space(gap) && s == gap + SkipSpace(s)
    ensures SkipSpace(s) != [] ==> !IsSpace(SkipSpace(s)[0])
  {
    if s != [] && IsSpace(s[0]) {
      var g := SkippedGap(s[1..]);
      gap := [s[0]] + g;
      assert s == [s[0]] + s[1..];
    } else {
      gap := [];
    }
  }

  // ---------- Strings ----------

  lemma {:induction false} ParseChar(ch: Char, s: Text)
    requires CharOk(ch)
    ensures ParseString(CharText(ch) + s) ==
              match ParseString(s)
              case Fail => Fail
              case Ok(t, rest) => Ok([CharValue(ch)] + t, rest)
  {
    match ch
    case Plain(_) => assert (CharText(ch) + s)[1..] == s;
    case Short(_, _) => assert (CharText(ch) + s)[2..] == s;
    case Hex(a, b, c, d) => ParseHexChar(a, b, c, d, s);
  }

  lemma {:induction false} ParseHexChar(a: Unit, b: Unit, c: Unit, d: Unit, s: Text)
    requires CharOk(Hex(a, b, c, d))
    ensures ParseString(CharText(Hex(a, b, c, d)) + s) ==
              match ParseString(s)
              case Fail => Fail
              case Ok(t, rest) => Ok([CharValue(Hex(a, b, c, d))] + t, rest)
  {
    var all := [BACKSLASH, 'u' as int, a, b, c, d] + s;
    assert CharText(Hex(a, b, c, d)) + s == all;
    assert all[2..6] == [a, b, c, d] && all[6..] == s;
    HexCharValue(a, b, c, d);
  }

  lemma {:induction false} HexCharValue(a: Unit, b: Unit, c: Unit, d: Unit)
    requires CharOk(Hex(a, b, c, d))
    ensures Hex4([a, b, c, d]) == Some(CharValue(Hex(a, b, c, d)))
  {
    NibbleIs(a);
    NibbleIs(b);
    NibbleIs(c);
    NibbleIs(d);
  }

  lemma {:induction false} NibbleIs(u: Unit)
    ensures HexValue(u) == if Nibble(u) < 0 then None else Some(Nibble(u))
  {
  }

  lemma {:induction false} ParseChars(chars: seq<Char>, rest: Text)
    requires CharsOk(chars)
    ensures ParseString(CharsText(chars) + ([QUOTE] + rest)) == Ok(CharsValue(chars), rest)
  {
    if chars == [] {
      assert CharsText(chars) + ([QUOTE] + rest) == [QUOTE] + rest;
      assert ([QUOTE] + rest)[1..] == rest;
    } else {
      ParseChars(chars[1..], rest);
      ParseChar(chars[0], CharsText(chars[1..]) + ([QUOTE] + rest));
      Assoc(CharText(chars[0]), CharsText(chars[1..]), [QUOTE] + rest);
      assert CharsValue(chars) == [CharValue(chars[0])] + CharsValue(chars[1..]);
    }
  }

  lemma {:induction false} FirstChar(s: Text) returns (ch: Char, s': Text)
    requires ParseString(s).Ok? && s[0] != 0x22
    ensures CharOk(ch) && s == CharText(ch) + s' && |s'| < |s|
  {
    if s[0] != 0x5C {
      ch, s' := Plain(s[0]), s[1..];
    } else if s[1] == 'u' as int {
      ch, s' := Hex(s[2], s[3], s[4], s[5]), s[6..];
      assert s[2..6] == [s[2], s[3], s[4], s[5]];
      assert Hex4(s[2..6]).Some?;
    } else {
      ch, s' := Short(s[1], ShortEscape(s[1]).value), s[2..];
    }
  }

  lemma {:induction false} StringDerives(s: Text) returns (chars: seq<Char>)
    requires ParseString(s).Ok?
    ensures CharsOk(chars) && CharsValue(chars) == ParseString(s).value
    ensures s == CharsText(chars) + ([QUOTE] + ParseString(s).rest)
    decreases |s|
  {
    if s[0] == 0x22 {
      chars := [];
      assert s == [QUOTE] + s[1..];
    } else {
      var ch, s' := FirstChar(s);
      ParseChar(ch, s');
      var more := StringDerives(s');
      chars := [ch] + more;
      assert chars[1..] == more;
      assert CharsValue(chars) == [CharValue(ch)] + CharsValue(more);
      Assoc(CharText(ch), CharsText(more), [QUOTE] + ParseString(s).rest);
    }
  }

  // ---------- Numbers ----------

  lemma {:induction false} ParseOnto(digits: Text, n: nat, rest: Text)
    requires AllDigits(digits)
    requires !DigitFirst(rest)
    ensures ParseDigits(digits + rest, n) == (Onto(n, digits), rest)
  {
    if digits == [] {
      assert digits + rest == rest;
    } else {
      ParseOnto(digits[1..], 10 * n + (digits[0] - 48), rest);
      assert (digits + rest)[1..] == digits[1..] + rest;
    }
  }

  function Onto(n: nat, digits: Text): nat
    requires AllDigits(digits)
    decreases |digits|
  {
    if digits == [] then n else Onto(10 * n + (digits[0] - 48), digits[1..])
  }

  lemma {:induction false} OntoLast(n: nat, digits: Text)
    requires digits != [] && AllDigits(digits)
    ensures Onto(n, digits) == 10 * Onto(n, digits[..|digits| - 1]) + (digits[|digits| - 1] - 48)
    decreases |digits|
  {
    if |digits| > 1 {
      OntoLast(10 * n + (digits[0] - 48), digits[1..]);
      assert digits[1..][..|digits| - 2] == digits[..|digits| - 1][1..];
    } else {
      assert digits[1..] == [] && digits[..0] == [];
    }
  }

  lemma {:induction false} OntoZero(digits: Text)
    requires AllDigits(digits)
    ensures Onto(0, digits) == DigitsValue(digits)
  {
    if digits != [] {
      OntoLast(0, digits);
      OntoZero(digits[..|digits| - 1]);
    }
  }

  lemma {:induction false} OntoCons(d: Unit, more: Text)
    requires 48 <= d <= 57 && AllDigits(more)
    ensures AllDigits([d] + more) && DigitsValue([d] + more) == Onto(d - 48, more)
  {
    assert ([d] + more)[1..] == more;
    OntoZero([d] + more);
  }

  lemma {:induction false} ParseNumberText(digits: Text, rest: Text)
    requires DigitsOk(digits) && !DigitFirst(rest)
    ensures ParseNat(digits + rest) == Ok(DigitsValue(digits), rest)
  {
    var s := digits + rest;
    assert s[0] == digits[0] && s[1..] == digits[1..] + rest;
    OntoZero(digits);
    if digits[0] == 48 {
      assert digits == [48];
      assert digits[1..] == [] && digits[..0] == [];
      assert s[1..] == rest;
    } else {
      ParseOnto(digits[1..], digits[0] - 48, rest);
    }
  }

  lemma {:induction false} DigitsDerive(s: Text, n: nat) returns (digits: Text)
    ensures AllDigits(digits)
    ensures s == digits + ParseDigits(s, n).1 && ParseDigits(s, n).0 == Onto(n, digits)
  {
    if s != [] && IsDigit(s[0]) {
      var more := DigitsDerive(s[1..], 10 * n + (s[0] - ZERO));
      digits := [s[0]] + more;
      assert digits[1..] == more;
      assert s == [s[0]] + s[1..];
    } else {
      digits := [];
    }
  }

  lemma {:induction false} NumberDerives(s: Text) returns (digits: Text)
    requires ParseNat(s).Ok?
    ensures DigitsOk(digits) && DigitsValue(digits) == ParseNat(s).value
    ensures s == digits + ParseNat(s).rest
  {
    if s[0] == ZERO {
      digits := [48];
      assert digits[..0] == [];
    } else {
      var more := DigitsDerive(s[1..], s[0] - ZERO);
      digits := [s[0]] + more;
      OntoCons(s[0], more);
    }
  }

  // ---------- Every derivation is parsed ----------

  lemma {:induction false} FirstOfTree(t: Tree)
    requires TreeOk(t)
    ensures TreeText(t) != [] && !IsSpace(TreeText(t)[0]) && TreeText(t)[0] != CLOSE_BRACKET
  {
  }

  lemma {:induction false} ParseWord(t: Tree, rest: Text)
    requires t.Word? && TreeOk(t)
    ensures ParseValue(TreeText(t) + rest) == Ok(t.value, rest)
  {
    ParseConstant(t.value, rest);
  }

  lemma {:induction false} ParseNumberTree(t: Tree, rest: Text)
    requires t.Number? && TreeOk(t) && !DigitFirst(rest)
    ensures ParseValue(TreeText(t) + rest) == Ok(TreeValue(t), rest)
  {
    var digits := t.digits;
    ParseNumberText(digits, rest);
    if t.negative {
      Assoc([MINUS], digits, rest);
      ParseNegative(digits + rest, DigitsValue(digits), rest);
    } else {
      assert (digits + rest)[0] == digits[0];
      ParseNotNegative(digits + rest, DigitsValue(digits), rest);
    }
  }

  lemma {:induction false} ParseQuoted(s: Text, x: Text, rest: Text)
    requires ParseString(s) == Ok(x, rest)
    ensures ParseValue([QUOTE] + s) == Ok(Str(x), rest)
  {
    assert ([QUOTE] + s)[1..] == s;
  }

  lemma {:induction false} ParseStringTree(t: Tree, rest: Text)
    requires t.String? && TreeOk(t)
    ensures ParseValue(TreeText(t) + rest) == Ok(TreeValue(t), rest)
  {
    ParseChars(t.chars, rest);
    ParseQuoted(CharsText(t.chars) + ([QUOTE] + rest), CharsValue(t.chars), rest);
    Wrapped(QUOTE, CharsText(t.chars), QUOTE, rest);
  }

  lemma {:induction false} Wrapped(a: Unit, x: Text, b: Unit, rest: Text)
    ensures [a] + x + [b] + rest == [a] + (x + ([b] + rest))
  {
  }

  lemma {:induction false} ParseArrayText(s: Text, vs: seq<Json>, rest: Text)
    requires ParseItems(s) == Ok(vs, rest)
    requires SkipSpace(s) != [] && SkipSpace(s)[0] != CLOSE_BRACKET
    ensures ParseValue([OPEN_BRACKET] + s) == Ok(Arr(vs), rest)
  {
    SkipIsIdle(s);
    assert ([OPEN_BRACKET] + s)[1..] == s;
  }

  lemma {:induction false} ParseObjectTextOf(s: Text, ms: seq<Member>, rest: Text)
    requires ParseMembers(s, []) == Ok(ms, rest)
    requires SkipSpace(s) != [] && SkipSpace(s)[0] != CLOSE_BRACE
    ensures ParseValue([OPEN_BRACE] + s) == Ok(Obj(ms), rest)
  {
    SkipIsIdle(s);
    assert ([OPEN_BRACE] + s)[1..] == s;
  }

  lemma {:induction false} ParseNothing(open: Unit, close: Unit, gap: Text, rest: Text)
    requires (open == OPEN_BRACKET && close == CLOSE_BRACKET) || (open == OPEN_BRACE && close == CLOSE_BRACE)
    requires Space(gap)
    ensures ParseValue([open] + (gap + ([close] + rest))) ==
            Ok(if open == OPEN_BRACKET then Arr([]) else Obj([]), rest)
  {
    SkipGap(gap, [close] + rest);
    assert ([open] + (gap + ([close] + rest)))[1..] == gap + ([close] + rest);
    assert ([close] + rest)[1..] == rest;
  }

  /** White space in front of a value, of items or of members changes nothing. */
  lemma {:induction false} SkipIsIdle(s: Text)
    ensures SkipSpace(SkipSpace(s)) == SkipSpace(s)
    ensures ParseItems(SkipSpace(s)) == ParseItems(s)
    ensures forall ms :: ParseMembers(SkipSpace(s), ms) == ParseMembers(s, ms)
  {
    var gap := SkippedGap(s);
    SkipGap(gap, SkipSpace(s));
  }

  lemma {:induction false} ParseItemLast(s: Text, v: Json, after: Text, rest: Text)
    requires ParseValue(s) == Ok(v, after + ([CLOSE_BRACKET] + rest)) && Space(after)
    ensures ParseItems(s) == Ok([v], rest)
  {
    SkipGap(after, [CLOSE_BRACKET] + rest);
    assert ([CLOSE_BRACKET] + rest)[1..] == rest;
  }

  lemma {:induction false} ParseItemMore(s: Text, v: Json, after: Text, more: Text)
    requires ParseValue(s) == Ok(v, after + ([COMMA] + more)) && Space(after)
    requires ParseItems(more).Ok?
    ensures ParseItems(s) == Ok([v] + ParseItems(more).value, ParseItems(more).rest)
  {
    SkipGap(after, [COMMA] + more);
    assert ([COMMA] + more)[1..] == more;
  }

  lemma {:induction false} ParseKey(p: Pair, s: Text, tail: Text)
    requires Space(p.before) && Space(p.mid) && CharsOk(p.key)
    requires s == p.before + ([QUOTE] + (CharsText(p.key) + ([QUOTE] + (p.mid + ([COLON] + tail)))))
    ensures SkipSpace(s) != [] && SkipSpace(s)[0] == QUOTE
    ensures var key := ParseString(SkipSpace(s)[1..]);
            key.Ok? && key.value == CharsValue(p.key) && SkipSpace(key.rest) == [COLON] + tail
  {
    var u := [QUOTE] + (CharsText(p.key) + ([QUOTE] + (p.mid + ([COLON] + tail))));
    SkipGap(p.before, u);
    assert u[1..] == CharsText(p.key) + ([QUOTE] + (p.mid + ([COLON] + tail)));
    ParseChars(p.key, p.mid + ([COLON] + tail));
    SkipGap(p.mid, [COLON] + tail);
  }

  lemma {:induction false} ParsePair(p: Pair, ms: seq<Member>, v: Json, end: Text)
    requires Space(p.before) && Space(p.mid) && Space(p.gap) && Space(p.after) && CharsOk(p.key)
    requires ParseValue(TreeText(p.value) + (p.after + end)) == Ok(v, p.after + end)
    requires end != []
    ensures var next := Put(ms, CharsValue(p.key), v);
            var s := PairText(p) + end;
            (end[0] == CLOSE_BRACE ==> ParseMembers(s, ms) == Ok(next, end[1..])) &&
            (end[0] == COMMA ==> ParseMembers(s, ms) == ParseMembers(end[1..], next))
  {
    var tail := p.gap + (TreeText(p.value) + (p.after + end));
    PairTextTail(p, end);
    ParseKey(p, PairText(p) + end, tail);
    SkipGap(p.gap, TreeText(p.value) + (p.after + end));
    SkipGap(p.after, end);
    assert ([COLON] + tail)[1..] == tail;
  }

  lemma {:induction false} ItemsTextFirst(items: seq<Item>, tail: Text)
    requires items != []
    ensures ItemsText(items) + tail ==
            ItemText(items[0]) + (if |items| == 1 then tail else [COMMA] + (ItemsText(items[1..]) + tail))
  {
  }

  lemma {:induction false} OneItem(items: seq<Item>)
    requires |items| == 1 && ItemsOk(items)
    ensures ItemsValue(items) == [TreeValue(items[0].value)]
  {
    assert ItemsValue(items[1..]) == [];
  }

  lemma {:induction false} PairsTextFirst(ps: seq<Pair>, tail: Text)
    requires ps != []
    ensures PairsText(ps) + tail ==
            PairText(ps[0]) + (if |ps| == 1 then tail else [COMMA] + (PairsText(ps[1..]) + tail))
  {
  }

  lemma {:induction false} ItemTextTail(it: Item, end: Text)
    ensures ItemText(it) + end == it.before + (TreeText(it.value) + (it.after + end))
  {
  }

  lemma {:induction false} PairTextTail(p: Pair, end: Text)
    ensures PairText(p) + end ==
            p.before + ([QUOTE] + (CharsText(p.key) + ([QUOTE] + (p.mid + ([COLON] + (p.gap + (TreeText(p.value) + (p.after + end))))))))
  {
  }

  /** The parser reads the value of a derivation off its text, whatever follows that does not continue a number. */
  lemma {:induction false} ParseTree(t: Tree, rest: Text)
    requires TreeOk(t) && !DigitFirst(rest)
    ensures ParseValue(TreeText(t) + rest) == Ok(TreeValue(t), rest)
    decreases t, 0
  {
    match t
    case Word(_) => ParseWord(t, rest);
    case Number(_, _) => ParseNumberTree(t, rest);
    case String(_) => ParseStringTree(t, rest);
    case Array(items, gap) =>
      Wrapped(OPEN_BRACKET, if items == [] then gap else ItemsText(items), CLOSE_BRACKET, rest);
      if items == [] {
        ParseNothing(OPEN_BRACKET, CLOSE_BRACKET, gap, rest);
      } else {
        ParseItemsTree(items, rest);
        ItemsBegin(items, [CLOSE_BRACKET] + rest);
        ParseArrayText(ItemsText(items) + ([CLOSE_BRACKET] + rest), ItemsValue(items), rest);
      }
    case Object(members, gap) =>
      Wrapped(OPEN_BRACE, if members == [] then gap else PairsText(members), CLOSE_BRACE, rest);
      if members == [] {
        ParseNothing(OPEN_BRACE, CLOSE_BRACE, gap, rest);
      } else {
        ParsePairsTree(members, [], rest);
        PairsBegin(members, [CLOSE_BRACE] + rest);
        ParseObjectTextOf(PairsText(members) + ([CLOSE_BRACE] + rest), PairsValue([], members), rest);
      }
  }

  lemma {:induction false} ItemsBegin(items: seq<Item>, tail: Text)
    requires items != [] && ItemsOk(items)
    ensures var s := SkipSpace(ItemsText(items) + tail); s != [] && s[0] != CLOSE_BRACKET
  {
    var it := items[0];
    FirstOfTree(it.value);
    var end := if |items| == 1 then tail else [COMMA] + (ItemsText(items[1..]) + tail);
    ItemsTextFirst(items, tail);
    ItemTextTail(it, end);
    SkipGap(it.before, TreeText(it.value) + (it.after + end));
  }

  lemma {:induction false} PairsBegin(ps: seq<Pair>, tail: Text)
    requires ps != [] && PairsOk(ps)
    ensures var s := SkipSpace(PairsText(ps) + tail); s != [] && s[0] != CLOSE_BRACE
  {
    var p := ps[0];
    var end := if |ps| == 1 then tail else [COMMA] + (PairsText(ps[1..]) + tail);
    PairsTextFirst(ps, tail);
    var more := CharsText(p.key) + ([QUOTE] + (p.mid + ([COLON] + (p.gap + (TreeText(p.value) + (p.after + end))))));
    PairTextTail(p, end);
    SkipGap(p.before, [QUOTE] + more);
  }

  lemma {:induction false} ParseItemsTree(items: seq<Item>, rest: Text)
    requires items != [] && ItemsOk(items)
    ensures ParseItems(ItemsText(items) + ([CLOSE_BRACKET] + rest)) == Ok(ItemsValue(items), rest)
    decreases items
  {
    var it := items[0];
    var more := if |items| == 1 then [] else ItemsText(items[1..]) + ([CLOSE_BRACKET] + rest);
    var end := if |items| == 1 then [CLOSE_BRACKET] + rest else [COMMA] + more;
    ItemsTextFirst(items, [CLOSE_BRACKET] + rest);
    ItemTextTail(it, end);
    SkipGap(it.before, TreeText(it.value) + (it.after + end));
    ParseTree(it.value, it.after + end);
    if |items| == 1 {
      OneItem(items);
      ParseItemLast(ItemText(it) + end, TreeValue(it.value), it.after, rest);
    } else {
      ParseItemsTree(items[1..], rest);
      ParseItemMore(ItemText(it) + end, TreeValue(it.value), it.after, more);
    }
  }

  lemma {:induction false} ParsePairsTree(ps: seq<Pair>, ms: seq<Member>, rest: Text)
    requires ps != [] && PairsOk(ps)
    ensures ParseMembers(PairsText(ps) + ([CLOSE_BRACE] + rest), ms) == Ok(PairsValue(ms, ps), rest)
    decreases ps
  {
    var p := ps[0];
    var v := TreeValue(p.value);
    var more := if |ps| == 1 then [] else PairsText(ps[1..]) + ([CLOSE_BRACE] + rest);
    var end := if |ps| == 1 then [CLOSE_BRACE] + rest else [COMMA] + more;
    ParseTree(p.value, p.after + end);
    PairsTextFirst(ps, [CLOSE_BRACE] + rest);
    ParsePair(p, ms, v, end);
    if |ps| > 1 {
      assert end[1..] == more;
      ParsePairsTree(ps[1..], Put(ms, CharsValue(p.key), v), rest);
    } else {
      assert end[1..] == rest;
    }
  }

  // ---------- Whatever is parsed has a derivation ----------

  lemma {:induction false} WordDerives(s: Text) returns (v: Json)
    requires ParseValue(s).Ok? && !IsSpace(s[0]) && s[0] != OPEN_BRACKET && s[0] != OPEN_BRACE
    requires s[0] != QUOTE && s[0] != MINUS && !IsDigit(s[0])
    ensures v == ParseValue(s).value && TreeOk(Word(v))
    ensures s == TreeText(Word(v)) + ParseValue(s).rest
  {
    v := ParseValue(s).value;
  }

  lemma {:induction false} NumberValue(s: Text) returns (negative: bool, n: nat)
    requires ParseValue(s).Ok? && !IsSpace(s[0]) && (s[0] == MINUS || IsDigit(s[0]))
    ensures negative == (s[0] == MINUS)
    ensures ParseNat(if negative then s[1..] else s) == Ok(n, ParseValue(s).rest)
    ensures ParseValue(s).value == Num(if negative then -(n as int) else n)
  {
    negative := s[0] == MINUS;
    n := ParseNat(if negative then s[1..] else s).value;
  }

  lemma {:induction false} StringValue(s: Text)
    requires ParseValue(s).Ok? && s[0] == QUOTE
    ensures ParseString(s[1..]).Ok?
    ensures ParseValue(s) == Ok(Str(ParseString(s[1..]).value), ParseString(s[1..]).rest)
  {
  }

  lemma {:induction false} TokenDerives(s: Text) returns (t: Tree)
    requires ParseValue(s).Ok? && !IsSpace(s[0]) && s[0] != OPEN_BRACKET && s[0] != OPEN_BRACE
    ensures TreeOk(t) && TreeValue(t) == ParseValue(s).value
    ensures s == TreeText(t) + ParseValue(s).rest
  {
    FrontOf(s);
    if s[0] == QUOTE {
      StringValue(s);
      var chars := StringDerives(s[1..]);
      t := String(chars);
      Wrapped(QUOTE, CharsText(chars), QUOTE, ParseValue(s).rest);
    } else if s[0] == MINUS || IsDigit(s[0]) {
      var negative, n := NumberValue(s);
      var digits := NumberDerives(if negative then s[1..] else s);
      t := Number(negative, digits);
      Assoc([MINUS], digits, ParseValue(s).rest);
    } else {
      var v := WordDerives(s);
      t := Word(v);
    }
  }

  lemma {:induction false} FrontOf(s: Text)
    requires s != []
    ensures s == [s[0]] + s[1..]
  {
  }

  lemma {:induction false} EmptyDerives(s: Text, close: Unit) returns (gap: Text)
    requires SkipSpace(s) != [] && SkipSpace(s)[0] == close
    ensures Space(gap) && s == gap + ([close] + SkipSpace(s)[1..])
  {
    gap := SkippedGap(s);
    assert SkipSpace(s) == [close] + SkipSpace(s)[1..];
  }

  lemma {:induction false} ArrayParts(s: Text)
    requires ParseValue(s).Ok? && s[0] == OPEN_BRACKET
    ensures var u := SkipSpace(s[1..]);
            if u != [] && u[0] == CLOSE_BRACKET then ParseValue(s) == Ok(Arr([]), u[1..])
            else
              && ParseItems(s[1..]).Ok?
              && ParseValue(s) == Ok(Arr(ParseItems(s[1..]).value), ParseItems(s[1..]).rest)
  {
    SkipIsIdle(s[1..]);
  }

  lemma {:induction false} ObjectParts(s: Text)
    requires ParseValue(s).Ok? && s[0] == OPEN_BRACE
    ensures var u := SkipSpace(s[1..]);
            if u != [] && u[0] == CLOSE_BRACE then ParseValue(s) == Ok(Obj([]), u[1..])
            else
              && ParseMembers(s[1..], []).Ok?
              && ParseValue(s) == Ok(Obj(ParseMembers(s[1..], []).value), ParseMembers(s[1..], []).rest)
  {
    SkipIsIdle(s[1..]);
  }

  lemma {:induction false} ArrayDerives(s: Text) returns (t: Tree)
    requires ParseValue(s).Ok? && s[0] == OPEN_BRACKET
    ensures TreeOk(t) && TreeValue(t) == ParseValue(s).value
    ensures s == TreeText(t) + ParseValue(s).rest
    decreases |s|, 1
  {
    var u := SkipSpace(s[1..]);
    FrontOf(s);
    ArrayParts(s);
    if u != [] && u[0] == CLOSE_BRACKET {
      var gap := EmptyDerives(s[1..], CLOSE_BRACKET);
      t := Array([], gap);
      Wrapped(OPEN_BRACKET, gap, CLOSE_BRACKET, ParseValue(s).rest);
    } else {
      var items := ItemsDerive(s[1..]);
      t := Array(items, []);
      Wrapped(OPEN_BRACKET, ItemsText(items), CLOSE_BRACKET, ParseValue(s).rest);
    }
  }

  lemma {:induction false} ObjectDerives(s: Text) returns (t: Tree)
    requires ParseValue(s).Ok? && s[0] == OPEN_BRACE
    ensures TreeOk(t) && TreeValue(t) == ParseValue(s).value
    ensures s == TreeText(t) + ParseValue(s).rest
    decreases |s|, 1
  {
    var u := SkipSpace(s[1..]);
    FrontOf(s);
    ObjectParts(s);
    if u != [] && u[0] == CLOSE_BRACE {
      var gap := EmptyDerives(s[1..], CLOSE_BRACE);
      t := Object([], gap);
      Wrapped(OPEN_BRACE, gap, CLOSE_BRACE, ParseValue(s).rest);
    } else {
      var ps := PairsDerive(s[1..], []);
      t := Object(ps, []);
      Wrapped(OPEN_BRACE, PairsText(ps), CLOSE_BRACE, ParseValue(s).rest);
    }
  }

  lemma {:induction false} ValueDerives(s: Text) returns (gap: Text, t: Tree)
    requires ParseValue(s).Ok?
    ensures Space(gap) && TreeOk(t) && TreeValue(t) == ParseValue(s).value
    ensures s == gap + (TreeText(t) + ParseValue(s).rest)
    decreases |s|, 2
  {
    gap := SkippedGap(s);
    var u := SkipSpace(s);
    SkipGap(gap, u);
    if u[0] == OPEN_BRACKET {
      t := ArrayDerives(u);
    } else if u[0] == OPEN_BRACE {
      t := ObjectDerives(u);
    } else {
      t := TokenDerives(u);
    }
  }

  lemma {:induction false} ItemsValueCons(first: Item, more: seq<Item>)
    requires Space(first.before) && Space(first.after) && TreeOk(first.value) && ItemsOk(more)
    ensures ItemsOk([first] + more) && ItemsValue([first] + more) == [TreeValue(first.value)] + ItemsValue(more)
  {
    assert ([first] + more)[1..] == more;
  }

  lemma {:induction false} ItemsTextCons(first: Item, more: seq<Item>, tail: Text)
    requires more != []
    ensures ItemsText([first] + more) + tail == ItemText(first) + ([COMMA] + (ItemsText(more) + tail))
  {
    ItemsTextFirst([first] + more, tail);
    assert ([first] + more)[1..] == more;
  }

  lemma {:induction false} PairsValueCons(first: Pair, more: seq<Pair>, ms: seq<Member>)
    requires PairsOk([first]) && CharsOk(first.key) && TreeOk(first.value) && PairsOk(more)
    ensures PairsOk([first] + more)
    ensures PairsValue(ms, [first] + more) == PairsValue(Put(ms, CharsValue(first.key), TreeValue(first.value)), more)
  {
    assert ([first] + more)[1..] == more;
    assert [first][0] == first;
  }

  lemma {:induction false} PairsTextCons(first: Pair, more: seq<Pair>, tail: Text)
    requires more != []
    ensures PairsText([first] + more) + tail == PairText(first) + ([COMMA] + (PairsText(more) + tail))
  {
    PairsTextFirst([first] + more, tail);
    assert ([first] + more)[1..] == more;
  }

  lemma {:induction false} ItemsDerive(s: Text) returns (items: seq<Item>)
    requires ParseItems(s).Ok?
    ensures items != [] && ItemsOk(items) && ItemsValue(items) == ParseItems(s).value
    ensures s == ItemsText(items) + ([CLOSE_BRACKET] + ParseItems(s).rest)
    decreases |s|, 3
  {
    var before, t := ValueDerives(s);
    var rest := ParseValue(s).rest;
    var after := SkippedGap(rest);
    var end := SkipSpace(rest);
    FrontOf(end);
    var first := Item(before, t, after);
    ItemTextTail(first, end);
    if end[0] == CLOSE_BRACKET {
      items := [first];
      OneItem(items);
    } else {
      var more := ItemsDerive(end[1..]);
      items := [first] + more;
      ItemsValueCons(first, more);
      ItemsTextCons(first, more, [CLOSE_BRACKET] + ParseItems(s).rest);
    }
  }

  /** The first member of a text that parses, and what follows it. */
  lemma {:induction false} PairDerives(s: Text, ms: seq<Member>) returns (p: Pair, end: Text)
    requires ParseMembers(s, ms).Ok?
    ensures PairsOk([p]) && CharsOk(p.key) && TreeOk(p.value) && s == PairText(p) + end
    ensures end != [] && end == [end[0]] + end[1..]
    ensures var next := Put(ms, CharsValue(p.key), TreeValue(p.value));
            if end[0] == CLOSE_BRACE then ParseMembers(s, ms) == Ok(next, end[1..])
            else end[0] == COMMA && ParseMembers(s, ms) == ParseMembers(end[1..], next)
    decreases |s|, 3
  {
    MemberParts(s, ms);
    var before := SkippedGap(s);
    var q := SkipSpace(s);
    var key := ParseString(q[1..]);
    var chars := StringDerives(q[1..]);
    var mid := SkippedGap(key.rest);
    var c := SkipSpace(key.rest);
    var value := ParseValue(c[1..]);
    var gap, t := ValueDerives(c[1..]);
    var after := SkippedGap(value.rest);
    end := SkipSpace(value.rest);
    p := Pair(before, chars, mid, gap, t, after);
    FrontOf(end);
    Glue(p, s, q, key.rest, c, value.rest, end);
  }

  lemma {:induction false} MemberParts(s: Text, ms: seq<Member>)
    requires ParseMembers(s, ms).Ok?
    ensures var q := SkipSpace(s);
            q != [] && |q| <= |s| && q[0] == QUOTE &&
            var key := ParseString(q[1..]);
            key.Ok? && |key.rest| < |s| &&
            var c := SkipSpace(key.rest);
            c != [] && |c| < |s| && c[0] == COLON &&
            var value := ParseValue(c[1..]);
            value.Ok? &&
            var end := SkipSpace(value.rest);
            end != [] && |end| < |s| &&
            var next := Put(ms, key.value, value.value);
            if end[0] == CLOSE_BRACE then ParseMembers(s, ms) == Ok(next, end[1..])
            else end[0] == COMMA && ParseMembers(s, ms) == ParseMembers(end[1..], next)
  {
  }

  lemma {:induction false} Glue(p: Pair, s: Text, q: Text, r: Text, c: Text, w: Text, end: Text)
    requires s == p.before + q && q != [] && q[0] == QUOTE
    requires q[1..] == CharsText(p.key) + ([QUOTE] + r) && r == p.mid + c && c != [] && c[0] == COLON
    requires c[1..] == p.gap + (TreeText(p.value) + w) && w == p.after + end
    ensures s == PairText(p) + end
  {
    PairTextTail(p, end);
    FrontOf(q);
    FrontOf(c);
  }

  lemma {:induction false} PairsDerive(s: Text, ms: seq<Member>) returns (ps: seq<Pair>)
    requires ParseMembers(s, ms).Ok?
    ensures ps != [] && PairsOk(ps) && PairsValue(ms, ps) == ParseMembers(s, ms).value
    ensures s == PairsText(ps) + ([CLOSE_BRACE] + ParseMembers(s, ms).rest)
    decreases |s|, 4
  {
    var p, end := PairDerives(s, ms);
    var next := Put(ms, CharsValue(p.key), TreeValue(p.value));
    if end[0] == CLOSE_BRACE {
      ps := [p];
      assert PairsValue(next, []) == next;
    } else {
      var more := PairsDerive(end[1..], next);
      ps := [p] + more;
      PairsValueCons(p, more, ms);
      PairsTextCons(p, more, [CLOSE_BRACE] + ParseMembers(s, ms).rest);
    }
  }

  // ---------- The language of the parser ----------

  /** `s` is the text of the derivation `t` between white space. */
  ghost predicate Derives(s: Text, before: Text, t: Tree, after: Text) {
    Space(before) && Space(after) && TreeOk(t) && s == before + TreeText(t) + after
  }

  /** The parser accepts exactly the texts with a derivation, and gives them the value of the derivation. */
  lemma {:induction false} ParseIff(s: Text, v: Json)
    ensures Parse(s) == Some(v) <==> exists before, t, after :: Derives(s, before, t, after) && TreeValue(t) == v
  {
    if Parse(s) == Some(v) {
      var before, t := ValueDerives(s);
      var after := SkippedGap(ParseValue(s).rest);
      assert Derives(s, before, t, after);
    }
    forall before, t, after | Derives(s, before, t, after)
      ensures Parse(s) == Some(TreeValue(t))
    {
      assert s == before + (TreeText(t) + after);
      SkipGap(before, TreeText(t) + after);
      ParseTree(t, after);
      SkipGap(after, []);
      assert after + [] == after;
    }
  }

  /** All derivations of one text have one value. */
  lemma {:induction false} Unambiguous(s: Text, a: Text, t: Tree, b: Text, c: Text, u: Tree, d: Text)
    requires Derives(s, a, t, b) && Derives(s, c, u, d)
    ensures TreeValue(t) == TreeValue(u)
  {
    ParseIff(s, TreeValue(t));
    ParseIff(s, TreeValue(u));
  }
}
