/** The 32-bit rolling hash that names evidence artifacts, and its eight-digit text. */
module RollingHash {
  import opened JsText

  const TWO_TO_31 := 0x8000_0000
  const TWO_TO_32 := 0x1_0000_0000

  predicate IsInt32(x: int) {
    -TWO_TO_31 <= x < TWO_TO_31
  }

  ghost predicate Congruent(x: int, y: int) {
    (x - y) % TWO_TO_32 == 0
  }

  /** ToInt32 of ECMA-262, section 7.1.6: what `x | 0` computes for an integer. */
  function ToInt32(x: int): (r: int)
    ensures -TWO_TO_31 <= r < TWO_TO_31 && Congruent(r, x)
  {
    var low := x % TWO_TO_32;
    assert x - low == x / TWO_TO_32 * TWO_TO_32;
    Multiple(low - x, -(x / TWO_TO_32));
    Multiple(low - TWO_TO_32 - x, -(x / TWO_TO_32) - 1);
    if low < TWO_TO_31 then low else low - TWO_TO_32
  }

  lemma {:induction false} Multiple(x: int, q: int)
    ensures x == q * TWO_TO_32 ==> x % TWO_TO_32 == 0
  {
  }

  /** ToInt32 picks the one 32-bit integer of each residue class. */
  lemma {:induction false} ToInt32Iff(x: int, y: int)
    ensures ToInt32(x) == ToInt32(y) <==> Congruent(x, y)
  {
  }

  // ---------- The polynomial ----------

  function Power(b: nat, n: nat): nat {
    if n == 0 then 1 else b * Power(b, n - 1)
  }

  /** The terms s[i] * 31^(n-1-i) from position i on, added up. */
  function TermsFrom(s: Text, i: nat): int
    requires i <= |s|
    decreases |s| - i
  {
    if i == |s| then 0 else s[i] * Power(31, |s| - 1 - i) + TermsFrom(s, i + 1)
  }

  function Polynomial(s: Text): int {
    TermsFrom(s, 0)
  }

  /** One more character multiplies every earlier term by 31. */
  lemma {:induction false} TermsScale(s: Text, c: Unit, i: nat)
    requires i <= |s|
    ensures TermsFrom(s + [c], i) == 31 * TermsFrom(s, i) + c
    decreases |s| - i
  {
    var more := s + [c];
    if i == |s| {
      assert TermsFrom(more, i + 1) == 0;
      assert Power(31, 0) == 1;
    } else {
      TermsScale(s, c, i + 1);
      var p := Power(31, |s| - 1 - i);
      assert Power(31, |more| - 1 - i) == 31 * p;
      assert more[i] * (31 * p) == 31 * (s[i] * p);
    }
  }

  // ---------- The loop ----------

  /** `hash = (hash << 5) - hash + char; hash |= 0` keeps the hash congruent to the polynomial. */
  lemma {:induction false} StepIsHorner(h: int, p: int, c: Unit)
    requires h == ToInt32(p)
    ensures ToInt32(ToInt32(h * 32) - h + c) == ToInt32(31 * p + c)
  {
    var shifted := ToInt32(h * 32);
    var q, k := (shifted - h * 32) / TWO_TO_32, (h - p) / TWO_TO_32;
    assert shifted == h * 32 + q * TWO_TO_32 && h == p + k * TWO_TO_32;
    Multiple((shifted - h + c) - (31 * p + c), q + 31 * k);
    ToInt32Iff(shifted - h + c, 31 * p + c);
  }

  method HashValue(input: Text) returns (hash: int)
    ensures hash == ToInt32(Polynomial(input))
  {
    hash := 0;
    var i := 0;
    while i < |input|
      invariant 0 <= i <= |input|
      invariant hash == ToInt32(Polynomial(input[..i]))
    {
      var unit := input[i];
      ghost var before := hash;
      TakeMore(input, i);
      TermsScale(input[..i], unit, 0);
      StepIsHorner(hash, Polynomial(input[..i]), unit);
      hash := ToInt32(hash * 32) - hash + unit;
      hash := ToInt32(hash);
      i := i + 1;
    }
    assert input[..i] == input;
  }

  // ---------- The text ----------

  predicate IsHexDigit(u: Unit) {
    48 <= u < 58 || 97 <= u < 103
  }

  /** `n.toString(16)` */
  function Hex(n: nat): Text {
    if n < 16 then [HexDigit(n)] else Hex(n / 16) + [HexDigit(n % 16)]
  }

  /** `t.padStart(width, "0")` */
  function PadStart(t: Text, width: nat): Text
    decreases width - |t|
  {
    if |t| >= width then t else PadStart([48] + t, width)
  }

  function DigitValue(u: Unit): nat
    requires IsHexDigit(u)
  {
    if u < 58 then u - 48 else u - 87
  }

  /** The number that a text of hexadecimal digits denotes. */
  function HexValue(t: Text): nat
    requires forall u :: u in t ==> IsHexDigit(u)
  {
    if t == [] then 0 else HexValue(t[..|t| - 1]) * 16 + DigitValue(t[|t| - 1])
  }

  lemma {:induction false} HexReadsBack(n: nat, width: nat)
    requires width > 0 && n < Power(16, width)
    ensures 0 < |Hex(n)| <= width
    ensures forall u :: u in Hex(n) ==> IsHexDigit(u)
    ensures HexValue(Hex(n)) == n
  {
    assert Power(16, width) == 16 * Power(16, width - 1);
    assert HexValue([]) == 0;
    if n < 16 {
      assert Hex(n) == [HexDigit(n)];
      assert Hex(n)[..0] == [];
    } else {
      assert Power(16, 0) == 1;
      HexReadsBack(n / 16, width - 1);
      var t := Hex(n);
      assert t[..|t| - 1] == Hex(n / 16);
    }
  }

  lemma {:induction false} LeadingZero(t: Text)
    requires forall u :: u in t ==> IsHexDigit(u)
    ensures forall u :: u in [48] + t ==> IsHexDigit(u)
    ensures HexValue([48] + t) == HexValue(t)
  {
    var z := [48] + t;
    assert HexValue([]) == 0;
    if t == [] {
      assert z[..0] == [];
    } else {
      var init := t[..|t| - 1];
      LeadingZero(init);
      assert z[..|z| - 1] == [48] + init;
    }
  }

  lemma {:induction false} PadStartKeepsValue(t: Text, width: nat)
    requires |t| <= width && forall u :: u in t ==> IsHexDigit(u)
    ensures |PadStart(t, width)| == width
    ensures forall u :: u in PadStart(t, width) ==> IsHexDigit(u)
    ensures HexValue(PadStart(t, width)) == HexValue(t)
    decreases width - |t|
  {
    if |t| < width {
      LeadingZero(t);
      PadStartKeepsValue([48] + t, width);
    }
  }

  lemma {:induction false} LastDigit(x: nat, c: nat, y: nat, d: nat)
    requires c < 16 && d < 16 && x * 16 + c == y * 16 + d
    ensures x == y && c == d
  {
  }

  /** Digits of equal number and value are the same digits. */
  lemma {:induction false} HexValueInjective(a: Text, b: Text)
    requires |a| == |b|
    requires forall u :: u in a ==> IsHexDigit(u)
    requires forall u :: u in b ==> IsHexDigit(u)
    requires HexValue(a) == HexValue(b)
    ensures a == b
  {
    if a != [] {
      var n := |a| - 1;
      assert a[n] in a && b[n] in b;
      LastDigit(HexValue(a[..n]), DigitValue(a[n]), HexValue(b[..n]), DigitValue(b[n]));
      HexValueInjective(a[..n], b[..n]);
      assert a == a[..n] + [a[n]] && b == b[..n] + [b[n]];
    }
  }

  function Abs(x: int): nat {
    if x < 0 then -x else x
  }

  /** The hash of a text as a value, and as the text the source returns. */
  function Hash(s: Text): int {
    ToInt32(Polynomial(s))
  }

  function HashText(s: Text): Text {
    PadStart(Hex(Abs(Hash(s))), 8)
  }

  /** What a hash can look like: eight digits denoting at most 2^31. */
  predicate HashShaped(t: Text) {
    && |t| == 8
    && (forall u :: u in t ==> IsHexDigit(u))
    && HexValue(t) <= TWO_TO_31
  }

  lemma {:induction false} SixteenToThe8()
    ensures Power(16, 8) == TWO_TO_32
  {
  }

  /** Exactly eight digits, -2^31 included, and they denote the absolute value of the hash. */
  lemma {:induction false} HashTextIsEightDigits(s: Text)
    ensures HashShaped(HashText(s)) && HexValue(HashText(s)) == Abs(Hash(s))
  {
    SixteenToThe8();
    HexReadsBack(Abs(Hash(s)), 8);
    PadStartKeepsValue(Hex(Abs(Hash(s))), 8);
  }

  /** `simpleHash` */
  method SimpleHash(input: Text) returns (text: Text)
    ensures HashShaped(text) && HexValue(text) == Abs(ToInt32(Polynomial(input)))
    ensures text == HashText(input)
  {
    var hash := HashValue(input);
    HashTextIsEightDigits(input);
    text := PadStart(Hex(Abs(hash)), 8);
  }

  /** Two texts get one hash exactly when their polynomials agree modulo 2^32 up to sign. */
  lemma {:induction false} SameHashTextIff(s: Text, t: Text)
    ensures HashText(s) == HashText(t) <==>
              Congruent(Polynomial(s), Polynomial(t)) || Congruent(Polynomial(s), -Polynomial(t))
  {
    var p, q := Polynomial(s), Polynomial(t);
    HashTextIsEightDigits(s);
    HashTextIsEightDigits(t);
    ToInt32Iff(p, q);
    var a, b := ToInt32(p), ToInt32(q);
    var i, j := (a - p) / TWO_TO_32, (b - q) / TWO_TO_32;
    assert a - p == i * TWO_TO_32 && b - q == j * TWO_TO_32;
    if HashText(s) == HashText(t) && a != b {
      assert a == -b;
      Multiple(p - -q, -i - j);
    }
    if Congruent(p, -q) {
      var k := (p + q) / TWO_TO_32;
      assert a + b == (i + j + k) * TWO_TO_32;
      OppositeUpToWrap(a, b, i + j + k);
    }
  }

  lemma {:induction false} OppositeUpToWrap(a: int, b: int, k: int)
    requires IsInt32(a) && IsInt32(b) && a + b == k * TWO_TO_32
    ensures Abs(a) == Abs(b)
  {
  }

  // ---------- Every such text is some hash ----------

  /** A text whose polynomial is n: its digits in base 31. */
  function Preimage(n: nat): (s: Text)
    ensures Polynomial(s) == n
  {
    if n == 0 then []
    else
      TermsScale(Preimage(n / 31), n % 31, 0);
      Preimage(n / 31) + [n % 31]
  }

  lemma {:induction false} SmallIsKept(n: nat)
    requires n <= TWO_TO_31
    ensures Abs(ToInt32(n)) == n
  {
  }

  lemma {:induction false} PreimageHash(t: Text)
    requires HashShaped(t)
    ensures HashText(Preimage(HexValue(t))) == t
  {
    var n := HexValue(t);
    SmallIsKept(n);
    HashTextIsEightDigits(Preimage(n));
    HexValueInjective(HashText(Preimage(n)), t);
  }

  /** The hashes are exactly the eight-digit texts up to "80000000". */
  lemma {:induction false} HashTextsAreExactly(t: Text)
    ensures HashShaped(t) <==> exists s :: HashText(s) == t
  {
    if s :| HashText(s) == t {
      HashTextIsEightDigits(s);
    }
    if HashShaped(t) {
      PreimageHash(t);
    }
  }
}
