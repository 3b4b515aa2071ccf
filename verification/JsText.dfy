/**
 * JavaScript strings: sequences of UTF-16 code units, lone surrogates included,
 * with the order that `Array.prototype.sort` uses when it is given no comparator.
 */
module JsText {

  type Unit = u: int | 0 <= u < 0x1_0000

  type Text = seq<Unit>

  /** The text of a source literal. Every literal used here is ASCII. */
  function Lit(s: string): Text {
    seq(|s|, i requires 0 <= i < |s| => s[i] as int % 0x1_0000)
  }

  /** A lower-case hexadecimal digit. */
  function HexDigit(d: nat): Unit
    requires d < 16
  {
    if d < 10 then '0' as int + d else 'a' as int + (d - 10)
  }

  lemma {:induction false} Assoc<T>(a: seq<T>, b: seq<T>, c: seq<T>)
    ensures (a + b) + c == a + (b + c)
  {
  }

  lemma {:induction false} TakeMore<T>(s: seq<T>, i: nat)
    requires i < |s|
    ensures s[..i + 1] == s[..i] + [s[i]]
  {
  }

  /** Lexicographic order on code units. */
  predicate Less(a: Text, b: Text) {
    if b == [] then false
    else if a == [] then true
    else if a[0] != b[0] then a[0] < b[0]
    else Less(a[1..], b[1..])
  }

  /** The two agree on their first `i` units, where the one ends, or has the smaller number. */
  ghost predicate DiffersAt(a: Text, b: Text, i: nat) {
    && i <= |a| && i < |b| && a[..i] == b[..i]
    && (i == |a| || a[i] < b[i])
  }

  /** The order of two texts as numbers decide it, at the first place where they differ. */
  ghost predicate Precedes(a: Text, b: Text) {
    exists i: nat :: DiffersAt(a, b, i)
  }

  lemma {:induction false} LessIff(a: Text, b: Text)
    ensures Less(a, b) <==> Precedes(a, b)
  {
    forall i: nat | DiffersAt(a, b, i) ensures i > 0 ==> a != [] && b != [] && a[0] == b[0] {
      assert i > 0 ==> a[..i][0] == b[..i][0];
    }
    if a == [] || b == [] || a[0] != b[0] {
      assert b != [] && (a == [] || a[0] < b[0]) ==> DiffersAt(a, b, 0);
    } else {
      LessIff(a[1..], b[1..]);
      if i: nat :| DiffersAt(a[1..], b[1..], i) {
        assert a[..i + 1] == [a[0]] + a[1..][..i] && b[..i + 1] == [b[0]] + b[1..][..i];
        assert DiffersAt(a, b, i + 1);
      }
      if i: nat :| DiffersAt(a, b, i) {
        assert i > 0;
        assert a[1..][..i - 1] == a[..i][1..] && b[1..][..i - 1] == b[..i][1..];
        assert DiffersAt(a[1..], b[1..], i - 1);
      }
    }
  }

  lemma {:induction false} LessIrreflexive(a: Text)
    ensures !Less(a, a)
  {
    if a != [] {
      LessIrreflexive(a[1..]);
    }
  }

  lemma {:induction false} LessTotal(a: Text, b: Text)
    ensures Less(a, b) || a == b || Less(b, a)
  {
    if a != [] && b != [] && a[0] == b[0] {
      LessTotal(a[1..], b[1..]);
      assert a == [a[0]] + a[1..] && b == [b[0]] + b[1..];
    }
  }

  lemma {:induction false} LessTransitive(a: Text, b: Text, c: Text)
    requires Less(a, b) && Less(b, c)
    ensures Less(a, c)
  {
    if a != [] && a[0] == b[0] && b[0] == c[0] {
      LessTransitive(a[1..], b[1..], c[1..]);
    }
  }

  predicate Distinct<T(==)>(s: seq<T>) {
    forall i, j :: 0 <= i < j < |s| ==> s[i] != s[j]
  }

  predicate Increasing(s: seq<Text>) {
    forall i, j :: 0 <= i < j < |s| ==> Less(s[i], s[j])
  }

  function Insert(k: Text, s: seq<Text>): seq<Text> {
    if s == [] then [k]
    else if Less(k, s[0]) then [k] + s
    else [s[0]] + Insert(k, s[1..])
  }

  /** `keys.sort()` */
  function Sort(s: seq<Text>): seq<Text> {
    if s == [] then [] else Insert(s[0], Sort(s[1..]))
  }

  ghost function ToSet<T>(s: seq<T>): set<T> {
    set x | x in s
  }

  lemma {:induction false} InsertMembers(k: Text, s: seq<Text>)
    ensures forall x :: x in Insert(k, s) <==> x == k || x in s
  {
    if s != [] && !Less(k, s[0]) {
      InsertMembers(k, s[1..]);
      assert s == [s[0]] + s[1..];
    }
  }

  lemma {:induction false} InsertIncreasing(k: Text, s: seq<Text>)
    requires Increasing(s) && k !in s
    ensures Increasing(Insert(k, s))
  {
    if s != [] {
      if Less(k, s[0]) {
        forall j | 0 <= j < |s| ensures Less(k, s[j]) {
          if j > 0 { LessTransitive(k, s[0], s[j]); }
        }
      } else {
        LessTotal(k, s[0]);
        assert s[0] in s;
        InsertIncreasing(k, s[1..]);
        InsertMembers(k, s[1..]);
        var t := Insert(k, s[1..]);
        forall j | 0 <= j < |t| ensures Less(s[0], t[j]) {
          assert t[j] in t;
          if t[j] != k {
            var i :| 0 <= i < |s[1..]| && s[1..][i] == t[j];
            assert s[i + 1] == t[j];
          }
        }
      }
    }
  }

  lemma {:induction false} SortMembers(s: seq<Text>)
    ensures forall x :: x in Sort(s) <==> x in s
  {
    if s != [] {
      SortMembers(s[1..]);
      InsertMembers(s[0], Sort(s[1..]));
      assert s == [s[0]] + s[1..];
    }
  }

  lemma {:induction false} SortIncreasing(s: seq<Text>)
    requires Distinct(s)
    ensures Increasing(Sort(s)) && Distinct(Sort(s))
  {
    if s != [] {
      SortIncreasing(s[1..]);
      SortMembers(s[1..]);
      InsertIncreasing(s[0], Sort(s[1..]));
    }
    IncreasingIsDistinct(Sort(s));
  }

  lemma {:induction false} IncreasingIsDistinct(s: seq<Text>)
    requires Increasing(s)
    ensures Distinct(s)
  {
    forall i, j | 0 <= i < j < |s| ensures s[i] != s[j] {
      LessIrreflexive(s[i]);
    }
  }

  /** An increasing sequence is determined by its set of elements. */
  lemma {:induction false} IncreasingUnique(s: seq<Text>, t: seq<Text>)
    requires Increasing(s) && Increasing(t)
    requires ToSet(s) == ToSet(t)
    ensures s == t
  {
    assert s != [] ==> s[0] in ToSet(s);
    assert t != [] ==> t[0] in ToSet(t);
    if s != [] && t != [] {
      if s[0] != t[0] {
        var i :| 0 <= i < |t| && t[i] == s[0];
        var j :| 0 <= j < |s| && s[j] == t[0];
        LessTransitive(s[0], t[0], s[0]);
        LessIrreflexive(s[0]);
        assert false;
      }
      IncreasingIsDistinct(s);
      IncreasingIsDistinct(t);
      forall x ensures x in ToSet(s[1..]) <==> x in ToSet(t[1..]) {
        assert x in ToSet(s[1..]) <==> x in ToSet(s) && x != s[0] by { TailMembers(s, x); }
        assert x in ToSet(t[1..]) <==> x in ToSet(t) && x != t[0] by { TailMembers(t, x); }
      }
      IncreasingUnique(s[1..], t[1..]);
      assert s == [s[0]] + s[1..] && t == [t[0]] + t[1..];
    }
  }

  lemma {:induction false} TailMembers<T>(s: seq<T>, x: T)
    requires s != [] && forall i, j :: 0 <= i < j < |s| ==> s[i] != s[j]
    ensures x in s[1..] <==> x in s && x != s[0]
  {
  }

  /** Sorting distinct texts gives the same sequence whatever order they come in. */
  lemma {:induction false} SortDependsOnSetOnly(s: seq<Text>, t: seq<Text>)
    requires Distinct(s) && Distinct(t)
    requires ToSet(s) == ToSet(t)
    ensures Sort(s) == Sort(t)
  {
    SortIncreasing(s);
    SortIncreasing(t);
    SortMembers(s);
    SortMembers(t);
    assert forall x :: x in s <==> x in ToSet(s);
    assert forall x :: x in t <==> x in ToSet(t);
    assert ToSet(Sort(s)) == ToSet(Sort(t));
    IncreasingUnique(Sort(s), Sort(t));
  }

  /** What a text starts with, if anything. */
  predicate StartsWith(s: Text, p: Text) {
    |p| <= |s| && s[..|p|] == p
  }
}
