/** Texts cut at newlines. */
module Lines {
  import opened JsText
  import opened Json

  /** `content.split("\n")` */
  function Split(content: Text): (pieces: seq<Text>)
    ensures pieces != []
  {
    if content == [] then [[]]
    else
      var rest := Split(content[1..]);
      if content[0] == NEWLINE then [[]] + rest else [[content[0]] + rest[0]] + rest[1..]
  }

  predicate OneLine(s: Text) {
    NEWLINE !in s
  }

  /** Two lists of pieces, the last of one joined to the first of the other. */
  function Glue(x: seq<Text>, y: seq<Text>): seq<Text>
    requires x != [] && y != []
  {
    x[..|x| - 1] + [x[|x| - 1] + y[0]] + y[1..]
  }

  lemma {:induction false} GlueCons(p: Text, x: seq<Text>, y: seq<Text>)
    requires x != [] && y != []
    ensures Glue([p] + x, y) == [p] + Glue(x, y)
  {
  }

  lemma {:induction false} GlueFirst(u: Text, x: seq<Text>, y: seq<Text>)
    requires x != [] && y != []
    ensures Glue([u + x[0]] + x[1..], y) == [u + Glue(x, y)[0]] + Glue(x, y)[1..]
  {
    if |x| == 1 {
      Assoc(u, x[0], y[0]);
      assert [u + x[0]] + x[1..] == [u + x[0]];
      assert Glue(x, y) == [x[0] + y[0]] + y[1..];
    } else {
      var z := [u + x[0]] + x[1..];
      assert z[..|z| - 1] == [u + x[0]] + x[1..|x| - 1];
      assert x[..|x| - 1] == [x[0]] + x[1..|x| - 1];
    }
  }

  /** The pieces of a text followed by another meet in the middle. */
  lemma {:induction false} SplitConcat(a: Text, b: Text)
    ensures Split(a + b) == Glue(Split(a), Split(b))
  {
    if a == [] {
      var y := Split(b);
      assert a + b == b && [] + y[0] == y[0] && y == [y[0]] + y[1..];
    } else {
      SplitConcat(a[1..], b);
      assert (a + b)[1..] == a[1..] + b && (a + b)[0] == a[0];
      var x, y := Split(a[1..]), Split(b);
      if a[0] == NEWLINE {
        GlueCons([], x, y);
      } else {
        GlueFirst([a[0]], x, y);
      }
    }
  }

  lemma {:induction false} SplitOneLine(s: Text)
    ensures Split(s) == [s] <==> OneLine(s)
  {
    if s != [] {
      SplitOneLine(s[1..]);
      assert s == [s[0]] + s[1..];
      var z := Split(s[1..]);
      if s[0] != NEWLINE && |z| == 1 {
        SinglePiece(s[1..]);
      }
    }
  }

  lemma {:induction false} SinglePiece(s: Text)
    ensures |Split(s)| == 1 ==> Split(s) == [s]
  {
    if s != [] {
      SinglePiece(s[1..]);
      assert s == [s[0]] + s[1..];
    }
  }

  // ---------- What the pieces are ----------

  /** Every line with a newline after it. */
  function Terminate(lines: seq<Text>): Text {
    if lines == [] then [] else lines[0] + [NEWLINE] + Terminate(lines[1..])
  }

  /** Cutting is the inverse of joining: complete lines and an unfinished one come back as they were. */
  lemma {:induction false} SplitJoined(lines: seq<Text>, rest: Text)
    requires OneLine(rest) && forall i :: 0 <= i < |lines| ==> OneLine(lines[i])
    ensures Split(Terminate(lines) + rest) == lines + [rest]
  {
    if lines == [] {
      SplitOneLine(rest);
      assert Terminate(lines) + rest == rest;
    } else {
      var more := Terminate(lines[1..]) + rest;
      SplitJoined(lines[1..], rest);
      SplitOneLine(lines[0]);
      SplitConcat(lines[0], [NEWLINE] + more);
      assert ([NEWLINE] + more)[1..] == more;
      Assoc(lines[0] + [NEWLINE], Terminate(lines[1..]), rest);
      Assoc(lines[0], [NEWLINE], more);
      assert lines[0] + [] == lines[0];
      assert Split(Terminate(lines) + rest) == [lines[0]] + (lines[1..] + [rest]);
    }
  }

  /** And every text is joined from its pieces, none of which holds a newline. */
  lemma {:induction false} SplitIsJoined(text: Text)
    ensures var x := Split(text);
            && text == Terminate(x[..|x| - 1]) + x[|x| - 1]
            && forall i :: 0 <= i < |x| ==> OneLine(x[i])
  {
    if text != [] {
      SplitIsJoined(text[1..]);
      var x, z := Split(text), Split(text[1..]);
      assert text == [text[0]] + text[1..];
      if text[0] == NEWLINE {
        FirstPieceEmpty(z);
      } else if |z| > 1 {
        FirstPieceLonger(text[0], z);
      }
    }
  }

  lemma {:induction false} FirstPieceEmpty(z: seq<Text>)
    requires z != []
    ensures var x := [[]] + z;
            Terminate(x[..|x| - 1]) + x[|x| - 1] == [NEWLINE] + (Terminate(z[..|z| - 1]) + z[|z| - 1])
  {
    var x := [[]] + z;
    var b := z[..|z| - 1];
    assert x[..|x| - 1] == [[]] + b && ([[]] + b)[1..] == b;
    assert Terminate([[]] + b) == [NEWLINE] + Terminate(b);
  }

  lemma {:induction false} FirstPieceLonger(u: Unit, z: seq<Text>)
    requires |z| > 1
    ensures var x := [[u] + z[0]] + z[1..];
            Terminate(x[..|x| - 1]) + x[|x| - 1] == [u] + (Terminate(z[..|z| - 1]) + z[|z| - 1])
  {
    var x := [[u] + z[0]] + z[1..];
    var a, b := x[..|x| - 1], z[..|z| - 1];
    assert a[1..] == b[1..] && a[0] == [u] + b[0];
    assert Terminate(a) == [u] + Terminate(b);
  }
}
