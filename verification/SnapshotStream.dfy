/** Reassembling server-sent lines from chunks of decoded text. */
module SnapshotStream {
  import opened Wrappers
  import opened JsText
  import opened Json
  import opened Lines

  const DATA: Text := Lit("data: ")

  /** What a complete line yields: the parsed payload of a data line, if it parses. */
  function Payload<T>(parse: Text -> Option<T>, line: Text): Option<T> {
    if StartsWith(line, DATA) then parse(line[|DATA|..]) else None
  }

  /** The snapshots in a sequence of complete lines. */
  function Snapshots<T>(parse: Text -> Option<T>, lines: seq<Text>): seq<T> {
    if lines == [] then []
    else
      Snapshots(parse, lines[..|lines| - 1]) +
        match Payload(parse, lines[|lines| - 1])
        case None => []
        case Some(v) => [v]
  }

  /** The lines of a text that a newline ends. */
  function Complete(text: Text): seq<Text> {
    var pieces := Split(text);
    pieces[..|pieces| - 1]
  }

  function Unfinished(text: Text): Text {
    var pieces := Split(text);
    pieces[|pieces| - 1]
  }

  /** A line that starts with "data: " yields what the rest parses to, if it does. */
  lemma {:induction false} DataLine<T>(parse: Text -> Option<T>, payload: Text)
    ensures Snapshots(parse, [Lit("data: ") + payload]) ==
              match parse(payload)
              case None => []
              case Some(v) => [v]
  {
    var line := Lit("data: ") + payload;
    assert line[..6] == Lit("data: ") && line[6..] == payload;
    assert Snapshots(parse, [line][..0]) == [];
  }

  lemma {:induction false} StartsWithIff(line: Text)
    ensures StartsWith(line, DATA) <==> exists payload :: line == Lit("data: ") + payload
  {
    if StartsWith(line, DATA) {
      assert line == Lit("data: ") + line[6..];
    }
    if payload :| line == Lit("data: ") + payload {
      assert line[..6] == Lit("data: ");
    }
  }

  /** Any other line yields nothing. */
  lemma {:induction false} OtherLine<T>(parse: Text -> Option<T>, line: Text)
    requires !exists payload :: line == Lit("data: ") + payload
    ensures Snapshots(parse, [line]) == []
  {
    StartsWithIff(line);
    assert Snapshots(parse, [line][..0]) == [];
  }

  function Concat(chunks: seq<Text>): Text {
    if chunks == [] then [] else Concat(chunks[..|chunks| - 1]) + chunks[|chunks| - 1]
  }

  lemma {:induction false} SnapshotsConcat<T>(parse: Text -> Option<T>, a: seq<Text>, b: seq<Text>)
    ensures Snapshots(parse, a + b) == Snapshots(parse, a) + Snapshots(parse, b)
  {
    if b == [] {
      assert a + b == a;
    } else {
      var init := b[..|b| - 1];
      assert (a + b)[..|a + b| - 1] == a + init;
      SnapshotsConcat(parse, a, init);
    }
  }

  /** After one more chunk: the lines that the buffer and the chunk complete are exactly the new ones. */
  lemma {:induction false} OneMoreChunk(text: Text, chunk: Text)
    ensures Complete(text + chunk) == Complete(text) + Complete(Unfinished(text) + chunk)
    ensures Unfinished(text + chunk) == Unfinished(Unfinished(text) + chunk)
  {
    var x, y, last := Split(text), Split(chunk), Unfinished(text);
    SplitIsJoined(text);
    SplitOneLine(last);
    SplitConcat(text, chunk);
    SplitConcat(last, chunk);
    GlueAtLast(x, y);
    DropLast(x[..|x| - 1], Glue([last], y));
  }

  lemma {:induction false} GlueAtLast(x: seq<Text>, y: seq<Text>)
    requires x != [] && y != []
    ensures Glue([x[|x| - 1]], y) != []
    ensures Glue(x, y) == x[..|x| - 1] + Glue([x[|x| - 1]], y)
  {
  }

  lemma {:induction false} DropLast<T>(a: seq<T>, b: seq<T>)
    requires b != []
    ensures (a + b)[..|a + b| - 1] == a + b[..|b| - 1] && (a + b)[|a + b| - 1] == b[|b| - 1]
  {
  }

  lemma {:induction false} ConcatMore(chunks: seq<Text>, n: nat)
    requires n < |chunks|
    ensures Concat(chunks[..n + 1]) == Concat(chunks[..n]) + chunks[n]
  {
    assert chunks[..n + 1][..n] == chunks[..n];
  }

  lemma {:induction false} SnapshotsMore<T>(parse: Text -> Option<T>, lines: seq<Text>, i: nat)
    requires i < |lines|
    ensures Snapshots(parse, lines[..i + 1]) == Snapshots(parse, lines[..i]) +
              match Payload(parse, lines[i])
              case None => []
              case Some(v) => [v]
  {
    assert lines[..i + 1][..i] == lines[..i];
  }

  /** The inner loop: of complete lines, yield what the data lines carry. */
  method YieldLines<T>(lines: seq<Text>, parse: Text -> Option<T>, before: seq<T>) returns (yielded: seq<T>)
    ensures yielded == before + Snapshots(parse, lines)
  {
    yielded := before;
    for i := 0 to |lines|
      invariant yielded == before + Snapshots(parse, lines[..i])
    {
      SnapshotsMore(parse, lines, i);
      if StartsWith(lines[i], DATA) {
        var parsed := parse(lines[i][|DATA|..]);
        if parsed.Some? {
          yielded := yielded + [parsed.value];
        }
      }
    }
    assert lines[..|lines|] == lines;
  }

  /**
   * The read loop: whatever the chunks, it yields the snapshots of the complete lines of the whole
   * text, in order, and leaves the unfinished line in the buffer.
   */
  method Execute<T>(chunks: seq<Text>, parse: Text -> Option<T>) returns (yielded: seq<T>, buffer: Text)
    ensures yielded == Snapshots(parse, Complete(Concat(chunks)))
    ensures buffer == Unfinished(Concat(chunks))
  {
    yielded, buffer := [], [];
    for n := 0 to |chunks|
      invariant yielded == Snapshots(parse, Complete(Concat(chunks[..n])))
      invariant buffer == Unfinished(Concat(chunks[..n]))
    {
      ghost var text := Concat(chunks[..n]);
      ConcatMore(chunks, n);
      OneMoreChunk(text, chunks[n]);
      buffer := buffer + chunks[n];
      var lines := Split(buffer);
      SnapshotsConcat(parse, Complete(text), lines[..|lines| - 1]);
      yielded := YieldLines(lines[..|lines| - 1], parse, yielded);
      buffer := lines[|lines| - 1];
    }
    assert chunks[..|chunks|] == chunks;
  }

  /** What is yielded depends on the text only: complete lines, however they were cut into chunks. */
  lemma {:induction false} YieldsCompleteLines<T>(parse: Text -> Option<T>, chunks: seq<Text>, lines: seq<Text>, rest: Text)
    requires Concat(chunks) == Terminate(lines) + rest
    requires OneLine(rest) && forall i :: 0 <= i < |lines| ==> OneLine(lines[i])
    ensures Snapshots(parse, Complete(Concat(chunks))) == Snapshots(parse, lines)
    ensures Unfinished(Concat(chunks)) == rest
  {
    SplitJoined(lines, rest);
  }
}
