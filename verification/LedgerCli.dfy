/** The ledger command line as steps on one file of newline-terminated canonical lines. */
module LedgerCli {
  import opened Wrappers
  import opened JsText
  import opened Json
  import opened JsonParser
  import opened Canonical
  import opened LedgerEntry
  import opened LedgerBuild
  import opened LedgerShape
  import opened Validator
  import opened LedgerChain
  import opened LedgerReach
  import opened Lines

  // ---------- Lines ----------

  function DropEmptyLast(pieces: seq<Text>): seq<Text> {
    if |pieces| > 0 && pieces[|pieces| - 1] == [] then pieces[..|pieces| - 1] else pieces
  }

  function LinesIn(content: Text): seq<Text> {
    DropEmptyLast(Split(content))
  }

  /** The lines hold no newline, and give back the content: each ended by a newline, but for a last one that is not. */
  ghost predicate AreLinesOf(lines: seq<Text>, content: Text) {
    && (forall i :: 0 <= i < |lines| ==> OneLine(lines[i]))
    && if Terminated(content) then content == Terminate(lines)
       else lines != [] && content == Terminate(lines[..|lines| - 1]) + lines[|lines| - 1]
  }

  method SplitLines(content: Text) returns (lines: seq<Text>)
    ensures AreLinesOf(lines, content)
    ensures lines == LinesIn(content)
  {
    LinesInIff(content, LinesIn(content));
    lines := Split(content);
    if |lines| > 0 && lines[|lines| - 1] == [] {
      lines := lines[..|lines| - 1];
    }
  }

  predicate Terminated(content: Text) {
    content == [] || content[|content| - 1] == NEWLINE
  }

  lemma {:induction false} LastPieceEmpty(s: Text)
    ensures var x := Split(s); x[|x| - 1] == [] <==> Terminated(s)
  {
    if |s| > 1 {
      LastPieceEmpty(s[1..]);
    }
  }

  /** There is one such list of lines. */
  lemma {:induction false} LinesInIff(content: Text, lines: seq<Text>)
    ensures lines == LinesIn(content) <==> AreLinesOf(lines, content)
  {
    var x := Split(content);
    SplitIsJoined(content);
    LastPieceEmpty(content);
    assert AreLinesOf(LinesIn(content), content) by {
      if Terminated(content) {
        assert Terminate(x[..|x| - 1]) + [] == Terminate(x[..|x| - 1]);
      }
    }
    if AreLinesOf(lines, content) {
      var whole := if Terminated(content) then lines else lines[..|lines| - 1];
      var rest := if Terminated(content) then [] else lines[|lines| - 1];
      assert content == Terminate(whole) + rest;
      SplitJoined(whole, rest);
      assert x == whole + [rest];
    }
  }

  /** What follows the last newline is where a new line is put. */
  lemma {:induction false} LinesAfterAppend(content: Text, line: Text)
    requires OneLine(line) && line != []
    ensures var x := Split(content);
      LinesIn(content + line + [NEWLINE]) == x[..|x| - 1] + [x[|x| - 1] + line]
  {
    var x := Split(content);
    SplitOneLine(line);
    SplitConcat(content, line);
    assert Split(content + line) == x[..|x| - 1] + [x[|x| - 1] + line];
    SplitConcat(content + line, [NEWLINE]);
    NewlineSplits();
    EndGlued(x[..|x| - 1], x[|x| - 1] + line);
  }

  lemma {:induction false} NewlineSplits()
    ensures Split([NEWLINE]) == [[], []]
  {
    assert [NEWLINE][1..] == [];
    assert Split([]) == [[]];
  }

  lemma {:induction false} EndGlued(lines: seq<Text>, last: Text)
    ensures Glue(lines + [last], [[], []]) == lines + [last] + [[]]
    ensures last != [] ==> DropEmptyLast(lines + [last] + [[]]) == lines + [last]
  {
    assert last + [] == last;
    assert (lines + [last])[..|lines|] == lines;
  }

  /**
   * Appending a line to a file adds exactly that line to those it had, if and only if the file
   * was empty or ended in a newline; otherwise the new line is glued to the last one.
   */
  lemma {:induction false} AppendAddsOneLineIff(content: Text, line: Text)
    requires OneLine(line) && line != []
    ensures LinesIn(content + line + [NEWLINE]) == LinesIn(content) + [line] <==> Terminated(content)
  {
    var x := Split(content);
    LinesAfterAppend(content, line);
    LastPieceEmpty(content);
    if Terminated(content) {
      assert x[|x| - 1] + line == line;
    } else {
      assert |LinesIn(content) + [line]| == |x| + 1;
    }
  }

  // ---------- Entries ----------

  /** `JSON.parse(line) as LedgerEntry` */
  function CastEntry(data: Json): Entry {
    if data.Obj? then EntryOf(data) else EntryFrom(k => None)
  }

  function Entries(lines: seq<Text>): seq<Entry> {
    if lines == [] then []
    else
      var init, line := lines[..|lines| - 1], lines[|lines| - 1];
      if line == [] || Parse(line).None? then Entries(init) else Entries(init) + [CastEntry(Parse(line).value)]
  }

  method ParseEntries(lines: seq<Text>) returns (entries: seq<Entry>)
    ensures entries == Entries(lines)
  {
    entries := [];
    for i := 0 to |lines|
      invariant entries == Entries(lines[..i])
    {
      assert lines[..i + 1][..i] == lines[..i];
      var line := lines[i];
      if line == [] {
        continue;
      }
      var data := Parse(line);
      if data.None? {
        continue;
      }
      entries := entries + [CastEntry(data.value)];
    }
    assert lines[..|lines|] == lines;
  }

  lemma {:induction false} EntryOfLine(e: Entry)
    requires PayloadWf(e) && e.sequence >= 1
    ensures EntryLine(e) != [] && Parse(EntryLine(e)).Some?
    ensures CastEntry(Parse(EntryLine(e)).value) == NormEntry(e)
    ensures OneLine(EntryLine(e))
  {
    EntryLineNotEmpty(e);
    EntryLineReadsBack(e);
    PrintParse(EntryJson(e));
    StringifyPrintable(EntryJson(e));
  }

  // ---------- Commands ----------

  datatype InitCommand = InitCommand(
    ledgerId: Text,
    manifestText: Option<Text>,
    actor: Text,
    now: Text,
    entryId: Text)

  datatype AppendCommand = AppendCommand(
    receiptText: Option<Text>,
    idempotencyKey: Text,
    actor: Text,
    now: Text,
    entryId: Text,
    signing: Signing)

  /** What a command does: write one entry and succeed, or write nothing and succeed or fail. */
  datatype Outcome = Wrote(entry: Entry) | NoWrite(exitCode: nat)

  function ExitCode(outcome: Outcome): nat {
    match outcome
    case Wrote(_) => 0
    case NoWrite(code) => code
  }

  /** A file that cannot be read, or is not JSON, gives nothing. */
  function ReadJson(text: Option<Text>): Option<Json> {
    match text
    case None => None
    case Some(t) => Parse(t)
  }

  function GenesisOf(command: InitCommand, manifest: Json): GenesisInput {
    GenesisInput(command.ledgerId, manifest, command.actor, command.now, command.now, command.entryId, None)
  }

  function InitOutcome(c: Crypto, file: Option<Text>, command: InitCommand): Outcome {
    if file.Some? then NoWrite(1)
    else
      match ReadJson(command.manifestText)
      case None => NoWrite(1)
      case Some(manifest) => Wrote(CreateGenesisEntry(c, GenesisOf(command, manifest)))
  }

  /** The input that the command line gives to the builder, on the head it has read. */
  function AppendInput(head: Entry, command: AppendCommand, receipt: Json): EntryInput {
    EntryInput(
      head.ledgerId, RECEIPT_RECORDED, command.actor, command.now, command.now, command.entryId, None, Some(head),
      None, Some(receipt), Some(command.idempotencyKey), None, Some(command.idempotencyKey))
  }

  function AppendOn(c: Crypto, entries: seq<Entry>, command: AppendCommand, receipt: Json): Outcome {
    if entries == [] then NoWrite(1)
    else
      var head := entries[|entries| - 1];
      match CreateLedgerEntry(c, AppendInput(head, command, receipt))
      case Throws(_) => NoWrite(1)
      case Made(built) =>
        var entry := Finish(c, built, command.signing);
        var request := AppendRequest(head.ledgerId, EntryHash(c, head), head.sequence + 1, entry);
        match AppendEntry(c, request, entries)
        case Appended(_, _) => Wrote(entry)
        case Duplicate(reason, _) => NoWrite(if reason == IdempotencyReplay then 0 else 1)
        case HeadConflict(_, _, _, _) => NoWrite(1)
        case InvalidChain(_) => NoWrite(1)
  }

  function AppendOutcome(c: Crypto, file: Option<Text>, command: AppendCommand): Outcome {
    if file.None? then NoWrite(1)
    else
      var lines := LinesIn(file.value);
      if !ReportOf(c, lines, None).valid then NoWrite(1)
      else
        match ReadJson(command.receiptText)
        case None => NoWrite(1)
        case Some(receipt) => AppendOn(c, Entries(lines), command, receipt)
  }

  /** The file after a command: unchanged, or longer by one line. */
  function FileAfter(file: Option<Text>, outcome: Outcome): Option<Text> {
    match outcome
    case NoWrite(_) => file
    case Wrote(entry) => Some(file.GetOr([]) + EntryLine(entry) + [NEWLINE])
  }

  class LedgerFile {
    var content: Option<Text>

    constructor ()
      ensures content.None?
    {
      content := None;
    }

    method RunInit(c: Crypto, command: InitCommand) returns (exitCode: nat)
      modifies this
      ensures content == FileAfter(old(content), InitOutcome(c, old(content), command))
      ensures exitCode == ExitCode(InitOutcome(c, old(content), command))
    {
      if content.Some? {
        return 1;
      }
      var manifest := ReadJson(command.manifestText);
      if manifest.None? {
        return 1;
      }
      var genesis := CreateGenesisEntry(c, GenesisOf(command, manifest.value));
      assert [] + EntryLine(genesis) == EntryLine(genesis);
      content := Some(EntryLine(genesis) + [NEWLINE]);
      return 0;
    }

    method RunAppend(c: Crypto, command: AppendCommand) returns (exitCode: nat)
      modifies this
      ensures content == FileAfter(old(content), AppendOutcome(c, old(content), command))
      ensures exitCode == ExitCode(AppendOutcome(c, old(content), command))
    {
      if content.None? {
        return 1;
      }
      var lines := SplitLines(content.value);
      var report := ValidateLedger(c, lines, None);
      if !report.valid {
        return 1;
      }
      var receipt := ReadJson(command.receiptText);
      if receipt.None? {
        return 1;
      }
      var entries := ParseEntries(lines);
      var outcome := AppendOn(c, entries, command, receipt.value);
      match outcome {
        case Wrote(entry) =>
          content := Some(content.value + EntryLine(entry) + [NEWLINE]);
          return 0;
        case NoWrite(code) =>
          return code;
      }
    }
  }

  // ---------- Runs of commands ----------

  datatype Command = Init(init: InitCommand) | Append(append: AppendCommand)

  function OutcomeOf(c: Crypto, file: Option<Text>, command: Command): Outcome {
    match command
    case Init(init) => InitOutcome(c, file, init)
    case Append(append) => AppendOutcome(c, file, append)
  }

  /** The file and the entries accepted so far. */
  datatype World = World(file: Option<Text>, accepted: seq<Entry>)

  function After(c: Crypto, commands: seq<Command>): World {
    if commands == [] then World(None, [])
    else
      var w := After(c, commands[..|commands| - 1]);
      var outcome := OutcomeOf(c, w.file, commands[|commands| - 1]);
      World(
        FileAfter(w.file, outcome),
        match outcome case NoWrite(_) => w.accepted case Wrote(entry) => w.accepted + [entry])
  }

  /** The file holds the entries, one line each. */
  ghost predicate Holds(content: Text, es: seq<Entry>) {
    && Terminated(content)
    && LinesIn(content) == LinesOf(es)
    && Entries(LinesIn(content)) == NormAll(es)
  }

  ghost predicate Numbered(es: seq<Entry>) {
    forall i :: 0 <= i < |es| ==> PayloadWf(es[i]) && es[i].sequence == i + 1
  }

  ghost predicate Consistent(w: World) {
    && (w.file.None? <==> w.accepted == [])
    && (w.file.Some? ==> Holds(w.file.value, w.accepted))
    && Numbered(w.accepted)
  }

  lemma {:induction false} WrittenLine(content: Text, es: seq<Entry>, e: Entry)
    requires Holds(content, es) && PayloadWf(e) && e.sequence >= 1
    ensures Holds(content + EntryLine(e) + [NEWLINE], es + [e])
  {
    EntryOfLine(e);
    AppendAddsOneLineIff(content, EntryLine(e));
    EntriesOneMore(LinesIn(content), EntryLine(e));
    OneMoreEntry(es, e);
  }

  lemma {:induction false} OneMoreEntry(es: seq<Entry>, e: Entry)
    ensures LinesOf(es + [e]) == LinesOf(es) + [EntryLine(e)]
    ensures NormAll(es + [e]) == NormAll(es) + [NormEntry(e)]
  {
  }

  lemma {:induction false} NoLines()
    ensures Holds([], [])
  {
  }

  lemma {:induction false} EntriesOneMore(lines: seq<Text>, line: Text)
    requires line != [] && Parse(line).Some?
    ensures Entries(lines + [line]) == Entries(lines) + [CastEntry(Parse(line).value)]
  {
  }

  lemma {:induction false} AppendedFollows(c: Crypto, entries: seq<Entry>, command: AppendCommand, receipt: Json)
    requires Wf(receipt) && AppendOn(c, entries, command, receipt).Wrote?
    ensures var e := AppendOn(c, entries, command, receipt).entry;
            PayloadWf(e) && entries != [] && e.sequence == entries[|entries| - 1].sequence + 1
  {
    ReceiptPayloadWf(command.idempotencyKey, receipt, None);
  }

  lemma {:induction false} WrittenEntry(c: Crypto, w: World, command: Command)
    requires Consistent(w) && OutcomeOf(c, w.file, command).Wrote?
    ensures var e := OutcomeOf(c, w.file, command).entry; PayloadWf(e) && e.sequence == |w.accepted| + 1
  {
    match command {
      case Init(init) => ParseWf(init.manifestText.value);
      case Append(append) => WrittenAppend(c, w, append);
    }
  }

  lemma {:induction false} WrittenAppend(c: Crypto, w: World, append: AppendCommand)
    requires Consistent(w) && AppendOutcome(c, w.file, append).Wrote?
    ensures var e := AppendOutcome(c, w.file, append).entry; PayloadWf(e) && e.sequence == |w.accepted| + 1
  {
    ParseWf(append.receiptText.value);
    var entries := Entries(LinesIn(w.file.value));
    AppendedFollows(c, entries, append, ReadJson(append.receiptText).value);
    assert entries[|entries| - 1].sequence == |w.accepted|;
  }

  lemma {:induction false} StepKeepsConsistent(c: Crypto, w: World, command: Command)
    requires Consistent(w) && OutcomeOf(c, w.file, command).Wrote?
    ensures var outcome := OutcomeOf(c, w.file, command);
            Consistent(World(FileAfter(w.file, outcome), w.accepted + [outcome.entry]))
  {
    WrittenEntry(c, w, command);
    WrittenKeepsConsistent(w, OutcomeOf(c, w.file, command).entry);
  }

  lemma {:induction false} WrittenKeepsConsistent(w: World, e: Entry)
    requires Consistent(w) && PayloadWf(e) && e.sequence == |w.accepted| + 1
    ensures Consistent(World(FileAfter(w.file, Wrote(e)), w.accepted + [e]))
  {
    NoLines();
    WrittenLine(w.file.GetOr([]), w.accepted, e);
  }

  /**
   * After any commands, splitting and parsing the file gives back the accepted entries, in order
   * and up to the order of payload keys.
   */
  lemma {:induction false} FileHoldsAccepted(c: Crypto, commands: seq<Command>)
    ensures Consistent(After(c, commands))
  {
    if commands == [] {
    } else {
      var init, command := commands[..|commands| - 1], commands[|commands| - 1];
      FileHoldsAccepted(c, init);
      var w := After(c, init);
      if OutcomeOf(c, w.file, command).Wrote? {
        StepKeepsConsistent(c, w, command);
      }
    }
  }

  /** A command never takes away a byte; one that writes adds exactly one line, free of newlines. */
  lemma {:induction false} OneMoreLine(c: Crypto, commands: seq<Command>, command: Command)
    ensures var before, after := After(c, commands).file, After(c, commands + [command]).file;
            var outcome := OutcomeOf(c, before, command);
            if outcome.NoWrite? then after == before
            else
              && after == Some(before.GetOr([]) + EntryLine(outcome.entry) + [NEWLINE])
              && OneLine(EntryLine(outcome.entry))
              && LinesIn(after.value) == LinesIn(before.GetOr([])) + [EntryLine(outcome.entry)]
  {
    FileHoldsAccepted(c, commands);
    assert (commands + [command])[..|commands|] == commands;
    var w := After(c, commands);
    if OutcomeOf(c, w.file, command).Wrote? {
      WrittenEntry(c, w, command);
      EntryAddsLine(w, OutcomeOf(c, w.file, command).entry);
    }
  }

  lemma {:induction false} EntryAddsLine(w: World, e: Entry)
    requires Consistent(w) && PayloadWf(e) && e.sequence >= 1
    ensures OneLine(EntryLine(e))
    ensures LinesIn(w.file.GetOr([]) + EntryLine(e) + [NEWLINE]) == LinesIn(w.file.GetOr([])) + [EntryLine(e)]
  {
    EntryOfLine(e);
    AppendAddsOneLineIff(w.file.GetOr([]), EntryLine(e));
  }

  // ---------- Which appends keep the file valid ----------

  lemma {:induction false} EntriesAreRead(lines: seq<Text>)
    requires LinesOk(lines)
    ensures Entries(lines) == ReadAll(lines)
  {
    if lines != [] {
      var init, line := lines[..|lines| - 1], lines[|lines| - 1];
      assert lines == init + [line];
      LinesOkLast(init, line);
      EntriesAreRead(init);
      CastIsRead(line);
    }
  }

  lemma {:induction false} CastIsRead(line: Text)
    requires LineOk(line)
    ensures line != [] && Parse(line).Some? && CastEntry(Parse(line).value) == ReadOr(line)
  {
    ReadParsed(line, Parse(line).value);
  }

  /** Two entries on one line are not JSON. */
  lemma {:induction false} GluedEntriesDoNotParse(e: Entry, f: Entry)
    requires PayloadWf(e)
    ensures Parse(EntryLine(e) + EntryLine(f)).None?
  {
    EntryJsonWf(e);
    ParseObjectText(EntryJson(e), EntryLine(f));
    FirstUnit(EntryJson(f));
    assert EntryLine(f)[0] == OPEN_BRACE;
    assert SkipSpace(EntryLine(f)) == EntryLine(f);
  }

  /** A valid ledger whose last line has no newline after it. */
  lemma {:induction false} UnterminatedLast(c: Crypto, content: Text) returns (f: Entry)
    requires !Terminated(content) && Valid(c, LinesIn(content), None)
    ensures var x := Split(content); FormOk(f) && x[|x| - 1] == EntryLine(f)
  {
    var x := Split(content);
    LastPieceEmpty(content);
    ValidByReading(c, x, None);
    assert LineOk(x[|x| - 1]);
    LineOkIsEntry(x[|x| - 1]);
    f := ReadLine(x[|x| - 1]).value;
  }

  lemma {:induction false} UnparsedIsInvalid(c: Crypto, lines: seq<Text>, i: nat)
    requires i < |lines| && Parse(lines[i]).None?
    ensures !Valid(c, lines, None)
  {
    ValidByReading(c, lines, None);
    assert !LineOk(lines[i]);
  }

  lemma {:induction false} GluedIsInvalid(c: Crypto, content: Text, e: Entry)
    requires !Terminated(content) && Valid(c, LinesIn(content), None)
    requires PayloadWf(e) && e.sequence >= 1
    ensures !Valid(c, LinesIn(content + EntryLine(e) + [NEWLINE]), None)
  {
    var x := Split(content);
    var f := UnterminatedLast(c, content);
    EntryOfLine(e);
    LinesAfterAppend(content, EntryLine(e));
    GluedEntriesDoNotParse(f, e);
    UnparsedIsInvalid(c, x[..|x| - 1] + [EntryLine(f) + EntryLine(e)], |x| - 1);
  }

  /**
   * The command line appends whatever receipt it is given, behind whatever the file ends in. The
   * file it leaves is valid exactly when the old one ended in a newline, the receipt is an object
   * or null, none of the texts it was given is empty, and the signing key, if any, is acceptable
   * to the genesis trust root.
   */
  lemma {:induction false} AppendLeavesValidIff(c: Crypto, content: Text, command: AppendCommand)
    requires Sound(c)
    requires AppendOutcome(c, Some(content), command).Wrote?
    ensures var es := Entries(LinesIn(content));
            var after := FileAfter(Some(content), AppendOutcome(c, Some(content), command)).value;
            es != [] && (Valid(c, LinesIn(after), None) <==> Terminated(content) && AppendInputOk(es[0], command))
  {
    var lines := LinesIn(content);
    var receipt := ReadJson(command.receiptText).value;
    ParseWf(command.receiptText.value);
    ValidByReading(c, lines, None);
    EntriesAreRead(lines);
    ReadsStore(lines);
    var e := NextLineValidIff(c, lines, Entries(lines), command, receipt);
    EntryOfLine(e);
    if Terminated(content) {
      AppendAddsOneLineIff(content, EntryLine(e));
    } else {
      GluedIsInvalid(c, content, e);
    }
  }

  /** What the caller of `append` can check. */
  ghost predicate AppendInputOk(genesis: Entry, command: AppendCommand)
    requires ReadJson(command.receiptText).Some?
  {
    && command.idempotencyKey != [] && command.entryId != [] && command.now != [] && command.actor != []
    && (ReadJson(command.receiptText).value.Obj? || ReadJson(command.receiptText).value.Null?)
    && KeyOk(genesis, command.signing, None)
  }

  lemma {:induction false} NextLineValidIff(c: Crypto, lines: seq<Text>, es: seq<Entry>, command: AppendCommand, receipt: Json)
      returns (e: Entry)
    requires Sound(c) && Wf(receipt) && Stores(lines, es) && GoodChain(c, es, None)
    requires ReadJson(command.receiptText) == Some(receipt)
    requires AppendOn(c, es, command, receipt).Wrote?
    ensures e == AppendOn(c, es, command, receipt).entry && es != []
    ensures PayloadWf(e) && e.sequence >= 1
    ensures Valid(c, lines + [EntryLine(e)], None) <==> AppendInputOk(es[0], command)
  {
    e := AppendOn(c, es, command, receipt).entry;
    AppendedIsNext(c, es, command, receipt);
    var input := AppendInput(es[|es| - 1], command, receipt);
    HeadFacts(c, es, None);
    NextValidIff(c, lines, es, input, command.signing, None);
    NextInputOkIs(es, input, command, receipt);
  }

  lemma {:induction false} AppendedIsNext(c: Crypto, es: seq<Entry>, command: AppendCommand, receipt: Json)
    requires Wf(receipt) && AppendOn(c, es, command, receipt).Wrote?
    ensures es != []
    ensures var input := AppendInput(es[|es| - 1], command, receipt);
            && InputWf(input)
            && BuildNext(c, es, input, command.signing) == Made(AppendOn(c, es, command, receipt).entry)
            && FindId(es, input.entryId).None?
            && PayloadWf(AppendOn(c, es, command, receipt).entry)
            && AppendOn(c, es, command, receipt).entry.sequence == es[|es| - 1].sequence + 1
  {
    ReceiptPayloadWf(command.idempotencyKey, receipt, None);
  }

  lemma {:induction false} NextInputOkIs(es: seq<Entry>, input: EntryInput, command: AppendCommand, receipt: Json)
    requires es != [] && input == AppendInput(es[|es| - 1], command, receipt)
    requires es[|es| - 1].ledgerId == es[0].ledgerId && es[0].ledgerId != []
    requires ReadJson(command.receiptText) == Some(receipt)
    ensures NextInputOk(es, input, command.signing, None) <==> AppendInputOk(es[0], command)
  {
  }

  // ---------- A receipt that is no receipt ----------

  lemma {:induction false} NewIsWritten(c: Crypto, es: seq<Entry>, command: AppendCommand, receipt: Json)
    requires es != [] && (|es| == 1 ==> es[0].entryType == GENESIS)
    requires FindKey(es, es[|es| - 1].ledgerId, command.idempotencyKey).None? && FindId(es, command.entryId).None?
    requires command.signing == HashOnly
    ensures AppendOn(c, es, command, receipt).Wrote?
  {
  }

  lemma {:induction false} EmptyArrayText()
    ensures Parse(Lit("[]")) == Some(Arr([]))
  {
    PrintParse(Arr([]));
    assert Stringify(Arr([])) == Lit("[]");
    assert Norm(Arr([])) == Arr([]);
  }

  /** Any valid ledger accepts an array as a receipt under a new key and entry id, and is not valid any more. */
  lemma {:induction false} ArrayReceiptBreaksLedger(c: Crypto, content: Text, command: AppendCommand)
    requires Sound(c) && Valid(c, LinesIn(content), None) && LinesIn(content) != []
    requires command.receiptText == Some(Lit("[]")) && command.signing == HashOnly
    requires var es := Entries(LinesIn(content));
             && es != []
             && FindKey(es, es[|es| - 1].ledgerId, command.idempotencyKey).None?
             && FindId(es, command.entryId).None?
    ensures AppendOutcome(c, Some(content), command).Wrote?
    ensures !Valid(c, LinesIn(FileAfter(Some(content), AppendOutcome(c, Some(content), command)).value), None)
  {
    GenesisComesFirst(c, LinesIn(content));
    EmptyArrayText();
    NewIsWritten(c, Entries(LinesIn(content)), command, Arr([]));
    OutcomeOnValid(c, content, command, Arr([]));
    AppendLeavesValidIff(c, content, command);
  }

  lemma {:induction false} GenesisComesFirst(c: Crypto, lines: seq<Text>)
    requires Valid(c, lines, None) && lines != []
    ensures Entries(lines) != [] && Entries(lines)[0].entryType == GENESIS
  {
    ValidByReading(c, lines, None);
    EntriesAreRead(lines);
    assert LocalOk(c, ReadAll(lines), 0, None);
  }

  lemma {:induction false} OutcomeOnValid(c: Crypto, content: Text, command: AppendCommand, receipt: Json)
    requires Valid(c, LinesIn(content), None) && ReadJson(command.receiptText) == Some(receipt)
    ensures AppendOutcome(c, Some(content), command) == AppendOn(c, Entries(LinesIn(content)), command, receipt)
  {
  }

  lemma {:induction false} NewLedgerHolds(c: Crypto, genesis: GenesisInput)
    requires Sound(c) && Wf(genesis.manifest) && GenesisInputOk(genesis)
    ensures var e := CreateGenesisEntry(c, genesis);
            var lines := LinesIn(EntryLine(e) + [NEWLINE]);
            && Valid(c, lines, None) && lines == [EntryLine(e)] && Entries(lines) == [NormEntry(e)]
  {
    var e := CreateGenesisEntry(c, genesis);
    GenesisValidIff(c, genesis, None);
    EntryOfLine(e);
    AppendAddsOneLineIff([], EntryLine(e));
    assert [] + EntryLine(e) == EntryLine(e) && LinesIn([]) == [];
    EntriesOneMore([], EntryLine(e));
    assert [] + [EntryLine(e)] == [EntryLine(e)];
  }

  /** So does every ledger that has just been created. */
  lemma {:induction false} NewLedgerTakesArrayReceipt(c: Crypto, genesis: GenesisInput, command: AppendCommand)
    requires Sound(c) && Wf(genesis.manifest) && GenesisInputOk(genesis)
    requires command.receiptText == Some(Lit("[]")) && command.signing == HashOnly && command.entryId != genesis.entryId
    ensures var content := EntryLine(CreateGenesisEntry(c, genesis)) + [NEWLINE];
            && Valid(c, LinesIn(content), None)
            && AppendOutcome(c, Some(content), command).Wrote?
            && !Valid(c, LinesIn(FileAfter(Some(content), AppendOutcome(c, Some(content), command)).value), None)
  {
    NewLedgerHolds(c, genesis);
    ArrayReceiptBreaksLedger(c, EntryLine(CreateGenesisEntry(c, genesis)) + [NEWLINE], command);
  }
}
