/** What the commands of the ledger command line come to: exit codes and files, for every input and over runs. */
module LedgerCommands {
  import opened Wrappers
  import opened JsText
  import opened Json
  import opened JsonParser
  import opened LedgerEntry
  import opened LedgerBuild
  import opened LedgerShape
  import opened Validator
  import opened LedgerChain
  import opened LedgerReach
  import opened LedgerRules
  import opened Lines
  import opened LedgerCli
  import AppendProtocol

  // ---------- init ----------

  /** `init` writes one line to a new file if the manifest can be read, and nothing otherwise. */
  lemma {:induction false} InitOutcomes(c: Crypto, file: Option<Text>, command: InitCommand)
    ensures var outcome := InitOutcome(c, file, command);
            var readable := command.manifestText.Some? && Parse(command.manifestText.value).Some?;
            && (file.None? && readable ==>
                  && ExitCode(outcome) == 0
                  && exists e: Entry :: FileAfter(file, outcome) == Some(EntryLine(e) + [NEWLINE])
                       && e.entryType == Lit("GENESIS") && e.ledgerId == command.ledgerId && e.entryId == command.entryId
                       && e.actor == command.actor && e.occurredAt == command.now && e.recordedAt == command.now
                       && e.payload == Parse(command.manifestText.value))
            && (!(file.None? && readable) ==> ExitCode(outcome) == 1 && FileAfter(file, outcome) == file)
  {
    if file.None? && command.manifestText.Some? && Parse(command.manifestText.value).Some? {
      var e := InitOutcome(c, file, command).entry;
      assert [] + EntryLine(e) == EntryLine(e);
    }
  }

  // ---------- append ----------

  /** The entry at `i` holds the key under the ledger of the last entry. */
  predicate KeyHeld(es: seq<Entry>, key: Text, i: int) {
    0 <= i < |es| && es[i].ledgerId == es[|es| - 1].ledgerId && es[i].idempotencyKey == Some(key)
  }

  ghost predicate IdHeld(es: seq<Entry>, entryId: Text) {
    exists i :: 0 <= i < |es| && es[i].entryId == entryId
  }

  /** The entry records this receipt under this key. */
  predicate SameReceipt(c: Crypto, f: Entry, key: Text, receipt: Json) {
    && f.entryType == Lit("RECEIPT_RECORDED")
    && f.receiptHash == c.sha256(Stringify(receipt))
    && f.payloadHash == c.sha256(Stringify(Obj([Member(Lit("receiptId"), Str(key)), Member(Lit("receipt"), receipt)])))
  }

  /** The entry that `append` builds on a head. */
  function BuiltOn(c: Crypto, head: Entry, command: AppendCommand, receipt: Json): Built {
    BuildNext(c, [head], AppendInput(head, command, receipt), command.signing)
  }

  function RequestFor(c: Crypto, head: Entry, entry: Entry): AppendRequest {
    AppendRequest(head.ledgerId, EntryHash(c, head), head.sequence + 1, entry)
  }

  lemma {:induction false} AppendOnIs(c: Crypto, es: seq<Entry>, command: AppendCommand, receipt: Json)
    requires es != []
    ensures var head := es[|es| - 1];
            var built := BuiltOn(c, head, command, receipt);
            && built.Made?
            && AppendOn(c, es, command, receipt) ==
                 match AppendEntry(c, RequestFor(c, head, built.entry), es)
                 case Appended(_, _) => Wrote(built.entry)
                 case Duplicate(reason, _) => NoWrite(if reason == IdempotencyReplay then 0 else 1)
                 case _ => NoWrite(1)
  {
  }

  /** What the built entry is, as far as the outcome depends on it. */
  lemma {:induction false} BuiltIs(c: Crypto, head: Entry, command: AppendCommand, receipt: Json)
    requires BuiltOn(c, head, command, receipt).Made?
    ensures var e := BuiltOn(c, head, command, receipt).entry;
            && e.ledgerId == head.ledgerId && e.entryId == command.entryId && e.idempotencyKey == Some(command.idempotencyKey)
            && e.sequence == head.sequence + 1 && e.previousEntryHash == c.sha256(SignedText(head))
            && e.occurredAt == command.now && e.recordedAt == command.now && e.actor == command.actor
            && e.schemaVersion == Lit("1.0")
            && e.payload == Some(Obj([
                 Member(Lit("receiptId"), Str(command.idempotencyKey)), Member(Lit("receipt"), receipt)]))
            && SameReceipt(c, e, command.idempotencyKey, receipt)
            && (match command.signing
                case HashOnly => e.signerKeyId == Lit("hash-only") && e.signature.None? && e.signerPublicKey.None?
                case Signed(privateKey, keyId) =>
                  && e.signerKeyId == keyId && e.signerPublicKey == Some(c.publicKey(privateKey))
                  && e.signature == Some(c.sign(privateKey, SignedText(e))))
  {
    SignedTextIs(head);
    SignedTextIs(CreateLedgerEntry(c, AppendInput(head, command, receipt)).entry);
    var fs := ReceiptFields(command.idempotencyKey, receipt, None);
    var none: seq<Field> := [];
    assert fs[1..][1..][1..] == none;
    assert Compact(fs) ==
      [Member(Lit("receiptId"), Str(command.idempotencyKey)), Member(Lit("receipt"), receipt)] by {
      assert Compact(fs[1..][1..]) == Compact(none);
    }
  }

  lemma {:induction false} SameContentIff(c: Crypto, e: Entry, f: Entry, key: Text, receipt: Json)
    requires SameReceipt(c, e, key, receipt)
    ensures AppendProtocol.SameTypeAndHashes(e, f) <==> SameReceipt(c, f, key, receipt)
  {
  }

  lemma {:induction false} AppendOnOutcomes(c: Crypto, es: seq<Entry>, command: AppendCommand, receipt: Json)
    requires es != [] && (|es| == 1 ==> es[0].entryType == Lit("GENESIS"))
    ensures var outcome, key := AppendOn(c, es, command, receipt), command.idempotencyKey;
            && (forall i :: KeyHeld(es, key, i) && (forall j :: 0 <= j < i ==> !KeyHeld(es, key, j)) ==>
                  outcome == NoWrite(if SameReceipt(c, es[i], key, receipt) then 0 else 1))
            && ((forall i :: !KeyHeld(es, key, i)) && IdHeld(es, command.entryId) ==> outcome == NoWrite(1))
            && ((forall i :: !KeyHeld(es, key, i)) && !IdHeld(es, command.entryId) ==>
                  outcome == Wrote(BuiltOn(c, es[|es| - 1], command, receipt).entry))
  {
    var head, key := es[|es| - 1], command.idempotencyKey;
    AppendOnIs(c, es, command, receipt);
    BuiltIs(c, head, command, receipt);
    SignedTextIs(head);
    var e := BuiltOn(c, head, command, receipt).entry;
    var request := RequestFor(c, head, e);
    forall i ensures AppendProtocol.KeyAt(es, request, i) <==> KeyHeld(es, key, i) {
    }
    AppendProtocol.AppendedIff(c, es, request);
    forall i | KeyHeld(es, key, i) && (forall j :: 0 <= j < i ==> !KeyHeld(es, key, j))
      ensures AppendOn(c, es, command, receipt) == NoWrite(if SameReceipt(c, es[i], key, receipt) then 0 else 1)
    {
      AppendProtocol.DuplicateOf(c, es, request, i);
      SameContentIff(c, e, es[i], key, receipt);
    }
    if (forall i :: !KeyHeld(es, key, i)) && IdHeld(es, command.entryId) {
      var i := FirstId(es, command.entryId);
      AppendProtocol.DuplicateOf(c, es, request, i);
    }
  }

  lemma {:induction false} FirstId(es: seq<Entry>, entryId: Text) returns (i: nat)
    requires IdHeld(es, entryId)
    ensures i < |es| && es[i].entryId == entryId && forall j :: 0 <= j < i ==> es[j].entryId != entryId
  {
    i := 0;
    while es[i].entryId != entryId
      invariant i < |es| && forall j :: 0 <= j < i ==> es[j].entryId != entryId
      decreases |es| - i
    {
      var k :| 0 <= k < |es| && es[k].entryId == entryId;
      i := i + 1;
    }
  }

  /** The file is a valid ledger with entries, and the receipt is JSON. */
  ghost predicate Ready(c: Crypto, content: Text, command: AppendCommand) {
    && Valid(c, LinesIn(content), None) && Entries(LinesIn(content)) != []
    && command.receiptText.Some? && Parse(command.receiptText.value).Some?
  }

  /** A file that is no valid ledger with entries, or a receipt that is not JSON: exit 1, and nothing is written. */
  lemma {:induction false} NotReady(c: Crypto, content: Text, command: AppendCommand)
    requires !Ready(c, content, command)
    ensures var outcome := AppendOutcome(c, Some(content), command);
            ExitCode(outcome) == 1 && FileAfter(Some(content), outcome) == Some(content)
  {
  }

  lemma {:induction false} NoFile(c: Crypto, command: AppendCommand)
    ensures var outcome := AppendOutcome(c, None, command);
            ExitCode(outcome) == 1 && FileAfter(None, outcome) == None
  {
  }

  lemma {:induction false} ReadyOutcome(c: Crypto, content: Text, command: AppendCommand)
    requires Ready(c, content, command)
    ensures var es := Entries(LinesIn(content));
            && AppendOutcome(c, Some(content), command) == AppendOn(c, es, command, Parse(command.receiptText.value).value)
            && es[0].entryType == Lit("GENESIS")
  {
    NotEmptyLines(LinesIn(content));
    GenesisComesFirst(c, LinesIn(content));
    OutcomeOnValid(c, content, command, Parse(command.receiptText.value).value);
  }

  lemma {:induction false} NotEmptyLines(lines: seq<Text>)
    requires Entries(lines) != []
    ensures lines != []
  {
  }

  /** A recorded key: exit 0 if it was recorded with this receipt and exit 1 if not, and nothing is written. */
  lemma {:induction false} RecordedKey(c: Crypto, content: Text, command: AppendCommand, i: nat)
    requires Ready(c, content, command)
    requires var es := Entries(LinesIn(content));
             && KeyHeld(es, command.idempotencyKey, i)
             && forall j :: 0 <= j < i ==> !KeyHeld(es, command.idempotencyKey, j)
    ensures var outcome := AppendOutcome(c, Some(content), command);
            var f, receipt := Entries(LinesIn(content))[i], Parse(command.receiptText.value).value;
            && ExitCode(outcome) == (if SameReceipt(c, f, command.idempotencyKey, receipt) then 0 else 1)
            && FileAfter(Some(content), outcome) == Some(content)
  {
    ReadyOutcome(c, content, command);
    AppendOnOutcomes(c, Entries(LinesIn(content)), command, Parse(command.receiptText.value).value);
  }

  /** A new key with a recorded entry id: exit 1, and nothing is written. */
  lemma {:induction false} RecordedId(c: Crypto, content: Text, command: AppendCommand)
    requires Ready(c, content, command)
    requires var es := Entries(LinesIn(content));
             && (forall i :: !KeyHeld(es, command.idempotencyKey, i))
             && IdHeld(es, command.entryId)
    ensures var outcome := AppendOutcome(c, Some(content), command);
            ExitCode(outcome) == 1 && FileAfter(Some(content), outcome) == Some(content)
  {
    ReadyOutcome(c, content, command);
    AppendOnOutcomes(c, Entries(LinesIn(content)), command, Parse(command.receiptText.value).value);
  }

  /** A new key and a new id: exit 0, and the file holds one more line, that of the entry built on the last one. */
  lemma {:induction false} NewIsAppended(c: Crypto, content: Text, command: AppendCommand)
    requires Ready(c, content, command)
    requires var es := Entries(LinesIn(content));
             && (forall i :: !KeyHeld(es, command.idempotencyKey, i))
             && !IdHeld(es, command.entryId)
    ensures var outcome := AppendOutcome(c, Some(content), command);
            var es, receipt := Entries(LinesIn(content)), Parse(command.receiptText.value).value;
            && outcome == Wrote(BuiltOn(c, es[|es| - 1], command, receipt).entry)
            && ExitCode(outcome) == 0
            && FileAfter(Some(content), outcome) == Some(content + EntryLine(outcome.entry) + [NEWLINE])
  {
    ReadyOutcome(c, content, command);
    AppendOnOutcomes(c, Entries(LinesIn(content)), command, Parse(command.receiptText.value).value);
  }

  lemma {:induction false} FirstKey(es: seq<Entry>, key: Text, i: nat) returns (k: nat)
    requires KeyHeld(es, key, i)
    ensures k <= i && KeyHeld(es, key, k) && forall j :: 0 <= j < k ==> !KeyHeld(es, key, j)
  {
    k := 0;
    while !KeyHeld(es, key, k)
      invariant k <= i && forall j :: 0 <= j < k ==> !KeyHeld(es, key, j)
      decreases i - k
    {
      k := k + 1;
    }
  }

  /** Exit 0 means one more line, or a key that is recorded with this receipt; a writing append had a new key. */
  lemma {:induction false} ExitZeroIff(c: Crypto, content: Text, command: AppendCommand)
    ensures var outcome := AppendOutcome(c, Some(content), command);
            var es, key := Entries(LinesIn(content)), command.idempotencyKey;
            && (outcome.Wrote? ==>
                  && Ready(c, content, command)
                  && (forall i :: !KeyHeld(es, key, i))
                  && outcome.entry == BuiltOn(c, es[|es| - 1], command, Parse(command.receiptText.value).value).entry)
            && (ExitCode(outcome) == 0 && !outcome.Wrote? ==>
                  && Ready(c, content, command)
                  && exists i :: KeyHeld(es, key, i) && SameReceipt(c, es[i], key, Parse(command.receiptText.value).value))
  {
    var es, key := Entries(LinesIn(content)), command.idempotencyKey;
    if !Ready(c, content, command) {
      NotReady(c, content, command);
    } else if i: nat :| KeyHeld(es, key, i) {
      var k := FirstKey(es, key, i);
      RecordedKey(c, content, command, k);
    } else {
      forall i ensures !KeyHeld(es, key, i) {
      }
      if IdHeld(es, command.entryId) {
        RecordedId(c, content, command);
      } else {
        NewIsAppended(c, content, command);
      }
    }
  }

  // ---------- Runs ----------

  /** No key is recorded twice in one ledger. */
  ghost predicate KeysOnce(es: seq<Entry>) {
    forall i, j :: 0 <= i < j < |es| && es[i].ledgerId == es[j].ledgerId && es[i].idempotencyKey.Some? ==>
      es[i].idempotencyKey != es[j].idempotencyKey
  }

  lemma {:induction false} AppendKeepsKeysOnce(c: Crypto, w: World, append: AppendCommand)
    requires Consistent(w) && w.file.Some? && KeysOnce(w.accepted)
    requires AppendOutcome(c, w.file, append).Wrote?
    ensures KeysOnce(w.accepted + [AppendOutcome(c, w.file, append).entry])
  {
    var es := Entries(LinesIn(w.file.value));
    ExitZeroIff(c, w.file.value, append);
    var head := es[|es| - 1];
    BuiltIs(c, head, append, Parse(append.receiptText.value).value);
    assert |es| == |w.accepted|;
    forall i | 0 <= i < |es|
      ensures w.accepted[i].ledgerId != head.ledgerId || w.accepted[i].idempotencyKey != Some(append.idempotencyKey)
    {
      assert !KeyHeld(es, append.idempotencyKey, i);
      assert es[i] == NormEntry(w.accepted[i]);
    }
  }

  lemma {:induction false} KeysOnceInRuns(c: Crypto, commands: seq<Command>)
    ensures Consistent(After(c, commands)) && KeysOnce(After(c, commands).accepted)
  {
    FileHoldsAccepted(c, commands);
    if commands != [] {
      var init, command := commands[..|commands| - 1], commands[|commands| - 1];
      KeysOnceInRuns(c, init);
      if command.Append? && OutcomeOf(c, After(c, init).file, command).Wrote? {
        AppendKeepsKeysOnce(c, After(c, init), command.append);
      }
    }
  }

  lemma {:induction false} AcceptedGrows(c: Crypto, before: seq<Command>, more: seq<Command>)
    ensures After(c, before).accepted <= After(c, before + more).accepted
  {
    if more == [] {
      assert before + more == before;
    } else {
      var commands := before + more;
      assert commands[..|commands| - 1] == before + more[..|more| - 1];
      AcceptedGrows(c, before, more[..|more| - 1]);
    }
  }

  /** The entry that an append wrote is held at its place ever after. */
  lemma {:induction false} WrittenIsHeld(c: Crypto, before: seq<Command>, first: AppendCommand, between: seq<Command>)
    requires OutcomeOf(c, After(c, before).file, Append(first)).Wrote?
    ensures var n := |After(c, before).accepted|;
            var later := After(c, before + [Append(first)] + between);
            && n < |later.accepted|
            && later.accepted[n] == OutcomeOf(c, After(c, before).file, Append(first)).entry
  {
    var now := before + [Append(first)];
    assert now[..|before|] == before;
    AcceptedGrows(c, now, between);
  }

  /** What the entry of a written append holds. */
  lemma {:induction false} WrittenHolds(c: Crypto, content: Text, first: AppendCommand)
    requires AppendOutcome(c, Some(content), first).Wrote?
    ensures var e := AppendOutcome(c, Some(content), first).entry;
            && e.idempotencyKey == Some(first.idempotencyKey)
            && Parse(first.receiptText.value).Some?
            && SameReceipt(c, e, first.idempotencyKey, Parse(first.receiptText.value).value)
  {
    ExitZeroIff(c, content, first);
    var es := Entries(LinesIn(content));
    BuiltIs(c, es[|es| - 1], first, Parse(first.receiptText.value).value);
  }

  /**
   * After an append that wrote, a later append with its key writes nothing as long as the file is a
   * valid ledger: it exits 0 if the receipt has the content that was recorded, and 1 if not.
   */
  lemma {:induction false} RepeatedKeyInRuns(
    c: Crypto, before: seq<Command>, first: AppendCommand, between: seq<Command>, again: AppendCommand)
    requires var w := After(c, before); w.file.Some? && OutcomeOf(c, w.file, Append(first)).Wrote?
    requires again.idempotencyKey == first.idempotencyKey
    requires again.receiptText.Some? && Parse(again.receiptText.value).Some?
    requires var later := After(c, before + [Append(first)] + between).file;
             later.Some? && Valid(c, LinesIn(later.value), None)
    ensures var recorded := OutcomeOf(c, After(c, before).file, Append(first)).entry;
            var later := After(c, before + [Append(first)] + between).file;
            var outcome := OutcomeOf(c, later, Append(again));
            && ExitCode(outcome) ==
                 (if SameReceipt(c, recorded, first.idempotencyKey, Parse(again.receiptText.value).value) then 0 else 1)
            && FileAfter(later, outcome) == later
  {
    var n := |After(c, before).accepted|;
    var commands := before + [Append(first)] + between;
    var later := After(c, commands);
    KeysOnceInRuns(c, commands);
    WrittenIsHeld(c, before, first, between);
    WrittenHolds(c, After(c, before).file.value, first);
    HeldIsRepeated(c, later, n, again);
  }

  lemma {:induction false} HeldIsRepeated(c: Crypto, w: World, n: nat, again: AppendCommand)
    requires Consistent(w) && w.file.Some? && KeysOnce(w.accepted) && Valid(c, LinesIn(w.file.value), None)
    requires n < |w.accepted| && w.accepted[n].idempotencyKey == Some(again.idempotencyKey)
    requires again.receiptText.Some? && Parse(again.receiptText.value).Some?
    ensures var outcome := AppendOutcome(c, w.file, again);
            && ExitCode(outcome) ==
                 (if SameReceipt(c, w.accepted[n], again.idempotencyKey, Parse(again.receiptText.value).value) then 0 else 1)
            && FileAfter(w.file, outcome) == w.file
  {
    HeldFirst(c, w, n, again.idempotencyKey);
    RecordedKey(c, w.file.value, again, n);
  }

  lemma {:induction false} HeldFirst(c: Crypto, w: World, n: nat, key: Text)
    requires Consistent(w) && w.file.Some? && KeysOnce(w.accepted) && Valid(c, LinesIn(w.file.value), None)
    requires n < |w.accepted| && w.accepted[n].idempotencyKey == Some(key)
    ensures var es := Entries(LinesIn(w.file.value));
            && |es| == |w.accepted| && es[n] == NormEntry(w.accepted[n])
            && KeyHeld(es, key, n) && forall j :: 0 <= j < n ==> !KeyHeld(es, key, j)
  {
    OneLedger(c, LinesIn(w.file.value), n);
    FirstHeld(w.accepted, n, key);
  }

  lemma {:induction false} FirstHeld(accepted: seq<Entry>, n: nat, key: Text)
    requires KeysOnce(accepted) && n < |accepted| && accepted[n].idempotencyKey == Some(key)
    requires NormAll(accepted)[n].ledgerId == NormAll(accepted)[|accepted| - 1].ledgerId
    ensures KeyHeld(NormAll(accepted), key, n)
    ensures forall j :: 0 <= j < n ==> !KeyHeld(NormAll(accepted), key, j)
  {
    assert forall i :: 0 <= i < |accepted| ==> NormAll(accepted)[i] == NormEntry(accepted[i]);
  }

  lemma {:induction false} EntriesAreGood(c: Crypto, lines: seq<Text>) returns (es: seq<Entry>)
    requires Valid(c, lines, None)
    ensures es == Entries(lines) && GoodChain(c, es, None)
  {
    es := ReadAll(lines);
    ValidByReading(c, lines, None);
    EntriesAreRead(lines);
  }

  lemma {:induction false} OneLedger(c: Crypto, lines: seq<Text>, n: nat)
    requires Valid(c, lines, None) && n < |Entries(lines)|
    ensures var es := Entries(lines); es[n].ledgerId == es[|es| - 1].ledgerId
  {
    var es := EntriesAreGood(c, lines);
    OneLedgerId(c, es, n);
  }

  lemma {:induction false} OneLedgerId(c: Crypto, es: seq<Entry>, n: nat)
    requires GoodChain(c, es, None) && n < |es|
    ensures es[n].ledgerId == es[|es| - 1].ledgerId
  {
    LedgerIdIs(c, es, n);
    LedgerIdIs(c, es, |es| - 1);
  }

  lemma {:induction false} LedgerIdIs(c: Crypto, es: seq<Entry>, n: nat)
    requires GoodChain(c, es, None) && n < |es|
    ensures es[n].ledgerId == es[0].ledgerId
  {
    assert LocalOk(c, es, n, None);
  }

  /** The same command again, at any later time: exit 0, and the file stays as it is. */
  lemma {:induction false} ReplayExitsZero(
    c: Crypto, before: seq<Command>, first: AppendCommand, between: seq<Command>, again: AppendCommand)
    requires var w := After(c, before); w.file.Some? && OutcomeOf(c, w.file, Append(first)).Wrote?
    requires again.idempotencyKey == first.idempotencyKey && again.receiptText == first.receiptText
    requires var later := After(c, before + [Append(first)] + between).file;
             later.Some? && Valid(c, LinesIn(later.value), None)
    ensures var later := After(c, before + [Append(first)] + between).file;
            var outcome := OutcomeOf(c, later, Append(again));
            ExitCode(outcome) == 0 && FileAfter(later, outcome) == later
  {
    WrittenHolds(c, After(c, before).file.value, first);
    RepeatedKeyInRuns(c, before, first, between, again);
  }
}
