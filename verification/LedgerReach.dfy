/** Everything the builders can reach, the validator accepts, and exactly when. */
module LedgerReach {
  import opened Wrappers
  import opened JsText
  import opened Json
  import opened LedgerEntry
  import opened LedgerBuild
  import opened LedgerShape
  import opened Validator
  import opened LedgerChain

  /** An optional private key, with the id it is known by. */
  datatype Signing = HashOnly | Signed(privateKey: Text, keyId: Text)

  function Finish(c: Crypto, e: Entry, signing: Signing): Entry {
    match signing
    case HashOnly => e
    case Signed(privateKey, keyId) => SignEntry(c, e, privateKey, keyId)
  }

  // ---------- Genesis ----------

  ghost predicate GenesisInputOk(input: GenesisInput) {
    && input.entryId != [] && input.ledgerId != [] && input.occurredAt != [] && input.recordedAt != [] && input.actor != []
    && input.schemaVersion.GetOr(SCHEMA_VERSION) == SCHEMA_VERSION
    && input.manifest.Obj?
    && forall i :: 0 <= i < |MANIFEST_KEYS| ==> Get(input.manifest.members, MANIFEST_KEYS[i]).Some?
  }

  lemma {:induction false} ConstantsNotEmpty(c: Crypto)
    requires Sound(c)
    ensures EmptyHash(c) != [] && SCHEMA_VERSION != [] && HASH_ONLY != []
    ensures forall t: Text {:trigger c.sha256(t)} :: c.sha256(t) != []
  {
  }

  /** A genesis entry starts a valid ledger exactly when its manifest is complete and its texts are not empty. */
  lemma {:induction false} GenesisLocal(c: Crypto, input: GenesisInput, trust: TrustRoot)
    requires Sound(c) && Wf(input.manifest)
    ensures LocalOk(c, [CreateGenesisEntry(c, input)], 0, trust) <==> GenesisInputOk(input)
  {
  }

  lemma {:induction false} GenesisShape(c: Crypto, input: GenesisInput)
    requires Sound(c) && Wf(input.manifest)
    ensures FormOk(CreateGenesisEntry(c, input)) <==>
              && input.entryId != [] && input.ledgerId != [] && input.occurredAt != [] && input.recordedAt != []
              && input.actor != [] && input.schemaVersion.GetOr(SCHEMA_VERSION) == SCHEMA_VERSION
              && input.manifest.Obj?
  {
  }

  lemma {:induction false} GenesisValidIff(c: Crypto, input: GenesisInput, trust: TrustRoot)
    requires Sound(c) && Wf(input.manifest)
    ensures Valid(c, [EntryLine(CreateGenesisEntry(c, input))], trust) <==> GenesisInputOk(input)
  {
    var e := CreateGenesisEntry(c, input);
    GenesisLocal(c, input, trust);
    AppendEntryLocal(c, [], [], e, trust);
    assert [] + [e] == [e] && [] + [EntryLine(e)] == [EntryLine(e)];
  }

  // ---------- The next entry ----------

  ghost predicate InputWf(input: EntryInput) {
    && (input.payload.Some? ==> Wf(Obj(input.payload.value)))
    && (input.receipt.Some? ==> Wf(input.receipt.value))
  }

  predicate KeyIdNotEmpty(signing: Signing) {
    signing.Signed? ==> signing.keyId != []
  }

  ghost predicate FormInputOk(input: EntryInput, signing: Signing) {
    && input.entryId != [] && input.ledgerId != [] && input.occurredAt != [] && input.recordedAt != []
    && input.actor != []
    && input.schemaVersion.GetOr(SCHEMA_VERSION) == SCHEMA_VERSION
    && KeyIdNotEmpty(signing)
  }

  ghost predicate RulesInputOk(genesis: Entry, input: EntryInput, signing: Signing, trust: TrustRoot) {
    && input.ledgerId == genesis.ledgerId
    && (input.entryType == RECEIPT_RECORDED ==>
          input.receiptId != Some([]) && input.receipt.Some? && (input.receipt.value.Obj? || input.receipt.value.Null?))
    && KeyOk(genesis, signing, trust)
  }

  /** What a caller can check before building on a chain. */
  ghost predicate NextInputOk(es: seq<Entry>, input: EntryInput, signing: Signing, trust: TrustRoot)
    requires es != []
  {
    FormInputOk(input, signing) && RulesInputOk(es[0], input, signing, trust)
  }

  ghost predicate KeyOk(genesis: Entry, signing: Signing, trust: TrustRoot) {
    match signing
    case HashOnly => true
    case Signed(_, keyId) =>
      && keyId != [] && keyId != HASH_ONLY
      && !NotInGenesisRoot(genesis, keyId)
      && (trust.Some? ==> keyId in trust.value)
  }

  /** The entry that a step builds on the head of a chain. */
  function BuildNext(c: Crypto, es: seq<Entry>, input: EntryInput, signing: Signing): Built
    requires es != []
  {
    match CreateLedgerEntry(c, input.(head := Some(es[|es| - 1])))
    case Throws(error) => Throws(error)
    case Made(e) => Made(Finish(c, e, signing))
  }

  lemma {:induction false} ReceiptNames(receiptId: Text, receipt: Json, receiptPath: Option<Text>)
    ensures var fs := ReceiptFields(receiptId, receipt, receiptPath);
            && Distinct(Names(fs))
            && Get(Compact(fs), Lit("receiptId")) == Some(Str(receiptId))
            && Get(Compact(fs), Lit("receipt")) == Some(receipt)
  {
  }

  lemma {:induction false} ReceiptPayloadWf(receiptId: Text, receipt: Json, receiptPath: Option<Text>)
    requires Wf(receipt)
    ensures Wf(Obj(Compact(ReceiptFields(receiptId, receipt, receiptPath))))
    ensures Compact(ReceiptFields(receiptId, receipt, receiptPath)) != []
  {
    var fs := ReceiptFields(receiptId, receipt, receiptPath);
    ReceiptNames(receiptId, receipt, receiptPath);
    CompactWf(fs);
    CompactGet(fs, 0);
  }

  lemma {:induction false} ReceiptBinds(c: Crypto, e: Entry, input: EntryInput)
    requires input.receipt.Some? && input.receiptId.Some?
    requires e.receiptHash == c.sha256(Stringify(input.receipt.value))
    requires e.payload == Some(Obj(Compact(ReceiptFields(input.receiptId.value, input.receipt.value, input.receiptPath))))
    ensures ReceiptOk(c, e) <==> input.receiptId != Some([]) && IsObjectOrNull(input.receipt.value)
  {
    ReceiptNames(input.receiptId.value, input.receipt.value, input.receiptPath);
  }

  /** The payload of a built entry binds to its hash, and a receipt to both. */
  lemma {:induction false} BuiltPayload(c: Crypto, input: EntryInput)
    requires Sound(c) && InputWf(input) && CreateLedgerEntry(c, input).Made?
    ensures var e := CreateLedgerEntry(c, input).entry;
            && PayloadWf(e) && (e.payload.Some? ==> e.payload.value.Obj?)
            && e.payloadHash == c.sha256(PayloadText(e))
            && (input.entryType == RECEIPT_RECORDED ==>
                  (ReceiptOk(c, e) <==>
                     input.receiptId != Some([]) && (input.receipt.value.Obj? || input.receipt.value.Null?)))
  {
    if input.entryType == RECEIPT_RECORDED {
      ReceiptPayloadWf(input.receiptId.value, input.receipt.value, input.receiptPath);
      ReceiptBinds(c, CreateLedgerEntry(c, input).entry, input);
    }
    EmptyObjectText();
  }

  /** Finishing an entry changes only what signs it. */
  lemma {:induction false} Finished(c: Crypto, e: Entry, signing: Signing)
    requires Sound(c)
    ensures var f := Finish(c, e, signing);
            && f == e.(signerKeyId := f.signerKeyId, signature := f.signature, signerPublicKey := f.signerPublicKey)
            && EntryHash(c, f) == EntryHash(c, e) && PayloadText(f) == PayloadText(e)
            && (ReceiptOk(c, f) <==> ReceiptOk(c, e))
  {
  }

  lemma {:induction false} FinishedSignature(c: Crypto, e: Entry, signing: Signing, genesis: Entry, trust: TrustRoot)
    requires Sound(c)
    requires e.signerKeyId == HASH_ONLY && e.signature.None? && e.signerPublicKey.None?
    ensures var f := Finish(c, e, signing);
            && (f.signerKeyId != [] <==> KeyIdNotEmpty(signing))
            && (KeyIdNotEmpty(signing) ==> (SignatureOk(c, f, Some(genesis), trust) <==> KeyOk(genesis, signing, trust)))
  {
  }

  lemma {:induction false} HeadFacts(c: Crypto, es: seq<Entry>, trust: TrustRoot)
    requires es != [] && GoodChain(c, es, trust)
    ensures es[|es| - 1].sequence == |es| && es[0].ledgerId != []
    ensures es[|es| - 1].ledgerId == es[0].ledgerId
  {
    assert LocalOk(c, es, |es| - 1, trust) && LocalOk(c, es, 0, trust);
  }

  lemma {:induction false} EntryTypesNotEmpty(t: Text)
    ensures IsEntryType(t) ==> t != []
  {
  }

  lemma {:induction false} NextForm(c: Crypto, es: seq<Entry>, input: EntryInput, signing: Signing)
    requires Sound(c) && InputWf(input) && es != [] && es[|es| - 1].sequence >= 1
    requires BuildNext(c, es, input, signing).Made?
    ensures PayloadWf(BuildNext(c, es, input, signing).entry)
    ensures FormOk(BuildNext(c, es, input, signing).entry) <==> FormInputOk(input, signing)
  {
    ConstantsNotEmpty(c);
    EntryTypesNotEmpty(input.entryType);
    BuiltPayload(c, input.(head := Some(es[|es| - 1])));
  }

  lemma {:induction false} NextRules(c: Crypto, es: seq<Entry>, input: EntryInput, signing: Signing, trust: TrustRoot)
    requires Sound(c) && InputWf(input) && es != [] && es[|es| - 1].sequence == |es|
    requires BuildNext(c, es, input, signing).Made? && KeyIdNotEmpty(signing)
    requires FindId(es, input.entryId).None?
    ensures RulesOk(c, es + [BuildNext(c, es, input, signing).entry], |es|, trust) <==>
              RulesInputOk(es[0], input, signing, trust)
  {
    var built := input.(head := Some(es[|es| - 1]));
    var e := CreateLedgerEntry(c, built).entry;
    BuiltPayload(c, built);
    Finished(c, e, signing);
    FinishedSignature(c, e, signing, es[0], trust);
    RulesOnTop(c, es, Finish(c, e, signing), trust);
  }

  lemma {:induction false} RulesOnTop(c: Crypto, es: seq<Entry>, f: Entry, trust: TrustRoot)
    requires es != [] && FindId(es, f.entryId).None?
    requires f.previousEntryHash == EntryHash(c, es[|es| - 1]) && f.sequence == |es| + 1
    requires f.payloadHash == c.sha256(PayloadText(f))
    ensures RulesOk(c, es + [f], |es|, trust) <==>
              && f.ledgerId == es[0].ledgerId
              && (f.entryType == RECEIPT_RECORDED ==> ReceiptOk(c, f))
              && SignatureOk(c, f, Some(es[0]), trust)
  {
  }

  /**
   * An entry built on the head of a good chain, signed or not, and not yet in it by its id,
   * passes the local check exactly when the caller's input is in order.
   */
  lemma {:induction false} NextLocal(c: Crypto, es: seq<Entry>, input: EntryInput, signing: Signing, trust: TrustRoot)
    requires Sound(c) && InputWf(input) && es != [] && GoodChain(c, es, trust)
    requires BuildNext(c, es, input, signing).Made?
    requires FindId(es, input.entryId).None?
    ensures PayloadWf(BuildNext(c, es, input, signing).entry)
    ensures LocalOk(c, es + [BuildNext(c, es, input, signing).entry], |es|, trust) <==>
              NextInputOk(es, input, signing, trust)
  {
    HeadFacts(c, es, trust);
    NextForm(c, es, input, signing);
    if KeyIdNotEmpty(signing) {
      NextRules(c, es, input, signing, trust);
    }
  }

  /** The same as a statement about the ledger file. */
  lemma {:induction false} NextValidIff(
    c: Crypto, lines: seq<Text>, es: seq<Entry>, input: EntryInput, signing: Signing, trust: TrustRoot)
    requires Sound(c) && InputWf(input) && es != [] && Stores(lines, es) && GoodChain(c, es, trust)
    requires BuildNext(c, es, input, signing).Made?
    requires FindId(es, input.entryId).None?
    ensures Valid(c, lines + [EntryLine(BuildNext(c, es, input, signing).entry)], trust) <==>
              NextInputOk(es, input, signing, trust)
  {
    NextLocal(c, es, input, signing, trust);
    AppendEntryLocal(c, lines, es, BuildNext(c, es, input, signing).entry, trust);
  }

  // ---------- What was put in is read back ----------

  /** The entry says what its input said, and continues its head. */
  ghost predicate Records(c: Crypto, e: Entry, input: EntryInput, head: Entry) {
    && e.entryId == input.entryId
    && e.ledgerId == input.ledgerId
    && e.entryType == input.entryType
    && e.occurredAt == input.occurredAt
    && e.recordedAt == input.recordedAt
    && e.actor == input.actor
    && e.schemaVersion == (if input.schemaVersion.Some? then input.schemaVersion.value else Lit("1.0"))
    && e.idempotencyKey == input.idempotencyKey
    && e.sequence == head.sequence + 1
    && e.previousEntryHash == c.sha256(SigningString(head))
    && e.receiptHash == c.sha256(if input.receipt.Some? then Stringify(input.receipt.value) else [])
    && e.payloadHash == c.sha256(if e.payload.Some? then Stringify(e.payload.value) else Lit("{}"))
  }

  /** A receipt entry holds receipt, id and path under their names; any other holds the payload it was given. */
  ghost predicate RecordsPayload(e: Entry, input: EntryInput) {
    if input.entryType == RECEIPT_RECORDED then
      && input.receipt.Some? && input.receiptId.Some?
      && PayloadField(e, Lit("receiptId")) == Some(Str(input.receiptId.value))
      && PayloadField(e, Lit("receipt")) == Some(Norm(input.receipt.value))
      && PayloadField(e, Lit("receiptPath")) == OptionalStr(input.receiptPath)
    else
      forall k {:trigger PayloadField(e, k)} :: PayloadField(e, k) == NormOption(Get(input.payload.GetOr([]), k))
  }

  ghost predicate RecordsSigner(c: Crypto, e: Entry, signing: Signing) {
    match signing
    case HashOnly => e.signerKeyId == Lit("hash-only") && e.signature.None? && e.signerPublicKey.None?
    case Signed(privateKey, keyId) =>
      && e.signerKeyId == keyId && e.signerPublicKey == Some(c.publicKey(privateKey))
      && e.signature == Some(c.sign(privateKey, SigningString(e)))
  }

  lemma {:induction false} ReceiptPath(receiptId: Text, receipt: Json, receiptPath: Option<Text>)
    ensures Get(Compact(ReceiptFields(receiptId, receipt, receiptPath)), Lit("receiptPath")) == OptionalStr(receiptPath)
  {
    ReceiptNames(receiptId, receipt, receiptPath);
    CompactGet(ReceiptFields(receiptId, receipt, receiptPath), 2);
  }

  lemma {:induction false} ReceiptRecorded(e: Entry, input: EntryInput)
    requires PayloadWf(e) && input.entryType == RECEIPT_RECORDED && input.receipt.Some? && input.receiptId.Some?
    requires e.payload == Some(Obj(Compact(ReceiptFields(input.receiptId.value, input.receipt.value, input.receiptPath))))
    ensures RecordsPayload(NormEntry(e), input)
  {
    ReceiptNames(input.receiptId.value, input.receipt.value, input.receiptPath);
    ReceiptPath(input.receiptId.value, input.receipt.value, input.receiptPath);
    PayloadFieldNorm(e, Lit("receiptId"));
    PayloadFieldNorm(e, Lit("receipt"));
    PayloadFieldNorm(e, Lit("receiptPath"));
  }

  lemma {:induction false} GivenRecorded(e: Entry, input: EntryInput)
    requires PayloadWf(e) && input.entryType != RECEIPT_RECORDED
    requires var ms := input.payload.GetOr([]); e.payload == if ms == [] then None else Some(Obj(ms))
    ensures RecordsPayload(NormEntry(e), input)
  {
    forall k ensures PayloadField(NormEntry(e), k) == NormOption(Get(input.payload.GetOr([]), k)) {
      PayloadFieldNorm(e, k);
    }
  }

  lemma {:induction false} BuiltRecordsPayload(c: Crypto, input: EntryInput)
    requires Sound(c) && InputWf(input) && CreateLedgerEntry(c, input).Made?
    ensures RecordsPayload(NormEntry(CreateLedgerEntry(c, input).entry), input)
  {
    var e := CreateLedgerEntry(c, input).entry;
    BuiltPayload(c, input);
    if input.entryType == RECEIPT_RECORDED {
      ReceiptPayloadWf(input.receiptId.value, input.receipt.value, input.receiptPath);
      ReceiptRecorded(e, input);
    } else {
      GivenRecorded(e, input);
    }
  }

  lemma {:induction false} FinishedSigner(c: Crypto, e: Entry, signing: Signing)
    requires Sound(c) && PayloadWf(e)
    requires e.signerKeyId == HASH_ONLY && e.signature.None? && e.signerPublicKey.None?
    ensures RecordsSigner(c, NormEntry(Finish(c, e, signing)), signing)
  {
  }

  lemma {:induction false} BuiltRecords(c: Crypto, input: EntryInput, head: Entry)
    requires Sound(c) && InputWf(input) && input.head == Some(head) && CreateLedgerEntry(c, input).Made?
    ensures Records(c, CreateLedgerEntry(c, input).entry, input, head)
  {
    BuiltPayload(c, input);
  }

  lemma {:induction false} FinishedRecords(c: Crypto, e: Entry, signing: Signing, input: EntryInput, head: Entry)
    requires Sound(c) && PayloadWf(e) && Records(c, e, input, head)
    ensures Records(c, NormEntry(Finish(c, e, signing)), input, head)
  {
    TextsNorm(c, Finish(c, e, signing));
  }

  lemma {:induction false} HeadMatters(c: Crypto, e: Entry, built: EntryInput, input: EntryInput, head: Entry)
    requires built == input.(head := built.head) && Records(c, e, built, head)
    ensures Records(c, e, input, head)
  {
  }

  /** Built, signed, printed and read again, an entry gives back all that went in. */
  lemma {:induction false} BuiltReadsBack(c: Crypto, es: seq<Entry>, input: EntryInput, signing: Signing)
    requires Sound(c) && InputWf(input) && es != [] && es[|es| - 1].sequence >= 1
    requires BuildNext(c, es, input, signing).Made? && FormInputOk(input, signing)
    ensures var r := ReadLine(EntryLine(BuildNext(c, es, input, signing).entry));
            && r.Some?
            && Records(c, r.value, input, es[|es| - 1])
            && RecordsPayload(r.value, input)
            && RecordsSigner(c, r.value, signing)
  {
    var head := es[|es| - 1];
    var built := input.(head := Some(head));
    NextForm(c, es, input, signing);
    ReadEntryLine(BuildNext(c, es, input, signing).entry);
    ReadBackAs(c, built, input, head, signing);
  }

  lemma {:induction false} ReadBackAs(c: Crypto, built: EntryInput, input: EntryInput, head: Entry, signing: Signing)
    requires Sound(c) && InputWf(built) && built == input.(head := Some(head)) && CreateLedgerEntry(c, built).Made?
    ensures var e := NormEntry(Finish(c, CreateLedgerEntry(c, built).entry, signing));
            Records(c, e, input, head) && RecordsPayload(e, input) && RecordsSigner(c, e, signing)
  {
    var e := CreateLedgerEntry(c, built).entry;
    BuiltPayload(c, built);
    BuiltRecords(c, built, head);
    FinishedRecords(c, e, signing, built, head);
    HeadMatters(c, NormEntry(Finish(c, e, signing)), built, input, head);
    BuiltRecordsPayload(c, built);
    FinishedSigner(c, e, signing);
    Finished(c, e, signing);
    SamePayload(NormEntry(e), NormEntry(Finish(c, e, signing)), built, input);
  }

  lemma {:induction false} SamePayload(e: Entry, f: Entry, built: EntryInput, input: EntryInput)
    requires e.payload == f.payload && built == input.(head := built.head) && RecordsPayload(e, built)
    ensures RecordsPayload(f, input)
  {
    forall k ensures PayloadField(f, k) == PayloadField(e, k) {
    }
  }

  /** So does a genesis entry. */
  lemma {:induction false} GenesisReadsBack(c: Crypto, input: GenesisInput)
    requires Sound(c) && Wf(input.manifest) && GenesisInputOk(input)
    ensures var r := ReadLine(EntryLine(CreateGenesisEntry(c, input)));
            && r.Some?
            && r.value.entryId == input.entryId && r.value.ledgerId == input.ledgerId
            && r.value.occurredAt == input.occurredAt && r.value.recordedAt == input.recordedAt
            && r.value.actor == input.actor && r.value.entryType == Lit("GENESIS") && r.value.sequence == 1
            && r.value.previousEntryHash == c.sha256([]) && r.value.receiptHash == c.sha256([])
            && r.value.payloadHash == c.sha256(Stringify(input.manifest)) && r.value.schemaVersion == Lit("1.0")
            && r.value.signerKeyId == Lit("hash-only") && r.value.signature.None? && r.value.signerPublicKey.None?
            && r.value.idempotencyKey.None?
            && r.value.payload == Some(Norm(input.manifest))
  {
    GenesisShape(c, input);
    ReadEntryLine(CreateGenesisEntry(c, input));
  }

  // ---------- Whole runs ----------

  datatype Step = Step(input: EntryInput, signing: Signing)

  /** One step of a single writer: build on the head, sign, append; a refused entry changes nothing. */
  function Advance(c: Crypto, es: seq<Entry>, step: Step): seq<Entry>
    requires es != []
  {
    match BuildNext(c, es, step.input, step.signing)
    case Throws(_) => es
    case Made(e) =>
      var head := es[|es| - 1];
      var request := AppendRequest(step.input.ledgerId, EntryHash(c, head), head.sequence + 1, e);
      match AppendEntry(c, request, es)
      case Appended(entry, _) => es + [entry]
      case _ => es
  }

  function Run(c: Crypto, genesis: GenesisInput, steps: seq<Step>): (es: seq<Entry>)
    ensures es != []
  {
    if steps == [] then [CreateGenesisEntry(c, genesis)]
    else Advance(c, Run(c, genesis, steps[..|steps| - 1]), steps[|steps| - 1])
  }

  /** What the caller has to see to over a whole run; all of it can be checked before the run. */
  ghost predicate StepOk(c: Crypto, genesis: GenesisInput, step: Step, trust: TrustRoot) {
    InputWf(step.input) && NextInputOk([CreateGenesisEntry(c, genesis)], step.input, step.signing, trust)
  }

  lemma {:induction false} AdvanceKeepsGenesis(c: Crypto, es: seq<Entry>, step: Step)
    requires es != []
    ensures Advance(c, es, step)[0] == es[0]
    ensures Advance(c, es, step) == es ||
              (&& BuildNext(c, es, step.input, step.signing).Made?
               && Advance(c, es, step) == es + [BuildNext(c, es, step.input, step.signing).entry]
               && FindId(es, step.input.entryId).None?)
  {
  }

  lemma {:induction false} RunIsGood(c: Crypto, genesis: GenesisInput, steps: seq<Step>, trust: TrustRoot)
    requires Sound(c) && Wf(genesis.manifest) && GenesisInputOk(genesis)
    requires forall i :: 0 <= i < |steps| ==> StepOk(c, genesis, steps[i], trust)
    ensures Run(c, genesis, steps)[0] == CreateGenesisEntry(c, genesis)
    ensures GoodChain(c, Run(c, genesis, steps), trust)
  {
    if steps == [] {
      GenesisLocal(c, genesis, trust);
    } else {
      var init, last := steps[..|steps| - 1], steps[|steps| - 1];
      RunIsGood(c, genesis, init, trust);
      AdvanceIsGood(c, Run(c, genesis, init), last, trust);
    }
  }

  lemma {:induction false} AdvanceIsGood(c: Crypto, es: seq<Entry>, step: Step, trust: TrustRoot)
    requires Sound(c) && es != [] && GoodChain(c, es, trust)
    requires InputWf(step.input) && NextInputOk(es, step.input, step.signing, trust)
    ensures GoodChain(c, Advance(c, es, step), trust)
    ensures Advance(c, es, step)[0] == es[0]
  {
    AdvanceKeepsGenesis(c, es, step);
    if Advance(c, es, step) != es {
      NextLocal(c, es, step.input, step.signing, trust);
      GoodSplit(c, es, BuildNext(c, es, step.input, step.signing).entry, trust);
    }
  }

  function LinesOf(es: seq<Entry>): (lines: seq<Text>)
    ensures |lines| == |es|
  {
    seq(|es|, i requires 0 <= i < |es| => EntryLine(es[i]))
  }

  /** Every ledger that can be built this way is reported valid, with the hash of its last entry. */
  lemma {:induction false} EveryRunIsValid(c: Crypto, genesis: GenesisInput, steps: seq<Step>, trust: TrustRoot)
    requires Sound(c) && Wf(genesis.manifest) && GenesisInputOk(genesis)
    requires forall i :: 0 <= i < |steps| ==> StepOk(c, genesis, steps[i], trust)
    ensures var es := Run(c, genesis, steps);
            && Valid(c, LinesOf(es), trust)
            && ReportOf(c, LinesOf(es), trust).headHash == Some(EntryHash(c, es[|es| - 1]))
  {
    var es := Run(c, genesis, steps);
    RunIsGood(c, genesis, steps, trust);
    GoodIsStored(c, es, trust);
    StoredIsValid(c, LinesOf(es), es, trust);
  }

  lemma {:induction false} GoodIsStored(c: Crypto, es: seq<Entry>, trust: TrustRoot)
    requires GoodChain(c, es, trust)
    ensures Stores(LinesOf(es), es)
  {
    forall i | 0 <= i < |es| ensures PayloadWf(es[i]) {
      assert LocalOk(c, es, i, trust);
    }
  }
}
