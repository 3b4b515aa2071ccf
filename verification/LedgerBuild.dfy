/** Building, signing and appending ledger entries. */
module LedgerBuild {
  import opened Wrappers
  import opened JsText
  import opened Json
  import opened LedgerEntry

  datatype GenesisInput = GenesisInput(
    ledgerId: Text,
    manifest: Json,
    actor: Text,
    occurredAt: Text,
    recordedAt: Text,
    entryId: Text,
    schemaVersion: Option<Text>)

  function CreateGenesisEntry(c: Crypto, input: GenesisInput): Entry {
    Entry(
      input.entryId,
      input.ledgerId,
      1,
      GENESIS,
      EmptyHash(c),
      c.sha256(Stringify(input.manifest)),
      EmptyHash(c),
      input.occurredAt,
      input.recordedAt,
      input.actor,
      input.schemaVersion.GetOr(SCHEMA_VERSION),
      HASH_ONLY,
      None,
      None,
      None,
      Some(input.manifest))
  }

  datatype EntryInput = EntryInput(
    ledgerId: Text,
    entryType: Text,
    actor: Text,
    occurredAt: Text,
    recordedAt: Text,
    entryId: Text,
    schemaVersion: Option<Text>,
    head: Option<Entry>,
    payload: Option<seq<Member>>,
    receipt: Option<Json>,
    receiptId: Option<Text>,
    receiptPath: Option<Text>,
    idempotencyKey: Option<Text>)

  /** The `TypeError`s that the builder throws. */
  datatype BuildError = UnsupportedEntryType | MissingReceipt | MissingReceiptId

  datatype Built = Made(entry: Entry) | Throws(error: BuildError)

  datatype BuiltPayload = Payload(members: seq<Member>) | PayloadThrows(error: BuildError)

  function ReceiptFields(receiptId: Text, receipt: Json, receiptPath: Option<Text>): seq<Field> {
    [ Field(Lit("receiptId"), Some(Str(receiptId))),
      Field(Lit("receipt"), Some(receipt)),
      Field(Lit("receiptPath"), OptionalStr(receiptPath)) ]
  }

  function BuildReceiptPayload(input: EntryInput): BuiltPayload {
    if input.receipt.None? then PayloadThrows(MissingReceipt)
    else if input.receiptId.None? then PayloadThrows(MissingReceiptId)
    else Payload(Compact(ReceiptFields(input.receiptId.value, input.receipt.value, input.receiptPath)))
  }

  function BuildPayload(input: EntryInput): BuiltPayload {
    if input.entryType == RECEIPT_RECORDED then BuildReceiptPayload(input) else Payload(input.payload.GetOr([]))
  }

  function CreateLedgerEntry(c: Crypto, input: EntryInput): Built {
    if !IsEntryType(input.entryType) then Throws(UnsupportedEntryType)
    else
      match BuildPayload(input)
      case PayloadThrows(error) => Throws(error)
      case Payload(members) =>
        Made(Entry(
          input.entryId,
          input.ledgerId,
          if input.head.None? then 1 else input.head.value.sequence + 1,
          input.entryType,
          if input.head.None? then EmptyHash(c) else EntryHash(c, input.head.value),
          c.sha256(Stringify(Obj(members))),
          if input.receipt.None? then EmptyHash(c) else c.sha256(Stringify(input.receipt.value)),
          input.occurredAt,
          input.recordedAt,
          input.actor,
          input.schemaVersion.GetOr(SCHEMA_VERSION),
          HASH_ONLY,
          None,
          None,
          input.idempotencyKey,
          if members == [] then None else Some(Obj(members))))
  }

  function SignEntry(c: Crypto, e: Entry, privateKey: Text, keyId: Text): Entry {
    e.(signerKeyId := keyId,
       signerPublicKey := Some(c.publicKey(privateKey)),
       signature := Some(c.sign(privateKey, SigningString(e))))
  }

  function VerifyEntrySignature(c: Crypto, e: Entry): bool {
    e.signature.Some? && e.signerPublicKey.Some?
      && c.verify(e.signerPublicKey.value, SigningString(e), e.signature.value)
  }

  /** Signing changes neither the text that is hashed nor the hash, and the signature verifies. */
  lemma {:induction false} SigningKeepsHash(c: Crypto, e: Entry, privateKey: Text, keyId: Text)
    requires Sound(c)
    ensures SigningString(SignEntry(c, e, privateKey, keyId)) == SigningString(e)
    ensures EntryHash(c, SignEntry(c, e, privateKey, keyId)) == EntryHash(c, e)
    ensures VerifyEntrySignature(c, SignEntry(c, e, privateKey, keyId))
  {
  }

  // ---------- Optimistic append ----------

  datatype AppendRequest = AppendRequest(
    ledgerId: Text,
    expectedHeadHash: Text,
    expectedSequence: int,
    entry: Entry)

  datatype DuplicateReason = IdempotencyReplay | IdempotencyConflict | EntryIdExists

  datatype ChainFault = NoGenesis | FirstIsNotGenesis

  datatype AppendResult =
    | Appended(entry: Entry, entryHash: Text)
    | HeadConflict(expectedHeadHash: Text, actualHeadHash: Text, expectedSequence: int, actualSequence: int)
    | Duplicate(reason: DuplicateReason, existingEntry: Entry)
    | InvalidChain(fault: ChainFault)

  /** `chain.find(...)` for an idempotency key. */
  function FindKey(chain: seq<Entry>, ledgerId: Text, key: Text): (r: Option<Entry>)
    ensures r.None? <==> forall i :: 0 <= i < |chain| ==> !HoldsKey(chain[i], ledgerId, key)
    ensures r.Some? ==> exists i :: FirstAt(chain, i, ledgerId, key) && r.value == chain[i]
  {
    if chain == [] then None
    else if HoldsKey(chain[0], ledgerId, key) then
      assert FirstAt(chain, 0, ledgerId, key);
      Some(chain[0])
    else
      var r := FindKey(chain[1..], ledgerId, key);
      assert forall i :: 0 <= i < |chain[1..]| ==> chain[1..][i] == chain[i + 1];
      assert r.None? ==> forall i :: 0 < i < |chain| ==> chain[i] == chain[1..][i - 1];
      assert r.Some? ==> exists i :: FirstAt(chain, i, ledgerId, key) && r.value == chain[i] by {
        if r.Some? {
          var i :| FirstAt(chain[1..], i, ledgerId, key) && r.value == chain[1..][i];
          assert forall j :: 0 < j < i + 1 ==> chain[j] == chain[1..][j - 1];
          assert FirstAt(chain, i + 1, ledgerId, key);
        }
      }
      r
  }

  predicate HoldsKey(e: Entry, ledgerId: Text, key: Text) {
    e.ledgerId == ledgerId && e.idempotencyKey == Some(key)
  }

  ghost predicate FirstAt(chain: seq<Entry>, i: int, ledgerId: Text, key: Text) {
    && 0 <= i < |chain|
    && HoldsKey(chain[i], ledgerId, key)
    && forall j :: 0 <= j < i ==> !HoldsKey(chain[j], ledgerId, key)
  }

  /** `chain.find(...)` for an entry id. */
  function FindId(chain: seq<Entry>, entryId: Text): (r: Option<Entry>)
    ensures r.None? <==> forall i :: 0 <= i < |chain| ==> chain[i].entryId != entryId
    ensures r.Some? ==> r.value in chain && r.value.entryId == entryId
  {
    if chain == [] then None
    else if chain[0].entryId == entryId then Some(chain[0])
    else
      assert chain == [chain[0]] + chain[1..];
      FindId(chain[1..], entryId)
  }

  /** It is the first such entry that is found. */
  lemma {:induction false} FindIdIsFirst(chain: seq<Entry>, entryId: Text, i: nat)
    requires i < |chain| && chain[i].entryId == entryId
    requires forall j :: 0 <= j < i ==> chain[j].entryId != entryId
    ensures FindId(chain, entryId) == Some(chain[i])
  {
    if i > 0 {
      var rest := chain[1..];
      assert forall j :: 0 <= j < i - 1 ==> rest[j] == chain[j + 1];
      FindIdIsFirst(rest, entryId, i - 1);
    }
  }

  function AppendEntry(c: Crypto, request: AppendRequest, chain: seq<Entry>): AppendResult {
    if chain == [] then InvalidChain(NoGenesis)
    else
      var head := chain[|chain| - 1];
      if |chain| == 1 && head.entryType != GENESIS then InvalidChain(FirstIsNotGenesis)
      else
        var entry := request.entry;
        var actualHeadHash := EntryHash(c, head);
        var actualSequence := head.sequence + 1;
        var existing := match entry.idempotencyKey
                        case None => None
                        case Some(key) => FindKey(chain, request.ledgerId, key);
        if existing.Some? then
          var reason := if ContentKey(entry) == ContentKey(existing.value) then IdempotencyReplay else IdempotencyConflict;
          Duplicate(reason, existing.value)
        else
          var twin := FindId(chain, entry.entryId);
          if twin.Some? then Duplicate(EntryIdExists, twin.value)
          else if || request.expectedHeadHash != actualHeadHash
                  || request.expectedSequence != actualSequence
                  || entry.previousEntryHash != actualHeadHash
                  || entry.sequence != actualSequence
          then
            HeadConflict(request.expectedHeadHash, actualHeadHash, request.expectedSequence, actualSequence)
          else
            Appended(entry, EntryHash(c, entry))
  }
}
