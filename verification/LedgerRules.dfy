/**
 * The rules of the ledger written out: which texts are hashed and signed, which values stand where.
 * They use the hash, the signature check, the printer and the reading of keys, and none of the
 * functions that the builders and the validator are made of.
 */
module LedgerRules {
  import opened Wrappers
  import opened JsText
  import opened Json
  import opened JsonParser
  import opened Canonical
  import opened LedgerEntry
  import opened LedgerBuild
  import opened LedgerShape
  import opened Validator
  import opened LedgerChain

  // ---------- The rules ----------

  /** The eight header fields as JSON, then the three hashes. */
  function SignedText(e: Entry): Text {
    Stringify(Obj([
      Member(Lit("ledgerId"), Str(e.ledgerId)),
      Member(Lit("sequence"), Num(e.sequence)),
      Member(Lit("entryType"), Str(e.entryType)),
      Member(Lit("occurredAt"), Str(e.occurredAt)),
      Member(Lit("recordedAt"), Str(e.recordedAt)),
      Member(Lit("actor"), Str(e.actor)),
      Member(Lit("schemaVersion"), Str(e.schemaVersion)),
      Member(Lit("entryId"), Str(e.entryId))
    ])) + e.payloadHash + e.receiptHash + e.previousEntryHash
  }

  /** The payload is an object that has the key. */
  ghost predicate HasKey(e: Entry, key: string) {
    match e.payload
    case Some(Obj(ms)) => Lit(key) in Keys(ms)
    case _ => false
  }

  ghost predicate GenesisRule(c: Crypto, e: Entry) {
    && e.entryType == Lit("GENESIS")
    && e.sequence == 1
    && e.previousEntryHash == c.sha256([])
    && e.receiptHash == c.sha256([])
    && e.signerKeyId == Lit("hash-only")
    && HasKey(e, "protocolVersion") && HasKey(e, "hashAlgorithm") && HasKey(e, "trustRoot")
    && HasKey(e, "jurisdiction") && HasKey(e, "createdAt") && HasKey(e, "signingPolicy")
  }

  ghost predicate LinkRule(c: Crypto, e: Entry, prior: Entry) {
    e.previousEntryHash == c.sha256(SignedText(prior))
  }

  ghost predicate PayloadRule(c: Crypto, e: Entry) {
    e.payloadHash == c.sha256(if e.payload.None? then Lit("{}") else Stringify(e.payload.value))
  }

  /** A receipt entry names its receipt and embeds it, an object or null; other entries are free. */
  ghost predicate ReceiptRule(c: Crypto, e: Entry) {
    e.entryType == Lit("RECEIPT_RECORDED") ==>
      match e.payload
      case Some(Obj(ms)) =>
        && (match Get(ms, Lit("receiptId")) case Some(Str(id)) => id != [] case _ => false)
        && (match Get(ms, Lit("receipt"))
            case Some(Obj(receipt)) => e.receiptHash == c.sha256(Stringify(Obj(receipt)))
            case Some(Null) => e.receiptHash == c.sha256(Lit("null"))
            case _ => false)
      case _ => false
  }

  /** An entry is signed, and the signature verifies over its text, or it carries nothing of a signature. */
  ghost predicate SignatureRule(c: Crypto, e: Entry) {
    if e.signerKeyId == Lit("hash-only") then e.signature.None? && e.signerPublicKey.None?
    else match (e.signerPublicKey, e.signature)
         case (Some(key), Some(signature)) => c.verify(key, SignedText(e), signature)
         case (_, _) => false
  }

  /** The signer is listed where the genesis manifest lists key ids, and in the supplied trust root if there is one. */
  ghost predicate TrustRule(e: Entry, genesis: Option<Entry>, trust: TrustRoot) {
    e.signerKeyId != Lit("hash-only") ==>
      && (genesis.Some? ==>
            match genesis.value.payload
            case Some(Obj(manifest)) =>
              (match Get(manifest, Lit("trustRoot"))
               case Some(Obj(root)) =>
                 (match Get(root, Lit("keyIds"))
                  case Some(Arr(ids)) => exists i :: 0 <= i < |ids| && ids[i] == Str(e.signerKeyId)
                  case _ => true)
               case _ => true)
            case _ => true)
      && (trust.Some? ==> e.signerKeyId in trust.value)
  }

  ghost predicate FormRule(e: Entry) {
    && e.entryId != [] && e.ledgerId != [] && e.previousEntryHash != [] && e.payloadHash != [] && e.receiptHash != []
    && e.occurredAt != [] && e.recordedAt != [] && e.actor != [] && e.signerKeyId != []
    && e.sequence >= 1
    && (e.payload.Some? ==> e.payload.value.Obj?)
    && e.schemaVersion == Lit("1.0")
    && InVocabulary(e.entryType)
  }

  ghost predicate InVocabulary(t: Text) {
    || t == Lit("GENESIS") || t == Lit("RECEIPT_RECORDED") || t == Lit("ATTESTATION_ADDED")
    || t == Lit("ENTRY_SUPERSEDED") || t == Lit("ENTRY_REVOKED") || t == Lit("CHECKPOINT_CREATED")
  }

  /** Everything that is asked of the entry at `i`. */
  ghost predicate Lawful(c: Crypto, es: seq<Entry>, i: nat, trust: TrustRoot)
    requires i < |es|
  {
    var e := es[i];
    && FormRule(e)
    && (if i == 0 then GenesisRule(c, e) else LinkRule(c, e, es[i - 1]) && e.ledgerId == es[0].ledgerId)
    && e.sequence == i + 1
    && PayloadRule(c, e) && ReceiptRule(c, e) && SignatureRule(c, e)
    && TrustRule(e, if i > 0 then Some(es[0]) else None, trust)
    && forall j :: 0 <= j < i ==> es[j].entryId != e.entryId
  }

  /** A line that reads as the entry: an object with its fields and no others, of the right types, strings not empty. */
  ghost predicate ReadsAs(line: Text, e: Entry) {
    && line != []
    && (match Parse(line)
        case Some(Obj(ms)) =>
          && HasFields(Reader(ms), e)
          && forall k {:trigger k in Keys(ms)} :: k in Keys(ms) ==> exists i :: 0 <= i < 16 && k == Lit(FIELD_NAMES[i])
        case _ => false)
    && e.entryId != [] && e.ledgerId != [] && e.entryType != [] && e.previousEntryHash != [] && e.payloadHash != []
    && e.receiptHash != [] && e.occurredAt != [] && e.recordedAt != [] && e.actor != [] && e.schemaVersion != []
    && e.signerKeyId != []
    && e.sequence >= 1
    && (e.payload.Some? ==> e.payload.value.Obj?)
  }

  // ---------- They are what builders and validator go by ----------

  lemma {:induction false} AllowedIff(k: Text)
    ensures Allowed(k) <==> exists i :: 0 <= i < 16 && k == Lit(FIELD_NAMES[i])
  {
    assert |REQUIRED_FIELDS| == 12 && |OPTIONAL_STRINGS| == 3 && |FIELD_NAMES| == 16;
    assert forall i :: 0 <= i < 12 ==> REQUIRED_FIELDS[i] == Lit(FIELD_NAMES[i]);
    assert forall i :: 0 <= i < 3 ==> OPTIONAL_STRINGS[i] == Lit(FIELD_NAMES[12 + i]);
    assert Lit("payload") == Lit(FIELD_NAMES[15]);
    if i :| 0 <= i < 16 && k == Lit(FIELD_NAMES[i]) {
      assert i < 12 ==> REQUIRED_FIELDS[i] in REQUIRED_FIELDS;
      assert 12 <= i < 15 ==> OPTIONAL_STRINGS[i - 12] in OPTIONAL_STRINGS;
    }
  }

  lemma {:induction false} ShapedIff(ms: seq<Member>, e: Entry)
    ensures ShapeProblems(Obj(ms)) == [] && EntryOf(Obj(ms)) == e <==>
              && HasFields(Reader(ms), e) && EntryShape(e)
              && forall k :: k in Keys(ms) ==> Allowed(k)
  {
    ShapeProblemsEmpty(ms);
    var record := Reader(ms);
    if RecordOk(record) {
      RecordHasFields(record);
    }
    if HasFields(record, e) {
      FieldsGiveShape(record, e);
      if e.sequence >= 1 {
        FieldsGiveEntry(record, e);
      }
    }
    if RecordOk(record) && EntryFrom(record) == e {
      FieldsGiveShape(record, e);
    }
  }

  lemma {:induction false} AllowedAll(ks: seq<Text>)
    ensures (forall k :: k in ks ==> Allowed(k)) <==>
              forall k {:trigger k in ks} :: k in ks ==> exists i :: 0 <= i < 16 && k == Lit(FIELD_NAMES[i])
  {
    forall k ensures Allowed(k) <==> exists i :: 0 <= i < 16 && k == Lit(FIELD_NAMES[i]) {
      AllowedIff(k);
    }
  }

  /** A line is read as an entry exactly when it reads as that entry. */
  lemma {:induction false} ReadLineIff(line: Text, e: Entry)
    ensures ReadLine(line) == Some(e) <==> ReadsAs(line, e)
  {
    if line != [] {
      match Parse(line)
      case Some(Obj(ms)) =>
        AllowedAll(Keys(ms));
        ShapedIff(ms, e);
      case _ =>
    }
  }

  lemma {:induction false} CompactSome(fs: seq<Field>)
    requires forall i :: 0 <= i < |fs| ==> fs[i].value.Some?
    ensures |Compact(fs)| == |fs|
    ensures forall i :: 0 <= i < |fs| ==> Compact(fs)[i] == Member(fs[i].name, fs[i].value.value)
  {
    if fs != [] {
      CompactSome(fs[1..]);
    }
  }

  lemma {:induction false} SignedTextIs(e: Entry)
    ensures SigningString(e) == SignedText(e)
  {
    CompactSome(HeaderFields(e));
    assert Compact(HeaderFields(e)) == [
      Member(Lit("ledgerId"), Str(e.ledgerId)),
      Member(Lit("sequence"), Num(e.sequence)),
      Member(Lit("entryType"), Str(e.entryType)),
      Member(Lit("occurredAt"), Str(e.occurredAt)),
      Member(Lit("recordedAt"), Str(e.recordedAt)),
      Member(Lit("actor"), Str(e.actor)),
      Member(Lit("schemaVersion"), Str(e.schemaVersion)),
      Member(Lit("entryId"), Str(e.entryId))
    ];
  }

  lemma {:induction false} GenesisRuleIs(c: Crypto, e: Entry)
    ensures GenesisOk(c, e) <==> GenesisRule(c, e)
  {
    var ks := ["protocolVersion", "hashAlgorithm", "trustRoot", "jurisdiction", "createdAt", "signingPolicy"];
    assert |MANIFEST_KEYS| == 6;
    forall i | 0 <= i < 6 ensures MANIFEST_KEYS[i] == Lit(ks[i]) && (PayloadField(e, MANIFEST_KEYS[i]).Some? <==> HasKey(e, ks[i])) {
    }
    if GenesisOk(c, e) {
      forall i | 0 <= i < 6 ensures HasKey(e, ks[i]) {
        assert PayloadField(e, MANIFEST_KEYS[i]).Some?;
      }
      assert HasKey(e, ks[0]) && HasKey(e, ks[1]) && HasKey(e, ks[2]) && HasKey(e, ks[3]) && HasKey(e, ks[4]) && HasKey(e, ks[5]);
    }
  }

  lemma {:induction false} HashRulesAre(c: Crypto, e: Entry, prior: Entry)
    ensures e.previousEntryHash == EntryHash(c, prior) <==> LinkRule(c, e, prior)
    ensures e.payloadHash == c.sha256(PayloadText(e)) <==> PayloadRule(c, e)
  {
    SignedTextIs(prior);
  }

  lemma {:induction false} ReceiptRuleIs(c: Crypto, e: Entry)
    ensures (e.entryType == RECEIPT_RECORDED ==> ReceiptOk(c, e)) <==> ReceiptRule(c, e)
  {
    assert Stringify(Null) == Lit("null");
  }

  lemma {:induction false} SignatureRulesAre(c: Crypto, e: Entry, genesis: Option<Entry>, trust: TrustRoot)
    ensures SignatureOk(c, e, genesis, trust) <==> SignatureRule(c, e) && TrustRule(e, genesis, trust)
    ensures (e.signerKeyId != HASH_ONLY ==> TrustOk(e, genesis, trust)) <==> TrustRule(e, genesis, trust)
    ensures (if e.signerKeyId == HASH_ONLY then e.signature.None? && e.signerPublicKey.None?
             else VerifyEntrySignature(c, e)) <==> SignatureRule(c, e)
  {
    SignedTextIs(e);
    if genesis.Some? {
      GenesisRootIs(genesis.value, e.signerKeyId);
    }
  }

  lemma {:induction false} GenesisRootIs(genesis: Entry, keyId: Text)
    ensures !NotInGenesisRoot(genesis, keyId) <==>
      match genesis.payload
      case Some(Obj(manifest)) =>
        (match Get(manifest, Lit("trustRoot"))
         case Some(Obj(root)) =>
           (match Get(root, Lit("keyIds"))
            case Some(Arr(ids)) => exists i :: 0 <= i < |ids| && ids[i] == Str(keyId)
            case _ => true)
         case _ => true)
      case _ => true
  {
  }

  lemma {:induction false} FormRuleIs(e: Entry)
    requires PayloadWf(e)
    ensures FormOk(e) <==> FormRule(e)
  {
    assert |Lit("1.0")| == 3 && |Lit("GENESIS")| == 7 && |Lit("RECEIPT_RECORDED")| == 16;
    assert |Lit("ATTESTATION_ADDED")| == 17 && |Lit("ENTRY_SUPERSEDED")| == 16;
    assert |Lit("ENTRY_REVOKED")| == 13 && |Lit("CHECKPOINT_CREATED")| == 18;
  }

  lemma {:induction false} LawfulIff(c: Crypto, es: seq<Entry>, i: nat, trust: TrustRoot)
    requires i < |es| && PayloadWf(es[i])
    ensures LocalOk(c, es, i, trust) <==> Lawful(c, es, i, trust)
  {
    var e := es[i];
    FormRuleIs(e);
    GenesisRuleIs(c, e);
    HashRulesAre(c, e, if i > 0 then es[i - 1] else e);
    ReceiptRuleIs(c, e);
    SignatureRulesAre(c, e, if i > 0 then Some(es[0]) else None, trust);
  }

  ghost predicate AllLawful(c: Crypto, es: seq<Entry>, trust: TrustRoot) {
    forall i {:trigger Lawful(c, es, i, trust)} :: 0 <= i < |es| ==> Lawful(c, es, i, trust)
  }

  lemma {:induction false} AllLawfulIff(c: Crypto, lines: seq<Text>, es: seq<Entry>, trust: TrustRoot)
    requires Stores(lines, es)
    ensures GoodChain(c, es, trust) <==> AllLawful(c, es, trust)
  {
    forall i | 0 <= i < |es| ensures LocalOk(c, es, i, trust) <==> Lawful(c, es, i, trust) {
      assert EntryLine(es[i]) == lines[i];
      LawfulIff(c, es, i, trust);
    }
  }

  /** A ledger is reported valid exactly when its lines are the canonical texts of lawful entries. */
  lemma {:induction false} ValidIffLawful(c: Crypto, lines: seq<Text>, trust: TrustRoot)
    ensures Valid(c, lines, trust) <==> exists es: seq<Entry> :: Stores(lines, es) && AllLawful(c, es, trust)
  {
    ValidIff(c, lines, trust);
    forall es: seq<Entry> | Stores(lines, es) ensures GoodChain(c, es, trust) <==> AllLawful(c, es, trust) {
      AllLawfulIff(c, lines, es, trust);
    }
  }

  /** In a valid ledger every entry, as it is read, is lawful; so every signature in it verifies over its entry's text. */
  lemma {:induction false} ValidIsLawful(c: Crypto, lines: seq<Text>, i: nat, trust: TrustRoot)
    requires Valid(c, lines, trust) && i < |lines|
    ensures Lawful(c, ReadAll(lines), i, trust)
    ensures var e := ReadAll(lines)[i];
            ReadLine(lines[i]) == Some(e) &&
            (e.signerKeyId != Lit("hash-only") ==>
               && e.signature.Some? && e.signerPublicKey.Some?
               && c.verify(e.signerPublicKey.value, SigningString(e), e.signature.value))
  {
    ValidByReading(c, lines, trust);
    ReadsStore(lines);
    var es := ReadAll(lines);
    assert LocalOk(c, es, i, trust) && EntryLine(es[i]) == lines[i] && LineOk(lines[i]);
    LawfulIff(c, es, i, trust);
    SignedTextIs(es[i]);
  }

  /** The builder throws for an entry type outside the vocabulary, and for a receipt entry without receipt or id. */
  lemma {:induction false} BuildThrowsIff(c: Crypto, input: EntryInput)
    ensures CreateLedgerEntry(c, input) == Throws(UnsupportedEntryType) <==> !InVocabulary(input.entryType)
    ensures CreateLedgerEntry(c, input) == Throws(MissingReceipt) <==>
              input.entryType == Lit("RECEIPT_RECORDED") && input.receipt.None?
    ensures CreateLedgerEntry(c, input) == Throws(MissingReceiptId) <==>
              input.entryType == Lit("RECEIPT_RECORDED") && input.receipt.Some? && input.receiptId.None?
  {
  }
}
