/** Ledger entries, the text they hash and sign, and the JSON object they are stored as. */
module LedgerEntry {
  import opened Wrappers
  import opened JsText
  import opened Json

  /**
   * SHA-256 (section 6.2 of FIPS 180-4) and Ed25519 (section 5.1 of RFC 8032), text in and
   * text out: hexadecimal digests, base64 keys and signatures.
   */
  datatype Crypto = Crypto(
    sha256: Text -> Text,
    publicKey: Text -> Text,
    sign: (Text, Text) -> Text,
    verify: (Text, Text, Text) -> bool)

  /** All that is assumed of the cryptography. Nothing says that the hash has no collisions. */
  ghost predicate Sound(c: Crypto) {
    && (forall t: Text {:trigger c.sha256(t)} :: |c.sha256(t)| == 64)
    && (forall key: Text, t: Text {:trigger c.sign(key, t)} :: c.verify(c.publicKey(key), t, c.sign(key, t)))
  }

  datatype Entry = Entry(
    entryId: Text,
    ledgerId: Text,
    sequence: int,
    entryType: Text,
    previousEntryHash: Text,
    payloadHash: Text,
    receiptHash: Text,
    occurredAt: Text,
    recordedAt: Text,
    actor: Text,
    schemaVersion: Text,
    signerKeyId: Text,
    signature: Option<Text>,
    signerPublicKey: Option<Text>,
    idempotencyKey: Option<Text>,
    payload: Option<Json>)

  const HASH_ONLY := Lit("hash-only")
  const SCHEMA_VERSION := Lit("1.0")

  const GENESIS := Lit("GENESIS")
  const RECEIPT_RECORDED := Lit("RECEIPT_RECORDED")
  const ATTESTATION_ADDED := Lit("ATTESTATION_ADDED")
  const ENTRY_SUPERSEDED := Lit("ENTRY_SUPERSEDED")
  const ENTRY_REVOKED := Lit("ENTRY_REVOKED")
  const CHECKPOINT_CREATED := Lit("CHECKPOINT_CREATED")

  predicate IsEntryType(t: Text) {
    || t == GENESIS
    || t == RECEIPT_RECORDED
    || t == ATTESTATION_ADDED
    || t == ENTRY_SUPERSEDED
    || t == ENTRY_REVOKED
    || t == CHECKPOINT_CREATED
  }

  // ---------- Objects with optional fields ----------

  datatype Field = Field(name: Text, value: Option<Json>)

  function Names(fs: seq<Field>): (ns: seq<Text>)
    ensures |ns| == |fs|
  {
    seq(|fs|, i requires 0 <= i < |fs| => fs[i].name)
  }

  /** The members of the fields that are not `undefined`. */
  function Compact(fs: seq<Field>): seq<Member> {
    if fs == [] then []
    else (match fs[0].value case Some(v) => [Member(fs[0].name, v)] case None => []) + Compact(fs[1..])
  }

  lemma {:induction false} NamesTail(fs: seq<Field>)
    requires fs != [] && Distinct(Names(fs))
    ensures Distinct(Names(fs[1..]))
    ensures forall i :: 0 < i < |fs| ==> fs[i].name != fs[0].name
  {
    forall i, j | 0 <= i < j < |fs[1..]| ensures Names(fs[1..])[i] != Names(fs[1..])[j] {
      assert Names(fs)[i + 1] != Names(fs)[j + 1];
    }
    forall i | 0 < i < |fs| ensures fs[i].name != fs[0].name {
      assert Names(fs)[0] != Names(fs)[i];
    }
  }

  lemma {:induction false} CompactKeys(fs: seq<Field>)
    ensures forall k :: k in Keys(Compact(fs)) <==> exists i :: 0 <= i < |fs| && fs[i].name == k && fs[i].value.Some?
  {
    if fs != [] {
      CompactKeys(fs[1..]);
      var head := match fs[0].value case Some(v) => [Member(fs[0].name, v)] case None => [];
      assert Keys(Compact(fs)) == Keys(head) + Keys(Compact(fs[1..]));
      assert Keys(head) == if fs[0].value.Some? then [fs[0].name] else [];
      forall k ensures k in Keys(Compact(fs)) <==> exists i :: 0 <= i < |fs| && fs[i].name == k && fs[i].value.Some? {
        if k in Keys(Compact(fs[1..])) {
          var i :| 0 <= i < |fs[1..]| && fs[1..][i].name == k && fs[1..][i].value.Some?;
          assert fs[i + 1] == fs[1..][i];
        } else if k in Keys(head) {
          assert fs[0].name == k;
        } else {
          forall i | 0 <= i < |fs| && fs[i].name == k ensures fs[i].value.None? {
            if i > 0 {
              assert fs[1..][i - 1] == fs[i];
            }
          }
        }
      }
    }
  }

  lemma {:induction false} CompactDistinct(fs: seq<Field>)
    requires Distinct(Names(fs))
    ensures Distinct(Keys(Compact(fs)))
  {
    if fs != [] {
      NamesTail(fs);
      CompactDistinct(fs[1..]);
      CompactKeys(fs[1..]);
      if fs[0].value.Some? {
        var ks := Keys(Compact(fs[1..]));
        assert Keys(Compact(fs)) == [fs[0].name] + ks;
        assert fs[0].name !in ks by {
          assert forall i :: 0 <= i < |fs[1..]| ==> fs[1..][i] == fs[i + 1];
        }
      } else {
        assert Compact(fs) == Compact(fs[1..]);
      }
    }
  }

  /** Reading a field gives its value, and nothing when it is `undefined`. */
  lemma {:induction false} CompactGet(fs: seq<Field>, i: nat)
    requires i < |fs| && Distinct(Names(fs))
    ensures Get(Compact(fs), fs[i].name) == fs[i].value
  {
    CompactKeys(fs);
    CompactDistinct(fs);
    var ms := Compact(fs);
    if fs[i].value.Some? {
      CompactHas(fs, i);
      var j :| 0 <= j < |ms| && ms[j] == Member(fs[i].name, fs[i].value.value);
      GetAt(ms, j);
    } else {
      var k := fs[i].name;
      forall j | 0 <= j < |fs| && fs[j].name == k ensures j == i {
        assert Names(fs)[j] == Names(fs)[i];
      }
      assert k !in Keys(ms);
    }
  }

  lemma {:induction false} CompactWf(fs: seq<Field>)
    requires Distinct(Names(fs))
    requires forall i :: 0 <= i < |fs| && fs[i].value.Some? ==> Wf(fs[i].value.value)
    ensures Wf(Obj(Compact(fs)))
  {
    CompactDistinct(fs);
    CompactKeys(fs);
    var ms := Compact(fs);
    forall i | 0 <= i < |ms| ensures Wf(ms[i].value) {
      assert Keys(ms)[i] in Keys(ms);
      var j :| 0 <= j < |fs| && fs[j].name == ms[i].key && fs[j].value.Some?;
      CompactGet(fs, j);
      GetAt(ms, i);
    }
  }

  lemma {:induction false} CompactHas(fs: seq<Field>, i: nat)
    requires i < |fs| && fs[i].value.Some?
    ensures Member(fs[i].name, fs[i].value.value) in Compact(fs)
  {
    if i > 0 {
      CompactHas(fs[1..], i - 1);
    }
  }

  // ---------- Hashing ----------

  function EmptyHash(c: Crypto): Text {
    c.sha256([])
  }

  function HeaderFields(e: Entry): seq<Field> {
    [ Field(Lit("ledgerId"), Some(Str(e.ledgerId))),
      Field(Lit("sequence"), Some(Num(e.sequence))),
      Field(Lit("entryType"), Some(Str(e.entryType))),
      Field(Lit("occurredAt"), Some(Str(e.occurredAt))),
      Field(Lit("recordedAt"), Some(Str(e.recordedAt))),
      Field(Lit("actor"), Some(Str(e.actor))),
      Field(Lit("schemaVersion"), Some(Str(e.schemaVersion))),
      Field(Lit("entryId"), Some(Str(e.entryId))) ]
  }

  function CanonicalHeader(e: Entry): Text {
    Stringify(Obj(Compact(HeaderFields(e))))
  }

  /** The pre-image of the entry hash, and the text that a signature covers. */
  function SigningString(e: Entry): Text {
    CanonicalHeader(e) + e.payloadHash + e.receiptHash + e.previousEntryHash
  }

  function EntryHash(c: Crypto, e: Entry): Text {
    c.sha256(SigningString(e))
  }

  function ContentFields(e: Entry): seq<Field> {
    [ Field(Lit("entryType"), Some(Str(e.entryType))),
      Field(Lit("payloadHash"), Some(Str(e.payloadHash))),
      Field(Lit("receiptHash"), Some(Str(e.receiptHash))) ]
  }

  function ContentKey(e: Entry): Text {
    Stringify(Obj(Compact(ContentFields(e))))
  }

  /** The text a payload hash is computed from; an absent payload counts as an empty object. */
  function PayloadText(e: Entry): Text {
    match e.payload
    case None => Lit("{}")
    case Some(p) => Stringify(p)
  }

  lemma {:induction false} EmptyObjectText()
    ensures Stringify(Obj([])) == Lit("{}")
  {
  }

  /** `entry.payload?.[key]` */
  function PayloadField(e: Entry, key: Text): Option<Json> {
    match e.payload
    case Some(Obj(ms)) => Get(ms, key)
    case _ => None
  }

  // ---------- The stored object ----------

  function OptionalStr(t: Option<Text>): Option<Json> {
    match t
    case None => None
    case Some(s) => Some(Str(s))
  }

  function Fields(e: Entry): seq<Field> {
    [ Field(Lit("entryId"), Some(Str(e.entryId))),
      Field(Lit("ledgerId"), Some(Str(e.ledgerId))),
      Field(Lit("sequence"), Some(Num(e.sequence))),
      Field(Lit("entryType"), Some(Str(e.entryType))),
      Field(Lit("previousEntryHash"), Some(Str(e.previousEntryHash))),
      Field(Lit("payloadHash"), Some(Str(e.payloadHash))),
      Field(Lit("receiptHash"), Some(Str(e.receiptHash))),
      Field(Lit("occurredAt"), Some(Str(e.occurredAt))),
      Field(Lit("recordedAt"), Some(Str(e.recordedAt))),
      Field(Lit("actor"), Some(Str(e.actor))),
      Field(Lit("schemaVersion"), Some(Str(e.schemaVersion))),
      Field(Lit("signerKeyId"), Some(Str(e.signerKeyId))),
      Field(Lit("signature"), OptionalStr(e.signature)),
      Field(Lit("signerPublicKey"), OptionalStr(e.signerPublicKey)),
      Field(Lit("idempotencyKey"), OptionalStr(e.idempotencyKey)),
      Field(Lit("payload"), e.payload) ]
  }

  function EntryJson(e: Entry): Json {
    Obj(Compact(Fields(e)))
  }

  /** One line of the ledger file. */
  function EntryLine(e: Entry): Text {
    Stringify(EntryJson(e))
  }

  const FIELD_NAMES: seq<string> := [
    "entryId", "ledgerId", "sequence", "entryType", "previousEntryHash", "payloadHash", "receiptHash", "occurredAt",
    "recordedAt", "actor", "schemaVersion", "signerKeyId", "signature", "signerPublicKey", "idempotencyKey", "payload"
  ]

  ghost predicate PayloadWf(e: Entry) {
    e.payload.Some? ==> Wf(e.payload.value)
  }

  lemma {:induction false} FieldNames(e: Entry)
    ensures |Fields(e)| == 16
    ensures forall i :: 0 <= i < 16 ==> Fields(e)[i].name == Lit(FIELD_NAMES[i])
    ensures Distinct(Names(Fields(e)))
  {
    FieldNamesDiffer();
    var ns := Names(Fields(e));
    forall i, j | 0 <= i < j < 16 ensures ns[i] != ns[j] {
      assert ns[i] == Lit(FIELD_NAMES[i]) && ns[j] == Lit(FIELD_NAMES[j]);
    }
  }

  /** No two field names agree on both length and first letter. */
  lemma {:induction false} FieldNamesDiffer()
    ensures forall i, j :: 0 <= i < j < 16 ==> Lit(FIELD_NAMES[i]) != Lit(FIELD_NAMES[j])
  {
    var lengths := [7, 8, 8, 9, 17, 11, 11, 10, 10, 5, 13, 11, 9, 15, 14, 7];
    var initials := ['e', 'l', 's', 'e', 'p', 'p', 'r', 'o', 'r', 'a', 's', 's', 's', 's', 'i', 'p'];
    forall i | 0 <= i < 16
      ensures |FIELD_NAMES[i]| == lengths[i] && FIELD_NAMES[i][0] == initials[i]
    {
    }
    forall i, j | 0 <= i < j < 16
      ensures Lit(FIELD_NAMES[i]) != Lit(FIELD_NAMES[j])
    {
      assert lengths[i] != lengths[j] || initials[i] != initials[j];
      assert |Lit(FIELD_NAMES[i])| == lengths[i] && |Lit(FIELD_NAMES[j])| == lengths[j];
      assert Lit(FIELD_NAMES[i])[0] == initials[i] as int && Lit(FIELD_NAMES[j])[0] == initials[j] as int;
    }
  }
}
