/**
 * Tamper evidence: two valid ledgers with the same head hash have the same contents, or else
 * they exhibit two different texts, hashed by the ledgers themselves, with the same digest.
 */
module TamperEvidence {
  import opened Wrappers
  import opened JsText
  import opened Json
  import opened Canonical
  import opened LedgerEntry
  import opened LedgerShape
  import opened Validator
  import opened LedgerChain

  /** Equal in everything that the hash chain covers. Payloads are equal up to the order of keys. */
  ghost predicate SameContent(e: Entry, f: Entry) {
    && SameHeader(e, f)
    && e.payloadHash == f.payloadHash
    && e.receiptHash == f.receiptHash
    && e.previousEntryHash == f.previousEntryHash
    && Same(PayloadOrEmpty(e), PayloadOrEmpty(f))
  }

  ghost predicate SameHeader(e: Entry, f: Entry) {
    && e.ledgerId == f.ledgerId
    && e.sequence == f.sequence
    && e.entryType == f.entryType
    && e.occurredAt == f.occurredAt
    && e.recordedAt == f.recordedAt
    && e.actor == f.actor
    && e.schemaVersion == f.schemaVersion
    && e.entryId == f.entryId
  }

  function PayloadOrEmpty(e: Entry): Json {
    e.payload.GetOr(Obj([]))
  }

  /** Two different texts with the same digest, one hashed for each of the entries. */
  ghost predicate Collision(c: Crypto, e: Entry, f: Entry) {
    || (SigningString(e) != SigningString(f) && EntryHash(c, e) == EntryHash(c, f))
    || (PayloadText(e) != PayloadText(f) && c.sha256(PayloadText(e)) == c.sha256(PayloadText(f)))
  }

  ghost predicate SameContents(es: seq<Entry>, fs: seq<Entry>) {
    |es| == |fs| && forall i :: 0 <= i < |es| ==> SameContent(es[i], fs[i])
  }

  ghost predicate SomeCollision(c: Crypto, es: seq<Entry>, fs: seq<Entry>) {
    exists i, j :: 0 <= i < |es| && 0 <= j < |fs| && Collision(c, es[i], fs[j])
  }

  // ---------- Decoding a signed text ----------

  lemma {:induction false} HeaderNames(e: Entry)
    ensures Distinct(Names(HeaderFields(e)))
  {
    var ns := Names(HeaderFields(e));
    var lengths := [8, 8, 9, 10, 10, 5, 13, 7];
    var initials := ['l', 's', 'e', 'o', 'r', 'a', 's', 'e'];
    forall i | 0 <= i < 8 ensures |ns[i]| == lengths[i] && ns[i][0] == initials[i] as int {
    }
    forall i, j | 0 <= i < j < 8 ensures ns[i] != ns[j] {
      assert lengths[i] != lengths[j] || initials[i] != initials[j];
    }
  }

  lemma {:induction false} HeaderWf(e: Entry)
    ensures Wf(Obj(Compact(HeaderFields(e))))
  {
    HeaderNames(e);
    CompactWf(HeaderFields(e));
  }

  /** Objects equal up to key order hold equal strings and numbers under each key. */
  lemma {:induction false} SameScalar(ms: seq<Member>, ns: seq<Member>, k: Text)
    requires Same(Obj(ms), Obj(ns))
    requires Get(ms, k).Some? && (Get(ms, k).value.Str? || Get(ms, k).value.Num?)
    ensures Get(ns, k) == Get(ms, k)
  {
    assert k in ToSet(Keys(ms));
    assert k in Keys(ns);
    assert Same(At(Obj(ms), k), At(Obj(ns), k));
  }

  lemma {:induction false} SameFieldValue(e: Entry, f: Entry, i: nat)
    requires i < 8
    requires Same(Obj(Compact(HeaderFields(e))), Obj(Compact(HeaderFields(f))))
    ensures HeaderFields(e)[i].value == HeaderFields(f)[i].value
  {
    HeaderNames(e);
    HeaderNames(f);
    CompactGet(HeaderFields(e), i);
    CompactGet(HeaderFields(f), i);
    assert HeaderFields(e)[i].name == HeaderFields(f)[i].name;
    SameScalar(Compact(HeaderFields(e)), Compact(HeaderFields(f)), HeaderFields(e)[i].name);
  }

  lemma {:induction false} HeaderDecodes(e: Entry, f: Entry)
    requires Same(Obj(Compact(HeaderFields(e))), Obj(Compact(HeaderFields(f))))
    ensures SameHeader(e, f)
  {
    SameFieldValue(e, f, 0);
    SameFieldValue(e, f, 1);
    SameFieldValue(e, f, 2);
    SameFieldValue(e, f, 3);
    SameFieldValue(e, f, 4);
    SameFieldValue(e, f, 5);
    SameFieldValue(e, f, 6);
    SameFieldValue(e, f, 7);
  }

  /** Without separators, three parts can still be told apart when the outer ones have a known length. */
  lemma {:induction false} OuterLengthsDecide(a: Text, b: Text, d: Text, x: Text, y: Text, z: Text)
    requires |a| == |x| && |d| == |z|
    requires a + b + d == x + y + z
    ensures a == x && b == y && d == z
  {
    var s := a + b + d;
    assert s[..|a|] == a && s[..|x|] == x;
    assert s[|s| - |d|..] == d && s[|s| - |z|..] == z;
    assert s[|a|..|s| - |d|] == b && s[|x|..|s| - |z|] == y;
  }

  /**
   * The text that is hashed determines the header and the three hash fields: the header is
   * uniquely decodable, and two of the three hashes have a fixed length.
   */
  lemma {:induction false} SigningStringDecodes(e: Entry, f: Entry)
    requires |e.payloadHash| == |f.payloadHash| && |e.previousEntryHash| == |f.previousEntryHash|
    requires SigningString(e) == SigningString(f)
    ensures SameHeader(e, f)
    ensures e.payloadHash == f.payloadHash && e.receiptHash == f.receiptHash
    ensures e.previousEntryHash == f.previousEntryHash
  {
    var x, y := Obj(Compact(HeaderFields(e))), Obj(Compact(HeaderFields(f)));
    HeaderWf(e);
    HeaderWf(f);
    SigningStringParts(e);
    SigningStringParts(f);
    ObjectsUniquelyDecodable(x, HashParts(e), y, HashParts(f));
    HeaderDecodes(e, f);
    OuterLengthsDecide(e.payloadHash, e.receiptHash, e.previousEntryHash,
                       f.payloadHash, f.receiptHash, f.previousEntryHash);
  }

  function HashParts(e: Entry): Text {
    e.payloadHash + e.receiptHash + e.previousEntryHash
  }

  lemma {:induction false} SigningStringParts(e: Entry)
    ensures SigningString(e) == CanonicalHeader(e) + HashParts(e)
  {
  }

  // ---------- One entry ----------

  lemma {:induction false} PayloadTextIs(e: Entry)
    ensures PayloadText(e) == Stringify(PayloadOrEmpty(e))
  {
  }

  /** Hashes that the rules force to be digests. */
  ghost predicate HashesBound(c: Crypto, e: Entry) {
    e.payloadHash == c.sha256(PayloadText(e)) && |e.payloadHash| == 64 && |e.previousEntryHash| == 64
  }

  lemma {:induction false} RulesBindHashes(c: Crypto, es: seq<Entry>, i: nat, trust: TrustRoot)
    requires Sound(c) && i < |es| && GoodChain(c, es, trust)
    ensures PayloadWf(es[i]) && HashesBound(c, es[i]) && es[i].sequence == i + 1
    ensures i > 0 ==> es[i].previousEntryHash == EntryHash(c, es[i - 1])
  {
    assert LocalOk(c, es, i, trust);
    assert |EmptyHash(c)| == 64;
    if i > 0 {
      assert |EntryHash(c, es[i - 1])| == 64;
    }
    assert |c.sha256(PayloadText(es[i]))| == 64;
  }

  lemma {:induction false} SameHashSameContent(c: Crypto, e: Entry, f: Entry)
    requires PayloadWf(e) && PayloadWf(f) && HashesBound(c, e) && HashesBound(c, f)
    requires EntryHash(c, e) == EntryHash(c, f)
    ensures SameContent(e, f) || Collision(c, e, f)
  {
    if SigningString(e) == SigningString(f) {
      SigningStringDecodes(e, f);
      if PayloadText(e) == PayloadText(f) {
        PayloadTextIs(e);
        PayloadTextIs(f);
        SameTextIffSame(PayloadOrEmpty(e), PayloadOrEmpty(f));
      }
    }
  }

  // ---------- Whole chains ----------

  lemma {:induction false} ChainsAgree(
    c: Crypto, es: seq<Entry>, fs: seq<Entry>, trustE: TrustRoot, trustF: TrustRoot)
    requires Sound(c) && GoodChain(c, es, trustE) && GoodChain(c, fs, trustF)
    requires es != [] && |es| == |fs|
    requires EntryHash(c, es[|es| - 1]) == EntryHash(c, fs[|fs| - 1])
    ensures SameContents(es, fs) || SomeCollision(c, es, fs)
    decreases |es|
  {
    var n := |es| - 1;
    HeadsAgree(c, es, fs, trustE, trustF);
    if Collision(c, es[n], fs[n]) {
      assert SomeCollision(c, es, fs);
    } else if n > 0 {
      var es', fs' := es[..n], fs[..n];
      assert es'[n - 1] == es[n - 1] && fs'[n - 1] == fs[n - 1];
      GoodInit(c, es, trustE);
      GoodInit(c, fs, trustF);
      ChainsAgree(c, es', fs', trustE, trustF);
      ExtendAgreement(c, es, fs);
    }
  }

  lemma {:induction false} ExtendAgreement(c: Crypto, es: seq<Entry>, fs: seq<Entry>)
    requires es != [] && |es| == |fs| && SameContent(es[|es| - 1], fs[|fs| - 1])
    requires var n := |es| - 1; SameContents(es[..n], fs[..n]) || SomeCollision(c, es[..n], fs[..n])
    ensures SameContents(es, fs) || SomeCollision(c, es, fs)
  {
  }

  lemma {:induction false} HeadsAgree(c: Crypto, es: seq<Entry>, fs: seq<Entry>, trustE: TrustRoot, trustF: TrustRoot)
    requires Sound(c) && GoodChain(c, es, trustE) && GoodChain(c, fs, trustF)
    requires es != [] && fs != []
    requires EntryHash(c, es[|es| - 1]) == EntryHash(c, fs[|fs| - 1])
    ensures var e, f := es[|es| - 1], fs[|fs| - 1];
            (SameContent(e, f) && |es| == |fs| && (|es| > 1 ==> EntryHash(c, es[|es| - 2]) == EntryHash(c, fs[|fs| - 2])))
            || Collision(c, e, f)
  {
    RulesBindHashes(c, es, |es| - 1, trustE);
    RulesBindHashes(c, fs, |fs| - 1, trustF);
    SameHashSameContent(c, es[|es| - 1], fs[|fs| - 1]);
  }

  lemma {:induction false} ChainsWithSameHead(
    c: Crypto, es: seq<Entry>, fs: seq<Entry>, trustE: TrustRoot, trustF: TrustRoot)
    requires Sound(c) && GoodChain(c, es, trustE) && GoodChain(c, fs, trustF)
    requires es != [] && fs != []
    requires EntryHash(c, es[|es| - 1]) == EntryHash(c, fs[|fs| - 1])
    ensures SameContents(es, fs) || SomeCollision(c, es, fs)
  {
    HeadsAgree(c, es, fs, trustE, trustF);
    if Collision(c, es[|es| - 1], fs[|fs| - 1]) {
      assert SomeCollision(c, es, fs);
    } else {
      ChainsAgree(c, es, fs, trustE, trustF);
    }
  }

  lemma {:induction false} GoodInit(c: Crypto, es: seq<Entry>, trust: TrustRoot)
    requires GoodChain(c, es, trust) && es != []
    ensures GoodChain(c, es[..|es| - 1], trust)
  {
    assert es == es[..|es| - 1] + [es[|es| - 1]];
    GoodSplit(c, es[..|es| - 1], es[|es| - 1], trust);
  }

  /**
   * Two non-empty ledgers that are reported valid with the same head hash have the same length
   * and the same contents at every position, or two of the texts they hash collide.
   */
  lemma {:induction false} SameHeadSameLedger(c: Crypto, a: seq<Text>, b: seq<Text>, trustA: TrustRoot, trustB: TrustRoot)
    requires Sound(c) && a != [] && b != []
    requires Valid(c, a, trustA) && Valid(c, b, trustB)
    requires ReportOf(c, a, trustA).headHash == ReportOf(c, b, trustB).headHash
    ensures SameContents(ReadAll(a), ReadAll(b)) || SomeCollision(c, ReadAll(a), ReadAll(b))
  {
    var h := ReportOf(c, a, trustA).headHash;
    var es := ReadValid(c, a, trustA, h);
    var fs := ReadValid(c, b, trustB, h);
    ChainsWithSameHead(c, es, fs, trustA, trustB);
  }

  /** The chain of a valid ledger, with the hash of its head. */
  lemma {:induction false} ReadValid(c: Crypto, lines: seq<Text>, trust: TrustRoot, h: Option<Text>) returns (es: seq<Entry>)
    requires Valid(c, lines, trust) && lines != [] && h == ReportOf(c, lines, trust).headHash
    ensures es == ReadAll(lines) && es != [] && GoodChain(c, es, trust)
    ensures h == HeadHashOf(c, es)
  {
    es := ReadAll(lines);
    ValidByReading(c, lines, trust);
    HeadHashOfPassing(c, lines, trust);
  }

  // ---------- What the head hash leaves open ----------

  /** The entry without its signature, and with any idempotency key. */
  function Stripped(e: Entry, key: Option<Text>): Entry {
    e.(signerKeyId := HASH_ONLY, signature := None, signerPublicKey := None, idempotencyKey := key)
  }

  lemma {:induction false} StrippedHash(c: Crypto, e: Entry, key: Option<Text>)
    ensures EntryHash(c, Stripped(e, key)) == EntryHash(c, e)
    ensures PayloadText(Stripped(e, key)) == PayloadText(e)
    ensures ReceiptOk(c, Stripped(e, key)) <==> ReceiptOk(c, e)
  {
    assert HeaderFields(Stripped(e, key)) == HeaderFields(e);
  }

  lemma {:induction false} StrippedForm(e: Entry, key: Option<Text>)
    requires FormOk(e)
    ensures FormOk(Stripped(e, key))
  {
    assert |HASH_ONLY| == 9;
  }

  lemma {:induction false} StrippedRules(c: Crypto, es: seq<Entry>, i: nat, key: Option<Text>, j: nat, trust: TrustRoot)
    requires i < |es| && j < |es| && RulesOk(c, es, j, trust)
    ensures RulesOk(c, es[i := Stripped(es[i], key)], j, trust)
  {
    var fs := es[i := Stripped(es[i], key)];
    StrippedHash(c, es[i], key);
    assert forall k :: 0 <= k < |es| ==> fs[k].entryId == es[k].entryId && fs[k].ledgerId == es[k].ledgerId;
    assert j > 0 ==> EntryHash(c, fs[j - 1]) == EntryHash(c, es[j - 1]);
    assert forall k :: PayloadField(fs[0], k) == PayloadField(es[0], k);
  }

  lemma {:induction false} StrippedIsGood(c: Crypto, es: seq<Entry>, i: nat, key: Option<Text>, trust: TrustRoot)
    requires GoodChain(c, es, trust) && i < |es|
    ensures GoodChain(c, es[i := Stripped(es[i], key)], trust)
  {
    var fs := es[i := Stripped(es[i], key)];
    forall j | 0 <= j < |fs| ensures LocalOk(c, fs, j, trust) {
      assert LocalOk(c, es, j, trust);
      StrippedForm(es[j], key);
      StrippedRules(c, es, i, key, j, trust);
    }
  }

  lemma {:induction false} StrippedHead(c: Crypto, es: seq<Entry>, i: nat, key: Option<Text>)
    requires i < |es|
    ensures var fs := es[i := Stripped(es[i], key)]; EntryHash(c, fs[|fs| - 1]) == EntryHash(c, es[|es| - 1])
  {
    StrippedHash(c, es[i], key);
  }

  lemma {:induction false} StrippedLedger(
    c: Crypto, lines: seq<Text>, es: seq<Entry>, i: nat, key: Option<Text>, trust: TrustRoot)
    requires Stores(lines, es) && GoodChain(c, es, trust) && i < |es|
    ensures var other := lines[i := EntryLine(Stripped(es[i], key))];
            && Valid(c, other, trust)
            && ReportOf(c, other, trust).headHash == ReportOf(c, lines, trust).headHash
  {
    var fs := es[i := Stripped(es[i], key)];
    var other := lines[i := EntryLine(Stripped(es[i], key))];
    StrippedIsGood(c, es, i, key, trust);
    StrippedStores(lines, es, i, key);
    StrippedHead(c, es, i, key);
    StoredIsValid(c, lines, es, trust);
    StoredIsValid(c, other, fs, trust);
  }

  /**
   * Sharpness: the signature of any entry of a valid ledger can be removed and its idempotency key
   * rewritten, and the ledger stays valid with the same head hash.
   */
  lemma {:induction false} SignaturesAreNotCovered(c: Crypto, lines: seq<Text>, i: nat, key: Option<Text>, trust: TrustRoot)
    requires Valid(c, lines, trust) && i < |lines|
    ensures var e := ReadAll(lines)[i];
            var other := lines[i := EntryLine(Stripped(e, key))];
            && Valid(c, other, trust)
            && ReportOf(c, other, trust).headHash == ReportOf(c, lines, trust).headHash
            && (Stripped(e, key) != e ==> other != lines)
  {
    ValidByReading(c, lines, trust);
    ReadsStore(lines);
    var es := ReadAll(lines);
    StrippedLedger(c, lines, es, i, key, trust);
    LineTellsEntries(c, lines, es, i, key, trust);
  }

  lemma {:induction false} LineTellsEntries(
    c: Crypto, lines: seq<Text>, es: seq<Entry>, i: nat, key: Option<Text>, trust: TrustRoot)
    requires Stores(lines, es) && GoodChain(c, es, trust) && i < |es|
    ensures Stripped(es[i], key) != es[i] ==> lines[i := EntryLine(Stripped(es[i], key))] != lines
  {
    assert LocalOk(c, es, i, trust);
    assert lines[i] == EntryLine(es[i]);
    StrippedLineDiffers(es[i], key);
    assert lines[i := EntryLine(Stripped(es[i], key))][i] == EntryLine(Stripped(es[i], key));
  }

  lemma {:induction false} StrippedStores(lines: seq<Text>, es: seq<Entry>, i: nat, key: Option<Text>)
    requires Stores(lines, es) && i < |es|
    ensures Stores(lines[i := EntryLine(Stripped(es[i], key))], es[i := Stripped(es[i], key)])
  {
    var fs := es[i := Stripped(es[i], key)];
    forall j | 0 <= j < |fs|
      ensures PayloadWf(fs[j]) && lines[i := EntryLine(Stripped(es[i], key))][j] == EntryLine(fs[j])
    {
      assert lines[j] == EntryLine(es[j]) && PayloadWf(es[j]);
    }
  }

  lemma {:induction false} StrippedLineDiffers(e: Entry, key: Option<Text>)
    requires FormOk(e)
    ensures Stripped(e, key) != e ==> EntryLine(Stripped(e, key)) != EntryLine(e)
  {
    var f := Stripped(e, key);
    StrippedForm(e, key);
    ReadEntryLine(e);
    ReadEntryLine(f);
    assert EntryLine(f) == EntryLine(e) ==> NormEntry(f) == NormEntry(e);
    assert NormEntry(f).(payload := e.payload) == f && NormEntry(e).(payload := e.payload) == e;
  }
}
