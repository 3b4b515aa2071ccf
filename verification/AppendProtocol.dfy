/**
 * The optimistic append protocol over whole runs: any requests, in any order, by any number of
 * writers that each build on a head they read at some earlier time.
 */
module AppendProtocol {
  import opened Wrappers
  import opened JsText
  import opened Json
  import opened Canonical
  import opened LedgerEntry
  import opened LedgerBuild
  import opened LedgerReach
  import opened LedgerRules
  import TamperEvidence

  // ---------- Runs of requests ----------

  /** The shared chain after a request: longer by the entry if it was appended, the same if not. */
  function Submit(c: Crypto, chain: seq<Entry>, request: AppendRequest): seq<Entry> {
    match AppendEntry(c, request, chain)
    case Appended(entry, _) => chain + [entry]
    case _ => chain
  }

  type Step = (seq<Entry>, AppendRequest) -> seq<Entry>

  /** `Submit` as a step of a run. */
  function Submitter(c: Crypto): Step {
    (chain, request) => Submit(c, chain, request)
  }

  function After(step: Step, chain: seq<Entry>, requests: seq<AppendRequest>, t: nat): seq<Entry>
    requires t <= |requests|
  {
    if t == 0 then chain else step(After(step, chain, requests, t - 1), requests[t - 1])
  }

  /** A request is accepted when it changes the chain. */
  predicate Accepted(step: Step, chain: seq<Entry>, requests: seq<AppendRequest>, t: nat)
    requires t < |requests|
  {
    step(After(step, chain, requests, t), requests[t]) != After(step, chain, requests, t)
  }

  /** All that the results on runs use of `appendEntry`: whom it accepts continues the sequence. No hash appears. */
  ghost predicate Optimistic(step: Step) {
    forall s, r {:trigger step(s, r)} :: step(s, r) == s ||
      (&& s != []
       && step(s, r) == s + [r.entry]
       && r.entry.sequence == r.expectedSequence == s[|s| - 1].sequence + 1)
  }

  lemma {:induction false} AppendIsOptimistic(c: Crypto)
    ensures Optimistic(Submitter(c))
    ensures forall s, r {:trigger Submitter(c)(s, r)} ::
              Submitter(c)(s, r) != s <==> AppendEntry(c, r, s).Appended?
  {
  }

  lemma {:induction false} SubmitAppends(c: Crypto, chain: seq<Entry>, request: AppendRequest)
    ensures AppendEntry(c, request, chain).Appended? ==>
              && chain != []
              && Submit(c, chain, request) == chain + [request.entry]
              && request.entry.sequence == request.expectedSequence == chain[|chain| - 1].sequence + 1
    ensures !AppendEntry(c, request, chain).Appended? ==> Submit(c, chain, request) == chain
  {
  }

  ghost predicate Consecutive(chain: seq<Entry>) {
    forall i :: 0 <= i < |chain| ==> chain[i].sequence == chain[0].sequence + i
  }

  lemma {:induction false} ChainOnlyGrows(
    step: Step, chain: seq<Entry>, requests: seq<AppendRequest>, t: nat, u: nat)
    requires Optimistic(step) && t <= u <= |requests|
    ensures After(step, chain, requests, t) <= After(step, chain, requests, u)
  {
    if t < u {
      ChainOnlyGrows(step, chain, requests, t, u - 1);
    }
  }

  lemma {:induction false} StaysConsecutive(step: Step, chain: seq<Entry>, requests: seq<AppendRequest>, t: nat)
    requires Optimistic(step) && Consecutive(chain) && t <= |requests|
    ensures Consecutive(After(step, chain, requests, t))
    ensures After(step, chain, requests, t) != [] ==>
              chain != [] && After(step, chain, requests, t)[0] == chain[0]
  {
    if t > 0 {
      StaysConsecutive(step, chain, requests, t - 1);
    }
  }

  /** An accepted request carries the one sequence number that the chain was waiting for. */
  lemma {:induction false} AcceptedSequence(step: Step, chain: seq<Entry>, requests: seq<AppendRequest>, t: nat)
    requires Optimistic(step) && Consecutive(chain)
    requires t < |requests| && Accepted(step, chain, requests, t)
    ensures chain != []
    ensures requests[t].expectedSequence == chain[0].sequence + |After(step, chain, requests, t)|
    ensures requests[t].entry.sequence == requests[t].expectedSequence
    ensures After(step, chain, requests, t + 1) == After(step, chain, requests, t) + [requests[t].entry]
  {
    StaysConsecutive(step, chain, requests, t);
  }

  /** In any run at most one request per sequence number is accepted. */
  lemma {:induction false} OnePerSequence(step: Step, chain: seq<Entry>, requests: seq<AppendRequest>, t: nat, u: nat)
    requires Optimistic(step) && Consecutive(chain) && t < u < |requests|
    requires Accepted(step, chain, requests, t) && Accepted(step, chain, requests, u)
    ensures requests[t].entry.sequence < requests[u].entry.sequence
    ensures requests[t].expectedSequence < requests[u].expectedSequence
  {
    AcceptedSequence(step, chain, requests, t);
    AcceptedSequence(step, chain, requests, u);
    ChainOnlyGrows(step, chain, requests, t + 1, u);
  }

  /** The entries of the accepted requests among the first `t`, in order. */
  function AcceptedEntries(step: Step, chain: seq<Entry>, requests: seq<AppendRequest>, t: nat): seq<Entry>
    requires t <= |requests|
  {
    if t == 0 then []
    else
      AcceptedEntries(step, chain, requests, t - 1)
        + if Accepted(step, chain, requests, t - 1) then [requests[t - 1].entry] else []
  }

  /** The chain is what it was, followed by exactly the accepted entries. */
  lemma {:induction false} ChainIsAccepted(step: Step, chain: seq<Entry>, requests: seq<AppendRequest>, t: nat)
    requires Optimistic(step) && t <= |requests|
    ensures After(step, chain, requests, t) == chain + AcceptedEntries(step, chain, requests, t)
  {
    if t > 0 {
      ChainIsAccepted(step, chain, requests, t - 1);
    }
  }

  // ---------- Writers with stale heads ----------

  /** What a writer has read: a head, and how long the chain was then. */
  datatype Seen = Seen(head: Entry, length: nat)

  datatype State = State(chain: seq<Entry>, seen: map<nat, Seen>)

  datatype Event = Read(writer: nat) | Write(writer: nat, input: EntryInput, signing: Signing)

  /** A writer builds on the head it has read, and says so in its request. */
  function RequestOn(c: Crypto, head: Entry, input: EntryInput, signing: Signing): Option<AppendRequest> {
    match BuildNext(c, [head], input, signing)
    case Throws(_) => None
    case Made(e) => Some(AppendRequest(head.ledgerId, EntryHash(c, head), head.sequence + 1, e))
  }

  function Next(c: Crypto, s: State, event: Event): State {
    match event
    case Read(w) =>
      if s.chain == [] then s else s.(seen := s.seen[w := Seen(s.chain[|s.chain| - 1], |s.chain|)])
    case Write(w, input, signing) =>
      if w !in s.seen then s
      else
        match RequestOn(c, s.seen[w].head, input, signing)
        case None => s
        case Some(request) => s.(chain := Submit(c, s.chain, request))
  }

  ghost predicate Inv(s: State) {
    && Consecutive(s.chain)
    && (s.chain != [] ==> s.chain[0].entryType == GENESIS)
    && forall w :: w in s.seen ==>
         0 < s.seen[w].length <= |s.chain| && s.seen[w].head == s.chain[s.seen[w].length - 1]
  }

  lemma {:induction false} SubmitKeepsInv(c: Crypto, s: State, request: AppendRequest)
    requires Inv(s)
    ensures Inv(s.(chain := Submit(c, s.chain, request))) && s.chain <= Submit(c, s.chain, request)
  {
  }

  lemma {:induction false} NextKeepsInv(c: Crypto, s: State, event: Event)
    requires Inv(s)
    ensures Inv(Next(c, s, event))
    ensures s.chain <= Next(c, s, event).chain
  {
    if event.Write? && event.writer in s.seen {
      match RequestOn(c, s.seen[event.writer].head, event.input, event.signing)
      case None =>
      case Some(request) => SubmitKeepsInv(c, s, request);
    }
  }

  function RunEvents(c: Crypto, s: State, events: seq<Event>): State {
    if events == [] then s else Next(c, RunEvents(c, s, events[..|events| - 1]), events[|events| - 1])
  }

  lemma {:induction false} RunKeepsInv(c: Crypto, s: State, events: seq<Event>)
    requires Inv(s)
    ensures Inv(RunEvents(c, s, events))
    ensures s.chain <= RunEvents(c, s, events).chain
  {
    if events != [] {
      var before := RunEvents(c, s, events[..|events| - 1]);
      RunKeepsInv(c, s, events[..|events| - 1]);
      NextKeepsInv(c, before, events[|events| - 1]);
    }
  }

  /** How an append ends, given only how the request compares with the head. */
  lemma {:induction false} Outcome(c: Crypto, chain: seq<Entry>, request: AppendRequest, head: Entry)
    requires chain != [] && (|chain| == 1 ==> chain[0].entryType == GENESIS)
    requires request.entry.sequence == request.expectedSequence == head.sequence + 1
    requires request.entry.previousEntryHash == request.expectedHeadHash == EntryHash(c, head)
    requires head.sequence == chain[|chain| - 1].sequence ==> head == chain[|chain| - 1]
    ensures var result := AppendEntry(c, request, chain);
            && (result.Duplicate? <==> !IsNew(chain, request))
            && (result.Appended? <==> IsNew(chain, request) && head.sequence == chain[|chain| - 1].sequence)
            && (result.HeadConflict? <==> IsNew(chain, request) && head.sequence != chain[|chain| - 1].sequence)
  {
  }

  /** Neither the key nor the entry id of the request is recorded. */
  predicate IsNew(chain: seq<Entry>, request: AppendRequest) {
    && (request.entry.idempotencyKey.Some? ==>
          FindKey(chain, request.ledgerId, request.entry.idempotencyKey.value).None?)
    && FindId(chain, request.entry.entryId).None?
  }

  /**
   * The outcome of a submission in any reachable state. A writer whose key and entry id are new
   * is accepted exactly when nobody has extended the chain since it read its head; otherwise it
   * gets a head conflict, and the chain is as it was.
   */
  lemma {:induction false} StaleWritersAreFenced(
    c: Crypto, start: State, events: seq<Event>, w: nat, input: EntryInput, signing: Signing)
    requires Inv(start)
    requires var s := RunEvents(c, start, events);
             w in s.seen && RequestOn(c, s.seen[w].head, input, signing).Some?
    ensures var s := RunEvents(c, start, events);
            var request := RequestOn(c, s.seen[w].head, input, signing).value;
            var result := AppendEntry(c, request, s.chain);
            && (result.Duplicate? <==> !IsNew(s.chain, request))
            && (result.Appended? <==> IsNew(s.chain, request) && s.seen[w].length == |s.chain|)
            && (result.HeadConflict? <==> IsNew(s.chain, request) && s.seen[w].length < |s.chain|)
  {
    RunKeepsInv(c, start, events);
    var s := RunEvents(c, start, events);
    var seen := s.seen[w];
    var request := RequestOn(c, seen.head, input, signing).value;
    RequestFollowsHead(c, seen.head, input, signing);
    SequenceTells(s, w);
    Outcome(c, s.chain, request, seen.head);
  }

  /** A remembered head is the current one exactly when the chain has not grown since. */
  lemma {:induction false} SequenceTells(s: State, w: nat)
    requires Inv(s) && w in s.seen
    ensures s.chain != [] && s.seen[w].length <= |s.chain|
    ensures s.seen[w].length == |s.chain| ==> s.seen[w].head == s.chain[|s.chain| - 1]
    ensures s.seen[w].head.sequence == s.chain[|s.chain| - 1].sequence <==> s.seen[w].length == |s.chain|
  {
  }

  lemma {:induction false} RequestFollowsHead(c: Crypto, head: Entry, input: EntryInput, signing: Signing)
    requires RequestOn(c, head, input, signing).Some?
    ensures var request := RequestOn(c, head, input, signing).value;
            && request.entry.sequence == request.expectedSequence == head.sequence + 1
            && request.entry.previousEntryHash == request.expectedHeadHash == EntryHash(c, head)
  {
  }

  // ---------- Idempotency ----------

  predicate SameKey(e: Entry, f: Entry) {
    e.idempotencyKey.Some? && e.idempotencyKey == f.idempotencyKey && e.ledgerId == f.ledgerId
  }

  /** No two entries share ledger and idempotency key. */
  ghost predicate UniqueKeys(chain: seq<Entry>) {
    forall i, j :: 0 <= i < j < |chain| ==> !SameKey(chain[i], chain[j])
  }

  /** After an append the keys are unique exactly when the entry's own key was not recorded under its own ledger. */
  lemma {:induction false} UniqueKeysIff(c: Crypto, chain: seq<Entry>, request: AppendRequest)
    requires UniqueKeys(chain) && AppendEntry(c, request, chain).Appended?
    ensures UniqueKeys(Submit(c, chain, request)) <==>
              (request.entry.idempotencyKey.Some? ==>
                 FindKey(chain, request.entry.ledgerId, request.entry.idempotencyKey.value).None?)
  {
    SubmitAppends(c, chain, request);
    var e, more := request.entry, Submit(c, chain, request);
    assert forall i :: 0 <= i < |chain| ==> more[i] == chain[i];
    assert more[|chain|] == e;
    if e.idempotencyKey.Some? {
      var key := e.idempotencyKey.value;
      assert forall i :: 0 <= i < |chain| ==> (HoldsKey(chain[i], e.ledgerId, key) <==> SameKey(chain[i], more[|chain|]));
      if FindKey(chain, e.ledgerId, key).Some? {
        var i :| FirstAt(chain, i, e.ledgerId, key);
        assert SameKey(more[i], more[|chain|]);
      }
    }
  }

  /** `appendEntry` sees to it by itself when the request and its entry name the same ledger. */
  lemma {:induction false} KeysStayUnique(c: Crypto, chain: seq<Entry>, request: AppendRequest)
    requires UniqueKeys(chain) && request.ledgerId == request.entry.ledgerId
    ensures UniqueKeys(Submit(c, chain, request))
  {
  }

  lemma {:induction false} KeysStayUniqueInRuns(c: Crypto, chain: seq<Entry>, requests: seq<AppendRequest>, t: nat)
    requires UniqueKeys(chain) && t <= |requests|
    requires forall i :: 0 <= i < |requests| ==> requests[i].ledgerId == requests[i].entry.ledgerId
    ensures UniqueKeys(After(Submitter(c), chain, requests, t))
  {
    if t > 0 {
      KeysStayUniqueInRuns(c, chain, requests, t - 1);
      KeysStayUnique(c, After(Submitter(c), chain, requests, t - 1), requests[t - 1]);
    }
  }

  /** It does not when they differ: for any two ledgers there is an append that records a key twice. */
  lemma {:induction false} LedgerMismatchRepeatsKey(c: Crypto, a: Text, b: Text, template: Entry)
      returns (chain: seq<Entry>, request: AppendRequest)
    requires a != b
    ensures request.ledgerId == a && request.entry.ledgerId == b
    ensures UniqueKeys(chain) && AppendEntry(c, request, chain).Appended?
    ensures !UniqueKeys(Submit(c, chain, request))
  {
    var key := Some([]);
    var first := template.(entryType := GENESIS, ledgerId := b, entryId := [], idempotencyKey := key);
    var e := first.(entryId := [0], sequence := first.sequence + 1, previousEntryHash := EntryHash(c, first));
    chain := [first];
    request := AppendRequest(a, EntryHash(c, first), first.sequence + 1, e);
    assert !HoldsKey(chain[0], a, []);
    var more := Submit(c, chain, request);
    assert more == [first, e];
    assert SameKey(more[0], more[1]);
  }

  lemma {:induction false} ContentNames(e: Entry)
    ensures Distinct(Names(ContentFields(e))) && Wf(Obj(Compact(ContentFields(e))))
  {
    var fs := ContentFields(e);
    assert |fs[0].name| == 9 && |fs[1].name| == 11 && |fs[2].name| == 11;
    assert fs[1].name[0] == 'p' as int && fs[2].name[0] == 'r' as int;
    var ns := Names(fs);
    assert ns[0] != ns[1] && ns[0] != ns[2] && ns[1] != ns[2];
    CompactWf(fs);
  }

  /** The content key compares exactly the type and the two content hashes. */
  lemma {:induction false} ContentKeyIff(e: Entry, f: Entry)
    ensures ContentKey(e) == ContentKey(f) <==>
              e.entryType == f.entryType && e.payloadHash == f.payloadHash && e.receiptHash == f.receiptHash
  {
    ContentNames(e);
    ContentNames(f);
    var fs, gs := ContentFields(e), ContentFields(f);
    SameTextIffSame(Obj(Compact(fs)), Obj(Compact(gs)));
    if ContentKey(e) == ContentKey(f) {
      ContentField(e, f, 0);
      ContentField(e, f, 1);
      ContentField(e, f, 2);
    }
  }

  lemma {:induction false} ContentField(e: Entry, f: Entry, i: nat)
    requires i < 3 && Same(Obj(Compact(ContentFields(e))), Obj(Compact(ContentFields(f))))
    ensures ContentFields(e)[i].value == ContentFields(f)[i].value
  {
    ContentNames(e);
    ContentNames(f);
    CompactGet(ContentFields(e), i);
    CompactGet(ContentFields(f), i);
    assert ContentFields(e)[i].name == ContentFields(f)[i].name;
    TamperEvidence.SameScalar(Compact(ContentFields(e)), Compact(ContentFields(f)), ContentFields(e)[i].name);
  }

  /**
   * Resubmitting a recorded key returns the recorded entry, whatever head the request names: as a
   * replay exactly when the type and both content hashes are equal, as a conflict otherwise.
   */
  lemma {:induction false} ResubmittedKey(c: Crypto, chain: seq<Entry>, i: nat, request: AppendRequest)
    requires i < |chain| && UniqueKeys(chain) && (|chain| == 1 ==> chain[0].entryType == GENESIS)
    requires request.entry.idempotencyKey.Some?
    requires HoldsKey(chain[i], request.ledgerId, request.entry.idempotencyKey.value)
    ensures var e := request.entry;
            var same := e.entryType == chain[i].entryType && e.payloadHash == chain[i].payloadHash
                          && e.receiptHash == chain[i].receiptHash;
            AppendEntry(c, request, chain)
              == Duplicate(if same then IdempotencyReplay else IdempotencyConflict, chain[i])
    ensures Submit(c, chain, request) == chain
  {
    var key := request.entry.idempotencyKey.value;
    assert FindKey(chain, request.ledgerId, key).Some?;
    var j :| FirstAt(chain, j, request.ledgerId, key) && FindKey(chain, request.ledgerId, key).value == chain[j];
    assert j <= i;
    assert j < i ==> SameKey(chain[j], chain[i]);
    ContentKeyIff(request.entry, chain[i]);
  }

  /** Once accepted with a key, a request can be sent again at any later time: it finds its own entry. */
  lemma {:induction false} ReplayFindsItsEntry(
    c: Crypto, chain: seq<Entry>, requests: seq<AppendRequest>, t: nat, u: nat, again: AppendRequest)
    requires UniqueKeys(chain)
    requires forall i :: 0 <= i < |requests| ==> requests[i].ledgerId == requests[i].entry.ledgerId
    requires t < u <= |requests| && Accepted(Submitter(c), chain, requests, t)
    requires requests[t].entry.idempotencyKey.Some?
    requires again.ledgerId == requests[t].ledgerId && again.entry == requests[t].entry
    ensures AppendEntry(c, again, After(Submitter(c), chain, requests, u))
              == Duplicate(IdempotencyReplay, requests[t].entry)
  {
    KeysStayUniqueInRuns(c, chain, requests, u);
    AppendIsOptimistic(c);
    var i := AcceptedStays(Submitter(c), chain, requests, t, u);
    ResubmittedKey(c, After(Submitter(c), chain, requests, u), i, again);
  }

  lemma {:induction false} AcceptedStays(step: Step, chain: seq<Entry>, requests: seq<AppendRequest>, t: nat, u: nat) returns (i: nat)
    requires Optimistic(step)
    requires t < u <= |requests| && Accepted(step, chain, requests, t)
    ensures var now := After(step, chain, requests, u);
            0 < i < |now| && now[i] == requests[t].entry
  {
    i := |After(step, chain, requests, t)|;
    ChainOnlyGrows(step, chain, requests, t + 1, u);
  }

  // ---------- Every outcome, for every request ----------

  /** The entry at `i` holds the key of the request under the ledger the request names. */
  predicate KeyAt(chain: seq<Entry>, request: AppendRequest, i: int) {
    && 0 <= i < |chain| && request.entry.idempotencyKey.Some?
    && chain[i].ledgerId == request.ledgerId && chain[i].idempotencyKey == request.entry.idempotencyKey
  }

  ghost predicate KeyRecorded(chain: seq<Entry>, request: AppendRequest) {
    exists i :: KeyAt(chain, request, i)
  }

  ghost predicate IdRecorded(chain: seq<Entry>, entryId: Text) {
    exists i :: 0 <= i < |chain| && chain[i].entryId == entryId
  }

  /** The request and its entry both name the hash of the head and the number after its own. */
  predicate Continues(c: Crypto, head: Entry, request: AppendRequest) {
    var hash := c.sha256(SignedText(head));
    && request.expectedHeadHash == hash && request.entry.previousEntryHash == hash
    && request.expectedSequence == head.sequence + 1 && request.entry.sequence == head.sequence + 1
  }

  predicate SameTypeAndHashes(e: Entry, f: Entry) {
    e.entryType == f.entryType && e.payloadHash == f.payloadHash && e.receiptHash == f.receiptHash
  }

  lemma {:induction false} UnusableChain(c: Crypto, chain: seq<Entry>, request: AppendRequest)
    ensures AppendEntry(c, request, chain) == InvalidChain(NoGenesis) <==> chain == []
    ensures AppendEntry(c, request, chain) == InvalidChain(FirstIsNotGenesis) <==>
              |chain| == 1 && chain[0].entryType != Lit("GENESIS")
  {
  }

  /** A chain that can be appended to: not empty, and not a single entry that is no genesis. */
  predicate Usable(chain: seq<Entry>) {
    chain != [] && (|chain| == 1 ==> chain[0].entryType == Lit("GENESIS"))
  }

  /** With a new key and a new id, a request is appended exactly when it continues the head; else it is told the head. */
  lemma {:induction false} AppendedIff(c: Crypto, chain: seq<Entry>, request: AppendRequest)
    requires Usable(chain)
    ensures var head := chain[|chain| - 1];
            var result := AppendEntry(c, request, chain);
            var isNew := !KeyRecorded(chain, request) && !IdRecorded(chain, request.entry.entryId);
            && (result.Appended? <==> isNew && Continues(c, head, request))
            && (isNew && Continues(c, head, request) ==>
                  result == Appended(request.entry, c.sha256(SignedText(request.entry))))
            && (result.HeadConflict? <==> isNew && !Continues(c, head, request))
            && (isNew && !Continues(c, head, request) ==>
                  result == HeadConflict(request.expectedHeadHash, c.sha256(SignedText(head)),
                                         request.expectedSequence, head.sequence + 1))
            && (result.Duplicate? <==> !isNew)
  {
    SignedTextIs(chain[|chain| - 1]);
    SignedTextIs(request.entry);
    KeyRecordedIff(chain, request);
  }

  lemma {:induction false} KeyRecordedIff(chain: seq<Entry>, request: AppendRequest)
    ensures request.entry.idempotencyKey.Some? ==>
              (FindKey(chain, request.ledgerId, request.entry.idempotencyKey.value).None? <==> !KeyRecorded(chain, request))
    ensures request.entry.idempotencyKey.None? ==> !KeyRecorded(chain, request)
    ensures FindId(chain, request.entry.entryId).None? <==> !IdRecorded(chain, request.entry.entryId)
  {
    if request.entry.idempotencyKey.Some? {
      forall i | 0 <= i < |chain|
        ensures KeyAt(chain, request, i) <==> HoldsKey(chain[i], request.ledgerId, request.entry.idempotencyKey.value)
      {
      }
    }
  }

  /** A duplicate names the first entry with the key, or with the id if the key is new, and says how it compares. */
  lemma {:induction false} DuplicateOf(c: Crypto, chain: seq<Entry>, request: AppendRequest, i: nat)
    requires Usable(chain) && i < |chain|
    ensures KeyAt(chain, request, i) && (forall j :: 0 <= j < i ==> !KeyAt(chain, request, j)) ==>
              AppendEntry(c, request, chain) ==
                Duplicate(if SameTypeAndHashes(request.entry, chain[i]) then IdempotencyReplay else IdempotencyConflict, chain[i])
    ensures !KeyRecorded(chain, request) && chain[i].entryId == request.entry.entryId
              && (forall j :: 0 <= j < i ==> chain[j].entryId != request.entry.entryId) ==>
              AppendEntry(c, request, chain) == Duplicate(EntryIdExists, chain[i])
  {
    KeyRecordedIff(chain, request);
    ContentKeyIff(request.entry, chain[i]);
    if KeyAt(chain, request, i) && forall j :: 0 <= j < i ==> !KeyAt(chain, request, j) {
      FirstKeyFound(chain, request, i);
    }
    if chain[i].entryId == request.entry.entryId && forall j :: 0 <= j < i ==> chain[j].entryId != request.entry.entryId {
      FindIdIsFirst(chain, request.entry.entryId, i);
    }
  }

  lemma {:induction false} FirstKeyFound(chain: seq<Entry>, request: AppendRequest, i: nat)
    requires KeyAt(chain, request, i) && forall j :: 0 <= j < i ==> !KeyAt(chain, request, j)
    ensures FindKey(chain, request.ledgerId, request.entry.idempotencyKey.value) == Some(chain[i])
  {
    var key := request.entry.idempotencyKey.value;
    forall j | 0 <= j < |chain| ensures HoldsKey(chain[j], request.ledgerId, key) <==> KeyAt(chain, request, j) {
    }
    assert HoldsKey(chain[i], request.ledgerId, key);
    var found := FindKey(chain, request.ledgerId, key);
    assert found.Some?;
    var j :| FirstAt(chain, j, request.ledgerId, key) && found.value == chain[j];
    assert j <= i;
    assert KeyAt(chain, request, j);
  }

  // ---------- The hash links of a run ----------

  /** Every entry names the hash of the one before it. */
  ghost predicate HashLinked(c: Crypto, chain: seq<Entry>) {
    forall i :: 0 < i < |chain| ==> chain[i].previousEntryHash == c.sha256(SignedText(chain[i - 1]))
  }

  lemma {:induction false} SubmitKeepsLinks(c: Crypto, chain: seq<Entry>, request: AppendRequest)
    requires HashLinked(c, chain)
    ensures HashLinked(c, Submit(c, chain, request))
  {
    SubmitAppends(c, chain, request);
    UnusableChain(c, chain, request);
    if AppendEntry(c, request, chain).Appended? {
      AppendedIff(c, chain, request);
      var more := chain + [request.entry];
      assert forall i :: 0 <= i < |chain| ==> more[i] == chain[i];
    }
  }

  /** Whatever is submitted, in whatever order, the chain stays linked. */
  lemma {:induction false} RunsKeepLinks(c: Crypto, chain: seq<Entry>, requests: seq<AppendRequest>, t: nat)
    requires HashLinked(c, chain) && t <= |requests|
    ensures HashLinked(c, After(Submitter(c), chain, requests, t))
  {
    if t > 0 {
      RunsKeepLinks(c, chain, requests, t - 1);
      SubmitKeepsLinks(c, After(Submitter(c), chain, requests, t - 1), requests[t - 1]);
    }
  }

  // ---------- A single writer ----------

  /** No entry has the id of the input, nor its key under its ledger. */
  ghost predicate RepeatsNoEntry(es: seq<Entry>, input: EntryInput) {
    forall i :: 0 <= i < |es| ==>
      && es[i].entryId != input.entryId
      && (input.idempotencyKey.Some? && es[i].ledgerId == input.ledgerId ==> es[i].idempotencyKey != input.idempotencyKey)
  }

  ghost predicate Buildable(input: EntryInput) {
    && InVocabulary(input.entryType)
    && (input.entryType == Lit("RECEIPT_RECORDED") ==> input.receipt.Some? && input.receiptId.Some?)
  }

  ghost predicate Takes(e: Entry, input: EntryInput) {
    e.entryId == input.entryId && e.ledgerId == input.ledgerId && e.idempotencyKey == input.idempotencyKey
  }

  lemma {:induction false} BuiltContinues(c: Crypto, es: seq<Entry>, step: LedgerReach.Step)
    requires es != [] && Buildable(step.input)
    ensures var built := BuildNext(c, es, step.input, step.signing);
            && built.Made? && Takes(built.entry, step.input)
            && built.entry.sequence == es[|es| - 1].sequence + 1
            && built.entry.previousEntryHash == EntryHash(c, es[|es| - 1])
  {
    BuildThrowsIff(c, step.input.(head := Some(es[|es| - 1])));
  }

  /** The writer's entry is appended exactly if it is new; otherwise nothing happens. */
  lemma {:induction false} AdvanceIs(c: Crypto, es: seq<Entry>, step: LedgerReach.Step)
    requires Usable(es) && Buildable(step.input)
    ensures Advance(c, es, step) ==
            if RepeatsNoEntry(es, step.input) then es + [BuildNext(c, es, step.input, step.signing).entry] else es
  {
    BuiltContinues(c, es, step);
    var head := es[|es| - 1];
    var e := BuildNext(c, es, step.input, step.signing).entry;
    var request := AppendRequest(step.input.ledgerId, EntryHash(c, head), head.sequence + 1, e);
    SignedTextIs(head);
    AppendedIff(c, es, request);
    assert RepeatsNoEntry(es, step.input) <==> !KeyRecorded(es, request) && !IdRecorded(es, e.entryId) by {
      if !RepeatsNoEntry(es, step.input) {
        var i :| 0 <= i < |es| &&
          (es[i].entryId == e.entryId ||
           (e.idempotencyKey.Some? && es[i].ledgerId == e.ledgerId && es[i].idempotencyKey == e.idempotencyKey));
        assert es[i].entryId == e.entryId || KeyAt(es, request, i);
      }
    }
  }

  ghost predicate Differ(a: EntryInput, b: EntryInput) {
    && a.entryId != b.entryId
    && (b.idempotencyKey.Some? && a.ledgerId == b.ledgerId ==> a.idempotencyKey != b.idempotencyKey)
  }

  /** No step repeats the id of the genesis entry, nor the id or the key of a step before. */
  ghost predicate RepeatsNothing(genesis: GenesisInput, steps: seq<LedgerReach.Step>) {
    && (forall j :: 0 <= j < |steps| ==> steps[j].input.entryId != genesis.entryId)
    && (forall i, j :: 0 <= i < j < |steps| ==> Differ(steps[i].input, steps[j].input))
  }

  /** A writer's run takes every step if and only if none repeats an id or a key. */
  lemma {:induction false} EveryStepIsTakenIff(c: Crypto, genesis: GenesisInput, steps: seq<LedgerReach.Step>)
    requires forall i :: 0 <= i < |steps| ==> Buildable(steps[i].input)
    ensures var es := LedgerReach.Run(c, genesis, steps);
            && es[0] == CreateGenesisEntry(c, genesis)
            && |es| <= 1 + |steps|
            && (|es| == 1 + |steps| <==> RepeatsNothing(genesis, steps))
            && (|es| == 1 + |steps| ==> forall i :: 0 <= i < |steps| ==> Takes(es[i + 1], steps[i].input))
  {
    TakenByRun(c, genesis, steps);
  }

  ghost predicate TakenBy(first: Entry, genesis: GenesisInput, steps: seq<LedgerReach.Step>, es: seq<Entry>) {
    && 1 <= |es| <= 1 + |steps| && es[0] == first
    && (|es| == 1 + |steps| <==> RepeatsNothing(genesis, steps))
    && (|es| == 1 + |steps| ==> forall i :: 0 <= i < |steps| ==> Takes(es[i + 1], steps[i].input))
  }

  lemma {:induction false} TakenByRun(c: Crypto, genesis: GenesisInput, steps: seq<LedgerReach.Step>)
    requires forall i :: 0 <= i < |steps| ==> Buildable(steps[i].input)
    ensures TakenBy(CreateGenesisEntry(c, genesis), genesis, steps, LedgerReach.Run(c, genesis, steps))
  {
    if steps != [] {
      var init, last := steps[..|steps| - 1], steps[|steps| - 1];
      var es := LedgerReach.Run(c, genesis, init);
      TakenByRun(c, genesis, init);
      assert CreateGenesisEntry(c, genesis).entryType == Lit("GENESIS");
      AdvanceIs(c, es, last);
      BuiltContinues(c, es, last);
      TakenByNext(c, genesis, steps, es, BuildNext(c, es, last.input, last.signing).entry);
    }
  }

  lemma {:induction false} TakenByNext(
    c: Crypto, genesis: GenesisInput, steps: seq<LedgerReach.Step>, es: seq<Entry>, e: Entry)
    requires steps != [] && TakenBy(CreateGenesisEntry(c, genesis), genesis, steps[..|steps| - 1], es)
    requires Takes(e, steps[|steps| - 1].input)
    ensures TakenBy(CreateGenesisEntry(c, genesis), genesis, steps,
                    if RepeatsNoEntry(es, steps[|steps| - 1].input) then es + [e] else es)
  {
    var init := steps[..|steps| - 1];
    if |es| == |steps| {
      forall i | 0 <= i < |steps| - 1 ensures Takes(es[i + 1], steps[i].input) {
        assert Takes(es[i + 1], init[i].input);
      }
      LastRepeats(c, genesis, steps, es);
    } else if RepeatsNothing(genesis, steps) {
      InitRepeatsNothing(genesis, steps);
    }
  }

  lemma {:induction false} InitRepeatsNothing(genesis: GenesisInput, steps: seq<LedgerReach.Step>)
    requires steps != [] && RepeatsNothing(genesis, steps)
    ensures RepeatsNothing(genesis, steps[..|steps| - 1])
  {
  }

  lemma {:induction false} LastRepeats(c: Crypto, genesis: GenesisInput, steps: seq<LedgerReach.Step>, es: seq<Entry>)
    requires steps != [] && |es| == |steps| && es[0] == CreateGenesisEntry(c, genesis)
    requires forall i :: 0 <= i < |steps| - 1 ==> Takes(es[i + 1], steps[i].input)
    requires RepeatsNothing(genesis, steps[..|steps| - 1])
    ensures RepeatsNothing(genesis, steps) <==> RepeatsNoEntry(es, steps[|steps| - 1].input)
  {
    var last := steps[|steps| - 1].input;
    var init := steps[..|steps| - 1];
    assert es[0].entryId == genesis.entryId && es[0].idempotencyKey.None?;
    if RepeatsNothing(genesis, steps) {
      forall i | 0 < i < |es|
        ensures es[i].entryId != last.entryId
        ensures last.idempotencyKey.Some? && es[i].ledgerId == last.ledgerId ==> es[i].idempotencyKey != last.idempotencyKey
      {
        assert Takes(es[i - 1 + 1], steps[i - 1].input) && Differ(steps[i - 1].input, last);
      }
    }
    if RepeatsNoEntry(es, last) {
      forall i, j | 0 <= i < j < |steps| ensures Differ(steps[i].input, steps[j].input) {
        if j < |steps| - 1 {
          assert Differ(init[i].input, init[j].input);
        } else {
          assert Takes(es[i + 1], steps[i].input);
        }
      }
      forall j | 0 <= j < |steps| ensures steps[j].input.entryId != genesis.entryId {
        if j < |steps| - 1 {
          assert init[j].input.entryId != genesis.entryId;
        }
      }
    }
  }
}
