/** The in-memory fixed-window rate limiter and its background sweep. */
module RateLimit {
  import opened JsText

  datatype Entry = Entry(count: int, resetTime: int)

  type Store = map<Text, Entry>

  /** What a request is told: its place in the window, or to come back later. */
  datatype Answer =
    | Allowed(remaining: int, resetTime: int)
    | TooMany(retryAfter: int, resetTime: int)

  /** `Math.ceil(ms / 1000)` */
  function CeilSeconds(ms: int): (s: int)
    ensures 1000 * (s - 1) < ms <= 1000 * s
  {
    -((-ms) / 1000)
  }

  /** The window that a request falls into: the recorded one, or a new one if that has expired. */
  function Window(store: Store, clientId: Text, now: int, windowMs: nat): Entry {
    if clientId !in store || store[clientId].resetTime < now then Entry(0, now + windowMs) else store[clientId]
  }

  function AnswerTo(store: Store, clientId: Text, now: int, max: int, windowMs: nat): Answer {
    var w := Window(store, clientId, now, windowMs);
    if w.count + 1 > max then TooMany(CeilSeconds(w.resetTime - now), w.resetTime)
    else Allowed(max - (w.count + 1), w.resetTime)
  }

  function Counted(store: Store, clientId: Text, now: int, windowMs: nat): Store {
    var w := Window(store, clientId, now, windowMs);
    store[clientId := Entry(w.count + 1, w.resetTime)]
  }

  function Swept(store: Store, now: int): Store {
    map k | k in store && store[k].resetTime >= now :: store[k]
  }

  class RateLimiter {
    const windowMs: nat
    var store: Store

    constructor (windowMs: nat)
      ensures this.windowMs == windowMs && store == map[]
    {
      this.windowMs := windowMs;
      store := map[];
    }

    method Handle(clientId: Text, now: int, max: int) returns (answer: Answer)
      modifies this
      ensures answer == AnswerTo(old(store), clientId, now, max, windowMs)
      ensures store == Counted(old(store), clientId, now, windowMs)
    {
      if clientId !in store || store[clientId].resetTime < now {
        store := store[clientId := Entry(0, now + windowMs)];
      }
      var entry := store[clientId];
      entry := entry.(count := entry.count + 1);
      store := store[clientId := entry];
      if entry.count > max {
        return TooMany(CeilSeconds(entry.resetTime - now), entry.resetTime);
      }
      return Allowed(max - entry.count, entry.resetTime);
    }

    method Sweep(now: int)
      modifies this
      ensures store == Swept(old(store), now)
    {
      var keys := store.Keys;
      while keys != {}
        invariant keys <= store.Keys <= old(store).Keys
        invariant forall k :: k in store ==> store[k] == old(store)[k]
        invariant forall k :: k in store && k !in keys ==> store[k].resetTime >= now
        invariant forall k :: k in old(store) && k !in store ==> old(store)[k].resetTime < now
        decreases keys
      {
        var key :| key in keys;
        if store[key].resetTime < now {
          store := store - {key};
        }
        keys := keys - {key};
      }
    }
  }

  // ---------- Traces ----------

  /** Requests may carry different limits: several limiters share one store. */
  datatype Event =
    | Request(clientId: Text, now: int, max: int)
    | SweepAt(now: int)

  function StoreAfter(events: seq<Event>, windowMs: nat): Store {
    if events == [] then map[]
    else
      var s := StoreAfter(events[..|events| - 1], windowMs);
      match events[|events| - 1]
      case Request(c, now, _) => Counted(s, c, now, windowMs)
      case SweepAt(now) => Swept(s, now)
  }

  /** The answers to the requests of a trace, in order. */
  function Answers(events: seq<Event>, windowMs: nat): seq<Answer> {
    if events == [] then []
    else
      var init := events[..|events| - 1];
      match events[|events| - 1]
      case Request(c, now, max) => Answers(init, windowMs) + [AnswerTo(StoreAfter(init, windowMs), c, now, max, windowMs)]
      case SweepAt(_) => Answers(init, windowMs)
  }

  ghost predicate TimeFlows(events: seq<Event>) {
    forall i, j :: 0 <= i < j < |events| ==> events[i].now <= events[j].now
  }

  lemma {:induction false} TimeFlowsInit(events: seq<Event>)
    requires TimeFlows(events) && events != []
    ensures TimeFlows(events[..|events| - 1])
  {
  }

  // ---------- The sweep is invisible ----------

  function Requests(events: seq<Event>): seq<Event> {
    if events == [] then []
    else
      var last := events[|events| - 1];
      Requests(events[..|events| - 1]) + if last.Request? then [last] else []
  }

  lemma {:induction false} OneMore(events: seq<Event>, e: Event, windowMs: nat)
    ensures StoreAfter(events + [e], windowMs) ==
              if e.Request? then Counted(StoreAfter(events, windowMs), e.clientId, e.now, windowMs)
              else Swept(StoreAfter(events, windowMs), e.now)
    ensures Answers(events + [e], windowMs) == Answers(events, windowMs) +
              if e.Request? then [AnswerTo(StoreAfter(events, windowMs), e.clientId, e.now, e.max, windowMs)] else []
    ensures Requests(events + [e]) == if e.Request? then Requests(events) + [e] else Requests(events)
  {
  }

  ghost predicate CountsPositive(store: Store) {
    forall c :: c in store ==> store[c].count >= 1
  }

  /**
   * One sweep and one request: the answer differs exactly if the sweep took the client's window and
   * the request comes no later than that would have ended. Only a limit that lets nothing through
   * cannot tell when the new window happens to end as the lost one did.
   */
  lemma {:induction false} SweepVisibleIff(store: Store, sweptAt: int, clientId: Text, now: int, max: int, windowMs: nat)
    requires CountsPositive(store)
    ensures var taken := clientId in store && store[clientId].resetTime < sweptAt;
      (AnswerTo(Swept(store, sweptAt), clientId, now, max, windowMs) != AnswerTo(store, clientId, now, max, windowMs)) <==>
        (taken && now <= store[clientId].resetTime && (max >= 1 || store[clientId].resetTime != now + windowMs))
  {
  }

  // Which windows a trace has lost, compared with the same trace without sweeps.

  /** No request of the client comes after the event at `j`. */
  predicate Silent(events: seq<Event>, j: nat, clientId: Text) {
    forall k :: j < k < |events| ==> events[k].Request? ==> events[k].clientId != clientId
  }

  /** The sweep at `j` took the window of the client, who has not come back since. */
  predicate TakenAt(events: seq<Event>, windowMs: nat, j: nat, clientId: Text) {
    && j < |events| && events[j].SweepAt? && Silent(events, j, clientId)
    && clientId in StoreAfter(events[..j], windowMs)
    && StoreAfter(events[..j], windowMs)[clientId].resetTime < events[j].now
  }

  /** The request at `i` is the first of its client since the sweep at `j` took its window, and comes while that was open. */
  predicate Forgotten(events: seq<Event>, windowMs: nat, j: nat, i: nat) {
    && j < i < |events| && events[i].Request?
    && TakenAt(events[..i], windowMs, j, events[i].clientId)
    && events[i].now <= StoreAfter(events[..i][..j], windowMs)[events[i].clientId].resetTime
  }

  ghost predicate NothingForgotten(events: seq<Event>, windowMs: nat) {
    forall j: nat, i: nat {:trigger Forgotten(events, windowMs, j, i)} :: !Forgotten(events, windowMs, j, i)
  }

  /** The swept store lacks exactly the windows that sweeps have taken from clients who have not come back. */
  ghost predicate LacksTaken(events: seq<Event>, windowMs: nat, swept: Store, full: Store) {
    && CountsPositive(full)
    && (forall c :: c in swept ==> c in full && swept[c] == full[c])
    && (forall c, j: nat {:trigger TakenAt(events, windowMs, j, c)} :: TakenAt(events, windowMs, j, c) ==>
          c !in swept && c in full && full[c] == StoreAfter(events[..j], windowMs)[c])
    && (forall c :: c in full && c !in swept ==> exists j: nat :: TakenAt(events, windowMs, j, c))
  }

  lemma {:induction false} TakenBefore(init: seq<Event>, e: Event, windowMs: nat, j: nat, c: Text)
    requires j < |init|
    ensures TakenAt(init + [e], windowMs, j, c) <==>
              TakenAt(init, windowMs, j, c) && (e.Request? ==> e.clientId != c)
    ensures StoreAfter((init + [e])[..j], windowMs) == StoreAfter(init[..j], windowMs)
  {
    var events := init + [e];
    assert events[..j] == init[..j];
    assert events[|init|] == e;
    assert forall k :: 0 <= k < |init| ==> events[k] == init[k];
  }

  lemma {:induction false} TakenNow(init: seq<Event>, e: Event, windowMs: nat, c: Text)
    ensures TakenAt(init + [e], windowMs, |init|, c) <==>
              e.SweepAt? && c in StoreAfter(init, windowMs) && StoreAfter(init, windowMs)[c].resetTime < e.now
  {
    assert (init + [e])[..|init|] == init;
  }

  lemma {:induction false} ForgottenBefore(init: seq<Event>, e: Event, windowMs: nat, j: nat, i: nat)
    requires i < |init|
    ensures Forgotten(init + [e], windowMs, j, i) <==> Forgotten(init, windowMs, j, i)
  {
    var events := init + [e];
    assert events[..i] == init[..i];
    if j < i {
      assert events[..j] == init[..j] && init[..i][..j] == init[..j];
    }
  }

  lemma {:induction false} ForgottenNow(init: seq<Event>, e: Event, windowMs: nat, j: nat)
    ensures Forgotten(init + [e], windowMs, j, |init|) <==>
              && e.Request? && TakenAt(init, windowMs, j, e.clientId)
              && e.now <= StoreAfter(init[..j], windowMs)[e.clientId].resetTime
  {
    var events := init + [e];
    assert events[..|init|] == init;
    if j < |init| {
      assert events[..j] == init[..j];
    }
  }

  lemma {:induction false} NothingForgottenMore(init: seq<Event>, e: Event, windowMs: nat)
    ensures NothingForgotten(init + [e], windowMs) <==>
              NothingForgotten(init, windowMs) && forall j: nat :: !Forgotten(init + [e], windowMs, j, |init|)
  {
    var events := init + [e];
    if NothingForgotten(events, windowMs) {
      forall j: nat, i: nat ensures !Forgotten(init, windowMs, j, i) {
        if i < |init| {
          ForgottenBefore(init, e, windowMs, j, i);
        }
      }
    }
    if NothingForgotten(init, windowMs) && forall j: nat :: !Forgotten(events, windowMs, j, |init|) {
      forall j: nat, i: nat ensures !Forgotten(events, windowMs, j, i) {
        if i < |init| {
          ForgottenBefore(init, e, windowMs, j, i);
        }
      }
    }
  }

  /** While no answer differs, a sweep takes from the one store what the other keeps. */
  lemma {:induction false} SweepKeepsLacksTaken(init: seq<Event>, e: Event, windowMs: nat, full: Store)
    requires e.SweepAt? && LacksTaken(init, windowMs, StoreAfter(init, windowMs), full)
    ensures LacksTaken(init + [e], windowMs, Swept(StoreAfter(init, windowMs), e.now), full)
  {
    var events, swept := init + [e], StoreAfter(init, windowMs);
    var now := Swept(swept, e.now);
    forall c, j: nat | TakenAt(events, windowMs, j, c)
      ensures c !in now && c in full && full[c] == StoreAfter(events[..j], windowMs)[c]
    {
      if j < |init| {
        TakenBefore(init, e, windowMs, j, c);
      } else {
        TakenNow(init, e, windowMs, c);
        assert events[..j] == init;
      }
    }
    forall c | c in full && c !in now ensures exists j: nat :: TakenAt(events, windowMs, j, c) {
      if c in swept {
        TakenNow(init, e, windowMs, c);
      } else {
        var j: nat :| TakenAt(init, windowMs, j, c);
        TakenBefore(init, e, windowMs, j, c);
      }
    }
  }

  /** A request that finds the same window brings its window back into step. */
  lemma {:induction false} RequestKeepsLacksTaken(init: seq<Event>, e: Event, windowMs: nat, full: Store)
    requires e.Request? && LacksTaken(init, windowMs, StoreAfter(init, windowMs), full)
    requires Window(StoreAfter(init, windowMs), e.clientId, e.now, windowMs) == Window(full, e.clientId, e.now, windowMs)
    ensures LacksTaken(init + [e], windowMs,
                       Counted(StoreAfter(init, windowMs), e.clientId, e.now, windowMs),
                       Counted(full, e.clientId, e.now, windowMs))
  {
    var events, swept := init + [e], StoreAfter(init, windowMs);
    var now, all := Counted(swept, e.clientId, e.now, windowMs), Counted(full, e.clientId, e.now, windowMs);
    forall c, j: nat | TakenAt(events, windowMs, j, c)
      ensures c !in now && c in all && all[c] == StoreAfter(events[..j], windowMs)[c]
    {
      TakenNow(init, e, windowMs, c);
      TakenBefore(init, e, windowMs, j, c);
    }
    forall c | c in all && c !in now ensures exists j: nat :: TakenAt(events, windowMs, j, c) {
      var j: nat :| TakenAt(init, windowMs, j, c);
      TakenBefore(init, e, windowMs, j, c);
    }
  }

  /** A request finds different windows exactly when it is the first in a window that a sweep took. */
  lemma {:induction false} WindowsDifferIff(init: seq<Event>, e: Event, windowMs: nat, full: Store)
    requires e.Request? && LacksTaken(init, windowMs, StoreAfter(init, windowMs), full)
    ensures var found := Window(StoreAfter(init, windowMs), e.clientId, e.now, windowMs);
            found == Window(full, e.clientId, e.now, windowMs) <==>
              forall j: nat :: !Forgotten(init + [e], windowMs, j, |init|)
  {
    var swept := StoreAfter(init, windowMs);
    forall j: nat
      ensures Forgotten(init + [e], windowMs, j, |init|) <==>
                TakenAt(init, windowMs, j, e.clientId) && e.now <= full[e.clientId].resetTime
    {
      ForgottenNow(init, e, windowMs, j);
    }
    if e.clientId in full && e.clientId !in swept {
      var j: nat :| TakenAt(init, windowMs, j, e.clientId);
      assert Forgotten(init + [e], windowMs, j, |init|) <==> e.now <= full[e.clientId].resetTime;
    }
  }

  /** No limit lets nothing through. */
  ghost predicate LimitsPositive(events: seq<Event>) {
    forall i :: 0 <= i < |events| && events[i].Request? ==> events[i].max >= 1
  }

  lemma {:induction false} SameWindowSameAnswer(a: Store, b: Store, clientId: Text, now: int, max: int, windowMs: nat)
    requires CountsPositive(b) && forall c :: c in a ==> c in b && a[c] == b[c]
    ensures var same := Window(a, clientId, now, windowMs) == Window(b, clientId, now, windowMs);
            var sameAnswer := AnswerTo(a, clientId, now, max, windowMs) == AnswerTo(b, clientId, now, max, windowMs);
            (same ==> sameAnswer) && (max >= 1 && sameAnswer ==> same)
  {
  }

  lemma {:induction false} AnswersCount(events: seq<Event>, windowMs: nat)
    ensures |Answers(events, windowMs)| == |Answers(Requests(events), windowMs)|
  {
    if events != [] {
      var init, last := events[..|events| - 1], events[|events| - 1];
      assert events == init + [last];
      AnswersCount(init, windowMs);
      OneMore(init, last, windowMs);
      OneMore(Requests(init), last, windowMs);
    }
  }

  /** Equal answers to a trace are equal answers to what comes before its last event, and to that. */
  lemma {:induction false} AnswersEqualIff(init: seq<Event>, e: Event, windowMs: nat)
    ensures var swept, full := StoreAfter(init, windowMs), StoreAfter(Requests(init), windowMs);
            Answers(init + [e], windowMs) == Answers(Requests(init + [e]), windowMs) <==>
              && Answers(init, windowMs) == Answers(Requests(init), windowMs)
              && (e.Request? ==> AnswerTo(swept, e.clientId, e.now, e.max, windowMs) ==
                                 AnswerTo(full, e.clientId, e.now, e.max, windowMs))
  {
    OneMore(init, e, windowMs);
    AnswersCount(init, windowMs);
    if e.Request? {
      OneMore(Requests(init), e, windowMs);
      var swept, full := StoreAfter(init, windowMs), StoreAfter(Requests(init), windowMs);
      SameEnds(Answers(init, windowMs), AnswerTo(swept, e.clientId, e.now, e.max, windowMs),
               Answers(Requests(init), windowMs), AnswerTo(full, e.clientId, e.now, e.max, windowMs));
    }
  }

  lemma {:induction false} SameEnds(a: seq<Answer>, x: Answer, b: seq<Answer>, y: Answer)
    requires |a| == |b|
    ensures a + [x] == b + [y] <==> a == b && x == y
  {
    assert (a + [x])[..|a|] == a && (b + [y])[..|b|] == b;
    assert (a + [x])[|a|] == x && (b + [y])[|b|] == y;
  }

  /** Over a whole trace: as long as nothing is forgotten, answers are equal and only what sweeps took is missing. */
  lemma {:induction false} NothingForgottenHidesSweeps(events: seq<Event>, windowMs: nat)
    requires NothingForgotten(events, windowMs)
    ensures Answers(events, windowMs) == Answers(Requests(events), windowMs)
    ensures LacksTaken(events, windowMs, StoreAfter(events, windowMs), StoreAfter(Requests(events), windowMs))
  {
    if events != [] {
      var init, last := events[..|events| - 1], events[|events| - 1];
      assert events == init + [last];
      NothingForgottenMore(init, last, windowMs);
      NothingForgottenHidesSweeps(init, windowMs);
      OneMore(init, last, windowMs);
      AnswersEqualIff(init, last, windowMs);
      var full := StoreAfter(Requests(init), windowMs);
      if last.SweepAt? {
        SweepKeepsLacksTaken(init, last, windowMs, full);
      } else {
        OneMore(Requests(init), last, windowMs);
        WindowsDifferIff(init, last, windowMs, full);
        SameWindowSameAnswer(StoreAfter(init, windowMs), full, last.clientId, last.now, last.max, windowMs);
        RequestKeepsLacksTaken(init, last, windowMs, full);
      }
    }
  }

  lemma {:induction false} ForgottenShows(events: seq<Event>, windowMs: nat)
    requires LimitsPositive(events) && !NothingForgotten(events, windowMs)
    ensures Answers(events, windowMs) != Answers(Requests(events), windowMs)
  {
    var j: nat, i: nat :| Forgotten(events, windowMs, j, i);
    var init, last := events[..|events| - 1], events[|events| - 1];
    assert events == init + [last];
    NothingForgottenMore(init, last, windowMs);
    AnswersEqualIff(init, last, windowMs);
    if !NothingForgotten(init, windowMs) {
      ForgottenShows(init, windowMs);
    } else {
      NothingForgottenHidesSweeps(init, windowMs);
      ForgottenIsMissed(init, last, windowMs);
    }
  }

  lemma {:induction false} ForgottenIsMissed(init: seq<Event>, e: Event, windowMs: nat)
    requires (e.Request? ==> e.max >= 1) && exists j: nat :: Forgotten(init + [e], windowMs, j, |init|)
    requires LacksTaken(init, windowMs, StoreAfter(init, windowMs), StoreAfter(Requests(init), windowMs))
    ensures e.Request?
    ensures AnswerTo(StoreAfter(init, windowMs), e.clientId, e.now, e.max, windowMs) !=
            AnswerTo(StoreAfter(Requests(init), windowMs), e.clientId, e.now, e.max, windowMs)
  {
    var j: nat :| Forgotten(init + [e], windowMs, j, |init|);
    ForgottenNow(init, e, windowMs, j);
    var swept, full := StoreAfter(init, windowMs), StoreAfter(Requests(init), windowMs);
    WindowsDifferIff(init, e, windowMs, full);
    SameWindowSameAnswer(swept, full, e.clientId, e.now, e.max, windowMs);
  }

  /**
   * Sweeps are invisible exactly when no request comes as the first of its client since a sweep took
   * its window, and no later than that window's reset time.
   */
  lemma {:induction false} SweepsAreInvisibleIff(events: seq<Event>, windowMs: nat)
    requires LimitsPositive(events)
    ensures Answers(events, windowMs) == Answers(Requests(events), windowMs) <==> NothingForgotten(events, windowMs)
  {
    if NothingForgotten(events, windowMs) {
      NothingForgottenHidesSweeps(events, windowMs);
    } else {
      ForgottenShows(events, windowMs);
    }
  }

  /** No sweep is later than a later request. Requests may run back among themselves, and so may sweeps. */
  ghost predicate SweepsOnTime(events: seq<Event>) {
    forall j, i :: 0 <= j < i < |events| && events[j].SweepAt? && events[i].Request? ==> events[j].now <= events[i].now
  }

  /** Then sweeping changes no answer, whatever the limits. */
  lemma {:induction false} SweepsAreInvisible(events: seq<Event>, windowMs: nat)
    requires SweepsOnTime(events)
    ensures Answers(events, windowMs) == Answers(Requests(events), windowMs)
  {
    SweepsOnTimeForgetNothing(events, windowMs);
    NothingForgottenHidesSweeps(events, windowMs);
  }

  lemma {:induction false} SweepsOnTimeForgetNothing(events: seq<Event>, windowMs: nat)
    requires SweepsOnTime(events)
    ensures NothingForgotten(events, windowMs)
  {
    forall j: nat, i: nat ensures !Forgotten(events, windowMs, j, i) {
      if j < i < |events| {
        assert events[..i][j] == events[j] && events[..i][..j] == events[..j];
        assert events[j].SweepAt? && events[i].Request? ==> events[j].now <= events[i].now;
      }
    }
  }

  lemma {:induction false} TimeFlowsIsOnTime(events: seq<Event>)
    requires TimeFlows(events)
    ensures SweepsOnTime(events)
  {
  }

  /** The swept store is the other one without some entries that have expired by now. */
  ghost predicate LacksOnlyExpired(swept: Store, full: Store, now: int) {
    && (forall c :: c in swept ==> c in full && swept[c] == full[c])
    && (forall c :: c in full && c !in swept ==> full[c].resetTime < now)
  }

  lemma {:induction false} SweptStoreLacksOnlyExpired(events: seq<Event>, windowMs: nat, now: int)
    requires SweepsOnTime(events) && forall i :: 0 <= i < |events| && events[i].SweepAt? ==> events[i].now <= now
    ensures LacksOnlyExpired(StoreAfter(events, windowMs), StoreAfter(Requests(events), windowMs), now)
  {
    SweepsOnTimeForgetNothing(events, windowMs);
    NothingForgottenHidesSweeps(events, windowMs);
  }

  /** A request opens a window, a sweep that runs ahead of the clock takes it, and a request comes while it was open. */
  function EarlySweep(clientId: Text, now: int, max: int): seq<Event> {
    [Request(clientId, 0, max), SweepAt(20), Request(clientId, now, max)]
  }

  lemma {:induction false} EarlySweepForgets(clientId: Text, now: int, max: int)
    requires now <= 10
    ensures Forgotten(EarlySweep(clientId, now, max), 10, 1, 2)
  {
    var events := EarlySweep(clientId, now, max);
    OneMore([], events[0], 10);
    assert [] + [events[0]] == [events[0]] == events[..1] == events[..2][..1];
    assert StoreAfter(events[..1], 10) == map[clientId := Entry(1, 10)];
  }

  lemma {:induction false} EarlySweepIsVisible(clientId: Text)
    ensures var events := EarlySweep(clientId, 5, 1);
            Answers(events, 10) != Answers(Requests(events), 10)
  {
    EarlySweepForgets(clientId, 5, 1);
    ForgottenShows(EarlySweep(clientId, 5, 1), 10);
  }

  /** With a limit that lets nothing through, an open window can be forgotten and nobody notice. */
  lemma {:induction false} ZeroLimitHidesLoss(clientId: Text)
    ensures !NothingForgotten(EarlySweep(clientId, 0, 0), 10)
    ensures Answers(EarlySweep(clientId, 0, 0), 10) == Answers(Requests(EarlySweep(clientId, 0, 0)), 10)
  {
    EarlySweepForgets(clientId, 0, 0);
    ZeroLimitStores(clientId);
    var init: seq<Event> := [Request(clientId, 0, 0), SweepAt(20)];
    SweepsAreInvisible(init, 10);
    ZeroLimitStep(init, clientId);
    assert init + [Request(clientId, 0, 0)] == EarlySweep(clientId, 0, 0);
  }

  lemma {:induction false} ZeroLimitStep(init: seq<Event>, clientId: Text)
    requires Answers(init, 10) == Answers(Requests(init), 10)
    requires StoreAfter(init, 10) == map[]
    requires StoreAfter(Requests(init), 10) == map[clientId := Entry(1, 10)]
    ensures var events := init + [Request(clientId, 0, 0)]; Answers(events, 10) == Answers(Requests(events), 10)
  {
    AnswersEqualIff(init, Request(clientId, 0, 0), 10);
  }

  lemma {:induction false} ZeroLimitStores(clientId: Text)
    ensures var a, b := Request(clientId, 0, 0), SweepAt(20);
      && StoreAfter([a, b], 10) == map[]
      && StoreAfter(Requests([a, b]), 10) == map[clientId := Entry(1, 10)]
  {
    var a, b := Request(clientId, 0, 0), SweepAt(20);
    OneMore([], a, 10);
    OneMore([a], b, 10);
    assert [] + [a] == [a] && [a] + [b] == [a, b];
  }

  /** A clock that runs back is not enough: a sweep that takes nothing from anyone is not seen. */
  lemma {:induction false} ClockRunsBackUnseen(clientId: Text)
    ensures var events := [Request(clientId, 5, 1), SweepAt(3), Request(clientId, 4, 1)];
            !TimeFlows(events) && Answers(events, 10) == Answers(Requests(events), 10)
  {
    var events := [Request(clientId, 5, 1), SweepAt(3), Request(clientId, 4, 1)];
    assert events[0].now > events[1].now;
    SweepsAreInvisible(events, 10);
  }

  // ---------- The sliding bound ----------

  function AllowedAt(events: seq<Event>, windowMs: nat, i: nat): bool
    requires i < |events| && events[i].Request?
  {
    var e := events[i];
    AnswerTo(StoreAfter(events[..i], windowMs), e.clientId, e.now, e.max, windowMs).Allowed?
  }

  /** Is the last event an allowed request of this client in the interval? */
  predicate Hit(events: seq<Event>, windowMs: nat, clientId: Text, a: int, b: int)
    requires events != []
  {
    var e := events[|events| - 1];
    e.Request? && e.clientId == clientId && a <= e.now <= b && AllowedAt(events, windowMs, |events| - 1)
  }

  /** How many allowed requests of a client fall into an interval. */
  function Hits(events: seq<Event>, windowMs: nat, clientId: Text, a: int, b: int): nat {
    if events == [] then 0
    else
      Hits(events[..|events| - 1], windowMs, clientId, a, b) + if Hit(events, windowMs, clientId, a, b) then 1 else 0
  }

  /** The windows that the hits so far have fallen into, with the count the last one reached. */
  datatype Track = NoHit | OneWindow(reset: int, count: int) | TwoWindows(first: int, reset: int, count: int)

  function Extend(t: Track, w: Entry): Track {
    match t
    case NoHit => OneWindow(w.resetTime, w.count)
    case OneWindow(r, _) => if w.resetTime == r then OneWindow(r, w.count) else TwoWindows(r, w.resetTime, w.count)
    case TwoWindows(r, _, _) => TwoWindows(r, w.resetTime, w.count)
  }

  function TrackOf(events: seq<Event>, windowMs: nat, clientId: Text, a: int, b: int): Track {
    if events == [] then NoHit
    else
      var init := TrackOf(events[..|events| - 1], windowMs, clientId, a, b);
      if Hit(events, windowMs, clientId, a, b) then Extend(init, StoreAfter(events, windowMs)[clientId]) else init
  }

  /** The window that was hit last is still the recorded one, or has made way for a later one, or is gone and over. */
  ghost predicate Linked(store: Store, clientId: Text, reset: int, count: int, windowMs: nat, now: int) {
    if clientId in store then
      || (store[clientId].resetTime == reset && store[clientId].count >= count)
      || store[clientId].resetTime > reset + windowMs
    else reset < now
  }

  /**
   * The hits are bounded by the windows they fell into. A window that opened before the interval has
   * counted a request outside it; of two windows, which lie more than a window length apart, the first did.
   */
  ghost predicate Bounded(t: Track, hits: nat, store: Store, clientId: Text, windowMs: nat, a: int, b: int, most: nat, now: int) {
    match t
    case NoHit => hits == 0
    case OneWindow(r, k) =>
      && hits <= (if r < a + windowMs then k - 1 else k) && 0 <= k <= most && a <= r <= b + windowMs
      && Linked(store, clientId, r, k, windowMs, now)
    case TwoWindows(r1, r, k) =>
      && hits <= most - 1 + k && 0 <= k <= most && a <= r1 && r1 + windowMs < r <= b + windowMs
      && Linked(store, clientId, r, k, windowMs, now)
  }

  lemma {:induction false} LinkedStep(store: Store, clientId: Text, reset: int, count: int, windowMs: nat, now: int, event: Event)
    requires Linked(store, clientId, reset, count, windowMs, now) && now <= event.now
    ensures var next := if event.Request? then Counted(store, event.clientId, event.now, windowMs)
                        else Swept(store, event.now);
            Linked(next, clientId, reset, count, windowMs, event.now)
  {
  }

  ghost predicate WindowsAhead(store: Store, windowMs: nat, now: int) {
    forall c :: c in store ==> store[c].resetTime <= now + windowMs && store[c].count >= 1
  }

  /** A hit either goes on in the last window or opens one that lies more than a window length later. */
  lemma {:induction false} HitStep(
    t: Track, hits: nat, store: Store, clientId: Text, windowMs: nat, a: int, b: int, most: nat, now: int, e: Event)
    requires b - a <= windowMs && WindowsAhead(store, windowMs, now) && now <= e.now
    requires Bounded(t, hits, store, clientId, windowMs, a, b, most, now)
    requires e.Request? && e.clientId == clientId && a <= e.now <= b && e.max <= most
    requires AnswerTo(store, clientId, e.now, e.max, windowMs).Allowed?
    ensures var next := Counted(store, clientId, e.now, windowMs);
            Bounded(Extend(t, next[clientId]), hits + 1, next, clientId, windowMs, a, b, most, e.now)
  {
  }

  /** No request of the trace comes with a higher limit. */
  ghost predicate Limited(events: seq<Event>, most: nat) {
    forall i :: 0 <= i < |events| && events[i].Request? ==> events[i].max <= most
  }

  lemma {:induction false} TrackBounds(
    events: seq<Event>, windowMs: nat, clientId: Text, a: int, b: int, most: nat, now: int)
    requires TimeFlows(events) && b - a <= windowMs
    requires Limited(events, most)
    requires events != [] ==> now == events[|events| - 1].now
    ensures WindowsAhead(StoreAfter(events, windowMs), windowMs, now)
    ensures Bounded(TrackOf(events, windowMs, clientId, a, b), Hits(events, windowMs, clientId, a, b),
                    StoreAfter(events, windowMs), clientId, windowMs, a, b, most, now)
  {
    if events != [] {
      var init, last := events[..|events| - 1], events[|events| - 1];
      var before := if init == [] then last.now else init[|init| - 1].now;
      TimeFlowsInit(events);
      TrackBounds(init, windowMs, clientId, a, b, most, before);
      var t := TrackOf(init, windowMs, clientId, a, b);
      var s := StoreAfter(init, windowMs);
      if Hit(events, windowMs, clientId, a, b) {
        HitStep(t, Hits(init, windowMs, clientId, a, b), s, clientId, windowMs, a, b, most, before, last);
      } else if !t.NoHit? {
        LinkedStep(s, clientId, t.reset, t.count, windowMs, before, last);
      }
    }
  }

  /** The most that one limit lets through in any interval of a window length. */
  function SlidingLimit(most: nat, windowMs: nat): nat {
    if most == 0 || windowMs == 0 then most else 2 * most - 1
  }

  /**
   * No interval as long as the window, or shorter, holds twice the limit of allowed requests of
   * one client, over any trace of requests and sweeps.
   */
  lemma {:induction false} NeverTwiceTheLimit(events: seq<Event>, windowMs: nat, clientId: Text, a: int, b: int, most: nat)
    requires TimeFlows(events) && b - a <= windowMs
    requires Limited(events, most)
    ensures Hits(events, windowMs, clientId, a, b) <= SlidingLimit(most, windowMs)
  {
    TrackBounds(events, windowMs, clientId, a, b, most, if events == [] then 0 else events[|events| - 1].now);
  }

  // ---------- The bound is reached ----------

  /** Runs that end by `now`, in time order. */
  ghost predicate EndsBy(events: seq<Event>, now: int) {
    TimeFlows(events) && (events != [] ==> events[|events| - 1].now <= now)
  }

  function Burst(e: Event, n: nat): seq<Event> {
    if n == 0 then [] else Burst(e, n - 1) + [e]
  }

  /** While the window has room, every request of a burst is allowed. */
  lemma {:induction false} BurstHits(events: seq<Event>, e: Event, n: nat, windowMs: nat, a: int, b: int)
    requires e.Request? && a <= e.now <= b
    requires Window(StoreAfter(events, windowMs), e.clientId, e.now, windowMs).count + n <= e.max
    ensures Hits(events + Burst(e, n), windowMs, e.clientId, a, b) == Hits(events, windowMs, e.clientId, a, b) + n
    ensures Window(StoreAfter(events + Burst(e, n), windowMs), e.clientId, e.now, windowMs).count ==
              Window(StoreAfter(events, windowMs), e.clientId, e.now, windowMs).count + n
  {
    if n == 0 {
      assert events + Burst(e, 0) == events;
    } else {
      var before := events + Burst(e, n - 1);
      BurstHits(events, e, n - 1, windowMs, a, b);
      BurstStep(before, e, windowMs, a, b);
      Assoc(events, Burst(e, n - 1), [e]);
    }
  }

  lemma {:induction false} BurstStep(events: seq<Event>, e: Event, windowMs: nat, a: int, b: int)
    requires e.Request? && a <= e.now <= b
    requires Window(StoreAfter(events, windowMs), e.clientId, e.now, windowMs).count < e.max
    ensures Hits(events + [e], windowMs, e.clientId, a, b) == Hits(events, windowMs, e.clientId, a, b) + 1
    ensures Window(StoreAfter(events + [e], windowMs), e.clientId, e.now, windowMs).count ==
              Window(StoreAfter(events, windowMs), e.clientId, e.now, windowMs).count + 1
  {
  }

  lemma {:induction false} OneMoreEnds(events: seq<Event>, e: Event, most: nat)
    requires EndsBy(events, e.now) && Limited(events, most) && (e.Request? ==> e.max <= most)
    ensures EndsBy(events + [e], e.now) && Limited(events + [e], most)
  {
  }

  lemma {:induction false} BurstEnds(events: seq<Event>, e: Event, n: nat, most: nat)
    requires EndsBy(events, e.now) && Limited(events, most) && (e.Request? ==> e.max <= most)
    ensures EndsBy(events + Burst(e, n), e.now) && Limited(events + Burst(e, n), most)
  {
    if n == 0 {
      assert events + Burst(e, 0) == events;
    } else {
      BurstEnds(events, e, n - 1, most);
      var before := events + Burst(e, n - 1);
      assert events + Burst(e, n) == before + [e];
      OneMoreEnds(before, e, most);
    }
  }

  /** A burst leaves the reset time of the window it falls into. */
  lemma {:induction false} BurstKeepsWindow(events: seq<Event>, e: Event, n: nat, windowMs: nat)
    requires e.Request? && e.clientId in StoreAfter(events, windowMs)
    requires StoreAfter(events, windowMs)[e.clientId].resetTime >= e.now
    ensures var s := StoreAfter(events + Burst(e, n), windowMs);
      e.clientId in s && s[e.clientId].resetTime == StoreAfter(events, windowMs)[e.clientId].resetTime
  {
    if n == 0 {
      assert events + Burst(e, 0) == events;
    } else {
      BurstKeepsWindow(events, e, n - 1, windowMs);
      var before := events + Burst(e, n - 1);
      assert events + Burst(e, n) == before + [e];
      OneMore(before, e, windowMs);
    }
  }

  lemma {:induction false} FirstRequest(clientId: Text, windowMs: nat, most: nat)
    requires windowMs > 0 && most > 0
    ensures var e := Request(clientId, 0, most);
      && EndsBy([e], 0) && Limited([e], most)
      && StoreAfter([e], windowMs) == map[clientId := Entry(1, windowMs)]
      && Hits([e], windowMs, clientId, 1, windowMs + 1) == 0
  {
  }

  lemma {:induction false} TwoBursts(windowMs: nat, clientId: Text, most: nat) returns (events: seq<Event>)
    requires windowMs > 0 && most > 0
    ensures TimeFlows(events) && Limited(events, most)
    ensures Hits(events, windowMs, clientId, 1, windowMs + 1) == 2 * most - 1
  {
    var first, last, next :=
      Request(clientId, 0, most), Request(clientId, windowMs, most), Request(clientId, windowMs + 1, most);
    var a, b := 1, windowMs + 1;
    FirstRequest(clientId, windowMs, most);
    BurstEnds([first], last, most - 1, most);
    BurstHits([first], last, most - 1, windowMs, a, b);
    BurstKeepsWindow([first], last, most - 1, windowMs);
    var full := [first] + Burst(last, most - 1);
    BurstEnds(full, next, most, most);
    BurstHits(full, next, most, windowMs, a, b);
    events := full + Burst(next, most);
  }

  lemma {:induction false} OneBurst(windowMs: nat, clientId: Text, most: nat) returns (events: seq<Event>)
    ensures TimeFlows(events) && Limited(events, most)
    ensures Hits(events, windowMs, clientId, 0, 0) == most
  {
    var only := Request(clientId, 0, most);
    BurstEnds([], only, most, most);
    BurstHits([], only, most, windowMs, 0, 0);
    events := [] + Burst(only, most);
  }

  /**
   * One request opens a window; the rest of its limit comes as it ends, and a full limit right after:
   * twice the limit, less one, within one window length. A window without length holds one limit.
   */
  lemma {:induction false} SlidingLimitIsReached(windowMs: nat, clientId: Text, most: nat)
      returns (events: seq<Event>, a: int, b: int)
    ensures TimeFlows(events) && b - a <= windowMs
    ensures Limited(events, most)
    ensures Hits(events, windowMs, clientId, a, b) == SlidingLimit(most, windowMs)
  {
    if most == 0 || windowMs == 0 {
      a, b := 0, 0;
      events := OneBurst(windowMs, clientId, most);
    } else {
      a, b := 1, windowMs + 1;
      events := TwoBursts(windowMs, clientId, most);
    }
  }
}
