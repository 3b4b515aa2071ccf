/** Phases wrapped in gates that are checked before and after their body. */
module Gatekeeper {
  import opened Wrappers
  import opened JsText
  import opened Logs

  datatype Mode = STOP | WARN_CONTINUE | ESCALATE

  datatype Config = Config(onGateBlocked: Mode, gatesDisabled: bool)

  datatype Severity = BLOCKING | WARNING | INFO

  datatype Verdict = Verdict(passed: bool, reasons: seq<Text>, severity: Severity)

  /** What passes between phases; only `undefined` and `null` are told apart from the rest. */
  datatype Value<+V> = Undefined | Null | Present(v: V)

  datatype Checked = Verdicted(verdict: Verdict) | GateThrew(message: Text)

  /** A check sees the value and the verdicts recorded so far, by gate name. */
  datatype Gate<!V> = Gate(name: Text, check: (Value<V>, map<Text, Verdict>) -> Checked)

  datatype Executed<+V> = Output(value: Value<V>) | BodyThrew(message: Text)

  datatype Phase<!V> = Phase(
    name: Text, execute: Value<V> -> Executed<V>, input: Value<V>,
    preGates: seq<Gate<V>>, postGates: seq<Gate<V>>)

  datatype Status = SUCCESS | BLOCKED | FAILED

  datatype PhaseResult<+V> = PhaseResult(
    phaseName: Text, status: Status, output: Value<V>,
    preGateResults: seq<Verdict>, postGateResults: seq<Verdict>, errors: seq<Text>)

  datatype PipelineStatus = COMPLETED | BLOCKED | FAILED

  datatype RunResult<+V> = RunResult(
    status: PipelineStatus, phaseResults: seq<PhaseResult<V>>, blockedAtPhase: Option<Text>)

  /** One call of a phase's body. */
  datatype Call<+V> = Call(name: Text, input: Value<V>)

  predicate IsBlockingFailure(v: Verdict) {
    !v.passed && v.severity == BLOCKING
  }

  ghost predicate AnyBlocking(vs: seq<Verdict>) {
    exists v :: v in vs && !v.passed && v.severity == BLOCKING
  }

  // ---------- Messages ----------

  datatype Kind = PreGate | PostGate

  function Join(reasons: seq<Text>): Text {
    if reasons == [] then []
    else if |reasons| == 1 then reasons[0]
    else reasons[0] + Lit("; ") + Join(reasons[1..])
  }

  function Message(kind: Kind, gate: Text, middle: Text, end: Text): Text {
    Lit(if kind == PreGate then "Pre-gate \"" else "Post-gate \"") + gate + Lit("\" ") + middle + Lit(": ") + end
  }

  function ThrewMessage(kind: Kind, gate: Text, message: Text): Text {
    Message(kind, gate, Lit("threw"), message)
  }

  function WarningMessage(kind: Kind, gate: Text, reasons: seq<Text>): Text {
    Message(kind, gate, Lit("warning"), Join(reasons))
  }

  function BlockedMessage(kind: Kind, gate: Text, reasons: seq<Text>, mode: Mode): Text {
    Message(kind, gate, Lit(if mode == ESCALATE then "escalated for human review" else "blocked"), Join(reasons))
  }

  function FailureMessage(message: Text): Text {
    Lit("Phase execution failed: ") + message
  }

  // ---------- Gates, each judged by what the ones before it returned ----------

  datatype GateRun<!V> = GateRun(
    kind: Kind, gates: seq<Gate<V>>, value: Value<V>, mode: Mode, previous: map<Text, Verdict>)

  /** The verdicts that gate k is shown. */
  ghost function Seen<V(!new)>(g: GateRun<V>, k: nat): map<Text, Verdict>
    requires k <= |g.gates|
  {
    if k == 0 then g.previous
    else
      var c := g.gates[k - 1].check(g.value, Seen(g, k - 1));
      if c.Verdicted? then Seen(g, k - 1)[g.gates[k - 1].name := c.verdict] else Seen(g, k - 1)
  }

  ghost function Outcome<V(!new)>(g: GateRun<V>, k: nat): Checked
    requires k < |g.gates|
  {
    g.gates[k].check(g.value, Seen(g, k))
  }

  /** The verdict that is put on record for gate k: a gate that throws fails with severity BLOCKING. */
  ghost function Recorded<V(!new)>(g: GateRun<V>, k: nat): Verdict
    requires k < |g.gates|
  {
    match Outcome(g, k)
    case Verdicted(v) => v
    case GateThrew(m) => Verdict(false, [ThrewMessage(g.kind, g.gates[k].name, m)], BLOCKING)
  }

  ghost function Complaints<V(!new)>(g: GateRun<V>, k: nat): seq<Text>
    requires k < |g.gates|
  {
    match Outcome(g, k)
    case GateThrew(m) => [ThrewMessage(g.kind, g.gates[k].name, m)]
    case Verdicted(v) =>
      if IsBlockingFailure(v) && g.mode == WARN_CONTINUE then [WarningMessage(g.kind, g.gates[k].name, v.reasons)]
      else []
  }

  /** Gate k ends the evaluation: it returned a failing BLOCKING verdict and the mode is not to continue. */
  ghost predicate Stops<V(!new)>(g: GateRun<V>, k: nat)
    requires k < |g.gates|
  {
    g.mode != WARN_CONTINUE && Outcome(g, k).Verdicted? && IsBlockingFailure(Outcome(g, k).verdict)
  }

  ghost predicate StopsBefore<V(!new)>(g: GateRun<V>, k: nat)
    requires k <= |g.gates|
  {
    exists j :: 0 <= j < k && Stops(g, j)
  }

  ghost predicate SomeGateStops<V(!new)>(g: GateRun<V>) {
    StopsBefore(g, |g.gates|)
  }

  ghost function RecordedTo<V(!new)>(g: GateRun<V>, n: nat): (vs: seq<Verdict>)
    requires n <= |g.gates|
    ensures |vs| == n && forall k :: 0 <= k < n ==> vs[k] == Recorded(g, k)
  {
    if n == 0 then [] else RecordedTo(g, n - 1) + [Recorded(g, n - 1)]
  }

  ghost function ComplaintsTo<V(!new)>(g: GateRun<V>, n: nat): seq<Text>
    requires n <= |g.gates|
  {
    if n == 0 then [] else ComplaintsTo(g, n - 1) + Complaints(g, n - 1)
  }

  /** How many gates are evaluated from gate k on: up to and including the first that stops, or all. */
  ghost function ReachedFrom<V(!new)>(g: GateRun<V>, k: nat): (n: nat)
    requires k <= |g.gates|
    ensures k <= n <= |g.gates|
    ensures forall j :: k <= j < n - 1 ==> !Stops(g, j)
    ensures if exists j :: k <= j < |g.gates| && Stops(g, j) then k < n && Stops(g, n - 1) else n == |g.gates|
    decreases |g.gates| - k
  {
    if k == |g.gates| then k
    else if Stops(g, k) then k + 1
    else ReachedFrom(g, k + 1)
  }

  ghost function Reached<V(!new)>(g: GateRun<V>): (n: nat)
    ensures n <= |g.gates|
    ensures forall j :: 0 <= j < n - 1 ==> !Stops(g, j)
    ensures if SomeGateStops(g) then 0 < n && Stops(g, n - 1) else n == |g.gates|
  {
    ReachedFrom(g, 0)
  }

  ghost function BlockedBy<V(!new)>(g: GateRun<V>): Option<Text> {
    if SomeGateStops(g) then
      var k := Reached(g) - 1;
      Some(BlockedMessage(g.kind, g.gates[k].name, Recorded(g, k).reasons, g.mode))
    else None
  }

  lemma {:induction false} OneMoreGate<V(!new)>(g: GateRun<V>, k: nat)
    requires k < |g.gates|
    ensures RecordedTo(g, k + 1) == RecordedTo(g, k) + [Recorded(g, k)]
    ensures ComplaintsTo(g, k + 1) == ComplaintsTo(g, k) + Complaints(g, k)
    ensures match Outcome(g, k)
      case Verdicted(v) => Seen(g, k + 1) == Seen(g, k)[g.gates[k].name := v] && Recorded(g, k) == v
      case GateThrew(m) => Seen(g, k + 1) == Seen(g, k)
    ensures StopsBefore(g, k + 1) <==> StopsBefore(g, k) || Stops(g, k)
  {
  }

  lemma {:induction false} ReachedIs<V(!new)>(g: GateRun<V>, n: nat)
    requires n <= |g.gates| && forall j :: 0 <= j < n - 1 ==> !Stops(g, j)
    requires if n > 0 && Stops(g, n - 1) then true else n == |g.gates|
    ensures Reached(g) == n
    ensures SomeGateStops(g) <==> n > 0 && Stops(g, n - 1)
  {
  }

  lemma {:induction false} StopsAt<V(!new)>(g: GateRun<V>, k: nat)
    requires k < |g.gates| && Stops(g, k) && !StopsBefore(g, k)
    ensures Reached(g) == k + 1
    ensures BlockedBy(g) == Some(BlockedMessage(g.kind, g.gates[k].name, Outcome(g, k).verdict.reasons, g.mode))
    ensures Complaints(g, k) == []
  {
  }

  lemma {:induction false} NothingStops<V(!new)>(g: GateRun<V>)
    requires !StopsBefore(g, |g.gates|)
    ensures Reached(g) == |g.gates| && BlockedBy(g) == None
  {
  }

  /** Every gate returned a verdict, and none of them fails with severity BLOCKING. */
  ghost predicate Clear<V(!new)>(g: GateRun<V>) {
    forall k :: 0 <= k < |g.gates| ==>
      Outcome(g, k).Verdicted? && (Outcome(g, k).verdict.passed || Outcome(g, k).verdict.severity != BLOCKING)
  }

  /** The verdicts on record tell whether all gates were clear. */
  lemma {:induction false} ClearIffNothingBlockingOnRecord<V(!new)>(g: GateRun<V>)
    requires g.mode != WARN_CONTINUE
    ensures Clear(g) <==> !AnyBlocking(RecordedTo(g, Reached(g)))
    ensures SomeGateStops(g) ==> AnyBlocking(RecordedTo(g, Reached(g)))
  {
    var n := Reached(g);
    var vs := RecordedTo(g, n);
    if SomeGateStops(g) {
      assert vs[n - 1] in vs && IsBlockingFailure(vs[n - 1]);
    } else if k :| 0 <= k < n && !(Outcome(g, k).Verdicted? && !IsBlockingFailure(Recorded(g, k))) {
      assert vs[k] in vs && IsBlockingFailure(vs[k]);
    }
  }

  // ---------- One phase ----------

  ghost function PreRun<V(!new)>(config: Config, phase: Phase<V>, input: Value<V>): GateRun<V> {
    GateRun(PreGate, if config.gatesDisabled then [] else phase.preGates, input, config.onGateBlocked, map[])
  }

  /** The output on record: `null` when the body threw. */
  ghost function OutputOf<V(!new)>(e: Executed<V>): Value<V> {
    if e.Output? then e.value else Null
  }

  /** An output of `null` skips the post-gates; `undefined` does not. */
  ghost function PostRun<V(!new)>(config: Config, phase: Phase<V>, input: Value<V>): GateRun<V> {
    var output := OutputOf(phase.execute(input));
    var pre := PreRun(config, phase, input);
    GateRun(PostGate, if config.gatesDisabled || output == Null then [] else phase.postGates,
            output, config.onGateBlocked, Seen(pre, |pre.gates|))
  }

  ghost predicate BodyRuns<V(!new)>(config: Config, phase: Phase<V>, input: Value<V>) {
    !SomeGateStops(PreRun(config, phase, input))
  }

  /** The body threw, and the message is not empty: only then does the source notice. */
  predicate FailsVisibly<V(!new)>(e: Executed<V>) {
    e.BodyThrew? && e.message != []
  }

  ghost function BodyErrors<V(!new)>(e: Executed<V>): seq<Text> {
    if e.BodyThrew? then [FailureMessage(e.message)] else []
  }

  ghost function PhaseErrors<V(!new)>(config: Config, phase: Phase<V>, input: Value<V>): seq<Text> {
    var pre, post := PreRun(config, phase, input), PostRun(config, phase, input);
    var e := phase.execute(input);
    ComplaintsTo(pre, Reached(pre)) + BodyErrors(e) + ComplaintsTo(post, Reached(post))
  }

  /** `runPhase` */
  ghost function PhaseResultOf<V(!new)>(config: Config, phase: Phase<V>, input: Value<V>): PhaseResult<V> {
    var pre, post := PreRun(config, phase, input), PostRun(config, phase, input);
    var before, after := RecordedTo(pre, Reached(pre)), RecordedTo(post, Reached(post));
    var output := OutputOf(phase.execute(input));
    if SomeGateStops(pre) then
      PhaseResult(phase.name, Status.BLOCKED, Null, before, [], [BlockedBy(pre).value])
    else if SomeGateStops(post) then
      PhaseResult(phase.name, Status.BLOCKED, output, before, after,
                  PhaseErrors(config, phase, input) + [BlockedBy(post).value])
    else
      var status :=
        if FailsVisibly(phase.execute(input)) then Status.FAILED
        else if config.onGateBlocked != WARN_CONTINUE && AnyBlocking(before + after) then Status.BLOCKED
        else SUCCESS;
      PhaseResult(phase.name, status, output, before, after, PhaseErrors(config, phase, input))
  }

  ghost function CallsOf<V(!new)>(config: Config, phase: Phase<V>, input: Value<V>): seq<Call<V>> {
    if BodyRuns(config, phase, input) then [Call(phase.name, input)] else []
  }

  /** How phases behave under a configuration: their results and the calls of their bodies. */
  datatype Behaviour<!V> = Behaviour(
    result: (Phase<V>, Value<V>) -> PhaseResult<V>,
    calls: (Phase<V>, Value<V>) -> seq<Call<V>>)

  ghost function BehaviourOf<V(!new)>(config: Config): Behaviour<V> {
    Behaviour((phase, input) => PhaseResultOf(config, phase, input), (phase, input) => CallsOf(config, phase, input))
  }

  ghost predicate Behaves<V(!new)>(b: Behaviour<V>, config: Config) {
    forall phase, input {:trigger PhaseResultOf(config, phase, input)} {:trigger CallsOf(config, phase, input)} ::
      && b.result(phase, input) == PhaseResultOf(config, phase, input)
      && b.calls(phase, input) == CallsOf(config, phase, input)
  }

  lemma {:induction false} NoGates<V(!new)>(g: GateRun<V>)
    ensures g.gates == [] ==> Reached(g) == 0 && BlockedBy(g) == None && RecordedTo(g, 0) == [] && ComplaintsTo(g, 0) == []
  {
  }

  // ---------- The pipeline ----------

  /** `last ?? own` */
  function Chosen<V(!new)>(last: Value<V>, own: Value<V>): Value<V> {
    if last.Present? then last else own
  }

  ghost function LastOutput<V(!new)>(results: seq<PhaseResult<V>>, k: nat): Value<V>
    requires k <= |results|
  {
    if k == 0 then Undefined else results[k - 1].output
  }

  /** What phase k is given: the last output, or its own input when there is none. */
  ghost function InputAt<V(!new)>(phases: seq<Phase<V>>, results: seq<PhaseResult<V>>, k: nat): Value<V>
    requires k < |phases| && k <= |results|
  {
    Chosen(LastOutput(results, k), phases[k].input)
  }

  ghost predicate RanAt<V(!new)>(b: Behaviour<V>, phases: seq<Phase<V>>, results: seq<PhaseResult<V>>, k: nat)
    requires k < |results| <= |phases|
  {
    results[k] == b.result(phases[k], InputAt(phases, results, k))
  }

  ghost predicate RunsTo<V(!new)>(b: Behaviour<V>, phases: seq<Phase<V>>, results: seq<PhaseResult<V>>) {
    && |results| <= |phases|
    && forall k {:trigger RanAt(b, phases, results, k)} :: 0 <= k < |results| ==> RanAt(b, phases, results, k)
  }

  /** The phases run in order up to the first that is not a success. */
  ghost predicate RunsAs<V(!new)>(b: Behaviour<V>, phases: seq<Phase<V>>, results: seq<PhaseResult<V>>) {
    var n := |results|;
    && RunsTo(b, phases, results)
    && (forall k :: 0 <= k < n - 1 ==> results[k].status == SUCCESS)
    && (n < |phases| ==> n > 0 && results[n - 1].status != SUCCESS)
  }

  /** The bodies called for the first n results. */
  ghost function CallsTo<V(!new)>(b: Behaviour<V>, phases: seq<Phase<V>>, results: seq<PhaseResult<V>>, n: nat): seq<Call<V>>
    requires n <= |results| <= |phases|
  {
    if n == 0 then []
    else CallsTo(b, phases, results, n - 1) + b.calls(phases[n - 1], InputAt(phases, results, n - 1))
  }

  predicate AllSucceed<V(!new)>(results: seq<PhaseResult<V>>) {
    forall k :: 0 <= k < |results| ==> results[k].status == SUCCESS
  }

  /** A run is COMPLETED or BLOCKED: a phase that failed blocks it too, so FAILED is never reported. */
  ghost function StatusOf<V(!new)>(results: seq<PhaseResult<V>>): PipelineStatus {
    if AllSucceed(results) then COMPLETED else PipelineStatus.BLOCKED
  }

  ghost function StoppedAt<V(!new)>(results: seq<PhaseResult<V>>): Option<Text> {
    if AllSucceed(results) then None else Some(results[|results| - 1].phaseName)
  }

  lemma {:induction false} CallsToPrefix<V(!new)>(
    b: Behaviour<V>, phases: seq<Phase<V>>, short: seq<PhaseResult<V>>, long: seq<PhaseResult<V>>, n: nat)
    requires n <= |short| && short <= long && |long| <= |phases|
    ensures CallsTo(b, phases, short, n) == CallsTo(b, phases, long, n)
  {
    if n > 0 {
      CallsToPrefix(b, phases, short, long, n - 1);
      assert LastOutput(short, n - 1) == LastOutput(long, n - 1);
    }
  }

  lemma {:induction false} CallsToMore<V(!new)>(b: Behaviour<V>, phases: seq<Phase<V>>, results: seq<PhaseResult<V>>, r: PhaseResult<V>)
    requires |results| < |phases|
    ensures var k := |results|;
      CallsTo(b, phases, results + [r], k + 1) ==
        CallsTo(b, phases, results, k) + b.calls(phases[k], InputAt(phases, results, k))
  {
    CallsToPrefix(b, phases, results, results + [r], |results|);
    assert LastOutput(results + [r], |results|) == LastOutput(results, |results|);
  }

  lemma {:induction false} RunsToMore<V(!new)>(b: Behaviour<V>, phases: seq<Phase<V>>, results: seq<PhaseResult<V>>, r: PhaseResult<V>)
    requires |results| < |phases| && RunsTo(b, phases, results) && AllSucceed(results)
    requires r == b.result(phases[|results|], InputAt(phases, results, |results|))
    ensures RunsTo(b, phases, results + [r])
    ensures AllSucceed(results + [r]) <==> r.status == SUCCESS
    ensures r.status != SUCCESS ==> RunsAs(b, phases, results + [r]) && StoppedAt(results + [r]) == Some(r.phaseName)
  {
    var more := results + [r];
    assert more[|results|] == r;
    forall k | 0 <= k < |more|
      ensures RanAt(b, phases, more, k)
    {
      assert k < |results| ==> RanAt(b, phases, results, k);
      assert LastOutput(more, k) == LastOutput(results, k);
    }
  }

  class GateContext {
    var previousGates: map<Text, Verdict>

    constructor ()
      ensures previousGates == map[]
    {
      previousGates := map[];
    }
  }

  class GatedPhasePipeline {
    var config: Config

    constructor (config: Config)
      ensures this.config == config
    {
      this.config := config;
    }

    method EvaluateGates<V(!new)>(
      kind: Kind, gates: seq<Gate<V>>, value: Value<V>, gateCtx: GateContext, errors: Log<Text>)
      returns (results: seq<Verdict>, blocked: Option<Text>)
      modifies gateCtx, errors
      ensures var g := GateRun(kind, gates, value, config.onGateBlocked, old(gateCtx.previousGates));
        && results == RecordedTo(g, Reached(g))
        && blocked == BlockedBy(g)
        && gateCtx.previousGates == Seen(g, Reached(g))
        && errors.items == old(errors.items) + ComplaintsTo(g, Reached(g))
    {
      results, blocked := [], None;
      var mode := config.onGateBlocked;
      ghost var g := GateRun(kind, gates, value, mode, gateCtx.previousGates);
      ghost var said := errors.items;
      for i := 0 to |gates|
        invariant results == RecordedTo(g, i)
        invariant gateCtx.previousGates == Seen(g, i)
        invariant errors.items == said + ComplaintsTo(g, i)
        invariant !StopsBefore(g, i)
      {
        var gate := gates[i];
        ghost var before := errors.items;
        OneMoreGate(g, i);
        Assoc(said, ComplaintsTo(g, i), Complaints(g, i));
        match gate.check(value, gateCtx.previousGates) {
          case Verdicted(verdict) =>
            gateCtx.previousGates := gateCtx.previousGates[gate.name := verdict];
            results := results + [verdict];
            if IsBlockingFailure(verdict) {
              if mode == WARN_CONTINUE {
                errors.Push(WarningMessage(kind, gate.name, verdict.reasons));
              } else {
                StopsAt(g, i);
                blocked := Some(BlockedMessage(kind, gate.name, verdict.reasons, mode));
                return;
              }
            }
          case GateThrew(message) =>
            var msg := ThrewMessage(kind, gate.name, message);
            errors.Push(msg);
            results := results + [Verdict(false, [msg], BLOCKING)];
        }
        assert errors.items == before + Complaints(g, i);
      }
      NothingStops(g);
    }

    method EvaluateGatesIf<V(!new)>(
      gating: bool, kind: Kind, gates: seq<Gate<V>>, value: Value<V>, gateCtx: GateContext, errors: Log<Text>)
      returns (results: seq<Verdict>, blocked: Option<Text>)
      modifies gateCtx, errors
      ensures var g :=
                GateRun(kind, if gating then gates else [], value, config.onGateBlocked, old(gateCtx.previousGates));
        && results == RecordedTo(g, Reached(g))
        && blocked == BlockedBy(g)
        && gateCtx.previousGates == Seen(g, Reached(g))
        && errors.items == old(errors.items) + ComplaintsTo(g, Reached(g))
    {
      if gating {
        results, blocked := EvaluateGates(kind, gates, value, gateCtx, errors);
      } else {
        results, blocked := [], None;
        NoGates(GateRun(kind, [], value, config.onGateBlocked, gateCtx.previousGates));
      }
    }

    /** `runPhase`; `calls` records the calls of phase bodies. */
    method RunPhase<V(!new,==)>(phase: Phase<V>, input: Value<V>, calls: Log<Call<V>>) returns (r: PhaseResult<V>)
      modifies calls
      ensures r == PhaseResultOf(config, phase, input)
      ensures calls.items == old(calls.items) + CallsOf(config, phase, input)
    {
      var gateCtx := new GateContext();
      var errors := new Log<Text>();
      var gating := !config.gatesDisabled;
      var pre, preBlocked := EvaluateGatesIf(gating, PreGate, phase.preGates, input, gateCtx, errors);
      ghost var g, h := PreRun(config, phase, input), PostRun(config, phase, input);
      ghost var before := ComplaintsTo(g, Reached(g));
      assert errors.items == before;
      if preBlocked.Some? {
        return PhaseResult(phase.name, Status.BLOCKED, Null, pre, [], [preBlocked.value]);
      }

      var output: Value<V> := Null;
      calls.Push(Call(phase.name, input));
      var executed := phase.execute(input);
      match executed {
        case Output(value) => output := value;
        case BodyThrew(message) => errors.Push(FailureMessage(message));
      }
      ghost var middle := before + BodyErrors(executed);
      assert errors.items == middle;
      assert output == OutputOf(executed);
      assert gateCtx.previousGates == Seen(g, |g.gates|);

      var post, postBlocked :=
        EvaluateGatesIf(gating && output != Null, PostGate, phase.postGates, output, gateCtx, errors);
      assert errors.items == middle + ComplaintsTo(h, Reached(h));
      assert errors.items == PhaseErrors(config, phase, input);
      if postBlocked.Some? {
        return PhaseResult(phase.name, Status.BLOCKED, output, pre, post, errors.items + [postBlocked.value]);
      }

      var anyBlocking := SomeBlocking(pre + post);
      var status := SUCCESS;
      if FailsVisibly(executed) {
        status := Status.FAILED;
      } else if config.onGateBlocked != WARN_CONTINUE && anyBlocking {
        status := Status.BLOCKED;
      }
      r := PhaseResult(phase.name, status, output, pre, post, errors.items);
    }

    /** The loop of `runPipeline`. */
    method RunPhases<V(!new,==)>(phases: seq<Phase<V>>, calls: Log<Call<V>>, ghost b: Behaviour<V>)
      returns (results: seq<PhaseResult<V>>, blockedAtPhase: Option<Text>)
      requires Behaves(b, config)
      modifies calls
      ensures RunsAs(b, phases, results)
      ensures calls.items == old(calls.items) + CallsTo(b, phases, results, |results|)
      ensures blockedAtPhase == StoppedAt(results)
    {
      results, blockedAtPhase := [], None;
      var lastOutput: Value<V> := Undefined;
      ghost var called := calls.items;
      for k := 0 to |phases|
        invariant |results| == k && RunsTo(b, phases, results)
        invariant AllSucceed(results) && blockedAtPhase == None
        invariant lastOutput == LastOutput(results, k)
        invariant calls.items == called + CallsTo(b, phases, results, k)
      {
        var phase := phases[k];
        var input := Chosen(lastOutput, phase.input);
        var result := RunPhase(phase, input, calls);
        assert result == b.result(phase, input);
        assert input == InputAt(phases, results, k);
        CallsToMore(b, phases, results, result);
        Assoc(called, CallsTo(b, phases, results, k), b.calls(phase, input));
        RunsToMore(b, phases, results, result);
        results := results + [result];
        if result.status == Status.BLOCKED || result.status == Status.FAILED {
          blockedAtPhase := Some(phase.name);
          break;
        }
        lastOutput := result.output;
      }
    }

    /** `runPipeline` */
    method RunPipeline<V(!new,==)>(phases: seq<Phase<V>>, calls: Log<Call<V>>) returns (run: RunResult<V>)
      modifies calls
      ensures RunsAs(BehaviourOf(config), phases, run.phaseResults)
      ensures calls.items == old(calls.items) + CallsTo(BehaviourOf(config), phases, run.phaseResults, |run.phaseResults|)
      ensures run.status == StatusOf(run.phaseResults)
      ensures run.blockedAtPhase == StoppedAt(run.phaseResults)
    {
      var results, blockedAtPhase := RunPhases(phases, calls, BehaviourOf(config));
      var status :=
        if blockedAtPhase.Some? then PipelineStatus.BLOCKED
        else if AllSucceed(results) then COMPLETED
        else PipelineStatus.FAILED;
      run := RunResult(status, results, blockedAtPhase);
    }
  }

  method SomeBlocking(vs: seq<Verdict>) returns (found: bool)
    ensures found == AnyBlocking(vs)
  {
    for i := 0 to |vs|
      invariant forall k :: 0 <= k < i ==> !IsBlockingFailure(vs[k])
    {
      if IsBlockingFailure(vs[i]) {
        return true;
      }
    }
    found := false;
  }

  // ---------- What a phase promises ----------

  /**
   * A body runs exactly when the mode is to continue, or none of the gates evaluated before it
   * returned a failing BLOCKING verdict.
   */
  lemma {:induction false} BodyRunsIff<V(!new)>(config: Config, phase: Phase<V>, input: Value<V>)
    ensures var g, evaluated := PreRun(config, phase, input), |PhaseResultOf(config, phase, input).preGateResults|;
      && evaluated <= |g.gates|
      && (BodyRuns(config, phase, input) <==>
            || config.onGateBlocked == WARN_CONTINUE
            || forall k :: 0 <= k < evaluated ==>
                 Outcome(g, k).Verdicted? ==> Outcome(g, k).verdict.passed || Outcome(g, k).verdict.severity != BLOCKING)
  {
    var g := PreRun(config, phase, input);
    var n := Reached(g);
    assert SomeGateStops(g) ==> Stops(g, n - 1);
    assert forall k :: 0 <= k < |g.gates| && g.mode != WARN_CONTINUE ==>
      (Stops(g, k) <==> !(Outcome(g, k).Verdicted? ==> !IsBlockingFailure(Outcome(g, k).verdict)));
  }

  lemma {:induction false} BlockingInBoth(a: seq<Verdict>, b: seq<Verdict>)
    ensures AnyBlocking(a + b) <==> AnyBlocking(a) || AnyBlocking(b)
  {
  }

  /** What a phase has to do to be counted a success. */
  ghost predicate Succeeds<V(!new)>(config: Config, phase: Phase<V>, input: Value<V>) {
    && !FailsVisibly(phase.execute(input))
    && (config.onGateBlocked != WARN_CONTINUE ==>
          Clear(PreRun(config, phase, input)) && Clear(PostRun(config, phase, input)))
  }

  /** SUCCESS: every gate returned a verdict that lets the phase pass, and the body did not visibly fail. */
  lemma {:induction false} SuccessIff<V(!new)>(config: Config, phase: Phase<V>, input: Value<V>)
    ensures PhaseResultOf(config, phase, input).status == SUCCESS <==> Succeeds(config, phase, input)
  {
    var pre, post := PreRun(config, phase, input), PostRun(config, phase, input);
    if config.onGateBlocked != WARN_CONTINUE {
      ClearIffNothingBlockingOnRecord(pre);
      ClearIffNothingBlockingOnRecord(post);
      BlockingInBoth(RecordedTo(pre, Reached(pre)), RecordedTo(post, Reached(post)));
    }
  }

  /** Read off the result: the body ran without visible failure, and no verdict on record fails with severity BLOCKING. */
  lemma {:induction false} SuccessOnRecord<V(!new)>(config: Config, phase: Phase<V>, input: Value<V>)
    requires config.onGateBlocked != WARN_CONTINUE
    ensures var r := PhaseResultOf(config, phase, input);
      r.status == SUCCESS <==>
        && BodyRuns(config, phase, input)
        && !FailsVisibly(phase.execute(input))
        && !AnyBlocking(r.preGateResults + r.postGateResults)
  {
  }

  /** FAILED: the body ran and threw a message that is not empty, whatever the gates said. */
  lemma {:induction false} FailedIff<V(!new)>(config: Config, phase: Phase<V>, input: Value<V>)
    ensures PhaseResultOf(config, phase, input).status == Status.FAILED <==>
              && BodyRuns(config, phase, input)
              && phase.execute(input).BodyThrew? && phase.execute(input).message != []
  {
  }

  /** What a phase leaves: no output without a body that returned, and no post-gate verdict without an output. */
  lemma {:induction false} LeavesOutput<V(!new)>(config: Config, phase: Phase<V>, input: Value<V>)
    ensures var r := PhaseResultOf(config, phase, input);
      && r.phaseName == phase.name
      && r.output == (if BodyRuns(config, phase, input) && phase.execute(input).Output? then phase.execute(input).value
                      else Null)
      && (r.output == Null ==> r.postGateResults == [])
      && (config.gatesDisabled ==> r.preGateResults == [] && r.postGateResults == [])
  {
  }

  /** The body ran, and it ran to its end. */
  ghost predicate BodyReturned<V(!new)>(config: Config, phase: Phase<V>, input: Value<V>) {
    BodyRuns(config, phase, input) && phase.execute(input).Output?
  }

  ghost predicate ThrewNothingToSay<V(!new)>(config: Config, phase: Phase<V>, input: Value<V>) {
    && phase.execute(input) == BodyThrew([])
    && (config.onGateBlocked != WARN_CONTINUE ==> Clear(PreRun(config, phase, input)))
  }

  /** A success has a body that returned, except when the body threw an error with an empty message. */
  lemma {:induction false} SuccessMeansReturnedIff<V(!new)>(config: Config, phase: Phase<V>, input: Value<V>)
    ensures (PhaseResultOf(config, phase, input).status == SUCCESS ==> BodyReturned(config, phase, input)) <==>
              !ThrewNothingToSay(config, phase, input)
  {
    SuccessIff(config, phase, input);
    var pre := PreRun(config, phase, input);
    if config.onGateBlocked != WARN_CONTINUE {
      ClearIffNothingBlockingOnRecord(pre);
    }
  }

  function SilentThrower(): Phase<bool> {
    Phase(Lit("reader"), (input: Value<bool>) => BodyThrew([]), Null, [], [])
  }

  /** A phase without gates whose body throws an empty message: the source reports a success. */
  lemma {:induction false} EmptyMessageLooksLikeSuccess(config: Config)
    ensures var phase := SilentThrower();
      && !BodyReturned(config, phase, Null)
      && PhaseResultOf(config, phase, Null).status == SUCCESS
  {
  }

  // ---------- Texts ----------

  lemma {:induction false} LitConcat(a: string, b: string, c: string)
    ensures Lit(a) + Lit(b) + Lit(c) == Lit(a + b + c)
  {
  }

  lemma {:induction false} MessageIs(kind: Kind, gate: Text, middle: string, end: Text)
    ensures Message(kind, gate, Lit(middle), end) ==
              Lit(if kind == PreGate then "Pre-gate \"" else "Post-gate \"") + gate + Lit("\" " + middle + ": ") + end
  {
    LitConcat("\" ", middle, ": ");
    var start := Lit(if kind == PreGate then "Pre-gate \"" else "Post-gate \"") + gate;
    Assoc(start, Lit("\" "), Lit(middle));
    Assoc(start, Lit("\" ") + Lit(middle), Lit(": "));
  }

  /** The texts of the messages. */
  lemma {:induction false} MessageTexts(gate: Text, reasons: seq<Text>, message: Text)
    ensures BlockedMessage(PreGate, gate, reasons, STOP) ==
              Lit("Pre-gate \"") + gate + Lit("\" blocked: ") + Join(reasons)
    ensures BlockedMessage(PostGate, gate, reasons, ESCALATE) ==
              Lit("Post-gate \"") + gate + Lit("\" escalated for human review: ") + Join(reasons)
    ensures WarningMessage(PreGate, gate, reasons) == Lit("Pre-gate \"") + gate + Lit("\" warning: ") + Join(reasons)
    ensures ThrewMessage(PostGate, gate, message) == Lit("Post-gate \"") + gate + Lit("\" threw: ") + message
    ensures FailureMessage(message) == Lit("Phase execution failed: ") + message
  {
    MessageIs(PreGate, gate, "blocked", Join(reasons));
    MessageIs(PostGate, gate, "escalated for human review", Join(reasons));
    MessageIs(PreGate, gate, "warning", Join(reasons));
    MessageIs(PostGate, gate, "threw", message);
    assert "\" " + "blocked" + ": " == "\" blocked: ";
    assert "\" " + "escalated for human review" + ": " == "\" escalated for human review: ";
    assert "\" " + "warning" + ": " == "\" warning: ";
    assert "\" " + "threw" + ": " == "\" threw: ";
  }

  /** Reasons are joined in order, with a semicolon and a space between any two. */
  lemma {:induction false} JoinConcat(a: seq<Text>, b: seq<Text>)
    requires a != [] && b != []
    ensures Join(a + b) == Join(a) + Lit("; ") + Join(b)
    ensures |a| == 1 ==> Join(a) == a[0]
  {
    if |a| == 1 {
      assert (a + b)[1..] == b;
    } else {
      JoinConcat(a[1..], b);
      assert (a + b)[1..] == a[1..] + b;
      Assoc(a[0] + Lit("; "), Join(a[1..]) + Lit("; "), Join(b));
      Assoc(a[0] + Lit("; "), Join(a[1..]), Lit("; "));
    }
  }

  // ---------- What a pipeline promises ----------

  /** The results are determined by how the phases behave. */
  lemma {:induction false} OneRun<V(!new)>(
    b: Behaviour<V>, phases: seq<Phase<V>>, r: seq<PhaseResult<V>>, s: seq<PhaseResult<V>>, n: nat)
    requires RunsAs(b, phases, r) && RunsAs(b, phases, s) && n <= |r|
    ensures n <= |s| && forall k :: 0 <= k < n ==> r[k] == s[k]
    ensures n == |r| ==> r == s
  {
    if n > 0 {
      OneRun(b, phases, r, s, n - 1);
      assert n > 1 ==> r[n - 2] == s[n - 2];
      assert |s| > n - 1;
      assert LastOutput(r, n - 1) == LastOutput(s, n - 1);
      assert RanAt(b, phases, s, n - 1) && RanAt(b, phases, r, n - 1);
    }
    assert n > 0 ==> r[n - 1] == s[n - 1];
  }

  /** From phase k on, every phase succeeds on the last output before it. */
  ghost predicate AllSucceedFrom<V(!new)>(config: Config, phases: seq<Phase<V>>, k: nat, last: Value<V>)
    requires k <= |phases|
    decreases |phases| - k
  {
    k < |phases| ==>
      var input := if last.Present? then last else phases[k].input;
      && Succeeds(config, phases[k], input)
      && AllSucceedFrom(config, phases, k + 1, OutputOf(phases[k].execute(input)))
  }

  /** A success is what `SuccessIff` says it is, and hands on what the body returned. */
  ghost predicate Judges<V(!new)>(b: Behaviour<V>, config: Config) {
    forall phase, input {:trigger b.result(phase, input)} ::
      && (b.result(phase, input).status == SUCCESS <==> Succeeds(config, phase, input))
      && (b.result(phase, input).status == SUCCESS ==> b.result(phase, input).output == OutputOf(phase.execute(input)))
  }

  lemma {:induction false} BehaviourJudges<V(!new)>(config: Config)
    ensures Judges(BehaviourOf<V>(config), config)
  {
    forall phase: Phase<V>, input: Value<V>
      ensures PhaseResultOf(config, phase, input).status == SUCCESS <==> Succeeds(config, phase, input)
    {
      SuccessIff(config, phase, input);
    }
  }

  lemma {:induction false} SuccessChain<V(!new)>(
    b: Behaviour<V>, config: Config, phases: seq<Phase<V>>, results: seq<PhaseResult<V>>, k: nat)
    requires Judges(b, config) && RunsAs(b, phases, results) && k <= |results|
    requires forall i :: 0 <= i < k ==> results[i].status == SUCCESS
    ensures AllSucceedFrom(config, phases, k, LastOutput(results, k)) <==> |results| == |phases| && AllSucceed(results)
    decreases |results| - k
  {
    if k < |results| {
      assert RanAt(b, phases, results, k);
    }
    if k < |results| && results[k].status == SUCCESS {
      SuccessChain(b, config, phases, results, k + 1);
    }
  }

  /** COMPLETED: each phase in turn succeeds on what the one before it left. Then all of them ran. */
  lemma {:induction false} CompletedIff<V(!new)>(config: Config, phases: seq<Phase<V>>, results: seq<PhaseResult<V>>)
    requires RunsAs(BehaviourOf(config), phases, results)
    ensures StatusOf(results) == COMPLETED <==> AllSucceedFrom(config, phases, 0, Undefined)
    ensures StatusOf(results) == COMPLETED <==> |results| == |phases| && AllSucceed(results)
    ensures StatusOf(results) == COMPLETED <==> StoppedAt(results) == None
  {
    BehaviourJudges<V>(config);
    SuccessChain(BehaviourOf(config), config, phases, results, 0);
  }

  /** A phase calls its body once with its input, or is BLOCKED without calling it. */
  ghost predicate CallsOnce<V(!new)>(b: Behaviour<V>) {
    forall phase, input {:trigger b.calls(phase, input)} ::
      || b.calls(phase, input) == [Call(phase.name, input)]
      || (b.calls(phase, input) == [] && b.result(phase, input).status == Status.BLOCKED)
  }

  lemma {:induction false} BehaviourCallsOnce<V(!new)>(config: Config)
    ensures CallsOnce(BehaviourOf<V>(config))
  {
  }

  /** The bodies called are those of the first phases, in order and once each: of all that have a result, or all but the last. */
  lemma {:induction false} CallsArePrefix<V(!new)>(
    b: Behaviour<V>, phases: seq<Phase<V>>, results: seq<PhaseResult<V>>, n: nat)
    requires CallsOnce(b) && RunsAs(b, phases, results) && n <= |results|
    ensures var calls := CallsTo(b, phases, results, n);
      && n - 1 <= |calls| <= n
      && (forall k :: 0 <= k < |calls| ==> calls[k] == Call(phases[k].name, InputAt(phases, results, k)))
      && (|calls| < n ==> n == |results| && results[n - 1].status == Status.BLOCKED)
  {
    if n > 0 {
      CallsArePrefix(b, phases, results, n - 1);
      assert RanAt(b, phases, results, n - 1);
    }
  }

  lemma {:induction false} ExecutedPhasesArePrefix<V(!new)>(config: Config, phases: seq<Phase<V>>, results: seq<PhaseResult<V>>)
    requires RunsAs(BehaviourOf(config), phases, results)
    ensures var calls := CallsTo(BehaviourOf(config), phases, results, |results|);
      && |results| - 1 <= |calls| <= |results| <= |phases|
      && (forall k :: 0 <= k < |calls| ==>
            && calls[k].name == phases[k].name
            && calls[k].input == (if k > 0 && results[k - 1].output.Present? then results[k - 1].output else phases[k].input))
      && (|calls| < |results| ==> results[|calls|].status == Status.BLOCKED)
  {
    BehaviourCallsOnce<V>(config);
    CallsArePrefix(BehaviourOf(config), phases, results, |results|);
  }

  // ---------- The modes ----------

  /** STOP and ESCALATE see the same outcomes; only what a stop is called differs. */
  lemma {:induction false} ModeKeepsSeen<V(!new)>(a: GateRun<V>, b: GateRun<V>, k: nat)
    requires k <= |a.gates| && b == a.(mode := b.mode)
    ensures Seen(a, k) == Seen(b, k)
    ensures RecordedTo(a, k) == RecordedTo(b, k)
  {
    if k > 0 {
      ModeKeepsSeen(a, b, k - 1);
    }
  }

  lemma {:induction false} SameStops<V(!new)>(a: GateRun<V>, b: GateRun<V>)
    requires b == a.(mode := b.mode) && a.mode != WARN_CONTINUE && b.mode != WARN_CONTINUE
    ensures SomeGateStops(a) <==> SomeGateStops(b)
    ensures Reached(a) == Reached(b)
    ensures RecordedTo(a, Reached(a)) == RecordedTo(b, Reached(b))
  {
    forall k | 0 <= k < |a.gates| ensures Stops(a, k) <==> Stops(b, k) {
      ModeKeepsSeen(a, b, k);
    }
    ReachedIs(a, Reached(b));
    ModeKeepsSeen(a, b, Reached(a));
  }

  /** Escalating changes the words of an error and nothing else about a phase. */
  lemma {:induction false} EscalationOnlyRewords<V(!new)>(gatesDisabled: bool, phase: Phase<V>, input: Value<V>)
    ensures var stop := PhaseResultOf(Config(STOP, gatesDisabled), phase, input);
            var escalate := PhaseResultOf(Config(ESCALATE, gatesDisabled), phase, input);
      && escalate == stop.(errors := escalate.errors)
      && |escalate.errors| == |stop.errors|
  {
    var a, b := Config(STOP, gatesDisabled), Config(ESCALATE, gatesDisabled);
    var pre, pre' := PreRun(a, phase, input), PreRun(b, phase, input);
    ModeKeepsSeen(pre, pre', |pre.gates|);
    SameStops(pre, pre');
    SameComplaints(pre, pre', Reached(pre));
    var post, post' := PostRun(a, phase, input), PostRun(b, phase, input);
    assert post' == post.(mode := ESCALATE);
    SameStops(post, post');
    SameComplaints(post, post', Reached(post));
    assert PhaseErrors(a, phase, input) == PhaseErrors(b, phase, input);
  }

  lemma {:induction false} SameComplaints<V(!new)>(a: GateRun<V>, b: GateRun<V>, n: nat)
    requires n <= |a.gates| && b == a.(mode := b.mode) && a.mode != WARN_CONTINUE && b.mode != WARN_CONTINUE
    ensures ComplaintsTo(a, n) == ComplaintsTo(b, n)
  {
    if n > 0 {
      SameComplaints(a, b, n - 1);
      ModeKeepsSeen(a, b, n - 1);
    }
  }

  ghost predicate Alike<V(!new)>(a: Behaviour<V>, b: Behaviour<V>) {
    forall phase, input {:trigger a.result(phase, input)} {:trigger b.result(phase, input)} ::
      b.result(phase, input) == a.result(phase, input).(errors := b.result(phase, input).errors)
  }

  lemma {:induction false} AlikeRuns<V(!new)>(
    a: Behaviour<V>, b: Behaviour<V>, phases: seq<Phase<V>>, r: seq<PhaseResult<V>>, s: seq<PhaseResult<V>>, n: nat)
    requires Alike(a, b) && RunsAs(a, phases, r) && RunsAs(b, phases, s) && n <= |r|
    ensures n <= |s| && forall k :: 0 <= k < n ==> s[k] == r[k].(errors := s[k].errors)
    ensures n == |r| ==> |s| == |r|
  {
    if n > 0 {
      AlikeRuns(a, b, phases, r, s, n - 1);
      assert n > 1 ==> s[n - 2].status == r[n - 2].status && s[n - 2].output == r[n - 2].output;
      assert |s| > n - 1;
      assert LastOutput(r, n - 1) == LastOutput(s, n - 1);
      assert RanAt(b, phases, s, n - 1) && RanAt(a, phases, r, n - 1);
    }
    assert n > 0 ==> s[n - 1].status == r[n - 1].status;
  }

  lemma {:induction false} EscalationBehavesAlike<V(!new)>(gatesDisabled: bool)
    ensures Alike(BehaviourOf<V>(Config(STOP, gatesDisabled)), BehaviourOf(Config(ESCALATE, gatesDisabled)))
  {
    forall phase: Phase<V>, input: Value<V>
      ensures var r := PhaseResultOf(Config(ESCALATE, gatesDisabled), phase, input);
        r == PhaseResultOf(Config(STOP, gatesDisabled), phase, input).(errors := r.errors)
    {
      EscalationOnlyRewords(gatesDisabled, phase, input);
    }
  }

  /** A whole run under ESCALATE has the results it has under STOP, errors reworded, and stops where that stops. */
  lemma {:induction false} EscalationRunsAlike<V(!new)>(
    gatesDisabled: bool, phases: seq<Phase<V>>, r: seq<PhaseResult<V>>, s: seq<PhaseResult<V>>)
    requires RunsAs(BehaviourOf(Config(STOP, gatesDisabled)), phases, r)
    requires RunsAs(BehaviourOf(Config(ESCALATE, gatesDisabled)), phases, s)
    ensures |s| == |r| && forall k :: 0 <= k < |r| ==> s[k] == r[k].(errors := s[k].errors)
    ensures StatusOf(s) == StatusOf(r) && StoppedAt(s) == StoppedAt(r)
  {
    EscalationBehavesAlike<V>(gatesDisabled);
    AlikeRuns(BehaviourOf(Config(STOP, gatesDisabled)), BehaviourOf(Config(ESCALATE, gatesDisabled)), phases, r, s, |r|);
    SameEnd(r, s);
  }

  lemma {:induction false} SameEnd<V(!new)>(r: seq<PhaseResult<V>>, s: seq<PhaseResult<V>>)
    requires |s| == |r| && forall k :: 0 <= k < |r| ==> s[k] == r[k].(errors := s[k].errors)
    ensures StatusOf(s) == StatusOf(r) && StoppedAt(s) == StoppedAt(r)
  {
  }
}
