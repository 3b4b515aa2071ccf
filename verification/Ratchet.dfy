/** The typecheck ratchet: error counts per bucket may fall but never rise. */
module Ratchet {
  import opened JsText

  type Buckets = map<Text, int>

  /** `buckets[key] ?? 0` */
  function Count(b: Buckets, key: Text): int {
    if key in b then b[key] else 0
  }

  datatype Delta = Delta(key: Text, baseline: int, current: int)

  function DeltaAt(baseline: Buckets, current: Buckets, key: Text): Delta {
    Delta(key, Count(baseline, key), Count(current, key))
  }

  datatype Comparison = Comparison(regressions: seq<Delta>, improvements: seq<Delta>)

  ghost predicate NothingWorse(baseline: Buckets, current: Buckets) {
    forall k :: Count(current, k) <= Count(baseline, k)
  }

  ghost predicate SomethingBetter(baseline: Buckets, current: Buckets) {
    exists k :: Count(current, k) < Count(baseline, k)
  }

  // ---------- Comparing a run with the baseline ----------

  /** The deltas are those of the keys that satisfy a condition, each once. */
  ghost predicate Lists(deltas: seq<Delta>, baseline: Buckets, current: Buckets, keys: set<Text>) {
    && (forall i, j :: 0 <= i < j < |deltas| ==> deltas[i].key != deltas[j].key)
    && (forall d :: d in deltas ==> d.key in keys && d == DeltaAt(baseline, current, d.key))
    && (forall k :: k in keys ==> DeltaAt(baseline, current, k) in deltas)
  }

  ghost function Worse(baseline: Buckets, current: Buckets, among: set<Text>): set<Text> {
    set k | k in among && Count(current, k) > Count(baseline, k)
  }

  ghost function Better(baseline: Buckets, current: Buckets, among: set<Text>): set<Text> {
    set k | k in among && Count(current, k) < Count(baseline, k)
  }

  lemma {:induction false} ListsMore(deltas: seq<Delta>, baseline: Buckets, current: Buckets, keys: set<Text>, k: Text)
    requires Lists(deltas, baseline, current, keys) && k !in keys
    ensures Lists(deltas + [DeltaAt(baseline, current, k)], baseline, current, keys + {k})
  {
  }

  method CompareToBaseline(baseline: Buckets, current: Buckets) returns (c: Comparison)
    ensures Lists(c.regressions, baseline, current, Worse(baseline, current, baseline.Keys + current.Keys))
    ensures Lists(c.improvements, baseline, current, Better(baseline, current, baseline.Keys + current.Keys))
  {
    var regressions: seq<Delta>, improvements: seq<Delta> := [], [];
    var all := baseline.Keys + current.Keys;
    var keys := all;
    while keys != {}
      invariant keys <= all
      invariant Lists(regressions, baseline, current, Worse(baseline, current, all - keys))
      invariant Lists(improvements, baseline, current, Better(baseline, current, all - keys))
      decreases keys
    {
      var key :| key in keys;
      var before, now := Count(baseline, key), Count(current, key);
      ghost var done := all - keys;
      assert all - (keys - {key}) == done + {key};
      if now > before {
        ListsMore(regressions, baseline, current, Worse(baseline, current, done), key);
        assert Worse(baseline, current, done + {key}) == Worse(baseline, current, done) + {key};
        assert Better(baseline, current, done + {key}) == Better(baseline, current, done);
        regressions := regressions + [Delta(key, before, now)];
      } else if now < before {
        ListsMore(improvements, baseline, current, Better(baseline, current, done), key);
        assert Worse(baseline, current, done + {key}) == Worse(baseline, current, done);
        assert Better(baseline, current, done + {key}) == Better(baseline, current, done) + {key};
        improvements := improvements + [Delta(key, before, now)];
      } else {
        assert Worse(baseline, current, done + {key}) == Worse(baseline, current, done);
        assert Better(baseline, current, done + {key}) == Better(baseline, current, done);
      }
      keys := keys - {key};
    }
    assert all - keys == all;
    c := Comparison(regressions, improvements);
  }

  datatype Verdict = Verdict(exitCode: nat, canUpdate: bool)

  function VerdictOf(c: Comparison): Verdict {
    if |c.regressions| > 0 then Verdict(1, false) else Verdict(0, |c.improvements| > 0)
  }

  method Evaluate(baseline: Buckets, current: Buckets) returns (verdict: Verdict)
    ensures verdict.exitCode == 0 || verdict.exitCode == 1
    ensures verdict.exitCode == 0 <==> NothingWorse(baseline, current)
    ensures verdict.canUpdate <==> NothingWorse(baseline, current) && SomethingBetter(baseline, current)
  {
    var c := CompareToBaseline(baseline, current);
    verdict := VerdictOf(c);
    EmptyLists(c, baseline, current);
  }

  lemma {:induction false} EmptyLists(c: Comparison, baseline: Buckets, current: Buckets)
    requires var all := baseline.Keys + current.Keys;
             && Lists(c.regressions, baseline, current, Worse(baseline, current, all))
             && Lists(c.improvements, baseline, current, Better(baseline, current, all))
    ensures c.regressions == [] <==> NothingWorse(baseline, current)
    ensures c.improvements != [] <==> SomethingBetter(baseline, current)
  {
    var all := baseline.Keys + current.Keys;
    if c.regressions != [] {
      var d := c.regressions[0];
      assert d in c.regressions;
      assert Count(current, d.key) > Count(baseline, d.key);
    }
    forall k ensures Count(current, k) > Count(baseline, k) ==> DeltaAt(baseline, current, k) in c.regressions {
      assert Count(current, k) > Count(baseline, k) ==> k in all;
      assert k in all && Count(current, k) > Count(baseline, k) ==> k in Worse(baseline, current, all);
    }
    if c.improvements != [] {
      var d := c.improvements[0];
      assert d in c.improvements;
      assert Count(current, d.key) < Count(baseline, d.key);
    }
    if SomethingBetter(baseline, current) {
      var k :| Count(current, k) < Count(baseline, k);
      assert DeltaAt(baseline, current, k) in c.improvements;
    }
  }

  // ---------- The second form of the comparison ----------

  /** What the baseline policy gate reports of one scope: buckets that grew, and buckets that shrank or went. */
  method CompareScope(base: Buckets, working: Buckets) returns (findings: seq<Text>, improvements: seq<Text>)
    ensures ToSet(findings) == Grown(base, working)
    ensures ToSet(improvements) ==
              set k | k in working.Keys + base.Keys && (if k in working then working[k] < Count(base, k) else true)
    ensures Distinct(findings) && Distinct(improvements)
    ensures findings == [] <==> NoFindings(base, working)
  {
    findings, improvements := [], [];
    var keys := working.Keys;
    while keys != {}
      invariant keys <= working.Keys
      invariant forall k :: k in findings <==> k in working && k !in keys && working[k] > Count(base, k)
      invariant forall k :: k in improvements <==> k in working && k !in keys && working[k] < Count(base, k)
      invariant Distinct(findings) && Distinct(improvements)
      decreases keys
    {
      var bucket :| bucket in keys;
      var count, previous := working[bucket], Count(base, bucket);
      assert bucket !in findings && bucket !in improvements;
      if count > previous {
        findings := findings + [bucket];
      } else if count < previous {
        improvements := improvements + [bucket];
      }
      keys := keys - {bucket};
    }
    keys := base.Keys;
    while keys != {}
      invariant keys <= base.Keys
      invariant forall k :: k in improvements <==>
        (k in working && working[k] < Count(base, k)) || (k in base && k !in working && k !in keys)
      invariant Distinct(improvements)
      decreases keys
    {
      var bucket :| bucket in keys;
      if bucket !in working {
        assert bucket !in improvements;
        improvements := improvements + [bucket];
      }
      keys := keys - {bucket};
    }
    NoneListed(base, working, findings);
  }

  ghost function Grown(base: Buckets, working: Buckets): set<Text> {
    set k | k in working && working[k] > Count(base, k)
  }

  lemma {:induction false} NoneListed(base: Buckets, working: Buckets, findings: seq<Text>)
    requires ToSet(findings) == Grown(base, working)
    ensures findings == [] <==> NoFindings(base, working)
  {
    if findings != [] {
      assert findings[0] in Grown(base, working);
    }
    if !NoFindings(base, working) {
      var k :| k in working && working[k] > Count(base, k);
      assert k in ToSet(findings);
    }
  }

  /** No bucket has grown. */
  ghost predicate NoFindings(base: Buckets, working: Buckets) {
    forall k :: k in working ==> working[k] <= Count(base, k)
  }

  /** No bucket that has gone held a negative count; error counts never are. */
  ghost predicate GoneNotNegative(base: Buckets, working: Buckets) {
    forall k :: k in base && k !in working ==> base[k] >= 0
  }

  lemma {:induction false} NothingWorseIff(baseline: Buckets, current: Buckets)
    ensures NothingWorse(baseline, current) <==> NoFindings(baseline, current) && GoneNotNegative(baseline, current)
  {
    if NothingWorse(baseline, current) {
      forall k | k in current ensures current[k] <= Count(baseline, k) {
        assert Count(current, k) <= Count(baseline, k);
      }
      forall k | k in baseline && k !in current ensures baseline[k] >= 0 {
        assert Count(current, k) <= Count(baseline, k);
      }
    }
  }

  /**
   * The exit code of the one implementation agrees with the findings of the other exactly when some
   * bucket grew or no vanished bucket held a negative count. What is required of the two results is
   * what `CompareToBaseline` and `CompareScope` ensure.
   */
  lemma {:induction false} ImplementationsAgreeIff(
    baseline: Buckets, current: Buckets, c: Comparison, findings: seq<Text>)
    requires var all := baseline.Keys + current.Keys;
             && Lists(c.regressions, baseline, current, Worse(baseline, current, all))
             && Lists(c.improvements, baseline, current, Better(baseline, current, all))
    requires ToSet(findings) == Grown(baseline, current)
    ensures (VerdictOf(c).exitCode == 0 <==> findings == []) <==>
              (exists k :: k in current && current[k] > Count(baseline, k)) || GoneNotNegative(baseline, current)
  {
    EmptyLists(c, baseline, current);
    NoneListed(baseline, current, findings);
    NothingWorseIff(baseline, current);
  }

  /** They part on a baseline with a negative count whose bucket has gone: the ratchet fails, the gate is content. */
  method NegativeCountDivides(key: Text) returns (verdict: Verdict, findings: seq<Text>)
    ensures verdict.exitCode == 1 && findings == []
  {
    var baseline: Buckets, current: Buckets := map[key := -1], map[];
    verdict := Evaluate(baseline, current);
    var improvements;
    findings, improvements := CompareScope(baseline, current);
    assert Count(current, key) > Count(baseline, key);
  }

  // ---------- Totals ----------

  /** The sum of the counts over a set of keys. */
  ghost function Sum(keys: set<Text>, b: Buckets): int {
    if keys == {} then 0
    else
      var k :| k in keys;
      Count(b, k) + Sum(keys - {k}, b)
  }

  ghost function Total(b: Buckets): int {
    Sum(b.Keys, b)
  }

  lemma {:induction false} SumRemove(keys: set<Text>, b: Buckets, k: Text)
    requires k in keys
    ensures Sum(keys, b) == Count(b, k) + Sum(keys - {k}, b)
  {
    var first :| first in keys && Sum(keys, b) == Count(b, first) + Sum(keys - {first}, b);
    if first != k {
      SumRemove(keys - {first}, b, k);
      SumRemove(keys - {k}, b, first);
      assert keys - {first} - {k} == keys - {k} - {first};
    }
  }

  /** Keys without a count do not matter to the sum. */
  lemma {:induction false} SumOverMore(keys: set<Text>, more: set<Text>, b: Buckets)
    requires keys <= more && forall k :: k in more && k !in keys ==> Count(b, k) == 0
    ensures Sum(more, b) == Sum(keys, b)
    decreases more
  {
    if more != keys {
      var k :| k in more && k !in keys;
      SumRemove(more, b, k);
      SumOverMore(keys, more - {k}, b);
    }
  }

  lemma {:induction false} SumMonotone(keys: set<Text>, a: Buckets, b: Buckets)
    requires forall k :: k in keys ==> Count(a, k) <= Count(b, k)
    ensures Sum(keys, a) <= Sum(keys, b)
    ensures (exists k :: k in keys && Count(a, k) < Count(b, k)) ==> Sum(keys, a) < Sum(keys, b)
  {
    if keys != {} {
      var k :| k in keys;
      SumRemove(keys, a, k);
      SumRemove(keys, b, k);
      SumMonotone(keys - {k}, a, b);
      if x :| x in keys && Count(a, x) < Count(b, x) {
        assert x == k || x in keys - {k};
      }
    }
  }

  /** If nothing got worse and something got better, the total went down. */
  lemma {:induction false} TotalFalls(baseline: Buckets, current: Buckets)
    requires NothingWorse(baseline, current) && SomethingBetter(baseline, current)
    ensures Total(current) < Total(baseline)
  {
    var all := baseline.Keys + current.Keys;
    SumOverMore(baseline.Keys, all, baseline);
    SumOverMore(current.Keys, all, current);
    var k :| Count(current, k) < Count(baseline, k);
    assert k in all;
    SumMonotone(all, current, baseline);
  }

  lemma {:induction false} SumNotNegative(keys: set<Text>, b: Buckets)
    requires forall k :: k in keys ==> Count(b, k) >= 0
    ensures Sum(keys, b) >= 0
  {
    if keys != {} {
      var k :| k in keys;
      SumRemove(keys, b, k);
      SumNotNegative(keys - {k}, b);
    }
  }

  // ---------- Updating the baseline ----------

  /** `canWriteBaseline` */
  predicate CanWriteBaseline(verdict: Verdict, hasBaseline: bool) {
    !hasBaseline || verdict.canUpdate
  }

  /** One invocation: the target, what its type check came to, and whether `--update` was given. */
  datatype Invocation = Invocation(name: Text, current: Buckets, update: bool, spawnFailed: bool, status: int)
  {
    predicate Known() {
      name == Lit("web") || name == Lit("api") || name == Lit("domain")
    }

    /** The type check did not run, or failed without errors to show for it. */
    predicate ToolingFailed() {
      spawnFailed || (status != 0 && current == map[])
    }
  }

  type Baselines = map<Text, Buckets>

  ghost predicate Writes(all: Baselines, run: Invocation) {
    && run.Known() && !run.ToolingFailed() && run.update
    && (run.name !in all ||
        (NothingWorse(all[run.name], run.current) && SomethingBetter(all[run.name], run.current)))
  }

  ghost function AfterRun(all: Baselines, run: Invocation): Baselines {
    if Writes(all, run) then all[run.name := run.current] else all
  }

  class BaselineFile {
    var all: Baselines

    constructor (all: Baselines)
      ensures this.all == all
    {
      this.all := all;
    }

    method Run(run: Invocation) returns (exitCode: nat)
      modifies this
      ensures all == AfterRun(old(all), run)
      ensures var known := run.name in {Lit("web"), Lit("api"), Lit("domain")};
              var toolingFailed := run.spawnFailed || (run.status != 0 && forall k :: k !in run.current);
              var bootstrapping := run.name !in old(all);
              var baseline := if bootstrapping then map[] else old(all)[run.name];
              var accepted := bootstrapping || (NothingWorse(baseline, run.current) && SomethingBetter(baseline, run.current));
              && exitCode == (if !known then 2
                              else if toolingFailed then 1
                              else if (if run.update then accepted else NothingWorse(baseline, run.current)) then 0
                              else 1)
              && all == (if known && !toolingFailed && run.update && accepted then old(all)[run.name := run.current]
                         else old(all))
    {
      if !run.Known() {
        return 2;
      }
      if run.ToolingFailed() {
        return 1;
      }
      var hasBaseline := run.name in all;
      var verdict := Evaluate(if hasBaseline then all[run.name] else map[], run.current);
      if run.update {
        if !CanWriteBaseline(verdict, hasBaseline) {
          return 1;
        }
        all := all[run.name := run.current];
        return 0;
      }
      return verdict.exitCode;
    }
  }

  // ---------- Runs ----------

  ghost function AfterRuns(all: Baselines, runs: seq<Invocation>): Baselines {
    if runs == [] then all else AfterRun(AfterRuns(all, runs[..|runs| - 1]), runs[|runs| - 1])
  }

  /** How many of the runs rewrote the baseline of a target. */
  ghost function Accepted(all: Baselines, runs: seq<Invocation>, name: Text): nat {
    if runs == [] then 0
    else
      var init, last := runs[..|runs| - 1], runs[|runs| - 1];
      Accepted(all, init, name) + if last.name == name && Writes(AfterRuns(all, init), last) then 1 else 0
  }

  ghost predicate CountsNotNegative(b: Buckets) {
    forall k :: k in b ==> b[k] >= 0
  }

  /**
   * Once a target has a baseline, no run ever raises a bucket of it, and every accepted update
   * lowers its total; so the total bounds how many updates can still be accepted.
   */
  lemma {:induction false} OnlyDown(all: Baselines, runs: seq<Invocation>, name: Text)
    requires name in all
    ensures name in AfterRuns(all, runs)
    ensures NothingWorse(all[name], AfterRuns(all, runs)[name])
    ensures Total(AfterRuns(all, runs)[name]) + Accepted(all, runs, name) <= Total(all[name])
  {
    if runs == [] {
    } else {
      var init, last := runs[..|runs| - 1], runs[|runs| - 1];
      OnlyDown(all, init, name);
      var before := AfterRuns(all, init);
      if last.name == name && Writes(before, last) {
        TotalFalls(before[name], last.current);
        forall k ensures Count(last.current, k) <= Count(all[name], k) {
          assert Count(last.current, k) <= Count(before[name], k) <= Count(all[name], k);
        }
      }
    }
  }

  /** At most as many updates are accepted after the bootstrap as it recorded errors. */
  lemma {:induction false} AcceptedAtMostTotal(all: Baselines, runs: seq<Invocation>, name: Text)
    requires name in all && CountsNotNegative(all[name])
    requires forall i :: 0 <= i < |runs| ==> CountsNotNegative(runs[i].current)
    ensures Accepted(all, runs, name) <= Total(all[name])
  {
    OnlyDown(all, runs, name);
    BaselineNotNegative(all, runs, name);
    var b := AfterRuns(all, runs)[name];
    SumNotNegative(b.Keys, b);
  }

  lemma {:induction false} BaselineNotNegative(all: Baselines, runs: seq<Invocation>, name: Text)
    requires name in all && CountsNotNegative(all[name])
    requires forall i :: 0 <= i < |runs| ==> CountsNotNegative(runs[i].current)
    ensures name in AfterRuns(all, runs) && CountsNotNegative(AfterRuns(all, runs)[name])
  {
    if runs != [] {
      BaselineNotNegative(all, runs[..|runs| - 1], name);
    }
  }
}
