/** Budget checking of real-time services: the overrun latch across ticks. */
module RtBudget {
  import opened Wrappers

  /** Durations in nanoseconds. */
  datatype Stats = Stats(calls: nat, overruns: nat, lastElapsed: nat, maxElapsed: nat, disabled: bool)

  const FRESH := Stats(0, 0, 0, 0, false)

  const DEFAULT_THRESHOLD: nat := 3

  datatype Entry = Entry(budget: nat, stats: Stats)

  /** `update_stats` as a function of the old statistics. */
  function Counted(s: Stats, elapsed: nat, budget: nat, threshold: nat): Stats {
    var over := elapsed > budget;
    var overruns := s.overruns + if over then 1 else 0;
    Stats(s.calls + 1, overruns, elapsed, Max(s.maxElapsed, elapsed),
          s.disabled || (over && overruns >= threshold))
  }

  /** What one tick does to one service: nothing once it is disabled. */
  function Ticked(e: Entry, elapsed: nat, threshold: nat): Entry {
    if e.stats.disabled then e else e.(stats := Counted(e.stats, elapsed, e.budget, threshold))
  }

  function AllTicked(es: seq<Entry>, elapsed: seq<nat>, threshold: nat): seq<Entry>
    requires |elapsed| == |es|
  {
    seq(|es|, i requires 0 <= i < |es| => Ticked(es[i], elapsed[i], threshold))
  }

  // ---------------------------------------------------------------- everything a manager was asked

  datatype Request = Register(budget: nat) | Configure(threshold: nat) | Tick(elapsed: seq<nat>)

  /** Each tick says how long each service registered by then would take. */
  predicate Fitting(log: seq<Request>) {
    forall k :: 0 <= k < |log| && log[k].Tick? ==> |log[k].elapsed| == |Budgets(log[..k])|
  }

  /** The budgets registered, in order. */
  function Budgets(log: seq<Request>): seq<nat> {
    if log == [] then []
    else Budgets(log[..|log| - 1]) + (if log[|log| - 1].Register? then [log[|log| - 1].budget] else [])
  }

  function ThresholdAfter(log: seq<Request>): nat {
    if log == [] then DEFAULT_THRESHOLD
    else if log[|log| - 1].Configure? then log[|log| - 1].threshold
    else ThresholdAfter(log[..|log| - 1])
  }

  /** The times of service i with the threshold in force at each, from its registration on. */
  function OwnTimes(log: seq<Request>, i: nat): seq<(nat, nat)> {
    if log == [] then []
    else
      var before, last := log[..|log| - 1], log[|log| - 1];
      OwnTimes(before, i) + if last.Tick? && i < |last.elapsed| then [(last.elapsed[i], ThresholdAfter(before))] else []
  }

  /** What the log makes of every service by itself: its own times folded from its registration on. */
  function Expected(log: seq<Request>): seq<Entry> {
    var budgets := Budgets(log);
    seq(|budgets|, i requires 0 <= i < |budgets| => FoldedWith(Entry(budgets[i], FRESH), OwnTimes(log, i)))
  }

  lemma {:induction false} FoldedWithLast(e: Entry, times: seq<(nat, nat)>, last: (nat, nat))
    ensures FoldedWith(e, times + [last]) == Ticked(FoldedWith(e, times), last.0, last.1)
    decreases |times|
  {
    if times == [] {
      assert (times + [last])[1..] == [];
      assert FoldedWith(Ticked(e, last.0, last.1), []) == Ticked(e, last.0, last.1);
    } else {
      assert (times + [last])[1..] == times[1..] + [last];
      FoldedWithLast(Ticked(e, times[0].0, times[0].1), times[1..], last);
    }
  }

  lemma FittingPrefix(log: seq<Request>)
    requires log != [] && Fitting(log)
    ensures Fitting(log[..|log| - 1])
    ensures log[|log| - 1].Tick? ==> |log[|log| - 1].elapsed| == |Budgets(log[..|log| - 1])|
  {
    var before := log[..|log| - 1];
    assert forall k :: 0 <= k < |before| ==> before[..k] == log[..k];
  }

  lemma FittingSnoc(log: seq<Request>, r: Request)
    requires Fitting(log) && (r.Tick? ==> |r.elapsed| == |Budgets(log)|)
    ensures Fitting(log + [r]) && (log + [r])[..|log|] == log
  {
    assert (log + [r])[..|log|] == log;
    assert forall k :: 0 <= k < |log| ==> (log + [r])[..k] == log[..k];
  }

  /** A service has no times from before its registration. */
  lemma {:induction false} NoTimesBefore(log: seq<Request>, i: nat)
    requires Fitting(log) && i >= |Budgets(log)|
    ensures OwnTimes(log, i) == []
    decreases |log|
  {
    if log != [] {
      FittingPrefix(log);
      NoTimesBefore(log[..|log| - 1], i);
    }
  }

  /** Only ticks add times. */
  lemma OwnTimesStay(log: seq<Request>, r: Request, i: nat)
    requires !r.Tick?
    ensures OwnTimes(log + [r], i) == OwnTimes(log, i)
  {
    assert (log + [r])[..|log|] == log;
  }

  lemma RegisterMeets(log: seq<Request>, budget: nat)
    requires Fitting(log)
    ensures Expected(log + [Register(budget)]) == Expected(log) + [Entry(budget, FRESH)]
    ensures ThresholdAfter(log + [Register(budget)]) == ThresholdAfter(log)
  {
    var log', n := log + [Register(budget)], |Budgets(log)|;
    assert log'[..|log|] == log;
    assert Budgets(log') == Budgets(log) + [budget];
    forall i | 0 <= i <= n
      ensures Expected(log')[i] == (Expected(log) + [Entry(budget, FRESH)])[i]
    {
      OwnTimesStay(log, Register(budget), i);
      if i == n {
        NoTimesBefore(log, n);
      }
    }
  }

  lemma TickMeets(log: seq<Request>, elapsed: seq<nat>)
    requires |elapsed| == |Budgets(log)|
    ensures Expected(log + [Tick(elapsed)]) == AllTicked(Expected(log), elapsed, ThresholdAfter(log))
    ensures ThresholdAfter(log + [Tick(elapsed)]) == ThresholdAfter(log)
  {
    var log' := log + [Tick(elapsed)];
    assert log'[..|log|] == log;
    forall i | 0 <= i < |elapsed|
      ensures Expected(log')[i] == Ticked(Expected(log)[i], elapsed[i], ThresholdAfter(log))
    {
      FoldedWithLast(Entry(Budgets(log)[i], FRESH), OwnTimes(log, i), (elapsed[i], ThresholdAfter(log)));
    }
  }

  lemma ConfigureMeets(log: seq<Request>, threshold: nat)
    ensures Expected(log + [Configure(threshold)]) == Expected(log)
    ensures ThresholdAfter(log + [Configure(threshold)]) == threshold
  {
    var log' := log + [Configure(threshold)];
    assert log'[..|log|] == log;
    forall i | 0 <= i < |Budgets(log)|
      ensures Expected(log')[i] == Expected(log)[i]
    {
      OwnTimesStay(log, Configure(threshold), i);
    }
  }

  /** The threshold is the last one set, and every service's statistics are those of its own times. */
  ghost predicate Meets(threshold: nat, entries: seq<Entry>, log: seq<Request>) {
    Fitting(log) && threshold == ThresholdAfter(log) && entries == Expected(log)
  }

  /** What a request makes of a manager's fields. */
  function Requested(threshold: nat, entries: seq<Entry>, r: Request): (nat, seq<Entry>)
    requires r.Tick? ==> |r.elapsed| == |entries|
  {
    match r
    case Register(budget) => (threshold, entries + [Entry(budget, FRESH)])
    case Configure(t) => (t, entries)
    case Tick(elapsed) => (threshold, AllTicked(entries, elapsed, threshold))
  }

  /** Every request keeps them so. */
  lemma RequestMeets(threshold: nat, entries: seq<Entry>, log: seq<Request>, r: Request)
    requires Meets(threshold, entries, log) && (r.Tick? ==> |r.elapsed| == |entries|)
    ensures var (t, es) := Requested(threshold, entries, r); Meets(t, es, log + [r])
  {
    FittingSnoc(log, r);
    match r
    case Register(budget) => RegisterMeets(log, budget);
    case Configure(t) => ConfigureMeets(log, t);
    case Tick(elapsed) => TickMeets(log, elapsed);
  }

  class ServiceManager {
    var threshold: nat
    var entries: seq<Entry>
    ghost var log: seq<Request>

    /** Whatever was registered, configured and ticked in whatever order: the threshold is the last one set, and
        every service's statistics are those of its own times since its registration. */
    ghost predicate Valid()
      reads this
    {
      Meets(threshold, entries, log)
    }

    constructor ()
      ensures Valid() && log == [] && threshold == 3
    {
      threshold, entries, log := DEFAULT_THRESHOLD, [], [];
    }

    method SetRtCheckConfig(disableAfterOverruns: nat)
      requires Valid()
      modifies this`threshold, this`log
      ensures Valid() && log == old(log) + [Configure(disableAfterOverruns)]
    {
      RequestMeets(threshold, entries, log, Configure(disableAfterOverruns));
      threshold := disableAfterOverruns;
      log := log + [Configure(disableAfterOverruns)];
    }

    method RegisterRt(budget: nat)
      requires Valid()
      modifies this`entries, this`log
      ensures Valid() && log == old(log) + [Register(budget)]
    {
      RequestMeets(threshold, entries, log, Register(budget));
      entries := entries + [Entry(budget, FRESH)];
      log := log + [Register(budget)];
    }

    /** `update_stats` on entry i, field by field. */
    method UpdateStats(i: nat, elapsed: nat) returns (disabled: bool)
      requires i < |entries|
      modifies this`entries
      ensures var e := old(entries)[i];
              entries == old(entries)[i := e.(stats := Counted(e.stats, elapsed, e.budget, threshold))]
      ensures disabled == entries[i].stats.disabled
    {
      var st := entries[i].stats;
      st := st.(calls := st.calls + 1, lastElapsed := elapsed);
      if elapsed > st.maxElapsed {
        st := st.(maxElapsed := elapsed);
      }
      if elapsed > entries[i].budget {
        st := st.(overruns := st.overruns + 1);
        if st.overruns >= threshold {
          st := st.(disabled := true);
        }
      }
      entries := entries[i := entries[i].(stats := st)];
      disabled := st.disabled;
    }

    /** One tick; `elapsed[i]` is what the i-th service takes if it is called. */
    method TickRt(elapsed: seq<nat>)
      requires Valid() && |elapsed| == |entries|
      modifies this`entries, this`log
      ensures Valid() && log == old(log) + [Tick(elapsed)]
      ensures entries == AllTicked(old(entries), elapsed, threshold)
    {
      for i := 0 to |entries|
        invariant |entries| == |old(entries)| && log == old(log)
        invariant forall j :: 0 <= j < i ==> entries[j] == Ticked(old(entries)[j], elapsed[j], threshold)
        invariant forall j :: i <= j < |entries| ==> entries[j] == old(entries)[j]
      {
        if entries[i].stats.disabled {
          continue;
        }
        var _ := UpdateStats(i, elapsed[i]);
      }
      RequestMeets(threshold, old(entries), log, Tick(elapsed));
      assert entries == AllTicked(old(entries), elapsed, threshold);
      log := log + [Tick(elapsed)];
    }
  }

  // ---------------------------------------------------------------- runs with a fixed threshold

  ghost predicate Shaped(ticks: seq<seq<nat>>, n: nat) {
    forall k :: 0 <= k < |ticks| ==> |ticks[k]| == n
  }

  function AfterTicks(es: seq<Entry>, ticks: seq<seq<nat>>, threshold: nat): (r: seq<Entry>)
    requires Shaped(ticks, |es|)
    ensures |r| == |es|
  {
    if ticks == [] then es
    else AllTicked(AfterTicks(es, ticks[..|ticks| - 1], threshold), ticks[|ticks| - 1], threshold)
  }

  function Column(ticks: seq<seq<nat>>, n: nat, i: nat): seq<nat>
    requires Shaped(ticks, n) && i < n
  {
    seq(|ticks|, k requires 0 <= k < |ticks| => ticks[k][i])
  }

  /** The fold of one service over its own elapsed times. */
  function Folded(e: Entry, times: seq<nat>, threshold: nat): Entry {
    if times == [] then e else Ticked(Folded(e, times[..|times| - 1], threshold), times[|times| - 1], threshold)
  }

  /** A service's statistics depend on its own times only. */
  lemma {:induction false} ServicesAreIndependent(es: seq<Entry>, ticks: seq<seq<nat>>, threshold: nat, i: nat)
    requires Shaped(ticks, |es|) && i < |es|
    ensures AfterTicks(es, ticks, threshold)[i] == Folded(es[i], Column(ticks, |es|, i), threshold)
    decreases |ticks|
  {
    if ticks != [] {
      var n := |ticks| - 1;
      ServicesAreIndependent(es, ticks[..n], threshold, i);
      assert Column(ticks, |es|, i)[..n] == Column(ticks[..n], |es|, i);
    }
  }

  function Overruns(times: seq<nat>, budget: nat): nat {
    if times == [] then 0
    else Overruns(times[..|times| - 1], budget) + (if times[|times| - 1] > budget then 1 else 0)
  }

  function Longest(times: seq<nat>): nat {
    if times == [] then 0 else Max(Longest(times[..|times| - 1]), times[|times| - 1])
  }

  /** The statistics of a fresh service that has run exactly these times. */
  function StatsOf(run: seq<nat>, budget: nat, threshold: nat): Stats {
    Stats(|run|, Overruns(run, budget), if run == [] then 0 else run[|run| - 1],
          Longest(run), Overruns(run, budget) == threshold)
  }

  lemma CountOneMore(run: seq<nat>, elapsed: nat, budget: nat)
    ensures Overruns(run + [elapsed], budget) == Overruns(run, budget) + (if elapsed > budget then 1 else 0)
    ensures Longest(run + [elapsed]) == Max(Longest(run), elapsed)
  {
    assert (run + [elapsed])[..|run|] == run;
  }

  /** The call that brings the count to D is itself an overrun. */
  lemma OneMoreRun(run: seq<nat>, elapsed: nat, budget: nat, threshold: nat)
    requires Overruns(run, budget) < threshold
    ensures Ticked(Entry(budget, StatsOf(run, budget, threshold)), elapsed, threshold)
         == Entry(budget, StatsOf(run + [elapsed], budget, threshold))
    ensures Overruns(run + [elapsed], budget) <= threshold
    ensures Overruns(run + [elapsed], budget) == threshold ==> elapsed > budget
  {
    CountOneMore(run, elapsed, budget);
  }

  /** Of these times exactly the first n were run: the statistics are theirs, no earlier prefix has D
      overruns, the D-th is the last of them, and none is left unused before it. */
  ghost predicate RanFirst(budget: nat, times: seq<nat>, threshold: nat, n: nat) {
    && n <= |times|
    && Folded(Entry(budget, FRESH), times, threshold) == Entry(budget, StatsOf(times[..n], budget, threshold))
    && Overruns(times[..n], budget) <= threshold
    && (forall m :: 0 <= m < n ==> Overruns(times[..m], budget) < threshold)
    && (Overruns(times[..n], budget) == threshold ==> n > 0 && times[n - 1] > budget)
    && (n < |times| ==> Overruns(times[..n], budget) == threshold)
  }

  lemma RunsOn(budget: nat, before: seq<nat>, elapsed: nat, threshold: nat, n: nat)
    requires RanFirst(budget, before, threshold, n) && Overruns(before[..n], budget) < threshold
    ensures RanFirst(budget, before + [elapsed], threshold, |before| + 1)
  {
    var times := before + [elapsed];
    assert before[..n] == before && times[..|before|] == before && times[..|before| + 1] == times;
    OneMoreRun(before, elapsed, budget, threshold);
    assert forall m :: 0 <= m <= |before| ==> times[..m] == before[..m];
  }

  lemma StaysOff(budget: nat, before: seq<nat>, elapsed: nat, threshold: nat, n: nat)
    requires RanFirst(budget, before, threshold, n) && Overruns(before[..n], budget) == threshold
    ensures RanFirst(budget, before + [elapsed], threshold, n)
  {
    var times := before + [elapsed];
    assert times[..|before|] == before;
    assert forall m :: 0 <= m <= n ==> times[..m] == before[..m];
  }

  /** A service runs up to and including its D-th overrun and never after. */
  lemma {:induction false} RunsUpToTheDthOverrun(budget: nat, times: seq<nat>, threshold: nat) returns (n: nat)
    requires 1 <= threshold
    ensures RanFirst(budget, times, threshold, n)
    decreases |times|
  {
    if times == [] {
      n := 0;
    } else {
      var k := |times| - 1;
      n := RunsUpToTheDthOverrun(budget, times[..k], threshold);
      assert times[..k] + [times[k]] == times;
      if Overruns(times[..k][..n], budget) < threshold {
        RunsOn(budget, times[..k], times[k], threshold, n);
        n := k + 1;
      } else {
        StaysOff(budget, times[..k], times[k], threshold, n);
      }
    }
  }

  /** Under one threshold the two folds agree, so all of this holds of a manager's services. */
  lemma {:induction false} FixedThresholdFold(e: Entry, times: seq<(nat, nat)>, threshold: nat)
    requires forall k :: 0 <= k < |times| ==> times[k].1 == threshold
    ensures FoldedWith(e, times) == Folded(e, Elapsed(times), threshold)
    decreases |times|
  {
    if times != [] {
      var n := |times| - 1;
      FixedThresholdFold(e, times[..n], threshold);
      FoldedWithLast(e, times[..n], times[n]);
      assert times[..n] + [times[n]] == times;
      assert Elapsed(times)[..n] == Elapsed(times[..n]);
    }
  }

  // ---------------------------------------------------------------- runs with any thresholds

  function Elapsed(times: seq<(nat, nat)>): seq<nat> {
    seq(|times|, k requires 0 <= k < |times| => times[k].0)
  }

  /** The last of these calls is an overrun, and the count it reaches meets the threshold then in force. */
  predicate Trips(times: seq<(nat, nat)>, budget: nat) {
    && times != [] && times[|times| - 1].0 > budget
    && Overruns(Elapsed(times), budget) >= times[|times| - 1].1
  }

  /** The statistics of a fresh service that has run exactly these times. */
  function StatsAfter(times: seq<(nat, nat)>, budget: nat): Stats {
    var run := Elapsed(times);
    Stats(|run|, Overruns(run, budget), if run == [] then 0 else run[|run| - 1], Longest(run), Trips(times, budget))
  }

  lemma RunOnce(times: seq<(nat, nat)>, last: (nat, nat), budget: nat)
    requires !Trips(times, budget)
    ensures Ticked(Entry(budget, StatsAfter(times, budget)), last.0, last.1)
         == Entry(budget, StatsAfter(times + [last], budget))
  {
    var run := Elapsed(times);
    assert Elapsed(times + [last]) == run + [last.0];
    CountOneMore(run, last.0, budget);
    assert Trips(times + [last], budget)
      <==> last.0 > budget && Overruns(run + [last.0], budget) >= last.1;
  }

  /** However the thresholds change, 0 included: a service runs up to and including the first overrun whose
      count reaches the threshold then in force, and never after; its statistics are those of that run. */
  lemma {:induction false} RunsUpToTheTrip(budget: nat, times: seq<(nat, nat)>) returns (n: nat)
    ensures n <= |times|
    ensures FoldedWith(Entry(budget, FRESH), times) == Entry(budget, StatsAfter(times[..n], budget))
    ensures forall m :: 0 <= m < n ==> !Trips(times[..m], budget)
    ensures n < |times| ==> Trips(times[..n], budget)
    decreases |times|
  {
    if times == [] {
      n := 0;
    } else {
      var k := |times| - 1;
      var before := times[..k];
      n := RunsUpToTheTrip(budget, before);
      assert before + [times[k]] == times;
      FoldedWithLast(Entry(budget, FRESH), before, times[k]);
      assert forall m :: 0 <= m <= k ==> before[..m] == times[..m];
      if !Trips(before[..n], budget) {
        assert before[..n] == before && times[..k + 1] == before + [times[k]];
        RunOnce(before, times[k], budget);
        n := k + 1;
      }
    }
  }

  // ---------------------------------------------------------------- the latch

  /** Thresholds may change from tick to tick. */
  function FoldedWith(e: Entry, times: seq<(nat, nat)>): Entry
    decreases |times|
  {
    if times == [] then e else FoldedWith(Ticked(e, times[0].0, times[0].1), times[1..])
  }

  /** Once disabled, a service is never called again and its statistics are frozen,
      however the configuration changes. */
  lemma {:induction false} DisabledForEver(e: Entry, times: seq<(nat, nat)>)
    requires e.stats.disabled
    ensures FoldedWith(e, times) == e
    decreases |times|
  {
    if times != [] {
      DisabledForEver(e, times[1..]);
    }
  }

  /** While thresholds stay at or below a bound, so does the overrun counter: a 32-bit counter cannot wrap. */
  lemma {:induction false} OverrunsNeverPassTheThreshold(e: Entry, times: seq<(nat, nat)>, bound: nat)
    requires 1 <= bound && e.stats.overruns <= bound && (e.stats.disabled || e.stats.overruns < bound)
    requires forall k :: 0 <= k < |times| ==> times[k].1 <= bound
    ensures FoldedWith(e, times).stats.overruns <= bound
    decreases |times|
  {
    if times != [] {
      OverrunsNeverPassTheThreshold(Ticked(e, times[0].0, times[0].1), times[1..], bound);
    }
  }
}
