/** Timespec arithmetic, the monitor loop and the jitter statistics of the RT checker. */
module RtMonitor {
  import opened Wrappers

  const SECOND: int := 1_000_000_000

  // ---------------------------------------------------------------- integer division as in Rust

  /** Division and remainder that truncate toward zero. */
  function TruncDiv(a: int, n: int): int
    requires n > 0
  {
    if a >= 0 then a / n else -((-a) / n)
  }

  function TruncMod(a: int, n: int): int
    requires n > 0
  {
    if a >= 0 then a % n else -((-a) % n)
  }

  lemma TruncParts(a: int)
    ensures var q, r := TruncDiv(a, SECOND), TruncMod(a, SECOND);
            && a == q * SECOND + r && -SECOND < r < SECOND
            && (a >= 0 ==> 0 <= r && 0 <= q <= a)
            && (a <= 0 ==> r <= 0 && a <= q <= 0)
  {
  }

  // ---------------------------------------------------------------- timespec

  class Timespec {
    var sec: int
    var nsec: int

    constructor (sec: int, nsec: int)
      ensures this.sec == sec && this.nsec == nsec
    {
      this.sec, this.nsec := sec, nsec;
    }

    ghost predicate Normal()
      reads this
    {
      0 <= nsec < SECOND
    }

    /** The instant in nanoseconds. */
    function Total(): int
      reads this
    {
      sec * SECOND + nsec
    }

    /** Adds any number of nanoseconds, positive or negative, and normalizes. */
    method AddNs(add: int)
      modifies this
      ensures Total() == old(Total()) + add && Normal()
      ensures sec * 1_000_000_000 + nsec == old(sec) * 1_000_000_000 + old(nsec) + add && 0 <= nsec < 1_000_000_000
    {
      var n := nsec + add;
      TruncParts(n);
      sec := sec + TruncDiv(n, SECOND);
      n := TruncMod(n, SECOND);
      if n < 0 {
        n := n + SECOND;
        sec := sec - 1;
      }
      nsec := n;
    }
  }

  function DiffNs(aSec: int, aNsec: int, bSec: int, bNsec: int): int {
    (aSec - bSec) * SECOND + (aNsec - bNsec)
  }

  /** `diff_ns` undoes `add_ns`, for both signs, and a normalized time is determined by its instant. */
  method AddThenDiff(t: Timespec, add: int) returns (d: int)
    modifies t
    ensures d == add == DiffNs(t.sec, t.nsec, old(t.sec), old(t.nsec))
  {
    var sec, nsec := t.sec, t.nsec;
    t.AddNs(add);
    d := DiffNs(t.sec, t.nsec, sec, nsec);
  }

  lemma NormalFormIsUnique(sec: int, nsec: int, sec': int, nsec': int)
    requires 0 <= nsec < SECOND && 0 <= nsec' < SECOND
    requires sec * SECOND + nsec == sec' * SECOND + nsec'
    ensures sec == sec' && nsec == nsec'
  {
  }

  predicate InI64(x: int) { -0x8000_0000_0000_0000 <= x < 0x8000_0000_0000_0000 }

  const QUARTER: int := 0x4000_0000_0000_0000

  /** Every intermediate of `add_ns` fits 64 bits for normalized times and increments within half the range. */
  lemma AddFits(sec: int, nsec: int, add: int)
    requires 0 <= nsec < SECOND && -QUARTER < sec < QUARTER && -QUARTER < add < QUARTER
    ensures InI64(nsec + add) && InI64(sec + TruncDiv(nsec + add, SECOND))
    ensures InI64(sec + TruncDiv(nsec + add, SECOND) - 1) && InI64(TruncMod(nsec + add, SECOND) + SECOND)
  {
  }

  /** And `diff_ns` fits whenever the two instants are less than half the range apart. */
  lemma DiffFits(aSec: int, aNsec: int, bSec: int, bNsec: int)
    requires 0 <= aNsec < SECOND && 0 <= bNsec < SECOND
    requires -QUARTER < DiffNs(aSec, aNsec, bSec, bNsec) < QUARTER
    ensures InI64(aSec - bSec) && InI64((aSec - bSec) * SECOND) && InI64(aNsec - bNsec)
  {
  }

  // ---------------------------------------------------------------- the monitor loop

  /** What the clock showed when the monitor woke up. */
  datatype Reading = Reading(sec: int, nsec: int)

  /** How late the k-th wake-up was for the k-th deadline, start + (k + 1) periods. */
  function Lateness(start: int, period: int, nows: seq<Reading>, k: nat): int
    requires k < |nows|
  {
    nows[k].sec * SECOND + nows[k].nsec - (start + (k + 1) * period)
  }

  function Misses(start: int, period: int, nows: seq<Reading>, n: nat): nat
    requires n <= |nows|
  {
    if n == 0 then 0
    else Misses(start, period, nows, n - 1) + (if Lateness(start, period, nows, n - 1) > period then 1 else 0)
  }

  /** The worst lateness of the first n wake-ups; early wake-ups count as 0. */
  function WorstLate(start: int, period: int, nows: seq<Reading>, n: nat): nat
    requires n <= |nows|
  {
    if n == 0 then 0
    else
      var late := Lateness(start, period, nows, n - 1);
      Max(WorstLate(start, period, nows, n - 1), if late > 0 then late else 0)
  }

  /** The wake-ups later than one period. */
  ghost function MissedTurns(start: int, period: int, nows: seq<Reading>, n: nat): set<nat>
    requires n <= |nows|
  {
    set k: nat | k < n && nows[k].sec * 1_000_000_000 + nows[k].nsec > start + (k + 2) * period
  }

  /** The miss counter counts the wake-ups that came later than a whole period after their deadline. */
  lemma {:induction false} MissesAreCounted(start: int, period: int, nows: seq<Reading>, n: nat)
    requires n <= |nows|
    ensures Misses(start, period, nows, n) == |MissedTurns(start, period, nows, n)|
    decreases n
  {
    if n != 0 {
      MissesAreCounted(start, period, nows, n - 1);
      OneMoreTurn(start, period, nows, n - 1);
    }
  }

  lemma OneMoreTurn(start: int, period: int, nows: seq<Reading>, k: nat)
    requires k < |nows|
    ensures |MissedTurns(start, period, nows, k + 1)|
         == |MissedTurns(start, period, nows, k)| + if Lateness(start, period, nows, k) > period then 1 else 0
  {
    assert (k + 2) * period == (k + 1) * period + period;
    OneMore(MissedTurns(start, period, nows, k), MissedTurns(start, period, nows, k + 1), k,
            Lateness(start, period, nows, k) > period);
  }

  /** The worst lateness is the largest one, or 0 if no wake-up was late. */
  lemma {:induction false} WorstLateIsLargest(start: int, period: int, nows: seq<Reading>, n: nat)
    requires n <= |nows|
    ensures var w := WorstLate(start, period, nows, n);
            && (forall k :: 0 <= k < n ==> Lateness(start, period, nows, k) <= w)
            && (w == 0 || exists k :: 0 <= k < n && Lateness(start, period, nows, k) == w)
    decreases n
  {
    if n != 0 {
      WorstLateIsLargest(start, period, nows, n - 1);
    }
  }

  predicate AddInI64(sec: int, nsec: int, add: int) {
    && InI64(nsec + add) && InI64(sec + TruncDiv(nsec + add, SECOND))
    && InI64(sec + TruncDiv(nsec + add, SECOND) - 1) && InI64(TruncMod(nsec + add, SECOND) + SECOND)
  }

  predicate DiffInI64(aSec: int, aNsec: int, bSec: int, bNsec: int) {
    && InI64(aSec - bSec) && InI64((aSec - bSec) * SECOND)
    && InI64(aNsec - bNsec) && InI64(DiffNs(aSec, aNsec, bSec, bNsec))
  }

  /** A start time and a way of |nows| + 1 periods within bounds, and readings within bounds of their deadlines. */
  ghost predicate InBounds(sec: int, nsec: int, period: nat, nows: seq<Reading>) {
    && 0 <= nsec < SECOND && -QUARTER / 2 < sec < QUARTER / 2 && (|nows| + 1) * period < QUARTER
    && forall k :: 0 <= k < |nows| ==>
         0 <= nows[k].nsec < SECOND && -QUARTER < Lateness(sec * SECOND + nsec, period, nows, k) < QUARTER
  }

  /** Under these bounds no turn of the whole loop, whose deadline is at the normalized time (sec', nsec'), leaves 64
      bits: neither the difference to the clock, nor its count as late, nor the step to the next deadline;
      and neither does the step to the first one. */
  lemma WatchFits(sec: int, nsec: int, period: nat, nows: seq<Reading>, i: nat, sec': int, nsec': int)
    requires InBounds(sec, nsec, period, nows) && i < |nows|
    requires 0 <= nsec' < SECOND && sec' * SECOND + nsec' == sec * SECOND + nsec + (i + 1) * period
    ensures AddInI64(sec, nsec, period)
    ensures DiffInI64(nows[i].sec, nows[i].nsec, sec', nsec')
    ensures DiffNs(nows[i].sec, nows[i].nsec, sec', nsec') == Lateness(sec * SECOND + nsec, period, nows, i)
    ensures AddInI64(sec', nsec', period)
  {
    MulMonotone(period, i + 1, |nows| + 1);
    MulMonotone(period, 1, |nows| + 1);
    assert (i + 1) * period == period * (i + 1) && (|nows| + 1) * period == period * (|nows| + 1);
    DeadlineInBounds(sec, nsec, (i + 1) * period, sec', nsec');
    AddFits(sec, nsec, period);
    AddFits(sec', nsec', period);
    DiffFits(nows[i].sec, nows[i].nsec, sec', nsec');
  }

  lemma DeadlineInBounds(sec: int, nsec: int, way: nat, sec': int, nsec': int)
    requires 0 <= nsec < SECOND && 0 <= nsec' < SECOND && -QUARTER / 2 < sec < QUARTER / 2 && way < QUARTER
    requires sec' * SECOND + nsec' == sec * SECOND + nsec + way
    ensures -QUARTER < sec' < QUARTER
  {
  }

  class Monitor {
    var samples: nat
    var misses: nat
    var maxLate: nat

    constructor ()
      ensures samples == 0 && misses == 0 && maxLate == 0
    {
      samples, misses, maxLate := 0, 0, 0;
    }

    /** The compare-and-exchange loop; `spurious` is how often the weak exchange fails for no reason. */
    method RaiseMax(late: nat, spurious: nat)
      modifies this`maxLate
      ensures maxLate == Max(old(maxLate), late)
    {
      var current := maxLate;
      var failures := spurious;
      while late > current
        invariant current == maxLate == old(maxLate)
        decreases failures
      {
        if failures == 0 {
          maxLate := late;
          break;
        }
        failures := failures - 1;
        current := maxLate;
      }
    }

    /** One turn per clock reading: the deadlines do not drift, and the counters are those
        of the whole lateness trace. */
    method Watch(start: Timespec, period: int, nows: seq<Reading>, spurious: seq<nat>) returns (next: Timespec)
      requires |spurious| == |nows| && samples == 0 && misses == 0 && maxLate == 0
      modifies this
      ensures samples == |nows|
      ensures misses == Misses(start.Total(), period, nows, |nows|)
      ensures maxLate == WorstLate(start.Total(), period, nows, |nows|)
      ensures fresh(next) && next.Normal() && next.Total() == start.Total() + (|nows| + 1) * period
    {
      next := new Timespec(start.sec, start.nsec);
      next.AddNs(period);
      for i := 0 to |nows|
        invariant fresh(next) && next.Normal()
        invariant next.Total() == start.Total() + (i + 1) * period
        invariant samples == i && misses == Misses(start.Total(), period, nows, i)
        invariant maxLate == WorstLate(start.Total(), period, nows, i)
      {
        var late := DiffNs(nows[i].sec, nows[i].nsec, next.sec, next.nsec);
        assert late == Lateness(start.Total(), period, nows, i);
        samples := samples + 1;
        if late > period {
          misses := misses + 1;
        }
        RaiseMax(if late > 0 then late else 0, spurious[i]);
        next.AddNs(period);
        assert (i + 2) * period == (i + 1) * period + period;
      }
    }
  }

  // ---------------------------------------------------------------- jitter statistics

  const U64_MAX: nat := 0xFFFF_FFFF_FFFF_FFFF

  function SumOf(xs: seq<nat>): nat {
    if xs == [] then 0 else SumOf(xs[..|xs| - 1]) + xs[|xs| - 1]
  }

  function Least(xs: seq<nat>): nat {
    if xs == [] then U64_MAX else Min(Least(xs[..|xs| - 1]), xs[|xs| - 1])
  }

  function Greatest(xs: seq<nat>): nat {
    if xs == [] then 0 else Max(Greatest(xs[..|xs| - 1]), xs[|xs| - 1])
  }

  /** Ten-microsecond buckets, the last one open. */
  function Bucket(x: nat): nat { Min(x / 10, 9) }

  function InBucket(xs: seq<nat>, b: nat): nat {
    if xs == [] then 0 else InBucket(xs[..|xs| - 1], b) + (if Bucket(xs[|xs| - 1]) == b then 1 else 0)
  }

  /** Smallest and largest sample; the start values of the fields when there is none. */
  lemma {:induction false} LeastAndGreatest(xs: seq<nat>)
    requires forall i :: 0 <= i < |xs| ==> xs[i] <= U64_MAX
    ensures forall i :: 0 <= i < |xs| ==> Least(xs) <= xs[i] <= Greatest(xs)
    ensures if xs == [] then Least(xs) == 0xFFFF_FFFF_FFFF_FFFF && Greatest(xs) == 0
            else Least(xs) in xs && Greatest(xs) in xs
    decreases |xs|
  {
    if xs != [] {
      var n := |xs| - 1;
      LeastAndGreatest(xs[..n]);
      assert xs[n] in xs;
      forall i | 0 <= i < n
        ensures Least(xs) <= xs[i] <= Greatest(xs)
      {
        assert xs[..n][i] == xs[i];
      }
    }
  }

  /** The samples of a bucket: those within its ten microseconds, or beyond the ninth bucket for the last. */
  ghost function SamplesIn(xs: seq<nat>, b: nat): set<nat> {
    set i: nat | i < |xs| && 10 * b <= xs[i] && (b < 9 ==> xs[i] < 10 * b + 10)
  }

  lemma {:induction false} BucketsCount(xs: seq<nat>, b: nat)
    requires b < 10
    ensures InBucket(xs, b) == |SamplesIn(xs, b)|
    decreases |xs|
  {
    if xs != [] {
      var n := |xs| - 1;
      BucketsCount(xs[..n], b);
      OneMore(SamplesIn(xs[..n], b), SamplesIn(xs, b), n, Bucket(xs[n]) == b);
    }
  }

  class JitterStats {
    var minUs: nat
    var maxUs: nat
    var avgUs: real
    var samples: nat
    const histogram: array<nat>
    ghost var recorded: seq<nat>

    /** The running figures are those of everything recorded; the average, over reals, is the exact mean. */
    ghost predicate Valid()
      reads this, histogram
    {
      && histogram.Length == 10
      && samples == |recorded|
      && minUs == Least(recorded) && maxUs == Greatest(recorded)
      && IsMean(avgUs, recorded)
      && forall b :: 0 <= b < 10 ==> histogram[b] == InBucket(recorded, b)
    }

    constructor ()
      ensures Valid() && recorded == [] && fresh(histogram)
    {
      minUs, maxUs, avgUs, samples := U64_MAX, 0, 0.0, 0;
      histogram := new nat[10](_ => 0);
      recorded := [];
    }

    method Record(jitter: nat)
      requires Valid()
      modifies this, histogram
      ensures Valid() && recorded == old(recorded) + [jitter]
    {
      assert (recorded + [jitter])[..|recorded|] == recorded;
      minUs := Min(minUs, jitter);
      maxUs := Max(maxUs, jitter);
      samples := samples + 1;
      RollingMean(avgUs, recorded, jitter);
      avgUs := Rolled(avgUs, jitter, samples);
      var bucket := Bucket(jitter);
      histogram[bucket] := histogram[bucket] + 1;
      recorded := recorded + [jitter];
    }
  }

  /** The mean without its division: also right when nothing is recorded yet. */
  ghost predicate IsMean(avg: real, xs: seq<nat>) {
    avg * |xs| as real == SumOf(xs) as real
  }

  function Rolled(avg: real, x: nat, n: nat): real
    requires n >= 1
  {
    avg + (x as real - avg) / n as real
  }

  lemma RollingMean(avg: real, xs: seq<nat>, x: nat)
    requires IsMean(avg, xs)
    ensures IsMean(Rolled(avg, x, |xs| + 1), xs + [x])
  {
  }

  /** Every sample is in exactly one bucket. */
  lemma {:induction false} BucketsPartition(xs: seq<nat>)
    ensures InBucket(xs, 0) + InBucket(xs, 1) + InBucket(xs, 2) + InBucket(xs, 3) + InBucket(xs, 4)
          + InBucket(xs, 5) + InBucket(xs, 6) + InBucket(xs, 7) + InBucket(xs, 8) + InBucket(xs, 9) == |xs|
    decreases |xs|
  {
    if xs != [] {
      BucketsPartition(xs[..|xs| - 1]);
    }
  }
}
