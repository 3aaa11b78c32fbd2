/** Fixed-point positions shared through atomics, and the service that follows them.

    Floating point is modelled by real numbers, so the statements hold up to f64 rounding.
  */
module PositionSync {
  const OFFSET: real := 1_000_000.0
  const SCALE: real := 1000.0
  const STEP: real := 0.001
  const U64_MAX: int := 0xFFFF_FFFF_FFFF_FFFF

  /** `as u64`: truncation, saturating at both ends of the range. */
  function ToU64(x: real): int {
    if x < 0.0 then 0 else if x.Floor > U64_MAX then U64_MAX else x.Floor
  }

  function ToFixed(v: real): int { ToU64((v + OFFSET) * SCALE) }

  function FromFixed(n: int): real { n as real / SCALE - OFFSET }

  /** The stored value lies less than one step below the true one exactly for the coordinates
      from -1,000,000 up to the end of the unsigned range. */
  lemma StoredWithinAStepIff(v: real)
    ensures 0.0 <= v - FromFixed(ToFixed(v)) < 0.001
       <==> -1_000_000.0 <= v < 0x1_0000_0000_0000_0000 as real / 1000.0 - 1_000_000.0
  {
  }

  /** Values that came out of the fixed point go back in unchanged. */
  lemma FixedIsStable(n: int)
    requires 0 <= n <= U64_MAX
    ensures ToFixed(FromFixed(n)) == n
  {
    assert (FromFixed(n) + OFFSET) * SCALE == n as real;
  }

  datatype Position = Position(x: real, y: real, z: real)

  const ORIGIN := Position(0.0, 0.0, 0.0)

  function Abs(r: real): real { if r < 0.0 then -r else r }

  /** L1 distance. */
  function Distance(p: Position, q: Position): real {
    Abs(p.x - q.x) + Abs(p.y - q.y) + Abs(p.z - q.z)
  }

  /** The way along one axis, and in three legs along the axes. */
  lemma DistanceByAxis(p: Position, q: Position)
    ensures Distance(p, p.(x := q.x)) == (if p.x < q.x then q.x - p.x else p.x - q.x)
    ensures Distance(p, p.(y := q.y)) == (if p.y < q.y then q.y - p.y else p.y - q.y)
    ensures Distance(p, p.(z := q.z)) == (if p.z < q.z then q.z - p.z else p.z - q.z)
    ensures Distance(p, q) == Distance(p, p.(x := q.x)) + Distance(p, p.(y := q.y)) + Distance(p, p.(z := q.z))
  {
  }

  /** Within `bound` on every axis. */
  predicate Near(p: Position, q: Position, bound: real) {
    Abs(p.x - q.x) <= bound && Abs(p.y - q.y) <= bound && Abs(p.z - q.z) <= bound
  }

  predicate Storable(p: Position) {
    Coordinate(p.x) && Coordinate(p.y) && Coordinate(p.z)
  }

  predicate Coordinate(v: real) { -OFFSET <= v < (U64_MAX + 1) as real / SCALE - OFFSET }

  /** What a load gives back after this position was stored. */
  function Loaded(p: Position): Position {
    Position(FromFixed(ToFixed(p.x)), FromFixed(ToFixed(p.y)), FromFixed(ToFixed(p.z)))
  }

  lemma LoadedIsNear(p: Position)
    requires Storable(p)
    ensures Near(p, Loaded(p), STEP)
  {
  }

  class AtomicPosition {
    var x: int
    var y: int
    var z: int

    constructor (p: Position)
      ensures View() == Loaded(p)
    {
      x, y, z := ToFixed(p.x), ToFixed(p.y), ToFixed(p.z);
    }

    ghost function View(): Position
      reads this
    {
      Position(FromFixed(x), FromFixed(y), FromFixed(z))
    }

    method Load() returns (p: Position)
      ensures p == View()
    {
      p := Position(FromFixed(x), FromFixed(y), FromFixed(z));
    }

    method Store(p: Position)
      modifies this
      ensures View() == Loaded(p)
    {
      x := ToFixed(p.x);
      y := ToFixed(p.y);
      z := ToFixed(p.z);
    }
  }

  predicate Moved(from: Position, to: Position, threshold: real) {
    Abs(to.x - from.x) > threshold || Abs(to.y - from.y) > threshold || Abs(to.z - from.z) > threshold
  }

  lemma FarEnough(from: Position, to: Position, threshold: real)
    requires Moved(from, to, threshold)
    ensures Distance(from, to) >= threshold && Distance(to, to) == 0.0
  {
  }

  /** The length of the way from `from` through all these positions. */
  function PathLength(from: Position, way: seq<Position>): real {
    if way == [] then 0.0
    else PathLength(from, way[..|way| - 1]) + Distance(LastOf(from, way[..|way| - 1]), way[|way| - 1])
  }

  function LastOf(from: Position, way: seq<Position>): Position {
    if way == [] then from else way[|way| - 1]
  }

  /** What this many syncs cost. */
  function Spent(syncs: nat, threshold: real): real {
    if syncs == 0 then 0.0 else Spent(syncs - 1, threshold) + threshold
  }

  lemma {:induction false} SpentIsProduct(syncs: nat, threshold: real)
    ensures Spent(syncs, threshold) == syncs as real * threshold
  {
    var n := syncs as real;
    if syncs == 0 {
      assert n == 0.0;
    } else {
      SpentIsProduct(syncs - 1, threshold);
      assert (syncs - 1) as real == n - 1.0;
      assert (n - 1.0) * threshold == n * threshold - threshold;
    }
  }

  /** That many syncs, and the way owed since the last one, are covered by the way travelled. */
  ghost predicate PaidFor(syncs: nat, threshold: real, synced: Position, way: seq<Position>) {
    Spent(syncs, threshold) + Distance(synced, LastOf(ORIGIN, way)) <= PathLength(ORIGIN, way)
  }

  lemma StillPaidFor(syncs: nat, threshold: real, synced: Position, way: seq<Position>, p: Position)
    requires PaidFor(syncs, threshold, synced, way)
    ensures PaidFor(syncs, threshold, synced, way + [p])
    ensures Moved(synced, p, threshold) ==> PaidFor(syncs + 1, threshold, p, way + [p])
  {
    PathExtends(ORIGIN, way, p);
    Triangle(synced, LastOf(ORIGIN, way), p);
    if Moved(synced, p, threshold) {
      FarEnough(synced, p, threshold);
    }
  }

  lemma SyncsArePaidFor(syncs: nat, threshold: real, synced: Position, way: seq<Position>)
    requires PaidFor(syncs, threshold, synced, way)
    ensures syncs as real * threshold <= PathLength(ORIGIN, way)
  {
    DistanceIsNonNegative(synced, LastOf(ORIGIN, way));
    SpentWithin(syncs, threshold, PathLength(ORIGIN, way));
  }

  lemma SpentWithin(syncs: nat, threshold: real, limit: real)
    requires Spent(syncs, threshold) <= limit
    ensures syncs as real * threshold <= limit
  {
    SpentIsProduct(syncs, threshold);
  }

  lemma StaysNear(synced: Position, p: Position, threshold: real)
    requires threshold >= 0.0
    ensures Near(p, p, threshold)
    ensures !Moved(synced, p, threshold) ==> Near(p, synced, threshold)
  {
  }

  class SyncService {
    var lastSynced: Position
    var threshold: real
    var syncCount: nat
    var skipCount: nat
    ghost var seen: seq<Position>  // every position loaded, in order

    ghost predicate Valid()
      reads this
    {
      && syncCount + skipCount == |seen|
      && PaidFor(syncCount, threshold, lastSynced, seen)
    }

    constructor (threshold: real)
      ensures Valid() && seen == [] && lastSynced == ORIGIN && this.threshold == threshold
    {
      lastSynced, this.threshold, syncCount, skipCount, seen := ORIGIN, threshold, 0, 0, [];
    }

    predicate PositionChanged(p: Position)
      reads this
    {
      Moved(lastSynced, p, threshold)
    }

    /** A tick on whatever was loaded, torn reads included. */
    method TickOn(p: Position)
      requires Valid()
      modifies this
      ensures Valid() && seen == old(seen) + [p] && threshold == old(threshold)
      ensures lastSynced == (if old(PositionChanged(p)) then p else old(lastSynced))
      ensures syncCount == old(syncCount) + (if old(PositionChanged(p)) then 1 else 0)
      ensures syncCount == old(syncCount) <==>
          && -threshold <= p.x - old(lastSynced).x <= threshold
          && -threshold <= p.y - old(lastSynced).y <= threshold
          && -threshold <= p.z - old(lastSynced).z <= threshold
      ensures threshold >= 0.0 ==> Near(p, lastSynced, threshold)
    {
      StillPaidFor(syncCount, threshold, lastSynced, seen, p);
      if threshold >= 0.0 { StaysNear(lastSynced, p, threshold); }
      seen := seen + [p];
      if !PositionChanged(p) {
        skipCount := skipCount + 1;
        return;
      }
      lastSynced := p;
      syncCount := syncCount + 1;
    }

    /** A tick while no store overlaps it. */
    method Tick(source: AtomicPosition)
      requires Valid()
      modifies this
      ensures Valid() && seen == old(seen) + [source.View()] && threshold == old(threshold)
      ensures threshold >= 0.0 ==> Near(source.View(), lastSynced, threshold)
    {
      var p := source.Load();
      TickOn(p);
    }

    /** After a store and a tick the synced position is within the threshold and one step of the stored one. */
    method StoreThenTick(source: AtomicPosition, p: Position)
      requires Valid() && threshold >= 0.0 && Storable(p)
      modifies this, source
      ensures Valid() && threshold == old(threshold)
      ensures Near(p, lastSynced, threshold + STEP)
    {
      source.Store(p);
      LoadedIsNear(p);
      Tick(source);
    }

    /** Every sync is paid for by more than a threshold of travelled way. */
    lemma SyncsAreBounded()
      requires Valid()
      ensures syncCount as real * threshold <= PathLength(ORIGIN, seen)
    {
      SyncsArePaidFor(syncCount, threshold, lastSynced, seen);
    }
  }

  lemma PathExtends(from: Position, way: seq<Position>, p: Position)
    ensures PathLength(from, way + [p]) == PathLength(from, way) + Distance(LastOf(from, way), p)
    ensures LastOf(from, way + [p]) == p
  {
    assert (way + [p])[..|way|] == way;
  }

  lemma DistanceIsNonNegative(p: Position, q: Position)
    ensures Distance(p, q) >= 0.0
  {
  }

  lemma Triangle(p: Position, q: Position, r: Position)
    ensures Distance(p, r) <= Distance(p, q) + Distance(q, r)
  {
  }
}
