/** The workflow engine's budgeted tick over the shared ring.

    Producers push between any two pops of a tick, and any pop may find the lock taken;
    both are inputs of `Tick`. Nothing accepted is lost, reordered or handled twice.
  */
module WorkflowEngine {
  import opened Wrappers
  import opened RingBuffer

  const DEFAULT_BUDGET: nat := 32

  class Engine<T> {
    const queue: RingState<T>
    var maxPerTick: nat
    ghost var accepted: seq<T>  // every event a push answered Ok for, in order
    ghost var handled: seq<T>   // every event given to the handler, in order

    ghost predicate Valid()
      reads this, queue, queue.buf
    {
      && queue.Valid()
      && 1 <= maxPerTick
      && accepted == handled + queue.Contents()
    }

    constructor (queue: RingState<T>)
      requires queue.Valid()
      ensures Valid() && this.queue == queue
      ensures maxPerTick == 32 && handled == [] && accepted == queue.Contents()
    {
      this.queue := queue;
      maxPerTick := DEFAULT_BUDGET;
      handled, accepted := [], queue.Contents();
    }

    method WithBudget(n: nat)
      requires Valid()
      modifies this`maxPerTick
      ensures Valid() && maxPerTick == Max(n, 1)
    {
      maxPerTick := Max(n, 1);
    }

    method TryPush(item: T, busy: bool) returns (r: Result<(), QueueError>)
      requires Valid()
      modifies this`accepted, queue, queue.buf
      ensures Valid() && handled == old(handled)
      ensures accepted == if r.Ok? then old(accepted) + [item] else old(accepted)
      ensures r == if busy then Err(Busy) else Put(queue.buf.Length, old(queue.Contents()), item).0
    {
      if busy {
        return Err(Busy);
      }
      r := queue.Push(item);
      if r.Ok? {
        accepted := accepted + [item];
      }
    }

    method TryPop(busy: bool) returns (r: Result<T, QueueError>)
      requires Valid()
      modifies this`handled, queue, queue.buf
      ensures Valid() && accepted == old(accepted)
      ensures handled == if r.Ok? then old(handled) + [r.value] else old(handled)
      ensures r == if busy then Err(Busy) else Take(old(queue.Contents())).0
      ensures r.Err? ==> r.error == if busy then Busy else Empty
      ensures queue.Contents() == if busy then old(queue.Contents()) else Take(old(queue.Contents())).1
    {
      if busy {
        return Err(Busy);
      }
      ghost var q := queue.Contents();
      r := queue.Pop();
      if r.Ok? {
        HandOver(handled, q);
        handled := handled + [r.value];
      }
    }

    /** The pushes other callers try between two pops: as many as there is room for are accepted, in order. */
    method Arrive(items: seq<T>)
      requires Valid()
      modifies this`accepted, queue, queue.buf
      ensures Valid() && handled == old(handled)
      ensures accepted == old(accepted) + items[..Min(|items|, queue.buf.Length - old(|queue.Contents()|))]
      ensures items == [] ==> queue.Contents() == old(queue.Contents())
    {
      ghost var room := queue.buf.Length - |queue.Contents()|;
      for j := 0 to |items|
        invariant Valid() && handled == old(handled)
        invariant accepted == old(accepted) + items[..Min(j, room)]
        invariant j == 0 ==> queue.Contents() == old(queue.Contents())
      {
        assert |queue.Contents()| == |old(queue.Contents())| + Min(j, room);
        var _ := TryPush(items[j], false);
      }
    }

    /** One tick: at most `maxPerTick` pops, stopping at the first Empty or Busy.
        `arrivals[i]` are the pushes other callers try just before pop i. */
    method Tick(busy: seq<bool>, arrivals: seq<seq<T>>)
      requires Valid() && |busy| == |arrivals| == maxPerTick
      modifies this`accepted, this`handled, queue, queue.buf
      ensures Valid()
      ensures old(accepted) <= accepted && old(handled) <= handled
      ensures |handled| <= old(|handled|) + maxPerTick
      ensures (forall i :: 0 <= i < |busy| ==> !busy[i]) ==>
          |handled| >= old(|handled|) + Min(maxPerTick, old(|queue.Contents()|))
      ensures Quiet(busy, arrivals) ==>
                var n := Min(maxPerTick, old(|queue.Contents()|));
                && accepted == old(accepted)
                && handled == old(handled) + old(queue.Contents())[..n]
                && queue.Contents() == old(queue.Contents())[n..]
    {
      ghost var quiet := Quiet(busy, arrivals);
      ghost var free := forall i :: 0 <= i < |busy| ==> !busy[i];
      for i := 0 to maxPerTick
        invariant Valid()
        invariant old(accepted) <= accepted && old(handled) <= handled
        invariant |handled| <= old(|handled|) + i
        invariant free ==> |handled| == old(|handled|) + i
        invariant quiet ==> accepted == old(accepted)
      {
        Arrive(arrivals[i]);
        var r := TryPop(busy[i]);
        if r.Err? {
          assert free ==> |handled| == |accepted| && |old(accepted)| <= |accepted|;
          if quiet {
            SplitOfQueue(accepted, old(handled), old(queue.Contents()), handled, queue.Contents());
          }
          return;
        }
      }
      if quiet {
        SplitOfQueue(accepted, old(handled), old(queue.Contents()), handled, queue.Contents());
      }
    }

    /** The owner's loop while nobody pushes and the lock is free: n queued events are handled,
        in order, and the queue is empty exactly from ceil(n / maxPerTick) ticks on. */
    method TickRepeatedly(ticks: nat)
      requires Valid()
      modifies this`accepted, this`handled, queue, queue.buf
      ensures Valid() && accepted == old(accepted) && old(handled) <= handled
      ensures queue.Contents() == [] <==> (old(|queue.Contents()|) + maxPerTick - 1) / maxPerTick <= ticks
    {
      ghost var n := |queue.Contents()|;
      var noBusy, noArrivals := seq(maxPerTick, _ => false), seq<seq<T>>(maxPerTick, _ => []);
      for i := 0 to ticks
        invariant Valid() && accepted == old(accepted) && old(handled) <= handled
        invariant Remaining(|queue.Contents()|, maxPerTick, ticks - i) == Remaining(n, maxPerTick, ticks)
      {
        Tick(noBusy, noArrivals);
      }
      DrainsInCeilTicks(n, maxPerTick, ticks);
    }
  }

  lemma HandOver<T>(handled: seq<T>, q: seq<T>)
    requires q != []
    ensures handled + q == handled + [q[0]] + q[1..]
  {
  }

  /** Two cuts of the same history differ by a prefix of the earlier queue. */
  lemma SplitOfQueue<T>(all: seq<T>, h0: seq<T>, q0: seq<T>, h1: seq<T>, q1: seq<T>)
    requires all == h0 + q0 == h1 + q1 && |h0| <= |h1|
    ensures h1 == h0 + q0[..|h1| - |h0|] && q1 == q0[|h1| - |h0|..]
  {
    assert h1 == all[..|h1|] && q1 == all[|h1|..];
    assert q0 == all[|h0|..];
  }

  ghost predicate Quiet<T>(busy: seq<bool>, arrivals: seq<seq<T>>) {
    && (forall i :: 0 <= i < |busy| ==> !busy[i])
    && (forall i :: 0 <= i < |arrivals| ==> arrivals[i] == [])
  }

  /** What is left of `n` queued events after `ticks` quiet ticks, by the law `Tick` ensures. */
  function Remaining(n: nat, budget: nat, ticks: nat): nat {
    if ticks == 0 then n else Remaining(n - Min(budget, n), budget, ticks - 1)
  }

  /** n events take exactly ceil(n / budget) quiet ticks. */
  lemma DrainsInCeilTicks(n: nat, budget: nat, ticks: nat)
    requires 1 <= budget
    ensures Remaining(n, budget, ticks) == 0 <==> (n + budget - 1) / budget <= ticks
  {
    DrainedIffWithinBudget(n, budget, ticks);
    CeilDivision(n, budget, ticks);
  }

  lemma {:induction false} DrainedIffWithinBudget(n: nat, budget: nat, ticks: nat)
    requires 1 <= budget
    ensures Remaining(n, budget, ticks) == 0 <==> n <= budget * ticks
  {
    if ticks > 0 {
      DrainedIffWithinBudget(n - Min(budget, n), budget, ticks - 1);
      assert budget * ticks == budget * (ticks - 1) + budget;
    }
  }

  lemma CeilDivision(n: nat, d: nat, k: nat)
    requires 1 <= d
    ensures (n + d - 1) / d <= k <==> n <= d * k
  {
    var c := (n + d - 1) / d;
    assert d * c <= n + d - 1 < d * c + d;
    if c <= k {
      MulMonotone(d, c, k);
    } else {
      MulMonotone(d, k + 1, c);
    }
  }
}
