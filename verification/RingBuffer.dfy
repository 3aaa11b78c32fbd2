/** The bounded ring buffer behind the event queue.

    `RingState` updates a fixed array and two cursors in place. Its methods are proved
    against `Put` and `Take`, which say what the same call does to a bounded FIFO sequence;
    the concurrent queue in module EventQueue uses those two functions for its critical sections.
  */
module RingBuffer {
  import opened Wrappers

  datatype QueueError = Full | Empty | Busy

  /** A push on a FIFO sequence bounded by `capacity`: the answer and the new sequence. */
  function Put<T>(capacity: nat, q: seq<T>, item: T): (Result<(), QueueError>, seq<T>) {
    if |q| == capacity then (Err(Full), q) else (Ok(()), q + [item])
  }

  /** A pop on a FIFO sequence: the answer and the new sequence. */
  function Take<T>(q: seq<T>): (Result<T, QueueError>, seq<T>) {
    if |q| == 0 then (Err(Empty), q) else (Ok(q[0]), q[1..])
  }

  class RingState<T> {
    const buf: array<Option<T>>
    var head: nat
    var tail: nat
    var len: nat

    /** The k-th slot counted from `head`, wrapping once. */
    function SlotAt(k: nat): nat
      reads this
    {
      if head + k < buf.Length then head + k else head + k - buf.Length
    }

    /** How far slot `i` lies behind `head`: the inverse of `SlotAt`. */
    function Offset(i: nat): int
      reads this
    {
      if head <= i then i - head else i + buf.Length - head
    }

    ghost predicate Valid()
      reads this, buf
    {
      && len <= buf.Length
      && (buf.Length == 0 ==> head == 0 && tail == 0)
      && (buf.Length > 0 ==> head < buf.Length && tail == SlotAt(len))
         // exactly the slots of the window are filled
      && forall i :: 0 <= i < buf.Length ==> (buf[i].Some? <==> Offset(i) < len)
    }

    /** The queue held by the buffer, oldest first. */
    ghost function Contents(): (q: seq<T>)
      requires Valid()
      reads this, buf
      ensures |q| == len
    {
      seq(len, (k: nat) requires Valid() && k < len reads this, buf =>
        assert Offset(SlotAt(k)) == k; buf[SlotAt(k)].value)
    }

    constructor (capacity: nat)
      ensures Valid() && fresh(buf) && buf.Length == capacity
      ensures Contents() == []
    {
      buf := new Option<T>[capacity](_ => None);
      head, tail, len := 0, 0, 0;
    }

    predicate IsFull()
      reads this
    {
      len == buf.Length
    }

    predicate IsEmpty()
      reads this
    {
      len == 0
    }

    method Push(item: T) returns (r: Result<(), QueueError>)
      requires Valid()
      modifies this, buf
      ensures Valid()
      ensures (r, Contents()) == Put(buf.Length, old(Contents()), item)
      ensures r == if old(len) == buf.Length then Err(Full) else Ok(())
    {
      if IsFull() {
        return Err(Full);
      }
      assert Offset(tail) == len;
      buf[tail] := Some(item);
      ModOneLap(tail + 1, buf.Length);
      tail := (tail + 1) % buf.Length;
      len := len + 1;
      assert Contents()[..old(len)] == old(Contents());
      assert Contents()[old(len)] == item;
      assert Contents() == old(Contents()) + [item];
      r := Ok(());
    }

    method Pop() returns (r: Result<T, QueueError>)
      requires Valid()
      modifies this, buf
      ensures Valid()
      ensures (r, Contents()) == Take(old(Contents()))
      ensures r == if old(len) == 0 then Err(Empty) else Ok(old(Contents())[0])
    {
      if IsEmpty() {
        return Err(Empty);
      }
      assert Offset(head) == 0;
      var item := buf[head].value;  // the slot is filled: the source's `expect` never fires
      assert item == Contents()[0];
      buf[head] := None;
      ModOneLap(head + 1, buf.Length);
      head := (head + 1) % buf.Length;
      len := len - 1;
      assert forall k :: 0 <= k < len ==> SlotAt(k) == old(SlotAt(k + 1));
      assert Contents() == old(Contents())[1..];
      r := Ok(item);
    }

    /** The cursor law in the source's own terms. */
    lemma TailIsHeadPlusLen()
      requires Valid() && buf.Length > 0
      ensures tail == (head + len) % buf.Length
    {
      ModOneLap(head + len, buf.Length);
    }
  }

  /** Within one lap the modulus is a conditional subtraction. */
  lemma ModOneLap(a: nat, n: nat)
    requires 0 < n && a < 2 * n
    ensures a % n == if a < n then a else a - n
  {
  }
}
