/** The batching database writer: a bounded channel, a worker that collects batches,
    and the two ways the worker can end.

    One value of `State` is one life of the service from `start` on. Submitters, the worker
    and `stop` take their steps in any order; when the shutdown signal and an operation
    are both ready, either may be taken.
  */
module DbWriter {
  import opened Wrappers

  datatype WriteOp =
    | Insert(table: string, data: string)
    | Update(table: string, id: string, data: string)
    | Delete(table: string, id: string)
    | CustomSql(sql: string)

  datatype Worker = Working | ExitedByClose | ExitedByShutdown

  datatype State = State(
    batchSize: nat,
    capacity: nat,
    channel: seq<WriteOp>,
    batch: seq<WriteOp>,
    processed: seq<seq<WriteOp>>,  // history: batches given to the database, in order
    accepted: seq<WriteOp>,        // history: operations whose submission succeeded, in order
    worker: Worker,
    serviceSender: bool,           // the service still holds its sender
    otherSenders: nat,             // clones handed out by `sender()`
    signalled: bool)               // the shutdown signal is ready

  datatype Action =
    | Submit(op: WriteOp)       // through the service
    | Send(op: WriteOp)         // through a clone of the sender
    | CloneSender
    | DropClone
    | Receive                   // the worker takes an operation
    | SeeClosed                 // the worker finds the channel closed and empty
    | SeeShutdown               // the worker takes the shutdown branch
    | Stop                      // also: the service is dropped

  function Started(batchSize: nat, capacity: nat): State {
    State(batchSize, capacity, [], [], [], [], Working, true, 0, false)
  }

  function Enqueued(s: State, op: WriteOp): State {
    s.(channel := s.channel + [op], accepted := s.accepted + [op])
  }

  /** A full channel makes `submit` wait and `try_submit` fail; after the worker's exit both fail. */
  predicate CanEnqueue(s: State) {
    s.worker.Working? && |s.channel| < s.capacity
  }

  /** `process_batch` on what is left, if anything is. */
  function Flushed(s: State): seq<seq<WriteOp>> {
    if s.batch == [] then s.processed else s.processed + [s.batch]
  }

  function Step(s: State, a: Action): Option<State> {
    match a
    case Submit(op) => if s.serviceSender && CanEnqueue(s) then Some(Enqueued(s, op)) else None
    case Send(op) => if s.otherSenders > 0 && CanEnqueue(s) then Some(Enqueued(s, op)) else None
    case CloneSender => if s.serviceSender then Some(s.(otherSenders := s.otherSenders + 1)) else None
    case DropClone => if s.otherSenders > 0 then Some(s.(otherSenders := s.otherSenders - 1)) else None
    case Receive =>
      if s.worker.Working? && s.channel != [] then
        var batch := s.batch + [s.channel[0]];
        var s' := s.(channel := s.channel[1..]);
        Some(if |batch| >= s.batchSize then s'.(processed := s.processed + [batch], batch := [])
            else s'.(batch := batch))
      else None
    case SeeClosed =>
      if s.worker.Working? && s.channel == [] && !s.serviceSender && s.otherSenders == 0
      then Some(s.(processed := Flushed(s), batch := [], worker := ExitedByClose)) else None
    case SeeShutdown =>
      if s.worker.Working? && s.signalled
      then Some(s.(processed := Flushed(s), batch := [], worker := ExitedByShutdown)) else None
    case Stop => Some(s.(serviceSender := false, signalled := true))
  }

  function Exec(s: State, run: seq<Action>): Option<State>
    decreases |run|
  {
    if run == [] then Some(s)
    else match Step(s, run[0])
      case None => None
      case Some(s') => Exec(s', run[1..])
  }

  function Flatten(batches: seq<seq<WriteOp>>): seq<WriteOp> {
    if batches == [] then [] else Flatten(batches[..|batches| - 1]) + batches[|batches| - 1]
  }

  lemma FlattenAppend(batches: seq<seq<WriteOp>>, b: seq<WriteOp>)
    ensures Flatten(batches + [b]) == Flatten(batches) + b
  {
    assert (batches + [b])[..|batches|] == batches;
  }

  /** All batches have exactly the configured size (a size of 0 works as 1). */
  ghost predicate FullBatches(batches: seq<seq<WriteOp>>, size: nat) {
    forall i :: 0 <= i < |batches| ==> |batches[i]| == Max(size, 1)
  }

  /** All but the last, which is not empty and not larger. */
  ghost predicate WellBatched(batches: seq<seq<WriteOp>>, size: nat) {
    || FullBatches(batches, size)
    || (batches != [] && FullBatches(batches[..|batches| - 1], size) && 1 <= |batches[|batches| - 1]| <= Max(size, 1))
  }

  ghost predicate Inv(s: State) {
    && s.accepted == Flatten(s.processed) + s.batch + s.channel
    && WellBatched(s.processed, s.batchSize)
    && |s.channel| <= s.capacity
    && match s.worker
       case Working => FullBatches(s.processed, s.batchSize) && |s.batch| < Max(s.batchSize, 1)
       case ExitedByClose => s.batch == [] && s.channel == []
       case ExitedByShutdown => s.batch == []
  }

  lemma FlushKeeps(s: State)
    requires Inv(s) && s.worker.Working?
    ensures s.accepted == Flatten(Flushed(s)) + s.channel && WellBatched(Flushed(s), s.batchSize)
  {
  }

  lemma MoveOneOver<T>(a: seq<T>, b: seq<T>, c: seq<T>)
    requires c != []
    ensures a + b + c == a + (b + [c[0]]) + c[1..]
  {
  }

  /** The operation received completes the batch: one more full batch, and an empty one. */
  lemma FullBatchKeeps(s: State, batch: seq<WriteOp>, rest: seq<WriteOp>)
    requires Inv(s) && s.worker.Working? && |rest| <= |s.channel|
    requires s.accepted == Flatten(s.processed) + batch + rest && |batch| == Max(s.batchSize, 1)
    ensures Inv(s.(channel := rest, processed := s.processed + [batch], batch := []))
  {
    var p := s.processed + [batch];
    FlattenAppend(s.processed, batch);
    assert Flatten(p) + [] == Flatten(p);
    assert FullBatches(p, s.batchSize);
  }

  /** It does not: the batch grows. */
  lemma PartBatchKeeps(s: State, batch: seq<WriteOp>, rest: seq<WriteOp>)
    requires Inv(s) && s.worker.Working? && |rest| <= |s.channel|
    requires s.accepted == Flatten(s.processed) + batch + rest && |batch| < s.batchSize
    ensures Inv(s.(channel := rest, batch := batch))
  {
  }

  lemma ReceiveKeeps(s: State)
    requires Inv(s) && s.worker.Working? && s.channel != []
    ensures Inv(Step(s, Receive).value)
  {
    var batch, rest := s.batch + [s.channel[0]], s.channel[1..];
    MoveOneOver(Flatten(s.processed), s.batch, s.channel);
    if |batch| >= s.batchSize {
      FullBatchKeeps(s, batch, rest);
    } else {
      PartBatchKeeps(s, batch, rest);
    }
  }

  lemma EnqueueKeeps(s: State, op: WriteOp)
    requires Inv(s) && CanEnqueue(s)
    ensures Inv(Enqueued(s, op))
  {
    assert Flatten(s.processed) + s.batch + (s.channel + [op]) == Flatten(s.processed) + s.batch + s.channel + [op];
  }

  /** The worker ends after a last, possibly short batch. */
  lemma ExitKeeps(s: State, exit: Worker)
    requires Inv(s) && s.worker.Working? && !exit.Working? && (exit.ExitedByClose? ==> s.channel == [])
    ensures Inv(s.(processed := Flushed(s), batch := [], worker := exit))
  {
    FlushKeeps(s);
    assert Flatten(Flushed(s)) + [] == Flatten(Flushed(s));
  }

  lemma InvStep(s: State, a: Action)
    requires Inv(s) && Step(s, a).Some?
    ensures Inv(Step(s, a).value)
    ensures Step(s, a).value.batchSize == s.batchSize
  {
    match a
    case Submit(op) => EnqueueKeeps(s, op);
    case Send(op) => EnqueueKeeps(s, op);
    case Receive => ReceiveKeeps(s);
    case SeeClosed => ExitKeeps(s, ExitedByClose);
    case SeeShutdown => ExitKeeps(s, ExitedByShutdown);
    case _ =>
  }

  lemma {:induction false} InvRun(s: State, run: seq<Action>)
    requires Inv(s) && Exec(s, run).Some?
    ensures Inv(Exec(s, run).value) && Exec(s, run).value.batchSize == s.batchSize
    decreases |run|
  {
    if run != [] {
      InvStep(s, run[0]);
      InvRun(Step(s, run[0]).value, run[1..]);
    }
  }

  /** Nothing accepted is lost, duplicated or reordered while the worker lives; all batches but
      a last one are full; ending by a closed channel processes everything, and ending by
      shutdown loses exactly what was still in the channel. */
  lemma NothingLostButTheChannel(batchSize: nat, capacity: nat, run: seq<Action>, s: State)
    requires Exec(Started(batchSize, capacity), run) == Some(s)
    ensures s.worker.Working? ==> s.accepted == Flatten(s.processed) + s.batch + s.channel
    ensures s.worker.Working? ==> FullBatches(s.processed, batchSize)
    ensures s.worker.ExitedByClose? ==> s.accepted == Flatten(s.processed)
    ensures s.worker.ExitedByShutdown? ==> s.accepted == Flatten(s.processed) + s.channel
    ensures WellBatched(s.processed, batchSize)
  {
    InvRun(Started(batchSize, capacity), run);
  }

  // ---------------------------------------------------------------- what a run tells

  function OfferedBy(a: Action): seq<WriteOp> { if a.Submit? || a.Send? then [a.op] else [] }

  /** The operations submitted or sent, in order. */
  function Offered(run: seq<Action>): seq<WriteOp> {
    if run == [] then [] else OfferedBy(run[0]) + Offered(run[1..])
  }

  function Times(run: seq<Action>, a: Action): nat {
    if run == [] then 0 else (if run[0] == a then 1 else 0) + Times(run[1..], a)
  }

  lemma {:induction false} TimesIsIn(run: seq<Action>, a: Action)
    ensures Times(run, a) > 0 <==> a in run
    decreases |run|
  {
    if run != [] {
      TimesIsIn(run[1..], a);
      assert run == [run[0]] + run[1..];
    }
  }

  predicate Ended(run: seq<Action>) { SeeClosed in run || SeeShutdown in run }

  /** Signalled means stopped, and the worker has a reason to end. */
  ghost predicate EndInv(s: State) {
    && s.signalled == !s.serviceSender
    && (s.worker.ExitedByClose? ==> !s.serviceSender && s.otherSenders == 0)
    && (s.worker.ExitedByShutdown? ==> s.signalled)
  }

  lemma StepTells(s: State, a: Action)
    requires EndInv(s) && Step(s, a).Some?
    ensures var s' := Step(s, a).value;
            && EndInv(s') && s'.batchSize == s.batchSize && s'.capacity == s.capacity
            && (s'.serviceSender <==> s.serviceSender && a != Stop)
            && s'.otherSenders == s.otherSenders + (if a == CloneSender then 1 else if a == DropClone then -1 else 0)
            && s'.accepted == s.accepted + OfferedBy(a)
            && |s'.channel| == |s.channel| + |OfferedBy(a)| - (if a == Receive then 1 else 0)
            && (s'.worker.Working? <==> s.worker.Working? && a != SeeClosed && a != SeeShutdown)
  {
  }

  lemma {:induction false} RunTells(s: State, run: seq<Action>)
    requires EndInv(s) && Exec(s, run).Some?
    ensures var s' := Exec(s, run).value;
            && EndInv(s') && s'.batchSize == s.batchSize && s'.capacity == s.capacity
            && (s'.serviceSender <==> s.serviceSender && Times(run, Stop) == 0)
            && s'.otherSenders == s.otherSenders + Times(run, CloneSender) - Times(run, DropClone)
            && s'.accepted == s.accepted + Offered(run)
            && |s'.channel| == |s.channel| + |Offered(run)| - Times(run, Receive)
            && (s'.worker.Working? <==>
                  s.worker.Working? && Times(run, SeeClosed) == 0 && Times(run, SeeShutdown) == 0)
    decreases |run|
  {
    if run != [] {
      StepTells(s, run[0]);
      RunTells(Step(s, run[0]).value, run[1..]);
    }
  }

  /** Every run, in terms of what was done in it: what is accepted is what was offered, in order; the worker ends
      only after `stop`, and on a closed channel only after every clone is gone too; and exactly when each
      side may go on. In particular a submission is refused only while the channel is full or after `stop`. */
  lemma ExactlyAfterStop(batchSize: nat, capacity: nat, run: seq<Action>, s: State, op: WriteOp)
    requires Exec(Started(batchSize, capacity), run) == Some(s)
    ensures s.accepted == Offered(run) && |s.channel| == |Offered(run)| - Times(run, Receive)
    ensures Stop !in run ==> s.worker.Working?
    ensures s.worker.ExitedByShutdown? ==> Stop in run
    ensures s.worker.ExitedByClose? ==> Stop in run && Times(run, CloneSender) == Times(run, DropClone)
    ensures Step(s, Submit(op)).Some? <==> Stop !in run && |s.channel| < capacity
    ensures Step(s, Send(op)).Some? <==>
        Times(run, CloneSender) > Times(run, DropClone) && !Ended(run) && |s.channel| < capacity
    ensures Step(s, Receive).Some? <==> !Ended(run) && s.channel != []
    ensures Step(s, SeeClosed).Some? <==>
        !Ended(run) && s.channel == [] && Stop in run && Times(run, CloneSender) == Times(run, DropClone)
    ensures Step(s, SeeShutdown).Some? <==> !Ended(run) && Stop in run
    ensures Step(s, CloneSender).Some? <==> Stop !in run
    ensures Step(s, DropClone).Some? <==> Times(run, CloneSender) > Times(run, DropClone)
  {
    RunTells(Started(batchSize, capacity), run);
    TimesIsIn(run, Stop);
    TimesIsIn(run, SeeClosed);
    TimesIsIn(run, SeeShutdown);
  }

  // ---------------------------------------------------------------- ending

  lemma {:induction false} Drains(s: State) returns (run: seq<Action>, s': State)
    requires Inv(s) && s.worker.Working? && !s.serviceSender && s.otherSenders == 0
    ensures Exec(s, run) == Some(s') && s'.worker.ExitedByClose? && s'.accepted == s.accepted
    decreases |s.channel|
  {
    if s.channel == [] {
      run, s' := [SeeClosed], Step(s, SeeClosed).value;
      assert Exec(s', [SeeClosed][1..]) == Some(s');
    } else {
      var s1 := Step(s, Receive).value;
      ReceiveKeeps(s);
      var rest;
      rest, s' := Drains(s1);
      run := [Receive] + rest;
      assert run[1..] == rest;
    }
  }

  /** In every reachable state whose worker is alive and whose senders' clones are gone, `stop` may lose
      everything in the channel or nothing: a run exists for each. */
  lemma StopMayLoseOrKeep(batchSize: nat, capacity: nat, before: seq<Action>, s: State)
      returns (losing: seq<Action>, lost: State, keeping: seq<Action>, kept: State)
    requires Exec(Started(batchSize, capacity), before) == Some(s) && s.worker.Working? && s.otherSenders == 0
    ensures losing != [] && losing[0] == Stop && Exec(s, losing) == Some(lost)
    ensures lost.worker.ExitedByShutdown? && lost.accepted == s.accepted == Flatten(lost.processed) + s.channel
    ensures keeping != [] && keeping[0] == Stop && Exec(s, keeping) == Some(kept)
    ensures kept.worker.ExitedByClose? && kept.accepted == s.accepted == Flatten(kept.processed)
  {
    InvRun(Started(batchSize, capacity), before);
    var s1 := Step(s, Stop).value;
    InvStep(s, Stop);
    losing, lost := StopLoses(s, s1);
    var rest;
    rest, kept := Drains(s1);
    keeping := [Stop] + rest;
    assert keeping[1..] == rest;
    InvRun(s1, rest);
  }

  lemma StopLoses(s: State, s1: State) returns (losing: seq<Action>, lost: State)
    requires Inv(s) && s.worker.Working? && Step(s, Stop) == Some(s1) && Inv(s1)
    ensures losing != [] && losing[0] == Stop && Exec(s, losing) == Some(lost)
    ensures lost.worker.ExitedByShutdown? && lost.accepted == s.accepted == Flatten(lost.processed) + s.channel
  {
    losing, lost := [Stop, SeeShutdown], Step(s1, SeeShutdown).value;
    assert losing[1..] == [SeeShutdown] && [SeeShutdown][1..] == [];
    assert Exec(lost, []) == Some(lost);
    assert Exec(s1, [SeeShutdown]) == Some(lost);
    FlushKeeps(s1);
  }

  /** After its exit nothing is accepted or processed any more. */
  lemma {:induction false} ExitIsFinal(s: State, run: seq<Action>)
    requires !s.worker.Working? && Exec(s, run).Some?
    ensures var s' := Exec(s, run).value;
            s'.worker == s.worker && s'.accepted == s.accepted && s'.processed == s.processed && s'.channel == s.channel
    decreases |run|
  {
    if run != [] {
      ExitIsFinal(Step(s, run[0]).value, run[1..]);
    }
  }

  /** The worker loop itself, over the operations it receives before its last turn. */
  method Work(received: seq<WriteOp>, batchSize: nat) returns (processed: seq<seq<WriteOp>>)
    ensures Flatten(processed) == received
    ensures WellBatched(processed, batchSize)
  {
    var batch: seq<WriteOp> := [];
    processed := [];
    for i := 0 to |received|
      invariant Flatten(processed) + batch == received[..i]
      invariant FullBatches(processed, batchSize) && |batch| < Max(batchSize, 1)
    {
      batch := batch + [received[i]];
      assert Flatten(processed) + batch == received[..i + 1];
      if |batch| >= batchSize {
        FlattenAppend(processed, batch);
        processed := processed + [batch];
        batch := [];
      }
    }
    assert received[..|received|] == received;
    if batch != [] {
      FlattenAppend(processed, batch);
      assert (processed + [batch])[..|processed|] == processed;
      processed := processed + [batch];
    }
  }
}
