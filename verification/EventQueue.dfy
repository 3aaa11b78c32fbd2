/** The concurrent event queue: a lock, a bounded FIFO and two `Notify` cells.

    Any number of tasks run `push`, `pop`, `try_push` and `try_pop`. A task is a program
    point; an action lets one task take its next atomic step, so a run is any interleaving.
    The two waiting directions mirror each other, and everything is stated once per `Side`:
    `NotEmpty` is where pops wait and pushes notify, `NotFull` the other way round.

    `Notify` follows its documented contract: at most one stored permit, `notify_one` wakes
    the longest registered waiter or else stores the permit.
  */
module EventQueue {
  import opened Wrappers
  import opened RingBuffer

  datatype EventSource = Gateway | Database | ModelManager | Service | Other(name: string)
  datatype EventKind = PositionChanged | SyncCompleted | Custom(tag: string)
  datatype Event = Event(id: nat, kind: EventKind, source: EventSource)

  datatype Side = NotEmpty | NotFull

  datatype Op = Push(event: Event) | Pop
  datatype Outcome = Pushed | Got(event: Event) | Failed(error: QueueError)

  datatype Pc =
    | Start                       // about to take the lock (also: woken, or looping)
    | Locked                      // holds the lock, about to look at the ring
    | Changed(outcome: Outcome)   // holds the lock, ring changed, peer not yet notified
    | Notified(outcome: Outcome)  // holds the lock, about to return
    | AboutToWait                 // saw no room / no event, lock released, not yet registered
    | Registered                  // asleep in `notified().await`
    | Finished(outcome: Outcome)

  /** One call; `waits` tells `push`/`pop` from `try_push`/`try_pop`. */
  datatype Task = Task(op: Op, waits: bool, pc: Pc)

  datatype Cell = Cell(permit: bool, waiters: seq<nat>)

  datatype State = State(
    capacity: nat,
    queue: seq<Event>,
    holder: Option<nat>,
    notEmpty: Cell,
    notFull: Cell,
    tasks: seq<Task>,
    accepted: seq<(nat, Event)>,       // history: who pushed which event, in order
    delivered: seq<(nat, Event)>)      // history: who popped which event, in order

  datatype Action = Begin(op: Op, waits: bool) | Run(task: nat) | Refuse(task: nat)

  function Init(capacity: nat): State {
    State(capacity, [], None, Cell(false, []), Cell(false, []), [], [], [])
  }

  /** The cell a blocked call of this kind waits on. */
  function WaitsOn(op: Op): Side { if op.Pop? then NotEmpty else NotFull }

  /** The cell a successful call of this kind notifies. */
  function Notifies(op: Op): Side { if op.Pop? then NotFull else NotEmpty }

  function CellOf(s: State, side: Side): Cell {
    if side.NotEmpty? then s.notEmpty else s.notFull
  }

  function SetCell(s: State, side: Side, c: Cell): State {
    if side.NotEmpty? then s.(notEmpty := c) else s.(notFull := c)
  }

  function SetPc(s: State, t: nat, pc: Pc): State
    requires t < |s.tasks|
  {
    s.(tasks := s.tasks[t := s.tasks[t].(pc := pc)])
  }

  /** Whether a call waiting on this side could succeed now. */
  predicate Ready(s: State, side: Side) {
    if side.NotEmpty? then |s.queue| > 0 else |s.queue| < s.capacity
  }

  /** The critical section of all four calls: try the ring operation under the lock. */
  function Access(s: State, t: nat): State
    requires t < |s.tasks|
  {
    var task := s.tasks[t];
    match task.op
    case Push(e) =>
      (match Put(s.capacity, s.queue, e)
       case (Ok(_), q) => SetPc(s.(queue := q, accepted := s.accepted + [(t, e)]), t, Changed(Outcome.Pushed))
       case (Err(err), _) => Blocked(s, t, err))
    case Pop =>
      (match Take(s.queue)
       case (Ok(e), q) => SetPc(s.(queue := q, delivered := s.delivered + [(t, e)]), t, Changed(Got(e)))
       case (Err(err), _) => Blocked(s, t, err))
  }

  /** The guard is dropped; a waiting call goes on to await, a try call returns the error. */
  function Blocked(s: State, t: nat, error: QueueError): State
    requires t < |s.tasks|
  {
    SetPc(s.(holder := None), t, if s.tasks[t].waits then AboutToWait else Finished(Failed(error)))
  }

  function NotifyOne(s: State, side: Side): State {
    var c := CellOf(s, side);
    if c.waiters == [] then SetCell(s, side, Cell(true, []))
    else if c.waiters[0] < |s.tasks| then
      SetPc(SetCell(s, side, c.(waiters := c.waiters[1..])), c.waiters[0], Start)
    else s
  }

  /** First poll of `notified().await`: consume the permit or register. */
  function Await(s: State, t: nat): State
    requires t < |s.tasks|
  {
    var side := WaitsOn(s.tasks[t].op);
    var c := CellOf(s, side);
    if c.permit then SetPc(SetCell(s, side, c.(permit := false)), t, Start)
    else SetPc(SetCell(s, side, c.(waiters := c.waiters + [t])), t, Registered)
  }

  /** The next step of one task, if it has one. */
  function RunTask(s: State, t: nat): Option<State>
    requires t < |s.tasks|
  {
    match s.tasks[t].pc
    case Start => if s.holder.None? then Some(SetPc(s.(holder := Some(t)), t, Locked)) else None
    case Locked => Some(Access(s, t))
    case Changed(o) => Some(SetPc(NotifyOne(s, Notifies(s.tasks[t].op)), t, Notified(o)))
    case Notified(o) => Some(SetPc(s.(holder := None), t, Finished(o)))
    case AboutToWait => Some(Await(s, t))
    case Registered => None
    case Finished(_) => None
  }

  predicate CanRun(s: State, t: nat) {
    t < |s.tasks| && RunTask(s, t).Some?
  }

  /** `Refuse` is a failed `try_lock`; it is allowed at any time, which also covers the
      moments where the lock is free but promised to a queued waiter. */
  function Step(s: State, a: Action): Option<State> {
    match a
    case Begin(op, waits) => Some(s.(tasks := s.tasks + [Task(op, waits, Start)]))
    case Run(t) => if t < |s.tasks| then RunTask(s, t) else None
    case Refuse(t) =>
      if t < |s.tasks| && s.tasks[t].pc.Start? && !s.tasks[t].waits
      then Some(SetPc(s, t, Finished(Failed(Busy)))) else None
  }

  function Exec(s: State, run: seq<Action>): Option<State>
    decreases |run|
  {
    if run == [] then Some(s)
    else match Step(s, run[0])
      case None => None
      case Some(s') => Exec(s', run[1..])
  }

  // ---------------------------------------------------------------- the invariant

  predicate InCritical(pc: Pc) { pc.Locked? || pc.Changed? || pc.Notified? }

  ghost predicate Asleep(s: State, side: Side, t: nat) {
    t < |s.tasks| && s.tasks[t].pc.Registered? && WaitsOn(s.tasks[t].op) == side
  }

  ghost predicate LockInv(s: State) {
    && (s.holder.Some? ==> s.holder.value < |s.tasks|)
    && forall t :: 0 <= t < |s.tasks| ==> (InCritical(s.tasks[t].pc) <==> s.holder == Some(t))
  }

  /** A cell's waiters are exactly the sleepers of its side, once each. */
  ghost predicate CellInv(s: State, side: Side) {
    var c := CellOf(s, side);
    && (c.permit ==> c.waiters == [])
    && (forall i :: 0 <= i < |c.waiters| ==> Asleep(s, side, c.waiters[i]))
    && (forall t :: Asleep(s, side, t) ==> t in c.waiters)
    && (forall i, j :: 0 <= i < j < |c.waiters| ==> c.waiters[i] != c.waiters[j])
  }

  /** Whoever changed the ring answers so: `Pushed` for a push, `Got` for a pop. A call that finished without
      changing it does not wait, and answers Busy, or Full for a push and Empty for a pop. */
  ghost predicate TaskInv(task: Task) {
    && (task.pc.AboutToWait? || task.pc.Registered? ==> task.waits)
    && (task.pc.Changed? || task.pc.Notified? ==>
          if task.op.Push? then task.pc.outcome == Pushed else task.pc.outcome.Got?)
    && (task.pc.Finished? ==>
          match task.pc.outcome
          case Pushed => task.op.Push?
          case Got(_) => task.op.Pop?
          case Failed(error) => !task.waits && (error == Busy || error == if task.op.Push? then Full else Empty))
  }

  ghost predicate TasksInv(s: State) {
    forall t :: 0 <= t < |s.tasks| ==> TaskInv(s.tasks[t])
  }

  /** A wake-up of this side is under way: stored, held by a caller that will look
      at the ring again, or about to be sent by the call that changed the ring. */
  ghost predicate WakeUpUnderWay(s: State, side: Side) {
    || CellOf(s, side).permit
    || (exists t :: 0 <= t < |s.tasks| && Retrying(s.tasks[t], side))
    || (exists t :: 0 <= t < |s.tasks| && Notifying(s.tasks[t], side))
  }

  ghost predicate Retrying(task: Task, side: Side) {
    task.waits && WaitsOn(task.op) == side && (task.pc.Start? || task.pc.Locked?)
  }

  ghost predicate Notifying(task: Task, side: Side) {
    Notifies(task.op) == side && task.pc.Changed?
  }

  /** Nothing was ever pushed, so no push can have found the ring full. */
  ghost predicate Untouched(s: State) {
    && s.queue == [] && s.accepted == []
    && forall t :: 0 <= t < |s.tasks| && s.tasks[t].op.Push? ==>
        !s.tasks[t].pc.AboutToWait? && !s.tasks[t].pc.Registered?
  }

  ghost predicate Live(s: State) {
    || Untouched(s)
    || exists side :: Ready(s, side) && WakeUpUnderWay(s, side)
  }

  ghost predicate Inv(s: State) {
    && 0 < s.capacity && |s.queue| <= s.capacity
    && LockInv(s)
    && TasksInv(s)
    && CellInv(s, NotEmpty) && CellInv(s, NotFull)
    && Live(s)
  }

  // ---------------------------------------------------------------- preservation

  lemma CellFrame(s: State, s': State, side: Side)
    requires CellInv(s, side) && CellOf(s', side) == CellOf(s, side)
    requires forall t :: Asleep(s', side, t) <==> Asleep(s, side, t)
    ensures CellInv(s', side)
  {
  }

  /** `notify_one` wakes the first sleeper of its side, or stores the permit. */
  lemma NotifyKeepsCells(s: State, side: Side)
    requires CellInv(s, NotEmpty) && CellInv(s, NotFull)
    ensures var s' := NotifyOne(s, side);
            var ws := CellOf(s, side).waiters;
            && CellInv(s', NotEmpty) && CellInv(s', NotFull)
            && s' == SetCell(s, side, CellOf(s', side)).(tasks := s'.tasks)
            && (if ws == [] then CellOf(s', side).permit && s'.tasks == s.tasks
                else Asleep(s, side, ws[0]) && s'.tasks == s.tasks[ws[0] := s.tasks[ws[0]].(pc := Start)])
  {
    var s' := NotifyOne(s, side);
    var ws := CellOf(s, side).waiters;
    var other := if side.NotEmpty? then NotFull else NotEmpty;
    if ws != [] {
      assert Asleep(s, side, ws[0]);
      CellFrame(s, s', other);
      forall t | Asleep(s', side, t)
        ensures t in ws[1..]
      {
        assert Asleep(s, side, t);
        assert t != ws[0];
      }
    } else {
      CellFrame(s, s', other);
    }
  }

  lemma AwaitKeepsCells(s: State, t: nat)
    requires CellInv(s, NotEmpty) && CellInv(s, NotFull)
    requires t < |s.tasks| && s.tasks[t].pc.AboutToWait?
    ensures CellInv(Await(s, t), NotEmpty) && CellInv(Await(s, t), NotFull)
  {
    var s' := Await(s, t);
    var side := WaitsOn(s.tasks[t].op);
    var other := if side.NotEmpty? then NotFull else NotEmpty;
    CellFrame(s, s', other);
    var c := CellOf(s, side);
    if !c.permit {
      assert !Asleep(s, side, t);
      forall u | Asleep(s', side, u)
        ensures u in c.waiters + [t]
      {
        assert u == t || Asleep(s, side, u);
      }
    } else {
      assert forall u :: Asleep(s', side, u) ==> Asleep(s, side, u);
    }
  }

  /** Moving one task between points where it is awake leaves both cells alone. */
  lemma AwakeMoveKeepsCells(s: State, s': State, t: nat, pc: Pc)
    requires CellInv(s, NotEmpty) && CellInv(s, NotFull)
    requires t < |s.tasks| && !s.tasks[t].pc.Registered? && !pc.Registered?
    requires s'.notEmpty == s.notEmpty && s'.notFull == s.notFull
    requires s'.tasks == s.tasks[t := s.tasks[t].(pc := pc)]
    ensures CellInv(s', NotEmpty) && CellInv(s', NotFull)
  {
    CellFrame(s, s', NotEmpty);
    CellFrame(s, s', NotFull);
  }

  lemma CellStep(s: State, a: Action)
    requires Inv(s) && Step(s, a).Some?
    ensures CellInv(Step(s, a).value, NotEmpty) && CellInv(Step(s, a).value, NotFull)
  {
    var s' := Step(s, a).value;
    match a
    case Begin(_, _) =>
      CellFrame(s, s', NotEmpty);
      CellFrame(s, s', NotFull);
    case Refuse(t) => AwakeMoveKeepsCells(s, s', t, Finished(Failed(Busy)));
    case Run(t) =>
      match s.tasks[t].pc
      case AboutToWait => AwaitKeepsCells(s, t);
      case Changed(o) =>
        var side := Notifies(s.tasks[t].op);
        NotifyKeepsCells(s, side);
        AwakeMoveKeepsCells(NotifyOne(s, side), s', t, Notified(o));
      case Start => AwakeMoveKeepsCells(s, s', t, Locked);
      case Locked => AwakeMoveKeepsCells(s, s', t, s'.tasks[t].pc);
      case Notified(o) => AwakeMoveKeepsCells(s, s', t, Finished(o));
      case Registered =>
      case Finished(_) =>
  }

  /** One task moves; the lock is kept, taken or released in step with it. */
  lemma MoveKeepsLock(s: State, s': State, t: nat, pc: Pc)
    requires LockInv(s) && TasksInv(s) && t < |s.tasks|
    requires s'.tasks == s.tasks[t := s.tasks[t].(pc := pc)] && TaskInv(s'.tasks[t])
    requires || (s'.holder == s.holder && InCritical(s.tasks[t].pc) == InCritical(pc))
             || (s.holder == None && s'.holder == Some(t) && InCritical(pc))
             || (s.holder == Some(t) && s'.holder == None && !InCritical(pc))
    ensures LockInv(s') && TasksInv(s')
  {
  }

  lemma NotifyKeepsLock(s: State, t: nat)
    requires Inv(s) && t < |s.tasks| && s.tasks[t].pc.Changed?
    ensures LockInv(RunTask(s, t).value) && TasksInv(RunTask(s, t).value)
  {
    var side := Notifies(s.tasks[t].op);
    var s1 := NotifyOne(s, side);
    var ws := CellOf(s, side).waiters;
    NotifyKeepsCells(s, side);
    if ws != [] {
      MoveKeepsLock(s, s1, ws[0], Start);
    }
    MoveKeepsLock(s1, RunTask(s, t).value, t, Notified(s.tasks[t].pc.outcome));
  }

  lemma RunKeepsLock(s: State, t: nat)
    requires Inv(s) && CanRun(s, t)
    ensures LockInv(RunTask(s, t).value) && TasksInv(RunTask(s, t).value)
  {
    if s.tasks[t].pc.Changed? {
      NotifyKeepsLock(s, t);
    } else {
      var s' := RunTask(s, t).value;
      assert InCritical(s.tasks[t].pc) <==> s.holder == Some(t);
      MoveKeepsLock(s, s', t, s'.tasks[t].pc);
    }
  }

  lemma LockStep(s: State, a: Action)
    requires Inv(s) && Step(s, a).Some?
    ensures LockInv(Step(s, a).value) && TasksInv(Step(s, a).value)
  {
    match a
    case Begin(_, _) =>
    case Refuse(t) => MoveKeepsLock(s, Step(s, a).value, t, Finished(Failed(Busy)));
    case Run(t) => RunKeepsLock(s, t);
  }

  /** A wake-up stays under way while its carriers keep carrying it. */
  lemma CarriersKeepWakeUp(s: State, s': State, side: Side)
    requires WakeUpUnderWay(s, side) && |s.tasks| <= |s'.tasks|
    requires CellOf(s, side).permit ==> WakeUpUnderWay(s', side)
    requires forall u :: 0 <= u < |s.tasks| && Retrying(s.tasks[u], side) ==> Retrying(s'.tasks[u], side)
    requires forall u :: 0 <= u < |s.tasks| && Notifying(s.tasks[u], side) ==> Notifying(s'.tasks[u], side)
    ensures WakeUpUnderWay(s', side)
  {
  }

  lemma NotifyStepIsLive(s: State, t: nat)
    requires Inv(s) && t < |s.tasks| && s.tasks[t].pc.Changed?
    ensures Live(RunTask(s, t).value)
  {
    var s' := RunTask(s, t).value;
    var side := Notifies(s.tasks[t].op);
    var ws := CellOf(s, side).waiters;
    NotifyKeepsCells(s, side);
    assert WakeUpUnderWay(s', side) by {
      if ws != [] {
        assert Retrying(s'.tasks[ws[0]], side);
      }
    }
    if !Untouched(s) {
      var live :| Ready(s, live) && WakeUpUnderWay(s, live);
      if live != side {
        CarriersKeepWakeUp(s, s', live);
      }
    }
  }

  lemma AccessStepIsLive(s: State, t: nat)
    requires Inv(s) && t < |s.tasks| && s.tasks[t].pc.Locked?
    ensures Live(Access(s, t))
  {
    var s' := Access(s, t);
    if s'.tasks[t].pc.Changed? {
      var side := Notifies(s.tasks[t].op);
      assert Notifying(s'.tasks[t], side);
      assert Ready(s', side) && WakeUpUnderWay(s', side);
    } else if !Untouched(s) {
      assert !Ready(s, WaitsOn(s.tasks[t].op));
      var live :| Ready(s, live) && WakeUpUnderWay(s, live);
      CarriersKeepWakeUp(s, s', live);
    }
  }

  /** A step that neither looks at the ring nor notifies passes a wake-up on at most from the cell to a caller. */
  lemma OtherStepIsLive(s: State, a: Action)
    requires Inv(s) && Step(s, a).Some?
    requires a.Run? ==> !s.tasks[a.task].pc.Changed? && !s.tasks[a.task].pc.Locked?
    ensures Live(Step(s, a).value)
  {
    var s' := Step(s, a).value;
    if !Untouched(s) {
      var live :| Ready(s, live) && WakeUpUnderWay(s, live);
      if a.Run? && s.tasks[a.task].pc.AboutToWait? && CellOf(s, live).permit && WaitsOn(s.tasks[a.task].op) == live {
        assert Retrying(s'.tasks[a.task], live);
      }
      CarriersKeepWakeUp(s, s', live);
    }
  }

  lemma LiveStep(s: State, a: Action)
    requires Inv(s) && Step(s, a).Some?
    ensures Live(Step(s, a).value)
  {
    if a.Run? && s.tasks[a.task].pc.Changed? {
      NotifyStepIsLive(s, a.task);
    } else if a.Run? && s.tasks[a.task].pc.Locked? {
      AccessStepIsLive(s, a.task);
    } else {
      OtherStepIsLive(s, a);
    }
  }

  lemma InvStep(s: State, a: Action)
    requires Inv(s) && Step(s, a).Some?
    ensures Inv(Step(s, a).value)
  {
    LockStep(s, a);
    CellStep(s, a);
    LiveStep(s, a);
    if a.Run? && s.tasks[a.task].pc.Changed? {
      NotifyKeepsCells(s, Notifies(s.tasks[a.task].op));
    }
  }

  lemma {:induction false} InvRun(s: State, run: seq<Action>)
    requires Inv(s) && Exec(s, run).Some?
    ensures Inv(Exec(s, run).value)
    decreases |run|
  {
    if run != [] {
      InvStep(s, run[0]);
      InvRun(Step(s, run[0]).value, run[1..]);
    }
  }

  // ---------------------------------------------------------------- what every run keeps

  ghost predicate Reachable(s: State) {
    exists capacity: nat, run :: capacity > 0 && Exec(Init(capacity), run) == Some(s)
  }

  lemma ReachableInv(s: State)
    requires Reachable(s)
    ensures Inv(s)
  {
    var capacity: nat, run :| capacity > 0 && Exec(Init(capacity), run) == Some(s);
    InvRun(Init(capacity), run);
  }

  /** A task on whose move the wake-up of a side depends. */
  ghost predicate Carrier(s: State, side: Side, t: nat) {
    t < |s.tasks| && (Retrying(s.tasks[t], side) || Notifying(s.tasks[t], side))
  }

  /** While a wake-up is under way to a sleeper, some task carries it, and some task can run. */
  lemma CarrierOrHolderRuns(s: State, side: Side) returns (carrier: nat, runner: nat)
    requires Inv(s) && WakeUpUnderWay(s, side) && exists t :: Asleep(s, side, t)
    ensures Carrier(s, side, carrier) && CanRun(s, runner)
  {
    assert !CellOf(s, side).permit;  // its cell has a sleeper
    carrier :| 0 <= carrier < |s.tasks| && (Retrying(s.tasks[carrier], side) || Notifying(s.tasks[carrier], side));
    if s.holder.Some? {
      assert InCritical(s.tasks[s.holder.value].pc);
      runner := s.holder.value;
    } else {
      assert !InCritical(s.tasks[carrier].pc);
      assert !Notifying(s.tasks[carrier], side);
      runner := carrier;
    }
  }

  /** Never is a pusher asleep and a popper asleep with nobody able to move: once the ring
      has been used, some side is ready and a wake-up of that very side is under way. */
  lemma NoMutualStall(s: State, popper: nat, pusher: nat)
    requires Reachable(s)
    requires Asleep(s, NotEmpty, popper) && Asleep(s, NotFull, pusher)
    ensures exists side :: Ready(s, side) && WakeUpUnderWay(s, side)
    ensures exists t :: CanRun(s, t)
  {
    ReachableInv(s);
    var side :| Ready(s, side) && WakeUpUnderWay(s, side);
    assert Asleep(s, side, if side.NotEmpty? then popper else pusher);
    var carrier, runner := CarrierOrHolderRuns(s, side);
  }

  // ---------------------------------------------------------------- first in, first out, exactly once

  ghost function Events(log: seq<(nat, Event)>): seq<Event> {
    seq(|log|, i requires 0 <= i < |log| => log[i].1)
  }

  /** The call has pushed this event, or has popped it, and answers so. */
  predicate Answers(task: Task, e: Event, pushing: bool) {
    && (task.pc.Changed? || task.pc.Notified? || task.pc.Finished?)
    && if pushing then task.pc.outcome == Pushed && task.op == Push(e) else task.pc.outcome == Got(e)
  }

  /** The log names exactly the calls that answer so, each once. */
  ghost predicate LogInv(tasks: seq<Task>, log: seq<(nat, Event)>, pushing: bool) {
    && (forall i :: 0 <= i < |log| ==> log[i].0 < |tasks| && Answers(tasks[log[i].0], log[i].1, pushing))
    && (forall i, j :: 0 <= i < j < |log| ==> log[i].0 != log[j].0)
    && (forall t, e :: 0 <= t < |tasks| && Answers(tasks[t], e, pushing) ==> (t, e) in log)
  }

  /** Everything accepted was pushed by exactly one call answered Pushed, and is either still queued or
      was handed, in order, to exactly one caller; nobody else holds such an answer. */
  ghost predicate FifoInv(s: State) {
    && Events(s.accepted) == Events(s.delivered) + s.queue
    && LogInv(s.tasks, s.accepted, true)
    && LogInv(s.tasks, s.delivered, false)
  }

  lemma LogFrame(tasks: seq<Task>, tasks': seq<Task>, log: seq<(nat, Event)>, pushing: bool)
    requires LogInv(tasks, log, pushing) && |tasks| <= |tasks'|
    requires forall t, e :: 0 <= t < |tasks'| ==>
               (Answers(tasks'[t], e, pushing) <==> t < |tasks| && Answers(tasks[t], e, pushing))
    ensures LogInv(tasks', log, pushing)
  {
  }

  lemma LogAppend(tasks: seq<Task>, log: seq<(nat, Event)>, t: nat, task: Task, e: Event, pushing: bool)
    requires LogInv(tasks, log, pushing) && t < |tasks|
    requires (forall x :: !Answers(tasks[t], x, pushing)) && (forall x :: Answers(task, x, pushing) <==> x == e)
    ensures LogInv(tasks[t := task], log + [(t, e)], pushing)
  {
    var tasks', log' := tasks[t := task], log + [(t, e)];
    forall u, x | 0 <= u < |tasks'| && Answers(tasks'[u], x, pushing)
      ensures (u, x) in log'
    {
      if u == t {
        assert log'[|log|] == (t, e);
      } else {
        assert (u, x) in log;
      }
    }
  }

  lemma FifoFrame(s: State, s': State)
    requires FifoInv(s)
    requires s'.queue == s.queue && s'.accepted == s.accepted && s'.delivered == s.delivered
    requires |s.tasks| <= |s'.tasks|
    requires forall t, e, pushing :: 0 <= t < |s'.tasks| ==>
               (Answers(s'.tasks[t], e, pushing) <==> t < |s.tasks| && Answers(s.tasks[t], e, pushing))
    ensures FifoInv(s')
  {
    LogFrame(s.tasks, s'.tasks, s.accepted, true);
    LogFrame(s.tasks, s'.tasks, s.delivered, false);
  }

  lemma FifoGive(s: State, t: nat)
    requires FifoInv(s) && t < |s.tasks| && s.tasks[t].pc.Locked? && s.tasks[t].op.Push? && |s.queue| != s.capacity
    ensures FifoInv(Access(s, t))
  {
    var s' := Access(s, t);
    var e := s.tasks[t].op.event;
    LogAppend(s.tasks, s.accepted, t, s'.tasks[t], e, true);
    LogFrame(s.tasks, s'.tasks, s.delivered, false);
    assert Events(s'.accepted) == Events(s.accepted) + [e];
  }

  lemma FifoTake(s: State, t: nat)
    requires FifoInv(s) && t < |s.tasks| && s.tasks[t].pc.Locked? && s.tasks[t].op.Pop? && s.queue != []
    ensures FifoInv(Access(s, t))
  {
    var s' := Access(s, t);
    var e := s.queue[0];
    LogAppend(s.tasks, s.delivered, t, s'.tasks[t], e, false);
    LogFrame(s.tasks, s'.tasks, s.accepted, true);
    assert Events(s'.delivered) == Events(s.delivered) + [e];
  }

  lemma FifoAccess(s: State, t: nat)
    requires FifoInv(s) && t < |s.tasks| && s.tasks[t].pc.Locked?
    ensures FifoInv(Access(s, t))
  {
    if s.tasks[t].op.Pop? && s.queue != [] {
      FifoTake(s, t);
    } else if s.tasks[t].op.Push? && |s.queue| != s.capacity {
      FifoGive(s, t);
    } else {
      FifoFrame(s, Access(s, t));
    }
  }

  lemma FifoNotify(s: State, t: nat)
    requires Inv(s) && FifoInv(s) && t < |s.tasks| && s.tasks[t].pc.Changed?
    ensures FifoInv(RunTask(s, t).value)
  {
    var side := Notifies(s.tasks[t].op);
    NotifyKeepsCells(s, side);
    FifoFrame(s, NotifyOne(s, side));
    FifoFrame(NotifyOne(s, side), RunTask(s, t).value);
  }

  lemma FifoStep(s: State, a: Action)
    requires Inv(s) && FifoInv(s) && Step(s, a).Some?
    ensures FifoInv(Step(s, a).value)
  {
    if a.Run? && s.tasks[a.task].pc.Locked? {
      FifoAccess(s, a.task);
    } else if a.Run? && s.tasks[a.task].pc.Changed? {
      FifoNotify(s, a.task);
    } else {
      FifoFrame(s, Step(s, a).value);
    }
  }

  lemma {:induction false} FifoRun(s: State, run: seq<Action>)
    requires Inv(s) && FifoInv(s) && Exec(s, run).Some?
    ensures FifoInv(Exec(s, run).value)
    decreases |run|
  {
    if run != [] {
      InvStep(s, run[0]);
      FifoStep(s, run[0]);
      FifoRun(Step(s, run[0]).value, run[1..]);
    }
  }

  lemma ExactlyOnceInOrder(s: State)
    requires Reachable(s)
    ensures FifoInv(s) && |s.queue| <= s.capacity
  {
    ReachableInv(s);
    var capacity: nat, run :| capacity > 0 && Exec(Init(capacity), run) == Some(s);
    FifoRun(Init(capacity), run);
  }

  /** What finished calls answered, in every reachable state: a push Pushed, exactly if its event was accepted; a pop
      an event, exactly if it was delivered to it; and an error only if the call does not wait. */
  lemma AnswersAreTrue(s: State, t: nat)
    requires Reachable(s) && t < |s.tasks| && s.tasks[t].pc.Finished?
    ensures var task := s.tasks[t]; var o := task.pc.outcome;
            && (o == Pushed <==> task.op.Push? && (t, task.op.event) in s.accepted)
            && (forall e :: o == Got(e) <==> task.op.Pop? && (t, e) in s.delivered)
            && (o.Failed? ==> !task.waits && (o.error == Busy || o.error == if task.op.Push? then Full else Empty))
  {
    ReachableInv(s);
    ExactlyOnceInOrder(s);
    assert TaskInv(s.tasks[t]);
    var task := s.tasks[t];
    assert forall e :: task.pc.outcome == Got(e) ==> Answers(task, e, false);
    assert task.op.Push? && task.pc.outcome == Pushed ==> Answers(task, task.op.event, true);
  }

  /** The look at the ring, under the lock: a push succeeds exactly if there is room and puts its event last, a pop
      exactly if there is an event and takes the first; otherwise the ring stays, the lock is given
      back, a waiting call goes on to wait and the other one ends with the right error. */
  lemma AccessAnswers(s: State, t: nat)
    requires Inv(s) && t < |s.tasks| && s.tasks[t].pc.Locked?
    ensures var s' := RunTask(s, t).value; var task := s.tasks[t];
            && (s'.tasks[t].pc.Changed? <==> if task.op.Push? then |s.queue| < s.capacity else |s.queue| > 0)
            && (s'.tasks[t].pc == Changed(Pushed) ==> s'.queue == s.queue + [task.op.event])
            && (s'.tasks[t].pc.Changed? && task.op.Pop? ==> [s'.tasks[t].pc.outcome.event] + s'.queue == s.queue)
            && (s'.tasks[t].pc.Changed? ==> s'.holder == s.holder)
            && (!s'.tasks[t].pc.Changed? ==>
                  && s'.queue == s.queue && s'.holder == None
                  && s'.tasks[t].pc == if task.waits then AboutToWait
                                       else Finished(Failed(if task.op.Push? then Full else Empty)))
  {
  }

  /** Who can move: everybody but sleepers and finished calls, at the lock only while it is free; a call that
      does not wait may be refused there at any time, and only with Busy; and any call may begin at any time. */
  lemma WhoCanMove(s: State, t: nat)
    requires t < |s.tasks|
    ensures CanRun(s, t) <==> && !s.tasks[t].pc.Registered? && !s.tasks[t].pc.Finished?
                              && (s.tasks[t].pc.Start? ==> s.holder == None)
    ensures Step(s, Refuse(t)).Some? <==> s.tasks[t].pc.Start? && !s.tasks[t].waits
    ensures Step(s, Refuse(t)).Some? ==>
              Step(s, Refuse(t)).value == s.(tasks := s.tasks[t := s.tasks[t].(pc := Finished(Failed(Busy)))])
    ensures forall op, waits :: Step(s, Begin(op, waits)) == Some(s.(tasks := s.tasks + [Task(op, waits, Start)]))
  {
  }

  /** The step notifies this side. */
  predicate NotifiesNow(s: State, a: Action, side: Side) {
    a.Run? && a.task < |s.tasks| && s.tasks[a.task].pc.Changed? && Notifies(s.tasks[a.task].op) == side
  }

  /** The step is the first poll of a wait on this side. */
  predicate PollsNow(s: State, a: Action, side: Side) {
    a.Run? && a.task < |s.tasks| && s.tasks[a.task].pc.AboutToWait? && WaitsOn(s.tasks[a.task].op) == side
  }

  /** Sleepers of a side are woken in the order in which they fell asleep: a poll that finds no permit goes to the end
      of the list, a notification takes the first and sends it back to the lock, or stores the permit
      for the next poll when nobody sleeps, and nothing else touches the list or the permit. */
  lemma SleepersAreWokenInOrder(s: State, a: Action, side: Side)
    requires Inv(s) && Step(s, a).Some?
    ensures var s' := Step(s, a).value; var c, c' := CellOf(s, side), CellOf(s', side);
            if PollsNow(s, a, side) && c.permit then c' == Cell(false, []) && s'.tasks[a.task].pc == Start
            else if PollsNow(s, a, side) then
              c' == Cell(false, c.waiters + [a.task]) && s'.tasks[a.task].pc == Registered
            else if NotifiesNow(s, a, side) && c.waiters == [] then c' == Cell(true, [])
            else if NotifiesNow(s, a, side) then
              && c'.permit == c.permit && [c.waiters[0]] + c'.waiters == c.waiters
              && c.waiters[0] < |s'.tasks| && s'.tasks[c.waiters[0]].pc == Start
            else c' == c
  {
    if NotifiesNow(s, a, side) && CellOf(s, side).waiters != [] {
      NotifyKeepsCells(s, side);
      assert Asleep(s, side, CellOf(s, side).waiters[0]);
    } else if a.Run? && s.tasks[a.task].pc.Changed? {
      NotifyKeepsCells(s, Notifies(s.tasks[a.task].op));
    }
  }

  // ---------------------------------------------------------------- a sole waiting caller

  predicate Unfinished(task: Task, side: Side) {
    task.waits && WaitsOn(task.op) == side && !task.pc.Finished?
  }

  /** At most one awaiting call of this side is in progress. */
  ghost predicate AtMostOne(s: State, side: Side) {
    forall t, u | 0 <= t < |s.tasks| && 0 <= u < |s.tasks| ::
      Unfinished(s.tasks[t], side) && Unfinished(s.tasks[u], side) ==> t == u
  }

  /** A run along which that stays so; try-calls and callers of the other side are unlimited. */
  ghost predicate SoleRun(s: State, run: seq<Action>, side: Side)
    decreases |run|
  {
    && AtMostOne(s, side)
    && (run == [] || (Step(s, run[0]).Some? && SoleRun(Step(s, run[0]).value, run[1..], side)))
  }

  ghost predicate NotifyPending(s: State, side: Side) {
    exists u :: 0 <= u < |s.tasks| && Notifying(s.tasks[u], side)
  }

  ghost predicate SoleInv(s: State, side: Side) {
    forall t :: 0 <= t < |s.tasks| && Unfinished(s.tasks[t], side) && Ready(s, side) ==>
      && (s.tasks[t].pc.AboutToWait? ==> CellOf(s, side).permit || NotifyPending(s, side))
      && (s.tasks[t].pc.Registered? ==> NotifyPending(s, side))
  }

  lemma SoleNotifyStep(s: State, side: Side, u: nat)
    requires Inv(s) && AtMostOne(s, side) && SoleInv(s, side)
    requires u < |s.tasks| && s.tasks[u].pc.Changed?
    ensures SoleInv(RunTask(s, u).value, side)
  {
    var s' := RunTask(s, u).value;
    var notified := Notifies(s.tasks[u].op);
    var ws := CellOf(s, notified).waiters;
    NotifyKeepsCells(s, notified);
    assert ws != [] ==> Unfinished(s.tasks[ws[0]], notified);  // the woken sleeper is the only one of its side
    forall t | 0 <= t < |s'.tasks| && Unfinished(s'.tasks[t], side) && Ready(s', side)
      ensures s'.tasks[t].pc.AboutToWait? ==> CellOf(s', side).permit || NotifyPending(s', side)
      ensures s'.tasks[t].pc.Registered? ==> NotifyPending(s', side)
    {
      if s'.tasks[t].pc.AboutToWait? || s'.tasks[t].pc.Registered? {
        assert t != u && s'.tasks[t] == s.tasks[t] && Unfinished(s.tasks[t], side);
        if notified == side {
          if ws == [] {
            assert !Asleep(s, side, t);
          }
        } else {
          // only the lock holder notifies, and u is the holder
          assert InCritical(s.tasks[u].pc);
          assert forall v :: 0 <= v < |s.tasks| && Notifying(s.tasks[v], side) ==> InCritical(s.tasks[v].pc);
        }
      }
    }
  }

  /** Steps that touch neither this side's cell nor a notifier, and make nothing ready. */
  lemma SoleFrame(s: State, s': State, side: Side, x: nat)
    requires SoleInv(s, side) && CellOf(s', side) == CellOf(s, side)
    requires x <= |s.tasks| <= |s'.tasks| && x < |s'.tasks| <= Max(|s.tasks|, x + 1)
    requires forall u :: 0 <= u < |s.tasks| && u != x ==> s'.tasks[u] == s.tasks[u]
    requires x < |s.tasks| ==> !Notifying(s.tasks[x], side)
    requires !Unfinished(s'.tasks[x], side) || !(s'.tasks[x].pc.AboutToWait? || s'.tasks[x].pc.Registered?)
    requires Ready(s', side) ==> Ready(s, side)
    ensures SoleInv(s', side)
  {
  }

  lemma SoleAccessStep(s: State, side: Side, x: nat)
    requires Inv(s) && SoleInv(s, side) && x < |s.tasks| && s.tasks[x].pc.Locked?
    ensures SoleInv(Access(s, x), side)
  {
    var s' := Access(s, x);
    if s'.tasks[x].pc.Changed? && Notifies(s.tasks[x].op) == side {
      assert Notifying(s'.tasks[x], side);
    } else if Ready(s', side) {
      SoleFrame(s, s', side, x);
    }
  }

  lemma SoleAwaitStep(s: State, side: Side, x: nat)
    requires Inv(s) && AtMostOne(s, side) && SoleInv(s, side) && x < |s.tasks| && s.tasks[x].pc.AboutToWait?
    ensures SoleInv(Await(s, x), side)
  {
    var s' := Await(s, x);
    if WaitsOn(s.tasks[x].op) != side || s'.tasks[x].pc.Start? {
      if WaitsOn(s.tasks[x].op) != side {
        SoleFrame(s, s', side, x);
      } else {
        assert Unfinished(s.tasks[x], side);
        assert forall t :: 0 <= t < |s'.tasks| && t != x ==> !Unfinished(s.tasks[t], side);
      }
    } else {
      assert Unfinished(s.tasks[x], side);
      assert forall t :: 0 <= t < |s'.tasks| && t != x ==> !Unfinished(s.tasks[t], side);
      if NotifyPending(s, side) {
        var v :| 0 <= v < |s.tasks| && Notifying(s.tasks[v], side);
        assert Notifying(s'.tasks[v], side);
      }
    }
  }

  lemma SoleStep(s: State, side: Side, a: Action)
    requires Inv(s) && AtMostOne(s, side) && SoleInv(s, side) && Step(s, a).Some?
    ensures SoleInv(Step(s, a).value, side)
  {
    var s' := Step(s, a).value;
    match a
    case Begin(_, _) => SoleFrame(s, s', side, |s.tasks|);
    case Refuse(t) => SoleFrame(s, s', side, t);
    case Run(t) =>
      match s.tasks[t].pc
      case Start => SoleFrame(s, s', side, t);
      case Locked => SoleAccessStep(s, side, t);
      case Changed(_) => SoleNotifyStep(s, side, t);
      case Notified(_) => SoleFrame(s, s', side, t);
      case AboutToWait => SoleAwaitStep(s, side, t);
      case Registered =>
      case Finished(_) =>
  }

  lemma {:induction false} SoleInvRun(s: State, run: seq<Action>, side: Side)
    requires Inv(s) && SoleInv(s, side) && SoleRun(s, run, side)
    ensures Exec(s, run).Some? && SoleInv(Exec(s, run).value, side) && AtMostOne(Exec(s, run).value, side)
    decreases |run|
  {
    if run != [] {
      InvStep(s, run[0]);
      SoleStep(s, side, run[0]);
      SoleInvRun(Step(s, run[0]).value, run[1..], side);
    }
  }

  /** A sole awaiting caller never sleeps unwoken while it could proceed: if it is asleep and
      its side is ready, the lock holder's very next step wakes it. */
  lemma SoleCallerIsWoken(capacity: nat, run: seq<Action>, side: Side, t: nat)
    requires capacity > 0 && SoleRun(Init(capacity), run, side)
    requires Exec(Init(capacity), run).Some?
    requires var s := Exec(Init(capacity), run).value; Asleep(s, side, t) && Ready(s, side)
    ensures var s := Exec(Init(capacity), run).value;
            && s.holder.Some? && CanRun(s, s.holder.value)
            && RunTask(s, s.holder.value).value.tasks[t].pc.Start?
  {
    InvRun(Init(capacity), run);
    SoleInvRun(Init(capacity), run, side);
    SoleSleeperIsNext(Exec(Init(capacity), run).value, side, t);
  }

  lemma SoleSleeperIsNext(s: State, side: Side, t: nat)
    requires Inv(s) && SoleInv(s, side) && AtMostOne(s, side) && Asleep(s, side, t) && Ready(s, side)
    ensures s.holder.Some? && CanRun(s, s.holder.value) && RunTask(s, s.holder.value).value.tasks[t].pc.Start?
  {
    assert Unfinished(s.tasks[t], side);
    var u :| 0 <= u < |s.tasks| && Notifying(s.tasks[u], side);
    assert InCritical(s.tasks[u].pc);
    var ws := CellOf(s, side).waiters;
    assert Asleep(s, side, ws[0]) && Unfinished(s.tasks[ws[0]], side);
    NotifyKeepsCells(s, side);
  }

  // ---------------------------------------------------------------- and with more of them, not

  lemma {:induction false} ExecSnoc(s: State, run: seq<Action>, a: Action)
    requires Exec(s, run).Some?
    ensures Exec(s, run + [a]) == Step(Exec(s, run).value, a)
    decreases |run|
  {
    if run == [] {
      assert run + [a] == [a];
      if Step(s, a).Some? {
        assert Exec(Step(s, a).value, [a][1..]) == Some(Step(s, a).value);
      }
    } else {
      assert (run + [a])[1..] == run[1..] + [a];
      ExecSnoc(Step(s, run[0]).value, run[1..], a);
    }
  }

  lemma Go(s: State, a: Action) returns (s': State)
    requires Reachable(s) && Step(s, a).Some?
    ensures Reachable(s') && s' == Step(s, a).value
  {
    s' := Step(s, a).value;
    var capacity: nat, run :| capacity > 0 && Exec(Init(capacity), run) == Some(s);
    ExecSnoc(Init(capacity), run, a);
  }

  /** The call that waits on this side, and the call that wakes it. */
  function WaitingOp(side: Side, e: Event): Op { if side.NotEmpty? then Pop else Push(e) }

  function WakingOp(side: Side, e: Event): Op { if side.NotEmpty? then Push(e) else Pop }

  function Opposite(side: Side): Side { if side.NotEmpty? then NotFull else NotEmpty }

  /** How many calls that wait on this side the ring could serve now. */
  function Supply(s: State, side: Side): int {
    if side.NotEmpty? then |s.queue| else s.capacity - |s.queue|
  }

  predicate Resting(task: Task) { task.pc.Finished? || task.pc.Registered? }

  /** Between calls: the lock is free, nobody is on the way, nobody waits to be notified on the other side. */
  ghost predicate Calm(s: State, side: Side) {
    Reachable(s) && s.holder.None? && CellOf(s, Opposite(side)).waiters == []
  }

  /** A waiting call that finds its side not ready, up to the point just before it awaits. */
  lemma BlockedCall(s: State, side: Side, e: Event) returns (s': State)
    requires Calm(s, side) && !Ready(s, side)
    ensures Calm(s', side) && s' == s.(tasks := s.tasks + [Task(WaitingOp(side, e), true, AboutToWait)])
  {
    ReachableInv(s);
    var t := |s.tasks|;
    var s1 := Go(s, Begin(WaitingOp(side, e), true));
    var s2 := Go(s1, Run(t));
    s' := Go(s2, Run(t));
    assert s'.tasks == s.tasks + [Task(WaitingOp(side, e), true, AboutToWait)];
  }

  /** A call about to take the free lock succeeds; nobody is registered where it notifies, so it stores the permit. */
  lemma SucceedingCall(s: State, t: nat) returns (s': State)
    requires Reachable(s) && s.holder.None? && t < |s.tasks| && s.tasks[t].pc.Start?
    requires Ready(s, WaitsOn(s.tasks[t].op)) && CellOf(s, Notifies(s.tasks[t].op)).waiters == []
    ensures Reachable(s') && s'.holder.None? && s'.capacity == s.capacity
    ensures Supply(s', Notifies(s.tasks[t].op)) == Supply(s, Notifies(s.tasks[t].op)) + 1
    ensures CellOf(s', Notifies(s.tasks[t].op)) == Cell(true, [])
    ensures CellOf(s', WaitsOn(s.tasks[t].op)) == CellOf(s, WaitsOn(s.tasks[t].op))
    ensures |s'.tasks| == |s.tasks| && s'.tasks[t].pc.Finished?
    ensures forall u :: 0 <= u < |s.tasks| && u != t ==> s'.tasks[u] == s.tasks[u]
  {
    var s1 := Go(s, Run(t));
    var s2 := Go(s1, Run(t));
    var s3 := Go(s2, Run(t));
    s' := Go(s3, Run(t));
  }

  /** A whole call that wakes this side while nobody is registered there. */
  lemma WholeCall(s: State, side: Side, e: Event) returns (s': State)
    requires Calm(s, side) && Ready(s, Opposite(side)) && CellOf(s, side).waiters == []
    ensures Calm(s', side) && s'.capacity == s.capacity && Supply(s', side) == Supply(s, side) + 1
    ensures CellOf(s', side) == Cell(true, []) && CellOf(s', Opposite(side)) == CellOf(s, Opposite(side))
    ensures |s'.tasks| == |s.tasks| + 1 && s'.tasks[..|s.tasks|] == s.tasks && s'.tasks[|s.tasks|].pc.Finished?
  {
    var s1 := Go(s, Begin(WakingOp(side, e), true));
    s' := SucceedingCall(s1, |s.tasks|);
  }

  /** A waiting call that finds a permit, looks again and succeeds. */
  lemma ResumedCall(s: State, side: Side, t: nat) returns (s': State)
    requires Calm(s, side) && Ready(s, side) && CellOf(s, side) == Cell(true, [])
    requires t < |s.tasks| && s.tasks[t].pc.AboutToWait? && WaitsOn(s.tasks[t].op) == side
    ensures Calm(s', side) && s'.capacity == s.capacity && Supply(s', side) == Supply(s, side) - 1
    ensures CellOf(s', side) == Cell(false, [])
    ensures |s'.tasks| == |s.tasks| && s'.tasks[t].pc.Finished?
    ensures forall u :: 0 <= u < |s.tasks| && u != t ==> s'.tasks[u] == s.tasks[u]
  {
    var s1 := Go(s, Run(t));
    s' := SucceedingCall(s1, t);
  }

  /** Pushes until the ring is full. */
  lemma {:induction false} FillUp(capacity: nat, k: nat, e: Event) returns (s: State)
    requires 0 < capacity && k <= capacity
    ensures Calm(s, NotFull) && Calm(s, NotEmpty) && s.capacity == capacity && |s.queue| == k
    ensures s.notFull == Cell(false, []) && forall t :: 0 <= t < |s.tasks| ==> s.tasks[t].pc.Finished?
    decreases k
  {
    if k == 0 {
      s := Init(capacity);
      assert Exec(Init(capacity), []) == Some(s);
    } else {
      var s1 := FillUp(capacity, k - 1, e);
      s := WholeCall(s1, NotEmpty, e);
    }
  }

  /** A ring on which this side cannot proceed: empty, or filled up. */
  lemma NothingToTake(capacity: nat, side: Side, e: Event) returns (s: State)
    requires 0 < capacity
    ensures Calm(s, side) && s.capacity == capacity && Supply(s, side) == 0
    ensures CellOf(s, side) == Cell(false, []) && forall t :: 0 <= t < |s.tasks| ==> s.tasks[t].pc.Finished?
  {
    if side.NotEmpty? {
      s := Init(capacity);
      assert Exec(Init(capacity), []) == Some(s);
    } else {
      s := FillUp(capacity, capacity, e);
    }
  }

  /** A sleeper whose side is ready, and nobody who could move. */
  ghost predicate Stalled(s: State, side: Side) {
    Ready(s, side) && (exists t :: Asleep(s, side, t)) && forall t :: !CanRun(s, t)
  }

  /** Two waiting calls have found nothing, and two calls that should wake them have stored one permit. */
  lemma TwoAboutToWait(capacity: nat, side: Side, e: Event) returns (s: State, n: nat)
    requires 2 <= capacity
    ensures Calm(s, side) && s.capacity == capacity && Supply(s, side) == 2 && CellOf(s, side) == Cell(true, [])
    ensures n + 1 < |s.tasks|
    ensures s.tasks[n] == s.tasks[n + 1] == Task(WaitingOp(side, e), true, AboutToWait)
    ensures forall t :: 0 <= t < |s.tasks| && t != n && t != n + 1 ==> s.tasks[t].pc.Finished?
  {
    var s0 := NothingToTake(capacity, side, e);
    n := |s0.tasks|;
    var s1 := BlockedCall(s0, side, e);
    var s2 := BlockedCall(s1, side, e);
    var s3 := WholeCall(s2, side, e);
    s := WholeCall(s3, side, e);
    assert forall t :: 0 <= t < |s2.tasks| ==> s.tasks[t] == s3.tasks[t] == s2.tasks[t];
  }

  /** The notifications have coalesced: the second waiter comes too late for the permit and sleeps
      beside what it waits for. */
  lemma TwoWaitersCanStall(capacity: nat, side: Side, e: Event) returns (s: State)
    requires 2 <= capacity
    ensures Reachable(s) && s.capacity == capacity && Stalled(s, side)
  {
    var s1, n := TwoAboutToWait(capacity, side, e);
    var s2 := ResumedCall(s1, side, n);  // consumes the one permit
    s := Go(s2, Run(n + 1));             // finds none and registers
    assert Asleep(s, side, n + 1);
    assert forall t :: 0 <= t < |s.tasks| ==> Resting(s.tasks[t]);
  }

  /** With one slot, whatever number of callers wait: a ready side cannot be the other one,
      so the wake-up that is under way is the sleeper's. */
  lemma OneSlotNeverStalls(s: State, side: Side, t: nat)
    requires Reachable(s) && s.capacity == 1 && Asleep(s, side, t) && Ready(s, side)
    ensures exists u :: CanRun(s, u)
    ensures exists u :: Carrier(s, side, u)
  {
    ReachableInv(s);
    var live :| Ready(s, live) && WakeUpUnderWay(s, live);
    assert live == side;
    var carrier, runner := CarrierOrHolderRuns(s, side);
  }

  ghost predicate CanStall(capacity: nat, side: Side) {
    exists s :: Reachable(s) && s.capacity == capacity && Stalled(s, side)
  }

  /** On either side, with any number of callers, a sleeper can be left beside a ready ring for good
      if and only if the ring has at least two slots. */
  lemma StallsIffTwoSlots(capacity: nat, side: Side)
    requires 0 < capacity
    ensures CanStall(capacity, side) <==> 2 <= capacity
  {
    if 2 <= capacity {
      var s := TwoWaitersCanStall(capacity, side, Event(0, PositionChanged, Service));
    } else if CanStall(capacity, side) {
      var s :| Reachable(s) && s.capacity == capacity && Stalled(s, side);
      var t :| Asleep(s, side, t);
      OneSlotNeverStalls(s, side, t);
    }
  }
}
