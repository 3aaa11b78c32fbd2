/** The connection pool: semaphore permits, an idle stack, checkouts, prewarm loops and
    two ways of ending a session.

    Every `.await` of the source is a point where other tasks run, so each task is a program
    point and each action one atomic step of one task; `ok` is the free outcome of the
    awaited call. A task that ends a session by `Drop` splits: the permit goes back at once
    while an orphan task resets and returns the connection.
  */
module ConnectionPool {
  import opened Wrappers
  import opened ProtocolConnection

  datatype Config = Config(maxSize: nat, minSize: nat, maxIdle: Option<nat>)

  datatype Pooled = Pooled(id: nat, lastUsed: nat, conn: Conn)

  /** On whose behalf a connection is opened or returned; an orphan holds no permit. */
  datatype Owner = Caller | Orphan | Loop(budget: nat)

  datatype Pc =
    | AwaitPermit
    | HasPermit                         // about to pop the idle stack
    | Taken(p: Pooled, poppedAt: nat)   // popped; recycle check next
    | Pinging(p: Pooled, poppedAt: nat, checkedAt: nat)  // not too old; health check next
    | Replacing(p: Pooled)              // closing a stale or sick connection, then connecting
    | Connecting(owner: Owner)
    | InUse(p: Pooled)
    | Resetting(p: Pooled, owner: Owner)
    | Rechecking(p: Pooled, owner: Owner)
    | Deciding(p: Pooled, owner: Owner) // recycle check of the return path
    | Stamping(p: Pooled, owner: Owner) // about to set last_used
    | Pushing(p: Pooled, owner: Owner)  // about to push onto the idle stack
    | Closing(p: Pooled, owner: Owner)
    | Leaving(owner: Owner)             // about to give the permit back
    | LoopTop                           // prewarm: about to count the idle stack
    | LoopRound(budget: nat)            // prewarm: `budget` attempts left in this round
    | Done

  /** What is known about a connection at the moment a session gets it. */
  datatype Grant = Grant(task: nat, p: Pooled, reused: bool, poppedAt: nat, checkedAt: nat, at: nat)

  datatype Shared = Shared(
    free: nat,            // semaphore permits
    idle: seq<Pooled>,    // stack, top last
    nextId: nat,
    now: nat,
    closed: seq<nat>,     // history
    granted: seq<Grant>,  // history
    drops: nat,           // history: sessions ended by Drop
    loops: nat)           // history: prewarm loops started

  datatype State = State(sh: Shared, tasks: seq<Pc>)

  datatype Action =
    | BeginSession
    | StartPrewarm
    | Advance(task: nat, ok: bool)
    | TimeOut(task: nat)
    | Use(task: nat)
    | Release(task: nat)
    | Drop(task: nat)
    | Elapse(ticks: nat)

  function Init(cfg: Config): State {
    State(Shared(cfg.maxSize, [], 1, 0, [], [], 0, 0), [])
  }

  predicate ShouldRecycle(cfg: Config, sh: Shared, p: Pooled) {
    cfg.maxIdle.Some? && sh.now - p.lastUsed > cfg.maxIdle.value
  }

  /** One step of one task on the shared state; None when it must wait. */
  function Move(cfg: Config, sh: Shared, t: nat, pc: Pc, ok: bool): Option<(Shared, Pc)> {
    match pc
    case AwaitPermit => if sh.free > 0 then Some((sh.(free := sh.free - 1), HasPermit)) else None
    case HasPermit =>
      if sh.idle == [] then Some((sh, Connecting(Caller)))
      else
        var top := sh.idle[|sh.idle| - 1];
        Some((sh.(idle := sh.idle[..|sh.idle| - 1]), Taken(top.(conn := TakenOut(top.conn)), sh.now)))
    case Taken(p, popped) =>
      Some((sh, if ShouldRecycle(cfg, sh, p) then Replacing(p) else Pinging(p, popped, sh.now)))
    case Pinging(p, popped, checked) =>
      var (c, healthy) := HealthCheck(p.conn, ok);
      var p' := p.(conn := c);
      if healthy then Some((sh.(granted := sh.granted + [Grant(t, p', true, popped, checked, sh.now)]), InUse(p')))
      else Some((sh, Replacing(p')))
    case Replacing(p) => Some((sh.(closed := sh.closed + [p.id]), Connecting(Caller)))
    case Connecting(owner) =>
      (match Connect(true, ok)
       case None => Some((sh, Leaving(owner)))
       case Some(c) =>
         var p := Pooled(sh.nextId, sh.now, c);
         var sh' := sh.(nextId := sh.nextId + 1);
         var g := Grant(t, p, false, sh.now, sh.now, sh.now);
         if owner.Caller? then Some((sh'.(granted := sh.granted + [g]), InUse(p)))
         else Some((sh', Stamping(p, owner))))
    case InUse(_) => None
    case Resetting(p, owner) =>
      var (c, done) := Reset(p.conn, ok);
      Some((sh, if done then Rechecking(p.(conn := c), owner) else Closing(p.(conn := c), owner)))
    case Rechecking(p, owner) =>
      var (c, healthy) := HealthCheck(p.conn, ok);
      Some((sh, if healthy then Deciding(p.(conn := c), owner) else Closing(p.(conn := c), owner)))
    case Deciding(p, owner) =>
      Some((sh, if ShouldRecycle(cfg, sh, p) then Closing(p, owner) else Stamping(p, owner)))
    case Stamping(p, owner) => Some((sh, Pushing(p.(lastUsed := sh.now), owner)))
    case Pushing(p, owner) => Some((sh.(idle := sh.idle + [p]), Leaving(owner)))
    case Closing(p, owner) => Some((sh.(closed := sh.closed + [p.id]), Leaving(owner)))
    case Leaving(owner) =>
      (match owner
       case Caller => Some((sh.(free := sh.free + 1), Done))
       case Orphan => Some((sh, Done))
       case Loop(b) => Some((sh.(free := sh.free + 1), LoopRound(b))))
    case LoopTop =>
      Some((sh, LoopRound(if |sh.idle| < cfg.minSize then cfg.minSize - |sh.idle| else 0)))
    case LoopRound(b) =>
      // `ok` is whether try_acquire got a permit; it may also fail while one is promised to a waiter
      if b == 0 then Some((sh, LoopTop))
      else if ok then (if sh.free > 0 then Some((sh.(free := sh.free - 1), Connecting(Loop(b - 1)))) else None)
      else Some((sh, LoopRound(b - 1)))
    case Done => None
  }

  function Step(cfg: Config, s: State, a: Action): Option<State> {
    match a
    case BeginSession => Some(s.(tasks := s.tasks + [AwaitPermit]))
    case StartPrewarm =>
      if cfg.minSize == 0 then Some(s)
      else Some(State(s.sh.(loops := s.sh.loops + 1), s.tasks + [LoopTop]))
    case Advance(t, ok) =>
      if t < |s.tasks| then
        (match Move(cfg, s.sh, t, s.tasks[t], ok)
         case None => None
         case Some((sh, pc)) => Some(State(sh, s.tasks[t := pc])))
      else None
    case TimeOut(t) =>
      if t < |s.tasks| && s.tasks[t].AwaitPermit? then Some(s.(tasks := s.tasks[t := Done])) else None
    case Use(t) =>
      if t < |s.tasks| && s.tasks[t].InUse? then
        var p := s.tasks[t].p;
        Some(s.(tasks := s.tasks[t := InUse(p.(conn := Traffic(p.conn)))]))
      else None
    case Release(t) =>
      if t < |s.tasks| && s.tasks[t].InUse?
      then Some(s.(tasks := s.tasks[t := Resetting(s.tasks[t].p, Caller)])) else None
    case Drop(t) =>
      if t < |s.tasks| && s.tasks[t].InUse? then
        Some(State(s.sh.(drops := s.sh.drops + 1), s.tasks[t := Leaving(Caller)] + [Resetting(s.tasks[t].p, Orphan)]))
      else None
    case Elapse(ticks) => Some(s.(sh := s.sh.(now := s.sh.now + ticks)))
  }

  function Exec(cfg: Config, s: State, run: seq<Action>): Option<State>
    decreases |run|
  {
    if run == [] then Some(s)
    else match Step(cfg, s, run[0])
      case None => None
      case Some(s') => Exec(cfg, s', run[1..])
  }

  // ---------------------------------------------------------------- counting

  /** The total weight of all tasks. */
  function Sum(ts: seq<Pc>, w: Pc -> nat): nat {
    if ts == [] then 0 else Sum(ts[..|ts| - 1], w) + w(ts[|ts| - 1])
  }

  lemma SumAppend(ts: seq<Pc>, x: Pc, w: Pc -> nat)
    ensures Sum(ts + [x], w) == Sum(ts, w) + w(x)
  {
    assert (ts + [x])[..|ts|] == ts;
  }

  lemma {:induction false} SumUpdate(ts: seq<Pc>, t: nat, x: Pc, w: Pc -> nat)
    requires t < |ts|
    ensures Sum(ts[t := x], w) + w(ts[t]) == Sum(ts, w) + w(x)
    decreases |ts|
  {
    var n := |ts| - 1;
    if t < n {
      SumUpdate(ts[..n], t, x, w);
      assert ts[t := x][..n] == ts[..n][t := x];
    } else {
      assert ts[t := x][..n] == ts[..n];
    }
  }

  /** For whom a task is working on a connection, if it is. */
  function OwnerOf(pc: Pc): Option<Owner> {
    match pc
    case HasPermit | Taken(_, _) | Pinging(_, _, _) | Replacing(_) | InUse(_) => Some(Caller)
    case Connecting(o) => Some(o)
    case Resetting(_, o) => Some(o)
    case Rechecking(_, o) => Some(o)
    case Deciding(_, o) => Some(o)
    case Stamping(_, o) => Some(o)
    case Pushing(_, o) => Some(o)
    case Closing(_, o) => Some(o)
    case Leaving(o) => Some(o)
    case AwaitPermit | LoopTop | LoopRound(_) | Done => None
  }

  /** The connection in a task's hands. */
  function Carried(pc: Pc): Option<Pooled> {
    match pc
    case Taken(p, _) => Some(p)
    case Pinging(p, _, _) => Some(p)
    case Replacing(p) => Some(p)
    case InUse(p) => Some(p)
    case Resetting(p, _) => Some(p)
    case Rechecking(p, _) => Some(p)
    case Deciding(p, _) => Some(p)
    case Stamping(p, _) => Some(p)
    case Pushing(p, _) => Some(p)
    case Closing(p, _) => Some(p)
    case _ => None
  }

  function PermitsHeld(pc: Pc): nat { if OwnerOf(pc).Some? && !OwnerOf(pc).value.Orphan? then 1 else 0 }

  function Orphans(pc: Pc): nat { if OwnerOf(pc) == Some(Orphan) then 1 else 0 }

  /** Connections a task holds open or is opening. */
  function OpenOrOpening(pc: Pc): nat { if Carried(pc).Some? || pc.Connecting? then 1 else 0 }

  function LiveSessions(pc: Pc): nat { if pc.InUse? then 1 else 0 }

  function Loops(pc: Pc): nat {
    if pc.LoopTop? || pc.LoopRound? || (OwnerOf(pc).Some? && OwnerOf(pc).value.Loop?) then 1 else 0
  }

  function Cap(cfg: Config, pc: Pc): nat { if Loops(pc) == 1 then cfg.minSize else 0 }

  /** Connections a prewarm loop may still add in its current round. */
  function BudgetLeft(pc: Pc): nat {
    if pc.LoopRound? then pc.budget
    else if OwnerOf(pc).Some? && OwnerOf(pc).value.Loop? then OwnerOf(pc).value.budget
    else 0
  }

  /** Everything open, plus everything already decided to be opened. */
  function Committed(s: State): nat {
    |s.sh.idle| + Sum(s.tasks, OpenOrOpening) + Sum(s.tasks, BudgetLeft)
  }

  /** Open connections, including those being opened or closed. */
  function Open(s: State): nat {
    |s.sh.idle| + Sum(s.tasks, OpenOrOpening)
  }

  ghost predicate PermitInv(cfg: Config, s: State) {
    && s.sh.free + Sum(s.tasks, PermitsHeld) == cfg.maxSize
    && Sum(s.tasks, Orphans) <= s.sh.drops
    && Sum(s.tasks, Loops) == s.sh.loops
  }

  ghost predicate BudgetInv(cfg: Config, s: State) {
    forall t :: 0 <= t < |s.tasks| ==> BudgetLeft(s.tasks[t]) <= Cap(cfg, s.tasks[t])
  }

  ghost predicate BoundInv(cfg: Config, s: State) {
    Committed(s) <= cfg.maxSize + cfg.minSize * s.sh.loops + s.sh.drops
  }

  /** What one move does to the semaphore and the counters of its task. */
  lemma MoveBalances(cfg: Config, sh: Shared, t: nat, pc: Pc, ok: bool)
    requires Move(cfg, sh, t, pc, ok).Some?
    ensures var (sh', pc') := Move(cfg, sh, t, pc, ok).value;
            && sh'.free + PermitsHeld(pc') == sh.free + PermitsHeld(pc)
            && Orphans(pc') <= Orphans(pc) && Loops(pc') == Loops(pc)
            && sh'.drops == sh.drops && sh'.loops == sh.loops
            && (BudgetLeft(pc) <= Cap(cfg, pc) ==> BudgetLeft(pc') <= Cap(cfg, pc'))
  {
  }

  /** Only two moves can raise the commitment: deciding to connect because the idle stack was
      empty, and a prewarm loop starting a new round. */
  lemma MoveKeepsCommitment(cfg: Config, sh: Shared, t: nat, pc: Pc, ok: bool)
    requires Move(cfg, sh, t, pc, ok).Some?
    requires !(pc.HasPermit? && sh.idle == []) && !pc.LoopTop?
    ensures var (sh', pc') := Move(cfg, sh, t, pc, ok).value;
            |sh'.idle| + OpenOrOpening(pc') + BudgetLeft(pc') <= |sh.idle| + OpenOrOpening(pc) + BudgetLeft(pc)
  {
  }

  lemma UpdateCounts(ts: seq<Pc>, t: nat, x: Pc)
    requires t < |ts|
    ensures Sum(ts[t := x], PermitsHeld) + PermitsHeld(ts[t]) == Sum(ts, PermitsHeld) + PermitsHeld(x)
    ensures Sum(ts[t := x], Orphans) + Orphans(ts[t]) == Sum(ts, Orphans) + Orphans(x)
    ensures Sum(ts[t := x], Loops) + Loops(ts[t]) == Sum(ts, Loops) + Loops(x)
    ensures Sum(ts[t := x], OpenOrOpening) + OpenOrOpening(ts[t]) == Sum(ts, OpenOrOpening) + OpenOrOpening(x)
    ensures Sum(ts[t := x], BudgetLeft) + BudgetLeft(ts[t]) == Sum(ts, BudgetLeft) + BudgetLeft(x)
  {
    SumUpdate(ts, t, x, PermitsHeld);
    SumUpdate(ts, t, x, Orphans);
    SumUpdate(ts, t, x, Loops);
    SumUpdate(ts, t, x, OpenOrOpening);
    SumUpdate(ts, t, x, BudgetLeft);
  }

  lemma AppendCounts(ts: seq<Pc>, x: Pc)
    ensures Sum(ts + [x], PermitsHeld) == Sum(ts, PermitsHeld) + PermitsHeld(x)
    ensures Sum(ts + [x], Orphans) == Sum(ts, Orphans) + Orphans(x)
    ensures Sum(ts + [x], Loops) == Sum(ts, Loops) + Loops(x)
    ensures Sum(ts + [x], OpenOrOpening) == Sum(ts, OpenOrOpening) + OpenOrOpening(x)
    ensures Sum(ts + [x], BudgetLeft) == Sum(ts, BudgetLeft) + BudgetLeft(x)
  {
  }

  /** Tasks can hold at most what permits and drops allow, and loops at most their budgets. */
  lemma TotalsAreBounded(cfg: Config, s: State)
    requires PermitInv(cfg, s) && BudgetInv(cfg, s)
    ensures Sum(s.tasks, OpenOrOpening) <= cfg.maxSize + s.sh.drops
    ensures Sum(s.tasks, BudgetLeft) <= cfg.minSize * s.sh.loops
  {
    SumOfTwo(s.tasks);
    BudgetsAreCapped(cfg, s.tasks);
  }

  lemma {:induction false} BudgetsAreCapped(cfg: Config, ts: seq<Pc>)
    requires forall t :: 0 <= t < |ts| ==> BudgetLeft(ts[t]) <= Cap(cfg, ts[t])
    ensures Sum(ts, BudgetLeft) <= cfg.minSize * Sum(ts, Loops)
    decreases |ts|
  {
    if ts != [] {
      var n := |ts| - 1;
      BudgetsAreCapped(cfg, ts[..n]);
      assert cfg.minSize * (Sum(ts[..n], Loops) + 1) == cfg.minSize * Sum(ts[..n], Loops) + cfg.minSize;
    }
  }

  lemma {:induction false} SumOfTwo(ts: seq<Pc>)
    ensures Sum(ts, OpenOrOpening) <= Sum(ts, PermitsHeld) + Sum(ts, Orphans)
    decreases |ts|
  {
    if ts != [] {
      SumOfTwo(ts[..|ts| - 1]);
    }
  }

  /** A task changes its program point without moving any count. */
  predicate SameCounts(pc: Pc, x: Pc) {
    && PermitsHeld(pc) == PermitsHeld(x) && Orphans(pc) == Orphans(x) && Loops(pc) == Loops(x)
    && OpenOrOpening(pc) == OpenOrOpening(x) && BudgetLeft(pc) == BudgetLeft(x)
  }

  ghost predicate PoolInv(cfg: Config, s: State) {
    PermitInv(cfg, s) && BudgetInv(cfg, s) && BoundInv(cfg, s)
  }

  lemma QuietUpdate(cfg: Config, s: State, t: nat, x: Pc)
    requires PoolInv(cfg, s) && t < |s.tasks| && SameCounts(s.tasks[t], x)
    ensures PoolInv(cfg, s.(tasks := s.tasks[t := x]))
  {
    UpdateCounts(s.tasks, t, x);
  }

  lemma AdvanceKeepsPermits(cfg: Config, s: State, t: nat, ok: bool)
    requires PermitInv(cfg, s) && BudgetInv(cfg, s) && Step(cfg, s, Advance(t, ok)).Some?
    ensures var s' := Step(cfg, s, Advance(t, ok)).value; PermitInv(cfg, s') && BudgetInv(cfg, s')
  {
    var (sh', x) := Move(cfg, s.sh, t, s.tasks[t], ok).value;
    MoveBalances(cfg, s.sh, t, s.tasks[t], ok);
    UpdateCounts(s.tasks, t, x);
  }

  /** Deciding to connect on an empty idle stack: the permits and drops bound the rest. */
  lemma ConnectDecision(cfg: Config, s: State, t: nat, ok: bool)
    requires PoolInv(cfg, s) && t < |s.tasks| && s.tasks[t].HasPermit? && s.sh.idle == []
    ensures BoundInv(cfg, Step(cfg, s, Advance(t, ok)).value)
  {
    AdvanceKeepsPermits(cfg, s, t, ok);
    TotalsAreBounded(cfg, Step(cfg, s, Advance(t, ok)).value);
  }

  /** A new prewarm round: with an empty idle stack it would have the whole minimum to add. */
  lemma RoundDecision(cfg: Config, s: State, t: nat, x: Pc)
    requires PoolInv(cfg, s) && t < |s.tasks| && s.tasks[t].LoopTop?
    requires x.LoopRound? && x.budget + Min(|s.sh.idle|, cfg.minSize) == cfg.minSize
    ensures BoundInv(cfg, s.(tasks := s.tasks[t := x]))
  {
    var full := LoopRound(cfg.minSize);
    var h := s.(tasks := s.tasks[t := full]);
    UpdateCounts(s.tasks, t, full);
    UpdateCounts(s.tasks, t, x);
    TotalsAreBounded(cfg, h);
    assert Sum(h.tasks, BudgetLeft) == Sum(s.tasks[t := x], BudgetLeft) + Min(|s.sh.idle|, cfg.minSize);
    assert cfg.minSize <= |s.sh.idle| ==> x.budget == 0;
  }

  lemma PlainAdvance(cfg: Config, s: State, t: nat, ok: bool)
    requires PoolInv(cfg, s) && Step(cfg, s, Advance(t, ok)).Some?
    requires !(s.tasks[t].HasPermit? && s.sh.idle == []) && !s.tasks[t].LoopTop?
    ensures BoundInv(cfg, Step(cfg, s, Advance(t, ok)).value)
  {
    var (sh', x) := Move(cfg, s.sh, t, s.tasks[t], ok).value;
    MoveKeepsCommitment(cfg, s.sh, t, s.tasks[t], ok);
    MoveBalances(cfg, s.sh, t, s.tasks[t], ok);
    UpdateCounts(s.tasks, t, x);
  }

  lemma DropKeepsPool(cfg: Config, s: State, t: nat)
    requires PoolInv(cfg, s) && t < |s.tasks| && s.tasks[t].InUse?
    ensures PoolInv(cfg, Step(cfg, s, Drop(t)).value)
  {
    var ts := s.tasks[t := Leaving(Caller)];
    var orphan := Resetting(s.tasks[t].p, Orphan);
    UpdateCounts(s.tasks, t, Leaving(Caller));
    AppendCounts(ts, orphan);
    var s' := State(s.sh.(drops := s.sh.drops + 1), ts + [orphan]);
    assert PermitInv(cfg, s') && BudgetInv(cfg, s');
    assert Committed(s') == Committed(s);
  }

  lemma BeginKeepsPool(cfg: Config, s: State)
    requires PoolInv(cfg, s)
    ensures PoolInv(cfg, s.(tasks := s.tasks + [AwaitPermit]))
  {
    AppendCounts(s.tasks, AwaitPermit);
  }

  lemma StartPrewarmKeepsPermits(cfg: Config, s: State)
    requires PermitInv(cfg, s) && BudgetInv(cfg, s)
    ensures var s' := State(s.sh.(loops := s.sh.loops + 1), s.tasks + [LoopTop]);
            PermitInv(cfg, s') && BudgetInv(cfg, s') && Committed(s') == Committed(s)
  {
    AppendCounts(s.tasks, LoopTop);
  }

  lemma StartPrewarmKeepsPool(cfg: Config, s: State)
    requires PoolInv(cfg, s)
    ensures PoolInv(cfg, State(s.sh.(loops := s.sh.loops + 1), s.tasks + [LoopTop]))
  {
    StartPrewarmKeepsPermits(cfg, s);
    MulMonotone(cfg.minSize, s.sh.loops, s.sh.loops + 1);
  }

  lemma AdvanceKeepsPool(cfg: Config, s: State, t: nat, ok: bool)
    requires PoolInv(cfg, s) && Step(cfg, s, Advance(t, ok)).Some?
    ensures PoolInv(cfg, Step(cfg, s, Advance(t, ok)).value)
  {
    AdvanceKeepsPermits(cfg, s, t, ok);
    if s.tasks[t].HasPermit? && s.sh.idle == [] {
      ConnectDecision(cfg, s, t, ok);
    } else if s.tasks[t].LoopTop? {
      RoundDecision(cfg, s, t, Move(cfg, s.sh, t, s.tasks[t], ok).value.1);
    } else {
      PlainAdvance(cfg, s, t, ok);
    }
  }

  lemma UseOrReleaseKeepsPool(cfg: Config, s: State, t: nat, x: Pc)
    requires PoolInv(cfg, s) && t < |s.tasks| && s.tasks[t].InUse?
    requires x.InUse? || (x.Resetting? && x.owner == Caller)
    ensures PoolInv(cfg, s.(tasks := s.tasks[t := x]))
  {
    QuietUpdate(cfg, s, t, x);
  }

  lemma OtherActionKeepsPool(cfg: Config, s: State, a: Action)
    requires PoolInv(cfg, s) && Step(cfg, s, a).Some? && !a.Advance? && !a.BeginSession? && !a.StartPrewarm?
    ensures PoolInv(cfg, Step(cfg, s, a).value)
  {
    match a
    case TimeOut(t) => QuietUpdate(cfg, s, t, Done);
    case Use(t) => UseOrReleaseKeepsPool(cfg, s, t, Step(cfg, s, a).value.tasks[t]);
    case Release(t) => UseOrReleaseKeepsPool(cfg, s, t, Resetting(s.tasks[t].p, Caller));
    case Drop(t) => DropKeepsPool(cfg, s, t);
    case Elapse(_) =>
  }

  lemma PoolStep(cfg: Config, s: State, a: Action)
    requires PoolInv(cfg, s) && Step(cfg, s, a).Some?
    ensures PoolInv(cfg, Step(cfg, s, a).value)
  {
    if a.Advance? {
      AdvanceKeepsPool(cfg, s, a.task, a.ok);
    } else if a.BeginSession? {
      BeginKeepsPool(cfg, s);
    } else if a.StartPrewarm? {
      StartPrewarmKeepsPool(cfg, s);
    } else {
      OtherActionKeepsPool(cfg, s, a);
    }
  }

  // ---------------------------------------------------------------- every connection is in one place

  function Has(pc: Pc, id: nat): nat {
    if Carried(pc).Some? && Carried(pc).value.id == id then 1 else 0
  }

  function Carrying(id: nat): Pc -> nat {
    pc => Has(pc, id)
  }

  function Issued(sh: Shared, id: nat): nat { if 1 <= id < sh.nextId then 1 else 0 }

  function TimesClosed(closed: seq<nat>, id: nat): nat { multiset(closed)[id] }

  function TimesIdle(idle: seq<Pooled>, id: nat): nat {
    if idle == [] then 0
    else TimesIdle(idle[..|idle| - 1], id) + (if idle[|idle| - 1].id == id then 1 else 0)
  }

  /** In how many places connection `id` is: in tasks' hands, idle, or closed. */
  function Places(s: State, id: nat): nat {
    Sum(s.tasks, Carrying(id)) + TimesIdle(s.sh.idle, id) + TimesClosed(s.sh.closed, id)
  }

  ghost predicate OnePlace(s: State, id: nat) {
    Places(s, id) == Issued(s.sh, id)
  }

  ghost predicate PlaceInv(s: State) {
    1 <= s.sh.nextId && forall id :: OnePlace(s, id)
  }

  function Tally(sh: Shared, pc: Pc, id: nat): int {
    Has(pc, id) + TimesIdle(sh.idle, id) + TimesClosed(sh.closed, id) - Issued(sh, id)
  }

  /** The moves that put a connection somewhere else. */
  predicate Relocates(pc: Pc) {
    pc.HasPermit? || pc.Connecting? || pc.Pushing? || pc.Closing? || pc.Replacing?
  }

  lemma StayKeepsPlace(cfg: Config, sh: Shared, t: nat, pc: Pc, ok: bool, id: nat)
    requires Move(cfg, sh, t, pc, ok).Some? && !Relocates(pc)
    ensures var (sh', pc') := Move(cfg, sh, t, pc, ok).value;
            && sh'.idle == sh.idle && sh'.closed == sh.closed && sh'.nextId == sh.nextId
            && Has(pc', id) == Has(pc, id)
  {
  }

  lemma PushOrCloseKeepsPlace(cfg: Config, sh: Shared, t: nat, pc: Pc, ok: bool, id: nat)
    requires pc.Pushing? || pc.Closing? || pc.Replacing?
    ensures var (sh', pc') := Move(cfg, sh, t, pc, ok).value;
            sh.nextId == sh'.nextId && Tally(sh', pc', id) == Tally(sh, pc, id)
  {
    assert (sh.idle + [pc.p])[..|sh.idle|] == sh.idle;
    assert TimesClosed(sh.closed + [pc.p.id], id) == TimesClosed(sh.closed, id) + Has(pc, id);
  }

  lemma PopOrConnectKeepsPlace(cfg: Config, sh: Shared, t: nat, pc: Pc, ok: bool, id: nat)
    requires (pc.HasPermit? || pc.Connecting?) && 1 <= sh.nextId
    ensures var (sh', pc') := Move(cfg, sh, t, pc, ok).value;
            sh.nextId <= sh'.nextId && Tally(sh', pc', id) == Tally(sh, pc, id)
  {
  }

  lemma MoveKeepsPlace(cfg: Config, sh: Shared, t: nat, pc: Pc, ok: bool, id: nat)
    requires Move(cfg, sh, t, pc, ok).Some? && 1 <= sh.nextId
    ensures var (sh', pc') := Move(cfg, sh, t, pc, ok).value;
            sh.nextId <= sh'.nextId && Tally(sh', pc', id) == Tally(sh, pc, id)
  {
    if !Relocates(pc) {
      StayKeepsPlace(cfg, sh, t, pc, ok, id);
    } else if pc.HasPermit? || pc.Connecting? {
      PopOrConnectKeepsPlace(cfg, sh, t, pc, ok, id);
    } else {
      PushOrCloseKeepsPlace(cfg, sh, t, pc, ok, id);
    }
  }

  lemma AdvanceKeepsPlace(cfg: Config, s: State, t: nat, ok: bool, id: nat)
    requires 1 <= s.sh.nextId && OnePlace(s, id) && Step(cfg, s, Advance(t, ok)).Some?
    ensures 1 <= Step(cfg, s, Advance(t, ok)).value.sh.nextId && OnePlace(Step(cfg, s, Advance(t, ok)).value, id)
  {
    var (sh', x) := Move(cfg, s.sh, t, s.tasks[t], ok).value;
    MoveKeepsPlace(cfg, s.sh, t, s.tasks[t], ok, id);
    SumUpdate(s.tasks, t, x, Carrying(id));
  }

  lemma SwapKeepsPlace(s: State, t: nat, x: Pc, id: nat)
    requires OnePlace(s, id) && t < |s.tasks| && Has(x, id) == Has(s.tasks[t], id)
    ensures OnePlace(s.(tasks := s.tasks[t := x]), id)
  {
    SumUpdate(s.tasks, t, x, Carrying(id));
  }

  lemma DropKeepsPlace(s: State, t: nat, id: nat)
    requires OnePlace(s, id) && t < |s.tasks| && s.tasks[t].InUse?
    ensures OnePlace(s.(tasks := s.tasks[t := Leaving(Caller)] + [Resetting(s.tasks[t].p, Orphan)]), id)
  {
    SumUpdate(s.tasks, t, Leaving(Caller), Carrying(id));
    SumAppend(s.tasks[t := Leaving(Caller)], Resetting(s.tasks[t].p, Orphan), Carrying(id));
  }

  lemma AppendKeepsPlace(s: State, x: Pc, id: nat)
    requires OnePlace(s, id) && Carried(x).None?
    ensures OnePlace(s.(tasks := s.tasks + [x]), id)
  {
    SumAppend(s.tasks, x, Carrying(id));
  }

  /** Every action but an `Advance` leaves idle stack, closed list and id counter alone. */
  lemma OtherActionKeepsPlace(cfg: Config, s: State, a: Action, id: nat)
    requires OnePlace(s, id) && Step(cfg, s, a).Some? && !a.Advance?
    ensures OnePlace(Step(cfg, s, a).value, id)
  {
    var s' := Step(cfg, s, a).value;
    match a
    case BeginSession => AppendKeepsPlace(s, AwaitPermit, id);
    case StartPrewarm => AppendKeepsPlace(s, LoopTop, id);
    case TimeOut(t) => SwapKeepsPlace(s, t, Done, id);
    case Use(t) => SwapKeepsPlace(s, t, s'.tasks[t], id);
    case Release(t) => SwapKeepsPlace(s, t, s'.tasks[t], id);
    case Drop(t) => DropKeepsPlace(s, t, id);
    case Elapse(_) =>
  }

  lemma PlaceStep(cfg: Config, s: State, a: Action)
    requires PlaceInv(s) && Step(cfg, s, a).Some?
    ensures PlaceInv(Step(cfg, s, a).value)
  {
    forall id
      ensures OnePlace(Step(cfg, s, a).value, id)
    {
      assert OnePlace(s, id);
      if a.Advance? {
        AdvanceKeepsPlace(cfg, s, a.task, a.ok, id);
      } else {
        OtherActionKeepsPlace(cfg, s, a, id);
      }
    }
    if a.Advance? {
      assert OnePlace(s, 0);
      AdvanceKeepsPlace(cfg, s, a.task, a.ok, 0);
    }
  }

  // ---------------------------------------------------------------- what a session gets

  predicate Fit(now: nat, p: Pooled) {
    p.conn.handshaken && p.conn.healthy == !p.conn.everUnhealthy && p.lastUsed <= now
  }

  predicate Clean(now: nat, p: Pooled) {
    Fit(now, p) && p.conn.healthy && !p.conn.dirty
  }

  /** At that time the connection was not idle for longer than allowed. */
  predicate FreshAt(cfg: Config, p: Pooled, at: nat) {
    cfg.maxIdle.Some? ==> at - p.lastUsed <= cfg.maxIdle.value
  }

  predicate TaskOk(cfg: Config, now: nat, pc: Pc) {
    match pc
    case Taken(p, popped) => Clean(now, p) && !p.conn.pinged && p.lastUsed <= popped <= now
    case Pinging(p, popped, checked) =>
      && Clean(now, p) && !p.conn.pinged && p.lastUsed <= popped <= checked <= now && FreshAt(cfg, p, checked)
    case Rechecking(p, _) => Fit(now, p) && !p.conn.dirty
    case Deciding(p, _) => Clean(now, p)
    case Stamping(p, _) => Clean(now, p)
    case Pushing(p, _) => Clean(now, p)
    case _ => Carried(pc).Some? ==> Fit(now, Carried(pc).value)
  }

  /** Handshaken, never sick, reset since any earlier traffic. When opened for this session, stamped
      with that time; when reused, pinged after it was popped, and after the pop found not idle
      for longer than allowed by its own last stamp. */
  predicate GrantOk(cfg: Config, now: nat, g: Grant) {
    && g.p.conn.handshaken && g.p.conn.healthy && !g.p.conn.everUnhealthy && !g.p.conn.dirty
    && g.at <= now
    && if g.reused
       then g.p.conn.pinged && g.p.lastUsed <= g.poppedAt <= g.checkedAt <= g.at && FreshAt(cfg, g.p, g.checkedAt)
       else g.p.lastUsed == g.at
  }

  /** In a session's hands, or on the way back before the stamp is renewed. */
  predicate Held(pc: Pc) { pc.InUse? || pc.Resetting? || pc.Rechecking? || pc.Deciding? }

  predicate GrantOf(g: Grant, t: nat, pc: Pc)
    requires Held(pc)
  {
    g.p.id == pc.p.id && g.p.lastUsed == pc.p.lastUsed && (pc.InUse? ==> g.task == t)
  }

  /** Every connection held was granted with the stamp it still has. */
  predicate WasGranted(sh: Shared, t: nat, pc: Pc) {
    Held(pc) ==> exists i :: 0 <= i < |sh.granted| && GrantOf(sh.granted[i], t, pc)
  }

  ghost predicate QualityInv(cfg: Config, s: State) {
    && (forall i :: 0 <= i < |s.sh.idle| ==> Clean(s.sh.now, s.sh.idle[i]))
    && (forall t :: 0 <= t < |s.tasks| ==> TaskOk(cfg, s.sh.now, s.tasks[t]) && WasGranted(s.sh, t, s.tasks[t]))
    && (forall i :: 0 <= i < |s.sh.granted| ==> GrantOk(cfg, s.sh.now, s.sh.granted[i]))
  }

  lemma MoveKeepsFitness(cfg: Config, sh: Shared, t: nat, pc: Pc, ok: bool)
    requires Move(cfg, sh, t, pc, ok).Some?
    requires TaskOk(cfg, sh.now, pc) && forall i :: 0 <= i < |sh.idle| ==> Clean(sh.now, sh.idle[i])
    ensures var (sh', pc') := Move(cfg, sh, t, pc, ok).value;
            && sh'.now == sh.now && TaskOk(cfg, sh'.now, pc')
            && (forall i :: 0 <= i < |sh'.idle| ==> Clean(sh'.now, sh'.idle[i]))
  {
  }

  lemma MoveKeepsGrants(cfg: Config, sh: Shared, t: nat, pc: Pc, ok: bool)
    requires Move(cfg, sh, t, pc, ok).Some?
    requires TaskOk(cfg, sh.now, pc) && forall i :: 0 <= i < |sh.granted| ==> GrantOk(cfg, sh.now, sh.granted[i])
    ensures var (sh', pc') := Move(cfg, sh, t, pc, ok).value;
            && sh.granted <= sh'.granted
            && (forall i :: 0 <= i < |sh'.granted| ==> GrantOk(cfg, sh'.now, sh'.granted[i]))
  {
  }

  lemma MoveKeepsHolding(cfg: Config, sh: Shared, t: nat, pc: Pc, ok: bool)
    requires Move(cfg, sh, t, pc, ok).Some? && WasGranted(sh, t, pc)
    ensures WasGranted(Move(cfg, sh, t, pc, ok).value.0, t, Move(cfg, sh, t, pc, ok).value.1)
  {
    var (sh', pc') := Move(cfg, sh, t, pc, ok).value;
    if pc'.InUse? {
      assert GrantOf(sh'.granted[|sh.granted|], t, pc');
    } else if Held(pc') {
      var i :| 0 <= i < |sh.granted| && GrantOf(sh.granted[i], t, pc);
      assert GrantOf(sh'.granted[i], t, pc');
    }
  }

  lemma QualityStep(cfg: Config, s: State, a: Action)
    requires QualityInv(cfg, s) && Step(cfg, s, a).Some?
    ensures QualityInv(cfg, Step(cfg, s, a).value)
  {
    var s' := Step(cfg, s, a).value;
    if a.Advance? {
      MoveKeepsFitness(cfg, s.sh, a.task, s.tasks[a.task], a.ok);
      MoveKeepsGrants(cfg, s.sh, a.task, s.tasks[a.task], a.ok);
      MoveKeepsHolding(cfg, s.sh, a.task, s.tasks[a.task], a.ok);
      forall u | 0 <= u < |s'.tasks| && u != a.task
        ensures WasGranted(s'.sh, u, s'.tasks[u])
      {
        assert WasGranted(s.sh, u, s.tasks[u]);
      }
    }
  }

  // ---------------------------------------------------------------- all runs

  lemma {:induction false} PoolRun(cfg: Config, s: State, run: seq<Action>)
    requires PoolInv(cfg, s) && PlaceInv(s) && QualityInv(cfg, s) && Exec(cfg, s, run).Some?
    ensures var s' := Exec(cfg, s, run).value; PoolInv(cfg, s') && PlaceInv(s') && QualityInv(cfg, s')
    decreases |run|
  {
    if run != [] {
      PoolStep(cfg, s, run[0]);
      PlaceStep(cfg, s, run[0]);
      QualityStep(cfg, s, run[0]);
      PoolRun(cfg, Step(cfg, s, run[0]).value, run[1..]);
    }
  }

  ghost predicate ReachedBy(cfg: Config, run: seq<Action>, s: State) {
    Exec(cfg, Init(cfg), run) == Some(s)
  }

  lemma ReachedInv(cfg: Config, run: seq<Action>, s: State)
    requires ReachedBy(cfg, run, s)
    ensures PoolInv(cfg, s) && PlaceInv(s) && QualityInv(cfg, s)
  {
    forall id
      ensures OnePlace(Init(cfg), id)
    {
    }
    PoolRun(cfg, Init(cfg), run);
  }

  // the run's own account of what the counters bound
  function DropsIn(run: seq<Action>): nat {
    if run == [] then 0 else (if run[0].Drop? then 1 else 0) + DropsIn(run[1..])
  }

  function PrewarmsIn(run: seq<Action>): nat {
    if run == [] then 0 else (if run[0].StartPrewarm? then 1 else 0) + PrewarmsIn(run[1..])
  }

  lemma MoveLeavesCounters(cfg: Config, sh: Shared, t: nat, pc: Pc, ok: bool)
    requires Move(cfg, sh, t, pc, ok).Some?
    ensures Move(cfg, sh, t, pc, ok).value.0.drops == sh.drops
    ensures Move(cfg, sh, t, pc, ok).value.0.loops == sh.loops
  {
  }

  lemma {:induction false} CountersOfRun(cfg: Config, s: State, run: seq<Action>)
    requires Exec(cfg, s, run).Some?
    ensures Exec(cfg, s, run).value.sh.drops == s.sh.drops + DropsIn(run)
    ensures Exec(cfg, s, run).value.sh.loops <= s.sh.loops + PrewarmsIn(run)
    decreases |run|
  {
    if run != [] {
      if run[0].Advance? {
        MoveLeavesCounters(cfg, s.sh, run[0].task, s.tasks[run[0].task], run[0].ok);
      }
      CountersOfRun(cfg, Step(cfg, s, run[0]).value, run[1..]);
    }
  }

  /** In every run the connections open, opening or closing are at most `maxSize`, plus
      `minSize` per prewarm loop started, plus one per session ended by Drop. In particular
      they never exceed `maxSize` when sessions end by `release` and nothing is prewarmed. */
  lemma OpenConnectionsBounded(cfg: Config, run: seq<Action>, s: State)
    requires ReachedBy(cfg, run, s)
    ensures Open(s) <= cfg.maxSize + cfg.minSize * PrewarmsIn(run) + DropsIn(run)
  {
    ReachedInv(cfg, run, s);
    CountersOfRun(cfg, Init(cfg), run);
    MulMonotone(cfg.minSize, s.sh.loops, PrewarmsIn(run));
  }

  /** Permits are conserved, so at most `maxSize` sessions are live at once: also with Drop and prewarm. */
  lemma SessionsBounded(cfg: Config, run: seq<Action>, s: State)
    requires ReachedBy(cfg, run, s)
    ensures s.sh.free + Sum(s.tasks, PermitsHeld) == cfg.maxSize
    ensures Sum(s.tasks, LiveSessions) <= cfg.maxSize
  {
    ReachedInv(cfg, run, s);
    SessionsHoldPermits(s.tasks);
  }

  lemma {:induction false} SessionsHoldPermits(ts: seq<Pc>)
    ensures Sum(ts, LiveSessions) <= Sum(ts, PermitsHeld)
    decreases |ts|
  {
    if ts != [] {
      SessionsHoldPermits(ts[..|ts| - 1]);
    }
  }

  /** No connection is ever in two hands, or in hand and idle or closed. */
  lemma NoSharing(cfg: Config, run: seq<Action>, s: State, t: nat, u: nat)
    requires ReachedBy(cfg, run, s)
    requires t < |s.tasks| && u < |s.tasks| && Carried(s.tasks[t]).Some?
    ensures t != u && Carried(s.tasks[u]).Some? ==> Carried(s.tasks[t]).value.id != Carried(s.tasks[u]).value.id
    ensures TimesIdle(s.sh.idle, Carried(s.tasks[t]).value.id) == 0
    ensures Carried(s.tasks[t]).value.id !in s.sh.closed
  {
    ReachedInv(cfg, run, s);
    var id := Carried(s.tasks[t]).value.id;
    assert OnePlace(s, id);
    SumUpdate(s.tasks, t, Done, Carrying(id));
    var ts := s.tasks[t := Done];
    if t != u && Carried(s.tasks[u]).Some? && Carried(s.tasks[u]).value.id == id {
      SumUpdate(ts, u, Done, Carrying(id));
      assert false;
    }
  }

  /** Whatever was handed out, ever, was fit to be handed out; and every live session
      was handed its connection that way. */
  lemma GrantsAreGood(cfg: Config, run: seq<Action>, s: State)
    requires ReachedBy(cfg, run, s)
    ensures forall i :: 0 <= i < |s.sh.granted| ==> GrantOk(cfg, s.sh.now, s.sh.granted[i])
    ensures forall t :: 0 <= t < |s.tasks| ==> WasGranted(s.sh, t, s.tasks[t])
  {
    ReachedInv(cfg, run, s);
  }

  /** Both return paths decide by the stamp the connection had when its session got it, that is by the
      time of its last return before, or of its opening: it is closed if and only if that is too long ago.
      The time in use counts as idle time. */
  lemma ReturnDecidesByOldStamp(cfg: Config, run: seq<Action>, s: State, t: nat) returns (g: Grant)
    requires ReachedBy(cfg, run, s) && t < |s.tasks| && s.tasks[t].Deciding?
    ensures g in s.sh.granted && GrantOk(cfg, s.sh.now, g)
    ensures g.p.id == s.tasks[t].p.id && g.p.lastUsed <= g.at <= s.sh.now
    ensures Step(cfg, s, Advance(t, true)).value.tasks[t].Closing?
       <==> cfg.maxIdle.Some? && s.sh.now - g.p.lastUsed > cfg.maxIdle.value
  {
    ReachedInv(cfg, run, s);
    assert WasGranted(s.sh, t, s.tasks[t]);
    var i :| 0 <= i < |s.sh.granted| && GrantOf(s.sh.granted[i], t, s.tasks[t]);
    g := s.sh.granted[i];
    assert GrantOk(cfg, s.sh.now, s.sh.granted[i]);
  }

  // ---------------------------------------------------------------- the bound is tight

  lemma {:induction false} ExecSnoc(cfg: Config, s: State, run: seq<Action>, a: Action)
    requires Exec(cfg, s, run).Some?
    ensures Exec(cfg, s, run + [a]) == Step(cfg, Exec(cfg, s, run).value, a)
    decreases |run|
  {
    if run == [] {
      assert run + [a] == [a];
      if Step(cfg, s, a).Some? {
        assert Exec(cfg, Step(cfg, s, a).value, [a][1..]) == Some(Step(cfg, s, a).value);
      }
    } else {
      assert (run + [a])[1..] == run[1..] + [a];
      ExecSnoc(cfg, Step(cfg, s, run[0]).value, run[1..], a);
    }
  }

  lemma {:induction false} CountSnoc(run: seq<Action>, a: Action)
    ensures DropsIn(run + [a]) == DropsIn(run) + (if a.Drop? then 1 else 0)
    ensures PrewarmsIn(run + [a]) == PrewarmsIn(run) + (if a.StartPrewarm? then 1 else 0)
    decreases |run|
  {
    if run == [] {
      assert run + [a] == [a];
    } else {
      assert (run + [a])[1..] == run[1..] + [a];
      CountSnoc(run[1..], a);
    }
  }

  lemma Go(cfg: Config, run: seq<Action>, s: State, a: Action) returns (run': seq<Action>, s': State)
    requires ReachedBy(cfg, run, s) && Step(cfg, s, a).Some?
    ensures run' == run + [a] && ReachedBy(cfg, run', s') && s' == Step(cfg, s, a).value
    ensures DropsIn(run') == DropsIn(run) + (if a.Drop? then 1 else 0)
    ensures PrewarmsIn(run') == PrewarmsIn(run) + (if a.StartPrewarm? then 1 else 0)
  {
    run', s' := run + [a], Step(cfg, s, a).value;
    ExecSnoc(cfg, Init(cfg), run, a);
    CountSnoc(run, a);
  }

  /** One step of one task whose move is known. */
  lemma GoTo(cfg: Config, run: seq<Action>, s: State, t: nat, sh: Shared, pc: Pc) returns (run': seq<Action>, s': State)
    requires ReachedBy(cfg, run, s) && t < |s.tasks|
    requires Move(cfg, s.sh, t, s.tasks[t], true) == Some((sh, pc))
    ensures ReachedBy(cfg, run', s') && s' == State(sh, s.tasks[t := pc]) && SameCalls(run, run')
  {
    run', s' := Go(cfg, run, s, Advance(t, true));
  }

  /** Neither a Drop nor a prewarm more. */
  ghost predicate SameCalls(run: seq<Action>, run': seq<Action>) {
    DropsIn(run') == DropsIn(run) && PrewarmsIn(run') == PrewarmsIn(run)
  }

  /** A new session, up to the moment it uses a new connection. */
  lemma OpenSession(cfg: Config, run: seq<Action>, s: State) returns (run': seq<Action>, s': State, p: Pooled)
    requires ReachedBy(cfg, run, s) && s.sh.free > 0 && s.sh.idle == []
    ensures ReachedBy(cfg, run', s') && SameCalls(run, run')
    ensures s'.tasks == s.tasks + [InUse(p)] && Clean(s.sh.now, p) && p.lastUsed == s.sh.now
    ensures s'.sh == s.sh.(free := s.sh.free - 1, nextId := s.sh.nextId + 1, granted := s'.sh.granted)
    ensures s'.sh.granted == s.sh.granted + [Grant(|s.tasks|, p, false, s.sh.now, s.sh.now, s.sh.now)]
    ensures Open(s') == Open(s) + 1
  {
    var t := |s.tasks|;
    var r1, s1 := Go(cfg, run, s, BeginSession);
    var r2, s2 := GoTo(cfg, r1, s1, t, s.sh.(free := s.sh.free - 1), HasPermit);
    var r3, s3 := GoTo(cfg, r2, s2, t, s2.sh, Connecting(Caller));
    run', s' := Go(cfg, r3, s3, Advance(t, true));
    p := s'.tasks[t].p;
    AppendCounts(s.tasks, InUse(p));
  }

  /** The newest task is a session that has just got its connection. */
  predicate LastIsNew(s: State) {
    && s.tasks != [] && s.tasks[|s.tasks| - 1].InUse?
    && Clean(s.sh.now, s.tasks[|s.tasks| - 1].p) && s.tasks[|s.tasks| - 1].p.lastUsed == s.sh.now
  }

  lemma {:induction false} OpenSessions(cfg: Config, run: seq<Action>, s: State, k: nat)
    returns (run': seq<Action>, s': State)
    requires ReachedBy(cfg, run, s) && s.sh.free >= k && s.sh.idle == []
    ensures ReachedBy(cfg, run', s') && SameCalls(run, run')
    ensures s.tasks <= s'.tasks && s'.sh.free == s.sh.free - k && s'.sh.idle == []
    ensures Open(s') == Open(s) + k && (k > 0 ==> |s'.tasks| > |s.tasks| && LastIsNew(s'))
    decreases k
  {
    if k == 0 {
      run', s' := run, s;
    } else {
      var r1, s1 := OpenSessions(cfg, run, s, k - 1);
      var p;
      run', s', p := OpenSession(cfg, r1, s1);
    }
  }

  /** A session ends by Drop and its permit is back; its connection stays open in the orphan's hands. */
  lemma DropNow(cfg: Config, run: seq<Action>, s: State, t: nat) returns (run': seq<Action>, s': State)
    requires ReachedBy(cfg, run, s) && t < |s.tasks| && s.tasks[t].InUse?
    ensures ReachedBy(cfg, run', s') && DropsIn(run') == DropsIn(run) + 1 && PrewarmsIn(run') == PrewarmsIn(run)
    ensures s'.tasks == s.tasks[t := Done] + [Resetting(s.tasks[t].p, Orphan)]
    ensures s'.sh == s.sh.(free := s.sh.free + 1, drops := s.sh.drops + 1)
  {
    var orphan := Resetting(s.tasks[t].p, Orphan);
    var r1, s1 := Go(cfg, run, s, Drop(t));
    run', s' := GoTo(cfg, r1, s1, t, s1.sh.(free := s.sh.free + 1), Done);
    assert s'.tasks == s.tasks[t := Done] + [orphan];
  }

  lemma DropLeavesOpen(s: State, t: nat)
    requires t < |s.tasks| && s.tasks[t].InUse?
    ensures Sum(s.tasks[t := Done] + [Resetting(s.tasks[t].p, Orphan)], OpenOrOpening) == Sum(s.tasks, OpenOrOpening)
  {
    UpdateCounts(s.tasks, t, Done);
    AppendCounts(s.tasks[t := Done], Resetting(s.tasks[t].p, Orphan));
  }

  /** The newest session ends by Drop, and the next one opens another connection. */
  lemma DropAndReopen(cfg: Config, run: seq<Action>, s: State) returns (run': seq<Action>, s': State)
    requires ReachedBy(cfg, run, s) && s.sh.idle == [] && LastIsNew(s)
    ensures ReachedBy(cfg, run', s') && DropsIn(run') == DropsIn(run) + 1 && PrewarmsIn(run') == PrewarmsIn(run)
    ensures |s'.tasks| > |s.tasks| && s.tasks[..|s.tasks| - 1] <= s'.tasks && LastIsNew(s')
    ensures s'.sh.free == s.sh.free && s'.sh.idle == [] && Open(s') == Open(s) + 1
  {
    var t := |s.tasks| - 1;
    var r1, s1 := DropNow(cfg, run, s, t);
    DropLeavesOpen(s, t);
    var p;
    run', s', p := OpenSession(cfg, r1, s1);
  }

  lemma {:induction false} DropsAndReopens(cfg: Config, run: seq<Action>, s: State, d: nat)
    returns (run': seq<Action>, s': State)
    requires ReachedBy(cfg, run, s) && s.sh.idle == [] && LastIsNew(s)
    ensures ReachedBy(cfg, run', s') && DropsIn(run') == DropsIn(run) + d && PrewarmsIn(run') == PrewarmsIn(run)
    ensures |s'.tasks| >= |s.tasks| && s.tasks[..|s.tasks| - 1] <= s'.tasks && LastIsNew(s')
    ensures s'.sh.free == s.sh.free && s'.sh.idle == [] && Open(s') == Open(s) + d
    decreases d
  {
    if d == 0 {
      run', s' := run, s;
    } else {
      var r1, s1 := DropAndReopen(cfg, run, s);
      run', s' := DropsAndReopens(cfg, r1, s1, d - 1);
      assert s.tasks[..|s.tasks| - 1] <= s1.tasks[..|s1.tasks| - 1] <= s'.tasks;
    }
  }

  /** A successful reset and health check, up to the recycle check. */
  lemma ReturnedClean(cfg: Config, run: seq<Action>, s: State, t: nat) returns (run': seq<Action>, s': State, p: Pooled)
    requires ReachedBy(cfg, run, s) && t < |s.tasks| && s.tasks[t].InUse? && s.tasks[t].p.conn.healthy
    ensures ReachedBy(cfg, run', s') && SameCalls(run, run') && s' == State(s.sh, s.tasks[t := Deciding(p, Caller)])
    ensures p.id == s.tasks[t].p.id && p.lastUsed == s.tasks[t].p.lastUsed
  {
    var p0 := s.tasks[t].p;
    var p1 := p0.(conn := Reset(p0.conn, true).0);
    p := p1.(conn := HealthCheck(p1.conn, true).0);
    var r1, s1 := Go(cfg, run, s, Release(t));
    var r2, s2 := GoTo(cfg, r1, s1, t, s.sh, Rechecking(p1, Caller));
    run', s' := GoTo(cfg, r2, s2, t, s.sh, Deciding(p, Caller));
    assert s'.tasks == s.tasks[t := Deciding(p, Caller)];
  }

  /** From the stamp to the returned permit. */
  lemma Stored(cfg: Config, run: seq<Action>, s: State, t: nat, p: Pooled) returns (run': seq<Action>, s': State)
    requires ReachedBy(cfg, run, s) && t < |s.tasks| && s.tasks[t] == Stamping(p, Caller)
    ensures ReachedBy(cfg, run', s') && SameCalls(run, run') && s'.tasks == s.tasks[t := Done]
    ensures s'.sh == s.sh.(idle := s.sh.idle + [p.(lastUsed := s.sh.now)], free := s.sh.free + 1)
  {
    var q := p.(lastUsed := s.sh.now);
    var r1, s1 := GoTo(cfg, run, s, t, s.sh, Pushing(q, Caller));
    var sh := s.sh.(idle := s.sh.idle + [q]);
    var r2, s2 := GoTo(cfg, r1, s1, t, sh, Leaving(Caller));
    run', s' := GoTo(cfg, r2, s2, t, sh.(free := s.sh.free + 1), Done);
    assert s'.tasks == s.tasks[t := Done];
  }

  /** `release` of a healthy connection, its reset and health check succeeding: it is closed if the
      stamp of its last return or opening is too old, however busy it was since, and otherwise goes
      on the idle stack with a new stamp. The permit comes back either way. */
  lemma ReleaseRecyclesIffOld(cfg: Config, run: seq<Action>, s: State, t: nat) returns (run': seq<Action>, s': State)
    requires ReachedBy(cfg, run, s) && t < |s.tasks| && s.tasks[t].InUse? && s.tasks[t].p.conn.healthy
    ensures ReachedBy(cfg, run', s') && SameCalls(run, run')
    ensures s'.tasks == s.tasks[t := Done] && s'.sh.free == s.sh.free + 1 && s'.sh.now == s.sh.now
    ensures !FreshAt(cfg, s.tasks[t].p, s.sh.now) ==>
              s'.sh.idle == s.sh.idle && s'.sh.closed == s.sh.closed + [s.tasks[t].p.id]
    ensures FreshAt(cfg, s.tasks[t].p, s.sh.now) ==>
              && s'.sh.closed == s.sh.closed
              && |s'.sh.idle| == |s.sh.idle| + 1 && s'.sh.idle[..|s.sh.idle|] == s.sh.idle
              && s'.sh.idle[|s.sh.idle|].id == s.tasks[t].p.id && s'.sh.idle[|s.sh.idle|].lastUsed == s.sh.now
  {
    var r1, s1, p := ReturnedClean(cfg, run, s, t);
    if ShouldRecycle(cfg, s.sh, p) {
      var r2, s2 := GoTo(cfg, r1, s1, t, s.sh, Closing(p, Caller));
      var sh := s.sh.(closed := s.sh.closed + [p.id]);
      var r3, s3 := GoTo(cfg, r2, s2, t, sh, Leaving(Caller));
      run', s' := GoTo(cfg, r3, s3, t, sh.(free := s.sh.free + 1), Done);
    } else {
      var r2, s2 := GoTo(cfg, r1, s1, t, s.sh, Stamping(p, Caller));
      run', s' := Stored(cfg, r2, s2, t, p);
    }
    assert s'.tasks == s.tasks[t := Done];
  }

  /** So under every configuration with a limit, a connection that was opened, used for longer than
      the limit and released is closed as idle, though it never lay idle. */
  lemma LongUseIsRecycled(cfg: Config) returns (run: seq<Action>, s: State, p: Pooled)
    requires cfg.maxSize >= 1 && cfg.maxIdle.Some?
    ensures ReachedBy(cfg, run, s) && s.sh.granted == [Grant(0, p, false, 0, 0, 0)]
    ensures s.sh.closed == [p.id] && s.sh.idle == [] && s.tasks == [Done]
  {
    var r1, s1;
    r1, s1, p := OpenSession(cfg, [], Init(cfg));
    var r2, s2 := Go(cfg, r1, s1, Elapse(cfg.maxIdle.value + 1));
    run, s := ReleaseAsOld(cfg, r2, s2);
  }

  lemma ReleaseAsOld(cfg: Config, run: seq<Action>, s: State) returns (run': seq<Action>, s': State)
    requires ReachedBy(cfg, run, s) && |s.tasks| == 1 && s.tasks[0].InUse? && s.tasks[0].p.conn.healthy
    requires !FreshAt(cfg, s.tasks[0].p, s.sh.now)
    ensures ReachedBy(cfg, run', s') && s'.tasks == [Done]
    ensures s'.sh.idle == s.sh.idle && s'.sh.closed == s.sh.closed + [s.tasks[0].p.id] && s'.sh.granted == s.sh.granted
  {
    var r1, s1, p := ReturnedClean(cfg, run, s, 0);
    var r2, s2 := GoTo(cfg, r1, s1, 0, s.sh, Closing(p, Caller));
    var sh := s.sh.(closed := s.sh.closed + [p.id]);
    var r3, s3 := GoTo(cfg, r2, s2, 0, sh, Leaving(Caller));
    run', s' := GoTo(cfg, r3, s3, 0, sh.(free := s.sh.free + 1), Done);
  }

  /** One attempt of a prewarm loop that gets a permit: up to the open connection, and from there on. */
  lemma LoopConnects(cfg: Config, run: seq<Action>, s: State, t: nat, b: nat)
    returns (run': seq<Action>, s': State, p: Pooled)
    requires ReachedBy(cfg, run, s) && t < |s.tasks| && s.tasks[t] == LoopRound(b + 1) && s.sh.free >= 1
    ensures ReachedBy(cfg, run', s') && SameCalls(run, run')
    ensures s' == State(s.sh.(free := s.sh.free - 1, nextId := s.sh.nextId + 1), s.tasks[t := Stamping(p, Loop(b))])
  {
    var taken := s.sh.(free := s.sh.free - 1);
    p := Pooled(s.sh.nextId, s.sh.now, Connect(true, true).value);
    var r1, s1 := GoTo(cfg, run, s, t, taken, Connecting(Loop(b)));
    run', s' := GoTo(cfg, r1, s1, t, taken.(nextId := s.sh.nextId + 1), Stamping(p, Loop(b)));
    assert s'.tasks == s.tasks[t := Stamping(p, Loop(b))];
  }

  lemma LoopStores(cfg: Config, run: seq<Action>, s: State, t: nat, p: Pooled, b: nat)
    returns (run': seq<Action>, s': State)
    requires ReachedBy(cfg, run, s) && t < |s.tasks| && s.tasks[t] == Stamping(p, Loop(b))
    ensures ReachedBy(cfg, run', s') && SameCalls(run, run') && s'.tasks == s.tasks[t := LoopRound(b)]
    ensures s'.sh == s.sh.(idle := s.sh.idle + [p.(lastUsed := s.sh.now)], free := s.sh.free + 1)
  {
    var q := p.(lastUsed := s.sh.now);
    var r1, s1 := GoTo(cfg, run, s, t, s.sh, Pushing(q, Loop(b)));
    var sh := s.sh.(idle := s.sh.idle + [q]);
    var r2, s2 := GoTo(cfg, r1, s1, t, sh, Leaving(Loop(b)));
    run', s' := GoTo(cfg, r2, s2, t, sh.(free := s.sh.free + 1), LoopRound(b));
    assert s'.tasks == s.tasks[t := LoopRound(b)];
  }

  lemma LoopAddsOne(cfg: Config, run: seq<Action>, s: State, t: nat, b: nat) returns (run': seq<Action>, s': State)
    requires ReachedBy(cfg, run, s) && t < |s.tasks| && s.tasks[t] == LoopRound(b + 1) && s.sh.free >= 1
    ensures ReachedBy(cfg, run', s') && SameCalls(run, run')
    ensures s'.tasks == s.tasks[t := LoopRound(b)] && s'.sh.free == s.sh.free && Open(s') == Open(s) + 1
    ensures s.sh.idle <= s'.sh.idle && |s'.sh.idle| == |s.sh.idle| + 1
  {
    var r1, s1, p := LoopConnects(cfg, run, s, t, b);
    run', s' := LoopStores(cfg, r1, s1, t, p, b);
    assert s'.tasks == s.tasks[t := LoopRound(b)];
    UpdateCounts(s.tasks, t, LoopRound(b));
  }

  lemma {:induction false} LoopAddsAll(cfg: Config, run: seq<Action>, s: State, t: nat, b: nat)
    returns (run': seq<Action>, s': State)
    requires ReachedBy(cfg, run, s) && t < |s.tasks| && s.tasks[t] == LoopRound(b) && s.sh.free >= 1
    ensures ReachedBy(cfg, run', s') && SameCalls(run, run')
    ensures s'.tasks == s.tasks[t := LoopRound(0)] && s'.sh.free == s.sh.free && Open(s') == Open(s) + b
    ensures s.sh.idle <= s'.sh.idle && |s'.sh.idle| == |s.sh.idle| + b
    decreases b
  {
    if b == 0 {
      run', s' := run, s;
    } else {
      var r1, s1 := LoopAddsOne(cfg, run, s, t, b - 1);
      run', s' := LoopAddsAll(cfg, r1, s1, t, b - 1);
    }
  }

  lemma {:induction false} LoopsAddAll(cfg: Config, run: seq<Action>, s: State, l: nat)
    returns (run': seq<Action>, s': State)
    requires ReachedBy(cfg, run, s) && s.sh.free >= 1 && l <= |s.tasks|
    requires forall i :: 0 <= i < l ==> s.tasks[i] == LoopRound(cfg.minSize)
    ensures ReachedBy(cfg, run', s') && SameCalls(run, run') && Open(s') == Open(s) + cfg.minSize * l
    decreases l
  {
    if l == 0 {
      run', s' := run, s;
    } else {
      var r1, s1 := LoopAddsAll(cfg, run, s, l - 1, cfg.minSize);
      run', s' := LoopsAddAll(cfg, r1, s1, l - 1);
      assert cfg.minSize * l == cfg.minSize * (l - 1) + cfg.minSize;
    }
  }

  /** One more loop that has counted an empty idle stack. */
  lemma StartLoop(cfg: Config, run: seq<Action>, s: State) returns (run': seq<Action>, s': State)
    requires ReachedBy(cfg, run, s) && s.sh.idle == []
    ensures ReachedBy(cfg, run', s') && PrewarmsIn(run') == PrewarmsIn(run) + 1 && DropsIn(run') == DropsIn(run)
    ensures s'.sh == s.sh.(loops := s'.sh.loops) && Open(s') == Open(s)
    ensures s'.tasks == if cfg.minSize == 0 then s.tasks else s.tasks + [LoopRound(cfg.minSize)]
  {
    run', s' := Go(cfg, run, s, StartPrewarm);
    if cfg.minSize > 0 {
      run', s' := GoTo(cfg, run', s', |s.tasks|, s'.sh, LoopRound(cfg.minSize));
      assert s'.tasks == s.tasks + [LoopRound(cfg.minSize)];
      LoopOpensNothingYet(s.tasks, cfg.minSize);
    }
  }

  lemma LoopOpensNothingYet(ts: seq<Pc>, b: nat)
    ensures Sum(ts + [LoopRound(b)], OpenOrOpening) == Sum(ts, OpenOrOpening)
  {
    SumAppend(ts, LoopRound(b), OpenOrOpening);
  }

  lemma {:induction false} StartLoops(cfg: Config, l: nat) returns (run: seq<Action>, s: State)
    ensures ReachedBy(cfg, run, s) && PrewarmsIn(run) == l && DropsIn(run) == 0
    ensures s.sh == Init(cfg).sh.(loops := s.sh.loops) && Open(s) == 0
    ensures cfg.minSize > 0 ==> |s.tasks| == l && forall i :: 0 <= i < l ==> s.tasks[i] == LoopRound(cfg.minSize)
    decreases l
  {
    if l == 0 {
      run, s := [], Init(cfg);
    } else {
      run, s := StartLoops(cfg, l - 1);
      run, s := StartLoop(cfg, run, s);
    }
  }

  /** The loops have counted an empty idle stack, sessions hold every permit, and drops have left orphans. */
  lemma FilledUp(cfg: Config, prewarms: nat, drops: nat) returns (run: seq<Action>, s: State)
    requires cfg.maxSize >= 1
    ensures ReachedBy(cfg, run, s) && PrewarmsIn(run) == prewarms && DropsIn(run) == drops
    ensures Open(s) == cfg.maxSize + drops && LastIsNew(s)
    ensures cfg.minSize > 0 ==>
              |s.tasks| > prewarms && forall i :: 0 <= i < prewarms ==> s.tasks[i] == LoopRound(cfg.minSize)
  {
    var r1, s1 := StartLoops(cfg, prewarms);
    var r2, s2 := OpenSessions(cfg, r1, s1, cfg.maxSize);
    run, s := DropsAndReopens(cfg, r2, s2, drops);
    assert s1.tasks <= s2.tasks[..|s2.tasks| - 1] <= s.tasks[..|s.tasks| - 1];
  }

  /** The newest session returns its connection. */
  lemma ReturnNewest(cfg: Config, run: seq<Action>, s: State) returns (run': seq<Action>, s': State)
    requires ReachedBy(cfg, run, s) && LastIsNew(s)
    ensures ReachedBy(cfg, run', s') && SameCalls(run, run')
    ensures s'.tasks == s.tasks[|s.tasks| - 1 := Done] && s'.sh.free == s.sh.free + 1 && Open(s') == Open(s)
  {
    run', s' := ReleaseRecyclesIffOld(cfg, run, s, |s.tasks| - 1);
    UpdateCounts(s.tasks, |s.tasks| - 1, Done);
  }

  /** The bound is attained under every configuration that allows a session at all: after the drops
      one returned permit serves all loops. */
  lemma BoundIsAttained(cfg: Config, prewarms: nat, drops: nat) returns (run: seq<Action>, s: State)
    requires cfg.maxSize >= 1
    ensures ReachedBy(cfg, run, s) && PrewarmsIn(run) == prewarms && DropsIn(run) == drops
    ensures Open(s) == cfg.maxSize + cfg.minSize * prewarms + drops
  {
    run, s := FilledUp(cfg, prewarms, drops);
    if cfg.minSize > 0 {
      var r, s1 := ReturnNewest(cfg, run, s);
      run, s := LoopsAddAll(cfg, r, s1, prewarms);
    } else {
      assert cfg.minSize * prewarms == 0;
    }
  }

  // ---------------------------------------------------------------- when max_size can be exceeded

  /** Nobody holds or awaits anything but a permit. */
  ghost predicate Empty(s: State) {
    s.sh.free == 0 && s.sh.idle == [] && forall t :: 0 <= t < |s.tasks| ==> OwnerOf(s.tasks[t]).None?
  }

  lemma {:induction false} StaysEmpty(cfg: Config, s: State, run: seq<Action>)
    requires Empty(s) && Exec(cfg, s, run).Some?
    ensures Empty(Exec(cfg, s, run).value)
    decreases |run|
  {
    if run != [] {
      StaysEmpty(cfg, Step(cfg, s, run[0]).value, run[1..]);
    }
  }

  lemma {:induction false} EmptyOpensNothing(ts: seq<Pc>)
    requires forall t :: 0 <= t < |ts| ==> OwnerOf(ts[t]).None?
    ensures Sum(ts, OpenOrOpening) == 0
    decreases |ts|
  {
    if ts != [] {
      EmptyOpensNothing(ts[..|ts| - 1]);
    }
  }

  ghost predicate Exceeds(cfg: Config, prewarms: nat, drops: nat, run: seq<Action>, s: State) {
    PrewarmsIn(run) <= prewarms && DropsIn(run) <= drops && Open(s) > cfg.maxSize
  }

  ghost predicate CanExceed(cfg: Config, prewarms: nat, drops: nat) {
    exists run, s :: ReachedBy(cfg, run, s) && Exceeds(cfg, prewarms, drops, run, s)
  }

  /** More than `max_size` connections can be open, with so many prewarm loops and drops, if and only
      if a session is allowed at all and there is a drop, or a loop that has something to add. */
  lemma ExceedsMaxSizeIff(cfg: Config, prewarms: nat, drops: nat)
    ensures CanExceed(cfg, prewarms, drops) <==> cfg.maxSize >= 1 && (drops >= 1 || (prewarms >= 1 && cfg.minSize >= 1))
  {
    if cfg.maxSize >= 1 && (drops >= 1 || (prewarms >= 1 && cfg.minSize >= 1)) {
      var run, s := BoundIsAttained(cfg, prewarms, drops);
      assert Exceeds(cfg, prewarms, drops, run, s) by {
        if prewarms >= 1 && cfg.minSize >= 1 {
          MulMonotone(cfg.minSize, 1, prewarms);
        }
      }
    }
    if CanExceed(cfg, prewarms, drops) {
      var run, s :| ReachedBy(cfg, run, s) && Exceeds(cfg, prewarms, drops, run, s);
      if cfg.maxSize == 0 {
        StaysEmpty(cfg, Init(cfg), run);
        EmptyOpensNothing(s.tasks);
      } else {
        OpenConnectionsBounded(cfg, run, s);
        MulMonotone(cfg.minSize, PrewarmsIn(run), prewarms);
        assert cfg.minSize == 0 ==> cfg.minSize * PrewarmsIn(run) == 0;
        assert prewarms == 0 ==> cfg.minSize * PrewarmsIn(run) == 0;
      }
    }
  }

  // ---------------------------------------------------------------- what the awaited outcomes decide

  /** A failed connect, ping or reset never leads to a grant, to the recycle check or to the idle stack: what is
      held is closed, or the permit given back. */
  lemma FailureIsNeverGranted(cfg: Config, s: State, t: nat)
    requires t < |s.tasks|
    requires s.tasks[t].Connecting? || s.tasks[t].Pinging? || s.tasks[t].Resetting? || s.tasks[t].Rechecking?
    ensures var s' := Step(cfg, s, Advance(t, false)).value;
            && s'.sh == s.sh
            && match s.tasks[t]
               case Connecting(owner) => s'.tasks[t] == Leaving(owner)
               case Pinging(p, _, _) => s'.tasks[t].Replacing? && s'.tasks[t].p.id == p.id
               case Resetting(p, owner) =>
                 s'.tasks[t].Closing? && s'.tasks[t].p.id == p.id && s'.tasks[t].owner == owner
               case Rechecking(p, owner) =>
                 s'.tasks[t].Closing? && s'.tasks[t].p.id == p.id && s'.tasks[t].owner == owner
               case _ => true
  {
  }

  /** A session waits for a permit exactly while none is free, and may give up exactly while it waits, taking nothing
      with it; traffic leaves its mark on the connection. */
  lemma PermitsAndTraffic(cfg: Config, s: State, t: nat, ok: bool)
    requires t < |s.tasks|
    ensures s.tasks[t].AwaitPermit? ==> (Step(cfg, s, Advance(t, ok)).Some? <==> s.sh.free > 0)
    ensures s.tasks[t].AwaitPermit? && s.sh.free > 0 ==>
              Step(cfg, s, Advance(t, ok)).value.tasks[t] == HasPermit
    ensures Step(cfg, s, TimeOut(t)) == if s.tasks[t].AwaitPermit? then Some(s.(tasks := s.tasks[t := Done])) else None
    ensures s.tasks[t].InUse? ==> Step(cfg, s, Use(t)).Some?
    ensures s.tasks[t].InUse? ==>
              Step(cfg, s, Use(t)).value.tasks[t].InUse? && Step(cfg, s, Use(t)).value.tasks[t].p.conn.dirty
  {
  }

  /** One step of one task whose outcome and move are known. */
  lemma GoWith(cfg: Config, run: seq<Action>, s: State, t: nat, ok: bool, sh: Shared, pc: Pc)
    returns (run': seq<Action>, s': State)
    requires ReachedBy(cfg, run, s) && t < |s.tasks| && Move(cfg, s.sh, t, s.tasks[t], ok) == Some((sh, pc))
    ensures ReachedBy(cfg, run', s') && s' == State(sh, s.tasks[t := pc])
    ensures run' == run + [Advance(t, ok)]
  {
    run', s' := Go(cfg, run, s, Advance(t, ok));
  }

  /** A checkout with a non-empty idle stack pops its top. It hands out this very connection, closing and opening none,
      if and only if its stamp is fresh and its ping succeeds; otherwise it closes it and goes on to connect. */
  lemma CheckoutReusesIff(cfg: Config, run: seq<Action>, s: State, t: nat, pingOk: bool)
    returns (run': seq<Action>, s': State)
    requires ReachedBy(cfg, run, s) && t < |s.tasks| && s.tasks[t].HasPermit? && s.sh.idle != []
    ensures ReachedBy(cfg, run', s') && |s'.tasks| == |s.tasks|
    ensures s'.sh.idle == s.sh.idle[..|s.sh.idle| - 1] && s'.sh.nextId == s.sh.nextId && s'.sh.free == s.sh.free
    ensures var top := s.sh.idle[|s.sh.idle| - 1];
            if FreshAt(cfg, top, s.sh.now) && pingOk
            then && run' == run + [Advance(t, true)] + [Advance(t, true)] + [Advance(t, pingOk)]
                 && s'.tasks[t].InUse? && s'.tasks[t].p.id == top.id && s'.sh.closed == s.sh.closed
            else s'.tasks[t] == Connecting(Caller) && s'.sh.closed == s.sh.closed + [top.id]
  {
    ReachedInv(cfg, run, s);
    var top := s.sh.idle[|s.sh.idle| - 1];
    assert Clean(s.sh.now, top);
    var p := top.(conn := TakenOut(top.conn));
    var sh := s.sh.(idle := s.sh.idle[..|s.sh.idle| - 1]);
    var r1, s1 := GoWith(cfg, run, s, t, true, sh, Taken(p, s.sh.now));
    if !FreshAt(cfg, top, s.sh.now) {
      var r2, s2 := GoWith(cfg, r1, s1, t, true, sh, Replacing(p));
      run', s' := GoWith(cfg, r2, s2, t, true, sh.(closed := sh.closed + [p.id]), Connecting(Caller));
    } else {
      var r2, s2 := GoWith(cfg, r1, s1, t, true, sh, Pinging(p, s.sh.now, s.sh.now));
      var q := p.(conn := HealthCheck(p.conn, pingOk).0);
      if pingOk {
        var g := Grant(t, q, true, s.sh.now, s.sh.now, s.sh.now);
        run', s' := GoWith(cfg, r2, s2, t, pingOk, sh.(granted := sh.granted + [g]), InUse(q));
      } else {
        var r3, s3 := GoWith(cfg, r2, s2, t, pingOk, sh, Replacing(q));
        run', s' := GoWith(cfg, r3, s3, t, true, sh.(closed := sh.closed + [q.id]), Connecting(Caller));
      }
    }
  }

  /** With an empty stack, or after closing what was popped, a session gets a new connection if connecting succeeds;
      otherwise its permit comes back and it is over. */
  lemma ConnectsOrGivesUp(cfg: Config, run: seq<Action>, s: State, t: nat, ok: bool)
    returns (run': seq<Action>, s': State)
    requires ReachedBy(cfg, run, s) && t < |s.tasks| && s.tasks[t] == Connecting(Caller)
    ensures ReachedBy(cfg, run', s') && |s'.tasks| == |s.tasks|
    ensures s'.sh.idle == s.sh.idle && s'.sh.closed == s.sh.closed
    ensures if ok then && s'.tasks[t].InUse? && s'.tasks[t].p.id == s.sh.nextId && s'.tasks[t].p.conn.handshaken
                       && s'.tasks[t].p.lastUsed == s.sh.now && s'.sh.free == s.sh.free
            else s'.tasks[t] == Done && s'.sh.free == s.sh.free + 1 && s'.sh.granted == s.sh.granted
  {
    var r1, s1 := Go(cfg, run, s, Advance(t, ok));
    if ok {
      run', s' := r1, s1;
    } else {
      run', s' := GoWith(cfg, r1, s1, t, true, s.sh.(free := s.sh.free + 1), Done);
    }
  }

  /** Both return paths, `release` and the orphan a Drop leaves: the connection is stored with a new stamp if
      and only if it is healthy, its reset and health check succeed and its stamp is fresh, and is closed
      otherwise; only the caller gives a permit back. */
  lemma ReturnStoresIff(cfg: Config, run: seq<Action>, s: State, t: nat, resetOk: bool, pingOk: bool)
    returns (run': seq<Action>, s': State)
    requires ReachedBy(cfg, run, s) && t < |s.tasks| && s.tasks[t].Resetting? && !s.tasks[t].owner.Loop?
    ensures ReachedBy(cfg, run', s') && s'.tasks == s.tasks[t := Done]
    ensures s'.sh.free == s.sh.free + if s.tasks[t].owner.Caller? then 1 else 0
    ensures var p := s.tasks[t].p;
            if p.conn.healthy && resetOk && pingOk && FreshAt(cfg, p, s.sh.now)
            then && s'.sh.closed == s.sh.closed
                 && |s'.sh.idle| == |s.sh.idle| + 1 && s'.sh.idle[..|s.sh.idle|] == s.sh.idle
                 && s'.sh.idle[|s.sh.idle|].id == p.id && s'.sh.idle[|s.sh.idle|].lastUsed == s.sh.now
            else s'.sh.idle == s.sh.idle && s'.sh.closed == s.sh.closed + [p.id]
  {
    var p, owner := s.tasks[t].p, s.tasks[t].owner;
    var p1 := p.(conn := Reset(p.conn, resetOk).0);
    if !resetOk {
      var r1, s1 := GoWith(cfg, run, s, t, resetOk, s.sh, Closing(p1, owner));
      run', s' := ClosesAndLeaves(cfg, r1, s1, t);
    } else {
      var r1, s1 := GoWith(cfg, run, s, t, resetOk, s.sh, Rechecking(p1, owner));
      var p2 := p1.(conn := HealthCheck(p1.conn, pingOk).0);
      if !p.conn.healthy || !pingOk {
        var r2, s2 := GoWith(cfg, r1, s1, t, pingOk, s.sh, Closing(p2, owner));
        run', s' := ClosesAndLeaves(cfg, r2, s2, t);
      } else {
        var r2, s2 := GoWith(cfg, r1, s1, t, pingOk, s.sh, Deciding(p2, owner));
        run', s' := DecidesAndLeaves(cfg, r2, s2, t);
      }
    }
    assert s'.tasks == s.tasks[t := Done];
  }

  lemma ClosesAndLeaves(cfg: Config, run: seq<Action>, s: State, t: nat) returns (run': seq<Action>, s': State)
    requires ReachedBy(cfg, run, s) && t < |s.tasks| && s.tasks[t].Closing? && !s.tasks[t].owner.Loop?
    ensures ReachedBy(cfg, run', s') && s'.tasks == s.tasks[t := Done] && s'.sh.idle == s.sh.idle
    ensures s'.sh.closed == s.sh.closed + [s.tasks[t].p.id]
    ensures s'.sh.free == s.sh.free + if s.tasks[t].owner.Caller? then 1 else 0
  {
    var p, owner := s.tasks[t].p, s.tasks[t].owner;
    var sh := s.sh.(closed := s.sh.closed + [p.id]);
    var r1, s1 := GoWith(cfg, run, s, t, true, sh, Leaving(owner));
    run', s' := GoWith(cfg, r1, s1, t, true, if owner.Caller? then sh.(free := sh.free + 1) else sh, Done);
    assert s'.tasks == s.tasks[t := Done];
  }

  lemma DecidesAndLeaves(cfg: Config, run: seq<Action>, s: State, t: nat) returns (run': seq<Action>, s': State)
    requires ReachedBy(cfg, run, s) && t < |s.tasks| && s.tasks[t].Deciding? && !s.tasks[t].owner.Loop?
    ensures ReachedBy(cfg, run', s') && s'.tasks == s.tasks[t := Done]
    ensures s'.sh.free == s.sh.free + if s.tasks[t].owner.Caller? then 1 else 0
    ensures var p := s.tasks[t].p;
            if FreshAt(cfg, p, s.sh.now)
            then s'.sh.closed == s.sh.closed && s'.sh.idle == s.sh.idle + [p.(lastUsed := s.sh.now)]
            else s'.sh.idle == s.sh.idle && s'.sh.closed == s.sh.closed + [p.id]
  {
    var p, owner := s.tasks[t].p, s.tasks[t].owner;
    if FreshAt(cfg, p, s.sh.now) {
      var q := p.(lastUsed := s.sh.now);
      var r1, s1 := GoWith(cfg, run, s, t, true, s.sh, Stamping(p, owner));
      var r2, s2 := GoWith(cfg, r1, s1, t, true, s.sh, Pushing(q, owner));
      var sh := s.sh.(idle := s.sh.idle + [q]);
      var r3, s3 := GoWith(cfg, r2, s2, t, true, sh, Leaving(owner));
      run', s' := GoWith(cfg, r3, s3, t, true, if owner.Caller? then sh.(free := sh.free + 1) else sh, Done);
    } else {
      var r1, s1 := GoWith(cfg, run, s, t, true, s.sh, Closing(p, owner));
      run', s' := ClosesAndLeaves(cfg, r1, s1, t);
    }
    assert s'.tasks == s.tasks[t := Done];
  }

  /** A prewarm round that nothing disturbs tops the idle stack up to `min_size`, and adds nothing to a fuller one. */
  lemma RoundTopsUp(cfg: Config, run: seq<Action>, s: State, t: nat) returns (run': seq<Action>, s': State)
    requires ReachedBy(cfg, run, s) && t < |s.tasks| && s.tasks[t].LoopTop? && s.sh.free >= 1
    ensures ReachedBy(cfg, run', s') && s'.tasks == s.tasks[t := LoopRound(0)] && s'.sh.free == s.sh.free
    ensures |s'.sh.idle| == if |s.sh.idle| < cfg.minSize then cfg.minSize else |s.sh.idle|
    ensures s.sh.idle <= s'.sh.idle
  {
    var b := if |s.sh.idle| < cfg.minSize then cfg.minSize - |s.sh.idle| else 0;
    var r1, s1 := GoWith(cfg, run, s, t, true, s.sh, LoopRound(b));
    run', s' := LoopAddsAll(cfg, r1, s1, t, b);
    assert s'.tasks == s.tasks[t := LoopRound(0)];
  }

  /** An attempt without a permit, and one whose connect fails, use up one attempt and change nothing else. */
  lemma FailedAttempt(cfg: Config, run: seq<Action>, s: State, t: nat, b: nat)
    returns (run': seq<Action>, s': State, run'': seq<Action>, s'': State)
    requires ReachedBy(cfg, run, s) && t < |s.tasks| && s.tasks[t] == LoopRound(b + 1)
    ensures ReachedBy(cfg, run', s') && s' == s.(tasks := s.tasks[t := LoopRound(b)])
    ensures s.sh.free >= 1 ==> ReachedBy(cfg, run'', s'') && s'' == s'
  {
    run', s' := GoWith(cfg, run, s, t, false, s.sh, LoopRound(b));
    run'', s'' := run', s';
    if s.sh.free >= 1 {
      var sh := s.sh.(free := s.sh.free - 1);
      var r1, s1 := GoWith(cfg, run, s, t, true, sh, Connecting(Loop(b)));
      var r2, s2 := GoWith(cfg, r1, s1, t, false, sh, Leaving(Loop(b)));
      run'', s'' := GoWith(cfg, r2, s2, t, true, s.sh, LoopRound(b));
      assert s''.tasks == s.tasks[t := LoopRound(b)];
    }
  }
}
