/** The database actor step by step: a command is several stages (SQL, memory, managed ids,
    persist) and SQL may fail, or apply and lose its answer, at each of them; the process may
    crash between any two, and restart through the bootstrap.
  */
module MetadataActor {
  import opened Wrappers
  import opened Metadata

  /** The answer to one SQL statement; `Lost` applied it but the caller saw an error. */
  datatype Sql = Done | Rejected | Lost

  datatype Pc =
    | Idle
    | Ddl(cmd: Command)
    | Introspect(cmd: Command)
    | IdsFirst(cmd: Command)                // RemoveManagedId and AddManagedId touch the ids first
    | Memory(cmd: Command, seen: Tables)
    | Ids(cmd: Command, snap: Snapshot)
    | Persist(cmd: Command, snap: Snapshot)
    | BootEnsure
    | BootLoad
    | BootIntrospect(persisted: Option<Snapshot>)
    | BootMemory(md: Snapshot)
    | BootIds(md: Snapshot)
    | BootPersist(md: Snapshot)
    | Down

  datatype Reply = NoReply | Replied(cmd: Command, ok: bool)

  datatype State = State(
    actual: Tables,             // the schema in the database, metadata table aside
    disk: Option<Snapshot>,   // the row of the metadata table
    mem: Snapshot,
    managed: set<string>,
    pc: Pc,
    reply: Reply,             // the latest answer since the last start
    filled: bool,             // history: since the last start a bootstrap has filled the memory
    booted: bool)             // history: the latest bootstrap succeeded

  datatype Action =
    | Receive(cmd: Command)
    | Proceed(sql: Sql)
    | Elsewhere(actual: Tables)  // schema changed by raw SQL or another client
    | Crash
    | Restart

  const NOTHING := Snapshot(map[], map[])

  function Init(actual: Tables): State {
    State(actual, None, NOTHING, {}, Down, NoReply, false, false)
  }

  function Answer(s: State, cmd: Command, ok: bool): State {
    s.(pc := Idle, reply := Replied(cmd, ok))
  }

  function FirstStage(cmd: Command): Pc {
    match cmd
    case AddManagedId(_) | RemoveManagedId(_) => IdsFirst(cmd)
    case RegisterBinding(_, _) | UnregisterBinding(_) => Memory(cmd, map[])
    case CreateTable(_, _) | DropTable(_) | AddColumn(_, _) | DropColumn(_, _) => Ddl(cmd)
    case RefreshSchema => Introspect(cmd)
  }

  /** The statement each schema command sends, with its IF (NOT) EXISTS. */
  function DdlEffect(cmd: Command, actual: Tables): Tables {
    match cmd
    case CreateTable(t, cols) => if t in actual then actual else actual[t := Columns(cols)]
    case DropTable(t) => actual - {t}
    case AddColumn(t, c) => if t in actual then actual[t := actual[t] + {c}] else actual
    case DropColumn(t, c) => if t in actual then actual[t := actual[t] - {c}] else actual
    case _ => actual
  }

  /** ALTER TABLE on a missing table is an error. */
  predicate DdlPossible(cmd: Command, actual: Tables) {
    match cmd
    case AddColumn(t, _) => t in actual
    case DropColumn(t, _) => t in actual
    case _ => true
  }

  /** Whether the handler rebuilds or edits the managed ids after its memory stage. */
  predicate IdsFollowMemory(cmd: Command) {
    cmd.RegisterBinding? || cmd.UnregisterBinding? || cmd.DropTable? || cmd.DropColumn? || cmd.RefreshSchema?
  }

  function Stage(s: State, sql: Sql): Option<State> {
    match s.pc
    case Idle => None
    case Down => None
    case Ddl(cmd) =>
      if sql.Rejected? then Some(Answer(s, cmd, false))
      else if !DdlPossible(cmd, s.actual) then None
      else
        var s' := s.(actual := DdlEffect(cmd, s.actual));
        Some(if sql.Done? then s'.(pc := Memory(cmd, map[])) else Answer(s', cmd, false))
    case Introspect(cmd) =>
      Some(if sql.Done? then s.(pc := Memory(cmd, s.actual)) else Answer(s, cmd, false))
    case IdsFirst(cmd) =>
      if cmd.AddManagedId? then Some(Answer(s.(managed := s.managed + {cmd.id}), cmd, true))
      else if cmd.RemoveManagedId? then Some(s.(managed := s.managed - {cmd.id}, pc := Memory(cmd, map[])))
      else None
    case Memory(cmd, seen) =>
      var md := Updated(cmd, s.mem, seen);
      Some(s.(mem := md, pc := if IdsFollowMemory(cmd) then Ids(cmd, md) else Persist(cmd, md)))
    case Ids(cmd, snap) =>
      Some(s.(managed := if cmd.UnregisterBinding? then s.managed - {cmd.id} else snap.bindings.Keys,
              pc := Persist(cmd, snap)))
    case Persist(cmd, snap) =>
      Some(Answer(s.(disk := if sql.Rejected? then s.disk else Some(snap)), cmd, sql.Done?))
    case BootEnsure => Some(s.(pc := if sql.Done? then BootLoad else Idle))
    case BootLoad => Some(s.(pc := if sql.Done? then BootIntrospect(s.disk) else Idle))
    case BootIntrospect(persisted) =>
      Some(s.(pc := if sql.Done? then BootMemory(Merged(s.actual, persisted)) else Idle))
    case BootMemory(md) => Some(s.(mem := md, filled := true, pc := BootIds(md)))
    case BootIds(md) => Some(s.(managed := md.bindings.Keys, pc := BootPersist(md)))
    case BootPersist(md) =>
      Some(s.(disk := if sql.Rejected? then s.disk else Some(md), pc := Idle, booted := sql.Done?))
  }

  /** Schema from the database, bindings from the last snapshot, pruned. */
  function Merged(actual: Tables, persisted: Option<Snapshot>): Snapshot {
    Snapshot(actual, Pruned(actual, if persisted.Some? then persisted.value.bindings else map[]))
  }

  function Step(s: State, a: Action): Option<State> {
    match a
    case Receive(cmd) =>
      if !s.pc.Idle? then None
      else if Accepted(cmd) then Some(s.(pc := FirstStage(cmd), reply := NoReply))
      else Some(Answer(s, cmd, false))
    case Proceed(sql) => Stage(s, sql)
    case Elsewhere(actual) => Some(s.(actual := actual))
    case Crash =>
      Some(s.(mem := NOTHING, managed := {}, pc := Down, reply := NoReply, filled := false, booted := false))
    case Restart => if s.pc.Down? then Some(s.(pc := BootEnsure)) else None
  }

  function Exec(s: State, run: seq<Action>): Option<State>
    decreases |run|
  {
    if run == [] then Some(s)
    else match Step(s, run[0])
      case None => None
      case Some(s') => Exec(s', run[1..])
  }

  // ---------------------------------------------------------------- bindings always resolve

  ghost predicate ConsistentDisk(d: Option<Snapshot>) {
    d.Some? ==> Consistent(d.value)
  }

  /** What a stage carries agrees with what has been done so far. */
  ghost predicate StageInv(s: State) {
    match s.pc
    case Ddl(cmd) => FirstStage(cmd) == s.pc
    case Introspect(cmd) => FirstStage(cmd) == s.pc
    case IdsFirst(cmd) => FirstStage(cmd) == s.pc
    case Ids(_, snap) => snap == s.mem
    case Persist(_, snap) => snap == s.mem
    case BootEnsure => s.mem == NOTHING
    case BootLoad => s.mem == NOTHING
    case BootIntrospect(p) => s.mem == NOTHING && ConsistentDisk(p)
    case BootMemory(md) => s.mem == NOTHING && Consistent(md)
    case BootIds(md) => md == s.mem
    case BootPersist(md) => md == s.mem
    case Down => s.mem == NOTHING
    case _ => true
  }

  ghost predicate BindingInv(s: State) {
    Consistent(s.mem) && ConsistentDisk(s.disk) && StageInv(s)
  }

  lemma BindingMemory(s: State, sql: Sql)
    requires BindingInv(s) && s.pc.Memory?
    ensures BindingInv(Stage(s, sql).value)
  {
    UpdatedIsConsistent(s.pc.cmd, s.mem, s.pc.seen);
  }

  predicate BootPc(pc: Pc) {
    pc.BootEnsure? || pc.BootLoad? || pc.BootIntrospect? || pc.BootMemory? || pc.BootIds? || pc.BootPersist?
  }

  lemma BindingBoot(s: State, sql: Sql)
    requires BindingInv(s) && BootPc(s.pc)
    ensures BindingInv(Stage(s, sql).value)
  {
  }

  lemma BindingStage(s: State, sql: Sql)
    requires BindingInv(s) && Stage(s, sql).Some?
    ensures BindingInv(Stage(s, sql).value)
  {
    if s.pc.Memory? {
      BindingMemory(s, sql);
    } else if BootPc(s.pc) {
      BindingBoot(s, sql);
    }
  }

  lemma BindingStep(s: State, a: Action)
    requires BindingInv(s) && Step(s, a).Some?
    ensures BindingInv(Step(s, a).value)
  {
    if a.Proceed? {
      BindingStage(s, a.sql);
    }
  }

  // ---------------------------------------------------------------- managed ids cover bindings

  /** The ids that may be bound without being managed at this stage. */
  function Uncovered(pc: Pc): set<string> {
    match pc
    case Memory(cmd, _) => if cmd.RemoveManagedId? then {cmd.id} else {}
    case _ => {}
  }

  /** Stages between a memory update and the rebuilding of the ids. */
  predicate IdsPending(pc: Pc) {
    match pc
    case Ids(cmd, _) => !cmd.UnregisterBinding?
    case BootIds(_) => true
    case _ => false
  }

  ghost predicate CoverInv(s: State) {
    && (!IdsPending(s.pc) ==> s.mem.bindings.Keys <= s.managed + Uncovered(s.pc))
    && (s.pc.Ids? && s.pc.cmd.UnregisterBinding? ==> s.pc.cmd.id !in s.mem.bindings)
  }

  lemma CoverMemory(s: State, sql: Sql)
    requires BindingInv(s) && CoverInv(s) && s.pc.Memory?
    ensures CoverInv(Stage(s, sql).value)
  {
    var u := Updated(s.pc.cmd, s.mem, s.pc.seen);
    assert !s.pc.cmd.RegisterBinding? ==> u.bindings.Keys <= s.mem.bindings.Keys;
  }

  lemma CoverBoot(s: State, sql: Sql)
    requires BindingInv(s) && CoverInv(s) && BootPc(s.pc)
    ensures CoverInv(Stage(s, sql).value)
  {
  }

  lemma CoverStage(s: State, sql: Sql)
    requires BindingInv(s) && CoverInv(s) && !s.pc.Memory? && !BootPc(s.pc) && Stage(s, sql).Some?
    ensures CoverInv(Stage(s, sql).value)
  {
  }

  lemma CoverStep(s: State, a: Action)
    requires BindingInv(s) && CoverInv(s) && Step(s, a).Some?
    ensures CoverInv(Step(s, a).value)
  {
    if a.Proceed? {
      if s.pc.Memory? {
        CoverMemory(s, a.sql);
      } else if BootPc(s.pc) {
        CoverBoot(s, a.sql);
      } else {
        CoverStage(s, a.sql);
      }
    }
  }

  /** An Ok answer to any command but AddManagedId leaves disk and memory equal. */
  ghost predicate ReplyInv(s: State) {
    && (!s.pc.Idle? ==> s.reply.NoReply?)
    && (s.reply.Replied? && s.reply.ok && !s.reply.cmd.AddManagedId? ==> s.disk == Some(s.mem))
  }

  lemma ReplyStage(s: State, sql: Sql)
    requires BindingInv(s) && ReplyInv(s) && Stage(s, sql).Some?
    ensures ReplyInv(Stage(s, sql).value)
  {
  }

  lemma ReplyStep(s: State, a: Action)
    requires BindingInv(s) && ReplyInv(s) && Step(s, a).Some?
    ensures ReplyInv(Step(s, a).value)
  {
    if a.Proceed? {
      ReplyStage(s, a.sql);
    }
  }

  // ---------------------------------------------------------------- every run

  ghost predicate Inv(s: State) {
    BindingInv(s) && CoverInv(s) && ReplyInv(s)
  }

  lemma {:induction false} InvRun(s: State, run: seq<Action>)
    requires Inv(s) && Exec(s, run).Some?
    ensures Inv(Exec(s, run).value)
    decreases |run|
  {
    if run != [] {
      BindingStep(s, run[0]);
      CoverStep(s, run[0]);
      ReplyStep(s, run[0]);
      InvRun(Step(s, run[0]).value, run[1..]);
    }
  }

  /** With any SQL failures, crashes and foreign schema changes: bindings in memory and in
      every snapshot ever written resolve; between commands every bound id is managed; and
      an Ok answer means that disk and memory agree. */
  lemma EveryRun(actual: Tables, run: seq<Action>, s: State)
    requires Exec(Init(actual), run) == Some(s)
    ensures Consistent(s.mem) && ConsistentDisk(s.disk)
    ensures s.pc.Idle? ==> s.mem.bindings.Keys <= s.managed
    ensures s.pc.Idle? && s.reply.Replied? && s.reply.ok && !s.reply.cmd.AddManagedId? ==> s.disk == Some(s.mem)
  {
    InvRun(Init(actual), run);
  }

  // ---------------------------------------------------------------- when the ids are exact

  /** Every binding of the table, to a column, finds that column in the new definition. */
  ghost predicate KeepsBoundColumns(md: Snapshot, table: string, cols: seq<string>) {
    forall id :: id in md.bindings && md.bindings[id].table == table && md.bindings[id].column.Some?
                 ==> md.bindings[id].column.value in cols
  }

  /** The only two steps that can leave an unbound id managed do not: AddManagedId gets a bound id, and
      the memory stage of CreateTable drops no binding. */
  ghost predicate Plain(s: State, a: Action) {
    a.Proceed? ==>
      && (s.pc.IdsFirst? && s.pc.cmd.AddManagedId? ==> s.pc.cmd.id in s.mem.bindings)
      && (s.pc.Memory? && s.pc.cmd.CreateTable? ==> KeepsBoundColumns(s.mem, s.pc.cmd.table, s.pc.cmd.columns))
  }

  ghost predicate PlainRun(s: State, run: seq<Action>)
    decreases |run|
  {
    run == [] || (Plain(s, run[0]) && Step(s, run[0]).Some? && PlainRun(Step(s, run[0]).value, run[1..]))
  }

  ghost predicate ExactInv(s: State) {
    match s.pc
    case Ids(cmd, _) => cmd.UnregisterBinding? ==> s.managed - {cmd.id} == s.mem.bindings.Keys
    case BootIds(_) => true
    case Memory(cmd, _) => s.managed == s.mem.bindings.Keys - Uncovered(s.pc)
    case _ => s.managed == s.mem.bindings.Keys
  }

  /** The keys of the pruned bindings after CreateTable are the old ones exactly under the condition. */
  lemma CreateTableKeepsKeysIff(md: Snapshot, table: string, cols: seq<string>, seen: Tables)
    requires Consistent(md)
    ensures Updated(CreateTable(table, cols), md, seen).bindings.Keys == md.bindings.Keys <==>
        KeepsBoundColumns(md, table, cols)
  {
    var u := Updated(CreateTable(table, cols), md, seen);
    forall id | id in md.bindings
      ensures id in u.bindings <==> Resolves(u.tables, md.bindings[id])
      ensures Resolves(md.tables, md.bindings[id])
    {
    }
    if u.bindings.Keys == md.bindings.Keys {
      forall id | id in md.bindings && md.bindings[id].table == table && md.bindings[id].column.Some?
        ensures md.bindings[id].column.value in cols
      {
        assert id in u.bindings;
      }
    }
  }

  lemma ExactCreateIff(s: State, sql: Sql)
    requires BindingInv(s) && ExactInv(s) && s.pc.Memory? && s.pc.cmd.CreateTable?
    ensures ExactInv(Stage(s, sql).value) <==> Plain(s, Proceed(sql))
  {
    CreateTableKeepsKeysIff(s.mem, s.pc.cmd.table, s.pc.cmd.columns, s.pc.seen);
  }

  lemma ExactMemory(s: State, sql: Sql)
    requires BindingInv(s) && ExactInv(s) && s.pc.Memory? && !s.pc.cmd.CreateTable?
    ensures ExactInv(Stage(s, sql).value)
  {
    if s.pc.cmd.AddColumn? {
      GrowingKeepsBindings(Updated(s.pc.cmd, s.mem, s.pc.seen).tables, s.mem);
    }
  }

  lemma ExactStageIff(s: State, sql: Sql)
    requires BindingInv(s) && ExactInv(s) && !s.pc.Memory? && Stage(s, sql).Some?
    ensures ExactInv(Stage(s, sql).value) <==> Plain(s, Proceed(sql))
  {
  }

  /** A step keeps the managed ids exact if and only if it is a plain one. */
  lemma ExactStepIff(s: State, a: Action)
    requires BindingInv(s) && ExactInv(s) && Step(s, a).Some?
    ensures ExactInv(Step(s, a).value) <==> Plain(s, a)
  {
    if a.Proceed? {
      if s.pc.Memory? && s.pc.cmd.CreateTable? {
        ExactCreateIff(s, a.sql);
      } else if s.pc.Memory? {
        ExactMemory(s, a.sql);
      } else {
        ExactStageIff(s, a.sql);
      }
    }
  }

  /** Pruning against a schema that has every tracked table and column removes nothing. */
  lemma GrowingKeepsBindings(tables: Tables, md: Snapshot)
    requires Consistent(md)
    requires forall t :: t in md.tables ==> t in tables && md.tables[t] <= tables[t]
    ensures Pruned(tables, md.bindings) == md.bindings
  {
  }

  lemma {:induction false} ExactRun(s: State, run: seq<Action>)
    requires BindingInv(s) && ExactInv(s) && PlainRun(s, run)
    ensures Exec(s, run).Some? && ExactInv(Exec(s, run).value)
    decreases |run|
  {
    if run != [] {
      BindingStep(s, run[0]);
      ExactStepIff(s, run[0]);
      ExactRun(Step(s, run[0]).value, run[1..]);
    }
  }

  /** As long as AddManagedId gets bound ids and CreateTable drops no binding, the managed ids are
      exactly the bound ids between commands. */
  lemma ManagedIdsExact(actual: Tables, run: seq<Action>, s: State)
    requires PlainRun(Init(actual), run) && Exec(Init(actual), run) == Some(s)
    ensures s.pc.Idle? ==> s.managed == s.mem.bindings.Keys
  {
    ExactRun(Init(actual), run);
  }

  lemma ExecTwo(s: State, a: Action, b: Action)
    ensures Exec(s, [a, b]) == if Step(s, a).None? then None else Step(Step(s, a).value, b)
  {
    assert [a, b][1..] == [b] && [b][1..] == [];
    if Step(s, a).Some? && Step(Step(s, a).value, b).Some? {
      var s' := Step(Step(s, a).value, b).value;
      assert Exec(s', []) == Some(s');
      assert Exec(Step(s, a).value, [b]) == Exec(s', [b][1..]);
    }
  }

  /** CreateTable, from its memory stage to its answer, keeps exact ids exact if and only if every
      bound column of the table is in the new definition: it prunes bindings but never touches the ids. */
  lemma CreateTableKeepsIdsExactIff(s: State, table: string, cols: seq<string>, seen: Tables,
                                    sql: Sql, persist: Sql, s': State)
    requires Consistent(s.mem) && s.pc == Memory(CreateTable(table, cols), seen) && s.managed == s.mem.bindings.Keys
    requires Exec(s, [Proceed(sql), Proceed(persist)]) == Some(s')
    ensures s'.pc.Idle?
    ensures s'.managed == s'.mem.bindings.Keys <==> KeepsBoundColumns(s.mem, table, cols)
  {
    CreateTableKeepsKeysIff(s.mem, table, cols, seen);
    ExecTwo(s, Proceed(sql), Proceed(persist));
  }

  /** AddManagedId keeps exact ids exact if and only if the id is bound. */
  lemma AddManagedIdKeepsIdsExactIff(s: State, id: string, sql: Sql, s': State)
    requires s.pc.Idle? && s.managed == s.mem.bindings.Keys
    requires Exec(s, [Receive(AddManagedId(id)), Proceed(sql)]) == Some(s')
    ensures s'.pc.Idle?
    ensures s'.managed == s'.mem.bindings.Keys <==> id in s.mem.bindings
  {
    ExecTwo(s, Receive(AddManagedId(id)), Proceed(sql));
  }

  /** RegisterBinding answers Ok whatever the target, with the disk equal to memory; the id is bound to
      it if and only if the target is tracked, and otherwise to nothing. */
  lemma RegistrationAnswersOk(s: State, id: string, b: Binding) returns (s': State)
    requires s.pc.Idle? && Consistent(s.mem) && Accepted(RegisterBinding(id, b))
    ensures Exec(s, [Receive(RegisterBinding(id, b)), Proceed(Done), Proceed(Done), Proceed(Done)]) == Some(s')
    ensures s'.pc.Idle? && s'.reply == Replied(RegisterBinding(id, b), true) && s'.disk == Some(s'.mem)
    ensures id in s'.mem.bindings <==> Resolves(s.mem.tables, b)
    ensures id in s'.mem.bindings ==> s'.mem.bindings[id] == b
    ensures s'.mem.bindings - {id} == s.mem.bindings - {id}
  {
    RegistrationTakesEffectIff(s.mem, id, b, map[]);
    assert Exec(s, []) == Some(s);
    var r1, s1 := Go(s, [], s, Receive(RegisterBinding(id, b)));
    var r2, s2 := Go(s, r1, s1, Proceed(Done));
    var r3, s3 := Go(s, r2, s2, Proceed(Done));
    var r4, s4 := Go(s, r3, s3, Proceed(Done));
    s' := s4;
    assert r4 == [Receive(RegisterBinding(id, b)), Proceed(Done), Proceed(Done), Proceed(Done)];
  }

  // ---------------------------------------------------------------- what each command does, from any state

  /** All tables but one are as before. */
  ghost predicate SameBut(before: Tables, now: Tables, table: string) {
    forall t :: t != table ==> (t in now <==> t in before) && (t in now ==> now[t] == before[t])
  }

  /** Of the old bindings exactly the kept ones are there, as they were. */
  ghost predicate Kept(before: Bindings, now: Bindings, keep: Binding -> bool) {
    forall id :: (id in now <==> id in before && keep(before[id])) && (id in now ==> now[id] == before[id])
  }

  /** What a command whose statements all succeed has done between two idle states, settled or not. */
  ghost predicate Did(cmd: Command, s: State, s': State) {
    var (md, md') := (s.mem, s'.mem);
    && (!cmd.AddManagedId? ==> s'.disk == Some(md'))
    && (cmd.RegisterBinding? || cmd.DropTable? || cmd.DropColumn? || cmd.RefreshSchema? ==>
          s'.managed == md'.bindings.Keys)
    && match cmd
       case AddManagedId(id) =>
         s'.actual == s.actual && md' == md && s'.disk == s.disk && s'.managed == s.managed + {id}
       case RemoveManagedId(id) => LetGo(id, s, s')
       case UnregisterBinding(id) => LetGo(id, s, s')
       case RegisterBinding(id, b) =>
         && s'.actual == s.actual && md'.tables == md.tables
         && (id in md'.bindings <==> b.table in md.tables && (b.column.None? || b.column.value in md.tables[b.table]))
         && (id in md'.bindings ==> md'.bindings[id] == b)
         && md'.bindings - {id} == md.bindings - {id}
       case CreateTable(t, cols) =>
         && SameBut(s.actual, s'.actual, t) && t in s'.actual
         && (forall c :: c in s'.actual[t] <==> if t in s.actual then c in s.actual[t] else c in cols)
         && SameBut(md.tables, md'.tables, t) && t in md'.tables && (forall c :: c in md'.tables[t] <==> c in cols)
         && Kept(md.bindings, md'.bindings, (b: Binding) => b.table != t || b.column.None? || b.column.value in cols)
         && s'.managed == s.managed
       case DropTable(t) =>
         && SameBut(s.actual, s'.actual, t) && t !in s'.actual
         && SameBut(md.tables, md'.tables, t) && t !in md'.tables
         && Kept(md.bindings, md'.bindings, (b: Binding) => b.table != t)
       case AddColumn(t, c) =>
         && SameBut(s.actual, s'.actual, t) && t in s.actual && t in s'.actual && s'.actual[t] == s.actual[t] + {c}
         && SameBut(md.tables, md'.tables, t) && t in md'.tables
         && md'.tables[t] == (if t in md.tables then md.tables[t] else {}) + {c}
         && md'.bindings == md.bindings && s'.managed == s.managed
       case DropColumn(t, c) =>
         && SameBut(s.actual, s'.actual, t) && t in s.actual && t in s'.actual && s'.actual[t] == s.actual[t] - {c}
         && SameBut(md.tables, md'.tables, t) && (t in md'.tables <==> t in md.tables)
         && (t in md.tables ==> md'.tables[t] == md.tables[t] - {c})
         && Kept(md.bindings, md'.bindings, (b: Binding) => !(b.table == t && b.column == Some(c)))
       case RefreshSchema =>
         && s'.actual == s.actual && md'.tables == s.actual
         && Kept(md.bindings, md'.bindings,
                 (b: Binding) => b.table in s.actual && (b.column.None? || b.column.value in s.actual[b.table]))
  }

  /** The id is neither bound nor managed any more; nothing else changes. */
  ghost predicate LetGo(id: string, s: State, s': State) {
    && s'.actual == s.actual && s'.mem == s.mem.(bindings := s.mem.bindings - {id}) && s'.managed == s.managed - {id}
  }

  /** A run of one command from an idle state. */
  ghost predicate Ran(s: State, cmd: Command, run: seq<Action>, t: State) {
    && run != [] && run[0] == Receive(cmd) && (forall i :: 1 <= i < |run| ==> run[i] == Proceed(Done))
    && Exec(s, run) == Some(t)
  }

  lemma Start(s: State, cmd: Command) returns (run: seq<Action>, t: State)
    requires s.pc.Idle? && Accepted(cmd)
    ensures Ran(s, cmd, run, t) && t == s.(pc := FirstStage(cmd), reply := NoReply)
  {
    assert Exec(s, []) == Some(s);
    run, t := Go(s, [], s, Receive(cmd));
  }

  lemma Next(s: State, cmd: Command, run: seq<Action>, t: State) returns (run': seq<Action>, t': State)
    requires Ran(s, cmd, run, t) && Stage(t, Done).Some?
    ensures Ran(s, cmd, run', t') && t' == Stage(t, Done).value
  {
    run', t' := Go(s, run, t, Proceed(Done));
  }

  /** The stages behind the memory stage. */
  lemma Finish(s: State, cmd: Command, run: seq<Action>, t: State) returns (run': seq<Action>, t': State)
    requires Ran(s, cmd, run, t) && t.pc.Memory? && t.pc.cmd == cmd
    ensures Ran(s, cmd, run', t') && t'.pc.Idle? && t'.reply == Replied(cmd, true)
    ensures t'.actual == t.actual && t'.mem == Updated(cmd, t.mem, t.pc.seen) && t'.disk == Some(t'.mem)
    ensures t'.managed == if cmd.UnregisterBinding? then t.managed - {cmd.id}
                          else if IdsFollowMemory(cmd) then t'.mem.bindings.Keys else t.managed
  {
    var r1, t1 := Next(s, cmd, run, t);
    if IdsFollowMemory(cmd) {
      r1, t1 := Next(s, cmd, r1, t1);
    }
    run', t' := Next(s, cmd, r1, t1);
  }

  lemma IdCommandDoes(s: State, cmd: Command) returns (run: seq<Action>, s': State)
    requires s.pc.Idle? && Consistent(s.mem) && Accepted(cmd)
    requires cmd.AddManagedId? || cmd.RemoveManagedId? || cmd.RegisterBinding? || cmd.UnregisterBinding?
    ensures Ran(s, cmd, run, s') && s'.pc.Idle? && s'.reply == Replied(cmd, true) && Did(cmd, s, s')
  {
    run, s' := Start(s, cmd);
    if cmd.AddManagedId? || cmd.RemoveManagedId? {
      run, s' := Next(s, cmd, run, s');
    }
    if !cmd.AddManagedId? {
      run, s' := Finish(s, cmd, run, s');
    }
    if cmd.RegisterBinding? {
      RegistrationTakesEffectIff(s.mem, cmd.id, cmd.binding, map[]);
    }
  }

  lemma SchemaCommandDoes(s: State, cmd: Command) returns (run: seq<Action>, s': State)
    requires s.pc.Idle? && Consistent(s.mem) && Accepted(cmd)
    requires cmd.CreateTable? || cmd.DropTable? || cmd.AddColumn? || cmd.DropColumn? || cmd.RefreshSchema?
    requires cmd.AddColumn? || cmd.DropColumn? ==> cmd.table in s.actual
    ensures Ran(s, cmd, run, s') && s'.pc.Idle? && s'.reply == Replied(cmd, true) && Did(cmd, s, s')
  {
    run, s' := Start(s, cmd);
    run, s' := Next(s, cmd, run, s');
    ghost var seen := s'.pc.seen;
    run, s' := Finish(s, cmd, run, s');
    SchemaCommandDid(s, cmd, s', seen);
  }

  lemma SchemaCommandDid(s: State, cmd: Command, s': State, seen: Tables)
    requires Consistent(s.mem) && (cmd.RefreshSchema? ==> seen == s.actual)
    requires cmd.CreateTable? || cmd.DropTable? || cmd.AddColumn? || cmd.DropColumn? || cmd.RefreshSchema?
    requires cmd.AddColumn? || cmd.DropColumn? ==> cmd.table in s.actual
    requires s'.actual == DdlEffect(cmd, s.actual) && s'.mem == Updated(cmd, s.mem, seen) && s'.disk == Some(s'.mem)
    requires s'.managed == if IdsFollowMemory(cmd) then s'.mem.bindings.Keys else s.managed
    ensures Did(cmd, s, s')
  {
    assert forall id :: id in s.mem.bindings ==> Resolves(s.mem.tables, s.mem.bindings[id]);
    if cmd.AddColumn? {
      GrowingKeepsBindings(s'.mem.tables, s.mem);
    }
  }

  /** From every idle state, settled or not, a command whose statements succeed is answered Ok and has done
      exactly what `Did` says, in the database, in memory, in the managed ids and on disk. */
  lemma CommandDoes(s: State, cmd: Command) returns (run: seq<Action>, s': State)
    requires s.pc.Idle? && Consistent(s.mem) && Accepted(cmd)
    requires cmd.AddColumn? || cmd.DropColumn? ==> cmd.table in s.actual
    ensures Ran(s, cmd, run, s') && s'.pc.Idle? && s'.reply == Replied(cmd, true) && Did(cmd, s, s')
  {
    if cmd.AddManagedId? || cmd.RemoveManagedId? || cmd.RegisterBinding? || cmd.UnregisterBinding? {
      run, s' := IdCommandDoes(s, cmd);
    } else {
      run, s' := SchemaCommandDoes(s, cmd);
    }
  }

  /** What failures do: a command with a bad name is answered with an error and changes nothing; a rejected statement
      leaves database and disk alone, a lost one has its effect; either ends a command with an error, and a
      bootstrap with the command loop. ALTER on a missing table cannot succeed. And at any time the schema may change
      from elsewhere, or the process crash, which costs exactly what is in memory. */
  lemma FailuresDo(s: State, cmd: Command, sql: Sql)
    ensures forall actual :: Step(s, Elsewhere(actual)) == Some(s.(actual := actual))
    ensures Step(s, Crash) == Some(Init(s.actual).(disk := s.disk))
    ensures s.pc.Idle? && !Accepted(cmd) ==> Step(s, Receive(cmd)) == Some(s.(reply := Replied(cmd, false)))
    ensures s.pc == Ddl(cmd) ==>
              && Stage(s, Rejected) == Some(s.(pc := Idle, reply := Replied(cmd, false)))
              && (Stage(s, Done).Some? <==> (cmd.AddColumn? || cmd.DropColumn? ==> cmd.table in s.actual))
              && (Stage(s, Lost).Some? <==> Stage(s, Done).Some?)
              && (Stage(s, Lost).Some? ==>
                    && Stage(s, Lost).value.actual == Stage(s, Done).value.actual
                    && Stage(s, Lost).value ==
                         s.(actual := Stage(s, Done).value.actual, pc := Idle, reply := Replied(cmd, false)))
    ensures s.pc == Introspect(cmd) && !sql.Done? ==>
              Stage(s, sql) == Some(s.(pc := Idle, reply := Replied(cmd, false)))
    ensures s.pc.Persist? ==>
              && Stage(s, Rejected) == Some(s.(pc := Idle, reply := Replied(s.pc.cmd, false)))
              && Stage(s, Lost) == Some(s.(disk := Some(s.pc.snap), pc := Idle, reply := Replied(s.pc.cmd, false)))
    ensures (s.pc.BootEnsure? || s.pc.BootLoad? || s.pc.BootIntrospect?) && !sql.Done? ==>
              Stage(s, sql) == Some(s.(pc := Idle))
    ensures s.pc.BootPersist? && !sql.Done? ==>
              Stage(s, sql) ==
                Some(s.(disk := if sql.Lost? then Some(s.pc.md) else s.disk, pc := Idle, booted := false))
  {
  }

  // ---------------------------------------------------------------- restart

  lemma MergedTwice(actual: Tables, persisted: Option<Snapshot>)
    ensures Merged(actual, Some(Merged(actual, persisted))) == Merged(actual, persisted)
  {
  }

  /** What holds from a crash on, through any number of failed or crashed bootstraps. */
  ghost predicate Recovering(s: State, md: Snapshot) {
    && Merged(s.actual, s.disk) == md
    && (!s.pc.Idle? ==> !s.booted)
    && match s.pc
       case Down => true
       case BootEnsure => true
       case BootLoad => true
       case BootIntrospect(p) => Merged(s.actual, p) == md
       case BootMemory(m) => m == md
       case BootIds(m) => m == md && s.mem == md
       case BootPersist(m) => m == md && s.mem == md && s.managed == md.bindings.Keys
       case Idle => s.booted ==> s.mem == md && s.managed == md.bindings.Keys && s.disk == Some(md)
       case _ => true  // a command served although the bootstrap failed
  }

  /** Crashes, restarts, and commands served although the latest bootstrap failed, as long as their schema
      statements and their persists are rejected. */
  predicate RecoveryAction(s: State, a: Action) {
    match a
    case Crash => true
    case Restart => true
    case Receive(_) => !s.booted
    case Proceed(sql) => s.pc.Ddl? || s.pc.Persist? ==> sql.Rejected?
    case Elsewhere(_) => false
  }

  ghost predicate Recovery(s: State, run: seq<Action>)
    decreases |run|
  {
    run == [] || (RecoveryAction(s, run[0]) && Step(s, run[0]).Some? && Recovery(Step(s, run[0]).value, run[1..]))
  }

  lemma RecoveryStep(s: State, md: Snapshot, a: Action)
    requires Recovering(s, md) && RecoveryAction(s, a) && Step(s, a).Some?
    ensures Recovering(Step(s, a).value, md)
    ensures Step(s, a).value.actual == s.actual
  {
    MergedTwice(s.actual, s.disk);
  }

  lemma {:induction false} RecoveryRun(s: State, md: Snapshot, run: seq<Action>)
    requires Recovering(s, md) && Recovery(s, run)
    ensures Exec(s, run).Some? && Recovering(Exec(s, run).value, md)
    ensures Exec(s, run).value.actual == s.actual
    decreases |run|
  {
    if run != [] {
      RecoveryStep(s, md, run[0]);
      RecoveryRun(Step(s, run[0]).value, md, run[1..]);
    }
  }

  /** However often the process crashes or the bootstrap fails on the way, and whatever commands are served
      without effect in between, the first bootstrap that succeeds gives the state one undisturbed
      bootstrap would have given. */
  lemma BootstrapIdempotent(s: State, run: seq<Action>, s': State)
    requires run != [] && run[0].Crash? && Recovery(s, run)
    requires Exec(s, run) == Some(s') && s'.pc.Idle? && s'.booted
    ensures s'.actual == s.actual && s'.mem == Merged(s.actual, s.disk)
    ensures s'.managed == s'.mem.bindings.Keys && s'.disk == Some(s'.mem)
  {
    RecoveryRun(Step(s, Crash).value, Merged(s.actual, s.disk), run[1..]);
  }

  // ---------------------------------------------------------------- commands after a failed bootstrap

  /** A command's snapshot reaches the disk in a life whose memory no bootstrap has filled. */
  predicate GapWrite(s: State, a: Action) {
    a.Proceed? && !a.sql.Rejected? && s.pc.Persist? && !s.filled
  }

  ghost predicate SomeGapWrite(s: State, run: seq<Action>)
    decreases |run|
  {
    && run != [] && Step(s, run[0]).Some?
    && (GapWrite(s, run[0]) || SomeGapWrite(Step(s, run[0]).value, run[1..]))
  }

  /** The binding's target is in the real schema all the time. */
  ghost predicate StaysResolvable(s: State, run: seq<Action>, b: Binding)
    decreases |run|
  {
    && Resolves(s.actual, b)
    && (run != [] && Step(s, run[0]).Some? ==> StaysResolvable(Step(s, run[0]).value, run[1..], b))
  }

  /** Commands about this very binding: they rebind or unbind the id, or define its column away. */
  predicate IsAbout(cmd: Command, id: string, b: Binding) {
    match cmd
    case RegisterBinding(i, _) => i == id
    case UnregisterBinding(i) => i == id
    case RemoveManagedId(i) => i == id
    case CreateTable(t, cols) => t == b.table && b.column.Some? && b.column.value !in cols
    case _ => false
  }

  /** What would take the binding out of memory at the memory stage. */
  predicate Unbinds(cmd: Command, id: string, b: Binding) {
    || IsAbout(cmd, id, b)
    || (cmd.DropTable? && cmd.table == b.table)
    || (cmd.DropColumn? && PointsAt(b, cmd.table, cmd.column))
  }

  /** The id is bound to b, or, once lost, not bound at all. */
  predicate BoundUnless(bs: Bindings, id: string, b: Binding, lost: bool) {
    if lost then id !in bs else id in bs && bs[id] == b
  }

  /** Where the binding is, before and after it was lost. */
  ghost predicate Tracked(s: State, id: string, b: Binding, lost: bool) {
    && s.disk.Some? && BoundUnless(s.disk.value.bindings, id, b, lost)
    && (if s.filled then BoundUnless(s.mem.bindings, id, b, lost) && (!lost ==> Resolves(s.mem.tables, b))
        else id !in s.mem.bindings)
    && match s.pc
       case Ddl(cmd) => FirstStage(cmd) == s.pc && !IsAbout(cmd, id, b)
       case Introspect(cmd) => cmd.RefreshSchema?
       case IdsFirst(cmd) => FirstStage(cmd) == s.pc && !IsAbout(cmd, id, b)
       case Memory(cmd, seen) => !Unbinds(cmd, id, b) && (cmd.RefreshSchema? ==> Resolves(seen, b))
       case Ids(_, snap) => snap == s.mem
       case Persist(_, snap) => snap == s.mem
       case BootIntrospect(p) => !s.filled && p.Some? && BoundUnless(p.value.bindings, id, b, lost)
       case BootMemory(md) => !s.filled && BoundUnless(md.bindings, id, b, lost) && Resolves(md.tables, b)
       case BootIds(md) => s.filled && md == s.mem
       case BootPersist(md) => s.filled && md == s.mem
       case Idle => true
       case _ => !s.filled
  }

  /** The memory stage of any other command leaves the binding as it is. */
  lemma UpdatedTracks(cmd: Command, md: Snapshot, seen: Tables, id: string, b: Binding)
    requires !Unbinds(cmd, id, b)
    ensures id !in md.bindings ==> id !in Updated(cmd, md, seen).bindings
    ensures var u := Updated(cmd, md, seen);
            && BoundUnless(md.bindings, id, b, false) && Resolves(md.tables, b)
            && (cmd.RefreshSchema? ==> Resolves(seen, b))
            ==> BoundUnless(u.bindings, id, b, false) && Resolves(u.tables, b)
  {
  }

  lemma TrackedMemory(s: State, sql: Sql, id: string, b: Binding, lost: bool)
    requires Tracked(s, id, b, lost) && s.pc.Memory?
    ensures Tracked(Stage(s, sql).value, id, b, lost)
  {
    UpdatedTracks(s.pc.cmd, s.mem, s.pc.seen, id, b);
  }

  lemma TrackedBoot(s: State, sql: Sql, id: string, b: Binding, lost: bool)
    requires Tracked(s, id, b, lost) && BootPc(s.pc) && Resolves(s.actual, b)
    ensures Tracked(Stage(s, sql).value, id, b, lost)
  {
  }

  lemma TrackedPersist(s: State, sql: Sql, id: string, b: Binding, lost: bool)
    requires Tracked(s, id, b, lost) && s.pc.Persist?
    ensures Tracked(Stage(s, sql).value, id, b, lost || GapWrite(s, Proceed(sql)))
  {
  }

  lemma TrackedRest(s: State, sql: Sql, id: string, b: Binding, lost: bool)
    requires Tracked(s, id, b, lost) && (s.pc.Ddl? || s.pc.Introspect? || s.pc.IdsFirst? || s.pc.Ids?)
    requires Stage(s, sql).Some? && Resolves(s.actual, b) && Resolves(Stage(s, sql).value.actual, b)
    ensures Tracked(Stage(s, sql).value, id, b, lost)
  {
  }

  lemma TrackedStep(s: State, a: Action, id: string, b: Binding, lost: bool)
    requires Tracked(s, id, b, lost) && Step(s, a).Some? && (a.Receive? ==> !IsAbout(a.cmd, id, b))
    requires Resolves(s.actual, b) && Resolves(Step(s, a).value.actual, b)
    ensures Tracked(Step(s, a).value, id, b, lost || GapWrite(s, a))
  {
    if a.Proceed? {
      if s.pc.Memory? {
        TrackedMemory(s, a.sql, id, b, lost);
      } else if BootPc(s.pc) {
        TrackedBoot(s, a.sql, id, b, lost);
      } else if s.pc.Persist? {
        TrackedPersist(s, a.sql, id, b, lost);
      } else {
        TrackedRest(s, a.sql, id, b, lost);
      }
    }
  }

  lemma {:induction false} TrackedRun(s: State, run: seq<Action>, id: string, b: Binding, lost: bool)
    requires Tracked(s, id, b, lost) && Exec(s, run).Some? && StaysResolvable(s, run, b)
    requires forall i :: 0 <= i < |run| && run[i].Receive? ==> !IsAbout(run[i].cmd, id, b)
    ensures Tracked(Exec(s, run).value, id, b, lost || SomeGapWrite(s, run))
    decreases |run|
  {
    if run != [] {
      TrackedStep(s, run[0], id, b, lost);
      TrackedRun(Step(s, run[0]).value, run[1..], id, b, lost || GapWrite(s, run[0]));
    }
  }

  /** Durability, over every run from a crash on: with any commands, SQL failures, crashes and schema changes, a
      persisted binding that no command is about and whose target stays in the schema is back
      whenever the memory is filled, if and only if no command wrote its snapshot in a life
      whose memory was never filled. */
  lemma DurableIffNoGapWrite(s: State, run: seq<Action>, s': State, id: string, b: Binding)
    requires s.disk.Some? && id in s.disk.value.bindings && s.disk.value.bindings[id] == b
    requires run != [] && run[0].Crash? && Exec(s, run) == Some(s') && s'.pc.Idle? && s'.filled
    requires StaysResolvable(s, run, b)
    requires forall i :: 0 <= i < |run| && run[i].Receive? ==> !IsAbout(run[i].cmd, id, b)
    ensures id in s'.mem.bindings <==> !SomeGapWrite(s, run)
    ensures id in s'.mem.bindings ==> s'.mem.bindings[id] == b
    ensures s'.disk.Some? && (id in s'.disk.value.bindings <==> !SomeGapWrite(s, run))
  {
    TrackedRun(Step(s, Crash).value, run[1..], id, b, false);
  }

  /** From nothing in memory a command carries no bindings to any of its stages. */
  ghost predicate FromNothing(s: State) {
    && s.mem.bindings == map[]
    && match s.pc
       case Idle => s.reply.Replied? && s.reply.ok && !s.reply.cmd.AddManagedId? ==>
                      s.disk.Some? && s.disk.value.bindings == map[]
       case Memory(cmd, _) => cmd.RegisterBinding? ==> s.mem.tables == map[]
       case Ids(_, snap) => snap == s.mem
       case Persist(_, snap) => snap == s.mem
       case Ddl(cmd) => FirstStage(cmd) == s.pc
       case Introspect(cmd) => FirstStage(cmd) == s.pc
       case IdsFirst(cmd) => FirstStage(cmd) == s.pc
       case _ => false
  }

  lemma FromNothingMemory(s: State, sql: Sql)
    requires FromNothing(s) && s.pc.Memory?
    ensures FromNothing(Stage(s, sql).value)
  {
  }

  lemma FromNothingStep(s: State, sql: Sql)
    requires FromNothing(s) && Stage(s, sql).Some?
    ensures FromNothing(Stage(s, sql).value)
  {
    if s.pc.Memory? {
      FromNothingMemory(s, sql);
    }
  }

  lemma {:induction false} FromNothingRun(s: State, stages: seq<Action>)
    requires FromNothing(s)
    requires (forall i :: 0 <= i < |stages| ==> stages[i].Proceed?) && Exec(s, stages).Some?
    ensures FromNothing(Exec(s, stages).value)
    decreases |stages|
  {
    if stages != [] {
      FromNothingStep(s, stages[0].sql);
      FromNothingRun(Step(s, stages[0]).value, stages[1..]);
    }
  }

  /** After a bootstrap that failed before filling the memory, the first command answered Ok, whichever it is,
      leaves no binding on disk. Only AddManagedId does not persist. */
  lemma OkFromNothingWipes(s: State, cmd: Command, stages: seq<Action>, s': State)
    requires s.pc.Idle? && s.mem == NOTHING && Accepted(cmd) && !cmd.AddManagedId?
    requires (forall i :: 0 <= i < |stages| ==> stages[i].Proceed?) && Exec(s, [Receive(cmd)] + stages) == Some(s')
    requires s'.pc.Idle? && s'.reply == Replied(cmd, true)
    ensures s'.disk.Some? && s'.disk.value.bindings == map[]
  {
    assert ([Receive(cmd)] + stages)[1..] == stages;
    FromNothingRun(Step(s, Receive(cmd)).value, stages);
  }

  lemma {:induction false} ExecConcat(s: State, a: seq<Action>, b: seq<Action>)
    requires Exec(s, a).Some?
    ensures Exec(s, a + b) == Exec(Exec(s, a).value, b)
    decreases |a|
  {
    if a == [] {
      assert a + b == b;
    } else {
      assert (a + b)[1..] == a[1..] + b;
      ExecConcat(Step(s, a[0]).value, a[1..], b);
    }
  }

  lemma Extend(s: State, run: seq<Action>, a: Action)
    requires Exec(s, run).Some?
    ensures Exec(s, run + [a]) == Step(Exec(s, run).value, a)
  {
    ExecConcat(s, run, [a]);
    assert [a][1..] == [];
    var t := Exec(s, run).value;
    if Step(t, a).Some? {
      assert Exec(Step(t, a).value, []) == Some(Step(t, a).value);
    }
  }

  /** One more step of a run. */
  lemma Go(s: State, run: seq<Action>, s': State, a: Action) returns (run': seq<Action>, t: State)
    requires Exec(s, run) == Some(s') && Step(s', a).Some?
    ensures run' == run + [a] && Exec(s, run') == Some(t) && t == Step(s', a).value
  {
    run', t := run + [a], Step(s', a).value;
    Extend(s, run, a);
  }

  /** A bootstrap whose statements all succeed: what it reads, and what it then does. */
  lemma BootReads(s: State, run: seq<Action>, s': State) returns (run': seq<Action>, t: State)
    requires Exec(s, run) == Some(s') && s'.pc.BootEnsure?
    ensures Exec(s, run') == Some(t) && t == s'.(pc := BootMemory(Merged(s'.actual, s'.disk)))
  {
    var r1, s1 := Go(s, run, s', Proceed(Done));
    var r2, s2 := Go(s, r1, s1, Proceed(Done));
    run', t := Go(s, r2, s2, Proceed(Done));
  }

  lemma Boot(s: State, run: seq<Action>, s': State) returns (run': seq<Action>, t: State)
    requires Exec(s, run) == Some(s') && s'.pc.BootEnsure?
    ensures Exec(s, run') == Some(t) && t.pc.Idle? && t.booted && t.mem == Merged(s'.actual, s'.disk)
  {
    var r1, s1 := BootReads(s, run, s');
    var r2, s2 := Go(s, r1, s1, Proceed(Done));
    var r3, s3 := Go(s, r2, s2, Proceed(Done));
    run', t := Go(s, r3, s3, Proceed(Done));
  }

  lemma CrashAndRestart(s: State, run: seq<Action>, s': State) returns (run': seq<Action>, t: State)
    requires Exec(s, run) == Some(s')
    ensures Exec(s, run') == Some(t) && t.pc.BootEnsure?
    ensures t.mem == NOTHING && t.actual == s'.actual && t.disk == s'.disk
  {
    var r1, s1 := Go(s, run, s', Crash);
    run', t := Go(s, r1, s1, Restart);
  }

  /** A crash, a bootstrap whose first statement is rejected, and a RefreshSchema answered Ok. */
  lemma RefreshInTheGap(s: State) returns (run: seq<Action>, s': State)
    ensures Exec(s, run) == Some(s') && s'.pc.Idle? && s'.reply == Replied(RefreshSchema, true)
    ensures s'.disk.Some? && s'.disk.value.bindings == map[]
  {
    assert Exec(s, []) == Some(s);
    var r2, s2 := CrashAndRestart(s, [], s);
    var r3, s3 := Go(s, r2, s2, Proceed(Rejected));
    var r4, s4 := Go(s, r3, s3, Receive(RefreshSchema));
    var r5, s5 := Go(s, r4, s4, Proceed(Done));
    var r6, s6 := Go(s, r5, s5, Proceed(Done));
    var r7, s7 := Go(s, r6, s6, Proceed(Done));
    run, s' := Go(s, r7, s7, Proceed(Done));
  }

  /** So from every state, with whatever bindings, one such command and a flawless restart lose them all. */
  lemma GapCommandLosesAll(s: State) returns (run: seq<Action>, s': State)
    ensures Exec(s, run) == Some(s') && s'.pc.Idle? && s'.booted && s'.mem.bindings == map[]
  {
    var r, t := RefreshInTheGap(s);
    var r2, t2 := CrashAndRestart(s, r, t);
    run, s' := Boot(s, r2, t2);
  }

  // ---------------------------------------------------------------- crash atomicity

  /** Idle, disk equal to memory, tracked schema equal to the real one. */
  ghost predicate Settled(s: State) {
    s.pc.Idle? && Consistent(s.mem) && s.disk == Some(s.mem) && s.mem.tables == s.actual
  }

  /** The managed ids a completed command leaves; CreateTable and AddColumn do not touch them. */
  function ManagedAfter(cmd: Command, managed: set<string>, u: Snapshot): set<string> {
    match cmd
    case AddManagedId(id) => managed + {id}
    case RemoveManagedId(id) => managed - {id}
    case UnregisterBinding(id) => managed - {id}
    case CreateTable(_, _) => managed
    case AddColumn(_, _) => managed
    case _ => u.bindings.Keys
  }

  /** Where a command started in `s0` can be, and what it has done by then; `u` is its
      completed memory and `e` the schema it leaves in the database. */
  ghost predicate OnTheWay(s0: State, cmd: Command, u: Snapshot, e: Tables, s: State) {
    && (s.actual == s0.actual || s.actual == e)
    && (s.disk == s0.disk || (s.disk == Some(u) && s.actual == e))
    && match s.pc
       case Idle =>
         s.reply == Replied(cmd, true) ==>
           && s.mem == u && s.actual == e && s.managed == ManagedAfter(cmd, s0.managed, u)
           && DdlPossible(cmd, s0.actual)
           && (!cmd.AddManagedId? ==> s.disk == Some(u))
       case Ddl(_) => s.pc == FirstStage(cmd) && s.mem == s0.mem && s.actual == s0.actual && s.managed == s0.managed
       case Introspect(_) =>
         s.pc == FirstStage(cmd) && s.mem == s0.mem && s.actual == s0.actual && s.managed == s0.managed
       case IdsFirst(_) => s.pc == FirstStage(cmd) && s.mem == s0.mem && s.actual == e && s.managed == s0.managed
       case Memory(c, seen) =>
         && c == cmd && !cmd.AddManagedId? && DdlPossible(cmd, s0.actual)
         && s.mem == s0.mem && s.actual == e && (cmd.RefreshSchema? ==> seen == s0.actual)
         && (if cmd.RemoveManagedId? then s.managed == s0.managed - {cmd.id} else s.managed == s0.managed)
       case Ids(c, snap) =>
         && c == cmd && snap == u && s.mem == u && s.actual == e && s.managed == s0.managed
         && IdsFollowMemory(cmd) && DdlPossible(cmd, s0.actual)
       case Persist(c, snap) =>
         && c == cmd && snap == u && s.mem == u && s.actual == e && s.managed == ManagedAfter(cmd, s0.managed, u)
         && DdlPossible(cmd, s0.actual)
       case _ => false
  }

  ghost predicate InFlight(s0: State, cmd: Command, s: State) {
    OnTheWay(s0, cmd, Updated(cmd, s0.mem, s0.actual), DdlEffect(cmd, s0.actual), s)
  }

  /** Only RefreshSchema looks at the schema read from the database. */
  lemma SeenOnlyByRefresh(cmd: Command, md: Snapshot, seen: Tables, other: Tables)
    requires cmd.RefreshSchema? ==> seen == other
    ensures Updated(cmd, md, seen) == Updated(cmd, md, other)
  {
  }

  lemma OnTheWaySql(s0: State, cmd: Command, u: Snapshot, e: Tables, s: State, sql: Sql)
    requires OnTheWay(s0, cmd, u, e, s) && (s.pc.Ddl? || s.pc.Introspect?) && Stage(s, sql).Some?
    requires e == DdlEffect(cmd, s0.actual)
    ensures OnTheWay(s0, cmd, u, e, Stage(s, sql).value)
  {
    assert s.pc.cmd == cmd;
  }

  lemma OnTheWayMemory(s0: State, cmd: Command, u: Snapshot, e: Tables, s: State, sql: Sql)
    requires OnTheWay(s0, cmd, u, e, s) && s.pc.Memory? && Updated(cmd, s0.mem, s.pc.seen) == u
    ensures OnTheWay(s0, cmd, u, e, Stage(s, sql).value)
  {
  }

  lemma OnTheWayIds(s0: State, cmd: Command, u: Snapshot, e: Tables, s: State, sql: Sql)
    requires OnTheWay(s0, cmd, u, e, s) && (s.pc.IdsFirst? || s.pc.Ids?) && Stage(s, sql).Some?
    requires cmd.AddManagedId? ==> s0.mem == u
    ensures OnTheWay(s0, cmd, u, e, Stage(s, sql).value)
  {
  }

  lemma OnTheWayPersist(s0: State, cmd: Command, u: Snapshot, e: Tables, s: State, sql: Sql)
    requires OnTheWay(s0, cmd, u, e, s) && s.pc.Persist?
    ensures OnTheWay(s0, cmd, u, e, Stage(s, sql).value)
  {
  }

  lemma InFlightStep(s0: State, cmd: Command, s: State, sql: Sql)
    requires InFlight(s0, cmd, s) && Stage(s, sql).Some?
    ensures InFlight(s0, cmd, Stage(s, sql).value)
  {
    var u, e := Updated(cmd, s0.mem, s0.actual), DdlEffect(cmd, s0.actual);
    if s.pc.Memory? {
      SeenOnlyByRefresh(cmd, s0.mem, s.pc.seen, s0.actual);
      OnTheWayMemory(s0, cmd, u, e, s, sql);
    } else if s.pc.Ddl? || s.pc.Introspect? {
      OnTheWaySql(s0, cmd, u, e, s, sql);
    } else if s.pc.Persist? {
      OnTheWayPersist(s0, cmd, u, e, s, sql);
    } else {
      OnTheWayIds(s0, cmd, u, e, s, sql);
    }
  }

  lemma {:induction false} InFlightRun(s0: State, cmd: Command, s: State, stages: seq<Action>)
    requires InFlight(s0, cmd, s)
    requires (forall i :: 0 <= i < |stages| ==> stages[i].Proceed?) && Exec(s, stages).Some?
    ensures InFlight(s0, cmd, Exec(s, stages).value)
    decreases |stages|
  {
    if stages != [] {
      InFlightStep(s0, cmd, s, stages[0].sql);
      InFlightRun(s0, cmd, Step(s, stages[0]).value, stages[1..]);
    }
  }

  /** The command never ran, or ran to completion, as far as bindings and schema can tell. */
  ghost predicate AllOrNothing(s0: State, cmd: Command, bindings: Bindings, actual: Tables) {
    || (bindings == s0.mem.bindings && actual == s0.actual)
    || (bindings == Updated(cmd, s0.mem, s0.actual).bindings && actual == DdlEffect(cmd, s0.actual))
  }

  /** The bindings a bootstrap finds, and the schema it finds them with, wherever the command stopped. */
  lemma BindingsFoundAfter(s0: State, cmd: Command, s: State)
    requires Settled(s0) && InFlight(s0, cmd, s)
    ensures AllOrNothing(s0, cmd, Merged(s.actual, s.disk).bindings, s.actual)
  {
    var u := Updated(cmd, s0.mem, s0.actual);
    var e := DdlEffect(cmd, s0.actual);
    UpdatedIsConsistent(cmd, s0.mem, s0.actual);
    GrowingKeepsBindings(s0.actual, s0.mem);
    if s.disk == s0.disk {
      if s.actual == e {
        match cmd
        case CreateTable(_, _) => GrowingKeepsBindings(e, s0.mem);
        case AddColumn(_, _) => GrowingKeepsBindings(e, s0.mem);
        case DropTable(t) => DropsAreSchemaThenPrune(s0.mem, t, "", s0.actual);
        case DropColumn(t, c) => DropsAreSchemaThenPrune(s0.mem, t, c, s0.actual);
        case _ =>
      }
    } else {
      AfterPersist(s0, cmd);
    }
  }

  /** A persisted result fits the schema its command left behind. */
  lemma AfterPersist(s0: State, cmd: Command)
    requires Settled(s0)
    ensures var u := Updated(cmd, s0.mem, s0.actual).bindings; Pruned(DdlEffect(cmd, s0.actual), u) == u
  {
  }

  /** Crash atomicity: stop any command after any of its stages, with any SQL outcomes; crash;
      recover through any number of disturbed bootstraps, with commands served without effect after failed
      ones, to one that succeeds. Bindings and real schema
      are both those of before the command or both those of its completion, and the managed ids,
      the disk and the tracked schema agree with them. */
  lemma CrashAtomicity(s0: State, cmd: Command, stages: seq<Action>, s1: State, recovery: seq<Action>, s2: State)
    requires Settled(s0) && Accepted(cmd)
    requires (forall i :: 0 <= i < |stages| ==> stages[i].Proceed?) && Exec(s0, [Receive(cmd)] + stages) == Some(s1)
    requires recovery != [] && recovery[0].Crash? && Recovery(s1, recovery)
    requires Exec(s1, recovery) == Some(s2) && s2.pc.Idle? && s2.booted
    ensures AllOrNothing(s0, cmd, s2.mem.bindings, s2.actual)
    ensures s2.managed == s2.mem.bindings.Keys && s2.disk == Some(s2.mem) && s2.mem.tables == s2.actual
  {
    var received := Step(s0, Receive(cmd)).value;
    assert ([Receive(cmd)] + stages)[1..] == stages;
    InFlightRun(s0, cmd, received, stages);
    BindingsFoundAfter(s0, cmd, s1);
    BootstrapIdempotent(s1, recovery, s2);
  }

  /** And without a crash: a command that answers Ok has reached exactly its completed state. */
  lemma OkMeansCompleted(s0: State, cmd: Command, stages: seq<Action>, s1: State)
    requires Settled(s0) && Accepted(cmd)
    requires (forall i :: 0 <= i < |stages| ==> stages[i].Proceed?) && Exec(s0, [Receive(cmd)] + stages) == Some(s1)
    requires s1.pc.Idle? && s1.reply == Replied(cmd, true)
    ensures s1.mem == Updated(cmd, s0.mem, s0.actual) && s1.disk == Some(s1.mem)
    ensures s1.actual == DdlEffect(cmd, s0.actual) && s1.managed == ManagedAfter(cmd, s0.managed, s1.mem)
  {
    assert ([Receive(cmd)] + stages)[1..] == stages;
    InFlightRun(s0, cmd, Step(s0, Receive(cmd)).value, stages);
  }

  /** The tracked columns are not those the command leaves in the database. */
  predicate Redefines(cmd: Command, actual: Tables) {
    cmd.CreateTable? && cmd.table in actual && Columns(cmd.columns) != actual[cmd.table]
  }

  /** A command that answers Ok leaves a settled state, from which the same holds of the next, if and only if
      it is not a CreateTable on an existing table with other columns. */
  lemma SettledAfterOkIff(s0: State, cmd: Command, stages: seq<Action>, s1: State)
    requires Settled(s0) && Accepted(cmd)
    requires (forall i :: 0 <= i < |stages| ==> stages[i].Proceed?) && Exec(s0, [Receive(cmd)] + stages) == Some(s1)
    requires s1.pc.Idle? && s1.reply == Replied(cmd, true)
    ensures Settled(s1) <==> !Redefines(cmd, s0.actual)
  {
    assert ([Receive(cmd)] + stages)[1..] == stages;
    InFlightRun(s0, cmd, Step(s0, Receive(cmd)).value, stages);
    UpdatedIsConsistent(cmd, s0.mem, s0.actual);
    TrackedIsRealIff(s0, cmd);
  }

  lemma TrackedIsRealIff(s0: State, cmd: Command)
    requires Settled(s0) && DdlPossible(cmd, s0.actual)
    ensures Updated(cmd, s0.mem, s0.actual).tables == DdlEffect(cmd, s0.actual) <==> !Redefines(cmd, s0.actual)
  {
  }
}
