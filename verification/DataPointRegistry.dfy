/** The dynamic datapoint registry, against the log of everything it was asked to do.

    `Registry` updates its two maps in place. What it answers is defined a second time by
    searching the log backwards, and the two are proved equal for every log.
  */
module DataPointRegistry {
  import opened Wrappers

  datatype ValueType =
    | NullType | BoolType | I64Type | U64Type | F64Type | StringType | BytesType | TimestampType
    | ArrayType(element: ValueType)
    | ObjectType
    | DecimalType(precision: nat, scale: nat)
    | CustomType(name: string)

  /** Runtime values; an f64 is a real number here. */
  datatype Value =
    | Null | Bool(b: bool) | I64(i: int) | U64(u: nat) | F64(f: real) | String(s: string)
    | Bytes(bytes: seq<bv8>) | Timestamp(millis: int)
    | Array(items: seq<Value>)
    | Object(fields: map<string, Value>)

  /** `value_type`: an array takes the type of its first element. */
  function TypeOf(v: Value): ValueType {
    match v
    case Null => NullType
    case Bool(_) => BoolType
    case I64(_) => I64Type
    case U64(_) => U64Type
    case F64(_) => F64Type
    case String(_) => StringType
    case Bytes(_) => BytesType
    case Timestamp(_) => TimestampType
    case Array(items) => if items == [] then ArrayType(NullType) else ArrayType(TypeOf(items[0]))
    case Object(_) => ObjectType
  }

  /** `type_compatible`: null passes for anything, integers pass for floats, arrays go by their elements. */
  predicate Compatible(declared: ValueType, actual: ValueType) {
    match actual
    case NullType => true
    case I64Type => declared.I64Type? || declared.F64Type?
    case U64Type => declared.U64Type? || declared.F64Type?
    case ArrayType(element) => declared.ArrayType? && Compatible(declared.element, element)
    case DecimalType(_, _) => false
    case CustomType(_) => false
    case _ => declared == actual
  }

  /** For every value, exactly the declared types that accept it; an array is judged by its first element. */
  lemma AcceptingTypes(declared: ValueType, v: Value)
    ensures Compatible(declared, TypeOf(v)) <==>
        match v
        case Null => true
        case Bool(_) => declared == BoolType
        case I64(_) => declared == I64Type || declared == F64Type
        case U64(_) => declared == U64Type || declared == F64Type
        case F64(_) => declared == F64Type
        case String(_) => declared == StringType
        case Bytes(_) => declared == BytesType
        case Timestamp(_) => declared == TimestampType
        case Object(_) => declared == ObjectType
        case Array(items) =>
          declared.ArrayType? && (items == [] || Compatible(declared.element, TypeOf(items[0])))
  {
    if v.Array? {
      AcceptsArrayIff(declared, TypeOf(v).element);
    }
  }

  lemma {:induction false} CompatibleTransitive(a: ValueType, b: ValueType, c: ValueType)
    requires Compatible(a, b) && Compatible(b, c)
    ensures Compatible(a, c)
  {
    if a.ArrayType? && b.ArrayType? && c.ArrayType? {
      CompatibleTransitive(a.element, b.element, c.element);
    }
  }

  /** The innermost element type of nested arrays. */
  function Innermost(t: ValueType): ValueType {
    if t.ArrayType? then Innermost(t.element) else t
  }

  /** A type accepts itself unless it comes down to a decimal or a custom type, which accept only null. */
  lemma {:induction false} CompatibleWithItselfIff(t: ValueType)
    ensures Compatible(t, t) <==> !Innermost(t).DecimalType? && !Innermost(t).CustomType?
  {
    if t.ArrayType? {
      CompatibleWithItselfIff(t.element);
    }
  }

  /** Decimal and custom types accept null and nothing else. */
  lemma RichTypesAcceptOnlyNull(declared: ValueType, actual: ValueType)
    requires declared.DecimalType? || declared.CustomType?
    ensures Compatible(declared, actual) <==> actual.NullType?
  {
  }

  lemma {:induction false} InferredTypesAcceptThemselves(v: Value)
    ensures Compatible(TypeOf(v), TypeOf(v))
  {
    if v.Array? && v.items != [] {
      InferredTypesAcceptThemselves(v.items[0]);
    }
  }

  // ---------------------------------------------------------------- what an array's type says of its elements

  /** The value conforms to the type all the way down: every element, not only the first. */
  ghost predicate Fits(declared: ValueType, v: Value) {
    match v
    case Array(items) => declared.ArrayType? && forall i :: 0 <= i < |items| ==> Fits(declared.element, items[i])
    case _ => Compatible(declared, TypeOf(v))
  }

  /** The values at the bottom of nested arrays, with their depth; `Hollow` is an array without elements. */
  datatype Leaf = Leaf(depth: nat, leafType: ValueType) | Hollow(depth: nat)

  function Leaves(v: Value, depth: nat): (ls: seq<Leaf>)
    ensures ls != [] && forall l :: l in ls ==> l.depth >= depth
  {
    match v
    case Array(items) => if items == [] then [Hollow(depth)] else LeavesOf(items, depth + 1)
    case _ => [Leaf(depth, TypeOf(v))]
  }

  function LeavesOf(items: seq<Value>, depth: nat): (ls: seq<Leaf>)
    ensures items != [] ==> ls != []
    ensures forall l :: l in ls ==> l.depth >= depth
  {
    if items == [] then [] else Leaves(items[0], depth) + LeavesOf(items[1..], depth)
  }

  lemma {:induction false} LeavesOfAll(items: seq<Value>, depth: nat, l: Leaf)
    ensures l in LeavesOf(items, depth) <==> exists i :: 0 <= i < |items| && l in Leaves(items[i], depth)
    decreases |items|
  {
    if items != [] {
      LeavesOfAll(items[1..], depth, l);
      if l in LeavesOf(items[1..], depth) {
        var i :| 0 <= i < |items[1..]| && l in Leaves(items[1..][i], depth);
        assert l in Leaves(items[i + 1], depth);
      }
      forall i | 0 < i < |items| && l in Leaves(items[i], depth)
        ensures l in LeavesOf(items[1..], depth)
      {
        assert items[1..][i - 1] == items[i];
      }
    }
  }

  function Nesting(t: ValueType): nat { if t.ArrayType? then 1 + Nesting(t.element) else 0 }

  /** A leaf under a type that nests arrays down to `depth` and ends in `bottom`: null fits wherever it can stand. */
  predicate LeafFits(depth: nat, bottom: ValueType, l: Leaf) {
    match l
    case Leaf(d, t) => d <= depth && (t.NullType? || (d == depth && Compatible(bottom, t)))
    case Hollow(d) => d < depth
  }

  ghost predicate LeavesFit(declared: ValueType, v: Value, base: nat) {
    forall l :: l in Leaves(v, base) ==> LeafFits(base + Nesting(declared), Innermost(declared), l)
  }

  lemma LeavesFitInArray(element: ValueType, items: seq<Value>, base: nat)
    requires items != []
    ensures LeavesFit(ArrayType(element), Array(items), base) <==>
        forall i :: 0 <= i < |items| ==> LeavesFit(element, items[i], base + 1)
  {
    forall l
      ensures l in Leaves(Array(items), base) <==> exists i :: 0 <= i < |items| && l in Leaves(items[i], base + 1)
    {
      LeavesOfAll(items, base + 1, l);
    }
    assert base + Nesting(ArrayType(element)) == base + 1 + Nesting(element);
    assert Innermost(ArrayType(element)) == Innermost(element);
    if LeavesFit(ArrayType(element), Array(items), base) {
      forall i | 0 <= i < |items|
        ensures LeavesFit(element, items[i], base + 1)
      {
        var below := Leaves(items[i], base + 1);
        forall l | l in below
          ensures LeafFits(base + 1 + Nesting(element), Innermost(element), l)
        {
          assert l in Leaves(Array(items), base);
        }
      }
    }
  }

  lemma {:induction false} FitsIffLeavesFit(declared: ValueType, v: Value, base: nat)
    ensures Fits(declared, v) <==> LeavesFit(declared, v, base)
    decreases v
  {
    if v.Array? && v.items != [] && declared.ArrayType? {
      forall i | 0 <= i < |v.items|
        ensures Fits(declared.element, v.items[i]) <==> LeavesFit(declared.element, v.items[i], base + 1)
      {
        FitsIffLeavesFit(declared.element, v.items[i], base + 1);
      }
      LeavesFitInArray(declared.element, v.items, base);
    } else {
      assert Leaves(v, base)[0] in Leaves(v, base);
    }
  }

  /** The inferred type is read off the first leaf. */
  lemma {:induction false} InferredFromFirst(v: Value, base: nat)
    ensures var first := Leaves(v, base)[0];
            && base + Nesting(TypeOf(v)) == first.depth + (if first.Hollow? then 1 else 0)
            && Innermost(TypeOf(v)) == if first.Hollow? then NullType else first.leafType
    decreases v
  {
    if v.Array? && v.items != [] {
      InferredFromFirst(v.items[0], base + 1);
    }
  }

  /** Same depth and a type the first accepts; null no deeper than the first, an empty array above it. */
  predicate AgreesWithFirst(first: Leaf, l: Leaf) {
    match first
    case Leaf(d, t) => LeafFits(d, t, l)
    case Hollow(d) => LeafFits(d + 1, NullType, l)
  }

  /** The inferred type describes every element if and only if all leaves agree with the first one. */
  lemma InferredTypeDescribesIff(v: Value)
    ensures Fits(TypeOf(v), v) <==> forall l :: l in Leaves(v, 0) ==> AgreesWithFirst(Leaves(v, 0)[0], l)
  {
    FitsIffLeavesFit(TypeOf(v), v, 0);
    InferredFromFirst(v, 0);
  }

  lemma AcceptsArrayIff(declared: ValueType, element: ValueType)
    ensures Compatible(declared, ArrayType(element)) <==> declared.ArrayType? && Compatible(declared.element, element)
  {
  }

  lemma FitsScalarIff(declared: ValueType, v: Value)
    requires !v.Array?
    ensures Fits(declared, v) <==> Compatible(declared, TypeOf(v))
  {
  }

  lemma {:induction false} FitsWider(declared: ValueType, t: ValueType, v: Value)
    requires Compatible(declared, t) && Fits(t, v)
    ensures Fits(declared, v)
    decreases v
  {
    if v.Array? {
      AcceptsArrayIff(declared, t.element);
      forall i | 0 <= i < |v.items|
        ensures Fits(declared.element, v.items[i])
      {
        FitsWider(declared.element, t.element, v.items[i]);
      }
    } else {
      FitsScalarIff(t, v);
      CompatibleTransitive(declared, t, TypeOf(v));
      FitsScalarIff(declared, v);
    }
  }

  /** So the type check of a write vouches for the whole value, whatever type was declared, exactly then. */
  lemma AcceptedMeansFitsIff(v: Value)
    ensures (forall declared :: Compatible(declared, TypeOf(v)) ==> Fits(declared, v))
       <==> forall l :: l in Leaves(v, 0) ==> AgreesWithFirst(Leaves(v, 0)[0], l)
  {
    InferredTypeDescribesIff(v);
    InferredTypesAcceptThemselves(v);
    if Fits(TypeOf(v), v) {
      AcceptedFits(v);
    }
  }

  lemma AcceptedFits(v: Value)
    requires Fits(TypeOf(v), v)
    ensures forall declared :: Compatible(declared, TypeOf(v)) ==> Fits(declared, v)
  {
    forall declared | Compatible(declared, TypeOf(v))
      ensures Fits(declared, v)
    {
      FitsWider(declared, TypeOf(v), v);
    }
  }

  /** A string behind an integer passes for an array of integers. */
  lemma MixedArrayIsAccepted()
    ensures var v := Array([I64(1), String("x")]);
            Compatible(ArrayType(I64Type), TypeOf(v)) && !Fits(ArrayType(I64Type), v)
  {
    var v := Array([I64(1), String("x")]);
    assert !Fits(I64Type, v.items[1]);
  }

  datatype Meta = Meta(
    id: string,
    name: string,
    declared: ValueType,
    unitLabel: Option<string>,
    tags: map<string, string>)

  datatype TimedValue = TimedValue(ts: int, value: Value)
  datatype Point = Point(meta: Meta, current: Option<TimedValue>)

  datatype Op =
    | Define(meta: Meta)
    | Set(id: string, value: TimedValue, autoDefine: bool, name: Option<string>, tags: map<string, string>)

  datatype State = State(byId: map<string, Point>, byName: map<string, string>)

  const EMPTY := State(map[], map[])

  function AutoMeta(op: Op): Meta
    requires op.Set?
  {
    Meta(op.id, if op.name.Some? then op.name.value else op.id, TypeOf(op.value.value), None, op.tags)
  }

  function Upserted(s: State, m: Meta): State {
    State(s.byId[m.id := Point(m, if m.id in s.byId then s.byId[m.id].current else None)],
          s.byName[m.name := m.id])
  }

  /** One call on the two maps: whether it succeeded, and the maps after it. */
  function Apply(s: State, op: Op): (bool, State) {
    match op
    case Define(m) => (true, Upserted(s, m))
    case Set(id, v, auto, _, _) =>
      if id in s.byId then
        if Compatible(s.byId[id].meta.declared, TypeOf(v.value))
        then (true, s.(byId := s.byId[id := s.byId[id].(current := Some(v))]))
        else (false, s)
      else if !auto then (false, s)
      else
        var m := AutoMeta(op);
        (true, State(s.byId[id := Point(m, Some(v))], s.byName[m.name := id]))
  }

  function Replay(log: seq<Op>): State {
    if log == [] then EMPTY else Apply(Replay(log[..|log| - 1]), log[|log| - 1]).1
  }

  // ---------------------------------------------------------------- the log, searched backwards

  /** The definition an entry makes: always for Define, for Set only when it introduces its id. */
  function Defines(before: seq<Op>, op: Op): Option<Meta>
    decreases |before|, 1
  {
    match op
    case Define(m) => Some(m)
    case Set(id, _, auto, _, _) => if auto && LastMeta(before, id).None? then Some(AutoMeta(op)) else None
  }

  function LastMeta(log: seq<Op>, id: string): Option<Meta>
    decreases |log|, 0
  {
    if log == [] then None
    else
      var n := |log| - 1;
      var d := Defines(log[..n], log[n]);
      if d.Some? && d.value.id == id then d else LastMeta(log[..n], id)
  }

  function LastIdNamed(log: seq<Op>, name: string): Option<string>
    decreases |log|
  {
    if log == [] then None
    else
      var n := |log| - 1;
      var d := Defines(log[..n], log[n]);
      if d.Some? && d.value.name == name then Some(d.value.id) else LastIdNamed(log[..n], name)
  }

  /** Whether an entry's value was taken. */
  predicate Accepts(before: seq<Op>, op: Op) {
    op.Set? &&
    var m := LastMeta(before, op.id);
    if m.Some? then Compatible(m.value.declared, TypeOf(op.value.value)) else op.autoDefine
  }

  function LastValue(log: seq<Op>, id: string): Option<TimedValue>
    decreases |log|
  {
    if log == [] then None
    else
      var n := |log| - 1;
      if Accepts(log[..n], log[n]) && log[n].id == id then Some(log[n].value) else LastValue(log[..n], id)
  }

  /** The maps agree with the log. */
  ghost predicate Agrees(s: State, log: seq<Op>) {
    && (forall id :: id in s.byId <==> LastMeta(log, id).Some?)
    && (forall id :: id in s.byId ==> s.byId[id] == Point(LastMeta(log, id).value, LastValue(log, id)))
    && (forall id :: id !in s.byId ==> LastValue(log, id).None?)
    && (forall name :: name in s.byName <==> LastIdNamed(log, name).Some?)
    && (forall name :: name in s.byName ==> s.byName[name] == LastIdNamed(log, name).value)
  }

  lemma {:induction false} LoggedMetaHasItsId(log: seq<Op>, id: string)
    ensures LastMeta(log, id).Some? ==> LastMeta(log, id).value.id == id
    decreases |log|
  {
    if log != [] {
      LoggedMetaHasItsId(log[..|log| - 1], id);
    }
  }

  lemma DefineAgrees(s: State, log: seq<Op>, m: Meta)
    requires Agrees(s, log)
    ensures Agrees(Upserted(s, m), log + [Define(m)])
  {
    assert (log + [Define(m)])[..|log|] == log;
  }

  lemma SetAgrees(s: State, log: seq<Op>, op: Op)
    requires Agrees(s, log) && op.Set?
    ensures Agrees(Apply(s, op).1, log + [op])
    ensures Apply(s, op).0 == Accepts(log, op)
  {
    assert (log + [op])[..|log|] == log;
  }

  lemma AgreesStep(s: State, log: seq<Op>, op: Op)
    requires Agrees(s, log)
    ensures Agrees(Apply(s, op).1, log + [op])
    ensures op.Set? ==> Apply(s, op).0 == Accepts(log, op)
  {
    match op
    case Define(m) => DefineAgrees(s, log, m);
    case Set(_, _, _, _, _) => SetAgrees(s, log, op);
  }

  /** For every log: metadata is the last definition of the id, the current value the last
      accepted write, and a name leads to the id last defined under it. */
  lemma {:induction false} RegistryRefinesLog(log: seq<Op>)
    ensures Agrees(Replay(log), log)
    decreases |log|
  {
    if log != [] {
      var n := |log| - 1;
      RegistryRefinesLog(log[..n]);
      AgreesStep(Replay(log[..n]), log[..n], log[n]);
      assert log[..n] + [log[n]] == log;
    }
  }

  /** Names never dangle: every id a name leads to is defined. */
  lemma {:induction false} NamesNeverDangle(log: seq<Op>, name: string)
    requires LastIdNamed(log, name).Some?
    ensures LastMeta(log, LastIdNamed(log, name).value).Some?
    decreases |log|
  {
    var n := |log| - 1;
    var d := Defines(log[..n], log[n]);
    if !(d.Some? && d.value.name == name) {
      NamesNeverDangle(log[..n], name);
    }
  }

  // ---------------------------------------------------------------- schemas

  function AppliedSchema(s: State, points: seq<Meta>): State {
    if points == [] then s else Upserted(AppliedSchema(s, points[..|points| - 1]), points[|points| - 1])
  }

  /** The last of these definitions for an id, or under a name. */
  function LastFor(points: seq<Meta>, id: string): Option<Meta> {
    if points == [] then None
    else if points[|points| - 1].id == id then Some(points[|points| - 1])
    else LastFor(points[..|points| - 1], id)
  }

  function LastUnder(points: seq<Meta>, name: string): Option<string> {
    if points == [] then None
    else if points[|points| - 1].name == name then Some(points[|points| - 1].id)
    else LastUnder(points[..|points| - 1], name)
  }

  /** What a schema leaves behind, without going through its steps. */
  ghost predicate IdsApplied(s: State, points: seq<Meta>, s': State) {
    && (forall id :: id in s'.byId <==> id in s.byId || LastFor(points, id).Some?)
    && (forall id :: id in s'.byId && LastFor(points, id).Some? ==>
          s'.byId[id] == Point(LastFor(points, id).value, if id in s.byId then s.byId[id].current else None))
    && (forall id :: id in s'.byId && LastFor(points, id).None? ==> s'.byId[id] == s.byId[id])
  }

  ghost predicate NamesApplied(s: State, points: seq<Meta>, s': State) {
    && (forall name :: name in s'.byName <==> name in s.byName || LastUnder(points, name).Some?)
    && (forall name :: name in s'.byName ==>
          s'.byName[name] == if LastUnder(points, name).Some? then LastUnder(points, name).value else s.byName[name])
  }

  lemma {:induction false} SchemaLeavesItsLast(s: State, points: seq<Meta>)
    ensures IdsApplied(s, points, AppliedSchema(s, points)) && NamesApplied(s, points, AppliedSchema(s, points))
    decreases |points|
  {
    if points != [] {
      var n := |points| - 1;
      SchemaLeavesItsLast(s, points[..n]);
      UpsertKeepsIds(s, points[..n], AppliedSchema(s, points[..n]), points[n]);
      UpsertKeepsNames(s, points[..n], AppliedSchema(s, points[..n]), points[n]);
      assert points[..n] + [points[n]] == points;
    }
  }

  lemma UpsertKeepsIds(s: State, points: seq<Meta>, s': State, m: Meta)
    requires IdsApplied(s, points, s')
    ensures IdsApplied(s, points + [m], Upserted(s', m))
  {
    assert (points + [m])[..|points|] == points;
  }

  lemma UpsertKeepsNames(s: State, points: seq<Meta>, s': State, m: Meta)
    requires NamesApplied(s, points, s')
    ensures NamesApplied(s, points + [m], Upserted(s', m))
  {
    assert (points + [m])[..|points|] == points;
  }

  /** Applying a schema twice is applying it once, values included. */
  lemma ApplySchemaIdempotent(s: State, points: seq<Meta>)
    ensures var once := AppliedSchema(s, points); AppliedSchema(once, points) == once
  {
    var once := AppliedSchema(s, points);
    var twice := AppliedSchema(once, points);
    SchemaLeavesItsLast(s, points);
    SchemaLeavesItsLast(once, points);
    assert twice.byId == once.byId;
    assert twice.byName == once.byName;
  }

  // ---------------------------------------------------------------- auto-definition

  predicate Redefines(op: Op, id: string) { op.Define? && op.meta.id == id }

  /** A point defined on the fly keeps accepting values of its first value's type until
      its id is redefined, whatever else happens in between. */
  lemma {:induction false} AutoDefinedKeepsAccepting(log: seq<Op>, first: Op, later: seq<Op>, next: Op)
    requires first.Set? && first.autoDefine && LastMeta(log, first.id).None?
    requires forall i :: 0 <= i < |later| ==> !Redefines(later[i], first.id)
    requires next.Set? && next.id == first.id && TypeOf(next.value.value) == TypeOf(first.value.value)
    ensures Accepts(log + [first] + later, next)
  {
    StaysDefined(log, first, later);
    InferredTypesAcceptThemselves(first.value.value);
  }

  lemma {:induction false} StaysDefined(log: seq<Op>, first: Op, later: seq<Op>)
    requires first.Set? && first.autoDefine && LastMeta(log, first.id).None?
    requires forall i :: 0 <= i < |later| ==> !Redefines(later[i], first.id)
    ensures LastMeta(log + [first] + later, first.id) == Some(AutoMeta(first))
    decreases |later|
  {
    var all := log + [first] + later;
    if later == [] {
      assert all[..|all| - 1] == log;
    } else {
      var n := |later| - 1;
      StaysDefined(log, first, later[..n]);
      assert all[..|all| - 1] == log + [first] + later[..n];
    }
  }

  // ---------------------------------------------------------------- the registry itself

  class Registry {
    var byId: map<string, Point>
    var byName: map<string, string>
    ghost var log: seq<Op>

    ghost function View(): State
      reads this
    {
      State(byId, byName)
    }

    ghost predicate Valid()
      reads this
    {
      View() == Replay(log)
    }

    constructor ()
      ensures Valid() && log == []
    {
      byId, byName, log := map[], map[], [];
    }

    ghost method Record(op: Op)
      requires View() == Apply(Replay(log), op).1
      modifies this`log
      ensures Valid() && log == old(log) + [op]
    {
      assert (log + [op])[..|log|] == log;
      log := log + [op];
    }

    method UpsertMeta(m: Meta)
      requires Valid()
      modifies this
      ensures Valid() && log == old(log) + [Define(m)] && View() == Upserted(old(View()), m)
    {
      if m.id in byId {
        var current := byId[m.id].current;
        byId := byId[m.id := Point(m, current)];
      } else {
        byId := byId[m.id := Point(m, None)];
      }
      byName := byName[m.name := m.id];
      Record(Define(m));
    }

    method ApplySchema(points: seq<Meta>)
      requires Valid()
      modifies this
      ensures Valid() && View() == AppliedSchema(old(View()), points)
    {
      for i := 0 to |points|
        invariant Valid() && View() == AppliedSchema(old(View()), points[..i])
      {
        assert points[..i + 1][..i] == points[..i];
        UpsertMeta(points[i]);
      }
      assert points[..|points|] == points;
    }

    method SetValue(id: string, value: TimedValue, autoDefine: bool, defaultName: Option<string>,
                    tags: map<string, string>)
      returns (ok: bool)
      requires Valid()
      modifies this
      ensures Valid() && log == old(log) + [Set(id, value, autoDefine, defaultName, tags)]
      ensures ok == Accepts(old(log), Set(id, value, autoDefine, defaultName, tags))
      ensures ok <==>
          if id in old(byId) then Compatible(old(byId)[id].meta.declared, TypeOf(value.value)) else autoDefine
      ensures !ok ==> View() == old(View())
      ensures ok && id in old(byId) ==>
          byId == old(byId)[id := Point(old(byId)[id].meta, Some(value))] && byName == old(byName)
      ensures ok && id !in old(byId) ==>
          var name := if defaultName.Some? then defaultName.value else id;
          && byId == old(byId)[id := Point(Meta(id, name, TypeOf(value.value), None, tags), Some(value))]
          && byName == old(byName)[name := id]
    {
      ghost var op := Set(id, value, autoDefine, defaultName, tags);
      RegistryRefinesLog(log);
      AgreesStep(View(), log, op);
      if id in byId {
        if !Compatible(byId[id].meta.declared, TypeOf(value.value)) {
          Record(op);
          return false;
        }
        byId := byId[id := byId[id].(current := Some(value))];
        Record(op);
        return true;
      }
      if !autoDefine {
        Record(op);
        return false;
      }
      var name := if defaultName.Some? then defaultName.value else id;
      byName := byName[name := id];
      byId := byId[id := Point(Meta(id, name, TypeOf(value.value), None, tags), Some(value))];
      Record(op);
      return true;
    }

    method GetById(id: string) returns (p: Option<Point>)
      requires Valid()
      ensures p == if LastMeta(log, id).Some? then Some(Point(LastMeta(log, id).value, LastValue(log, id))) else None
    {
      RegistryRefinesLog(log);
      p := if id in byId then Some(byId[id]) else None;
    }

    /** Found exactly when the name was ever defined; the point is that of the id last defined under it. */
    method GetByName(name: string) returns (p: Option<Point>)
      requires Valid()
      ensures p.Some? <==> LastIdNamed(log, name).Some?
      ensures p.Some? ==> p.value.meta.id == LastIdNamed(log, name).value
      ensures p.Some? ==> LastMeta(log, p.value.meta.id) == Some(p.value.meta)
      ensures p.Some? ==> p.value.current == LastValue(log, p.value.meta.id)
    {
      RegistryRefinesLog(log);
      if name !in byName {
        return None;
      }
      var id := byName[name];
      NamesNeverDangle(log, name);
      LoggedMetaHasItsId(log, id);
      p := Some(byId[id]);
    }
  }
}
