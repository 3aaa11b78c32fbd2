/** What the database actor keeps about a database, and what each command does to it.

    A table is its set of column names; a binding points a data id at a table or at one
    of its columns. `Store` holds the actor's memory and changes it in place; its methods
    are proved against `Updated`, which the crash model in module MetadataActor uses.
  */
module Metadata {
  import opened Text
  import opened Wrappers

  type Tables = map<string, set<string>>
  datatype Binding = Binding(table: string, column: Option<string>)
  type Bindings = map<string, Binding>
  datatype Snapshot = Snapshot(tables: Tables, bindings: Bindings)

  const METADATA_TABLE := "dt_metadata"

  datatype Command =
    | AddManagedId(id: string)
    | RemoveManagedId(id: string)
    | RegisterBinding(id: string, binding: Binding)
    | UnregisterBinding(id: string)
    | CreateTable(table: string, columns: seq<string>)
    | DropTable(table: string)
    | AddColumn(table: string, column: string)
    | DropColumn(table: string, column: string)
    | RefreshSchema

  predicate IdentStart(c: char) { 'a' <= c <= 'z' || 'A' <= c <= 'Z' || c == '_' }

  predicate ValidIdent(s: string) {
    s != "" && IdentStart(s[0]) && forall i :: 1 <= i < |s| ==> IdentStart(s[i]) || '0' <= s[i] <= '9'
  }

  /** The checks a command passes before it touches anything. */
  predicate Accepted(cmd: Command) {
    match cmd
    case AddManagedId(_) | RemoveManagedId(_) | UnregisterBinding(_) | RefreshSchema => true
    case RegisterBinding(_, b) => ValidIdent(b.table) && (b.column.Some? ==> ValidIdent(b.column.value))
    case CreateTable(t, cols) =>
      ValidIdent(t) && t != METADATA_TABLE && forall i :: 0 <= i < |cols| ==> ValidIdent(cols[i])
    case DropTable(t) => ValidIdent(t) && t != METADATA_TABLE
    case AddColumn(t, c) => ValidIdent(t) && ValidIdent(c) && t != METADATA_TABLE
    case DropColumn(t, c) => ValidIdent(t) && ValidIdent(c) && t != METADATA_TABLE
  }

  predicate Letter(c: char) { c in LOWER || c in UPPER }

  /** An identifier is one or more ASCII letters, digits and underscores, not starting with a digit. */
  lemma ValidIdentIff(s: string)
    ensures ValidIdent(s)
       <==> s != "" && s[0] !in DIGITS && forall i :: 0 <= i < |s| ==> Letter(s[i]) || s[i] in DIGITS || s[i] == '_'
  {
    forall i | 0 <= i < |s|
      ensures Letter(s[i]) <==> 'a' <= s[i] <= 'z' || 'A' <= s[i] <= 'Z'
      ensures s[i] in DIGITS <==> '0' <= s[i] <= '9'
    {
      LowerIff(s[i]);
      UpperIff(s[i]);
      DigitIff(s[i]);
    }
  }

  /** Every name a command brings along. */
  function Names(cmd: Command): seq<string> {
    match cmd
    case AddManagedId(_) | RemoveManagedId(_) | UnregisterBinding(_) | RefreshSchema => []
    case RegisterBinding(_, b) => [b.table] + if b.column.Some? then [b.column.value] else []
    case CreateTable(t, cols) => [t] + cols
    case DropTable(t) => [t]
    case AddColumn(t, c) => [t, c]
    case DropColumn(t, c) => [t, c]
  }

  /** A command is let through if and only if all its names are identifiers and it does not change the
      schema of the metadata table. */
  lemma AcceptedIff(cmd: Command)
    ensures Accepted(cmd)
       <==> && (forall i :: 0 <= i < |Names(cmd)| ==> ValidIdent(Names(cmd)[i]))
            && (cmd.CreateTable? || cmd.DropTable? || cmd.AddColumn? || cmd.DropColumn? ==> cmd.table != METADATA_TABLE)
  {
    match cmd
    case CreateTable(t, cols) =>
      assert forall i :: 0 <= i < |cols| ==> Names(cmd)[i + 1] == cols[i];
      assert Names(cmd)[0] == t;
    case AddColumn(t, c) => assert Names(cmd)[0] == t && Names(cmd)[1] == c;
    case DropColumn(t, c) => assert Names(cmd)[0] == t && Names(cmd)[1] == c;
    case DropTable(t) => assert Names(cmd)[0] == t;
    case RegisterBinding(_, b) =>
      assert Names(cmd)[0] == b.table;
      assert b.column.Some? ==> Names(cmd)[1] == b.column.value;
    case _ =>
  }

  /** A binding whose table, and column if any, are tracked. */
  predicate Resolves(tables: Tables, b: Binding) {
    b.table in tables && (b.column.Some? ==> b.column.value in tables[b.table])
  }

  function Pruned(tables: Tables, bs: Bindings): Bindings {
    map id | id in bs && Resolves(tables, bs[id]) :: bs[id]
  }

  function Columns(cols: seq<string>): set<string> { set c | c in cols }

  /** The memory stage of a command; `schema` is what RefreshSchema has read. */
  function Updated(cmd: Command, md: Snapshot, schema: Tables): Snapshot {
    match cmd
    case AddManagedId(_) => md
    case RemoveManagedId(id) => md.(bindings := md.bindings - {id})
    case UnregisterBinding(id) => md.(bindings := md.bindings - {id})
    case RegisterBinding(id, b) => md.(bindings := Pruned(md.tables, md.bindings[id := b]))
    case CreateTable(t, cols) =>
      var tables := md.tables[t := Columns(cols)];
      Snapshot(tables, Pruned(tables, md.bindings))
    case DropTable(t) =>
      Snapshot(md.tables - {t}, map id | id in md.bindings && md.bindings[id].table != t :: md.bindings[id])
    case AddColumn(t, c) =>
      var tables := md.tables[t := (if t in md.tables then md.tables[t] else {}) + {c}];
      Snapshot(tables, Pruned(tables, md.bindings))
    case DropColumn(t, c) =>
      Snapshot(if t in md.tables then md.tables[t := md.tables[t] - {c}] else md.tables,
               map id | id in md.bindings && !PointsAt(md.bindings[id], t, c) :: md.bindings[id])
    case RefreshSchema => Snapshot(schema, Pruned(schema, md.bindings))
  }

  predicate PointsAt(b: Binding, table: string, column: string) {
    b.table == table && b.column == Some(column)
  }

  /** Every binding points at something tracked. */
  ghost predicate Consistent(md: Snapshot) {
    forall id :: id in md.bindings ==> Resolves(md.tables, md.bindings[id])
  }

  /** Every memory update keeps bindings resolvable, whatever was registered. */
  lemma UpdatedIsConsistent(cmd: Command, md: Snapshot, schema: Tables)
    requires Consistent(md)
    ensures Consistent(Updated(cmd, md, schema))
  {
  }

  /** The hand-written filters of DropTable and DropColumn are "change the schema, then prune". */
  lemma DropsAreSchemaThenPrune(md: Snapshot, table: string, column: string, schema: Tables)
    requires Consistent(md)
    ensures var u := Updated(DropTable(table), md, schema); u.bindings == Pruned(u.tables, md.bindings)
    ensures var u := Updated(DropColumn(table, column), md, schema); u.bindings == Pruned(u.tables, md.bindings)
  {
  }

  /** RegisterBinding answers Ok even when it drops the binding: the id ends up bound to it
      exactly when table and column are tracked, and otherwise loses what it had. */
  lemma RegistrationTakesEffectIff(md: Snapshot, id: string, b: Binding, schema: Tables)
    requires Consistent(md)
    ensures var u := Updated(RegisterBinding(id, b), md, schema).bindings;
            && (id in u <==> Resolves(md.tables, b))
            && (id in u ==> u[id] == b)
            && u - {id} == md.bindings - {id}
  {
  }

  class Store {
    var tables: Tables
    var bindings: Bindings
    var managed: set<string>

    ghost function View(): Snapshot
      reads this
    {
      Snapshot(tables, bindings)
    }

    constructor ()
      ensures View() == Snapshot(map[], map[]) && managed == {}
    {
      tables, bindings, managed := map[], map[], {};
    }

    /** `retain` over the bindings: keep those that resolve. */
    method PruneBindings()
      modifies this`bindings
      ensures bindings == Pruned(tables, old(bindings))
    {
      var rest := bindings.Keys;
      while rest != {}
        invariant rest <= bindings.Keys <= old(bindings).Keys
        invariant forall id :: id in bindings ==> bindings[id] == old(bindings)[id]
        invariant forall id :: id in old(bindings) && id !in rest ==>
            (id in bindings <==> Resolves(tables, old(bindings)[id]))
      {
        var id :| id in rest;
        if !Resolves(tables, bindings[id]) {
          bindings := bindings - {id};
        }
        rest := rest - {id};
      }
    }

    method RetainOtherTables(table: string)
      modifies this`bindings
      ensures bindings == map id | id in old(bindings) && old(bindings)[id].table != table :: old(bindings)[id]
    {
      var rest := bindings.Keys;
      while rest != {}
        invariant rest <= bindings.Keys <= old(bindings).Keys
        invariant forall id :: id in bindings ==> bindings[id] == old(bindings)[id]
        invariant forall id :: id in old(bindings) && id !in rest ==>
            (id in bindings <==> old(bindings)[id].table != table)
      {
        var id :| id in rest;
        if bindings[id].table == table {
          bindings := bindings - {id};
        }
        rest := rest - {id};
      }
    }

    method RetainOtherColumns(table: string, column: string)
      modifies this`bindings
      ensures bindings == map id | id in old(bindings) &&
          !PointsAt(old(bindings)[id], table, column) :: old(bindings)[id]
    {
      var rest := bindings.Keys;
      while rest != {}
        invariant rest <= bindings.Keys <= old(bindings).Keys
        invariant forall id :: id in bindings ==> bindings[id] == old(bindings)[id]
        invariant forall id :: id in old(bindings) && id !in rest ==>
            (id in bindings <==> !PointsAt(old(bindings)[id], table, column))
      {
        var id :| id in rest;
        if PointsAt(bindings[id], table, column) {
          bindings := bindings - {id};
        }
        rest := rest - {id};
      }
    }

    /** The write-locked block of each handler. */
    method Update(cmd: Command, schema: Tables)
      modifies this`tables, this`bindings
      ensures View() == Updated(cmd, old(View()), schema)
    {
      match cmd
      case AddManagedId(_) =>
      case RemoveManagedId(id) => bindings := bindings - {id};
      case UnregisterBinding(id) => bindings := bindings - {id};
      case RegisterBinding(id, b) =>
        bindings := bindings[id := b];
        PruneBindings();
      case CreateTable(t, cols) =>
        tables := tables[t := Columns(cols)];
        PruneBindings();
      case DropTable(t) =>
        tables := tables - {t};
        RetainOtherTables(t);
      case AddColumn(t, c) =>
        if t !in tables {
          tables := tables[t := {}];
        }
        tables := tables[t := tables[t] + {c}];
        PruneBindings();
      case DropColumn(t, c) =>
        if t in tables {
          tables := tables[t := tables[t] - {c}];
        }
        RetainOtherColumns(t, c);
      case RefreshSchema =>
        tables := schema;
        PruneBindings();
    }

    /** Clear the managed ids and insert every bound id. */
    method ManageBoundIds()
      modifies this`managed
      ensures managed == bindings.Keys
    {
      managed := {};
      var rest := bindings.Keys;
      while rest != {}
        invariant managed + rest == bindings.Keys
      {
        var id :| id in rest;
        managed := managed + {id};
        rest := rest - {id};
      }
    }
  }
}
