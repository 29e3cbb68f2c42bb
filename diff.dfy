/**
 * Schema diffing: the statements that turn one schema (a list of CREATE TABLE
 * statements) into another. Tables are matched by name; a table only on the left
 * is dropped, a table only on the right is created, a table on both sides is
 * compared column by column.
 */
module Diff {
  import opened Wrappers
  import opened SqlAst
  import opened Seqs

  // ---------------------------------------------------------------------------
  // Comparing two versions of one table.

  /** The names of `columns`, in order. */
  function ColumnNames(columns: seq<ColumnDef>): seq<Ident> {
    Map(columns, (c: ColumnDef) => c.name)
  }

  /** The column names the DROP COLUMN operations of `ops` name, in their order. */
  function DroppedNames(ops: seq<AlterTableOperation>): seq<Ident> {
    if |ops| == 0 then []
    else (if ops[0].DropColumn? then [ops[0].columnName] else []) + DroppedNames(ops[1..])
  }

  /** The column definitions the ADD COLUMN operations of `ops` carry, in their order. */
  function AddedColumns(ops: seq<AlterTableOperation>): seq<ColumnDef> {
    if |ops| == 0 then []
    else (if ops[0].AddColumn? then [ops[0].columnDef] else []) + AddedColumns(ops[1..])
  }

  lemma {:induction false} DroppedNamesAppend(x: seq<AlterTableOperation>, y: seq<AlterTableOperation>)
    ensures DroppedNames(x + y) == DroppedNames(x) + DroppedNames(y)
    ensures AddedColumns(x + y) == AddedColumns(x) + AddedColumns(y)
  {
    if |x| > 0 {
      assert (x + y)[1..] == x[1..] + y;
      DroppedNamesAppend(x[1..], y);
    } else {
      assert x + y == y;
    }
  }

  /** A list of drops, one per name, gives back those names and carries no column. */
  lemma {:induction false} DropsGiveNames(ops: seq<AlterTableOperation>, names: seq<Ident>)
    requires |ops| == |names|
    requires forall i :: 0 <= i < |ops| ==> ops[i].DropColumn? && ops[i].columnName == names[i]
    ensures DroppedNames(ops) == names && AddedColumns(ops) == []
  {
    if |ops| > 0 {
      DropsGiveNames(ops[1..], names[1..]);
      assert names == [names[0]] + names[1..];
    }
  }

  /** A list of additions, one per column, gives back those columns and drops no name. */
  lemma {:induction false} AddsGiveColumns(ops: seq<AlterTableOperation>, columns: seq<ColumnDef>)
    requires |ops| == |columns|
    requires forall i :: 0 <= i < |ops| ==> ops[i].AddColumn? && ops[i].columnDef == columns[i]
    ensures AddedColumns(ops) == columns && DroppedNames(ops) == []
  {
    if |ops| > 0 {
      AddsGiveColumns(ops[1..], columns[1..]);
      assert columns == [columns[0]] + columns[1..];
    }
  }

  /** DROP COLUMN for every column of `a` whose name `b` does not have, in `a`'s order. */
  function DropOps(a: CreateTable, b: CreateTable): seq<AlterTableOperation> {
    var bNames := ColumnNameSet(b.columns);
    var gone := Retain(a.columns, (c: ColumnDef) => c.name !in bNames);
    seq(|gone|, i requires 0 <= i < |gone| => DropColumn(gone[i].name, a.ifNotExists))
  }

  /** ADD COLUMN for every column of `b` whose name `a` does not have, in `b`'s order. */
  function AddOps(a: CreateTable, b: CreateTable): seq<AlterTableOperation> {
    var aNames := ColumnNameSet(a.columns);
    var added := Retain(b.columns, (c: ColumnDef) => c.name !in aNames);
    seq(|added|, i requires 0 <= i < |added| => AddColumn(a.ifNotExists, added[i]))
  }

  /** `compare_create_table`: nothing when the tables are equal, an ALTER TABLE otherwise. */
  function CompareCreateTable(a: CreateTable, b: CreateTable): (r: Option<Statement>)
    ensures r.None? <==> a == b
    ensures r.Some? ==> r.value.AlterTable? && r.value.name == a.name &&
                        r.value.ifExists == a.ifNotExists && !r.value.only && r.value.onCluster == a.onCluster
  {
    if a == b then None
    else Some(AlterTable(a.name, a.ifNotExists, false, DropOps(a, b) + AddOps(a, b), a.onCluster))
  }

  /**
   * The drops name, in `a`'s order, the names of `a`'s columns that `b` lacks, each as
   * often as `a` has it, and carry no column definition.
   */
  lemma DropOpsInOrder(a: CreateTable, b: CreateTable)
    ensures var names, bNames := DroppedNames(DropOps(a, b)), ColumnNameSet(b.columns);
      AddedColumns(DropOps(a, b)) == [] &&
      Subsequence(names, ColumnNames(a.columns)) &&
      forall n :: multiset(names)[n] == if n in bNames then 0 else multiset(ColumnNames(a.columns))[n]
  {
    var drops := DropOps(a, b);
    var bNames := ColumnNameSet(b.columns);
    var gone := Retain(a.columns, (c: ColumnDef) => c.name !in bNames);
    var keepName := (n: Ident) => n !in bNames;
    MapRetain(a.columns, (c: ColumnDef) => c.name !in bNames, (c: ColumnDef) => c.name, keepName);
    var goneNames := Map(gone, (c: ColumnDef) => c.name);
    assert goneNames == Retain(ColumnNames(a.columns), keepName);
    DropsGiveNames(drops, goneNames);
    forall n ensures multiset(goneNames)[n] == if n in bNames then 0 else multiset(ColumnNames(a.columns))[n] {
      RetainCount(ColumnNames(a.columns), keepName, n);
    }
  }

  /** The drops name exactly the columns of `a` that `b` lacks. */
  lemma DropOpsMeaning(a: CreateTable, b: CreateTable)
    ensures var drops := DropOps(a, b);
      var aNames, bNames := ColumnNameSet(a.columns), ColumnNameSet(b.columns);
      (forall i :: 0 <= i < |drops| ==>
         drops[i].DropColumn? && drops[i].columnName in aNames - bNames && drops[i].ifExists == a.ifNotExists) &&
      (forall c :: c in a.columns && c.name !in bNames ==> DropColumn(c.name, a.ifNotExists) in drops)
  {
    var drops := DropOps(a, b);
    var bNames := ColumnNameSet(b.columns);
    var gone := Retain(a.columns, (c: ColumnDef) => c.name !in bNames);
    forall i | 0 <= i < |drops| ensures drops[i].columnName in ColumnNameSet(a.columns) - bNames {
      assert gone[i] in gone;
    }
    forall c | c in a.columns && c.name !in bNames
      ensures DropColumn(c.name, a.ifNotExists) in drops
    {
      var k :| 0 <= k < |gone| && gone[k] == c;
      assert drops[k] == DropColumn(c.name, a.ifNotExists);
    }
  }

  /**
   * The additions carry, in `b`'s order, the columns of `b` whose names `a` lacks, each as
   * often as `b` has it, and drop no column.
   */
  lemma AddOpsInOrder(a: CreateTable, b: CreateTable)
    ensures var added, aNames := AddedColumns(AddOps(a, b)), ColumnNameSet(a.columns);
      DroppedNames(AddOps(a, b)) == [] &&
      Subsequence(added, b.columns) &&
      forall c :: multiset(added)[c] == if c.name in aNames then 0 else multiset(b.columns)[c]
  {
    var adds := AddOps(a, b);
    var aNames := ColumnNameSet(a.columns);
    var added := Retain(b.columns, (c: ColumnDef) => c.name !in aNames);
    AddsGiveColumns(adds, added);
    forall c: ColumnDef ensures multiset(added)[c] == if c.name in aNames then 0 else multiset(b.columns)[c] {
      RetainCount(b.columns, (c: ColumnDef) => c.name !in aNames, c);
    }
  }

  /** The additions carry exactly the columns of `b` that `a` lacks. */
  lemma AddOpsMeaning(a: CreateTable, b: CreateTable)
    ensures var adds := AddOps(a, b);
      var aNames, bNames := ColumnNameSet(a.columns), ColumnNameSet(b.columns);
      (forall i :: 0 <= i < |adds| ==>
         adds[i].AddColumn? && adds[i].columnDef in b.columns &&
         adds[i].columnDef.name in bNames - aNames && adds[i].ifNotExists == a.ifNotExists) &&
      (forall c :: c in b.columns && c.name !in aNames ==> AddColumn(a.ifNotExists, c) in adds)
  {
    var adds := AddOps(a, b);
    var aNames := ColumnNameSet(a.columns);
    var added := Retain(b.columns, (c: ColumnDef) => c.name !in aNames);
    forall i | 0 <= i < |adds|
      ensures adds[i].columnDef in b.columns && adds[i].columnDef.name in ColumnNameSet(b.columns) - aNames
    {
      assert added[i] in added;
    }
    forall c | c in b.columns && c.name !in aNames
      ensures AddColumn(a.ifNotExists, c) in adds
    {
      var k :| 0 <= k < |added| && added[k] == c;
      assert adds[k] == AddColumn(a.ifNotExists, c);
    }
  }

  /**
   * The operations of a table comparison: first one DROP COLUMN for each column of `a`
   * that `b` lacks (by name), in `a`'s order, then one ADD COLUMN, carrying `b`'s
   * definition, for each column of `b` that `a` lacks, in `b`'s order, and nothing else.
   */
  lemma CompareOps(a: CreateTable, b: CreateTable)
    requires a != b
    ensures var ops := CompareCreateTable(a, b).value.operations;
      var aNames, bNames := ColumnNameSet(a.columns), ColumnNameSet(b.columns);
      (forall i :: 0 <= i < |ops| && ops[i].DropColumn? ==>
         ops[i].columnName in aNames - bNames && ops[i].ifExists == a.ifNotExists &&
         forall j :: 0 <= j < i ==> ops[j].DropColumn?) &&
      (forall i :: 0 <= i < |ops| && !ops[i].DropColumn? ==>
         ops[i].AddColumn? && ops[i].columnDef in b.columns &&
         ops[i].columnDef.name in bNames - aNames && ops[i].ifNotExists == a.ifNotExists) &&
      (forall c :: c in a.columns && c.name !in bNames ==> DropColumn(c.name, a.ifNotExists) in ops) &&
      (forall c :: c in b.columns && c.name !in aNames ==> AddColumn(a.ifNotExists, c) in ops)
  {
    var drops, adds := DropOps(a, b), AddOps(a, b);
    assert CompareCreateTable(a, b).value.operations == drops + adds;
    DropOpsMeaning(a, b);
    AddOpsMeaning(a, b);
  }

  /**
   * Read in order, the operations drop the names of `a`'s columns that `b` lacks, in
   * `a`'s order, and add the columns of `b` whose names `a` lacks, in `b`'s order; a
   * repeated column is dropped or added once per occurrence.
   */
  lemma CompareOpsInOrder(a: CreateTable, b: CreateTable)
    requires a != b
    ensures var ops := CompareCreateTable(a, b).value.operations;
      var names, added := DroppedNames(ops), AddedColumns(ops);
      var aNames, bNames := ColumnNameSet(a.columns), ColumnNameSet(b.columns);
      Subsequence(names, ColumnNames(a.columns)) &&
      (forall n :: multiset(names)[n] == if n in bNames then 0 else multiset(ColumnNames(a.columns))[n]) &&
      Subsequence(added, b.columns) &&
      (forall c :: multiset(added)[c] == if c.name in aNames then 0 else multiset(b.columns)[c])
  {
    var drops, adds := DropOps(a, b), AddOps(a, b);
    assert CompareCreateTable(a, b).value.operations == drops + adds;
    DropOpsInOrder(a, b);
    AddOpsInOrder(a, b);
    DroppedNamesAppend(drops, adds);
    assert DroppedNames(drops + adds) == DroppedNames(drops);
    assert AddedColumns(drops + adds) == AddedColumns(adds);
  }

  /**
   * Two different versions of a table with the same column names (say, one column's type
   * changed) yield an ALTER TABLE without operations: the diff tracks columns by name only.
   */
  lemma SameColumnNamesNoOps(a: CreateTable, b: CreateTable)
    requires a != b && ColumnNameSet(a.columns) == ColumnNameSet(b.columns)
    ensures CompareCreateTable(a, b).value.operations == []
  {
    assert forall c :: c in a.columns ==> c.name in ColumnNameSet(b.columns);
    assert forall c :: c in b.columns ==> c.name in ColumnNameSet(a.columns);
  }

  // ---------------------------------------------------------------------------
  // Comparing two schemas.

  predicate AllTables(s: seq<Statement>) {
    forall i :: 0 <= i < |s| ==> s[i].CreateTableStmt?
  }

  predicate NamedTable(st: Statement, name: ObjectName) {
    st.CreateTableStmt? && st.table.name == name
  }

  /** Table names never repeat within a schema. */
  predicate UniqueNames(s: seq<Statement>)
    requires AllTables(s)
  {
    forall i, j :: 0 <= i < j < |s| ==> s[i].table.name != s[j].table.name
  }

  /** The first CREATE TABLE named `name`. */
  function FindTable(name: ObjectName, s: seq<Statement>): (r: Option<CreateTable>)
    ensures r.Some? ==> (r.value.name == name &&
      exists i :: 0 <= i < |s| && s[i] == CreateTableStmt(r.value) &&
                  forall j :: 0 <= j < i ==> !NamedTable(s[j], name))
    ensures r.None? <==> forall i :: 0 <= i < |s| ==> !NamedTable(s[i], name)
  {
    if |s| == 0 then None
    else if NamedTable(s[0], name) then Some(s[0].table)
    else
      var r := FindTable(name, s[1..]);
      if r.Some? then
        ghost var i :| 0 <= i < |s[1..]| && s[1..][i] == CreateTableStmt(r.value) &&
                       forall j :: 0 <= j < i ==> !NamedTable(s[1..][j], name);
        assert s[i + 1] == CreateTableStmt(r.value);
        r
      else
        r
  }

  /** The drop emitted for a table that only the old schema has. */
  function DropTableStmt(a: CreateTable): Statement {
    Drop(Table, a.ifNotExists, [a.name], false, false, false, false)
  }

  /** What the diff says about one table of the old schema. */
  function DiffOne(a: CreateTable, other: seq<Statement>): Option<Statement> {
    match FindTable(a.name, other)
    case None => Some(DropTableStmt(a))
    case Some(b) => CompareCreateTable(a, b)
  }

  /** The statements for the tables of the old schema, in its order. */
  function DiffExisting(schema: seq<Statement>, other: seq<Statement>): seq<Statement>
    requires AllTables(schema)
    decreases |schema|
  {
    if |schema| == 0 then []
    else
      var rest := DiffExisting(schema[1..], other);
      match DiffOne(schema[0].table, other)
      case None => rest
      case Some(s) => [s] + rest
  }

  /** The tables of the new schema that the old one lacks, copied verbatim, in order. */
  function Added(schema: seq<Statement>, other: seq<Statement>): seq<Statement> {
    Retain(other, (sb: Statement) => sb.CreateTableStmt? && FindTable(sb.table.name, schema).None?)
  }

  /** `Diff for Vec<Statement>`: None when nothing needs to change. */
  function DiffSchemas(schema: seq<Statement>, other: seq<Statement>): (r: Option<seq<Statement>>)
    requires AllTables(schema) && AllTables(other)
    ensures r.Some? ==> |r.value| > 0
  {
    var res := DiffExisting(schema, other) + Added(schema, other);
    if |res| == 0 then None else Some(res)
  }

  // ---------------------------------------------------------------------------
  // Properties of the diff.

  lemma {:induction false} DiffExistingMembers(schema: seq<Statement>, other: seq<Statement>, x: Statement)
    requires AllTables(schema)
    ensures x in DiffExisting(schema, other) <==>
      exists i :: 0 <= i < |schema| && DiffOne(schema[i].table, other) == Some(x)
    decreases |schema|
  {
    if |schema| > 0 {
      DiffExistingMembers(schema[1..], other, x);
      DiffExistingHead(schema, other, x);
      SomeTableSplits(schema, other, x);
    }
  }

  /** Some table of a non-empty schema yields `x` exactly when its head or some later table does. */
  lemma SomeTableSplits(schema: seq<Statement>, other: seq<Statement>, x: Statement)
    requires AllTables(schema) && |schema| > 0
    ensures (exists i :: 0 <= i < |schema| && DiffOne(schema[i].table, other) == Some(x)) <==>
      DiffOne(schema[0].table, other) == Some(x) ||
      exists i :: 0 <= i < |schema[1..]| && DiffOne(schema[1..][i].table, other) == Some(x)
  {
    var tail := schema[1..];
    var ys := seq(|schema|, i requires 0 <= i < |schema| => DiffOne(schema[i].table, other));
    SomeSplits(ys, Some(x));
    forall i | 0 <= i < |tail| ensures ys[1..][i] == DiffOne(tail[i].table, other) {
      assert tail[i] == schema[i + 1];
    }
  }

  lemma DiffExistingHead(schema: seq<Statement>, other: seq<Statement>, x: Statement)
    requires AllTables(schema) && |schema| > 0
    ensures x in DiffExisting(schema, other) <==>
      DiffOne(schema[0].table, other) == Some(x) || x in DiffExisting(schema[1..], other)
  {
  }

  /** The statements for the old schema's tables are DROP TABLE and ALTER TABLE only. */
  lemma DiffExistingKinds(schema: seq<Statement>, other: seq<Statement>, x: Statement)
    requires AllTables(schema) && x in DiffExisting(schema, other)
    ensures (x.Drop? && x.objectType == Table && |x.names| == 1) || x.AlterTable?
    ensures exists i :: 0 <= i < |schema| && DiffOne(schema[i].table, other) == Some(x) &&
                        (if x.Drop? then x.names[0] else x.name) == schema[i].table.name
  {
    DiffExistingMembers(schema, other, x);
  }

  /** A table only the old schema has is dropped, with IF EXISTS copied from its IF NOT EXISTS. */
  lemma DroppedWhenMissing(schema: seq<Statement>, other: seq<Statement>, i: nat)
    requires AllTables(schema) && AllTables(other) && i < |schema|
    requires forall j :: 0 <= j < |other| ==> other[j].table.name != schema[i].table.name
    ensures DiffSchemas(schema, other).Some?
    ensures DropTableStmt(schema[i].table) in DiffSchemas(schema, other).value
  {
    DiffExistingMembers(schema, other, DropTableStmt(schema[i].table));
  }

  /** A table only the new schema has is created, verbatim. */
  lemma CreatedWhenNew(schema: seq<Statement>, other: seq<Statement>, j: nat)
    requires AllTables(schema) && AllTables(other) && j < |other|
    requires forall i :: 0 <= i < |schema| ==> schema[i].table.name != other[j].table.name
    ensures DiffSchemas(schema, other).Some?
    ensures other[j] in DiffSchemas(schema, other).value
  {
    assert other[j] in Added(schema, other);
  }

  /**
   * The created tables are the tables of the new schema that the old one lacks, in the
   * new schema's order, each as often as the new schema has it.
   */
  lemma AddedInOrder(schema: seq<Statement>, other: seq<Statement>)
    ensures var created := Added(schema, other);
      (forall i :: 0 <= i < |created| ==> created[i].CreateTableStmt?) &&
      Subsequence(created, other) &&
      forall st :: multiset(created)[st] ==
        if st.CreateTableStmt? && FindTable(st.table.name, schema).None? then multiset(other)[st] else 0
  {
    var keep := (sb: Statement) => sb.CreateTableStmt? && FindTable(sb.table.name, schema).None?;
    var created := Retain(other, keep);
    forall i | 0 <= i < |created| ensures created[i].CreateTableStmt? {
      assert created[i] in created;
    }
    forall st ensures multiset(created)[st] == if keep(st) then multiset(other)[st] else 0 {
      RetainCount(other, keep, st);
    }
  }

  /**
   * The diff lists first the DROP TABLE and ALTER TABLE statements for the old schema's
   * tables and then, as its tail, the created tables.
   */
  lemma CreatedLast(schema: seq<Statement>, other: seq<Statement>)
    requires AllTables(schema) && AllTables(other) && DiffSchemas(schema, other).Some?
    ensures var r, created := DiffSchemas(schema, other).value, Added(schema, other);
      |created| <= |r| && r[|r| - |created|..] == created &&
      (forall i :: 0 <= i < |r| - |created| ==> r[i].Drop? || r[i].AlterTable?) &&
      (forall i :: |r| - |created| <= i < |r| ==> r[i].CreateTableStmt?)
  {
    var existing, created := DiffExisting(schema, other), Added(schema, other);
    var r := existing + created;
    assert r[|r| - |created|..] == created;
    forall i | 0 <= i < |existing| ensures r[i].Drop? || r[i].AlterTable? {
      assert r[i] == existing[i];
      DiffExistingKinds(schema, other, existing[i]);
    }
    AddedInOrder(schema, other);
    forall i | |existing| <= i < |r| ensures r[i].CreateTableStmt? {
      assert r[i] == created[i - |existing|];
    }
  }

  /**
   * The diff is empty exactly when every old table has an identical first namesake in the
   * new schema and every new table has a namesake in the old one.
   */
  lemma DiffNoneIff(schema: seq<Statement>, other: seq<Statement>)
    requires AllTables(schema) && AllTables(other)
    ensures DiffSchemas(schema, other).None? <==>
      (forall i :: 0 <= i < |schema| ==> FindTable(schema[i].table.name, other) == Some(schema[i].table)) &&
      (forall j :: 0 <= j < |other| ==> FindTable(other[j].table.name, schema).Some?)
  {
    var existing, added := DiffExisting(schema, other), Added(schema, other);
    if existing + added == [] {
      assert existing == [] && added == [];
      forall i | 0 <= i < |schema|
        ensures FindTable(schema[i].table.name, other) == Some(schema[i].table)
      {
        if DiffOne(schema[i].table, other).Some? {
          DiffExistingMembers(schema, other, DiffOne(schema[i].table, other).value);
        }
      }
      forall j | 0 <= j < |other|
        ensures FindTable(other[j].table.name, schema).Some?
      {
        assert other[j] !in added;
      }
    } else if |existing| > 0 {
      DiffExistingMembers(schema, other, existing[0]);
    } else {
      assert added[0] in added;
    }
  }

  /** A schema with distinct table names differs from itself in nothing. */
  lemma DiffSelfNone(schema: seq<Statement>)
    requires AllTables(schema) && UniqueNames(schema)
    ensures DiffSchemas(schema, schema).None?
  {
    forall i | 0 <= i < |schema|
      ensures FindTable(schema[i].table.name, schema) == Some(schema[i].table)
    {
      var r := FindTable(schema[i].table.name, schema);
      var k :| 0 <= k < |schema| && schema[k] == CreateTableStmt(r.value) &&
               forall j :: 0 <= j < k ==> !NamedTable(schema[j], schema[i].table.name);
      assert !(k < i) && !(i < k);
    }
    forall j | 0 <= j < |schema|
      ensures FindTable(schema[j].table.name, schema).Some?
    {
      assert NamedTable(schema[j], schema[j].table.name);
    }
    DiffNoneIff(schema, schema);
  }

  /**
   * Diffing is mirrored: a table the diff from `schema` to `other` creates is exactly one
   * the diff from `other` to `schema` drops.
   */
  lemma DiffMirror(schema: seq<Statement>, other: seq<Statement>, j: nat)
    requires AllTables(schema) && AllTables(other) && j < |other|
    ensures DiffSchemas(schema, other).Some? && other[j] in DiffSchemas(schema, other).value <==>
            DiffSchemas(other, schema).Some? && DropTableStmt(other[j].table) in DiffSchemas(other, schema).value
  {
    var b := other[j].table;
    if other[j] in DiffExisting(schema, other) + Added(schema, other) {
      MirrorForward(schema, other, j);
    }
    if DropTableStmt(b) in DiffExisting(other, schema) + Added(other, schema) {
      MirrorBackward(schema, other, j);
    }
  }

  /** A table the forward diff adds is dropped by the backward diff. */
  lemma MirrorForward(schema: seq<Statement>, other: seq<Statement>, j: nat)
    requires AllTables(schema) && AllTables(other) && j < |other|
    requires other[j] in DiffExisting(schema, other) + Added(schema, other)
    ensures DropTableStmt(other[j].table) in DiffExisting(other, schema)
  {
    var b := other[j].table;
    DiffExistingMembers(schema, other, other[j]);
    DiffExistingMembers(other, schema, DropTableStmt(b));
    assert other[j] in Added(schema, other);
    assert DiffOne(b, schema) == Some(DropTableStmt(b));
  }

  /** A table the backward diff drops is added by the forward diff. */
  lemma MirrorBackward(schema: seq<Statement>, other: seq<Statement>, j: nat)
    requires AllTables(schema) && AllTables(other) && j < |other|
    requires DropTableStmt(other[j].table) in DiffExisting(other, schema) + Added(other, schema)
    ensures other[j] in Added(schema, other)
  {
    var b := other[j].table;
    DiffExistingMembers(other, schema, DropTableStmt(b));
    assert DropTableStmt(b) in DiffExisting(other, schema);
    var i :| 0 <= i < |other| && DiffOne(other[i].table, schema) == Some(DropTableStmt(b));
    assert FindTable(b.name, schema).None?;
  }
}
