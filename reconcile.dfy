/**
 * How diffing and replay fit together: replaying the diff from schema A to schema B
 * on top of A yields a schema with B's tables, each with B's column names. Column
 * definitions that both sides have are kept as A wrote them, since the diff compares
 * columns by name only.
 */
module Reconcile {
  import opened Wrappers
  import opened SqlAst
  import opened Seqs
  import opened Migration
  import opened Diff

  // ---------------------------------------------------------------------------
  // Replaying sequences of column drops and additions.

  /** Replaying a concatenation of operations replays its parts in turn. */
  lemma {:induction false} ApplyTableOpsAppend(t: CreateTable, x: seq<AlterTableOperation>, y: seq<AlterTableOperation>)
    requires AllSupported(x) && AllSupported(y)
    ensures AllSupported(x + y)
    ensures ApplyTableOps(t, x + y) == ApplyTableOps(ApplyTableOps(t, x), y)
    decreases |y|
  {
    if |y| == 0 {
      assert x + y == x;
    } else {
      var init := y[..|y| - 1];
      assert AllSupported(init) by {
        forall i | 0 <= i < |init| ensures SupportedTableOp(init[i]) {
          assert init[i] == y[i];
        }
      }
      ApplyTableOpsAppend(t, x, init);
      assert (x + y)[..|x + y| - 1] == x + init;
    }
  }

  function DroppedNameSet(ops: seq<AlterTableOperation>): set<Ident> {
    set i | 0 <= i < |ops| && ops[i].DropColumn? :: ops[i].columnName
  }

  function AddedColumnSet(ops: seq<AlterTableOperation>): set<ColumnDef> {
    set i | 0 <= i < |ops| && ops[i].AddColumn? :: ops[i].columnDef
  }

  lemma DroppedNameSetSnoc(ops: seq<AlterTableOperation>)
    requires |ops| > 0 && ops[|ops| - 1].DropColumn?
    ensures DroppedNameSet(ops) == DroppedNameSet(ops[..|ops| - 1]) + {ops[|ops| - 1].columnName}
  {
    var init := ops[..|ops| - 1];
    forall n | n in DroppedNameSet(ops) ensures n in DroppedNameSet(init) + {ops[|ops| - 1].columnName} {
      var i :| 0 <= i < |ops| && ops[i].DropColumn? && ops[i].columnName == n;
      if i < |init| {
        assert init[i] == ops[i];
      }
    }
  }

  lemma AddedColumnSetSnoc(ops: seq<AlterTableOperation>)
    requires |ops| > 0 && ops[|ops| - 1].AddColumn?
    ensures AddedColumnSet(ops) == AddedColumnSet(ops[..|ops| - 1]) + {ops[|ops| - 1].columnDef}
  {
    var init := ops[..|ops| - 1];
    forall c | c in AddedColumnSet(ops) ensures c in AddedColumnSet(init) + {ops[|ops| - 1].columnDef} {
      var i :| 0 <= i < |ops| && ops[i].AddColumn? && ops[i].columnDef == c;
      if i < |init| {
        assert init[i] == ops[i];
      }
    }
  }

  /** A run of DROP COLUMNs keeps exactly the columns whose name none of them mentions. */
  lemma {:induction false} ApplyDrops(t: CreateTable, ops: seq<AlterTableOperation>)
    requires forall i :: 0 <= i < |ops| ==> ops[i].DropColumn?
    ensures AllSupported(ops)
    ensures var r := ApplyTableOps(t, ops);
      r == t.(columns := r.columns) &&
      forall c :: c in r.columns <==> c in t.columns && c.name !in DroppedNameSet(ops)
    decreases |ops|
  {
    if |ops| > 0 {
      var init, last := ops[..|ops| - 1], ops[|ops| - 1];
      assert forall i :: 0 <= i < |init| ==> init[i] == ops[i];
      ApplyDrops(t, init);
      DroppedNameSetSnoc(ops);
      var before := ApplyTableOps(t, init);
      assert ApplyTableOps(t, ops) == ApplyTableOp(before, last);
      DropColumnRemovesNamed(before, last.columnName, last.ifExists);
    }
  }

  /** A run of ADD COLUMNs keeps every column and adds exactly the columns they carry. */
  lemma {:induction false} ApplyAdds(t: CreateTable, ops: seq<AlterTableOperation>)
    requires forall i :: 0 <= i < |ops| ==> ops[i].AddColumn?
    ensures AllSupported(ops)
    ensures var r := ApplyTableOps(t, ops);
      r == t.(columns := r.columns) &&
      forall c :: c in r.columns <==> c in t.columns || c in AddedColumnSet(ops)
    decreases |ops|
  {
    if |ops| > 0 {
      var init, last := ops[..|ops| - 1], ops[|ops| - 1];
      assert forall i :: 0 <= i < |init| ==> init[i] == ops[i];
      ApplyAdds(t, init);
      AddedColumnSetSnoc(ops);
      var before := ApplyTableOps(t, init);
      assert ApplyTableOps(t, ops) == ApplyTableOp(before, last);
      AddColumnAppends(before, last.ifNotExists, last.columnDef);
    }
  }

  // ---------------------------------------------------------------------------
  // One table.

  /**
   * `r` is `a` brought in line with `b`: every clause of `a` except its columns, and as
   * columns exactly those of `a` that `b` also names and those of `b` that `a` does not
   * name, so that `r` has `b`'s column names. It speaks of membership only, not of the
   * order of the columns.
   */
  ghost predicate ReconciledWith(r: CreateTable, a: CreateTable, b: CreateTable) {
    r == a.(columns := r.columns) &&
    (forall c :: c in r.columns <==>
       (c in a.columns && c.name in ColumnNameSet(b.columns)) ||
       (c in b.columns && c.name !in ColumnNameSet(a.columns))) &&
    ColumnNameSet(r.columns) == ColumnNameSet(b.columns)
  }

  lemma DropsNameMissing(a: CreateTable, b: CreateTable)
    ensures forall i :: 0 <= i < |DropOps(a, b)| ==> DropOps(a, b)[i].DropColumn?
    ensures DroppedNameSet(DropOps(a, b)) == ColumnNameSet(a.columns) - ColumnNameSet(b.columns)
  {
    var drops := DropOps(a, b);
    DropOpsMeaning(a, b);
    forall n | n in ColumnNameSet(a.columns) - ColumnNameSet(b.columns) ensures n in DroppedNameSet(drops) {
      var c :| c in a.columns && c.name == n;
      var k :| 0 <= k < |drops| && drops[k] == DropColumn(n, a.ifNotExists);
    }
  }

  lemma AddsCarryMissing(a: CreateTable, b: CreateTable)
    ensures forall i :: 0 <= i < |AddOps(a, b)| ==> AddOps(a, b)[i].AddColumn?
    ensures forall c :: c in AddedColumnSet(AddOps(a, b)) <==> c in b.columns && c.name !in ColumnNameSet(a.columns)
  {
    var adds := AddOps(a, b);
    AddOpsMeaning(a, b);
    forall c | c in b.columns && c.name !in ColumnNameSet(a.columns) ensures c in AddedColumnSet(adds) {
      var k :| 0 <= k < |adds| && adds[k] == AddColumn(a.ifNotExists, c);
    }
  }

  /** Replaying the comparison of two versions of a table on the first yields the second's column names. */
  lemma TableReconciled(a: CreateTable, b: CreateTable)
    requires a != b
    ensures AllSupported(CompareCreateTable(a, b).value.operations)
    ensures ReconciledWith(ApplyTableOps(a, CompareCreateTable(a, b).value.operations), a, b)
  {
    var drops, adds := DropOps(a, b), AddOps(a, b);
    var ops := CompareCreateTable(a, b).value.operations;
    assert ops == drops + adds;
    var aNames, bNames := ColumnNameSet(a.columns), ColumnNameSet(b.columns);
    DropsNameMissing(a, b);
    AddsCarryMissing(a, b);
    ApplyDrops(a, drops);
    ApplyAdds(ApplyTableOps(a, drops), adds);
    ApplyTableOpsAppend(a, drops, adds);
    var r := ApplyTableOps(a, ops);
    assert forall c :: c in r.columns <==>
       (c in a.columns && c.name in bNames) || (c in b.columns && c.name !in aNames);
    ColumnNamesOfReconciled(r, a, b);
  }

  lemma ColumnNamesOfReconciled(r: CreateTable, a: CreateTable, b: CreateTable)
    requires forall c :: c in r.columns <==>
       (c in a.columns && c.name in ColumnNameSet(b.columns)) || (c in b.columns && c.name !in ColumnNameSet(a.columns))
    ensures ColumnNameSet(r.columns) == ColumnNameSet(b.columns)
  {
    forall n | n in ColumnNameSet(b.columns) ensures n in ColumnNameSet(r.columns) {
      var c :| c in b.columns && c.name == n;
      if n in ColumnNameSet(a.columns) {
        var c' :| c' in a.columns && c'.name == n;
        assert c' in r.columns;
      } else {
        assert c in r.columns;
      }
    }
  }

  // ---------------------------------------------------------------------------
  // Whole schemas.

  function TableNames(s: seq<Statement>): set<ObjectName> {
    set x | x in s && x.CreateTableStmt? :: x.table.name
  }

  /** The only statement of a diff that replay matches to an old table is the one the diff made for it. */
  lemma DiffMatchesOnlyOwn(A: seq<Statement>, B: seq<Statement>, i: nat, x: Statement)
    requires AllTables(A) && AllTables(B) && UniqueNames(A) && i < |A|
    requires DiffSchemas(A, B).Some? && x in DiffSchemas(A, B).value
    ensures Matches(A[i], x) ==> DiffOne(A[i].table, B) == Some(x)
  {
    if x in DiffExisting(A, B) && Matches(A[i], x) {
      DiffExistingKinds(A, B, x);
      var k :| 0 <= k < |A| && DiffOne(A[k].table, B) == Some(x) &&
               (if x.Drop? then x.names[0] else x.name) == A[k].table.name;
      assert A[k].table.name == A[i].table.name;
      assert k == i;
    }
  }

  /** Replay matches each old table to exactly the statement the diff made for it, if any. */
  lemma FirstMatchIsOwn(A: seq<Statement>, B: seq<Statement>, i: nat)
    requires AllTables(A) && AllTables(B) && UniqueNames(A) && i < |A|
    requires DiffSchemas(A, B).Some?
    ensures FindMatch(A[i], DiffSchemas(A, B).value) == DiffOne(A[i].table, B)
  {
    var D := DiffSchemas(A, B).value;
    var a := A[i].table;
    if DiffOne(a, B).Some? {
      var x := DiffOne(a, B).value;
      DiffExistingMembers(A, B, x);
      assert x in DiffExisting(A, B);
      assert D == DiffExisting(A, B) + Added(A, B);
      assert x in D;
      var k :| 0 <= k < |D| && D[k] == x;
      assert Matches(A[i], D[k]);
      var r := FindMatch(A[i], D);
      var j :| 0 <= j < |D| && D[j] == r.value && Matches(A[i], r.value);
      DiffMatchesOnlyOwn(A, B, i, D[j]);
    } else {
      forall k | 0 <= k < |D| ensures !Matches(A[i], D[k]) {
        DiffMatchesOnlyOwn(A, B, i, D[k]);
      }
    }
  }

  lemma ReconciledWithItself(a: CreateTable)
    ensures ReconciledWith(a, a, a)
  {
  }

  /**
   * Replaying the diff on an old table: it disappears when the new schema lacks it, and is
   * otherwise reconciled with its namesake there.
   */
  lemma MigrateOneAfterDiff(A: seq<Statement>, B: seq<Statement>, i: nat)
    requires AllTables(A) && AllTables(B) && UniqueNames(A) && i < |A|
    requires DiffSchemas(A, B).Some?
    ensures CanMigrate(A[i], DiffSchemas(A, B).value)
    ensures var m := MigrateOne(A[i], DiffSchemas(A, B).value);
      var found := FindTable(A[i].table.name, B);
      (found.None? ==> m.None?) &&
      (found.Some? ==> m.Some? && m.value.CreateTableStmt? && ReconciledWith(m.value.table, A[i].table, found.value))
  {
    var a := A[i].table;
    FirstMatchIsOwn(A, B, i);
    var found := FindTable(a.name, B);
    if found.Some? {
      if found.value == a {
        ReconciledWithItself(a);
      } else {
        TableReconciled(a, found.value);
      }
    }
  }

  /**
   * Replaying the diff from A to B on top of A gives a schema of tables whose names are
   * B's table names, each with the column names of B's table of that name.
   */
  lemma SchemaReconciled(A: seq<Statement>, B: seq<Statement>)
    requires AllTables(A) && AllTables(B) && UniqueNames(A)
    requires DiffSchemas(A, B).Some?
    ensures SchemaMigratable(A, DiffSchemas(A, B).value)
    ensures var R := Migrate(A, DiffSchemas(A, B).value).value;
      AllTables(R) && TableNames(R) == TableNames(B) &&
      forall x :: x in R ==> exists y :: y in B && y.CreateTableStmt? && y.table.name == x.table.name &&
                                       ColumnNameSet(y.table.columns) == ColumnNameSet(x.table.columns)
  {
    DiffMigratable(A, B);
    var R := Migrate(A, DiffSchemas(A, B).value).value;
    forall x | x in R
      ensures x.CreateTableStmt? && exists y :: y in B && y.CreateTableStmt? && y.table.name == x.table.name &&
                                               ColumnNameSet(y.table.columns) == ColumnNameSet(x.table.columns)
    {
      ReconciledMember(A, B, x);
    }
    assert AllTables(R) by {
      forall k | 0 <= k < |R| ensures R[k].CreateTableStmt? {
        assert R[k] in R;
      }
    }
    forall n | n in TableNames(B) ensures n in TableNames(R) {
      ReconciledCovers(A, B, n);
    }
  }

  lemma DiffMigratable(A: seq<Statement>, B: seq<Statement>)
    requires AllTables(A) && AllTables(B) && UniqueNames(A)
    requires DiffSchemas(A, B).Some?
    ensures SchemaMigratable(A, DiffSchemas(A, B).value)
  {
    forall i | 0 <= i < |A| ensures CanMigrate(A[i], DiffSchemas(A, B).value) {
      MigrateOneAfterDiff(A, B, i);
    }
  }

  /** Every table after replaying the diff is a table of B, with B's column names. */
  lemma ReconciledMember(A: seq<Statement>, B: seq<Statement>, x: Statement)
    requires AllTables(A) && AllTables(B) && UniqueNames(A)
    requires DiffSchemas(A, B).Some? && SchemaMigratable(A, DiffSchemas(A, B).value)
    requires x in Migrate(A, DiffSchemas(A, B).value).value
    ensures x.CreateTableStmt? && exists y :: y in B && y.CreateTableStmt? && y.table.name == x.table.name &&
                                             ColumnNameSet(y.table.columns) == ColumnNameSet(x.table.columns)
  {
    var D := DiffSchemas(A, B).value;
    MigrateMembers(A, D, x);
    if exists i :: 0 <= i < |A| && MigrateOne(A[i], D) == Some(x) {
      var i :| 0 <= i < |A| && MigrateOne(A[i], D) == Some(x);
      ReconciledOld(A, B, i, x);
    } else {
      ReconciledNew(A, B, x);
    }
  }

  /** An old table that survives the replay is B's table of that name, columns reconciled. */
  lemma ReconciledOld(A: seq<Statement>, B: seq<Statement>, i: nat, x: Statement)
    requires AllTables(A) && AllTables(B) && UniqueNames(A) && i < |A|
    requires DiffSchemas(A, B).Some? && SchemaMigratable(A, DiffSchemas(A, B).value)
    requires MigrateOne(A[i], DiffSchemas(A, B).value) == Some(x)
    ensures x.CreateTableStmt? && exists y :: y in B && y.CreateTableStmt? && y.table.name == x.table.name &&
                                             ColumnNameSet(y.table.columns) == ColumnNameSet(x.table.columns)
  {
    MigrateOneAfterDiff(A, B, i);
    var b := FindTable(A[i].table.name, B).value;
    var j :| 0 <= j < |B| && B[j] == CreateTableStmt(b) &&
             forall l :: 0 <= l < j ==> !NamedTable(B[l], A[i].table.name);
    assert B[j] in B;
  }

  /** A statement the diff adds is a table of B, copied unchanged. */
  lemma ReconciledNew(A: seq<Statement>, B: seq<Statement>, x: Statement)
    requires AllTables(A) && AllTables(B)
    requires DiffSchemas(A, B).Some?
    requires x in DiffSchemas(A, B).value && IsSchemaStatement(x)
    ensures x.CreateTableStmt? && exists y :: y in B && y.CreateTableStmt? && y.table.name == x.table.name &&
                                             ColumnNameSet(y.table.columns) == ColumnNameSet(x.table.columns)
  {
    if x in DiffExisting(A, B) {
      DiffExistingKinds(A, B, x);
    }
    assert x in Added(A, B);
  }

  /** Every table name of B names a table after replaying the diff. */
  lemma ReconciledCovers(A: seq<Statement>, B: seq<Statement>, n: ObjectName)
    requires AllTables(A) && AllTables(B) && UniqueNames(A)
    requires DiffSchemas(A, B).Some? && SchemaMigratable(A, DiffSchemas(A, B).value)
    requires n in TableNames(B)
    ensures n in TableNames(Migrate(A, DiffSchemas(A, B).value).value)
  {
    var D := DiffSchemas(A, B).value;
    var R := Migrate(A, D).value;
    var y :| y in B && y.CreateTableStmt? && y.table.name == n;
    var found := FindTable(n, A);
    if found.None? {
      assert y in Added(A, B);
      MigrateMembers(A, D, y);
    } else {
      var i :| 0 <= i < |A| && A[i] == CreateTableStmt(found.value) &&
               forall l :: 0 <= l < i ==> !NamedTable(A[l], n);
      assert NamedTable(y, A[i].table.name);
      MigrateOneAfterDiff(A, B, i);
      var m := MigrateOne(A[i], D).value;
      MigrateMembers(A, D, m);
      assert m in R;
    }
  }

  /** With an empty diff, every table of the new schema is in the old one. */
  lemma NoDiffNewInOld(A: seq<Statement>, B: seq<Statement>, j: nat)
    requires AllTables(A) && AllTables(B) && UniqueNames(B) && j < |B|
    requires forall i :: 0 <= i < |A| ==> FindTable(A[i].table.name, B) == Some(A[i].table)
    requires FindTable(B[j].table.name, A).Some?
    ensures B[j] in A
  {
    var t := FindTable(B[j].table.name, A).value;
    var i :| 0 <= i < |A| && A[i] == CreateTableStmt(t) &&
             forall l :: 0 <= l < i ==> !NamedTable(A[l], B[j].table.name);
    assert FindTable(t.name, B) == Some(t);
    var k :| 0 <= k < |B| && B[k] == CreateTableStmt(t) &&
             forall l :: 0 <= l < k ==> !NamedTable(B[l], t.name);
    assert B[k].table.name == B[j].table.name;
    assert k == j;
  }

  /** An empty diff towards a schema with distinct table names means both hold the same tables. */
  lemma NoDiffSameTables(A: seq<Statement>, B: seq<Statement>)
    requires AllTables(A) && AllTables(B) && UniqueNames(B)
    requires DiffSchemas(A, B).None?
    ensures forall x :: x in A <==> x in B
  {
    DiffNoneIff(A, B);
    forall x | x in B ensures x in A {
      var j :| 0 <= j < |B| && B[j] == x;
      NoDiffNewInOld(A, B, j);
    }
    forall x | x in A ensures x in B {
      var i :| 0 <= i < |A| && A[i] == x;
      var t := FindTable(x.table.name, B).value;
      var k :| 0 <= k < |B| && B[k] == CreateTableStmt(t);
    }
  }
}
