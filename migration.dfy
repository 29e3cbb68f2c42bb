/**
 * Migration replay: folding the statements of one migration file into the schema
 * built so far. The schema is a list of CREATE TABLE, CREATE TYPE and CREATE
 * EXTENSION statements; ALTER statements edit them in place and DROP removes them.
 */
module Migration {
  import opened Wrappers
  import opened SqlAst
  import opened Seqs

  // ---------------------------------------------------------------------------
  // ALTER COLUMN on a single column definition.

  predicate IsNotNull(o: ColumnOptionDef) { o.option.NotNull? }
  predicate IsDefault(o: ColumnOptionDef) { o.option.Default? }
  predicate IsGenerated(o: ColumnOptionDef) { o.option.Generated? }

  /** The options each ALTER COLUMN that removes options keeps. */
  predicate OtherThanNotNull(o: ColumnOptionDef) { !IsNotNull(o) }
  predicate OtherThanDefault(o: ColumnOptionDef) { !IsDefault(o) }
  predicate OtherThanGenerated(o: ColumnOptionDef) { !IsGenerated(o) }

  /** The option ADD GENERATED attaches: ALWAYS unless the statement says otherwise. */
  function GeneratedOption(generatedAs: Option<GeneratedAs>, sequenceOptions: Option<seq<SqlText>>): ColumnOptionDef {
    ColumnOptionDef(None, Generated(generatedAs.UnwrapOr(Always), sequenceOptions, None, true))
  }

  /** The effect of one ALTER COLUMN operation on a column whose name matched. */
  function AlterColumnDef(c: ColumnDef, op: AlterColumnOperation): ColumnDef {
    match op
    case SetNotNull => c.(options := c.options + [ColumnOptionDef(None, NotNull)])
    case DropNotNull => c.(options := Retain(c.options, OtherThanNotNull))
    case SetDefault(value) =>
      c.(options := Retain(c.options, OtherThanDefault) + [ColumnOptionDef(None, Default(value))])
    case DropDefault => c.(options := Retain(c.options, OtherThanDefault))
    case SetDataType(dataType, _) => c.(dataType := dataType)
    case AddGenerated(generatedAs, sequenceOptions) =>
      c.(options := Retain(c.options, OtherThanGenerated) + [GeneratedOption(generatedAs, sequenceOptions)])
  }

  /** Removing the defaults keeps every other option as often as it occurs. */
  lemma NonDefaultsCount(options: seq<ColumnOptionDef>)
    ensures forall o :: multiset(Retain(options, OtherThanDefault))[o] == if IsDefault(o) then 0 else multiset(options)[o]
  {
    forall o ensures multiset(Retain(options, OtherThanDefault))[o] == if IsDefault(o) then 0 else multiset(options)[o] {
      RetainCount(options, OtherThanDefault, o);
    }
  }

  /** Removing the generated options keeps every other option as often as it occurs. */
  lemma NonGeneratedCount(options: seq<ColumnOptionDef>)
    ensures forall o :: multiset(Retain(options, OtherThanGenerated))[o] == if IsGenerated(o) then 0 else multiset(options)[o]
  {
    forall o ensures multiset(Retain(options, OtherThanGenerated))[o] == if IsGenerated(o) then 0 else multiset(options)[o] {
      RetainCount(options, OtherThanGenerated, o);
    }
  }

  /** SET NOT NULL appends one unnamed NotNull option and keeps the existing options in place. */
  lemma SetNotNullAppends(c: ColumnDef)
    ensures var r := AlterColumnDef(c, SetNotNull);
      r.name == c.name && r.dataType == c.dataType &&
      |r.options| == |c.options| + 1 && r.options[..|c.options|] == c.options &&
      r.options[|c.options|] == ColumnOptionDef(None, NotNull)
  {
    var r := AlterColumnDef(c, SetNotNull);
    assert r.options[..|c.options|] == c.options;
  }

  /** DROP NOT NULL removes every NotNull option and keeps every other one, repeats included, in order. */
  lemma DropNotNullRemovesAll(c: ColumnDef)
    ensures var r := AlterColumnDef(c, DropNotNull);
      r.name == c.name && r.dataType == c.dataType &&
      (forall o :: o in r.options <==> o in c.options && !IsNotNull(o)) &&
      (forall o :: multiset(r.options)[o] == if IsNotNull(o) then 0 else multiset(c.options)[o]) &&
      Subsequence(r.options, c.options)
  {
    forall o ensures multiset(AlterColumnDef(c, DropNotNull).options)[o] == if IsNotNull(o) then 0 else multiset(c.options)[o] {
      RetainCount(c.options, OtherThanNotNull, o);
    }
  }

  /** After SET DEFAULT v the column has exactly one Default option: v, in last position. */
  lemma SetDefaultLeavesOne(c: ColumnDef, v: SqlText)
    ensures var r := AlterColumnDef(c, SetDefault(v));
      r.name == c.name && r.dataType == c.dataType &&
      |r.options| > 0 && r.options[|r.options| - 1] == ColumnOptionDef(None, Default(v)) &&
      (forall i :: 0 <= i < |r.options| ==> (IsDefault(r.options[i]) <==> i == |r.options| - 1)) &&
      (forall o :: o in r.options[..|r.options| - 1] <==> o in c.options && !IsDefault(o)) &&
      (forall o :: multiset(r.options[..|r.options| - 1])[o] == if IsDefault(o) then 0 else multiset(c.options)[o]) &&
      Subsequence(r.options[..|r.options| - 1], c.options)
  {
    var r := AlterColumnDef(c, SetDefault(v));
    var kept := Retain(c.options, OtherThanDefault);
    assert r.options == kept + [ColumnOptionDef(None, Default(v))];
    assert r.options[..|r.options| - 1] == kept;
    NonDefaultsCount(c.options);
    forall i | 0 <= i < |r.options| - 1 ensures !IsDefault(r.options[i]) {
      assert r.options[i] in kept;
    }
  }

  /** DROP DEFAULT leaves no Default option and keeps every other one, repeats included, in order. */
  lemma DropDefaultRemovesAll(c: ColumnDef)
    ensures var r := AlterColumnDef(c, DropDefault);
      r.name == c.name && r.dataType == c.dataType &&
      (forall o :: o in r.options <==> o in c.options && !IsDefault(o)) &&
      (forall o :: multiset(r.options)[o] == if IsDefault(o) then 0 else multiset(c.options)[o]) &&
      Subsequence(r.options, c.options)
  {
    NonDefaultsCount(c.options);
  }

  /** SET DATA TYPE replaces the data type and nothing else (USING is not applied). */
  lemma SetDataTypeOnlyType(c: ColumnDef, dataType: SqlText, using: Option<SqlText>)
    ensures var r := AlterColumnDef(c, SetDataType(dataType, using));
      r.dataType == dataType && r.name == c.name && r.options == c.options
  {
  }

  /**
   * After ADD GENERATED the column has exactly one Generated option, last: unnamed, with the
   * requested kind or ALWAYS when none was given, the given sequence options, no generation
   * expression and the GENERATED keyword; the other options are kept, in order.
   */
  lemma AddGeneratedLeavesOne(c: ColumnDef, generatedAs: Option<GeneratedAs>, sequenceOptions: Option<seq<SqlText>>)
    ensures var r := AlterColumnDef(c, AddGenerated(generatedAs, sequenceOptions));
      r.name == c.name && r.dataType == c.dataType &&
      |r.options| > 0 &&
      r.options[|r.options| - 1] ==
        ColumnOptionDef(None, Generated(if generatedAs.Some? then generatedAs.value else Always, sequenceOptions, None, true)) &&
      (forall i :: 0 <= i < |r.options| ==> (IsGenerated(r.options[i]) <==> i == |r.options| - 1)) &&
      (forall o :: o in r.options[..|r.options| - 1] <==> o in c.options && !IsGenerated(o)) &&
      (forall o :: multiset(r.options[..|r.options| - 1])[o] == if IsGenerated(o) then 0 else multiset(c.options)[o]) &&
      Subsequence(r.options[..|r.options| - 1], c.options)
  {
    var op := AddGenerated(generatedAs, sequenceOptions);
    AddGeneratedUnfolds(c, op);
    GeneratedLast(c.options, GeneratedOption(generatedAs, sequenceOptions), AlterColumnDef(c, op).options);
  }

  lemma AddGeneratedUnfolds(c: ColumnDef, op: AlterColumnOperation)
    requires op.AddGenerated?
    ensures AlterColumnDef(c, op) ==
            c.(options := Retain(c.options, OtherThanGenerated) + [GeneratedOption(op.generatedAs, op.sequenceOptions)])
  {
  }

  /** The non-generated options followed by a generated one: only the last is generated. */
  lemma GeneratedLast(options: seq<ColumnOptionDef>, g: ColumnOptionDef, r: seq<ColumnOptionDef>)
    requires IsGenerated(g) && r == Retain(options, OtherThanGenerated) + [g]
    ensures |r| > 0 && r[|r| - 1] == g &&
      (forall i :: 0 <= i < |r| ==> (IsGenerated(r[i]) <==> i == |r| - 1)) &&
      (forall o :: o in r[..|r| - 1] <==> o in options && !IsGenerated(o)) &&
      (forall o :: multiset(r[..|r| - 1])[o] == if IsGenerated(o) then 0 else multiset(options)[o]) &&
      Subsequence(r[..|r| - 1], options)
  {
    var kept := Retain(options, OtherThanGenerated);
    assert r[..|r| - 1] == kept;
    NonGeneratedCount(options);
    forall i | 0 <= i < |r| - 1 ensures !IsGenerated(r[i]) {
      assert r[i] == kept[i];
      assert kept[i] in kept;
    }
  }

  // ---------------------------------------------------------------------------
  // ALTER TABLE on a CREATE TABLE statement.

  /** The operations replay understands; any other one is a `todo!()` in the source. */
  predicate SupportedTableOp(op: AlterTableOperation) {
    op.AddColumn? || op.DropColumn? || op.AlterColumn?
  }

  predicate AllSupported(ops: seq<AlterTableOperation>) {
    forall i :: 0 <= i < |ops| ==> SupportedTableOp(ops[i])
  }

  /** Applies an ALTER COLUMN operation to every column with the given name. */
  function AlterNamedColumns(columns: seq<ColumnDef>, name: Ident, op: AlterColumnOperation): seq<ColumnDef> {
    seq(|columns|, i requires 0 <= i < |columns| =>
      if columns[i].name == name then AlterColumnDef(columns[i], op) else columns[i])
  }

  function ApplyTableOp(t: CreateTable, op: AlterTableOperation): CreateTable
    requires SupportedTableOp(op)
  {
    match op
    case AddColumn(_, columnDef) => t.(columns := t.columns + [columnDef])
    case DropColumn(name, _) => t.(columns := Retain(t.columns, (c: ColumnDef) => c.name != name))
    case AlterColumn(name, columnOp) => t.(columns := AlterNamedColumns(t.columns, name, columnOp))
  }

  /** The table after applying `ops` in order. */
  function ApplyTableOps(t: CreateTable, ops: seq<AlterTableOperation>): CreateTable
    requires AllSupported(ops)
    decreases |ops|
  {
    if |ops| == 0 then t
    else ApplyTableOp(ApplyTableOps(t, ops[..|ops| - 1]), ops[|ops| - 1])
  }

  /** ADD COLUMN appends the column; the existing columns keep their order and contents. */
  lemma AddColumnAppends(t: CreateTable, ifNotExists: bool, columnDef: ColumnDef)
    ensures var r := ApplyTableOp(t, AddColumn(ifNotExists, columnDef));
      r == t.(columns := r.columns) &&
      |r.columns| == |t.columns| + 1 &&
      r.columns[..|t.columns|] == t.columns && r.columns[|t.columns|] == columnDef
  {
    var r := ApplyTableOp(t, AddColumn(ifNotExists, columnDef));
    assert r.columns[..|t.columns|] == t.columns;
  }

  /**
   * DROP COLUMN removes every column of that name and keeps every other one (a column
   * added twice stays twice), in order; dropping a name no column has changes nothing.
   */
  lemma DropColumnRemovesNamed(t: CreateTable, name: Ident, ifExists: bool)
    ensures var r := ApplyTableOp(t, DropColumn(name, ifExists));
      r == t.(columns := r.columns) &&
      (forall c :: c in r.columns <==> c in t.columns && c.name != name) &&
      (forall c :: multiset(r.columns)[c] == if c.name == name then 0 else multiset(t.columns)[c]) &&
      Subsequence(r.columns, t.columns) &&
      (name !in ColumnNameSet(t.columns) ==> r == t)
  {
    forall c ensures multiset(ApplyTableOp(t, DropColumn(name, ifExists)).columns)[c] ==
                     if c.name == name then 0 else multiset(t.columns)[c] {
      RetainCount(t.columns, (c: ColumnDef) => c.name != name, c);
    }
  }

  /** ALTER COLUMN changes only the columns with the given name, in place. */
  lemma AlterColumnOnlyNamed(t: CreateTable, name: Ident, op: AlterColumnOperation)
    ensures var r := ApplyTableOp(t, AlterColumn(name, op));
      r == t.(columns := r.columns) && |r.columns| == |t.columns| &&
      forall i :: 0 <= i < |t.columns| ==>
        r.columns[i].name == t.columns[i].name &&
        (t.columns[i].name != name ==> r.columns[i] == t.columns[i]) &&
        (t.columns[i].name == name ==> r.columns[i] == AlterColumnDef(t.columns[i], op))
  {
  }

  /** ALTER TABLE only ever touches the column list. */
  lemma {:induction false} ApplyTableOpsOnlyColumns(t: CreateTable, ops: seq<AlterTableOperation>)
    requires AllSupported(ops)
    ensures ApplyTableOps(t, ops) == t.(columns := ApplyTableOps(t, ops).columns)
    decreases |ops|
  {
    if |ops| > 0 {
      ApplyTableOpsOnlyColumns(t, ops[..|ops| - 1]);
    }
  }

  /**
   * `migrate_alter_table`: runs through the operations, mutating the column list
   * (push, retain, and an in-place pass over the matching columns).
   */
  method MigrateAlterTable(t: CreateTable, ops: seq<AlterTableOperation>) returns (r: CreateTable)
    requires AllSupported(ops)
    ensures r == ApplyTableOps(t, ops)
  {
    r := t;
    for i := 0 to |ops|
      invariant r == ApplyTableOps(t, ops[..i])
    {
      assert ops[..i + 1][..i] == ops[..i];
      match ops[i]
      case AddColumn(_, columnDef) =>
        r := r.(columns := r.columns + [columnDef]);
      case DropColumn(name, _) =>
        r := r.(columns := Retain(r.columns, (c: ColumnDef) => c.name != name));
      case AlterColumn(name, columnOp) =>
        var columns := r.columns;
        for j := 0 to |columns|
          invariant |columns| == |r.columns|
          invariant forall k :: 0 <= k < j ==>
            columns[k] == if r.columns[k].name == name then AlterColumnDef(r.columns[k], columnOp) else r.columns[k]
          invariant forall k :: j <= k < |columns| ==> columns[k] == r.columns[k]
        {
          if columns[j].name == name {
            columns := columns[j := AlterColumnDef(columns[j], columnOp)];
          }
        }
        assert columns == AlterNamedColumns(r.columns, name, columnOp);
        r := r.(columns := columns);
    }
    assert ops[..|ops|] == ops;
  }

  // ---------------------------------------------------------------------------
  // ALTER TYPE on a CREATE TYPE statement.

  /** The index of the first occurrence of `x` (`iter().enumerate().find()`). */
  function FirstIndex(labels: seq<Ident>, x: Ident): (r: Option<nat>)
    ensures r.Some? ==> r.value < |labels| && labels[r.value] == x && x !in labels[..r.value]
    ensures r.None? <==> x !in labels
  {
    if |labels| == 0 then None
    else if labels[0] == x then Some(0)
    else
      match FirstIndex(labels[1..], x)
      case None => None
      case Some(i) =>
        assert labels[..i + 1] == [labels[0]] + labels[1..][..i];
        Some(i + 1)
  }

  /** Where ADD VALUE puts the new label. */
  function AddValueIndex(labels: seq<Ident>, position: Option<AddValuePosition>): (k: nat)
    ensures k <= |labels|
  {
    match position
    case Some(Before(before)) =>
      // the beginning when `before` is not a label
      FirstIndex(labels, before).UnwrapOr(0)
    case Some(After(after)) =>
      // the end when `after` is not a label
      (match FirstIndex(labels, after)
       case Some(i) => i + 1
       case None => |labels|)
    case None => |labels|
  }

  /** RENAME of a type replaces the last part of its name (an empty name gains one part). */
  function RenameLastPart(name: ObjectName, newName: Ident): ObjectName {
    ObjectName((if |name.parts| > 0 then name.parts[..|name.parts| - 1] else []) + [newName])
  }

  function RenameLabels(labels: seq<Ident>, from: Ident, to: Ident): seq<Ident> {
    seq(|labels|, i requires 0 <= i < |labels| => if labels[i] == from then to else labels[i])
  }

  /** ADD VALUE and RENAME VALUE apply to enums only; on a composite type the source panics. */
  predicate SupportedTypeOp(representation: UserDefinedTypeRepresentation, op: AlterTypeOperation) {
    op.Rename? || representation.Enum?
  }

  function AlterTypeSpec(name: ObjectName, representation: UserDefinedTypeRepresentation, op: AlterTypeOperation)
    : (ObjectName, UserDefinedTypeRepresentation)
    requires SupportedTypeOp(representation, op)
  {
    match op
    case Rename(newName) => (RenameLastPart(name, newName), representation)
    case AddValue(value, position) =>
      var labels := representation.labels;
      var k := AddValueIndex(labels, position);
      (name, Enum(labels[..k] + [value] + labels[k..]))
    case RenameValue(from, to) => (name, Enum(RenameLabels(representation.labels, from, to)))
  }

  /**
   * `migrate_alter_type`: ADD VALUE inserts into or pushes onto the label list,
   * RENAME VALUE maps it, RENAME rebuilds the name.
   */
  method MigrateAlterType(name: ObjectName, representation: UserDefinedTypeRepresentation, op: AlterTypeOperation)
    returns (newName: ObjectName, newRepresentation: UserDefinedTypeRepresentation)
    requires SupportedTypeOp(representation, op)
    ensures (newName, newRepresentation) == AlterTypeSpec(name, representation, op)
  {
    match op
    case Rename(renamed) =>
      var parts := name.parts;
      if |parts| > 0 {
        parts := parts[..|parts| - 1];
      }
      parts := parts + [renamed];
      newName, newRepresentation := ObjectName(parts), representation;
    case AddValue(value, position) =>
      var labels := representation.labels;
      match position {
        case Some(Before(before)) =>
          var index := FirstIndex(labels, before).UnwrapOr(0);
          labels := labels[..index] + [value] + labels[index..];
        case Some(After(after)) =>
          var found := FirstIndex(labels, after);
          if found.Some? {
            var index := found.value + 1;
            labels := labels[..index] + [value] + labels[index..];
          } else {
            assert labels[..|labels|] + [value] + labels[|labels|..] == labels + [value];
            labels := labels + [value];
          }
        case None =>
          assert labels[..|labels|] + [value] + labels[|labels|..] == labels + [value];
          labels := labels + [value];
      }
      newName, newRepresentation := name, Enum(labels);
    case RenameValue(from, to) =>
      newName, newRepresentation := name, Enum(RenameLabels(representation.labels, from, to));
  }

  /**
   * ADD VALUE grows the label list by exactly one: BEFORE x inserts at x's first index
   * (0 when x is absent), AFTER x right after it (the end when absent), no position at the end.
   */
  lemma AddValueInsertsOne(labels: seq<Ident>, value: Ident, position: Option<AddValuePosition>)
    ensures var r := AlterTypeSpec(ObjectName([]), Enum(labels), AddValue(value, position)).1.labels;
      var k := AddValueIndex(labels, position);
      |r| == |labels| + 1 && r[k] == value && r[..k] == labels[..k] && r[k + 1..] == labels[k..] &&
      (position.None? ==> k == |labels|) &&
      (position.Some? && position.value.Before? ==>
        if position.value.before in labels
        then r[k + 1] == position.value.before && position.value.before !in r[..k]
        else k == 0) &&
      (position.Some? && position.value.After? ==>
        if position.value.after in labels
        then k > 0 && r[k - 1] == position.value.after && position.value.after !in r[..k - 1]
        else k == |labels|)
  {
    var r := AlterTypeSpec(ObjectName([]), Enum(labels), AddValue(value, position)).1.labels;
    var k := AddValueIndex(labels, position);
    assert r == labels[..k] + [value] + labels[k..];
    assert r[..k] == labels[..k];
    assert r[k + 1..] == labels[k..];
    if position.Some? && position.value.After? && position.value.after in labels {
      assert r[..k - 1] == labels[..k - 1];
    }
  }

  /** RENAME VALUE keeps the length and replaces every label equal to `from`, and only those. */
  lemma RenameValueReplacesAll(labels: seq<Ident>, from: Ident, to: Ident)
    ensures var r := AlterTypeSpec(ObjectName([]), Enum(labels), RenameValue(from, to)).1.labels;
      |r| == |labels| &&
      (forall i :: 0 <= i < |labels| ==> r[i] == (if labels[i] == from then to else labels[i])) &&
      (from != to ==> from !in r)
  {
  }

  /** RENAME replaces only the last part of the type's name; the labels are untouched. */
  lemma RenameReplacesLastPart(name: ObjectName, representation: UserDefinedTypeRepresentation, newName: Ident)
    ensures var (n, rep) := AlterTypeSpec(name, representation, Rename(newName));
      rep == representation &&
      |n.parts| == (if |name.parts| > 0 then |name.parts| else 1) &&
      n.parts[|n.parts| - 1] == newName &&
      n.parts[..|n.parts| - 1] == (if |name.parts| > 0 then name.parts[..|name.parts| - 1] else [])
  {
    var (n, rep) := AlterTypeSpec(name, representation, Rename(newName));
    assert n.parts[..|n.parts| - 1] == (if |name.parts| > 0 then name.parts[..|name.parts| - 1] else []);
  }

  // ---------------------------------------------------------------------------
  // One schema statement migrated by one statement of the migration.

  /** The name of the table or type a schema statement creates. */
  function CreatedName(s: Statement): ObjectName
    requires s.CreateTableStmt? || s.CreateType?
  {
    if s.CreateTableStmt? then s.table.name else s.name
  }

  /** `o` is a DROP of the object `s` creates. */
  predicate DropsObject(o: Statement, s: Statement)
    requires s.CreateTableStmt? || s.CreateType?
  {
    o.Drop? && o.objectType == (if s.CreateTableStmt? then Table else Type) && CreatedName(s) in o.names
  }

  /** `o` is an ALTER of the object `s` creates. */
  predicate AltersObject(o: Statement, s: Statement)
    requires s.CreateTableStmt? || s.CreateType?
  {
    (s.CreateTableStmt? && o.AlterTable? && o.name == s.table.name) ||
    (s.CreateType? && o.AlterType? && o.name == s.name)
  }

  /** The combinations for which the source does not reach a `todo!()` or `panic!`. */
  predicate StatementMigratable(s: Statement, o: Statement) {
    match s
    case CreateTableStmt(ca) =>
      (o.AlterTable? && (o.name == ca.name ==> AllSupported(o.operations))) || o.Drop?
    case CreateType(name, representation) =>
      (o.AlterType? && (o.name == name ==> SupportedTypeOp(representation, o.operation))) || o.Drop?
    case _ => false
  }

  /** `Migrate for Statement`: None when `o` drops the object, the altered object when it alters it. */
  function MigrateStatement(s: Statement, o: Statement): (r: Option<Statement>)
    requires StatementMigratable(s, o)
    ensures r.None? <==> DropsObject(o, s)
    ensures r.Some? ==> r.value.CreateTableStmt? == s.CreateTableStmt? && r.value.CreateType? == s.CreateType?
    ensures r.Some? ==> CreatedName(r.value) == (if s.CreateType? && AltersObject(o, s) && o.operation.Rename?
                                                 then RenameLastPart(s.name, o.operation.newName)
                                                 else CreatedName(s))
    ensures !AltersObject(o, s) && !DropsObject(o, s) ==> r == Some(s)
  {
    match s
    case CreateTableStmt(ca) =>
      if o.AlterTable? then
        if o.name == ca.name then
          ApplyTableOpsOnlyColumns(ca, o.operations);
          Some(CreateTableStmt(ApplyTableOps(ca, o.operations)))
        else Some(s)
      else if o.objectType == Table && ca.name in o.names then None
      else Some(s)
    case CreateType(name, representation) =>
      if o.AlterType? then
        if o.name == name then
          var (newName, newRepresentation) := AlterTypeSpec(name, representation, o.operation);
          Some(CreateType(newName, newRepresentation))
        else Some(s)
      else if o.objectType == Type && name in o.names then None
      else Some(s)
  }

  // ---------------------------------------------------------------------------
  // A whole schema migrated by a whole migration file.

  predicate IsSchemaStatement(s: Statement) {
    s.CreateTableStmt? || s.CreateType? || s.CreateExtension?
  }

  /** The statements of the migration that `find` accepts for an existing schema statement. */
  predicate Matches(sa: Statement, sb: Statement) {
    match sa
    case CreateTableStmt(ca) =>
      (sb.AlterTable? && sb.name == ca.name) ||
      (sb.Drop? && sb.objectType == Table && |sb.names| == 1 && sb.names[0] == ca.name)
    case CreateType(name, _) =>
      (sb.AlterType? && sb.name == name) ||
      (sb.Drop? && sb.objectType == Type && |sb.names| == 1 && sb.names[0] == name)
    case CreateExtension(name, _) => sb.DropExtension? && name in sb.extensions
    case _ => false
  }

  /** The first statement of `other` that matches `sa`. */
  function FindMatch(sa: Statement, other: seq<Statement>): (r: Option<Statement>)
    ensures r.Some? ==> exists i :: 0 <= i < |other| && other[i] == r.value && Matches(sa, r.value) &&
                                    forall j :: 0 <= j < i ==> !Matches(sa, other[j])
    ensures r.None? <==> forall i :: 0 <= i < |other| ==> !Matches(sa, other[i])
  {
    if |other| == 0 then None
    else if Matches(sa, other[0]) then Some(other[0])
    else
      var r := FindMatch(sa, other[1..]);
      if r.Some? then
        ghost var i :| 0 <= i < |other[1..]| && other[1..][i] == r.value && Matches(sa, r.value) &&
                       forall j :: 0 <= j < i ==> !Matches(sa, other[1..][j]);
        assert other[i + 1] == r.value;
        r
      else
        r
  }

  /**
   * The source reaches no `todo!()`: every existing statement is a CREATE TABLE, TYPE or
   * EXTENSION, and the statement matched to it can be applied (an extension is never dropped,
   * ALTER TABLE uses only the supported operations, ALTER TYPE on a composite only renames).
   */
  predicate CanMigrate(sa: Statement, other: seq<Statement>) {
    IsSchemaStatement(sa) &&
    (FindMatch(sa, other).Some? ==> StatementMigratable(sa, FindMatch(sa, other).value))
  }

  predicate SchemaMigratable(schema: seq<Statement>, other: seq<Statement>) {
    forall i :: 0 <= i < |schema| ==> CanMigrate(schema[i], other)
  }

  /** One existing statement after the migration: the first matching ALTER/DROP applied, if any. */
  function MigrateOne(sa: Statement, other: seq<Statement>): Option<Statement>
    requires CanMigrate(sa, other)
  {
    match FindMatch(sa, other)
    case None => Some(sa)
    case Some(sb) => MigrateStatement(sa, sb)
  }

  /** The existing statements after the migration, in their original order, dropped ones left out. */
  function MigrateExisting(schema: seq<Statement>, other: seq<Statement>): seq<Statement>
    requires SchemaMigratable(schema, other)
    decreases |schema|
  {
    if |schema| == 0 then []
    else
      var rest := MigrateExisting(schema[1..], other);
      match MigrateOne(schema[0], other)
      case None => rest
      case Some(s) => [s] + rest
  }

  /** The new objects a migration creates, in the migration's order. */
  function NewObjects(other: seq<Statement>): seq<Statement> {
    Retain(other, IsSchemaStatement)
  }

  /** `Migrate for Vec<Statement>`: the replayed schema after one migration file. */
  function Migrate(schema: seq<Statement>, other: seq<Statement>): (r: Option<seq<Statement>>)
    requires SchemaMigratable(schema, other)
    ensures r.Some?
  {
    Some(MigrateExisting(schema, other) + NewObjects(other))
  }

  // ---------------------------------------------------------------------------
  // Properties of the replay.

  /** The existing part is computed statement by statement: it distributes over concatenation. */
  lemma {:induction false} MigrateExistingAppend(a: seq<Statement>, b: seq<Statement>, other: seq<Statement>)
    requires SchemaMigratable(a, other) && SchemaMigratable(b, other)
    ensures SchemaMigratable(a + b, other)
    ensures MigrateExisting(a + b, other) == MigrateExisting(a, other) + MigrateExisting(b, other)
    decreases |a|
  {
    MigratableAppend(a, b, other);
    if |a| > 0 {
      MigratableTail(a, other);
      assert (a + b)[0] == a[0] && (a + b)[1..] == a[1..] + b;
      MigrateExistingAppend(a[1..], b, other);
    } else {
      assert a + b == b;
    }
  }

  lemma MigratableAppend(a: seq<Statement>, b: seq<Statement>, other: seq<Statement>)
    requires SchemaMigratable(a, other) && SchemaMigratable(b, other)
    ensures SchemaMigratable(a + b, other)
  {
    forall i | 0 <= i < |a + b| ensures CanMigrate((a + b)[i], other) {
      if i < |a| {
        assert (a + b)[i] == a[i];
      } else {
        assert (a + b)[i] == b[i - |a|];
      }
    }
  }

  lemma MigratableTail(a: seq<Statement>, other: seq<Statement>)
    requires SchemaMigratable(a, other) && |a| > 0
    ensures SchemaMigratable(a[1..], other)
  {
    forall i | 0 <= i < |a[1..]| ensures CanMigrate(a[1..][i], other) {
      assert a[1..][i] == a[i + 1];
    }
  }

  /**
   * A migrated schema is the existing statements (each as MigrateOne leaves it, in order)
   * followed by every CREATE TABLE/TYPE/EXTENSION of the migration, in order.
   */
  lemma {:induction false} MigrateMembers(schema: seq<Statement>, other: seq<Statement>, x: Statement)
    requires SchemaMigratable(schema, other)
    ensures x in Migrate(schema, other).value <==>
      (exists i :: 0 <= i < |schema| && MigrateOne(schema[i], other) == Some(x)) ||
      (x in other && IsSchemaStatement(x))
  {
    ExistingMembers(schema, other, x);
  }

  lemma {:induction false} ExistingMembers(schema: seq<Statement>, other: seq<Statement>, x: Statement)
    requires SchemaMigratable(schema, other)
    ensures x in MigrateExisting(schema, other) <==>
      exists i :: 0 <= i < |schema| && MigrateOne(schema[i], other) == Some(x)
    decreases |schema|
  {
    if |schema| > 0 {
      var tail := schema[1..];
      assert SchemaMigratable(tail, other) by {
        forall i | 0 <= i < |tail| ensures CanMigrate(tail[i], other) {
          assert tail[i] == schema[i + 1];
        }
      }
      ExistingMembers(tail, other, x);
      SomeStatementSplits(schema, other, x);
    }
  }

  /** Some statement of a non-empty schema migrates to `x` exactly when its head or a later one does. */
  lemma SomeStatementSplits(schema: seq<Statement>, other: seq<Statement>, x: Statement)
    requires SchemaMigratable(schema, other) && |schema| > 0
    ensures (exists i :: 0 <= i < |schema| && MigrateOne(schema[i], other) == Some(x)) <==>
      MigrateOne(schema[0], other) == Some(x) ||
      exists i :: 0 <= i < |schema[1..]| && MigrateOne(schema[1..][i], other) == Some(x)
  {
    var tail := schema[1..];
    var ys := seq(|schema|, i requires 0 <= i < |schema| => MigrateOne(schema[i], other));
    SomeSplits(ys, Some(x));
    forall i | 0 <= i < |tail| ensures ys[1..][i] == MigrateOne(tail[i], other) {
      assert tail[i] == schema[i + 1];
    }
  }

  /** An existing statement that nothing in the migration matches survives unchanged. */
  lemma UntouchedSurvives(sa: Statement, other: seq<Statement>)
    requires IsSchemaStatement(sa)
    requires forall i :: 0 <= i < |other| ==> !Matches(sa, other[i])
    ensures CanMigrate(sa, other) && MigrateOne(sa, other) == Some(sa)
  {
  }

  /** A table whose first matching statement is `DROP TABLE` of it is removed. */
  lemma DroppedTableRemoved(sa: Statement, other: seq<Statement>)
    requires sa.CreateTableStmt?
    requires FindMatch(sa, other).Some? && FindMatch(sa, other).value.Drop?
    ensures CanMigrate(sa, other) && MigrateOne(sa, other).None?
  {
  }

  /** A table whose first matching statement is an ALTER TABLE gets exactly that statement's operations. */
  lemma AlteredTableUpdated(sa: Statement, other: seq<Statement>)
    requires sa.CreateTableStmt? && CanMigrate(sa, other)
    requires FindMatch(sa, other).Some? && FindMatch(sa, other).value.AlterTable?
    ensures AllSupported(FindMatch(sa, other).value.operations)
    ensures MigrateOne(sa, other) == Some(CreateTableStmt(ApplyTableOps(sa.table, FindMatch(sa, other).value.operations)))
  {
  }

  /** The new objects come last, in the migration's own order, each as often as the migration has it. */
  lemma NewObjectsLast(schema: seq<Statement>, other: seq<Statement>)
    requires SchemaMigratable(schema, other)
    ensures var r := Migrate(schema, other).value;
      |r| >= |NewObjects(other)| &&
      r[|r| - |NewObjects(other)|..] == NewObjects(other) &&
      Subsequence(NewObjects(other), other) &&
      (forall s :: s in NewObjects(other) <==> s in other && IsSchemaStatement(s)) &&
      forall s :: multiset(NewObjects(other))[s] == if IsSchemaStatement(s) then multiset(other)[s] else 0
  {
    var r := Migrate(schema, other).value;
    assert r[|r| - |NewObjects(other)|..] == NewObjects(other);
    forall s ensures multiset(NewObjects(other))[s] == if IsSchemaStatement(s) then multiset(other)[s] else 0 {
      RetainCount(other, IsSchemaStatement, s);
    }
  }
}
