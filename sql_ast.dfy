/**
 * The part of the SQL syntax tree that migration replay, schema diffing and name
 * generation read. Identifiers are plain strings; expressions, data types and
 * anything else the code only copies are opaque text.
 */
module SqlAst {
  import opened Wrappers
  import Text

  type Ident = string

  /** Text the model never looks into: a data type, an expression, a sequence option. */
  type SqlText = string

  /** A possibly qualified name such as `public.users`. */
  datatype ObjectName = ObjectName(parts: seq<Ident>) {
    /** How the name prints: its parts joined by dots. */
    function Display(): string {
      Text.Join(parts, ".")
    }
  }

  datatype GeneratedAs = Always | ByDefault | ExpStored

  datatype ColumnOption =
    | NotNull
    | Default(expr: SqlText)
    | Generated(generatedAs: GeneratedAs, sequenceOptions: Option<seq<SqlText>>,
                generationExpr: Option<SqlText>, generatedKeyword: bool)
    | OtherOption(text: SqlText)

  datatype ColumnOptionDef = ColumnOptionDef(name: Option<Ident>, option: ColumnOption)

  datatype ColumnDef = ColumnDef(name: Ident, dataType: SqlText, options: seq<ColumnOptionDef>)

  /** The body of a CREATE TABLE statement; `constraints` stands for every other clause. */
  datatype CreateTable = CreateTable(
    name: ObjectName,
    columns: seq<ColumnDef>,
    ifNotExists: bool,
    onCluster: Option<Ident>,
    constraints: seq<SqlText>)

  datatype AlterColumnOperation =
    | SetNotNull
    | DropNotNull
    | SetDefault(value: SqlText)
    | DropDefault
    | SetDataType(dataType: SqlText, using: Option<SqlText>)
    | AddGenerated(generatedAs: Option<GeneratedAs>, sequenceOptions: Option<seq<SqlText>>)

  datatype AlterTableOperation =
    | AddColumn(ifNotExists: bool, columnDef: ColumnDef)
    | DropColumn(columnName: Ident, ifExists: bool)
    | AlterColumn(columnName: Ident, op: AlterColumnOperation)
    | RenameColumn(oldColumnName: Ident, newColumnName: Ident)
    | RenameTable(tableName: ObjectName)
    | OtherTableOperation(text: SqlText)

  datatype UserDefinedTypeRepresentation =
    | Enum(labels: seq<Ident>)
    | Composite(attributes: seq<SqlText>)

  datatype AddValuePosition = Before(before: Ident) | After(after: Ident)

  datatype AlterTypeOperation =
    | Rename(newName: Ident)
    | AddValue(value: Ident, position: Option<AddValuePosition>)
    | RenameValue(from: Ident, to: Ident)

  datatype ObjectType =
    | Table | View | MaterializedView | Index | Schema | Database | Role | Sequence | Stage | Type
  {
    /** The SQL keyword, as the syntax tree prints it. */
    function Keyword(): string {
      match this
      case Table => "TABLE"
      case View => "VIEW"
      case MaterializedView => "MATERIALIZED VIEW"
      case Index => "INDEX"
      case Schema => "SCHEMA"
      case Database => "DATABASE"
      case Role => "ROLE"
      case Sequence => "SEQUENCE"
      case Stage => "STAGE"
      case Type => "TYPE"
    }
  }

  datatype Statement =
    | CreateTableStmt(table: CreateTable)
    | AlterTable(name: ObjectName, ifExists: bool, only: bool,
                 operations: seq<AlterTableOperation>, onCluster: Option<Ident>)
    | Drop(objectType: ObjectType, ifExists: bool, names: seq<ObjectName>,
           cascade: bool, restrict: bool, purge: bool, temporary: bool)
    | CreateType(name: ObjectName, representation: UserDefinedTypeRepresentation)
    | AlterType(name: ObjectName, operation: AlterTypeOperation)
    | CreateExtension(extension: Ident, ifNotExists: bool)
    | DropExtension(extensions: seq<Ident>, ifExists: bool)
    | CreateIndex(indexName: Option<ObjectName>, tableName: ObjectName)
    | OtherStatement(text: SqlText)

  /** The set of column names of a table, as the diff collects them into a hash set. */
  function ColumnNameSet(columns: seq<ColumnDef>): set<Ident> {
    set c | c in columns :: c.name
  }
}
