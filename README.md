# sql-schema core, modelled in Dafny

sql-schema keeps a declarative SQL schema file and a directory of migration files in
step. Its core has four parts, and each is modelled here:

- **Replaying migrations** (`src/migration.rs`). The schema is rebuilt by applying
  each migration file to the statements read so far. `CREATE TABLE`, `CREATE TYPE` and
  `CREATE EXTENSION` statements are altered or dropped by the first statement of the
  migration that names them; new objects are appended. `ALTER TABLE` adds, drops and
  alters columns. `ALTER TYPE` renames a type, and adds or renames enum labels.
- **Diffing schemas** (`src/diff.rs`). Two lists of `CREATE TABLE` statements are
  compared. The result has a `DROP TABLE` for each table that disappears, an
  `ALTER TABLE` (dropping and adding columns) for each table that changed, and the
  `CREATE TABLE` of each new table. It is `None` when nothing changed.
- **Naming migrations** (`src/name_gen.rs`). A file name is derived from a migration's
  statements: one part per statement, joined by `__`. Parts are dropped from the end
  until the name fits the length limit (50 bytes by default), and then `__etc` is
  appended.
- **Migration path templates** (`src/path_template.rs`). A migration's file path, such
  as `20230101_initial_setup.up.sql` or `017/up.sql`, is parsed into a template of
  tokens: prefix, padded counter, date-time, epoch timestamp, semantic version, random
  number, separators, name, up/down marker and extension. The template is then resolved
  against new data to produce the next migration's path.

Modules:

- `Wrappers`, `Seqs` and `Text` hold the `Option` type, `filter`-like retention and
  string helpers: joining, decimal printing, zero padding, digit values and UTF-8 length.
- `SqlAst` is the part of the SQL syntax tree that the core reads.
- `Migration`, `Diff` and `Reconcile` model replaying and diffing. `Reconcile` proves
  that replaying the diff of A against B onto A gives B's tables, each with B's column
  names.
- `NameGen` models `generate_name` and `alter_table_name`. Both are loops in the
  source, so both are methods, proved equal to specification functions.
- `PathAst`, `PathParser`, `PathResolver`, `PathRoundTrip`, `PathReadBack`,
  `PathChanges` and `DirectoryExample` model the path templates: the token types, the
  parser, the resolver, and the round trip that the repository's own tests check.

The date library is not modelled. A timestamp token is mapped to an instant by a
`toInstant` function passed as a parameter. `Denotes` states what the token's text says
about that instant.

## Model

| member | source | states |
|---|---|---|
| Migration.SetNotNullAppends | src/migration.rs:150-155 | SET NOT NULL keeps the existing options in order and appends one unnamed NOT NULL option; name and type are unchanged |
| Migration.DropNotNullRemovesAll | src/migration.rs:156-159 | DROP NOT NULL leaves exactly the non-NOT-NULL options, each as often as before, in their original order |
| Migration.SetDefaultLeavesOne | src/migration.rs:160-167 | after SET DEFAULT the new default is the last option and the only default; the other options are the old non-default ones, each as often as before, in order |
| Migration.DropDefaultRemovesAll | src/migration.rs:168-171 | DROP DEFAULT leaves exactly the non-default options, each as often as before, in order |
| Migration.SetDataTypeOnlyType | src/migration.rs:172-177 | SET DATA TYPE replaces the type and nothing else |
| Migration.AddGeneratedLeavesOne | src/migration.rs:178-196 | ADD GENERATED leaves one generated option, last: unnamed, with the given kind or ALWAYS when none is given, the given sequence options, no generation expression and the GENERATED keyword; the other options are the old non-generated ones, each as often as before, in order |
| Migration.AddColumnAppends | src/migration.rs:138-140 | ADD COLUMN appends the column after the existing ones; the rest of the table is unchanged |
| Migration.DropColumnRemovesNamed | src/migration.rs:141-143 | DROP COLUMN keeps exactly the columns with another name, a column added twice still twice, in order; dropping a missing column changes nothing |
| Migration.AlterColumnOnlyNamed | src/migration.rs:144-199 | ALTER COLUMN changes only the columns with that name, keeps every column's name and the column count |
| Migration.ApplyTableOpsOnlyColumns | src/migration.rs:135-205 | a sequence of supported ALTER TABLE operations changes only the table's columns |
| Migration.MigrateAlterTable | src/migration.rs:135-205 | the loop over operations computes the specification `ApplyTableOps` |
| Migration.AddValueIndex | src/migration.rs:221-254 | the insertion index never exceeds the label count |
| Migration.MigrateAlterType | src/migration.rs:207-269 | the method computes the specification `AlterTypeSpec` (new name, new representation) |
| Migration.AddValueInsertsOne | src/migration.rs:221-254 | ADD VALUE inserts exactly one label; BEFORE x puts it just before the first x, AFTER x just after the first x; a missing x means the start (BEFORE) or the end (AFTER); no position means the end |
| Migration.RenameValueReplacesAll | src/migration.rs:255-267 | RENAME VALUE replaces every occurrence of the old label and nothing else; the old label is gone when the names differ |
| Migration.RenameReplacesLastPart | src/migration.rs:213-220 | RENAME TO replaces the last part of the type's name and keeps the representation |
| Migration.MigrateStatement | src/migration.rs:69-133 | the result is None exactly when the statement drops the object; otherwise it is an object of the same kind, renamed only by a type rename, and unchanged when the statement neither alters nor drops it |
| Migration.FindMatch | src/migration.rs:19-53 | returns the first statement of the migration that alters or drops the object, and None exactly when there is none |
| Migration.Migrate | src/migration.rs:11-67 | replaying a migration always succeeds |
| Migration.MigrateMembers | src/migration.rs:11-67 | a statement is in the result exactly when it is the migrated form of an existing one or a new schema statement of the migration |
| Migration.ExistingMembers | src/migration.rs:13-56 | the existing part of the result holds exactly the migrated forms that are not None |
| Migration.MigrateExistingAppend | src/migration.rs:13-56 | replaying is done statement by statement: it distributes over concatenation of the schema |
| Migration.UntouchedSurvives | src/migration.rs:32 | an object that no statement of the migration matches survives unchanged |
| Migration.DroppedTableRemoved | src/migration.rs:83-92 | a table whose first match is a DROP is removed |
| Migration.AlteredTableUpdated | src/migration.rs:72-82 | a table whose first match is an ALTER TABLE becomes the table with those operations applied |
| Migration.NewObjectsLast | src/migration.rs:58-63 | the new CREATE statements of the migration come last, in their order, and are exactly its schema statements, each as often as the migration has it |
| Diff.CompareCreateTable | src/diff.rs:73-119 | None exactly when the two tables are equal; otherwise an ALTER TABLE of the old table's name, with the old table's IF NOT EXISTS as IF EXISTS and its ON CLUSTER |
| Diff.DropOpsMeaning | src/diff.rs:81-95 | each drop names a column only the old table has, and every such column is dropped |
| Diff.DropOpsInOrder | src/diff.rs:81-95 | the dropped names, read in order, are the old table's column names the new table lacks, in the old table's order, each as often as it occurs there |
| Diff.AddOpsMeaning | src/diff.rs:96-108 | each add carries a column only the new table has, and every such column is added |
| Diff.AddOpsInOrder | src/diff.rs:96-108 | the added columns, read in order, are the new table's columns whose names the old table lacks, in the new table's order, each as often as it occurs there |
| Diff.CompareOps | src/diff.rs:81-118 | all drops come before all adds, with the meanings above |
| Diff.CompareOpsInOrder | src/diff.rs:81-118 | within the whole operation list, the drops follow the old table's column order and the adds the new table's, one per column |
| Diff.SameColumnNamesNoOps | src/diff.rs:78-109 | tables that differ but have the same column names give an ALTER TABLE with no operations |
| Diff.FindTable | src/diff.rs:16-21 | finds the first CREATE TABLE with the name, and None exactly when there is none |
| Diff.DiffSchemas | src/diff.rs:10-58 | a result that is not None holds at least one statement |
| Diff.DiffExistingMembers | src/diff.rs:11-38 | the statements for existing tables are exactly the per-table results that are not None |
| Diff.DiffExistingKinds | src/diff.rs:16-36 | those statements are DROP TABLE or ALTER TABLE, each about a table of the old schema |
| Diff.DroppedWhenMissing | src/diff.rs:22-34 | a table the new schema lacks is dropped |
| Diff.CreatedWhenNew | src/diff.rs:40-50 | a table the old schema lacks is created, verbatim |
| Diff.AddedInOrder | src/diff.rs:40-50 | the created tables are the new schema's tables without a namesake in the old one, in the new schema's order, each as often as it occurs there |
| Diff.CreatedLast | src/diff.rs:11-51 | the diff is the DROP and ALTER statements for the old schema's tables followed by the created tables, which form its tail |
| Diff.DiffNoneIff | src/diff.rs:53-57 | the diff is None exactly when every old table is found unchanged and every new table is found in the old schema |
| Diff.DiffSelfNone | src/diff.rs:53-57 | a schema with unique table names diffs to None against itself |
| Diff.DiffMirror | src/diff.rs:22-50 | a table created by diff(A, B) is exactly a table dropped by diff(B, A) |
| Reconcile.ApplyTableOpsAppend | src/migration.rs:135-205 | applying two operation lists in a row is applying their concatenation |
| Reconcile.ApplyDrops | src/migration.rs:141-143 | a run of drops keeps exactly the columns whose name is not dropped |
| Reconcile.ApplyAdds | src/migration.rs:138-140 | a run of adds gives the old columns plus the added ones |
| Reconcile.DropsNameMissing | src/diff.rs:81-95 | the drops of the diff name exactly the old-only columns |
| Reconcile.AddsCarryMissing | src/diff.rs:96-108 | the adds of the diff carry exactly the new-only columns |
| Reconcile.TableReconciled | src/diff.rs:73-119 | applying the ALTER TABLE of two different tables to the old one gives the old table's shared columns plus the new-only columns |
| Reconcile.ColumnNamesOfReconciled | src/diff.rs:73-119 | such a table has exactly the new table's column names |
| Reconcile.DiffMatchesOnlyOwn | src/diff.rs:10-58 | with unique names, the only statement of the diff that replaying matches to an old table is that table's own |
| Reconcile.FirstMatchIsOwn | src/migration.rs:19-32 | replaying finds, for each old table, exactly its own diff statement |
| Reconcile.MigrateOneAfterDiff | src/migration.rs:19-32 | after the diff, an old table missing from B is dropped, and one present in B becomes a table with B's column names |
| Reconcile.SchemaReconciled | src/diff.rs:10-58 | replaying diff(A, B) onto A gives tables with exactly B's table names, each with B's column names |
| Reconcile.ReconciledCovers | src/migration.rs:11-67 | every table name of B is in the replayed schema |
| Reconcile.NoDiffSameTables | src/diff.rs:53-57 | when diff(A, B) is None, A and B hold the same statements |
| NameGen.OpDescription | src/name_gen.rs:71-91 | only unrecognised operations are left out, and every description is non-empty |
| NameGen.AlterTablePart | src/name_gen.rs:94-98 | the part starts with verb_table, and descriptions follow exactly when there are one or two of them |
| NameGen.AlterTableName | src/name_gen.rs:67-99 | the method's loop computes the specification part and always returns Some |
| NameGen.RenameVerbIff | src/name_gen.rs:86-88 | the part starts with "rename_" exactly when an operation renames the table, and "alter_" otherwise |
| NameGen.StatementPart | src/name_gen.rs:16-44 | None exactly for extensions and unrecognised statements; parts are never empty |
| NameGen.Parts | src/name_gen.rs:13-45 | at most one part per statement, none empty, and no parts exactly when no statement is recognised |
| NameGen.KeptFrom | src/name_gen.rs:47-54 | the kept parts fit the limit, and one part more would not |
| NameGen.KeptIsLongestFit | src/name_gen.rs:50-54 | no longer prefix of the parts fits |
| NameGen.GenerateName | src/name_gen.rs:9-65 | the truncating loop computes the specification `GeneratedName` |
| NameGen.FittingNameUnchanged | src/name_gen.rs:48-64 | a name that fits is the parts joined by "__", and None when there are no parts |
| NameGen.TruncatedShape | src/name_gen.rs:50-58 | a name that does not fit is a proper prefix of the parts, joined, followed by "__etc" |
| NameGen.TruncatedLength | src/name_gen.rs:50-58 | a truncated name is at most five bytes over the limit |
| NameGen.TruncatedKeepsLongestFit | src/name_gen.rs:50-58 | a truncated name keeps the longest prefix of the parts that fits |
| NameGen.TruncatedName | src/name_gen.rs:47-64 | a name that does not fit is Some(prefix + "__etc") |
| NameGen.NameNoneIffNoParts | src/name_gen.rs:60-64 | the name is None exactly when there are no parts |
| NameGen.NameIffRecognised | src/name_gen.rs:13-64 | the name is None exactly when no statement is recognised |
| NameGen.SingleStatementName | src/name_gen.rs:9-65 | one recognised statement whose part fits gives that part as the name |
| NameGen.ExampleTwoTables | src/name_gen.rs:129-130 | two CREATE TABLEs give "create_foo__create_bar" |
| NameGen.ExampleTruncated | src/name_gen.rs:133-134 | four tables give "create_foo__create_bar__create_baz__etc" |
| NameGen.ExampleAlterDropColumn | src/name_gen.rs:137-138 | dropping column bar of foo gives "alter_foo_drop_bar" |
| NameGen.ExampleRenameTable | src/name_gen.rs:153-154 | renaming foo to bar gives "rename_foo_to_bar" |
| NameGen.ExampleDropType | src/name_gen.rs:165-166 | DROP TYPE status gives "drop_type_status" |
| NameGen.ExampleCreateIndex | src/name_gen.rs:169-170 | CREATE INDEX title_idx ON films gives "create_films_title_idx" |
| PathAst.DirectionOf | src/path_template.rs:649-656 | do maps to up, and undo to down |
| PathAst.UpDownFromStr | src/path_template.rs:637-647 | reads exactly "up" and "down" |
| PathAst.DoUndoFromStr | src/path_template.rs:664-674 | reads exactly "do" and "undo" |
| PathAst.PaddedNumberFromStr | src/path_template.rs:620-629 | the width is the text's length; every digit string within usize is accepted |
| PathAst.PaddedNumberRoundTrip | src/path_template.rs:620-629 | a digit string read as a padded number prints back to itself |
| PathAst.SemverFromStr | src/path_template.rs:705-729 | accepts only three dot-separated u32 parts |
| PathAst.SemverParsePrint | src/path_template.rs:694-729 | a parsed version prints back to the text it was read from, leading zeros included |
| PathAst.SemverPrintParse | src/path_template.rs:694-729 | three digit strings within u32, joined by dots, parse to their values and widths |
| PathAst.IncrementMinor | src/path_template.rs:684-692 | the minor version goes up by one, wrapping at u32; the major is kept and the patch reset |
| PathAst.WithUpDown | src/path_template.rs:525-539 | the method computes `WithUpDownSpec`; only the last segment changes |
| PathAst.WithUpDownShape | src/path_template.rs:525-539 | the last token is kept last; the segment is unchanged when a marker already stands before it, and otherwise ". up" is inserted there |
| PathAst.WithUpDownIncludes | src/path_template.rs:516-539 | after `with_up_down` the template includes a marker |
| PathAst.WithUpDownIdempotent | src/path_template.rs:525-539 | applying `with_up_down` twice is applying it once |
| PathAst.WithUpDownKeepsMarked | src/path_template.rs:525-539 | a template already marked is unchanged |
| PathAst.DefaultTemplateMarked | src/path_template.rs:546-562 | the default template includes a marker and is unchanged by `with_up_down` |
| PathParser.Digit1 | src/path_template.rs:81-94 | reads the longest run of digits, and fails exactly when the input does not start with one |
| PathParser.DigitN | src/path_template.rs:60-62 | reads exactly n digits, and fails exactly when there are not n digits |
| PathParser.Sep | src/path_template.rs:64-78 | reads one ".", "_" or "-", and the token prints back as it |
| PathParser.OptSep | src/path_template.rs:174-176 | an optional separator prints back as what was read |
| PathParser.Seps | src/path_template.rs:64-78 | a run of separators prints back as what was read, and stops before the next non-separator |
| PathParser.PaddedNumberToken | src/path_template.rs:80-86 | a padded number prints back as what was read |
| PathParser.RandomNumberToken | src/path_template.rs:88-94 | the random number is the value of the leading digits, within usize |
| PathParser.ThreeDigitRuns | src/path_template.rs:96-103 | reads three digit runs separated by dots |
| PathParser.SemverToken | src/path_template.rs:96-103 | a version token prints back as what was read |
| PathParser.Year | src/path_template.rs:111-116 | accepts exactly "20" and two digits, a year in 2000..2099 printed back as read |
| PathParser.Month | src/path_template.rs:118-123 | accepts 01..12 and prints back as read |
| PathParser.Day | src/path_template.rs:125-130 | accepts 01..31 and prints back as read |
| PathParser.Hour | src/path_template.rs:132-137 | accepts 01..12 (the source's range) and prints back as read |
| PathParser.Minute | src/path_template.rs:139-144 | accepts 00..59 and prints back as read |
| PathParser.SecondField | src/path_template.rs:146-151 | accepts 00..59 and prints back as read |
| PathParser.SubMilli | src/path_template.rs:153-158 | reads one to three digits as milliseconds |
| PathParser.SubMicro | src/path_template.rs:160-165 | reads six digits as microseconds |
| PathParser.SubNano | src/path_template.rs:167-172 | reads nine digits as nanoseconds |
| PathParser.SubSecondField | src/path_template.rs:178-218 | a sub-second value is under one second in its own unit (at most 999 milliseconds, 999999 microseconds or 999999999 nanoseconds), and the nine-digit reading wins over the six-digit one, which wins over one to three digits |
| PathParser.TimeField | src/path_template.rs:178-218 | every accepted time is in the validated ranges |
| PathParser.DateField | src/path_template.rs:220-253 | every accepted date is in the validated ranges |
| PathParser.DateTimeToken | src/path_template.rs:220-253 | a date-time token is a calendar timestamp with date and time in range |
| PathParser.DateTimeReadsBack | src/path_template.rs:220-253 | a date-time without sub-seconds prints back as what was read |
| PathParser.DateReadsBack | src/path_template.rs:220-253 | a date prints back as what was read |
| PathParser.TimeReadsBack | src/path_template.rs:178-218 | a time without sub-seconds prints back as what was read |
| PathParser.EpochDigits | src/path_template.rs:271-320 | the leading digits as an i64 value |
| PathParser.EpochTimestampToken | src/path_template.rs:271-320 | the unit chosen is nanoseconds, microseconds, milliseconds or seconds exactly when the value in that unit is between 2000-01-01 and the end of 2100-01-01 |
| PathParser.EpochAccepted | src/path_template.rs:255-320 | digits are accepted as an epoch exactly when some unit puts them in range |
| PathParser.EpochUnitsDisjoint | src/path_template.rs:255-320 | no value is in range in two units, so the unit is determined by the value |
| PathParser.NameToken | src/path_template.rs:322-330 | a name is everything up to the first ".", non-empty, and fails exactly when there is no "." or it comes first |
| PathParser.UpDownToken | src/path_template.rs:332-345 | a marker prints back as what was read |
| PathParser.PrefixToken | src/path_template.rs:347-360 | a prefix is any number of z or Z followed by v or V, printed back as read |
| PathParser.OptPrefix | src/path_template.rs:401-401 | an optional prefix prints back as what was read |
| PathParser.LeadingNumber | src/path_template.rs:362-397 | the leading number is a timestamp, a version or a padded number |
| PathParser.NumberTokens | src/path_template.rs:362-397 | a number yields at least one token and never a marker |
| PathParser.TrailingNumber | src/path_template.rs:362-397 | the leading token stays first, and no marker is read |
| PathParser.DirIdent | src/path_template.rs:399-422 | a directory segment carries no marker |
| PathParser.FileExt | src/path_template.rs:424-430 | reads exactly ".sql" |
| PathParser.FileNonIdent | src/path_template.rs:432-439 | a bare marker file is a marker and the extension |
| PathParser.FileIdent | src/path_template.rs:441-473 | a file segment has its marker, if any, just before the extension |
| PathParser.OptMarker | src/path_template.rs:446-446 | reads nothing, or a dot and a marker |
| PathParser.PathSep | src/path_template.rs:475-477 | consumes one "/" or "\" |
| PathParser.DirThenMarker | src/path_template.rs:481-481 | the directory alternative gives two segments in the parsed shape |
| PathParser.Parse | src/path_template.rs:487-495 | every parsed template has the shape the parser builds |
| PathResolver.ResolvePadded | src/path_template.rs:939-944 | the counter is printed zero-padded to at least the width, with the next counter as its value |
| PathResolver.ResolveUpDown | src/path_template.rs:1038-1047 | empty exactly when there is no direction; otherwise the text reads back as the direction |
| PathResolver.ResolveDoUndo | src/path_template.rs:1049-1058 | empty exactly when there is no direction; otherwise do/undo for that direction |
| PathResolver.SingleSegmentResolve | src/path_template.rs:884-891 | for one segment, the resolver as written and the corrected one agree |
| PathResolver.TimestampResolvesToText | src/path_template.rs:957-1036 | a timestamp resolved with the instant it denotes prints its own text |
| PathResolver.TokenResolvesToText | src/path_template.rs:914-937 | a token resolved with data that agrees with it prints its own text |
| PathResolver.TemplateResolvesToText | src/path_template.rs:893-912 | a template resolved with agreeing data prints its own path |
| PathResolver.WithUpDownInvisible | src/path_template.rs:900-905 | without a direction in the data, the marker that `with_up_down` adds, and its dot, print nothing |
| PathRoundTrip.CollectAgrees | src/path_template.rs:1068-1093 | the data read from a template's tokens agrees with every token, when each part occurs once |
| PathRoundTrip.OwnDataAgrees | src/path_template.rs:1068-1093 | a template's own data agrees with each of its tokens |
| PathRoundTrip.ResolveOwnData | src/path_template.rs:1159-1161 | a parsed template, marked and resolved with its own data, prints each segment's text |
| PathRoundTrip.ResolveDropsSeparator | src/path_template.rs:884-891 | as written, a two-segment template resolves to its segments' texts run together, which is not its path |
| PathRoundTrip.ParseResolveRoundTrip | src/path_template.rs:1156-1165 | every parsed path, marked and resolved with its own data, prints the parsed template's text |
| PathReadBack.DigitsReadBack | src/path_template.rs:88-94 | digits printed back as a number are no longer than the input, and equal to it when as long |
| PathReadBack.DirIdentReadsBack | src/path_template.rs:399-422 | a directory segment reads back as its input, up to lost leading zeros |
| PathReadBack.FileIdentReadsBack | src/path_template.rs:441-473 | a file segment reads back as its input, up to lost leading zeros |
| PathReadBack.FileNonIdentExact | src/path_template.rs:432-439 | a bare marker file reads back exactly |
| PathReadBack.ParseReadsBack | src/path_template.rs:487-495 | a parsed template's text is no longer than the input, and is the input when as long and written with "/" |
| PathReadBack.ParseResolveGivesPath | src/path_template.rs:1156-1165 | with the corrected resolver, a parsed path marked and resolved with its own data is the input path |
| DirectoryExample.DirectoryPathResolves | src/path_template.rs:884-891 | "017/up.sql" parses into a directory and a marker file; as written it resolves to "017up.sql", corrected to "017/up.sql" |
| PathChanges.OnePieceDiffers | src/path_template.rs:1192-1199 | data that changes one token's printed text changes the resolved path |
| PathChanges.NameChangeVisible | src/path_template.rs:1168-1171 | a different name changes the resolved path of a template with one name token |
| PathChanges.CounterChangeVisible | src/path_template.rs:1174-1174 | a different counter changes the resolved path |
| PathChanges.RandomChangeVisible | src/path_template.rs:1175-1175 | a different random number changes the resolved path |
| PathChanges.SemverTextInjective | src/path_template.rs:694-703 | versions with different numbers print differently |
| PathChanges.SemverChangeVisible | src/path_template.rs:1176-1179 | a different version changes the resolved path |
| PathChanges.LouderLonger | src/path_template.rs:1182-1189 | with a marker in the template, adding a direction to the data lengthens the resolved path |
| PathChanges.FlipVisible | src/path_template.rs:1182-1189 | flipping the direction changes the resolved path of a marked template |

## Findings

| source | as written | input that shows it | evidently intended | confidence | as-written member | corrected member |
|---|---|---|---|---|---|---|
| src/path_template.rs:884-891 | `PathTemplate::resolve` concatenates the resolved segments with nothing between them | `017/up.sql`, a directory and a marker file: resolving the template with its own data gives `017up.sql` | segments joined by `/`, so that a parsed path resolves back to itself, as the tests at src/path_template.rs:1142-1165 expect | not executed; proved | PathRoundTrip.ResolveDropsSeparator, DirectoryExample.WrittenResolverJoins | PathResolver.ResolvePath, proved in PathReadBack.ParseResolveGivesPath and DirectoryExample.CorrectedResolverGivesBack |

The test's directory cases, such as `017_create_logs_table/do.sql`, do not expose this.
A name token runs up to the first `.`, so it swallows `/do`, and such paths parse as a
single file segment. A directory segment is only produced when no name follows the
number, as in `017/up.sql`. `DirectoryExample.DirectoryPathResolves` proves both
behaviours on that input, and the rest of the model uses `ResolvePath`.

## Left out

- Reading files, the command-line tool (`src/bin/sql-schema.rs`), SQL parsing and
  printing, and the `Display` of `ParseError` (src/path_template.rs:38-58) are not
  modelled. `src/lib.rs` is not part of this model.
- The `todo!()` and `panic!` branches become preconditions (`AllTables`,
  `SchemaMigratable`, `SupportedTypeOp`). Statements the source does not handle are
  excluded rather than modelled.
- Identifiers are plain strings without quote styles. Object names are sequences of
  parts, displayed joined by `.`.
- The date library is a parameter. `toInstant` and `Denotes` replace chrono's calendar
  arithmetic, and `Utc::now()` is not modelled. The parser accepts any day from 01 to 31
  in any month (`20230230_x.sql`, say), where chrono's `from_ymd_opt` fails
  (src/path_template.rs:796-797). An `Instant` can still hold such a day, so for
  calendar fields that are not a real date `StampsDenoted` can hold in the model while
  no real date library meets it, and the round-trip lemmas then say nothing about the
  source. The test mutation that sets the
  timestamp to now (src/path_template.rs:1173) is left out; the other parts of that
  mutation are covered.
- The random number that falls back to the timestamp's microseconds
  (src/path_template.rs:919-925) is modelled through the `Instant` record.
- PathReadBack.ParseResolveGivesPath: states the round trip only for inputs whose
  parsed text is as long as the input and that use `/`. Epoch timestamps, random
  numbers and sub-second fields keep their value but not leading zeros written in the
  path, and a `\` separator reads back as `/`. For other inputs `ParseReadsBack` states
  that the text is shorter. Like `ParseResolveRoundTrip`, it also requires each kind of
  data token at most once (`OneOfEach`) and a date library that turns each timestamp
  token into the instant it names (`StampsDenoted`).
- PathRoundTrip.ParseResolveRoundTrip: requires each kind of data token at most once
  (`OneOfEach`). A template with two timestamp tokens, for example, gives the data the
  last one, as the test's `data` function does, and the first one then need not print
  back.
- PathChanges.CounterChangeVisible: covers a counter that is already set. Setting an
  unset counter to exactly `number + 1` is invisible, because that is what the resolver
  prints when the counter is unset.
- Integer widths are modelled where the source relies on them. The minor version
  wraps at u32 in `PathAst.IncrementMinor`, and `number + 1` in `PathResolver.NextCounter`
  wraps at usize. Both are the release-build behaviour: the source's `self.minor + 1`
  (src/path_template.rs:687) panics in a debug build at `u32::MAX`, as `number + 1` does
  at `usize::MAX`.
- PathResolver.NextCounter: applies the usize wrap of `number + 1` only when no counter
  is set. The source's `counter.unwrap_or(self.number + 1)` computes `number + 1` even
  when a counter is set, so at `number == usize::MAX` a debug build panics there too; the
  model returns the counter, as a release build does.
- Quirks modelled as written:
  - `Vec::migrate` applies only the first ALTER or DROP that matches an object, so a
    second ALTER of the same table in one file is ignored.
  - SET NOT NULL appends an option even when one is present.
  - The hour validator accepts 1..12 only.
  - The end date 2100-01-01 is inclusive: any instant on that day is accepted.
  - A single part longer than the limit gives the name `__etc`.
