/**
 * Migration file names derived from the statements of a migration: one part per
 * recognised statement, parts joined by `__`, trailing parts dropped until the
 * name fits the length limit (in UTF-8 bytes), and `__etc` marking a truncation.
 */
module NameGen {
  import opened Wrappers
  import opened SqlAst
  import opened Text

  const PartSeparator := "__"
  const TruncationSuffix := "etc"
  const DefaultMaxLen: nat := 50

  predicate StartsWith(s: string, prefix: string) {
    |prefix| <= |s| && s[..|prefix|] == prefix
  }

  // ---------------------------------------------------------------------------
  // ALTER TABLE names.

  /** The words an ALTER TABLE operation contributes, if the name mentions it at all. */
  function OpDescription(op: AlterTableOperation): (r: Option<string>)
    ensures r.None? <==> op.OtherTableOperation?
    ensures r.Some? ==> r.value != ""
  {
    match op
    case AddColumn(_, columnDef) => Some("add_" + columnDef.name)
    case DropColumn(columnName, _) => Some("drop_" + columnName)
    case RenameColumn(oldName, newName) => Some("rename_" + oldName + "_to_" + newName)
    case AlterColumn(columnName, _) => Some("alter_" + columnName)
    case RenameTable(tableName) => Some("to_" + tableName.Display())
    case OtherTableOperation(_) => None
  }

  /** The descriptions of the recognised operations, in order. */
  function Descriptions(ops: seq<AlterTableOperation>): seq<string>
    decreases |ops|
  {
    if |ops| == 0 then []
    else
      Descriptions(ops[..|ops| - 1]) +
      match OpDescription(ops[|ops| - 1])
      case Some(d) => [d]
      case None => []
  }

  predicate HasRenameTable(ops: seq<AlterTableOperation>) {
    exists i :: 0 <= i < |ops| && ops[i].RenameTable?
  }

  /** "rename" when the statement renames the table, "alter" otherwise. */
  function Verb(ops: seq<AlterTableOperation>): string {
    if HasRenameTable(ops) then "rename" else "alter"
  }

  /** The name part of an ALTER TABLE: the operations are listed only when there are one or two. */
  function AlterTablePart(name: ObjectName, ops: seq<AlterTableOperation>): (r: string)
    ensures StartsWith(r, Verb(ops) + "_" + name.Display())
    ensures |r| > |Verb(ops) + "_" + name.Display()| <==> 1 <= |Descriptions(ops)| <= 2
  {
    var base := Verb(ops) + "_" + name.Display();
    var ds := Descriptions(ops);
    if |ds| == 0 || |ds| > 2 then base
    else
      assert (base + "_" + Join(ds, "_"))[..|base|] == base;
      base + "_" + Join(ds, "_")
  }

  /**
   * `alter_table_name`: walks the operations once, switching the verb to "rename" when it
   * meets a RENAME TABLE and collecting the descriptions of the recognised ones.
   */
  method AlterTableName(name: ObjectName, ops: seq<AlterTableOperation>) returns (r: Option<string>)
    ensures r == Some(AlterTablePart(name, ops))
  {
    var verb := "alter";
    var descriptions: seq<string> := [];
    for i := 0 to |ops|
      invariant descriptions == Descriptions(ops[..i])
      invariant verb == Verb(ops[..i])
    {
      assert ops[..i + 1][..i] == ops[..i];
      assert HasRenameTable(ops[..i + 1]) <==> HasRenameTable(ops[..i]) || ops[i].RenameTable? by {
        assert forall j :: 0 <= j < i ==> ops[..i + 1][j] == ops[..i][j];
        assert ops[..i + 1][i] == ops[i];
      }
      match ops[i]
      case AddColumn(_, columnDef) =>
        descriptions := descriptions + ["add_" + columnDef.name];
      case DropColumn(columnName, _) =>
        descriptions := descriptions + ["drop_" + columnName];
      case RenameColumn(oldName, newName) =>
        descriptions := descriptions + ["rename_" + oldName + "_to_" + newName];
      case AlterColumn(columnName, _) =>
        descriptions := descriptions + ["alter_" + columnName];
      case RenameTable(tableName) =>
        verb := "rename";
        descriptions := descriptions + ["to_" + tableName.Display()];
      case OtherTableOperation(_) =>
    }
    assert ops[..|ops|] == ops;
    if |descriptions| == 0 || |descriptions| > 2 {
      r := Some(verb + "_" + name.Display());
    } else {
      r := Some(verb + "_" + name.Display() + "_" + Join(descriptions, "_"));
    }
  }

  /** The verb is "rename" exactly when some operation renames the table. */
  lemma RenameVerbIff(name: ObjectName, ops: seq<AlterTableOperation>)
    ensures StartsWith(AlterTablePart(name, ops), "rename_") <==> HasRenameTable(ops)
    ensures StartsWith(AlterTablePart(name, ops), "alter_") <==> !HasRenameTable(ops)
  {
    var r := AlterTablePart(name, ops);
    var base := Verb(ops) + "_" + name.Display();
    assert r[..|base|] == base;
    assert r[0] == base[0];
  }

  // ---------------------------------------------------------------------------
  // Parts of the whole name.

  /** The display form of a list of names, one entry per name. */
  function DisplayAll(names: seq<ObjectName>): seq<string> {
    seq(|names|, i requires 0 <= i < |names| => names[i].Display())
  }

  /** The part one statement contributes; extensions and other statements contribute none. */
  function StatementPart(s: Statement): (r: Option<string>)
    ensures r.None? <==> s.CreateExtension? || s.DropExtension? || s.OtherStatement?
    ensures r.Some? ==> r.value != []
  {
    match s
    case CreateTableStmt(table) => Some("create_" + table.name.Display())
    case AlterTable(name, _, _, operations, _) => Some(AlterTablePart(name, operations))
    case Drop(objectType, _, names, _, _, _, _) =>
      var kind := if objectType == Table then "" else AsciiLower(objectType.Keyword()) + "_";
      Some("drop_" + kind + Join(DisplayAll(names), "_and_"))
    case CreateType(name, _) => Some("create_type_" + name.Display())
    case AlterType(name, _) => Some("alter_type_" + name.Display())
    case CreateIndex(indexName, tableName) =>
      var suffix := if indexName.Some? then "_" + indexName.value.Display() else "";
      Some("create_" + tableName.Display() + suffix)
    case CreateExtension(_, _) => None
    case DropExtension(_, _) => None
    case OtherStatement(_) => None
  }

  /** The parts of a migration's statements, in order; never an empty part. */
  function Parts(stmts: seq<Statement>): (r: seq<string>)
    ensures |r| <= |stmts|
    ensures forall i :: 0 <= i < |r| ==> r[i] != []
    ensures r == [] <==> forall i :: 0 <= i < |stmts| ==> StatementPart(stmts[i]).None?
  {
    if |stmts| == 0 then []
    else
      var rest := Parts(stmts[1..]);
      assert forall i :: 1 <= i < |stmts| ==> stmts[i] == stmts[1..][i - 1];
      match StatementPart(stmts[0])
      case Some(p) => [p] + rest
      case None => rest
  }

  // ---------------------------------------------------------------------------
  // Truncation.

  function JoinedLen(parts: seq<string>, n: nat): nat
    requires n <= |parts|
  {
    Utf8Len(Join(parts[..n], PartSeparator))
  }

  /**
   * The number of leading parts kept when at most `n` are considered: trailing parts
   * are dropped one at a time until the join fits `maxLen`.
   */
  function KeptFrom(parts: seq<string>, maxLen: nat, n: nat): (k: nat)
    requires n <= |parts|
    ensures k <= n && JoinedLen(parts, k) <= maxLen
    ensures k < n ==> JoinedLen(parts, k + 1) > maxLen
    decreases n
  {
    if JoinedLen(parts, n) <= maxLen then n
    else
      assert parts[..0] == [];
      KeptFrom(parts, maxLen, n - 1)
  }

  function KeptCount(parts: seq<string>, maxLen: nat): nat {
    KeptFrom(parts, maxLen, |parts|)
  }

  /** The kept prefix is the longest one whose join fits. */
  lemma KeptIsLongestFit(parts: seq<string>, maxLen: nat, j: nat)
    requires KeptCount(parts, maxLen) < j <= |parts|
    ensures JoinedLen(parts, j) > maxLen
  {
    var k := KeptCount(parts, maxLen);
    JoinGrows(parts, PartSeparator, k + 1, j);
  }

  /** The name for the given parts under the limit: the kept parts, then `__etc` if any were dropped. */
  function NameOf(parts: seq<string>, limit: nat): Option<string> {
    var k := KeptCount(parts, limit);
    var name := Join(parts[..k], PartSeparator) + (if k < |parts| then PartSeparator + TruncationSuffix else "");
    if name == "" then None else Some(name)
  }

  /** The name `generate_name` returns, as a function of the statements and the limit. */
  function GeneratedName(stmts: seq<Statement>, maxLen: Option<nat>): Option<string> {
    NameOf(Parts(stmts), maxLen.UnwrapOr(DefaultMaxLen))
  }

  /**
   * `generate_name`: pops trailing parts while the joined name is longer than the limit,
   * remembering that it did, then appends `__etc` if anything was dropped.
   */
  method GenerateName(stmts: seq<Statement>, maxLen: Option<nat>) returns (r: Option<string>)
    ensures r == GeneratedName(stmts, maxLen)
  {
    var all := Parts(stmts);
    var parts := all;
    var suffix: Option<string> := None;
    var name := Join(parts, PartSeparator);
    var limit := maxLen.UnwrapOr(DefaultMaxLen);
    assert all[..|all|] == all;
    while Utf8Len(name) > limit
      invariant |parts| <= |all| && parts == all[..|parts|]
      invariant name == Join(parts, PartSeparator) && JoinedLen(all, |parts|) == Utf8Len(name)
      invariant suffix == if |parts| < |all| then Some(TruncationSuffix) else None
      invariant KeptCount(all, limit) == KeptFrom(all, limit, |parts|)
      decreases |parts|
    {
      KeptStep(all, limit, |parts|);
      suffix := Some(TruncationSuffix);
      assert parts[..|parts| - 1] == all[..|parts| - 1];
      parts := parts[..|parts| - 1];
      name := Join(parts, PartSeparator);
    }
    if suffix.Some? {
      name := name + PartSeparator + suffix.value;
    }
    KeptStop(all, limit, |parts|);
    NameOfKept(all, limit, |parts|, name);
    if name == "" {
      r := None;
    } else {
      r := Some(name);
    }
  }

  /** A prefix whose join is too long is not kept: the count comes from the shorter prefix. */
  lemma KeptStep(parts: seq<string>, limit: nat, n: nat)
    requires n <= |parts| && JoinedLen(parts, n) > limit
    ensures n > 0 && KeptFrom(parts, limit, n) == KeptFrom(parts, limit, n - 1)
  {
    Utf8LenZero(Join(parts[..n], PartSeparator));
  }

  /** A prefix whose join fits is kept whole. */
  lemma KeptStop(parts: seq<string>, limit: nat, n: nat)
    requires n <= |parts| && JoinedLen(parts, n) <= limit
    ensures KeptFrom(parts, limit, n) == n
  {
  }

  /** Once the kept count is known, the name is the kept parts and the optional suffix. */
  lemma NameOfKept(parts: seq<string>, limit: nat, k: nat, name: string)
    requires k == KeptCount(parts, limit)
    requires name == if k < |parts| then Join(parts[..k], PartSeparator) + PartSeparator + TruncationSuffix
                     else Join(parts[..k], PartSeparator)
    ensures NameOf(parts, limit) == if name == "" then None else Some(name)
  {
    var kept := Join(parts[..k], PartSeparator);
    if k < |parts| {
      assert name == kept + (PartSeparator + TruncationSuffix);
    } else {
      assert name == kept + "";
    }
  }

  // ---------------------------------------------------------------------------
  // Properties of generated names.

  lemma {:induction false} JoinNonEmpty(parts: seq<string>, sep: string)
    requires |parts| > 0 && parts[|parts| - 1] != []
    ensures Join(parts, sep) != []
  {
  }

  lemma FittingParts(parts: seq<string>, limit: nat)
    requires Utf8Len(Join(parts, PartSeparator)) <= limit
    requires forall i :: 0 <= i < |parts| ==> parts[i] != []
    ensures parts != [] ==> NameOf(parts, limit) == Some(Join(parts, PartSeparator))
    ensures parts == [] ==> NameOf(parts, limit).None?
  {
    assert parts[..|parts|] == parts;
    assert KeptCount(parts, limit) == |parts|;
    NameOfKept(parts, limit, |parts|, Join(parts, PartSeparator));
    if parts != [] {
      JoinNonEmpty(parts, PartSeparator);
    }
  }

  /** A name that fits is the joined parts, unchanged. */
  lemma FittingNameUnchanged(stmts: seq<Statement>, maxLen: Option<nat>)
    requires Utf8Len(Join(Parts(stmts), PartSeparator)) <= maxLen.UnwrapOr(DefaultMaxLen)
    ensures Parts(stmts) != [] ==> GeneratedName(stmts, maxLen) == Some(Join(Parts(stmts), PartSeparator))
    ensures Parts(stmts) == [] ==> GeneratedName(stmts, maxLen).None?
  {
    FittingParts(Parts(stmts), maxLen.UnwrapOr(DefaultMaxLen));
  }

  /** The truncation marker is `__etc`, five bytes long. */
  lemma EtcSuffix()
    ensures PartSeparator + TruncationSuffix == "__etc"
    ensures Utf8Len("__etc") == 5
  {
    AsciiUtf8Len("__etc");
  }

  lemma MarkedName(kept: string)
    ensures kept + PartSeparator + TruncationSuffix == kept + "__etc"
  {
    EtcSuffix();
    assert kept + PartSeparator + TruncationSuffix == kept + (PartSeparator + TruncationSuffix);
  }

  /** When the whole join is too long, at least one part is dropped. */
  lemma KeptDrops(parts: seq<string>, limit: nat)
    requires JoinedLen(parts, |parts|) > limit
    ensures KeptCount(parts, limit) < |parts|
  {
  }

  lemma TruncatedParts(parts: seq<string>, limit: nat)
    requires Utf8Len(Join(parts, PartSeparator)) > limit
    ensures var k := KeptCount(parts, limit);
      k < |parts| && NameOf(parts, limit) == Some(Join(parts[..k], PartSeparator) + "__etc")
  {
    var k := KeptCount(parts, limit);
    assert parts[..|parts|] == parts;
    KeptDrops(parts, limit);
    var kept := Join(parts[..k], PartSeparator);
    var name := kept + "__etc";
    MarkedName(kept);
    assert name[|kept|] == '_';
    NameOfKept(parts, limit, k, name);
  }

  /** When the joined parts do not fit, the kept prefix is followed by `__etc`. */
  lemma TruncatedShape(stmts: seq<Statement>, maxLen: Option<nat>)
    requires Utf8Len(Join(Parts(stmts), PartSeparator)) > maxLen.UnwrapOr(DefaultMaxLen)
    ensures var parts := Parts(stmts);
      var k := KeptCount(parts, maxLen.UnwrapOr(DefaultMaxLen));
      k < |parts| && GeneratedName(stmts, maxLen) == Some(Join(parts[..k], PartSeparator) + "__etc")
  {
    TruncatedParts(Parts(stmts), maxLen.UnwrapOr(DefaultMaxLen));
  }

  /** The truncated name is at most the five bytes of `__etc` over the limit. */
  lemma TruncatedLength(parts: seq<string>, limit: nat)
    requires Utf8Len(Join(parts, PartSeparator)) > limit
    ensures NameOf(parts, limit).Some? && Utf8Len(NameOf(parts, limit).value) <= limit + 5
  {
    TruncatedParts(parts, limit);
    var kept := Join(parts[..KeptCount(parts, limit)], PartSeparator);
    Utf8LenAppend(kept, "__etc");
    EtcSuffix();
  }

  lemma TruncatedKeepsLongestFit(parts: seq<string>, limit: nat)
    requires Utf8Len(Join(parts, PartSeparator)) > limit
    ensures var k := KeptCount(parts, limit);
      k < |parts| && NameOf(parts, limit) == Some(Join(parts[..k], PartSeparator) + "__etc") &&
      (forall j :: k < j <= |parts| ==> Utf8Len(Join(parts[..j], PartSeparator)) > limit) &&
      Utf8Len(NameOf(parts, limit).value) <= limit + 5
  {
    var k := KeptCount(parts, limit);
    TruncatedParts(parts, limit);
    TruncatedLength(parts, limit);
    forall j | k < j <= |parts| ensures Utf8Len(Join(parts[..j], PartSeparator)) > limit {
      KeptIsLongestFit(parts, limit, j);
    }
  }

  /**
   * A name that does not fit keeps the longest prefix of the parts whose join fits and
   * ends in `__etc`; it is therefore at most 5 bytes over the limit.
   */
  lemma TruncatedName(stmts: seq<Statement>, maxLen: Option<nat>)
    requires Utf8Len(Join(Parts(stmts), PartSeparator)) > maxLen.UnwrapOr(DefaultMaxLen)
    ensures var parts, limit := Parts(stmts), maxLen.UnwrapOr(DefaultMaxLen);
      exists k :: 0 <= k < |parts| &&
        GeneratedName(stmts, maxLen) == Some(Join(parts[..k], PartSeparator) + "__etc") &&
        Utf8Len(Join(parts[..k], PartSeparator)) <= limit &&
        (forall j :: k < j <= |parts| ==> Utf8Len(Join(parts[..j], PartSeparator)) > limit) &&
        Utf8Len(GeneratedName(stmts, maxLen).value) <= limit + 5
  {
    var parts, limit := Parts(stmts), maxLen.UnwrapOr(DefaultMaxLen);
    TruncatedKeepsLongestFit(parts, limit);
    var k := KeptCount(parts, limit);
    assert GeneratedName(stmts, maxLen) == NameOf(parts, limit);
    assert Utf8Len(Join(parts[..k], PartSeparator)) <= limit;
  }

  lemma NameNoneIffNoParts(parts: seq<string>, limit: nat)
    requires forall i :: 0 <= i < |parts| ==> parts[i] != []
    ensures NameOf(parts, limit).None? <==> parts == []
  {
    var k := KeptCount(parts, limit);
    if k == |parts| && k > 0 {
      assert parts[..k] == parts;
      JoinNonEmpty(parts, PartSeparator);
    }
  }

  /** A migration gets a name exactly when at least one of its statements is recognised. */
  lemma NameIffRecognised(stmts: seq<Statement>, maxLen: Option<nat>)
    ensures GeneratedName(stmts, maxLen).None? <==> forall i :: 0 <= i < |stmts| ==> StatementPart(stmts[i]).None?
  {
    NameNoneIffNoParts(Parts(stmts), maxLen.UnwrapOr(DefaultMaxLen));
  }

  // ---------------------------------------------------------------------------
  // The names the source's own examples expect.

  function TableNamed(name: Ident): Statement {
    CreateTableStmt(CreateTable(ObjectName([name]), [], false, None, []))
  }

  lemma TablePart(name: Ident, part: string)
    requires part == "create_" + name
    ensures StatementPart(TableNamed(name)) == Some(part)
  {
    assert ObjectName([name]).Display() == name;
  }

  lemma PartsCons(s: Statement, rest: seq<Statement>)
    ensures Parts([s] + rest) == (if StatementPart(s).Some? then [StatementPart(s).value] else []) + Parts(rest)
  {
    assert ([s] + rest)[1..] == rest;
  }

  /** The parts of concatenated statement lists are the concatenated parts. */
  lemma {:induction false} PartsAppend(a: seq<Statement>, b: seq<Statement>)
    ensures Parts(a + b) == Parts(a) + Parts(b)
  {
    if |a| > 0 {
      assert (a + b)[1..] == a[1..] + b;
      assert (a + b)[0] == a[0];
      PartsAppend(a[1..], b);
    } else {
      assert a + b == b;
    }
  }

  lemma JoinSnoc(parts: seq<string>, sep: string, x: string)
    requires |parts| > 0
    ensures Join(parts + [x], sep) == Join(parts, sep) + sep + x
  {
    assert (parts + [x])[..|parts|] == parts;
  }

  /** A lone recognised statement whose part fits is named by that part alone. */
  lemma SingleStatementName(s: Statement, part: string)
    requires StatementPart(s) == Some(part) && Utf8Len(part) <= DefaultMaxLen
    ensures GeneratedName([s], None) == Some(part)
  {
    PartsCons(s, []);
    assert [s] + [] == [s];
    assert Parts([s]) == [part];
    FittingNameUnchanged([s], None);
  }

  /** Statements of two tables give the two `create_` parts, in order. */
  lemma TwoTableParts(a: Ident, b: Ident, pa: string, pb: string)
    requires pa == "create_" + a && pb == "create_" + b
    ensures Parts([TableNamed(a), TableNamed(b)]) == [pa, pb]
  {
    TablePart(a, pa);
    TablePart(b, pb);
    PartsCons(TableNamed(b), []);
    assert [TableNamed(b)] + [] == [TableNamed(b)];
    PartsCons(TableNamed(a), [TableNamed(b)]);
    assert [TableNamed(a)] + [TableNamed(b)] == [TableNamed(a), TableNamed(b)];
  }

  lemma ExampleTwoTables(stmts: seq<Statement>)
    requires stmts == [TableNamed("foo"), TableNamed("bar")]
    ensures GeneratedName(stmts, None) == Some("create_foo__create_bar")
  {
    var parts := ["create_foo", "create_bar"];
    TwoTableParts("foo", "bar", "create_foo", "create_bar");
    TwoPartsName(parts);
  }

  lemma TwoPartsName(parts: seq<string>)
    requires parts == ["create_foo", "create_bar"]
    ensures NameOf(parts, DefaultMaxLen) == Some("create_foo__create_bar")
  {
    JoinSnoc(parts[..1], PartSeparator, "create_bar");
    assert parts[..1] + ["create_bar"] == parts;
    TwoPartsFit(Join(parts, PartSeparator));
    FittingParts(parts, DefaultMaxLen);
  }

  lemma TwoPartsFit(name: string)
    requires name == "create_foo" + "__" + "create_bar"
    ensures name == "create_foo__create_bar" && Utf8Len(name) <= DefaultMaxLen
  {
    TwoPartsLength(name);
  }

  lemma TwoPartsLength(name: string)
    requires name == "create_foo__create_bar"
    ensures Utf8Len(name) == 22
  {
    AsciiUtf8Len(name);
  }

  lemma FourTableParts(a: Ident, b: Ident, c: Ident, d: Ident, pa: string, pb: string, pc: string, pd: string)
    requires pa == "create_" + a && pb == "create_" + b && pc == "create_" + c && pd == "create_" + d
    ensures Parts([TableNamed(a), TableNamed(b), TableNamed(c), TableNamed(d)]) == [pa, pb, pc, pd]
  {
    TwoTableParts(a, b, pa, pb);
    TwoTableParts(c, d, pc, pd);
    PartsAppend([TableNamed(a), TableNamed(b)], [TableNamed(c), TableNamed(d)]);
    assert [TableNamed(a), TableNamed(b)] + [TableNamed(c), TableNamed(d)]
        == [TableNamed(a), TableNamed(b), TableNamed(c), TableNamed(d)];
  }

  lemma FourPartsJoined(parts: seq<string>)
    requires parts == ["create_foo", "create_bar", "create_baz", "create_some_really_long_name"]
    ensures Join(parts[..3], PartSeparator) == "create_foo__create_bar__create_baz"
    ensures Join(parts, PartSeparator) == "create_foo__create_bar__create_baz" + "__" + "create_some_really_long_name"
  {
    assert parts[..1] == ["create_foo"];
    assert parts[..1] + ["create_bar"] == parts[..2];
    assert parts[..2] + ["create_baz"] == parts[..3];
    assert parts[..3] + ["create_some_really_long_name"] == parts;
    JoinSnoc(parts[..1], PartSeparator, "create_bar");
    JoinSnoc(parts[..2], PartSeparator, "create_baz");
    JoinSnoc(parts[..3], PartSeparator, "create_some_really_long_name");
  }

  /** Dropping the last part is enough when the rest fits and the whole does not. */
  lemma LastPartDropped(parts: seq<string>, maxLen: nat)
    requires |parts| > 0 && JoinedLen(parts, |parts|) > maxLen && JoinedLen(parts, |parts| - 1) <= maxLen
    ensures KeptCount(parts, maxLen) == |parts| - 1
  {
    assert KeptFrom(parts, maxLen, |parts| - 1) == |parts| - 1;
  }

  lemma ThreePartsFit(kept: string)
    requires kept == "create_foo__create_bar__create_baz"
    ensures Utf8Len(kept) == 34
  {
    AsciiUtf8Len(kept);
  }

  lemma FourPartsTooLong(whole: string)
    requires whole == "create_foo__create_bar__create_baz" + "__" + "create_some_really_long_name"
    ensures Utf8Len(whole) > DefaultMaxLen
  {
    Utf8LenBounds(whole);
  }

  lemma FourPartsKeepThree(parts: seq<string>)
    requires parts == ["create_foo", "create_bar", "create_baz", "create_some_really_long_name"]
    ensures KeptCount(parts, DefaultMaxLen) == 3
  {
    FourPartsJoined(parts);
    ThreePartsFit(Join(parts[..3], PartSeparator));
    FourPartsTooLong(Join(parts, PartSeparator));
    assert parts[..4] == parts;
    LastPartDropped(parts, DefaultMaxLen);
  }

  lemma ExampleTruncated(stmts: seq<Statement>)
    requires stmts == [TableNamed("foo"), TableNamed("bar"), TableNamed("baz"), TableNamed("some_really_long_name")]
    ensures GeneratedName(stmts, None) == Some("create_foo__create_bar__create_baz__etc")
  {
    var parts := ["create_foo", "create_bar", "create_baz", "create_some_really_long_name"];
    FourCreateParts(stmts, parts);
    FourPartsName(parts);
  }

  lemma FourCreateParts(stmts: seq<Statement>, parts: seq<string>)
    requires stmts == [TableNamed("foo"), TableNamed("bar"), TableNamed("baz"), TableNamed("some_really_long_name")]
    requires parts == ["create_foo", "create_bar", "create_baz", "create_some_really_long_name"]
    ensures Parts(stmts) == parts
  {
    CreatePrefixed("foo", "create_foo");
    CreatePrefixed("bar", "create_bar");
    CreatePrefixed("baz", "create_baz");
    CreatePrefixed("some_really_long_name", "create_some_really_long_name");
    FourTableParts("foo", "bar", "baz", "some_really_long_name",
      "create_foo", "create_bar", "create_baz", "create_some_really_long_name");
  }

  lemma CreatePrefixed(name: string, part: string)
    requires |part| == 7 + |name| && part[..7] == "create_" && part[7..] == name
    ensures part == "create_" + name
  {
    assert part == part[..7] + part[7..];
  }

  lemma FourPartsName(parts: seq<string>)
    requires parts == ["create_foo", "create_bar", "create_baz", "create_some_really_long_name"]
    ensures NameOf(parts, DefaultMaxLen) == Some("create_foo__create_bar__create_baz__etc")
  {
    FourPartsJoined(parts);
    FourPartsKeepThree(parts);
    FourPartsTooLong(Join(parts, PartSeparator));
    TruncatedParts(parts, DefaultMaxLen);
    TruncatedExample(Join(parts[..3], PartSeparator));
  }

  lemma TruncatedExample(kept: string)
    requires kept == "create_foo__create_bar__create_baz"
    ensures kept + "__etc" == "create_foo__create_bar__create_baz__etc"
  {
  }

  /** A one-part name displays as that part. */
  lemma SinglePartName(x: Ident)
    ensures ObjectName([x]).Display() == x
  {
    assert Join([x], ".") == x;
  }

  lemma DropBarDescriptions()
    ensures Descriptions([DropColumn("bar", false)]) == ["drop_bar"]
  {
    var ops := [DropColumn("bar", false)];
    assert "drop_" + "bar" == "drop_bar";
    assert ops[..0] == [];
    assert ops[|ops| - 1] == DropColumn("bar", false);
  }

  lemma ExampleAlterDropColumn()
    ensures StatementPart(AlterTable(ObjectName(["foo"]), false, false, [DropColumn("bar", false)], None))
         == Some("alter_foo_drop_bar")
  {
    var ops := [DropColumn("bar", false)];
    DropBarDescriptions();
    SinglePartName("foo");
    assert !HasRenameTable(ops);
    assert Join(["drop_bar"], "_") == "drop_bar";
    assert "alter" + "_" + "foo" + "_" + "drop_bar" == "alter_foo_drop_bar";
  }

  lemma RenameBarDescriptions()
    ensures Descriptions([RenameTable(ObjectName(["bar"]))]) == ["to_bar"]
  {
    var ops := [RenameTable(ObjectName(["bar"]))];
    SinglePartName("bar");
    assert "to_" + "bar" == "to_bar";
    assert ops[..0] == [];
    assert ops[|ops| - 1] == RenameTable(ObjectName(["bar"]));
  }

  lemma ExampleRenameTable()
    ensures StatementPart(AlterTable(ObjectName(["foo"]), false, false, [RenameTable(ObjectName(["bar"]))], None))
         == Some("rename_foo_to_bar")
  {
    var ops := [RenameTable(ObjectName(["bar"]))];
    RenameBarDescriptions();
    SinglePartName("foo");
    assert ops[0].RenameTable?;
    assert HasRenameTable(ops);
    assert Join(["to_bar"], "_") == "to_bar";
    assert "rename" + "_" + "foo" + "_" + "to_bar" == "rename_foo_to_bar";
  }

  lemma TypeLower()
    ensures AsciiLower("TYPE") == "type"
  {
    var s := "TYPE";
    assert AsciiLower(s[4..]) == "";
    assert s[3..][1..] == s[4..];
    assert AsciiLower(s[3..]) == "e";
    assert s[2..][1..] == s[3..];
    assert AsciiLower(s[2..]) == "pe";
    assert s[1..][1..] == s[2..];
    assert AsciiLower(s[1..]) == "ype";
  }

  lemma ExampleDropType()
    ensures StatementPart(Drop(Type, false, [ObjectName(["status"])], false, false, false, false))
         == Some("drop_type_status")
  {
    TypeLower();
    SinglePartName("status");
    assert DisplayAll([ObjectName(["status"])]) == ["status"];
    assert Join(["status"], "_and_") == "status";
    assert "drop_" + ("type" + "_") + "status" == "drop_type_status";
  }

  lemma ExampleCreateIndex()
    ensures StatementPart(CreateIndex(Some(ObjectName(["title_idx"])), ObjectName(["films"])))
         == Some("create_films_title_idx")
  {
    SinglePartName("title_idx");
    SinglePartName("films");
    assert "create_" + "films" + ("_" + "title_idx") == "create_films_title_idx";
  }
}
