/**
  The SQLite3 table compiler: the statements SQLite3 needs for creating a
  table (its columns, foreign keys and primary key in one `create table`),
  adding columns one `alter table` at a time, creating and dropping
  indexes, and handing column renames and drops over to the DDL helper
  through a `PRAGMA table_info` query.

  The generic table compiler this one builds on (its `tableName()`,
  `_indexCommand` and `getColumns()`, and the grouping of the builder's
  statements) is not part of this model: its results are fields of the
  compiler or arguments of the members.
*/
module TableCompiler {
  import opened Results
  import opened Js
  import opened Text
  import opened Queries
  import Formatter

  /** A statement argument: a plain value or an array of values. */
  datatype Arg = Scalar(value: Value) | List(items: seq<Value>)

  /** `String(array)`: the elements joined with `,`, `null` and `undefined` as empty text. */
  function ArrayText(items: seq<Value>): string {
    Join(seq(|items|, i requires 0 <= i < |items| => if Nullish(items[i]) then "" else ToJsString(items[i])), ",")
  }

  /** An argument as one value (an array turned into its text). */
  function ArgValue(a: Arg): Value {
    match a
    case Scalar(v) => v
    case List(items) => Str(ArrayText(items))
  }

  /** The object a `foreign` statement carries as its first argument. */
  datatype ForeignSpec = ForeignSpec(
    column: Formatter.Target,
    references: Formatter.Target,
    inTable: Value,
    onDelete: Value,
    onUpdate: Value)

  /** The statements grouped under `alterTable`, by method. */
  datatype AlterStatement =
    | Primary(args: seq<Arg>)
    | Foreign(spec: ForeignSpec)
    | OtherStatement(statementMethod: string)

  /** `formatter.columnize(target)` as text. */
  function ColumnizeText(wrapIdentifier: string -> string, target: Formatter.Target): string {
    Join(Formatter.WrappedColumns(wrapIdentifier, Formatter.TargetColumns(target)), ", ")
  }

  /** `formatter.wrap(value)` as text. */
  function WrapText(wrapIdentifier: string -> string, value: Value): string {
    ToJsString(Formatter.WrapValue(wrapIdentifier, value))
  }

  // ---------------------------------------------------------------------
  // Foreign keys
  // ---------------------------------------------------------------------

  /** The `foreign` statements, in order. */
  function ForeignSpecs(statements: seq<AlterStatement>): (r: seq<ForeignSpec>)
    ensures |r| <= |statements|
    ensures forall f :: f in r <==> Foreign(f) in statements
    ensures (forall s :: s in statements ==> !s.Foreign?) ==> r == []
    decreases |statements|
  {
    if statements == [] then []
    else
      var prev := ForeignSpecs(statements[..|statements| - 1]);
      var last := statements[|statements| - 1];
      assert statements == statements[..|statements| - 1] + [last];
      if last.Foreign? then prev + [last.spec] else prev
  }

  /** One statement contributes its spec when it is a `foreign` statement, and nothing otherwise. */
  lemma ForeignSpecsOne(s: AlterStatement)
    ensures ForeignSpecs([s]) == if s.Foreign? then [s.spec] else []
  {
    assert [s][..0] == [];
  }

  /** The `foreign` statements of two runs are those of the first, then of the second. */
  lemma {:induction false} ForeignSpecsAppend(a: seq<AlterStatement>, b: seq<AlterStatement>)
    ensures ForeignSpecs(a + b) == ForeignSpecs(a) + ForeignSpecs(b)
    decreases |b|
  {
    if b == [] {
      assert a + b == a;
    } else {
      var init := b[..|b| - 1];
      var last := b[|b| - 1];
      assert (a + b)[..|a + b| - 1] == a + init;
      assert (a + b)[|a + b| - 1] == last;
      ForeignSpecsAppend(a, init);
      assert ForeignSpecs(b) == ForeignSpecs(init) + (if last.Foreign? then [last.spec] else []);
    }
  }

  /**
    One foreign key clause: the columns, the wrapped foreign table and its
    columns, then `on delete` and `on update` only when they are set.
  */
  function ForeignClause(wrapIdentifier: string -> string, f: ForeignSpec): string {
    var head := ", foreign key(" + ColumnizeText(wrapIdentifier, f.column) + ") references ";
    var clause := head + WrapText(wrapIdentifier, f.inTable) + "(" + ColumnizeText(wrapIdentifier, f.references) + ")";
    var withDelete := if Truthy(f.onDelete) then clause + " on delete " + ToJsString(f.onDelete) else clause;
    if Truthy(f.onUpdate) then withDelete + " on update " + ToJsString(f.onUpdate) else withDelete
  }

  /** Each clause opens with `, foreign key(<columns>) references `. */
  lemma ForeignClauseHead(wrapIdentifier: string -> string, f: ForeignSpec)
    ensures StartsWith(ForeignClause(wrapIdentifier, f), ", foreign key(" + ColumnizeText(wrapIdentifier, f.column) + ") references ")
  {
    var head := ", foreign key(" + ColumnizeText(wrapIdentifier, f.column) + ") references ";
    var r := ForeignClause(wrapIdentifier, f);
    assert r[..|head|] == head;
  }

  /** ` on <event> <action>` when the action is set, and nothing otherwise. */
  function OnClause(event: string, action: Value): (r: string)
    ensures r == "" <==> !Truthy(action)
    ensures Truthy(action) ==> StartsWith(r, " on " + event + " ")
  {
    if Truthy(action) then " on " + event + " " + ToJsString(action) else ""
  }

  /**
    A clause reads `, foreign key(<columns>) references <table>(<columns>)`,
    then its `on delete` part, then its `on update` part, each present
    exactly when its action is set.
  */
  lemma ForeignClauseParts(wrapIdentifier: string -> string, f: ForeignSpec)
    ensures ForeignClause(wrapIdentifier, f)
            == ", foreign key(" + ColumnizeText(wrapIdentifier, f.column) + ") references "
               + WrapText(wrapIdentifier, f.inTable) + "(" + ColumnizeText(wrapIdentifier, f.references) + ")"
               + OnClause("delete", f.onDelete) + OnClause("update", f.onUpdate)
  {
    var clause := ", foreign key(" + ColumnizeText(wrapIdentifier, f.column) + ") references "
                  + WrapText(wrapIdentifier, f.inTable) + "(" + ColumnizeText(wrapIdentifier, f.references) + ")";
    var onDelete := " on " + "delete" + " ";
    var onUpdate := " on " + "update" + " ";
    assert onDelete == " on delete ";
    assert onUpdate == " on update ";
    ClauseShape(clause, onDelete, ToJsString(f.onDelete), Truthy(f.onDelete),
                onUpdate, ToJsString(f.onUpdate), Truthy(f.onUpdate));
  }

  /** Optional suffixes appended one after the other, regrouped. */
  lemma ClauseShape(clause: string, dl: string, d: string, dOn: bool, ul: string, u: string, uOn: bool)
    ensures (var w := if dOn then clause + dl + d else clause; if uOn then w + ul + u else w)
            == clause + (if dOn then dl + d else "") + (if uOn then ul + u else "")
  {
  }

  /** Texts one after the other. */
  function Concat(parts: seq<string>): (r: string)
    ensures parts == [] ==> r == ""
    decreases |parts|
  {
    if parts == [] then "" else Concat(parts[..|parts| - 1]) + parts[|parts| - 1]
  }

  /** Concatenating two runs is concatenating each. */
  lemma {:induction false} ConcatAppend(a: seq<string>, b: seq<string>)
    ensures Concat(a + b) == Concat(a) + Concat(b)
    decreases |b|
  {
    if b == [] {
      assert a + b == a;
    } else {
      var init := b[..|b| - 1];
      assert (a + b)[..|a + b| - 1] == a + init;
      assert (a + b)[|a + b| - 1] == b[|b| - 1];
      ConcatAppend(a, init);
    }
  }

  /** `f` applied to every element, in order. */
  function MapAll<A>(f: A -> string, xs: seq<A>): (r: seq<string>)
    ensures |r| == |xs|
    ensures forall i :: 0 <= i < |xs| ==> r[i] == f(xs[i])
  {
    seq(|xs|, i requires 0 <= i < |xs| => f(xs[i]))
  }

  /** Mapping two runs is mapping each. */
  lemma MapAllAppend<A>(f: A -> string, a: seq<A>, b: seq<A>)
    ensures MapAll(f, a + b) == MapAll(f, a) + MapAll(f, b)
  {
    var r := MapAll(f, a + b);
    forall i | 0 <= i < |r| ensures r[i] == (MapAll(f, a) + MapAll(f, b))[i] {
      if i < |a| {
        assert (a + b)[i] == a[i];
      } else {
        assert (a + b)[i] == b[i - |a|];
      }
    }
  }

  /** One more text on a run of texts. */
  lemma ConcatStep(parts: seq<string>, i: nat)
    requires i < |parts|
    ensures Concat(parts[..i + 1]) == Concat(parts[..i]) + parts[i]
  {
    assert parts[..i + 1][..i] == parts[..i];
  }

  /** The clause of every foreign key, in order. */
  function ForeignClauses(wrapIdentifier: string -> string, specs: seq<ForeignSpec>): (r: seq<string>)
    ensures |r| == |specs|
    ensures forall i :: 0 <= i < |specs| ==> r[i] == ForeignClause(wrapIdentifier, specs[i])
  {
    MapAll(f => ForeignClause(wrapIdentifier, f), specs)
  }

  /** `foreignKeys()`: the clauses of the foreign keys one after the other. */
  function ForeignKeysSql(wrapIdentifier: string -> string, specs: seq<ForeignSpec>): (r: string)
    ensures specs == [] ==> r == ""
  {
    Concat(ForeignClauses(wrapIdentifier, specs))
  }

  /** The clauses of two runs of foreign keys follow each other. */
  lemma ForeignKeysAppend(wrapIdentifier: string -> string, a: seq<ForeignSpec>, b: seq<ForeignSpec>)
    ensures ForeignKeysSql(wrapIdentifier, a + b) == ForeignKeysSql(wrapIdentifier, a) + ForeignKeysSql(wrapIdentifier, b)
  {
    MapAllAppend(f => ForeignClause(wrapIdentifier, f), a, b);
    ConcatAppend(ForeignClauses(wrapIdentifier, a), ForeignClauses(wrapIdentifier, b));
  }

  /** Foreign keys give text exactly when there is one; it opens with the first clause. */
  lemma ForeignKeysNonEmpty(wrapIdentifier: string -> string, specs: seq<ForeignSpec>)
    ensures ForeignKeysSql(wrapIdentifier, specs) == "" <==> specs == []
    ensures specs != [] ==> StartsWith(ForeignKeysSql(wrapIdentifier, specs), ForeignClause(wrapIdentifier, specs[0]))
  {
    if specs != [] {
      ForeignKeysAppend(wrapIdentifier, [specs[0]], specs[1..]);
      assert [specs[0]] + specs[1..] == specs;
      var first := ForeignClause(wrapIdentifier, specs[0]);
      ForeignClauseHead(wrapIdentifier, specs[0]);
      assert ForeignKeysSql(wrapIdentifier, [specs[0]]) == first by {
        assert [specs[0]][..0] == [];
      }
      assert |first| > 0;
      var s := ForeignKeysSql(wrapIdentifier, specs);
      assert s[..|first|] == first;
    }
  }

  // ---------------------------------------------------------------------
  // Primary keys
  // ---------------------------------------------------------------------

  /** The argument lists of the `primary` statements, in order. */
  function PrimaryArgs(statements: seq<AlterStatement>): (r: seq<seq<Arg>>)
    ensures forall args :: args in r <==> Primary(args) in statements
    ensures (forall s :: s in statements ==> !s.Primary?) ==> r == []
    decreases |statements|
  {
    if statements == [] then []
    else
      var rest := PrimaryArgs(statements[1..]);
      assert statements == [statements[0]] + statements[1..];
      if statements[0].Primary? then [statements[0].args] + rest else rest
  }

  /** The columns a primary key names: an array first argument, or all the arguments. */
  function PrimaryColumns(args: seq<Arg>): seq<Value>
    requires args != []
  {
    if args[0].List? then args[0].items else seq(|args|, i requires 0 <= i < |args| => ArgValue(args[i]))
  }

  /**
    `primaryKeys()`: the key clause of the first `primary` statement when it
    has arguments, nothing otherwise.
  */
  function PrimaryKeysSql(wrapIdentifier: string -> string, statements: seq<AlterStatement>): (r: Option<string>)
    ensures r.Some? <==> PrimaryArgs(statements) != [] && PrimaryArgs(statements)[0] != []
    ensures r.Some? ==> StartsWith(r.value, ", primary key (") && r.value[|r.value| - 1] == ')'
  {
    var pks := PrimaryArgs(statements);
    if |pks| > 0 && |pks[0]| > 0 then
      var r := ", primary key (" + ColumnizeText(wrapIdentifier, Formatter.ColumnList(PrimaryColumns(pks[0]))) + ")";
      assert r[..15] == ", primary key (";
      Some(r)
    else None
  }

  /** The `primary` statements of two runs are those of the first, then of the second. */
  lemma {:induction false} PrimaryArgsAppend(a: seq<AlterStatement>, b: seq<AlterStatement>)
    ensures PrimaryArgs(a + b) == PrimaryArgs(a) + PrimaryArgs(b)
    decreases |a|
  {
    if a == [] {
      assert a + b == b;
    } else {
      assert (a + b)[1..] == a[1..] + b;
      assert (a + b)[0] == a[0];
      PrimaryArgsAppend(a[1..], b);
    }
  }

  /** Only the first `primary` statement counts: anything after it is ignored. */
  lemma PrimaryKeysFirstOnly(wrapIdentifier: string -> string, statements: seq<AlterStatement>, more: seq<AlterStatement>)
    requires PrimaryArgs(statements) != []
    ensures PrimaryKeysSql(wrapIdentifier, statements + more) == PrimaryKeysSql(wrapIdentifier, statements)
  {
    PrimaryArgsAppend(statements, more);
  }

  /** An array first argument is unwrapped: its elements are the key's columns. */
  lemma PrimaryKeysUnwrap(wrapIdentifier: string -> string, columns: seq<Value>, rest: seq<Arg>)
    ensures PrimaryKeysSql(wrapIdentifier, [Primary([List(columns)] + rest)])
            == Some(", primary key (" + Join(Formatter.WrappedColumns(wrapIdentifier, columns), ", ") + ")")
  {
    assert PrimaryArgs([Primary([List(columns)] + rest)]) == [[List(columns)] + rest] by {
      assert [Primary([List(columns)] + rest)][1..] == [];
    }
  }

  /** Any other first argument makes every argument a column, each wrapped in turn. */
  lemma PrimaryKeysPlain(wrapIdentifier: string -> string, args: seq<Arg>)
    requires args != [] && !args[0].List?
    ensures var columns := seq(|args|, i requires 0 <= i < |args| => WrapText(wrapIdentifier, ArgValue(args[i])));
            PrimaryKeysSql(wrapIdentifier, [Primary(args)]) == Some(", primary key (" + Join(columns, ", ") + ")")
  {
    assert PrimaryArgs([Primary(args)]) == [args] by {
      assert [Primary(args)][1..] == [];
    }
    var values := seq(|args|, i requires 0 <= i < |args| => ArgValue(args[i]));
    assert PrimaryColumns(args) == values;
    var columns := seq(|args|, i requires 0 <= i < |args| => WrapText(wrapIdentifier, ArgValue(args[i])));
    assert Formatter.WrappedColumns(wrapIdentifier, values) == columns;
  }

  /**
    `primary(column, name)`: the second argument, meant as the constraint's
    name, is columnized as a second key column.
  */
  lemma PrimaryKeysNamed(wrapIdentifier: string -> string, column: Value, name: Value)
    ensures PrimaryKeysSql(wrapIdentifier, [Primary([Scalar(column), Scalar(name)])])
            == Some(", primary key (" + WrapText(wrapIdentifier, column) + ", " + WrapText(wrapIdentifier, name) + ")")
  {
    var args := [Scalar(column), Scalar(name)];
    PrimaryKeysPlain(wrapIdentifier, args);
    var columns := seq(|args|, i requires 0 <= i < |args| => WrapText(wrapIdentifier, ArgValue(args[i])));
    JoinTwo(columns, ", ");
    ListInFrame(", primary key (", columns[0], ", ", columns[1], ")");
  }

  /** Two items joined are the first, the separator and the second. */
  lemma JoinTwo(items: seq<string>, sep: string)
    requires |items| == 2
    ensures Join(items, sep) == items[0] + sep + items[1]
  {
    assert items[..1] == [items[0]];
  }

  /** A two-item list written inside a frame. */
  lemma ListInFrame(open: string, a: string, sep: string, b: string, close: string)
    ensures open + (a + sep + b) + close == open + a + sep + b + close
  {
  }

  // ---------------------------------------------------------------------
  // Statements
  // ---------------------------------------------------------------------

  /** The compiled columns handed to `createQuery` and `addColumns`. */
  datatype ColumnsSql = ColumnsSql(sql: seq<string>, bindings: seq<seq<Value>>)

  /** `'create table if not exists '` or `'create table '`. */
  function CreateStatement(ifNot: bool): string {
    if ifNot then "create table if not exists " else "create table "
  }

  /**
    The `create table` statement: the columns joined with `", "`, then the
    foreign key clauses, then the primary key clause, then `)`.
  */
  function CreateSql(wrapIdentifier: string -> string, tableName: string, columns: seq<string>,
                     ifNot: bool, statements: seq<AlterStatement>): (r: string)
  {
    CreateStatement(ifNot) + tableName + " (" + Join(columns, ", ") + KeysSql(wrapIdentifier, statements) + ")"
  }

  /** The foreign key clauses followed by the primary key clause, if any. */
  function KeysSql(wrapIdentifier: string -> string, statements: seq<AlterStatement>): string {
    var pk := PrimaryKeysSql(wrapIdentifier, statements);
    ForeignKeysSql(wrapIdentifier, ForeignSpecs(statements)) + (if pk.Some? then pk.value else "")
  }

  /**
    A created table opens with the right statement, the table name and its
    columns, and closes with `)`.
  */
  lemma CreateSqlShape(wrapIdentifier: string -> string, tableName: string, columns: seq<string>,
                       ifNot: bool, statements: seq<AlterStatement>)
    ensures var r := CreateSql(wrapIdentifier, tableName, columns, ifNot, statements);
            StartsWith(r, CreateStatement(ifNot) + tableName + " (" + Join(columns, ", ")) && r[|r| - 1] == ')'
  {
    KeysBetween(CreateStatement(ifNot) + tableName + " (" + Join(columns, ", "), KeysSql(wrapIdentifier, statements));
  }

  lemma KeysBetween(head: string, keys: string)
    ensures StartsWith(head + keys + ")", head) && (head + keys + ")")[|head + keys + ")"| - 1] == ')'
  {
    assert (head + keys + ")")[..|head|] == head;
  }

  /** Appending two texts in turn is appending them together. */
  lemma AppendInTurn(head: string, a: string, b: string)
    ensures head + a + b + ")" == head + (a + b) + ")"
  {
  }

  /** Without key statements, the columns are all there is between the parentheses. */
  lemma CreateSqlWithoutKeys(wrapIdentifier: string -> string, tableName: string, columns: seq<string>,
                             ifNot: bool, statements: seq<AlterStatement>)
    requires forall s :: s in statements ==> s.OtherStatement?
    ensures CreateSql(wrapIdentifier, tableName, columns, ifNot, statements)
            == CreateStatement(ifNot) + tableName + " (" + Join(columns, ", ") + ")"
  {
  }

  /** The bindings of the `i`-th added column; none when the list stops short. */
  function BindingsAt(columns: ColumnsSql, i: nat): seq<Value> {
    if i < |columns.bindings| then columns.bindings[i] else []
  }

  /** One `alter table … add column …` query per column. */
  function AddColumnQuery(tableName: string, columns: ColumnsSql, i: nat): Query
    requires i < |columns.sql|
  {
    Query("alter table " + tableName + " add column " + columns.sql[i], BindingsAt(columns, i), NoOutput)
  }

  /** The name of an index: the wrapped given name, or the generated one. */
  function IndexName(wrapIdentifier: string -> string, indexCommand: (string, string, Formatter.Target) -> string,
                     kind: string, tableNameRaw: string, columns: Formatter.Target, indexName: Value): string
  {
    if Truthy(indexName) then WrapText(wrapIdentifier, indexName) else indexCommand(kind, tableNameRaw, columns)
  }

  /** `create [unique] index N on T (cols)`. */
  function CreateIndexSql(unique: bool, name: string, tableName: string, columnsText: string): string {
    (if unique then "create unique index " else "create index ") + name + " on " + tableName + " (" + columnsText + ")"
  }

  /** The query handing a table's PRAGMA result to the DDL helper. */
  function PragmaSql(tableName: string): string {
    "PRAGMA table_info(" + tableName + ")"
  }

  /** `createTableBlock()`: the compiled columns joined with `,`. */
  function CreateTableBlock(columns: seq<string>): (r: string)
    ensures columns == [] ==> r == ""
  {
    Join(columns, ",")
  }

  /** Columns without commas can be read back from the block. */
  lemma CreateTableBlockSplits(columns: seq<string>)
    requires columns != []
    requires forall i :: 0 <= i < |columns| ==> ',' !in columns[i]
    ensures Split(CreateTableBlock(columns), ',') == columns
  {
    SplitJoin(columns, ',');
  }

  /**
    A SQLite3 table compiler. The formatter, the wrapped table name, the raw
    table name, the index-name generator and the `alterTable` statements
    come from the generic table compiler; `sequence` is what this one adds.
  */
  class SQLite3TableCompiler {
    const formatter: Formatter.Formatter
    const tableName: string
    const tableNameRaw: string
    const indexCommand: (string, string, Formatter.Target) -> string
    const alterTable: seq<AlterStatement>
    var sequence: seq<Query>

    constructor(formatter: Formatter.Formatter, tableName: string, tableNameRaw: string,
                indexCommand: (string, string, Formatter.Target) -> string, alterTable: seq<AlterStatement>)
      ensures this.formatter == formatter && this.tableName == tableName && this.tableNameRaw == tableNameRaw
      ensures this.indexCommand == indexCommand && this.alterTable == alterTable
      ensures sequence == []
    {
      this.formatter := formatter;
      this.tableName := tableName;
      this.tableNameRaw := tableNameRaw;
      this.indexCommand := indexCommand;
      this.alterTable := alterTable;
      sequence := [];
    }

    /** `foreignKeys()`, with its loop over the foreign statements. */
    method ForeignKeys() returns (sql: string)
      ensures sql == ForeignKeysSql(formatter.wrapIdentifier, ForeignSpecs(alterTable))
    {
      var foreignKeys := ForeignSpecs(alterTable);
      ghost var clauses := ForeignClauses(formatter.wrapIdentifier, foreignKeys);
      sql := "";
      var i := 0;
      while i < |foreignKeys|
        invariant 0 <= i <= |foreignKeys|
        invariant sql == Concat(clauses[..i])
      {
        var clause := ForeignKeyClause(foreignKeys[i]);
        ConcatStep(clauses, i);
        sql := sql + clause;
        i := i + 1;
      }
      assert clauses[..i] == clauses;
    }

    /** The body of the `foreignKeys()` loop: one foreign key's clause. */
    method ForeignKeyClause(foreign: ForeignSpec) returns (clause: string)
      ensures clause == ForeignClause(formatter.wrapIdentifier, foreign)
    {
      var column := formatter.Columnize(foreign.column);
      var references := formatter.Columnize(foreign.references);
      var foreignTable := formatter.Wrap(foreign.inTable);
      clause := ", foreign key(" + column + ") references " + ToJsString(foreignTable) + "(" + references + ")";
      if Truthy(foreign.onDelete) {
        clause := clause + " on delete " + ToJsString(foreign.onDelete);
      }
      if Truthy(foreign.onUpdate) {
        clause := clause + " on update " + ToJsString(foreign.onUpdate);
      }
    }

    /** `createQuery(columns, ifNot)`: exactly one `create table` query. */
    method CreateQuery(columns: ColumnsSql, ifNot: bool)
      modifies this
      ensures sequence == old(sequence) + [PlainQuery(CreateSql(formatter.wrapIdentifier, tableName, columns.sql, ifNot, alterTable))]
    {
      var foreignKeys := ForeignKeys();
      var pk := PrimaryKeysSql(formatter.wrapIdentifier, alterTable);
      var primaryKey := if pk.Some? then pk.value else "";
      var head := CreateStatement(ifNot) + tableName + " (" + Join(columns.sql, ", ");
      var sql := head;
      sql := sql + foreignKeys;
      sql := sql + primaryKey;
      sql := sql + ")";
      assert KeysSql(formatter.wrapIdentifier, alterTable) == foreignKeys + primaryKey;
      AppendInTurn(head, foreignKeys, primaryKey);
      sequence := sequence + [PlainQuery(sql)];
    }

    /** `addColumns(columns)`: one query per column, in order, each with its bindings. */
    method AddColumns(columns: ColumnsSql)
      modifies this
      ensures |sequence| == |old(sequence)| + |columns.sql|
      ensures sequence[..|old(sequence)|] == old(sequence)
      ensures forall i :: 0 <= i < |columns.sql| ==> sequence[|old(sequence)| + i] == AddColumnQuery(tableName, columns, i)
    {
      var i := 0;
      while i < |columns.sql|
        invariant 0 <= i <= |columns.sql|
        invariant |sequence| == |old(sequence)| + i
        invariant sequence[..|old(sequence)|] == old(sequence)
        invariant forall k :: 0 <= k < i ==> sequence[|old(sequence)| + k] == AddColumnQuery(tableName, columns, k)
      {
        sequence := sequence + [AddColumnQuery(tableName, columns, i)];
        i := i + 1;
      }
    }

    /** `dropUnique(columns, indexName)`. */
    method DropUnique(columns: Formatter.Target, indexName: Value)
      modifies this
      ensures sequence == old(sequence)
              + [PlainQuery("drop index " + IndexName(formatter.wrapIdentifier, indexCommand, "unique", tableNameRaw, columns, indexName))]
    {
      var name := IndexName(formatter.wrapIdentifier, indexCommand, "unique", tableNameRaw, columns, indexName);
      sequence := sequence + [PlainQuery("drop index " + name)];
    }

    /** `dropIndex(columns, indexName)`. */
    method DropIndex(columns: Formatter.Target, indexName: Value)
      modifies this
      ensures sequence == old(sequence)
              + [PlainQuery("drop index " + IndexName(formatter.wrapIdentifier, indexCommand, "index", tableNameRaw, columns, indexName))]
    {
      var name := IndexName(formatter.wrapIdentifier, indexCommand, "index", tableNameRaw, columns, indexName);
      sequence := sequence + [PlainQuery("drop index " + name)];
    }

    /** `unique(columns, indexName)`. */
    method Unique(columns: Formatter.Target, indexName: Value)
      modifies this
      ensures sequence == old(sequence)
              + [PlainQuery(CreateIndexSql(true, IndexName(formatter.wrapIdentifier, indexCommand, "unique", tableNameRaw, columns, indexName),
                                           tableName, ColumnizeText(formatter.wrapIdentifier, columns)))]
    {
      var name := IndexName(formatter.wrapIdentifier, indexCommand, "unique", tableNameRaw, columns, indexName);
      var columnsText := formatter.Columnize(columns);
      sequence := sequence + [PlainQuery("create unique index " + name + " on " + tableName + " (" + columnsText + ")")];
    }

    /** `index(columns, indexName)`. */
    method Index(columns: Formatter.Target, indexName: Value)
      modifies this
      ensures sequence == old(sequence)
              + [PlainQuery(CreateIndexSql(false, IndexName(formatter.wrapIdentifier, indexCommand, "index", tableNameRaw, columns, indexName),
                                           tableName, ColumnizeText(formatter.wrapIdentifier, columns)))]
    {
      var name := IndexName(formatter.wrapIdentifier, indexCommand, "index", tableNameRaw, columns, indexName);
      var columnsText := formatter.Columnize(columns);
      sequence := sequence + [PlainQuery("create index " + name + " on " + tableName + " (" + columnsText + ")")];
    }

    /** `renameColumn(from, to)`: one PRAGMA query whose output renames through the DDL helper. */
    method RenameColumn(from: string, to: string)
      modifies this
      ensures sequence == old(sequence) + [Query(PragmaSql(tableName), [], RenameColumnHandOff(from, to))]
    {
      sequence := sequence + [Query("PRAGMA table_info(" + tableName + ")", [], RenameColumnHandOff(from, to))];
    }

    /** `dropColumn(column)`: one PRAGMA query whose output drops through the DDL helper. */
    method DropColumn(column: string)
      modifies this
      ensures sequence == old(sequence) + [Query(PragmaSql(tableName), [], DropColumnHandOff(column))]
    {
      sequence := sequence + [Query("PRAGMA table_info(" + tableName + ")", [], DropColumnHandOff(column))];
    }
  }
}
