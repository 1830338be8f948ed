/**
  The SQLite3 schema helper behind `renameColumn` and `dropColumn`: SQLite
  of that time has no `ALTER TABLE ... RENAME COLUMN` or `DROP COLUMN`, so
  the helper rebuilds the table. Inside one transaction it copies the
  table into a temporary one, drops the original, re-creates it from the
  rewritten `CREATE TABLE` statement and copies the rows back, transformed,
  in batches of twenty.

  The engine is modelled by what these statements do to a map from table
  names to tables; the SQL text is kept only where the helper computes it.
*/
module Ddl {
  import opened Results
  import opened Js
  import opened Text
  import opened Dash
  import opened DdlRewrite

  // ---------------------------------------------------------------------
  // The engine
  // ---------------------------------------------------------------------

  /** A table as the engine keeps it: the statement that created it and its rows, in order. */
  datatype Table = Table(sql: string, rows: seq<Object>)

  type Tables = map<string, Table>

  /** A name inside one pair of backticks or double quotes. */
  predicate IsQuoted(n: string) {
    |n| >= 2 && (n[0] == '`' || n[0] == '"') && n[|n| - 1] == n[0]
  }

  /** The name the engine reads from a (possibly quoted) name token. */
  function Unquote(n: string): string {
    if IsQuoted(n) then n[1..|n| - 1] else n
  }

  /** The table a `CREATE TABLE` statement creates; nothing when the engine cannot read it. */
  function CreatedName(sql: string): Option<string> {
    match MatchCreate(sql)
    case None => None
    case Some(m) => Some(Unquote(m.tableName))
  }

  function NoSuchTable(name: string): DdlError {
    StatementFailed("SQLITE_ERROR: no such table: " + name)
  }

  /** Running a `CREATE TABLE` statement: a new, empty table. */
  function CreateIn(t: Tables, sql: string): Result<Tables, DdlError> {
    match CreatedName(sql)
    case None => Failure(StatementFailed("SQLITE_ERROR: syntax error"))
    case Some(n) =>
      if n in t then Failure(StatementFailed("SQLITE_ERROR: table " + n + " already exists"))
      else Success(t[n := Table(sql, [])])
  }

  /** `DROP TABLE "<name>"` */
  function DropIn(t: Tables, name: string): Result<Tables, DdlError> {
    if name in t then Success(t - {name}) else Failure(NoSuchTable(name))
  }

  /** `SELECT * FROM "<name>"` */
  function RowsOf(t: Tables, name: string): Result<seq<Object>, DdlError> {
    if name in t then Success(t[name].rows) else Failure(NoSuchTable(name))
  }

  /** The tables once `rows` are added at the end of table `name`, when there is such a table. */
  function Appended(t: Tables, name: string, rows: seq<Object>): Tables {
    if name in t && rows != [] then t[name := Table(t[name].sql, t[name].rows + rows)] else t
  }

  /** One `INSERT` of `rows` into table `name`. */
  function InsertIn(t: Tables, name: string, rows: seq<Object>): Result<Tables, DdlError> {
    if name in t then Success(Appended(t, name, rows)) else Failure(NoSuchTable(name))
  }

  /** All of `rows` inserted into `name`, in any number of statements: none at all for no rows. */
  function InsertAll(t: Tables, name: string, rows: seq<Object>): Result<Tables, DdlError> {
    if rows == [] then Success(t) else InsertIn(t, name, rows)
  }

  /** Adding rows in two goes adds them in one. */
  lemma AppendedTwice(t: Tables, name: string, a: seq<Object>, b: seq<Object>)
    ensures Appended(Appended(t, name, a), name, b) == Appended(t, name, a + b)
  {
    if name in t && a != [] && b != [] {
      assert t[name].rows + a + b == t[name].rows + (a + b);
    } else if a == [] {
      assert a + b == b;
    } else if b == [] {
      assert a + b == a;
    }
  }

  /** Rows inserted into a table just created hold exactly those rows. */
  lemma InsertIntoCreated(t: Tables, name: string, sql: string, rows: seq<Object>)
    ensures InsertAll(t[name := Table(sql, [])], name, rows) == Success(t[name := Table(sql, rows)])
  {
    if rows != [] {
      assert [] + rows == rows;
      assert t[name := Table(sql, [])][name := Table(sql, [] + rows)] == t[name := Table(sql, rows)];
    }
  }

  /** The statement's outcome as the caller sees it. */
  function Status(r: Result<Tables, DdlError>): Result<(), DdlError> {
    if r.Success? then Success(()) else Failure(r.error)
  }

  /** The tables after a statement: unchanged when it failed. */
  function After(t: Tables, r: Result<Tables, DdlError>): Tables {
    if r.Success? then r.value else t
  }

  /** The engine behind a transaction: its tables, and the statements the helper runs on them. */
  class Database {
    var tables: Tables

    constructor(tables: Tables)
      ensures this.tables == tables
    {
      this.tables := tables;
    }

    /** `SELECT name, sql FROM sqlite_master WHERE type="table" AND name="<name>"`: the `sql` of each row. */
    method MasterSql(name: string) returns (rows: seq<string>)
      ensures name in tables ==> rows == [tables[name].sql]
      ensures name !in tables ==> rows == []
    {
      rows := if name in tables then [tables[name].sql] else [];
    }

    method Create(sql: string) returns (r: Result<(), DdlError>)
      modifies this
      ensures r == Status(CreateIn(old(tables), sql))
      ensures tables == After(old(tables), CreateIn(old(tables), sql))
    {
      var out := CreateIn(tables, sql);
      r := Status(out);
      tables := After(tables, out);
    }

    method Drop(name: string) returns (r: Result<(), DdlError>)
      modifies this
      ensures r == Status(DropIn(old(tables), name))
      ensures tables == After(old(tables), DropIn(old(tables), name))
    {
      var out := DropIn(tables, name);
      r := Status(out);
      tables := After(tables, out);
    }

    method SelectAll(name: string) returns (r: Result<seq<Object>, DdlError>)
      ensures r.Success? <==> name in tables
      ensures r.Success? ==> r.value == tables[name].rows
      ensures r.Failure? ==> r.error == NoSuchTable(name)
    {
      r := RowsOf(tables, name);
    }

    method Insert(name: string, rows: seq<Object>) returns (r: Result<(), DdlError>)
      modifies this
      ensures r == Status(InsertIn(old(tables), name, rows))
      ensures tables == After(old(tables), InsertIn(old(tables), name, rows))
    {
      var out := InsertIn(tables, name, rows);
      r := Status(out);
      tables := After(tables, out);
    }

    /** `ROLLBACK`: the tables as they were when the transaction began. */
    method Restore(saved: Tables)
      modifies this
      ensures tables == saved
    {
      tables := saved;
    }
  }

  // ---------------------------------------------------------------------
  // Batches
  // ---------------------------------------------------------------------

  /** The batch size `insertChunked` uses; its `amount` argument is not read. */
  const ChunkSize: nat := 20

  /** `rows` cut into consecutive batches of twenty, the last one shorter. */
  function Chunks<T>(xs: seq<T>): seq<seq<T>>
    decreases |xs|
  {
    if |xs| == 0 then []
    else if |xs| <= ChunkSize then [xs]
    else [xs[..ChunkSize]] + Chunks(xs[ChunkSize..])
  }

  function Flatten<T>(xss: seq<seq<T>>): seq<T>
    decreases |xss|
  {
    if |xss| == 0 then [] else xss[0] + Flatten(xss[1..])
  }

  /** The batches, one after the other, are the rows: each row once, in order. */
  lemma {:induction false} ChunksFlatten<T>(xs: seq<T>)
    ensures Flatten(Chunks(xs)) == xs
    decreases |xs|
  {
    if |xs| == 0 {
    } else if |xs| <= ChunkSize {
      assert Chunks(xs) == [xs];
      assert [xs][1..] == [];
      assert Flatten([xs]) == xs + Flatten<T>([]);
    } else {
      var c := Chunks(xs);
      ChunksFlatten(xs[ChunkSize..]);
      assert c[0] == xs[..ChunkSize];
      assert c[1..] == Chunks(xs[ChunkSize..]);
      assert xs == xs[..ChunkSize] + xs[ChunkSize..];
    }
  }

  /**
    Every batch holds one to twenty rows, all but the last exactly twenty,
    and there are as many batches as twenty goes into the row count,
    rounded up.
  */
  lemma {:induction false} ChunksSizes<T>(xs: seq<T>)
    ensures forall i :: 0 <= i < |Chunks(xs)| ==> 0 < |Chunks(xs)[i]| <= ChunkSize
    ensures forall i :: 0 <= i < |Chunks(xs)| - 1 ==> |Chunks(xs)[i]| == ChunkSize
    ensures |Chunks(xs)| == (|xs| + ChunkSize - 1) / ChunkSize
    decreases |xs|
  {
    if |xs| > ChunkSize {
      var rest := xs[ChunkSize..];
      ChunksSizes(rest);
      var c := Chunks(xs);
      assert c == [xs[..ChunkSize]] + Chunks(rest);
      forall i | 1 <= i < |c|
        ensures c[i] == Chunks(rest)[i - 1]
      {
      }
    }
  }

  /** A full run of batches followed by one more batch. */
  lemma {:induction false} ChunksSnoc<T>(xs: seq<T>, b: seq<T>)
    requires |xs| % ChunkSize == 0 && 0 < |b| <= ChunkSize
    ensures Chunks(xs + b) == Chunks(xs) + [b]
    decreases |xs|
  {
    if |xs| == 0 {
      assert xs + b == b;
    } else {
      assert (xs + b)[..ChunkSize] == xs[..ChunkSize];
      assert (xs + b)[ChunkSize..] == xs[ChunkSize..] + b;
      ChunksSnoc(xs[ChunkSize..], b);
      if |xs| == ChunkSize {
        assert xs[ChunkSize..] == [];
        assert xs[..ChunkSize] == xs;
      }
    }
  }

  /**
    One batch flushed: the rows inserted so far and the batches so far both
    grow by that batch.
  */
  lemma FlushStep(t0: Tables, target: string, f: Object -> Object, result: seq<Object>,
                  done: nat, memo: nat, batch: seq<Object>)
    requires done < memo <= |result| && batch == result[done..memo]
    requires done % ChunkSize == 0 && |batch| <= ChunkSize
    ensures Appended(Appended(t0, target, MapRows(f, result[..done])), target, MapRows(f, batch))
            == Appended(t0, target, MapRows(f, result[..memo]))
    ensures Chunks(result[..done]) + [batch] == Chunks(result[..memo])
  {
    assert result[..memo] == result[..done] + batch;
    AppendedTwice(t0, target, MapRows(f, result[..done]), MapRows(f, batch));
    MapRowsAppend(f, result[..done], batch);
    ChunksSnoc(result[..done], batch);
  }

  /** `map(rows, transform)` */
  function MapRows(f: Object -> Object, rows: seq<Object>): (r: seq<Object>)
    ensures |r| == |rows|
    ensures forall i :: 0 <= i < |rows| ==> r[i] == f(rows[i])
  {
    seq(|rows|, i requires 0 <= i < |rows| => f(rows[i]))
  }

  lemma MapRowsAppend(f: Object -> Object, a: seq<Object>, b: seq<Object>)
    ensures MapRows(f, a + b) == MapRows(f, a) + MapRows(f, b)
  {
  }

  /** `identity`, the transform `copyData` leaves out. */
  function Identity(row: Object): Object {
    row
  }

  lemma MapRowsIdentity(rows: seq<Object>)
    ensures MapRows(Identity, rows) == rows
  {
  }

  // ---------------------------------------------------------------------
  // Row transforms
  // ---------------------------------------------------------------------

  /**
    The rename's transform with the key passed to `omit` as a list:
    `row[to] = row[from]`, then the copy without `from`.
  */
  function RenamedRow(row: Object, from: string, to: string): (r: Object)
    ensures row.Valid() ==> r.Valid()
    ensures from !in r.entries
    ensures to in r.entries <==> to != from
    ensures to != from ==> r.entries[to] == row.Get(from)
    ensures forall k :: k != from && k != to ==> (k in r.entries <==> k in row.entries)
    ensures forall k :: k != from && k != to && k in r.entries ==> r.entries[k] == row.entries[k]
  {
    var moved := row.Set(to, row.Get(from));
    assert forall k :: Excluded(KeyList([from]), k) <==> k == from;
    Omit(moved, KeyList([from]))
  }

  function RenameRow(from: string, to: string): Object -> Object {
    row => RenamedRow(row, from, to)
  }

  /** The rename's transform as written: `omit(row, from)` with the name as a string. */
  function RenamedRowAsWritten(row: Object, from: string, to: string): Object {
    Omit(row.Set(to, row.Get(from)), KeyText(from))
  }

  /**
    As written, a new name that occurs inside the old one is removed again
    straight after it is set: renaming `ab` to `b` loses the column's values.
  */
  lemma RenameAsWrittenLosesTarget(row: Object, from: string, to: string)
    requires from != "" && Occurs(from, to)
    ensures to !in RenamedRowAsWritten(row, from, to).entries
  {
    OmitTextDropsSubstrings(row.Set(to, row.Get(from)), from, to);
  }

  /** The drop's transform with the key passed to `omit` as a list: the row without `column`. */
  function DroppedRow(row: Object, column: string): (r: Object)
    ensures row.Valid() ==> r.Valid()
    ensures forall k :: k in r.entries <==> k in row.entries && k != column
    ensures forall k :: k in r.entries ==> r.entries[k] == row.entries[k]
  {
    assert forall k :: Excluded(KeyList([column]), k) <==> k == column;
    Omit(row, KeyList([column]))
  }

  function DropRow(column: string): Object -> Object {
    row => DroppedRow(row, column)
  }

  /** The rename's row transform in the given version. */
  function RenameRowIn(v: Version, from: string, to: string): Object -> Object {
    match v
    case AsWritten => row => RenamedRowAsWritten(row, from, to)
    case Corrected => RenameRow(from, to)
  }

  /** The drop's row transform in the given version. */
  function DropRowIn(v: Version, column: string): Object -> Object {
    match v
    case AsWritten => row => DroppedRowAsWritten(row, column)
    case Corrected => DropRow(column)
  }

  /** The drop's transform as written: `omit(row, column)` with the name as a string. */
  function DroppedRowAsWritten(row: Object, column: string): Object {
    Omit(row, KeyText(column))
  }

  /** As written, dropping column `ab` also drops `a` and `b` from every row copied back. */
  lemma DropAsWrittenLosesSubstrings(row: Object, column: string, k: string)
    requires column != "" && Occurs(column, k)
    ensures k !in DroppedRowAsWritten(row, column).entries
  {
    OmitTextDropsSubstrings(row, column, k);
  }

  // ---------------------------------------------------------------------
  // The temporary table's statement
  // ---------------------------------------------------------------------

  const TempPrefix: string := "_knex_temp_alter"

  /** `createTable.sql.replace(tableName, alteredName)`: the first occurrence anywhere in the statement. */
  function AsWrittenTempTableSql(sql: string, tableName: string, alteredName: string): string {
    ReplaceFirst(sql, tableName, alteredName)
  }

  /**
    As written, a table whose name occurs in `CREATE TABLE ` cannot be
    altered: for a table `T` the replacement hits the `T` of `CREATE`, and
    the engine cannot read the statement.
  */
  lemma AsWrittenTempTableHitsKeyword(sql: string, alteredName: string)
    requires StartsWith(sql, CreatePrefix)
    requires alteredName != [] && alteredName[0] != 'T'
    ensures CreatedName(AsWrittenTempTableSql(sql, "T", alteredName)).None?
    ensures CreateIn(map[], AsWrittenTempTableSql(sql, "T", alteredName)).Failure?
  {
    assert sql[..|CreatePrefix|] == CreatePrefix;
    assert OccursAt(sql, "T", 4) by {
      assert sql[4] == CreatePrefix[4];
      assert sql[4..5] == [sql[4]];
    }
    forall j | 0 <= j < 4
      ensures !OccursAt(sql, "T", j)
    {
      assert sql[j] == CreatePrefix[j];
      assert sql[j..j + 1] == [sql[j]];
    }
    var r := AsWrittenTempTableSql(sql, "T", alteredName);
    assert r == sql[..4] + alteredName + sql[5..];
    assert r[4] == alteredName[0];
    assert !StartsWith(r, CreatePrefix);
  }

  /** The name token with the temporary name in place of the table's, inside the same quotes. */
  function TempName(n: string, alt: string): string {
    if IsQuoted(n) then [n[0]] + alt + [n[0]] else alt
  }

  /** The stored statement with the table's own name, and only that, replaced by `alt`. */
  function TempTableSql(sql: string, alt: string): string {
    match MatchCreate(sql)
    case None => sql
    case Some(m) => CreatePrefix + TempName(m.tableName, alt) + sql[|CreatePrefix| + |m.tableName|..]
  }

  /** The temporary table's statement in the given version. */
  function TempTableSqlIn(v: Version, sql: string, tableName: string, alt: string): string {
    match v
    case AsWritten => AsWrittenTempTableSql(sql, tableName, alt)
    case Corrected => TempTableSql(sql, alt)
  }

  /** Where the name token sits in a built statement: after the prefix, and inside the quotes if any. */
  function NameAt(n: string): nat {
    |CreatePrefix| + if IsQuoted(n) then 1 else 0
  }

  /**
    When the table's raw name occurs first at its own name token, the
    replacement as written gives the corrected statement.
  */
  lemma AsWrittenTempAgrees(n: string, defs: string, alt: string)
    requires PlainName(n) && SingleLine(defs) && TempNameOk(alt)
    requires IndexOf(Built(n, defs), Unquote(n)) == NameAt(n)
    ensures AsWrittenTempTableSql(Built(n, defs), Unquote(n), alt) == TempTableSql(Built(n, defs), alt)
  {
    var u := Unquote(n);
    var q := QuoteOf(n);
    var tail := " (" + defs + ")";
    var sql := Built(n, defs);
    QuotesAround(n);
    BuiltTail(n, defs);
    Regroup(CreatePrefix, q, u, tail);
    assert sql == (CreatePrefix + q) + u + (q + tail);
    ReplaceFirstAround(CreatePrefix + q, u, q + tail, alt);
    var written := AsWrittenTempTableSql(sql, u, alt);
    assert written == (CreatePrefix + q) + alt + (q + tail);
    TempTableSqlBuilt(n, defs, alt);
    BuiltTail(TempName(n, alt), defs);
    assert TempName(n, alt) == q + alt + q;
    Regroup(CreatePrefix, q, alt, tail);
    assert written == Built(TempName(n, alt), defs);
  }

  /** Replacing a first occurrence that sits right after `pre` swaps just that occurrence. */
  lemma ReplaceFirstAround(pre: string, u: string, post: string, alt: string)
    requires IndexOf(pre + u + post, u) == |pre|
    ensures ReplaceFirst(pre + u + post, u, alt) == pre + alt + post
  {
    SliceAround(pre, u, post);
  }

  /** Regrouping the name token's pieces around the temporary name. */
  lemma Regroup(p: string, q: string, a: string, t: string)
    ensures (p + q) + a + (q + t) == p + (q + a + q) + t
  {
  }

  /** The quote that opens and closes a quoted name, and nothing for a bare one. */
  function QuoteOf(n: string): string {
    if IsQuoted(n) then [n[0]] else []
  }

  /** A name token is its unquoted name inside its quotes. */
  lemma QuotesAround(n: string)
    ensures n == QuoteOf(n) + Unquote(n) + QuoteOf(n)
  {
    if IsQuoted(n) {
      assert n == [n[0]] + n[1..|n| - 1] + [n[|n| - 1]];
    }
  }

  /** The pieces around the middle of a three-part string. */
  lemma SliceAround(x: string, y: string, z: string)
    ensures (x + y + z)[..|x|] == x && (x + y + z)[|x| + |y|..] == z
  {
  }

  /** A temporary name the engine reads back as itself. */
  predicate TempNameOk(alt: string) {
    PlainName(alt) && alt[0] != '`' && alt[0] != '"'
  }

  /** The generated temporary names qualify. */
  lemma TempPrefixNameOk(n: nat)
    ensures TempNameOk(TempPrefix + NatToString(n))
  {
    var s := TempPrefix + NatToString(n);
    forall k | 0 <= k < |s|
      ensures !IsSpace(s[k]) && s[k] != '(' && s[k] != ','
    {
      if k >= |TempPrefix| {
        assert s[k] == NatToString(n)[k - |TempPrefix|];
      }
    }
  }

  /** The engine reads a stored statement's name without its quotes. */
  lemma CreatedNameBuilt(n: string, defs: string)
    requires PlainName(n) && SingleLine(defs)
    ensures CreatedName(Built(n, defs)) == Some(Unquote(n))
  {
    MatchCreateBuilt(n, defs);
  }

  /** On a stored statement, the temporary statement differs only in the name, and creates table `alt`. */
  lemma TempTableSqlBuilt(n: string, defs: string, alt: string)
    requires PlainName(n) && SingleLine(defs) && TempNameOk(alt)
    ensures TempTableSql(Built(n, defs), alt) == Built(TempName(n, alt), defs)
    ensures CreatedName(TempTableSql(Built(n, defs), alt)) == Some(alt)
  {
    MatchCreateBuilt(n, defs);
    var m := TempName(n, alt);
    BuiltTail(n, defs);
    BuiltTail(m, defs);
    assert TempTableSql(Built(n, defs), alt) == CreatePrefix + m + (" (" + defs + ")");
    TempNamePlain(n, alt);
    CreatedNameBuilt(m, defs);
  }

  /** A built statement is the prefix and the name, then ` (`, the column list and `)`. */
  lemma BuiltTail(n: string, defs: string)
    ensures Built(n, defs) == CreatePrefix + n + (" (" + defs + ")")
    ensures Built(n, defs)[|CreatePrefix| + |n|..] == " (" + defs + ")"
  {
    var tail := " (" + defs + ")";
    assert Built(n, defs) == (CreatePrefix + n) + tail;
    assert ((CreatePrefix + n) + tail)[|CreatePrefix + n|..] == tail;
  }

  /** The temporary name token is a plain name the engine reads as `alt`. */
  lemma TempNamePlain(n: string, alt: string)
    requires PlainName(n) && TempNameOk(alt)
    ensures PlainName(TempName(n, alt)) && Unquote(TempName(n, alt)) == alt
  {
    var m := TempName(n, alt);
    if IsQuoted(n) {
      forall k | 0 <= k < |m|
        ensures !IsSpace(m[k]) && m[k] != '(' && m[k] != ','
      {
        if 0 < k < |m| - 1 {
          assert m[k] == alt[k - 1];
        }
      }
      assert m[1..|m| - 1] == alt;
    }
  }

  // ---------------------------------------------------------------------
  // Single-line column lists
  // ---------------------------------------------------------------------

  lemma SingleLineAppend(a: string, b: string)
    ensures SingleLine(a + b) <==> SingleLine(a) && SingleLine(b)
  {
    if SingleLine(a + b) {
      forall k | 0 <= k < |a|
        ensures !IsLineTerminator(a[k])
      {
        assert a[k] == (a + b)[k];
      }
      forall k | 0 <= k < |b|
        ensures !IsLineTerminator(b[k])
      {
        assert b[k] == (a + b)[|a| + k];
      }
    }
    if SingleLine(a) && SingleLine(b) {
      forall k | 0 <= k < |a + b|
        ensures !IsLineTerminator((a + b)[k])
      {
        if k < |a| {
          assert (a + b)[k] == a[k];
        } else {
          assert (a + b)[k] == b[k - |a|];
        }
      }
    }
  }

  /** A column list is on one line exactly when each of its items is. */
  lemma {:induction false} JoinSingleLine(xs: seq<string>)
    ensures SingleLine(Join(xs, ", ")) <==> forall k :: 0 <= k < |xs| ==> SingleLine(xs[k])
    decreases |xs|
  {
    if |xs| > 1 {
      var init := xs[..|xs| - 1];
      JoinSingleLine(init);
      SingleLineAppend(Join(init, ", ") + ", ", xs[|xs| - 1]);
      SingleLineAppend(Join(init, ", "), ", ");
      assert SingleLine(", ");
      forall k | 0 <= k < |xs| - 1
        ensures init[k] == xs[k]
      {
      }
    }
  }

  // ---------------------------------------------------------------------
  // PRAGMA table_info
  // ---------------------------------------------------------------------

  /** One row of `PRAGMA table_info`. */
  datatype PragmaColumn = PragmaColumn(cid: int, name: string, columnType: string, notNull: bool, defaultValue: Value, primaryKey: int)

  /** `columns.find(item => item.name === column)` */
  function FindColumn(columns: seq<PragmaColumn>, column: string): (r: Option<PragmaColumn>)
    ensures r.Some? <==> exists i :: 0 <= i < |columns| && columns[i].name == column
    ensures r.Some? ==> r.value.name == column
    ensures r.Some? ==> exists i :: 0 <= i < |columns| && columns[i] == r.value &&
                          forall j :: 0 <= j < i ==> columns[j].name != column
    decreases |columns|
  {
    if columns == [] then None
    else if columns[0].name == column then Some(columns[0])
    else
      var r := FindColumn(columns[1..], column);
      assert forall i :: 1 <= i < |columns| ==> columns[i] == columns[1..][i - 1];
      if r.Some? then
        var i :| 0 <= i < |columns[1..]| && columns[1..][i] == r.value &&
                 forall j :: 0 <= j < i ==> columns[1..][j].name != column;
        assert columns[i + 1] == r.value;
        assert forall j :: 1 <= j < i + 1 ==> columns[j].name != column;
        r
      else
        r
  }

  // ---------------------------------------------------------------------
  // The helper
  // ---------------------------------------------------------------------

  class SQLite3Ddl {
    const tableName: string
    const alteredName: string
    const pragma: Option<seq<PragmaColumn>>
    const wrapIdentifier: string -> string
    const db: Database

    /**
      The table's raw name, the `PRAGMA table_info` rows, the dialect's
      identifier wrapping, the connection's engine, and a fresh temporary
      name from `uniqueId`.
    */
    constructor(tableNameRaw: string, pragma: Option<seq<PragmaColumn>>, wrapIdentifier: string -> string,
                db: Database, ids: IdGenerator)
      modifies ids
      ensures this.tableName == tableNameRaw && this.pragma == pragma
      ensures this.wrapIdentifier == wrapIdentifier && this.db == db
      ensures ids.idCounter == old(ids.idCounter) + 1
      ensures alteredName == TempPrefix + NatToString(ids.idCounter)
    {
      var id := ids.UniqueId(Str(TempPrefix));
      this.tableName := tableNameRaw;
      this.pragma := pragma;
      this.wrapIdentifier := wrapIdentifier;
      this.db := db;
      this.alteredName := id;
    }

    /** `this.pragma || []` */
    function Columns(): seq<PragmaColumn> {
      if pragma.Some? then pragma.value else []
    }

    /** `getColumn(column)`: the first pragma row with that name, or the error naming column and table. */
    function GetColumn(column: string): (r: Result<PragmaColumn, DdlError>)
      ensures r.Success? <==> exists i :: 0 <= i < |Columns()| && Columns()[i].name == column
      ensures r.Success? ==> r.value.name == column && r.value in Columns()
      ensures r.Failure? ==> r.error == ColumnNotFound(column, tableName)
    {
      match FindColumn(Columns(), column)
      case None => Failure(ColumnNotFound(column, tableName))
      case Some(c) => Success(c)
    }

    // -- the steps, on the tables ------------------------------------------

    /** `copyData`: every row of the table into the temporary one. */
    function CopyStep(t: Tables): Result<Tables, DdlError> {
      var rows :- RowsOf(t, tableName);
      InsertAll(t, alteredName, rows)
    }

    /** `reinsertData(iterator)`: every row of the temporary table, transformed, into the table. */
    function ReinsertStep(t: Tables, transform: Object -> Object): Result<Tables, DdlError> {
      var rows :- RowsOf(t, alteredName);
      InsertAll(t, tableName, MapRows(transform, rows))
    }

    /** `createTempTable(createTable)`: the stored statement with the temporary name, in the given version. */
    function TempSql(v: Version, createSql: string): string {
      TempTableSqlIn(v, createSql, tableName, alteredName)
    }

    /**
      The rebuild: create the temporary table, copy the rows over, drop the
      original, run the rewritten statement, copy the rows back through the
      transform, drop the temporary table. The first failure ends it.
    */
    function AlterSteps(v: Version, t: Tables, createSql: string, newSql: string, transform: Object -> Object): Result<Tables, DdlError> {
      var t1 :- CreateIn(t, TempSql(v, createSql));
      StepsAfterTemp(t1, newSql, transform)
    }

    /** The five steps after the temporary table exists. */
    function StepsAfterTemp(t1: Tables, newSql: string, transform: Object -> Object): Result<Tables, DdlError> {
      var t2 :- CopyStep(t1);
      var t3 :- DropIn(t2, tableName);
      var t4 :- CreateIn(t3, newSql);
      var t5 :- ReinsertStep(t4, transform);
      DropIn(t5, alteredName)
    }

    /**
      When both statements create the tables they should and the temporary
      name is free, the rebuild leaves every other table as it was and the
      table with the new statement and its rows transformed, in order.
    */
    lemma AlterOutcome(v: Version, t: Tables, createSql: string, newSql: string, f: Object -> Object)
      requires tableName in t && alteredName !in t && alteredName != tableName
      requires CreatedName(TempSql(v, createSql)) == Some(alteredName)
      requires CreatedName(newSql) == Some(tableName)
      ensures AlterSteps(v, t, createSql, newSql, f)
              == Success(t[tableName := Table(newSql, MapRows(f, t[tableName].rows))])
    {
      var tempSql := TempSql(v, createSql);
      var rows := t[tableName].rows;
      var t1 := t[alteredName := Table(tempSql, [])];
      var t2 := t[alteredName := Table(tempSql, rows)];
      var t3 := t2 - {tableName};
      var t4 := t3[tableName := Table(newSql, [])];
      var t5 := t3[tableName := Table(newSql, MapRows(f, rows))];
      assert CreateIn(t, tempSql) == Success(t1);
      assert RowsOf(t1, tableName) == Success(rows);
      InsertIntoCreated(t, alteredName, tempSql, rows);
      assert DropIn(t2, tableName) == Success(t3);
      assert CreateIn(t3, newSql) == Success(t4);
      assert RowsOf(t4, alteredName) == Success(rows);
      InsertIntoCreated(t3, tableName, newSql, MapRows(f, rows));
      AlterChain(v, t, createSql, newSql, f, t1, t2, t3, t4, t5);
      TempDropped(t, rows, tempSql, newSql, MapRows(f, rows));
    }

    /** When every step succeeds, the rebuild ends with the last drop. */
    lemma AlterChain(v: Version, t: Tables, createSql: string, newSql: string, f: Object -> Object,
                     t1: Tables, t2: Tables, t3: Tables, t4: Tables, t5: Tables)
      requires CreateIn(t, TempSql(v, createSql)) == Success(t1)
      requires CopyStep(t1) == Success(t2)
      requires DropIn(t2, tableName) == Success(t3)
      requires CreateIn(t3, newSql) == Success(t4)
      requires ReinsertStep(t4, f) == Success(t5)
      ensures AlterSteps(v, t, createSql, newSql, f) == DropIn(t5, alteredName)
    {
    }

    /** The tables at the end of the rebuild: only the altered table differs. */
    lemma TempDropped(t: Tables, rows: seq<Object>, tempSql: string, newSql: string, newRows: seq<Object>)
      requires tableName in t && alteredName !in t && alteredName != tableName
      ensures var t5 := (t[alteredName := Table(tempSql, rows)] - {tableName})[tableName := Table(newSql, newRows)];
              DropIn(t5, alteredName) == Success(t[tableName := Table(newSql, newRows)])
    {
      var t5 := (t[alteredName := Table(tempSql, rows)] - {tableName})[tableName := Table(newSql, newRows)];
      var expected := t[tableName := Table(newSql, newRows)];
      assert (t5 - {alteredName}).Keys == expected.Keys;
      assert t5 - {alteredName} == expected;
    }

    // -- the steps, run -----------------------------------------------------

    /**
      `insertChunked(amount, target, iterator)(result)`: count the rows,
      collect them, and insert the collected batch, transformed, whenever
      the count reaches a multiple of twenty or the last row. Answers the
      count; `batches` are the batches inserted.
    */
    method InsertChunked(amount: int, target: string, result: seq<Object>, transform: Object -> Object)
      returns (r: Result<nat, DdlError>, batches: seq<seq<Object>>)
      modifies db
      ensures var out := InsertAll(old(db.tables), target, MapRows(transform, result));
              && (out.Success? ==> r == Success(|result|) && batches == Chunks(result))
              && (out.Failure? ==> r == Failure(out.error) && batches == [])
              && db.tables == After(old(db.tables), out)
    {
      var memo: nat := 0;
      var batch: seq<Object> := [];
      batches := [];
      while memo < |result|
        invariant memo <= |result|
        invariant |batch| <= memo && |batch| < ChunkSize
        invariant (memo - |batch|) % ChunkSize == 0 || memo == |result|
        invariant memo == |result| ==> batch == []
        invariant batch == result[memo - |batch|..memo]
        invariant batches == Chunks(result[..memo - |batch|])
        invariant memo - |batch| > 0 ==> target in old(db.tables)
        invariant db.tables == Appended(old(db.tables), target, MapRows(transform, result[..memo - |batch|]))
      {
        var done := memo - |batch|;
        var row := result[memo];
        memo := memo + 1;
        batch := batch + [row];
        if memo % ChunkSize == 0 || memo == |result| {
          var ok := db.Insert(target, MapRows(transform, batch));
          if ok.Failure? {
            assert target !in old(db.tables);
            return Failure(ok.error), [];
          }
          FlushStep(old(db.tables), target, transform, result, done, memo, batch);
          batches := batches + [batch];
          batch := [];
        }
      }
      assert result[..memo] == result;
      r := Success(memo);
    }

    /**
      `createTempTable(createTable)`: as written, the first occurrence of the
      raw table name anywhere in the statement gives way to the temporary
      name; corrected, only the name token does.
    */
    method CreateTempTable(v: Version, createSql: string) returns (r: Result<(), DdlError>)
      modifies db
      ensures r == Status(CreateIn(old(db.tables), TempSql(v, createSql)))
      ensures db.tables == After(old(db.tables), CreateIn(old(db.tables), TempSql(v, createSql)))
    {
      var tempSql := if v == AsWritten then ReplaceFirst(createSql, tableName, alteredName)
                     else TempTableSql(createSql, alteredName);
      r := db.Create(tempSql);
    }

    /** `copyData`: `SELECT *` from the table, then `insertChunked(20, alteredName)`. */
    method CopyData() returns (r: Result<(), DdlError>)
      modifies db
      ensures r == Status(CopyStep(old(db.tables)))
      ensures db.tables == After(old(db.tables), CopyStep(old(db.tables)))
    {
      var rows := db.SelectAll(tableName);
      if rows.Failure? {
        return Failure(rows.error);
      }
      MapRowsIdentity(rows.value);
      var inserted, _ := InsertChunked(20, alteredName, rows.value, Identity);
      r := if inserted.Success? then Success(()) else Failure(inserted.error);
    }

    /** `reinsertData(iterator)`: `SELECT *` from the temporary table, then `insertChunked(20, tableName, iterator)`. */
    method ReinsertData(transform: Object -> Object) returns (r: Result<(), DdlError>)
      modifies db
      ensures r == Status(ReinsertStep(old(db.tables), transform))
      ensures db.tables == After(old(db.tables), ReinsertStep(old(db.tables), transform))
    {
      var rows := db.SelectAll(alteredName);
      if rows.Failure? {
        return Failure(rows.error);
      }
      var inserted, _ := InsertChunked(20, tableName, rows.value, transform);
      r := if inserted.Success? then Success(()) else Failure(inserted.error);
    }

    /** `dropOriginal` */
    method DropOriginal() returns (r: Result<(), DdlError>)
      modifies db
      ensures r == Status(DropIn(old(db.tables), tableName))
      ensures db.tables == After(old(db.tables), DropIn(old(db.tables), tableName))
    {
      r := db.Drop(tableName);
    }

    /** `dropTempTable` */
    method DropTempTable() returns (r: Result<(), DdlError>)
      modifies db
      ensures r == Status(DropIn(old(db.tables), alteredName))
      ensures db.tables == After(old(db.tables), DropIn(old(db.tables), alteredName))
    {
      r := db.Drop(alteredName);
    }

    /**
      The promise chain of `renameColumn` and `dropColumn` inside their
      transaction: on any failure the transaction rolls back and the tables
      are as they were.
    */
    method Alter(v: Version, createSql: string, newSql: string, transform: Object -> Object) returns (r: Result<(), DdlError>)
      modifies db
      ensures r == Status(AlterSteps(v, old(db.tables), createSql, newSql, transform))
      ensures db.tables == After(old(db.tables), AlterSteps(v, old(db.tables), createSql, newSql, transform))
    {
      var saved := db.tables;
      r := CreateTempTable(v, createSql);
      if r.Failure? {
        db.Restore(saved);
        return;
      }
      r := RebuildFromTemp(newSql, transform);
      if r.Failure? {
        db.Restore(saved);
      }
    }

    /**
      The five steps after the temporary table exists, each stopping the
      run at its failure; the caller rolls back.
    */
    method RebuildFromTemp(newSql: string, transform: Object -> Object) returns (r: Result<(), DdlError>)
      modifies db
      ensures r == Status(StepsAfterTemp(old(db.tables), newSql, transform))
      ensures r.Success? ==> db.tables == StepsAfterTemp(old(db.tables), newSql, transform).value
    {
      r := CopyData();
      if r.Failure? {
        return;
      }
      r := DropOriginal();
      if r.Failure? {
        return;
      }
      r := db.Create(newSql);
      if r.Failure? {
        return;
      }
      r := ReinsertData(transform);
      if r.Failure? {
        return;
      }
      r := DropTempTable();
    }

    // -- planning -----------------------------------------------------------

    /**
      What happens before the rebuild: the column must be in the pragma
      rows, the table must have a stored statement, and the statement is
      rewritten with the wrapped column name `wrapIdentifier(column)` going
      to `b`. Corrected, a rewrite that changed nothing is refused. As
      written, the check compares the array of rows that the `sqlite_master`
      query returns with the rewritten string, which `===` never finds
      equal, so nothing is refused. Gives the stored and the rewritten
      statement.
    */
    function PlanWith(v: Version, t: Tables, column: string, b: string): Result<(string, string), DdlError> {
      var col :- GetColumn(column);
      if tableName !in t then Failure(NoSchemaRow)
      else
        var sql := t[tableName].sql;
        var newSql :- Replace(v, sql, wrapIdentifier(column), b);
        if v == Corrected && newSql == sql then Failure(ColumnUnchanged)
        else Success((sql, newSql))
    }

    /** The plan, case by case, in the order the source makes its checks. */
    lemma PlanCases(v: Version, t: Tables, column: string, b: string)
      ensures GetColumn(column).Failure? ==> PlanWith(v, t, column, b) == Failure(GetColumn(column).error)
      ensures GetColumn(column).Success? && tableName !in t ==> PlanWith(v, t, column, b) == Failure(NoSchemaRow)
      ensures GetColumn(column).Success? && tableName in t ==>
                var sql := t[tableName].sql;
                var out := Replace(v, sql, wrapIdentifier(column), b);
                PlanWith(v, t, column, b)
                == if out.Failure? then Failure(out.error)
                   else if v == Corrected && out.value == sql then Failure(ColumnUnchanged)
                   else Success((sql, out.value))
    {
    }

    /** The rename's plan: the column's name token becomes `wrapIdentifier(to)`. */
    function RenamePlan(v: Version, t: Tables, from: string, to: string): Result<(string, string), DdlError> {
      PlanWith(v, t, from, wrapIdentifier(to))
    }

    /** The drop's plan: the column's definition is emptied. */
    function DropPlan(v: Version, t: Tables, column: string): Result<(string, string), DdlError> {
      PlanWith(v, t, column, "")
    }

    /**
      Table `tableName` was created by `Built(n, Join(xs, ", "))` on one
      line, where item `c` defines the column whose wrapped name is `a`
      and no other item mentions it.
    */
    predicate StoredWith(t: Tables, n: string, xs: seq<string>, c: nat, a: string) {
      && tableName in t && t[tableName].sql == Built(n, Join(xs, ", "))
      && Unquote(n) == tableName && PlainName(n)
      && (forall k :: 0 <= k < |xs| ==> Plain(xs[k]) && xs[k] != [])
      && Join(xs, ", ") != [] && SingleLine(Join(xs, ", "))
      && c < |xs|
      && Classify(xs[c], a) == ColumnDef
      && (forall k :: 0 <= k < |xs| && k != c ==> Unmentioned(xs[k], a))
    }

    /** No table holds the temporary name, and the engine reads it back as itself. */
    predicate TempFree(t: Tables) {
      alteredName !in t && alteredName != tableName && TempNameOk(alteredName)
    }

    /** The tail of a definition after its name is on one line when the definition is. */
    lemma TailSingleLine(x: string, k: nat)
      requires k <= |x| && SingleLine(x)
      ensures SingleLine(x[k..])
    {
      assert x == x[..k] + x[k..];
      SingleLineAppend(x[..k], x[k..]);
    }

    /**
      Renaming a defined column in the corrected program: the plan rewrites
      that definition's name and nothing else, and unless the statement
      came out the same, the rebuild leaves every other table alone and
      this one with the rewritten statement and each row with the value
      moved to the new name.
    */
    lemma RenameColumnOutcome(t: Tables, from: string, to: string, n: string, xs: seq<string>, c: nat)
      requires GetColumn(from).Success?
      requires StoredWith(t, n, xs, c, wrapIdentifier(from)) && TempFree(t)
      requires wrapIdentifier(to) != [] && SingleLine(wrapIdentifier(to))
      ensures |wrapIdentifier(from)| <= |xs[c]|
      ensures var sql := t[tableName].sql;
              var newSql := Built(n, Join(xs[c := wrapIdentifier(to) + xs[c][|wrapIdentifier(from)|..]], ", "));
              && RenamePlan(Corrected, t, from, to) == (if newSql == sql then Failure(ColumnUnchanged) else Success((sql, newSql)))
              && (newSql != sql ==>
                    AlterSteps(Corrected, t, sql, newSql, RenameRow(from, to))
                    == Success(t[tableName := Table(newSql, MapRows(RenameRow(from, to), t[tableName].rows))]))
    {
      var a := wrapIdentifier(from);
      var b := wrapIdentifier(to);
      RenameOnBuilt(n, xs, c, a, b);
      var ys := xs[c := b + xs[c][|a|..]];
      PlanOn(t, from, b, Built(n, Join(ys, ", ")));
      RenamedSingleLine(xs, c, a, b);
      RebuildOutcome(Corrected, t, n, Join(xs, ", "), Join(ys, ", "), RenameRow(from, to));
    }

    /**
      Renaming a defined column as written: the plan rewrites that
      definition's name and is never refused, and the rebuild leaves every
      other table alone and this one with the rewritten statement and each
      row passed through the written transform. It holds where the renamed
      statement has no comma for the cleanup to take and the table's name
      first occurs at its own name token.
    */
    lemma RenameAsWrittenOutcome(t: Tables, from: string, to: string, n: string, xs: seq<string>, c: nat)
      requires GetColumn(from).Success?
      requires StoredWith(t, n, xs, c, wrapIdentifier(from)) && TempFree(t)
      requires wrapIdentifier(to) != [] && SingleLine(wrapIdentifier(to))
      requires |wrapIdentifier(from)| <= |xs[c]|
      requires NoStrayComma(Built(n, Join(xs[c := wrapIdentifier(to) + xs[c][|wrapIdentifier(from)|..]], ", ")))
      requires IndexOf(t[tableName].sql, tableName) == NameAt(n)
      ensures var sql := t[tableName].sql;
              var newSql := Built(n, Join(xs[c := wrapIdentifier(to) + xs[c][|wrapIdentifier(from)|..]], ", "));
              && RenamePlan(AsWritten, t, from, to) == Success((sql, newSql))
              && AlterSteps(AsWritten, t, sql, newSql, RenameRowIn(AsWritten, from, to))
                 == Success(t[tableName := Table(newSql, MapRows(RenameRowIn(AsWritten, from, to), t[tableName].rows))])
    {
      var a := wrapIdentifier(from);
      var b := wrapIdentifier(to);
      AsWrittenRenameOnBuilt(n, xs, c, a, b);
      var ys := xs[c := b + xs[c][|a|..]];
      PlanCases(AsWritten, t, from, b);
      RenamedSingleLine(xs, c, a, b);
      RebuildOutcome(AsWritten, t, n, Join(xs, ", "), Join(ys, ", "), RenameRowIn(AsWritten, from, to));
    }

    /** The renamed definitions stay on one line. */
    lemma RenamedSingleLine(xs: seq<string>, c: nat, a: string, b: string)
      requires c < |xs| && |a| <= |xs[c]| && SingleLine(b)
      requires SingleLine(Join(xs, ", "))
      ensures SingleLine(Join(xs[c := b + xs[c][|a|..]], ", "))
    {
      var ys := xs[c := b + xs[c][|a|..]];
      JoinSingleLine(xs);
      TailSingleLine(xs[c], |a|);
      SingleLineAppend(b, xs[c][|a|..]);
      assert forall k :: 0 <= k < |ys| ==> SingleLine(ys[k]);
      JoinSingleLine(ys);
    }

    /**
      Rebuilding a stored table under a new one-line statement for the same
      name: every other table stays, and this one holds the new statement
      and the rows passed through `f`. As written this also needs the
      table's name to occur first at its own name token.
    */
    lemma RebuildOutcome(v: Version, t: Tables, n: string, defs: string, newDefs: string, f: Object -> Object)
      requires tableName in t && t[tableName].sql == Built(n, defs)
      requires Unquote(n) == tableName && PlainName(n) && TempFree(t)
      requires SingleLine(defs) && SingleLine(newDefs)
      requires v == AsWritten ==> IndexOf(Built(n, defs), tableName) == NameAt(n)
      ensures AlterSteps(v, t, Built(n, defs), Built(n, newDefs), f)
              == Success(t[tableName := Table(Built(n, newDefs), MapRows(f, t[tableName].rows))])
    {
      TempTableSqlBuilt(n, defs, alteredName);
      if v == AsWritten {
        AsWrittenTempAgrees(n, defs, alteredName);
      }
      CreatedNameBuilt(n, newDefs);
      AlterOutcome(v, t, Built(n, defs), Built(n, newDefs), f);
    }

    /**
      Dropping a defined column of a table with at least two items in the
      corrected program: the plan takes that item out, and the rebuild
      leaves every other table alone and this one with the shorter
      statement and each row without the column.
    */
    lemma DropColumnOutcome(t: Tables, column: string, n: string, xs: seq<string>, c: nat)
      requires GetColumn(column).Success?
      requires StoredWith(t, n, xs, c, wrapIdentifier(column)) && TempFree(t) && |xs| >= 2
      ensures var sql := t[tableName].sql;
              var newSql := Built(n, Join(xs[..c] + xs[c + 1..], ", "));
              && DropPlan(Corrected, t, column) == (if newSql == sql then Failure(ColumnUnchanged) else Success((sql, newSql)))
              && (newSql != sql ==>
                    AlterSteps(Corrected, t, sql, newSql, DropRow(column))
                    == Success(t[tableName := Table(newSql, MapRows(DropRow(column), t[tableName].rows))]))
    {
      DropOnBuilt(n, xs, c, wrapIdentifier(column));
      var ys := xs[..c] + xs[c + 1..];
      PlanOn(t, column, "", Built(n, Join(ys, ", ")));
      DroppedSingleLine(xs, c);
      RebuildOutcome(Corrected, t, n, Join(xs, ", "), Join(ys, ", "), DropRow(column));
    }

    /**
      Dropping the first column as written: the plan is not refused, and
      the statement it hands the engine opens its column list with `, `.
    */
    lemma DropFirstAsWritten(t: Tables, column: string, n: string, xs: seq<string>)
      requires GetColumn(column).Success?
      requires StoredWith(t, n, xs, 0, wrapIdentifier(column)) && |xs| >= 2
      requires !IsSpace(xs[1][0]) && xs[1][0] != ')'
      ensures DropPlan(AsWritten, t, column).Success?
      ensures StartsWith(DropPlan(AsWritten, t, column).value.1, CreatePrefix + n + " (, ")
    {
      var a := wrapIdentifier(column);
      DropItems(xs, 0, a, n);
      PlainHeadNotComma(xs[1]);
      AsWrittenDropFirstLeavesComma(n, xs, a);
      PlanCases(AsWritten, t, column, "");
    }

    /**
      As written, a table named `T` cannot be rebuilt: the temporary
      statement loses the `T` of `CREATE`, so renaming or dropping any of
      its columns fails at the first step and leaves every table as it was.
    */
    lemma TableTAsWritten(t: Tables, createSql: string, newSql: string, f: Object -> Object)
      requires tableName == "T" && StartsWith(createSql, CreatePrefix)
      requires alteredName != [] && alteredName[0] != 'T'
      ensures AlterSteps(AsWritten, t, createSql, newSql, f).Failure?
      ensures After(t, AlterSteps(AsWritten, t, createSql, newSql, f)) == t
    {
      AsWrittenTempTableHitsKeyword(createSql, alteredName);
    }

    /** The definitions left after a drop stay on one line. */
    lemma DroppedSingleLine(xs: seq<string>, c: nat)
      requires c < |xs| && SingleLine(Join(xs, ", "))
      ensures SingleLine(Join(xs[..c] + xs[c + 1..], ", "))
    {
      var ys := xs[..c] + xs[c + 1..];
      JoinSingleLine(xs);
      forall k | 0 <= k < |ys| ensures SingleLine(ys[k]) {
        if k < c {
          assert ys[k] == xs[k];
        } else {
          assert ys[k] == xs[k + 1];
        }
      }
      JoinSingleLine(ys);
    }

    /** Where the corrected rewrite of the stored statement succeeds, the plan compares the two statements. */
    lemma PlanOn(t: Tables, column: string, b: string, newSql: string)
      requires GetColumn(column).Success? && tableName in t
      requires CorrectedReplace(t[tableName].sql, wrapIdentifier(column), b) == Success(newSql)
      ensures PlanWith(Corrected, t, column, b)
              == if newSql == t[tableName].sql then Failure(ColumnUnchanged) else Success((t[tableName].sql, newSql))
    {
      PlanCases(Corrected, t, column, b);
    }

    /** Renaming a column to its own name rewrites the statement into itself. */
    lemma RenameToItselfUnchanged(t: Tables, from: string, n: string, xs: seq<string>, c: nat)
      requires StoredWith(t, n, xs, c, wrapIdentifier(from)) && wrapIdentifier(from) != []
      requires ' ' !in wrapIdentifier(from)
      ensures CorrectedReplace(t[tableName].sql, wrapIdentifier(from), wrapIdentifier(from)) == Success(t[tableName].sql)
    {
      var a := wrapIdentifier(from);
      RenameOnBuilt(n, xs, c, a, a);
      DefinitionStartsWithName(xs[c], a);
      assert xs[c := a + xs[c][|a|..]] == xs;
    }

    /** A column definition starts with the column's name. */
    static lemma DefinitionStartsWithName(x: string, a: string)
      requires ' ' !in a && Classify(x, a) == ColumnDef
      ensures |a| <= |x| && a + x[|a|..] == x
    {
      ColumnDefIff(x, a);
      if x != a {
        assert x[..|a| + 1] == a + " ";
        assert x[..|a|] == a;
      }
      assert x == x[..|a|] + x[|a|..];
    }

    /**
      As written, renaming a column to its own name is not refused: the
      rebuild runs with the statement unchanged, and every row copied back
      has lost the column, so its values are gone.
    */
    lemma RenameToItselfAsWritten(t: Tables, from: string, n: string, xs: seq<string>, c: nat)
      requires GetColumn(from).Success? && from != []
      requires StoredWith(t, n, xs, c, wrapIdentifier(from)) && TempFree(t)
      requires wrapIdentifier(from) != [] && ' ' !in wrapIdentifier(from)
      requires NoStrayComma(t[tableName].sql)
      requires IndexOf(t[tableName].sql, tableName) == NameAt(n)
      ensures RenamePlan(AsWritten, t, from, from) == Success((t[tableName].sql, t[tableName].sql))
      ensures var sql := t[tableName].sql;
              var rows := MapRows(RenameRowIn(AsWritten, from, from), t[tableName].rows);
              && AlterSteps(AsWritten, t, sql, sql, RenameRowIn(AsWritten, from, from)) == Success(t[tableName := Table(sql, rows)])
              && |rows| == |t[tableName].rows|
              && forall i :: 0 <= i < |rows| ==> from !in rows[i].entries
    {
      var a := wrapIdentifier(from);
      DefinitionStartsWithName(xs[c], a);
      assert xs[c := a + xs[c][|a|..]] == xs;
      JoinSingleLine(xs);
      SingleLineAppend(a, xs[c][|a|..]);
      assert Built(n, Join(xs[c := a + xs[c][|a|..]], ", ")) == t[tableName].sql;
      RenameAsWrittenOutcome(t, from, from, n, xs, c);
      var rows := MapRows(RenameRowIn(AsWritten, from, from), t[tableName].rows);
      forall i | 0 <= i < |rows|
        ensures from !in rows[i].entries
      {
        assert Occurs(from, from) by { assert OccursAt(from, from, 0); }
        RenameAsWrittenLosesTarget(t[tableName].rows[i], from, from);
      }
    }

    /** With the statements compared, renaming a column to its own name is refused and nothing runs. */
    lemma RenameToItselfRefused(t: Tables, from: string, n: string, xs: seq<string>, c: nat)
      requires GetColumn(from).Success?
      requires StoredWith(t, n, xs, c, wrapIdentifier(from))
      requires wrapIdentifier(from) != [] && ' ' !in wrapIdentifier(from)
      ensures RenamePlan(Corrected, t, from, from) == Failure(ColumnUnchanged)
    {
      RenameToItselfUnchanged(t, from, n, xs, c);
      PlanOn(t, from, wrapIdentifier(from), t[tableName].sql);
    }

    /** `renameColumn(from, to)`, as written or corrected. */
    method RenameColumn(v: Version, from: string, to: string) returns (r: Result<(), DdlError>)
      modifies db
      ensures RenamePlan(v, old(db.tables), from, to).Failure? ==>
                r == Failure(RenamePlan(v, old(db.tables), from, to).error) && db.tables == old(db.tables)
      ensures RenamePlan(v, old(db.tables), from, to).Success? ==>
                var (sql, newSql) := RenamePlan(v, old(db.tables), from, to).value;
                var out := AlterSteps(v, old(db.tables), sql, newSql, RenameRowIn(v, from, to));
                r == Status(out) && db.tables == After(old(db.tables), out)
    {
      PlanCases(v, db.tables, from, wrapIdentifier(to));
      var col := GetColumn(from);
      if col.Failure? {
        return Failure(col.error);
      }
      var master := db.MasterSql(tableName);
      if master == [] {
        return Failure(NoSchemaRow);
      }
      var createSql := master[0];
      var a := wrapIdentifier(from);
      var b := wrapIdentifier(to);
      var newSql := DoReplace(v, createSql, a, b);
      if newSql.Failure? {
        return Failure(newSql.error);
      }
      if v == Corrected && createSql == newSql.value {
        return Failure(ColumnUnchanged);
      }
      r := Alter(v, createSql, newSql.value, RenameRowIn(v, from, to));
    }

    /** `dropColumn(column)`, as written or corrected. */
    method DropColumn(v: Version, column: string) returns (r: Result<(), DdlError>)
      modifies db
      ensures DropPlan(v, old(db.tables), column).Failure? ==>
                r == Failure(DropPlan(v, old(db.tables), column).error) && db.tables == old(db.tables)
      ensures DropPlan(v, old(db.tables), column).Success? ==>
                var (sql, newSql) := DropPlan(v, old(db.tables), column).value;
                var out := AlterSteps(v, old(db.tables), sql, newSql, DropRowIn(v, column));
                r == Status(out) && db.tables == After(old(db.tables), out)
    {
      PlanCases(v, db.tables, column, "");
      var col := GetColumn(column);
      if col.Failure? {
        return Failure(col.error);
      }
      var master := db.MasterSql(tableName);
      if master == [] {
        return Failure(NoSchemaRow);
      }
      var createSql := master[0];
      var a := wrapIdentifier(column);
      var newSql := DoReplace(v, createSql, a, "");
      if newSql.Failure? {
        return Failure(newSql.error);
      }
      if v == Corrected && createSql == newSql.value {
        return Failure(ColumnUnchanged);
      }
      r := Alter(v, createSql, newSql.value, DropRowIn(v, column));
    }
  }
}
