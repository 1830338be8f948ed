# knex schema core for SQLite, modelled in Dafny

This project models the part of knex that turns schema-builder calls into
SQLite DDL. It also models the helper that emulates `renameColumn` and
`dropColumn` on SQLite by rebuilding the table. The model covers:

- the `dash` utility library: `omit`, `omitBy`, `compact`, `groupBy`,
  `first`, `tail`, `isEmpty`, `pickByArray`, `baseToString` and `uniqueId`;
- the `Formatter`: column lists, `?` placeholders with their bindings,
  operators, sort directions, aliases, identifier wrapping and
  sub-query output;
- the `ColumnCompiler`: column name, type text, modifiers and the
  compiled column definition;
- the SQLite `TableCompiler`: `CREATE TABLE` with its primary and foreign
  keys, `ADD COLUMN`, index creation and removal, and the hand-off of
  column renames and drops to the DDL helper;
- the SQLite DDL helper (`SQLite3_DDL`):
  - `getColumn`;
  - the `CREATE TABLE` rewriter `_doReplace`, with its tokenizer;
  - `insertChunked`, which writes rows back in batches of 20;
  - the six-step rebuild: create a temporary copy, copy the rows, drop the
    original, create the new table, reinsert the rows, drop the copy;
  - `renameColumn` and `dropColumn`.

Files:

- `results.dfy`: `Option` and `Result`.
- `js.dfy`: JavaScript values, truthiness, `==`, decimal text.
- `text.dfy`: string search, split, join, trimming and the regular
  expressions of the source written as index arithmetic.
- `dash.dfy`, `formatter.dfy`, `columncompiler.dfy` and
  `tablecompiler.dfy`: one file per source file.
- `query.dfy`: the query records that the compilers emit.
- `ddl_rewrite.dfy`: the pure `_doReplace` and its tokenizer.
- `ddl.dfy`: the database the helper talks to and the `SQLite3_DDL` class.

The database is a `Database` object that holds a map from table name to
the table's `CREATE` text and its rows. Its methods are `CREATE TABLE`,
`DROP TABLE`, `SELECT *` and `INSERT`. A step that fails leaves the map
unchanged. The transaction around a rebuild becomes a saved copy of the
map that is restored on failure. Each step of the rebuild is a pure function
on the map. Each method of the class is proved equal to that function, and
the lemmas state what the whole rebuild leaves behind.

The helper's `renameColumn`, `dropColumn`, `createTempTable` and
`_doReplace` take a `Version`. `AsWritten` runs the code as it stands,
with the defects listed under Findings: the rows go through `omit` with
a string, the copy statement comes from `sql.replace(tableName, …)`, the
reassembly relies on the stray-comma cleanup, and the "column unchanged"
guard never fires. `Corrected` runs the same steps with those defects
fixed. The `AsWritten` lemmas state what the code does, the losses
included; the `Corrected` lemmas state the intended outcome.

Elsewhere the model follows the code where it departs from what its
comments suggest:

- `/constraint/i.test(split[0])` is a substring test, not an equality.
- `omit` with a string argument tests substrings.

## Model

| member | source | states |
|---|---|---|
| Dash.Omit | dash.js:4-13 | the result keeps exactly the keys of `obj` that `keys` does not exclude, with their values, and stays a well-formed object |
| Dash.OmitLoop | dash.js:4-13 | the loop over `Object.keys(obj)` builds exactly `Omit(obj, keys)` |
| Dash.OmitKeys | dash.js:7-11 | the copied keys are the keys not excluded, and they stay distinct when the input keys are |
| Dash.OmitTextDropsSubstrings | dash.js:5-8 | with a string argument, every key that occurs inside the string is removed |
| Dash.OmitByAsWritten | dash.js:14-22 | as written, the kept keys are those whose value is not `== val`, and each of them holds `val` |
| Dash.OmitBy | dash.js:14-22 | the kept keys are those whose value is not `== val`, and each keeps its own value |
| Dash.OmitByLoop | dash.js:14-22 | the loop builds exactly the corrected `OmitBy(obj, val)` |
| Dash.OmitByAsWrittenLosesValues | dash.js:17-18 | every kept key's value differs from the original as written, and is the original in the corrected version |
| Dash.KeysNotEqual | dash.js:16-17 | a key is kept iff its value is not loosely equal to `val` |
| Dash.First | dash.js:63-65 | `undefined` for a missing or empty array, else the first element |
| Dash.Tail | dash.js:66-70 | drops the first element of the array in place and returns the same array; an empty array stays empty |
| Dash.TruthyOnly | dash.js:86-91 | an element is kept iff it is in the input and truthy; the result is no longer than the input |
| Dash.Compact | dash.js:80-93 | `[]` for a missing array, else exactly the truthy elements |
| Dash.CompactLoop | dash.js:80-93 | the `while` loop computes `Compact(arr)` |
| Dash.CompactAppend | dash.js:86-91 | compaction distributes over concatenation, so order is kept |
| Dash.CompactCounts | dash.js:86-91 | each truthy value is kept as often as it occurs, and each falsy one never |
| Dash.GroupBy | dash.js:71-79 | the group keys are distinct and are exactly the keys of the group map |
| Dash.GroupByLoop | dash.js:71-79 | the `forEach` loop computes `GroupBy(list, keyGetter)` |
| Dash.WithKey | dash.js:73-76 | the reference group holds only items of the list with that key |
| Dash.GroupByGroups | dash.js:71-79 | a key has a group iff some item has that key, and the group is exactly those items in input order |
| Dash.GroupByTotal | dash.js:71-79 | the group sizes add up to the length of the list, so each item lands in exactly one group |
| Dash.PickByArray | dash.js:101-114 | the result holds exactly the props that the object has, with the object's values |
| Dash.PickByArrayLoop | dash.js:101-114 | the `while` loop computes `PickByArray(obj, props)` |
| Dash.BaseToString | dash.js:94-96 | `""` for null or undefined, else the value's string form |
| Dash.IdGenerator.UniqueId | dash.js:97-100 | bumps the module counter by one and returns the prefix followed by the new count |
| Dash.UniqueIdsDiffer | dash.js:97-100 | two different counts under one prefix give different ids |
| Js.NatToString | dash.js:99 | the decimal text of a count is a non-empty run of digits |
| Js.ParseNatToString | dash.js:99 | reading the decimal text back gives the number |
| Js.NatToStringInjective | dash.js:99 | different counts have different decimal texts |
| Js.LooseEqualsSymmetric | dash.js:17 | `==` is symmetric |
| Js.LooseEqualsReflexive | dash.js:17 | every modelled value is `==` to itself |
| Formatter.Formatter.constructor | lib/formatter.js:23-26 | a formatter starts with no bindings and uses the client's identifier quoting |
| Formatter.AliasReadBack | lib/formatter.js:112-114 | the alias text splits back at its first ` as ` into the two wrapped parts |
| Formatter.WrapValue | lib/formatter.js:98-106 | a number is returned as it is, and anything else becomes a wrapped string |
| Formatter.DottedParts | lib/formatter.js:171-180 | there is one wrapped part per segment of the name split at `.` |
| Formatter.WrapStrSegments | lib/formatter.js:162-181 | a name without ` as ` is wrapped segment by segment and re-joined with `.` |
| Formatter.WrapStrIdentity | lib/formatter.js:162-181 | with identity quoting, a name without ` as ` comes back unchanged |
| Formatter.PlaceholdersShape | lib/formatter.js:46-56 | `n` columns give exactly `n` `?` marks, and the text is `3n-2` long |
| Formatter.OutputQuery | lib/formatter.js:150-159 | empty stays empty; an aliased sub-select is exactly `(sql) as ` followed by the wrapped alias; a sub-select in parameter position without an alias is exactly `(sql)`; anything else is returned as it is |
| Formatter.Operator | lib/formatter.js:117-124 | succeeds iff the lower-cased operator is in the operator list, and otherwise fails with the source's message |
| Formatter.OperatorIgnoresCase | lib/formatter.js:117-124 | the outcome does not depend on letter case |
| Formatter.OperatorsAccepted | lib/formatter.js:21 | every listed operator is accepted |
| Formatter.Direction | lib/formatter.js:127-131 | the result is always `asc` or `desc` in some case: the value itself when it is valid, else `asc` |
| Formatter.Formatter.Wrap | lib/formatter.js:98-106 | equals `WrapValue` |
| Formatter.Formatter.WrapString | lib/formatter.js:162-181 | equals `WrapStr`, with alias handling and dotted segments |
| Formatter.Formatter.WrapDotted | lib/formatter.js:171-180 | the loop produces `DottedParts` |
| Formatter.Formatter.Columnize | lib/formatter.js:33-42 | the loop joins the wrapped columns with `, ` |
| Formatter.Formatter.Parameter | lib/formatter.js:60-65 | appends the value to the bindings and returns `?` |
| Formatter.Formatter.Parameterize | lib/formatter.js:46-56 | appends the substituted values to the bindings and returns the placeholder list |
| ColumnCompiler.DigitRun | lib/schema/columncompiler.js:166-170 | the run found is all digits and stops at the first non-digit |
| ColumnCompiler.ParseInt | lib/schema/columncompiler.js:166-170 | `parseInt` gives no number iff no digit follows the optional spaces and sign |
| ColumnCompiler.ParseIntToString | lib/schema/columncompiler.js:166-170 | `parseInt` reads back the decimal text of every integer |
| ColumnCompiler.ParseIntReads | lib/schema/columncompiler.js:166-170 | white space, an optional sign and a run of digits give the signed decimal value of the run, leading zeros and any text after the run allowed |
| ColumnCompiler.ParseIntLeadingZero | lib/schema/columncompiler.js:166-170 | `"08"` reads as 8 |
| ColumnCompiler.ParseIntPlusSign | lib/schema/columncompiler.js:166-170 | `"+5"` reads as 5 |
| ColumnCompiler.ParseIntTrailingText | lib/schema/columncompiler.js:166-170 | `" -12px"` reads as -12 |
| ColumnCompiler.Num | lib/schema/columncompiler.js:166-170 | null or undefined gives the fallback; text that parses gives the parsed number; anything else gives the fallback |
| ColumnCompiler.NumOfNumber | lib/schema/columncompiler.js:166-170 | a number is used as it is |
| ColumnCompiler.NumOfWord | lib/schema/columncompiler.js:166-170 | a word that does not start with a digit, space or sign gives the fallback |
| ColumnCompiler.Arg | lib/schema/columncompiler.js:90 | an argument past the end is `undefined` |
| ColumnCompiler.VarcharLength | lib/schema/columncompiler.js:114-116 | without a length the type is `varchar(255)`; with a number it is that length |
| ColumnCompiler.FloatingDefaults | lib/schema/columncompiler.js:119-124 | without arguments the types are `float(8, 2)` and `decimal(8, 2)` |
| ColumnCompiler.NullableSql | lib/schema/columncompiler.js:143-145 | `not null` exactly for `false`, and `null` for every other value |
| ColumnCompiler.NotNullableSql | lib/schema/columncompiler.js:146-148 | `notNullable()` is `nullable(false)` |
| ColumnCompiler.DefaultToSql | lib/schema/columncompiler.js:149-165 | empty exactly for `undefined` and for an object on a `json` column whose JSON text is empty; `default null` for null; on a `bool` column `default '1'` or `default '0'`, the string `'false'` counting as false; on a `json` column an object gives its JSON text; any other value gives `default '`, its string form and `'` |
| ColumnCompiler.ModifierList | lib/schema/columncompiler.js:93-105 | at most one text per modifier, and none of them empty |
| ColumnCompiler.ModifierListAppend | lib/schema/columncompiler.js:96-101 | the modifier texts come in modifier order |
| ColumnCompiler.ModifierListMember | lib/schema/columncompiler.js:96-101 | a text is emitted iff some modifier was called and has that text |
| ColumnCompiler.ModifiersSql | lib/schema/columncompiler.js:93-105 | empty for increments or when no modifier applies, else a space followed by the texts joined by spaces |
| ColumnCompiler.ColumnName | lib/schema/columncompiler.js:78-86 | fails with the source's message iff there is no truthy name and the type is not an increments type; an increments type defaults to `id` |
| ColumnCompiler.ArgsAfterType | lib/schema/columncompiler.js:88-91 | the name argument is shifted off only for the types defined as functions |
| ColumnCompiler.CompiledColumnParts | lib/schema/columncompiler.js:73-76 | a compiled column is the wrapped name, a space, the type and the modifiers, and it fails iff the name fails |
| ColumnCompiler.CompiledVarchar | lib/schema/columncompiler.js:73-76 | gives the exact text for a named `varchar` with a length |
| ColumnCompiler.NamedColumn | lib/schema/columncompiler.js:73-76 | gives the exact text for any column with a truthy name |
| ColumnCompiler.ColumnCompiler.constructor | lib/schema/columncompiler.js:45-56 | the type is lower-cased, and the query lists start empty |
| ColumnCompiler.ColumnCompiler.GetColumnName | lib/schema/columncompiler.js:78-86 | equals `ColumnName` |
| ColumnCompiler.ColumnCompiler.GetColumnType | lib/schema/columncompiler.js:88-91 | shifts the argument array in place for the function types and returns the type text |
| ColumnCompiler.ColumnCompiler.GetModifiers | lib/schema/columncompiler.js:93-105 | the loop computes `ModifiersSql` |
| ColumnCompiler.ColumnCompiler.CompileColumn | lib/schema/columncompiler.js:73-76 | returns the compiled column and leaves the arguments shifted only on success |
| ColumnCompiler.ColumnCompiler.ToSQL | lib/schema/columncompiler.js:64-71 | pushes the column, then the queued additional queries, and returns the sequence; on failure the queries are unchanged; the arguments are shifted for the function types exactly when the column compiles |
| TableCompiler.ForeignSpecs | lib/dialects/sqlite3/schema/tablecompiler.js:110-125 | a spec is collected iff a `foreign` statement carries it, and there are no more specs than statements; order and multiplicity are stated by ForeignSpecsOne and ForeignSpecsAppend |
| TableCompiler.ForeignSpecsOne | lib/dialects/sqlite3/schema/tablecompiler.js:112-114 | a single statement gives its spec when it is `foreign`, and nothing otherwise |
| TableCompiler.ForeignSpecsAppend | lib/dialects/sqlite3/schema/tablecompiler.js:112-114 | the specs of two statement runs are those of the first run followed by those of the second, so with ForeignSpecsOne the result is the `foreign` statements in statement order, each occurrence kept |
| TableCompiler.OnClause | lib/dialects/sqlite3/schema/tablecompiler.js:121-122 | empty exactly when the action is not truthy, and otherwise ` on <event> ` followed by the action |
| TableCompiler.ForeignClauseParts | lib/dialects/sqlite3/schema/tablecompiler.js:116-122 | a clause is `, foreign key(<columns>) references <wrapped table>(<columns>)`, then the `on delete` part, then the `on update` part, each present exactly when its action is truthy |
| TableCompiler.ForeignClauseHead | lib/dialects/sqlite3/schema/tablecompiler.js:116-122 | each clause starts with `, foreign key(<columns>) references ` |
| TableCompiler.ForeignClauses | lib/dialects/sqlite3/schema/tablecompiler.js:112-123 | there is one clause per foreign statement, in order |
| TableCompiler.ConcatAppend | lib/dialects/sqlite3/schema/tablecompiler.js:112-123 | concatenation distributes over appended lists |
| TableCompiler.ForeignKeysAppend | lib/dialects/sqlite3/schema/tablecompiler.js:110-125 | the foreign-key text of two lists is the two texts in turn |
| TableCompiler.ForeignKeysNonEmpty | lib/dialects/sqlite3/schema/tablecompiler.js:110-125 | the text is empty iff there is no foreign key, and otherwise starts with the first clause |
| TableCompiler.PrimaryArgs | lib/dialects/sqlite3/schema/tablecompiler.js:100-108 | collects exactly the `primary` statements |
| TableCompiler.PrimaryArgsAppend | lib/dialects/sqlite3/schema/tablecompiler.js:100-108 | the collection keeps statement order |
| TableCompiler.PrimaryKeysSql | lib/dialects/sqlite3/schema/tablecompiler.js:100-108 | there is a clause iff the first `primary` statement has arguments, and it reads `, primary key (...)` |
| TableCompiler.PrimaryKeysFirstOnly | lib/dialects/sqlite3/schema/tablecompiler.js:102-106 | later statements do not change the clause once there is a `primary` statement |
| TableCompiler.PrimaryKeysUnwrap | lib/dialects/sqlite3/schema/tablecompiler.js:102-106 | an array argument is unwrapped and columnized |
| TableCompiler.PrimaryKeysPlain | lib/dialects/sqlite3/schema/tablecompiler.js:104-105 | when the first argument is not an array, every argument is a key column, each wrapped, joined with `, ` |
| TableCompiler.PrimaryKeysNamed | lib/dialects/sqlite3/schema/tablecompiler.js:104-105 | `primary(column, name)` gives `, primary key (<column>, <name>)`: the second argument becomes a key column |
| TableCompiler.CreateSqlShape | lib/dialects/sqlite3/schema/tablecompiler.js:46-58 | the statement starts with `create table`, the name and the columns, and ends with `)` |
| TableCompiler.CreateSqlWithoutKeys | lib/dialects/sqlite3/schema/tablecompiler.js:46-58 | without key statements, the statement is exactly the name and the column list in parentheses |
| TableCompiler.CreateTableBlock | lib/dialects/sqlite3/schema/tablecompiler.js:127-129 | no columns give empty text |
| TableCompiler.CreateTableBlockSplits | lib/dialects/sqlite3/schema/tablecompiler.js:127-129 | the block splits back at `,` into its columns |
| TableCompiler.SQLite3TableCompiler.constructor | lib/dialects/sqlite3/schema/tablecompiler.js:39-44 | the compiler starts with an empty query sequence |
| TableCompiler.SQLite3TableCompiler.ForeignKeys | lib/dialects/sqlite3/schema/tablecompiler.js:110-125 | the loop computes `ForeignKeysSql` over the foreign statements |
| TableCompiler.SQLite3TableCompiler.ForeignKeyClause | lib/dialects/sqlite3/schema/tablecompiler.js:116-122 | equals `ForeignClause`, whose parts `ForeignClauseParts` states |
| TableCompiler.SQLite3TableCompiler.CreateQuery | lib/dialects/sqlite3/schema/tablecompiler.js:46-58 | pushes exactly the `CREATE TABLE` statement |
| TableCompiler.SQLite3TableCompiler.AddColumns | lib/dialects/sqlite3/schema/tablecompiler.js:60-67 | pushes one `alter table ... add column` per column, in order, after the earlier queries |
| TableCompiler.SQLite3TableCompiler.DropUnique | lib/dialects/sqlite3/schema/tablecompiler.js:70-74 | pushes `drop index` with the unique index name |
| TableCompiler.SQLite3TableCompiler.DropIndex | lib/dialects/sqlite3/schema/tablecompiler.js:75-80 | pushes `drop index` with the index name |
| TableCompiler.SQLite3TableCompiler.Unique | lib/dialects/sqlite3/schema/tablecompiler.js:81-87 | pushes `create unique index <name> on <table> (<columns>)` |
| TableCompiler.SQLite3TableCompiler.Index | lib/dialects/sqlite3/schema/tablecompiler.js:88-92 | pushes `create index <name> on <table> (<columns>)` |
| TableCompiler.SQLite3TableCompiler.RenameColumn | lib/dialects/sqlite3/schema/tablecompiler.js:132-141 | pushes the pragma query with the rename handed to the DDL helper |
| TableCompiler.SQLite3TableCompiler.DropColumn | lib/dialects/sqlite3/schema/tablecompiler.js:142-151 | pushes the pragma query with the drop handed to the DDL helper |
| DdlRewrite.Message | lib/dialects/sqlite3/schema/ddl.js:39 | each error carries the source's message text |
| DdlRewrite.MatchCreate | lib/dialects/sqlite3/schema/ddl.js:96-99 | a match needs the `CREATE TABLE ` prefix; the name has no spaces and the definitions stay on one line up to the last `)` of the line |
| DdlRewrite.MatchCreateBuilt | lib/dialects/sqlite3/schema/ddl.js:96-99 | a statement built from a name and definitions matches back to exactly them |
| DdlRewrite.Tokenize | lib/dialects/sqlite3/schema/ddl.js:105-131 | the character loop computes `Items(defs)` |
| DdlRewrite.ItemsSnoc | lib/dialects/sqlite3/schema/ddl.js:110-130 | the scanner's step: a comma at depth 0 opens a new item, a space that would open an item is skipped, any other character extends the current item |
| DdlRewrite.JoinSegments | lib/dialects/sqlite3/schema/ddl.js:105-131 | the segments join back with `,` to the definitions |
| DdlRewrite.ItemCount | lib/dialects/sqlite3/schema/ddl.js:118-123 | there is one more item than there are top-level commas |
| DdlRewrite.TokenizeJoin | lib/dialects/sqlite3/schema/ddl.js:105-131 | plain items joined with `, ` tokenize back to exactly those items |
| DdlRewrite.RewriteAll | lib/dialects/sqlite3/schema/ddl.js:133-177 | succeeds iff every item rewrites, item by item, and otherwise fails with the missing-references error |
| DdlRewrite.ColumnDefIff | lib/dialects/sqlite3/schema/ddl.js:134-136 | an item defines the column iff it is the name or starts with the name and a space |
| DdlRewrite.RenameColumnDef | lib/dialects/sqlite3/schema/ddl.js:136-141 | a definition of the column gets the new name in place of the old one |
| DdlRewrite.DropColumnDef | lib/dialects/sqlite3/schema/ddl.js:136-142 | a definition of the dropped column becomes empty |
| DdlRewrite.RewriteKeyConstraint | lib/dialects/sqlite3/schema/ddl.js:146-155 | a primary or unique constraint has the first occurrence replaced inside its parentheses, and is left alone when the name is absent |
| DdlRewrite.RewriteForeignKey | lib/dialects/sqlite3/schema/ddl.js:162-174 | a foreign key is rewritten before ` references `, and inside the parentheses after it when it references this table |
| Text.JoinSplitIgnoringCase | lib/dialects/sqlite3/schema/ddl.js:163-173 | splitting at ` references ` in any case and joining with the lower-case one gives the item back when every occurrence is lower-case |
| Text.SplitIgnoringCaseAbsent | lib/dialects/sqlite3/schema/ddl.js:163-166 | a name absent from the item is absent from every piece of the split |
| Text.ReplaceInParensAbsent | lib/dialects/sqlite3/schema/ddl.js:152-154 | replacing an absent name inside the parentheses changes nothing |
| DdlRewrite.ForeignKeyNeedsReferences | lib/dialects/sqlite3/schema/ddl.js:163-168 | a foreign key fails iff it has no ` references ` |
| DdlRewrite.RewriteFailsOnlyOnForeignKey | lib/dialects/sqlite3/schema/ddl.js:133-177 | only foreign keys can fail |
| DdlRewrite.OtherItemUnchanged | lib/dialects/sqlite3/schema/ddl.js:176 | any other item is kept as it is |
| DdlRewrite.NonEmpty | lib/dialects/sqlite3/schema/ddl.js:178-180 | exactly the non-empty items are kept |
| DdlRewrite.RewrittenItems | lib/dialects/sqlite3/schema/ddl.js:95-177 | no match and empty definitions are the two early errors; otherwise it returns one rewritten item per token |
| DdlRewrite.DoReplace | lib/dialects/sqlite3/schema/ddl.js:95-181 | the method computes `Replace(v, …)`: as written the items are joined and the stray-comma cleanup applied (`AsWrittenReplace`), corrected the emptied items are left out (`CorrectedReplace`) |
| DdlRewrite.CorrectedOnBuilt | lib/dialects/sqlite3/schema/ddl.js:178-180 | on a built statement, the result is the statement rebuilt from the non-empty rewritten items |
| DdlRewrite.UnmentionedUnchanged | lib/dialects/sqlite3/schema/ddl.js:133-176 | an item that does not mention the column (any kind: other column, key or foreign key with a lower-case ` references `) is no definition of it and comes out of the rewrite unchanged |
| DdlRewrite.ColumnDefMentions | lib/dialects/sqlite3/schema/ddl.js:134-136 | a definition of the column starts with the column's name |
| DdlRewrite.RenameOnBuilt | lib/dialects/sqlite3/schema/ddl.js:95-181 | corrected, renaming a column of a built statement whose other items do not mention it changes exactly its definition |
| DdlRewrite.DropOnBuilt | lib/dialects/sqlite3/schema/ddl.js:95-181 | corrected, dropping a column of a built statement whose other items do not mention it removes exactly its definition |
| DdlRewrite.RewrittenItemsBuilt | lib/dialects/sqlite3/schema/ddl.js:96-177 | on a built statement, the rewritten items are the stored items each rewritten |
| DdlRewrite.AsWrittenRenameOnBuilt | lib/dialects/sqlite3/schema/ddl.js:95-181 | as written, a rename on a built statement gives the corrected result whenever the renamed statement holds no stray comma |
| DdlRewrite.AsWrittenAgrees | lib/dialects/sqlite3/schema/ddl.js:178-180 | as written and corrected agree when no item is empty and there is no stray comma |
| DdlRewrite.AsWrittenDropFirstLeavesComma | lib/dialects/sqlite3/schema/ddl.js:178-180 | as written, dropping the first column leaves `(, ` in the statement |
| Ddl.AppendedTwice | lib/dialects/sqlite3/schema/ddl.js:76-85 | two inserts into a table append their rows in turn |
| Ddl.InsertIntoCreated | lib/dialects/sqlite3/schema/ddl.js:76-85 | inserting into a freshly created table gives exactly those rows |
| Ddl.Database.MasterSql | lib/dialects/sqlite3/schema/ddl.js:43-45 | the `sqlite_master` query returns the table's `CREATE` text, or no row |
| Ddl.Database.Create | lib/dialects/sqlite3/schema/ddl.js:89-93 | creates the table named by the statement, and fails on an existing or unreadable name |
| Ddl.Database.Drop | lib/dialects/sqlite3/schema/ddl.js:51-57 | drops an existing table, and fails otherwise |
| Ddl.Database.SelectAll | lib/dialects/sqlite3/schema/ddl.js:59-66 | succeeds iff the table exists, with its rows |
| Ddl.Database.Insert | lib/dialects/sqlite3/schema/ddl.js:80 | appends the rows to an existing table, and fails otherwise |
| Ddl.ChunksFlatten | lib/dialects/sqlite3/schema/ddl.js:76-85 | the batches concatenate back to the rows |
| Ddl.ChunksSizes | lib/dialects/sqlite3/schema/ddl.js:79 | every batch holds 1 to 20 rows, all but the last exactly 20, and their number is the rows divided by 20, rounded up |
| Ddl.ChunksSnoc | lib/dialects/sqlite3/schema/ddl.js:79 | a batch closed at a multiple of 20 is appended as it is |
| Ddl.MapRows | lib/dialects/sqlite3/schema/ddl.js:80 | `map(iterator)` transforms each row in place of itself |
| Ddl.MapRowsAppend | lib/dialects/sqlite3/schema/ddl.js:80 | mapping distributes over batches |
| Ddl.MapRowsIdentity | lib/dialects/sqlite3/schema/ddl.js:71 | without an iterator the rows are copied as they are |
| Ddl.RenamedRow | lib/dialects/sqlite3/schema/ddl.js:199-202 | the row loses `from`, gains `to` with `from`'s value when the names differ, and keeps every other key |
| Ddl.RenameAsWrittenLosesTarget | lib/dialects/sqlite3/schema/ddl.js:199-202 | as written, renaming to a name that occurs inside `from` drops the new column too |
| Ddl.DroppedRow | lib/dialects/sqlite3/schema/ddl.js:221-223 | the row loses exactly the dropped column |
| Ddl.DropAsWrittenLosesSubstrings | lib/dialects/sqlite3/schema/ddl.js:221-223 | as written, every key that occurs inside the dropped name is lost |
| Ddl.AsWrittenTempTableHitsKeyword | lib/dialects/sqlite3/schema/ddl.js:89-93 | as written, a table named `T` has the `T` of `CREATE` replaced, so the copy cannot be created |
| Ddl.CreatedNameBuilt | lib/dialects/sqlite3/schema/ddl.js:89-93 | a built statement creates the unquoted name |
| Ddl.AsWrittenTempAgrees | lib/dialects/sqlite3/schema/ddl.js:89-93 | as written, the copy statement is the corrected one whenever the table's name occurs first at its own name token |
| Ddl.TempTableSqlBuilt | lib/dialects/sqlite3/schema/ddl.js:89-93 | the corrected copy statement has the same definitions and creates the temporary name |
| Ddl.TempPrefixNameOk | lib/dialects/sqlite3/schema/ddl.js:29 | every `_knex_temp_alter<n>` name is a plain table name |
| Ddl.JoinSingleLine | lib/dialects/sqlite3/schema/ddl.js:178-180 | the joined items stay on one line iff every item does |
| Ddl.FindColumn | lib/dialects/sqlite3/schema/ddl.js:36-38 | finds the first pragma row with the name, and finds one iff some row has it |
| Ddl.SQLite3Ddl.constructor | lib/dialects/sqlite3/schema/ddl.js:24-31 | the temporary name is `_knex_temp_alter` followed by the next id, and the id counter goes up by one |
| Ddl.SQLite3Ddl.GetColumn | lib/dialects/sqlite3/schema/ddl.js:35-41 | succeeds iff a pragma row has the name, and otherwise fails with the source's not-in-table error |
| Ddl.SQLite3Ddl.AlterOutcome | lib/dialects/sqlite3/schema/ddl.js:197-202 | in either version, when the copy statement creates the temporary name, the new statement creates the table and the temporary name is free, the six steps leave the table with the new statement and the transformed rows, and nothing else changed |
| Ddl.SQLite3Ddl.InsertChunked | lib/dialects/sqlite3/schema/ddl.js:69-87 | inserts the transformed rows in batches of 20, resolves to the row count, and on a failed insert gives its error and leaves the tables as before |
| Ddl.SQLite3Ddl.CreateTempTable | lib/dialects/sqlite3/schema/ddl.js:89-93 | runs `TempSql(v, sql)`: as written the first occurrence of the table's name anywhere in the statement is replaced by the temporary name, corrected only the name token is; the table it names is created, or the step fails with nothing changed |
| Ddl.SQLite3Ddl.CopyData | lib/dialects/sqlite3/schema/ddl.js:59-61 | copies the original's rows into the temporary table |
| Ddl.SQLite3Ddl.ReinsertData | lib/dialects/sqlite3/schema/ddl.js:63-67 | reinserts the transformed rows of the temporary table into the new table |
| Ddl.SQLite3Ddl.DropOriginal | lib/dialects/sqlite3/schema/ddl.js:51-53 | drops the original table |
| Ddl.SQLite3Ddl.DropTempTable | lib/dialects/sqlite3/schema/ddl.js:55-57 | drops the temporary table |
| Ddl.SQLite3Ddl.Alter | lib/dialects/sqlite3/schema/ddl.js:187-204 | runs the six steps of the given version in one transaction; on failure the tables are as before |
| Ddl.SQLite3Ddl.RebuildFromTemp | lib/dialects/sqlite3/schema/ddl.js:197-202 | once the temporary table exists, copies the rows into it, drops the original, creates the new table, copies the rows back through the transform and drops the temporary table, stopping at the first step that fails; on success the tables are those `StepsAfterTemp` computes |
| Ddl.SQLite3Ddl.PlanCases | lib/dialects/sqlite3/schema/ddl.js:189-196 | the plan fails with the lookup's error, then with the missing-schema error, then with the rewrite's error; corrected, an unchanged statement is refused; otherwise it gives the stored and the rewritten statement |
| Ddl.SQLite3Ddl.RebuildOutcome | lib/dialects/sqlite3/schema/ddl.js:197-202 | rebuilding a table under a one-line statement of the same name keeps every other table and leaves this one with the new statement and each row passed through the transform; as written this needs the table's name to occur first at its name token |
| Ddl.SQLite3Ddl.RenameColumnOutcome | lib/dialects/sqlite3/schema/ddl.js:184-205 | corrected, on a stored table whose other items do not mention the column, the rename fails only when nothing changes; otherwise the table ends with the renamed definition and each row with the value moved to the new name |
| Ddl.SQLite3Ddl.RenameAsWrittenOutcome | lib/dialects/sqlite3/schema/ddl.js:184-205 | as written, the rename is never refused, and the table ends with the renamed definition and each row passed through the written transform |
| Ddl.SQLite3Ddl.DropColumnOutcome | lib/dialects/sqlite3/schema/ddl.js:207-226 | corrected, on a stored table with two or more items whose other items do not mention the column, the table ends without that definition and without that column in any row |
| Ddl.SQLite3Ddl.DropFirstAsWritten | lib/dialects/sqlite3/schema/ddl.js:207-219 | as written, dropping the first column is not refused and the statement handed to the engine opens its column list with `, ` |
| Ddl.SQLite3Ddl.TableTAsWritten | lib/dialects/sqlite3/schema/ddl.js:89-93 | as written, rebuilding a table named `T` fails at its first step and leaves every table as it was |
| Ddl.SQLite3Ddl.RenameToItselfUnchanged | lib/dialects/sqlite3/schema/ddl.js:193 | renaming a column to itself leaves the statement unchanged |
| Ddl.SQLite3Ddl.RenameToItselfAsWritten | lib/dialects/sqlite3/schema/ddl.js:194-202 | as written, renaming a column to itself goes ahead: the plan keeps the statement, the rebuild completes, and every row copied back has lost that column |
| Ddl.SQLite3Ddl.RenameToItselfRefused | lib/dialects/sqlite3/schema/ddl.js:194-196 | with the guard comparing the statements, renaming a column to itself is refused |
| Ddl.SQLite3Ddl.RenameColumn | lib/dialects/sqlite3/schema/ddl.js:184-205 | in either version, a failed lookup or rewrite (or, corrected, an unchanged statement) leaves the tables unchanged; otherwise it runs the version's rebuild with the version's renaming row transform |
| Ddl.SQLite3Ddl.DropColumn | lib/dialects/sqlite3/schema/ddl.js:207-226 | in either version, a failed lookup or rewrite (or, corrected, an unchanged statement) leaves the tables unchanged; otherwise it runs the version's rebuild with the version's dropping row transform |

## Definitions

The functions below define what the code computes and carry no contract
of their own; the lemmas named beside each state what they do.

| definition | source | stated by |
|---|---|---|
| DdlRewrite.Classify | lib/dialects/sqlite3/schema/ddl.js:134-162 | ColumnDefIff, ColumnDefMentions, UnmentionedUnchanged |
| DdlRewrite.RewriteItem | lib/dialects/sqlite3/schema/ddl.js:133-177 | RenameColumnDef, DropColumnDef, RewriteKeyConstraint, RewriteForeignKey, ForeignKeyNeedsReferences, RewriteFailsOnlyOnForeignKey, OtherItemUnchanged, UnmentionedUnchanged |
| DdlRewrite.AsWrittenReplace | lib/dialects/sqlite3/schema/ddl.js:178-180 | AsWrittenAgrees, AsWrittenRenameOnBuilt, AsWrittenDropFirstLeavesComma |
| DdlRewrite.CorrectedReplace | lib/dialects/sqlite3/schema/ddl.js:178-180 | CorrectedOnBuilt, RenameOnBuilt, DropOnBuilt |
| DdlRewrite.Replace | lib/dialects/sqlite3/schema/ddl.js:95-181 | DoReplace |
| Ddl.AsWrittenTempTableSql | lib/dialects/sqlite3/schema/ddl.js:91 | AsWrittenTempTableHitsKeyword, AsWrittenTempAgrees |
| Queries.PlainQuery | lib/schema/columncompiler.js:58 | ToSQL, CreateQuery, DropIndex, DropUnique, Index, Unique |
| Formatter.QuoteEach | lib/formatter.js:171-179 | WrapStrSegments, WrapStrIdentity, WrapDotted |
| Formatter.WrappedColumns | lib/formatter.js:33-41 | Columnize, PrimaryKeysUnwrap, PrimaryKeysPlain |
| Formatter.Substitute | lib/formatter.js:46-55 | Parameterize |
| Ddl.TempTableSql | lib/dialects/sqlite3/schema/ddl.js:91 | TempTableSqlBuilt |
| Ddl.SQLite3Ddl.TempSql | lib/dialects/sqlite3/schema/ddl.js:89-93 | CreateTempTable, AlterOutcome, RebuildOutcome |
| Ddl.RenamedRowAsWritten | lib/dialects/sqlite3/schema/ddl.js:199-202 | RenameAsWrittenLosesTarget, RenameToItselfAsWritten |
| Ddl.DroppedRowAsWritten | lib/dialects/sqlite3/schema/ddl.js:221-223 | DropAsWrittenLosesSubstrings |
| Ddl.SQLite3Ddl.AlterSteps | lib/dialects/sqlite3/schema/ddl.js:197-202 | AlterOutcome, RebuildOutcome, TableTAsWritten, Alter |
| Ddl.SQLite3Ddl.StepsAfterTemp | lib/dialects/sqlite3/schema/ddl.js:197-202 | RebuildFromTemp, AlterOutcome, RebuildOutcome |
| Ddl.SQLite3Ddl.PlanWith | lib/dialects/sqlite3/schema/ddl.js:189-196 | PlanCases, PlanOn |
| Ddl.SQLite3Ddl.RenamePlan | lib/dialects/sqlite3/schema/ddl.js:189-196 | RenameColumnOutcome, RenameAsWrittenOutcome, RenameToItselfAsWritten, RenameToItselfRefused, RenameColumn |
| Ddl.SQLite3Ddl.DropPlan | lib/dialects/sqlite3/schema/ddl.js:212-218 | DropColumnOutcome, DropFirstAsWritten, DropColumn |
| ColumnCompiler.IsTypeFunction | lib/schema/columncompiler.js:88-91 | ArgsAfterType, GetColumnType |
| ColumnCompiler.TypeSql | lib/schema/columncompiler.js:110-138 | VarcharLength, FloatingDefaults, CompiledVarchar |
| Dash.IsEmpty | dash.js:54-56 | First |
| Js.LooseEquals | dash.js:17 | LooseEqualsSymmetric, LooseEqualsReflexive, KeysNotEqual |
| TableCompiler.ForeignClause | lib/dialects/sqlite3/schema/tablecompiler.js:116-122 | ForeignClauseParts, ForeignClauseHead, ForeignKeyClause |
| TableCompiler.CreateSql | lib/dialects/sqlite3/schema/tablecompiler.js:46-58 | CreateSqlShape, CreateSqlWithoutKeys, CreateQuery |
| TableCompiler.PragmaSql | lib/dialects/sqlite3/schema/tablecompiler.js:135 | RenameColumn, DropColumn |

## Left out

- Promises, the client, connections and transactions are not modelled as
  such. Each step is a call on a `Database` object, and the transaction is
  a saved copy of its tables that is restored on failure.
- The database checks only the name in a `CREATE TABLE` statement. It does
  not check column definitions or constraints, and it accepts a table with
  no column list.
- `client.wrapIdentifier`, `tableCompiler.tableName()`, `_indexCommand` and
  the pragma result are parameters. Their quoting rules are not modelled.
- `renameTable` (lib/dialects/sqlite3/schema/ddl.js:47-49) is never called
  by the rebuild and is not modelled.
- Ddl.SQLite3Ddl.InsertChunked: the `amount` argument is ignored, as it is
  in the source, which always uses 20.
- The `Raw`, `QueryBuilder` and function-valued arguments of the Formatter
  (`unwrapRaw`, `rawOrFn`, `compileCallback`) are not modelled; the
  `defaultTo` raw path is not modelled either.
- The JSON copy in `dash.override`, `dash.toObject`, `helpers.warn`, the
  base `TableCompiler` and `lib/index.js`/`lib/functionhelper.js` are not
  part of this model.
- `CREATE` statements spanning several lines, and a source-map comment at
  the end of a file, are not modelled. The rewriter's regular expressions
  are modelled for a single line.
- ColumnCompiler.ParseInt: integers past 2^53 are not rounded as a double
  would round them.
- JavaScript puts integer-like keys first in `Object.keys`; the model keeps
  insertion order for all keys.
- ColumnCompiler.ModifierList: a modifier name the compiler does not define
  is not modelled.
- Formatter.AliasReadBack holds only when the first part does not itself
  end in ` as `.
- Ddl.SQLite3Ddl.DropColumnOutcome needs at least two items. Dropping the
  only column leaves no column definitions, which the database model does
  not reject.
- Queries pushed by `pushQuery` carry no bindings.
- Dash.GroupBy: a key that names a property of `Object.prototype`
  (`constructor`, `__proto__`, `toString`, ...) is an ordinary key in the
  model. In the source `map[key]` reads the inherited value there, and the
  `push` on it throws. Objects have no prototype in this model.
- Dash.PickByArray: `key in object` also finds inherited properties such
  as `toString`; the model looks only at the object's own keys, for the
  same reason.
- Js.LooseEquals: a string compared with a number is converted only when
  it is empty or a run of decimal digits. `"-1" == -1`, `" 1" == 1` and
  `"1.0" == 1` are false in the model and true in JavaScript. Signs,
  white space, fractions and exponents in numeric strings are not
  modelled.
- Ddl.SQLite3Ddl.DropColumnOutcome states the corrected drop. As written,
  the drop is stated for the first column (DropFirstAsWritten), for the
  row transform (DropAsWrittenLosesSubstrings) and for a table named `T`
  (TableTAsWritten), not for every column position.
- DdlRewrite.RewriteKeyConstraint, DdlRewrite.RewriteForeignKey and
  Text.ReplaceFirst: JavaScript's `replace` interprets `$$`, `$&`, `` $` ``
  and `$'` in the replacement text; the model inserts the replacement as
  it is. A new column name containing `$` (`x$$` gives `x$` in JavaScript)
  is therefore written differently.
- Text.ToLower and Text.LowerChar map only ASCII `A`-`Z`. JavaScript's
  `toLowerCase` maps all of Unicode, so for non-ASCII letters the column
  type (ColumnCompiler constructor), the operator check (Formatter.Operator,
  where `LI\u212AE` is `like` in JavaScript), Formatter.Direction, the
  ` as ` search of `_wrapString` and ContainsIgnoringCase differ.
- Js.Value: numbers are integers. Fractions (`defaultTo(1.5)`, a bound
  `1.5`) are not modelled, and integers of 1e21 and beyond are written
  as plain digits where JavaScript writes exponent form (`1e+21`).
- ColumnCompiler.TypeSql: the source looks the type up as any property
  of the compiler (`this[this.type]`). A type named after another member
  (`nullable`, `type`, `args`, `sequence`, `formatter`, ...) calls or
  prints that member, and `nullable` also shifts the arguments. The model
  gives `undefined` for every name it does not list; the schema builder
  only produces the listed types.
- Ddl.SQLite3Ddl.RenameAsWrittenOutcome holds where the renamed statement
  has no stray comma and the table's name occurs first at its own name
  token; a table named `T` is stated by TableTAsWritten.

## Findings

| source | as written | input that shows it | evidently intended | confidence | as-written member | corrected member |
|---|---|---|---|---|---|---|
| lib/dialects/sqlite3/schema/ddl.js:199-202 | `dash.omit(row, from)` passes a string, and `omit` tests `keys.indexOf(key)`, which for a string is a substring search | rename column `ab` to `b`: the new `b` is set and then removed because `b` occurs in `"ab"` | omit exactly the key `from` | not executed | Ddl.RenameAsWrittenLosesTarget | Ddl.RenamedRow |
| lib/dialects/sqlite3/schema/ddl.js:221-223 | `dash.omit(row, column)` with a string removes every key that occurs inside the column name | drop column `ab` from rows with keys `a`, `ab` and `b`: all three are removed | remove only the dropped column | not executed | Ddl.DropAsWrittenLosesSubstrings | Ddl.DroppedRow |
| lib/dialects/sqlite3/schema/ddl.js:194 | `sql === newSql` compares the `sqlite_master` result array with a string, so it is never true | `renameColumn('a', 'a')`: the rebuild runs, and the row transform sets `a` and then omits it | refuse when the rewritten statement equals the stored one | not executed | Ddl.SQLite3Ddl.RenameToItselfAsWritten | Ddl.SQLite3Ddl.RenameToItselfRefused |
| lib/dialects/sqlite3/schema/ddl.js:91 | `sql.replace(tableName, alteredName)` replaces the first occurrence of the table name anywhere in the statement | table `T`: the `T` of `CREATE` is replaced, so the statement no longer reads as `CREATE TABLE` | replace the table name after `CREATE TABLE ` | not executed | Ddl.SQLite3Ddl.TableTAsWritten | Ddl.TempTableSqlBuilt |
| lib/dialects/sqlite3/schema/ddl.js:178-180 | empty items are joined with `, `, and `/,\s*([,)])/` removes only a comma before `,` or `)` | drop the first column of `CREATE TABLE t (a, b)`: the result is `CREATE TABLE t (, b)` | drop the empty item so that no stray comma is left | not executed | Ddl.SQLite3Ddl.DropFirstAsWritten | Ddl.SQLite3Ddl.DropColumnOutcome |
| dash.js:14-22 | `omitBy` stores `val` instead of `obj[key]` under each kept key | `omitBy({a: 1}, 2)` gives `{a: 2}` | keep each kept key's value | not executed | Dash.OmitByAsWrittenLosesValues | Dash.OmitByLoop |
