/**
  The queries a compiler pushes onto its sequence: the SQL text, its
  bindings and, for the SQLite3 rename/drop column commands, the hand-off
  that runs once the `PRAGMA table_info` result is back.
*/
module Queries {
  import opened Js

  /** What a query's `output` callback hands the PRAGMA result to. */
  datatype Output =
    | NoOutput
    | RenameColumnHandOff(from: string, to: string)
    | DropColumnHandOff(column: string)

  datatype Query = Query(sql: string, bindings: seq<Value>, output: Output)

  /** `pushQuery(sql)` with a plain string: no bindings of its own, no output. */
  function PlainQuery(sql: string): Query {
    Query(sql, [], NoOutput)
  }
}
