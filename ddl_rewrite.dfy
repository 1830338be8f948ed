/**
  The text rewriting behind the SQLite column rename and drop: the match of
  the stored `CREATE TABLE` statement, the scanner that cuts its column
  list at top-level commas, the per-item rewriter, and the reassembly.
  Everything here is a pure function of its inputs except the scanner,
  which keeps the source's loop and is proved against `Items`.
*/
module DdlRewrite {
  import opened Results
  import opened Text

  /** The ways the column rename and drop can fail. */
  datatype DdlError =
    | NoMatch                                   // `matched` is null: reading `matched[1]` throws
    | NoColumnDefinitions                       // the column list is empty
    | MissingReferences                         // a foreign item without ` references `: `split[1]` is undefined
    | ColumnNotFound(column: string, table: string)
    | ColumnUnchanged                           // the rewrite left the statement as it was
    | StatementFailed(statement: string)        // the engine rejected a statement
    | NoSchemaRow                               // `sql[0]` is undefined: reading `.sql` throws

  /** The message each error carries. */
  function Message(e: DdlError): (m: string)
    ensures e.ColumnNotFound? ==> m == "The column " + e.column + " is not in the " + e.table + " table"
    ensures e.NoColumnDefinitions? ==> m == "No column definitions in this statement!"
    ensures e.ColumnUnchanged? ==> m == "Unable to find the column to change"
  {
    match e
    case NoMatch => "Cannot read property '1' of null"
    case NoColumnDefinitions => "No column definitions in this statement!"
    case MissingReferences => "Cannot read property 'slice' of undefined"
    case ColumnNotFound(column, table) => "The column " + column + " is not in the " + table + " table"
    case ColumnUnchanged => "Unable to find the column to change"
    case StatementFailed(statement) => statement
    case NoSchemaRow => "Cannot read property 'sql' of undefined"
  }

  // ---------------------------------------------------------------------
  // /^CREATE TABLE (\S+) \((.*)\)/
  // ---------------------------------------------------------------------

  const CreatePrefix: string := "CREATE TABLE "

  /** The two capture groups of the statement match. */
  datatype CreateMatch = CreateMatch(tableName: string, defs: string)

  /**
    `sql.match(/^CREATE TABLE (\S+) \((.*)\)/)`: the name is the run of
    non-space characters after the prefix (it must be followed by ` (`), and
    the column list runs up to the last `)` on that line.
  */
  function MatchCreate(sql: string): (r: Option<CreateMatch>)
    ensures !StartsWith(sql, CreatePrefix) ==> r.None?
    ensures r.Some? ==>
              var n := |CreatePrefix| + |r.value.tableName| + 2 + |r.value.defs|;
              && r.value.tableName != []
              && (forall k :: 0 <= k < |r.value.tableName| ==> !IsSpace(r.value.tableName[k]))
              && (forall k :: 0 <= k < |r.value.defs| ==> !IsLineTerminator(r.value.defs[k]))
              && n < |sql|
              && sql[..n + 1] == CreatePrefix + r.value.tableName + " (" + r.value.defs + ")"
              && (forall k :: n < k < LineEnd(sql, n) ==> sql[k] != ')')
  {
    if !StartsWith(sql, CreatePrefix) then None
    else
      var e := NonSpaceRun(sql, |CreatePrefix|);
      if e == |CreatePrefix| || e + 1 >= |sql| || sql[e] != ' ' || sql[e + 1] != '(' then None
      else
        var end := LineEnd(sql, e + 2);
        var j := LastIndexIn(sql, ')', e + 2, end);
        if j < 0 then None
        else
          MatchedShape(sql, e, j);
          Some(CreateMatch(sql[|CreatePrefix|..e], sql[e + 2..j]))
  }

  /** What the match captures when the name, the ` (` and a `)` on the line are found. */
  lemma MatchedShape(sql: string, e: nat, j: nat)
    requires StartsWith(sql, CreatePrefix)
    requires |CreatePrefix| < e && e + 1 < |sql| && sql[e] == ' ' && sql[e + 1] == '('
    requires NonSpaceRun(sql, |CreatePrefix|) == e
    requires e + 2 <= LineEnd(sql, e + 2) && LastIndexIn(sql, ')', e + 2, LineEnd(sql, e + 2)) == j
    ensures var name, defs := sql[|CreatePrefix|..e], sql[e + 2..j];
            var n := |CreatePrefix| + |name| + 2 + |defs|;
            && name != []
            && (forall k :: 0 <= k < |name| ==> !IsSpace(name[k]))
            && (forall k :: 0 <= k < |defs| ==> !IsLineTerminator(defs[k]))
            && n < |sql|
            && sql[..n + 1] == CreatePrefix + name + " (" + defs + ")"
            && (forall k :: n < k < LineEnd(sql, n) ==> sql[k] != ')')
  {
    var p := |CreatePrefix|;
    var end := LineEnd(sql, e + 2);
    var name, defs := sql[p..e], sql[e + 2..j];
    forall k | 0 <= k < |name| ensures !IsSpace(name[k]) {
      assert name[k] == sql[p + k];
    }
    forall k | 0 <= k < |defs| ensures !IsLineTerminator(defs[k]) {
      assert defs[k] == sql[e + 2 + k];
    }
    LineEndLater(sql, e + 2, j);
    CapturedSlices(sql, e, j);
  }

  /** The matched text is the prefix, the name, ` (`, the column list and `)`, cut where they were found. */
  lemma CapturedSlices(sql: string, e: nat, j: nat)
    requires StartsWith(sql, CreatePrefix)
    requires |CreatePrefix| < e && e + 2 <= j < |sql|
    requires sql[e] == ' ' && sql[e + 1] == '(' && sql[j] == ')'
    ensures sql[..j + 1] == CreatePrefix + sql[|CreatePrefix|..e] + " (" + sql[e + 2..j] + ")"
  {
    var p := |CreatePrefix|;
    assert sql[..j + 1] == sql[..p] + sql[p..e] + sql[e..e + 2] + sql[e + 2..j] + sql[j..j + 1];
    assert sql[e..e + 2] == " (";
    assert sql[j..j + 1] == ")";
  }

  /** From inside a line, the line ends where it ends from its start. */
  lemma LineEndLater(s: string, a: nat, b: nat)
    requires a <= |s|
    requires a <= b <= LineEnd(s, a)
    ensures b <= |s| && LineEnd(s, b) == LineEnd(s, a)
    decreases b - a
  {
    if a < b {
      assert LineEnd(s, a) == LineEnd(s, a + 1);
      LineEndLater(s, a + 1, b);
    }
  }

  /** A statement built from a name and a single-line column list matches back to both. */
  lemma MatchCreateBuilt(name: string, defs: string)
    requires name != [] && forall k :: 0 <= k < |name| ==> !IsSpace(name[k])
    requires forall k :: 0 <= k < |defs| ==> !IsLineTerminator(defs[k])
    ensures MatchCreate(CreatePrefix + name + " (" + defs + ")") == Some(CreateMatch(name, defs))
  {
    var sql := CreatePrefix + name + " (" + defs + ")";
    var p := |CreatePrefix|;
    var e := p + |name|;
    BuiltParts(name, defs);
    NameRunEnds(sql, p, e, name);
    DefsReachLineEnd(sql, e + 2, defs);
    assert LastIndexIn(sql, ')', e + 2, |sql|) == |sql| - 1;
  }

  /** The pieces a built statement is made of, read back by position. */
  lemma BuiltParts(name: string, defs: string)
    ensures var sql := CreatePrefix + name + " (" + defs + ")";
            var e := |CreatePrefix| + |name|;
            && |sql| == e + 3 + |defs|
            && StartsWith(sql, CreatePrefix)
            && sql[|CreatePrefix|..e] == name
            && sql[e] == ' ' && sql[e + 1] == '(' && sql[|sql| - 1] == ')'
            && sql[e + 2..|sql| - 1] == defs
  {
    var sql := CreatePrefix + name + " (" + defs + ")";
    assert sql[..|CreatePrefix|] == CreatePrefix;
  }

  /** A run of non-space characters that a space ends. */
  lemma NameRunEnds(sql: string, p: nat, e: nat, name: string)
    requires p < e < |sql| && sql[p..e] == name && sql[e] == ' '
    requires forall k :: 0 <= k < |name| ==> !IsSpace(name[k])
    ensures NonSpaceRun(sql, p) == e
  {
    forall k | p <= k < e ensures !IsSpace(sql[k]) {
      assert sql[k] == name[k - p];
    }
  }

  /** A single-line column list and its closing parenthesis reach the end of the line. */
  lemma DefsReachLineEnd(sql: string, from: nat, defs: string)
    requires from < |sql| && sql[from..|sql| - 1] == defs
    requires forall k :: 0 <= k < |defs| ==> !IsLineTerminator(defs[k])
    requires sql[|sql| - 1] == ')'
    ensures LineEnd(sql, from) == |sql|
  {
    forall k | from <= k < |sql| ensures !IsLineTerminator(sql[k]) {
      if k < |sql| - 1 {
        assert sql[k] == defs[k - from];
      }
    }
  }

  // ---------------------------------------------------------------------
  // The scanner: top-level commas
  // ---------------------------------------------------------------------

  function Delta(c: char): int {
    if c == '(' then 1 else if c == ')' then -1 else 0
  }

  /** The parenthesis depth after reading `s`: opened minus closed. */
  function Depth(s: string): int
    decreases |s|
  {
    if s == [] then 0 else Depth(s[..|s| - 1]) + Delta(s[|s| - 1])
  }

  /** The commas of `s` read at depth 0: the places where the scanner cuts. */
  function CutCount(s: string): nat
    decreases |s|
  {
    if s == [] then 0
    else CutCount(s[..|s| - 1]) + if s[|s| - 1] == ',' && Depth(s[..|s| - 1]) == 0 then 1 else 0
  }

  /**
    The pieces of `s` between the commas read at depth 0, as they stand
    in the text (before leading spaces are skipped).
  */
  function Segments(s: string): (r: seq<string>)
    ensures |r| >= 1
    decreases |s|
  {
    if s == [] then [""]
    else
      var p := s[..|s| - 1];
      var segs := Segments(p);
      if s[|s| - 1] == ',' && Depth(p) == 0 then segs + [""]
      else segs[..|segs| - 1] + [segs[|segs| - 1] + [s[|s| - 1]]]
  }

  /** Every piece without its leading spaces. */
  function TrimAll(segs: seq<string>): (r: seq<string>)
    ensures |r| == |segs|
  {
    seq(|segs|, k requires 0 <= k < |segs| => TrimLeadingBlanks(segs[k]))
  }

  /**
    The items the scanner pushes: the pieces between the commas read at
    depth 0, each without its leading spaces.
  */
  function Items(s: string): (r: seq<string>)
    ensures |r| >= 1
  {
    TrimAll(Segments(s))
  }

  /**
    The scanner loop of the rewrite: cut at every comma read at depth 0,
    skip the spaces that open an item, push the final item at the end.
  */
  method Tokenize(defs: string) returns (args: seq<string>)
    ensures args == Items(defs)
  {
    var parens := 0;
    args := [];
    var ptr := 0;
    var i := 0;
    while i < |defs|
      invariant 0 <= ptr <= i <= |defs|
      invariant parens == Depth(defs[..i])
      invariant args + [defs[ptr..i]] == Items(defs[..i])
    {
      DepthStep(defs, i);
      ScanKeeps(defs, i, args, ptr);
      match defs[i] {
        case '(' =>
          parens := parens + 1;
        case ')' =>
          parens := parens - 1;
        case ',' =>
          if parens == 0 {
            args := args + [defs[ptr..i]];
            ptr := i + 1;
          }
        case ' ' =>
          if ptr == i {
            ptr := i + 1;
          }
        case _ =>
      }
      i := i + 1;
    }
    assert defs[..i] == defs;
    args := args + [defs[ptr..i]];
  }

  /** One step of the scanner over `defs[i]`: the depth. */
  lemma DepthStep(defs: string, i: nat)
    requires i < |defs|
    ensures Depth(defs[..i + 1]) == Depth(defs[..i]) + Delta(defs[i])
  {
    assert defs[..i + 1] == defs[..i] + [defs[i]];
    DepthSnoc(defs[..i], defs[i]);
  }

  /** One step of the scanner over `defs[i]`: the items. */
  lemma ScanStep(defs: string, i: nat)
    requires i < |defs|
    ensures var items := Items(defs[..i]);
            Items(defs[..i + 1])
            == if defs[i] == ',' && Depth(defs[..i]) == 0 then items + [""]
               else if items[|items| - 1] == [] && defs[i] == ' ' then items
               else items[..|items| - 1] + [items[|items| - 1] + [defs[i]]]
  {
    assert defs[..i + 1] == defs[..i] + [defs[i]];
    ItemsSnoc(defs[..i], defs[i], defs[..i + 1]);
  }

  /** The scanner's invariant survives the step over `defs[i]`, whichever branch it takes. */
  lemma ScanKeeps(defs: string, i: nat, args: seq<string>, ptr: nat)
    requires ptr <= i < |defs|
    requires args + [defs[ptr..i]] == Items(defs[..i])
    ensures defs[i] == ',' && Depth(defs[..i]) == 0 ==>
              (args + [defs[ptr..i]]) + [defs[i + 1..i + 1]] == Items(defs[..i + 1])
    ensures defs[i] == ' ' && ptr == i ==>
              args + [defs[i + 1..i + 1]] == Items(defs[..i + 1])
    ensures !(defs[i] == ',' && Depth(defs[..i]) == 0) && !(defs[i] == ' ' && ptr == i) ==>
              args + [defs[ptr..i + 1]] == Items(defs[..i + 1])
  {
    ScanStep(defs, i);
    assert defs[i + 1..i + 1] == [];
    assert defs[ptr..i + 1] == defs[ptr..i] + [defs[i]];
    StepShape(args, defs[ptr..i], defs[i], defs[i] == ',' && Depth(defs[..i]) == 0,
              Items(defs[..i]), Items(defs[..i + 1]));
  }

  /** The step formula of the items, read on `args + [last]`. */
  lemma StepShape(args: seq<string>, last: string, c: char, cut: bool,
                  items: seq<string>, next: seq<string>)
    requires items == args + [last]
    requires next == if cut then items + [""]
                     else if items[|items| - 1] == [] && c == ' ' then items
                     else items[..|items| - 1] + [items[|items| - 1] + [c]]
    ensures cut ==> next == items + [""]
    ensures !cut && last == [] && c == ' ' ==> next == args + [[]]
    ensures !cut && !(last == [] && c == ' ') ==> next == args + [last + [c]]
  {
    assert items[..|items| - 1] == args;
  }

  /** How the depth and the cut count grow by one character. */
  lemma DepthSnoc(s: string, c: char)
    ensures Depth(s + [c]) == Depth(s) + Delta(c)
    ensures CutCount(s + [c]) == CutCount(s) + if c == ',' && Depth(s) == 0 then 1 else 0
  {
    assert (s + [c])[..|s|] == s;
  }

  /** How the segments grow by one character. */
  lemma SegmentsSnoc(s: string, c: char)
    ensures var segs := Segments(s);
            Segments(s + [c])
            == if c == ',' && Depth(s) == 0 then segs + [""]
               else segs[..|segs| - 1] + [segs[|segs| - 1] + [c]]
  {
    assert (s + [c])[..|s|] == s;
  }

  lemma TrimAllSnoc(segs: seq<string>, x: string)
    ensures TrimAll(segs + [x]) == TrimAll(segs) + [TrimLeadingBlanks(x)]
  {
    assert (segs + [x])[..|segs|] == segs;
  }

  /**
    A comma read at depth 0, on the lists alone: when both lists gain an
    empty entry, the trimmed list gains an empty entry.
  */
  lemma TrimAllCut(segs: seq<string>, items: seq<string>)
    requires items == TrimAll(segs)
    ensures TrimAll(segs + [""]) == items + [""]
  {
    TrimAllSnoc(segs, "");
  }

  /**
    Any other character, on the lists alone: the last segment grows by it,
    and its trimmed form grows by it unless it is a space opening the item.
  */
  lemma TrimAllExtend(front: seq<string>, u: string, c: char)
    ensures TrimAll(front + [u]) == TrimAll(front) + [TrimLeadingBlanks(u)]
    ensures TrimAll(front + [u + [c]])
            == if TrimLeadingBlanks(u) == [] && c == ' ' then TrimAll(front + [u])
               else TrimAll(front) + [TrimLeadingBlanks(u) + [c]]
  {
    TrimAllSnoc(front, u);
    TrimAllSnoc(front, u + [c]);
    TrimLeadingBlanksSnoc(u, c);
  }

  /**
    How the items grow by one character: a comma at depth 0 opens a new
    item, a space opening an item is skipped, anything else extends the
    last item. This is the step the scanner loop takes.
  */
  lemma ItemsSnoc(s: string, c: char, t: string)
    requires t == s + [c]
    ensures var items := Items(s);
            Items(t)
            == if c == ',' && Depth(s) == 0 then items + [""]
               else if items[|items| - 1] == [] && c == ' ' then items
               else items[..|items| - 1] + [items[|items| - 1] + [c]]
  {
    if c == ',' && Depth(s) == 0 {
      ItemsAfterCut(s, c);
    } else {
      ItemsAfterExtend(s, c);
    }
  }

  /** A comma read at depth 0 opens a new, empty item. */
  lemma ItemsAfterCut(p: string, c: char)
    requires c == ',' && Depth(p) == 0
    ensures Items(p + [c]) == Items(p) + [""]
  {
    SegmentsSnoc(p, c);
    TrimAllCut(Segments(p), Items(p));
  }

  /** Any other character extends the last item, unless it is a space opening it. */
  lemma ItemsAfterExtend(p: string, c: char)
    requires !(c == ',' && Depth(p) == 0)
    ensures var items := Items(p);
            var n := |items|;
            Items(p + [c]) == if items[n - 1] == [] && c == ' ' then items else items[..n - 1] + [items[n - 1] + [c]]
  {
    var segs := Segments(p);
    var n := |segs|;
    var front, u := segs[..n - 1], segs[n - 1];
    assert segs == front + [u];
    SegmentsSnoc(p, c);
    var next := Segments(p + [c]);
    assert next == front + [u + [c]];
    TrimAllExtend(front, u, c);
    assert Items(p) == TrimAll(front + [u]);
    assert Items(p + [c]) == TrimAll(front + [u + [c]]);
    ExtendShape(TrimAll(front), TrimLeadingBlanks(u), c, Items(p), Items(p + [c]));
  }

  /** The extend step read on `t + [v]`: the last item grows by `c`, unless it is empty and `c` a space. */
  lemma ExtendShape(t: seq<string>, v: string, c: char, items: seq<string>, next: seq<string>)
    requires items == t + [v]
    requires next == if v == [] && c == ' ' then items else t + [v + [c]]
    ensures var n := |items|;
            next == if items[n - 1] == [] && c == ' ' then items else items[..n - 1] + [items[n - 1] + [c]]
  {
    assert items[..|items| - 1] == t;
  }

  /** One item per depth-0 comma, plus the final one. */
  lemma {:induction false} SegmentCount(s: string)
    ensures |Segments(s)| == CutCount(s) + 1
    decreases |s|
  {
    if s != [] {
      SegmentCount(s[..|s| - 1]);
    }
  }

  /** The segments joined back with commas are the text that was cut. */
  lemma {:induction false} JoinSegments(s: string)
    ensures Join(Segments(s), ",") == s
    decreases |s|
  {
    if s != [] {
      var p := s[..|s| - 1];
      var c := s[|s| - 1];
      assert s == p + [c];
      JoinSegments(p);
      JoinSegmentsStep(p, c);
    }
  }

  /** One more character read: the joined segments grow by that character. */
  lemma JoinSegmentsStep(p: string, c: char)
    requires Join(Segments(p), ",") == p
    ensures Join(Segments(p + [c]), ",") == p + [c]
  {
    SegmentsSnoc(p, c);
    if c == ',' && Depth(p) == 0 {
      JoinEmptyLast(Segments(p), ",");
    } else {
      JoinGrowLast(Segments(p), ",", c);
    }
  }

  /** An empty last part adds only the separator. */
  lemma JoinEmptyLast(parts: seq<string>, sep: string)
    requires parts != []
    ensures Join(parts + [""], sep) == Join(parts, sep) + sep
  {
    assert (parts + [""])[..|parts|] == parts;
  }

  /** A character added to the last part is added to the end of the join. */
  lemma JoinGrowLast(parts: seq<string>, sep: string, c: char)
    requires parts != []
    ensures var n := |parts|;
            Join(parts[..n - 1] + [parts[n - 1] + [c]], sep) == Join(parts, sep) + [c]
  {
    var n := |parts|;
    var r := parts[..n - 1] + [parts[n - 1] + [c]];
    assert r[..n - 1] == parts[..n - 1];
  }

  /** Depth adds up over concatenation. */
  lemma {:induction false} DepthAppend(s: string, t: string)
    ensures Depth(s + t) == Depth(s) + Depth(t)
    decreases |t|
  {
    if t == [] {
      assert s + t == s;
    } else {
      var t' := t[..|t| - 1];
      var c := t[|t| - 1];
      assert t == t' + [c];
      assert s + t == (s + t') + [c];
      DepthAppend(s, t');
      DepthSnoc(s + t', c);
      DepthSnoc(t', c);
    }
  }

  /**
    Text with no comma at its own top level, read after a balanced prefix,
    only extends the last segment.
  */
  lemma {:induction false} SegmentsAppend(s: string, t: string)
    requires Depth(s) == 0 && CutCount(t) == 0
    ensures var segs := Segments(s);
            Segments(s + t) == segs[..|segs| - 1] + [segs[|segs| - 1] + t]
    decreases |t|
  {
    var segs := Segments(s);
    var n := |segs|;
    if t == [] {
      assert s + t == s;
      assert segs[n - 1] + t == segs[n - 1];
      assert segs[..n - 1] + [segs[n - 1]] == segs;
    } else {
      var t' := t[..|t| - 1];
      var c := t[|t| - 1];
      assert t == t' + [c];
      assert s + t == (s + t') + [c];
      DepthSnoc(t', c);
      SegmentsAppend(s, t');
      DepthAppend(s, t');
      SegmentsAppendStep(s, t', c);
    }
  }

  /** One more character of comma-free text: it extends the last segment. */
  lemma SegmentsAppendStep(s: string, t: string, c: char)
    requires Depth(s + t) == Depth(t) && !(c == ',' && Depth(t) == 0)
    requires var segs := Segments(s);
             Segments(s + t) == segs[..|segs| - 1] + [segs[|segs| - 1] + t]
    ensures var segs := Segments(s);
            Segments((s + t) + [c]) == segs[..|segs| - 1] + [segs[|segs| - 1] + (t + [c])]
  {
    var segs := Segments(s);
    var n := |segs|;
    SegmentsSnoc(s + t, c);
    var segs' := Segments(s + t);
    assert segs'[..n - 1] == segs[..n - 1];
    assert segs[n - 1] + t + [c] == segs[n - 1] + (t + [c]);
  }

  /**
    An item the scanner keeps whole: balanced parentheses, no comma at its
    own top level, and no leading space.
  */
  predicate Plain(x: string) {
    Depth(x) == 0 && CutCount(x) == 0 && (x == [] || x[0] != ' ')
  }

  /**
    Joining plain items with `", "` and scanning the result gives the same
    items back, one per clause.
  */
  lemma {:induction false} TokenizeJoin(xs: seq<string>)
    requires |xs| >= 1
    requires forall k :: 0 <= k < |xs| ==> Plain(xs[k])
    ensures Items(Join(xs, ", ")) == xs
    ensures Depth(Join(xs, ", ")) == 0
    decreases |xs|
  {
    var n := |xs|;
    if n == 1 {
      TokenizeSingle(xs[0]);
    } else {
      var ys, x := xs[..n - 1], xs[n - 1];
      assert ys + [x] == xs;
      assert forall k :: 0 <= k < |ys| ==> Plain(ys[k]) by {
        forall k | 0 <= k < |ys| ensures Plain(ys[k]) {
          assert ys[k] == xs[k];
        }
      }
      TokenizeJoin(ys);
      JoinLast(xs, ", ");
      ItemsStep(Join(ys, ", "), x);
    }
  }

  /** The last part of a join comes after the last separator. */
  lemma JoinLast(xs: seq<string>, sep: string)
    requires |xs| >= 2
    ensures Join(xs, sep) == Join(xs[..|xs| - 1], sep) + sep + xs[|xs| - 1]
  {
  }

  /** A single plain item scans to itself. */
  lemma TokenizeSingle(x: string)
    requires Plain(x)
    ensures Items(x) == [x] && Depth(x) == 0
  {
    SingleSegment(x);
    assert TrimLeadingBlanks(x) == x;
  }

  /** Text with no comma at its own top level is one segment. */
  lemma SingleSegment(x: string)
    requires CutCount(x) == 0
    ensures Segments(x) == [x]
  {
    SegmentsAppend([], x);
    assert [] + x == x;
  }

  /** The items of balanced text followed by `", "` and a plain item. */
  lemma ItemsStep(j: string, x: string)
    requires Depth(j) == 0 && Plain(x)
    ensures Items(j + ", " + x) == Items(j) + [x]
    ensures Depth(j + ", " + x) == 0
  {
    var segs := Segments(j);
    assert Segments(j + ", " + x) == segs + [" " + x] by {
      JoinStep(j, x);
    }
    assert Depth(j + ", " + x) == 0 by {
      JoinStep(j, x);
    }
    assert TrimLeadingBlanks(" " + x) == x by {
      assert (" " + x)[1..] == x;
    }
    assert TrimAll(segs + [" " + x]) == TrimAll(segs) + [x] by {
      TrimAllSnoc(segs, " " + x);
    }
  }

  /** A plain item after `", "` behind balanced text becomes one more segment. */
  lemma JoinStep(j: string, x: string)
    requires Depth(j) == 0 && Plain(x)
    ensures Segments(j + ", " + x) == Segments(j) + [" " + x]
    ensures Depth(j + ", " + x) == 0
  {
    var segs0 := Segments(j);
    CommaSpaceStep(j);
    SegmentsAppend(j + ", ", x);
    assert (segs0 + [" "])[..|segs0|] == segs0;
    DepthAppend(j + ", ", x);
  }

  /** `", "` behind balanced text opens a segment holding the space. */
  lemma CommaSpaceStep(j: string)
    requires Depth(j) == 0
    ensures Segments(j + ", ") == Segments(j) + [" "]
    ensures Depth(j + ", ") == 0
  {
    var segs0 := Segments(j);
    SegmentsSnoc(j, ',');
    DepthSnoc(j, ',');
    assert j + "," == j + [','];
    assert Segments(j + ",") == segs0 + [""];
    assert CutCount(" ") == 0 && Depth(" ") == 0 by {
      assert " "[..0] == [];
    }
    SegmentsAppend(j + ",", " ");
    assert j + ", " == (j + ",") + " ";
    assert (segs0 + [""])[..|segs0|] == segs0;
    assert "" + " " == " ";
    assert Depth(", ") == 0 by {
      assert ", "[..1] == ",";
      assert ","[..0] == [];
    }
    DepthAppend(j, ", ");
  }

  /** Every depth-0 comma is a cut: the pieces joined back give the text. */
  lemma ItemCount(defs: string)
    ensures |Items(defs)| == CutCount(defs) + 1
  {
    SegmentCount(defs);
  }

  // ---------------------------------------------------------------------
  // The per-item rewrite
  // ---------------------------------------------------------------------

  /**
    `split[idx]` as `RegExp.prototype.test` reads it: past the end the
    element is `undefined`, which is tested as the text "undefined".
  */
  function TokenAt(split: seq<string>, idx: nat): string {
    if idx < |split| then split[idx] else "undefined"
  }

  /**
    Where the clause keyword sits: two tokens on when the first token
    contains "constraint" in any case (it then names the constraint).
  */
  function KeywordIndex(first: string): nat {
    if ContainsIgnoringCase(first, "constraint") then 2 else 0
  }

  /** The four kinds of item the rewriter tells apart. */
  datatype ItemKind = ColumnDef | KeyConstraint | ForeignKey | OtherItem

  /**
    A column definition when the first space-separated token is the column
    exactly; otherwise the keyword decides: `primary` or `unique` in any
    case, `foreign` in lower case only.
  */
  function Classify(item: string, from: string): ItemKind {
    var split := Split(item, ' ');
    if split[0] == from then ColumnDef
    else
      var keyword := TokenAt(split, KeywordIndex(split[0]));
      if ContainsIgnoringCase(keyword, "primary") || ContainsIgnoringCase(keyword, "unique") then KeyConstraint
      else if IndexOf(keyword, "foreign") >= 0 then ForeignKey
      else OtherItem
  }

  const References: string := " references "

  /**
    The rewrite of one item: a column definition is renamed (or emptied on
    a drop); a key constraint has the first occurrence of the column in its
    parenthesised list replaced; a foreign key has it replaced in its local
    part, and in its remote list too when that names this table; anything
    else is kept.
  */
  function RewriteItem(item: string, from: string, to: string, tableName: string): Result<string, DdlError> {
    match Classify(item, from)
    case ColumnDef =>
      if to != "" then Success(Join([to] + Split(item, ' ')[1..], " ")) else Success("")
    case KeyConstraint =>
      Success(ReplaceInParens(item, from, to))
    case ForeignKey =>
      var parts := SplitIgnoringCase(item, References);
      if |parts| < 2 then Failure(MissingReferences)
      else
        var local := ReplaceFirst(parts[0], from, to);
        var remote := if StartsWith(parts[1], tableName) then ReplaceInParens(parts[1], from, to) else parts[1];
        Success(Join([local, remote] + parts[2..], References))
    case OtherItem =>
      Success(item)
  }

  /** `args.map(...)`: every item rewritten in order; the first throw ends it. */
  function RewriteAll(items: seq<string>, from: string, to: string, tableName: string)
    : (r: Result<seq<string>, DdlError>)
    ensures r.Success? <==> forall k :: 0 <= k < |items| ==> RewriteItem(items[k], from, to, tableName).Success?
    ensures r.Success? ==> |r.value| == |items|
    ensures r.Success? ==> forall k :: 0 <= k < |items| ==> r.value[k] == RewriteItem(items[k], from, to, tableName).value
    ensures r.Failure? ==> r.error == MissingReferences
    decreases |items|
  {
    if items == [] then Success([])
    else
      var head :- RewriteItem(items[0], from, to, tableName);
      var tail :- RewriteAll(items[1..], from, to, tableName);
      assert forall k :: 1 <= k < |items| ==> items[k] == items[1..][k - 1];
      Success([head] + tail)
  }

  // ---------------------------------------------------------------------
  // Properties of the per-item rewrite
  // ---------------------------------------------------------------------

  /**
    An item is the definition of column `from` exactly when it is `from`
    itself or starts with `from` and a space: a whole-token match, never a
    substring one.
  */
  lemma ColumnDefIff(item: string, from: string)
    requires ' ' !in from
    ensures Classify(item, from) == ColumnDef <==> item == from || StartsWith(item, from + " ")
  {
    FirstSpaceAfterToken(item, from);
    var k := IndexOf(item, " ");
    if k < 0 {
      assert Split(item, ' ')[0] == item;
    } else {
      assert Split(item, ' ')[0] == item[..k];
      assert item[k..k + 1] == " ";
      assert item[k] == ' ';
      assert item != from;
      assert item[..k] == from ==> item[..|from| + 1] == from + " ";
    }
  }

  /** After a token without spaces, the first space of the item is the one that ends it. */
  lemma FirstSpaceAfterToken(item: string, from: string)
    requires ' ' !in from
    ensures StartsWith(item, from + " ") ==> IndexOf(item, " ") == |from|
  {
    if StartsWith(item, from + " ") {
      assert item[|from|..|from| + 1] == " ";
      assert OccursAt(item, " ", |from|);
      forall k | 0 <= k < |from| ensures !OccursAt(item, " ", k) {
        assert item[k] == from[k];
        assert item[k..k + 1] == [item[k]];
      }
    }
  }

  /** Renaming a column definition replaces its first token and keeps the rest of the item. */
  lemma RenameColumnDef(item: string, from: string, to: string, tableName: string)
    requires Classify(item, from) == ColumnDef && to != ""
    ensures |from| <= |item|
    ensures RewriteItem(item, from, to, tableName) == Success(to + item[|from|..])
  {
    var split := Split(item, ' ');
    JoinSplitReplaceHead(item, ' ', to);
    assert |split[0]| <= |item| by {
      var k := IndexOf(item, [' ']);
    }
  }

  /** Dropping a column empties its definition. */
  lemma DropColumnDef(item: string, from: string, tableName: string)
    requires Classify(item, from) == ColumnDef
    ensures RewriteItem(item, from, "", tableName) == Success("")
  {
  }

  /**
    A primary or unique constraint keeps everything outside its
    parenthesised list; inside it only the first occurrence of the column
    changes, also on a drop, so the clause itself is never removed.
  */
  lemma RewriteKeyConstraint(item: string, from: string, to: string, tableName: string, i: nat, j: nat)
    requires Classify(item, from) == KeyConstraint
    requires ParenSpan(item) == Some((i, j))
    ensures var r := RewriteItem(item, from, to, tableName);
            && r.Success?
            && r.value == item[..i] + ReplaceFirst(item[i..j + 1], from, to) + item[j + 1..]
    ensures !Occurs(item[i..j + 1], from) ==> RewriteItem(item, from, to, tableName) == Success(item)
  {
    assert RewriteItem(item, from, to, tableName) == Success(ReplaceInParens(item, from, to));
    ReplaceInParensSpan(item, from, to, i, j);
  }

  /**
    A foreign key with a single ` references `: the local part has the first
    occurrence of the column replaced; the remote part is rewritten only
    when it starts with this table's name.
  */
  lemma RewriteForeignKey(item: string, from: string, to: string, tableName: string)
    requires Classify(item, from) == ForeignKey
    requires |SplitIgnoringCase(item, References)| == 2
    ensures var parts := SplitIgnoringCase(item, References);
            RewriteItem(item, from, to, tableName)
            == Success(ReplaceFirst(parts[0], from, to) + References
                       + if StartsWith(parts[1], tableName) then ReplaceInParens(parts[1], from, to) else parts[1])
  {
    var parts := SplitIgnoringCase(item, References);
    assert parts[2..] == [];
    var local := ReplaceFirst(parts[0], from, to);
    var remote := if StartsWith(parts[1], tableName) then ReplaceInParens(parts[1], from, to) else parts[1];
    assert [local, remote] + parts[2..] == [local, remote];
    assert Join([local, remote], References) == Join([local], References) + References + remote;
  }

  /** A foreign key without ` references ` throws. */
  lemma ForeignKeyNeedsReferences(item: string, from: string, to: string, tableName: string)
    requires Classify(item, from) == ForeignKey
    ensures RewriteItem(item, from, to, tableName).Failure?
            <==> IndexOf(ToLower(item), References) < 0
  {
    var parts := SplitIgnoringCase(item, References);
    if IndexOf(ToLower(item), References) >= 0 {
      assert |parts| >= 2;
    }
  }

  /** Only a foreign key without ` references ` can make the rewrite throw. */
  lemma RewriteFailsOnlyOnForeignKey(item: string, from: string, to: string, tableName: string)
    ensures RewriteItem(item, from, to, tableName).Failure? ==> Classify(item, from) == ForeignKey
  {
  }

  /**
    An item that does not mention column `from` anywhere. A foreign key
    must also hold its ` references `, written in lower case, because the
    rewrite splits at that keyword in any case and joins with the
    lower-case one.
  */
  predicate Unmentioned(item: string, from: string) {
    && from != []
    && !Occurs(item, from)
    && (Classify(item, from) == ForeignKey ==>
          IndexOf(ToLower(item), References) >= 0 && LowerCaseSeparators(item, References))
  }

  /** The definition of a column mentions the column. */
  lemma ColumnDefMentions(item: string, from: string)
    ensures Classify(item, from) == ColumnDef ==> OccursAt(item, from, 0)
  {
    SplitHeadPrefix(item, ' ');
  }

  /**
    An item that does not mention the column is no definition of it, and
    comes out of the rewrite as it was, whatever its kind: a key or foreign
    key constraint on other columns is kept.
  */
  lemma UnmentionedUnchanged(item: string, from: string, to: string, tableName: string)
    requires Unmentioned(item, from)
    ensures Classify(item, from) != ColumnDef
    ensures RewriteItem(item, from, to, tableName) == Success(item)
  {
    ColumnDefMentions(item, from);
    match Classify(item, from)
    case ColumnDef =>
    case KeyConstraint =>
      ReplaceInParensAbsent(item, from, to);
    case ForeignKey =>
      var parts := SplitIgnoringCase(item, References);
      SplitIgnoringCaseAbsent(item, References, from);
      assert |parts| >= 2;
      ReplaceInParensAbsent(parts[1], from, to);
      assert [parts[0], parts[1]] + parts[2..] == parts;
      JoinSplitIgnoringCase(item, References);
    case OtherItem =>
  }

  /** Items of any other kind come out unchanged. */
  lemma OtherItemUnchanged(item: string, from: string, to: string, tableName: string)
    requires Classify(item, from) == OtherItem
    ensures RewriteItem(item, from, to, tableName) == Success(item)
  {
  }

  // ---------------------------------------------------------------------
  // Reassembly
  // ---------------------------------------------------------------------

  /** `sql.replace(/\(.*\)/, () => rep)`: the matched span gives way to `rep`. */
  function ReplaceParenSpan(sql: string, rep: string): string {
    match ParenSpan(sql)
    case None => sql
    case Some((i, j)) => sql[..i] + rep + sql[j + 1..]
  }

  /** The statement SQLite stores for a table `name` with column list `defs`. */
  function Built(name: string, defs: string): string {
    CreatePrefix + name + " (" + defs + ")"
  }

  /** The items left once those emptied by a drop are taken out, in order. */
  function NonEmpty(items: seq<string>): (r: seq<string>)
    ensures |r| <= |items|
    ensures forall x :: x in r <==> x in items && x != []
    decreases |items|
  {
    if items == [] then []
    else
      var rest := NonEmpty(items[1..]);
      assert forall x :: x in items <==> x == items[0] || x in items[1..];
      if items[0] == [] then rest else [items[0]] + rest
  }

  /**
    What both reassemblies start from: the statement's match and its items
    rewritten, or the error raised on the way there.
  */
  function RewrittenItems(sql: string, from: string, to: string): (r: Result<(CreateMatch, seq<string>), DdlError>)
    ensures r == Failure(NoMatch) <==> MatchCreate(sql).None?
    ensures r == Failure(NoColumnDefinitions) <==> MatchCreate(sql).Some? && MatchCreate(sql).value.defs == []
    ensures r.Success? ==>
              && MatchCreate(sql) == Some(r.value.0)
              && |r.value.1| == |Items(r.value.0.defs)| == CutCount(r.value.0.defs) + 1
              && forall k :: 0 <= k < |r.value.1| ==>
                   RewriteItem(Items(r.value.0.defs)[k], from, to, r.value.0.tableName) == Success(r.value.1[k])
  {
    match MatchCreate(sql)
    case None => Failure(NoMatch)
    case Some(m) =>
      if m.defs == [] then Failure(NoColumnDefinitions)
      else
        ItemCount(m.defs);
        match RewriteAll(Items(m.defs), from, to, m.tableName)
        case Failure(e) => Failure(e)
        case Success(items) => Success((m, items))
  }

  /**
    `_doReplace` as written: the rewritten items joined with `", "` replace
    the parenthesised span, then the first comma followed (after white
    space) by a comma or `)` is removed.
  */
  function AsWrittenReplace(sql: string, from: string, to: string): Result<string, DdlError> {
    var (m, items) :- RewrittenItems(sql, from, to);
    Success(RemoveStrayComma(ReplaceParenSpan(sql, "(" + Join(items, ", ") + ")")))
  }

  /**
    `_doReplace` with the emptied items left out of the join instead of
    patched afterwards by the stray-comma removal.
  */
  function CorrectedReplace(sql: string, from: string, to: string): Result<string, DdlError> {
    var (m, items) :- RewrittenItems(sql, from, to);
    Success(ReplaceParenSpan(sql, "(" + Join(NonEmpty(items), ", ") + ")"))
  }

  /**
    Which program runs: the code as it stands, or the code with the fixes
    the findings of this model name.
  */
  datatype Version = AsWritten | Corrected

  /** `_doReplace` in the given version. */
  function Replace(v: Version, sql: string, from: string, to: string): Result<string, DdlError> {
    match v
    case AsWritten => AsWrittenReplace(sql, from, to)
    case Corrected => CorrectedReplace(sql, from, to)
  }

  /**
    The rewrite as the helper runs it: match, scan the column list with the
    loop, rewrite every item, reassemble.
  */
  method DoReplace(v: Version, sql: string, from: string, to: string) returns (r: Result<string, DdlError>)
    ensures r == Replace(v, sql, from, to)
  {
    var matched := MatchCreate(sql);
    if matched.None? {
      return Failure(NoMatch);
    }
    var m := matched.value;
    if m.defs == [] {
      return Failure(NoColumnDefinitions);
    }
    var args := Tokenize(m.defs);
    var rewritten := RewriteAll(args, from, to, m.tableName);
    if rewritten.Failure? {
      return Failure(rewritten.error);
    }
    if v == AsWritten {
      r := Success(RemoveStrayComma(ReplaceParenSpan(sql, "(" + Join(rewritten.value, ", ") + ")")));
    } else {
      r := Success(ReplaceParenSpan(sql, "(" + Join(NonEmpty(rewritten.value), ", ") + ")"));
    }
  }

  // ---------------------------------------------------------------------
  // Properties of the reassembly
  // ---------------------------------------------------------------------

  /** A name without `(` fit for the statement pattern. */
  predicate PlainName(name: string) {
    && name != []
    && (forall k :: 0 <= k < |name| ==> !IsSpace(name[k]) && name[k] != '(' && name[k] != ',')
  }

  /** A column list on a single line. */
  predicate SingleLine(defs: string) {
    forall k :: 0 <= k < |defs| ==> !IsLineTerminator(defs[k])
  }

  /** In a built statement the parenthesised span is exactly the column list with its parentheses. */
  lemma BuiltSpan(name: string, defs: string)
    requires PlainName(name) && SingleLine(defs)
    ensures ParenSpan(Built(name, defs)) == Some((|CreatePrefix| + |name| + 1, |Built(name, defs)| - 1))
  {
    var sql := Built(name, defs);
    var p := |CreatePrefix|;
    var i := p + |name| + 1;
    assert OccursAt(sql, "(", i) by {
      assert sql[i..i + 1] == "(";
    }
    forall k | 0 <= k < i ensures !OccursAt(sql, "(", k) {
      OccursCharAt(sql, '(', k);
      if k < p {
        assert sql[k] == CreatePrefix[k];
      } else if k < p + |name| {
        assert sql[k] == name[k - p];
      } else {
        assert sql[k] == ' ';
      }
    }
    assert IndexOfFrom(sql, "(", 0) == i;
    assert LineEnd(sql, i + 1) == |sql| by {
      forall k | i + 1 <= k < |sql| ensures !IsLineTerminator(sql[k]) {
        if k < |sql| - 1 {
          assert sql[k] == defs[k - i - 1];
        }
      }
    }
    assert LastIndexIn(sql, ')', i + 1, |sql|) == |sql| - 1;
  }

  /** Replacing the span of a built statement swaps its column list and keeps the rest. */
  lemma ReplaceBuilt(name: string, defs: string, defs': string)
    requires PlainName(name) && SingleLine(defs)
    ensures ReplaceParenSpan(Built(name, defs), "(" + defs' + ")") == Built(name, defs')
  {
    var sql := Built(name, defs);
    var rep := "(" + defs' + ")";
    BuiltSpan(name, defs);
    var i := |CreatePrefix| + |name| + 1;
    assert ReplaceParenSpan(sql, rep) == sql[..i] + rep + sql[|sql|..];
    assert sql[..i] == CreatePrefix + name + " ";
    assert sql[|sql|..] == [];
    assert CreatePrefix + name + " " + rep == Built(name, defs');
  }

  /**
    On a stored statement whose column list is plain items joined with
    `", "`, the rewrite yields the statement with the rewritten items, those
    emptied by a drop left out, in their order.
  */
  lemma CorrectedOnBuilt(name: string, xs: seq<string>, from: string, to: string)
    requires PlainName(name)
    requires |xs| >= 1 && forall k :: 0 <= k < |xs| ==> Plain(xs[k])
    requires Join(xs, ", ") != [] && SingleLine(Join(xs, ", "))
    requires RewriteAll(xs, from, to, name).Success?
    ensures CorrectedReplace(Built(name, Join(xs, ", ")), from, to)
            == Success(Built(name, Join(NonEmpty(RewriteAll(xs, from, to, name).value), ", ")))
  {
    var defs := Join(xs, ", ");
    MatchCreateBuilt(name, defs);
    TokenizeJoin(xs);
    ReplaceBuilt(name, defs, Join(NonEmpty(RewriteAll(xs, from, to, name).value), ", "));
  }

  /** With no item emptied, nothing is left out. */
  lemma {:induction false} NonEmptyAll(items: seq<string>)
    requires forall k :: 0 <= k < |items| ==> items[k] != []
    ensures NonEmpty(items) == items
    decreases |items|
  {
    if items != [] {
      NonEmptyAll(items[1..]);
      assert [items[0]] + items[1..] == items;
    }
  }

  /** Leaving out the emptied items distributes over concatenation. */
  lemma {:induction false} NonEmptyAppend(a: seq<string>, b: seq<string>)
    ensures NonEmpty(a + b) == NonEmpty(a) + NonEmpty(b)
    decreases |a|
  {
    if a == [] {
      assert a + b == b;
    } else {
      assert (a + b)[0] == a[0];
      assert (a + b)[1..] == a[1..] + b;
      NonEmptyAppend(a[1..], b);
    }
  }

  /** Rewriting item by item: the rewritten list is the list of the rewritten items. */
  lemma RewriteAllPointwise(xs: seq<string>, ys: seq<string>, from: string, to: string, name: string)
    requires |xs| == |ys|
    requires forall k :: 0 <= k < |xs| ==> RewriteItem(xs[k], from, to, name) == Success(ys[k])
    ensures RewriteAll(xs, from, to, name) == Success(ys)
  {
    var r := RewriteAll(xs, from, to, name);
    assert r.Success?;
    assert r.value == ys;
  }

  /** A rename touches only the definition of the column when nothing else mentions it. */
  lemma RenameItems(xs: seq<string>, c: nat, from: string, to: string, name: string)
    requires c < |xs| && to != []
    requires Classify(xs[c], from) == ColumnDef
    requires forall k :: 0 <= k < |xs| && k != c ==> Unmentioned(xs[k], from)
    ensures |from| <= |xs[c]|
    ensures RewriteAll(xs, from, to, name) == Success(xs[c := to + xs[c][|from|..]])
  {
    var ys := xs[c := to + xs[c][|from|..]];
    RenameColumnDef(xs[c], from, to, name);
    forall k | 0 <= k < |xs|
      ensures RewriteItem(xs[k], from, to, name) == Success(ys[k])
    {
      if k != c {
        UnmentionedUnchanged(xs[k], from, to, name);
      }
    }
    RewriteAllPointwise(xs, ys, from, to, name);
  }

  /** A drop empties only the definition of the column when nothing else mentions it. */
  lemma DropItems(xs: seq<string>, c: nat, from: string, name: string)
    requires c < |xs|
    requires Classify(xs[c], from) == ColumnDef
    requires forall k :: 0 <= k < |xs| && k != c ==> Unmentioned(xs[k], from)
    ensures RewriteAll(xs, from, "", name) == Success(xs[c := ""])
  {
    var ys := xs[c := ""];
    DropColumnDef(xs[c], from, name);
    forall k | 0 <= k < |xs|
      ensures RewriteItem(xs[k], from, "", name) == Success(ys[k])
    {
      if k != c {
        UnmentionedUnchanged(xs[k], from, "", name);
      }
    }
    RewriteAllPointwise(xs, ys, from, "", name);
  }

  /** Leaving out the one emptied item of otherwise non-empty items removes exactly it. */
  lemma NonEmptyRemovesOne(xs: seq<string>, c: nat)
    requires c < |xs|
    requires forall k :: 0 <= k < |xs| ==> xs[k] != []
    ensures NonEmpty(xs[c := ""]) == xs[..c] + xs[c + 1..]
  {
    assert xs[c := ""] == xs[..c] + ([""] + xs[c + 1..]);
    NonEmptyAppend(xs[..c], [""] + xs[c + 1..]);
    NonEmptyAppend([""], xs[c + 1..]);
    assert NonEmpty([""]) == [];
    NonEmptyAll(xs[..c]);
    NonEmptyAll(xs[c + 1..]);
  }

  /**
    Renaming column `from` of a stored statement whose other items do not
    mention it: the definition gets the new name and keeps its type and
    modifiers, every other item stays as it was.
  */
  lemma RenameOnBuilt(name: string, xs: seq<string>, c: nat, from: string, to: string)
    requires PlainName(name)
    requires forall k :: 0 <= k < |xs| ==> Plain(xs[k]) && xs[k] != []
    requires Join(xs, ", ") != [] && SingleLine(Join(xs, ", "))
    requires c < |xs| && to != []
    requires Classify(xs[c], from) == ColumnDef
    requires forall k :: 0 <= k < |xs| && k != c ==> Unmentioned(xs[k], from)
    ensures |from| <= |xs[c]|
    ensures CorrectedReplace(Built(name, Join(xs, ", ")), from, to)
            == Success(Built(name, Join(xs[c := to + xs[c][|from|..]], ", ")))
  {
    RenameItems(xs, c, from, to, name);
    NonEmptyAll(xs[c := to + xs[c][|from|..]]);
    CorrectedOnBuilt(name, xs, from, to);
  }

  /**
    Dropping column `from` of a stored statement whose other items do not
    mention it: the definition is gone and the other items stay, in order.
  */
  lemma DropOnBuilt(name: string, xs: seq<string>, c: nat, from: string)
    requires PlainName(name)
    requires forall k :: 0 <= k < |xs| ==> Plain(xs[k]) && xs[k] != []
    requires Join(xs, ", ") != [] && SingleLine(Join(xs, ", "))
    requires c < |xs|
    requires Classify(xs[c], from) == ColumnDef
    requires forall k :: 0 <= k < |xs| && k != c ==> Unmentioned(xs[k], from)
    ensures CorrectedReplace(Built(name, Join(xs, ", ")), from, "")
            == Success(Built(name, Join(xs[..c] + xs[c + 1..], ", ")))
  {
    DropItems(xs, c, from, name);
    NonEmptyRemovesOne(xs, c);
    CorrectedOnBuilt(name, xs, from, "");
  }

  /**
    As written, renaming column `from` of a stored statement gives what the
    corrected rewrite gives, as long as the renamed statement holds no
    comma for the cleanup to take: a rename empties no item.
  */
  lemma AsWrittenRenameOnBuilt(name: string, xs: seq<string>, c: nat, from: string, to: string)
    requires PlainName(name)
    requires forall k :: 0 <= k < |xs| ==> Plain(xs[k]) && xs[k] != []
    requires Join(xs, ", ") != [] && SingleLine(Join(xs, ", "))
    requires c < |xs| && to != [] && |from| <= |xs[c]|
    requires Classify(xs[c], from) == ColumnDef
    requires forall k :: 0 <= k < |xs| && k != c ==> Unmentioned(xs[k], from)
    requires NoStrayComma(Built(name, Join(xs[c := to + xs[c][|from|..]], ", ")))
    ensures AsWrittenReplace(Built(name, Join(xs, ", ")), from, to)
            == Success(Built(name, Join(xs[c := to + xs[c][|from|..]], ", ")))
  {
    var sql := Built(name, Join(xs, ", "));
    var ys := xs[c := to + xs[c][|from|..]];
    RenameItems(xs, c, from, to, name);
    RewrittenItemsBuilt(name, xs, from, to);
    assert RewrittenItems(sql, from, to).value.1 == ys;
    assert forall k :: 0 <= k < |ys| ==> ys[k] != [];
    RenameOnBuilt(name, xs, c, from, to);
    assert CorrectedReplace(sql, from, to).value == Built(name, Join(ys, ", "));
    AsWrittenAgrees(sql, from, to);
  }

  /** On a stored statement, the rewritten items are the stored items each rewritten. */
  lemma RewrittenItemsBuilt(name: string, xs: seq<string>, from: string, to: string)
    requires PlainName(name)
    requires |xs| >= 1 && forall k :: 0 <= k < |xs| ==> Plain(xs[k])
    requires Join(xs, ", ") != [] && SingleLine(Join(xs, ", "))
    requires RewriteAll(xs, from, to, name).Success?
    ensures RewrittenItems(Built(name, Join(xs, ", ")), from, to)
            == Success((CreateMatch(name, Join(xs, ", ")), RewriteAll(xs, from, to, name).value))
  {
    MatchCreateBuilt(name, Join(xs, ", "));
    TokenizeJoin(xs);
  }

  /**
    Where no item is emptied and the result holds no comma for the cleanup
    to take, the written reassembly and the corrected one agree.
  */
  lemma AsWrittenAgrees(sql: string, from: string, to: string)
    requires RewrittenItems(sql, from, to).Success?
    requires forall k :: 0 <= k < |RewrittenItems(sql, from, to).value.1| ==> RewrittenItems(sql, from, to).value.1[k] != []
    requires CorrectedReplace(sql, from, to).Success?
    requires NoStrayComma(CorrectedReplace(sql, from, to).value)
    ensures AsWrittenReplace(sql, from, to) == CorrectedReplace(sql, from, to)
  {
    NonEmptyAll(RewrittenItems(sql, from, to).value.1);
    var out := CorrectedReplace(sql, from, to).value;
    assert forall i :: !StrayCommaAt(out, i);
  }

  /** Cut counting only grows along a string. */
  lemma {:induction false} CutCountPrefix(s: string, j: nat)
    requires j <= |s|
    ensures CutCount(s[..j]) <= CutCount(s)
    decreases |s|
  {
    if j < |s| {
      assert s[..|s| - 1][..j] == s[..j];
      CutCountPrefix(s[..|s| - 1], j);
    } else {
      assert s[..j] == s;
    }
  }

  /** A plain item does not open with a comma: that comma would be a cut. */
  lemma PlainHeadNotComma(x: string)
    requires Plain(x) && x != []
    ensures x[0] != ','
  {
    CutCountPrefix(x, 1);
    assert x[..1][..0] == [];
  }

  /**
    Dropping the first column as written: its item is emptied, the join
    opens the list with `", "`, and the cleanup does not apply there (the
    comma is followed by the next item, not by `,` or `)`), so the statement
    handed to SQLite starts `CREATE TABLE name (, `.
  */
  lemma AsWrittenDropFirstLeavesComma(name: string, xs: seq<string>, from: string)
    requires PlainName(name)
    requires |xs| >= 2 && forall k :: 0 <= k < |xs| ==> Plain(xs[k])
    requires Join(xs, ", ") != [] && SingleLine(Join(xs, ", "))
    requires Classify(xs[0], from) == ColumnDef
    requires RewriteAll(xs, from, "", name).Success?
    requires var y := RewriteAll(xs, from, "", name).value[1];
             y != [] && !IsSpace(y[0]) && y[0] != ',' && y[0] != ')'
    ensures AsWrittenReplace(Built(name, Join(xs, ", ")), from, "").Success?
    ensures StartsWith(AsWrittenReplace(Built(name, Join(xs, ", ")), from, "").value, CreatePrefix + name + " (, ")
  {
    var ys := RewriteAll(xs, from, "", name).value;
    DropFirstJoin(name, xs, from);
    JoinStartsWithHead(ys[1..], ", ");
    LeadingCommaSurvives(name, Join(ys[1..], ", "));
  }

  /** The written reassembly after dropping the first column: the list opens with `", "`. */
  lemma DropFirstJoin(name: string, xs: seq<string>, from: string)
    requires PlainName(name)
    requires |xs| >= 2 && forall k :: 0 <= k < |xs| ==> Plain(xs[k])
    requires Join(xs, ", ") != [] && SingleLine(Join(xs, ", "))
    requires Classify(xs[0], from) == ColumnDef
    requires RewriteAll(xs, from, "", name).Success?
    ensures var ys := RewriteAll(xs, from, "", name).value;
            AsWrittenReplace(Built(name, Join(xs, ", ")), from, "")
            == Success(RemoveStrayComma(Built(name, ", " + Join(ys[1..], ", "))))
  {
    var defs := Join(xs, ", ");
    MatchCreateBuilt(name, defs);
    TokenizeJoin(xs);
    var ys := RewriteAll(xs, from, "", name).value;
    DropColumnDef(xs[0], from, name);
    JoinEmptyHead(ys, ", ");
    ReplaceBuilt(name, defs, Join(ys, ", "));
  }

  /** Joining behind an empty first part starts with the separator. */
  lemma JoinEmptyHead(ys: seq<string>, sep: string)
    requires |ys| >= 2 && ys[0] == ""
    ensures Join(ys, sep) == sep + Join(ys[1..], sep)
  {
    JoinCons("", ys[1..], sep);
    assert [""] + ys[1..] == ys;
  }

  /**
    A list opening with `", "` and then an item that starts with neither
    white space, `,` nor `)`: the cleanup finds no stray comma before it.
  */
  lemma LeadingCommaSurvives(name: string, tail: string)
    requires PlainName(name)
    requires tail != [] && !IsSpace(tail[0]) && tail[0] != ',' && tail[0] != ')'
    ensures StartsWith(RemoveStrayComma(Built(name, ", " + tail)), CreatePrefix + name + " (, ")
  {
    var s := Built(name, ", " + tail);
    var m := |CreatePrefix| + |name|;
    var head := CreatePrefix + name + " (, ";
    assert s == head + (tail + ")");
    assert s[..m + 4] == head;
    HeadHasNoStrayComma(name, tail);
    NoStrayCommaKeepsPrefix(s, m + 4);
  }

  /** In front of the tail, the only comma is followed by a space and then neither `,` nor `)`. */
  lemma HeadHasNoStrayComma(name: string, tail: string)
    requires PlainName(name)
    requires tail != [] && !IsSpace(tail[0]) && tail[0] != ',' && tail[0] != ')'
    ensures forall k :: 0 <= k < |CreatePrefix| + |name| + 4 ==> !StrayCommaAt(Built(name, ", " + tail), k)
  {
    var s := Built(name, ", " + tail);
    var m := |CreatePrefix| + |name|;
    assert s == CreatePrefix + name + (" (, " + tail + ")");
    forall k | 0 <= k < m + 4 ensures !StrayCommaAt(s, k) {
      if k < |CreatePrefix| {
        assert s[k] == CreatePrefix[k];
      } else if k < m {
        assert s[k] == name[k - |CreatePrefix|];
      } else if k == m + 2 {
        assert IsSpace(s[m + 3]) && s[m + 4] == tail[0];
        assert SkipSpaces(s, k + 1) == m + 4;
      } else {
        assert s[k] == " (, "[k - m];
      }
    }
  }
}
