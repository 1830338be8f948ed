/**
  The formatter: it wraps identifiers and values for the SQL being built,
  turns values into `?` placeholders while collecting their bindings, and
  checks operators and order directions. The client's identifier quoting
  is a parameter of the formatter (`wrapIdentifier`); query builders, raw
  fragments and callbacks are not modelled, so every value here is a plain
  one.
*/
module Formatter {
  import opened Results
  import opened Js
  import opened Text

  /** The directions an `order by` accepts, in lower case. */
  const OrderBys: seq<string> := ["asc", "desc"]

  /** The operators a condition may use, in lower case. */
  const Operators: seq<string> :=
    [ "=", "<", ">", "<=", ">=", "<>", "!=", "like", "not like", "between", "ilike", "&", "|", "^",
      "<<", ">>", "rlike", "regexp", "not regexp", "~", "~*", "!~", "!~*", "#", "&&", "@>", "<@", "||" ]

  /** `alias(first, second)`. */
  function Alias(first: string, second: string): string {
    first + " as " + second
  }

  /**
    What `_wrapString` reads back from an alias: when the first part holds no
    ` as ` in any case and does not end in ` as`, the first ` as ` of the
    alias is the one `Alias` put in.
  */
  lemma AliasReadBack(first: string, second: string)
    requires IndexOf(ToLower(first), " as ") == -1
    requires |first| >= 3 ==> ToLower(first)[|first| - 3..] != " as"
    ensures IndexOf(ToLower(Alias(first, second)), " as ") == |first|
  {
    var s := Alias(first, second);
    var l := ToLower(s);
    var f := ToLower(first);
    assert l[|first|..|first| + 4] == " as ";
    assert OccursAt(l, " as ", |first|);
    forall k | 0 <= k < |first| ensures !OccursAt(l, " as ", k) {
      var u := l[k..k + 4];
      if k + 4 <= |first| {
        var v := f[k..k + 4];
        assert forall i :: 0 <= i < 4 ==> u[i] == v[i];
        assert u == v;
        assert !OccursAt(f, " as ", k);
      } else if k == |first| - 3 {
        var w, v := u[..3], f[k..];
        assert forall i :: 0 <= i < 3 ==> w[i] == v[i];
        assert w == v;
        assert " as "[..3] == " as";
      } else {
        assert u[|first| - k] == ' ';
        assert " as "[1] == 'a' && " as "[2] == 's';
      }
    }
  }

  /** `wrapAsIdentifier(value)`: the trimmed value quoted by the client. */
  function WrapAsIdentifier(wrapIdentifier: string -> string, value: string): string {
    wrapIdentifier(Trim(value))
  }

  /**
    `wrap(value)` for a plain value: a number comes back unchanged, anything
    else is converted to a string and wrapped by `_wrapString`.
  */
  function WrapValue(wrapIdentifier: string -> string, value: Value): (r: Value)
    ensures value.Num? ==> r == value
    ensures !value.Num? ==> r.Str?
    decreases |ToJsString(value)|, 2
  {
    if value.Num? then value else Str(WrapStr(wrapIdentifier, ToJsString(value)))
  }

  /** Every segment after the first: quoted by the client after trimming. */
  function QuoteEach(wrapIdentifier: string -> string, segments: seq<string>): seq<string> {
    seq(|segments|, i requires 0 <= i < |segments| => wrapIdentifier(Trim(segments[i])))
  }

  /**
    `_wrapString(value)`: split at the first ` as ` (in any case) into a
    wrapped expression and a quoted alias; otherwise the wrapped dotted
    segments joined with `.`.
  */
  function WrapStr(wrapIdentifier: string -> string, value: string): string
    decreases |value|, 1
  {
    var asIndex := IndexOf(ToLower(value), " as ");
    if asIndex != -1 then
      Alias(ToJsString(WrapValue(wrapIdentifier, Str(value[..asIndex]))),
            WrapAsIdentifier(wrapIdentifier, value[asIndex + 4..]))
    else
      Join(DottedParts(wrapIdentifier, value), ".")
  }

  /** The two branches of `WrapStr`, by whether the value holds ` as ` in any case. */
  lemma WrapStrCases(wrapIdentifier: string -> string, value: string)
    ensures var asIndex := IndexOf(ToLower(value), " as ");
            && (asIndex != -1 ==>
                  WrapStr(wrapIdentifier, value)
                  == Alias(ToJsString(WrapValue(wrapIdentifier, Str(value[..asIndex]))),
                           WrapAsIdentifier(wrapIdentifier, value[asIndex + 4..])))
            && (asIndex == -1 ==> WrapStr(wrapIdentifier, value) == Join(DottedParts(wrapIdentifier, value), "."))
  {
  }

  /**
    The segments of `value` split at `.`, each trimmed: the first one sent
    through `wrap` when there are several, every other one quoted by the
    client.
  */
  function DottedParts(wrapIdentifier: string -> string, value: string): (r: seq<string>)
    ensures |r| == |Split(value, '.')|
    decreases |value|, 0
  {
    var segments := Split(value, '.');
    SplitHeadShorter(value, '.');
    var head := if |segments| > 1 then ToJsString(WrapValue(wrapIdentifier, Str(Trim(segments[0]))))
                else wrapIdentifier(Trim(segments[0]));
    [head] + QuoteEach(wrapIdentifier, segments[1..])
  }

  /** A slice of a value without an alias has no alias either. */
  lemma SliceHasNoAlias(value: string, a: nat, b: nat)
    requires a <= b <= |value|
    requires IndexOf(ToLower(value), " as ") == -1
    ensures IndexOf(ToLower(value[a..b]), " as ") == -1
  {
    ToLowerSlice(value, a, b);
    IndexOfSlice(ToLower(value), " as ", a, b);
  }

  /** A string without the separator splits into itself alone. */
  lemma SplitWithout(t: string, c: char)
    requires c !in t
    ensures Split(t, c) == [t]
  {
    assert IndexOf(t, [c]) == -1 by {
      forall k | 0 <= k ensures !OccursAt(t, [c], k) {
        if k < |t| {
          OccursCharAt(t, c, k);
        }
      }
    }
  }

  /** The first piece of a split is a prefix of the string. */
  lemma SplitHeadPrefix(value: string, c: char)
    ensures Split(value, c)[0] == value[..|Split(value, c)[0]|]
  {
    JoinSplit(value, c);
    JoinStartsWithHead(Split(value, c), [c]);
  }

  /**
    The first dotted segment of a value without an alias, once trimmed,
    has no alias, no dot and nothing left to trim.
  */
  lemma HeadIsPlain(value: string)
    requires IndexOf(ToLower(value), " as ") == -1
    ensures IndexOf(ToLower(Trim(Split(value, '.')[0])), " as ") == -1
    ensures Split(Trim(Split(value, '.')[0]), '.') == [Trim(Split(value, '.')[0])]
    ensures Trim(Trim(Split(value, '.')[0])) == Trim(Split(value, '.')[0])
  {
    var head := Split(value, '.')[0];
    SplitHeadPrefix(value, '.');
    var a, b := TrimSlice(head);
    assert Trim(head) == value[a..b];
    SliceHasNoAlias(value, a, b);
    assert '.' !in Trim(head);
    SplitWithout(Trim(head), '.');
    TrimIdempotent(head);
  }

  /** A value with no alias, no dot and nothing to trim is quoted as it is. */
  lemma WrapStrPlain(wrapIdentifier: string -> string, t: string)
    requires IndexOf(ToLower(t), " as ") == -1
    requires Split(t, '.') == [t]
    requires Trim(t) == t
    ensures WrapStr(wrapIdentifier, t) == wrapIdentifier(t)
  {
    assert QuoteEach(wrapIdentifier, Split(t, '.')[1..]) == [];
    assert DottedParts(wrapIdentifier, t) == [wrapIdentifier(t)];
  }

  /**
    Without an alias every segment ends up quoted by the client after
    trimming: the first one, sent through `wrap`, has neither an alias nor
    a dot left in it.
  */
  lemma WrapStrSegments(wrapIdentifier: string -> string, value: string)
    requires IndexOf(ToLower(value), " as ") == -1
    ensures WrapStr(wrapIdentifier, value) == Join(QuoteEach(wrapIdentifier, Split(value, '.')), ".")
  {
    var segments := Split(value, '.');
    var quoted := QuoteEach(wrapIdentifier, segments);
    var t := Trim(segments[0]);
    assert quoted == [wrapIdentifier(t)] + QuoteEach(wrapIdentifier, segments[1..]);
    if |segments| > 1 {
      HeadIsPlain(value);
      WrapStrPlain(wrapIdentifier, t);
      assert ToJsString(WrapValue(wrapIdentifier, Str(t))) == wrapIdentifier(t);
    }
    assert DottedParts(wrapIdentifier, value) == quoted;
  }

  /**
    With a client that quotes nothing, a value without an alias and with
    its dotted segments already trimmed comes back as it was.
  */
  lemma WrapStrIdentity(wrapIdentifier: string -> string, value: string)
    requires forall x :: wrapIdentifier(x) == x
    requires IndexOf(ToLower(value), " as ") == -1
    requires forall i :: 0 <= i < |Split(value, '.')| ==> Trim(Split(value, '.')[i]) == Split(value, '.')[i]
    ensures WrapStr(wrapIdentifier, value) == value
  {
    WrapStrSegments(wrapIdentifier, value);
    assert QuoteEach(wrapIdentifier, Split(value, '.')) == Split(value, '.');
    JoinSplit(value, '.');
  }

  /** `columnize(target)`: one column or a list of them. */
  datatype Target = OneColumn(name: string) | ColumnList(columns: seq<Value>)

  /** A string target is a one-element list. */
  function TargetColumns(target: Target): seq<Value> {
    match target
    case OneColumn(name) => [Str(name)]
    case ColumnList(columns) => columns
  }

  /** Every column wrapped and turned into text, in order. */
  function WrappedColumns(wrapIdentifier: string -> string, columns: seq<Value>): seq<string> {
    seq(|columns|, i requires 0 <= i < |columns| => ToJsString(WrapValue(wrapIdentifier, columns[i])))
  }

  /** `?` placeholders for `n` values, separated by `", "`. */
  function Placeholders(n: nat): string
    decreases n
  {
    if n == 0 then "" else if n == 1 then "?" else Placeholders(n - 1) + ", ?"
  }

  /** The placeholder text holds exactly one `?` per value and is `3n - 2` long. */
  lemma {:induction false} PlaceholdersShape(n: nat)
    ensures multiset(Placeholders(n))['?'] == n
    ensures |Placeholders(n)| == if n == 0 then 0 else 3 * n - 2
    decreases n
  {
    if n > 1 {
      PlaceholdersShape(n - 1);
      assert multiset(Placeholders(n)) == multiset(Placeholders(n - 1)) + multiset(", ?");
      assert multiset(", ?")['?'] == 1 by {
        assert ", ?" == [',', ' ', '?'];
      }
    } else if n == 1 {
      assert multiset("?")['?'] == 1 by {
        assert "?" == ['?'];
      }
    }
  }

  /** The values `parameterize` works through: a list, or one value standing alone. */
  datatype Params = ParamList(list: seq<Value>) | OneParam(value: Value)

  function ParamValues(values: Params): seq<Value> {
    match values
    case ParamList(list) => list
    case OneParam(value) => [value]
  }

  /** Each `undefined` entry replaced by `notSetValue`, every other entry kept. */
  function Substitute(values: seq<Value>, notSetValue: Value): seq<Value> {
    seq(|values|, i requires 0 <= i < |values| => if values[i].Undefined? then notSetValue else values[i])
  }

  /** The compiled output of a query the formatter may be asked to inline. */
  datatype Compiled = Compiled(sql: string, queryMethod: string, asName: string)

  /**
    `outputQuery(compiled, isParameter)`: an empty query gives `''`; a select
    used as a parameter or aliased is parenthesised, and aliased when it has
    a name; anything else comes back unchanged.
  */
  function OutputQuery(wrapIdentifier: string -> string, compiled: Compiled, isParameter: bool): (r: string)
    ensures compiled.sql == "" ==> r == ""
    ensures compiled.queryMethod != "select" || (!isParameter && compiled.asName == "") ==> r == compiled.sql
    ensures compiled.sql != "" && compiled.queryMethod == "select" && (isParameter || compiled.asName != "")
            ==> StartsWith(r, "(" + compiled.sql + ")")
    ensures compiled.sql != "" && compiled.queryMethod == "select" && compiled.asName != ""
            ==> r == "(" + compiled.sql + ")" + " as " + WrapStr(wrapIdentifier, compiled.asName)
    ensures compiled.sql != "" && compiled.queryMethod == "select" && isParameter && compiled.asName == ""
            ==> r == "(" + compiled.sql + ")"
  {
    var sql := compiled.sql;
    if sql != "" && compiled.queryMethod == "select" && (isParameter || compiled.asName != "") then
      var wrapped := "(" + sql + ")";
      if compiled.asName != "" then Alias(wrapped, ToJsString(WrapValue(wrapIdentifier, Str(compiled.asName))))
      else wrapped
    else sql
  }

  /**
    `operator(value)`: accepted when its lower-case form is a known
    operator, and then returned with its own case; otherwise a TypeError.
  */
  function Operator(value: string): (r: Result<string, string>)
    ensures r.Success? <==> ToLower(value) in Operators
    ensures r.Success? ==> r.value == value
    ensures r.Failure? ==> r.error == "The operator \"" + value + "\" is not permitted"
  {
    if ToLower(value) in Operators then Success(value)
    else Failure("The operator \"" + value + "\" is not permitted")
  }

  /** Whether an operator is accepted does not depend on its case. */
  lemma OperatorIgnoresCase(value: string)
    ensures Operator(ToLower(value)).Success? == Operator(value).Success?
  {
    ToLowerIdempotent(value);
  }

  /** Every listed operator is accepted as it is written. */
  lemma OperatorsAccepted(op: string)
    requires op in Operators
    ensures Operator(op) == Success(op)
  {
    var i :| 0 <= i < |Operators| && Operators[i] == op;
    if i < 14 {
      OperatorsLowerFront(i);
    } else {
      OperatorsLowerBack(i);
    }
    assert ToLower(op) == op;
  }

  /** The first half of the list holds no upper-case letter. */
  lemma OperatorsLowerFront(i: nat)
    requires i < 14
    ensures forall k :: 0 <= k < |Operators[i]| ==> !('A' <= Operators[i][k] <= 'Z')
  {
  }

  /** The second half of the list holds no upper-case letter. */
  lemma OperatorsLowerBack(i: nat)
    requires 14 <= i < |Operators|
    ensures forall k :: 0 <= k < |Operators[i]| ==> !('A' <= Operators[i][k] <= 'Z')
  {
  }

  /**
    `direction(value)`: the value itself when it is `asc` or `desc` in any
    case, `'asc'` otherwise; either way an order direction.
  */
  function Direction(value: string): (r: string)
    ensures ToLower(r) in OrderBys
    ensures ToLower(value) in OrderBys ==> r == value
    ensures ToLower(value) !in OrderBys ==> r == "asc"
  {
    if ToLower(value) in OrderBys then value
    else
      assert ToLower("asc") == "asc";
      "asc"
  }

  /** A formatter: the client's identifier quoting and the bindings collected so far. */
  class Formatter {
    const wrapIdentifier: string -> string
    var bindings: seq<Value>

    constructor(wrapIdentifier: string -> string)
      ensures this.wrapIdentifier == wrapIdentifier
      ensures bindings == []
    {
      this.wrapIdentifier := wrapIdentifier;
      bindings := [];
    }

    /** `wrap(value)` for a plain value. */
    method Wrap(value: Value) returns (r: Value)
      ensures r == WrapValue(wrapIdentifier, value)
      decreases |ToJsString(value)|, 2
    {
      if value.Num? {
        return value;
      }
      var s := WrapString(ToJsString(value));
      r := Str(s);
    }

    /** `_wrapString(value)`. */
    method WrapString(value: string) returns (r: string)
      ensures r == WrapStr(wrapIdentifier, value)
      decreases |value|, 1
    {
      var asIndex := IndexOf(ToLower(value), " as ");
      WrapStrCases(wrapIdentifier, value);
      if asIndex != -1 {
        var first := value[..asIndex];
        var second := value[asIndex + 4..];
        var w := Wrap(Str(first));
        return Alias(ToJsString(w), WrapAsIdentifier(wrapIdentifier, second));
      }
      var parts := WrapDotted(value);
      r := Join(parts, ".");
    }

    /** The loop of `_wrapString` over the dotted segments. */
    method WrapDotted(value: string) returns (wrapped: seq<string>)
      ensures wrapped == DottedParts(wrapIdentifier, value)
      decreases |value|, 0
    {
      var segments := Split(value, '.');
      SplitHeadShorter(value, '.');
      ghost var all := DottedParts(wrapIdentifier, value);
      wrapped := [];
      var i := 0;
      while i < |segments|
        invariant 0 <= i <= |segments|
        invariant wrapped == all[..i]
      {
        var segment := Trim(segments[i]);
        var next;
        if i == 0 && |segments| > 1 {
          var w := Wrap(Str(segment));
          next := ToJsString(w);
        } else {
          next := wrapIdentifier(segment);
        }
        assert next == all[i] by {
          if i > 0 {
            assert all[i] == QuoteEach(wrapIdentifier, segments[1..])[i - 1];
          }
        }
        assert all[..i + 1] == all[..i] + [next];
        wrapped := wrapped + [next];
        i := i + 1;
      }
      assert all[..i] == all;
    }

    /** `columnize(target)`: every column wrapped, joined with `", "`. */
    method Columnize(target: Target) returns (str: string)
      ensures str == Join(WrappedColumns(wrapIdentifier, TargetColumns(target)), ", ")
    {
      var columns := TargetColumns(target);
      ghost var all := WrappedColumns(wrapIdentifier, columns);
      str := "";
      var i := 0;
      while i < |columns|
        invariant 0 <= i <= |columns|
        invariant str == Join(all[..i], ", ")
      {
        if i > 0 {
          str := str + ", ";
        }
        var w := Wrap(columns[i]);
        JoinPrefixStep(all, i, ", ");
        str := str + ToJsString(w);
        i := i + 1;
      }
      assert all[..i] == all;
    }

    /** `parameter(value)` for a plain value: record the binding, emit `?`. */
    method Parameter(value: Value) returns (r: string)
      modifies this
      ensures bindings == old(bindings) + [value]
      ensures r == "?"
    {
      bindings := bindings + [value];
      r := "?";
    }

    /**
      `parameterize(values, notSetValue)`: one `?` per value, every value
      (or `notSetValue` in place of `undefined`) bound in order.
    */
    method Parameterize(values: Params, notSetValue: Value) returns (str: string)
      modifies this
      ensures bindings == old(bindings) + Substitute(ParamValues(values), notSetValue)
      ensures str == Placeholders(|ParamValues(values)|)
    {
      var list := ParamValues(values);
      ghost var bound := Substitute(list, notSetValue);
      str := "";
      var i := 0;
      while i < |list|
        invariant 0 <= i <= |list|
        invariant bindings == old(bindings) + bound[..i]
        invariant str == Placeholders(i)
      {
        if i > 0 {
          str := str + ", ";
        }
        var p := Parameter(if list[i].Undefined? then notSetValue else list[i]);
        assert bound[..i + 1] == bound[..i] + [bound[i]];
        str := str + p;
        i := i + 1;
      }
      assert bound[..i] == bound;
    }
  }
}
