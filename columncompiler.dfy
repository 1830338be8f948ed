/**
  The column compiler: it turns one column of a schema builder into its
  definition fragment `<wrapped name> <type><modifiers>` and pushes it as a
  query. Column types and modifiers are looked up by name on the compiler;
  the types here are the generic ones every dialect starts from.
*/
module ColumnCompiler {
  import opened Results
  import opened Js
  import opened Text
  import opened Queries
  import Dash
  import Formatter

  // ---------------------------------------------------------------------
  // Numbers in column arguments
  // ---------------------------------------------------------------------

  /** The end of the run of decimal digits starting at `from`. */
  function DigitRun(s: string, from: nat): (r: nat)
    requires from <= |s|
    ensures from <= r <= |s|
    ensures AllDigits(s[from..r])
    ensures r < |s| ==> !IsDigit(s[r])
    decreases |s| - from
  {
    if from < |s| && IsDigit(s[from]) then DigitRun(s, from + 1) else from
  }

  /**
    `parseInt(s, 10)` on integers: leading white space skipped, an optional
    sign, then the longest run of digits; no digit at all is NaN (None).
  */
  function ParseInt(s: string): (r: Option<int>)
    ensures r.None? <==> (var i := SkipSpaces(s, 0);
                          var start := if i < |s| && (s[i] == '-' || s[i] == '+') then i + 1 else i;
                          start == |s| || !IsDigit(s[start]))
  {
    var i := SkipSpaces(s, 0);
    var negative := i < |s| && s[i] == '-';
    var start := if i < |s| && (s[i] == '-' || s[i] == '+') then i + 1 else i;
    var end := DigitRun(s, start);
    if end == start then None
    else
      var magnitude: int := ParseDigits(s[start..end]);
      Some(if negative then -magnitude else magnitude)
  }

  /** `parseInt` reads back every integer rendered in decimal. */
  lemma ParseIntToString(n: int)
    ensures ParseInt(IntToString(n)) == Some(n)
  {
    var s := IntToString(n);
    var digits := NatToString(if n < 0 then -n else n);
    var start := if n < 0 then 1 else 0;
    assert s[start..] == digits;
    assert !IsSpace(s[0]);
    assert SkipSpaces(s, 0) == 0;
    assert DigitRun(s, start) == |s| by {
      DigitRunToEnd(s, start);
    }
    assert s[start..|s|] == digits;
    ParseNatToString(if n < 0 then -n else n);
  }

  /**
    What `parseInt` reads in general: white space, an optional sign and a run
    of digits, whatever follows the run ignored and leading zeros allowed.
  */
  lemma ParseIntReads(spaces: string, sign: string, digits: string, rest: string)
    requires forall k :: 0 <= k < |spaces| ==> IsSpace(spaces[k])
    requires sign == "" || sign == "-" || sign == "+"
    requires digits != [] && AllDigits(digits)
    requires rest == [] || !IsDigit(rest[0])
    ensures ParseInt(spaces + sign + digits + rest)
            == Some(if sign == "-" then -(ParseDigits(digits) as int) else ParseDigits(digits) as int)
  {
    var s := spaces + sign + digits + rest;
    var i, start, end := |spaces|, |spaces| + |sign|, |spaces| + |sign| + |digits|;
    assert s[i] == if sign == "" then digits[0] else sign[0];
    assert !IsSpace(s[i]);
    SkipSpacesOver(s, 0, i);
    assert (i < |s| && s[i] == '-') <==> sign == "-";
    assert start == if i < |s| && (s[i] == '-' || s[i] == '+') then i + 1 else i;
    assert s[start..end] == digits;
    DigitRunOver(s, start, end);
    ParseIntAt(s, i, start, end, sign == "-", ParseDigits(digits));
  }

  /** `parseInt` once the space, the sign and the digit run are located. */
  lemma ParseIntAt(s: string, i: nat, start: nat, end: nat, negative: bool, magnitude: int)
    requires i <= start < end <= |s| && SkipSpaces(s, 0) == i
    requires negative <==> i < |s| && s[i] == '-'
    requires start == if i < |s| && (s[i] == '-' || s[i] == '+') then i + 1 else i
    requires DigitRun(s, start) == end
    requires AllDigits(s[start..end]) && magnitude == ParseDigits(s[start..end])
    ensures ParseInt(s) == Some(if negative then -magnitude else magnitude)
  {
  }

  /** Over a run of white space ending at `n` the skip stops at `n`. */
  lemma {:induction false} SkipSpacesOver(s: string, from: nat, n: nat)
    requires from <= n < |s| && !IsSpace(s[n])
    requires forall k :: from <= k < n ==> IsSpace(s[k])
    ensures SkipSpaces(s, from) == n
    decreases n - from
  {
    if from < n {
      SkipSpacesOver(s, from + 1, n);
    }
  }

  /** Over digits from `from` to `end`, followed by no digit, the run stops at `end`. */
  lemma {:induction false} DigitRunOver(s: string, from: nat, end: nat)
    requires from <= end <= |s| && AllDigits(s[from..end])
    requires end < |s| ==> !IsDigit(s[end])
    ensures DigitRun(s, from) == end
    decreases end - from
  {
    if from < end {
      assert IsDigit(s[from..end][0]);
      assert s[from + 1..end] == s[from..end][1..];
      DigitRunOver(s, from + 1, end);
    }
  }

  /** Leading zeros are read as a decimal number: `parseInt("08", 10)` is 8. */
  lemma ParseIntLeadingZero()
    ensures ParseInt("08") == Some(8)
  {
    var digits := "08";
    assert digits[..1] == "0" && digits[..1][..0] == "";
    assert ParseDigits(digits) == 8;
    var s := "" + "" + digits + "";
    assert s == digits;
    ParseIntReads("", "", digits, "");
  }

  /** A plus sign is skipped: `parseInt("+5", 10)` is 5. */
  lemma ParseIntPlusSign()
    ensures ParseInt("+5") == Some(5)
  {
    var digits := "5";
    assert digits[..0] == "";
    assert ParseDigits(digits) == 5;
    var s := "" + "+" + digits + "";
    assert s == "+5";
    ParseIntReads("", "+", digits, "");
  }

  /** Leading space and trailing text: `parseInt(" -12px", 10)` is -12. */
  lemma ParseIntTrailingText()
    ensures ParseInt(" -12px") == Some(-12)
  {
    var digits := "12";
    assert digits[..1] == "1" && digits[..1][..0] == "";
    assert ParseDigits(digits) == 12;
    var s := " " + "-" + digits + "px";
    assert s == " -12px";
    ParseIntReads(" ", "-", digits, "px");
  }

  /** Over a tail made only of digits the run reaches the end. */
  lemma {:induction false} DigitRunToEnd(s: string, from: nat)
    requires from <= |s| && AllDigits(s[from..])
    ensures DigitRun(s, from) == |s|
    decreases |s| - from
  {
    if from < |s| {
      assert IsDigit(s[from..][0]);
      assert s[from + 1..] == s[from..][1..];
      DigitRunToEnd(s, from + 1);
    }
  }

  /**
    `_num(val, fallback)`: the fallback for `null`, `undefined` or a value
    `parseInt` cannot read, the parsed integer otherwise.
  */
  function Num(val: Value, fallback: int): (r: int)
    ensures Nullish(val) ==> r == fallback
    ensures !Nullish(val) && ParseInt(ToJsString(val)).Some? ==> r == ParseInt(ToJsString(val)).value
    ensures !Nullish(val) && ParseInt(ToJsString(val)).None? ==> r == fallback
  {
    if Nullish(val) then fallback
    else match ParseInt(ToJsString(val))
      case None => fallback
      case Some(n) => n
  }

  /** A number argument is taken as it is. */
  lemma NumOfNumber(n: int, fallback: int)
    ensures Num(Value.Num(n), fallback) == n
  {
    ParseIntToString(n);
  }

  /** A string that starts with no digit, sign or space falls back. */
  lemma NumOfWord(s: string, fallback: int)
    requires s != [] && !IsDigit(s[0]) && !IsSpace(s[0]) && s[0] != '-' && s[0] != '+'
    ensures Num(Str(s), fallback) == fallback
  {
    assert SkipSpaces(s, 0) == 0;
  }

  // ---------------------------------------------------------------------
  // Column types
  // ---------------------------------------------------------------------

  /** The `i`-th argument, `undefined` past the end (as `apply` passes it). */
  function Arg(args: seq<Value>, i: nat): (r: Value)
    ensures i < |args| ==> r == args[i]
    ensures i >= |args| ==> r.Undefined?
  {
    if i < |args| then args[i] else Undefined
  }

  /** The column types defined as functions of the remaining arguments. */
  predicate IsTypeFunction(columnType: string) {
    columnType in ["varchar", "floating", "decimal", "specifictype"]
  }

  /**
    The type text for a (lower-case) column type: fixed text for most
    types, built from the arguments after the column name for `varchar`,
    `floating`, `decimal` and `specifictype`, and `undefined` for any other
    type name (the builder only hands over the names listed here).
  */
  function TypeSql(columnType: string, rest: seq<Value>): (r: string)
  {
    match columnType
    case "increments" => "integer not null primary key autoincrement"
    case "bigincrements" => "integer not null primary key autoincrement"
    case "integer" => "integer"
    case "smallint" => "integer"
    case "mediumint" => "integer"
    case "biginteger" => "bigint"
    case "varchar" => "varchar(" + IntToString(Num(Arg(rest, 0), 255)) + ")"
    case "text" => "text"
    case "tinyint" => "tinyint"
    case "floating" => "float(" + IntToString(Num(Arg(rest, 0), 8)) + ", " + IntToString(Num(Arg(rest, 1), 2)) + ")"
    case "decimal" => "decimal(" + IntToString(Num(Arg(rest, 0), 8)) + ", " + IntToString(Num(Arg(rest, 1), 2)) + ")"
    case "binary" => "blob"
    case "bool" => "boolean"
    case "date" => "date"
    case "datetime" => "datetime"
    case "time" => "time"
    case "timestamp" => "timestamp"
    case "enu" => "varchar"
    case "bit" => "text"
    case "json" => "text"
    case "uuid" => "char(36)"
    case "specifictype" => ToJsString(Arg(rest, 0))
    case _ => "undefined"
  }

  /** Without a length, a `varchar` is 255 long; a given length is used. */
  lemma VarcharLength(rest: seq<Value>)
    ensures (rest == [] || Nullish(rest[0])) ==> TypeSql("varchar", rest) == "varchar(255)"
    ensures (rest != [] && rest[0].Num?) ==> TypeSql("varchar", rest) == "varchar(" + IntToString(rest[0].n) + ")"
  {
    assert NatToString(255) == "255";
    if rest != [] && rest[0].Num? {
      NumOfNumber(rest[0].n, 255);
    }
  }

  /** Without precision and scale, `floating` and `decimal` take 8 and 2. */
  lemma FloatingDefaults(rest: seq<Value>)
    requires |rest| <= 2 && forall i :: 0 <= i < |rest| ==> Nullish(rest[i])
    ensures TypeSql("floating", rest) == "float(8, 2)"
    ensures TypeSql("decimal", rest) == "decimal(8, 2)"
  {
    assert NatToString(8) == "8" && NatToString(2) == "2";
  }

  // ---------------------------------------------------------------------
  // Modifiers
  // ---------------------------------------------------------------------

  /** `nullable(value)`: `not null` only for `false` itself. */
  function NullableSql(value: Value): (r: string)
    ensures r == "not null" <==> value == Bool(false)
    ensures r == "null" <==> value != Bool(false)
  {
    if value == Bool(false) then "not null" else "null"
  }

  /** `notNullable()` is `nullable(false)`. */
  function NotNullableSql(): (r: string)
    ensures r == NullableSql(Bool(false))
  {
    "not null"
  }

  /**
    `defaultTo(value)` for a column of the given type: nothing for
    `undefined`, `default null` for `null`, `'1'` or `'0'` for a boolean
    column (the string `'false'` counting as false), the JSON text itself
    for an object on a `json` column, and the value single-quoted otherwise.
  */
  function DefaultToSql(columnType: string, value: Value): (r: string)
    ensures r == "" <==> value.Undefined? || (columnType == "json" && value.Obj? && value.json == "")
    ensures value.Null? ==> r == "default null"
    ensures !Nullish(value) && columnType == "bool" ==>
              r == (if Truthy(value) && value != Str("false") then "default '1'" else "default '0'")
    ensures columnType == "json" && value.Obj? ==> r == value.json
    ensures !Nullish(value) && columnType != "bool" && !(columnType == "json" && value.Obj?) ==>
              r == "default '" + ToJsString(value) + "'"
  {
    if value.Undefined? then ""
    else if value.Null? then "default null"
    else if columnType == "bool" then
      var v := if value == Str("false") then Value.Num(0) else value;
      "default '" + (if Truthy(v) then "1" else "0") + "'"
    else if columnType == "json" && value.Obj? then value.json
    else "default '" + ToJsString(value) + "'"
  }

  /** The modifiers a dialect lists, by the name the builder records them under. */
  datatype Modifier = Nullable | NotNullable | DefaultTo {
    function Name(): string {
      match this
      case Nullable => "nullable"
      case NotNullable => "notNullable"
      case DefaultTo => "defaultTo"
    }
  }

  /** The text of one modifier applied to its recorded arguments. */
  function ModifierSql(m: Modifier, columnType: string, args: seq<Value>): string {
    match m
    case Nullable => NullableSql(Arg(args, 0))
    case NotNullable => NotNullableSql()
    case DefaultTo => DefaultToSql(columnType, Arg(args, 0))
  }

  /** Whether modifier `m` was used on the column and gives some text. */
  predicate Emits(m: Modifier, columnType: string, modified: map<string, seq<Value>>) {
    m.Name() in modified && ModifierSql(m, columnType, modified[m.Name()]) != ""
  }

  /**
    The non-empty texts of the listed modifiers that were used on the
    column, in the dialect's order.
  */
  function ModifierList(columnType: string, modifiers: seq<Modifier>, modified: map<string, seq<Value>>): (r: seq<string>)
    ensures |r| <= |modifiers|
    ensures forall i :: 0 <= i < |r| ==> r[i] != ""
    decreases |modifiers|
  {
    if modifiers == [] then []
    else
      var prev := ModifierList(columnType, modifiers[..|modifiers| - 1], modified);
      var m := modifiers[|modifiers| - 1];
      if Emits(m, columnType, modified) then prev + [ModifierSql(m, columnType, modified[m.Name()])]
      else prev
  }

  /** The list over two runs of modifiers is the two lists one after the other. */
  lemma {:induction false} ModifierListAppend(columnType: string, a: seq<Modifier>, b: seq<Modifier>, modified: map<string, seq<Value>>)
    ensures ModifierList(columnType, a + b, modified) == ModifierList(columnType, a, modified) + ModifierList(columnType, b, modified)
    decreases |b|
  {
    if b != [] {
      assert (a + b)[..|a + b| - 1] == a + b[..|b| - 1];
      ModifierListAppend(columnType, a, b[..|b| - 1], modified);
    } else {
      assert a + b == a;
    }
  }

  /** A text is in the list exactly when some used modifier gives it. */
  lemma {:induction false} ModifierListMember(columnType: string, modifiers: seq<Modifier>, modified: map<string, seq<Value>>, x: string)
    ensures x in ModifierList(columnType, modifiers, modified) <==>
            exists i :: 0 <= i < |modifiers| && Emits(modifiers[i], columnType, modified)
                        && x == ModifierSql(modifiers[i], columnType, modified[modifiers[i].Name()])
    decreases |modifiers|
  {
    if modifiers != [] {
      var init := modifiers[..|modifiers| - 1];
      ModifierListMember(columnType, init, modified, x);
      assert forall i :: 0 <= i < |init| ==> init[i] == modifiers[i];
    }
  }

  /** `getModifiers()`: nothing for increments; else the texts after one space each. */
  function ModifiersSql(columnType: string, modifiers: seq<Modifier>, modified: map<string, seq<Value>>): (r: string)
    ensures IsIncrements(columnType) ==> r == ""
    ensures r == "" <==> IsIncrements(columnType) || ModifierList(columnType, modifiers, modified) == []
    ensures r != "" ==> r == " " + Join(ModifierList(columnType, modifiers, modified), " ")
  {
    var list := if IsIncrements(columnType) then [] else ModifierList(columnType, modifiers, modified);
    if |list| > 0 then " " + Join(list, " ") else ""
  }

  // ---------------------------------------------------------------------
  // The column
  // ---------------------------------------------------------------------

  /** Whether the type is one of the auto-increment types. */
  predicate IsIncrements(columnType: string) {
    IndexOf(columnType, "increments") != -1
  }

  /**
    `getColumnName()`: the first argument when it is truthy, `id` for an
    auto-increment column, and otherwise an error naming the type.
  */
  function ColumnName(args: seq<Value>, columnType: string): (r: Result<Value, string>)
    ensures r.Success? <==> Truthy(Dash.First(Some(args))) || IsIncrements(columnType)
    ensures Truthy(Dash.First(Some(args))) ==> r == Success(args[0])
    ensures !Truthy(Dash.First(Some(args))) && IsIncrements(columnType) ==> r == Success(Str("id"))
    ensures r.Failure? ==> r.error == "You did not specify a column name for the " + columnType + "column."
  {
    var value := Dash.First(Some(args));
    if Truthy(value) then Success(value)
    else if IsIncrements(columnType) then Success(Str("id"))
    else Failure("You did not specify a column name for the " + columnType + "column.")
  }

  /** The arguments left once `getColumnType` has run: shifted for a type function. */
  function ArgsAfterType(args: seq<Value>, columnType: string): (r: seq<Value>)
    ensures !IsTypeFunction(columnType) ==> r == args
    ensures IsTypeFunction(columnType) && args != [] ==> r == args[1..]
  {
    if IsTypeFunction(columnType) && args != [] then args[1..] else args
  }

  /**
    `compileColumn()`: the wrapped column name, a space, the type built
    from the arguments after the name, then the modifiers.
  */
  function CompiledColumn(wrapIdentifier: string -> string, args: seq<Value>, columnType: string,
                          modifiers: seq<Modifier>, modified: map<string, seq<Value>>): Result<string, string>
  {
    match ColumnName(args, columnType)
    case Failure(e) => Failure(e)
    case Success(name) =>
      Success(ToJsString(Formatter.WrapValue(wrapIdentifier, name)) + " "
              + TypeSql(columnType, ArgsAfterType(args, columnType))
              + ModifiersSql(columnType, modifiers, modified))
  }

  /**
    A compiled column fails exactly when it has no name, and otherwise is
    the wrapped name and a space, followed by the type of the remaining
    arguments and the modifiers.
  */
  lemma CompiledColumnParts(wrapIdentifier: string -> string, args: seq<Value>, columnType: string,
                            modifiers: seq<Modifier>, modified: map<string, seq<Value>>)
    ensures var r := CompiledColumn(wrapIdentifier, args, columnType, modifiers, modified);
            (r.Failure? <==> ColumnName(args, columnType).Failure?)
            && (r.Success? ==>
                  var name := ToJsString(Formatter.WrapValue(wrapIdentifier, ColumnName(args, columnType).value));
                  StartsWith(r.value, name + " ")
                  && r.value[|name| + 1..] == TypeSql(columnType, ArgsAfterType(args, columnType)) + ModifiersSql(columnType, modifiers, modified))
  {
    var cn := ColumnName(args, columnType);
    var name := if cn.Success? then ToJsString(Formatter.WrapValue(wrapIdentifier, cn.value)) else "";
    JoinedParts(CompiledColumn(wrapIdentifier, args, columnType, modifiers, modified), cn, name,
                TypeSql(columnType, ArgsAfterType(args, columnType)), ModifiersSql(columnType, modifiers, modified));
  }

  /** A result that is a name, a space and two more parts when a lookup succeeds, and fails with it. */
  lemma JoinedParts<T>(r: Result<string, string>, lookup: Result<T, string>, name: string, b: string, c: string)
    requires lookup.Success? ==> r == Success(name + " " + b + c)
    requires lookup.Failure? ==> r.Failure?
    ensures r.Failure? <==> lookup.Failure?
    ensures r.Success? ==> StartsWith(r.value, name + " ") && r.value[|name| + 1..] == b + c
  {
    if r.Success? {
      assert name + " " + b + c == name + " " + (b + c);
      SpaceJoined(name, b + c);
    }
  }

  /** The two sides of a space-joined pair can be read back. */
  lemma SpaceJoined(a: string, b: string)
    ensures StartsWith(a + " " + b, a + " ") && (a + " " + b)[|a| + 1..] == b
  {
    assert (a + " " + b)[..|a| + 1] == a + " ";
  }

  /** A `varchar` column takes its length from the argument after its name. */
  lemma CompiledVarchar(wrapIdentifier: string -> string, args: seq<Value>,
                        modifiers: seq<Modifier>, modified: map<string, seq<Value>>)
    requires |args| >= 2 && Truthy(args[0]) && args[1].Num?
    ensures CompiledColumn(wrapIdentifier, args, "varchar", modifiers, modified)
            == Success(ToJsString(Formatter.WrapValue(wrapIdentifier, args[0])) + " varchar(" + IntToString(args[1].n) + ")"
                       + ModifiersSql("varchar", modifiers, modified))
  {
    var name := ToJsString(Formatter.WrapValue(wrapIdentifier, args[0]));
    var digits := IntToString(args[1].n);
    var mods := ModifiersSql("varchar", modifiers, modified);
    assert ArgsAfterType(args, "varchar") == args[1..] by {
      assert IsTypeFunction("varchar");
    }
    assert TypeSql("varchar", args[1..]) == "varchar(" + digits + ")" by {
      VarcharLength(args[1..]);
    }
    NamedColumn(wrapIdentifier, args, "varchar", modifiers, modified);
    VarcharText(name, digits, mods);
  }

  lemma VarcharText(name: string, digits: string, mods: string)
    ensures name + " " + ("varchar(" + digits + ")") + mods == name + " varchar(" + digits + ")" + mods
  {
    assert " " + "varchar(" == " varchar(";
  }

  /** A column whose first argument is truthy is named by it. */
  lemma NamedColumn(wrapIdentifier: string -> string, args: seq<Value>, columnType: string,
                    modifiers: seq<Modifier>, modified: map<string, seq<Value>>)
    requires args != [] && Truthy(args[0])
    ensures CompiledColumn(wrapIdentifier, args, columnType, modifiers, modified)
            == Success(ToJsString(Formatter.WrapValue(wrapIdentifier, args[0])) + " "
                       + TypeSql(columnType, ArgsAfterType(args, columnType))
                       + ModifiersSql(columnType, modifiers, modified))
  {
    assert ColumnName(args, columnType) == Success(args[0]);
  }


  /**
    A column compiler: the column's arguments (the builder's own array,
    shared with it), its lower-case type, the modifiers used on it, the
    dialect's modifier list and the queries built so far.
  */
  class ColumnCompiler {
    const wrapIdentifier: string -> string
    const args: Dash.JsArray
    const columnType: string
    const modified: map<string, seq<Value>>
    const modifiers: seq<Modifier>
    var sequence: seq<Query>
    /** The queries attached to the sequence as `sequence.additional`. */
    var additional: seq<Query>

    constructor(wrapIdentifier: string -> string, args: Dash.JsArray, builderType: string,
                modified: map<string, seq<Value>>, modifiers: seq<Modifier>)
      ensures this.wrapIdentifier == wrapIdentifier && this.args == args
      ensures columnType == ToLower(builderType)
      ensures this.modified == modified && this.modifiers == modifiers
      ensures sequence == [] && additional == []
    {
      this.wrapIdentifier := wrapIdentifier;
      this.args := args;
      this.columnType := ToLower(builderType);
      this.modified := modified;
      this.modifiers := modifiers;
      sequence := [];
      additional := [];
    }

    /** `getColumnName()`. */
    method GetColumnName() returns (r: Result<Value, string>)
      ensures r == ColumnName(args.items, columnType)
    {
      var value := Dash.First(Some(args.items));
      if Truthy(value) {
        return Success(value);
      }
      if IndexOf(columnType, "increments") != -1 {
        return Success(Str("id"));
      }
      return Failure("You did not specify a column name for the " + columnType + "column.");
    }

    /**
      `getColumnType()`: for a type function the first argument is shifted
      off the shared argument array before the rest are passed on.
    */
    method GetColumnType() returns (r: string)
      modifies args
      ensures args.items == ArgsAfterType(old(args.items), columnType)
      ensures r == TypeSql(columnType, args.items)
    {
      if IsTypeFunction(columnType) {
        var rest := Dash.Tail(args);
        r := TypeSql(columnType, rest.items);
      } else {
        r := TypeSql(columnType, args.items);
      }
    }

    /** `getModifiers()`, with its loop over the dialect's modifiers. */
    method GetModifiers() returns (r: string)
      ensures r == ModifiersSql(columnType, modifiers, modified)
    {
      var list: seq<string> := [];
      if IndexOf(columnType, "increments") == -1 {
        var i := 0;
        while i < |modifiers|
          invariant 0 <= i <= |modifiers|
          invariant list == ModifierList(columnType, modifiers[..i], modified)
        {
          var m := modifiers[i];
          assert modifiers[..i + 1][..i] == modifiers[..i];
          if m.Name() in modified {
            var val := ModifierSql(m, columnType, modified[m.Name()]);
            if val != "" {
              list := list + [val];
            }
          }
          i := i + 1;
        }
        assert modifiers[..i] == modifiers;
      }
      r := if |list| > 0 then " " + Join(list, " ") else "";
    }

    /** `compileColumn()`: name first, then type (which may shift the arguments), then modifiers. */
    method CompileColumn() returns (r: Result<string, string>)
      modifies args
      ensures r == CompiledColumn(wrapIdentifier, old(args.items), columnType, modifiers, modified)
      ensures r.Success? ==> args.items == ArgsAfterType(old(args.items), columnType)
      ensures r.Failure? ==> args.items == old(args.items)
    {
      var name := GetColumnName();
      if name.Failure? {
        return Failure(name.error);
      }
      var f := new Formatter.Formatter(wrapIdentifier);
      var wrapped := f.Wrap(name.value);
      var columnTypeSql := GetColumnType();
      var mods := GetModifiers();
      r := Success(ToJsString(wrapped) + " " + columnTypeSql + mods);
    }

    /**
      `toSQL()`: the column's query goes on the sequence first, followed by
      any additional queries attached to it; a column without a name
      throws and leaves the sequence alone.
    */
    method ToSQL() returns (r: Result<seq<Query>, string>)
      modifies this, args
      ensures var c := CompiledColumn(wrapIdentifier, old(args.items), columnType, modifiers, modified);
              (c.Failure? ==> r == Failure(c.error) && sequence == old(sequence) && additional == old(additional))
              && (c.Success? ==> sequence == old(sequence) + [PlainQuery(c.value)] + old(additional)
                                 && additional == [] && r == Success(sequence))
      ensures var c := CompiledColumn(wrapIdentifier, old(args.items), columnType, modifiers, modified);
              args.items == if c.Success? then ArgsAfterType(old(args.items), columnType) else old(args.items)
    {
      var column := CompileColumn();
      if column.Failure? {
        return Failure(column.error);
      }
      sequence := sequence + [PlainQuery(column.value)];
      sequence := sequence + additional;
      additional := [];
      r := Success(sequence);
    }
  }
}
