/**
  JavaScript values as the knex core handles them: rows, bindings, column
  arguments and modifier arguments. Numbers are modelled as integers only;
  an object carries its identity (for `==`) and the text `JSON.stringify`
  gives for it.
*/
module Js {
  import opened Results

  datatype Value =
    | Undefined
    | Null
    | Bool(b: bool)
    | Num(n: int)
    | Str(s: string)
    | Obj(ref: nat, json: string)

  /** JavaScript truthiness (`if (value)`). */
  predicate Truthy(v: Value) {
    match v
    case Undefined => false
    case Null => false
    case Bool(b) => b
    case Num(n) => n != 0
    case Str(s) => s != ""
    case Obj(_, _) => true
  }

  /** `value == null`: true of `null` and of `undefined`. */
  predicate Nullish(v: Value) {
    v.Undefined? || v.Null?
  }

  predicate IsDigit(c: char) {
    '0' <= c <= '9'
  }

  predicate AllDigits(s: string) {
    forall i :: 0 <= i < |s| ==> IsDigit(s[i])
  }

  function DigitChar(d: nat): (c: char)
    requires d < 10
    ensures IsDigit(c)
  {
    ('0' as int + d) as char
  }

  function DigitValue(c: char): (d: nat)
    requires IsDigit(c)
    ensures d < 10
  {
    c as int - '0' as int
  }

  /** Decimal rendering of a natural number, as `String(n)` gives it. */
  function NatToString(n: nat): (r: string)
    ensures |r| >= 1 && AllDigits(r)
    decreases n
  {
    if n < 10 then [DigitChar(n)] else NatToString(n / 10) + [DigitChar(n % 10)]
  }

  /** The value of a string of decimal digits. */
  function ParseDigits(s: string): nat
    requires AllDigits(s)
    decreases |s|
  {
    if s == [] then 0 else ParseDigits(s[..|s| - 1]) * 10 + DigitValue(s[|s| - 1])
  }

  /** Reading back a rendered number gives the number. */
  lemma {:induction false} ParseNatToString(n: nat)
    ensures ParseDigits(NatToString(n)) == n
  {
    if n >= 10 {
      var s := NatToString(n);
      assert s[..|s| - 1] == NatToString(n / 10);
      ParseNatToString(n / 10);
    }
  }

  /** Distinct numbers render to distinct strings. */
  lemma NatToStringInjective(m: nat, n: nat)
    ensures NatToString(m) == NatToString(n) ==> m == n
  {
    ParseNatToString(m);
    ParseNatToString(n);
  }

  function IntToString(i: int): string {
    if i < 0 then "-" + NatToString(-i) else NatToString(i)
  }

  /** `value + ''`: the string a value converts to. */
  function ToJsString(v: Value): string {
    match v
    case Undefined => "undefined"
    case Null => "null"
    case Bool(b) => if b then "true" else "false"
    case Num(n) => IntToString(n)
    case Str(s) => s
    case Obj(_, _) => "[object Object]"
  }

  /**
    `Number(s)` for the strings the model covers: the empty string is 0, a
    string of decimal digits is its value, anything else is NaN (None).
  */
  function StringToNumber(s: string): Option<int> {
    if s == "" then Some(0)
    else if AllDigits(s) then Some(ParseDigits(s))
    else None
  }

  function ConversionRank(v: Value): nat {
    if v.Bool? || v.Obj? then 1 else 0
  }

  /**
    The abstract equality `a == b`: `null` and `undefined` equal each other
    and nothing else, booleans compare as 0 or 1, a number and a string
    compare numerically, an object against a primitive compares through its
    string form, two objects compare by identity.
  */
  predicate LooseEquals(a: Value, b: Value)
    decreases ConversionRank(a) + ConversionRank(b)
  {
    if Nullish(a) || Nullish(b) then Nullish(a) && Nullish(b)
    else if a.Bool? then LooseEquals(Num(if a.b then 1 else 0), b)
    else if b.Bool? then LooseEquals(a, Num(if b.b then 1 else 0))
    else if a.Obj? && b.Obj? then a.ref == b.ref
    else if a.Obj? then LooseEquals(Str("[object Object]"), b)
    else if b.Obj? then LooseEquals(a, Str("[object Object]"))
    else if a.Num? && b.Num? then a.n == b.n
    else if a.Str? && b.Str? then a.s == b.s
    else if a.Num? then StringToNumber(b.s) == Some(a.n)
    else StringToNumber(a.s) == Some(b.n)
  }

  /** `==` is symmetric. */
  lemma LooseEqualsSymmetric(a: Value, b: Value)
    ensures LooseEquals(a, b) == LooseEquals(b, a)
    decreases ConversionRank(a) + ConversionRank(b)
  {
    if Nullish(a) || Nullish(b) {
    } else if a.Bool? {
      LooseEqualsSymmetric(Num(if a.b then 1 else 0), b);
    } else if b.Bool? {
      LooseEqualsSymmetric(a, Num(if b.b then 1 else 0));
    } else if a.Obj? && !b.Obj? {
      LooseEqualsSymmetric(Str("[object Object]"), b);
    } else if b.Obj? && !a.Obj? {
      LooseEqualsSymmetric(a, Str("[object Object]"));
    }
  }

  /** Every modelled value is `==` to itself (the model has no NaN). */
  lemma LooseEqualsReflexive(a: Value)
    ensures LooseEquals(a, a)
  {
    if a.Bool? {
      assert LooseEquals(a, a) == LooseEquals(Num(if a.b then 1 else 0), a);
      assert LooseEquals(Num(if a.b then 1 else 0), a)
        == LooseEquals(Num(if a.b then 1 else 0), Num(if a.b then 1 else 0));
    }
  }
}
