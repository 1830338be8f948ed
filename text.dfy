/**
  The string operations of the JavaScript runtime that the core relies on,
  and the few regular expressions it uses, written as index arithmetic.
  Strings are sequences of UTF-16 code units, as in JavaScript.
*/
module Text {
  import opened Results

  // ---------------------------------------------------------------------
  // Searching: String.prototype.indexOf and lastIndexOf
  // ---------------------------------------------------------------------

  predicate OccursAt(s: string, pat: string, k: int) {
    0 <= k && k + |pat| <= |s| && s[k..k + |pat|] == pat
  }

  predicate Occurs(s: string, pat: string) {
    exists k :: 0 <= k <= |s| && OccursAt(s, pat, k)
  }

  /** `s.indexOf(pat, from)`: the first occurrence at or after `from`, or -1. */
  function IndexOfFrom(s: string, pat: string, from: nat): (r: int)
    ensures r == -1 || (from <= r && OccursAt(s, pat, r))
    ensures forall k :: from <= k && (r < 0 || k < r) ==> !OccursAt(s, pat, k)
    decreases |s| + 1 - from
  {
    if from + |pat| > |s| then -1
    else if OccursAt(s, pat, from) then from
    else IndexOfFrom(s, pat, from + 1)
  }

  /** `s.indexOf(pat)`. */
  function IndexOf(s: string, pat: string): (r: int)
    ensures r == -1 || OccursAt(s, pat, r)
    ensures forall k :: 0 <= k && (r < 0 || k < r) ==> !OccursAt(s, pat, k)
  {
    IndexOfFrom(s, pat, 0)
  }

  lemma IndexOfNone(s: string, pat: string)
    ensures IndexOf(s, pat) < 0 <==> !Occurs(s, pat)
  {
  }

  /** The last index `k` with `lo <= k < hi` and `s[k] == c`, or -1. */
  function LastIndexIn(s: string, c: char, lo: nat, hi: nat): (r: int)
    requires lo <= hi <= |s|
    ensures r == -1 || (lo <= r < hi && s[r] == c)
    ensures forall k :: lo <= k < hi && r < k ==> s[k] != c
    decreases hi - lo
  {
    if hi == lo then -1
    else if s[hi - 1] == c then hi - 1
    else LastIndexIn(s, c, lo, hi - 1)
  }

  // ---------------------------------------------------------------------
  // String.prototype.replace with a string pattern: first occurrence only
  // ---------------------------------------------------------------------

  /**
    `s.replace(pat, rep)` with a plain string pattern. Special `$` patterns
    in `rep` are not interpreted.
  */
  function ReplaceFirst(s: string, pat: string, rep: string): (r: string)
    ensures !Occurs(s, pat) ==> r == s
    ensures forall k {:trigger OccursAt(s, pat, k)} ::
              OccursAt(s, pat, k) && (forall j :: 0 <= j < k ==> !OccursAt(s, pat, j))
              ==> r == s[..k] + rep + s[k + |pat|..]
  {
    var k := IndexOf(s, pat);
    if k < 0 then s else s[..k] + rep + s[k + |pat|..]
  }

  // ---------------------------------------------------------------------
  // split and join
  // ---------------------------------------------------------------------

  /** `parts.join(sep)`. */
  function Join(parts: seq<string>, sep: string): string
    decreases |parts|
  {
    if parts == [] then ""
    else if |parts| == 1 then parts[0]
    else Join(parts[..|parts| - 1], sep) + sep + parts[|parts| - 1]
  }

  lemma {:induction false} JoinCons(x: string, parts: seq<string>, sep: string)
    requires parts != []
    ensures Join([x] + parts, sep) == x + sep + Join(parts, sep)
    decreases |parts|
  {
    if |parts| == 1 {
      assert [x] + parts == [x] + [parts[0]];
      JoinSnoc([x], parts[0], sep);
    } else {
      var n := |parts|;
      var init, last := parts[..n - 1], parts[n - 1];
      JoinLastSplit(x, parts, init, last, sep);
      JoinCons(x, init, sep);
      RegroupJoin(Join([x] + parts, sep), Join([x] + init, sep), Join(parts, sep), Join(init, sep), x, last, sep);
    }
  }

  /** Both `[x] + parts` and `parts` end with the last part after a separator. */
  lemma JoinLastSplit(x: string, parts: seq<string>, init: seq<string>, last: string, sep: string)
    requires |parts| >= 2 && init == parts[..|parts| - 1] && last == parts[|parts| - 1]
    ensures Join([x] + parts, sep) == Join([x] + init, sep) + sep + last
    ensures Join(parts, sep) == Join(init, sep) + sep + last
  {
    assert [x] + parts == ([x] + init) + [last];
    assert init + [last] == parts;
    JoinSnoc([x] + init, last, sep);
    JoinSnoc(init, last, sep);
  }

  /** The regrouping `(x + sep + m) + sep + last == x + sep + (m + sep + last)`, on named texts. */
  lemma RegroupJoin(whole: string, front: string, rest: string, middle: string, x: string, last: string, sep: string)
    requires whole == front + sep + last && front == x + sep + middle
    requires rest == middle + sep + last
    ensures whole == x + sep + rest
  {
  }

  /** A part added at the end follows a separator. */
  lemma JoinSnoc(parts: seq<string>, last: string, sep: string)
    requires parts != []
    ensures Join(parts + [last], sep) == Join(parts, sep) + sep + last
  {
    assert (parts + [last])[..|parts|] == parts;
  }

  /** The join of the first `i + 1` parts: the join of the first `i`, a separator unless there were none, then part `i`. */
  lemma JoinPrefixStep(parts: seq<string>, i: nat, sep: string)
    requires i < |parts|
    ensures Join(parts[..i + 1], sep) == (if i == 0 then "" else Join(parts[..i], sep) + sep) + parts[i]
  {
    assert parts[..i + 1][..i] == parts[..i];
  }

  /** A join starts with its first part. */
  lemma JoinStartsWithHead(parts: seq<string>, sep: string)
    requires parts != []
    ensures StartsWith(Join(parts, sep), parts[0])
  {
    if |parts| > 1 {
      JoinCons(parts[0], parts[1..], sep);
      assert [parts[0]] + parts[1..] == parts;
    }
  }

  lemma OccursCharAt(s: string, c: char, i: int)
    requires 0 <= i < |s|
    ensures OccursAt(s, [c], i) <==> s[i] == c
  {
    assert s[i..i + 1] == [s[i]];
  }

  /** `s.split(c)` with a one-character separator. */
  function Split(s: string, c: char): (r: seq<string>)
    ensures |r| >= 1
    ensures forall i :: 0 <= i < |r| ==> c !in r[i]
    decreases |s|
  {
    var k := IndexOf(s, [c]);
    if k < 0 then
      assert c !in s by {
        forall i | 0 <= i < |s| ensures s[i] != c { OccursCharAt(s, c, i); }
      }
      [s]
    else
      assert c !in s[..k] by {
        forall i | 0 <= i < k ensures s[i] != c { OccursCharAt(s, c, i); }
      }
      [s[..k]] + Split(s[k + 1..], c)
  }

  /** Joining the pieces of a split with the separator gives the string back. */
  lemma {:induction false} JoinSplit(s: string, c: char)
    ensures Join(Split(s, c), [c]) == s
    decreases |s|
  {
    var k := IndexOf(s, [c]);
    if k >= 0 {
      var rest := Split(s[k + 1..], c);
      assert Split(s, c) == [s[..k]] + rest;
      JoinSplit(s[k + 1..], c);
      JoinCons(s[..k], rest, [c]);
      CutAtOccurrence(s, c, k);
    }
  }

  /** A string is the text before an occurrence of `c`, then `c`, then the text after it. */
  lemma CutAtOccurrence(s: string, c: char, k: int)
    requires 0 <= k && OccursAt(s, [c], k)
    ensures k < |s| && s == s[..k] + [c] + s[k + 1..]
  {
    assert s[k..k + 1] == [c];
    assert s == s[..k] + s[k..k + 1] + s[k + 1..];
  }

  /** A string without `c` holds no occurrence of `[c]`. */
  lemma IndexOfAbsentChar(s: string, c: char)
    requires c !in s
    ensures IndexOf(s, [c]) == -1
  {
    forall k | 0 <= k ensures !OccursAt(s, [c], k) {
      if k < |s| {
        OccursCharAt(s, c, k);
      }
    }
  }

  /** The first `c` of `x + [c] + y` is the one after `x` when `x` has none. */
  lemma IndexOfAfterPrefix(x: string, y: string, c: char)
    requires c !in x
    ensures IndexOf(x + [c] + y, [c]) == |x|
  {
    var s := x + [c] + y;
    OccursCharAt(s, c, |x|);
    forall k | 0 <= k < |x| ensures !OccursAt(s, [c], k) {
      OccursCharAt(s, c, k);
    }
  }

  /** Splitting a join of pieces free of the separator gives the pieces back. */
  lemma {:induction false} SplitJoin(parts: seq<string>, c: char)
    requires parts != []
    requires forall i :: 0 <= i < |parts| ==> c !in parts[i]
    ensures Split(Join(parts, [c]), c) == parts
    decreases |parts|
  {
    if |parts| == 1 {
      IndexOfAbsentChar(parts[0], c);
    } else {
      var rest := parts[1..];
      assert [parts[0]] + rest == parts;
      JoinCons(parts[0], rest, [c]);
      var s := Join(parts, [c]);
      IndexOfAfterPrefix(parts[0], Join(rest, [c]), c);
      assert s[..|parts[0]|] == parts[0];
      assert s[|parts[0]| + 1..] == Join(rest, [c]);
      SplitJoin(rest, c);
    }
  }

  /**
    Replacing the first piece of a split and joining again: the new first
    piece followed by everything after the old one.
  */
  lemma JoinSplitReplaceHead(s: string, c: char, x: string)
    ensures Join([x] + Split(s, c)[1..], [c]) == x + s[|Split(s, c)[0]|..]
  {
    var parts := Split(s, c);
    var k := IndexOf(s, [c]);
    if k >= 0 {
      var rest := Split(s[k + 1..], c);
      assert parts == [s[..k]] + rest;
      assert parts[1..] == rest;
      JoinSplit(s[k + 1..], c);
      ReplaceHeadAt(s, c, x, k, rest);
    } else {
      assert parts == [s];
      assert [x] + parts[1..] == [x];
    }
  }

  /** The step of `JoinSplitReplaceHead` at the first `c`, found at `k`. */
  lemma ReplaceHeadAt(s: string, c: char, x: string, k: int, rest: seq<string>)
    requires 0 <= k && OccursAt(s, [c], k)
    requires rest != [] && Join(rest, [c]) == s[k + 1..]
    ensures Join([x] + rest, [c]) == x + s[k..]
  {
    JoinCons(x, rest, [c]);
    assert s[k..k + 1] == [c];
    assert s[k..] == [c] + s[k + 1..];
  }

  // ---------------------------------------------------------------------
  // Case and white space
  // ---------------------------------------------------------------------

  function LowerChar(c: char): char {
    if 'A' <= c <= 'Z' then (c as int + 32) as char else c
  }

  /** `s.toLowerCase()` on ASCII letters. */
  function ToLower(s: string): (r: string)
    ensures |r| == |s|
    ensures forall i :: 0 <= i < |s| ==> r[i] == LowerChar(s[i])
  {
    seq(|s|, i requires 0 <= i < |s| => LowerChar(s[i]))
  }

  /** `/word/i.test(s)` for a lower-case ASCII `word`. */
  predicate ContainsIgnoringCase(s: string, word: string) {
    IndexOf(ToLower(s), word) >= 0
  }

  /** A character that `.` does not match. */
  predicate IsLineTerminator(c: char) {
    c == '\n' || c == '\r' || c == '\U{2028}' || c == '\U{2029}'
  }

  /** A character matched by the `\s` class. */
  predicate IsSpace(c: char) {
    || c == ' ' || c == '\t' || c == '\n' || c == '\r' || c == '\U{000B}' || c == '\U{000C}'
    || c == '\U{00A0}' || c == '\U{1680}' || ('\U{2000}' <= c <= '\U{200A}')
    || c == '\U{2028}' || c == '\U{2029}' || c == '\U{202F}' || c == '\U{205F}'
    || c == '\U{3000}' || c == '\U{FEFF}'
  }

  /** The first index at or after `from` that is not `\s`, or `|s|`. */
  function SkipSpaces(s: string, from: nat): (r: nat)
    requires from <= |s|
    ensures from <= r <= |s|
    ensures r < |s| ==> !IsSpace(s[r])
    ensures forall k :: from <= k < r ==> IsSpace(s[k])
    decreases |s| - from
  {
    if from == |s| || !IsSpace(s[from]) then from else SkipSpaces(s, from + 1)
  }

  /** The end of the run of `\S` characters that starts at `from`. */
  function NonSpaceRun(s: string, from: nat): (r: nat)
    requires from <= |s|
    ensures from <= r <= |s|
    ensures r < |s| ==> IsSpace(s[r])
    ensures forall k :: from <= k < r ==> !IsSpace(s[k])
    decreases |s| - from
  {
    if from == |s| || IsSpace(s[from]) then from else NonSpaceRun(s, from + 1)
  }

  /** The index of the first line terminator at or after `from`, or `|s|`. */
  function LineEnd(s: string, from: nat): (r: nat)
    requires from <= |s|
    ensures from <= r <= |s|
    ensures r < |s| ==> IsLineTerminator(s[r])
    ensures forall k :: from <= k < r ==> !IsLineTerminator(s[k])
    decreases |s| - from
  {
    if from == |s| || IsLineTerminator(s[from]) then from else LineEnd(s, from + 1)
  }

  /** `s.trim()`: white space removed at both ends. */
  function Trim(s: string): (r: string)
    ensures |r| <= |s|
    ensures r != [] ==> !IsSpace(r[0]) && !IsSpace(r[|r| - 1])
    decreases |s|
  {
    if s == [] then s
    else if IsSpace(s[0]) then Trim(s[1..])
    else if IsSpace(s[|s| - 1]) then Trim(s[..|s| - 1])
    else s
  }

  /** The trimmed string is a slice of the string. */
  lemma {:induction false} TrimSlice(s: string) returns (a: nat, b: nat)
    ensures a <= b <= |s| && Trim(s) == s[a..b]
    decreases |s|
  {
    if s == [] {
      a, b := 0, 0;
    } else if IsSpace(s[0]) {
      var a', b' := TrimSlice(s[1..]);
      a, b := a' + 1, b' + 1;
      SliceOfTail(s, a', b');
    } else if IsSpace(s[|s| - 1]) {
      a, b := TrimSlice(s[..|s| - 1]);
      SliceOfInit(s, a, b);
    } else {
      a, b := 0, |s|;
    }
  }

  /** A slice of `s[1..]` is the slice of `s` one further on. */
  lemma SliceOfTail(s: string, a: nat, b: nat)
    requires s != [] && a <= b <= |s| - 1
    ensures s[1..][a..b] == s[a + 1..b + 1]
  {
  }

  /** A slice of `s` without its last character is the same slice of `s`. */
  lemma SliceOfInit(s: string, a: nat, b: nat)
    requires s != [] && a <= b <= |s| - 1
    ensures s[..|s| - 1][a..b] == s[a..b]
  {
  }

  /** Trimming twice is trimming once. */
  lemma TrimIdempotent(s: string)
    ensures Trim(Trim(s)) == Trim(s)
  {
  }

  /** Lower-casing commutes with taking a slice. */
  lemma ToLowerSlice(s: string, a: nat, b: nat)
    requires a <= b <= |s|
    ensures ToLower(s[a..b]) == ToLower(s)[a..b]
  {
  }

  /** Lower-casing twice is lower-casing once. */
  lemma ToLowerIdempotent(s: string)
    ensures ToLower(ToLower(s)) == ToLower(s)
  {
  }

  /** A pattern absent from a string is absent from each of its slices. */
  lemma IndexOfSlice(s: string, pat: string, a: nat, b: nat)
    requires a <= b <= |s| && IndexOf(s, pat) == -1
    ensures IndexOf(s[a..b], pat) == -1
  {
    var t := s[a..b];
    forall j | 0 <= j ensures !OccursAt(t, pat, j) {
      if j + |pat| <= |t| {
        var u, v := t[j..j + |pat|], s[a + j..a + j + |pat|];
        assert forall i :: 0 <= i < |pat| ==> u[i] == v[i];
        assert u == v;
        assert !OccursAt(s, pat, a + j);
      }
    }
  }

  /** A pattern absent from a string is absent from each of its slices. */
  lemma AbsentFromSlice(s: string, pat: string, a: nat, b: nat)
    requires a <= b <= |s| && !Occurs(s, pat)
    ensures !Occurs(s[a..b], pat)
  {
    IndexOfNone(s, pat);
    IndexOfSlice(s, pat, a, b);
    IndexOfNone(s[a..b], pat);
  }

  /** The first piece of a split is a prefix of the string. */
  lemma SplitHeadPrefix(s: string, c: char)
    ensures StartsWith(s, Split(s, c)[0])
  {
  }

  /** With more than one piece, the first piece of a split is shorter than the string. */
  lemma SplitHeadShorter(s: string, c: char)
    ensures |Split(s, c)| > 1 ==> |Split(s, c)[0]| < |s|
  {
  }

  /** `s` with its leading `' '` characters (spaces only) removed. */
  function TrimLeadingBlanks(s: string): (r: string)
    ensures |r| <= |s| && r == s[|s| - |r|..]
    ensures r != [] ==> r[0] != ' '
    ensures forall k :: 0 <= k < |s| - |r| ==> s[k] == ' '
    decreases |s|
  {
    if s != [] && s[0] == ' ' then TrimLeadingBlanks(s[1..]) else s
  }

  lemma {:induction false} TrimLeadingBlanksSnoc(s: string, c: char)
    ensures TrimLeadingBlanks(s + [c])
         == if TrimLeadingBlanks(s) == [] && c == ' ' then [] else TrimLeadingBlanks(s) + [c]
    decreases |s|
  {
    if s == [] {
      assert s + [c] == [c];
      assert [c][1..] == [];
    } else if s[0] == ' ' {
      assert (s + [c])[0] == ' ';
      assert (s + [c])[1..] == s[1..] + [c];
      assert TrimLeadingBlanks(s + [c]) == TrimLeadingBlanks(s[1..] + [c]);
      assert TrimLeadingBlanks(s) == TrimLeadingBlanks(s[1..]);
      TrimLeadingBlanksSnoc(s[1..], c);
    } else {
      assert (s + [c])[0] == s[0];
      assert TrimLeadingBlanks(s + [c]) == s + [c];
      assert TrimLeadingBlanks(s) == s;
    }
  }

  // ---------------------------------------------------------------------
  // The regular expressions of the DDL helper
  // ---------------------------------------------------------------------

  /**
    The match of `/\(.*\)/` searched from `from`: the first `(` whose line
    holds a `)` after it, up to the last `)` on that line (`.` stops at line
    terminators and `.*` is greedy). Returns the indices of both parentheses.
  */
  function ParenSpanFrom(s: string, from: nat): (r: Option<(nat, nat)>)
    ensures r.Some? ==> from <= r.value.0 < r.value.1 < |s|
                        && s[r.value.0] == '(' && s[r.value.1] == ')'
    decreases |s| + 1 - from
  {
    var i := IndexOfFrom(s, "(", from);
    if i < 0 then None
    else
      assert s[i..i + 1] == "(";
      var end := LineEnd(s, i + 1);
      var j := LastIndexIn(s, ')', i + 1, end);
      if j >= 0 then Some((i, j)) else ParenSpanFrom(s, end + 1)
  }

  /** The match of `/\(.*\)/` in `s`. */
  function ParenSpan(s: string): (r: Option<(nat, nat)>)
    ensures r.Some? ==> r.value.0 < r.value.1 < |s| && s[r.value.0] == '(' && s[r.value.1] == ')'
  {
    ParenSpanFrom(s, 0)
  }

  /**
    `s.replace(/\(.*\)/, m => m.replace(from, to))`: inside the matched
    parenthesised span only, the first occurrence of `from` becomes `to`.
  */
  function ReplaceInParens(s: string, from: string, to: string): string {
    match ParenSpan(s)
    case None => s
    case Some((i, j)) => s[..i] + ReplaceFirst(s[i..j + 1], from, to) + s[j + 1..]
  }

  /**
    Outside the matched span nothing changes; inside it only the first
    occurrence of `from` is replaced, and with none the text is kept.
  */
  lemma ReplaceInParensSpan(s: string, from: string, to: string, i: nat, j: nat)
    requires ParenSpan(s) == Some((i, j))
    ensures ReplaceInParens(s, from, to) == s[..i] + ReplaceFirst(s[i..j + 1], from, to) + s[j + 1..]
    ensures !Occurs(s[i..j + 1], from) ==> ReplaceInParens(s, from, to) == s
  {
    assert s == s[..i] + s[i..j + 1] + s[j + 1..];
  }

  /** Without `from` in the string, the replacement inside the parentheses changes nothing. */
  lemma ReplaceInParensAbsent(s: string, from: string, to: string)
    requires !Occurs(s, from)
    ensures ReplaceInParens(s, from, to) == s
  {
    match ParenSpan(s)
    case None =>
    case Some((i, j)) =>
      AbsentFromSlice(s, from, i, j + 1);
      ReplaceInParensSpan(s, from, to, i, j);
  }

  /** `/,\s*([,)])/` matches at `i`. */
  predicate StrayCommaAt(s: string, i: int) {
    && 0 <= i < |s| && s[i] == ','
    && SkipSpaces(s, i + 1) < |s|
    && (s[SkipSpaces(s, i + 1)] == ',' || s[SkipSpaces(s, i + 1)] == ')')
  }

  /** Nowhere in `s` does `/,\s*([,)])/` match. */
  predicate NoStrayComma(s: string) {
    forall i :: 0 <= i < |s| ==> !StrayCommaAt(s, i)
  }

  function FirstStrayComma(s: string, from: nat): (r: int)
    ensures r == -1 || (from <= r && StrayCommaAt(s, r))
    ensures forall k :: from <= k && (r < 0 || k < r) ==> !StrayCommaAt(s, k)
    decreases |s| - from
  {
    if from >= |s| then -1
    else if StrayCommaAt(s, from) then from
    else FirstStrayComma(s, from + 1)
  }

  /**
    `s.replace(/,\s*([,)])/, '$1')`: the first comma that is followed, after
    white space only, by a comma or a closing parenthesis is removed together
    with that white space; nothing else changes.
  */
  function RemoveStrayComma(s: string): (r: string)
    ensures (forall i :: !StrayCommaAt(s, i)) ==> r == s
    ensures forall i {:trigger StrayCommaAt(s, i)} ::
              StrayCommaAt(s, i) && (forall k :: 0 <= k < i ==> !StrayCommaAt(s, k))
              ==> r == s[..i] + s[SkipSpaces(s, i + 1)..]
  {
    var i := FirstStrayComma(s, 0);
    if i < 0 then s else s[..i] + s[SkipSpaces(s, i + 1)..]
  }

  /** With no stray comma in the first `n` characters, the cleanup leaves them in place. */
  lemma NoStrayCommaKeepsPrefix(s: string, n: nat)
    requires n <= |s|
    requires forall k :: 0 <= k < n ==> !StrayCommaAt(s, k)
    ensures StartsWith(RemoveStrayComma(s), s[..n])
  {
    var i := FirstStrayComma(s, 0);
    if i >= 0 {
      assert n <= i;
      var r := s[..i] + s[SkipSpaces(s, i + 1)..];
      assert r[..n] == s[..n];
    }
  }

  /**
    `s.split(/<pat>/i)` for a lower-case ASCII separator `pat`: the pieces
    between the non-overlapping occurrences of `pat`, compared ignoring case,
    from left to right.
  */
  function SplitIgnoringCase(s: string, pat: string): (r: seq<string>)
    requires pat != []
    ensures |r| >= 1
    decreases |s|
  {
    var k := IndexOf(ToLower(s), pat);
    if k < 0 then [s] else [s[..k]] + SplitIgnoringCase(s[k + |pat|..], pat)
  }

  /** Every separator the case-insensitive split finds is written as `pat` itself. */
  predicate LowerCaseSeparators(s: string, pat: string) {
    forall k :: 0 <= k < |s| && OccursAt(ToLower(s), pat, k) ==> OccursAt(s, pat, k)
  }

  /** One step of the case-insensitive split: the text before the first separator, then the split of the rest. */
  lemma SplitStep(s: string, pat: string) returns (k: int)
    requires pat != []
    ensures k == IndexOf(ToLower(s), pat)
    ensures k < 0 ==> SplitIgnoringCase(s, pat) == [s]
    ensures k >= 0 ==> k + |pat| <= |s| && OccursAt(ToLower(s), pat, k)
    ensures k >= 0 ==> SplitIgnoringCase(s, pat) == [s[..k]] + SplitIgnoringCase(s[k + |pat|..], pat)
  {
    var lower := ToLower(s);
    k := IndexOf(lower, pat);
    if k >= 0 {
      assert |lower| == |s|;
      assert SplitIgnoringCase(s, pat) == [s[..k]] + SplitIgnoringCase(s[k + |pat|..], pat);
    }
  }

  /** The pieces of a case-insensitive split of a string without `p` hold no `p` either. */
  lemma {:induction false} SplitIgnoringCaseAbsent(s: string, pat: string, p: string)
    requires pat != [] && !Occurs(s, p)
    ensures forall i :: 0 <= i < |SplitIgnoringCase(s, pat)| ==> !Occurs(SplitIgnoringCase(s, pat)[i], p)
    decreases |s|
  {
    var k := SplitStep(s, pat);
    if k >= 0 {
      var n := k + |pat|;
      AbsentAroundCut(s, p, k, n);
      SplitIgnoringCaseAbsent(s[n..], pat, p);
      AbsentCons(s[..k], SplitIgnoringCase(s[n..], pat), p);
    } else {
      AbsentCons(s, [], p);
      assert [s] + [] == [s];
    }
  }

  /** Cutting a piece out of a string without `p` leaves two strings without `p`. */
  lemma AbsentAroundCut(s: string, p: string, k: nat, n: nat)
    requires k <= n <= |s| && !Occurs(s, p)
    ensures !Occurs(s[..k], p) && !Occurs(s[n..], p)
  {
    AbsentFromSlice(s, p, 0, k);
    assert s[0..k] == s[..k];
    AbsentFromSlice(s, p, n, |s|);
    assert s[n..|s|] == s[n..];
  }

  /** A piece without `p` in front of pieces without `p`. */
  lemma AbsentCons(head: string, tail: seq<string>, p: string)
    requires !Occurs(head, p)
    requires forall i :: 0 <= i < |tail| ==> !Occurs(tail[i], p)
    ensures forall i :: 0 <= i < |[head] + tail| ==> !Occurs(([head] + tail)[i], p)
  {
    var r := [head] + tail;
    forall i | 0 <= i < |r|
      ensures !Occurs(r[i], p)
    {
      if i > 0 {
        assert r[i] == tail[i - 1];
      }
    }
  }

  /** Joining the pieces with `pat` gives the string back when every separator is written as `pat`. */
  lemma {:induction false} JoinSplitIgnoringCase(s: string, pat: string)
    requires pat != [] && LowerCaseSeparators(s, pat)
    ensures Join(SplitIgnoringCase(s, pat), pat) == s
    decreases |s|
  {
    var k := SplitStep(s, pat);
    if k >= 0 {
      var rest := s[k + |pat|..];
      var tail := SplitIgnoringCase(rest, pat);
      assert OccursAt(s, pat, k);
      LowerCaseSeparatorsTail(s, pat, k + |pat|);
      JoinSplitIgnoringCase(rest, pat);
      JoinCons(s[..k], tail, pat);
      CutAtPattern(s, pat, k);
    }
  }

  /** What holds of a string's separators holds of those of its tails. */
  lemma LowerCaseSeparatorsTail(s: string, pat: string, n: nat)
    requires n <= |s| && LowerCaseSeparators(s, pat)
    ensures LowerCaseSeparators(s[n..], pat)
  {
    var rest := s[n..];
    ToLowerSlice(s, n, |s|);
    assert s[n..|s|] == rest;
    forall j | 0 <= j < |rest| && OccursAt(ToLower(rest), pat, j)
      ensures OccursAt(rest, pat, j)
    {
      assert ToLower(rest)[j..j + |pat|] == ToLower(s)[n + j..n + j + |pat|];
      assert OccursAt(ToLower(s), pat, n + j);
      assert rest[j..j + |pat|] == s[n + j..n + j + |pat|];
    }
  }

  /** A string is the text before an occurrence of `pat`, then `pat`, then the text after it. */
  lemma CutAtPattern(s: string, pat: string, k: nat)
    requires OccursAt(s, pat, k)
    ensures s == s[..k] + pat + s[k + |pat|..]
  {
    assert s == s[..k] + s[k..k + |pat|] + s[k + |pat|..];
  }

  predicate StartsWith(s: string, prefix: string) {
    |prefix| <= |s| && s[..|prefix|] == prefix
  }
}
