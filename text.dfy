/** The Python string operations the translator relies on: `in`, `find`,
    `split(sep)`, `split()`, `strip()`, `lower()`, `sep.join(...)` and the
    decimal rendering of an integer in an f-string. */
module Text {
  import opened Wrappers

  /** Python's `str.isspace()` for a single character. */
  predicate IsSpace(c: char) {
    || c == ' '
    || ('\t' <= c <= '\r')
    || ('\U{1C}' <= c <= '\U{1F}')
    || c == '\U{85}' || c == '\U{A0}' || c == '\U{1680}'
    || ('\U{2000}' <= c <= '\U{200A}')
    || c == '\U{2028}' || c == '\U{2029}' || c == '\U{202F}' || c == '\U{205F}' || c == '\U{3000}'
  }

  /** A maximal run of non-whitespace, as produced by `str.split()`. */
  predicate IsWord(w: string) {
    |w| > 0 && forall i :: 0 <= i < |w| ==> !IsSpace(w[i])
  }

  predicate IsBlank(s: string) {
    forall i :: 0 <= i < |s| ==> IsSpace(s[i])
  }

  predicate OccursAt(s: string, t: string, j: int) {
    0 <= j && j + |t| <= |s| && s[j..j + |t|] == t
  }

  /** `s.find(t)`: the first position where `t` occurs in `s`. */
  function FirstIndex(s: string, t: string): (r: Option<nat>)
    requires |t| > 0
    ensures r.Some? ==> OccursAt(s, t, r.value)
    ensures r.Some? ==> forall j :: 0 <= j < r.value ==> !OccursAt(s, t, j)
    ensures r.None? ==> forall j :: !OccursAt(s, t, j)
    decreases |s|
  {
    if |s| < |t| then None
    else if s[..|t|] == t then Some(0)
    else
      var rest := FirstIndex(s[1..], t);
      forall j | 1 <= j
        ensures OccursAt(s, t, j) <==> OccursAt(s[1..], t, j - 1)
      {
        if j + |t| <= |s| {
          assert s[1..][j - 1..j - 1 + |t|] == s[j..j + |t|];
        }
      }
      match rest
      case None => None
      case Some(k) => Some(k + 1)
  }

  /** Python's `t in s`. */
  predicate Contains(s: string, t: string)
    requires |t| > 0
  {
    FirstIndex(s, t).Some?
  }

  lemma ContainsAt(s: string, t: string, j: nat)
    requires |t| > 0 && OccursAt(s, t, j)
    ensures Contains(s, t)
  {
  }

  /** Every piece of a string occurs in it, wherever it is placed. */
  lemma ContainsMiddle(a: string, t: string, b: string)
    requires |t| > 0
    ensures Contains(a + t + b, t)
  {
    assert (a + t + b)[|a|..|a| + |t|] == t;
    ContainsAt(a + t + b, t, |a|);
  }

  /** A string ends with itself after anything. */
  lemma ContainsEnd(a: string, t: string)
    requires |t| > 0
    ensures Contains(a + t, t)
  {
    assert (a + t)[|a|..|a| + |t|] == t;
    ContainsAt(a + t, t, |a|);
  }

  /** An occurrence stays an occurrence when more text follows. */
  lemma ContainsExtend(s: string, b: string, t: string)
    requires |t| > 0 && Contains(s, t)
    ensures Contains(s + b, t)
  {
    var k := FirstIndex(s, t).value;
    assert (s + b)[k..k + |t|] == s[k..k + |t|];
    ContainsAt(s + b, t, k);
  }

  /** An occurrence of `t` in a part of a string is an occurrence in the
      whole string. */
  lemma ContainsWithin(a: string, s: string, b: string, t: string)
    requires |t| > 0 && Contains(s, t)
    ensures Contains(a + s + b, t)
  {
    var k := FirstIndex(s, t).value;
    assert (a + s + b)[|a| + k..|a| + k + |t|] == s[k..k + |t|];
    ContainsAt(a + s + b, t, |a| + k);
  }

  /** When the first character of `t` is absent from `a`, no occurrence of `t`
      starts inside `a`. */
  lemma FirstIndexPast(a: string, b: string, t: string)
    requires |t| > 0 && forall i :: 0 <= i < |a| ==> a[i] != t[0]
    ensures FirstIndex(a + b, t).Some? ==> FirstIndex(a + b, t).value >= |a|
  {
    forall j | 0 <= j < |a|
      ensures !OccursAt(a + b, t, j)
    {
      if j + |t| <= |a + b| {
        assert (a + b)[j..j + |t|][0] == a[j];
      }
    }
  }

  /** The first occurrence of `t` in `a + t + b`, when `t`'s first character
      does not occur in `a`, is right after `a`. */
  lemma FirstIndexAfter(a: string, t: string, b: string)
    requires |t| > 0 && forall i :: 0 <= i < |a| ==> a[i] != t[0]
    ensures FirstIndex(a + t + b, t) == Some(|a|)
  {
    assert OccursAt(a + t + b, t, |a|) by {
      assert (a + t + b)[|a|..|a| + |t|] == t;
    }
    assert a + t + b == a + (t + b);
    FirstIndexPast(a, t + b, t);
  }

  /** `s.split(t)` for a non-empty separator `t`. */
  function Split(s: string, t: string): (pieces: seq<string>)
    requires |t| > 0
    ensures |pieces| >= 1
    ensures Contains(s, t) ==> |pieces| >= 2
    ensures forall p | p in pieces :: !Contains(p, t)
    decreases |s|
  {
    match FirstIndex(s, t)
    case None => [s]
    case Some(k) =>
      assert !Contains(s[..k], t) by {
        forall j | 0 <= j && j + |t| <= k
          ensures !OccursAt(s[..k], t, j)
        {
          assert !OccursAt(s, t, j);
          assert s[..k][j..j + |t|] == s[j..j + |t|];
        }
      }
      [s[..k]] + Split(s[k + |t|..], t)
  }

  /** A character absent from a string is absent from every piece of it. */
  lemma {:induction false} SplitKeepsOut(s: string, t: string, c: char)
    requires |t| > 0 && c !in s
    ensures forall p | p in Split(s, t) :: c !in p
    decreases |s|
  {
    match FirstIndex(s, t)
    case None =>
    case Some(k) =>
      var rest := s[k + |t|..];
      assert forall x | x in s[..k] :: x in s;
      assert forall x | x in rest :: x in s;
      SplitKeepsOut(rest, t, c);
  }

  /** For a one-character needle, `in` is membership of that character. */
  lemma ContainsChar(s: string, c: char)
    ensures Contains(s, [c]) <==> c in s
  {
    if Contains(s, [c]) {
      var j := FirstIndex(s, [c]).value;
      assert s[j..j + 1][0] == s[j];
    }
    if c in s {
      var j :| 0 <= j < |s| && s[j] == c;
      assert s[j..j + 1] == [c];
      ContainsAt(s, [c], j);
    }
  }

  /** `sep.join(xs)`. */
  function JoinWith(sep: string, xs: seq<string>): string
  {
    if |xs| == 0 then ""
    else if |xs| == 1 then xs[0]
    else xs[0] + sep + JoinWith(sep, xs[1..])
  }

  /** Splitting on a separator and joining the pieces back with it gives the
      original string. */
  lemma {:induction false} JoinSplit(s: string, t: string)
    requires |t| > 0
    ensures JoinWith(t, Split(s, t)) == s
    decreases |s|
  {
    match FirstIndex(s, t)
    case None =>
    case Some(k) =>
      var rest := s[k + |t|..];
      var tail := Split(rest, t);
      assert Split(s, t) == [s[..k]] + tail;
      assert ([s[..k]] + tail)[1..] == tail;
      assert JoinWith(t, Split(s, t)) == s[..k] + t + JoinWith(t, tail);
      JoinSplit(rest, t);
      assert s[k..k + |t|] == t;
      assert s == s[..k] + s[k..k + |t|] + rest;
  }

  /** Every element of a joined list occurs in the joined string. */
  lemma {:induction false} JoinContains(sep: string, xs: seq<string>, i: nat)
    requires i < |xs| && |xs[i]| > 0
    ensures Contains(JoinWith(sep, xs), xs[i])
    decreases |xs|
  {
    if |xs| == 1 {
      ContainsMiddle("", xs[0], "");
      assert "" + xs[0] + "" == xs[0];
    } else if i == 0 {
      ContainsMiddle("", xs[0], sep + JoinWith(sep, xs[1..]));
      assert "" + xs[0] + (sep + JoinWith(sep, xs[1..])) == JoinWith(sep, xs);
    } else {
      JoinContains(sep, xs[1..], i - 1);
      ContainsWithin(xs[0] + sep, JoinWith(sep, xs[1..]), "", xs[i]);
      assert xs[0] + sep + JoinWith(sep, xs[1..]) + "" == JoinWith(sep, xs);
    }
  }

  /** `s.lstrip()`. */
  function StripLeft(s: string): (r: string)
    ensures |r| <= |s| && r == s[|s| - |r|..]
    ensures r == [] || !IsSpace(r[0])
    ensures forall i :: 0 <= i < |s| - |r| ==> IsSpace(s[i])
  {
    if s != [] && IsSpace(s[0]) then StripLeft(s[1..]) else s
  }

  /** `s.rstrip()`. */
  function StripRight(s: string): (r: string)
    ensures |r| <= |s| && r == s[..|r|]
    ensures r == [] || !IsSpace(r[|r| - 1])
    ensures forall i :: |r| <= i < |s| ==> IsSpace(s[i])
  {
    if s != [] && IsSpace(s[|s| - 1]) then StripRight(s[..|s| - 1]) else s
  }

  /** `s.strip()`. */
  function Strip(s: string): string
  {
    StripRight(StripLeft(s))
  }

  /** `s.strip()` is empty exactly when `s` is whitespace only, which is how
      Python's `if not s.strip()` tests for a blank section or line. */
  lemma StripEmpty(s: string)
    ensures Strip(s) == "" <==> IsBlank(s)
  {
    var l := StripLeft(s);
    if l != [] {
      assert !IsSpace(s[|s| - |l|]);
      assert StripRight(l) != [] by {
        assert !IsSpace(l[0]);
      }
    }
  }

  /** `s.strip()` has no whitespace at either end, so stripping twice changes
      nothing. */
  lemma StripIdempotent(s: string)
    ensures Strip(Strip(s)) == Strip(s)
  {
    var r := Strip(s);
    if r != [] {
      assert !IsSpace(r[|r| - 1]);
      assert StripRight(r) == r;
      assert r[0] == StripLeft(s)[0];
      assert StripLeft(r) == r;
    }
  }

  /** Stripping keeps any occurrence of a string that neither starts nor
      ends with whitespace. */
  lemma StripKeeps(x: string, t: string, j: nat)
    requires OccursAt(x, t, j) && |t| > 0 && !IsSpace(t[0]) && !IsSpace(t[|t| - 1])
    ensures Contains(Strip(x), t)
  {
    var l := StripLeft(x);
    StripLeftKeeps(x, t, j);
    var m := j - (|x| - |l|);
    StripRightKeeps(l, t, m);
    ContainsAt(StripRight(l), t, m);
  }

  /** `lstrip` keeps an occurrence that starts with a non-space character,
      shifted by what it removes. */
  lemma StripLeftKeeps(x: string, t: string, j: nat)
    requires OccursAt(x, t, j) && |t| > 0 && !IsSpace(t[0])
    ensures |x| - |StripLeft(x)| <= j
    ensures OccursAt(StripLeft(x), t, j - (|x| - |StripLeft(x)|))
  {
    assert x[j] == x[j..j + |t|][0];
    var l := StripLeft(x);
    var i := |x| - |l|;
    assert i <= j;
    assert l == x[i..];
    assert l[j - i..j - i + |t|] == x[j..j + |t|];
  }

  /** `rstrip` keeps an occurrence that ends with a non-space character. */
  lemma StripRightKeeps(l: string, t: string, m: nat)
    requires OccursAt(l, t, m) && |t| > 0 && !IsSpace(t[|t| - 1])
    ensures OccursAt(StripRight(l), t, m)
  {
    assert l[m + |t| - 1] == l[m..m + |t|][|t| - 1];
    var r := StripRight(l);
    assert m + |t| <= |r|;
    assert r[m..m + |t|] == l[m..m + |t|];
  }

  /** Length of the leading run of non-whitespace characters. */
  function WordLength(s: string): (n: nat)
    ensures n <= |s|
    ensures forall i :: 0 <= i < n ==> !IsSpace(s[i])
    ensures n < |s| ==> IsSpace(s[n])
  {
    if s == [] || IsSpace(s[0]) then 0 else 1 + WordLength(s[1..])
  }

  /** `s.split()`: the maximal runs of non-whitespace, in order. */
  function Words(s: string): (ws: seq<string>)
    ensures forall w | w in ws :: IsWord(w)
    decreases |s|
  {
    var t := StripLeft(s);
    if t == [] then []
    else
      var n := WordLength(t);
      [t[..n]] + Words(t[n..])
  }

  function LowerChar(c: char): char {
    if 'A' <= c <= 'Z' then (c - 'A' + 'a') as char else c
  }

  /** `s.lower()` on the ASCII letters. */
  function Lower(s: string): (r: string)
    ensures |r| == |s|
  {
    seq(|s|, i requires 0 <= i < |s| => LowerChar(s[i]))
  }

  /** Lower-casing leaves lower-cased text alone. */
  lemma LowerFixed(s: string)
    requires forall c | c in s :: LowerChar(c) == c
    ensures Lower(s) == s
  {
    forall i | 0 <= i < |s|
      ensures Lower(s)[i] == s[i]
    {
      assert s[i] in s;
    }
  }

  /** Lower-cased text has no upper-case letter left. */
  lemma LowerLower(s: string)
    ensures forall c | c in Lower(s) :: LowerChar(c) == c
  {
    forall c | c in Lower(s)
      ensures LowerChar(c) == c
    {
      var i :| 0 <= i < |s| && Lower(s)[i] == c;
    }
  }

  /** Stripping only removes characters. */
  lemma StripChars(s: string)
    ensures forall c | c in Strip(s) :: c in s
  {
    var l := StripLeft(s);
    assert forall c | c in l :: c in s;
    assert forall c | c in StripRight(l) :: c in l;
  }

  function UpperChar(c: char): char {
    if 'a' <= c <= 'z' then (c - 'a' + 'A') as char else c
  }

  predicate IsLetter(c: char) {
    'a' <= c <= 'z' || 'A' <= c <= 'Z'
  }

  /** `s.title()` on the ASCII letters: a letter that starts a run of letters
      is upper-cased, any other letter lower-cased. */
  function Title(s: string): (r: string)
    ensures |r| == |s|
  {
    seq(|s|, i requires 0 <= i < |s| => if i == 0 || !IsLetter(s[i - 1]) then UpperChar(s[i]) else LowerChar(s[i]))
  }

  /** `s.endswith(t)`. */
  predicate EndsWith(s: string, t: string) {
    |t| <= |s| && s[|s| - |t|..] == t
  }

  function Digit(d: nat): char
    requires d < 10
  {
    "0123456789"[d]
  }

  /** The decimal text of a non-negative integer, as an f-string writes it. */
  function Decimal(n: nat): (r: string)
    ensures |r| > 0
    ensures forall i :: 0 <= i < |r| ==> '0' <= r[i] <= '9'
  {
    if n < 10 then [Digit(n)] else Decimal(n / 10) + [Digit(n % 10)]
  }
}
