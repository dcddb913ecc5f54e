/**
 * The few Python string operations the product-display path relies on:
 * `str.strip()`, `str.lstrip(c)` and `str.split(sep)`, over strings as
 * sequences of code points.
 */
module Text {

  datatype Option<+T> = None | Some(value: T)

  /** The code points for which Python's `str.isspace()` holds; `str.strip()`
      with no argument removes exactly these from both ends. */
  predicate IsWhitespace(c: char)
  {
    || c == ' '
    || '\t' <= c <= '\r'
    || '\U{001C}' <= c <= '\U{001F}'
    || c == '\U{0085}' || c == '\U{00A0}' || c == '\U{1680}'
    || '\U{2000}' <= c <= '\U{200A}'
    || c == '\U{2028}' || c == '\U{2029}' || c == '\U{202F}' || c == '\U{205F}' || c == '\U{3000}'
  }

  /** The byte-order mark, U+FEFF. Python does not count it as whitespace. */
  const Bom: char := '\U{FEFF}'

  /** The index of the first character of `s` at or after `from` that is
      not whitespace, or `|s|` when there is none. */
  function SkipWhitespace(s: string, from: nat): (n: nat)
    requires from <= |s|
    ensures from <= n <= |s|
    ensures forall i :: from <= i < n ==> IsWhitespace(s[i])
    ensures n == |s| || !IsWhitespace(s[n])
    decreases |s| - from
  {
    if from == |s| || !IsWhitespace(s[from]) then from else SkipWhitespace(s, from + 1)
  }

  /** The index just after the last character of `s` before `upTo` that is
      not whitespace, or `downTo` when `s[downTo..upTo]` is all whitespace. */
  function SkipWhitespaceBack(s: string, downTo: nat, upTo: nat): (n: nat)
    requires downTo <= upTo <= |s|
    ensures downTo <= n <= upTo
    ensures forall i :: n <= i < upTo ==> IsWhitespace(s[i])
    ensures n == downTo || !IsWhitespace(s[n - 1])
    decreases upTo
  {
    if upTo == downTo || !IsWhitespace(s[upTo - 1]) then upTo else SkipWhitespaceBack(s, downTo, upTo - 1)
  }

  /** The number of leading copies of `c` in `s`. */
  function CountLeading(s: string, c: char, from: nat): (n: nat)
    requires from <= |s|
    ensures from <= n <= |s|
    ensures forall i :: from <= i < n ==> s[i] == c
    ensures n == |s| || s[n] != c
    decreases |s| - from
  {
    if from == |s| || s[from] != c then from else CountLeading(s, c, from + 1)
  }

  /** `s.lstrip(c)` for a single character `c`: drops every leading `c`. */
  function LStripChar(s: string, c: char): (r: string)
    ensures |r| <= |s| && r == s[|s| - |r|..]
    ensures forall i :: 0 <= i < |s| - |r| ==> s[i] == c
    ensures r == [] || r[0] != c
  {
    s[CountLeading(s, c, 0)..]
  }

  /** `r` is the part of `s` from index `a` on that remains once whitespace is
      cut from both ends: everything cut is whitespace and `r` neither starts
      nor ends with whitespace. */
  ghost predicate TrimmedAt(s: string, r: string, a: int)
  {
    && 0 <= a && a + |r| <= |s|
    && r == s[a..a + |r|]
    && (forall i :: 0 <= i < a ==> IsWhitespace(s[i]))
    && (forall i :: a + |r| <= i < |s| ==> IsWhitespace(s[i]))
    && (r == [] || (!IsWhitespace(r[0]) && !IsWhitespace(r[|r| - 1])))
  }

  /** `s.strip()`: the leading whitespace is cut first, then the trailing. */
  function Strip(s: string): (r: string)
    ensures TrimmedAt(s, r, SkipWhitespace(s, 0))
  {
    var a := SkipWhitespace(s, 0);
    s[a..SkipWhitespaceBack(s, a, |s|)]
  }

  /** Stripping keeps every character that is not whitespace, in place. */
  lemma StripKeeps(s: string, i: int)
    requires 0 <= i < |s| && !IsWhitespace(s[i])
    ensures var a := SkipWhitespace(s, 0);
            a <= i < a + |Strip(s)| && Strip(s)[i - a] == s[i]
  {
  }

  /** A string whose stripped form is empty is whitespace throughout. */
  lemma StripEmpty(s: string)
    ensures Strip(s) == [] <==> forall i :: 0 <= i < |s| ==> IsWhitespace(s[i])
  {
  }

  /** A string that neither starts nor ends with whitespace is its own strip. */
  lemma StripUnchanged(s: string)
    requires s == [] || (!IsWhitespace(s[0]) && !IsWhitespace(s[|s| - 1]))
    ensures Strip(s) == s
  {
    assert SkipWhitespace(s, 0) == 0;
    assert SkipWhitespaceBack(s, 0, |s|) == |s|;
  }

  lemma AppendAssociates<T>(a: seq<T>, b: seq<T>, c: seq<T>)
    ensures (a + b) + c == a + (b + c)
  {
  }

  lemma DropLastOfConcat<T>(a: seq<T>, b: seq<T>)
    requires |b| > 0
    ensures (a + b)[..|a + b| - 1] == a + b[..|b| - 1]
    ensures (a + b)[|a + b| - 1] == b[|b| - 1]
  {
  }

  /** `s.split(sep)` for a one-character separator: the pieces between the
      separators, always at least one. */
  function Split(s: string, sep: char): (r: seq<string>)
    ensures |r| >= 1
    ensures forall i :: 0 <= i < |r| ==> sep !in r[i]
    decreases |s|
  {
    if |s| == 0 then [""]
    else
      var rest := Split(s[1..], sep);
      if s[0] == sep then [""] + rest
      else [[s[0]] + rest[0]] + rest[1..]
  }

  /** `sep.join(parts)`. */
  function Join(parts: seq<string>, sep: char): (joined: string)
    requires |parts| >= 1
  {
    if |parts| == 1 then parts[0] else parts[0] + [sep] + Join(parts[1..], sep)
  }

  /** Joining the pieces of a split gives the original string back. */
  lemma {:induction false} JoinSplit(s: string, sep: char)
    ensures Join(Split(s, sep), sep) == s
    decreases |s|
  {
    if |s| > 0 {
      var rest := Split(s[1..], sep);
      JoinSplit(s[1..], sep);
      if s[0] == sep {
        assert s == [sep] + s[1..];
      } else if |rest| == 1 {
        assert s == [s[0]] + s[1..];
      } else {
        assert Join(rest, sep) == rest[0] + [sep] + Join(rest[1..], sep);
        assert s == [s[0]] + s[1..];
      }
    }
  }

  lemma {:induction false} SplitWithoutSep(s: string, sep: char)
    requires sep !in s
    ensures Split(s, sep) == [s]
    decreases |s|
  {
    if |s| > 0 {
      SplitWithoutSep(s[1..], sep);
      assert s == [s[0]] + s[1..];
    }
  }

  lemma {:induction false} SplitAfterPiece(p: string, sep: char, t: string)
    requires sep !in p
    ensures Split(p + [sep] + t, sep) == [p] + Split(t, sep)
    decreases |p|
  {
    var s := p + [sep] + t;
    if |p| == 0 {
      assert s[1..] == t;
    } else {
      assert s[1..] == p[1..] + [sep] + t;
      SplitAfterPiece(p[1..], sep, t);
      assert [p[0]] + p[1..] == p;
    }
  }

  /** Splitting a join of separator-free pieces gives the pieces back. */
  lemma {:induction false} SplitJoin(parts: seq<string>, sep: char)
    requires |parts| >= 1
    requires forall i :: 0 <= i < |parts| ==> sep !in parts[i]
    ensures Split(Join(parts, sep), sep) == parts
    decreases |parts|
  {
    if |parts| == 1 {
      SplitWithoutSep(parts[0], sep);
    } else {
      SplitJoin(parts[1..], sep);
      SplitAfterPiece(parts[0], sep, Join(parts[1..], sep));
      assert [parts[0]] + parts[1..] == parts;
    }
  }
}
