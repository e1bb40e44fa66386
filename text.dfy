/**
 * The few Python string primitives the backend relies on: `str.strip()`,
 * `str.splitlines()`, `sub in s` and `s.split("=", 1)`.  Whitespace and line
 * boundaries are fixed character tables (see IsSpace and IsLineBreak).
 */
module Text {

  /** The characters Python's `str.isspace()` accepts, i.e. those `str.strip()` removes. */
  predicate IsSpace(c: char)
  {
    c == ' ' || ('\t' <= c <= '\r') || ('\U{1c}' <= c <= '\U{1f}')
    || c == '\U{85}' || c == '\U{a0}' || c == '\U{1680}' || ('\U{2000}' <= c <= '\U{200a}')
    || c == '\U{2028}' || c == '\U{2029}' || c == '\U{202f}' || c == '\U{205f}' || c == '\U{3000}'
  }

  /** The line boundaries of Python's `str.splitlines()`; "\r\n" is a single boundary. */
  predicate IsLineBreak(c: char)
  {
    ('\n' <= c <= '\r') || ('\U{1c}' <= c <= '\U{1e}')
    || c == '\U{85}' || c == '\U{2028}' || c == '\U{2029}'
  }

  /** Where the whitespace run of `s` starting at `from` ends. */
  function SpaceRunEnd(s: string, from: nat): (n: nat)
    requires from <= |s|
    ensures from <= n <= |s|
    ensures forall k :: from <= k < n ==> IsSpace(s[k])
    ensures n < |s| ==> !IsSpace(s[n])
    decreases |s| - from
  {
    if from == |s| || !IsSpace(s[from]) then from else SpaceRunEnd(s, from + 1)
  }

  /** Where the whitespace run of `s` ending just before `to` starts. */
  function SpaceRunStart(s: string, to: nat): (n: nat)
    requires to <= |s|
    ensures n <= to
    ensures forall k :: n <= k < to ==> IsSpace(s[k])
    ensures 0 < n ==> !IsSpace(s[n - 1])
  {
    if to == 0 || !IsSpace(s[to - 1]) then to else SpaceRunStart(s, to - 1)
  }

  /**
   * `s.strip()`: the slice of `s` between its leading and its trailing run of
   * whitespace; it neither starts nor ends with whitespace (StripIsSlice below
   * states the rest).
   */
  function Strip(s: string): (r: string)
    ensures |r| <= |s|
    ensures r != [] ==> !IsSpace(r[0]) && !IsSpace(r[|r| - 1])
  {
    var i := SpaceRunEnd(s, 0);
    var j := SpaceRunStart(s, |s|);
    if i < j then s[i..j] else []
  }

  /**
   * The strip of `s` is a contiguous piece of `s`, and everything cut away on
   * either side is whitespace.
   */
  lemma StripIsSlice(s: string)
    ensures var r := Strip(s);
      var i := SpaceRunEnd(s, 0);
      && i + |r| <= |s| && r == s[i..i + |r|]
      && (forall k :: 0 <= k < i ==> IsSpace(s[k]))
      && (forall k :: i + |r| <= k < |s| ==> IsSpace(s[k]))
  {
  }

  /** A string with no whitespace at either end is its own strip. */
  lemma StripKeepsTrimmed(s: string)
    requires s != [] ==> !IsSpace(s[0]) && !IsSpace(s[|s| - 1])
    ensures Strip(s) == s
  {
    assert SpaceRunEnd(s, 0) == 0;
    assert SpaceRunStart(s, |s|) == |s|;
  }

  lemma StripIdempotent(s: string)
    ensures Strip(Strip(s)) == Strip(s)
  {
    StripKeepsTrimmed(Strip(s));
  }

  predicate AllSpace(s: string)
  {
    forall k :: 0 <= k < |s| ==> IsSpace(s[k])
  }

  /** Whitespace around a trimmed string is exactly what strip removes. */
  lemma StripPadded(before: string, s: string, after: string)
    requires AllSpace(before) && AllSpace(after)
    requires s != [] ==> !IsSpace(s[0]) && !IsSpace(s[|s| - 1])
    ensures Strip(before + s + after) == s
  {
    var t := before + s + after;
    assert forall k :: 0 <= k < |before| ==> t[k] == before[k];
    assert forall k :: |before| + |s| <= k < |t| ==> t[k] == after[k - |before| - |s|];
    if s == [] {
      assert SpaceRunEnd(t, 0) == |t|;
    } else {
      assert t[|before|] == s[0] && t[|before| + |s| - 1] == s[|s| - 1];
      assert SpaceRunEnd(t, 0) == |before|;
      assert SpaceRunStart(t, |t|) == |before| + |s|;
      assert t[|before|..|before| + |s|] == s;
    }
  }

  /** Index of the first line boundary in `s` at or after `from`, or `|s|` when there is none. */
  function LineEnd(s: string, from: nat): (i: nat)
    requires from <= |s|
    ensures from <= i <= |s|
    ensures i < |s| ==> IsLineBreak(s[i])
    ensures forall k :: from <= k < i ==> !IsLineBreak(s[k])
    decreases |s| - from
  {
    if from == |s| || IsLineBreak(s[from]) then from else LineEnd(s, from + 1)
  }

  /**
   * `s.splitlines()`: the pieces between line boundaries, boundaries dropped;
   * a final boundary does not open an empty last line.
   */
  function SplitLines(s: string): (lines: seq<string>)
    ensures forall j, k :: 0 <= j < |lines| && 0 <= k < |lines[j]| ==> !IsLineBreak(lines[j][k])
    ensures s == [] <==> lines == []
    decreases |s|
  {
    if s == [] then []
    else
      var i := LineEnd(s, 0);
      if i == |s| then [s]
      else
        var next := if s[i] == '\r' && i + 1 < |s| && s[i + 1] == '\n' then i + 2 else i + 1;
        [s[..i]] + SplitLines(s[next..])
  }

  /** `s` holds no line boundary. */
  predicate NoLineBreak(s: string)
  {
    forall k :: 0 <= k < |s| ==> !IsLineBreak(s[k])
  }

  /** Text without a line boundary is a single line. */
  lemma SplitLinesNoBreak(s: string)
    requires s != [] && NoLineBreak(s)
    ensures SplitLines(s) == [s]
  {
    assert LineEnd(s, 0) == |s|;
  }

  /**
   * A line followed by a one-character boundary (a `'\r'` not followed by
   * `'\n'` included) is the first line, and the text after the boundary
   * supplies the rest.
   */
  lemma SplitLinesAtBreak(a: string, b: char, c: string)
    requires NoLineBreak(a) && IsLineBreak(b)
    requires !(b == '\r' && c != [] && c[0] == '\n')
    ensures SplitLines(a + [b] + c) == [a] + SplitLines(c)
  {
    var s := a + [b] + c;
    assert forall k :: 0 <= k < |a| ==> s[k] == a[k];
    assert s[|a|] == b;
    assert LineEnd(s, 0) == |a|;
    assert s[..|a|] == a;
    assert s[|a| + 1..] == c;
  }

  /** `"\r\n"` is a single boundary: it ends one line and opens no empty one. */
  lemma SplitLinesAtCrLf(a: string, c: string)
    requires NoLineBreak(a)
    ensures SplitLines(a + "\r\n" + c) == [a] + SplitLines(c)
  {
    var s := a + "\r\n" + c;
    assert forall k :: 0 <= k < |a| ==> s[k] == a[k];
    assert s[|a|] == '\r' && s[|a| + 1] == '\n';
    assert LineEnd(s, 0) == |a|;
    assert s[..|a|] == a;
    assert s[|a| + 2..] == c;
  }

  /** `t in s` for strings: `t` occurs as a contiguous piece of `s`. */
  predicate Contains(s: string, t: string)
    decreases |s|
  {
    |t| <= |s| && (s[..|t|] == t || Contains(s[1..], t))
  }

  /** `t` occurs in `s` starting at position `i`. */
  predicate OccursAt(s: string, t: string, i: nat)
  {
    i + |t| <= |s| && s[i..i + |t|] == t
  }

  /** Dropping the first character moves every occurrence one position left. */
  lemma OccursShift(s: string, t: string, j: nat)
    requires s != []
    ensures OccursAt(s[1..], t, j) <==> OccursAt(s, t, j + 1)
  {
    if j + 1 + |t| <= |s| {
      assert s[1..][j..j + |t|] == s[j + 1..j + 1 + |t|];
    }
  }

  /** `t in s` holds exactly when `t` occurs in `s` at some position. */
  lemma {:induction false} ContainsOccurs(s: string, t: string)
    ensures Contains(s, t) <==> exists i: nat :: OccursAt(s, t, i)
    decreases |s|
  {
    if |t| > |s| {
      assert forall i: nat :: !OccursAt(s, t, i);
    } else if s[..|t|] == t {
      assert OccursAt(s, t, 0);
    } else {
      ContainsOccurs(s[1..], t);
      if exists i: nat :: OccursAt(s, t, i) {
        var i: nat :| OccursAt(s, t, i);
        assert i != 0;
        OccursShift(s, t, i - 1);
      }
      if exists j: nat :: OccursAt(s[1..], t, j) {
        var j: nat :| OccursAt(s[1..], t, j);
        OccursShift(s, t, j);
      }
    }
  }

  /** Index of the first `c` in `s` at or after `from`, or `|s|` when there is none. */
  function IndexFrom(s: string, c: char, from: nat): (i: nat)
    requires from <= |s|
    ensures from <= i <= |s|
    ensures i < |s| ==> s[i] == c
    ensures forall k :: from <= k < i ==> s[k] != c
    decreases |s| - from
  {
    if from == |s| || s[from] == c then from else IndexFrom(s, c, from + 1)
  }

  /** Index of the first `c` in `s`, or `|s|` when `c` does not occur. */
  function IndexOf(s: string, c: char): (i: nat)
    ensures i <= |s|
    ensures i < |s| <==> c in s
    ensures i < |s| ==> s[i] == c
    ensures forall k :: 0 <= k < i ==> s[k] != c
  {
    IndexFrom(s, c, 0)
  }
}
