/** String helpers shared by the three services: substring tests (C `strstr`,
    Python `in`), Python's `str.strip`, `str.splitlines` and `str.split(sep, 1)`. */
module Text {

  datatype Option<T> = None | Some(value: T)

  /** `pat` occurs in `s` at index `i`. */
  ghost predicate OccursAt(s: string, pat: string, i: int)
  {
    0 <= i && i + |pat| <= |s| && s[i..i + |pat|] == pat
  }

  predicate StartsWith(s: string, prefix: string)
  {
    |prefix| <= |s| && s[..|prefix|] == prefix
  }

  /** Substring test, scanning start positions left to right as `strstr` does;
      it holds exactly when the pattern occurs at some index. */
  predicate Contains(s: string, pat: string)
    ensures Contains(s, pat) <==> exists i :: OccursAt(s, pat, i)
    decreases |s|
  {
    ShiftOccurrences(s, pat);
    StartsWith(s, pat) || (s != [] && Contains(s[1..], pat))
  }

  /** Occurrences in `s[1..]` are the occurrences in `s` after index 0. */
  lemma ShiftOccurrences(s: string, pat: string)
    ensures StartsWith(s, pat) <==> OccursAt(s, pat, 0)
    ensures s == [] ==> forall i :: OccursAt(s, pat, i) ==> i == 0
    ensures s != [] ==> forall i :: 1 <= i ==> (OccursAt(s, pat, i) <==> OccursAt(s[1..], pat, i - 1))
    ensures s != [] ==> forall j :: OccursAt(s[1..], pat, j) ==> OccursAt(s, pat, j + 1)
  {
    if s != [] {
      forall i | 1 <= i
        ensures OccursAt(s, pat, i) <==> OccursAt(s[1..], pat, i - 1)
      {
        if i + |pat| <= |s| {
          var a, b := s[1..][i - 1..i - 1 + |pat|], s[i..i + |pat|];
          assert forall k :: 0 <= k < |pat| ==> a[k] == b[k];
        }
      }
      forall j | OccursAt(s[1..], pat, j)
        ensures OccursAt(s, pat, j + 1)
      {
        assert OccursAt(s[1..], pat, (j + 1) - 1);
      }
    }
  }

  /** The characters Python's argument-less `str.strip` removes (`str.isspace`). */
  predicate IsSpace(c: char)
  {
    c == ' ' || ('\t' <= c <= '\r') || ('\U{1c}' <= c <= '\U{1f}') || c == '\U{85}' || c == '\U{a0}'
    || c == '\U{1680}' || ('\U{2000}' <= c <= '\U{200a}') || c == '\U{2028}' || c == '\U{2029}'
    || c == '\U{202f}' || c == '\U{205f}' || c == '\U{3000}'
  }

  /** The characters of `strip('"\'')`. */
  predicate IsQuote(c: char)
  {
    c == '"' || c == '\''
  }

  /** Drops leading characters satisfying `drop`. */
  function TrimStart(s: string, drop: char -> bool): string
    decreases |s|
  {
    if s != [] && drop(s[0]) then TrimStart(s[1..], drop) else s
  }

  /** Drops trailing characters satisfying `drop`. */
  function TrimEnd(s: string, drop: char -> bool): string
    decreases |s|
  {
    if s != [] && drop(s[|s| - 1]) then TrimEnd(s[..|s| - 1], drop) else s
  }

  /** `TrimStart` leaves a suffix whose first character is kept, after a prefix
      of dropped characters. */
  lemma {:induction false} TrimStartSuffix(s: string, drop: char -> bool)
    ensures var r := TrimStart(s, drop);
      |r| <= |s| && r == s[|s| - |r|..] && (r == [] || !drop(r[0])) &&
      forall i :: 0 <= i < |s| - |r| ==> drop(s[i])
    decreases |s|
  {
    if s != [] && drop(s[0]) {
      TrimStartSuffix(s[1..], drop);
    }
  }

  /** `TrimEnd` leaves a prefix whose last character is kept, before a suffix
      of dropped characters. */
  lemma {:induction false} TrimEndPrefix(s: string, drop: char -> bool)
    ensures var r := TrimEnd(s, drop);
      |r| <= |s| && r == s[..|r|] && (r == [] || !drop(r[|r| - 1])) &&
      forall i :: |r| <= i < |s| ==> drop(s[i])
    decreases |s|
  {
    if s != [] && drop(s[|s| - 1]) {
      TrimEndPrefix(s[..|s| - 1], drop);
    }
  }

  /** Python's `s.strip(chars)` where `drop` says which characters are in `chars`:
      neither end of the result is droppable. */
  function StripBy(s: string, drop: char -> bool): (r: string)
    ensures |r| <= |s|
    ensures r == [] || (!drop(r[0]) && !drop(r[|r| - 1]))
  {
    var t := TrimStart(s, drop);
    TrimStartSuffix(s, drop);
    TrimEndPrefix(t, drop);
    TrimEnd(t, drop)
  }

  /** The stripped text is the slice `s[lo..hi]`, and every character outside
      that slice is droppable. */
  lemma StripBySlice(s: string, drop: char -> bool) returns (lo: nat, hi: nat)
    ensures lo <= hi <= |s| && StripBy(s, drop) == s[lo..hi]
    ensures forall i :: 0 <= i < lo ==> drop(s[i])
    ensures forall i :: hi <= i < |s| ==> drop(s[i])
  {
    var t := TrimStart(s, drop);
    var r := TrimEnd(t, drop);
    TrimStartSuffix(s, drop);
    TrimEndPrefix(t, drop);
    lo := |s| - |t|;
    hi := lo + |r|;
    assert r == s[lo..hi];
    assert forall i :: hi <= i < |s| ==> s[i] == t[i - lo];
  }

  /** Stripping leaves nothing exactly when every character is droppable. */
  lemma StripByEmptyIff(s: string, drop: char -> bool)
    ensures StripBy(s, drop) == [] <==> forall i :: 0 <= i < |s| ==> drop(s[i])
  {
    var lo, hi := StripBySlice(s, drop);
    if StripBy(s, drop) == [] {
      assert lo == hi;
    } else {
      assert s[lo] == StripBy(s, drop)[0];
    }
  }

  /** A text whose ends are not droppable is left as it is. */
  lemma StripByUnchanged(s: string, drop: char -> bool)
    requires s == [] || (!drop(s[0]) && !drop(s[|s| - 1]))
    ensures StripBy(s, drop) == s
  {
    assert TrimStart(s, drop) == s;
  }

  /** Stripping removes one droppable character `c` on each side of a text whose
      own ends are not droppable, and nothing else. */
  lemma StripByEnclosed(v: string, c: char, drop: char -> bool)
    requires drop(c)
    requires v == [] || (!drop(v[0]) && !drop(v[|v| - 1]))
    ensures StripBy([c] + v + [c], drop) == v
  {
    var w := v + [c];
    TrimStartOne(c, w, drop);
    assert [c] + v + [c] == [c] + w;
    if v == [] {
      TrimStartOne(c, [], drop);
      assert w == [c] + [];
    } else {
      assert w[0] == v[0];
      TrimEndOne(v, c, drop);
    }
  }

  lemma TrimStartOne(c: char, w: string, drop: char -> bool)
    requires drop(c)
    ensures TrimStart([c] + w, drop) == TrimStart(w, drop)
  {
    assert ([c] + w)[1..] == w;
  }

  lemma TrimEndOne(v: string, c: char, drop: char -> bool)
    requires drop(c) && v != [] && !drop(v[0]) && !drop(v[|v| - 1])
    ensures TrimStart(v + [c], drop) == v + [c]
    ensures TrimEnd(v + [c], drop) == v
  {
    assert (v + [c])[0] == v[0];
    assert (v + [c])[..|v|] == v;
  }

  /** An occurrence of a pattern whose end characters are not stripped survives
      stripping, so stripping never changes a substring test for such a pattern. */
  lemma StripKeepsContains(s: string, pat: string, drop: char -> bool)
    requires pat != [] && !drop(pat[0]) && !drop(pat[|pat| - 1])
    ensures Contains(StripBy(s, drop), pat) <==> Contains(s, pat)
  {
    var r := StripBy(s, drop);
    var lo, hi := StripBySlice(s, drop);
    if Contains(s, pat) {
      var i :| OccursAt(s, pat, i);
      OccurrenceInside(s, pat, drop, lo, hi, i);
    }
    if Contains(r, pat) {
      var i :| OccursAt(r, pat, i);
      OccurrenceOutside(s, pat, lo, hi, i);
    }
  }

  lemma OccurrenceInside(s: string, pat: string, drop: char -> bool, lo: int, hi: int, i: int)
    requires pat != [] && !drop(pat[0]) && !drop(pat[|pat| - 1])
    requires 0 <= lo <= hi <= |s|
    requires forall k :: 0 <= k < lo ==> drop(s[k])
    requires forall k :: hi <= k < |s| ==> drop(s[k])
    requires OccursAt(s, pat, i)
    ensures lo <= i && OccursAt(s[lo..hi], pat, i - lo)
  {
    assert s[i..i + |pat|][0] == pat[0];
    assert s[i..i + |pat|][|pat| - 1] == pat[|pat| - 1];
    assert !drop(s[i]) && !drop(s[i + |pat| - 1]);
    assert lo <= i && i + |pat| <= hi;
    var t := s[lo..hi];
    var a, b := t[i - lo..i - lo + |pat|], s[i..i + |pat|];
    assert forall k :: 0 <= k < |pat| ==> a[k] == b[k];
    assert a == b;
  }

  lemma OccurrenceOutside(s: string, pat: string, lo: int, hi: int, i: int)
    requires 0 <= lo <= hi <= |s|
    requires OccursAt(s[lo..hi], pat, i)
    ensures OccursAt(s, pat, lo + i)
  {
    var a, b := s[lo..hi][i..i + |pat|], s[lo + i..lo + i + |pat|];
    assert forall k :: 0 <= k < |pat| ==> a[k] == b[k];
    assert a == b;
  }

  /** Python's `str.strip()`: nothing is left exactly when the text is all whitespace. */
  function Strip(s: string): (r: string)
    ensures r == [] <==> forall i :: 0 <= i < |s| ==> IsSpace(s[i])
  {
    StripByEmptyIff(s, IsSpace);
    StripBy(s, IsSpace)
  }

  /** The line boundaries of Python's `str.splitlines`. */
  predicate IsLineBreak(c: char)
  {
    ('\n' <= c <= '\r') || ('\U{1c}' <= c <= '\U{1e}') || c == '\U{85}' || c == '\U{2028}' || c == '\U{2029}'
  }

  /** Index of the first line boundary, or `|s|` when there is none. */
  function FirstBreak(s: string): (k: nat)
    ensures k <= |s| && (k < |s| ==> IsLineBreak(s[k]))
    ensures forall i :: 0 <= i < k ==> !IsLineBreak(s[i])
    decreases |s|
  {
    if s == [] then 0
    else if IsLineBreak(s[0]) then 0
    else 1 + FirstBreak(s[1..])
  }

  ghost predicate NoBreaks(line: string)
  {
    forall j :: 0 <= j < |line| ==> !IsLineBreak(line[j])
  }

  /** Python's `str.splitlines()`: "\r\n" is one boundary, a final boundary
      does not start an empty line, and no line holds a boundary character. */
  function SplitLines(s: string): (lines: seq<string>)
    ensures s == [] <==> lines == []
    ensures forall i :: 0 <= i < |lines| ==> NoBreaks(lines[i])
    decreases |s|
  {
    if s == [] then []
    else
      var k := FirstBreak(s);
      if k == |s| then [s]
      else
        var width := if s[k] == '\r' && k + 1 < |s| && s[k + 1] == '\n' then 2 else 1;
        [s[..k]] + SplitLines(s[k + width..])
  }

  /** Lines joined back with "\n" after each one. */
  function JoinLines(lines: seq<string>): string
  {
    if lines == [] then "" else lines[0] + "\n" + JoinLines(lines[1..])
  }

  /** Splitting undoes joining whenever no line holds a boundary character. */
  lemma {:induction false} SplitJoinRoundTrip(lines: seq<string>)
    requires forall i :: 0 <= i < |lines| ==> NoBreaks(lines[i])
    ensures SplitLines(JoinLines(lines)) == lines
  {
    if lines != [] {
      var s := JoinLines(lines);
      var rest := JoinLines(lines[1..]);
      assert s == lines[0] + ("\n" + rest);
      assert s[|lines[0]|] == '\n';
      FirstBreakOf(lines[0], "\n" + rest);
      assert s[|lines[0]| + 1..] == rest;
      assert s[..|lines[0]|] == lines[0];
      SplitJoinRoundTrip(lines[1..]);
    }
  }

  /** Splitting undoes Python's `"\n".join(lines)` whenever no line holds a
      boundary character and the last line is not empty; this is the shape of a
      stripped, multi-line command output. */
  lemma {:induction false} SplitJoinedRoundTrip(lines: seq<string>)
    requires lines != [] && lines[|lines| - 1] != []
    requires forall i :: 0 <= i < |lines| ==> NoBreaks(lines[i])
    ensures SplitLines(JoinLines(lines[..|lines| - 1]) + lines[|lines| - 1]) == lines
    decreases |lines|
  {
    var last := lines[|lines| - 1];
    if |lines| == 1 {
      assert JoinLines(lines[..0]) + last == last;
      assert FirstBreak(last) == |last|;
    } else {
      var tail := lines[1..];
      var rest := JoinLines(tail[..|tail| - 1]) + last;
      JoinedInitCons(lines);
      SplitFirstLine(lines[0], rest);
      assert tail[|tail| - 1] == last;
      SplitJoinedRoundTrip(tail);
      assert [lines[0]] + tail == lines;
    }
  }

  /** Joining all lines but the last starts with the first line and "\n". */
  lemma JoinedInitCons(lines: seq<string>)
    requires |lines| >= 2
    ensures JoinLines(lines[..|lines| - 1]) + lines[|lines| - 1] ==
            lines[0] + ("\n" + (JoinLines(lines[1..][..|lines| - 2]) + lines[|lines| - 1]))
  {
    assert lines[..|lines| - 1][1..] == lines[1..][..|lines| - 2];
  }

  /** A first line ended by "\n" splits off on its own. */
  lemma SplitFirstLine(a: string, rest: string)
    requires NoBreaks(a)
    ensures SplitLines(a + ("\n" + rest)) == [a] + SplitLines(rest)
  {
    var s := a + ("\n" + rest);
    FirstBreakOf(a, "\n" + rest);
    assert s[|a|] == '\n';
    assert s[|a| + 1..] == rest;
    assert s[..|a|] == a;
  }

  /** The first boundary of `a + b` is at `|a|` when `a` has none and `b` starts with one. */
  lemma {:induction false} FirstBreakOf(a: string, b: string)
    requires NoBreaks(a) && b != [] && IsLineBreak(b[0])
    ensures FirstBreak(a + b) == |a|
    decreases |a|
  {
    if a != [] {
      assert (a + b)[1..] == a[1..] + b;
      FirstBreakOf(a[1..], b);
    }
  }

  /** The text after the first separator is everything after it. */
  lemma {:induction false} AfterFirstOf(a: string, b: string, sep: char)
    requires sep !in a
    ensures AfterFirst(a + [sep] + b, sep) == Some(b)
    decreases |a|
  {
    if a != [] {
      assert (a + [sep] + b)[1..] == a[1..] + [sep] + b;
      AfterFirstOf(a[1..], b, sep);
    } else {
      assert a + [sep] + b == [sep] + b;
    }
  }

  /** Python's `s.split(sep, 1)[1]`: the text after the first `sep`; `None`
      stands for the `IndexError` raised when `sep` does not occur. */
  function AfterFirst(s: string, sep: char): (r: Option<string>)
    ensures r.None? <==> sep !in s
    ensures r.Some? ==> exists i :: 0 <= i < |s| && s[i] == sep && sep !in s[..i] && r.value == s[i + 1..]
    decreases |s|
  {
    if s == [] then None
    else if s[0] == sep then
      assert s[..0] == [];
      Some(s[1..])
    else
      var r := AfterFirst(s[1..], sep);
      assert s == [s[0]] + s[1..];
      if r.Some? then
        var i :| 0 <= i < |s[1..]| && s[1..][i] == sep && sep !in s[1..][..i] && r.value == s[1..][i + 1..];
        assert s[..i + 1] == [s[0]] + s[1..][..i];
        r
      else r
  }
}
