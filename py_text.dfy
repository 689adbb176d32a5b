/**
 The three Python string operations the TLE search relies on, over
 `string` (a sequence of code points): `str.splitlines()`, `str.split(sep)`
 with a one-character separator, and the substring test `needle in hay`.
 */
module PyText {

  /** The code points `str.splitlines()` breaks at ("\r\n" is one boundary of two). */
  predicate IsLineBoundary(c: char)
  {
    || c == '\n' || c == '\r' || c == '\U{000B}' || c == '\U{000C}'
    || c == '\U{001C}' || c == '\U{001D}' || c == '\U{001E}'
    || c == '\U{0085}' || c == '\U{2028}' || c == '\U{2029}'
  }

  predicate NoLineBoundary(s: string)
  {
    forall i :: 0 <= i < |s| ==> !IsLineBoundary(s[i])
  }

  /** Index of the first line boundary in `s`, or `|s|` when there is none. */
  function FirstBoundary(s: string): (k: nat)
    ensures k <= |s|
    ensures k < |s| ==> IsLineBoundary(s[k])
    ensures forall j :: 0 <= j < k ==> !IsLineBoundary(s[j])
  {
    if |s| == 0 then 0
    else if IsLineBoundary(s[0]) then 0
    else 1 + FirstBoundary(s[1..])
  }

  /** Index of the first `sep` in `s`, or `|s|` when there is none. */
  function IndexOf(s: string, sep: char): (k: nat)
    ensures k <= |s|
    ensures k < |s| ==> s[k] == sep
    ensures sep !in s[..k]
  {
    if |s| == 0 then 0
    else if s[0] == sep then 0
    else
      var k := 1 + IndexOf(s[1..], sep);
      assert s[..k] == [s[0]] + s[1..][..k - 1];
      k
  }

  /**
   `s.splitlines()`: the pieces between line boundaries, where "\r\n"
   counts as one boundary and a boundary at the very end does not start
   another (empty) line.
   */
  function SplitLines(s: string): (lines: seq<string>)
    ensures forall i :: 0 <= i < |lines| ==> NoLineBoundary(lines[i])
    ensures |s| == 0 <==> |lines| == 0
    decreases |s|
  {
    if |s| == 0 then []
    else
      var k := FirstBoundary(s);
      if k == |s| then [s]
      else
        var width := if s[k] == '\r' && k + 1 < |s| && s[k + 1] == '\n' then 2 else 1;
        [s[..k]] + SplitLines(s[k + width..])
  }

  /** `"\n".join(lines)`. */
  function JoinLines(lines: seq<string>): string
  {
    if |lines| == 0 then ""
    else if |lines| == 1 then lines[0]
    else lines[0] + "\n" + JoinLines(lines[1..])
  }

  /**
   Joining lines with "\n" and splitting them again gives the lines back,
   provided none of them holds a boundary and the last one is not empty
   (an empty last line leaves only a trailing "\n", which splitlines drops).
   */
  lemma {:induction false} SplitLinesOfJoin(lines: seq<string>)
    requires forall i :: 0 <= i < |lines| ==> NoLineBoundary(lines[i])
    requires |lines| == 0 || lines[|lines| - 1] != ""
    ensures SplitLines(JoinLines(lines)) == lines
  {
    if |lines| == 1 {
      assert FirstBoundary(lines[0]) == |lines[0]|;
    } else if |lines| > 1 {
      var rest := JoinLines(lines[1..]);
      var s := lines[0] + "\n" + rest;
      assert JoinLines(lines) == s;
      FirstBoundaryAfter(lines[0], '\n', rest);
      assert s[..|lines[0]|] == lines[0];
      assert s[|lines[0]| + 1..] == rest;
      assert SplitLines(s) == [lines[0]] + SplitLines(rest);
      assert lines[1..][|lines| - 2] == lines[|lines| - 1];
      assert forall i :: 0 <= i < |lines| - 1 ==> lines[1..][i] == lines[i + 1];
      SplitLinesOfJoin(lines[1..]);
      assert [lines[0]] + lines[1..] == lines;
    }
  }

  /** The line ending a text file uses: "\r\n" or "\n". */
  function LineEnd(crlf: bool): string
  {
    if crlf then "\r\n" else "\n"
  }

  /** The text of a file whose every line, the last included, ends in `LineEnd(crlf)`. */
  function Terminated(lines: seq<string>, crlf: bool): string
  {
    if |lines| == 0 then ""
    else lines[0] + LineEnd(crlf) + Terminated(lines[1..], crlf)
  }

  /** Helper: a line followed by its line ending is split off as the first line. */
  lemma SplitFirst(a: string, crlf: bool, rest: string)
    requires NoLineBoundary(a)
    ensures SplitLines(a + LineEnd(crlf) + rest) == [a] + SplitLines(rest)
  {
    var term := LineEnd(crlf);
    var s := a + term + rest;
    assert s == a + [term[0]] + (term[1..] + rest);
    FirstBoundaryAfter(a, term[0], term[1..] + rest);
    assert s[..|a|] == a;
    if crlf {
      assert s[|a|] == '\r' && s[|a| + 1] == '\n';
      assert s[|a| + 2..] == rest;
    } else {
      assert s[|a|] == '\n';
      assert s[|a| + 1..] == rest;
    }
  }

  /**
   Splitting the text of a file whose lines all end in "\n", or all in
   "\r\n", gives the lines back, provided none of them holds a boundary;
   empty lines, the last one included, are kept.
   */
  lemma {:induction false} SplitLinesOfTerminated(lines: seq<string>, crlf: bool)
    requires forall i :: 0 <= i < |lines| ==> NoLineBoundary(lines[i])
    ensures SplitLines(Terminated(lines, crlf)) == lines
  {
    if |lines| > 0 {
      assert forall i :: 0 <= i < |lines| - 1 ==> lines[1..][i] == lines[i + 1];
      SplitLinesOfTerminated(lines[1..], crlf);
      SplitFirst(lines[0], crlf, Terminated(lines[1..], crlf));
      assert [lines[0]] + lines[1..] == lines;
    }
  }

  /** Helper: in `a + [c] + b` with no boundary in `a` and `c` a boundary, the first boundary is at `|a|`. */
  lemma FirstBoundaryAfter(a: string, c: char, b: string)
    requires NoLineBoundary(a) && IsLineBoundary(c)
    ensures FirstBoundary(a + [c] + b) == |a|
  {
    var s := a + [c] + b;
    var k := FirstBoundary(s);
    assert s[|a|] == c;
    assert forall j :: 0 <= j < |a| ==> s[j] == a[j];
  }

  /** `s.split(sep)` for a one-character separator: keeps empty fields, always at least one field. */
  function SplitOn(s: string, sep: char): (fields: seq<string>)
    ensures |fields| >= 1
    ensures |fields| >= 2 <==> sep in s
    ensures forall i :: 0 <= i < |fields| ==> sep !in fields[i]
    decreases |s|
  {
    var k := IndexOf(s, sep);
    if k == |s| then [s]
    else [s[..k]] + SplitOn(s[k + 1..], sep)
  }

  /** `sep.join(fields)`. */
  function JoinOn(fields: seq<string>, sep: char): string
  {
    if |fields| == 0 then ""
    else if |fields| == 1 then fields[0]
    else fields[0] + [sep] + JoinOn(fields[1..], sep)
  }

  /** Splitting at a separator loses nothing: joining the fields with it restores the text. */
  lemma {:induction false} JoinOfSplitOn(s: string, sep: char)
    ensures JoinOn(SplitOn(s, sep), sep) == s
    decreases |s|
  {
    var k := IndexOf(s, sep);
    if k < |s| {
      var tail := s[k + 1..];
      var rest := SplitOn(tail, sep);
      assert SplitOn(s, sep) == [s[..k]] + rest;
      assert ([s[..k]] + rest)[1..] == rest;
      assert JoinOn([s[..k]] + rest, sep) == s[..k] + [sep] + JoinOn(rest, sep);
      JoinOfSplitOn(tail, sep);
      assert s == s[..k] + [sep] + tail;
    } else {
      assert SplitOn(s, sep) == [s];
    }
  }

  /**
   The field after the first separator is the text strictly between the
   first and the second occurrence of the separator (or the end of `s`).
   */
  lemma SecondField(s: string, sep: char, i: nat)
    requires i < |s| && s[i] == sep && sep !in s[..i]
    ensures |SplitOn(s, sep)| >= 2
    ensures SplitOn(s, sep)[1] == s[i + 1..i + 1 + IndexOf(s[i + 1..], sep)]
  {
    var k := IndexOf(s, sep);
    assert forall j :: 0 <= j < i ==> s[j] == s[..i][j];
    assert forall j :: 0 <= j < k ==> s[j] == s[..k][j];
    assert k == i;
    var tail := s[i + 1..];
    assert SplitOn(s, sep)[1] == SplitOn(tail, sep)[0];
  }

  /** `needle` occurs in `hay` starting at index `i`. */
  predicate OccursAt(hay: string, needle: string, i: int)
  {
    0 <= i <= |hay| - |needle| && hay[i..i + |needle|] == needle
  }

  /** `needle in hay`: some window of `hay` is exactly `needle`. */
  predicate Contains(hay: string, needle: string)
  {
    exists i | 0 <= i <= |hay| - |needle| :: OccursAt(hay, needle, i)
  }

  /** Every text contains itself in context, in particular the empty text is everywhere. */
  lemma ContainsInfix(before: string, needle: string, after: string)
    ensures Contains(before + needle + after, needle)
  {
    var hay := before + needle + after;
    assert OccursAt(hay, needle, |before|);
  }
}
