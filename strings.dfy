/**
 * The Python string operations that cmtprinter's core relies on, written out
 * as functions over `seq<char>`: `str.startswith`, `" " * n`, `s * n`,
 * left-justified `format` padding, `str.split(sep)`, `sep.join`,
 * `str.splitlines()` and `str.strip()`.
 */
module Strings {

  /** `s.startswith(p)` */
  predicate StartsWith(s: string, p: string) {
    |p| <= |s| && s[..|p|] == p
  }

  /** `" " * n` */
  function Spaces(n: nat): (r: string)
    ensures |r| == n
    ensures forall k :: 0 <= k < n ==> r[k] == ' '
  {
    if n == 0 then "" else Spaces(n - 1) + " "
  }

  /** `s * n`: the string `s` repeated `n` times. */
  function Repeat(s: string, n: nat): string {
    if n == 0 then "" else s + Repeat(s, n - 1)
  }

  /** `s * n` is `n` times as long as `s`. */
  lemma {:induction false} RepeatLength(s: string, n: nat)
    ensures |Repeat(s, n)| == |s| * n
  {
    if n > 0 {
      RepeatLength(s, n - 1);
      assert |s| * n == |s| + |s| * (n - 1);
    }
  }

  /** `f"{s:<width}"` for a string: left-justified, padded with spaces to at least `width`. */
  function PadRight(s: string, width: nat): (r: string)
    ensures |r| == if |s| < width then width else |s|
    ensures r[..|s|] == s
    ensures forall k :: |s| <= k < |r| ==> r[k] == ' '
  {
    if |s| < width then s + Spaces(width - |s|) else s
  }

  // ---------------------------------------------------------------------------
  // str.split(sep) and sep.join(parts)
  // ---------------------------------------------------------------------------

  /** `s.split(sep)` for a one-character separator: never empty, and empty segments are kept. */
  function Split(s: string, sep: char): (parts: seq<string>)
    ensures |parts| >= 1
    ensures forall k :: 0 <= k < |parts| ==> sep !in parts[k]
  {
    if s == [] then [""]
    else
      var rest := Split(s[1..], sep);
      if s[0] == sep then [""] + rest
      else [[s[0]] + rest[0]] + rest[1..]
  }

  /** `sep.join(parts)` */
  function Join(parts: seq<string>, sep: char): string {
    if |parts| == 0 then ""
    else if |parts| == 1 then parts[0]
    else parts[0] + [sep] + Join(parts[1..], sep)
  }

  /** Joining one more part adds a separator and the part at the end. */
  lemma {:induction false} JoinSnoc(parts: seq<string>, last: string, sep: char)
    requires parts != []
    ensures Join(parts + [last], sep) == Join(parts, sep) + [sep] + last
  {
    if |parts| == 1 {
      assert Join(parts + [last], sep) == parts[0] + [sep] + Join([last], sep);
    } else {
      JoinSnoc(parts[1..], last, sep);
      assert (parts + [last])[1..] == parts[1..] + [last];
    }
  }

  /** A join ends with the last character of its last part when that part is non-empty. */
  lemma JoinLastChar(parts: seq<string>, sep: char)
    requires parts != [] && parts[|parts| - 1] != ""
    ensures var text := Join(parts, sep); var last := parts[|parts| - 1];
      text != "" && text[|text| - 1] == last[|last| - 1]
  {
    var init, last := parts[..|parts| - 1], parts[|parts| - 1];
    if init != [] {
      JoinSnoc(init, last, sep);
      assert parts == init + [last];
    }
  }

  /** Joining the segments of a split gives back the original string. */
  lemma {:induction false} JoinSplit(s: string, sep: char)
    ensures Join(Split(s, sep), sep) == s
  {
    if s != [] {
      var rest := Split(s[1..], sep);
      JoinSplit(s[1..], sep);
      if s[0] == sep {
        assert Join([""] + rest, sep) == "" + [sep] + Join(rest, sep);
      } else if |rest| == 1 {
        assert Split(s, sep) == [[s[0]] + rest[0]];
      } else {
        var parts := Split(s, sep);
        assert parts[1..] == rest[1..];
        assert Join(rest, sep) == rest[0] + [sep] + Join(rest[1..], sep);
        assert s == [s[0]] + s[1..];
      }
    }
  }

  /** A string without the separator is a single segment. */
  lemma {:induction false} SplitNoSep(s: string, sep: char)
    requires sep !in s
    ensures Split(s, sep) == [s]
  {
    if s != [] {
      assert sep !in s[1..];
      SplitNoSep(s[1..], sep);
      assert s == [s[0]] + s[1..];
    }
  }

  /** A separator between `a` and `b` divides the segments of `a` from those of `b`. */
  lemma {:induction false} SplitAround(a: string, b: string, sep: char)
    ensures Split(a + [sep] + b, sep) == Split(a, sep) + Split(b, sep)
  {
    if a == [] {
      assert a + [sep] + b == [sep] + b;
      assert ([sep] + b)[1..] == b;
    } else {
      var s := a + [sep] + b;
      assert s[0] == a[0];
      assert s[1..] == a[1..] + [sep] + b;
      SplitAround(a[1..], b, sep);
    }
  }

  /** Splitting a join of separator-free parts gives back the parts. */
  lemma {:induction false} SplitJoin(parts: seq<string>, sep: char)
    requires |parts| >= 1
    requires forall k :: 0 <= k < |parts| ==> sep !in parts[k]
    ensures Split(Join(parts, sep), sep) == parts
  {
    if |parts| == 1 {
      SplitNoSep(parts[0], sep);
    } else {
      SplitJoin(parts[1..], sep);
      SplitNoSep(parts[0], sep);
      SplitAround(parts[0], Join(parts[1..], sep), sep);
      assert parts == [parts[0]] + parts[1..];
    }
  }

  // ---------------------------------------------------------------------------
  // str.splitlines()
  // ---------------------------------------------------------------------------

  /** The characters at which Python's `str.splitlines` ends a line. */
  predicate IsLineBoundary(c: char)
    ensures c == '\n' || c == '\r' ==> IsLineBoundary(c)
    ensures IsLineBoundary(c) ==> c != ' ' && c != '\t'
  {
    c == '\n' || c == '\r' || c == '\U{0B}' || c == '\U{0C}' || c == '\U{1C}' || c == '\U{1D}' ||
    c == '\U{1E}' || c == '\U{85}' || c == '\U{2028}' || c == '\U{2029}'
  }

  predicate NoLineBoundary(s: string) {
    forall k :: 0 <= k < |s| ==> !IsLineBoundary(s[k])
  }

  /** Index of the first line boundary in `s`, or `|s|` when there is none. */
  function FirstBoundary(s: string): (i: nat)
    ensures i <= |s|
    ensures forall k :: 0 <= k < i ==> !IsLineBoundary(s[k])
    ensures i < |s| ==> IsLineBoundary(s[i])
  {
    if s == [] || IsLineBoundary(s[0]) then 0 else 1 + FirstBoundary(s[1..])
  }

  /**
   * `s.splitlines()`: the lines of `s` without their boundaries, `"\r\n"` being
   * one boundary; a final boundary does not open an empty last line.
   */
  function SplitLines(s: string): (lines: seq<string>)
    ensures forall k :: 0 <= k < |lines| ==> NoLineBoundary(lines[k])
    ensures s == [] <==> lines == []
    decreases |s|
  {
    if s == [] then []
    else
      var i := FirstBoundary(s);
      if i == |s| then [s]
      else
        [s[..i]] + SplitLines(s[i + BoundaryLength(s, i)..])
  }

  /** The length of the line boundary at `i`: two for `"\r\n"`, one for any other. */
  function BoundaryLength(s: string, i: nat): (n: nat)
    requires i < |s|
    ensures 1 <= n && i + n <= |s|
    ensures n == 2 <==> s[i] == '\r' && i + 1 < |s| && s[i + 1] == '\n'
  {
    if s[i] == '\r' && i + 1 < |s| && s[i + 1] == '\n' then 2 else 1
  }

  /** Lines that are non-empty and free of boundaries survive a `"\n".join` followed by `splitlines`. */
  lemma {:induction false} SplitLinesJoin(lines: seq<string>)
    requires forall k :: 0 <= k < |lines| ==> lines[k] != "" && NoLineBoundary(lines[k])
    ensures SplitLines(Join(lines, '\n')) == lines
  {
    if |lines| == 1 {
      assert FirstBoundary(lines[0]) == |lines[0]|;
    } else if |lines| > 1 {
      var head, tail := lines[0], Join(lines[1..], '\n');
      var s := head + ['\n'] + tail;
      SplitLinesJoin(lines[1..]);
      assert FirstBoundary(s) == |head| by {
        assert forall k :: 0 <= k < |head| ==> s[k] == head[k];
        assert IsLineBoundary(s[|head|]);
      }
      SplitLinesStep(s, |head|);
      assert s[..|head|] == head;
      assert s[|head| + 1..] == tail;
      assert lines == [head] + lines[1..];
    }
  }

  /** Every line boundary in `s` is a `"\n"`. */
  predicate NewlineBreaksOnly(s: string) {
    forall k :: 0 <= k < |s| && IsLineBoundary(s[k]) ==> s[k] == '\n'
  }

  /**
   * `splitlines` undone: when every line boundary in `s` is `"\n"`, joining the
   * lines with `"\n"` gives back `s`, but for a final `"\n"`, which opens no line.
   */
  lemma {:induction false} JoinSplitLines(s: string)
    requires NewlineBreaksOnly(s)
    ensures Join(SplitLines(s), '\n') + (if s != [] && s[|s| - 1] == '\n' then "\n" else "") == s
    decreases |s|
  {
    if s != [] {
      var i := FirstBoundary(s);
      if i == |s| {
        JoinSplitLinesOne(s);
      } else {
        NewlineBreaksOnlySuffix(s, i + 1);
        JoinSplitLines(s[i + 1..]);
        assert s[i] == '\n';
        JoinSplitLinesCons(s, i);
      }
    }
  }

  /** Text without a boundary is one line. */
  lemma JoinSplitLinesOne(s: string)
    requires s != [] && FirstBoundary(s) == |s|
    ensures Join(SplitLines(s), '\n') + (if s != [] && s[|s| - 1] == '\n' then "\n" else "") == s
  {
    SplitLinesWhole(s);
    assert !IsLineBoundary(s[|s| - 1]);
  }

  /** The step of `JoinSplitLines`: the first line, its `"\n"`, and the text after it. */
  lemma JoinSplitLinesCons(s: string, i: nat)
    requires i == FirstBoundary(s) && i < |s| && s[i] == '\n'
    requires var rest := s[i + 1..];
      Join(SplitLines(rest), '\n') + (if rest != [] && rest[|rest| - 1] == '\n' then "\n" else "") == rest
    ensures Join(SplitLines(s), '\n') + (if s != [] && s[|s| - 1] == '\n' then "\n" else "") == s
  {
    SplitLinesStep(s, i);
    Around(s, i);
    JoinRejoin(s[..i], s[i + 1..], SplitLines(s[i + 1..]));
  }

  /** Joining one more line in front of a rejoined text rejoins the longer text. */
  lemma JoinRejoin(head: string, rest: string, lines: seq<string>)
    requires rest == [] <==> lines == []
    requires Join(lines, '\n') + (if rest != [] && rest[|rest| - 1] == '\n' then "\n" else "") == rest
    ensures var s := head + "\n" + rest;
      Join([head] + lines, '\n') + (if s[|s| - 1] == '\n' then "\n" else "") == s
  {
    var s := head + "\n" + rest;
    if rest != [] {
      assert s[|s| - 1] == rest[|rest| - 1];
      JoinCons(head, lines, '\n');
    }
  }

  /** `s` is what comes before index `i`, the character there, and what comes after it. */
  lemma Around(s: string, i: nat)
    requires i < |s|
    ensures s == s[..i] + [s[i]] + s[i + 1..]
  {
  }

  /** A first line ended by a one-character boundary is followed by the lines after that character. */
  lemma SplitLinesStep(s: string, i: nat)
    requires i == FirstBoundary(s) && i < |s| && s[i] != '\r'
    ensures SplitLines(s) == [s[..i]] + SplitLines(s[i + 1..])
  {
    assert BoundaryLength(s, i) == 1;
  }

  /** Non-empty text without a boundary is a single line. */
  lemma SplitLinesWhole(s: string)
    requires s != [] && FirstBoundary(s) == |s|
    ensures SplitLines(s) == [s]
  {
  }

  /** A suffix of text whose boundaries are all `"\n"` has the same property. */
  lemma NewlineBreaksOnlySuffix(s: string, j: nat)
    requires NewlineBreaksOnly(s) && j <= |s|
    ensures NewlineBreaksOnly(s[j..])
  {
    var t := s[j..];
    forall k | 0 <= k < |t| && IsLineBoundary(t[k])
      ensures t[k] == '\n'
    {
      assert t[k] == s[j + k];
    }
  }

  /** Joining a first part before at least one more adds it and a separator in front. */
  lemma JoinCons(head: string, parts: seq<string>, sep: char)
    requires parts != []
    ensures Join([head] + parts, sep) == head + [sep] + Join(parts, sep)
  {
    assert ([head] + parts)[1..] == parts;
  }

  // ---------------------------------------------------------------------------
  // str.strip()
  // ---------------------------------------------------------------------------

  /** Python's `str.isspace` for one character. */
  predicate IsWhitespace(c: char)
    ensures c == ' ' || IsLineBoundary(c) ==> IsWhitespace(c)
    ensures IsWhitespace(c) && c < '\U{80}' ==> c <= ' '
  {
    ('\t' <= c <= '\r') || ('\U{1C}' <= c <= ' ') || c == '\U{85}' || c == '\U{A0}' ||
    c == '\U{1680}' || ('\U{2000}' <= c <= '\U{200A}') || c == '\U{2028}' || c == '\U{2029}' ||
    c == '\U{202F}' || c == '\U{205F}' || c == '\U{3000}'
  }

  /** Number of leading whitespace characters. */
  function LeadingWhitespace(s: string): (n: nat)
    ensures n <= |s|
    ensures forall k :: 0 <= k < n ==> IsWhitespace(s[k])
    ensures n < |s| ==> !IsWhitespace(s[n])
  {
    if s == [] || !IsWhitespace(s[0]) then 0 else 1 + LeadingWhitespace(s[1..])
  }

  /** Number of trailing whitespace characters. */
  function TrailingWhitespace(s: string): (n: nat)
    ensures n <= |s|
    ensures forall k :: |s| - n <= k < |s| ==> IsWhitespace(s[k])
    ensures n < |s| ==> !IsWhitespace(s[|s| - n - 1])
  {
    if s == [] || !IsWhitespace(s[|s| - 1]) then 0 else 1 + TrailingWhitespace(s[..|s| - 1])
  }

  /** `s.strip()`: `s` without its leading and trailing whitespace. */
  function Strip(s: string): (r: string)
    ensures LeadingWhitespace(s) + |r| <= |s|
    ensures r == s[LeadingWhitespace(s)..LeadingWhitespace(s) + |r|]
    ensures forall k :: LeadingWhitespace(s) + |r| <= k < |s| ==> IsWhitespace(s[k])
    ensures r != [] ==> !IsWhitespace(r[0]) && !IsWhitespace(r[|r| - 1])
  {
    var t := s[LeadingWhitespace(s)..];
    t[..|t| - TrailingWhitespace(t)]
  }
}
