/**
 * A stand-in for `cjkwrap.wrap(text, width, initial_indent, subsequent_indent)`:
 * a greedy word wrap over characters of width one.
 *
 * Each line takes as many whole words as fit in `width` minus the width of its
 * indent; a word that does not fit on a line of its own is cut at the width.
 * The spaces at a break, leading spaces and trailing spaces are dropped, and
 * text made only of spaces gives no lines at all.
 */
module TextWrap {
  import opened Strings

  /** Length of the leading run of spaces. */
  function LeadingSpaces(s: string): (n: nat)
    ensures n <= |s|
    ensures forall k :: 0 <= k < n ==> s[k] == ' '
    ensures n < |s| ==> s[n] != ' '
  {
    if s == [] || s[0] != ' ' then 0 else 1 + LeadingSpaces(s[1..])
  }

  function TrimLeft(s: string): (r: string)
    ensures r == [] || r[0] != ' '
  {
    s[LeadingSpaces(s)..]
  }

  /** Length of `s` without its trailing run of spaces. */
  function TrimmedLength(s: string): (n: nat)
    ensures n <= |s|
    ensures forall k :: n <= k < |s| ==> s[k] == ' '
    ensures n > 0 ==> s[n - 1] != ' '
  {
    if s == [] || s[|s| - 1] != ' ' then |s| else TrimmedLength(s[..|s| - 1])
  }

  function TrimRight(s: string): (r: string)
    ensures r == [] || r[|r| - 1] != ' '
  {
    s[..TrimmedLength(s)]
  }

  /** The characters of `s` other than spaces, in order: what a wrap must not lose. */
  function NonSpace(s: string): string {
    if s == [] then [] else (if s[0] == ' ' then [] else [s[0]]) + NonSpace(s[1..])
  }

  /** The concatenation of a sequence of strings. */
  function Concat(ss: seq<string>): string {
    if ss == [] then "" else ss[0] + Concat(ss[1..])
  }

  /** Position `j` ends a word: the line `t[..j]` may end there. */
  predicate SoftBreak(t: string, j: nat)
    requires 1 <= j < |t|
  {
    t[j] == ' ' && t[j - 1] != ' '
  }

  /** The largest soft break at most `j`, or 0 when there is none. */
  function LastSoftBreak(t: string, j: nat): (b: nat)
    requires j < |t|
    ensures b <= j
    ensures b > 0 ==> SoftBreak(t, b)
    ensures forall k :: b < k <= j && 1 <= k ==> !SoftBreak(t, k)
  {
    if j == 0 then 0 else if SoftBreak(t, j) then j else LastSoftBreak(t, j - 1)
  }

  /**
   * Where the first line of `t` ends when `t` is wider than `w`: after the last
   * word that fits, or after `w` characters of a word longer than the line.
   */
  function BreakPoint(t: string, w: nat): (j: nat)
    requires 1 <= w < |t| && t[0] != ' '
    ensures 1 <= j <= w
    ensures t[j - 1] != ' '
    ensures t[j] == ' ' || forall k :: 0 <= k < j ==> t[k] != ' '
  {
    var b := LastSoftBreak(t, w);
    if b > 0 then b
    else
      NoSoftBreakNoSpace(t, w);
      w
  }

  /** With no soft break up to `w`, the first `w` characters of a word-initial `t` hold no space. */
  lemma {:induction false} NoSoftBreakNoSpace(t: string, w: nat)
    requires 1 <= w < |t| && t[0] != ' '
    requires forall k :: 1 <= k <= w ==> !SoftBreak(t, k)
    ensures forall k :: 0 <= k < w ==> t[k] != ' '
  {
    forall k | 0 <= k < w ensures t[k] != ' ' {
      NoSpaceBefore(t, w, k);
    }
  }

  lemma {:induction false} NoSpaceBefore(t: string, w: nat, k: nat)
    requires 1 <= w < |t| && t[0] != ' '
    requires forall i :: 1 <= i <= w ==> !SoftBreak(t, i)
    requires k < w
    ensures t[k] != ' '
  {
    if k > 0 {
      NoSpaceBefore(t, w, k - 1);
      assert !SoftBreak(t, k);
    }
  }

  /**
   * The wrapped lines without their indents: the first holds at most
   * `firstWidth` characters, the others at most `restWidth`.
   */
  function Bodies(t: string, firstWidth: nat, restWidth: nat): seq<string>
    requires firstWidth >= 1 && restWidth >= 1
    requires t == [] || t[0] != ' '
    decreases |t|
  {
    if t == [] then []
    else if |t| <= firstWidth then [TrimRight(t)]
    else
      var j := BreakPoint(t, firstWidth);
      [t[..j]] + Bodies(TrimLeft(t[j..]), restWidth, restWidth)
  }

  /** The room a line with `indent` leaves for text. */
  function Room(width: nat, indent: string): (w: nat)
    requires |indent| < width
    ensures w >= 1 && w + |indent| == width
  {
    width - |indent|
  }

  /** Puts `initialIndent` before the first body and `subsequentIndent` before every later one. */
  function Indent(bodies: seq<string>, initialIndent: string, subsequentIndent: string): seq<string> {
    if bodies == [] then [] else [initialIndent + bodies[0]] + Indent(bodies[1..], subsequentIndent, subsequentIndent)
  }

  /** `cjkwrap.wrap(text, width=width, initial_indent=…, subsequent_indent=…)` */
  function Wrap(text: string, width: nat, initialIndent: string, subsequentIndent: string): (lines: seq<string>)
    requires |initialIndent| < width && |subsequentIndent| < width
    ensures forall k :: 0 <= k < |lines| ==> |lines[k]| <= width
  {
    var t := TrimLeft(text);
    var bodies := Bodies(t, Room(width, initialIndent), Room(width, subsequentIndent));
    BodiesShape(t, Room(width, initialIndent), Room(width, subsequentIndent));
    IndentAt(bodies, initialIndent, subsequentIndent);
    Indent(bodies, initialIndent, subsequentIndent)
  }

  /** `s` without its first `n` characters. */
  function Drop(s: string, n: nat): string {
    if n <= |s| then s[n..] else ""
  }

  /** The text of wrapped lines with their indents removed. */
  function Unindent(lines: seq<string>, initialIndent: string, subsequentIndent: string): string {
    if lines == [] then ""
    else Drop(lines[0], |initialIndent|) + Unindent(lines[1..], subsequentIndent, subsequentIndent)
  }

  // ---------------------------------------------------------------------------
  // Lemmas
  // ---------------------------------------------------------------------------

  lemma {:induction false} NonSpaceAppend(a: string, b: string)
    ensures NonSpace(a + b) == NonSpace(a) + NonSpace(b)
  {
    if a == [] {
      assert a + b == b;
    } else {
      assert (a + b)[1..] == a[1..] + b;
      NonSpaceAppend(a[1..], b);
    }
  }

  lemma {:induction false} NonSpaceOfSpaces(s: string)
    requires forall k :: 0 <= k < |s| ==> s[k] == ' '
    ensures NonSpace(s) == []
  {
    if s != [] {
      NonSpaceOfSpaces(s[1..]);
    }
  }

  /** Text is empty of non-space characters exactly when it is made of spaces only. */
  lemma {:induction false} NonSpaceEmpty(s: string)
    ensures NonSpace(s) == [] <==> forall k :: 0 <= k < |s| ==> s[k] == ' '
  {
    if s != [] {
      NonSpaceEmpty(s[1..]);
      assert forall k :: 1 <= k < |s| ==> s[k] == s[1..][k - 1];
    }
  }

  lemma NonSpaceAfterTrim(s: string)
    ensures NonSpace(TrimLeft(s)) == NonSpace(s)
  {
    var n := LeadingSpaces(s);
    assert s == s[..n] + s[n..];
    NonSpaceAppend(s[..n], s[n..]);
    NonSpaceOfSpaces(s[..n]);
  }

  /** A non-empty line that neither starts nor ends with a space. */
  predicate Trimmed(line: string) {
    |line| > 0 && line[0] != ' ' && line[|line| - 1] != ' '
  }

  /**
   * There are no bodies exactly when there is no text; each body is
   * non-empty, fits its width, and neither starts nor ends with a space.
   */
  lemma {:induction false} BodiesShape(t: string, firstWidth: nat, restWidth: nat)
    requires firstWidth >= 1 && restWidth >= 1
    requires t == [] || t[0] != ' '
    ensures var lines := Bodies(t, firstWidth, restWidth);
      && (|lines| == 0 <==> t == [])
      && (forall k :: 0 <= k < |lines| ==> |lines[k]| <= (if k == 0 then firstWidth else restWidth))
      && (forall k :: 0 <= k < |lines| ==> Trimmed(lines[k]))
    decreases |t|
  {
    var lines := Bodies(t, firstWidth, restWidth);
    if t == [] {
    } else if |t| <= firstWidth {
      var r := TrimRight(t);
      assert lines == [r];
      assert t[0] != ' ';
      assert |r| > 0;
      assert r[0] == t[0];
    } else {
      var j := BreakPoint(t, firstWidth);
      var rest := TrimLeft(t[j..]);
      BodiesShape(rest, restWidth, restWidth);
      var tail := Bodies(rest, restWidth, restWidth);
      assert lines == [t[..j]] + tail;
      FitsCons(t[..j], tail, firstWidth, restWidth);
    }
  }

  /** Every line of `[head] + tail` fits its width and is trimmed when `head` and every line of `tail` do. */
  lemma FitsCons(head: string, tail: seq<string>, firstWidth: nat, restWidth: nat)
    requires |head| <= firstWidth && Trimmed(head)
    requires forall k :: 0 <= k < |tail| ==> |tail[k]| <= restWidth && Trimmed(tail[k])
    ensures var lines := [head] + tail;
      && (forall k :: 0 <= k < |lines| ==> |lines[k]| <= (if k == 0 then firstWidth else restWidth))
      && (forall k :: 0 <= k < |lines| ==> Trimmed(lines[k]))
  {
    var lines := [head] + tail;
    forall k | 1 <= k < |lines|
      ensures |lines[k]| <= restWidth && Trimmed(lines[k])
    {
      assert lines[k] == tail[k - 1];
    }
  }

  lemma {:induction false} IndentAt(bodies: seq<string>, initialIndent: string, subsequentIndent: string)
    ensures var lines := Indent(bodies, initialIndent, subsequentIndent);
      && |lines| == |bodies|
      && forall k :: 0 <= k < |lines| ==> lines[k] == (if k == 0 then initialIndent else subsequentIndent) + bodies[k]
  {
    if bodies != [] {
      IndentAt(bodies[1..], subsequentIndent, subsequentIndent);
    }
  }

  lemma NonSpaceTrimRight(t: string)
    ensures NonSpace(TrimRight(t)) == NonSpace(t)
  {
    var n := TrimmedLength(t);
    assert t == t[..n] + t[n..];
    NonSpaceAppend(t[..n], t[n..]);
    NonSpaceOfSpaces(t[n..]);
  }

  /** Cutting `t` at `j` and dropping the spaces after the cut keeps its non-space text. */
  lemma NonSpaceCut(t: string, j: nat)
    requires j <= |t|
    ensures NonSpace(t) == NonSpace(t[..j]) + NonSpace(TrimLeft(t[j..]))
  {
    assert t == t[..j] + t[j..];
    NonSpaceAppend(t[..j], t[j..]);
    NonSpaceAfterTrim(t[j..]);
  }

  lemma ConcatCons(head: string, tail: seq<string>)
    ensures Concat([head] + tail) == head + Concat(tail)
  {
    assert ([head] + tail)[1..] == tail;
  }

  /** Wrapping drops spaces only: every other character of the text appears in the bodies, in order. */
  lemma {:induction false} BodiesKeepText(t: string, firstWidth: nat, restWidth: nat)
    requires firstWidth >= 1 && restWidth >= 1
    requires t == [] || t[0] != ' '
    ensures NonSpace(Concat(Bodies(t, firstWidth, restWidth))) == NonSpace(t)
    decreases |t|
  {
    if t == [] {
    } else if |t| <= firstWidth {
      assert Bodies(t, firstWidth, restWidth) == [TrimRight(t)] + [];
      ConcatCons(TrimRight(t), []);
      assert TrimRight(t) + Concat([]) == TrimRight(t);
      NonSpaceTrimRight(t);
    } else {
      var j := BreakPoint(t, firstWidth);
      var rest := TrimLeft(t[j..]);
      var tail := Bodies(rest, restWidth, restWidth);
      assert Bodies(t, firstWidth, restWidth) == [t[..j]] + tail;
      ConcatCons(t[..j], tail);
      BodiesKeepText(rest, restWidth, restWidth);
      NonSpaceAppend(t[..j], Concat(tail));
      NonSpaceCut(t, j);
    }
  }

  lemma {:induction false} UnindentIndent(bodies: seq<string>, initialIndent: string, subsequentIndent: string)
    ensures Unindent(Indent(bodies, initialIndent, subsequentIndent), initialIndent, subsequentIndent) == Concat(bodies)
  {
    if bodies != [] {
      var lines := Indent(bodies, initialIndent, subsequentIndent);
      assert lines[1..] == Indent(bodies[1..], subsequentIndent, subsequentIndent);
      UnindentIndent(bodies[1..], subsequentIndent, subsequentIndent);
      assert lines[0][|initialIndent|..] == bodies[0];
    }
  }

  /**
   * With the indents taken off, the wrapped lines hold every non-space
   * character of the text, in order, and nothing else besides spaces.
   */
  lemma WrapKeepsText(text: string, width: nat, initialIndent: string, subsequentIndent: string)
    requires |initialIndent| < width && |subsequentIndent| < width
    ensures var lines := Wrap(text, width, initialIndent, subsequentIndent);
      NonSpace(Unindent(lines, initialIndent, subsequentIndent)) == NonSpace(text)
  {
    var t := TrimLeft(text);
    var bodies := Bodies(t, Room(width, initialIndent), Room(width, subsequentIndent));
    UnindentIndent(bodies, initialIndent, subsequentIndent);
    BodiesKeepText(t, Room(width, initialIndent), Room(width, subsequentIndent));
    NonSpaceAfterTrim(text);
  }

  /**
   * The wrapped lines: none when the text holds only spaces; otherwise none
   * wider than `width`, the first starting with `initialIndent`, every later
   * one with `subsequentIndent`, and each holding text after its indent.
   */
  lemma WrapShape(text: string, width: nat, initialIndent: string, subsequentIndent: string)
    requires |initialIndent| < width && |subsequentIndent| < width
    ensures var lines := Wrap(text, width, initialIndent, subsequentIndent);
      && (|lines| == 0 <==> NonSpace(text) == [])
      && (forall k :: 0 <= k < |lines| ==> |lines[k]| <= width)
      && (|lines| > 0 ==> StartsWith(lines[0], initialIndent))
      && (forall k :: 1 <= k < |lines| ==> StartsWith(lines[k], subsequentIndent))
  {
    var t := TrimLeft(text);
    var bodies := Bodies(t, Room(width, initialIndent), Room(width, subsequentIndent));
    var lines := Indent(bodies, initialIndent, subsequentIndent);
    assert Wrap(text, width, initialIndent, subsequentIndent) == lines;
    BodiesShape(t, Room(width, initialIndent), Room(width, subsequentIndent));
    IndentAt(bodies, initialIndent, subsequentIndent);
    NonSpaceAfterTrim(text);
    NonSpaceEmpty(t);
    forall k | 0 <= k < |lines|
      ensures StartsWith(lines[k], if k == 0 then initialIndent else subsequentIndent)
    {
      var indent := if k == 0 then initialIndent else subsequentIndent;
      assert lines[k] == indent + bodies[k];
      assert lines[k][..|indent|] == indent;
    }
  }

  /** The largest soft break is `e` when `e` is one and no later position up to `w` is. */
  lemma LastSoftBreakIs(t: string, w: nat, e: nat)
    requires 1 <= e <= w < |t| && SoftBreak(t, e)
    requires forall k :: e < k <= w ==> !SoftBreak(t, k)
    ensures LastSoftBreak(t, w) == e
  {
  }

  /**
   * Text that fits on the first line after its indent, padded with spaces to
   * the full width, wraps to one line: the indent and the text without its
   * trailing spaces. The padding never shows.
   */
  lemma PaddedShortTextOneLine(desc: string, width: nat, initialIndent: string, subsequentIndent: string)
    requires 0 < |initialIndent| < width && |subsequentIndent| < width
    requires desc != [] && desc[0] != ' ' && |desc| + |initialIndent| <= width
    ensures Wrap(PadRight(desc, width), width, initialIndent, subsequentIndent) == [initialIndent + TrimRight(desc)]
  {
    var text := PadRight(desc, width);
    var room := Room(width, initialIndent);
    assert LeadingSpaces(text) == 0;
    assert TrimLeft(text) == text;
    var e := TrimmedLength(desc);
    assert e > 0;
    assert SoftBreak(text, e);
    forall k | e < k <= room
      ensures !SoftBreak(text, k)
    {
      assert text[k - 1] == ' ';
    }
    LastSoftBreakIs(text, room, e);
    assert BreakPoint(text, room) == e;
    assert text[..e] == TrimRight(desc) by {
      assert text[..|desc|] == desc;
    }
    var rest := text[e..];
    assert LeadingSpaces(rest) == |rest|;
    assert TrimLeft(rest) == [];
    var restRoom := Room(width, subsequentIndent);
    assert Bodies(TrimLeft(rest), restRoom, restRoom) == [];
    assert |text| > room;
    var bodies := Bodies(text, room, restRoom);
    assert bodies == [text[..e]] + Bodies(TrimLeft(rest), restRoom, restRoom);
    assert Indent(bodies, initialIndent, subsequentIndent) == [initialIndent + TrimRight(desc)];
  }
}
