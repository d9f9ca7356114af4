/**
 * The rendering half of cmtprinter's core (cmtprinter/core.py): the rows
 * `print_table` hands to the table drawer, and `_redraw_the_header_line`,
 * which drops the empty lines of the drawn table and redraws its top border
 * with the table character.
 *
 * The table drawer itself is not modelled: `RedrawHeaderLine` takes the
 * drawn table as text. The user name read from the git configuration is a
 * parameter.
 */
module Renderer {
  import opened Strings
  import opened Extractor
  import opened Dumper

  // ---------------------------------------------------------------------------
  // The rows of print_table
  // ---------------------------------------------------------------------------

  /** The fixed change log cell. */
  const Changelog := "Change Log: \n  - Initilize."

  /**
   * The lines of the base information cell: the file name, the description
   * when there is one, then the modification time shown both as the creation
   * and as the last modification time, each followed by the user name.
   */
  function BaseInfoLines(nodeJson: DumpedModuleNodes, desc: string, username: string): seq<string> {
    ["Filename: " + nodeJson.filename]
    + (if desc != "" then ["Description: " + desc] else [])
    + ["Created Time: " + nodeJson.modified,
       "Created By: " + username,
       "Last Moidified Time: " + nodeJson.modified,
       "Last Moidified By: " + username]
  }

  /** The base information cell: its lines joined by newlines, with no newline at the end. */
  function BaseInfo(nodeJson: DumpedModuleNodes, desc: string, username: string): string {
    Join(BaseInfoLines(nodeJson, desc, username), '\n')
  }

  /** One single-cell row per non-empty block, stripped, in the given order. */
  function BlockRows(blocks: seq<string>): seq<seq<string>> {
    if blocks == [] then []
    else BlockRows(blocks[..|blocks| - 1]) + (if blocks[|blocks| - 1] != "" then [[Strip(blocks[|blocks| - 1])]] else [])
  }

  /** The rows of the table: base information, change log, then the functions' and the classes' blocks. */
  function TableRows(nodeJson: DumpedModuleNodes, desc: string, username: string): seq<seq<string>> {
    [[BaseInfo(nodeJson, desc, username)], [Changelog]] + BlockRows([nodeJson.functions, nodeJson.classes])
  }

  /** One more line and newline after text that ends in a newline. */
  lemma AddLine(text: string, shown: seq<string>, line: string)
    requires shown != [] && text == Join(shown, '\n') + "\n"
    ensures text + line + "\n" == Join(shown + [line], '\n') + "\n"
    ensures text + line == Join(shown + [line], '\n')
  {
    JoinSnoc(shown, line, '\n');
  }

  /** The base information cell, built line by line with `+=` as `print_table` does. */
  method BuildBaseInfo(nodeJson: DumpedModuleNodes, desc: string, username: string) returns (baseinfo: string)
    ensures baseinfo == BaseInfo(nodeJson, desc, username)
  {
    var line := "Filename: " + nodeJson.filename;
    baseinfo := line + "\n";
    ghost var shown := [line];
    if desc != "" {
      line := "Description: " + desc;
      AddLine(baseinfo, shown, line);
      baseinfo := baseinfo + line + "\n";
      shown := shown + [line];
    }
    ghost var head := shown;
    line := "Created Time: " + nodeJson.modified;
    AddLine(baseinfo, shown, line);
    baseinfo := baseinfo + line + "\n";
    shown := shown + [line];
    line := "Created By: " + username;
    AddLine(baseinfo, shown, line);
    baseinfo := baseinfo + line + "\n";
    shown := shown + [line];
    line := "Last Moidified Time: " + nodeJson.modified;
    AddLine(baseinfo, shown, line);
    baseinfo := baseinfo + line + "\n";
    shown := shown + [line];
    line := "Last Moidified By: " + username;
    AddLine(baseinfo, shown, line);
    baseinfo := baseinfo + line;
    shown := shown + [line];
    assert head == ["Filename: " + nodeJson.filename] + (if desc != "" then ["Description: " + desc] else []);
    assert shown == head + ["Created Time: " + nodeJson.modified, "Created By: " + username,
                            "Last Moidified Time: " + nodeJson.modified, "Last Moidified By: " + username];
    assert shown == BaseInfoLines(nodeJson, desc, username);
  }

  /**
   * The rows `print_table` builds before drawing: the non-empty blocks,
   * stripped, then the change log and the base information inserted in front.
   */
  method TableData(nodeJson: DumpedModuleNodes, desc: string, username: string) returns (data: seq<seq<string>>)
    ensures data == TableRows(nodeJson, desc, username)
  {
    var blocks := [nodeJson.functions, nodeJson.classes];
    data := [];
    for k := 0 to |blocks|
      invariant data == BlockRows(blocks[..k])
    {
      assert blocks[..k + 1][..k] == blocks[..k];
      if blocks[k] != "" {
        data := data + [[Strip(blocks[k])]];
      }
    }
    assert blocks[..|blocks|] == blocks;

    var baseinfo := BuildBaseInfo(nodeJson, desc, username);
    data := [[Changelog]] + data;
    data := [[baseinfo]] + data;
  }

  /** The base information cell splits back into its lines when no field holds a newline. */
  lemma BaseInfoSplit(nodeJson: DumpedModuleNodes, desc: string, username: string)
    requires '\n' !in nodeJson.filename && '\n' !in nodeJson.modified && '\n' !in desc && '\n' !in username
    ensures Split(BaseInfo(nodeJson, desc, username), '\n') == BaseInfoLines(nodeJson, desc, username)
  {
    var lines := BaseInfoLines(nodeJson, desc, username);
    forall k | 0 <= k < |lines|
      ensures '\n' !in lines[k]
    {
      NoNewlineAfterLabel(lines, k, nodeJson, desc, username);
    }
    SplitJoin(lines, '\n');
  }

  lemma NoNewlineAfterLabel(lines: seq<string>, k: nat, nodeJson: DumpedModuleNodes, desc: string, username: string)
    requires '\n' !in nodeJson.filename && '\n' !in nodeJson.modified && '\n' !in desc && '\n' !in username
    requires lines == BaseInfoLines(nodeJson, desc, username) && k < |lines|
    ensures '\n' !in lines[k]
  {
    var d := if desc != "" then 1 else 0;
    if k == 0 {
      assert lines[k] == "Filename: " + nodeJson.filename;
    } else if k < 1 + d {
      assert lines[k] == "Description: " + desc;
    } else if k == 1 + d || k == 3 + d {
      assert lines[k] == (if k == 1 + d then "Created Time: " else "Last Moidified Time: ") + nodeJson.modified;
    } else {
      assert lines[k] == (if k == 2 + d then "Created By: " else "Last Moidified By: ") + username;
    }
  }

  /**
   * The base information has a "Description: " line exactly when the
   * description is non-empty; it then comes second, and otherwise the
   * second line is the creation time.
   */
  lemma DescriptionLineIff(nodeJson: DumpedModuleNodes, desc: string, username: string)
    requires '\n' !in nodeJson.filename && '\n' !in nodeJson.modified && '\n' !in desc && '\n' !in username
    ensures var lines := Split(BaseInfo(nodeJson, desc, username), '\n');
      && |lines| == (if desc == "" then 5 else 6)
      && (StartsWith(lines[1], "Description: ") <==> desc != "")
      && (desc != "" ==> lines[1] == "Description: " + desc)
  {
    BaseInfoSplit(nodeJson, desc, username);
    var lines := BaseInfoLines(nodeJson, desc, username);
    if desc == "" {
      assert lines[1] == "Created Time: " + nodeJson.modified;
      assert lines[1][0] != "Description: "[0];
    }
  }

  /**
   * The "Created Time" line shows the modification time, not the creation
   * time: the rows do not depend on the creation time at all.
   */
  lemma CreatedTimeShowsModified(nodeJson: DumpedModuleNodes, desc: string, username: string, created: string)
    ensures TableRows(nodeJson.(created := created), desc, username) == TableRows(nodeJson, desc, username)
    ensures "Created Time: " + nodeJson.modified in BaseInfoLines(nodeJson, desc, username)
  {
    var lines := BaseInfoLines(nodeJson, desc, username);
    var d := if desc != "" then 1 else 0;
    assert lines[1 + d] == "Created Time: " + nodeJson.modified;
  }

  /** The table has the two fixed rows and one row per non-empty block, each row one cell. */
  lemma TableRowsShape(nodeJson: DumpedModuleNodes, desc: string, username: string)
    ensures var rows := TableRows(nodeJson, desc, username);
      && |rows| == 2 + (if nodeJson.functions != "" then 1 else 0) + (if nodeJson.classes != "" then 1 else 0)
      && (forall k :: 0 <= k < |rows| ==> |rows[k]| == 1)
      && rows[0] == [BaseInfo(nodeJson, desc, username)] && rows[1] == [Changelog]
      && (nodeJson.functions != "" ==> rows[2] == [Strip(nodeJson.functions)])
      && (nodeJson.classes != "" ==> rows[|rows| - 1] == [Strip(nodeJson.classes)])
  {
    BlockRowsPair(nodeJson.functions, nodeJson.classes);
  }

  lemma BlockRowsPair(first: string, second: string)
    ensures BlockRows([first, second]) ==
      (if first != "" then [[Strip(first)]] else []) + (if second != "" then [[Strip(second)]] else [])
  {
    var pair := [first, second];
    assert pair[..1] == [first];
    assert [first][..0] == [];
    assert BlockRows([first]) == BlockRows([]) + (if first != "" then [[Strip(first)]] else []);
    assert BlockRows(pair) == BlockRows(pair[..1]) + (if second != "" then [[Strip(second)]] else []);
  }

  /**
   * Stripping a block drops only its final newline when the header starts
   * and the last entry ends with a non-whitespace character.
   */
  lemma StripBlock(header: string, items: seq<string>, indent: int)
    requires header != "" && !IsWhitespace(header[0])
    requires items != [] && items[|items| - 1] != "" && !IsWhitespace(items[|items| - 1][|items[|items| - 1]| - 1])
    ensures var block := Block(header, items, indent);
      |block| >= 2 && Strip(block) == block[..|block| - 1]
  {
    var block := Block(header, items, indent);
    BlockEnds(header, items, indent);
    StripFinalNewline(block);
  }

  /** A non-empty block starts with its header and ends with its last entry and a newline. */
  lemma BlockEnds(header: string, items: seq<string>, indent: int)
    requires header != "" && items != [] && items[|items| - 1] != ""
    ensures var block := Block(header, items, indent);
      var last := items[|items| - 1];
      && |block| >= 2 && block[0] == header[0]
      && block[|block| - 1] == '\n' && block[|block| - 2] == last[|last| - 1]
  {
    var pad := IndentSpaces(indent);
    var last := items[|items| - 1];
    var ending := pad + last + "\n";
    var block := Block(header, items, indent);
    assert block == (header + IndentedItems(items[..|items| - 1], pad)) + ending;
    assert ending[|ending| - 2] == last[|last| - 1];
  }

  /** Text that starts and ends with non-whitespace but for a final newline loses only that newline to `strip`. */
  lemma StripFinalNewline(s: string)
    requires |s| >= 2 && !IsWhitespace(s[0]) && s[|s| - 1] == '\n' && !IsWhitespace(s[|s| - 2])
    ensures Strip(s) == s[..|s| - 1]
  {
    assert LeadingWhitespace(s) == 0;
    assert IsWhitespace(s[|s| - 1]);
    var r := Strip(s);
    assert |r| == |s| - 1;
  }

  /**
   * With the walk that filled the record: the table has only its two fixed
   * rows exactly when no class or function definition has a public name.
   */
  lemma OnlyFixedRowsIff(filename: string, created: string, modified: string, walk: seq<WalkedNode>,
                         indent: int, desc: string, username: string)
    ensures var nodeJson := Dumped(filename, created, modified,
                                   Entries(walk, ClassStore), Entries(walk, FunctionStore), indent);
      |TableRows(nodeJson, desc, username)| == 2 <==>
      forall k :: 0 <= k < |walk| && Route(walk[k]).Some? ==> StartsWith(walk[k].name, "_")
  {
    var classes, funces := Entries(walk, ClassStore), Entries(walk, FunctionStore);
    var nodeJson := Dumped(filename, created, modified, classes, funces, indent);
    TableRowsShape(nodeJson, desc, username);
    BlockEmptyIff(ClassesHeader, classes, indent);
    BlockEmptyIff(FunctionsHeader, funces, indent);
    EntriesEmptyIff(walk, ClassStore);
    EntriesEmptyIff(walk, FunctionStore);
    assert forall k :: 0 <= k < |walk| && Route(walk[k]).Some? ==>
      Route(walk[k]) == Some(ClassStore) || Route(walk[k]) == Some(FunctionStore);
  }

  // ---------------------------------------------------------------------------
  // _redraw_the_header_line
  // ---------------------------------------------------------------------------

  /** The non-empty lines, in order. */
  function NonEmptyLines(lines: seq<string>): (kept: seq<string>)
    ensures |kept| <= |lines|
    ensures forall k :: 0 <= k < |kept| ==> kept[k] != ""
  {
    if lines == [] then []
    else NonEmptyLines(lines[..|lines| - 1]) + (if lines[|lines| - 1] != "" then [lines[|lines| - 1]] else [])
  }

  /** A line is kept exactly when it is a non-empty line of the input. */
  lemma {:induction false} NonEmptyLinesMembers(lines: seq<string>, line: string)
    ensures line in NonEmptyLines(lines) <==> line in lines && line != ""
  {
    if lines != [] {
      var init := lines[..|lines| - 1];
      NonEmptyLinesMembers(init, line);
      assert lines == init + [lines[|lines| - 1]];
    }
  }

  /** Lines that are all non-empty are kept as they are. */
  lemma {:induction false} NonEmptyLinesOfNonEmpty(lines: seq<string>)
    requires forall k :: 0 <= k < |lines| ==> lines[k] != ""
    ensures NonEmptyLines(lines) == lines
  {
    if lines != [] {
      NonEmptyLinesOfNonEmpty(lines[..|lines| - 1]);
    }
  }

  /** The first line replaced by the table character repeated to its length; the others unchanged. */
  function Redrawn(lines: seq<string>, tablechar: string): seq<string> {
    if lines == [] then [] else [Repeat(tablechar, |lines[0]|)] + lines[1..]
  }

  lemma RedrawnSnoc(lines: seq<string>, line: string, tablechar: string)
    ensures lines == [] ==> Redrawn(lines + [line], tablechar) == [Repeat(tablechar, |line|)]
    ensures lines != [] ==> Redrawn(lines + [line], tablechar) == Redrawn(lines, tablechar) + [line]
  {
    var all := lines + [line];
    if lines == [] {
      assert all == [line];
    } else {
      assert all[0] == lines[0];
      assert all[1..] == lines[1..] + [line];
      var first := [Repeat(tablechar, |lines[0]|)];
      assert Redrawn(all, tablechar) == first + (lines[1..] + [line]);
      assert Redrawn(lines, tablechar) == first + lines[1..];
      assert first + (lines[1..] + [line]) == (first + lines[1..]) + [line];
    }
  }

  /** Extending the input by one line extends the kept lines by that line when it is non-empty. */
  lemma NonEmptyLinesStep(lines: seq<string>, i: nat)
    requires i < |lines|
    ensures NonEmptyLines(lines[..i + 1]) == NonEmptyLines(lines[..i]) + (if lines[i] != "" then [lines[i]] else [])
  {
    assert lines[..i + 1][..i] == lines[..i];
  }

  /**
   * `_redraw_the_header_line(table_text, tablechar)`: the non-empty lines of
   * the text, the first one redrawn with the table character, joined by
   * newlines.
   */
  method RedrawHeaderLine(tableText: string, tablechar: string) returns (text: string)
    ensures text == Join(Redrawn(NonEmptyLines(SplitLines(tableText)), tablechar), '\n')
  {
    var linecnt := 0;
    var newTableTextList: seq<string> := [];
    var lines := SplitLines(tableText);
    for i := 0 to |lines|
      invariant linecnt == |NonEmptyLines(lines[..i])|
      invariant newTableTextList == Redrawn(NonEmptyLines(lines[..i]), tablechar)
    {
      var line := lines[i];
      NonEmptyLinesStep(lines, i);
      if line != "" {
        RedrawnSnoc(NonEmptyLines(lines[..i]), line, tablechar);
        linecnt := linecnt + 1;
        if linecnt == 1 {
          line := Repeat(tablechar, |line|);
        }
        newTableTextList := newTableTextList + [line];
      }
    }
    assert lines[..|lines|] == lines;
    text := Join(newTableTextList, '\n');
  }

  /**
   * The redrawn lines: as many as the non-empty input lines, the first being
   * the table character repeated as many times as the first non-empty line is
   * long, the rest the later non-empty lines unchanged.
   */
  lemma RedrawnShape(lines: seq<string>, tablechar: string)
    ensures var kept := NonEmptyLines(lines);
      var redrawn := Redrawn(kept, tablechar);
      && |redrawn| == |kept|
      && (kept != [] ==> redrawn[0] == Repeat(tablechar, |kept[0]|) && |redrawn[0]| == |tablechar| * |kept[0]|)
      && (forall k :: 1 <= k < |kept| ==> redrawn[k] == kept[k])
  {
    var kept := NonEmptyLines(lines);
    if kept != [] {
      RepeatLength(tablechar, |kept[0]|);
    }
  }

  /**
   * For a table character without line boundaries, the output splits back
   * into the redrawn lines: one line per non-empty input line, none empty, so
   * the text never ends with a newline.
   */
  lemma RedrawRoundTrip(tableText: string, tablechar: string)
    requires tablechar != "" && NoLineBoundary(tablechar)
    ensures var redrawn := Redrawn(NonEmptyLines(SplitLines(tableText)), tablechar);
      SplitLines(Join(redrawn, '\n')) == redrawn
  {
    var kept := NonEmptyLines(SplitLines(tableText));
    var redrawn := Redrawn(kept, tablechar);
    if kept != [] {
      var first := Repeat(tablechar, |kept[0]|);
      assert first == tablechar + Repeat(tablechar, |kept[0]| - 1);
      assert NoLineBoundary(first) by {
        forall k | 0 <= k < |first|
          ensures !IsLineBoundary(first[k])
        {
          RepeatChar(tablechar, |kept[0]|, k);
        }
      }
      forall k | 0 <= k < |redrawn|
        ensures redrawn[k] != "" && NoLineBoundary(redrawn[k])
      {
        if k > 0 {
          assert redrawn[k] == kept[k];
          NonEmptyLinesMembers(SplitLines(tableText), kept[k]);
        }
      }
    }
    SplitLinesJoin(redrawn);
  }

  /** Each character of `s * n` is a character of `s`. */
  lemma {:induction false} RepeatChar(s: string, n: nat, k: nat)
    requires k < |Repeat(s, n)|
    ensures Repeat(s, n)[k] in s
  {
    if k < |s| {
      assert Repeat(s, n)[k] == s[k];
    } else {
      RepeatChar(s, n - 1, k - |s|);
    }
  }

  /**
   * For a table character without line boundaries, the output does not end
   * with a line boundary: the lines are joined with no trailing newline.
   */
  lemma RedrawNoTrailingNewline(tableText: string, tablechar: string)
    requires NoLineBoundary(tablechar)
    ensures var text := Join(Redrawn(NonEmptyLines(SplitLines(tableText)), tablechar), '\n');
      text == "" || !IsLineBoundary(text[|text| - 1])
  {
    var kept := NonEmptyLines(SplitLines(tableText));
    var redrawn := Redrawn(kept, tablechar);
    if |redrawn| > 1 {
      var last := redrawn[|redrawn| - 1];
      assert last == kept[|kept| - 1];
      NonEmptyLinesMembers(SplitLines(tableText), last);
      JoinLastChar(redrawn, '\n');
    } else if |redrawn| == 1 && redrawn[0] != "" {
      var first := redrawn[0];
      assert first == Repeat(tablechar, |kept[0]|);
      RepeatChar(tablechar, |kept[0]|, |first| - 1);
      JoinLastChar(redrawn, '\n');
    }
  }

  /**
   * With a one-character table character, redrawing a second time changes
   * nothing: the output has no empty lines and its first line is already the
   * table character repeated to its own length.
   */
  lemma RedrawIdempotent(tableText: string, tablechar: string)
    requires |tablechar| == 1 && NoLineBoundary(tablechar)
    ensures var once := Join(Redrawn(NonEmptyLines(SplitLines(tableText)), tablechar), '\n');
      Join(Redrawn(NonEmptyLines(SplitLines(once)), tablechar), '\n') == once
  {
    var kept := NonEmptyLines(SplitLines(tableText));
    var redrawn := Redrawn(kept, tablechar);
    RedrawRoundTrip(tableText, tablechar);
    RedrawnShape(SplitLines(tableText), tablechar);
    if redrawn != [] {
      assert |redrawn[0]| == |kept[0]|;
      assert redrawn[0] != "";
    }
    NonEmptyLinesOfNonEmpty(redrawn);
    assert Redrawn(redrawn, tablechar) == redrawn;
  }
}
