/**
 * `dump_module_nodes` (cmtprinter/core.py): the `ModuleNodes` record turned
 * into the `DumpedModuleNodes` dictionary, each entry list becoming a block
 * of text with a header line and one indented line per entry.
 */
module Dumper {
  import opened Strings
  import opened Extractor

  /** The dumped dictionary: file name, the two formatted times and the two blocks of entries. */
  datatype DumpedModuleNodes = DumpedModuleNodes(
    filename: string,
    created: string,
    modified: string,
    functions: string,
    classes: string)

  /** The keys of the dictionary the dump builds before copying the times over. */
  datatype Key = FilenameKey | FunctionsKey | ClassesKey

  const ClassesHeader := "Classes:\n"
  const FunctionsHeader := "Functions:\n"

  /** `" " * indent`: Python repeats a string a negative number of times to the empty string. */
  function IndentSpaces(indent: int): (pad: string)
    ensures |pad| == (if indent < 0 then 0 else indent)
    ensures forall k :: 0 <= k < |pad| ==> pad[k] == ' '
  {
    if indent < 0 then "" else Spaces(indent)
  }

  /** The text the inner loop adds for `items`: each item after `pad`, ended by a newline. */
  function IndentedItems(items: seq<string>, pad: string): string {
    if items == [] then ""
    else IndentedItems(items[..|items| - 1], pad) + (pad + items[|items| - 1] + "\n")
  }

  /** One block of the dump: `""` for an empty list, otherwise the header and the indented items. */
  function Block(header: string, items: seq<string>, indent: int): string {
    if |items| == 0 then "" else header + IndentedItems(items, IndentSpaces(indent))
  }

  /** The dictionary `dump_module_nodes` returns for a record with these fields. */
  function Dumped(filename: string, created: string, modified: string, classes: seq<string>, funces: seq<string>,
                  indent: int): DumpedModuleNodes {
    DumpedModuleNodes(filename, created, modified, Block(FunctionsHeader, funces, indent), Block(ClassesHeader, classes, indent))
  }

  /**
   * `dump_module_nodes(module_nodes, indent)`: the blocks are built by appending
   * to the dictionary's entries, the classes' block first, then the names and
   * the two times are copied over.
   */
  method DumpModuleNodes(moduleNodes: ModuleNodes, indent: int) returns (dumped: DumpedModuleNodes)
    ensures dumped == Dumped(moduleNodes.filename, moduleNodes.created, moduleNodes.modified,
                             moduleNodes.classes.items, moduleNodes.funces.items, indent)
  {
    var nodeJson := map[FilenameKey := "", FunctionsKey := "", ClassesKey := ""];
    var sections := [(moduleNodes.classes.items, ClassesKey, ClassesHeader),
                     (moduleNodes.funces.items, FunctionsKey, FunctionsHeader)];
    var pad := IndentSpaces(indent);
    for s := 0 to |sections|
      invariant FilenameKey in nodeJson && FunctionsKey in nodeJson && ClassesKey in nodeJson
      invariant nodeJson[ClassesKey] == if s > 0 then Block(ClassesHeader, moduleNodes.classes.items, indent) else ""
      invariant nodeJson[FunctionsKey] == if s > 1 then Block(FunctionsHeader, moduleNodes.funces.items, indent) else ""
    {
      var (items, key, header) := sections[s];
      if |items| > 0 {
        nodeJson := nodeJson[key := nodeJson[key] + header];
        for i := 0 to |items|
          invariant FilenameKey in nodeJson && FunctionsKey in nodeJson && ClassesKey in nodeJson
          invariant nodeJson[key] == header + IndentedItems(items[..i], pad)
          invariant s == 0 ==> key == ClassesKey && nodeJson[FunctionsKey] == ""
          invariant s == 1 ==> key == FunctionsKey && nodeJson[ClassesKey] == Block(ClassesHeader, moduleNodes.classes.items, indent)
        {
          IndentedItemsStep(items, i, pad);
          nodeJson := nodeJson[key := nodeJson[key] + (pad + items[i] + "\n")];
        }
        assert items[..|items|] == items;
      }
    }
    dumped := DumpedModuleNodes(moduleNodes.filename, moduleNodes.created, moduleNodes.modified,
                                nodeJson[FunctionsKey], nodeJson[ClassesKey]);
  }

  lemma IndentedItemsStep(items: seq<string>, i: nat, pad: string)
    requires i < |items|
    ensures IndentedItems(items[..i + 1], pad) == IndentedItems(items[..i], pad) + (pad + items[i] + "\n")
  {
    assert items[..i + 1][..i] == items[..i];
  }

  // ---------------------------------------------------------------------------
  // What a block holds
  // ---------------------------------------------------------------------------

  /** The indented entry lines of a block, without their newlines. */
  function IndentedLines(items: seq<string>, pad: string): (lines: seq<string>)
    ensures |lines| == |items|
    ensures forall k :: 0 <= k < |items| ==> lines[k] == pad + items[k]
  {
    if items == [] then [] else IndentedLines(items[..|items| - 1], pad) + [pad + items[|items| - 1]]
  }

  /** A block is empty exactly when its list is. */
  lemma BlockEmptyIff(header: string, items: seq<string>, indent: int)
    requires header != ""
    ensures Block(header, items, indent) == "" <==> items == []
  {
  }

  /**
   * The header line and the indented items, each ended by a newline, are the
   * `"\n"`-join of those lines and a final empty segment.
   */
  lemma {:induction false} IndentedItemsJoin(head: string, items: seq<string>, pad: string)
    ensures head + "\n" + IndentedItems(items, pad) == Join([head] + IndentedLines(items, pad) + [""], '\n')
  {
    if items == [] {
      assert [head] + IndentedLines(items, pad) + [""] == [head, ""];
      assert Join([head, ""], '\n') == head + ['\n'] + Join([""], '\n');
    } else {
      var init, last := items[..|items| - 1], items[|items| - 1];
      var before := [head] + IndentedLines(init, pad);
      IndentedItemsJoin(head, init, pad);
      JoinSnoc(before, "", '\n');
      JoinSnoc(before, pad + last, '\n');
      JoinSnoc(before + [pad + last], "", '\n');
      assert [head] + IndentedLines(items, pad) == before + [pad + last];
      assert IndentedItems(items, pad) == IndentedItems(init, pad) + (pad + last + "\n");
      calc {
        head + "\n" + IndentedItems(items, pad);
        (head + "\n" + IndentedItems(init, pad)) + (pad + last + "\n");
        Join(before + [""], '\n') + (pad + last + "\n");
        Join(before, '\n') + ['\n'] + (pad + last) + ['\n'];
        Join(before + [pad + last], '\n') + ['\n'] + "";
        Join(before + [pad + last] + [""], '\n');
      }
    }
  }

  /**
   * A block of a non-empty list splits at its newlines into the header line,
   * one indented line per entry in list order, and the empty segment after
   * the final newline: one line more than there are entries.
   */
  lemma BlockLines(title: string, items: seq<string>, indent: int)
    requires '\n' !in title
    requires forall k :: 0 <= k < |items| ==> '\n' !in items[k]
    requires items != []
    ensures Split(Block(title + "\n", items, indent), '\n') == [title] + IndentedLines(items, IndentSpaces(indent)) + [""]
    ensures |Split(Block(title + "\n", items, indent), '\n')| == |items| + 2
  {
    var pad := IndentSpaces(indent);
    var parts := [title] + IndentedLines(items, pad) + [""];
    IndentedItemsJoin(title, items, pad);
    assert Block(title + "\n", items, indent) == title + "\n" + IndentedItems(items, pad);
    forall k | 0 <= k < |parts|
      ensures '\n' !in parts[k]
    {
      if 1 <= k <= |items| {
        assert parts[k] == pad + items[k - 1];
        assert ' ' != '\n';
      }
    }
    SplitJoin(parts, '\n');
  }
}
