/**
 * The extractor half of cmtprinter's core (cmtprinter/core.py): the first
 * non-empty line of a docstring, the wrapped "name: doc" entry of one
 * definition, and the walk that routes class and function definitions into
 * the two lists of a `ModuleNodes` record.
 *
 * The syntax tree is not modelled: the walk is given as the sequence of
 * nodes `ast.walk` visits, each with its node type, its name and the
 * docstring `ast.get_docstring` returns for it.
 */
module Extractor {
  import opened Strings
  import opened TextWrap

  datatype Option<T> = None | Some(value: T)

  // ---------------------------------------------------------------------------
  // _get_the_first_not_empty_line
  // ---------------------------------------------------------------------------

  /** The first non-empty segment, or `""` when every segment is empty. */
  function FirstNonEmpty(segments: seq<string>): (r: string)
    ensures r == "" <==> forall k :: 0 <= k < |segments| ==> segments[k] == ""
    ensures r == "" || r in segments
    ensures forall i :: 0 <= i < |segments| && segments[i] != "" && (forall k :: 0 <= k < i ==> segments[k] == "") ==>
      r == segments[i]
  {
    if segments == [] then ""
    else if segments[0] != "" then segments[0]
    else FirstNonEmpty(segments[1..])
  }

  /**
   * `_get_the_first_not_empty_line(data)`: `""` for `None` and for the empty
   * string; otherwise the first non-empty `"\n"`-separated segment of `data`,
   * or `""` when there is none. A segment of spaces is not empty.
   */
  function FirstNotEmptyLine(data: Option<string>): (line: string)
    ensures '\n' !in line
    ensures data.Some? && line != "" ==> line in Split(data.value, '\n')
  {
    if data.None? || data.value == "" then "" else FirstNonEmpty(Split(data.value, '\n'))
  }

  /** For a docstring, the first line is its first non-empty `"\n"`-separated segment. */
  lemma FirstLineIsFirstSegment(docstring: string, i: nat)
    requires i < |Split(docstring, '\n')| && Split(docstring, '\n')[i] != ""
    requires forall k :: 0 <= k < i ==> Split(docstring, '\n')[k] == ""
    ensures FirstNotEmptyLine(Some(docstring)) == Split(docstring, '\n')[i]
  {
  }

  /** A docstring of one non-empty line is its own first line. */
  lemma FirstLineOfOneLine(docstring: string)
    requires docstring != "" && '\n' !in docstring
    ensures FirstNotEmptyLine(Some(docstring)) == docstring
  {
    SplitNoSep(docstring, '\n');
  }

  /** Every segment of a split is empty exactly when the string holds nothing but separators. */
  lemma {:induction false} SplitAllEmpty(s: string, sep: char)
    ensures (forall k :: 0 <= k < |Split(s, sep)| ==> Split(s, sep)[k] == "") <==> (forall k :: 0 <= k < |s| ==> s[k] == sep)
  {
    if s != [] {
      var rest := Split(s[1..], sep);
      SplitAllEmpty(s[1..], sep);
      if s[0] == sep {
        var parts := Split(s, sep);
        assert parts == [""] + rest;
        assert (forall k :: 0 <= k < |parts| ==> parts[k] == "") <==> (forall k :: 0 <= k < |rest| ==> rest[k] == "") by {
          assert forall k :: 1 <= k < |parts| ==> parts[k] == rest[k - 1];
          assert forall k :: 0 <= k < |rest| ==> rest[k] == parts[k + 1];
        }
        assert (forall k :: 0 <= k < |s| ==> s[k] == sep) <==> (forall k :: 0 <= k < |s[1..]| ==> s[1..][k] == sep) by {
          assert forall k :: 1 <= k < |s| ==> s[k] == s[1..][k - 1];
          assert forall k :: 0 <= k < |s[1..]| ==> s[1..][k] == s[k + 1];
        }
      } else {
        assert Split(s, sep)[0] != "";
      }
    }
  }

  /** The first line is `""` exactly for `None` and for docstrings made of line breaks only. */
  lemma FirstLineEmptyIff(data: Option<string>)
    ensures FirstNotEmptyLine(data) == "" <==> data.None? || forall k :: 0 <= k < |data.value| ==> data.value[k] == '\n'
  {
    if data.Some? && data.value != "" {
      SplitAllEmpty(data.value, '\n');
      assert FirstNotEmptyLine(data) == FirstNonEmpty(Split(data.value, '\n'));
    }
  }

  // ---------------------------------------------------------------------------
  // _generate_def_item
  // ---------------------------------------------------------------------------

  /** The column width of an entry, for the padding and for the wrap. */
  const EntryWidth: nat := 70

  /** `"{name}: {first docstring line}"`, the entry before padding. */
  function EntryDesc(name: string, docstring: Option<string>): string {
    name + ": " + FirstNotEmptyLine(docstring)
  }

  /** `f"{desc:70}"`: the entry padded to the entry width. */
  function EntryText(name: string, docstring: Option<string>): string {
    PadRight(EntryDesc(name, docstring), EntryWidth)
  }

  /**
   * The padded entry is at least the entry width, starts with the entry and
   * adds spaces only, so it holds the same non-space text.
   */
  lemma EntryTextShape(name: string, docstring: Option<string>)
    ensures var text := EntryText(name, docstring);
      && |text| >= EntryWidth
      && StartsWith(text, EntryDesc(name, docstring))
      && NonSpace(text) == NonSpace(EntryDesc(name, docstring))
  {
    var desc := EntryDesc(name, docstring);
    var text := PadRight(desc, EntryWidth);
    assert text == desc + text[|desc|..];
    NonSpaceAppend(desc, text[|desc|..]);
    NonSpaceOfSpaces(text[|desc|..]);
  }

  /** The lines `_generate_def_item` appends for a definition: none for a private name. */
  function DefItemLines(name: string, docstring: Option<string>): seq<string> {
    if StartsWith(name, "_") then []
    else Wrap(EntryText(name, docstring), EntryWidth, "- ", "  ")
  }

  /**
   * A private name gives no lines; a public one gives at least one line, none
   * wider than the entry width, the first starting with "- " and the others
   * with "  ", holding (spaces aside) exactly "name: first docstring line".
   */
  lemma DefItemShape(name: string, docstring: Option<string>)
    ensures var lines := DefItemLines(name, docstring);
      && (lines == [] <==> StartsWith(name, "_"))
      && (forall k :: 0 <= k < |lines| ==> |lines[k]| <= EntryWidth)
      && (lines != [] ==> StartsWith(lines[0], "- "))
      && (forall k :: 1 <= k < |lines| ==> StartsWith(lines[k], "  "))
      && (lines != [] ==> NonSpace(Unindent(lines, "- ", "  ")) == NonSpace(EntryDesc(name, docstring)))
  {
    if !StartsWith(name, "_") {
      var text := EntryText(name, docstring);
      assert DefItemLines(name, docstring) == Wrap(text, EntryWidth, "- ", "  ");
      WrapShape(text, EntryWidth, "- ", "  ");
      WrapKeepsText(text, EntryWidth, "- ", "  ");
      EntryTextShape(name, docstring);
      EntryDescHasText(name, docstring);
    }
  }

  /** A definition gives no lines exactly when its name is private. */
  lemma DefItemEmptyIff(name: string, docstring: Option<string>)
    ensures DefItemLines(name, docstring) == [] <==> StartsWith(name, "_")
  {
    if !StartsWith(name, "_") {
      var text := EntryText(name, docstring);
      WrapShape(text, EntryWidth, "- ", "  ");
      EntryTextShape(name, docstring);
      EntryDescHasText(name, docstring);
    }
  }

  /** The entry always holds the colon after the name, so it never wraps to nothing. */
  lemma EntryDescHasText(name: string, docstring: Option<string>)
    ensures NonSpace(EntryDesc(name, docstring)) != []
  {
    var desc := EntryDesc(name, docstring);
    assert desc[|name|] == ':';
    NonSpaceEmpty(desc);
  }

  /**
   * A public entry that fits on one line after "- " gives exactly one line:
   * "- " and the entry without trailing spaces; the padding to 70 columns
   * never shows.
   */
  lemma DefItemOneLine(name: string, docstring: Option<string>)
    requires name != [] && name[0] != '_' && name[0] != ' '
    requires |EntryDesc(name, docstring)| + 2 <= EntryWidth
    ensures DefItemLines(name, docstring) == ["- " + TrimRight(EntryDesc(name, docstring))]
  {
    assert !StartsWith(name, "_") by {
      assert name[..1][0] != "_"[0];
    }
    var desc := EntryDesc(name, docstring);
    assert desc[0] == name[0];
    assert DefItemLines(name, docstring) == Wrap(PadRight(desc, EntryWidth), EntryWidth, "- ", "  ");
    PaddedShortTextOneLine(desc, EntryWidth, "- ", "  ");
  }

  /**
   * A public definition with a one-line docstring that ends in a non-space and
   * fits on the line gives exactly `- name: docstring`, as for
   * `def foo(): """does foo"""`, which gives `- foo: does foo`.
   */
  lemma DefItemShortDocstring(name: string, doc: string)
    requires name != [] && name[0] != '_' && name[0] != ' '
    requires doc != "" && '\n' !in doc && doc[|doc| - 1] != ' '
    requires |name| + |doc| + 4 <= EntryWidth
    ensures DefItemLines(name, Some(doc)) == ["- " + name + ": " + doc]
  {
    FirstLineOfOneLine(doc);
    var desc := EntryDesc(name, Some(doc));
    assert desc == name + ": " + doc;
    assert TrimRight(desc) == desc by {
      assert desc[|desc| - 1] == doc[|doc| - 1];
    }
    DefItemOneLine(name, Some(doc));
    assert "- " + desc == "- " + name + ": " + doc;
  }

  // ---------------------------------------------------------------------------
  // The lists of ModuleNodes and the walk in parse_ast_tree
  // ---------------------------------------------------------------------------

  /** A Python list of strings, appended to in place. */
  class StrList {
    var items: seq<string>

    constructor ()
      ensures items == []
    {
      items := [];
    }

    /** `list.append(x)` */
    method Append(x: string)
      modifies this
      ensures items == old(items) + [x]
    {
      items := items + [x];
    }
  }

  /** `ModuleNodes`: the file's name and timestamps, and the two entry lists the walk fills. */
  class ModuleNodes {
    const filename: string
    const created: string
    const modified: string
    const classes: StrList
    const funces: StrList

    /** The two lists are distinct objects. */
    ghost predicate Valid()
      reads this
    {
      classes != funces
    }

    constructor (filename: string, created: string, modified: string)
      ensures Valid() && fresh(classes) && fresh(funces)
      ensures this.filename == filename && this.created == created && this.modified == modified
      ensures classes.items == [] && funces.items == []
    {
      this.filename := filename;
      this.created := created;
      this.modified := modified;
      classes := new StrList();
      funces := new StrList();
    }
  }

  /** A node of the walk: the node type `ast.dump` starts with, its name and its docstring. */
  datatype WalkedNode = WalkedNode(kind: string, name: string, docstring: Option<string>)

  /** The list a walked node's entries go to. */
  datatype Store = ClassStore | FunctionStore

  /** The head of `ast.dump(node)`: the node type and an opening parenthesis. */
  function DumpHead(node: WalkedNode): (head: string)
    ensures StartsWith(head, node.kind)
    ensures |head| == |node.kind| + 1 && head[|node.kind|] == '('
  {
    node.kind + "("
  }

  /** A prefix without `(` starts a dump head exactly when it starts the node type. */
  lemma DumpHeadPrefix(node: WalkedNode, p: string)
    requires '(' !in p
    ensures StartsWith(DumpHead(node), p) <==> StartsWith(node.kind, p)
  {
    var head := DumpHead(node);
    if |p| <= |node.kind| {
      assert head[..|p|] == node.kind[..|p|];
    } else if |p| == |head| {
      assert p[|node.kind|] != head[|node.kind|];
    }
  }

  /**
   * The dispatch of `parse_ast_tree`: by the prefix of the node's dump, class
   * definitions first. The parenthesis of the dump never decides it.
   */
  function Route(node: WalkedNode): (r: Option<Store>)
    ensures r == Some(ClassStore) <==> StartsWith(node.kind, "ClassDef")
    ensures r == Some(FunctionStore) <==> !StartsWith(node.kind, "ClassDef") && StartsWith(node.kind, "FunctionDef")
  {
    DumpHeadPrefix(node, "ClassDef");
    DumpHeadPrefix(node, "FunctionDef");
    if StartsWith(DumpHead(node), "ClassDef") then Some(ClassStore)
    else if StartsWith(DumpHead(node), "FunctionDef") then Some(FunctionStore)
    else None
  }

  /** The entries a walk leaves in one list: the lines of each node routed there, in walk order. */
  function Entries(walk: seq<WalkedNode>, store: Store): seq<string> {
    if walk == [] then [] else Entries(walk[..|walk| - 1], store) + NodeLines(walk[|walk| - 1], store)
  }

  /** The lines one node contributes to `store`. */
  function NodeLines(node: WalkedNode, store: Store): seq<string> {
    if Route(node) == Some(store) then DefItemLines(node.name, node.docstring) else []
  }

  /** Class and function definitions go to their own list; an async function definition goes nowhere. */
  lemma RouteOfDefinitions(name: string, docstring: Option<string>)
    ensures Route(WalkedNode("ClassDef", name, docstring)) == Some(ClassStore)
    ensures Route(WalkedNode("FunctionDef", name, docstring)) == Some(FunctionStore)
    ensures Route(WalkedNode("AsyncFunctionDef", name, docstring)) == None
  {
    var head := DumpHead(WalkedNode("AsyncFunctionDef", name, docstring));
    assert head[0] == 'A';
    assert head[..8][0] != "ClassDef"[0];
    assert head[..11][0] != "FunctionDef"[0];
  }

  /** One more node of the walk adds that node's lines. */
  lemma EntriesStep(walk: seq<WalkedNode>, i: nat, store: Store)
    requires i < |walk|
    ensures Entries(walk[..i + 1], store) == Entries(walk[..i], store) + NodeLines(walk[i], store)
  {
    assert walk[..i + 1][..i] == walk[..i];
  }

  /** A list stays empty exactly when every node routed to it has a private name. */
  lemma {:induction false} EntriesEmptyIff(walk: seq<WalkedNode>, store: Store)
    ensures Entries(walk, store) == [] <==>
      forall k :: 0 <= k < |walk| && Route(walk[k]) == Some(store) ==> StartsWith(walk[k].name, "_")
  {
    if walk != [] {
      var init, last := walk[..|walk| - 1], walk[|walk| - 1];
      EntriesEmptyIff(init, store);
      DefItemEmptyIff(last.name, last.docstring);
      assert Entries(walk, store) == Entries(init, store) + NodeLines(last, store);
      if forall k :: 0 <= k < |walk| && Route(walk[k]) == Some(store) ==> StartsWith(walk[k].name, "_") {
        forall k | 0 <= k < |init| && Route(init[k]) == Some(store)
          ensures StartsWith(init[k].name, "_")
        {
          assert init[k] == walk[k];
        }
        assert Route(walk[|walk| - 1]) == Some(store) ==> StartsWith(walk[|walk| - 1].name, "_");
      } else {
        if Route(last) == Some(store) && !StartsWith(last.name, "_") {
          assert NodeLines(last, store) == DefItemLines(last.name, last.docstring);
        } else {
          var k :| 0 <= k < |walk| && Route(walk[k]) == Some(store) && !StartsWith(walk[k].name, "_");
          assert k != |walk| - 1;
          assert init[k] == walk[k];
        }
      }
    }
  }

  /** Every entry of a list is a line of a public node the walk routed to that list. */
  lemma {:induction false} EntriesFromPublicNodes(walk: seq<WalkedNode>, store: Store, k: nat)
    requires k < |Entries(walk, store)|
    ensures exists i ::
      && 0 <= i < |walk| && Route(walk[i]) == Some(store) && !StartsWith(walk[i].name, "_")
      && Entries(walk, store)[k] in DefItemLines(walk[i].name, walk[i].docstring)
  {
    var init, last := walk[..|walk| - 1], walk[|walk| - 1];
    var before := Entries(init, store);
    assert Entries(walk, store) == before + NodeLines(last, store);
    if k < |before| {
      assert Entries(walk, store)[k] == before[k];
      EntriesFromPublicNodes(init, store, k);
      var i :| 0 <= i < |init| && Route(init[i]) == Some(store) && !StartsWith(init[i].name, "_") &&
        before[k] in DefItemLines(init[i].name, init[i].docstring);
      assert init[i] == walk[i];
    } else {
      assert Entries(walk, store)[k] == NodeLines(last, store)[k - |before|];
      DefItemEmptyIff(last.name, last.docstring);
      assert Route(walk[|walk| - 1]) == Some(store);
    }
  }

  /**
   * `_generate_def_item(node, store)`: for a public name, the wrapped entry
   * lines are appended to `store`; for a private one `store` is unchanged.
   */
  method GenerateDefItem(node: WalkedNode, store: StrList)
    modifies store
    ensures store.items == old(store.items) + DefItemLines(node.name, node.docstring)
  {
    var docstring := FirstNotEmptyLine(node.docstring);
    var desc := node.name + ": " + docstring;
    if !StartsWith(node.name, "_") {
      desc := PadRight(desc, EntryWidth);
      assert desc == EntryText(node.name, node.docstring);
      var lines := Wrap(desc, EntryWidth, "- ", "  ");
      for k := 0 to |lines|
        invariant store.items == old(store.items) + lines[..k]
      {
        store.Append(lines[k]);
        assert lines[..k + 1] == lines[..k] + [lines[k]];
      }
      assert lines[..|lines|] == lines;
    }
  }

  /**
   * `parse_ast_tree` after the file is read and parsed: a fresh `ModuleNodes`
   * whose lists hold the entries of the class and function definitions of the
   * walk, in walk order.
   */
  method ParseAstTree(filename: string, created: string, modified: string, walk: seq<WalkedNode>)
    returns (moduleNodes: ModuleNodes)
    ensures fresh(moduleNodes) && moduleNodes.Valid()
    ensures moduleNodes.filename == filename && moduleNodes.created == created && moduleNodes.modified == modified
    ensures moduleNodes.classes.items == Entries(walk, ClassStore)
    ensures moduleNodes.funces.items == Entries(walk, FunctionStore)
  {
    moduleNodes := new ModuleNodes(filename, created, modified);
    for i := 0 to |walk|
      invariant moduleNodes.classes.items == Entries(walk[..i], ClassStore)
      invariant moduleNodes.funces.items == Entries(walk[..i], FunctionStore)
    {
      var node := walk[i];
      EntriesStep(walk, i, ClassStore);
      EntriesStep(walk, i, FunctionStore);
      var astDumps := DumpHead(node);
      if StartsWith(astDumps, "ClassDef") {
        GenerateDefItem(node, moduleNodes.classes);
      } else if StartsWith(astDumps, "FunctionDef") {
        GenerateDefItem(node, moduleNodes.funces);
      }
    }
    assert walk[..|walk|] == walk;
  }
}
