# cmtprinter core in Dafny

cmtprinter prints a boxed comment header for a Python module. The header holds:

- the file name;
- an optional description;
- the module's timestamps;
- the git user name;
- a fixed change log;
- one block listing the public functions and one listing the public classes, each entry being the definition's name and the first line of its docstring.

This project models the string and list logic of `cmtprinter/core.py` and proves properties of it.

- `strings.dfy` (module `Strings`): the Python string operations the core relies on. These are `startswith`, `" " * n`, `s * n`, left-justified padding, `split`, `join`, `splitlines` (with Python's full set of line boundaries) and `strip` (with Python's full set of whitespace).
- `textwrap.dfy` (module `TextWrap`): a greedy word wrap. It stands in for `cjkwrap.wrap`.
- `extractor.dfy` (module `Extractor`): the first non-empty docstring line, the wrapped entry of one definition, and the walk of `parse_ast_tree`. The walk routes class and function definitions into the two lists of a `ModuleNodes` object. The lists are `StrList` objects appended to in place.
- `dumper.dfy` (module `Dumper`): `dump_module_nodes`. Each list becomes a block: a header, then one indented line per entry.
- `renderer.dfy` (module `Renderer`): the rows `print_table` hands to the table drawer, and `_redraw_the_header_line`.

The methods follow the source's loops and in-place updates. `GenerateDefItem`, `ParseAstTree`, `DumpModuleNodes`, `BuildBaseInfo`, `TableData` and `RedrawHeaderLine` are each proved equal to a specification function. The lemmas prove the properties of those functions.

## Model

| member | source | states |
|---|---|---|
| Extractor.FirstNonEmpty | cmtprinter/core.py:136-138 | The result is `""` exactly when every segment is empty. Otherwise it is the first non-empty segment. |
| Extractor.FirstNotEmptyLine | cmtprinter/core.py:132-138 | The first line never contains `"\n"`. A non-empty result is one of the `"\n"`-segments of the docstring. |
| Extractor.FirstLineIsFirstSegment | cmtprinter/core.py:136-138 | For a docstring, the result is its first non-empty segment. A segment of spaces counts as non-empty. |
| Extractor.FirstLineOfOneLine | cmtprinter/core.py:132-138 | A non-empty docstring without a newline is its own first line. |
| Extractor.SplitAllEmpty | cmtprinter/core.py:136 | Every `split` segment is empty exactly when the string is made only of separators. |
| Extractor.FirstLineEmptyIff | cmtprinter/core.py:132-138 | The first line is `""` exactly for `None` and for docstrings made only of newlines, the empty docstring included. |
| Extractor.EntryTextShape | cmtprinter/core.py:120-122 | The padded entry is at least 70 characters long. It starts with `name: first line` and adds only spaces. |
| Extractor.DefItemEmptyIff | cmtprinter/core.py:121-129 | A definition appends no lines exactly when its name starts with `_`. |
| Extractor.EntryDescHasText | cmtprinter/core.py:120 | The entry always holds a non-space character (the colon). |
| Extractor.DefItemShape | cmtprinter/core.py:120-129 | A private name gives no lines. A public one gives lines at most 70 wide. The first starts with `- ` and every later one with two spaces. Spaces aside, together they hold exactly `name: first line`. |
| Extractor.DefItemOneLine | cmtprinter/core.py:122-128 | A public entry that fits after `- ` gives exactly one line: `- ` and the entry without trailing spaces. The padding never shows. |
| Extractor.DefItemShortDocstring | cmtprinter/core.py:116-129 | A public name with a short one-line docstring gives the single line `- name: docstring`. |
| Extractor.StrList.constructor | cmtprinter/core.py:82-83 | A new list is empty. |
| Extractor.StrList.Append | cmtprinter/core.py:129 | `append` adds the item at the end and keeps the earlier items. |
| Extractor.ModuleNodes.constructor | cmtprinter/core.py:99-103 | The record holds the given name and times and two fresh, distinct, empty lists. |
| Extractor.DumpHead | cmtprinter/core.py:108 | The head of `ast.dump(node)` is the node type followed by `(`. |
| Extractor.DumpHeadPrefix | cmtprinter/core.py:109-111 | A prefix without `(` starts the dump exactly when it starts the node type. |
| Extractor.Route | cmtprinter/core.py:108-112 | The `startswith` dispatch on the dump. A node goes to `classes` exactly when its type starts with `ClassDef`. It goes to `funces` exactly when its type does not start with `ClassDef` but starts with `FunctionDef`. Otherwise it goes nowhere. |
| Extractor.RouteOfDefinitions | cmtprinter/core.py:108-112 | Class definitions go to `classes` and function definitions to `funces`. Async function definitions go to neither list. |
| Extractor.EntriesEmptyIff | cmtprinter/core.py:107-112 | A list stays empty exactly when every node routed to it has a private name. |
| Extractor.EntriesFromPublicNodes | cmtprinter/core.py:107-112 | Every entry of a list is a line of a public node that the walk routed to that list. |
| Extractor.GenerateDefItem | cmtprinter/core.py:116-129 | The store becomes its old contents followed by the definition's lines. For a private name, nothing is appended. |
| Extractor.ParseAstTree | cmtprinter/core.py:99-113 | The result is a fresh record with the given name and times. Each list holds the entries of the nodes routed to it, in walk order. |
| TextWrap.Wrap | cmtprinter/core.py:123-128 | The stand-in for `cjkwrap.wrap(text, width, initial_indent, subsequent_indent)`: a greedy wrap at spaces. No line is wider than `width`. |
| TextWrap.WrapShape | cmtprinter/core.py:123-128 | The wrap of the stand-in gives no lines exactly for blank text. No line is wider than the width. The first line carries the initial indent and every later one the subsequent indent. |
| TextWrap.WrapKeepsText | cmtprinter/core.py:123-128 | With the indents removed, the wrapped lines hold the same non-space characters, in the same order. |
| TextWrap.PaddedShortTextOneLine | cmtprinter/core.py:122-128 | Short text padded to the width wraps to one line: the indent and the text without trailing spaces. |
| Strings.StartsWith | cmtprinter/core.py:109-121 | `s.startswith(p)`: `p` is no longer than `s` and is its prefix. It has no contract; `DumpHeadPrefix` and `DefItemEmptyIff` state its use. |
| Strings.PadRight | cmtprinter/core.py:122 | `f"{s:70}"` is at least 70 long. It starts with `s` and pads with spaces only. |
| Strings.Split | cmtprinter/core.py:136 | `split` gives at least one segment, and no segment holds the separator. |
| Strings.JoinSplit | cmtprinter/core.py:136 | Joining the segments of a split gives back the string. |
| Strings.SplitJoin | cmtprinter/core.py:218 | Splitting a join of separator-free parts gives back the parts. |
| Strings.Join | cmtprinter/core.py:218 | `sep.join(parts)`: the parts with one separator between each two. It has no contract; `JoinSplit`, `SplitJoin` and `JoinSplitLines` relate it to the splits. |
| Strings.IsLineBoundary | cmtprinter/core.py:212 | Python's full set of `splitlines` boundaries: `\n`, `\r`, `\v`, `\f`, `\x1c`-`\x1e`, `\x85`, U+2028 and U+2029. `\n` and `\r` end a line; space and tab do not. |
| Strings.BoundaryLength | cmtprinter/core.py:212 | A boundary is two characters for `"\r\n"` and one for any other. |
| Strings.SplitLines | cmtprinter/core.py:212 | `splitlines` gives lines without boundaries. It gives no lines exactly for the empty text. `JoinSplitLines` ties the lines back to the text. |
| Strings.SplitLinesJoin | cmtprinter/core.py:212-218 | Non-empty, boundary-free lines joined with `"\n"` split back into the same lines. |
| Strings.JoinSplitLines | cmtprinter/core.py:212-218 | When every line boundary of the text is `"\n"`, joining its lines with `"\n"` gives back the text, apart from a final `"\n"`, which opens no line. |
| Strings.IsWhitespace | cmtprinter/core.py:181 | Python's full `isspace` set behind `strip()`. Space and every line boundary are whitespace. No printable ASCII character other than space is. |
| Strings.Strip | cmtprinter/core.py:181 | `strip` gives the middle of the text between its leading and trailing whitespace. Its ends are not whitespace. |
| Strings.RepeatLength | cmtprinter/core.py:216 | `s * n` is `n` times as long as `s`. |
| Dumper.IndentSpaces | cmtprinter/core.py:161 | `" " * indent` has `indent` spaces, and none for a negative indent. |
| Dumper.IndentedLines | cmtprinter/core.py:160-161 | There is one indented line per entry, in list order, each being the pad and the entry. |
| Dumper.DumpModuleNodes | cmtprinter/core.py:141-169 | The result copies the file name and both times. Each list's key holds that list's block. |
| Dumper.BlockEmptyIff | cmtprinter/core.py:158 | A block is `""` exactly when its list is empty. |
| Dumper.IndentedItemsJoin | cmtprinter/core.py:159-161 | The header line and the entries, each ended by a newline, are the `"\n"`-join of those lines followed by an empty segment. |
| Dumper.BlockLines | cmtprinter/core.py:154-161 | A non-empty block splits into the header line, one indented line per entry in order, and the empty segment after the last newline: `len(items) + 2` segments. |
| Renderer.BuildBaseInfo | cmtprinter/core.py:190-196 | The base information text is its lines joined by newlines, with no newline at the end. |
| Renderer.TableData | cmtprinter/core.py:180-199 | The rows are the base information, the change log, then the stripped functions block and the stripped classes block, each only if non-empty. |
| Renderer.BaseInfoSplit | cmtprinter/core.py:190-196 | When no field holds a newline, the base information splits back into its lines. |
| Renderer.DescriptionLineIff | cmtprinter/core.py:191-192 | The base information has 6 lines with a description and 5 without. The second line is `Description: desc` exactly when the description is non-empty. |
| Renderer.CreatedTimeShowsModified | cmtprinter/core.py:193 | The "Created Time" line shows the modification time. The rows do not depend on the creation time. |
| Renderer.TableRowsShape | cmtprinter/core.py:180-199 | There are two fixed rows, then one row per non-empty block, functions before classes. Every row has one cell. |
| Renderer.StripBlock | cmtprinter/core.py:181 | Stripping a block whose header starts, and whose last entry ends, with non-whitespace drops only the final newline. |
| Renderer.OnlyFixedRowsIff | cmtprinter/core.py:180-184 | For a record filled by the walk, the table has only its two fixed rows exactly when no class or function definition has a public name. |
| Renderer.NonEmptyLines | cmtprinter/core.py:212-213 | The kept lines are never empty and are no more than the input lines. |
| Renderer.NonEmptyLinesMembers | cmtprinter/core.py:212-213 | A line is kept exactly when it is a non-empty line of the input. |
| Renderer.NonEmptyLinesOfNonEmpty | cmtprinter/core.py:212-213 | Lines that are all non-empty are kept unchanged. |
| Renderer.RedrawHeaderLine | cmtprinter/core.py:209-218 | The output is the non-empty lines, the first one redrawn, joined by newlines. |
| Renderer.RedrawnShape | cmtprinter/core.py:213-217 | There is one output line per non-empty input line. The first is the table character repeated to the first line's length, so `len(tablechar) * len(line)` long. The later lines are unchanged and in order. |
| Renderer.RedrawRoundTrip | cmtprinter/core.py:212-218 | When the table character is non-empty and has no line boundary, the output splits back into exactly the redrawn lines. |
| Renderer.RedrawNoTrailingNewline | cmtprinter/core.py:218 | When the table character has no line boundary, the output never ends with a line boundary. |
| Renderer.RedrawIdempotent | cmtprinter/core.py:209-218 | With a one-character table character, redrawing a second time changes nothing. |

## Left out

- `ast.parse`, `ast.walk`, `ast.dump` and `ast.get_docstring` (the CPython parser and `inspect.cleandoc`). The walk is given as a sequence of nodes, each with its node type, name and docstring. The head of `ast.dump(node)` is modelled as the node type followed by `(`.
- `cjkwrap.wrap` is replaced by a greedy word wrap over characters of width one. The stand-in differs from it in these ways:
  - it does not measure East Asian wide characters;
  - it does not break after hyphens;
  - it does not turn tabs and other whitespace into spaces;
  - it drops leading spaces on the first line, which the entries never have;
  - it handles a word longer than the whole line differently when other words come before it. textwrap's long-word handling fills the rest of the current line with the head of the word. The stand-in breaks after the earlier words and moves the word down. So a first docstring line holding a token of more than 68 characters wraps differently. For `def f(): """<70 x's>"""`, the source gives two lines: `- f: ` followed by 65 x's, then two spaces and 5 x's. The model gives three lines: `- f:`, then two spaces and 68 x's, then two spaces and 2 x's.
- Extractor.DefItemShape: states the line layout and content for the stand-in wrap, not for `cjkwrap` itself.
- TextWrap.Wrap: its contract and the wrap lemmas hold for the stand-in, not for `cjkwrap` itself.
- The file's `stat`, `read_text`, `datetime.fromtimestamp` and `strftime`: I/O and calendar formatting. `ModuleNodes` holds the two times as already formatted strings.
- The `~/.gitconfig` lookup through `git.GitConfigParser`: I/O through a foreign library. The user name is a parameter.
- `Texttable` drawing and `print`: a foreign table library and standard output. `RedrawHeaderLine` takes the drawn table as text, and `TableData` returns the rows given to the drawer.
- `cmtprinter/main.py`: argument parsing and wiring only. It is not part of this model.
- The tests give no property to model:
  - `tests/test_main.py:6-9` calls `parse_ast_tree`, `dump_module_nodes` and `print_table` but asserts nothing, and it calls `print_table` with one argument where three are required;
  - `tests/test_cmtprinter.py` checks only the version string and exercises the standard library's `textwrap`.
- The unused `ast.NodeVisitor()` at `cmtprinter/core.py:106` has no effect and is not modelled.
