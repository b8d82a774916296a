# StringUtils text nodes, modelled in Dafny

This project models the three text nodes of the ComfyUI StringUtils plug-in (`nodes.py`). It proves what each node does to its input.

- **Prompt Normalizer** (`PromptNormalizer.execute`) applies seven regular-expression substitutions in turn:
  1. cut `//` and `#` comments to the end of their line;
  2. turn every CRLF, LF or CR into one space;
  3. remove `/* ... */` comments, leftmost and shortest first;
  4. collapse runs of two or more spaces into one;
  5. strip the spaces at both ends of each line;
  6. drop a comma at the end of a line;
  7. when `remove_comma` is set, delete every comma.
- **String Splitter** (`StringSplitter.execute`) cuts the text at each occurrence of a literal delimiter. Each segment then goes through the same space trim and, when `remove_last_comma` is set, loses the comma at each of its line ends. Each cleaned segment is appended to the result, followed by `"\n"`. The node returns that text together with the number of segments.
- **String Line Selector** (`StringSelector.execute`) cuts the text at each `'\n'` and returns line `line_num mod (number of lines)`.

Each substitution is a left-to-right scan over `seq<char>`, written by hand to follow Python's `re.sub`:

- matches do not overlap, and the leftmost match wins;
- `.` stops at `'\n'` but not at `'\r'`;
- `\r\n|\n|\r` tries CRLF first;
- under `re.MULTILINE`, `^` holds at the start and after each `'\n'`, and `$` holds before each `'\n'` and at the end;
- `( +)` trims only the space character, so tabs stay.

Python's `str.find`, `str.split` and `str.join` are modelled in `PyStr`.

The files are:

| file | contents |
|---|---|
| `wrappers.dfy` | `Option` and `Result` |
| `pystr.dfy` | `str.find`, `str.split`, `str.join` |
| `rewrites.dfy` | the scans, one per substitution |
| `rewrite_laws.dfy` | laws of each scan: per line, on one line, and as the identity where nothing matches |
| `normalizer.dfy` | the normalizer pipeline and its properties |
| `normalizer_examples.dfy` | worked inputs of the normalizer |
| `splitter.dfy` | the splitter, a method with the source's loop, proved against `Render` |
| `selector.dfy` | the selector |
| `chaining.dfy` | the splitter's output read by the selector |

## Model

| member | source | states |
|---|---|---|
| PyStr.Find | nodes.py:51 | a found index is an occurrence of the separator |
| PyStr.FindLeast | nodes.py:51 | the index found is the least occurrence; no result means the separator occurs nowhere |
| PyStr.Split | nodes.py:51 | `str.split` with a non-empty separator always yields at least one piece |
| PyStr.SplitFirst | nodes.py:51 | at the first occurrence, the text is the first piece, the separator and the rest, and splitting goes on from the rest |
| PyStr.JoinSplit | nodes.py:51 | joining the pieces with the separator gives back the input |
| PyStr.OccurrencesFromFind | nodes.py:51 | the left-to-right count of non-overlapping occurrences starts at the first occurrence `find` reports |
| PyStr.SplitCount | nodes.py:51 | the number of pieces is the number of non-overlapping occurrences plus one |
| PyStr.SplitPiecesFree | nodes.py:51 | no piece contains the separator, and the first piece is everything before the first occurrence |
| PyStr.SplitChars | nodes.py:51 | every character of every piece comes from the input |
| PyStr.SplitWhole | nodes.py:76 | a text splits into itself alone if and only if the separator does not occur in it |
| PyStr.SplitAtFirst | nodes.py:76 | a one-character separator cuts at its first occurrence |
| Rewrites.Without | nodes.py:28 | the removed character is gone, nothing gets longer, and every other character is present exactly when it was before |
| Rewrites.WithoutAppend | nodes.py:28 | deleting a character distributes over concatenation |
| Rewrites.WithoutAbsent | nodes.py:28 | deleting a character that does not occur changes nothing |
| Rewrites.SkipToEol | nodes.py:21 | `.*` consumes a prefix and stops at a `'\n'` or at the end |
| Rewrites.StripLineComments | nodes.py:21 | the result is never longer than the input and contains no `#` |
| Rewrites.MarkerIndex | nodes.py:21 | the index of the first `//` or `#`, or the length when there is none |
| Rewrites.LineBreaksToSpaces | nodes.py:22 | no `'\n'` or `'\r'` remains, nothing gets longer, and each character is a space or comes from the input |
| Rewrites.CloseOffset | nodes.py:23 | the lazy `.*?\*/` ends at the first `*/` with no `'\n'` before it, and fails exactly when every `*/` has a `'\n'` before it |
| Rewrites.RemoveBlockComments | nodes.py:23 | nothing gets longer, and every character comes from the input; the laws `BlockCommentsIdentity`, `BlockCommentRemoved` and `BlockCommentUnclosed` below fix the result for text without an opener, with a closed opener and with an unclosed one |
| Rewrites.LeadingSpaces | nodes.py:24 | the length of the leading run of spaces |
| Rewrites.CollapseSpaces | nodes.py:24 | no two adjacent spaces remain, the first character is kept, nothing gets longer, and every character comes from the input |
| Rewrites.TrimFrom | nodes.py:25 | the trim never lengthens the text |
| Rewrites.TrailingStart | nodes.py:25 | where the trailing run of spaces begins |
| Rewrites.StripSpaces | nodes.py:25 | the result neither starts nor ends with a space |
| Rewrites.DropEolCommas | nodes.py:26 | the `,$` scan never lengthens the text |
| RewriteLaws.StripLineCommentsHead | nodes.py:21 | the result starts with the input's first character or with a `'\n'` |
| RewriteLaws.StripLineCommentsNoDoubleSlash | nodes.py:21 | no `//` survives line 21 |
| RewriteLaws.StripLineCommentsLine | nodes.py:21 | on one line, line 21 keeps exactly the text before the first comment marker |
| RewriteLaws.SkipToEolLine | nodes.py:21 | on the last line, a comment runs to the end of the text |
| RewriteLaws.StripLineCommentsWholeLine | nodes.py:21 | a line that starts with a comment marker is removed whole |
| RewriteLaws.SkipToEolPast | nodes.py:21 | a comment stops at the `'\n'` that ends its line, and keeps it |
| RewriteLaws.StripLineCommentsPerLine | nodes.py:21 | line 21 treats each line on its own and keeps every `'\n'` |
| RewriteLaws.StripLineCommentsIdentity | nodes.py:21 | text with no `#` and no `//` passes line 21 unchanged |
| RewriteLaws.LineBreaksIdentity | nodes.py:22 | text with no line terminator passes line 22 unchanged |
| RewriteLaws.LineBreakReplaced | nodes.py:22 | each CRLF, LF or lone CR becomes one space, and the text around it is kept |
| RewriteLaws.BlockCommentsIdentity | nodes.py:23 | text with no `/*` passes line 23 unchanged |
| RewriteLaws.CloseOffsetFirst | nodes.py:23 | the first `*/` after an opener ends the match when no `'\n'` is before it |
| RewriteLaws.BlockCommentRemoved | nodes.py:23 | the first opener goes together with the first closer after it, and the scan goes on after that closer |
| RewriteLaws.BlockCommentUnclosed | nodes.py:23 | an opener with no closer after it on its line is no match: its `/` is kept and the scan goes on from the `*` |
| RewriteLaws.WithoutSkipSpaces | nodes.py:24 | skipping leading spaces changes no character other than a space |
| RewriteLaws.CollapseSpacesKeepsOthers | nodes.py:24 | collapsing removes only spaces: the other characters stay, in order |
| RewriteLaws.CollapseSpacesIdentity | nodes.py:24 | text with no two adjacent spaces passes line 24 unchanged |
| RewriteLaws.CollapseSpacesSplit | nodes.py:24 | text cut anywhere outside a run of spaces collapses part by part |
| RewriteLaws.CollapseSpacesRun | nodes.py:24 | a run of spaces of any length becomes one space |
| RewriteLaws.LeadingSpacesUnique | nodes.py:24 | the three facts about the leading run determine its length |
| RewriteLaws.TrailingStartUnique | nodes.py:25 | the three facts about the trailing run determine its start |
| RewriteLaws.TrimFromMidLine | nodes.py:25 | away from a line start, on one line, the trim removes only the trailing spaces |
| RewriteLaws.TrimSingleLine | nodes.py:25 | on one line, `(^ +\| +$)` is `str.strip(' ')` |
| RewriteLaws.StripSpacesInfix | nodes.py:25 | `strip(' ')` keeps a contiguous middle part, and only spaces stand on either side of it |
| RewriteLaws.StripSpacesInner | nodes.py:25 | `strip(' ')` adds no character and no adjacent pair |
| RewriteLaws.LeadingSpacesAppend | nodes.py:54 | appending text leaves the leading run alone, unless the run is all of the text and the appended text starts with a space |
| RewriteLaws.TrimPerLine | nodes.py:54 | the trim treats each line on its own and keeps every `'\n'` |
| RewriteLaws.StripSpacesIdentity | nodes.py:25 | a line with no space at either end is unchanged by the trim |
| RewriteLaws.StripSpacesOneTrailing | nodes.py:25 | one trailing space after such a line is removed |
| RewriteLaws.DropEolCommasSingleLine | nodes.py:26 | on one line, `,$` removes only a comma that is the last character |
| RewriteLaws.DropLastCommaCons | nodes.py:26 | dropping a final comma does not touch the head |
| RewriteLaws.DropEolCommasPerLine | nodes.py:56 | `,$` treats each line on its own and keeps every `'\n'` |
| Normalizer.CollapsedShape | nodes.py:21-24 | after line 24 the text has no `'\n'`, `'\r'` or `#`, no two adjacent spaces, and is no longer than the input |
| Normalizer.CleanedShape | nodes.py:25 | after line 25 it is `strip(' ')` of that one line, so it neither starts nor ends with a space and keeps the facts above |
| Normalizer.NormalizeFinalComma | nodes.py:26 | line 26 removes at most one comma, and only the last character, because the text is one line by then |
| Normalizer.NormalizeCharacters | nodes.py:21-28 | the output has no `'\n'`, `'\r'` or `#`, and with `remove_comma` no `,` |
| Normalizer.NormalizeSpacing | nodes.py:24-26 | without `remove_comma` the output has no two adjacent spaces and does not start with a space |
| Normalizer.NormalizeNotLonger | nodes.py:20-29 | the output is never longer than the input, and empty input gives empty output |
| Normalizer.NormalizeFromCollapsed | nodes.py:25-28 | lines 25-28 depend only on the outcome of lines 21-24 |
| Normalizer.CollapsedIdentity | nodes.py:21-24 | one-line text with no comment marker and no two adjacent spaces passes lines 21-24 unchanged |
| Normalizer.NormalizeStable | nodes.py:20-29 | clean one-line text with no space at either end and no final comma is a fixpoint of the node, also with `remove_comma` when it has no comma |
| NormalizerExamples.ExampleJoinLines | nodes.py:20-29 | `"a,\nb,"` gives `"a, b"`: the inner comma survives because the lines are joined first |
| NormalizerExamples.ExampleBlockComments | nodes.py:20-29 | `"x /*a*/ y /*b*/ z"` gives `"x y z"` |
| NormalizerExamples.ExampleUnclosedBlock | nodes.py:23 | `"a /* b"` passes line 23 unchanged: no closer follows the opener |
| NormalizerExamples.ExampleCommentLine | nodes.py:20-29 | `"a, \n b,\n# comment\nc"` gives `"a, b, c"` |
| NormalizerExamples.ExampleCarriageReturnInComment | nodes.py:21-22 | `"a #c\rb"` gives `"a"`: `.` matches a lone CR, so the comment eats the next line |
| NormalizerExamples.ExampleNotIdempotent | nodes.py:25-26 | `"a ,"` gives `"a "`, which gives `"a"`: the node is not idempotent |
| NormalizerExamples.ExampleRemoveCommaInner | nodes.py:24-28 | `"a , b"` with `remove_comma` gives `"a  b"`: commas go after the spaces are collapsed |
| Splitter.Execute | nodes.py:50-59 | an error exactly for the empty delimiter; otherwise the loop's text is `Render` of the pieces; the count is the number of pieces, which is one more than the number of delimiter occurrences; the text is non-empty and ends in `"\n"`; with the declared default delimiter `""` the result is the error |
| Splitter.RenderEndsWithNewline | nodes.py:57 | with at least one segment the output ends in `"\n"` and has at least one character per segment |
| Splitter.RenderLength | nodes.py:57 | the output has at least one character per segment |
| Splitter.RenderAppend | nodes.py:53-57 | two batches of segments render one after the other |
| Splitter.JoinSnoc | nodes.py:57 | joining with one more piece at the end adds the separator and that piece |
| Splitter.CleanAllSnoc | nodes.py:53-56 | cleaning one more segment adds its cleaned form at the end |
| Splitter.RenderIsJoin | nodes.py:53-57 | the output is the cleaned segments joined by `"\n"`, plus one final `"\n"` |
| Splitter.CleanSingleLine | nodes.py:54-56 | a one-line segment is `strip(' ')`-ed, and then loses at most its final comma |
| Splitter.CleanSegmentOneLine | nodes.py:54-56 | cleaning a one-line segment keeps it on one line |
| Splitter.CleanPerLine | nodes.py:54-56 | a segment of several lines is cleaned line by line |
| Splitter.ExampleCommaAfterSpace | nodes.py:54-56 | `"a ,"` becomes `"a "` because the trim runs first, and `"\ta\t "` becomes `"\ta\t"` because tabs are kept |
| Splitter.ExampleTrailingDelimiter | nodes.py:50-59 | `"a, b, c,"` split at `","` with `remove_last_comma` gives `"a\nb\nc\n\n"` from 4 segments |
| Selector.SelectPicksLine | nodes.py:76-82 | there is always at least one line, one more than the number of `'\n'`, so the `len(lines) == 0` branch is dead; the result is line `line_num mod count` |
| Selector.LinesJoin | nodes.py:76 | the lines joined with `'\n'` give back the text |
| Selector.SelectNoNewline | nodes.py:76-82 | the result contains no `'\n'`, and all its characters come from the text |
| Selector.SelectEachLine | nodes.py:82 | an index below the line count selects that very line |
| Selector.SelectPeriodic | nodes.py:82 | selection is periodic in `line_num`, with the line count as the period |
| Selector.SelectSingleLine | nodes.py:76-82 | the text has no `'\n'` if and only if it is its only line, and then it is returned for every `line_num` |
| Selector.ExampleCarriageReturn | nodes.py:76 | `'\r'` is no separator: `"a\rb"` is one line, and CRLF text splits at the LF only |
| Selector.ExampleWrapAround | nodes.py:82 | index 5 of `"line0\nline1\nline2"` is `"line2"` |
| Chaining.SplitClosedJoin | nodes.py:57 | one-line pieces joined by `'\n'` and closed by one more `'\n'` split back into those pieces and one empty line |
| Chaining.SelectSplitterOutput | nodes.py:53-57 | when no segment spans several lines, the selector reads the splitter's output as the cleaned segments plus an empty last line, so line `k` is segment `k` cleaned |

## Left out

- `INPUT_TYPES`, `RETURN_TYPES`, `RETURN_NAMES`, `OUTPUT_IS_LIST`, `FUNCTION` and `CATEGORY` (nodes.py:4-18, 32-48, 62-73) are declarations for the host application and are not modelled. Two facts are kept from them. `line_num` has a minimum of 0, so it is a `nat`. The delimiter default is `""`, which is `Splitter.DefaultDelimiter`; `Splitter.Execute` states that it gives the error.
- `NODE_CLASS_MAPPINGS` and `NODE_DISPLAY_NAME_MAPPINGS` (nodes.py:89-101) are lookup tables for the host and are not modelled.
- Python's `re` engine is not modelled in general. Only the seven patterns the nodes use are modelled, each as its own scan.
- The `sys.maxsize` bound on `line_num` is not modelled. `nat` is unbounded, and Dafny's `%` agrees with Python's for non-negative operands.
- `ValueError` for an empty delimiter is modelled as the value `Err(EmptySeparator)`, not as an exception.

## Behaviour worth noting

- **Commas before inner line breaks survive.** `"a, \n b,\n# comment\nc"` gives `"a, b, c"`. Line 26 runs after line 22 has joined the lines, so only the final comma is at a line end (`NormalizerExamples.ExampleCommentLine`).
- **The normalizer is not idempotent.** `"a ,"` gives `"a "`, and that gives `"a"` (`NormalizerExamples.ExampleNotIdempotent`). The fixpoints that do exist are stated by `Normalizer.NormalizeStable`.
- **A trailing delimiter leaves an empty last segment.** `"a, b, c,"` split at `","` gives `"a\nb\nc\n\n"` with count 4: the empty fourth segment still gets its `"\n"` and is counted (`Splitter.ExampleTrailingDelimiter`).
- **The default delimiter fails.** The declared default delimiter is `""`, and Python's `str.split("")` raises `ValueError`, so with the default the node fails. That is `Splitter.Execute`'s error outcome.
