# md2gov_docx in Dafny

This project models the converter in `md2gov_docx.py`. The converter reads a
Markdown text line by line and builds a Word document laid out in the house
style for Chinese government documents (公文). The first `#` heading becomes
the centred title in 方正小标宋简体, followed by an empty paragraph. `##`,
`###` and `####` headings become 黑体 / 楷体 bold / 楷体 paragraphs, with
their Markdown marks cleaned away. List items and body text become 仿宋
paragraphs. Their leading enumeration marker (`一、`, `1.`, `（一）`) loses the
blank that follows it, and `**bold**` and `*italic*` turn into formatted
runs. A pipe line followed by a separator row starts a table, which is
captured up to the first blank or pipe-free line. Blank lines and horizontal
rules are skipped.

The model has seven modules:

- `Text`: Python's whitespace, `str.strip` and `str.split`.
- `Patterns`: the regular expressions of the converter, written out as
  functions. Each is proved to give the match Python's `re` engine gives:
  lazy `(.+?)` groups that never cross a newline, greedy `\s+` runs, and
  leftmost `search`.
- `Inline`: `parse_inline_format`, as a scanning function plus the loop
  itself as a method proved equal to it.
- `Transforms`: `remove_number_space`, `clean_markdown_marks` and
  `parse_table_row`.
- `Styles`: the font, size, spacing and margin constants and the two format
  helpers. It also holds the converter's layout table, one row per
  structural role (title, heading levels, list item, body, table header and
  data cells), and the builder is proved to follow it.
- `Document`: the output document as a class whose list of blocks only
  grows, plus `add_formatted_text` and `add_table_to_doc` (the latter fills a
  two-dimensional array of cells).
- `Builder`: the line loop of `convert_markdown_to_gov_docx`. `Build` is a
  function and `ConvertMarkdownToGovDocx` is a method over a `Document`
  proved to produce it.

Lengths are kept as whole tenths of a point (三号 16pt is `160`, 28.8pt line
spacing is `288`). Page margins are whole millimetres.

## Notes on behaviour

- `remove_number_space` (lines 48 and 165-172) deletes the whole run of
  whitespace after the marker, because its pattern ends in a greedy `\s+`.
- `remove_number_space` is idempotent. `"1. 2. x"` becomes `"1.2. x"`, and
  that is a fixed point, because `\d+\.` then ends at `"1."` and is followed
  by a digit, not by whitespace.
- Inside `parse_inline_format` (lines 126-162), a bold match at a position is
  always also an italic match there. So the nearest marker is simply the
  nearest italic match, and the branch that emits a single character (lines
  158-160) is never taken. `Inline.NextTurn` keeps that branch and proves it
  unreachable.

## Model

| member | source | states |
|---|---|---|
| Text.Strip | md2gov_docx.py:325 | `str.strip()`: the result has no leading or trailing Python whitespace and is no longer than the input |
| Text.StripMeaning | md2gov_docx.py:325 | the stripped text is a contiguous slice of the input with only whitespace cut off on either side |
| Text.StripKeepsCharacters | md2gov_docx.py:229 | stripping introduces no character that was not in the input |
| Text.SkipWhile | md2gov_docx.py:42-51 | a greedy run (`\s+`, `[-:]+`) stops at the end or at the first character outside the class |
| Text.SkipWhileAll | md2gov_docx.py:42-51 | every character the greedy run passes over is in the class |
| Text.SpaceRunEnd | md2gov_docx.py:325 | the end of a leading whitespace run is at the end or at a non-space |
| Text.SpaceRunStart | md2gov_docx.py:325 | the start of a trailing whitespace run is at the start or after a non-space |
| Text.SpaceRunEndAllSpace | md2gov_docx.py:325 | everything skipped at the front by `strip` is whitespace |
| Text.SpaceRunStartAllSpace | md2gov_docx.py:325 | everything cut at the back by `strip` is whitespace |
| Text.Split | md2gov_docx.py:236 | `str.split('\|')` always returns at least one piece |
| Text.SplitCount | md2gov_docx.py:236 | `split` gives exactly one more piece than there are separators |
| Text.SplitPiecesLackSeparator | md2gov_docx.py:236 | no piece contains the separator |
| Text.SplitJoin | md2gov_docx.py:236 | joining the pieces with the separator gives back the input |
| Text.JoinSplit | md2gov_docx.py:236 | splitting a join of separator-free pieces gives back the pieces |
| Text.SplitWithout | md2gov_docx.py:236 | a separator-free text splits into itself alone |
| Text.SplitAfter | md2gov_docx.py:236 | splitting at the first separator gives the part before it, then the split of the rest |
| Patterns.CloseFrom | md2gov_docx.py:54-55 | the search for the closing delimiter of `(.+?)` ends after the position it starts from and within the text |
| Patterns.CloseFromFound | md2gov_docx.py:54-55 | a found closing delimiter is the first one after the start, with no newline before it |
| Patterns.CloseFromMissing | md2gov_docx.py:54-55 | when no closing delimiter is found, every later delimiter lies beyond a newline |
| Patterns.NoNewlineSlice | md2gov_docx.py:54-55 | the newline test on positions agrees with the test on the slice |
| Patterns.DelimitedAt | md2gov_docx.py:54-55 | a lazy match `D(.+?)D` at `p` has a non-empty group and ends within the text |
| Patterns.DelimitedAtMeaning | md2gov_docx.py:54-55 | `DelimitedAt` returns exactly the lazy match: opening delimiter, shortest non-empty newline-free group, closing delimiter; and when a lazy match exists it is the one returned |
| Patterns.DelimitedAtSound | md2gov_docx.py:54-55 | a returned end is a lazy match |
| Patterns.DelimitedAtComplete | md2gov_docx.py:54-55 | every lazy match is the one returned |
| Patterns.BoldAt | md2gov_docx.py:54 | `MD_BOLD_PATTERN.match(text, pos)`: the lazy match with delimiter `**` at the cursor, whose meaning `Patterns.DelimitedAtMeaning` states |
| Patterns.ItalicAt | md2gov_docx.py:55 | `MD_ITALIC_PATTERN.match(text, pos)`: the lazy match with delimiter `*` at the cursor; `Patterns.BoldImpliesItalic` shows it matches wherever the bold pattern does |
| Patterns.Search | md2gov_docx.py:150 | `pattern.search(text, pos)` finds a start at or after `pos` where the pattern matches |
| Patterns.SearchIsLeftmost | md2gov_docx.py:150 | the found start is the leftmost match, and no match exists when none is found |
| Patterns.BoldImpliesItalic | md2gov_docx.py:130-143 | wherever `\*\*(.+?)\*\*` matches, `\*(.+?)\*` matches too |
| Patterns.ItalicCloseBefore | md2gov_docx.py:54-55 | inside a bold match, the first `*` after the opening is a valid italic close |
| Patterns.SkipWhileStopsAt | md2gov_docx.py:42-51 | a greedy run over a class stops exactly at the first non-member |
| Patterns.SpacesThenGroupGreedy | md2gov_docx.py:42-51 | when `\s+(.+)$` matches after a prefix, the greedy whitespace run leaves a non-empty, newline-free group |
| Patterns.GroupStart | md2gov_docx.py:42-51 | where the `(.+)` group starts after `\s+`, inside the text |
| Patterns.GroupStartMeaning | md2gov_docx.py:42-51 | `GroupStart` finds the group exactly when `\s+(.+)$` matches, and finds nothing otherwise |
| Patterns.HeadingText | md2gov_docx.py:42-45 | a heading's group is a non-empty proper suffix of the line |
| Patterns.HeadingTextMeaning | md2gov_docx.py:42-45 | `^#{n}\s+(.+)$` on a stripped line: the group is the text after the hashes and the whitespace run, starting with a non-space; and no group when the pattern does not match |
| Patterns.ListItemText | md2gov_docx.py:51 | a list item's group is a non-empty proper suffix of the line |
| Patterns.ListItemTextMeaning | md2gov_docx.py:51 | `^\s*[-*+☑]\s+(.+)$` on a stripped line: the group follows the bullet and its whitespace run; none when the line does not match |
| Patterns.GreedyFindsSplit | md2gov_docx.py:62 | any way of reading a line as `^\s*\|?\s*[-:]+\s*\|` makes the table-separator test succeed |
| Patterns.TableSeparatorRowMeaning | md2gov_docx.py:62 | the table-separator test succeeds if and only if the line can be read as `^\s*\|?\s*[-:]+\s*\|` |
| Patterns.GreedyIsSplit | md2gov_docx.py:62 | the greedy positions the test computes form such a reading |
| Patterns.IsSeparatorLine | md2gov_docx.py:59 | `^[-*_]{3,}$` on a stripped line: three or more characters, each `-`, `*` or `_`; `Builder.EmitShape` proves such a line emits nothing |
| Patterns.IsTableSeparatorRow | md2gov_docx.py:62 | `^\s*\|?\s*[-:]+\s*\|` tested with every greedy run taken whole; `Patterns.TableSeparatorRowMeaning` proves this agrees with every reading of the regex |
| Patterns.RunThenPrefix | md2gov_docx.py:48 | a marker prefix ends right after the greedy run of its class, on its closing character |
| Patterns.MarkerAfterRun | md2gov_docx.py:48 | the end of a run-then-close marker lies after its start and within the text |
| Patterns.MarkerAfterRunMeaning | md2gov_docx.py:48 | `MarkerAfterRun` finds a marker prefix exactly when one exists, and it is the only one |
| Patterns.EnumerationMarkerEnd | md2gov_docx.py:48 | the end of an enumeration marker is within the text |
| Patterns.EnumerationMarkerEndMeaning | md2gov_docx.py:48 | the marker end is a prefix matching `[一二…十]+、`, `\d+\.` or `（[一二…十]+）`, and every such prefix is that one |
| Inline.NextMarkerStart | md2gov_docx.py:147-153 | the next marker position is at or after the cursor and is an italic match unless it is the end |
| Inline.NextMarkerStartIsNearest | md2gov_docx.py:147-153 | neither bold nor italic matches anywhere between the cursor and the next marker position |
| Inline.NextSegment | md2gov_docx.py:126-160 | one turn of the loop strictly advances the cursor, staying within the text |
| Inline.BoldTurn | md2gov_docx.py:129-135 | where bold matches, the turn emits the bold group and its Markdown is exactly the matched text |
| Inline.ItalicTurn | md2gov_docx.py:137-143 | where only italic matches, the turn emits the italic group and its Markdown is the matched text |
| Inline.PlainTurn | md2gov_docx.py:145-157 | where neither matches, the turn emits the plain text up to the next marker, which is non-empty |
| Inline.NextSegmentConsumes | md2gov_docx.py:126-160 | one turn consumes exactly the Markdown of the segment it emits |
| Inline.DelimitedAtEnds | md2gov_docx.py:54-55 | a match begins and ends with its delimiter and holds no newline |
| Inline.NextSegmentMeaning | md2gov_docx.py:126-160 | each emitted segment fits the text at the cursor as the patterns dictate: bold first, then italic, otherwise plain text that stops at the next marker |
| Inline.BoldFits | md2gov_docx.py:129-135 | the bold case of the above |
| Inline.ItalicFits | md2gov_docx.py:137-143 | the italic case of the above |
| Inline.PlainFits | md2gov_docx.py:145-157 | the plain case of the above |
| Inline.ScanStep | md2gov_docx.py:126-160 | one more turn keeps "segments so far followed by the rest of the scan" unchanged |
| Inline.UnparseCons | md2gov_docx.py:115 | writing back a segment list writes the first segment, then the rest |
| Inline.ScanRoundTrip | md2gov_docx.py:126-160 | re-wrapping the scanned segments gives the scanned text exactly |
| Inline.Scan | md2gov_docx.py:126-160 | the segments the loop emits from cursor `pos` on, one `NextSegment` turn each; `Inline.ScanRoundTrip` and `Inline.ScanFollowsMatches` state their meaning |
| Inline.ParseInline | md2gov_docx.py:126-162 | the scan from the start, or the whole text as one plain segment when the scan is empty; `Inline.InlineRoundTrip` proves it writes back to the input |
| Inline.InlineRoundTrip | md2gov_docx.py:111-162 | re-wrapping bold in `**` and italic in `*` gives the input back, the empty input included |
| Inline.ScanSegmentShape | md2gov_docx.py:126-160 | no segment is both bold and italic, none is empty, and formatted ones hold no newline |
| Inline.ScanAt | md2gov_docx.py:126-160 | the k-th segment is the turn taken at the offset where the first k segments end |
| Inline.ScanFollowsMatches | md2gov_docx.py:126-160 | every segment of the scan fits the text at its own offset |
| Inline.ScanShift | md2gov_docx.py:126-160 | the scan from the cursor is the first turn's segment followed by the scan from where it ends |
| Inline.NextTurn | md2gov_docx.py:126-160 | the body of the loop computes one turn, and what it consumes is the segment's Markdown (the single-character fallback never runs) |
| Inline.ParseInlineFormat | md2gov_docx.py:111-162 | the loop returns the scan, writing it back gives the input, and the empty input gives one empty plain segment |
| Transforms.RemoveNumberSpace | md2gov_docx.py:165-172 | the result is no longer than the input and differs from it only when the line starts with an enumeration marker |
| Transforms.RemoveNumberSpaceMeaning | md2gov_docx.py:48 | when a marker is followed by a whitespace run, exactly that run is deleted; otherwise the text is unchanged |
| Transforms.RemoveNumberSpaceIdempotent | md2gov_docx.py:165-172 | applying `remove_number_space` twice is the same as once |
| Transforms.RemoveNumberSpaceKeepsText | md2gov_docx.py:165-172 | non-empty text stays non-empty |
| Transforms.RemoveNumberSpaceChineseExample | md2gov_docx.py:168 | `"一、 总体要求"` becomes `"一、总体要求"` |
| Transforms.RemoveNumberSpaceDigitExample | md2gov_docx.py:169 | `"1. 字体要求"` becomes `"1.字体要求"` |
| Transforms.RemoveNumberSpaceParenExample | md2gov_docx.py:170 | `"（一） 加强培训"` becomes `"（一）加强培训"` |
| Transforms.RemoveNumberSpaceNestedExample | md2gov_docx.py:48 | `"1. 2. x"` becomes `"1.2. x"`, which stays unchanged |
| Transforms.NumberSpaceExample | md2gov_docx.py:48 | any marker followed by a maximal whitespace run loses exactly that run |
| Transforms.SubDelimited | md2gov_docx.py:184-190 | `re.sub(D(.+?)D, r'\1')` from a position on never lengthens the text |
| Transforms.SubDelimitedUnchanged | md2gov_docx.py:184-190 | the substitution leaves the text unchanged if and only if the pattern matches nowhere |
| Transforms.SubDelimitedShrinks | md2gov_docx.py:184-190 | a match at the start makes the result strictly shorter |
| Transforms.SearchNeedsDelimiter | md2gov_docx.py:184-190 | text without the delimiter's first character has no match |
| Transforms.CleanMarkdownMarks | md2gov_docx.py:175-191 | cleaning never lengthens the text |
| Transforms.SubWithoutDelimiter | md2gov_docx.py:184-190 | a substitution whose delimiter does not occur is the identity |
| Transforms.SubDelimitedChars | md2gov_docx.py:184-190 | a substitution only removes characters |
| Transforms.CleanWithoutMarks | md2gov_docx.py:175-191 | text with no `*`, `` ` `` or `~` is unchanged |
| Transforms.CleanKeepsCharacters | md2gov_docx.py:175-191 | every character of the cleaned text was in the input |
| Transforms.CleanBoldExample | md2gov_docx.py:180 | `"**一级标题**"` becomes `"一级标题"` |
| Transforms.CleanBold | md2gov_docx.py:184-186 | the bold pass strips the marks of `"**一级标题**"` and the later passes change nothing |
| Transforms.CleanItalicExample | md2gov_docx.py:181 | `"*重要*内容"` becomes `"重要内容"` |
| Transforms.CleanItalic | md2gov_docx.py:184-186 | the bold pass leaves `"*重要*内容"` alone and the italic pass strips its marks |
| Transforms.Sub | md2gov_docx.py:184-190 | one `re.sub(D(.+?)D, r'\1', text)` pass over the whole text; `Transforms.SubDelimitedUnchanged` and `Transforms.SubDelimitedChars` state what it changes |
| Transforms.SearchNoBold | md2gov_docx.py:184 | `"*重要*内容"` holds no bold match |
| Transforms.StripAll | md2gov_docx.py:236 | stripping every cell keeps the number of cells |
| Transforms.StripAllAt | md2gov_docx.py:236 | the k-th cell is the k-th piece stripped |
| Transforms.ParseTableRow | md2gov_docx.py:223-237 | a parsed row always has at least one cell |
| Transforms.ParseTableRowShape | md2gov_docx.py:223-237 | there is exactly one more cell than pipes left after removing the fences, and every cell is stripped and pipe-free |
| Transforms.StripAllSubstrings | md2gov_docx.py:236 | every cell's characters come from its piece |
| Transforms.StripStripped | md2gov_docx.py:236 | stripping already stripped text changes nothing |
| Transforms.TableRowRoundTrip | md2gov_docx.py:223-237 | fencing stripped, pipe-free cells with pipes and parsing the line gives back the cells |
| Transforms.RowBodyOfFenced | md2gov_docx.py:230-233 | one leading and one trailing pipe are removed from a fenced line |
| Transforms.RowBody | md2gov_docx.py:229-233 | the stripped line with at most one `\|` cut from its start and one from its end; `Transforms.RowBodyOfFenced` shows exactly one goes from each end of a fenced row |
| Transforms.StripAllStripped | md2gov_docx.py:236 | stripping stripped cells changes none of them |
| Transforms.TableRowExample | md2gov_docx.py:223-237 | `"字段 \| 值"` parses to `["字段", "值"]` |
| Transforms.TableRow | md2gov_docx.py:229-236 | the same example, step by step |
| Transforms.StripTrailing | md2gov_docx.py:236 | `"字段 "` strips to `"字段"` |
| Transforms.StripLeading | md2gov_docx.py:236 | `" 值"` strips to `"值"` |
| Styles.ParagraphDefaultsFollowTable | md2gov_docx.py:87-108 | the defaults of `apply_paragraph_format` are the heading, list and body layout (justified, 32pt first-line indent, 28.8pt spacing, no space before or after), and the title's overrides give the title layout |
| Styles.ApplyParagraphFormat | md2gov_docx.py:87-108 | the keyword defaults: justify-low, 32pt first-line indent, fixed 28.8pt line spacing, no space before or after; `Styles.ParagraphDefaultsFollowTable` ties them to the layout table |
| Styles.SetRunFormat | md2gov_docx.py:66-84 | a run's font, size, weight and slant, neither bold nor italic unless asked; the colour is never passed by the converter |
| Document.Document.constructor | md2gov_docx.py:309 | a new document has no blocks |
| Document.Document.AddParagraph | md2gov_docx.py:360 | a formatted paragraph is appended and nothing else changes |
| Document.Document.AddEmptyParagraph | md2gov_docx.py:377 | an empty paragraph is appended and nothing else changes |
| Document.Document.AddTable | md2gov_docx.py:254-257 | a table with the given style and cells is appended and nothing else changes |
| Document.AddFormattedText | md2gov_docx.py:194-211 | the runs added are those of the inline segments of the normalised text, empty segments skipped |
| Inline.UnparseAppend | md2gov_docx.py:115 | writing back segments distributes over concatenation |
| Document.RunsOfKeepsMarkup | md2gov_docx.py:208-211 | skipping empty plain segments loses nothing of the Markdown |
| Document.RunsOfShape | md2gov_docx.py:208-211 | every run is non-empty, in the base font and size, and never both bold and italic |
| Document.FormattedRunsMeaning | md2gov_docx.py:194-211 | writing the runs back in Markdown gives exactly the normalised text; every run is non-empty, in the base font and size, and not both bold and italic |
| Document.FormattedRunsNonEmpty | md2gov_docx.py:194-211 | runs are added if and only if the text is non-empty |
| Document.TableGridMeaning | md2gov_docx.py:252-279 | the grid has one row per data row and as many columns as the header; a cell is filled exactly when its row has that column, with that text, centred, 3pt before and after, 黑体 bold in the header and 仿宋 below |
| Document.CellAt | md2gov_docx.py:260-279 | the cell at row `i`, column `j`: the row's `j`-th text if it has one, in bold 黑体 on the header row and plain 仿宋 below, centred with 3pt around; otherwise the empty cell python-docx created |
| Document.TableGrid | md2gov_docx.py:252-279 | a grid of the data's row count by the header's width holding `CellAt` at each position; `Document.TableGridMeaning` states its contents |
| Document.TableBlocks | md2gov_docx.py:240-282 | nothing for fewer than two rows, else the `Table Grid` table followed by one empty paragraph; `Document.AddTableToDoc` appends exactly these blocks |
| Document.GridOfFilled | md2gov_docx.py:260-279 | the array the fill loops leave is the grid |
| Document.AddTableToDoc | md2gov_docx.py:240-282 | fewer than two rows add nothing; otherwise a "Table Grid" table of the grid is appended, then an empty paragraph |
| Builder.CaptureEnd | md2gov_docx.py:347-352 | the capture ends at or after its start and within the input |
| Builder.CaptureEndMeaning | md2gov_docx.py:347-352 | every captured line is non-blank and holds a pipe, and the capture stops at the end or at the first line that does not |
| Builder.TableRows | md2gov_docx.py:351 | one parsed row per captured line |
| Builder.CaptureEndStep | md2gov_docx.py:351-352 | a captured line moves the cursor but not the capture's end |
| Builder.CaptureEndStop | md2gov_docx.py:349-350 | a blank or pipe-free line ends the capture where it stands |
| Builder.CaptureTable | md2gov_docx.py:339-352 | the table branch parses the header, skips the separator row, and parses each data row up to the capture's end |
| Builder.Classify | md2gov_docx.py:327-422 | a table start leaves room for its separator row, and headings are of level 2 to 4 |
| Builder.HeadingKind | md2gov_docx.py:363-409 | a line that is not blank and starts no table is a title, heading, list item or body text |
| Builder.TextKind | md2gov_docx.py:382-422 | the rest of the priority order (level 2, 3, 4 heading, list item, body) always yields one of those kinds |
| Builder.Next | md2gov_docx.py:322-424 | each turn of the loop strictly advances the line index within the input |
| Builder.BuildStep | md2gov_docx.py:322-424 | one turn of the loop keeps "blocks so far followed by the blocks of the rest" unchanged |
| Builder.BuildUnfold | md2gov_docx.py:322-424 | the whole loop is one turn followed by the loop from where that turn leaves off |
| Builder.StartsTable | md2gov_docx.py:333-336 | a table starts at a stripped line holding `\|` whose next line matches `MD_TABLE_SEPARATOR`; `Builder.TableCapture` states what such a line emits |
| Builder.Emit | md2gov_docx.py:327-422 | the blocks one turn of the loop appends for a classified line: the captured table or the line's paragraphs; `Builder.EmitShape` states their shape |
| Builder.KindBlocks | md2gov_docx.py:360-422 | the paragraphs of a non-table line by its kind, with the fonts, sizes and weights of its branch; `Builder.HeadingBlocksFollowRules` and `Builder.TextBlocksFollowRules` tie them to the layout table |
| Builder.Build | md2gov_docx.py:322-424 | the blocks of the whole loop from line `i` on; `Builder.ConvertMarkdownToGovDocx` builds exactly these and `Builder.BuildTitles` counts their titles |
| Builder.AddLine | md2gov_docx.py:324-424 | one turn appends that line's blocks, moves to the line after it (or after the table) and records the title |
| Builder.AddHeadingLine | md2gov_docx.py:360-409 | the heading part of a turn appends the blocks of the line's kind and records the title |
| Builder.AddTextLine | md2gov_docx.py:411-422 | the list-item and body part of a turn appends the blocks of the line's kind |
| Builder.ConvertMarkdownToGovDocx | md2gov_docx.py:309-424 | the loop produces the blocks of `Build` for the whole input, starting with no title |
| Builder.EmitShape | md2gov_docx.py:327-422 | blank and rule lines are skipped and only they; the title gives a paragraph and an empty paragraph; every other non-table line gives one paragraph; only tables move more than one line |
| Builder.TableCapture | md2gov_docx.py:333-357 | a table start has a pipe and a separator row after it; the capture takes the maximal run of row lines; a header-only table adds nothing, and otherwise one table with a row per captured line and the header's width, then an empty paragraph |
| Builder.HeadingBlocksFollowRules | md2gov_docx.py:363-409 | title and heading paragraphs follow the layout table: font, size, weight, alignment, indent and spacing, with a single run of the cleaned heading text |
| Builder.TextBlocksFollowRules | md2gov_docx.py:411-422 | list items and body paragraphs follow the layout table, and their runs write back to the normalised text |
| Builder.LaterLevelOneHeadingIsBody | md2gov_docx.py:363-379 | a `#` line becomes the title while no title exists, and body text afterwards |
| Builder.Titles | md2gov_docx.py:363-379 | the title blocks of a document are some of its blocks |
| Builder.TitlesAppend | md2gov_docx.py:363-379 | the titles of a concatenation are the titles of each part |
| Builder.ClassifyAfterTitle | md2gov_docx.py:363-365 | once the title is taken no line is a title, and every other line is classified as before |
| Builder.EmitTitles | md2gov_docx.py:363-379 | one turn produces a title exactly when its line is classified as the title |
| Builder.BuildTitles | md2gov_docx.py:363-379 | the document holds exactly one title, the first `#` line that starts no table, when such a line exists, and none otherwise |
| Builder.AtMostOneTitle | md2gov_docx.py:363-379 | a converted document never holds more than one title |

## Left out

- File handling is not part of this model: the existence check, reading lines with UTF-8, creating the output folder, saving the `.docx`, the `True`/`False` result, the messages printed, and the catch-all `except` (lines 297-306, 426-440). The model takes the input as a list of lines and returns the list of blocks.
- The command-line entry point, `streamlit_app.py` and `app.py` are not part of this model.
- `setup_page_margins` (lines 214-220) only sets the four section margins through python-docx. Only the margin values it writes are kept, as `Styles.GovPageMargins`.
- `set_run_format` writes font, size, weight and slant into a `RunFormat` value. The East Asian font attribute written into the run XML (line 79) and the optional colour, which the converter never passes, are not modelled.
- Styles.ParagraphDefaultsFollowTable: point and millimetre values are whole numbers of tenths of a point and millimetres. The EMU rounding python-docx applies is not modelled.
- Patterns.EnumerationMarkerEnd: `\d` is modelled as the ASCII and fullwidth digits only. Other Unicode decimal digits that Python's `\d` accepts are left out.
- Document.AddFormattedText: the source adds each run to the paragraph and then formats it. The model builds the finished runs and appends the paragraph once. The order of python-docx calls is not modelled.
- Document.TableGridMeaning: python-docx gives a filled cell one paragraph with one run. Cell text with embedded newlines, which python-docx would split into several runs, is not modelled.
- Builder.AddLine: the source creates the paragraph before deciding its kind (line 360). The model decides the kind first and appends the finished paragraph, which gives the same document.
- The `in_table` flag (lines 318, 338, 356) is written but never read, so it is left out. So are the unused constants `SIZE_XIAOSAN` (line 27) and `MD_CODE_PATTERN` (line 56). The `patterns` list (lines 121-124) is kept only as the order in which the search tries bold and italic.
