/** The line loop of convert_markdown_to_gov_docx: each line is classified
    in a fixed priority order (blank or rule, table, title, headings, list
    item, body text) and turned into blocks of the output document.

    `Emit` is one turn of the loop and `Build` the whole loop, written as
    functions; `ConvertMarkdownToGovDocx` is the loop itself, over a
    `Document`, proved to produce `Build`. */
module Builder {
  import opened Text
  import opened Patterns
  import opened Transforms
  import opened Styles
  import opened Document

  // ---------------------------------------------------------------------
  // Table capture
  // ---------------------------------------------------------------------

  /** A line that continues a table capture: not blank, and holding a pipe. */
  predicate IsTableRowLine(rowText: string) {
    rowText != [] && '|' in rowText
  }

  /** Line `i` opens a table: it holds a pipe and the next line is a table
      separator row. */
  predicate StartsTable(lines: seq<string>, i: nat)
    requires i < |lines|
  {
    '|' in Strip(lines[i]) && i + 1 < |lines| && IsTableSeparatorRow(Strip(lines[i + 1]))
  }

  /** Where a table capture whose data rows start at `j` stops. */
  function CaptureEnd(lines: seq<string>, j: nat): (e: nat)
    requires j <= |lines|
    ensures j <= e <= |lines|
    decreases |lines| - j
  {
    if j < |lines| && IsTableRowLine(Strip(lines[j])) then CaptureEnd(lines, j + 1) else j
  }

  /** The capture takes every line up to its end and stops at the first
      blank or pipe-free line, or at the end of the input. */
  lemma {:induction false} CaptureEndMeaning(lines: seq<string>, j: nat)
    requires j <= |lines|
    ensures forall k :: j <= k < CaptureEnd(lines, j) ==> IsTableRowLine(Strip(lines[k]))
    ensures CaptureEnd(lines, j) == |lines| || !IsTableRowLine(Strip(lines[CaptureEnd(lines, j)]))
    decreases |lines| - j
  {
    if j < |lines| && IsTableRowLine(Strip(lines[j])) {
      CaptureEndMeaning(lines, j + 1);
    }
  }

  /** The parsed data rows of lines `a` to `b`. */
  function TableRows(lines: seq<string>, a: nat, b: nat): (rows: seq<seq<string>>)
    requires a <= b <= |lines|
    ensures |rows| == b - a
    decreases b
  {
    if a == b then [] else TableRows(lines, a, b - 1) + [ParseTableRow(Strip(lines[b - 1]))]
  }

  /** One more captured line moves the capture's start but not its end. */
  lemma CaptureEndStep(lines: seq<string>, j: nat)
    requires j < |lines| && IsTableRowLine(Strip(lines[j]))
    ensures CaptureEnd(lines, j) == CaptureEnd(lines, j + 1)
  {
  }

  /** A blank or pipe-free line ends the capture where it stands. */
  lemma CaptureEndStop(lines: seq<string>, j: nat)
    requires j < |lines| && !IsTableRowLine(Strip(lines[j]))
    ensures CaptureEnd(lines, j) == j
  {
  }

  /** The table branch of the loop: the header row at `start`, the
      separator row after it, and the data rows up to the first blank or
      pipe-free line; the parsed rows and the line after them. */
  method CaptureTable(lines: seq<string>, start: nat) returns (tableData: seq<seq<string>>, i: nat)
    requires start + 2 <= |lines|
    ensures i == CaptureEnd(lines, start + 2)
    ensures tableData == [ParseTableRow(Strip(lines[start]))] + TableRows(lines, start + 2, i)
  {
    var header := ParseTableRow(Strip(lines[start]));
    tableData := [header];
    i := start + 2;
    while i < |lines|
      invariant start + 2 <= i <= CaptureEnd(lines, start + 2)
      invariant CaptureEnd(lines, i) == CaptureEnd(lines, start + 2)
      invariant tableData == [header] + TableRows(lines, start + 2, i)
      decreases |lines| - i
    {
      var rowText := Strip(lines[i]);
      if !IsTableRowLine(rowText) {
        CaptureEndStop(lines, i);
        break;
      }
      var row := ParseTableRow(rowText);
      assert CaptureEnd(lines, i + 1) == CaptureEnd(lines, start + 2) by {
        CaptureEndStep(lines, i);
      }
      assert tableData + [row] == [header] + TableRows(lines, start + 2, i + 1) by {
        assert TableRows(lines, start + 2, i + 1) == TableRows(lines, start + 2, i) + [row];
        AppendAssoc([header], TableRows(lines, start + 2, i), [row]);
      }
      tableData := tableData + [row];
      i := i + 1;
    }
  }

  // ---------------------------------------------------------------------
  // One turn of the loop
  // ---------------------------------------------------------------------

  /** What the loop makes of the line under the cursor, in the source's
      priority order: a blank or horizontal-rule line, the start of a
      table, the title (the first level-1 heading), a level 2 to 4 heading,
      a list item, or body text. Each kind holds the text the line
      contributes. */
  datatype LineKind =
    | Skip
    | TableStart
    | TitleLine(title: string)
    | Heading(level: nat, heading: string)
    | Item(item: string)
    | BodyText(body: string)

  /** Classification of line `i`; `titleDone` says whether a title has
      already been emitted. */
  function Classify(lines: seq<string>, i: nat, titleDone: bool): (k: LineKind)
    requires i < |lines|
    ensures k.TableStart? ==> i + 2 <= |lines|
    ensures k.Heading? ==> 2 <= k.level <= 4
  {
    var text := Strip(lines[i]);
    if text == [] || IsSeparatorLine(text) then Skip
    else if StartsTable(lines, i) then TableStart
    else HeadingKind(text, titleDone)
  }

  /** After blanks, rules and tables: the title if the line is a level-1
      heading and no title has been emitted yet, and otherwise what the
      rest of the priority order makes of the line. */
  function HeadingKind(text: string, titleDone: bool): (k: LineKind)
    ensures k.TitleLine? || k.Heading? || k.Item? || k.BodyText?
    ensures k.Heading? ==> 2 <= k.level <= 4
  {
    if HeadingText(text, 1).Some? && !titleDone then TitleLine(HeadingText(text, 1).value)
    else TextKind(text)
  }

  /** The rest of the priority order, which looks only at the stripped line:
      a level 2 to 4 heading, a list item, or body text. */
  function TextKind(text: string): (k: LineKind)
    ensures k.Heading? || k.Item? || k.BodyText?
    ensures k.Heading? ==> 2 <= k.level <= 4
  {
    if HeadingText(text, 2).Some? then Heading(2, HeadingText(text, 2).value)
    else if HeadingText(text, 3).Some? then Heading(3, HeadingText(text, 3).value)
    else if HeadingText(text, 4).Some? then Heading(4, HeadingText(text, 4).value)
    else if ListItemText(text).Some? then Item(ListItemText(text).value)
    else BodyText(text)
  }

  /** The title paragraph: 方正小标宋简体 22pt bold, centred, no indent. */
  function TitleParagraph(t: string): Block {
    Paragraph(ApplyParagraphFormat(alignment := Center, indent := 0, lineSpacing := LineSpacing288),
              [Run(t, SetRunFormat(FontXiaoBiaoSong, SizeErHao, bold := true))])
  }

  /** A heading paragraph with the default format and one run. */
  function HeadingParagraph(t: string, font: string, bold: bool): Block {
    Paragraph(ApplyParagraphFormat(), [Run(t, SetRunFormat(font, SizeSanHao, bold))])
  }

  /** The font and weight of the heading levels: 黑体 for level 2, bold
      楷体_GB2312 for level 3, 楷体_GB2312 for level 4. */
  function HeadingFont(level: nat): string {
    if level == 2 then FontHeiTi else FontKaiTi
  }

  function HeadingBold(level: nat): bool {
    level == 3
  }

  /** A list item or body paragraph: default format, inline-formatted runs in
      仿宋_GB2312 16pt. */
  function TextParagraph(t: string): Block {
    Paragraph(ApplyParagraphFormat(), FormattedRuns(t, FontFangSong, SizeSanHao))
  }

  /** Where the cursor goes after a line of kind `k`: past the captured
      table rows, or to the next line. */
  function Next(lines: seq<string>, i: nat, k: LineKind): (n: nat)
    requires i < |lines| && (k.TableStart? ==> i + 2 <= |lines|)
    ensures i < n <= |lines|
  {
    if k.TableStart? then CaptureEnd(lines, i + 2) else i + 1
  }

  /** The blocks a line of kind `k` adds to the document; a table's are
      made from the captured rows. */
  function Emit(lines: seq<string>, i: nat, k: LineKind): seq<Block>
    requires i < |lines| && (k.TableStart? ==> i + 2 <= |lines|)
  {
    if k.TableStart? then
      TableBlocks([ParseTableRow(Strip(lines[i]))] + TableRows(lines, i + 2, CaptureEnd(lines, i + 2)))
    else KindBlocks(k)
  }

  /** The blocks of every kind but a table. */
  function KindBlocks(k: LineKind): seq<Block>
    requires !k.TableStart?
  {
    match k
    case Skip => []
    case TitleLine(t) => [TitleParagraph(CleanMarkdownMarks(t)), EmptyParagraph]
    case Heading(level, t) => [HeadingParagraph(CleanMarkdownMarks(t), HeadingFont(level), HeadingBold(level))]
    case Item(t) => [TextParagraph(t)]
    case BodyText(t) => [TextParagraph(t)]
  }

  /** Everything the loop emits from line `i` on. */
  function Build(lines: seq<string>, i: nat, titleDone: bool): seq<Block>
    requires i <= |lines|
    decreases |lines| - i
  {
    if i == |lines| then []
    else
      var k := Classify(lines, i, titleDone);
      Emit(lines, i, k) + Build(lines, Next(lines, i, k), titleDone || k.TitleLine?)
  }

  // ---------------------------------------------------------------------
  // The loop
  // ---------------------------------------------------------------------

  /** One more turn keeps "blocks so far, then the rest of the build" equal
      to the whole build: when `blocks` is `done` followed by what line `i`
      emits, `blocks` followed by the build from the next line is `done`
      followed by the build from line `i`. */
  lemma BuildStep(done: seq<Block>, blocks: seq<Block>, lines: seq<string>, i: nat, titleDone: bool, k: LineKind)
    requires i < |lines| && Classify(lines, i, titleDone) == k
    requires blocks == done + Emit(lines, i, k)
    ensures blocks + Build(lines, Next(lines, i, k), titleDone || k.TitleLine?) == done + Build(lines, i, titleDone)
  {
    BuildUnfold(lines, i, titleDone);
    AppendAssoc(done, Emit(lines, i, k), Build(lines, Next(lines, i, k), titleDone || k.TitleLine?));
  }

  /** One unfolding of `Build`. */
  lemma BuildUnfold(lines: seq<string>, i: nat, titleDone: bool)
    requires i < |lines|
    ensures var k := Classify(lines, i, titleDone);
            Build(lines, i, titleDone) == Emit(lines, i, k) + Build(lines, Next(lines, i, k), titleDone || k.TitleLine?)
  {
  }

  /** The body of the loop of convert_markdown_to_gov_docx at line `i`: the
      blocks of the line's kind are added to `doc`; the new cursor, and
      whether the title is now used up. */
  method AddLine(doc: Document, lines: seq<string>, i: nat, titleDone: bool) returns (next: nat, titleDone': bool)
    requires i < |lines|
    modifies doc
    ensures var k := Classify(lines, i, titleDone);
            doc.blocks == old(doc.blocks) + Emit(lines, i, k)
            && next == Next(lines, i, k) && titleDone' == (titleDone || k.TitleLine?)
  {
    var text := Strip(lines[i]);
    if text == [] || IsSeparatorLine(text) {
      assert Classify(lines, i, titleDone) == Skip;
      return i + 1, titleDone;
    }
    if '|' in text && i + 1 < |lines| {
      var nextLine := Strip(lines[i + 1]);
      if IsTableSeparatorRow(nextLine) {
        assert Classify(lines, i, titleDone) == TableStart;
        var tableData, end := CaptureTable(lines, i);
        AddTableToDoc(doc, tableData);
        return end, titleDone;
      }
    }
    assert Classify(lines, i, titleDone) == HeadingKind(text, titleDone);
    titleDone' := AddHeadingLine(doc, text, titleDone);
    return i + 1, titleDone';
  }

  /** The title branch of the loop body, falling through to the heading,
      list item and body branches. */
  method AddHeadingLine(doc: Document, text: string, titleDone: bool) returns (titleDone': bool)
    modifies doc
    ensures var k := HeadingKind(text, titleDone);
            doc.blocks == old(doc.blocks) + KindBlocks(k) && titleDone' == (titleDone || k.TitleLine?)
  {
    var h1 := HeadingText(text, 1);
    if h1.Some? && !titleDone {
      var titleText := CleanMarkdownMarks(h1.value);
      doc.AddParagraph(ApplyParagraphFormat(alignment := Center, indent := 0, lineSpacing := LineSpacing288),
                       [Run(titleText, SetRunFormat(FontXiaoBiaoSong, SizeErHao, bold := true))]);
      doc.AddEmptyParagraph();
      AppendAssoc(old(doc.blocks), [TitleParagraph(titleText)], [EmptyParagraph]);
      return true;
    }
    AddTextLine(doc, text);
    return titleDone;
  }

  /** The heading, list item and body branches of the loop body, for a
      stripped line that is neither blank, a rule, a table nor the title. */
  method AddTextLine(doc: Document, text: string)
    modifies doc
    ensures doc.blocks == old(doc.blocks) + KindBlocks(TextKind(text))
  {
    var h2 := HeadingText(text, 2);
    if h2.Some? {
      var headingText := CleanMarkdownMarks(h2.value);
      doc.AddParagraph(ApplyParagraphFormat(), [Run(headingText, SetRunFormat(FontHeiTi, SizeSanHao))]);
      return;
    }
    var h3 := HeadingText(text, 3);
    if h3.Some? {
      var headingText := CleanMarkdownMarks(h3.value);
      doc.AddParagraph(ApplyParagraphFormat(), [Run(headingText, SetRunFormat(FontKaiTi, SizeSanHao, bold := true))]);
      return;
    }
    var h4 := HeadingText(text, 4);
    if h4.Some? {
      var headingText := CleanMarkdownMarks(h4.value);
      doc.AddParagraph(ApplyParagraphFormat(), [Run(headingText, SetRunFormat(FontKaiTi, SizeSanHao))]);
      return;
    }
    var item := ListItemText(text);
    if item.Some? {
      var runs := AddFormattedText(item.value, FontFangSong, SizeSanHao);
      doc.AddParagraph(ApplyParagraphFormat(), runs);
      return;
    }
    var runs := AddFormattedText(text, FontFangSong, SizeSanHao);
    doc.AddParagraph(ApplyParagraphFormat(), runs);
  }

  /** convert_markdown_to_gov_docx without the file handling: the blocks of
      the document built from the input lines. */
  method ConvertMarkdownToGovDocx(lines: seq<string>) returns (blocks: seq<Block>)
    ensures blocks == Build(lines, 0, false)
  {
    var doc := new Document();
    var isFirstHeading := true;
    var i := 0;
    while i < |lines|
      invariant i <= |lines|
      invariant doc.blocks + Build(lines, i, !isFirstHeading) == Build(lines, 0, false)
      decreases |lines| - i
    {
      ghost var done := doc.blocks;
      ghost var k := Classify(lines, i, !isFirstHeading);
      var next, titleDone := AddLine(doc, lines, i, !isFirstHeading);
      BuildStep(done, doc.blocks, lines, i, !isFirstHeading, k);
      i, isFirstHeading := next, !titleDone;
    }
    blocks := doc.blocks;
  }

  // ---------------------------------------------------------------------
  // What one line emits
  // ---------------------------------------------------------------------

  /** Blank and rule lines emit nothing; the title emits its paragraph and
      an empty one; headings, list items and body text emit one paragraph;
      only a table moves the cursor by more than one line. */
  lemma EmitShape(lines: seq<string>, i: nat, titleDone: bool)
    requires i < |lines|
    ensures var k := Classify(lines, i, titleDone);
            var text := Strip(lines[i]);
            var e := Emit(lines, i, k);
            (k.Skip? <==> text == [] || IsSeparatorLine(text))
            && (k.Skip? ==> e == [])
            && (k.TitleLine? ==> |e| == 2 && e[0].Paragraph? && e[1] == EmptyParagraph)
            && ((k.Heading? || k.Item? || k.BodyText?) ==> |e| == 1 && e[0].Paragraph?)
            && (!k.TableStart? ==> Next(lines, i, k) == i + 1)
  {
  }

  /** A table starts at a line holding a pipe that is followed by a
      separator row; the separator row is dropped, and the capture takes
      every following line up to the first blank or pipe-free one. The
      document gets a table only when at least one data row was captured;
      it has one row per captured line, header included, and the header's
      columns. */
  lemma TableCapture(lines: seq<string>, i: nat, titleDone: bool)
    requires i < |lines| && Classify(lines, i, titleDone) == TableStart
    ensures '|' in Strip(lines[i]) && IsTableSeparatorRow(Strip(lines[i + 1]))
    ensures var e := Next(lines, i, TableStart);
            e == CaptureEnd(lines, i + 2)
            && (forall j :: i + 2 <= j < e ==> IsTableRowLine(Strip(lines[j])))
            && (e == |lines| || !IsTableRowLine(Strip(lines[e])))
            && (Emit(lines, i, TableStart) == [] <==> e == i + 2)
    ensures var e := Next(lines, i, TableStart);
            var rows := [ParseTableRow(Strip(lines[i]))] + TableRows(lines, i + 2, e);
            e > i + 2 ==>
              Emit(lines, i, TableStart) == [Table(TableGridStyle, TableGrid(rows)), EmptyParagraph]
              && |TableGrid(rows)| == e - i - 1
              && forall r :: 0 <= r < |TableGrid(rows)| ==> |TableGrid(rows)[r]| == |ParseTableRow(Strip(lines[i]))|
  {
    assert StartsTable(lines, i) by {
      var text := Strip(lines[i]);
      assert !(text == [] || IsSeparatorLine(text));
    }
    var e := CaptureEnd(lines, i + 2);
    assert Next(lines, i, TableStart) == e;
    CaptureEndMeaning(lines, i + 2);
    var header := ParseTableRow(Strip(lines[i]));
    var rows := [header] + TableRows(lines, i + 2, e);
    assert |rows| == e - i - 1;
    assert Emit(lines, i, TableStart) == TableBlocks(rows);
    assert forall r :: 0 <= r < |TableGrid(rows)| ==> |TableGrid(rows)[r]| == |header| by {
      assert rows[0] == header;
      TableGridMeaning(rows);
    }
  }

  /** The style role of a paragraph-emitting kind. */
  function RoleOf(k: LineKind): Role
    requires k.TitleLine? || k.Heading? || k.Item? || k.BodyText?
  {
    match k
    case TitleLine(_) => Title
    case Heading(level, _) => if level == 2 then Heading2 else if level == 3 then Heading3 else Heading4
    case Item(_) => ListItem
    case BodyText(_) => Body
  }

  /** Every paragraph the loop writes agrees with its row of the style
      table, in its paragraph format and in every run. The title and the
      headings hold one run with the cleaned heading text. */
  lemma HeadingBlocksFollowRules(k: LineKind)
    requires k.TitleLine? || (k.Heading? && 2 <= k.level <= 4)
    ensures var p := KindBlocks(k)[0];
            p.Paragraph?
            && ParagraphFollows(p.format, Rule(RoleOf(k)))
            && |p.runs| == 1 && RunFollows(p.runs[0].format, Rule(RoleOf(k)))
            && p.runs[0].text == CleanMarkdownMarks(if k.TitleLine? then k.title else k.heading)
  {
  }

  /** List items and body text hold runs in the body row's font and size
      that spell out the normalised text, never both bold and italic. */
  lemma TextBlocksFollowRules(k: LineKind)
    requires k.Item? || k.BodyText?
    ensures var p := KindBlocks(k)[0];
            var t := if k.Item? then k.item else k.body;
            p.Paragraph?
            && ParagraphFollows(p.format, Rule(RoleOf(k)))
            && (forall r :: r in p.runs ==> RunFollows(r.format, Rule(RoleOf(k))) && !(r.format.bold && r.format.italic))
            && RunsMarkup(p.runs) == RemoveNumberSpace(t)
  {
    var t := if k.Item? then k.item else k.body;
    var runs := FormattedRuns(t, FontFangSong, SizeSanHao);
    var role := if k.Item? then ListItem else Body;
    assert RoleOf(k) == role;
    var rule := Rule(role);
    assert KindBlocks(k)[0] == Paragraph(ApplyParagraphFormat(), runs);
    assert rule == StyleRule(FontFangSong, SizeSanHao, None, JustifyLow, Some(FirstLineIndent32), Some(LineSpacing288)) by {
      BodyTextRule(role);
    }
    assert RunsMarkup(runs) == RemoveNumberSpace(t)
           && forall r :: r in runs ==> r.format.font == FontFangSong && r.format.size == SizeSanHao
                                        && !(r.format.bold && r.format.italic)
    by {
      FormattedRunsMeaning(t, FontFangSong, SizeSanHao);
    }
    assert forall r :: r in runs ==> RunFollows(r.format, rule);
  }

  /** After the title, a level-1 heading line is neither a title nor any
      other heading nor a list item: it becomes body text with its `#`
      kept. Before the title, the same line is the title. */
  lemma LaterLevelOneHeadingIsBody(lines: seq<string>, i: nat)
    requires i < |lines| && HeadingText(Strip(lines[i]), 1).Some? && !StartsTable(lines, i)
    ensures Classify(lines, i, false) == TitleLine(HeadingText(Strip(lines[i]), 1).value)
    ensures Classify(lines, i, true) == BodyText(Strip(lines[i]))
    ensures Emit(lines, i, Classify(lines, i, true)) == [TextParagraph(Strip(lines[i]))]
  {
    var t := Strip(lines[i]);
    LevelOneHeadingKinds(t);
    assert Classify(lines, i, false) == HeadingKind(t, false);
    assert Classify(lines, i, true) == HeadingKind(t, true);
    assert Emit(lines, i, BodyText(t)) == KindBlocks(BodyText(t));
  }

  /** A level-1 heading line is neither blank nor a rule; it is the title
      while none exists, and otherwise matches no later pattern and is body
      text. */
  lemma LevelOneHeadingKinds(t: string)
    requires HeadingText(t, 1).Some?
    ensures t != [] && !IsSeparatorLine(t)
    ensures HeadingKind(t, false) == TitleLine(HeadingText(t, 1).value)
    ensures HeadingKind(t, true) == BodyText(t)
  {
    assert t[0] == '#' && 1 < |t| && IsSpace(t[1]) by {
      assert StartsWithRun(t, '#', 1) && GroupStart(t, 1).Some?;
    }
    assert t != [] && !IsSeparatorLine(t) by {
      assert t[0] != '-' && t[0] != '*' && t[0] != '_';
    }
    assert TextKind(t) == BodyText(t) by {
      assert !StartsWithRun(t, '#', 2) && !StartsWithRun(t, '#', 3) && !StartsWithRun(t, '#', 4);
      assert !IsBullet(t[0]);
    }
  }

  // ---------------------------------------------------------------------
  // At most one title
  // ---------------------------------------------------------------------

  /** A paragraph in the title's centred layout. */
  predicate IsTitleBlock(b: Block) {
    b.Paragraph? && b.format.alignment == Center
  }

  /** The title paragraphs of a document, in order. */
  function Titles(blocks: seq<Block>): (ts: seq<Block>)
    ensures |ts| <= |blocks|
  {
    if blocks == [] then []
    else (if IsTitleBlock(blocks[0]) then [blocks[0]] else []) + Titles(blocks[1..])
  }

  lemma {:induction false} TitlesAppend(a: seq<Block>, b: seq<Block>)
    ensures Titles(a + b) == Titles(a) + Titles(b)
    decreases |a|
  {
    if a == [] {
      assert a + b == b;
    } else {
      TitlesAppend(a[1..], b);
      assert (a + b)[0] == a[0] && (a + b)[1..] == a[1..] + b;
      var first := if IsTitleBlock(a[0]) then [a[0]] else [];
      AppendAssoc(first, Titles(a[1..]), Titles(b));
    }
  }

  /** The cleaned text of the first level-1 heading from line `i` on that
      is not blank, a rule or inside a table: the reference for which line
      becomes the title. */
  function FirstTitle(lines: seq<string>, i: nat): Option<string>
    requires i <= |lines|
    decreases |lines| - i
  {
    if i == |lines| then None
    else
      var k := Classify(lines, i, false);
      if k.TitleLine? then Some(CleanMarkdownMarks(k.title)) else FirstTitle(lines, Next(lines, i, k))
  }

  /** Once the title is used up, a line classifies as before unless it was
      the title, and the cursor moves the same way. */
  lemma ClassifyAfterTitle(lines: seq<string>, i: nat)
    requires i < |lines|
    ensures var k := Classify(lines, i, false);
            var k' := Classify(lines, i, true);
            !k'.TitleLine? && (!k.TitleLine? ==> k' == k)
            && Next(lines, i, k') == Next(lines, i, k)
  {
  }

  /** Only a title line emits a title paragraph. */
  lemma EmitTitles(lines: seq<string>, i: nat, titleDone: bool)
    requires i < |lines|
    ensures var k := Classify(lines, i, titleDone);
            Titles(Emit(lines, i, k)) == if k.TitleLine? then [TitleParagraph(CleanMarkdownMarks(k.title))] else []
  {
    var k := Classify(lines, i, titleDone);
    var e := Emit(lines, i, k);
    if k.TableStart? {
      assert e == [] || (|e| == 2 && e[0].Table? && e[1] == EmptyParagraph);
      if e != [] {
        assert e[1..][1..] == [];
      }
    } else if k.TitleLine? {
      assert e[1..][1..] == [];
    } else if !k.Skip? {
      assert e[1..] == [];
    }
  }

  /** The document holds exactly one title paragraph, for the first
      level-1 heading outside tables, if there is one, and none otherwise;
      once the title is used up no further title is emitted. */
  lemma {:induction false} BuildTitles(lines: seq<string>, i: nat, titleDone: bool)
    requires i <= |lines|
    ensures Titles(Build(lines, i, titleDone))
            == if !titleDone && FirstTitle(lines, i).Some? then [TitleParagraph(FirstTitle(lines, i).value)] else []
    decreases |lines| - i
  {
    if i < |lines| {
      var k := Classify(lines, i, titleDone);
      var next := Next(lines, i, k);
      BuildUnfold(lines, i, titleDone);
      TitlesAppend(Emit(lines, i, k), Build(lines, next, titleDone || k.TitleLine?));
      EmitTitles(lines, i, titleDone);
      BuildTitles(lines, next, titleDone || k.TitleLine?);
      ClassifyAfterTitle(lines, i);
    }
  }

  /** At most one title in the converted document. */
  lemma AtMostOneTitle(lines: seq<string>)
    ensures |Titles(Build(lines, 0, false))| <= 1
  {
    BuildTitles(lines, 0, false);
  }
}
