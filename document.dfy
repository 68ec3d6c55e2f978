/** The document being built, as the converter sees it through python-docx:
    a list of blocks (paragraphs of runs, and tables of cells) that only
    ever grows at the end. Here too live the two helpers that write into
    it: add_formatted_text and add_table_to_doc. */
module Document {
  import opened Styles
  import opened Inline
  import opened Transforms

  /** A run of text with the format set_run_format gave it. */
  datatype Run = Run(text: string, format: RunFormat)

  /** What add_table_to_doc sets on a cell's paragraph. */
  datatype CellFormat = CellFormat(alignment: Alignment, spaceBefore: int, spaceAfter: int)

  /** A table cell: as `add_table` created it, or holding one formatted run
      of text. */
  datatype Cell = Unfilled | Filled(text: string, format: CellFormat, run: RunFormat)

  datatype Block =
    | Paragraph(format: ParagraphFormat, runs: seq<Run>)
    | EmptyParagraph
    | Table(style: string, grid: seq<seq<Cell>>)

  const TableGridStyle: string := "Table Grid"

  /** The output document: its blocks in order. */
  class Document {
    var blocks: seq<Block>

    constructor()
      ensures blocks == []
    {
      blocks := [];
    }

    /** `add_paragraph` followed by formatting and runs. */
    method AddParagraph(format: ParagraphFormat, runs: seq<Run>)
      modifies this
      ensures blocks == old(blocks) + [Paragraph(format, runs)]
    {
      blocks := blocks + [Paragraph(format, runs)];
    }

    /** `add_paragraph()` with nothing in it. */
    method AddEmptyParagraph()
      modifies this
      ensures blocks == old(blocks) + [EmptyParagraph]
    {
      blocks := blocks + [EmptyParagraph];
    }

    /** `add_table` with the given style and cells. */
    method AddTable(style: string, grid: seq<seq<Cell>>)
      modifies this
      ensures blocks == old(blocks) + [Table(style, grid)]
    {
      blocks := blocks + [Table(style, grid)];
    }
  }

  // ---------------------------------------------------------------------
  // add_formatted_text
  // ---------------------------------------------------------------------

  /** The run for one segment, in the paragraph's font and size with the
      segment's own weight and slant. */
  function RunOf(g: Segment, font: string, size: int): Run {
    Run(g.text, SetRunFormat(font, size, g.bold, g.italic))
  }

  /** The runs for the segments, skipping those with empty text. */
  function RunsOf(segs: seq<Segment>, font: string, size: int): seq<Run> {
    if segs == [] then []
    else
      var last := segs[|segs| - 1];
      RunsOf(segs[..|segs| - 1], font, size) + (if last.text != [] then [RunOf(last, font, size)] else [])
  }

  /** The runs add_formatted_text adds: the enumeration marker's trailing
      whitespace removed, then the inline segments, empty ones skipped. */
  function FormattedRuns(text: string, font: string, size: int): seq<Run> {
    RunsOf(ParseInline(RemoveNumberSpace(text)), font, size)
  }

  /** add_formatted_text, returning the runs it appends to the paragraph. */
  method AddFormattedText(text: string, font: string, size: int) returns (runs: seq<Run>)
    ensures runs == FormattedRuns(text, font, size)
  {
    var t := RemoveNumberSpace(text);
    var segments := ParseInlineFormat(t);
    runs := [];
    for k := 0 to |segments|
      invariant runs == RunsOf(segments[..k], font, size)
    {
      assert segments[..k + 1][..k] == segments[..k];
      var g := segments[k];
      if g.text != [] {
        runs := runs + [RunOf(g, font, size)];
      }
    }
    assert segments[..|segments|] == segments;
  }

  /** A run written back in Markdown. */
  function RunMarkup(r: Run): string {
    if r.format.bold then "**" + r.text + "**"
    else if r.format.italic then "*" + r.text + "*"
    else r.text
  }

  function RunsMarkup(runs: seq<Run>): string {
    if runs == [] then [] else RunsMarkup(runs[..|runs| - 1]) + RunMarkup(runs[|runs| - 1])
  }

  lemma RunsMarkupSnoc(rs: seq<Run>, r: Run)
    ensures RunsMarkup(rs + [r]) == RunsMarkup(rs) + RunMarkup(r)
  {
    assert (rs + [r])[..|rs|] == rs;
  }

  /** Skipping segments with empty text loses nothing of the Markdown when
      only plain segments can be empty. */
  lemma {:induction false} RunsOfKeepsMarkup(segs: seq<Segment>, font: string, size: int)
    requires forall k :: 0 <= k < |segs| && segs[k].text == [] ==> !segs[k].bold && !segs[k].italic
    ensures RunsMarkup(RunsOf(segs, font, size)) == Unparse(segs)
    decreases |segs|
  {
    if segs != [] {
      var init := segs[..|segs| - 1];
      var last := segs[|segs| - 1];
      var before := RunsOf(init, font, size);
      assert RunsMarkup(before) == Unparse(init) by {
        assert forall k :: 0 <= k < |init| ==> init[k] == segs[k];
        RunsOfKeepsMarkup(init, font, size);
      }
      assert segs == init + [last];
      assert Unparse(segs) == Unparse(init) + Markup(last) by {
        UnparseSnoc(init, last);
      }
      if last.text != [] {
        var r := RunOf(last, font, size);
        assert RunsOf(segs, font, size) == before + [r];
        assert RunsMarkup(before + [r]) == RunsMarkup(before) + RunMarkup(r) by {
          RunsMarkupSnoc(before, r);
        }
        assert RunMarkup(r) == Markup(last);
      } else {
        assert !last.bold && !last.italic;
        assert Markup(last) == [];
        assert RunsOf(segs, font, size) == RunsOf(init, font, size);
        assert Unparse(segs) == Unparse(init);
      }
    }
  }

  /** Every run is in the paragraph's font and size, holds text, and never
      is both bold and italic. */
  lemma {:induction false} RunsOfShape(segs: seq<Segment>, font: string, size: int)
    requires forall k :: 0 <= k < |segs| ==> !(segs[k].bold && segs[k].italic)
    ensures forall r :: r in RunsOf(segs, font, size) ==>
              r.text != [] && r.format.font == font && r.format.size == size
              && !(r.format.bold && r.format.italic)
    decreases |segs|
  {
    if segs != [] {
      RunsOfShape(segs[..|segs| - 1], font, size);
    }
  }

  /** The runs, written back in Markdown, give the normalised text: nothing
      is lost by skipping empty segments, and every run takes the font and
      size it is given. */
  lemma FormattedRunsMeaning(text: string, font: string, size: int)
    ensures RunsMarkup(FormattedRuns(text, font, size)) == RemoveNumberSpace(text)
    ensures forall r :: r in FormattedRuns(text, font, size) ==>
              r.text != [] && r.format.font == font && r.format.size == size
              && !(r.format.bold && r.format.italic)
  {
    var t := RemoveNumberSpace(text);
    var segs := ParseInline(t);
    ScanSegmentShape(t, 0);
    assert forall k :: 0 <= k < |segs| && segs[k].text == [] ==> !segs[k].bold && !segs[k].italic;
    RunsOfKeepsMarkup(segs, font, size);
    InlineRoundTrip(t);
    RunsOfShape(segs, font, size);
  }

  /** A paragraph gets at least one run exactly when its text is not empty:
      the normaliser never empties a text, and the only empty segment is the
      one standing for empty input. */
  lemma FormattedRunsNonEmpty(text: string, font: string, size: int)
    ensures FormattedRuns(text, font, size) != [] <==> text != []
  {
    FormattedRunsMeaning(text, font, size);
    var t := RemoveNumberSpace(text);
    if text != [] {
      RemoveNumberSpaceKeepsText(text);
    } else {
      assert ParseInline(t) == [Segment([], false, false)];
    }
  }

  // ---------------------------------------------------------------------
  // add_table_to_doc
  // ---------------------------------------------------------------------

  /** Centred, with 3pt before and after. */
  const TableCellFormat: CellFormat := CellFormat(Center, 30, 30)

  /** The cell at row `i`, column `j` once the table is filled: the row's
      `j`-th text if it has one, in bold 黑体 for the header row and plain
      仿宋 below it; otherwise the cell stays as created. */
  function CellAt(tableData: seq<seq<string>>, i: nat, j: nat): Cell
    requires i < |tableData|
  {
    if j < |tableData[i]| then
      if i == 0 then Filled(tableData[i][j], TableCellFormat, SetRunFormat(FontHeiTi, SizeSanHao, bold := true))
      else Filled(tableData[i][j], TableCellFormat, SetRunFormat(FontFangSong, SizeSanHao))
    else Unfilled
  }

  /** The filled table: one row per row of data, as many columns as the
      header has. */
  function TableGrid(tableData: seq<seq<string>>): seq<seq<Cell>>
    requires |tableData| > 0
  {
    seq(|tableData|, i requires 0 <= i < |tableData| =>
      seq(|tableData[0]|, j requires 0 <= j < |tableData[0]| => CellAt(tableData, i, j)))
  }

  /** What add_table_to_doc appends: nothing without at least one data row,
      otherwise the table and an empty paragraph after it. */
  function TableBlocks(tableData: seq<seq<string>>): seq<Block> {
    if |tableData| < 2 then []
    else [Table(TableGridStyle, TableGrid(tableData)), EmptyParagraph]
  }

  /** A cell agrees with a row of the layout table. */
  predicate CellFollows(c: Cell, rule: StyleRule)
    requires c.Filled?
  {
    RunFollows(c.run, rule) && c.format.alignment == rule.alignment
  }

  /** The table has the data's rows and the header's columns; a cell is
      filled exactly when its row has text for it, holds that text, is
      styled by the header or data row of the layout table and has 3pt of
      space before and after; texts beyond the header's width are dropped. */
  lemma TableGridMeaning(tableData: seq<seq<string>>)
    requires |tableData| > 0
    ensures var g := TableGrid(tableData);
            |g| == |tableData|
            && forall i, j :: 0 <= i < |g| && 0 <= j < |g[i]| ==>
                 (g[i][j].Filled? <==> j < |tableData[i]|)
                 && (g[i][j].Filled? ==>
                       g[i][j].text == tableData[i][j]
                       && CellFollows(g[i][j], Rule(if i == 0 then TableHeader else TableData))
                       && g[i][j].format.spaceBefore == 30 && g[i][j].format.spaceAfter == 30)
    ensures forall i :: 0 <= i < |tableData| ==> |TableGrid(tableData)[i]| == |tableData[0]|
  {
  }

  /** The table as it stands in the array of cells. */
  function GridOf(grid: array2<Cell>): seq<seq<Cell>>
    reads grid
  {
    seq(grid.Length0, i requires 0 <= i < grid.Length0 reads grid =>
      seq(grid.Length1, j requires 0 <= j < grid.Length1 reads grid => grid[i, j]))
  }

  /** An array holding every cell of the filled table reads as that table. */
  lemma GridOfFilled(grid: array2<Cell>, tableData: seq<seq<string>>)
    requires |tableData| > 0 && grid.Length0 == |tableData| && grid.Length1 == |tableData[0]|
    requires forall r, c :: 0 <= r < grid.Length0 && 0 <= c < grid.Length1 ==> grid[r, c] == CellAt(tableData, r, c)
    ensures GridOf(grid) == TableGrid(tableData)
  {
    var g := GridOf(grid);
    var t := TableGrid(tableData);
    forall i | 0 <= i < |tableData|
      ensures g[i] == t[i]
    {
      assert |g[i]| == |t[i]|;
      forall j | 0 <= j < |t[i]|
        ensures g[i][j] == t[i][j]
      {
      }
    }
  }

  /** add_table_to_doc: a table of `|tableData|` rows and as many columns as
      the header, filled row by row, then an empty paragraph; nothing when
      there is no data row. */
  method AddTableToDoc(doc: Document, tableData: seq<seq<string>>)
    modifies doc
    ensures doc.blocks == old(doc.blocks) + TableBlocks(tableData)
  {
    if |tableData| < 2 {
      assert doc.blocks == old(doc.blocks) + [];
      return;
    }
    var rows := |tableData|;
    var cols := |tableData[0]|;
    var grid := new Cell[rows, cols]((i, j) => Unfilled);
    for i := 0 to rows
      modifies grid
      invariant forall r, c :: 0 <= r < rows && 0 <= c < cols ==>
                  grid[r, c] == (if r < i then CellAt(tableData, r, c) else Unfilled)
    {
      var rowData := tableData[i];
      for j := 0 to |rowData|
        modifies grid
        invariant forall r, c :: 0 <= r < rows && 0 <= c < cols ==>
                    grid[r, c] == (if r < i || (r == i && c < j) then CellAt(tableData, r, c) else Unfilled)
      {
        if j < cols {
          if i == 0 {
            grid[i, j] := Filled(rowData[j], TableCellFormat, SetRunFormat(FontHeiTi, SizeSanHao, bold := true));
          } else {
            grid[i, j] := Filled(rowData[j], TableCellFormat, SetRunFormat(FontFangSong, SizeSanHao));
          }
        }
      }
    }
    GridOfFilled(grid, tableData);
    var filled := GridOf(grid);
    doc.AddTable(TableGridStyle, filled);
    doc.AddEmptyParagraph();
    assert doc.blocks == old(doc.blocks) + [Table(TableGridStyle, filled), EmptyParagraph];
  }
}
