/** The formatting vocabulary of md2gov_docx.py: its font, size, spacing and
    margin constants, the paragraph and run formats that apply_paragraph_format
    and set_run_format write, and the converter's layout table: the format
    each structural role of the output receives.

    Lengths are whole tenths of a point (22pt is 220, 28.8pt is 288) and
    page margins whole millimetres, so that no fractional arithmetic is
    needed. */
module Styles {
  import opened Text

  // Font names (md2gov_docx.py lines 19-22).
  const FontFangSong: string := "仿宋_GB2312"
  const FontKaiTi: string := "楷体_GB2312"
  const FontHeiTi: string := "黑体"
  const FontXiaoBiaoSong: string := "方正小标宋简体"

  // Sizes, in tenths of a point (lines 25-31).
  const SizeErHao := 220
  const SizeSanHao := 160
  const LineSpacing288 := 288
  const FirstLineIndent32 := 320

  /** Page margins, in millimetres. */
  datatype PageMargins = PageMargins(top: int, bottom: int, left: int, right: int)

  /** The margins setup_page_margins gives every section of the document
      (lines 34-37 and 214-220). */
  const GovPageMargins: PageMargins := PageMargins(37, 35, 28, 26)

  /** The two paragraph alignments the converter uses. */
  datatype Alignment = Center | JustifyLow

  /** What apply_paragraph_format writes into a paragraph. */
  datatype ParagraphFormat = ParagraphFormat(
    alignment: Alignment,
    firstLineIndent: int,
    lineSpacing: int,
    spaceBefore: int,
    spaceAfter: int)

  /** What set_run_format writes into a run (the colour argument is never
      passed by the converter). */
  datatype RunFormat = RunFormat(font: string, size: int, bold: bool, italic: bool)

  /** apply_paragraph_format with its keyword defaults: justify-low, a 32pt
      first-line indent, fixed 28.8pt line spacing, no space before or
      after. */
  function ApplyParagraphFormat(
    alignment: Alignment := JustifyLow,
    indent: int := FirstLineIndent32,
    lineSpacing: int := LineSpacing288,
    spaceBefore: int := 0,
    spaceAfter: int := 0): ParagraphFormat
  {
    ParagraphFormat(alignment, indent, lineSpacing, spaceBefore, spaceAfter)
  }

  /** set_run_format with its keyword defaults: neither bold nor italic. */
  function SetRunFormat(font: string, size: int, bold: bool := false, italic: bool := false): RunFormat {
    RunFormat(font, size, bold, italic)
  }

  // ---------------------------------------------------------------------
  // The converter's layout table: one row per structural role, collecting
  // the fonts, sizes, weights and paragraph settings that the branches of
  // the line loop and add_table_to_doc write. The builder does not consult
  // it; lemmas show that what each branch writes agrees with its row.
  // ---------------------------------------------------------------------

  /** The structural roles of emitted text. */
  datatype Role = Title | Heading2 | Heading3 | Heading4 | ListItem | Body | TableHeader | TableData

  /** A row of the table. `bold` is `None` where the weight comes from the
      inline emphasis of each run; `indent` and `lineSpacing` are `None` for
      table cells, which keep the table's own defaults. */
  datatype StyleRule = StyleRule(
    font: string,
    size: int,
    bold: Option<bool>,
    alignment: Alignment,
    indent: Option<int>,
    lineSpacing: Option<int>)

  function Rule(role: Role): StyleRule {
    match role
    case Title => StyleRule(FontXiaoBiaoSong, 220, Some(true), Center, Some(0), Some(288))
    case Heading2 => StyleRule(FontHeiTi, 160, Some(false), JustifyLow, Some(320), Some(288))
    case Heading3 => StyleRule(FontKaiTi, 160, Some(true), JustifyLow, Some(320), Some(288))
    case Heading4 => StyleRule(FontKaiTi, 160, Some(false), JustifyLow, Some(320), Some(288))
    case ListItem => StyleRule(FontFangSong, 160, None, JustifyLow, Some(320), Some(288))
    case Body => StyleRule(FontFangSong, 160, None, JustifyLow, Some(320), Some(288))
    case TableHeader => StyleRule(FontHeiTi, 160, Some(true), Center, None, None)
    case TableData => StyleRule(FontFangSong, 160, Some(false), Center, None, None)
  }

  /** A run agrees with a rule: the rule's font and size, and its weight
      where the rule fixes one. Body runs are never italic unless their
      segment is. */
  predicate RunFollows(f: RunFormat, rule: StyleRule) {
    f.font == rule.font && f.size == rule.size
    && (rule.bold.Some? ==> f.bold == rule.bold.value && !f.italic)
  }

  /** A paragraph format agrees with a rule; paragraphs of text have no
      space before or after. */
  predicate ParagraphFollows(p: ParagraphFormat, rule: StyleRule) {
    p.alignment == rule.alignment
    && rule.indent == Some(p.firstLineIndent)
    && rule.lineSpacing == Some(p.lineSpacing)
    && p.spaceBefore == 0 && p.spaceAfter == 0
  }

  /** List items and body text share one row: 仿宋 三号, weight from the
      inline emphasis, justified with the default indent and spacing. */
  lemma BodyTextRule(role: Role)
    requires role == ListItem || role == Body
    ensures Rule(role) == StyleRule(FontFangSong, SizeSanHao, None, JustifyLow, Some(FirstLineIndent32), Some(LineSpacing288))
  {
  }

  /** The defaults of apply_paragraph_format are exactly the heading and
      body rows of the table, and the title's override is the title row. */
  lemma ParagraphDefaultsFollowTable(role: Role)
    requires role != Title && role != TableHeader && role != TableData
    ensures ParagraphFollows(ApplyParagraphFormat(), Rule(role))
    ensures ParagraphFollows(ApplyParagraphFormat(alignment := Center, indent := 0, lineSpacing := LineSpacing288), Rule(Title))
  {
  }
}
