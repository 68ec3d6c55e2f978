/** The three pure text transformations of md2gov_docx.py:
    remove_number_space (NUMBER_SPACE_PATTERN.sub), clean_markdown_marks (four
    `re.sub` passes) and parse_table_row (strip, trim one pipe at each end,
    split on pipes, strip every cell). */
module Transforms {
  import opened Text
  import opened Patterns

  // ---------------------------------------------------------------------
  // remove_number_space
  // ---------------------------------------------------------------------

  /** NUMBER_SPACE_PATTERN `^(marker)\s+` matches `t[..n]`, with the marker
      (group 1) being `t[..m]`: the whitespace run after the marker is
      non-empty and, `\s+` being greedy, maximal. */
  ghost predicate NumberSpaceMatch(t: string, m: nat, n: nat) {
    m < n <= |t| && IsEnumerationMarker(t[..m])
    && (forall k :: m <= k < n ==> IsSpace(t[k]))
    && (n == |t| || !IsSpace(t[n]))
  }

  /** remove_number_space: the whitespace run that follows a leading
      enumeration marker (`一、`, `1.`, `（一）`) is deleted; any other text
      comes back as it is. */
  function RemoveNumberSpace(t: string): (r: string)
    ensures |r| <= |t|
    ensures r != t ==> EnumerationMarkerEnd(t).Some?
  {
    match EnumerationMarkerEnd(t)
    case None => t
    case Some(m) =>
      var n := SkipWhile(t, m, IsSpace);
      if m < n then t[..m] + t[n..] else t
  }

  /** The text changes exactly when the pattern matches, and then only the
      whitespace run after the marker goes. */
  lemma RemoveNumberSpaceMeaning(t: string)
    ensures forall m: nat, n: nat :: NumberSpaceMatch(t, m, n) ==> RemoveNumberSpace(t) == t[..m] + t[n..]
    ensures (forall m: nat, n: nat :: !NumberSpaceMatch(t, m, n)) ==> RemoveNumberSpace(t) == t
  {
    EnumerationMarkerEndMeaning(t);
    forall m: nat, n: nat | NumberSpaceMatch(t, m, n)
      ensures RemoveNumberSpace(t) == t[..m] + t[n..]
    {
      assert EnumerationMarkerEnd(t) == Some(m);
      SkipWhileStopsAt(t, m, IsSpace, n);
    }
    match EnumerationMarkerEnd(t)
    case None =>
    case Some(m) =>
      var n := SkipWhile(t, m, IsSpace);
      SkipWhileAll(t, m, IsSpace);
      if m < n {
        assert NumberSpaceMatch(t, m, n);
      }
  }

  /** Running the normaliser twice changes nothing more: the marker is still
      at the front and is now followed by a non-space character (or by
      nothing). */
  lemma RemoveNumberSpaceIdempotent(t: string)
    ensures RemoveNumberSpace(RemoveNumberSpace(t)) == RemoveNumberSpace(t)
  {
    var r := RemoveNumberSpace(t);
    EnumerationMarkerEndMeaning(t);
    match EnumerationMarkerEnd(t)
    case None =>
    case Some(m) =>
      var n := SkipWhile(t, m, IsSpace);
      if m < n {
        assert r[..m] == t[..m];
        EnumerationMarkerEndMeaning(r);
        assert EnumerationMarkerEnd(r) == Some(m);
        assert m == |r| || r[m] == t[n];
        SkipWhileStopsAt(r, m, IsSpace, m);
      }
  }

  /** The marker itself is kept, so no text is emptied. */
  lemma RemoveNumberSpaceKeepsText(t: string)
    requires t != []
    ensures RemoveNumberSpace(t) != []
  {
  }

  /** The docstring's three examples. */
  lemma RemoveNumberSpaceChineseExample()
    ensures RemoveNumberSpace("一、 总体要求") == "一、总体要求"
  {
    var t := "一、 总体要求";
    assert t[..2] == ['一', '、'];
    assert t[3..] == "总体要求";
    assert t[..2] + t[3..] == "一、总体要求";
    assert RunThen(t[..2], 0, IsChineseNumeral, '、');
    NumberSpaceExample(t, 2, 3);
  }

  lemma RemoveNumberSpaceDigitExample()
    ensures RemoveNumberSpace("1. 字体要求") == "1.字体要求"
  {
    var t := "1. 字体要求";
    assert t[..2] == ['1', '.'];
    assert t[3..] == "字体要求";
    assert t[..2] + t[3..] == "1.字体要求";
    assert RunThen(t[..2], 0, IsDigit, '.');
    NumberSpaceExample(t, 2, 3);
  }

  lemma RemoveNumberSpaceParenExample()
    ensures RemoveNumberSpace("（一） 加强培训") == "（一）加强培训"
  {
    var t := "（一） 加强培训";
    assert t[..3] == ['（', '一', '）'];
    assert t[4..] == "加强培训";
    assert t[..3] + t[4..] == "（一）加强培训";
    assert RunThen(t[..3], 1, IsChineseNumeral, '）');
    NumberSpaceExample(t, 3, 4);
  }

  /** Only the space after the leading marker goes; a second application
      finds the marker followed by a digit and changes nothing. */
  lemma RemoveNumberSpaceNestedExample()
    ensures RemoveNumberSpace("1. 2. x") == "1.2. x"
    ensures RemoveNumberSpace("1.2. x") == "1.2. x"
  {
    var t := "1. 2. x";
    assert t[..2] == ['1', '.'];
    assert t[3..] == "2. x";
    assert t[..2] + t[3..] == "1.2. x";
    assert RunThen(t[..2], 0, IsDigit, '.');
    NumberSpaceExample(t, 2, 3);
    RemoveNumberSpaceIdempotent(t);
  }

  lemma NumberSpaceExample(t: string, m: nat, n: nat)
    requires m < n <= |t| && IsEnumerationMarker(t[..m])
    requires forall k :: m <= k < n ==> IsSpace(t[k])
    requires n == |t| || !IsSpace(t[n])
    ensures RemoveNumberSpace(t) == t[..m] + t[n..]
  {
    RemoveNumberSpaceMeaning(t);
    assert NumberSpaceMatch(t, m, n);
  }

  // ---------------------------------------------------------------------
  // clean_markdown_marks
  // ---------------------------------------------------------------------

  /** `re.sub(D(.+?)D, r'\1', s[p..])`: scanning from `p`, every match is
      replaced by its inner text and every other character is kept. */
  function SubDelimited(s: string, d: string, p: nat): (r: string)
    requires p <= |s| && |d| > 0
    ensures |r| <= |s| - p
    decreases |s| - p
  {
    if p == |s| then []
    else if DelimitedAt(s, p, d).Some? then
      var e := DelimitedAt(s, p, d).value;
      s[p + |d|..e - |d|] + SubDelimited(s, d, e)
    else [s[p]] + SubDelimited(s, d, p + 1)
  }

  /** A substitution leaves the text unchanged exactly when the pattern
      matches nowhere in it. */
  lemma {:induction false} SubDelimitedUnchanged(s: string, d: string, p: nat)
    requires p <= |s| && |d| > 0
    ensures SubDelimited(s, d, p) == s[p..] <==> Search(s, p, d).None?
    decreases |s| - p
  {
    if p < |s| {
      if DelimitedAt(s, p, d).Some? {
        assert Search(s, p, d) == Some(p);
        SubDelimitedShrinks(s, d, p, DelimitedAt(s, p, d).value);
        assert |SubDelimited(s, d, p)| != |s[p..]|;
      } else {
        var rest := SubDelimited(s, d, p + 1);
        assert SubDelimited(s, d, p) == [s[p]] + rest;
        assert Search(s, p, d) == Search(s, p + 1, d);
        assert s[p..] == [s[p]] + s[p + 1..];
        SubDelimitedUnchanged(s, d, p + 1);
        ConsEqual(s[p], rest, s[p + 1..]);
      }
    }
  }

  /** A match at `p` makes the output shorter than the input. */
  lemma SubDelimitedShrinks(s: string, d: string, p: nat, e: nat)
    requires p < |s| && |d| > 0 && DelimitedAt(s, p, d) == Some(e)
    ensures |SubDelimited(s, d, p)| < |s| - p
  {
    var inner := s[p + |d|..e - |d|];
    var rest := SubDelimited(s, d, e);
    assert SubDelimited(s, d, p) == inner + rest;
    assert |inner| == e - p - 2 * |d| && |rest| <= |s| - e;
  }

  lemma ConsEqual(c: char, x: string, y: string)
    ensures [c] + x == [c] + y <==> x == y
  {
    if [c] + x == [c] + y {
      assert x == ([c] + x)[1..];
    }
  }

  /** The pattern cannot match where the first character of its delimiter
      does not occur. */
  lemma {:induction false} SearchNeedsDelimiter(s: string, d: string, p: nat)
    requires p <= |s| && |d| > 0
    requires forall k :: p <= k < |s| ==> s[k] != d[0]
    ensures Search(s, p, d).None?
    decreases |s| - p
  {
    if p < |s| {
      SearchNeedsDelimiter(s, d, p + 1);
    }
  }

  /** One `re.sub` pass over the whole text. */
  function Sub(s: string, d: string): (r: string)
    requires |d| > 0
  {
    SubDelimited(s, d, 0)
  }

  /** clean_markdown_marks: the bold, italic, code and strikethrough passes,
      in that order. */
  function CleanMarkdownMarks(t: string): (r: string)
    ensures |r| <= |t|
  {
    Sub(Sub(Sub(Sub(t, "**"), "*"), "`"), "~~")
  }

  /** A pass leaves text without the delimiter's first character unchanged
      and introduces no character that was not there. */
  lemma SubWithoutDelimiter(s: string, d: string)
    requires |d| > 0 && d[0] !in s
    ensures Sub(s, d) == s
  {
    SearchNeedsDelimiter(s, d, 0);
    SubDelimitedUnchanged(s, d, 0);
  }

  /** Every character of a pass's output was in its input. */
  lemma {:induction false} SubDelimitedChars(s: string, d: string, p: nat)
    requires p <= |s| && |d| > 0
    ensures forall c :: c in SubDelimited(s, d, p) ==> c in s[p..]
    decreases |s| - p
  {
    if p < |s| {
      match DelimitedAt(s, p, d)
      case Some(e) =>
        SubDelimitedChars(s, d, e);
        assert forall c :: c in s[p + |d|..e - |d|] ==> c in s[p..];
        assert forall c :: c in s[e..] ==> c in s[p..];
      case None =>
        SubDelimitedChars(s, d, p + 1);
        assert forall c :: c in s[p + 1..] ==> c in s[p..];
    }
  }

  /** Text free of `*`, backtick and `~` passes through the cleaner
      unchanged. */
  lemma CleanWithoutMarks(t: string)
    requires '*' !in t && '`' !in t && '~' !in t
    ensures CleanMarkdownMarks(t) == t
  {
    SubWithoutDelimiter(t, "**");
    SubWithoutDelimiter(t, "*");
    SubWithoutDelimiter(t, "`");
    SubWithoutDelimiter(t, "~~");
  }

  /** The cleaner never adds a character that was not in its input. */
  lemma CleanKeepsCharacters(t: string)
    ensures forall c :: c in CleanMarkdownMarks(t) ==> c in t
  {
    var a := Sub(t, "**");
    var b := Sub(a, "*");
    var c := Sub(b, "`");
    SubDelimitedChars(t, "**", 0);
    SubDelimitedChars(a, "*", 0);
    SubDelimitedChars(b, "`", 0);
    SubDelimitedChars(c, "~~", 0);
    assert t[0..] == t && a[0..] == a && b[0..] == b && c[0..] == c;
  }

  /** The docstring's examples. */
  lemma CleanBoldExample()
    ensures CleanMarkdownMarks("**一级标题**") == "一级标题"
  {
    CleanBold("**一级标题**");
  }

  lemma CleanBold(s: string)
    requires s == "**一级标题**"
    ensures CleanMarkdownMarks(s) == "一级标题"
  {
    NotAt(s, 3, "**");
    NotAt(s, 4, "**");
    NotAt(s, 5, "**");
    assert s[6..8] == "**";
    assert CloseFrom(s, 0, "**", 6) == Some(8);
    assert CloseFrom(s, 0, "**", 5) == Some(8);
    assert CloseFrom(s, 0, "**", 4) == Some(8);
    assert CloseFrom(s, 0, "**", 3) == Some(8);
    assert s[0..2] == "**";
    assert DelimitedAt(s, 0, "**") == Some(8);
    assert SubDelimited(s, "**", 8) == [];
    assert SubDelimited(s, "**", 0) == s[2..6] + [];
    var x := Sub(s, "**");
    assert x == s[2..6] == "一级标题";
    SubWithoutDelimiter(x, "*");
    SubWithoutDelimiter(x, "`");
    SubWithoutDelimiter(x, "~~");
  }

  lemma CleanItalicExample()
    ensures CleanMarkdownMarks("*重要*内容") == "重要内容"
  {
    CleanItalic("*重要*内容");
  }

  lemma CleanItalic(s: string)
    requires s == "*重要*内容"
    ensures CleanMarkdownMarks(s) == "重要内容"
  {
    assert Sub(s, "**") == s by {
      SearchNoBold(s);
      SubDelimitedUnchanged(s, "**", 0);
    }
    NotAt(s, 2, "*");
    assert OccursAt(s, 3, "*");
    assert CloseFrom(s, 0, "*", 2) == Some(4);
    assert DelimitedAt(s, 0, "*") == Some(4);
    SearchNeedsDelimiter(s, "*", 4);
    SubDelimitedUnchanged(s, "*", 4);
    assert SubDelimited(s, "*", 0) == s[1..3] + SubDelimited(s, "*", 4);
    var x := Sub(s, "*");
    assert x == s[1..3] + s[4..] == "重要内容";
    SubWithoutDelimiter(x, "`");
    SubWithoutDelimiter(x, "~~");
  }

  lemma NotAt(s: string, i: nat, d: string)
    requires i < |s| && |d| > 0 && s[i] != d[0]
    ensures !OccursAt(s, i, d)
  {
    if i + |d| <= |s| {
      assert s[i..i + |d|][0] == s[i];
    }
  }

  lemma SearchNoBold(s: string)
    requires s == "*重要*内容"
    ensures Search(s, 0, "**").None?
  {
    NotAt(s, 1, "*");
    assert !OccursAt(s, 0, "**") by {
      assert s[0..2][1] == s[1];
    }
    NotAt(s, 4, "*");
    assert !OccursAt(s, 3, "**") by {
      assert s[3..5][1] == s[4];
    }
    SearchNeedsDelimiter(s, "**", 4);
    assert Search(s, 1, "**") == Search(s, 4, "**");
  }

  // ---------------------------------------------------------------------
  // parse_table_row
  // ---------------------------------------------------------------------

  /** The row with surrounding whitespace removed and then at most one `|`
      dropped from the front and one from the back. */
  function RowBody(line: string): (b: string) {
    var t := Strip(line);
    var t1 := if |t| > 0 && t[0] == '|' then t[1..] else t;
    if |t1| > 0 && t1[|t1| - 1] == '|' then t1[..|t1| - 1] else t1
  }

  /** Every string in the list, stripped. */
  function StripAll(pieces: seq<string>): (r: seq<string>)
    ensures |r| == |pieces|
  {
    if pieces == [] then [] else [Strip(pieces[0])] + StripAll(pieces[1..])
  }

  /** Each result is its piece, stripped. */
  lemma {:induction false} StripAllAt(pieces: seq<string>, k: nat)
    requires k < |pieces|
    ensures StripAll(pieces)[k] == Strip(pieces[k])
  {
    if k > 0 {
      StripAllAt(pieces[1..], k - 1);
    }
  }

  /** parse_table_row: the stripped pieces of the row body between pipes. */
  function ParseTableRow(line: string): (cells: seq<string>)
    ensures |cells| > 0
  {
    StripAll(Split(RowBody(line), '|'))
  }

  /** Cells never number zero: one more than the pipes inside the body, and
      every cell is stripped and free of pipes. */
  lemma ParseTableRowShape(line: string)
    ensures |ParseTableRow(line)| == multiset(RowBody(line))['|'] + 1
    ensures forall k :: 0 <= k < |ParseTableRow(line)| ==>
              IsStripped(ParseTableRow(line)[k]) && '|' !in ParseTableRow(line)[k]
  {
    var pieces := Split(RowBody(line), '|');
    SplitCount(RowBody(line), '|');
    SplitPiecesLackSeparator(RowBody(line), '|');
    StripAllSubstrings(pieces);
    forall k | 0 <= k < |pieces| ensures IsStripped(StripAll(pieces)[k]) {
      StripAllAt(pieces, k);
    }
  }

  /** A stripped piece is a slice of the piece it came from. */
  lemma {:induction false} StripAllSubstrings(pieces: seq<string>)
    ensures forall k, c :: 0 <= k < |pieces| && c in StripAll(pieces)[k] ==> c in pieces[k]
  {
    if pieces != [] {
      StripAllSubstrings(pieces[1..]);
      StripKeepsCharacters(pieces[0]);
    }
  }

  /** Stripping text that is already stripped changes nothing. */
  lemma StripStripped(t: string)
    requires IsStripped(t)
    ensures Strip(t) == t
  {
    if t != [] {
      assert SpaceRunEnd(t, 0) == 0;
      assert SpaceRunStart(t, 0, |t|) == |t|;
    }
  }

  /** Stripped, pipe-free cells written as `|c1|c2|...|` parse back into the
      same cells. */
  lemma TableRowRoundTrip(cells: seq<string>)
    requires |cells| > 0
    requires forall k :: 0 <= k < |cells| ==> IsStripped(cells[k]) && '|' !in cells[k]
    ensures ParseTableRow("|" + Join(cells, '|') + "|") == cells
  {
    RowBodyOfFenced(Join(cells, '|'));
    JoinSplit(cells, '|');
    StripAllStripped(cells);
  }

  /** The body of `|j|` is `j`, whatever `j` holds. */
  lemma RowBodyOfFenced(j: string)
    ensures RowBody("|" + j + "|") == j
  {
    var line := "|" + j + "|";
    assert line[0] == '|' && line[|line| - 1] == '|';
    StripStripped(line);
    var t1 := line[1..];
    assert t1 == j + "|";
    assert t1[|t1| - 1] == '|';
    assert t1[..|t1| - 1] == j;
  }

  lemma {:induction false} StripAllStripped(pieces: seq<string>)
    requires forall k :: 0 <= k < |pieces| ==> IsStripped(pieces[k])
    ensures StripAll(pieces) == pieces
  {
    if pieces != [] {
      StripStripped(pieces[0]);
      StripAllStripped(pieces[1..]);
    }
  }

  lemma TableRowExample()
    ensures ParseTableRow("字段 | 值") == ["字段", "值"]
  {
    TableRow("字段 | 值");
  }

  lemma TableRow(line: string)
    requires line == "字段 | 值"
    ensures ParseTableRow(line) == ["字段", "值"]
  {
    StripStripped(line);
    assert RowBody(line) == line;
    assert line == "字段 " + ['|'] + " 值";
    SplitAfter("字段 ", '|', " 值");
    SplitWithout(" 值", '|');
    StripTrailing("字段 ");
    StripLeading(" 值");
    assert StripAll(["字段 ", " 值"]) == [Strip("字段 ")] + StripAll([" 值"]);
    assert StripAll([" 值"]) == [Strip(" 值")] + StripAll([]);
  }

  lemma StripTrailing(t: string)
    requires t == "字段 "
    ensures Strip(t) == "字段"
  {
    assert SpaceRunEnd(t, 0) == 0;
    assert SpaceRunStart(t, 0, 3) == 2;
  }

  lemma StripLeading(t: string)
    requires t == " 值"
    ensures Strip(t) == "值"
  {
    assert SpaceRunEnd(t, 0) == 1;
    assert SpaceRunStart(t, 1, 2) == 2;
  }
}
