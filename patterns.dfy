/** The fixed recognisers of md2gov_docx.py (the module-level compiled
    regular expressions), each coded by hand for the one pattern it stands
    for. Python's `re` semantics are kept where they show: `.` matches every
    character but a newline, `\s` is `Text.IsSpace`, `+?` is lazy and `+` is
    greedy with backtracking. */
module Patterns {
  import opened Text

  /** `\d`: ASCII and fullwidth decimal digits. */
  predicate IsDigit(c: char) {
    ('0' <= c <= '9') || ('\U{FF10}' <= c <= '\U{FF19}')
  }

  /** The class `[一二三四五六七八九十]`. */
  predicate IsChineseNumeral(c: char) {
    c in "一二三四五六七八九十"
  }

  /** The class `[-:]`. */
  predicate IsDashOrColon(c: char) {
    c == '-' || c == ':'
  }

  /** `s[i..]` begins with the literal `d`. */
  predicate OccursAt(s: string, i: nat, d: string) {
    i + |d| <= |s| && s[i..i + |d|] == d
  }

  // ---------------------------------------------------------------------
  // Delimited spans: MD_BOLD_PATTERN `\*\*(.+?)\*\*`, MD_ITALIC_PATTERN
  // `\*(.+?)\*`, and the code and strikethrough patterns of
  // clean_markdown_marks, all of the form D(.+?)D for a literal D.
  // ---------------------------------------------------------------------

  /** The regex D(.+?)D, with `d` the literal D, matches at `p` and the match
      ends at `e`: `d` at `p`, a non-empty inner part free of newlines, `d`
      again just before `e`, and (laziness) no earlier closing `d` after the
      first inner character. */
  ghost predicate LazyMatch(s: string, p: nat, d: string, e: nat) {
    |d| > 0 && p + 2 * |d| < e <= |s|
    && OccursAt(s, p, d) && OccursAt(s, e - |d|, d)
    && !HasNewline(s[p + |d|..e - |d|])
    && forall j :: p + |d| < j < e - |d| ==> !OccursAt(s, j, d)
  }

  /** The lazy search for the closing delimiter, trying the inner part
      `s[p + |d|..j]` for j = j, j + 1, ...; the end of the match, if any. */
  function CloseFrom(s: string, p: nat, d: string, j: nat): (e: Option<nat>)
    requires 0 < |d| && p + |d| < j <= |s|
    ensures e.Some? ==> j + |d| <= e.value <= |s|
    decreases |s| - j
  {
    if s[j - 1] == '\n' then None
    else if OccursAt(s, j, d) then Some(j + |d|)
    else if j < |s| then CloseFrom(s, p, d, j + 1)
    else None
  }

  /** No character of `s[a..b]` is a newline, said by position. */
  predicate NoNewlineBetween(s: string, a: nat, b: nat)
    requires a <= b <= |s|
  {
    forall k :: a <= k < b ==> s[k] != '\n'
  }

  lemma NoNewlineSlice(s: string, a: nat, b: nat)
    requires a <= b <= |s|
    ensures NoNewlineBetween(s, a, b) <==> !HasNewline(s[a..b])
  {
    if !NoNewlineBetween(s, a, b) {
      var k :| a <= k < b && s[k] == '\n';
      assert s[a..b][k - a] == '\n';
    }
  }

  /** When the lazy search succeeds, it stops at the first closing
      delimiter reached, and no newline lies before that delimiter. */
  lemma {:induction false} CloseFromFound(s: string, p: nat, d: string, j: nat, e: nat)
    requires 0 < |d| && p + |d| < j <= |s| && CloseFrom(s, p, d, j) == Some(e)
    ensures OccursAt(s, e - |d|, d) && NoNewlineBetween(s, j - 1, e - |d|)
    ensures forall c :: j <= c < e - |d| ==> !OccursAt(s, c, d)
    decreases |s| - j
  {
    if !OccursAt(s, j, d) {
      CloseFromFound(s, p, d, j + 1, e);
    }
  }

  /** When the lazy search fails, every closing delimiter lies beyond a
      newline. */
  lemma {:induction false} CloseFromMissing(s: string, p: nat, d: string, j: nat, c: nat)
    requires 0 < |d| && p + |d| < j <= |s| && CloseFrom(s, p, d, j).None?
    requires j <= c && OccursAt(s, c, d)
    ensures !NoNewlineBetween(s, j - 1, c)
    decreases |s| - j
  {
    if s[j - 1] != '\n' {
      CloseFromMissing(s, p, d, j + 1, c);
    }
  }

  /** `re.compile(D(.+?)D).match(s, p)`: the end of the match at `p`. */
  function DelimitedAt(s: string, p: nat, d: string): (r: Option<nat>)
    requires p <= |s| && |d| > 0
    ensures r.Some? ==> p + 2 * |d| < r.value <= |s|
  {
    if p + |d| + 1 <= |s| && OccursAt(s, p, d) then CloseFrom(s, p, d, p + |d| + 1)
    else None
  }

  /** The matcher finds exactly the lazy match the regex defines. */
  lemma DelimitedAtMeaning(s: string, p: nat, d: string)
    requires p <= |s| && |d| > 0
    ensures DelimitedAt(s, p, d).Some? ==> LazyMatch(s, p, d, DelimitedAt(s, p, d).value)
    ensures forall e: nat :: LazyMatch(s, p, d, e) ==> DelimitedAt(s, p, d) == Some(e)
  {
    if DelimitedAt(s, p, d).Some? {
      DelimitedAtSound(s, p, d, DelimitedAt(s, p, d).value);
    }
    forall e: nat | LazyMatch(s, p, d, e) ensures DelimitedAt(s, p, d) == Some(e) {
      DelimitedAtComplete(s, p, d, e);
    }
  }

  lemma DelimitedAtSound(s: string, p: nat, d: string, e: nat)
    requires p <= |s| && |d| > 0 && DelimitedAt(s, p, d) == Some(e)
    ensures LazyMatch(s, p, d, e)
  {
    var j := p + |d| + 1;
    assert j <= |s| && OccursAt(s, p, d) && CloseFrom(s, p, d, j) == Some(e);
    CloseFromFound(s, p, d, j, e);
    NoNewlineSlice(s, p + |d|, e - |d|);
  }

  lemma DelimitedAtComplete(s: string, p: nat, d: string, e: nat)
    requires p <= |s| && |d| > 0 && LazyMatch(s, p, d, e)
    ensures DelimitedAt(s, p, d) == Some(e)
  {
    var j := p + |d| + 1;
    assert j <= |s| && OccursAt(s, p, d);
    assert DelimitedAt(s, p, d) == CloseFrom(s, p, d, j);
    NoNewlineSlice(s, p + |d|, e - |d|);
    if CloseFrom(s, p, d, j).None? {
      CloseFromMissing(s, p, d, j, e - |d|);
      assert false;
    } else {
      CloseFromFound(s, p, d, j, CloseFrom(s, p, d, j).value);
    }
  }

  /** `re.compile(D(.+?)D).search(s, pos)`: the leftmost match start at or
      after `pos`. */
  function Search(s: string, pos: nat, d: string): (r: Option<nat>)
    requires pos <= |s| && |d| > 0
    ensures r.Some? ==> pos <= r.value < |s| && DelimitedAt(s, r.value, d).Some?
    decreases |s| - pos
  {
    if pos == |s| then None
    else if DelimitedAt(s, pos, d).Some? then Some(pos)
    else Search(s, pos + 1, d)
  }

  /** No match starts between `pos` and the position the search returns
      (or the end of the text when it returns nothing). */
  lemma {:induction false} SearchIsLeftmost(s: string, pos: nat, d: string)
    requires pos <= |s| && |d| > 0
    ensures var r := Search(s, pos, d);
            forall q :: pos <= q <= |s| && (r.Some? ==> q < r.value) ==> DelimitedAt(s, q, d).None?
    decreases |s| - pos
  {
    if pos < |s| && DelimitedAt(s, pos, d).None? {
      SearchIsLeftmost(s, pos + 1, d);
    }
  }

  /** MD_BOLD_PATTERN at `p`. */
  function BoldAt(s: string, p: nat): Option<nat>
    requires p <= |s|
  {
    DelimitedAt(s, p, "**")
  }

  /** MD_ITALIC_PATTERN at `p`. */
  function ItalicAt(s: string, p: nat): Option<nat>
    requires p <= |s|
  {
    DelimitedAt(s, p, "*")
  }

  /** Wherever the bold pattern matches, the italic pattern matches too: its
      lazy inner part stops at the latest at the bold match's closing `**`. */
  lemma BoldImpliesItalic(s: string, p: nat)
    requires p <= |s|
    ensures BoldAt(s, p).Some? ==> ItalicAt(s, p).Some?
  {
    if BoldAt(s, p).Some? {
      var e := BoldAt(s, p).value;
      DelimitedAtMeaning(s, p, "**");
      var c := ItalicCloseBefore(s, p, e - 2);
      forall j | p + 1 < j < c ensures !OccursAt(s, j, "*") {
        assert s[j..j + 1] == [s[j]];
      }
      assert s[c..c + 1] == [s[c]];
      assert LazyMatch(s, p, "*", c + 1);
      DelimitedAtMeaning(s, p, "*");
    }
  }

  /** In a bold match ending at `close + 2`, the first `*` after `p + 1` lies
      at or before `close`. */
  lemma ItalicCloseBefore(s: string, p: nat, close: nat) returns (c: nat)
    requires p + 3 <= close && close + 2 <= |s|
    requires s[p] == '*' && s[p + 1] == '*' && s[close] == '*'
    requires !HasNewline(s[p + 2..close])
    ensures p + 2 <= c <= close && s[c] == '*'
    ensures forall k :: p + 2 <= k < c ==> s[k] != '*'
    ensures !HasNewline(s[p + 1..c])
  {
    c := p + 2;
    while s[c] != '*'
      invariant p + 2 <= c <= close
      invariant forall k :: p + 2 <= k < c ==> s[k] != '*'
      decreases close - c
    {
      c := c + 1;
    }
    forall k | p + 2 <= k < c ensures s[k] != '\n' {
      assert s[k] == s[p + 2..close][k - p - 2];
    }
  }

  // ---------------------------------------------------------------------
  // Whole-line patterns, matched against a stripped line.
  // ---------------------------------------------------------------------

  /** `\s+(.+)$` from position `n` of `t`, with the group starting at `j`. */
  ghost predicate SpacesThenGroup(t: string, n: nat, j: nat) {
    n < j < |t| && SpacesIn(t, n, j) && !HasNewline(t[j..])
  }

  /** Every character of `t[i..j]` is whitespace. */
  predicate SpacesIn(t: string, i: nat, j: nat)
    requires i <= j <= |t|
  {
    forall k :: i <= k < j ==> IsSpace(t[k])
  }

  /** A run that covers `[i, j)` and stops at `j` is the run `SkipWhile`
      finds. */
  lemma {:induction false} SkipWhileStopsAt(s: string, i: nat, p: char -> bool, j: nat)
    requires i <= j <= |s|
    requires forall k :: i <= k < j ==> p(s[k])
    requires j == |s| || !p(s[j])
    ensures SkipWhile(s, i, p) == j
    decreases j - i
  {
    if i < j { SkipWhileStopsAt(s, i + 1, p, j); }
  }

  /** Any way for `\s+(.+)$` to match at `n` of a stripped line implies that
      the greedy whitespace run is followed by a newline-free group. */
  lemma SpacesThenGroupGreedy(t: string, n: nat, k: nat)
    requires IsStripped(t) && n <= |t| && SpacesThenGroup(t, n, k)
    ensures IsSpace(t[n])
    ensures var m := SkipWhile(t, n, IsSpace); k <= m < |t| && !HasNewline(t[m..])
  {
    var m := SkipWhile(t, n, IsSpace);
    SkipWhileAll(t, n, IsSpace);
    assert k <= m;
    assert t[m..] == t[k..][m - k..];
  }

  /** Where the group of `\s+(.+)$` starts when the pattern is tried at
      position `n` of a stripped line: after the whole whitespace run. */
  function GroupStart(t: string, n: nat): (j: Option<nat>)
    requires n <= |t|
    ensures j.Some? ==> n < j.value < |t|
  {
    var m := SkipWhile(t, n, IsSpace);
    if n < |t| && IsSpace(t[n]) && m < |t| && !HasNewline(t[m..]) then Some(m)
    else None
  }

  /** The group starts after the whole whitespace run, and there is no
      group exactly when the pattern cannot match. */
  lemma GroupStartMeaning(t: string, n: nat)
    requires n <= |t| && IsStripped(t)
    ensures var j := GroupStart(t, n);
            (j.Some? ==> SpacesThenGroup(t, n, j.value) && !IsSpace(t[j.value]))
            && (j.None? ==> forall k: nat :: !SpacesThenGroup(t, n, k))
  {
    var m := SkipWhile(t, n, IsSpace);
    SkipWhileAll(t, n, IsSpace);
    forall k: nat | SpacesThenGroup(t, n, k) ensures IsSpace(t[n]) && m < |t| && !HasNewline(t[m..]) {
      SpacesThenGroupGreedy(t, n, k);
    }
  }

  /** `t` begins with `n` copies of `c`. */
  predicate StartsWithRun(t: string, c: char, n: nat) {
    n <= |t| && forall k :: 0 <= k < n ==> t[k] == c
  }

  /** Group 1 of `^#{level}\s+(.+)$` on a stripped line: MD_H1_PATTERN for
      level 1 up to MD_H4_PATTERN for level 4. */
  function HeadingText(t: string, level: nat): (g: Option<string>)
    ensures g.Some? ==> 0 < |g.value| < |t|
  {
    if StartsWithRun(t, '#', level) then
      match GroupStart(t, level)
      case Some(j) => Some(t[j..])
      case None => None
    else None
  }

  /** The heading pattern matches exactly when `level` hashes are followed
      by whitespace and a newline-free group, and the group is the rest of
      the line after the whole whitespace run. */
  lemma HeadingTextMeaning(t: string, level: nat)
    requires IsStripped(t)
    ensures var g := HeadingText(t, level);
            (g.Some? ==> StartsWithRun(t, '#', level)
                         && SpacesThenGroup(t, level, |t| - |g.value|)
                         && g.value == t[|t| - |g.value|..] && !IsSpace(g.value[0]))
            && (g.None? ==> forall j: nat :: !(StartsWithRun(t, '#', level) && SpacesThenGroup(t, level, j)))
  {
    if StartsWithRun(t, '#', level) {
      GroupStartMeaning(t, level);
    }
  }

  /** The bullet class `[-*+☑]`. */
  predicate IsBullet(c: char) {
    c == '-' || c == '*' || c == '+' || c == '☑'
  }

  /** Group 1 of MD_LIST_ITEM_PATTERN `^\s*[-*+☑]\s+(.+)$` on a stripped
      line (whose leading `\s*` is then empty). */
  function ListItemText(t: string): (g: Option<string>)
    ensures g.Some? ==> 0 < |g.value| < |t|
  {
    if 0 < |t| && IsBullet(t[0]) then
      match GroupStart(t, 1)
      case Some(j) => Some(t[j..])
      case None => None
    else None
  }

  /** The list pattern matches exactly when a bullet is followed by
      whitespace and a newline-free group, the rest of the line after the
      whole whitespace run. */
  lemma ListItemTextMeaning(t: string)
    requires IsStripped(t)
    ensures var g := ListItemText(t);
            (g.Some? ==> IsBullet(t[0]) && SpacesThenGroup(t, 1, |t| - |g.value|)
                         && g.value == t[|t| - |g.value|..] && !IsSpace(g.value[0]))
            && (g.None? ==> forall j: nat :: !(0 < |t| && IsBullet(t[0]) && SpacesThenGroup(t, 1, j)))
  {
    if 0 < |t| && IsBullet(t[0]) {
      GroupStartMeaning(t, 1);
    }
  }

  /** MD_SEPARATOR_PATTERN `^[-*_]{3,}$` on a stripped line. */
  predicate IsSeparatorLine(t: string) {
    |t| >= 3 && forall k :: 0 <= k < |t| ==> t[k] == '-' || t[k] == '*' || t[k] == '_'
  }

  /** MD_TABLE_SEPARATOR `^\s*\|?\s*[-:]+\s*\|` matched at the start of `t`:
      each greedy run taken whole, since giving a character back never
      lets the rest match. */
  predicate IsTableSeparatorRow(t: string) {
    var a := SkipWhile(t, 0, IsSpace);
    var b := if a < |t| && t[a] == '|' then a + 1 else a;
    var c := SkipWhile(t, b, IsSpace);
    var d := SkipWhile(t, c, IsDashOrColon);
    var e := SkipWhile(t, d, IsSpace);
    c < d && e < |t| && t[e] == '|'
  }

  /** The pieces of one way for MD_TABLE_SEPARATOR to match: leading
      whitespace `t[..a]`, an optional pipe `t[a..b]`, whitespace `t[b..c]`,
      the dash/colon run `t[c..d]`, whitespace `t[d..e]`, and a pipe at `e`. */
  ghost predicate TableSeparatorSplit(t: string, a: nat, b: nat, c: nat, d: nat, e: nat) {
    a <= b <= c < d <= e < |t|
    && SpacesIn(t, 0, a) && (b == a || (b == a + 1 && t[a] == '|'))
    && SpacesIn(t, b, c) && (forall k :: c <= k < d ==> IsDashOrColon(t[k]))
    && SpacesIn(t, d, e) && t[e] == '|'
  }

  /** Whatever split matches the pattern, the greedy check finds it. */
  lemma GreedyFindsSplit(t: string, a: nat, b: nat, c: nat, d: nat, e: nat)
    requires TableSeparatorSplit(t, a, b, c, d, e)
    ensures IsTableSeparatorRow(t)
  {
    if b == a + 1 {
      SkipWhileStopsAt(t, 0, IsSpace, a);
      SkipWhileStopsAt(t, b, IsSpace, c);
    } else {
      SkipWhileStopsAt(t, 0, IsSpace, c);
    }
    SkipWhileStopsAt(t, c, IsDashOrColon, d);
    SkipWhileStopsAt(t, d, IsSpace, e);
  }

  /** The greedy check agrees with the regex: it succeeds exactly when some
      way of splitting the line matches the pattern. */
  lemma TableSeparatorRowMeaning(t: string)
    ensures IsTableSeparatorRow(t)
            <==> exists a: nat, b: nat, c: nat, d: nat, e: nat :: TableSeparatorSplit(t, a, b, c, d, e)
  {
    if exists a: nat, b: nat, c: nat, d: nat, e: nat :: TableSeparatorSplit(t, a, b, c, d, e) {
      var a: nat, b: nat, c: nat, d: nat, e: nat :| TableSeparatorSplit(t, a, b, c, d, e);
      GreedyFindsSplit(t, a, b, c, d, e);
    }
    if IsTableSeparatorRow(t) {
      var a := SkipWhile(t, 0, IsSpace);
      var b := if a < |t| && t[a] == '|' then a + 1 else a;
      var c := SkipWhile(t, b, IsSpace);
      var d := SkipWhile(t, c, IsDashOrColon);
      var e := SkipWhile(t, d, IsSpace);
      GreedyIsSplit(t, a, b, c, d, e);
    }
  }

  /** The runs the greedy check takes are a split that matches. */
  lemma GreedyIsSplit(t: string, a: nat, b: nat, c: nat, d: nat, e: nat)
    requires a == SkipWhile(t, 0, IsSpace) && b == (if a < |t| && t[a] == '|' then a + 1 else a)
    requires b <= |t| && c == SkipWhile(t, b, IsSpace) && d == SkipWhile(t, c, IsDashOrColon)
    requires e == SkipWhile(t, d, IsSpace) && c < d && e < |t| && t[e] == '|'
    ensures TableSeparatorSplit(t, a, b, c, d, e)
  {
    SkipWhileAll(t, 0, IsSpace);
    SkipWhileAll(t, b, IsSpace);
    SkipWhileAll(t, c, IsDashOrColon);
    SkipWhileAll(t, d, IsSpace);
  }

  // ---------------------------------------------------------------------
  // NUMBER_SPACE_PATTERN's group 1:
  // `([一二三四五六七八九十]+、|\d+\.|（[一二三四五六七八九十]+）)`
  // ---------------------------------------------------------------------

  /** `u[start..]` is a non-empty run of the class `cls` followed by the
      single character `close`. */
  ghost predicate RunThen(u: string, start: nat, cls: char -> bool, close: char) {
    start + 2 <= |u| && u[|u| - 1] == close
    && forall k :: start <= k < |u| - 1 ==> cls(u[k])
  }

  /** `u` is, in full, one of the three enumeration markers. */
  ghost predicate IsEnumerationMarker(u: string) {
    RunThen(u, 0, IsChineseNumeral, '、')
    || RunThen(u, 0, IsDigit, '.')
    || (|u| > 0 && u[0] == '（' && RunThen(u, 1, IsChineseNumeral, '）'))
  }

  /** When the closing character is outside the class, the only prefix of `t`
      that is a run followed by the closing character ends just after the
      greedy run. */
  lemma RunThenPrefix(t: string, start: nat, cls: char -> bool, close: char, k: nat)
    requires !cls(close) && start <= k <= |t|
    requires RunThen(t[..k], start, cls, close)
    ensures k == SkipWhile(t, start, cls) + 1 && t[k - 1] == close
  {
    var n := SkipWhile(t, start, cls);
    assert forall i :: 0 <= i < k ==> t[..k][i] == t[i];
    assert forall i :: start <= i < k - 1 ==> cls(t[i]);
    assert t[k - 1] == close;
    SkipWhileStopsAt(t, start, cls, k - 1);
  }

  /** The marker that `t` begins with, given by the end of its greedy run. */
  function MarkerAfterRun(t: string, start: nat, cls: char -> bool, close: char): (m: Option<nat>)
    requires start <= |t|
    ensures m.Some? ==> start < m.value <= |t|
  {
    var n := SkipWhile(t, start, cls);
    if start < n < |t| && t[n] == close then Some(n + 1) else None
  }

  /** The greedy run finds the one prefix that is a run and its closing
      character, if there is one. */
  lemma MarkerAfterRunMeaning(t: string, start: nat, cls: char -> bool, close: char)
    requires start <= |t| && !cls(close)
    ensures var m := MarkerAfterRun(t, start, cls, close);
            (m.Some? ==> RunThen(t[..m.value], start, cls, close))
            && forall k: nat :: k <= |t| && RunThen(t[..k], start, cls, close) ==> m == Some(k)
  {
    var n := SkipWhile(t, start, cls);
    SkipWhileAll(t, start, cls);
    forall k: nat | k <= |t| && RunThen(t[..k], start, cls, close)
      ensures MarkerAfterRun(t, start, cls, close) == Some(k)
    {
      RunThenPrefix(t, start, cls, close, k);
    }
    if start < n < |t| && t[n] == close {
      assert forall i :: start <= i < n ==> t[..n + 1][i] == t[i];
    }
  }

  /** The length of the enumeration marker that begins `t`, if any. */
  function EnumerationMarkerEnd(t: string): (m: Option<nat>)
    ensures m.Some? ==> 0 < m.value <= |t|
  {
    if 0 < |t| && IsChineseNumeral(t[0]) then
      MarkerAfterRun(t, 0, IsChineseNumeral, '、')
    else if 0 < |t| && IsDigit(t[0]) then
      MarkerAfterRun(t, 0, IsDigit, '.')
    else if 0 < |t| && t[0] == '（' then
      MarkerAfterRun(t, 1, IsChineseNumeral, '）')
    else None
  }

  /** At most one prefix of a string is a marker, and that is the one found:
      the three alternatives differ in their first character, and no closing
      character belongs to the class that precedes it. */
  lemma EnumerationMarkerEndMeaning(t: string)
    ensures var m := EnumerationMarkerEnd(t);
            (m.Some? ==> IsEnumerationMarker(t[..m.value]))
            && forall k: nat :: k <= |t| && IsEnumerationMarker(t[..k]) ==> m == Some(k)
  {
    assert forall k: nat :: 0 < k <= |t| ==> t[..k][0] == t[0];
    if 0 < |t| && IsChineseNumeral(t[0]) {
      MarkerAfterRunMeaning(t, 0, IsChineseNumeral, '、');
    } else if 0 < |t| && IsDigit(t[0]) {
      MarkerAfterRunMeaning(t, 0, IsDigit, '.');
    } else if 0 < |t| && t[0] == '（' {
      MarkerAfterRunMeaning(t, 1, IsChineseNumeral, '）');
    }
  }
}
