/** parse_inline_format: splitting one line of body text into plain, bold and
    italic segments. `Scan` is the specification, `ParseInlineFormat` the
    cursor loop of the source proved against it. */
module Inline {
  import opened Text
  import opened Patterns

  /** One `(text, bold, italic)` tuple. */
  datatype Segment = Segment(text: string, bold: bool, italic: bool)

  /** Where a plain segment that starts at `pos` stops: the nearer of the next
      bold and the next italic match start, or the end of the text. */
  function NextMarkerStart(s: string, pos: nat): (q: nat)
    requires pos <= |s|
    ensures pos <= q <= |s|
    ensures q < |s| ==> ItalicAt(s, q).Some?
  {
    var b := Search(s, pos, "**");
    var i := Search(s, pos, "*");
    var q0 := if b.Some? then b.value else |s|;
    if b.Some? then BoldImpliesItalic(s, b.value); (if i.Some? && i.value < q0 then i.value else q0)
    else if i.Some? && i.value < q0 then i.value else q0
  }

  /** Since a bold match start is always an italic one, the nearer of the
      two is the next italic match start: nothing matches before it. */
  lemma NextMarkerStartIsNearest(s: string, pos: nat)
    requires pos <= |s|
    ensures forall x :: pos <= x < NextMarkerStart(s, pos) ==> BoldAt(s, x).None? && ItalicAt(s, x).None?
  {
    SearchIsLeftmost(s, pos, "**");
    SearchIsLeftmost(s, pos, "*");
  }

  /** One turn of the loop at cursor `pos`: bold is tried first, then
      italic, and otherwise the text up to the next marker start becomes
      one plain segment; the segment and the new cursor. */
  function NextSegment(s: string, pos: nat): (r: (Segment, nat))
    requires pos < |s|
    ensures pos < r.1 <= |s|
  {
    match BoldAt(s, pos)
    case Some(e) => (Segment(s[pos + 2..e - 2], true, false), e)
    case None =>
      match ItalicAt(s, pos)
      case Some(e) => (Segment(s[pos + 1..e - 1], false, true), e)
      case None =>
        var q := NextMarkerStart(s, pos);
        (Segment(s[pos..q], false, false), q)
  }

  /** Segment `g` sits at offset `o` of `s` as the patterns dictate: its
      Markdown is exactly the text there; a bold segment is the bold match
      at `o`; an italic one is the italic match where bold does not match;
      a plain one starts where neither matches, covers no position where one
      does, and ends at the end of the text or where the next italic (hence
      every bold) match starts. No segment is empty or both bold and italic,
      and emphasised text never spans a newline. */
  ghost predicate SegmentFits(s: string, o: nat, g: Segment) {
    o + |Markup(g)| <= |s| && s[o..o + |Markup(g)|] == Markup(g)
    && !(g.bold && g.italic) && g.text != []
    && (g.bold ==> BoldAt(s, o) == Some(o + |Markup(g)|) && !HasNewline(g.text))
    && (g.italic ==> BoldAt(s, o).None? && ItalicAt(s, o) == Some(o + |Markup(g)|) && !HasNewline(g.text))
    && (!g.bold && !g.italic ==>
          (forall x :: o <= x < o + |g.text| ==> BoldAt(s, x).None? && ItalicAt(s, x).None?)
          && (o + |g.text| == |s| || ItalicAt(s, o + |g.text|).Some?))
  }

  /** A turn where bold matches at the cursor: the bold segment, ending
      where the match ends, its Markdown being exactly the matched text. */
  lemma BoldTurn(s: string, pos: nat)
    requires pos < |s| && BoldAt(s, pos).Some?
    ensures var e := BoldAt(s, pos).value;
            var g := Segment(s[pos + 2..e - 2], true, false);
            NextSegment(s, pos) == (g, e) && e == pos + |Markup(g)| && s[pos..e] == Markup(g)
  {
    var e := BoldAt(s, pos).value;
    DelimitedAtEnds(s, pos, "**");
    Wrapped(s, pos, e, "**");
  }

  /** A turn where only italic matches at the cursor. */
  lemma ItalicTurn(s: string, pos: nat)
    requires pos < |s| && BoldAt(s, pos).None? && ItalicAt(s, pos).Some?
    ensures var e := ItalicAt(s, pos).value;
            var g := Segment(s[pos + 1..e - 1], false, true);
            NextSegment(s, pos) == (g, e) && e == pos + |Markup(g)| && s[pos..e] == Markup(g)
  {
    var e := ItalicAt(s, pos).value;
    DelimitedAtEnds(s, pos, "*");
    Wrapped(s, pos, e, "*");
  }

  /** A turn where neither matches: plain text up to the next marker start. */
  lemma PlainTurn(s: string, pos: nat)
    requires pos < |s| && BoldAt(s, pos).None? && ItalicAt(s, pos).None?
    ensures var q := NextMarkerStart(s, pos);
            var g := Segment(s[pos..q], false, false);
            NextSegment(s, pos) == (g, q) && pos < q && q == pos + |Markup(g)| && s[pos..q] == Markup(g)
  {
  }

  /** One turn consumes exactly the segment's Markdown. */
  lemma NextSegmentConsumes(s: string, pos: nat)
    requires pos < |s|
    ensures var (g, next) := NextSegment(s, pos);
            next == pos + |Markup(g)| && s[pos..next] == Markup(g)
  {
    if BoldAt(s, pos).Some? {
      BoldTurn(s, pos);
    } else if ItalicAt(s, pos).Some? {
      ItalicTurn(s, pos);
    } else {
      PlainTurn(s, pos);
    }
  }

  /** A delimited match begins and ends with its delimiter. */
  lemma DelimitedAtEnds(s: string, p: nat, d: string)
    requires p <= |s| && |d| > 0 && DelimitedAt(s, p, d).Some?
    ensures var e := DelimitedAt(s, p, d).value;
            p + 2 * |d| < e <= |s| && OccursAt(s, p, d) && OccursAt(s, e - |d|, d)
            && !HasNewline(s[p + |d|..e - |d|])
  {
    DelimitedAtMeaning(s, p, d);
  }

  /** Text that begins and ends with `d` is `d`, the inner part, `d`. */
  lemma Wrapped(s: string, p: nat, e: nat, d: string)
    requires p + 2 * |d| <= e <= |s| && OccursAt(s, p, d) && OccursAt(s, e - |d|, d)
    ensures s[p..e] == d + s[p + |d|..e - |d|] + d
  {
    assert s[p..e] == s[p..p + |d|] + s[p + |d|..e - |d|] + s[e - |d|..e];
  }

  /** One turn produces a segment that fits at the cursor. */
  lemma NextSegmentMeaning(s: string, pos: nat, g: Segment)
    requires pos < |s| && g == NextSegment(s, pos).0
    ensures SegmentFits(s, pos, g)
  {
    if BoldAt(s, pos).Some? {
      BoldFits(s, pos, g);
    } else if ItalicAt(s, pos).Some? {
      ItalicFits(s, pos, g);
    } else {
      PlainFits(s, pos, g);
    }
  }

  lemma BoldFits(s: string, pos: nat, g: Segment)
    requires pos < |s| && g == NextSegment(s, pos).0 && BoldAt(s, pos).Some?
    ensures SegmentFits(s, pos, g)
  {
    BoldTurn(s, pos);
    DelimitedAtEnds(s, pos, "**");
  }

  lemma ItalicFits(s: string, pos: nat, g: Segment)
    requires pos < |s| && g == NextSegment(s, pos).0 && BoldAt(s, pos).None? && ItalicAt(s, pos).Some?
    ensures SegmentFits(s, pos, g)
  {
    ItalicTurn(s, pos);
    DelimitedAtEnds(s, pos, "*");
  }

  lemma PlainFits(s: string, pos: nat, g: Segment)
    requires pos < |s| && g == NextSegment(s, pos).0 && BoldAt(s, pos).None? && ItalicAt(s, pos).None?
    ensures SegmentFits(s, pos, g)
  {
    PlainTurn(s, pos);
    NextMarkerStartIsNearest(s, pos);
  }

  /** The segments the loop appends from cursor `pos` on. */
  function Scan(s: string, pos: nat): seq<Segment>
    requires pos <= |s|
    decreases |s| - pos
  {
    if pos == |s| then []
    else
      var (g, next) := NextSegment(s, pos);
      [g] + Scan(s, next)
  }

  /** One more turn of the loop keeps "segments so far, then the rest of the
      scan" equal to the whole scan. */
  lemma ScanStep(done: seq<Segment>, s: string, pos: nat, g: Segment, next: nat)
    requires pos < |s| && NextSegment(s, pos) == (g, next)
    ensures (done + [g]) + Scan(s, next) == done + Scan(s, pos)
  {
    assert Scan(s, pos) == [g] + Scan(s, next);
    AppendAssoc(done, [g], Scan(s, next));
  }

  /** What parse_inline_format returns: the scan, or the single plain
      segment holding the whole (empty) text when the scan found nothing. */
  function ParseInline(s: string): seq<Segment> {
    var segs := Scan(s, 0);
    if segs == [] then [Segment(s, false, false)] else segs
  }

  /** A segment written back in Markdown. */
  function Markup(g: Segment): string {
    if g.bold then "**" + g.text + "**"
    else if g.italic then "*" + g.text + "*"
    else g.text
  }

  /** Segments written back in Markdown, one after the other. */
  function Unparse(segs: seq<Segment>): string {
    if segs == [] then [] else Markup(segs[0]) + Unparse(segs[1..])
  }

  lemma UnparseCons(g: Segment, rest: seq<Segment>)
    ensures Unparse([g] + rest) == Markup(g) + Unparse(rest)
  {
    assert ([g] + rest)[1..] == rest;
  }

  /** Writing back distributes over concatenation. */
  lemma {:induction false} UnparseAppend(a: seq<Segment>, b: seq<Segment>)
    ensures Unparse(a + b) == Unparse(a) + Unparse(b)
    decreases |a|
  {
    if a == [] {
      assert a + b == b;
    } else {
      var x := a[0];
      var tail := a[1..];
      assert a == [x] + tail;
      assert a + b == [x] + (tail + b);
      UnparseCons(x, tail + b);
      UnparseCons(x, tail);
      UnparseAppend(tail, b);
      AppendAssoc(Markup(x), Unparse(tail), Unparse(b));
    }
  }

  lemma UnparseSnoc(init: seq<Segment>, last: Segment)
    ensures Unparse(init + [last]) == Unparse(init) + Markup(last)
  {
    UnparseAppend(init, [last]);
    UnparseCons(last, []);
  }

  /** Writing the scanned segments back gives the scanned text exactly. */
  lemma {:induction false} ScanRoundTrip(s: string, pos: nat)
    requires pos <= |s|
    ensures Unparse(Scan(s, pos)) == s[pos..]
    decreases |s| - pos
  {
    if pos < |s| {
      var (g, next) := NextSegment(s, pos);
      var rest := Scan(s, next);
      assert Scan(s, pos) == [g] + rest;
      assert s[pos..next] == Markup(g) by { NextSegmentConsumes(s, pos); }
      assert Unparse(rest) == s[next..] by { ScanRoundTrip(s, next); }
      assert Unparse([g] + rest) == Markup(g) + Unparse(rest) by { UnparseCons(g, rest); }
      assert s[pos..] == s[pos..next] + s[next..] by { SliceSplit(s, pos, next, |s|); }
    }
  }

  /** Inline round trip: re-wrapping bold segments in `**`, italic segments
      in `*` and leaving plain ones bare gives back the input exactly, the
      empty input included. */
  lemma InlineRoundTrip(s: string)
    ensures Unparse(ParseInline(s)) == s
  {
    ScanRoundTrip(s, 0);
    if Scan(s, 0) == [] {
      UnparseCons(Segment(s, false, false), []);
    }
  }

  /** The shape of every segment: never both bold and italic, never empty,
      and emphasised text never spans a newline. */
  lemma {:induction false} ScanSegmentShape(s: string, pos: nat)
    requires pos <= |s|
    ensures forall g :: g in Scan(s, pos) ==>
              !(g.bold && g.italic) && g.text != []
              && ((g.bold || g.italic) ==> !HasNewline(g.text))
    decreases |s| - pos
  {
    if pos < |s| {
      NextSegmentMeaning(s, pos, NextSegment(s, pos).0);
      ScanSegmentShape(s, NextSegment(s, pos).1);
    }
  }

  /** The k-th segment of a scan is what one turn produces at its offset
      `o`, the length of the Markdown of the segments before it. */
  lemma {:induction false} ScanAt(s: string, pos: nat, k: nat, o: nat)
    requires pos <= |s| && k < |Scan(s, pos)| && o == pos + |Unparse(Scan(s, pos)[..k])|
    ensures o < |s| && Scan(s, pos)[k] == NextSegment(s, o).0
    decreases |s| - pos
  {
    if k > 0 {
      var next := NextSegment(s, pos).1;
      var rest := Scan(s, next);
      assert k - 1 < |rest| && Scan(s, pos)[k] == rest[k - 1]
             && o == next + |Unparse(rest[..k - 1])|
      by {
        ScanShift(s, pos, k);
      }
      ScanAt(s, next, k - 1, o);
    } else {
      assert Scan(s, pos)[..0] == [];
    }
  }

  /** Every segment `g` of the scan, at offset `o` (the length of the
      Markdown of the segments before it), fits there in the sense of
      `SegmentFits`. */
  lemma ScanFollowsMatches(s: string, pos: nat, k: nat, o: nat, g: Segment)
    requires pos <= |s| && k < |Scan(s, pos)|
    requires o == pos + |Unparse(Scan(s, pos)[..k])| && g == Scan(s, pos)[k]
    ensures SegmentFits(s, o, g)
  {
    assert o < |s| && g == NextSegment(s, o).0 by {
      ScanAt(s, pos, k, o);
    }
    NextSegmentMeaning(s, o, g);
  }

  /** Past the first segment, the scan from `pos` is the scan from where the
      first turn stopped, and offsets move by the first segment's Markdown. */
  lemma ScanShift(s: string, pos: nat, k: nat)
    requires pos <= |s| && 0 < k < |Scan(s, pos)|
    ensures var next := NextSegment(s, pos).1;
            k - 1 < |Scan(s, next)|
            && Scan(s, pos)[k] == Scan(s, next)[k - 1]
            && pos + |Unparse(Scan(s, pos)[..k])| == next + |Unparse(Scan(s, next)[..k - 1])|
  {
    var g := NextSegment(s, pos).0;
    var next := NextSegment(s, pos).1;
    var segs := Scan(s, pos);
    var rest := Scan(s, next);
    assert segs == [g] + rest;
    assert next == pos + |Markup(g)| by { NextSegmentConsumes(s, pos); }
    assert |Unparse(segs[..k])| == |Markup(g)| + |Unparse(rest[..k - 1])| by {
      assert segs[..k] == [g] + rest[..k - 1];
      UnparseCons(g, rest[..k - 1]);
    }
  }

  /** One turn of the loop of parse_inline_format at cursor `pos`: bold is
      tried before italic, and otherwise the text up to the nearer of the
      next bold and next italic match start is one plain segment. The
      source's fallback of a single-character segment (when that start is
      not past the cursor) is kept, and is proved never taken: the next
      marker start is always past the cursor. */
  method NextTurn(text: string, pos: nat) returns (g: Segment, next: nat)
    requires pos < |text|
    ensures (g, next) == NextSegment(text, pos)
    ensures pos < next <= |text| && text[pos..next] == Markup(g)
  {
    var boldMatch := BoldAt(text, pos);
    if boldMatch.Some? {
      g, next := Segment(text[pos + 2..boldMatch.value - 2], true, false), boldMatch.value;
      BoldTurn(text, pos);
      return;
    }
    var italicMatch := ItalicAt(text, pos);
    if italicMatch.Some? {
      g, next := Segment(text[pos + 1..italicMatch.value - 1], false, true), italicMatch.value;
      ItalicTurn(text, pos);
      return;
    }
    var nextPos := |text|;
    var b := Search(text, pos, "**");
    if b.Some? && b.value < nextPos {
      nextPos := b.value;
    }
    var i := Search(text, pos, "*");
    if i.Some? && i.value < nextPos {
      nextPos := i.value;
    }
    assert nextPos == NextMarkerStart(text, pos);
    PlainTurn(text, pos);
    var single: Segment, afterSingle: nat := Segment([text[pos]], false, false), pos + 1;
    if nextPos > pos {
      g, next := Segment(text[pos..nextPos], false, false), nextPos;
    } else {
      assert false;
      g, next := single, afterSingle;
    }
  }

  /** parse_inline_format: turns of the loop until the cursor reaches the
      end, and the whole text as one plain segment when no turn was taken. */
  method ParseInlineFormat(text: string) returns (segments: seq<Segment>)
    ensures segments == ParseInline(text)
    ensures Unparse(segments) == text
    ensures text == [] ==> segments == [Segment([], false, false)]
  {
    segments := [];
    var pos := 0;
    while pos < |text|
      invariant pos <= |text|
      invariant segments + Scan(text, pos) == Scan(text, 0)
      decreases |text| - pos
    {
      var g, next := NextTurn(text, pos);
      assert (segments + [g]) + Scan(text, next) == segments + Scan(text, pos) by {
        ScanStep(segments, text, pos, g, next);
      }
      segments := segments + [g];
      pos := next;
    }
    if segments == [] {
      segments := [Segment(text, false, false)];
    }
    InlineRoundTrip(text);
  }
}
