/** Cells, and one row of them: wide-glyph heads followed by their continuations, and what a write that
    cuts glyphs in half makes of a row. */
module GridRows {
  import opened Wrappers

  datatype Style = Style(fg: Option<nat>, bg: Option<nat>, underline: nat, underlineColor: Option<nat>,
                         reversed: bool, modifiers: nat)

  /** No colour for an underline there is none of, and reversal done by swapping known colours. */
  function Normalized(s: Style): Style {
    var a := if s.underline == 0 then s.(underlineColor := None) else s;
    if a.reversed && a.fg.Some? && a.bg.Some? then a.(fg := a.bg, bg := a.fg, reversed := false) else a
  }

  /** A terminal's own colours, for text, ground and underline. */
  datatype Terminal = Terminal(fg: nat, bg: nat, underlineColor: nat)

  /** What a style looks like: reversal swaps the colours shown, and an underline's colour shows only with one. */
  datatype Look = Look(fg: nat, bg: nat, underline: nat, underlineColor: Option<nat>, modifiers: nat)

  function Shown(color: Option<nat>, byDefault: nat): nat {
    if color.Some? then color.value else byDefault
  }

  function Seen(s: Style, term: Terminal): Look {
    var fg, bg := Shown(s.fg, term.fg), Shown(s.bg, term.bg);
    Look(if s.reversed then bg else fg, if s.reversed then fg else bg, s.underline,
         if s.underline == 0 then None else Some(Shown(s.underlineColor, term.underlineColor)), s.modifiers)
  }

  /** Normalizing keeps the look, and shows known colours without reversal. */
  lemma NormalizedSeen(s: Style, term: Terminal)
    ensures Seen(Normalized(s), term) == Seen(s, term)
    ensures s.fg.Some? && s.bg.Some? ==> !Normalized(s).reversed
  {
  }

  /** A terminal none of whose colours a style names. */
  predicate Foreign(s: Style, term: Terminal) {
    && term.fg != term.bg && s.fg != Some(term.fg) && s.fg != Some(term.bg) && s.bg != Some(term.fg)
    && s.bg != Some(term.bg) && s.underlineColor != Some(term.underlineColor)
  }

  lemma ForeignTells(s: Style, t: Style, term: Terminal)
    requires Foreign(s, term) && Foreign(t, term) && Seen(s, term) == Seen(t, term)
    ensures Normalized(s) == Normalized(t)
  {
    NormalizedSeen(s, term);
    NormalizedSeen(t, term);
  }

  /** Two styles look alike on every terminal if and only if they normalize to the same. */
  lemma LookAlike(s: Style, t: Style)
    ensures (forall term :: Seen(s, term) == Seen(t, term)) <==> Normalized(s) == Normalized(t)
  {
    var most := Shown(s.fg, 0) + Shown(s.bg, 0) + Shown(s.underlineColor, 0)
        + Shown(t.fg, 0) + Shown(t.bg, 0) + Shown(t.underlineColor, 0);
    var term := Terminal(most + 1, most + 2, most + 1);
    if Seen(s, term) == Seen(t, term) { ForeignTells(s, t, term); }
    if Normalized(s) == Normalized(t) {
      forall term: Terminal ensures Seen(s, term) == Seen(t, term) {
        NormalizedSeen(s, term);
        NormalizedSeen(t, term);
      }
    }
  }

  lemma NormalizedTwice(s: Style)
    ensures Normalized(Normalized(s)) == Normalized(s)
  {
  }

  datatype Cell = Cell(text: string, style: Style, advance: nat)

  function Glyph(text: string, advance: nat, style: Style): Cell {
    Cell(text, Normalized(style), if advance == 0 then 1 else advance)
  }

  function Blank(style: Style): Cell { Cell(" ", Normalized(style), 1) }

  function Continuation(style: Style): Cell { Cell("", Normalized(style), 0) }

  predicate IsContinuation(c: Cell) { c.advance == 0 }

  /** The write invariant of a row: every head is followed by exactly the continuations it advances over,
      in its style and inside the row, and no continuation stands anywhere else. */
  ghost predicate WellFormed(row: seq<Cell>) {
    && (|row| > 0 ==> !IsContinuation(row[0]))
    && (forall x :: 0 <= x < |row| ==> Normalized(row[x].style) == row[x].style)
    && (forall x :: 0 <= x < |row| && !IsContinuation(row[x]) ==> x + row[x].advance <= |row|)
    && (forall x, e :: 0 <= x < e < |row| && e == x + row[x].advance ==> !IsContinuation(row[e]))
    && (forall x, k :: 0 <= x < k < |row| && k < x + row[x].advance ==> row[k] == Continuation(row[x].style))
  }

  /** The nearest column at or left of `j` that is not a continuation. */
  function HeadOf(row: seq<Cell>, j: nat): (h: nat)
    requires j < |row|
    ensures h <= j && (h == 0 || !IsContinuation(row[h]))
    ensures forall k :: h < k <= j ==> IsContinuation(row[k])
  {
    if j > 0 && IsContinuation(row[j]) then HeadOf(row, j - 1) else j
  }

  lemma HeadFacts(row: seq<Cell>, j: nat)
    requires WellFormed(row) && j < |row|
    ensures var h := HeadOf(row, j);
            && !IsContinuation(row[h]) && h <= j < h + row[h].advance <= |row|
            && row[h].style == row[j].style && (h < j ==> row[j] == Continuation(row[h].style))
  {
    var e := HeadOf(row, j) + row[HeadOf(row, j)].advance;
    assert e < |row| ==> !IsContinuation(row[e]);
  }

  /** A head owns the columns it advances over, and only those. */
  lemma HeadOwns(row: seq<Cell>, h: nat, j: nat)
    requires WellFormed(row) && h < |row| && j < |row| && !IsContinuation(row[h])
    ensures HeadOf(row, j) == h <==> h <= j < h + row[h].advance
  {
    HeadFacts(row, j);
    var g := HeadOf(row, j);
    assert h < g < h + row[h].advance ==> row[g] == Continuation(row[h].style);
  }

  /** The glyph at column `j` reaches into `x..x + len`. */
  predicate Cut(row: seq<Cell>, x: nat, len: nat, j: nat)
    requires j < |row|
  {
    var h := HeadOf(row, j);
    h < x + len && x < h + row[h].advance
  }

  function CellAfter(row: seq<Cell>, x: nat, piece: seq<Cell>, j: nat): Cell
    requires j < |row|
  {
    if x <= j < x + |piece| then piece[j - x]
    else if Cut(row, x, |piece|, j) then Blank(row[j].style)
    else row[j]
  }

  /** The row after `piece` is written at `x`: halves of glyphs the write cuts become blanks in their own
      style, and nothing else outside the piece changes. */
  function Written(row: seq<Cell>, x: nat, piece: seq<Cell>): (r: seq<Cell>)
    requires x + |piece| <= |row|
    ensures |r| == |row| && forall j :: 0 <= j < |r| ==> r[j] == CellAfter(row, x, piece, j)
  {
    seq(|row|, j requires 0 <= j < |row| => CellAfter(row, x, piece, j))
  }

  function GlyphPiece(head: Cell): (p: seq<Cell>)
    ensures |p| == if head.advance == 0 then 1 else head.advance
  {
    [head] + seq(if head.advance == 0 then 0 else head.advance - 1, _ => Continuation(head.style))
  }

  function Fill(n: nat, cell: Cell): (p: seq<Cell>)
    ensures |p| == n && forall k :: 0 <= k < n ==> p[k] == cell
  {
    seq(n, _ => cell)
  }

  lemma PieceWellFormed(head: Cell)
    requires !IsContinuation(head) && Normalized(head.style) == head.style
    ensures WellFormed(GlyphPiece(head))
  {
  }

  lemma FillWellFormed(n: nat, cell: Cell)
    requires cell.advance == 1 && Normalized(cell.style) == cell.style
    ensures WellFormed(Fill(n, cell))
  {
  }

  /** The cell after a surviving cell's glyph is never a stray continuation. */
  lemma NextIsHead(row: seq<Cell>, x: nat, piece: seq<Cell>, j: nat)
    requires WellFormed(row) && WellFormed(piece) && x + |piece| <= |row| && 0 < j < |row|
    requires j == x || j == x + |piece| || (!(x <= j < x + |piece|)
             && (!IsContinuation(row[j]) || Cut(row, x, |piece|, j)))
    ensures !IsContinuation(CellAfter(row, x, piece, j))
  {
    HeadFacts(row, j);
  }

  /** In the written row, a head at `j` is followed by its continuations, inside the row, and then a head. */
  ghost predicate HeadKept(row: seq<Cell>, x: nat, piece: seq<Cell>, j: nat)
    requires j < |row|
  {
    var c := CellAfter(row, x, piece, j);
    && j + c.advance <= |row|
    && (j + c.advance < |row| ==> !IsContinuation(CellAfter(row, x, piece, j + c.advance)))
    && forall k :: j < k < j + c.advance ==> CellAfter(row, x, piece, k) == Continuation(c.style)
  }

  lemma HeadKeptInside(row: seq<Cell>, x: nat, piece: seq<Cell>, j: nat)
    requires WellFormed(row) && WellFormed(piece) && x + |piece| <= |row| && x <= j < x + |piece|
    requires !IsContinuation(piece[j - x])
    ensures HeadKept(row, x, piece, j)
  {
    var e := j + piece[j - x].advance;
    if e < |row| && e == x + |piece| { NextIsHead(row, x, piece, e); }
  }

  lemma HeadKeptBlank(row: seq<Cell>, x: nat, piece: seq<Cell>, j: nat)
    requires WellFormed(row) && WellFormed(piece) && x + |piece| <= |row| && j < |row|
    requires !(x <= j < x + |piece|) && Cut(row, x, |piece|, j)
    ensures HeadKept(row, x, piece, j)
  {
    if j + 1 < |row| { AfterCutIsHead(row, x, piece, j + 1); }
  }

  /** Right of a blanked half comes another one, the piece, or a head. */
  lemma AfterCutIsHead(row: seq<Cell>, x: nat, piece: seq<Cell>, j: nat)
    requires WellFormed(row) && WellFormed(piece) && x + |piece| <= |row| && 0 < j < |row|
    requires !(x <= j - 1 < x + |piece|) && Cut(row, x, |piece|, j - 1)
    ensures !IsContinuation(CellAfter(row, x, piece, j))
  {
    HeadFacts(row, j - 1);
    HeadFacts(row, j);
    if j == x || !(x <= j < x + |piece|) { NextIsHead(row, x, piece, j); }
  }

  lemma HeadKeptOutside(row: seq<Cell>, x: nat, piece: seq<Cell>, j: nat)
    requires WellFormed(row) && WellFormed(piece) && x + |piece| <= |row| && j < |row|
    requires !(x <= j < x + |piece|) && !Cut(row, x, |piece|, j) && !IsContinuation(row[j])
    ensures HeadKept(row, x, piece, j)
  {
    var e := j + row[j].advance;
    HeadFacts(row, j);
    forall k | j < k < e ensures CellAfter(row, x, piece, k) == Continuation(row[j].style) {
      HeadOwns(row, j, k);
    }
    if e < |row| && (e == x || !(x <= e < x + |piece|)) { NextIsHead(row, x, piece, e); }
  }

  lemma WrittenEdges(row: seq<Cell>, x: nat, piece: seq<Cell>)
    requires WellFormed(row) && WellFormed(piece) && x + |piece| <= |row|
    ensures |row| > 0 ==> !IsContinuation(CellAfter(row, x, piece, 0))
    ensures forall j :: 0 <= j < |row| ==>
              Normalized(CellAfter(row, x, piece, j).style)
              == CellAfter(row, x, piece, j).style
  {
    forall j | 0 <= j < |row| ensures Normalized(CellAfter(row, x, piece, j).style)
        == CellAfter(row, x, piece, j).style {
      NormalizedTwice(row[j].style);
    }
  }

  lemma HeadsKept(row: seq<Cell>, x: nat, piece: seq<Cell>, j: nat)
    requires WellFormed(row) && WellFormed(piece) && x + |piece| <= |row| && j < |row|
    requires !IsContinuation(CellAfter(row, x, piece, j))
    ensures HeadKept(row, x, piece, j)
  {
    if x <= j < x + |piece| { HeadKeptInside(row, x, piece, j); }
    else if Cut(row, x, |piece|, j) { HeadKeptBlank(row, x, piece, j); }
    else { HeadKeptOutside(row, x, piece, j); }
  }

  /** A row whose every head keeps its glyph together. */
  lemma KeptIsWellFormed(r: seq<Cell>)
    requires |r| > 0 ==> !IsContinuation(r[0])
    requires forall j :: 0 <= j < |r| ==> Normalized(r[j].style) == r[j].style
    requires forall j :: 0 <= j < |r| && !IsContinuation(r[j]) ==> GlyphWhole(r, j)
    ensures WellFormed(r)
  {
    forall x, k | 0 <= x < k < |r| && k < x + r[x].advance ensures r[k] == Continuation(r[x].style) {
      assert GlyphWhole(r, x);
    }
    forall x, e | 0 <= x < e < |r| && e == x + r[x].advance ensures !IsContinuation(r[e]) {
      assert GlyphWhole(r, x);
    }
  }

  ghost predicate GlyphWhole(r: seq<Cell>, j: nat)
    requires j < |r|
  {
    var e := j + r[j].advance;
    && e <= |r| && (e < |r| ==> !IsContinuation(r[e])) && forall k :: j < k < e ==> r[k] == Continuation(r[j].style)
  }

  /** Writing a well-formed piece keeps the write invariant, whatever it cuts. */
  lemma WrittenWellFormed(row: seq<Cell>, x: nat, piece: seq<Cell>)
    requires WellFormed(row) && WellFormed(piece) && x + |piece| <= |row|
    ensures WellFormed(Written(row, x, piece))
  {
    var r := Written(row, x, piece);
    WrittenEdges(row, x, piece);
    forall j | 0 <= j < |r| && !IsContinuation(r[j]) ensures GlyphWhole(r, j) {
      HeadsKept(row, x, piece, j);
      GlyphWritten(row, x, piece, r, j);
    }
    KeptIsWellFormed(r);
  }

  lemma GlyphWritten(row: seq<Cell>, x: nat, piece: seq<Cell>, r: seq<Cell>, j: nat)
    requires x + |piece| <= |row| && r == Written(row, x, piece) && j < |row| && HeadKept(row, x, piece, j)
    ensures GlyphWhole(r, j)
  {
  }

  // ---- What a write looks like ----

  /** Outside the span a column whose glyph is cut shows a space in the style it had, and any other is as it was. */
  lemma CutKeepsStyle(row: seq<Cell>, x: nat, piece: seq<Cell>, j: nat)
    requires WellFormed(row) && x + |piece| <= |row| && j < |row| && !(x <= j < x + |piece|)
    ensures var h := HeadOf(row, j);
            && !IsContinuation(row[h]) && h <= j < h + row[h].advance
            && Written(row, x, piece)[j]
               == if h < x + |piece| && x < h + row[h].advance then Cell(" ", row[j].style, 1) else row[j]
  {
    HeadFacts(row, j);
  }

  /** A glyph is its text in its style, then empty cells up to its advance in the same style. */
  lemma GlyphCells(text: string, advance: nat, style: Style, k: nat)
    requires k < |GlyphPiece(Glyph(text, advance, style))|
    ensures var p := GlyphPiece(Glyph(text, advance, style));
            && |p| == (if advance == 0 then 1 else advance)
            && p[k].text == (if k == 0 then text else "") && p[k].style == Normalized(style)
            && p[k].advance == (if k == 0 then |p| else 0)
  {
    NormalizedTwice(style);
  }
}
