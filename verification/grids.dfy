/** The frame grid: rows of cells in one flat list, changed in place by writes that keep every row well-formed. */
module Grids {
  import opened Wrappers
  import opened Integers
  import opened GridRows

  function SaturatingAdd(a: nat, b: nat): nat {
    if a + b > U16_MAX then U16_MAX else a + b
  }

  // ---- Rows of a flat list ----

  lemma RowFits(width: nat, height: nat, y: nat)
    requires y < height
    ensures y * width + width <= width * height
  {
    TimesUp(y + 1, height, width);
    assert (y + 1) * width == y * width + width;
  }

  lemma {:induction false} TimesUp(a: nat, b: nat, width: nat)
    requires a <= b
    ensures a * width <= b * width
    decreases b
  {
    if a < b {
      TimesUp(a, b - 1, width);
      assert b * width == (b - 1) * width + width;
    }
  }

  lemma RowsApart(width: nat, y: nat, z: nat)
    requires y < z
    ensures y * width + width <= z * width
  {
    TimesUp(y + 1, z, width);
    assert (y + 1) * width == y * width + width;
  }

  function RowOf(cells: seq<Cell>, width: nat, height: nat, y: nat): (r: seq<Cell>)
    requires |cells| == width * height && y < height
    ensures |r| == width
  {
    RowFits(width, height, y);
    cells[y * width..y * width + width]
  }

  lemma CellOfRow(cells: seq<Cell>, width: nat, height: nat, y: nat, x: nat)
    requires |cells| == width * height && y < height && x < width
    ensures y * width + x < |cells| && RowOf(cells, width, height, y)[x] == cells[y * width + x]
  {
    RowFits(width, height, y);
  }

  /** `cells` with `row` laid over it from `base` on. */
  function Splice(cells: seq<Cell>, base: nat, row: seq<Cell>): (r: seq<Cell>)
    requires base + |row| <= |cells|
    ensures |r| == |cells|
  {
    cells[..base] + row + cells[base + |row|..]
  }

  lemma SpliceCell(cells: seq<Cell>, base: nat, row: seq<Cell>, x: nat, c: Cell)
    requires base + |row| <= |cells| && x < |row|
    ensures Splice(cells, base, row)[base + x] == row[x]
    ensures Splice(cells, base, row)[base + x := c] == Splice(cells, base, row[x := c])
  {
  }

  lemma SpliceSame(cells: seq<Cell>, base: nat, n: nat)
    requires base + n <= |cells|
    ensures Splice(cells, base, cells[base..base + n]) == cells
  {
  }

  /** A splice of one row leaves every other row alone. */
  lemma SpliceRows(cells: seq<Cell>, width: nat, height: nat, y: nat, row: seq<Cell>, z: nat)
    requires |cells| == width * height && y < height && z < height && |row| == width
    ensures y * width + width <= |cells|
    ensures RowOf(Splice(cells, y * width, row), width, height, z) == if z == y then row
            else RowOf(cells, width, height, z)
  {
    RowFits(width, height, y);
    RowFits(width, height, z);
    if z < y { RowsApart(width, z, y); }
    if y < z { RowsApart(width, y, z); }
  }

  // ---- What the writes do to a row ----

  function BlankRange(row: seq<Cell>, from: nat, to: nat): (r: seq<Cell>)
    ensures |r| == |row|
    ensures forall j :: 0 <= j < |r| ==> r[j] == if from <= j < to then Blank(row[j].style) else row[j]
  {
    seq(|row|, j requires 0 <= j < |row| => if from <= j < to then Blank(row[j].style) else row[j])
  }

  lemma BlankNext(cells: seq<Cell>, base: nat, row: seq<Cell>, from: nat, cx: nat)
    requires base + |row| <= |cells| && from <= cx < |row|
    ensures var c := Splice(cells, base, BlankRange(row, from, cx));
            && c[base + cx] == row[cx]
            && c[base + cx := Blank(row[cx].style)] == Splice(cells, base, BlankRange(row, from, cx + 1))
  {
    SpliceCell(cells, base, BlankRange(row, from, cx), cx, Blank(row[cx].style));
    assert BlankRange(row, from, cx)[cx := Blank(row[cx].style)] == BlankRange(row, from, cx + 1);
  }

  lemma BlankNone(row: seq<Cell>, from: nat)
    ensures BlankRange(row, from, from) == row
  {
  }

  /** The two edge repairs together are the repaired row. */
  lemma RepairedByEdges(row: seq<Cell>, x: nat, len: nat, head: nat, stop: nat)
    requires WellFormed(row) && 0 < len && x + len <= stop <= |row|
    requires head == if IsContinuation(row[x]) then HeadOf(row, x) else x
    requires forall k :: x + len <= k < stop ==> IsContinuation(row[k])
    requires stop < |row| ==> !IsContinuation(row[stop])
    ensures BlankRange(BlankRange(row, head, x), x + len, stop) == Repaired(row, x, len)
  {
    var r := BlankRange(BlankRange(row, head, x), x + len, stop);
    forall j | 0 <= j < |row| ensures r[j] == RepairedCell(row, x, len, j) {
      if j < x { CutLeft(row, x, len, j); }
      if x + len <= j { CutRight(row, x, len, j); }
    }
  }

  lemma PutNext(cells: seq<Cell>, base: nat, row: seq<Cell>, x: nat, piece: seq<Cell>, k: nat)
    requires base + |row| <= |cells| && x + |piece| <= |row| && k < |piece|
    ensures Splice(cells, base, Splice(row, x, piece[..k]))[base + x + k := piece[k]]
         == Splice(cells, base, Splice(row, x, piece[..k + 1]))
  {
    SpliceCell(cells, base, Splice(row, x, piece[..k]), x + k, piece[k]);
    assert Splice(row, x, piece[..k])[x + k := piece[k]] == Splice(row, x, piece[..k + 1]);
  }

  /** A row with the glyphs a write to `x..x + len` would cut in half blanked outside the span. */
  function Repaired(row: seq<Cell>, x: nat, len: nat): (r: seq<Cell>)
    ensures |r| == |row|
    ensures forall j :: 0 <= j < |r| ==> r[j] == RepairedCell(row, x, len, j)
  {
    seq(|row|, j requires 0 <= j < |row| => RepairedCell(row, x, len, j))
  }

  function RepairedCell(row: seq<Cell>, x: nat, len: nat, j: nat): Cell
    requires j < |row|
  {
    if !(x <= j < x + len) && Cut(row, x, len, j) then Blank(row[j].style) else row[j]
  }

  /** Laying the piece over the repaired row is the write. */
  lemma RepairThenWrite(row: seq<Cell>, x: nat, piece: seq<Cell>)
    requires x + |piece| <= |row|
    ensures Splice(Repaired(row, x, |piece|), x, piece) == Written(row, x, piece)
  {
    var s, w := Splice(Repaired(row, x, |piece|), x, piece), Written(row, x, piece);
    forall j | 0 <= j < |row| ensures s[j] == w[j] {
    }
  }

  /** What a clipped or whole glyph write makes of a row: a glyph that would pass the right edge is
      blanks up to it. */
  function DrawnPiece(x: nat, width: nat, text: string, advance: nat, style: Style): (p: seq<Cell>)
    requires x < width
    ensures x + |p| <= width
  {
    var head := Glyph(text, advance, style);
    if x + head.advance > width then Fill(width - x, Blank(style)) else GlyphPiece(head)
  }

  lemma DrawnAs(x: nat, width: nat, text: string, advance: nat, style: Style, span: nat)
    requires x < width && span == if advance == 0 then 1 else advance
    ensures DrawnPiece(x, width, text, advance, style)
         == if x + span > width then Fill(width - x, Blank(style)) else GlyphPiece(Glyph(text, span, style))
  {
  }

  /** A glyph past the right edge leaves spaces up to it, in the style given; any other is drawn whole. */
  lemma DrawnCells(x: nat, width: nat, text: string, advance: nat, style: Style, k: nat)
    requires x < width && k < |DrawnPiece(x, width, text, advance, style)|
    ensures var (p, span) := (DrawnPiece(x, width, text, advance, style), if advance == 0 then 1 else advance);
            if x + span > width then |p| == width - x && p[k] == Cell(" ", Normalized(style), 1)
            else |p| == span && p[k] == Cell(if k == 0 then text else "", Normalized(style), if k == 0 then span else 0)
  {
    NormalizedTwice(style);
  }

  lemma DrawnPieceWellFormed(x: nat, width: nat, text: string, advance: nat, style: Style)
    requires x < width
    ensures WellFormed(DrawnPiece(x, width, text, advance, style))
  {
    NormalizedTwice(style);
    FillWellFormed(width - x, Blank(style));
    PieceWellFormed(Glyph(text, advance, style));
  }

  /** The edge test adds in 16 bits and sticks at the top: it is right unless the glyph ends past the
      largest 16-bit column of a grid that wide. */
  lemma ClipTest(x: nat, span: nat, width: nat)
    requires width <= U16_MAX
    ensures (SaturatingAdd(x, span) > width <==> x + span > width) <==> width < U16_MAX || x + span <= U16_MAX
  {
  }

  /** Where the clip test saturates it lets a glyph run past the row's edge: the write breaks the row, and starts the
      row below with a continuation. */
  lemma OverhangBreaks(cells: seq<Cell>, height: nat, y: nat, text: string, style: Style, after: seq<Cell>)
    requires |cells| == U16_MAX * height && y + 1 < height
    requires var x := y * U16_MAX + (U16_MAX - 1);
             x + 1 < |cells| && after == cells[x := Glyph(text, 2, style)][x + 1 := Continuation(style)]
    ensures SaturatingAdd(U16_MAX - 1, 2) <= U16_MAX
    ensures !WellFormed(RowOf(after, U16_MAX, height, y)) && !WellFormed(RowOf(after, U16_MAX, height, y + 1))
  {
    RowFits(U16_MAX, height, y);
    RowFits(U16_MAX, height, y + 1);
    var row, below := RowOf(after, U16_MAX, height, y), RowOf(after, U16_MAX, height, y + 1);
    assert row[U16_MAX - 1] == Glyph(text, 2, style);
    assert below[0] == Continuation(style);
  }

  /** The same of any glyph that runs past the edge of such a row. */
  lemma OverhangNeverFits(row: seq<Cell>, x: nat, text: string, span: nat, style: Style)
    requires |row| == U16_MAX && x < |row| && 0 < span && x + span > |row|
    ensures SaturatingAdd(x, span) <= |row| && !WellFormed(row[x := Glyph(text, span, style)])
  {
    assert row[x := Glyph(text, span, style)][x].advance == span;
  }

  /** The left walk: `head..x` is what the write cuts off on the left. */
  lemma CutLeft(row: seq<Cell>, x: nat, len: nat, j: nat)
    requires WellFormed(row) && 0 < len && x + len <= |row| && j < x
    ensures Cut(row, x, len, j) <==> IsContinuation(row[x]) && HeadOf(row, x) <= j
  {
    HeadFacts(row, j);
    HeadFacts(row, x);
    if Cut(row, x, len, j) {
      HeadOwns(row, HeadOf(row, j), x);
    }
    if IsContinuation(row[x]) && HeadOf(row, x) <= j {
      HeadOwns(row, HeadOf(row, x), j);
    }
  }

  /** The right walk: the continuations that follow the span are what the write cuts off on the right. */
  lemma CutRight(row: seq<Cell>, x: nat, len: nat, j: nat)
    requires WellFormed(row) && 0 < len && x + len <= j < |row|
    ensures Cut(row, x, len, j) <==> forall k :: x + len <= k <= j ==> IsContinuation(row[k])
  {
    HeadFacts(row, j);
    var h := HeadOf(row, j);
    assert h >= x + len ==> !IsContinuation(row[h]);
  }

  /** The cells with a piece written into row `y`. */
  ghost function RowWritten(cells: seq<Cell>, width: nat, height: nat, y: nat, x: nat, piece: seq<Cell>): (r: seq<Cell>)
    requires |cells| == width * height && y < height && x + |piece| <= width
    ensures |r| == |cells|
  {
    RowFits(width, height, y);
    Splice(cells, y * width, Written(RowOf(cells, width, height, y), x, piece))
  }

  /** A write makes its row the written one and leaves every other row as it was. */
  lemma WrittenRows(cells: seq<Cell>, width: nat, height: nat, y: nat, x: nat, piece: seq<Cell>, z: nat)
    requires |cells| == width * height && y < height && x + |piece| <= width && z < height
    ensures RowOf(RowWritten(cells, width, height, y, x, piece), width, height, z)
         == if z == y then Written(RowOf(cells, width, height, y), x, piece) else RowOf(cells, width, height, z)
  {
    RowFits(width, height, y);
    SpliceRows(cells, width, height, y, Written(RowOf(cells, width, height, y), x, piece), z);
  }

  class Grid {
    var width: nat
    var height: nat
    var cells: seq<Cell>

    ghost predicate Sized() reads this {
      width <= U16_MAX && height <= U16_MAX && |cells| == width * height
    }

    ghost function Row(y: nat): seq<Cell>
      requires Sized() && y < height
      reads this
    {
      RowOf(cells, width, height, y)
    }

    /** The write invariant, row by row. */
    ghost predicate Valid() reads this {
      Sized() && forall y :: 0 <= y < height ==> WellFormed(RowOf(cells, width, height, y))
    }

    constructor (width: nat, height: nat)
      requires width <= U16_MAX && height <= U16_MAX
      ensures Valid() && this.width == width && this.height == height
      ensures forall y :: 0 <= y < height ==> Row(y) == Fill(width, Blank(DEFAULT_STYLE))
    {
      this.width, this.height := width, height;
      cells := Fill(width * height, Blank(DEFAULT_STYLE));
      new;
      BlankRows(width, height);
    }

    method Resize(width: nat, height: nat)
      requires width <= U16_MAX && height <= U16_MAX
      modifies this
      ensures Valid() && this.width == width && this.height == height
      ensures forall y :: 0 <= y < height ==> Row(y) == Fill(width, Blank(DEFAULT_STYLE))
    {
      this.width, this.height := width, height;
      cells := Fill(width * height, Blank(DEFAULT_STYLE));
      BlankRows(width, height);
    }

    method Reset()
      requires Valid()
      modifies this`cells
      ensures Valid()
      ensures forall y :: 0 <= y < height ==> Row(y) == Fill(width, Blank(DEFAULT_STYLE))
    {
      cells := Fill(|cells|, Blank(DEFAULT_STYLE));
      BlankRows(width, height);
    }

    method CellAt(x: nat, y: nat) returns (r: Option<Cell>)
      requires Valid()
      ensures r == if x < width && y < height then Some(Row(y)[x]) else None
    {
      if x >= width || y >= height { return None; }
      CellOfRow(cells, width, height, y, x);
      return Some(cells[y * width + x]);
    }

    /** One row's cells; none out of bounds. */
    method RowCells(y: nat) returns (r: seq<Cell>)
      requires Valid()
      ensures r == if y < height then Row(y) else []
    {
      if y >= height { return []; }
      RowFits(width, height, y);
      return cells[y * width..y * width + width];
    }

    /** Draws a glyph of `advance` columns: the row becomes the written row, the others stay. */
    method SetGlyph(x: nat, y: nat, text: string, advance: nat, style: Style)
      requires Valid()
      requires x < width ==> width < U16_MAX || x + (if advance == 0 then 1 else advance) <= U16_MAX
      modifies this`cells
      ensures Valid()
      ensures x >= width || y >= height ==> cells == old(cells)
      ensures x < width && y < height ==>
                cells == RowWritten(old(cells), width, height, y, x, DrawnPiece(x, width, text, advance, style))
    {
      if x >= width || y >= height { return; }
      var span := if advance == 0 then 1 else advance;
      ClipTest(x, span, width);
      DrawnAs(x, width, text, advance, style, span);
      if SaturatingAdd(x, span) > width {
        FillSpan(y, x, width, Blank(style));
      } else {
        DrawWhole(x, y, text, span, style);
      }
    }

    method DrawWhole(x: nat, y: nat, text: string, span: nat, style: Style)
      requires Valid() && y < height && 0 < span && x + span <= width
      modifies this`cells
      ensures Valid()
      ensures cells == RowWritten(old(cells), width, height, y, x, GlyphPiece(Glyph(text, span, style)))
    {
      ghost var mid, piece := Repaired(Row(y), x, span), GlyphPiece(Glyph(text, span, style));
      NormalizedTwice(style);
      PieceWellFormed(Glyph(text, span, style));
      RepairEdges(x, y, span);
      PutGlyph(y * width, x, text, span, style, old(cells), mid);
      WriteDone(old(cells), width, height, y, x, piece, mid, cells);
    }

    /** The head, then its continuations, cell by cell. */
    method PutGlyph(at: nat, x: nat, text: string, span: nat, style: Style, ghost base: seq<Cell>, ghost row: seq<Cell>)
      requires 0 < span && x + span <= |row| && at + |row| <= |base| == |cells| && cells == Splice(base, at, row)
      modifies this`cells
      ensures cells == Splice(base, at, Splice(row, x, GlyphPiece(Glyph(text, span, style))))
    {
      ghost var piece := GlyphPiece(Glyph(text, span, style));
      NormalizedTwice(style);
      assert Splice(row, x, piece[..0]) == row;
      PutNext(base, at, row, x, piece, 0);
      cells := cells[at + x := Glyph(text, span, style)];
      for k := 1 to span
        invariant cells == Splice(base, at, Splice(row, x, piece[..k]))
      {
        PutNext(base, at, row, x, piece, k);
        cells := cells[at + x + k := Continuation(style)];
      }
      assert piece[..span] == piece;
    }

    /** Fills columns `xStart..xEnd` of a row with one-column cells. */
    method FillSpan(y: nat, xStart: nat, xEnd: nat, cell: Cell)
      requires Valid() && cell.advance == 1 && Normalized(cell.style) == cell.style
      modifies this`cells
      ensures Valid()
      ensures var s, e := Min(xStart, width), Min(xEnd, width);
              if y >= height || s >= e then cells == old(cells)
              else cells == RowWritten(old(cells), width, height, y, s, Fill(e - s, cell))
    {
      if y >= height { return; }
      var s, e := Min(xStart, width), Min(xEnd, width);
      if s < e { FillRow(y, s, e, cell); }
    }

    method FillRow(y: nat, s: nat, e: nat, cell: Cell)
      requires Valid() && cell.advance == 1 && Normalized(cell.style) == cell.style && y < height && s < e <= width
      modifies this`cells
      ensures Valid()
      ensures cells == RowWritten(old(cells), width, height, y, s, Fill(e - s, cell))
    {
      ghost var mid, piece := Repaired(Row(y), s, e - s), Fill(e - s, cell);
      RepairEdges(s, y, e - s);
      PutFill(y * width, s, e, cell, old(cells), mid);
      FillWellFormed(e - s, cell);
      WriteDone(old(cells), width, height, y, s, piece, mid, cells);
    }

    method PutFill(row: nat, s: nat, e: nat, cell: Cell, ghost base: seq<Cell>, ghost mid: seq<Cell>)
      requires s <= e <= |mid| && row + |mid| <= |base| == |cells| && cells == Splice(base, row, mid)
      modifies this`cells
      ensures cells == Splice(base, row, Splice(mid, s, Fill(e - s, cell)))
    {
      SpliceInner(base, row, mid, s, Fill(e - s, cell));
      cells := cells[..row + s] + Fill(e - s, cell) + cells[row + e..];
    }

    /** Blanks the halves a write to `x..x + len` would leave behind, reading the row as it stands. */
    method RepairEdges(x: nat, y: nat, len: nat)
      requires Valid() && 0 < len && x + len <= width && y < height
      modifies this`cells
      ensures y * width + width <= |old(cells)|
      ensures cells == Splice(old(cells), y * width, Repaired(old(Row(y)), x, len))
    {
      RowFits(width, height, y);
      ghost var row := Row(y);
      var at := y * width;
      SpliceSame(cells, at, width);
      var head := RepairLeft(at, x, row);
      var stop := RepairRight(at, SaturatingAdd(x, len), old(cells), BlankRange(row, head, x));
      RepairedByEdges(row, x, len, head, stop);
    }

    /** A continuation at `x` means its head sits before the span: the glyph up to `x` is blanked. */
    method RepairLeft(at: nat, x: nat, ghost row: seq<Cell>) returns (head: nat)
      requires x < |row| && at + |row| <= |cells| && cells == Splice(cells, at, row)
      modifies this`cells
      ensures |cells| == |old(cells)|
      ensures head == if IsContinuation(row[x]) then HeadOf(row, x) else x
      ensures cells == Splice(old(cells), at, BlankRange(row, head, x))
    {
      head := x;
      SpliceCell(cells, at, row, x, row[x]);
      BlankNone(row, x);
      if IsContinuation(cells[at + x]) {
        head := WalkLeft(at, x, row);
        BlankSpan(at, head, x, row);
      }
    }

    method WalkLeft(at: nat, x: nat, ghost row: seq<Cell>) returns (head: nat)
      requires x < |row| && at + |row| <= |cells| && cells == Splice(cells, at, row)
      ensures head <= x && head == HeadOf(row, x)
    {
      head := x;
      SpliceCell(cells, at, row, x, row[x]);
      while head > 0 && IsContinuation(cells[at + head])
        invariant head <= x && HeadOf(row, head) == HeadOf(row, x) && cells[at + head] == row[head]
      {
        head := head - 1;
        SpliceCell(cells, at, row, head, row[head]);
      }
    }

    method BlankSpan(at: nat, head: nat, x: nat, ghost row: seq<Cell>)
      requires head <= x <= |row| && at + |row| <= |cells| && cells == Splice(cells, at, row)
      modifies this`cells
      ensures |cells| == |old(cells)| && cells == Splice(old(cells), at, BlankRange(row, head, x))
    {
      BlankNone(row, head);
      for cx := head to x
        invariant cells == Splice(old(cells), at, BlankRange(row, head, cx))
      {
        BlankNext(old(cells), at, row, head, cx);
        var style := cells[at + cx].style;
        cells := cells[at + cx := Blank(style)];
      }
    }

    /** Continuations from `from` on are about to lose their head: they are blanked. */
    method RepairRight(at: nat, from: nat, ghost base: seq<Cell>, ghost row: seq<Cell>) returns (cx: nat)
      requires from <= width == |row| && at + width <= |base| == |cells| && cells == Splice(base, at, row)
      modifies this`cells
      ensures from <= cx <= width
      ensures (forall k :: from <= k < cx ==> IsContinuation(row[k])) && (cx < width ==> !IsContinuation(row[cx]))
      ensures cells == Splice(base, at, BlankRange(row, from, cx))
    {
      cx := from;
      BlankNone(row, from);
      while cx < width && IsContinuation(cells[at + cx])
        invariant from <= cx <= width && cells == Splice(base, at, BlankRange(row, from, cx))
        invariant forall k :: from <= k < cx ==> IsContinuation(row[k])
      {
        BlankNext(base, at, row, from, cx);
        var style := cells[at + cx].style;
        cells := cells[at + cx := Blank(style)];
        cx := cx + 1;
      }
      if cx < width { BlankNext(base, at, row, from, cx); }
    }
  }

  const DEFAULT_STYLE := Style(None, None, 0, None, false, 0)

  lemma BlankRows(width: nat, height: nat)
    ensures var cells := Fill(width * height, Blank(DEFAULT_STYLE));
            forall y :: 0 <= y < height ==>
              RowOf(cells, width, height, y) == Fill(width, Blank(DEFAULT_STYLE))
                  && WellFormed(RowOf(cells, width, height, y))
  {
    var cells := Fill(width * height, Blank(DEFAULT_STYLE));
    forall y | 0 <= y < height
      ensures RowOf(cells, width, height, y) == Fill(width, Blank(DEFAULT_STYLE))
              && WellFormed(RowOf(cells, width, height, y))
    {
      RowFits(width, height, y);
      FillWellFormed(width, Blank(DEFAULT_STYLE));
      assert RowOf(cells, width, height, y) == Fill(width, Blank(DEFAULT_STYLE));
    }
  }

  lemma SpliceInner(cells: seq<Cell>, base: nat, row: seq<Cell>, x: nat, piece: seq<Cell>)
    requires base + |row| <= |cells| && x + |piece| <= |row|
    ensures var c := Splice(cells, base, row);
            c[..base + x] + piece + c[base + x + |piece|..] == Splice(cells, base, Splice(row, x, piece))
  {
  }

  /** One written row: well-formed, and the others as they were. */
  lemma WriteDone(cells: seq<Cell>, width: nat, height: nat, y: nat, x: nat, piece: seq<Cell>,
                  mid: seq<Cell>, after: seq<Cell>)
    requires |cells| == width * height && y < height && y * width + width <= |cells|
    requires x + |piece| <= width && WellFormed(piece)
    requires forall z :: 0 <= z < height ==> WellFormed(RowOf(cells, width, height, z))
    requires mid == Repaired(RowOf(cells, width, height, y), x, |piece|)
    requires after == Splice(cells, y * width, Splice(mid, x, piece))
    ensures |after| == |cells| && after == RowWritten(cells, width, height, y, x, piece)
    ensures forall z :: 0 <= z < height ==> WellFormed(RowOf(after, width, height, z))
  {
    var row := RowOf(cells, width, height, y);
    RepairThenWrite(row, x, piece);
    WrittenWellFormed(row, x, piece);
    forall z | 0 <= z < height ensures WellFormed(RowOf(after, width, height, z)) {
      WrittenRows(cells, width, height, y, x, piece, z);
    }
  }
}
