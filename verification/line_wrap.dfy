/** Laying one buffer line out into display lines: cells in order, columns along each display line, and where a
    wrap splits. */
module LineWrap {
  import opened Wrappers
  import opened Integers

  const MAX_INSERT_WIDTH: nat := 255

  /** A grapheme cluster of the line, or inline text before one; nothing measures zero. `blank` counts toward the
      indent, `ws` is a space or a tab. */
  datatype Item = Cluster(width: nat, tab: bool, ws: bool, blank: bool) | InlineText(widths: seq<nat>)

  /** A cell of the output; `tail` for the second cell of a double-width cluster. */
  datatype Cell = Cell(item: nat, displayCol: nat, width: nat, indentDepth: nat, tail: bool)

  datatype LineKind = LineStart | Wrapped(index: nat)

  /** A display line over the cells `[from, end)`. */
  datatype DisplayLine = DisplayLine(kind: LineKind, from: nat, end: nat)

  /** A column moved right, stopping at the widest there is. */
  function Sat(x: nat): nat {
    if x <= U32_MAX then x else U32_MAX
  }

  function Total(widths: seq<nat>): nat {
    if widths == [] then 0 else widths[0] + Total(widths[1..])
  }

  function TabAdvance(col: nat, tabWidth: nat): (w: nat)
    ensures w >= 1
  {
    var tw := if tabWidth < 1 then 1 else tabWidth;
    tw - col % tw
  }

  /** A tab goes on to the next multiple of the tab width. */
  lemma TabStop(col: nat, tabWidth: nat)
    ensures var tw := if tabWidth < 1 then 1 else tabWidth;
            1 <= TabAdvance(col, tabWidth) <= tw && (col + TabAdvance(col, tabWidth)) % tw == 0
  {
    var tw := if tabWidth < 1 then 1 else tabWidth;
    NextMultiple(col, tw);
  }

  lemma NextMultiple(x: nat, m: nat)
    requires m > 0
    ensures (x + (m - x % m)) % m == 0
  {
    var k := x / m + 1;
    assert x + (m - x % m) == k * m by { assert x == (x / m) * m + x % m; }
    MultipleOf(k, m);
  }

  lemma MultipleOf(k: nat, m: nat)
    requires m > 0
    ensures (k * m) % m == 0
  {
    var q, r := (k * m) / m, (k * m) % m;
    assert r == (k - q) * m;
    NoneBelow(k - q, m, r);
  }

  lemma NoneBelow(d: int, m: nat, r: nat)
    requires r == d * m && r < m
    ensures r == 0
  {
    TimesGrows(d, m);
  }

  lemma TimesGrows(d: int, m: nat)
    ensures d >= 1 ==> d * m >= m
  {
    if d >= 1 { assert d * m == m + (d - 1) * m; }
  }

  // ---- Columns ----

  function Sum(cells: seq<Cell>, from: nat, end: nat): nat
    requires end <= |cells|
    decreases end
  {
    if end <= from then 0 else Sum(cells, from, end - 1) + cells[end - 1].width
  }

  ghost predicate SameWidths(a: seq<Cell>, b: seq<Cell>, n: nat) {
    n <= |a| && n <= |b| && forall i :: 0 <= i < n ==> a[i].width == b[i].width
  }

  lemma {:induction false} SumSame(a: seq<Cell>, b: seq<Cell>, from: nat, end: nat)
    requires SameWidths(a, b, end)
    ensures Sum(a, from, end) == Sum(b, from, end)
    decreases end
  {
    if from < end { SumSame(a, b, from, end - 1); }
  }

  /** Each cell of `[from, end)` stands where the cells before it on the line end. */
  ghost predicate ColumnsFrom(cells: seq<Cell>, from: nat, end: nat, start: nat) {
    end <= |cells| && forall i {:trigger cells[i].displayCol} :: from <= i < end ==>
        cells[i].displayCol == Sat(start + Sum(cells, from, i))
  }

  lemma ColumnsKept(a: seq<Cell>, b: seq<Cell>, from: nat, end: nat, start: nat)
    requires ColumnsFrom(a, from, end, start) && end <= |b| && forall i :: 0 <= i < end ==> a[i] == b[i]
    ensures ColumnsFrom(b, from, end, start)
  {
    forall i | from <= i < end ensures b[i].displayCol == Sat(start + Sum(b, from, i)) {
      ColumnKept(a, b, from, end, start, i);
    }
  }

  lemma ColumnKept(a: seq<Cell>, b: seq<Cell>, from: nat, end: nat, start: nat, i: nat)
    requires ColumnsFrom(a, from, end, start) && end <= |b| && (forall j :: 0 <= j < end ==> a[j] == b[j])
             && from <= i < end
    ensures b[i].displayCol == Sat(start + Sum(b, from, i))
  {
    SumSame(a, b, from, i);
    assert a[i].displayCol == Sat(start + Sum(a, from, i));
  }

  /** The cells alike but for where they stand. */
  ghost predicate SameContent(a: seq<Cell>, b: seq<Cell>, n: nat) {
    && n <= |a| && n <= |b|
    && forall i :: 0 <= i < n ==> a[i].item == b[i].item && a[i].width == b[i].width && a[i].tail == b[i].tail
  }

  /** A cell as it stands on a display line that starts at `start` with the cell at `split`. */
  function Moved(cells: seq<Cell>, split: nat, i: nat, start: nat, indentDepth: nat): Cell
    requires i < |cells|
  {
    cells[i].(displayCol := Sat(start + Sum(cells, split, i)), indentDepth := indentDepth)
  }

  /** The cells from `split` up to `upto` moved to a display line that starts at `start`. */
  function Renumbered(cells: seq<Cell>, split: nat, upto: nat, start: nat, indentDepth: nat): (r: seq<Cell>)
    requires split <= upto <= |cells|
    ensures |r| == |cells|
  {
    if upto == split then cells
    else Renumbered(cells, split, upto - 1, start, indentDepth)[upto - 1 := Moved(cells, split, upto - 1, start,
        indentDepth)]
  }

  lemma {:induction false} RenumberedAt(cells: seq<Cell>, split: nat, upto: nat, start: nat, indentDepth: nat, i: nat)
    requires split <= upto <= |cells| && i < |cells|
    ensures Renumbered(cells, split, upto, start, indentDepth)[i]
         == if split <= i < upto then Moved(cells, split, i, start, indentDepth) else cells[i]
  {
    if split < upto { RenumberedAt(cells, split, upto - 1, start, indentDepth, i); }
  }

  lemma RenumberedCells(cells: seq<Cell>, split: nat, start: nat, indentDepth: nat, r: seq<Cell>)
    requires split <= |cells| && r == Renumbered(cells, split, |cells|, start, indentDepth)
    ensures |r| == |cells| && SameContent(cells, r, |cells|) && (forall i :: 0 <= i < split ==> r[i] == cells[i])
    ensures forall i {:trigger r[i].displayCol} :: split <= i < |r| ==>
            r[i].displayCol == Sat(start + Sum(cells, split, i))
  {
    forall i | 0 <= i < |r|
      ensures r[i] == if i < split then cells[i] else Moved(cells, split, i, start, indentDepth)
    {
      RenumberedAt(cells, split, |cells|, start, indentDepth, i);
    }
  }

  lemma ColumnsBySum(cells: seq<Cell>, r: seq<Cell>, split: nat, start: nat)
    requires SameContent(cells, r, |cells|) && |r| == |cells| && split <= |cells|
    requires forall i {:trigger r[i].displayCol} :: split <= i < |r| ==>
             r[i].displayCol == Sat(start + Sum(cells, split, i))
    ensures ColumnsFrom(r, split, |r|, start) && Sum(r, split, |r|) == Sum(cells, split, |cells|)
  {
    SumSame(cells, r, split, |r|);
    forall i | split <= i < |r| ensures r[i].displayCol == Sat(start + Sum(r, split, i)) {
      SumSame(cells, r, split, i);
    }
  }

  lemma RenumberedColumns(cells: seq<Cell>, split: nat, start: nat, indentDepth: nat)
    requires split <= |cells|
    ensures var r := Renumbered(cells, split, |cells|, start, indentDepth);
            && ColumnsFrom(r, split, |r|, start) && SameContent(cells, r, |cells|)
                && Sum(r, split, |r|) == Sum(cells, split, |cells|)
            && forall i :: 0 <= i < split ==> r[i] == cells[i]
  {
    var r := Renumbered(cells, split, |cells|, start, indentDepth);
    RenumberedCells(cells, split, start, indentDepth, r);
    ColumnsBySum(cells, r, split, start);
  }

  lemma SatAdd(x: nat, w: nat)
    ensures Sat(Sat(x) + w) == Sat(x + w)
  {
  }

  // ---- Layouts ----

  /** The output under way: the last display line is open from `lineStart`, `ends` holds where each item ends and
      `breaks` which items started a display line. */
  datatype Page = Page(lines: seq<DisplayLine>, cells: seq<Cell>, lineStart: nat, lastWs: nat, current: nat,
                       ends: seq<nat>, breaks: seq<nat>)

  function StartCol(k: nat, continuation: nat): nat {
    if k == 0 then 0 else continuation
  }

  /** A place where no item is split. */
  predicate Boundary(ends: seq<nat>, x: nat) {
    x == 0 || x in ends
  }

  function KindOf(k: nat): LineKind {
    if k == 0 then LineStart else Wrapped(k)
  }

  ghost predicate LineOk(p: Page, k: nat, continuation: nat)
    requires k < |p.lines|
  {
    var end := if k + 1 < |p.lines| then p.lines[k].end else |p.cells|;
    && p.lines[k].kind == KindOf(k) && Boundary(p.ends, p.lines[k].from) && p.lines[k].from <= end
    && (k + 1 < |p.lines| ==> p.lines[k + 1].from == end)
    && ColumnsFrom(p.cells, p.lines[k].from, end, StartCol(k, continuation))
  }

  /** Display lines one after another over all the cells, no item split between two, and every cell's column the
      sum of the widths before it on its line. */
  ghost predicate Laid(p: Page, continuation: nat) {
    && p.lines != [] && p.lines[0].from == 0 && p.lines[|p.lines| - 1].from == p.lineStart
    && p.lineStart <= p.lastWs <= |p.cells| && Boundary(p.ends, p.lastWs) && Boundary(p.ends, |p.cells|)
    && (forall k {:trigger LineOk(p, k, continuation)} :: 0 <= k < |p.lines| ==> LineOk(p, k, continuation))
    && p.current == Sat(StartCol(|p.lines| - 1, continuation) + Sum(p.cells, p.lineStart, |p.cells|))
  }

  function PushedCell(p: Page, c: Cell): Page {
    p.(cells := p.cells + [c], current := Sat(p.current + c.width))
  }

  /** Cells in mid-item: everything of `Laid` but that the last cell ends an item. */
  ghost predicate MidItem(p: Page, continuation: nat) {
    && p.lines != [] && p.lines[0].from == 0 && p.lines[|p.lines| - 1].from == p.lineStart
    && p.lineStart <= p.lastWs <= |p.cells| && Boundary(p.ends, p.lastWs)
    && (forall k {:trigger LineOk(p, k, continuation)} :: 0 <= k < |p.lines| ==> LineOk(p, k, continuation))
    && p.current == Sat(StartCol(|p.lines| - 1, continuation) + Sum(p.cells, p.lineStart, |p.cells|))
  }

  ghost predicate Extends(cells: seq<Cell>, more: seq<Cell>, c: Cell) {
    |more| == |cells| + 1 && more[|cells|] == c && forall j :: 0 <= j < |cells| ==> cells[j] == more[j]
  }

  lemma SumMore(cells: seq<Cell>, more: seq<Cell>, c: Cell, from: nat)
    requires Extends(cells, more, c) && from <= |cells|
    ensures Sum(more, from, |cells|) == Sum(cells, from, |cells|)
    ensures Sum(more, from, |more|) == Sum(cells, from, |cells|) + c.width
  {
    SumSame(cells, more, from, |cells|);
  }

  lemma ColumnsMore(cells: seq<Cell>, more: seq<Cell>, c: Cell, from: nat, start: nat)
    requires ColumnsFrom(cells, from, |cells|, start) && Extends(cells, more, c) && from <= |cells|
    requires c.displayCol == Sat(start + Sum(cells, from, |cells|))
    ensures ColumnsFrom(more, from, |more|, start)
  {
    SumMore(cells, more, c, from);
    forall i | from <= i < |more| ensures more[i].displayCol == Sat(start + Sum(more, from, i)) {
      if i < |cells| { ColumnKept(cells, more, from, |cells|, start, i); }
    }
  }

  lemma PushedEarlier(p: Page, c: Cell, continuation: nat, k: nat)
    requires MidItem(p, continuation) && k + 1 < |p.lines|
    ensures LineOk(PushedCell(p, c), k, continuation)
  {
    assert LineOk(p, k, continuation);
    LinesAscend(p, k + 1, continuation);
    ColumnsKept(p.cells, PushedCell(p, c).cells, p.lines[k].from, p.lines[k].end, StartCol(k, continuation));
  }

  lemma PushedLast(p: Page, c: Cell, continuation: nat)
    requires MidItem(p, continuation) && c.displayCol == p.current
    ensures LineOk(PushedCell(p, c), |p.lines| - 1, continuation)
    ensures Sum(p.cells + [c], p.lineStart, |p.cells| + 1) == Sum(p.cells, p.lineStart, |p.cells|) + c.width
  {
    var q, last := PushedCell(p, c), |p.lines| - 1;
    assert LineOk(p, last, continuation);
    SumMore(p.cells, q.cells, c, p.lineStart);
    ColumnsMore(p.cells, q.cells, c, p.lineStart, StartCol(last, continuation));
  }

  lemma PushCell(p: Page, c: Cell, continuation: nat)
    requires MidItem(p, continuation) && c.displayCol == p.current
    ensures MidItem(PushedCell(p, c), continuation)
  {
    var q, last := PushedCell(p, c), |p.lines| - 1;
    PushedLast(p, c, continuation);
    SatAdd(StartCol(last, continuation) + Sum(p.cells, p.lineStart, |p.cells|), c.width);
    forall k | 0 <= k < |q.lines| ensures LineOk(q, k, continuation) {
      if k < last { PushedEarlier(p, c, continuation, k); }
    }
  }

  lemma {:induction false} LinesAscend(p: Page, k: nat, continuation: nat)
    requires p.lines != [] && (forall j {:trigger LineOk(p, j, continuation)} :: 0 <= j < |p.lines| ==>
             LineOk(p, j, continuation)) && k < |p.lines|
    ensures p.lines[k].from <= p.lines[|p.lines| - 1].from <= |p.cells|
    decreases |p.lines| - k
  {
    assert LineOk(p, k, continuation);
    if k + 1 < |p.lines| { LinesAscend(p, k + 1, continuation); }
  }

  lemma EndItem(p: Page, continuation: nat)
    requires MidItem(p, continuation)
    ensures Laid(p.(ends := p.ends + [|p.cells|]), continuation)
  {
    var q := p.(ends := p.ends + [|p.cells|]);
    forall k | 0 <= k < |q.lines| ensures LineOk(q, k, continuation) {
      assert LineOk(p, k, continuation);
    }
  }

  /** The page after a wrap at `split`. */
  function Split(p: Page, split: nat, continuation: nat, indentDepth: nat): Page
    requires p.lines != [] && split <= |p.cells|
  {
    var last := |p.lines| - 1;
    Page(p.lines[last := DisplayLine(p.lines[last].kind, p.lineStart, split)]
        + [DisplayLine(Wrapped(|p.lines|), split, 0)],
         Renumbered(p.cells, split, |p.cells|, continuation, indentDepth), split, split,
         Sat(continuation + Sum(p.cells, split, |p.cells|)), p.ends, p.breaks + [|p.ends|])
  }

  lemma SplitEarlier(p: Page, split: nat, continuation: nat, indentDepth: nat, k: nat)
    requires Laid(p, continuation) && p.lineStart <= split <= |p.cells| && k + 1 < |p.lines|
    ensures LineOk(Split(p, split, continuation, indentDepth), k, continuation)
  {
    var q := Split(p, split, continuation, indentDepth);
    assert LineOk(p, k, continuation);
    LinesAscend(p, k + 1, continuation);
    RenumberedCells(p.cells, split, continuation, indentDepth, q.cells);
    assert q.lines[k].from == p.lines[k].from && q.lines[k].end == p.lines[k].end;
    assert k + 1 < |p.lines| - 1 ==> q.lines[k + 1] == p.lines[k + 1];
    ColumnsKept(p.cells, q.cells, p.lines[k].from, p.lines[k].end, StartCol(k, continuation));
  }

  lemma SplitClosed(p: Page, split: nat, continuation: nat, indentDepth: nat)
    requires Laid(p, continuation) && p.lineStart <= split <= |p.cells|
    ensures LineOk(Split(p, split, continuation, indentDepth), |p.lines| - 1, continuation)
  {
    var q, last := Split(p, split, continuation, indentDepth), |p.lines| - 1;
    assert LineOk(p, last, continuation);
    RenumberedCells(p.cells, split, continuation, indentDepth, q.cells);
    ColumnsKept(p.cells, q.cells, p.lineStart, split, StartCol(last, continuation));
  }

  /** Splitting where an item ends keeps the layout, the carried cells renumbered on the new line. */
  lemma SplitLaid(p: Page, split: nat, continuation: nat, indentDepth: nat)
    requires Laid(p, continuation) && p.lineStart <= split <= |p.cells| && Boundary(p.ends, split)
    ensures Laid(Split(p, split, continuation, indentDepth), continuation)
  {
    var q, n := Split(p, split, continuation, indentDepth), |p.lines|;
    RenumberedColumns(p.cells, split, continuation, indentDepth);
    forall k | 0 <= k < |q.lines| ensures LineOk(q, k, continuation) {
      if k + 1 < n { SplitEarlier(p, split, continuation, indentDepth, k); }
      else if k + 1 == n { SplitClosed(p, split, continuation, indentDepth); }
    }
  }

  // ---- Items ----

  function Begin(ends: seq<nat>, j: nat): nat
    requires j <= |ends|
  {
    if j == 0 then 0 else ends[j - 1]
  }

  /** The cells `[from, end)` are those of item `j`: a cluster's one cell, with an empty second one just when it
      is two columns wide, or inline text's cells in order. */
  ghost predicate ItemCells(cells: seq<Cell>, from: nat, end: nat, j: nat, item: Item, tabWidth: nat) {
    && from <= end <= |cells|
    && match item
       case Cluster(width, tab, _, _) =>
         && from < end && cells[from].item == j && !cells[from].tail
             && end == from + (if cells[from].width == 2 then 2 else 1)
         && (if tab then 1 <= cells[from].width <= (if tabWidth < 1 then 1 else tabWidth)
             else cells[from].width == width)
         && (end == from + 2 ==> cells[from + 1].tail && cells[from + 1].width == 0 && cells[from + 1].item == j)
       case InlineText(widths) =>
         end == from + |widths| && TextCells(cells, from, end, j, widths)
  }

  ghost predicate TextCells(cells: seq<Cell>, from: nat, end: nat, j: nat, widths: seq<nat>) {
    && from <= end <= |cells| && end - from <= |widths|
    && forall i :: from <= i < end ==> cells[i].item == j && cells[i].width == widths[i - from] && !cells[i].tail
  }

  /** The items so far, each once and in order. */
  ghost predicate Emitted(cells: seq<Cell>, ends: seq<nat>, items: seq<Item>, tabWidth: nat) {
    && |ends| <= |items| && Begin(ends, |ends|) <= |cells|
    && forall j {:trigger items[j]} :: 0 <= j < |ends| ==>
        ItemCells(cells, Begin(ends, j), ends[j], j, items[j], tabWidth)
  }

  lemma ItemCellsKept(a: seq<Cell>, b: seq<Cell>, from: nat, end: nat, j: nat, item: Item, tabWidth: nat)
    requires ItemCells(a, from, end, j, item, tabWidth) && SameContent(a, b, |a|)
    ensures ItemCells(b, from, end, j, item, tabWidth)
  {
  }

  lemma EmittedKept(a: seq<Cell>, b: seq<Cell>, ends: seq<nat>, items: seq<Item>, tabWidth: nat)
    requires Emitted(a, ends, items, tabWidth) && SameContent(a, b, |a|)
    ensures Emitted(b, ends, items, tabWidth)
  {
    forall j | 0 <= j < |ends| ensures ItemCells(b, Begin(ends, j), ends[j], j, items[j], tabWidth) {
      ItemCellsKept(a, b, Begin(ends, j), ends[j], j, items[j], tabWidth);
    }
  }

  lemma BeginKept(ends: seq<nat>, more: seq<nat>, x: nat, j: nat)
    requires more == ends + [x] && j <= |ends|
    ensures Begin(more, j) == Begin(ends, j) && (j < |ends| ==> more[j] == ends[j]) && more[|ends|] == x
  {
  }

  lemma EmittedMore(cells: seq<Cell>, ends: seq<nat>, items: seq<Item>, tabWidth: nat, more: seq<nat>)
    requires Emitted(cells, ends, items, tabWidth) && |ends| < |items| && more == ends + [|cells|]
    requires ItemCells(cells, Begin(ends, |ends|), |cells|, |ends|, items[|ends|], tabWidth)
    ensures Emitted(cells, more, items, tabWidth)
  {
    forall j | 0 <= j < |more| ensures ItemCells(cells, Begin(more, j), more[j], j, items[j], tabWidth) {
      BeginKept(ends, more, |cells|, j);
      EmittedAt(cells, ends, items, tabWidth, j);
    }
  }

  lemma EmittedAt(cells: seq<Cell>, ends: seq<nat>, items: seq<Item>, tabWidth: nat, j: nat)
    requires Emitted(cells, ends, items, tabWidth)
    ensures j < |ends| ==> ItemCells(cells, Begin(ends, j), ends[j], j, items[j], tabWidth)
  {
  }

  // ---- Wrapping ----

  /** Whether a cell this wide runs past the wrap column; one that starts the line is let through. */
  predicate Overflows(p: Page, wrapWidth: Option<nat>, width: nat) {
    wrapWidth.Some? && Sat(p.current + width) > wrapWidth.value && p.current != 0
  }

  function SplitAt(p: Page, wordBreak: bool): nat {
    if wordBreak && p.lastWs > p.lineStart then p.lastWs else |p.cells|
  }

  function WrapFor(p: Page, wrapWidth: Option<nat>, wordBreak: bool, width: nat, continuation: nat,
                   indentDepth: nat): Page
    requires p.lines != [] && p.lastWs <= |p.cells|
  {
    if Overflows(p, wrapWidth, width) then Split(p, SplitAt(p, wordBreak), continuation, indentDepth) else p
  }

  lemma WrapForLaid(p: Page, wrapWidth: Option<nat>, wordBreak: bool, width: nat, continuation: nat, indentDepth: nat)
    requires Laid(p, continuation)
    ensures var q := WrapFor(p, wrapWidth, wordBreak, width, continuation, indentDepth);
            Laid(q, continuation) && SameContent(p.cells, q.cells, |p.cells|) && |q.cells| == |p.cells|
                && q.ends == p.ends
  {
    if Overflows(p, wrapWidth, width) {
      var split := SplitAt(p, wordBreak);
      SplitLaid(p, split, continuation, indentDepth);
      RenumberedCells(p.cells, split, continuation, indentDepth, Split(p, split, continuation, indentDepth).cells);
    }
  }

  // ---- Lines of single-column clusters ----

  /** All clusters one column wide, no tab and no inline text. */
  predicate UnitLine(items: seq<Item>) {
    forall i :: 0 <= i < |items| ==> items[i].Cluster? && items[i].width == 1 && !items[i].tab
  }

  predicate IsWs(items: seq<Item>, i: nat) {
    i < |items| && items[i].Cluster? && items[i].ws
  }

  predicate AllWs(items: seq<Item>, n: nat) {
    forall i :: 0 <= i < n ==> IsWs(items, i)
  }

  /** One past the last space of the first `n` items that has a non-space before it; 0 when there is none. */
  function LastBreak(items: seq<Item>, n: nat): (b: nat)
    ensures b <= n
  {
    if n == 0 then 0
    else if IsWs(items, n - 1) && !AllWs(items, n - 1) then n
    else LastBreak(items, n - 1)
  }

  /** The first wrap splits inside the indent: what it carries does not fit after the continuation column. */
  predicate BreaksInIndent(items: seq<Item>, wrap: nat, continuation: nat, wordBreak: bool) {
    wordBreak && 0 < LastBreak(items, wrap) <= continuation
  }

  predicate WithinWrap(cells: seq<Cell>, wrap: nat) {
    forall i :: 0 <= i < |cells| ==> cells[i].displayCol + cells[i].width <= wrap
  }

  /** A single-column line after `n` cells: one display line up to the wrap column, then either all within it, or
      the first cell past it stuck there. */
  ghost predicate UnitPage(p: Page, items: seq<Item>, n: nat, wrap: nat, continuation: nat, wordBreak: bool) {
    && |p.cells| == n && (forall i :: 0 <= i < n ==> p.cells[i].width == 1)
    && (n <= wrap ==> |p.lines| == 1 && p.lineStart == 0 && p.current == n && p.lastWs == LastBreak(items, n)
                      && WithinWrap(p.cells, wrap))
    && (n > wrap ==> |p.lines| > 1)
    && (n > wrap && !BreaksInIndent(items, wrap, continuation, wordBreak) ==>
        p.current <= wrap && WithinWrap(p.cells, wrap))
    && (n > wrap && BreaksInIndent(items, wrap, continuation, wordBreak) ==>
          p.cells[wrap].displayCol >= wrap && (p.lastWs > p.lineStart ==> p.lastWs > wrap))
  }

  lemma {:induction false} UnitSum(cells: seq<Cell>, from: nat, end: nat)
    requires from <= end <= |cells| && forall i :: 0 <= i < |cells| ==> cells[i].width == 1
    ensures Sum(cells, from, end) == end - from
    decreases end
  {
    if from < end { UnitSum(cells, from, end - 1); }
  }

  /** Where the next cell goes. */
  function UnitNext(p: Page, j: nat, wrap: nat, wordBreak: bool, continuation: nat, indentDepth: nat,
                    cellDepth: nat): Page
    requires p.lines != [] && p.lastWs <= |p.cells|
  {
    var q := WrapFor(p, Some(wrap), wordBreak, 1, continuation, indentDepth);
    PushedCell(q, Cell(j, q.current, 1, cellDepth, false))
  }

  lemma UnitSplitFits(p: Page, items: seq<Item>, n: nat, wrap: nat, continuation: nat, wordBreak: bool,
                      indentDepth: nat)
    requires Laid(p, continuation) && UnitPage(p, items, n, wrap, continuation, wordBreak) && n >= wrap
    requires continuation < wrap <= U16_MAX && !BreaksInIndent(items, wrap, continuation, wordBreak)
    requires Overflows(p, Some(wrap), 1)
    ensures var q := Split(p, SplitAt(p, wordBreak), continuation, indentDepth);
           q.current < wrap
           && WithinWrap(q.cells, wrap)
  {
    var split := SplitAt(p, wordBreak);
    UnitSum(p.cells, split, n);
    UnitSum(p.cells, p.lineStart, n);
    assert p.current == wrap && continuation + (n - split) < wrap;
    UnitCarried(p, n, wrap, continuation, split, indentDepth);
  }

  lemma UnitCarried(p: Page, n: nat, wrap: nat, continuation: nat, split: nat, indentDepth: nat)
    requires p.lines != [] && |p.cells| == n && (forall i :: 0 <= i < n ==> p.cells[i].width == 1)
             && WithinWrap(p.cells, wrap)
    requires split <= n && continuation + (n - split) < wrap <= U16_MAX
    ensures WithinWrap(Split(p, split, continuation, indentDepth).cells, wrap)
  {
    var r := Renumbered(p.cells, split, n, continuation, indentDepth);
    RenumberedCells(p.cells, split, continuation, indentDepth, r);
    forall i | 0 <= i < n ensures r[i].displayCol + r[i].width <= wrap {
      if i >= split { UnitSum(p.cells, split, i); }
    }
  }

  lemma UnitStep(p: Page, items: seq<Item>, n: nat, wrap: nat, continuation: nat, wordBreak: bool, indentDepth: nat,
                 j: nat, cellDepth: nat)
    requires Laid(p, continuation) && UnitPage(p, items, n, wrap, continuation, wordBreak)
             && continuation < wrap <= U16_MAX
    ensures var q := UnitNext(p, j, wrap, wordBreak, continuation, indentDepth, cellDepth);
            && (n < wrap ==> q.lines == p.lines && q.lineStart == 0 && q.current == n + 1 && q.lastWs == p.lastWs)
            && |q.cells| == n + 1 && (forall i :: 0 <= i < n + 1 ==> q.cells[i].width == 1)
            && (n >= wrap ==> |q.lines| > 1)
            && (n < wrap || !BreaksInIndent(items, wrap, continuation, wordBreak) ==>
                q.current <= wrap && WithinWrap(q.cells, wrap))
            && (n >= wrap && BreaksInIndent(items, wrap, continuation, wordBreak) ==>
                  q.cells[wrap].displayCol >= wrap && (q.lastWs > q.lineStart ==> q.lastWs > wrap))
  {
    var q := WrapFor(p, Some(wrap), wordBreak, 1, continuation, indentDepth);
    WrapForLaid(p, Some(wrap), wordBreak, 1, continuation, indentDepth);
    if n >= wrap && BreaksInIndent(items, wrap, continuation, wordBreak) {
      UnitStuck(p, items, n, wrap, continuation, wordBreak, indentDepth);
    } else if Overflows(p, Some(wrap), 1) {
      UnitSplitFits(p, items, n, wrap, continuation, wordBreak, indentDepth);
    }
  }

  lemma UnitStuck(p: Page, items: seq<Item>, n: nat, wrap: nat, continuation: nat, wordBreak: bool, indentDepth: nat)
    requires Laid(p, continuation) && UnitPage(p, items, n, wrap, continuation, wordBreak)
             && continuation < wrap <= U16_MAX
    requires n >= wrap && BreaksInIndent(items, wrap, continuation, wordBreak)
    ensures var q := WrapFor(p, Some(wrap), wordBreak, 1, continuation, indentDepth);
            && |q.lines| > 1 && (n == wrap ==> q.current >= wrap && q.lastWs == q.lineStart)
            && (n > wrap ==> q.cells[wrap].displayCol >= wrap && (q.lastWs > q.lineStart ==> q.lastWs > wrap))
  {
    if n == wrap {
      UnitSum(p.cells, p.lastWs, n);
    } else if Overflows(p, Some(wrap), 1) {
      var split := SplitAt(p, wordBreak);
      RenumberedCells(p.cells, split, continuation, indentDepth, Split(p, split, continuation, indentDepth).cells);
    }
  }

  /** A page after the unit cell of item `n`, its end and its whitespace noted. */
  function UnitAfter(p: Page, items: seq<Item>, n: nat, wrap: nat, wordBreak: bool, continuation: nat, indentDepth: nat,
                     cellDepth: nat): Page
    requires p.lines != [] && p.lastWs <= |p.cells|
  {
    var q := UnitNext(p, n, wrap, wordBreak, continuation, indentDepth, cellDepth);
    q.(ends := q.ends + [|q.cells|], lastWs := if IsWs(items, n) && !AllWs(items, n) then |q.cells| else q.lastWs)
  }

  lemma UnitMore(p: Page, items: seq<Item>, n: nat, wrap: nat, continuation: nat, wordBreak: bool, indentDepth: nat,
                 cellDepth: nat)
    requires Laid(p, continuation) && UnitPage(p, items, n, wrap, continuation, wordBreak)
             && continuation < wrap <= U16_MAX
    ensures UnitPage(UnitAfter(p, items, n, wrap, wordBreak, continuation, indentDepth, cellDepth), items, n + 1,
            wrap, continuation, wordBreak)
  {
    UnitStep(p, items, n, wrap, continuation, wordBreak, indentDepth, n, cellDepth);
  }

  // ---- Indent ----

  /** Columns of the leading blank clusters. */
  function LeadingColumns(items: seq<Item>, col: nat, tabWidth: nat): nat {
    if items == [] then col
    else match items[0]
      case InlineText(_) => LeadingColumns(items[1..], col, tabWidth)
      case Cluster(width, tab, _, blank) =>
        if blank then LeadingColumns(items[1..], col + if tab then TabAdvance(col, tabWidth)
            else width, tabWidth) else col
  }

  function IndentDepth(items: seq<Item>, tabWidth: nat): nat {
    var levels := LeadingColumns(items, 0, tabWidth) / (if tabWidth < 1 then 1 else tabWidth);
    if levels <= 255 then levels else 255
  }

  datatype WrapMode = NoWrap | Soft(width: nat) | Word(width: nat) | Indent(width: nat)

  function WrapWidth(mode: WrapMode): Option<nat> {
    if mode.NoWrap? then None else Some(mode.width)
  }

  predicate BreaksAtWord(mode: WrapMode) {
    mode.Word? || mode.Indent?
  }

  /** The column continuation display lines start at. */
  function Continuation(mode: WrapMode, items: seq<Item>, tabWidth: nat): nat {
    if mode.Indent? then IndentDepth(items, tabWidth) * (if tabWidth < 1 then 1 else tabWidth) else 0
  }

  predicate Blanks(items: seq<Item>) {
    forall i :: 0 <= i < |items| && items[i].Cluster? ==> items[i].blank
  }

  lemma {:induction false} LeadingThrough(head: seq<Item>, rest: seq<Item>, col: nat, tabWidth: nat)
    requires Blanks(head)
    ensures LeadingColumns(head + rest, col, tabWidth)
         == LeadingColumns(rest, LeadingColumns(head, col, tabWidth), tabWidth)
    decreases |head|
  {
    if head == [] {
      assert head + rest == rest;
    } else {
      assert (head + rest)[1..] == head[1..] + rest;
      var next := match head[0]
        case InlineText(_) => col
        case Cluster(width, tab, _, _) => col + if tab then TabAdvance(col, tabWidth) else width;
      LeadingThrough(head[1..], rest, next, tabWidth);
    }
  }

  /** The indent grows by a blank's width, by a tab to the next tab stop, and ends at the first cluster not blank;
      inline text counts for nothing. */
  lemma IndentGrows(head: seq<Item>, item: Item, rest: seq<Item>, tabWidth: nat)
    requires Blanks(head)
    ensures LeadingColumns([], 0, tabWidth) == 0
    ensures var (cols, tw) := (LeadingColumns(head, 0, tabWidth), if tabWidth < 1 then 1 else tabWidth);
            var more := LeadingColumns(head + [item], 0, tabWidth);
            && (item.Cluster? && !item.blank ==> LeadingColumns(head + ([item] + rest), 0, tabWidth) == cols)
            && (item.Cluster? && item.blank && !item.tab ==> more == cols + item.width)
            && (item.Cluster? && item.blank && item.tab ==> cols < more <= cols + tw && more % tw == 0)
            && (item.InlineText? ==> more == cols)
  {
    var cols := LeadingColumns(head, 0, tabWidth);
    LeadingThrough(head, [item], 0, tabWidth);
    LeadingThrough(head, [item] + rest, 0, tabWidth);
    assert [item][1..] == [] && ([item] + rest)[0] == item;
    TabStop(cols, tabWidth);
  }

  /** Continuation lines of an indented line start at the last tab stop within the indent, the 255th at most. */
  lemma ContinuationIsStop(mode: WrapMode, items: seq<Item>, tabWidth: nat)
    requires mode.Indent?
    ensures var (c, cols) := (Continuation(mode, items, tabWidth), LeadingColumns(items, 0, tabWidth));
            var tw := if tabWidth < 1 then 1 else tabWidth;
            c % tw == 0 && c <= cols && (cols < c + tw || c == 255 * tw)
  {
    var cols, tw := LeadingColumns(items, 0, tabWidth), if tabWidth < 1 then 1 else tabWidth;
    LastStop(cols, tw, IndentDepth(items, tabWidth));
  }

  lemma LastStop(n: nat, tw: nat, depth: nat)
    requires tw > 0 && depth == if n / tw <= 255 then n / tw else 255
    ensures (depth * tw) % tw == 0 && depth * tw <= n && (n < depth * tw + tw || depth == 255)
  {
    MultipleOf(depth, tw);
    Stops(n, tw, depth);
    if depth == n / tw { Quotient(n, tw); }
  }

  lemma Quotient(n: nat, m: nat)
    requires m > 0
    ensures n < (n / m) * m + m
  {
  }

  /** The blank clusters a single-column line starts with. */
  function LeadingBlanks(items: seq<Item>): (n: nat)
    ensures n <= |items|
  {
    if items != [] && items[0].Cluster? && items[0].blank then 1 + LeadingBlanks(items[1..]) else 0
  }

  lemma {:induction false} UnitLeading(items: seq<Item>, col: nat, tabWidth: nat)
    requires UnitLine(items)
    ensures LeadingColumns(items, col, tabWidth) == col + LeadingBlanks(items)
  {
    if items != [] && items[0].blank { UnitLeading(items[1..], col + 1, tabWidth); }
  }

  lemma UnitContinuation(mode: WrapMode, items: seq<Item>, tabWidth: nat)
    requires UnitLine(items)
    ensures Continuation(mode, items, tabWidth) <= LeadingBlanks(items)
  {
    UnitLeading(items, 0, tabWidth);
    var tw, n := if tabWidth < 1 then 1 else tabWidth, LeadingBlanks(items);
    Stops(n, tw, IndentDepth(items, tabWidth));
  }

  lemma Stops(n: nat, tw: nat, depth: nat)
    requires tw > 0 && depth <= n / tw
    ensures depth * tw <= n
  {
    assert depth * tw <= (n / tw) * tw;
  }

  /** With an indent of plain spaces the first wrap never splits inside it. */
  lemma {:induction false} SpacesKeepIndent(items: seq<Item>, indent: nat, n: nat)
    requires AllWs(items, indent)
    ensures LastBreak(items, n) == 0 || LastBreak(items, n) > indent
  {
    if n > 0 && !(IsWs(items, n - 1) && !AllWs(items, n - 1)) { SpacesKeepIndent(items, indent, n - 1); }
  }

  /** A blank that is no space, then a space: a line that wraps past its wrap column. */
  lemma NonBreakingIndent() returns (items: seq<Item>)
    ensures UnitLine(items) && Continuation(Indent(6), items, 4) == 4 && BreaksInIndent(items, 6, 4, true)
            && |items| > 6
  {
    var nbsp, space, x := Cluster(1, false, false, true), Cluster(1, false, true, true),
        Cluster(1, false, false, false);
    items := [nbsp, space, nbsp, nbsp, x, x, x];
    UnitLeading(items, 0, 4);
    assert items[1..] == [space, nbsp, nbsp, x, x, x] && items[1..][1..] == [nbsp, nbsp, x, x, x];
    assert items[1..][1..][1..] == [nbsp, x, x, x] && items[1..][1..][1..][1..] == [x, x, x];
    assert LeadingBlanks([x, x, x]) == 0 && LeadingBlanks([nbsp, x, x, x]) == 1
           && LeadingBlanks([nbsp, nbsp, x, x, x]) == 2;
    assert LeadingBlanks([space, nbsp, nbsp, x, x, x]) == 3;
    assert !IsWs(items, 0) && IsWs(items, 1) && LastBreak(items, 2) == 2 && LastBreak(items, 3) == 2
           && LastBreak(items, 4) == 2;
    assert LastBreak(items, 5) == 2 && LastBreak(items, 6) == 2;
  }
}
