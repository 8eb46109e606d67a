/** Formatting one buffer line: the wrap state that is updated cell by cell, and the loop that drives it. */
module LineFormatting {
  import opened Wrappers
  import opened Integers
  import opened LineWrap
  import opened LineBreaks

  class LineFormat {
    var displayLines: seq<DisplayLine>
    var cells: seq<Cell>

    constructor ()
      ensures displayLines == [] && cells == []
    {
      displayLines, cells := [], [];
    }
  }

  type Column = x: nat | x <= U32_MAX

  /** What a line break adds: one empty column. */
  const SENTINEL := Cluster(1, false, false, false)

  function WithSentinel(items: seq<Item>, hadNewline: bool): seq<Item> {
    items + if hadNewline then [SENTINEL] else []
  }

  function Closed(p: Page): seq<DisplayLine>
    requires p.lines != []
  {
    p.lines[|p.lines| - 1 := DisplayLine(p.lines[|p.lines| - 1].kind, p.lineStart, |p.cells|)]
  }

  /** Putting cells leaves the display lines as they are. */
  ghost predicate SameLines(p: Page, r: Page) {
    && r.lines == p.lines && r.lineStart == p.lineStart && r.lastWs == p.lastWs && r.ends == p.ends
    && r.breaks == p.breaks
  }

  class WrapState {
    const wrapWidth: Option<nat>
    const continuationCol: Column
    const wordBreak: bool
    var currentDisplayCol: nat
    var wrapIndex: nat
    var lineStart: nat
    var lastWs: nat
    var inLeadingWs: bool
    ghost var ends: seq<nat>
    ghost var breaks: seq<nat>

    ghost function PageOf(out: LineFormat): Page reads this, out {
      Page(out.displayLines, out.cells, lineStart, lastWs, currentDisplayCol, ends, breaks)
    }

    ghost function RuleFor(tabWidth: nat): Rule {
      Rule(wrapWidth, wordBreak, continuationCol, tabWidth)
    }

    ghost predicate Valid(out: LineFormat) reads this, out {
      Laid(PageOf(out), continuationCol) && wrapIndex == |out.displayLines| - 1
    }

    constructor (mode: WrapMode, continuationCol: Column, out: LineFormat)
      requires out.displayLines == [] && out.cells == []
      modifies out
      ensures Valid(out) && wrapWidth == WrapWidth(mode) && wordBreak == BreaksAtWord(mode)
              && this.continuationCol == continuationCol
      ensures PageOf(out) == Page([DisplayLine(LineStart, 0, 0)], [], 0, 0, 0, [], []) && inLeadingWs
    {
      wrapWidth, this.continuationCol, wordBreak := WrapWidth(mode), continuationCol, BreaksAtWord(mode);
      currentDisplayCol, wrapIndex, lineStart, lastWs, inLeadingWs, ends, breaks := 0, 0, 0, 0, true, [], [];
      new;
      out.displayLines := [DisplayLine(LineStart, 0, 0)];
    }

    /** Records a cluster just emitted: leading whitespace is never a place to break. */
    method NoteWs(isWs: bool, cellsLen: nat)
      modifies `inLeadingWs, `lastWs
      ensures inLeadingWs == (old(inLeadingWs) && isWs)
      ensures lastWs == if isWs && !inLeadingWs then cellsLen else old(lastWs)
    {
      inLeadingWs := inLeadingWs && isWs;
      if isWs && !inLeadingWs { lastWs := cellsLen; }
    }

    /** Starts a new display line when `width` more columns do not fit, carrying what follows the last space. */
    method MaybeWrap(width: nat, indentDepth: nat, out: LineFormat)
      requires Valid(out)
      modifies this, out
      ensures Valid(out) && inLeadingWs == old(inLeadingWs)
      ensures PageOf(out) == WrapFor(old(PageOf(out)), wrapWidth, wordBreak, width, continuationCol, indentDepth)
      ensures SameContent(old(out.cells), out.cells, |old(out.cells)|) && |out.cells| == |old(out.cells)|
              && ends == old(ends)
    {
      WrapForLaid(PageOf(out), wrapWidth, wordBreak, width, continuationCol, indentDepth);
      if wrapWidth.None? { return; }
      if Sat(currentDisplayCol + width) <= wrapWidth.value { return; }
      if currentDisplayCol == 0 { return; }
      BreakAt(if wordBreak && lastWs > lineStart then lastWs else |out.cells|, indentDepth, out);
    }

    /** Ends the display line at `splitAt` and carries what follows to the next. */
    method BreakAt(splitAt: nat, indentDepth: nat, out: LineFormat)
      requires out.displayLines != [] && splitAt <= |out.cells| && wrapIndex == |out.displayLines| - 1
      modifies this, out
      ensures PageOf(out) == Split(old(PageOf(out)), splitAt, continuationCol, indentDepth)
      ensures wrapIndex == |out.displayLines| - 1 && inLeadingWs == old(inLeadingWs)
    {
      CloseDisplayLine(out, splitAt);
      breaks := breaks + [|ends|];
      wrapIndex := wrapIndex + 1;
      lineStart := splitAt;
      currentDisplayCol := Carry(splitAt, indentDepth, out);
      lastWs := splitAt;
      out.displayLines := out.displayLines + [DisplayLine(Wrapped(wrapIndex), lineStart, 0)];
    }

    /** Renumbers the cells from `splitAt` on for a continuation display line; the column after them. */
    method Carry(splitAt: nat, indentDepth: nat, out: LineFormat) returns (newDisplayCol: nat)
      requires splitAt <= |out.cells|
      modifies out`cells
      ensures out.cells == Renumbered(old(out.cells), splitAt, |old(out.cells)|, continuationCol, indentDepth)
      ensures newDisplayCol == Sat(continuationCol + Sum(old(out.cells), splitAt, |old(out.cells)|))
    {
      newDisplayCol := continuationCol;
      ghost var cells := out.cells;
      for i := splitAt to |out.cells|
        invariant |out.cells| == |cells| && out.cells == Renumbered(cells, splitAt, i, continuationCol, indentDepth)
        invariant newDisplayCol == Sat(continuationCol + Sum(cells, splitAt, i))
      {
        RenumberedAt(cells, splitAt, i, continuationCol, indentDepth, i);
        SatAdd(continuationCol + Sum(cells, splitAt, i), cells[i].width);
        var c := out.cells[i];
        out.cells := out.cells[i := c.(displayCol := newDisplayCol, indentDepth := indentDepth)];
        newDisplayCol := Sat(newDisplayCol + c.width);
      }
    }

    method CloseDisplayLine(out: LineFormat, splitAt: nat)
      requires out.displayLines != []
      modifies out`displayLines
      ensures out.displayLines == old(out.displayLines)[|old(out.displayLines)| - 1 :=
                DisplayLine(old(out.displayLines)[|old(out.displayLines)| - 1].kind, lineStart, splitAt)]
    {
      var last := |out.displayLines| - 1;
      out.displayLines := out.displayLines[last := DisplayLine(out.displayLines[last].kind, lineStart, splitAt)];
    }

    /** Puts one cell where the display line stands. */
    method Put(item: nat, width: nat, indentDepth: nat, tail: bool, out: LineFormat)
      requires MidItem(PageOf(out), continuationCol) && wrapIndex == |out.displayLines| - 1
      modifies this, out
      ensures MidItem(PageOf(out), continuationCol) && wrapIndex == old(wrapIndex) && inLeadingWs == old(inLeadingWs)
      ensures PageOf(out) == PushedCell(old(PageOf(out)), Cell(item, old(currentDisplayCol), width, indentDepth, tail))
    {
      var c := Cell(item, currentDisplayCol, width, indentDepth, tail);
      PushCell(PageOf(out), c, continuationCol);
      out.cells := out.cells + [c];
      currentDisplayCol := Sat(currentDisplayCol + width);
    }

    /** Notes that an item ends here. */
    ghost method End(out: LineFormat)
      requires MidItem(PageOf(out), continuationCol) && wrapIndex == |out.displayLines| - 1
      modifies `ends
      ensures Valid(out) && ends == old(ends) + [|out.cells|]
    {
      EndItem(PageOf(out), continuationCol);
      ends := ends + [|out.cells|];
    }

    /** Ends a cluster's cells, noting whether it is whitespace. */
    method EndCluster(isWs: bool, out: LineFormat)
      requires MidItem(PageOf(out), continuationCol) && wrapIndex == |out.displayLines| - 1
      modifies `ends, `inLeadingWs, `lastWs
      ensures Valid(out) && inLeadingWs == (old(inLeadingWs) && isWs)
      ensures PageOf(out) == Noted(old(PageOf(out)), isWs && !inLeadingWs)
    {
      End(out);
      NoteLaid(PageOf(out), continuationCol);
      NoteWs(isWs, |out.cells|);
    }

    /** One cluster: wrapped for, put with its second cell, and noted as whitespace or not. A tab is measured
        again where it lands. */
    method EmitCluster(j: nat, item: Item, tabWidth: nat, indentDepth: nat, out: LineFormat)
      requires Valid(out) && item.Cluster?
      modifies this, out
      ensures Valid(out) && ends == old(ends) + [|out.cells|]
      ensures ItemCells(out.cells, |old(out.cells)|, |out.cells|, j, item, tabWidth)
      ensures SameContent(old(out.cells), out.cells, |old(out.cells)|)
      ensures inLeadingWs == (old(inLeadingWs) && item.ws)
      ensures Puts(old(PageOf(out)), PageOf(out), item, RuleFor(tabWidth), indentDepth, inLeadingWs)
      ensures DeepFrom(out.cells, |old(out.cells)|, indentDepth)
      ensures item.width == 1 && !item.tab && wrapWidth.Some? ==>
                var q := UnitNext(old(PageOf(out)), j, wrapWidth.value, wordBreak, continuationCol, indentDepth,
                    indentDepth);
                PageOf(out) == q.(ends := q.ends + [|q.cells|],
                                  lastWs := if item.ws && !inLeadingWs then |q.cells| else q.lastWs)
    {
      var width := if item.tab then TabAdvance(currentDisplayCol, tabWidth) else item.width;
      ghost var was := PageOf(out);
      MaybeWrap(width, indentDepth, out);
      if item.tab { width := TabAdvance(currentDisplayCol, tabWidth); }
      ghost var ready := PageOf(out);
      PutCluster(j, width, indentDepth, out);
      ClusterCells(was.cells, ready.cells, out.cells, j, item, width, ready.current, tabWidth);
      ghost var put := PageOf(out);
      EndCluster(item.ws, out);
      ClusterPuts(was, ready, put, j, item, RuleFor(tabWidth), indentDepth, inLeadingWs);
    }

    /** The empty cell a line break leaves, wrapped for like any other. */
    method EmitSentinel(j: nat, ghost tabWidth: nat, indentDepth: nat, out: LineFormat)
      requires Valid(out)
      modifies this, out
      ensures Valid(out) && ends == old(ends) + [|out.cells|] && inLeadingWs == old(inLeadingWs)
      ensures ItemCells(out.cells, |old(out.cells)|, |out.cells|, j, SENTINEL, tabWidth)
      ensures SameContent(old(out.cells), out.cells, |old(out.cells)|)
      ensures Puts(old(PageOf(out)), PageOf(out), SENTINEL, RuleFor(tabWidth), indentDepth, false)
      ensures DeepFrom(out.cells, |old(out.cells)|, 0)
      ensures wrapWidth.Some? ==>
                var q := UnitNext(old(PageOf(out)), j, wrapWidth.value, wordBreak, continuationCol, indentDepth, 0);
                PageOf(out) == q.(ends := q.ends + [|q.cells|])
    {
      MaybeWrap(1, indentDepth, out);
      ghost var cells, col := out.cells, currentDisplayCol;
      PutCluster(j, 1, 0, out);
      ClusterCells(old(out.cells), cells, out.cells, j, SENTINEL, 1, col, tabWidth);
      End(out);
    }

    /** A cluster's cell, and its empty second one when it is two columns wide. */
    method PutCluster(j: nat, width: nat, indentDepth: nat, out: LineFormat)
      requires Valid(out)
      modifies this, out
      ensures MidItem(PageOf(out), continuationCol) && wrapIndex == |out.displayLines| - 1
              && inLeadingWs == old(inLeadingWs)
      ensures DeepFrom(out.cells, |old(out.cells)|, indentDepth)
      ensures SameLines(old(PageOf(out)), PageOf(out)) && ClusterPut(old(out.cells), out.cells, j, width,
              old(currentDisplayCol))
      ensures width == 1 ==> PageOf(out) == PushedCell(old(PageOf(out)),
              Cell(j, old(currentDisplayCol), 1, indentDepth, false))
    {
      Put(j, width, indentDepth, false, out);
      if width == 2 { Put(j, 0, indentDepth, true, out); }
    }

    /** Inline text: wrapped for as one, its cells put together. */
    method EmitInline(j: nat, widths: seq<nat>, ghost tabWidth: nat, indentDepth: nat, out: LineFormat)
      requires Valid(out) && (widths != [] ==> Total(widths) > 0)
      modifies this, out
      ensures Valid(out) && ends == old(ends) + [|out.cells|] && inLeadingWs == old(inLeadingWs)
      ensures ItemCells(out.cells, |old(out.cells)|, |out.cells|, j, InlineText(widths), tabWidth)
      ensures SameContent(old(out.cells), out.cells, |old(out.cells)|)
      ensures Puts(old(PageOf(out)), PageOf(out), InlineText(widths), RuleFor(tabWidth), indentDepth, inLeadingWs)
      ensures DeepFrom(out.cells, |old(out.cells)|, indentDepth)
    {
      var total := if Total(widths) <= MAX_INSERT_WIDTH then Total(widths) else MAX_INSERT_WIDTH;
      ghost var was := PageOf(out);
      if wrapWidth.Some? && total > 0 { MaybeWrap(total, indentDepth, out); }
      ghost var ready := PageOf(out);
      PutText(j, widths, indentDepth, out);
      ghost var put := PageOf(out);
      End(out);
      TextPuts(was, ready, put, widths, RuleFor(tabWidth), indentDepth, inLeadingWs);
    }

    method PutText(j: nat, widths: seq<nat>, indentDepth: nat, out: LineFormat)
      requires Valid(out)
      modifies this, out
      ensures MidItem(PageOf(out), continuationCol) && wrapIndex == |out.displayLines| - 1
              && inLeadingWs == old(inLeadingWs) && SameLines(old(PageOf(out)), PageOf(out))
      ensures |out.cells| == |old(out.cells)| + |widths| && old(out.cells) <= out.cells
      ensures TextCells(out.cells, |old(out.cells)|, |out.cells|, j, widths)
      ensures DeepFrom(out.cells, |old(out.cells)|, indentDepth)
    {
      ghost var cells := out.cells;
      for i := 0 to |widths|
        invariant MidItem(PageOf(out), continuationCol) && wrapIndex == |out.displayLines| - 1
                  && inLeadingWs == old(inLeadingWs) && SameLines(old(PageOf(out)), PageOf(out))
        invariant |out.cells| == |cells| + i && cells <= out.cells
        invariant TextCells(out.cells, |cells|, |cells| + i, j, widths) && DeepFrom(out.cells, |cells|, indentDepth)
      {
        Put(j, widths[i], indentDepth, false, out);
      }
    }
  }

  ghost predicate ClusterPut(cells: seq<Cell>, more: seq<Cell>, j: nat, width: nat, col: nat) {
    && |more| == |cells| + (if width == 2 then 2 else 1) && (forall i :: 0 <= i < |cells| ==> more[i] == cells[i])
    && more[|cells|].item == j && more[|cells|].width == width && !more[|cells|].tail
    && more[|cells|].displayCol == col
    && (width == 2 ==> more[|cells| + 1].item == j && more[|cells| + 1].width == 0 && more[|cells| + 1].tail)
  }

  lemma ClusterCells(was: seq<Cell>, cells: seq<Cell>, more: seq<Cell>, j: nat, item: Item, width: nat, col: nat,
                     tabWidth: nat)
    requires item.Cluster? && |was| == |cells| && SameContent(was, cells, |was|)
             && ClusterPut(cells, more, j, width, col)
    requires if item.tab then 1 <= width <= (if tabWidth < 1 then 1 else tabWidth) else width == item.width
    ensures ItemCells(more, |was|, |more|, j, item, tabWidth) && SameContent(was, more, |was|)
  {
  }

  /** The page with an item ended, and a space after the leading ones noted. */
  function Noted(p: Page, noted: bool): Page {
    p.(ends := p.ends + [|p.cells|], lastWs := if noted then |p.cells| else p.lastWs)
  }

  lemma ClusterPuts(was: Page, ready: Page, put: Page, j: nat, item: Item, rule: Rule, indentDepth: nat, leading: bool)
    requires item.Cluster? && Laid(was, rule.continuation)
    requires ready == WrapFor(was, rule.wrapWidth, rule.wordBreak, ItemWidth(item, was.current, rule.tabWidth),
             rule.continuation, indentDepth)
    requires SameLines(ready, put)
             && ClusterPut(ready.cells, put.cells, j, ItemWidth(item, ready.current, rule.tabWidth), ready.current)
    ensures Puts(was, Noted(put, item.ws && !leading), item, rule, indentDepth, leading)
  {
    WrapForLaid(was, rule.wrapWidth, rule.wordBreak, ItemWidth(item, was.current, rule.tabWidth), rule.continuation,
                indentDepth);
    assert ready == Ready(was, item, rule, indentDepth);
  }

  lemma TextPuts(was: Page, ready: Page, put: Page, widths: seq<nat>, rule: Rule, indentDepth: nat, leading: bool)
    requires Laid(was, rule.continuation)
    requires ready == Ready(was, InlineText(widths), rule, indentDepth)
    requires SameLines(ready, put) && ready.cells <= put.cells
    ensures Puts(was, Noted(put, false), InlineText(widths), rule, indentDepth, leading)
  {
    WrapForLaid(was, rule.wrapWidth, rule.wordBreak, ItemWidth(InlineText(widths), was.current, rule.tabWidth),
                rule.continuation, indentDepth);
  }

  lemma NoteLaid(p: Page, continuation: nat)
    requires Laid(p, continuation) && Boundary(p.ends, |p.cells|)
    ensures Laid(p.(lastWs := |p.cells|), continuation)
  {
    var q := p.(lastWs := |p.cells|);
    forall k | 0 <= k < |q.lines| ensures LineOk(q, k, continuation) {
      assert LineOk(p, k, continuation);
    }
  }

  /** The widths of the items, as the width tables give them: no cluster and no inline text measures zero. */
  predicate Measured(items: seq<Item>) {
    forall i :: 0 <= i < |items| ==>
      match items[i]
      case Cluster(width, _, _, _) => 1 <= width <= 255
      case InlineText(widths) => widths != [] ==> Total(widths) > 0
  }

  ghost function RuleOf(mode: WrapMode, continuation: nat, tabWidth: nat): Rule {
    Rule(WrapWidth(mode), BreaksAtWord(mode), continuation, tabWidth)
  }

  /** What the format of a line promises: display lines over consecutive cells, every item's cells once and in
      order, a new display line for exactly the items that do not fit, and for single-column lines the wrap column
      kept, except when the first wrap splits the indent. */
  ghost predicate Formatted(page: Page, all: seq<Item>, mode: WrapMode, tabWidth: nat, continuation: nat) {
    && Laid(page, continuation)
    && Emitted(page.cells, page.ends, all, tabWidth) && |page.ends| == |all| && Begin(page.ends, |all|) == |page.cells|
    && Broken(page, all, RuleOf(mode, continuation, tabWidth)) && TabsStand(page, all, tabWidth)
    && (UnitLine(all) && !mode.NoWrap? && continuation < mode.width <= U16_MAX ==>
          (WithinWrap(page.cells, mode.width) <==>
             !(|all| > mode.width && BreaksInIndent(all, mode.width, continuation, BreaksAtWord(mode)))))
  }

  /** The loop's state after `n` items. */
  ghost predicate Formatting(p: Page, all: seq<Item>, n: nat, mode: WrapMode, tabWidth: nat, continuation: nat,
                             inLeadingWs: bool) {
    && Emitted(p.cells, p.ends, all, tabWidth) && |p.ends| == n && Begin(p.ends, n) == |p.cells|
    && Breaking(p, all, n, RuleOf(mode, continuation, tabWidth), inLeadingWs) && TabsStand(p, all, tabWidth)
    && (UnitLine(all) && !mode.NoWrap? && continuation < mode.width <= U16_MAX ==>
          UnitPage(p, all, n, mode.width, continuation, BreaksAtWord(mode)) && inLeadingWs == AllWs(all, n))
  }

  lemma FormattingStart(all: seq<Item>, mode: WrapMode, tabWidth: nat, continuation: nat)
    ensures Formatting(Page([DisplayLine(LineStart, 0, 0)], [], 0, 0, 0, [], []), all, 0, mode, tabWidth, continuation,
            true)
  {
  }

  /** The page after a unit cluster, as the state notes it. */
  ghost predicate UnitNoted(p: Page, q: Page, all: seq<Item>, n: nat, mode: WrapMode, continuation: nat, was: bool,
                            now: bool,
                            indentDepth: nat, cellDepth: nat)
    requires p.lines != [] && p.lastWs <= |p.cells| && n < |all| && all[n].Cluster? && !mode.NoWrap?
  {
    var put := UnitNext(p, n, mode.width, BreaksAtWord(mode), continuation, indentDepth, cellDepth);
    && now == (was && all[n].ws)
    && q == put.(ends := put.ends + [|put.cells|], lastWs := if all[n].ws && !now then |put.cells| else put.lastWs)
  }

  lemma FormattingMore(p: Page, q: Page, all: seq<Item>, n: nat, mode: WrapMode, tabWidth: nat, continuation: nat,
                       was: bool, now: bool,
                       indentDepth: nat, cellDepth: nat)
    requires Laid(p, continuation) && Formatting(p, all, n, mode, tabWidth, continuation, was) && n < |all|
    requires q.ends == p.ends + [|q.cells|] && SameContent(p.cells, q.cells, |p.cells|)
    requires ItemCells(q.cells, |p.cells|, |q.cells|, n, all[n], tabWidth)
    requires Puts(p, q, all[n], RuleOf(mode, continuation, tabWidth), indentDepth, now)
    requires now == (was && (all[n].Cluster? ==> all[n].ws))
    requires UnitLine(all) && !mode.NoWrap? ==> UnitNoted(p, q, all, n, mode, continuation, was, now, indentDepth,
             cellDepth)
    ensures Formatting(q, all, n + 1, mode, tabWidth, continuation, now)
  {
    EmittedKept(p.cells, q.cells, p.ends, all, tabWidth);
    EmittedMore(q.cells, p.ends, all, tabWidth, q.ends);
    BreakingMore(p, q, all, n, RuleOf(mode, continuation, tabWidth), indentDepth, was, now);
    TabsMore(p, q, all, n, RuleOf(mode, continuation, tabWidth), indentDepth, was, now);
    if UnitLine(all) && !mode.NoWrap? && continuation < mode.width <= U16_MAX {
      UnitNotedPage(p, q, all, n, mode, continuation, was, now, indentDepth, cellDepth);
    }
  }

  lemma UnitNotedPage(p: Page, q: Page, all: seq<Item>, n: nat, mode: WrapMode, continuation: nat, was: bool,
                      now: bool, indentDepth: nat, cellDepth: nat)
    requires Laid(p, continuation) && n < |all| && UnitLine(all) && !mode.NoWrap?
             && continuation < mode.width <= U16_MAX
    requires UnitPage(p, all, n, mode.width, continuation, BreaksAtWord(mode)) && was == AllWs(all, n)
    requires UnitNoted(p, q, all, n, mode, continuation, was, now, indentDepth, cellDepth)
    ensures UnitPage(q, all, n + 1, mode.width, continuation, BreaksAtWord(mode)) && now == AllWs(all, n + 1)
  {
    UnitMore(p, all, n, mode.width, continuation, BreaksAtWord(mode), indentDepth, cellDepth);
    assert IsWs(all, n) == all[n].ws;
    assert q == UnitAfter(p, all, n, mode.width, BreaksAtWord(mode), continuation, indentDepth, cellDepth);
  }

  lemma FormattingDone(p: Page, all: seq<Item>, mode: WrapMode, tabWidth: nat, continuation: nat, inLeadingWs: bool)
    requires Laid(p, continuation) && Formatting(p, all, |all|, mode, tabWidth, continuation, inLeadingWs)
    ensures Formatted(p, all, mode, tabWidth, continuation)
  {
    if UnitLine(all) && !mode.NoWrap? && continuation < mode.width <= U16_MAX && |all| > mode.width
       && BreaksInIndent(all, mode.width, continuation, BreaksAtWord(mode)) {
      assert p.cells[mode.width].displayCol + p.cells[mode.width].width > mode.width;
    }
  }

  /** A single-column line whose indent is all spaces keeps every cell and its end within the wrap column. */
  lemma SpacesFit(page: Page, items: seq<Item>, mode: WrapMode, tabWidth: nat, hadNewline: bool)
    requires Formatted(page, WithSentinel(items, hadNewline), mode, tabWidth, Continuation(mode, items, tabWidth))
    requires UnitLine(items) && AllWs(items, LeadingBlanks(items))
    requires !mode.NoWrap? && Continuation(mode, items, tabWidth) < mode.width <= U16_MAX
    ensures WithinWrap(page.cells, mode.width)
  {
    var all, continuation := WithSentinel(items, hadNewline), Continuation(mode, items, tabWidth);
    assert UnitLine(all);
    UnitContinuation(mode, items, tabWidth);
    forall i | 0 <= i < continuation ensures IsWs(all, i) { assert IsWs(items, i) && all[i] == items[i]; }
    SpacesKeepIndent(all, continuation, mode.width);
  }

  /** Formats one line into display lines, wrapping as the mode says. */
  method FormatBufferLine(items: seq<Item>, mode: WrapMode, tabWidth: nat, hadNewline: bool, out: LineFormat)
      returns (ghost page: Page)
    requires Measured(items) && tabWidth <= 255 && out.displayLines == [] && out.cells == []
    modifies out
    ensures page.lines != [] && out.displayLines == Closed(page) && out.cells == page.cells
    ensures Formatted(page, WithSentinel(items, hadNewline), mode, tabWidth, Continuation(mode, items, tabWidth))
    ensures Depths(page.cells, |items|, IndentDepth(items, tabWidth))
  {
    ghost var all := WithSentinel(items, hadNewline);
    var indentDepth := IndentDepth(items, tabWidth);
    var continuation := Continuation(mode, items, tabWidth);
    ContinuationBound(indentDepth, tabWidth);
    var state := Start(all, mode, tabWidth, continuation, out);
    ghost var leading := FormatAll(state, items, hadNewline, all, mode, tabWidth, indentDepth, out);
    page := FormatEnd(state, all, mode, tabWidth, leading, out);
  }

  method Start(ghost all: seq<Item>, mode: WrapMode, ghost tabWidth: nat, continuation: Column, out: LineFormat)
      returns (state: WrapState)
    requires out.displayLines == [] && out.cells == []
    modifies out
    ensures fresh(state) && state.continuationCol == continuation && out.cells == []
    ensures Underway(state, out, all, 0, mode, tabWidth, state.inLeadingWs)
  {
    state := new WrapState(mode, continuation, out);
    FormattingStart(all, mode, tabWidth, continuation);
  }

  /** The items, then the break: every cell is noted with the line's indent but the break's own, with none. */
  method FormatAll(state: WrapState, items: seq<Item>, hadNewline: bool, ghost all: seq<Item>, ghost mode: WrapMode,
                   tabWidth: nat, indentDepth: nat, out: LineFormat)
      returns (ghost leading: bool)
    requires Underway(state, out, all, 0, mode, tabWidth, state.inLeadingWs) && Measured(items) && out.cells == []
    requires all == WithSentinel(items, hadNewline)
    modifies state, out
    ensures Underway(state, out, all, |all|, mode, tabWidth, leading) && Depths(out.cells, |items|, indentDepth)
  {
    FormatItems(state, items, all, mode, tabWidth, indentDepth, out);
    leading := state.inLeadingWs;
    if hadNewline {
      leading := FormatBreak(state, |items|, all, mode, tabWidth, indentDepth, out);
      DepthsOfLine(out.cells, |items|, indentDepth);
    }
  }

  ghost predicate Depths(cells: seq<Cell>, count: nat, depth: nat) {
    forall i :: 0 <= i < |cells| ==> cells[i].indentDepth == if cells[i].item < count then depth else 0
  }

  lemma DepthsOfLine(cells: seq<Cell>, count: nat, depth: nat)
    requires cells != [] && Indented(cells[..|cells| - 1], count, depth)
    requires cells[|cells| - 1].item == count && cells[|cells| - 1].indentDepth == 0
    ensures Depths(cells, count, depth)
  {
    forall i | 0 <= i < |cells| ensures cells[i].indentDepth == if cells[i].item < count then depth else 0 {
      if i < |cells| - 1 { assert cells[i] == cells[..|cells| - 1][i]; }
    }
  }

  method FormatItems(state: WrapState, items: seq<Item>, ghost all: seq<Item>, ghost mode: WrapMode, tabWidth: nat,
                     indentDepth: nat, out: LineFormat)
    requires Underway(state, out, all, 0, mode, tabWidth, state.inLeadingWs) && items <= all && Measured(items)
    requires out.cells == []
    modifies state, out
    ensures Underway(state, out, all, |items|, mode, tabWidth, state.inLeadingWs)
    ensures Indented(out.cells, |items|, indentDepth)
  {
    for j := 0 to |items|
      invariant Underway(state, out, all, j, mode, tabWidth, state.inLeadingWs)
      invariant Indented(out.cells, |items|, indentDepth)
    {
      FormatItem(state, j, items[j], all, mode, tabWidth, indentDepth, |items|, out);
    }
  }

  method FormatEnd(state: WrapState, ghost all: seq<Item>, ghost mode: WrapMode, ghost tabWidth: nat,
                   ghost leading: bool, out: LineFormat)
      returns (ghost page: Page)
    requires Underway(state, out, all, |all|, mode, tabWidth, leading)
    modifies out
    ensures page.lines != [] && out.displayLines == Closed(page) && out.cells == page.cells == old(out.cells)
    ensures Formatted(page, all, mode, tabWidth, state.continuationCol)
  {
    page := state.PageOf(out);
    FormattingDone(page, all, mode, tabWidth, state.continuationCol, leading);
    state.CloseDisplayLine(out, |out.cells|);
  }

  ghost predicate Underway(state: WrapState, out: LineFormat, all: seq<Item>, n: nat, mode: WrapMode, tabWidth: nat,
                           leading: bool)
    reads state, out
  {
    && state.Valid(out) && state.wrapWidth == WrapWidth(mode) && state.wordBreak == BreaksAtWord(mode)
    && Formatting(state.PageOf(out), all, n, mode, tabWidth, state.continuationCol, leading)
  }

  method FormatItem(state: WrapState, j: nat, item: Item, ghost all: seq<Item>, ghost mode: WrapMode, tabWidth: nat,
                    indentDepth: nat, ghost count: nat, out: LineFormat)
    requires Underway(state, out, all, j, mode, tabWidth, state.inLeadingWs) && j < |all| && item == all[j]
    requires item.InlineText? && item.widths != [] ==> Total(item.widths) > 0
    requires Indented(out.cells, count, indentDepth) && j < count
    modifies state, out
    ensures Underway(state, out, all, j + 1, mode, tabWidth, state.inLeadingWs)
    ensures Indented(out.cells, count, indentDepth)
  {
    ghost var was, leading := state.PageOf(out), state.inLeadingWs;
    match item {
      case Cluster(_, _, _, _) => state.EmitCluster(j, item, tabWidth, indentDepth, out);
      case InlineText(widths) => state.EmitInline(j, widths, tabWidth, indentDepth, out);
    }
    FormattingMore(was, state.PageOf(out), all, j, mode, tabWidth, state.continuationCol, leading, state.inLeadingWs,
                   indentDepth, indentDepth);
    ItemIndented(was, state.PageOf(out), item, state.RuleFor(tabWidth), indentDepth, state.inLeadingWs, count, j);
  }

  method FormatBreak(state: WrapState, j: nat, ghost all: seq<Item>, ghost mode: WrapMode, ghost tabWidth: nat,
                     indentDepth: nat,
                     out: LineFormat) returns (ghost leading: bool)
    requires Underway(state, out, all, j, mode, tabWidth, state.inLeadingWs) && j < |all| && all[j] == SENTINEL
    requires Indented(out.cells, j, indentDepth)
    modifies state, out
    ensures Underway(state, out, all, j + 1, mode, tabWidth, leading)
    ensures out.cells != [] && Indented(out.cells[..|out.cells| - 1], j, indentDepth)
    ensures out.cells[|out.cells| - 1].item == j && out.cells[|out.cells| - 1].indentDepth == 0
  {
    ghost var was := state.PageOf(out);
    leading := false;
    ghost var before := state.inLeadingWs;
    state.EmitSentinel(j, tabWidth, indentDepth, out);
    FormattingMore(was, state.PageOf(out), all, j, mode, tabWidth, state.continuationCol, before, leading,
        indentDepth, 0);
    PutsIndented(was, state.PageOf(out), SENTINEL, state.RuleFor(tabWidth), indentDepth, false, j);
    assert |out.cells| == |was.cells| + 1;
  }

  lemma ContinuationBound(depth: nat, tabWidth: nat)
    requires depth <= 255 && tabWidth <= 255
    ensures depth * (if tabWidth < 1 then 1 else tabWidth) <= 65025
  {
    var tw := if tabWidth < 1 then 1 else tabWidth;
    assert depth * tw <= 255 * tw <= 255 * 255;
  }

  /** In the word modes a display line ends right after the last space on it, if it has one behind the indent: no
      word that could be kept whole is split. Else, and in soft mode, it ends right before the item that did not
      fit. */
  lemma BreaksAtSpaces(page: Page, all: seq<Item>, mode: WrapMode, tabWidth: nat, continuation: nat, k: nat)
    requires Formatted(page, all, mode, tabWidth, continuation) && k < |page.breaks|
    ensures SpaceBroken(page, all, k, mode.Word? || mode.Indent?)
  {
    assert BreakOk(page, all, RuleOf(mode, continuation, tabWidth), k);
    var m := page.breaks[k];
    LastSpace(all, page.ends, m);
    forall s | 0 <= s < m && IsSpace(all, s) ensures page.ends[s] <= SpaceEnd(all, page.ends, m) {
      SpacesUpTo(page.cells, all, page.ends, tabWidth, m, s);
    }
  }

  /** The display lines follow one another from the first cell to the last, split only where items end, each
      cell standing where the cells before it on its line end. */
  lemma LinesConsecutive(page: Page, all: seq<Item>, mode: WrapMode, tabWidth: nat, continuation: nat, k: nat)
    requires Formatted(page, all, mode, tabWidth, continuation) && k < |page.lines|
    ensures var lines := Closed(page);
            && lines[0].from == 0 && lines[|lines| - 1].end == |page.cells|
            && lines[k].from <= lines[k].end <= |page.cells| && (k + 1 < |lines| ==> lines[k].end == lines[k + 1].from)
            && Boundary(page.ends, lines[k].from) && lines[k].kind == (if k == 0 then LineStart else Wrapped(k))
            && ColumnsFrom(page.cells, lines[k].from, lines[k].end, StartCol(k, continuation))
  {
    assert LineOk(page, k, continuation);
    if k + 1 < |page.lines| {
      assert LineOk(page, k + 1, continuation);
      LinesAscend(page, k + 1, continuation);
    }
  }
}
