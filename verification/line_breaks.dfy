/** Where display lines break: an item that does not fit starts one, at the last space before it when words are kept
    whole, and nothing else does. */
module LineBreaks {
  import opened Wrappers
  import opened Integers
  import opened LineWrap

  /** How a line is wrapped. */
  datatype Rule = Rule(wrapWidth: Option<nat>, wordBreak: bool, continuation: nat, tabWidth: nat)

  /** The columns an item is measured at when it comes to stand at `col`. */
  function ItemWidth(item: Item, col: nat, tabWidth: nat): nat {
    match item
    case Cluster(width, tab, _, _) => if tab then TabAdvance(col, tabWidth) else width
    case InlineText(widths) => if Total(widths) <= MAX_INSERT_WIDTH then Total(widths) else MAX_INSERT_WIDTH
  }

  /** The item does not fit at `col`; what starts a line always does, and so does empty text. */
  predicate Overruns(item: Item, col: nat, rule: Rule) {
    && rule.wrapWidth.Some? && col != 0 && (item.InlineText? ==> ItemWidth(item, col, rule.tabWidth) > 0)
    && Sat(col + ItemWidth(item, col, rule.tabWidth)) > rule.wrapWidth.value
  }

  /** No cluster of the first `n` items but spaces. */
  predicate Leading(items: seq<Item>, n: nat) {
    forall i :: 0 <= i < n && i < |items| && items[i].Cluster? ==> items[i].ws
  }

  /** Where the last space of the first `n` items ends, the leading ones aside; 0 when there is none. */
  function SpaceEnd(items: seq<Item>, ends: seq<nat>, n: nat): nat
    requires n <= |items| && n <= |ends|
  {
    if n == 0 then 0
    else if items[n - 1].Cluster? && items[n - 1].ws && !Leading(items, n) then ends[n - 1]
    else SpaceEnd(items, ends, n - 1)
  }

  /** The column after what display line `k` holds before item `j`. */
  function ColumnAt(p: Page, k: nat, j: nat, continuation: nat): nat
    requires k < |p.lines| && j <= |p.ends| && Begin(p.ends, j) <= |p.cells|
  {
    Sat(StartCol(k, continuation) + Sum(p.cells, p.lines[k].from, Begin(p.ends, j)))
  }

  /** Display line `k` ends because of an item that did not fit on it: before that item, or at the last space. */
  ghost predicate BreakOk(p: Page, items: seq<Item>, rule: Rule, k: nat)
    requires k < |p.breaks| && k < |p.lines|
  {
    var m := p.breaks[k];
    && m < |items| && m < |p.ends| && Begin(p.ends, m) <= |p.cells|
    && Overruns(items[m], ColumnAt(p, k, m, rule.continuation), rule)
    && p.lines[k].end == SplitFor(items, p.ends, m, p.lines[k].from, rule.wordBreak)
  }

  function SplitFor(items: seq<Item>, ends: seq<nat>, m: nat, from: nat, wordBreak: bool): nat
    requires m <= |items| && m <= |ends|
  {
    if wordBreak && SpaceEnd(items, ends, m) > from then SpaceEnd(items, ends, m) else Begin(ends, m)
  }

  /** Item `j` was put on display line `k` without starting it. */
  ghost predicate PutOn(p: Page, k: nat, j: nat) {
    && k < |p.lines| && |p.breaks| + 1 == |p.lines| && j < |p.ends|
    && (k > 0 ==> p.breaks[k - 1] < j) && (k < |p.breaks| ==> j < p.breaks[k])
  }

  /** Item `j` fits on display line `k`, a cluster's cell as wide as measured there. */
  ghost predicate FitOk(p: Page, items: seq<Item>, rule: Rule, k: nat, j: nat)
    requires k < |p.lines| && j < |p.ends|
  {
    && j < |items| && Begin(p.ends, j) <= |p.cells|
    && var col := ColumnAt(p, k, j, rule.continuation);
       && !Overruns(items[j], col, rule)
       && (items[j].Cluster? ==>
             && Begin(p.ends, j) < |p.cells|
             && p.cells[Begin(p.ends, j)].width == ItemWidth(items[j], col, rule.tabWidth))
  }

  /** A display line starts with exactly the items that do not fit on the one before. */
  ghost predicate Broken(p: Page, items: seq<Item>, rule: Rule) {
    && |p.breaks| + 1 == |p.lines| && (forall i, j :: 0 <= i < j < |p.breaks| ==> p.breaks[i] < p.breaks[j])
    && (forall k {:trigger BreakOk(p, items, rule, k)} :: 0 <= k < |p.breaks| ==> BreakOk(p, items, rule, k))
    && (forall k, j {:trigger PutOn(p, k, j)} :: PutOn(p, k, j) ==> FitOk(p, items, rule, k, j))
  }

  /** The page after `n` items. */
  ghost predicate Breaking(p: Page, items: seq<Item>, n: nat, rule: Rule, leading: bool) {
    && n <= |items| && |p.ends| == n && Broken(p, items, rule) && leading == Leading(items, n)
    && p.lastWs == (if SpaceEnd(items, p.ends, n) > p.lineStart then SpaceEnd(items, p.ends, n) else p.lineStart)
  }

  /** The page before an item is put, wrapped for it where it does not fit. */
  function Ready(p: Page, item: Item, rule: Rule, indentDepth: nat): Page
    requires p.lines != [] && p.lastWs <= |p.cells|
  {
    if Overruns(item, p.current, rule) then Split(p, SplitAt(p, rule.wordBreak), rule.continuation, indentDepth) else p
  }

  /** `r` is the page `p` with one more item put: its cells after those of the page made ready for it. */
  ghost predicate Puts(p: Page, r: Page, item: Item, rule: Rule, indentDepth: nat, leading: bool)
    requires p.lines != [] && p.lastWs <= |p.cells|
  {
    var q := Ready(p, item, rule, indentDepth);
    && r.lines == q.lines && r.lineStart == q.lineStart && r.breaks == q.breaks && r.ends == p.ends + [|r.cells|]
    && |q.cells| <= |r.cells| && (forall i :: 0 <= i < |q.cells| ==> r.cells[i] == q.cells[i])
    && SameContent(p.cells, r.cells, |p.cells|)
    && r.lastWs == (if item.Cluster? && item.ws && !leading then |r.cells| else q.lastWs)
    && (item.Cluster? ==>
          && |r.cells| > |p.cells| && r.cells[|p.cells|].displayCol == q.current
          && r.cells[|p.cells|].width == ItemWidth(item, q.current, rule.tabWidth))
  }

  // ---- What one item keeps ----

  lemma {:induction false} SpaceEndKept(items: seq<Item>, ends: seq<nat>, more: seq<nat>, x: nat, n: nat)
    requires more == ends + [x] && n <= |ends| && n <= |items|
    ensures SpaceEnd(items, more, n) == SpaceEnd(items, ends, n)
  {
    if n > 0 {
      SpaceEndKept(items, ends, more, x, n - 1);
      assert more[n - 1] == ends[n - 1];
    }
  }

  /** What the earlier display lines and items look like after an item is put. */
  ghost predicate Grown(p: Page, r: Page) {
    && |p.lines| <= |r.lines| && |p.breaks| <= |r.breaks| && r.ends == p.ends + [|r.cells|]
    && SameContent(p.cells, r.cells, |p.cells|)
    && (forall k :: 0 <= k < |p.lines| ==> r.lines[k].from == p.lines[k].from)
    && (forall k :: 0 <= k < |p.breaks| ==> r.breaks[k] == p.breaks[k])
    && (forall k :: 0 <= k < |p.lines| - 1 ==> r.lines[k].end == p.lines[k].end)
  }

  lemma PutsGrow(p: Page, r: Page, item: Item, rule: Rule, indentDepth: nat, leading: bool)
    requires Laid(p, rule.continuation) && Puts(p, r, item, rule, indentDepth, leading)
    ensures Grown(p, r)
    ensures Overruns(item, p.current, rule) ==>
              && |r.lines| == |p.lines| + 1 && r.breaks == p.breaks + [|p.ends|]
              && r.lines[|p.lines| - 1].end == SplitAt(p, rule.wordBreak)
              && r.lines[|p.lines|].from == r.lineStart == SplitAt(p, rule.wordBreak)
    ensures !Overruns(item, p.current, rule) ==>
              r.lines == p.lines && r.breaks == p.breaks && r.lineStart == p.lineStart
  {
  }

  lemma ColumnKeptAt(p: Page, r: Page, k: nat, j: nat, continuation: nat)
    requires Grown(p, r) && k < |p.lines| && j <= |p.ends| && Begin(p.ends, j) <= |p.cells|
    ensures Begin(r.ends, j) == Begin(p.ends, j) <= |r.cells|
            && ColumnAt(r, k, j, continuation) == ColumnAt(p, k, j, continuation)
  {
    BeginKept(p.ends, r.ends, |r.cells|, j);
    SumSame(p.cells, r.cells, p.lines[k].from, Begin(p.ends, j));
  }

  lemma BreaksAre(p: Page, items: seq<Item>, rule: Rule)
    requires Broken(p, items, rule)
    ensures forall k :: 0 <= k < |p.breaks| ==> p.breaks[k] < |p.ends|
    ensures p.breaks != [] ==> rule.wrapWidth.Some?
  {
    forall k | 0 <= k < |p.breaks| ensures p.breaks[k] < |p.ends| {
      assert BreakOk(p, items, rule, k);
    }
    if p.breaks != [] { assert BreakOk(p, items, rule, 0); }
  }

  lemma BreakKept(p: Page, r: Page, items: seq<Item>, rule: Rule, k: nat)
    requires Grown(p, r) && Broken(p, items, rule) && k < |p.breaks|
    ensures BreakOk(r, items, rule, k)
  {
    assert BreakOk(p, items, rule, k);
    var m := p.breaks[k];
    ColumnKeptAt(p, r, k, m, rule.continuation);
    SpaceEndKept(items, p.ends, r.ends, |r.cells|, m);
  }

  lemma FitKept(p: Page, r: Page, items: seq<Item>, rule: Rule, k: nat, j: nat)
    requires Grown(p, r) && k < |p.lines| && j < |p.ends| && FitOk(p, items, rule, k, j)
    ensures FitOk(r, items, rule, k, j)
  {
    ColumnKeptAt(p, r, k, j, rule.continuation);
  }

  /** The open display line's column is where the next item would go. */
  lemma OpenColumn(p: Page, continuation: nat)
    requires Laid(p, continuation) && Begin(p.ends, |p.ends|) == |p.cells|
    ensures ColumnAt(p, |p.lines| - 1, |p.ends|, continuation) == p.current
  {
  }

  lemma NewBreak(p: Page, r: Page, items: seq<Item>, n: nat, rule: Rule, indentDepth: nat, leading: bool, now: bool)
    requires Laid(p, rule.continuation) && Breaking(p, items, n, rule, leading) && n < |items|
    requires Begin(p.ends, n) == |p.cells| && Puts(p, r, items[n], rule, indentDepth, now)
    requires Overruns(items[n], p.current, rule)
    ensures |r.breaks| == |p.lines| && BreakOk(r, items, rule, |p.lines| - 1)
  {
    var k := |p.lines| - 1;
    PutsGrow(p, r, items[n], rule, indentDepth, now);
    OpenColumn(p, rule.continuation);
    ColumnKeptAt(p, r, k, n, rule.continuation);
    SpaceEndKept(items, p.ends, r.ends, |r.cells|, n);
  }

  lemma NewFit(p: Page, r: Page, items: seq<Item>, n: nat, rule: Rule, indentDepth: nat, leading: bool, now: bool)
    requires Laid(p, rule.continuation) && Breaking(p, items, n, rule, leading) && n < |items|
    requires Begin(p.ends, n) == |p.cells| && Puts(p, r, items[n], rule, indentDepth, now)
    requires !Overruns(items[n], p.current, rule)
    ensures |r.lines| == |p.lines| && n < |r.ends| && FitOk(r, items, rule, |p.lines| - 1, n)
  {
    PutsGrow(p, r, items[n], rule, indentDepth, now);
    OpenColumn(p, rule.continuation);
    ColumnKeptAt(p, r, |p.lines| - 1, n, rule.continuation);
  }

  lemma BreaksAscend(p: Page, r: Page, items: seq<Item>, rule: Rule)
    requires Broken(p, items, rule) && (r.breaks == p.breaks || r.breaks == p.breaks + [|p.ends|])
    ensures forall i, j :: 0 <= i < j < |r.breaks| ==> r.breaks[i] < r.breaks[j]
  {
    forall i, j | 0 <= i < j < |r.breaks| ensures r.breaks[i] < r.breaks[j] {
      assert BreakOk(p, items, rule, i);
    }
  }

  lemma AllBreaksOk(p: Page, r: Page, items: seq<Item>, n: nat, rule: Rule, indentDepth: nat, leading: bool, now: bool)
    requires Laid(p, rule.continuation) && Breaking(p, items, n, rule, leading) && n < |items|
    requires Begin(p.ends, n) == |p.cells| && Puts(p, r, items[n], rule, indentDepth, now)
    ensures |r.breaks| + 1 == |r.lines|
    ensures forall k {:trigger BreakOk(r, items, rule, k)} :: 0 <= k < |r.breaks| ==> BreakOk(r, items, rule, k)
  {
    PutsGrow(p, r, items[n], rule, indentDepth, now);
    forall k | 0 <= k < |r.breaks| ensures BreakOk(r, items, rule, k) {
      if k < |p.breaks| {
        BreakKept(p, r, items, rule, k);
      } else {
        NewBreak(p, r, items, n, rule, indentDepth, leading, now);
      }
    }
  }

  lemma AllFitOk(p: Page, r: Page, items: seq<Item>, n: nat, rule: Rule, indentDepth: nat, leading: bool, now: bool,
                 k: nat, j: nat)
    requires Laid(p, rule.continuation) && Breaking(p, items, n, rule, leading) && n < |items|
    requires Begin(p.ends, n) == |p.cells| && Puts(p, r, items[n], rule, indentDepth, now) && PutOn(r, k, j)
    ensures FitOk(r, items, rule, k, j)
  {
    PutsGrow(p, r, items[n], rule, indentDepth, now);
    BreaksAre(p, items, rule);
    if j < n {
      if k < |p.lines| {
        assert PutOn(p, k, j);
        FitKept(p, r, items, rule, k, j);
      }
    } else if !Overruns(items[n], p.current, rule) {
      NewFit(p, r, items, n, rule, indentDepth, leading, now);
    }
  }

  lemma SpaceNoted(p: Page, r: Page, items: seq<Item>, n: nat, rule: Rule, indentDepth: nat, leading: bool, now: bool)
    requires Laid(p, rule.continuation) && Breaking(p, items, n, rule, leading) && n < |items|
    requires Puts(p, r, items[n], rule, indentDepth, now) && now == Leading(items, n + 1)
    ensures var e := SpaceEnd(items, r.ends, n + 1);
            r.lastWs == if e > r.lineStart then e else r.lineStart
  {
    PutsGrow(p, r, items[n], rule, indentDepth, now);
    SpaceEndKept(items, p.ends, r.ends, |r.cells|, n);
    assert r.ends[n] == |r.cells|;
  }

  lemma BreakingMore(p: Page, r: Page, items: seq<Item>, n: nat, rule: Rule, indentDepth: nat, leading: bool,
                     now: bool)
    requires Laid(p, rule.continuation) && Breaking(p, items, n, rule, leading) && n < |items|
    requires Begin(p.ends, n) == |p.cells| && Puts(p, r, items[n], rule, indentDepth, now)
    requires now == Leading(items, n + 1)
    ensures Breaking(r, items, n + 1, rule, now)
  {
    PutsGrow(p, r, items[n], rule, indentDepth, now);
    BreaksAscend(p, r, items, rule);
    AllBreaksOk(p, r, items, n, rule, indentDepth, leading, now);
    forall k, j | PutOn(r, k, j) ensures FitOk(r, items, rule, k, j) {
      AllFitOk(p, r, items, n, rule, indentDepth, leading, now, k, j);
    }
    SpaceNoted(p, r, items, n, rule, indentDepth, leading, now);
  }

  // ---- Spaces ----

  /** Item `s` is a space behind the indent. */
  ghost predicate IsSpace(items: seq<Item>, s: nat) {
    s < |items| && items[s].Cluster? && items[s].ws && exists i :: 0 <= i < s && items[i].Cluster? && !items[i].ws
  }

  /** How display line `k` ends: by words, after the last space on it if there is one, or else right before the item
      that did not fit. */
  ghost predicate SpaceBroken(p: Page, items: seq<Item>, k: nat, words: bool)
    requires k < |p.breaks|
  {
    var m := p.breaks[k];
    && k < |p.lines| && m < |p.ends|
    && (p.lines[k].end == Begin(p.ends, m)
        || (words && exists e :: 0 <= e < m && IsSpace(items, e) && p.lines[k].from < p.ends[e] == p.lines[k].end))
    && (words ==>
          forall s :: 0 <= s < m && IsSpace(items, s) && p.ends[s] > p.lines[k].from ==> p.ends[s] <= p.lines[k].end)
  }

  lemma {:induction false} LastSpace(items: seq<Item>, ends: seq<nat>, n: nat)
    requires n <= |items| && n <= |ends|
    ensures SpaceEnd(items, ends, n) == 0
            || exists e :: 0 <= e < n && IsSpace(items, e) && ends[e] == SpaceEnd(items, ends, n)
  {
    if n > 0 {
      if items[n - 1].Cluster? && items[n - 1].ws && !Leading(items, n) {
        assert IsSpace(items, n - 1);
      } else {
        LastSpace(items, ends, n - 1);
      }
    }
  }

  lemma {:induction false} SpacesUpTo(cells: seq<Cell>, items: seq<Item>, ends: seq<nat>, tabWidth: nat, n: nat, s: nat)
    requires Emitted(cells, ends, items, tabWidth) && s < n <= |ends| && n <= |items| && IsSpace(items, s)
    ensures ends[s] <= SpaceEnd(items, ends, n)
    decreases n
  {
    if items[n - 1].Cluster? && items[n - 1].ws && !Leading(items, n) {
      EndsAscend(cells, items, ends, tabWidth, s, n - 1);
    } else {
      assert s != n - 1;
      SpacesUpTo(cells, items, ends, tabWidth, n - 1, s);
    }
  }

  // ---- Tabs ----

  predicate IsTab(items: seq<Item>, j: nat) {
    j < |items| && items[j].Cluster? && items[j].tab && items[j].ws
  }

  /** Every tab is as wide as measured where it stands now: none is ever carried to another display line. */
  ghost predicate TabsStand(p: Page, items: seq<Item>, tabWidth: nat) {
    forall j {:trigger IsTab(items, j)} :: 0 <= j < |p.ends| && IsTab(items, j) ==>
      TabStands(p, j, tabWidth)
  }

  ghost predicate TabStands(p: Page, j: nat, tabWidth: nat)
    requires j < |p.ends|
  {
    var at := Begin(p.ends, j);
    at < |p.cells| && p.cells[at].width == TabAdvance(p.cells[at].displayCol, tabWidth)
  }

  lemma {:induction false} EndsAscend(cells: seq<Cell>, items: seq<Item>, ends: seq<nat>, tabWidth: nat, j: nat, k: nat)
    requires Emitted(cells, ends, items, tabWidth) && j <= k < |ends|
    ensures ends[j] <= ends[k]
    decreases k
  {
    if j < k {
      EndsAscend(cells, items, ends, tabWidth, j, k - 1);
      EmittedAt(cells, ends, items, tabWidth, k);
    }
  }

  lemma {:induction false} LeadingHasNone(items: seq<Item>, ends: seq<nat>, n: nat)
    requires n <= |items| && n <= |ends| && Leading(items, n)
    ensures SpaceEnd(items, ends, n) == 0
  {
    if n > 0 { LeadingHasNone(items, ends, n - 1); }
  }

  /** The last space lies past every one before it, the leading ones included. */
  lemma {:induction false} SpacesBefore(cells: seq<Cell>, items: seq<Item>, ends: seq<nat>, tabWidth: nat, n: nat,
                                        j: nat)
    requires Emitted(cells, ends, items, tabWidth) && j < n <= |ends| && items[j].Cluster? && items[j].ws
    requires SpaceEnd(items, ends, n) > 0
    ensures ends[j] <= SpaceEnd(items, ends, n)
    decreases n
  {
    if items[n - 1].Cluster? && items[n - 1].ws && !Leading(items, n) {
      EndsAscend(cells, items, ends, tabWidth, j, n - 1);
    } else if j < n - 1 {
      SpacesBefore(cells, items, ends, tabWidth, n - 1, j);
    } else {
      LeadingHasNone(items, ends, n - 1);
    }
  }

  lemma TabNotCarried(p: Page, items: seq<Item>, n: nat, rule: Rule, leading: bool, j: nat)
    requires Laid(p, rule.continuation) && Breaking(p, items, n, rule, leading)
    requires Emitted(p.cells, p.ends, items, rule.tabWidth) && j < n && IsTab(items, j)
    ensures Begin(p.ends, j) < SplitAt(p, rule.wordBreak) <= |p.cells|
  {
    EmittedAt(p.cells, p.ends, items, rule.tabWidth, j);
    EndsAscend(p.cells, items, p.ends, rule.tabWidth, j, n - 1);
    if rule.wordBreak && p.lastWs > p.lineStart { SpacesBefore(p.cells, items, p.ends, rule.tabWidth, n, j); }
  }

  /** What stands before the split keeps its place. */
  lemma ReadyKeeps(p: Page, item: Item, rule: Rule, indentDepth: nat, i: nat)
    requires Laid(p, rule.continuation) && i < SplitAt(p, rule.wordBreak) <= |p.cells|
    ensures var q := Ready(p, item, rule, indentDepth); |q.cells| == |p.cells| && q.cells[i] == p.cells[i]
  {
    var split := SplitAt(p, rule.wordBreak);
    RenumberedCells(p.cells, split, rule.continuation, indentDepth,
                    Renumbered(p.cells, split, |p.cells|, rule.continuation, indentDepth));
  }

  lemma OldTabStands(p: Page, r: Page, items: seq<Item>, n: nat, rule: Rule, indentDepth: nat, leading: bool, now: bool,
                     j: nat)
    requires Laid(p, rule.continuation) && Breaking(p, items, n, rule, leading) && n < |items|
    requires Emitted(p.cells, p.ends, items, rule.tabWidth) && Puts(p, r, items[n], rule, indentDepth, now)
    requires j < n && IsTab(items, j) && TabStands(p, j, rule.tabWidth)
    ensures TabStands(r, j, rule.tabWidth)
  {
    TabNotCarried(p, items, n, rule, leading, j);
    ReadyKeeps(p, items[n], rule, indentDepth, Begin(p.ends, j));
    BeginKept(p.ends, r.ends, |r.cells|, j);
  }

  lemma TabsMore(p: Page, r: Page, items: seq<Item>, n: nat, rule: Rule, indentDepth: nat, leading: bool, now: bool)
    requires Laid(p, rule.continuation) && Breaking(p, items, n, rule, leading) && n < |items|
    requires Emitted(p.cells, p.ends, items, rule.tabWidth) && Begin(p.ends, n) == |p.cells|
    requires Puts(p, r, items[n], rule, indentDepth, now) && TabsStand(p, items, rule.tabWidth)
    ensures TabsStand(r, items, rule.tabWidth)
  {
    forall j | 0 <= j < |r.ends| && IsTab(items, j) ensures TabStands(r, j, rule.tabWidth) {
      if j < n {
        OldTabStands(p, r, items, n, rule, indentDepth, leading, now, j);
      } else {
        BeginKept(p.ends, r.ends, |r.cells|, n);
      }
    }
  }

  /** A tab is at least one column wide, at most a tab width, and ends on a tab stop. */
  lemma TabsReachStops(p: Page, items: seq<Item>, tabWidth: nat, j: nat)
    requires TabsStand(p, items, tabWidth) && j < |p.ends| && IsTab(items, j)
    ensures Begin(p.ends, j) < |p.cells|
    ensures var (c, tw) := (p.cells[Begin(p.ends, j)], if tabWidth < 1 then 1 else tabWidth);
            1 <= c.width <= tw && (c.displayCol + c.width) % tw == 0
  {
    TabStop(p.cells[Begin(p.ends, j)].displayCol, tabWidth);
  }

  // ---- Indent depths ----

  /** The cells of items before `count`, each noted with the line's indent. */
  ghost predicate Indented(cells: seq<Cell>, count: nat, depth: nat) {
    forall i :: 0 <= i < |cells| ==> cells[i].item < count && cells[i].indentDepth == depth
  }

  ghost predicate DeepFrom(cells: seq<Cell>, from: nat, depth: nat) {
    forall i :: from <= i < |cells| ==> cells[i].indentDepth == depth
  }

  lemma ReadyIndented(p: Page, item: Item, rule: Rule, depth: nat, count: nat)
    requires Laid(p, rule.continuation) && Indented(p.cells, count, depth)
    ensures Indented(Ready(p, item, rule, depth).cells, count, depth)
    ensures |Ready(p, item, rule, depth).cells| == |p.cells|
  {
    var split := SplitAt(p, rule.wordBreak);
    forall i | 0 <= i < |p.cells|
      ensures var r := Renumbered(p.cells, split, |p.cells|, rule.continuation, depth);
              r[i].item < count && r[i].indentDepth == depth
    {
      RenumberedAt(p.cells, split, |p.cells|, rule.continuation, depth, i);
    }
  }

  lemma PutsIndented(p: Page, r: Page, item: Item, rule: Rule, depth: nat, leading: bool, count: nat)
    requires Laid(p, rule.continuation) && Indented(p.cells, count, depth)
    requires Puts(p, r, item, rule, depth, leading)
    ensures Indented(r.cells[..|p.cells|], count, depth)
  {
    ReadyIndented(p, item, rule, depth, count);
  }

  lemma ItemIndented(p: Page, r: Page, item: Item, rule: Rule, depth: nat, leading: bool, count: nat, j: nat)
    requires Laid(p, rule.continuation) && Indented(p.cells, count, depth) && j < count
    requires Puts(p, r, item, rule, depth, leading) && DeepFrom(r.cells, |p.cells|, depth)
    requires ItemCells(r.cells, |p.cells|, |r.cells|, j, item, rule.tabWidth)
    ensures Indented(r.cells, count, depth)
  {
    PutsIndented(p, r, item, rule, depth, leading, count);
    forall i | 0 <= i < |r.cells| ensures r.cells[i].item < count && r.cells[i].indentDepth == depth {
      if i < |p.cells| { assert r.cells[i] == r.cells[..|p.cells|][i]; }
    }
  }

  // ---- What it means ----

  /** Without a wrap column nothing breaks. */
  lemma NoWrapOneLine(p: Page, items: seq<Item>, rule: Rule)
    requires Broken(p, items, rule) && rule.wrapWidth.None?
    ensures |p.lines| == 1
  {
    BreaksAre(p, items, rule);
  }

  /** A cluster of any width, put on a display line and left there, ends within the wrap column or starts at 0. */
  lemma WidthKept(p: Page, items: seq<Item>, rule: Rule, k: nat, j: nat)
    requires Laid(p, rule.continuation) && Broken(p, items, rule) && PutOn(p, k, j) && rule.wrapWidth.Some?
    requires j < |items| && items[j].Cluster? && Begin(p.ends, j) < |p.cells| && rule.wrapWidth.value < U32_MAX
    requires p.lines[k].from <= Begin(p.ends, j)
    requires k + 1 < |p.lines| ==> Begin(p.ends, j) < p.lines[k].end
    ensures var c := p.cells[Begin(p.ends, j)];
            c.displayCol == 0 || c.displayCol + c.width <= rule.wrapWidth.value
  {
    assert LineOk(p, k, rule.continuation) && FitOk(p, items, rule, k, j);
  }
}
