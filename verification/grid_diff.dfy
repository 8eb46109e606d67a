/** The frame diff: runs of changed cells, gaps merged, and the proof that painting them turns the previous
    frame into the next. */
module GridDiff {
  import opened Wrappers
  import opened Integers
  import opened Sequences
  import opened GridRows
  import opened Grids

  // ---- One row ----

  predicate Changed(next: seq<Cell>, prev: seq<Cell>, i: nat)
    requires |next| == |prev| && i < |next|
  {
    next[i] != prev[i]
  }

  /** The first changed column of `lo..hi`. */
  function FirstChanged(next: seq<Cell>, prev: seq<Cell>, lo: nat, hi: nat): (r: Option<nat>)
    requires |next| == |prev| && hi <= |next|
    ensures r.None? ==> forall i :: lo <= i < hi ==> !Changed(next, prev, i)
    ensures r.Some? ==> lo <= r.value < hi && Changed(next, prev, r.value)
    ensures r.Some? ==> forall i :: lo <= i < r.value ==> !Changed(next, prev, i)
    decreases hi - lo
  {
    if lo >= hi then None
    else if Changed(next, prev, lo) then Some(lo)
    else FirstChanged(next, prev, lo + 1, hi)
  }

  /** How far a run that has reached `end` goes on: over changes at most `maxGap` unchanged cells apart. */
  function RunEnd(next: seq<Cell>, prev: seq<Cell>, end: nat, maxGap: nat): (e: nat)
    requires |next| == |prev| && end <= |next|
    ensures end <= e <= |next|
    ensures e > end ==> Changed(next, prev, e - 1)
    ensures forall i :: e <= i <= e + maxGap && i < |next| ==> !Changed(next, prev, i)
    decreases |next| - end
  {
    var k := FirstChanged(next, prev, end, Min(end + maxGap + 1, |next|));
    if k.None? then end else RunEnd(next, prev, k.value + 1, maxGap)
  }

  datatype Run = Run(start: nat, end: nat)

  /** The runs of a row from column `x` on. */
  function RowRuns(next: seq<Cell>, prev: seq<Cell>, x: nat, maxGap: nat): seq<Run>
    requires |next| == |prev| && x <= |next|
    decreases |next| - x
  {
    var start := FirstChanged(next, prev, x, |next|);
    if start.None? then []
    else
      var end := RunEnd(next, prev, start.value + 1, maxGap);
      [Run(start.value, end)] + RowRuns(next, prev, end, maxGap)
  }

  ghost predicate Within(r: Run, i: nat) { r.start <= i < r.end }

  ghost predicate Tight(next: seq<Cell>, prev: seq<Cell>, x: nat, r: Run)
    requires |next| == |prev|
  {
    x <= r.start < r.end <= |next| && Changed(next, prev, r.start) && Changed(next, prev, r.end - 1)
  }

  ghost predicate Holds(runs: seq<Run>, i: nat) {
    exists n :: 0 <= n < |runs| && Within(runs[n], i)
  }

  ghost predicate Apart(runs: seq<Run>, maxGap: nat) {
    forall m, n :: 0 <= m < n < |runs| ==> runs[m].end + maxGap < runs[n].start
  }

  /** Runs lie in order more than `maxGap` unchanged cells apart, start and end on changed cells, and hold
      every changed cell. */
  ghost predicate RunsOf(next: seq<Cell>, prev: seq<Cell>, x: nat, maxGap: nat, runs: seq<Run>)
    requires |next| == |prev| && x <= |next|
  {
    && (forall n :: 0 <= n < |runs| ==> Tight(next, prev, x, runs[n]))
    && Apart(runs, maxGap)
    && (forall i :: x <= i < |next| && Changed(next, prev, i) ==> Holds(runs, i))
  }

  lemma ApartCons(r: Run, rest: seq<Run>, maxGap: nat)
    requires Apart(rest, maxGap) && forall n :: 0 <= n < |rest| ==> r.end + maxGap < rest[n].start
    ensures Apart([r] + rest, maxGap)
  {
  }

  lemma HoldsCons(r: Run, rest: seq<Run>, i: nat)
    ensures Holds([r] + rest, i) <==> Within(r, i) || Holds(rest, i)
  {
    var runs := [r] + rest;
    assert runs[0] == r;
    if Holds(rest, i) {
      var n :| 0 <= n < |rest| && Within(rest[n], i);
      assert runs[n + 1] == rest[n];
    }
  }

  lemma RowRunsMeaning(next: seq<Cell>, prev: seq<Cell>, x: nat, maxGap: nat)
    requires |next| == |prev| && x <= |next|
    ensures RunsOf(next, prev, x, maxGap, RowRuns(next, prev, x, maxGap))
  {
    RunsBuilt(next, prev, x, maxGap, RowRuns(next, prev, x, maxGap));
  }

  lemma {:induction false} RunsBuilt(next: seq<Cell>, prev: seq<Cell>, x: nat, maxGap: nat, runs: seq<Run>)
    requires |next| == |prev| && x <= |next| && runs == RowRuns(next, prev, x, maxGap)
    ensures RunsOf(next, prev, x, maxGap, runs)
    decreases |next| - x
  {
    if runs != [] {
      var r, rest := RowRunsSplit(next, prev, x, maxGap, runs);
      RunsBuilt(next, prev, r.end, maxGap, rest);
      RunsOfCons(next, prev, x, maxGap, r, rest, runs);
    }
  }

  lemma RowRunsSplit(next: seq<Cell>, prev: seq<Cell>, x: nat, maxGap: nat, runs: seq<Run>)
        returns (r: Run, rest: seq<Run>)
    requires |next| == |prev| && x <= |next| && runs == RowRuns(next, prev, x, maxGap) && runs != []
    ensures runs == [r] + rest && Tight(next, prev, x, r) && rest == RowRuns(next, prev, r.end, maxGap)
    ensures forall i :: x <= i < r.start ==> !Changed(next, prev, i)
    ensures forall i :: r.end <= i <= r.end + maxGap && i < |next| ==> !Changed(next, prev, i)
  {
    r, rest := runs[0], runs[1..];
  }

  lemma RunsOfCons(next: seq<Cell>, prev: seq<Cell>, x: nat, maxGap: nat, r: Run, rest: seq<Run>, runs: seq<Run>)
    requires |next| == |prev| && x <= |next| && runs == [r] + rest && Tight(next, prev, x, r)
    requires forall i :: x <= i < r.start ==> !Changed(next, prev, i)
    requires forall i :: r.end <= i <= r.end + maxGap && i < |next| ==> !Changed(next, prev, i)
    requires RunsOf(next, prev, r.end, maxGap, rest)
    ensures RunsOf(next, prev, x, maxGap, runs)
  {
    forall n | 0 <= n < |rest| ensures r.end + maxGap < rest[n].start && Tight(next, prev, x, rest[n]) {
      assert Tight(next, prev, r.end, rest[n]);
    }
    ApartCons(r, rest, maxGap);
    forall i | x <= i < |next| && Changed(next, prev, i) ensures Holds(runs, i) {
      HoldsCons(r, rest, i);
    }
  }

  /** A changed continuation follows a changed head: the two cells carry the same style and width. */
  lemma ChangedHead(next: seq<Cell>, prev: seq<Cell>, j: nat)
    requires WellFormed(next) && WellFormed(prev) && |next| == |prev| && j < |next| && Changed(next, prev, j)
    ensures Changed(next, prev, HeadOf(next, j))
  {
    HeadFacts(next, j);
    var oldHead, oldCell := prev[HeadOf(next, j)], prev[j];
  }

  ghost predicate Narrow(row: seq<Cell>, maxGap: nat) {
    forall i :: 0 <= i < |row| ==> row[i].advance <= maxGap + 2
  }

  /** With glyphs no wider than the gap allows, no run starts inside a glyph. */
  lemma RunsStartOnHeads(next: seq<Cell>, prev: seq<Cell>, maxGap: nat, runs: seq<Run>, n: nat)
    requires WellFormed(next) && WellFormed(prev) && |next| == |prev| && Narrow(next, maxGap)
    requires RunsOf(next, prev, 0, maxGap, runs) && n < |runs|
    ensures runs[n].start < |next| && !IsContinuation(next[runs[n].start])
  {
    assert Tight(next, prev, 0, runs[n]);
    var s := runs[n].start;
    HeadFacts(next, s);
    ChangedHead(next, prev, s);
    var h := HeadOf(next, s);
    assert Holds(runs, h);
    var m :| 0 <= m < |runs| && Within(runs[m], h);
    SameRun(runs, maxGap, m, n, h);
  }

  lemma SameRun(runs: seq<Run>, maxGap: nat, m: nat, n: nat, h: nat)
    requires Apart(runs, maxGap) && m < |runs| && n < |runs| && Within(runs[m], h)
    requires runs[n].start < runs[n].end && h <= runs[n].start <= h + maxGap + 1
    ensures h == runs[n].start
  {
    assert m == n;
  }

  function OneGlyphRow(text: string, advance: nat, rest: nat): seq<Cell>
    requires advance > 0
  {
    GlyphPiece(Glyph(text, advance, DEFAULT_STYLE)) + Fill(rest, Blank(DEFAULT_STYLE))
  }

  /** The bound on widths is exact: for every gap, two well-formed rows whose one glyph is a column wider
      than allowed have a run that starts inside it. */
  lemma WiderGlyphBreaks(maxGap: nat)
    ensures var next := OneGlyphRow("a", maxGap + 3, 0);
            var prev := OneGlyphRow("b", maxGap + 2, 1);
            && WellFormed(next) && WellFormed(prev) && |next| == |prev|
            && RowRuns(next, prev, 0, maxGap) == [Run(0, 1), Run(maxGap + 2, maxGap + 3)]
            && IsContinuation(next[maxGap + 2])
  {
    var next := OneGlyphRow("a", maxGap + 3, 0);
    var prev := OneGlyphRow("b", maxGap + 2, 1);
    OneGlyphRows(maxGap);
    FirstIs(next, prev, 0, maxGap + 3, 0);
    FirstIs(next, prev, 1, maxGap + 3, maxGap + 2);
    RunsFrom(next, prev, maxGap + 2, maxGap + 3, maxGap);
    RunsFrom(next, prev, 0, 1, maxGap);
  }

  lemma OneGlyphRows(maxGap: nat)
    ensures var next := OneGlyphRow("a", maxGap + 3, 0);
            var prev := OneGlyphRow("b", maxGap + 2, 1);
            && WellFormed(next) && WellFormed(prev) && |next| == |prev| == maxGap + 3
            && (forall i :: 0 < i < maxGap + 2 ==> !Changed(next, prev, i))
            && Changed(next, prev, 0) && Changed(next, prev, maxGap + 2) && IsContinuation(next[maxGap + 2])
  {
    NormalizedTwice(DEFAULT_STYLE);
    PieceWellFormed(Glyph("a", maxGap + 3, DEFAULT_STYLE));
    PieceWellFormed(Glyph("b", maxGap + 2, DEFAULT_STYLE));
    FillWellFormed(0, Blank(DEFAULT_STYLE));
    FillWellFormed(1, Blank(DEFAULT_STYLE));
    ConcatWellFormed(GlyphPiece(Glyph("a", maxGap + 3, DEFAULT_STYLE)), Fill(0, Blank(DEFAULT_STYLE)));
    ConcatWellFormed(GlyphPiece(Glyph("b", maxGap + 2, DEFAULT_STYLE)), Fill(1, Blank(DEFAULT_STYLE)));
  }

  lemma ConcatWellFormed(a: seq<Cell>, b: seq<Cell>)
    requires WellFormed(a) && WellFormed(b)
    ensures WellFormed(a + b)
  {
    var r := a + b;
    forall x, k | 0 <= x < k < |r| && k < x + r[x].advance ensures r[k] == Continuation(r[x].style) {
      if x < |a| { assert a[k] == r[k] && a[x] == r[x]; } else { assert b[k - |a|] == r[k] && b[x - |a|] == r[x]; }
    }
    forall x, e | 0 <= x < e < |r| && e == x + r[x].advance ensures !IsContinuation(r[e]) {
      if x >= |a| { assert b[e - |a|] == r[e] && b[x - |a|] == r[x]; }
    }
  }

  /** A run known by its ends, followed by the runs after it. */
  lemma RunsFrom(next: seq<Cell>, prev: seq<Cell>, start: nat, end: nat, maxGap: nat)
    requires |next| == |prev| && start + 1 == end <= |next| && Changed(next, prev, start)
    requires forall i :: end <= i <= end + maxGap && i < |next| ==> !Changed(next, prev, i)
    ensures RowRuns(next, prev, start, maxGap) == [Run(start, end)] + RowRuns(next, prev, end, maxGap)
  {
    FirstIs(next, prev, start, |next|, start);
    assert RunEnd(next, prev, end, maxGap) == end;
  }

  lemma FirstIs(next: seq<Cell>, prev: seq<Cell>, lo: nat, hi: nat, i: nat)
    requires |next| == |prev| && hi <= |next| && lo <= i < hi
    requires Changed(next, prev, i) && forall k :: lo <= k < i ==> !Changed(next, prev, k)
    ensures FirstChanged(next, prev, lo, hi) == Some(i)
  {
  }

  // ---- Painting ----

  /** What a terminal makes of a row when a glyph is drawn at `c`, by the grid's own write rule. */
  function Draw(frame: seq<Cell>, c: nat, cell: Cell): (r: seq<Cell>)
    ensures |r| == |frame|
  {
    if c < |frame| then Written(frame, c, DrawnPiece(c, |frame|, cell.text, cell.advance, cell.style)) else frame
  }

  /** The emitter: continuations write nothing, and a head moves the cursor by its stored advance. */
  function PaintCells(frame: seq<Cell>, cursor: nat, cells: seq<Cell>): (r: seq<Cell>)
    ensures |r| == |frame|
    decreases |cells|
  {
    if cells == [] then frame
    else if IsContinuation(cells[0]) then PaintCells(frame, cursor, cells[1..])
    else PaintCells(Draw(frame, cursor, cells[0]), cursor + cells[0].advance, cells[1..])
  }

  /** The glyph of `next` at `h` already stands in the frame. */
  ghost predicate Settled(frame: seq<Cell>, next: seq<Cell>, h: nat)
    requires |frame| == |next| && h < |next|
  {
    forall k :: h <= k < h + next[h].advance && k < |next| ==> frame[k] == next[k]
  }

  ghost predicate KeepsSettled(before: seq<Cell>, after: seq<Cell>, next: seq<Cell>)
    requires |before| == |after| == |next|
  {
    forall h :: 0 <= h < |next| && !IsContinuation(next[h]) && Settled(before, next, h) ==> Settled(after, next, h)
  }

  lemma DrawnIsGlyph(next: seq<Cell>, c: nat)
    requires WellFormed(next) && c < |next| && !IsContinuation(next[c])
    ensures var piece := DrawnPiece(c, |next|, next[c].text, next[c].advance, next[c].style);
            |piece| == next[c].advance && forall k :: 0 <= k < |piece| ==> piece[k] == next[c + k]
  {
    assert Glyph(next[c].text, next[c].advance, next[c].style) == next[c];
  }

  lemma SettledStays(frame: seq<Cell>, next: seq<Cell>, c: nat, h: nat, k: nat)
    requires WellFormed(frame) && WellFormed(next) && |frame| == |next| && c < |next| && h < |next|
    requires !IsContinuation(next[c]) && !IsContinuation(next[h]) && h != c && Settled(frame, next, h)
    requires h <= k < h + next[h].advance && k < |next|
    ensures !(c <= k < c + next[c].advance) && !Cut(frame, c, next[c].advance, k)
  {
    HeadOwns(frame, h, k);
    HeadOwns(next, h, k);
    HeadOwns(next, c, k);
    HeadOwns(next, h, c);
    HeadOwns(next, c, h);
  }

  lemma DrawKeeps(frame: seq<Cell>, next: seq<Cell>, c: nat, piece: seq<Cell>, after: seq<Cell>)
    requires WellFormed(frame) && WellFormed(next) && |frame| == |next| && c < |next| && !IsContinuation(next[c])
    requires |piece| == next[c].advance && c + |piece| <= |next| && after == Written(frame, c, piece)
             && Settled(after, next, c)
    ensures KeepsSettled(frame, after, next)
  {
    forall h | 0 <= h < |next| && !IsContinuation(next[h]) && Settled(frame, next, h) ensures Settled(after, next, h) {
      forall k | h <= k < h + next[h].advance && k < |next| ensures after[k] == next[k] {
        if h != c {
          SettledStays(frame, next, c, h, k);
          assert after[k] == CellAfter(frame, c, piece, k);
        }
      }
    }
  }

  lemma DrawSettles(frame: seq<Cell>, next: seq<Cell>, c: nat, after: seq<Cell>)
    requires WellFormed(frame) && WellFormed(next) && |frame| == |next| && c < |next| && !IsContinuation(next[c])
    requires after == Draw(frame, c, next[c])
    ensures WellFormed(after) && Settled(after, next, c) && KeepsSettled(frame, after, next)
  {
    var piece := DrawnPiece(c, |next|, next[c].text, next[c].advance, next[c].style);
    DrawnIsGlyph(next, c);
    DrawnPieceWellFormed(c, |next|, next[c].text, next[c].advance, next[c].style);
    WrittenWellFormed(frame, c, piece);
    forall k | c <= k < c + next[c].advance && k < |next| ensures after[k] == next[k] {
      assert after[k] == CellAfter(frame, c, piece, k) && piece[k - c] == next[c + (k - c)];
    }
    DrawKeeps(frame, next, c, piece, after);
  }

  /** The first column from `i` on that is not a continuation. */
  function NextHead(row: seq<Cell>, i: nat): nat
    requires i <= |row|
    decreases |row| - i
  {
    if i == |row| || !IsContinuation(row[i]) then i else NextHead(row, i + 1)
  }

  lemma {:induction false} NextHeadAfter(row: seq<Cell>, i: nat, e: nat)
    requires i <= e <= |row| && (forall k :: i <= k < e ==> IsContinuation(row[k]))
             && (e < |row| ==> !IsContinuation(row[e]))
    ensures NextHead(row, i) == e
    decreases e - i
  {
    if i < e { NextHeadAfter(row, i + 1, e); }
  }

  /** Every glyph of `next` that starts in `i..e` stands in the frame. */
  ghost predicate SettledIn(frame: seq<Cell>, next: seq<Cell>, i: nat, e: nat)
    requires |frame| == |next| && e <= |next|
  {
    forall h :: i <= h < e && !IsContinuation(next[h]) ==> Settled(frame, next, h)
  }

  lemma SettledMore(frame: seq<Cell>, next: seq<Cell>, i: nat, e: nat)
    requires |frame| == |next| && i < e <= |next| && SettledIn(frame, next, i + 1, e)
    requires IsContinuation(next[i]) || Settled(frame, next, i)
    ensures SettledIn(frame, next, i, e)
  {
  }

  /** Painting a stretch of `next` settles every glyph that starts in it and unsettles none. */
  lemma {:induction false} PaintSettles(frame: seq<Cell>, next: seq<Cell>, i: nat, e: nat, cells: seq<Cell>,
                                        after: seq<Cell>)
    requires WellFormed(frame) && WellFormed(next) && |frame| == |next| && i <= e <= |next| && cells == next[i..e]
    requires after == PaintCells(frame, NextHead(next, i), cells)
    ensures WellFormed(after) && KeepsSettled(frame, after, next) && SettledIn(after, next, i, e)
    decreases e - i, 1
  {
    if i < e {
      var rest := next[i + 1..e];
      assert cells == [next[i]] + rest;
      if IsContinuation(next[i]) {
        PaintCellsContinuation(frame, NextHead(next, i), next[i], rest, cells);
        PaintSettles(frame, next, i + 1, e, rest, after);
      } else {
        PaintHeadSettles(frame, next, i, e, cells, rest, after);
      }
      SettledMore(after, next, i, e);
    }
  }

  lemma {:induction false} PaintHeadSettles(frame: seq<Cell>, next: seq<Cell>, i: nat, e: nat, cells: seq<Cell>,
                                            rest: seq<Cell>,
                                            after: seq<Cell>)
    requires WellFormed(frame) && WellFormed(next) && |frame| == |next| && i < e <= |next| && cells == [next[i]] + rest
    requires rest == next[i + 1..e] && !IsContinuation(next[i]) && after == PaintCells(frame, i, cells)
    ensures WellFormed(after) && KeepsSettled(frame, after, next) && SettledIn(after, next, i + 1, e)
            && Settled(after, next, i)
    decreases e - i, 0
  {
    var drawn := Draw(frame, i, next[i]);
    DrawSettles(frame, next, i, drawn);
    PaintedHead(frame, next, i, cells, rest, drawn);
    PaintSettles(drawn, next, i + 1, e, rest, after);
    KeepsOn(frame, drawn, after, next, i);
  }

  /** A head is drawn, and the cursor stands at the next one. */
  lemma PaintedHead(frame: seq<Cell>, next: seq<Cell>, i: nat, cells: seq<Cell>, rest: seq<Cell>, drawn: seq<Cell>)
    requires WellFormed(next) && i < |next| && cells == [next[i]] + rest && !IsContinuation(next[i])
    requires drawn == Draw(frame, i, next[i])
    ensures PaintCells(frame, i, cells) == PaintCells(drawn, NextHead(next, i + 1), rest)
  {
    HeadThenNext(next, i);
    PaintCellsHead(frame, i, next[i], rest, cells, drawn);
  }

  lemma HeadThenNext(row: seq<Cell>, i: nat)
    requires WellFormed(row) && i < |row| && !IsContinuation(row[i])
    ensures NextHead(row, i + 1) == i + row[i].advance
  {
    HeadEnds(row, i, i + row[i].advance);
    NextHeadAfter(row, i + 1, i + row[i].advance);
  }

  lemma PaintCellsContinuation(frame: seq<Cell>, cursor: nat, c: Cell, rest: seq<Cell>, cells: seq<Cell>)
    requires cells == [c] + rest && IsContinuation(c)
    ensures PaintCells(frame, cursor, cells) == PaintCells(frame, cursor, rest)
  {
    assert cells[0] == c && cells[1..] == rest;
  }

  lemma PaintCellsHead(frame: seq<Cell>, i: nat, head: Cell, rest: seq<Cell>, cells: seq<Cell>, drawn: seq<Cell>)
    requires cells == [head] + rest && !IsContinuation(head) && drawn == Draw(frame, i, head)
    ensures PaintCells(frame, i, cells) == PaintCells(drawn, i + head.advance, rest)
  {
    assert cells[0] == head && cells[1..] == rest;
  }

  lemma HeadEnds(row: seq<Cell>, i: nat, stop: nat)
    requires WellFormed(row) && i < |row| && !IsContinuation(row[i]) && stop == i + row[i].advance
    ensures i < stop <= |row| && (forall k :: i < k < stop ==> IsContinuation(row[k]))
            && (stop < |row| ==> !IsContinuation(row[stop]))
  {
  }

  lemma KeepsOn(frame: seq<Cell>, drawn: seq<Cell>, after: seq<Cell>, next: seq<Cell>, i: nat)
    requires |frame| == |drawn| == |after| == |next| && KeepsSettled(frame, drawn, next)
             && KeepsSettled(drawn, after, next)
    requires i < |next| && !IsContinuation(next[i]) && Settled(drawn, next, i)
    ensures KeepsSettled(frame, after, next) && Settled(after, next, i)
  {
  }

  function PaintRuns(frame: seq<Cell>, next: seq<Cell>, runs: seq<Run>): (r: seq<Cell>)
    requires forall n :: 0 <= n < |runs| ==> runs[n].start <= runs[n].end <= |next|
    ensures |r| == |frame|
    decreases |runs|
  {
    if runs == [] then frame
    else PaintRuns(PaintCells(frame, runs[0].start, next[runs[0].start..runs[0].end]), next, runs[1..])
  }

  lemma {:induction false} PaintRunsSettle(frame: seq<Cell>, next: seq<Cell>, runs: seq<Run>)
    requires WellFormed(frame) && WellFormed(next) && |frame| == |next|
    requires forall n :: 0 <= n < |runs| ==>
               runs[n].start < runs[n].end <= |next|
               && !IsContinuation(next[runs[n].start])
    ensures var after := PaintRuns(frame, next, runs);
            && WellFormed(after) && KeepsSettled(frame, after, next)
            && forall h :: 0 <= h < |next| && !IsContinuation(next[h]) && Holds(runs, h) ==> Settled(after, next, h)
    decreases |runs|
  {
    if runs != [] {
      var r, rest := runs[0], runs[1..];
      assert runs == [r] + rest;
      var mid := PaintCells(frame, r.start, next[r.start..r.end]);
      PaintSettles(frame, next, r.start, r.end, next[r.start..r.end], mid);
      PaintRunsSettle(mid, next, rest);
      var after := PaintRuns(mid, next, rest);
      forall h | 0 <= h < |next| && !IsContinuation(next[h]) && Holds(runs, h) ensures Settled(after, next, h) {
        HoldsCons(r, rest, h);
      }
    }
  }

  /** Painting a row's runs over the previous row, head by head, gives exactly the next row. */
  lemma PaintedRowIsNext(next: seq<Cell>, prev: seq<Cell>, maxGap: nat)
    requires WellFormed(next) && WellFormed(prev) && |next| == |prev| && Narrow(next, maxGap)
    ensures var runs := RowRuns(next, prev, 0, maxGap);
            && (forall n :: 0 <= n < |runs| ==> runs[n].start <= runs[n].end <= |next|)
            && PaintRuns(prev, next, runs) == next
  {
    var runs := RowRuns(next, prev, 0, maxGap);
    RowRunsMeaning(next, prev, 0, maxGap);
    RunsPaint(next, prev, maxGap, runs);
  }

  /** However found, runs that hold every change and start on heads paint the next row. */
  lemma RunsPaint(next: seq<Cell>, prev: seq<Cell>, maxGap: nat, runs: seq<Run>)
    requires WellFormed(next) && WellFormed(prev) && |next| == |prev| && Narrow(next, maxGap)
             && RunsOf(next, prev, 0, maxGap, runs)
    ensures forall n :: 0 <= n < |runs| ==> runs[n].start <= runs[n].end <= |next|
    ensures PaintRuns(prev, next, runs) == next
  {
    forall n | 0 <= n < |runs|
      ensures runs[n].start < runs[n].end <= |next| && !IsContinuation(next[runs[n].start])
    {
      assert Tight(next, prev, 0, runs[n]);
      RunsStartOnHeads(next, prev, maxGap, runs, n);
    }
    PaintRunsSettle(prev, next, runs);
    AllSettled(next, prev, PaintRuns(prev, next, runs), runs);
  }

  lemma AllSettled(next: seq<Cell>, prev: seq<Cell>, after: seq<Cell>, runs: seq<Run>)
    requires WellFormed(next) && WellFormed(prev) && |next| == |prev| == |after|
    requires KeepsSettled(prev, after, next)
    requires forall h :: 0 <= h < |next| && !IsContinuation(next[h]) && Holds(runs, h) ==> Settled(after, next, h)
    requires forall i :: 0 <= i < |next| && Changed(next, prev, i) ==> Holds(runs, i)
    ensures after == next
  {
    forall j | 0 <= j < |next| ensures after[j] == next[j] {
      var h := HeadOf(next, j);
      HeadFacts(next, j);
      if !Changed(next, prev, h) { SameSettled(next, prev, h); }
      SettledAt(after, next, h, j);
    }
  }

  lemma SettledAt(frame: seq<Cell>, next: seq<Cell>, h: nat, j: nat)
    requires |frame| == |next| && h <= j < |next| && j < h + next[h].advance && Settled(frame, next, h)
    ensures frame[j] == next[j]
  {
  }

  lemma SameSettled(next: seq<Cell>, prev: seq<Cell>, h: nat)
    requires WellFormed(next) && WellFormed(prev) && |next| == |prev| && h < |next| && next[h] == prev[h]
    ensures Settled(prev, next, h)
  {
  }

  // ---- The whole grid ----

  datatype RowRun = RowRun(y: nat, x: nat, cells: seq<Cell>)

  type Rows = seq<seq<Cell>>

  ghost predicate SameShape(next: Rows, prev: Rows, width: nat) {
    |next| == |prev| && forall y :: 0 <= y < |next| ==> |next[y]| == |prev[y]| == width
  }

  /** What the iterator has left to yield from column `x` of row `y` on. */
  ghost function GridRuns(next: Rows, prev: Rows, width: nat, y: nat, x: nat, maxGap: nat): seq<RowRun>
    requires SameShape(next, prev, width) && x <= width
    decreases |next| - y, width - x
  {
    if y >= |next| then []
    else
      var start := FirstChanged(next[y], prev[y], x, width);
      if start.None? then GridRuns(next, prev, width, y + 1, 0, maxGap)
      else
        var end := RunEnd(next[y], prev[y], start.value + 1, maxGap);
        [RowRun(y, start.value, next[y][start.value..end])] + GridRuns(next, prev, width, y, end, maxGap)
  }

  function Tagged(y: nat, row: seq<Cell>, runs: seq<Run>): seq<RowRun>
    requires forall n :: 0 <= n < |runs| ==> runs[n].start <= runs[n].end <= |row|
  {
    if runs == [] then [] else [RowRun(y, runs[0].start, row[runs[0].start..runs[0].end])] + Tagged(y, row, runs[1..])
  }

  /** The first run of a row, by the search that finds it. */
  lemma FirstRun(next: seq<Cell>, prev: seq<Cell>, x: nat, maxGap: nat, runs: seq<Run>)
    requires |next| == |prev| && x <= |next| && runs == RowRuns(next, prev, x, maxGap)
    ensures runs == [] <==> FirstChanged(next, prev, x, |next|).None?
    ensures runs != [] ==>
              && x <= runs[0].start < runs[0].end <= |next|
              && FirstChanged(next, prev, x, |next|) == Some(runs[0].start)
              && runs[0].end == RunEnd(next, prev, runs[0].start + 1, maxGap)
              && runs[1..] == RowRuns(next, prev, runs[0].end, maxGap)
  {
  }

  /** The iterator yields the row runs of each row in turn, top to bottom. */
  lemma {:induction false} GridRunsByRow(next: Rows, prev: Rows, width: nat, y: nat, x: nat, maxGap: nat,
                                         runs: seq<Run>, below: seq<RowRun>)
    requires SameShape(next, prev, width) && x <= width && y < |next| && runs == RowRuns(next[y], prev[y], x, maxGap)
    requires below == GridRuns(next, prev, width, y + 1, 0, maxGap)
    ensures forall n :: 0 <= n < |runs| ==> runs[n].start <= runs[n].end <= width
    ensures GridRuns(next, prev, width, y, x, maxGap) == Tagged(y, next[y], runs) + below
    decreases width - x
  {
    FirstRun(next[y], prev[y], x, maxGap, runs);
    NextRun(next, prev, width, y, x, maxGap);
    if runs == [] {
      assert [] + below == below;
    } else {
      var r, rest := runs[0], runs[1..];
      assert runs == [r] + rest;
      GridRunsByRow(next, prev, width, y, r.end, maxGap, rest, below);
      TaggedCons(y, next[y], r, rest, runs);
      Assoc([RowRun(y, r.start, next[y][r.start..r.end])], Tagged(y, next[y], rest), below);
    }
  }

  lemma TaggedCons(y: nat, row: seq<Cell>, r: Run, rest: seq<Run>, runs: seq<Run>)
    requires runs == [r] + rest && r.start <= r.end <= |row|
    requires forall n :: 0 <= n < |rest| ==> rest[n].start <= rest[n].end <= |row|
    ensures forall n :: 0 <= n < |runs| ==> runs[n].start <= runs[n].end <= |row|
    ensures Tagged(y, row, runs) == [RowRun(y, r.start, row[r.start..r.end])] + Tagged(y, row, rest)
  {
    assert runs[1..] == rest;
  }

  function PaintRow(rows: Rows, run: RowRun): (r: Rows)
    ensures |r| == |rows|
  {
    if run.y < |rows| then rows[run.y := PaintCells(rows[run.y], run.x, run.cells)] else rows
  }

  function PaintAll(rows: Rows, runs: seq<RowRun>): (r: Rows)
    ensures |r| == |rows|
    decreases |runs|
  {
    if runs == [] then rows else PaintAll(PaintRow(rows, runs[0]), runs[1..])
  }

  /** Painting a row's runs in the grid paints the row. */
  lemma {:induction false} PaintTagged(frame: Rows, y: nat, row: seq<Cell>, runs: seq<Run>, tagged: seq<RowRun>,
                                       below: seq<RowRun>,
                                       all: seq<RowRun>)
    requires y < |frame| && forall n :: 0 <= n < |runs| ==> runs[n].start <= runs[n].end <= |row|
    requires tagged == Tagged(y, row, runs) && all == tagged + below
    ensures PaintAll(frame, all) == PaintAll(frame[y := PaintRuns(frame[y], row, runs)], below)
    decreases |runs|
  {
    if runs == [] {
      assert frame[y := frame[y]] == frame && all == below;
    } else {
      var r, rest := runs[0], runs[1..];
      assert runs == [r] + rest;
      TaggedCons(y, row, r, rest, runs);
      var run, more := RowRun(y, r.start, row[r.start..r.end]), Tagged(y, row, rest);
      Assoc([run], more, below);
      PaintHead(frame, run, more + below, all);
      var painted := frame[y := PaintCells(frame[y], r.start, row[r.start..r.end])];
      PaintTagged(painted, y, row, rest, more, below, more + below);
      assert painted[y := PaintRuns(painted[y], row, rest)] == frame[y := PaintRuns(frame[y], row, runs)];
    }
  }

  lemma PaintHead(rows: Rows, run: RowRun, rest: seq<RowRun>, all: seq<RowRun>)
    requires all == [run] + rest
    ensures PaintAll(rows, all) == PaintAll(PaintRow(rows, run), rest)
  {
    assert all[1..] == rest;
  }

  ghost predicate AllWellFormed(rows: Rows) {
    forall y :: 0 <= y < |rows| ==> WellFormed(rows[y])
  }

  /** Painting the runs of row `y` makes it the next row and leaves the runs below. */
  lemma RowPainted(next: Rows, prev: Rows, width: nat, y: nat, maxGap: nat, frame: Rows, after: Rows)
    requires SameShape(next, prev, width) && y < |next| == |frame| && WellFormed(next[y]) && WellFormed(prev[y])
    requires Narrow(next[y], maxGap) && frame[y] == prev[y] && after == frame[y := next[y]]
    ensures PaintAll(frame, GridRuns(next, prev, width, y, 0, maxGap))
            == PaintAll(after, GridRuns(next, prev, width, y + 1, 0, maxGap))
  {
    var runs, below := RowRuns(next[y], prev[y], 0, maxGap), GridRuns(next, prev, width, y + 1, 0, maxGap);
    GridRunsByRow(next, prev, width, y, 0, maxGap, runs, below);
    PaintedRowIsNext(next[y], prev[y], maxGap);
    var tagged := Tagged(y, next[y], runs);
    PaintTagged(frame, y, next[y], runs, tagged, below, tagged + below);
  }

  lemma FrameStep(next: Rows, prev: Rows, y: nat, frame: Rows)
    requires y < |next| == |prev| && frame == next[..y] + prev[y..]
    ensures |frame| == |next| && frame[y] == prev[y] && frame[y := next[y]] == next[..y + 1] + prev[y + 1..]
  {
  }

  lemma {:induction false} PaintedBelow(next: Rows, prev: Rows, width: nat, y: nat, maxGap: nat, frame: Rows)
    requires SameShape(next, prev, width) && AllWellFormed(next) && AllWellFormed(prev) && y <= |next|
    requires (forall z :: 0 <= z < |next| ==> Narrow(next[z], maxGap)) && frame == next[..y] + prev[y..]
    ensures PaintAll(frame, GridRuns(next, prev, width, y, 0, maxGap)) == next
    decreases |next| - y
  {
    if y == |next| {
      assert frame == next;
    } else {
      FrameStep(next, prev, y, frame);
      var after := frame[y := next[y]];
      RowPainted(next, prev, width, y, maxGap, frame, after);
      PaintedBelow(next, prev, width, y + 1, maxGap, after);
    }
  }

  /** Painting all the runs of a diff, head by head, over the previous frame gives exactly the next frame. */
  lemma PaintedGridIsNext(next: Rows, prev: Rows, width: nat, maxGap: nat)
    requires SameShape(next, prev, width) && AllWellFormed(next) && AllWellFormed(prev)
    requires forall z :: 0 <= z < |next| ==> Narrow(next[z], maxGap)
    ensures PaintAll(prev, GridRuns(next, prev, width, 0, 0, maxGap)) == next
  {
    assert next[..0] + prev[0..] == prev;
    PaintedBelow(next, prev, width, 0, maxGap, prev);
  }

  ghost function RowsOf(g: Grid): (r: Rows)
    requires g.Sized()
    reads g
    ensures |r| == g.height && forall y :: 0 <= y < g.height ==>
            r[y] == RowOf(g.cells, g.width, g.height, y) && |r[y]| == g.width
  {
    seq(g.height, y requires 0 <= y < g.height && g.Sized() reads g => RowOf(g.cells, g.width, g.height, y))
  }

  /** The iterator over the runs of two grids. */
  class DiffRuns {
    const next: Grid
    const prev: Grid
    const maxGap: nat
    var y: nat
    var x: nat

    ghost predicate Valid() reads this, next, prev {
      && next.Valid() && prev.Valid() && next.width == prev.width && next.height == prev.height
      && x <= next.width && maxGap <= U16_MAX
    }

    ghost function Remaining(): seq<RowRun>
      requires Valid()
      reads this, next, prev
    {
      GridRuns(RowsOf(next), RowsOf(prev), next.width, y, x, maxGap)
    }

    constructor (next: Grid, prev: Grid, maxGap: nat)
      requires next.Valid() && prev.Valid() && next.width == prev.width && next.height == prev.height
               && maxGap <= U16_MAX
      ensures Valid() && this.next == next && this.prev == prev && this.maxGap == maxGap
      ensures Remaining() == GridRuns(RowsOf(next), RowsOf(prev), next.width, 0, 0, maxGap)
    {
      this.next, this.prev, this.maxGap, y, x := next, prev, maxGap, 0, 0;
    }

    /** The next run, or none and no runs left. */
    method Next() returns (r: Option<RowRun>)
      requires Valid()
      modifies this`y, this`x
      ensures Valid()
      ensures r.None? ==> old(Remaining()) == [] && Remaining() == []
      ensures r.Some? ==> old(Remaining()) == [r.value] + Remaining()
    {
      r := None;
      while y < next.height && r.None?
        invariant Valid() && (r.None? ==> Remaining() == old(Remaining()))
        invariant r.Some? ==> old(Remaining()) == [r.value] + Remaining()
        decreases next.height - y, r.None?
      {
        r := ScanRow();
      }
    }

    /** The next run of the current row; none moves to the next row. */
    method ScanRow() returns (r: Option<RowRun>)
      requires Valid() && y < next.height
      modifies this`y, this`x
      ensures Valid()
      ensures r.None? ==> y == old(y) + 1 && old(Remaining()) == Remaining()
      ensures r.Some? ==> y == old(y) && old(Remaining()) == [r.value] + Remaining()
    {
      var run, end := FindRun();
      if run.None? { y, x := y + 1, 0; } else { x := end; }
      r := run;
    }

    /** The run from the column reached, and where it ends. */
    method FindRun() returns (r: Option<RowRun>, end: nat)
      requires Valid() && y < next.height
      ensures end <= next.width
      ensures Remaining() == if r.None? then GridRuns(RowsOf(next), RowsOf(prev), next.width, y + 1, 0, maxGap)
                             else [r.value] + GridRuns(RowsOf(next), RowsOf(prev), next.width, y, end, maxGap)
    {
      var nextRow, prevRow := CurrentRows();
      NextRun(RowsOf(next), RowsOf(prev), next.width, y, x, maxGap);
      var found := ScanFrom(nextRow, prevRow, x, maxGap);
      if found.None? { return None, 0; }
      return Some(RowRun(y, found.value.start, nextRow[found.value.start..found.value.end])), found.value.end;
    }

    method CurrentRows() returns (nextRow: seq<Cell>, prevRow: seq<Cell>)
      requires Valid() && y < next.height
      ensures |RowsOf(next)| == |RowsOf(prev)| == next.height && nextRow == RowsOf(next)[y]
              && prevRow == RowsOf(prev)[y]
      ensures SameShape(RowsOf(next), RowsOf(prev), next.width)
    {
      nextRow := next.RowCells(y);
      prevRow := prev.RowCells(y);
    }
  }

  /** The first run of a row from column `x` on. */
  method ScanFrom(next: seq<Cell>, prev: seq<Cell>, x: nat, maxGap: nat) returns (r: Option<Run>)
    requires |next| == |prev| <= U16_MAX && x <= |next| && maxGap <= U16_MAX
    ensures r.None? <==> FirstChanged(next, prev, x, |next|).None?
    ensures r.Some? ==>
              && FirstChanged(next, prev, x, |next|) == Some(r.value.start)
              && r.value.end == RunEnd(next, prev, r.value.start + 1, maxGap)
  {
    var start := FindChanged(next, prev, x, |next|);
    if start.None? { return None; }
    var end := GrowRun(next, prev, start.value + 1, maxGap);
    return Some(Run(start.value, end));
  }

  lemma NextRun(next: Rows, prev: Rows, width: nat, y: nat, x: nat, maxGap: nat)
    requires SameShape(next, prev, width) && x <= width && y < |next|
    ensures var start := FirstChanged(next[y], prev[y], x, width);
            if start.None? then GridRuns(next, prev, width, y, x, maxGap)
                == GridRuns(next, prev, width, y + 1, 0, maxGap)
            else var end := RunEnd(next[y], prev[y], start.value + 1, maxGap);
                 GridRuns(next, prev, width, y, x, maxGap)
                 == [RowRun(y, start.value, next[y][start.value..end])] + GridRuns(next, prev, width, y, end, maxGap)
  {
  }

  method FindChanged(next: seq<Cell>, prev: seq<Cell>, lo: nat, hi: nat) returns (r: Option<nat>)
    requires |next| == |prev| && hi <= |next|
    ensures r == FirstChanged(next, prev, lo, hi)
  {
    var i := lo;
    while i < hi
      invariant lo <= i && FirstChanged(next, prev, i, hi) == FirstChanged(next, prev, lo, hi)
    {
      if next[i] != prev[i] { return Some(i); }
      i := i + 1;
    }
    return None;
  }

  /** Absorbs the next change while it is close enough; the limit is added in 16 bits, sticking at the top. */
  method GrowRun(next: seq<Cell>, prev: seq<Cell>, from: nat, maxGap: nat) returns (end: nat)
    requires |next| == |prev| <= U16_MAX && from <= |next| && maxGap <= U16_MAX
    ensures end == RunEnd(next, prev, from, maxGap)
  {
    end := from;
    while true
      invariant from <= end <= |next| && RunEnd(next, prev, end, maxGap) == RunEnd(next, prev, from, maxGap)
      decreases |next| - end
    {
      var limit := Min(SaturatingAdd(SaturatingAdd(end, maxGap), 1), |next|);
      assert limit == Min(end + maxGap + 1, |next|);
      var k := FindChanged(next, prev, end, limit);
      if k.None? { break; }
      end := k.value + 1;
    }
  }
}
