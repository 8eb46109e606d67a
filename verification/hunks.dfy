/** A changeset as whole-line hunks of the text it applies to, and the proof that they are a correct patch. */
module Hunks {
  import opened Wrappers
  import opened Sequences
  import opened ChangeSets
  import opened Lines
  import opened Regions

  // ---- Edited regions ----

  /** The text `regions` make of `t[from..upto]`. */
  ghost function BuiltFrom(t: string, regions: seq<Region>, from: nat, upto: nat): string
    requires Fits(regions, from, upto) && upto <= |t|
    decreases |regions|
  {
    if regions == [] then t[from..upto]
    else
      var init, last := regions[..|regions| - 1], regions[|regions| - 1];
      BuiltFrom(t, init, from, last.start) + last.inserted + t[last.end..upto]
  }

  /** Kept text after the regions is text as it was. */
  lemma BuiltKeep(t: string, regions: seq<Region>, from: nat, mid: nat, upto: nat)
    requires Fits(regions, from, mid) && mid <= upto <= |t|
    ensures Fits(regions, from, upto) && BuiltFrom(t, regions, from, upto)
            == BuiltFrom(t, regions, from, mid) + t[mid..upto]
  {
    if regions == [] {
      SliceJoin(t, from, mid, upto);
    } else {
      var last := regions[|regions| - 1];
      SliceJoin(t, last.end, mid, upto);
      var kept := BuiltFrom(t, regions[..|regions| - 1], from, last.start);
      Assoc(kept + last.inserted, t[last.end..mid], t[mid..upto]);
    }
  }

  lemma FitsConcat(a: seq<Region>, b: seq<Region>, from: nat, mid: nat, upto: nat)
    requires Fits(a, from, mid) && Fits(b, mid, upto)
    requires a != [] && b != [] ==> a[|a| - 1].end < b[0].start
    ensures Fits(a + b, from, upto)
  {
    var r := a + b;
    forall i, j | 0 <= i < j < |r| ensures r[i].end < r[j].start {
      if i < |a| <= j {
        assert a[i].end <= a[|a| - 1].end by { if i < |a| - 1 { assert a[i].end < a[|a| - 1].start; } }
        assert b[0].start <= b[j - |a|].start by { if j > |a| { assert b[0].end < b[j - |a|].start; } }
      }
    }
  }

  lemma BuiltUnfold(t: string, init: seq<Region>, r: Region, from: nat, upto: nat, all: seq<Region>)
    requires all == init + [r] && Fits(all, from, upto) && upto <= |t|
    ensures Fits(init, from, r.start) && r.start <= r.end <= upto
    ensures BuiltFrom(t, all, from, upto) == BuiltFrom(t, init, from, r.start) + r.inserted + t[r.end..upto]
  {
    assert all[..|all| - 1] == init && all[|all| - 1] == r;
    forall i | 0 <= i < |init| ensures all[i].end < r.start {
      assert all[|all| - 1].start == r.start;
    }
  }

  lemma BuiltPush(t: string, regions: seq<Region>, from: nat, r: Region, all: seq<Region>)
    requires Fits(regions, from, r.start) && r.start <= r.end <= |t| && all == regions + [r]
    requires regions != [] ==> regions[|regions| - 1].end < r.start
    ensures Fits(all, from, r.end)
    ensures BuiltFrom(t, all, from, r.end) == BuiltFrom(t, regions, from, r.start) + r.inserted
  {
    FitsConcat(regions, [r], from, r.start, r.end);
    BuiltUnfold(t, regions, r, from, r.end, all);
    assert t[r.end..r.end] == [];
  }

  lemma BuiltGrow(t: string, regions: seq<Region>, from: nat, at: nat, end: nat, s: string, init: seq<Region>,
                  last: Region,
                  grown: seq<Region>)
    requires Fits(regions, from, at) && regions == init + [last] && last.end == at && at <= end <= |t|
    requires grown == init + [Region(last.start, end, last.inserted + s)]
    ensures Fits(grown, from, end) && BuiltFrom(t, grown, from, end) == BuiltFrom(t, regions, from, at) + s
  {
    BuiltUnfold(t, init, last, from, at, regions);
    LastBefore(init, last, regions);
    BuiltPush(t, init, from, Region(last.start, end, last.inserted + s), grown);
    var built := BuiltFrom(t, init, from, last.start);
    assert t[at..at] == [] && built + last.inserted + [] == built + last.inserted;
    Assoc(built, last.inserted, s);
  }

  /** A changeset's regions, touching edits merged. */
  method EditedRegions(cs: ChangeSet, ghost t: string) returns (regions: seq<Region>)
    requires cs.Valid() && |t| == cs.lenBefore
    ensures Fits(regions, 0, |t|) && BuiltFrom(t, regions, 0, |t|) == Run(cs.ops, t)
    ensures Exactly(cs.ops, regions, |t|)
  {
    regions := [];
    var at: nat := 0;
    ghost var built: string := [];
    MadeNone(cs.ops, t);
    NothingEdited(t);
    ghost var done: seq<Op> := [];
    for i := 0 to |cs.ops|
      invariant done == cs.ops[..i] && EditedTo(done, regions) == Some(at)
      invariant BuiltTo(t, regions, at) == Some(built) && Made(cs.ops, i, t, at) == Some(built)
    {
      MadeNext(cs.ops, i, t, at, built);
      ghost var more := built + Piece(cs.ops[i], t, at);
      regions, at := AddOp(regions, t, at, done, cs.ops[i], built);
      built, done := more, done + [cs.ops[i]];
    }
    MadeAll(cs.ops, t, at, built);
    AllEdited(cs.ops, done, regions, at);
  }

  /** What `regions` turn the text up to `upto` into, when they fit in it. */
  ghost function BuiltTo(t: string, regions: seq<Region>, upto: nat): Option<string> {
    if upto <= |t| && Fits(regions, 0, upto) then Some(BuiltFrom(t, regions, 0, upto)) else None
  }

  /** How far into the text `ops` go, when `regions` are their edits. */
  ghost function EditedTo(ops: seq<Op>, regions: seq<Region>): Option<nat> {
    if Exactly(ops, regions, Consumed(ops)) then Some(Consumed(ops)) else None
  }

  lemma NothingEdited(t: string)
    ensures BuiltTo(t, [], 0) == Some([]) && EditedTo([], []) == Some(0)
  {
  }

  lemma AllEdited(ops: seq<Op>, done: seq<Op>, regions: seq<Region>, at: nat)
    requires done == ops[..|ops|] && EditedTo(done, regions) == Some(at)
    ensures at == Consumed(ops) && Exactly(ops, regions, at)
  {
    assert done == ops;
  }

  lemma KeepsBuilding(t: string, regions: seq<Region>, at: nat, upto: nat, built: string)
    requires BuiltTo(t, regions, at) == Some(built) && at <= upto <= |t|
    ensures BuiltTo(t, regions, upto) == Some(built + t[at..upto])
  {
    BuiltKeep(t, regions, 0, at, upto);
  }

  lemma OpSpan(op: Op)
    ensures Consumed([op]) == match op case Retain(n) => n case Delete(n) => n case Insert(_) => 0
  {
    assert [op][1..] == [];
  }

  /** One op more: a kept stretch leaves the regions as they are, an edit is pushed onto them. */
  method AddOp(regions: seq<Region>, ghost t: string, at: nat, ghost ops: seq<Op>, op: Op, ghost built: string)
      returns (r: seq<Region>, next: nat)
    requires BuiltTo(t, regions, at) == Some(built) && at + Consumed([op]) <= |t|
    requires EditedTo(ops, regions) == Some(at) && !IsEmpty(op)
    ensures next == at + Consumed([op]) && BuiltTo(t, r, next) == Some(built + Piece(op, t, at))
    ensures EditedTo(ops + [op], r) == Some(next)
  {
    OpSpan(op);
    match op {
      case Retain(n) =>
        KeepsBuilding(t, regions, at, at + n, built);
        KeepsEdits(ops, op, regions, at);
        r, next := regions, at + n;
      case Delete(n) =>
        r := PushRegion(regions, t, at, at + n, [], ops, op, built);
        next := at + n;
      case Insert(s) =>
        r := PushRegion(regions, t, at, at, s, ops, op, built);
        next := at;
    }
  }

  lemma KeepsEdits(ops: seq<Op>, op: Op, regions: seq<Region>, at: nat)
    requires op.Retain? && EditedTo(ops, regions) == Some(at)
    ensures EditedTo(ops + [op], regions) == Some(at + op.n)
  {
    RetainStep(ops, op, ops + [op], regions);
  }

  /** The last region with an edit pushed onto it, or the edit as a region of its own. */
  lemma PushesEdit(ops: seq<Op>, op: Op, init: seq<Region>, was: Option<Region>, x: Region, at: nat)
    requires JoinedOn(ops, op, init, was, x) && EditedTo(ops, init + Few(was)) == Some(at)
    requires Fits(init + [x], 0, x.end)
    ensures EditedTo(ops + [op], init + [x]) == Some(x.end)
  {
    EditStep(ops, op, ops + [op], init, was, x);
  }

  lemma Grows(regions: seq<Region>, t: string, start: nat, end: nat, s: string, ops: seq<Op>, op: Op, built: string,
              init: seq<Region>, last: Region)
    requires BuiltTo(t, regions, start) == Some(built) && start <= end <= |t|
    requires EditedTo(ops, regions) == Some(start) && !op.Retain? && !IsEmpty(op)
    requires s == (if op.Insert? then op.s else []) && end == start + if op.Delete? then op.n else 0
    requires regions == init + [last] && start <= last.end
    ensures var r := init + [Region(last.start, end, last.inserted + s)];
            BuiltTo(t, r, end) == Some(built + s) && EditedTo(ops + [op], r) == Some(end)
  {
    var x := Region(last.start, end, last.inserted + s);
    assert regions[|init|] == last;
    BuiltGrow(t, regions, 0, start, end, s, init, last, init + [x]);
    PushesEdit(ops, op, init, Some(last), x, start);
  }

  lemma StandsAlone(regions: seq<Region>, t: string, start: nat, end: nat, s: string, ops: seq<Op>, op: Op,
                    built: string)
    requires BuiltTo(t, regions, start) == Some(built) && start <= end <= |t|
    requires EditedTo(ops, regions) == Some(start) && !op.Retain? && !IsEmpty(op)
    requires s == (if op.Insert? then op.s else []) && end == start + if op.Delete? then op.n else 0
    requires regions != [] ==> regions[|regions| - 1].end < start
    ensures var r := regions + [Region(start, end, s)];
            BuiltTo(t, r, end) == Some(built + s) && EditedTo(ops + [op], r) == Some(end)
  {
    var x := Region(start, end, s);
    BuiltPush(t, regions, 0, x, regions + [x]);
    AloneJoins(regions, start, ops, op, x);
    PushesEdit(ops, op, regions, None, x, start);
  }

  lemma AloneJoins(regions: seq<Region>, start: nat, ops: seq<Op>, op: Op, x: Region)
    requires EditedTo(ops, regions) == Some(start) && !op.Retain? && !IsEmpty(op)
    requires x == Region(start, start + if op.Delete? then op.n else 0, if op.Insert? then op.s else [])
    requires regions != [] ==> regions[|regions| - 1].end < start
    ensures regions + Few(None) == regions && JoinedOn(ops, op, regions, None, x)
  {
    assert regions + Few(None) == regions;
  }

  /** An edit of `start..end` extends the last region when it touches it. */
  method PushRegion(regions: seq<Region>, ghost t: string, start: nat, end: nat, s: string, ghost ops: seq<Op>,
                    ghost op: Op, ghost built: string)
      returns (r: seq<Region>)
    requires BuiltTo(t, regions, start) == Some(built) && start <= end <= |t|
    requires EditedTo(ops, regions) == Some(start) && !op.Retain? && !IsEmpty(op)
    requires s == (if op.Insert? then op.s else []) && end == start + if op.Delete? then op.n else 0
    ensures BuiltTo(t, r, end) == Some(built + s) && EditedTo(ops + [op], r) == Some(end)
  {
    if regions != [] && start <= regions[|regions| - 1].end {
      var init, last := regions[..|regions| - 1], regions[|regions| - 1];
      r := init + [Region(last.start, end, last.inserted + s)];
      assert regions == init + [last];
      Grows(regions, t, start, end, s, ops, op, built, init, last);
    } else {
      r := regions + [Region(start, end, s)];
      StandsAlone(regions, t, start, end, s, ops, op, built);
    }
  }

  /** The text of a run of regions splits where two of them are apart. */
  lemma {:induction false} BuiltSplit(t: string, a: seq<Region>, b: seq<Region>, from: nat, mid: nat, upto: nat,
                                      all: seq<Region>)
    requires Fits(a, from, mid) && Fits(b, mid, upto) && upto <= |t| && all == a + b
    requires a != [] && b != [] ==> a[|a| - 1].end < b[0].start
    ensures Fits(all, from, upto)
    ensures BuiltFrom(t, all, from, upto) == BuiltFrom(t, a, from, mid) + BuiltFrom(t, b, mid, upto)
    decreases |b|
  {
    FitsConcat(a, b, from, mid, upto);
    if b == [] {
      assert all == a;
      BuiltKeep(t, a, from, mid, upto);
    } else {
      var init, last := b[..|b| - 1], b[|b| - 1];
      assert b == init + [last];
      BuiltUnfold(t, init, last, mid, upto, b);
      Assoc(a, init, [last]);
      BuiltUnfold(t, a + init, last, from, upto, all);
      BuiltSplit(t, a, init, from, mid, last.start, a + init);
      AssocFour(BuiltFrom(t, a, from, mid), BuiltFrom(t, init, mid, last.start), last.inserted, t[last.end..upto]);
    }
  }

  lemma BuiltLast(t: string, regions: seq<Region>, from: nat, upto: nat)
    requires Fits(regions, from, upto) && upto <= |t| && from < upto
    requires regions != [] ==> regions[|regions| - 1].end < upto
    ensures var b := BuiltFrom(t, regions, from, upto); b != [] && b[|b| - 1] == t[upto - 1]
  {
  }

  // ---- The lines a region touches ----

  /** The char left just before a region's end. */
  function BeforeEnd(r: Region, t: string): Option<char>
    requires r.start <= |t|
  {
    if r.inserted != [] then Some(r.inserted[|r.inserted| - 1])
    else if r.start > 0 then Some(t[r.start - 1])
    else None
  }

  datatype LineSpan = LineSpan(first: nat, end: nat)

  /** The lines `first..end` a region touches; the line its end lands on is left out when the region ends
      at that line's start and the text before it ends a line. */
  function AffectedLines(r: Region, t: string): LineSpan
    requires r.start <= r.end <= |t|
  {
    var last := LineOf(t, r.end);
    var endsAtStart := StartOf(t, last) == r.end;
    var before := BeforeEnd(r, t);
    var intact := endsAtStart && (before.None? || before.value == '\n');
    LineSpan(LineOf(t, r.start), if intact then last else last + 1)
  }

  /** A line is left alone when it lies before the region, or starts behind it and the new text still breaks right
      before it. */
  ghost predicate LeftAlone(t: string, r: Region, line: nat)
    requires r.start <= r.end <= |t|
  {
    || line < LineOf(t, r.start)
    || r.end < StartOf(t, line)
    || (r.end == StartOf(t, line) && Whole(t[..r.start] + r.inserted))
  }

  /** The lines a region touches are exactly those it does not leave alone. */
  lemma AffectedMeans(t: string, r: Region, line: nat)
    requires r.start <= r.end <= |t| && line <= LineOf(t, |t|)
    ensures AffectedLines(r, t).first <= line < AffectedLines(r, t).end <==> !LeftAlone(t, r, line)
  {
    LineOfMonotone(t, r.start, r.end);
    LineOfMonotone(t, r.end, |t|);
    StartFacts(t, line);
    StartFacts(t, LineOf(t, r.end));
    MadeBefore(t, r);
    if StartOf(t, line) <= r.end { LineOfMonotone(t, StartOf(t, line), r.end); }
        else { LineOfMonotone(t, r.end, StartOf(t, line)); }
  }

  lemma MadeBefore(t: string, r: Region)
    requires r.start <= |t|
    ensures Whole(t[..r.start] + r.inserted) <==> BeforeEnd(r, t).None? || BeforeEnd(r, t).value == '\n'
  {
    var made := t[..r.start] + r.inserted;
    if r.inserted != [] { assert made[|made| - 1] == r.inserted[|r.inserted| - 1]; }
    else if r.start > 0 { assert made[|made| - 1] == t[r.start - 1]; }
  }

  lemma NextLineStart(t: string, p: nat)
    requires EndsInNewline(t) && p < |t|
    ensures LineOf(t, p) < LineOf(t, |t|)
    ensures p < StartOf(t, LineOf(t, p) + 1) <= |t|
  {
    LineOfMonotone(t, p, |t| - 1);
    StartFacts(t, LineOf(t, p) + 1);
    if StartOf(t, LineOf(t, p) + 1) <= p { LineOfMonotone(t, StartOf(t, LineOf(t, p) + 1), p); }
  }

  lemma LastLineStart(t: string)
    requires EndsInNewline(t)
    ensures StartOf(t, LineOf(t, |t|)) == |t|
  {
    StartFacts(t, LineOf(t, |t|));
    if StartOf(t, LineOf(t, |t|)) < |t| { LineOfMonotone(t, StartOf(t, LineOf(t, |t|)), |t| - 1); }
  }

  /** A change that keeps the final break leaves the line after it alone. */
  lemma EndIntact(t: string, init: seq<Region>, r: Region, all: seq<Region>)
    requires EndsInNewline(t) && all == init + [r] && Fits(all, 0, |t|) && r.end == |t|
    requires EndsInNewline(BuiltFrom(t, all, 0, |t|))
    ensures r.start <= |t|
    ensures var before := BeforeEnd(r, t); before.None? || before.value == '\n'
  {
    var kept := BuiltParts(t, init, r, all, |t|);
    LastChar(kept, r.inserted, t[r.end..|t|]);
  }

  lemma LastBefore(init: seq<Region>, r: Region, all: seq<Region>)
    requires all == init + [r] && forall i, j :: 0 <= i < j < |all| ==> all[i].end < all[j].start
    ensures init != [] ==> init[|init| - 1].end < r.start
  {
    assert init == [] || all[|init| - 1].end < all[|init|].start;
  }

  lemma LastChar(a: string, b: string, c: string)
    requires c == [] && EndsInNewline(a + b + c)
    ensures if b != [] then b[|b| - 1] == '\n' else EndsInNewline(a)
  {
    assert a + b + c == a + b;
    assert b != [] ==> (a + b)[|a + b| - 1] == b[|b| - 1];
  }

  /** Regions of a change between newline-terminated texts. */
  ghost predicate Edits(t: string, regions: seq<Region>) {
    EndsInNewline(t) && Fits(regions, 0, |t|) && EndsInNewline(BuiltFrom(t, regions, 0, |t|))
  }

  lemma AffectedLast(t: string, init: seq<Region>, r: Region, all: seq<Region>)
    requires all == init + [r] && Edits(t, all) && r.end == |t|
    ensures r.start <= |t| && AffectedLines(r, t).end == LineOf(t, |t|)
  {
    EndIntact(t, init, r, all);
    LastLineStart(t);
  }

  lemma OnlyLastReachesEnd(t: string, regions: seq<Region>, i: nat)
    requires Fits(regions, 0, |t|) && i < |regions| && regions[i].end == |t|
    ensures i == |regions| - 1
  {
    var last := regions[|regions| - 1];
  }

  lemma AffectedInner(t: string, r: Region)
    requires EndsInNewline(t) && r.start <= r.end < |t|
    ensures LineOf(t, r.end) <= AffectedLines(r, t).end <= LineOf(t, |t|)
    ensures r.end <= StartOf(t, AffectedLines(r, t).end) <= |t|
  {
    NextLineStart(t, r.end);
  }

  /** The lines a region touches end at or after it, within the text. */
  lemma AffectedWithin(t: string, regions: seq<Region>, i: nat)
    requires Edits(t, regions) && i < |regions|
    ensures LineOf(t, regions[i].end) <= AffectedLines(regions[i], t).end <= LineOf(t, |t|)
    ensures regions[i].end <= StartOf(t, AffectedLines(regions[i], t).end) <= |t|
  {
    if regions[i].end < |t| { AffectedInner(t, regions[i]); } else { AffectedReachesEnd(t, regions, i, regions[i]); }
  }

  lemma AffectedReachesEnd(t: string, regions: seq<Region>, i: nat, r: Region)
    requires Edits(t, regions) && i < |regions| && r == regions[i] && r.end == |t|
    ensures r.start <= |t| && AffectedLines(r, t).end == LineOf(t, |t|) && StartOf(t, LineOf(t, |t|)) == |t|
  {
    OnlyLastReachesEnd(t, regions, i);
    AffectedAtEnd(t, regions, LastSplit(regions, i, r), r);
  }

  function LastSplit(regions: seq<Region>, i: nat, r: Region): (init: seq<Region>)
    requires i == |regions| - 1 && regions[i] == r
    ensures regions == init + [r]
  {
    regions[..i]
  }

  lemma AffectedAtEnd(t: string, regions: seq<Region>, init: seq<Region>, r: Region)
    requires Edits(t, regions) && regions == init + [r] && r.end == |t|
    ensures r.start <= |t| && AffectedLines(r, t).end == LineOf(t, |t|)
    ensures StartOf(t, LineOf(t, |t|)) == |t|
  {
    AffectedLast(t, init, r, regions);
    LastLineStart(t);
  }

  /** Later regions touch later lines: both ends of the touched lines ascend. */
  lemma AffectedAscend(t: string, regions: seq<Region>, i: nat, j: nat)
    requires Fits(regions, 0, |t|) && i < j < |regions|
    ensures AffectedLines(regions[i], t).first <= AffectedLines(regions[j], t).first
    ensures AffectedLines(regions[i], t).end <= AffectedLines(regions[j], t).end
  {
    var a, b := regions[i], regions[j];
    assert a.end < b.start;
    LineOfMonotone(t, a.start, b.start);
    LineOfMonotone(t, a.end, b.end);
    LineOfMonotone(t, b.end, |t|);
    StartFacts(t, LineOf(t, b.end));
  }

  // ---- Groups ----

  /** A run of regions, as an index range, and the lines they touch. */
  datatype Group = Group(lo: nat, hi: nat, first: nat, end: nat)

  ghost predicate LinesAscend(lines: seq<LineSpan>) {
    forall i, j :: 0 <= i < j < |lines| ==> lines[i].first <= lines[j].first && lines[i].end <= lines[j].end
  }

  /** A run of regions, each starting on the lines of the one before it or on the line after. */
  ghost predicate GroupAt(g: Group, lines: seq<LineSpan>) {
    && g.lo < g.hi <= |lines| && g.first == lines[g.lo].first && g.end == lines[g.hi - 1].end
    && forall j, k :: g.lo <= j < k < g.hi && k == j + 1 ==> lines[k].first <= lines[j].end
  }

  /** The groups take the regions in order, and the lines of one group lie past those of the one before
      with a line in between. */
  ghost predicate Grouped(groups: seq<Group>, lines: seq<LineSpan>, upto: nat) {
    && (forall k :: 0 <= k < |groups| ==> GroupAt(groups[k], lines))
    && (groups == [] ==> upto == 0)
    && (groups != [] ==> groups[0].lo == 0 && groups[|groups| - 1].hi == upto)
    && (forall j, k :: 0 <= j < k < |groups| && k == j + 1 ==>
          groups[j].hi == groups[k].lo && groups[j].end < groups[k].first)
  }

  lemma GroupedPush(groups: seq<Group>, lines: seq<LineSpan>, upto: nat, g: Group)
    requires Grouped(groups, lines, upto) && GroupAt(g, lines) && g.lo == upto
    requires groups != [] ==> groups[|groups| - 1].end < g.first
    ensures Grouped(groups + [g], lines, g.hi)
  {
    var more := groups + [g];
    forall k | 0 <= k < |more| ensures GroupAt(more[k], lines) {
      if k < |groups| { assert more[k] == groups[k]; }
    }
  }

  method GroupRegions(lines: seq<LineSpan>) returns (groups: seq<Group>)
    requires LinesAscend(lines)
    ensures Grouped(groups, lines, |lines|)
  {
    groups := [];
    var i := 0;
    while i < |lines|
      invariant i <= |lines| && Grouped(groups, lines, i)
      invariant groups != [] && i < |lines| ==> groups[|groups| - 1].end < lines[i].first
    {
      var j, end := GroupFrom(lines, i);
      GroupedPush(groups, lines, i, Group(i, j, lines[i].first, end));
      groups := groups + [Group(i, j, lines[i].first, end)];
      i := j;
    }
  }

  /** Takes in the regions from `i` on while they start on lines taken so far, or the line after. */
  method GroupFrom(lines: seq<LineSpan>, i: nat) returns (j: nat, end: nat)
    requires LinesAscend(lines) && i < |lines|
    ensures i < j <= |lines| && end == lines[j - 1].end && (j < |lines| ==> end < lines[j].first)
    ensures forall m, k :: i <= m < k < j && k == m + 1 ==> lines[k].first <= lines[m].end
  {
    j, end := i + 1, lines[i].end;
    while j < |lines| && lines[j].first <= end
      invariant i < j <= |lines| && end == lines[j - 1].end
      invariant forall m, k :: i <= m < k < j && k == m + 1 ==> lines[k].first <= lines[m].end
    {
      end := if end < lines[j].end then lines[j].end else end;
      j := j + 1;
    }
  }

  // ---- One group as a hunk ----

  datatype ChangeHunk = ChangeHunk(oldStart: nat, newStart: nat, oldLines: seq<string>, newLines: seq<string>)

  /** `h` is what is left of the lines `newer` turned to `older` once equal lines at both ends are dropped. */
  ghost predicate Trimmed(older: seq<string>, newer: seq<string>, lead: nat, trail: nat) {
    && lead + trail <= |older| && lead + trail <= |newer|
    && older[..lead] == newer[..lead] && older[|older| - trail..] == newer[|newer| - trail..]
  }

  ghost predicate TrimmedHunk(h: ChangeHunk, older: seq<string>, newer: seq<string>, first: nat, skew: int, lead: nat,
                              trail: nat) {
    && Trimmed(older, newer, lead, trail)
    && h.oldLines == older[lead..|older| - trail] && h.newLines == newer[lead..|newer| - trail]
    && h.newStart == first + lead && h.oldStart == first + lead + skew
    && (h.oldLines != [] || h.newLines != [])
    && (h.oldLines != [] && h.newLines != [] ==>
          h.oldLines[0] != h.newLines[0] && h.oldLines[|h.oldLines| - 1] != h.newLines[|h.newLines| - 1])
  }

  method CommonLead(a: seq<string>, b: seq<string>) returns (n: nat)
    ensures n <= |a| && n <= |b| && a[..n] == b[..n] && (n < |a| && n < |b| ==> a[n] != b[n])
  {
    n := 0;
    while n < |a| && n < |b| && a[n] == b[n]
      invariant n <= |a| && n <= |b| && a[..n] == b[..n]
    {
      n := n + 1;
    }
  }

  /** Equal lines at the end, leaving out the first `lead`. */
  method CommonTrail(a: seq<string>, b: seq<string>, lead: nat) returns (n: nat)
    requires lead <= |a| && lead <= |b|
    ensures lead + n <= |a| && lead + n <= |b| && a[|a| - n..] == b[|b| - n..]
    ensures lead + n < |a| && lead + n < |b| ==> a[|a| - 1 - n] != b[|b| - 1 - n]
  {
    n := 0;
    while lead + n < |a| && lead + n < |b| && a[|a| - 1 - n] == b[|b| - 1 - n]
      invariant lead + n <= |a| && lead + n <= |b| && a[|a| - n..] == b[|b| - n..]
    {
      assert a[|a| - n - 1..] == [a[|a| - 1 - n]] + a[|a| - n..];
      assert b[|b| - n - 1..] == [b[|b| - 1 - n]] + b[|b| - n..];
      n := n + 1;
    }
  }

  /** The old side of a group: its lines with the regions' replacements put in. */
  method GroupText(t: string, regions: seq<Region>, start: nat, stop: nat) returns (s: string)
    requires Fits(regions, start, stop) && stop <= |t|
    ensures s == BuiltFrom(t, regions, start, stop)
  {
    s := [];
    var cursor := start;
    for i := 0 to |regions|
      invariant start <= cursor <= stop && Fits(regions[..i], start, cursor)
      invariant cursor == if i == 0 then start else regions[i - 1].end
      invariant s == BuiltFrom(t, regions[..i], start, cursor)
    {
      BuiltOneMore(t, regions, i, start, cursor);
      var r := regions[i];
      s := s + t[cursor..r.start] + r.inserted;
      cursor := r.end;
    }
    assert regions[..|regions|] == regions;
    BuiltKeep(t, regions, start, cursor, stop);
    s := s + t[cursor..stop];
  }

  /** One group as a hunk; none when its regions cancel out. */
  method GroupHunk(t: string, regions: seq<Region>, first: nat, end: nat, skew: int)
      returns (r: Option<ChangeHunk>, ghost lead: nat, ghost trail: nat)
    requires first + skew >= 0
    requires StartOf(t, end) <= |t| && Fits(regions, StartOf(t, first), StartOf(t, end))
    ensures var older := SplitLines(BuiltFrom(t, regions, StartOf(t, first), StartOf(t, end)));
            var newer := SplitLines(t[StartOf(t, first)..StartOf(t, end)]);
            (r.None? <==> older == newer)
            && (r.Some? ==> TrimmedHunk(r.value, older, newer, first, skew, lead, trail))
  {
    var start, stop := StartOf(t, first), StartOf(t, end);
    var oldText := GroupText(t, regions, start, stop);
    var oldLines := Split(oldText);
    var newLines := Split(t[start..stop]);
    var front := CommonLead(oldLines, newLines);
    var back := CommonTrail(oldLines, newLines, front);
    r, lead, trail := TrimLines(oldLines, newLines, front, back, first, skew);
  }

  method TrimLines(oldLines: seq<string>, newLines: seq<string>, front: nat, back: nat, first: nat, skew: int)
      returns (r: Option<ChangeHunk>, ghost lead: nat, ghost trail: nat)
    requires first + skew >= 0 && Trimmed(oldLines, newLines, front, back)
    requires front + back < |oldLines| && front + back < |newLines| ==>
               oldLines[front] != newLines[front] && oldLines[|oldLines| - 1 - back] != newLines[|newLines| - 1 - back]
    ensures r.None? <==> oldLines == newLines
    ensures r.Some? ==> TrimmedHunk(r.value, oldLines, newLines, first, skew, lead, trail)
  {
    lead, trail := front, back;
    var oldKept := oldLines[front..|oldLines| - back];
    var newKept := newLines[front..|newLines| - back];
    if oldKept == [] && newKept == [] {
      SplitAt(oldLines, front);
      SplitAt(newLines, front);
      return None, lead, trail;
    }
    var newStart := first + front;
    return Some(ChangeHunk(newStart + skew, newStart, oldKept, newKept)), lead, trail;
  }

  // ---- The hunks as a patch ----

  function NewEnd(h: ChangeHunk): nat { h.newStart + |h.newLines| }

  /** Hunks in order, a line apart, within the first `upto` lines. */
  ghost predicate Ordered(hunks: seq<ChangeHunk>, upto: nat) {
    && (forall i :: 0 <= i < |hunks| ==> NewEnd(hunks[i]) <= upto)
    && (forall i, j :: 0 <= i < j < |hunks| ==> NewEnd(hunks[i]) < hunks[j].newStart)
  }

  /** The first `upto` lines with each hunk's new lines replaced by its old lines. */
  ghost function Patched(lines: seq<string>, hunks: seq<ChangeHunk>, upto: nat): seq<string>
    requires Ordered(hunks, upto) && upto <= |lines|
    decreases |hunks|
  {
    if hunks == [] then lines[..upto]
    else
      var init, last := hunks[..|hunks| - 1], hunks[|hunks| - 1];
      assert forall i :: 0 <= i < |init| ==> init[i] == hunks[i] && NewEnd(hunks[i]) < last.newStart;
      Patched(lines, init, last.newStart) + last.oldLines + lines[NewEnd(last)..upto]
  }

  /** Each hunk holds the lines it says, where it says, on both sides. */
  ghost predicate PlacedAt(lines: seq<string>, hunks: seq<ChangeHunk>, i: nat)
    requires i < |hunks| && Ordered(hunks, |lines|)
  {
    var h := hunks[i];
    && h.newLines == lines[h.newStart..NewEnd(h)] && (h.oldLines != [] || h.newLines != [])
    && Ordered(hunks[..i], h.newStart) && h.oldStart == |Patched(lines, hunks[..i], h.newStart)|
  }

  ghost predicate Placed(lines: seq<string>, hunks: seq<ChangeHunk>)
    requires Ordered(hunks, |lines|)
  {
    forall i :: 0 <= i < |hunks| ==> PlacedAt(lines, hunks, i)
  }

  ghost predicate HunkAt(newer: seq<string>, older: seq<string>, h: ChangeHunk) {
    && NewEnd(h) <= |newer| && h.newLines == newer[h.newStart..NewEnd(h)]
    && h.oldStart + |h.oldLines| <= |older| && h.oldLines == older[h.oldStart..h.oldStart + |h.oldLines|]
    && (h.oldLines != [] || h.newLines != [])
  }

  /** `hunks` turn the lines `newer` back into the lines `older`, and sit where they say in both. */
  ghost predicate CorrectPatch(newer: seq<string>, older: seq<string>, hunks: seq<ChangeHunk>) {
    && Ordered(hunks, |newer|) && Patched(newer, hunks, |newer|) == older
    && forall i :: 0 <= i < |hunks| ==> HunkAt(newer, older, hunks[i])
  }

  lemma PatchedKeep(lines: seq<string>, hunks: seq<ChangeHunk>, from: nat, upto: nat)
    requires Ordered(hunks, from) && from <= upto <= |lines|
    ensures Ordered(hunks, upto) && Patched(lines, hunks, upto) == Patched(lines, hunks, from) + lines[from..upto]
  {
    if hunks == [] {
      assert lines[..upto] == lines[..from] + lines[from..upto];
    } else {
      var init, last := hunks[..|hunks| - 1], hunks[|hunks| - 1];
      OrderedInit(hunks, init, last, from);
      SliceJoin(lines, NewEnd(last), from, upto);
      Assoc(Patched(lines, init, last.newStart) + last.oldLines, lines[NewEnd(last)..from], lines[from..upto]);
    }
  }

  lemma PatchedPush(lines: seq<string>, hunks: seq<ChangeHunk>, h: ChangeHunk, upto: nat)
    requires Ordered(hunks, h.newStart) && NewEnd(h) <= upto <= |lines|
    requires hunks != [] ==> NewEnd(hunks[|hunks| - 1]) < h.newStart
    ensures Ordered(hunks + [h], upto)
    ensures Patched(lines, hunks + [h], upto) == Patched(lines, hunks, h.newStart) + h.oldLines + lines[NewEnd(h)..upto]
  {
    var all := hunks + [h];
    assert all[..|all| - 1] == hunks;
    forall i | 0 <= i < |hunks| ensures NewEnd(all[i]) < h.newStart {
      if i < |hunks| - 1 { assert NewEnd(hunks[i]) < hunks[|hunks| - 1].newStart; }
    }
  }

  /** A hunk's old lines stand after what the hunks before it leave, in the patched lines. */
  lemma {:induction false} PlacedInOld(lines: seq<string>, hunks: seq<ChangeHunk>, i: nat, upto: nat,
                                       before: seq<ChangeHunk>)
    requires Ordered(hunks, upto) && upto <= |lines| && i < |hunks| && before == hunks[..i]
    ensures Ordered(before, hunks[i].newStart) && hunks[i].newStart <= |lines|
    ensures var at := |Patched(lines, before, hunks[i].newStart)|;
            && at + |hunks[i].oldLines| <= |Patched(lines, hunks, upto)|
            && Patched(lines, hunks, upto)[at..at + |hunks[i].oldLines|] == hunks[i].oldLines
    decreases |hunks|
  {
    var init, last := hunks[..|hunks| - 1], hunks[|hunks| - 1];
    OrderedInit(hunks, init, last, upto);
    var p, q := Patched(lines, init, last.newStart), Patched(lines, hunks, upto);
    assert q == p + last.oldLines + lines[NewEnd(last)..upto];
    if i < |hunks| - 1 {
      assert before == init[..i] && init[i] == hunks[i];
      PlacedInOld(lines, init, i, last.newStart, before);
      InFirst(p, last.oldLines, lines[NewEnd(last)..upto], q, |Patched(lines, before, hunks[i].newStart)|,
          |hunks[i].oldLines|);
    } else {
      assert before == init;
    }
  }

  lemma OrderedInit(hunks: seq<ChangeHunk>, init: seq<ChangeHunk>, last: ChangeHunk, upto: nat)
    requires Ordered(hunks, upto) && hunks == init + [last]
    ensures Ordered(init, last.newStart) && NewEnd(last) <= upto
  {
    assert hunks[|init|] == last;
    forall k | 0 <= k < |init| ensures NewEnd(init[k]) <= last.newStart {
      assert init[k] == hunks[k] && NewEnd(hunks[k]) < hunks[|init|].newStart;
    }
    forall i, j | 0 <= i < j < |init| ensures NewEnd(init[i]) < init[j].newStart {
      assert init[i] == hunks[i] && init[j] == hunks[j];
    }
  }

  lemma InFirst<T>(a: seq<T>, b: seq<T>, c: seq<T>, all: seq<T>, at: nat, n: nat)
    requires all == a + b + c && at + n <= |a|
    ensures at + n <= |all| && all[at..at + n] == a[at..at + n]
  {
  }

  lemma PlacedIsCorrect(lines: seq<string>, hunks: seq<ChangeHunk>)
    requires Ordered(hunks, |lines|) && Placed(lines, hunks)
    ensures CorrectPatch(lines, Patched(lines, hunks, |lines|), hunks)
  {
    forall i | 0 <= i < |hunks| ensures HunkAt(lines, Patched(lines, hunks, |lines|), hunks[i]) {
      assert PlacedAt(lines, hunks, i);
      PlacedInOld(lines, hunks, i, |lines|, hunks[..i]);
    }
  }

  lemma PlacedPush(lines: seq<string>, hunks: seq<ChangeHunk>, h: ChangeHunk)
    requires Ordered(hunks, h.newStart) && NewEnd(h) <= |lines| && Ordered(hunks, |lines|) && Placed(lines, hunks)
    requires hunks != [] ==> NewEnd(hunks[|hunks| - 1]) < h.newStart
    requires h.newLines == lines[h.newStart..NewEnd(h)] && (h.oldLines != [] || h.newLines != [])
    requires h.oldStart == |Patched(lines, hunks, h.newStart)|
    ensures Ordered(hunks + [h], |lines|) && Placed(lines, hunks + [h])
  {
    PatchedPush(lines, hunks, h, |lines|);
    var all := hunks + [h];
    forall i | 0 <= i < |all| ensures PlacedAt(lines, all, i) {
      if i < |hunks| {
        assert PlacedAt(lines, hunks, i) && all[i] == hunks[i] && all[..i] == hunks[..i];
      } else {
        assert all[..i] == hunks;
      }
    }
  }

  // ---- From groups to hunks ----

  /** The hunks so far turn the first `e` lines into the lines of the text `built` so far. */
  ghost predicate EmittedTo(lines: seq<string>, hunks: seq<ChangeHunk>, e: nat, skew: int, built: string) {
    && e <= |lines| && Ordered(hunks, e) && Ordered(hunks, |lines|) && Placed(lines, hunks)
    && Whole(built) && SplitLines(built) == Patched(lines, hunks, e) && |SplitLines(built)| == e + skew
  }

  /** The state of the emission after the regions before `hi`, which touch no line from `e` on. */
  ghost predicate Emitted(t: string, regions: seq<Region>, hi: nat, e: nat, hunks: seq<ChangeHunk>, skew: int) {
    && hi <= |regions| && e <= LineOf(t, |t|) == |SplitLines(t)| && StartOf(t, e) <= |t|
        && Fits(regions[..hi], 0, StartOf(t, e))
    && EmittedTo(SplitLines(t), hunks, e, skew, BuiltFrom(t, regions[..hi], 0, StartOf(t, e)))
  }

  lemma RegionsBetween(t: string, regions: seq<Region>, lo: nat, hi: nat, from: nat, upto: nat)
    requires Fits(regions, 0, |t|) && lo < hi <= |regions|
    requires from <= regions[lo].start && regions[hi - 1].end <= upto
    ensures Fits(regions[lo..hi], from, upto)
  {
    forall i | lo <= i < hi ensures from <= regions[i].start && regions[i].end <= upto {
      assert i == lo || regions[lo].end < regions[i].start;
      assert i == hi - 1 || regions[i].end < regions[hi - 1].start;
    }
  }

  lemma LineHolds(t: string, p: nat)
    requires p <= |t|
    ensures LineOf(t, p) <= LineOf(t, |t|) && StartOf(t, LineOf(t, p)) <= p
  {
    LineOfMonotone(t, p, |t|);
    StartFacts(t, LineOf(t, p));
  }

  lemma StartMonotone(t: string, a: nat, b: nat)
    requires a <= b <= LineOf(t, |t|)
    ensures StartOf(t, a) <= StartOf(t, b) <= |t|
    ensures a < b ==> StartOf(t, a) < StartOf(t, b)
  {
    StartFacts(t, a);
    StartFacts(t, b);
  }

  /** A group spans the lines its regions touch. */
  ghost predicate Spans(t: string, regions: seq<Region>, g: Group)
    requires Fits(regions, 0, |t|)
  {
    && g.lo < g.hi <= |regions|
    && g.first == LineOf(t, regions[g.lo].start) && g.end == AffectedLines(regions[g.hi - 1], t).end
  }

  lemma FirstBeforeLast(t: string, regions: seq<Region>, lo: nat, hi: nat)
    requires Fits(regions, 0, |t|) && lo < hi <= |regions|
    ensures LineOf(t, regions[lo].start) <= LineOf(t, regions[hi - 1].end)
  {
    assert lo == hi - 1 || regions[lo].end < regions[hi - 1].start;
    LineOfMonotone(t, regions[lo].start, regions[hi - 1].end);
  }

  /** A group's regions lie between the starts of the lines it spans. */
  lemma GroupFits(t: string, regions: seq<Region>, g: Group)
    requires Edits(t, regions) && Spans(t, regions, g)
    ensures g.first <= g.end <= LineOf(t, |t|)
    ensures StartOf(t, g.first) <= StartOf(t, g.end) <= |t|
    ensures Fits(regions[g.lo..g.hi], StartOf(t, g.first), StartOf(t, g.end))
  {
    AffectedWithin(t, regions, g.hi - 1);
    LineHolds(t, regions[g.lo].start);
    FirstBeforeLast(t, regions, g.lo, g.hi);
    StartMonotone(t, g.first, g.end);
    RegionsBetween(t, regions, g.lo, g.hi, StartOf(t, g.first), StartOf(t, g.end));
  }

  /** The text up to a place after the last region: what was kept before it, what it inserted, what follows. */
  lemma BuiltParts(t: string, init: seq<Region>, r: Region, all: seq<Region>, stop: nat) returns (kept: string)
    requires all == init + [r] && Fits(all, 0, stop) && stop <= |t|
    ensures r.start <= r.end <= stop && BuiltFrom(t, all, 0, stop) == kept + r.inserted + t[r.end..stop]
    ensures r.start == 0 ==> kept == []
    ensures r.start > 0 ==> kept != [] && kept[|kept| - 1] == t[r.start - 1]
  {
    BuiltUnfold(t, init, r, 0, stop, all);
    LastBefore(init, r, all);
    kept := BuiltFrom(t, init, 0, r.start);
    KeptEnds(t, init, r, kept);
  }

  lemma KeptEnds(t: string, init: seq<Region>, r: Region, kept: string)
    requires Fits(init, 0, r.start) && r.start <= |t| && kept == BuiltFrom(t, init, 0, r.start)
    requires init != [] ==> init[|init| - 1].end < r.start
    ensures r.start == 0 ==> kept == []
    ensures r.start > 0 ==> kept != [] && kept[|kept| - 1] == t[r.start - 1]
  {
    if r.start > 0 { BuiltLast(t, init, 0, r.start); } else { NothingBefore(t, init, r); }
  }

  /** What a group leaves up to the end of its lines is whole lines. */
  lemma GroupWhole(t: string, r: Region, kept: string, stop: nat, built: string)
    requires r.start <= r.end <= stop <= |t| && built == kept + r.inserted + t[r.end..stop]
    requires r.start == 0 ==> kept == []
    requires r.start > 0 ==> kept != [] && kept[|kept| - 1] == t[r.start - 1]
    requires r.end < stop ==> t[stop - 1] == '\n'
    requires r.end == stop ==> BeforeEnd(r, t).None? || BeforeEnd(r, t).value == '\n'
    ensures Whole(built)
  {
    if r.end < stop { LastOf(t, r.end, stop); }
    WholeEnds(kept, r.inserted, t[r.end..stop], built);
  }

  lemma LastOf(t: string, from: nat, upto: nat)
    requires from < upto <= |t|
    ensures |t[from..upto]| > 0 && t[from..upto][|t[from..upto]| - 1] == t[upto - 1]
  {
  }

  lemma NothingBefore(t: string, init: seq<Region>, r: Region)
    requires Fits(init, 0, r.start) && r.start == 0 <= |t| && (init != [] ==> init[|init| - 1].end < r.start)
    ensures BuiltFrom(t, init, 0, r.start) == []
  {
  }

  lemma WholeEnds(a: string, b: string, c: string, built: string)
    requires built == a + b + c
    requires if c != [] then c[|c| - 1] == '\n' else if b != [] then b[|b| - 1] == '\n' else Whole(a)
    ensures Whole(built)
  {
    if c != [] {
      assert built[|built| - 1] == c[|c| - 1];
    } else if b != [] {
      assert built[|built| - 1] == b[|b| - 1];
    } else {
      assert built == a;
    }
  }

  lemma StopIsLineStart(t: string, r: Region)
    requires EndsInNewline(t) && r.start <= r.end <= |t| && r.end < StartOf(t, AffectedLines(r, t).end) <= |t|
    ensures t[StartOf(t, AffectedLines(r, t).end) - 1] == '\n'
  {
    var end := AffectedLines(r, t).end;
    if end <= LineOf(t, |t|) { StartFacts(t, end); } else { StartPastEnd(t, end); }
  }

  lemma BeforeEndBreak(t: string, init: seq<Region>, r: Region, all: seq<Region>, regions: seq<Region>)
    requires all == init + [r] && all <= regions && Edits(t, regions) && r.start <= r.end <= |t|
    requires r.end == StartOf(t, AffectedLines(r, t).end)
    ensures BeforeEnd(r, t).None? || BeforeEnd(r, t).value == '\n'
  {
    if r.end < |t| {
      NextLineStart(t, r.end);
    } else {
      assert regions[|init|] == all[|init|];
      OnlyLastReachesEnd(t, regions, |init|);
      assert regions == all;
      EndIntact(t, init, r, all);
    }
  }

  /** The texts before and after one more group: kept lines, then the group's own. */
  lemma BuiltApart(t: string, before: seq<Region>, own: seq<Region>, all: seq<Region>, e: nat, first: nat, end: nat)
    requires all == before + own && Fits(before, 0, e) && e <= first <= end <= |t| && Fits(own, first, end)
    requires before != [] && own != [] ==> before[|before| - 1].end < own[0].start
    ensures Fits(all, 0, end)
    ensures BuiltFrom(t, all, 0, end) == BuiltFrom(t, before, 0, e) + t[e..first] + BuiltFrom(t, own, first, end)
  {
    BuiltKeep(t, before, 0, e, first);
    BuiltSplit(t, before, own, 0, first, end, all);
  }

  lemma BuiltGroupWhole(t: string, regions: seq<Region>, g: Group)
    requires Edits(t, regions) && Spans(t, regions, g) && StartOf(t, g.end) <= |t|
    requires Fits(regions[..g.hi], 0, StartOf(t, g.end))
    ensures Whole(BuiltFrom(t, regions[..g.hi], 0, StartOf(t, g.end)))
  {
    var init, r, all := regions[..g.hi - 1], regions[g.hi - 1], regions[..g.hi];
    assert all == init + [r];
    var stop := StartOf(t, g.end);
    AffectedWithin(t, regions, g.hi - 1);
    StopKeepsLines(t, init, r, all, regions, stop);
    var kept := BuiltParts(t, init, r, all, stop);
    GroupWhole(t, r, kept, stop, BuiltFrom(t, all, 0, stop));
  }

  lemma StopKeepsLines(t: string, init: seq<Region>, r: Region, all: seq<Region>, regions: seq<Region>, stop: nat)
    requires all == init + [r] && all <= regions && Edits(t, regions) && r.start <= r.end <= stop <= |t|
    requires stop == StartOf(t, AffectedLines(r, t).end)
    ensures r.end < stop ==> t[stop - 1] == '\n'
    ensures r.end == stop ==> BeforeEnd(r, t).None? || BeforeEnd(r, t).value == '\n'
  {
    if r.end < stop { StopIsLineStart(t, r); } else { BeforeEndBreak(t, init, r, all, regions); }
  }

  /** The texts before and after one more group, kept lines between. */
  lemma GroupBuilt(t: string, regions: seq<Region>, e: nat, g: Group, before: seq<Region>, own: seq<Region>,
                   all: seq<Region>,
                   from: nat, first: nat, end: nat)
    requires Edits(t, regions) && Spans(t, regions, g) && e <= g.first
    requires before == regions[..g.lo] && own == regions[g.lo..g.hi] && all == regions[..g.hi]
    requires from == StartOf(t, e) && first == StartOf(t, g.first) && end == StartOf(t, g.end)
    requires from <= |t| && Fits(before, 0, from)
    ensures g.first <= g.end <= LineOf(t, |t|) && from <= first <= end <= |t|
    ensures Fits(own, first, end) && Fits(all, 0, end)
    ensures BuiltFrom(t, all, 0, end) == BuiltFrom(t, before, 0, from) + t[from..first] + BuiltFrom(t, own, first, end)
  {
    GroupPlaces(t, regions, e, g, own, from, first, end);
    SliceParts(t, regions, g.lo, g.hi, before, own, all);
    BuiltApart(t, before, own, all, from, first, end);
  }

  lemma GroupPlaces(t: string, regions: seq<Region>, e: nat, g: Group, own: seq<Region>, from: nat, first: nat,
                    end: nat)
    requires Edits(t, regions) && Spans(t, regions, g) && e <= g.first && own == regions[g.lo..g.hi]
    requires from == StartOf(t, e) && first == StartOf(t, g.first) && end == StartOf(t, g.end)
    ensures g.first <= g.end <= LineOf(t, |t|) && from <= first <= end <= |t| && Fits(own, first, end)
  {
    GroupFits(t, regions, g);
    StartMonotone(t, e, g.first);
  }

  lemma SliceParts(t: string, regions: seq<Region>, lo: nat, hi: nat, before: seq<Region>, own: seq<Region>,
                   all: seq<Region>)
    requires Fits(regions, 0, |t|) && lo < hi <= |regions|
    requires before == regions[..lo] && own == regions[lo..hi] && all == regions[..hi]
    ensures all == before + own && (before != [] && own != [] ==> before[|before| - 1].end < own[0].start)
  {
    assert lo > 0 ==> regions[lo - 1].end < regions[lo].start;
  }

  /** The lines before and after one more group. */
  lemma GroupLines(t: string, regions: seq<Region>, e: nat, g: Group, before: seq<Region>, own: seq<Region>,
                   all: seq<Region>,
                   from: nat, first: nat, end: nat)
    requires Edits(t, regions) && Spans(t, regions, g) && e <= g.first
    requires before == regions[..g.lo] && own == regions[g.lo..g.hi] && all == regions[..g.hi]
    requires from == StartOf(t, e) && first == StartOf(t, g.first) && end == StartOf(t, g.end)
    requires from <= |t| && Fits(before, 0, from) && Whole(BuiltFrom(t, before, 0, from))
    ensures g.first <= g.end <= LineOf(t, |t|) == |SplitLines(t)| && from <= first <= end <= |t|
    ensures Fits(own, first, end) && Fits(all, 0, end) && Whole(BuiltFrom(t, all, 0, end))
    ensures SplitLines(t[first..end]) == SplitLines(t)[g.first..g.end]
    ensures SplitLines(BuiltFrom(t, all, 0, end))
         == SplitLines(BuiltFrom(t, before, 0, from)) + SplitLines(t)[e..g.first]
             + SplitLines(BuiltFrom(t, own, first, end))
  {
    GroupBuilt(t, regions, e, g, before, own, all, from, first, end);
    BuiltGroupWhole(t, regions, g);
    SplitCount(t);
    GroupStretch(t, before, own, all, e, g.first, g.end, from, first, end);
  }

  /** Three stretches of the new text, each of whole lines, split each on its own. */
  lemma GroupStretch(t: string, before: seq<Region>, own: seq<Region>, all: seq<Region>, e: nat, f: nat, g: nat,
                     from: nat,
                     first: nat, end: nat)
    requires EndsInNewline(t) && e <= f <= g <= LineOf(t, |t|)
             && from == StartOf(t, e) <= first == StartOf(t, f) <= end == StartOf(t, g) <= |t|
    requires Fits(before, 0, from) && Fits(own, first, end) && Fits(all, 0, end) && Whole(BuiltFrom(t, before, 0, from))
    requires BuiltFrom(t, all, 0, end) == BuiltFrom(t, before, 0, from) + t[from..first] + BuiltFrom(t, own, first, end)
    ensures g <= |SplitLines(t)| && SplitLines(t[first..end]) == SplitLines(t)[f..g]
    ensures SplitLines(BuiltFrom(t, all, 0, end))
         == SplitLines(BuiltFrom(t, before, 0, from)) + SplitLines(t)[e..f] + SplitLines(BuiltFrom(t, own, first, end))
  {
    StretchLines(t, e, f, from, first);
    StretchLines(t, f, g, first, end);
    SplitThreeParts(BuiltFrom(t, before, 0, from), t[from..first], BuiltFrom(t, own, first, end));
  }

  /** The text between two line starts splits into the lines between them. */
  lemma StretchLines(t: string, a: nat, b: nat, from: nat, upto: nat)
    requires Whole(t) && a <= b <= LineOf(t, |t|) && from == StartOf(t, a) <= upto == StartOf(t, b) <= |t|
    ensures b <= |SplitLines(t)| && Whole(t[from..upto]) && SplitLines(t[from..upto]) == SplitLines(t)[a..b]
  {
    StartFacts(t, a);
    StartFacts(t, b);
    SplitPart(t, from, upto);
    PartCount(t, from, upto);
  }

  lemma SplitThreeParts(a: string, b: string, c: string)
    requires Whole(a) && Whole(b)
    ensures SplitLines(a + b + c) == SplitLines(a) + SplitLines(b) + SplitLines(c)
  {
    Assoc(a, b, c);
    SplitConcat(a, b + c);
    SplitConcat(b, c);
    Assoc(SplitLines(a), SplitLines(b), SplitLines(c));
  }

  // ---- Emitting, on lines alone ----

  lemma EmitNone(lines: seq<string>, hunks: seq<ChangeHunk>, e: nat, first: nat, end: nat)
    requires Ordered(hunks, e) && e <= first <= end <= |lines|
    ensures Ordered(hunks, end)
    ensures Patched(lines, hunks, e) + lines[e..first] + lines[first..end] == Patched(lines, hunks, end)
  {
    PatchedKeep(lines, hunks, e, end);
    SliceJoin(lines, e, first, end);
    Assoc(Patched(lines, hunks, e), lines[e..first], lines[first..end]);
  }

  lemma EmitSome(lines: seq<string>, hunks: seq<ChangeHunk>, e: nat, first: nat, end: nat, skew: int,
                 h: ChangeHunk, older: seq<string>, lead: nat, trail: nat)
    requires Ordered(hunks, e) && Ordered(hunks, |lines|) && Placed(lines, hunks) && e <= first <= end <= |lines|
    requires hunks != [] ==> e < first
    requires TrimmedHunk(h, older, lines[first..end], first, skew, lead, trail)
    requires |Patched(lines, hunks, e)| == e + skew
    ensures Ordered(hunks + [h], end) && Ordered(hunks + [h], |lines|) && Placed(lines, hunks + [h])
    ensures Patched(lines, hunks, e) + lines[e..first] + older == Patched(lines, hunks + [h], end)
  {
    EmitPieces(lines, first, end, older, lead, trail);
    EmitPlaced(lines, hunks, e, first, h, end - trail, skew);
    EmitLines(lines, hunks, e, first, h, end, older[..lead], older);
  }

  lemma EmitPlaced(lines: seq<string>, hunks: seq<ChangeHunk>, e: nat, first: nat, h: ChangeHunk, newEnd: nat,
                   skew: int)
    requires Ordered(hunks, e) && Ordered(hunks, |lines|) && Placed(lines, hunks)
             && e <= first <= h.newStart <= newEnd <= |lines|
    requires hunks != [] ==> e < first
    requires h.newLines == lines[h.newStart..newEnd] && (h.oldLines != [] || h.newLines != [])
    requires h.oldStart == h.newStart + skew && |Patched(lines, hunks, e)| == e + skew
    ensures Ordered(hunks, h.newStart) && NewEnd(h) == newEnd
    ensures Ordered(hunks + [h], |lines|) && Placed(lines, hunks + [h])
  {
    PatchedKeep(lines, hunks, e, h.newStart);
    PlacedPush(lines, hunks, h);
  }

  lemma EmitLines(lines: seq<string>, hunks: seq<ChangeHunk>, e: nat, first: nat, h: ChangeHunk, end: nat,
                  lead: seq<string>, older: seq<string>)
    requires Ordered(hunks, e) && e <= first <= h.newStart <= NewEnd(h) <= end <= |lines|
    requires hunks != [] ==> e < first
    requires lines[first..h.newStart] == lead && older == lead + h.oldLines + lines[NewEnd(h)..end]
    ensures Ordered(hunks + [h], end)
    ensures Patched(lines, hunks, e) + lines[e..first] + older == Patched(lines, hunks + [h], end)
  {
    PatchedKeep(lines, hunks, e, h.newStart);
    PatchedPush(lines, hunks, h, end);
    SliceJoin(lines, e, first, h.newStart);
    EmitJoin(Patched(lines, hunks, e), lines[e..first], lead, h.oldLines, lines[NewEnd(h)..end]);
  }

  lemma SliceJoin<T>(s: seq<T>, a: nat, b: nat, c: nat)
    requires a <= b <= c <= |s|
    ensures s[a..c] == s[a..b] + s[b..c]
  {
  }

  lemma EmitJoin<T>(p: seq<T>, gap: seq<T>, lead: seq<T>, mid: seq<T>, trail: seq<T>)
    ensures p + gap + (lead + mid + trail) == p + (gap + lead) + mid + trail
  {
  }

  lemma EmitPieces(lines: seq<string>, first: nat, end: nat, older: seq<string>, lead: nat, trail: nat)
    requires first <= end <= |lines| && Trimmed(older, lines[first..end], lead, trail)
    ensures older == older[..lead] + older[lead..|older| - trail] + lines[end - trail..end]
    ensures lines[first..first + lead] == older[..lead]
    ensures lines[first..end][lead..end - first - trail] == lines[first + lead..end - trail]
  {
    var newer := lines[first..end];
    SliceSlice(lines, first, end, |newer| - trail, |newer|);
    SliceSlice(lines, first, end, 0, lead);
    SliceSlice(lines, first, end, lead, |newer| - trail);
    SliceJoin(older, 0, lead, |older| - trail);
    SliceJoin(older, 0, |older| - trail, |older|);
  }

  // ---- The whole computation ----

  /** Chars of the lines `first..end` plus those of the lines the regions turn them into. */
  method GroupChars(t: string, regions: seq<Region>, first: nat, end: nat) returns (n: nat)
    requires StartOf(t, end) <= |t| && Fits(regions, StartOf(t, first), StartOf(t, end))
    ensures n == StartOf(t, end) - StartOf(t, first) + |BuiltFrom(t, regions, StartOf(t, first), StartOf(t, end))|
  {
    var newer := StartOf(t, end) - StartOf(t, first);
    var older: int := newer;
    ghost var start, stop := StartOf(t, first), StartOf(t, end);
    for i := 0 to |regions|
      invariant Measured(t, regions, i, start, stop, older)
    {
      MeasureOne(t, regions, i, start, stop, older);
      older := older + |regions[i].inserted| - (regions[i].end - regions[i].start);
    }
    MeasuredAll(t, regions, start, stop, older);
    n := newer + older;
  }

  /** Where the first `i` regions end. */
  ghost function EndOf(regions: seq<Region>, i: nat, start: nat): nat
    requires i <= |regions|
  {
    if i == 0 then start else regions[i - 1].end
  }

  /** `older` counts the first `i` regions as built, what follows them as it stands. */
  ghost predicate Measured(t: string, regions: seq<Region>, i: nat, start: nat, stop: nat, older: int)
    requires i <= |regions|
  {
    var at := EndOf(regions, i, start);
    && at <= stop <= |t| && Fits(regions[..i], start, at)
    && older == stop - at + |BuiltFrom(t, regions[..i], start, at)|
  }

  lemma MeasureOne(t: string, regions: seq<Region>, i: nat, start: nat, stop: nat, older: int)
    requires i < |regions| && Fits(regions, start, stop) && Measured(t, regions, i, start, stop, older)
    ensures Measured(t, regions, i + 1, start, stop,
                     older + |regions[i].inserted| - (regions[i].end - regions[i].start))
  {
    BuiltOneMore(t, regions, i, start, EndOf(regions, i, start));
  }

  lemma MeasuredAll(t: string, regions: seq<Region>, start: nat, stop: nat, older: int)
    requires Fits(regions, start, stop) && Measured(t, regions, |regions|, start, stop, older)
    ensures older == |BuiltFrom(t, regions, start, stop)|
  {
    assert regions[..|regions|] == regions;
    BuiltKeep(t, regions, start, EndOf(regions, |regions|, start), stop);
  }

  lemma BuiltOneMore(t: string, regions: seq<Region>, i: nat, from: nat, at: nat)
    requires i < |regions| && Fits(regions, from, |t|) && at == (if i == 0 then from else regions[i - 1].end)
    requires Fits(regions[..i], from, at)
    ensures at <= regions[i].start && Fits(regions[..i + 1], from, regions[i].end)
    ensures BuiltFrom(t, regions[..i + 1], from, regions[i].end)
         == BuiltFrom(t, regions[..i], from, at) + t[at..regions[i].start] + regions[i].inserted
  {
    var r := regions[i];
    assert i == 0 || regions[i - 1].end < r.start;
    assert regions[..i + 1] == regions[..i] + [r];
    BuiltKeep(t, regions[..i], from, at, r.start);
    BuiltPush(t, regions[..i], from, r, regions[..i + 1]);
  }

  lemma EmittedStep(t: string, regions: seq<Region>, hi: nat, e: nat, hunks: seq<ChangeHunk>, skew: int, g: Group,
                    r: Option<ChangeHunk>, lead: nat, trail: nat)
    requires Edits(t, regions) && Emitted(t, regions, hi, e, hunks, skew)
    requires Spans(t, regions, g) && g.lo == hi && e <= g.first && (hunks != [] ==> e < g.first)
    requires StartOf(t, g.end) <= |t| && Fits(regions[hi..g.hi], StartOf(t, g.first), StartOf(t, g.end))
    requires var older := SplitLines(BuiltFrom(t, regions[hi..g.hi], StartOf(t, g.first), StartOf(t, g.end)));
             var newer := SplitLines(t[StartOf(t, g.first)..StartOf(t, g.end)]);
             if r.None? then older == newer else TrimmedHunk(r.value, older, newer, g.first, skew, lead, trail)
    ensures r.None? ==> Emitted(t, regions, g.hi, g.end, hunks, skew)
    ensures r.Some? ==> Emitted(t, regions, g.hi, g.end, hunks + [r.value],
            skew + |r.value.oldLines| - |r.value.newLines|)
  {
    GroupLines(t, regions, e, g, regions[..hi], regions[hi..g.hi], regions[..g.hi], StartOf(t, e),
        StartOf(t, g.first), StartOf(t, g.end));
    var lines, before := SplitLines(t), BuiltFrom(t, regions[..hi], 0, StartOf(t, e));
    var after := BuiltFrom(t, regions[..g.hi], 0, StartOf(t, g.end));
    var older := SplitLines(BuiltFrom(t, regions[hi..g.hi], StartOf(t, g.first), StartOf(t, g.end)));
    if r.None? {
      StepNone(lines, hunks, e, g.first, g.end, skew, before, after, older);
    } else {
      StepSome(lines, hunks, e, g.first, g.end, skew, r.value, older, lead, trail, before, after);
    }
  }

  lemma StepNone(lines: seq<string>, hunks: seq<ChangeHunk>, e: nat, first: nat, end: nat, skew: int, before: string,
                 after: string,
                 older: seq<string>)
    requires EmittedTo(lines, hunks, e, skew, before) && e <= first <= end <= |lines| && older == lines[first..end]
    requires Whole(after) && SplitLines(after) == SplitLines(before) + lines[e..first] + older
    ensures EmittedTo(lines, hunks, end, skew, after)
  {
    EmitNone(lines, hunks, e, first, end);
  }

  lemma StepSome(lines: seq<string>, hunks: seq<ChangeHunk>, e: nat, first: nat, end: nat, skew: int, h: ChangeHunk,
                 older: seq<string>, lead: nat, trail: nat, before: string, after: string)
    requires EmittedTo(lines, hunks, e, skew, before) && e <= first <= end <= |lines| && (hunks != [] ==> e < first)
    requires TrimmedHunk(h, older, lines[first..end], first, skew, lead, trail)
    requires Whole(after) && SplitLines(after) == SplitLines(before) + lines[e..first] + older
    ensures EmittedTo(lines, hunks + [h], end, skew + |h.oldLines| - |h.newLines|, after)
  {
    EmitSome(lines, hunks, e, first, end, skew, h, older, lead, trail);
  }

  /** After the last group only kept lines follow. */
  lemma EmittedEnd(t: string, regions: seq<Region>, e: nat, hunks: seq<ChangeHunk>, skew: int)
    requires Edits(t, regions) && Emitted(t, regions, |regions|, e, hunks, skew)
    ensures CorrectPatch(SplitLines(t), SplitLines(BuiltFrom(t, regions, 0, |t|)), hunks)
  {
    var lines, n, from := SplitLines(t), |SplitLines(t)|, StartOf(t, e);
    assert regions[..|regions|] == regions;
    StartFacts(t, e);
    var before, tail := BuiltFrom(t, regions, 0, from), t[from..|t|];
    BuiltKeep(t, regions, 0, from, |t|);
    SplitConcat(before, tail);
    SplitPart(t, from, |t|);
    PatchedKeep(lines, hunks, e, n);
    PlacedIsCorrect(lines, hunks);
  }

  lemma EmittedStart(t: string, regions: seq<Region>)
    requires Edits(t, regions)
    ensures Emitted(t, regions, 0, 0, [], 0)
  {
    SplitCount(t);
    StartFacts(t, 0);
    assert BuiltFrom(t, [], 0, 0) == [];
    assert regions[..0] == [];
  }

  /** The groups of a change's regions by the lines they touch. */
  ghost predicate GroupsOf(t: string, regions: seq<Region>, groups: seq<Group>, upto: nat)
    requires Fits(regions, 0, |t|)
  {
    && (forall k :: 0 <= k < |groups| ==> Spans(t, regions, groups[k]) && Tied(t, regions, groups[k]))
    && (groups == [] ==> upto == 0)
    && (groups != [] ==> groups[0].lo == 0 && groups[|groups| - 1].hi == upto)
    && (forall j, k :: 0 <= j < k < |groups| && k == j + 1 ==>
          groups[j].hi == groups[k].lo && groups[j].end < groups[k].first)
  }

  /** The regions of one group touch lines that overlap or follow one another. */
  ghost predicate Tied(t: string, regions: seq<Region>, g: Group)
    requires Fits(regions, 0, |t|) && g.hi <= |regions|
  {
    forall j, k :: g.lo <= j < k < g.hi && k == j + 1 ==>
      AffectedLines(regions[k], t).first <= AffectedLines(regions[j], t).end
  }

  // ---- Hunks by group ----

  /** The lines a group turns its own into. */
  ghost function OlderLines(t: string, regions: seq<Region>, g: Group): seq<string>
    requires Edits(t, regions) && Spans(t, regions, g)
  {
    GroupFits(t, regions, g);
    SplitLines(BuiltFrom(t, regions[g.lo..g.hi], StartOf(t, g.first), StartOf(t, g.end)))
  }

  ghost function NewerLines(t: string, g: Group): seq<string> {
    if g.first <= g.end <= |SplitLines(t)| then SplitLines(t)[g.first..g.end] else []
  }

  /** A hunk is its group's lines, the same ones at both ends left out. */
  ghost predicate HunkOf(older: seq<string>, newer: seq<string>, first: nat, h: ChangeHunk) {
    && first <= h.newStart && NewEnd(h) <= first + |newer|
    && TrimmedHunk(h, older, newer, first, h.oldStart - h.newStart, h.newStart - first, first + |newer| - NewEnd(h))
  }

  /** One hunk for each of the first `n` groups that changes its lines, in order. */
  ghost predicate HunksOf(t: string, regions: seq<Region>, groups: seq<Group>, n: nat, hunks: seq<ChangeHunk>)
    requires Edits(t, regions) && n <= |groups| && forall k :: 0 <= k < |groups| ==> Spans(t, regions, groups[k])
    decreases n
  {
    if n == 0 then hunks == []
    else
      var g := groups[n - 1];
      var older, newer := OlderLines(t, regions, g), NewerLines(t, g);
      if older == newer then HunksOf(t, regions, groups, n - 1, hunks)
      else hunks != [] && HunkOf(older, newer, g.first, hunks[|hunks| - 1])
           && HunksOf(t, regions, groups, n - 1, hunks[..|hunks| - 1])
  }

  lemma HunksNone(t: string, regions: seq<Region>, groups: seq<Group>, n: nat, hunks: seq<ChangeHunk>)
    requires Edits(t, regions) && n < |groups| && forall k :: 0 <= k < |groups| ==> Spans(t, regions, groups[k])
    requires HunksOf(t, regions, groups, n, hunks) && OlderLines(t, regions, groups[n]) == NewerLines(t, groups[n])
    ensures HunksOf(t, regions, groups, n + 1, hunks)
  {
  }

  lemma HunksMore(t: string, regions: seq<Region>, groups: seq<Group>, n: nat, hunks: seq<ChangeHunk>, h: ChangeHunk,
                  more: seq<ChangeHunk>)
    requires Edits(t, regions) && n < |groups| && forall k :: 0 <= k < |groups| ==> Spans(t, regions, groups[k])
    requires HunksOf(t, regions, groups, n, hunks) && more == hunks + [h]
    requires var (older, newer) := (OlderLines(t, regions, groups[n]), NewerLines(t, groups[n]));
             older != newer && HunkOf(older, newer, groups[n].first, h)
    ensures HunksOf(t, regions, groups, n + 1, more)
  {
    assert more[..|more| - 1] == hunks;
  }

  lemma TrimmedIsHunkOf(older: seq<string>, newer: seq<string>, first: nat, skew: int, lead: nat, trail: nat,
                        h: ChangeHunk)
    requires TrimmedHunk(h, older, newer, first, skew, lead, trail)
    ensures HunkOf(older, newer, first, h)
  {
  }

  ghost function SpannedBy(t: string, regions: seq<Region>, g: Group): nat
    requires Edits(t, regions) && Spans(t, regions, g)
  {
    GroupFits(t, regions, g);
    StartOf(t, g.end) - StartOf(t, g.first) + |BuiltFrom(t, regions[g.lo..g.hi], StartOf(t, g.first),
        StartOf(t, g.end))|
  }

  /** Chars of the lines all groups span, both sides counted. */
  ghost function TotalSpanned(t: string, regions: seq<Region>, groups: seq<Group>): nat
    requires Edits(t, regions) && forall k :: 0 <= k < |groups| ==> Spans(t, regions, groups[k])
  {
    if groups == [] then 0
    else TotalSpanned(t, regions, groups[..|groups| - 1]) + SpannedBy(t, regions, groups[|groups| - 1])
  }

  method MeasureGroups(t: string, regions: seq<Region>, groups: seq<Group>) returns (n: nat)
    requires Edits(t, regions) && forall k :: 0 <= k < |groups| ==> Spans(t, regions, groups[k])
    ensures n == TotalSpanned(t, regions, groups)
  {
    n := 0;
    for k := 0 to |groups|
      invariant n == TotalSpanned(t, regions, groups[..k])
    {
      var g := groups[k];
      GroupFits(t, regions, g);
      assert groups[..k + 1][..k] == groups[..k];
      var c := GroupChars(t, regions[g.lo..g.hi], g.first, g.end);
      n := n + c;
    }
    assert groups[..|groups|] == groups;
  }

  method RegionGroups(t: string, regions: seq<Region>) returns (groups: seq<Group>)
    requires Fits(regions, 0, |t|)
    ensures GroupsOf(t, regions, groups, |regions|)
  {
    var lines: seq<LineSpan> := [];
    for i := 0 to |regions|
      invariant |lines| == i && forall k :: 0 <= k < i ==> lines[k] == AffectedLines(regions[k], t)
    {
      lines := lines + [AffectedLines(regions[i], t)];
    }
    forall i, j | 0 <= i < j < |lines| ensures lines[i].first <= lines[j].first && lines[i].end <= lines[j].end {
      AffectedAscend(t, regions, i, j);
    }
    groups := GroupRegions(lines);
    forall k | 0 <= k < |groups| ensures Spans(t, regions, groups[k]) && Tied(t, regions, groups[k]) {
      assert GroupAt(groups[k], lines);
      GroupTied(t, regions, lines, groups[k]);
    }
  }

  lemma GroupTied(t: string, regions: seq<Region>, lines: seq<LineSpan>, g: Group)
    requires Fits(regions, 0, |t|) && |lines| == |regions| && GroupAt(g, lines)
    requires forall k :: 0 <= k < |lines| ==> lines[k] == AffectedLines(regions[k], t)
    ensures Tied(t, regions, g)
  {
    forall j, k | g.lo <= j < k < g.hi && k == j + 1
      ensures AffectedLines(regions[k], t).first <= AffectedLines(regions[j], t).end
    {
      assert lines[k].first <= lines[j].end;
    }
  }

  method EmitHunks(t: string, regions: seq<Region>, groups: seq<Group>) returns (hunks: seq<ChangeHunk>)
    requires Edits(t, regions) && GroupsOf(t, regions, groups, |regions|)
    ensures CorrectPatch(SplitLines(t), SplitLines(BuiltFrom(t, regions, 0, |t|)), hunks)
    ensures HunksOf(t, regions, groups, |groups|, hunks)
  {
    hunks := [];
    var skew := 0;
    EmittedStart(t, regions);
    for k := 0 to |groups|
      invariant Emitting(t, regions, groups, k, hunks, skew)
    {
      hunks, skew := EmitOne(t, regions, groups, k, hunks, skew);
    }
    EmittedEnd(t, regions, EndBefore(groups, |groups|), hunks, skew);
  }

  function RegionsBefore(groups: seq<Group>, k: nat): nat
    requires k <= |groups|
  {
    if k == 0 then 0 else groups[k - 1].hi
  }

  function EndBefore(groups: seq<Group>, k: nat): nat
    requires k <= |groups|
  {
    if k == 0 then 0 else groups[k - 1].end
  }

  /** The loop's state before group `k`. */
  ghost predicate Emitting(t: string, regions: seq<Region>, groups: seq<Group>, k: nat, hunks: seq<ChangeHunk>,
                           skew: int)
    requires Edits(t, regions) && k <= |groups| && forall j :: 0 <= j < |groups| ==> Spans(t, regions, groups[j])
  {
    && Emitted(t, regions, RegionsBefore(groups, k), EndBefore(groups, k), hunks, skew)
    && HunksOf(t, regions, groups, k, hunks)
  }

  /** The hunk of the next group, if it changes its lines, and the running skew after it. */
  method EmitOne(t: string, regions: seq<Region>, groups: seq<Group>, k: nat, hunks: seq<ChangeHunk>, skew: int)
      returns (more: seq<ChangeHunk>, skew': int)
    requires Edits(t, regions) && GroupsOf(t, regions, groups, |regions|) && k < |groups|
    requires Emitting(t, regions, groups, k, hunks, skew)
    ensures Emitting(t, regions, groups, k + 1, more, skew')
  {
    ghost var hi, e := RegionsBefore(groups, k), EndBefore(groups, k);
    GroupFollows(t, regions, groups, k, hunks);
    var r, lead, trail := OneHunk(t, regions, groups[k], skew);
    EmittedStep(t, regions, hi, e, hunks, skew, groups[k], r, lead, trail);
    if r.None? {
      HunksNone(t, regions, groups, k, hunks);
      return hunks, skew;
    }
    more, skew' := hunks + [r.value], skew + |r.value.oldLines| - |r.value.newLines|;
    HunksMore(t, regions, groups, k, hunks, r.value, more);
  }

  lemma GroupFollows(t: string, regions: seq<Region>, groups: seq<Group>, k: nat, hunks: seq<ChangeHunk>)
    requires Edits(t, regions) && GroupsOf(t, regions, groups, |regions|) && k < |groups|
    requires HunksOf(t, regions, groups, k, hunks)
    ensures groups[k].lo == RegionsBefore(groups, k) && EndBefore(groups, k) <= groups[k].first
    ensures hunks != [] ==> EndBefore(groups, k) < groups[k].first
  {
    assert k == 0 || (groups[k - 1].hi == groups[k].lo && groups[k - 1].end < groups[k].first);
  }

  method OneHunk(t: string, regions: seq<Region>, g: Group, skew: int)
      returns (r: Option<ChangeHunk>, ghost lead: nat, ghost trail: nat)
    requires Edits(t, regions) && Spans(t, regions, g) && g.first + skew >= 0
    ensures StartOf(t, g.end) <= |t| && Fits(regions[g.lo..g.hi], StartOf(t, g.first), StartOf(t, g.end))
    ensures var older := SplitLines(BuiltFrom(t, regions[g.lo..g.hi], StartOf(t, g.first), StartOf(t, g.end)));
            var newer := SplitLines(t[StartOf(t, g.first)..StartOf(t, g.end)]);
            if r.None? then older == newer else TrimmedHunk(r.value, older, newer, g.first, skew, lead, trail)
    ensures r.None? <==> OlderLines(t, regions, g) == NewerLines(t, g)
    ensures r.Some? ==> HunkOf(OlderLines(t, regions, g), NewerLines(t, g), g.first, r.value)
  {
    GroupFits(t, regions, g);
    NewerSplit(t, g);
    r, lead, trail := GroupHunk(t, regions[g.lo..g.hi], g.first, g.end, skew);
    if r.Some? { TrimmedIsHunkOf(OlderLines(t, regions, g), NewerLines(t, g), g.first, skew, lead, trail, r.value); }
  }

  lemma NewerSplit(t: string, g: Group)
    requires EndsInNewline(t) && g.first <= g.end <= LineOf(t, |t|) && StartOf(t, g.first) <= StartOf(t, g.end) <= |t|
    ensures SplitLines(t[StartOf(t, g.first)..StartOf(t, g.end)]) == NewerLines(t, g)
  {
    StretchLines(t, g.first, g.end, StartOf(t, g.first), StartOf(t, g.end));
  }

  /** The whole-line changes `cs` makes to `text`, as hunks of `text`'s lines (the new side) against the
      lines of the text `cs` produces (the old side); none when they span more than `maxChars` chars. */
  method ChangeHunksWithin(cs: ChangeSet, text: string, maxChars: nat)
      returns (r: Option<seq<ChangeHunk>>, ghost regions: seq<Region>, ghost groups: seq<Group>)
    requires cs.Valid() && |text| == cs.lenBefore && EndsInNewline(text) && EndsInNewline(Run(cs.ops, text))
    ensures r.Some? ==> CorrectPatch(SplitLines(text), SplitLines(Run(cs.ops, text)), r.value)
    ensures Edits(text, regions) && BuiltFrom(text, regions, 0, |text|) == Run(cs.ops, text)
    ensures Exactly(cs.ops, regions, |text|)
    ensures GroupsOf(text, regions, groups, |regions|)
    ensures r.Some? ==> HunksOf(text, regions, groups, |groups|, r.value)
    ensures r.None? <==> TotalSpanned(text, regions, groups) > maxChars
  {
    var edited := EditedRegions(cs, text);
    var grouped := RegionGroups(text, edited);
    regions, groups := edited, grouped;
    var chars := MeasureGroups(text, edited, grouped);
    if chars > maxChars {
      r := None;
    } else {
      var hunks := EmitHunks(text, edited, grouped);
      r := Some(hunks);
    }
  }
}
