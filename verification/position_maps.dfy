/** Positions and lines carried through a change: the resumable cursors over a changeset's ops, against where
    the characters themselves land. */
module PositionMaps {
  import opened Wrappers
  import opened Integers
  import opened Sequences
  import opened ChangeSets
  import opened Lines

  datatype Assoc = Before | After

  /** Where a position goes, and whether the character it names was deleted. */
  datatype Mapped = Mapped(pos: nat, deleted: bool)

  function Onward(n: nat, m: Mapped): Mapped { Mapped(n + m.pos, m.deleted) }

  /** A single query from the start of the ops. */
  function MapAnchor(ops: seq<Op>, pos: nat, assoc: Assoc): Mapped {
    if ops == [] then Mapped(pos, false)
    else match ops[0]
      case Retain(n) => if pos < n then Mapped(pos, false) else Onward(n, MapAnchor(ops[1..], pos - n, assoc))
      case Delete(n) => if pos < n then Mapped(0, true) else MapAnchor(ops[1..], pos - n, assoc)
      case Insert(s) =>
        if pos == 0 then Mapped(if assoc.Before? then 0 else |s|, false)
            else Onward(|s|, MapAnchor(ops[1..], pos, assoc))
  }

  // ---- Where characters land ----

  /** Where the character at `pos` itself stands in the new text; `None` once deleted. */
  function Image(ops: seq<Op>, pos: nat): Option<nat> {
    if ops == [] then Some(pos)
    else match ops[0]
      case Retain(n) => if pos < n then Some(pos) else Shifted(n, Image(ops[1..], pos - n))
      case Delete(n) => if pos < n then None else Image(ops[1..], pos - n)
      case Insert(s) => Shifted(|s|, Image(ops[1..], pos))
  }

  function Shifted(n: nat, p: Option<nat>): Option<nat> {
    match p case Some(v) => Some(n + v) case None => None
  }

  lemma {:induction false} ImageKeepsChar(ops: seq<Op>, t: string, pos: nat)
    requires Consumed(ops) == |t| && pos < |t| && Image(ops, pos).Some?
    ensures Image(ops, pos).value < |Run(ops, t)| && Run(ops, t)[Image(ops, pos).value] == t[pos]
  {
    var rest := ops[1..];
    match ops[0]
    case Retain(n) =>
      if pos >= n { ImageKeepsChar(rest, t[n..], pos - n); AfterPart(t[..n], Run(rest, t[n..]), Run(ops, t)); }
    case Delete(n) => ImageKeepsChar(rest, t[n..], pos - n);
    case Insert(s) =>
      ImageKeepsChar(rest, t, pos);
      AfterPart(s, Run(rest, t), Run(ops, t));
  }

  /** A mapped position parts the surviving characters as the position did, whichever way it sticks. */
  lemma {:induction false} MapCuts(ops: seq<Op>, p: nat, q: nat, assoc: Assoc)
    requires Image(ops, q).Some?
    ensures Image(ops, q).value < MapAnchor(ops, p, assoc).pos <==> q < p
  {
    if ops != [] {
      match ops[0]
      case Retain(n) => if p >= n && q >= n { MapCuts(ops[1..], p - n, q - n, assoc); }
      case Delete(n) => if p >= n { MapCuts(ops[1..], p - n, q - n, assoc); }
      case Insert(s) => if p > 0 { MapCuts(ops[1..], p, q, assoc); }
    }
  }

  /** Mapping keeps order, so sorted positions stay sorted. */
  lemma {:induction false} MapAscends(ops: seq<Op>, p: nat, q: nat, assoc: Assoc)
    requires p <= q
    ensures MapAnchor(ops, p, assoc).pos <= MapAnchor(ops, q, assoc).pos
  {
    if ops != [] {
      match ops[0]
      case Retain(n) => if p >= n { MapAscends(ops[1..], p - n, q - n, assoc); }
      case Delete(n) => if p >= n { MapAscends(ops[1..], p - n, q - n, assoc); }
      case Insert(s) => if p > 0 { MapAscends(ops[1..], p, q, assoc); }
    }
  }

  lemma {:induction false} MapWithin(ops: seq<Op>, pos: nat, assoc: Assoc)
    requires pos <= Consumed(ops)
    ensures MapAnchor(ops, pos, assoc).pos <= Produced(ops)
  {
    if ops != [] {
      match ops[0]
      case Retain(n) => if pos >= n { MapWithin(ops[1..], pos - n, assoc); }
      case Delete(n) => if pos >= n { MapWithin(ops[1..], pos - n, assoc); }
      case Insert(s) => MapWithin(ops[1..], pos, assoc);
    }
  }

  /** Text is inserted at `pos`. */
  predicate AtInsert(ops: seq<Op>, pos: nat) {
    if ops == [] then false
    else match ops[0]
      case Retain(n) => pos >= n && AtInsert(ops[1..], pos - n)
      case Delete(n) => pos >= n && AtInsert(ops[1..], pos - n)
      case Insert(_) => pos == 0 || AtInsert(ops[1..], pos)
  }

  /** The deletion flag is set for the deleted characters, but for those the change also inserts text before. */
  lemma {:induction false} FlagMeans(ops: seq<Op>, pos: nat, assoc: Assoc)
    ensures MapAnchor(ops, pos, assoc).deleted <==> Image(ops, pos).None? && !AtInsert(ops, pos)
  {
    if ops != [] {
      match ops[0]
      case Retain(n) => if pos >= n { FlagMeans(ops[1..], pos - n, assoc); }
      case Delete(n) => if pos >= n { FlagMeans(ops[1..], pos - n, assoc); }
      case Insert(s) => if pos > 0 { FlagMeans(ops[1..], pos, assoc); }
    }
  }

  /** No deletion right behind an insertion. */
  predicate DeletesFirst(ops: seq<Op>) {
    forall i, j :: 0 <= i < |ops| && 0 <= j < |ops| && j == i + 1 ==> !(ops[i].Insert? && ops[j].Delete?)
  }

  lemma {:induction false} DeletesFirstKeeps(ops: seq<Op>, pos: nat)
    requires Positive(ops) && Normalized(ops) && DeletesFirst(ops) && AtInsert(ops, pos) && pos < Consumed(ops)
    ensures Image(ops, pos).Some?
  {
    var rest := ops[1..];
    match ops[0]
    case Retain(n) => if pos >= n { DeletesFirstKeeps(rest, pos - n); }
    case Delete(n) => DeletesFirstKeeps(rest, pos - n);
    case Insert(s) =>
      if pos > 0 { DeletesFirstKeeps(rest, pos); }
      else { assert rest != [] && rest[0] == ops[1] && !rest[0].Insert? && !rest[0].Delete? && rest[0].n > 0; }
  }

  lemma {:induction false} DeletedBehindInsert(ops: seq<Op>, i: nat) returns (pos: nat)
    requires Positive(ops) && i + 1 < |ops| && ops[i].Insert? && ops[i + 1].Delete?
    ensures pos < Consumed(ops) && AtInsert(ops, pos) && Image(ops, pos).None?
    decreases i
  {
    var rest := ops[1..];
    if i == 0 {
      assert rest[0] == ops[1] && !IsEmpty(rest[0]);
      pos := 0;
    } else {
      pos := DeletedBehindInsert(rest, i - 1);
      if !ops[0].Insert? { pos := pos + ops[0].n; }
    }
  }

  /** The flag tells the deleted characters exactly when the change deletes before it inserts. */
  lemma FlagExact(ops: seq<Op>, assoc: Assoc)
    requires Normalized(ops)
    ensures (forall pos :: 0 <= pos < Consumed(ops) ==> (MapAnchor(ops, pos, assoc).deleted <==> Image(ops, pos).None?))
       <==> DeletesFirst(ops)
  {
    forall pos | 0 <= pos < Consumed(ops) && DeletesFirst(ops)
      ensures MapAnchor(ops, pos, assoc).deleted <==> Image(ops, pos).None?
    {
      FlagMeans(ops, pos, assoc);
      if AtInsert(ops, pos) { DeletesFirstKeeps(ops, pos); }
    }
    if i, j :| 0 <= i < |ops| && 0 <= j < |ops| && j == i + 1 && ops[i].Insert? && ops[j].Delete? {
      var pos := DeletedBehindInsert(ops, i);
      FlagMeans(ops, pos, assoc);
    }
  }

  // ---- Ranges ----

  /** A range shrinks away from text inserted at its ends. */
  function MapRange(ops: seq<Op>, s: nat, e: nat): (r: (nat, nat)) {
    var start := MapAnchor(ops, s, After).pos;
    (start, Max(MapAnchor(ops, e, Before).pos, start))
  }

  /** The mapped range holds the surviving characters the range held, and no other old one. */
  lemma RangeHolds(ops: seq<Op>, s: nat, e: nat, q: nat)
    requires s <= e && Image(ops, q).Some?
    ensures var (a, b) := MapRange(ops, s, e); a <= Image(ops, q).value < b <==> s <= q < e
  {
    MapCuts(ops, s, q, After);
    MapCuts(ops, e, q, Before);
  }

  lemma {:induction false} AfterIsBelow(ops: seq<Op>, p: nat, e: nat)
    requires p < e
    ensures MapAnchor(ops, p, After).pos <= MapAnchor(ops, e, Before).pos
  {
    if ops != [] {
      match ops[0]
      case Retain(n) => if p >= n { AfterIsBelow(ops[1..], p - n, e - n); }
      case Delete(n) => if p >= n { AfterIsBelow(ops[1..], p - n, e - n); }
      case Insert(s) => if p > 0 { AfterIsBelow(ops[1..], p, e); }
    }
  }

  lemma {:induction false} InsertWidens(ops: seq<Op>, p: nat)
    requires Positive(ops) && AtInsert(ops, p)
    ensures MapAnchor(ops, p, Before).pos < MapAnchor(ops, p, After).pos
  {
    assert !IsEmpty(ops[0]);
    match ops[0]
    case Retain(n) => InsertWidens(ops[1..], p - n);
    case Delete(n) => InsertWidens(ops[1..], p - n);
    case Insert(s) => if p > 0 { InsertWidens(ops[1..], p); }
  }

  lemma {:induction false} MovedBecause(ops: seq<Op>, e: nat) returns (q: nat)
    requires Positive(ops) && MapAnchor(ops, e, Before).pos > 0
    ensures q < e && (Image(ops, q).Some? || AtInsert(ops, q))
  {
    q := 0;
    if ops != [] && ops[0].Delete? {
      q := MovedBecause(ops[1..], e - ops[0].n);
      q := q + ops[0].n;
    } else if ops != [] {
      assert !IsEmpty(ops[0]);
    }
  }

  lemma NormalizedTail(ops: seq<Op>)
    requires Normalized(ops) && ops != []
    ensures Normalized(ops[1..])
    ensures ops[1..] != [] ==> !SameKind(ops[0], ops[1..][0]) && !IsEmpty(ops[1..][0])
  {
  }

  lemma PastKept(ops: seq<Op>, rest: seq<Op>, n: nat, q: nat) returns (p: nat)
    requires ops != [] && ops[0] == Retain(n) && rest == ops[1..]
    ensures p == n + q && (Image(ops, p).Some? <==> Image(rest, q).Some?) && (AtInsert(ops, p) <==> AtInsert(rest, q))
  {
    p := n + q;
  }

  lemma PastDeleted(ops: seq<Op>, rest: seq<Op>, n: nat, q: nat) returns (p: nat)
    requires ops != [] && ops[0] == Delete(n) && rest == ops[1..]
    ensures p == n + q && (Image(ops, p).Some? <==> Image(rest, q).Some?) && (AtInsert(ops, p) <==> AtInsert(rest, q))
  {
    p := n + q;
  }

  lemma {:induction false} KeptBecause(ops: seq<Op>, s: nat, e: nat) returns (q: nat)
    requires Normalized(ops) && s <= e && MapAnchor(ops, s, After).pos < MapAnchor(ops, e, Before).pos
    ensures (s <= q < e && Image(ops, q).Some?) || (s < q < e && AtInsert(ops, q))
  {
    q := s;
    if ops != [] {
      var rest := ops[1..];
      NormalizedTail(ops);
      match ops[0]
      case Retain(n) => if s >= n { q := KeptBecause(rest, s - n, e - n); q := PastKept(ops, rest, n, q); }
      case Delete(n) =>
        if s >= n { q := KeptBecause(rest, s - n, e - n); } else { q := MovedBecause(rest, e - n); }
        q := PastDeleted(ops, rest, n, q);
      case Insert(_) =>
        if s > 0 { q := KeptBecause(rest, s, e); } else { q := MovedBecause(rest, e); }
    }
  }

  /** A range is dropped exactly when the change deletes all its characters and inserts nothing strictly inside. */
  lemma RangeDropped(ops: seq<Op>, s: nat, e: nat)
    requires Normalized(ops) && s <= e
    ensures MapRange(ops, s, e).1 <= MapRange(ops, s, e).0
       <==> (forall q :: s <= q < e ==> Image(ops, q).None?) && (forall q :: s < q < e ==> !AtInsert(ops, q))
  {
    if MapRange(ops, s, e).1 > MapRange(ops, s, e).0 {
      var q := KeptBecause(ops, s, e);
    }
    forall q | s <= q < e && Image(ops, q).Some? ensures MapRange(ops, s, e).1 > MapRange(ops, s, e).0 {
      RangeHolds(ops, s, e, q);
    }
    forall q | s < q < e && AtInsert(ops, q) ensures MapRange(ops, s, e).1 > MapRange(ops, s, e).0 {
      AfterIsBelow(ops, s, q);
      InsertWidens(ops, q);
      AfterIsBelow(ops, q, e);
    }
  }

  // ---- Lines ----

  /** Where a line ends: its own break. */
  function BreakOf(t: string, line: nat): (b: nat)
    requires line < LineOf(t, |t|)
    ensures b < |t| && t[b] == '\n' && LineOf(t, b) == line
  {
    StartFacts(t, line + 1);
    StartOf(t, line + 1) - 1
  }

  lemma BreakBelow(t: string, line: nat, x: nat)
    requires line < LineOf(t, |t|) && x <= |t|
    ensures BreakOf(t, line) < x <==> line < LineOf(t, x)
  {
    var b := BreakOf(t, line);
    if b < x { LineOfMonotone(t, b + 1, x); } else { LineOfMonotone(t, x, b); }
  }

  /** A line is its break: it goes where its break goes. */
  function LineImage(ops: seq<Op>, t: string, line: nat): Option<nat>
    requires Consumed(ops) == |t| && line < LineOf(t, |t|)
  {
    var m := MapAnchor(ops, BreakOf(t, line), Before);
    MapWithin(ops, BreakOf(t, line), Before);
    RunLength(ops, t);
    if m.deleted then None else Some(LineOf(Run(ops, t), m.pos))
  }

  /** Kept lines stay in order, and share a line exactly when no break stands between where they land. */
  lemma LinesAscend(ops: seq<Op>, t: string, i: nat, j: nat)
    requires Consumed(ops) == |t| && i < j < LineOf(t, |t|)
    requires LineImage(ops, t, i).Some? && LineImage(ops, t, j).Some?
    ensures var m, n := MapAnchor(ops, BreakOf(t, i), Before).pos, MapAnchor(ops, BreakOf(t, j), Before).pos;
            m <= n <= |Run(ops, t)| && LineImage(ops, t, i).value <= LineImage(ops, t, j).value
            && (LineImage(ops, t, i) == LineImage(ops, t, j) <==> forall k :: m <= k < n ==> Run(ops, t)[k] != '\n')
  {
    BreakBelow(t, i, BreakOf(t, j));
    MapAscends(ops, BreakOf(t, i), BreakOf(t, j), Before);
    MapWithin(ops, BreakOf(t, j), Before);
    RunLength(ops, t);
    SameLine(Run(ops, t), MapAnchor(ops, BreakOf(t, i), Before).pos, MapAnchor(ops, BreakOf(t, j), Before).pos);
  }

  lemma {:induction false} SameLine(t: string, m: nat, n: nat)
    requires m <= n <= |t|
    ensures LineOf(t, m) <= LineOf(t, n)
    ensures LineOf(t, m) == LineOf(t, n) <==> forall k :: m <= k < n ==> t[k] != '\n'
  {
    if m < n { SameLine(t, m, n - 1); }
  }

  /** A character replaced by a line break, and what undoes it: the insertion comes before the deletion. */
  const REPLACED := ChangeSet([Delete(1), Insert(['\n']), Retain(1)], 2, 2)
  const UNDONE := [Insert(['x']), Delete(1), Retain(1)]

  lemma OpsTail(op: Op, rest: seq<Op>, ops: seq<Op>)
    requires ops == [op] + rest
    ensures ops[0] == op && ops[1..] == rest
    ensures Consumed(ops) == Consumed([op]) + Consumed(rest) && Produced(ops) == Produced([op]) + Produced(rest)
  {
    SplitLengths([op], rest);
  }

  lemma Replaced(x: string, y: string, ops: seq<Op>)
    requires x == ['x', '\n'] && y == ['\n', '\n'] && ops == REPLACED.ops
    ensures Consumed(ops) == 2 && REPLACED.Valid() && Run(ops, x) == y && InvertRaw(ops, x) == UNDONE
  {
    OpsTail(Delete(1), [Insert(['\n']), Retain(1)], ops);
    OpsTail(Insert(['\n']), [Retain(1)], ops[1..]);
    RunOne(Retain(1), ['\n']);
    assert x[1..] == ['\n'] && x[..1] == ['x'];
    assert Run([Retain(1)], ['\n']) == ['\n'] && InvertRaw([Retain(1)], ['\n']) == [Retain(1)];
    assert Run(ops[1..], ['\n']) == y && InvertRaw(ops[1..], ['\n']) == [Delete(1), Retain(1)];
  }

  /** Undoing the replacement of a character by a line break joins two lines, and keeps both. */
  lemma UndoneReplacementJoins(x: string, y: string)
    requires x == ['x', '\n'] && y == ['\n', '\n']
    ensures REPLACED.Valid() && Run(REPLACED.ops, x) == y && Inverse(REPLACED, x) == ChangeSet(UNDONE, 2, 2)
    ensures Consumed(UNDONE) == |y| && LineOf(y, |y|) == 2
            && LineImage(UNDONE, y, 0) == LineImage(UNDONE, y, 1) == Some(0)
    ensures Run(UNDONE, y) == x
  {
    Replaced(x, y, REPLACED.ops);
    UndoneIs(REPLACED, x, y, UNDONE);
    UndoneMaps(UNDONE);
    JoinedLines(x, y);
    LineGoesTo(UNDONE, y, 0, 0, 0, x, 0);
    LineGoesTo(UNDONE, y, 1, 1, 1, x, 0);
  }

  lemma UndoneIs(cs: ChangeSet, x: string, y: string, inv: seq<Op>)
    requires cs.Valid() && |x| == cs.lenBefore && Run(cs.ops, x) == y && InvertRaw(cs.ops, x) == inv && Normalized(inv)
    ensures Inverse(cs, x).ops == inv && Consumed(inv) == |y| && Run(inv, y) == x
  {
    assert [] + inv == inv;
    PushAllOfNormalized([], inv);
    InverseUndoes(cs, x);
  }

  lemma LineGoesTo(ops: seq<Op>, t: string, l: nat, b: nat, pos: nat, x: string, line: nat)
    requires Consumed(ops) == |t| && l < LineOf(t, |t|) && BreakOf(t, l) == b && Run(ops, t) == x
    requires MapAnchor(ops, b, Before) == Mapped(pos, false) && pos <= |x| && LineOf(x, pos) == line
    ensures LineImage(ops, t, l) == Some(line)
  {
  }

  lemma JoinedLines(x: string, y: string)
    requires x == ['x', '\n'] && y == ['\n', '\n']
    ensures LineOf(x, 0) == LineOf(x, 1) == 0 && LineOf(y, |y|) == 2 && BreakOf(y, 0) == 0 && BreakOf(y, 1) == 1
  {
    assert LineOf(y, 1) == 1;
    assert LineOf(y, 2) == 2;
    BreakBelow(y, 0, 1);
    BreakBelow(y, 1, 1);
  }

  lemma UndoneMaps(ops: seq<Op>)
    requires ops == UNDONE
    ensures MapAnchor(ops, 0, Before) == Mapped(0, false) && MapAnchor(ops, 1, Before) == Mapped(1, false)
  {
    OpsTail(Insert(['x']), [Delete(1), Retain(1)], ops);
    OpsTail(Delete(1), [Retain(1)], ops[1..]);
  }

  // ---- The walk ----

  /** The whole of `ops` lies before the position: a query walks past all of it. */
  predicate Behind(ops: seq<Op>, pos: nat) {
    ops == [] || match ops[0]
      case Retain(n) => pos >= n && Behind(ops[1..], pos - n)
      case Delete(n) => pos >= n && Behind(ops[1..], pos - n)
      case Insert(_) => pos > 0 && Behind(ops[1..], pos)
  }

  predicate Passes(op: Op, pos: nat) {
    match op case Retain(n) => pos >= n case Delete(n) => pos >= n case Insert(_) => pos > 0
  }

  lemma {:induction false} BehindMaps(a: seq<Op>, b: seq<Op>, ops: seq<Op>, pos: nat, assoc: Assoc)
    requires ops == a + b && Behind(a, pos)
    ensures Consumed(a) <= pos
    ensures MapAnchor(ops, pos, assoc) == Onward(Produced(a), MapAnchor(b, pos - Consumed(a), assoc))
    decreases |a|
  {
    if a == [] {
      assert ops == b;
    } else {
      assert ops[0] == a[0] && ops[1..] == a[1..] + b;
      BehindMaps(a[1..], b, ops[1..], if a[0].Insert? then pos else pos - a[0].n, assoc);
    }
  }

  lemma {:induction false} BehindUp(a: seq<Op>, p: nat, q: nat)
    requires Behind(a, p) && p <= q
    ensures Behind(a, q)
  {
    if a != [] { BehindUp(a[1..], if a[0].Insert? then p else p - a[0].n, if a[0].Insert? then q else q - a[0].n); }
  }

  lemma {:induction false} BehindNext(a: seq<Op>, op: Op, more: seq<Op>, pos: nat)
    requires more == a + [op] && Behind(a, pos) && Consumed(a) <= pos && Passes(op, pos - Consumed(a))
    ensures Behind(more, pos)
    decreases |a|
  {
    if a == [] {
      assert more[1..] == [];
    } else {
      assert more[0] == a[0] && more[1..] == a[1..] + [op];
      BehindNext(a[1..], op, more[1..], if a[0].Insert? then pos else pos - a[0].n);
    }
  }

  /** A walk stands at op `i`, everything before it behind `pos`. */
  ghost predicate Walked(ops: seq<Op>, i: nat, pos: nat, oldPos: nat, newPos: nat) {
    i <= |ops| && Behind(ops[..i], pos) && oldPos == Consumed(ops[..i]) && newPos == Produced(ops[..i]) && oldPos <= pos
  }

  lemma WalkedOn(ops: seq<Op>, i: nat, pos: nat, oldPos: nat, newPos: nat)
    requires Walked(ops, i, pos, oldPos, newPos) && i < |ops| && Passes(ops[i], pos - oldPos)
    ensures Walked(ops, i + 1, pos, oldPos + Consumed([ops[i]]), newPos + Produced([ops[i]]))
  {
    assert ops[..i + 1] == ops[..i] + [ops[i]];
    BehindNext(ops[..i], ops[i], ops[..i + 1], pos);
    SplitLengths(ops[..i], [ops[i]]);
  }

  lemma WalkedMaps(ops: seq<Op>, i: nat, pos: nat, oldPos: nat, newPos: nat, assoc: Assoc)
    requires Walked(ops, i, pos, oldPos, newPos)
    ensures MapAnchor(ops, pos, assoc) == Onward(newPos, MapAnchor(ops[i..], pos - oldPos, assoc))
    ensures i < |ops| ==> ops[i..] != [] && ops[i..][0] == ops[i]
  {
    SplitAt(ops, i);
    BehindMaps(ops[..i], ops[i..], ops, pos, assoc);
  }

  lemma WalkedUp(ops: seq<Op>, i: nat, pos: nat, oldPos: nat, newPos: nat, later: nat)
    requires Walked(ops, i, pos, oldPos, newPos) && pos <= later
    ensures Walked(ops, i, later, oldPos, newPos)
  {
    BehindUp(ops[..i], pos, later);
  }

  /** A resumable run of queries, none before the one it follows: each answers as a query of its own would. */
  class PosMapCursor {
    const ops: seq<Op>
    var idx: nat
    var oldPos: nat
    var newPos: nat
    ghost var last: nat

    ghost predicate Valid() reads this { Walked(ops, idx, last, oldPos, newPos) }

    constructor (ops: seq<Op>)
      ensures Valid() && this.ops == ops && last == 0
    {
      this.ops := ops;
      idx, oldPos, newPos, last := 0, 0, 0, 0;
    }

    method Map(pos: nat, assoc: Assoc) returns (r: Mapped)
      requires Valid() && last <= pos
      modifies this
      ensures Valid() && last == pos && r == MapAnchor(ops, pos, assoc)
    {
      WalkedUp(ops, idx, last, oldPos, newPos, pos);
      last := pos;
      while idx < |ops|
        invariant Valid() && last == pos
        decreases |ops| - idx
      {
        WalkedMaps(ops, idx, pos, oldPos, newPos, assoc);
        match ops[idx] {
          case Retain(n) => if pos < oldPos + n { return Mapped(newPos + (pos - oldPos), false); }
          case Delete(n) => if pos < oldPos + n { return Mapped(newPos, true); }
          case Insert(s) => if pos < oldPos + 1 { return Mapped(if assoc.Before? then newPos
              else newPos + |s|, false); }
        }
        WalkedOn(ops, idx, pos, oldPos, newPos);
        Passed(ops[idx]);
        idx := idx + 1;
      }
      WalkedMaps(ops, idx, pos, oldPos, newPos, assoc);
      return Mapped(newPos + (pos - oldPos), false);
    }

    method Passed(op: Op)
      modifies `oldPos, `newPos
      ensures oldPos == old(oldPos) + Consumed([op]) && newPos == old(newPos) + Produced([op])
    {
      assert [op][1..] == [];
      match op {
        case Retain(n) => oldPos, newPos := oldPos + n, newPos + n;
        case Delete(n) => oldPos := oldPos + n;
        case Insert(s) => newPos := newPos + |s|;
      }
    }
  }

  // ---- The walk in line units ----

  /** The break counts of a walk: before its place in the old text, and in the new text made so far. */
  ghost predicate Counted(ops: seq<Op>, t: string, oldPos: nat, newPos: nat, breaksOld: nat, breaksNew: nat)
    requires Consumed(ops) == |t|
  {
    oldPos <= |t| && newPos <= |Run(ops, t)| && breaksOld == LineOf(t, oldPos)
        && breaksNew == LineOf(Run(ops, t), newPos)
  }

  /** What op `i` leaves in the new text, and where. */
  lemma PieceAt(ops: seq<Op>, t: string, i: nat) returns (piece: string)
    requires Consumed(ops) == |t| && i < |ops|
    ensures Consumed(ops[..i]) + Consumed([ops[i]]) <= |t| && |piece| == Produced([ops[i]])
    ensures Produced(ops[..i]) + |piece| <= |Run(ops, t)|
    ensures Run(ops, t)[Produced(ops[..i])..Produced(ops[..i]) + |piece|] == piece
    ensures ops[i].Retain? ==> piece == t[Consumed(ops[..i])..Consumed(ops[..i]) + ops[i].n]
    ensures ops[i].Insert? ==> piece == ops[i].s
  {
    SplitAt(ops, i);
    SplitLengths(ops[..i], ops[i..]);
    var oldPos := Consumed(ops[..i]);
    SplitAt(t, oldPos);
    RunConcat(ops[..i], ops[i..], t[..oldPos], t[oldPos..]);
    RunLength(ops[..i], t[..oldPos]);
    var done := Run(ops[..i], t[..oldPos]);
    var more: string;
    piece, more := PieceFirst(ops[i..], t[oldPos..], ops[i], ops[i + 1..]);
    Middle(done, piece, more, Run(ops, t));
  }

  lemma PieceFirst(ops: seq<Op>, t: string, op: Op, rest: seq<Op>) returns (piece: string, more: string)
    requires Consumed(ops) == |t| && ops == [op] + rest
    ensures Consumed([op]) <= |t| && |piece| == Produced([op]) && Run(ops, t) == piece + more
    ensures op.Retain? ==> piece == t[..op.n]
    ensures op.Insert? ==> piece == op.s
  {
    SplitLengths([op], rest);
    var n := Consumed([op]);
    SplitAt(t, n);
    RunConcat([op], rest, t[..n], t[n..]);
    RunLength([op], t[..n]);
    RunOne(op, t[..n]);
    piece, more := Run([op], t[..n]), Run(rest, t[n..]);
  }

  /** Breaks of the same piece standing in two texts. */
  lemma SamePiece(a: string, b: string, p: nat, q: nat, n: nat, k: nat)
    requires p + n <= |a| && q + n <= |b| && a[p..p + n] == b[q..q + n] && k <= n
    ensures LineOf(a, p) <= LineOf(a, p + k) && LineOf(b, q + k) == LineOf(b, q) + (LineOf(a, p + k) - LineOf(a, p))
  {
    LineOfPart(a, p, p + n, p + k);
    LineOfPart(b, q, q + n, q + k);
    LineOfMonotone(a, p, p + k);
  }

  /** Text kept by a retain counts as many breaks from the walk's place in either text. */
  lemma RetainCounts(ops: seq<Op>, t: string, i: nat, oldPos: nat, newPos: nat, breaksOld: nat, breaksNew: nat, k: nat)
    requires Consumed(ops) == |t| && i < |ops| && oldPos == Consumed(ops[..i]) && newPos == Produced(ops[..i])
    requires Counted(ops, t, oldPos, newPos, breaksOld, breaksNew) && ops[i].Retain? && k <= ops[i].n
    ensures oldPos + k <= |t| && breaksOld <= LineOf(t, oldPos + k)
    ensures Counted(ops, t, oldPos + k, newPos + k, LineOf(t, oldPos + k),
            breaksNew + (LineOf(t, oldPos + k) - breaksOld))
  {
    var piece := PieceAt(ops, t, i);
    RunOne(ops[i], piece);
    SamePiece(t, Run(ops, t), oldPos, newPos, |piece|, k);
  }

  lemma DeleteCounts(ops: seq<Op>, t: string, i: nat, oldPos: nat, newPos: nat, breaksOld: nat, breaksNew: nat)
    requires Consumed(ops) == |t| && i < |ops| && oldPos == Consumed(ops[..i]) && newPos == Produced(ops[..i])
    requires Counted(ops, t, oldPos, newPos, breaksOld, breaksNew) && ops[i].Delete?
    ensures oldPos + ops[i].n <= |t|
    ensures Counted(ops, t, oldPos + ops[i].n, newPos, LineOf(t, oldPos + ops[i].n), breaksNew)
  {
    var piece := PieceAt(ops, t, i);
    assert [ops[i]][1..] == [];
  }

  lemma InsertCounts(ops: seq<Op>, t: string, i: nat, oldPos: nat, newPos: nat, breaksOld: nat, breaksNew: nat)
    requires Consumed(ops) == |t| && i < |ops| && oldPos == Consumed(ops[..i]) && newPos == Produced(ops[..i])
    requires Counted(ops, t, oldPos, newPos, breaksOld, breaksNew) && ops[i].Insert?
    ensures Counted(ops, t, oldPos, newPos + |ops[i].s|, breaksOld, breaksNew + LineOf(ops[i].s, |ops[i].s|))
  {
    var piece := PieceAt(ops, t, i);
    var s := ops[i].s;
    assert s[0..|s|] == s;
    SamePiece(s, Run(ops, t), 0, newPos, |s|, |s|);
  }

  lemma CountsPast(ops: seq<Op>, t: string, i: nat, op: Op, oldPos: nat, newPos: nat, breaksOld: nat, breaksNew: nat)
    requires Consumed(ops) == |t| && i < |ops| && op == ops[i] && oldPos == Consumed(ops[..i])
             && newPos == Produced(ops[..i])
    requires Counted(ops, t, oldPos, newPos, breaksOld, breaksNew)
    ensures Consumed([op]) == (if op.Insert? then 0 else op.n) && oldPos + Consumed([op]) <= |t|
    ensures Produced([op]) == match op case Retain(n) => n case Delete(_) => 0 case Insert(s) => |s|
    ensures breaksOld <= LineOf(t, oldPos + Consumed([op]))
    ensures Counted(ops, t, oldPos + Consumed([op]), newPos + Produced([op]), LineOf(t, oldPos + Consumed([op])),
                    breaksNew + match op case Retain(n) => LineOf(t, oldPos + n) - breaksOld
                                         case Delete(_) => 0
                                         case Insert(s) => LineOf(s, |s|))
  {
    LengthsOne(op);
    match op {
      case Retain(n) => RetainCounts(ops, t, i, oldPos, newPos, breaksOld, breaksNew, n);
      case Delete(n) =>
        DeleteCounts(ops, t, i, oldPos, newPos, breaksOld, breaksNew);
        LineOfMonotone(t, oldPos, oldPos + n);
      case Insert(s) => InsertCounts(ops, t, i, oldPos, newPos, breaksOld, breaksNew);
    }
  }

  lemma LengthsOne(op: Op)
    ensures Consumed([op]) == if op.Insert? then 0 else op.n
    ensures Produced([op]) == match op case Retain(n) => n case Delete(_) => 0 case Insert(s) => |s|
  {
    assert [op][1..] == [];
  }

  lemma BehindConsumes(a: seq<Op>, pos: nat)
    requires Behind(a, pos)
    ensures Consumed(a) <= pos
  {
    assert a + [] == a;
    BehindMaps(a, [], a, pos, Before);
  }

  lemma BehindLater(a: seq<Op>, t: string, i: nat, j: nat)
    requires i <= j < LineOf(t, |t|) && Behind(a, BreakOf(t, i))
    ensures Behind(a, BreakOf(t, j))
  {
    if i < j { BreakBelow(t, i, BreakOf(t, j)); }
    BehindUp(a, BreakOf(t, i), BreakOf(t, j));
  }

  lemma StopsAt(ops: seq<Op>, i: nat, pos: nat, oldPos: nat, newPos: nat)
    requires Walked(ops, i, pos, oldPos, newPos) && i < |ops| && !Passes(ops[i], pos - oldPos)
    ensures MapAnchor(ops, pos, Before)
         == Mapped(if ops[i].Retain? then newPos + (pos - oldPos) else newPos, ops[i].Delete?)
  {
    WalkedMaps(ops, i, pos, oldPos, newPos, Before);
  }

  /** The walk stopped at the op the line's break lies in: its line counts on from the breaks passed. */
  lemma Landed(ops: seq<Op>, t: string, i: nat, l: nat, oldPos: nat, newPos: nat, breaksOld: nat, breaksNew: nat)
    requires Consumed(ops) == |t| && i < |ops| && l < LineOf(t, |t|) && Walked(ops, i, BreakOf(t, l), oldPos, newPos)
    requires Counted(ops, t, oldPos, newPos, breaksOld, breaksNew) && !Passes(ops[i], BreakOf(t, l) - oldPos)
    ensures breaksOld <= l && LineImage(ops, t, l) == if ops[i].Delete? then None else Some(breaksNew + (l - breaksOld))
  {
    if ops[i].Retain? { LandedIn(ops, t, i, l, oldPos, newPos, breaksOld, breaksNew); }
    else { LandedAt(ops, t, i, l, oldPos, newPos, breaksOld, breaksNew); }
  }

  lemma LandedIn(ops: seq<Op>, t: string, i: nat, l: nat, oldPos: nat, newPos: nat, breaksOld: nat, breaksNew: nat)
    requires Consumed(ops) == |t| && i < |ops| && l < LineOf(t, |t|) && Walked(ops, i, BreakOf(t, l), oldPos, newPos)
    requires Counted(ops, t, oldPos, newPos, breaksOld, breaksNew) && !Passes(ops[i], BreakOf(t, l) - oldPos)
             && ops[i].Retain?
    ensures breaksOld <= l && LineImage(ops, t, l) == Some(breaksNew + (l - breaksOld))
  {
    var b := BreakOf(t, l);
    StopsAt(ops, i, b, oldPos, newPos);
    var pos, line := KeptLine(ops, t, i, l, oldPos, newPos, breaksOld, breaksNew);
    LineGoesTo(ops, t, l, b, pos, Run(ops, t), line);
  }

  lemma LandedAt(ops: seq<Op>, t: string, i: nat, l: nat, oldPos: nat, newPos: nat, breaksOld: nat, breaksNew: nat)
    requires Consumed(ops) == |t| && i < |ops| && l < LineOf(t, |t|) && Walked(ops, i, BreakOf(t, l), oldPos, newPos)
    requires Counted(ops, t, oldPos, newPos, breaksOld, breaksNew) && !Passes(ops[i], BreakOf(t, l) - oldPos)
             && !ops[i].Retain?
    ensures breaksOld <= l && LineImage(ops, t, l) == if ops[i].Delete? then None else Some(breaksNew + (l - breaksOld))
  {
    var b := BreakOf(t, l);
    StopsAt(ops, i, b, oldPos, newPos);
    LineOfMonotone(t, oldPos, b);
    if ops[i].Insert? { LineGoesTo(ops, t, l, b, newPos, Run(ops, t), breaksNew); }
  }

  lemma KeptLine(ops: seq<Op>, t: string, i: nat, l: nat, oldPos: nat, newPos: nat, breaksOld: nat, breaksNew: nat)
      returns (pos: nat, line: nat)
    requires Consumed(ops) == |t| && i < |ops| && oldPos == Consumed(ops[..i]) && newPos == Produced(ops[..i])
    requires Counted(ops, t, oldPos, newPos, breaksOld, breaksNew) && ops[i].Retain?
    requires l < LineOf(t, |t|) && oldPos <= BreakOf(t, l) < oldPos + ops[i].n
    ensures breaksOld <= l && pos == newPos + (BreakOf(t, l) - oldPos) && line == breaksNew + (l - breaksOld)
    ensures pos <= |Run(ops, t)| && LineOf(Run(ops, t), pos) == line
  {
    var k := BreakOf(t, l) - oldPos;
    RetainCounts(ops, t, i, oldPos, newPos, breaksOld, breaksNew, k);
    pos, line := newPos + k, breaksNew + (l - breaksOld);
  }

  /** The same walk asked for a line's break without ever looking for it: only the breaks before each op count. */
  class LineMapCursor {
    const text: string
    const ops: seq<Op>
    var idx: nat
    var oldPos: nat
    var line: nat
    var memo: (nat, nat)
    var breaksOld: nat
    var breaksNew: nat
    ghost var newPos: nat

    ghost predicate Remembers() reads this { memo.0 <= |text| && memo.1 == LineOf(text, memo.0) }

    ghost predicate Valid() reads this {
      && Remembers() && Consumed(ops) == |text| && idx <= |ops|
      && oldPos == Consumed(ops[..idx]) && newPos == Produced(ops[..idx])
      && Counted(ops, text, oldPos, newPos, breaksOld, breaksNew)
      && (idx > 0 ==> line < LineOf(text, |text|) && Behind(ops[..idx], BreakOf(text, line)))
    }

    constructor (text: string, changes: ChangeSet)
      requires changes.Valid() && changes.lenBefore == |text|
      ensures Valid() && this.text == text && ops == changes.ops && line == 0
    {
      this.text, ops := text, changes.ops;
      idx, oldPos, line, memo, breaksOld, breaksNew, newPos := 0, 0, 0, (0, 0), 0, 0, 0;
    }

    method BreaksBefore(x: nat) returns (n: nat)
      requires Remembers() && x <= |text|
      modifies `memo
      ensures Remembers() && n == LineOf(text, x)
    {
      if memo.0 != x { memo := (x, LineOf(text, x)); }
      return memo.1;
    }

    /** Where `line` lands: the line of its break, mapped. */
    method MapLine(l: nat) returns (r: Option<nat>)
      requires Valid() && line <= l < LineOf(text, |text|)
      modifies this
      ensures Valid() && line == l && r == LineImage(ops, text, l)
    {
      ghost var b := BreakOf(text, l);
      if idx > 0 { BehindLater(ops[..idx], text, line, l); }
      line := l;
      while idx < |ops|
        invariant Valid() && line == l && Behind(ops[..idx], b)
        decreases |ops| - idx
      {
        BehindConsumes(ops[..idx], b);
        BreakBelow(text, l, oldPos);
        var over := Over(ops[idx], l);
        if over {
          Landed(ops, text, idx, l, oldPos, newPos, breaksOld, breaksNew);
          return if ops[idx].Delete? then None else Some(breaksNew + (l - breaksOld));
        }
        WalkOn(l, b);
      }
      assert ops[..idx] == ops;
      BehindConsumes(ops, b);
      assert false;
    }

    method WalkOn(l: nat, ghost b: nat)
      requires Valid() && idx < |ops| && line == l < LineOf(text, |text|) && b == BreakOf(text, l)
      requires Walked(ops, idx, b, oldPos, newPos) && Passes(ops[idx], b - oldPos)
      modifies this
      ensures Valid() && line == l && idx == old(idx) + 1 && Behind(ops[..idx], b)
    {
      WalkedOn(ops, idx, b, oldPos, newPos);
      Passed(ops[idx]);
      idx := idx + 1;
    }

    /** The line's break lies in or at this op: below its end, or right behind an insertion. */
    method Over(op: Op, l: nat) returns (over: bool)
      requires Valid() && idx < |ops| && ops[idx] == op && l < LineOf(text, |text|) && oldPos <= BreakOf(text, l)
      modifies `memo
      ensures Remembers() && over == !Passes(op, BreakOf(text, l) - oldPos)
    {
      ghost var piece := PieceAt(ops, text, idx);
      assert [op][1..] == [];
      var x := match op case Retain(n) => oldPos + n case Delete(n) => oldPos + n case Insert(_) => oldPos + 1;
      var breaks := BreaksBefore(x);
      BreakBelow(text, l, x);
      return l < breaks;
    }

    method Passed(op: Op)
      requires Valid() && idx < |ops| && ops[idx] == op
      modifies `oldPos, `newPos, `breaksOld, `breaksNew, `memo
      ensures Remembers() && Counted(ops, text, oldPos, newPos, breaksOld, breaksNew)
      ensures oldPos == old(oldPos) + Consumed([op]) && newPos == old(newPos) + Produced([op])
    {
      CountsPast(ops, text, idx, op, oldPos, newPos, breaksOld, breaksNew);
      match op
      case Retain(n) => PassKept(n);
      case Delete(n) => PassDeleted(n);
      case Insert(s) => PassInserted(s);
    }

    method PassInserted(s: string)
      modifies `newPos, `breaksNew
      ensures newPos == old(newPos) + |s| && breaksNew == old(breaksNew) + LineOf(s, |s|)
    {
      breaksNew := breaksNew + LineOf(s, |s|);
      newPos := newPos + |s|;
    }

    method PassKept(n: nat)
      requires Remembers() && oldPos + n <= |text| && breaksOld <= LineOf(text, oldPos + n)
      modifies `oldPos, `newPos, `breaksOld, `breaksNew, `memo
      ensures Remembers() && oldPos == old(oldPos) + n && newPos == old(newPos) + n
      ensures breaksOld == LineOf(text, oldPos) && breaksNew == old(breaksNew) + (breaksOld - old(breaksOld))
    {
      var end := BreaksBefore(oldPos + n);
      breaksNew, breaksOld := breaksNew + (end - breaksOld), end;
      oldPos, newPos := oldPos + n, newPos + n;
    }

    method PassDeleted(n: nat)
      requires Remembers() && oldPos + n <= |text|
      modifies `oldPos, `breaksOld, `memo
      ensures Remembers() && oldPos == old(oldPos) + n && breaksOld == LineOf(text, oldPos)
    {
      breaksOld := BreaksBefore(oldPos + n);
      oldPos := oldPos + n;
    }
  }
}
