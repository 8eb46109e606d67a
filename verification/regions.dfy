/** The edits of a changeset as regions of the text: maximal runs of deleted and inserted chars. */
module Regions {
  import opened Wrappers
  import opened ChangeSets
  import opened PositionMaps

  /** A span of the old text and what replaced it. */
  datatype Region = Region(start: nat, end: nat, inserted: string)

  /** Regions inside `from..upto`, in order, at least one kept char apart. */
  ghost predicate Fits(regions: seq<Region>, from: nat, upto: nat) {
    && from <= upto
    && (forall i :: 0 <= i < |regions| ==> from <= regions[i].start <= regions[i].end <= upto)
    && (forall i, j :: 0 <= i < j < |regions| ==> regions[i].end < regions[j].start)
  }

  /** All that is inserted at `p`. */
  function InsertedAt(ops: seq<Op>, p: nat): string {
    if ops == [] then []
    else match ops[0]
      case Retain(n) => if p < n then [] else InsertedAt(ops[1..], p - n)
      case Delete(n) => if p < n then [] else InsertedAt(ops[1..], p - n)
      case Insert(s) => (if p == 0 then s else []) + InsertedAt(ops[1..], p)
  }

  /** All that is inserted from `from` to `till`, both ends included. */
  function InsertedOver(ops: seq<Op>, from: nat, till: nat): string
    decreases till
  {
    if till < from then [] else (if till == 0 then [] else InsertedOver(ops, from, till - 1)) + InsertedAt(ops, till)
  }

  ghost predicate Deletes(regions: seq<Region>, q: nat) {
    exists i :: 0 <= i < |regions| && regions[i].start <= q < regions[i].end
  }

  ghost predicate Reaches(regions: seq<Region>, p: nat) {
    exists i :: 0 <= i < |regions| && regions[i].start <= p <= regions[i].end
  }

  /** A region deletes or inserts something, and what it inserts is what the changeset inserts at it. */
  ghost predicate RegionOk(ops: seq<Op>, r: Region) {
    (r.start < r.end || r.inserted != []) && r.inserted == InsertedOver(ops, r.start, r.end)
  }

  /** The regions are the edits up to `upto`: they hold exactly the deleted chars and every place of an insertion. */
  ghost predicate EditsOf(ops: seq<Op>, regions: seq<Region>, upto: nat) {
    && (forall q :: 0 <= q < upto ==> (Deletes(regions, q) <==> Image(ops, q).None?))
    && (forall i :: 0 <= i < |regions| ==> RegionOk(ops, regions[i]))
    && (forall p {:trigger Reaches(regions, p)} {:trigger InsertedAt(ops, p)} :: 0 <= p && InsertedAt(ops, p) != [] ==>
          Reaches(regions, p))
  }

  // ---- One op more ----

  lemma {:induction false} ImageMore(ops: seq<Op>, op: Op, q: nat)
    ensures Image(ops + [op], q).None? <==>
              Image(ops, q).None? || (op.Delete? && Consumed(ops) <= q < Consumed(ops) + op.n)
  {
    if ops == [] {
      assert [] + [op] == [op] && [op][1..] == [];
    } else {
      assert (ops + [op])[1..] == ops[1..] + [op];
      match ops[0]
      case Retain(n) => if q >= n { ImageMore(ops[1..], op, q - n); }
      case Delete(n) => if q >= n { ImageMore(ops[1..], op, q - n); }
      case Insert(s) => ImageMore(ops[1..], op, q);
    }
  }

  lemma {:induction false} InsertedMore(ops: seq<Op>, op: Op, p: nat)
    ensures InsertedAt(ops + [op], p)
         == InsertedAt(ops, p) + if op.Insert? && p == Consumed(ops) then op.s else []
    decreases |ops|
  {
    if ops == [] {
      assert [] + [op] == [op] && [op][1..] == [];
    } else {
      assert (ops + [op])[1..] == ops[1..] + [op];
      match ops[0]
      case Retain(n) => if p >= n { InsertedMore(ops[1..], op, p - n); }
      case Delete(n) => if p >= n { InsertedMore(ops[1..], op, p - n); }
      case Insert(s) => InsertedMore(ops[1..], op, p);
    }
  }

  lemma {:induction false} InsertedPast(ops: seq<Op>, p: nat)
    requires p > Consumed(ops)
    ensures InsertedAt(ops, p) == []
  {
    if ops != [] {
      match ops[0]
      case Retain(n) => InsertedPast(ops[1..], p - n);
      case Delete(n) => InsertedPast(ops[1..], p - n);
      case Insert(s) => InsertedPast(ops[1..], p);
    }
  }

  lemma {:induction false} OverPast(ops: seq<Op>, from: nat, mid: nat, till: nat)
    requires Consumed(ops) <= mid <= till && from <= mid
    ensures InsertedOver(ops, from, till) == InsertedOver(ops, from, mid)
    decreases till
  {
    if mid < till {
      InsertedPast(ops, till);
      OverPast(ops, from, mid, till - 1);
    }
  }

  lemma AllMore(ops: seq<Op>, op: Op, more: seq<Op>)
    requires more == ops + [op]
    ensures forall q :: 0 <= q ==>
              (Image(more, q).None? <==>
                 Image(ops, q).None? || (op.Delete? && Consumed(ops) <= q < Consumed(ops) + op.n))
    ensures forall p :: 0 <= p ==>
              InsertedAt(more, p) == InsertedAt(ops, p) + if op.Insert? && p == Consumed(ops) then op.s else []
  {
    forall q: nat ensures Image(more, q).None? <==>
        Image(ops, q).None? || (op.Delete? && Consumed(ops) <= q < Consumed(ops) + op.n) {
      ImageMore(ops, op, q);
    }
    forall p: nat
      ensures InsertedAt(more, p) == InsertedAt(ops, p) + if op.Insert? && p == Consumed(ops) then op.s else []
    {
      InsertedMore(ops, op, p);
    }
  }

  lemma {:induction false} ImagePast(ops: seq<Op>, q: nat)
    requires q >= Consumed(ops)
    ensures Image(ops, q).Some?
  {
    if ops != [] {
      match ops[0]
      case Retain(n) => ImagePast(ops[1..], q - n);
      case Delete(n) => ImagePast(ops[1..], q - n);
      case Insert(s) => ImagePast(ops[1..], q);
    }
  }

  lemma SnocDeletes(init: seq<Region>, x: Region, q: nat)
    ensures Deletes(init + [x], q) <==> Deletes(init, q) || x.start <= q < x.end
  {
    var all := init + [x];
    if Deletes(init, q) {
      var i :| 0 <= i < |init| && init[i].start <= q < init[i].end;
      assert all[i] == init[i];
    }
    if x.start <= q < x.end { assert all[|init|] == x; }
  }

  lemma SnocReaches(init: seq<Region>, x: Region, p: nat)
    ensures Reaches(init + [x], p) <==> Reaches(init, p) || x.start <= p <= x.end
  {
    var all := init + [x];
    if Reaches(init, p) {
      var i :| 0 <= i < |init| && init[i].start <= p <= init[i].end;
      assert all[i] == init[i];
    }
    if x.start <= p <= x.end { assert all[|init|] == x; }
  }

  lemma ConsumedMore(ops: seq<Op>, op: Op, more: seq<Op>)
    requires more == ops + [op]
    ensures Consumed(more) == Consumed(ops) + match op case Retain(n) => n case Delete(n) => n case Insert(_) => 0
  {
    ConsumedNext(more, |ops|);
    assert more[..|ops|] == ops && more[..|ops| + 1] == more && [op][1..] == [];
  }

  /** A region before the new op is as it was. */
  lemma EarlierOk(ops: seq<Op>, op: Op, more: seq<Op>, r: Region)
    requires more == ops + [op] && RegionOk(ops, r) && (op.Insert? ==> r.end < Consumed(ops))
    ensures RegionOk(more, r)
  {
    OverSame(ops, op, more, r.start, r.end);
  }

  lemma {:induction false} OverSame(ops: seq<Op>, op: Op, more: seq<Op>, from: nat, till: nat)
    requires more == ops + [op] && (op.Insert? ==> till < Consumed(ops))
    ensures InsertedOver(more, from, till) == InsertedOver(ops, from, till)
    decreases till
  {
    InsertedMore(ops, op, till);
    assert InsertedAt(ops, till) + [] == InsertedAt(ops, till);
    if from <= till && till > 0 { OverSame(ops, op, more, from, till - 1); }
  }

  lemma OverInsert(ops: seq<Op>, op: Op, more: seq<Op>, from: nat, at: nat)
    requires more == ops + [op] && op.Insert? && at == Consumed(ops) && from <= at
    ensures InsertedOver(more, from, at) == InsertedOver(ops, from, at) + op.s
  {
    InsertedMore(ops, op, at);
    if at > 0 { OverSame(ops, op, more, from, at - 1); }
    var head := if at == 0 then [] else InsertedOver(ops, from, at - 1);
    assert head + (InsertedAt(ops, at) + op.s) == (head + InsertedAt(ops, at)) + op.s;
  }

  /** What an edit at the end of the ops adds to what is inserted. */
  lemma OverMore(ops: seq<Op>, op: Op, more: seq<Op>, from: nat)
    requires more == ops + [op] && !op.Retain? && from <= Consumed(ops)
    ensures Consumed(more) == Consumed(ops) + if op.Delete? then op.n else 0
    ensures InsertedOver(more, from, Consumed(more))
         == InsertedOver(ops, from, Consumed(ops)) + if op.Insert? then op.s else []
  {
    var at := Consumed(ops);
    ConsumedMore(ops, op, more);
    if op.Delete? {
      OverSame(ops, op, more, from, at + op.n);
      OverPast(ops, from, at, at + op.n);
    } else {
      OverInsert(ops, op, more, from, at);
    }
  }

  /** A kept stretch leaves the regions as they are. */
  lemma RetainStep(ops: seq<Op>, op: Op, more: seq<Op>, regions: seq<Region>)
    requires more == ops + [op] && op.Retain? && Fits(regions, 0, Consumed(ops))
    requires EditsOf(ops, regions, Consumed(ops))
    ensures Consumed(more) == Consumed(ops) + op.n && EditsOf(more, regions, Consumed(more))
  {
    AllMore(ops, op, more);
    ConsumedMore(ops, op, more);
    forall i | 0 <= i < |regions| ensures RegionOk(more, regions[i]) {
      EarlierOk(ops, op, more, regions[i]);
    }
    forall q | 0 <= q < Consumed(more) ensures Deletes(regions, q) <==> Image(more, q).None? {
      if q >= Consumed(ops) { ImagePast(ops, q); }
    }
  }

  function Few(was: Option<Region>): seq<Region> {
    if was.Some? then [was.value] else []
  }

  /** `x` is the edit `op` on its own, or grown onto the last region `was` that ends where it starts. */
  ghost predicate JoinedOn(ops: seq<Op>, op: Op, init: seq<Region>, was: Option<Region>, x: Region) {
    var (at, s, n) := (Consumed(ops), if op.Insert? then op.s else [], if op.Delete? then op.n else 0);
    && !op.Retain? && !IsEmpty(op) && Fits(init + Few(was), 0, at)
    && (was.None? ==> (init != [] ==> init[|init| - 1].end < at) && x == Region(at, at + n, s))
    && (was.Some? ==> was.value.end == at && x == Region(was.value.start, at + n, was.value.inserted + s))
  }

  lemma InitBefore(ops: seq<Op>, op: Op, init: seq<Region>, was: Option<Region>, x: Region)
    requires JoinedOn(ops, op, init, was, x)
    ensures forall i :: 0 <= i < |init| ==> init[i].start <= init[i].end < Consumed(ops)
    ensures x.start <= Consumed(ops)
  {
    var all := init + Few(was);
    if was.Some? { assert all[|init|] == was.value; }
    forall i | 0 <= i < |init| ensures init[i].start <= init[i].end < Consumed(ops) {
      assert all[i] == init[i];
      if i + 1 < |all| { assert all[i].end < all[|all| - 1].start; }
    }
  }

  lemma PartsOk(ops: seq<Op>, init: seq<Region>, was: Option<Region>)
    requires EditsOf(ops, init + Few(was), Consumed(ops))
    ensures forall i :: 0 <= i < |init| ==> RegionOk(ops, init[i])
    ensures was.Some? ==> RegionOk(ops, was.value)
  {
    var all := init + Few(was);
    forall i | 0 <= i < |init| ensures RegionOk(ops, init[i]) { assert all[i] == init[i]; }
    if was.Some? { assert all[|init|] == was.value; }
  }

  lemma NoneAt(ops: seq<Op>, init: seq<Region>)
    requires EditsOf(ops, init, Consumed(ops)) && forall i :: 0 <= i < |init| ==> init[i].end < Consumed(ops)
    ensures InsertedOver(ops, Consumed(ops), Consumed(ops)) == []
  {
    var at := Consumed(ops);
    assert !Reaches(init, at);
    assert at > 0 ==> InsertedOver(ops, at, at - 1) == [];
  }

  lemma JoinedOk(ops: seq<Op>, op: Op, more: seq<Op>, init: seq<Region>, was: Option<Region>, x: Region)
    requires more == ops + [op] && JoinedOn(ops, op, init, was, x) && EditsOf(ops, init + Few(was), Consumed(ops))
    ensures Consumed(more) == x.end && RegionOk(more, x)
  {
    InitBefore(ops, op, init, was, x);
    PartsOk(ops, init, was);
    OverMore(ops, op, more, x.start);
    if was.None? {
      assert init + Few(was) == init;
      NoneAt(ops, init);
    }
  }

  lemma JoinedDeletes(ops: seq<Op>, op: Op, more: seq<Op>, init: seq<Region>, was: Option<Region>, x: Region, q: nat)
    requires more == ops + [op] && JoinedOn(ops, op, init, was, x) && EditsOf(ops, init + Few(was), Consumed(ops))
    requires q < x.end
    ensures Deletes(init + [x], q) <==> Image(more, q).None?
  {
    ImageMore(ops, op, q);
    SnocDeletes(init, x, q);
    if was.Some? { SnocDeletes(init, was.value, q); } else { assert init + Few(was) == init; }
    if q >= Consumed(ops) {
      InitBefore(ops, op, init, was, x);
      ImagePast(ops, q);
    }
  }

  lemma JoinedReaches(ops: seq<Op>, op: Op, more: seq<Op>, init: seq<Region>, was: Option<Region>, x: Region, p: nat)
    requires more == ops + [op] && JoinedOn(ops, op, init, was, x) && EditsOf(ops, init + Few(was), Consumed(ops))
    requires InsertedAt(more, p) != []
    ensures Reaches(init + [x], p)
  {
    InsertedMore(ops, op, p);
    SnocReaches(init, x, p);
    if was.Some? { SnocReaches(init, was.value, p); } else { assert init + Few(was) == init; }
    if p == Consumed(ops) { InitBefore(ops, op, init, was, x); }
  }

  /** The regions with an edit at the end of the ops: `x` takes the place of a last region that touches it. */
  lemma EditStep(ops: seq<Op>, op: Op, more: seq<Op>, init: seq<Region>, was: Option<Region>, x: Region)
    requires more == ops + [op] && JoinedOn(ops, op, init, was, x) && EditsOf(ops, init + Few(was), Consumed(ops))
    ensures Consumed(more) == x.end && EditsOf(more, init + [x], x.end)
  {
    JoinedOk(ops, op, more, init, was, x);
    InitBefore(ops, op, init, was, x);
    PartsOk(ops, init, was);
    var all := init + [x];
    forall i | 0 <= i < |all| ensures RegionOk(more, all[i]) {
      if i < |init| { EarlierOk(ops, op, more, init[i]); }
    }
    forall q | 0 <= q < x.end ensures Deletes(all, q) <==> Image(more, q).None? {
      JoinedDeletes(ops, op, more, init, was, x, q);
    }
    forall p | 0 <= p && InsertedAt(more, p) != [] ensures Reaches(all, p) {
      JoinedReaches(ops, op, more, init, was, x, p);
    }
  }

  // ---- No other regions ----

  ghost predicate Exactly(ops: seq<Op>, regions: seq<Region>, upto: nat) {
    Fits(regions, 0, upto) && EditsOf(ops, regions, upto)
  }

  lemma {:induction false} OverEmpty(ops: seq<Op>, p: nat)
    requires InsertedAt(ops, p) == []
    ensures InsertedOver(ops, p, p) == []
  {
    assert p > 0 ==> InsertedOver(ops, p, p - 1) == [];
  }

  lemma StartTouched(ops: seq<Op>, a: seq<Region>, b: seq<Region>, upto: nat, k: nat)
    requires Exactly(ops, a, upto) && Exactly(ops, b, upto) && k < |a|
    ensures Reaches(b, a[k].start)
  {
    var p := a[k].start;
    assert RegionOk(ops, a[k]);
    if p < a[k].end {
      assert Deletes(a, p);
      var j :| 0 <= j < |b| && b[j].start <= p < b[j].end;
    } else if InsertedAt(ops, p) == [] {
      OverEmpty(ops, p);
    }
  }

  lemma StartsAtMost(ops: seq<Op>, a: seq<Region>, b: seq<Region>, upto: nat, k: nat)
    requires Exactly(ops, a, upto) && Exactly(ops, b, upto) && k < |a| && k <= |b| && a[..k] == b[..k]
    ensures k < |b| && b[k].start <= a[k].start
  {
    StartTouched(ops, a, b, upto, k);
    forall j | 0 <= j < k ensures b[j].end < a[k].start {
      assert b[j] == b[..k][j] && a[j] == a[..k][j];
    }
    var j :| 0 <= j < |b| && b[j].start <= a[k].start <= b[j].end;
    if k < j { assert b[k].end < b[j].start; }
  }

  lemma EndsAtMost(ops: seq<Op>, a: seq<Region>, b: seq<Region>, upto: nat, k: nat)
    requires Exactly(ops, a, upto) && Exactly(ops, b, upto) && k < |a| && k < |b| && a[k].start == b[k].start
    ensures b[k].end <= a[k].end
  {
    var q := a[k].end;
    forall j | 0 <= j < |a| ensures !(a[j].start <= q < a[j].end) {
      if j < k { assert a[j].end < a[k].start; }
    }
    assert !Deletes(a, q);
    if q < b[k].end { assert Deletes(b, q); }
  }

  /** A changeset has these regions and no others. */
  lemma RegionsUnique(ops: seq<Op>, a: seq<Region>, b: seq<Region>, upto: nat)
    requires Exactly(ops, a, upto) && Exactly(ops, b, upto)
    ensures a == b
  {
    SameFirst(ops, a, b, upto, |a|);
    SameFirst(ops, b, a, upto, |b|);
    assert a[..|a|] == a && b[..|b|] == b;
  }

  lemma {:induction false} SameFirst(ops: seq<Op>, a: seq<Region>, b: seq<Region>, upto: nat, k: nat)
    requires Exactly(ops, a, upto) && Exactly(ops, b, upto) && k <= |a|
    ensures k <= |b| && a[..k] == b[..k]
    decreases k
  {
    if k > 0 {
      var i := k - 1;
      SameFirst(ops, a, b, upto, i);
      StartsAtMost(ops, a, b, upto, i);
      StartsAtMost(ops, b, a, upto, i);
      EndsAtMost(ops, a, b, upto, i);
      EndsAtMost(ops, b, a, upto, i);
      assert RegionOk(ops, a[i]) && RegionOk(ops, b[i]);
      assert a[..k] == a[..i] + [a[i]] && b[..k] == b[..i] + [b[i]];
    }
  }
}
