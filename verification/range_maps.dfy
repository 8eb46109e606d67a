/** Many ranges mapped in two passes: the starts in order, then the ends in an order of their own. */
module RangeMaps {
  import opened ChangeSets
  import opened Integers
  import opened Sequences
  import opened PositionMaps

  type Range = (nat, nat)

  ghost predicate ByStart(ranges: seq<Range>) {
    forall i, j :: 0 <= i < j < |ranges| ==> ranges[i].0 <= ranges[j].0
  }

  ghost predicate Ordered(ends: seq<nat>, order: seq<nat>) {
    && (forall k :: 0 <= k < |order| ==> order[k] < |ends|)
    && (forall j, k :: 0 <= j < k < |order| ==> order[j] != order[k] && ends[order[j]] <= ends[order[k]])
  }

  /** The indices in an order that sorts what they point at. */
  method EndOrder(ends: seq<nat>) returns (order: seq<nat>)
    ensures Ordered(ends, order) && forall i :: 0 <= i < |ends| ==> i in order
  {
    order := [];
    for n := 0 to |ends|
      invariant Ordered(ends, order) && forall i :: i in order <==> 0 <= i < n
    {
      order := Placed(ends, order, n);
    }
  }

  method Placed(ends: seq<nat>, order: seq<nat>, n: nat) returns (r: seq<nat>)
    requires Ordered(ends, order) && n < |ends| && n !in order
    ensures Ordered(ends, r) && forall i :: i in r <==> i in order || i == n
  {
    var k := PlaceOf(ends, order, n);
    r := order[..k] + [n] + order[k..];
    ghost var a, b := order[..k], order[k..];
    SplitAt(order, k);
    TailAbove(ends, n, order, k, b);
    PlacedOrdered(ends, a, b, order, n, r);
  }

  method PlaceOf(ends: seq<nat>, order: seq<nat>, n: nat) returns (k: nat)
    requires Ordered(ends, order) && n < |ends|
    ensures k <= |order| && (k > 0 ==> ends[order[k - 1]] <= ends[n])
    ensures forall j :: k <= j < |order| ==> ends[order[j]] > ends[n]
  {
    k := |order|;
    while k > 0 && ends[order[k - 1]] > ends[n]
      invariant 0 <= k <= |order| && forall j :: k <= j < |order| ==> ends[order[j]] > ends[n]
    {
      k := k - 1;
    }
  }

  lemma TailAbove(ends: seq<nat>, n: nat, order: seq<nat>, k: nat, b: seq<nat>)
    requires n < |ends| && k <= |order| && b == order[k..]
    requires forall j :: k <= j < |order| ==> order[j] < |ends| && ends[order[j]] > ends[n]
    ensures forall j :: 0 <= j < |b| ==> b[j] < |ends| && ends[b[j]] > ends[n]
  {
    forall j | 0 <= j < |b| ensures b[j] < |ends| && ends[b[j]] > ends[n] {
      var i := order[k + j];
      assert b[j] == i;
    }
  }

  lemma PlacedOrdered(ends: seq<nat>, a: seq<nat>, b: seq<nat>, order: seq<nat>, n: nat, r: seq<nat>)
    requires n < |ends| && order == a + b && Ordered(ends, order) && n !in order && r == a + [n] + b
    requires a != [] ==> a[|a| - 1] < |ends| && ends[a[|a| - 1]] <= ends[n]
    requires forall j :: 0 <= j < |b| ==> b[j] < |ends| && ends[b[j]] > ends[n]
    ensures Ordered(ends, r) && forall i :: i in r <==> i in order || i == n
  {
    forall j | 0 <= j < |a| ensures a[j] < |ends| && ends[a[j]] <= ends[n] && a[j] != n {
      assert order[j] == a[j] && order[|a| - 1] == a[|a| - 1] && order[j] in order;
    }
    forall j, k | 0 <= j < k < |r| ensures r[j] < |ends| && r[k] < |ends| && r[j] != r[k] && ends[r[j]] <= ends[r[k]] {
      PlacedPair(ends, a, b, order, n, r, j, k);
    }
    forall i ensures i in r <==> i in order || i == n {
      assert i in r <==> i in a || i == n || i in b;
      assert i in order <==> i in a || i in b;
    }
    if |r| == 1 { assert r[0] == n; }
  }

  lemma PlacedPair(ends: seq<nat>, a: seq<nat>, b: seq<nat>, order: seq<nat>, n: nat, r: seq<nat>, j: nat, k: nat)
    requires n < |ends| && order == a + b && Ordered(ends, order) && n !in order && r == a + [n] + b && j < k < |r|
    requires forall j :: 0 <= j < |a| ==> a[j] < |ends| && ends[a[j]] <= ends[n] && a[j] != n
    requires forall j :: 0 <= j < |b| ==> b[j] < |ends| && ends[b[j]] > ends[n]
    ensures r[j] < |ends| && r[k] < |ends| && r[j] != r[k] && ends[r[j]] <= ends[r[k]]
  {
    var oj, ok := if j < |a| then j else j - 1, if k < |a| then k else k - 1;
    if j != |a| { assert r[j] == order[oj] && order[oj] in order; }
    if k != |a| { assert r[k] == order[ok] && order[ok] in order; }
    if j == |a| { assert r[k] == b[k - |a| - 1]; }
  }

  /** Starts are mapped, ends are not yet, but for those of `done`. */
  ghost predicate HalfWay(ops: seq<Op>, was: seq<Range>, now: seq<Range>, done: seq<nat>) {
    && |now| == |was|
    && forall i: nat :: i < |was| ==>
         now[i].0 == MapAnchor(ops, was[i].0, After).pos
         && now[i].1 == if i in done then MapAnchor(ops, was[i].1, Before).pos else was[i].1
  }

  method MapRanges(ops: seq<Op>, ranges: array<Range>)
    requires ByStart(ranges[..])
    modifies ranges
    ensures forall i :: 0 <= i < ranges.Length ==> ranges[i] == MapRange(ops, old(ranges[i].0), old(ranges[i].1))
  {
    ghost var was := ranges[..];
    MapStarts(ops, ranges);
    var ends := seq(ranges.Length, i requires 0 <= i < ranges.Length reads ranges => ranges[i].1);
    var order := EndOrder(ends);
    MapEnds(ops, ranges, ends, order, was);
    for i := 0 to ranges.Length
      invariant forall j :: i <= j < ranges.Length ==>
                  ranges[j] == (MapAnchor(ops, was[j].0, After).pos, MapAnchor(ops, was[j].1, Before).pos)
      invariant forall j :: 0 <= j < i ==> ranges[j] == MapRange(ops, was[j].0, was[j].1)
    {
      ranges[i] := (ranges[i].0, Max(ranges[i].1, ranges[i].0));
    }
  }

  method MapStarts(ops: seq<Op>, ranges: array<Range>)
    requires ByStart(ranges[..])
    modifies ranges
    ensures HalfWay(ops, old(ranges[..]), ranges[..], [])
  {
    ghost var was := ranges[..];
    var cursor := new PosMapCursor(ops);
    for i := 0 to ranges.Length
      invariant cursor.Valid() && cursor.ops == ops && ranges[i..] == was[i..]
      invariant i < ranges.Length ==> cursor.last <= was[i].0
      invariant forall j :: 0 <= j < i ==> ranges[j] == (MapAnchor(ops, was[j].0, After).pos, was[j].1)
    {
      assert ranges[i] == ranges[i..][0] == was[i];
      var m := cursor.Map(ranges[i].0, After);
      ranges[i] := (m.pos, ranges[i].1);
    }
  }

  method MapEnds(ops: seq<Op>, ranges: array<Range>, ghost ends: seq<nat>, order: seq<nat>, ghost was: seq<Range>)
    requires HalfWay(ops, was, ranges[..], []) && |ends| == |was| && forall i :: 0 <= i < |was| ==> ends[i] == was[i].1
    requires Ordered(ends, order) && forall i :: 0 <= i < |ends| ==> i in order
    modifies ranges
    ensures HalfWay(ops, was, ranges[..], order)
  {
    var cursor := new PosMapCursor(ops);
    for k := 0 to |order|
      invariant cursor.Valid() && cursor.ops == ops
      invariant k < |order| ==> cursor.last <= ends[order[k]]
      invariant HalfWay(ops, was, ranges[..], order[..k])
    {
      var i := order[k];
      assert i !in order[..k];
      var m := cursor.Map(ranges[i].1, Before);
      ranges[i] := (ranges[i].0, m.pos);
      assert order[..k + 1] == order[..k] + [i];
    }
    assert order[..|order|] == order;
  }
}
