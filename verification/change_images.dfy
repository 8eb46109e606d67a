/** Where the surviving characters land through inversion and composition: neither touches a character more than the
    changes it is made of. */
module ChangeImages {
  import opened Wrappers
  import opened Integers
  import opened ChangeSets
  import opened PositionMaps

  lemma ShiftTwice(m: nat, n: nat, p: Option<nat>)
    ensures Shifted(m, Shifted(n, p)) == Shifted(m + n, p) && Shifted(0, p) == p
  {
  }

  lemma {:induction false} ImageInFirst(x: seq<Op>, y: seq<Op>, q: nat)
    requires q < Consumed(x)
    ensures Image(x + y, q) == Image(x, q)
    decreases |x|
  {
    assert (x + y)[1..] == x[1..] + y;
    match x[0]
    case Retain(n) => if q >= n { ImageInFirst(x[1..], y, q - n); }
    case Delete(n) => if q >= n { ImageInFirst(x[1..], y, q - n); }
    case Insert(s) => ImageInFirst(x[1..], y, q);
  }

  lemma {:induction false} ImageInSecond(x: seq<Op>, y: seq<Op>, q: nat)
    ensures Image(x + y, Consumed(x) + q) == Shifted(Produced(x), Image(y, q))
    decreases |x|
  {
    ShiftTwice(0, 0, Image(y, q));
    if x == [] {
      assert x + y == y;
    } else {
      assert (x + y)[1..] == x[1..] + y;
      ImageInSecond(x[1..], y, q);
      match x[0]
      case Retain(n) => ShiftTwice(n, Produced(x[1..]), Image(y, q));
      case Delete(n) =>
      case Insert(s) => ShiftTwice(|s|, Produced(x[1..]), Image(y, q));
    }
  }

  /** Lists with images alike, lengths alike, have images alike before and behind any others. */
  ghost predicate SameImages(x: seq<Op>, y: seq<Op>) {
    Consumed(x) == Consumed(y) && Produced(x) == Produced(y) && forall q: nat :: Image(x, q) == Image(y, q)
  }

  lemma ImageSplit(x: seq<Op>, y: seq<Op>, q: nat)
    ensures Image(x + y, q)
         == if q < Consumed(x) then Image(x, q) else Shifted(Produced(x), Image(y, q - Consumed(x)))
  {
    if q < Consumed(x) { ImageInFirst(x, y, q); } else { ImageInSecond(x, y, q - Consumed(x)); }
  }

  lemma SameAround(before: seq<Op>, x: seq<Op>, y: seq<Op>, after: seq<Op>)
    requires SameImages(x, y)
    ensures SameImages(before + x + after, before + y + after)
  {
    SplitLengths(before, x);
    SplitLengths(before, y);
    SplitLengths(before + x, after);
    SplitLengths(before + y, after);
    forall q: nat ensures Image(before + x + after, q) == Image(before + y + after, q) {
      ImageSplit(before + x, after, q);
      ImageSplit(before + y, after, q);
      ImageSplit(before, x, q);
      ImageSplit(before, y, q);
    }
  }

  // ---- The normal form ----

  lemma OneImage(op: Op, q: nat)
    ensures Image([op], q)
         == match op
            case Retain(n) => Some(q)
            case Delete(n) => if q < n then None else Some(q - n)
            case Insert(s) => Some(|s| + q)
  {
    assert [op][1..] == [];
  }

  lemma TwoImages(a: Op, b: Op)
    requires SameKind(a, b)
    ensures SameImages([Merge(a, b)], [a, b])
  {
    assert [a, b][1..] == [b] && [b][1..] == [] && [Merge(a, b)][1..] == [];
    forall q: nat ensures Image([Merge(a, b)], q) == Image([a, b], q) {
      OneImage(Merge(a, b), q);
      OneImage(b, q);
      if !a.Insert? && q >= Len(a) { OneImage(b, q - Len(a)); }
    }
  }

  lemma EmptyImage(op: Op)
    requires IsEmpty(op)
    ensures SameImages([], [op])
  {
    assert [op][1..] == [];
    forall q: nat ensures Image([], q) == Image([op], q) { OneImage(op, q); }
  }

  lemma PushedImages(ops: seq<Op>, op: Op)
    ensures SameImages(PushMerge(ops, op), ops + [op])
  {
    if IsEmpty(op) {
      EmptyImage(op);
      SameAround(ops, [], [op], []);
      assert ops + [] + [] == ops && ops + [op] + [] == ops + [op];
    } else if ops != [] && SameKind(ops[|ops| - 1], op) {
      var init, last := ops[..|ops| - 1], ops[|ops| - 1];
      TwoImages(last, op);
      SameAround(init, [Merge(last, op)], [last, op], []);
      assert init + [Merge(last, op)] + [] == init + [Merge(last, op)];
      assert init + [last, op] + [] == ops + [op];
    }
  }

  lemma SameTwice(x: seq<Op>, y: seq<Op>, z: seq<Op>)
    requires SameImages(x, y) && SameImages(y, z)
    ensures SameImages(x, z)
  {
  }

  /** Bringing ops into normal form moves no character. */
  lemma {:induction false} NormalImages(ops: seq<Op>, more: seq<Op>)
    ensures SameImages(PushAll(ops, more), ops + more)
    decreases |more|
  {
    if more == [] {
      assert ops + more == ops;
    } else {
      var rest, pushed := more[1..], PushMerge(ops, more[0]);
      NormalImages(pushed, rest);
      PushedImages(ops, more[0]);
      NormalNext(ops, more[0], rest, pushed, PushAll(ops, more));
      assert more == [more[0]] + rest;
    }
  }

  lemma NormalNext(ops: seq<Op>, op: Op, rest: seq<Op>, pushed: seq<Op>, result: seq<Op>)
    requires SameImages(result, pushed + rest) && SameImages(pushed, ops + [op])
    ensures SameImages(result, ops + ([op] + rest))
  {
    SameAround([], pushed, ops + [op], rest);
    assert [] + pushed + rest == pushed + rest && [] + (ops + [op]) + rest == ops + ([op] + rest);
    SameTwice(result, pushed + rest, ops + ([op] + rest));
  }

  // ---- Composition ----

  /** Where a character goes by one change and then another. */
  function Through(p: Option<nat>, ops: seq<Op>): Option<nat> {
    if p.None? then None else Image(ops, p.value)
  }

  lemma Advanced(ops: seq<Op>, n: nat, q: nat)
    requires ops != [] && n <= Len(ops[0])
    ensures Image(ops, q)
         == match ops[0]
            case Retain(_) => if q < n then Some(q) else Shifted(n, Image(Advance(ops, n), q - n))
            case Delete(_) => if q < n then None else Image(Advance(ops, n), q - n)
            case Insert(_) => Shifted(n, Image(Advance(ops, n), q))
  {
    if n < Len(ops[0]) {
      var next := Advance(ops, n);
      assert next[0] == Rest(ops[0], n) && next[1..] == ops[1..];
      match ops[0]
      case Retain(k) => if q >= k { ShiftTwice(n, k - n, Image(ops[1..], q - k)); }
      case Delete(k) =>
      case Insert(s) => ShiftTwice(n, |s| - n, Image(ops[1..], q));
    }
  }

  lemma {:induction false} RawImages(a: seq<Op>, b: seq<Op>, q: nat)
    requires Positive(a) && Positive(b) && Produced(a) == Consumed(b)
    ensures Image(ComposeRaw(a, b), q) == Through(Image(a, q), b)
    decreases |a| + |b|
  {
    var raw := ComposeRaw(a, b);
    if a == [] && b == [] {
    } else if a != [] && a[0].Delete? {
      assert raw[1..] == ComposeRaw(a[1..], b);
      if q >= a[0].n { RawImages(a[1..], b, q - a[0].n); }
    } else if b != [] && b[0].Insert? {
      assert raw[1..] == ComposeRaw(a, b[1..]);
      RawImages(a, b[1..], q);
    } else {
      if a == [] { PositiveTotals(b); }
      if b == [] { PositiveTotals(a); }
      RawStep(a, b, q);
    }
  }

  lemma {:induction false} RawStep(a: seq<Op>, b: seq<Op>, q: nat)
    requires Positive(a) && Positive(b) && Produced(a) == Consumed(b)
    requires a != [] && b != [] && !a[0].Delete? && !b[0].Insert?
    ensures Image(ComposeRaw(a, b), q) == Through(Image(a, q), b)
    decreases |a| + |b|, 0
  {
    var n := Min(Len(a[0]), Len(b[0]));
    var a', b' := Advance(a, n), Advance(b, n);
    AdvanceLengths(a, n);
    AdvanceLengths(b, n);
    if a[0].Insert? {
      RawImages(a', b', q);
      InsertedStep(a, b, n, a', b', ComposeRaw(a', b'), q);
    } else {
      if q >= n { RawImages(a', b', q - n); }
      RetainedStep(a, b, n, a', b', ComposeRaw(a', b'), q);
    }
  }

  lemma InsertedStep(a: seq<Op>, b: seq<Op>, n: nat, a': seq<Op>, b': seq<Op>, tail: seq<Op>, q: nat)
    requires a != [] && b != [] && a[0].Insert? && !b[0].Insert? && n <= Len(a[0]) && n <= Len(b[0])
    requires a' == Advance(a, n) && b' == Advance(b, n) && Image(tail, q) == Through(Image(a', q), b')
    ensures Image(Combine(a[0], b[0], n) + tail, q) == Through(Image(a, q), b)
  {
    Advanced(a, n, q);
    if Image(a, q).Some? { Advanced(b, n, Image(a, q).value); }
    CombinedImages(a[0], b[0], n, tail, q);
  }

  lemma RetainedStep(a: seq<Op>, b: seq<Op>, n: nat, a': seq<Op>, b': seq<Op>, tail: seq<Op>, q: nat)
    requires a != [] && b != [] && a[0].Retain? && !b[0].Insert? && n <= Len(a[0]) && n <= Len(b[0])
    requires a' == Advance(a, n) && b' == Advance(b, n)
    requires q >= n ==> Image(tail, q - n) == Through(Image(a', q - n), b')
    ensures Image(Combine(a[0], b[0], n) + tail, q) == Through(Image(a, q), b)
  {
    Advanced(a, n, q);
    if Image(a, q).Some? { Advanced(b, n, Image(a, q).value); }
    CombinedImages(a[0], b[0], n, tail, q);
  }

  lemma CombinedImages(a: Op, b: Op, n: nat, tail: seq<Op>, q: nat)
    requires !a.Delete? && !b.Insert? && n <= Len(a) && n <= Len(b)
    ensures Image(Combine(a, b, n) + tail, q)
         == if a.Insert? then (if b.Retain? then Shifted(n, Image(tail, q)) else Image(tail, q))
            else if q < n then (if b.Retain? then Some(q) else None)
            else if b.Retain? then Shifted(n, Image(tail, q - n)) else Image(tail, q - n)
  {
    var c := Combine(a, b, n);
    if c == [] { assert c + tail == tail; } else { assert (c + tail)[1..] == tail; }
  }

  /** A character goes through a composition where the one change and then the other take it. */
  lemma ComposedImage(a: ChangeSet, b: ChangeSet, q: nat)
    requires a.Valid() && b.Valid() && a.lenAfter == b.lenBefore
    ensures Image(Composed(a, b).ops, q) == Through(Image(a.ops, q), b.ops)
  {
    var raw := ComposeRaw(a.ops, b.ops);
    NormalImages([], raw);
    assert [] + raw == raw;
    RawImages(a.ops, b.ops, q);
  }

  // ---- A whole run ----

  ghost function ThroughAll(p: Option<nat>, css: seq<ChangeSet>): Option<nat>
    decreases |css|
  {
    if css == [] then p else ThroughAll(Through(p, css[0].ops), css[1..])
  }

  lemma FirstTwo(css: seq<ChangeSet>, paired: seq<ChangeSet>, p: Option<nat>, both: Option<nat>)
    requires |css| >= 2 && Chained(css) && paired == PairUp(css)
    requires both == Through(Through(p, css[0].ops), css[1].ops) == Through(p, Composed(css[0], css[1]).ops)
    ensures ThroughAll(p, css) == ThroughAll(both, css[2..])
    ensures ThroughAll(p, paired) == ThroughAll(both, PairUp(css[2..]))
  {
    assert paired[1..] == PairUp(css[2..]) && css[1..][1..] == css[2..];
  }

  lemma {:induction false} PairedImages(css: seq<ChangeSet>, p: Option<nat>)
    requires Chained(css)
    ensures ThroughAll(p, PairUp(css)) == ThroughAll(p, css)
    decreases |css|
  {
    if |css| >= 2 {
      var both := Through(Through(p, css[0].ops), css[1].ops);
      if p.Some? { ComposedImage(css[0], css[1], p.value); }
      PairedImages(css[2..], both);
      FirstTwo(css, PairUp(css), p, both);
    }
  }

  /** And through the net of a whole run where the run takes it. */
  lemma {:induction false} NetImage(css: seq<ChangeSet>, q: nat)
    requires Chained(css) && css != []
    ensures Image(Net(css).ops, q) == ThroughAll(Some(q), css)
    decreases |css|
  {
    if |css| == 1 {
      assert css[1..] == [];
    } else {
      PairedImages(css, Some(q));
      NetImage(PairUp(css), q);
    }
  }

  // ---- Inversion ----

  lemma {:induction false} RawInverseImage(ops: seq<Op>, t: string, q: nat)
    requires Consumed(ops) == |t| && Image(ops, q).Some?
    ensures Image(InvertRaw(ops, t), Image(ops, q).value) == Some(q)
    decreases |ops|
  {
    if ops != [] {
      var raw := InvertRaw(ops, t);
      match ops[0]
      case Retain(n) =>
        assert raw[1..] == InvertRaw(ops[1..], t[n..]);
        if q >= n { RawInverseImage(ops[1..], t[n..], q - n); }
      case Delete(n) =>
        assert raw[1..] == InvertRaw(ops[1..], t[n..]);
        RawInverseImage(ops[1..], t[n..], q - n);
      case Insert(s) =>
        assert raw[1..] == InvertRaw(ops[1..], t);
        RawInverseImage(ops[1..], t, q);
    }
  }

  lemma PutBack(cs: ChangeSet, t: string, q: nat)
    requires cs.Valid() && |t| == cs.lenBefore && Image(cs.ops, q).Some?
    ensures Image(Inverse(cs, t).ops, Image(cs.ops, q).value) == Some(q)
  {
    var raw := InvertRaw(cs.ops, t);
    NormalImages([], raw);
    assert [] + raw == raw;
    RawInverseImage(cs.ops, t, q);
  }

  /** An undo puts every surviving character back where it was, and keeps no other. */
  lemma InverseImage(cs: ChangeSet, t: string, q: nat, p: nat)
    requires cs.Valid() && |t| == cs.lenBefore
    ensures Image(cs.ops, q) == Some(p) <==> Image(Inverse(cs, t).ops, p) == Some(q)
  {
    InverseIsInvolution(cs, t);
    if Image(cs.ops, q) == Some(p) { PutBack(cs, t, q); }
    if Image(Inverse(cs, t).ops, p) == Some(q) { PutBack(Inverse(cs, t), Run(cs.ops, t), p); }
  }
}
