/** When a change leaves two of its kept lines on one line: exactly when it inserts before a break it deletes. */
module JoinedLines {
  import opened ChangeSets
  import opened Lines
  import opened PositionMaps

  predicate NoBreak(s: string) { forall k :: 0 <= k < |s| ==> s[k] != '\n' }

  /** A kept line's break comes before any inserted one. */
  predicate KeptNext(ops: seq<Op>, t: string)
    requires Consumed(ops) == |t|
  {
    if ops == [] then false
    else match ops[0]
      case Retain(n) => !NoBreak(t[..n]) || KeptNext(ops[1..], t[n..])
      case Delete(n) => KeptNext(ops[1..], t[n..])
      case Insert(s) => (t != [] && t[0] == '\n') || (NoBreak(s) && KeptNext(ops[1..], t))
  }

  /** Text without a break is inserted right before a deleted break, and a kept line comes next. */
  predicate Joins(ops: seq<Op>, t: string)
    requires Consumed(ops) == |t|
  {
    if ops == [] then false
    else match ops[0]
      case Retain(n) => Joins(ops[1..], t[n..])
      case Delete(n) => Joins(ops[1..], t[n..])
      case Insert(s) =>
        || Joins(ops[1..], t)
        || (NoBreak(s) && t != [] && t[0] == '\n' && ops[1..][0].Delete? && KeptNext(ops[1..], t))
  }

  /** The break at `p` carries its line along. */
  predicate Carried(ops: seq<Op>, t: string, p: nat) {
    p < |t| && t[p] == '\n' && !MapAnchor(ops, p, Before).deleted
  }

  function Place(ops: seq<Op>, p: nat): nat { MapAnchor(ops, p, Before).pos }

  /** No break of the new text up to where `q` lands. */
  ghost predicate Clear(ops: seq<Op>, t: string, from: nat, q: nat)
    requires Consumed(ops) == |t|
  {
    from <= Place(ops, q) <= |Run(ops, t)| && NoBreak(Run(ops, t)[from..Place(ops, q)])
  }

  lemma ClearPast(head: string, rest: string, all: string, from: nat, upto: nat)
    requires all == head + rest && from <= upto <= |rest|
    ensures all[|head| + from..|head| + upto] == rest[from..upto]
  {
  }

  lemma ClearSplit(head: string, rest: string, all: string, upto: nat)
    requires all == head + rest && upto <= |rest|
    ensures NoBreak(all[..|head| + upto]) <==> NoBreak(head) && NoBreak(rest[..upto])
  {
    var part := all[..|head| + upto];
    assert part == head + rest[..upto];
    forall k | 0 <= k < |head| ensures part[k] == head[k] {}
    forall k | 0 <= k < upto ensures part[|head| + k] == rest[..upto][k] {}
  }

  lemma PlaceFits(ops: seq<Op>, t: string, q: nat)
    requires Consumed(ops) == |t| && q <= |t|
    ensures Place(ops, q) <= |Run(ops, t)|
  {
    MapWithin(ops, q, Before);
    RunLength(ops, t);
  }

  lemma {:induction false} ClearIsNext(ops: seq<Op>, t: string, q: nat)
    requires Consumed(ops) == |t| && Carried(ops, t, q) && Clear(ops, t, 0, q)
    ensures KeptNext(ops, t)
  {
    var rest := ops[1..];
    match ops[0]
    case Retain(n) =>
      if q < n { assert t[..n][q] == '\n'; } else {
        PlaceFits(rest, t[n..], q - n);
        ClearSplit(t[..n], Run(rest, t[n..]), Run(ops, t), Place(rest, q - n));
        ClearIsNext(rest, t[n..], q - n);
      }
    case Delete(n) => ClearIsNext(rest, t[n..], q - n);
    case Insert(s) =>
      if q > 0 {
        PlaceFits(rest, t, q);
        ClearSplit(s, Run(rest, t), Run(ops, t), Place(rest, q));
        ClearIsNext(rest, t, q);
      }
  }

  lemma FirstBreak(s: string) returns (k: nat)
    requires !NoBreak(s)
    ensures k < |s| && s[k] == '\n' && NoBreak(s[..k])
  {
    k := 0;
    while s[k] != '\n'
      invariant k < |s| && NoBreak(s[..k]) && exists j :: k <= j < |s| && s[j] == '\n'
      decreases |s| - k
    {
      k := k + 1;
    }
  }

  lemma {:induction false} NextIsClear(ops: seq<Op>, t: string) returns (q: nat)
    requires Consumed(ops) == |t| && KeptNext(ops, t)
    ensures Carried(ops, t, q) && Clear(ops, t, 0, q)
  {
    var rest := ops[1..];
    match ops[0]
    case Retain(n) =>
      if !NoBreak(t[..n]) {
        q := FirstBreak(t[..n]);
        assert Run(ops, t)[..q] == t[..n][..q];
      } else {
        q := NextIsClear(rest, t[n..]);
        ClearSplit(t[..n], Run(rest, t[n..]), Run(ops, t), Place(rest, q));
        q := q + n;
      }
    case Delete(n) =>
      q := NextIsClear(rest, t[n..]);
      q := q + n;
    case Insert(s) =>
      if t != [] && t[0] == '\n' { q := 0; } else {
        q := NextIsClear(rest, t);
        ClearSplit(s, Run(rest, t), Run(ops, t), Place(rest, q));
      }
  }

  /** The text from where `p` lands to where `q` does has no break: their lines become one. */
  ghost predicate Meet(ops: seq<Op>, t: string, p: nat, q: nat)
    requires Consumed(ops) == |t|
  {
    p < q && Carried(ops, t, p) && Carried(ops, t, q) && Clear(ops, t, Place(ops, p), q)
  }

  lemma MeetShift(ops: seq<Op>, t: string, rest: seq<Op>, more: string, head: string, n: nat, p: nat, q: nat)
    requires Consumed(ops) == |t| && Consumed(rest) == |more| && n + |more| == |t| && n <= p < q < |t| && more == t[n..]
    requires Run(ops, t) == head + Run(rest, more)
    requires MapAnchor(ops, p, Before) == Onward(|head|, MapAnchor(rest, p - n, Before))
    requires MapAnchor(ops, q, Before) == Onward(|head|, MapAnchor(rest, q - n, Before))
    ensures Meet(ops, t, p, q) <==> Meet(rest, more, p - n, q - n)
  {
    PlaceFits(rest, more, q - n);
    MapAscends(rest, p - n, q - n, Before);
    ClearPast(head, Run(rest, more), Run(ops, t), Place(rest, p - n), Place(rest, q - n));
  }

  lemma MeetPastKept(ops: seq<Op>, t: string, rest: seq<Op>, more: string, n: nat, p: nat, q: nat)
    requires ops == [Retain(n)] + rest && Consumed(ops) == |t| && n <= p < q < |t| && more == t[n..]
    ensures Consumed(rest) == |more| && (Meet(ops, t, p, q) <==> Meet(rest, more, p - n, q - n))
  {
    assert ops[0] == Retain(n) && ops[1..] == rest;
    MeetShift(ops, t, rest, more, t[..n], n, p, q);
  }

  lemma MeetPastDeleted(ops: seq<Op>, t: string, rest: seq<Op>, more: string, n: nat, p: nat, q: nat)
    requires ops == [Delete(n)] + rest && Consumed(ops) == |t| && n <= p < q < |t| && more == t[n..]
    ensures Consumed(rest) == |more| && (Meet(ops, t, p, q) <==> Meet(rest, more, p - n, q - n))
  {
    assert ops[0] == Delete(n) && ops[1..] == rest;
    assert [] + Run(rest, more) == Run(ops, t);
    MeetShift(ops, t, rest, more, [], n, p, q);
  }

  lemma MeetPastInserted(ops: seq<Op>, t: string, rest: seq<Op>, s: string, p: nat, q: nat)
    requires ops == [Insert(s)] + rest && Consumed(ops) == |t| && 0 < p < q < |t|
    ensures Consumed(rest) == |t| && (Meet(ops, t, p, q) <==> Meet(rest, t, p, q))
  {
    assert ops[0] == Insert(s) && ops[1..] == rest && t[0..] == t;
    MeetShift(ops, t, rest, t, s, 0, p, q);
  }

  lemma {:induction false} MeetJoins(ops: seq<Op>, t: string, p: nat, q: nat)
    requires Consumed(ops) == |t| && Normalized(ops) && Meet(ops, t, p, q)
    ensures Joins(ops, t)
  {
    var rest := ops[1..];
    assert ops == [ops[0]] + rest;
    match ops[0]
    case Retain(n) =>
      if p >= n {
        MeetPastKept(ops, t, rest, t[n..], n, p, q);
        MeetJoins(rest, t[n..], p - n, q - n);
      } else {
        BreakSurvives(ops, t, p, q);
      }
    case Delete(n) =>
      MeetPastDeleted(ops, t, rest, t[n..], n, p, q);
      MeetJoins(rest, t[n..], p - n, q - n);
    case Insert(s) =>
      if p > 0 {
        MeetPastInserted(ops, t, rest, s, p, q);
        MeetJoins(rest, t, p, q);
      } else {
        JoinsHere(ops, t, s, rest, q);
      }
  }

  /** A surviving break stands between. */
  lemma BreakSurvives(ops: seq<Op>, t: string, p: nat, q: nat)
    requires Consumed(ops) == |t| && p < q && Carried(ops, t, p) && Carried(ops, t, q) && Image(ops, p).Some?
    ensures !Meet(ops, t, p, q)
  {
    MapCuts(ops, p, p, Before);
    MapCuts(ops, q, p, Before);
    ImageKeepsChar(ops, t, p);
    PlaceFits(ops, t, q);
    var after, a := Run(ops, t), Place(ops, p);
    assert after[a..Place(ops, q)][Image(ops, p).value - a] == '\n';
  }

  lemma JoinsHere(ops: seq<Op>, t: string, s: string, rest: seq<Op>, q: nat)
    requires ops == [Insert(s)] + rest && Consumed(ops) == |t| && Normalized(ops) && Meet(ops, t, 0, q)
    ensures Joins(ops, t)
  {
    assert ops[0] == Insert(s) && ops[1..] == rest;
    assert rest != [] && rest[0] == ops[1] && !rest[0].Insert? && !IsEmpty(rest[0]);
    if rest[0].Retain? { BreakSurvives(ops, t, 0, q); }
    PlaceFits(rest, t, q);
    ClearSplit(s, Run(rest, t), Run(ops, t), Place(rest, q));
    assert Run(ops, t)[0..Place(ops, q)] == Run(ops, t)[..Place(ops, q)];
    ClearIsNext(rest, t, q);
  }

  lemma {:induction false} JoinsMeet(ops: seq<Op>, t: string) returns (p: nat, q: nat)
    requires Consumed(ops) == |t| && Normalized(ops) && Joins(ops, t)
    ensures Meet(ops, t, p, q)
  {
    var rest := ops[1..];
    assert ops == [ops[0]] + rest;
    match ops[0]
    case Retain(n) =>
      p, q := JoinsMeet(rest, t[n..]);
      p, q := p + n, q + n;
      MeetPastKept(ops, t, rest, t[n..], n, p, q);
    case Delete(n) =>
      p, q := JoinsMeet(rest, t[n..]);
      p, q := p + n, q + n;
      MeetPastDeleted(ops, t, rest, t[n..], n, p, q);
    case Insert(s) =>
      if Joins(rest, t) {
        p, q := JoinsMeet(rest, t);
        p, q := MeetPast(ops, t, s, rest, p, q);
      } else {
        p := 0;
        q := NextIsClear(rest, t);
        MeetHere(ops, t, s, rest, q);
      }
  }

  lemma MeetPast(ops: seq<Op>, t: string, s: string, rest: seq<Op>, p: nat, q: nat) returns (p': nat, q': nat)
    requires ops == [Insert(s)] + rest && Consumed(ops) == |t| && Normalized(ops) && Meet(rest, t, p, q)
             && Consumed(rest) == |t|
    ensures Meet(ops, t, p', q')
  {
    assert ops[0] == Insert(s) && ops[1..] == rest;
    assert rest == [] || (rest[0] == ops[1] && !rest[0].Insert? && !IsEmpty(rest[0]));
    if p == 0 { BreakSurvives(rest, t, p, q); }
    MeetPastInserted(ops, t, rest, s, p, q);
    p', q' := p, q;
  }

  lemma MeetHere(ops: seq<Op>, t: string, s: string, rest: seq<Op>, q: nat)
    requires ops == [Insert(s)] + rest && Consumed(ops) == |t| && Normalized(ops) && NoBreak(s) && t != []
             && t[0] == '\n'
    requires rest != [] && rest[0].Delete? && Consumed(rest) == |t| && Carried(rest, t, q) && Clear(rest, t, 0, q)
    ensures Meet(ops, t, 0, q)
  {
    assert ops[0] == Insert(s) && ops[1..] == rest && rest[0] == ops[1] && !IsEmpty(rest[0]);
    PlaceFits(rest, t, q);
    ClearSplit(s, Run(rest, t), Run(ops, t), Place(rest, q));
    assert Run(ops, t)[0..Place(ops, q)] == Run(ops, t)[..Place(ops, q)];
  }

  /** A change that deletes before it inserts joins nothing it keeps. */
  lemma {:induction false} DeletesFirstJoinsNone(ops: seq<Op>, t: string)
    requires Consumed(ops) == |t| && DeletesFirst(ops)
    ensures !Joins(ops, t)
  {
    if ops != [] {
      assert ops[0].Insert? && ops[1..] != [] ==> ops[1..][0] == ops[1];
      DeletesFirstJoinsNone(ops[1..], if ops[0].Insert? then t else t[ops[0].n..]);
    }
  }

  // ---- Lines ----

  lemma BreakIsOf(t: string, p: nat)
    requires p < |t| && t[p] == '\n'
    ensures LineOf(t, p) < LineOf(t, |t|) && BreakOf(t, LineOf(t, p)) == p
  {
    LineOfMonotone(t, p + 1, |t|);
    BreakBelow(t, LineOf(t, p), p + 1);
    BreakBelow(t, LineOf(t, p), p);
  }

  /** Two kept lines share a line exactly when nothing breaks between where their breaks land. */
  lemma LinesMeet(ops: seq<Op>, t: string, i: nat, j: nat)
    requires Consumed(ops) == |t| && i < j < LineOf(t, |t|)
    ensures Meet(ops, t, BreakOf(t, i), BreakOf(t, j))
       <==> LineImage(ops, t, i).Some? && LineImage(ops, t, i) == LineImage(ops, t, j)
  {
    BreakBelow(t, i, BreakOf(t, j));
    if LineImage(ops, t, i).Some? && LineImage(ops, t, j).Some? {
      LinesAscend(ops, t, i, j);
      var after, m, n := Run(ops, t), Place(ops, BreakOf(t, i)), Place(ops, BreakOf(t, j));
      forall k | m <= k < n ensures after[m..n][k - m] == after[k] {}
    }
  }

  /** Lines that are kept all stay apart, exactly unless the change joins some. */
  lemma LinesStayApart(ops: seq<Op>, t: string)
    requires Consumed(ops) == |t| && Normalized(ops)
    ensures !Joins(ops, t)
       <==> forall i, j :: 0 <= i < j < LineOf(t, |t|) && LineImage(ops, t, i).Some? && LineImage(ops, t, j).Some?
                    ==> LineImage(ops, t, i).value < LineImage(ops, t, j).value
  {
    if Joins(ops, t) {
      var i, j := JoinedPair(ops, t);
    } else {
      forall i, j | 0 <= i < j < LineOf(t, |t|) && LineImage(ops, t, i).Some? && LineImage(ops, t, j).Some?
        ensures LineImage(ops, t, i).value < LineImage(ops, t, j).value
      {
        LinesAscend(ops, t, i, j);
        LinesMeet(ops, t, i, j);
        if Meet(ops, t, BreakOf(t, i), BreakOf(t, j)) { MeetJoins(ops, t, BreakOf(t, i), BreakOf(t, j)); }
      }
    }
  }

  lemma JoinedPair(ops: seq<Op>, t: string) returns (i: nat, j: nat)
    requires Consumed(ops) == |t| && Normalized(ops) && Joins(ops, t)
    ensures i < j < LineOf(t, |t|) && LineImage(ops, t, i).Some? && LineImage(ops, t, i) == LineImage(ops, t, j)
  {
    var p, q := JoinsMeet(ops, t);
    i, j := LineOf(t, p), LineOf(t, q);
    LineOfMonotone(t, p + 1, q);
    BreakIsOf(t, p);
    BreakIsOf(t, q);
    LinesMeet(ops, t, i, j);
  }
}
