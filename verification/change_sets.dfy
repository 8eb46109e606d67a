/** Changesets: the retain/delete/insert lists every edit, undo step and sync event is made of.
    `Run` is their meaning; applying, inverting and composing are proved against it. */
module ChangeSets {
  import opened Wrappers
  import opened Integers
  import opened Sequences

  /** One step over the old text. A `char` is a Unicode scalar value. */
  datatype Op = Retain(n: nat) | Delete(n: nat) | Insert(s: string)

  datatype ChangeSet = ChangeSet(ops: seq<Op>, lenBefore: nat, lenAfter: nat) {
    /** The normal form every constructor keeps: lengths exact, no empty op, no two like neighbours. */
    ghost predicate Valid() {
      Consumed(ops) == lenBefore && Produced(ops) == lenAfter && Normalized(ops)
    }
  }

  datatype ApplyError = LengthMismatch(bufLen: nat, expected: nat) | TrailingNewlineMissing

  // ---- Meaning ----

  function Consumed(ops: seq<Op>): nat {
    if ops == [] then 0
    else (match ops[0] case Retain(n) => n case Delete(n) => n case Insert(_) => 0) + Consumed(ops[1..])
  }

  function Produced(ops: seq<Op>): nat {
    if ops == [] then 0
    else (match ops[0] case Retain(n) => n case Delete(_) => 0 case Insert(s) => |s|) + Produced(ops[1..])
  }

  /** The text `ops` make of `t`. */
  function Run(ops: seq<Op>, t: string): string
    requires Consumed(ops) == |t|
  {
    if ops == [] then []
    else match ops[0]
      case Retain(n) => t[..n] + Run(ops[1..], t[n..])
      case Delete(n) => Run(ops[1..], t[n..])
      case Insert(s) => s + Run(ops[1..], t)
  }

  predicate IsEmpty(op: Op) {
    match op case Retain(n) => n == 0 case Delete(n) => n == 0 case Insert(s) => s == []
  }

  predicate SameKind(a: Op, b: Op) {
    (a.Retain? && b.Retain?) || (a.Delete? && b.Delete?) || (a.Insert? && b.Insert?)
  }

  predicate Positive(ops: seq<Op>) {
    forall i :: 0 <= i < |ops| ==> !IsEmpty(ops[i])
  }

  predicate Normalized(ops: seq<Op>) {
    Positive(ops) && forall i, j :: 0 <= i < |ops| && 0 <= j < |ops| && j == i + 1 ==> !SameKind(ops[i], ops[j])
  }

  predicate EndsInNewline(t: string) {
    |t| > 0 && t[|t| - 1] == '\n'
  }

  lemma {:induction false} SplitLengths(a: seq<Op>, b: seq<Op>)
    ensures Consumed(a + b) == Consumed(a) + Consumed(b)
    ensures Produced(a + b) == Produced(a) + Produced(b)
  {
    if a == [] {
      assert a + b == b;
    } else {
      assert (a + b)[1..] == a[1..] + b;
      SplitLengths(a[1..], b);
    }
  }

  lemma {:induction false} RunLength(ops: seq<Op>, t: string)
    requires Consumed(ops) == |t|
    ensures |Run(ops, t)| == Produced(ops)
  {
    if ops != [] {
      match ops[0]
      case Retain(n) => RunLength(ops[1..], t[n..]);
      case Delete(n) => RunLength(ops[1..], t[n..]);
      case Insert(s) => RunLength(ops[1..], t);
    }
  }

  /** A list runs piecewise: its first part over what it consumes, the rest over the rest. */
  lemma {:induction false} RunParts(a: seq<Op>, b: seq<Op>, s: string, t: string, ab: seq<Op>, st: string)
    requires Consumed(a) == |s| && Consumed(b) == |t| && ab == a + b && st == s + t
    ensures Consumed(ab) == |st| && Run(ab, st) == Run(a, s) + Run(b, t)
    decreases |a|
  {
    SplitLengths(a, b);
    if a == [] {
      assert ab == b && st == t;
    } else {
      assert ab[1..] == a[1..] + b && ab[0] == a[0];
      if a[0].Insert? {
        RunParts(a[1..], b, s, t, ab[1..], st);
        Assoc(a[0].s, Run(a[1..], s), Run(b, t));
      } else {
        var n := a[0].n;
        assert st[n..] == s[n..] + t && st[..n] == s[..n];
        RunParts(a[1..], b, s[n..], t, ab[1..], st[n..]);
        if a[0].Retain? { Assoc(s[..n], Run(a[1..], s[n..]), Run(b, t)); }
      }
    }
  }

  lemma RunConcat(a: seq<Op>, b: seq<Op>, s: string, t: string)
    requires Consumed(a) == |s| && Consumed(b) == |t|
    ensures Consumed(a + b) == |s + t|
    ensures Run(a + b, s + t) == Run(a, s) + Run(b, t)
  {
    RunParts(a, b, s, t, a + b, s + t);
  }

  lemma RunOne(op: Op, t: string)
    requires Consumed([op]) == |t|
    ensures Run([op], t) == match op case Retain(_) => t case Delete(_) => [] case Insert(s) => s
  {
    assert [op][1..] == [];
    if !op.Insert? { assert t[..op.n] == t; }
  }

  // ---- Normal form ----

  /** Two neighbours of one kind as one op. */
  function Merge(a: Op, b: Op): (m: Op)
    requires SameKind(a, b)
    ensures SameKind(m, a) && (IsEmpty(m) <==> IsEmpty(a) && IsEmpty(b))
  {
    match (a, b)
    case (Retain(m), Retain(n)) => Retain(m + n)
    case (Delete(m), Delete(n)) => Delete(m + n)
    case (Insert(s), Insert(t)) => Insert(s + t)
  }

  lemma MergeRun(a: Op, b: Op, s: string, t: string)
    requires SameKind(a, b) && Consumed([a]) == |s| && Consumed([b]) == |t|
    ensures Consumed([Merge(a, b)]) == |s + t| && Produced([Merge(a, b)]) == Produced([a]) + Produced([b])
    ensures Run([Merge(a, b)], s + t) == Run([a], s) + Run([b], t)
  {
    RunOne(a, s);
    RunOne(b, t);
    RunOne(Merge(a, b), s + t);
  }

  /** The single normalisation point: merges into a last op of the same kind, drops empty ops. */
  function PushMerge(ops: seq<Op>, op: Op): (r: seq<Op>)
    ensures Normalized(ops) ==> Normalized(r)
  {
    if IsEmpty(op) then ops
    else if ops != [] && SameKind(ops[|ops| - 1], op) then ops[..|ops| - 1] + [Merge(ops[|ops| - 1], op)]
    else ops + [op]
  }

  lemma PushMergeLengths(ops: seq<Op>, op: Op)
    ensures Consumed(PushMerge(ops, op)) == Consumed(ops) + Consumed([op])
    ensures Produced(PushMerge(ops, op)) == Produced(ops) + Produced([op])
  {
    if IsEmpty(op) {
    } else if ops != [] && SameKind(ops[|ops| - 1], op) {
      var init, last := ops[..|ops| - 1], ops[|ops| - 1];
      assert init + [last] == ops;
      SplitLengths(init, [last]);
      SplitLengths(init, [Merge(last, op)]);
    } else {
      SplitLengths(ops, [op]);
    }
  }

  lemma PushMergeRun(ops: seq<Op>, op: Op, s: string, t: string)
    requires Consumed(ops) == |s| && Consumed([op]) == |t|
    ensures Consumed(PushMerge(ops, op)) == |s + t|
    ensures Run(PushMerge(ops, op), s + t) == Run(ops, s) + Run([op], t)
  {
    PushMergeLengths(ops, op);
    if IsEmpty(op) {
      assert s + t == s;
      RunOne(op, t);
    } else if ops != [] && SameKind(ops[|ops| - 1], op) {
      assert ops[..|ops| - 1] + [ops[|ops| - 1]] == ops;
      MergeLastRun(ops[..|ops| - 1], ops[|ops| - 1], op, s, t);
    } else {
      RunConcat(ops, [op], s, t);
    }
  }

  lemma MergeLastRun(init: seq<Op>, last: Op, op: Op, s: string, t: string)
    requires SameKind(last, op) && Consumed(init + [last]) == |s| && Consumed([op]) == |t|
    ensures Consumed(init + [Merge(last, op)]) == |s + t|
    ensures Run(init + [Merge(last, op)], s + t) == Run(init + [last], s) + Run([op], t)
  {
    SplitLengths(init, [last]);
    var s0, s1 := s[..Consumed(init)], s[Consumed(init)..];
    SplitAt(s, Consumed(init));
    MergeRun(last, op, s1, t);
    RunConcat(init, [last], s0, s1);
    RunConcat(init, [Merge(last, op)], s0, s1 + t);
    Assoc(s0, s1, t);
    Assoc(Run(init, s0), Run([last], s1), Run([op], t));
  }

  function PushAll(ops: seq<Op>, more: seq<Op>): (r: seq<Op>)
    ensures Normalized(ops) ==> Normalized(r)
    decreases |more|
  {
    if more == [] then ops else PushAll(PushMerge(ops, more[0]), more[1..])
  }

  lemma {:induction false} PushAllLengths(ops: seq<Op>, more: seq<Op>)
    ensures Consumed(PushAll(ops, more)) == Consumed(ops) + Consumed(more)
    ensures Produced(PushAll(ops, more)) == Produced(ops) + Produced(more)
    decreases |more|
  {
    if more != [] {
      assert more == [more[0]] + more[1..];
      SplitLengths([more[0]], more[1..]);
      PushMergeLengths(ops, more[0]);
      PushAllLengths(PushMerge(ops, more[0]), more[1..]);
    }
  }

  lemma {:induction false} PushAllRun(ops: seq<Op>, more: seq<Op>, s: string, t: string)
    requires Consumed(ops) == |s| && Consumed(more) == |t|
    ensures Consumed(PushAll(ops, more)) == |s + t|
    ensures Run(PushAll(ops, more), s + t) == Run(ops, s) + Run(more, t)
    decreases |more|
  {
    if more == [] {
      assert s + t == s;
    } else {
      var op, rest := more[0], more[1..];
      SplitAt(more, 1);
      SplitLengths([op], rest);
      var t0, t1 := t[..Consumed([op])], t[Consumed([op])..];
      SplitAt(t, |t0|);
      Assoc(s, t0, t1);
      PushMergeRun(ops, op, s, t0);
      PushAllRun(PushMerge(ops, op), rest, s + t0, t1);
      RunConcat([op], rest, t0, t1);
      Assoc(Run(ops, s), Run([op], t0), Run(rest, t1));
    }
  }

  /** Normalising keeps the meaning. */
  lemma NormalizedRun(ops: seq<Op>, t: string)
    requires Consumed(ops) == |t|
    ensures Consumed(PushAll([], ops)) == |t| && Run(PushAll([], ops), t) == Run(ops, t)
  {
    assert [] + t == t;
    PushAllRun([], ops, [], t);
  }

  lemma {:induction false} PushAllSplit(ops: seq<Op>, a: seq<Op>, b: seq<Op>)
    ensures PushAll(ops, a + b) == PushAll(PushAll(ops, a), b)
    decreases |a|
  {
    if a == [] {
      assert a + b == b;
    } else {
      assert (a + b)[1..] == a[1..] + b;
      PushAllSplit(PushMerge(ops, a[0]), a[1..], b);
    }
  }

  lemma {:induction false} PushAllOfNormalized(ops: seq<Op>, more: seq<Op>)
    requires Normalized(ops + more)
    ensures PushAll(ops, more) == ops + more
    decreases |more|
  {
    if more == [] {
      assert ops + more == ops;
    } else {
      assert (ops + more)[|ops|] == more[0];
      assert ops != [] ==> (ops + more)[|ops| - 1] == ops[|ops| - 1];
      assert PushMerge(ops, more[0]) == ops + [more[0]];
      assert ops + [more[0]] + more[1..] == ops + more;
      PushAllOfNormalized(ops + [more[0]], more[1..]);
    }
  }

  /** `ops` as a changeset for a text of `lenBefore` chars. */
  method FromOps(ops: seq<Op>, lenBefore: nat) returns (r: Option<ChangeSet>)
    ensures r.Some? <==> Normalized(ops) && Consumed(ops) == lenBefore
                         && forall i :: 0 <= i < |ops| && ops[i].Insert? ==> '\r' !in ops[i].s
    ensures r.Some? ==> r.value.Valid() && r.value.ops == ops
  {
    var consumed, lenAfter := 0, 0;
    for i := 0 to |ops|
      invariant consumed == Consumed(ops[..i]) && lenAfter == Produced(ops[..i])
      invariant Normalized(ops[..i])
      invariant forall k :: 0 <= k < i && ops[k].Insert? ==> '\r' !in ops[k].s
    {
      var op := ops[i];
      if i > 0 && SameKind(ops[i - 1], op) { return None; }
      if IsEmpty(op) || (op.Insert? && '\r' in op.s) { return None; }
      assert ops[..i + 1] == ops[..i] + [op];
      SplitLengths(ops[..i], [op]);
      match op {
        case Retain(n) => consumed, lenAfter := consumed + n, lenAfter + n;
        case Delete(n) => consumed := consumed + n;
        case Insert(s) => lenAfter := lenAfter + |s|;
      }
    }
    assert ops[..|ops|] == ops;
    return if consumed == lenBefore then Some(ChangeSet(ops, lenBefore, lenAfter)) else None;
  }

  function Identity(len: nat): (cs: ChangeSet)
    ensures cs.Valid() && cs.lenBefore == cs.lenAfter == len
    ensures forall t: string :: |t| == len ==> Run(cs.ops, t) == t
  {
    PushMergeLengths([], Retain(len));
    ChangeSet(PushMerge([], Retain(len)), len, len)
  }

  predicate IsIdentity(ops: seq<Op>) {
    forall i :: 0 <= i < |ops| ==> ops[i].Retain?
  }

  lemma {:induction false} IdentityRun(ops: seq<Op>, t: string)
    requires IsIdentity(ops) && Consumed(ops) == |t|
    ensures Run(ops, t) == t
  {
    if ops != [] {
      IdentityRun(ops[1..], t[ops[0].n..]);
    }
  }

  /** The changesets that change nothing and are applied unchecked are the identities, one for each length. */
  lemma IdentityIsOne(cs: ChangeSet)
    requires cs.Valid()
    ensures IsIdentity(cs.ops) <==> cs.ops == if cs.lenBefore == 0 then [] else [Retain(cs.lenBefore)]
    ensures IsIdentity(cs.ops) ==> cs == Identity(cs.lenBefore)
  {
    if IsIdentity(cs.ops) {
      FirstTwoDiffer(cs.ops);
      if cs.ops != [] { assert cs.ops[1..] == [] && Consumed(cs.ops) == Produced(cs.ops) == cs.ops[0].n > 0; }
    }
  }

  lemma FirstTwoDiffer(ops: seq<Op>)
    requires Normalized(ops)
    ensures |ops| > 1 ==> !SameKind(ops[0], ops[1])
  {
  }

  // ---- Apply ----

  /** How far an op reaches over the old text. */
  function Taken(op: Op): nat {
    match op case Retain(n) => n case Delete(n) => n case Insert(_) => 0
  }

  /** What the op at `i` adds to the text made so far. */
  function Piece(op: Op, t: string, at: nat): string
    requires at + Consumed([op]) <= |t|
  {
    match op case Retain(n) => t[at..at + n] case Delete(_) => [] case Insert(s) => s
  }

  lemma ConsumedNext(ops: seq<Op>, i: nat)
    requires i < |ops|
    ensures Consumed(ops[..i + 1]) == Consumed(ops[..i]) + Consumed([ops[i]])
    ensures Consumed(ops[i..]) == Consumed([ops[i]]) + Consumed(ops[i + 1..])
  {
    assert ops[..i + 1] == ops[..i] + [ops[i]];
    assert ops[i..] == [ops[i]] + ops[i + 1..];
    SplitLengths(ops[..i], [ops[i]]);
    SplitLengths([ops[i]], ops[i + 1..]);
  }

  lemma RunNext(ops: seq<Op>, i: nat, t: string, at: nat)
    requires i < |ops| && Consumed(ops[..i]) == at <= |t| && at + Consumed(ops[i..]) == |t|
    ensures var k := Consumed([ops[i]]);
            && at + k <= |t| && Consumed(ops[..i + 1]) == at + k && at + k + Consumed(ops[i + 1..]) == |t|
            && Run(ops[..i + 1], t[..at + k]) == Run(ops[..i], t[..at]) + Piece(ops[i], t, at)
  {
    ConsumedNext(ops, i);
    var k := Consumed([ops[i]]);
    var here := t[at..at + k];
    assert ops[..i + 1] == ops[..i] + [ops[i]] && t[..at + k] == t[..at] + here;
    RunParts(ops[..i], [ops[i]], t[..at], here, ops[..i + 1], t[..at + k]);
    RunOne(ops[i], here);
  }

  /** What an op does to a rope whose first part is already the new text. */
  lemma RopeStep(op: Op, done: string, text: string, at: nat)
    requires at + Taken(op) <= |text|
    ensures Taken(op) == Consumed([op])
    ensures var rope, rope' := done + text[at..], done + Piece(op, text, at) + text[at + Taken(op)..];
            match op
            case Retain(n) => rope' == rope
            case Delete(n) => rope' == rope[..|done|] + rope[|done| + n..]
            case Insert(s) => rope' == rope[..|done|] + s + rope[|done|..]
  {
    assert [op][1..] == [];
  }

  function Spliced(t: string, from: nat, to: nat, s: string): string
    requires from <= to <= |t|
  {
    t[..from] + s + t[to..]
  }

  /** The text the first `i` ops make, having consumed `at` chars. */
  ghost function Made(ops: seq<Op>, i: nat, before: string, at: nat): Option<string> {
    if i <= |ops| && Consumed(ops[..i]) == at <= |before| && at + Consumed(ops[i..]) == |before|
    then Some(Run(ops[..i], before[..at])) else None
  }

  /** The working text when `done` is made of the first `at` chars. */
  ghost function Working(done: string, before: string, at: nat): string {
    if at <= |before| then done + before[at..] else done
  }

  lemma WorkingLength(ops: seq<Op>, i: nat, before: string, at: nat, done: string)
    requires Made(ops, i, before, at) == Some(done)
    ensures at <= |before| && |done| <= |Working(done, before, at)| <= |before| + Produced(ops)
  {
    RunLength(ops[..i], before[..at]);
    assert ops == ops[..i] + ops[i..];
    SplitLengths(ops[..i], ops[i..]);
  }

  lemma MadeNext(ops: seq<Op>, i: nat, before: string, at: nat, done: string)
    requires Made(ops, i, before, at) == Some(done) && i < |ops|
    ensures at + Taken(ops[i]) <= |before| && Taken(ops[i]) == Consumed([ops[i]])
    ensures Made(ops, i + 1, before, at + Taken(ops[i])) == Some(done + Piece(ops[i], before, at))
  {
    RunNext(ops, i, before, at);
    assert [ops[i]][1..] == [];
  }

  /** The working text and its cursor after one op. */
  function Edited(op: Op, working: string, cursor: nat): (string, nat)
    requires cursor + Taken(op) <= |working|
  {
    match op
    case Retain(n) => (working, cursor + n)
    case Delete(n) => (Spliced(working, cursor, cursor + n, ""), cursor)
    case Insert(s) => (Spliced(working, cursor, cursor, s), cursor + |s|)
  }

  lemma MadeEdited(ops: seq<Op>, i: nat, before: string, at: nat, done: string) returns (at': nat, done': string)
    requires Made(ops, i, before, at) == Some(done) && i < |ops|
    ensures at' == at + Taken(ops[i]) && Made(ops, i + 1, before, at') == Some(done')
            && |done| + Taken(ops[i]) <= |Working(done, before, at)|
    ensures Edited(ops[i], Working(done, before, at), |done|) == (Working(done', before, at'), |done'|)
  {
    MadeNext(ops, i, before, at, done);
    at', done' := at + Taken(ops[i]), done + Piece(ops[i], before, at);
    EditedWorking(ops[i], before, at, done);
  }

  /** One op edits the working text at the end of what is made. */
  lemma EditedWorking(op: Op, before: string, at: nat, done: string)
    requires at + Taken(op) <= |before| && Taken(op) == Consumed([op])
    ensures |done| + Taken(op) <= |Working(done, before, at)|
    ensures Edited(op, Working(done, before, at), |done|)
         == (Working(done + Piece(op, before, at), before, at + Taken(op)), |done + Piece(op, before, at)|)
  {
    RopeStep(op, done, before, at);
    var working := Working(done, before, at);
    if op.Delete? { assert working[..|done|] + "" == working[..|done|]; }
  }

  lemma MadeNone(ops: seq<Op>, before: string)
    requires Consumed(ops) == |before|
    ensures Made(ops, 0, before, 0) == Some("") && Working("", before, 0) == before
  {
    assert ops[0..] == ops && before[0..] == before;
  }

  lemma MadeAll(ops: seq<Op>, before: string, at: nat, done: string)
    requires Made(ops, |ops|, before, at) == Some(done)
    ensures Consumed(ops) == |before| && at == |before| && done == Run(ops, before) && Working(done, before, at) == done
  {
    assert ops[..|ops|] == ops && ops[|ops|..] == [] && before[..|before|] == before;
    assert done + before[|before|..] == done;
  }

  /** Applies `cs` by editing a copy of the text in place: positions are in the old text and `delta`
      shifts them into the edited copy. */
  method Apply(cs: ChangeSet, text: string) returns (r: Result<string, ApplyError>)
    requires cs.Valid()
    ensures |text| != cs.lenBefore ==> r == Failure(LengthMismatch(|text|, cs.lenBefore))
    ensures |text| == cs.lenBefore ==>
              r == if IsIdentity(cs.ops) || EndsInNewline(Run(cs.ops, text)) then Success(Run(cs.ops, text))
                   else Failure(TrailingNewlineMissing)
  {
    if |text| != cs.lenBefore { return Failure(LengthMismatch(|text|, cs.lenBefore)); }
    if IsIdentity(cs.ops) {
      IdentityRun(cs.ops, text);
      return Success(text);
    }
    var rope, delta: int, oldPos: nat := text, 0, 0;
    ghost var ops, done := cs.ops, "";
    MadeNone(ops, text);
    for i := 0 to |cs.ops|
      invariant Made(ops, i, text, oldPos) == Some(done) && rope == Working(done, text, oldPos)
                && oldPos + delta == |done|
    {
      var op := cs.ops[i];
      ghost var next: nat;
      next, done := MadeEdited(ops, i, text, oldPos, done);
      rope, oldPos, delta := EditRope(op, rope, oldPos, delta);
    }
    MadeAll(ops, text, oldPos, done);
    return if EndsInNewline(rope) then Success(rope) else Failure(TrailingNewlineMissing);
  }

  /** One op on the rope: positions are the old text's, shifted by what has been added and taken so far. */
  method EditRope(op: Op, rope: string, oldPos: nat, delta: int) returns (r: string, oldPos': nat, delta': int)
    requires 0 <= oldPos + delta && oldPos + delta + Taken(op) <= |rope|
    ensures oldPos' == oldPos + Taken(op) && oldPos' + delta' >= 0
    ensures Edited(op, rope, oldPos + delta) == (r, oldPos' + delta')
  {
    var at := oldPos + delta;
    match op {
      case Retain(n) => r, oldPos', delta' := rope, oldPos + n, delta;
      case Delete(n) =>
        r, oldPos', delta' := rope[..at] + rope[at + n..], oldPos + n, delta - n;
        assert r == rope[..at] + "" + rope[at + n..];
      case Insert(s) => r, oldPos', delta' := rope[..at] + s + rope[at..], oldPos, delta + |s|;
    }
  }

  // ---- Invert ----

  function InvertRaw(ops: seq<Op>, t: string): (inv: seq<Op>)
    requires Consumed(ops) == |t|
    ensures |inv| == |ops|
    ensures Consumed(inv) == Produced(ops) && Produced(inv) == Consumed(ops)
  {
    if ops == [] then []
    else match ops[0]
      case Retain(n) => [Retain(n)] + InvertRaw(ops[1..], t[n..])
      case Delete(n) => [Insert(t[..n])] + InvertRaw(ops[1..], t[n..])
      case Insert(s) => [Delete(|s|)] + InvertRaw(ops[1..], t)
  }

  function Inverse(cs: ChangeSet, t: string): (inv: ChangeSet)
    requires cs.Valid() && |t| == cs.lenBefore
    ensures inv.Valid() && inv.lenBefore == cs.lenAfter && inv.lenAfter == cs.lenBefore
  {
    PushAllLengths([], InvertRaw(cs.ops, t));
    ChangeSet(PushAll([], InvertRaw(cs.ops, t)), cs.lenAfter, cs.lenBefore)
  }

  /** The inverse so far, continued with the raw inverse of the rest. */
  ghost function InvertFrom(inv: seq<Op>, ops: seq<Op>, i: nat, t: string, at: nat): Option<seq<Op>> {
    if i <= |ops| && at <= |t| && at + Consumed(ops[i..]) == |t|
        then Some(PushAll(inv, InvertRaw(ops[i..], t[at..]))) else None
  }

  function InvertOp(op: Op, t: string, at: nat): Op
    requires at + Taken(op) <= |t|
  {
    match op case Retain(n) => Retain(n) case Delete(n) => Insert(t[at..at + n]) case Insert(s) => Delete(|s|)
  }

  lemma InvertRawStep(ops: seq<Op>, t: string, rest: seq<Op>, more: string)
    requires ops != [] && Consumed(ops) == |t| && rest == ops[1..]
    requires Taken(ops[0]) <= |t| ==> more == t[Taken(ops[0])..]
    ensures Taken(ops[0]) + Consumed(rest) == |t|
    ensures InvertRaw(ops, t) == [InvertOp(ops[0], t, 0)] + InvertRaw(rest, more)
  {
  }

  lemma InvertStep(inv: seq<Op>, ops: seq<Op>, i: nat, t: string, at: nat)
    requires i < |ops| && InvertFrom(inv, ops, i, t, at).Some?
    ensures at + Taken(ops[i]) <= |t|
    ensures InvertFrom(PushMerge(inv, InvertOp(ops[i], t, at)), ops, i + 1, t, at + Taken(ops[i]))
         == InvertFrom(inv, ops, i, t, at)
  {
    ConsumedNext(ops, i);
    assert [ops[i]][1..] == [];
    var op, rest, more := ops[i], ops[i + 1..], t[at + Taken(ops[i])..];
    assert ops[i..][0] == op && ops[i..][1..] == rest && t[at..][Taken(op)..] == more;
    InvertRawStep(ops[i..], t[at..], rest, more);
    if op.Delete? { assert t[at..][0..op.n] == t[at..at + op.n]; }
    PushAllCons(inv, InvertOp(op, t, at), InvertRaw(rest, more), InvertRaw(ops[i..], t[at..]));
  }

  lemma PushAllCons(inv: seq<Op>, op: Op, more: seq<Op>, all: seq<Op>)
    requires all == [op] + more
    ensures PushAll(inv, all) == PushAll(PushMerge(inv, op), more)
  {
    assert all[1..] == more;
  }

  method Invert(cs: ChangeSet, text: string) returns (inv: ChangeSet)
    requires cs.Valid() && |text| == cs.lenBefore
    ensures inv == Inverse(cs, text)
  {
    var invOps, oldPos: nat := [], 0;
    assert cs.ops[0..] == cs.ops && text[0..] == text;
    ghost var answer := InvertFrom([], cs.ops, 0, text, 0);
    for i := 0 to |cs.ops|
      invariant answer.Some? && InvertFrom(invOps, cs.ops, i, text, oldPos) == answer
    {
      InvertStep(invOps, cs.ops, i, text, oldPos);
      var op := InvertOne(cs.ops[i], text, oldPos);
      invOps := PushMerge(invOps, op);
      if !cs.ops[i].Insert? { oldPos := oldPos + cs.ops[i].n; }
    }
    inv := ChangeSet(invOps, cs.lenAfter, cs.lenBefore);
  }

  method InvertOne(op: Op, text: string, oldPos: nat) returns (r: Op)
    requires oldPos + Taken(op) <= |text|
    ensures r == InvertOp(op, text, oldPos)
  {
    match op {
      case Retain(n) => r := Retain(n);
      case Delete(n) =>
        var removed := text[oldPos..oldPos + n];
        r := Insert(removed);
      case Insert(s) => r := Delete(|s|);
    }
  }

  lemma {:induction false} InvertRawUndoes(ops: seq<Op>, t: string)
    requires Consumed(ops) == |t|
    ensures |Run(ops, t)| == Produced(ops)
    ensures Run(InvertRaw(ops, t), Run(ops, t)) == t
  {
    RunLength(ops, t);
    if ops != [] {
      var r := Run(ops, t);
      var inv := InvertRaw(ops, t);
      match ops[0] {
        case Retain(n) =>
          InvertRawUndoes(ops[1..], t[n..]);
          assert inv[1..] == InvertRaw(ops[1..], t[n..]);
          assert r[n..] == Run(ops[1..], t[n..]);
        case Delete(n) =>
          InvertRawUndoes(ops[1..], t[n..]);
          assert inv[1..] == InvertRaw(ops[1..], t[n..]);
        case Insert(s) =>
          InvertRawUndoes(ops[1..], t);
          assert inv[1..] == InvertRaw(ops[1..], t);
          assert r[|s|..] == Run(ops[1..], t);
      }
    }
  }

  /** Undo: the inverse takes the produced text back to the text the changeset started from. */
  lemma InverseUndoes(cs: ChangeSet, t: string)
    requires cs.Valid() && |t| == cs.lenBefore
    ensures |Run(cs.ops, t)| == cs.lenAfter
    ensures Run(Inverse(cs, t).ops, Run(cs.ops, t)) == t
  {
    RunLength(cs.ops, t);
    InvertRawUndoes(cs.ops, t);
    NormalizedRun(InvertRaw(cs.ops, t), Run(cs.ops, t));
  }

  lemma {:induction false} InvertRawKinds(ops: seq<Op>, t: string, i: nat)
    requires Consumed(ops) == |t| && i < |ops|
    ensures IsEmpty(ops[i]) <==> IsEmpty(InvertRaw(ops, t)[i])
    ensures ops[i].Retain? <==> InvertRaw(ops, t)[i].Retain?
    ensures ops[i].Delete? <==> InvertRaw(ops, t)[i].Insert?
  {
    if i > 0 {
      match ops[0]
      case Retain(n) => InvertRawKinds(ops[1..], t[n..], i - 1);
      case Delete(n) => InvertRawKinds(ops[1..], t[n..], i - 1);
      case Insert(s) => InvertRawKinds(ops[1..], t, i - 1);
    }
  }

  lemma {:induction false} InvertRawTwice(ops: seq<Op>, t: string)
    requires Consumed(ops) == |t|
    ensures |Run(ops, t)| == Produced(ops)
    ensures InvertRaw(InvertRaw(ops, t), Run(ops, t)) == ops
  {
    RunLength(ops, t);
    if ops != [] {
      var r := Run(ops, t);
      var inv := InvertRaw(ops, t);
      match ops[0] {
        case Retain(n) =>
          InvertRawTwice(ops[1..], t[n..]);
          assert inv[1..] == InvertRaw(ops[1..], t[n..]);
          assert r[n..] == Run(ops[1..], t[n..]);
        case Delete(n) =>
          InvertRawTwice(ops[1..], t[n..]);
          assert inv[1..] == InvertRaw(ops[1..], t[n..]);
        case Insert(s) =>
          InvertRawTwice(ops[1..], t);
          assert inv[1..] == InvertRaw(ops[1..], t);
          assert r[|s|..] == Run(ops[1..], t);
          assert r[..|s|] == s;
      }
    }
  }

  lemma InvertRawNormalized(ops: seq<Op>, t: string)
    requires Consumed(ops) == |t| && Normalized(ops)
    ensures Normalized(InvertRaw(ops, t))
  {
    forall i | 0 <= i < |ops|
      ensures !IsEmpty(InvertRaw(ops, t)[i])
      ensures i > 0 ==> !SameKind(InvertRaw(ops, t)[i - 1], InvertRaw(ops, t)[i])
    {
      InvertRawKinds(ops, t, i);
      if i > 0 { InvertRawKinds(ops, t, i - 1); }
    }
  }

  /** Undoing an undo is the same changeset, op for op: the normal form makes inversion an involution. */
  lemma InverseIsInvolution(cs: ChangeSet, t: string)
    requires cs.Valid() && |t| == cs.lenBefore
    ensures |Run(cs.ops, t)| == cs.lenAfter
    ensures Inverse(Inverse(cs, t), Run(cs.ops, t)) == cs
  {
    var raw := InvertRaw(cs.ops, t);
    InvertRawNormalized(cs.ops, t);
    assert [] + raw == raw;
    PushAllOfNormalized([], raw);
    InvertRawTwice(cs.ops, t);
    assert [] + cs.ops == cs.ops;
    PushAllOfNormalized([], cs.ops);
  }

  // ---- Compose ----

  function Len(op: Op): nat {
    match op case Retain(n) => n case Delete(n) => n case Insert(s) => |s|
  }

  /** `op` without its first `n` chars. */
  function Rest(op: Op, n: nat): Op
    requires n <= Len(op)
  {
    match op case Retain(k) => Retain(k - n) case Delete(k) => Delete(k - n) case Insert(s) => Insert(s[n..])
  }

  function Advance(ops: seq<Op>, n: nat): (r: seq<Op>)
    requires ops != [] && n <= Len(ops[0])
    ensures Positive(ops) ==> Positive(r)
    ensures |r| <= |ops| && (n == Len(ops[0]) ==> |r| < |ops|)
  {
    if n < Len(ops[0]) then [Rest(ops[0], n)] + ops[1..] else ops[1..]
  }

  /** What `n` chars of the middle text become when `a` made them and `b` consumes them. */
  function Combine(a: Op, b: Op, n: nat): seq<Op>
    requires !a.Delete? && !b.Insert? && n <= Len(a) && n <= Len(b)
  {
    match (a, b)
    case (Insert(s), Retain(_)) => [Insert(s[..n])]
    case (Insert(_), Delete(_)) => []
    case (Retain(_), Retain(_)) => [Retain(n)]
    case (Retain(_), Delete(_)) => [Delete(n)]
  }

  function ComposeRaw(a: seq<Op>, b: seq<Op>): (r: seq<Op>)
    requires Positive(a) && Positive(b) && Produced(a) == Consumed(b)
    ensures Consumed(r) == Consumed(a) && Produced(r) == Produced(b)
    decreases |a| + |b|
  {
    if a == [] && b == [] then []
    else if a != [] && a[0].Delete? then [a[0]] + ComposeRaw(a[1..], b)
    else if b != [] && b[0].Insert? then [b[0]] + ComposeRaw(a, b[1..])
    else
      assert a != [] && b != [] by { PositiveTotals(a); PositiveTotals(b); }
      var n := Min(Len(a[0]), Len(b[0]));
      AdvanceLengths(a, n);
      AdvanceLengths(b, n);
      var tail := ComposeRaw(Advance(a, n), Advance(b, n));
      SplitLengths(Combine(a[0], b[0], n), tail);
      Combine(a[0], b[0], n) + tail
  }

  lemma PositiveTotals(ops: seq<Op>)
    requires Positive(ops) && ops != []
    ensures !ops[0].Insert? ==> Consumed(ops) > 0
    ensures !ops[0].Delete? ==> Produced(ops) > 0
  {
    assert !IsEmpty(ops[0]);
  }

  lemma AdvanceLengths(ops: seq<Op>, n: nat)
    requires ops != [] && n <= Len(ops[0])
    ensures Consumed(Advance(ops, n)) == Consumed(ops) - (if ops[0].Insert? then 0 else n)
    ensures Produced(Advance(ops, n)) == Produced(ops) - (if ops[0].Delete? then 0 else n)
  {
    if n < Len(ops[0]) {
      assert ([Rest(ops[0], n)] + ops[1..])[1..] == ops[1..];
    }
  }

  /** The first `n` chars of `op`, as an op. */
  function First(op: Op, n: nat): Op
    requires n <= Len(op)
  {
    match op case Retain(_) => Retain(n) case Delete(_) => Delete(n) case Insert(s) => Insert(s[..n])
  }

  /** Running a list does its first op's first `n` chars, then the advanced list. */
  lemma AdvanceRun(ops: seq<Op>, n: nat, s: string, t: string)
    requires ops != [] && n <= Len(ops[0])
    requires Consumed(ops) == |s + t| && |s| == (if ops[0].Insert? then 0 else n)
    ensures Consumed(Advance(ops, n)) == |t| && Consumed([First(ops[0], n)]) == |s|
    ensures Run(ops, s + t) == Run([First(ops[0], n)], s) + Run(Advance(ops, n), t)
  {
    AdvanceLengths(ops, n);
    var op, rest := ops[0], ops[1..];
    SplitAt(ops, 1);
    if n == Len(op) {
      assert First(op, n) == op;
      RunConcat([op], rest, s, t);
    } else {
      SplitLengths([Rest(op, n)], rest);
      var t0, t1 := t[..Consumed([Rest(op, n)])], t[Consumed([Rest(op, n)])..];
      SplitAt(t, |t0|);
      Assoc(s, t0, t1);
      AdvanceRunMid(op, rest, n, s, t0, t1);
    }
  }

  lemma AdvanceRunMid(op: Op, rest: seq<Op>, n: nat, s: string, t0: string, t1: string)
    requires n < Len(op) && Consumed([First(op, n)]) == |s| && Consumed([Rest(op, n)]) == |t0| && Consumed(rest) == |t1|
    ensures Consumed([op] + rest) == |s + t0 + t1| && Consumed([Rest(op, n)] + rest) == |t0 + t1|
    ensures Run([op] + rest, s + t0 + t1) == Run([First(op, n)], s) + Run([Rest(op, n)] + rest, t0 + t1)
  {
    assert Merge(First(op, n), Rest(op, n)) == op;
    MergeRun(First(op, n), Rest(op, n), s, t0);
    RunConcat([op], rest, s + t0, t1);
    RunConcat([Rest(op, n)], rest, t0, t1);
    Assoc(Run([First(op, n)], s), Run([Rest(op, n)], t0), Run(rest, t1));
  }

  lemma {:induction false} ComposeRawRun(a: seq<Op>, b: seq<Op>, t: string)
    requires Positive(a) && Positive(b) && Produced(a) == Consumed(b) && Consumed(a) == |t|
    ensures |Run(a, t)| == Consumed(b)
    ensures Run(ComposeRaw(a, b), t) == Run(b, Run(a, t))
    decreases |a| + |b|
  {
    RunLength(a, t);
    if a == [] && b == [] {
    } else if a != [] && a[0].Delete? {
      ComposeRawRun(a[1..], b, t[a[0].n..]);
      assert ComposeRaw(a, b)[1..] == ComposeRaw(a[1..], b);
    } else if b != [] && b[0].Insert? {
      ComposeRawRun(a, b[1..], t);
      assert ComposeRaw(a, b)[1..] == ComposeRaw(a, b[1..]);
    } else {
      if a == [] { PositiveTotals(b); }
      if b == [] { PositiveTotals(a); }
      ComposeStep(a, b, t);
    }
  }

  lemma {:induction false} ComposeStep(a: seq<Op>, b: seq<Op>, t: string)
    requires Positive(a) && Positive(b) && Produced(a) == Consumed(b) && Consumed(a) == |t|
    requires a != [] && b != [] && !a[0].Delete? && !b[0].Insert?
    ensures |Run(a, t)| == Consumed(b)
    ensures Run(ComposeRaw(a, b), t) == Run(b, Run(a, t))
    decreases |a| + |b|, 0
  {
    var n := Min(Len(a[0]), Len(b[0]));
    var a', b' := Advance(a, n), Advance(b, n);
    AdvanceLengths(a, n);
    AdvanceLengths(b, n);
    var k := if a[0].Insert? then 0 else n;
    PrefixFits(a, k);
    var s, t' := t[..k], t[k..];
    assert t == s + t';
    AdvanceRun(a, n, s, t');
    RunLength(a', t');
    var head, mid := Run([First(a[0], n)], s), Run(a', t');
    RunOne(First(a[0], n), s);
    AdvanceRun(b, n, head, mid);
    ComposeRawRun(a', b', t');
    var c, tail := Combine(a[0], b[0], n), ComposeRaw(a', b');
    assert ComposeRaw(a, b) == c + tail;
    CombineRun(a[0], b[0], n, s);
    RunConcat(c, tail, s, t');
  }

  lemma PrefixFits(ops: seq<Op>, k: nat)
    requires ops != [] && k <= (if ops[0].Insert? then 0 else Len(ops[0]))
    ensures k <= Consumed(ops)
  {
  }

  lemma CombineRun(a: Op, b: Op, n: nat, s: string)
    requires !a.Delete? && !b.Insert? && n <= Len(a) && n <= Len(b) && Consumed([First(a, n)]) == |s|
    ensures |Run([First(a, n)], s)| == Consumed([First(b, n)])
    ensures Consumed(Combine(a, b, n)) == |s|
    ensures Run(Combine(a, b, n), s) == Run([First(b, n)], Run([First(a, n)], s))
  {
    RunOne(First(a, n), s);
    RunOne(First(b, n), Run([First(a, n)], s));
    if Combine(a, b, n) != [] { RunOne(Combine(a, b, n)[0], s); }
  }

  function Composed(a: ChangeSet, b: ChangeSet): (r: ChangeSet)
    requires a.Valid() && b.Valid() && a.lenAfter == b.lenBefore
    ensures r.Valid() && r.lenBefore == a.lenBefore && r.lenAfter == b.lenAfter
  {
    PushAllLengths([], ComposeRaw(a.ops, b.ops));
    ChangeSet(PushAll([], ComposeRaw(a.ops, b.ops)), a.lenBefore, b.lenAfter)
  }

  /** One changeset for two in a row: its text is the second's, run on the first's. */
  lemma ComposedRun(a: ChangeSet, b: ChangeSet, t: string)
    requires a.Valid() && b.Valid() && a.lenAfter == b.lenBefore && |t| == a.lenBefore
    ensures |Run(a.ops, t)| == b.lenBefore
    ensures Run(Composed(a, b).ops, t) == Run(b.ops, Run(a.ops, t))
  {
    var raw := ComposeRaw(a.ops, b.ops);
    ComposeRawRun(a.ops, b.ops, t);
    NormalizedRun(raw, t);
  }

  function Pending(cur: Option<Op>, ops: seq<Op>, i: nat): seq<Op>
    requires i <= |ops|
  {
    (if cur.Some? then [cur.value] else []) + ops[i..]
  }

  /** `Advance` on the op in hand: its remainder, or the next op of the list. */
  method AdvanceOp(op: Op, n: nat, ops: seq<Op>, i: nat) returns (cur: Option<Op>, next: nat)
    requires i <= |ops| && n <= Len(op)
    ensures i <= next <= |ops| && (cur.None? ==> next == |ops|)
    ensures Pending(cur, ops, next) == Advance([op] + ops[i..], n)
  {
    if n < Len(op) {
      return Some(Rest(op, n)), i;
    }
    cur, next := NextOp(ops, i);
  }

  method NextOp(ops: seq<Op>, i: nat) returns (cur: Option<Op>, next: nat)
    requires i <= |ops|
    ensures i <= next <= |ops| && (cur.None? ==> next == |ops|)
    ensures Pending(cur, ops, next) == ops[i..]
  {
    if i < |ops| {
      return Some(ops[i]), i + 1;
    }
    return None, i;
  }

  /** What `Compose` keeps: the result so far and the two pending lists still give the same answer. */
  ghost predicate Composing(result: seq<Op>, x: seq<Op>, y: seq<Op>, answer: seq<Op>) {
    && Positive(x) && Positive(y) && Produced(x) == Consumed(y)
    && PushAll(result, ComposeRaw(x, y)) == answer
  }

  lemma ComposingDelete(result: seq<Op>, x: seq<Op>, y: seq<Op>, answer: seq<Op>)
    requires Composing(result, x, y, answer) && x != [] && x[0].Delete?
    ensures Composing(PushMerge(result, x[0]), x[1..], y, answer)
  {
    assert ComposeRaw(x, y)[1..] == ComposeRaw(x[1..], y);
  }

  lemma ComposingInsert(result: seq<Op>, x: seq<Op>, y: seq<Op>, answer: seq<Op>)
    requires Composing(result, x, y, answer) && y != [] && y[0].Insert? && (x == [] || !x[0].Delete?)
    ensures Composing(PushMerge(result, y[0]), x, y[1..], answer)
  {
    assert ComposeRaw(x, y)[1..] == ComposeRaw(x, y[1..]);
  }

  lemma ComposingBoth(result: seq<Op>, x: seq<Op>, y: seq<Op>, answer: seq<Op>)
    requires Composing(result, x, y, answer) && x + y != []
    requires (x == [] || !x[0].Delete?) && (y == [] || !y[0].Insert?)
    ensures x != [] && y != []
    ensures var n := Min(Len(x[0]), Len(y[0]));
            Composing(PushAll(result, Combine(x[0], y[0], n)), Advance(x, n), Advance(y, n), answer)
  {
    if x == [] { PositiveTotals(y); }
    if y == [] { PositiveTotals(x); }
    var n := Min(Len(x[0]), Len(y[0]));
    AdvanceLengths(x, n);
    AdvanceLengths(y, n);
    PushAllSplit(result, Combine(x[0], y[0], n), ComposeRaw(Advance(x, n), Advance(y, n)));
  }

  /** Emits what one lockstep of `n` chars adds to the result. */
  method Emit(result: seq<Op>, a: Op, b: Op, n: nat) returns (r: seq<Op>)
    requires !a.Delete? && !b.Insert? && n <= Len(a) && n <= Len(b)
    ensures r == PushAll(result, Combine(a, b, n))
  {
    if a.Insert? && b.Retain? {
      r := PushMerge(result, Insert(a.s[..n]));
    } else if a.Retain? && b.Retain? {
      r := PushMerge(result, Retain(n));
    } else if a.Retain? && b.Delete? {
      r := PushMerge(result, Delete(n));
    } else {
      r := result;
    }
  }

  /** Both cursors move past the chars the ops in hand share. */
  method Lockstep(result: seq<Op>, p: Op, aOps: seq<Op>, ai: nat, q: Op, bOps: seq<Op>, bi: nat)
      returns (r: seq<Op>, aCur: Option<Op>, aNext: nat, bCur: Option<Op>, bNext: nat)
    requires ai <= |aOps| && bi <= |bOps| && !p.Delete? && !q.Insert?
    ensures ai <= aNext <= |aOps| && bi <= bNext <= |bOps|
    ensures (aCur.None? ==> aNext == |aOps|) && (bCur.None? ==> bNext == |bOps|)
    ensures var n := Min(Len(p), Len(q));
            && r == PushAll(result, Combine(p, q, n))
            && Pending(aCur, aOps, aNext) == Advance([p] + aOps[ai..], n)
            && Pending(bCur, bOps, bNext) == Advance([q] + bOps[bi..], n)
    ensures |Pending(aCur, aOps, aNext)| + |Pending(bCur, bOps, bNext)| < 2 + |aOps[ai..]| + |bOps[bi..]|
  {
    var n := Min(Len(p), Len(q));
    r := Emit(result, p, q, n);
    aCur, aNext := AdvanceOp(p, n, aOps, ai);
    bCur, bNext := AdvanceOp(q, n, bOps, bi);
  }

  /** Two cursors walk both lists, matching up the chars of the text between them. */
  method Compose(a: ChangeSet, b: ChangeSet) returns (r: ChangeSet)
    requires a.Valid() && b.Valid() && a.lenAfter == b.lenBefore
    ensures r == Composed(a, b)
  {
    var result: seq<Op> := [];
    var aCur, ai := NextOp(a.ops, 0);
    var bCur, bi := NextOp(b.ops, 0);
    assert a.ops[0..] == a.ops && b.ops[0..] == b.ops;
    ghost var answer := PushAll([], ComposeRaw(a.ops, b.ops));
    while aCur.Some? || bCur.Some?
      invariant ai <= |a.ops| && bi <= |b.ops|
      invariant (aCur.None? ==> ai == |a.ops|) && (bCur.None? ==> bi == |b.ops|)
      invariant Composing(result, Pending(aCur, a.ops, ai), Pending(bCur, b.ops, bi), answer)
      decreases |Pending(aCur, a.ops, ai)| + |Pending(bCur, b.ops, bi)|
    {
      ghost var x, y := Pending(aCur, a.ops, ai), Pending(bCur, b.ops, bi);
      if aCur.Some? && aCur.value.Delete? {
        ComposingDelete(result, x, y, answer);
        assert x[1..] == a.ops[ai..];
        result := PushMerge(result, aCur.value);
        aCur, ai := NextOp(a.ops, ai);
      } else if bCur.Some? && bCur.value.Insert? {
        ComposingInsert(result, x, y, answer);
        assert y[1..] == b.ops[bi..];
        result := PushMerge(result, bCur.value);
        bCur, bi := NextOp(b.ops, bi);
      } else {
        ComposingBoth(result, x, y, answer);
        assert x == [aCur.value] + a.ops[ai..] && y == [bCur.value] + b.ops[bi..];
        result, aCur, ai, bCur, bi := Lockstep(result, aCur.value, a.ops, ai, bCur.value, b.ops, bi);
      }
    }
    return ChangeSet(result, a.lenBefore, b.lenAfter);
  }

  // ---- Composing a whole run of changesets ----

  /** Each changeset applies to the text the one before it produced. */
  ghost predicate Chained(css: seq<ChangeSet>) {
    && (forall i :: 0 <= i < |css| ==> css[i].Valid())
    && (forall i, j :: 0 <= i < j < |css| && j == i + 1 ==> css[i].lenAfter == css[j].lenBefore)
  }

  ghost function RunAll(css: seq<ChangeSet>, t: string): string
    requires Chained(css) && (css != [] ==> css[0].lenBefore == |t|)
    decreases |css|
  {
    if css == [] then t
    else
      RunLength(css[0].ops, t);
      RunAll(css[1..], Run(css[0].ops, t))
  }

  lemma ChainedParts(a: seq<ChangeSet>, b: seq<ChangeSet>, ab: seq<ChangeSet>)
    requires ab == a + b && Chained(ab)
    ensures Chained(a) && Chained(b) && (a != [] && b != [] ==> a[|a| - 1].lenAfter == b[0].lenBefore)
  {
    assert forall i :: 0 <= i < |a| ==> a[i] == ab[i];
    assert forall i :: 0 <= i < |b| ==> b[i] == ab[|a| + i];
    if a != [] && b != [] { assert ab[|a| - 1] == a[|a| - 1] && ab[|a|] == b[0]; }
  }

  lemma {:induction false} RunAllSplit(a: seq<ChangeSet>, b: seq<ChangeSet>, t: string, ab: seq<ChangeSet>)
    requires ab == a + b && Chained(ab) && (ab != [] ==> ab[0].lenBefore == |t|)
    requires a != []
    ensures Chained(a) && Chained(b) && a[0].lenBefore == |t|
    ensures b != [] ==> b[0].lenBefore == |RunAll(a, t)|
    ensures RunAll(ab, t) == RunAll(b, RunAll(a, t))
    decreases |a|
  {
    ChainedParts(a, b, ab);
    assert ab[0] == a[0] && ab[1..] == a[1..] + b;
    RunLength(a[0].ops, t);
    if |a| == 1 {
      assert a[1..] == [] && ab[1..] == b;
    } else {
      ChainedParts([ab[0]], ab[1..], ab);
      RunAllSplit(a[1..], b, Run(a[0].ops, t), ab[1..]);
    }
  }

  /** One round of the balanced fold: neighbours composed in pairs, an odd last one kept. */
  ghost function PairUp(css: seq<ChangeSet>): (r: seq<ChangeSet>)
    requires Chained(css)
    ensures Chained(r) && |r| == (|css| + 1) / 2
    ensures css != [] ==> r[0].lenBefore == css[0].lenBefore && r[|r| - 1].lenAfter == css[|css| - 1].lenAfter
    decreases |css|
  {
    if |css| < 2 then css
    else [Composed(css[0], css[1])] + PairUp(css[2..])
  }

  lemma {:induction false} PairUpRun(css: seq<ChangeSet>, t: string)
    requires Chained(css) && (css != [] ==> css[0].lenBefore == |t|)
    ensures RunAll(PairUp(css), t) == RunAll(css, t)
    decreases |css|
  {
    if |css| >= 2 {
      ComposedRun(css[0], css[1], t);
      RunLength(css[1].ops, Run(css[0].ops, t));
      PairUpRun(css[2..], Run(css[1].ops, Run(css[0].ops, t)));
      assert PairUp(css)[1..] == PairUp(css[2..]);
      assert css[1..][1..] == css[2..];
    }
  }

  ghost function Net(css: seq<ChangeSet>): (r: ChangeSet)
    requires Chained(css) && css != []
    ensures r.Valid() && r.lenBefore == css[0].lenBefore && r.lenAfter == css[|css| - 1].lenAfter
    decreases |css|
  {
    if |css| == 1 then css[0] else Net(PairUp(css))
  }

  /** The net of a run has the run's effect, however the fold is balanced. */
  lemma {:induction false} NetRun(css: seq<ChangeSet>, t: string)
    requires Chained(css) && css != [] && css[0].lenBefore == |t|
    ensures Run(Net(css).ops, t) == RunAll(css, t)
    decreases |css|
  {
    if |css| == 1 {
      RunLength(css[0].ops, t);
      assert css[1..] == [];
      assert RunAll(css[1..], Run(css[0].ops, t)) == Run(css[0].ops, t);
    } else {
      PairUpRun(css, t);
      NetRun(PairUp(css), t);
    }
  }

  /** The round so far, continued with the pairs of the rest. */
  ghost function FoldFrom(folded: seq<ChangeSet>, css: seq<ChangeSet>, i: nat): Option<seq<ChangeSet>> {
    if i <= |css| && Chained(css[i..]) then Some(folded + PairUp(css[i..])) else None
  }

  lemma FoldTwo(folded: seq<ChangeSet>, css: seq<ChangeSet>, i: nat, more: seq<ChangeSet>)
    requires i + 1 < |css| && FoldFrom(folded, css, i).Some?
    requires css[i].Valid() && css[i + 1].Valid() && css[i].lenAfter == css[i + 1].lenBefore ==>
               more == folded + [Composed(css[i], css[i + 1])]
    ensures css[i].Valid() && css[i + 1].Valid() && css[i].lenAfter == css[i + 1].lenBefore
    ensures FoldFrom(more, css, i + 2) == FoldFrom(folded, css, i)
  {
    var here := css[i..];
    assert here[0] == css[i] && here[1] == css[i + 1];
    DropDrop(css, i, 2);
    Assoc(folded, [Composed(css[i], css[i + 1])], PairUp(css[i + 2..]));
  }

  lemma FoldLast(folded: seq<ChangeSet>, css: seq<ChangeSet>, i: nat, more: seq<ChangeSet>)
    requires i + 1 == |css| && FoldFrom(folded, css, i).Some? && more == folded + [css[i]]
    ensures FoldFrom(more, css, i + 1) == FoldFrom(folded, css, i)
  {
    assert css[i..] == [css[i]] && css[i + 1..] == [];
    assert more + [] == more;
  }

  lemma FoldReady(folded: seq<ChangeSet>, css: seq<ChangeSet>, i: nat)
    requires i + 1 < |css| && FoldFrom(folded, css, i).Some?
    ensures css[i].Valid() && css[i + 1].Valid() && css[i].lenAfter == css[i + 1].lenBefore
  {
    var here := css[i..];
    assert here[0] == css[i] && here[1] == css[i + 1];
  }

  method FoldPairs(css: seq<ChangeSet>) returns (folded: seq<ChangeSet>)
    requires Chained(css)
    ensures folded == PairUp(css)
  {
    folded := [];
    var i := 0;
    FoldNone(css);
    ghost var answer := FoldFrom([], css, 0);
    while i < |css|
      invariant i <= |css| && answer.Some? && FoldFrom(folded, css, i) == answer
    {
      if i + 1 < |css| {
        FoldReady(folded, css, i);
        var c := Compose(css[i], css[i + 1]);
        FoldTwo(folded, css, i, folded + [c]);
        folded, i := folded + [c], i + 2;
      } else {
        FoldLast(folded, css, i, folded + [css[i]]);
        folded, i := folded + [css[i]], i + 1;
      }
    }
    FoldDone(folded, css);
  }

  lemma FoldDone(folded: seq<ChangeSet>, css: seq<ChangeSet>)
    ensures FoldFrom(folded, css, |css|) == Some(folded)
  {
    assert css[|css|..] == [] && folded + [] == folded;
  }

  lemma FoldNone(css: seq<ChangeSet>)
    requires Chained(css)
    ensures FoldFrom([], css, 0) == Some(PairUp(css))
  {
    assert css[0..] == css && [] + PairUp(css) == PairUp(css);
  }

  method ComposeAll(input: seq<ChangeSet>) returns (r: Option<ChangeSet>)
    requires Chained(input)
    ensures input == [] ==> r == None
    ensures input != [] ==> r == Some(Net(input))
  {
    var css := input;
    while |css| > 1
      invariant Chained(css)
      invariant css == [] <==> input == []
      invariant input != [] ==> Net(css) == Net(input)
      decreases |css|
    {
      css := FoldPairs(css);
    }
    return if css == [] then None else Some(css[0]);
  }
}
