/** Bracket matching: simple per-type scans, and the interleaved bounded scan that must agree with
    running all of them and keeping the tightest pair. */
module Brackets {
  import opened Wrappers

  const BRACKET_PAIRS: seq<(char, char)> := [('(', ')'), ('[', ']'), ('{', '}')]

  type Kind = k: nat | k < 3

  function Open(k: Kind): char { BRACKET_PAIRS[k].0 }

  function Close(k: Kind): char { BRACKET_PAIRS[k].1 }

  /** Which pair a char belongs to, and whether it is the open side. */
  function Role(ch: char): (r: Option<(Kind, bool)>)
    ensures forall k: Kind :: (r == Some((k, true)) <==> ch == Open(k)) && (r == Some((k, false)) <==> ch == Close(k))
  {
    if ch == '(' then Some((0, true)) else if ch == ')' then Some((0, false))
    else if ch == '[' then Some((1, true)) else if ch == ']' then Some((1, false))
    else if ch == '{' then Some((2, true)) else if ch == '}' then Some((2, false))
    else None
  }

  // ---- The per-type scans ----

  /** The unmatched open at or after `lo`, scanning left from `p` (exclusive), `depth` closes pending. */
  function LeftOpen(t: string, p: nat, k: Kind, depth: nat, lo: nat): (r: Option<nat>)
    requires p <= |t|
    ensures r.Some? ==> lo <= r.value < p && t[r.value] == Open(k)
  {
    if p <= lo then None
    else if t[p - 1] == Close(k) then LeftOpen(t, p - 1, k, depth + 1, lo)
    else if t[p - 1] != Open(k) then LeftOpen(t, p - 1, k, depth, lo)
    else if depth == 0 then Some(p - 1)
    else LeftOpen(t, p - 1, k, depth - 1, lo)
  }

  /** The unmatched close before `hi`, scanning right from `p`, `depth` opens pending. */
  function RightClose(t: string, p: nat, k: Kind, depth: nat, hi: nat): (r: Option<nat>)
    requires p <= |t|
    ensures r.Some? ==> p <= r.value < |t| && r.value < hi && t[r.value] == Close(k)
    decreases |t| - p
  {
    if p == |t| || p >= hi then None
    else if t[p] == Open(k) then RightClose(t, p + 1, k, depth + 1, hi)
    else if t[p] != Close(k) then RightClose(t, p + 1, k, depth, hi)
    else if depth == 0 then Some(p)
    else RightClose(t, p + 1, k, depth - 1, hi)
  }

  method ScanLeftForOpen(t: string, pos: nat, k: Kind, lo: nat) returns (r: Option<nat>)
    requires pos <= |t|
    ensures r == LeftOpen(t, pos, k, 0, lo)
  {
    var depth, cursor: nat := 0, pos;
    while cursor > 0
      invariant cursor <= pos
      invariant LeftOpen(t, cursor, k, depth, lo) == LeftOpen(t, pos, k, 0, lo)
    {
      var i := cursor - 1;
      if i < lo { return None; }
      if t[i] == Close(k) {
        depth := depth + 1;
      } else if t[i] == Open(k) {
        if depth == 0 { return Some(i); }
        depth := depth - 1;
      }
      cursor := i;
    }
    return None;
  }

  method ScanRightForClose(t: string, pos: nat, k: Kind, hi: nat) returns (r: Option<nat>)
    requires pos <= |t|
    ensures r == RightClose(t, pos, k, 0, hi)
  {
    var depth: nat := 0;
    for i := pos to |t|
      invariant RightClose(t, i, k, depth, hi) == RightClose(t, pos, k, 0, hi)
    {
      if i >= hi { return None; }
      if t[i] == Open(k) {
        depth := depth + 1;
      } else if t[i] == Close(k) {
        if depth == 0 { return Some(i); }
        depth := depth - 1;
      }
    }
    return None;
  }

  type Pair = (nat, nat)

  /** The innermost pair of type `k` around the char at `pos`, neither scan leaving `lo..hi`. */
  function PairAt(t: string, pos: nat, k: Kind, lo: nat, hi: nat): Option<Pair> {
    if pos >= |t| then None
    else
      var open := if t[pos] == Open(k) then Some(pos) else LeftOpen(t, pos, k, 0, lo);
      var close := if t[pos] == Close(k) then Some(pos) else RightClose(t, pos + 1, k, 0, hi);
      if open.Some? && close.Some? then Some((open.value, close.value)) else None
  }

  method BracketPairChars(t: string, pos: nat, k: Kind, lo: nat, hi: nat) returns (r: Option<Pair>)
    ensures r == PairAt(t, pos, k, lo, hi)
  {
    if pos >= |t| { return None; }
    if t[pos] == Open(k) {
      var close := ScanRightForClose(t, pos + 1, k, hi);
      return if close.Some? then Some((pos, close.value)) else None;
    }
    var open := ScanLeftForOpen(t, pos, k, lo);
    if open.None? { return None; }
    if t[pos] == Close(k) { return Some((open.value, pos)); }
    var close := ScanRightForClose(t, pos + 1, k, hi);
    return if close.Some? then Some((open.value, close.value)) else None;
  }

  // ---- What the scans mean ----

  function Weight(ch: char, k: Kind): int {
    if ch == Open(k) then 1 else if ch == Close(k) then -1 else 0
  }

  /** Opens minus closes of type `k` in `t[i..j]`. */
  function Net(t: string, k: Kind, i: nat, j: nat): int
    requires i <= j <= |t|
  {
    if i == j then 0 else Net(t, k, i, j - 1) + Weight(t[j - 1], k)
  }

  lemma {:induction false} NetSplit(t: string, k: Kind, i: nat, m: nat, j: nat)
    requires i <= m <= j <= |t|
    ensures Net(t, k, i, j) == Net(t, k, i, m) + Net(t, k, m, j)
  {
    if m < j { NetSplit(t, k, i, m, j - 1); }
  }

  /** `o` is the nearest open left of `p` that nothing in between, and none of `depth` closes, uses up. */
  ghost predicate UnmatchedOpen(t: string, p: nat, k: Kind, depth: nat, o: nat)
    requires p <= |t|
  {
    && o < p && t[o] == Open(k) && Net(t, k, o + 1, p) == depth
    && forall j :: o < j <= p ==> Net(t, k, j, p) <= depth
  }

  ghost predicate UnmatchedClose(t: string, p: nat, k: Kind, depth: nat, c: nat)
    requires p <= |t|
  {
    && p <= c < |t| && t[c] == Close(k) && Net(t, k, p, c) == -(depth as int)
    && forall j :: p <= j <= c ==> Net(t, k, p, j) >= -(depth as int)
  }

  lemma UnmatchedOpenStep(t: string, p: nat, k: Kind, depth: nat, o: nat)
    requires 0 < p <= |t| && o + 1 < p && depth >= Weight(t[p - 1], k)
    ensures UnmatchedOpen(t, p, k, depth, o) <==> UnmatchedOpen(t, p - 1, k, depth - Weight(t[p - 1], k), o)
  {
    var w := Weight(t[p - 1], k);
    if UnmatchedOpen(t, p, k, depth, o) {
      var q := p - 1;
      forall j | o < j <= q ensures Net(t, k, j, q) <= depth - w {
        assert Net(t, k, j, p) == Net(t, k, j, p - 1) + w;
      }
    }
    if UnmatchedOpen(t, p - 1, k, depth - w, o) {
      forall j | o < j <= p ensures Net(t, k, j, p) <= depth {
        if j < p { assert Net(t, k, j, p) == Net(t, k, j, p - 1) + w; }
      }
    }
  }

  lemma {:induction false} LeftOpenMeans(t: string, p: nat, k: Kind, depth: nat, lo: nat, o: nat)
    requires p <= |t|
    ensures LeftOpen(t, p, k, depth, lo) == Some(o) <==> lo <= o && UnmatchedOpen(t, p, k, depth, o)
  {
    if p > lo {
      var w := Weight(t[p - 1], k);
      if w == 1 && depth == 0 {
        if o + 1 < p { assert Net(t, k, p - 1, p) == 1 by { assert Net(t, k, p - 1, p - 1) == 0; } }
      } else {
        LeftOpenMeans(t, p - 1, k, depth - w, lo, o);
        if o + 1 < p {
          UnmatchedOpenStep(t, p, k, depth, o);
        } else if o + 1 == p {
          assert Net(t, k, p, p) == 0;
        }
      }
    }
  }

  lemma UnmatchedCloseStep(t: string, p: nat, k: Kind, depth: nat, c: nat)
    requires p < c < |t| && depth + Weight(t[p], k) >= 0
    ensures UnmatchedClose(t, p, k, depth, c) <==> UnmatchedClose(t, p + 1, k, depth + Weight(t[p], k), c)
  {
    var w := Weight(t[p], k);
    assert Net(t, k, p, p) == 0;
    forall j | p < j <= c ensures Net(t, k, p, j) == w + Net(t, k, p + 1, j) {
      NetSplit(t, k, p, p + 1, j);
    }
    if UnmatchedClose(t, p, k, depth, c) {
      var q := p + 1;
      forall j | q <= j <= c ensures Net(t, k, q, j) >= -((depth + w) as int) {
        assert Net(t, k, p, j) >= -(depth as int);
      }
    }
    if UnmatchedClose(t, p + 1, k, depth + w, c) {
      forall j | p <= j <= c ensures Net(t, k, p, j) >= -(depth as int) {
        if j > p { assert Net(t, k, p + 1, j) >= -((depth + w) as int); }
      }
    }
  }

  lemma {:induction false} RightCloseMeans(t: string, p: nat, k: Kind, depth: nat, hi: nat, c: nat)
    requires p <= |t|
    ensures RightClose(t, p, k, depth, hi) == Some(c) <==> c < hi && UnmatchedClose(t, p, k, depth, c)
    decreases |t| - p
  {
    if p < |t| && p < hi {
      var w := Weight(t[p], k);
      assert Net(t, k, p, p) == 0;
      if w == -1 && depth == 0 {
        if p < c < |t| { assert Net(t, k, p, p + 1) == -1; }
      } else {
        RightCloseMeans(t, p + 1, k, depth + w, hi, c);
        if p < c < |t| { UnmatchedCloseStep(t, p, k, depth, c); }
      }
    }
  }

  /** The scans are dual: the close an open reaches going right reaches that open going left. */
  lemma ScansAreDual(t: string, k: Kind, o: nat, c: nat)
    requires o < |t| && c < |t| && t[o] == Open(k) && t[c] == Close(k)
    ensures RightClose(t, o + 1, k, 0, |t|) == Some(c) <==> LeftOpen(t, c, k, 0, 0) == Some(o)
  {
    RightCloseMeans(t, o + 1, k, 0, |t|, c);
    LeftOpenMeans(t, c, k, 0, 0, o);
    if o < c {
      forall j | o < j <= c ensures Net(t, k, o + 1, c) == Net(t, k, o + 1, j) + Net(t, k, j, c) {
        NetSplit(t, k, o + 1, j, c);
      }
      assert Net(t, k, c, c) == 0;
      if UnmatchedClose(t, o + 1, k, 0, c) {
        forall j | o < j <= c ensures Net(t, k, j, c) <= 0 { assert Net(t, k, o + 1, j) >= 0; }
      }
      if UnmatchedOpen(t, c, k, 0, o) {
        var q := o + 1;
        forall j | q <= j <= c ensures Net(t, k, q, j) >= 0 { assert Net(t, k, j, c) <= 0; }
      }
    }
  }

  ghost predicate Matching(t: string, k: Kind, o: nat, c: nat) {
    o < c < |t| && t[o] == Open(k) && t[c] == Close(k) && RightClose(t, o + 1, k, 0, |t|) == Some(c)
  }

  /** A found pair is a matching one around `pos`, and matching from either of its ends finds it again. */
  lemma PairMatches(t: string, pos: nat, k: Kind)
    requires PairAt(t, pos, k, 0, |t|).Some?
    ensures var p := PairAt(t, pos, k, 0, |t|);
            var (o, c) := p.value;
            Matching(t, k, o, c) && o <= pos <= c && PairAt(t, o, k, 0, |t|) == PairAt(t, c, k, 0, |t|) == p
  {
    var (o, c) := PairAt(t, pos, k, 0, |t|).value;
    if t[pos] == Open(k) || t[pos] == Close(k) {
      ScansAreDual(t, k, o, c);
    } else {
      LeftOpenMeans(t, pos, k, 0, 0, o);
      RightCloseMeans(t, pos + 1, k, 0, |t|, c);
      PairsJoin(t, k, o, pos, c);
      ScansAreDual(t, k, o, c);
    }
  }

  lemma PairsJoin(t: string, k: Kind, o: nat, pos: nat, c: nat)
    requires o < pos < c < |t| && Weight(t[pos], k) == 0
    requires UnmatchedOpen(t, pos, k, 0, o) && UnmatchedClose(t, pos + 1, k, 0, c)
    ensures RightClose(t, o + 1, k, 0, |t|) == Some(c)
  {
    var q := o + 1;
    forall j | q <= j <= c ensures Net(t, k, q, j) >= 0 {
      if j <= pos {
        NetSplit(t, k, o + 1, j, pos);
        assert Net(t, k, j, pos) <= 0;
      } else {
        NetSplit(t, k, o + 1, pos, j);
        NetSplit(t, k, pos, pos + 1, j);
        assert Net(t, k, pos, pos) == 0;
        assert Net(t, k, pos + 1, j) >= 0;
      }
    }
    NetSplit(t, k, o + 1, pos, c);
    NetSplit(t, k, pos, pos + 1, c);
    assert Net(t, k, pos, pos) == 0;
    RightCloseMeans(t, o + 1, k, 0, |t|, c);
  }

  lemma {:induction false} LeftOpenReaches(t: string, p: nat, k: Kind, depth: nat, i: nat)
    requires i <= p <= |t| && Net(t, k, i, p) > depth
    ensures LeftOpen(t, p, k, depth, 0).Some? && i <= LeftOpen(t, p, k, depth, 0).value
  {
    var w := Weight(t[p - 1], k);
    if w != 1 || depth > 0 {
      LeftOpenReaches(t, p - 1, k, depth - w, i);
    }
  }

  lemma {:induction false} RightCloseReaches(t: string, p: nat, k: Kind, depth: nat, j: nat)
    requires p <= j <= |t| && Net(t, k, p, j) < -(depth as int)
    ensures RightClose(t, p, k, depth, |t|).Some? && RightClose(t, p, k, depth, |t|).value < j
    decreases j - p
  {
    assert Net(t, k, p, p) == 0;
    var w := Weight(t[p], k);
    NetSplit(t, k, p, p + 1, j);
    if w != -1 || depth > 0 {
      RightCloseReaches(t, p + 1, k, depth + w, j);
    }
  }

  /** The found pair is the innermost: every matching pair around `pos` lies around it, and if there is
      one at all, a pair is found. */
  lemma PairIsInnermost(t: string, pos: nat, k: Kind, o: nat, c: nat)
    requires Matching(t, k, o, c) && o <= pos <= c
    ensures PairAt(t, pos, k, 0, |t|).Some?
    ensures var (oo, cc) := PairAt(t, pos, k, 0, |t|).value; o <= oo && cc <= c
  {
    RightCloseMeans(t, o + 1, k, 0, |t|, c);
    if o < pos {
      NetSplit(t, k, o, o + 1, pos);
      assert Net(t, k, o, o) == 0;
      LeftOpenReaches(t, pos, k, 0, o);
    }
    if pos < c && t[pos] != Close(k) {
      NetSplit(t, k, o + 1, c, c + 1);
      assert Net(t, k, c, c) == 0;
      if pos == o {
        RightCloseReaches(t, pos + 1, k, 0, c + 1);
      } else {
        NetSplit(t, k, o + 1, pos, c + 1);
        NetSplit(t, k, pos, pos + 1, c + 1);
        assert Net(t, k, pos, pos) == 0;
        if t[pos] == Open(k) {
          NetSplit(t, k, o + 1, pos + 1, c + 1);
          NetSplit(t, k, o + 1, pos, pos + 1);
        }
        RightCloseReaches(t, pos + 1, k, 0, c + 1);
      }
    }
  }

  // ---- The tightest pair ----

  function Span(p: Pair): int { p.1 - p.0 }

  function Tighter(a: Option<Pair>, b: Option<Pair>): Option<Pair> {
    if a.None? then b else if b.None? || Span(a.value) <= Span(b.value) then a else b
  }

  function Candidates(t: string, pos: nat): seq<Option<Pair>> {
    [PairAt(t, pos, 0, 0, |t|), PairAt(t, pos, 1, 0, |t|), PairAt(t, pos, 2, 0, |t|)]
  }

  /** The smallest span, ties going to the earlier type. */
  function Tightest(c: seq<Option<Pair>>): Option<Pair>
    requires |c| == 3
  {
    Tighter(Tighter(c[0], c[1]), c[2])
  }

  lemma TightestMeans(c: seq<Option<Pair>>, r: Option<Pair>)
    requires |c| == 3
    ensures r == Tightest(c) <==>
              if r.None? then forall k: Kind :: c[k].None?
              else exists k: Kind ::
                c[k] == r && forall j: Kind :: c[j].Some? ==>
                  Span(r.value) <= Span(c[j].value) && (j < k ==> Span(r.value) < Span(c[j].value))
  {
    var k: Kind := if Tightest(c) == c[0] then 0 else if Tightest(c) == c[1] then 1 else 2;
    assert c[k] == Tightest(c);
    if r != Tightest(c) && r.Some? && Tightest(c).Some? {
      forall i: Kind | c[i] == r
        ensures exists j: Kind ::
                  c[j].Some? && !(Span(r.value) <= Span(c[j].value) && (j < i ==> Span(r.value) < Span(c[j].value)))
      {
        assert c[k].Some?;
      }
    }
  }

  // ---- The interleaved scan ----

  type Slots = s: seq<Option<nat>> | |s| == 3 witness [None, None, None]

  type Depths = s: seq<nat> | |s| == 3 witness [0, 0, 0]

  function StepOne(i: nat, c: char, seekOpen: bool, k: Kind, slot: Option<nat>, depth: nat): (Option<nat>, nat) {
    var (sought, other) := if seekOpen then (Open(k), Close(k)) else (Close(k), Open(k));
    if slot.Some? then (slot, depth)
    else if c == other then (slot, depth + 1)
    else if c != sought then (slot, depth)
    else if depth > 0 then (slot, depth - 1)
    else (Some(i), depth)
  }

  /** One step of a direction, taken by every type's counter. */
  ghost predicate Stepped(i: nat, c: char, seekOpen: bool, depths: Depths, slots: Slots, depths': Depths,
                          slots': Slots) {
    forall k: Kind :: (slots'[k], depths'[k]) == StepOne(i, c, seekOpen, k, slots[k], depths[k])
  }

  /** Feeds one char to its type's counter; returns the type it resolved, if any. Only that type moves. */
  method StepBracket(i: nat, c: char, seekOpen: bool, depths: Depths, slots: Slots)
    returns (newDepths: Depths, newSlots: Slots, found: Option<Kind>)
    ensures Stepped(i, c, seekOpen, depths, slots, newDepths, newSlots)
    ensures found.None? ==> newSlots == slots
    ensures found.Some? ==> slots[found.value].None? && newSlots == slots[found.value := Some(i)]
  {
    newDepths, newSlots, found := depths, slots, None;
    var role := Role(c);
    if role.None? { return; }
    var (k, isOpen) := role.value;
    if slots[k].Some? { return; }
    if isOpen != seekOpen {
      newDepths := depths[k := depths[k] + 1];
      return;
    }
    if depths[k] > 0 {
      newDepths := depths[k := depths[k] - 1];
      return;
    }
    newSlots, found := slots[k := Some(i)], Some(k);
  }

  /** What `dl` chars of leftward scan know of type `k`: its open, or what is left to scan for it. */
  ghost predicate LeftTrack(t: string, pos: nat, dl: nat, k: Kind, slot: Option<nat>, depth: nat)
    requires pos < |t| && dl <= pos
  {
    if t[pos] == Open(k) then slot == Some(pos)
    else if slot.Some? then LeftOpen(t, pos, k, 0, 0) == slot
    else LeftOpen(t, pos, k, 0, 0) == LeftOpen(t, pos - dl, k, depth, 0)
  }

  /** The same to the right. The close under the cursor is filled in only once its open is known; until
      then the slot of that type means nothing. */
  ghost predicate RightTrack(t: string, pos: nat, dr: nat, k: Kind, open: Option<nat>, slot: Option<nat>, depth: nat)
    requires pos + 1 + dr <= |t|
  {
    if t[pos] == Close(k) then open.Some? ==> slot == Some(pos)
    else if slot.Some? then RightClose(t, pos + 1, k, 0, |t|) == slot
    else RightClose(t, pos + 1, k, 0, |t|) == RightClose(t, pos + 1 + dr, k, depth, |t|)
  }

  lemma LeftTrackStep(t: string, pos: nat, dl: nat, k: Kind, slot: Option<nat>, depth: nat)
    requires pos < |t| && dl < pos && LeftTrack(t, pos, dl, k, slot, depth)
    ensures var (slot', depth') := StepOne(pos - dl - 1, t[pos - dl - 1], true, k, slot, depth);
            LeftTrack(t, pos, dl + 1, k, slot', depth')
  {
  }

  lemma RightTrackStep(t: string, pos: nat, dr: nat, k: Kind, open: Option<nat>, slot: Option<nat>, depth: nat)
    requires pos + 1 + dr < |t| && RightTrack(t, pos, dr, k, open, slot, depth)
    ensures var (slot', depth') := StepOne(pos + 1 + dr, t[pos + 1 + dr], false, k, slot, depth);
            RightTrack(t, pos, dr + 1, k, open, slot', depth')
  {
  }

  ghost predicate Tracks(t: string, pos: nat, dl: nat, dr: nat, opens: Slots, closes: Slots, left: Depths,
                         right: Depths)
    requires dl <= pos && pos + 1 + dr <= |t|
  {
    forall k: Kind :: LeftTrack(t, pos, dl, k, opens[k], left[k])
        && RightTrack(t, pos, dr, k, opens[k], closes[k], right[k])
  }

  function Bit(b: bool): nat { if b then 1 else 0 }

  function Missing(opens: Slots): nat {
    Bit(opens[0].None?) + Bit(opens[1].None?) + Bit(opens[2].None?)
  }

  function PendingRight(opens: Slots, closes: Slots): nat {
    Bit(opens[0].Some? && closes[0].None?) + Bit(opens[1].Some? && closes[1].None?)
        + Bit(opens[2].Some? && closes[2].None?)
  }

  lemma CountOpen(opens: Slots, closes: Slots, opens': Slots, closes': Slots, k: Kind)
    requires opens[k].None? && opens'[k].Some?
    requires forall j: Kind :: j != k ==> opens'[j] == opens[j] && closes'[j] == closes[j]
    ensures Missing(opens') == Missing(opens) - 1
    ensures PendingRight(opens', closes') == PendingRight(opens, closes) + Bit(closes'[k].None?)
  {
    assert k == 0 || k == 1 || k == 2;
  }

  lemma CountClose(opens: Slots, closes: Slots, closes': Slots, k: Kind)
    requires closes[k].None? && closes'[k].Some?
    requires forall j: Kind :: j != k ==> closes'[j] == closes[j]
    ensures PendingRight(opens, closes') == PendingRight(opens, closes) - Bit(opens[k].Some?)
  {
    assert k == 0 || k == 1 || k == 2;
  }

  function Zip(opens: Slots, closes: Slots, k: Kind): Option<Pair> {
    if opens[k].Some? && closes[k].Some? then Some((opens[k].value, closes[k].value)) else None
  }

  function Resolved(opens: Slots, closes: Slots): (c: seq<Option<Pair>>)
    ensures |c| == 3 && forall k: Kind :: c[k] == Zip(opens, closes, k)
  {
    [Zip(opens, closes, 0), Zip(opens, closes, 1), Zip(opens, closes, 2)]
  }

  /** The smallest span resolved so far. */
  function BestSpan(opens: Slots, closes: Slots): Option<int> {
    var r := Tightest(Resolved(opens, closes));
    if r.Some? then Some(Span(r.value)) else None
  }

  function Shorter(best: Option<int>, span: int): Option<int> {
    if best.Some? && best.value <= span then best else Some(span)
  }

  predicate WithinBound(best: Option<int>, d: nat) {
    best.None? || d < best.value
  }

  /** Resolving one more pair lowers the best span to its own, and changes nothing else. */
  lemma ResolveOne(opens: Slots, closes: Slots, opens': Slots, closes': Slots, k: Kind)
    requires Zip(opens, closes, k).None? && Zip(opens', closes', k).Some?
    requires forall j: Kind :: j != k ==> opens'[j] == opens[j] && closes'[j] == closes[j]
    ensures BestSpan(opens', closes') == Shorter(BestSpan(opens, closes), Span(Zip(opens', closes', k).value))
  {
    assert k == 0 || k == 1 || k == 2;
  }

  lemma ResolveNone(opens: Slots, closes: Slots, opens': Slots, closes': Slots)
    requires forall j: Kind :: Zip(opens', closes', j) == Zip(opens, closes, j)
    ensures BestSpan(opens', closes') == BestSpan(opens, closes)
  {
    assert Zip(opens', closes', 0) == Zip(opens, closes, 0);
  }

  /** A type not resolved when both scans have stopped has no pair, or one longer than the best. */
  lemma CutOffCannotWin(t: string, pos: nat, dl: nat, dr: nat, k: Kind,
                        open: Option<nat>, close: Option<nat>, left: nat, right: nat, best: Option<int>)
    requires dl <= pos && pos + 1 + dr <= |t|
    requires LeftTrack(t, pos, dl, k, open, left) && RightTrack(t, pos, dr, k, open, close, right)
    requires open.None? ==> dl == pos || !WithinBound(best, dl)
    requires open.Some? && close.None? ==> pos + 1 + dr == |t| || !WithinBound(best, dr)
    ensures var c := PairAt(t, pos, k, 0, |t|);
            if open.Some? && close.Some? then c == Some((open.value, close.value))
            else c.Some? ==> best.Some? && Span(c.value) > best.value
  {
  }

  lemma UnresolvedLose(t: string, pos: nat, opens: Slots, closes: Slots)
    requires pos < |t|
    requires forall k: Kind ::
               var c := PairAt(t, pos, k, 0, |t|);
               if opens[k].Some? && closes[k].Some? then c == Zip(opens, closes, k)
               else c.Some? ==> BestSpan(opens, closes).Some? && Span(c.value) > BestSpan(opens, closes).value
    ensures Tightest(Resolved(opens, closes)) == Tightest(Candidates(t, pos))
  {
    var r, c := Resolved(opens, closes), Candidates(t, pos);
    forall k: Kind ensures c[k] == PairAt(t, pos, k, 0, |t|) {
      assert k == 0 || k == 1 || k == 2;
    }
    forall k: Kind ensures r[k] == c[k] || (r[k].None? && Tightest(r).Some?
        && Span(c[k].value) > Span(Tightest(r).value)) {
      assert c[k] == PairAt(t, pos, k, 0, |t|);
      assert r[k] == Zip(opens, closes, k);
    }
    assert r[0] == c[0] || r[0].None?;
  }

  /** The running state of one search. */
  datatype Scan = Scan(opens: Slots, closes: Slots, depthsLeft: Depths, depthsRight: Depths,
                       opensMissing: nat, rightPending: nat, best: Option<int>,
                       dl: nat, dr: nat, leftExhausted: bool, rightExhausted: bool) {
    ghost predicate Valid(t: string, pos: nat) {
      && dl <= pos && pos + 1 + dr <= |t|
      && Tracks(t, pos, dl, dr, opens, closes, depthsLeft, depthsRight)
      && opensMissing == Missing(opens) && rightPending == PendingRight(opens, closes)
      && best == BestSpan(opens, closes)
      && (leftExhausted ==> dl == pos) && (rightExhausted ==> pos + 1 + dr == |t|)
    }

    predicate LeftLive() { !leftExhausted && opensMissing > 0 && WithinBound(best, dl) }

    predicate RightLive() { !rightExhausted && rightPending > 0 && WithinBound(best, dr) }

    /** Chars and end marks still ahead of the two cursors. */
    function Ahead(t: string, pos: nat): int {
      pos - dl + |t| - dr + Bit(!leftExhausted) + Bit(!rightExhausted)
    }
  }

  lemma SteppedLeft(t: string, pos: nat, s: Scan, depths: Depths, opens: Slots)
    requires s.Valid(t, pos) && s.dl < pos
    requires Stepped(pos - s.dl - 1, t[pos - s.dl - 1], true, s.depthsLeft, s.opens, depths, opens)
    ensures forall k: Kind :: LeftTrack(t, pos, s.dl + 1, k, opens[k], depths[k])
  {
    forall k: Kind ensures LeftTrack(t, pos, s.dl + 1, k, opens[k], depths[k]) {
      LeftTrackStep(t, pos, s.dl, k, s.opens[k], s.depthsLeft[k]);
    }
  }

  lemma SteppedRight(t: string, pos: nat, s: Scan, depths: Depths, closes: Slots)
    requires s.Valid(t, pos) && pos + 1 + s.dr < |t|
    requires Stepped(pos + 1 + s.dr, t[pos + 1 + s.dr], false, s.depthsRight, s.closes, depths, closes)
    ensures forall k: Kind :: RightTrack(t, pos, s.dr + 1, k, s.opens[k], closes[k], depths[k])
  {
    forall k: Kind ensures RightTrack(t, pos, s.dr + 1, k, s.opens[k], closes[k], depths[k]) {
      RightTrackStep(t, pos, s.dr, k, s.opens[k], s.closes[k], s.depthsRight[k]);
    }
  }

  /** One char left of the cursor, or the mark that there are none left. */
  method StepLeft(t: string, pos: nat, role: Option<(Kind, bool)>, s: Scan) returns (r: Scan)
    requires s.Valid(t, pos) && s.LeftLive() && role == Role(t[pos])
    ensures r.Valid(t, pos) && r.Ahead(t, pos) < s.Ahead(t, pos)
    ensures r.dr == s.dr && r.rightExhausted == s.rightExhausted
  {
    if s.dl == pos { return s.(leftExhausted := true); }
    var i := pos - s.dl - 1;
    var depths, opens, found := StepBracket(i, t[i], true, s.depthsLeft, s.opens);
    SteppedLeft(t, pos, s, depths, opens);
    if found.Some? {
      r := ResolveOpen(t, pos, role, s, depths, found.value);
    } else {
      r := s.(dl := s.dl + 1, depthsLeft := depths);
    }
  }

  /** The leftward scan has just reached type `k`'s open. */
  method ResolveOpen(t: string, pos: nat, role: Option<(Kind, bool)>, s: Scan, depths: Depths, k: Kind)
        returns (r: Scan)
    requires s.Valid(t, pos) && !s.leftExhausted && s.dl < pos && role == Role(t[pos]) && s.opens[k].None?
    requires var opens := s.opens[k := Some(pos - s.dl - 1)];
             forall j: Kind :: LeftTrack(t, pos, s.dl + 1, j, opens[j], depths[j])
    ensures r.Valid(t, pos) && r.dl == s.dl + 1 && r.dr == s.dr
    ensures !r.leftExhausted && r.rightExhausted == s.rightExhausted
  {
    var i := pos - s.dl - 1;
    var opens := s.opens[k := Some(i)];
    // The close of this type: under the cursor, found already by the rightward scan, or still ahead.
    var closes := if role == Some((k, false)) then s.closes[k := Some(pos)] else s.closes;
    CountOpen(s.opens, s.closes, opens, closes, k);
    if closes[k].Some? {
      ResolveOne(s.opens, s.closes, opens, closes, k);
      r := s.(best := Shorter(s.best, closes[k].value - i));
    } else {
      ResolveNone(s.opens, s.closes, opens, closes);
      r := s.(rightPending := s.rightPending + 1);
    }
    r := r.(dl := s.dl + 1, depthsLeft := depths, opens := opens, closes := closes, opensMissing := s.opensMissing - 1);
  }

  /** One char right of the cursor, or the mark that there are none left. */
  method StepRight(t: string, pos: nat, s: Scan) returns (r: Scan)
    requires s.Valid(t, pos) && !s.rightExhausted
    ensures r.Valid(t, pos) && r.Ahead(t, pos) < s.Ahead(t, pos)
  {
    if pos + 1 + s.dr == |t| { return s.(rightExhausted := true); }
    var i := pos + 1 + s.dr;
    var depths, closes, found := StepBracket(i, t[i], false, s.depthsRight, s.closes);
    SteppedRight(t, pos, s, depths, closes);
    r := s.(dr := s.dr + 1, depthsRight := depths, closes := closes);
    if found.None? { return; }
    var k := found.value;
    CountClose(s.opens, s.closes, closes, k);
    if s.opens[k].Some? {
      ResolveOne(s.opens, s.closes, s.opens, closes, k);
      r := r.(rightPending := s.rightPending - 1, best := Shorter(s.best, i - s.opens[k].value));
    } else {
      ResolveNone(s.opens, s.closes, s.opens, closes);
    }
  }

  /** Both scans advance in turn, one char at a time, each only while it could still matter. */
  method FindTightestBracketPair(t: string, pos: nat) returns (r: Option<Pair>)
    ensures r == if pos < |t| then Tightest(Candidates(t, pos)) else None
  {
    if pos >= |t| { return None; }
    var role := Role(t[pos]);
    var s := Scan([None, None, None], [None, None, None], [0, 0, 0], [0, 0, 0], 3, 0, None, 0, 0, false, false);
    if role.Some? && role.value.1 {
      var k := role.value.0;
      s := s.(opens := s.opens[k := Some(pos)], opensMissing := 2, rightPending := 1);
    }
    while true
      invariant s.Valid(t, pos)
      decreases s.Ahead(t, pos)
    {
      var leftLive, rightLive := s.LeftLive(), s.RightLive();
      if !leftLive && !rightLive { break; }
      if leftLive { s := StepLeft(t, pos, role, s); }
      if rightLive { s := StepRight(t, pos, s); }
    }
    StoppedIsEnough(t, pos, s);
    return Tightest(Resolved(s.opens, s.closes));
  }

  lemma StoppedIsEnough(t: string, pos: nat, s: Scan)
    requires s.Valid(t, pos) && !s.LeftLive() && !s.RightLive()
    ensures Tightest(Resolved(s.opens, s.closes)) == Tightest(Candidates(t, pos))
  {
    forall k: Kind
      ensures var c := PairAt(t, pos, k, 0, |t|);
              if s.opens[k].Some? && s.closes[k].Some? then c == Zip(s.opens, s.closes, k)
              else c.Some? ==> s.best.Some? && Span(c.value) > s.best.value
    {
      assert k == 0 || k == 1 || k == 2;
      CutOffCannotWin(t, pos, s.dl, s.dr, k, s.opens[k], s.closes[k], s.depthsLeft[k], s.depthsRight[k], s.best);
    }
    UnresolvedLose(t, pos, s.opens, s.closes);
  }
}
