/** Flattening of overlapping ranked spans into one layer of segments, by an event sweep over a sorted
    stack of the active spans. */
module IntervalSweep {
  import opened Wrappers
  import opened Integers

  /** Who wins between two spans of equal rank: the one pushed first, or the one pushed last. */
  datatype TieBreak = FirstPushed | LastPushed

  datatype Span<S> = Span(start: int, end: int, rank: int, scope: S)

  datatype Event<S> = Event(pos: int, isEnd: bool, seqNo: nat, rank: int, scope: S)

  datatype Entry<S> = Entry(rank: int, seqNo: nat, scope: S)

  datatype Segment<S> = Segment(lo: int, hi: int, scope: S)

  // ---- The pointwise answer ----

  predicate Covers<S>(s: Span<S>, x: int) {
    s.start <= x < s.end
  }

  /** `a` loses to `b` wherever both cover. */
  predicate Loses<S>(raw: seq<Span<S>>, tie: TieBreak, a: nat, b: nat)
    requires a < |raw| && b < |raw|
  {
    || raw[a].rank < raw[b].rank
    || (raw[a].rank == raw[b].rank && if tie.LastPushed? then a < b else b < a)
  }

  /** Span `w` covers `x` and every other span covering `x` loses to it. */
  ghost predicate Wins<S>(raw: seq<Span<S>>, tie: TieBreak, x: int, w: nat) {
    && w < |raw| && Covers(raw[w], x)
    && forall i :: 0 <= i < |raw| && i != w && Covers(raw[i], x) ==> Loses(raw, tie, i, w)
  }

  ghost predicate Shows<S>(out: seq<Segment<S>>, x: int, scope: S) {
    exists i :: 0 <= i < |out| && out[i].lo <= x < out[i].hi && out[i].scope == scope
  }

  ghost predicate Wanted<S>(raw: seq<Span<S>>, tie: TieBreak, x: int, scope: S) {
    exists w: nat :: Wins(raw, tie, x, w) && raw[w].scope == scope
  }

  /** Sorted, not overlapping, none empty. */
  ghost predicate Layered<S>(out: seq<Segment<S>>) {
    && (forall i :: 0 <= i < |out| ==> out[i].lo < out[i].hi)
    && (forall i, j :: 0 <= i < j < |out| ==> out[i].hi <= out[j].lo)
  }

  predicate Mergeable<S(==)>(a: Segment<S>, b: Segment<S>) {
    a.scope == b.scope && a.hi == b.lo
  }

  /** No two touching segments share a scope. */
  ghost predicate Merged<S>(out: seq<Segment<S>>) {
    forall i :: 0 <= i < |out| - 1 ==> !Mergeable(out[i], out[i + 1])
  }

  // ---- Events ----

  function SeqNo(tie: TieBreak, i: nat): nat
    requires i <= U32_MAX
  {
    if tie.LastPushed? then i else U32_MAX - i
  }

  function StartEvent<S>(raw: seq<Span<S>>, tie: TieBreak, i: nat): Event<S>
    requires i < |raw| <= U32_MAX + 1
  {
    Event(raw[i].start, false, SeqNo(tie, i), raw[i].rank, raw[i].scope)
  }

  function EndEvent<S>(raw: seq<Span<S>>, tie: TieBreak, i: nat): Event<S>
    requires i < |raw| <= U32_MAX + 1
  {
    Event(raw[i].end, true, SeqNo(tie, i), raw[i].rank, raw[i].scope)
  }

  function EntryOf<S>(raw: seq<Span<S>>, tie: TieBreak, i: nat): Entry<S>
    requires i < |raw| <= U32_MAX + 1
  {
    Entry(raw[i].rank, SeqNo(tie, i), raw[i].scope)
  }

  /** By position, ends before starts; the order of two events alike in both is left open. */
  predicate Before<S>(a: Event<S>, b: Event<S>) {
    a.pos < b.pos || (a.pos == b.pos && (a.isEnd || !b.isEnd))
  }

  ghost predicate Sorted<S>(events: seq<Event<S>>) {
    forall i, j :: 0 <= i < j < |events| ==> Before(events[i], events[j])
  }

  ghost predicate Distinct<T>(s: seq<T>) {
    forall i, j :: 0 <= i < j < |s| ==> s[i] != s[j]
  }

  lemma AppendTwo<T>(s: seq<T>, a: T, b: T)
    requires Distinct(s) && a !in s && b !in s && a != b
    ensures Distinct(s + [a, b])
    ensures forall e :: e in s + [a, b] <==> e in s || e == a || e == b
  {
  }

  /** `events` holds the start and end of each of the first `n` spans once and nothing else. */
  ghost predicate Holds<S>(raw: seq<Span<S>>, tie: TieBreak, n: nat, events: seq<Event<S>>)
    requires n <= |raw| <= U32_MAX + 1
  {
    && (forall i :: 0 <= i < n ==> StartEvent(raw, tie, i) in events && EndEvent(raw, tie, i) in events)
    && (forall e :: e in events ==> exists i ::
                                     0 <= i < n
                                     && (e == StartEvent(raw, tie, i) || e == EndEvent(raw, tie, i)))
    && Distinct(events)
  }

  lemma HoldsNext<S>(raw: seq<Span<S>>, tie: TieBreak, n: nat, events: seq<Event<S>>)
    requires n < |raw| <= U32_MAX + 1 && Holds(raw, tie, n, events)
    ensures Holds(raw, tie, n + 1, events + [StartEvent(raw, tie, n), EndEvent(raw, tie, n)])
  {
    var a, b := StartEvent(raw, tie, n), EndEvent(raw, tie, n);
    forall e | e in events ensures e != a && e != b {
      var i :| 0 <= i < n && (e == StartEvent(raw, tie, i) || e == EndEvent(raw, tie, i));
      assert SeqNo(tie, i) != SeqNo(tie, n);
    }
    AppendTwo(events, a, b);
    forall e | e in events + [a, b]
      ensures exists i :: 0 <= i < n + 1 && (e == StartEvent(raw, tie, i) || e == EndEvent(raw, tie, i))
    {
      if e == a || e == b { assert 0 <= n < n + 1; }
    }
  }

  ghost predicate Complete<S>(raw: seq<Span<S>>, tie: TieBreak, events: seq<Event<S>>)
    requires |raw| <= U32_MAX + 1
  {
    Holds(raw, tie, |raw|, events)
  }

  method CollectEvents<S>(raw: seq<Span<S>>, tie: TieBreak) returns (events: seq<Event<S>>)
    requires |raw| <= U32_MAX + 1
    ensures Complete(raw, tie, events)
  {
    events := [];
    for i := 0 to |raw|
      invariant Holds(raw, tie, i, events)
    {
      HoldsNext(raw, tie, i, events);
      events := events + [StartEvent(raw, tie, i), EndEvent(raw, tie, i)];
    }
  }

  /** Any order the keys allow: the caller may use nothing but sortedness and the same events. */
  method SortEvents<S>(events: seq<Event<S>>) returns (sorted: seq<Event<S>>)
    ensures Sorted(sorted) && multiset(sorted) == multiset(events)
  {
    sorted := [];
    for i := 0 to |events|
      invariant Sorted(sorted) && multiset(sorted) == multiset(events[..i])
    {
      assert events[..i + 1] == events[..i] + [events[i]];
      sorted := Inserted(sorted, events[i]);
    }
    assert events[..|events|] == events;
  }

  method Inserted<S>(sorted: seq<Event<S>>, e: Event<S>) returns (r: seq<Event<S>>)
    requires Sorted(sorted)
    ensures Sorted(r) && multiset(r) == multiset(sorted) + multiset{e}
  {
    var k := 0;
    while k < |sorted| && Before(sorted[k], e)
      invariant k <= |sorted| && forall j :: 0 <= j < k ==> Before(sorted[j], e)
    {
      k := k + 1;
    }
    r := sorted[..k] + [e] + sorted[k..];
    assert sorted == sorted[..k] + sorted[k..];
    InsertedSorted(sorted, sorted[..k], sorted[k..], e, r);
  }

  lemma InsertedSorted<S>(sorted: seq<Event<S>>, a: seq<Event<S>>, b: seq<Event<S>>, e: Event<S>, r: seq<Event<S>>)
    requires Sorted(sorted) && sorted == a + b && r == a + [e] + b
    requires (forall j :: 0 <= j < |a| ==> Before(a[j], e)) && (b != [] ==> !Before(b[0], e))
    ensures Sorted(r) && multiset(r) == multiset(sorted) + multiset{e}
  {
    forall j | 0 <= j < |b| ensures Before(e, b[j]) {
      assert sorted[|a|] == b[0] && sorted[|a| + j] == b[j];
    }
    forall i, j | 0 <= i < j < |r| ensures Before(r[i], r[j]) {
      if i < |a| { assert r[i] == sorted[i]; } else if i > |a| { assert r[i] == sorted[i - 1]; }
      if j < |a| { assert r[j] == sorted[j]; } else if j > |a| { assert r[j] == sorted[j - 1] == b[j - |a| - 1]; }
    }
  }

  lemma CompleteSorted<S>(raw: seq<Span<S>>, tie: TieBreak, events: seq<Event<S>>, sorted: seq<Event<S>>)
    requires |raw| <= U32_MAX + 1 && Complete(raw, tie, events) && multiset(sorted) == multiset(events)
    ensures Complete(raw, tie, sorted)
  {
    forall e ensures e in sorted <==> e in events {
      assert e in sorted <==> e in multiset(sorted);
      assert e in events <==> e in multiset(events);
    }
    forall i, j | 0 <= i < j < |sorted| ensures sorted[i] != sorted[j] {
      if sorted[i] == sorted[j] {
        CountTwice(sorted, i, j);
        CountOnce(events, sorted[i]);
      }
    }
  }

  lemma CountTwice<T>(s: seq<T>, i: nat, j: nat)
    requires i < j < |s| && s[i] == s[j]
    ensures multiset(s)[s[i]] >= 2
  {
    assert s == s[..j] + s[j..];
    assert s[i] in multiset(s[..j]) by { assert s[..j][i] == s[i]; }
    assert s[j] in multiset(s[j..]) by { assert s[j..][0] == s[j]; }
  }

  lemma {:induction false} CountOnce<T>(s: seq<T>, e: T)
    requires Distinct(s)
    ensures multiset(s)[e] <= 1
  {
    if s != [] {
      CountOnce(s[1..], e);
      assert s == [s[0]] + s[1..];
      if e == s[0] { assert e !in s[1..]; }
    }
  }

  // ---- The active stack ----

  predicate Below<S>(a: Entry<S>, b: Entry<S>) {
    a.rank < b.rank || (a.rank == b.rank && a.seqNo < b.seqNo)
  }

  ghost predicate Ascending<S>(stack: seq<Entry<S>>) {
    forall i, j :: 0 <= i < j < |stack| ==> Below(stack[i], stack[j])
  }

  /** Started but not ended within the first `n` events. */
  ghost predicate Active<S>(raw: seq<Span<S>>, tie: TieBreak, events: seq<Event<S>>, n: nat, i: nat)
    requires |raw| <= U32_MAX + 1 && n <= |events| && i < |raw|
  {
    StartEvent(raw, tie, i) in events[..n] && EndEvent(raw, tie, i) !in events[..n]
  }

  ghost function ActiveSet<S>(raw: seq<Span<S>>, tie: TieBreak, events: seq<Event<S>>, n: nat): set<nat>
    requires |raw| <= U32_MAX + 1 && n <= |events|
  {
    set i: nat | i < |raw| && Active(raw, tie, events, n, i)
  }

  /** The stack is the spans `act`, lowest first. */
  ghost predicate Stacked<S>(raw: seq<Span<S>>, tie: TieBreak, act: set<nat>, stack: seq<Entry<S>>)
    requires |raw| <= U32_MAX + 1 && forall i :: i in act ==> i < |raw|
  {
    && Ascending(stack)
    && (forall i :: i in act ==> EntryOf(raw, tie, i) in stack)
    && (forall e :: e in stack ==> exists i :: i in act && e == EntryOf(raw, tie, i))
  }

  /** The first index whose entry does not lie below `key`, by binary search. */
  method PartitionPoint<S>(stack: seq<Entry<S>>, key: Entry<S>) returns (k: nat)
    requires Ascending(stack)
    ensures k <= |stack|
    ensures (forall j :: 0 <= j < k ==> Below(stack[j], key))
            && (forall j :: k <= j < |stack| ==> !Below(stack[j], key))
  {
    var hi := |stack|;
    k := 0;
    while k < hi
      invariant k <= hi <= |stack|
      invariant (forall j :: 0 <= j < k ==> Below(stack[j], key))
                && (forall j :: hi <= j < |stack| ==> !Below(stack[j], key))
    {
      var mid := k + (hi - k) / 2;
      if Below(stack[mid], key) { k := mid + 1; } else { hi := mid; }
    }
  }

  method Position<S>(stack: seq<Entry<S>>, rank: int, seqNo: nat) returns (r: Option<nat>)
    ensures r.None? ==> forall j :: 0 <= j < |stack| ==> stack[j].rank != rank || stack[j].seqNo != seqNo
    ensures r.Some? ==> r.value < |stack| && stack[r.value].rank == rank && stack[r.value].seqNo == seqNo
  {
    for j := 0 to |stack|
      invariant forall k :: 0 <= k < j ==> stack[k].rank != rank || stack[k].seqNo != seqNo
    {
      if stack[j].rank == rank && stack[j].seqNo == seqNo { return Some(j); }
    }
    return None;
  }

  /** A started span's start comes before its end, and an event names its span. */
  lemma EventNames<S>(raw: seq<Span<S>>, tie: TieBreak, i: nat, j: nat)
    requires i < |raw| <= U32_MAX + 1 && j < |raw|
    ensures SeqNo(tie, i) == SeqNo(tie, j) <==> i == j
    ensures EntryOf(raw, tie, i) == EntryOf(raw, tie, j) <==> i == j
    ensures Loses(raw, tie, i, j) <==> Below(EntryOf(raw, tie, i), EntryOf(raw, tie, j))
  {
  }

  /** Processing one more event adds exactly that event. */
  lemma OneMore<S>(events: seq<Event<S>>, n: nat, e: Event<S>)
    requires n < |events|
    ensures e in events[..n + 1] <==> e in events[..n] || e == events[n]
  {
    assert events[..n + 1] == events[..n] + [events[n]];
  }

  lemma StartsFirst<S>(raw: seq<Span<S>>, tie: TieBreak, events: seq<Event<S>>, n: nat, i: nat)
    requires |raw| <= U32_MAX + 1 && Complete(raw, tie, events) && Sorted(events) && n < |events| && i < |raw|
    requires raw[i].start < raw[i].end && events[n] == EndEvent(raw, tie, i)
    ensures StartEvent(raw, tie, i) in events[..n]
    ensures EndEvent(raw, tie, i) !in events[..n]
  {
    var m :| 0 <= m < |events| && events[m] == StartEvent(raw, tie, i);
    assert events[..n][m] == StartEvent(raw, tie, i);
  }

  lemma NotYetStarted<S>(raw: seq<Span<S>>, tie: TieBreak, events: seq<Event<S>>, n: nat, i: nat)
    requires |raw| <= U32_MAX + 1 && Complete(raw, tie, events) && Sorted(events) && n < |events| && i < |raw|
    requires raw[i].start < raw[i].end && events[n] == StartEvent(raw, tie, i)
    ensures StartEvent(raw, tie, i) !in events[..n] && EndEvent(raw, tie, i) !in events[..n]
  {
    forall m | 0 <= m < n ensures events[m] != EndEvent(raw, tie, i) {
      assert Before(events[m], events[n]);
    }
  }

  lemma ActiveStart<S>(raw: seq<Span<S>>, tie: TieBreak, events: seq<Event<S>>, n: nat, i: nat)
    requires |raw| <= U32_MAX + 1 && Complete(raw, tie, events) && Sorted(events) && n < |events| && i < |raw|
    requires raw[i].start < raw[i].end && events[n] == StartEvent(raw, tie, i)
    ensures i !in ActiveSet(raw, tie, events, n)
    ensures ActiveSet(raw, tie, events, n + 1) == ActiveSet(raw, tie, events, n) + {i}
  {
    NotYetStarted(raw, tie, events, n, i);
    forall j: nat | j < |raw| ensures Active(raw, tie, events, n + 1, j) <==> Active(raw, tie, events, n, j) || j == i {
      EventNames(raw, tie, i, j);
      OneMore(events, n, StartEvent(raw, tie, j));
      OneMore(events, n, EndEvent(raw, tie, j));
    }
  }

  lemma ActiveEnd<S>(raw: seq<Span<S>>, tie: TieBreak, events: seq<Event<S>>, n: nat, i: nat)
    requires |raw| <= U32_MAX + 1 && Complete(raw, tie, events) && Sorted(events) && n < |events| && i < |raw|
    requires raw[i].start < raw[i].end && events[n] == EndEvent(raw, tie, i)
    ensures i in ActiveSet(raw, tie, events, n)
    ensures ActiveSet(raw, tie, events, n + 1) == ActiveSet(raw, tie, events, n) - {i}
  {
    StartsFirst(raw, tie, events, n, i);
    forall j: nat | j < |raw| ensures Active(raw, tie, events, n + 1, j) <==> Active(raw, tie, events, n, j) && j != i {
      EventNames(raw, tie, i, j);
      OneMore(events, n, StartEvent(raw, tie, j));
      OneMore(events, n, EndEvent(raw, tie, j));
    }
  }

  /** Between two events the active spans are exactly the covering ones. */
  lemma ActiveCovers<S>(raw: seq<Span<S>>, tie: TieBreak, events: seq<Event<S>>, n: nat, pos: int, x: int, i: nat)
    requires |raw| <= U32_MAX + 1 && Complete(raw, tie, events) && Sorted(events) && n < |events| && i < |raw|
    requires raw[i].start < raw[i].end
    requires (forall m :: 0 <= m < n ==> events[m].pos <= pos) && pos <= x < events[n].pos
    ensures Active(raw, tie, events, n, i) <==> Covers(raw[i], x)
  {
    var a :| 0 <= a < |events| && events[a] == StartEvent(raw, tie, i);
    var b :| 0 <= b < |events| && events[b] == EndEvent(raw, tie, i);
    if a < n { assert events[..n][a] == events[a]; }
    if b < n { assert events[..n][b] == events[b]; }
  }

  ghost predicate AllWide<S>(raw: seq<Span<S>>) {
    forall i :: 0 <= i < |raw| ==> raw[i].start < raw[i].end
  }

  /** The top of the stack wins wherever the stacked spans are the covering ones. */
  lemma TopWins<S>(raw: seq<Span<S>>, tie: TieBreak, act: set<nat>, stack: seq<Entry<S>>, x: int, scope: S)
    requires |raw| <= U32_MAX + 1
    requires forall i: nat :: i in act <==> i < |raw| && Covers(raw[i], x)
    requires Stacked(raw, tie, act, stack)
    ensures Wanted(raw, tie, x, scope) <==> stack != [] && stack[|stack| - 1].scope == scope
  {
    if stack != [] {
      var top := stack[|stack| - 1];
      assert top in stack;
      var w :| w in act && top == EntryOf(raw, tie, w);
      forall i | 0 <= i < |raw| && i != w && Covers(raw[i], x) ensures Loses(raw, tie, i, w) {
        EventNames(raw, tie, i, w);
        assert i in act;
        var m :| 0 <= m < |stack| && stack[m] == EntryOf(raw, tie, i);
      }
      assert Wins(raw, tie, x, w);
      WinnerIsUnique(raw, tie, x, w);
    }
  }

  lemma WinnerIsUnique<S>(raw: seq<Span<S>>, tie: TieBreak, x: int, w: nat)
    requires Wins(raw, tie, x, w)
    ensures forall v: nat :: Wins(raw, tie, x, v) ==> v == w
  {
  }

  lemma StackedPush<S>(raw: seq<Span<S>>, tie: TieBreak, act: set<nat>, stack: seq<Entry<S>>, i: nat, k: nat)
    requires |raw| <= U32_MAX + 1 && forall j :: j in act ==> j < |raw|
    requires Stacked(raw, tie, act, stack) && i < |raw| && i !in act && k <= |stack|
    requires forall j :: 0 <= j < k ==> Below(stack[j], EntryOf(raw, tie, i))
    requires forall j :: k <= j < |stack| ==> !Below(stack[j], EntryOf(raw, tie, i))
    ensures Stacked(raw, tie, act + {i}, stack[..k] + [EntryOf(raw, tie, i)] + stack[k..])
  {
    var e := EntryOf(raw, tie, i);
    forall m | 0 <= m < |stack| ensures stack[m].seqNo != e.seqNo {
      assert stack[m] in stack;
      var j :| j in act && stack[m] == EntryOf(raw, tie, j);
      EventNames(raw, tie, i, j);
    }
    InsertKeeps(stack, k, e);
    var stack' := stack[..k] + [e] + stack[k..];
    forall f | f in stack' ensures exists j :: j in act + {i} && f == EntryOf(raw, tie, j) {
      if f == e { assert i in act + {i}; }
    }
  }

  lemma InsertKeeps<S>(stack: seq<Entry<S>>, k: nat, e: Entry<S>)
    requires Ascending(stack) && k <= |stack|
    requires forall m :: 0 <= m < |stack| ==> stack[m].seqNo != e.seqNo
    requires (forall j :: 0 <= j < k ==> Below(stack[j], e)) && (forall j :: k <= j < |stack| ==> !Below(stack[j], e))
    ensures var s := stack[..k] + [e] + stack[k..]; Ascending(s) && forall f :: f in s <==> f in stack || f == e
  {
    var s := stack[..k] + [e] + stack[k..];
    assert s[k] == e;
    assert stack == stack[..k] + stack[k..];
    forall i, j | 0 <= i < j < |s| ensures Below(s[i], s[j]) {
      if j > k { assert s[j] == stack[j - 1]; }
      if i > k { assert s[i] == stack[i - 1]; }
    }
    forall f ensures f in s <==> f in stack || f == e {
      assert f in s <==> f in stack[..k] || f == e || f in stack[k..];
      assert f in stack <==> f in stack[..k] || f in stack[k..];
    }
  }

  lemma StackedPop<S>(raw: seq<Span<S>>, tie: TieBreak, act: set<nat>, stack: seq<Entry<S>>, i: nat, k: nat)
    requires |raw| <= U32_MAX + 1 && forall j :: j in act ==> j < |raw|
    requires Stacked(raw, tie, act, stack) && i in act
    requires k < |stack| && stack[k].rank == raw[i].rank && stack[k].seqNo == SeqNo(tie, i)
    ensures Stacked(raw, tie, act - {i}, stack[..k] + stack[k + 1..])
  {
    assert stack[k] in stack;
    var i' :| i' in act && stack[k] == EntryOf(raw, tie, i');
    EventNames(raw, tie, i, i');
    RemoveKeeps(stack, k);
    forall j | j in act - {i} ensures EntryOf(raw, tie, j) in stack[..k] + stack[k + 1..] {
      EventNames(raw, tie, i, j);
    }
    var rest := stack[..k] + stack[k + 1..];
    forall f | f in rest ensures exists j :: j in act - {i} && f == EntryOf(raw, tie, j) {
      var j :| j in act && f == EntryOf(raw, tie, j);
    }
  }

  lemma RemoveKeeps<S>(stack: seq<Entry<S>>, k: nat)
    requires Ascending(stack) && k < |stack|
    ensures var s := stack[..k] + stack[k + 1..]; Ascending(s) && forall f :: f in s <==> f in stack && f != stack[k]
  {
    var s := stack[..k] + stack[k + 1..];
    assert stack == stack[..k] + [stack[k]] + stack[k + 1..];
    forall f ensures f in s <==> f in stack && f != stack[k] {
      assert f in stack <==> f in stack[..k] || f == stack[k] || f in stack[k + 1..];
      if f in s {
        var m :| 0 <= m < |s| && s[m] == f;
        assert s[m] == stack[if m < k then m else m + 1];
      }
    }
  }

  // ---- The sweep ----

  /** Between the last processed event and the next, the stack's top is the answer. */
  lemma GapShowsTop<S>(raw: seq<Span<S>>, tie: TieBreak, events: seq<Event<S>>, n: nat, stack: seq<Entry<S>>, x: int,
                       scope: S)
    requires |raw| <= U32_MAX + 1 && Complete(raw, tie, events) && Sorted(events) && AllWide(raw) && n < |events|
    requires (n > 0 ==> events[n - 1].pos <= x) && x < events[n].pos
    requires Stacked(raw, tie, ActiveSet(raw, tie, events, n), stack)
    ensures Wanted(raw, tie, x, scope) <==> stack != [] && stack[|stack| - 1].scope == scope
  {
    forall m | 0 <= m < n ensures events[m].pos <= x {
      if m < n - 1 { assert Before(events[m], events[n - 1]); }
    }
    forall i: nat | i < |raw| ensures Active(raw, tie, events, n, i) <==> Covers(raw[i], x) {
      ActiveCovers(raw, tie, events, n, x, x, i);
    }
    TopWins(raw, tie, ActiveSet(raw, tie, events, n), stack, x, scope);
  }

  lemma NothingAfterTheLastEvent<S>(raw: seq<Span<S>>, tie: TieBreak, events: seq<Event<S>>, x: int, scope: S)
    requires |raw| <= U32_MAX + 1 && Complete(raw, tie, events) && Sorted(events)
    requires events != [] && events[|events| - 1].pos <= x
    ensures !Wanted(raw, tie, x, scope)
  {
    forall i | 0 <= i < |raw| ensures !Covers(raw[i], x) {
      var m :| 0 <= m < |events| && events[m] == EndEvent(raw, tie, i);
      if m < |events| - 1 { assert Before(events[m], events[|events| - 1]); }
    }
  }

  ghost predicate Forward<S>(out: seq<Segment<S>>) {
    forall i :: 0 <= i < |out| ==> out[i].lo <= out[i].hi
  }

  lemma ShowsAppend<S>(out: seq<Segment<S>>, s: Segment<S>, x: int, scope: S)
    ensures Shows(out + [s], x, scope) <==> Shows(out, x, scope) || (s.lo <= x < s.hi && s.scope == scope)
  {
    var next := out + [s];
    assert next[|out|] == s;
    if Shows(out, x, scope) {
      var i :| 0 <= i < |out| && out[i].lo <= x < out[i].hi && out[i].scope == scope;
      assert next[i] == out[i];
    }
    if Shows(next, x, scope) {
      var i :| 0 <= i < |next| && next[i].lo <= x < next[i].hi && next[i].scope == scope;
      if i < |out| { assert out[i] == next[i]; }
    }
  }

  /** Growing the last segment over the one it touches shows what both showed. */
  lemma GrowLast<S>(out: seq<Segment<S>>, next: Segment<S>)
    requires Forward(out) && out != [] && next.lo <= next.hi && Merged(out)
    requires out[|out| - 1].scope == next.scope && out[|out| - 1].hi == next.lo
    ensures var last := out[|out| - 1];
            var grown := out[..|out| - 1] + [Segment(last.lo, next.hi, last.scope)];
            && Forward(grown) && Merged(grown)
            && (Layered(out) ==> Layered(grown))
            && forall x, scope :: Shows(grown, x, scope) <==> Shows(out + [next], x, scope)
  {
    var init, last := out[..|out| - 1], out[|out| - 1];
    var grown := init + [Segment(last.lo, next.hi, last.scope)];
    assert out == init + [last];
    forall i | 0 <= i < |grown| - 1 ensures !Mergeable(grown[i], grown[i + 1]) {
      assert !Mergeable(out[i], out[i + 1]);
    }
    forall x, scope ensures Shows(grown, x, scope) <==> Shows(out + [next], x, scope) {
      ShowsAppend(init, last, x, scope);
      ShowsAppend(init, grown[|init|], x, scope);
      ShowsAppend(out, next, x, scope);
    }
  }

  lemma KeepNext<S>(r: seq<Segment<S>>, out: seq<Segment<S>>, i: nat)
    requires i < |out|
    requires forall x, scope :: Shows(r, x, scope) <==> Shows(out[..i], x, scope)
    ensures forall x, scope :: Shows(r + [out[i]], x, scope) <==> Shows(out[..i + 1], x, scope)
  {
    assert out[..i + 1] == out[..i] + [out[i]];
    var next := r + [out[i]];
    forall x, scope ensures Shows(next, x, scope) <==> Shows(out[..i + 1], x, scope) {
      ShowsAppend(r, out[i], x, scope);
      ShowsAppend(out[..i], out[i], x, scope);
    }
  }

  /** Merges each segment into the one before it where they touch with one scope. */
  method DedupSegments<S(==)>(out: seq<Segment<S>>) returns (r: seq<Segment<S>>)
    requires Forward(out)
    ensures forall x, scope :: Shows(r, x, scope) <==> Shows(out, x, scope)
    ensures Merged(r)
    ensures Layered(out) ==> Layered(r)
  {
    r := [];
    for i := 0 to |out|
      invariant Forward(r) && Merged(r) && (i > 0 ==> r != [] && r[|r| - 1].hi == out[i - 1].hi) && (i == 0 ==> r == [])
      invariant forall x, scope :: Shows(r, x, scope) <==> Shows(out[..i], x, scope)
      invariant Layered(out) ==> Layered(r) && forall k :: 0 <= k < |r| ==> i > 0 && r[k].hi <= out[i - 1].hi
    {
      KeepNext(r, out, i);
      if r != [] && Mergeable(r[|r| - 1], out[i]) {
        GrowLast(r, out[i]);
        r := r[..|r| - 1] + [r[|r| - 1].(hi := out[i].hi)];
      } else {
        r := r + [out[i]];
      }
    }
    assert out[..|out|] == out;
  }

  /** What one event does to the stack. */
  method Process<S(==)>(raw: seq<Span<S>>, tie: TieBreak, events: seq<Event<S>>, n: nat, stack: seq<Entry<S>>)
        returns (r: seq<Entry<S>>)
    requires |raw| <= U32_MAX + 1 && Complete(raw, tie, events) && Sorted(events) && AllWide(raw) && n < |events|
    requires Stacked(raw, tie, ActiveSet(raw, tie, events, n), stack)
    ensures Stacked(raw, tie, ActiveSet(raw, tie, events, n + 1), r)
  {
    var e := events[n];
    assert e in events;
    ghost var i :| 0 <= i < |raw| && (e == StartEvent(raw, tie, i) || e == EndEvent(raw, tie, i));
    ghost var act := ActiveSet(raw, tie, events, n);
    if e.isEnd {
      ActiveEnd(raw, tie, events, n, i);
      assert EntryOf(raw, tie, i) in stack;
      var k := Position(stack, e.rank, e.seqNo);
      StackedPop(raw, tie, act, stack, i, k.value);
      r := stack[..k.value] + stack[k.value + 1..];
    } else {
      ActiveStart(raw, tie, events, n, i);
      var k := PartitionPoint(stack, Entry(e.rank, e.seqNo, e.scope));
      StackedPush(raw, tie, act, stack, i, k);
      r := stack[..k] + [Entry(e.rank, e.seqNo, e.scope)] + stack[k..];
    }
  }

  ghost predicate Emitted<S(!new)>(raw: seq<Span<S>>, tie: TieBreak, events: seq<Event<S>>, n: nat,
                            before: seq<Segment<S>>, out: seq<Segment<S>>)
    requires n <= |events|
  {
    && Forward(out)
    && (forall x, scope :: Shows(out, x, scope) <==>
          Shows(before, x, scope) || (n > 0 && x < events[n - 1].pos && Wanted(raw, tie, x, scope)))
    && (before == [] ==> Layered(out) && forall i :: 0 <= i < |out| ==> n > 0 && out[i].hi <= events[n - 1].pos)
  }

  lemma GapIsTop<S(!new)>(raw: seq<Span<S>>, tie: TieBreak, events: seq<Event<S>>, n: nat, stack: seq<Entry<S>>,
                   pos: int)
    requires |raw| <= U32_MAX + 1 && Complete(raw, tie, events) && Sorted(events) && AllWide(raw) && n < |events|
    requires Stacked(raw, tie, ActiveSet(raw, tie, events, n), stack) && (n > 0 ==> pos == events[n - 1].pos)
    ensures n > 0 ==> pos <= events[n].pos
    ensures n == 0 ==> stack == []
    ensures forall x, scope :: x < events[n].pos && (n > 0 ==> pos <= x) ==>
              (Wanted(raw, tie, x, scope) <==> stack != [] && stack[|stack| - 1].scope == scope)
  {
    assert stack == [] || stack[0] in stack;
    if n > 0 { assert Before(events[n - 1], events[n]); }
    forall x, scope | x < events[n].pos && (n > 0 ==> pos <= x)
      ensures Wanted(raw, tie, x, scope) <==> stack != [] && stack[|stack| - 1].scope == scope
    {
      GapShowsTop(raw, tie, events, n, stack, x, scope);
    }
  }

  /** The gap before event `n`, emitted with the top of the stack or left out. */
  lemma EmittedNext<S(!new)>(raw: seq<Span<S>>, tie: TieBreak, events: seq<Event<S>>, n: nat, stack: seq<Entry<S>>,
                             before: seq<Segment<S>>, out: seq<Segment<S>>, pos: int)
    requires |raw| <= U32_MAX + 1 && Complete(raw, tie, events) && Sorted(events) && AllWide(raw) && n < |events|
    requires Stacked(raw, tie, ActiveSet(raw, tie, events, n), stack) && Emitted(raw, tie, events, n, before, out)
    requires n > 0 ==> pos == events[n - 1].pos
    ensures stack != [] && pos < events[n].pos ==>
              Emitted(raw, tie, events, n + 1, before, out + [Segment(pos, events[n].pos, stack[|stack| - 1].scope)])
    ensures stack == [] || pos >= events[n].pos ==> Emitted(raw, tie, events, n + 1, before, out)
  {
    GapIsTop(raw, tie, events, n, stack, pos);
    if stack != [] {
      var s := Segment(pos, events[n].pos, stack[|stack| - 1].scope);
      var next := out + [s];
      forall x, scope ensures Shows(next, x, scope) <==>
        Shows(out, x, scope)
        || (s.lo <= x < s.hi && s.scope == scope) {
        ShowsAppend(out, s, x, scope);
      }
    }
  }

  /** Sorted, non-overlapping segments showing at every position the winning span's scope and nothing
      elsewhere. `out` keeps what it held. */
  method FlattenOverlappingSpans<S(==, !new)>(raw: seq<Span<S>>, before: seq<Segment<S>>, tie: TieBreak)
        returns (out: seq<Segment<S>>)
    requires |raw| <= U32_MAX + 1 && AllWide(raw) && Forward(before)
    ensures raw == [] ==> out == before
    ensures forall x, scope :: Shows(out, x, scope) <==> Shows(before, x, scope) || Wanted(raw, tie, x, scope)
    ensures raw != [] ==> Merged(out)
    ensures before == [] ==> Layered(out)
  {
    if raw == [] { return before; }
    var collected := CollectEvents(raw, tie);
    var events := SortEvents(collected);
    CompleteSorted(raw, tie, collected, events);
    assert StartEvent(raw, tie, 0) in events;
    var pos, stack := 0, [];
    out := before;
    for n := 0 to |events|
      invariant n > 0 ==> pos == events[n - 1].pos
      invariant Stacked(raw, tie, ActiveSet(raw, tie, events, n), stack)
      invariant Emitted(raw, tie, events, n, before, out)
    {
      EmittedNext(raw, tie, events, n, stack, before, out, pos);
      if stack != [] && pos < events[n].pos {
        out := out + [Segment(pos, events[n].pos, stack[|stack| - 1].scope)];
      }
      pos := events[n].pos;
      stack := Process(raw, tie, events, n, stack);
    }
    forall x, scope ensures Wanted(raw, tie, x, scope) ==> x < pos {
      if x >= pos { NothingAfterTheLastEvent(raw, tie, events, x, scope); }
    }
    out := DedupSegments(out);
  }

  lemma ShownByFirst<S>(a: seq<Segment<S>>, x: int, scope: S)
    requires Layered(a) && a != [] && Shows(a, x, scope)
    ensures a[0].lo <= x
    ensures x < a[0].hi ==> scope == a[0].scope
  {
    var i :| 0 <= i < |a| && a[i].lo <= x < a[i].hi && a[i].scope == scope;
    if i > 0 { assert a[0].hi <= a[i].lo; }
  }

  lemma FirstReaches<S>(a: seq<Segment<S>>, b: seq<Segment<S>>)
    requires Layered(a) && Layered(b) && Merged(a) && a != [] && b != []
    requires forall x :: Shows(a, x, b[0].scope) <==> Shows(b, x, b[0].scope)
    requires a[0].lo == b[0].lo && a[0].scope == b[0].scope
    ensures b[0].hi <= a[0].hi
  {
    if a[0].hi < b[0].hi {
      ShownInside(b, a[0].hi);
      FirstGap(a);
    }
  }

  lemma ShownInside<S>(b: seq<Segment<S>>, x: int)
    requires b != [] && b[0].lo <= x < b[0].hi
    ensures Shows(b, x, b[0].scope)
  {
  }

  /** Right after its first segment a merged layer does not show that segment's scope. */
  lemma FirstGap<S>(a: seq<Segment<S>>)
    requires Layered(a) && Merged(a) && a != []
    ensures !Shows(a, a[0].hi, a[0].scope)
  {
    forall i | 0 <= i < |a| ensures !(a[i].lo <= a[0].hi < a[i].hi && a[i].scope == a[0].scope) {
      if i == 1 { assert !Mergeable(a[i - 1], a[i]); }
      if i > 1 { assert a[0].hi <= a[1].lo < a[1].hi <= a[i].lo; }
    }
  }

  /** A merged layer is the only one showing what it shows: whatever order the sort leaves equal keys in,
      the flattened spans are the same list. */
  lemma {:induction false} LayerIsUnique<S(!new)>(a: seq<Segment<S>>, b: seq<Segment<S>>)
    requires Layered(a) && Layered(b) && Merged(a) && Merged(b)
    requires forall x, scope :: Shows(a, x, scope) <==> Shows(b, x, scope)
    ensures a == b
  {
    if a != [] { assert Shows(a, a[0].lo, a[0].scope); }
    if b != [] { assert Shows(b, b[0].lo, b[0].scope); }
    if a != [] && b != [] {
      ShownByFirst(b, a[0].lo, a[0].scope);
      ShownByFirst(a, b[0].lo, b[0].scope);
      FirstReaches(a, b);
      FirstReaches(b, a);
      forall x, scope ensures Shows(a[1..], x, scope) <==> Shows(b[1..], x, scope) {
        ShowsTail(a, x, scope);
        ShowsTail(b, x, scope);
      }
      TailLayer(a);
      TailLayer(b);
      LayerIsUnique(a[1..], b[1..]);
    }
  }

  lemma TailLayer<S>(a: seq<Segment<S>>)
    requires Layered(a) && Merged(a) && a != []
    ensures Layered(a[1..]) && Merged(a[1..])
  {
    var t := a[1..];
    forall i | 0 <= i < |t| - 1 ensures !Mergeable(t[i], t[i + 1]) {
      assert !Mergeable(a[i + 1], a[i + 2]);
    }
  }

  lemma ShowsTail<S>(a: seq<Segment<S>>, x: int, scope: S)
    requires Layered(a) && a != []
    ensures Shows(a[1..], x, scope) <==> a[0].hi <= x && Shows(a, x, scope)
  {
    var t := a[1..];
    if Shows(t, x, scope) {
      var i :| 0 <= i < |t| && t[i].lo <= x < t[i].hi && t[i].scope == scope;
      assert a[i + 1] == t[i];
    }
    if a[0].hi <= x && Shows(a, x, scope) {
      var i :| 0 <= i < |a| && a[i].lo <= x < a[i].hi && a[i].scope == scope;
      assert t[i - 1] == a[i];
    }
  }
}
