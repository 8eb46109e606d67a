/** Ending many requests at once, in whatever order: a sweep of those due, and a drain of all. */
module ClientSweeps {
  import opened Wrappers
  import opened Sequences
  import opened Messages
  import opened HandshakeQueue
  import opened RequestFates
  import opened ClientSteps

  type Order = seq<RequestId>

  function CancelNotes(ids: Order): seq<Message> {
    seq(|ids|, k requires 0 <= k < |ids| => CancelNote(ids[k]))
  }

  lemma CancelNotesPush(ids: Order, id: RequestId)
    ensures CancelNotes(ids + [id]) == CancelNotes(ids) + [CancelNote(id)]
  {
  }

  /** The ids but the handshake's. */
  function Others(ids: Order, initializeId: Option<RequestId>): Order
    decreases |ids|
  {
    if ids == [] then []
    else
      var last := ids[|ids| - 1];
      Others(ids[..|ids| - 1], initializeId) + if initializeId == Some(last) then [] else [last]
  }

  lemma {:induction false} OthersAre(ids: Order, initializeId: Option<RequestId>)
    ensures forall id :: id in Others(ids, initializeId) <==> id in ids && initializeId != Some(id)
    decreases |ids|
  {
    if ids != [] {
      OthersAre(ids[..|ids| - 1], initializeId);
      assert ids == ids[..|ids| - 1] + [ids[|ids| - 1]];
    }
  }

  /** The queue without any of these requests. */
  function WithoutEach(queued: seq<Message>, ids: Order): seq<Message>
    decreases |ids|
  {
    if ids == [] then queued else WithoutRequest(WithoutEach(queued, ids[..|ids| - 1]), ids[|ids| - 1])
  }

  lemma WithoutPush(queued: seq<Message>, ids: Order, id: RequestId)
    ensures WithoutEach(queued, ids + [id]) == WithoutRequest(WithoutEach(queued, ids), id)
  {
    assert (ids + [id])[..|ids|] == ids;
  }

  // ---- The sweep ----

  function SweptAll(a: Moment, order: Order): Moment
    decreases |order|
  {
    if order == [] then a else Expired(SweptAll(a, order[..|order| - 1]), order[|order| - 1])
  }

  ghost predicate Ordered(ids: set<RequestId>, order: Order) {
    NoDup(order) && forall id :: id in order <==> id in ids
  }

  function DueIds(a: Moment, now: nat): set<RequestId> {
    set id | id in a.pending && a.pending[id].deadline <= now
  }

  predicate HandshakeIn(a: Moment, order: Order) {
    a.initializeId.Some? && a.initializeId.value in order
  }

  function ToFate(a: Moment, id: RequestId): Fate {
    if a.initializeId == Some(id) then Handshake else Delivered(TimedOut)
  }

  /** Where a sweep stands that has ended the requests of `order`: the handshake by a crash while starting, the others
      timed out, out of the queue and with a note each when running; nothing else has changed. */
  ghost predicate SweptTo(a: Moment, order: Order, b: Moment) {
    var (others, ended) := (Others(order, a.initializeId), HandshakeIn(a, order));
    var crashed := ended && a.state.Starting?;
    && b == a.(state := if crashed then Crashed else a.state,
               queued := if crashed then [] else WithoutEach(a.queued, others),
               initializeId := if ended then None else a.initializeId,
               pending := b.pending, fates := b.fates,
               wire := a.wire + (if a.state.Running? then CancelNotes(others) else []),
               delivered := a.delivered + others,
               crashReports := a.crashReports + if crashed then 1 else 0)
    && SweptBooks(a, order, b)
  }

  /** What a sweep leaves pending, and how the requests it ended ended. */
  ghost predicate SweptBooks(a: Moment, order: Order, b: Moment) {
    && (forall id :: id in b.pending <==> id in a.pending && id !in order)
    && (forall id :: id in b.pending ==> b.pending[id] == a.pending[id])
    && (forall id :: id in b.fates <==> id in a.fates)
    && (forall id :: id in b.fates ==> b.fates[id] == if id in order then ToFate(a, id) else a.fates[id])
  }

  lemma NoDupInit(init: Order, last: RequestId, order: Order)
    requires order == init + [last] && NoDup(order)
    ensures NoDup(init) && last !in init
  {
    assert order[|init|] == last;
    forall i, j | 0 <= i < j < |init| ensures init[i] != init[j] { assert order[i] != order[j]; }
    forall i | 0 <= i < |init| ensures init[i] != last { assert order[i] != order[|init|]; }
  }

  lemma WithoutNone(id: RequestId)
    ensures WithoutRequest([], id) == []
  {
  }

  lemma ExpiredNext(a: Moment, init: Order, last: RequestId, order: Order, b: Moment)
    requires order == init + [last] && NoDup(order) && SweptTo(a, init, b) && last in a.pending && last in a.fates
    ensures SweptTo(a, order, Expired(b, last))
  {
    NoDupInit(init, last, order);
    assert order[..|order| - 1] == init && forall id :: id in order <==> id in init || id == last;
    assert !HandshakeIn(a, init) || a.initializeId != Some(last);
    ExpiredBooks(a, init, last, order, b, Expired(b, last));
    if a.initializeId == Some(last) {
      ExpiredHandshake(a, init, last, order, b);
    } else {
      ExpiredOther(a, init, last, order, b);
    }
  }

  lemma ExpiredBooks(a: Moment, init: Order, last: RequestId, order: Order, b: Moment, c: Moment)
    requires SweptBooks(a, init, b) && last in a.fates && forall id :: id in order <==> id in init || id == last
    requires c.pending == b.pending - {last} && c.fates == b.fates[last := ToFate(a, last)]
    ensures SweptBooks(a, order, c)
  {
  }

  lemma ExpiredHandshake(a: Moment, init: Order, last: RequestId, order: Order, b: Moment)
    requires order == init + [last] && last !in init && SweptTo(a, init, b) && SweptBooks(a, order, Expired(b, last))
    requires order[..|order| - 1] == init && (forall id :: id in order <==> id in init || id == last)
    requires a.initializeId == Some(last)
    ensures SweptTo(a, order, Expired(b, last))
  {
    var others := Others(init, a.initializeId);
    assert Others(order, a.initializeId) == others + [] == others;
    assert !HandshakeIn(a, init) && HandshakeIn(a, order) && b.initializeId == a.initializeId;
  }

  lemma ExpiredOther(a: Moment, init: Order, last: RequestId, order: Order, b: Moment)
    requires order == init + [last] && SweptTo(a, init, b) && SweptBooks(a, order, Expired(b, last))
    requires order[..|order| - 1] == init && (forall id :: id in order <==> id in init || id == last)
    requires a.initializeId != Some(last)
    ensures SweptTo(a, order, Expired(b, last))
  {
    var others := Others(init, a.initializeId);
    assert Others(order, a.initializeId) == others + [last];
    WithoutPush(a.queued, others, last);
    WithoutNone(last);
    CancelNotesPush(others, last);
    Assoc(a.delivered, others, [last]);
    Assoc(a.wire, CancelNotes(others), [CancelNote(last)]);
  }

  lemma {:induction false} SweepMeans(a: Moment, order: Order)
    requires Sane(a) && NoDup(order) && forall id :: id in order ==> id in a.pending
    ensures Sane(SweptAll(a, order)) && Onwards(a, SweptAll(a, order)) && SweptTo(a, order, SweptAll(a, order))
    decreases |order|
  {
    if order == [] {
      SweptNone(a);
    } else {
      var init, last := order[..|order| - 1], order[|order| - 1];
      assert order == init + [last];
      NoDupInit(init, last, order);
      SweepMeans(a, init);
      ExpiredSane(SweptAll(a, init), last);
      OnwardsOn(a, SweptAll(a, init), SweptAll(a, order));
      ExpiredNext(a, init, last, order, SweptAll(a, init));
    }
  }

  lemma SweptNone(a: Moment)
    ensures SweptTo(a, [], a)
  {
    assert a.delivered + [] == a.delivered && a.wire + [] == a.wire && CancelNotes([]) == [];
  }

  // ---- Handing out what finished ----

  function LateOf(pending: map<RequestId, RequestMeta>, ids: Order): (late: seq<Done>)
    requires forall id :: id in ids ==> id in pending
    ensures Ids(late) == ids
  {
    seq(|ids|, k requires 0 <= k < |ids| => Done(ids[k], pending[ids[k]], TimedOut))
  }

  /** The buffered answers, then what a sweep timed out. */
  function Taken(a: Moment, order: Order): seq<Done>
    requires forall id :: id in order ==> id in a.pending
  {
    OthersAre(order, a.initializeId);
    a.completed + LateOf(a.pending, Others(order, a.initializeId))
  }

  function TakingActions(a: Moment, order: Order): seq<ClientAction> {
    if HandshakeIn(a, order) && a.state.Starting? then [ReportCrash(InitializeTimedOut)] else []
  }

  function Taking(a: Moment, order: Order): Moment {
    SweptAll(PulledAll(a), order)
  }

  lemma LateAre(pending: map<RequestId, RequestMeta>, ids: Order, d: Done)
    requires forall id :: id in ids ==> id in pending
    ensures d in LateOf(pending, ids) <==> d.id in ids && d == Done(d.id, pending[d.id], TimedOut)
  {
    var late := LateOf(pending, ids);
    if d.id in ids && d == Done(d.id, pending[d.id], TimedOut) {
      var k :| 0 <= k < |ids| && ids[k] == d.id;
      assert late[k] == d;
    }
  }

  /** What is handed out: every buffered answer, and every request that is due but the handshake's. */
  lemma TakenAre(a: Moment, now: nat, order: Order, d: Done)
    requires Ordered(DueIds(a, now), order)
    ensures d in Taken(a, order) <==>
              d in a.completed
              || (d.id in DueIds(a, now) && a.initializeId != Some(d.id) && d == Done(d.id, a.pending[d.id], TimedOut))
  {
    OthersAre(order, a.initializeId);
    LateAre(a.pending, Others(order, a.initializeId), d);
  }

  /** Handing out what finished is a sweep of what is due, the buffer emptied first. */
  lemma TakingMeans(a: Moment, now: nat, order: Order)
    requires Sane(a) && Ordered(DueIds(a, now), order)
    ensures var b := Taking(a, order);
            && Sane(b) && Onwards(a, b) && SweptTo(PulledAll(a), order, b)
            && b.completed == [] && b.delivered == a.delivered + Ids(Taken(a, order))
            && (forall id :: id in b.pending <==> id in a.pending && a.pending[id].deadline > now)
  {
    PulledSane(a);
    SweepMeans(PulledAll(a), order);
    OnwardsOn(a, PulledAll(a), Taking(a, order));
    OthersAre(order, a.initializeId);
    var others := Others(order, a.initializeId);
    IdsConcat(a.completed, LateOf(a.pending, others));
    Assoc(a.delivered, Ids(a.completed), others);
  }

  // ---- The drain ----

  function StoppedAll(a: Moment, order: Order): Moment
    decreases |order|
  {
    if order == [] then a else Stopping(StoppedAll(a, order[..|order| - 1]), order[|order| - 1])
  }

  /** The requests of `order` stopped; what is queued of them stays queued, and nothing else has changed. */
  ghost predicate StoppedTo(a: Moment, order: Order, b: Moment) {
    && b == a.(pending := b.pending, fates := b.fates, delivered := a.delivered + order)
    && (forall id :: id in b.pending <==> id in a.pending && id !in order)
    && (forall id :: id in b.pending ==> b.pending[id] == a.pending[id])
    && (forall id :: id in b.fates <==> id in a.fates)
    && (forall id :: id in b.fates ==> b.fates[id] == if id in order then Delivered(Stopped) else a.fates[id])
  }

  lemma StoppedNext(a: Moment, init: Order, last: RequestId, order: Order, b: Moment)
    requires order == init + [last] && NoDup(order) && StoppedTo(a, init, b) && last in a.pending && last in a.fates
    ensures StoppedTo(a, order, Stopping(b, last))
  {
    NoDupInit(init, last, order);
    assert forall id :: id in order <==> id in init || id == last;
    Assoc(a.delivered, init, [last]);
  }

  lemma {:induction false} DrainMeans(a: Moment, order: Order)
    requires Sane(a) && NoDup(order) && forall id :: id in order ==> id in a.pending
    ensures Sane(StoppedAll(a, order)) && Onwards(a, StoppedAll(a, order)) && StoppedTo(a, order, StoppedAll(a, order))
    decreases |order|
  {
    if order == [] {
      assert a.delivered + [] == a.delivered;
    } else {
      var init, last := order[..|order| - 1], order[|order| - 1];
      assert order == init + [last];
      NoDupInit(init, last, order);
      DrainMeans(a, init);
      StoppingSane(StoppedAll(a, init), last);
      OnwardsOn(a, StoppedAll(a, init), StoppedAll(a, order));
      StoppedNext(a, init, last, order, StoppedAll(a, init));
    }
  }

  function Stops(pending: map<RequestId, RequestMeta>, ids: Order): (out: seq<Done>)
    requires forall id :: id in ids ==> id in pending
    ensures Ids(out) == ids
  {
    seq(|ids|, k requires 0 <= k < |ids| => Done(ids[k], pending[ids[k]], Stopped))
  }

  lemma StopsAre(pending: map<RequestId, RequestMeta>, ids: Order)
    requires forall id :: id in ids <==> id in pending
    ensures forall d :: d in Stops(pending, ids) <==> d.id in pending && d == Done(d.id, pending[d.id], Stopped)
  {
    var out := Stops(pending, ids);
    forall d ensures d in out <==> d.id in pending && d == Done(d.id, pending[d.id], Stopped) {
      if d.id in pending {
        var k :| 0 <= k < |ids| && ids[k] == d.id;
        assert out[k] == Done(d.id, pending[d.id], Stopped);
      }
    }
  }
}
