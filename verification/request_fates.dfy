/** Where every request of a client is: each id in one place, and each delivered once. */
module RequestFates {
  import opened Messages

  datatype RequestMeta = RequestMeta(method_: string, deadline: nat)

  datatype Outcome = Answer(value: Json) | Fault(error: ResponseError) | TimedOut | Stopped

  datatype Done = Done(id: RequestId, meta: RequestMeta, outcome: Outcome)

  /** Buffered: answered and not yet pulled. Handshake: the initialize request, used up by the client itself. */
  datatype Fate = Waiting | Buffered(outcome: Outcome) | Delivered(outcome: Outcome) | Cancelled | Handshake

  type Fates = map<RequestId, Fate>

  predicate FromServer(o: Outcome) {
    o.Answer? || o.Fault?
  }

  predicate Final(f: Fate) {
    f.Delivered? || f.Cancelled? || f.Handshake?
  }

  /** Cancelled or timed out: the ends that take a request out of the queue. */
  predicate Gone(fates: map<RequestId, Fate>, id: RequestId) {
    id in fates && (fates[id].Cancelled? || fates[id] == Delivered(TimedOut))
  }

  /** The ids a client has given out. */
  predicate Issued(id: RequestId, lastId: nat) {
    id.IdInt? && 1 <= id.n <= lastId
  }

  function Ids(done: seq<Done>): seq<RequestId> {
    seq(|done|, k requires 0 <= k < |done| => done[k].id)
  }

  ghost predicate NoDup(ids: seq<RequestId>) {
    forall i, j :: 0 <= i < j < |ids| ==> ids[i] != ids[j]
  }

  lemma NoDupConcat(a: seq<RequestId>, b: seq<RequestId>)
    requires NoDup(a) && NoDup(b) && forall x :: x in a ==> x !in b
    ensures NoDup(a + b)
  {
    var c := a + b;
    forall i, j | 0 <= i < j < |c| ensures c[i] != c[j] {
      if i < |a| <= j { assert c[i] in a && c[j] in b; }
    }
  }

  lemma IdsConcat(a: seq<Done>, b: seq<Done>)
    ensures Ids(a + b) == Ids(a) + Ids(b)
  {
  }

  /** Every issued id is in exactly one place: pending, the answer buffer, the delivery log, or gone. */
  ghost predicate Fated(fates: Fates, lastId: nat, pending: map<RequestId, RequestMeta>, completed: seq<Done>,
                        delivered: seq<RequestId>) {
    && (forall id :: id in fates <==> Issued(id, lastId))
    && (forall id :: id in pending <==> id in fates && fates[id] == Waiting)
    && HeldAs(fates, completed) && NoDup(Ids(completed))
    && (forall id :: id in fates && fates[id].Buffered? ==> id in Ids(completed))
    && NoDup(delivered) && (forall id :: id in delivered <==> id in fates && fates[id].Delivered?)
  }

  ghost predicate HeldAs(fates: Fates, completed: seq<Done>) {
    forall k :: 0 <= k < |completed| ==>
      completed[k].id in fates && fates[completed[k].id] == Buffered(completed[k].outcome)
          && FromServer(completed[k].outcome)
  }

  /** What one step may do to fates: an ended request stays as it ended, a buffered answer is only delivered. */
  ghost predicate Settles(f: Fates, g: Fates) {
    forall id :: id in f ==>
      && id in g && (Final(f[id]) ==> g[id] == f[id])
      && (f[id].Buffered? ==> g[id] == f[id] || g[id] == Delivered(f[id].outcome))
  }

  lemma SettlesOn(f: Fates, g: Fates, h: Fates)
    requires Settles(f, g) && Settles(g, h)
    ensures Settles(f, h)
  {
  }

  lemma Issue(fates: Fates, lastId: nat, pending: map<RequestId, RequestMeta>, completed: seq<Done>,
              delivered: seq<RequestId>,
              meta: RequestMeta)
    requires Fated(fates, lastId, pending, completed, delivered)
    ensures IdInt(lastId + 1) !in fates
    ensures Fated(fates[IdInt(lastId + 1) := Waiting], lastId + 1, pending[IdInt(lastId + 1) := meta], completed,
            delivered)
  {
  }

  /** A pending request cancelled, or used up as the handshake. */
  lemma Forget(fates: Fates, lastId: nat, pending: map<RequestId, RequestMeta>, completed: seq<Done>,
               delivered: seq<RequestId>,
               id: RequestId, fate: Fate)
    requires Fated(fates, lastId, pending, completed, delivered) && id in pending
             && (fate.Cancelled? || fate.Handshake?)
    ensures Fated(fates[id := fate], lastId, pending - {id}, completed, delivered)
    ensures Settles(fates, fates[id := fate])
  {
  }

  lemma Buffer(fates: Fates, lastId: nat, pending: map<RequestId, RequestMeta>, completed: seq<Done>,
               delivered: seq<RequestId>,
               id: RequestId, outcome: Outcome)
    requires Fated(fates, lastId, pending, completed, delivered) && id in pending && FromServer(outcome)
    ensures Fated(fates[id := Buffered(outcome)], lastId, pending - {id},
            completed + [Done(id, pending[id], outcome)], delivered)
    ensures Settles(fates, fates[id := Buffered(outcome)])
  {
    var done := Done(id, pending[id], outcome);
    IdsConcat(completed, [done]);
    assert Ids([done]) == [id];
    forall x | x in Ids(completed) ensures x != id {
      var k :| 0 <= k < |completed| && completed[k].id == x;
    }
    NoDupConcat(Ids(completed), [id]);
  }

  /** A pending request handed out with its outcome. */
  lemma HandOut(fates: Fates, lastId: nat, pending: map<RequestId, RequestMeta>, completed: seq<Done>,
                delivered: seq<RequestId>,
                id: RequestId, outcome: Outcome)
    requires Fated(fates, lastId, pending, completed, delivered) && id in pending
    ensures Fated(fates[id := Delivered(outcome)], lastId, pending - {id}, completed, delivered + [id])
    ensures Settles(fates, fates[id := Delivered(outcome)])
  {
    NoDupConcat(delivered, [id]);
  }

  /** Every buffered answer delivered. */
  function Pulled(fates: Fates): Fates {
    map id | id in fates :: if fates[id].Buffered? then Delivered(fates[id].outcome) else fates[id]
  }

  lemma Pull(fates: Fates, lastId: nat, pending: map<RequestId, RequestMeta>, completed: seq<Done>,
             delivered: seq<RequestId>)
    requires Fated(fates, lastId, pending, completed, delivered)
    ensures Fated(Pulled(fates), lastId, pending, [], delivered + Ids(completed))
    ensures Settles(fates, Pulled(fates))
    ensures forall id :: id in fates && fates[id].Buffered? ==> FromServer(fates[id].outcome)
  {
    forall x | x in Ids(completed) ensures x in fates && fates[x].Buffered? && x !in delivered
        && FromServer(fates[x].outcome) {
      var k :| 0 <= k < |completed| && completed[k].id == x;
    }
    NoDupConcat(delivered, Ids(completed));
  }
}
