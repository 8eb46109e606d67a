/** The client of one language server: handshake, requests and their outcomes, shutdown and crashes. */
module LspClients {
  import opened Wrappers
  import opened Messages
  import opened Positions
  import opened HandshakeQueue
  import opened RequestFates
  import opened ClientSteps
  import opened ClientSweeps

  class LspClient {
    const settings: Option<Json>
    const initializeParams: Json
    var state: ServerState
    var caps: Option<Json>
    var encoding: PositionEncoding
    var changeSync: Option<SyncKind>
    var queued: seq<Message>
    var initializeId: Option<RequestId>
    var lastId: nat
    var pending: map<RequestId, RequestMeta>
    var completed: seq<Done>
    /** All that went to the server, the messages of `BecameRunning` included, in order. */
    var wire: seq<Message>
    /** Everything offered to the queue while starting. */
    ghost var offered: seq<Message>
    ghost var fates: Fates
    /** Ids in the order their outcomes were handed out. */
    ghost var delivered: seq<RequestId>
    ghost var crashReports: nat

    ghost function Now(): Moment reads this {
      Moment(settings, initializeParams, state, caps, encoding, changeSync, queued, initializeId, lastId, pending,
             completed, wire, offered, fates, delivered, crashReports)
    }

    ghost predicate Valid() reads this { Sane(Now()) }

    /** What every step keeps between its start and its end. */
    twostate predicate Onward() reads this { Onwards(old(Now()), Now()) }

    constructor (settings: Option<Json>, initializeParams: Json)
      ensures Valid() && Now() == Fresh(settings, initializeParams)
    {
      this.settings, this.initializeParams := settings, initializeParams;
      state, caps, encoding, changeSync := Starting, None, Utf16, Some(Full);
      queued, initializeId, lastId, pending, completed, wire := [], None, 0, map[], [], [];
      offered, fates, delivered, crashReports := [], map[], [], 0;
      FreshSane(settings, initializeParams);
    }

    /** Sends now when running, queues while starting, drops otherwise. */
    method SendOrQueue(msg: Message)
      requires Valid() && MaySend(msg, fates, initializeId)
      modifies `wire, `queued, `offered
      ensures Valid() && Onward() && Now() == Sent(old(Now()), msg)
    {
      SentSane(Now(), msg);
      match state {
        case Running => wire := wire + [msg];
        case Starting =>
          Enqueue(msg);
          offered := offered + [msg];
        case Crashed =>
        case Dead =>
      }
    }

    /** Queues, in place of the last message when that is superseded. */
    method Enqueue(msg: Message)
      modifies `queued
      ensures queued == Enqueued(old(queued), msg)
    {
      if queued != [] && Supersedes(queued[|queued| - 1], msg) {
        queued := queued[|queued| - 1 := msg];
        assert queued == old(queued)[..|queued| - 1] + [msg];
      } else {
        queued := queued + [msg];
      }
    }

    /** A new request; on a lost connection it is due at once. */
    method SendRequest(method_: string, params: Json, meta: RequestMeta, now: nat) returns (id: RequestId)
      requires Valid()
      modifies this
      ensures Valid() && Onward() && id == IdInt(old(lastId) + 1) && id !in old(fates)
      ensures Now() == Requested(old(Now()), method_, params, meta, now)
    {
      RequestedSane(Now(), method_, params, meta, now);
      id := OpenRequest(meta.(deadline := if state.Crashed? || state.Dead? then now else meta.deadline));
      SendOrQueue(Request(id, method_, params));
    }

    /** A new id, on the books from now on. */
    method OpenRequest(meta: RequestMeta) returns (id: RequestId)
      requires Valid()
      modifies `lastId, `pending, `fates
      ensures Valid() && Onward() && id == IdInt(lastId) && id !in old(fates) && Now() == Opened(old(Now()), meta)
    {
      OpenedSane(Now(), meta);
      lastId := lastId + 1;
      id := IdInt(lastId);
      pending := pending[id := meta];
      fates := fates[id := Waiting];
    }

    method DropFromQueue(id: RequestId)
      modifies `queued
      ensures queued == WithoutRequest(old(queued), id)
    {
      var kept := [];
      for i := 0 to |queued|
        invariant queued == old(queued) && kept == WithoutRequest(queued[..i], id)
      {
        assert queued[..i + 1][..i] == queued[..i];
        if !(queued[i].Request? && queued[i].id == id) { kept := kept + [queued[i]]; }
      }
      assert queued[..|queued|] == queued;
      queued := kept;
    }

    method SendCancelNotification(id: RequestId)
      modifies `wire
      ensures Now() == CancelSent(old(Now()), id)
    {
      if state.Running? { wire := wire + [CancelNote(id)]; }
    }

    /** Off the books, out of the queue, and the server told when it may know of the request. */
    method Withdraw(id: RequestId, ghost fate: Fate)
      modifies `pending, `fates, `queued, `wire
      ensures Now() == Withdrawn(old(Now()), id, fate)
    {
      pending := pending - {id};
      fates := fates[id := fate];
      DropFromQueue(id);
      SendCancelNotification(id);
    }

    /** Drops a pending request, still queued or on the wire; nothing when it already ended. */
    method Cancel(id: RequestId)
      requires Valid()
      modifies this
      ensures Valid() && Onward() && Now() == Cancelling(old(Now()), id)
    {
      CancellingSane(Now(), id);
      if id in pending { Withdraw(id, Cancelled); }
    }

    /** Hands out every pending request as stopped, in whatever order; what is queued of them stays queued. */
    method DrainPending() returns (out: seq<Done>, ghost order: Order)
      requires Valid()
      modifies `pending, `fates, `delivered
      ensures Valid() && Onward() && Ordered(old(pending).Keys, order) && Now() == StoppedAll(old(Now()), order)
      ensures pending == map[] && StoppedTo(old(Now()), order, Now()) && out == Stops(old(pending), order)
      ensures forall d :: d in out <==> d.id in old(pending) && d == Done(d.id, old(pending)[d.id], Stopped)
    {
      out, order := [], [];
      ghost var was := Now();
      while pending != map[]
        invariant Draining(was, order, Now()) && out == Stops(was.pending, order)
        decreases pending.Keys
      {
        var id :| id in pending;
        DrainingNext(was, order, Now(), id);
        out, order := out + [Done(id, pending[id], Stopped)], order + [id];
        StopOne(id);
      }
      DrainingEnds(was, order, Now());
      StopsAre(was.pending, order);
    }

    method StopOne(id: RequestId)
      modifies `pending, `fates, `delivered
      ensures Now() == Stopping(old(Now()), id)
    {
      pending := pending - {id};
      fates := fates[id := Delivered(Stopped)];
      delivered := delivered + [id];
    }

    /** Hands out every buffered answer, then every pending request that is due as timed out, in whatever order;
        the handshake, when it is due, is not handed out but reported as a crash. */
    method TakeCompleted(now: nat) returns (out: seq<Done>, actions: seq<ClientAction>, ghost order: Order)
      requires Valid()
      modifies this
      ensures Valid() && Onward() && Ordered(DueIds(old(Now()), now), order) && Now() == Taking(old(Now()), order)
      ensures out == Taken(old(Now()), order) && actions == TakingActions(old(Now()), order)
    {
      ghost var was := Now();
      PulledSane(was);
      out := PullBuffered();
      var late;
      late, actions, order := SweepDue(now);
      out := out + late;
      TakingMeans(was, now, order);
    }

    method PullBuffered() returns (out: seq<Done>)
      modifies `completed, `fates, `delivered
      ensures out == old(completed) && Now() == PulledAll(old(Now()))
    {
      out := completed;
      delivered := delivered + Ids(completed);
      fates := Pulled(fates);
      completed := [];
    }

    /** Ends the requests that are due, and hands out the others but the handshake's as timed out. */
    method SweepDue(now: nat) returns (late: seq<Done>, actions: seq<ClientAction>, ghost order: Order)
      requires Valid()
      modifies this
      ensures Ordered(DueIds(old(Now()), now), order) && Now() == SweptAll(old(Now()), order)
      ensures actions == TakingActions(old(Now()), order) && forall id :: id in order ==> id in old(pending)
      ensures forall id :: id in Others(order, old(initializeId)) ==> id in old(pending)
      ensures late == LateOf(old(pending), Others(order, old(initializeId)))
    {
      ghost var was := Now();
      late, actions, order := [], [], [];
      var due := set id | id in pending && pending[id].deadline <= now;
      SweepingStart(was, now);
      while due != {}
        invariant Sweeping(was, now, due, order, Now()) && SweptOut(was, order, late, actions)
      {
        var id :| id in due;
        SweepingNext(was, now, due, order, Now(), id);
        SweptOutNext(was, order, Now(), late, actions, id, order + [id]);
        var done, crashed := Expire(id);
        late := late + done;
        actions := if crashed then actions + [ReportCrash(InitializeTimedOut)] else actions;
        order, due := order + [id], due - {id};
      }
      OthersAre(order, was.initializeId);
    }

    /** Ends one request that is due. */
    method Expire(id: RequestId) returns (done: seq<Done>, crashed: bool)
      requires id in pending
      modifies this
      ensures Now() == Expired(old(Now()), id)
      ensures done == if old(initializeId) == Some(id) then [] else [Done(id, old(pending)[id], TimedOut)]
      ensures crashed == (old(initializeId) == Some(id) && old(state).Starting?)
    {
      if initializeId == Some(id) {
        EndHandshake(id);
        crashed := state.Starting?;
        if crashed { Crash(); }
        return [], crashed;
      }
      done, crashed := [Done(id, pending[id], TimedOut)], false;
      Withdraw(id, Delivered(TimedOut));
      delivered := delivered + [id];
    }

    /** Sends the one request that is legal before the handshake is done. */
    method StartHandshake(now: nat)
      requires Valid()
      modifies this
      ensures Valid() && Onward() && initializeId == Some(IdInt(lastId)) && Now() == Handshaking(old(Now()), now)
    {
      HandshakingSane(Now(), now);
      var id := OpenRequest(RequestMeta(INITIALIZE, now + INITIALIZE_TIMEOUT));
      initializeId := Some(id);
      wire := wire + [Request(id, INITIALIZE, initializeParams)];
    }

    /** Moves to `Crashed`; what was queued is never sent. The one report of it is the caller's. */
    method Crash()
      modifies `state, `queued, `crashReports
      ensures Now() == Crashing(old(Now()))
    {
      state := Crashed;
      queued := [];
      crashReports := crashReports + 1;
    }

    /** Acts on one inbound event; `parsed` is what an `initialize` result decodes to. */
    method OnEvent(ev: InboundEvent, parsed: Option<ServerCaps>) returns (actions: seq<ClientAction>)
      requires Valid()
      modifies this
      ensures Valid() && Onward() && (Now(), actions) == Reacted(old(Now()), ev, parsed)
    {
      ReactedSane(Now(), ev, parsed);
      match ev {
        case Eof(error) =>
          if state.Crashed? || state.Dead? { return []; }
          Crash();
          return [ReportCrash(ConnectionLost(error))];
        case Stderr(line) => return [StderrLine(line)];
        case Inbound(m) =>
          match m {
            case Request(id, method_, params) => return [ServerRequest(id, method_, params)];
            case Notification(method_, params) => return [ServerNotification(method_, params)];
            case Response(id, result) => actions := OnResponse(id, result, parsed);
          }
      }
    }

    method OnResponse(id: RequestId, result: Result<Json, ResponseError>, parsed: Option<ServerCaps>)
        returns (actions: seq<ClientAction>)
      modifies this
      ensures (Now(), actions) == Responded(old(Now()), id, result, parsed)
    {
      actions := [];
      if initializeId == Some(id) {
        EndHandshake(id);
        if state.Starting? { actions := HandleInitializeResponse(result, parsed); }
      } else if id in pending {
        completed := completed + [Done(id, pending[id], OutcomeOf(result))];
        pending := pending - {id};
        fates := fates[id := Buffered(OutcomeOf(result))];
      }
    }

    method EndHandshake(id: RequestId)
      modifies `initializeId, `pending, `fates
      ensures Now() == HandshakeOver(old(Now()), id)
    {
      initializeId := None;
      fates := if id in pending then fates[id := Handshake] else fates;
      pending := pending - {id};
    }

    /** Goes running and sends the flush, or crashes on an error or a result that does not decode. */
    method HandleInitializeResponse(result: Result<Json, ResponseError>, parsed: Option<ServerCaps>)
        returns (actions: seq<ClientAction>)
      modifies `state, `queued, `crashReports, `caps, `encoding, `changeSync, `wire
      ensures (Now(), actions) == Handshaken(old(Now()), result, parsed)
    {
      if result.Failure? {
        Crash();
        return [ReportCrash(InitializeFailed(result.error))];
      }
      if parsed.None? {
        Crash();
        return [ReportCrash(MalformedInitialize)];
      }
      var send := BecomeRunning(result.value, parsed.value);
      return [BecameRunning(send)];
    }

    method BecomeRunning(value: Json, parsed: ServerCaps) returns (send: seq<Message>)
      modifies `state, `queued, `caps, `encoding, `changeSync, `wire
      ensures Now() == NowRunning(old(Now()), value, parsed) && send == Flush(settings, old(queued))
    {
      Negotiate(value, parsed);
      state := Running;
      send := Flush(settings, queued);
      queued := [];
      wire := wire + send;
    }

    method Negotiate(value: Json, parsed: ServerCaps)
      modifies `caps, `encoding, `changeSync
      ensures Now() == Negotiated(old(Now()), value, parsed)
    {
      encoding := if parsed.positionEncoding == Some(Utf8) then Utf8 else Utf16;
      changeSync := if parsed.sync == Some(NoSync) then None else parsed.sync;
      caps := value.Get("capabilities");
    }

    /** Ends the client; only a running one tells the server. */
    method BeginShutdown(now: nat)
      requires Valid()
      modifies this
      ensures Valid() && Onward() && Now() == ShuttingDown(old(Now()), now)
    {
      ShuttingDownSane(Now(), now);
      if state.Running? {
        var id := OpenRequest(RequestMeta(SHUTDOWN, now + SHUTDOWN_TIMEOUT));
        wire := wire + [Request(id, SHUTDOWN, Null)] + [Notification(EXIT, Null)];
      }
      state := Dead;
    }
  }

  // ---- Loops over pending requests ----

  /** A drain of `was` that has stopped the requests of `order`. */
  ghost predicate Draining(was: Moment, order: Order, now: Moment) {
    && Sane(was) && NoDup(order) && (forall id :: id in order <==> id in was.pending && id !in now.pending)
    && now == StoppedAll(was, order) && StoppedTo(was, order, now)
  }

  lemma DrainingNext(was: Moment, order: Order, now: Moment, id: RequestId)
    requires Draining(was, order, now) && id in now.pending
    ensures Draining(was, order + [id], Stopping(now, id)) && was.pending[id] == now.pending[id]
    ensures Stops(was.pending, order + [id]) == Stops(was.pending, order) + [Done(id, now.pending[id], Stopped)]
  {
    OneMore(order, id, order + [id]);
    DrainMeans(was, order + [id]);
    StopsMore(was.pending, order, id);
  }

  lemma StopsMore(pending: map<RequestId, RequestMeta>, ids: Order, id: RequestId)
    requires id in pending && forall x :: x in ids ==> x in pending
    ensures forall x :: x in ids + [id] ==> x in pending
    ensures Stops(pending, ids + [id]) == Stops(pending, ids) + [Done(id, pending[id], Stopped)]
  {
  }

  lemma OneMore(order: Order, id: RequestId, more: Order)
    requires NoDup(order) && id !in order && more == order + [id]
    ensures NoDup(more) && more[..|more| - 1] == order && forall x :: x in more <==> x in order || x == id
  {
    NoDupConcat(order, [id]);
  }

  lemma DrainingEnds(was: Moment, order: Order, now: Moment)
    requires Draining(was, order, now) && now.pending == map[]
    ensures Sane(now) && Onwards(was, now) && Ordered(was.pending.Keys, order)
  {
    DrainMeans(was, order);
  }

  /** A sweep of `was` that has ended the requests of `order` and has those of `due` to go. */
  ghost predicate Sweeping(was: Moment, now: nat, due: set<RequestId>, order: Order, at: Moment) {
    && Sane(was) && NoDup(order) && (forall id :: id in order <==> id in DueIds(was, now) && id !in due)
    && due <= DueIds(was, now) && at == SweptAll(was, order) && SweptTo(was, order, at)
  }

  /** What it has to hand out and to report. */
  ghost predicate SweptOut(was: Moment, order: Order, late: seq<Done>, actions: seq<ClientAction>) {
    && actions == TakingActions(was, order)
    && (forall id :: id in Others(order, was.initializeId) ==> id in was.pending)
    && late == LateOf(was.pending, Others(order, was.initializeId))
  }

  lemma SweepingStart(was: Moment, now: nat)
    requires Sane(was)
    ensures Sweeping(was, now, DueIds(was, now), [], was) && SweptOut(was, [], [], [])
  {
    SweptNone(was);
  }

  lemma SweepingNext(was: Moment, now: nat, due: set<RequestId>, order: Order, at: Moment, id: RequestId)
    requires Sweeping(was, now, due, order, at) && id in due
    ensures id !in order && id in at.pending && at.pending[id] == was.pending[id] && SweptTo(was, order, at)
    ensures Sweeping(was, now, due - {id}, order + [id], Expired(at, id))
  {
    OneMore(order, id, order + [id]);
    SweepMeans(was, order + [id]);
  }

  lemma SweptOutNext(was: Moment, order: Order, at: Moment, late: seq<Done>, actions: seq<ClientAction>,
                     id: RequestId, more: Order)
    requires SweptTo(was, order, at) && SweptOut(was, order, late, actions) && more == order + [id] && id !in order
    requires id in was.pending && id in at.pending && at.pending[id] == was.pending[id]
    ensures var done := if at.initializeId == Some(id) then [] else [Done(id, at.pending[id], TimedOut)];
            var crashed := at.initializeId == Some(id) && at.state.Starting?;
            SweptOut(was, more, late + done, if crashed then actions + [ReportCrash(InitializeTimedOut)] else actions)
  {
    var others := Others(order, was.initializeId);
    assert more[..|more| - 1] == order && forall x :: x in more <==> x in order || x == id;
    HandshakeTurn(was, order, at, id, more);
    if was.initializeId == Some(id) {
      assert others + [] == others && late + [] == late;
    } else {
      LateMore(was.pending, others, id);
    }
  }

  /** Whether the next request to end is the handshake's, and whether that crashes the client. */
  lemma HandshakeTurn(was: Moment, order: Order, at: Moment, id: RequestId, more: Order)
    requires SweptTo(was, order, at) && id !in order && (forall x :: x in more <==> x in order || x == id)
    ensures at.initializeId == Some(id) <==> was.initializeId == Some(id)
    ensures TakingActions(was, more)
         == if at.initializeId == Some(id) && at.state.Starting? then [ReportCrash(InitializeTimedOut)]
            else TakingActions(was, order)
    ensures at.initializeId == Some(id) ==> TakingActions(was, order) == []
  {
  }

  lemma LateMore(pending: map<RequestId, RequestMeta>, ids: Order, id: RequestId)
    requires id in pending && forall x :: x in ids ==> x in pending
    ensures forall x :: x in ids + [id] ==> x in pending
    ensures LateOf(pending, ids + [id]) == LateOf(pending, ids) + [Done(id, pending[id], TimedOut)]
  {
  }
}
