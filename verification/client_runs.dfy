/** Whole runs of a client: what the handshake's flush sends, and what becomes of every request. */
module ClientRuns {
  import opened Wrappers
  import opened Sequences
  import opened Messages
  import opened HandshakeQueue
  import opened RequestFates
  import opened ClientSteps
  import opened ClientSweeps

  /** One call of a client's methods; a drain and a sweep with the order they take requests in. */
  datatype Call =
    | Send(m: Message)
    | Ask(method_: string, params: Json, meta: RequestMeta, now: nat)
    | Cancel(id: RequestId)
    | Drain(order: Order)
    | Take(now: nat, order: Order)
    | Start(now: nat)
    | Event(ev: InboundEvent, parsed: Option<ServerCaps>)
    | Shutdown(now: nat)

  ghost predicate Legal(a: Moment, c: Call) {
    match c
    case Send(m) => MaySend(m, a.fates, a.initializeId)
    case Drain(order) => Ordered(a.pending.Keys, order)
    case Take(now, order) => Ordered(DueIds(a, now), order)
    case _ => true
  }

  function After(a: Moment, c: Call): Moment {
    match c
    case Send(m) => Sent(a, m)
    case Ask(method_, params, meta, now) => Requested(a, method_, params, meta, now)
    case Cancel(id) => Cancelling(a, id)
    case Drain(order) => StoppedAll(a, order)
    case Take(now, order) => Taking(a, order)
    case Start(now) => Handshaking(a, now)
    case Event(ev, parsed) => Reacted(a, ev, parsed).0
    case Shutdown(now) => ShuttingDown(a, now)
  }

  lemma AfterSane(a: Moment, c: Call)
    requires Sane(a) && Legal(a, c)
    ensures Sane(After(a, c)) && Onwards(a, After(a, c))
  {
    match c
    case Send(m) => SentSane(a, m);
    case Ask(method_, params, meta, now) => RequestedSane(a, method_, params, meta, now);
    case Cancel(id) => CancellingSane(a, id);
    case Drain(order) => DrainMeans(a, order);
    case Take(now, order) => TakingMeans(a, now, order);
    case Start(now) => HandshakingSane(a, now);
    case Event(ev, parsed) => ReactedSane(a, ev, parsed);
    case Shutdown(now) => ShuttingDownSane(a, now);
  }

  function Run(a: Moment, calls: seq<Call>): Moment
    decreases |calls|
  {
    if calls == [] then a else After(Run(a, calls[..|calls| - 1]), calls[|calls| - 1])
  }

  /** Every call is one its moment allows. */
  ghost predicate Runs(a: Moment, calls: seq<Call>)
    decreases |calls|
  {
    calls == [] || (Runs(a, calls[..|calls| - 1]) && Legal(Run(a, calls[..|calls| - 1]), calls[|calls| - 1]))
  }

  lemma {:induction false} RunSane(a: Moment, calls: seq<Call>)
    requires Sane(a) && Runs(a, calls)
    ensures Sane(Run(a, calls)) && Onwards(a, Run(a, calls))
    decreases |calls|
  {
    if calls != [] {
      var init := calls[..|calls| - 1];
      RunSane(a, init);
      AfterSane(Run(a, init), calls[|calls| - 1]);
      OnwardsOn(a, Run(a, init), Run(a, calls));
    }
  }

  // ---- What is offered to the queue ----

  function Offered(a: Moment, c: Call): seq<Message> {
    if !a.state.Starting? then []
    else match c
      case Send(m) => [m]
      case Ask(method_, params, _, _) => [Request(IdInt(a.lastId + 1), method_, params)]
      case _ => []
  }

  /** Everything sent through the client while it was starting, in order. */
  function Offers(a: Moment, calls: seq<Call>): seq<Message>
    decreases |calls|
  {
    if calls == [] then []
    else var init := calls[..|calls| - 1];
         Offers(a, init) + Offered(Run(a, init), calls[|calls| - 1])
  }

  lemma AfterOffered(a: Moment, c: Call)
    requires Sane(a) && Legal(a, c)
    ensures After(a, c).offered == a.offered + Offered(a, c)
  {
    assert a.offered + [] == a.offered;
    match c
    case Drain(order) => DrainMeans(a, order);
    case Take(now, order) => TakingMeans(a, now, order);
    case _ =>
  }

  lemma {:induction false} RunOffers(a: Moment, calls: seq<Call>)
    requires Sane(a) && Runs(a, calls)
    ensures Run(a, calls).offered == a.offered + Offers(a, calls)
    decreases |calls|
  {
    if calls == [] {
      assert a.offered + [] == a.offered;
    } else {
      var init, last := calls[..|calls| - 1], calls[|calls| - 1];
      RunSane(a, init);
      RunOffers(a, init);
      AfterOffered(Run(a, init), last);
      Assoc(a.offered, Offers(a, init), Offered(Run(a, init), last));
    }
  }

  // ---- The flush ----

  /** A step from starting to running is the handshake's answer, and sends the flush. */
  lemma OnlyTheAnswerRuns(a: Moment, c: Call)
    requires Sane(a) && Legal(a, c) && a.state.Starting? && After(a, c).state.Running?
    ensures a.initializeId.Some? && c.Event? && c.ev.Inbound? && c.ev.m.Response?
            && c.ev.m.answers == a.initializeId.value && c.ev.m.result.Success? && c.parsed.Some?
    ensures After(a, c) == NowRunning(HandshakeOver(a, a.initializeId.value), c.ev.m.result.value, c.parsed.value)
  {
    match c
    case Drain(order) => DrainMeans(a, order);
    case Take(now, order) => TakingMeans(a, now, order);
    case _ =>
  }

  /** Over any run from a new client: what goes out when the handshake is answered is `initialized`, the settings if
      there are any, then all that was offered while starting, in order, short of exactly the requests cancelled or
      timed out since and of changes superseded; before it only `initialize` was sent, and the server ends up with the
      documents the whole of it would have left. */
  lemma FlushOfRun(settings: Option<Json>, initializeParams: Json, calls: seq<Call>, answer: Call)
    requires var a := Fresh(settings, initializeParams); Runs(a, calls + [answer])
    requires var a := Run(Fresh(settings, initializeParams), calls);
            a.state.Starting?
            && After(a, answer).state.Running?
    ensures var a := Run(Fresh(settings, initializeParams), calls);
            var b, offers := After(a, answer), Offers(Fresh(settings, initializeParams), calls);
            && b.wire == a.wire + Flush(settings, a.queued) && b.queued == []
            && (forall m :: m in a.wire ==> m.Request? && m.method_ == INITIALIZE)
            && Thinned(a.queued, offers, a.fates, None) && Lasting(a.queued, a.fates) == Lasting(offers, a.fates)
            && (forall m :: m in a.queued && m.Request? && Issuable(m.id) ==> m.id in a.fates && !Gone(a.fates, m.id))
            && SameMirrors(a.queued, offers)
  {
    var start := Fresh(settings, initializeParams);
    assert (calls + [answer])[..|calls|] == calls;
    FreshSane(settings, initializeParams);
    RunSane(start, calls);
    RunOffers(start, calls);
    var a, offers := Run(start, calls), Offers(start, calls);
    assert [] + offers == offers;
    OnlyTheAnswerRuns(a, answer);
    ThinnedLasting(a.queued, offers, a.fates, None);
  }

  /** What a step sends once the connection is lost or shut down: nothing but a handshake started anew. */
  lemma QuietAfterwards(a: Moment, c: Call)
    requires Sane(a) && Legal(a, c) && (a.state.Crashed? || a.state.Dead?)
    ensures Rank(After(a, c).state) >= Rank(a.state)
    ensures After(a, c).wire == a.wire + if c.Start? then [Request(IdInt(a.lastId + 1), INITIALIZE,
            a.initializeParams)] else []
  {
    assert a.wire + [] == a.wire;
    AfterSane(a, c);
    match c
    case Drain(order) => DrainMeans(a, order);
    case Take(now, order) => TakingMeans(a, now, order);
    case _ =>
  }

  /** A step that crashes a client sends nothing and empties its queue. */
  lemma CrashSendsNothing(a: Moment, c: Call)
    requires Sane(a) && Legal(a, c) && !a.state.Crashed? && After(a, c).state.Crashed?
    ensures After(a, c).wire == a.wire && After(a, c).queued == []
  {
    assert a.wire + [] == a.wire;
    match c
    case Drain(order) => DrainMeans(a, order);
    case Take(now, order) => TakingMeans(a, now, order);
    case _ =>
  }

  // ---- What becomes of a request ----

  predicate Answers(c: Call, id: RequestId) {
    c.Event? && c.ev.Inbound? && c.ev.m.Response? && c.ev.m.answers == id
  }

  /** How a step that takes a request off the books ends it. */
  function EndOf(a: Moment, c: Call, id: RequestId): Fate {
    match c
    case Cancel(_) => Cancelled
    case Drain(_) => Delivered(Stopped)
    case Take(_, _) => ToFate(a, id)
    case Event(Inbound(Response(_, result)), _) =>
      if a.initializeId == Some(id) then Handshake else Buffered(OutcomeOf(result))
    case _ => Waiting
  }

  /** A pending request goes by its own cancelling or answer, by a drain, or by a sweep it is due in. */
  lemma EndedBy(a: Moment, c: Call, id: RequestId)
    requires Sane(a) && Legal(a, c) && id in a.pending && id !in After(a, c).pending
    ensures c == Cancel(id) || c.Drain? || (c.Take? && id in DueIds(a, c.now)) || Answers(c, id)
    ensures id in After(a, c).fates && After(a, c).fates[id] == EndOf(a, c, id)
  {
    match c
    case Drain(order) => DrainMeans(a, order);
    case Take(now, order) => EndedByTake(a, now, order, id);
    case Cancel(_) =>
    case Event(ev, parsed) => EndedByEvent(a, ev, parsed, id);
    case Send(_) =>
    case Ask(_, _, _, _) =>
    case Start(_) =>
    case Shutdown(_) =>
  }

  lemma EndedByTake(a: Moment, now: nat, order: Order, id: RequestId)
    requires Sane(a) && Ordered(DueIds(a, now), order) && id in a.pending && id !in Taking(a, order).pending
    ensures id in DueIds(a, now) && id in Taking(a, order).fates && Taking(a, order).fates[id] == ToFate(a, id)
  {
    TakingMeans(a, now, order);
    assert PulledAll(a).initializeId == a.initializeId && id in order;
  }

  lemma EndedByEvent(a: Moment, ev: InboundEvent, parsed: Option<ServerCaps>, id: RequestId)
    requires id in a.pending && id in a.fates && id !in Reacted(a, ev, parsed).0.pending
    ensures var c, b := Event(ev, parsed), Reacted(a, ev, parsed).0;
            Answers(c, id) && id in b.fates && b.fates[id] == EndOf(a, c, id)
  {
  }

  /** A request is pending as soon as it is on the books. */
  lemma NewIsPending(a: Moment, c: Call, id: RequestId)
    requires Sane(a) && Legal(a, c) && id in After(a, c).fates && id !in a.fates
    ensures id in After(a, c).pending
  {
    match c
    case Drain(order) => DrainMeans(a, order);
    case Take(now, order) => TakeOpensNone(a, now, order);
    case Event(ev, parsed) => EventOpensNone(a, ev, parsed);
    case _ =>
  }

  lemma TakeOpensNone(a: Moment, now: nat, order: Order)
    requires Sane(a) && Ordered(DueIds(a, now), order)
    ensures Taking(a, order).fates.Keys <= a.fates.Keys
  {
    TakingMeans(a, now, order);
  }

  lemma EventOpensNone(a: Moment, ev: InboundEvent, parsed: Option<ServerCaps>)
    requires Sane(a)
    ensures Reacted(a, ev, parsed).0.fates.Keys <= a.fates.Keys
  {
    ReactedSane(a, ev, parsed);
  }

  lemma {:induction false} RunOn(a: Moment, calls: seq<Call>, k: nat)
    requires Sane(a) && Runs(a, calls) && k <= |calls|
    ensures Runs(a, calls[..k]) && Sane(Run(a, calls[..k])) && Onwards(Run(a, calls[..k]), Run(a, calls))
    decreases |calls|
  {
    if k == |calls| {
      assert calls[..k] == calls;
      RunSane(a, calls);
    } else {
      var init := calls[..|calls| - 1];
      RunOn(a, init, k);
      RunSane(a, init);
      assert init[..k] == calls[..k];
      AfterSane(Run(a, init), calls[|calls| - 1]);
      OnwardsOn(Run(a, calls[..k]), Run(a, init), Run(a, calls));
    }
  }

  lemma RunStep(a: Moment, calls: seq<Call>, k: nat)
    requires Sane(a) && Runs(a, calls) && k < |calls|
    ensures Legal(Run(a, calls[..k]), calls[k]) && Run(a, calls[..k + 1]) == After(Run(a, calls[..k]), calls[k])
  {
    RunOn(a, calls, k + 1);
    assert calls[..k + 1][..k] == calls[..k];
  }

  /** The call at which an ended request stopped being pending. */
  lemma {:induction false} LeftAt(a: Moment, calls: seq<Call>, id: RequestId) returns (k: nat)
    requires Sane(a) && Runs(a, calls) && id !in a.fates
    requires id in Run(a, calls).fates && id !in Run(a, calls).pending
    ensures k < |calls| && id in Run(a, calls[..k]).pending && id !in Run(a, calls[..k + 1]).pending
    decreases |calls|
  {
    var init := calls[..|calls| - 1];
    RunSane(a, init);
    if id in Run(a, init).pending {
      k := |init|;
      assert calls[..k + 1] == calls;
    } else {
      OnBooks(Run(a, init), calls[|calls| - 1], id);
      k := LeftAt(a, init, id);
      assert init[..k] == calls[..k] && init[..k + 1] == calls[..k + 1];
    }
  }

  lemma OnBooks(a: Moment, c: Call, id: RequestId)
    requires Sane(a) && Legal(a, c) && id in After(a, c).fates && id !in After(a, c).pending
    ensures id in a.fates
  {
    if id !in a.fates { NewIsPending(a, c, id); }
  }

  /** Once ended a request is never pending again. */
  lemma EndedStays(a: Moment, b: Moment, id: RequestId)
    requires Sane(a) && Sane(b) && Onwards(a, b) && id in a.fates && a.fates[id] != Waiting
    ensures id !in b.pending
  {
  }

  /** Drained while pending, or answered. */
  ghost predicate LetGo(a: Moment, calls: seq<Call>, k: nat, id: RequestId) {
    k < |calls| && id in Run(a, calls[..k]).pending && (calls[k].Drain? || Answers(calls[k], id))
  }

  lemma LetGoEnds(a: Moment, calls: seq<Call>, k: nat, id: RequestId)
    requires Sane(a) && Runs(a, calls) && LetGo(a, calls, k, id)
    ensures id !in Run(a, calls).pending
  {
    RunOn(a, calls, k);
    RunOn(a, calls, k + 1);
    RunStep(a, calls, k);
    RunSane(a, calls);
    LetGoNow(Run(a, calls[..k]), calls[k], id);
    EndedStays(Run(a, calls[..k + 1]), Run(a, calls), id);
  }

  lemma LetGoNow(a: Moment, c: Call, id: RequestId)
    requires Sane(a) && Legal(a, c) && id in a.pending && (c.Drain? || Answers(c, id))
    ensures id !in After(a, c).pending && id in After(a, c).fates && After(a, c).fates[id] != Waiting
  {
    if c.Drain? {
      DrainMeans(a, c.order);
    } else {
      AnswerLetsGo(a, c.ev.m, c.parsed);
    }
  }

  lemma AnswerLetsGo(a: Moment, m: Message, parsed: Option<ServerCaps>)
    requires m.Response? && m.answers in a.pending
    ensures var b := Responded(a, m.answers, m.result, parsed).0;
            m.answers !in b.pending && m.answers in b.fates && b.fates[m.answers] != Waiting
  {
  }

  /** A queued request is no longer pending exactly when it was drained as stopped or answered while queued: those
      are sent all the same. */
  lemma QueuedNotPending(settings: Option<Json>, initializeParams: Json, calls: seq<Call>, m: Message)
    requires var a := Fresh(settings, initializeParams);
             && Runs(a, calls) && Run(a, calls).state.Starting?
             && m in Run(a, calls).queued && m.Request? && Issuable(m.id)
    ensures var a := Fresh(settings, initializeParams);
            m.id !in Run(a, calls).pending <==> exists k: nat :: LetGo(a, calls, k, m.id)
  {
    var a := Fresh(settings, initializeParams);
    FreshSane(settings, initializeParams);
    RunSane(a, calls);
    var b := Run(a, calls);
    if m.id !in b.pending {
      var k := LeftAt(a, calls, m.id);
      RunOn(a, calls, k);
      RunOn(a, calls, k + 1);
      RunStep(a, calls, k);
      var before, c := Run(a, calls[..k]), calls[k];
      EndedBy(before, c, m.id);
      EndSettles(before, c, After(before, c), b, m.id);
      assert LetGo(a, calls, k, m.id);
    }
    if k: nat :| LetGo(a, calls, k, m.id) { LetGoEnds(a, calls, k, m.id); }
  }

  /** Cancelled, timed out or used up as the handshake, a request ends for good. */
  lemma EndSettles(a: Moment, c: Call, after: Moment, b: Moment, id: RequestId)
    requires Onwards(after, b) && id in after.fates && after.fates[id] == EndOf(a, c, id)
    requires id in b.fates && Live(b.fates[id])
    requires c == Cancel(id) || c.Drain? || c.Take? || Answers(c, id)
    ensures c.Drain? || Answers(c, id)
  {
  }

  /** Cancelled while pending, or swept up as due. */
  ghost predicate TakenBack(a: Moment, calls: seq<Call>, k: nat, id: RequestId) {
    && k < |calls| && id in Run(a, calls[..k]).pending
    && (calls[k] == Cancel(id)
        || (calls[k].Take? && id in DueIds(Run(a, calls[..k]), calls[k].now)
            && Run(a, calls[..k]).initializeId != Some(id)))
  }

  /** The requests the flush leaves out are those cancelled while pending and those a sweep timed out. */
  lemma GoneBy(settings: Option<Json>, initializeParams: Json, calls: seq<Call>, id: RequestId)
    requires Runs(Fresh(settings, initializeParams), calls)
    ensures var a := Fresh(settings, initializeParams);
            Gone(Run(a, calls).fates, id) <==> exists k: nat :: TakenBack(a, calls, k, id)
  {
    var a := Fresh(settings, initializeParams);
    FreshSane(settings, initializeParams);
    RunSane(a, calls);
    if Gone(Run(a, calls).fates, id) {
      var k := LeftAt(a, calls, id);
      RunOn(a, calls, k);
      RunOn(a, calls, k + 1);
      RunStep(a, calls, k);
      var before := Run(a, calls[..k]);
      EndedBy(before, calls[k], id);
      GoneSettles(before, calls[k], After(before, calls[k]), Run(a, calls), id);
      assert TakenBack(a, calls, k, id);
    }
    if k: nat :| TakenBack(a, calls, k, id) {
      RunOn(a, calls, k);
      RunOn(a, calls, k + 1);
      RunStep(a, calls, k);
      TakenBackNow(Run(a, calls[..k]), calls[k], id);
    }
  }

  lemma GoneSettles(a: Moment, c: Call, after: Moment, b: Moment, id: RequestId)
    requires Onwards(after, b) && id in after.fates && after.fates[id] == EndOf(a, c, id) && Gone(b.fates, id)
    requires c == Cancel(id) || c.Drain? || (c.Take? && id in DueIds(a, c.now)) || Answers(c, id)
    ensures c == Cancel(id) || (c.Take? && id in DueIds(a, c.now) && a.initializeId != Some(id))
  {
  }

  lemma TakenBackNow(a: Moment, c: Call, id: RequestId)
    requires Sane(a) && Legal(a, c) && id in a.pending
    requires c == Cancel(id) || (c.Take? && id in DueIds(a, c.now) && a.initializeId != Some(id))
    ensures Gone(After(a, c).fates, id) && Final(After(a, c).fates[id])
  {
    if c.Take? {
      TakingMeans(a, c.now, c.order);
      assert PulledAll(a).initializeId == a.initializeId;
    }
  }

  /** A request drained as stopped before the handshake is answered, and then sent. */
  lemma DrainedIsSent(settings: Option<Json>, initializeParams: Json, method_: string, params: Json, meta: RequestMeta,
                      result: Json, caps: ServerCaps) returns (calls: seq<Call>)
    ensures var a := Fresh(settings, initializeParams);
            && Runs(a, calls) && Run(a, calls).state.Running?
            && Run(a, calls).fates == map[IdInt(1) := Delivered(Stopped), IdInt(2) := Delivered(Stopped)]
            && Run(a, calls).wire == [Request(IdInt(1), INITIALIZE, initializeParams)]
                                     + Flush(settings, [Request(IdInt(2), method_, params)])
  {
    var a, order := Fresh(settings, initializeParams), [IdInt(1), IdInt(2)];
    var answer := Event(Inbound(Response(IdInt(1), Success(result))), Some(caps));
    var one, two := [Start(0)], [Start(0), Ask(method_, params, meta, 0)];
    var three := two + [Drain(order)];
    calls := three + [answer];
    var b := Requested(Handshaking(a, 0), method_, params, meta, 0);
    RunTwo(a, Start(0), Ask(method_, params, meta, 0), two);
    RunNext(a, two, Drain(order), three);
    AskedFirst(settings, initializeParams, method_, params, meta);
    StopTwo(b, IdInt(1), IdInt(2), order);
    AnswerFlushes(Run(a, three), IdInt(1), result, caps);
    RunNext(a, three, answer, calls);
  }

  lemma AskedFirst(settings: Option<Json>, initializeParams: Json, method_: string, params: Json, meta: RequestMeta)
    ensures var b := Requested(Handshaking(Fresh(settings, initializeParams), 0), method_, params, meta, 0);
            && b.state.Starting? && b.initializeId == Some(IdInt(1)) && b.settings == settings
            && b.pending.Keys == {IdInt(1), IdInt(2)} && b.fates == map[IdInt(1) := Waiting, IdInt(2) := Waiting]
            && b.queued == [Request(IdInt(2), method_, params)]
            && b.wire == [Request(IdInt(1), INITIALIZE, initializeParams)]
  {
  }

  lemma AnswerFlushes(a: Moment, id: RequestId, result: Json, caps: ServerCaps)
    requires a.state.Starting? && a.initializeId == Some(id) && id !in a.pending
    ensures var b := Reacted(a, Inbound(Response(id, Success(result))), Some(caps)).0;
            b.state.Running? && b.fates == a.fates && b.wire == a.wire + Flush(a.settings, a.queued)
  {
  }

  lemma RunNext(a: Moment, calls: seq<Call>, c: Call, more: seq<Call>)
    requires more == calls + [c] && Runs(a, calls)
    ensures Run(a, more) == After(Run(a, calls), c) && (Runs(a, more) <==> Legal(Run(a, calls), c))
  {
    assert more[..|more| - 1] == calls;
  }

  lemma RunTwo(a: Moment, c: Call, d: Call, calls: seq<Call>)
    requires calls == [c, d] && Legal(a, c) && Legal(After(a, c), d)
    ensures Runs(a, calls) && Run(a, calls) == After(After(a, c), d)
  {
    RunNext(a, [], c, [c]);
    RunNext(a, [c], d, calls);
  }

  lemma StopTwo(a: Moment, x: RequestId, y: RequestId, order: Order)
    requires order == [x, y]
    ensures StoppedAll(a, order) == Stopping(Stopping(a, x), y)
  {
    assert order[..1] == [x] && [x][..0] == [];
    assert StoppedAll(a, [x]) == Stopping(a, x);
  }

  // ---- What is handed out and reported ----

  /** The outcomes a call hands out. */
  function HandedOut(a: Moment, c: Call): seq<Done> {
    match c
    case Drain(order) => if forall id :: id in order ==> id in a.pending then Stops(a.pending, order) else []
    case Take(_, order) => if forall id :: id in order ==> id in a.pending then Taken(a, order) else []
    case _ => []
  }

  function AllHandedOut(a: Moment, calls: seq<Call>): seq<Done>
    decreases |calls|
  {
    if calls == [] then []
    else var init := calls[..|calls| - 1];
         AllHandedOut(a, init) + HandedOut(Run(a, init), calls[|calls| - 1])
  }

  lemma AfterHandsOut(a: Moment, c: Call)
    requires Sane(a) && Legal(a, c)
    ensures After(a, c).delivered == a.delivered + Ids(HandedOut(a, c))
  {
    assert Ids([]) == [] && a.delivered + [] == a.delivered;
    match c
    case Drain(order) => DrainMeans(a, order);
    case Take(now, order) => TakingMeans(a, now, order);
    case _ =>
  }

  lemma {:induction false} RunHandsOut(a: Moment, calls: seq<Call>)
    requires Sane(a) && Runs(a, calls)
    ensures Run(a, calls).delivered == a.delivered + Ids(AllHandedOut(a, calls))
    decreases |calls|
  {
    if calls == [] {
      assert a.delivered + Ids([]) == a.delivered;
    } else {
      var init, last := calls[..|calls| - 1], calls[|calls| - 1];
      RunSane(a, init);
      RunHandsOut(a, init);
      AfterHandsOut(Run(a, init), last);
      IdsConcat(AllHandedOut(a, init), HandedOut(Run(a, init), last));
      Assoc(a.delivered, Ids(AllHandedOut(a, init)), Ids(HandedOut(Run(a, init), last)));
    }
  }

  /** Over any run no request is handed out twice, and each one handed out is pending no more. */
  lemma HandedOutOnce(settings: Option<Json>, initializeParams: Json, calls: seq<Call>)
    requires Runs(Fresh(settings, initializeParams), calls)
    ensures var a := Fresh(settings, initializeParams);
            && NoDup(Ids(AllHandedOut(a, calls)))
            && forall id :: id in Ids(AllHandedOut(a, calls)) ==> id !in Run(a, calls).pending
  {
    var a := Fresh(settings, initializeParams);
    FreshSane(settings, initializeParams);
    RunSane(a, calls);
    RunHandsOut(a, calls);
    assert [] + Ids(AllHandedOut(a, calls)) == Ids(AllHandedOut(a, calls));
  }

  function Crashes(actions: seq<ClientAction>): nat {
    if |actions| == 1 && actions[0].ReportCrash? then 1 else 0
  }

  /** The crashes a call reports. */
  function Reported(a: Moment, c: Call): nat {
    match c
    case Take(_, order) => Crashes(TakingActions(a, order))
    case Event(ev, parsed) => Crashes(Reacted(a, ev, parsed).1)
    case _ => 0
  }

  function AllReported(a: Moment, calls: seq<Call>): nat
    decreases |calls|
  {
    if calls == [] then 0
    else AllReported(a, calls[..|calls| - 1]) + Reported(Run(a, calls[..|calls| - 1]), calls[|calls| - 1])
  }

  lemma AfterReports(a: Moment, c: Call)
    requires Sane(a) && Legal(a, c)
    ensures After(a, c).crashReports == a.crashReports + Reported(a, c)
  {
    match c
    case Drain(order) => DrainMeans(a, order);
    case Take(now, order) => TakeReports(a, now, order);
    case Event(ev, parsed) => EventReports(a, ev, parsed);
    case _ =>
  }

  lemma TakeReports(a: Moment, now: nat, order: Order)
    requires Sane(a) && Ordered(DueIds(a, now), order)
    ensures Taking(a, order).crashReports == a.crashReports + Crashes(TakingActions(a, order))
  {
    TakingMeans(a, now, order);
    assert HandshakeIn(PulledAll(a), order) == HandshakeIn(a, order);
  }

  lemma EventReports(a: Moment, ev: InboundEvent, parsed: Option<ServerCaps>)
    ensures Reacted(a, ev, parsed).0.crashReports == a.crashReports + Crashes(Reacted(a, ev, parsed).1)
  {
  }

  /** Over any run a crash is reported at most once. */
  lemma {:induction false} CrashReportedOnce(settings: Option<Json>, initializeParams: Json, calls: seq<Call>)
    requires Runs(Fresh(settings, initializeParams), calls)
    ensures var a := Fresh(settings, initializeParams);
            AllReported(a, calls) == Run(a, calls).crashReports <= 1
    decreases |calls|
  {
    var a := Fresh(settings, initializeParams);
    FreshSane(settings, initializeParams);
    RunSane(a, calls);
    if calls != [] {
      CrashReportedOnce(settings, initializeParams, calls[..|calls| - 1]);
      RunSane(a, calls[..|calls| - 1]);
      AfterReports(Run(a, calls[..|calls| - 1]), calls[|calls| - 1]);
    }
  }
}
