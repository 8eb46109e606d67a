/** What each step makes of a client, and what all of them keep. */
module ClientSteps {
  import opened Wrappers
  import opened Messages
  import opened Positions
  import opened HandshakeQueue
  import opened MessageWire
  import opened RequestFates

  datatype ServerState = Starting | Running | Crashed | Dead

  /** How far along its life a client is; it never goes back. */
  function Rank(s: ServerState): nat {
    match s case Starting => 0 case Running => 1 case Crashed => 2 case Dead => 3
  }

  datatype CrashReason =
    | ConnectionLost(error: Option<string>)
    | InitializeTimedOut
    | InitializeFailed(error_: ResponseError)
    | MalformedInitialize

  datatype ClientAction =
    | BecameRunning(send: seq<Message>)
    | ReportCrash(reason: CrashReason)
    | ServerRequest(id: RequestId, method_: string, params: Json)
    | ServerNotification(method_: string, params: Json)
    | StderrLine(line: string)

  datatype InboundEvent = Eof(error: Option<string>) | Inbound(m: Message) | Stderr(line: string)

  datatype SyncKind = NoSync | Full | Incremental

  /** What the typed decoding of an `initialize` result yields. */
  datatype ServerCaps = ServerCaps(positionEncoding: Option<PositionEncoding>, sync: Option<SyncKind>)

  function CancelNote(id: RequestId): Message {
    Notification(CANCEL, Obj(map["id" := IdJson(id)]))
  }

  /** The messages a finished handshake sends: `initialized`, the settings if there are any, then the queue. */
  function Flush(settings: Option<Json>, queued: seq<Message>): seq<Message> {
    [Notification(INITIALIZED, Obj(map[]))] + ConfigurationNote(settings) + queued
  }

  function ConfigurationNote(settings: Option<Json>): seq<Message> {
    match settings
    case Some(v) => [Notification(DID_CHANGE_CONFIGURATION, Obj(map["settings" := v]))]
    case None => []
  }

  function OutcomeOf(result: Result<Json, ResponseError>): Outcome {
    match result case Success(v) => Answer(v) case Failure(e) => Fault(e)
  }

  /** A client's state at one moment. `wire` is all that went to the server, the messages of `BecameRunning` included;
      `offered` everything offered to the queue while starting; `delivered` the ids in the order their outcomes were
      handed out. */
  datatype Moment = Moment(
    settings: Option<Json>, initializeParams: Json,
    state: ServerState, caps: Option<Json>, encoding: PositionEncoding, changeSync: Option<SyncKind>,
    queued: seq<Message>, initializeId: Option<RequestId>, lastId: nat, pending: map<RequestId, RequestMeta>,
    completed: seq<Done>, wire: seq<Message>, offered: seq<Message>, fates: Fates, delivered: seq<RequestId>,
    crashReports: nat)

  function Fresh(settings: Option<Json>, initializeParams: Json): Moment {
    Moment(settings, initializeParams, Starting, None, Utf16, Some(Full), [], None, 0, map[], [], [], [], map[], [], 0)
  }

  // ---- What a client may hold ----

  /** An id a client may give out itself. */
  predicate Issuable(id: RequestId) {
    id.IdInt? && id.n >= 1
  }

  /** Whether a queued message may still go out: a request of the client's own only while it was neither cancelled
      nor timed out, and never the handshake's. */
  predicate MaySend(m: Message, fates: Fates, initializeId: Option<RequestId>) {
    m.Request? && Issuable(m.id) ==> m.id in fates && Live(fates[m.id]) && initializeId != Some(m.id)
  }

  predicate Live(f: Fate) {
    !f.Cancelled? && !f.Handshake? && f != Delivered(TimedOut)
  }

  /** The queue is what was offered to it, thinned, and leaves a server with the same documents. */
  ghost predicate Holding(queued: seq<Message>, offered: seq<Message>, fates: Fates, initializeId: Option<RequestId>) {
    && Thinned(queued, offered, fates, None) && SameMirrors(queued, offered)
    && forall m :: m in queued ==> MaySend(m, fates, initializeId)
  }

  ghost predicate Sane(a: Moment) {
    && Fated(a.fates, a.lastId, a.pending, a.completed, a.delivered)
    && (a.initializeId.Some? ==> a.initializeId.value in a.fates && !a.fates[a.initializeId.value].Handshake?)
    && (a.state.Starting? ==> Holding(a.queued, a.offered, a.fates, a.initializeId))
    && (a.state.Running? || a.state.Crashed? ==> a.queued == [])
    && (a.state.Starting? ==> forall m :: m in a.wire ==> m.Request? && m.method_ == INITIALIZE)
    && a.crashReports <= 1 && (a.state.Crashed? ==> a.crashReports == 1)
    && (a.state.Starting? || a.state.Running? ==> a.crashReports == 0)
  }

  /** What every step keeps between its start and its end. */
  ghost predicate Onwards(a: Moment, b: Moment) {
    && Settles(a.fates, b.fates) && Rank(a.state) <= Rank(b.state) && a.delivered <= b.delivered
    && a.wire <= b.wire && a.crashReports <= b.crashReports && a.offered <= b.offered && a.lastId <= b.lastId
    && a.settings == b.settings && a.initializeParams == b.initializeParams
  }

  lemma OnwardsOn(a: Moment, b: Moment, c: Moment)
    requires Onwards(a, b) && Onwards(b, c)
    ensures Onwards(a, c)
  {
    SettlesOn(a.fates, b.fates, c.fates);
  }

  lemma FreshSane(settings: Option<Json>, initializeParams: Json)
    ensures Sane(Fresh(settings, initializeParams))
  {
    assert forall enc :: SameMirror([], [], enc);
  }

  lemma HoldMore(queued: seq<Message>, offered: seq<Message>, fates: Fates, initializeId: Option<RequestId>, m: Message)
    requires Holding(queued, offered, fates, initializeId) && MaySend(m, fates, initializeId)
    ensures Holding(Enqueued(queued, m), offered + [m], fates, initializeId)
  {
    EnqueueThins(queued, offered, fates, m);
    EnqueueMirrors(queued, offered, m);
    EnqueuedMembers(queued, m);
  }

  lemma EnqueuedMembers(queued: seq<Message>, m: Message)
    ensures forall x :: x in Enqueued(queued, m) ==> x in queued || x == m
  {
    if queued != [] { assert queued == queued[..|queued| - 1] + [queued[|queued| - 1]]; }
  }

  /** A request that goes leaves the queue. */
  lemma HoldWithout(queued: seq<Message>, offered: seq<Message>, fates: Fates, initializeId: Option<RequestId>,
                    id: RequestId, fates': Fates)
    requires Holding(queued, offered, fates, initializeId) && Gone(fates', id) && !Gone(fates, id)
    requires forall x :: x in fates && x != id ==> x in fates' && fates'[x] == fates[x]
    ensures Holding(WithoutRequest(queued, id), offered, fates', initializeId)
  {
    ThinnedStill(queued, offered, fates, fates', None, None);
    ThinnedWithout(queued, offered, fates', id, None);
    WithoutMirrors(queued, offered, id);
    WithoutMembers(queued, id);
  }

  /** New requests and answers leave the queue alone. */
  lemma HoldThrough(queued: seq<Message>, offered: seq<Message>, fates: Fates, initializeId: Option<RequestId>,
                    fates': Fates, initializeId': Option<RequestId>)
    requires Holding(queued, offered, fates, initializeId)
    requires initializeId' == initializeId || initializeId'.None?
             || (initializeId'.value !in fates && Issuable(initializeId'.value))
    requires forall x :: x in fates && initializeId != Some(x) ==>
             x in fates' && (fates'[x] == fates[x] || Live(fates'[x]))
    requires forall x :: Gone(fates, x) ==> Gone(fates', x)
    ensures Holding(queued, offered, fates', initializeId')
  {
    ThinnedStill(queued, offered, fates, fates', None, None);
  }

  // ---- Sending ----

  /** Sent now when running, queued while starting, dropped otherwise. */
  function Sent(a: Moment, m: Message): Moment {
    match a.state
    case Running => a.(wire := a.wire + [m])
    case Starting => a.(queued := Enqueued(a.queued, m), offered := a.offered + [m])
    case Crashed => a
    case Dead => a
  }

  lemma SentSane(a: Moment, m: Message)
    requires Sane(a) && MaySend(m, a.fates, a.initializeId)
    ensures Sane(Sent(a, m)) && Onwards(a, Sent(a, m))
  {
    if a.state.Starting? { HoldMore(a.queued, a.offered, a.fates, a.initializeId, m); }
  }

  /** A new id, on the books from now on. */
  function Opened(a: Moment, meta: RequestMeta): Moment {
    var id := IdInt(a.lastId + 1);
    a.(lastId := a.lastId + 1, pending := a.pending[id := meta], fates := a.fates[id := Waiting])
  }

  lemma OpenedSane(a: Moment, meta: RequestMeta)
    requires Sane(a)
    ensures IdInt(a.lastId + 1) !in a.fates && Sane(Opened(a, meta)) && Onwards(a, Opened(a, meta))
  {
    var id := IdInt(a.lastId + 1);
    Issue(a.fates, a.lastId, a.pending, a.completed, a.delivered, meta);
    if a.state.Starting? { HoldThrough(a.queued, a.offered, a.fates, a.initializeId, a.fates[id := Waiting],
        a.initializeId); }
  }

  /** On a lost connection a request is due at once. */
  function Clamped(a: Moment, meta: RequestMeta, now: nat): RequestMeta {
    if a.state.Crashed? || a.state.Dead? then meta.(deadline := now) else meta
  }

  function Requested(a: Moment, method_: string, params: Json, meta: RequestMeta, now: nat): Moment {
    Sent(Opened(a, Clamped(a, meta, now)), Request(IdInt(a.lastId + 1), method_, params))
  }

  lemma RequestedSane(a: Moment, method_: string, params: Json, meta: RequestMeta, now: nat)
    requires Sane(a)
    ensures var b := Requested(a, method_, params, meta, now); Sane(b) && Onwards(a, b)
  {
    var open := Opened(a, Clamped(a, meta, now));
    OpenedSane(a, Clamped(a, meta, now));
    SentSane(open, Request(IdInt(a.lastId + 1), method_, params));
    OnwardsOn(a, open, Requested(a, method_, params, meta, now));
  }

  /** The one request that is legal before the handshake is done. */
  function Handshaking(a: Moment, now: nat): Moment {
    var id := IdInt(a.lastId + 1);
    Opened(a, RequestMeta(INITIALIZE, now + INITIALIZE_TIMEOUT))
      .(initializeId := Some(id), wire := a.wire + [Request(id, INITIALIZE, a.initializeParams)])
  }

  lemma HandshakingSane(a: Moment, now: nat)
    requires Sane(a)
    ensures Sane(Handshaking(a, now)) && Onwards(a, Handshaking(a, now))
  {
    var id, meta := IdInt(a.lastId + 1), RequestMeta(INITIALIZE, now + INITIALIZE_TIMEOUT);
    OpenedSane(a, meta);
    if a.state.Starting? { HoldThrough(a.queued, a.offered, a.fates, a.initializeId, a.fates[id := Waiting],
        Some(id)); }
  }

  // ---- Ending requests ----

  function CancelSent(a: Moment, id: RequestId): Moment {
    if a.state.Running? then a.(wire := a.wire + [CancelNote(id)]) else a
  }

  /** A pending request that goes, out of the queue and, when it was sent, with a note to the server. */
  function Withdrawn(a: Moment, id: RequestId, fate: Fate): Moment {
    CancelSent(a.(pending := a.pending - {id}, fates := a.fates[id := fate], queued := WithoutRequest(a.queued, id)),
        id)
  }

  function Cancelling(a: Moment, id: RequestId): Moment {
    if id in a.pending then Withdrawn(a, id, Cancelled) else a
  }

  lemma CancellingSane(a: Moment, id: RequestId)
    requires Sane(a)
    ensures Sane(Cancelling(a, id)) && Onwards(a, Cancelling(a, id))
  {
    if id in a.pending {
      Forget(a.fates, a.lastId, a.pending, a.completed, a.delivered, id, Cancelled);
      if a.state.Starting? { HoldWithout(a.queued, a.offered, a.fates, a.initializeId, id, a.fates[id := Cancelled]); }
    }
  }

  /** A pending request stopped; one in the queue stays there. */
  function Stopping(a: Moment, id: RequestId): Moment {
    a.(pending := a.pending - {id}, fates := a.fates[id := Delivered(Stopped)], delivered := a.delivered + [id])
  }

  lemma StoppingSane(a: Moment, id: RequestId)
    requires Sane(a) && id in a.pending
    ensures Sane(Stopping(a, id)) && Onwards(a, Stopping(a, id))
  {
    var fates := a.fates[id := Delivered(Stopped)];
    HandOut(a.fates, a.lastId, a.pending, a.completed, a.delivered, id, Stopped);
    if a.state.Starting? { HoldThrough(a.queued, a.offered, a.fates, a.initializeId, fates, a.initializeId); }
  }

  /** Every buffered answer handed out. */
  function PulledAll(a: Moment): Moment {
    a.(completed := [], fates := Pulled(a.fates), delivered := a.delivered + Ids(a.completed))
  }

  lemma PulledSane(a: Moment)
    requires Sane(a)
    ensures Sane(PulledAll(a)) && Onwards(a, PulledAll(a))
  {
    Pull(a.fates, a.lastId, a.pending, a.completed, a.delivered);
    if a.state.Starting? { HoldThrough(a.queued, a.offered, a.fates, a.initializeId, Pulled(a.fates), a.initializeId); }
  }

  /** What was queued for the handshake is never sent. */
  function Crashing(a: Moment): Moment {
    a.(state := Crashed, queued := [], crashReports := a.crashReports + 1)
  }

  /** The handshake's request is off the books. */
  function HandshakeOver(a: Moment, id: RequestId): Moment {
    a.(initializeId := None, pending := a.pending - {id},
       fates := if id in a.pending then a.fates[id := Handshake] else a.fates)
  }

  lemma HandshakeOverSane(a: Moment, id: RequestId)
    requires Sane(a) && a.initializeId == Some(id)
    ensures Sane(HandshakeOver(a, id)) && Onwards(a, HandshakeOver(a, id))
  {
    if id in a.pending {
      Forget(a.fates, a.lastId, a.pending, a.completed, a.delivered, id, Handshake);
      if a.state.Starting? { HoldThrough(a.queued, a.offered, a.fates, Some(id), a.fates[id := Handshake], None); }
    } else if a.state.Starting? {
      HoldThrough(a.queued, a.offered, a.fates, Some(id), a.fates, None);
    }
  }

  lemma CrashingSane(a: Moment)
    requires Sane(a) && (a.state.Starting? || a.state.Running?)
    ensures Sane(Crashing(a)) && Onwards(a, Crashing(a))
  {
  }

  function HandshakeExpired(a: Moment, id: RequestId): Moment {
    var over := HandshakeOver(a, id);
    if a.state.Starting? then Crashing(over) else over
  }

  /** One due request ended: the handshake by a crash while starting, any other as timed out. */
  function Expired(a: Moment, id: RequestId): Moment {
    if a.initializeId == Some(id) then HandshakeExpired(a, id)
    else Withdrawn(a, id, Delivered(TimedOut)).(delivered := a.delivered + [id])
  }

  lemma ExpiredSane(a: Moment, id: RequestId)
    requires Sane(a) && id in a.pending
    ensures Sane(Expired(a, id)) && Onwards(a, Expired(a, id))
  {
    if a.initializeId == Some(id) {
      HandshakeOverSane(a, id);
      if a.state.Starting? {
        CrashingSane(HandshakeOver(a, id));
        OnwardsOn(a, HandshakeOver(a, id), Expired(a, id));
      }
    } else {
      var fates := a.fates[id := Delivered(TimedOut)];
      HandOut(a.fates, a.lastId, a.pending, a.completed, a.delivered, id, TimedOut);
      if a.state.Starting? { HoldWithout(a.queued, a.offered, a.fates, a.initializeId, id, fates); }
    }
  }

  // ---- Events ----

  /** The `initialize` result was taken while starting: running, with the flush sent, or crashed. */
  function Handshaken(a: Moment, result: Result<Json, ResponseError>, parsed: Option<ServerCaps>)
      : (Moment, seq<ClientAction>)
  {
    if result.Failure? then (Crashing(a), [ReportCrash(InitializeFailed(result.error))])
    else if parsed.None? then (Crashing(a), [ReportCrash(MalformedInitialize)])
    else (NowRunning(a, result.value, parsed.value), [BecameRunning(Flush(a.settings, a.queued))])
  }

  /** What an `initialize` result settles: only UTF-8 replaces UTF-16, and no sync kind means no changes. */
  function Negotiated(a: Moment, value: Json, parsed: ServerCaps): Moment {
    a.(caps := value.Get("capabilities"), encoding := if parsed.positionEncoding == Some(Utf8) then Utf8 else Utf16,
       changeSync := if parsed.sync == Some(NoSync) then None else parsed.sync)
  }

  function NowRunning(a: Moment, value: Json, parsed: ServerCaps): Moment {
    Negotiated(a, value, parsed).(state := Running, queued := [], wire := a.wire + Flush(a.settings, a.queued))
  }

  function Buffering(a: Moment, id: RequestId, outcome: Outcome): Moment
    requires id in a.pending
  {
    a.(completed := a.completed + [Done(id, a.pending[id], outcome)], pending := a.pending - {id},
       fates := a.fates[id := Buffered(outcome)])
  }

  function Responded(a: Moment, id: RequestId, result: Result<Json, ResponseError>, parsed: Option<ServerCaps>)
      : (Moment, seq<ClientAction>)
  {
    if a.initializeId == Some(id) then
      if a.state.Starting? then Handshaken(HandshakeOver(a, id), result, parsed) else (HandshakeOver(a, id), [])
    else if id in a.pending then (Buffering(a, id, OutcomeOf(result)), [])
    else (a, [])
  }

  /** One inbound event; `parsed` is what an `initialize` result decodes to. */
  function Reacted(a: Moment, ev: InboundEvent, parsed: Option<ServerCaps>): (Moment, seq<ClientAction>) {
    match ev
    case Eof(error) =>
      if a.state.Crashed? || a.state.Dead? then (a, []) else (Crashing(a), [ReportCrash(ConnectionLost(error))])
    case Stderr(line) => (a, [StderrLine(line)])
    case Inbound(Request(id, method_, params)) => (a, [ServerRequest(id, method_, params)])
    case Inbound(Notification(method_, params)) => (a, [ServerNotification(method_, params)])
    case Inbound(Response(id, result)) => Responded(a, id, result, parsed)
  }

  lemma HandshakenSane(a: Moment, result: Result<Json, ResponseError>, parsed: Option<ServerCaps>)
    requires Sane(a) && a.state.Starting?
    ensures Sane(Handshaken(a, result, parsed).0) && Onwards(a, Handshaken(a, result, parsed).0)
  {
    if result.Failure? || parsed.None? { CrashingSane(a); }
  }

  lemma BufferingSane(a: Moment, id: RequestId, outcome: Outcome)
    requires Sane(a) && id in a.pending && FromServer(outcome) && a.initializeId != Some(id)
    ensures Sane(Buffering(a, id, outcome)) && Onwards(a, Buffering(a, id, outcome))
  {
    var fates := a.fates[id := Buffered(outcome)];
    Buffer(a.fates, a.lastId, a.pending, a.completed, a.delivered, id, outcome);
    if a.state.Starting? { HoldThrough(a.queued, a.offered, a.fates, a.initializeId, fates, a.initializeId); }
  }

  lemma RespondedSane(a: Moment, id: RequestId, result: Result<Json, ResponseError>, parsed: Option<ServerCaps>)
    requires Sane(a)
    ensures Sane(Responded(a, id, result, parsed).0) && Onwards(a, Responded(a, id, result, parsed).0)
  {
    if a.initializeId == Some(id) {
      HandshakeOverSane(a, id);
      if a.state.Starting? {
        HandshakenSane(HandshakeOver(a, id), result, parsed);
        OnwardsOn(a, HandshakeOver(a, id), Responded(a, id, result, parsed).0);
      }
    } else if id in a.pending {
      BufferingSane(a, id, OutcomeOf(result));
    }
  }

  lemma ReactedSane(a: Moment, ev: InboundEvent, parsed: Option<ServerCaps>)
    requires Sane(a)
    ensures Sane(Reacted(a, ev, parsed).0) && Onwards(a, Reacted(a, ev, parsed).0)
  {
    if ev.Inbound? && ev.m.Response? { RespondedSane(a, ev.m.answers, ev.m.result, parsed); }
    if ev.Eof? && (a.state.Starting? || a.state.Running?) { CrashingSane(a); }
  }

  // ---- Shutting down ----

  /** Only a running client tells the server. */
  function ShuttingDown(a: Moment, now: nat): Moment {
    var id := IdInt(a.lastId + 1);
    if a.state.Running? then
      Opened(a, RequestMeta(SHUTDOWN, now + SHUTDOWN_TIMEOUT))
        .(wire := a.wire + [Request(id, SHUTDOWN, Null), Notification(EXIT, Null)], state := Dead)
    else a.(state := Dead)
  }

  lemma ShuttingDownSane(a: Moment, now: nat)
    requires Sane(a)
    ensures Sane(ShuttingDown(a, now)) && Onwards(a, ShuttingDown(a, now))
  {
    OpenedSane(a, RequestMeta(SHUTDOWN, now + SHUTDOWN_TIMEOUT));
  }
}
