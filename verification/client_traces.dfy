/** What a run of a client puts on the wire, what it settles with the server, and what it hands out: each read off the
    calls made. */
module ClientTraces {
  import opened Wrappers
  import opened Sequences
  import opened Messages
  import opened Positions
  import opened MessageWire
  import opened RequestFates
  import opened ClientSteps
  import opened ClientSweeps
  import opened ClientRuns

  // ---- The wire ----

  function CancelMessage(id: RequestId): Message {
    Notification("$/cancelRequest", Obj(map["id" := IdJson(id)]))
  }

  /** A cancel note for each id but the handshake's. */
  function NotesFor(ids: Order, handshake: Option<RequestId>): seq<Message>
    decreases |ids|
  {
    if ids == [] then []
    else
      var last := ids[|ids| - 1];
      NotesFor(ids[..|ids| - 1], handshake) + if handshake == Some(last) then [] else [CancelMessage(last)]
  }

  /** The handshake's answer, taken while starting: `initialized`, the settings, and all that was queued. */
  function FlushMessages(settings: Option<Json>, queued: seq<Message>): seq<Message> {
    [Notification("initialized", Obj(map[]))]
    + (if settings.Some?
       then [Notification("workspace/didChangeConfiguration", Obj(map["settings" := settings.value]))] else [])
    + queued
  }

  /** The call answers the handshake with a result that decodes. */
  predicate Accepts(a: Moment, c: Call) {
    && a.state.Starting? && c.Event? && c.ev.Inbound? && c.ev.m.Response? && a.initializeId == Some(c.ev.m.answers)
    && c.ev.m.result.Success? && c.parsed.Some?
  }

  /** What a call puts on the wire. */
  function WireOf(a: Moment, c: Call): seq<Message> {
    if c.Start? then [Request(IdInt(a.lastId + 1), "initialize", a.initializeParams)]
    else if Accepts(a, c) then FlushMessages(a.settings, a.queued)
    else if !a.state.Running? then []
    else match c
      case Send(m) => [m]
      case Ask(method_, params, _, _) => [Request(IdInt(a.lastId + 1), method_, params)]
      case Cancel(id) => if id in a.pending then [CancelMessage(id)] else []
      case Take(_, order) => NotesFor(order, a.initializeId)
      case Shutdown(_) => [Request(IdInt(a.lastId + 1), "shutdown", Null), Notification("exit", Null)]
      case _ => []
  }

  /** What the calls put on the wire, one after the other. */
  function Wired(a: Moment, calls: seq<Call>): seq<Message>
    decreases |calls|
  {
    if calls == [] then []
    else var init := calls[..|calls| - 1];
         Wired(a, init) + WireOf(Run(a, init), calls[|calls| - 1])
  }

  lemma {:induction false} NotesAre(ids: Order, handshake: Option<RequestId>)
    ensures NotesFor(ids, handshake) == CancelNotes(Others(ids, handshake))
    decreases |ids|
  {
    if ids != [] {
      var init, last := ids[..|ids| - 1], ids[|ids| - 1];
      NotesAre(init, handshake);
      CancelNotesPush(Others(init, handshake), last);
      assert Others(init, handshake) + [] == Others(init, handshake);
    }
  }

  lemma TakeWires(a: Moment, now: nat, order: Order)
    requires Sane(a) && Ordered(DueIds(a, now), order)
    ensures Taking(a, order).wire == a.wire + if a.state.Running? then NotesFor(order, a.initializeId) else []
  {
    TakingMeans(a, now, order);
    NotesAre(order, a.initializeId);
  }

  lemma EventWires(a: Moment, ev: InboundEvent, parsed: Option<ServerCaps>)
    ensures Reacted(a, ev, parsed).0.wire
         == a.wire + if Accepts(a, Event(ev, parsed)) then FlushMessages(a.settings, a.queued) else []
  {
    assert a.wire + [] == a.wire;
    assert FlushMessages(a.settings, a.queued) == Flush(a.settings, a.queued);
  }

  lemma CallWires(a: Moment, c: Call)
    requires Sane(a) && Legal(a, c)
    ensures After(a, c).wire == a.wire + WireOf(a, c)
  {
    assert a.wire + [] == a.wire;
    match c
    case Drain(order) => DrainMeans(a, order);
    case Take(now, order) => TakeWires(a, now, order);
    case Event(ev, parsed) => EventWires(a, ev, parsed);
    case _ =>
  }

  /** Over any run the wire holds, in call order, just what each call sends: what is sent or asked for while running,
      the notes of requests cancelled or swept then, each handshake and its flush, and the shutdown pair. */
  lemma {:induction false} WireOfRun(a: Moment, calls: seq<Call>)
    requires Sane(a) && Runs(a, calls)
    ensures Run(a, calls).wire == a.wire + Wired(a, calls)
    decreases |calls|
  {
    if calls == [] {
      assert a.wire + [] == a.wire;
    } else {
      var init, last := calls[..|calls| - 1], calls[|calls| - 1];
      WireOfRun(a, init);
      RunSane(a, init);
      CallWires(Run(a, init), last);
      Assoc(a.wire, Wired(a, init), WireOf(Run(a, init), last));
    }
  }

  // ---- What is settled with the server ----

  /** What a client takes for agreed: UTF-16 and full changes until a handshake says otherwise. */
  ghost predicate Agreed(b: Moment, result: Option<Json>, caps: Option<ServerCaps>) {
    && b.encoding == (if caps.Some? && caps.value.positionEncoding == Some(Utf8) then Utf8 else Utf16)
    && b.changeSync == (if caps.None? then Some(Full)
                        else if caps.value.sync.None? || caps.value.sync.value.NoSync? then None
                        else caps.value.sync)
    && b.caps == (if result.None? then None else result.value.Get("capabilities"))
  }

  lemma CallAgrees(a: Moment, c: Call, result: Option<Json>, caps: Option<ServerCaps>)
    requires Sane(a) && Legal(a, c) && Agreed(a, result, caps) && !Accepts(a, c)
    ensures Agreed(After(a, c), result, caps)
  {
    match c
    case Drain(order) => DrainMeans(a, order);
    case Take(now, order) => TakingMeans(a, now, order);
    case Event(ev, parsed) => EventAgrees(a, ev, parsed);
    case _ =>
  }

  lemma EventAgrees(a: Moment, ev: InboundEvent, parsed: Option<ServerCaps>)
    requires !Accepts(a, Event(ev, parsed))
    ensures var b := Reacted(a, ev, parsed).0;
            b.encoding == a.encoding && b.changeSync == a.changeSync && b.caps == a.caps
  {
  }

  lemma AcceptAgrees(a: Moment, c: Call)
    requires Accepts(a, c)
    ensures After(a, c).state.Running? && Agreed(After(a, c), Some(c.ev.m.result.value), c.parsed)
  {
  }

  /** The one answer a run accepted, if any. */
  ghost predicate Accepted(a: Moment, calls: seq<Call>, k: nat) {
    k < |calls| && Accepts(Run(a, calls[..k]), calls[k])
  }

  /** No call after `k` accepts an answer: the client never starts again. */
  lemma AcceptsOnce(a: Moment, calls: seq<Call>, k: nat, j: nat)
    requires Sane(a) && Runs(a, calls) && Accepted(a, calls, k) && k < j <= |calls|
    ensures !Run(a, calls[..j]).state.Starting?
  {
    RunStep(a, calls, k);
    RunOn(a, calls, j);
    RunOn(a, calls[..j], k + 1);
    assert calls[..j][..k + 1] == calls[..k + 1];
    AcceptAgrees(Run(a, calls[..k]), calls[k]);
  }

  lemma CallsBefore(calls: seq<Call>, init: seq<Call>, last: Call, k: nat)
    requires calls == init + [last] && k < |calls|
    ensures if k < |init| then init[..k] == calls[..k] && init[k] == calls[k]
            else calls[..k] == init && calls[k] == last
  {
  }

  lemma {:induction false} AgreedFrom(a: Moment, calls: seq<Call>, k: nat)
    requires Sane(a) && Runs(a, calls) && Accepted(a, calls, k)
    ensures Agreed(Run(a, calls), Some(calls[k].ev.m.result.value), calls[k].parsed)
    decreases |calls|
  {
    var init, last := calls[..|calls| - 1], calls[|calls| - 1];
    assert calls == init + [last];
    CallsBefore(calls, init, last, k);
    if k == |init| {
      AcceptAgrees(Run(a, init), last);
    } else {
      AgreedFrom(a, init, k);
      AcceptsOnce(a, calls, k, |init|);
      RunSane(a, init);
      CallAgrees(Run(a, init), last, Some(calls[k].ev.m.result.value), calls[k].parsed);
    }
  }

  /** Over any run the position encoding, the kind of changes and the capabilities are those of the accepted answer:
      only UTF-8 replaces UTF-16, and no sync kind means no changes. */
  lemma NegotiatedOfRun(settings: Option<Json>, initializeParams: Json, calls: seq<Call>, k: nat)
    requires Runs(Fresh(settings, initializeParams), calls) && Accepted(Fresh(settings, initializeParams), calls, k)
    ensures var b := Run(Fresh(settings, initializeParams), calls);
            && b.encoding == (if calls[k].parsed.value.positionEncoding == Some(Utf8) then Utf8 else Utf16)
            && Agreed(b, Some(calls[k].ev.m.result.value), calls[k].parsed)
  {
    FreshSane(settings, initializeParams);
    AgreedFrom(Fresh(settings, initializeParams), calls, k);
  }

  /** Until an answer is accepted: UTF-16, full changes, no capabilities. */
  lemma {:induction false} UnnegotiatedRun(settings: Option<Json>, initializeParams: Json, calls: seq<Call>)
    requires Runs(Fresh(settings, initializeParams), calls)
    requires forall k: nat :: !Accepted(Fresh(settings, initializeParams), calls, k)
    ensures Agreed(Run(Fresh(settings, initializeParams), calls), None, None)
    decreases |calls|
  {
    var a := Fresh(settings, initializeParams);
    FreshSane(settings, initializeParams);
    if calls != [] {
      var init, last := calls[..|calls| - 1], calls[|calls| - 1];
      AcceptedBefore(a, calls, init, last);
      UnnegotiatedRun(settings, initializeParams, init);
      RunSane(a, init);
      CallAgrees(Run(a, init), last, None, None);
    }
  }

  lemma AcceptedBefore(a: Moment, calls: seq<Call>, init: seq<Call>, last: Call)
    requires calls == init + [last] && forall k: nat :: !Accepted(a, calls, k)
    ensures (forall k: nat :: !Accepted(a, init, k)) && !Accepts(Run(a, init), last)
  {
    forall k: nat ensures !Accepted(a, init, k) {
      if k < |init| {
        assert init[..k] == calls[..k] && init[k] == calls[k];
        assert !Accepted(a, calls, k);
      }
    }
    assert calls[..|init|] == init && !Accepted(a, calls, |init|);
  }

  // ---- What is handed out ----

  /** A request asked for is pending under the next id with the deadline given, on a lost connection with none but
      now. */
  lemma AskIsPending(a: Moment, method_: string, params: Json, meta: RequestMeta, now: nat)
    ensures var (b, id) := (After(a, Ask(method_, params, meta, now)), IdInt(a.lastId + 1));
            && b.lastId == a.lastId + 1 && id in b.pending && b.pending[id].method_ == meta.method_
            && b.pending[id].deadline == (if a.state.Crashed? || a.state.Dead? then now else meta.deadline)
            && (forall other :: other != id ==>
                  (other in b.pending <==> other in a.pending)
                  && (other in a.pending ==> b.pending[other] == a.pending[other]))
  {
  }

  /** Asked on a lost connection, a request is handed out as timed out by the next sweep. */
  lemma LostAskTimesOut(a: Moment, method_: string, params: Json, meta: RequestMeta, now: nat, later: nat, order: Order)
    requires Sane(a) && (a.state.Crashed? || a.state.Dead?) && now <= later
    requires Ordered(DueIds(After(a, Ask(method_, params, meta, now)), later), order)
    ensures var (b, id) := (After(a, Ask(method_, params, meta, now)), IdInt(a.lastId + 1));
            b.wire == a.wire && Done(id, RequestMeta(meta.method_, now), TimedOut) in Taken(b, order)
  {
    var b, id := After(a, Ask(method_, params, meta, now)), IdInt(a.lastId + 1);
    AfterSane(a, Ask(method_, params, meta, now));
    AskIsPending(a, method_, params, meta, now);
    OpenedSane(a, meta);
    TakenAre(b, later, order, Done(id, RequestMeta(meta.method_, now), TimedOut));
  }

  /** A pending request that is answered is handed out with the answer, an error as a fault. */
  lemma AnswerHandedOut(a: Moment, id: RequestId, result: Result<Json, ResponseError>, parsed: Option<ServerCaps>,
                        now: nat, order: Order)
    requires Sane(a) && id in a.pending && a.initializeId != Some(id)
    requires Ordered(DueIds(After(a, Event(Inbound(Response(id, result)), parsed)), now), order)
    ensures var b := After(a, Event(Inbound(Response(id, result)), parsed));
            && id !in b.pending
            && match result
               case Success(v) => Done(id, a.pending[id], Answer(v)) in Taken(b, order)
               case Failure(e) => Done(id, a.pending[id], Fault(e)) in Taken(b, order)
  {
    var b := After(a, Event(Inbound(Response(id, result)), parsed));
    var d := Done(id, a.pending[id], match result case Success(v) => Answer(v) case Failure(e) => Fault(e));
    assert b.completed[|a.completed|] == d;
    TakenAre(b, now, order, d);
  }

  /** The client's own requests: a handshake is due in thirty seconds and a shutdown in five, and only a running client
      asks for one before it is dead. */
  lemma OwnRequests(a: Moment, now: nat)
    ensures var (b, d, id) := (After(a, Start(now)), After(a, Shutdown(now)), IdInt(a.lastId + 1));
            && b.initializeId == Some(id) && b.pending == a.pending[id := RequestMeta("initialize", now + 30_000)]
            && d.state.Dead? && d.queued == a.queued
            && d.pending == if a.state.Running? then a.pending[id := RequestMeta("shutdown", now + 5_000)]
                else a.pending
  {
  }

  // ---- What is handed up ----

  /** The actions a call hands to its caller. */
  function ActionsOf(a: Moment, c: Call): seq<ClientAction> {
    match c
    case Event(ev, parsed) => Reacted(a, ev, parsed).1
    case Take(_, order) => TakingActions(a, order)
    case _ => []
  }

  function HandedUp(a: Moment, calls: seq<Call>): seq<ClientAction>
    decreases |calls|
  {
    if calls == [] then []
    else var init := calls[..|calls| - 1];
         HandedUp(a, init) + ActionsOf(Run(a, init), calls[|calls| - 1])
  }

  predicate OfServer(x: ClientAction) {
    x.ServerRequest? || x.ServerNotification? || x.StderrLine?
  }

  /** What the server itself asked or told, in order. */
  function FromServerOnly(actions: seq<ClientAction>): seq<ClientAction> {
    if actions == [] then [] else (if OfServer(actions[0]) then [actions[0]] else []) + FromServerOnly(actions[1..])
  }

  /** What the server asked or told by an event, whatever the client's state. */
  function Told(c: Call): seq<ClientAction> {
    if !c.Event? then []
    else match c.ev
      case Inbound(Request(id, method_, params)) => [ServerRequest(id, method_, params)]
      case Inbound(Notification(method_, params)) => [ServerNotification(method_, params)]
      case Stderr(line) => [StderrLine(line)]
      case _ => []
  }

  function ToldBy(calls: seq<Call>): seq<ClientAction>
    decreases |calls|
  {
    if calls == [] then [] else ToldBy(calls[..|calls| - 1]) + Told(calls[|calls| - 1])
  }

  lemma {:induction false} ServerConcat(x: seq<ClientAction>, y: seq<ClientAction>)
    ensures FromServerOnly(x + y) == FromServerOnly(x) + FromServerOnly(y)
    decreases |x|
  {
    if x == [] {
      assert x + y == y;
    } else {
      assert (x + y)[1..] == x[1..] + y;
      ServerConcat(x[1..], y);
    }
  }

  lemma CallPassesOn(a: Moment, c: Call)
    ensures FromServerOnly(ActionsOf(a, c)) == Told(c) && (Told(c) != [] ==> After(a, c) == a)
  {
    var actions := ActionsOf(a, c);
    if |actions| == 1 { assert actions[1..] == []; }
  }

  /** Over any run the server's requests, notifications and log lines are handed up in order, each once, and nothing
      in their place. */
  lemma {:induction false} PassedOn(a: Moment, calls: seq<Call>)
    ensures FromServerOnly(HandedUp(a, calls)) == ToldBy(calls)
    decreases |calls|
  {
    if calls != [] {
      var init, last := calls[..|calls| - 1], calls[|calls| - 1];
      PassedOn(a, init);
      CallPassesOn(Run(a, init), last);
      ServerConcat(HandedUp(a, init), ActionsOf(Run(a, init), last));
    }
  }

  /** What the client reports of itself: that it runs, with all it flushed, and why it crashed. */
  lemma OwnReports(a: Moment, c: Call)
    ensures Accepts(a, c) ==> ActionsOf(a, c) == [BecameRunning(FlushMessages(a.settings, a.queued))]
    ensures c.Event? && c.ev.Eof? ==>
              ActionsOf(a, c) == if a.state.Starting? || a.state.Running? then [ReportCrash(ConnectionLost(c.ev.error))]
                                 else []
    ensures c.Event? && c.ev.Inbound? && c.ev.m.Response? && !Accepts(a, c) ==>
              ActionsOf(a, c)
              == if !a.state.Starting? || a.initializeId != Some(c.ev.m.answers) then []
                 else match c.ev.m.result
                   case Failure(e) => [ReportCrash(InitializeFailed(e))]
                   case Success(_) => [ReportCrash(MalformedInitialize)]
    ensures c.Take? ==>
              ActionsOf(a, c)
              == if a.state.Starting? && a.initializeId.Some? && a.initializeId.value in c.order
                 then [ReportCrash(InitializeTimedOut)] else []
  {
    assert FlushMessages(a.settings, a.queued) == Flush(a.settings, a.queued);
  }
}
