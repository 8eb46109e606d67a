/** What a client holds back until the handshake is done, and what the server makes of it. */
module HandshakeQueue {
  import opened Wrappers
  import opened Messages
  import opened Positions
  import opened RequestFates

  // ---- Method names ----

  const INITIALIZE := "initialize"
  const INITIALIZED := "initialized"
  const SHUTDOWN := "shutdown"
  const EXIT := "exit"
  const CANCEL := "$/cancelRequest"
  const DID_OPEN := "textDocument/didOpen"
  const DID_CHANGE := "textDocument/didChange"
  const DID_CLOSE := "textDocument/didClose"
  const DID_CHANGE_CONFIGURATION := "workspace/didChangeConfiguration"

  const INITIALIZE_TIMEOUT: nat := 30_000

  const SHUTDOWN_TIMEOUT: nat := 5_000

  // ---- What a server makes of document notifications ----

  datatype Document = Document(version: Json, text: string)

  type Docs = map<string, Document>

  function UriOf(params: Json): Option<string> {
    var uri := params.At("textDocument").At("uri");
    if uri.Str? then Some(uri.s) else None
  }

  function TextOf(v: Json): string {
    if v.Str? then v.s else ""
  }

  function PosOf(v: Json): WirePos {
    var (line, character) := (v.At("line"), v.At("character"));
    WirePos(if line.Int? && line.n >= 0 then line.n else 0, if character.Int?
        && character.n >= 0 then character.n else 0)
  }

  /** One content change: without a range the whole text, with one what lies in it. */
  function Changed(text: string, change: Json, enc: PositionEncoding): string {
    match change.Get("range")
    case None => TextOf(change.At("text"))
    case Some(range) =>
      var (from, to) := (WireToChar(text, PosOf(range.At("start")), enc),
          WireToChar(text, PosOf(range.At("end")), enc));
      if from <= to then text[..from] + TextOf(change.At("text")) + text[to..] else text
  }

  function ChangedAll(text: string, changes: seq<Json>, enc: PositionEncoding): string
    decreases |changes|
  {
    if changes == [] then text else ChangedAll(Changed(text, changes[0], enc), changes[1..], enc)
  }

  function ChangesOf(params: Json): seq<Json> {
    var v := params.At("contentChanges");
    if v.Arr? then v.items else []
  }

  /** The server's documents after one message. */
  function Seen(docs: Docs, m: Message, enc: PositionEncoding): Docs {
    if !m.Notification? || UriOf(m.params).None? then docs
    else
      var uri, doc := UriOf(m.params).value, m.params.At("textDocument");
      if m.method_ == DID_OPEN then docs[uri := Document(doc.At("version"), TextOf(doc.At("text")))]
      else if m.method_ == DID_CLOSE then docs - {uri}
      else if m.method_ == DID_CHANGE && uri in docs then
        docs[uri := Document(doc.At("version"), ChangedAll(docs[uri].text, ChangesOf(m.params), enc))]
      else docs
  }

  function SeenAll(docs: Docs, ms: seq<Message>, enc: PositionEncoding): Docs
    decreases |ms|
  {
    if ms == [] then docs else Seen(SeenAll(docs, ms[..|ms| - 1], enc), ms[|ms| - 1], enc)
  }

  // ---- Coalescing ----

  predicate IsDidChange(m: Message) {
    m.Notification? && m.method_ == DID_CHANGE
  }

  predicate WholeDocument(params: Json) {
    var v := params.At("contentChanges");
    v.Arr? && |v.items| == 1 && v.items[0].Get("range").None?
  }

  /** `next` makes `last` redundant: it replaces the whole text of the document `last` changed. */
  predicate Supersedes(last: Message, next: Message) {
    && last.Notification? && next.Notification?
    && last.method_ == DID_CHANGE && next.method_ == DID_CHANGE && WholeDocument(next.params)
    && var uri := next.params.At("textDocument").At("uri");
       uri.Str? && last.params.At("textDocument").At("uri") == uri
  }

  /** The server ends up with the same documents whether or not it sees the superseded change. */
  lemma SupersededUnseen(docs: Docs, last: Message, next: Message, enc: PositionEncoding)
    requires Supersedes(last, next)
    ensures Seen(Seen(docs, last, enc), next, enc) == Seen(docs, next, enc)
  {
    var changes, uri := ChangesOf(next.params), UriOf(next.params).value;
    assert changes[1..] == [];
    if uri in docs {
      WholeIgnoresText(docs[uri].text, Seen(docs, last, enc)[uri].text, changes, enc);
    }
  }

  lemma WholeIgnoresText(a: string, b: string, changes: seq<Json>, enc: PositionEncoding)
    requires |changes| == 1 && changes[0].Get("range").None?
    ensures ChangedAll(a, changes, enc) == ChangedAll(b, changes, enc)
  {
    assert changes[1..] == [];
  }

  lemma SeenPush(docs: Docs, ms: seq<Message>, m: Message, after: seq<Message>, enc: PositionEncoding)
    requires after == ms + [m]
    ensures SeenAll(docs, after, enc) == Seen(SeenAll(docs, ms, enc), m, enc)
  {
    assert after[..|after| - 1] == ms;
  }

  /** Both leave a server with the same documents, whatever it held. */
  ghost predicate SameMirror(a: seq<Message>, b: seq<Message>, enc: PositionEncoding) {
    forall docs :: SeenAll(docs, a, enc) == SeenAll(docs, b, enc)
  }

  ghost predicate SameMirrors(a: seq<Message>, b: seq<Message>) {
    forall enc :: SameMirror(a, b, enc)
  }

  // ---- The queue ----

  function Enqueued(queued: seq<Message>, m: Message): seq<Message> {
    if queued != [] && Supersedes(queued[|queued| - 1], m) then queued[..|queued| - 1] + [m] else queued + [m]
  }

  /** The queue without the request `id`, in order. */
  function WithoutRequest(queued: seq<Message>, id: RequestId): seq<Message>
    decreases |queued|
  {
    if queued == [] then []
    else
      var last := queued[|queued| - 1];
      WithoutRequest(queued[..|queued| - 1], id) + if last.Request? && last.id == id then [] else [last]
  }

  predicate Replaces(next: Option<Message>, m: Message) {
    next.Some? && Supersedes(m, next.value)
  }

  /** `queued` is `offered` in order, short of exactly the requests that are gone and of changes the message kept
      next supersedes; `next` is what the queue goes on with. */
  ghost predicate Thinned(queued: seq<Message>, offered: seq<Message>, fates: Fates, next: Option<Message>)
    decreases |offered|
  {
    if offered == [] then queued == []
    else
      var last, before := offered[|offered| - 1], offered[..|offered| - 1];
      || (queued != [] && queued[|queued| - 1] == last && Thinned(queued[..|queued| - 1], before, fates, Some(last)))
      || (last.Request? && Gone(fates, last.id) && Thinned(queued, before, fates, next))
      || (Replaces(next, last) && Thinned(queued, before, fates, next))
  }

  lemma ThinnedPush(queued: seq<Message>, offered: seq<Message>, fates: Fates, m: Message, next: Option<Message>,
                    q: seq<Message>, o: seq<Message>)
    requires Thinned(queued, offered, fates, Some(m)) && q == queued + [m] && o == offered + [m]
    ensures Thinned(q, o, fates, next)
  {
    assert q[..|q| - 1] == queued && o[..|o| - 1] == offered;
  }

  /** What follows the queue may change for a message that supersedes as much, and more requests may be gone. */
  lemma {:induction false} ThinnedStill(queued: seq<Message>, offered: seq<Message>, fates: Fates, fates': Fates,
                                        next: Option<Message>, next': Option<Message>)
    requires Thinned(queued, offered, fates, next) && forall x :: Replaces(next, x) ==> Replaces(next', x)
    requires forall id :: Gone(fates, id) ==> Gone(fates', id)
    ensures Thinned(queued, offered, fates', next')
    decreases |offered|
  {
    if offered != [] {
      var last, before := offered[|offered| - 1], offered[..|offered| - 1];
      if queued != [] && queued[|queued| - 1] == last && Thinned(queued[..|queued| - 1], before, fates, Some(last)) {
        ThinnedStill(queued[..|queued| - 1], before, fates, fates', Some(last), Some(last));
      } else {
        ThinnedStill(queued, before, fates, fates', next, next');
      }
    }
  }

  lemma SupersedesOn(x: Message, last: Message, m: Message)
    requires Supersedes(x, last) && Supersedes(last, m)
    ensures Supersedes(x, m)
  {
  }

  /** A superseded last change leaves the queue. */
  lemma {:induction false} ThinnedReplaced(init: seq<Message>, last: Message, queued: seq<Message>,
                                           offered: seq<Message>, fates: Fates, m: Message)
    requires queued == init + [last] && Thinned(queued, offered, fates, None) && Supersedes(last, m)
    ensures Thinned(init, offered, fates, Some(m))
    decreases |offered|
  {
    var before := offered[..|offered| - 1];
    assert queued[..|queued| - 1] == init;
    if last == offered[|offered| - 1] && Thinned(init, before, fates, Some(last)) {
      forall x | Supersedes(x, last) ensures Supersedes(x, m) { SupersedesOn(x, last, m); }
      ThinnedStill(init, before, fates, fates, Some(last), Some(m));
    } else {
      ThinnedReplaced(init, last, queued, before, fates, m);
    }
  }

  /** A request that is gone leaves the queue, wherever it stands. */
  lemma {:induction false} ThinnedWithout(queued: seq<Message>, offered: seq<Message>, fates: Fates, id: RequestId,
                                          next: Option<Message>)
    requires Thinned(queued, offered, fates, next) && Gone(fates, id)
    ensures Thinned(WithoutRequest(queued, id), offered, fates, next)
    decreases |offered|
  {
    if offered != [] {
      var m, before := offered[|offered| - 1], offered[..|offered| - 1];
      if queued != [] && queued[|queued| - 1] == m && Thinned(queued[..|queued| - 1], before, fates, Some(m)) {
        var kept := WithoutRequest(queued[..|queued| - 1], id);
        ThinnedWithout(queued[..|queued| - 1], before, fates, id, Some(m));
        if m.Request? && m.id == id {
          ThinnedStill(kept, before, fates, fates, Some(m), next);
          assert WithoutRequest(queued, id) == kept;
        } else {
          assert WithoutRequest(queued, id)[..|kept|] == kept;
        }
      } else {
        ThinnedWithout(queued, before, fates, id, next);
      }
    }
  }

  lemma EnqueueThins(queued: seq<Message>, offered: seq<Message>, fates: Fates, m: Message)
    requires Thinned(queued, offered, fates, None)
    ensures Thinned(Enqueued(queued, m), offered + [m], fates, None)
  {
    if queued != [] && Supersedes(queued[|queued| - 1], m) {
      var init := queued[..|queued| - 1];
      ThinnedReplaced(init, queued[|queued| - 1], queued, offered, fates, m);
      ThinnedPush(init, offered, fates, m, None, init + [m], offered + [m]);
    } else {
      ThinnedStill(queued, offered, fates, fates, None, Some(m));
      ThinnedPush(queued, offered, fates, m, None, queued + [m], offered + [m]);
    }
  }

  /** The messages that are no document changes, but for requests that are gone. */
  function Lasting(ms: seq<Message>, fates: Fates): seq<Message>
    decreases |ms|
  {
    if ms == [] then []
    else
      var last := ms[|ms| - 1];
      Lasting(ms[..|ms| - 1], fates)
      + if IsDidChange(last) || (last.Request? && Gone(fates, last.id)) then [] else [last]
  }

  /** All but the changes is kept, in order, short of exactly the requests that are gone. */
  lemma {:induction false} ThinnedLasting(queued: seq<Message>, offered: seq<Message>, fates: Fates,
                                          next: Option<Message>)
    requires Thinned(queued, offered, fates, next)
    ensures Lasting(queued, fates) == Lasting(offered, fates)
    decreases |offered|
  {
    if offered != [] {
      var last, before := offered[|offered| - 1], offered[..|offered| - 1];
      if queued != [] && queued[|queued| - 1] == last && Thinned(queued[..|queued| - 1], before, fates, Some(last)) {
        ThinnedLasting(queued[..|queued| - 1], before, fates, Some(last));
      } else {
        ThinnedLasting(queued, before, fates, next);
      }
    }
  }

  /** Coalescing leaves every document's server mirror as the uncoalesced queue does. */
  lemma EnqueueMirrors(queued: seq<Message>, offered: seq<Message>, m: Message)
    requires SameMirrors(queued, offered)
    ensures SameMirrors(Enqueued(queued, m), offered + [m])
  {
    var q, o := Enqueued(queued, m), offered + [m];
    forall enc ensures SameMirror(q, o, enc) {
      assert SameMirror(queued, offered, enc);
      forall docs ensures SeenAll(docs, q, enc) == SeenAll(docs, o, enc) {
        EnqueueMirrorsAt(queued, offered, m, enc, docs);
      }
    }
  }

  function DidChange(uri: string, version: Json, changes: seq<Json>): Message {
    Notification("textDocument/didChange",
                 Obj(map["textDocument" := Obj(map["uri" := Str(uri), "version" := version]),
                         "contentChanges" := Arr(changes)]))
  }

  /** A whole text of a document: its version and the text. */
  datatype Copy = Copy(version: Json, text: string)

  function CopyChange(uri: string, c: Copy): Message {
    DidChange(uri, c.version, [Obj(map["text" := Str(c.text)])])
  }

  function EnqueuedCopies(queued: seq<Message>, uri: string, copies: seq<Copy>): seq<Message>
    decreases |copies|
  {
    if copies == [] then queued
    else Enqueued(EnqueuedCopies(queued, uri, copies[..|copies| - 1]), CopyChange(uri, copies[|copies| - 1]))
  }

  lemma CopySupersedes(last: Message, uri: string, c: Copy)
    ensures Supersedes(last, CopyChange(uri, c)) <==> IsDidChange(last) && UriOf(last.params) == Some(uri)
  {
  }

  /** A burst of edits queues one copy of the text, in place of a change of that document queued last. */
  lemma {:induction false} BurstQueuesOne(queued: seq<Message>, uri: string, copies: seq<Copy>)
    requires copies != []
    ensures var n := |queued| - 1;
            var before := if queued != [] && IsDidChange(queued[n]) && UriOf(queued[n].params) == Some(uri)
                          then queued[..n] else queued;
            EnqueuedCopies(queued, uri, copies) == before + [CopyChange(uri, copies[|copies| - 1])]
    decreases |copies|
  {
    var init, last := copies[..|copies| - 1], copies[|copies| - 1];
    if init == [] {
      if queued != [] { CopySupersedes(queued[|queued| - 1], uri, last); }
    } else {
      BurstQueuesOne(queued, uri, init);
      CopySupersedes(CopyChange(uri, init[|init| - 1]), uri, last);
    }
  }

  /** A change with a range, of several parts or of another document is queued behind what is there. */
  lemma OthersQueueBehind(queued: seq<Message>, m: Message)
    requires m.Notification? && m.method_ == "textDocument/didChange"
    requires |ChangesOf(m.params)| != 1 || ChangesOf(m.params)[0].Get("range").Some? || UriOf(m.params).None?
             || queued == [] || !IsDidChange(queued[|queued| - 1])
             || UriOf(queued[|queued| - 1].params) != UriOf(m.params)
    ensures Enqueued(queued, m) == queued + [m]
  {
  }

  lemma EnqueueMirrorsAt(queued: seq<Message>, offered: seq<Message>, m: Message, enc: PositionEncoding, docs: Docs)
    requires SeenAll(docs, queued, enc) == SeenAll(docs, offered, enc)
    ensures SeenAll(docs, Enqueued(queued, m), enc) == SeenAll(docs, offered + [m], enc)
  {
    SeenPush(docs, offered, m, offered + [m], enc);
    if queued != [] && Supersedes(queued[|queued| - 1], m) {
      var init, last := queued[..|queued| - 1], queued[|queued| - 1];
      SeenPush(docs, init, m, init + [m], enc);
      SeenPush(docs, init, last, queued, enc);
      SupersededUnseen(SeenAll(docs, init, enc), last, m, enc);
    } else {
      SeenPush(docs, queued, m, queued + [m], enc);
    }
  }

  lemma {:induction false} WithoutUnseen(docs: Docs, queued: seq<Message>, id: RequestId, enc: PositionEncoding)
    ensures SeenAll(docs, WithoutRequest(queued, id), enc) == SeenAll(docs, queued, enc)
    decreases |queued|
  {
    if queued != [] {
      var init, m := queued[..|queued| - 1], queued[|queued| - 1];
      WithoutUnseen(docs, init, id, enc);
      var kept := WithoutRequest(init, id);
      if m.Request? && m.id == id {
        assert WithoutRequest(queued, id) == kept;
      } else {
        SeenPush(docs, kept, m, WithoutRequest(queued, id), enc);
      }
    }
  }

  lemma WithoutMirrors(queued: seq<Message>, offered: seq<Message>, id: RequestId)
    requires SameMirrors(queued, offered)
    ensures SameMirrors(WithoutRequest(queued, id), offered)
  {
    forall enc ensures SameMirror(WithoutRequest(queued, id), offered, enc) {
      assert SameMirror(queued, offered, enc);
      forall docs ensures SeenAll(docs, WithoutRequest(queued, id), enc) == SeenAll(docs, offered, enc) {
        WithoutUnseen(docs, queued, id, enc);
      }
    }
  }

  lemma {:induction false} WithoutMembers(queued: seq<Message>, id: RequestId)
    ensures forall m :: m in WithoutRequest(queued, id) <==> m in queued && !(m.Request? && m.id == id)
    decreases |queued|
  {
    if queued != [] {
      var init := queued[..|queued| - 1];
      WithoutMembers(init, id);
      assert queued == init + [queued[|queued| - 1]];
    }
  }
}
