/** A changeset as the change events of a `didChange` notification, and the reference mirror that replays them. */
module Sync {
  import opened Wrappers
  import opened Integers
  import opened ChangeSets
  import opened Lines
  import opened Positions

  /** A ranged content change: `text` replaces what lies between the positions. */
  datatype ChangeEvent = ChangeEvent(start: WirePos, end: WirePos, text: string)

  // ---- What a server makes of events ----

  /** The position is that of a char boundary. */
  ghost predicate Exact(t: string, pos: WirePos, enc: PositionEncoding) {
    CharToWire(t, WireToChar(t, pos, enc), enc) == pos
  }

  ghost predicate Fits(t: string, e: ChangeEvent, enc: PositionEncoding) {
    Exact(t, e.start, enc) && Exact(t, e.end, enc) && WireToChar(t, e.start, enc) <= WireToChar(t, e.end, enc)
  }

  ghost function Applied(t: string, e: ChangeEvent, enc: PositionEncoding): string
    requires Fits(t, e, enc)
  {
    Spliced(t, WireToChar(t, e.start, enc), WireToChar(t, e.end, enc), e.text)
  }

  /** The document the events leave, each range addressing the document the events before it left; none when
      a range is not one of that document's. */
  ghost function Replayed(t: string, events: seq<ChangeEvent>, enc: PositionEncoding): Option<string>
    decreases |events|
  {
    if events == [] then Some(t)
    else
      var before, e := Replayed(t, events[..|events| - 1], enc), events[|events| - 1];
      if before.Some? && Fits(before.value, e, enc) then Some(Applied(before.value, e, enc)) else None
  }

  lemma ReplayedLast(t: string, events: seq<ChangeEvent>, init: seq<ChangeEvent>, e: ChangeEvent, enc: PositionEncoding)
    requires Replayed(t, events, enc).Some? && events == init + [e]
    ensures Replayed(t, init, enc).Some? && Fits(Replayed(t, init, enc).value, e, enc)
    ensures Replayed(t, events, enc) == Some(Applied(Replayed(t, init, enc).value, e, enc))
  {
    assert events[..|events| - 1] == init && events[|events| - 1] == e;
  }

  /** The documents a server goes through. */
  ghost predicate Chain(docs: seq<string>, events: seq<ChangeEvent>, enc: PositionEncoding) {
    && |docs| == |events| + 1
    && forall k :: 0 <= k < |events| ==>
         Fits(docs[k], events[k], enc)
         && docs[k + 1] == Applied(docs[k], events[k], enc)
  }

  lemma {:induction false} Documents(t: string, events: seq<ChangeEvent>, enc: PositionEncoding)
        returns (docs: seq<string>)
    requires Replayed(t, events, enc).Some?
    ensures Chain(docs, events, enc) && docs[0] == t && Replayed(t, events, enc) == Some(docs[|events|])
    decreases |events|
  {
    if events == [] {
      docs := [t];
    } else {
      var init, e := events[..|events| - 1], events[|events| - 1];
      ReplayedLast(t, events, init, e, enc);
      var before := Documents(t, init, enc);
      docs := before + [Applied(before[|init|], e, enc)];
      ChainPush(before, init, e, docs, events, enc);
    }
  }

  lemma ChainPush(docs: seq<string>, init: seq<ChangeEvent>, e: ChangeEvent, docs': seq<string>,
                  events: seq<ChangeEvent>,
                  enc: PositionEncoding)
    requires Chain(docs, init, enc) && events == init + [e] && Fits(docs[|init|], e, enc)
    requires docs' == docs + [Applied(docs[|init|], e, enc)]
    ensures Chain(docs', events, enc)
  {
    forall k | 0 <= k < |events| ensures Fits(docs'[k], events[k], enc)
        && docs'[k + 1] == Applied(docs'[k], events[k], enc) {
      if k < |init| { assert docs'[k] == docs[k] && docs'[k + 1] == docs[k + 1] && events[k] == init[k]; }
    }
  }

  // ---- Emitting ----

  predicate FitsU32(pos: WirePos) {
    pos.line <= U32_MAX && pos.character <= U32_MAX
  }

  /** The change event for replacing `[from, to)` of `t`. */
  function EventFor(t: string, from: nat, to: nat, s: string, enc: PositionEncoding): ChangeEvent {
    ChangeEvent(CharToWire(t, from, enc), CharToWire(t, to, enc), s)
  }

  lemma EventFits(t: string, from: nat, to: nat, s: string, enc: PositionEncoding)
    requires from <= to <= |t|
    ensures var e := EventFor(t, from, to, s, enc);
            Fits(t, e, enc) && Applied(t, e, enc) == Spliced(t, from, to, s)
  {
    DecodeUndoesEncode(t, from, enc);
    DecodeUndoesEncode(t, to, enc);
  }

  lemma EventInU32(t: string, from: nat, to: nat, s: string, enc: PositionEncoding)
    requires from <= to <= |t| && 4 * |t| <= U32_MAX
    ensures var e := EventFor(t, from, to, s, enc); FitsU32(e.start) && FitsU32(e.end)
  {
    WireBound(t, from, enc);
    WireBound(t, to, enc);
  }

  lemma WireBound(t: string, i: nat, enc: PositionEncoding)
    requires i <= |t|
    ensures CharToWire(t, i, enc).line <= |t| && CharToWire(t, i, enc).character <= 4 * |t|
  {
    LineOfMonotone(t, 0, i);
    UnitsBounds(t[LineStart(t, i)..i], enc);
  }

  /** The events of one op, read at the cursor. */
  function EventsOf(op: Op, working: string, cursor: nat, enc: PositionEncoding): seq<ChangeEvent> {
    match op
    case Retain(_) => []
    case Delete(n) => [EventFor(working, cursor, cursor + n, "", enc)]
    case Insert(s) => [EventFor(working, cursor, cursor, s, enc)]
  }

  predicate AllInU32(events: seq<ChangeEvent>) {
    forall k :: 0 <= k < |events| ==> FitsU32(events[k].start) && FitsU32(events[k].end)
  }

  lemma EventsOfFit(op: Op, working: string, cursor: nat, enc: PositionEncoding) returns (e: ChangeEvent)
    requires cursor + Taken(op) <= |working| && !op.Retain?
    ensures EventsOf(op, working, cursor, enc) == [e]
    ensures Fits(working, e, enc) && Applied(working, e, enc) == Edited(op, working, cursor).0
  {
    if op.Delete? {
      EventFits(working, cursor, cursor + op.n, "", enc);
    } else {
      EventFits(working, cursor, cursor, op.s, enc);
    }
    e := EventsOf(op, working, cursor, enc)[0];
  }

  lemma ReplayedPush(t: string, events: seq<ChangeEvent>, working: string, e: ChangeEvent, enc: PositionEncoding)
    requires Replayed(t, events, enc) == Some(working) && Fits(working, e, enc)
    ensures Replayed(t, events + [e], enc) == Some(Applied(working, e, enc))
  {
    var all := events + [e];
    assert all[..|all| - 1] == events && all[|all| - 1] == e;
  }

  lemma EventsReplay(before: string, events: seq<ChangeEvent>, op: Op, working: string, cursor: nat,
                     enc: PositionEncoding,
                     after: seq<ChangeEvent>)
    requires Replayed(before, events, enc) == Some(working) && cursor + Taken(op) <= |working|
    requires after == events + EventsOf(op, working, cursor, enc)
    ensures Replayed(before, after, enc) == Some(Edited(op, working, cursor).0)
  {
    if op.Retain? {
      assert after == events;
    } else {
      var e := EventsOfFit(op, working, cursor, enc);
      ReplayedPush(before, events, working, e, enc);
    }
  }

  lemma EventsInU32(op: Op, working: string, cursor: nat, enc: PositionEncoding)
    requires cursor + Taken(op) <= |working| && 4 * |working| <= U32_MAX
    ensures AllInU32(EventsOf(op, working, cursor, enc))
  {
    match op
    case Retain(_) =>
    case Delete(n) => EventInU32(working, cursor, cursor + n, "", enc);
    case Insert(s) => EventInU32(working, cursor, cursor, s, enc);
  }

  // ---- One event an edit ----

  /** The insertions and deletions of some ops. */
  function EditsIn(ops: seq<Op>): nat {
    if ops == [] then 0 else EditsIn(ops[..|ops| - 1]) + if ops[|ops| - 1].Retain? then 0 else 1
  }

  /** The event stands for the edit `op` at `from` of the document: what it replaces and with what. */
  ghost predicate StandsFor(e: ChangeEvent, op: Op, doc: string, from: nat, enc: PositionEncoding) {
    && Fits(doc, e, enc) && WireToChar(doc, e.start, enc) == from
    && WireToChar(doc, e.end, enc) == from + (if op.Delete? then op.n else 0)
    && e.text == if op.Insert? then op.s else ""
  }

  /** The event of the op at `j`, an edit: it addresses the document as the events before it left it, where the ops
      before it lead. */
  ghost predicate EventAt(ops: seq<Op>, j: nat, before: string, events: seq<ChangeEvent>, enc: PositionEncoding)
    requires j < |ops|
  {
    var k := EditsIn(ops[..j]);
    && k < |events| && Replayed(before, events[..k], enc).Some?
    && StandsFor(events[k], ops[j], Replayed(before, events[..k], enc).value, Produced(ops[..j]), enc)
  }

  /** One event for each edit, in order, and none besides. */
  ghost predicate OnePerEdit(ops: seq<Op>, before: string, events: seq<ChangeEvent>, enc: PositionEncoding) {
    && |events| == EditsIn(ops)
    && forall j {:trigger EventAt(ops, j, before, events, enc)} :: 0 <= j < |ops| && !ops[j].Retain? ==>
         EventAt(ops, j, before, events, enc)
  }

  lemma EventStands(op: Op, working: string, cursor: nat, enc: PositionEncoding)
    requires cursor + Taken(op) <= |working| && !op.Retain?
    ensures |EventsOf(op, working, cursor, enc)| == 1
    ensures StandsFor(EventsOf(op, working, cursor, enc)[0], op, working, cursor, enc)
  {
    var e := EventsOfFit(op, working, cursor, enc);
    DecodeUndoesEncode(working, cursor, enc);
    DecodeUndoesEncode(working, cursor + Taken(op), enc);
  }

  lemma EventStays(ops: seq<Op>, op: Op, j: nat, before: string, events: seq<ChangeEvent>, all: seq<ChangeEvent>,
                   enc: PositionEncoding)
    requires j < |ops| && EventAt(ops, j, before, events, enc) && events <= all
    ensures EventAt(ops + [op], j, before, all, enc)
  {
    assert (ops + [op])[..j] == ops[..j] && (ops + [op])[j] == ops[j];
    var k := EditsIn(ops[..j]);
    assert all[..k] == events[..k] && all[k] == events[k];
  }

  lemma EditsMore(ops: seq<Op>, op: Op, before: string, events: seq<ChangeEvent>, working: string,
                  enc: PositionEncoding)
    requires OnePerEdit(ops, before, events, enc) && Replayed(before, events, enc) == Some(working)
    requires Produced(ops) + Taken(op) <= |working|
    ensures OnePerEdit(ops + [op], before, events + EventsOf(op, working, Produced(ops), enc), enc)
  {
    var more, all := ops + [op], events + EventsOf(op, working, Produced(ops), enc);
    assert more[..|more| - 1] == ops;
    if !op.Retain? { EventStands(op, working, Produced(ops), enc); }
    forall j | 0 <= j < |more| && !more[j].Retain? ensures EventAt(more, j, before, all, enc) {
      if j < |ops| {
        EventStays(ops, op, j, before, events, all, enc);
      } else {
        assert more[..j] == ops && all[..|events|] == events;
      }
    }
  }

  /** Where the ops so far lead: the document the events left, and the place in it. */
  ghost function Reached(ops: seq<Op>, before: string, events: seq<ChangeEvent>, enc: PositionEncoding)
      : Option<(string, nat)>
  {
    var doc := Replayed(before, events, enc);
    if OnePerEdit(ops, before, events, enc) && doc.Some? then Some((doc.value, Produced(ops))) else None
  }

  lemma ReachedNone(before: string, enc: PositionEncoding)
    ensures Reached([], before, [], enc) == Some((before, 0))
  {
  }

  lemma ReachedNext(ops: seq<Op>, op: Op, before: string, events: seq<ChangeEvent>, working: string, cursor: nat,
                    enc: PositionEncoding)
    requires Reached(ops, before, events, enc) == Some((working, cursor)) && cursor + Taken(op) <= |working|
    ensures Reached(ops + [op], before, events + EventsOf(op, working, cursor, enc), enc)
         == Some(Edited(op, working, cursor))
  {
    var after := events + EventsOf(op, working, cursor, enc);
    EditsMore(ops, op, before, events, working, enc);
    EventsReplay(before, events, op, working, cursor, enc, after);
    ProducedMore(ops, op);
    ReachedBy(ops + [op], before, after, enc, Edited(op, working, cursor));
  }

  lemma ReachedBy(ops: seq<Op>, before: string, events: seq<ChangeEvent>, enc: PositionEncoding, place: (string, nat))
    requires OnePerEdit(ops, before, events, enc) && Replayed(before, events, enc) == Some(place.0)
    requires Produced(ops) == place.1
    ensures Reached(ops, before, events, enc) == Some(place)
  {
  }

  lemma ProducedMore(ops: seq<Op>, op: Op)
    ensures Produced(ops + [op]) == Produced(ops) + match op case Retain(n) => n case Delete(_) => 0 case Insert(s) =>
            |s|
  {
    SplitLengths(ops, [op]);
    assert [op][1..] == [];
  }

  /** The events up to some edit, one past what the protocol's numbers hold. */
  ghost predicate Overflowing(ops: seq<Op>, before: string, enc: PositionEncoding) {
    exists i, events :: 0 <= i <= |ops| && OnePerEdit(ops[..i], before, events, enc) && !AllInU32(events)
  }

  /** Walks the ops over a working copy, so each range addresses the document as the events before left it. None
      only when a coordinate does not fit the protocol's numbers. */
  method ContentChanges(before: string, cs: ChangeSet, enc: PositionEncoding) returns (r: Option<seq<ChangeEvent>>)
    requires cs.Valid() && cs.lenBefore == |before|
    ensures r.Some? ==> Replayed(before, r.value, enc) == Some(Run(cs.ops, before))
    ensures r.Some? ==> OnePerEdit(cs.ops, before, r.value, enc) && AllInU32(r.value)
    ensures r.None? ==> Overflowing(cs.ops, before, enc)
    ensures 4 * (|before| + cs.lenAfter) <= U32_MAX ==> r.Some?
  {
    var ops, working, cursor, events := cs.ops, before, 0, [];
    ghost var at: nat, done, past := 0, "", ops[..0];
    MadeNone(ops, before);
    ReachedNone(before, enc);
    for i := 0 to |ops|
      invariant Made(ops, i, before, at) == Some(done) && working == Working(done, before, at) && cursor == |done|
      invariant past == ops[..i] && Reached(past, before, events, enc) == Some((working, cursor)) && AllInU32(events)
    {
      WorkingLength(ops, i, before, at, done);
      at, done := MadeEdited(ops, i, before, at, done);
      var more := EmitOp(past, before, ops[i], working, cursor, events, enc);
      if more.None? {
        StillTooFar(ops, i, past, before, enc);
        return None;
      }
      var edited := Edited(ops[i], working, cursor);
      events, working, cursor, past := more.value, edited.0, edited.1, past + [ops[i]];
    }
    MadeAll(ops, before, at, done);
    AllReached(ops, past, before, events, enc);
    return Some(events);
  }

  lemma AllReached(ops: seq<Op>, past: seq<Op>, before: string, events: seq<ChangeEvent>, enc: PositionEncoding)
    requires past == ops[..|ops|] && Reached(past, before, events, enc).Some?
    ensures OnePerEdit(ops, before, events, enc)
    ensures Replayed(before, events, enc) == Some(Reached(past, before, events, enc).value.0)
  {
    assert past == ops;
  }

  /** The events with those of one op more; none when one of them is past the protocol's numbers. */
  method EmitOp(ghost past: seq<Op>, ghost before: string, op: Op, working: string, cursor: nat,
                events: seq<ChangeEvent>, enc: PositionEncoding)
      returns (r: Option<seq<ChangeEvent>>)
    requires Reached(past, before, events, enc) == Some((working, cursor)) && cursor + Taken(op) <= |working|
    requires AllInU32(events)
    ensures r.Some? ==>
              Reached(past + [op], before, r.value, enc) == Some(Edited(op, working, cursor)) && AllInU32(r.value)
    ensures r.None? ==> Overflowing(past + [op], before, enc) && 4 * |working| > U32_MAX
  {
    var more := EventsOf(op, working, cursor, enc);
    ReachedNext(past, op, before, events, working, cursor, enc);
    if 4 * |working| <= U32_MAX { EventsInU32(op, working, cursor, enc); }
    if !AllInU32(more) {
      TooFar(past + [op], before, events, more, enc);
      return None;
    }
    return Some(events + more);
  }

  lemma StillTooFar(ops: seq<Op>, i: nat, past: seq<Op>, before: string, enc: PositionEncoding)
    requires i < |ops| && past == ops[..i] && Overflowing(past + [ops[i]], before, enc)
    ensures Overflowing(ops, before, enc)
  {
    var some := past + [ops[i]];
    var k, events :| 0 <= k <= |some| && OnePerEdit(some[..k], before, events, enc) && !AllInU32(events);
    assert some[..k] == ops[..k];
  }

  lemma TooFar(ops: seq<Op>, before: string, events: seq<ChangeEvent>, more: seq<ChangeEvent>, enc: PositionEncoding)
    requires Reached(ops, before, events + more, enc).Some? && !AllInU32(more)
    ensures Overflowing(ops, before, enc)
  {
    var k :| 0 <= k < |more| && !(FitsU32(more[k].start) && FitsU32(more[k].end));
    var all := events + more;
    assert all[|events| + k] == more[k];
    assert !AllInU32(all) && ops[..|ops|] == ops;
  }

  // ---- The reference mirror ----

  /** Bytes of a text. */
  function Bytes(s: string): nat {
    Units(s, Utf8)
  }

  lemma ExactParts(t: string, pos: WirePos, enc: PositionEncoding) returns (s: nat, b: nat)
    requires Exact(t, pos, enc)
    ensures pos.line <= LineOf(t, |t|) && s == StartOf(t, pos.line) && s <= WireToChar(t, pos, enc) <= b <= |t|
    ensures b == BreakFrom(t, s) && pos.character == Units(t[s..WireToChar(t, pos, enc)], enc)
  {
    DecodeUndoesEncode(t, WireToChar(t, pos, enc), enc);
    s, b := DecodeParts(t, pos, enc);
    OnLine(t, pos.line, WireToChar(t, pos, enc), enc);
  }

  lemma ThroughBreak(text: string, at: nat, brk: nat)
    requires at <= brk < |text|
    ensures text[..brk + 1] == (text[..at] + text[at..brk]) + [text[brk]]
  {
  }

  lemma NextLine(text: string, k: nat, at: nat)
    requires k <= LineOf(text, |text|) && at == StartOf(text, k) && at <= |text| && BreakFrom(text, at) < |text|
    ensures k + 1 <= LineOf(text, |text|) && StartOf(text, k + 1) == BreakFrom(text, at) + 1
    ensures Bytes(text[..BreakFrom(text, at) + 1]) == Bytes(text[..at]) + Bytes(text[at..BreakFrom(text, at)]) + 1
  {
    LineSpan(text, k);
    var brk := BreakFrom(text, at);
    ThroughBreak(text, at, brk);
    UnitsConcat(text[..at] + text[at..brk], [text[brk]], Utf8);
    UnitsConcat(text[..at], text[at..brk], Utf8);
    assert [text[brk]][1..] == [];
  }

  lemma ColumnBytes(text: string, pos: WirePos, enc: PositionEncoding, at: nat)
    requires Exact(text, pos, enc) && at == StartOf(text, pos.line) && at <= |text|
    ensures var (i, line) := (WireToChar(text, pos, enc), text[at..BreakFrom(text, at)]);
            at <= i <= at + |line| && pos.character == Units(line[..i - at], enc)
            && Bytes(text[..i]) == Bytes(text[..at]) + Bytes(line[..i - at])
  {
    var s, b := ExactParts(text, pos, enc);
    var i := WireToChar(text, pos, enc);
    assert text[at..b][..i - at] == text[at..i];
    assert text[..i] == text[..at] + text[at..i];
    UnitsConcat(text[..at], text[at..i], Utf8);
  }

  lemma ExactLine(text: string, pos: WirePos, enc: PositionEncoding)
    requires Exact(text, pos, enc)
    ensures pos.line <= LineOf(text, |text|)
  {
    var s, b := ExactParts(text, pos, enc);
  }

  /** The first char of the line at or past the column, or its end. */
  ghost predicate FirstAt(line: string, character: nat, enc: PositionEncoding, k: nat) {
    && k <= |line| && (forall j :: 0 <= j < k ==> Units(line[..j], enc) < character)
    && (k == |line| || Units(line[..k], enc) >= character)
  }

  /** Where scanning a line for a column stops: UTF-8 columns are bytes, the others stop at a char. */
  ghost predicate StopsAt(line: string, character: nat, enc: PositionEncoding, offset: int) {
    if enc.Utf8? then offset == (if character < Bytes(line) then character else Bytes(line))
    else exists k: nat :: FirstAt(line, character, enc, k) && offset == Bytes(line[..k])
  }

  /** Where scanning a text for any position stops: past the last line, at the end of the text. */
  ghost predicate Scanned(text: string, pos: WirePos, enc: PositionEncoding, offset: nat) {
    if pos.line > LineOf(text, |text|) then offset == Bytes(text)
    else
      LineSpan(text, pos.line);
      var s := StartOf(text, pos.line);
      StopsAt(text[s..BreakFrom(text, s)], pos.character, enc, offset - Bytes(text[..s]))
  }

  /** A position's byte offset by plain scanning: breaks counted from the front, then columns along the line. */
  method WirePosToByte(text: string, pos: WirePos, enc: PositionEncoding) returns (offset: nat)
    ensures Exact(text, pos, enc) ==> offset == Bytes(text[..WireToChar(text, pos, enc)])
    ensures Scanned(text, pos, enc, offset)
  {
    var at, lineStart := 0, 0;
    for k := 0 to pos.line
      invariant k <= LineOf(text, |text|) && at == StartOf(text, k) && at <= |text| && lineStart == Bytes(text[..at])
    {
      var brk := BreakFrom(text, at);
      if brk == |text| {
        LineSpan(text, k);
        if Exact(text, pos, enc) { ExactLine(text, pos, enc); }
        return Bytes(text);
      }
      NextLine(text, k, at);
      lineStart := lineStart + Bytes(text[at..brk]) + 1;
      at := brk + 1;
    }
    var line := text[at..BreakFrom(text, at)];
    var withinLine := WithinLine(line, pos.character, enc);
    if Exact(text, pos, enc) { ColumnBytes(text, pos, enc, at); }
    return lineStart + withinLine;
  }

  /** The byte offset in a line of a column; exact where the column is a char's. */
  method WithinLine(line: string, character: nat, enc: PositionEncoding) returns (offset: nat)
    ensures forall k :: 0 <= k <= |line| && Units(line[..k], enc) == character ==> offset == Bytes(line[..k])
    ensures StopsAt(line, character, enc, offset)
  {
    match enc {
      case Utf8 =>
        offset := if character < Bytes(line) then character else Bytes(line);
        forall k | 0 <= k <= |line| ensures Bytes(line[..k]) <= Bytes(line) { PrefixUnits(line, k, |line|, Utf8); }
      case Utf16 =>
        var units, j := 0, 0;
        offset := 0;
        while j < |line| && units < character
          invariant j <= |line| && units == Units(line[..j], enc) && offset == Bytes(line[..j])
          invariant forall k :: 0 <= k < j ==> Units(line[..k], enc) < character
        {
          OneMore(line, j, enc);
          OneMore(line, j, Utf8);
          units := units + UnitLen(line[j], enc);
          offset := offset + UnitLen(line[j], Utf8);
          j := j + 1;
        }
        forall k | j < k <= |line| ensures Units(line[..j], enc) < Units(line[..k],
            enc) { PrefixUnits(line, j, k, enc); }
        assert FirstAt(line, character, enc, j);
      case Utf32 =>
        offset := if character < |line| then Bytes(line[..character]) else Bytes(line);
        forall k | 0 <= k <= |line| ensures Units(line[..k], enc) == k { UnitsBounds(line[..k], enc); }
        assert line[..|line|] == line;
        assert FirstAt(line, character, enc, if character < |line| then character else |line|);
    }
  }

  lemma PrefixUnits(s: string, j: nat, k: nat, enc: PositionEncoding)
    requires j <= k <= |s|
    ensures Units(s[..j], enc) <= Units(s[..k], enc) <= Units(s, enc)
    ensures j < k ==> Units(s[..j], enc) < Units(s[..k], enc)
  {
    UnitsPart(s, 0, j, k, enc);
    UnitsPart(s, 0, k, |s|, enc);
    assert s[..j] == s[0..j] && s[..k] == s[0..k] && s == s[0..|s|];
  }

  lemma OneMore(s: string, j: nat, enc: PositionEncoding)
    requires j < |s|
    ensures Units(s[..j + 1], enc) == Units(s[..j], enc) + UnitLen(s[j], enc)
  {
    UnitsConcat(s[..j], [s[j]], enc);
    assert s[..j + 1] == s[..j] + [s[j]] && [s[j]][1..] == [];
  }

  /** Replaces the bytes between the event's positions. */
  method ReplaceRange(text: string, e: ChangeEvent, enc: PositionEncoding) returns (r: string)
    requires Fits(text, e, enc)
    ensures r == Applied(text, e, enc)
  {
    var start := WirePosToByte(text, e.start, enc);
    var end := WirePosToByte(text, e.end, enc);
    IndexOfUnits(text, WireToChar(text, e.start, enc), Utf8);
    IndexOfUnits(text, WireToChar(text, e.end, enc), Utf8);
    return Spliced(text, UnitsToIndex(text, start, Utf8), UnitsToIndex(text, end, Utf8), e.text);
  }

  /** Replaying the events on a plain string, with its own line and column scanning, agrees with reading each
      range as a server does. */
  method ApplyEventsToMirror(before: string, events: seq<ChangeEvent>, enc: PositionEncoding) returns (text: string)
    requires Replayed(before, events, enc).Some?
    ensures Replayed(before, events, enc) == Some(text)
  {
    text := before;
    ghost var docs := Documents(before, events, enc);
    for i := 0 to |events|
      invariant text == docs[i]
    {
      text := ReplaceRange(text, events[i], enc);
    }
  }
}
