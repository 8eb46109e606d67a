/** `Content-Length` framing of JSON-RPC messages: reading from a chunked stream, writing, and how they agree. */
module Codec {
  import opened Wrappers
  import opened Messages
  import opened MessageWire
  import opened Framing

  datatype IoKind = UnexpectedEof | InvalidData

  datatype CodecError = Io(kind: IoKind) | Eof | MissingLength | BadHeader(line: seq<Byte>) | BadJson | NotAMessage

  /** A parser of bodies; nothing for bytes that are not JSON. */
  type Parser = seq<Byte> -> Option<Json>

  type Serializer = Json -> seq<Byte>

  /** The serializer's output parses back, and is never empty. */
  ghost predicate Inverse(ser: Serializer, parse: Parser) {
    (forall v :: parse(ser(v)) == Some(v) && ser(v) != []) && parse([]).None?
  }

  // ---- Header lines ----

  const CONTENT_LENGTH: seq<Byte> :=
    [67, 111, 110, 116, 101, 110, 116, 45, 76, 101, 110, 103, 116, 104]

  function TrimEnd(line: seq<Byte>): seq<Byte> {
    if line != [] && (line[|line| - 1] == CR || line[|line| - 1] == LF) then TrimEnd(line[..|line| - 1]) else line
  }

  predicate IsSpace(b: Byte) {
    b == SPACE || 9 <= b <= 13
  }

  function TrimStartSpace(v: seq<Byte>): seq<Byte> {
    if v != [] && IsSpace(v[0]) then TrimStartSpace(v[1..]) else v
  }

  function TrimEndSpace(v: seq<Byte>): seq<Byte> {
    if v != [] && IsSpace(v[|v| - 1]) then TrimEndSpace(v[..|v| - 1]) else v
  }

  /** The first colon, the length when there is none. */
  function ColonAt(s: seq<Byte>): (p: nat)
    ensures p <= |s|
  {
    if s == [] || s[0] == COLON then 0 else 1 + ColonAt(s[1..])
  }

  function Lower(b: Byte): Byte {
    if 65 <= b <= 90 then b + 32 else b
  }

  predicate EqIgnoreCase(a: seq<Byte>, b: seq<Byte>) {
    |a| == |b| && forall k :: 0 <= k < |a| ==> Lower(a[k]) == Lower(b[k])
  }

  function Digits(ds: seq<Byte>): Option<nat> {
    if ds == [] then Some(0)
    else
      var d, more := ds[|ds| - 1], Digits(ds[..|ds| - 1]);
      if more.Some? && ZERO <= d <= NINE then Some(10 * more.value + (d - ZERO) as nat) else None
  }

  /** A number as the standard parser takes it: digits, at least one, after an optional plus sign. */
  function ParseLength(v: seq<Byte>): Option<nat> {
    var ds := if v != [] && v[0] == PLUS then v[1..] else v;
    if ds == [] then None else Digits(ds)
  }

  /** The length known after a header line that is not blank. */
  function HeaderStep(trimmed: seq<Byte>, length: Option<nat>): Result<Option<nat>, CodecError> {
    var c := ColonAt(trimmed);
    if c == |trimmed| then Failure(BadHeader(trimmed))
    else if !EqIgnoreCase(trimmed[..c], CONTENT_LENGTH) then Success(length)
    else
      var n := ParseLength(TrimEndSpace(TrimStartSpace(trimmed[c + 1..])));
      if n.None? || n.value > MAX_CONTENT_LENGTH then Failure(BadHeader(trimmed)) else Success(n)
  }

  // ---- Reading ----

  /** What the bytes to come tell of the next message; `Chunky` when a header line is so long that the chunking
      decides. */
  datatype Frame = Got(m: Message, rest: seq<Byte>) | Fails(error: CodecError) | Chunky

  datatype Headers = Done(length: Option<nat>, rest: seq<Byte>) | Bad(error: CodecError) | LongLine

  function ReadHeaders(s: seq<Byte>, first: bool, length: Option<nat>): (h: Headers)
    ensures h.Done? ==> |h.rest| < |s|
    decreases |s|
  {
    match KnownLine(s, MAX_HEADER_LINE_LEN)
    case NoLine => Bad(if first then Eof else Io(UnexpectedEof))
    case OverLong => Bad(Io(InvalidData))
    case Unknown => LongLine
    case WholeLine(bytes, rest) =>
      var trimmed := TrimEnd(bytes);
      if trimmed == [] then Done(length, rest)
      else
        match HeaderStep(trimmed, length)
        case Failure(e) => Bad(e)
        case Success(known) => ReadHeaders(rest, false, known)
  }

  function ReadBody(body: seq<Byte>, parse: Parser): Result<Message, CodecError> {
    match parse(body)
    case None => Failure(BadJson)
    case Some(v) =>
      match FromWire(v)
      case Success(m) => Success(m)
      case Failure(Malformed) => Failure(BadJson)
      case Failure(Ambiguous) => Failure(NotAMessage)
  }

  /** A body is the message its JSON value spells. One that is no JSON, or has a member of a wrong kind, is told from
      one whose members do not make a message. */
  lemma BodyRead(body: seq<Byte>, parse: Parser, m: Message)
    ensures ReadBody(body, parse) == Success(m) <==> parse(body).Some? && Spells(parse(body).value, m)
    ensures ReadBody(body, parse) == Failure(BadJson) <==> parse(body).None? || !WellTyped(parse(body).value)
    ensures ReadBody(body, parse) == Failure(NotAMessage) <==>
              parse(body).Some? && WellTyped(parse(body).value) && !exists x :: Spells(parse(body).value, x)
  {
    if parse(body).Some? {
      var v := parse(body).value;
      ReadsSpelled(v, m);
      if FromWire(v).Success? { ReadsSpelled(v, FromWire(v).value); }
      forall x | Spells(v, x) ensures FromWire(v) == Success(x) { ReadsSpelled(v, x); }
    }
  }

  function ReadFrame(s: seq<Byte>, parse: Parser): (f: Frame)
    ensures f.Got? ==> |f.rest| < |s|
  {
    match ReadHeaders(s, true, None)
    case Bad(e) => Fails(e)
    case LongLine => Chunky
    case Done(None, _) => Fails(MissingLength)
    case Done(Some(n), rest) =>
      if |rest| < n then Fails(Io(UnexpectedEof))
      else
        match ReadBody(rest[..n], parse)
        case Success(m) => Got(m, rest[n..])
        case Failure(e) => Fails(e)
  }

  /** Reads one message. Unless a header line passes the bound the result is what the bytes alone tell, however
      they are chunked. */
  method ReadMessage(r: Reader, parse: Parser) returns (m: Result<Message, CodecError>)
    requires r.Valid()
    modifies r
    ensures r.Valid()
    ensures match ReadFrame(Flatten(old(r.chunks)), parse)
            case Got(msg, rest) => m == Success(msg) && Flatten(r.chunks) == rest
            case Fails(e) => m == Failure(e)
            case Chunky => true
  {
    ghost var s := Flatten(r.chunks);
    var contentLength: Option<nat>, firstLine := None, true;
    while true
      invariant r.Valid()
      invariant ReadHeaders(s, true, None) == LongLine
                || ReadHeaders(Flatten(r.chunks), firstLine, contentLength) == ReadHeaders(s, true, None)
      decreases |Flatten(r.chunks)|
    {
      ghost var here := Flatten(r.chunks);
      assert [] + here == here;
      LineOfContents(r.chunks, [], MAX_HEADER_LINE_LEN, here);
      var line := r.ReadBoundedLine(MAX_HEADER_LINE_LEN);
      match line {
        case TooLong => return Failure(Io(InvalidData));
        case End => return Failure(if firstLine then Eof else Io(UnexpectedEof));
        case Line(bytes) =>
          firstLine := false;
          var trimmed := TrimEnd(bytes);
          if trimmed == [] { break; }
          var step := HeaderStep(trimmed, contentLength);
          if step.Failure? { return Failure(step.error); }
          contentLength := step.value;
      }
    }
    if contentLength.None? { return Failure(MissingLength); }
    var body := r.ReadExact(contentLength.value);
    if body.None? { return Failure(Io(UnexpectedEof)); }
    m := ReadBody(body.value, parse);
  }

  // ---- Writing ----

  function Decimal(n: nat): seq<Byte> {
    if n < 10 then [ZERO + n as Byte] else Decimal(n / 10) + [ZERO + (n % 10) as Byte]
  }

  function HeaderLine(n: nat): seq<Byte> {
    CONTENT_LENGTH + [COLON, SPACE] + Decimal(n)
  }

  /** A message as it goes on the wire. */
  function Framed(m: Message, ser: Serializer): seq<Byte> {
    var body := ser(ToWire(m));
    HeaderLine(|body|) + [CR, LF] + [CR, LF] + body
  }

  /** A byte sink. */
  class Writer {
    var written: seq<Byte>

    constructor ()
      ensures written == []
    {
      written := [];
    }

    method WriteAll(bytes: seq<Byte>)
      modifies this
      ensures written == old(written) + bytes
    {
      written := written + bytes;
    }
  }

  method WriteMessage(w: Writer, m: Message, ser: Serializer)
    modifies w
    ensures w.written == old(w.written) + Framed(m, ser)
  {
    var body := ser(ToWire(m));
    w.WriteAll(HeaderLine(|body|) + [CR, LF] + [CR, LF]);
    w.WriteAll(body);
  }

  // ---- Reading what was written ----

  ghost predicate AllDigits(ds: seq<Byte>) {
    ds != [] && forall k :: 0 <= k < |ds| ==> ZERO <= ds[k] <= NINE
  }

  lemma {:induction false} DecimalDigits(n: nat)
    ensures AllDigits(Decimal(n)) && Digits(Decimal(n)) == Some(n)
  {
    if n < 10 {
      assert Decimal(n)[..0] == [];
    } else {
      DecimalDigits(n / 10);
      var all := Decimal(n);
      assert all[..|all| - 1] == Decimal(n / 10) && all[|all| - 1] == ZERO + (n % 10) as Byte;
    }
  }

  function Pow10(k: nat): nat {
    if k == 0 then 1 else 10 * Pow10(k - 1)
  }

  lemma {:induction false} DecimalShort(n: nat, k: nat)
    requires n < Pow10(k) && k > 0
    ensures |Decimal(n)| <= k
  {
    if n >= 10 { DecimalShort(n / 10, k - 1); }
  }

  lemma NoBreak(line: seq<Byte>)
    requires forall k :: 0 <= k < |line| ==> line[k] != LF
    ensures Find(line) == |line|
  {
    FindIs(line, |line|);
  }

  lemma HeaderLineFound(n: nat, more: seq<Byte>, s: seq<Byte>)
    requires s == HeaderLine(n) + [CR, LF] + more
    ensures KnownLine(s, MAX_HEADER_LINE_LEN) == WholeLine(HeaderLine(n) + [CR, LF], more)
            || (n > MAX_CONTENT_LENGTH && KnownLine(s, MAX_HEADER_LINE_LEN) == Unknown)
  {
    if n <= MAX_CONTENT_LENGTH {
      assert Pow10(9) == 1_000_000_000;
      DecimalShort(n, 9);
    }
    DecimalDigits(n);
    var line := HeaderLine(n) + [CR];
    NoBreak(line);
    FindPast(line, [LF] + more);
    assert s == line + ([LF] + more);
    assert s[..|line| + 1] == HeaderLine(n) + [CR, LF] && s[|line| + 1..] == more;
  }

  lemma BlankLineFound(more: seq<Byte>)
    ensures KnownLine([CR, LF] + more, MAX_HEADER_LINE_LEN) == WholeLine([CR, LF], more)
    ensures TrimEnd([CR, LF]) == []
  {
    var s := [CR, LF] + more;
    FindIs(s, 1);
    assert s[..2] == [CR, LF] && s[2..] == more;
    TrimBreak([], [CR, LF]);
  }

  lemma HeaderLineMeans(n: nat)
    ensures TrimEnd(HeaderLine(n) + [CR, LF]) == HeaderLine(n) != []
    ensures HeaderStep(HeaderLine(n), None) == if n <= MAX_CONTENT_LENGTH then Success(Some(n))
            else Failure(BadHeader(HeaderLine(n)))
  {
    DecimalDigits(n);
    var ds := Decimal(n);
    assert HeaderLine(n) == CONTENT_LENGTH + ([COLON] + ([SPACE] + ds));
    HeaderTrimmed(HeaderLine(n), ds);
    HeaderValue(HeaderLine(n), ds);
  }

  lemma HeaderTrimmed(line: seq<Byte>, ds: seq<Byte>)
    requires AllDigits(ds) && line == CONTENT_LENGTH + ([COLON] + ([SPACE] + ds))
    ensures TrimEnd(line + [CR, LF]) == line != []
  {
    assert line[|line| - 1] == ds[|ds| - 1];
    TrimBreak(line, line + [CR, LF]);
  }

  lemma HeaderValue(line: seq<Byte>, ds: seq<Byte>)
    requires AllDigits(ds) && line == CONTENT_LENGTH + ([COLON] + ([SPACE] + ds))
    ensures HeaderStep(line, None)
         == if Digits(ds).None? || Digits(ds).value > MAX_CONTENT_LENGTH then Failure(BadHeader(line))
             else Success(Digits(ds))
  {
    ColonAfterName([SPACE] + ds, line);
    assert line[..14] == CONTENT_LENGTH && line[15..] == [SPACE] + ds;
    TrimValue(ds, [SPACE] + ds);
    HeaderStepOf(line, 14, ds, None);
  }

  lemma TrimOne(line: seq<Byte>, b: Byte, all: seq<Byte>)
    requires all == line + [b] && (b == CR || b == LF)
    ensures TrimEnd(all) == TrimEnd(line)
  {
    assert all[..|all| - 1] == line && all[|all| - 1] == b;
  }

  lemma TrimBreak(line: seq<Byte>, all: seq<Byte>)
    requires all == line + [CR, LF] && (line == [] || (line[|line| - 1] != CR && line[|line| - 1] != LF))
    ensures TrimEnd(all) == line
  {
    assert all == (line + [CR]) + [LF];
    TrimOne(line + [CR], LF, all);
    TrimOne(line, CR, line + [CR]);
  }

  lemma TrimValue(ds: seq<Byte>, value: seq<Byte>)
    requires AllDigits(ds) && value == [SPACE] + ds
    ensures TrimEndSpace(TrimStartSpace(value)) == ds
    ensures ParseLength(ds) == Digits(ds)
  {
    assert value[1..] == ds && ZERO <= ds[0] <= NINE && ZERO <= ds[|ds| - 1] <= NINE;
  }

  lemma HeaderStepOf(line: seq<Byte>, c: nat, ds: seq<Byte>, length: Option<nat>)
    requires c < |line| && ColonAt(line) == c && line[..c] == CONTENT_LENGTH
    requires TrimEndSpace(TrimStartSpace(line[c + 1..])) == ds
    ensures HeaderStep(line, length)
         == if ParseLength(ds).None? || ParseLength(ds).value > MAX_CONTENT_LENGTH then Failure(BadHeader(line))
            else Success(ParseLength(ds))
  {
  }

  lemma {:induction false} ColonPast(a: seq<Byte>, b: seq<Byte>)
    requires forall k :: 0 <= k < |a| ==> a[k] != COLON
    ensures ColonAt(a + b) == |a| + ColonAt(b)
  {
    if a == [] {
      assert a + b == b;
    } else {
      assert (a + b)[1..] == a[1..] + b;
      ColonPast(a[1..], b);
    }
  }

  lemma ColonAfterName(value: seq<Byte>, line: seq<Byte>)
    requires line == CONTENT_LENGTH + ([COLON] + value)
    ensures ColonAt(line) == 14
  {
    ColonPast(CONTENT_LENGTH, [COLON] + value);
  }

  lemma TooMuch(n: nat, more: seq<Byte>, s: seq<Byte>)
    requires n > MAX_CONTENT_LENGTH && s == HeaderLine(n) + [CR, LF] + more
    ensures !ReadHeaders(s, true, None).Done?
  {
    HeaderLineFound(n, more, s);
    HeaderLineMeans(n);
  }

  lemma HeadersOfFrame(n: nat, more: seq<Byte>)
    requires n <= MAX_CONTENT_LENGTH
    ensures ReadHeaders(HeaderLine(n) + [CR, LF] + [CR, LF] + more, true, None) == Done(Some(n), more)
  {
    var after := [CR, LF] + more;
    var s := HeaderLine(n) + [CR, LF] + after;
    assert s == HeaderLine(n) + [CR, LF] + [CR, LF] + more;
    HeaderLineFound(n, after, s);
    HeaderLineMeans(n);
    BlankLineFound(more);
    assert ReadHeaders(after, false, Some(n)) == Done(Some(n), more);
  }

  /** A frame read back, whatever follows it: the message itself just when its body is within the length bound
      and it carries no explicit null as error data. */
  lemma FrameRoundTrip(m: Message, more: seq<Byte>, ser: Serializer, parse: Parser)
    requires Inverse(ser, parse)
    ensures |ser(ToWire(m))| <= MAX_CONTENT_LENGTH && !HasNullData(m) ==>
              ReadFrame(Framed(m, ser) + more, parse) == Got(m, more)
    ensures |ser(ToWire(m))| <= MAX_CONTENT_LENGTH && HasNullData(m) ==>
              ReadFrame(Framed(m, ser) + more, parse) == Got(Response(m.answers,
                  Failure(m.result.error.(data := None))), more)
    ensures |ser(ToWire(m))| > MAX_CONTENT_LENGTH ==> !ReadFrame(Framed(m, ser) + more, parse).Got?
  {
    var body := ser(ToWire(m));
    var s := Framed(m, ser) + more;
    if |body| <= MAX_CONTENT_LENGTH {
      assert s == HeaderLine(|body|) + [CR, LF] + [CR, LF] + (body + more);
      HeadersOfFrame(|body|, body + more);
      assert (body + more)[..|body|] == body && (body + more)[|body|..] == more;
      WireRoundTrip(m);
    } else {
      assert s == HeaderLine(|body|) + [CR, LF] + ([CR, LF] + body + more);
      TooMuch(|body|, [CR, LF] + body + more, s);
    }
  }

  // ---- Whole streams ----

  /** What a stream read to its end gives: the messages in order, and what ended it. */
  datatype StreamRead = StreamRead(messages: seq<Message>, ending: Option<CodecError>)

  /** Reads frame after frame with `read` until one fails. */
  function ReadBy(read: seq<Byte> -> Frame, s: seq<Byte>): StreamRead
    decreases |s|
  {
    match read(s)
    case Got(m, rest) =>
      if |rest| >= |s| then StreamRead([m], None)
      else
        var more := ReadBy(read, rest);
        StreamRead([m] + more.messages, more.ending)
    case Fails(e) => StreamRead([], Some(e))
    case Chunky => StreamRead([], None)
  }

  function ReadStream(s: seq<Byte>, parse: Parser): StreamRead {
    ReadBy(FrameReader(parse), s)
  }

  function FrameReader(parse: Parser): seq<Byte> -> Frame {
    x => ReadFrame(x, parse)
  }

  function FramedAll(ms: seq<Message>, ser: Serializer): seq<Byte> {
    if ms == [] then [] else Framed(ms[0], ser) + FramedAll(ms[1..], ser)
  }

  predicate Writable(m: Message, ser: Serializer) {
    |ser(ToWire(m))| <= MAX_CONTENT_LENGTH && !HasNullData(m)
  }

  /** When each piece reads as one message and the next piece, the first reads as all of them and then as the last. */
  lemma {:induction false} PiecesRead(read: seq<Byte> -> Frame, pieces: seq<seq<Byte>>, ms: seq<Message>)
    requires |pieces| == |ms| + 1
    requires forall i :: 0 <= i < |ms| ==> read(pieces[i]) == Got(ms[i], pieces[i + 1]) && |pieces[i + 1]| < |pieces[i]|
    ensures ReadBy(read, pieces[0]).messages == ms + ReadBy(read, pieces[|ms|]).messages
    ensures ReadBy(read, pieces[0]).ending == ReadBy(read, pieces[|ms|]).ending
    decreases |ms|
  {
    if ms != [] {
      PiecesRead(read, pieces[1..], ms[1..]);
      assert ms == [ms[0]] + ms[1..];
    }
  }

  lemma FirstFrame(ms: seq<Message>, i: nat, tail: seq<Byte>, ser: Serializer)
    requires i < |ms|
    ensures FramedAll(ms[i..], ser) + tail == Framed(ms[i], ser) + (FramedAll(ms[i + 1..], ser) + tail)
  {
    assert ms[i..][1..] == ms[i + 1..];
  }

  /** Frames one after another read as their messages in order, then as what follows them. */
  lemma FramesThen(ms: seq<Message>, tail: seq<Byte>, s: seq<Byte>, ser: Serializer, parse: Parser)
    requires Inverse(ser, parse) && (forall m :: m in ms ==> Writable(m, ser)) && s == FramedAll(ms, ser) + tail
    ensures ReadStream(s, parse).messages == ms + ReadStream(tail, parse).messages
    ensures ReadStream(s, parse).ending == ReadStream(tail, parse).ending
  {
    var pieces := seq(|ms| + 1, i requires 0 <= i <= |ms| => FramedAll(ms[i..], ser) + tail);
    forall i | 0 <= i < |ms| ensures FrameReader(parse)(pieces[i]) == Got(ms[i], pieces[i + 1])
        && |pieces[i + 1]| < |pieces[i]| {
      PieceReads(ms, i, tail, pieces[i], pieces[i + 1], ser, parse);
    }
    PiecesRead(FrameReader(parse), pieces, ms);
    assert ms[0..] == ms && pieces[|ms|] == tail;
  }

  lemma PieceReads(ms: seq<Message>, i: nat, tail: seq<Byte>, piece: seq<Byte>, next: seq<Byte>, ser: Serializer,
                   parse: Parser)
    requires Inverse(ser, parse) && i < |ms| && Writable(ms[i], ser)
    requires piece == FramedAll(ms[i..], ser) + tail && next == FramedAll(ms[i + 1..], ser) + tail
    ensures FrameReader(parse)(piece) == Got(ms[i], next) && |next| < |piece|
  {
    FirstFrame(ms, i, tail, ser);
    FrameRoundTrip(ms[i], next, ser, parse);
  }

  /** Any concatenation of written frames reads back as its messages in order and then a clean end. */
  lemma StreamRoundTrip(ms: seq<Message>, ser: Serializer, parse: Parser)
    requires Inverse(ser, parse) && forall m :: m in ms ==> Writable(m, ser)
    ensures ReadStream(FramedAll(ms, ser), parse) == StreamRead(ms, Some(Eof))
  {
    FramesThen(ms, [], FramedAll(ms, ser), ser, parse);
    NothingLeft(parse);
    assert ms + [] == ms;
  }

  lemma NothingLeft(parse: Parser)
    ensures ReadStream([], parse) == StreamRead([], Some(Eof))
  {
    assert KnownLine([], MAX_HEADER_LINE_LEN) == NoLine;
  }

  lemma {:induction false} TrimKeepsFirst(line: seq<Byte>)
    requires line != [] && line[0] != CR && line[0] != LF
    ensures TrimEnd(line) != []
  {
    if |line| > 1 && (line[|line| - 1] == CR || line[|line| - 1] == LF) { TrimKeepsFirst(line[..|line| - 1]); }
  }

  /** A header cut before its break is malformed or leaves the header block open. */
  lemma CutLine(piece: seq<Byte>)
    requires piece != [] && Find(piece) == |piece| <= MAX_HEADER_LINE_LEN && piece[0] != CR && piece[0] != LF
    ensures ReadHeaders(piece, true, None).Bad? && ReadHeaders(piece, true, None).error != Eof
  {
    TrimKeepsFirst(piece);
    LastLine(piece, piece);
  }

  /** After a line that is the last of the stream the header block is still open. */
  lemma LastLine(s: seq<Byte>, line: seq<Byte>)
    requires KnownLine(s, MAX_HEADER_LINE_LEN) == WholeLine(line, []) && TrimEnd(line) != []
    ensures ReadHeaders(s, true, None).Bad? && ReadHeaders(s, true, None).error != Eof
  {
    var step := HeaderStep(TrimEnd(line), None);
    if step.Success? { OpenEnd(step.value); } else { StepError(TrimEnd(line), None); }
  }

  lemma OpenEnd(length: Option<nat>)
    ensures ReadHeaders([], false, length) == Bad(Io(UnexpectedEof))
  {
    assert KnownLine([], MAX_HEADER_LINE_LEN) == NoLine;
  }

  lemma StepError(trimmed: seq<Byte>, length: Option<nat>)
    ensures HeaderStep(trimmed, length).Failure? ==> HeaderStep(trimmed, length) == Failure(BadHeader(trimmed))
  {
  }

  lemma CutHeaders(n: nat, k: nat, head: seq<Byte>)
    requires n <= MAX_CONTENT_LENGTH && head == HeaderLine(n) + [CR, LF] + [CR, LF] && 0 < k < |head|
    ensures match ReadHeaders(head[..k], true, None)
            case Bad(e) => e != Eof
            case Done(length, rest) => length == Some(n) && rest == []
            case LongLine => false
  {
    var line := HeaderLine(n);
    assert Pow10(9) == 1_000_000_000;
    DecimalShort(n, 9);
    DecimalDigits(n);
    if k <= |line| + 1 {
      NoBreak(head[..k]);
      CutLine(head[..k]);
    } else {
      CutBlank(n, k - |line| - 2, head[..k]);
    }
  }

  /** The length line whole, the blank line cut. */
  lemma CutBlank(n: nat, k: nat, s: seq<Byte>)
    requires n <= MAX_CONTENT_LENGTH && k <= 1 && s == HeaderLine(n) + [CR, LF] + [CR][..k]
    ensures k == 0 ==> ReadHeaders(s, true, None) == Bad(Io(UnexpectedEof))
    ensures k == 1 ==> ReadHeaders(s, true, None) == Done(Some(n), [])
  {
    var rest := [CR][..k];
    HeaderLineFound(n, rest, s);
    HeaderLineMeans(n);
    LengthThen(n, s, rest);
    if k == 0 { OpenEnd(Some(n)); } else { LoneReturn(); }
  }

  lemma LengthThen(n: nat, s: seq<Byte>, rest: seq<Byte>)
    requires n <= MAX_CONTENT_LENGTH
    requires KnownLine(s, MAX_HEADER_LINE_LEN) == WholeLine(HeaderLine(n) + [CR, LF], rest)
    ensures ReadHeaders(s, true, None) == ReadHeaders(rest, false, Some(n))
  {
    HeaderLineMeans(n);
  }

  lemma LoneReturn()
    ensures KnownLine([CR], MAX_HEADER_LINE_LEN) == WholeLine([CR], []) && TrimEnd([CR]) == []
    ensures forall n :: ReadHeaders([CR], false, Some(n)) == Done(Some(n), [])
  {
    FindIs([CR], 1);
    TrimOne([], CR, [CR]);
  }

  /** A stream cut strictly inside a frame yields no message for it and never a clean end. */
  lemma CutFrame(m: Message, k: nat, ser: Serializer, parse: Parser)
    requires Inverse(ser, parse) && |ser(ToWire(m))| <= MAX_CONTENT_LENGTH && 0 < k < |Framed(m, ser)|
    ensures ReadFrame(Framed(m, ser)[..k], parse).Fails? && ReadFrame(Framed(m, ser)[..k], parse).error != Eof
  {
    var body := ser(ToWire(m));
    var head := HeaderLine(|body|) + [CR, LF] + [CR, LF];
    assert Framed(m, ser) == head + body;
    if k < |head| {
      assert (head + body)[..k] == head[..k];
      CutHeaders(|body|, k, head);
    } else {
      assert (head + body)[..k] == head + body[..k - |head|];
      HeadersOfFrame(|body|, body[..k - |head|]);
    }
  }

  /** The messages before the cut are still read, in order. */
  lemma CutStream(ms: seq<Message>, m: Message, k: nat, ser: Serializer, parse: Parser)
    requires Inverse(ser, parse) && (forall x :: x in ms ==> Writable(x, ser))
    requires |ser(ToWire(m))| <= MAX_CONTENT_LENGTH && 0 < k < |Framed(m, ser)|
    ensures var r := ReadStream(FramedAll(ms, ser) + Framed(m, ser)[..k], parse);
            r.messages == ms && r.ending.Some? && r.ending != Some(Eof)
  {
    CutFrame(m, k, ser, parse);
    FramesThen(ms, Framed(m, ser)[..k], FramedAll(ms, ser) + Framed(m, ser)[..k], ser, parse);
  }
}