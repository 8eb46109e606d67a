/** Header blocks as other writers make them: more headers than the length, in any letter case and spacing. */
module HeaderBlocks {
  import opened Wrappers
  import opened Messages
  import opened MessageWire
  import opened Framing
  import opened Codec

  const LOWER_NAME: seq<Byte> := [99, 111, 110, 116, 101, 110, 116, 45, 108, 101, 110, 103, 116, 104]

  const UPPER_NAME: seq<Byte> := [67, 79, 78, 84, 69, 78, 84, 45, 76, 69, 78, 71, 84, 72]

  /** "Content-Length" with each letter in either case. */
  predicate IsLengthName(name: seq<Byte>) {
    |name| == 14 && forall k :: 0 <= k < 14 ==> name[k] == LOWER_NAME[k] || name[k] == UPPER_NAME[k]
  }

  /** A header line: the length with its spaces and leading zeros, or any other. */
  datatype Field =
    | Length(name: seq<Byte>, lead: seq<Byte>, zeros: nat, n: nat, trail: seq<Byte>)
    | Other(name: seq<Byte>, value: seq<Byte>)

  function NumberText(zeros: nat, n: nat): seq<Byte> {
    seq(zeros, _ => ZERO) + Decimal(n)
  }

  function FieldText(f: Field): seq<Byte> {
    f.name + [COLON] + match f
                       case Length(_, lead, zeros, n, trail) => lead + NumberText(zeros, n) + trail
                       case Other(_, value) => value
  }

  predicate Spaces(v: seq<Byte>) {
    forall k :: 0 <= k < |v| ==> v[k] == 32 || v[k] == 9 || v[k] == 11 || v[k] == 12
  }

  /** A line short enough, without a break or a second colon in its name, and a length within the bound. */
  ghost predicate FieldOk(f: Field) {
    && |FieldText(f)| + 2 <= MAX_HEADER_LINE_LEN && (forall b :: b in FieldText(f) ==> b != CR && b != LF)
    && COLON !in f.name
    && match f
       case Length(name, lead, _, n, trail) =>
         IsLengthName(name) && Spaces(lead) && Spaces(trail) && n <= MAX_CONTENT_LENGTH
       case Other(name, _) => !IsLengthName(name)
  }

  function Block(fields: seq<Field>): seq<Byte> {
    if fields == [] then [] else FieldText(fields[0]) + [CR, LF] + Block(fields[1..])
  }

  /** The last length a block gives. */
  function LengthIn(fields: seq<Field>, known: Option<nat>): Option<nat> {
    if fields == [] then known
    else LengthIn(fields[1..], if fields[0].Length? then Some(fields[0].n) else known)
  }

  // ---- One line ----

  lemma CaseOf(b: Byte, k: nat)
    requires k < 14
    ensures Lower(b) == Lower(CONTENT_LENGTH[k]) <==> b == LOWER_NAME[k] || b == UPPER_NAME[k]
  {
    assert Lower(CONTENT_LENGTH[k]) == LOWER_NAME[k];
  }

  lemma NameInAnyCase(name: seq<Byte>)
    ensures EqIgnoreCase(name, CONTENT_LENGTH) <==> IsLengthName(name)
  {
    if |name| == 14 {
      forall k | 0 <= k < 14
        ensures Lower(name[k]) == Lower(CONTENT_LENGTH[k]) <==> name[k] == LOWER_NAME[k] || name[k] == UPPER_NAME[k]
      {
        CaseOf(name[k], k);
      }
    }
  }

  lemma {:induction false} NumberReads(zeros: nat, n: nat)
    ensures AllDigits(NumberText(zeros, n)) && Digits(NumberText(zeros, n)) == Some(n)
  {
    DecimalDigits(n);
    ZerosCount(zeros, Decimal(n));
  }

  lemma {:induction false} ZerosCount(zeros: nat, ds: seq<Byte>)
    requires AllDigits(ds) && Digits(ds).Some?
    ensures AllDigits(seq(zeros, _ => ZERO) + ds) && Digits(seq(zeros, _ => ZERO) + ds) == Digits(ds)
    decreases |ds|
  {
    var pad := seq(zeros, _ => ZERO);
    var all := pad + ds;
    assert all[|all| - 1] == ds[|ds| - 1] && all[..|all| - 1] == pad + ds[..|ds| - 1];
    if |ds| == 1 {
      assert ds[..0] == [] && pad + ds[..0] == pad;
      ZerosAlone(zeros);
    } else {
      ZerosCount(zeros, ds[..|ds| - 1]);
    }
  }

  lemma {:induction false} ZerosAlone(zeros: nat)
    ensures Digits(seq(zeros, _ => ZERO)) == Some(0)
  {
    var pad := seq(zeros, _ => ZERO);
    if zeros > 0 {
      assert pad[..zeros - 1] == seq(zeros - 1, _ => ZERO);
      ZerosAlone(zeros - 1);
    }
  }

  lemma {:induction false} SpacesTrimmed(lead: seq<Byte>, ds: seq<Byte>, trail: seq<Byte>)
    requires Spaces(lead) && Spaces(trail) && AllDigits(ds)
    ensures TrimEndSpace(TrimStartSpace(lead + ds + trail)) == ds
    decreases |lead|
  {
    var all := lead + ds + trail;
    if lead == [] {
      assert all == ds + trail && !IsSpace(all[0]);
      EndTrimmed(ds, trail);
    } else {
      assert all[1..] == lead[1..] + ds + trail && all[0] == lead[0];
      SpacesTrimmed(lead[1..], ds, trail);
    }
  }

  lemma {:induction false} EndTrimmed(ds: seq<Byte>, trail: seq<Byte>)
    requires Spaces(trail) && AllDigits(ds)
    ensures TrimEndSpace(ds + trail) == ds
    decreases |trail|
  {
    var all := ds + trail;
    if trail == [] {
      assert all == ds && !IsSpace(ds[|ds| - 1]);
    } else {
      assert all[..|all| - 1] == ds + trail[..|trail| - 1] && all[|all| - 1] == trail[|trail| - 1];
      EndTrimmed(ds, trail[..|trail| - 1]);
    }
  }

  lemma FieldMeans(f: Field, known: Option<nat>)
    requires FieldOk(f)
    ensures HeaderStep(FieldText(f), known) == Success(if f.Length? then Some(f.n) else known)
  {
    var text := FieldText(f);
    var value := text[|f.name| + 1..];
    assert text == f.name + ([COLON] + value);
    forall k | 0 <= k < |f.name| ensures f.name[k] != COLON { assert f.name[k] in f.name; }
    ColonPast(f.name, [COLON] + value);
    assert text[..|f.name|] == f.name;
    NameInAnyCase(f.name);
    if f.Length? {
      NumberReads(f.zeros, f.n);
      SpacesTrimmed(f.lead, NumberText(f.zeros, f.n), f.trail);
      assert value == f.lead + NumberText(f.zeros, f.n) + f.trail;
    }
  }

  lemma FieldFound(f: Field, more: seq<Byte>, s: seq<Byte>)
    requires FieldOk(f) && s == FieldText(f) + [CR, LF] + more
    ensures KnownLine(s, MAX_HEADER_LINE_LEN) == WholeLine(FieldText(f) + [CR, LF], more)
    ensures TrimEnd(FieldText(f) + [CR, LF]) == FieldText(f) != []
  {
    LineFound(FieldText(f), more, s);
  }

  lemma LineFound(text: seq<Byte>, more: seq<Byte>, s: seq<Byte>)
    requires text != [] && |text| + 2 <= MAX_HEADER_LINE_LEN && (forall b :: b in text ==> b != CR && b != LF)
    requires s == text + [CR, LF] + more
    ensures KnownLine(s, MAX_HEADER_LINE_LEN) == WholeLine(text + [CR, LF], more)
    ensures TrimEnd(text + [CR, LF]) == text
  {
    NoBreakIn(text);
    assert s == text + [CR] + [LF] + more;
    BreakFound(text + [CR], more, s);
    assert text + [CR, LF] == text + [CR] + [LF];
    assert text[|text| - 1] in text;
    TrimBreak(text, text + [CR, LF]);
  }

  lemma NoBreakIn(text: seq<Byte>)
    requires forall b :: b in text ==> b != CR && b != LF
    ensures forall k :: 0 <= k < |text + [CR]| ==> (text + [CR])[k] != LF
  {
    forall k | 0 <= k < |text| ensures text[k] != LF { assert text[k] in text; }
  }

  lemma BreakFound(line: seq<Byte>, more: seq<Byte>, s: seq<Byte>)
    requires |line| < MAX_HEADER_LINE_LEN && (forall k :: 0 <= k < |line| ==> line[k] != LF)
    requires s == line + [LF] + more
    ensures KnownLine(s, MAX_HEADER_LINE_LEN) == WholeLine(line + [LF], more)
  {
    NoBreak(line);
    FindPast(line, [LF] + more);
    assert s == line + ([LF] + more);
    assert s[..|line| + 1] == line + [LF] && s[|line| + 1..] == more;
  }

  // ---- Whole blocks ----

  /** A block of good lines reads as the last length it gives, whatever other headers stand around it. */
  lemma {:induction false} BlockReads(fields: seq<Field>, more: seq<Byte>, s: seq<Byte>, first: bool,
                                      known: Option<nat>)
    requires (forall f :: f in fields ==> FieldOk(f)) && s == Block(fields) + [CR, LF] + more
    ensures ReadHeaders(s, first, known) == Done(LengthIn(fields, known), more)
    decreases |fields|
  {
    if fields == [] {
      assert s == [CR, LF] + more;
      BlankLineFound(more);
    } else {
      var f, rest := fields[0], Block(fields[1..]) + [CR, LF] + more;
      assert s == FieldText(f) + [CR, LF] + rest;
      FieldFound(f, rest, s);
      FieldMeans(f, known);
      BlockReads(fields[1..], more, rest, false, if f.Length? then Some(f.n) else known);
    }
  }

  /** A body behind any block of headers that gives its length reads as its message. */
  lemma FrameAmongHeaders(fields: seq<Field>, m: Message, more: seq<Byte>, ser: Serializer, parse: Parser)
    requires Inverse(ser, parse) && Writable(m, ser) && forall f :: f in fields ==> FieldOk(f)
    ensures LengthIn(fields, None) == Some(|ser(ToWire(m))|) ==>
              ReadFrame(Block(fields) + [CR, LF] + (ser(ToWire(m)) + more), parse) == Got(m, more)
    ensures LengthIn(fields, None).None? ==>
              ReadFrame(Block(fields) + [CR, LF] + more, parse) == Fails(MissingLength)
  {
    var body := ser(ToWire(m));
    BlockReads(fields, body + more, Block(fields) + [CR, LF] + (body + more), true, None);
    BlockReads(fields, more, Block(fields) + [CR, LF] + more, true, None);
    assert (body + more)[..|body|] == body && (body + more)[|body|..] == more;
    WireRoundTrip(m);
  }

  /** A line that is no header, or a length line whose value is no number or one past the bound. */
  ghost predicate BadLine(line: seq<Byte>) {
    && line != [] && |line| + 2 <= MAX_HEADER_LINE_LEN && (forall b :: b in line ==> b != CR && b != LF)
    && (COLON !in line
        || exists name, value ::
             line == name + [COLON] + value && IsLengthName(name)
             && (value == [] || (exists b :: b in value && !(ZERO <= b <= NINE) && !IsSpace(b) && b != PLUS)
                 || exists zeros: nat, n: nat :: value == NumberText(zeros, n) && n > MAX_CONTENT_LENGTH))
  }

  lemma BadLineMeans(line: seq<Byte>, known: Option<nat>)
    requires BadLine(line)
    ensures HeaderStep(line, known) == Failure(BadHeader(line))
  {
    if COLON !in line {
      NoColon(line);
    } else {
      var name, value :| line == name + [COLON] + value && IsLengthName(name)
             && (value == [] || (exists b :: b in value && !(ZERO <= b <= NINE) && !IsSpace(b) && b != PLUS)
                 || exists zeros: nat, n: nat :: value == NumberText(zeros, n) && n > MAX_CONTENT_LENGTH);
      LengthValue(line, name, value, known);
      BadValue(value);
    }
  }

  lemma NoColon(line: seq<Byte>)
    requires COLON !in line
    ensures ColonAt(line) == |line|
  {
    forall k | 0 <= k < |line| ensures line[k] != COLON { assert line[k] in line; }
    ColonPast(line, []);
    assert line + [] == line;
  }

  lemma LengthValue(line: seq<Byte>, name: seq<Byte>, value: seq<Byte>, known: Option<nat>)
    requires line == name + [COLON] + value && IsLengthName(name)
    ensures var n := ParseLength(TrimEndSpace(TrimStartSpace(value)));
            HeaderStep(line, known) == if n.None? || n.value > MAX_CONTENT_LENGTH then Failure(BadHeader(line))
                                       else Success(n)
  {
    assert line == name + ([COLON] + value);
    forall k | 0 <= k < |name| ensures name[k] != COLON {}
    ColonPast(name, [COLON] + value);
    assert line[..|name|] == name && line[|name| + 1..] == value;
    NameInAnyCase(name);
  }

  lemma BadValue(value: seq<Byte>)
    requires value == [] || (exists b :: b in value && !(ZERO <= b <= NINE) && !IsSpace(b) && b != PLUS)
             || exists zeros: nat, n: nat :: value == NumberText(zeros, n) && n > MAX_CONTENT_LENGTH
    ensures var n := ParseLength(TrimEndSpace(TrimStartSpace(value))); n.None? || n.value > MAX_CONTENT_LENGTH
  {
    if value == [] {
    } else if b :| b in value && !(ZERO <= b <= NINE) && !IsSpace(b) && b != PLUS {
      BadChar(value, b);
    } else {
      var zeros: nat, n: nat :| value == NumberText(zeros, n) && n > MAX_CONTENT_LENGTH;
      NumberReads(zeros, n);
      SpacesTrimmed([], value, []);
      assert [] + value + [] == value;
    }
  }

  lemma BadChar(value: seq<Byte>, b: Byte)
    requires b in value && !(ZERO <= b <= NINE) && !IsSpace(b) && b != PLUS
    ensures ParseLength(TrimEndSpace(TrimStartSpace(value))).None?
  {
    TrimKeeps(value, b);
    var v := TrimEndSpace(TrimStartSpace(value));
    if v[0] == PLUS { assert v == [v[0]] + v[1..]; }
    NotDigits(if v[0] == PLUS then v[1..] else v, b);
  }

  lemma {:induction false} TrimKeeps(v: seq<Byte>, b: Byte)
    requires b in v && !IsSpace(b)
    ensures b in TrimEndSpace(TrimStartSpace(v))
    decreases |v|
  {
    if IsSpace(v[0]) {
      assert v == [v[0]] + v[1..];
      TrimKeeps(v[1..], b);
    } else {
      EndKeeps(v, b);
    }
  }

  lemma {:induction false} EndKeeps(v: seq<Byte>, b: Byte)
    requires b in v && !IsSpace(b)
    ensures b in TrimEndSpace(v)
    decreases |v|
  {
    if IsSpace(v[|v| - 1]) {
      assert v == v[..|v| - 1] + [v[|v| - 1]];
      EndKeeps(v[..|v| - 1], b);
    }
  }

  lemma {:induction false} NotDigits(ds: seq<Byte>, b: Byte)
    requires b in ds && !(ZERO <= b <= NINE)
    ensures Digits(ds).None?
    decreases |ds|
  {
    var init, d := ds[..|ds| - 1], ds[|ds| - 1];
    assert ds == init + [d];
    if d != b { NotDigits(init, b); }
  }

  /** A bad line behind good ones fails the read and is named in the failure. */
  lemma {:induction false} BadLineRefused(fields: seq<Field>, line: seq<Byte>, more: seq<Byte>, s: seq<Byte>,
                                          first: bool, known: Option<nat>)
    requires (forall f :: f in fields ==> FieldOk(f)) && BadLine(line)
    requires s == Block(fields) + (line + [CR, LF] + more)
    ensures ReadHeaders(s, first, known) == Bad(BadHeader(line))
    decreases |fields|
  {
    if fields == [] {
      assert s == line + [CR, LF] + more;
      LineFound(line, more, s);
      BadLineMeans(line, known);
    } else {
      var f, rest := fields[0], Block(fields[1..]) + (line + [CR, LF] + more);
      assert s == FieldText(f) + [CR, LF] + rest;
      FieldFound(f, rest, s);
      FieldMeans(f, known);
      BadLineRefused(fields[1..], line, more, rest, false, if f.Length? then Some(f.n) else known);
    }
  }
}
