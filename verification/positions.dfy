/** Wire positions: a line and a column in code units of the negotiated encoding, and char offsets. */
module Positions {
  import opened Lines

  datatype PositionEncoding = Utf8 | Utf16 | Utf32

  datatype WirePos = WirePos(line: nat, character: nat)

  /** Code units of one char. */
  function UnitLen(c: char, enc: PositionEncoding): (n: nat)
    ensures 1 <= n <= 4
  {
    match enc
    case Utf8 => if c as int < 0x80 then 1 else if c as int < 0x800 then 2 else if c as int < 0x1_0000 then 3 else 4
    case Utf16 => if c as int < 0x1_0000 then 1 else 2
    case Utf32 => 1
  }

  function Units(s: string, enc: PositionEncoding): nat {
    if s == [] then 0 else UnitLen(s[0], enc) + Units(s[1..], enc)
  }

  lemma {:induction false} UnitsConcat(a: string, b: string, enc: PositionEncoding)
    ensures Units(a + b, enc) == Units(a, enc) + Units(b, enc)
  {
    if a == [] {
      assert a + b == b;
    } else {
      assert (a + b)[1..] == a[1..] + b;
      UnitsConcat(a[1..], b, enc);
    }
  }

  lemma {:induction false} UnitsBounds(s: string, enc: PositionEncoding)
    ensures |s| <= Units(s, enc) <= 4 * |s|
    ensures enc == Utf32 ==> Units(s, enc) == |s|
  {
    if s != [] { UnitsBounds(s[1..], enc); }
  }

  lemma UnitsPart(t: string, from: nat, mid: nat, to: nat, enc: PositionEncoding)
    requires from <= mid <= to <= |t|
    ensures Units(t[from..to], enc) == Units(t[from..mid], enc) + Units(t[mid..to], enc)
    ensures mid < to ==> Units(t[from..mid], enc) < Units(t[from..to], enc)
  {
    assert t[from..to] == t[from..mid] + t[mid..to];
    UnitsConcat(t[from..mid], t[mid..to], enc);
    UnitsBounds(t[mid..to], enc);
  }

  // ---- Encoding ----

  /** A char offset's wire position; an offset past the end is the end. */
  function CharToWire(t: string, charIdx: nat, enc: PositionEncoding): WirePos {
    var i := if charIdx <= |t| then charIdx else |t|;
    var line := LineOf(t, i);
    var start := LineStart(t, i);
    WirePos(line, Units(t[start..i], enc))
  }

  /** Where the line of `i` starts. */
  function LineStart(t: string, i: nat): (s: nat)
    requires i <= |t|
    ensures s <= i
  {
    LineOfMonotone(t, i, |t|);
    StartFacts(t, LineOf(t, i));
    StartOf(t, LineOf(t, i))
  }

  // ---- Decoding ----

  /** The char a flat unit offset falls in, the end for one past it. */
  function UnitsToIndex(s: string, offset: nat, enc: PositionEncoding): (k: nat)
    ensures k <= |s|
  {
    if s == [] || offset < UnitLen(s[0], enc) then 0
    else 1 + UnitsToIndex(s[1..], offset - UnitLen(s[0], enc), enc)
  }

  lemma {:induction false} IndexRoundsDown(s: string, offset: nat, enc: PositionEncoding)
    ensures var k := UnitsToIndex(s, offset, enc);
            Units(s[..k], enc) <= offset && (k < |s| ==> offset < Units(s[..k + 1], enc))
  {
    var k := UnitsToIndex(s, offset, enc);
    if s != [] {
      assert s[..1][1..] == [] && Units(s[..1][1..], enc) == 0;
      if k > 0 {
        IndexRoundsDown(s[1..], offset - UnitLen(s[0], enc), enc);
        assert s[..k][1..] == s[1..][..k - 1];
        if k < |s| { assert s[..k + 1][1..] == s[1..][..k]; }
      }
    }
  }

  /** The text's end counts as the end of its last line. */
  function TerminatorStart(t: string, line: nat): nat {
    if line + 1 <= LineOf(t, |t|) && StartOf(t, line + 1) > 0 then StartOf(t, line + 1) - 1 else |t|
  }

  /** A wire position's char offset: a line past the last is the last, a column past its line its end. */
  function WireToChar(t: string, pos: WirePos, enc: PositionEncoding): (i: nat)
    ensures i <= |t|
  {
    var last := LineOf(t, |t|);
    var line := if pos.line <= last then pos.line else last;
    LineSpan(t, line);
    var start := StartOf(t, line);
    start + UnitsToIndex(t[start..TerminatorStart(t, line)], pos.character, enc)
  }

  lemma {:induction false} LineOfRun(t: string, p: nat, q: nat)
    requires p <= q <= |t| && forall k :: p <= k < q ==> t[k] != '\n'
    ensures LineOf(t, q) == LineOf(t, p)
  {
    if p < q { LineOfRun(t, p, q - 1); }
  }

  /** A line runs from its start to its break, and the next line starts right after. */
  lemma LineSpan(t: string, line: nat)
    requires line <= LineOf(t, |t|)
    ensures var s := StartOf(t, line);
            && s <= |t| && LineOf(t, s) == line && TerminatorStart(t, line) == BreakFrom(t, s)
            && (BreakFrom(t, s) == |t| <==> line == LineOf(t, |t|))
            && (BreakFrom(t, s) < |t| ==> StartOf(t, line + 1) == BreakFrom(t, s) + 1)
    ensures forall p :: 0 <= p <= |t| && LineOf(t, p) == line ==>
            StartOf(t, line) <= p <= BreakFrom(t, StartOf(t, line))
  {
    StartFacts(t, line);
    var s := StartOf(t, line);
    var b := BreakFrom(t, s);
    BreakMeans(t, s);
    LineOfRun(t, s, b);
    if b < |t| {
      assert LineOf(t, b + 1) == line + 1;
      LineOfMonotone(t, b + 1, |t|);
      StartFacts(t, line + 1);
      var n := StartOf(t, line + 1);
      if n < b + 1 { LineOfMonotone(t, n, b); }
    }
    forall p | 0 <= p <= |t| && LineOf(t, p) == line ensures s <= p <= b {
      if b < p { LineOfMonotone(t, b + 1, p); }
    }
  }

  // ---- The two agree ----

  lemma IndexOfUnits(s: string, k: nat, enc: PositionEncoding)
    requires k <= |s|
    ensures UnitsToIndex(s, Units(s[..k], enc), enc) == k
  {
    var j := UnitsToIndex(s, Units(s[..k], enc), enc);
    IndexRoundsDown(s, Units(s[..k], enc), enc);
    if k < j { UnitsPart(s, 0, k, j, enc); }
    if j < k { UnitsPart(s, 0, j + 1, k, enc); }
  }

  /** Decoding undoes encoding at every char offset, in every encoding. */
  lemma DecodeUndoesEncode(t: string, i: nat, enc: PositionEncoding)
    requires i <= |t|
    ensures CharToWire(t, i, enc).line <= LineOf(t, |t|)
    ensures WireToChar(t, CharToWire(t, i, enc), enc) == i
  {
    LineOfMonotone(t, i, |t|);
    var line := LineOf(t, i);
    LineSpan(t, line);
    var s := StartOf(t, line);
    Slice(t, s, BreakFrom(t, s), i);
    IndexOfUnits(t[s..BreakFrom(t, s)], i - s, enc);
  }

  predicate AtOrBefore(a: WirePos, b: WirePos) {
    a.line < b.line || (a.line == b.line && a.character <= b.character)
  }

  /** Later offsets have later positions. */
  lemma EncodeAscends(t: string, i: nat, j: nat, enc: PositionEncoding)
    requires i < j <= |t|
    ensures !AtOrBefore(CharToWire(t, j, enc), CharToWire(t, i, enc))
  {
    LineOfMonotone(t, i, j);
    if LineOf(t, i) == LineOf(t, j) { UnitsPart(t, LineStart(t, i), i, j, enc); }
  }

  lemma OnLine(t: string, line: nat, p: nat, enc: PositionEncoding)
    requires line <= LineOf(t, |t|) && StartOf(t, line) <= |t|
    requires StartOf(t, line) <= p <= BreakFrom(t, StartOf(t, line))
    ensures CharToWire(t, p, enc) == WirePos(line, Units(t[StartOf(t, line)..p], enc))
  {
    LineSpan(t, line);
    BreakMeans(t, StartOf(t, line));
    LineOfRun(t, StartOf(t, line), p);
  }

  lemma PastBreak(t: string, line: nat, enc: PositionEncoding, p: nat)
    requires line <= LineOf(t, |t|) && StartOf(t, line) <= |t| && p == BreakFrom(t, StartOf(t, line)) + 1 <= |t|
    ensures CharToWire(t, p, enc).line == line + 1
  {
    LineSpan(t, line);
    BreakMeans(t, StartOf(t, line));
    LineOfRun(t, StartOf(t, line), p - 1);
  }

  lemma Slice(t: string, s: nat, b: nat, i: nat)
    requires s <= i <= b <= |t|
    ensures t[s..b][..i - s] == t[s..i]
  {
  }

  lemma DecodeParts(t: string, pos: WirePos, enc: PositionEncoding) returns (s: nat, b: nat)
    requires pos.line <= LineOf(t, |t|)
    ensures s == StartOf(t, pos.line) && s <= WireToChar(t, pos, enc) <= b <= |t| && b == BreakFrom(t, s)
    ensures Units(t[s..WireToChar(t, pos, enc)], enc) <= pos.character
    ensures WireToChar(t, pos, enc) < b ==> Units(t[s..WireToChar(t, pos, enc) + 1], enc) > pos.character
  {
    LineSpan(t, pos.line);
    s := StartOf(t, pos.line);
    b := BreakFrom(t, s);
    var i := WireToChar(t, pos, enc);
    IndexRoundsDown(t[s..b], pos.character, enc);
    Slice(t, s, b, i);
    if i < b { Slice(t, s, b, i + 1); }
  }

  /** The position just past what decoding finds is past the given one. */
  lemma PastDecoded(t: string, pos: WirePos, enc: PositionEncoding, i: nat)
    requires pos.line <= LineOf(t, |t|) && i == WireToChar(t, pos, enc) < |t|
    ensures !AtOrBefore(CharToWire(t, i + 1, enc), pos)
  {
    var s, b := DecodeParts(t, pos, enc);
    if i < b { PastColumn(t, pos, enc, i + 1); } else { PastBreak(t, pos.line, enc, i + 1); }
  }

  lemma PastColumn(t: string, pos: WirePos, enc: PositionEncoding, p: nat)
    requires pos.line <= LineOf(t, |t|) && StartOf(t, pos.line) <= |t|
    requires StartOf(t, pos.line) <= p <= BreakFrom(t, StartOf(t, pos.line))
    requires Units(t[StartOf(t, pos.line)..p], enc) > pos.character
    ensures !AtOrBefore(CharToWire(t, p, enc), pos)
  {
    OnLine(t, pos.line, p, enc);
  }

  lemma AtDecoded(t: string, pos: WirePos, enc: PositionEncoding, i: nat)
    requires pos.line <= LineOf(t, |t|) && i == WireToChar(t, pos, enc)
    ensures AtOrBefore(CharToWire(t, i, enc), pos)
  {
    var s, b := DecodeParts(t, pos, enc);
    OnLine(t, pos.line, i, enc);
  }

  /** A line past the last stands for the last. */
  function OnText(t: string, pos: WirePos): WirePos {
    if pos.line <= LineOf(t, |t|) then pos else WirePos(LineOf(t, |t|), pos.character)
  }

  /** Decoding finds the last offset whose position is not past the given one, on the last line when there is no
      such line: a column inside a char or a surrogate pair falls back to that char, one past the line to the line's
      end. */
  lemma DecodeIsLast(t: string, pos: WirePos, enc: PositionEncoding, j: nat)
    requires j <= |t|
    ensures AtOrBefore(CharToWire(t, j, enc), OnText(t, pos)) <==> j <= WireToChar(t, pos, enc)
  {
    DecodeOnLine(t, OnText(t, pos), enc, j);
  }

  lemma DecodeOnLine(t: string, pos: WirePos, enc: PositionEncoding, j: nat)
    requires pos.line <= LineOf(t, |t|) && j <= |t|
    ensures AtOrBefore(CharToWire(t, j, enc), pos) <==> j <= WireToChar(t, pos, enc)
  {
    var i := WireToChar(t, pos, enc);
    AtDecoded(t, pos, enc, i);
    if i < |t| { PastDecoded(t, pos, enc, i); }
    if j < i { EncodeAscends(t, j, i, enc); }
    if i + 1 < j { EncodeAscends(t, i + 1, j, enc); }
  }
}
