/** The encodings behind wire positions, written out: what a column counts is the length of an encoded text. */
module CodeUnits {
  import opened Wrappers
  import opened Lines
  import opened Positions

  /** One unit, or a surrogate pair for a char past the first 65536. */
  function Utf16Of(c: char): seq<nat> {
    var v := c as int;
    if v < 0x1_0000 then [v] else [0xD800 + (v - 0x1_0000) / 0x400, 0xDC00 + (v - 0x1_0000) % 0x400]
  }

  /** A lead byte that tells how many follow, then six bits a byte. */
  function Utf8Of(c: char): seq<nat> {
    var v := c as int;
    if v < 0x80 then [v]
    else if v < 0x800 then [0xC0 + v / 0x40, 0x80 + v % 0x40]
    else if v < 0x1_0000 then [0xE0 + v / 0x40 / 0x40, 0x80 + v / 0x40 % 0x40, 0x80 + v % 0x40]
    else [0xF0 + v / 0x40 / 0x40 / 0x40, 0x80 + v / 0x40 / 0x40 % 0x40, 0x80 + v / 0x40 % 0x40, 0x80 + v % 0x40]
  }

  function CharUnits(c: char, enc: PositionEncoding): seq<nat> {
    match enc
    case Utf8 => Utf8Of(c)
    case Utf16 => Utf16Of(c)
    case Utf32 => [c as int]
  }

  function Encoded(s: string, enc: PositionEncoding): seq<nat> {
    if s == [] then [] else CharUnits(s[0], enc) + Encoded(s[1..], enc)
  }

  // ---- Reading it back ----

  /** The char at the front of some units, and how many it takes. */
  datatype Front = Front(c: char, len: nat)

  predicate Scalar(v: int) {
    0 <= v < 0xD800 || 0xE000 <= v < 0x11_0000
  }

  function FrontOf(v: int, least: int, len: nat): Option<Front> {
    if Scalar(v) && v >= least then Some(Front(v as char, len)) else None
  }

  predicate Low(u: nat) { 0xDC00 <= u < 0xE000 }

  function Utf16Front(units: seq<nat>): Option<Front>
    requires units != []
  {
    if !(0xD800 <= units[0] < 0xDC00) then FrontOf(units[0], 0, 1)
    else if |units| > 1 && Low(units[1]) then
      FrontOf(0x1_0000 + (units[0] - 0xD800) * 0x400 + (units[1] - 0xDC00), 0x1_0000, 2)
    else None
  }

  /** The first `n` units are continuation bytes. */
  predicate Follow(units: seq<nat>, n: nat) {
    n <= |units| && forall i :: 0 <= i < n ==> 0x80 <= units[i] < 0xC0
  }

  function Utf8Front(units: seq<nat>): Option<Front>
    requires units != []
  {
    var b, rest := units[0], units[1..];
    if b < 0x80 then FrontOf(b, 0, 1)
    else if 0xC0 <= b < 0xE0 && Follow(rest, 1) then FrontOf((b - 0xC0) * 0x40 + (rest[0] - 0x80), 0x80, 2)
    else if 0xE0 <= b < 0xF0 && Follow(rest, 2) then
      FrontOf((b - 0xE0) * 0x1000 + (rest[0] - 0x80) * 0x40 + (rest[1] - 0x80), 0x800, 3)
    else if 0xF0 <= b < 0xF8 && Follow(rest, 3) then
      FrontOf((b - 0xF0) * 0x4_0000 + (rest[0] - 0x80) * 0x1000 + (rest[1] - 0x80) * 0x40 + (rest[2] - 0x80),
          0x1_0000, 4)
    else None
  }

  function FrontChar(units: seq<nat>, enc: PositionEncoding): (r: Option<Front>)
    requires units != []
    ensures r.Some? ==> 0 < r.value.len <= |units|
  {
    match enc
    case Utf8 => Utf8Front(units)
    case Utf16 => Utf16Front(units)
    case Utf32 => FrontOf(units[0], 0, 1)
  }

  /** The text some units encode; none when they encode no text. */
  function Decoded(units: seq<nat>, enc: PositionEncoding): Option<string>
    decreases |units|
  {
    if units == [] then Some([])
    else
      var front := FrontChar(units, enc);
      if front.None? then None
      else
        var rest := Decoded(units[front.value.len..], enc);
        if rest.None? then None else Some([front.value.c] + rest.value)
  }

  lemma Utf16Reads(c: char, rest: seq<nat>)
    ensures Utf16Front(Utf16Of(c) + rest) == Some(Front(c, |Utf16Of(c)|))
  {
  }

  /** Six bits at a time and what is left make the number again. */
  lemma SixBits(v: nat)
    ensures v == v / 0x40 / 0x40 * 0x1000 + v / 0x40 % 0x40 * 0x40 + v % 0x40
    ensures v == v / 0x40 / 0x40 / 0x40 * 0x4_0000 + v / 0x40 / 0x40 % 0x40 * 0x1000 + v / 0x40 % 0x40 * 0x40 + v % 0x40
  {
    var q := v / 0x40;
    var r := q / 0x40;
    assert v == q * 0x40 + v % 0x40 && q == r * 0x40 + q % 0x40 && r == r / 0x40 * 0x40 + r % 0x40;
  }

  lemma Utf8Reads(c: char, rest: seq<nat>)
    ensures Utf8Front(Utf8Of(c) + rest) == Some(Front(c, |Utf8Of(c)|))
  {
    var lead, units := Utf8Of(c), Utf8Of(c) + rest;
    SixBits(c as int);
    assert units[1..] == lead[1..] + rest && units[0] == lead[0];
    Followed(lead[1..], rest);
  }

  lemma Followed(a: seq<nat>, rest: seq<nat>)
    requires forall i :: 0 <= i < |a| ==> 0x80 <= a[i] < 0xC0
    ensures Follow(a + rest, |a|) && forall i :: 0 <= i < |a| ==> (a + rest)[i] == a[i]
  {
  }

  lemma CharReads(c: char, rest: seq<nat>, enc: PositionEncoding)
    ensures CharUnits(c, enc) != [] && FrontChar(CharUnits(c, enc) + rest, enc) == Some(Front(c, |CharUnits(c, enc)|))
  {
    match enc
    case Utf8 => Utf8Reads(c, rest);
    case Utf16 => Utf16Reads(c, rest);
    case Utf32 =>
  }

  /** Decoding undoes encoding, in every encoding. */
  lemma {:induction false} DecodedEncoded(s: string, enc: PositionEncoding)
    ensures Decoded(Encoded(s, enc), enc) == Some(s)
  {
    if s != [] {
      var first, rest := CharUnits(s[0], enc), Encoded(s[1..], enc);
      CharReads(s[0], rest, enc);
      DecodedEncoded(s[1..], enc);
      assert (first + rest)[|first|..] == rest;
      assert s == [s[0]] + s[1..];
    }
  }

  function Limit(enc: PositionEncoding): nat {
    match enc
    case Utf8 => 0x100
    case Utf16 => 0x1_0000
    case Utf32 => 0x11_0000
  }

  /** UTF-8 units are bytes and UTF-16 units 16-bit words. */
  lemma {:induction false} UnitsFit(s: string, enc: PositionEncoding)
    ensures forall u :: u in Encoded(s, enc) ==> u < Limit(enc)
  {
    if s != [] { UnitsFit(s[1..], enc); }
  }

  // ---- What positions count ----

  /** The units counted of a text are those of its encoding. */
  lemma {:induction false} UnitsAreEncoded(s: string, enc: PositionEncoding)
    ensures Units(s, enc) == |Encoded(s, enc)|
  {
    if s != [] { UnitsAreEncoded(s[1..], enc); }
  }

  /** A position's line counts the breaks before it, and its column the units of the line before it. */
  lemma ColumnIsEncoded(t: string, i: nat, enc: PositionEncoding)
    requires i <= |t|
    ensures var s := LineStart(t, i);
            && (s == 0 || t[s - 1] == '\n') && (forall k :: s <= k < i ==> t[k] != '\n')
            && CharToWire(t, i, enc) == WirePos(LineOf(t, i), |Encoded(t[s..i], enc)|)
  {
    UnitsAreEncoded(t[LineStart(t, i)..i], enc);
    LineStartFacts(t, i);
  }

  lemma LineStartFacts(t: string, i: nat)
    requires i <= |t|
    ensures var s := LineStart(t, i);
            (s == 0 || t[s - 1] == '\n') && (forall k :: s <= k < i ==> t[k] != '\n')
  {
    LineOfMonotone(t, i, |t|);
    StartFacts(t, LineOf(t, i));
    var s := LineStart(t, i);
    forall k | s <= k < i ensures t[k] != '\n' {
      LineOfMonotone(t, s, k);
      LineOfMonotone(t, k + 1, i);
    }
  }
}
