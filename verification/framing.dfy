/** Bytes and header lines: reading bounded lines from a chunked stream, and the text of a `Content-Length` header. */
module Framing {
  import opened Wrappers

  newtype Byte = x: int | 0 <= x < 256

  const LF: Byte := 10
  const CR: Byte := 13
  const SPACE: Byte := 32
  const PLUS: Byte := 43
  const ZERO: Byte := 48
  const NINE: Byte := 57
  const COLON: Byte := 58

  const MAX_CONTENT_LENGTH: nat := 256 * 1024 * 1024

  const MAX_HEADER_LINE_LEN: nat := 64 * 1024

  // ---- Lines ----

  /** The first line break, the length when there is none. */
  function Find(s: seq<Byte>): (p: nat)
    ensures p <= |s|
  {
    if s == [] || s[0] == LF then 0 else 1 + Find(s[1..])
  }

  lemma {:induction false} FindIs(s: seq<Byte>, p: nat)
    requires p <= |s| && (p < |s| ==> s[p] == LF) && forall k :: 0 <= k < p ==> s[k] != LF
    ensures Find(s) == p
  {
    if p > 0 {
      forall k | 0 <= k < p - 1 ensures s[1..][k] != LF {
        assert s[1..][k] == s[k + 1];
      }
      FindIs(s[1..], p - 1);
    }
  }

  function Flatten(chunks: seq<seq<Byte>>): seq<Byte> {
    if chunks == [] then [] else chunks[0] + Flatten(chunks[1..])
  }

  /** The chunks after `n` bytes of the first. */
  function Consumed(chunks: seq<seq<Byte>>, n: nat): seq<seq<Byte>>
    requires chunks != [] && n <= |chunks[0]|
  {
    if n == |chunks[0]| then chunks[1..] else [chunks[0][n..]] + chunks[1..]
  }

  datatype LineRead = End | Line(bytes: seq<Byte>) | TooLong

  /** What the bounded read makes of the chunks, `buf` read already: the bound is looked at only after a chunk
      without a break. */
  function BoundedLine(chunks: seq<seq<Byte>>, buf: seq<Byte>, max: nat): (LineRead, seq<seq<Byte>>)
    decreases |chunks|
  {
    if chunks == [] then (if buf == [] then End else Line(buf), [])
    else
      var available := chunks[0];
      var pos := Find(available);
      if pos < |available| then
        (Line(buf + available[..pos + 1]), Consumed(chunks, pos + 1))
      else if |buf| + |available| > max then (TooLong, chunks[1..])
      else BoundedLine(chunks[1..], buf + available, max)
  }

  ghost predicate NoEmpty(chunks: seq<seq<Byte>>) {
    forall k :: 0 <= k < |chunks| ==> chunks[k] != []
  }

  /** What the contents alone tell of the next line: the line and the rest when its break comes within the bound. */
  datatype Known = NoLine | WholeLine(bytes: seq<Byte>, rest: seq<Byte>) | OverLong | Unknown

  function KnownLine(s: seq<Byte>, max: nat): (k: Known)
    ensures k.WholeLine? ==> |k.rest| < |s|
  {
    var p := Find(s);
    if p < |s| then (if p <= max then WholeLine(s[..p + 1], s[p + 1..]) else Unknown)
    else if s == [] then NoLine
    else if |s| <= max then WholeLine(s, []) else OverLong
  }

  /** Some chunk ends past the bound and before the break at `p`. */
  ghost predicate CutBetween(chunks: seq<seq<Byte>>, start: nat, max: nat, p: nat)
    decreases |chunks|
  {
    chunks != [] && start + |chunks[0]| <= p && (start + |chunks[0]| > max
        || CutBetween(chunks[1..], start + |chunks[0]|, max, p))
  }

  /** What reading gives, by what the contents tell; `cut` whether a chunk ends between the bound and the break. */
  ghost predicate ReadsAs(s: seq<Byte>, max: nat, cut: bool, r: LineRead, rest: seq<seq<Byte>>) {
    match KnownLine(s, max)
    case NoLine => r == End && rest == []
    case WholeLine(bytes, more) => r == Line(bytes) && Flatten(rest) == more && NoEmpty(rest)
    case OverLong => r == TooLong
    case Unknown =>
      if cut then r == TooLong
      else r == Line(s[..Find(s) + 1]) && Flatten(rest) == s[Find(s) + 1..] && NoEmpty(rest)
  }

  /** What reading makes of the chunks, `buf` read already, is what the contents `s` tell of. */
  ghost predicate ReadsLine(chunks: seq<seq<Byte>>, buf: seq<Byte>, max: nat, s: seq<Byte>) {
    var (r, rest) := BoundedLine(chunks, buf, max);
    ReadsAs(s, max, CutBetween(chunks, |buf|, max, Find(s)), r, rest)
  }

  /** However the bytes are chunked the read gives the line the contents tell of; past the bound it fails just
      when a chunk ends between the bound and the break. */
  lemma {:induction false} LineOfContents(chunks: seq<seq<Byte>>, buf: seq<Byte>, max: nat, s: seq<Byte>)
    requires s == buf + Flatten(chunks) && NoEmpty(chunks) && Find(buf) == |buf| && |buf| <= max
    ensures ReadsLine(chunks, buf, max, s)
    decreases |chunks|, 0
  {
    if chunks == [] {
      LineEnds(buf, max, s);
    } else {
      var available, rest := chunks[0], chunks[1..];
      assert chunks == [available] + rest;
      FindConcat(buf, available, Flatten(rest), Flatten(chunks), s);
      if Find(available) < |available| {
        LineBreaks(chunks, buf, available, rest, max, s);
      } else if |buf| + |available| > max {
        LineOverflows(chunks, buf, available, rest, max, s);
      } else {
        LineOfRest(chunks, buf, available, rest, max, s);
      }
    }
  }

  lemma LineEnds(buf: seq<Byte>, max: nat, s: seq<Byte>)
    requires s == buf + [] && Find(buf) == |buf| && |buf| <= max
    ensures ReadsLine([], buf, max, s)
  {
    assert s == buf;
  }

  lemma LineBreaks(chunks: seq<seq<Byte>>, buf: seq<Byte>, available: seq<Byte>, rest: seq<seq<Byte>>, max: nat,
                   s: seq<Byte>)
    requires chunks == [available] + rest && NoEmpty(chunks) && Find(available) < |available|
    requires s == buf + Flatten(chunks) && Find(s) == |buf| + Find(available)
    ensures ReadsLine(chunks, buf, max, s)
  {
    var pos := Find(available);
    BrokenHere(chunks, buf, pos, max, s);
    BreaksInFirst(chunks, buf, available, max, pos);
  }

  lemma BreaksInFirst(chunks: seq<seq<Byte>>, buf: seq<Byte>, available: seq<Byte>, max: nat, pos: nat)
    requires chunks != [] && chunks[0] == available && pos == Find(available) < |available|
    ensures BoundedLine(chunks, buf, max) == (Line(buf + available[..pos + 1]), Consumed(chunks, pos + 1))
    ensures !CutBetween(chunks, |buf|, max, |buf| + pos)
  {
  }

  lemma LineOverflows(chunks: seq<seq<Byte>>, buf: seq<Byte>, available: seq<Byte>, rest: seq<seq<Byte>>, max: nat,
                      s: seq<Byte>)
    requires chunks == [available] + rest && Find(available) == |available| && |buf| + |available| > max
    requires Find(s) >= |buf| + |available|
    ensures ReadsLine(chunks, buf, max, s)
  {
    assert chunks[0] == available && chunks[1..] == rest;
    TooLongHere(s, max, |buf| + |available|, rest);
  }

  /** A chunk without a break, within the bound: the line goes on in the next one. */
  lemma {:induction false} LineOfRest(chunks: seq<seq<Byte>>, buf: seq<Byte>, available: seq<Byte>,
                                      rest: seq<seq<Byte>>, max: nat,
                                      s: seq<Byte>)
    requires chunks == [available] + rest && NoEmpty(chunks) && |buf| + |available| <= max
             && Find(available) == |available|
    requires s == (buf + available) + Flatten(rest) && Find(buf + available) == |buf + available| <= Find(s)
    ensures ReadsLine(chunks, buf, max, s)
    decreases |rest|, 1
  {
    assert chunks[0] == available && chunks[1..] == rest;
    LineOfContents(rest, buf + available, max, s);
  }

  /** Past the bound the chunking decides: the same line read whole or refused. */
  lemma ChunkingMatters(max: nat, x: Byte) returns (whole: seq<seq<Byte>>, cut: seq<seq<Byte>>)
    requires x != LF
    ensures NoEmpty(whole) && NoEmpty(cut) && Flatten(whole) == Flatten(cut)
    ensures BoundedLine(whole, [], max).0 == Line(Flatten(whole)) && BoundedLine(cut, [], max).0 == TooLong
  {
    var long := seq(max + 1, _ => x);
    FindIs(long, |long|);
    FindPast(long, [LF]);
    whole, cut := [long + [LF]], [long, [LF]];
    assert whole[1..] == [] && cut[1..] == [[LF]] && cut[1..][1..] == [];
    assert Flatten(cut[1..]) == [LF];
    assert [] + (long + [LF])[..max + 2] == long + [LF];
  }

  lemma BrokenHere(chunks: seq<seq<Byte>>, buf: seq<Byte>, pos: nat, max: nat, s: seq<Byte>)
    requires chunks != [] && s == buf + Flatten(chunks) && pos < |chunks[0]| && NoEmpty(chunks)
             && Find(s) == |buf| + pos
    ensures ReadsAs(s, max, false, Line(buf + chunks[0][..pos + 1]), Consumed(chunks, pos + 1))
  {
    ConsumedBytes(chunks, pos + 1);
    var rest := Consumed(chunks, pos + 1);
    assert s[..|buf| + pos + 1] == buf + chunks[0][..pos + 1];
    assert Flatten(rest) == s[|buf| + pos + 1..];
  }

  lemma TooLongHere(s: seq<Byte>, max: nat, seen: nat, rest: seq<seq<Byte>>)
    requires max < seen <= Find(s)
    ensures ReadsAs(s, max, true, TooLong, rest)
  {
  }

  lemma {:induction false} FindPast(a: seq<Byte>, b: seq<Byte>)
    requires Find(a) == |a|
    ensures Find(a + b) == |a| + Find(b)
  {
    if a == [] {
      assert a + b == b;
    } else {
      assert (a + b)[1..] == a[1..] + b;
      FindPast(a[1..], b);
    }
  }

  lemma {:induction false} FindWithin(a: seq<Byte>, b: seq<Byte>)
    requires Find(a) < |a|
    ensures Find(a + b) == Find(a)
  {
    if a[0] != LF {
      assert (a + b)[1..] == a[1..] + b;
      FindWithin(a[1..], b);
    }
  }

  lemma FindConcat(buf: seq<Byte>, available: seq<Byte>, more: seq<Byte>, ahead: seq<Byte>, s: seq<Byte>)
    requires Find(buf) == |buf| && ahead == available + more && s == buf + ahead
    ensures s == (buf + available) + more && Find(buf + available) == |buf| + Find(available)
    ensures Find(available) < |available| ==> Find(s) == |buf| + Find(available)
    ensures Find(available) == |available| ==> Find(s) >= |buf| + |available|
  {
    FindPast(buf, available);
    FindPast(buf, ahead);
    FindFirst(available, more, ahead);
  }

  lemma FindFirst(a: seq<Byte>, b: seq<Byte>, ab: seq<Byte>)
    requires ab == a + b
    ensures Find(a) < |a| ==> Find(ab) == Find(a)
    ensures Find(a) == |a| ==> Find(ab) >= |a|
  {
    if Find(a) < |a| { FindWithin(a, b); } else { FindPast(a, b); }
  }

  lemma ConsumedBytes(chunks: seq<seq<Byte>>, n: nat)
    requires chunks != [] && n <= |chunks[0]|
    ensures Flatten(Consumed(chunks, n)) == chunks[0][n..] + Flatten(chunks[1..]) == Flatten(chunks)[n..]
    ensures NoEmpty(chunks) ==> NoEmpty(Consumed(chunks, n))
  {
    var head, rest, flat := chunks[0], chunks[1..], Flatten(chunks[1..]);
    assert (head + flat)[n..] == head[n..] + flat;
    if n < |head| {
      FlattenHead(head[n..], rest, [head[n..]] + rest);
    } else {
      assert head[n..] + flat == flat;
    }
  }

  lemma FlattenHead(head: seq<Byte>, rest: seq<seq<Byte>>, chunks: seq<seq<Byte>>)
    requires chunks == [head] + rest
    ensures Flatten(chunks) == head + Flatten(rest)
  {
    assert chunks[1..] == rest;
  }

  /** A buffered reader: bytes come in whatever chunks the source fills. */
  class Reader {
    var chunks: seq<seq<Byte>>

    ghost predicate Valid() reads this { NoEmpty(chunks) }

    constructor (chunks: seq<seq<Byte>>)
      requires NoEmpty(chunks)
      ensures Valid() && this.chunks == chunks
    {
      this.chunks := chunks;
    }

    /** The bytes at hand, none only at the end of the stream. */
    method FillBuf() returns (available: seq<Byte>)
      requires Valid()
      ensures available == if chunks == [] then [] else chunks[0]
    {
      available := if chunks == [] then [] else chunks[0];
    }

    method Consume(n: nat)
      requires Valid() && chunks != [] && 0 < n <= |chunks[0]|
      modifies this
      ensures Valid() && Flatten(chunks) == Flatten(old(chunks))[n..]
      ensures chunks == Consumed(old(chunks), n)
    {
      ConsumedBytes(chunks, n);
      chunks := if n == |chunks[0]| then chunks[1..] else [chunks[0][n..]] + chunks[1..];
    }

    /** One line through its break, bounded. */
    method ReadBoundedLine(max: nat) returns (r: LineRead)
      requires Valid()
      modifies this
      ensures Valid() && (r, chunks) == BoundedLine(old(chunks), [], max)
    {
      var buf := [];
      while true
        invariant Valid() && BoundedLine(chunks, buf, max) == BoundedLine(old(chunks), [], max)
        decreases |chunks|
      {
        var available := FillBuf();
        if available == [] { return if buf == [] then End else Line(buf); }
        var pos := Find(available);
        if pos < |available| {
          buf := buf + available[..pos + 1];
          Consume(pos + 1);
          return Line(buf);
        }
        buf := buf + available;
        Consume(|available|);
        if |buf| > max { return TooLong; }
      }
    }

    /** Exactly `n` bytes, none when the stream ends first. */
    method ReadExact(n: nat) returns (r: Option<seq<Byte>>)
      requires Valid()
      modifies this
      ensures Valid()
      ensures r == if n <= |Flatten(old(chunks))| then Some(Flatten(old(chunks))[..n]) else None
      ensures r.Some? ==> Flatten(chunks) == Flatten(old(chunks))[n..]
    {
      var body := [];
      while |body| < n
        invariant Valid() && |body| <= n && body + Flatten(chunks) == Flatten(old(chunks))
        decreases n - |body|
      {
        var available := FillBuf();
        if available == [] { return None; }
        var k := if |available| <= n - |body| then |available| else n - |body|;
        TakeSome(body, chunks, k);
        body := body + available[..k];
        Consume(k);
      }
      return Some(body);
    }
  }

  lemma TakeSome(body: seq<Byte>, chunks: seq<seq<Byte>>, k: nat)
    requires chunks != [] && k <= |chunks[0]|
    ensures (body + chunks[0][..k]) + Flatten(chunks)[k..] == body + Flatten(chunks)
  {
  }
}
