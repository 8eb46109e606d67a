/** The changed text inside a hunk's lines: edited ranges cut to the lines they fall in. */
module WordSpans {
  import opened Wrappers
  import opened Integers
  import opened Sequences
  import opened Lines

  datatype Range = Range(start: nat, end: nat)

  /** The part of a range inside one line's content, in chars of the lines joined by one break each. */
  datatype Part = Part(index: nat, lineStart: nat, start: nat, end: nat)

  /** In order, none reaching into the next. */
  ghost predicate Ascending(ranges: seq<Range>) {
    && (forall i :: 0 <= i < |ranges| ==> ranges[i].start <= ranges[i].end)
    && (forall i, j :: 0 <= i < j < |ranges| ==> ranges[i].end <= ranges[j].start)
  }

  function JoinedStart(lines: seq<string>, i: nat): nat
    requires i <= |lines|
  {
    if i == 0 then 0 else JoinedStart(lines, i - 1) + |lines[i - 1]| + 1
  }

  /** What of a range lies in line `i`; nothing when it is empty there or covers the whole line. */
  function PartOf(lines: seq<string>, i: nat, r: Range): Option<Part>
    requires i < |lines|
  {
    var (from, to) := (JoinedStart(lines, i), JoinedStart(lines, i) + |lines[i]|);
    var (start, end) := (Max(r.start, from), Min(r.end, to));
    if start < end && !(start == from && end == to) then Some(Part(i, from, start, end)) else None
  }

  function AsSeq(p: Option<Part>): seq<Part> {
    match p case Some(part) => [part] case None => []
  }

  function LineParts(lines: seq<string>, i: nat, ranges: seq<Range>): seq<Part>
    requires i < |lines|
  {
    if ranges == [] then [] else AsSeq(PartOf(lines, i, ranges[0])) + LineParts(lines, i, ranges[1..])
  }

  /** Every range against every kept line. */
  function KeptParts(lines: seq<string>, ranges: seq<Range>, lo: nat, hi: nat): seq<Part>
    requires hi <= |lines|
  {
    if lo >= hi then [] else KeptParts(lines, ranges, lo, hi - 1) + LineParts(lines, hi - 1, ranges)
  }

  lemma {:induction false} LinePartsConcat(lines: seq<string>, i: nat, a: seq<Range>, b: seq<Range>, ab: seq<Range>)
    requires i < |lines| && ab == a + b
    ensures LineParts(lines, i, ab) == LineParts(lines, i, a) + LineParts(lines, i, b)
    decreases |a|
  {
    if a == [] {
      assert ab == b;
    } else {
      assert ab[0] == a[0] && ab[1..] == a[1..] + b;
      LinePartsConcat(lines, i, a[1..], b, ab[1..]);
      Assoc(AsSeq(PartOf(lines, i, a[0])), LineParts(lines, i, a[1..]), LineParts(lines, i, b));
    }
  }

  lemma {:induction false} NoParts(lines: seq<string>, i: nat, ranges: seq<Range>)
    requires i < |lines|
    requires forall k :: 0 <= k < |ranges| ==>
               ranges[k].end <= JoinedStart(lines, i) || ranges[k].start >= JoinedStart(lines, i) + |lines[i]|
    ensures LineParts(lines, i, ranges) == []
  {
    if ranges != [] { NoParts(lines, i, ranges[1..]); }
  }

  lemma LinePartsNext(lines: seq<string>, i: nat, ranges: seq<Range>, j: nat)
    requires i < |lines| && j < |ranges|
    ensures LineParts(lines, i, ranges[..j + 1]) == LineParts(lines, i, ranges[..j])
            + AsSeq(PartOf(lines, i, ranges[j]))
  {
    assert ranges[..j + 1] == ranges[..j] + [ranges[j]];
    LinePartsConcat(lines, i, ranges[..j], [ranges[j]], ranges[..j + 1]);
    assert [ranges[j]][1..] == [];
  }

  /** The parts in one line: ranges before it are passed for good, ranges past it are not looked at. */
  method ClipLine(lines: seq<string>, ranges: seq<Range>, i: nat, lineStart: nat, next: nat)
      returns (parts: seq<Part>, first: nat)
    requires Ascending(ranges) && i < |lines| && lineStart == JoinedStart(lines, i) && Passed(ranges, next, lineStart)
    ensures next <= first && Passed(ranges, first, lineStart)
    ensures parts == LineParts(lines, i, ranges)
  {
    first := next;
    while first < |ranges| && ranges[first].end <= lineStart
      invariant next <= first && Passed(ranges, first, lineStart)
    {
      first := first + 1;
    }
    NoParts(lines, i, ranges[..first]);
    parts := Cut(lines, ranges, i, lineStart, first);
  }

  method Cut(lines: seq<string>, ranges: seq<Range>, i: nat, lineStart: nat, first: nat) returns (parts: seq<Part>)
    requires Ascending(ranges) && i < |lines| && lineStart == JoinedStart(lines, i) && first <= |ranges|
    requires LineParts(lines, i, ranges[..first]) == []
    ensures parts == LineParts(lines, i, ranges)
  {
    parts := [];
    var j := first;
    while j < |ranges| && ranges[j].start < lineStart + |lines[i]|
      invariant first <= j <= |ranges| && parts == LineParts(lines, i, ranges[..j])
    {
      LinePartsNext(lines, i, ranges, j);
      var part := CutOne(lines, i, lineStart, ranges[j]);
      parts := parts + part;
      j := j + 1;
    }
    PastLine(lines, ranges, i, j);
  }

  method CutOne(lines: seq<string>, i: nat, lineStart: nat, r: Range) returns (part: seq<Part>)
    requires i < |lines| && lineStart == JoinedStart(lines, i)
    ensures part == AsSeq(PartOf(lines, i, r))
  {
    var start, end := Max(r.start, lineStart), Min(r.end, lineStart + |lines[i]|);
    var whole := start == lineStart && end == lineStart + |lines[i]|;
    part := if start < end && !whole then [Part(i, lineStart, start, end)] else [];
  }

  /** From the first range past the line on, none has a part in it. */
  lemma PastLine(lines: seq<string>, ranges: seq<Range>, i: nat, j: nat)
    requires Ascending(ranges) && i < |lines| && j <= |ranges|
    requires j < |ranges| ==> ranges[j].start >= JoinedStart(lines, i) + |lines[i]|
    ensures LineParts(lines, i, ranges) == LineParts(lines, i, ranges[..j])
  {
    forall k | j <= k < |ranges| ensures ranges[k].start >= JoinedStart(lines, i) + |lines[i]| {
      assert k == j || ranges[j].end <= ranges[k].start;
    }
    NoParts(lines, i, ranges[j..]);
    SplitAt(ranges, j);
    LinePartsConcat(lines, i, ranges[..j], ranges[j..], ranges);
  }

  /** Ranges passed by the time a line starts. */
  ghost predicate Passed(ranges: seq<Range>, next: nat, lineStart: nat) {
    next <= |ranges| && forall k :: 0 <= k < next ==> ranges[k].end <= lineStart
  }

  lemma KeptNext(lines: seq<string>, ranges: seq<Range>, lo: nat, i: nat)
    requires i < |lines|
    ensures KeptParts(lines, ranges, lo, i + 1)
         == KeptParts(lines, ranges, lo, i) + if i < lo then [] else LineParts(lines, i, ranges)
  {
  }

  /** One pass over lines and ranges together. */
  method Clipped(lines: seq<string>, ranges: seq<Range>, lo: nat, hi: nat) returns (parts: seq<Part>)
    requires Ascending(ranges) && lo <= hi <= |lines|
    ensures parts == KeptParts(lines, ranges, lo, hi)
  {
    parts := [];
    var lineStart: nat, next: nat := 0, 0;
    for i := 0 to hi
      invariant lineStart == JoinedStart(lines, i) && Passed(ranges, next, lineStart)
      invariant parts == KeptParts(lines, ranges, lo, i)
    {
      KeptNext(lines, ranges, lo, i);
      if i >= lo {
        var more;
        more, next := ClipLine(lines, ranges, i, lineStart, next);
        parts := parts + more;
      }
      lineStart := lineStart + |lines[i]| + 1;
    }
  }

  // ---- What the parts are ----

  lemma {:induction false} LinePartsAre(lines: seq<string>, i: nat, ranges: seq<Range>, p: Part)
    requires i < |lines|
    ensures p in LineParts(lines, i, ranges) <==> exists r :: r in ranges && PartOf(lines, i, r) == Some(p)
  {
    if ranges != [] {
      assert ranges == [ranges[0]] + ranges[1..];
      LinePartsAre(lines, i, ranges[1..], p);
    }
  }

  lemma {:induction false} KeptPartsAre(lines: seq<string>, ranges: seq<Range>, lo: nat, hi: nat, p: Part)
    requires hi <= |lines|
    ensures p in KeptParts(lines, ranges, lo, hi)
       <==> lo <= p.index < hi && exists r :: r in ranges && PartOf(lines, p.index, r) == Some(p)
  {
    if lo < hi {
      KeptPartsAre(lines, ranges, lo, hi - 1, p);
      LinePartsAre(lines, hi - 1, ranges, p);
    }
  }

  /** A range holds the char at `at` of a line without holding the whole line. */
  predicate Marks(lines: seq<string>, i: nat, r: Range, at: nat)
    requires i < |lines|
  {
    && r.start <= at < r.end
    && !(r.start <= JoinedStart(lines, i) && JoinedStart(lines, i) + |lines[i]| <= r.end)
  }

  /** Some part on line `i` covers the char at `at`. */
  ghost predicate Covered(parts: seq<Part>, i: nat, at: nat) {
    exists p :: p in parts && p.index == i && p.start <= at < p.end
  }

  /** Some edited range marks the char at `at` of line `i`. */
  ghost predicate Marked(lines: seq<string>, ranges: seq<Range>, i: nat, at: nat)
    requires i < |lines|
  {
    exists r :: r in ranges && Marks(lines, i, r, at)
  }

  /** A char of a kept line is marked exactly when an edited range holds it without holding the whole line. */
  lemma MarkedChars(lines: seq<string>, ranges: seq<Range>, lo: nat, hi: nat, i: nat, c: nat)
    requires lo <= i < hi <= |lines| && c < |lines[i]|
    ensures var at := JoinedStart(lines, i) + c;
            Covered(KeptParts(lines, ranges, lo, hi), i, at) <==> Marked(lines, ranges, i, at)
  {
    var at := JoinedStart(lines, i) + c;
    if Covered(KeptParts(lines, ranges, lo, hi), i, at) {
      CoveredMarked(lines, ranges, lo, hi, i, at);
    }
    if Marked(lines, ranges, i, at) {
      MarkedCovered(lines, ranges, lo, hi, i, at);
    }
  }

  lemma CoveredMarked(lines: seq<string>, ranges: seq<Range>, lo: nat, hi: nat, i: nat, at: nat)
    requires i < |lines| && hi <= |lines| && Covered(KeptParts(lines, ranges, lo, hi), i, at)
    ensures Marked(lines, ranges, i, at)
  {
    var p :| p in KeptParts(lines, ranges, lo, hi) && p.index == i && p.start <= at < p.end;
    var r := MarkOf(lines, ranges, lo, hi, p, at);
  }

  lemma MarkedCovered(lines: seq<string>, ranges: seq<Range>, lo: nat, hi: nat, i: nat, at: nat)
    requires lo <= i < hi <= |lines| && Marked(lines, ranges, i, at)
    requires JoinedStart(lines, i) <= at < JoinedStart(lines, i) + |lines[i]|
    ensures Covered(KeptParts(lines, ranges, lo, hi), i, at)
  {
    var r :| r in ranges && Marks(lines, i, r, at);
    var p := PartFor(lines, ranges, lo, hi, i, r, at);
  }

  lemma MarkOf(lines: seq<string>, ranges: seq<Range>, lo: nat, hi: nat, p: Part, at: nat) returns (r: Range)
    requires hi <= |lines| && p in KeptParts(lines, ranges, lo, hi) && p.start <= at < p.end
    ensures p.index < |lines| && r in ranges && Marks(lines, p.index, r, at)
  {
    KeptPartsAre(lines, ranges, lo, hi, p);
    r :| r in ranges && PartOf(lines, p.index, r) == Some(p);
    PartMarks(lines, p.index, r, at);
  }

  lemma PartFor(lines: seq<string>, ranges: seq<Range>, lo: nat, hi: nat, i: nat, r: Range, at: nat) returns (p: Part)
    requires lo <= i < hi <= |lines| && r in ranges && Marks(lines, i, r, at)
    requires JoinedStart(lines, i) <= at < JoinedStart(lines, i) + |lines[i]|
    ensures p in KeptParts(lines, ranges, lo, hi) && p.index == i && p.start <= at < p.end
  {
    PartMarks(lines, i, r, at);
    p := PartOf(lines, i, r).value;
    KeptPartsAre(lines, ranges, lo, hi, p);
  }

  lemma PartMarks(lines: seq<string>, i: nat, r: Range, at: nat)
    requires i < |lines|
    ensures var p := PartOf(lines, i, r);
            p.Some? && p.value.start <= at < p.value.end
            <==> Marks(lines, i, r, at) && JoinedStart(lines, i) <= at < JoinedStart(lines, i) + |lines[i]|
    ensures PartOf(lines, i, r).Some? ==> PartOf(lines, i, r).value.index == i
  {
  }

  /** Line `i` of a text stands where the lines before it, joined by one break each, end. */
  ghost predicate LineAt(s: string, lines: seq<string>, i: nat)
    requires i < |lines|
  {
    var from := JoinedStart(lines, i);
    from + |lines[i]| <= |s| && s[from..from + |lines[i]|] == lines[i]
  }

  lemma {:induction false} JoinedLine(s: string, i: nat)
    requires i < |SplitLines(s)|
    ensures LineAt(s, SplitLines(s), i)
    decreases i
  {
    var b := BreakFrom(s, 0);
    if i > 0 {
      var rest := s[b + 1..];
      SplitFirst(s, s[..b], rest);
      JoinedLine(rest, i - 1);
      LineAfter(s, b, rest, SplitLines(rest), SplitLines(s), i);
    }
  }

  lemma LineAfter(s: string, b: nat, rest: string, tail: seq<string>, lines: seq<string>, i: nat)
    requires b < |s| && rest == s[b + 1..] && lines == [s[..b]] + tail && 0 < i < |lines| && LineAt(rest, tail, i - 1)
    ensures LineAt(s, lines, i)
  {
    JoinedShift(s[..b], tail, lines, i);
    SliceSlice(s, b + 1, |s|, JoinedStart(tail, i - 1), JoinedStart(tail, i - 1) + |lines[i]|);
    assert s[b + 1..|s|] == rest;
  }

  lemma {:induction false} JoinedShift(line: string, rest: seq<string>, lines: seq<string>, i: nat)
    requires lines == [line] + rest && 0 < i <= |lines|
    ensures JoinedStart(lines, i) == |line| + 1 + JoinedStart(rest, i - 1)
  {
    if i > 1 { JoinedShift(line, rest, lines, i - 1); }
  }

  /** A part names the same chars by its columns in its line and by its place in the text. */
  lemma PartText(s: string, ranges: seq<Range>, lo: nat, hi: nat, p: Part)
    requires hi <= |SplitLines(s)| && p in KeptParts(SplitLines(s), ranges, lo, hi)
    ensures p.index < |SplitLines(s)| && p.lineStart <= p.start < p.end <= |s|
    ensures p.end - p.lineStart <= |SplitLines(s)[p.index]|
    ensures s[p.start..p.end] == SplitLines(s)[p.index][p.start - p.lineStart..p.end - p.lineStart]
  {
    KeptPartsAre(SplitLines(s), ranges, lo, hi, p);
    JoinedLine(s, p.index);
    PartOfLine(s, SplitLines(s), ranges, p);
  }

  lemma PartOfLine(s: string, lines: seq<string>, ranges: seq<Range>, p: Part)
    requires p.index < |lines| && LineAt(s, lines, p.index)
    requires exists r :: r in ranges && PartOf(lines, p.index, r) == Some(p)
    ensures p.lineStart <= p.start < p.end <= |s| && p.end - p.lineStart <= |lines[p.index]|
    ensures s[p.start..p.end] == lines[p.index][p.start - p.lineStart..p.end - p.lineStart]
  {
    var from, line := p.lineStart, lines[p.index];
    SliceSlice(s, from, from + |line|, p.start - from, p.end - from);
  }
}
