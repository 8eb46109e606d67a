/** Line indexing of a text. LF is the only line break, and the line after the last break counts too. */
module Lines {
  import opened Sequences

  /** The number of line breaks before `pos`: the line `pos` is on. */
  function LineOf(t: string, pos: nat): nat
    requires pos <= |t|
  {
    if pos == 0 then 0 else LineOf(t, pos - 1) + if t[pos - 1] == '\n' then 1 else 0
  }

  /** The first position on line `line` or later; the text's end for a line past the last. */
  function StartOf(t: string, line: nat): nat {
    StartFrom(t, line, 0)
  }

  function StartFrom(t: string, line: nat, p: nat): nat
    requires p <= |t|
    decreases |t| - p
  {
    if p == |t| || LineOf(t, p) >= line then p else StartFrom(t, line, p + 1)
  }

  predicate IsLineStart(t: string, p: nat)
    requires p <= |t|
  {
    p == 0 || t[p - 1] == '\n'
  }

  /** Empty, or ending with a line break. */
  predicate Whole(s: string) {
    s == [] || s[|s| - 1] == '\n'
  }

  lemma {:induction false} LineOfMonotone(t: string, p: nat, q: nat)
    requires p <= q <= |t|
    ensures LineOf(t, p) <= LineOf(t, q)
    ensures LineOf(t, q) - LineOf(t, p) <= q - p
  {
    if p < q { LineOfMonotone(t, p, q - 1); }
  }

  lemma {:induction false} StartFromFacts(t: string, line: nat, p: nat)
    requires p <= |t| && (p > 0 ==> LineOf(t, p - 1) < line)
    ensures p <= StartFrom(t, line, p) <= |t|
    ensures StartFrom(t, line, p) > 0 ==> LineOf(t, StartFrom(t, line, p) - 1) < line
    ensures line <= LineOf(t, |t|) ==> LineOf(t, StartFrom(t, line, p)) >= line
    ensures line > LineOf(t, |t|) ==> StartFrom(t, line, p) == |t|
    decreases |t| - p
  {
    LineOfMonotone(t, p, |t|);
    if p < |t| && LineOf(t, p) < line {
      StartFromFacts(t, line, p + 1);
    }
  }

  /** A line's start: on that line, right after a break, and before everything on the line. */
  lemma StartFacts(t: string, line: nat)
    requires line <= LineOf(t, |t|)
    ensures StartOf(t, line) <= |t| && LineOf(t, StartOf(t, line)) == line && IsLineStart(t, StartOf(t, line))
    ensures forall p :: 0 <= p <= |t| && LineOf(t, p) >= line ==> StartOf(t, line) <= p
  {
    StartFromFacts(t, line, 0);
    var s := StartOf(t, line);
    forall p | 0 <= p <= |t| && LineOf(t, p) >= line ensures s <= p {
      if p < s { LineOfMonotone(t, p, s - 1); }
    }
  }

  lemma StartPastEnd(t: string, line: nat)
    requires line > LineOf(t, |t|)
    ensures StartOf(t, line) == |t|
  {
    StartFromFacts(t, line, 0);
  }

  lemma {:induction false} LineOfPart(t: string, from: nat, to: nat, p: nat)
    requires from <= p <= to <= |t|
    ensures LineOf(t[from..to], p - from) == LineOf(t, p) - LineOf(t, from)
  {
    if from < p {
      LineOfPart(t, from, to, p - 1);
      assert t[from..to][p - 1 - from] == t[p - 1];
    }
  }

  // ---- Splitting ----

  /** The first line break at or after `p`. */
  function BreakFrom(s: string, p: nat): (b: nat)
    requires p <= |s|
    ensures p <= b <= |s| && (b < |s| ==> s[b] == '\n')
    decreases |s| - p
  {
    if p == |s| || s[p] == '\n' then p else BreakFrom(s, p + 1)
  }

  lemma {:induction false} BreakMeans(s: string, p: nat)
    requires p <= |s|
    ensures forall k :: p <= k < BreakFrom(s, p) ==> s[k] != '\n'
    decreases |s| - p
  {
    if p < |s| && s[p] != '\n' { BreakMeans(s, p + 1); }
  }

  /** `s` split at its breaks, without them; a trailing break ends the last line and starts none. */
  function SplitLines(s: string): seq<string>
    decreases |s|
  {
    if s == [] then []
    else
      var b := BreakFrom(s, 0);
      if b == |s| then [s] else [s[..b]] + SplitLines(s[b + 1..])
  }

  method Split(s: string) returns (lines: seq<string>)
    ensures lines == SplitLines(s)
  {
    lines := [];
    var from := 0;
    ghost var rest := s;
    assert s[0..] == s;
    while from < |s|
      invariant from <= |s| && rest == s[from..] && lines + SplitLines(rest) == SplitLines(s)
    {
      var b := BreakFrom(s, from);
      ghost var next := SplitFrom(s, from, rest);
      if b == |s| {
        return lines + [s[from..]];
      }
      Assoc(lines, [s[from..b]], SplitLines(next));
      lines, from, rest := lines + [s[from..b]], b + 1, next;
    }
  }

  lemma {:induction false} BreakIs(s: string, p: nat, b: nat)
    requires p <= b <= |s| && (b < |s| ==> s[b] == '\n') && forall k :: p <= k < b ==> s[k] != '\n'
    ensures BreakFrom(s, p) == b
    decreases b - p
  {
    if p < b { BreakIs(s, p + 1, b); }
  }

  lemma BreakShift(s: string, from: nat)
    requires from <= |s|
    ensures BreakFrom(s[from..], 0) == BreakFrom(s, from) - from
  {
    BreakMeans(s, from);
    BreakIs(s[from..], 0, BreakFrom(s, from) - from);
  }

  lemma SplitFirst(s: string, line: string, rest: string)
    requires BreakFrom(s, 0) < |s| && line == s[..BreakFrom(s, 0)] && rest == s[BreakFrom(s, 0) + 1..]
    ensures SplitLines(s) == [line] + SplitLines(rest)
  {
  }

  lemma SplitFrom(s: string, from: nat, here: string) returns (next: string)
    requires from < |s| && here == s[from..]
    ensures BreakFrom(s, from) == |s| ==> SplitLines(here) == [here] && next == []
    ensures BreakFrom(s, from) < |s| ==>
              next == s[BreakFrom(s, from) + 1..] && SplitLines(here)
                  == [s[from..BreakFrom(s, from)]] + SplitLines(next)
  {
    BreakShift(s, from);
    var b := BreakFrom(s, from);
    next := if b == |s| then [] else s[b + 1..];
    if b < |s| {
      assert here[..b - from] == s[from..b] && here[b - from + 1..] == next;
      SplitFirst(here, s[from..b], next);
    }
  }

  lemma {:induction false} BreakBefore(s: string, p: nat, k: nat)
    requires p <= k < |s| && s[k] == '\n'
    ensures BreakFrom(s, p) <= k
    decreases k - p
  {
    if s[p] != '\n' { BreakBefore(s, p + 1, k); }
  }

  lemma BreakIn(a: string, b: string)
    requires a != [] && Whole(a)
    ensures BreakFrom(a + b, 0) == BreakFrom(a, 0) < |a|
  {
    BreakBefore(a, 0, |a| - 1);
    BreakMeans(a, 0);
    BreakIs(a + b, 0, BreakFrom(a, 0));
  }

  /** Whole lines split on their own. */
  lemma {:induction false} SplitConcat(a: string, b: string)
    requires Whole(a)
    ensures SplitLines(a + b) == SplitLines(a) + SplitLines(b)
    decreases |a|
  {
    if a == [] {
      assert a + b == b && [] + SplitLines(b) == SplitLines(b);
    } else {
      BreakIn(a, b);
      var k := BreakFrom(a, 0);
      var line, rest, ab := a[..k], a[k + 1..], a + b;
      assert ab[..k] == line && ab[k + 1..] == rest + b;
      SplitConcat(rest, b);
      SplitFirst(a, line, rest);
      SplitFirst(ab, line, rest + b);
      Assoc([line], SplitLines(rest), SplitLines(b));
    }
  }

  lemma {:induction false} LineOfZero(s: string, p: nat)
    requires p <= |s| && forall k :: 0 <= k < p ==> s[k] != '\n'
    ensures LineOf(s, p) == 0
  {
    if p > 0 { LineOfZero(s, p - 1); }
  }

  lemma LineOfRest(s: string, b: nat, rest: string)
    requires b == BreakFrom(s, 0) < |s| && rest == s[b + 1..]
    ensures LineOf(s, |s|) == 1 + LineOf(rest, |rest|)
  {
    BreakMeans(s, 0);
    LineOfZero(s, b);
    assert LineOf(s, b + 1) == 1;
    LineOfPart(s, b + 1, |s|, |s|);
    assert s[b + 1..|s|] == rest;
  }

  /** Whole lines: as many as there are breaks. */
  lemma {:induction false} SplitCount(s: string)
    requires Whole(s)
    ensures |SplitLines(s)| == LineOf(s, |s|)
    decreases |s|
  {
    if s != [] {
      BreakBefore(s, 0, |s| - 1);
      var b := BreakFrom(s, 0);
      var rest := s[b + 1..];
      SplitCount(rest);
      SplitFirst(s, s[..b], rest);
      LineOfRest(s, b, rest);
    }
  }

  lemma PartCount(t: string, from: nat, to: nat)
    requires from <= to <= |t| && IsLineStart(t, from) && IsLineStart(t, to)
    ensures Whole(t[from..to]) && |SplitLines(t[from..to])| == LineOf(t, to) - LineOf(t, from)
  {
    LineOfPart(t, from, to, to);
    SplitCount(t[from..to]);
  }

  lemma ThreeParts(t: string, from: nat, to: nat)
    requires from <= to <= |t|
    ensures t == t[0..from] + t[from..to] + t[to..|t|]
  {
  }

  /** The lines between two line starts, by index. */
  lemma SplitPart(t: string, from: nat, to: nat)
    requires Whole(t) && from <= to <= |t| && IsLineStart(t, from) && IsLineStart(t, to)
    ensures LineOf(t, from) <= LineOf(t, to) <= |SplitLines(t)|
    ensures SplitLines(t[from..to]) == SplitLines(t)[LineOf(t, from)..LineOf(t, to)]
  {
    ThreeParts(t, from, to);
    PartCount(t, 0, from);
    PartCount(t, from, to);
    SplitMiddle(t, t[0..from], t[from..to], t[to..|t|]);
  }

  lemma SplitMiddle(t: string, a: string, b: string, c: string)
    requires Whole(a) && Whole(b) && t == a + b + c
    ensures |SplitLines(a)| + |SplitLines(b)| <= |SplitLines(t)|
    ensures SplitLines(t)[|SplitLines(a)|..|SplitLines(a)| + |SplitLines(b)|] == SplitLines(b)
  {
    SplitThree(a, b, c);
  }

  lemma SplitThree(a: string, b: string, c: string)
    requires Whole(a) && Whole(b)
    ensures var (x, y) := (SplitLines(a), SplitLines(b));
            |x| + |y| <= |SplitLines(a + b + c)| && SplitLines(a + b + c)[|x|..|x| + |y|] == y
  {
    Assoc(a, b, c);
    SplitConcat(a, b + c);
    SplitConcat(b, c);
    Middle(SplitLines(a), SplitLines(b), SplitLines(c), SplitLines(a + b + c));
  }

}
