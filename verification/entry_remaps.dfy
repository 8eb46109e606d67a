/** Decoration entries carried through an edit: hints follow their character, line entries their line's break,
    and highlights shrink to what survives of them. */
module EntryRemaps {
  import opened Wrappers
  import opened ChangeSets
  import opened Lines
  import opened PositionMaps
  import opened RangeMaps
  import opened Regions
  import opened JoinedLines
  import opened EntryOrder

  /** An edit: its changes, and the text they were made to. */
  datatype TextChange = TextChange(before: string, changes: ChangeSet) {
    ghost predicate Valid() { changes.Valid() && changes.lenBefore == |before| }
  }

  datatype Kind = Points | LineEntries | Ranges

  /** Where one entry goes; `None` drops it. */
  function Moved(kind: Kind, change: TextChange, e: Entry): Option<Entry>
    requires change.Valid() && (kind.LineEntries? ==> e.at < LineOf(change.before, |change.before|))
  {
    var ops := change.changes.ops;
    match kind
    case Points =>
      var m := MapAnchor(ops, e.at, Before);
      if m.deleted then None else Some(e.(at := m.pos))
    case LineEntries =>
      (match LineImage(ops, change.before, e.at) case Some(line) => Some(e.(at := line)) case None => None)
    case Ranges =>
      var (start, end) := MapRange(ops, e.at, e.end);
      if end <= start then None else Some(e.(at := start, end := end))
  }

  /** `s` stands at `at` of a text. */
  predicate StandsAt(text: string, at: nat, s: string) {
    at + |s| <= |text| && text[at..at + |s|] == s
  }

  /** Text inserted where a position is stands right behind the position's new place. */
  lemma {:induction false} InsertedBehind(ops: seq<Op>, t: string, pos: nat)
    requires Consumed(ops) == |t| && pos <= |t|
    ensures StandsAt(Run(ops, t), MapAnchor(ops, pos, Before).pos, InsertedAt(ops, pos))
    decreases |ops|
  {
    if ops != [] {
      match ops[0]
      case Retain(n) => if pos >= n { BehindKept(ops, t, pos, n); }
      case Delete(n) => if pos >= n { InsertedBehind(ops[1..], t[n..], pos - n); }
      case Insert(s) => BehindInserted(ops, t, pos, s);
    }
  }

  lemma {:induction false} BehindKept(ops: seq<Op>, t: string, pos: nat, n: nat)
    requires ops != [] && ops[0] == Retain(n) && Consumed(ops) == |t| && n <= pos <= |t|
    ensures StandsAt(Run(ops, t), MapAnchor(ops, pos, Before).pos, InsertedAt(ops, pos))
    decreases |ops|, 0
  {
    var rest := ops[1..];
    InsertedBehind(rest, t[n..], pos - n);
    Behind(t[..n], Run(rest, t[n..]), Run(ops, t), MapAnchor(rest, pos - n, Before).pos, InsertedAt(rest, pos - n));
  }

  lemma {:induction false} BehindInserted(ops: seq<Op>, t: string, pos: nat, s: string)
    requires ops != [] && ops[0] == Insert(s) && Consumed(ops) == |t| && pos <= |t|
    ensures StandsAt(Run(ops, t), MapAnchor(ops, pos, Before).pos, InsertedAt(ops, pos))
    decreases |ops|, 0
  {
    var rest := ops[1..];
    if pos > 0 {
      InsertedBehind(rest, t, pos);
      Behind(s, Run(rest, t), Run(ops, t), MapAnchor(rest, pos, Before).pos, InsertedAt(rest, pos));
    } else {
      InsertsFirst(ops, t);
    }
  }

  lemma Behind(a: string, b: string, all: string, at: nat, s: string)
    requires all == a + b && StandsAt(b, at, s)
    ensures StandsAt(all, |a| + at, s)
  {
  }

  lemma {:induction false} InsertsFirst(ops: seq<Op>, t: string)
    requires Consumed(ops) == |t|
    ensures InsertedAt(ops, 0) <= Run(ops, t)
    decreases |ops|
  {
    if ops != [] {
      match ops[0]
      case Retain(n) => if n == 0 { InsertsFirst(ops[1..], t); assert t[..0] == [] && t[0..] == t; }
      case Delete(n) => if n == 0 { InsertsFirst(ops[1..], t); assert t[0..] == t; }
      case Insert(s) => InsertsFirst(ops[1..], t);
    }
  }

  /** A hint stays before text inserted at its place. */
  lemma HintStaysBefore(change: TextChange, e: Entry)
    requires change.Valid() && e.at <= |change.before| && Moved(Points, change, e).Some?
    ensures StandsAt(Run(change.changes.ops, change.before), Moved(Points, change, e).value.at,
                     InsertedAt(change.changes.ops, e.at))
  {
    InsertedBehind(change.changes.ops, change.before, e.at);
  }

  /** Line entries stand on lines of the text. */
  ghost predicate InText(kind: Kind, change: TextChange, es: Entries) {
    kind.LineEntries? ==> forall i :: 0 <= i < |es| ==> es[i].at < LineOf(change.before, |change.before|)
  }

  function Remapped(kind: Kind, change: TextChange, es: Entries): Entries
    requires change.Valid() && InText(kind, change, es)
  {
    if es == [] then []
    else (match Moved(kind, change, es[0]) case Some(e) => [e] case None => []) + Remapped(kind, change, es[1..])
  }

  lemma MovedAscends(kind: Kind, change: TextChange, a: Entry, b: Entry)
    requires change.Valid() && InText(kind, change, [a, b]) && a.at <= b.at
    requires [a, b][0] == a && [a, b][1] == b
    requires Moved(kind, change, a).Some? && Moved(kind, change, b).Some?
    ensures Moved(kind, change, a).value.at <= Moved(kind, change, b).value.at
  {
    var ops := change.changes.ops;
    match kind
    case Points => MapAscends(ops, a.at, b.at, Before);
    case LineEntries => if a.at < b.at { LinesAscend(ops, change.before, a.at, b.at); }
    case Ranges => MapAscends(ops, a.at, b.at, After);
  }

  /** Every entry's place comes from one entry's. */
  lemma {:induction false} RemappedFrom(kind: Kind, change: TextChange, es: Entries, k: nat) returns (i: nat)
    requires change.Valid() && InText(kind, change, es) && k < |Remapped(kind, change, es)|
    ensures i < |es| && Moved(kind, change, es[i]) == Some(Remapped(kind, change, es)[k])
  {
    var first := Moved(kind, change, es[0]);
    if first.Some? && k == 0 { i := 0; } else {
      i := RemappedFrom(kind, change, es[1..], if first.Some? then k - 1 else k);
      i := i + 1;
    }
  }

  /** A remap keeps a source's entries sorted. */
  lemma {:induction false} RemapSorted(kind: Kind, change: TextChange, es: Entries)
    requires change.Valid() && InText(kind, change, es) && Sorted(es)
    ensures Sorted(Remapped(kind, change, es))
  {
    if es != [] {
      var rest := Remapped(kind, change, es[1..]);
      SortedTail(es);
      RemapSorted(kind, change, es[1..]);
      if Moved(kind, change, es[0]).Some? {
        if rest != [] {
          var i := RemappedFrom(kind, change, es[1..], 0);
          MovedAscends(kind, change, es[0], es[1..][i]);
        }
        SortedCons(Moved(kind, change, es[0]).value, rest, Remapped(kind, change, es));
      }
    }
  }

  /** A change keeps one entry a line for every source, exactly unless it joins two lines it keeps. */
  lemma RemapOnePerLine(change: TextChange)
    requires change.Valid()
    ensures !Joins(change.changes.ops, change.before)
       <==> forall es :: InText(LineEntries, change, es) && OnePerLine(es) ==>
           OnePerLine(Remapped(LineEntries, change, es))
  {
    var ops, t := change.changes.ops, change.before;
    if Joins(ops, t) {
      var i, j := JoinedPair(ops, t);
      var a, b := Entry(i, 0, Background(0)), Entry(j, 0, Background(0));
      var es := [a, b];
      RemappedTwo(LineEntries, change, a, b, es);
      var out := Remapped(LineEntries, change, es);
      assert out[0].at == out[1].at;
    } else {
      LinesStayApart(ops, t);
      forall es | InText(LineEntries, change, es) && OnePerLine(es)
          ensures OnePerLine(Remapped(LineEntries, change, es)) {
        RemapApart(change, es);
      }
    }
  }

  lemma {:induction false} RemapApart(change: TextChange, es: Entries)
    requires change.Valid() && InText(LineEntries, change, es) && OnePerLine(es)
    requires forall i, j :: 0 <= i < j < LineOf(change.before, |change.before|)
                  && LineImage(change.changes.ops, change.before, i).Some?
                  && LineImage(change.changes.ops, change.before, j).Some?
               ==> LineImage(change.changes.ops, change.before, i).value
                   < LineImage(change.changes.ops, change.before, j).value
    ensures OnePerLine(Remapped(LineEntries, change, es))
  {
    if es != [] {
      var out, rest := Remapped(LineEntries, change, es), Remapped(LineEntries, change, es[1..]);
      assert forall k :: 0 <= k < |es| - 1 ==> es[0].at < es[1..][k].at;
      RemapApart(change, es[1..]);
      if Moved(LineEntries, change, es[0]).Some? {
        forall i, j | 0 <= i < j < |out| ensures out[i].at < out[j].at {
          assert out[j] == rest[j - 1];
          if i == 0 {
            var k := RemappedFrom(LineEntries, change, es[1..], j - 1);
            assert es[0].at < es[1..][k].at;
          } else {
            assert out[i] == rest[i - 1];
          }
        }
      }
    }
  }

  /** Undoing a character's replacement by a line break leaves two entries of a source on one line. */
  lemma RemapJoinsLines(a: Entry, b: Entry, x: string, y: string)
    requires a.at == 0 && b.at == 1 && x == ['x', '\n'] && y == ['\n', '\n']
    ensures var change := TextChange(y, ChangeSet(UNDONE, 2, 2));
            && change.Valid() && InText(LineEntries, change, [a, b]) && OnePerLine([a, b]) && Run(UNDONE, y) == x
            && Remapped(LineEntries, change, [a, b]) == [a.(at := 0), b.(at := 0)]
  {
    UndoneReplacementJoins(x, y);
    var change := TextChange(y, ChangeSet(UNDONE, 2, 2));
    assert Moved(LineEntries, change, a) == Some(a.(at := 0)) && Moved(LineEntries, change, b) == Some(b.(at := 0));
    RemappedTwo(LineEntries, change, a, b, [a, b]);
  }

  lemma RemappedTwo(kind: Kind, change: TextChange, a: Entry, b: Entry, es: Entries)
    requires change.Valid() && es == [a, b] && InText(kind, change, es) && es[0] == a && es[1] == b
    requires Moved(kind, change, a).Some? && Moved(kind, change, b).Some?
    ensures Remapped(kind, change, es) == [Moved(kind, change, a).value, Moved(kind, change, b).value]
  {
    var rest := es[1..];
    assert rest == [b] && rest[1..] == [];
    assert Remapped(kind, change, rest) == [Moved(kind, change, b).value];
  }

  lemma {:induction false} KeptInside(ops: seq<Op>, pos: nat)
    requires Positive(ops) && pos < Consumed(ops) && !MapAnchor(ops, pos, Before).deleted
    ensures MapAnchor(ops, pos, Before).pos < Produced(ops)
  {
    assert !IsEmpty(ops[0]);
    match ops[0]
    case Retain(n) => if pos >= n { KeptInside(ops[1..], pos - n); }
    case Delete(n) => KeptInside(ops[1..], pos - n);
    case Insert(s) => if pos > 0 { KeptInside(ops[1..], pos); }
  }

  /** Line entries land on lines of the new text, so the next edit can carry them again. */
  lemma LandInText(change: TextChange, e: Entry)
    requires change.Valid() && e.at < LineOf(change.before, |change.before|) && Moved(LineEntries, change, e).Some?
    requires EndsInNewline(Run(change.changes.ops, change.before))
    ensures var after := Run(change.changes.ops, change.before);
            Moved(LineEntries, change, e).value.at < LineOf(after, |after|)
  {
    var ops, after := change.changes.ops, Run(change.changes.ops, change.before);
    KeptInside(ops, BreakOf(change.before, e.at));
    RunLength(ops, change.before);
    LineOfMonotone(after, MapAnchor(ops, BreakOf(change.before, e.at), Before).pos, |after| - 1);
  }

  // ---- Carrying a source's entries, each kind in one pass ----

  lemma RemappedNext(kind: Kind, change: TextChange, es: Entries, i: nat, out: Entries, next: Entries)
    requires change.Valid() && InText(kind, change, es) && i < |es|
    requires next == out + match Moved(kind, change, es[i]) case Some(e) => [e] case None => []
    ensures InText(kind, change, es[i..]) && InText(kind, change, es[i + 1..])
    ensures out + Remapped(kind, change, es[i..]) == next + Remapped(kind, change, es[i + 1..])
  {
    assert es[i..][1..] == es[i + 1..] && es[i..][0] == es[i];
    var one := match Moved(kind, change, es[i]) case Some(e) => [e] case None => [];
    Sequences.Assoc(out, one, Remapped(kind, change, es[i + 1..]));
  }

  ghost function StillTo(kind: Kind, change: TextChange, es: Entries, i: nat, out: Entries): Option<Entries> {
    if change.Valid() && InText(kind, change, es) && i <= |es| then Some(out + Remapped(kind, change, es[i..]))
        else None
  }

  lemma StillNext(kind: Kind, change: TextChange, es: Entries, i: nat, out: Entries, next: Entries)
    requires change.Valid() && InText(kind, change, es) && i < |es|
    requires next == out + match Moved(kind, change, es[i]) case Some(e) => [e] case None => []
    ensures StillTo(kind, change, es, i, out) == StillTo(kind, change, es, i + 1, next)
  {
    RemappedNext(kind, change, es, i, out, next);
  }

  lemma StillEnds(kind: Kind, change: TextChange, es: Entries, out: Entries)
    requires change.Valid() && InText(kind, change, es)
    ensures StillTo(kind, change, es, |es|, out) == Some(out)
    ensures StillTo(kind, change, es, 0, []) == Some(Remapped(kind, change, es))
  {
    assert es[0..] == es && [] + Remapped(kind, change, es) == Remapped(kind, change, es);
    assert es[|es|..] == [] && out + [] == out;
  }

  method RemapPoints(change: TextChange, es: Entries) returns (out: Entries)
    requires change.Valid() && Sorted(es)
    ensures InText(Points, change, es) && out == Remapped(Points, change, es)
  {
    var cursor := new PosMapCursor(change.changes.ops);
    out := [];
    for i := 0 to |es|
      invariant cursor.Valid() && cursor.ops == change.changes.ops && (i < |es| ==> cursor.last <= es[i].at)
      invariant StillTo(Points, change, es, i, out) == StillTo(Points, change, es, 0, [])
    {
      var m := cursor.Map(es[i].at, Before);
      ghost var was := out;
      if !m.deleted { out := out + [es[i].(at := m.pos)]; }
      StillNext(Points, change, es, i, was, out);
    }
    StillEnds(Points, change, es, out);
  }

  method RemapLines(change: TextChange, es: Entries) returns (out: Entries)
    requires change.Valid() && Sorted(es) && InText(LineEntries, change, es)
    ensures out == Remapped(LineEntries, change, es)
  {
    var cursor := new LineMapCursor(change.before, change.changes);
    out := [];
    for i := 0 to |es|
      invariant cursor.Valid() && cursor.ops == change.changes.ops && cursor.text == change.before
      invariant i < |es| ==> cursor.line <= es[i].at
      invariant StillTo(LineEntries, change, es, i, out) == StillTo(LineEntries, change, es, 0, [])
    {
      var line := cursor.MapLine(es[i].at);
      ghost var was := out;
      if line.Some? { out := out + [es[i].(at := line.value)]; }
      StillNext(LineEntries, change, es, i, was, out);
    }
    StillEnds(LineEntries, change, es, out);
  }

  method RemapRanges(change: TextChange, es: Entries) returns (out: Entries)
    requires change.Valid() && Sorted(es)
    ensures InText(Ranges, change, es) && out == Remapped(Ranges, change, es)
  {
    var ranges := new Range[|es|](i requires 0 <= i < |es| => (es[i].at, es[i].end));
    assert forall i :: 0 <= i < |es| ==> ranges[i] == (es[i].at, es[i].end);
    MapRanges(change.changes.ops, ranges);
    out := [];
    for i := 0 to |es|
      invariant forall j :: 0 <= j < |es| ==> ranges[j] == MapRange(change.changes.ops, es[j].at, es[j].end)
      invariant StillTo(Ranges, change, es, i, out) == StillTo(Ranges, change, es, 0, [])
    {
      var (start, end) := ranges[i];
      ghost var was := out;
      if start < end { out := out + [es[i].(at := start, end := end)]; }
      StillNext(Ranges, change, es, i, was, out);
    }
    StillEnds(Ranges, change, es, out);
  }

  method Remap(kind: Kind, change: TextChange, es: Entries) returns (out: Entries)
    requires change.Valid() && Sorted(es) && InText(kind, change, es)
    ensures out == Remapped(kind, change, es)
  {
    match kind
    case Points => out := RemapPoints(change, es);
    case LineEntries => out := RemapLines(change, es);
    case Ranges => out := RemapRanges(change, es);
  }
}
