/** Decoration entries and their order: sorted by anchor, one a line, found by anchor. */
module EntryOrder {
  import opened Wrappers

  datatype Side = Left | Right

  datatype Payload =
    | Hint(text: string, side: Side)
    | Sign(text: string, scope: nat)
    | VirtualLine(content: seq<(string, Option<nat>)>, side: Side, scope: nat)
    | EolText(text: string, scope: nat, hideOnInsertLine: bool)
    | Highlight(scope: nat)
    | Background(scope: nat)

  /** `at` is the entry's anchor, a char offset or a line; `end` only means something for a range. */
  datatype Entry = Entry(at: nat, end: nat, payload: Payload)

  type Entries = seq<Entry>

  // ---- Sorting by anchor ----

  ghost predicate Sorted(es: Entries) {
    forall i, j :: 0 <= i < j < |es| ==> es[i].at <= es[j].at
  }

  /** At most one entry a line. */
  ghost predicate OnePerLine(es: Entries) {
    forall i, j :: 0 <= i < j < |es| ==> es[i].at < es[j].at
  }

  /** The entries at one anchor, in their order. */
  function On(es: Entries, at: nat): Entries {
    if es == [] then [] else (if es[0].at == at then [es[0]] else []) + On(es[1..], at)
  }

  function Inserted(es: Entries, e: Entry): Entries {
    if es == [] || e.at < es[0].at then [e] + es else [es[0]] + Inserted(es[1..], e)
  }

  /** The stable sort by anchor. */
  function SortByAnchor(es: Entries): Entries {
    if es == [] then [] else Inserted(SortByAnchor(es[..|es| - 1]), es[|es| - 1])
  }

  lemma {:induction false} OnConcat(a: Entries, b: Entries, ab: Entries, at: nat)
    requires ab == a + b
    ensures On(ab, at) == On(a, at) + On(b, at)
    decreases |a|
  {
    if a == [] {
      assert ab == b;
    } else {
      assert a == [a[0]] + a[1..] && ab == [a[0]] + (a[1..] + b);
      OnConcat(a[1..], b, a[1..] + b, at);
      OnCons(a[0], a[1..], a, at);
      OnCons(a[0], a[1..] + b, ab, at);
    }
  }

  lemma {:induction false} OnAbove(es: Entries, at: nat)
    requires Sorted(es) && (es == [] || at < es[0].at)
    ensures On(es, at) == []
  {
    if es != [] { SortedTail(es); OnAbove(es[1..], at); }
  }

  lemma SortedTail(es: Entries)
    requires Sorted(es) && es != []
    ensures Sorted(es[1..]) && forall k :: 0 <= k < |es| - 1 ==> es[0].at <= es[1..][k].at
  {
  }

  lemma {:induction false} InsertedSorted(es: Entries, e: Entry)
    requires Sorted(es)
    ensures |Inserted(es, e)| == |es| + 1 && Sorted(Inserted(es, e))
    ensures forall f :: f in Inserted(es, e) <==> f in es || f == e
  {
    if es == [] || e.at < es[0].at {
      SortedCons(e, es, [e] + es);
    } else {
      var rest, more := es[1..], Inserted(es[1..], e);
      assert es == [es[0]] + rest;
      SortedTail(es);
      InsertedSorted(rest, e);
      forall k | 0 <= k < |more| ensures es[0].at <= more[k].at {
        assert more[k] in more;
      }
      SortedCons(es[0], more, [es[0]] + more);
    }
  }

  lemma {:induction false} InsertedOn(es: Entries, e: Entry, at: nat)
    requires Sorted(es)
    ensures On(Inserted(es, e), at) == On(es, at) + if e.at == at then [e] else []
  {
    if es == [] || e.at < es[0].at {
      OnCons(e, es, [e] + es, at);
      if e.at == at { OnAbove(es, at); }
    } else {
      var rest, more := es[1..], Inserted(es[1..], e);
      assert es == [es[0]] + rest;
      SortedTail(es);
      InsertedOn(rest, e, at);
      OnCons(es[0], more, [es[0]] + more, at);
      OnCons(es[0], rest, es, at);
    }
  }

  lemma SortedCons(e: Entry, rest: Entries, es: Entries)
    requires es == [e] + rest && Sorted(rest) && (rest != [] ==> e.at <= rest[0].at)
    ensures Sorted(es)
  {
    forall i, j | 0 <= i < j < |es| ensures es[i].at <= es[j].at {
      assert es[j] == rest[j - 1] && rest[0].at <= rest[j - 1].at;
      if i > 0 { assert es[i] == rest[i - 1]; }
    }
  }

  lemma OnCons(e: Entry, rest: Entries, es: Entries, at: nat)
    requires es == [e] + rest
    ensures On(es, at) == (if e.at == at then [e] else []) + On(rest, at)
  {
    assert es[1..] == rest;
  }

  lemma {:induction false} SortSorted(es: Entries)
    ensures Sorted(SortByAnchor(es)) && |SortByAnchor(es)| == |es|
    ensures forall e :: e in SortByAnchor(es) <==> e in es
  {
    if es != [] {
      var init, last := es[..|es| - 1], es[|es| - 1];
      assert es == init + [last];
      SortSorted(init);
      InsertedSorted(SortByAnchor(init), last);
    }
  }

  /** The sort keeps every anchor's entries, in the order they were listed. */
  lemma {:induction false} SortStable(es: Entries, at: nat)
    ensures On(SortByAnchor(es), at) == On(es, at)
  {
    if es != [] {
      var init, last := es[..|es| - 1], es[|es| - 1];
      assert es == init + [last];
      SortStable(init, at);
      SortSorted(init);
      InsertedOn(SortByAnchor(init), last, at);
      OnConcat(init, [last], es, at);
      OnCons(last, [], [last], at);
    }
  }

  lemma OnFirst(es: Entries)
    requires es != []
    ensures On(es, es[0].at) != [] && On(es, es[0].at)[0] == es[0]
  {
  }

  /** Nothing else is sorted and lists each anchor's entries alike. */
  lemma {:induction false} SortedUnique(a: Entries, b: Entries)
    requires Sorted(a) && Sorted(b) && forall at :: On(a, at) == On(b, at)
    ensures a == b
  {
    if a != [] { OnFirst(a); }
    if b != [] { OnFirst(b); }
    if a != [] && b != [] {
      if a[0].at < b[0].at { OnAbove(b, a[0].at); }
      if b[0].at < a[0].at { OnAbove(a, b[0].at); }
      SortedTail(a);
      SortedTail(b);
      assert a == [a[0]] + a[1..] && b == [b[0]] + b[1..];
      forall at ensures On(a[1..], at) == On(b[1..], at) {
        OnCons(a[0], a[1..], a, at);
        OnCons(b[0], b[1..], b, at);
        TailOn(On(a[1..], at), On(b[1..], at), if a[0].at == at then [a[0]] else [], if b[0].at == at then [b[0]]
            else []);
      }
      SortedUnique(a[1..], b[1..]);
    }
  }

  lemma TailOn(a: Entries, b: Entries, x: Entries, y: Entries)
    requires x + a == y + b && |x| == |y|
    ensures a == b && x == y
  {
    assert (x + a)[|x|..] == a && (y + b)[|y|..] == b && (x + a)[..|x|] == x && (y + b)[..|y|] == y;
  }

  /** Of each run of entries on one line, the first. */
  function Dedup(es: Entries): Entries
    decreases |es|
  {
    if |es| < 2 then es
    else if es[1].at == es[0].at then Dedup([es[0]] + es[2..])
    else [es[0]] + Dedup(es[1..])
  }

  function FirstOf(es: Entries): Entries { if es == [] then [] else [es[0]] }

  lemma {:induction false} DedupOnePerLine(es: Entries)
    requires Sorted(es)
    ensures OnePerLine(Dedup(es)) && (es != [] ==> Dedup(es) != [] && Dedup(es)[0] == es[0])
    decreases |es|
  {
    if |es| >= 2 {
      if es[1].at == es[0].at {
        DedupOnePerLine([es[0]] + es[2..]);
      } else {
        SortedTail(es);
        DedupOnePerLine(es[1..]);
        var more := Dedup(es[1..]);
        forall i, j | 0 <= i < j < |more| + 1 ensures ([es[0]] + more)[i].at < ([es[0]] + more)[j].at {
          assert more[0].at <= more[j - 1].at;
        }
      }
    }
  }

  /** One entry a line: of a source's entries on a line, the first it lists. */
  lemma {:induction false} DedupMeans(es: Entries, at: nat)
    requires Sorted(es)
    ensures On(Dedup(es), at) == FirstOf(On(es, at))
    decreases |es|
  {
    if |es| == 1 { assert es[1..] == []; }
    if |es| >= 2 {
      var rest, more := es[1..], Dedup(es[1..]);
      assert es == [es[0]] + rest && rest == [es[1]] + es[2..];
      OnCons(es[0], rest, es, at);
      if es[1].at == es[0].at {
        var fewer := [es[0]] + es[2..];
        OnCons(es[1], es[2..], rest, at);
        OnCons(es[0], es[2..], fewer, at);
        DedupMeans(fewer, at);
      } else {
        SortedTail(es);
        DedupMeans(rest, at);
        OnCons(es[0], more, [es[0]] + more, at);
        if at == es[0].at { OnAbove(rest, at); }
      }
    }
  }

  /** What a one-per-line source keeps of what it is set to. */
  lemma OnePerLineMeans(es: Entries)
    ensures OnePerLine(Dedup(SortByAnchor(es))) && forall at :: On(Dedup(SortByAnchor(es)), at) == FirstOf(On(es, at))
    ensures SortByAnchor(Dedup(SortByAnchor(es))) == Dedup(SortByAnchor(es))
  {
    SortSorted(es);
    var r := Dedup(SortByAnchor(es));
    DedupOnePerLine(SortByAnchor(es));
    forall at ensures On(r, at) == FirstOf(On(es, at)) {
      SortStable(es, at);
      DedupMeans(SortByAnchor(es), at);
    }
    SortSorted(r);
    forall at ensures On(SortByAnchor(r), at) == On(r, at) { SortStable(r, at); }
    SortedUnique(SortByAnchor(r), r);
  }

  // ---- Searching by anchor ----

  /** The number of leading entries anchored before `at`: where a sorted list parts. */
  function Below(es: Entries, at: nat): (k: nat)
    ensures k <= |es|
  {
    if es == [] || es[0].at >= at then 0 else 1 + Below(es[1..], at)
  }

  function InRange(es: Entries, lo: nat, hi: nat): Entries {
    if es == [] then [] else (if lo <= es[0].at < hi then [es[0]] else []) + InRange(es[1..], lo, hi)
  }

  lemma {:induction false} BelowAscends(es: Entries, lo: nat, hi: nat)
    requires lo <= hi
    ensures Below(es, lo) <= Below(es, hi)
  {
    if es != [] { BelowAscends(es[1..], lo, hi); }
  }

  lemma {:induction false} NoneInRange(es: Entries, lo: nat, hi: nat)
    requires Sorted(es) && (es == [] || hi <= es[0].at)
    ensures InRange(es, lo, hi) == [] && Below(es, hi) == 0
  {
    if es != [] { SortedTail(es); NoneInRange(es[1..], lo, hi); }
  }

  /** Two searches cut out of a sorted list the entries of the range, all of them and in order. */
  lemma {:induction false} SliceIsRange(es: Entries, lo: nat, hi: nat)
    requires Sorted(es) && lo <= hi
    ensures Below(es, lo) <= Below(es, hi) && es[Below(es, lo)..Below(es, hi)] == InRange(es, lo, hi)
  {
    BelowAscends(es, lo, hi);
    if es == [] || hi <= es[0].at {
      NoneInRange(es, lo, hi);
    } else {
      var rest := es[1..];
      SortedTail(es);
      SliceIsRange(rest, lo, hi);
      if es[0].at < lo {
        assert es[Below(es, lo)..Below(es, hi)] == rest[Below(rest, lo)..Below(rest, hi)];
      } else {
        FromFirst(rest, lo);
        assert es[0..Below(es, hi)] == [es[0]] + rest[0..Below(rest, hi)];
      }
    }
  }

  lemma FromFirst(es: Entries, lo: nat)
    requires es == [] || lo <= es[0].at
    ensures Below(es, lo) == 0
  {
  }
}
