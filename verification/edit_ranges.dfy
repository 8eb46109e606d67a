/** A group's edits as char ranges: of the new text what they delete, of the old text what they insert. */
module EditRanges {
  import opened Hunks
  import opened Regions
  import opened WordSpans

  /** The ranges in order, each naming its region's text in `built`. */
  ghost predicate Names(built: string, olds: seq<Range>, regions: seq<Region>, n: nat) {
    && |olds| == n <= |regions| && Ascending(olds)
    && forall k :: 0 <= k < n ==> olds[k].end <= |built| && built[olds[k].start..olds[k].end] == regions[k].inserted
  }

  lemma NamesMore(built: string, olds: seq<Range>, regions: seq<Region>, n: nat, gap: string, more: string, r: Range)
    requires Names(built, olds, regions, n) && n < |regions| && more == built + gap + regions[n].inserted
    requires r == Range(|built| + |gap|, |more|)
    ensures Names(more, olds + [r], regions, n + 1)
  {
    var all := olds + [r];
    forall k | 0 <= k < n + 1
      ensures all[k].end <= |more| && more[all[k].start..all[k].end] == regions[k].inserted
    {
      if k < n { assert more[all[k].start..all[k].end] == built[all[k].start..all[k].end]; }
    }
    forall i, j | 0 <= i < j < |all| ensures all[i].end <= all[j].start {
      assert all[i] == olds[i];
    }
  }

  lemma NamesKept(built: string, olds: seq<Range>, regions: seq<Region>, n: nat, tail: string, more: string)
    requires Names(built, olds, regions, n) && more == built + tail
    ensures Names(more, olds, regions, n)
  {
    forall k | 0 <= k < n ensures more[olds[k].start..olds[k].end] == regions[k].inserted {
      assert more[olds[k].start..olds[k].end] == built[olds[k].start..olds[k].end];
    }
  }

  /** The first `i` regions are done: the old text so far, and the ranges of it they inserted. */
  ghost predicate Halfway(t: string, regions: seq<Region>, start: nat, i: nat, cursor: nat, oldChars: nat,
                          olds: seq<Range>) {
    && Fits(regions, start, |t|) && i <= |regions| && cursor == (if i == 0 then start else regions[i - 1].end)
    && Fits(regions[..i], start, cursor) && cursor <= |t| && |BuiltFrom(t, regions[..i], start, cursor)| == oldChars
    && Names(BuiltFrom(t, regions[..i], start, cursor), olds, regions, i)
  }

  lemma HalfwayStart(t: string, regions: seq<Region>, start: nat)
    requires Fits(regions, start, |t|)
    ensures Halfway(t, regions, start, 0, start, 0, [])
  {
    assert t[start..start] == [];
  }

  lemma HalfwayNext(t: string, regions: seq<Region>, start: nat, i: nat, cursor: nat, oldChars: nat, olds: seq<Range>,
                    r: Region, from: nat)
    requires Halfway(t, regions, start, i, cursor, oldChars, olds) && i < |regions| && r == regions[i]
    requires from == oldChars + (r.start - cursor)
    ensures Halfway(t, regions, start, i + 1, r.end, from + |r.inserted|, olds + [Range(from, from + |r.inserted|)])
  {
    BuiltOneMore(t, regions, i, start, cursor);
    var built, gap := BuiltFrom(t, regions[..i], start, cursor), t[cursor..r.start];
    NamesMore(built, olds, regions, i, gap, built + gap + r.inserted, Range(from, from + |r.inserted|));
  }

  lemma HalfwayDone(t: string, regions: seq<Region>, start: nat, stop: nat, cursor: nat, oldChars: nat,
                    olds: seq<Range>)
    requires Fits(regions, start, stop) && stop <= |t|
    requires Halfway(t, regions, start, |regions|, cursor, oldChars, olds)
    ensures Names(BuiltFrom(t, regions, start, stop), olds, regions, |regions|)
  {
    assert regions[..|regions|] == regions;
    BuiltKeep(t, regions, start, cursor, stop);
    var built, more := BuiltFrom(t, regions, start, cursor), BuiltFrom(t, regions, start, stop);
    NamesKept(built, olds, regions, |regions|, t[cursor..stop], more);
  }

  /** What the new side loses, from the group's start. */
  ghost predicate Deletes(regions: seq<Region>, start: nat, news: seq<Range>) {
    |news| <= |regions| && forall k :: 0 <= k < |news| ==>
                            start + news[k].start == regions[k].start && start + news[k].end == regions[k].end
  }

  lemma DeletesAscending(regions: seq<Region>, start: nat, stop: nat, news: seq<Range>)
    requires Fits(regions, start, stop) && Deletes(regions, start, news)
    ensures Ascending(news)
  {
    forall i, j | 0 <= i < j < |news| ensures news[i].end <= news[j].start {
      assert regions[i].end < regions[j].start;
    }
  }

  method GroupRanges(ghost t: string, regions: seq<Region>, start: nat, ghost stop: nat)
      returns (olds: seq<Range>, news: seq<Range>)
    requires Fits(regions, start, stop) && stop <= |t|
    ensures |news| == |regions| && Deletes(regions, start, news) && Ascending(news)
    ensures Names(BuiltFrom(t, regions, start, stop), olds, regions, |regions|)
  {
    olds, news := [], [];
    var oldChars: nat, cursor: nat := 0, start;
    HalfwayStart(t, regions, start);
    for i := 0 to |regions|
      invariant Halfway(t, regions, start, i, cursor, oldChars, olds) && |news| == i && Deletes(regions, start, news)
    {
      var old_, new_ := RangesOf(t, regions, start, stop, i, cursor, oldChars, olds);
      olds, news := olds + [old_], news + [new_];
      oldChars, cursor := old_.end, regions[i].end;
    }
    HalfwayDone(t, regions, start, stop, cursor, oldChars, olds);
    DeletesAscending(regions, start, stop, news);
  }

  method RangesOf(ghost t: string, regions: seq<Region>, start: nat, ghost stop: nat, i: nat, cursor: nat,
                  oldChars: nat, ghost olds: seq<Range>) returns (old_: Range, new_: Range)
    requires Fits(regions, start, stop) && stop <= |t| && i < |regions|
    requires Halfway(t, regions, start, i, cursor, oldChars, olds)
    ensures Halfway(t, regions, start, i + 1, regions[i].end, old_.end, olds + [old_])
    ensures start + new_.start == regions[i].start && start + new_.end == regions[i].end
  {
    var r := regions[i];
    assert i == 0 || regions[i - 1].end < regions[i].start;
    var from := oldChars + (r.start - cursor);
    HalfwayNext(t, regions, start, i, cursor, oldChars, olds, r, from);
    old_, new_ := Range(from, from + |r.inserted|), Range(r.start - start, r.end - start);
  }
}
