/** One decoration kind's entries, per buffer and source: replaced, extended, dropped and carried through edits. */
module SourceStores {
  import opened Wrappers
  import opened EntryOrder
  import opened EntryRemaps
  import opened SourceNames

  type BufferId = nat

  datatype Group = Group(source: string, entries: Entries)

  type Groups = seq<Group>

  /** Sources in ascending order, each one's entries sorted by anchor. */
  ghost predicate Kept(gs: Groups) {
    && (forall i, j :: 0 <= i < j < |gs| ==> Less(gs[i].source, gs[j].source))
    && (forall i :: 0 <= i < |gs| ==> Sorted(gs[i].entries))
  }

  /** A source's entries; `None` for a source never set. */
  function EntriesOf(gs: Groups, source: string): Option<Entries> {
    if gs == [] then None else if gs[0].source == source then Some(gs[0].entries) else EntriesOf(gs[1..], source)
  }

  /** Where a source stands, or would, among ascending ones. */
  function Place(gs: Groups, source: string): (k: nat)
    ensures k <= |gs| && forall i :: 0 <= i < k ==> Less(gs[i].source, source)
    ensures k < |gs| ==> !Less(gs[k].source, source)
  {
    if gs == [] || !Less(gs[0].source, source) then 0 else 1 + Place(gs[1..], source)
  }

  /** `gs` with `source`'s entries replaced, the source added at its place when it is new. */
  function With(gs: Groups, source: string, es: Entries): Groups {
    var k := Place(gs, source);
    if k < |gs| && gs[k].source == source then gs[k := Group(source, es)] else gs[..k] + [Group(source, es)] + gs[k..]
  }

  lemma {:induction false} EntriesAt(gs: Groups, k: nat, source: string)
    requires Kept(gs) && k < |gs| && gs[k].source == source
    ensures EntriesOf(gs, source) == Some(gs[k].entries) && Place(gs, source) == k
  {
    LessOrder(source, source);
    if k > 0 {
      LessOrder(gs[0].source, source);
      KeptTail(gs);
      EntriesAt(gs[1..], k - 1, source);
    }
  }

  lemma KeptTail(gs: Groups)
    requires Kept(gs) && gs != []
    ensures Kept(gs[1..])
  {
  }

  lemma {:induction false} EntriesNone(gs: Groups, source: string)
    requires forall i :: 0 <= i < |gs| ==> gs[i].source != source
    ensures EntriesOf(gs, source) == None
  {
    if gs != [] { EntriesNone(gs[1..], source); }
  }

  lemma {:induction false} EntriesIn(gs: Groups, source: string) returns (k: nat)
    requires EntriesOf(gs, source).Some?
    ensures k < |gs| && gs[k] == Group(source, EntriesOf(gs, source).value)
  {
    if gs[0].source == source { k := 0; } else {
      k := EntriesIn(gs[1..], source);
      k := k + 1;
    }
  }

  /** Two kept lists with the same entries for every source are one list: they are read in the same order. */
  lemma {:induction false} KeptUnique(a: Groups, b: Groups)
    requires Kept(a) && Kept(b) && forall source :: EntriesOf(a, source) == EntriesOf(b, source)
    ensures a == b
  {
    if a != [] { EntriesAt(a, 0, a[0].source); }
    if b != [] { EntriesAt(b, 0, b[0].source); }
    if a != [] && b != [] {
      FirstSame(a, b);
      KeptTail(a);
      KeptTail(b);
      forall source ensures EntriesOf(a[1..], source) == EntriesOf(b[1..], source) {
        assert EntriesOf(a, source) == EntriesOf(b, source);
        if source == a[0].source {
          TailWithout(a);
          TailWithout(b);
        }
      }
      KeptUnique(a[1..], b[1..]);
    }
  }

  lemma FirstSame(a: Groups, b: Groups)
    requires Kept(a) && Kept(b) && a != [] && b != []
    requires EntriesOf(a, b[0].source) == Some(b[0].entries) && EntriesOf(b, a[0].source) == Some(a[0].entries)
    ensures a[0] == b[0]
  {
    var i := EntriesIn(a, b[0].source);
    var j := EntriesIn(b, a[0].source);
    if i > 0 && j > 0 { LessOrder(a[0].source, b[0].source); }
  }

  lemma TailWithout(gs: Groups)
    requires Kept(gs) && gs != []
    ensures EntriesOf(gs[1..], gs[0].source) == None
  {
    LessOrder(gs[0].source, gs[0].source);
    EntriesNone(gs[1..], gs[0].source);
  }

  lemma WithKept(gs: Groups, source: string, es: Entries)
    requires Kept(gs) && Sorted(es)
    ensures Kept(With(gs, source, es))
  {
    var k, r := Place(gs, source), With(gs, source, es);
    if k < |gs| { LessOrder(source, gs[k].source); }
    forall i, j | 0 <= i < j < |r| ensures Less(r[i].source, r[j].source) {
      if |r| > |gs| { InsertedPair(gs, k, Group(source, es), r, i, j); }
    }
  }

  lemma InsertedPair(gs: Groups, k: nat, g: Group, r: Groups, i: nat, j: nat)
    requires Kept(gs) && k <= |gs| && r == gs[..k] + [g] + gs[k..] && i < j < |r|
    requires (forall n :: 0 <= n < k ==> Less(gs[n].source, g.source)) && (k < |gs| ==> Less(g.source, gs[k].source))
    ensures Less(r[i].source, r[j].source)
  {
    if i == k && j > k + 1 { LessChain(g.source, gs[k].source, gs[j - 1].source); }
  }

  /** Setting one source leaves the others alone. */
  lemma WithEntries(gs: Groups, source: string, es: Entries, other: string)
    requires Kept(gs) && Sorted(es)
    ensures EntriesOf(With(gs, source, es), other) == if other == source then Some(es) else EntriesOf(gs, other)
  {
    var k, r := Place(gs, source), With(gs, source, es);
    WithKept(gs, source, es);
    if other == source {
      EntriesAt(r, k, source);
    } else if EntriesOf(gs, other).Some? {
      var n := EntriesIn(gs, other);
      EntriesAt(r, if |r| > |gs| && n >= k then n + 1 else n, other);
    } else {
      if EntriesOf(r, other).Some? {
        var n := EntriesIn(r, other);
        EntriesAt(gs, if |r| > |gs| && n > k then n - 1 else n, other);
      }
    }
  }

  /** `gs` without `source`. */
  function Without(gs: Groups, source: string): Groups {
    if gs == [] then [] else (if gs[0].source == source then [] else [gs[0]]) + Without(gs[1..], source)
  }

  lemma {:induction false} WithoutMeans(gs: Groups, source: string)
    requires Kept(gs)
    ensures Kept(Without(gs, source)) && |Without(gs, source)| <= |gs|
    ensures forall g :: g in Without(gs, source) <==> g in gs && g.source != source
  {
    if gs != [] {
      KeptTail(gs);
      WithoutMeans(gs[1..], source);
      var rest, out := Without(gs[1..], source), Without(gs, source);
      assert gs == [gs[0]] + gs[1..];
      if gs[0].source != source {
        forall j | 0 <= j < |rest| ensures Less(gs[0].source, rest[j].source) { FirstIsLeast(gs, rest[j]); }
        GroupBefore(gs[0], rest, out);
      }
    }
  }

  lemma FirstIsLeast(gs: Groups, g: Group)
    requires Kept(gs) && gs != [] && g in gs[1..]
    ensures Less(gs[0].source, g.source)
  {
    var i :| 0 <= i < |gs| - 1 && gs[1..][i] == g;
    assert gs[i + 1] == g;
  }

  lemma GroupBefore(g: Group, rest: Groups, out: Groups)
    requires out == [g] + rest && Kept(rest) && Sorted(g.entries)
    requires forall j :: 0 <= j < |rest| ==> Less(g.source, rest[j].source)
    ensures Kept(out)
  {
    forall i, j | 0 <= i < j < |out| ensures Less(out[i].source, out[j].source) {
      assert out[j] == rest[j - 1];
      if i > 0 { assert out[i] == rest[i - 1]; }
    }
  }

  // ---- Edits ----

  ghost predicate AllInText(kind: Kind, change: TextChange, gs: Groups) {
    forall i :: 0 <= i < |gs| ==> InText(kind, change, gs[i].entries)
  }

  function RemappedGroup(kind: Kind, change: TextChange, g: Group): Group
    requires change.Valid() && InText(kind, change, g.entries)
  {
    Group(g.source, Remapped(kind, change, g.entries))
  }

  function RemappedGroups(kind: Kind, change: TextChange, gs: Groups): (r: Groups)
    requires change.Valid() && AllInText(kind, change, gs)
    ensures |r| == |gs| && forall i :: 0 <= i < |r| ==> r[i] == RemappedGroup(kind, change, gs[i])
  {
    seq(|gs|, i requires 0 <= i < |gs| => RemappedGroup(kind, change, gs[i]))
  }

  lemma RemappedKept(kind: Kind, change: TextChange, gs: Groups)
    requires change.Valid() && AllInText(kind, change, gs) && Kept(gs)
    ensures Kept(RemappedGroups(kind, change, gs))
  {
    var r := RemappedGroups(kind, change, gs);
    forall i | 0 <= i < |r| ensures Sorted(r[i].entries) {
      assert r[i] == RemappedGroup(kind, change, gs[i]);
      RemapSorted(kind, change, gs[i].entries);
    }
    forall i, j | 0 <= i < j < |r| ensures Less(r[i].source, r[j].source) {
      assert r[i] == RemappedGroup(kind, change, gs[i]) && r[j] == RemappedGroup(kind, change, gs[j]);
    }
  }

  predicate HasEntries(gs: Groups) {
    exists i :: 0 <= i < |gs| && gs[i].entries != []
  }

  /** An edit to a buffer with no entries of the kind changes nothing of it. */
  lemma UntouchedStays(kind: Kind, change: TextChange, gs: Groups)
    requires change.Valid() && AllInText(kind, change, gs) && !HasEntries(gs)
    ensures RemappedGroups(kind, change, gs) == gs
  {
    var r := RemappedGroups(kind, change, gs);
    forall i | 0 <= i < |gs| ensures r[i] == gs[i] {
      assert r[i] == RemappedGroup(kind, change, gs[i]) && gs[i].entries == [];
    }
  }

  // ---- The store ----

  function At(m: map<BufferId, Groups>, bid: BufferId): Groups {
    if bid in m then m[bid] else []
  }

  function WithoutIn(m: map<BufferId, Groups>, source: string, bid: BufferId): map<BufferId, Groups> {
    if bid !in m then m
    else var left := Without(m[bid], source);
         if left == [] then m - {bid} else m[bid := left]
  }

  class SourceStore {
    var byBuffer: map<BufferId, Groups>

    ghost predicate Valid() reads this { forall bid :: bid in byBuffer ==> Kept(byBuffer[bid]) }

    constructor ()
      ensures Valid() && byBuffer == map[]
    {
      byBuffer := map[];
    }

    /** Replaces the source's entries wholesale. */
    method Set(source: string, bid: BufferId, entries: Entries)
      requires Valid()
      modifies this
      ensures Valid()
      ensures byBuffer == old(byBuffer)[bid := With(At(old(byBuffer), bid), source, SortByAnchor(entries))]
    {
      SortSorted(entries);
      Put(source, bid, SortByAnchor(entries));
    }

    /** Adds to the source's entries. */
    method Extend(source: string, bid: BufferId, entries: Entries)
      requires Valid()
      modifies this
      ensures Valid()
      ensures var es := EntriesOf(At(old(byBuffer), bid), source);
              byBuffer == old(byBuffer)[bid := With(At(old(byBuffer), bid), source,
                                                    SortByAnchor((if es.Some? then es.value else []) + entries))]
    {
      var es := EntriesOf(At(byBuffer, bid), source);
      var all := (if es.Some? then es.value else []) + entries;
      SortSorted(all);
      Put(source, bid, SortByAnchor(all));
    }

    /** Replaces the source's entries, of those on one line only the first it lists. */
    method SetOnePerLine(source: string, bid: BufferId, entries: Entries)
      requires Valid()
      modifies this
      ensures Valid()
      ensures byBuffer == old(byBuffer)[bid := With(At(old(byBuffer), bid), source, Dedup(SortByAnchor(entries)))]
    {
      OnePerLineMeans(entries);
      Set(source, bid, Dedup(SortByAnchor(entries)));
    }

    /** Finds the source's place and writes its entries there. */
    method Put(source: string, bid: BufferId, es: Entries)
      requires Valid() && Sorted(es)
      modifies this
      ensures Valid()
      ensures byBuffer == old(byBuffer)[bid := With(At(old(byBuffer), bid), source, es)]
    {
      var slot := At(byBuffer, bid);
      WithKept(slot, source, es);
      var idx := Place(slot, source);
      ghost var was := slot;
      if idx == |slot| || slot[idx].source != source { slot := slot[..idx] + [Group(source, [])] + slot[idx..]; }
      slot := slot[idx := Group(source, es)];
      assert slot == With(was, source, es);
      byBuffer := byBuffer[bid := slot];
    }

    method RemoveBuffer(bid: BufferId) returns (had: bool)
      requires Valid()
      modifies this
      ensures Valid() && had == (bid in old(byBuffer)) && byBuffer == old(byBuffer) - {bid}
    {
      had := bid in byBuffer;
      byBuffer := byBuffer - {bid};
    }

    /** Drops one source; a buffer left with none is forgotten. */
    method RemoveSource(source: string, bid: BufferId) returns (removed: bool)
      requires Valid()
      modifies this
      ensures Valid() && removed == exists g :: g in At(old(byBuffer), bid) && g.source == source
      ensures byBuffer == WithoutIn(old(byBuffer), source, bid)
    {
      if bid !in byBuffer { return false; }
      var groups := byBuffer[bid];
      var left := Without(groups, source);
      WithoutMeans(groups, source);
      WithoutSome(groups, source);
      removed := |left| != |groups|;
      byBuffer := if left == [] then byBuffer - {bid} else byBuffer[bid := left];
    }

    /** Carries every source's entries through an edit; tells whether there were any. */
    method Remap(kind: Kind, bid: BufferId, change: TextChange) returns (touched: bool)
      requires Valid() && change.Valid() && AllInText(kind, change, At(byBuffer, bid))
      modifies this
      ensures Valid() && touched == HasEntries(At(old(byBuffer), bid))
      ensures byBuffer == if bid in old(byBuffer) then old(byBuffer)[bid := RemappedGroups(kind, change,
              old(byBuffer)[bid])]
                          else old(byBuffer)
    {
      touched := false;
      if bid !in byBuffer { return; }
      RemappedKept(kind, change, byBuffer[bid]);
      var out;
      out, touched := RemapSources(kind, change, byBuffer[bid]);
      byBuffer := byBuffer[bid := out];
    }

    /** Every source's entries anchored in a range. */
    method GroupsInRange(bid: BufferId, lo: nat, hi: nat) returns (r: Groups)
      requires Valid() && lo <= hi
      ensures |r| == |At(byBuffer, bid)|
      ensures forall i :: 0 <= i < |r| ==>
                r[i] == Group(At(byBuffer, bid)[i].source, InRange(At(byBuffer, bid)[i].entries, lo, hi))
    {
      r := [];
      var groups := At(byBuffer, bid);
      for i := 0 to |groups|
        invariant |r| == i
        invariant forall k :: 0 <= k < i ==> r[k] == Group(groups[k].source, InRange(groups[k].entries, lo, hi))
      {
        var es := groups[i].entries;
        SliceIsRange(es, lo, hi);
        r := r + [Group(groups[i].source, es[Below(es, lo)..Below(es, hi)])];
      }
    }
  }

  /** One pass per source that has entries. */
  method RemapSources(kind: Kind, change: TextChange, gs: Groups) returns (out: Groups, touched: bool)
    requires change.Valid() && AllInText(kind, change, gs) && Kept(gs)
    ensures out == RemappedGroups(kind, change, gs) && touched == HasEntries(gs)
  {
    out, touched := [], false;
    for i := 0 to |gs|
      invariant |out| == i && touched == HasEntries(gs[..i])
      invariant forall k :: 0 <= k < i ==> out[k] == RemappedGroup(kind, change, gs[k])
    {
      var es := [];
      if gs[i].entries != [] { es := Remap(kind, change, gs[i].entries); }
      HasOneMore(gs, i);
      touched := touched || gs[i].entries != [];
      out := out + [Group(gs[i].source, es)];
    }
    assert gs[..|gs|] == gs;
  }

  lemma HasOneMore(gs: Groups, i: nat)
    requires i < |gs|
    ensures HasEntries(gs[..i + 1]) <==> HasEntries(gs[..i]) || gs[i].entries != []
  {
    var more := gs[..i + 1];
    if HasEntries(gs[..i]) { var k :| 0 <= k < i && gs[..i][k].entries != []; assert more[k].entries != []; }
    if gs[i].entries != [] { assert more[i].entries != []; }
  }

  lemma {:induction false} WithoutSome(gs: Groups, source: string)
    ensures |Without(gs, source)| <= |gs|
    ensures |Without(gs, source)| != |gs| <==> exists g :: g in gs && g.source == source
  {
    if gs != [] {
      assert gs == [gs[0]] + gs[1..];
      WithoutSome(gs[1..], source);
    }
  }
}
