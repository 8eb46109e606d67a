/** A session's decorations and their stamps: each buffer's stamp names what stands in it, across every write,
    edit and reset. */
module DecorationStamps {
  import opened Wrappers
  import opened Integers
  import opened ChangeSets
  import opened Lines
  import opened EntryOrder
  import opened EntryRemaps
  import opened SourceStores
  import opened SignLadders

  type Stored = map<BufferId, Groups>

  type Registry = map<BufferId, Ladder>

  /** Everything a store holds at one moment. */
  datatype Moment = Moment(hints: Stored, signs: Stored, virtualLines: Stored, highlights: Stored, eolText: Stored,
                           backgrounds: Stored, signSources: Registry, generation: map<BufferId, nat>, clock: nat)

  /** A buffer's entries, kind by kind. */
  datatype Contents = Contents(hints: Groups, signs: Groups, virtualLines: Groups, highlights: Groups, eolText: Groups,
                               backgrounds: Groups)

  const NOTHING := Contents([], [], [], [], [], [])

  function ContentsAt(m: Moment, bid: BufferId): Contents {
    Contents(At(m.hints, bid), At(m.signs, bid), At(m.virtualLines, bid), At(m.highlights, bid), At(m.eolText, bid),
             At(m.backgrounds, bid))
  }

  /** The buffer's stamp; 0 when the store has never touched it. */
  function Stamp(m: Moment, bid: BufferId): nat {
    if bid in m.generation then m.generation[bid] else 0
  }

  /** The clock is 64 bits wide and wraps. */
  function Tick(clock: nat): nat {
    if clock >= U64_MAX then 0 else clock + 1
  }

  function Touched(m: Moment, bid: BufferId): Moment {
    m.(clock := Tick(m.clock), generation := m.generation[bid := Tick(m.clock)])
  }

  /** A new store, its clock carried on from the one before. */
  function Fresh(priorClock: nat): Moment {
    Moment(map[], map[], map[], map[], map[], map[], map[], map[], Tick(priorClock))
  }

  // ---- Runs ----

  /** One buffer changed in any way and was touched. */
  ghost predicate TouchedOnly(m: Moment, next: Moment, bid: BufferId) {
    && next.clock == Tick(m.clock) && next.generation == m.generation[bid := next.clock]
    && forall b :: b != bid ==> ContentsAt(next, b) == ContentsAt(m, b)
  }

  /** No entry and no stamp changed. */
  ghost predicate Quiet(m: Moment, next: Moment) {
    next.clock == m.clock && next.generation == m.generation && forall b :: ContentsAt(next, b) == ContentsAt(m, b)
  }

  ghost predicate Next(m: Moment, next: Moment) {
    next == Fresh(m.clock) || Quiet(m, next) || exists bid :: TouchedOnly(m, next, bid)
  }

  /** Moments of a session, through any number of stores. */
  ghost predicate IsRun(ms: seq<Moment>) {
    forall i, j :: 0 <= i < |ms| && j == i + 1 && j < |ms| ==> Next(ms[i], ms[j])
  }

  /** No stamp ahead of the clock, no stamp on two buffers, and none on a buffer with entries missing. */
  ghost predicate Sound(m: Moment) {
    && (forall b :: Stamp(m, b) <= m.clock)
    && (forall b, c :: Stamp(m, b) == Stamp(m, c) != 0 ==> b == c)
    && (forall b :: Stamp(m, b) == 0 ==> ContentsAt(m, b) == NOTHING)
  }

  lemma FreshSound(priorClock: nat)
    ensures Sound(Fresh(priorClock))
  {
  }

  lemma NextSound(m: Moment, next: Moment)
    requires Sound(m) && Next(m, next) && m.clock < U64_MAX
    ensures Sound(next) && m.clock <= next.clock
  {
    if next == Fresh(m.clock) {
      FreshSound(m.clock);
    } else if Quiet(m, next) {
      forall b ensures Stamp(next, b) == Stamp(m, b) && ContentsAt(next, b) == ContentsAt(m, b) {}
    } else {
      var bid :| TouchedOnly(m, next, bid);
      forall b ensures Stamp(next, b) == (if b == bid then m.clock + 1 else Stamp(m, b)) {}
    }
  }

  /** The clock has not reached its top before the run's last moment. */
  ghost predicate Unwrapped(ms: seq<Moment>) {
    forall i :: 0 <= i < |ms| - 1 ==> ms[i].clock < U64_MAX
  }

  lemma {:induction false} RunSound(ms: seq<Moment>, i: nat, j: nat)
    requires IsRun(ms) && Unwrapped(ms) && i <= j < |ms| && Sound(ms[i])
    ensures Sound(ms[j]) && ms[i].clock <= ms[j].clock
    decreases j - i
  {
    if i < j {
      RunSound(ms, i, j - 1);
      NextSound(ms[j - 1], ms[j]);
    }
  }

  /** Two moments of a session with the same stamp for a buffer have the same entries in it, whatever was set,
      added, carried, cleared, withdrawn or reset between them; and a stamp is never handed to two buffers. */
  lemma {:induction false} StampsTell(ms: seq<Moment>, i: nat, j: nat, b: BufferId, c: BufferId)
    requires IsRun(ms) && Unwrapped(ms) && i <= j < |ms| && Sound(ms[0])
    requires Stamp(ms[i], b) == Stamp(ms[j], c)
    ensures ContentsAt(ms[i], b) == ContentsAt(ms[j], c) && (Stamp(ms[i], b) != 0 ==> b == c)
    ensures Stamp(ms[i], b) == 0 ==> ContentsAt(ms[j], c) == NOTHING
    decreases j - i
  {
    RunSound(ms, 0, i);
    RunSound(ms, i, j);
    if i < j && Stamp(ms[i], b) != 0 {
      RunSound(ms, i, j - 1);
      StampKept(ms[j - 1], ms[j], c, ms[i].clock);
      StampsTell(ms, i, j - 1, b, c);
    }
  }

  /** A stamp no later than an earlier clock was not handed out by the step. */
  lemma StampKept(m: Moment, next: Moment, c: BufferId, clock: nat)
    requires Sound(m) && Next(m, next) && m.clock < U64_MAX && clock <= m.clock && 0 < Stamp(next, c) <= clock
    ensures Stamp(m, c) == Stamp(next, c) && ContentsAt(m, c) == ContentsAt(next, c)
  {
    if !Quiet(m, next) {
      assert next != Fresh(m.clock);
      var bid :| TouchedOnly(m, next, bid);
    }
  }

  /** A clock that wraps hands out 0 again, the stamp of a buffer with no entries. */
  lemma WrappedStampLies(m: Moment, next: Moment, source: string, bid: BufferId, e: Entry)
    requires m.clock == U64_MAX && next == Touched(m.(hints := m.hints[bid := [Group(source, [e])]]), bid)
    ensures Next(m, next) && Stamp(next, bid) == 0 && ContentsAt(next, bid) != NOTHING
  {
    assert TouchedOnly(m, next, bid);
    assert ContentsAt(next, bid).hints == [Group(source, [e])];
  }

  /** Stamps stay sound through every step exactly while the clock has not reached its top. */
  lemma SoundUntilTop(m: Moment)
    requires Sound(m) && m.clock <= U64_MAX
    ensures m.clock < U64_MAX <==> forall next :: Next(m, next) ==> Sound(next)
  {
    forall next | m.clock < U64_MAX && Next(m, next) ensures Sound(next) { NextSound(m, next); }
    if m.clock == U64_MAX {
      var e := Entry(0, 0, Highlight(0));
      var next := Touched(m.(hints := m.hints[0 := [Group("", [e])]]), 0);
      WrappedStampLies(m, next, "", 0, e);
      assert !Sound(next);
    }
  }

  // ---- What each operation makes of a moment ----

  function SetIn(m: Stored, source: string, bid: BufferId, es: Entries): Stored {
    m[bid := With(At(m, bid), source, es)]
  }

  function AddedTo(m: Stored, source: string, bid: BufferId, es: Entries): Entries {
    var was := EntriesOf(At(m, bid), source);
    (if was.Some? then was.value else []) + es
  }

  /** The entries a source has at one place of a buffer. */
  function OnAt(m: Stored, bid: BufferId, source: string, at: nat): Entries {
    var es := EntriesOf(At(m, bid), source);
    if es.Some? then On(es.value, at) else []
  }

  /** Adding keeps a source's entries: at every place the new ones stand behind the ones already there, and other
      sources and buffers keep theirs. */
  lemma AddedKeeps(m: Stored, source: string, bid: BufferId, es: Entries, other: string, b: BufferId, at: nat)
    requires Kept(At(m, bid))
    ensures var next := SetIn(m, source, bid, SortByAnchor(AddedTo(m, source, bid, es)));
            OnAt(next, b, other, at) == OnAt(m, b, other, at) + if b == bid && other == source then On(es, at) else []
  {
    var was := EntriesOf(At(m, bid), source);
    var held := if was.Some? then was.value else [];
    var all := SortByAnchor(held + es);
    AddedOn(held, es, all, at);
    WithEntries(At(m, bid), source, all, other);
    assert OnAt(m, b, other, at) + [] == OnAt(m, b, other, at);
  }

  lemma AddedOn(held: Entries, es: Entries, all: Entries, at: nat)
    requires all == SortByAnchor(held + es)
    ensures Sorted(all) && On(all, at) == On(held, at) + On(es, at) && On([], at) + On(es, at) == On(es, at)
  {
    SortSorted(held + es);
    SortStable(held + es, at);
    OnConcat(held, es, held + es, at);
  }

  function CarriedIn(m: Stored, kind: Kind, bid: BufferId, change: TextChange): Stored
    requires change.Valid() && AllInText(kind, change, At(m, bid))
  {
    if bid in m then m[bid := RemappedGroups(kind, change, m[bid])] else m
  }

  /** The edit applies to the buffer: its line entries stand on lines of the text before it. */
  ghost predicate Applies(m: Moment, bid: BufferId, change: TextChange) {
    && change.Valid()
    && AllInText(LineEntries, change, At(m.signs, bid)) && AllInText(LineEntries, change, At(m.virtualLines, bid))
    && AllInText(LineEntries, change, At(m.eolText, bid)) && AllInText(LineEntries, change, At(m.backgrounds, bid))
  }

  ghost function Carried(m: Moment, bid: BufferId, change: TextChange): Moment
    requires Applies(m, bid, change)
  {
    m.(hints := CarriedIn(m.hints, Points, bid, change), signs := CarriedIn(m.signs, LineEntries, bid, change),
       virtualLines := CarriedIn(m.virtualLines, LineEntries, bid, change),
       eolText := CarriedIn(m.eolText, LineEntries, bid, change),
       backgrounds := CarriedIn(m.backgrounds, LineEntries, bid, change),
       highlights := CarriedIn(m.highlights, Ranges, bid, change))
  }

  predicate HasAny(c: Contents) {
    HasEntries(c.hints) || HasEntries(c.signs) || HasEntries(c.virtualLines) || HasEntries(c.eolText)
    || HasEntries(c.backgrounds) || HasEntries(c.highlights)
  }

  /** A buffer has entries when some source has one, of whatever kind. */
  lemma HasAnyMeans(c: Contents)
    ensures HasAny(c) <==>
              exists g: Group :: g.entries != []
                && (g in c.hints || g in c.signs || g in c.virtualLines || g in c.eolText || g in c.backgrounds
                    || g in c.highlights)
  {
    HasEntriesMeans(c.hints);
    HasEntriesMeans(c.signs);
    HasEntriesMeans(c.virtualLines);
    HasEntriesMeans(c.eolText);
    HasEntriesMeans(c.backgrounds);
    HasEntriesMeans(c.highlights);
  }

  lemma HasEntriesMeans(gs: Groups)
    ensures HasEntries(gs) <==> exists g: Group :: g in gs && g.entries != []
  {
    if HasEntries(gs) {
      var i :| 0 <= i < |gs| && gs[i].entries != [];
      assert gs[i] in gs;
    }
  }

  ghost predicate CarriesTo(kind: Kind, change: TextChange, gs: Groups, next: Groups)
    requires change.Valid() && AllInText(kind, change, gs)
  {
    |next| == |gs| && forall i :: 0 <= i < |gs| ==>
      next[i].source == gs[i].source && next[i].entries == Remapped(kind, change, gs[i].entries)
  }

  /** Every source's entries of every kind are carried: hints by their characters, highlights by their ranges, all
      others by their lines; other buffers are left alone. */
  lemma CarriedContents(m: Moment, bid: BufferId, change: TextChange)
    requires Applies(m, bid, change)
    ensures var (was, next) := (ContentsAt(m, bid), ContentsAt(Carried(m, bid, change), bid));
            && CarriesTo(Points, change, was.hints, next.hints)
            && CarriesTo(LineEntries, change, was.signs, next.signs)
            && CarriesTo(LineEntries, change, was.virtualLines, next.virtualLines)
            && CarriesTo(LineEntries, change, was.eolText, next.eolText)
            && CarriesTo(LineEntries, change, was.backgrounds, next.backgrounds)
            && CarriesTo(Ranges, change, was.highlights, next.highlights)
    ensures forall b :: b != bid ==> ContentsAt(Carried(m, bid, change), b) == ContentsAt(m, b)
    ensures Carried(m, bid, change).signSources == m.signSources
  {
  }

  lemma CarriedNone(m: Stored, kind: Kind, bid: BufferId, change: TextChange)
    requires change.Valid() && AllInText(kind, change, At(m, bid)) && !HasEntries(At(m, bid))
    ensures CarriedIn(m, kind, bid, change) == m
  {
    if bid in m { UntouchedStays(kind, change, m[bid]); }
  }

  /** An edit to a buffer with no entries changes nothing, so its stamp may stay. */
  lemma UntouchedChangesNothing(m: Moment, bid: BufferId, change: TextChange)
    requires Applies(m, bid, change) && !HasAny(ContentsAt(m, bid))
    ensures Carried(m, bid, change) == m
  {
    CarriedNone(m.hints, Points, bid, change);
    CarriedNone(m.signs, LineEntries, bid, change);
    CarriedNone(m.virtualLines, LineEntries, bid, change);
    CarriedNone(m.eolText, LineEntries, bid, change);
    CarriedNone(m.backgrounds, LineEntries, bid, change);
    CarriedNone(m.highlights, Ranges, bid, change);
  }

  lemma RemappedInText(change: TextChange, next: TextChange, es: Entries)
    requires change.Valid() && InText(LineEntries, change, es) && next.Valid()
    requires next.before == Run(change.changes.ops, change.before) && EndsInNewline(next.before)
    ensures InText(LineEntries, next, Remapped(LineEntries, change, es))
  {
    var out := Remapped(LineEntries, change, es);
    forall k | 0 <= k < |out| ensures out[k].at < LineOf(next.before, |next.before|) {
      var i := RemappedFrom(LineEntries, change, es, k);
      LandInText(change, es[i]);
    }
  }

  lemma CarriedInText(m: Stored, bid: BufferId, change: TextChange, next: TextChange)
    requires change.Valid() && AllInText(LineEntries, change, At(m, bid)) && next.Valid()
    requires next.before == Run(change.changes.ops, change.before) && EndsInNewline(next.before)
    ensures AllInText(LineEntries, next, At(CarriedIn(m, LineEntries, bid, change), bid))
  {
    var out := At(CarriedIn(m, LineEntries, bid, change), bid);
    forall i | 0 <= i < |out| ensures InText(LineEntries, next, out[i].entries) {
      RemappedInText(change, next, m[bid][i].entries);
    }
  }

  /** Once carried, the entries stand in the text the edit made: the next edit carries them again. */
  lemma AppliesAgain(m: Moment, bid: BufferId, change: TextChange, next: TextChange)
    requires Applies(m, bid, change) && next.Valid()
    requires next.before == Run(change.changes.ops, change.before) && EndsInNewline(next.before)
    ensures Applies(Carried(m, bid, change), bid, next)
  {
    CarriedInText(m.signs, bid, change, next);
    CarriedInText(m.virtualLines, bid, change, next);
    CarriedInText(m.eolText, bid, change, next);
    CarriedInText(m.backgrounds, bid, change, next);
  }

  function Cleared(m: Moment, bid: BufferId): Moment {
    m.(hints := m.hints - {bid}, signs := m.signs - {bid}, virtualLines := m.virtualLines - {bid},
       highlights := m.highlights - {bid}, eolText := m.eolText - {bid}, backgrounds := m.backgrounds - {bid})
  }

  /** Clearing leaves a buffer nothing and every other buffer all it had. */
  lemma ClearedContents(m: Moment, bid: BufferId, b: BufferId)
    ensures ContentsAt(Cleared(m, bid), b) == if b == bid then NOTHING else ContentsAt(m, b)
    ensures Cleared(m, bid).signSources == m.signSources
  {
  }

  /** Changing one buffer's entries and touching it. */
  lemma TouchIsNext(m: Moment, changed: Moment, bid: BufferId)
    requires changed.clock == m.clock && changed.generation == m.generation
    requires forall b :: b != bid ==> ContentsAt(changed, b) == ContentsAt(m, b)
    ensures Next(m, Touched(changed, bid))
  {
    var next := Touched(changed, bid);
    forall b ensures ContentsAt(next, b) == ContentsAt(changed, b) {}
    assert TouchedOnly(m, next, bid);
  }

  // ---- Signs and their slots ----

  function LadderAt(sources: Registry, bid: BufferId): Ladder {
    if bid in sources then sources[bid] else []
  }

  /** Every source with signs in a buffer has a slot there. */
  ghost predicate Slotted(signs: Stored, sources: Registry) {
    forall bid, g :: bid in signs && g in signs[bid] && g.entries != [] ==>
        SlotOf(LadderAt(sources, bid), g.source).Some?
  }

  /** Signs stay slotted through a set exactly when the source has a slot, or is left without signs. */
  lemma SlottedSet(signs: Stored, sources: Registry, source: string, bid: BufferId, entries: Entries)
    requires Slotted(signs, sources)
    ensures Slotted(SetIn(signs, source, bid, Dedup(SortByAnchor(entries))), sources)
       <==> entries == [] || SlotOf(LadderAt(sources, bid), source).Some?
  {
    SortSorted(entries);
    DedupOnePerLine(SortByAnchor(entries));
    SlottedWith(signs, sources, source, bid, Dedup(SortByAnchor(entries)));
  }

  lemma SlottedWith(signs: Stored, sources: Registry, source: string, bid: BufferId, es: Entries)
    requires Slotted(signs, sources)
    ensures Slotted(SetIn(signs, source, bid, es), sources)
            <==> es == [] || SlotOf(LadderAt(sources, bid), source).Some?
  {
    var gs, next := At(signs, bid), SetIn(signs, source, bid, es);
    assert next[bid][Place(gs, source)] == Group(source, es);
    assert Group(source, es) in next[bid];
    forall b, g: Group | b in next && g in next[b] && g.entries != []
        && (es == [] || SlotOf(LadderAt(sources, bid), source).Some?)
      ensures SlotOf(LadderAt(sources, b), g.source).Some?
    {
      if b == bid && g != Group(source, es) { OldGroup(gs, source, es, g); }
    }
  }

  lemma OldGroup(gs: Groups, source: string, es: Entries, g: Group)
    requires g in With(gs, source, es) && g != Group(source, es)
    ensures g in gs
  {
  }

  lemma SlottedCarried(signs: Stored, sources: Registry, bid: BufferId, change: TextChange)
    requires Slotted(signs, sources) && change.Valid() && AllInText(LineEntries, change, At(signs, bid))
    ensures Slotted(CarriedIn(signs, LineEntries, bid, change), sources)
  {
    var next := CarriedIn(signs, LineEntries, bid, change);
    forall b, g: Group | b in next && g in next[b] && g.entries != []
        ensures SlotOf(LadderAt(sources, b), g.source).Some? {
      if b == bid {
        var i :| 0 <= i < |signs[bid]| && g == RemappedGroup(LineEntries, change, signs[bid][i]);
        assert signs[bid][i] in signs[bid];
      }
    }
  }

  lemma SlottedRegistered(signs: Stored, sources: Registry, bid: BufferId, rung: Rung, rs: Ladder)
    requires Slotted(signs, sources)
    requires forall r :: r in rs <==> r == rung || (r in LadderAt(sources, bid) && r.name != rung.name)
    ensures Slotted(signs, sources[bid := rs])
  {
    forall b, g: Group | b in signs && g in signs[b] && g.entries != []
      ensures SlotOf(LadderAt(sources[bid := rs], b), g.source).Some?
    {
      if b == bid { StillSlotted(LadderAt(sources, bid), rung, rs, g.source); }
    }
  }

  lemma StillSlotted(was: Ladder, rung: Rung, rs: Ladder, name: string)
    requires forall r :: r in rs <==> r == rung || (r in was && r.name != rung.name)
    requires SlotOf(was, name).Some?
    ensures SlotOf(rs, name).Some?
  {
    var r := was[SlotOf(was, name).value];
    assert rung in rs;
    assert r in was && (r in rs || r.name == rung.name);
    var i :| 0 <= i < |rs| && rs[i].name == name;
  }

  function WithdrawnFrom(sources: Registry, source: string, bid: BufferId): Registry
    requires SlotOf(LadderAt(sources, bid), source).Some?
  {
    var left := Dropped(sources[bid], SlotOf(sources[bid], source).value);
    if left == [] then sources - {bid} else sources[bid := left]
  }

  /** A source withdrawn from a buffer, with its signs. */
  function Withdrawn(m: Moment, source: string, bid: BufferId): Moment
    requires SlotOf(LadderAt(m.signSources, bid), source).Some?
  {
    m.(signSources := WithdrawnFrom(m.signSources, source, bid), signs := WithoutIn(m.signs, source, bid))
  }

  lemma WithdrawnIsNext(m: Moment, source: string, bid: BufferId)
    requires SlotOf(LadderAt(m.signSources, bid), source).Some?
    ensures Next(m, Touched(Withdrawn(m, source, bid), bid))
  {
    TouchIsNext(m, Withdrawn(m, source, bid), bid);
  }

  lemma SlottedWithdrawn(signs: Stored, sources: Registry, source: string, bid: BufferId)
    requires SlotOf(LadderAt(sources, bid), source).Some? && IsLadder(LadderAt(sources, bid)) && Kept(At(signs, bid))
    requires Slotted(signs, sources)
    ensures Slotted(WithoutIn(signs, source, bid), WithdrawnFrom(sources, source, bid))
  {
    var next, left := WithoutIn(signs, source, bid), WithdrawnFrom(sources, source, bid);
    WithoutMeans(At(signs, bid), source);
    forall b, g: Group | b in next && g in next[b] && g.entries != []
        ensures SlotOf(LadderAt(left, b), g.source).Some? {
      if b == bid { SlotsMoveUp(LadderAt(sources, bid), SlotOf(LadderAt(sources, bid), source).value, g.source); }
    }
  }

  lemma ClearedIsNext(m: Moment, bid: BufferId)
    ensures Next(m, Touched(Cleared(m, bid), bid))
    ensures Next(m, Touched(Cleared(m, bid), bid).(signSources := m.signSources - {bid}))
  {
    TouchIsNext(m, Cleared(m, bid), bid);
    TouchIsNext(m, Cleared(m, bid).(signSources := m.signSources - {bid}), bid);
  }

  lemma CarriedIsNext(m: Moment, bid: BufferId, change: TextChange)
    requires Applies(m, bid, change)
    ensures Next(m, Touched(Carried(m, bid, change), bid))
  {
    TouchIsNext(m, Carried(m, bid, change), bid);
  }

  lemma QuietIsNext(m: Moment, next: Moment)
    requires next == m.(signSources := next.signSources)
    ensures Next(m, next)
  {
    assert Quiet(m, next);
  }

  function Tagged(k: nat, es: Entries): (r: seq<(nat, Entry)>)
    ensures |r| == |es| && forall i :: 0 <= i < |r| ==> r[i] == (k, es[i])
  {
    seq(|es|, i requires 0 <= i < |es| => (k, es[i]))
  }

  ghost predicate SlottedBelow(gs: Groups, rs: Ladder, n: nat, k: nat, e: Entry)
    requires n <= |gs|
  {
    exists i :: 0 <= i < n && e in gs[i].entries && SlotOf(rs, gs[i].source) == Some(k)
  }

  lemma SlottedOneMore(gs: Groups, rs: Ladder, n: nat)
    requires n < |gs|
    ensures forall k: nat, e :: SlottedBelow(gs, rs, n + 1, k, e) <==>
              SlottedBelow(gs, rs, n, k, e) || (e in gs[n].entries && SlotOf(rs, gs[n].source) == Some(k))
  {
  }

  /** A source with signs in the range has signs, so it has a slot. */
  lemma SourceSlotted(signs: Stored, sources: Registry, bid: BufferId, i: nat, lo: nat, hi: nat, g: Group)
    requires Slotted(signs, sources) && i < |At(signs, bid)| && g.entries != []
    requires g == Group(At(signs, bid)[i].source, InRange(At(signs, bid)[i].entries, lo, hi))
    ensures SlotOf(LadderAt(sources, bid), g.source).Some?
  {
    assert At(signs, bid)[i] in At(signs, bid);
  }

  lemma SlottedAll(gs: Groups, ranged: Groups, rs: Ladder, lo: nat, hi: nat)
    requires |ranged| == |gs| && forall i :: 0 <= i < |gs| ==>
             ranged[i] == Group(gs[i].source, InRange(gs[i].entries, lo, hi))
    ensures forall k: nat, e :: SlottedBelow(ranged, rs, |ranged|, k, e) <==>
              exists g :: g in gs && e in InRange(g.entries, lo, hi) && SlotOf(rs, g.source) == Some(k)
  {
    forall k: nat, e ensures SlottedBelow(ranged, rs, |ranged|, k, e) <==>
                          exists g :: g in gs && e in InRange(g.entries, lo, hi) && SlotOf(rs, g.source) == Some(k)
    {
      if g :| g in gs && e in InRange(g.entries, lo, hi) && SlotOf(rs, g.source) == Some(k) {
        var i :| 0 <= i < |gs| && gs[i] == g;
        assert e in ranged[i].entries;
      }
      if SlottedBelow(ranged, rs, |ranged|, k, e) {
        var i :| 0 <= i < |ranged| && e in ranged[i].entries && SlotOf(rs, ranged[i].source) == Some(k);
        assert gs[i] in gs;
      }
    }
  }
}
