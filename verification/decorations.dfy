/** The decoration stores: every write stamps its buffer, an edit stamps it when there was something to carry. */
module Decorations {
  import opened Wrappers
  import opened Integers
  import opened EntryOrder
  import opened EntryRemaps
  import opened SourceStores
  import opened SignLadders
  import opened DecorationStamps

  class DecorationStores {
    const hints: SourceStore
    const signs: SourceStore
    const virtualLines: SourceStore
    const highlights: SourceStore
    const eolText: SourceStore
    const backgrounds: SourceStore
    var signSources: Registry
    var generation: map<BufferId, nat>
    var clock: nat

    ghost function Stores(): set<SourceStore> {
      {hints, signs, virtualLines, highlights, eolText, backgrounds}
    }

    ghost predicate Apart() {
      && hints !in {signs, virtualLines, highlights, eolText, backgrounds}
      && signs !in {virtualLines, highlights, eolText, backgrounds}
      && virtualLines !in {highlights, eolText, backgrounds}
      && highlights !in {eolText, backgrounds} && eolText != backgrounds
    }

    ghost predicate Valid() reads this, Stores() {
      && Apart() && clock <= U64_MAX
      && hints.Valid() && signs.Valid() && virtualLines.Valid() && highlights.Valid() && eolText.Valid()
          && backgrounds.Valid()
      && (forall bid :: bid in signSources ==> IsLadder(signSources[bid]))
    }

    ghost predicate SignsSlotted() reads this, signs { Slotted(signs.byBuffer, signSources) }

    ghost function Now(): Moment reads this, Stores() {
      Moment(hints.byBuffer, signs.byBuffer, virtualLines.byBuffer, highlights.byBuffer, eolText.byBuffer,
             backgrounds.byBuffer, signSources, generation, clock)
    }

    /** The session's first store is reset from clock 0, a later one from the clock of the store before it. */
    constructor Reset(priorClock: nat)
      requires priorClock <= U64_MAX
      ensures Valid() && Now() == Fresh(priorClock) && fresh(Stores())
    {
      hints := new SourceStore();
      signs := new SourceStore();
      virtualLines := new SourceStore();
      highlights := new SourceStore();
      eolText := new SourceStore();
      backgrounds := new SourceStore();
      signSources, generation, clock := map[], map[], Tick(priorClock);
      new;
      assert Apart();
    }

    /** Stamps the buffer with a fresh value off the shared clock. */
    method Touch(bid: BufferId)
      requires Valid()
      modifies `clock, `generation
      ensures Valid() && Now() == Touched(old(Now()), bid)
    {
      clock := Tick(clock);
      generation := generation[bid := clock];
    }

    /** Replaces the source's inlay hints. */
    method SetInlayHints(source: string, bid: BufferId, entries: Entries)
      requires Valid()
      modifies this, hints
      ensures Valid() && Next(old(Now()), Now())
      ensures var stored := SetIn(old(hints.byBuffer), source, bid, SortByAnchor(entries));
              Now() == Touched(old(Now()).(hints := stored), bid)
    {
      ghost var was := Now();
      hints.Set(source, bid, entries);
      TouchIsNext(was, Now(), bid);
      Touch(bid);
    }

    /** Replaces the source's signs, one a line; a source with no slot may only be set to none. */
    method SetSigns(source: string, bid: BufferId, entries: Entries)
      requires Valid()
      modifies this, signs
      ensures Valid() && Next(old(Now()), Now())
      ensures old(SignsSlotted()) ==> (SignsSlotted() <==>
                entries == []
                || SlotOf(LadderAt(signSources, bid), source).Some?)
      ensures var stored := SetIn(old(signs.byBuffer), source, bid, Dedup(SortByAnchor(entries)));
              Now() == Touched(old(Now()).(signs := stored), bid)
    {
      ghost var was := Now();
      signs.SetOnePerLine(source, bid, entries);
      TouchIsNext(was, Now(), bid);
      if Slotted(was.signs, signSources) { SlottedSet(was.signs, signSources, source, bid, entries); }
      Touch(bid);
    }

    /** Replaces the source's virtual lines. */
    method SetVirtualLines(source: string, bid: BufferId, entries: Entries)
      requires Valid()
      modifies this, virtualLines
      ensures Valid() && Next(old(Now()), Now())
      ensures var stored := SetIn(old(virtualLines.byBuffer), source, bid, SortByAnchor(entries));
              Now() == Touched(old(Now()).(virtualLines := stored), bid)
    {
      ghost var was := Now();
      virtualLines.Set(source, bid, entries);
      TouchIsNext(was, Now(), bid);
      Touch(bid);
    }

    /** Replaces the source's end-of-line text, one a line. */
    method SetEolText(source: string, bid: BufferId, entries: Entries)
      requires Valid()
      modifies this, eolText
      ensures Valid() && Next(old(Now()), Now())
      ensures var stored := SetIn(old(eolText.byBuffer), source, bid, Dedup(SortByAnchor(entries)));
              Now() == Touched(old(Now()).(eolText := stored), bid)
    {
      ghost var was := Now();
      eolText.SetOnePerLine(source, bid, entries);
      TouchIsNext(was, Now(), bid);
      Touch(bid);
    }

    /** Replaces the source's line backgrounds, one a line. */
    method SetLineBackgrounds(source: string, bid: BufferId, entries: Entries)
      requires Valid()
      modifies this, backgrounds
      ensures Valid() && Next(old(Now()), Now())
      ensures var stored := SetIn(old(backgrounds.byBuffer), source, bid, Dedup(SortByAnchor(entries)));
              Now() == Touched(old(Now()).(backgrounds := stored), bid)
    {
      ghost var was := Now();
      backgrounds.SetOnePerLine(source, bid, entries);
      TouchIsNext(was, Now(), bid);
      Touch(bid);
    }

    /** Replaces the source's extra highlights. */
    method SetExtraHighlights(source: string, bid: BufferId, entries: Entries)
      requires Valid()
      modifies this, highlights
      ensures Valid() && Next(old(Now()), Now())
      ensures var stored := SetIn(old(highlights.byBuffer), source, bid, SortByAnchor(entries));
              Now() == Touched(old(Now()).(highlights := stored), bid)
    {
      ghost var was := Now();
      highlights.Set(source, bid, entries);
      TouchIsNext(was, Now(), bid);
      Touch(bid);
    }

    /** Adds to the source's extra highlights. */
    method AddExtraHighlights(source: string, bid: BufferId, entries: Entries)
      requires Valid()
      modifies this, highlights
      ensures Valid() && Next(old(Now()), Now())
      ensures var stored := SetIn(old(highlights.byBuffer), source, bid, 
                                 SortByAnchor(AddedTo(old(highlights.byBuffer), source, bid, entries)));
              Now() == Touched(old(Now()).(highlights := stored), bid)
    {
      ghost var was := Now();
      highlights.Extend(source, bid, entries);
      TouchIsNext(was, Now(), bid);
      Touch(bid);
    }

    /** Drops every entry of the buffer, whose text was replaced. */
    method ClearEntries(bid: BufferId)
      requires Valid()
      modifies this, Stores()
      ensures Valid() && Next(old(Now()), Now()) && Now() == Touched(Cleared(old(Now()), bid), bid)
      ensures old(SignsSlotted()) ==> SignsSlotted()
    {
      ghost var was := Now();
      var _ := hints.RemoveBuffer(bid);
      var _ := signs.RemoveBuffer(bid);
      var _ := virtualLines.RemoveBuffer(bid);
      var _ := eolText.RemoveBuffer(bid);
      var _ := backgrounds.RemoveBuffer(bid);
      var _ := highlights.RemoveBuffer(bid);
      ClearedIsNext(was, bid);
      Touch(bid);
    }

    /** Drops everything held for a closed buffer. */
    method RemoveBuffer(bid: BufferId)
      requires Valid()
      modifies this, Stores()
      ensures Valid() && Next(old(Now()), Now())
      ensures Now() == Touched(Cleared(old(Now()), bid), bid).(signSources := old(signSources) - {bid})
      ensures old(SignsSlotted()) ==> SignsSlotted()
    {
      ghost var was := Now();
      ClearEntries(bid);
      ClearedIsNext(was, bid);
      signSources := signSources - {bid};
    }

    /** Carries every kind's entries through an edit; the buffer is touched just when it had some. */
    method RemapThrough(bid: BufferId, change: TextChange)
      requires Valid() && Applies(Now(), bid, change)
      modifies this, Stores()
      ensures Valid() && Next(old(Now()), Now())
      ensures Now() == if HasAny(ContentsAt(old(Now()), bid)) then Touched(Carried(old(Now()), bid, change), bid)
              else old(Now())
      ensures old(SignsSlotted()) ==> SignsSlotted()
    {
      ghost var was := Now();
      var touched := RemapAll(bid, change);
      if Slotted(was.signs, signSources) { SlottedCarried(was.signs, signSources, bid, change); }
      if touched {
        CarriedIsNext(was, bid, change);
        Touch(bid);
      } else {
        UntouchedChangesNothing(was, bid, change);
        QuietIsNext(was, was);
      }
    }

    /** Every kind is carried, whichever had entries. */
    method RemapAll(bid: BufferId, change: TextChange) returns (touched: bool)
      requires Valid() && Applies(Now(), bid, change)
      modifies Stores()
      ensures Valid() && touched == HasAny(ContentsAt(old(Now()), bid)) && Now() == Carried(old(Now()), bid, change)
    {
      var chars := RemapChars(bid, change);
      var lines := RemapLineKinds(bid, change);
      touched := chars || lines;
    }

    method RemapChars(bid: BufferId, change: TextChange) returns (touched: bool)
      requires Valid() && Applies(Now(), bid, change)
      modifies hints, highlights
      ensures Valid() && touched == (HasEntries(At(old(hints.byBuffer), bid))
              || HasEntries(At(old(highlights.byBuffer), bid)))
      ensures hints.byBuffer == CarriedIn(old(hints.byBuffer), Points, bid, change)
      ensures highlights.byBuffer == CarriedIn(old(highlights.byBuffer), Ranges, bid, change)
    {
      var a := hints.Remap(Points, bid, change);
      var b := highlights.Remap(Ranges, bid, change);
      touched := a || b;
    }

    method RemapLineKinds(bid: BufferId, change: TextChange) returns (touched: bool)
      requires Valid() && Applies(Now(), bid, change)
      modifies signs, virtualLines, eolText, backgrounds
      ensures Valid()
      ensures touched == (HasEntries(At(old(signs.byBuffer), bid)) || HasEntries(At(old(virtualLines.byBuffer), bid))
                          || HasEntries(At(old(eolText.byBuffer), bid))
                              || HasEntries(At(old(backgrounds.byBuffer), bid)))
      ensures signs.byBuffer == CarriedIn(old(signs.byBuffer), LineEntries, bid, change)
      ensures virtualLines.byBuffer == CarriedIn(old(virtualLines.byBuffer), LineEntries, bid, change)
      ensures eolText.byBuffer == CarriedIn(old(eolText.byBuffer), LineEntries, bid, change)
      ensures backgrounds.byBuffer == CarriedIn(old(backgrounds.byBuffer), LineEntries, bid, change)
    {
      var a := signs.Remap(LineEntries, bid, change);
      var b := virtualLines.Remap(LineEntries, bid, change);
      var c := eolText.Remap(LineEntries, bid, change);
      var d := backgrounds.Remap(LineEntries, bid, change);
      touched := a || b || c || d;
    }

    /** Registers a sign source for the buffer, under its new priority when it had one. */
    method RegisterSignSource(source: string, bid: BufferId, priority: int)
      requires Valid()
      modifies `signSources
      ensures Valid() && Next(old(Now()), Now())
      ensures bid in signSources && Now() == old(Now()).(signSources := old(signSources)[bid := signSources[bid]])
      ensures forall r :: r in signSources[bid] <==>
                r == Rung(source, priority) || (r in LadderAt(old(signSources), bid) && r.name != source)
      ensures old(SignsSlotted()) ==> SignsSlotted()
    {
      ghost var was := Now();
      var rs := Register(if bid in signSources then signSources[bid] else [], source, priority);
      signSources := signSources[bid := rs];
      QuietIsNext(was, Now());
      if Slotted(was.signs, was.signSources) { SlottedRegistered(was.signs, was.signSources, bid,
          Rung(source, priority), rs); }
    }

    /** Withdraws a sign source and drops its signs; nothing for a source not registered. */
    method UnregisterSignSource(source: string, bid: BufferId)
      requires Valid()
      modifies this, signs
      ensures Valid() && Next(old(Now()), Now())
      ensures SlotOf(LadderAt(old(signSources), bid), source).None? ==> Now() == old(Now())
      ensures SlotOf(LadderAt(old(signSources), bid), source).Some? ==>
              Now() == Touched(Withdrawn(old(Now()), source, bid), bid)
      ensures old(SignsSlotted()) ==> SignsSlotted()
    {
      ghost var was := Now();
      QuietIsNext(was, was);
      if SlotOf(LadderAt(signSources, bid), source).None? { return; }
      WithdrawnIsNext(was, source, bid);
      if Slotted(was.signs, signSources) { SlottedWithdrawn(was.signs, signSources, source, bid); }
      Withdraw(source, bid);
      Touch(bid);
    }

    method Withdraw(source: string, bid: BufferId)
      requires Valid() && SlotOf(LadderAt(signSources, bid), source).Some?
      modifies `signSources, signs
      ensures Valid() && Now() == Withdrawn(old(Now()), source, bid)
    {
      var idx := SlotOf(signSources[bid], source);
      DroppedRungs(signSources[bid], idx.value);
      var left := Dropped(signSources[bid], idx.value);
      signSources := if left == [] then signSources - {bid} else signSources[bid := left];
      var _ := signs.RemoveSource(source, bid);
    }

    /** The buffer's signs on a range of lines, each with its source's slot. */
    method SignsInRange(bid: BufferId, lo: nat, hi: nat) returns (r: seq<(nat, Entry)>)
      requires Valid() && lo <= hi && SignsSlotted()
      ensures forall k: nat, e :: (k, e) in r <==>
                exists g :: g in At(signs.byBuffer, bid) && e in InRange(g.entries, lo, hi)
                            && SlotOf(LadderAt(signSources, bid), g.source) == Some(k)
    {
      var groups := signs.GroupsInRange(bid, lo, hi);
      var rs := if bid in signSources then signSources[bid] else [];
      r := [];
      for i := 0 to |groups|
        invariant forall k: nat, e :: (k, e) in r <==> SlottedBelow(groups, rs, i, k, e)
      {
        SlottedOneMore(groups, rs, i);
        if groups[i].entries != [] {
          SourceSlotted(signs.byBuffer, signSources, bid, i, lo, hi, groups[i]);
          var slot := SlotOf(rs, groups[i].source);
          r := r + Tagged(slot.value, groups[i].entries);
        }
      }
      SlottedAll(At(signs.byBuffer, bid), groups, rs, lo, hi);
    }
  }
}
