/** The log of recent edit steps: what it answers for a generation patches the live text back to it. */
module ChangeLogs {
  import opened Wrappers
  import opened Sequences
  import opened ChangeSets
  import opened Lines
  import opened Hunks
  import opened Regions

  const MAX_ENTRIES := 1024

  const MAX_HELD_CHARS := 0x10_0000

  const MAX_REPORTED_CHARS := 0x10_0000

  /** A step from generation `from`; `undo` takes its result back, none for a wholesale replacement. */
  datatype Step = Step(from: nat, undo: Option<ChangeSet>, chars: nat)

  /** Deleted chars a changeset holds to put back. */
  function HeldBy(ops: seq<Op>): nat {
    if ops == [] then 0 else (if ops[0].Insert? then |ops[0].s| else 0) + HeldBy(ops[1..])
  }

  /** The chars a changeset deletes. */
  function DeletedChars(ops: seq<Op>): nat {
    if ops == [] then 0 else (if ops[0].Delete? then ops[0].n else 0) + DeletedChars(ops[1..])
  }

  lemma {:induction false} HeldConcat(a: seq<Op>, b: seq<Op>)
    ensures HeldBy(a + b) == HeldBy(a) + HeldBy(b)
  {
    if a == [] {
      assert a + b == b;
    } else {
      assert (a + b)[1..] == a[1..] + b;
      HeldConcat(a[1..], b);
    }
  }

  lemma HeldOne(op: Op)
    ensures HeldBy([op]) == if op.Insert? then |op.s| else 0
  {
    assert [op][1..] == [];
  }

  lemma HeldMerge(ops: seq<Op>, op: Op)
    ensures HeldBy(PushMerge(ops, op)) == HeldBy(ops) + HeldBy([op])
  {
    HeldOne(op);
    if IsEmpty(op) {
    } else if ops != [] && SameKind(ops[|ops| - 1], op) {
      var init, last := ops[..|ops| - 1], ops[|ops| - 1];
      assert init + [last] == ops;
      HeldConcat(init, [last]);
      HeldConcat(init, [Merge(last, op)]);
      HeldOne(last);
      HeldOne(Merge(last, op));
    } else {
      HeldConcat(ops, [op]);
    }
  }

  lemma {:induction false} HeldAll(ops: seq<Op>, more: seq<Op>)
    ensures HeldBy(PushAll(ops, more)) == HeldBy(ops) + HeldBy(more)
    decreases |more|
  {
    if more != [] {
      assert more == [more[0]] + more[1..];
      HeldConcat([more[0]], more[1..]);
      HeldMerge(ops, more[0]);
      HeldAll(PushMerge(ops, more[0]), more[1..]);
    }
  }

  lemma {:induction false} HeldRaw(ops: seq<Op>, t: string)
    requires Consumed(ops) == |t|
    ensures HeldBy(InvertRaw(ops, t)) == DeletedChars(ops)
  {
    if ops != [] {
      match ops[0]
      case Retain(n) =>
        HeldRaw(ops[1..], t[n..]);
        HeldConcat([Retain(n)], InvertRaw(ops[1..], t[n..]));
        HeldOne(Retain(n));
      case Delete(n) =>
        HeldRaw(ops[1..], t[n..]);
        HeldConcat([Insert(t[..n])], InvertRaw(ops[1..], t[n..]));
        HeldOne(Insert(t[..n]));
      case Insert(s) =>
        HeldRaw(ops[1..], t);
        HeldConcat([Delete(|s|)], InvertRaw(ops[1..], t));
        HeldOne(Delete(|s|));
    }
  }

  /** What an undo holds is as long as what the edit deleted. */
  lemma HeldIsDeleted(cs: ChangeSet, t: string)
    requires cs.Valid() && |t| == cs.lenBefore
    ensures HeldBy(Inverse(cs, t).ops) == DeletedChars(cs.ops)
  {
    HeldAll([], InvertRaw(cs.ops, t));
    HeldRaw(cs.ops, t);
  }

  function TotalHeld(steps: seq<Step>): nat {
    if steps == [] then 0 else steps[0].chars + TotalHeld(steps[1..])
  }

  lemma {:induction false} TotalHeldPush(steps: seq<Step>, s: Step)
    ensures TotalHeld(steps + [s]) == TotalHeld(steps) + s.chars
  {
    if steps == [] {
      assert steps + [s] == [s] && [s][1..] == [];
    } else {
      assert (steps + [s])[1..] == steps[1..] + [s];
      TotalHeldPush(steps[1..], s);
    }
  }

  // ---- What is kept ----

  predicate WithinBounds(steps: seq<Step>) {
    |steps| <= MAX_ENTRIES && TotalHeld(steps) <= MAX_HELD_CHARS
  }

  /** The steps left after the oldest are dropped while a bound is passed. */
  function Retained(steps: seq<Step>): seq<Step> {
    if WithinBounds(steps) then steps else Retained(steps[1..])
  }

  /** The longest run of newest steps within both bounds: one step more would pass one. */
  lemma {:induction false} RetainedLongest(steps: seq<Step>) returns (k: nat)
    ensures k <= |steps| && Retained(steps) == steps[k..] && WithinBounds(steps[k..])
    ensures forall j :: 0 <= j <= |steps| ==> (WithinBounds(steps[j..]) <==> k <= j)
  {
    if WithinBounds(steps) {
      k := 0;
      assert steps[0..] == steps;
      forall j | 0 <= j <= |steps| ensures WithinBounds(steps[j..]) { WithinTail(steps, j); }
    } else {
      k := RetainedLongest(steps[1..]);
      k := k + 1;
      assert steps[1..][k - 1..] == steps[k..] && steps[0..] == steps;
      forall j | 0 < j <= |steps| ensures WithinBounds(steps[j..]) <==> k <= j {
        assert steps[1..][j - 1..] == steps[j..];
      }
    }
  }

  lemma {:induction false} WithinTail(steps: seq<Step>, j: nat)
    requires WithinBounds(steps) && j <= |steps|
    ensures WithinBounds(steps[j..])
  {
    if j == 0 { assert steps[0..] == steps; } else {
      WithinTail(steps[1..], j - 1);
      assert steps[1..][j - 1..] == steps[j..];
    }
  }

  /** Dropping as each step comes keeps what dropping once, at the end, would. */
  lemma {:induction false} RetainedPush(steps: seq<Step>, s: Step)
    ensures Retained(steps + [s]) == Retained(Retained(steps) + [s])
  {
    if !WithinBounds(steps) {
      TotalHeldPush(steps, s);
      assert (steps + [s])[1..] == steps[1..] + [s];
      RetainedPush(steps[1..], s);
    }
  }

  /** A kept step starts at the generation and no replacement lies after it. */
  ghost predicate ReachedBy(steps: seq<Step>, generation: nat) {
    exists k: nat :: ReachesFrom(steps, generation, k)
  }

  ghost predicate ReachesFrom(steps: seq<Step>, generation: nat, k: nat) {
    k < |steps| && steps[k].from == generation && forall j :: k <= j < |steps| ==> steps[j].undo.Some?
  }

  /** Of all the steps ever recorded, the log reaches just those generations since which the steps fit its bounds. */
  lemma ReachedByRetained(all: seq<Step>, generation: nat)
    ensures ReachedBy(Retained(all), generation)
       <==> exists k: nat :: ReachesFrom(all, generation, k) && WithinBounds(all[k..])
  {
    var n := RetainedLongest(all);
    var kept := Retained(all);
    if k: nat :| ReachesFrom(kept, generation, k) {
      forall j | n + k <= j < |all| ensures all[j].undo.Some? { assert all[j] == kept[j - n]; }
      assert all[n + k] == kept[k];
      assert ReachesFrom(all, generation, n + k);
    }
    if k: nat :| ReachesFrom(all, generation, k) && WithinBounds(all[k..]) {
      assert kept[k - n] == all[k];
      assert ReachesFrom(kept, generation, k - n);
    }
  }

  method CountHeld(ops: seq<Op>) returns (n: nat)
    ensures n == HeldBy(ops)
  {
    n := 0;
    for i := 0 to |ops|
      invariant n + HeldBy(ops[i..]) == HeldBy(ops)
    {
      DropDrop(ops, i, 1);
      if ops[i].Insert? { n := n + |ops[i].s|; }
    }
  }

  /** The generation a step led to: the next step's start, or the live one. */
  function StepTo(steps: seq<Step>, k: nat, liveGen: nat): nat
    requires k < |steps|
  {
    if k + 1 < |steps| then steps[k + 1].from else liveGen
  }

  /** A step's undo takes the text it led to back to the text it started from. */
  ghost predicate StepUndoes(steps: seq<Step>, k: nat, texts: map<nat, string>, liveGen: nat)
    requires k < |steps|
  {
    var to := StepTo(steps, k, liveGen);
    && steps[k].from in texts && to in texts && steps[k].from < to
    && (steps[k].undo.Some? ==>
          var cs := steps[k].undo.value;
          && cs.Valid() && cs.lenBefore == |texts[to]| && cs.lenAfter == |texts[steps[k].from]|
          && Run(cs.ops, texts[to]) == texts[steps[k].from])
  }

  /** What the log keeps: every kept step undoes to the text of its generation, and the live text is the
      newest step's result. */
  ghost predicate Lineage(steps: seq<Step>, texts: map<nat, string>, liveGen: nat) {
    && liveGen in texts && (forall g :: g in texts ==> EndsInNewline(texts[g]))
    && forall k :: 0 <= k < |steps| ==> StepUndoes(steps, k, texts, liveGen)
  }

  lemma LineageGrows(steps: seq<Step>, texts: map<nat, string>, liveGen: nat, s: Step, gen: nat, text: string)
    requires Lineage(steps, texts, liveGen) && gen !in texts && gen > liveGen && EndsInNewline(text)
    requires s.from == liveGen
    requires s.undo.Some? ==> s.undo.value.Valid() && s.undo.value.lenBefore == |text|
                              && s.undo.value.lenAfter == |texts[liveGen]|
                                  && Run(s.undo.value.ops, text) == texts[liveGen]
    ensures Lineage(steps + [s], texts[gen := text], gen)
  {
    var all, more := steps + [s], texts[gen := text];
    forall k | 0 <= k < |all| ensures StepUndoes(all, k, more, gen) {
      if k < |steps| {
        assert StepUndoes(steps, k, texts, liveGen);
        assert StepTo(all, k, gen) == StepTo(steps, k, liveGen);
      }
    }
  }

  lemma LineageDrops(steps: seq<Step>, texts: map<nat, string>, liveGen: nat)
    requires Lineage(steps, texts, liveGen) && steps != []
    ensures Lineage(steps[1..], texts, liveGen)
  {
    var rest := steps[1..];
    forall k | 0 <= k < |rest| ensures StepUndoes(rest, k, texts, liveGen) {
      assert StepUndoes(steps, k + 1, texts, liveGen);
    }
  }

  /** The undos of the steps from `first` on, newest first. */
  ghost function Undos(steps: seq<Step>, first: nat): seq<ChangeSet>
    requires first <= |steps| && forall k :: first <= k < |steps| ==> steps[k].undo.Some?
    decreases |steps| - first
  {
    if first == |steps| then [] else Undos(steps, first + 1) + [steps[first].undo.value]
  }

  /** Running those undos on the live text gives the text the first of the steps started from. */
  lemma {:induction false} UndosRun(steps: seq<Step>, first: nat, texts: map<nat, string>, liveGen: nat,
                                    css: seq<ChangeSet>)
    requires Lineage(steps, texts, liveGen) && first < |steps|
    requires (forall k :: first <= k < |steps| ==> steps[k].undo.Some?) && css == Undos(steps, first)
    ensures steps[first].from in texts && Chained(css) && css != [] && css[0].lenBefore == |texts[liveGen]|
    ensures css[|css| - 1].lenAfter == |texts[steps[first].from]|
    ensures RunAll(css, texts[liveGen]) == texts[steps[first].from]
    decreases |steps| - first
  {
    assert StepUndoes(steps, first, texts, liveGen);
    var cs, live := steps[first].undo.value, texts[liveGen];
    if first + 1 == |steps| {
      assert css == [cs];
      RunAllOne(cs, live);
    } else {
      var newer := Undos(steps, first + 1);
      UndosRun(steps, first + 1, texts, liveGen, newer);
      assert css == newer + [cs];
      ChainedPush(newer, cs);
      RunAllSplit(newer, [cs], live, css);
      RunAllOne(cs, texts[steps[first + 1].from]);
    }
  }

  lemma RunAllOne(cs: ChangeSet, t: string)
    requires cs.Valid() && cs.lenBefore == |t|
    ensures Chained([cs]) && RunAll([cs], t) == Run(cs.ops, t)
  {
    assert [cs][1..] == [];
    RunLength(cs.ops, t);
    assert RunAll([cs][1..], Run(cs.ops, t)) == Run(cs.ops, t);
  }

  lemma ChainedPush(css: seq<ChangeSet>, cs: ChangeSet)
    requires Chained(css) && cs.Valid() && (css != [] ==> css[|css| - 1].lenAfter == cs.lenBefore)
    ensures Chained(css + [cs])
  {
  }

  /** The answer for the steps from `first` on: the hunks of their net undo, unless those span more than the bound. */
  ghost predicate Reported(steps: seq<Step>, first: nat, live: string, regions: seq<Region>, groups: seq<Group>,
                           r: Option<seq<ChangeHunk>>) {
    && first < |steps| && (forall k :: first <= k < |steps| ==> steps[k].undo.Some?)
    && Chained(Undos(steps, first)) && Undos(steps, first) != []
    && Exactly(Net(Undos(steps, first)).ops, regions, |live|) && GroupsOf(live, regions, groups, |regions|)
    && Edits(live, regions)
    && if r.Some? then TotalSpanned(live, regions, groups) <= MAX_REPORTED_CHARS
                       && HunksOf(live, regions, groups, |groups|, r.value)
       else TotalSpanned(live, regions, groups) > MAX_REPORTED_CHARS
  }

  class ChangeLog {
    var steps: seq<Step>
    var heldChars: nat
    /** Every text the log has been told of, by generation, and the live one. */
    ghost var texts: map<nat, string>
    ghost var liveGen: nat
    /** Every step ever recorded. */
    ghost var recorded: seq<Step>

    ghost predicate Valid() reads this {
      && steps == Retained(recorded)
      && Lineage(steps, texts, liveGen) && (forall g :: g in texts ==> g <= liveGen)
      && heldChars == TotalHeld(steps) && WithinBounds(steps)
    }

    constructor (ghost gen: nat, ghost text: string)
      requires EndsInNewline(text)
      ensures Valid() && recorded == [] && texts == map[gen := text] && liveGen == gen
    {
      steps, recorded, heldChars := [], [], 0;
      texts, liveGen := map[gen := text], gen;
    }

    /** Records the edit `cs` of the live text `before` as the newest step. */
    method Record(beforeGen: nat, before: string, cs: ChangeSet, afterGen: nat, ghost after: string)
      requires Valid() && beforeGen == liveGen && before == texts[liveGen] && afterGen > beforeGen
      requires cs.Valid() && cs.lenBefore == |before| && after == Run(cs.ops, before) && EndsInNewline(after)
      modifies this
      ensures Valid() && liveGen == afterGen && texts == old(texts)[afterGen := after]
      ensures var undo := Inverse(cs, before);
              recorded == old(recorded) + [Step(beforeGen, Some(undo), DeletedChars(cs.ops))]
    {
      var undo := Invert(cs, before);
      HeldIsDeleted(cs, before);
      InverseUndoes(cs, before);
      var chars := CountHeld(undo.ops);
      Push(Step(beforeGen, Some(undo), chars), afterGen, after);
    }

    /** Records a replacement of the live text that no change describes. */
    method RecordReplace(beforeGen: nat, ghost afterGen: nat, ghost after: string)
      requires Valid() && beforeGen == liveGen && afterGen > beforeGen && EndsInNewline(after)
      modifies this
      ensures Valid() && liveGen == afterGen && texts == old(texts)[afterGen := after]
      ensures recorded == old(recorded) + [Step(beforeGen, None, 0)]
    {
      Push(Step(beforeGen, None, 0), afterGen, after);
    }

    /** Appends the step, then drops the oldest while a bound is passed. */
    method Push(step: Step, ghost gen: nat, ghost text: string)
      requires Valid() && step.from == liveGen && gen > liveGen && EndsInNewline(text)
      requires step.undo.Some? ==> step.undo.value.Valid() && step.undo.value.lenBefore == |text|
                                   && step.undo.value.lenAfter == |texts[liveGen]|
                                       && Run(step.undo.value.ops, text) == texts[liveGen]
      modifies this
      ensures Valid() && liveGen == gen && texts == old(texts)[gen := text]
      ensures recorded == old(recorded) + [step]
    {
      LineageGrows(steps, texts, liveGen, step, gen, text);
      TotalHeldPush(steps, step);
      RetainedPush(recorded, step);
      heldChars := heldChars + step.chars;
      steps := steps + [step];
      texts, liveGen, recorded := texts[gen := text], gen, recorded + [step];
      while |steps| > MAX_ENTRIES || heldChars > MAX_HELD_CHARS
        invariant Lineage(steps, texts, liveGen) && heldChars == TotalHeld(steps)
                  && Retained(steps) == Retained(recorded)
        invariant liveGen == gen && texts == old(texts)[gen := text] && recorded == old(recorded) + [step]
        decreases |steps|
      {
        LineageDrops(steps, texts, liveGen);
        heldChars := heldChars - steps[0].chars;
        steps := steps[1..];
      }
    }

    /** Whether the log can tell what changed since `generation`. */
    ghost predicate Reaches(generation: nat) reads this {
      ReachedBy(steps, generation)
    }

    /** The hunks separating `generation` (old side) from the live text (new side). */
    method Since(generation: nat, currentGen: nat, live: string) returns (r: Option<seq<ChangeHunk>>)
      requires Valid() && currentGen == liveGen && live == texts[liveGen]
      ensures generation == liveGen ==> r == Some([])
      ensures r.Some? ==> generation in texts && CorrectPatch(SplitLines(live), SplitLines(texts[generation]), r.value)
      ensures generation != liveGen && r.Some? ==> Reaches(generation)
      ensures generation != liveGen && Reaches(generation) && r.None? ==>
                generation in texts && exists regions, groups ::
                  && Edits(live, regions) && BuiltFrom(live, regions, 0, |live|) == texts[generation]
                  && GroupsOf(live, regions, groups, |regions|)
                      && TotalSpanned(live, regions, groups) > MAX_REPORTED_CHARS
      ensures generation != liveGen && Reaches(generation) ==>
                exists first, regions, groups ::
                  ReachesFrom(steps, generation, first) && Reported(steps, first, live, regions, groups, r)
    {
      if generation == currentGen {
        NoHunks(SplitLines(live));
        return Some([]);
      }
      var first := LastFrom(generation);
      if first.None? { return None; }
      var undos := CollectUndos(first.value);
      if undos.None? { return None; }
      UndosRun(steps, first.value, texts, liveGen, undos.value);
      assert ReachesFrom(steps, generation, first.value);
      var net := NetOf(undos.value, live);
      var hunks, regions, groups := ChangeHunksWithin(net, live, MAX_REPORTED_CHARS);
      assert Reported(steps, first.value, live, regions, groups, hunks);
      return hunks;
    }

    method LastFrom(generation: nat) returns (r: Option<nat>)
      requires Valid()
      ensures r.None? ==> forall k :: 0 <= k < |steps| ==> steps[k].from != generation
      ensures r.Some? ==> r.value < |steps| && steps[r.value].from == generation
      ensures r.Some? ==> forall k :: 0 <= k < |steps| && steps[k].from == generation ==> k <= r.value
    {
      var i := |steps|;
      while i > 0
        invariant 0 <= i <= |steps| && forall k :: i <= k < |steps| ==> steps[k].from != generation
      {
        i := i - 1;
        if steps[i].from == generation { return Some(i); }
      }
      return None;
    }

    method CollectUndos(first: nat) returns (r: Option<seq<ChangeSet>>)
      requires first <= |steps|
      ensures r.Some? <==> forall k :: first <= k < |steps| ==> steps[k].undo.Some?
      ensures r.Some? ==> r.value == Undos(steps, first)
    {
      var css := [];
      var i := |steps|;
      while i > first
        invariant first <= i <= |steps| && (forall k :: i <= k < |steps| ==> steps[k].undo.Some?)
                  && css == Undos(steps, i)
      {
        i := i - 1;
        if steps[i].undo.None? { return None; }
        css := css + [steps[i].undo.value];
      }
      return Some(css);
    }
  }

  method NetOf(css: seq<ChangeSet>, ghost t: string) returns (net: ChangeSet)
    requires Chained(css) && css != [] && css[0].lenBefore == |t|
    ensures net.Valid() && net.lenBefore == |t| && Run(net.ops, t) == RunAll(css, t) && net == Net(css)
  {
    if |css| == 1 {
      assert css == [css[0]];
      RunAllOne(css[0], t);
      return css[0];
    }
    var composed := ComposeAll(css);
    NetRun(css, t);
    return composed.value;
  }

  lemma NoHunks(lines: seq<string>)
    ensures CorrectPatch(lines, lines, [])
  {
    assert lines[..|lines|] == lines;
  }
}
