/** Trimming the undo tree from the root end: what every step of it keeps. */
module HistoryTrim {
  import opened Wrappers
  import opened HistoryTree

  /** A sound tree whose current revision is a leaf below the root. */
  ghost predicate Sound(r: Tree, now: map<nat, string>, current: nat) {
    && Linked(r) && Worded(r, now) && RedoLeadsTo(r, current)
    && current in r && current != ROOT && r[current].children.ids == []
  }

  /** Survivors keep their texts; the root holds the text of the last promoted revision. */
  ghost predicate TextsKept(t: Tree, texts: map<nat, string>, r: Tree, now: map<nat, string>, promoted: Option<nat>) {
    && texts.Keys == t.Keys && now.Keys == r.Keys && ROOT in t && ROOT in r
    && (forall x :: x in r && x != ROOT ==> x in t && now[x] == texts[x])
    && (promoted.Some? ==> promoted.value in t)
    && now[ROOT] == texts[if promoted.Some? then promoted.value else ROOT]
  }

  /** Among the survivors the lines are those of the full tree. */
  ghost predicate LinesKept(t: Tree, r: Tree) {
    forall a, x :: a in r && x in r && a != ROOT ==> (Above(r, a, x) <==> Above(t, a, x))
  }

  /** The line to the current revision loses only its start, up to the promoted revision. */
  ghost predicate PathKept(t: Tree, r: Tree, current: nat, promoted: Option<nat>) {
    && (promoted.Some? ==>
          && promoted.value !in r && promoted.value != current
          && (forall x :: x in r && x != ROOT ==> Above(t, promoted.value, x)))
    && (forall a :: a in t && a !in r && Above(t, a, current) ==> promoted.Some? && Above(t, a, promoted.value))
  }

  ghost predicate Siblings(t: Tree, v: nat, w: nat) {
    v in t && w in t && t[v].link.Some? && t[w].link.Some? && t[v].link.value.parent == t[w].link.value.parent
  }

  ghost predicate SiblingsKept(t: Tree, r: Tree) {
    forall v, w :: v in r && w in r && Siblings(t, v, w) ==> Siblings(r, v, w)
  }

  /** Of siblings off the current line the older go first. */
  ghost predicate OldestFirst(t: Tree, r: Tree, current: nat) {
    forall v, w :: Siblings(t, v, w) && v !in r && w in r && !Above(t, v, current) && !Above(t, w, current) ==> v < w
  }

  /** `r` with the texts `now` is `t` with the texts `texts`, trimmed. */
  ghost predicate Trimmed(t: Tree, texts: map<nat, string>, r: Tree, now: map<nat, string>, current: nat,
                          promoted: Option<nat>) {
    && TextsKept(t, texts, r, now, promoted) && LinesKept(t, r) && PathKept(t, r, current, promoted)
    && SiblingsKept(t, r) && OldestFirst(t, r, current)
  }

  ghost function PrunedTexts(r: Tree, v: nat, now: map<nat, string>): map<nat, string>
    requires now.Keys == r.Keys
  {
    map x | x in r && x !in Subtree(r, v) :: now[x]
  }

  /** `v` is the oldest of the root's children off the current line, which goes through `kept`. */
  ghost predicate Victim(r: Tree, current: nat, v: nat, kept: nat) {
    && ROOT in r && v in r[ROOT].children.ids && kept in r[ROOT].children.ids && v != kept && Above(r, kept, current)
    && forall w :: w in r[ROOT].children.ids && w != kept ==> v <= w
  }

  lemma VictimIsOff(r: Tree, current: nat, v: nat, kept: nat)
    requires Linked(r) && Victim(r, current, v, kept)
    ensures v in r && v != ROOT && r[v].link.Some? && r[v].link.value.parent == ROOT && !Above(r, v, current)
            && !Above(r, v, ROOT)
  {
    SiblingsApart(r, ROOT, v, kept, current);
    assert OwnsChildren(r, ROOT);
    if Above(r, v, ROOT) { AboveIsSmaller(r, v, ROOT); }
  }

  lemma PruneSound(r: Tree, now: map<nat, string>, current: nat, v: nat, kept: nat)
    requires Sound(r, now, current) && Victim(r, current, v, kept)
    ensures Sound(Pruned(r, v, ROOT), PrunedTexts(r, v, now), current)
  {
    VictimIsOff(r, current, v, kept);
    PrunedLinks(r, v, ROOT);
    PrunedRedo(r, v, ROOT, current);
    PrunedWorded(r, v, ROOT, now);
  }

  lemma PruneLines(t: Tree, r: Tree, current: nat, v: nat, kept: nat)
    requires Linked(r) && Victim(r, current, v, kept) && LinesKept(t, r)
    ensures LinesKept(t, Pruned(r, v, ROOT))
  {
    var r' := Pruned(r, v, ROOT);
    forall a, x | a in r' && x in r' && a != ROOT ensures Above(r', a, x) <==> Above(t, a, x) {
      PrunedAbove(r, v, ROOT, a, x);
    }
  }

  lemma PrunePath(t: Tree, r: Tree, current: nat, promoted: Option<nat>, v: nat, kept: nat)
    requires Linked(r) && current in r && Victim(r, current, v, kept) && LinesKept(t, r)
             && PathKept(t, r, current, promoted)
    ensures PathKept(t, Pruned(r, v, ROOT), current, promoted)
  {
    VictimIsOff(r, current, v, kept);
    var r' := Pruned(r, v, ROOT);
    forall a | a in t && a !in r' && Above(t, a, current) ensures a !in r {
      if a in r {
        if a != ROOT { AboveTrans(r, v, a, current); }
      }
    }
  }

  lemma PruneOrder(t: Tree, r: Tree, current: nat, v: nat, kept: nat)
    requires Linked(r) && current in r && Victim(r, current, v, kept)
    requires LinesKept(t, r) && SiblingsKept(t, r) && OldestFirst(t, r, current)
    ensures SiblingsKept(t, Pruned(r, v, ROOT)) && OldestFirst(t, Pruned(r, v, ROOT), current)
  {
    VictimIsOff(r, current, v, kept);
    var r' := Pruned(r, v, ROOT);
    forall x, w | x in r' && w in r' && Siblings(t, x, w) ensures Siblings(r', x, w) {
      assert Siblings(r, x, w);
    }
    forall x, w | Siblings(t, x, w) && x !in r' && w in r' && !Above(t, x, current) && !Above(t, w, current)
        ensures x < w {
      if x in r {
        assert Siblings(r, x, w) && Above(r, v, x) && !Above(r, v, w);
        if x == v { RootsChild(r, w); } else { SiblingUnder(r, v, x, w); }
      }
    }
  }

  lemma RootsChild(r: Tree, w: nat)
    requires Linked(r) && w in r && r[w].link.Some? && r[w].link.value.parent == ROOT
    ensures w in r[ROOT].children.ids
  {
    assert HasParent(r, w);
  }

  lemma SiblingUnder(r: Tree, v: nat, x: nat, w: nat)
    requires Linked(r) && Siblings(r, x, w) && Above(r, v, x) && v != x
    ensures Above(r, v, w)
  {
    assert HasParent(r, x) && HasParent(r, w);
  }

  lemma PruneStep(t: Tree, texts: map<nat, string>, r: Tree, now: map<nat, string>, current: nat, promoted: Option<nat>,
                  v: nat, kept: nat)
    requires Sound(r, now, current) && Trimmed(t, texts, r, now, current, promoted) && Victim(r, current, v, kept)
    ensures Sound(Pruned(r, v, ROOT), PrunedTexts(r, v, now), current)
    ensures Trimmed(t, texts, Pruned(r, v, ROOT), PrunedTexts(r, v, now), current, promoted)
  {
    VictimIsOff(r, current, v, kept);
    PruneSound(r, now, current, v, kept);
    PruneLines(t, r, current, v, kept);
    PrunePath(t, r, current, promoted, v, kept);
    PruneOrder(t, r, current, v, kept);
  }

  lemma PromoteSound(r: Tree, now: map<nat, string>, current: nat, c: nat)
    requires Sound(r, now, current) && r[ROOT].children.ids == [c] && c != current
    ensures c in r && c != ROOT && Sound(Promoted(r, c), PromotedTexts(r, c, now), current)
  {
    PromotedLinks(r, c);
    PromotedRedo(r, c, current);
    PromotedWorded(r, c, now);
  }

  lemma PromoteLines(t: Tree, r: Tree, c: nat)
    requires Linked(r) && c in r && c != ROOT && r[ROOT].children.ids == [c] && LinesKept(t, r)
    ensures LinesKept(t, Promoted(r, c))
  {
    var r' := Promoted(r, c);
    forall a, x | a in r' && x in r' && a != ROOT ensures Above(r', a, x) <==> Above(t, a, x) {
      PromotedAbove(r, c, a, x);
    }
  }

  lemma PromotePath(t: Tree, r: Tree, current: nat, promoted: Option<nat>, c: nat)
    requires Linked(r) && current in r && current != ROOT && c in r && c != ROOT && c in t && c != current
    requires r[ROOT].children.ids == [c]
    requires LinesKept(t, r) && PathKept(t, r, current, promoted)
    ensures PathKept(t, Promoted(r, c), current, Some(c))
  {
    var r' := Promoted(r, c);
    forall x | x in r' && x != ROOT ensures Above(t, c, x) {
      OnlyChildAbove(r, c, x);
    }
    forall a | a in t && a !in r' && Above(t, a, current) ensures Above(t, a, c) {
      if a != c {
        AboveTrans(t, a, promoted.value, c);
      }
    }
  }

  lemma PromoteOrder(t: Tree, r: Tree, current: nat, c: nat)
    requires Linked(r) && current in r && current != ROOT && c in r && c != ROOT && r[ROOT].children.ids == [c]
    requires LinesKept(t, r) && SiblingsKept(t, r) && OldestFirst(t, r, current)
    ensures SiblingsKept(t, Promoted(r, c)) && OldestFirst(t, Promoted(r, c), current)
  {
    var r' := Promoted(r, c);
    OnlyChildAbove(r, c, current);
    forall x, w | x in r' && w in r' && Siblings(t, x, w) ensures Siblings(r', x, w) {
      assert Siblings(r, x, w);
    }
  }

  lemma PromoteStep(t: Tree, texts: map<nat, string>, r: Tree, now: map<nat, string>, current: nat,
                    promoted: Option<nat>, c: nat)
    requires Sound(r, now, current) && Trimmed(t, texts, r, now, current, promoted)
    requires r[ROOT].children.ids == [c] && c != current
    ensures c in r && c != ROOT && Sound(Promoted(r, c), PromotedTexts(r, c, now), current)
    ensures Trimmed(t, texts, Promoted(r, c), PromotedTexts(r, c, now), current, Some(c))
  {
    PromoteSound(r, now, current, c);
    PromoteLines(t, r, c);
    PromotePath(t, r, current, promoted, c);
    PromoteOrder(t, r, current, c);
  }

  lemma NothingTrimmed(t: Tree, texts: map<nat, string>, current: nat)
    requires Sound(t, texts, current)
    ensures Trimmed(t, texts, t, texts, current, None)
  {
  }

  lemma {:induction false} SizeOfPart<T>(part: set<T>, whole: set<T>)
    requires part <= whole
    ensures |part| <= |whole|
  {
    if part != {} {
      var x :| x in part;
      SizeOfPart(part - {x}, whole - {x});
    }
  }

  lemma MoreThanTwo(r: Tree, a: nat, b: nat) returns (x: nat)
    requires |r| > 2
    ensures x in r && x != a && x != b
  {
    var others := r.Keys - {a, b};
    assert r.Keys == others + (r.Keys * {a, b}) && r.Keys * {a, b} <= {a, b};
    SizeOfPart(r.Keys * {a, b}, {a, b});
    assert others != {};
    x :| x in r && x != a && x != b;
  }

  /** Past a cap of one or more the root has a child, and a lone one is not the current leaf. */
  lemma RootHasChild(r: Tree, now: map<nat, string>, current: nat)
    requires Sound(r, now, current) && |r| > 2
    ensures r[ROOT].children.ids != []
    ensures |r[ROOT].children.ids| == 1 ==> r[ROOT].children.ids[0] != current
  {
    RootAbove(r, current);
    AboveThroughChild(r, ROOT, current);
    var x := MoreThanTwo(r, ROOT, current);
    if r[ROOT].children.ids == [current] {
      OnlyChildAbove(r, current, x);
      AboveThroughChild(r, current, x);
    }
    assert |r[ROOT].children.ids| == 1 ==> r[ROOT].children.ids == [r[ROOT].children.ids[0]];
  }

  // ---- How little is trimmed ----

  /** One step: the oldest branch off the current line goes, or the root's only child is promoted. */
  ghost predicate TrimStep(r: Tree, next: Tree, current: nat) {
    || (exists v, kept :: Victim(r, current, v, kept) && next == Pruned(r, v, ROOT))
    || (exists c :: ROOT in r && r[ROOT].children.ids == [c] && c in r && next == Promoted(r, c))
  }

  /** The last step led from `before`, itself a trimming of `t` still over the cap, to `r`. */
  ghost predicate LastTrim(t: Tree, texts: map<nat, string>, before: Tree, r: Tree, current: nat, cap: nat) {
    && |before| - 1 > cap && TrimStep(before, r, current)
    && exists now, promoted :: Sound(before, now, current) && Trimmed(t, texts, before, now, current, promoted)
  }

  lemma LastTrimmed(t: Tree, texts: map<nat, string>, before: Tree, now: map<nat, string>, promoted: Option<nat>,
                    r: Tree, current: nat, cap: nat)
    requires Sound(before, now, current) && Trimmed(t, texts, before, now, current, promoted)
    requires |before| - 1 > cap && TrimStep(before, r, current)
    ensures LastTrim(t, texts, before, r, current, cap)
  {
  }

  lemma OverBefore(full: Tree, r: Tree, cap: nat)
    requires r.Keys <= full.Keys && |r| - 1 > cap
    ensures |full| - 1 > cap
  {
    SizeOfPart(r.Keys, full.Keys);
    assert |r| == |r.Keys| && |full| == |full.Keys|;
  }

  /** Every revision is above or below every other. */
  ghost predicate InLine(t: Tree) {
    forall x, y :: x in t && y in t ==> Above(t, x, y) || Above(t, y, x)
  }

  /** A history without branches keeps exactly as many revisions as the cap allows. */
  lemma LineKeepsCap(t: Tree, texts: map<nat, string>, before: Tree, r: Tree, current: nat, cap: nat)
    requires InLine(t) && LastTrim(t, texts, before, r, current, cap) && |r| - 1 <= cap
    ensures |r| - 1 == cap
  {
    var now, promoted :| Sound(before, now, current) && Trimmed(t, texts, before, now, current, promoted);
    if v, kept :| Victim(before, current, v, kept) && r == Pruned(before, v, ROOT) {
      VictimForks(t, texts, before, now, current, promoted, v, kept);
    } else {
      var c :| before[ROOT].children.ids == [c] && c in before && r == Promoted(before, c);
      OneFewer(before, c);
    }
  }

  /** A branch to drop means two revisions neither of which is above the other. */
  lemma VictimForks(t: Tree, texts: map<nat, string>, r: Tree, now: map<nat, string>, current: nat,
                    promoted: Option<nat>, v: nat, kept: nat)
    requires Sound(r, now, current) && Trimmed(t, texts, r, now, current, promoted) && Victim(r, current, v, kept)
    ensures !InLine(t)
  {
    VictimIsOff(r, current, v, kept);
    KeptChild(r, current, v, kept);
    SiblingsApart(r, ROOT, v, kept, kept);
    SiblingsApart(r, ROOT, kept, v, v);
    assert !Above(t, v, kept) && !Above(t, kept, v);
  }

  lemma OneFewer(r: Tree, c: nat)
    requires Linked(r) && r[ROOT].children.ids == [c] && c in r
    ensures |Promoted(r, c)| == |r| - 1
  {
    assert OwnsChildren(r, ROOT) && c in r[ROOT].children.ids;
    assert Promoted(r, c).Keys == r.Keys - {c};
    assert |Promoted(r, c)| == |Promoted(r, c).Keys| && |r| == |r.Keys|;
  }

  lemma KeptChild(r: Tree, current: nat, v: nat, kept: nat)
    requires Linked(r) && Victim(r, current, v, kept)
    ensures kept in r && kept != ROOT
  {
    assert OwnsChildren(r, ROOT);
  }
}
