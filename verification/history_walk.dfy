/** Walking the undo tree to any revision through the lowest common one above both. */
module HistoryWalk {
  import opened Wrappers
  import opened ChangeSets
  import opened HistoryTree

  /** The two legs of a walk from `x` to `y` that meet at `m`: `up` climbs from `x`, `down` descends to `y`. */
  ghost predicate Legs(t: Tree, x: nat, y: nat, m: nat, up: seq<nat>, climbed: seq<nat>, down: seq<nat>) {
    && UpChain(t, x, up, m) && UpChain(t, y, climbed, m) && down == Reversed(climbed)
    && LowestCommon(t, m, x, y)
  }

  /** Both climbs so far, and that nothing above both starts has been passed. */
  ghost predicate Climbing(t: Tree, x: nat, y: nat, up: seq<nat>, from: nat, climbed: seq<nat>, to: nat) {
    && UpChain(t, x, up, from) && UpChain(t, y, climbed, to)
    && forall a :: Above(t, a, x) && Above(t, a, y) ==> Above(t, a, from) && Above(t, a, to)
  }

  lemma ClimbFrom(t: Tree, x: nat, y: nat, up: seq<nat>, from: nat, climbed: seq<nat>, to: nat)
    requires Linked(t) && Climbing(t, x, y, up, from, climbed, to) && from in t && to in t && from > to
    ensures t[from].link.Some? && t[from].link.value.parent in t && t[from].link.value.parent < from
    ensures Climbing(t, x, y, up + [from], t[from].link.value.parent, climbed, to)
  {
    assert HasParent(t, from);
    UpChainPush(t, x, up, from);
    forall a | Above(t, a, x) && Above(t, a, y) ensures Above(t, a, t[from].link.value.parent) {
      if a == from { AboveIsSmaller(t, a, to); }
    }
  }

  lemma ClimbTo(t: Tree, x: nat, y: nat, up: seq<nat>, from: nat, climbed: seq<nat>, to: nat)
    requires Linked(t) && Climbing(t, x, y, up, from, climbed, to) && from in t && to in t && to > from
    ensures t[to].link.Some? && t[to].link.value.parent in t && t[to].link.value.parent < to
    ensures Climbing(t, x, y, up, from, climbed + [to], t[to].link.value.parent)
  {
    assert HasParent(t, to);
    UpChainPush(t, y, climbed, to);
    forall a | Above(t, a, x) && Above(t, a, y) ensures Above(t, a, t[to].link.value.parent) {
      if a == to { AboveIsSmaller(t, a, from); }
    }
  }

  lemma ClimbMet(t: Tree, x: nat, y: nat, up: seq<nat>, m: nat, climbed: seq<nat>)
    requires Linked(t) && x in t && y in t && Climbing(t, x, y, up, m, climbed, m)
    ensures Legs(t, x, y, m, up, climbed, Reversed(climbed))
  {
    UpChainAbove(t, x, up, m);
    UpChainAbove(t, y, climbed, m);
  }

  /** The steps of a walk carry the text of its start to the text of its target. */
  lemma WalkRuns(t: Tree, texts: map<nat, string>, x: nat, y: nat, m: nat, up: seq<nat>, climbed: seq<nat>,
                 down: seq<nat>)
    requires Linked(t) && Worded(t, texts) && x in t && y in t && Legs(t, x, y, m, up, climbed, down)
    ensures Stepped(t, up) && Stepped(t, down)
    ensures Carries(Inverses(t, up) + Forwards(t, down), texts[x], texts[y])
  {
    UpRuns(t, texts, x, up, m);
    DownRuns(t, texts, y, climbed, m);
    CarriesOn(Inverses(t, up), Forwards(t, down), texts[x], texts[m], texts[y]);
  }

  /** A walk is empty just when it stays. */
  lemma EmptyWalk(t: Tree, x: nat, y: nat, m: nat, up: seq<nat>, climbed: seq<nat>, down: seq<nat>)
    requires Linked(t) && x in t && y in t && Legs(t, x, y, m, up, climbed, down)
    ensures up == [] && down == [] <==> x == y
  {
    if x == y {
      UpChainAbove(t, x, up, m);
      UpChainAbove(t, x, climbed, m);
      AboveIsSmaller(t, x, m);
      AboveIsSmaller(t, m, x);
    }
  }

  lemma {:induction false} LegsLengths(t: Tree, path: seq<nat>)
    requires Stepped(t, path)
    ensures |Inverses(t, path)| == |path| && |Forwards(t, path)| == |path|
    decreases |path|
  {
    if path != [] {
      LegsLengths(t, path[1..]);
      LegsLengths(t, path[..|path| - 1]);
    }
  }

  /** Setting redo along a way down makes each revision on it its parent's redo child and touches nothing
      above where the way starts. */
  lemma {:induction false} MarkedAlong(t: Tree, x: nat, climbed: seq<nat>, y: nat)
    requires Linked(t) && x in t && UpChain(t, x, climbed, y)
    ensures Linked(Marked(t, Reversed(climbed))) && SameButRedo(t, Marked(t, Reversed(climbed)))
    ensures forall z :: z in t && z < y ==> Marked(t, Reversed(climbed))[z] == t[z]
    ensures forall i :: 0 <= i < |climbed| ==> RedoIs(Marked(t, Reversed(climbed)), climbed[i])
    decreases |climbed|
  {
    if climbed != [] {
      assert HasParent(t, x);
      var p, rest, back := t[x].link.value.parent, climbed[1..], Reversed(climbed[1..]);
      MarkedAlong(t, p, rest, y);
      UpChainAbove(t, p, rest, y);
      AboveIsSmaller(t, y, p);
      assert Reversed(climbed) == back + [x];
      assert Reversed(climbed)[..|back|] == back;
      var m := Marked(t, back);
      MarkKeeps(m, x);
      forall i | 0 <= i < |climbed| ensures RedoIs(Mark(m, x), climbed[i]) {
        if i > 0 {
          assert climbed[i] == rest[i - 1] && RedoIs(m, rest[i - 1]);
          AboveIsSmaller(t, rest[i - 1], p);
          assert HasParent(m, rest[i - 1]);
        }
      }
    }
  }

  ghost predicate RedoIs(t: Tree, x: nat) {
    && x in t && t[x].link.Some? && t[x].link.value.parent in t
    && t[t[x].link.value.parent].children.redo == Some(x)
  }

  /** After a walk, redo leads to its target from every revision above it. */
  lemma MarkedRedo(t: Tree, x: nat, y: nat, m: nat, up: seq<nat>, climbed: seq<nat>, down: seq<nat>)
    requires Linked(t) && x in t && y in t && RedoLeadsTo(t, x) && Legs(t, x, y, m, up, climbed, down)
    ensures Linked(Marked(t, down)) && SameButRedo(t, Marked(t, down)) && RedoLeadsTo(Marked(t, down), y)
  {
    MarkedAlong(t, y, climbed, m);
    UpChainAbove(t, y, climbed, m);
    var t' := Marked(t, down);
    forall a | a in t' && t'[a].link.Some? && Above(t', a, y)
      ensures t'[a].link.value.parent in t' && t'[t'[a].link.value.parent].children.redo == Some(a)
    {
      SameAbove(t, t', a, y);
      assert a != ROOT && HasParent(t, a);
      if a in climbed {
        var i :| 0 <= i < |climbed| && climbed[i] == a;
        assert RedoIs(t', climbed[i]);
      } else {
        AboveIsSmaller(t, a, m);
        AboveTrans(t, a, m, x);
      }
    }
  }

  lemma SameWorded(t: Tree, t': Tree, texts: map<nat, string>)
    requires Worded(t, texts) && SameButRedo(t, t')
    ensures Worded(t', texts)
  {
    forall x | x in t' && t'[x].link.Some?
      ensures t'[x].link.value.parent in texts && LinkRuns(t'[x].link.value, texts[t'[x].link.value.parent], texts[x])
    {
      assert t'[x].link == t[x].link;
    }
  }

  lemma RedoLeadsUp(t: Tree, x: nat, y: nat)
    requires RedoLeadsTo(t, y) && Above(t, x, y)
    ensures RedoLeadsTo(t, x)
  {
    forall a | a in t && t[a].link.Some? && Above(t, a, x)
      ensures t[a].link.value.parent in t && t[t[a].link.value.parent].children.redo == Some(a)
    {
      AboveTrans(t, a, x, y);
    }
  }

  lemma RedoLeadsDown(t: Tree, x: nat)
    requires Linked(t) && x in t && RedoLeadsTo(t, x) && t[x].children.redo.Some?
    ensures t[x].children.redo.value in t && RedoLeadsTo(t, t[x].children.redo.value)
    ensures t[t[x].children.redo.value].link.Some? && t[t[x].children.redo.value].link.value.parent == x
  {
    var c := t[x].children.redo.value;
    assert OwnsChildren(t, x) && c in t[x].children.ids;
    assert HasParent(t, c);
  }

  lemma {:induction false} MarkedSame(t: Tree, path: seq<nat>)
    requires Linked(t) && Stepped(t, path)
    ensures SameButRedo(t, Marked(t, path))
    decreases |path|
  {
    if path != [] {
      var init := path[..|path| - 1];
      MarkedSame(t, init);
    }
  }

  // ---- The changesets of a walk ----

  /** `css` are the inverses of the revisions from `x` up to `y`, in order. */
  ghost predicate Undone(t: Tree, x: nat, css: seq<ChangeSet>, y: nat) {
    exists path :: UpChain(t, x, path, y) && Stepped(t, path) && css == Inverses(t, path)
  }

  lemma NoneUndone(t: Tree, x: nat)
    ensures Undone(t, x, [], x)
  {
    assert UpChain(t, x, [], x) && Stepped(t, []) && Inverses(t, []) == [];
  }

  lemma UndoneMore(t: Tree, x: nat, css: seq<ChangeSet>, y: nat)
    requires Undone(t, x, css, y) && y in t && t[y].link.Some?
    ensures Undone(t, x, css + [t[y].link.value.inverse], t[y].link.value.parent)
  {
    var path :| UpChain(t, x, path, y) && Stepped(t, path) && css == Inverses(t, path);
    UpChainPush(t, x, path, y);
    InversesPush(t, path, y);
  }

  lemma {:induction false} InversesPush(t: Tree, path: seq<nat>, y: nat)
    requires Stepped(t, path) && y in t && t[y].link.Some?
    ensures Stepped(t, path + [y]) && Inverses(t, path + [y]) == Inverses(t, path) + [t[y].link.value.inverse]
    decreases |path|
  {
    if path == [] {
      assert path + [y] == [y] && [y][1..] == [];
    } else {
      assert (path + [y])[1..] == path[1..] + [y];
      InversesPush(t, path[1..], y);
    }
  }

  /** `css` are the forward changes of the revisions from below `x` down to `y`, in order. */
  ghost predicate Redone(t: Tree, x: nat, css: seq<ChangeSet>, y: nat) {
    exists path :: UpChain(t, y, path, x) && Stepped(t, Reversed(path)) && css == Forwards(t, Reversed(path))
  }

  /** The inverses from `x` up to `y` carry its text up, one a step. */
  lemma UndoneMeans(t: Tree, texts: map<nat, string>, x: nat, css: seq<ChangeSet>, y: nat)
    requires Linked(t) && Worded(t, texts) && x in t && Undone(t, x, css, y)
    ensures y in t && y == UpBy(t, x, |css|) && |css| <= Depth(t, x) && Carries(css, texts[x], texts[y])
  {
    var path :| UpChain(t, x, path, y) && Stepped(t, path) && css == Inverses(t, path);
    UpRuns(t, texts, x, path, y);
    UpChainLength(t, x, path, y);
  }

  lemma {:induction false} UpChainLength(t: Tree, x: nat, path: seq<nat>, y: nat)
    requires Linked(t) && x in t && UpChain(t, x, path, y) && Stepped(t, path)
    ensures |Inverses(t, path)| == |path| <= Depth(t, x) && y == UpBy(t, x, |path|)
    decreases |path|
  {
    if path != [] {
      assert HasParent(t, x);
      UpChainLength(t, t[x].link.value.parent, path[1..], y);
    }
  }

  /** The changes from below `x` down to `y` carry its text down. */
  lemma RedoneMeans(t: Tree, texts: map<nat, string>, x: nat, css: seq<ChangeSet>, y: nat)
    requires Linked(t) && Worded(t, texts) && y in t && Redone(t, x, css, y)
    ensures x in t && Carries(css, texts[x], texts[y])
  {
    var path :| UpChain(t, y, path, x) && Stepped(t, Reversed(path)) && css == Forwards(t, Reversed(path));
    DownRuns(t, texts, y, path, x);
  }

  lemma NoneRedone(t: Tree, x: nat)
    ensures Redone(t, x, [], x)
  {
    assert UpChain(t, x, [], x) && Reversed([]) == [] && Stepped(t, []) && Forwards(t, []) == [];
  }

  lemma RedoneMore(t: Tree, x: nat, css: seq<ChangeSet>, y: nat, z: nat)
    requires Redone(t, x, css, y) && z in t && t[z].link.Some? && t[z].link.value.parent == y
    ensures Redone(t, x, css + [t[z].link.value.forward], z)
  {
    var path :| UpChain(t, y, path, x) && Stepped(t, Reversed(path)) && css == Forwards(t, Reversed(path));
    var longer, down := [z] + path, Reversed(path) + [z];
    assert longer[1..] == path && longer[0] == z;
    assert Reversed(longer) == down && down[..|down| - 1] == Reversed(path);
    assert UpChain(t, z, longer, x);
  }

  /** `css` lead from `x` to `y` over where their lines meet: inverses up, then forward changes down. */
  ghost predicate Walked(t: Tree, x: nat, y: nat, css: seq<ChangeSet>) {
    exists m, up, climbed :: WalkedBy(t, x, y, m, up, climbed, css)
  }

  ghost predicate WalkedBy(t: Tree, x: nat, y: nat, m: nat, up: seq<nat>, climbed: seq<nat>, css: seq<ChangeSet>) {
    && Legs(t, x, y, m, up, climbed, Reversed(climbed)) && Stepped(t, up) && Stepped(t, Reversed(climbed))
    && css == Inverses(t, up) + Forwards(t, Reversed(climbed))
  }

  ghost predicate ParentOnWay(t: Tree, way: seq<nat>, z: nat) {
    exists i :: 0 <= i < |way| && way[i] in t && t[way[i]].link.Some? && t[way[i]].link.value.parent == z
  }

  /** Redo goes along the way and is as it was everywhere else: at the target too, and off the way. */
  ghost predicate RedoOnWay(t: Tree, next: Tree, way: seq<nat>) {
    && next.Keys == t.Keys
    && (forall z :: z in t && !ParentOnWay(t, way, z) ==> next[z] == t[z])
    && (forall i :: 0 <= i < |way| ==> RedoIs(next, way[i]))
  }

  lemma {:induction false} MarkedElsewhere(t: Tree, path: seq<nat>, z: nat)
    requires Linked(t) && Stepped(t, path) && z in t && !ParentOnWay(t, path, z)
    ensures z in Marked(t, path) && Marked(t, path)[z] == t[z]
    decreases |path|
  {
    if path != [] {
      var init, last := path[..|path| - 1], path[|path| - 1];
      assert path[|path| - 1] == last && t[last].link.value.parent != z;
      forall i | 0 <= i < |init| ensures t[init[i]].link.value.parent != z { assert init[i] == path[i]; }
      MarkedElsewhere(t, init, z);
      MarkedSame(t, init);
    }
  }

  lemma {:induction false} ReversedMembers(path: seq<nat>)
    ensures |Reversed(path)| == |path| && forall x :: x in Reversed(path) <==> x in path
    decreases |path|
  {
    if path != [] {
      ReversedMembers(path[1..]);
      assert path == [path[0]] + path[1..];
    }
  }

  lemma MarkedOnWay(t: Tree, y: nat, climbed: seq<nat>, m: nat)
    requires Linked(t) && y in t && UpChain(t, y, climbed, m)
    ensures RedoOnWay(t, Marked(t, Reversed(climbed)), climbed)
  {
    var down := Reversed(climbed);
    MarkedAlong(t, y, climbed, m);
    UpChainStepped(t, y, climbed, m);
    ReversedMembers(climbed);
    forall i | 0 <= i < |down| ensures down[i] in t && t[down[i]].link.Some? { assert down[i] in climbed; }
    forall z | z in t && !ParentOnWay(t, climbed, z) ensures Marked(t, down)[z] == t[z] {
      OffBothWays(t, climbed, down, z);
      MarkedElsewhere(t, down, z);
    }
  }

  /** What going from `x` to `y` makes of the tree: only redo children change, along the way down from where the two
      lines meet. */
  ghost predicate Went(t: Tree, x: nat, y: nat, m: nat, climbed: seq<nat>, next: Tree) {
    && UpChain(t, y, climbed, m) && LowestCommon(t, m, x, y)
    && SameButRedo(t, next) && RedoOnWay(t, next, climbed)
  }

  lemma WentAlong(t: Tree, x: nat, y: nat, m: nat, up: seq<nat>, climbed: seq<nat>, down: seq<nat>)
    requires Linked(t) && x in t && y in t && Legs(t, x, y, m, up, climbed, down)
    ensures Went(t, x, y, m, climbed, Marked(t, down)) && (x == y ==> Marked(t, down) == t)
  {
    MarkedOnWay(t, y, climbed, m);
    MarkedAlong(t, y, climbed, m);
    EmptyWalk(t, x, y, m, up, climbed, down);
  }

  lemma OffBothWays(t: Tree, climbed: seq<nat>, down: seq<nat>, z: nat)
    requires (forall x :: x in down <==> x in climbed) && !ParentOnWay(t, climbed, z)
    ensures !ParentOnWay(t, down, z)
  {
    forall i | 0 <= i < |down| && down[i] in t && t[down[i]].link.Some? ensures t[down[i]].link.value.parent != z {
      assert down[i] in climbed;
    }
  }
}
