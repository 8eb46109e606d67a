/** The undo tree as a value: revisions linked both ways, the text of each, and what recording, trimming and
    walking keep of it. */
module HistoryTree {
  import opened Wrappers
  import opened ChangeSets

  const ROOT: nat := 0

  // ---- Children ----

  /** Child revisions in creation order, and the one redo goes on along. */
  datatype Children = Children(ids: seq<nat>, redo: Option<nat>) {
    ghost predicate Valid() {
      && Ascending(ids)
      && (redo.None? <==> ids == []) && (redo.Some? ==> redo.value in ids)
    }

    function Push(id: nat): Children {
      Children(ids + [id], Some(id))
    }

    /** The newest remaining child takes over a removed redo child. */
    function Remove(id: nat): Children {
      var rest := Without(ids, id);
      Children(rest, if redo != Some(id) then redo else if rest == [] then None else Some(rest[|rest| - 1]))
    }

    function SetRedo(child: nat): Children
      requires child in ids
    {
      this.(redo := Some(child))
    }
  }

  ghost predicate Ascending(ids: seq<nat>) {
    forall i, j :: 0 <= i < j < |ids| ==> ids[i] < ids[j]
  }

  lemma AscendCons(x: nat, rest: seq<nat>)
    requires Ascending(rest) && forall y :: y in rest ==> x < y
    ensures Ascending([x] + rest)
  {
    var all := [x] + rest;
    forall i, j | 0 <= i < j < |all| ensures all[i] < all[j] {
      assert all[j] in rest;
    }
  }

  lemma AscendHead(ids: seq<nat>)
    requires Ascending(ids) && ids != []
    ensures Ascending(ids[1..]) && forall y :: y in ids[1..] ==> ids[0] < y
  {
  }

  function Without(ids: seq<nat>, id: nat): seq<nat> {
    if ids == [] then [] else (if ids[0] == id then [] else [ids[0]]) + Without(ids[1..], id)
  }

  lemma {:induction false} WithoutMembers(ids: seq<nat>, id: nat)
    ensures forall c :: c in Without(ids, id) <==> c in ids && c != id
  {
    if ids != [] {
      WithoutMembers(ids[1..], id);
      assert ids == [ids[0]] + ids[1..];
    }
  }

  lemma {:induction false} WithoutAscends(ids: seq<nat>, id: nat)
    requires Ascending(ids)
    ensures Ascending(Without(ids, id))
  {
    if ids != [] {
      AscendHead(ids);
      WithoutAscends(ids[1..], id);
      WithoutMembers(ids[1..], id);
      var rest := Without(ids[1..], id);
      AscendCons(ids[0], rest);
      assert [] + rest == rest;
    }
  }

  lemma PushValid(c: Children, id: nat)
    requires c.Valid() && forall x :: x in c.ids ==> x < id
    ensures c.Push(id).Valid()
    ensures forall x :: x in c.Push(id).ids <==> x in c.ids || x == id
  {
    var ids := c.ids + [id];
    assert ids[|c.ids|] == id;
    forall i, j | 0 <= i < j < |ids| ensures ids[i] < ids[j] {
      assert ids[i] in c.ids;
    }
  }

  lemma RemoveValid(c: Children, id: nat)
    requires c.Valid()
    ensures c.Remove(id).Valid()
    ensures forall x :: x in c.Remove(id).ids <==> x in c.ids && x != id
    ensures c.redo != Some(id) ==> c.Remove(id).redo == c.redo
  {
    WithoutMembers(c.ids, id);
    WithoutAscends(c.ids, id);
    var rest := Without(c.ids, id);
    if c.redo.Some? && c.redo != Some(id) { assert c.redo.value in rest; }
  }

  /** Redo goes on to a new child, and from a removed one to the newest child left. */
  lemma RedoFollows(c: Children, id: nat)
    requires c.Valid()
    ensures (forall x :: x in c.ids ==> x < id) ==> c.Push(id).redo == Some(id) && c.Push(id).ids == c.ids + [id]
    ensures var r := c.Remove(id);
            && (c.redo != Some(id) ==> r.redo == c.redo)
            && (c.redo == Some(id) ==>
                  (r.redo.None? <==> forall x :: x in c.ids ==> x == id)
                  && (r.redo.Some? ==> r.redo.value in r.ids && forall x :: x in c.ids && x != id ==>
                      x <= r.redo.value))
  {
    RemoveValid(c, id);
    WithoutMembers(c.ids, id);
    WithoutAscends(c.ids, id);
    var rest := Without(c.ids, id);
    if rest != [] {
      assert rest[|rest| - 1] in rest;
      forall x | x in rest ensures x <= rest[|rest| - 1] {
        var i :| 0 <= i < |rest| && rest[i] == x;
      }
    }
  }

  // ---- Revisions ----

  /** An edge to the parent: `forward` makes the revision's text of the parent's, `inverse` undoes it. */
  datatype Link = Link(parent: nat, inverse: ChangeSet, forward: ChangeSet)

  datatype Revision = Revision(link: Option<Link>, children: Children)

  type Tree = map<nat, Revision>

  ghost predicate HasParent(t: Tree, x: nat)
    requires x in t
  {
    && t[x].link.Some?
    && var p := t[x].link.value.parent; p in t && p < x && x in t[p].children.ids
  }

  ghost predicate OwnsChildren(t: Tree, x: nat)
    requires x in t
  {
    && t[x].children.Valid()
    && forall c :: c in t[x].children.ids ==> c in t && c != ROOT && t[c].link.Some? && t[c].link.value.parent == x
  }

  /** Parents and children agree, only the root has no parent, and a parent's id is the smaller. */
  ghost predicate Linked(t: Tree) {
    && ROOT in t && t[ROOT].link.None?
    && (forall x {:trigger HasParent(t, x)} :: x in t && x != ROOT ==> HasParent(t, x))
    && (forall x {:trigger OwnsChildren(t, x)} :: x in t ==> OwnsChildren(t, x))
  }

  ghost predicate LinkRuns(l: Link, above: string, below: string) {
    && l.forward.Valid() && l.forward.lenBefore == |above| && l.forward.lenAfter == |below|
        && Run(l.forward.ops, above) == below
    && l.inverse.Valid() && l.inverse.lenBefore == |below| && l.inverse.lenAfter == |above|
        && Run(l.inverse.ops, below) == above
  }

  /** Each link maps its parent's text to its revision's, and back. */
  ghost predicate Worded(t: Tree, texts: map<nat, string>) {
    && texts.Keys == t.Keys
    && forall x :: x in t && t[x].link.Some? ==>
         t[x].link.value.parent in texts && LinkRuns(t[x].link.value, texts[t[x].link.value.parent], texts[x])
  }

  /** `a` is `x` or above it. */
  ghost predicate Above(t: Tree, a: nat, x: nat)
    decreases x
  {
    a == x || (x in t && t[x].link.Some? && t[x].link.value.parent < x && Above(t, a, t[x].link.value.parent))
  }

  lemma {:induction false} AboveIsSmaller(t: Tree, a: nat, x: nat)
    requires Above(t, a, x)
    ensures a <= x && (Linked(t) && x in t ==> a in t)
    decreases x
  {
    if a != x {
      assert Linked(t) ==> HasParent(t, x);
      AboveIsSmaller(t, a, t[x].link.value.parent);
    }
  }

  lemma {:induction false} AboveTrans(t: Tree, a: nat, b: nat, c: nat)
    requires Above(t, a, b) && Above(t, b, c)
    ensures Above(t, a, c)
    decreases c
  {
    if b != c { AboveTrans(t, a, b, t[c].link.value.parent); }
  }

  lemma {:induction false} RootAbove(t: Tree, x: nat)
    requires Linked(t) && x in t
    ensures Above(t, ROOT, x)
    decreases x
  {
    if x != ROOT {
      assert HasParent(t, x);
      RootAbove(t, t[x].link.value.parent);
    }
  }

  /** Two revisions above one are in line. */
  lemma {:induction false} AboveInLine(t: Tree, a: nat, b: nat, x: nat)
    requires Above(t, a, x) && Above(t, b, x)
    ensures Above(t, a, b) || Above(t, b, a)
    decreases x
  {
    if a != x && b != x { AboveInLine(t, a, b, t[x].link.value.parent); }
  }

  /** The line from a revision above `x` starts with one of its children. */
  lemma {:induction false} AboveThroughChild(t: Tree, a: nat, x: nat)
    requires Linked(t) && x in t && Above(t, a, x) && a != x
    ensures a in t && exists c :: c in t[a].children.ids && Above(t, c, x)
    decreases x
  {
    AboveIsSmaller(t, a, x);
    assert HasParent(t, x);
    var p := t[x].link.value.parent;
    if p == a {
      assert x in t[a].children.ids && Above(t, x, x);
    } else {
      AboveThroughChild(t, a, p);
      var c :| c in t[a].children.ids && Above(t, c, p);
      assert Above(t, c, x);
    }
  }

  /** Each revision above `current` is its parent's redo child. */
  ghost predicate RedoLeadsTo(t: Tree, current: nat) {
    forall x :: x in t && t[x].link.Some? && Above(t, x, current) ==>
      t[x].link.value.parent in t && t[t[x].link.value.parent].children.redo == Some(x)
  }

  // ---- Recording ----

  function Inserted(t: Tree, current: nat, id: nat, link: Link): Tree
    requires current in t
  {
    var grown := t[id := Revision(Some(link), Children([], None))];
    grown[current := grown[current].(children := grown[current].children.Push(id))]
  }

  lemma InsertedLinks(t: Tree, current: nat, id: nat, link: Link)
    requires Linked(t) && current in t && id !in t && (forall x :: x in t ==> x < id) && link.parent == current
    ensures Linked(Inserted(t, current, id, link))
  {
    var t' := Inserted(t, current, id, link);
    assert OwnsChildren(t, current);
    PushValid(t[current].children, id);
    forall x | x in t' && x != ROOT ensures HasParent(t', x) {
      if x != id { assert HasParent(t, x); }
    }
    forall x | x in t' ensures OwnsChildren(t', x) {
      if x != id { assert OwnsChildren(t, x); }
    }
  }

  lemma {:induction false} InsertedAbove(t: Tree, current: nat, id: nat, link: Link, a: nat, x: nat)
    requires Linked(t) && current in t && id !in t && link.parent == current && x in t
    ensures Above(Inserted(t, current, id, link), a, x) <==> Above(t, a, x)
    decreases x
  {
    if x != ROOT { assert HasParent(t, x); InsertedAbove(t, current, id, link, a, t[x].link.value.parent); }
  }

  lemma InsertedRedo(t: Tree, current: nat, id: nat, link: Link)
    requires Linked(t) && current in t && id !in t && (forall x :: x in t ==> x < id) && link.parent == current
    requires RedoLeadsTo(t, current)
    ensures RedoLeadsTo(Inserted(t, current, id, link), id)
  {
    var t' := Inserted(t, current, id, link);
    forall x | x in t' && t'[x].link.Some? && Above(t', x, id)
      ensures t'[x].link.value.parent in t' && t'[t'[x].link.value.parent].children.redo == Some(x)
    {
      if x != id {
        InsertedAbove(t, current, id, link, x, current);
        AboveIsSmaller(t, x, current);
        assert HasParent(t, x);
      }
    }
  }

  // ---- Dropping a branch ----

  ghost function Subtree(t: Tree, v: nat): set<nat> {
    set x | x in t && Above(t, v, x)
  }

  /** The tree without the revisions `gone`, and `v` out of the children of `p`. */
  ghost function Stripped(t: Tree, v: nat, p: nat, gone: set<nat>): Tree {
    map x | x in t && x !in gone :: if x == p then t[x].(children := t[x].children.Remove(v)) else t[x]
  }

  /** The tree without the branch `v`, a child of `p`. */
  ghost function Pruned(t: Tree, v: nat, p: nat): Tree {
    Stripped(t, v, p, Subtree(t, v))
  }

  /** The removal loop: the branch itself and the children of what is gone are gone or still stacked. */
  ghost predicate Clearing(t: Tree, v: nat, stack: seq<nat>, gone: set<nat>) {
    && gone <= Subtree(t, v) && (forall s :: s in stack ==> s in Subtree(t, v))
    && (v in gone || v in stack)
    && (forall s, c :: s in gone && s in t && c in t[s].children.ids ==> c in gone || c in stack)
  }

  lemma ClearingSkip(t: Tree, v: nat, rest: seq<nat>, next: nat, gone: set<nat>)
    requires Clearing(t, v, rest + [next], gone) && next in gone
    ensures Clearing(t, v, rest, gone)
  {
    forall s | s in rest ensures s in rest + [next] {}
  }

  lemma ClearingStep(t: Tree, v: nat, rest: seq<nat>, next: nat, gone: set<nat>)
    requires Linked(t) && v in t && Clearing(t, v, rest + [next], gone)
    ensures next in t && Clearing(t, v, rest + t[next].children.ids, gone + {next})
  {
    assert next in rest + [next] && OwnsChildren(t, next);
    var kids := t[next].children.ids;
    forall s | s in rest + kids ensures s in Subtree(t, v) {
      if s in rest { assert s in rest + [next]; } else { ChildAbove(t, v, next, s); }
    }
    forall s, c | s in gone + {next} && s in t && c in t[s].children.ids
        ensures c in gone + {next} || c in rest + kids {
      if s in gone { assert c in gone || c in rest + [next]; }
    }
  }

  lemma ChildAbove(t: Tree, v: nat, p: nat, c: nat)
    requires Linked(t) && p in t && c in t[p].children.ids && Above(t, v, p)
    ensures c in t && Above(t, v, c)
  {
    assert OwnsChildren(t, p) && HasParent(t, c);
  }

  lemma ClearingDone(t: Tree, v: nat, gone: set<nat>)
    requires Linked(t) && v in t && Clearing(t, v, [], gone)
    ensures gone == Subtree(t, v)
  {
    forall x | x in Subtree(t, v) ensures x in gone {
      ClearedBelow(t, v, gone, x);
    }
  }

  lemma {:induction false} ClearedBelow(t: Tree, v: nat, gone: set<nat>, x: nat)
    requires Linked(t) && x in t && Above(t, v, x) && v in gone
    requires forall s, c :: s in gone && s in t && c in t[s].children.ids ==> c in gone
    ensures x in gone
    decreases x
  {
    if x != v {
      var p := ParentOf(t, x);
      ClearedBelow(t, v, gone, p);
    }
  }

  lemma ParentOf(t: Tree, x: nat) returns (p: nat)
    requires Linked(t) && x in t && t[x].link.Some?
    ensures p == t[x].link.value.parent && p in t && p < x && x in t[p].children.ids
  {
    assert HasParent(t, x);
    p := t[x].link.value.parent;
  }

  lemma PrunedLinks(t: Tree, v: nat, p: nat)
    requires Linked(t) && v in t && v != ROOT && t[v].link.Some? && t[v].link.value.parent == p
    ensures Linked(Pruned(t, v, p))
  {
    var t' := Pruned(t, v, p);
    assert HasParent(t, v) && Above(t, v, v) && OwnsChildren(t, p);
    RemoveValid(t[p].children, v);
    assert ROOT !in Subtree(t, v) by { if Above(t, v, ROOT) { AboveIsSmaller(t, v, ROOT); } }
    forall x | x in t' && x != ROOT ensures HasParent(t', x) {
      assert HasParent(t, x);
    }
    forall x | x in t' ensures OwnsChildren(t', x) {
      assert OwnsChildren(t, x);
      forall c | c in t'[x].children.ids ensures c in t' && c != ROOT && t'[c].link.Some?
          && t'[c].link.value.parent == x {
        assert c in t[x].children.ids;
      }
    }
  }

  lemma {:induction false} PrunedAbove(t: Tree, v: nat, p: nat, a: nat, x: nat)
    requires Linked(t) && x in t && x !in Subtree(t, v)
    ensures Above(Pruned(t, v, p), a, x) <==> Above(t, a, x)
    decreases x
  {
    if x != ROOT {
      assert HasParent(t, x);
      PrunedAbove(t, v, p, a, t[x].link.value.parent);
    }
  }

  lemma PrunedRedo(t: Tree, v: nat, p: nat, current: nat)
    requires Linked(t) && v in t && v != ROOT && t[v].link.Some? && t[v].link.value.parent == p
             && RedoLeadsTo(t, current)
    requires current in t && !Above(t, v, current)
    ensures RedoLeadsTo(Pruned(t, v, p), current)
  {
    var t' := Pruned(t, v, p);
    forall x | x in t' && t'[x].link.Some? && Above(t', x, current)
      ensures t'[x].link.value.parent in t' && t'[t'[x].link.value.parent].children.redo == Some(x)
    {
      PrunedAbove(t, v, p, x, current);
      assert HasParent(t, x);
    }
  }

  lemma PrunedWorded(t: Tree, v: nat, p: nat, texts: map<nat, string>)
    requires Linked(t) && Worded(t, texts)
    ensures Worded(Pruned(t, v, p), map x | x in Pruned(t, v, p) :: texts[x])
  {
    var t' := Pruned(t, v, p);
    forall x | x in t' && t'[x].link.Some? ensures t'[x].link.value.parent in t' {
      assert HasParent(t, x);
    }
  }

  // ---- Promoting a child into the root ----

  /** The root's only child `c` gone: its children hang off the root, and the root takes its text over. */
  ghost function Promoted(t: Tree, c: nat): Tree
    requires c in t
  {
    map x | x in t && x != c ::
      if x == ROOT then t[ROOT].(children := t[c].children)
      else if t[x].link.Some? && t[x].link.value.parent == c then t[x].(link := Some(t[x].link.value.(parent := ROOT)))
      else t[x]
  }

  lemma PromotedLinks(t: Tree, c: nat)
    requires Linked(t) && t[ROOT].children.ids == [c]
    ensures c in t && c != ROOT && Linked(Promoted(t, c))
  {
    assert c in t[ROOT].children.ids && OwnsChildren(t, ROOT) && OwnsChildren(t, c);
    var t' := Promoted(t, c);
    forall x | x in t' && x != ROOT ensures HasParent(t', x) {
      assert HasParent(t, x);
    }
    forall x | x in t' ensures OwnsChildren(t', x) {
      assert OwnsChildren(t, x);
      if x != ROOT {
        forall d | d in t'[x].children.ids ensures d in t' && d != ROOT && t'[d].link.Some?
            && t'[d].link.value.parent == x {
          assert d in t[x].children.ids;
        }
      }
    }
  }

  lemma {:induction false} PromotedAbove(t: Tree, c: nat, a: nat, x: nat)
    requires Linked(t) && t[ROOT].children.ids == [c] && c in t && x in t && x != c && a != c && a != ROOT
    ensures Above(Promoted(t, c), a, x) <==> Above(t, a, x)
    decreases x
  {
    if x != ROOT {
      assert HasParent(t, x);
      var p := t[x].link.value.parent;
      if p != c {
        PromotedAbove(t, c, a, p);
      } else {
        assert c in t[ROOT].children.ids && OwnsChildren(t, ROOT);
        if Above(t, a, c) { AboveIsSmaller(t, a, ROOT); }
      }
    }
  }

  lemma PromotedRedo(t: Tree, c: nat, current: nat)
    requires Linked(t) && t[ROOT].children.ids == [c] && c in t && current in t && current != c
             && RedoLeadsTo(t, current)
    ensures RedoLeadsTo(Promoted(t, c), current)
  {
    var t' := Promoted(t, c);
    forall x | x in t' && t'[x].link.Some? && Above(t', x, current)
      ensures t'[x].link.value.parent in t' && t'[t'[x].link.value.parent].children.redo == Some(x)
    {
      assert x != ROOT && x != c;
      PromotedAbove(t, c, x, current);
      assert HasParent(t, x);
    }
  }

  ghost function PromotedTexts(t: Tree, c: nat, texts: map<nat, string>): map<nat, string>
    requires c in t && texts.Keys == t.Keys
  {
    map x | x in t && x != c :: if x == ROOT then texts[c] else texts[x]
  }

  lemma PromotedLinkRuns(t: Tree, c: nat, texts: map<nat, string>, x: nat)
    requires Linked(t) && t[ROOT].children.ids == [c] && c in t && Worded(t, texts) && x in t && x != c && x != ROOT
    ensures x in Promoted(t, c) && Promoted(t, c)[x].link.Some?
    ensures var l, after := Promoted(t, c)[x].link.value, PromotedTexts(t, c, texts);
            l.parent in after && x in after && LinkRuns(l, after[l.parent], after[x])
  {
    assert HasParent(t, x) && LinkRuns(t[x].link.value, texts[t[x].link.value.parent], texts[x]);
  }

  lemma PromotedWorded(t: Tree, c: nat, texts: map<nat, string>)
    requires Linked(t) && t[ROOT].children.ids == [c] && c in t && Worded(t, texts)
    ensures Worded(Promoted(t, c), PromotedTexts(t, c, texts))
  {
    var t', after := Promoted(t, c), PromotedTexts(t, c, texts);
    forall x | x in t' && t'[x].link.Some?
      ensures t'[x].link.value.parent in after && LinkRuns(t'[x].link.value, after[t'[x].link.value.parent], after[x])
    {
      PromotedLinkRuns(t, c, texts, x);
    }
  }

  /** Two children of one revision are not in line. */
  lemma SiblingsApart(t: Tree, p: nat, v: nat, w: nat, x: nat)
    requires Linked(t) && p in t && v in t[p].children.ids && w in t[p].children.ids && v != w && Above(t, w, x)
    ensures !Above(t, v, x)
  {
    assert OwnsChildren(t, p) && HasParent(t, v) && HasParent(t, w);
    if Above(t, v, x) {
      AboveInLine(t, v, w, x);
      if Above(t, v, w) { AboveIsSmaller(t, v, p); } else { AboveIsSmaller(t, w, p); }
    }
  }

  /** With one child of the root left, everything else is under it. */
  lemma OnlyChildAbove(t: Tree, c: nat, x: nat)
    requires Linked(t) && t[ROOT].children.ids == [c] && x in t && x != ROOT
    ensures Above(t, c, x)
  {
    RootAbove(t, x);
    AboveThroughChild(t, ROOT, x);
  }

  // ---- Walking ----

  /** `css` apply one after another, from the text `from` to the text `to`. */
  ghost predicate Carries(css: seq<ChangeSet>, from: string, to: string) {
    && Chained(css) && (css == [] ==> from == to)
    && (css != [] ==> css[0].lenBefore == |from| && css[|css| - 1].lenAfter == |to| && RunAll(css, from) == to)
  }

  lemma CarriesOne(cs: ChangeSet, from: string, to: string)
    requires cs.Valid() && cs.lenBefore == |from| && cs.lenAfter == |to| && Run(cs.ops, from) == to
    ensures Carries([cs], from, to)
  {
    assert [cs][1..] == [];
    assert RunAll([cs][1..], to) == to;
  }

  lemma CarriesOn(a: seq<ChangeSet>, b: seq<ChangeSet>, from: string, mid: string, to: string)
    requires Carries(a, from, mid) && Carries(b, mid, to)
    ensures Carries(a + b, from, to)
  {
    if a == [] {
      assert a + b == b;
    } else if b == [] {
      assert a + b == a;
    } else {
      RunAllSplit(a, b, from, a + b);
    }
  }

  /** The net of a run carries its whole way. */
  lemma CarriesNet(css: seq<ChangeSet>, from: string, to: string)
    requires Carries(css, from, to) && css != []
    ensures Net(css).lenBefore == |from| && Run(Net(css).ops, from) == to
  {
    NetRun(css, from);
  }

  /** `path` steps from `x` up to just under `y`. */
  ghost predicate UpChain(t: Tree, x: nat, path: seq<nat>, y: nat)
    decreases |path|
  {
    if path == [] then x == y
    else path[0] == x && x in t && t[x].link.Some? && UpChain(t, t[x].link.value.parent, path[1..], y)
  }

  lemma {:induction false} UpChainPush(t: Tree, x: nat, path: seq<nat>, y: nat)
    requires UpChain(t, x, path, y) && y in t && t[y].link.Some?
    ensures UpChain(t, x, path + [y], t[y].link.value.parent)
    decreases |path|
  {
    if path == [] {
      assert path + [y] == [y] && [y][1..] == [];
    } else {
      assert (path + [y])[1..] == path[1..] + [y];
      UpChainPush(t, t[x].link.value.parent, path[1..], y);
    }
  }

  ghost predicate Stepped(t: Tree, path: seq<nat>) {
    forall i :: 0 <= i < |path| ==> path[i] in t && t[path[i]].link.Some?
  }

  lemma {:induction false} UpChainStepped(t: Tree, x: nat, path: seq<nat>, y: nat)
    requires UpChain(t, x, path, y)
    ensures Stepped(t, path)
    decreases |path|
  {
    if path != [] {
      UpChainStepped(t, t[x].link.value.parent, path[1..], y);
      assert path == [path[0]] + path[1..];
    }
  }

  ghost function Inverses(t: Tree, path: seq<nat>): seq<ChangeSet>
    requires Stepped(t, path)
  {
    if path == [] then [] else [t[path[0]].link.value.inverse] + Inverses(t, path[1..])
  }

  ghost function Forwards(t: Tree, path: seq<nat>): seq<ChangeSet>
    requires Stepped(t, path)
  {
    if path == [] then [] else Forwards(t, path[..|path| - 1]) + [t[path[|path| - 1]].link.value.forward]
  }

  function Reversed(path: seq<nat>): seq<nat> {
    if path == [] then [] else Reversed(path[1..]) + [path[0]]
  }

  /** The inverses on the way up carry the text of where the walk starts to that of where it ends. */
  lemma {:induction false} UpRuns(t: Tree, texts: map<nat, string>, x: nat, path: seq<nat>, y: nat)
    requires Linked(t) && Worded(t, texts) && x in t && UpChain(t, x, path, y)
    ensures y in t && Stepped(t, path) && Carries(Inverses(t, path), texts[x], texts[y])
    decreases |path|
  {
    UpChainStepped(t, x, path, y);
    if path != [] {
      assert HasParent(t, x);
      var p := t[x].link.value.parent;
      UpRuns(t, texts, p, path[1..], y);
      CarriesOne(t[x].link.value.inverse, texts[x], texts[p]);
      CarriesOn([t[x].link.value.inverse], Inverses(t, path[1..]), texts[x], texts[p], texts[y]);
    }
  }

  lemma {:induction false} ReversedStepped(t: Tree, path: seq<nat>)
    requires Stepped(t, path)
    ensures Stepped(t, Reversed(path)) && |Reversed(path)| == |path|
    decreases |path|
  {
    if path != [] {
      ReversedStepped(t, path[1..]);
    }
  }

  /** The forwards of a way up, taken back down, carry the text of its end to that of its start. */
  lemma {:induction false} DownRuns(t: Tree, texts: map<nat, string>, x: nat, path: seq<nat>, y: nat)
    requires Linked(t) && Worded(t, texts) && x in t && UpChain(t, x, path, y)
    ensures y in t && Stepped(t, Reversed(path)) && Carries(Forwards(t, Reversed(path)), texts[y], texts[x])
    decreases |path|
  {
    UpChainStepped(t, x, path, y);
    ReversedStepped(t, path);
    if path != [] {
      assert HasParent(t, x);
      var p, back := t[x].link.value.parent, Reversed(path[1..]);
      DownRuns(t, texts, p, path[1..], y);
      assert Reversed(path)[..|back|] == back;
      CarriesOne(t[x].link.value.forward, texts[p], texts[x]);
      CarriesOn(Forwards(t, back), [t[x].link.value.forward], texts[y], texts[p], texts[x]);
    }
  }

  lemma {:induction false} UpChainAbove(t: Tree, x: nat, path: seq<nat>, y: nat)
    requires Linked(t) && x in t && UpChain(t, x, path, y)
    ensures y in t && Above(t, y, x) && (forall i :: 0 <= i < |path| ==> Above(t, path[i], x) && y < path[i])
    ensures forall a :: Above(t, a, x) && !Above(t, a, y) ==> a in path
    decreases |path|
  {
    if path != [] {
      assert HasParent(t, x);
      var p := t[x].link.value.parent;
      UpChainAbove(t, p, path[1..], y);
      AboveIsSmaller(t, y, p);
      forall i | 0 <= i < |path| ensures Above(t, path[i], x) && y < path[i] {
        if i > 0 { assert path[i] == path[1..][i - 1]; }
      }
      assert path == [path[0]] + path[1..];
    }
  }

  /** `m` is the lowest revision above both. */
  ghost predicate LowestCommon(t: Tree, m: nat, x: nat, y: nat) {
    Above(t, m, x) && Above(t, m, y) && forall a :: Above(t, a, x) && Above(t, a, y) ==> Above(t, a, m)
  }

  // ---- Steps along one line ----

  ghost function UpBy(t: Tree, x: nat, n: nat): nat
    decreases n
  {
    if n == 0 || x !in t || t[x].link.None? then x else UpBy(t, t[x].link.value.parent, n - 1)
  }

  ghost function DownBy(t: Tree, x: nat, n: nat): nat
    decreases n
  {
    if n == 0 || x !in t || t[x].children.redo.None? then x else DownBy(t, t[x].children.redo.value, n - 1)
  }

  ghost function Depth(t: Tree, x: nat): nat
    decreases x
  {
    if x in t && t[x].link.Some? && t[x].link.value.parent < x then 1 + Depth(t, t[x].link.value.parent) else 0
  }

  lemma {:induction false} DownByNext(t: Tree, x: nat, n: nat)
    requires Linked(t) && x in t
    ensures DownBy(t, x, n) in t
    ensures DownBy(t, x, n + 1)
         == if t[DownBy(t, x, n)].children.redo.None? then DownBy(t, x, n) else t[DownBy(t, x, n)].children.redo.value
    decreases n
  {
    if n > 0 && t[x].children.redo.Some? {
      assert OwnsChildren(t, x);
      DownByNext(t, t[x].children.redo.value, n - 1);
    }
  }

  lemma OneAbove(t: Tree, x: nat)
    requires x in t && t[x].link.Some? && t[x].link.value.parent < x
    ensures Above(t, t[x].link.value.parent, x)
  {
  }

  /** Undoing any number of steps and redoing as many comes back to where it started. */
  lemma {:induction false} UndoThenRedoReturns(t: Tree, x: nat, n: nat)
    requires Linked(t) && x in t && RedoLeadsTo(t, x) && n <= Depth(t, x)
    ensures DownBy(t, UpBy(t, x, n), n) == x
    decreases n
  {
    if n > 0 {
      assert HasParent(t, x);
      UndoThenRedoReturnsFrom(t, x, x, n);
    }
  }

  lemma {:induction false} UndoThenRedoReturnsFrom(t: Tree, current: nat, x: nat, n: nat)
    requires Linked(t) && x in t && Above(t, x, current) && RedoLeadsTo(t, current) && n <= Depth(t, x)
    ensures DownBy(t, UpBy(t, x, n), n) == x
    decreases n
  {
    if n > 0 {
      assert HasParent(t, x);
      var p := t[x].link.value.parent;
      assert Above(t, p, x);
      AboveTrans(t, p, x, current);
      UndoThenRedoReturnsFrom(t, current, p, n - 1);
      DownByNext(t, UpBy(t, p, n - 1), n - 1);
    }
  }

  // ---- Setting redo along a way down ----

  /** The redo children of the parents of `path`'s revisions set to those revisions. */
  function Marked(t: Tree, path: seq<nat>): Tree
    decreases |path|
  {
    if path == [] then t
    else
      var m := Marked(t, path[..|path| - 1]);
      Mark(m, path[|path| - 1])
  }

  function Mark(t: Tree, x: nat): Tree {
    if x in t && t[x].link.Some? && t[x].link.value.parent in t
    then
      var p := t[x].link.value.parent;
      t[p := t[p].(children := t[p].children.(redo := Some(x)))]
    else t
  }

  /** Same links and children, whatever the redo children. */
  ghost predicate SameButRedo(a: Tree, b: Tree) {
    a.Keys == b.Keys && forall x :: x in a ==> a[x].link == b[x].link && a[x].children.ids == b[x].children.ids
  }

  lemma MarkKeeps(t: Tree, x: nat)
    requires Linked(t) && x in t && t[x].link.Some?
    ensures Linked(Mark(t, x)) && SameButRedo(t, Mark(t, x))
  {
    assert HasParent(t, x);
    var t' := Mark(t, x);
    forall y | y in t' && y != ROOT ensures HasParent(t', y) { assert HasParent(t, y); }
    forall y | y in t' ensures OwnsChildren(t', y) { assert OwnsChildren(t, y); }
  }

  lemma {:induction false} SameAbove(a: Tree, b: Tree, y: nat, x: nat)
    requires SameButRedo(a, b)
    ensures Above(a, y, x) <==> Above(b, y, x)
    decreases x
  {
    if x in a && a[x].link.Some? && a[x].link.value.parent < x { SameAbove(a, b, y, a[x].link.value.parent); }
  }
}
