/** Tree-structured undo history: recording, stepping, jumping and trimming, with the text of every revision kept
    beside the tree as a ghost map. */
module Histories {
  import opened Wrappers
  import opened Sequences
  import opened ChangeSets
  import opened HistoryTree
  import opened HistoryTrim
  import opened HistoryWalk

  /** What separates the current text from another revision's. */
  datatype RevisionPath = Unknown | Here | Changes(cs: ChangeSet)

  /** A fresh revision's link runs both ways between its parent's text and its own. */
  lemma InsertedWorded(t: Tree, texts: map<nat, string>, current: nat, id: nat, cs: ChangeSet)
    requires Linked(t) && Worded(t, texts) && current in t && id !in t
    requires cs.Valid() && cs.lenBefore == |texts[current]|
    ensures Worded(Inserted(t, current, id, Link(current, Inverse(cs, texts[current]), cs)),
            texts[id := Run(cs.ops, texts[current])])
  {
    var after := Run(cs.ops, texts[current]);
    InverseUndoes(cs, texts[current]);
    var link := Link(current, Inverse(cs, texts[current]), cs);
    assert LinkRuns(link, texts[current], after);
    var t', all := Inserted(t, current, id, link), texts[id := after];
    forall x | x in t' && t'[x].link.Some?
      ensures t'[x].link.value.parent in all && LinkRuns(t'[x].link.value, all[t'[x].link.value.parent], all[x])
    {
      if x != id {
        assert t'[x].link == t[x].link;
        assert t[x].link.value.parent in t;
      }
    }
  }

  lemma InsertedSound(t: Tree, texts: map<nat, string>, current: nat, id: nat, cs: ChangeSet)
    requires Linked(t) && Worded(t, texts) && current in t && RedoLeadsTo(t, current) && (forall x :: x in t ==> x < id)
    requires cs.Valid() && cs.lenBefore == |texts[current]|
    ensures Sound(Inserted(t, current, id, Link(current, Inverse(cs, texts[current]), cs)),
                  texts[id := Run(cs.ops, texts[current])], id)
  {
    var link := Link(current, Inverse(cs, texts[current]), cs);
    InsertedLinks(t, current, id, link);
    InsertedRedo(t, current, id, link);
    InsertedWorded(t, texts, current, id, cs);
  }

  lemma RootAlone(t: Tree)
    requires ROOT in t
    ensures |t| > 1 <==> t.Keys != {ROOT}
  {
    if t.Keys != {ROOT} {
      var y :| y in t && y != ROOT;
      SizeOfPart({ROOT, y}, t.Keys);
    }
    assert |t| == |t.Keys|;
  }

  lemma FreshRoot(t: Tree, text: string)
    requires t == map[ROOT := Revision(None, Children([], None))]
    ensures Linked(t) && Worded(t, map[ROOT := text]) && RedoLeadsTo(t, ROOT)
  {
  }

  lemma ParentNotUnder(t: Tree, v: nat, p: nat)
    requires p < v
    ensures p !in Subtree(t, v)
  {
    if Above(t, v, p) { AboveIsSmaller(t, v, p); }
  }

  lemma StripOne(t: Tree, v: nat, p: nat, gone: set<nat>, next: nat)
    requires next in t && next != p
    ensures Stripped(t, v, p, gone) - {next} == Stripped(t, v, p, gone + {next})
  {
  }

  /** Promotion under way: `c` is out and those of its children in `done` hang off the root. */
  ghost predicate Repointed(t: Tree, c: nat, done: seq<nat>, r: Tree) {
    && r.Keys == t.Keys - {c}
    && forall x :: x in r ==>
         r[x] == if x in done && t[x].link.Some? then t[x].(link := Some(t[x].link.value.(parent := ROOT))) else t[x]
  }

  lemma RepointedAll(t: Tree, c: nat, r: Tree)
    requires Linked(t) && t[ROOT].children.ids == [c] && c in t && c != ROOT && Repointed(t, c, t[c].children.ids, r)
    ensures r[ROOT := r[ROOT].(children := t[c].children)] == Promoted(t, c)
  {
    var r' := r[ROOT := r[ROOT].(children := t[c].children)];
    assert OwnsChildren(t, c);
    forall x | x in r' && x != ROOT ensures r'[x] == Promoted(t, c)[x] {
      assert HasParent(t, x);
    }
  }

  class History {
    var revisions: Tree
    var current: nat
    var nextId: nat
    var undoLevels: nat
    var changeSeq: nat
    /** The text of each revision. */
    ghost var texts: map<nat, string>

    ghost predicate Valid() reads this {
      && Linked(revisions) && Worded(revisions, texts) && current in revisions
      && (forall x :: x in revisions ==> x < nextId) && RedoLeadsTo(revisions, current)
    }

    constructor (ghost text: string)
      ensures Valid() && revisions.Keys == {ROOT} && current == ROOT && texts == map[ROOT := text]
      ensures nextId == 1 && undoLevels == 0 && changeSeq == 0
    {
      revisions := map[ROOT := Revision(None, Children([], None))];
      current, nextId, undoLevels, changeSeq := ROOT, 1, 0, 0;
      texts := map[ROOT := text];
    }

    /** Drops every revision, keeping the cap; the change counter moves only when something was dropped. */
    method Reset(ghost text: string)
      requires Valid()
      modifies this
      ensures Valid() && revisions.Keys == {ROOT} && current == ROOT && texts == map[ROOT := text]
      ensures undoLevels == old(undoLevels) && nextId == 1
      ensures changeSeq == old(changeSeq) + if old(revisions.Keys) == {ROOT} then 0 else 1
    {
      RootAlone(revisions);
      if |revisions| > 1 { changeSeq := changeSeq + 1; }
      revisions := map[ROOT := Revision(None, Children([], None))];
      current, nextId := ROOT, 1;
      texts := map[ROOT := text];
      FreshRoot(revisions, text);
    }

    method SetUndoLevels(levels: nat)
      requires Valid()
      modifies `undoLevels
      ensures Valid() && undoLevels == levels
    {
      undoLevels := levels;
    }

    /** Records the edit `cs` of the current text as a new current revision, then trims. */
    method Record(cs: ChangeSet, preText: string) returns (promoted: Option<nat>, ghost before: Tree)
      requires Valid() && cs.Valid() && cs.lenBefore == |preText| && preText == texts[current]
      modifies this
      ensures Valid() && current == old(nextId) && nextId == old(nextId) + 1 && changeSeq == old(changeSeq) + 1
      ensures undoLevels == old(undoLevels)
      ensures texts[current] == Run(cs.ops, preText) && revisions[current].children.ids == []
      ensures var full := Inserted(old(revisions), old(current), current, Link(old(current), Inverse(cs, preText), cs));
              var all := old(texts)[current := Run(cs.ops, preText)];
              && Trimmed(full, all, revisions, texts, current, promoted)
              && (undoLevels == 0 || |full| - 1 <= undoLevels ==> revisions == full && texts == all && promoted.None?)
              && (undoLevels > 0 ==> |revisions| - 1 <= undoLevels)
              && (undoLevels > 0 && |full| - 1 > undoLevels ==>
                    LastTrim(full, all, before, revisions, current, undoLevels))
    {
      Append(cs, preText);
      promoted, before := EnforceUndoLevels();
    }

    /** The new revision, under the current one and on its redo path. */
    method Append(cs: ChangeSet, preText: string)
      requires Valid() && cs.Valid() && cs.lenBefore == |preText| && preText == texts[current]
      modifies this
      ensures Sound(revisions, texts, current) && current == old(nextId) && nextId == old(nextId) + 1
      ensures changeSeq == old(changeSeq) + 1 && undoLevels == old(undoLevels)
      ensures revisions == Inserted(old(revisions), old(current), current, Link(old(current), Inverse(cs, preText), cs))
      ensures texts == old(texts)[current := Run(cs.ops, preText)]
      ensures forall x :: x in revisions ==> x < nextId
    {
      var inverse := Invert(cs, preText);
      var newId, parentId := nextId, current;
      nextId := nextId + 1;
      InsertedSound(revisions, texts, current, newId, cs);
      revisions := Inserted(revisions, parentId, newId, Link(parentId, inverse, cs));
      texts := texts[newId := Run(cs.ops, preText)];
      current, changeSeq := newId, changeSeq + 1;
    }

    /** Trims to the cap, oldest from the root end first, and no further: the tree `before` the last step was over
        the cap. The last revision promoted into the root, if any. */
    method EnforceUndoLevels() returns (lastPromoted: Option<nat>, ghost before: Tree)
      requires Sound(revisions, texts, current)
      modifies `revisions, `texts
      ensures Sound(revisions, texts, current)
      ensures revisions.Keys <= old(revisions.Keys)
      ensures Trimmed(old(revisions), old(texts), revisions, texts, current, lastPromoted)
      ensures undoLevels == 0 || |old(revisions)| - 1 <= undoLevels ==>
                revisions == old(revisions) && texts == old(texts) && lastPromoted.None?
      ensures undoLevels > 0 ==> |revisions| - 1 <= undoLevels
      ensures undoLevels > 0 && |old(revisions)| - 1 > undoLevels ==>
                LastTrim(old(revisions), old(texts), before, revisions, current, undoLevels)
    {
      NothingTrimmed(revisions, texts, current);
      lastPromoted, before := None, revisions;
      if undoLevels == 0 { return; }
      ghost var full, all := revisions, texts;
      while |revisions| - 1 > undoLevels
        invariant Shrunk(full, all, lastPromoted, before).Some?
        decreases revisions.Keys
      {
        lastPromoted, before := TrimMore(lastPromoted, full, all, before);
      }
    }

    /** The tree trimmed so far: not at all, or by steps of which each started over the cap. */
    ghost function Shrunk(full: Tree, all: map<nat, string>, promoted: Option<nat>, before: Tree): Option<Tree>
      reads this
    {
      if Trimming(full, all, promoted) && revisions.Keys <= full.Keys
         && ((revisions == full && texts == all && promoted.None?)
             || (|full| - 1 > undoLevels && LastTrim(full, all, before, revisions, current, undoLevels)))
      then Some(revisions) else None
    }

    /** One trim more. */
    method TrimMore(lastPromoted: Option<nat>, ghost full: Tree, ghost all: map<nat, string>, ghost was: Tree)
        returns (r: Option<nat>, ghost before: Tree)
      requires Shrunk(full, all, lastPromoted, was).Some? && |revisions| - 1 > undoLevels > 0
      modifies `revisions, `texts
      ensures Shrunk(full, all, r, before).Some? && revisions.Keys < old(revisions.Keys)
    {
      OverBefore(full, revisions, undoLevels);
      ghost var words := texts;
      before := revisions;
      r := TrimOnce(lastPromoted, full, all);
      LastTrimmed(full, all, before, words, lastPromoted, revisions, current, undoLevels);
    }

    ghost predicate Trimming(full: Tree, all: map<nat, string>, promoted: Option<nat>) reads this {
      && Sound(revisions, texts, current) && Trimmed(full, all, revisions, texts, current, promoted)
    }

    /** Drops the root's oldest branch off the current line, or promotes the root's only child. */
    method TrimOnce(lastPromoted: Option<nat>, ghost full: Tree, ghost all: map<nat, string>) returns (r: Option<nat>)
      requires Trimming(full, all, lastPromoted) && |revisions| > 2
      modifies `revisions, `texts
      ensures Trimming(full, all, r) && revisions.Keys < old(revisions.Keys)
      ensures TrimStep(old(revisions), revisions, current)
    {
      RootHasChild(revisions, texts, current);
      assert OwnsChildren(revisions, ROOT);
      var kids := revisions[ROOT].children.ids;
      if |kids| > 1 {
        var kept := RootChildOnCurrentPath();
        var victim := OldestOther(kids, kept);
        PruneStep(full, all, revisions, texts, current, lastPromoted, victim, kept);
        VictimIsOff(revisions, current, victim, kept);
        RemoveSubtree(victim);
        r := lastPromoted;
      } else {
        PromoteStep(full, all, revisions, texts, current, lastPromoted, kids[0]);
        Promote(kids[0]);
        r := Some(kids[0]);
      }
    }

    /** The root's child the current line goes through. */
    method RootChildOnCurrentPath() returns (id: nat)
      requires Linked(revisions) && current in revisions && current != ROOT
      ensures id in revisions[ROOT].children.ids && Above(revisions, id, current)
    {
      id := current;
      assert HasParent(revisions, id);
      while revisions[id].link.value.parent != ROOT
        invariant id in revisions && id != ROOT && HasParent(revisions, id) && Above(revisions, id, current)
        decreases id
      {
        var parent := revisions[id].link.value.parent;
        assert HasParent(revisions, parent);
        OneAbove(revisions, id);
        AboveTrans(revisions, parent, id, current);
        id := parent;
      }
    }

    /** The oldest of the children but `kept`. */
    method OldestOther(kids: seq<nat>, kept: nat) returns (v: nat)
      requires |kids| > 1 && Ascending(kids)
      ensures v in kids && v != kept && forall w :: w in kids && w != kept ==> v <= w
    {
      v := if kids[0] != kept then kids[0] else kids[1];
      forall w | w in kids && w != kept ensures v <= w {
        var i :| 0 <= i < |kids| && kids[i] == w;
        assert i == 0 || i == 1 || kids[1] < kids[i];
      }
    }

    /** Removes the branch `id`, whatever its parent. */
    method RemoveSubtree(id: nat)
      requires Linked(revisions) && id in revisions && revisions[id].link.Some? && texts.Keys == revisions.Keys
      modifies `revisions, `texts
      ensures revisions == Pruned(old(revisions), id, old(revisions[id].link.value.parent))
      ensures texts == PrunedTexts(old(revisions), id, old(texts))
      ensures revisions.Keys < old(revisions.Keys)
    {
      ghost var t := revisions;
      assert HasParent(t, id);
      var p := revisions[id].link.value.parent;
      var parent := revisions[p];
      revisions := revisions[p := parent.(children := parent.children.Remove(id))];
      var stack := [id];
      ghost var gone: set<nat> := {};
      ParentNotUnder(t, id, p);
      while stack != []
        invariant Clearing(t, id, stack, gone) && revisions == Stripped(t, id, p, gone) && texts == old(texts)
        decreases Subtree(t, id) - gone, |stack|
      {
        var next, rest := stack[|stack| - 1], stack[..|stack| - 1];
        assert stack == rest + [next];
        stack := rest;
        if next in revisions {
          ClearingStep(t, id, rest, next, gone);
          stack := stack + revisions[next].children.ids;
          StripOne(t, id, p, gone, next);
          revisions := revisions - {next};
          gone := gone + {next};
        } else {
          ClearingStep(t, id, rest, next, gone);
          ClearingSkip(t, id, rest, next, gone);
        }
      }
      ClearingDone(t, id, gone);
      texts := PrunedTexts(t, id, texts);
      assert id in Subtree(t, id);
    }

    /** Promotes the root's only child: its children become the root's, and it goes. */
    method Promote(c: nat)
      requires Linked(revisions) && revisions[ROOT].children.ids == [c] && c in revisions
               && texts.Keys == revisions.Keys
      modifies `revisions, `texts
      ensures revisions == Promoted(old(revisions), c) && texts == PromotedTexts(old(revisions), c, old(texts))
      ensures revisions.Keys < old(revisions.Keys)
    {
      ghost var t := revisions;
      assert OwnsChildren(t, ROOT) && OwnsChildren(t, c);
      var promoted := revisions[c];
      revisions := revisions - {c};
      var ids := promoted.children.ids;
      for i := 0 to |ids|
        invariant texts == old(texts)
        invariant Repointed(t, c, ids[..i], revisions)
      {
        assert ids[i] in t[c].children.ids && HasParent(t, ids[i]);
        var child := revisions[ids[i]];
        revisions := revisions[ids[i] := child.(link := Some(child.link.value.(parent := ROOT)))];
      }
      assert ids[..|ids|] == ids;
      RepointedAll(t, c, revisions);
      revisions := revisions[ROOT := revisions[ROOT].(children := promoted.children)];
      texts := PromotedTexts(t, c, texts);
    }

    /** One step toward the root: the changeset back to the parent's text, none at the root. */
    method Undo() returns (r: Option<ChangeSet>)
      requires Valid()
      modifies `current, `changeSeq
      ensures Valid()
      ensures r.None? <==> revisions[old(current)].link.None?
      ensures r.None? ==> current == old(current) && changeSeq == old(changeSeq)
      ensures r.Some? ==> current == revisions[old(current)].link.value.parent && changeSeq == old(changeSeq) + 1
      ensures r.Some? ==> r == Some(revisions[old(current)].link.value.inverse)
      ensures r.Some? ==> Carries([r.value], texts[old(current)], texts[current])
      ensures r.Some? ==> revisions[current].children.redo == Some(old(current))
    {
      var link := revisions[current].link;
      if link.None? { return None; }
      assert HasParent(revisions, current) && LinkRuns(link.value, texts[link.value.parent], texts[current]);
      CarriesOne(link.value.inverse, texts[current], texts[link.value.parent]);
      OneAbove(revisions, current);
      RedoLeadsUp(revisions, link.value.parent, current);
      assert Above(revisions, current, current);
      SetCurrent(link.value.parent);
      return Some(link.value.inverse);
    }

    /** One step to the redo child: the changeset to its text, none at a leaf. */
    method Redo() returns (r: Option<ChangeSet>)
      requires Valid()
      modifies `current, `changeSeq
      ensures Valid()
      ensures r.None? <==> revisions[old(current)].children.redo.None?
      ensures r.None? ==> current == old(current) && changeSeq == old(changeSeq)
      ensures r.Some? ==> Some(current) == revisions[old(current)].children.redo && changeSeq == old(changeSeq) + 1
      ensures r.Some? ==> Carries([r.value], texts[old(current)], texts[current])
      ensures r.Some? ==> revisions[current].link.Some? && revisions[current].link.value.parent == old(current)
      ensures r.Some? ==> r == Some(revisions[current].link.value.forward)
    {
      var child := revisions[current].children.redo;
      if child.None? { return None; }
      RedoLeadsDown(revisions, current);
      var link := revisions[child.value].link.value;
      assert LinkRuns(link, texts[current], texts[child.value]);
      CarriesOne(link.forward, texts[current], texts[child.value]);
      SetCurrent(child.value);
      return Some(link.forward);
    }

    method SetCurrent(id: nat)
      modifies `current, `changeSeq
      ensures current == id && changeSeq == old(changeSeq) + 1
    {
      current, changeSeq := id, changeSeq + 1;
    }

    /** Up to `count` steps toward the root; fewer only when the root is reached. */
    method UndoN(count: nat) returns (css: seq<ChangeSet>)
      requires Valid()
      modifies `current, `changeSeq
      ensures Valid() && |css| <= count && (|css| < count ==> revisions[current].link.None?)
      ensures current == UpBy(revisions, old(current), |css|) && |css| <= Depth(revisions, old(current))
      ensures Carries(css, texts[old(current)], texts[current]) && Undone(revisions, old(current), css, current)
      ensures changeSeq == old(changeSeq) + |css|
    {
      css := [];
      NoneUndone(revisions, current);
      while |css| < count
        invariant Valid() && |css| <= count && changeSeq == old(changeSeq) + |css|
        invariant Undone(revisions, old(current), css, current)
      {
        ghost var before := current;
        var step := Undo();
        if step.None? { break; }
        UndoneMore(revisions, old(current), css, before);
        css := css + [step.value];
      }
      UndoneMeans(revisions, texts, old(current), css, current);
    }

    /** Up to `count` steps along the redo children; fewer only when a leaf is reached. */
    method RedoN(count: nat) returns (css: seq<ChangeSet>)
      requires Valid()
      modifies `current, `changeSeq
      ensures Valid() && |css| <= count && (|css| < count ==> revisions[current].children.redo.None?)
      ensures current == DownBy(revisions, old(current), count)
      ensures Carries(css, texts[old(current)], texts[current]) && Redone(revisions, old(current), css, current)
      ensures changeSeq == old(changeSeq) + |css|
    {
      css := [];
      ghost var left := count;
      NoneRedone(revisions, current);
      while |css| < count
        invariant Valid() && |css| <= count && left == count - |css| && changeSeq == old(changeSeq) + |css|
        invariant DownBy(revisions, current, left) == DownBy(revisions, old(current), count)
        invariant Redone(revisions, old(current), css, current)
      {
        ghost var before := current;
        var step := Redo();
        if step.None? { break; }
        RedoneMore(revisions, old(current), css, before, current);
        css := css + [step.value];
        left := left - 1;
      }
      RedoneMeans(revisions, texts, old(current), css, current);
    }

    method CanUndo() returns (b: bool)
      requires Valid()
      ensures b <==> current != ROOT
    {
      assert current != ROOT ==> HasParent(revisions, current);
      return revisions[current].link.Some?;
    }

    method CanRedo() returns (b: bool)
      requires Valid()
      ensures b <==> exists x :: x in revisions && revisions[x].link.Some? && revisions[x].link.value.parent == current
    {
      b := revisions[current].children.redo.Some?;
      assert OwnsChildren(revisions, current);
      if !b {
        forall x | x in revisions && revisions[x].link.Some? ensures revisions[x].link.value.parent != current {
          assert HasParent(revisions, x);
        }
      } else {
        RedoLeadsDown(revisions, current);
      }
    }

    /** The legs of the walk to `target`: the larger id steps up until both meet. */
    method Path(target: nat) returns (r: Option<(seq<nat>, seq<nat>)>, ghost met: nat, ghost climbed: seq<nat>)
      requires Valid()
      ensures r.None? <==> target !in revisions
      ensures r.Some? ==> Legs(revisions, current, target, met, r.value.0, climbed, r.value.1)
    {
      met, climbed := ROOT, [];
      if target !in revisions { return None, met, climbed; }
      var upPath, downPath, from, to := [], [], current, target;
      while from != to
        invariant from in revisions && to in revisions
        invariant Climbing(revisions, current, target, upPath, from, downPath, to)
        decreases from + to
      {
        if from > to {
          ClimbFrom(revisions, current, target, upPath, from, downPath, to);
          upPath := upPath + [from];
          from := revisions[from].link.value.parent;
        } else {
          ClimbTo(revisions, current, target, upPath, from, downPath, to);
          downPath := downPath + [to];
          to := revisions[to].link.value.parent;
        }
      }
      ClimbMet(revisions, current, target, upPath, from, downPath);
      return Some((upPath, Reversed(downPath))), from, downPath;
    }

    /** The changesets of a walk's legs in the order they apply. */
    method Steps(up: seq<nat>, down: seq<nat>) returns (css: seq<ChangeSet>)
      requires Stepped(revisions, up) && Stepped(revisions, down)
      ensures css == Inverses(revisions, up) + Forwards(revisions, down)
    {
      css := [];
      for i := 0 to |up|
        invariant css + Inverses(revisions, up[i..]) == Inverses(revisions, up)
      {
        DropDrop(up, i, 1);
        Assoc(css, [revisions[up[i]].link.value.inverse], Inverses(revisions, up[i + 1..]));
        css := css + [revisions[up[i]].link.value.inverse];
      }
      ghost var inverses := css;
      for i := 0 to |down|
        invariant css == inverses + Forwards(revisions, down[..i])
      {
        assert down[..i + 1][..i] == down[..i];
        Assoc(inverses, Forwards(revisions, down[..i]), [revisions[down[i]].link.value.forward]);
        css := css + [revisions[down[i]].link.value.forward];
      }
      assert down[..|down|] == down;
    }

    /** The one changeset from the current text to the target's, with nothing moved. */
    method ChangesTo(target: nat) returns (r: RevisionPath)
      requires Valid()
      ensures r.Unknown? <==> target !in revisions
      ensures r.Here? <==> target == current
      ensures r.Changes? ==>
                r.cs.Valid() && r.cs.lenBefore == |texts[current]|
                && Run(r.cs.ops, texts[current]) == texts[target]
      ensures r.Changes? ==>
                exists css :: Walked(revisions, current, target, css) && Chained(css) && css != [] && r.cs == Net(css)
    {
      var path, met, climbed := Path(target);
      if path.None? { return Unknown; }
      WalkRuns(revisions, texts, current, target, met, path.value.0, climbed, path.value.1);
      EmptyWalk(revisions, current, target, met, path.value.0, climbed, path.value.1);
      LegsLengths(revisions, path.value.0);
      LegsLengths(revisions, path.value.1);
      var css := Steps(path.value.0, path.value.1);
      assert WalkedBy(revisions, current, target, met, path.value.0, climbed, css);
      var net := ComposeAll(css);
      match net {
        case Some(cs) =>
          CarriesNet(css, texts[current], texts[target]);
          return Changes(cs);
        case None => return Here;
      }
    }

    /** Jumps to any revision: the changesets to apply in order, none when it is not in the tree. */
    method GotoRevision(target: nat) returns (r: Option<seq<ChangeSet>>, ghost met: nat, ghost climbed: seq<nat>)
      requires Valid()
      modifies `current, `changeSeq, `revisions
      ensures Valid() && (r.None? <==> target !in old(revisions))
      ensures r.Some? ==> current == target && Carries(r.value, texts[old(current)], texts[target])
      ensures r.None? || target == old(current) ==>
                revisions == old(revisions) && current == old(current) && changeSeq == old(changeSeq)
      ensures r.Some? && target != old(current) ==> changeSeq == old(changeSeq) + 1
      ensures r.Some? ==> Went(old(revisions), old(current), target, met, climbed, revisions)
      ensures r.Some? ==> Walked(old(revisions), old(current), target, r.value)
    {
      var path;
      path, met, climbed := Path(target);
      if path.None? { return None, met, climbed; }
      var up, down := path.value.0, path.value.1;
      WentAlong(revisions, current, target, met, up, climbed, down);
      var css := TakeWalk(target, up, down, met, climbed);
      return Some(css), met, climbed;
    }

    /** The changesets of a walk, and what taking it changes: nothing when it stays. */
    method TakeWalk(target: nat, up: seq<nat>, down: seq<nat>, ghost met: nat, ghost climbed: seq<nat>)
        returns (css: seq<ChangeSet>)
      requires Valid() && target in revisions && Legs(revisions, current, target, met, up, climbed, down)
      modifies `current, `changeSeq, `revisions
      ensures Valid() && revisions == Marked(old(revisions), down) && current == target
      ensures Carries(css, texts[old(current)], texts[target])
      ensures Walked(old(revisions), old(current), target, css)
      ensures changeSeq == old(changeSeq) + if target == old(current) then 0 else 1
    {
      WalkRuns(revisions, texts, current, target, met, up, climbed, down);
      if target == current {
        EmptyWalk(revisions, current, target, met, up, climbed, down);
        assert WalkedBy(revisions, current, target, met, up, climbed, []);
        return [];
      }
      css := Steps(up, down);
      assert WalkedBy(revisions, current, target, met, up, climbed, css);
      Follow(target, down, up, met, climbed);
    }

    /** Goes to the end of a walk, redo leading there. */
    method Follow(target: nat, down: seq<nat>, ghost up: seq<nat>, ghost met: nat, ghost climbed: seq<nat>)
      requires Valid() && target in revisions && Legs(revisions, current, target, met, up, climbed, down)
      requires target != current && Stepped(revisions, down)
      modifies `current, `changeSeq, `revisions
      ensures Valid() && revisions == Marked(old(revisions), down)
      ensures current == target && changeSeq == old(changeSeq) + 1
    {
      MarkedRedo(revisions, current, target, met, up, climbed, down);
      SameWorded(revisions, Marked(revisions, down), texts);
      MarkDown(down);
      SetCurrent(target);
    }

    /** Makes each revision of a way down its parent's redo child. */
    method MarkDown(down: seq<nat>)
      requires Linked(revisions) && Stepped(revisions, down)
      modifies `revisions
      ensures revisions == Marked(old(revisions), down)
    {
      ghost var t := revisions;
      for i := 0 to |down|
        invariant revisions == Marked(t, down[..i])
      {
        assert down[..i + 1][..i] == down[..i];
        MarkedSame(t, down[..i]);
        assert HasParent(t, down[i]);
        var parent := revisions[down[i]].link.value.parent;
        var entry := revisions[parent];
        revisions := revisions[parent := entry.(children := entry.children.SetRedo(down[i]))];
      }
      assert down[..|down|] == down;
    }
  }
}
