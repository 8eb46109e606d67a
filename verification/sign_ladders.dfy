/** A buffer's registered sign sources, highest priority first and then by name: a source's place is its slot. */
module SignLadders {
  import opened Wrappers
  import opened SourceNames

  datatype Rung = Rung(name: string, priority: int)

  type Ladder = seq<Rung>

  predicate Above(a: Rung, b: Rung) {
    a.priority > b.priority || (a.priority == b.priority && Less(a.name, b.name))
  }

  /** In rank order, no name twice. */
  ghost predicate IsLadder(rs: Ladder) {
    forall i, j :: 0 <= i < j < |rs| ==> Above(rs[i], rs[j]) && rs[i].name != rs[j].name
  }

  lemma AboveOrder(a: Rung, b: Rung)
    ensures a.name != b.name ==> (Above(a, b) <==> !Above(b, a))
    ensures !Above(a, a)
  {
    LessOrder(a.name, b.name);
    LessOrder(a.name, a.name);
  }

  lemma AboveChain(a: Rung, b: Rung, c: Rung)
    requires Above(a, b) && Above(b, c)
    ensures Above(a, c)
  {
    if a.priority == b.priority == c.priority { LessChain(a.name, b.name, c.name); }
  }

  /** The source's slot; `None` when it is not registered. */
  function SlotOf(rs: Ladder, name: string): (k: Option<nat>)
    ensures k.Some? ==> k.value < |rs| && rs[k.value].name == name
    ensures k.None? <==> forall i :: 0 <= i < |rs| ==> rs[i].name != name
  {
    if rs == [] then None
    else if rs[0].name == name then Some(0)
    else
      var k := SlotOf(rs[1..], name);
      assert forall i :: 0 < i < |rs| ==> rs[i] == rs[1..][i - 1];
      if k.None? then None else Some(k.value + 1)
  }

  /** The number of leading sources that rank above. */
  function RankOf(rs: Ladder, r: Rung): (k: nat)
    ensures k <= |rs| && (forall i :: 0 <= i < k ==> Above(rs[i], r)) && (k < |rs| ==> !Above(rs[k], r))
  {
    if rs == [] || !Above(rs[0], r) then 0 else 1 + RankOf(rs[1..], r)
  }

  /** A slot is the number of registered sources that rank above: those before it, and no others. */
  lemma SlotIsRank(rs: Ladder, name: string, k: nat, r: Rung)
    requires IsLadder(rs) && SlotOf(rs, name) == Some(k) && r in rs
    ensures Above(r, rs[k]) <==> r in rs[..k]
  {
    var i :| 0 <= i < |rs| && rs[i] == r;
    if i < k { assert rs[..k][i] == r; }
    if i >= k {
      AboveOrder(r, rs[k]);
      AboveOrder(rs[k], rs[k]);
      forall j | 0 <= j < k ensures rs[..k][j] != r { assert rs[j].name != rs[i].name; }
    }
  }

  /** Of two registered sources the one of higher priority has the earlier slot, and of two of one priority the one
      whose name comes first. */
  lemma SlotsByPriority(rs: Ladder, j: nat, k: nat)
    requires IsLadder(rs) && j < |rs| && k < |rs| && rs[j].name != rs[k].name
    ensures SlotOf(rs, rs[j].name) == Some(j)
    ensures j < k <==>
              rs[j].priority > rs[k].priority || (rs[j].priority == rs[k].priority && Less(rs[j].name, rs[k].name))
  {
    AboveOrder(rs[j], rs[k]);
    SlotHere(rs, j);
  }

  lemma {:induction false} SlotHere(rs: Ladder, j: nat)
    requires IsLadder(rs) && j < |rs|
    ensures SlotOf(rs, rs[j].name) == Some(j)
  {
    if j > 0 {
      TailRungs(rs);
      SlotHere(rs[1..], j - 1);
    }
  }

  /** The registered sources alone give the order: however they came to be registered, the slots are the same. */
  lemma {:induction false} LadderUnique(a: Ladder, b: Ladder)
    requires IsLadder(a) && IsLadder(b) && forall r :: r in a <==> r in b
    ensures a == b
  {
    assert b != [] ==> b[0] in b;
    if a != [] {
      assert a[0] in a;
      var j :| 0 <= j < |b| && b[j] == a[0];
      var i :| 0 <= i < |a| && a[i] == b[0];
      if i > 0 && j > 0 { AboveOrder(a[0], b[0]); }
      assert a[0] == b[0];
      TailRungs(a);
      TailRungs(b);
      LadderUnique(a[1..], b[1..]);
    }
  }

  lemma TailRungs(rs: Ladder)
    requires IsLadder(rs) && rs != []
    ensures IsLadder(rs[1..]) && forall r :: r in rs[1..] <==> r in rs && r != rs[0]
  {
    assert rs == [rs[0]] + rs[1..];
    forall r | r in rs[1..] ensures r != rs[0] {
      var i :| 0 <= i < |rs| - 1 && rs[1..][i] == r;
      assert rs[i + 1] == r;
    }
  }

  function Dropped(rs: Ladder, k: nat): Ladder
    requires k < |rs|
  {
    rs[..k] + rs[k + 1..]
  }

  lemma DroppedRungs(rs: Ladder, k: nat)
    requires IsLadder(rs) && k < |rs|
    ensures IsLadder(Dropped(rs, k))
    ensures forall r :: r in Dropped(rs, k) <==> r in rs && r.name != rs[k].name
  {
    var d := Dropped(rs, k);
    assert forall i :: 0 <= i < |d| ==> d[i] == rs[if i < k then i else i + 1];
    forall r ensures r in d <==> r in rs && r.name != rs[k].name {
      if r in rs && r.name != rs[k].name {
        var i :| 0 <= i < |rs| && rs[i] == r;
        assert d[if i < k then i else i - 1] == r;
      }
    }
  }

  lemma PlacedRungs(rs: Ladder, r: Rung, k: nat, out: Ladder)
    requires IsLadder(rs) && SlotOf(rs, r.name) == None && k == RankOf(rs, r) && out == rs[..k] + [r] + rs[k..]
    ensures IsLadder(out)
  {
    forall i, j | 0 <= i < j < |out| ensures Above(out[i], out[j]) && out[i].name != out[j].name {
      RungPair(rs, r, k, out, i, j);
    }
  }

  lemma PlacedMembers(a: Ladder, b: Ladder, r: Rung, rs: Ladder, out: Ladder)
    requires rs == a + b && out == a + [r] + b
    ensures forall s :: s in out <==> s in rs || s == r
  {
  }

  lemma RungPair(rs: Ladder, r: Rung, k: nat, out: Ladder, i: nat, j: nat)
    requires IsLadder(rs) && SlotOf(rs, r.name) == None && k == RankOf(rs, r) && out == rs[..k] + [r] + rs[k..]
             && i < j < |out|
    ensures Above(out[i], out[j]) && out[i].name != out[j].name
  {
    if i == k {
      AboveOrder(r, rs[k]);
      if j > k + 1 { AboveChain(r, rs[k], rs[j - 1]); }
    }
  }

  /** Registers a source, under its new priority when it had one already. */
  method Register(rs: Ladder, source: string, priority: int) returns (r: Ladder)
    requires IsLadder(rs)
    ensures IsLadder(r) && forall s :: s in r <==> s == Rung(source, priority) || (s in rs && s.name != source)
  {
    r := rs;
    var idx := SlotOf(rs, source);
    if idx.Some? {
      if rs[idx.value].priority == priority {
        OnlyRung(rs, idx.value, priority);
        return;
      }
      DroppedRungs(rs, idx.value);
      r := Dropped(rs, idx.value);
    }
    r := Placed(r, Rung(source, priority));
  }

  method Placed(rs: Ladder, rung: Rung) returns (r: Ladder)
    requires IsLadder(rs) && forall s :: s in rs ==> s.name != rung.name
    ensures IsLadder(r) && forall s :: s in r <==> s == rung || s in rs
  {
    var k := RankOf(rs, rung);
    r := rs[..k] + [rung] + rs[k..];
    NotAmong(rs, rung.name);
    PlacedRungs(rs, rung, k, r);
    assert rs == rs[..k] + rs[k..];
    PlacedMembers(rs[..k], rs[k..], rung, rs, r);
  }

  lemma NotAmong(rs: Ladder, name: string)
    requires forall r :: r in rs ==> r.name != name
    ensures SlotOf(rs, name) == None
  {
    forall i | 0 <= i < |rs| ensures rs[i].name != name { assert rs[i] in rs; }
  }

  lemma OnlyRung(rs: Ladder, k: nat, priority: int)
    requires IsLadder(rs) && k < |rs| && rs[k].priority == priority
    ensures forall s :: s in rs <==> s == Rung(rs[k].name, priority) || (s in rs && s.name != rs[k].name)
  {
    forall s | s in rs && s.name == rs[k].name ensures s == rs[k] {
      var i :| 0 <= i < |rs| && rs[i] == s;
    }
  }

  /** Withdrawing a source moves those below it up a slot and leaves the others where they were. */
  lemma SlotsMoveUp(rs: Ladder, k: nat, name: string)
    requires IsLadder(rs) && k < |rs| && name != rs[k].name
    ensures SlotOf(Dropped(rs, k), name)
         == match SlotOf(rs, name) case None => None case Some(i) => Some(if i < k then i else i - 1)
  {
    if SlotOf(rs, name).None? { StillAbsent(rs, k, name); } else { StillThere(rs, k, name, SlotOf(rs, name).value); }
  }

  lemma StillAbsent(rs: Ladder, k: nat, name: string)
    requires IsLadder(rs) && k < |rs| && SlotOf(rs, name) == None
    ensures SlotOf(Dropped(rs, k), name) == None
  {
    DroppedRungs(rs, k);
    forall r | r in Dropped(rs, k) ensures r.name != name { NotIn(rs, name, r); }
    NotAmong(Dropped(rs, k), name);
  }

  lemma StillThere(rs: Ladder, k: nat, name: string, i: nat)
    requires IsLadder(rs) && k < |rs| && i < |rs| && i != k && rs[i].name == name
    ensures SlotOf(Dropped(rs, k), name) == Some(if i < k then i else i - 1)
  {
    DroppedRungs(rs, k);
    DroppedAt(rs, k, i);
    SlotIs(Dropped(rs, k), name, if i < k then i else i - 1);
  }

  lemma DroppedAt(rs: Ladder, k: nat, i: nat)
    requires k < |rs| && i < |rs| && i != k
    ensures var j := if i < k then i else i - 1; j < |Dropped(rs, k)| && Dropped(rs, k)[j] == rs[i]
  {
  }

  lemma NotIn(rs: Ladder, name: string, r: Rung)
    requires SlotOf(rs, name) == None && r in rs
    ensures r.name != name
  {
  }

  lemma SlotIs(rs: Ladder, name: string, i: nat)
    requires IsLadder(rs) && i < |rs| && rs[i].name == name
    ensures SlotOf(rs, name) == Some(i)
  {
    assert SlotOf(rs, name).Some?;
  }
}
