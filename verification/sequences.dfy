/** Facts about sequences the solver does better with a name for. */
module Sequences {
  lemma Assoc<T>(a: seq<T>, b: seq<T>, c: seq<T>)
    ensures (a + b) + c == a + (b + c)
  {
  }

  lemma AssocFour<T>(a: seq<T>, b: seq<T>, c: seq<T>, d: seq<T>)
    ensures (a + b) + c + d == a + (b + c + d)
  {
  }

  lemma SplitAt<T>(s: seq<T>, k: nat)
    requires k <= |s|
    ensures s == s[..k] + s[k..]
  {
  }

  lemma Middle<T>(x: seq<T>, y: seq<T>, z: seq<T>, all: seq<T>)
    requires all == x + (y + z)
    ensures |x| + |y| <= |all| && all[|x|..|x| + |y|] == y
  {
  }

  lemma AfterPart<T>(a: seq<T>, b: seq<T>, ab: seq<T>)
    requires ab == a + b
    ensures |ab| == |a| + |b| && forall k :: |a| <= k < |ab| ==> ab[k] == b[k - |a|]
  {
  }

  lemma DropDrop<T>(s: seq<T>, i: nat, n: nat)
    requires i + n <= |s|
    ensures s[i..][n..] == s[i + n..] && s[i..][..n] == s[i..i + n]
  {
  }

  lemma SliceSlice<T>(s: seq<T>, from: nat, to: nat, a: nat, b: nat)
    requires from <= to <= |s| && a <= b <= to - from
    ensures s[from..to][a..b] == s[from + a..from + b]
  {
    var x, y := s[from..to][a..b], s[from + a..from + b];
    forall k | 0 <= k < b - a ensures x[k] == y[k] {
      assert s[from..to][a + k] == s[from + a + k];
    }
  }
}
