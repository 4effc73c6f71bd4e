/** Sizes of finite sets of numbers, and the pigeonhole principle. */
module Counting {

  ghost function Below(n: nat): (s: set<nat>)
    ensures |s| == n && forall i: nat :: i in s <==> i < n
  {
    if n == 0 then {} else Below(n - 1) + {n - 1}
  }

  lemma SubsetSize(a: set<nat>, b: set<nat>)
    requires a <= b
    ensures |b - a| == |b| - |a|
  {
    assert b == a + (b - a);
  }

  ghost predicate InjectiveOn(f: nat -> nat, s: set<nat>) {
    forall i, j :: i in s && j in s && f(i) == f(j) ==> i == j
  }

  ghost function Image(f: nat -> nat, s: set<nat>): set<nat> {
    set i | i in s :: f(i)
  }

  ghost function Preimage(f: nat -> nat, s: set<nat>, r: set<nat>): set<nat> {
    set i | i in s && f(i) in r
  }

  lemma {:induction false} ImageSize(f: nat -> nat, s: set<nat>)
    requires InjectiveOn(f, s)
    ensures |Image(f, s)| == |s|
  {
    if s != {} {
      var i :| i in s;
      ImageSize(f, s - {i});
      assert Image(f, s) == Image(f, s - {i}) + {f(i)};
    }
  }

  lemma ImageBelow(f: nat -> nat, n: nat)
    requires forall i :: i in Below(n) ==> f(i) < n
    ensures Image(f, Below(n)) <= Below(n)
  {
  }

  /** An injective map of `[0, n)` into itself reaches every number below `n`. */
  lemma Fills(f: nat -> nat, n: nat)
    requires InjectiveOn(f, Below(n)) && forall i :: i in Below(n) ==> f(i) < n
    ensures Image(f, Below(n)) == Below(n)
  {
    hide Below, InjectiveOn, Image;
    ImageSize(f, Below(n));
    ImageBelow(f, n);
    SubsetSize(Image(f, Below(n)), Below(n));
    assert Below(n) - Image(f, Below(n)) == {};
  }

  lemma Source(f: nat -> nat, n: nat, x: nat) returns (i: nat)
    requires InjectiveOn(f, Below(n)) && (forall i :: i in Below(n) ==> f(i) < n) && x in Below(n)
    ensures i in Below(n) && f(i) == x
  {
    hide Below, InjectiveOn;
    Fills(f, n);
    assert x in Image(f, Below(n));
    i :| i in Below(n) && f(i) == x;
  }

  lemma OneMore(f: nat -> nat, s: set<nat>, r: set<nat>, i: nat)
    requires InjectiveOn(f, s) && i in s && f(i) !in r
    ensures Preimage(f, s, r + {f(i)}) == Preimage(f, s, r) + {i}
    ensures |Preimage(f, s, r + {f(i)})| == |Preimage(f, s, r)| + 1
  {
    assert i !in Preimage(f, s, r);
  }

  /** So it visits each set of numbers below `n` as often as the set has elements. */
  lemma {:induction false} PreimageSize(f: nat -> nat, n: nat, r: set<nat>)
    requires InjectiveOn(f, Below(n)) && (forall i :: i in Below(n) ==> f(i) < n)
    requires r <= Below(n)
    ensures |Preimage(f, Below(n), r)| == |r|
  {
    if r != {} {
      var x :| x in r;
      var i := Source(f, n, x);
      PreimageSize(f, n, r - {x});
      OneMore(f, Below(n), r - {x}, i);
      assert r == (r - {x}) + {x};
    }
  }

  /** The numbers from `lo` up to `hi`. */
  ghost function Interval(lo: nat, hi: nat): (s: set<nat>)
    requires lo <= hi
    ensures |s| == hi - lo && forall i: nat :: i in s <==> lo <= i < hi
  {
    SubsetSize(Below(lo), Below(hi));
    Below(hi) - Below(lo)
  }
}
