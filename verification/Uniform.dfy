/** `arc4random_uniform`: rejection sampling without modulo bias. */
module Uniform {
  import opened Arithmetic
  import opened Counting
  import opened Options

  /** `-upper_bound % upper_bound` on 32-bit words: the inputs below it are rolled again. */
  function Threshold(bound: nat): nat
    requires 2 <= bound < WORD
  {
    (WORD - bound) % bound
  }

  predicate Accepted(bound: nat, r: nat)
    requires 2 <= bound < WORD
  {
    Threshold(bound) <= r < WORD
  }

  /** `arc4random_uniform`, drawing from a finite supply of random words. */
  method ArcRandomUniform(bound: nat, draws: seq<nat>) returns (r: Option<nat>, used: nat)
    requires bound < WORD && forall i :: 0 <= i < |draws| ==> draws[i] < WORD
    ensures used <= |draws|
    ensures bound < 2 ==> r == Some(0) && used == 0
    ensures bound >= 2 && r.Some? ==> 0 < used && Accepted(bound, draws[used - 1]) && r.value == draws[used - 1] % bound
    ensures bound >= 2 && r.Some? ==> forall i :: 0 <= i < used - 1 ==> !Accepted(bound, draws[i])
    ensures r.None? ==> bound >= 2 && forall i :: 0 <= i < |draws| ==> !Accepted(bound, draws[i])
  {
    used := 0;
    if bound < 2 {
      return Some(0), 0;
    }
    var min := (WORD - bound) % bound;
    while used < |draws|
      invariant used <= |draws|
      invariant forall i :: 0 <= i < used ==> !Accepted(bound, draws[i])
    {
      var x := draws[used];
      used := used + 1;
      if x >= min {
        return Some(x % bound), used;
      }
    }
    r := None;
  }

  /** The threshold is the number of inputs too many, and fewer than half are rejected. */
  lemma ThresholdIsExcess(bound: nat)
    requires 2 <= bound < WORD
    ensures Threshold(bound) == WORD % bound
    ensures (WORD - Threshold(bound)) % bound == 0
    ensures 2 * Threshold(bound) < WORD
  {
    var q, t := (WORD - bound) / bound, Threshold(bound);
    MulDistrib(q, 1, bound);
    DivModUnique(WORD, bound, q + 1, t);
    MulMod(q + 1, bound);
    assert WORD - t == (q + 1) * bound;
    MulMonotone(1, q + 1, bound);
  }

  /** The numbers of an interval that leave the given remainder. */
  ghost function WithResidue(lo: nat, hi: nat, bound: nat, v: nat): set<nat>
    requires bound > 0 && lo <= hi
  {
    set r | r in Interval(lo, hi) && r % bound == v
  }

  lemma Find(lo: nat, bound: nat, v: nat) returns (x: nat)
    requires 0 < bound && v < bound
    ensures lo <= x < lo + bound && x % bound == v
  {
    var q, t := lo / bound, lo % bound;
    var p := lo - t;
    MulDistrib(q, 1, bound);
    if t <= v {
      x := p + v;
      DivModUnique(x, bound, q, v);
    } else {
      x := p + bound + v;
      DivModUnique(x, bound, q + 1, v);
    }
  }

  lemma Apart(a: nat, b: nat, d: nat)
    requires d > 0 && a < b && a % d == b % d
    ensures a + d <= b
  {
    if a / d >= b / d { MulMonotone(b / d, a / d, d); }
    MulGap(a / d, b / d, d);
  }

  lemma OnePeriod(lo: nat, bound: nat, v: nat)
    requires 0 < bound && v < bound
    ensures |WithResidue(lo, lo + bound, bound, v)| == 1
  {
    var x := Find(lo, bound, v);
    var s := WithResidue(lo, lo + bound, bound, v);
    forall r | r in s ensures r == x {
      if r < x { Apart(r, x, bound); } else if x < r { Apart(x, r, bound); }
    }
    assert s == {x};
  }

  lemma SplitResidues(lo: nat, mid: nat, hi: nat, bound: nat, v: nat)
    requires bound > 0 && lo <= mid <= hi
    ensures |WithResidue(lo, hi, bound, v)| == |WithResidue(lo, mid, bound, v)| + |WithResidue(mid, hi, bound, v)|
  {
    var a, b := WithResidue(lo, mid, bound, v), WithResidue(mid, hi, bound, v);
    assert a !! b;
    assert WithResidue(lo, hi, bound, v) == a + b;
  }

  /** An interval of `n` whole periods holds each remainder exactly `n` times. */
  lemma {:induction false} Periods(lo: nat, n: nat, hi: nat, bound: nat, v: nat)
    requires 0 < bound && v < bound && hi == lo + n * bound
    ensures |WithResidue(lo, hi, bound, v)| == n
  {
    if n == 0 {
      assert WithResidue(lo, hi, bound, v) == {};
    } else {
      var mid := hi - bound;
      assert mid == lo + (n - 1) * bound by { MulDistrib(n - 1, 1, bound); }
      MulMonotone(0, n - 1, bound);
      Periods(lo, n - 1, mid, bound, v);
      OnePeriod(mid, bound, v);
      SplitResidues(lo, mid, hi, bound, v);
    }
  }

  lemma AcceptedInputs(bound: nat, v: nat)
    requires 2 <= bound < WORD && Threshold(bound) <= WORD
    ensures (set r | r in Below(WORD) && Accepted(bound, r) && r % bound == v)
      == WithResidue(Threshold(bound), WORD, bound, v)
  {
  }

  /** Exactly uniform: every result has the same number of accepted inputs. */
  lemma ExactlyUniform(bound: nat, v: nat)
    requires 2 <= bound < WORD && v < bound
    ensures |set r | r in Below(WORD) && Accepted(bound, r) && r % bound == v| == (WORD - Threshold(bound)) / bound
  {
    ThresholdIsExcess(bound);
    Periods(Threshold(bound), (WORD - Threshold(bound)) / bound, WORD, bound, v);
    AcceptedInputs(bound, v);
  }

  /** More than half of all inputs are accepted. */
  lemma MostlyAccepted(bound: nat)
    requires 2 <= bound < WORD
    ensures |set r | r in Below(WORD) && Accepted(bound, r)| * 2 > WORD
  {
    ThresholdIsExcess(bound);
    assert Interval(Threshold(bound), WORD) == set r | r in Below(WORD) && Accepted(bound, r);
  }
}
