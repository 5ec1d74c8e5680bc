/**
 * What the threshold generators read from the per-element marginal
 * distributions: for each element a table of sub-isotopologues (count
 * vectors) ordered by decreasing probability, with their log-probabilities,
 * masses and probabilities, and sums of those values along a configuration.
 */
module Marginals {

  /**
   * A log-probability as the generator stores it: a finite value or minus
   * infinity. Minus infinity is what a marginal table holds after its last
   * configuration, and no cutoff test passes on it.
   */
  datatype LogProb = NegInf | Finite(value: real)

  function Add(a: LogProb, b: LogProb): LogProb
  {
    if a.Finite? && b.Finite? then Finite(a.value + b.value) else NegInf
  }

  /** The test `x >= Lcutoff`. */
  predicate AtLeast(a: LogProb, cutoff: real)
  {
    a.Finite? && a.value >= cutoff
  }

  /** a <= b, with minus infinity below everything. */
  predicate Leq(a: LogProb, b: LogProb)
  {
    a.NegInf? || (b.Finite? && a.value <= b.value)
  }

  /** One marginal distribution: a table of configurations and their values. */
  datatype Marginal = Marginal(confs: seq<seq<int>>, lProbs: seq<real>, masses: seq<real>, eProbs: seq<real>)

  /** The four tables are parallel and every configuration has one count per isotope. */
  ghost predicate WellFormed(m: Marginal, isotopeNumber: nat)
  {
    && |m.lProbs| == |m.confs| && |m.masses| == |m.confs| && |m.eProbs| == |m.confs|
    && forall i :: 0 <= i < |m.confs| ==> |m.confs[i]| == isotopeNumber
  }

  /** The table is ordered by decreasing probability. */
  ghost predicate Sorted(m: Marginal)
  {
    forall i, j :: 0 <= i <= j < |m.lProbs| ==> m.lProbs[j] <= m.lProbs[i]
  }

  /** get_lProb(k), reading the minus-infinity terminator past the last configuration. */
  function LProbAt(m: Marginal, k: int): LogProb
  {
    if 0 <= k < |m.lProbs| then Finite(m.lProbs[k]) else NegInf
  }

  /** get_mass(k); the terminator's mass is 0. */
  function MassAt(m: Marginal, k: int): real
  {
    if 0 <= k < |m.masses| then m.masses[k] else 0.0
  }

  /** get_eProb(k); the terminator's probability is 0. */
  function EProbAt(m: Marginal, k: int): real
  {
    if 0 <= k < |m.eProbs| then m.eProbs[k] else 0.0
  }

  /** recalc's product rule for one position: x is y times the probability of entry k of m. */
  predicate ProductRule(x: real, y: real, m: Marginal, k: int)
  {
    x == y * EProbAt(m, k)
  }

  /** The sub-isotopologue of every element that the index vector x names. */
  function Confs(ms: seq<Marginal>, x: seq<int>): (parts: seq<seq<int>>)
    requires |x| == |ms| && forall k :: 0 <= k < |x| ==> 0 <= x[k] < |ms[k].confs|
    ensures |parts| == |x|
  {
    seq(|x|, k requires 0 <= k < |x| => ms[k].confs[x[k]])
  }

  /** The log-probability of marginal positions lo..hi-1 of the index vector c. */
  function SumLP(ms: seq<Marginal>, c: seq<int>, lo: nat, hi: nat): LogProb
    requires hi <= |ms| && hi <= |c|
    decreases hi - lo
  {
    if lo >= hi then Finite(0.0) else Add(SumLP(ms, c, lo + 1, hi), LProbAt(ms[lo], c[lo]))
  }

  /** The mass of marginal positions lo..hi-1 of c. */
  function SumMass(ms: seq<Marginal>, c: seq<int>, lo: nat, hi: nat): real
    requires hi <= |ms| && hi <= |c|
    decreases hi - lo
  {
    if lo >= hi then 0.0 else SumMass(ms, c, lo + 1, hi) + MassAt(ms[lo], c[lo])
  }

  /** The probability of marginal positions lo..hi-1 of c. */
  function ProdEProb(ms: seq<Marginal>, c: seq<int>, lo: nat, hi: nat): real
    requires hi <= |ms| && hi <= |c|
    decreases hi - lo
  {
    if lo >= hi then 1.0 else ProdEProb(ms, c, lo + 1, hi) * EProbAt(ms[lo], c[lo])
  }

  /** The index vector of the most probable configuration: every marginal at its first entry. */
  function Modes(n: nat): (z: seq<int>)
    ensures |z| == n && forall k :: 0 <= k < n ==> z[k] == 0
  {
    seq(n, k => 0)
  }

  lemma LeqTrans(a: LogProb, b: LogProb, c: LogProb)
    requires Leq(a, b) && Leq(b, c)
    ensures Leq(a, c)
  {
  }

  lemma AddAssoc(a: LogProb, b: LogProb, c: LogProb)
    ensures Add(Add(a, b), c) == Add(a, Add(b, c))
  {
  }

  lemma AddMono(a: LogProb, a': LogProb, b: LogProb, b': LogProb)
    requires Leq(a, a') && Leq(b, b')
    ensures Leq(Add(a, b), Add(a', b'))
  {
  }

  /** A value below one that fails the cutoff test fails it too. */
  lemma BelowFails(a: LogProb, b: LogProb, cutoff: real)
    requires Leq(a, b) && !AtLeast(b, cutoff)
    ensures !AtLeast(a, cutoff)
  {
  }

  /** Sorted tables read non-increasing values, the terminator included. */
  lemma LProbAtMono(m: Marginal, i: int, j: int)
    requires Sorted(m) && 0 <= i <= j
    ensures Leq(LProbAt(m, j), LProbAt(m, i))
  {
  }

  /** Sums along index vectors that agree on lo..hi-1 are equal. */
  lemma {:induction false} SumsAgree(ms: seq<Marginal>, c: seq<int>, d: seq<int>, lo: nat, hi: nat)
    requires hi <= |ms| && hi <= |c| && hi <= |d|
    requires forall k :: lo <= k < hi ==> c[k] == d[k]
    ensures SumLP(ms, c, lo, hi) == SumLP(ms, d, lo, hi)
    ensures SumMass(ms, c, lo, hi) == SumMass(ms, d, lo, hi)
    ensures ProdEProb(ms, c, lo, hi) == ProdEProb(ms, d, lo, hi)
    decreases hi - lo
  {
    if lo < hi {
      SumsAgree(ms, c, d, lo + 1, hi);
    }
  }

  /** The log-probability of lo..hi-1 is that of mid..hi-1 plus that of lo..mid-1. */
  lemma {:induction false} SumLPSplit(ms: seq<Marginal>, c: seq<int>, lo: nat, mid: nat, hi: nat)
    requires lo <= mid <= hi <= |ms| && hi <= |c|
    ensures SumLP(ms, c, lo, hi) == Add(SumLP(ms, c, mid, hi), SumLP(ms, c, lo, mid))
    decreases mid - lo
  {
    if lo < mid {
      var x := LProbAt(ms[lo], c[lo]);
      SumLPSplit(ms, c, lo + 1, mid, hi);
      AddAssoc(SumLP(ms, c, mid, hi), SumLP(ms, c, lo + 1, mid), x);
      calc {
        SumLP(ms, c, lo, hi);
        Add(SumLP(ms, c, lo + 1, hi), x);
        Add(Add(SumLP(ms, c, mid, hi), SumLP(ms, c, lo + 1, mid)), x);
        Add(SumLP(ms, c, mid, hi), Add(SumLP(ms, c, lo + 1, mid), x));
        Add(SumLP(ms, c, mid, hi), SumLP(ms, c, lo, mid));
      }
    }
  }

  /** Moving any marginal further down its sorted table never raises the log-probability. */
  lemma {:induction false} SumLPMono(ms: seq<Marginal>, x: seq<int>, y: seq<int>, lo: nat, hi: nat)
    requires hi <= |ms| && hi <= |x| && hi <= |y|
    requires forall k :: lo <= k < hi ==> Sorted(ms[k]) && 0 <= y[k] <= x[k]
    ensures Leq(SumLP(ms, x, lo, hi), SumLP(ms, y, lo, hi))
    decreases hi - lo
  {
    if lo < hi {
      SumLPMono(ms, x, y, lo + 1, hi);
      LProbAtMono(ms[lo], y[lo], x[lo]);
      AddMono(SumLP(ms, x, lo + 1, hi), SumLP(ms, y, lo + 1, hi), LProbAt(ms[lo], x[lo]), LProbAt(ms[lo], y[lo]));
    }
  }
}
