/**
 * One step of the threshold generators' odometer, stated on values. The
 * counter is a mixed-radix number over the marginal tables with position 0
 * moving fastest; a step either takes the next entry of marginal 0 or carries
 * into a higher position, pruned by the bound maxConfsLPSum.
 */
module ThresholdStep {
  import opened Wrappers
  import opened Marginals

  /** An index vector that names one configuration of every marginal. */
  ghost predicate IsConf(ms: seq<Marginal>, x: seq<int>)
  {
    |x| == |ms| && forall k :: 0 <= k < |x| ==> 0 <= x[k] < |ms[k].lProbs|
  }

  /**
   * A counter the generator can hold between steps: a configuration, or the
   * starting value in which position 0 stands one before the first entry.
   */
  ghost predicate IsCounter(ms: seq<Marginal>, c: seq<int>)
  {
    && |c| == |ms| >= 1
    && -1 <= c[0] < |ms[0].lProbs|
    && forall k :: 1 <= k < |c| ==> 0 <= c[k] < |ms[k].lProbs|
  }

  /** The log-probability of the configuration x. */
  function Total(ms: seq<Marginal>, x: seq<int>): LogProb
    requires |x| == |ms|
  {
    SumLP(ms, x, 0, |x|)
  }

  /** The odometer order: a comes before b when a is smaller at the highest position where they differ. */
  ghost predicate Before(a: seq<int>, b: seq<int>)
    requires |a| == |b|
  {
    exists p :: 0 <= p < |a| && a[p] < b[p] && forall q :: p < q < |a| ==> a[q] == b[q]
  }

  /** The counter after a carry that stops at idx: lower positions reset to 0, position idx one up. */
  function Bumped(c: seq<int>, idx: nat): (r: seq<int>)
    requires idx < |c|
    ensures |r| == |c|
    ensures forall k :: 0 <= k < idx ==> r[k] == 0
    ensures r[idx] == c[idx] + 1
    ensures forall k :: idx < k < |c| ==> r[k] == c[k]
  {
    seq(|c|, k requires 0 <= k < |c| => if k < idx then 0 else if k == idx then c[idx] + 1 else c[k])
  }

  /** One more turn of the carry: position i is reset and position i + 1 moves one up. */
  lemma BumpedNext(c: seq<int>, i: nat)
    requires i + 1 < |c|
    ensures Bumped(c, i)[i := 0][i + 1 := c[i + 1] + 1] == Bumped(c, i + 1)
  {
  }

  /** Every marginal table is sorted and maxConfsLPSum[i] bounds the best log-probability of positions 0..i. */
  ghost predicate Bounded(ms: seq<Marginal>, maxC: seq<real>)
  {
    && |maxC| >= |ms| - 1
    && (forall k :: 0 <= k < |ms| ==> Sorted(ms[k]))
    && forall i :: 0 <= i < |ms| - 1 ==> Leq(SumLP(ms, Modes(|ms|), 0, i + 1), Finite(maxC[i]))
  }

  /** As Bounded, with maxConfsLPSum[i] exactly the log-probability of the modes of marginals 0..i. */
  ghost predicate Exact(ms: seq<Marginal>, maxC: seq<real>)
  {
    && |maxC| >= |ms| - 1
    && (forall k :: 0 <= k < |ms| ==> Sorted(ms[k]))
    && forall i :: 0 <= i < |ms| - 1 ==> SumLP(ms, Modes(|ms|), 0, i + 1) == Finite(maxC[i])
  }

  /** The fast path's test: the next entry of marginal 0 keeps the configuration at or above the cutoff. */
  predicate FastPasses(ms: seq<Marginal>, cutoff: real, c: seq<int>)
    requires |c| == |ms| >= 1
  {
    AtLeast(Add(SumLP(ms, c, 1, |c|), LProbAt(ms[0], c[0] + 1)), cutoff)
  }

  /** The carry's test at idx: with position idx one up, the best completion below idx reaches the cutoff. */
  predicate CarryPasses(ms: seq<Marginal>, maxC: seq<real>, cutoff: real, c: seq<int>, idx: nat)
    requires |c| == |ms| && 1 <= idx < |c| && |maxC| >= |c| - 1
  {
    AtLeast(Add(Add(SumLP(ms, c, idx + 1, |c|), LProbAt(ms[idx], c[idx] + 1)), Finite(maxC[idx - 1])), cutoff)
  }

  /** The lowest position from idx on at which the carry's test passes. */
  function FirstCarry(ms: seq<Marginal>, maxC: seq<real>, cutoff: real, c: seq<int>, idx: nat): (r: Option<nat>)
    requires |c| == |ms| && 1 <= idx && |maxC| >= |c| - 1
    ensures r.Some? ==> idx <= r.value < |c| && CarryPasses(ms, maxC, cutoff, c, r.value)
    ensures forall i :: idx <= i < |c| && (r.None? || i < r.value) ==> !CarryPasses(ms, maxC, cutoff, c, i)
    decreases |c| - idx
  {
    if idx >= |c| then None
    else if CarryPasses(ms, maxC, cutoff, c, idx) then Some(idx)
    else FirstCarry(ms, maxC, cutoff, c, idx + 1)
  }

  /** The carry stops at the first position that passes its test. */
  lemma FirstCarryAt(ms: seq<Marginal>, maxC: seq<real>, cutoff: real, c: seq<int>, idx: nat)
    requires |c| == |ms| && 1 <= idx < |c| && |maxC| >= |c| - 1
    requires CarryPasses(ms, maxC, cutoff, c, idx)
    requires forall i :: 1 <= i < idx ==> !CarryPasses(ms, maxC, cutoff, c, i)
    ensures FirstCarry(ms, maxC, cutoff, c, 1) == Some(idx)
  {
  }

  /** When no position passes its test, the carry finds none. */
  lemma FirstCarryNone(ms: seq<Marginal>, maxC: seq<real>, cutoff: real, c: seq<int>)
    requires |c| == |ms| && |maxC| >= |c| - 1
    requires forall i :: 1 <= i < |c| ==> !CarryPasses(ms, maxC, cutoff, c, i)
    ensures FirstCarry(ms, maxC, cutoff, c, 1) == None
  {
  }

  /** Where a step stops: 0 on the fast path, the carry position otherwise, None when the search ends. */
  function StopOf(ms: seq<Marginal>, maxC: seq<real>, cutoff: real, c: seq<int>): Option<nat>
    requires |c| == |ms| >= 1 && |maxC| >= |c| - 1
  {
    if FastPasses(ms, cutoff, c) then Some(0) else FirstCarry(ms, maxC, cutoff, c, 1)
  }

  /** The counter after one step, or None when the step ends the search. */
  function Next(ms: seq<Marginal>, maxC: seq<real>, cutoff: real, c: seq<int>): Option<seq<int>>
    requires |c| == |ms| >= 1 && |maxC| >= |c| - 1
  {
    match StopOf(ms, maxC, cutoff, c)
    case None => None
    case Some(s) => Some(Bumped(c, s))
  }

  /** A step that does not end the search moves the counter forward. */
  lemma NextIsLater(ms: seq<Marginal>, maxC: seq<real>, cutoff: real, c: seq<int>)
    requires |c| == |ms| >= 1 && |maxC| >= |c| - 1
    requires Next(ms, maxC, cutoff, c).Some?
    ensures Before(c, Next(ms, maxC, cutoff, c).value)
  {
    var s := StopOf(ms, maxC, cutoff, c).value;
    var c' := Bumped(c, s);
    assert c[s] < c'[s] && forall q :: s < q < |c| ==> c[q] == c'[q];
  }

  /** With one element, the search ends as soon as the fast path fails. */
  lemma SingleElementEnds(ms: seq<Marginal>, maxC: seq<real>, cutoff: real, c: seq<int>)
    requires |c| == |ms| == 1
    requires !FastPasses(ms, cutoff, c)
    ensures Next(ms, maxC, cutoff, c).None?
  {
  }

  /** If x lies strictly after c, the highest position where they differ is larger in x. */
  lemma HighestDifference(c: seq<int>, x: seq<int>) returns (p: nat)
    requires |c| == |x| && Before(c, x)
    ensures p < |c| && c[p] < x[p] && forall q :: p < q < |c| ==> c[q] == x[q]
  {
    p :| 0 <= p < |c| && c[p] < x[p] && forall q :: p < q < |c| ==> c[q] == x[q];
  }

  /** A configuration strictly between c and the next counter differs from c only below the stop position. */
  lemma {:induction false} BetweenIsBelowStop(c: seq<int>, x: seq<int>, s: nat, p: nat)
    requires |c| == |x| && s < |c|
    requires forall k :: 0 <= k < |x| ==> 0 <= x[k]
    requires p < |c| && c[p] < x[p] && forall q :: p < q < |c| ==> c[q] == x[q]
    requires Before(x, Bumped(c, s))
    ensures p < s
  {
    var c' := Bumped(c, s);
    var q :| 0 <= q < |x| && x[q] < c'[q] && forall r :: q < r < |x| ==> x[r] == c'[r];
  }

  /** Splits the log-probability of x at position p into the part above p, entry p and the part below. */
  lemma SplitAt(ms: seq<Marginal>, x: seq<int>, p: nat)
    requires |x| == |ms| && p < |x|
    ensures Total(ms, x) == Add(Add(SumLP(ms, x, p + 1, |x|), LProbAt(ms[p], x[p])), SumLP(ms, x, 0, p))
  {
    SumLPSplit(ms, x, 0, p, |x|);
  }

  /**
   * Soundness of the pruning: a step skips only configurations below the
   * cutoff, both those between the old and the new counter and, when the
   * search ends, all those after the old counter.
   */
  lemma {:induction false} SkippedAreBelowCutoff(ms: seq<Marginal>, maxC: seq<real>, cutoff: real, c: seq<int>, x: seq<int>)
    requires IsCounter(ms, c) && Bounded(ms, maxC)
    requires IsConf(ms, x) && Before(c, x)
    requires Next(ms, maxC, cutoff, c).Some? ==> Before(x, Next(ms, maxC, cutoff, c).value)
    ensures !AtLeast(Total(ms, x), cutoff)
  {
    var n := |c|;
    var p := HighestDifference(c, x);
    var stop := StopOf(ms, maxC, cutoff, c);
    if stop.Some? {
      BetweenIsBelowStop(c, x, stop.value, p);
    }
    // the test at p failed: on the fast path if p == 0, in the carry otherwise
    assert p == 0 ==> !FastPasses(ms, cutoff, c);
    SumsAgree(ms, x, c, p + 1, n);
    LProbAtMono(ms[p], c[p] + 1, x[p]);
    SplitAt(ms, x, p);
    var above := SumLP(ms, c, p + 1, n);
    if p == 0 {
      AddMono(above, above, LProbAt(ms[0], x[0]), LProbAt(ms[0], c[0] + 1));
      assert SumLP(ms, x, 0, 0) == Finite(0.0);
      BelowFails(Total(ms, x), Add(above, LProbAt(ms[0], c[0] + 1)), cutoff);
    } else {
      assert !CarryPasses(ms, maxC, cutoff, c, p);
      var z := Modes(n);
      SumLPMono(ms, x, z, 0, p);
      assert Leq(SumLP(ms, z, 0, p), Finite(maxC[p - 1]));
      LeqTrans(SumLP(ms, x, 0, p), SumLP(ms, z, 0, p), Finite(maxC[p - 1]));
      AddMono(above, above, LProbAt(ms[p], x[p]), LProbAt(ms[p], c[p] + 1));
      AddMono(Add(above, LProbAt(ms[p], x[p])), Add(above, LProbAt(ms[p], c[p] + 1)),
              SumLP(ms, x, 0, p), Finite(maxC[p - 1]));
      BelowFails(Total(ms, x), Add(Add(above, LProbAt(ms[p], c[p] + 1)), Finite(maxC[p - 1])), cutoff);
    }
  }

  /**
   * With the bound exact, every counter a step produces names a configuration
   * whose log-probability reaches the cutoff.
   */
  lemma {:induction false} NextReachesCutoff(ms: seq<Marginal>, maxC: seq<real>, cutoff: real, c: seq<int>)
    requires IsCounter(ms, c) && Exact(ms, maxC)
    requires forall k :: 0 <= k < |ms| ==> |ms[k].lProbs| >= 1
    requires Next(ms, maxC, cutoff, c).Some?
    ensures IsConf(ms, Next(ms, maxC, cutoff, c).value)
    ensures IsCounter(ms, Next(ms, maxC, cutoff, c).value)
    ensures AtLeast(Total(ms, Next(ms, maxC, cutoff, c).value), cutoff)
  {
    var n := |c|;
    var s := StopOf(ms, maxC, cutoff, c).value;
    var c' := Bumped(c, s);
    SumsAgree(ms, c', c, s + 1, n);
    SplitAt(ms, c', s);
    if s == 0 {
      assert FastPasses(ms, cutoff, c);
      assert SumLP(ms, c', 0, 0) == Finite(0.0);
    } else {
      assert CarryPasses(ms, maxC, cutoff, c, s);
      var z := Modes(n);
      SumsAgree(ms, c', z, 0, s);
      assert SumLP(ms, z, 0, s) == Finite(maxC[s - 1]);
    }
  }
}
