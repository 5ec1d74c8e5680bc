/**
 * IsoThresholdGeneratorFast and its counting subclass IsoThresholdGeneratorCntr:
 * the counter and the suffix-accumulated partial arrays, updated in place by
 * advanceToNextConfiguration and recalc.
 */
module ThresholdGenerators {
  import opened Wrappers
  import opened Marginals
  import opened Signatures
  import opened ThresholdStep

  /** Two sequences that agree from i on agree from i + 1 on. */
  lemma SuffixShrinks<T>(a: seq<T>, b: seq<T>, i: nat)
    requires i < |a| == |b| && a[i..] == b[i..]
    ensures a[i + 1..] == b[i + 1..]
  {
    assert a[i + 1..] == a[i..][1..];
    assert b[i + 1..] == b[i..][1..];
  }

  /** recalc's rule for log-probabilities, from position lo up to hi. */
  lemma {:induction false} LProbsFromRecurrence(pl: seq<LogProb>, ms: seq<Marginal>, c: seq<int>, lo: nat, hi: nat)
    requires lo <= hi && hi < |pl| && hi <= |ms| && |c| == |ms|
    requires forall k :: lo <= k < hi ==> pl[k] == Add(pl[k + 1], LProbAt(ms[k], c[k]))
    requires pl[hi] == SumLP(ms, c, hi, |c|)
    ensures forall k :: lo <= k <= hi ==> pl[k] == SumLP(ms, c, k, |c|)
    decreases hi - lo
  {
    if lo < hi {
      LProbsFromRecurrence(pl, ms, c, lo + 1, hi);
    }
  }

  /** recalc's three rules hold at every position lo..hi-1. */
  ghost predicate RecalcRules(pl: seq<LogProb>, pm: seq<real>, pe: seq<real>, ms: seq<Marginal>, c: seq<int>, lo: nat, hi: nat)
  {
    && hi < |pl| && hi < |pm| && hi < |pe| && hi <= |ms| && hi <= |c|
    && forall k :: lo <= k < hi ==>
         && pl[k] == Add(pl[k + 1], LProbAt(ms[k], c[k]))
         && pm[k] == pm[k + 1] + MassAt(ms[k], c[k])
         && ProductRule(pe[k], pe[k + 1], ms[k], c[k])
  }

  /** Rewriting position i by the rules extends them from i + 1 down to i. */
  lemma RecalcRulesExtend(pl: seq<LogProb>, pm: seq<real>, pe: seq<real>,
                          pl': seq<LogProb>, pm': seq<real>, pe': seq<real>,
                          ms: seq<Marginal>, c: seq<int>, i: nat, hi: nat)
    requires RecalcRules(pl, pm, pe, ms, c, i + 1, hi) && i < hi
    requires pl' == pl[i := Add(pl[i + 1], LProbAt(ms[i], c[i]))]
    requires pm' == pm[i := pm[i + 1] + MassAt(ms[i], c[i])]
    requires |pe'| == |pe| && ProductRule(pe'[i], pe[i + 1], ms[i], c[i])
    requires forall k :: 0 <= k < |pe| && k != i ==> pe'[k] == pe[k]
    ensures RecalcRules(pl', pm', pe', ms, c, i, hi)
  {
  }

  /** After recalc the partial arrays hold the sums of the positions at and above each index. */
  lemma {:induction false} SumsFromRules(pl: seq<LogProb>, pm: seq<real>, pe: seq<real>, ms: seq<Marginal>, c: seq<int>, lo: nat, hi: nat)
    requires lo <= hi && |c| == |ms| && RecalcRules(pl, pm, pe, ms, c, lo, hi)
    requires pl[hi] == SumLP(ms, c, hi, |c|) && pm[hi] == SumMass(ms, c, hi, |c|) && pe[hi] == ProdEProb(ms, c, hi, |c|)
    ensures forall k :: lo <= k <= hi ==> pl[k] == SumLP(ms, c, k, |c|)
    ensures forall k :: lo <= k <= hi ==> pm[k] == SumMass(ms, c, k, |c|) && pe[k] == ProdEProb(ms, c, k, |c|)
    decreases hi - lo
  {
    if lo < hi {
      SumsFromRules(pl, pm, pe, ms, c, lo + 1, hi);
      assert ProductRule(pe[lo], pe[lo + 1], ms[lo], c[lo]);
      assert pe[lo] == ProdEProb(ms, c, lo, |c|);
    }
  }

  /**
   * The partial arrays hold, at every index k from lo up to the end, the
   * log-probability (and, when masses is set, the mass and probability) of
   * positions k.. of the counter c.
   */
  ghost predicate Agree(pl: seq<LogProb>, pm: seq<real>, pe: seq<real>, ms: seq<Marginal>, c: seq<int>, lo: nat, masses: bool)
  {
    && |c| == |ms| && |pl| == |c| + 1 && |pm| == |c| + 1 && |pe| == |c| + 1
    && (forall k {:trigger pl[k]} :: lo <= k <= |c| ==> pl[k] == SumLP(ms, c, k, |c|))
    && (masses ==> forall k {:trigger pm[k]} :: lo <= k <= |c| ==> pm[k] == SumMass(ms, c, k, |c|))
    && (masses ==> forall k {:trigger pe[k]} :: lo <= k <= |c| ==> pe[k] == ProdEProb(ms, c, k, |c|))
  }

  /** Agreement from lo carries over to a counter that is the same from lo on. */
  lemma AgreeTransfer(pl: seq<LogProb>, pm: seq<real>, pe: seq<real>, ms: seq<Marginal>, c: seq<int>, d: seq<int>, lo: nat, masses: bool)
    requires Agree(pl, pm, pe, ms, c, lo, masses)
    requires |d| == |c| && forall k :: lo <= k < |c| ==> c[k] == d[k]
    ensures Agree(pl, pm, pe, ms, d, lo, masses)
  {
    forall k | lo <= k <= |c|
      ensures SumLP(ms, c, k, |c|) == SumLP(ms, d, k, |c|)
      ensures SumMass(ms, c, k, |c|) == SumMass(ms, d, k, |c|) && ProdEProb(ms, c, k, |c|) == ProdEProb(ms, d, k, |c|)
    {
      SumsAgree(ms, c, d, k, |c|);
    }
  }

  /** Recalc below hi, leaving hi.. untouched, turns agreement from hi into agreement everywhere. */
  lemma RecalcRestores(pl: seq<LogProb>, pm: seq<real>, pe: seq<real>,
                       pl': seq<LogProb>, pm': seq<real>, pe': seq<real>, ms: seq<Marginal>, c: seq<int>, hi: nat)
    requires Agree(pl, pm, pe, ms, c, hi, true) && hi <= |c|
    requires RecalcRules(pl', pm', pe', ms, c, 0, hi) && |pl'| == |pl| && |pm'| == |pm| && |pe'| == |pe|
    requires pl'[hi..] == pl[hi..] && pm'[hi..] == pm[hi..] && pe'[hi..] == pe[hi..]
    ensures Agree(pl', pm', pe', ms, c, 0, true)
  {
    assert pl'[hi] == pl[hi] && pm'[hi] == pm[hi] && pe'[hi] == pe[hi] by {
      assert pl'[hi..][0] == pl[hi..][0] && pm'[hi..][0] == pm[hi..][0] && pe'[hi..][0] == pe[hi..][0];
    }
    SumsFromRules(pl', pm', pe', ms, c, 0, hi);
    forall k | hi < k <= |c|
      ensures pl'[k] == pl[k] && pm'[k] == pm[k] && pe'[k] == pe[k]
    {
      assert pl'[hi..][k - hi] == pl[hi..][k - hi] && pm'[hi..][k - hi] == pm[hi..][k - hi] && pe'[hi..][k - hi] == pe[hi..][k - hi];
    }
  }

  /** The same for the log-probabilities alone. */
  lemma RecalcLProbsRestores(pl: seq<LogProb>, pl': seq<LogProb>, pm: seq<real>, pe: seq<real>, ms: seq<Marginal>, c: seq<int>, hi: nat)
    requires Agree(pl, pm, pe, ms, c, hi, false) && hi <= |c| && |pl'| == |pl|
    requires forall k :: 0 <= k < hi ==> pl'[k] == Add(pl'[k + 1], LProbAt(ms[k], c[k]))
    requires forall k :: hi <= k <= |c| ==> pl'[k] == pl[k]
    ensures Agree(pl', pm, pe, ms, c, 0, false)
  {
    LProbsFromRecurrence(pl', ms, c, 0, hi);
  }

  /** Rebuilding position lo from the entry above extends agreement from lo + 1 down to lo. */
  lemma AgreeExtend(pl: seq<LogProb>, pm: seq<real>, pe: seq<real>, ms: seq<Marginal>, c: seq<int>, lo: nat, masses: bool)
    requires Agree(pl, pm, pe, ms, c, lo + 1, masses) && lo < |c|
    requires pl[lo] == Add(pl[lo + 1], LProbAt(ms[lo], c[lo]))
    requires masses ==> pm[lo] == pm[lo + 1] + MassAt(ms[lo], c[lo]) && ProductRule(pe[lo], pe[lo + 1], ms[lo], c[lo])
    ensures Agree(pl, pm, pe, ms, c, lo, masses)
  {
    if masses {
      assert RecalcRules(pl, pm, pe, ms, c, lo, lo + 1);
      SumsFromRules(pl, pm, pe, ms, c, lo, lo + 1);
    } else {
      LProbsFromRecurrence(pl, ms, c, lo, lo + 1);
    }
  }

  /**
   * The fast path's first half: position 0 moves one entry on and the
   * log-probability at 0 is rebuilt from the entry above.
   */
  lemma FastStep(pl: seq<LogProb>, pm: seq<real>, pe: seq<real>, pl': seq<LogProb>, pm': seq<real>, pe': seq<real>,
                 ms: seq<Marginal>, c: seq<int>, cutoff: real, masses: bool)
    requires Agree(pl, pm, pe, ms, c, 1, masses) && IsCounter(ms, c)
    requires |pl'| == |pl| && |pm'| == |pm| && |pe'| == |pe|
    requires forall k :: 1 <= k <= |c| ==> pl'[k] == pl[k] && pm'[k] == pm[k] && pe'[k] == pe[k]
    requires pl'[0] == Add(pl[1], LProbAt(ms[0], c[0] + 1))
    ensures Agree(pl', pm', pe', ms, Bumped(c, 0), 1, masses)
    ensures pl'[0] == Total(ms, Bumped(c, 0))
    ensures AtLeast(pl'[0], cutoff) <==> FastPasses(ms, cutoff, c)
    ensures AtLeast(pl'[0], cutoff) ==> IsCounter(ms, Bumped(c, 0))
  {
    var d := Bumped(c, 0);
    AgreeTransfer(pl', pm', pe', ms, c, d, 1, masses);
    SumsAgree(ms, c, d, 1, |c|);
  }

  /**
   * A carry that stops at idx: the positions above idx still agree, and
   * position idx has been rebuilt for its next entry.
   */
  lemma CarryStep(pl: seq<LogProb>, pm: seq<real>, pe: seq<real>, pl': seq<LogProb>, pm': seq<real>, pe': seq<real>,
                  ms: seq<Marginal>, c: seq<int>, idx: nat, masses: bool)
    requires Agree(pl, pm, pe, ms, c, 1, masses) && 1 <= idx < |c|
    requires |pl'| == |pl| && |pm'| == |pm| && |pe'| == |pe|
    requires pl'[idx + 1..] == pl[idx + 1..]
    requires masses ==> pm'[idx + 1..] == pm[idx + 1..] && pe'[idx + 1..] == pe[idx + 1..]
    requires pl'[idx] == Add(pl'[idx + 1], LProbAt(ms[idx], c[idx] + 1))
    requires masses ==> pm'[idx] == pm'[idx + 1] + MassAt(ms[idx], c[idx] + 1)
    requires masses ==> ProductRule(pe'[idx], pe'[idx + 1], ms[idx], c[idx] + 1)
    ensures Agree(pl', pm', pe', ms, Bumped(c, idx), idx, masses)
  {
    var d := Bumped(c, idx);
    var n := |c|;
    assert Agree(pl', pm', pe', ms, c, idx + 1, masses) by {
      forall k | idx < k <= n
        ensures pl'[k] == pl[k]
        ensures masses ==> pm'[k] == pm[k] && pe'[k] == pe[k]
      {
        assert pl'[idx + 1..][k - idx - 1] == pl[idx + 1..][k - idx - 1];
        if masses {
          assert pm'[idx + 1..][k - idx - 1] == pm[idx + 1..][k - idx - 1];
          assert pe'[idx + 1..][k - idx - 1] == pe[idx + 1..][k - idx - 1];
        }
      }
    }
    AgreeTransfer(pl', pm', pe', ms, c, d, idx + 1, masses);
    AgreeExtend(pl', pm', pe', ms, d, idx, masses);
  }

  /** The carry's test at idx, read off the partial log-probabilities, is CarryPasses. */
  lemma CarryTest(pl: seq<LogProb>, pm: seq<real>, pe: seq<real>, pl': seq<LogProb>,
                  ms: seq<Marginal>, maxC: seq<real>, cutoff: real, c: seq<int>, idx: nat)
    requires Agree(pl, pm, pe, ms, c, 1, false) && 1 <= idx < |c| && |maxC| >= |c| - 1 && |pl'| == |pl|
    requires pl'[idx + 1..] == pl[idx + 1..]
    requires pl'[idx] == Add(pl'[idx + 1], LProbAt(ms[idx], c[idx] + 1))
    ensures AtLeast(Add(pl'[idx], Finite(maxC[idx - 1])), cutoff) <==> CarryPasses(ms, maxC, cutoff, c, idx)
    ensures AtLeast(Add(pl'[idx], Finite(maxC[idx - 1])), cutoff) ==> c[idx] + 1 < |ms[idx].lProbs|
  {
    assert pl'[idx + 1] == pl'[idx + 1..][0] == pl[idx + 1..][0] == pl[idx + 1];
  }

  /**
   * The generator's state between steps, on values: a valid counter, the
   * partial arrays agreeing with it from index 1 and, for the log-probability,
   * at 0 as well, and the pointers one entry past counter[0]. When the object
   * keeps masses, the entries at 0 either agree with the counter (aligned) or
   * hold marginal 0's entry counter[0] + 1, as a fast-path step leaves them.
   */
  ghost predicate GenState(ms: seq<Marginal>, c: seq<int>, pl: seq<LogProb>, pm: seq<real>, pe: seq<real>,
                           ptr: int, mptr: int, eptr: int, countOnly: bool, aligned: bool)
  {
    && IsCounter(ms, c)
    && ptr == c[0] + 1
    && Agree(pl, pm, pe, ms, c, 1, !countOnly)
    && pl[0] == Total(ms, c)
    && (!countOnly ==> mptr == ptr && eptr == ptr)
    && (!countOnly && aligned ==> pm[0] == SumMass(ms, c, 0, |c|) && pe[0] == ProdEProb(ms, c, 0, |c|))
    && (!countOnly && !aligned ==> pm[0] == pm[1] + MassAt(ms[0], c[0] + 1) && ProductRule(pe[0], pe[1], ms[0], c[0] + 1))
  }

  /** The state recalc leaves behind, for any counter and with the entries at 0 aligned. */
  lemma RecalcState(ms: seq<Marginal>, c: seq<int>, pl: seq<LogProb>, pm: seq<real>, pe: seq<real>,
                    mp: int, ep: int, countOnly: bool, aligned: bool)
    requires IsCounter(ms, c) && Agree(pl, pm, pe, ms, c, 0, !countOnly)
    requires !countOnly ==> mp == c[0] + 1 && ep == c[0] + 1 && aligned
    ensures GenState(ms, c, pl, pm, pe, c[0] + 1, mp, ep, countOnly, aligned)
  {
  }

  /** A fast-path step that passes the cutoff. */
  lemma FastPassState(ms: seq<Marginal>, c: seq<int>, pl: seq<LogProb>, pm: seq<real>, pe: seq<real>,
                      pl': seq<LogProb>, pm': seq<real>, pe': seq<real>, p: int, cutoff: real, aligned: bool)
    requires GenState(ms, c, pl, pm, pe, p, p, p, false, aligned)
    requires pl' == pl[0 := Add(pl[1], LProbAt(ms[0], c[0] + 1))] && AtLeast(pl'[0], cutoff)
    requires pm' == pm[0 := pm[1] + MassAt(ms[0], c[0] + 2)]
    requires |pe'| == |pe| && pe'[1..] == pe[1..] && ProductRule(pe'[0], pe[1], ms[0], c[0] + 2)
    ensures FastPasses(ms, cutoff, c)
    ensures GenState(ms, Bumped(c, 0), pl', pm', pe', p + 1, p + 1, p + 1, false, false)
  {
    assert forall k :: 1 <= k < |pe| ==> pe'[k] == pe'[1..][k - 1] == pe[1..][k - 1] == pe[k];
    FastStep(pl, pm, pe, pl', pm', pe', ms, c, cutoff, true);
  }

  /** A fast-path step that falls below the cutoff, on its way into the carry. */
  lemma FastFailState(ms: seq<Marginal>, c: seq<int>, pl: seq<LogProb>, pm: seq<real>, pe: seq<real>,
                      pl': seq<LogProb>, p: int, mp: int, ep: int, cutoff: real, countOnly: bool, aligned: bool)
    requires GenState(ms, c, pl, pm, pe, p, mp, ep, countOnly, aligned)
    requires pl' == pl[0 := Add(pl[1], LProbAt(ms[0], c[0] + 1))] && !AtLeast(pl'[0], cutoff)
    ensures !FastPasses(ms, cutoff, c)
    ensures pl'[1..] == pl[1..]
  {
    FastStep(pl, pm, pe, pl', pm, pe, ms, c, cutoff, !countOnly);
  }

  /** IsoThresholdGeneratorCntr's fast path, when it passes the cutoff. */
  lemma CntrPassState(ms: seq<Marginal>, c: seq<int>, pl: seq<LogProb>, pm: seq<real>, pe: seq<real>,
                      pl': seq<LogProb>, p: int, mp: int, ep: int, cutoff: real, aligned: bool)
    requires GenState(ms, c, pl, pm, pe, p, mp, ep, true, aligned)
    requires pl' == pl[0 := Add(pl[1], LProbAt(ms[0], c[0] + 1))] && AtLeast(pl'[0], cutoff)
    ensures FastPasses(ms, cutoff, c)
    ensures GenState(ms, Bumped(c, 0), pl', pm, pe, p + 1, mp, ep, true, aligned)
  {
    FastStep(pl, pm, pe, pl', pm, pe, ms, c, cutoff, false);
  }

  /** A configuration's signature holds allDim ints: the isotope numbers summed. */
  lemma SignatureLength(ms: seq<Marginal>, ns: seq<nat>, x: seq<int>)
    requires |ns| == |ms| && forall k :: 0 <= k < |ms| ==> WellFormed(ms[k], ns[k])
    requires IsConf(ms, x)
    ensures forall k :: 0 <= k < |x| ==> 0 <= x[k] < |ms[k].confs|
    ensures |Flatten(Confs(ms, x))| == SumNat(ns)
  {
    FlattenLength(Confs(ms, x));
    assert Lengths(Confs(ms, x)) == ns;
  }

  class ThresholdGenerator {
    const dimNumber: nat
    const isotopeNumbers: seq<nat>
    /** marginalResults: one precalculated marginal per element, ordered by decreasing probability. */
    const marginals: seq<Marginal>
    const Lcutoff: real
    /** The object is an IsoThresholdGeneratorCntr, which keeps no masses or probabilities. */
    const countOnly: bool
    const maxConfsLPSum: array<real>
    const counter: array<int>
    const partialLProbs: array<LogProb>
    const partialMasses: array<real>
    const partialExpProbs: array<real>
    /** lProbs_ptr, mass_ptr and exp_ptr, as indices into marginal 0's tables. */
    var lProbsPtr: int
    var massPtr: int
    var expPtr: int
    /** terminate_search has been called. */
    var terminated: bool
    /**
     * The entries at 0 of partialMasses and partialExpProbs belong to the
     * counter: true after construction and after a carry, false after a
     * fast-path step, which reads them one entry further on.
     */
    ghost var aligned: bool

    /** The sizes and separation of the arrays. */
    ghost predicate Arrays()
      reads this
    {
      && dimNumber >= 1
      && |marginals| == dimNumber
      && maxConfsLPSum.Length == dimNumber - 1
      && counter.Length == dimNumber
      && partialLProbs.Length == dimNumber + 1
      && partialMasses.Length == dimNumber + 1
      && partialExpProbs.Length == dimNumber + 1
      && partialMasses != partialExpProbs
      && maxConfsLPSum != partialMasses && maxConfsLPSum != partialExpProbs
    }

    /** Arrays() and well-formed, non-empty marginal tables. */
    ghost predicate Shape()
      reads this
    {
      && Arrays()
      && |isotopeNumbers| == dimNumber
      && (forall k :: 0 <= k < dimNumber ==> WellFormed(marginals[k], isotopeNumbers[k]))
      && (forall k :: 0 <= k < dimNumber ==> |marginals[k].lProbs| >= 1)
    }

    /**
     * The partial arrays agree with the counter: entry k holds the value of
     * positions k..dimNumber-1, for every k >= 1 and, once the counter names a
     * configuration, for the log-probability at 0 as well. lProbs_ptr points
     * one entry past counter[0].
     */
    ghost predicate Consistent()
      reads this, counter, partialLProbs, partialMasses, partialExpProbs
    {
      GenState(marginals, counter[..], partialLProbs[..], partialMasses[..], partialExpProbs[..],
               lProbsPtr, massPtr, expPtr, countOnly, aligned)
    }

    ghost predicate Valid()
      reads this, counter, partialLProbs, partialMasses, partialExpProbs
    {
      Shape() && (!terminated ==> Consistent())
    }

    /**
     * A generator positioned before the first configuration: counter[0] is one
     * below marginal 0's first entry, every other position at its first entry,
     * and the pointers at the start of marginal 0's tables.
     */
    constructor (isotopeNumbers: seq<nat>, marginals: seq<Marginal>, Lcutoff: real, maxConfsLPSum: seq<real>, countOnly: bool)
      requires |marginals| >= 1 && |isotopeNumbers| == |marginals| && |maxConfsLPSum| == |marginals| - 1
      requires forall k :: 0 <= k < |marginals| ==> WellFormed(marginals[k], isotopeNumbers[k]) && |marginals[k].lProbs| >= 1
      ensures Valid() && !terminated && aligned
      ensures this.dimNumber == |marginals| && this.marginals == marginals && this.isotopeNumbers == isotopeNumbers
      ensures this.Lcutoff == Lcutoff && this.countOnly == countOnly && this.maxConfsLPSum[..] == maxConfsLPSum
      ensures counter[..] == [-1] + Modes(|marginals| - 1)
      ensures fresh(counter) && fresh(partialLProbs) && fresh(partialMasses) && fresh(partialExpProbs)
      ensures fresh(this.maxConfsLPSum)
    {
      var n := |marginals|;
      var start := [-1] + Modes(n - 1);
      this.dimNumber := n;
      this.isotopeNumbers := isotopeNumbers;
      this.marginals := marginals;
      this.Lcutoff := Lcutoff;
      this.countOnly := countOnly;
      this.maxConfsLPSum := new real[n - 1](i requires 0 <= i < n - 1 => maxConfsLPSum[i]);
      this.counter := new int[n](k requires 0 <= k < n => start[k]);
      this.partialLProbs := new LogProb[n + 1](k requires 0 <= k <= n => SumLP(marginals, start, k, n));
      this.partialMasses := new real[n + 1](k requires 0 <= k <= n => SumMass(marginals, start, k, n));
      this.partialExpProbs := new real[n + 1](k requires 0 <= k <= n => ProdEProb(marginals, start, k, n));
      this.lProbsPtr := 0;
      this.massPtr := 0;
      this.expPtr := 0;
      this.terminated := false;
      this.aligned := true;
      new;
      assert counter[..] == start;
      RecalcState(marginals, start, partialLProbs[..], partialMasses[..], partialExpProbs[..], 0, 0, countOnly, true);
    }

    /** lprob(): the log-probability of the current configuration. */
    function LProb(): (r: LogProb)
      reads this, counter, partialLProbs, partialMasses, partialExpProbs
      requires Valid() && !terminated
      ensures r == Total(marginals, counter[..])
    {
      partialLProbs[0]
    }

    /**
     * mass(): the mass of the current configuration after a carry; after a
     * fast-path step, marginal 0 contributes the mass of entry counter[0] + 1.
     */
    function Mass(): (r: real)
      reads this, counter, partialLProbs, partialMasses, partialExpProbs
      requires Valid() && !terminated && !countOnly
      ensures aligned ==> r == SumMass(marginals, counter[..], 0, dimNumber)
      ensures !aligned ==> r == SumMass(marginals, counter[..], 1, dimNumber) + MassAt(marginals[0], counter[0] + 1)
    {
      partialMasses[0]
    }

    /** eprob(): the probability of the current configuration, with the same reading of marginal 0 as Mass(). */
    function EProb(): (r: real)
      reads this, counter, partialLProbs, partialMasses, partialExpProbs
      requires Valid() && !terminated && !countOnly
      ensures aligned ==> r == ProdEProb(marginals, counter[..], 0, dimNumber)
      ensures !aligned ==> ProductRule(r, ProdEProb(marginals, counter[..], 1, dimNumber), marginals[0], counter[0] + 1)
    {
      partialExpProbs[0]
    }

    /**
     * IsoThresholdGeneratorFast::advanceToNextConfiguration: position 0 moves
     * one entry on; if that falls below the cutoff, the carry resets lower
     * positions and moves the first higher position whose bound still reaches
     * the cutoff, or the search ends.
     */
    method AdvanceFast() returns (ok: bool)
      requires Valid() && !terminated && !countOnly
      modifies this, counter, partialLProbs, partialMasses, partialExpProbs
      ensures Valid()
      ensures ok == Next(marginals, maxConfsLPSum[..], Lcutoff, old(counter[..])).Some?
      ensures ok ==> !terminated && counter[..] == Next(marginals, maxConfsLPSum[..], Lcutoff, old(counter[..])).value
      ensures ok ==> (aligned <==> StopOf(marginals, maxConfsLPSum[..], Lcutoff, old(counter[..])) != Some(0))
      ensures !ok ==> terminated && counter[..] == Bumped(old(counter[..]), dimNumber - 1)
    {
      ghost var c, al := counter[..], aligned;
      ghost var pl, pm, pe := partialLProbs[..], partialMasses[..], partialExpProbs[..];
      counter[0] := counter[0] + 1;
      partialLProbs[0] := Add(partialLProbs[1], LProbAt(marginals[0], lProbsPtr));
      lProbsPtr := lProbsPtr + 1;
      massPtr := massPtr + 1;
      expPtr := expPtr + 1;
      assert counter[..] == Bumped(c, 0);
      if AtLeast(partialLProbs[0], Lcutoff) {
        partialMasses[0] := partialMasses[1] + MassAt(marginals[0], massPtr);
        var e := partialExpProbs[1] * EProbAt(marginals[0], expPtr);
        assert ProductRule(e, partialExpProbs[1], marginals[0], expPtr);
        partialExpProbs[0] := e;
        aligned := false;
        FastPassState(marginals, c, pl, pm, pe, partialLProbs[..], partialMasses[..], partialExpProbs[..], c[0] + 1, Lcutoff, al);
        return true;
      }
      FastFailState(marginals, c, pl, pm, pe, partialLProbs[..], c[0] + 1, c[0] + 1, c[0] + 1, Lcutoff, false, al);
      ok := Carry(c, pl, pm, pe);
      if ok {
        RecalcState(marginals, counter[..], partialLProbs[..], partialMasses[..], partialExpProbs[..], 1, 1, false, true);
      }
    }

    /**
     * The carry of IsoThresholdGeneratorFast::advanceToNextConfiguration,
     * entered with position 0 already moved past the cutoff.
     */
    method Carry(ghost c: seq<int>, ghost pl: seq<LogProb>, ghost pm: seq<real>, ghost pe: seq<real>) returns (ok: bool)
      requires Arrays() && !countOnly && !terminated
      requires forall k :: 0 <= k < dimNumber ==> |marginals[k].lProbs| >= 1
      requires IsCounter(marginals, c) && Agree(pl, pm, pe, marginals, c, 1, true)
      requires !FastPasses(marginals, Lcutoff, c)
      requires counter[..] == Bumped(c, 0)
      requires partialLProbs[1..] == pl[1..]
      requires partialMasses[..] == pm && partialExpProbs[..] == pe
      modifies this, counter, partialLProbs, partialMasses, partialExpProbs
      ensures ok == FirstCarry(marginals, maxConfsLPSum[..], Lcutoff, c, 1).Some?
      ensures ok ==> counter[..] == Bumped(c, FirstCarry(marginals, maxConfsLPSum[..], Lcutoff, c, 1).value)
      ensures ok ==> IsCounter(marginals, counter[..])
      ensures ok ==> Agree(partialLProbs[..], partialMasses[..], partialExpProbs[..], marginals, counter[..], 0, true)
      ensures ok ==> !terminated && aligned && lProbsPtr == 1 && massPtr == 1 && expPtr == 1
      ensures !ok ==> terminated && counter[..] == Bumped(c, dimNumber - 1)
    {
      lProbsPtr := 1;
      massPtr := 1;
      expPtr := 1;
      var passed, idx := FindCarry(c, pl, pm, pe);
      if passed {
        Settle(c, pl, pm, pe, idx);
        aligned := true;
        return true;
      }
      terminated := true;
      return false;
    }

    /**
     * The carry's search: reset the position below, move position idx one
     * up and test its bound, until a test passes or the positions run out.
     */
    method FindCarry(ghost c: seq<int>, ghost pl: seq<LogProb>, ghost pm: seq<real>, ghost pe: seq<real>) returns (passed: bool, idx: nat)
      requires Arrays()
      requires IsCounter(marginals, c) && Agree(pl, pm, pe, marginals, c, 1, false)
      requires counter[..] == Bumped(c, 0)
      requires partialLProbs[1..] == pl[1..]
      modifies counter, partialLProbs
      ensures passed ==> FirstCarry(marginals, maxConfsLPSum[..], Lcutoff, c, 1) == Some(idx)
      ensures passed ==> 1 <= idx < dimNumber && counter[..] == Bumped(c, idx)
      ensures passed ==> partialLProbs[idx + 1..] == pl[idx + 1..]
      ensures passed ==> partialLProbs[idx] == Add(partialLProbs[idx + 1], LProbAt(marginals[idx], counter[idx]))
      ensures passed ==> counter[idx] < |marginals[idx].lProbs|
      ensures !passed ==> FirstCarry(marginals, maxConfsLPSum[..], Lcutoff, c, 1) == None
      ensures !passed ==> counter[..] == Bumped(c, dimNumber - 1)
    {
      ghost var maxC := maxConfsLPSum[..];
      idx := 0;
      passed := false;
      while idx < dimNumber - 1
        invariant 0 <= idx <= dimNumber - 1
        invariant counter[..] == Bumped(c, idx)
        invariant partialLProbs[idx + 1..] == pl[idx + 1..]
        invariant forall i :: 1 <= i <= idx ==> !CarryPasses(marginals, maxC, Lcutoff, c, i)
      {
        BumpedNext(c, idx);
        counter[idx] := 0;
        idx := idx + 1;
        counter[idx] := counter[idx] + 1;
        SuffixShrinks(partialLProbs[..], pl, idx);
        ghost var before := partialLProbs[..];
        partialLProbs[idx] := Add(partialLProbs[idx + 1], LProbAt(marginals[idx], counter[idx]));
        assert partialLProbs[idx + 1..] == before[idx + 1..];
        CarryTest(pl, pm, pe, partialLProbs[..], marginals, maxC, Lcutoff, c, idx);
        if AtLeast(Add(partialLProbs[idx], Finite(maxConfsLPSum[idx - 1])), Lcutoff) {
          FirstCarryAt(marginals, maxC, Lcutoff, c, idx);
          return true, idx;
        }
      }
      FirstCarryNone(marginals, maxC, Lcutoff, c);
    }

    /**
     * The end of a carry that stops at idx: the mass and probability at idx,
     * then recalc(idx - 1) for the positions below.
     */
    method Settle(ghost c: seq<int>, ghost pl: seq<LogProb>, ghost pm: seq<real>, ghost pe: seq<real>, idx: nat)
      requires Arrays() && 1 <= idx < dimNumber
      requires Agree(pl, pm, pe, marginals, c, 1, true)
      requires counter[..] == Bumped(c, idx)
      requires partialLProbs[idx + 1..] == pl[idx + 1..]
      requires partialLProbs[idx] == Add(partialLProbs[idx + 1], LProbAt(marginals[idx], counter[idx]))
      requires partialMasses[..] == pm && partialExpProbs[..] == pe
      modifies partialLProbs, partialMasses, partialExpProbs
      ensures Agree(partialLProbs[..], partialMasses[..], partialExpProbs[..], marginals, counter[..], 0, true)
    {
      partialMasses[idx] := partialMasses[idx + 1] + MassAt(marginals[idx], counter[idx]);
      var e := partialExpProbs[idx + 1] * EProbAt(marginals[idx], counter[idx]);
      assert ProductRule(e, partialExpProbs[idx + 1], marginals[idx], counter[idx]);
      partialExpProbs[idx] := e;
      CarryStep(pl, pm, pe, partialLProbs[..], partialMasses[..], partialExpProbs[..], marginals, c, idx, true);
      ghost var pl1, pm1, pe1 := partialLProbs[..], partialMasses[..], partialExpProbs[..];
      Recalc(idx - 1);
      RecalcRestores(pl1, pm1, pe1, partialLProbs[..], partialMasses[..], partialExpProbs[..], marginals, counter[..], idx);
    }

    /**
     * IsoThresholdGeneratorCntr::advanceToNextConfiguration: the same walk
     * over the counter, keeping only the log-probabilities.
     */
    method AdvanceCntr() returns (ok: bool)
      requires Valid() && !terminated && countOnly
      modifies this, counter, partialLProbs
      ensures Valid()
      ensures ok == Next(marginals, maxConfsLPSum[..], Lcutoff, old(counter[..])).Some?
      ensures ok ==> !terminated && counter[..] == Next(marginals, maxConfsLPSum[..], Lcutoff, old(counter[..])).value
      ensures !ok ==> terminated && counter[..] == Bumped(old(counter[..]), dimNumber - 1)
    {
      ghost var c, al, mp, ep := counter[..], aligned, massPtr, expPtr;
      ghost var pl, pm, pe := partialLProbs[..], partialMasses[..], partialExpProbs[..];
      counter[0] := counter[0] + 1;
      partialLProbs[0] := Add(partialLProbs[1], LProbAt(marginals[0], lProbsPtr));
      lProbsPtr := lProbsPtr + 1;
      assert counter[..] == Bumped(c, 0);
      if AtLeast(partialLProbs[0], Lcutoff) {
        CntrPassState(marginals, c, pl, pm, pe, partialLProbs[..], c[0] + 1, mp, ep, Lcutoff, al);
        return true;
      }
      FastFailState(marginals, c, pl, pm, pe, partialLProbs[..], c[0] + 1, mp, ep, Lcutoff, true, al);
      ok := CarryCntr(c, pl, pm, pe);
      if ok {
        RecalcState(marginals, counter[..], partialLProbs[..], partialMasses[..], partialExpProbs[..], massPtr, expPtr, true, aligned);
      }
    }

    /** The carry of IsoThresholdGeneratorCntr::advanceToNextConfiguration. */
    method CarryCntr(ghost c: seq<int>, ghost pl: seq<LogProb>, ghost pm: seq<real>, ghost pe: seq<real>) returns (ok: bool)
      requires Arrays() && countOnly && !terminated
      requires forall k :: 0 <= k < dimNumber ==> |marginals[k].lProbs| >= 1
      requires IsCounter(marginals, c) && Agree(pl, pm, pe, marginals, c, 1, false)
      requires !FastPasses(marginals, Lcutoff, c)
      requires counter[..] == Bumped(c, 0)
      requires partialLProbs[1..] == pl[1..]
      modifies this, counter, partialLProbs
      ensures ok == FirstCarry(marginals, maxConfsLPSum[..], Lcutoff, c, 1).Some?
      ensures ok ==> counter[..] == Bumped(c, FirstCarry(marginals, maxConfsLPSum[..], Lcutoff, c, 1).value)
      ensures ok ==> IsCounter(marginals, counter[..])
      ensures ok ==> Agree(partialLProbs[..], partialMasses[..], partialExpProbs[..], marginals, counter[..], 0, false)
      ensures ok ==> !terminated && lProbsPtr == 1
      ensures !ok ==> terminated && counter[..] == Bumped(c, dimNumber - 1)
    {
      lProbsPtr := 1;
      var passed, idx := FindCarry(c, pl, pm, pe);
      if passed {
        ghost var pl1 := partialLProbs[..];
        CarryStep(pl, pm, pe, pl1, partialMasses[..], partialExpProbs[..], marginals, c, idx, false);
        RecalcLProbs(idx - 1);
        RecalcLProbsRestores(pl1, partialLProbs[..], partialMasses[..], partialExpProbs[..], marginals, counter[..], idx);
        return true;
      }
      terminated := true;
      return false;
    }

    /**
     * IsoThresholdGenerator::get_conf_signature: the count vectors of the
     * sub-isotopologues the counter names, element by element, into space.
     */
    method ConfSignature(space: array<int>)
      requires Valid() && !terminated && IsConf(marginals, counter[..])
      requires space != counter && space.Length >= SumNat(isotopeNumbers)
      modifies space
      ensures space[..SumNat(isotopeNumbers)] == Flatten(Confs(marginals, counter[..]))
      ensures space[SumNat(isotopeNumbers)..] == old(space[SumNat(isotopeNumbers)..])
    {
      SignatureLength(marginals, isotopeNumbers, counter[..]);
      WriteParts(space, Confs(marginals, counter[..]));
    }

    /** recalc(idx): rewrites positions idx down to 0 from the entry above and counter[k]. */
    method Recalc(idx: int)
      requires Arrays() && -1 <= idx < dimNumber
      modifies partialLProbs, partialMasses, partialExpProbs
      ensures RecalcRules(partialLProbs[..], partialMasses[..], partialExpProbs[..], marginals, counter[..], 0, idx + 1)
      ensures partialLProbs[idx + 1..] == old(partialLProbs[idx + 1..])
      ensures partialMasses[idx + 1..] == old(partialMasses[idx + 1..])
      ensures partialExpProbs[idx + 1..] == old(partialExpProbs[idx + 1..])
    {
      ghost var pl, pm, pe := partialLProbs[..], partialMasses[..], partialExpProbs[..];
      ghost var c := counter[..];
      var i := idx;
      while i >= 0
        invariant -1 <= i <= idx
        invariant partialLProbs[..] == pl && partialMasses[..] == pm && partialExpProbs[..] == pe
        invariant RecalcRules(pl, pm, pe, marginals, c, i + 1, idx + 1)
        invariant pl[idx + 1..] == old(partialLProbs[idx + 1..])
        invariant pm[idx + 1..] == old(partialMasses[idx + 1..])
        invariant pe[idx + 1..] == old(partialExpProbs[idx + 1..])
      {
        var e := partialExpProbs[i + 1] * EProbAt(marginals[i], counter[i]);
        assert ProductRule(e, partialExpProbs[i + 1], marginals[i], counter[i]);
        var l := Add(partialLProbs[i + 1], LProbAt(marginals[i], counter[i]));
        var m := partialMasses[i + 1] + MassAt(marginals[i], counter[i]);
        partialLProbs[i] := l;
        partialMasses[i] := m;
        partialExpProbs[i] := e;
        RecalcRulesExtend(pl, pm, pe, pl[i := l], pm[i := m], pe[i := e], marginals, c, i, idx + 1);
        pl, pm, pe := pl[i := l], pm[i := m], pe[i := e];
        i := i - 1;
      }
    }

    /** IsoThresholdGeneratorCntr's recalc(idx): log-probabilities only. */
    method RecalcLProbs(idx: int)
      requires Arrays() && -1 <= idx < dimNumber
      modifies partialLProbs
      ensures forall k :: 0 <= k <= idx ==> partialLProbs[k] == Add(partialLProbs[k + 1], LProbAt(marginals[k], counter[k]))
      ensures forall k :: idx < k <= dimNumber ==> partialLProbs[k] == old(partialLProbs[k])
    {
      var i := idx;
      while i >= 0
        invariant -1 <= i <= idx
        invariant forall k :: i < k <= idx ==> partialLProbs[k] == Add(partialLProbs[k + 1], LProbAt(marginals[k], counter[k]))
        invariant partialLProbs[idx + 1..] == old(partialLProbs[idx + 1..])
      {
        partialLProbs[i] := Add(partialLProbs[i + 1], LProbAt(marginals[i], counter[i]));
        i := i - 1;
      }
    }
  }

  /**
   * A freshly built Fast generator and its first advance: the first
   * configuration is the step `Next` takes from [-1, 0, ..., 0].
   */
  method FirstConfiguration(isotopeNumbers: seq<nat>, marginals: seq<Marginal>, Lcutoff: real, maxConfsLPSum: seq<real>)
    returns (ok: bool, conf: seq<int>)
    requires |marginals| >= 1 && |isotopeNumbers| == |marginals| && |maxConfsLPSum| == |marginals| - 1
    requires forall k :: 0 <= k < |marginals| ==> WellFormed(marginals[k], isotopeNumbers[k]) && |marginals[k].lProbs| >= 1
    ensures ok == Next(marginals, maxConfsLPSum, Lcutoff, [-1] + Modes(|marginals| - 1)).Some?
    ensures ok ==> conf == Next(marginals, maxConfsLPSum, Lcutoff, [-1] + Modes(|marginals| - 1)).value
  {
    var g := new ThresholdGenerator(isotopeNumbers, marginals, Lcutoff, maxConfsLPSum, false);
    ok := g.AdvanceFast();
    conf := g.counter[..];
  }
}
