/**
 * The configuration helpers of misc.h: table lookups summed
 * along a configuration, the mass of a configuration, the comparator on
 * (double, double, int*) triples by their second component, and the array copy.
 */
module Misc {

  /** The values of positions 0..d-1 of conf looked up in their tables, summed. */
  function LookupSum(conf: seq<int>, values: seq<seq<real>>, d: nat): (r: real)
    requires d <= |conf| && d <= |values|
    requires forall i :: 0 <= i < d ==> 0 <= conf[i] < |values[i]|
    ensures (forall i :: 0 <= i < d ==> values[i][conf[i]] <= 0.0) ==> r <= 0.0
    ensures (forall i :: 0 <= i < d ==> values[i][conf[i]] >= 0.0) ==> r >= 0.0
  {
    if d == 0 then 0.0 else LookupSum(conf, values, d - 1) + values[d - 1][conf[d - 1]]
  }

  /** combinedSum: accumulates the looked-up values in a loop. */
  method CombinedSum(conf: array<int>, values: seq<seq<real>>, dimNumber: nat) returns (res: real)
    requires dimNumber <= conf.Length && dimNumber <= |values|
    requires forall i :: 0 <= i < dimNumber ==> 0 <= conf[i] < |values[i]|
    ensures res == LookupSum(conf[..], values, dimNumber)
  {
    res := 0.0;
    for i := 0 to dimNumber
      invariant res == LookupSum(conf[..], values, i)
    {
      res := res + values[i][conf[i]];
    }
  }

  /** Changing position j of the configuration moves the sum by the difference of the two table entries. */
  lemma {:induction false} LookupSumUpdate(conf: seq<int>, values: seq<seq<real>>, d: nat, j: nat, v: int)
    requires d <= |conf| && d <= |values| && j < |conf|
    requires forall i :: 0 <= i < d ==> 0 <= conf[i] < |values[i]|
    requires j < d ==> 0 <= v < |values[j]|
    ensures LookupSum(conf[j := v], values, d)
            == LookupSum(conf, values, d) + (if j < d then values[j][v] - values[j][conf[j]] else 0.0)
  {
    if d > 0 {
      LookupSumUpdate(conf, values, d - 1, j, v);
    }
  }

  /** The dot product of the counts in positions 0..d-1 with their masses. */
  function DotMass(conf: seq<int>, masses: seq<real>, d: nat): (r: real)
    requires d <= |conf| && d <= |masses|
    ensures (forall i :: 0 <= i < d ==> conf[i] >= 0 && masses[i] >= 0.0) ==> r >= 0.0
  {
    if d == 0 then 0.0 else DotMass(conf, masses, d - 1) + (conf[d - 1] as real) * masses[d - 1]
  }

  /** mass: accumulates count times mass in a loop. */
  method Mass(conf: array<int>, masses: array<real>, dim: nat) returns (res: real)
    requires dim <= conf.Length && dim <= masses.Length
    ensures res == DotMass(conf[..], masses[..], dim)
  {
    res := 0.0;
    for i := 0 to dim
      invariant res == DotMass(conf[..], masses[..], i)
    {
      res := res + (conf[i] as real) * masses[i];
    }
  }

  /** Two configurations added count by count. */
  function Plus(a: seq<int>, b: seq<int>): (r: seq<int>)
    requires |a| == |b|
    ensures |r| == |a| && forall i :: 0 <= i < |a| ==> r[i] == a[i] + b[i]
  {
    seq(|a|, i requires 0 <= i < |a| => a[i] + b[i])
  }

  /** The mass of a combined configuration is the sum of the masses of its parts. */
  lemma {:induction false} MassAdditive(a: seq<int>, b: seq<int>, masses: seq<real>, d: nat)
    requires |a| == |b| && d <= |a| && d <= |masses|
    ensures DotMass(Plus(a, b), masses, d) == DotMass(a, masses, d) + DotMass(b, masses, d)
  {
    if d > 0 {
      MassAdditive(a, b, masses, d - 1);
      assert (Plus(a, b)[d - 1] as real) * masses[d - 1]
          == (a[d - 1] as real) * masses[d - 1] + (b[d - 1] as real) * masses[d - 1];
    }
  }

  /** The configuration with no atoms of any isotope weighs nothing. */
  lemma {:induction false} MassOfZero(conf: seq<int>, masses: seq<real>, d: nat)
    requires d <= |conf| && d <= |masses|
    requires forall i :: 0 <= i < d ==> conf[i] == 0
    ensures DotMass(conf, masses, d) == 0.0
  {
    if d > 0 {
      MassOfZero(conf, masses, d - 1);
    }
  }

  /** The (double, double, int*) triples tupleCmp takes; the pointer is a configuration vector. */
  type Entry = (real, real, seq<int>)

  /** tupleCmp: (double, double, int*) triples compared on their second component, the larger first. */
  function TupleCmp(t1: Entry, t2: Entry): (before: bool)
    ensures before ==> t1.1 != t2.1 && t1 != t2
  {
    t1.1 > t2.1
  }

  /** tupleCmp is a strict order: irreflexive, asymmetric and transitive. */
  lemma TupleCmpStrict(t1: Entry, t2: Entry, t3: Entry)
    ensures !TupleCmp(t1, t1)
    ensures TupleCmp(t1, t2) ==> !TupleCmp(t2, t1)
    ensures TupleCmp(t1, t2) && TupleCmp(t2, t3) ==> TupleCmp(t1, t3)
  {
  }

  /**
   * Two triples are incomparable exactly when their second components are equal,
   * whatever their other parts, so incomparability is an equivalence and
   * tupleCmp is a strict weak order.
   */
  lemma TupleCmpIgnoresRest(t1: Entry, t2: Entry)
    ensures !TupleCmp(t1, t2) && !TupleCmp(t2, t1) <==> t1.1 == t2.1
  {
  }

  /** array_copy: a fresh array holding the first size elements of A. */
  method ArrayCopy<T>(A: array<T>, size: nat) returns (ret: array<T>)
    requires size <= A.Length
    ensures fresh(ret) && ret[..] == A[..size]
  {
    ret := new T[size](i reads A requires 0 <= i < size => A[i]);
  }
}
