/**
 * The signature writer of the ordered generator. Its current configuration
 * is an index vector into the sub-isotopologues each marginal trek has
 * produced; when ccount >= 0 the stored vector is one ahead at position
 * ccount, so the writer steps that position back while it reads and
 * restores it afterwards.
 */
module OrderedGenerators {
  import opened Signatures

  /** The index vector the signature is read from: position cc one back when cc >= 0. */
  function ReadIndices(c: seq<int>, cc: int): (r: seq<int>)
    requires -1 <= cc < |c|
    ensures |r| == |c|
    ensures forall ii :: 0 <= ii < |c| ==> r[ii] == if ii == cc then c[ii] - 1 else c[ii]
  {
    if cc >= 0 then c[cc := c[cc] - 1] else c
  }

  /** Every index of x names a sub-isotopologue its trek has produced. */
  ghost predicate Names(confs: seq<seq<seq<int>>>, x: seq<int>)
  {
    |x| == |confs| && forall ii :: 0 <= ii < |x| ==> 0 <= x[ii] < |confs[ii]|
  }

  /** The count vectors x names, one per element. */
  function Parts(confs: seq<seq<seq<int>>>, x: seq<int>): (parts: seq<seq<int>>)
    requires Names(confs, x)
    ensures |parts| == |x|
  {
    seq(|x|, ii requires 0 <= ii < |x| => confs[ii][x[ii]])
  }

  /** Every produced sub-isotopologue of element ii has isotopeNumbers[ii] counts. */
  ghost predicate Shaped(confs: seq<seq<seq<int>>>, ns: seq<nat>)
  {
    |confs| == |ns| && forall ii, j :: 0 <= ii < |confs| && 0 <= j < |confs[ii]| ==> |confs[ii][j]| == ns[ii]
  }

  /** A signature of the ordered generator holds allDim ints. */
  lemma SignatureLength(confs: seq<seq<seq<int>>>, ns: seq<nat>, x: seq<int>)
    requires Shaped(confs, ns) && Names(confs, x)
    ensures |Flatten(Parts(confs, x))| == SumNat(ns)
  {
    FlattenLength(Parts(confs, x));
    assert Lengths(Parts(confs, x)) == ns;
  }

  class OrderedGenerator {
    const dimNumber: nat
    const isotopeNumbers: seq<nat>
    /** marginalResults[ii]->confs(): the sub-isotopologues of element ii produced so far. */
    const confs: seq<seq<seq<int>>>
    /** getConf(topConf): the index vector of the current configuration. */
    const topConf: array<int>
    var ccount: int

    ghost predicate Valid()
      reads this
    {
      && |isotopeNumbers| == dimNumber
      && Shaped(confs, isotopeNumbers)
      && topConf.Length == dimNumber
      && -1 <= ccount < dimNumber
    }

    /** Stands in for the move-constructor, which is not part of this model: the state is given. */
    constructor (isotopeNumbers: seq<nat>, confs: seq<seq<seq<int>>>, top: seq<int>, ccount: int)
      requires Shaped(confs, isotopeNumbers) && |top| == |confs| && -1 <= ccount < |confs|
      ensures Valid()
      ensures this.isotopeNumbers == isotopeNumbers && this.confs == confs && this.ccount == ccount
      ensures topConf[..] == top && fresh(topConf)
    {
      dimNumber := |isotopeNumbers|;
      this.isotopeNumbers := isotopeNumbers;
      this.confs := confs;
      this.ccount := ccount;
      topConf := new int[|top|](k requires 0 <= k < |top| => top[k]);
    }

    /**
     * IsoOrderedGenerator::get_conf_signature: writes the count vectors of
     * the configuration, element ccount read one index back, and leaves the
     * stored index vector as it found it.
     */
    method GetConfSignature(space: array<int>)
      requires Valid() && space != topConf
      requires Names(confs, ReadIndices(topConf[..], ccount))
      requires space.Length >= SumNat(isotopeNumbers)
      modifies space, topConf
      ensures topConf[..] == old(topConf[..])
      ensures space[..SumNat(isotopeNumbers)] == Flatten(Parts(confs, ReadIndices(old(topConf[..]), ccount)))
      ensures space[SumNat(isotopeNumbers)..] == old(space[SumNat(isotopeNumbers)..])
    {
      ghost var top := topConf[..];
      if ccount >= 0 {
        topConf[ccount] := topConf[ccount] - 1;
      }
      assert topConf[..] == ReadIndices(top, ccount);
      SignatureLength(confs, isotopeNumbers, topConf[..]);
      WriteParts(space, Parts(confs, topConf[..]));
      if ccount >= 0 {
        topConf[ccount] := topConf[ccount] + 1;
      }
      assert topConf[..] == top;
    }
  }
}
