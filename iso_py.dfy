/**
 * The Python Iso object's set-up and the helpers that read configurations
 * back: which arguments win, the isotope numbers, the offsets of each
 * element's isotopes in a flat configuration, and parse_conf, which turns a
 * flat signature back into one tuple per element.
 */
module PyIso {
  import opened Wrappers
  import opened PythonText
  import opened Formulas
  import opened Signatures

  /** The attributes Iso.__init__ leaves behind (apart from the foreign handle). */
  datatype IsoFields = IsoFields(
    atomCounts: seq<int>,
    isotopeMasses: seq<seq<real>>,
    isotopeProbabilities: seq<seq<real>>,
    isotopeNumbers: seq<nat>,
    dimNumber: nat)

  /** Python truth of an optional sequence argument: given and non-empty. */
  predicate Truthy<T>(o: Option<seq<T>>)
  {
    o.Some? && |o.value| > 0
  }

  /** An argument given explicitly (not None) wins over the formula-derived value. */
  function Pick<T>(explicit: Option<T>, derived: T): T
  {
    if explicit.Some? then explicit.value else derived
  }

  /** map(len, xs). */
  function Sizes<T>(xs: seq<seq<T>>): (ns: seq<nat>)
    ensures |ns| == |xs| && forall j :: 0 <= j < |xs| ==> ns[j] == |xs[j]|
  {
    seq(|xs|, j requires 0 <= j < |xs| => |xs[j]|)
  }

  /** What the formula yields when it is given and parses; empty tables otherwise. */
  function Derived(formula: Option<string>, table: Table): FormulaParams
  {
    if formula.Some? && ParamsOf(formula.value, table).Success? then ParamsOf(formula.value, table).value
    else FormulaParams([], [], [])
  }

  /** The arguments get past the first two checks: the tables or a formula are given, and the formula parses. */
  predicate Accepted(formula: Option<string>, atomCounts: Option<seq<int>>, isotopeMasses: Option<seq<seq<real>>>,
                     isotopeProbabilities: Option<seq<seq<real>>>, table: Table)
  {
    && (formula.Some? || (Truthy(atomCounts) && Truthy(isotopeMasses) && Truthy(isotopeProbabilities)))
    && (formula.Some? ==> ParamsOf(formula.value, table).Success?)
  }

  /** The assertion of Iso.__init__: the chosen mass and probability tables have the same lengths. */
  predicate SizesAgree(formula: Option<string>, isotopeMasses: Option<seq<seq<real>>>,
                       isotopeProbabilities: Option<seq<seq<real>>>, table: Table)
  {
    Sizes(Pick(isotopeMasses, Derived(formula, table).masses)) == Sizes(Pick(isotopeProbabilities, Derived(formula, table).probs))
  }

  const MissingArguments := "Either formula or ALL of: atomCounts, isotopeMasses, isotopeProbabilities must not be None"

  /**
   * Iso.__init__ up to the foreign set-up call: either the formula or all
   * three tables must be given; the formula is parsed when given; explicit
   * arguments override what it yields; the isotope numbers are the lengths
   * of the mass tables and must match the lengths of the probability tables.
   */
  function IsoInit(formula: Option<string>, atomCounts: Option<seq<int>>, isotopeMasses: Option<seq<seq<real>>>,
                   isotopeProbabilities: Option<seq<seq<real>>>, table: Table): (r: Result<IsoFields, PyError>)
    ensures formula.None? && !(Truthy(atomCounts) && Truthy(isotopeMasses) && Truthy(isotopeProbabilities))
            ==> r == Failure(Exception(MissingArguments))
    ensures formula.Some? && ParamsOf(formula.value, table).Failure? ==> r == Failure(ValueError("Invalid formula"))
    ensures r.Success? ==>
      && (atomCounts.Some? ==> r.value.atomCounts == atomCounts.value)
      && (isotopeMasses.Some? ==> r.value.isotopeMasses == isotopeMasses.value)
      && (isotopeProbabilities.Some? ==> r.value.isotopeProbabilities == isotopeProbabilities.value)
    ensures r.Success? && atomCounts.None? ==> formula.Some? && r.value.atomCounts == ParamsOf(formula.value, table).value.atomCounts
    ensures r.Success? && isotopeMasses.None? ==> formula.Some? && r.value.isotopeMasses == ParamsOf(formula.value, table).value.masses
    ensures r.Success? && isotopeProbabilities.None? ==> formula.Some? && r.value.isotopeProbabilities == ParamsOf(formula.value, table).value.probs
    ensures r.Success? ==>
      && r.value.dimNumber == |r.value.isotopeNumbers| == |r.value.isotopeMasses| == |r.value.isotopeProbabilities|
      && forall j :: 0 <= j < r.value.dimNumber ==>
           r.value.isotopeNumbers[j] == |r.value.isotopeMasses[j]| == |r.value.isotopeProbabilities[j]|
    ensures r.Failure? ==> r.error in {Exception(MissingArguments), ValueError("Invalid formula"), AssertionError}
    ensures r == Failure(AssertionError) <==>
      Accepted(formula, atomCounts, isotopeMasses, isotopeProbabilities, table)
      && !SizesAgree(formula, isotopeMasses, isotopeProbabilities, table)
    ensures r.Success? <==>
      Accepted(formula, atomCounts, isotopeMasses, isotopeProbabilities, table)
      && SizesAgree(formula, isotopeMasses, isotopeProbabilities, table)
  {
    if formula.None? && !(Truthy(atomCounts) && Truthy(isotopeMasses) && Truthy(isotopeProbabilities)) then
      Failure(Exception(MissingArguments))
    else if formula.Some? && ParamsOf(formula.value, table).Failure? then
      Failure(ParamsOf(formula.value, table).error)
    else
      var derived := Derived(formula, table);
      var masses := Pick(isotopeMasses, derived.masses);
      var probs := Pick(isotopeProbabilities, derived.probs);
      var isotopeNumbers := Sizes(masses);
      if isotopeNumbers != Sizes(probs) then Failure(AssertionError)
      else Success(IsoFields(Pick(atomCounts, derived.atomCounts), masses, probs, isotopeNumbers, |isotopeNumbers|))
  }

  /** Tables whose lengths disagree fail the assertion, however they were obtained. */
  lemma MismatchFails(formula: Option<string>, atomCounts: Option<seq<int>>, isotopeMasses: Option<seq<seq<real>>>,
                      isotopeProbabilities: Option<seq<seq<real>>>, table: Table, j: nat)
    requires Truthy(atomCounts) && isotopeMasses.Some? && isotopeProbabilities.Some?
    requires j < |isotopeMasses.value| && j < |isotopeProbabilities.value|
    requires |isotopeMasses.value| > 0
    requires |isotopeMasses.value[j]| != |isotopeProbabilities.value[j]|
    requires formula.Some? ==> ParamsOf(formula.value, table).Success?
    ensures IsoInit(formula, atomCounts, isotopeMasses, isotopeProbabilities, table) == Failure(AssertionError)
  {
    assert Sizes(isotopeMasses.value)[j] != Sizes(isotopeProbabilities.value)[j];
  }

  /** Explicit tables whose lengths agree, with a formula that parses or none, construct successfully. */
  lemma AgreementSucceeds(formula: Option<string>, atomCounts: Option<seq<int>>, isotopeMasses: Option<seq<seq<real>>>,
                          isotopeProbabilities: Option<seq<seq<real>>>, table: Table)
    requires Truthy(atomCounts) && Truthy(isotopeMasses) && Truthy(isotopeProbabilities)
    requires |isotopeMasses.value| == |isotopeProbabilities.value|
    requires forall j :: 0 <= j < |isotopeMasses.value| ==> |isotopeMasses.value[j]| == |isotopeProbabilities.value[j]|
    requires formula.Some? ==> ParamsOf(formula.value, table).Success?
    ensures IsoInit(formula, atomCounts, isotopeMasses, isotopeProbabilities, table).Success?
  {
    assert Sizes(isotopeMasses.value) == Sizes(isotopeProbabilities.value);
  }

  /** A formula with no elements is accepted, and set-up goes on with dimNumber 0. */
  lemma EmptyFormula(table: Table)
    ensures IsoInit(Some(""), None, None, None, table).Success?
    ensures IsoInit(Some(""), None, None, None, table).value.dimNumber == 0
    ensures IsoInit(Some(""), None, None, None, table).value.atomCounts == []
  {
    assert Tokens("") == [];
    assert AllKnown("", table);
  }

  /** range(start, start + n) as a tuple. */
  function Range(start: int, n: nat): (r: seq<int>)
    ensures |r| == n && forall k :: 0 <= k < n ==> r[k] == start + k
  {
    seq(n, k requires 0 <= k < n => start + k)
  }

  /** offsets[j]: the positions of element j's isotopes in a flat configuration. */
  function Offsets(ns: seq<nat>): (offsets: seq<seq<int>>)
    ensures |offsets| == |ns|
    ensures forall j :: 0 <= j < |ns| ==> offsets[j] == Range(SumNat(ns[..j]), ns[j])
  {
    seq(|ns|, j requires 0 <= j < |ns| => Range(SumNat(ns[..j]), ns[j]))
  }

  /** The offsets construction of Iso.__init__: nested loops with one running position. */
  method BuildOffsets(isotopeNumbers: seq<nat>) returns (offsets: seq<seq<int>>)
    ensures offsets == Offsets(isotopeNumbers)
  {
    var i := 0;
    offsets := [];
    for j := 0 to |isotopeNumbers|
      invariant |offsets| == j && i == SumNat(isotopeNumbers[..j])
      invariant forall q :: 0 <= q < j ==> offsets[q] == Range(SumNat(isotopeNumbers[..q]), isotopeNumbers[q])
    {
      var newl := [];
      ghost var start := i;
      for k := 0 to isotopeNumbers[j]
        invariant newl == Range(start, k) && i == start + k
      {
        newl := newl + [i];
        i := i + 1;
      }
      offsets := offsets + [newl];
      SumNatStep(isotopeNumbers, j);
    }
  }

  /** Dropping the last element keeps the offsets of the others. */
  lemma OffsetsInit(ns: seq<nat>)
    requires ns != []
    ensures Offsets(ns)[..|ns| - 1] == Offsets(ns[..|ns| - 1])
  {
    var init := ns[..|ns| - 1];
    forall j | 0 <= j < |init|
      ensures Offsets(ns)[j] == Offsets(init)[j]
    {
      assert ns[..j] == init[..j];
    }
  }

  /** Concatenated, the offsets are exactly 0 .. allDim-1, with no gaps and no repeats. */
  lemma {:induction false} OffsetsCover(ns: seq<nat>)
    ensures Flatten(Offsets(ns)) == Range(0, SumNat(ns))
  {
    if ns != [] {
      var init := ns[..|ns| - 1];
      OffsetsCover(init);
      OffsetsInit(ns);
      assert Offsets(ns)[..|ns| - 1] == Offsets(init);
      assert Range(0, SumNat(init)) + Range(SumNat(init), ns[|ns| - 1]) == Range(0, SumNat(ns));
    }
  }

  /** Every offset, shifted by s, indexes the buffer c. */
  predicate InBounds(c: seq<int>, s: int, offsets: seq<seq<int>>)
  {
    forall j, k :: 0 <= j < |offsets| && 0 <= k < |offsets[j]| ==> 0 <= offsets[j][k] + s < |c|
  }

  /** parse_conf(cptr, starting_with): tuple j holds cptr[i + s] for every i in offsets[j]. */
  function ParseConf(c: seq<int>, s: int, offsets: seq<seq<int>>): (conf: seq<seq<int>>)
    requires InBounds(c, s, offsets)
    ensures |conf| == |offsets| && forall j :: 0 <= j < |offsets| ==> |conf[j]| == |offsets[j]|
    ensures forall j, k :: 0 <= j < |offsets| && 0 <= k < |offsets[j]| ==> conf[j][k] == c[offsets[j][k] + s]
  {
    seq(|offsets|, j requires 0 <= j < |offsets| =>
      seq(|offsets[j]|, k requires 0 <= k < |offsets[j]| => c[offsets[j][k] + s]))
  }

  /** Offsets of a window of allDim ints starting at s stay inside a buffer that holds it. */
  lemma OffsetsInBounds(ns: seq<nat>, c: seq<int>, s: int)
    requires 0 <= s && s + SumNat(ns) <= |c|
    ensures InBounds(c, s, Offsets(ns))
  {
    var offsets := Offsets(ns);
    forall j, k | 0 <= j < |offsets| && 0 <= k < |offsets[j]|
      ensures 0 <= offsets[j][k] + s < |c|
    {
      assert offsets[j][k] == SumNat(ns[..j]) + k;
      SumNatStep(ns, j);
      SumNatPrefix(ns, j + 1);
    }
  }

  /** Reading back a flat signature written at s gives the per-element vectors it was made of. */
  lemma ParseOfFlatten(parts: seq<seq<int>>, c: seq<int>, s: int)
    requires 0 <= s && s + |Flatten(parts)| <= |c|
    requires c[s..s + |Flatten(parts)|] == Flatten(parts)
    ensures InBounds(c, s, Offsets(Lengths(parts)))
    ensures ParseConf(c, s, Offsets(Lengths(parts))) == parts
  {
    var ns := Lengths(parts);
    FlattenLength(parts);
    OffsetsInBounds(ns, c, s);
    var conf := ParseConf(c, s, Offsets(ns));
    forall j | 0 <= j < |parts|
      ensures conf[j] == parts[j]
    {
      forall k | 0 <= k < |parts[j]|
        ensures conf[j][k] == parts[j][k]
      {
        ReadBackAt(parts, c, s, j, k);
      }
    }
  }

  /** The flat position of isotope k of element j holds parts[j][k]. */
  lemma ReadBackAt(parts: seq<seq<int>>, c: seq<int>, s: int, j: nat, k: nat)
    requires 0 <= s && s + |Flatten(parts)| <= |c|
    requires c[s..s + |Flatten(parts)|] == Flatten(parts)
    requires j < |parts| && k < |parts[j]|
    ensures Offsets(Lengths(parts))[j][k] + s < |c|
    ensures c[Offsets(Lengths(parts))[j][k] + s] == parts[j][k]
  {
    var ns := Lengths(parts);
    FlattenAt(parts, j, k);
    var p := SumNat(ns[..j]) + k;
    assert Offsets(ns)[j][k] == p;
    assert c[s..s + |Flatten(parts)|][p] == c[p + s];
  }

  /** Flattening what parse_conf read gives back the window of allDim ints it was read from. */
  lemma {:induction false} FlattenOfParse(ns: seq<nat>, c: seq<int>, s: int)
    requires 0 <= s && s + SumNat(ns) <= |c|
    ensures InBounds(c, s, Offsets(ns))
    ensures Flatten(ParseConf(c, s, Offsets(ns))) == c[s..s + SumNat(ns)]
  {
    OffsetsInBounds(ns, c, s);
    if ns != [] {
      var init := ns[..|ns| - 1];
      var last := |ns| - 1;
      FlattenOfParse(init, c, s);
      OffsetsInit(ns);
      var conf := ParseConf(c, s, Offsets(ns));
      assert conf[..last] == ParseConf(c, s, Offsets(init));
      assert conf[last] == c[s + SumNat(init)..s + SumNat(ns)];
      assert c[s..s + SumNat(init)] + c[s + SumNat(init)..s + SumNat(ns)] == c[s..s + SumNat(ns)];
    }
  }

  /** _get_conf(idx): the idx-th configuration of a tabulated flat array, allDim ints each. */
  function GetConf(rawConfs: seq<int>, idx: nat, offsets: seq<seq<int>>, sumIsotopeNumbers: nat): (conf: seq<seq<int>>)
    requires InBounds(rawConfs, sumIsotopeNumbers * idx, offsets)
    ensures |conf| == |offsets| && forall j :: 0 <= j < |offsets| ==> |conf[j]| == |offsets[j]|
    ensures forall j, k :: 0 <= j < |offsets| && 0 <= k < |offsets[j]| ==>
      conf[j][k] == rawConfs[sumIsotopeNumbers * idx + offsets[j][k]]
  {
    ParseConf(rawConfs, sumIsotopeNumbers * idx, offsets)
  }

  /** The idx-th configuration comes back as the vectors the generator wrote for it. */
  lemma GetConfRoundTrip(parts: seq<seq<int>>, rawConfs: seq<int>, idx: nat)
    requires SumNat(Lengths(parts)) * (idx + 1) <= |rawConfs|
    requires rawConfs[SumNat(Lengths(parts)) * idx..SumNat(Lengths(parts)) * (idx + 1)] == Flatten(parts)
    ensures InBounds(rawConfs, SumNat(Lengths(parts)) * idx, Offsets(Lengths(parts)))
    ensures GetConf(rawConfs, idx, Offsets(Lengths(parts)), SumNat(Lengths(parts))) == parts
  {
    FlattenLength(parts);
    ParseOfFlatten(parts, rawConfs, SumNat(Lengths(parts)) * idx);
  }

  const MultipleIterations := "Multiple iterations through the same IsoGenerator object are not supported. Either create a new (identical) generator for a second loop-through, or use one of the non-generator classes, which do support being re-used."

  /** The single-pass flag of a Python IsoGenerator. */
  class IsoGenerator {
    var firstuse: bool

    constructor ()
      ensures firstuse
    {
      firstuse := true;
    }

    /** The start of __iter__: a second iteration raises NotImplementedError. */
    method Iter() returns (out: Outcome<PyError>)
      modifies this
      ensures out == if old(firstuse) then Pass else Fail(NotImplementedError(MultipleIterations))
      ensures !firstuse
    {
      if !firstuse {
        return Fail(NotImplementedError(MultipleIterations));
      }
      firstuse := false;
      return Pass;
    }
  }

  /** A fresh generator can be iterated once; the second iteration raises. */
  method IterTwice() returns (first: Outcome<PyError>, second: Outcome<PyError>)
    ensures first == Pass && second == Fail(NotImplementedError(MultipleIterations))
  {
    var g := new IsoGenerator();
    first := g.Iter();
    second := g.Iter();
  }

  /**
   * IsoLayeredGenerator.__init__ up to the foreign set-up: the assertion
   * delta < 0 comes before the Iso set-up, so it is the error raised even
   * when the other arguments are also wrong.
   */
  function LayeredInit(delta: real, formula: Option<string>, atomCounts: Option<seq<int>>, isotopeMasses: Option<seq<seq<real>>>,
                       isotopeProbabilities: Option<seq<seq<real>>>, table: Table): (r: Result<IsoFields, PyError>)
    ensures !(delta < 0.0) ==> r == Failure(AssertionError)
    ensures delta < 0.0 ==> r == IsoInit(formula, atomCounts, isotopeMasses, isotopeProbabilities, table)
  {
    if !(delta < 0.0) then Failure(AssertionError)
    else IsoInit(formula, atomCounts, isotopeMasses, isotopeProbabilities, table)
  }
}
