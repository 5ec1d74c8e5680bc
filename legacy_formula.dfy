/**
 * The older Python interface: a formula is split into its maximal runs of
 * non-digit characters (the symbols) and its maximal runs of digits (the
 * atom counts), paired by position; the Iso object then takes each
 * attribute from an explicit argument when one is given.
 */
module LegacyInterface {
  import opened Wrappers
  import opened PythonText
  import Formulas

  /** The periodic table, as the formula parser of the current interface uses it. */
  type Table = Formulas.Table

  /** findall(\D+): the maximal runs of non-digit characters, in order. */
  function SymbolRuns(s: string): (runs: seq<string>)
    ensures forall i :: 0 <= i < |runs| ==> |runs[i]| > 0 && forall q :: 0 <= q < |runs[i]| ==> !IsDigit(runs[i][q])
    decreases |s|
  {
    if s == [] then []
    else if IsDigit(s[0]) then SymbolRuns(s[1..])
    else
      var n := NonDigitPrefix(s);
      [s[..n]] + SymbolRuns(s[n..])
  }

  /** findall(\d+): the maximal runs of digits, in order. */
  function DigitRuns(s: string): (runs: seq<string>)
    ensures forall i :: 0 <= i < |runs| ==> |runs[i]| > 0 && AllDigits(runs[i])
    decreases |s|
  {
    if s == [] then []
    else if !IsDigit(s[0]) then DigitRuns(s[1..])
    else
      var n := DigitPrefix(s);
      [s[..n]] + DigitRuns(s[n..])
  }

  /** A leading run of non-digits contributes nothing to the digit runs. */
  lemma {:induction false} DigitRunsSkip(s: string, n: nat)
    requires n <= |s| && forall i :: 0 <= i < n ==> !IsDigit(s[i])
    ensures DigitRuns(s) == DigitRuns(s[n..])
  {
    if n > 0 {
      DigitRunsSkip(s[1..], n - 1);
      assert s[1..][n - 1..] == s[n..];
    }
  }

  /** A leading run of digits contributes nothing to the symbol runs. */
  lemma {:induction false} SymbolRunsSkip(s: string, n: nat)
    requires n <= |s| && AllDigits(s[..n])
    ensures SymbolRuns(s) == SymbolRuns(s[n..])
  {
    if n > 0 {
      assert IsDigit(s[..n][0]);
      assert s[1..][..n - 1] == s[..n][1..];
      SymbolRunsSkip(s[1..], n - 1);
      assert s[1..][n - 1..] == s[n..];
    }
  }

  /** The runs of y written one after another. */
  function Concat(y: seq<string>): string
  {
    if y == [] then "" else y[0] + Concat(y[1..])
  }

  /** x[0], y[0], x[1], y[1], ...: the two lists of runs written alternately, starting with x. */
  function Weave(x: seq<string>, y: seq<string>): string
    decreases |x| + |y|
  {
    if x == [] then Concat(y) else x[0] + Weave(y, x[1..])
  }

  /**
   * The two findall calls lose nothing and invent nothing: writing the runs
   * alternately, starting with the kind of the first character, gives back
   * the formula. Together with the shapes of the runs this makes every run
   * maximal, since two neighbouring runs are of different kinds.
   */
  lemma {:induction false} RunsRoundTrip(s: string)
    ensures s == [] || !IsDigit(s[0]) ==> Weave(SymbolRuns(s), DigitRuns(s)) == s
    ensures s != [] && IsDigit(s[0]) ==> Weave(DigitRuns(s), SymbolRuns(s)) == s
    decreases |s|
  {
    if s != [] {
      var rest: string;
      if !IsDigit(s[0]) {
        var n := NonDigitPrefix(s);
        rest := s[n..];
        DigitRunsSkip(s, n);
        RunsRoundTrip(rest);
        assert Weave(SymbolRuns(s), DigitRuns(s)) == s[..n] + Weave(DigitRuns(rest), SymbolRuns(rest));
      } else {
        var n := DigitPrefix(s);
        rest := s[n..];
        SymbolRunsSkip(s, n);
        RunsRoundTrip(rest);
        assert Weave(DigitRuns(s), SymbolRuns(s)) == s[..n] + Weave(SymbolRuns(rest), DigitRuns(rest));
      }
      assert s == s[..|s| - |rest|] + rest;
    }
  }

  /** 1 when the condition holds, else 0. */
  function Ind(b: bool): int
  {
    if b then 1 else 0
  }

  /**
   * The runs alternate, so there is one more symbol run than digit runs when
   * the formula starts and ends with a non-digit, one fewer when it starts
   * and ends with a digit, and as many otherwise.
   */
  lemma {:induction false} RunBalance(s: string)
    ensures |SymbolRuns(s)| - |DigitRuns(s)|
            == if s == [] then 0 else Ind(!IsDigit(s[0])) - Ind(IsDigit(s[|s| - 1]))
    decreases |s|
  {
    if s != [] {
      if !IsDigit(s[0]) {
        var n := NonDigitPrefix(s);
        DigitRunsSkip(s, n);
        RunBalance(s[n..]);
        if n < |s| {
          assert s[n..][|s[n..]| - 1] == s[|s| - 1];
        }
      } else {
        var n := DigitPrefix(s);
        SymbolRunsSkip(s, n);
        RunBalance(s[n..]);
        if n < |s| {
          assert s[n..][|s[n..]| - 1] == s[|s| - 1];
        }
      }
    }
  }

  /** What this IsoParamsFromFormula returns: (dimNumber, isotopeNumbers, atomCounts, masses, probs). */
  datatype LegacyParams = LegacyParams(
    dimNumber: nat, isotopeNumbers: seq<nat>, atomCounts: seq<int>, masses: seq<seq<real>>, probs: seq<seq<real>>)

  /** Every symbol run is exactly a key of the table. */
  predicate RunsKnown(formula: string, table: Table)
  {
    forall i :: 0 <= i < |SymbolRuns(formula)| ==> SymbolRuns(formula)[i] in table
  }

  /**
   * IsoParamsFromFormula of the older interface: as many symbol runs as
   * digit runs, or ValueError; every symbol in the table, or ValueError.
   */
  function IsoParamsFromFormula(formula: string, table: Table): (r: Result<LegacyParams, PyError>)
    ensures r.Failure? ==> r.error == ValueError("Invalid formula")
    ensures r.Success? ==>
      && r.value.dimNumber == |r.value.atomCounts| == |DigitRuns(formula)| == |SymbolRuns(formula)|
      && |r.value.isotopeNumbers| == |r.value.masses| == |r.value.probs| == r.value.dimNumber
      && forall i :: 0 <= i < r.value.dimNumber ==>
           && SymbolRuns(formula)[i] in table
           && r.value.atomCounts[i] == DecimalValue(DigitRuns(formula)[i])
           && r.value.masses[i] == table[SymbolRuns(formula)[i]].0
           && r.value.probs[i] == table[SymbolRuns(formula)[i]].1
           && r.value.isotopeNumbers[i] == |r.value.probs[i]|
  {
    var symbols := SymbolRuns(formula);
    var digits := DigitRuns(formula);
    var atomCounts: seq<int> := seq(|digits|, i requires 0 <= i < |digits| => DecimalValue(digits[i]));
    if |symbols| != |atomCounts| then Failure(ValueError("Invalid formula"))
    else if !RunsKnown(formula, table) then Failure(ValueError("Invalid formula"))
    else
      Success(LegacyParams(
        |atomCounts|,
        seq(|symbols|, i requires 0 <= i < |symbols| => |table[symbols[i]].1|),
        atomCounts,
        seq(|symbols|, i requires 0 <= i < |symbols| => table[symbols[i]].0),
        seq(|symbols|, i requires 0 <= i < |symbols| => table[symbols[i]].1)))
  }

  /** The formula is accepted exactly when its runs pair up and every symbol run is in the table. */
  lemma Accepts(formula: string, table: Table)
    ensures IsoParamsFromFormula(formula, table).Success?
            <==> (formula == [] || IsDigit(formula[0]) != IsDigit(formula[|formula| - 1])) && RunsKnown(formula, table)
  {
    RunBalance(formula);
  }

  /** "H2O" has two symbol runs and one digit run: rejected whatever the table holds. */
  lemma WaterRejected(table: Table)
    ensures IsoParamsFromFormula("H2O", table) == Failure(ValueError("Invalid formula"))
  {
    Accepts("H2O", table);
  }

  /** The symbol runs of "H2O1" are H and O. */
  lemma WaterSymbols()
    ensures SymbolRuns("H2O1") == ["H", "O"]
  {
    assert NonDigitPrefix("O1") == 1 by {
      assert "O1"[1..] == "1";
    }
    assert SymbolRuns("1") == [] by {
      assert "1"[1..] == "";
    }
    assert SymbolRuns("O1") == ["O"] by {
      assert "O1"[..1] == "O" && "O1"[1..] == "1";
    }
    assert SymbolRuns("2O1") == ["O"] by {
      assert "2O1"[1..] == "O1";
    }
    assert NonDigitPrefix("H2O1") == 1 by {
      assert "H2O1"[1..] == "2O1";
    }
    assert "H2O1"[..1] == "H" && "H2O1"[1..] == "2O1";
  }

  /** The digit runs of "H2O1" are 2 and 1. */
  lemma WaterDigits()
    ensures DigitRuns("H2O1") == ["2", "1"]
  {
    assert DigitRuns("1") == ["1"] by {
      assert DigitPrefix("1") == 1;
      assert "1"[..1] == "1" && "1"[1..] == "";
    }
    assert DigitRuns("O1") == ["1"] by {
      assert "O1"[1..] == "1";
    }
    assert DigitRuns("2O1") == ["2", "1"] by {
      assert DigitPrefix("2O1") == 1 by {
        assert "2O1"[1..] == "O1";
      }
      assert "2O1"[..1] == "2" && "2O1"[1..] == "O1";
    }
    assert "H2O1"[1..] == "2O1";
  }

  /** "H2O1" is accepted once H and O are in the table, with counts 2 and 1. */
  lemma WaterAccepted(table: Table)
    requires "H" in table && "O" in table
    ensures IsoParamsFromFormula("H2O1", table).Success?
    ensures IsoParamsFromFormula("H2O1", table).value.atomCounts == [2, 1]
  {
    WaterSymbols();
    WaterDigits();
    WaterCounts();
    AcceptedWith("H2O1", table, ["2", "1"], [2, 1]);
  }

  /** int() of the digit runs of "H2O1". */
  lemma WaterCounts()
    ensures DecimalValue("2") == 2 && DecimalValue("1") == 1
  {
    assert "2"[..0] == "" && "1"[..0] == "";
  }

  /** A formula whose runs pair up and are all known is accepted, with its digit runs read as the counts. */
  lemma AcceptedWith(formula: string, table: Table, digits: seq<string>, counts: seq<int>)
    requires DigitRuns(formula) == digits && |SymbolRuns(formula)| == |digits| && RunsKnown(formula, table)
    requires |counts| == |digits| && forall i :: 0 <= i < |counts| ==> AllDigits(digits[i]) && counts[i] == DecimalValue(digits[i])
    ensures IsoParamsFromFormula(formula, table).Success?
    ensures IsoParamsFromFormula(formula, table).value.atomCounts == counts
  {
  }

  /** A later assignment wins; an attribute nobody assigned stays missing. */
  function Choose<T>(explicit: Option<T>, derived: Option<T>): Option<T>
  {
    if explicit.Some? then explicit else derived
  }

  /** The foreign set-up reads the five attributes in this order; the first one missing raises. */
  function SetupReads(dimNumber: bool, isotopeNumbers: bool, atomCounts: bool, masses: bool, probs: bool): (out: Outcome<PyError>)
    ensures out == Pass <==> dimNumber && isotopeNumbers && atomCounts && masses && probs
    ensures out.Fail? ==> out.error.AttributeError?
  {
    if !dimNumber then Fail(AttributeError("dimNumber"))
    else if !isotopeNumbers then Fail(AttributeError("isotopeNumbers"))
    else if !atomCounts then Fail(AttributeError("atomCounts"))
    else if !masses then Fail(AttributeError("isotopeMasses"))
    else if !probs then Fail(AttributeError("isotopeProbabilities"))
    else Pass
  }

  /** The attributes of an Iso object of the older interface; None where none was assigned. */
  class LegacyIso {
    var dimNumber: Option<nat>
    var isotopeNumbers: Option<seq<nat>>
    var atomCounts: Option<seq<int>>
    var isotopeMasses: Option<seq<seq<real>>>
    var isotopeProbabilities: Option<seq<seq<real>>>
    var getConfs: bool

    /** A new object, before __init__ has assigned anything. */
    constructor ()
      ensures dimNumber.None? && isotopeNumbers.None? && atomCounts.None?
      ensures isotopeMasses.None? && isotopeProbabilities.None? && !getConfs
    {
      dimNumber := None;
      isotopeNumbers := None;
      atomCounts := None;
      isotopeMasses := None;
      isotopeProbabilities := None;
      getConfs := false;
    }

    /**
     * Iso.__init__ up to the foreign set-up: the formula's values first,
     * then each explicit argument over its attribute, one at a time.
     */
    method Init(formula: Option<string>, getConfs: bool, dimNumber: Option<nat>, isotopeNumbers: Option<seq<nat>>,
                atomCounts: Option<seq<int>>, isotopeMasses: Option<seq<seq<real>>>,
                isotopeProbabilities: Option<seq<seq<real>>>, table: Table) returns (out: Outcome<PyError>)
      requires this.dimNumber.None? && this.isotopeNumbers.None? && this.atomCounts.None?
      requires this.isotopeMasses.None? && this.isotopeProbabilities.None?
      modifies this
      ensures formula.Some? && IsoParamsFromFormula(formula.value, table).Failure? ==>
        && out == Fail(ValueError("Invalid formula"))
        && this.dimNumber.None? && this.isotopeNumbers.None? && this.atomCounts.None?
        && this.isotopeMasses.None? && this.isotopeProbabilities.None? && this.getConfs == old(this.getConfs)
      ensures !(formula.Some? && IsoParamsFromFormula(formula.value, table).Failure?) ==>
        var derived := if formula.Some? then Some(IsoParamsFromFormula(formula.value, table).value) else None;
        && this.dimNumber == Choose(dimNumber, if derived.Some? then Some(derived.value.dimNumber) else None)
        && this.isotopeNumbers == Choose(isotopeNumbers, if derived.Some? then Some(derived.value.isotopeNumbers) else None)
        && this.atomCounts == Choose(atomCounts, if derived.Some? then Some(derived.value.atomCounts) else None)
        && this.isotopeMasses == Choose(isotopeMasses, if derived.Some? then Some(derived.value.masses) else None)
        && this.isotopeProbabilities == Choose(isotopeProbabilities, if derived.Some? then Some(derived.value.probs) else None)
        && this.getConfs == getConfs
        && out == SetupReads(this.dimNumber.Some?, this.isotopeNumbers.Some?, this.atomCounts.Some?,
                             this.isotopeMasses.Some?, this.isotopeProbabilities.Some?)
    {
      if formula.Some? {
        var p := IsoParamsFromFormula(formula.value, table);
        if p.Failure? {
          return Fail(p.error);
        }
        this.dimNumber := Some(p.value.dimNumber);
        this.isotopeNumbers := Some(p.value.isotopeNumbers);
        this.atomCounts := Some(p.value.atomCounts);
        this.isotopeMasses := Some(p.value.masses);
        this.isotopeProbabilities := Some(p.value.probs);
      }
      if dimNumber.Some? {
        this.dimNumber := dimNumber;
      }
      if atomCounts.Some? {
        this.atomCounts := atomCounts;
      }
      if isotopeNumbers.Some? {
        this.isotopeNumbers := isotopeNumbers;
      }
      if isotopeMasses.Some? {
        this.isotopeMasses := isotopeMasses;
      }
      if isotopeProbabilities.Some? {
        this.isotopeProbabilities := isotopeProbabilities;
      }
      this.getConfs := getConfs;
      out := SetupReads(this.dimNumber.Some?, this.isotopeNumbers.Some?, this.atomCounts.Some?,
                        this.isotopeMasses.Some?, this.isotopeProbabilities.Some?);
    }
  }

  /** With a formula that parses, every attribute is set and set-up proceeds. */
  method InitFromFormula(formula: string, table: Table) returns (out: Outcome<PyError>)
    requires IsoParamsFromFormula(formula, table).Success?
    ensures out == Pass
  {
    var iso := new LegacyIso();
    out := iso.Init(Some(formula), false, None, None, None, None, None, table);
  }
}
