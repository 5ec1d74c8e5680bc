/**
 * IsoParamsFromFormula: a chemical formula is read as the matches of the
 * pattern ([A-Z][a-z]?)([0-9]*), scanned left to right; characters where no
 * match starts are skipped. Each match is an element symbol and its atom
 * count, the count being 1 when no digits follow the symbol.
 */
module Formulas {
  import opened Wrappers
  import opened PythonText

  /** One match: the symbol group and the digit group. */
  datatype Token = Token(symbol: string, digits: string)

  /** The periodic table: for each symbol, its isotope masses and isotope probabilities. */
  type Table = map<string, (seq<real>, seq<real>)>

  /** What IsoParamsFromFormula returns: (atomCounts, masses, probs). */
  datatype FormulaParams = FormulaParams(atomCounts: seq<nat>, masses: seq<seq<real>>, probs: seq<seq<real>>)

  /** The length of the symbol group of a match starting at s[0]. */
  function SymbolLength(s: string): (k: nat)
    requires s != [] && IsUpper(s[0])
    ensures 1 <= k <= 2 && k <= |s|
  {
    if |s| > 1 && IsLower(s[1]) then 2 else 1
  }

  /** re.findall for the pattern, as a list of (symbol, digits) pairs. */
  function Tokens(s: string): (ts: seq<Token>)
    ensures |ts| <= |s|
    ensures forall i :: 0 <= i < |ts| ==> IsMatch(ts[i])
    decreases |s|
  {
    if s == [] then []
    else if !IsUpper(s[0]) then Tokens(s[1..])
    else
      var k := SymbolLength(s);
      var d := DigitPrefix(s[k..]);
      assert s[k..k + d] == s[k..][..d];
      [Token(s[..k], s[k..k + d])] + Tokens(s[k + d..])
  }

  /** A match of the pattern: an upper-case letter, optionally a lower-case one, then digits. */
  predicate IsMatch(t: Token)
  {
    && (|t.symbol| == 1 || |t.symbol| == 2)
    && IsUpper(t.symbol[0])
    && (|t.symbol| == 2 ==> IsLower(t.symbol[1]))
    && AllDigits(t.digits)
  }

  /** The atom count of a match: int(cnt), or 1 for an empty digit group. */
  function Count(t: Token): (n: nat)
    requires AllDigits(t.digits)
    ensures n == 0 <==> t.digits != "" && AllZeros(t.digits)
    ensures t.digits != "" ==> n < Pow10(|t.digits|)
  {
    if t.digits == "" then 1 else DecimalValue(t.digits)
  }

  /** The text a list of matches was read from, when nothing was skipped. */
  function Render(ts: seq<Token>): string
  {
    if ts == [] then "" else ts[0].symbol + ts[0].digits + Render(ts[1..])
  }

  /** Text that could follow a match without extending it: empty, or an upper-case letter first. */
  predicate StartsMatch(rest: string)
  {
    rest == [] || IsUpper(rest[0])
  }

  /** The digit group ends where the next symbol begins. */
  lemma {:induction false} DigitsThenRest(digits: string, rest: string)
    requires AllDigits(digits) && StartsMatch(rest)
    ensures DigitPrefix(digits + rest) == |digits|
  {
    if digits != [] {
      assert (digits + rest)[1..] == digits[1..] + rest;
      DigitsThenRest(digits[1..], rest);
    }
  }

  /** A match followed by text that starts a new match is read as that match, then the text. */
  lemma TokensStep(t: Token, rest: string)
    requires IsMatch(t) && StartsMatch(rest)
    ensures Tokens(t.symbol + t.digits + rest) == [t] + Tokens(rest)
  {
    var s := t.symbol + t.digits + rest;
    var k := |t.symbol|;
    assert s[..k] == t.symbol;
    assert s[k..] == t.digits + rest;
    assert SymbolLength(s) == k by {
      if k == 1 && |s| > 1 {
        assert s[1] == (t.digits + rest)[0];
      }
    }
    DigitsThenRest(t.digits, rest);
    var d := |t.digits|;
    assert s[k..][..d] == t.digits;
    assert s[k + d..] == rest;
  }

  /** A rendered list of matches can follow a match. */
  lemma RenderStartsMatch(ts: seq<Token>)
    requires forall i :: 0 <= i < |ts| ==> IsMatch(ts[i])
    ensures StartsMatch(Render(ts))
  {
    if ts != [] {
      assert Render(ts) == ts[0].symbol + (ts[0].digits + Render(ts[1..]));
    }
  }

  /** Reading a formula written from matches gives back those matches, in order. */
  lemma {:induction false} RenderTokens(ts: seq<Token>)
    requires forall i :: 0 <= i < |ts| ==> IsMatch(ts[i])
    ensures Tokens(Render(ts)) == ts
  {
    if ts != [] {
      RenderTokens(ts[1..]);
      RenderStartsMatch(ts[1..]);
      TokensStep(ts[0], Render(ts[1..]));
    }
  }

  /** findall on "H2O": hydrogen with digits "2", then oxygen with none. */
  lemma WaterTokens()
    ensures Tokens("H2O") == [Token("H", "2"), Token("O", "")]
    ensures Count(Token("H", "2")) == 2 && Count(Token("O", "")) == 1
  {
    var ts := [Token("H", "2"), Token("O", "")];
    assert IsMatch(ts[0]) && IsMatch(ts[1]);
    assert Render(ts[1..]) == "O" by {
      assert ts[1..][1..] == [];
    }
    assert Render(ts) == "H2O";
    RenderTokens(ts);
    assert DecimalValue("2") == 2 by {
      assert "2"[..0] == "";
    }
  }

  /** Every symbol of the formula is a key of the table. */
  predicate AllKnown(formula: string, table: Table)
  {
    forall i :: 0 <= i < |Tokens(formula)| ==> Tokens(formula)[i].symbol in table
  }

  /** What IsoParamsFromFormula returns or raises, as one expression. */
  function ParamsOf(formula: string, table: Table): Result<FormulaParams, PyError>
  {
    var ts := Tokens(formula);
    if AllKnown(formula, table) then
      Success(FormulaParams(
        seq(|ts|, i requires 0 <= i < |ts| => Count(ts[i])),
        seq(|ts|, i requires 0 <= i < |ts| => table[ts[i].symbol].0),
        seq(|ts|, i requires 0 <= i < |ts| => table[ts[i].symbol].1)))
    else Failure(ValueError("Invalid formula"))
  }

  /**
   * IsoParamsFromFormula: the symbols and counts are collected in a loop
   * over the matches, then each symbol is looked up in the table. A symbol
   * missing from the table raises ValueError("Invalid formula").
   */
  method IsoParamsFromFormula(formula: string, table: Table) returns (r: Result<FormulaParams, PyError>)
    ensures r == ParamsOf(formula, table)
    ensures r.Success? ==> forall i :: 0 <= i < |Tokens(formula)| ==> Tokens(formula)[i].symbol in table
    ensures r.Failure? ==> exists i :: 0 <= i < |Tokens(formula)| && Tokens(formula)[i].symbol !in table
    ensures r.Failure? ==> r.error == ValueError("Invalid formula")
    ensures r.Success? ==>
      && |r.value.atomCounts| == |Tokens(formula)| && |r.value.masses| == |Tokens(formula)| && |r.value.probs| == |Tokens(formula)|
      && forall i :: 0 <= i < |Tokens(formula)| ==>
           && AllDigits(Tokens(formula)[i].digits)
           && r.value.atomCounts[i] == Count(Tokens(formula)[i])
           && r.value.masses[i] == table[Tokens(formula)[i].symbol].0
           && r.value.probs[i] == table[Tokens(formula)[i].symbol].1
  {
    var tokens := Tokens(formula);
    var symbols: seq<string> := [];
    var atomCounts: seq<nat> := [];
    for i := 0 to |tokens|
      invariant |symbols| == i && |atomCounts| == i
      invariant forall j :: 0 <= j < i ==> symbols[j] == tokens[j].symbol && atomCounts[j] == Count(tokens[j])
    {
      symbols := symbols + [tokens[i].symbol];
      atomCounts := atomCounts + [Count(tokens[i])];
    }
    var masses: seq<seq<real>> := [];
    var probs: seq<seq<real>> := [];
    for i := 0 to |symbols|
      invariant |masses| == i && |probs| == i
      invariant forall j :: 0 <= j < i ==> symbols[j] in table && masses[j] == table[symbols[j]].0 && probs[j] == table[symbols[j]].1
    {
      if symbols[i] !in table {
        assert tokens[i].symbol !in table;
        return Failure(ValueError("Invalid formula"));
      }
      masses := masses + [table[symbols[i]].0];
      probs := probs + [table[symbols[i]].1];
    }
    assert AllKnown(formula, table);
    assert atomCounts == ParamsOf(formula, table).value.atomCounts;
    assert masses == ParamsOf(formula, table).value.masses;
    assert probs == ParamsOf(formula, table).value.probs;
    return Success(FormulaParams(atomCounts, masses, probs));
  }
}
