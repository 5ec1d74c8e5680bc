/**
 * The pieces of Python the formula parsers rely on: the character classes
 * their regular expressions use, int() on a string of decimal digits, and
 * the exceptions the Python layer raises.
 */
module PythonText {

  /** The exceptions raised by the Python layer, with their messages. */
  datatype PyError =
    | ValueError(msg: string)
    | Exception(msg: string)
    | AssertionError
    | NotImplementedError(msg: string)
    | AttributeError(name: string)

  /** [0-9], and \d on a byte string. */
  predicate IsDigit(ch: char)
  {
    '0' <= ch <= '9'
  }

  predicate IsUpper(ch: char)
  {
    'A' <= ch <= 'Z'
  }

  predicate IsLower(ch: char)
  {
    'a' <= ch <= 'z'
  }

  predicate AllDigits(s: string)
  {
    forall i :: 0 <= i < |s| ==> IsDigit(s[i])
  }

  /** int(s) for a string of decimal digits (leading zeros allowed). */
  function DecimalValue(s: string): (v: nat)
    requires AllDigits(s)
    ensures v < Pow10(|s|)
    ensures v == 0 <==> AllZeros(s)
    ensures s != [] && s[0] != '0' ==> Pow10(|s| - 1) <= v
  {
    if s == [] then 0
    else
      var init := s[..|s| - 1];
      assert forall i :: 0 <= i < |init| ==> init[i] == s[i];
      DecimalValue(init) * 10 + (s[|s| - 1] - '0') as int
  }

  /** Every character is the digit zero. */
  predicate AllZeros(s: string)
  {
    forall i :: 0 <= i < |s| ==> s[i] == '0'
  }

  /** 10 to the power n. */
  function Pow10(n: nat): (p: nat)
    ensures p >= 1
  {
    if n == 0 then 1 else 10 * Pow10(n - 1)
  }

  /**
   * The digits of n, most significant first, with no leading zero: str(n).
   * Neither parser calls str(); it is here so that DecimalRoundTrip can say
   * which strings int() reads back.
   */
  function Decimal(n: nat): (s: string)
    ensures AllDigits(s) && |s| >= 1
  {
    if n < 10 then ['0' + n as char] else Decimal(n / 10) + ['0' + (n % 10) as char]
  }

  /** int() reads back the number str() wrote. */
  lemma {:induction false} DecimalRoundTrip(n: nat)
    ensures DecimalValue(Decimal(n)) == n
  {
    if n >= 10 {
      DecimalRoundTrip(n / 10);
      var s := Decimal(n);
      assert s[..|s| - 1] == Decimal(n / 10);
    }
  }

  /** The length of the run of characters at the start of s that satisfy the class. */
  function DigitPrefix(s: string): (n: nat)
    ensures n <= |s| && AllDigits(s[..n]) && (n < |s| ==> !IsDigit(s[n]))
  {
    if s != [] && IsDigit(s[0]) then
      var n := 1 + DigitPrefix(s[1..]);
      assert s[..n] == [s[0]] + s[1..][..n - 1];
      n
    else 0
  }

  function NonDigitPrefix(s: string): (n: nat)
    ensures n <= |s| && (forall i :: 0 <= i < n ==> !IsDigit(s[i])) && (n < |s| ==> IsDigit(s[n]))
  {
    if s != [] && !IsDigit(s[0]) then 1 + NonDigitPrefix(s[1..]) else 0
  }
}
