/**
 The decimal printing and parsing the ActiveSync code takes from Go's strconv:
 server ids, sync keys, window sizes and file-reference indices are all decimal
 strings, so every module below shares this one definition.
 */
module Strconv {

  datatype Option<+T> = None | Some(value: T)

  const TWO_32: int := 0x1_0000_0000
  const TWO_63: int := 0x8000_0000_0000_0000
  const TWO_64: int := 0x1_0000_0000_0000_0000

  predicate IsDigit(c: char) {
    '0' <= c <= '9'
  }

  predicate AllDigits(s: string) {
    forall i :: 0 <= i < |s| ==> IsDigit(s[i])
  }

  function DigitChar(d: nat): (c: char)
    requires d < 10
    ensures IsDigit(c) && DigitValue(c) == d
  {
    '0' + d as char
  }

  function DigitValue(c: char): (d: nat)
    requires IsDigit(c)
    ensures d < 10
  {
    (c - '0') as nat
  }

  /** The number a digit string denotes; leading zeros are allowed. */
  function DigitsValue(s: string): nat
    requires AllDigits(s)
  {
    if s == [] then 0 else 10 * DigitsValue(s[..|s| - 1]) + DigitValue(s[|s| - 1])
  }

  /** strconv.FormatUint(n, 10): the digits of `n` without leading zeros. */
  function FormatUint(n: nat): (s: string)
    ensures |s| > 0 && AllDigits(s)
    ensures s[0] == '0' ==> n == 0
  {
    if n < 10 then [DigitChar(n)] else FormatUint(n / 10) + [DigitChar(n % 10)]
  }

  /** strconv.ParseUint(s, 10, bits), `limit` being two to the power `bits`. */
  function ParseUint(s: string, limit: int): Option<nat> {
    if s == [] || !AllDigits(s) || DigitsValue(s) >= limit then None else Some(DigitsValue(s))
  }

  /** strconv.FormatInt(i, 10), also strconv.Itoa. */
  function FormatInt(i: int): (s: string)
    ensures |s| > 0
  {
    if i < 0 then "-" + FormatUint(-i) else FormatUint(i)
  }

  /** strconv.ParseInt(s, 10, 64), also strconv.Atoi on a 64-bit platform. */
  function ParseInt(s: string): Option<int> {
    if s == [] then None
    else
      var neg := s[0] == '-';
      var digits := if s[0] == '-' || s[0] == '+' then s[1..] else s;
      match ParseUint(digits, TWO_64)
      case None => None
      case Some(n) =>
        if !neg && n >= TWO_63 then None
        else if neg && n > TWO_63 then None
        else Some(if neg then 0 - n else n)
  }

  /** Printing then reading gives the number back. */
  lemma {:induction false} FormatUintValue(n: nat)
    ensures DigitsValue(FormatUint(n)) == n
  {
    var s := FormatUint(n);
    if n >= 10 {
      FormatUintValue(n / 10);
      assert s[..|s| - 1] == FormatUint(n / 10);
    } else {
      assert s[..|s| - 1] == [];
    }
  }

  lemma ParseFormatUint(n: nat, limit: int)
    ensures ParseUint(FormatUint(n), limit) == if n < limit then Some(n) else None
  {
    FormatUintValue(n);
  }

  /** Different numbers never share a spelling. */
  lemma FormatUintInjective(m: nat, n: nat)
    requires FormatUint(m) == FormatUint(n)
    ensures m == n
  {
    FormatUintValue(m);
    FormatUintValue(n);
  }

  lemma ParseFormatInt(i: int)
    requires -TWO_63 <= i < TWO_63
    ensures ParseInt(FormatInt(i)) == Some(i)
  {
    if i < 0 {
      ParseFormatUint(-i, TWO_64);
      assert FormatInt(i)[1..] == FormatUint(-i);
    } else {
      ParseFormatUint(i, TWO_64);
      assert IsDigit(FormatUint(i)[0]);
    }
  }

  lemma FormatIntInjective(i: int, j: int)
    requires FormatInt(i) == FormatInt(j)
    ensures i == j
  {
    if i < 0 && j < 0 {
      assert FormatInt(i)[1..] == FormatUint(-i);
      assert FormatInt(j)[1..] == FormatUint(-j);
      FormatUintInjective(-i, -j);
    } else if i >= 0 && j >= 0 {
      FormatUintInjective(i, j);
    }
  }
}
