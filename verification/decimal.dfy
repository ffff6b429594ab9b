/**
 Python's `str()` of a non-negative integer: its decimal digits, most
 significant first, without leading zeros. `ParseDigits` reads a digit
 string back; the two are inverse on canonical digit strings.
 */
module Decimal {

  predicate IsDigit(c: char) {
    '0' <= c <= '9'
  }

  predicate AllDigits(s: string) {
    forall k :: 0 <= k < |s| ==> IsDigit(s[k])
  }

  /** A digit string as `str()` writes it: non-empty, no leading zero
      unless it is `"0"` itself. */
  predicate Canonical(s: string) {
    |s| >= 1 && AllDigits(s) && (|s| > 1 ==> s[0] != '0')
  }

  function DigitChar(d: int): (c: char)
    requires 0 <= d < 10
    ensures IsDigit(c)
  {
    (d + '0' as int) as char
  }

  function DigitValue(c: char): (d: int)
    requires IsDigit(c)
    ensures 0 <= d < 10 && DigitChar(d) == c
  {
    c as int - '0' as int
  }

  function Pow10(k: nat): (r: nat)
    ensures r >= 1
  {
    if k == 0 then 1 else 10 * Pow10(k - 1)
  }

  /** `str(n)` for `n >= 0`. */
  function NatToString(n: nat): (s: string)
    ensures Canonical(s)
  {
    if n < 10 then [DigitChar(n)] else NatToString(n / 10) + [DigitChar(n % 10)]
  }

  /** `int(s)` for a string of decimal digits (the empty string reads as 0). */
  function ParseDigits(s: string): (n: nat)
    requires AllDigits(s)
    ensures n < Pow10(|s|)
  {
    if s == [] then 0 else ParseDigits(s[..|s| - 1]) * 10 + DigitValue(s[|s| - 1])
  }

  /** Reading back what `str()` wrote gives the number. */
  lemma {:induction false} ParseNatToString(n: nat)
    ensures ParseDigits(NatToString(n)) == n
  {
    var s := NatToString(n);
    if n < 10 {
      assert s[..0] == [];
    } else {
      assert s[..|s| - 1] == NatToString(n / 10);
      ParseNatToString(n / 10);
    }
  }

  /** Writing a canonical digit string's value gives the string back. */
  lemma {:induction false} NatToStringParse(s: string)
    requires Canonical(s)
    ensures NatToString(ParseDigits(s)) == s
  {
    var init := s[..|s| - 1];
    var n := ParseDigits(s);
    if |s| == 1 {
      assert init == [];
    } else {
      assert init[0] == s[0];
      assert Canonical(init);
      NatToStringParse(init);
      assert n / 10 == ParseDigits(init) && n % 10 == DigitValue(s[|s| - 1]);
      assert s == init + [s[|s| - 1]];
    }
  }

  /** A canonical digit string of `k >= 2` digits denotes at least `10^(k-1)`. */
  lemma {:induction false} ParseDigitsLowerBound(s: string)
    requires Canonical(s) && |s| > 1
    ensures ParseDigits(s) >= Pow10(|s| - 1)
  {
    var init := s[..|s| - 1];
    assert init[0] == s[0];
    if |init| == 1 {
      assert init[..0] == [];
      assert ParseDigits(init) == DigitValue(s[0]) >= 1;
    } else {
      ParseDigitsLowerBound(init);
    }
    assert ParseDigits(s) >= ParseDigits(init) * 10;
  }

  /** The converse of `NatToStringLength`: `str(n)` with `k` digits means
      `n` lies in `[10^(k-1), 10^k)` (below 10 when `k` is 1). */
  lemma NatToStringLengthBounds(n: nat)
    ensures n < Pow10(|NatToString(n)|)
    ensures |NatToString(n)| > 1 ==> Pow10(|NatToString(n)| - 1) <= n
  {
    ParseNatToString(n);
    if |NatToString(n)| > 1 {
      ParseDigitsLowerBound(NatToString(n));
    }
  }

  /** A number in `[10^(k-1), 10^k)` (any number below 10 when `k` is 1)
      is written with `k` digits. */
  lemma {:induction false} NatToStringLength(n: nat, k: nat)
    requires k >= 1 && (k == 1 || Pow10(k - 1) <= n) && n < Pow10(k)
    ensures |NatToString(n)| == k
  {
    if k > 1 {
      if k == 2 {
        assert 10 <= n < 100;
      } else {
        assert Pow10(k - 2) <= n / 10;
      }
      NatToStringLength(n / 10, k - 1);
    }
  }
}
