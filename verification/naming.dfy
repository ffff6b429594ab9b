/**
 The output file name of one derivative image, `f"{n}_{key}.webp"`
 (main.py:138-147), and its reading back. The name determines the number
 and the size key, so two derivatives share a name only when they share
 both.
 */
module Naming {
  import opened Wrappers
  import opened Decimal

  const KeySep: char := '_'
  const Extension: string := ".webp"

  /** The first index of `c` in `s`, or `|s|` when there is none. */
  function FirstIndexOf(s: string, c: char): (i: nat)
    ensures i <= |s|
    ensures i < |s| ==> s[i] == c
    ensures forall k :: 0 <= k < i ==> s[k] != c
  {
    if |s| == 0 then 0
    else if s[0] == c then 0
    else 1 + FirstIndexOf(s[1..], c)
  }

  /** The name `<n>_<key>.webp` under which a size of a source is saved. */
  function FileName(n: nat, key: string): string {
    NatToString(n) + [KeySep] + key + Extension
  }

  /** Reads `<digits>_<key>.webp` back into the number and the size key; the
      number is everything before the first `_` and must be written as
      `str()` writes it. */
  function ParseFileName(s: string): (r: Option<(nat, string)>)
    ensures r.Some? ==> |s| >= |NatToString(r.value.0)| + 1 + |Extension|
  {
    var i := FirstIndexOf(s, KeySep);
    if i + 1 + |Extension| <= |s| && Canonical(s[..i]) && s[|s| - |Extension|..] == Extension then
      ParseNatToString(ParseDigits(s[..i]));
      NatToStringParse(s[..i]);
      Some((ParseDigits(s[..i]), s[i + 1..|s| - |Extension|]))
    else
      None
  }

  /** The name's number is written with digits only, so the first `_` is
      the one after it. */
  lemma FirstSepAfterNumber(n: nat, key: string)
    ensures FirstIndexOf(FileName(n, key), KeySep) == |NatToString(n)|
  {
    var d := NatToString(n);
    var s := FileName(n, key);
    assert s[|d|] == KeySep;
    assert forall k :: 0 <= k < |d| ==> s[k] == d[k] && IsDigit(s[k]);
  }

  /** Reading a planned name gives back the number and the size key. */
  lemma FileNameRoundTrip(n: nat, key: string)
    ensures ParseFileName(FileName(n, key)) == Some((n, key))
  {
    var d := NatToString(n);
    var s := FileName(n, key);
    FirstSepAfterNumber(n, key);
    assert s[..|d|] == d;
    assert s[|s| - |Extension|..] == Extension;
    assert s[|d| + 1..|s| - |Extension|] == key;
    ParseNatToString(n);
  }

  /** Every name the parser accepts is a planned name. */
  lemma ParseFileNameSound(s: string)
    requires ParseFileName(s).Some?
    ensures FileName(ParseFileName(s).value.0, ParseFileName(s).value.1) == s
  {
    var i := FirstIndexOf(s, KeySep);
    NatToStringParse(s[..i]);
    assert s == s[..i] + [KeySep] + s[i + 1..|s| - |Extension|] + s[|s| - |Extension|..];
  }

  /** Distinct (number, key) pairs give distinct names. */
  lemma FileNameInjective(m: nat, a: string, n: nat, b: string)
    ensures FileName(m, a) == FileName(n, b) <==> m == n && a == b
  {
    FileNameRoundTrip(m, a);
    FileNameRoundTrip(n, b);
  }

  /** An 8-digit number gives a name of 8 digits, `_`, the size key and `.webp`. */
  lemma EightDigitFileName(n: nat, key: string)
    requires 10000000 <= n <= 99999999
    ensures |FileName(n, key)| == 8 + 1 + |key| + |Extension|
    ensures AllDigits(FileName(n, key)[..8]) && FileName(n, key)[8] == KeySep
  {
    assert Pow10(7) == 10000000 && Pow10(8) == 100000000;
    NatToStringLength(n, 8);
    assert FileName(n, key)[..8] == NatToString(n);
  }
}
