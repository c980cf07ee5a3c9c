/** The numeric conversions the pipeline applies to table cells: Python's `float(str)` and
    pandas' lenient `to_numeric`, restricted to plain decimal literals. */
module Numbers {
  import opened Wrappers
  import opened Strings

  function DigitValue(c: char): nat
    requires IsDigit(c)
  {
    c as int - '0' as int
  }

  function DigitChar(d: nat): (c: char)
    requires d < 10
    ensures IsDigit(c) && DigitValue(c) == d
  {
    ('0' as int + d) as char
  }

  /** The value of a string of decimal digits, most significant digit first. */
  function DigitsValue(s: string): nat
    requires AllDigits(s)
  {
    if |s| == 0 then 0 else 10 * DigitsValue(s[..|s| - 1]) + DigitValue(s[|s| - 1])
  }

  function Pow10(n: nat): (r: nat)
    ensures r >= 1
  {
    if n == 0 then 1 else 10 * Pow10(n - 1)
  }

  /** The decimal representation Python's `str` gives a non-negative integer. */
  function NatToString(n: nat): (r: string)
    ensures |r| >= 1 && AllDigits(r)
  {
    if n < 10 then [DigitChar(n)] else NatToString(n / 10) + [DigitChar(n % 10)]
  }

  /** Reading back the digits of `str(n)` gives `n`. */
  lemma {:induction false} DigitsOfNatToString(n: nat)
    ensures DigitsValue(NatToString(n)) == n
  {
    if n >= 10 {
      DigitsOfNatToString(n / 10);
      var s := NatToString(n);
      assert s[..|s| - 1] == NatToString(n / 10);
    }
  }

  function FirstIndex(s: string, c: char): (k: nat)
    requires c in s
    ensures k < |s| && s[k] == c && c !in s[..k]
  {
    if s[0] == c then 0 else 1 + FirstIndex(s[1..], c)
  }

  /** `s` is digits, a '.' at index `k`, and digits, with at least one digit in all. */
  predicate PointAt(s: string, k: int) {
    0 <= k < |s| && s[k] == '.' && |s| > 1 && AllDigits(s[..k]) && AllDigits(s[k + 1..])
  }

  /** The value of the literal `PointAt` describes: whole part plus fraction. */
  function PointValue(s: string, k: int): real
    requires PointAt(s, k)
  {
    DigitsValue(s[..k]) as real + DigitsValue(s[k + 1..]) as real / Pow10(|s| - k - 1) as real
  }

  /** A literal has at most one point: every other character is a digit. */
  lemma PointOnly(s: string, k: int, j: int)
    requires PointAt(s, k) && 0 <= j < |s| && j != k
    ensures IsDigit(s[j])
  {
    if j < k { assert s[j] == s[..k][j]; } else { assert s[j] == s[k + 1..][j - k - 1]; }
  }

  /** An unsigned decimal literal: digits with at most one '.', and not the lone ".". */
  function ParseUnsigned(s: string): (r: Option<real>)
    ensures r.Some? ==> r.value >= 0.0
    ensures r.Some? <==> (|s| > 0 && AllDigits(s)) || exists k :: PointAt(s, k)
    ensures |s| > 0 && AllDigits(s) ==> r == Some(DigitsValue(s) as real)
    ensures forall k :: PointAt(s, k) ==> r == Some(PointValue(s, k))
    ensures forall j, k :: 0 <= j < k < |s| && s[j] == '.' && s[k] == '.' ==> r == None
    ensures (exists i :: 0 <= i < |s| && !IsDigit(s[i]) && s[i] != '.') ==> r == None
    ensures s == [] || s == "." ==> r == None
  {
    if '.' !in s then
      assert forall k :: !PointAt(s, k);
      if |s| > 0 && AllDigits(s) then Some(DigitsValue(s) as real) else None
    else
      var k := FirstIndex(s, '.');
      assert !AllDigits(s);
      forall p | PointAt(s, p) ensures p == k {
        if p > k { PointOnly(s, p, k); }
      }
      forall j, p | 0 <= j < p < |s| && s[j] == '.' && s[p] == '.' ensures !PointAt(s, j) {
        if PointAt(s, j) { PointOnly(s, j, p); }
      }
      if PointAt(s, k) then
        forall i | 0 <= i < |s| && i != k ensures IsDigit(s[i]) { PointOnly(s, k, i); }
        Some(PointValue(s, k))
      else
        None
  }

  /** Python's `float(s)` on the decimal forms above, after its own whitespace strip and with
      an optional sign; every other spelling counts as one that raises. */
  function ParseFloat(s: string): (r: Option<real>)
    ensures Strip(s) == [] ==> r == None
    ensures |Strip(s)| > 0 && AllDigits(Strip(s)) ==> r == Some(DigitsValue(Strip(s)) as real)
    ensures |Strip(s)| > 0 && Strip(s)[0] != '-' && Strip(s)[0] != '+' ==> r == ParseUnsigned(Strip(s))
    ensures |Strip(s)| > 0 && Strip(s)[0] == '+' ==> r == ParseUnsigned(Strip(s)[1..])
    ensures |Strip(s)| > 0 && Strip(s)[0] == '-' ==>
      (r.Some? <==> ParseUnsigned(Strip(s)[1..]).Some?) && (r.Some? ==> r.value == -ParseUnsigned(Strip(s)[1..]).value)
  {
    var t := Strip(s);
    if |t| > 0 && (t[0] == '-' || t[0] == '+') then
      match ParseUnsigned(t[1..])
      case None => None
      case Some(v) => Some(if t[0] == '-' then -v else v)
    else
      ParseUnsigned(t)
  }

  /** `float(str(n))` gives back `n` for every natural number. */
  lemma ParseFloatOfNat(n: nat)
    ensures ParseFloat(NatToString(n)) == Some(n as real)
  {
    var s := NatToString(n);
    assert TrimmedFrom(s, s, 0);
    StripUnique(s, s, 0);
    DigitsOfNatToString(n);
  }
}
