/** `strconv.FormatInt(n, 10)` for the non-negative indices the enum
    translation formats, and its inverse, which shows that distinct indices
    give distinct metadata keys. */
module Strconv {

  function DigitChar(d: nat): (c: char)
    requires d < 10
    ensures '0' <= c <= '9'
  {
    "0123456789"[d]
  }

  function DigitValue(c: char): nat
  {
    if '0' <= c <= '9' then (c - '0') as nat else 0
  }

  /** Base-10 text of `n`, without leading zeros. */
  function FormatDecimal(n: nat): (s: string)
    ensures |s| >= 1
    ensures forall i :: 0 <= i < |s| ==> '0' <= s[i] <= '9'
    decreases n
  {
    if n < 10 then [DigitChar(n)] else FormatDecimal(n / 10) + [DigitChar(n % 10)]
  }

  /** The value of a string of decimal digits. */
  function ParseDecimal(s: string): nat
    decreases |s|
  {
    if s == [] then 0 else 10 * ParseDecimal(s[..|s| - 1]) + DigitValue(s[|s| - 1])
  }

  lemma {:induction false} ParseFormatRoundTrip(n: nat)
    ensures ParseDecimal(FormatDecimal(n)) == n
    decreases n
  {
    var s := FormatDecimal(n);
    if n < 10 {
      assert s[..|s| - 1] == [];
    } else {
      ParseFormatRoundTrip(n / 10);
      assert s[..|s| - 1] == FormatDecimal(n / 10);
    }
  }

  lemma FormatDecimalInjective(a: nat, b: nat)
    requires FormatDecimal(a) == FormatDecimal(b)
    ensures a == b
  {
    ParseFormatRoundTrip(a);
    ParseFormatRoundTrip(b);
  }

  /** Every other index formats differently from `n`. */
  lemma FormatDecimalDistinct(n: nat)
    ensures forall i: nat :: i != n ==> FormatDecimal(i) != FormatDecimal(n)
  {
    forall i: nat | i != n ensures FormatDecimal(i) != FormatDecimal(n) {
      if FormatDecimal(i) == FormatDecimal(n) {
        FormatDecimalInjective(i, n);
      }
    }
  }

  /** The first three enum indices. */
  lemma FirstIndices()
    ensures FormatDecimal(0) == "0" && FormatDecimal(1) == "1" && FormatDecimal(2) == "2"
  {
  }
}
