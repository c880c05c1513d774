/** Base-10 integer text: the `%d` verb of Go's fmt on the writing side, and
    `strconv.ParseInt(s, 10, 0)` / `strconv.Atoi` on the reading side, taken
    as "an optional sign followed by one or more decimal digits" over
    unbounded integers. */
module Decimal {
  import opened Bytes
  import opened Wrappers

  predicate IsDigit(b: byte) {
    ZERO <= b <= ZERO + 9
  }

  predicate AllDigits(s: Bytes) {
    forall i :: 0 <= i < |s| ==> IsDigit(s[i])
  }

  /** The value of a run of decimal digits, most significant first. */
  function DigitsValue(s: Bytes): nat
    requires AllDigits(s)
  {
    if s == [] then 0 else DigitsValue(s[..|s| - 1]) * 10 + (s[|s| - 1] - ZERO)
  }

  /** Integer parsing: an optional '+' or '-' and at least one digit, nothing else. */
  function ParseInt(s: Bytes): (r: Option<int>)
    ensures r.Some? ==> |s| > 0 && (IsDigit(s[0]) || s[0] == PLUS || s[0] == MINUS)
    ensures r.Some? && r.value < 0 ==> s[0] == MINUS
  {
    if |s| > 0 && (s[0] == PLUS || s[0] == MINUS) then
      var digits := s[1..];
      if |digits| > 0 && AllDigits(digits) then
        var magnitude: int := DigitsValue(digits);
        Some(if s[0] == MINUS then -magnitude else magnitude)
      else None
    else if |s| > 0 && AllDigits(s) then Some(DigitsValue(s))
    else None
  }

  /** `%d` of a non-negative integer: canonical digits, no leading zero. */
  function NatToDecimal(n: nat): (r: Bytes)
    ensures |r| > 0 && AllDigits(r)
    ensures r[0] == ZERO ==> n == 0 && |r| == 1
  {
    if n < 10 then [ZERO + n] else NatToDecimal(n / 10) + [ZERO + n % 10]
  }

  /** `%d` of any integer: a '-' before the digits of a negative value. */
  function IntToDecimal(i: int): (r: Bytes)
    ensures |r| > 0
    ensures forall k :: 0 <= k < |r| ==> r[k] != CR && r[k] != LF
    ensures (r[0] == MINUS) == (i < 0)
  {
    if i < 0 then [MINUS] + NatToDecimal(-i) else NatToDecimal(i)
  }

  /** Reading back the digits of `n` gives `n`. */
  lemma {:induction false} DigitsValueOfDecimal(n: nat)
    ensures DigitsValue(NatToDecimal(n)) == n
  {
    var r := NatToDecimal(n);
    if n < 10 {
      assert r[..|r| - 1] == [];
    } else {
      var prefix := NatToDecimal(n / 10);
      assert r[..|r| - 1] == prefix;
      DigitsValueOfDecimal(n / 10);
    }
  }

  /** Round trip: the integer parser reads back what `%d` writes. */
  lemma ParseIntOfDecimal(i: int)
    ensures ParseInt(IntToDecimal(i)) == Some(i)
  {
    if i < 0 {
      var r := IntToDecimal(i);
      assert r[1..] == NatToDecimal(-i);
      DigitsValueOfDecimal(-i);
    } else {
      DigitsValueOfDecimal(i);
    }
  }
}
