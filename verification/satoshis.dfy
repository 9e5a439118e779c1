/** Parsing a decimal satoshi amount the way Rust's `u64::from_str` does. */
module Satoshis {
  import opened Primitives

  /** The one error text `parse_satoshis` reports, whatever went wrong. */
  const InvalidAmount: string := "Invalid satoshi amount"

  predicate IsDigit(c: char) {
    '0' <= c <= '9'
  }

  predicate AllDigits(s: string) {
    forall i :: 0 <= i < |s| ==> IsDigit(s[i])
  }

  /** The numeral after an optional single leading '+'; a '-' is not a sign
      for an unsigned type and stays part of the numeral. */
  function Magnitude(input: string): (m: string)
    ensures input == m || input == ['+'] + m
  {
    if |input| > 0 && input[0] == '+' then input[1..] else input
  }

  /** The value of a string of decimal digits, most significant first. */
  function DecimalValue(digits: string): nat
    requires AllDigits(digits)
  {
    if |digits| == 0 then 0
    else 10 * DecimalValue(digits[..|digits| - 1]) + (digits[|digits| - 1] as int - '0' as int)
  }

  /** The strings `u64::from_str` accepts: an optional '+', then at least one
      ASCII digit, with a value that fits in 64 bits. */
  predicate IsAmount(input: string) {
    var m := Magnitude(input);
    |m| > 0 && AllDigits(m) && DecimalValue(m) <= U64_MAX
  }

  /** A numeral's value is at least that of each of its prefixes. */
  lemma {:induction false} PrefixValueBound(digits: string, k: nat)
    requires AllDigits(digits) && k <= |digits|
    ensures DecimalValue(digits[..k]) <= DecimalValue(digits)
    decreases |digits|
  {
    if k < |digits| {
      var init := digits[..|digits| - 1];
      assert digits[..k] == init[..k];
      PrefixValueBound(init, k);
    } else {
      assert digits[..k] == digits;
    }
  }

  /** `parse_satoshis`: digits are accumulated left to right and the parse
      stops at the first non-digit or as soon as the value leaves `u64`. */
  method ParseSatoshis(input: string) returns (r: Result<u64, string>)
    ensures r.Ok? <==> IsAmount(input)
    ensures r.Ok? ==> r.value == DecimalValue(Magnitude(input))
    ensures r.Err? ==> r.error == InvalidAmount
  {
    var digits := Magnitude(input);
    if |digits| == 0 {
      return Err(InvalidAmount);
    }
    var acc: u64 := 0;
    var i := 0;
    while i < |digits|
      invariant 0 <= i <= |digits|
      invariant AllDigits(digits[..i])
      invariant acc == DecimalValue(digits[..i])
    {
      if !IsDigit(digits[i]) {
        return Err(InvalidAmount);
      }
      var next := 10 * acc + (digits[i] as int - '0' as int);
      assert digits[..i + 1][..i] == digits[..i];
      if next > U64_MAX {
        if AllDigits(digits) {
          PrefixValueBound(digits, i + 1);
        }
        return Err(InvalidAmount);
      }
      acc := next;
      i := i + 1;
    }
    assert digits[..i] == digits;
    return Ok(acc);
  }

  /** Inputs that are never amounts: the empty string, a lone sign, any
      negative amount, and a doubled sign. */
  lemma RejectedInputs(rest: string)
    ensures !IsAmount("")
    ensures !IsAmount("+")
    ensures !IsAmount(['-'] + rest)
    ensures !IsAmount(['+', '+'] + rest)
  {
  }
}
