/** Fee deduction from an unsigned balance, clamped at zero. */
module Fees {
  import opened Primitives

  function Min(a: int, b: int): int {
    if a <= b then a else b
  }

  /** `apply_fee`: the new balance, `balance.saturating_sub(fee)`. The amount
      actually taken is the fee, or the whole balance when the fee exceeds it. */
  function ApplyFee(balance: u64, fee: u64): (newBalance: u64)
    ensures newBalance <= balance
    ensures balance - newBalance == Min(fee, balance)
  {
    if fee <= balance then balance - fee else 0
  }

  /** Charging two fees in turn is charging their sum at once. */
  lemma ApplyFeeTwice(balance: u64, fee1: u64, fee2: u64)
    requires fee1 + fee2 <= U64_MAX
    ensures ApplyFee(ApplyFee(balance, fee1), fee2) == ApplyFee(balance, fee1 + fee2)
  {
  }

  /** An empty fee leaves the balance alone, and no fee can take more than
      the balance holds. */
  lemma ApplyFeeBounds(balance: u64, fee: u64)
    ensures ApplyFee(balance, 0) == balance
    ensures fee >= balance ==> ApplyFee(balance, fee) == 0
  {
  }
}
