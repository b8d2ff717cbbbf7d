/** `crates/primitives/fees`: fee rates in pips (1 pip = 0.0001%). */
module Pips {
  import opened Wrappers
  import opened Numbers

  /** 100%. */
  const MAX_PIPS: nat := 1_000_000
  /** 25%, the cap on an escrow's base fees. */
  const MAX_FEE: nat := 250_000

  type Rate = p: nat | p <= MAX_PIPS

  function CheckedAddRate(a: Rate, b: Rate): (r: Option<Rate>) {
    if a + b <= MAX_PIPS then Some(a + b) else None
  }

  function Invert(p: Rate): (r: Rate) {
    MAX_PIPS - p
  }

  /** The fee rounded up. It is the least amount covering the exact share, is never more than the
      amount itself, and is nothing for a zero rate; the source's `unreachable!` is never hit. */
  function FeeCeil(p: Rate, amount: U128): (fee: U128)
    ensures (fee - 1) * MAX_PIPS < amount * p <= fee * MAX_PIPS
    ensures fee <= amount
    ensures p == 0 || amount == 0 ==> fee == 0
    ensures p > 0 && amount > 0 ==> fee > 0
  {
    MulMono(p, MAX_PIPS, amount);
    MulMono(amount, U128_MAX, MAX_PIPS);
    var fee := MulDivCeil(amount, p, MAX_PIPS).value;
    FeeBounds(p, amount, fee);
    fee
  }

  lemma FeeBounds(p: Rate, amount: U128, fee: U128)
    requires (fee - 1) * MAX_PIPS < amount * p <= fee * MAX_PIPS
    ensures fee <= amount
    ensures p == 0 || amount == 0 ==> fee == 0
    ensures p > 0 && amount > 0 ==> fee > 0
  {
    MulMono(p, MAX_PIPS, amount);
    assert (fee - 1) * MAX_PIPS < amount * MAX_PIPS || amount == 0;
    if p > 0 && amount > 0 {
      assert amount * p > 0;
    }
  }

  /** What stays with the payer and what the collector gets add up, with one rounding only:
      minus the amount plus its fee is the rounded-up share that is left after the fee. */
  lemma FeeIsComplement(p: Rate, amount: U128)
    ensures FeeCeil(p, amount) as int - amount == CeilDiv((0 - amount) * Invert(p), MAX_PIPS)
  {
    var fee: int := FeeCeil(p, amount);
    assert (0 - amount) * Invert(p) == (0 - amount) * MAX_PIPS + amount * p;
    CeilUnique((0 - amount) * Invert(p), MAX_PIPS, fee - amount);
  }
}
