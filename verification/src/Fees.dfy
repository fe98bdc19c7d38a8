/** The economic envelope: its validation and the basis-point fee. */
module Fees {
  import opened Common

  const U64_LIMIT: nat := 0x1_0000_0000_0000_0000
  const FULL_BPS: nat := 10000

  datatype EconomicEnvelope = EconomicEnvelope(maxFeesBps: nat, expiry: Option<string>)

  datatype EnvelopeFault = FeesTooHigh | BadExpiry

  function Validate(env: EconomicEnvelope): Option<EnvelopeFault> {
    if env.maxFeesBps > FULL_BPS then Some(FeesTooHigh)
    else if env.expiry.Some? && !LooksLikeRfc3339(env.expiry.value) then Some(BadExpiry)
    else None
  }

  /** The product is exact in 128 bits; the quotient is cut to 64. */
  function CalculateMaxFee(env: EconomicEnvelope, amount: nat): nat {
    amount * env.maxFeesBps / FULL_BPS % U64_LIMIT
  }

  /** The fee before the cast. */
  function ExactFee(bps: nat, amount: nat): nat {
    amount * bps / FULL_BPS
  }

  lemma ExactFeeBounds(bps: nat, amount: nat)
    requires bps <= FULL_BPS
    ensures ExactFee(bps, amount) <= amount
  {
    ProductMonotone(bps, FULL_BPS, amount);
  }

  lemma ProductMonotone(a: nat, b: nat, c: nat)
    requires a <= b
    ensures c * a <= c * b
  {
  }

  /** For a validated envelope the cast never truncates and the fee never exceeds the amount. */
  lemma ValidFeeIsExact(env: EconomicEnvelope, amount: nat)
    requires Validate(env).None? && amount < U64_LIMIT
    ensures CalculateMaxFee(env, amount) == ExactFee(env.maxFeesBps, amount) <= amount
  {
    ExactFeeBounds(env.maxFeesBps, amount);
  }

  /** For any envelope the cast truncates exactly when the fee needs more than 64 bits, and then drops the rest. */
  lemma TruncatesIff(env: EconomicEnvelope, amount: nat)
    ensures CalculateMaxFee(env, amount) != ExactFee(env.maxFeesBps, amount)
            <==> amount * env.maxFeesBps >= FULL_BPS * U64_LIMIT
    ensures CalculateMaxFee(env, amount) < 0x1_0000_0000_0000_0000
    ensures (ExactFee(env.maxFeesBps, amount) - CalculateMaxFee(env, amount)) % 0x1_0000_0000_0000_0000 == 0
  {
  }

  lemma FeeMonotone(env: EconomicEnvelope, other: EconomicEnvelope, amount: nat, more: nat)
    requires Validate(env).None? && Validate(other).None?
    requires env.maxFeesBps <= other.maxFeesBps && amount <= more < U64_LIMIT
    ensures CalculateMaxFee(env, amount) <= CalculateMaxFee(other, more)
  {
    ValidFeeIsExact(env, amount);
    ValidFeeIsExact(other, more);
    ProductMonotone(env.maxFeesBps, other.maxFeesBps, amount);
    ProductMonotone(amount, more, other.maxFeesBps);
  }

  /** A validated envelope's fee is the amount's share of its rate in ten-thousandths, rounded down. */
  lemma FeeIsFloor(env: EconomicEnvelope, amount: nat)
    requires Validate(env).None? && amount < 0x1_0000_0000_0000_0000
    ensures CalculateMaxFee(env, amount) * 10000 <= amount * env.maxFeesBps < (CalculateMaxFee(env, amount) + 1) * 10000
  {
    ValidFeeIsExact(env, amount);
  }

  /** Exactly the envelopes with a rate of at most the whole, and an expiry, if any, that looks like an instant. */
  lemma ValidIff(env: EconomicEnvelope)
    ensures Validate(env) == Some(FeesTooHigh) <==> env.maxFeesBps > 10000
    ensures Validate(env).None? <==>
            && env.maxFeesBps <= 10000
            && (env.expiry.Some? ==>
                  && 'T' in env.expiry.value
                  && (|| env.expiry.value[|env.expiry.value| - 1] == 'Z'
                      || '+' in env.expiry.value || '-' in env.expiry.value))
  {
  }

  function Sum(amounts: seq<nat>): nat {
    if amounts == [] then 0 else amounts[0] + Sum(amounts[1..])
  }

  function SumOfFees(env: EconomicEnvelope, amounts: seq<nat>): nat {
    if amounts == [] then 0 else CalculateMaxFee(env, amounts[0]) + SumOfFees(env, amounts[1..])
  }

  lemma SplitInTwo(bps: nat, a: nat, b: nat)
    ensures ExactFee(bps, a) + ExactFee(bps, b) <= ExactFee(bps, a + b) <= ExactFee(bps, a) + ExactFee(bps, b) + 1
  {
    assert (a + b) * bps == a * bps + b * bps;
  }

  /** Splitting a payment into n parts lowers the total fee by less than n units, and never raises it. */
  lemma {:induction false} FeeSplitting(env: EconomicEnvelope, amounts: seq<nat>)
    requires Validate(env).None? && amounts != [] && Sum(amounts) < U64_LIMIT
    ensures SumOfFees(env, amounts) <= CalculateMaxFee(env, Sum(amounts)) <= SumOfFees(env, amounts) + |amounts| - 1
  {
    var rest := amounts[1..];
    if rest != [] {
      FeeSplitting(env, rest);
      SplitInTwo(env.maxFeesBps, amounts[0], Sum(rest));
      ValidFeeIsExact(env, amounts[0]);
      ValidFeeIsExact(env, Sum(rest));
      ValidFeeIsExact(env, Sum(amounts));
    }
  }
}
