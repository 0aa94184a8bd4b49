/** `calculate_offer_economics`: the platform's commission, rounded up to a cent. */
module Commission {
  import opened Wrappers

  datatype Economics = Economics(reward: int, rate: nat, fee: int, total: int)

  datatype RewardError = NotPositive

  function Fee(reward: int, rate: nat): int { (reward * rate + 9_999) / 10_000 }

  function OfferEconomics(reward: int, rate: nat): Result<Economics, RewardError> {
    if reward <= 0 then Err(NotPositive) else Ok(Economics(reward, rate, Fee(reward, rate), reward + Fee(reward, rate)))
  }

  /** The fee is the exact ceiling of `reward * rate / 10000`, and that determines it. */
  lemma ExactCeiling(reward: int, rate: nat, fee: int)
    ensures fee == Fee(reward, rate) <==> 10_000 * (fee - 1) < reward * rate <= 10_000 * fee
  {
  }

  /** What an offer costs: refused exactly for a reward that is not positive; otherwise the fee is the reward times the
    * rate over 10,000, rounded up, and the total is reward and fee. */
  lemma EconomicsIff(reward: int, rate: nat, e: Economics)
    ensures OfferEconomics(reward, rate) == Err(NotPositive) <==> reward <= 0
    ensures OfferEconomics(reward, rate) == Ok(e) <==>
      && reward > 0 && e.reward == reward && e.rate == rate
      && 10_000 * (e.fee - 1) < reward * rate <= 10_000 * e.fee && e.total == reward + e.fee
  {
    ExactCeiling(reward, rate, e.fee);
  }

  /** At a rate of at most 100%, the fee is between nothing and the reward. */
  lemma FeeBounds(reward: int, rate: nat)
    requires reward > 0 && rate <= 10_000
    ensures 0 <= Fee(reward, rate) <= reward
    ensures Fee(reward, rate) == 0 <==> rate == 0
  {
    ProductBounds(reward, rate);
  }

  lemma ProductBounds(reward: int, rate: nat)
    requires reward > 0 && rate <= 10_000
    ensures 0 <= reward * rate <= reward * 10_000
    ensures rate > 0 ==> reward * rate > 0
  {
    assert reward * (10_000 - rate) >= 0;
  }

  lemma FeeMonotone(r: int, s: int, a: nat, b: nat)
    requires 0 < r <= s && a <= b
    ensures Fee(r, a) <= Fee(s, b)
  {
    assert r * a <= s * a by { assert (s - r) * a >= 0; }
    assert s * a <= s * b by { assert s * (b - a) >= 0; }
  }

  function Sum(rewards: seq<int>): int {
    if rewards == [] then 0 else rewards[0] + Sum(rewards[1..])
  }

  function SumFees(rewards: seq<int>, rate: nat): int {
    if rewards == [] then 0 else Fee(rewards[0], rate) + SumFees(rewards[1..], rate)
  }

  /** Charging k rewards apart costs between 0 and k - 1 cents more than charging them together. */
  lemma {:induction false} SplittingCost(rewards: seq<int>, rate: nat)
    requires rewards != []
    ensures 0 <= SumFees(rewards, rate) - Fee(Sum(rewards), rate) <= |rewards| - 1
  {
    var first, rest := rewards[0], rewards[1..];
    if rest != [] {
      SplittingCost(rest, rate);
      TwoFees(first, Sum(rest), rate);
    }
  }

  lemma TwoFees(r: int, s: int, rate: nat)
    ensures 0 <= Fee(r, rate) + Fee(s, rate) - Fee(r + s, rate) <= 1
  {
    assert (r + s) * rate == r * rate + s * rate;
    ExactCeiling(r, rate, Fee(r, rate));
    ExactCeiling(s, rate, Fee(s, rate));
    ExactCeiling(r + s, rate, Fee(r + s, rate));
  }

  /** At a fixed rate the sender's total determines the reward. */
  lemma TotalDeterminesReward(r: int, s: int, rate: nat)
    requires r > 0 && s > 0
    requires OfferEconomics(r, rate).value.total == OfferEconomics(s, rate).value.total
    ensures r == s
  {
    if r < s {
      FeeMonotone(r, s, rate, rate);
    } else if s < r {
      FeeMonotone(s, r, rate, rate);
    }
  }
}
