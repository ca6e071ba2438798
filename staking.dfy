/**
 * The nominator staking pool, as far as the migration uses it. Stake is keyed
 * by the vault's current nonce (slashing epoch); the reward accumulators are
 * keyed by (currency, (nonce, vault)).
 */
module Staking {
  import opened Wrappers
  import opened Primitives
  import opened FixedPoint
  import Reward

  type Nominator = (VaultId, AccountId)

  datatype Pool = Pool(
    nonce: map<VaultId, nat>,
    totalCurrentStake: map<(nat, VaultId), int>,
    stake: map<(nat, Nominator), int>,
    rewardPerToken: map<(CurrencyId, (nat, VaultId)), int>,
    rewardTally: map<(CurrencyId, (nat, Nominator)), int>,
    totalRewards: map<(CurrencyId, (nat, VaultId)), int>)

  function NonceOf(pool: Pool, v: VaultId): nat {
    if v in pool.nonce then pool.nonce[v] else 0
  }

  /** The key of vault `v`'s accumulators for currency `c` at its current nonce. */
  function RewardKey(pool: Pool, c: CurrencyId, v: VaultId): (CurrencyId, (nat, VaultId)) {
    (c, (NonceOf(pool, v), v))
  }

  /** `total_current_stake_at_index` at the vault's current nonce, as a fixed-point value. */
  function TotalCurrentStake(pool: Pool, v: VaultId): int {
    GetOrZero(pool.totalCurrentStake, (NonceOf(pool, v), v))
  }

  /**
   * `total_current_stake`: the same total as an integer balance, truncated
   * toward zero; a total that truncates to a negative balance does not convert.
   */
  function TotalCurrentStakeAmount(pool: Pool, v: VaultId): (r: Result<nat, ArithmeticError>)
    ensures TotalCurrentStake(pool, v) >= 0 ==> r == Ok(TotalCurrentStake(pool, v) / UNIT)
    ensures TotalCurrentStake(pool, v) <= -UNIT ==> r.Err?
    ensures -UNIT < TotalCurrentStake(pool, v) < 0 ==> r == Ok(0)
  {
    var amount := TruncateToInner(TotalCurrentStake(pool, v));
    if amount < 0 then Err(TryIntoIntError) else Ok(amount)
  }

  /** The two pools hold the same stakes, nonces and tallies: only reward accumulators may differ. */
  predicate SameStakes(a: Pool, b: Pool) {
    a.nonce == b.nonce && a.totalCurrentStake == b.totalCurrentStake && a.stake == b.stake
    && a.rewardTally == b.rewardTally
  }

  /**
   * `distribute_reward`: credit `reward` (an integer balance) to vault `v`'s
   * nominators in currency `c`. With no stake the reward is dropped and nothing
   * changes; otherwise reward-per-token grows by reward / total stake and the
   * total rewards by the reward. Any overflow is an error and changes nothing.
   */
  function DistributeReward(pool: Pool, c: CurrencyId, v: VaultId, reward: int): (r: Result<Pool, ArithmeticError>)
    ensures TotalCurrentStake(pool, v) == 0 ==> r == Ok(pool)
    ensures r.Ok? ==> SameStakes(r.value, pool)
    ensures r.Ok? ==> forall k :: k != RewardKey(pool, c, v) ==>
      GetOrZero(r.value.rewardPerToken, k) == GetOrZero(pool.rewardPerToken, k)
      && GetOrZero(r.value.totalRewards, k) == GetOrZero(pool.totalRewards, k)
    ensures r.Ok? && TotalCurrentStake(pool, v) != 0 ==>
      GetOrZero(r.value.totalRewards, RewardKey(pool, c, v)) == GetOrZero(pool.totalRewards, RewardKey(pool, c, v)) + reward * UNIT
    ensures r.Ok? && reward >= 0 && TotalCurrentStake(pool, v) > 0 ==>
      GetOrZero(r.value.rewardPerToken, RewardKey(pool, c, v)) >= GetOrZero(pool.rewardPerToken, RewardKey(pool, c, v))
    ensures r.Ok? && reward >= 0 && TotalCurrentStake(pool, v) > 0 ==>
      var d := GetOrZero(r.value.rewardPerToken, RewardKey(pool, c, v)) - GetOrZero(pool.rewardPerToken, RewardKey(pool, c, v));
      var total := TotalCurrentStake(pool, v);
      d * total <= reward * UNIT * UNIT < (d + 1) * total
    ensures reward >= 0 && TotalCurrentStake(pool, v) > 0 ==>
      var key := RewardKey(pool, c, v);
      var d := reward * UNIT * UNIT / TotalCurrentStake(pool, v);
      (r.Ok? <==> InRange(reward * UNIT) && InRange(d) && InRange(GetOrZero(pool.rewardPerToken, key) + d)
                  && InRange(GetOrZero(pool.totalRewards, key) + reward * UNIT))
  {
    var total := TotalCurrentStake(pool, v);
    if total == 0 then Ok(pool)
    else
      var key := RewardKey(pool, c, v);
      match CheckedFromInteger(reward)
      case None => Err(Overflow)
      case Some(amount) =>
        match CheckedDiv(amount, total)
        case None => Err(Underflow)
        case Some(perToken) =>
          match CheckedAdd(GetOrZero(pool.rewardPerToken, key), perToken)
          case None => Err(Overflow)
          case Some(rewardPerToken) =>
            match CheckedAdd(GetOrZero(pool.totalRewards, key), amount)
            case None => Err(Overflow)
            case Some(totalRewards) =>
              Ok(pool.(rewardPerToken := pool.rewardPerToken[key := rewardPerToken],
                       totalRewards := pool.totalRewards[key := totalRewards]))
  }

  /** `compute_reward`: what `nominator` of vault `v` is owed in `c`; read-only. */
  function ComputeReward(pool: Pool, c: CurrencyId, v: VaultId, nominator: AccountId): (r: Result<nat, ArithmeticError>)
    ensures GetOrZero(pool.stake, (NonceOf(pool, v), (v, nominator))) == 0
            && InRange(GetOrZero(pool.rewardPerToken, RewardKey(pool, c, v))
                       - GetOrZero(pool.rewardTally, (c, (NonceOf(pool, v), (v, nominator)))))
            ==> r == Ok(0)
    ensures GetOrZero(pool.rewardPerToken, RewardKey(pool, c, v))
            == GetOrZero(pool.rewardTally, (c, (NonceOf(pool, v), (v, nominator))))
            ==> r == Ok(0)
    ensures var stake := GetOrZero(pool.stake, (NonceOf(pool, v), (v, nominator)));
            var delta := GetOrZero(pool.rewardPerToken, RewardKey(pool, c, v))
                         - GetOrZero(pool.rewardTally, (c, (NonceOf(pool, v), (v, nominator))));
            r.Ok? && stake >= 0 && delta >= 0 ==> r.value * UNIT * UNIT <= stake * delta < (r.value + 1) * UNIT * UNIT
    ensures var stake := GetOrZero(pool.stake, (NonceOf(pool, v), (v, nominator)));
            var delta := GetOrZero(pool.rewardPerToken, RewardKey(pool, c, v))
                         - GetOrZero(pool.rewardTally, (c, (NonceOf(pool, v), (v, nominator))));
            stake >= 0 && delta >= 0 ==> (r.Ok? <==> InRange(delta) && InRange(stake * delta / UNIT))
  {
    var n := NonceOf(pool, v);
    Reward.Owed(GetOrZero(pool.stake, (n, (v, nominator))),
                GetOrZero(pool.rewardPerToken, (c, (n, v))),
                GetOrZero(pool.rewardTally, (c, (n, (v, nominator)))))
  }

  /** Every total stake is non-negative, as deposits and withdrawals keep it. */
  ghost predicate NonNegativeTotals(pool: Pool) {
    forall k :: GetOrZero(pool.totalCurrentStake, k) >= 0
  }

  /** No reward-per-token accumulator and no reward total is smaller in `b` than in `a`. */
  ghost predicate RewardsGrow(a: Pool, b: Pool) {
    forall k :: GetOrZero(a.rewardPerToken, k) <= GetOrZero(b.rewardPerToken, k)
             && GetOrZero(a.totalRewards, k) <= GetOrZero(b.totalRewards, k)
  }

  /** Distributing a non-negative reward over a non-negative stake never lowers an accumulator. */
  lemma DistributeRewardGrows(pool: Pool, c: CurrencyId, v: VaultId, reward: nat)
    requires NonNegativeTotals(pool)
    ensures DistributeReward(pool, c, v, reward).Ok? ==> RewardsGrow(pool, DistributeReward(pool, c, v, reward).value)
  {
    assert TotalCurrentStake(pool, v) >= 0;
  }

  /** The two pools hold the same reward totals in currency `c`, at every nonce and vault. */
  ghost predicate SameRewardsIn(a: Pool, b: Pool, c: CurrencyId) {
    forall k: (CurrencyId, (nat, VaultId)) :: k.0 == c ==> GetOrZero(a.totalRewards, k) == GetOrZero(b.totalRewards, k)
  }

  /** Distributing nothing, or distributing in another currency, leaves the reward totals in `c` alone. */
  lemma DistributeRewardKeeps(pool: Pool, d: CurrencyId, v: VaultId, reward: int, c: CurrencyId)
    requires reward == 0 || d != c
    ensures DistributeReward(pool, d, v, reward).Ok? ==> SameRewardsIn(pool, DistributeReward(pool, d, v, reward).value, c)
  {
  }
}
