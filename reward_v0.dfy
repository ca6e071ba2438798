/**
 * The version-0 layout of the vault reward pool: one flat pool whose
 * participants are vaults, with a reward-per-token accumulator and a tally
 * per (currency, vault). The migration reads it and then clears it.
 */
module RewardV0 {
  import opened Wrappers
  import opened Primitives
  import opened FixedPoint
  import Reward

  datatype Pool = Pool(
    totalStake: int,
    totalRewards: map<CurrencyId, int>,
    rewardPerToken: map<CurrencyId, int>,
    stake: map<VaultId, int>,
    rewardTally: map<(CurrencyId, VaultId), int>)

  /** The pool once all five of its storage items are removed. */
  function Empty(): Pool {
    Pool(0, map[], map[], map[], map[])
  }

  function StakeOf(pool: Pool, v: VaultId): int {
    GetOrZero(pool.stake, v)
  }

  /** `compute_reward`: what the vault is still owed in `c`; read-only. */
  function ComputeReward(pool: Pool, v: VaultId, c: CurrencyId): (r: Result<nat, ArithmeticError>)
    ensures StakeOf(pool, v) == 0 && InRange(GetOrZero(pool.rewardPerToken, c) - GetOrZero(pool.rewardTally, (c, v)))
            ==> r == Ok(0)
    ensures GetOrZero(pool.rewardPerToken, c) == GetOrZero(pool.rewardTally, (c, v)) ==> r == Ok(0)
    ensures var delta := GetOrZero(pool.rewardPerToken, c) - GetOrZero(pool.rewardTally, (c, v));
            r.Ok? && StakeOf(pool, v) >= 0 && delta >= 0 ==>
              r.value * UNIT * UNIT <= StakeOf(pool, v) * delta < (r.value + 1) * UNIT * UNIT
    ensures var delta := GetOrZero(pool.rewardPerToken, c) - GetOrZero(pool.rewardTally, (c, v));
            StakeOf(pool, v) >= 0 && delta >= 0 ==>
              (r.Ok? <==> InRange(delta) && InRange(StakeOf(pool, v) * delta / UNIT))
  {
    Reward.Owed(StakeOf(pool, v), GetOrZero(pool.rewardPerToken, c), GetOrZero(pool.rewardTally, (c, v)))
  }

  /** A cleared pool owes no vault anything and holds no stake. */
  lemma EmptyOwesNothing(v: VaultId, c: CurrencyId)
    ensures StakeOf(Empty(), v) == 0
    ensures ComputeReward(Empty(), v, c) == Ok(0)
    ensures GetOrZero(Empty().totalRewards, c) == 0
  {
  }
}
