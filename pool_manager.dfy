/**
 * The pool manager's stake update for one vault: the vault's stake in the
 * vault-rewards pool becomes its capacity (collateral / secure threshold), and
 * the capacity pool's stake for the collateral currency becomes that
 * currency's total vault-rewards stake converted into the wrapped currency.
 */
module PoolManager {
  import opened Wrappers
  import opened Primitives
  import opened FixedPoint
  import Reward
  import Staking

  /**
   * An integer balance divided by an unsigned fixed-point value, rounded down.
   * The migration does this twice: it divides a vault's collateral by its
   * secure threshold (`checked_div`), and it converts a collateral amount into
   * the wrapped currency at the collateral's exchange rate (`convert_to`).
   */
  function Quotient(amount: int, divisor: nat): (r: int)
    requires divisor > 0
    ensures r * divisor <= amount * UNIT < (r + 1) * divisor
    ensures amount >= 0 ==> r >= 0
  {
    amount * UNIT / divisor
  }

  /** The lookups behind the `.unwrap()` calls succeed for vault `v`. */
  predicate CanUpdate(staking: Staking.Pool, thresholds: map<VaultId, nat>, prices: map<CurrencyId, nat>, v: VaultId) {
    && Staking.TotalCurrentStakeAmount(staking, v).Ok?
    && v in thresholds && thresholds[v] > 0
    && v.CollateralCurrency() in prices && prices[v.CollateralCurrency()] > 0
  }

  /** The capacity of vault `v` in collateral units. */
  function VaultCapacity(staking: Staking.Pool, thresholds: map<VaultId, nat>, v: VaultId): nat
    requires Staking.TotalCurrentStakeAmount(staking, v).Ok? && v in thresholds && thresholds[v] > 0
  {
    Quotient(Staking.TotalCurrentStakeAmount(staking, v).value, thresholds[v])
  }

  /**
   * `update_reward_stake`: re-stake vault `v` in the vault-rewards pool keyed by
   * (collateral currency, v), then re-stake the collateral currency in the
   * capacity pool keyed by ((), collateral currency).
   */
  function UpdateRewardStake(
    vaultRewards: Reward.Pool<CurrencyId, VaultId>, capacity: Reward.Pool<(), CurrencyId>,
    staking: Staking.Pool, thresholds: map<VaultId, nat>, prices: map<CurrencyId, nat>, v: VaultId
  ): (r: (Reward.Pool<CurrencyId, VaultId>, Reward.Pool<(), CurrencyId>))
    requires CanUpdate(staking, thresholds, prices, v)
    ensures Reward.StakeOf(r.0, v.CollateralCurrency(), v) == VaultCapacity(staking, thresholds, v)
    ensures forall q: CurrencyId, t: VaultId :: (q, t) != (v.CollateralCurrency(), v) ==> Reward.StakeOf(r.0, q, t) == Reward.StakeOf(vaultRewards, q, t)
    ensures Reward.TotalStake(r.0, v.CollateralCurrency())
            == Reward.TotalStake(vaultRewards, v.CollateralCurrency()) - Reward.StakeOf(vaultRewards, v.CollateralCurrency(), v)
               + VaultCapacity(staking, thresholds, v)
    ensures forall q :: q != v.CollateralCurrency() ==> Reward.TotalStake(r.0, q) == Reward.TotalStake(vaultRewards, q)
    ensures Reward.StakeOf(r.1, (), v.CollateralCurrency())
            == Quotient(Reward.TotalStake(r.0, v.CollateralCurrency()), prices[v.CollateralCurrency()])
    ensures forall q :: q != v.CollateralCurrency() ==> Reward.StakeOf(r.1, (), q) == Reward.StakeOf(capacity, (), q)
    ensures Reward.TotalStake(r.1, ())
            == Reward.TotalStake(capacity, ()) - Reward.StakeOf(capacity, (), v.CollateralCurrency())
               + Reward.StakeOf(r.1, (), v.CollateralCurrency())
  {
    var c := v.CollateralCurrency();
    var vaultRewards' := Reward.SetStake(vaultRewards, c, v, VaultCapacity(staking, thresholds, v));
    var capacityStake := Quotient(Reward.TotalStake(vaultRewards', c), prices[c]);
    (vaultRewards', Reward.SetStake(capacity, (), c, capacityStake))
  }
}
