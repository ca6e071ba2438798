/**
 * The reward checks of `post_upgrade`: the rewards held in staking after the
 * upgrade, per currency, are compared with the figure `pre_upgrade` recorded
 * (the old pool's rewards plus those already in staking).
 */
module PostUpgrade {
  import opened Wrappers
  import opened Primitives
  import opened Weights
  import FixedPoint
  import Reward
  import RewardV0
  import Staking
  import opened VaultCapacity

  /** What `pre_upgrade` records, after decoding; the stake-entry count is only logged. */
  datatype RewardsState = RewardsState(totalRewardsNative: int, totalRewardsWrapped: int)

  /** The staking rewards in currency `c`, summed over every nonce and vault. */
  ghost function StakingRewards(staking: Staking.Pool, c: CurrencyId): int {
    Reward.PoolSum(staking.totalRewards, c)
  }

  /** The rewards in `c` before the upgrade: those in the old pool plus those in staking. */
  ghost function RewardsBefore(s: Storage, c: CurrencyId): int {
    GetOrZero(s.legacy.totalRewards, c) + StakingRewards(s.staking, c)
  }

  /** `pre_upgrade`. */
  ghost function PreUpgrade(s: Storage, native: CurrencyId, wrapped: CurrencyId): RewardsState {
    RewardsState(RewardsBefore(s, native), RewardsBefore(s, wrapped))
  }

  /** The rewards check for currency `c` as written: strictly fewer rewards in staking than recorded. */
  ghost predicate RewardsCheckAsWritten(before: int, after: Storage, c: CurrencyId) {
    StakingRewards(after.staking, c) < before
  }

  /** The rewards check the rounding comment describes: no more rewards in staking than recorded. */
  ghost predicate RewardsCheck(before: int, after: Storage, c: CurrencyId) {
    StakingRewards(after.staking, c) <= before
  }

  /** Both currencies' rewards checks of `post_upgrade`, as written. */
  ghost predicate RewardsChecksAsWritten(state: RewardsState, after: Storage, native: CurrencyId, wrapped: CurrencyId) {
    RewardsCheckAsWritten(state.totalRewardsNative, after, native)
    && RewardsCheckAsWritten(state.totalRewardsWrapped, after, wrapped)
  }

  /** Both currencies' rewards checks of `post_upgrade`, corrected. */
  ghost predicate RewardsChecks(state: RewardsState, after: Storage, native: CurrencyId, wrapped: CurrencyId) {
    RewardsCheck(state.totalRewardsNative, after, native) && RewardsCheck(state.totalRewardsWrapped, after, wrapped)
  }

  /**
   * The upgrade never lowers the staking rewards in any currency, so when the
   * old pool holds no rewards in `c` the strict check rejects every upgrade.
   */
  lemma StrictCheckRejectsWithoutOldRewards(cfg: Config, s: Storage, c: CurrencyId)
    requires Migratable(s) && s.version == 0
    requires GetOrZero(s.legacy.totalRewards, c) == 0
    ensures !RewardsCheckAsWritten(RewardsBefore(s, c), Migrate(cfg, s).storage, c)
  {
    CarryVaultsBound(cfg, s.vaults, Step(s, ReadsWrites(cfg.db, 2, 1)), c);
  }

  lemma {:induction false} CarryCurrenciesKeep(cfg: Config, v: VaultId, cs: seq<CurrencyId>, st: Step, c: CurrencyId)
    requires RewardV0.ComputeReward(st.storage.legacy, v, c).UnwrapOr(0) == 0
    ensures Staking.SameRewardsIn(st.storage.staking, CarryCurrencies(cfg, v, cs, st).storage.staking, c)
    decreases |cs|
  {
    if cs != [] {
      var prev := CarryCurrencies(cfg, v, cs[..|cs| - 1], st);
      CarryCurrenciesKeep(cfg, v, cs[..|cs| - 1], st, c);
      var d := cs[|cs| - 1];
      var reward := RewardV0.ComputeReward(prev.storage.legacy, v, d).UnwrapOr(0);
      Staking.DistributeRewardKeeps(prev.storage.staking, d, v, reward, c);
    }
  }

  lemma {:induction false} CarryVaultsKeep(cfg: Config, vs: seq<VaultId>, st: Step, c: CurrencyId)
    requires forall v :: v in vs ==> RewardV0.ComputeReward(st.storage.legacy, v, c).UnwrapOr(0) == 0
    ensures Staking.SameRewardsIn(st.storage.staking, CarryVaults(cfg, vs, st).storage.staking, c)
    decreases |vs|
  {
    if vs != [] {
      var prev := CarryVaults(cfg, vs[..|vs| - 1], st);
      CarryVaultsKeep(cfg, vs[..|vs| - 1], st, c);
      var v := vs[|vs| - 1];
      assert v in vs;
      CarryCurrenciesKeep(cfg, v, RewardCurrencies(cfg, v), prev.(weight := SaturatingAdd(prev.weight, Reads(cfg.db, 1))), c);
    }
  }

  /**
   * When the old pool owes no vault anything in `c`, the upgrade moves no
   * reward in `c` and the corrected check accepts it.
   */
  lemma CheckAcceptsWhenNothingOwed(cfg: Config, s: Storage, c: CurrencyId)
    requires Migratable(s) && s.version == 0
    requires GetOrZero(s.legacy.totalRewards, c) >= 0
    requires forall v :: v in s.vaults ==> RewardV0.ComputeReward(s.legacy, v, c).UnwrapOr(0) == 0
    ensures StakingRewards(Migrate(cfg, s).storage.staking, c) == StakingRewards(s.staking, c)
    ensures RewardsCheck(RewardsBefore(s, c), Migrate(cfg, s).storage, c)
  {
    var after := Migrate(cfg, s).storage.staking;
    CarryVaultsKeep(cfg, s.vaults, Step(s, ReadsWrites(cfg.db, 2, 1)), c);
    Reward.PoolSumMonotone(s.staking.totalRewards, after.totalRewards, c);
    Reward.PoolSumMonotone(after.totalRewards, s.staking.totalRewards, c);
  }

  /** What the old pool owes the vaults `vs` in currency `c`, in whole tokens (a failing computation counts as 0). */
  function OwedTotal(legacy: RewardV0.Pool, vs: seq<VaultId>, c: CurrencyId): (r: nat)
    ensures r == 0 <==> forall v :: v in vs ==> RewardV0.ComputeReward(legacy, v, c).UnwrapOr(0) == 0
    decreases |vs|
  {
    if vs == [] then 0
    else
      assert forall v :: v in vs <==> v in vs[..|vs| - 1] || v == vs[|vs| - 1];
      OwedTotal(legacy, vs[..|vs| - 1], c) + RewardV0.ComputeReward(legacy, vs[|vs| - 1], c).UnwrapOr(0)
  }

  /**
   * The old pool is solvent in `c`: its total rewards cover what it owes the
   * vaults. The reward pallet keeps this, since every owed amount is rounded down.
   */
  ghost predicate Solvent(s: Storage, c: CurrencyId) {
    GetOrZero(s.legacy.totalRewards, c) >= FixedPoint.UNIT * OwedTotal(s.legacy, s.vaults, c)
  }

  /** One entry adds at most what the old pool owes the vault in `c`, and nothing in other currencies. */
  lemma CarryEntryBound(cfg: Config, v: VaultId, d: CurrencyId, st: Step, c: CurrencyId)
    ensures StakingRewards(st.storage.staking, c) <= StakingRewards(CarryEntry(cfg, v, d, st).storage.staking, c)
    ensures StakingRewards(CarryEntry(cfg, v, d, st).storage.staking, c)
            <= StakingRewards(st.storage.staking, c)
               + (if d == c then FixedPoint.UNIT * RewardV0.ComputeReward(st.storage.legacy, v, c).UnwrapOr(0) else 0)
  {
    var pool := st.storage.staking;
    var reward := RewardV0.ComputeReward(st.storage.legacy, v, d).UnwrapOr(0);
    var r := Staking.DistributeReward(pool, d, v, reward);
    if r.Ok? && Staking.TotalCurrentStake(pool, v) != 0 {
      Reward.PoolSumBump(pool.totalRewards, r.value.totalRewards, c, Staking.RewardKey(pool, d, v), reward * FixedPoint.UNIT);
    }
  }

  /**
   * A vault's pass lowers no staking reward sum, and, when its two reward
   * currencies differ, adds at most what the old pool owes it in `c`.
   */
  lemma CarryVaultBound(cfg: Config, v: VaultId, st: Step, c: CurrencyId)
    ensures StakingRewards(st.storage.staking, c) <= StakingRewards(CarryVault(cfg, v, st).storage.staking, c)
    ensures v.WrappedCurrency() != cfg.native ==>
      StakingRewards(CarryVault(cfg, v, st).storage.staking, c)
      <= StakingRewards(st.storage.staking, c) + FixedPoint.UNIT * RewardV0.ComputeReward(st.storage.legacy, v, c).UnwrapOr(0)
  {
    var cs := RewardCurrencies(cfg, v);
    var st0 := st.(weight := SaturatingAdd(st.weight, Reads(cfg.db, 1)));
    assert cs[..1] == [v.WrappedCurrency()] && cs[..1][..0] == [];
    var st1 := CarryEntry(cfg, v, v.WrappedCurrency(), st0);
    assert CarryCurrencies(cfg, v, cs[..1], st0) == st1;
    CarryEntryBound(cfg, v, v.WrappedCurrency(), st0, c);
    CarryEntryBound(cfg, v, cfg.native, st1, c);
  }

  /**
   * The first loop lowers no staking reward sum, and, when no vault's wrapped
   * currency is the native one, adds at most what the old pool owes in `c`.
   */
  lemma {:induction false} CarryVaultsBound(cfg: Config, vs: seq<VaultId>, st: Step, c: CurrencyId)
    ensures StakingRewards(st.storage.staking, c) <= StakingRewards(CarryVaults(cfg, vs, st).storage.staking, c)
    ensures (forall v :: v in vs ==> v.WrappedCurrency() != cfg.native) ==>
      StakingRewards(CarryVaults(cfg, vs, st).storage.staking, c)
      <= StakingRewards(st.storage.staking, c) + FixedPoint.UNIT * OwedTotal(st.storage.legacy, vs, c)
    decreases |vs|
  {
    if vs != [] {
      var prev := CarryVaults(cfg, vs[..|vs| - 1], st);
      CarryVaultsBound(cfg, vs[..|vs| - 1], st, c);
      var v := vs[|vs| - 1];
      assert v in vs;
      CarryVaultBound(cfg, v, prev, c);
    }
  }

  /**
   * The corrected check accepts every run from version 0 whose old pool is
   * solvent in `c`: staking gains at most what the old pool owed, which its
   * recorded total covers.
   */
  lemma CheckAcceptsWhenSolvent(cfg: Config, s: Storage, c: CurrencyId)
    requires Migratable(s) && s.version == 0
    requires forall v :: v in s.vaults ==> v.WrappedCurrency() != cfg.native
    requires Solvent(s, c)
    ensures StakingRewards(Migrate(cfg, s).storage.staking, c)
            <= StakingRewards(s.staking, c) + FixedPoint.UNIT * OwedTotal(s.legacy, s.vaults, c)
    ensures RewardsCheck(RewardsBefore(s, c), Migrate(cfg, s).storage, c)
  {
    CarryVaultsBound(cfg, s.vaults, Step(s, ReadsWrites(cfg.db, 2, 1)), c);
  }

  /** Both corrected checks of `post_upgrade` accept every run from version 0 whose old pool is solvent in both currencies. */
  lemma ChecksAcceptWhenSolvent(cfg: Config, s: Storage, wrapped: CurrencyId)
    requires Migratable(s) && s.version == 0
    requires forall v :: v in s.vaults ==> v.WrappedCurrency() != cfg.native
    requires Solvent(s, cfg.native) && Solvent(s, wrapped)
    ensures RewardsChecks(PreUpgrade(s, cfg.native, wrapped), Migrate(cfg, s).storage, cfg.native, wrapped)
  {
    CheckAcceptsWhenSolvent(cfg, s, cfg.native);
    CheckAcceptsWhenSolvent(cfg, s, wrapped);
  }
}
