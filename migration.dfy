/**
 * The vault-capacity rewards migration of the vault registry: a one-shot,
 * version-gated upgrade that moves the rewards still owed by the flat
 * version-0 vault reward pool into the staking pool, clears the old pool's
 * storage, and re-stakes every vault in the two-level pool hierarchy
 * (vault-rewards pool and capacity pool).
 *
 * `Migrate` is the specification: a fold over the vaults in iteration order.
 * `Chain.OnRuntimeUpgrade` is the imperative upgrade, proved equal to it.
 */
module VaultCapacity {
  import opened Wrappers
  import opened Primitives
  import opened Weights
  import RewardV0
  import Reward
  import Staking
  import PoolManager
  import FixedPoint

  /** Runtime configuration: database weights and the native currency. */
  datatype Config = Config(db: RuntimeDbWeight, native: CurrencyId)

  /** The storage the migration reads and writes. */
  datatype Storage = Storage(
    version: nat,                                  // the vault registry's storage version
    vaults: seq<VaultId>,                          // keys of `Vaults`, in iteration order
    thresholds: map<VaultId, nat>,                 // secure collateral threshold per vault (unsigned fixed point)
    prices: map<CurrencyId, nat>,                  // oracle exchange rate per collateral currency
    staking: Staking.Pool,
    legacy: RewardV0.Pool,                         // `VaultRewards` items in the version-0 layout
    vaultRewards: Reward.Pool<CurrencyId, VaultId>, // `VaultRewards` items in the current layout
    capacity: Reward.Pool<(), CurrencyId>)         // `VaultCapacity` items

  /** A storage state together with the weight accrued so far. */
  datatype Step = Step(storage: Storage, weight: Weight)

  predicate CanRestake(s: Storage, v: VaultId) {
    PoolManager.CanUpdate(s.staking, s.thresholds, s.prices, v)
  }

  /** What the `.unwrap()` calls of the re-staking loop demand; nothing when the guard returns early. */
  predicate Migratable(s: Storage) {
    s.version == 0 ==> forall v :: v in s.vaults ==> CanRestake(s, v)
  }

  // ---------------------------------------------------------------------------
  // Step 2: move the rewards owed by the version-0 pool into staking.

  /**
   * One (vault, currency) entry: the old pool's reward, or 0 if computing it
   * fails, is distributed in staking. A failed distribution is skipped and
   * accrues no write weight.
   */
  function CarryEntry(cfg: Config, v: VaultId, c: CurrencyId, st: Step): (r: Step)
    ensures r.storage == st.storage.(staking := r.storage.staking)
    ensures Staking.SameStakes(r.storage.staking, st.storage.staking)
    ensures st.weight <= r.weight
  {
    var reward := RewardV0.ComputeReward(st.storage.legacy, v, c).UnwrapOr(0);
    var w := SaturatingAdd(st.weight, Reads(cfg.db, 3));
    match Staking.DistributeReward(st.storage.staking, c, v, reward)
    case Ok(staking) => Step(st.storage.(staking := staking), SaturatingAdd(w, ReadsWrites(cfg.db, 4, 2)))
    case Err(_) => Step(st.storage, w)
  }

  function CarryCurrencies(cfg: Config, v: VaultId, cs: seq<CurrencyId>, st: Step): (r: Step)
    ensures r.storage == st.storage.(staking := r.storage.staking)
    ensures Staking.SameStakes(r.storage.staking, st.storage.staking)
    ensures st.weight <= r.weight
    decreases |cs|
  {
    if cs == [] then st
    else CarryEntry(cfg, v, cs[|cs| - 1], CarryCurrencies(cfg, v, cs[..|cs| - 1], st))
  }

  /** The currencies a vault earns rewards in: its wrapped currency, then the native currency. */
  function RewardCurrencies(cfg: Config, v: VaultId): seq<CurrencyId> {
    [v.WrappedCurrency(), cfg.native]
  }

  function CarryVault(cfg: Config, v: VaultId, st: Step): (r: Step)
    ensures r.storage == st.storage.(staking := r.storage.staking)
    ensures Staking.SameStakes(r.storage.staking, st.storage.staking)
    ensures st.weight <= r.weight
  {
    CarryCurrencies(cfg, v, RewardCurrencies(cfg, v), st.(weight := SaturatingAdd(st.weight, Reads(cfg.db, 1))))
  }

  /** The first loop over the vaults (`vs` is a prefix of the iteration order). */
  function CarryVaults(cfg: Config, vs: seq<VaultId>, st: Step): (r: Step)
    ensures r.storage == st.storage.(staking := r.storage.staking)
    ensures Staking.SameStakes(r.storage.staking, st.storage.staking)
    ensures st.weight <= r.weight
    decreases |vs|
  {
    if vs == [] then st
    else CarryVault(cfg, vs[|vs| - 1], CarryVaults(cfg, vs[..|vs| - 1], st))
  }

  // ---------------------------------------------------------------------------
  // Step 3: clear the storage items under the `VaultRewards` prefix.

  /** The five storage items of the reward pallet. */
  datatype RewardItem = TotalStake | TotalRewards | RewardPerToken | Stake | RewardTally

  /**
   * The state after removing every entry of `item`. The version-0 pool and the
   * current vault-rewards pool are the same pallet instance, so the items of
   * both layouts live under the same prefix and are removed together.
   */
  function ClearItem(s: Storage, item: RewardItem): (r: Storage)
    ensures r == s.(legacy := r.legacy, vaultRewards := r.vaultRewards)
  {
    match item
    case TotalStake =>
      s.(legacy := s.legacy.(totalStake := 0), vaultRewards := s.vaultRewards.(totalStake := map[]))
    case TotalRewards => s.(legacy := s.legacy.(totalRewards := map[]))
    case RewardPerToken => s.(legacy := s.legacy.(rewardPerToken := map[]))
    case Stake => s.(legacy := s.legacy.(stake := map[]), vaultRewards := s.vaultRewards.(stake := map[]))
    case RewardTally => s.(legacy := s.legacy.(rewardTally := map[]))
  }

  /** How many entries `item` holds. */
  function ItemEntries(s: Storage, item: RewardItem): nat {
    match item
    case TotalStake => 1 + |s.vaultRewards.totalStake|
    case TotalRewards => |s.legacy.totalRewards|
    case RewardPerToken => |s.legacy.rewardPerToken|
    case Stake => |s.legacy.stake| + |s.vaultRewards.stake|
    case RewardTally => |s.legacy.rewardTally|
  }

  /** What a prefix removal reports: a continuation cursor if it stopped early, and how many keys it removed. */
  datatype MultiRemovalResults = MultiRemovalResults(maybeCursor: Option<seq<bv8>>, backend: nat, unique: nat, loops: nat)

  /** `clear_storage_prefix` with no limit: every entry is removed and no cursor is left. */
  function ClearStoragePrefix(s: Storage, item: RewardItem): MultiRemovalResults {
    var n := ItemEntries(s, item);
    MultiRemovalResults(None, n, n, n)
  }

  /** The five clears, in the order the migration performs them. */
  function ClearAll(s: Storage): (r: Storage)
    ensures r == s.(legacy := RewardV0.Empty(), vaultRewards := Reward.Empty())
  {
    ClearItem(ClearItem(ClearItem(ClearItem(ClearItem(s, TotalStake), TotalRewards), RewardPerToken), Stake), RewardTally)
  }

  // ---------------------------------------------------------------------------
  // Step 4: re-stake every vault in the pool hierarchy.

  function RestakeVault(cfg: Config, v: VaultId, st: Step): (r: Step)
    requires CanRestake(st.storage, v)
    ensures r.storage == st.storage.(vaultRewards := r.storage.vaultRewards, capacity := r.storage.capacity)
    ensures st.weight <= r.weight
  {
    var s := st.storage;
    var w := SaturatingAdd(st.weight, Reads(cfg.db, 1));
    var pools := PoolManager.UpdateRewardStake(s.vaultRewards, s.capacity, s.staking, s.thresholds, s.prices, v);
    Step(s.(vaultRewards := pools.0, capacity := pools.1), SaturatingAdd(w, ReadsWrites(cfg.db, 12, 7)))
  }

  /** The second loop over the vaults (`vs` is a prefix of the iteration order). */
  function RestakeVaults(cfg: Config, vs: seq<VaultId>, st: Step): (r: Step)
    requires forall v :: v in vs ==> CanRestake(st.storage, v)
    ensures r.storage == st.storage.(vaultRewards := r.storage.vaultRewards, capacity := r.storage.capacity)
    ensures st.weight <= r.weight
    decreases |vs|
  {
    if vs == [] then st
    else
      var prev := RestakeVaults(cfg, vs[..|vs| - 1], st);
      var v := vs[|vs| - 1];
      assert v in vs;
      assert CanRestake(st.storage, v);
      assert prev.storage.staking == st.storage.staking;
      assert prev.storage.thresholds == st.storage.thresholds && prev.storage.prices == st.storage.prices;
      RestakeVault(cfg, v, prev)
  }

  /** The re-staking fold advanced by one vault. */
  lemma RestakeVaultsStep(cfg: Config, vs: seq<VaultId>, i: nat, st: Step)
    requires i < |vs|
    requires forall v :: v in vs ==> CanRestake(st.storage, v)
    ensures forall v :: v in vs[..i] ==> CanRestake(st.storage, v)
    ensures CanRestake(RestakeVaults(cfg, vs[..i], st).storage, vs[i])
    ensures RestakeVaults(cfg, vs[..i + 1], st) == RestakeVault(cfg, vs[i], RestakeVaults(cfg, vs[..i], st))
  {
    assert vs[..i + 1][..i] == vs[..i];
    assert vs[i] in vs;
  }

  /** Moving rewards and clearing the old pool keep every vault re-stakeable. */
  lemma ClearedCanRestake(cfg: Config, s: Storage, w: Weight)
    requires Migratable(s) && s.version == 0
    ensures var cleared := ClearAll(CarryVaults(cfg, s.vaults, Step(s, w)).storage);
      cleared.vaults == s.vaults && forall v :: v in cleared.vaults ==> CanRestake(cleared, v)
  {
    var cleared := ClearAll(CarryVaults(cfg, s.vaults, Step(s, w)).storage);
    assert cleared.staking.nonce == s.staking.nonce && cleared.staking.totalCurrentStake == s.staking.totalCurrentStake;
    forall v | v in cleared.vaults
      ensures CanRestake(cleared, v)
    {
      assert CanRestake(s, v);
    }
  }

  // ---------------------------------------------------------------------------
  // The whole upgrade.

  /** The storage and the weight `on_runtime_upgrade` leaves and returns. */
  function Migrate(cfg: Config, s: Storage): (r: Step)
    requires Migratable(s)
    ensures r.storage.version == if s.version == 0 then 1 else s.version
    ensures r.storage.vaults == s.vaults && r.storage.thresholds == s.thresholds && r.storage.prices == s.prices
  {
    if s.version != 0 then Step(s, Reads(cfg.db, 1))
    else
      var carried := CarryVaults(cfg, s.vaults, Step(s, ReadsWrites(cfg.db, 2, 1)));
      var cleared := ClearAll(carried.storage);
      var restaked := RestakeVaults(cfg, cleared.vaults, Step(cleared, carried.weight));
      Step(restaked.storage.(version := 1), SaturatingAdd(restaked.weight, ReadsWrites(cfg.db, 1, 2)))
  }

  // ---------------------------------------------------------------------------
  // What the upgrade guarantees.

  /** On any stored version but 0 the upgrade changes nothing and costs one read. */
  lemma VersionGuard(cfg: Config, s: Storage)
    requires s.version != 0
    ensures Migrate(cfg, s) == Step(s, Reads(cfg.db, 1))
  {
  }

  /** A run from version 0 ends at version 1, so running the upgrade again is a no-op. */
  lemma MigrateIdempotent(cfg: Config, s: Storage)
    requires Migratable(s)
    ensures s.version == 0 ==> Migrate(cfg, s).storage.version == 1
    ensures Migratable(Migrate(cfg, s).storage)
    ensures Migrate(cfg, Migrate(cfg, s).storage) == Step(Migrate(cfg, s).storage, Reads(cfg.db, 1))
  {
  }

  /**
   * A (vault, currency) entry whose distribution succeeds over a non-zero stake
   * adds exactly what the old pool owes, or 0 if that cannot be computed, to the
   * vault's staking rewards, and accrues three reads, then four reads and two writes.
   */
  lemma CarryEntryMovesOwedReward(cfg: Config, v: VaultId, c: CurrencyId, st: Step)
    requires Staking.TotalCurrentStake(st.storage.staking, v) != 0
    requires Staking.DistributeReward(st.storage.staking, c, v, RewardV0.ComputeReward(st.storage.legacy, v, c).UnwrapOr(0)).Ok?
    ensures var key := Staking.RewardKey(st.storage.staking, c, v);
      GetOrZero(CarryEntry(cfg, v, c, st).storage.staking.totalRewards, key)
      == GetOrZero(st.storage.staking.totalRewards, key) + RewardV0.ComputeReward(st.storage.legacy, v, c).UnwrapOr(0) * FixedPoint.UNIT
    ensures CarryEntry(cfg, v, c, st).weight == SaturatingAdd(SaturatingAdd(st.weight, Reads(cfg.db, 3)), ReadsWrites(cfg.db, 4, 2))
  {
  }

  /** A (vault, currency) entry whose distribution fails changes nothing and accrues only its three reads. */
  lemma FailedEntrySkipped(cfg: Config, v: VaultId, c: CurrencyId, st: Step)
    requires Staking.DistributeReward(st.storage.staking, c, v, RewardV0.ComputeReward(st.storage.legacy, v, c).UnwrapOr(0)).Err?
    ensures CarryEntry(cfg, v, c, st) == Step(st.storage, SaturatingAdd(st.weight, Reads(cfg.db, 3)))
  {
  }

  /** The weight only grows: a run from version 0 costs at least its initial two reads and one write. */
  lemma MigrationWeightGrows(cfg: Config, s: Storage)
    requires Migratable(s) && s.version == 0
    ensures ReadsWrites(cfg.db, 2, 1) <= Migrate(cfg, s).weight
  {
  }

  /** Moving the owed rewards never lowers a staking reward accumulator. */
  lemma {:induction false} CarryCurrenciesGrow(cfg: Config, v: VaultId, cs: seq<CurrencyId>, st: Step)
    requires Staking.NonNegativeTotals(st.storage.staking)
    ensures Staking.RewardsGrow(st.storage.staking, CarryCurrencies(cfg, v, cs, st).storage.staking)
    decreases |cs|
  {
    if cs != [] {
      var prev := CarryCurrencies(cfg, v, cs[..|cs| - 1], st);
      CarryCurrenciesGrow(cfg, v, cs[..|cs| - 1], st);
      var c := cs[|cs| - 1];
      var reward := RewardV0.ComputeReward(prev.storage.legacy, v, c).UnwrapOr(0);
      Staking.DistributeRewardGrows(prev.storage.staking, c, v, reward);
    }
  }

  lemma {:induction false} CarryVaultsGrow(cfg: Config, vs: seq<VaultId>, st: Step)
    requires Staking.NonNegativeTotals(st.storage.staking)
    ensures Staking.RewardsGrow(st.storage.staking, CarryVaults(cfg, vs, st).storage.staking)
    decreases |vs|
  {
    if vs != [] {
      var prev := CarryVaults(cfg, vs[..|vs| - 1], st);
      CarryVaultsGrow(cfg, vs[..|vs| - 1], st);
      var v := vs[|vs| - 1];
      CarryCurrenciesGrow(cfg, v, RewardCurrencies(cfg, v), prev.(weight := SaturatingAdd(prev.weight, Reads(cfg.db, 1))));
    }
  }

  /**
   * The upgrade leaves the staking pool's stakes, nonces and tallies as they
   * were and, over non-negative stakes, lowers no reward accumulator.
   */
  lemma MigrationKeepsStakes(cfg: Config, s: Storage)
    requires Migratable(s)
    ensures Staking.SameStakes(Migrate(cfg, s).storage.staking, s.staking)
    ensures Staking.NonNegativeTotals(s.staking) ==> Staking.RewardsGrow(s.staking, Migrate(cfg, s).storage.staking)
  {
    if s.version == 0 && Staking.NonNegativeTotals(s.staking) {
      CarryVaultsGrow(cfg, s.vaults, Step(s, ReadsWrites(cfg.db, 2, 1)));
    }
  }

  lemma {:induction false} RestakeSetsVaultStakes(cfg: Config, vs: seq<VaultId>, st: Step)
    requires forall v :: v in vs ==> CanRestake(st.storage, v)
    ensures forall v :: v in vs ==>
      Reward.StakeOf(RestakeVaults(cfg, vs, st).storage.vaultRewards, v.CollateralCurrency(), v)
      == PoolManager.VaultCapacity(st.storage.staking, st.storage.thresholds, v)
    decreases |vs|
  {
    if vs != [] {
      var init, u := vs[..|vs| - 1], vs[|vs| - 1];
      assert vs == init + [u];
      RestakeSetsVaultStakes(cfg, init, st);
      forall v | v in vs
        ensures Reward.StakeOf(RestakeVaults(cfg, vs, st).storage.vaultRewards, v.CollateralCurrency(), v)
                == PoolManager.VaultCapacity(st.storage.staking, st.storage.thresholds, v)
      {
        if v != u {
          assert v in init;
        }
      }
    }
  }

  lemma {:induction false} RestakeKeepsConsistent(cfg: Config, vs: seq<VaultId>, st: Step)
    requires forall v :: v in vs ==> CanRestake(st.storage, v)
    requires Reward.Consistent(st.storage.vaultRewards)
    ensures Reward.Consistent(RestakeVaults(cfg, vs, st).storage.vaultRewards)
    decreases |vs|
  {
    if vs != [] {
      var init, u := vs[..|vs| - 1], vs[|vs| - 1];
      assert u in vs;
      var prev := RestakeVaults(cfg, init, st);
      RestakeKeepsConsistent(cfg, init, st);
      var s := prev.storage;
      Reward.SetStakeConsistent(s.vaultRewards, u.CollateralCurrency(), u, PoolManager.VaultCapacity(s.staking, s.thresholds, u));
    }
  }

  lemma {:induction false} RestakeSetsCapacity(cfg: Config, vs: seq<VaultId>, st: Step)
    requires forall v :: v in vs ==> CanRestake(st.storage, v)
    ensures forall v :: v in vs ==>
      var r := RestakeVaults(cfg, vs, st).storage;
      Reward.StakeOf(r.capacity, (), v.CollateralCurrency())
      == PoolManager.Quotient(Reward.TotalStake(r.vaultRewards, v.CollateralCurrency()), st.storage.prices[v.CollateralCurrency()])
    decreases |vs|
  {
    if vs != [] {
      var init, u := vs[..|vs| - 1], vs[|vs| - 1];
      assert vs == init + [u];
      RestakeSetsCapacity(cfg, init, st);
      forall v | v in vs
        ensures var r := RestakeVaults(cfg, vs, st).storage;
          Reward.StakeOf(r.capacity, (), v.CollateralCurrency())
          == PoolManager.Quotient(Reward.TotalStake(r.vaultRewards, v.CollateralCurrency()), st.storage.prices[v.CollateralCurrency()])
      {
        if v.CollateralCurrency() != u.CollateralCurrency() {
          assert v in init;
        }
      }
    }
  }

  /**
   * After a run from version 0 each vault's stake in the vault-rewards pool,
   * keyed by (collateral currency, vault), is its collateral divided by its
   * secure threshold.
   */
  lemma MigratedVaultStakes(cfg: Config, s: Storage)
    requires Migratable(s) && s.version == 0
    ensures forall v :: v in s.vaults ==>
      Reward.StakeOf(Migrate(cfg, s).storage.vaultRewards, v.CollateralCurrency(), v)
      == PoolManager.VaultCapacity(s.staking, s.thresholds, v)
  {
    var carried := CarryVaults(cfg, s.vaults, Step(s, ReadsWrites(cfg.db, 2, 1)));
    var cleared := ClearAll(carried.storage);
    assert cleared.staking.nonce == s.staking.nonce && cleared.staking.totalCurrentStake == s.staking.totalCurrentStake;
    RestakeSetsVaultStakes(cfg, cleared.vaults, Step(cleared, carried.weight));
  }

  /** After a run from version 0 every total stake of the vault-rewards pool is the sum of its stakes. */
  lemma MigratedTotalsMatchStakes(cfg: Config, s: Storage)
    requires Migratable(s) && s.version == 0
    ensures Reward.Consistent(Migrate(cfg, s).storage.vaultRewards)
  {
    var carried := CarryVaults(cfg, s.vaults, Step(s, ReadsWrites(cfg.db, 2, 1)));
    var cleared := ClearAll(carried.storage);
    Reward.EmptyConsistent<CurrencyId, VaultId>();
    RestakeKeepsConsistent(cfg, cleared.vaults, Step(cleared, carried.weight));
  }

  /**
   * After a run from version 0 the capacity pool's stake for each vault's
   * collateral currency is that currency's total vault-rewards stake converted
   * into the wrapped currency.
   */
  lemma MigratedCapacityStakes(cfg: Config, s: Storage)
    requires Migratable(s) && s.version == 0
    ensures forall v :: v in s.vaults ==>
      var r := Migrate(cfg, s).storage;
      Reward.StakeOf(r.capacity, (), v.CollateralCurrency())
      == PoolManager.Quotient(Reward.TotalStake(r.vaultRewards, v.CollateralCurrency()), s.prices[v.CollateralCurrency()])
  {
    var carried := CarryVaults(cfg, s.vaults, Step(s, ReadsWrites(cfg.db, 2, 1)));
    var cleared := ClearAll(carried.storage);
    RestakeSetsCapacity(cfg, cleared.vaults, Step(cleared, carried.weight));
  }

  /**
   * After a run from version 0 the old pool is gone: no vault has stake in
   * it, it owes no vault anything, and its reward totals are zero.
   */
  lemma MigratedOldPoolCleared(cfg: Config, s: Storage, v: VaultId, c: CurrencyId)
    requires Migratable(s) && s.version == 0
    ensures RewardV0.StakeOf(Migrate(cfg, s).storage.legacy, v) == 0
    ensures RewardV0.ComputeReward(Migrate(cfg, s).storage.legacy, v, c) == Ok(0)
    ensures GetOrZero(Migrate(cfg, s).storage.legacy.totalRewards, c) == 0
  {
    RewardV0.EmptyOwesNothing(v, c);
  }

  /** The runtime's storage, updated in place by the upgrade. */
  class Chain {
    const cfg: Config
    var version: nat
    var vaults: seq<VaultId>
    var thresholds: map<VaultId, nat>
    var prices: map<CurrencyId, nat>
    var staking: Staking.Pool
    var legacy: RewardV0.Pool
    var vaultRewards: Reward.Pool<CurrencyId, VaultId>
    var capacity: Reward.Pool<(), CurrencyId>

    function State(): Storage
      reads this
    {
      Storage(version, vaults, thresholds, prices, staking, legacy, vaultRewards, capacity)
    }

    constructor (cfg: Config, s: Storage)
      ensures this.cfg == cfg && State() == s
    {
      this.cfg := cfg;
      version, vaults, thresholds, prices := s.version, s.vaults, s.thresholds, s.prices;
      staking, legacy, vaultRewards, capacity := s.staking, s.legacy, s.vaultRewards, s.capacity;
    }

    /**
     * `clear_reward_storage`: remove every entry of `item` and report whether
     * the removal left a cursor. `weight` is taken by value, so what is accrued
     * here never reaches the caller.
     */
    method ClearRewardStorage(weight: Weight, item: RewardItem) returns (incomplete: bool)
      modifies this
      ensures State() == ClearItem(old(State()), item)
      ensures incomplete <==> ClearStoragePrefix(old(State()), item).maybeCursor.Some?
      ensures !incomplete
    {
      var res := ClearStoragePrefix(State(), item);
      var w := weight;
      w := SaturatingAdd(w, Writes(cfg.db, res.backend));
      match item {
        case TotalStake =>
          legacy := legacy.(totalStake := 0);
          vaultRewards := vaultRewards.(totalStake := map[]);
        case TotalRewards => legacy := legacy.(totalRewards := map[]);
        case RewardPerToken => legacy := legacy.(rewardPerToken := map[]);
        case Stake =>
          legacy := legacy.(stake := map[]);
          vaultRewards := vaultRewards.(stake := map[]);
        case RewardTally => legacy := legacy.(rewardTally := map[]);
      }
      incomplete := res.maybeCursor.Some?;
    }

    /**
     * The body of the first loop for vault `v`: for its wrapped currency and
     * then the native currency, distribute in staking what the version-0 pool
     * still owes it.
     */
    method MoveVaultRewards(v: VaultId, weight0: Weight) returns (weight: Weight)
      modifies this
      ensures Step(State(), weight) == CarryVault(cfg, v, Step(old(State()), weight0))
    {
      weight := SaturatingAdd(weight0, Reads(cfg.db, 1));
      ghost var entered := Step(State(), weight);
      var currencies := [v.WrappedCurrency(), cfg.native];
      var j := 0;
      while j < |currencies|
        invariant 0 <= j <= |currencies|
        invariant Step(State(), weight) == CarryCurrencies(cfg, v, currencies[..j], entered)
      {
        var c := currencies[j];
        assert currencies[..j + 1] == currencies[..j] + [c];
        var reward := RewardV0.ComputeReward(legacy, v, c).UnwrapOr(0);
        weight := SaturatingAdd(weight, Reads(cfg.db, 3));
        var res := Staking.DistributeReward(staking, c, v, reward);
        match res {
          case Ok(updated) =>
            staking := updated;
            weight := SaturatingAdd(weight, ReadsWrites(cfg.db, 4, 2));
          case Err(_) =>
        }
        j := j + 1;
      }
      assert currencies[..j] == RewardCurrencies(cfg, v);
    }

    /** The first loop: move every vault's owed rewards into staking. */
    method MoveRewards(weight0: Weight) returns (weight: Weight)
      modifies this
      ensures Step(State(), weight) == CarryVaults(cfg, old(vaults), Step(old(State()), weight0))
    {
      ghost var s0 := State();
      weight := weight0;
      var i := 0;
      while i < |vaults|
        invariant 0 <= i <= |s0.vaults|
        invariant Step(State(), weight) == CarryVaults(cfg, s0.vaults[..i], Step(s0, weight0))
        invariant vaults == s0.vaults
      {
        var v := vaults[i];
        assert s0.vaults[..i + 1] == s0.vaults[..i] + [v];
        weight := MoveVaultRewards(v, weight);
        i := i + 1;
      }
      assert s0.vaults[..i] == s0.vaults;
    }

    /** The body of the second loop for vault `v`: re-stake it through the pool manager. */
    method UpdateVaultStake(v: VaultId, weight0: Weight) returns (weight: Weight)
      requires CanRestake(State(), v)
      modifies this
      ensures Step(State(), weight) == RestakeVault(cfg, v, Step(old(State()), weight0))
    {
      weight := SaturatingAdd(weight0, Reads(cfg.db, 1));
      var pools := PoolManager.UpdateRewardStake(vaultRewards, capacity, staking, thresholds, prices, v);
      vaultRewards, capacity := pools.0, pools.1;
      weight := SaturatingAdd(weight, ReadsWrites(cfg.db, 12, 7));
    }

    /** The second loop: re-stake every vault through the pool manager. */
    method UpdateStakes(weight0: Weight) returns (weight: Weight)
      requires forall v :: v in vaults ==> CanRestake(State(), v)
      modifies this
      ensures Step(State(), weight) == RestakeVaults(cfg, old(vaults), Step(old(State()), weight0))
    {
      ghost var s1 := State();
      weight := weight0;
      var i := 0;
      while i < |vaults|
        invariant 0 <= i <= |s1.vaults|
        invariant Step(State(), weight) == RestakeVaults(cfg, s1.vaults[..i], Step(s1, weight0))
      {
        var v := vaults[i];
        RestakeVaultsStep(cfg, s1.vaults, i, Step(s1, weight0));
        weight := UpdateVaultStake(v, weight);
        i := i + 1;
      }
      assert s1.vaults[..i] == s1.vaults;
    }

    /** The five clears of step 3; the weight is passed by value and comes back unchanged. */
    method ClearRewards(weight: Weight)
      modifies this
      ensures State() == ClearAll(old(State()))
    {
      var incomplete := ClearRewardStorage(weight, TotalStake);
      incomplete := ClearRewardStorage(weight, TotalRewards);
      incomplete := ClearRewardStorage(weight, RewardPerToken);
      incomplete := ClearRewardStorage(weight, Stake);
      incomplete := ClearRewardStorage(weight, RewardTally);
    }

    /** `on_runtime_upgrade`: the migration, returning the weight it consumed. */
    method OnRuntimeUpgrade() returns (weight: Weight)
      requires Migratable(State())
      modifies this
      ensures Step(State(), weight) == Migrate(cfg, old(State()))
    {
      if version != 0 {
        return Reads(cfg.db, 1);
      }
      ghost var s0 := State();
      weight := ReadsWrites(cfg.db, 2, 1);
      weight := MoveRewards(weight);
      ghost var carried := Step(State(), weight);
      assert carried == CarryVaults(cfg, s0.vaults, Step(s0, ReadsWrites(cfg.db, 2, 1)));

      ClearRewards(weight);
      ghost var cleared := State();
      ClearedCanRestake(cfg, s0, ReadsWrites(cfg.db, 2, 1));

      weight := UpdateStakes(weight);
      assert Step(State(), weight) == RestakeVaults(cfg, cleared.vaults, Step(cleared, carried.weight));
      version := 1;
      weight := SaturatingAdd(weight, ReadsWrites(cfg.db, 1, 2));
    }
  }
}
