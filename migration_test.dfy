/**
 * The `migration_works` scenario: one version-0 vault with 1000 collateral
 * staked by its own account and 100 issued tokens staked in the old pool, to
 * which 100 wrapped tokens of reward were distributed. The secure threshold is
 * 2 and the collateral's exchange rate 0.1.
 */
module MigrationTest {
  import opened Wrappers
  import opened Primitives
  import opened FixedPoint
  import opened Weights
  import Reward
  import RewardV0
  import Staking
  import opened VaultCapacity
  import PostUpgrade

  const DOT: CurrencyId := 0   // collateral currency
  const INTR: CurrencyId := 1  // native currency
  const IBTC: CurrencyId := 2  // wrapped currency, in which the rewards were paid
  const DEFAULT_ID: VaultId := VaultId(1, VaultCurrencyPair(DOT, IBTC))

  /** The old pool after staking 100 and distributing 100 wrapped tokens. */
  function OldPool(): RewardV0.Pool {
    RewardV0.Pool(100 * UNIT, map[IBTC := 100 * UNIT], map[IBTC := UNIT], map[DEFAULT_ID := 100 * UNIT], map[])
  }

  /** The staking pool after the vault deposits 1000 collateral as its own nominator. */
  function StakingPool(): Staking.Pool {
    Staking.Pool(map[], map[(0, DEFAULT_ID) := 1000 * UNIT], map[(0, (DEFAULT_ID, 1)) := 1000 * UNIT], map[], map[], map[])
  }

  function Initial(): Storage {
    Storage(0, [DEFAULT_ID], map[DEFAULT_ID := 2 * UNIT], map[DOT := UNIT / 10], StakingPool(), OldPool(),
            Reward.Empty(), Reward.Empty())
  }

  /** The vault's accumulator key in staking, at nonce 0. */
  const KEY_IBTC: (CurrencyId, (nat, VaultId)) := (IBTC, (0, DEFAULT_ID))
  const KEY_INTR: (CurrencyId, (nat, VaultId)) := (INTR, (0, DEFAULT_ID))

  /** The staking pool once the 100 wrapped tokens (and 0 native tokens) are distributed. */
  function CarriedStaking(): Staking.Pool {
    StakingPool().(rewardPerToken := map[KEY_IBTC := UNIT / 10][KEY_INTR := 0],
                   totalRewards := map[KEY_IBTC := 100 * UNIT][KEY_INTR := 0])
  }

  lemma OldPoolOwes(c: CurrencyId)
    ensures RewardV0.ComputeReward(OldPool(), DEFAULT_ID, c) == if c == IBTC then Ok(100) else Ok(0)
  {
    assert RewardV0.StakeOf(OldPool(), DEFAULT_ID) == 100 * UNIT;
    if c == IBTC {
      assert CheckedSub(UNIT, 0) == Some(UNIT);
      assert DivTrunc(100 * UNIT * UNIT, UNIT) == 100 * UNIT;
      assert CheckedMul(100 * UNIT, UNIT) == Some(100 * UNIT);
      assert TruncateToInner(100 * UNIT) == 100;
    } else {
      assert GetOrZero(OldPool().rewardPerToken, c) == 0;
      assert CheckedSub(0, 0) == Some(0);
      assert CheckedMul(100 * UNIT, 0) == Some(0);
    }
  }

  lemma DistributeWrapped()
    ensures Staking.DistributeReward(StakingPool(), IBTC, DEFAULT_ID, 100) == Ok(StakingPool().(
      rewardPerToken := map[KEY_IBTC := UNIT / 10], totalRewards := map[KEY_IBTC := 100 * UNIT]))
  {
    assert Staking.TotalCurrentStake(StakingPool(), DEFAULT_ID) == 1000 * UNIT;
    assert CheckedFromInteger(100) == Some(100 * UNIT);
    assert DivTrunc(100 * UNIT * UNIT, 1000 * UNIT) == UNIT / 10;
    assert CheckedDiv(100 * UNIT, 1000 * UNIT) == Some(UNIT / 10);
  }

  lemma DistributeNative(pool: Staking.Pool)
    requires pool == StakingPool().(rewardPerToken := map[KEY_IBTC := UNIT / 10], totalRewards := map[KEY_IBTC := 100 * UNIT])
    ensures Staking.DistributeReward(pool, INTR, DEFAULT_ID, 0) == Ok(CarriedStaking())
  {
    assert Staking.TotalCurrentStake(pool, DEFAULT_ID) == 1000 * UNIT;
    assert CheckedFromInteger(0) == Some(0);
    assert CheckedDiv(0, 1000 * UNIT) == Some(0);
  }

  lemma CarryEntries(cfg: Config, st: Step)
    requires cfg.native == INTR && st.storage == Initial()
    ensures CarryEntry(cfg, DEFAULT_ID, INTR, CarryEntry(cfg, DEFAULT_ID, IBTC, st)).storage == Initial().(staking := CarriedStaking())
  {
    OldPoolOwes(IBTC);
    DistributeWrapped();
    var e1 := CarryEntry(cfg, DEFAULT_ID, IBTC, st);
    assert e1.storage.legacy == OldPool();
    OldPoolOwes(INTR);
    DistributeNative(e1.storage.staking);
  }

  /** One vault, two currencies: the folds unrolled. */
  lemma CarryOneVault(cfg: Config, v: VaultId, st: Step)
    ensures CarryVaults(cfg, [v], st)
            == CarryEntry(cfg, v, cfg.native, CarryEntry(cfg, v, v.WrappedCurrency(), st.(weight := SaturatingAdd(st.weight, Reads(cfg.db, 1)))))
  {
    assert [v][..0] == [];
    assert CarryVaults(cfg, [v], st) == CarryVault(cfg, v, st);
    var st1 := st.(weight := SaturatingAdd(st.weight, Reads(cfg.db, 1)));
    var cs := RewardCurrencies(cfg, v);
    assert cs[..1] == [v.WrappedCurrency()] && cs[..1][..0] == [];
    assert CarryCurrencies(cfg, v, cs[..1], st1) == CarryEntry(cfg, v, v.WrappedCurrency(), st1);
    assert CarryCurrencies(cfg, v, cs, st1) == CarryEntry(cfg, v, cfg.native, CarryCurrencies(cfg, v, cs[..1], st1));
  }

  lemma Carry(db: RuntimeDbWeight)
    ensures CarryVaults(Config(db, INTR), [DEFAULT_ID], Step(Initial(), ReadsWrites(db, 2, 1))).storage
            == Initial().(staking := CarriedStaking())
  {
    var st := Step(Initial(), ReadsWrites(db, 2, 1));
    CarryOneVault(Config(db, INTR), DEFAULT_ID, st);
    CarryEntries(Config(db, INTR), st.(weight := SaturatingAdd(st.weight, Reads(db, 1))));
  }

  lemma StakingOwes(pool: Staking.Pool)
    requires pool == CarriedStaking()
    ensures Staking.ComputeReward(pool, IBTC, DEFAULT_ID, 1) == Ok(100)
  {
    assert Staking.NonceOf(pool, DEFAULT_ID) == 0;
    assert CheckedSub(UNIT / 10, 0) == Some(UNIT / 10);
    assert DivTrunc(1000 * UNIT * (UNIT / 10), UNIT) == 100 * UNIT;
    assert CheckedMul(1000 * UNIT, UNIT / 10) == Some(100 * UNIT);
    assert TruncateToInner(100 * UNIT) == 100;
  }

  lemma UpdateStake(s: Storage)
    requires s == ClearAll(Initial().(staking := CarriedStaking()))
    ensures CanRestake(s, DEFAULT_ID)
    ensures var pools := PoolManager.UpdateRewardStake(s.vaultRewards, s.capacity, s.staking, s.thresholds, s.prices, DEFAULT_ID);
      Reward.StakeOf(pools.0, DOT, DEFAULT_ID) == 500 && Reward.StakeOf(pools.1, (), DOT) == 5000
  {
    assert Staking.TotalCurrentStake(s.staking, DEFAULT_ID) == 1000 * UNIT;
    assert Staking.TotalCurrentStakeAmount(s.staking, DEFAULT_ID) == Ok(1000);
    assert PoolManager.Quotient(1000, 2 * UNIT) == 500;
    assert PoolManager.VaultCapacity(s.staking, s.thresholds, DEFAULT_ID) == 500;
    var pools := PoolManager.UpdateRewardStake(s.vaultRewards, s.capacity, s.staking, s.thresholds, s.prices, DEFAULT_ID);
    assert Reward.TotalStake(pools.0, DOT) == 500;
    assert s.prices[DOT] == UNIT / 10;
    CapacityQuotient();
  }

  lemma CapacityQuotient()
    ensures PoolManager.Quotient(500, UNIT / 10) == 5000
  {
  }

  /** The scenario's vault has collateral, a threshold and a price, so the upgrade can run. */
  lemma InitialMigratable()
    ensures Migratable(Initial())
  {
    assert Staking.TotalCurrentStake(StakingPool(), DEFAULT_ID) == 1000 * UNIT;
    assert Staking.TotalCurrentStakeAmount(StakingPool(), DEFAULT_ID) == Ok(1000);
    assert CanRestake(Initial(), DEFAULT_ID);
  }

  /** One vault: the re-staking fold unrolled. */
  lemma RestakeOneVault(cfg: Config, v: VaultId, st: Step)
    requires CanRestake(st.storage, v)
    ensures RestakeVaults(cfg, [v], st) == RestakeVault(cfg, v, st)
  {
    assert [v][..0] == [];
  }

  lemma MigrationWorks(db: RuntimeDbWeight)
    ensures RewardV0.ComputeReward(Initial().legacy, DEFAULT_ID, IBTC) == Ok(100)
    ensures Staking.ComputeReward(Initial().staking, IBTC, DEFAULT_ID, 1) == Ok(0)
    ensures Migratable(Initial())
    ensures var r := Migrate(Config(db, INTR), Initial()).storage;
      && RewardV0.StakeOf(r.legacy, DEFAULT_ID) == 0
      && RewardV0.ComputeReward(r.legacy, DEFAULT_ID, IBTC) == Ok(0)
      && Reward.StakeOf(r.vaultRewards, DOT, DEFAULT_ID) == 500
      && Reward.StakeOf(r.capacity, (), DOT) == 5000
      && Staking.ComputeReward(r.staking, IBTC, DEFAULT_ID, 1) == Ok(100)
      && r.version == 1
  {
    var cfg := Config(db, INTR);
    var s := Initial();
    InitialMigratable();
    OldPoolOwes(IBTC);
    assert Staking.ComputeReward(s.staking, IBTC, DEFAULT_ID, 1) == Ok(0);
    Carry(db);
    var carried := CarryVaults(cfg, s.vaults, Step(s, ReadsWrites(db, 2, 1)));
    var cleared := ClearAll(carried.storage);
    UpdateStake(cleared);
    RestakeOneVault(cfg, DEFAULT_ID, Step(cleared, carried.weight));
    StakingOwes(cleared.staking);
    RewardV0.EmptyOwesNothing(DEFAULT_ID, IBTC);
  }

  lemma MigratedStaking(db: RuntimeDbWeight)
    ensures Migratable(Initial())
    ensures Migrate(Config(db, INTR), Initial()).storage.staking == CarriedStaking()
  {
    InitialMigratable();
    Carry(db);
  }

  /** No native rewards exist, so the strict check compares 0 < 0. */
  lemma NativeCheckOnScenario(db: RuntimeDbWeight)
    ensures Migratable(Initial())
    ensures var r := Migrate(Config(db, INTR), Initial()).storage;
      && !PostUpgrade.RewardsCheckAsWritten(PostUpgrade.RewardsBefore(Initial(), INTR), r, INTR)
      && PostUpgrade.RewardsCheck(PostUpgrade.RewardsBefore(Initial(), INTR), r, INTR)
  {
    var cfg := Config(db, INTR);
    PostUpgrade.StrictCheckRejectsWithoutOldRewards(cfg, Initial(), INTR);
    OldPoolOwes(INTR);
    PostUpgrade.CheckAcceptsWhenNothingOwed(cfg, Initial(), INTR);
  }

  /** All 100 wrapped tokens arrive in staking, so the strict check compares 100 < 100. */
  lemma WrappedCheckOnScenario(db: RuntimeDbWeight)
    ensures Migratable(Initial())
    ensures var r := Migrate(Config(db, INTR), Initial()).storage;
      && PostUpgrade.StakingRewards(r.staking, IBTC) == PostUpgrade.RewardsBefore(Initial(), IBTC)
  {
    MigratedStaking(db);
    WrappedStakingRewards();
    assert PostUpgrade.RewardsBefore(Initial(), IBTC) == 100 * UNIT;
  }

  /** The scenario's old pool exactly covers what it owes: it is solvent in both currencies, with nothing to spare. */
  lemma ScenarioSolvent()
    ensures PostUpgrade.OwedTotal(OldPool(), [DEFAULT_ID], IBTC) == 100
    ensures PostUpgrade.Solvent(Initial(), IBTC) && PostUpgrade.Solvent(Initial(), INTR)
    ensures GetOrZero(OldPool().totalRewards, IBTC) == UNIT * PostUpgrade.OwedTotal(OldPool(), [DEFAULT_ID], IBTC)
  {
    OldPoolOwes(IBTC);
    OldPoolOwes(INTR);
    assert [DEFAULT_ID][..0] == [];
  }

  /**
   * `post_upgrade` run on this scenario: the strict rewards check fails for
   * both currencies, the corrected check passes for both.
   */
  lemma RewardsCheckOnScenario(db: RuntimeDbWeight)
    ensures Migratable(Initial())
    ensures var state := PostUpgrade.PreUpgrade(Initial(), INTR, IBTC);
      var r := Migrate(Config(db, INTR), Initial()).storage;
      && !PostUpgrade.RewardsChecksAsWritten(state, r, INTR, IBTC)
      && !PostUpgrade.RewardsCheckAsWritten(state.totalRewardsNative, r, INTR)
      && !PostUpgrade.RewardsCheckAsWritten(state.totalRewardsWrapped, r, IBTC)
      && PostUpgrade.RewardsChecks(state, r, INTR, IBTC)
  {
    NativeCheckOnScenario(db);
    WrappedCheckOnScenario(db);
  }

  /** The 100 wrapped tokens are the only wrapped rewards in staking after the upgrade. */
  lemma WrappedStakingRewards()
    ensures PostUpgrade.StakingRewards(CarriedStaking(), IBTC) == 100 * UNIT
  {
    var m := CarriedStaking().totalRewards;
    Reward.PoolSumWithout(m, IBTC, KEY_IBTC);
    RemoveFirst(KEY_IBTC, 100 * UNIT, KEY_INTR, 0);
    Reward.PoolSumWithout(map[KEY_INTR := 0], IBTC, KEY_INTR);
    assert map[KEY_INTR := 0] - {KEY_INTR} == map[];
  }

  lemma RemoveFirst<K, V>(a: K, x: V, b: K, y: V)
    requires a != b
    ensures map[a := x][b := y] - {a} == map[b := y]
  {
  }
}
