# Vault-capacity rewards migration, modelled in Dafny

This project models the vault registry's one-shot storage migration
`vault_capacity::RewardsMigration` from the interBTC runtime. When the vault
registry's storage version is 0, `on_runtime_upgrade` does four things in order:

1. It moves the rewards still owed by the old flat vault reward pool into the
   nominator staking pool. This covers every vault, in the vault's wrapped
   currency and in the native currency.
2. It clears the five storage items under the `VaultRewards` prefix.
3. It re-stakes every vault in the two-level pool hierarchy:
   - the vault-rewards pool, keyed by (collateral currency, vault), gets
     collateral / secure threshold;
   - the capacity pool, keyed by ((), collateral currency), gets that
     currency's total converted into the wrapped currency.
4. It sets the storage version to 1 and returns the database weight it
   consumed.

The model is split in two:

- `VaultCapacity.Migrate` is the specification. It is a pure function over a
  `Storage` value: folds over the vaults in iteration order, then the clears,
  then the re-stake.
- `VaultCapacity.Chain` is the runtime storage as a class whose fields the
  upgrade updates in place. Its `OnRuntimeUpgrade` method runs the two loops
  and the five clears. It is proved to leave exactly the state, and return
  exactly the weight, that `Migrate` computes.

Lemmas state what the `post_upgrade` checks assert and what the
`migration_works` test observes.

Modules:

- `Wrappers`, `Primitives`: options, results, vault and currency identifiers.
- `FixedPoint`: the runtime's signed 128-bit fixed-point numbers (18 decimals).
  They are modelled as integers scaled by 10^18, with division that truncates
  toward zero, and with checked operations that fail outside the 128-bit range.
- `Weights`: `u64` weights with saturating arithmetic, and the database
  read/write weights.
- `Reward`: the stake side of a current reward pool.
- `RewardV0`: the old flat pool.
- `Staking`: the nominator staking pool's reward accumulators.
- `PoolManager`: the pool manager's `update_reward_stake`.
- `VaultCapacity`: the migration.
- `PostUpgrade`: the rewards checks of `post_upgrade`.
- `MigrationTest`: the `migration_works` scenario.

Unit conventions:

- Fixed-point storage values such as stakes, reward-per-token and total rewards
  are raw scaled integers.
- Balances returned by `compute_reward` and `total_current_stake` are whole
  token amounts.
- The stakes the pool manager writes into the vault-rewards and capacity pools
  are recorded as whole amounts. These are the values that `post_upgrade`
  reads back through `from_signed_fixed_point`.

The old pool and the current vault-rewards pool are the same pallet instance,
under the same `VaultRewards` prefix. So the five prefix clears empty the
version-0 items and the current-layout items alike. The check at
crates/vault-registry/src/migration.rs:210-221 relies on this: it reads the
current-layout `TotalRewards` after the clears and expects zero.

`clear_reward_storage` takes its weight by value. The writes it accrues
therefore never reach the caller. The model keeps this: the re-staking loop
starts from the weight left by the first loop.

## Model

| member | source | states |
|---|---|---|
| Weights.SaturatingAdd | crates/vault-registry/src/migration.rs:121 | `saturating_accrue`: the result is exactly the sum when that fits in a u64 and `u64::MAX` otherwise, so it is never below either operand |
| Reward.Owed | crates/vault-registry/src/migration.rs:127-129 | the reward owed to a stake is `stake * (reward_per_token - tally)` truncated to whole tokens: for a non-negative stake and difference it succeeds exactly when the difference and the fixed-point product are in range, and its value `r` satisfies `r * UNIT^2 <= stake * (reward_per_token - tally) < (r + 1) * UNIT^2`; a zero stake, or a reward-per-token equal to the tally, owes exactly 0 |
| Reward.SetStake | crates/vault-registry/src/migration.rs:167 | `set_stake` makes the participant's stake the new amount, moves the pool total by the difference, and leaves every other stake and total unchanged |
| Reward.EmptyConsistent | crates/vault-registry/src/migration.rs:151-155 | a cleared pool's totals equal the sums of its stakes |
| Reward.SetStakeConsistent | crates/vault-registry/src/migration.rs:348-364 | `set_stake` keeps every pool's `TotalStake` equal to the sum of that pool's individual stakes |
| Reward.PoolSumMonotone | crates/vault-registry/src/migration.rs:223-227 | a per-prefix sum of stored values does not fall when no entry under that prefix falls |
| RewardV0.ComputeReward | crates/vault-registry/src/migration.rs:127-129 | the old pool's `compute_reward`; a vault with no stake, or whose tally equals the reward-per-token, is owed 0; for a non-negative stake and difference it succeeds exactly when the difference and the fixed-point product are in range, and the reward is then the stake times the difference, divided by UNIT^2 and rounded down |
| RewardV0.EmptyOwesNothing | crates/vault-registry/src/migration.rs:440-451 | a cleared old pool holds no stake for any vault, owes every vault 0, and holds zero total rewards in every currency |
| Staking.TotalCurrentStakeAmount | crates/vault-registry/src/migration.rs:160 | a vault's non-negative total current stake, as an integer balance, is the fixed-point value's integer part; a total that truncates toward zero to a negative balance (one of -1 token or less) fails to convert, while one between -1 and 0 truncates to 0 |
| Staking.DistributeReward | crates/vault-registry/src/migration.rs:135-144 | with zero stake the reward is dropped and the pool is unchanged; success changes no stake, nonce or tally and only the vault's own accumulators; total rewards grow by the reward; for a non-negative reward over a positive stake, reward-per-token rises by the reward divided by the total stake, rounded down (`d * total <= reward * UNIT^2 < (d + 1) * total` for the increment `d`), so it does not fall; such a distribution succeeds exactly when the reward, the increment and both new accumulators are in fixed-point range |
| Staking.ComputeReward | crates/vault-registry/src/migration.rs:429-432 | a nominator with no stake, or whose tally equals the vault's reward-per-token, is owed 0 (the staked nominator of 429-432 before any distribution); for a non-negative stake and difference it succeeds exactly when the difference and the fixed-point product are in range, and the reward is then the stake times the difference, divided by UNIT^2 and rounded down |
| Staking.DistributeRewardGrows | crates/vault-registry/src/migration.rs:135 | distributing a non-negative reward over non-negative stakes lowers no reward accumulator and no reward total |
| Staking.DistributeRewardKeeps | crates/vault-registry/src/migration.rs:135 | distributing 0, or distributing in another currency, leaves every reward total in a currency unchanged |
| PoolManager.Quotient | crates/vault-registry/src/migration.rs:162 | `collateral.checked_div(threshold)`, and `convert_to(wrapped)` at 373 (amount / exchange rate), give the floor of a balance divided by an unsigned fixed-point value, which is non-negative for a non-negative balance |
| PoolManager.UpdateRewardStake | crates/vault-registry/src/migration.rs:167 | the vault's stake at (collateral currency, vault) becomes collateral / threshold, and that currency's vault-rewards total moves by the difference between the new and the old stake; the capacity stake of that currency becomes its new vault-rewards total converted by price, and the capacity total moves by the same difference; every other stake, and every vault-rewards total of another currency, is unchanged |
| VaultCapacity.CarryEntry | crates/vault-registry/src/migration.rs:127-144 | one (vault, currency) entry changes only the staking pool, and there only reward accumulators; the weight does not fall |
| VaultCapacity.CarryCurrencies | crates/vault-registry/src/migration.rs:123-145 | the inner loop changes only staking reward accumulators; the weight does not fall |
| VaultCapacity.CarryVault | crates/vault-registry/src/migration.rs:120-146 | one vault's pass changes only staking reward accumulators; the weight does not fall |
| VaultCapacity.CarryVaults | crates/vault-registry/src/migration.rs:120-146 | the first loop changes only staking reward accumulators; the weight does not fall |
| VaultCapacity.ClearItem | crates/vault-registry/src/migration.rs:16-29 | clearing one item touches only the old pool and the vault-rewards pool |
| VaultCapacity.ClearAll | crates/vault-registry/src/migration.rs:151-155 | after the five clears, the old pool and the vault-rewards pool are empty and all other storage is unchanged |
| VaultCapacity.RestakeVault | crates/vault-registry/src/migration.rs:158-185 | one vault's re-stake changes only the vault-rewards and capacity pools; the weight does not fall |
| VaultCapacity.RestakeVaults | crates/vault-registry/src/migration.rs:157-186 | the second loop changes only the vault-rewards and capacity pools; the weight does not fall |
| VaultCapacity.Migrate | crates/vault-registry/src/migration.rs:102-192 | the upgrade moves version 0 to 1 and leaves any other version as it is; the vault set, thresholds and prices are unchanged |
| VaultCapacity.VersionGuard | crates/vault-registry/src/migration.rs:104-113 | on any version but 0 the upgrade changes nothing and returns one read's weight |
| VaultCapacity.MigrateIdempotent | crates/vault-registry/src/migration.rs:190 | a run from version 0 ends at version 1, so a second run changes nothing and returns one read's weight |
| VaultCapacity.CarryEntryMovesOwedReward | crates/vault-registry/src/migration.rs:127-143 | a successful distribution over a non-zero stake adds exactly the old pool's `compute_reward` (0 if that fails) to the vault's staking total rewards; it accrues 3 reads, then 4 reads and 2 writes |
| VaultCapacity.FailedEntrySkipped | crates/vault-registry/src/migration.rs:135-137 | a failing distribution leaves the storage unchanged and accrues only the 3 reads, no write weight |
| VaultCapacity.MigrationWeightGrows | crates/vault-registry/src/migration.rs:117 | a run from version 0 returns at least the initial 2 reads and 1 write |
| VaultCapacity.CarryCurrenciesGrow | crates/vault-registry/src/migration.rs:123-145 | over non-negative stakes, the inner loop lowers no staking reward accumulator |
| VaultCapacity.CarryVaultsGrow | crates/vault-registry/src/migration.rs:120-146 | over non-negative stakes, the first loop lowers no staking reward accumulator |
| VaultCapacity.MigrationKeepsStakes | crates/vault-registry/src/migration.rs:301-333 | the upgrade leaves staking stakes, totals, nonces and tallies unchanged, so the stake-total check holds afterwards if it held before; over non-negative stakes no reward accumulator falls |
| VaultCapacity.RestakeSetsVaultStakes | crates/vault-registry/src/migration.rs:157-186 | after the second loop each re-staked vault's stake is collateral / threshold |
| VaultCapacity.RestakeKeepsConsistent | crates/vault-registry/src/migration.rs:157-186 | the second loop keeps each vault-rewards total equal to the sum of its stakes |
| VaultCapacity.RestakeSetsCapacity | crates/vault-registry/src/migration.rs:157-186 | after the second loop each re-staked vault's collateral currency has capacity stake equal to its vault-rewards total converted by price |
| VaultCapacity.MigratedVaultStakes | crates/vault-registry/src/migration.rs:336-346 | after a run from version 0, every vault's stake at (collateral currency, vault) is its total collateral / secure threshold |
| VaultCapacity.MigratedTotalsMatchStakes | crates/vault-registry/src/migration.rs:348-364 | after a run from version 0, every vault-rewards `TotalStake` equals the sum of the individual stakes of its pool |
| VaultCapacity.MigratedCapacityStakes | crates/vault-registry/src/migration.rs:366-376 | after a run from version 0, the capacity stake of each vault's collateral currency is that currency's vault-rewards total converted into the wrapped currency |
| VaultCapacity.MigratedOldPoolCleared | crates/vault-registry/src/migration.rs:210-221 | after a run from version 0, the old pool holds no stake, owes no vault anything, and holds zero total rewards in every currency |
| VaultCapacity.Chain.ClearRewardStorage | crates/vault-registry/src/migration.rs:16-29 | removes every entry of the item, reports a leftover cursor exactly when the prefix removal returned one (never, with no limit), and returns no weight |
| VaultCapacity.Chain.MoveVaultRewards | crates/vault-registry/src/migration.rs:121-145 | the in-place pass over one vault's two currencies leaves the state and weight `CarryVault` specifies |
| VaultCapacity.Chain.MoveRewards | crates/vault-registry/src/migration.rs:120-146 | the in-place first loop leaves the state and weight `CarryVaults` specifies |
| VaultCapacity.Chain.UpdateVaultStake | crates/vault-registry/src/migration.rs:158-185 | the in-place re-stake of one vault leaves the state and weight `RestakeVault` specifies |
| VaultCapacity.Chain.UpdateStakes | crates/vault-registry/src/migration.rs:157-186 | the in-place second loop leaves the state and weight `RestakeVaults` specifies |
| VaultCapacity.Chain.ClearRewards | crates/vault-registry/src/migration.rs:151-155 | the five in-place clears leave the state `ClearAll` specifies |
| VaultCapacity.Chain.OnRuntimeUpgrade | crates/vault-registry/src/migration.rs:102-192 | the in-place upgrade leaves exactly the storage, and returns exactly the weight, that `Migrate` gives for the old storage |
| PostUpgrade.StrictCheckRejectsWithoutOldRewards | crates/vault-registry/src/migration.rs:234-255 | when the old pool holds no rewards in a currency, whatever the signs of the staking stakes, the strict check as written (`RewardsCheckAsWritten`: the `StakingRewards` after the run must be below the recorded figure) rejects every run from version 0 |
| PostUpgrade.CarryCurrenciesKeep | crates/vault-registry/src/migration.rs:123-145 | if the old pool owes a vault nothing in a currency, that vault's pass leaves the staking reward totals in that currency unchanged |
| PostUpgrade.CarryVaultsKeep | crates/vault-registry/src/migration.rs:120-146 | if the old pool owes no vault anything in a currency, the first loop leaves the staking reward totals in that currency unchanged |
| PostUpgrade.CheckAcceptsWhenNothingOwed | crates/vault-registry/src/migration.rs:234-255 | when nothing is owed in a currency, the `StakingRewards` in it are unchanged and the corrected check (`RewardsCheck`, `<=`) accepts the run |
| PostUpgrade.OwedTotal | crates/vault-registry/src/migration.rs:120-129 | what the old pool owes a sequence of vaults in a currency is 0 exactly when it owes each of them 0 |
| PostUpgrade.CarryEntryBound | crates/vault-registry/src/migration.rs:127-143 | one (vault, currency) entry lowers no `StakingRewards` sum; it raises the sum in its own currency by at most the old pool's reward times UNIT, and leaves other currencies' sums no higher |
| PostUpgrade.CarryVaultBound | crates/vault-registry/src/migration.rs:121-145 | a vault's pass lowers no `StakingRewards` sum; when its wrapped and native currencies differ, it raises the `StakingRewards` in any currency by at most what the old pool owes it there, times UNIT |
| PostUpgrade.CarryVaultsBound | crates/vault-registry/src/migration.rs:120-146 | the first loop lowers no `StakingRewards` sum; when no vault's wrapped currency is the native one, it raises the sum in any currency by at most `OwedTotal` over the vaults, times UNIT |
| PostUpgrade.CheckAcceptsWhenSolvent | crates/vault-registry/src/migration.rs:234-255 | for every run from version 0 whose old pool is solvent in a currency (its total rewards cover `OwedTotal` times UNIT), the staking rewards grow by at most what was owed and the corrected check (`RewardsCheck`, `<=`) accepts |
| PostUpgrade.ChecksAcceptWhenSolvent | crates/vault-registry/src/migration.rs:234-255 | both corrected checks (`RewardsChecks`), against the native and wrapped figures `pre_upgrade` records (old pool total plus `StakingRewards`, 76-99), accept every run from version 0 that is solvent in both currencies |
| MigrationTest.OldPoolOwes | crates/vault-registry/src/migration.rs:420-426 | before the upgrade, the old pool owes the vault 100 wrapped tokens and 0 native tokens |
| MigrationTest.StakingOwes | crates/vault-registry/src/migration.rs:467-471 | after the carry-over, staking owes the vault's own nominator 100 wrapped tokens |
| MigrationTest.UpdateStake | crates/vault-registry/src/migration.rs:453-465 | re-staking the scenario's vault gives vault stake 1000 / 2 = 500 and capacity stake 500 / 0.1 = 5000 |
| MigrationTest.MigrationWorks | crates/vault-registry/src/migration.rs:406-475 | the test scenario: old reward 100 and staking reward 0 before; afterwards no old stake, old reward 0, vault stake 500, capacity stake 5000, staking reward 100, version 1 |
| MigrationTest.MigratedStaking | crates/vault-registry/src/migration.rs:467-471 | the scenario's staking pool after the upgrade holds the 100 wrapped tokens as reward-per-token 0.1 over the 1000 staked |
| MigrationTest.WrappedStakingRewards | crates/vault-registry/src/migration.rs:240-244 | the staking rewards in the wrapped currency after the scenario's upgrade sum to 100 tokens |
| MigrationTest.NativeCheckOnScenario | crates/vault-registry/src/migration.rs:234-238 | in the scenario the native check compares 0 with 0: the strict check fails and the corrected one passes |
| MigrationTest.WrappedCheckOnScenario | crates/vault-registry/src/migration.rs:251-255 | in the scenario the wrapped rewards after the upgrade equal the recorded figure, so the strict check fails |
| MigrationTest.RewardsCheckOnScenario | crates/vault-registry/src/migration.rs:436-438 | in the scenario `post_upgrade`'s strict rewards checks (`RewardsChecksAsWritten`) fail, each currency's on its own, and the corrected ones (`RewardsChecks`) pass |
| MigrationTest.ScenarioSolvent | crates/vault-registry/src/migration.rs:415-426 | the scenario's old pool owes 100 wrapped tokens and holds exactly 100, so it is solvent in both currencies and `ChecksAcceptWhenSolvent` applies to it |

## Left out

- Logging (`log::info`, `log::warn`, `log::error`) has no effect on storage and is not modelled.
- The SCALE encoding and decoding of `RewardsState` and the stake-entry counts are left out (31-36, 62-75, 196-209, 169-170). The counts are only logged, and the check that compares them is commented out.
- The collateral reconciliation check (258-299) is left out. It depends on liquidated collateral and the liquidation vault, which are not part of this model.
- The staking stake-total check (301-333) is not restated. It depends on the staking pallet's `compute_stake`, which is not part of this model. `VaultCapacity.MigrationKeepsStakes` shows that the upgrade changes none of the values it reads.
- The staking, reward, pool-manager, oracle and currency pallets are not part of this model. Their operations are modelled only as far as the migration uses them:
  - the old pool's reward is stake * (reward-per-token - tally);
  - staking `distribute_reward` drops a reward over zero stake and otherwise adds reward / total stake to reward-per-token;
  - `update_reward_stake` writes collateral / threshold and the converted total.
- The reward-per-token and tally maps of the vault-rewards and capacity pools are not modelled. `update_reward_stake` reads both and rewrites the tallies (the weight comments at 175-184 count those accesses), but nothing the migration or `post_upgrade` asserts depends on them; the weight for them is accrued as in the source.
- PoolManager.UpdateRewardStake: does not model the 128-bit overflow errors of `set_stake`, `checked_div` and `convert_to`. Inside `update_reward_stake` they reach the `.unwrap()` at 167; an overflow of the migration's own `checked_div` is caught by the unwrap at 162. The model treats the unwraps at 160-162 and 167 as the precondition `VaultCapacity.Migratable`, which covers the failing lookups but not these overflows.
- PoolManager.Quotient: rounds a negative amount down, where the source fails to convert a negative fixed-point total into a balance. Every total the upgrade converts is a sum of non-negative vault capacities in a pool emptied by the clears.
- VaultCapacity.MigratedCapacityStakes: states the capacity check (366-376) only for the collateral currencies of registered vaults. A capacity entry for a currency with no vault predates the upgrade, and the upgrade does not touch it.
- PostUpgrade.PreUpgrade and PostUpgrade.StakingRewards: sum the staking rewards exactly, where the source reduces them with `saturating_add`, both before the upgrade (81-95) and after it (226, 243). The sums differ only beyond the fixed-point maximum of about 1.7 * 10^20 tokens.
- PostUpgrade.CheckAcceptsWhenSolvent: assumes the old pool's total rewards cover what it owes, and that no vault's wrapped currency is the native one. The reward pallet keeps the first, since it rounds every owed amount down; the runtime's wrapped and native currencies differ. Neither the reward pallet nor the currency configuration is part of this model.
- The order of `Vaults::<Runtime>::iter()` is the storage map's hash order. The model takes it as a given sequence of vaults.
- The `DbWeight` constants are a parameter, `Config.db`.
- The internals of `clear_storage_prefix` are left out. It is called with no limit, so it removes every entry and returns no cursor; only the entries it removes and its report are modelled.
- The oracle's exchange rates are a map from collateral currency to an unsigned fixed-point rate. The test's `from_float(0.1)` (434) is the exact rate 10^17 / 10^18.
- The generic instance typing (42-56) is expressed by the key types of the two pools: (currency, vault) for vault rewards and ((), currency) for capacity.

## Findings

| source | as written | input that shows it | evidently intended | confidence | as-written member | corrected member |
|---|---|---|---|---|---|---|
| crates/vault-registry/src/migration.rs:234-255 | the staking rewards after the upgrade must be strictly less than the recorded old-pool plus staking rewards (`<`) | the `migration_works` state: there are no native rewards, so the native check compares 0 < 0; all 100 wrapped tokens arrive, so the wrapped check compares 100 < 100; both fail, and so does every run where the old pool holds no rewards in a currency | `<=`: the comment allows for rounding loss, not for rejecting an exact transfer | not executed; medium, since the staking pallet is not part of this model | PostUpgrade.StrictCheckRejectsWithoutOldRewards, MigrationTest.RewardsCheckOnScenario | PostUpgrade.ChecksAcceptWhenSolvent, PostUpgrade.CheckAcceptsWhenSolvent |
