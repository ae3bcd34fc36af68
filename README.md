# Alliance asset keeper, modelled in Dafny

This project models the asset side of the alliance module (`x/alliance`).
The alliance module lets a chain accept staking of foreign tokens
("alliance assets"). Each asset has a reward weight. The module keeps the
native stake it delegates to each validator in line with those weights: it
mints and delegates native tokens, or unbonds and burns them. At the end of
every block (`EndBlocker`) it does four things, in order:

1. initializes assets whose reward start time has arrived;
2. deducts the take rate from every asset once per claim interval and pays
   the deduction to the fee collector;
3. compounds the decay of reward weights;
4. serves a queued rebalance.

The model has four parts.

* **Values and pure helpers.**
  * `dec.dfy`: fixed-point decimals with 18 places and banker's rounding.
  * `types.dfy`: the records, the asset constructor, and the share/token conversions of `x/alliance/types/asset.go`.
  * `params.dfy`: the params store of `x/alliance/keeper/params.go`.
  * `chain.dfy`: the staking and bank keepers, reduced to the balances the alliance keeper changes.
* **Each keeper operation as a function on values.** A loop over a slice is
  a fold over a sequence, defined on the last element.
  * `store.dfy`: the registry and the snapshot log.
  * `update.dfy`: `UpdateAllianceAsset`.
  * `init.dfy`: `InitializeAllianceAssets`.
  * `takerate.dfy`: `DeductAssetsHook` and `DeductAssetsWithTakeRate`.
  * `decay.dfy`: `RewardWeightChangeHook`.
  * `rebalance.dfy`: `RebalanceHook` and `RebalanceBondTokenWeights`.
  * `block.dfy`: the whole end-block step.

  The properties of each operation are lemmas about these functions.
* **The keeper as a class** (`keeper.dfy`).
  * Fields: the asset registry, the snapshot log, the rebalance queue flag and the chain.
  * The params record lives in its own `ParamStore` object.
  * The shared `[]*AllianceAsset` slice is an `array<Asset>` that the hooks update in place.
  * Every method is proved equal to the value-level function of the same operation.
  * Every loop carries invariants that tie it to the fold.
* **`EndBlocker` over the keeper** (`abci.dfy`), proved against `Block.EndBlock`.

Conventions:

* A decimal (`LegacyDec`) is an integer count of 10^-18 units.
* Times and durations are integer nanoseconds. Go's zero `time.Time{}` is `0`.
* Go's `/` on durations truncates toward zero and is written out (`TruncDiv`). So is `uint64(...)` (reduction mod 2^64) and its reinterpretation as `int64`.
* A Go panic becomes an error value:
  * division by zero in a decimal `Quo`;
  * `sdk.NewCoin` with a negative amount;
  * the panics of `EndBlocker`.
* Calls into the staking keeper's validator lookup (`GetAllianceValidator`) and into `ClaimValidatorRewards` are inputs. Each validator carries their outcome as the flags `readable` and `claimable`.

Where the code and its documentation differ, the model follows the code:

* `GetParams` on an empty store yields the zero record. `SetLastRewardClaimTime` then fails the positive-duration check, so the first take-rate claim fails until params are set (`ParamsKeeper.LastClaimTimeNeedsParams`).
* A failed weight-change update keeps the snapshots written before the failing validator. It also keeps the rebalance request that `RewardWeightChangeHook` queued before calling it.
* `DeleteAsset` checks the token total of the record it is given, not of the stored one.
* An update whose range has `min > max` always fails with `RewardWeightOutOfBound`.

## Model

| member | source | states |
|---|---|---|
| `Dec.TruncateIntFloor` | x/alliance/keeper/asset.go:344 | `TruncateInt` of a non-negative decimal is the largest whole number at or below it. |
| `Dec.PowerUnit` | x/alliance/keeper/asset.go:337 | A base in [0, 1] raised to any power with rounded products stays in [0, 1]. This is the multiplier both the take rate and the decay compound with. |
| `Dec.ChopRound` | x/alliance/keeper/asset.go:167 | Banker's rounding back to 18 places is off by at most half a unit. |
| `Dec.QuoSelf` | x/alliance/types/asset.go:29-34 | A decimal divided by itself is exactly one. |
| `AllianceTypes.NewAllianceAsset` | x/alliance/types/asset.go:10-27 | A new asset:<br>• holds no tokens or shares;<br>• has change rate one and interval zero, so no decay schedule;<br>• is not initialized;<br>• starts its decay clock at its reward start time. |
| `AllianceTypes.RewardsStartedStays` | x/alliance/types/asset.go:78-81 | Rewards have started at block time t exactly when t is at or after the start time, so once started they stay started. |
| `AllianceTypes.AddCoin` | x/alliance/keeper/asset.go:346 | Adding a coin raises that denom's amount by the coin's amount and leaves other denoms alone. A zero sum is dropped, so the collection is empty only when it holds nothing. |
| `AllianceTypes.ConvertNewTokenToShares` | x/alliance/types/asset.go:29-34 | New tokens get shares as follows:<br>• an empty pool issues them 1:1;<br>• a pool at par issues them 1:1;<br>• a pool with shares but no tokens is a division by zero;<br>• a positive pool never issues negative shares. |
| `AllianceTypes.ConvertNewTokenToSharesMono` | x/alliance/types/asset.go:29-34 | In a positive pool, more tokens never get fewer shares. |
| `AllianceTypes.ConvertNewShareToDecToken` | x/alliance/types/asset.go:36-41 | Shares pay out tokens as follows:<br>• with no shares outstanding, the whole token total is paid;<br>• zero shares pay zero;<br>• all the shares pay the whole total. |
| `AllianceTypes.ConvertNewShareToDecTokenMono` | x/alliance/types/asset.go:36-41 | More shares never pay fewer tokens. |
| `AllianceTypes.FirstDepositRoundTrip` | x/alliance/types/asset.go:29-41 | In an empty pool, any n tokens become n shares, and those shares redeem for exactly n tokens. |
| `AllianceTypes.GetDelegationTokensWithShares` | x/alliance/types/asset.go:54-63 | The payout has the asset's denom and is never negative. It is an error exactly when the exact amount plus 10^-6 is at or below -1, the case where `sdk.NewCoin` panics. |
| `AllianceTypes.GetDelegationTokens` | x/alliance/types/asset.go:43-63 | A delegation is paid in the asset's denom and never a negative amount. It is an error exactly when what its shares are worth, plus 10^-6, is at or below -1. When its shares are worth x >= 0, the payout is the whole number k with k <= x + 10^-6 < k + 1. |
| `WeightDecay.PositiveDecayNeverRaises` | x/alliance/types/asset.go:74-76 | An asset with positive decay and a change rate below one has a decay schedule, and applying it never raises the weight, except where the range minimum lifts it. |
| `AllianceTypes.EpsilonRoundsUp` | x/alliance/types/asset.go:54-63 | An exact amount within 10^-6 below a whole number k, or equal to k, pays exactly k tokens. |
| `AllianceTypes.DelegationTokensFloor` | x/alliance/types/asset.go:54-63 | The payout is the exact amount plus 10^-6, rounded down to whole tokens. |
| `AllianceTypes.GetDelegationSharesFromTokens` | x/alliance/types/asset.go:65-72 | Tokens convert to shares 1:1 while the validator's shares truncate to zero. Otherwise they convert at the pool rate, which is a division by zero for a validator with no tokens. |
| `ParamsKeeper.ValidatePositiveDuration` | x/alliance/keeper/params.go:58-63 | A duration passes exactly when it is positive. |
| `ParamsKeeper.ReadParams` | x/alliance/keeper/params.go:44-55 | An empty store reads as the zero record. A stored record reads back as itself. |
| `ParamsKeeper.WriteParams` | x/alliance/keeper/params.go:57-68 | A record is stored exactly when both durations are positive. A rejected record leaves the store as it was. |
| `ParamsKeeper.WriteLastClaimTime` | x/alliance/keeper/params.go:35-42 | The claim time is written over the current record exactly when that record passes validation. Otherwise the store is unchanged. |
| `ParamsKeeper.LastClaimTimeNeedsParams` | x/alliance/keeper/params.go:35-42 | On an empty params store, setting the claim time fails and stores nothing. |
| `ParamsKeeper.WriteThenRead` | x/alliance/keeper/params.go:44-68 | A valid record, once written, reads back unchanged. |
| `ParamsKeeper.LastClaimTimeKeepsDurations` | x/alliance/keeper/params.go:35-42 | Setting the claim time changes only the claim time. |
| `ParamsKeeper.ParamStore.GetParams` | x/alliance/keeper/params.go:44-55 | Reads the stored record. Under the store invariant, a record is present exactly when it is valid. |
| `ParamsKeeper.ParamStore.RewardDelayTime` | x/alliance/keeper/params.go:11-17 | The reward delay of the current record. It is positive exactly when params are stored. |
| `ParamsKeeper.ParamStore.RewardClaimInterval` | x/alliance/keeper/params.go:19-25 | The take-rate claim interval of the current record. It is positive exactly when params are stored. |
| `ParamsKeeper.ParamStore.LastRewardClaimTime` | x/alliance/keeper/params.go:27-33 | The last claim time. It is the zero time when nothing is stored. |
| `ParamsKeeper.ParamStore.SetParams` | x/alliance/keeper/params.go:57-68 | Succeeds exactly when both durations are positive, and then stores the record. Keeps the store invariant. |
| `ParamsKeeper.ParamStore.SetLastRewardClaimTime` | x/alliance/keeper/params.go:35-42 | Read-modify-write of the claim time. On success the new time reads back. Keeps the store invariant. |
| `ChainState.MintCoins` | x/alliance/keeper/asset.go:179 | Raises the bond-denom supply by the amount and changes nothing else. |
| `ChainState.Delegate` | x/alliance/keeper/asset.go:187 | The module's stake at that validator grows by the amount. Other validators, the bond of everyone else, the supply and the balances are unchanged. |
| `ChainState.ValidateUnbondAmount` | x/alliance/keeper/asset.go:198 | Passes exactly when the amount is at most the module's stake at the validator. |
| `ChainState.Unbond` | x/alliance/keeper/asset.go:206 | The module's stake at that validator shrinks by the amount. Everything else is as in `Delegate`. |
| `ChainState.BurnCoins` | x/alliance/keeper/asset.go:210 | Lowers the bond-denom supply by the amount and changes nothing else. |
| `ChainState.SendCoinsToFeeCollector` | x/alliance/keeper/asset.go:360-363 | Succeeds exactly when the module balance covers the coins. On success, each denom moves from the module to the fee collector and stake is unchanged. |
| `ChainState.AddCoins` | x/alliance/keeper/asset.go:134 | The sum of two coin collections, denom by denom (also the unbonded validators' summed shares). |
| `ChainState.SubCoins` | x/alliance/keeper/asset.go:360 | The difference of two coin collections, denom by denom. |
| `ChainState.CompleteUndelegations` | x/alliance/abci.go:14-16 | Passes exactly when the staking side completes the mature undelegations. |
| `ChainState.MintDelegateBalanced` | x/alliance/keeper/asset.go:179-190 | Minting n and delegating n raises supply by n and alliance bond by n, so their difference is kept. The bond of everyone else is unchanged. |
| `ChainState.UnbondBurnBalanced` | x/alliance/keeper/asset.go:206-213 | Unbonding n and burning n lowers supply by n and alliance bond by n, so their difference is kept. The bond of everyone else is unchanged. |
| `AssetStore.InitialSnapshot` | x/alliance/keeper/asset.go:379-385 | The warm-up snapshot records weight zero and the validator's reward index vector. |
| `AssetStore.InitialSnapshots` | x/alliance/keeper/asset.go:28-31 | The warm-up loop keeps every key already stored, and every key it adds is under the asset's denom at this height. |
| `AssetStore.ChangeSnapshot` | x/alliance/keeper/asset.go:373-377 | A weight-change snapshot records the weight in force until now and the validator's index vector. |
| `AssetStore.InitialSnapshotsOther` | x/alliance/keeper/asset.go:28-31 | Writing the warm-up snapshots touches no key of another denom, another height or an unknown validator. |
| `AssetStore.InitialSnapshotsAt` | x/alliance/keeper/asset.go:28-31 | Every validator gets its warm-up snapshot at (denom, validator, height). |
| `AssetStore.InitialSnapshotsTwice` | x/alliance/keeper/asset.go:28-31 | Writing the warm-up snapshots twice is the same as writing them once. |
| `AssetStore.ValidatorOutcome` | x/alliance/keeper/asset.go:53-61 | A validator passes exactly when it can be read and its rewards claimed. |
| `AssetStore.ChangeSnapshots` | x/alliance/keeper/asset.go:52-67 | The snapshot loop, failed or not, keeps every key already stored, and every key it adds is under the asset's denom at this height. |
| `AssetStore.ChangeSnapshotsPass` | x/alliance/keeper/asset.go:52-67 | The snapshot loop succeeds exactly when every validator can be read and claimed. |
| `AssetStore.ChangeSnapshotsOutcome` | x/alliance/keeper/asset.go:52-67 | A failed loop reports the error of the first validator that fails, and every validator before it passed. |
| `AssetStore.ChangeSnapshotsOther` | x/alliance/keeper/asset.go:52-67 | The loop, failed or not, touches no key outside (denom, some validator, height). |
| `AssetStore.ChangeSnapshotsAt` | x/alliance/keeper/asset.go:52-67 | After a successful loop, every validator holds the change snapshot of the stored asset at this height. |
| `AssetStore.ChangeSnapshotsSticky` | x/alliance/keeper/asset.go:55-61 | Once a validator has failed, later validators change nothing (the callback stops the iteration). |
| `AssetStore.SnapshotsFrom` | x/alliance/keeper/asset.go:394-403 | The range read stays within [lastClaimHeight, MaxUint64). |
| `AssetStore.SnapshotsFromAscending` | x/alliance/keeper/asset.go:394-403 | The range read yields heights in strictly ascending order. |
| `AssetStore.SnapshotsFromExact` | x/alliance/keeper/asset.go:394-403 | An entry is in the range read exactly when it is stored for (denom, validator) at a height in [lastClaimHeight, MaxUint64). |
| `AssetStore.SnapshotsFromCharacterized` | x/alliance/keeper/asset.go:394-403 | The same characterization, stated for all entries at once. |
| `AssetUpdate.Whitelisted` | x/alliance/keeper/asset.go:72-88 | Only five fields are updated: take rate, weight, change rate, change interval and decay clock. Denom, range, totals, start time and initialization stay as stored. The decay clock restarts at the block time only when the schedule changes and none was set before. |
| `AssetUpdate.UpdateAsset` | x/alliance/keeper/asset.go:39-92 | An unknown denom fails with `UnknownAsset`, and only an unknown denom does. A weight outside the new record's range fails with `RewardWeightOutOfBound` and changes nothing. A failure leaves the registry and the queue alone. A success writes the whitelisted record and keeps the registry keyed. An unchanged weight writes no snapshot and queues nothing. A changed weight queues a rebalance. |
| `AssetUpdate.UpdateSnapshotsOldWeight` | x/alliance/keeper/asset.go:50-70 | A weight change succeeds exactly when every validator can be read and claimed. It then records, for each validator at this height, the old weight and that validator's index vector. |
| `AssetUpdate.UpdateSnapshotsOther` | x/alliance/keeper/asset.go:50-70 | An update never touches snapshots of other denoms, other heights or unknown validators. |
| `AssetUpdate.UpdateWithStoredIsNoop` | x/alliance/keeper/asset.go:39-92 | Re-submitting the stored record succeeds and changes nothing. |
| `Initialize.Initialized` | x/alliance/keeper/asset.go:23-27 | An asset is initialized afterwards exactly when it was, or its rewards have started. No other field changes, and it never needs initializing again. |
| `Initialize.InitAssets` | x/alliance/keeper/asset.go:22-34 | The slice after the hook: every element, in place, as `Initialized` makes it. |
| `Initialize.InitStoreNothingToDo` | x/alliance/keeper/asset.go:22-34 | A slice with nothing to activate leaves the store unchanged. |
| `Initialize.InitIdempotent` | x/alliance/keeper/asset.go:22-34 | Running the hook again over its own output changes neither the slice nor the store. |
| `Initialize.InitStore` | x/alliance/keeper/asset.go:22-34 | The hook never touches the rebalance flag, never removes an asset, and keeps the registry keyed. |
| `Initialize.InitStoreActivated` | x/alliance/keeper/asset.go:22-34 | Each activated asset is stored initialized, and every validator holds a zero-weight snapshot for it at this height. |
| `Initialize.InitStoreOthers` | x/alliance/keeper/asset.go:22-34 | Registry entries whose denom is not in the slice are untouched. |
| `TakeRate.ToUint64` | x/alliance/keeper/asset.go:329 | `uint64(q)` lies in [0, 2^64) and is q itself when q is in range. |
| `TakeRate.ToInt64` | x/alliance/keeper/asset.go:365 | `time.Duration(n)` lies in the int64 range and is n itself when n is in range. |
| `TakeRate.ElapsedIntervals` | x/alliance/keeper/asset.go:328-329 | The interval count lies in [0, 2^64). Less than one interval in either direction counts zero. At least one full interval forward counts at least one. |
| `TakeRate.WholeIntervals` | x/alliance/keeper/asset.go:328-329 | The interval count q satisfies last + q·interval ≤ now < last + (q+1)·interval. |
| `TakeRate.ClockAdvance` | x/alliance/keeper/asset.go:328-329 | Once more than a full interval has passed, at least one interval is counted. The clock advanced by the counted intervals is exactly last + interval · ⌊(now − last) / interval⌋. It lands after the last claim, at or before now, and less than one interval before now. |
| `TakeRate.TaxedAsset` | x/alliance/keeper/asset.go:334-347 | A deducted asset keeps every field but its total. The new total is the whole-token floor of (1 − takeRate)^n · total. An asset that is not taxable, or would drop to one token or less, is left as it is. |
| `TakeRate.TaxedBounds` | x/alliance/keeper/asset.go:336-344 | With a take rate in (0, 1], the deduction leaves at least one token and never adds any. |
| `TakeRate.HalfRateOneInterval` | x/alliance/keeper/asset.go:336-344 | Half of 10^9 tokens is taken over one interval at rate 0.5. |
| `TakeRate.NegativeDeductionNeedsRateAboveOne` | x/alliance/keeper/asset.go:336-346 | A deduction can grow an asset's total only when its take rate is above one. |
| `TakeRate.TaxStep` | x/alliance/keeper/asset.go:334-347 | One iteration appends exactly one element to the slice copy and keeps the earlier ones. |
| `TakeRate.TaxFold` | x/alliance/keeper/asset.go:333-349 | The loop visits every element of the slice once. |
| `TakeRate.TaxFoldFails` | x/alliance/keeper/asset.go:345-346 | The loop fails (a negative coin) only when some asset has a take rate above one. |
| `TakeRate.TaxFoldOut` | x/alliance/keeper/asset.go:333-349 | A loop that does not fail leaves every slice element as `TaxedAsset` of it. |
| `TakeRate.TaxFoldEligible` | x/alliance/keeper/asset.go:331-335 | The count of taxable assets stays the same exactly when no asset is taxable. In that case no coins are collected and nothing is stored. |
| `TakeRate.TaxFoldLedger` | x/alliance/keeper/asset.go:338-347 | For distinct denoms, the coins collected in a denom are the old total minus the new total. A deducted asset is stored with its new total. |
| `TakeRate.TaxFoldUnshrunk` | x/alliance/keeper/asset.go:339-342 | An asset that would not shrink is skipped, so its registry entry stays as it was. |
| `TakeRate.TaxFoldOther` | x/alliance/keeper/asset.go:333-349 | Denoms outside the slice gain no coins and keep their stored record. |
| `TakeRate.TaxFoldCoinsNonzero` | x/alliance/keeper/asset.go:346 | The collected coins never hold a zero entry, so "empty" and "zero" coincide (line 359). |
| `TakeRate.TaxFoldUntaxed` | x/alliance/keeper/asset.go:333-349 | With nothing taxable, the loop only copies the slice. |
| `TakeRate.TaxFoldNoShrink` | x/alliance/keeper/asset.go:338-342 | When no asset would shrink, the loop only copies the slice: no coins, no writes, no failure. |
| `TakeRate.TaxFoldFailedPrefix` | x/alliance/keeper/asset.go:333-349 | After a failure, later elements are only copied. |
| `TakeRate.DeductWithTakeRate` | x/alliance/keeper/asset.go:313-371 | The snapshots, the rebalance flag and all stake are unchanged, and the slice keeps its length. A zero last-claim time only writes the claim time, and fails exactly when params are invalid. A zero interval is a division by zero. The returned coins hold no zero entry. |
| `TakeRate.SettleClaim` | x/alliance/keeper/asset.go:351-370 | The store is never touched. A negative deduction is an error that changes nothing. Success returns exactly the coins collected. When some asset was taxable but no coins were collected, nothing is paid and the claim time stays where it was. |
| `TakeRate.DeductAssetsHook` | x/alliance/keeper/asset.go:294-309 | Nothing happens until the block time is after last claim + interval. From then on, it is `DeductWithTakeRate` from the stored last-claim time. |
| `TakeRate.NoTaxableAssets` | x/alliance/keeper/asset.go:351-357 | With valid params and nothing taxable, nothing is deducted and the claim time is set to the block time. |
| `TakeRate.FloorProtectionKeepsClock` | x/alliance/keeper/asset.go:339-369 | When some asset is taxable but none would shrink (every one would drop to one token or less), the deduction returns no coins and changes neither the world nor the slice; in particular the claim time is not advanced. |
| `TakeRate.DeductionPaysFeeCollector` | x/alliance/keeper/asset.go:351-370 | A non-empty deduction moves exactly those coins from the module to the fee collector. It sets the claim time to exactly last + interval · ⌊(now − last) / interval⌋: after the old claim, at or before now, and less than one interval before now. |
| `TakeRate.DeductionLedger` | x/alliance/keeper/asset.go:313-371 | Over a slice of distinct registry records, a successful deduction returns, for each denom, exactly the stored total before minus the stored total after. |
| `WeightDecay.Clamp` | x/alliance/keeper/asset.go:435-440 | The weight is clamped into a consistent range. A weight already in the range is kept, and the result is the weight or one of the bounds. |
| `WeightDecay.Decayed` | x/alliance/keeper/asset.go:429-441 | Decay changes only the weight and the decay clock. |
| `WeightDecay.DecayedInRange` | x/alliance/keeper/asset.go:433-440 | The decayed weight always passes `UpdateAllianceAsset`'s range check. |
| `WeightDecay.DecayNeverRaises` | x/alliance/keeper/asset.go:433-440 | A change rate in [0, 1] never raises the weight, except where the range minimum lifts it. |
| `WeightDecay.DecayClock` | x/alliance/keeper/asset.go:426-441 | The decay clock becomes exactly last + interval · ⌊(now − last) / interval⌋, within one interval of now, so the asset is not due again in the same block. |
| `WeightDecay.DecayedSurvivesWhitelist` | x/alliance/keeper/asset.go:441-443 | The decayed record passes `UpdateAllianceAsset`'s whitelist unchanged, so its decay clock is not reset. |
| `WeightDecay.DecayStep` | x/alliance/keeper/asset.go:420-447 | One iteration appends one element to the slice copy. |
| `WeightDecay.DecayFold` | x/alliance/keeper/asset.go:419-449 | The loop visits every element once. |
| `WeightDecay.DecayedIfDue` | x/alliance/keeper/asset.go:421-428 | An asset that is not due is left as it is. |
| `WeightDecay.DecayFoldNothingDue` | x/alliance/keeper/asset.go:419-449 | With nothing due, the hook changes nothing. |
| `WeightDecay.DecayFoldOut` | x/alliance/keeper/asset.go:419-449 | A successful hook leaves each slice element decayed if it was due, and unchanged otherwise. |
| `WeightDecay.DecayFoldKeys` | x/alliance/keeper/asset.go:419-449 | The hook adds or removes no asset and keeps the registry keyed. |
| `WeightDecay.DecayFoldRegistry` | x/alliance/keeper/asset.go:419-449 | After a successful hook over the registry's own records, each is stored decayed if it was due. |
| `WeightDecay.DecayFoldQueue` | x/alliance/keeper/asset.go:442 | After a successful hook, a rebalance is queued exactly when one was queued before or some asset was due. |
| `WeightDecay.DecayFoldPassSticky` | x/alliance/keeper/asset.go:443-446 | The first error ends the hook and is the error it returns. |
| `WeightDecay.DecayFoldOther` | x/alliance/keeper/asset.go:419-449 | Denoms outside the slice keep their stored record. |
| `WeightDecay.DecayFoldFailedPrefix` | x/alliance/keeper/asset.go:443-446 | After a failure, later elements are left as they are. |
| `Rebalance.BondedValidators` | x/alliance/keeper/asset.go:125-137 | Holds exactly the bonded validators. |
| `Rebalance.BondedValidatorsDistinct` | x/alliance/keeper/asset.go:125-137 | Distinct validators stay distinct after the split. |
| `Rebalance.ExpectedBondNoShares` | x/alliance/keeper/asset.go:153-169 | A validator with no shares of any started asset should hold nothing. |
| `Rebalance.ExpectedBondNothingStarted` | x/alliance/keeper/asset.go:153-169 | Before any asset has started its rewards, every validator's expected bond is zero. |
| `Rebalance.RebalanceStep` | x/alliance/keeper/asset.go:154-214 | A failed run passes through unchanged. Otherwise the queue flag becomes set when it was set or an asset is pending. The undelegation outcome is never touched. |
| `Rebalance.RebalanceFold` | x/alliance/keeper/asset.go:142-215 | A failed run passes through the loop unchanged. The undelegation outcome is never touched. |
| `Rebalance.RebalanceBondTokenWeights` | x/alliance/keeper/asset.go:105-217 | A validator that cannot be read fails the rebalance before any stake moves. Whatever happens, the bond of everyone but the module is unchanged. |
| `Rebalance.RebalanceHook` | x/alliance/keeper/asset.go:94-99 | Rebalances only when a rebalance was queued, and consumes the request either way. |
| `Rebalance.RebalanceFoldNative` | x/alliance/keeper/asset.go:142-215 | No stake move changes the bond of everyone else. |
| `Rebalance.StepBalance` | x/alliance/keeper/asset.go:170-214 | A successful step mints exactly what it delegates and burns exactly what it unbonds. |
| `Rebalance.RebalanceFoldSupply` | x/alliance/keeper/asset.go:142-215 | After a successful loop, bond-denom supply minus alliance bond is unchanged. |
| `Rebalance.RebalanceFoldSticky` | x/alliance/keeper/asset.go:142-215 | A failed loop stays failed. |
| `Rebalance.RebalanceFoldQueue` | x/alliance/keeper/asset.go:154-161 | A rebalance is queued again exactly when one was queued, or some asset is pending and a bonded validator was visited. |
| `Rebalance.StepWithinOneToken` | x/alliance/keeper/asset.go:170-214 | After one successful step, the validator's stake is less than one token from its expected bond, and it moved toward that bond without passing it. |
| `Rebalance.StepOthers` | x/alliance/keeper/asset.go:170-214 | One step moves stake at its own validator only. |
| `Rebalance.StepWithinOneIsNoop` | x/alliance/keeper/asset.go:176-196 | A validator already within one token of its expected bond is skipped. |
| `Rebalance.RebalanceFoldOthers` | x/alliance/keeper/asset.go:142-215 | Validators outside the loop keep their stake. |
| `Rebalance.RebalanceFoldWithinOneToken` | x/alliance/keeper/asset.go:142-215 | After a successful loop over distinct validators, each is within one token of its expected bond, reached from its stake before the loop without overshooting. |
| `Rebalance.RebalanceFoldSettled` | x/alliance/keeper/asset.go:142-215 | A loop over validators already within one token moves no stake. |
| `Rebalance.BondedWithinOneToken` | x/alliance/keeper/asset.go:142-215 | After a successful loop, every bonded validator is within one token of its expected bond, and its stake moved toward that bond without passing it. |
| `Rebalance.UnbondedUntouched` | x/alliance/keeper/asset.go:123-137 | Unbonded validators' stake is never touched. |
| `Rebalance.RebalanceWithinOneToken` | x/alliance/keeper/asset.go:105-217 | After a successful rebalance:<br>• every bonded validator is within one token of the weight-proportional expected bond;<br>• no bonded validator's stake overshoots that bond;<br>• unbonded validators keep their stake;<br>• the bond of everyone else is unchanged;<br>• minting equals bonding and burning equals unbonding. |
| `Rebalance.RebalanceIdempotent` | x/alliance/keeper/asset.go:105-217 | Rebalancing again right after a successful rebalance succeeds and moves no stake. |
| `Rebalance.RebalanceHookRequeues` | x/alliance/keeper/asset.go:94-99 | After the hook, a rebalance is queued exactly when one was queued and consumed, all validators could be read, a bonded validator exists and some asset is pending. |
| `Rebalance.RebalanceFoldFailedPrefix` | x/alliance/keeper/asset.go:142-215 | After a failure, later validators change nothing. |
| `Block.EndBlock` | x/alliance/abci.go:12-30 | A failed undelegation completion aborts the block, and a committed block keeps that outcome. |
| `Block.SameStartsPending` | x/alliance/abci.go:18-26 | Slices with the same reward start times have the same pending assets. |
| `Block.DeductKeepsStarts` | x/alliance/abci.go:20 | The take-rate hook changes no reward start time in the shared slice. |
| `Block.DecayKeepsStarts` | x/alliance/abci.go:23 | The decay hook changes no reward start time in the shared slice. |
| `Block.EndBlockServesQueue` | x/alliance/abci.go:12-30 | A committed block leaves a rebalance queued only when an asset has not yet started its rewards. Every request raised within the block is served. |
| `Block.EndBlockKeepsNativeBond` | x/alliance/abci.go:12-30 | A committed block keeps the bond held by everyone but the alliance module. |
| `AssetKeeper.Keeper.SetAsset` | x/alliance/keeper/asset.go:220-224 | Writes the record under its denom and nothing else. It reads back, other denoms read as before, and the registry stays keyed. |
| `AssetKeeper.Keeper.GetAssetByDenom` | x/alliance/keeper/asset.go:241-256 | Found exactly when the denom is registered. The record returned carries that denom. |
| `AssetKeeper.Keeper.DeleteAsset` | x/alliance/keeper/asset.go:258-270 | Fails exactly when the given record still has tokens, and then changes nothing. Otherwise the denom is gone. |
| `AssetKeeper.Keeper.GetAllAssets` | x/alliance/keeper/asset.go:226-239 | A fresh array that lists every registered record exactly once. |
| `AssetKeeper.Keeper.QueueAssetRebalanceEvent` | x/alliance/keeper/asset.go:272-276 | Sets the rebalance flag and nothing else. |
| `AssetKeeper.Keeper.ConsumeAssetRebalanceEvent` | x/alliance/keeper/asset.go:278-290 | Returns whether a rebalance was queued, and clears the flag. |
| `AssetKeeper.Keeper.WriteSnapshot` | x/alliance/keeper/asset.go:387-392 | Writes one snapshot at (denom, validator, height) and nothing else. |
| `AssetKeeper.Keeper.SetRewardWeightChangeSnapshot` | x/alliance/keeper/asset.go:373-377 | Writes the weight-change snapshot of (asset, validator) at the height. |
| `AssetKeeper.Keeper.CreateInitialRewardWeightChangeSnapshot` | x/alliance/keeper/asset.go:379-385 | Writes the zero-weight snapshot of (denom, validator) at the height. |
| `AssetKeeper.Keeper.IterateWeightChangeSnapshot` | x/alliance/keeper/asset.go:394-403 | Yields, in ascending height order, exactly the snapshots of (denom, validator) from lastClaimHeight up to `MaxUint64`. |
| `AssetKeeper.Keeper.IterateAllWeightChangeSnapshot` | x/alliance/keeper/asset.go:405-417 | Visits every stored snapshot exactly once, with its key. |
| `AssetKeeper.Keeper.WriteChangeSnapshots` | x/alliance/keeper/asset.go:52-67 | The validator loop in place, equal to `ChangeSnapshots` (see its lemmas). |
| `AssetKeeper.Keeper.UpdateAllianceAsset` | x/alliance/keeper/asset.go:39-92 | Updates the store exactly as `UpdateAsset` describes. Keeps the keeper invariant and leaves the chain alone. |
| `AssetKeeper.Keeper.CreateInitialSnapshots` | x/alliance/keeper/asset.go:28-31 | The validator loop in place, equal to `InitialSnapshots`. |
| `AssetKeeper.Keeper.InitializeAllianceAssets` | x/alliance/keeper/asset.go:22-34 | Updates the slice in place to `InitAssets` and the store to `InitStore` (see their lemmas). Keeps the invariant. |
| `AssetKeeper.Keeper.TaxAssets` | x/alliance/keeper/asset.go:333-349 | The deduction loop over the shared array, equal to `TaxFold`. It updates elements in place and writes deducted assets. |
| `AssetKeeper.Keeper.DeductAssetsWithTakeRate` | x/alliance/keeper/asset.go:313-371 | Result, world state and slice are exactly as `DeductWithTakeRate` describes. Keeps the registry keyed and the params valid. |
| `AssetKeeper.Keeper.SettleTakeRate` | x/alliance/keeper/asset.go:351-370 | The settlement exactly as `SettleClaim` describes. |
| `AssetKeeper.Keeper.DeductAssetsHook` | x/alliance/keeper/asset.go:294-309 | Exactly as `TakeRate.DeductAssetsHook` describes. |
| `AssetKeeper.Keeper.RewardWeightChangeHook` | x/alliance/keeper/asset.go:419-449 | The decay loop over the shared array, equal to `DecayFold`, including stopping at the first error. Keeps the invariant. |
| `AssetKeeper.Keeper.SplitValidators` | x/alliance/keeper/asset.go:120-140 | Fails with `ValidatorNotFound` exactly when some validator cannot be read. Otherwise returns the bonded validators and the summed shares of the unbonded ones. |
| `AssetKeeper.Keeper.ExpectedBondAmount` | x/alliance/keeper/asset.go:153-169 | Computes `ExpectedBond`, and queues a rebalance exactly when an asset is pending. |
| `AssetKeeper.Keeper.MoveStake` | x/alliance/keeper/asset.go:170-214 | Mints and delegates, or unbonds and burns, exactly as `RebalanceStep` describes. |
| `AssetKeeper.Keeper.RebalanceValidator` | x/alliance/keeper/asset.go:142-215 | One loop iteration, equal to `RebalanceStep`. |
| `AssetKeeper.Keeper.RebalanceBonded` | x/alliance/keeper/asset.go:142-215 | The loop over bonded validators, equal to `RebalanceFold`. |
| `AssetKeeper.Keeper.RebalanceBondTokenWeights` | x/alliance/keeper/asset.go:105-217 | Chain and queue end exactly as `Rebalance.RebalanceBondTokenWeights` describes (see `RebalanceWithinOneToken`). |
| `AssetKeeper.Keeper.RebalanceHook` | x/alliance/keeper/asset.go:94-99 | Consumes the request and rebalances exactly as `Rebalance.RebalanceHook` describes. |
| `AssetKeeper.Keeper.Restore` | x/alliance/abci.go:14-28 | Puts back a saved state exactly and re-establishes the keeper invariant; this is what discarding an aborted block's writes amounts to. |
| `Abci.EndBlocker` | x/alliance/abci.go:12-30 | Runs the four hooks over one listing of the registry. A committed block has exactly `EndBlock`'s effect and returns no validator updates. An aborted block reports `EndBlock`'s error and changes nothing. |

## Left out

- `CompleteRedelegations` (x/alliance/abci.go:13) is not part of this model. Redelegation queues belong to the delegation side of the module.
- The staking and bank keepers are kept to the balances listed in `ChainState`.
  - `MintCoins`, `Delegate`, `Unbond` and `BurnCoins` never fail.
  - Tokens and shares of a validator convert 1:1, so `Unbond` burns exactly the amount unbonded.
  - `TotalBondedTokens`, `BondDenom` and `GetValidatorAddrBz` do not fail.
  - `GetAllianceBondedAmount` is a field of the chain.
- `ClaimValidatorRewards` and `GetAllianceValidator` are reduced to pass/fail flags on each validator. The reward index and claim engine they drive is not part of this model.
- The validators are fixed for the lifetime of a keeper value, in iteration order.
- Store read errors are treated as absent keys, and `MustMarshal`/`MustUnmarshal` as total. Key encoding and protobuf encoding are left out. So is event emission (`EmitTypedEvent`).
- `AssetKeeper.Keeper.GetAllAssets`: lists each record once but does not fix the order. The source yields ascending key order.
- `AssetKeeper.Keeper.IterateAllWeightChangeSnapshot`: returns all entries instead of calling a callback that may stop early. The order of the entries is not fixed.
- `Dec.Power`: exponentiation by squaring with every product rounded like `Mul`. The decimal library's exact rounding sequence is not part of this model. Only the unit-interval bound `PowerUnit` is relied on.
- Integer widths:
  - `sdkmath.Int` and `LegacyDec` are unbounded, so their 256-bit overflow panics are not modelled.
  - Block times are unbounded integers, so `time.Time.Sub` saturation is not modelled.
  - Only the count `n` is reinterpreted as `int64` (`ToInt64`). The product `interval * time.Duration(n)` and the sum with the last claim time are unbounded, so their `int64` wrap-around is not modelled. The lemmas that need a meaningful count assume fewer than 2^63 intervals.
- `GetDelegationTokens`, `GetDelegationTokensWithShares` and `GetDelegationSharesFromTokens` take the validator's `TotalTokensWithAsset` and `TotalDelegationSharesWithDenom` as inputs. Those validator helpers are not part of this model.
- Denom validation and message handling (`MsgCreateAlliance` and the like) are outside the keeper core.
- `Abci.EndBlocker`: a panic in the source aborts the whole block's state transition. The model returns an error and restores the keeper's state instead.
