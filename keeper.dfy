/**
 * The alliance keeper of x/alliance/keeper/asset.go and params.go as a
 * class: the asset registry, the snapshot log and the rebalance flag are
 * fields the methods update in place; the params record lives in its own
 * ParamStore; the chain (staking and bank) is a value the methods replace.
 * The validators are fixed for the lifetime of a keeper value, in the
 * order IterateAllianceValidatorInfo visits them.
 *
 * Every method is proved against the value-level definition of the same
 * operation; the properties of the operations are proved about those
 * definitions in their own modules.
 */
module AssetKeeper {
  import opened Dec
  import opened AllianceTypes
  import opened ParamsKeeper
  import opened ChainState
  import opened AssetStore
  import opened AssetUpdate
  import opened Initialize
  import opened TakeRate
  import opened WeightDecay
  import opened Rebalance

  /** Writing element j of a list whose first j elements are done extends the done part by one. */
  lemma WriteNext(done: seq<Asset>, rest: seq<Asset>, x: Asset)
    requires rest != []
    ensures (done + rest)[|done| := x] == (done + [x]) + rest[1..]
  {
    var l := (done + rest)[|done| := x];
    var r := (done + [x]) + rest[1..];
    assert |l| == |r|;
    forall k | 0 <= k < |l| ensures l[k] == r[k] {
      if k < |done| {
      } else if k == |done| {
      } else {
        assert l[k] == rest[k - |done|];
      }
    }
  }

  class Keeper {
    var assets: map<string, Asset>
    var snapshots: map<SnapshotKey, Snapshot>
    var rebalanceQueued: bool
    var chain: Chain
    const validators: seq<Validator>
    const params: ParamStore

    /** The registry is keyed by denom, validator addresses are distinct and the params are validated. */
    ghost predicate Valid()
      reads this, params
    {
      Keyed(assets) && DistinctAddrs(validators) && params.Valid()
    }

    /** The module store as a value. */
    function ModuleStore(): Store
      reads this
    {
      Store(assets, snapshots, rebalanceQueued)
    }

    /** Everything the keeper reads and writes, as a value. */
    function WorldState(): World
      reads this, params
    {
      World(ModuleStore(), params.stored, chain)
    }

    constructor (vals: seq<Validator>, c: Chain, p: ParamStore)
      requires DistinctAddrs(vals) && p.Valid()
      ensures assets == map[] && snapshots == map[] && !rebalanceQueued
      ensures chain == c && validators == vals && params == p
      ensures Valid()
    {
      assets := map[];
      snapshots := map[];
      rebalanceQueued := false;
      chain := c;
      validators := vals;
      params := p;
    }

    // -------------------------------------------------------------------
    // Registry

    /** SetAsset: overwrite the record under its own denom. */
    method SetAsset(a: Asset)
      modifies this
      ensures assets == old(assets)[a.denom := a]
      ensures snapshots == old(snapshots) && rebalanceQueued == old(rebalanceQueued) && chain == old(chain)
      ensures GetAssetByDenom(a.denom) == Some(a)
      ensures forall d :: d != a.denom ==> GetAssetByDenom(d) == old(GetAssetByDenom(d))
      ensures old(Keyed(assets)) ==> Keyed(assets)
    {
      assets := assets[a.denom := a];
    }

    /** GetAssetByDenom: the record stored under the denom, if any. */
    function GetAssetByDenom(denom: string): (r: Option<Asset>)
      reads this
      ensures r.Some? <==> denom in assets
      ensures r.Some? ==> r.value == assets[denom]
      ensures Keyed(assets) && r.Some? ==> r.value.denom == denom
    {
      if denom in assets then Some(assets[denom]) else None
    }

    /** DeleteAsset: refused while the record passed in still has tokens; deletes by its denom. */
    method DeleteAsset(a: Asset) returns (o: Outcome)
      modifies this
      ensures o.Fail? <==> a.totalTokens > 0
      ensures o.Fail? ==> o.error == AssetHasTokens && assets == old(assets)
      ensures o.Pass? ==> assets == old(assets) - {a.denom} && GetAssetByDenom(a.denom) == None
      ensures snapshots == old(snapshots) && rebalanceQueued == old(rebalanceQueued) && chain == old(chain)
      ensures old(Keyed(assets)) ==> Keyed(assets)
    {
      if a.totalTokens > 0 {
        return Fail(AssetHasTokens);
      }
      assets := assets - {a.denom};
      o := Pass;
    }

    /**
     * GetAllAssets: every registry record exactly once, as a fresh array the
     * hooks share and update in place.
     */
    method GetAllAssets() returns (a: array<Asset>)
      requires Keyed(assets)
      ensures fresh(a)
      ensures ListsRegistry(a[..], assets)
    {
      var rest := assets.Keys;
      var listed: seq<Asset> := [];
      while rest != {}
        invariant ListsAllBut(listed, assets, rest)
        decreases |rest|
      {
        var d :| d in rest;
        ListsAllButStep(listed, assets, rest, d);
        listed := listed + [assets[d]];
        rest := rest - {d};
      }
      a := new Asset[|listed|](i requires 0 <= i < |listed| => listed[i]);
      assert a[..] == listed;
    }

    // -------------------------------------------------------------------
    // Rebalance queue

    /** QueueAssetRebalanceEvent: set the flag (idempotent). */
    method QueueAssetRebalanceEvent()
      modifies this
      ensures rebalanceQueued
      ensures assets == old(assets) && snapshots == old(snapshots) && chain == old(chain)
    {
      rebalanceQueued := true;
    }

    /** ConsumeAssetRebalanceEvent: report whether the flag was set, and clear it. */
    method ConsumeAssetRebalanceEvent() returns (b: bool)
      modifies this
      ensures b == old(rebalanceQueued) && !rebalanceQueued
      ensures assets == old(assets) && snapshots == old(snapshots) && chain == old(chain)
    {
      b := rebalanceQueued;
      rebalanceQueued := false;
    }

    // -------------------------------------------------------------------
    // Snapshots

    /** setRewardWeightChangeSnapshot: one write at (denom, validator, height), overwriting. */
    method WriteSnapshot(denom: string, addr: string, height: nat, s: Snapshot)
      modifies this
      ensures snapshots == old(snapshots)[SnapshotKey(denom, addr, height) := s]
      ensures assets == old(assets) && rebalanceQueued == old(rebalanceQueued) && chain == old(chain)
    {
      snapshots := snapshots[SnapshotKey(denom, addr, height) := s];
    }

    /** SetRewardWeightChangeSnapshot: record the asset's current weight and the validator's index vector. */
    method SetRewardWeightChangeSnapshot(a: Asset, v: Validator, height: nat)
      modifies this
      ensures snapshots == old(snapshots)[SnapshotKey(a.denom, v.addr, height) := ChangeSnapshot(a, v)]
      ensures assets == old(assets) && rebalanceQueued == old(rebalanceQueued) && chain == old(chain)
    {
      WriteSnapshot(a.denom, v.addr, height, Snapshot(a.rewardWeight, v.globalRewardHistory));
    }

    /** CreateInitialRewardWeightChangeSnapshot: record weight zero and the validator's index vector. */
    method CreateInitialRewardWeightChangeSnapshot(denom: string, v: Validator, height: nat)
      modifies this
      ensures snapshots == old(snapshots)[SnapshotKey(denom, v.addr, height) := InitialSnapshot(v)]
      ensures assets == old(assets) && rebalanceQueued == old(rebalanceQueued) && chain == old(chain)
    {
      WriteSnapshot(denom, v.addr, height, Snapshot(0, v.globalRewardHistory));
    }

    /**
     * IterateWeightChangeSnapshot: the snapshots of (denom, validator) from
     * height lo up to but excluding MaxUint64, in ascending height.
     */
    function IterateWeightChangeSnapshot(denom: string, addr: string, lo: nat): (r: seq<(nat, Snapshot)>)
      reads this
      ensures Ascending(r)
      ensures forall h: nat, s: Snapshot :: (h, s) in r <==>
                lo <= h < MaxUint64 && SnapshotKey(denom, addr, h) in snapshots && snapshots[SnapshotKey(denom, addr, h)] == s
    {
      SnapshotsFromAscending(snapshots, denom, addr, lo);
      SnapshotsFromCharacterized(snapshots, denom, addr, lo);
      SnapshotsFrom(snapshots, denom, addr, lo)
    }

    /** IterateAllWeightChangeSnapshot without early stop: every stored entry exactly once. */
    method IterateAllWeightChangeSnapshot() returns (entries: seq<(SnapshotKey, Snapshot)>)
      ensures |entries| == |snapshots|
      ensures forall e :: e in entries ==> e.0 in snapshots && snapshots[e.0] == e.1
      ensures forall k :: k in snapshots ==> (k, snapshots[k]) in entries
      ensures forall i, j :: 0 <= i < j < |entries| ==> entries[i].0 != entries[j].0
    {
      var rest := snapshots.Keys;
      entries := [];
      while rest != {}
        invariant rest <= snapshots.Keys
        invariant |entries| + |rest| == |snapshots|
        invariant forall e :: e in entries ==> e.0 in snapshots && snapshots[e.0] == e.1 && e.0 !in rest
        invariant forall k :: k in snapshots && k !in rest ==> (k, snapshots[k]) in entries
        invariant forall i, j :: 0 <= i < j < |entries| ==> entries[i].0 != entries[j].0
        decreases |rest|
      {
        var k :| k in rest;
        entries := entries + [(k, snapshots[k])];
        rest := rest - {k};
      }
    }

    // -------------------------------------------------------------------
    // UpdateAllianceAsset

    /**
     * The validator loop of UpdateAllianceAsset, proved against
     * AssetStore.ChangeSnapshots: a snapshot of the outgoing weight for each
     * validator, stopping at the first one that cannot be read or claimed.
     */
    method WriteChangeSnapshots(stored: Asset, height: nat) returns (o: Outcome)
      modifies this
      ensures (o, snapshots) == ChangeSnapshots(old(snapshots), stored, validators, height)
      ensures assets == old(assets) && rebalanceQueued == old(rebalanceQueued) && chain == old(chain)
    {
      var i := 0;
      o := Pass;
      while i < |validators| && o.Pass?
        invariant 0 <= i <= |validators|
        invariant (o, snapshots) == ChangeSnapshots(old(snapshots), stored, validators[..i], height)
        invariant assets == old(assets) && rebalanceQueued == old(rebalanceQueued) && chain == old(chain)
      {
        assert validators[..i + 1][..i] == validators[..i];
        var v := validators[i];
        if !v.readable {
          o := Fail(ValidatorNotFound);
        } else if !v.claimable {
          o := Fail(ClaimRewardsFailed);
        } else {
          SetRewardWeightChangeSnapshot(stored, v, height);
        }
        i := i + 1;
      }
      if o.Fail? {
        ChangeSnapshotsSticky(old(snapshots), stored, validators, height, i);
      } else {
        assert validators[..i] == validators;
      }
    }

    /** UpdateAllianceAsset, proved against AssetUpdate.UpdateAsset. */
    method UpdateAllianceAsset(ctx: Ctx, na: Asset) returns (o: Outcome)
      requires Valid()
      modifies this
      ensures (o, ModuleStore()) == UpdateAsset(old(ModuleStore()), validators, ctx, na)
      ensures chain == old(chain) && Valid()
    {
      var found := GetAssetByDenom(na.denom);
      if found.None? {
        return Fail(UnknownAsset);
      }
      var stored := found.value;
      if na.rewardWeightRange.min > na.rewardWeight || na.rewardWeightRange.max < na.rewardWeight {
        return Fail(RewardWeightOutOfBound);
      }
      if na.rewardWeight != stored.rewardWeight {
        o := WriteChangeSnapshots(stored, ctx.height);
        if o.Fail? {
          ChangeSnapshotsOutcome(old(snapshots), stored, validators, ctx.height);
          return;
        }
        QueueAssetRebalanceEvent();
      }
      var next := na;
      if na.rewardChangeRate != stored.rewardChangeRate || na.rewardChangeInterval != stored.rewardChangeInterval {
        if stored.rewardChangeRate == One || stored.rewardChangeInterval == 0 {
          next := next.(lastRewardChangeTime := ctx.time);
        }
      }
      var written := stored.(takeRate := next.takeRate, rewardWeight := next.rewardWeight,
                             rewardChangeRate := next.rewardChangeRate, rewardChangeInterval := next.rewardChangeInterval,
                             lastRewardChangeTime := next.lastRewardChangeTime);
      assert written == Whitelisted(stored, na, ctx.time);
      SetAsset(written);
      o := Pass;
    }

    // -------------------------------------------------------------------
    // InitializeAllianceAssets

    /** The validator loop of InitializeAllianceAssets: a zero-weight snapshot per validator. */
    method CreateInitialSnapshots(denom: string, height: nat)
      modifies this
      ensures snapshots == InitialSnapshots(old(snapshots), denom, validators, height)
      ensures assets == old(assets) && rebalanceQueued == old(rebalanceQueued) && chain == old(chain)
    {
      for i := 0 to |validators|
        invariant snapshots == InitialSnapshots(old(snapshots), denom, validators[..i], height)
        invariant assets == old(assets) && rebalanceQueued == old(rebalanceQueued) && chain == old(chain)
      {
        assert validators[..i + 1][..i] == validators[..i];
        CreateInitialRewardWeightChangeSnapshot(denom, validators[i], height);
      }
      assert validators[..|validators|] == validators;
    }

    /** InitializeAllianceAssets over the shared array, proved against Initialize.InitStore. */
    method InitializeAllianceAssets(ctx: Ctx, a: array<Asset>)
      requires Valid()
      modifies this, a
      ensures a[..] == InitAssets(old(a[..]), ctx.time)
      ensures ModuleStore() == InitStore(old(ModuleStore()), old(a[..]), validators, ctx)
      ensures chain == old(chain) && Valid()
    {
      ghost var s0 := a[..];
      ghost var st0 := ModuleStore();
      for j := 0 to a.Length
        invariant a[..j] == InitAssets(s0[..j], ctx.time)
        invariant forall i :: j <= i < a.Length ==> a[i] == s0[i]
        invariant ModuleStore() == InitStore(st0, s0[..j], validators, ctx)
        invariant chain == old(chain) && Keyed(assets)
      {
        assert s0[..j + 1][..j] == s0[..j];
        var asset := a[j];
        if !(asset.isInitialized || !RewardsStarted(asset, ctx.time)) {
          a[j] := asset.(isInitialized := true);
          CreateInitialSnapshots(asset.denom, ctx.height);
          SetAsset(a[j]);
        }
        assert a[..j + 1] == a[..j] + [a[j]];
        assert InitAssets(s0[..j + 1], ctx.time) == InitAssets(s0[..j], ctx.time) + [Initialized(s0[j], ctx.time)];
      }
      assert s0[..a.Length] == s0 && a[..a.Length] == a[..];
    }

    // -------------------------------------------------------------------
    // Take rate

    /**
     * One iteration of the asset loop of DeductAssetsWithTakeRate, proved
     * against TakeRate.TaxStep: a taxable asset is shrunk in the array and
     * in the registry and its loss is added to the coins.
     */
    method TaxAt(j: nat, n: nat, now: int, a: array<Asset>, coins: Coins, eligible: nat, ghost out: seq<Asset>)
      returns (coins': Coins, eligible': nat, failed: bool)
      requires j < a.Length && Keyed(assets)
      modifies this, a
      ensures TaxStep(TaxRun(old(assets), coins, eligible, false, out), old(a[j]), n, now) ==
              TaxRun(assets, coins', eligible', failed, out + [a[j]])
      ensures a[..] == old(a[..])[j := a[j]]
      ensures snapshots == old(snapshots) && rebalanceQueued == old(rebalanceQueued) && chain == old(chain)
      ensures Keyed(assets)
    {
      coins', eligible', failed := coins, eligible, false;
      var asset := a[j];
      if asset.totalTokens > 0 && asset.takeRate > 0 && RewardsStarted(asset, now) {
        eligible' := eligible + 1;
        var multiplier := Power(One - asset.takeRate, n);
        var oldAmount := asset.totalTokens;
        var newAmount := MulInt(multiplier, asset.totalTokens);
        if !(newAmount <= One) {
          a[j] := asset.(totalTokens := TruncateInt(newAmount));
          var deducted := oldAmount - a[j].totalTokens;
          if deducted < 0 {
            return coins', eligible', true;
          }
          coins' := AddCoin(coins, asset.denom, deducted);
          SetAsset(a[j]);
        }
      }
    }

    /**
     * The asset loop of DeductAssetsWithTakeRate, proved against
     * TakeRate.TaxFold; a negative loss stops it.
     */
    method TaxAssets(now: int, n: nat, a: array<Asset>) returns (coins: Coins, eligible: nat, failed: bool)
      requires Keyed(assets)
      modifies this, a
      ensures TaxFold(TaxStart(old(assets)), old(a[..]), n, now) == TaxRun(assets, coins, eligible, failed, a[..])
      ensures snapshots == old(snapshots) && rebalanceQueued == old(rebalanceQueued) && chain == old(chain)
      ensures Keyed(assets)
    {
      ghost var s0 := a[..];
      ghost var start := TaxStart(assets);
      ghost var done: seq<Asset> := [];
      coins := map[];
      eligible := 0;
      failed := false;
      var j := 0;
      while j < a.Length
        invariant 0 <= j <= a.Length && |done| == j
        invariant a[..] == done + s0[j..]
        invariant TaxFold(start, s0[..j], n, now) == TaxRun(assets, coins, eligible, false, done)
        invariant snapshots == old(snapshots) && rebalanceQueued == old(rebalanceQueued) && chain == old(chain)
        invariant Keyed(assets)
      {
        coins, eligible, failed, done := TaxNext(j, n, now, a, coins, eligible, s0, start, done);
        if failed {
          return;
        }
        j := j + 1;
      }
      assert s0[..a.Length] == s0 && s0[a.Length..] == [] && done + [] == done;
    }

    /**
     * One turn of the TaxAssets loop: tax element j and extend the finished
     * prefix, or, on failure, account for the whole run.
     */
    method TaxNext(j: nat, n: nat, now: int, a: array<Asset>, coins: Coins, eligible: nat,
                   ghost s0: seq<Asset>, ghost start: TaxRun, ghost done: seq<Asset>)
      returns (coins': Coins, eligible': nat, failed: bool, ghost done': seq<Asset>)
      requires Keyed(assets) && j < a.Length == |s0| && |done| == j && a[..] == done + s0[j..]
      requires TaxFold(start, s0[..j], n, now) == TaxRun(assets, coins, eligible, false, done)
      modifies this, a
      ensures snapshots == old(snapshots) && rebalanceQueued == old(rebalanceQueued) && chain == old(chain)
      ensures Keyed(assets)
      ensures !failed ==> |done'| == j + 1 && a[..] == done' + s0[j + 1..] &&
                          TaxFold(start, s0[..j + 1], n, now) == TaxRun(assets, coins', eligible', false, done')
      ensures failed ==> TaxFold(start, s0, n, now) == TaxRun(assets, coins', eligible', true, a[..])
    {
      assert s0[..j + 1][..j] == s0[..j];
      assert a[j] == s0[j];
      coins', eligible', failed := TaxAt(j, n, now, a, coins, eligible, done);
      WriteNext(done, s0[j..], a[j]);
      assert s0[j..][1..] == s0[j + 1..];
      done' := done + [a[j]];
      if failed {
        TaxFoldFailedPrefix(start, s0, j + 1, n, now);
      }
    }

    /** DeductAssetsWithTakeRate over the shared array, proved against TakeRate.DeductWithTakeRate. */
    method DeductAssetsWithTakeRate(ctx: Ctx, lastClaim: int, a: array<Asset>) returns (r: Result<Coins>)
      requires Keyed(assets)
      modifies this, params, a
      ensures (r, WorldState(), a[..]) == DeductWithTakeRate(old(WorldState()), lastClaim, old(a[..]), ctx)
      ensures Keyed(assets) && (old(params.Valid()) ==> params.Valid())
    {
      ghost var w0 := WorldState();
      ghost var s0 := a[..];
      if lastClaim == ZeroTime {
        var o := params.SetLastRewardClaimTime(ctx.time);
        if o.Fail? {
          return Err(o.error);
        }
        return Ok(map[]);
      }
      var interval := params.RewardClaimInterval();
      if interval == 0 {
        return Err(DivisionByZero);
      }
      var n := ElapsedIntervals(ctx.time, lastClaim, interval);
      var coins, eligible, failed := TaxAssets(ctx.time, n, a);
      ghost var w1 := WorldState();
      assert w1 == w0.(store := w0.store.(assets := assets));
      assert TaxFold(TaxStart(w0.store.assets), s0, n, ctx.time) == TaxRun(assets, coins, eligible, failed, a[..]);
      r := SettleTakeRate(ctx, lastClaim, interval, n, coins, eligible, failed);
    }

    /**
     * The tail of DeductAssetsWithTakeRate once the asset loop has run:
     * report a failed loop, move the coins to the fee collector and record
     * the claim time.
     */
    method SettleTakeRate(ctx: Ctx, lastClaim: int, interval: int, n: nat, coins: Coins, eligible: nat, failed: bool)
      returns (r: Result<Coins>)
      requires Keyed(assets)
      modifies this, params
      requires interval == params.RewardClaimInterval()
      ensures (r, WorldState()) == SettleClaim(old(WorldState()), lastClaim, interval, n, coins, eligible, failed, ctx.time)
      ensures Keyed(assets) && (old(params.Valid()) ==> params.Valid())
    {
      if failed {
        return Err(NegativeCoinAmount);
      }
      if eligible == 0 {
        var o := params.SetLastRewardClaimTime(ctx.time);
        if o.Fail? {
          return Err(o.error);
        }
        return Ok(coins);
      }
      if coins != map[] {
        var sent := SendCoinsToFeeCollector(chain, coins);
        if sent.Err? {
          return Err(sent.error);
        }
        chain := sent.value;
        var o := params.SetLastRewardClaimTime(lastClaim + interval * ToInt64(n));
        if o.Fail? {
          return Err(o.error);
        }
      }
      return Ok(coins);
    }

    /** DeductAssetsHook: deduct only once the next claim time has passed. */
    method DeductAssetsHook(ctx: Ctx, a: array<Asset>) returns (r: Result<Coins>)
      requires Keyed(assets)
      modifies this, params, a
      ensures (r, WorldState(), a[..]) == TakeRate.DeductAssetsHook(old(WorldState()), old(a[..]), ctx)
      ensures Keyed(assets) && (old(params.Valid()) ==> params.Valid())
    {
      var last := params.LastRewardClaimTime();
      var interval := params.RewardClaimInterval();
      if ctx.time > last + interval {
        r := DeductAssetsWithTakeRate(ctx, last, a);
      } else {
        r := Ok(map[]);
      }
    }

    // -------------------------------------------------------------------
    // Reward weight decay

    /**
     * One iteration of the asset loop of RewardWeightChangeHook, proved
     * against WeightDecay.DecayStep: a due asset is decayed in the array,
     * a rebalance is queued and the asset is written through
     * UpdateAllianceAsset.
     */
    method DecayAt(j: nat, ctx: Ctx, a: array<Asset>, ghost out: seq<Asset>) returns (o: Outcome)
      requires j < a.Length && Valid()
      modifies this, a
      ensures DecayStep(DecayRun(Pass, old(ModuleStore()), out), old(a[j]), validators, ctx) ==
              DecayRun(o, ModuleStore(), out + [a[j]])
      ensures a[..] == old(a[..])[j := a[j]]
      ensures chain == old(chain) && Valid()
    {
      o := Pass;
      var asset := a[j];
      if !(asset.rewardChangeInterval == 0 || asset.rewardChangeRate == One) &&
         !(asset.lastRewardChangeTime + asset.rewardChangeInterval > ctx.time) {
        var n := ElapsedIntervals(ctx.time, asset.lastRewardChangeTime, asset.rewardChangeInterval);
        var multiplier := Power(asset.rewardChangeRate, n);
        var weight := Mul(asset.rewardWeight, multiplier);
        if weight < asset.rewardWeightRange.min {
          weight := asset.rewardWeightRange.min;
        }
        if weight > asset.rewardWeightRange.max {
          weight := asset.rewardWeightRange.max;
        }
        a[j] := asset.(rewardWeight := weight,
                       lastRewardChangeTime := asset.lastRewardChangeTime + asset.rewardChangeInterval * ToInt64(n));
        assert a[j] == Decayed(asset, ctx.time);
        QueueAssetRebalanceEvent();
        o := UpdateAllianceAsset(ctx, a[j]);
      }
    }

    /** RewardWeightChangeHook over the shared array, proved against WeightDecay.DecayFold. */
    method RewardWeightChangeHook(ctx: Ctx, a: array<Asset>) returns (o: Outcome)
      requires Valid()
      modifies this, a
      ensures DecayRun(o, ModuleStore(), a[..]) == DecayFold(DecayRun(Pass, old(ModuleStore()), []), old(a[..]), validators, ctx)
      ensures chain == old(chain) && Valid()
    {
      ghost var s0 := a[..];
      ghost var start := DecayRun(Pass, ModuleStore(), []);
      ghost var done: seq<Asset> := [];
      var j := 0;
      while j < a.Length
        invariant 0 <= j <= a.Length
        invariant |done| == j && a[..] == done + s0[j..]
        invariant DecayFold(start, s0[..j], validators, ctx) == DecayRun(Pass, ModuleStore(), done)
        invariant chain == old(chain) && Keyed(assets)
      {
        o, done := DecayNext(j, ctx, a, s0, start, done);
        if o.Fail? {
          return;
        }
        j := j + 1;
      }
      assert s0[..a.Length] == s0 && s0[a.Length..] == [] && done + [] == done;
      o := Pass;
    }

    /**
     * One turn of the RewardWeightChangeHook loop: decay element j and
     * extend the finished prefix, or, on failure, account for the whole
     * run.
     */
    method DecayNext(j: nat, ctx: Ctx, a: array<Asset>, ghost s0: seq<Asset>, ghost start: DecayRun, ghost done: seq<Asset>)
      returns (o: Outcome, ghost done': seq<Asset>)
      requires Valid() && j < a.Length == |s0| && |done| == j && a[..] == done + s0[j..]
      requires DecayFold(start, s0[..j], validators, ctx) == DecayRun(Pass, ModuleStore(), done)
      modifies this, a
      ensures chain == old(chain) && Valid()
      ensures o.Pass? ==> |done'| == j + 1 && a[..] == done' + s0[j + 1..] &&
                          DecayFold(start, s0[..j + 1], validators, ctx) == DecayRun(Pass, ModuleStore(), done')
      ensures o.Fail? ==> DecayRun(o, ModuleStore(), a[..]) == DecayFold(start, s0, validators, ctx)
    {
      assert s0[..j + 1][..j] == s0[..j];
      assert a[j] == s0[j];
      o := DecayAt(j, ctx, a, done);
      WriteNext(done, s0[j..], a[j]);
      assert s0[j..][1..] == s0[j + 1..];
      done' := done + [a[j]];
      if o.Fail? {
        DecayFoldFailedPrefix(start, s0, validators, ctx, j + 1);
      }
    }

    // -------------------------------------------------------------------
    // Rebalancing

    /**
     * The first loop of RebalanceBondTokenWeights: read every validator,
     * keep the bonded ones in order and sum the shares of the unbonded ones;
     * an unreadable validator stops it.
     */
    method SplitValidators() returns (o: Outcome, bonded: seq<Validator>, unbonded: map<string, Dec>)
      ensures o.Pass? <==> forall v :: v in validators ==> v.readable
      ensures o.Fail? ==> o.error == ValidatorNotFound
      ensures o.Pass? ==> bonded == BondedValidators(validators) &&
                          forall d :: AmountOf(unbonded, d) == UnbondedShares(validators, d)
    {
      unbonded := map[];
      bonded := [];
      for i := 0 to |validators|
        invariant bonded == BondedValidators(validators[..i])
        invariant forall d :: AmountOf(unbonded, d) == UnbondedShares(validators[..i], d)
        invariant forall v :: v in validators[..i] ==> v.readable
      {
        assert validators[..i + 1][..i] == validators[..i];
        var v := validators[i];
        if !v.readable {
          assert v in validators;
          return Fail(ValidatorNotFound), bonded, unbonded;
        }
        if v.bonded {
          bonded := bonded + [v];
        } else {
          unbonded := AddCoins(unbonded, v.shares);  // sdk.DecCoins.Add
        }
        assert forall x :: x in validators[..i + 1] ==> x in validators[..i] || x == v;
      }
      assert validators[..|validators|] == validators;
      o := Pass;
    }

    /**
     * The asset loop for one bonded validator: its expected bond, queueing a
     * rebalance for every asset whose rewards have not started.
     */
    method ExpectedBondAmount(v: Validator, a: array<Asset>, native: int, unbonded: map<string, Dec>, now: int)
      returns (expected: Dec)
      requires forall d :: AmountOf(unbonded, d) == UnbondedShares(validators, d)
      modifies this
      ensures expected == ExpectedBond(a[..], v, validators, native, now)
      ensures rebalanceQueued == (old(rebalanceQueued) || AnyPending(a[..], now))
      ensures chain == old(chain) && assets == old(assets) && snapshots == old(snapshots)
    {
      expected := 0;
      for j := 0 to a.Length
        invariant expected == ExpectedBond(a[..j], v, validators, native, now)
        invariant rebalanceQueued == (old(rebalanceQueued) || AnyPending(a[..j], now))
        invariant chain == old(chain) && assets == old(assets) && snapshots == old(snapshots)
      {
        assert a[..j + 1][..j] == a[..j];
        AnyPendingSnoc(a[..j], a[j], now);
        assert a[..j + 1] == a[..j] + [a[j]];
        var asset := a[j];
        if !RewardsStarted(asset, now) {
          QueueAssetRebalanceEvent();
        } else {
          var valShares := SharesOf(v, asset.denom);
          var expectedForAsset := MulInt(asset.rewardWeight, native);
          var bondedShares := asset.totalValidatorShares - AmountOf(unbonded, asset.denom);
          if valShares > 0 && bondedShares > 0 {
            expected := expected + Mul(Quo(valShares, bondedShares), expectedForAsset);
          }
        }
      }
      assert a[..a.Length] == a[..];
    }

    /**
     * Move the module's stake at one validator toward the expected bond, in
     * whole tokens, proved against Rebalance.RebalanceStep.
     */
    method MoveStake(v: Validator, expected: Dec) returns (o: Outcome)
      modifies this
      ensures RebalanceRun(o, chain, rebalanceQueued) == RebalanceStep(RebalanceRun(Pass, old(chain), old(rebalanceQueued)), v, expected, false)
      ensures assets == old(assets) && snapshots == old(snapshots)
    {
      var current := Delegated(chain, v.addr);
      o := Pass;
      if expected > current {
        TruncDivPos(expected - current, Precision);
        var amount: nat := TruncateInt(expected - current);
        if amount != 0 {
          chain := MintCoins(chain, amount);
          if !v.claimable {
            return Fail(ClaimRewardsFailed);
          }
          chain := Delegate(chain, v.addr, amount);
        }
      } else if expected < current {
        TruncDivPos(current - expected, Precision);
        var amount: nat := TruncateInt(current - expected);
        if amount != 0 {
          var check := ValidateUnbondAmount(chain, v.addr, amount);
          if check.Fail? {
            return check;
          }
          if !v.claimable {
            return Fail(ClaimRewardsFailed);
          }
          chain := Unbond(chain, v.addr, amount);
          chain := BurnCoins(chain, amount);
        }
      }
    }

    /** One iteration of the bonded-validator loop, proved against Rebalance.RebalanceStep. */
    method RebalanceValidator(v: Validator, a: array<Asset>, native: int, unbonded: map<string, Dec>, now: int)
      returns (o: Outcome)
      requires forall d :: AmountOf(unbonded, d) == UnbondedShares(validators, d)
      modifies this
      ensures RebalanceRun(o, chain, rebalanceQueued) ==
              RebalanceStep(RebalanceRun(Pass, old(chain), old(rebalanceQueued)), v,
                            ExpectedBond(a[..], v, validators, native, now), AnyPending(a[..], now))
      ensures assets == old(assets) && snapshots == old(snapshots)
    {
      var expected := ExpectedBondAmount(v, a, native, unbonded, now);
      StepQueueFirst(old(chain), old(rebalanceQueued), v, expected, AnyPending(a[..], now));
      o := MoveStake(v, expected);
    }

    /** RebalanceBondTokenWeights, proved against Rebalance.RebalanceBondTokenWeights. */
    method RebalanceBondTokenWeights(ctx: Ctx, a: array<Asset>) returns (o: Outcome)
      modifies this
      ensures RebalanceRun(o, chain, rebalanceQueued) ==
              Rebalance.RebalanceBondTokenWeights(old(chain), old(rebalanceQueued), a[..], validators, ctx.time)
      ensures assets == old(assets) && snapshots == old(snapshots)
    {
      var native := chain.totalBonded - chain.allianceBonded;
      var bonded, unbonded;
      o, bonded, unbonded := SplitValidators();
      if o.Pass? {
        o := RebalanceBonded(bonded, a, native, unbonded, ctx.time);
      }
    }

    /** The bonded-validator loop of RebalanceBondTokenWeights, proved against Rebalance.RebalanceFold. */
    method RebalanceBonded(bonded: seq<Validator>, a: array<Asset>, native: int, unbonded: map<string, Dec>, now: int)
      returns (o: Outcome)
      requires forall d :: AmountOf(unbonded, d) == UnbondedShares(validators, d)
      modifies this
      ensures RebalanceRun(o, chain, rebalanceQueued) ==
              RebalanceFold(RebalanceRun(Pass, old(chain), old(rebalanceQueued)), bonded, a[..], validators, native, now)
      ensures assets == old(assets) && snapshots == old(snapshots)
    {
      ghost var start := RebalanceRun(Pass, chain, rebalanceQueued);
      for k := 0 to |bonded|
        invariant RebalanceFold(start, bonded[..k], a[..], validators, native, now) == RebalanceRun(Pass, chain, rebalanceQueued)
        invariant assets == old(assets) && snapshots == old(snapshots)
      {
        assert bonded[..k + 1][..k] == bonded[..k];
        o := RebalanceValidator(bonded[k], a, native, unbonded, now);
        if o.Fail? {
          RebalanceFoldFailedPrefix(start, bonded, a[..], validators, native, now, k + 1);
          return;
        }
      }
      assert bonded[..|bonded|] == bonded;
      o := Pass;
    }

    /** RebalanceHook: consume the queued request and rebalance only if there was one. */
    method RebalanceHook(ctx: Ctx, a: array<Asset>) returns (o: Outcome)
      modifies this
      ensures var r := Rebalance.RebalanceHook(old(chain), old(rebalanceQueued), a[..], validators, ctx.time);
              o == r.outcome && chain == r.chain && rebalanceQueued == r.queued
      ensures assets == old(assets) && snapshots == old(snapshots)
    {
      var consumed := ConsumeAssetRebalanceEvent();
      if consumed {
        o := RebalanceBondTokenWeights(ctx, a);
      } else {
        o := Pass;
      }
    }

    /** Put back a saved state: what discarding an aborted block's writes amounts to. */
    method Restore(w: World)
      requires w.params.Some? ==> ValidParams(w.params.value)
      requires Keyed(w.store.assets) && DistinctAddrs(validators)
      modifies this, params
      ensures WorldState() == w && Valid()
    {
      assets := w.store.assets;
      snapshots := w.store.snapshots;
      rebalanceQueued := w.store.rebalanceQueued;
      chain := w.chain;
      params.stored := w.params;
    }
  }
}
