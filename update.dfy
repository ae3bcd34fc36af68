/**
 * UpdateAllianceAsset (x/alliance/keeper/asset.go) on values: the range
 * check, the weight-change snapshots and rebalance request, the decay
 * clock reset and the whitelisted field copy.
 */
module AssetUpdate {
  import opened Dec
  import opened AllianceTypes
  import opened AssetStore

  /** The range check: neither Min > weight nor Max < weight. */
  predicate WeightInRange(a: Asset) {
    !(a.rewardWeightRange.min > a.rewardWeight) && !(a.rewardWeightRange.max < a.rewardWeight)
  }

  /** The decay schedule (change rate or interval) differs between the stored and the new record. */
  predicate ScheduleChanged(stored: Asset, na: Asset) {
    na.rewardChangeRate != stored.rewardChangeRate || na.rewardChangeInterval != stored.rewardChangeInterval
  }

  /** No decay was scheduled for the stored record. */
  predicate NoScheduleBefore(stored: Asset) {
    stored.rewardChangeRate == One || stored.rewardChangeInterval == 0
  }

  /**
   * The record written back: the stored asset with only the whitelisted
   * fields taken from the new one. The decay clock restarts at `now` when a
   * schedule is introduced where there was none.
   */
  function Whitelisted(stored: Asset, na: Asset, now: int): (a: Asset)
    ensures a.denom == stored.denom && a.rewardWeightRange == stored.rewardWeightRange
    ensures a.totalTokens == stored.totalTokens && a.totalValidatorShares == stored.totalValidatorShares
    ensures a.rewardStartTime == stored.rewardStartTime && a.isInitialized == stored.isInitialized
    ensures a.takeRate == na.takeRate && a.rewardWeight == na.rewardWeight
    ensures a.rewardChangeRate == na.rewardChangeRate && a.rewardChangeInterval == na.rewardChangeInterval
    ensures ScheduleChanged(stored, na) && NoScheduleBefore(stored) ==> a.lastRewardChangeTime == now
    ensures !(ScheduleChanged(stored, na) && NoScheduleBefore(stored)) ==> a.lastRewardChangeTime == na.lastRewardChangeTime
  {
    var last := if ScheduleChanged(stored, na) && NoScheduleBefore(stored) then now else na.lastRewardChangeTime;
    stored.(takeRate := na.takeRate, rewardWeight := na.rewardWeight, rewardChangeRate := na.rewardChangeRate,
            rewardChangeInterval := na.rewardChangeInterval, lastRewardChangeTime := last)
  }

  /**
   * UpdateAllianceAsset on a store. `vals` are the alliance validators in
   * iteration order, with the outcomes of reading and claiming each.
   */
  function UpdateAsset(st: Store, vals: seq<Validator>, ctx: Ctx, na: Asset): (r: (Outcome, Store))
    ensures r.0 == Fail(UnknownAsset) <==> na.denom !in st.assets
    ensures na.denom in st.assets && !WeightInRange(na) ==> r == (Fail(RewardWeightOutOfBound), st)
    ensures r.1.assets.Keys == st.assets.Keys
    ensures Keyed(st.assets) ==> Keyed(r.1.assets)
    ensures r.0.Pass? ==> na.denom in st.assets && WeightInRange(na) &&
                          r.1.assets == st.assets[na.denom := Whitelisted(st.assets[na.denom], na, ctx.time)]
    ensures r.0.Fail? ==> r.1.assets == st.assets && r.1.rebalanceQueued == st.rebalanceQueued
    ensures na.denom in st.assets && na.rewardWeight == st.assets[na.denom].rewardWeight ==>
            r.1.snapshots == st.snapshots && r.1.rebalanceQueued == st.rebalanceQueued
    ensures r.0.Pass? && na.rewardWeight != st.assets[na.denom].rewardWeight ==> r.1.rebalanceQueued
  {
    if na.denom !in st.assets then (Fail(UnknownAsset), st)
    else if !WeightInRange(na) then (Fail(RewardWeightOutOfBound), st)
    else
      var stored := st.assets[na.denom];
      var written := st.assets[na.denom := Whitelisted(stored, na, ctx.time)];
      if na.rewardWeight != stored.rewardWeight then
        var (o, snaps) := ChangeSnapshots(st.snapshots, stored, vals, ctx.height);
        if o.Fail? then
          ChangeSnapshotsOutcome(st.snapshots, stored, vals, ctx.height);
          (o, st.(snapshots := snaps))
        else (Pass, Store(written, snaps, true))
      else (Pass, st.(assets := written))
  }

  /**
   * A weight change records, for every validator, the weight that was in
   * force until now together with that validator's index vector, at the
   * current height; a validator that cannot be read or claimed makes the
   * update fail with its error.
   */
  lemma UpdateSnapshotsOldWeight(st: Store, vals: seq<Validator>, ctx: Ctx, na: Asset, i: nat)
    requires DistinctAddrs(vals) && i < |vals| && Keyed(st.assets)
    requires na.denom in st.assets && WeightInRange(na)
    requires na.rewardWeight != st.assets[na.denom].rewardWeight
    ensures var r := UpdateAsset(st, vals, ctx, na);
            var k := SnapshotKey(na.denom, vals[i].addr, ctx.height);
            (r.0.Pass? <==> forall v :: v in vals ==> v.readable && v.claimable) &&
            (r.0.Pass? ==> k in r.1.snapshots && r.1.snapshots[k].prevRewardWeight == st.assets[na.denom].rewardWeight &&
                           r.1.snapshots[k].rewardHistories == vals[i].globalRewardHistory)
  {
    var stored := st.assets[na.denom];
    var c := ChangeSnapshots(st.snapshots, stored, vals, ctx.height);
    ChangeSnapshotsOutcome(st.snapshots, stored, vals, ctx.height);
    assert UpdateAsset(st, vals, ctx, na).0 == c.0;
    if c.0.Pass? {
      assert UpdateAsset(st, vals, ctx, na).1.snapshots == c.1;
      ChangeSnapshotsAt(st.snapshots, stored, vals, ctx.height, i);
    }
  }

  /** Snapshots of other denoms, other heights or unknown validators are never touched. */
  lemma UpdateSnapshotsOther(st: Store, vals: seq<Validator>, ctx: Ctx, na: Asset, k: SnapshotKey)
    requires Keyed(st.assets)
    requires k.denom != na.denom || k.height != ctx.height || forall v :: v in vals ==> v.addr != k.validator
    ensures var m' := UpdateAsset(st, vals, ctx, na).1.snapshots;
            (k in m' <==> k in st.snapshots) && (k in st.snapshots ==> m'[k] == st.snapshots[k])
  {
    if na.denom in st.assets && WeightInRange(na) {
      ChangeSnapshotsOther(st.snapshots, st.assets[na.denom], vals, ctx.height, k);
    }
  }

  /** Re-submitting the record that is already stored is accepted and changes nothing. */
  lemma UpdateWithStoredIsNoop(st: Store, vals: seq<Validator>, ctx: Ctx, denom: string)
    requires Keyed(st.assets) && denom in st.assets && WeightInRange(st.assets[denom])
    ensures UpdateAsset(st, vals, ctx, st.assets[denom]) == (Pass, st)
  {
    var a := st.assets[denom];
    assert Whitelisted(a, a, ctx.time) == a;
    assert st.assets[denom := a] == st.assets;
    assert st.(assets := st.assets) == st;
  }
}
