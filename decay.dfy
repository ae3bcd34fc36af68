/**
 * RewardWeightChangeHook (x/alliance/keeper/asset.go) on values: once a
 * decay interval has passed, the reward weight is multiplied by the change
 * rate once per whole interval, clamped to the asset's range, the decay
 * clock moves forward by those intervals and the result goes through
 * UpdateAllianceAsset.
 */
module WeightDecay {
  import opened Dec
  import opened AllianceTypes
  import opened AssetStore
  import opened AssetUpdate
  import opened TakeRate

  /** A decay is configured: an interval is set and the change rate is not one. */
  predicate DecayScheduled(a: Asset) {
    !(a.rewardChangeInterval == 0 || a.rewardChangeRate == One)
  }

  /** A decay is configured and its next change time is not after now. */
  predicate DecayDue(a: Asset, now: int) {
    DecayScheduled(a) && !(a.lastRewardChangeTime + a.rewardChangeInterval > now)
  }

  /** Clamp to the range, Min first and then Max. */
  function Clamp(w: Dec, range: RewardWeightRange): (c: Dec)
    ensures range.min <= range.max ==> range.min <= c <= range.max
    ensures range.min <= w <= range.max ==> c == w
    ensures c == w || c == range.min || c == range.max
  {
    var lifted := if w < range.min then range.min else w;
    if lifted > range.max then range.max else lifted
  }

  /** The asset after the decay: compounded and clamped weight, clock advanced by whole intervals. */
  function Decayed(a: Asset, now: int): (b: Asset)
    requires DecayScheduled(a)
    ensures b.(rewardWeight := a.rewardWeight, lastRewardChangeTime := a.lastRewardChangeTime) == a
  {
    var n := ElapsedIntervals(now, a.lastRewardChangeTime, a.rewardChangeInterval);
    a.(rewardWeight := Clamp(Mul(a.rewardWeight, Power(a.rewardChangeRate, n)), a.rewardWeightRange),
       lastRewardChangeTime := a.lastRewardChangeTime + a.rewardChangeInterval * ToInt64(n))
  }

  /** With a consistent range the decayed weight always passes UpdateAllianceAsset's range check. */
  lemma DecayedInRange(a: Asset, now: int)
    requires DecayScheduled(a) && a.rewardWeightRange.min <= a.rewardWeightRange.max
    ensures WeightInRange(Decayed(a, now))
  {
  }

  /**
   * A change rate in [0, 1] never raises a non-negative weight above what
   * it was, before the clamp to the range.
   */
  lemma DecayNeverRaises(a: Asset, now: int)
    requires DecayScheduled(a) && 0 <= a.rewardChangeRate <= One && 0 <= a.rewardWeight
    requires a.rewardWeightRange.min <= a.rewardWeight
    ensures Decayed(a, now).rewardWeight <= a.rewardWeight || Decayed(a, now).rewardWeight == a.rewardWeightRange.min
  {
    var n := ElapsedIntervals(now, a.lastRewardChangeTime, a.rewardChangeInterval);
    var p := Power(a.rewardChangeRate, n);
    PowerUnit(a.rewardChangeRate, n);
    MulUnitBound(p, a.rewardWeight);
    assert Mul(a.rewardWeight, p) == Mul(p, a.rewardWeight) by {
      assert a.rewardWeight * p == p * a.rewardWeight;
    }
  }

  /**
   * An asset with positive decay whose rate is below one: decay is
   * scheduled, and applying it never raises the weight above where it was
   * (except up to the range's floor).
   */
  lemma PositiveDecayNeverRaises(a: Asset, now: int)
    requires HasPositiveDecay(a) && a.rewardChangeRate < One
    requires 0 <= a.rewardWeight && a.rewardWeightRange.min <= a.rewardWeight
    ensures DecayScheduled(a)
    ensures Decayed(a, now).rewardWeight <= a.rewardWeight || Decayed(a, now).rewardWeight == a.rewardWeightRange.min
  {
    DecayNeverRaises(a, now);
  }

  /**
   * The decay clock advances by whole intervals and ends within one interval
   * of now, so the same asset is not due again in the same block.
   */
  lemma DecayClock(a: Asset, now: int)
    requires DecayDue(a, now) && a.rewardChangeInterval > 0
    requires TruncDiv(now - a.lastRewardChangeTime, a.rewardChangeInterval) < TwoTo63
    ensures var b := Decayed(a, now);
            b.lastRewardChangeTime ==
              a.lastRewardChangeTime + a.rewardChangeInterval * TruncDiv(now - a.lastRewardChangeTime, a.rewardChangeInterval) &&
            a.lastRewardChangeTime < b.lastRewardChangeTime <= now < b.lastRewardChangeTime + a.rewardChangeInterval &&
            !DecayDue(b, now)
  {
    var last, interval := a.lastRewardChangeTime, a.rewardChangeInterval;
    WholeIntervals(now, last, interval);
    var q := TruncDiv(now - last, interval);
    assert q >= 1 by {
      MulLe(q, 0, interval);
      assert q <= 0 ==> q * interval <= 0;
      assert interval * q == q * interval;
    }
    assert interval * q >= interval by {
      MulLe(1, q, interval);
    }
  }

  /**
   * The decayed record survives UpdateAllianceAsset's whitelist unchanged:
   * the schedule is the stored one, so the decay clock is not reset.
   */
  lemma DecayedSurvivesWhitelist(a: Asset, now: int)
    requires DecayScheduled(a)
    ensures Whitelisted(a, Decayed(a, now), now) == Decayed(a, now)
  {
  }

  // ---------------------------------------------------------------------
  // The loop over the slice

  /** The loop's state: the outcome so far, the store and the slice elements visited. */
  datatype DecayRun = DecayRun(outcome: Outcome, store: Store, out: seq<Asset>)

  /**
   * One iteration: a due asset is decayed in the slice, a rebalance is
   * queued, and the decayed record goes through UpdateAllianceAsset; its
   * error stops the loop.
   */
  function DecayStep(r: DecayRun, a: Asset, vals: seq<Validator>, ctx: Ctx): (r': DecayRun)
    ensures |r'.out| == |r.out| + 1
  {
    if r.outcome.Fail? || !DecayDue(a, ctx.time) then r.(out := r.out + [a])
    else
      var d := Decayed(a, ctx.time);
      var (o, st) := UpdateAsset(r.store.(rebalanceQueued := true), vals, ctx, d);
      DecayRun(o, st, r.out + [d])
  }

  function DecayFold(r: DecayRun, s: seq<Asset>, vals: seq<Validator>, ctx: Ctx): (r': DecayRun)
    ensures |r'.out| == |r.out| + |s|
    decreases |s|
  {
    if s == [] then r else DecayStep(DecayFold(r, s[..|s| - 1], vals, ctx), s[|s| - 1], vals, ctx)
  }

  /** The asset as the hook leaves it in the slice. */
  function DecayedIfDue(a: Asset, now: int): (b: Asset)
    ensures !DecayDue(a, now) ==> b == a
  {
    if DecayDue(a, now) then Decayed(a, now) else a
  }

  /** A slice with no due asset passes through the hook untouched. */
  lemma {:induction false} DecayFoldNothingDue(r: DecayRun, s: seq<Asset>, vals: seq<Validator>, ctx: Ctx)
    requires forall j :: 0 <= j < |s| ==> !DecayDue(s[j], ctx.time)
    ensures DecayFold(r, s, vals, ctx) == r.(out := r.out + s)
    decreases |s|
  {
    if s != [] {
      DecayFoldNothingDue(r, s[..|s| - 1], vals, ctx);
      assert s[..|s| - 1] + [s[|s| - 1]] == s;
    }
  }

  /** Until the hook fails, every visited element of the slice is decayed if it was due. */
  lemma {:induction false} DecayFoldOut(r: DecayRun, s: seq<Asset>, vals: seq<Validator>, ctx: Ctx)
    ensures var r' := DecayFold(r, s, vals, ctx);
            r'.outcome.Pass? ==> r'.out == r.out + seq(|s|, j requires 0 <= j < |s| => DecayedIfDue(s[j], ctx.time))
    decreases |s|
  {
    if s != [] {
      var init := s[..|s| - 1];
      DecayFoldOut(r, init, vals, ctx);
      DecayFoldPassSticky(DecayFold(r, init, vals, ctx), [s[|s| - 1]], vals, ctx);
      assert DecayFold(DecayFold(r, init, vals, ctx), [s[|s| - 1]], vals, ctx) == DecayFold(r, s, vals, ctx) by {
        assert [s[|s| - 1]][..0] == [];
      }
      var outS := seq(|s|, j requires 0 <= j < |s| => DecayedIfDue(s[j], ctx.time));
      var outI := seq(|init|, j requires 0 <= j < |init| => DecayedIfDue(init[j], ctx.time));
      assert outS == outI + [DecayedIfDue(s[|s| - 1], ctx.time)];
    }
  }

  /** The hook keeps the registry's key set and keeps it keyed by denom. */
  lemma {:induction false} DecayFoldKeys(r: DecayRun, s: seq<Asset>, vals: seq<Validator>, ctx: Ctx)
    ensures var r' := DecayFold(r, s, vals, ctx);
            r'.store.assets.Keys == r.store.assets.Keys && (Keyed(r.store.assets) ==> Keyed(r'.store.assets))
    decreases |s|
  {
    if s != [] {
      DecayFoldKeys(r, s[..|s| - 1], vals, ctx);
    }
  }

  /**
   * When the hook succeeds over a slice that agrees with the registry, the
   * registry holds each element decayed if it was due, exactly as the slice does.
   */
  lemma {:induction false} DecayFoldRegistry(r: DecayRun, s: seq<Asset>, vals: seq<Validator>, ctx: Ctx, j: nat)
    requires Keyed(r.store.assets) && DistinctDenoms(s) && j < |s|
    requires forall i :: 0 <= i < |s| ==> s[i].denom in r.store.assets && r.store.assets[s[i].denom] == s[i]
    ensures var r' := DecayFold(r, s, vals, ctx);
            r'.outcome.Pass? ==> s[j].denom in r'.store.assets && r'.store.assets[s[j].denom] == DecayedIfDue(s[j], ctx.time)
    decreases |s|
  {
    var init := s[..|s| - 1];
    var a := s[|s| - 1];
    var p := DecayFold(r, init, vals, ctx);
    assert DistinctDenoms(init);
    assert forall i :: 0 <= i < |init| ==> init[i] == s[i];
    DecayFoldKeys(r, init, vals, ctx);
    if j < |s| - 1 {
      DecayFoldRegistry(r, init, vals, ctx, j);
      assert a.denom != s[j].denom;
    } else {
      DecayFoldOther(r, init, vals, ctx, a.denom);
      if DecayDue(a, ctx.time) {
        DecayedSurvivesWhitelist(a, ctx.time);
      }
    }
  }

  /** When the hook succeeds, a rebalance is queued exactly if it was already or some asset was due. */
  lemma {:induction false} DecayFoldQueue(r: DecayRun, s: seq<Asset>, vals: seq<Validator>, ctx: Ctx)
    ensures var r' := DecayFold(r, s, vals, ctx);
            r'.outcome.Pass? ==>
              (r'.store.rebalanceQueued <==> r.store.rebalanceQueued || exists j :: 0 <= j < |s| && DecayDue(s[j], ctx.time))
    decreases |s|
  {
    if s != [] {
      var init := s[..|s| - 1];
      var a := s[|s| - 1];
      DecayFoldQueue(r, init, vals, ctx);
      DecayFoldPassSticky(r, init, vals, ctx);
      assert forall i :: 0 <= i < |init| ==> init[i] == s[i];
      if DecayDue(a, ctx.time) {
        assert DecayDue(s[|s| - 1], ctx.time);
      }
    }
  }

  /** A failed run stays failed. */
  lemma {:induction false} DecayFoldPassSticky(r: DecayRun, s: seq<Asset>, vals: seq<Validator>, ctx: Ctx)
    ensures DecayFold(r, s, vals, ctx).outcome.Pass? ==> r.outcome.Pass?
    ensures r.outcome.Fail? ==> DecayFold(r, s, vals, ctx).outcome == r.outcome
    decreases |s|
  {
    if s != [] {
      DecayFoldPassSticky(r, s[..|s| - 1], vals, ctx);
    }
  }

  /** Registry entries of denoms outside the slice are never touched. */
  lemma {:induction false} DecayFoldOther(r: DecayRun, s: seq<Asset>, vals: seq<Validator>, ctx: Ctx, d: string)
    requires forall j :: 0 <= j < |s| ==> s[j].denom != d
    ensures var r' := DecayFold(r, s, vals, ctx);
            (d in r'.store.assets <==> d in r.store.assets) && (d in r.store.assets ==> r'.store.assets[d] == r.store.assets[d])
    decreases |s|
  {
    if s != [] {
      DecayFoldOther(r, s[..|s| - 1], vals, ctx, d);
    }
  }

  /** Once the hook has failed, it copies the rest of the slice and changes nothing else. */
  lemma {:induction false} DecayFoldFailedPrefix(r: DecayRun, s: seq<Asset>, vals: seq<Validator>, ctx: Ctx, i: nat)
    requires i <= |s| && DecayFold(r, s[..i], vals, ctx).outcome.Fail?
    ensures var p := DecayFold(r, s[..i], vals, ctx);
            DecayFold(r, s, vals, ctx) == p.(out := p.out + s[i..])
    decreases |s|
  {
    if i < |s| {
      assert s[..|s| - 1][..i] == s[..i];
      DecayFoldFailedPrefix(r, s[..|s| - 1], vals, ctx, i);
      assert s[..|s| - 1][i..] + [s[|s| - 1]] == s[i..];
    } else {
      assert s[..i] == s;
    }
  }
}
