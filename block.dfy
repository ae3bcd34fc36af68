/**
 * EndBlocker (x/alliance/abci.go) on values: complete undelegations, then
 * run the four asset hooks in their fixed order over one shared asset
 * list, each hook seeing the in-place updates of the ones before it. Any
 * error aborts the block.
 */
module Block {
  import opened AllianceTypes
  import opened ChainState
  import opened AssetStore
  import opened Initialize
  import opened TakeRate
  import opened WeightDecay
  import opened Rebalance

  /** The block's effect on the world, or the error that aborts it. */
  function EndBlock(w: World, s: seq<Asset>, vals: seq<Validator>, ctx: Ctx): (r: Result<World>)
    ensures w.chain.undelegationsFail ==> r == Err(UndelegationFailed)
    ensures r.Ok? ==> r.value.chain.undelegationsFail == w.chain.undelegationsFail
  {
    var u := CompleteUndelegations(w.chain);
    if u.Fail? then Err(u.error)
    else
      var st1 := InitStore(w.store, s, vals, ctx);
      var s1 := InitAssets(s, ctx.time);
      var (d, w2, s2) := TakeRate.DeductAssetsHook(w.(store := st1), s1, ctx);
      if d.Err? then Err(d.error)
      else
        var dr := DecayFold(DecayRun(Pass, w2.store, []), s2, vals, ctx);
        if dr.outcome.Fail? then Err(dr.outcome.error)
        else
          var rb := Rebalance.RebalanceHook(w2.chain, dr.store.rebalanceQueued, dr.out, vals, ctx.time);
          if rb.outcome.Fail? then Err(rb.outcome.error)
          else
            DeductKeepsUndelegations(w.(store := st1), s1, ctx);
            RebalanceHookKeepsUndelegations(w2.chain, dr.store.rebalanceQueued, dr.out, vals, ctx.time);
            Ok(World(dr.store.(rebalanceQueued := rb.queued), w2.params, rb.chain))
  }

  /** Two asset lists of the same length whose elements have the same reward start times. */
  predicate SameStarts(s: seq<Asset>, t: seq<Asset>) {
    |s| == |t| && forall j :: 0 <= j < |s| ==> s[j].rewardStartTime == t[j].rewardStartTime
  }

  lemma SameStartsPending(s: seq<Asset>, t: seq<Asset>, now: int)
    requires SameStarts(s, t)
    ensures AnyPending(s, now) <==> AnyPending(t, now)
  {
    if AnyPending(s, now) {
      var j :| 0 <= j < |s| && !RewardsStarted(s[j], now);
      assert !RewardsStarted(t[j], now);
    }
    if AnyPending(t, now) {
      var j :| 0 <= j < |t| && !RewardsStarted(t[j], now);
      assert !RewardsStarted(s[j], now);
    }
  }

  lemma DeductKeepsUndelegations(w: World, s: seq<Asset>, ctx: Ctx)
    ensures TakeRate.DeductAssetsHook(w, s, ctx).1.chain.undelegationsFail == w.chain.undelegationsFail
  {
  }

  lemma RebalanceHookKeepsUndelegations(c: Chain, queued: bool, assets: seq<Asset>, vals: seq<Validator>, now: int)
    ensures Rebalance.RebalanceHook(c, queued, assets, vals, now).chain.undelegationsFail == c.undelegationsFail
  {
    if queued && forall v :: v in vals ==> v.readable {
      RebalanceFoldUndelegations(RebalanceRun(Pass, c, false), BondedValidators(vals), assets, vals, NativeBond(c), now);
    }
  }

  lemma {:induction false} RebalanceFoldUndelegations(r: RebalanceRun, bonded: seq<Validator>, assets: seq<Asset>,
                                                      vals: seq<Validator>, native: int, now: int)
    ensures RebalanceFold(r, bonded, assets, vals, native, now).chain.undelegationsFail == r.chain.undelegationsFail
    decreases |bonded|
  {
    if bonded != [] {
      var init := bonded[..|bonded| - 1];
      var v := bonded[|bonded| - 1];
      RebalanceFoldUndelegations(r, init, assets, vals, native, now);
      StepBalance(RebalanceFold(r, init, assets, vals, native, now), v,
                  ExpectedBond(assets, v, vals, native, now), AnyPending(assets, now));
    }
  }

  /** A successful take-rate hook changes no reward start time in the shared list. */
  lemma DeductKeepsStarts(w: World, s: seq<Asset>, ctx: Ctx)
    requires TakeRate.DeductAssetsHook(w, s, ctx).0.Ok?
    ensures SameStarts(s, TakeRate.DeductAssetsHook(w, s, ctx).2)
  {
    var p := ParamsKeeper.ReadParams(w.params);
    if ctx.time > p.lastTakeRateClaimTime + p.takeRateClaimInterval && p.lastTakeRateClaimTime != ZeroTime {
      var n := ElapsedIntervals(ctx.time, p.lastTakeRateClaimTime, p.takeRateClaimInterval);
      TaxFoldOut(TaxStart(w.store.assets), s, n, ctx.time);
    }
  }

  /** A successful decay hook changes no reward start time in the shared list. */
  lemma DecayKeepsStarts(st: Store, s: seq<Asset>, vals: seq<Validator>, ctx: Ctx)
    requires DecayFold(DecayRun(Pass, st, []), s, vals, ctx).outcome.Pass?
    ensures SameStarts(s, DecayFold(DecayRun(Pass, st, []), s, vals, ctx).out)
  {
    DecayFoldOut(DecayRun(Pass, st, []), s, vals, ctx);
  }

  /**
   * A block that commits leaves a rebalance queued only when some asset of
   * the list has not started its rewards: requests raised by weight changes
   * are all served within the block.
   */
  lemma EndBlockServesQueue(w: World, s: seq<Asset>, vals: seq<Validator>, ctx: Ctx)
    requires EndBlock(w, s, vals, ctx).Ok?
    ensures EndBlock(w, s, vals, ctx).value.store.rebalanceQueued ==> AnyPending(s, ctx.time)
  {
    var st1 := InitStore(w.store, s, vals, ctx);
    var s1 := InitAssets(s, ctx.time);
    var (d, w2, s2) := TakeRate.DeductAssetsHook(w.(store := st1), s1, ctx);
    var dr := DecayFold(DecayRun(Pass, w2.store, []), s2, vals, ctx);
    assert SameStarts(s, s1);
    DeductKeepsStarts(w.(store := st1), s1, ctx);
    DecayKeepsStarts(w2.store, s2, vals, ctx);
    RebalanceHookRequeues(w2.chain, dr.store.rebalanceQueued, dr.out, vals, ctx.time);
    SameStartsPending(s, s1, ctx.time);
    SameStartsPending(s1, s2, ctx.time);
    SameStartsPending(s2, dr.out, ctx.time);
  }

  /**
   * A block that commits keeps the bond held by everyone but the alliance
   * module: the hooks only move the module's own stake.
   */
  lemma EndBlockKeepsNativeBond(w: World, s: seq<Asset>, vals: seq<Validator>, ctx: Ctx)
    requires EndBlock(w, s, vals, ctx).Ok?
    ensures NativeBond(EndBlock(w, s, vals, ctx).value.chain) == NativeBond(w.chain)
  {
  }
}
