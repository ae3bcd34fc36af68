/**
 * EndBlocker (x/alliance/abci.go) on the keeper: complete undelegations,
 * read the asset list once and pass the same array to the four hooks in
 * order. A panic in the source aborts the block; here it is an error
 * result, and the keeper is put back to the state the block started from.
 */
module Abci {
  import opened AllianceTypes
  import opened AssetStore
  import opened ChainState
  import opened Block
  import opened Initialize
  import opened WeightDecay
  import opened AssetKeeper

  /** abci.ValidatorUpdate; the alliance end-block step never produces one. */
  datatype ValidatorUpdate = ValidatorUpdate(pubKey: string, power: int)

  /**
   * The end-block step, proved against Block.EndBlock over the asset list
   * the registry yields: a committed block has the effect EndBlock
   * describes and returns no validator updates; an aborted one changes
   * nothing.
   */
  method EndBlocker(k: Keeper, ctx: Ctx) returns (r: Result<seq<ValidatorUpdate>>, ghost listing: seq<Asset>)
    requires k.Valid()
    modifies k, k.params
    ensures k.Valid()
    ensures !old(k.chain).undelegationsFail ==> ListsRegistry(listing, old(k.assets))
    ensures var e := EndBlock(old(k.WorldState()), listing, k.validators, ctx);
            (r.Ok? <==> e.Ok?) &&
            (r.Ok? ==> r.value == [] && k.WorldState() == e.value) &&
            (r.Err? ==> r.error == e.error && k.WorldState() == old(k.WorldState()))
  {
    var saved := k.WorldState();
    listing := [];
    var u := CompleteUndelegations(k.chain);
    if u.Fail? {
      return Err(u.error), listing;
    }
    var a := k.GetAllAssets();
    listing := a[..];
    k.InitializeAllianceAssets(ctx, a);
    ghost var w1 := k.WorldState();
    ghost var s1 := a[..];
    assert w1 == saved.(store := InitStore(saved.store, listing, k.validators, ctx));
    var d := k.DeductAssetsHook(ctx, a);
    if d.Err? {
      k.Restore(saved);
      return Err(d.error), listing;
    }
    ghost var w2 := k.WorldState();
    ghost var s2 := a[..];
    var o := k.RewardWeightChangeHook(ctx, a);
    ghost var dr := DecayFold(DecayRun(Pass, w2.store, []), s2, k.validators, ctx);
    assert o == dr.outcome && k.ModuleStore() == dr.store && a[..] == dr.out;
    if o.Fail? {
      k.Restore(saved);
      return Err(o.error), listing;
    }
    o := k.RebalanceHook(ctx, a);
    if o.Fail? {
      k.Restore(saved);
      return Err(o.error), listing;
    }
    r := Ok([]);
  }
}
