/**
 * InitializeAllianceAssets (x/alliance/keeper/asset.go) on values: an asset
 * whose rewards have started is marked initialized once, and every
 * validator gets a zero-weight snapshot for it so that the warm-up period
 * earns nothing.
 */
module Initialize {
  import opened AllianceTypes
  import opened AssetStore

  /** The asset is activated this block: not yet initialized and its rewards have started. */
  predicate Activates(a: Asset, now: int) {
    !a.isInitialized && RewardsStarted(a, now)
  }

  /** The asset as the hook leaves it in the slice: only the initialized flag can change. */
  function Initialized(a: Asset, now: int): (b: Asset)
    ensures b.isInitialized <==> a.isInitialized || RewardsStarted(a, now)
    ensures b.(isInitialized := a.isInitialized) == a
    ensures !Activates(b, now)
  {
    if Activates(a, now) then a.(isInitialized := true) else a
  }

  /** The slice after the hook. */
  function InitAssets(s: seq<Asset>, now: int): (r: seq<Asset>)
    ensures |r| == |s| && forall j :: 0 <= j < |s| ==> r[j] == Initialized(s[j], now)
  {
    seq(|s|, j requires 0 <= j < |s| => Initialized(s[j], now))
  }

  /** One iteration: an activated asset is written back initialized, with its zero-weight snapshots. */
  function InitStep(st: Store, a: Asset, vals: seq<Validator>, ctx: Ctx): Store {
    if Activates(a, ctx.time) then
      Store(st.assets[a.denom := Initialized(a, ctx.time)],
            InitialSnapshots(st.snapshots, a.denom, vals, ctx.height),
            st.rebalanceQueued)
    else st
  }

  /** The store after the hook has run over the slice in order. */
  function InitStore(st: Store, s: seq<Asset>, vals: seq<Validator>, ctx: Ctx): (r: Store)
    ensures r.rebalanceQueued == st.rebalanceQueued
    ensures Keyed(st.assets) ==> Keyed(r.assets)
    ensures forall d :: d in st.assets ==> d in r.assets
    decreases |s|
  {
    if s == [] then st
    else InitStep(InitStore(st, s[..|s| - 1], vals, ctx), s[|s| - 1], vals, ctx)
  }

  /** A slice with nothing to activate leaves the store as it is. */
  lemma {:induction false} InitStoreNothingToDo(st: Store, s: seq<Asset>, vals: seq<Validator>, ctx: Ctx)
    requires forall j :: 0 <= j < |s| ==> !Activates(s[j], ctx.time)
    ensures InitStore(st, s, vals, ctx) == st
    decreases |s|
  {
    if s != [] {
      InitStoreNothingToDo(st, s[..|s| - 1], vals, ctx);
    }
  }

  /** Running the hook a second time over its own output changes nothing. */
  lemma InitIdempotent(st: Store, s: seq<Asset>, vals: seq<Validator>, ctx: Ctx)
    ensures InitAssets(InitAssets(s, ctx.time), ctx.time) == InitAssets(s, ctx.time)
    ensures var st1 := InitStore(st, s, vals, ctx);
            InitStore(st1, InitAssets(s, ctx.time), vals, ctx) == st1
  {
    InitStoreNothingToDo(InitStore(st, s, vals, ctx), InitAssets(s, ctx.time), vals, ctx);
  }

  /**
   * After the hook each activated asset of the slice is stored initialized
   * and every validator holds a zero-weight snapshot for it at this height;
   * registry entries of denoms outside the slice are untouched.
   */
  lemma {:induction false} InitStoreActivated(st: Store, s: seq<Asset>, vals: seq<Validator>, ctx: Ctx, j: nat, i: nat)
    requires DistinctDenoms(s) && DistinctAddrs(vals)
    requires j < |s| && i < |vals| && Activates(s[j], ctx.time)
    ensures var st' := InitStore(st, s, vals, ctx);
            var k := SnapshotKey(s[j].denom, vals[i].addr, ctx.height);
            s[j].denom in st'.assets && st'.assets[s[j].denom] == Initialized(s[j], ctx.time) &&
            k in st'.snapshots && st'.snapshots[k] == InitialSnapshot(vals[i])
    decreases |s|
  {
    var init := s[..|s| - 1];
    var last := s[|s| - 1];
    var prev := InitStore(st, init, vals, ctx);
    if j == |s| - 1 {
      InitialSnapshotsAt(prev.snapshots, last.denom, vals, ctx.height, i);
    } else {
      InitStoreActivated(st, init, vals, ctx, j, i);
      assert init[j] == s[j];
      if Activates(last, ctx.time) {
        InitialSnapshotsOther(prev.snapshots, last.denom, vals, ctx.height, SnapshotKey(s[j].denom, vals[i].addr, ctx.height));
      }
    }
  }

  /** Registry entries whose denom is not in the slice are untouched. */
  lemma {:induction false} InitStoreOthers(st: Store, s: seq<Asset>, vals: seq<Validator>, ctx: Ctx, d: string)
    requires forall j :: 0 <= j < |s| ==> s[j].denom != d
    ensures var st' := InitStore(st, s, vals, ctx);
            (d in st'.assets <==> d in st.assets) && (d in st.assets ==> st'.assets[d] == st.assets[d])
    decreases |s|
  {
    if s != [] {
      InitStoreOthers(st, s[..|s| - 1], vals, ctx, d);
    }
  }
}
