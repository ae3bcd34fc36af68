/**
 * The alliance module's own store as values: the asset registry keyed by
 * denom, the reward-weight-change snapshots keyed by (denom, validator,
 * height), and the one-byte rebalance queue flag. The functions here are
 * the snapshot writes and range reads of x/alliance/keeper/asset.go.
 */
module AssetStore {
  import opened Dec
  import opened AllianceTypes
  import opened ParamsKeeper
  import opened ChainState

  /** The upper end of the snapshot key range: math.MaxUint64, excluded. */
  const MaxUint64: nat := 0xFFFF_FFFF_FFFF_FFFF

  datatype Store = Store(
    assets: map<string, Asset>,
    snapshots: map<SnapshotKey, Snapshot>,
    rebalanceQueued: bool)

  /** Everything the end-of-block hooks read and write: the module store, its params and the chain. */
  datatype World = World(store: Store, params: Option<Params>, chain: Chain)

  /** The registry is keyed by each asset's own denom (SetAsset writes under GetAssetKey(asset.Denom)). */
  predicate Keyed(assets: map<string, Asset>) {
    forall d :: d in assets ==> assets[d].denom == d
  }

  /** The denoms of a slice are pairwise distinct (it lists a registry keyed by denom). */
  predicate DistinctDenoms(s: seq<Asset>) {
    forall i, j :: 0 <= i < j < |s| ==> s[i].denom != s[j].denom
  }

  /** The slice lists the registry: every record exactly once. */
  predicate ListsRegistry(s: seq<Asset>, assets: map<string, Asset>) {
    |s| == |assets| && DistinctDenoms(s) &&
    (forall i :: 0 <= i < |s| ==> s[i].denom in assets && assets[s[i].denom] == s[i]) &&
    (forall d :: d in assets ==> exists i :: 0 <= i < |s| && s[i].denom == d)
  }

  /** `s` lists, once each, exactly the registry entries whose denom is not in `rest`. */
  ghost predicate ListsAllBut(s: seq<Asset>, assets: map<string, Asset>, rest: set<string>) {
    rest <= assets.Keys && |s| + |rest| == |assets| && DistinctDenoms(s) &&
    (forall i :: 0 <= i < |s| ==> s[i].denom in assets && assets[s[i].denom] == s[i] && s[i].denom !in rest) &&
    (forall d :: d in assets && d !in rest ==> exists i :: 0 <= i < |s| && s[i].denom == d)
  }

  /** Listing one more entry of a keyed registry moves its denom out of `rest`. */
  lemma ListsAllButStep(s: seq<Asset>, assets: map<string, Asset>, rest: set<string>, d: string)
    requires Keyed(assets) && ListsAllBut(s, assets, rest) && d in rest
    ensures ListsAllBut(s + [assets[d]], assets, rest - {d})
  {
    var s' := s + [assets[d]];
    forall d' | d' in assets && d' !in rest - {d}
      ensures exists i :: 0 <= i < |s'| && s'[i].denom == d'
    {
      if d' == d {
        assert s'[|s|].denom == d;
      } else {
        var i :| 0 <= i < |s| && s[i].denom == d';
        assert s'[i] == s[i];
      }
    }
  }

  /** No two validators share an address (the validator info store is keyed by address). */
  predicate DistinctAddrs(vals: seq<Validator>) {
    forall i, j :: 0 <= i < j < |vals| ==> vals[i].addr != vals[j].addr
  }

  /** The snapshot CreateInitialRewardWeightChangeSnapshot records: no weight before activation. */
  function InitialSnapshot(v: Validator): (s: Snapshot)
    ensures s.prevRewardWeight == 0 && s.rewardHistories == v.globalRewardHistory
  {
    Snapshot(0, v.globalRewardHistory)
  }

  /** The snapshot SetRewardWeightChangeSnapshot records: the weight in force until now. */
  function ChangeSnapshot(a: Asset, v: Validator): (s: Snapshot)
    ensures s.prevRewardWeight == a.rewardWeight && s.rewardHistories == v.globalRewardHistory
  {
    Snapshot(a.rewardWeight, v.globalRewardHistory)
  }

  // ---------------------------------------------------------------------
  // Initial snapshots for every validator (InitializeAllianceAssets)

  /** One initial snapshot per validator, written in iteration order at height h. */
  function InitialSnapshots(m: map<SnapshotKey, Snapshot>, denom: string, vals: seq<Validator>, h: nat): (r: map<SnapshotKey, Snapshot>)
    ensures m.Keys <= r.Keys
    ensures forall k :: k in r && k !in m ==> k.denom == denom && k.height == h
    decreases |vals|
  {
    if vals == [] then m
    else
      var v := vals[|vals| - 1];
      InitialSnapshots(m, denom, vals[..|vals| - 1], h)[SnapshotKey(denom, v.addr, h) := InitialSnapshot(v)]
  }

  /** Keys outside (denom, some validator, h) are left alone. */
  lemma {:induction false} InitialSnapshotsOther(m: map<SnapshotKey, Snapshot>, denom: string, vals: seq<Validator>, h: nat, k: SnapshotKey)
    requires k.denom != denom || k.height != h || forall v :: v in vals ==> v.addr != k.validator
    ensures k in InitialSnapshots(m, denom, vals, h) <==> k in m
    ensures k in m ==> InitialSnapshots(m, denom, vals, h)[k] == m[k]
    decreases |vals|
  {
    if vals != [] {
      InitialSnapshotsOther(m, denom, vals[..|vals| - 1], h, k);
    }
  }

  /** Every validator gets its initial snapshot at (denom, validator, h). */
  lemma {:induction false} InitialSnapshotsAt(m: map<SnapshotKey, Snapshot>, denom: string, vals: seq<Validator>, h: nat, i: nat)
    requires DistinctAddrs(vals) && i < |vals|
    ensures var k := SnapshotKey(denom, vals[i].addr, h);
            k in InitialSnapshots(m, denom, vals, h) && InitialSnapshots(m, denom, vals, h)[k] == InitialSnapshot(vals[i])
    decreases |vals|
  {
    if i < |vals| - 1 {
      InitialSnapshotsAt(m, denom, vals[..|vals| - 1], h, i);
    }
  }

  /** Writing the initial snapshots twice writes nothing new. */
  lemma {:induction false} InitialSnapshotsTwice(m: map<SnapshotKey, Snapshot>, denom: string, vals: seq<Validator>, h: nat)
    requires DistinctAddrs(vals)
    ensures var once := InitialSnapshots(m, denom, vals, h);
            InitialSnapshots(once, denom, vals, h) == once
  {
    var once := InitialSnapshots(m, denom, vals, h);
    var twice := InitialSnapshots(once, denom, vals, h);
    forall k | k in twice || k in once
      ensures k in twice && k in once && twice[k] == once[k]
    {
      if k.denom == denom && k.height == h && exists v :: v in vals && v.addr == k.validator {
        var v :| v in vals && v.addr == k.validator;
        var i :| 0 <= i < |vals| && vals[i] == v;
        InitialSnapshotsAt(m, denom, vals, h, i);
        InitialSnapshotsAt(once, denom, vals, h, i);
      } else {
        InitialSnapshotsOther(once, denom, vals, h, k);
      }
    }
  }

  // ---------------------------------------------------------------------
  // Weight-change snapshots (UpdateAllianceAsset)

  /**
   * The validator loop of UpdateAllianceAsset: for each validator in turn,
   * read it, claim its rewards and record the weight in force until now.
   * The first validator that cannot be read or claimed stops the loop; the
   * snapshots written before it stay written.
   */
  function ChangeSnapshots(m: map<SnapshotKey, Snapshot>, a: Asset, vals: seq<Validator>, h: nat): (r: (Outcome, map<SnapshotKey, Snapshot>))
    ensures m.Keys <= r.1.Keys
    ensures forall k :: k in r.1 && k !in m ==> k.denom == a.denom && k.height == h
    decreases |vals|
  {
    if vals == [] then (Pass, m)
    else
      var r := ChangeSnapshots(m, a, vals[..|vals| - 1], h);
      var v := vals[|vals| - 1];
      if r.0.Fail? then r
      else if !v.readable then (Fail(ValidatorNotFound), r.1)
      else if !v.claimable then (Fail(ClaimRewardsFailed), r.1)
      else (Pass, r.1[SnapshotKey(a.denom, v.addr, h) := ChangeSnapshot(a, v)])
  }

  /** The error a validator would raise, if any. */
  function ValidatorOutcome(v: Validator): (o: Outcome)
    ensures o.Pass? <==> v.readable && v.claimable
  {
    if !v.readable then Fail(ValidatorNotFound)
    else if !v.claimable then Fail(ClaimRewardsFailed)
    else Pass
  }

  /** The loop succeeds exactly when every validator can be read and claimed. */
  lemma {:induction false} ChangeSnapshotsPass(m: map<SnapshotKey, Snapshot>, a: Asset, vals: seq<Validator>, h: nat)
    ensures ChangeSnapshots(m, a, vals, h).0.Pass? <==> forall v :: v in vals ==> v.readable && v.claimable
    decreases |vals|
  {
    if vals != [] {
      var init := vals[..|vals| - 1];
      ChangeSnapshotsPass(m, a, init, h);
      assert forall v :: v in vals <==> v in init || v == vals[|vals| - 1];
    }
  }

  /**
   * The loop succeeds exactly when every validator can be read and claimed;
   * otherwise it reports the error of the first one that cannot.
   */
  lemma {:induction false} ChangeSnapshotsOutcome(m: map<SnapshotKey, Snapshot>, a: Asset, vals: seq<Validator>, h: nat)
    ensures var o := ChangeSnapshots(m, a, vals, h).0;
            (o.Pass? <==> forall v :: v in vals ==> v.readable && v.claimable) &&
            (o.Fail? ==> exists i :: 0 <= i < |vals| && o == ValidatorOutcome(vals[i]) &&
                                    forall j :: 0 <= j < i ==> ValidatorOutcome(vals[j]).Pass?)
    decreases |vals|
  {
    ChangeSnapshotsPass(m, a, vals, h);
    if vals != [] {
      var init := vals[..|vals| - 1];
      var r := ChangeSnapshots(m, a, init, h);
      ChangeSnapshotsOutcome(m, a, init, h);
      if r.0.Fail? {
        var i :| 0 <= i < |init| && r.0 == ValidatorOutcome(init[i]) &&
                 forall j :: 0 <= j < i ==> ValidatorOutcome(init[j]).Pass?;
        assert vals[i] == init[i];
        assert forall j :: 0 <= j < i ==> vals[j] == init[j];
      } else {
        assert forall j :: 0 <= j < |init| ==> init[j] in init && vals[j] == init[j];
      }
    }
  }

  /** Keys outside (denom, some validator, h) are left alone, whatever the outcome. */
  lemma {:induction false} ChangeSnapshotsOther(m: map<SnapshotKey, Snapshot>, a: Asset, vals: seq<Validator>, h: nat, k: SnapshotKey)
    requires k.denom != a.denom || k.height != h || forall v :: v in vals ==> v.addr != k.validator
    ensures var m' := ChangeSnapshots(m, a, vals, h).1;
            (k in m' <==> k in m) && (k in m ==> m'[k] == m[k])
    decreases |vals|
  {
    if vals != [] {
      ChangeSnapshotsOther(m, a, vals[..|vals| - 1], h, k);
    }
  }

  /**
   * On success every validator has a snapshot at (denom, validator, h)
   * holding the weight in force until now and the validator's index vector.
   */
  lemma {:induction false} ChangeSnapshotsAt(m: map<SnapshotKey, Snapshot>, a: Asset, vals: seq<Validator>, h: nat, i: nat)
    requires DistinctAddrs(vals) && i < |vals|
    requires ChangeSnapshots(m, a, vals, h).0.Pass?
    ensures var m' := ChangeSnapshots(m, a, vals, h).1; var k := SnapshotKey(a.denom, vals[i].addr, h);
            k in m' && m'[k] == ChangeSnapshot(a, vals[i])
    decreases |vals|
  {
    if i < |vals| - 1 {
      ChangeSnapshotsAt(m, a, vals[..|vals| - 1], h, i);
    }
  }

  /** Once the loop has failed, later validators change nothing. */
  lemma {:induction false} ChangeSnapshotsSticky(m: map<SnapshotKey, Snapshot>, a: Asset, vals: seq<Validator>, h: nat, i: nat)
    requires i <= |vals|
    requires ChangeSnapshots(m, a, vals[..i], h).0.Fail?
    ensures ChangeSnapshots(m, a, vals, h) == ChangeSnapshots(m, a, vals[..i], h)
    decreases |vals|
  {
    if i < |vals| {
      assert vals[..|vals| - 1][..i] == vals[..i];
      ChangeSnapshotsSticky(m, a, vals[..|vals| - 1], h, i);
    } else {
      assert vals[..i] == vals;
    }
  }

  // ---------------------------------------------------------------------
  // Range reads (IterateWeightChangeSnapshot)

  /**
   * The entries a store iterator over [SnapshotKey(denom, val, lo),
   * SnapshotKey(denom, val, MaxUint64)) yields: heights visited in ascending
   * order, end excluded.
   */
  function SnapshotsFrom(m: map<SnapshotKey, Snapshot>, denom: string, val: string, lo: nat): (r: seq<(nat, Snapshot)>)
    ensures forall e :: e in r ==> lo <= e.0 < MaxUint64
    decreases MaxUint64 - lo
  {
    if lo >= MaxUint64 then []
    else
      var k := SnapshotKey(denom, val, lo);
      (if k in m then [(lo, m[k])] else []) + SnapshotsFrom(m, denom, val, lo + 1)
  }

  /** Heights strictly increase along a range read. */
  predicate Ascending(r: seq<(nat, Snapshot)>) {
    forall i, j :: 0 <= i < j < |r| ==> r[i].0 < r[j].0
  }

  /** The range read is strictly ascending in height. */
  lemma {:induction false} SnapshotsFromAscending(m: map<SnapshotKey, Snapshot>, denom: string, val: string, lo: nat)
    ensures Ascending(SnapshotsFrom(m, denom, val, lo))
    decreases MaxUint64 - lo
  {
    if lo < MaxUint64 {
      SnapshotsFromAscending(m, denom, val, lo + 1);
      var k := SnapshotKey(denom, val, lo);
      var head: seq<(nat, Snapshot)> := if k in m then [(lo, m[k])] else [];
      var rest := SnapshotsFrom(m, denom, val, lo + 1);
      var r := head + rest;
      assert r == SnapshotsFrom(m, denom, val, lo);
      forall i, j | 0 <= i < j < |r| ensures r[i].0 < r[j].0 {
        if i < |head| {
          assert r[i] == head[i] && head[i].0 == lo;
          assert r[j] == rest[j - |head|] && rest[j - |head|] in rest;
        } else {
          assert r[i] == rest[i - |head|] && r[j] == rest[j - |head|];
        }
      }
    }
  }

  /** The range read yields exactly the stored snapshots of (denom, val) with lo <= height < MaxUint64. */
  lemma {:induction false} SnapshotsFromExact(m: map<SnapshotKey, Snapshot>, denom: string, val: string, lo: nat, h: nat, s: Snapshot)
    ensures (h, s) in SnapshotsFrom(m, denom, val, lo) <==>
            lo <= h < MaxUint64 && SnapshotKey(denom, val, h) in m && m[SnapshotKey(denom, val, h)] == s
    decreases MaxUint64 - lo
  {
    if lo < MaxUint64 {
      SnapshotsFromExact(m, denom, val, lo + 1, h, s);
    }
  }

  /** The range read, stated for every entry at once. */
  lemma SnapshotsFromCharacterized(m: map<SnapshotKey, Snapshot>, denom: string, val: string, lo: nat)
    ensures forall h: nat, s: Snapshot :: (h, s) in SnapshotsFrom(m, denom, val, lo) <==>
              lo <= h < MaxUint64 && SnapshotKey(denom, val, h) in m && m[SnapshotKey(denom, val, h)] == s
  {
    forall h: nat, s: Snapshot
      ensures (h, s) in SnapshotsFrom(m, denom, val, lo) <==>
              lo <= h < MaxUint64 && SnapshotKey(denom, val, h) in m && m[SnapshotKey(denom, val, h)] == s
    {
      SnapshotsFromExact(m, denom, val, lo, h, s);
    }
  }
}
