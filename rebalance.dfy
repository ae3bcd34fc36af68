/**
 * RebalanceHook and RebalanceBondTokenWeights (x/alliance/keeper/asset.go)
 * on values: for every bonded alliance validator the module's stake is
 * moved toward the sum, over started assets, of the validator's share of
 * the asset's bonded validator shares times reward weight times the
 * native bonded amount; differences below one token are left alone.
 */
module Rebalance {
  import opened Dec
  import opened AllianceTypes
  import opened ChainState
  import opened AssetStore

  /** ValidatorSharesWithDenom: zero for a denom the validator has no shares of. */
  function SharesOf(v: Validator, denom: string): Dec {
    if denom in v.shares then v.shares[denom] else 0
  }

  /** The validator shares of a denom held by unbonded validators (summed as sdk.DecCoins). */
  function UnbondedShares(vals: seq<Validator>, denom: string): Dec
    decreases |vals|
  {
    if vals == [] then 0
    else
      var v := vals[|vals| - 1];
      UnbondedShares(vals[..|vals| - 1], denom) + (if v.bonded then 0 else SharesOf(v, denom))
  }

  /** The bonded validators, in iteration order. */
  function BondedValidators(vals: seq<Validator>): (b: seq<Validator>)
    ensures forall v :: v in b ==> v in vals && v.bonded
    ensures forall v :: v in vals && v.bonded ==> v in b
    decreases |vals|
  {
    if vals == [] then []
    else
      var v := vals[|vals| - 1];
      var init := vals[..|vals| - 1];
      assert forall x :: x in vals ==> x in init || x == v;
      BondedValidators(init) + (if v.bonded then [v] else [])
  }

  /** Filtering keeps addresses distinct. */
  lemma {:induction false} BondedValidatorsDistinct(vals: seq<Validator>)
    requires DistinctAddrs(vals)
    ensures DistinctAddrs(BondedValidators(vals))
    decreases |vals|
  {
    if vals != [] {
      var v := vals[|vals| - 1];
      var init := vals[..|vals| - 1];
      assert DistinctAddrs(init);
      BondedValidatorsDistinct(init);
      var b := BondedValidators(init);
      forall x | x in b ensures x.addr != v.addr {
        var i :| 0 <= i < |init| && init[i] == x;
        assert vals[i] == x;
      }
    }
  }

  /** The part of a validator's expected bond that one started asset contributes. */
  function AssetBond(a: Asset, v: Validator, vals: seq<Validator>, native: int): Dec {
    var valShares := SharesOf(v, a.denom);
    var bondedShares := a.totalValidatorShares - UnbondedShares(vals, a.denom);
    if valShares > 0 && bondedShares > 0 then Mul(Quo(valShares, bondedShares), MulInt(a.rewardWeight, native)) else 0
  }

  /** The bond a validator should hold: contributions of the started assets, summed in slice order. */
  function ExpectedBond(assets: seq<Asset>, v: Validator, vals: seq<Validator>, native: int, now: int): Dec
    decreases |assets|
  {
    if assets == [] then 0
    else
      var a := assets[|assets| - 1];
      ExpectedBond(assets[..|assets| - 1], v, vals, native, now) + (if RewardsStarted(a, now) then AssetBond(a, v, vals, native) else 0)
  }

  /** Some asset has not started its rewards: it is left out and a rebalance is queued again. */
  predicate AnyPending(assets: seq<Asset>, now: int) {
    exists j :: 0 <= j < |assets| && !RewardsStarted(assets[j], now)
  }

  /** Before any asset has started its rewards, no validator should hold anything. */
  lemma {:induction false} ExpectedBondNothingStarted(assets: seq<Asset>, v: Validator, vals: seq<Validator>, native: int, now: int)
    requires forall j :: 0 <= j < |assets| ==> !RewardsStarted(assets[j], now)
    ensures ExpectedBond(assets, v, vals, native, now) == 0
    decreases |assets|
  {
    if assets != [] {
      ExpectedBondNothingStarted(assets[..|assets| - 1], v, vals, native, now);
    }
  }

  /** A validator with no shares of any started asset should hold nothing. */
  lemma {:induction false} ExpectedBondNoShares(assets: seq<Asset>, v: Validator, vals: seq<Validator>, native: int, now: int)
    requires forall j :: 0 <= j < |assets| ==> SharesOf(v, assets[j].denom) <= 0
    ensures ExpectedBond(assets, v, vals, native, now) == 0
    decreases |assets|
  {
    if assets != [] {
      ExpectedBondNoShares(assets[..|assets| - 1], v, vals, native, now);
    }
  }

  // ---------------------------------------------------------------------
  // The loop over bonded validators

  /** The loop's state: the outcome so far, the chain, and the rebalance queue flag. */
  datatype RebalanceRun = RebalanceRun(outcome: Outcome, chain: Chain, queued: bool)

  /**
   * One bonded validator: queue again if an asset is pending, then mint and
   * delegate the missing whole tokens, or unbond and burn the excess whole
   * tokens; a failed claim or an unbond above the delegation stops the loop.
   */
  function RebalanceStep(r: RebalanceRun, v: Validator, expected: Dec, pending: bool): (r': RebalanceRun)
    ensures r.outcome.Fail? ==> r' == r
    ensures r.outcome.Pass? ==> r'.queued == (r.queued || pending)
    ensures r'.chain.undelegationsFail == r.chain.undelegationsFail
  {
    if r.outcome.Fail? then r
    else
      var queued := r.queued || pending;
      var current := Delegated(r.chain, v.addr);
      if expected > current then
        TruncDivPos(expected - current, Precision);
        var amount := TruncateInt(expected - current);
        if amount == 0 then r.(queued := queued)
        else
          var minted := MintCoins(r.chain, amount);
          if !v.claimable then RebalanceRun(Fail(ClaimRewardsFailed), minted, queued)
          else RebalanceRun(Pass, Delegate(minted, v.addr, amount), queued)
      else if expected < current then
        TruncDivPos(current - expected, Precision);
        var amount := TruncateInt(current - expected);
        if amount == 0 then r.(queued := queued)
        else if ValidateUnbondAmount(r.chain, v.addr, amount).Fail? then
          RebalanceRun(Fail(InsufficientDelegation), r.chain, queued)
        else if !v.claimable then RebalanceRun(Fail(ClaimRewardsFailed), r.chain, queued)
        else RebalanceRun(Pass, BurnCoins(Unbond(r.chain, v.addr, amount), amount), queued)
      else r.(queued := queued)
  }

  function RebalanceFold(r: RebalanceRun, bonded: seq<Validator>, assets: seq<Asset>, vals: seq<Validator>,
                         native: int, now: int): (r': RebalanceRun)
    ensures r.outcome.Fail? ==> r' == r
    ensures r'.chain.undelegationsFail == r.chain.undelegationsFail
    decreases |bonded|
  {
    if bonded == [] then r
    else
      var v := bonded[|bonded| - 1];
      RebalanceStep(RebalanceFold(r, bonded[..|bonded| - 1], assets, vals, native, now), v,
                    ExpectedBond(assets, v, vals, native, now), AnyPending(assets, now))
  }

  /**
   * RebalanceBondTokenWeights: every validator must be readable first; the
   * native bond is measured once, before any stake moves.
   */
  function RebalanceBondTokenWeights(c: Chain, queued: bool, assets: seq<Asset>, vals: seq<Validator>, now: int): (r: RebalanceRun)
    ensures (exists v :: v in vals && !v.readable) ==> r == RebalanceRun(Fail(ValidatorNotFound), c, queued)
    ensures NativeBond(r.chain) == NativeBond(c)
  {
    if exists v :: v in vals && !v.readable then RebalanceRun(Fail(ValidatorNotFound), c, queued)
    else
      var start := RebalanceRun(Pass, c, queued);
      RebalanceFoldNative(start, BondedValidators(vals), assets, vals, NativeBond(c), now);
      RebalanceFold(start, BondedValidators(vals), assets, vals, NativeBond(c), now)
  }

  /** RebalanceHook: rebalance only when a rebalance was queued, consuming the request. */
  function RebalanceHook(c: Chain, queued: bool, assets: seq<Asset>, vals: seq<Validator>, now: int): (r: RebalanceRun)
    ensures !queued ==> r == RebalanceRun(Pass, c, false)
    ensures queued ==> r == RebalanceBondTokenWeights(c, false, assets, vals, now)
  {
    if queued then RebalanceBondTokenWeights(c, false, assets, vals, now)
    else RebalanceRun(Pass, c, false)
  }

  // ---------------------------------------------------------------------
  // Properties

  /** Stake moves never change the bond held by everyone else. */
  lemma {:induction false} RebalanceFoldNative(r: RebalanceRun, bonded: seq<Validator>, assets: seq<Asset>,
                                               vals: seq<Validator>, native: int, now: int)
    ensures NativeBond(RebalanceFold(r, bonded, assets, vals, native, now).chain) == NativeBond(r.chain)
    decreases |bonded|
  {
    if bonded != [] {
      var init := bonded[..|bonded| - 1];
      var v := bonded[|bonded| - 1];
      RebalanceFoldNative(r, init, assets, vals, native, now);
      StepBalance(RebalanceFold(r, init, assets, vals, native, now), v,
                  ExpectedBond(assets, v, vals, native, now), AnyPending(assets, now));
    }
  }

  /**
   * One step keeps the bond of everyone else, and a successful step keeps
   * bond-denom supply minus alliance bond.
   */
  lemma StepBalance(r: RebalanceRun, v: Validator, expected: Dec, pending: bool)
    ensures var r' := RebalanceStep(r, v, expected, pending);
            NativeBond(r'.chain) == NativeBond(r.chain) && r'.chain.undelegationsFail == r.chain.undelegationsFail &&
            (r'.outcome.Pass? ==> r'.chain.bondSupply - r'.chain.allianceBonded == r.chain.bondSupply - r.chain.allianceBonded)
  {
    if r.outcome.Pass? {
      var current := Delegated(r.chain, v.addr);
      if expected > current {
        TruncDivPos(expected - current, Precision);
      } else if expected < current {
        TruncDivPos(current - expected, Precision);
      }
    }
  }

  /**
   * A successful rebalance mints exactly what it bonds and burns exactly
   * what it unbonds: bond-denom supply minus alliance bond is unchanged.
   */
  lemma {:induction false} RebalanceFoldSupply(r: RebalanceRun, bonded: seq<Validator>, assets: seq<Asset>,
                                               vals: seq<Validator>, native: int, now: int)
    ensures var r' := RebalanceFold(r, bonded, assets, vals, native, now);
            r'.outcome.Pass? ==> r'.chain.bondSupply - r'.chain.allianceBonded == r.chain.bondSupply - r.chain.allianceBonded
    decreases |bonded|
  {
    if bonded != [] {
      var init := bonded[..|bonded| - 1];
      var v := bonded[|bonded| - 1];
      RebalanceFoldSupply(r, init, assets, vals, native, now);
      StepBalance(RebalanceFold(r, init, assets, vals, native, now), v,
                  ExpectedBond(assets, v, vals, native, now), AnyPending(assets, now));
    }
  }

  /** A failed run stays failed. */
  lemma {:induction false} RebalanceFoldSticky(r: RebalanceRun, bonded: seq<Validator>, assets: seq<Asset>,
                                               vals: seq<Validator>, native: int, now: int)
    ensures RebalanceFold(r, bonded, assets, vals, native, now).outcome.Pass? ==> r.outcome.Pass?
    decreases |bonded|
  {
    if bonded != [] {
      RebalanceFoldSticky(r, bonded[..|bonded| - 1], assets, vals, native, now);
    }
  }

  /**
   * The queue flag after the loop: set if it was set, or if an asset is
   * pending and at least one bonded validator was visited.
   */
  lemma {:induction false} RebalanceFoldQueue(r: RebalanceRun, bonded: seq<Validator>, assets: seq<Asset>,
                                              vals: seq<Validator>, native: int, now: int)
    requires r.outcome.Pass?
    ensures RebalanceFold(r, bonded, assets, vals, native, now).queued ==
            (r.queued || (bonded != [] && AnyPending(assets, now)))
    decreases |bonded|
  {
    if bonded != [] {
      RebalanceFoldQueue(r, bonded[..|bonded| - 1], assets, vals, native, now);
    }
  }

  /** Moving from `before` to `after` heads toward `expected` and never passes it. */
  predicate Toward(before: Dec, after: Dec, expected: Dec) {
    (before <= expected ==> before <= after <= expected) &&
    (expected <= before ==> expected <= after <= before)
  }

  /** The stake at `addr` went from `before` to `after`: less than one token from `expected`, reached without passing it. */
  predicate SettledAt(before: Chain, after: Chain, addr: string, expected: Dec) {
    Abs(expected - Delegated(after, addr)) < One && Toward(Delegated(before, addr), Delegated(after, addr), expected)
  }

  /**
   * One successful step leaves the validator's delegation less than one
   * token from its expected bond, without overshooting it.
   */
  lemma StepWithinOneToken(r: RebalanceRun, v: Validator, expected: Dec, pending: bool)
    requires r.outcome.Pass? && RebalanceStep(r, v, expected, pending).outcome.Pass?
    ensures var after := Delegated(RebalanceStep(r, v, expected, pending).chain, v.addr);
            Abs(expected - after) < One && Toward(Delegated(r.chain, v.addr), after, expected)
  {
    var current := Delegated(r.chain, v.addr);
    var after := Delegated(RebalanceStep(r, v, expected, pending).chain, v.addr);
    if expected > current {
      TruncateIntFloor(expected - current);
      assert after == current + FromInt(TruncateInt(expected - current));
    } else if expected < current {
      TruncateIntFloor(current - expected);
      assert after == current - FromInt(TruncateInt(current - expected));
    } else {
      assert after == current;
    }
  }

  /** A step touches no other validator's delegation. */
  lemma StepOthers(r: RebalanceRun, v: Validator, expected: Dec, pending: bool, addr: string)
    requires addr != v.addr
    ensures Delegated(RebalanceStep(r, v, expected, pending).chain, addr) == Delegated(r.chain, addr)
  {
  }

  /** A step whose validator is already within one token of its expected bond moves nothing. */
  lemma StepWithinOneIsNoop(r: RebalanceRun, v: Validator, expected: Dec, pending: bool)
    requires r.outcome.Pass? && Abs(expected - Delegated(r.chain, v.addr)) < One
    ensures RebalanceStep(r, v, expected, pending) == r.(queued := r.queued || pending)
  {
    var current := Delegated(r.chain, v.addr);
    TruncDivPos(expected - current, Precision);
    TruncDivPos(current - expected, Precision);
  }

  /** Delegations of validators outside the loop are never touched. */
  lemma {:induction false} RebalanceFoldOthers(r: RebalanceRun, bonded: seq<Validator>, assets: seq<Asset>,
                                               vals: seq<Validator>, native: int, now: int, addr: string)
    requires forall v :: v in bonded ==> v.addr != addr
    ensures Delegated(RebalanceFold(r, bonded, assets, vals, native, now).chain, addr) == Delegated(r.chain, addr)
    decreases |bonded|
  {
    if bonded != [] {
      var init := bonded[..|bonded| - 1];
      assert forall v :: v in init ==> v in bonded;
      RebalanceFoldOthers(r, init, assets, vals, native, now, addr);
      StepOthers(RebalanceFold(r, init, assets, vals, native, now), bonded[|bonded| - 1],
                 ExpectedBond(assets, bonded[|bonded| - 1], vals, native, now), AnyPending(assets, now), addr);
    }
  }

  /**
   * After a successful loop every visited validator's delegation is less
   * than one token away from its expected bond.
   */
  lemma {:induction false} RebalanceFoldWithinOneToken(r: RebalanceRun, bonded: seq<Validator>, assets: seq<Asset>,
                                                       vals: seq<Validator>, native: int, now: int, i: nat)
    requires DistinctAddrs(bonded) && i < |bonded|
    ensures var r' := RebalanceFold(r, bonded, assets, vals, native, now);
            r'.outcome.Pass? ==> SettledAt(r.chain, r'.chain, bonded[i].addr, ExpectedBond(assets, bonded[i], vals, native, now))
    decreases |bonded|
  {
    var init := bonded[..|bonded| - 1];
    var v := bonded[|bonded| - 1];
    var p := RebalanceFold(r, init, assets, vals, native, now);
    var expected := ExpectedBond(assets, v, vals, native, now);
    RebalanceFoldSticky(r, bonded, assets, vals, native, now);
    if RebalanceStep(p, v, expected, AnyPending(assets, now)).outcome.Pass? {
      if i == |bonded| - 1 {
        RebalanceFoldSticky(r, init, assets, vals, native, now);
        if p.outcome.Pass? {
          forall x | x in init ensures x.addr != v.addr {
            var k :| 0 <= k < |init| && init[k] == x;
            assert bonded[k] == x;
          }
          RebalanceFoldOthers(r, init, assets, vals, native, now, v.addr);
          StepWithinOneToken(p, v, expected, AnyPending(assets, now));
        }
      } else {
        assert DistinctAddrs(init) && init[i] == bonded[i];
        RebalanceFoldWithinOneToken(r, init, assets, vals, native, now, i);
        StepOthers(p, v, expected, AnyPending(assets, now), bonded[i].addr);
      }
    }
  }

  /** A loop over validators all within one token of their expected bond moves nothing. */
  lemma {:induction false} RebalanceFoldSettled(r: RebalanceRun, bonded: seq<Validator>, assets: seq<Asset>,
                                                vals: seq<Validator>, native: int, now: int)
    requires r.outcome.Pass?
    requires forall v :: v in bonded ==> Abs(ExpectedBond(assets, v, vals, native, now) - Delegated(r.chain, v.addr)) < One
    ensures var r' := RebalanceFold(r, bonded, assets, vals, native, now);
            r'.outcome.Pass? && r'.chain == r.chain
    decreases |bonded|
  {
    if bonded != [] {
      var init := bonded[..|bonded| - 1];
      var v := bonded[|bonded| - 1];
      assert forall x :: x in init ==> x in bonded;
      RebalanceFoldSettled(r, init, assets, vals, native, now);
      StepWithinOneIsNoop(RebalanceFold(r, init, assets, vals, native, now), v,
                          ExpectedBond(assets, v, vals, native, now), AnyPending(assets, now));
    }
  }

  /** Every bonded validator's alliance stake is within one token of its expected bond. */
  predicate Balanced(chain: Chain, assets: seq<Asset>, vals: seq<Validator>, native: int, now: int) {
    forall v :: v in vals && v.bonded ==> Abs(ExpectedBond(assets, v, vals, native, now) - Delegated(chain, v.addr)) < One
  }

  /** Every bonded validator's alliance stake moved from its amount in `c` toward its expected bond, never past it. */
  predicate NoOvershoot(chain: Chain, c: Chain, assets: seq<Asset>, vals: seq<Validator>, native: int, now: int) {
    forall v :: v in vals && v.bonded ==>
      Toward(Delegated(c, v.addr), Delegated(chain, v.addr), ExpectedBond(assets, v, vals, native, now))
  }

  /** The alliance stake at every unbonded validator is as in `c`. */
  predicate UnbondedKept(chain: Chain, c: Chain, vals: seq<Validator>) {
    forall v :: v in vals && !v.bonded ==> Delegated(chain, v.addr) == Delegated(c, v.addr)
  }

  /**
   * After a successful loop every bonded validator is within one token of
   * its expected bond, reached from its stake in `c` without overshooting.
   */
  lemma BondedWithinOneToken(c: Chain, queued: bool, assets: seq<Asset>, vals: seq<Validator>, now: int)
    requires DistinctAddrs(vals)
    ensures var r := RebalanceFold(RebalanceRun(Pass, c, queued), BondedValidators(vals), assets, vals, NativeBond(c), now);
            r.outcome.Pass? ==> Balanced(r.chain, assets, vals, NativeBond(c), now) &&
                                NoOvershoot(r.chain, c, assets, vals, NativeBond(c), now)
  {
    var bonded := BondedValidators(vals);
    var native := NativeBond(c);
    var start := RebalanceRun(Pass, c, queued);
    var r := RebalanceFold(start, bonded, assets, vals, native, now);
    BondedValidatorsDistinct(vals);
    if r.outcome.Pass? {
      forall v | v in vals && v.bonded
        ensures Abs(ExpectedBond(assets, v, vals, native, now) - Delegated(r.chain, v.addr)) < One &&
                Toward(Delegated(c, v.addr), Delegated(r.chain, v.addr), ExpectedBond(assets, v, vals, native, now))
      {
        FoldSettlesMember(start, bonded, assets, vals, native, now, v);
      }
    }
  }

  /** `RebalanceFoldWithinOneToken`, stated for a validator of the loop rather than an index. */
  lemma FoldSettlesMember(r: RebalanceRun, bonded: seq<Validator>, assets: seq<Asset>,
                          vals: seq<Validator>, native: int, now: int, v: Validator)
    requires DistinctAddrs(bonded) && v in bonded
    ensures var r' := RebalanceFold(r, bonded, assets, vals, native, now);
            r'.outcome.Pass? ==> SettledAt(r.chain, r'.chain, v.addr, ExpectedBond(assets, v, vals, native, now))
  {
    var i :| 0 <= i < |bonded| && bonded[i] == v;
    RebalanceFoldWithinOneToken(r, bonded, assets, vals, native, now, i);
  }

  /** The loop never touches the stake at unbonded validators. */
  lemma UnbondedUntouched(c: Chain, queued: bool, assets: seq<Asset>, vals: seq<Validator>, now: int)
    requires DistinctAddrs(vals)
    ensures var r := RebalanceFold(RebalanceRun(Pass, c, queued), BondedValidators(vals), assets, vals, NativeBond(c), now);
            UnbondedKept(r.chain, c, vals)
  {
    var bonded := BondedValidators(vals);
    forall v | v in vals && !v.bonded
      ensures Delegated(RebalanceFold(RebalanceRun(Pass, c, queued), bonded, assets, vals, NativeBond(c), now).chain, v.addr) ==
              Delegated(c, v.addr)
    {
      forall x | x in bonded ensures x.addr != v.addr {
        var i :| 0 <= i < |vals| && vals[i] == v;
        var k :| 0 <= k < |vals| && vals[k] == x;
        assert i != k;
      }
      RebalanceFoldOthers(RebalanceRun(Pass, c, queued), bonded, assets, vals, NativeBond(c), now, v.addr);
    }
  }

  /**
   * After a successful rebalance every bonded validator's alliance stake is
   * within one token of its expected bond and moved toward it without
   * passing it, the bond of everyone else is unchanged, and minting equals
   * bonding; unbonded validators' stake is untouched.
   */
  lemma RebalanceWithinOneToken(c: Chain, queued: bool, assets: seq<Asset>, vals: seq<Validator>, now: int)
    requires DistinctAddrs(vals)
    ensures var r := RebalanceBondTokenWeights(c, queued, assets, vals, now);
            r.outcome.Pass? ==>
              NativeBond(r.chain) == NativeBond(c) &&
              r.chain.bondSupply - r.chain.allianceBonded == c.bondSupply - c.allianceBonded &&
              Balanced(r.chain, assets, vals, NativeBond(c), now) &&
              NoOvershoot(r.chain, c, assets, vals, NativeBond(c), now) && UnbondedKept(r.chain, c, vals)
  {
    if forall v :: v in vals ==> v.readable {
      var start := RebalanceRun(Pass, c, queued);
      var bonded := BondedValidators(vals);
      var native := NativeBond(c);
      var r := RebalanceFold(start, bonded, assets, vals, native, now);
      assert RebalanceBondTokenWeights(c, queued, assets, vals, now) == r;
      RebalanceFoldSupply(start, bonded, assets, vals, native, now);
      BondedWithinOneToken(c, queued, assets, vals, now);
      UnbondedUntouched(c, queued, assets, vals, now);
    } else {
      var v :| v in vals && !v.readable;
    }
  }

  /** Rebalancing again right after a successful rebalance moves no stake. */
  lemma RebalanceIdempotent(c: Chain, queued: bool, assets: seq<Asset>, vals: seq<Validator>, now: int)
    requires DistinctAddrs(vals)
    requires RebalanceBondTokenWeights(c, queued, assets, vals, now).outcome.Pass?
    ensures var r := RebalanceBondTokenWeights(c, queued, assets, vals, now);
            var r2 := RebalanceBondTokenWeights(r.chain, r.queued, assets, vals, now);
            r2.outcome.Pass? && r2.chain == r.chain
  {
    var r := RebalanceBondTokenWeights(c, queued, assets, vals, now);
    RebalanceWithinOneToken(c, queued, assets, vals, now);
    var bonded := BondedValidators(vals);
    RebalanceFoldSettled(RebalanceRun(Pass, r.chain, r.queued), bonded, assets, vals, NativeBond(r.chain), now);
  }

  /**
   * After the hook, a rebalance is queued again only when one was queued
   * and consumed and some asset had not started its rewards.
   */
  lemma RebalanceHookRequeues(c: Chain, queued: bool, assets: seq<Asset>, vals: seq<Validator>, now: int)
    ensures var r := RebalanceHook(c, queued, assets, vals, now);
            r.queued <==> queued && (forall v :: v in vals ==> v.readable) &&
                          BondedValidators(vals) != [] && AnyPending(assets, now)
  {
    if queued && forall v :: v in vals ==> v.readable {
      RebalanceFoldQueue(RebalanceRun(Pass, c, false), BondedValidators(vals), assets, vals, NativeBond(c), now);
    }
  }

  /** Once the loop has failed, later validators change nothing. */
  lemma {:induction false} RebalanceFoldFailedPrefix(r: RebalanceRun, bonded: seq<Validator>, assets: seq<Asset>,
                                                     vals: seq<Validator>, native: int, now: int, i: nat)
    requires i <= |bonded| && RebalanceFold(r, bonded[..i], assets, vals, native, now).outcome.Fail?
    ensures RebalanceFold(r, bonded, assets, vals, native, now) == RebalanceFold(r, bonded[..i], assets, vals, native, now)
    decreases |bonded|
  {
    if i < |bonded| {
      assert bonded[..|bonded| - 1][..i] == bonded[..i];
      RebalanceFoldFailedPrefix(r, bonded[..|bonded| - 1], assets, vals, native, now, i);
    } else {
      assert bonded[..i] == bonded;
    }
  }

  /** A pending asset among a list extended by one element. */
  lemma AnyPendingSnoc(s: seq<Asset>, a: Asset, now: int)
    ensures AnyPending(s + [a], now) <==> AnyPending(s, now) || !RewardsStarted(a, now)
  {
    var t := s + [a];
    if AnyPending(s, now) {
      var j :| 0 <= j < |s| && !RewardsStarted(s[j], now);
      assert t[j] == s[j];
    }
    if !RewardsStarted(a, now) {
      assert t[|s|] == a;
    }
    if AnyPending(t, now) {
      var j :| 0 <= j < |t| && !RewardsStarted(t[j], now);
      if j < |s| { assert t[j] == s[j]; }
    }
  }

  /** Queueing before the step or inside it comes to the same. */
  lemma StepQueueFirst(c: Chain, queued: bool, v: Validator, expected: Dec, pending: bool)
    ensures RebalanceStep(RebalanceRun(Pass, c, queued), v, expected, pending) ==
            RebalanceStep(RebalanceRun(Pass, c, queued || pending), v, expected, false)
  {
  }
}
