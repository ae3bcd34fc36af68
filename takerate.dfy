/**
 * DeductAssetsHook and DeductAssetsWithTakeRate (x/alliance/keeper/asset.go)
 * on values: every whole take-rate interval since the last claim removes
 * the asset's take rate from its total, compounded, and the removed tokens
 * go to the fee collector.
 */
module TakeRate {
  import opened Dec
  import opened AllianceTypes
  import opened ParamsKeeper
  import opened ChainState
  import opened AssetStore

  const TwoTo63: int := 0x8000_0000_0000_0000
  const TwoTo64: int := 0x1_0000_0000_0000_0000

  /** Go's uint64(x) conversion of a signed value: wrap modulo 2^64. */
  function ToUint64(q: int): (n: nat)
    ensures n < TwoTo64
    ensures 0 <= q < TwoTo64 ==> n == q
  {
    q % TwoTo64
  }

  /** Go's time.Duration(x) conversion of an unsigned value: reinterpret as signed 64-bit. */
  function ToInt64(n: nat): (d: int)
    ensures -TwoTo63 <= d < TwoTo63
    ensures n < TwoTo63 ==> d == n
  {
    var u := n % TwoTo64;
    if u >= TwoTo63 then u - TwoTo64 else u
  }

  /** Whole intervals: last + interval * q <= now < last + interval * (q + 1). */
  lemma WholeIntervals(now: int, last: int, interval: int)
    requires interval > 0 && now >= last
    ensures var q := TruncDiv(now - last, interval);
            q >= 0 && last + interval * q <= now < last + interval * (q + 1)
  {
    var q := TruncDiv(now - last, interval);
    TruncDivPos(now - last, interval);
    assert (now - last) == q * interval + (now - last) % interval;
  }

  /** uint64(elapsed / interval): whole intervals between two times, Go's truncating division. */
  function ElapsedIntervals(now: int, last: int, interval: int): (n: nat)
    requires interval != 0
    ensures n < TwoTo64
    ensures interval > 0 && -interval < now - last < interval ==> n == 0
    ensures interval > 0 && interval <= now - last && TruncDiv(now - last, interval) < TwoTo64 ==> n >= 1
  {
    if interval > 0 then
      TruncDivUnit(now - last, interval);
      ToUint64(TruncDiv(now - last, interval))
    else ToUint64(TruncDiv(now - last, interval))
  }

  /**
   * The interval count in 64-bit range: it is the number of whole intervals
   * elapsed, at least one once a full interval has passed, and the clock
   * advanced by that many intervals lands on or before now, with less than
   * one interval to spare.
   */
  lemma ClockAdvance(now: int, last: int, interval: int)
    requires interval > 0 && now > last + interval
    requires TruncDiv(now - last, interval) < TwoTo63
    ensures var n := ElapsedIntervals(now, last, interval);
            var next := last + interval * ToInt64(n);
            n >= 1 && next == last + interval * TruncDiv(now - last, interval) &&
            last < next <= now < next + interval
  {
    WholeIntervals(now, last, interval);
    var q := TruncDiv(now - last, interval);
    assert q >= 1 by {
      MulLe(q, 0, interval);
      assert q <= 0 ==> q * interval <= 0;
      assert interval * q == q * interval;
    }
    assert interval * q >= interval by {
      MulLe(1, q, interval);
    }
  }

  // ---------------------------------------------------------------------
  // One asset

  /** The asset pays the take rate: it holds tokens, the rate is positive and its rewards have started. */
  predicate Taxable(a: Asset, now: int) {
    a.totalTokens > 0 && a.takeRate > 0 && RewardsStarted(a, now)
  }

  /** (1 - takeRate)^n * totalTokens, the exact amount left after n intervals. */
  function Remaining(a: Asset, n: nat): Dec {
    MulInt(Power(One - a.takeRate, n), a.totalTokens)
  }

  /** The deduction goes ahead: an amount at or below one token is left alone. */
  predicate Shrinks(a: Asset, n: nat, now: int) {
    Taxable(a, now) && !(Remaining(a, n) <= One)
  }

  /** The asset as the loop leaves it in the slice: the total truncated to whole tokens. */
  function TaxedAsset(a: Asset, n: nat, now: int): (b: Asset)
    ensures b.(totalTokens := a.totalTokens) == a
    ensures Shrinks(a, n, now) ==> b.totalTokens * Precision <= Remaining(a, n) < (b.totalTokens + 1) * Precision
    ensures !Shrinks(a, n, now) ==> b == a
  {
    if Shrinks(a, n, now) then
      TruncateIntFloor(Remaining(a, n));
      a.(totalTokens := TruncateInt(Remaining(a, n)))
    else a
  }

  /**
   * With a take rate in (0, 1] the deduction leaves at least one token and
   * never adds any: 1 <= new total <= old total.
   */
  lemma TaxedBounds(a: Asset, n: nat, now: int)
    requires Shrinks(a, n, now) && a.takeRate <= One
    ensures 1 <= TaxedAsset(a, n, now).totalTokens <= a.totalTokens
  {
    var p := Power(One - a.takeRate, n);
    PowerUnit(One - a.takeRate, n);
    MulLe(p, One, a.totalTokens);
    var t := TaxedAsset(a, n, now).totalTokens;
    assert t * Precision <= Remaining(a, n) <= a.totalTokens * Precision;
    MulLe(a.totalTokens + 1, t, Precision);
    assert One < (t + 1) * Precision;
    MulLe(t + 1, 1, Precision);
  }

  /** The worked example: half of 10^9 tokens is taken over one interval. */
  lemma HalfRateOneInterval(a: Asset, now: int)
    requires a.totalTokens == 1_000_000_000 && a.takeRate == Half && RewardsStarted(a, now)
    ensures Shrinks(a, 1, now) && TaxedAsset(a, 1, now).totalTokens == 500_000_000
  {
    assert One - a.takeRate == Half;
    assert Power(Half, 1) == Mul(Half, One);
    MulOne(Half);
    assert Remaining(a, 1) == 500_000_000 * Precision;
    ChopRoundExact(500_000_000);
    assert TruncateInt(500_000_000 * Precision) == 500_000_000 by {
      TruncDivExact(500_000_000, Precision);
    }
  }

  // ---------------------------------------------------------------------
  // The loop over the slice

  /**
   * The loop's state: the registry, the deducted coins, the number of
   * taxable assets seen, whether a negative deduction stopped it (sdk.NewCoin
   * panics on a negative amount) and the slice elements visited so far.
   */
  datatype TaxRun = TaxRun(assets: map<string, Asset>, coins: Coins, eligible: nat, failed: bool, out: seq<Asset>)

  function TaxStep(r: TaxRun, a: Asset, n: nat, now: int): (r': TaxRun)
    ensures |r'.out| == |r.out| + 1 && r'.out[..|r.out|] == r.out
  {
    if r.failed then r.(out := r.out + [a])
    else if !Taxable(a, now) then r.(out := r.out + [a])
    else if !Shrinks(a, n, now) then r.(eligible := r.eligible + 1, out := r.out + [a])
    else
      var b := TaxedAsset(a, n, now);
      var deducted := a.totalTokens - b.totalTokens;
      if deducted < 0 then TaxRun(r.assets, r.coins, r.eligible + 1, true, r.out + [b])
      else TaxRun(r.assets[a.denom := b], AddCoin(r.coins, a.denom, deducted), r.eligible + 1, false, r.out + [b])
  }

  function TaxFold(r: TaxRun, s: seq<Asset>, n: nat, now: int): (r': TaxRun)
    ensures |r'.out| == |r.out| + |s|
    decreases |s|
  {
    if s == [] then r else TaxStep(TaxFold(r, s[..|s| - 1], n, now), s[|s| - 1], n, now)
  }

  /** The loop's starting state. */
  function TaxStart(assets: map<string, Asset>): TaxRun {
    TaxRun(assets, map[], 0, false, [])
  }

  /** The loop fails only on a negative deduction, which a take rate of at most one never produces. */
  lemma {:induction false} TaxFoldFails(r: TaxRun, s: seq<Asset>, n: nat, now: int)
    requires !r.failed
    ensures TaxFold(r, s, n, now).failed ==> exists j :: 0 <= j < |s| && s[j].takeRate > One
    decreases |s|
  {
    if s != [] {
      var init := s[..|s| - 1];
      TaxFoldFails(r, init, n, now);
      var p := TaxFold(r, init, n, now);
      if p.failed {
        var j :| 0 <= j < |init| && init[j].takeRate > One;
        assert s[j] == init[j];
      } else if TaxStep(p, s[|s| - 1], n, now).failed {
        NegativeDeductionNeedsRateAboveOne(s[|s| - 1], n, now);
      }
    }
  }

  /** Until it fails, the loop leaves every visited element of the slice taxed. */
  lemma {:induction false} TaxFoldOut(r: TaxRun, s: seq<Asset>, n: nat, now: int)
    requires !r.failed
    ensures !TaxFold(r, s, n, now).failed ==>
              TaxFold(r, s, n, now).out == r.out + seq(|s|, j requires 0 <= j < |s| => TaxedAsset(s[j], n, now))
    decreases |s|
  {
    if s != [] {
      var init := s[..|s| - 1];
      TaxFoldOut(r, init, n, now);
      var taxed := seq(|s|, j requires 0 <= j < |s| => TaxedAsset(s[j], n, now));
      var taxedInit := seq(|init|, j requires 0 <= j < |init| => TaxedAsset(init[j], n, now));
      assert taxed == taxedInit + [TaxedAsset(s[|s| - 1], n, now)];
    }
  }

  /** The loop counts no taxable asset exactly when the slice holds none; then it changes nothing else. */
  lemma {:induction false} TaxFoldEligible(r: TaxRun, s: seq<Asset>, n: nat, now: int)
    requires !r.failed
    ensures var r' := TaxFold(r, s, n, now);
            r'.eligible >= r.eligible &&
            (r'.eligible == r.eligible <==> forall j :: 0 <= j < |s| ==> !Taxable(s[j], now)) &&
            (r'.eligible == r.eligible ==> r'.coins == r.coins && r'.assets == r.assets && !r'.failed)
    decreases |s|
  {
    if s != [] {
      var init := s[..|s| - 1];
      TaxFoldEligible(r, init, n, now);
      assert forall j :: 0 <= j < |init| ==> init[j] == s[j];
    }
  }

  /**
   * Until it fails, the coin collected for a denom of the slice is exactly
   * what that asset lost, and the registry holds every taxed asset.
   */
  lemma {:induction false} TaxFoldLedger(r: TaxRun, s: seq<Asset>, n: nat, now: int, j: nat)
    requires !r.failed && DistinctDenoms(s) && j < |s|
    requires forall i :: 0 <= i < |s| ==> AmountOf(r.coins, s[i].denom) == 0
    ensures var r' := TaxFold(r, s, n, now);
            !r'.failed ==>
              AmountOf(r'.coins, s[j].denom) == s[j].totalTokens - TaxedAsset(s[j], n, now).totalTokens &&
              (Shrinks(s[j], n, now) ==> s[j].denom in r'.assets && r'.assets[s[j].denom] == TaxedAsset(s[j], n, now))
    decreases |s|
  {
    var init := s[..|s| - 1];
    var a := s[|s| - 1];
    assert DistinctDenoms(init);
    if j < |s| - 1 {
      TaxFoldLedger(r, init, n, now, j);
      assert init[j] == s[j] && a.denom != s[j].denom;
    } else {
      TaxFoldOther(r, init, n, now, a.denom);
    }
  }

  /** An asset of a slice with distinct denoms that does not shrink keeps its registry entry. */
  lemma {:induction false} TaxFoldUnshrunk(r: TaxRun, s: seq<Asset>, n: nat, now: int, j: nat)
    requires DistinctDenoms(s) && j < |s| && !Shrinks(s[j], n, now)
    ensures var r' := TaxFold(r, s, n, now);
            var d := s[j].denom;
            (d in r'.assets <==> d in r.assets) && (d in r.assets ==> r'.assets[d] == r.assets[d])
    decreases |s|
  {
    var init := s[..|s| - 1];
    var a := s[|s| - 1];
    var d := s[j].denom;
    var p := TaxFold(r, init, n, now);
    var q := TaxStep(p, a, n, now);
    assert TaxFold(r, s, n, now) == q;
    if j < |s| - 1 {
      assert DistinctDenoms(init) && init[j] == s[j] && a.denom != d;
      TaxFoldUnshrunk(r, init, n, now, j);
      assert q.assets == p.assets || q.assets == p.assets[a.denom := TaxedAsset(a, n, now)];
    } else {
      assert forall i :: 0 <= i < |init| ==> init[i].denom != d;
      TaxFoldOther(r, init, n, now, d);
      assert q.assets == p.assets;
    }
  }

  /**
   * The deduction's ledger: over a slice that lists distinct registry
   * records, a successful deduction returns, for each denom of the slice,
   * exactly the stored total before minus the stored total after.
   */
  lemma DeductionLedger(w: World, lastClaim: int, s: seq<Asset>, ctx: Ctx, j: nat)
    requires lastClaim != ZeroTime && DistinctDenoms(s) && j < |s|
    requires forall i :: 0 <= i < |s| ==> s[i].denom in w.store.assets && w.store.assets[s[i].denom] == s[i]
    requires DeductWithTakeRate(w, lastClaim, s, ctx).0.Ok?
    ensures var r := DeductWithTakeRate(w, lastClaim, s, ctx);
            var d := s[j].denom;
            d in r.1.store.assets &&
            AmountOf(r.0.value, d) == w.store.assets[d].totalTokens - r.1.store.assets[d].totalTokens
  {
    var interval := ReadParams(w.params).takeRateClaimInterval;
    var n := ElapsedIntervals(ctx.time, lastClaim, interval);
    var start := TaxStart(w.store.assets);
    var run := TaxFold(start, s, n, ctx.time);
    assert !run.failed;
    TaxFoldLedger(start, s, n, ctx.time, j);
    if !Shrinks(s[j], n, ctx.time) {
      TaxFoldUnshrunk(start, s, n, ctx.time, j);
    }
  }

  /** Denoms outside the slice keep their coin amount and registry entry. */
  lemma {:induction false} TaxFoldOther(r: TaxRun, s: seq<Asset>, n: nat, now: int, d: string)
    requires forall j :: 0 <= j < |s| ==> s[j].denom != d
    ensures var r' := TaxFold(r, s, n, now);
            AmountOf(r'.coins, d) == AmountOf(r.coins, d) && (d in r'.assets <==> d in r.assets) &&
            (d in r.assets ==> r'.assets[d] == r.assets[d])
    decreases |s|
  {
    if s != [] {
      TaxFoldOther(r, s[..|s| - 1], n, now, d);
    }
  }

  /** A negative deduction needs a multiplier above one, so a take rate above one. */
  lemma NegativeDeductionNeedsRateAboveOne(a: Asset, n: nat, now: int)
    requires Shrinks(a, n, now) && TaxedAsset(a, n, now).totalTokens > a.totalTokens
    ensures a.takeRate > One
  {
    if a.takeRate <= One {
      TaxedBounds(a, n, now);
    }
  }

  // ---------------------------------------------------------------------
  // The two functions

  /**
   * DeductAssetsWithTakeRate: the result, the new world and the slice as
   * the function leaves it.
   */
  function DeductWithTakeRate(w: World, lastClaim: int, s: seq<Asset>, ctx: Ctx): (r: (Result<Coins>, World, seq<Asset>))
    ensures r.1.store.snapshots == w.store.snapshots && r.1.store.rebalanceQueued == w.store.rebalanceQueued
    ensures r.1.chain.delegated == w.chain.delegated && NativeBond(r.1.chain) == NativeBond(w.chain)
    ensures |r.2| == |s|
    ensures lastClaim == ZeroTime ==>
              r.1.store == w.store && r.1.chain == w.chain && r.2 == s &&
              (r.0.Ok? <==> ValidParams(ReadParams(w.params))) &&
              (r.0.Ok? ==> r.0.value == map[] && ReadParams(r.1.params).lastTakeRateClaimTime == ctx.time)
    ensures lastClaim != ZeroTime && ReadParams(w.params).takeRateClaimInterval == 0 ==>
              r == (Err(DivisionByZero), w, s)
    ensures r.0.Ok? ==> forall d :: d in r.0.value ==> r.0.value[d] != 0
  {
    if lastClaim == ZeroTime then
      var (o, p) := WriteLastClaimTime(w.params, ctx.time);
      (if o.Fail? then Err(o.error) else Ok(map[]), w.(params := p), s)
    else
      var interval := ReadParams(w.params).takeRateClaimInterval;
      if interval == 0 then (Err(DivisionByZero), w, s)
      else
        var n := ElapsedIntervals(ctx.time, lastClaim, interval);
        var run := TaxFold(TaxStart(w.store.assets), s, n, ctx.time);
        TaxFoldCoinsNonzero(TaxStart(w.store.assets), s, n, ctx.time);
        var w1 := w.(store := w.store.(assets := run.assets));
        var (res, w2) := SettleClaim(w1, lastClaim, interval, n, run.coins, run.eligible, run.failed, ctx.time);
        (res, w2, run.out)
  }

  /**
   * What follows the asset loop: a failed loop is an error; with no
   * eligible asset only the claim time moves to now; otherwise non-empty
   * coins go to the fee collector and the claim time advances by whole
   * intervals.
   */
  function SettleClaim(w: World, lastClaim: int, interval: int, n: nat, coins: Coins, eligible: nat, failed: bool,
                       now: int): (r: (Result<Coins>, World))
    ensures r.1.store == w.store
    ensures failed ==> r == (Err(NegativeCoinAmount), w)
    ensures r.0.Ok? ==> r.0.value == coins
    ensures !failed && eligible > 0 && coins == map[] ==> r == (Ok(map[]), w)
  {
    if failed then (Err(NegativeCoinAmount), w)
    else if eligible == 0 then
      var (o, p) := WriteLastClaimTime(w.params, now);
      (if o.Fail? then Err(o.error) else Ok(coins), w.(params := p))
    else if coins == map[] then (Ok(coins), w)
    else
      match SendCoinsToFeeCollector(w.chain, coins)
      case Err(e) => (Err(e), w)
      case Ok(c) =>
        var (o, p) := WriteLastClaimTime(w.params, lastClaim + interval * ToInt64(n));
        (if o.Fail? then Err(o.error) else Ok(coins), World(w.store, p, c))
  }

  /** Collected coins never hold a zero amount. */
  lemma {:induction false} TaxFoldCoinsNonzero(r: TaxRun, s: seq<Asset>, n: nat, now: int)
    requires forall d :: d in r.coins ==> r.coins[d] != 0
    ensures forall d :: d in TaxFold(r, s, n, now).coins ==> TaxFold(r, s, n, now).coins[d] != 0
    decreases |s|
  {
    if s != [] {
      TaxFoldCoinsNonzero(r, s[..|s| - 1], n, now);
    }
  }

  /** DeductAssetsHook: deduct only once the next claim time has passed. */
  function DeductAssetsHook(w: World, s: seq<Asset>, ctx: Ctx): (r: (Result<Coins>, World, seq<Asset>))
    ensures var p := ReadParams(w.params);
            !(ctx.time > p.lastTakeRateClaimTime + p.takeRateClaimInterval) ==> r == (Ok(map[]), w, s)
    ensures var p := ReadParams(w.params);
            ctx.time > p.lastTakeRateClaimTime + p.takeRateClaimInterval ==>
              r == DeductWithTakeRate(w, p.lastTakeRateClaimTime, s, ctx)
  {
    var p := ReadParams(w.params);
    if ctx.time > p.lastTakeRateClaimTime + p.takeRateClaimInterval then
      DeductWithTakeRate(w, p.lastTakeRateClaimTime, s, ctx)
    else (Ok(map[]), w, s)
  }

  /**
   * With no asset paying the take rate, the claim clock moves to the block
   * time (given stored params) and no tokens move.
   */
  lemma NoTaxableAssets(w: World, lastClaim: int, s: seq<Asset>, ctx: Ctx)
    requires lastClaim != ZeroTime && ReadParams(w.params).takeRateClaimInterval != 0
    requires w.params.Some? && ValidParams(w.params.value)
    requires forall j :: 0 <= j < |s| ==> !Taxable(s[j], ctx.time)
    ensures var r := DeductWithTakeRate(w, lastClaim, s, ctx);
            r.0 == Ok(map[]) && r.1.store == w.store && r.1.chain == w.chain && r.2 == s &&
            ReadParams(r.1.params).lastTakeRateClaimTime == ctx.time
  {
    var interval := ReadParams(w.params).takeRateClaimInterval;
    var n := ElapsedIntervals(ctx.time, lastClaim, interval);
    TaxFoldUntaxed(TaxStart(w.store.assets), s, n, ctx.time);
    assert w.store.(assets := w.store.assets) == w.store;
  }

  /**
   * Floor protection: when some asset is taxable but none would shrink, no
   * coins move, nothing is stored and the claim clock stays where it was,
   * so the elapsed intervals keep counting.
   */
  lemma FloorProtectionKeepsClock(w: World, lastClaim: int, s: seq<Asset>, ctx: Ctx)
    requires lastClaim != ZeroTime && ReadParams(w.params).takeRateClaimInterval != 0
    requires exists j :: 0 <= j < |s| && Taxable(s[j], ctx.time)
    requires var n := ElapsedIntervals(ctx.time, lastClaim, ReadParams(w.params).takeRateClaimInterval);
             forall j :: 0 <= j < |s| ==> !Shrinks(s[j], n, ctx.time)
    ensures DeductWithTakeRate(w, lastClaim, s, ctx) == (Ok(map[]), w, s)
  {
    var interval := ReadParams(w.params).takeRateClaimInterval;
    var n := ElapsedIntervals(ctx.time, lastClaim, interval);
    var start := TaxStart(w.store.assets);
    var run := TaxFold(start, s, n, ctx.time);
    TaxFoldNoShrink(start, s, n, ctx.time);
    TaxFoldEligible(start, s, n, ctx.time);
    var j :| 0 <= j < |s| && Taxable(s[j], ctx.time);
    assert run.eligible > 0 && !run.failed && run.coins == map[] && run.out == s;
    assert w.store.(assets := run.assets) == w.store;
  }

  /** A slice in which nothing shrinks leaves the registry, the coins and the failure flag alone. */
  lemma {:induction false} TaxFoldNoShrink(r: TaxRun, s: seq<Asset>, n: nat, now: int)
    requires forall j :: 0 <= j < |s| ==> !Shrinks(s[j], n, now)
    ensures var r' := TaxFold(r, s, n, now);
            r'.assets == r.assets && r'.coins == r.coins && r'.failed == r.failed && r'.out == r.out + s
    decreases |s|
  {
    if s != [] {
      TaxFoldNoShrink(r, s[..|s| - 1], n, now);
      assert s[..|s| - 1] + [s[|s| - 1]] == s;
    }
  }

  /** A slice with nothing taxable passes through the loop untouched. */
  lemma {:induction false} TaxFoldUntaxed(r: TaxRun, s: seq<Asset>, n: nat, now: int)
    requires forall j :: 0 <= j < |s| ==> !Taxable(s[j], now)
    ensures TaxFold(r, s, n, now) == r.(out := r.out + s)
    decreases |s|
  {
    if s != [] {
      TaxFoldUntaxed(r, s[..|s| - 1], n, now);
      assert s[..|s| - 1] + [s[|s| - 1]] == s;
    }
  }

  /**
   * A successful deduction that collected coins hands exactly those coins
   * to the fee collector and moves the claim clock forward by whole
   * intervals only, to at most the block time.
   */
  lemma DeductionPaysFeeCollector(w: World, lastClaim: int, s: seq<Asset>, ctx: Ctx)
    requires lastClaim != ZeroTime
    requires var interval := ReadParams(w.params).takeRateClaimInterval;
             interval > 0 && ctx.time > lastClaim + interval && TruncDiv(ctx.time - lastClaim, interval) < TwoTo63
    requires var r := DeductWithTakeRate(w, lastClaim, s, ctx); r.0.Ok? && r.0.value != map[]
    ensures var r := DeductWithTakeRate(w, lastClaim, s, ctx);
            var interval := ReadParams(w.params).takeRateClaimInterval;
            var next := ReadParams(r.1.params).lastTakeRateClaimTime;
            (forall d :: AmountOf(r.1.chain.feeCollector, d) == AmountOf(w.chain.feeCollector, d) + AmountOf(r.0.value, d)) &&
            (forall d :: AmountOf(r.1.chain.moduleBalance, d) == AmountOf(w.chain.moduleBalance, d) - AmountOf(r.0.value, d)) &&
            next == lastClaim + interval * TruncDiv(ctx.time - lastClaim, interval) &&
            lastClaim < next <= ctx.time < next + interval
  {
    var interval := ReadParams(w.params).takeRateClaimInterval;
    var n := ElapsedIntervals(ctx.time, lastClaim, interval);
    var run := TaxFold(TaxStart(w.store.assets), s, n, ctx.time);
    TaxFoldEligible(TaxStart(w.store.assets), s, n, ctx.time);
    assert run.eligible != 0 && !run.failed && run.coins != map[];
    ClockAdvance(ctx.time, lastClaim, interval);
  }

  /** Once the loop has failed, it copies the rest of the slice and changes nothing else. */
  lemma {:induction false} TaxFoldFailedPrefix(r: TaxRun, s: seq<Asset>, i: nat, n: nat, now: int)
    requires i <= |s| && TaxFold(r, s[..i], n, now).failed
    ensures var p := TaxFold(r, s[..i], n, now);
            TaxFold(r, s, n, now) == p.(out := p.out + s[i..])
    decreases |s|
  {
    if i < |s| {
      assert s[..|s| - 1][..i] == s[..i];
      TaxFoldFailedPrefix(r, s[..|s| - 1], i, n, now);
      assert s[..|s| - 1][i..] + [s[|s| - 1]] == s[i..];
    } else {
      assert s[..i] == s;
    }
  }
}
