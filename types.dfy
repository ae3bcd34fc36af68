/**
 * Records of the alliance module and the pure helpers of
 * x/alliance/types/asset.go: the asset constructor, the share/token
 * conversions and the two asset predicates.
 */
module AllianceTypes {
  import opened Dec

  /** Go's zero time.Time{}, the "never set" marker; times are nanoseconds. */
  const ZeroTime: int := 0

  datatype Option<T> = None | Some(value: T)

  datatype Error =
    | UnknownAsset             // types.ErrUnknownAsset
    | RewardWeightOutOfBound   // types.ErrRewardWeightOutOfBound
    | NonPositiveDuration      // ValidatePositiveDuration
    | AssetHasTokens           // DeleteAsset on an asset that still has tokens
    | DivisionByZero           // a Go panic: integer or decimal division by zero
    | NegativeCoinAmount       // a Go panic: sdk.NewCoin with a negative amount
    | ValidatorNotFound        // GetAllianceValidator failed
    | ClaimRewardsFailed       // ClaimValidatorRewards failed
    | InsufficientDelegation   // ValidateUnbondAmount failed
    | InsufficientFunds        // SendCoinsFromModuleToModule failed
    | UndelegationFailed       // CompleteUndelegations failed

  datatype Result<T> = Ok(value: T) | Err(error: Error)

  datatype Outcome = Pass | Fail(error: Error)

  datatype RewardWeightRange = RewardWeightRange(min: Dec, max: Dec)

  /** An alliance asset record, keyed by its denom in the registry. */
  datatype Asset = Asset(
    denom: string,
    rewardWeight: Dec,
    rewardWeightRange: RewardWeightRange,
    takeRate: Dec,
    totalTokens: int,
    totalValidatorShares: Dec,
    rewardStartTime: int,
    rewardChangeRate: Dec,
    rewardChangeInterval: int,
    lastRewardChangeTime: int,
    isInitialized: bool)

  datatype Coin = Coin(denom: string, amount: int)

  /**
   * sdk.Coins as a map from denom to amount. Adding never keeps a zero
   * entry, so a collection is empty exactly when it holds nothing.
   */
  type Coins = map<string, int>

  /** Coins.AmountOf: zero for an absent denom. */
  function AmountOf(c: Coins, denom: string): int {
    if denom in c then c[denom] else 0
  }

  /** Coins.Add of one coin: amounts of a denom are summed and a zero sum is dropped. */
  function AddCoin(c: Coins, denom: string, amount: int): (r: Coins)
    ensures AmountOf(r, denom) == AmountOf(c, denom) + amount
    ensures forall d :: d != denom ==> AmountOf(r, d) == AmountOf(c, d)
    ensures forall d :: d in r ==> r[d] != 0 || (d in c && c[d] == 0)
    ensures r.Keys <= c.Keys + {denom}
  {
    var total := AmountOf(c, denom) + amount;
    if total == 0 then c - {denom} else c[denom := total]
  }

  /** A delegation: only its share balance is used by the conversions. */
  datatype Delegation = Delegation(shares: Dec)

  /** A weight-change snapshot: the weight in effect before the change and the index vector. */
  datatype Snapshot = Snapshot(prevRewardWeight: Dec, rewardHistories: map<string, Dec>)

  /** Snapshot store key (denom, validator, height); heights are uint64 in the key. */
  datatype SnapshotKey = SnapshotKey(denom: string, validator: string, height: nat)

  /**
   * An alliance validator as the keeper sees it: its bonding status, its
   * per-denom validator shares and its global reward index vector.
   * `readable` and `claimable` are the outcomes of the opaque calls
   * GetAllianceValidator and ClaimValidatorRewards for this validator.
   */
  datatype Validator = Validator(
    addr: string,
    bonded: bool,
    shares: map<string, Dec>,
    globalRewardHistory: map<string, Dec>,
    readable: bool,
    claimable: bool)

  /** The block context: height and block time. */
  datatype Ctx = Ctx(height: nat, time: int)

  /** RewardsStarted: rewards have started at block time t, the start time included. */
  predicate RewardsStarted(a: Asset, t: int) {
    t > a.rewardStartTime || t == a.rewardStartTime
  }

  /** Once an asset's rewards have started they stay started at every later block time. */
  lemma RewardsStartedStays(a: Asset, t: int, t': int)
    requires t <= t'
    ensures RewardsStarted(a, t) ==> RewardsStarted(a, t')
    ensures !RewardsStarted(a, t') ==> !RewardsStarted(a, t)
    ensures RewardsStarted(a, t) <==> a.rewardStartTime <= t
  {
  }

  /** HasPositiveDecay: a decay interval is set and the change rate is positive. */
  predicate HasPositiveDecay(a: Asset) {
    a.rewardChangeInterval > 0 && a.rewardChangeRate > 0
  }

  /**
   * NewAllianceAsset: a fresh asset holds nothing, has no decay schedule and
   * is not yet initialized; its decay clock starts at its reward start time.
   */
  function NewAllianceAsset(denom: string, rewardWeight: Dec, minRewardWeight: Dec, maxRewardWeight: Dec,
                            takeRate: Dec, rewardStartTime: int): (a: Asset)
    ensures a.denom == denom && a.rewardWeight == rewardWeight && a.takeRate == takeRate
    ensures a.rewardWeightRange == RewardWeightRange(minRewardWeight, maxRewardWeight)
    ensures a.totalTokens == 0 && a.totalValidatorShares == 0
    ensures !a.isInitialized && !HasPositiveDecay(a)
    ensures a.rewardChangeRate == One && a.rewardChangeInterval == 0
    ensures a.lastRewardChangeTime == a.rewardStartTime == rewardStartTime
  {
    Asset(denom, rewardWeight, RewardWeightRange(minRewardWeight, maxRewardWeight), takeRate,
          0, 0, rewardStartTime, One, 0, rewardStartTime, false)
  }

  /**
   * ConvertNewTokenToShares: an empty pool issues shares 1:1; otherwise
   * shares are issued at the pool's rate. A pool with shares but no tokens
   * divides by zero (a panic in the source).
   */
  function ConvertNewTokenToShares(totalTokens: Dec, totalShares: Dec, newTokens: int): (r: Result<Dec>)
    ensures totalShares == 0 ==> r == Ok(FromInt(newTokens))
    ensures totalShares != 0 && totalTokens == 0 ==> r == Err(DivisionByZero)
    ensures totalShares != 0 && totalShares == totalTokens ==> r == Ok(FromInt(newTokens))
    ensures r.Ok? && totalShares > 0 && totalTokens > 0 && newTokens >= 0 ==> r.value >= 0
  {
    if totalShares == 0 then Ok(FromInt(newTokens))
    else if totalTokens == 0 then Err(DivisionByZero)
    else
      var rate := Quo(totalShares, totalTokens);
      QuoRateFacts(totalShares, totalTokens);
      assert rate >= 0 && newTokens >= 0 ==> MulInt(rate, newTokens) >= 0 by {
        if newTokens >= 0 { MulLe(0, rate, newTokens); }
      }
      Ok(MulInt(rate, newTokens))
  }

  /** The pool's exchange rate: exactly one at par, non-negative for positive totals. */
  lemma QuoRateFacts(totalShares: Dec, totalTokens: Dec)
    requires totalTokens != 0
    ensures totalShares == totalTokens ==> Quo(totalShares, totalTokens) == One
    ensures totalShares >= 0 && totalTokens > 0 ==> Quo(totalShares, totalTokens) >= 0
  {
    if totalShares == totalTokens {
      QuoSelf(totalShares);
    }
    if totalShares >= 0 && totalTokens > 0 {
      QuoMonoLeft(0, totalShares, totalTokens);
      QuoZero(totalTokens);
    }
  }

  /** For a pool holding shares and tokens, more tokens are never issued fewer shares. */
  lemma ConvertNewTokenToSharesMono(totalTokens: Dec, totalShares: Dec, n: int, n': int)
    requires totalShares > 0 && totalTokens > 0 && n <= n'
    ensures var r := ConvertNewTokenToShares(totalTokens, totalShares, n);
            var r' := ConvertNewTokenToShares(totalTokens, totalShares, n');
            r.Ok? && r'.Ok? && r.value <= r'.value
  {
    var rate := Quo(totalShares, totalTokens);
    QuoRateFacts(totalShares, totalTokens);
    MulLe(n, n', rate);
    assert MulInt(rate, n) == n * rate && MulInt(rate, n') == n' * rate;
  }

  /**
   * ConvertNewShareToDecToken: with no shares outstanding the whole token
   * total is returned; otherwise tokens are paid pro rata, so no shares pay
   * nothing and all shares pay the whole total.
   */
  function ConvertNewShareToDecToken(totalTokens: Dec, totalShares: Dec, shares: Dec): (r: Dec)
    ensures totalShares == 0 ==> r == totalTokens
    ensures totalShares != 0 && shares == 0 ==> r == 0
    ensures totalShares != 0 && shares == totalShares ==> r == totalTokens
  {
    if totalShares == 0 then totalTokens
    else
      if shares == totalShares then QuoSelf(shares); MulOne(totalTokens); Mul(Quo(shares, totalShares), totalTokens)
      else
        QuoZero(totalShares);
        Mul(Quo(shares, totalShares), totalTokens)
  }

  /** More shares never convert to fewer tokens (for a positive share total and token total). */
  lemma ConvertNewShareToDecTokenMono(totalTokens: Dec, totalShares: Dec, s: Dec, s': Dec)
    requires totalShares > 0 && totalTokens >= 0 && s <= s'
    ensures ConvertNewShareToDecToken(totalTokens, totalShares, s) <= ConvertNewShareToDecToken(totalTokens, totalShares, s')
  {
    QuoMonoLeft(s, s', totalShares);
    MulMonoLeft(Quo(s, totalShares), Quo(s', totalShares), totalTokens);
  }

  /**
   * GetDelegationTokensWithShares: the delegator's tokens, with 10^-6 added
   * before truncating so that amounts just below a whole number round up.
   * `valTokens` and `totalDelegationShares` are the validator's token amount
   * and delegation share total for the asset. A negative amount makes the
   * source's sdk.NewCoin panic.
   */
  function GetDelegationTokensWithShares(delegatorShares: Dec, valTokens: Dec, totalDelegationShares: Dec,
                                         denom: string): (r: Result<Coin>)
    ensures r.Ok? ==> r.value.denom == denom && r.value.amount >= 0
    ensures r.Ok? <==> ConvertNewShareToDecToken(valTokens, totalDelegationShares, delegatorShares) + Epsilon > -Precision
  {
    var exact := ConvertNewShareToDecToken(valTokens, totalDelegationShares, delegatorShares);
    var amount := TruncateInt(exact + Epsilon);
    TruncDivPos(exact + Epsilon, Precision);
    if amount < 0 then Err(NegativeCoinAmount) else Ok(Coin(denom, amount))
  }

  /**
   * GetDelegationTokens: the payout for the delegation's own share balance,
   * in the asset's denom: the exact amount plus 10^-6 rounded down to whole
   * tokens, and an error exactly when that would be negative.
   */
  function GetDelegationTokens(del: Delegation, valTokens: Dec, totalDelegationShares: Dec, denom: string): (r: Result<Coin>)
    ensures r.Ok? ==> r.value.denom == denom && r.value.amount >= 0
    ensures var x := ConvertNewShareToDecToken(valTokens, totalDelegationShares, del.shares);
            r.Ok? <==> x + Epsilon > -Precision
    ensures var x := ConvertNewShareToDecToken(valTokens, totalDelegationShares, del.shares);
            x >= 0 ==> r.Ok? && FromInt(r.value.amount) <= x + Epsilon < FromInt(r.value.amount + 1)
  {
    var x := ConvertNewShareToDecToken(valTokens, totalDelegationShares, del.shares);
    TruncDivPos(x + Epsilon, Precision);
    GetDelegationTokensWithShares(del.shares, valTokens, totalDelegationShares, denom)
  }

  /**
   * The epsilon rounding: an exact token amount at most 10^-6 below a whole
   * number k, or exactly k, pays k.
   */
  lemma EpsilonRoundsUp(delegatorShares: Dec, valTokens: Dec, totalDelegationShares: Dec, denom: string, k: nat)
    requires var x := ConvertNewShareToDecToken(valTokens, totalDelegationShares, delegatorShares);
             FromInt(k) - Epsilon <= x <= FromInt(k)
    ensures GetDelegationTokensWithShares(delegatorShares, valTokens, totalDelegationShares, denom) == Ok(Coin(denom, k))
  {
    var x := ConvertNewShareToDecToken(valTokens, totalDelegationShares, delegatorShares);
    TruncDivPos(x + Epsilon, Precision);
    assert k * Precision <= x + Epsilon < (k + 1) * Precision;
  }

  /** The payout is the exact amount plus the epsilon, rounded down. */
  lemma DelegationTokensFloor(delegatorShares: Dec, valTokens: Dec, totalDelegationShares: Dec, denom: string)
    requires ConvertNewShareToDecToken(valTokens, totalDelegationShares, delegatorShares) >= 0
    ensures var r := GetDelegationTokensWithShares(delegatorShares, valTokens, totalDelegationShares, denom);
            var x := ConvertNewShareToDecToken(valTokens, totalDelegationShares, delegatorShares);
            r.Ok? && FromInt(r.value.amount) <= x + Epsilon < FromInt(r.value.amount + 1)
  {
    var x := ConvertNewShareToDecToken(valTokens, totalDelegationShares, delegatorShares);
    TruncDivPos(x + Epsilon, Precision);
  }

  /**
   * GetDelegationSharesFromTokens: 1:1 while the validator's delegation
   * shares truncate to zero, otherwise at the validator's exchange rate.
   */
  function GetDelegationSharesFromTokens(valTokens: Dec, totalDelegationShares: Dec, token: int): (r: Result<Dec>)
    ensures TruncateInt(totalDelegationShares) == 0 ==> r == Ok(FromInt(token))
    ensures TruncateInt(totalDelegationShares) != 0 ==> r == ConvertNewTokenToShares(valTokens, totalDelegationShares, token)
    ensures TruncateInt(totalDelegationShares) != 0 && valTokens == 0 ==> r == Err(DivisionByZero)
  {
    if TruncateInt(totalDelegationShares) == 0 then Ok(FromInt(token))
    else
      assert totalDelegationShares != 0;
      ConvertNewTokenToShares(valTokens, totalDelegationShares, token)
  }

  /** First deposit into an empty pool: the shares issued redeem for exactly the tokens deposited. */
  lemma FirstDepositRoundTrip(totalTokens: Dec, n: int)
    ensures ConvertNewTokenToShares(totalTokens, 0, n) == Ok(FromInt(n))
    ensures ConvertNewShareToDecToken(FromInt(n), FromInt(n), FromInt(n)) == FromInt(n)
  {
  }
}
