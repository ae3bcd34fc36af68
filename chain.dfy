/**
 * The staking and bank keepers the alliance keeper calls, reduced to the
 * balances it changes: the module's delegation to each validator (in
 * tokens), the bonded totals, the supply of the bond denom and the
 * balances of the alliance module and the fee collector.
 */
module ChainState {
  import opened Dec
  import opened AllianceTypes

  datatype Chain = Chain(
    delegated: map<string, Dec>,   // the alliance module's delegation per validator, in tokens
    totalBonded: int,              // TotalBondedTokens
    allianceBonded: int,           // GetAllianceBondedAmount
    bondSupply: int,               // supply of the bond denom
    moduleBalance: Coins,          // alliance module account
    feeCollector: Coins,           // fee collector module account
    undelegationsFail: bool)       // the outcome of CompleteUndelegations this block

  /** Tokens bonded by everyone but the alliance module. */
  function NativeBond(c: Chain): int { c.totalBonded - c.allianceBonded }

  /** The module's current delegation to a validator; zero when there is none. */
  function Delegated(c: Chain, addr: string): Dec {
    if addr in c.delegated then c.delegated[addr] else 0
  }

  /** bankKeeper.MintCoins of the bond denom into the module. */
  function MintCoins(c: Chain, amount: nat): (c': Chain)
    ensures c'.bondSupply == c.bondSupply + amount
    ensures c' == c.(bondSupply := c'.bondSupply)
  {
    c.(bondSupply := c.bondSupply + amount)
  }

  /** stakingKeeper.Delegate of minted tokens to a validator; bonded totals grow by the amount. */
  function Delegate(c: Chain, addr: string, amount: nat): (c': Chain)
    ensures Delegated(c', addr) == Delegated(c, addr) + FromInt(amount)
    ensures forall a :: a != addr ==> Delegated(c', a) == Delegated(c, a)
    ensures c'.allianceBonded == c.allianceBonded + amount && NativeBond(c') == NativeBond(c)
    ensures c'.bondSupply == c.bondSupply && c'.moduleBalance == c.moduleBalance && c'.feeCollector == c.feeCollector
    ensures c'.undelegationsFail == c.undelegationsFail
  {
    c.(delegated := c.delegated[addr := Delegated(c, addr) + FromInt(amount)],
       totalBonded := c.totalBonded + amount,
       allianceBonded := c.allianceBonded + amount)
  }

  /** stakingKeeper.ValidateUnbondAmount: the module cannot unbond more than it delegated. */
  function ValidateUnbondAmount(c: Chain, addr: string, amount: nat): (o: Outcome)
    ensures o.Pass? <==> FromInt(amount) <= Delegated(c, addr)
    ensures o.Fail? ==> o.error == InsufficientDelegation
  {
    if FromInt(amount) > Delegated(c, addr) then Fail(InsufficientDelegation) else Pass
  }

  /** stakingKeeper.Unbond: the tokens leave the delegation and the bonded totals. */
  function Unbond(c: Chain, addr: string, amount: nat): (c': Chain)
    ensures Delegated(c', addr) == Delegated(c, addr) - FromInt(amount)
    ensures forall a :: a != addr ==> Delegated(c', a) == Delegated(c, a)
    ensures c'.allianceBonded == c.allianceBonded - amount && NativeBond(c') == NativeBond(c)
    ensures c'.bondSupply == c.bondSupply && c'.moduleBalance == c.moduleBalance && c'.feeCollector == c.feeCollector
    ensures c'.undelegationsFail == c.undelegationsFail
  {
    c.(delegated := c.delegated[addr := Delegated(c, addr) - FromInt(amount)],
       totalBonded := c.totalBonded - amount,
       allianceBonded := c.allianceBonded - amount)
  }

  /** bankKeeper.BurnCoins of unbonded bond-denom tokens. */
  function BurnCoins(c: Chain, amount: nat): (c': Chain)
    ensures c'.bondSupply == c.bondSupply - amount
    ensures c' == c.(bondSupply := c'.bondSupply)
  {
    c.(bondSupply := c.bondSupply - amount)
  }

  /** Every coin is covered by the balance. */
  predicate Covers(balance: Coins, coins: Coins) {
    forall d :: d in coins ==> coins[d] <= AmountOf(balance, d)
  }

  /** bankKeeper.SendCoinsFromModuleToModule, alliance module to fee collector. */
  function SendCoinsToFeeCollector(c: Chain, coins: Coins): (r: Result<Chain>)
    ensures r.Ok? <==> Covers(c.moduleBalance, coins)
    ensures r.Err? ==> r.error == InsufficientFunds
    ensures r.Ok? ==> forall d :: AmountOf(r.value.moduleBalance, d) == AmountOf(c.moduleBalance, d) - AmountOf(coins, d)
    ensures r.Ok? ==> forall d :: AmountOf(r.value.feeCollector, d) == AmountOf(c.feeCollector, d) + AmountOf(coins, d)
    ensures r.Ok? ==> r.value.delegated == c.delegated && NativeBond(r.value) == NativeBond(c)
  {
    if !Covers(c.moduleBalance, coins) then Err(InsufficientFunds)
    else
      Ok(c.(moduleBalance := SubCoins(c.moduleBalance, coins), feeCollector := AddCoins(c.feeCollector, coins)))
  }

  /** Coins.Add: denom by denom sum. */
  function AddCoins(b: Coins, coins: Coins): (r: Coins)
    ensures forall d :: AmountOf(r, d) == AmountOf(b, d) + AmountOf(coins, d)
  {
    map d | d in b.Keys + coins.Keys :: AmountOf(b, d) + AmountOf(coins, d)
  }

  /** Coins.Sub: denom by denom difference. */
  function SubCoins(b: Coins, coins: Coins): (r: Coins)
    ensures forall d :: AmountOf(r, d) == AmountOf(b, d) - AmountOf(coins, d)
  {
    map d | d in b.Keys + coins.Keys :: AmountOf(b, d) - AmountOf(coins, d)
  }

  /** stakingKeeper.CompleteUndelegations, as far as the end-of-block code sees it. */
  function CompleteUndelegations(c: Chain): (o: Outcome)
    ensures o.Pass? <==> !c.undelegationsFail
    ensures o.Fail? ==> o.error == UndelegationFailed
  {
    if c.undelegationsFail then Fail(UndelegationFailed) else Pass
  }

  /**
   * A mint followed by a delegation of the same amount raises supply and
   * alliance bond by that amount, so their difference and everyone else's
   * bond are unchanged.
   */
  lemma MintDelegateBalanced(c: Chain, addr: string, amount: nat)
    ensures var c' := Delegate(MintCoins(c, amount), addr, amount);
            c'.bondSupply == c.bondSupply + amount && c'.allianceBonded == c.allianceBonded + amount &&
            NativeBond(c') == NativeBond(c) &&
            c'.bondSupply - c'.allianceBonded == c.bondSupply - c.allianceBonded
  {
  }

  /**
   * An unbonding followed by burning what it returned lowers supply and
   * alliance bond by that amount, so their difference and everyone else's
   * bond are unchanged.
   */
  lemma UnbondBurnBalanced(c: Chain, addr: string, amount: nat)
    ensures var c' := BurnCoins(Unbond(c, addr, amount), amount);
            c'.bondSupply == c.bondSupply - amount && c'.allianceBonded == c.allianceBonded - amount &&
            NativeBond(c') == NativeBond(c) &&
            c'.bondSupply - c'.allianceBonded == c.bondSupply - c.allianceBonded
  {
  }
}
