/**
 Which amounts each call of the ERC20 template and of its wrapper changes, and when
 it succeeds (src/contract/templates/erc20.cpp and erc20wrapper.cpp).
 */
module TokenEffects {
  import opened Outcomes
  import opened Words
  import opened Sums
  import opened Erc20Wrapper
  import opened WrapperRuns

  // The balances of u are those of t with the value moved.
  ghost predicate BalancesMoved(t: Token, u: Token, from: Address, to: Address, value: nat) {
    forall k: Address :: AmountOf(u.balances, k)
      == AmountOf(t.balances, k) - (if k == from then value else 0) + (if k == to then value else 0)
  }

  // transfer succeeds exactly for an amount the caller has, and moves it.
  lemma TransferExactly(t: Token, caller: Address, to: Address, value: nat)
    requires SupplyOk(t)
    ensures var r := Moved(t, caller, to, value);
      && (r.Ok? <==> value <= AmountOf(t.balances, caller))
      && (r.Ok? ==> r.value == t.(balances := r.value.balances) && BalancesMoved(t, r.value, caller, to, value))
  {
    MovedExactly(t, caller, to, value);
    hide SupplyOk, Moved;
    if Moved(t, caller, to, value).Ok? {
      MovedAt(t, caller, to, value);
    }
  }

  // transferFrom succeeds exactly for an amount the owner has and allows the caller; it spends that much of the
  // allowance, and no other allowance changes.
  lemma TransferFromExactly(t: Token, caller: Address, from: Address, to: Address, value: nat)
    requires SupplyOk(t)
    ensures var r := MovedFrom(t, caller, from, to, value);
      && (r.Ok? <==> value <= Allowance(t, from, caller) && value <= AmountOf(t.balances, from))
      && (r.Ok? ==>
            && r.value.totalSupply == t.totalSupply && BalancesMoved(t, r.value, from, to, value)
            && forall o: Address, s: Address :: Allowance(r.value, o, s)
                 == Allowance(t, o, s) - if o == from && s == caller then value else 0)
  {
    if value <= Allowance(t, from, caller) {
      var left: Uint256 := Allowance(t, from, caller) - value;
      var s := t.(allowed := t.allowed[(from, caller) := left]);
      TransferExactly(s, from, to, value);
      hide Moved;
    }
  }

  // approve sets one allowance.
  lemma ApproveSets(t: Token, caller: Address, spender: Address, value: Uint256)
    ensures var u := Approved(t, caller, spender, value);
      && u == t.(allowed := u.allowed)
      && forall o: Address, s: Address ::
           Allowance(u, o, s) == if o == caller && s == spender then value else Allowance(t, o, s)
  {
  }

  // mintValue_ fails only where the supply overflows, burnValue_ only for want of balance; both move the supply
  // with the balance.
  lemma MintExactly(t: Token, who: Address, value: nat)
    requires SupplyOk(t)
    ensures var r := Minted(t, who, value);
      && (r.Ok? <==> t.totalSupply + value < U256)
      && (r.Ok? ==>
            && r.value.totalSupply == t.totalSupply + value && r.value.allowed == t.allowed
            && forall k: Address ::
                 AmountOf(r.value.balances, k) == AmountOf(t.balances, k) + if k == who then value else 0)
  {
    SumAtLeast(t.balances, who);
    assert Get(t.balances, who) == AmountOf(t.balances, who);
  }

  lemma BurnExactly(t: Token, who: Address, value: nat)
    requires SupplyOk(t)
    ensures var r := Burned(t, who, value);
      && (r.Ok? <==> value <= AmountOf(t.balances, who))
      && (r.Ok? ==>
            && r.value.totalSupply == t.totalSupply - value && r.value.allowed == t.allowed
            && forall k: Address ::
                 AmountOf(r.value.balances, k) == AmountOf(t.balances, k) - if k == who then value else 0)
  {
    SumAtLeast(t.balances, who);
    assert Get(t.balances, who) == AmountOf(t.balances, who);
  }

  function RecordOf(rec: Recorded, token: Address, user: Address): Uint256 {
    AmountOf(UserAmounts(rec, token), user)
  }

  // A payout lowers the caller's record and pays the receiver out of the wrapper's balance; nobody else's record
  // changes.
  lemma PayoutMoves(rec: Recorded, t: Token, wrapper: Address, token: Address, caller: Address, to: Address, value: nat)
    requires PaidOut(rec, t, wrapper, token, caller, to, value).Ok?
    ensures var (rec1, u) := PaidOut(rec, t, wrapper, token, caller, to, value).value;
      && u == t.(balances := u.balances) && BalancesMoved(t, u, wrapper, to, value)
      && forall k: Address, user: Address :: RecordOf(rec1, k, user)
           == RecordOf(rec, k, user) - if k == token && user == caller then value else 0
  {
    MovedAt(t, wrapper, to, value);
    hide Moved;
  }

  // A deposit moves the caller's tokens to the wrapper, spends the allowance and raises the caller's record.
  lemma DepositMoves(rec: Recorded, t: Token, wrapper: Address, token: Address, caller: Address, value: nat)
    requires SupplyOk(t) && PaidIn(rec, t, wrapper, token, caller, value).Ok?
    ensures var (rec1, u) := PaidIn(rec, t, wrapper, token, caller, value).value;
      && BalancesMoved(t, u, caller, wrapper, value)
      && Allowance(u, caller, wrapper) == Allowance(t, caller, wrapper) - value
      && forall k: Address, user: Address :: RecordOf(rec1, k, user)
           == RecordOf(rec, k, user) + if k == token && user == caller then value else 0
  {
    TransferFromExactly(t, wrapper, caller, wrapper, value);
    hide MovedFrom, SupplyOk;
  }
}
