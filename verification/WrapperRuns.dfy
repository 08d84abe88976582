/**
 Runs of ERC20 tokens and of the wrapper: the wrapper always owns what it owes.
 */
module WrapperRuns {
  import opened Outcomes
  import opened Words
  import opened Sums
  import opened Erc20Wrapper

  datatype World = World(tokens: map<Address, Token>, recorded: Recorded)

  // mintValue_ and burnValue_ are called by contracts derived from the template.
  datatype Call =
    | Deploy(token: Address)
    | Transfer(token: Address, caller: Address, to: Address, value: nat)
    | Approve(token: Address, caller: Address, spender: Address, amount: Uint256)
    | TransferFrom(token: Address, caller: Address, from: Address, to: Address, value: nat)
    | MintValue(token: Address, who: Address, value: nat)
    | BurnValue(token: Address, who: Address, value: nat)
    | Deposit(token: Address, caller: Address, value: nat)
    | Withdraw(token: Address, caller: Address, value: nat)
    | TransferTo(token: Address, caller: Address, to: Address, value: nat)

  const NEW_TOKEN := Token(map[], map[], 0)

  // What one call does to its token and to the records.
  function Effect(wrapper: Address, rec: Recorded, t: Token, call: Call): Outcome<(Recorded, Token)> {
    match call
    case Deploy(_) => Throws
    case Transfer(_, caller, to, value) =>
      var u :- Moved(t, caller, to, value);
      Ok((rec, u))
    case Approve(_, caller, spender, amount) => Ok((rec, Approved(t, caller, spender, amount)))
    case TransferFrom(_, caller, from, to, value) =>
      var u :- MovedFrom(t, caller, from, to, value);
      Ok((rec, u))
    case MintValue(_, who, value) =>
      var u :- Minted(t, who, value);
      Ok((rec, u))
    case BurnValue(_, who, value) =>
      var u :- Burned(t, who, value);
      Ok((rec, u))
    case Deposit(token, caller, value) => PaidIn(rec, t, wrapper, token, caller, value)
    case Withdraw(token, caller, value) => PaidOut(rec, t, wrapper, token, caller, caller, value)
    case TransferTo(token, caller, to, value) => PaidOut(rec, t, wrapper, token, caller, to, value)
  }

  // A call that throws, or goes to an address without a token, changes nothing.
  function Perform(wrapper: Address, w: World, call: Call): World {
    if call.token !in w.tokens then
      if call.Deploy? then w.(tokens := w.tokens[call.token := NEW_TOKEN]) else w
    else
      var r := Effect(wrapper, w.recorded, w.tokens[call.token], call);
      if r.Ok? then World(w.tokens[call.token := r.value.1], r.value.0) else w
  }

  function Run(wrapper: Address, w: World, calls: seq<Call>): World
    decreases |calls|
  {
    if calls == [] then w else Run(wrapper, Perform(wrapper, w, calls[0]), calls[1..])
  }

  // Nobody acts as the wrapper but the wrapper itself.
  predicate Outside(wrapper: Address, call: Call) {
    match call
    case Deploy(_) => true
    case MintValue(_, _, _) => true
    case BurnValue(_, who, _) => who != wrapper
    case _ => call.caller != wrapper
  }

  /* The invariant */

  ghost predicate SupplyOk(t: Token) {
    t.totalSupply == Sum(t.balances)
  }

  ghost predicate NoAllowance(t: Token, owner: Address) {
    forall spender :: Allowance(t, owner, spender) == 0
  }

  // The wrapper's balance covers all recorded balances of the token.
  ghost predicate Solvent(wrapper: Address, t: Token, users: Amounts) {
    Sum(users) <= AmountOf(t.balances, wrapper)
  }

  ghost predicate TokenOk(wrapper: Address, t: Token, users: Amounts) {
    SupplyOk(t) && NoAllowance(t, wrapper) && Solvent(wrapper, t, users)
  }

  ghost predicate WorldOk(wrapper: Address, w: World) {
    (forall a :: a in w.tokens ==> TokenOk(wrapper, w.tokens[a], UserAmounts(w.recorded, a)))
    && forall a :: a in w.recorded ==> a in w.tokens
  }

  /* Steps */

  lemma RaisedAt(m: Amounts, a: Address, v: nat)
    requires Raised(m, a, v).Ok?
    ensures Sum(Raised(m, a, v).value) == Sum(m) + v
    ensures forall k :: AmountOf(Raised(m, a, v).value, k) == AmountOf(m, k) + if k == a then v else 0
  {
    SumUpdate(m, a, AmountOf(m, a) + v);
  }

  lemma LoweredAt(m: Amounts, a: Address, v: nat)
    requires Lowered(m, a, v).Ok?
    ensures Sum(Lowered(m, a, v).value) == Sum(m) - v
    ensures forall k :: AmountOf(Lowered(m, a, v).value, k) == AmountOf(m, k) - if k == a then v else 0
  {
    SumUpdate(m, a, AmountOf(m, a) - v);
  }

  lemma MovedAt(t: Token, from: Address, to: Address, value: nat)
    requires Moved(t, from, to, value).Ok?
    ensures var u := Moved(t, from, to, value).value;
      u == t.(balances := u.balances) && Sum(u.balances) == Sum(t.balances)
      && forall k :: AmountOf(u.balances, k)
           == AmountOf(t.balances, k) - (if k == from then value else 0) + (if k == to then value else 0)
  {
    LoweredAt(t.balances, from, value);
    RaisedAt(Lowered(t.balances, from, value).value, to, value);
    hide Lowered, Raised, AmountOf;
  }

  // With the supply equal to the sum, a transfer is refused for lack of balance only.
  lemma MovedExactly(t: Token, from: Address, to: Address, value: nat)
    requires SupplyOk(t)
    ensures Moved(t, from, to, value).Ok? <==> value <= AmountOf(t.balances, from)
  {
    if value <= AmountOf(t.balances, from) {
      var less := Lowered(t.balances, from, value).value;
      LoweredAt(t.balances, from, value);
      SumAtLeast(less, to);
      assert Get(less, to) == AmountOf(less, to);
    }
  }

  // Nothing is allowed after a change that leaves the owner's allowances alone or lowers them to zero.
  lemma StillNoAllowance(t: Token, u: Token, owner: Address)
    requires NoAllowance(t, owner)
    requires forall spender :: (owner, spender) in u.allowed ==>
      u.allowed[(owner, spender)] == 0
      || ((owner, spender) in t.allowed && u.allowed[(owner, spender)] == t.allowed[(owner, spender)])
    ensures NoAllowance(u, owner)
  {
    forall spender ensures Allowance(u, owner, spender) == 0 {
      assert Allowance(t, owner, spender) == 0;
    }
  }

  lemma PaidOutKeepsOk(wrapper: Address, rec: Recorded, t: Token, token: Address, caller: Address, to: Address,
                       value: nat)
    requires TokenOk(wrapper, t, UserAmounts(rec, token))
    requires PaidOut(rec, t, wrapper, token, caller, to, value).Ok?
    ensures var (rec1, u) := PaidOut(rec, t, wrapper, token, caller, to, value).value;
      TokenOk(wrapper, u, UserAmounts(rec1, token)) && rec1.Keys == rec.Keys
      && forall a :: a != token ==> UserAmounts(rec1, a) == UserAmounts(rec, a)
  {
    MovedAt(t, wrapper, to, value);
    LoweredAt(rec[token], caller, value);
    StillNoAllowance(t, Moved(t, wrapper, to, value).value, wrapper);
    hide Moved;
  }

  lemma PaidInKeepsOk(wrapper: Address, rec: Recorded, t: Token, token: Address, caller: Address, value: nat)
    requires TokenOk(wrapper, t, UserAmounts(rec, token)) && caller != wrapper
    requires PaidIn(rec, t, wrapper, token, caller, value).Ok?
    ensures var (rec1, u) := PaidIn(rec, t, wrapper, token, caller, value).value;
      TokenOk(wrapper, u, UserAmounts(rec1, token)) && rec1.Keys == rec.Keys + {token}
      && forall a :: a != token ==> UserAmounts(rec1, a) == UserAmounts(rec, a)
  {
    MovedFromKeeps(wrapper, t, wrapper, caller, wrapper, value);
    RaisedAt(UserAmounts(rec, token), caller, value);
    hide MovedFrom, Raised;
  }

  // transferFrom by anyone: what it takes from the wrapper is nothing, because nothing is allowed.
  lemma MovedFromKeeps(wrapper: Address, t: Token, caller: Address, from: Address, to: Address, value: nat)
    requires SupplyOk(t) && NoAllowance(t, wrapper) && MovedFrom(t, caller, from, to, value).Ok?
    ensures var u := MovedFrom(t, caller, from, to, value).value;
      SupplyOk(u) && NoAllowance(u, wrapper)
      && AmountOf(u.balances, wrapper)
         == AmountOf(t.balances, wrapper) + if to == wrapper && from != wrapper then value else 0
  {
    assert from == wrapper ==> value == 0 by {
      assert Allowance(t, wrapper, caller) == 0;
    }
    var left: Uint256 := Allowance(t, from, caller) - value;
    var s := t.(allowed := t.allowed[(from, caller) := left]);
    MovedAt(s, from, to, value);
    StillNoAllowance(t, Moved(s, from, to, value).value, wrapper);
    hide Moved;
  }

  lemma EffectKeepsOk(wrapper: Address, rec: Recorded, t: Token, call: Call)
    requires TokenOk(wrapper, t, UserAmounts(rec, call.token)) && Outside(wrapper, call)
    requires Effect(wrapper, rec, t, call).Ok?
    ensures var (rec1, u) := Effect(wrapper, rec, t, call).value;
      TokenOk(wrapper, u, UserAmounts(rec1, call.token)) && rec1.Keys <= rec.Keys + {call.token}
      && forall a :: a != call.token ==> UserAmounts(rec1, a) == UserAmounts(rec, a)
  {
    match call
    case Transfer(_, caller, to, value) =>
      MovedAt(t, caller, to, value);
      StillNoAllowance(t, Moved(t, caller, to, value).value, wrapper);
      hide Moved;
    case Approve(_, caller, spender, amount) =>
      StillNoAllowance(t, Approved(t, caller, spender, amount), wrapper);
    case TransferFrom(_, caller, from, to, value) =>
      MovedFromKeeps(wrapper, t, caller, from, to, value);
      hide MovedFrom;
    case MintValue(_, who, value) =>
      RaisedAt(t.balances, who, value);
      StillNoAllowance(t, Minted(t, who, value).value, wrapper);
      hide Raised;
    case BurnValue(_, who, value) =>
      LoweredAt(t.balances, who, value);
      StillNoAllowance(t, Burned(t, who, value).value, wrapper);
      hide Lowered;
    case Deposit(token, caller, value) => PaidInKeepsOk(wrapper, rec, t, token, caller, value);
    case Withdraw(token, caller, value) => PaidOutKeepsOk(wrapper, rec, t, token, caller, caller, value);
    case TransferTo(token, caller, to, value) => PaidOutKeepsOk(wrapper, rec, t, token, caller, to, value);
  }

  lemma CallKeepsOk(wrapper: Address, w: World, call: Call)
    requires WorldOk(wrapper, w) && Outside(wrapper, call)
    ensures WorldOk(wrapper, Perform(wrapper, w, call))
  {
    hide Effect, Outside, TokenOk;
    if call.token in w.tokens {
      var r := Effect(wrapper, w.recorded, w.tokens[call.token], call);
      if r.Ok? {
        EffectKeepsOk(wrapper, w.recorded, w.tokens[call.token], call);
      }
    } else if call.Deploy? {
      NewTokenOk(wrapper);
      assert UserAmounts(w.recorded, call.token) == map[];
    }
  }

  lemma NewTokenOk(wrapper: Address)
    ensures TokenOk(wrapper, NEW_TOKEN, map[])
  {
  }

  // Solvency over every run: the supply is the sum of the balances, the wrapper grants no allowance, and its
  // balance of each token covers everything recorded for it.
  lemma {:induction false} WrapperStaysSolvent(wrapper: Address, w: World, calls: seq<Call>)
    requires WorldOk(wrapper, w) && forall i :: 0 <= i < |calls| ==> Outside(wrapper, calls[i])
    ensures WorldOk(wrapper, Run(wrapper, w, calls))
    decreases |calls|
  {
    hide WorldOk, Perform, Outside;
    if calls != [] {
      CallKeepsOk(wrapper, w, calls[0]);
      WrapperStaysSolvent(wrapper, Perform(wrapper, w, calls[0]), calls[1..]);
    }
  }

  // So a user who asks for less than is recorded is always paid: a withdrawal fails only for want of a record,
  // or when it asks for the whole of it or more.
  lemma PaidOutExactly(wrapper: Address, w: World, token: Address, caller: Address, to: Address, value: nat)
    requires WorldOk(wrapper, w) && token in w.tokens
    ensures PaidOut(w.recorded, w.tokens[token], wrapper, token, caller, to, value).Ok?
       <==> value < AmountOf(UserAmounts(w.recorded, token), caller)
  {
    var t, users := w.tokens[token], UserAmounts(w.recorded, token);
    assert TokenOk(wrapper, t, users);
    MovedExactly(t, wrapper, to, value);
    SumAtLeast(users, caller);
    assert Get(users, caller) == AmountOf(users, caller);
  }

  // A deposit fails only for want of allowance or balance.
  lemma PaidInExactly(wrapper: Address, w: World, token: Address, caller: Address, value: nat)
    requires WorldOk(wrapper, w) && token in w.tokens && caller != wrapper
    ensures PaidIn(w.recorded, w.tokens[token], wrapper, token, caller, value).Ok?
       <==> value <= Allowance(w.tokens[token], caller, wrapper) && value <= AmountOf(w.tokens[token].balances, caller)
  {
    var t, users := w.tokens[token], UserAmounts(w.recorded, token);
    assert TokenOk(wrapper, t, users);
    if value <= Allowance(t, caller, wrapper) {
      var left: Uint256 := Allowance(t, caller, wrapper) - value;
      var s := t.(allowed := t.allowed[(caller, wrapper) := left]);
      MovedExactly(s, caller, wrapper, value);
      if value <= AmountOf(t.balances, caller) {
        MovedAt(s, caller, wrapper, value);
        SumAtLeast(users, caller);
        assert Get(users, caller) == AmountOf(users, caller);
      }
    }
  }
}
