/**
 The ERC20 template and the wrapper that keeps deposits of it per user:
 src/contract/templates/erc20.cpp and erc20wrapper.cpp. A call that throws is undone
 by the SafeVariables, also across the nested call.
 */
module Erc20Wrapper {
  import opened Outcomes
  import opened Words
  import opened Sums

  type Uint256 = n: int | 0 <= n < U256
  type Amounts = map<Address, Uint256>

  datatype Token = Token(balances: Amounts, allowed: map<(Address, Address), Uint256>, totalSupply: Uint256)

  // tokensAndBalances_: for each token what each user has deposited.
  type Recorded = map<Address, Amounts>

  function AmountOf(m: Amounts, a: Address): Uint256 {
    if a in m then m[a] else 0
  }

  /* Checked arithmetic on an entry */

  function Raised(m: Amounts, a: Address, v: nat): Outcome<Amounts> {
    if AmountOf(m, a) + v >= U256 then Throws else Ok(m[a := AmountOf(m, a) + v])
  }

  function Lowered(m: Amounts, a: Address, v: nat): Outcome<Amounts> {
    if AmountOf(m, a) < v then Throws else Ok(m[a := AmountOf(m, a) - v])
  }

  /* ERC20 */

  function Moved(t: Token, from: Address, to: Address, value: nat): Outcome<Token> {
    var less :- Lowered(t.balances, from, value);
    var more :- Raised(less, to, value);
    Ok(t.(balances := more))
  }

  function Allowance(t: Token, owner: Address, spender: Address): Uint256 {
    if (owner, spender) in t.allowed then t.allowed[(owner, spender)] else 0
  }

  function MovedFrom(t: Token, caller: Address, from: Address, to: Address, value: nat): Outcome<Token> {
    if Allowance(t, from, caller) < value then Throws
    else
      var left: Uint256 := Allowance(t, from, caller) - value;
      Moved(t.(allowed := t.allowed[(from, caller) := left]), from, to, value)
  }

  function Approved(t: Token, caller: Address, spender: Address, value: Uint256): Token {
    t.(allowed := t.allowed[(caller, spender) := value])
  }

  function Minted(t: Token, who: Address, value: nat): Outcome<Token> {
    var more :- Raised(t.balances, who, value);
    if t.totalSupply + value >= U256 then Throws else Ok(t.(balances := more, totalSupply := t.totalSupply + value))
  }

  function Burned(t: Token, who: Address, value: nat): Outcome<Token> {
    var less :- Lowered(t.balances, who, value);
    if t.totalSupply < value then Throws else Ok(t.(balances := less, totalSupply := t.totalSupply - value))
  }

  class Erc20 {
    var balances: Amounts
    var allowed: map<(Address, Address), Uint256>
    var totalSupply: Uint256

    function View(): Token
      reads this
    {
      Token(balances, allowed, totalSupply)
    }

    constructor ()
      ensures View() == Token(map[], map[], 0)
    {
      balances, allowed, totalSupply := map[], map[], 0;
    }

    method Undo(saved: Token)
      modifies this
      ensures View() == saved
    {
      balances, allowed, totalSupply := saved.balances, saved.allowed, saved.totalSupply;
    }

    method Lower(a: Address, v: nat) returns (ok: bool)
      modifies this`balances
      ensures var r := Lowered(old(balances), a, v); ok == r.Ok? && balances == if ok then r.value else old(balances)
    {
      ok := AmountOf(balances, a) >= v;
      if ok {
        balances := balances[a := AmountOf(balances, a) - v];
      }
    }

    method Raise(a: Address, v: nat) returns (ok: bool)
      modifies this`balances
      ensures var r := Raised(old(balances), a, v); ok == r.Ok? && balances == if ok then r.value else old(balances)
    {
      ok := AmountOf(balances, a) + v < U256;
      if ok {
        balances := balances[a := AmountOf(balances, a) + v];
      }
    }

    method Transfer(caller: Address, to: Address, value: nat) returns (ok: bool)
      modifies this
      ensures Result(ok, old(View()), View(), Moved(old(View()), caller, to, value))
    {
      hide Lowered, Raised;
      var saved := View();
      ok := Lower(caller, value);
      if ok {
        ok := Raise(to, value);
      }
      if !ok {
        Undo(saved);
      }
    }

    method Approve(caller: Address, spender: Address, value: Uint256)
      modifies this
      ensures View() == Approved(old(View()), caller, spender, value)
    {
      allowed := allowed[(caller, spender) := value];
    }

    method TransferFrom(caller: Address, from: Address, to: Address, value: nat) returns (ok: bool)
      modifies this
      ensures Result(ok, old(View()), View(), MovedFrom(old(View()), caller, from, to, value))
    {
      hide Lowered, Raised;
      var saved := View();
      var allowance := Allowance(View(), from, caller);
      if allowance < value {
        return false;
      }
      allowed := allowed[(from, caller) := allowance - value];
      ok := Lower(from, value);
      if ok {
        ok := Raise(to, value);
      }
      if !ok {
        Undo(saved);
      }
    }

    method MintValue(who: Address, value: nat) returns (ok: bool)
      modifies this
      ensures Result(ok, old(View()), View(), Minted(old(View()), who, value))
    {
      hide Raised;
      var saved := View();
      ok := Raise(who, value);
      if ok && totalSupply + value < U256 {
        totalSupply := totalSupply + value;
      } else {
        Undo(saved);
        ok := false;
      }
    }

    method BurnValue(who: Address, value: nat) returns (ok: bool)
      modifies this
      ensures Result(ok, old(View()), View(), Burned(old(View()), who, value))
    {
      hide Lowered;
      var saved := View();
      ok := Lower(who, value);
      if ok && totalSupply >= value {
        totalSupply := totalSupply - value;
      } else {
        Undo(saved);
        ok := false;
      }
    }
  }

  predicate Result(ok: bool, before: Token, now: Token, spec: Outcome<Token>) {
    ok == spec.Ok? && now == if ok then spec.value else before
  }

  /* The wrapper */

  function UserAmounts(rec: Recorded, token: Address): Amounts {
    if token in rec then rec[token] else map[]
  }

  // withdraw and transferTo: more than the value must be recorded.
  function PaidOut(rec: Recorded, t: Token, wrapper: Address, token: Address, caller: Address, to: Address, value: nat)
    : Outcome<(Recorded, Token)>
  {
    if token !in rec || caller !in rec[token] || rec[token][caller] <= value then Throws
    else
      var users: Amounts := rec[token];
      var left: Amounts := users[caller := users[caller] - value];
      var paid :- Moved(t, wrapper, to, value);
      Ok((rec[token := left], paid))
  }

  function PaidIn(rec: Recorded, t: Token, wrapper: Address, token: Address, caller: Address, value: nat)
    : Outcome<(Recorded, Token)>
  {
    var paid :- MovedFrom(t, wrapper, caller, wrapper, value);
    var more :- Raised(UserAmounts(rec, token), caller, value);
    Ok((rec[token := more], paid))
  }

  class Erc20Wrapper {
    const address: Address
    const tokens: map<Address, Erc20>  // the deployed tokens; a call to any other address throws
    var tokensAndBalances: Recorded

    constructor (address: Address, tokens: map<Address, Erc20>)
      ensures this.address == address && this.tokens == tokens && tokensAndBalances == map[]
    {
      this.address, this.tokens, tokensAndBalances := address, tokens, map[];
    }

    method Withdraw(token: Address, caller: Address, value: nat) returns (ok: bool)
      modifies this, tokens.Values
      ensures token !in tokens ==> !ok && tokensAndBalances == old(tokensAndBalances)
      ensures token in tokens ==>
                Paid(ok, old(tokensAndBalances), old(tokens[token].View()), tokensAndBalances, tokens[token].View(),
                     PaidOut(old(tokensAndBalances), old(tokens[token].View()), address, token, caller, caller, value))
      ensures forall a :: a in tokens && (token !in tokens || tokens[a] != tokens[token]) ==>
                            tokens[a].View() == old(tokens[a].View())
    {
      ok := TransferTo(token, caller, caller, value);
    }

    method TransferTo(token: Address, caller: Address, to: Address, value: nat) returns (ok: bool)
      modifies this, tokens.Values
      ensures token !in tokens ==> !ok && tokensAndBalances == old(tokensAndBalances)
      ensures token in tokens ==>
                Paid(ok, old(tokensAndBalances), old(tokens[token].View()), tokensAndBalances, tokens[token].View(),
                     PaidOut(old(tokensAndBalances), old(tokens[token].View()), address, token, caller, to, value))
      ensures forall a :: a in tokens && (token !in tokens || tokens[a] != tokens[token]) ==>
                            tokens[a].View() == old(tokens[a].View())
    {
      hide Moved;
      var saved := tokensAndBalances;
      if token !in tokensAndBalances {
        return false;
      }
      var users: Amounts := tokensAndBalances[token];
      if caller !in users {
        return false;
      }
      if users[caller] <= value {
        return false;
      }
      users := users[caller := users[caller] - value];
      tokensAndBalances := tokensAndBalances[token := users];
      if token !in tokens {
        tokensAndBalances := saved;
        return false;
      }
      ok := tokens[token].Transfer(address, to, value);
      if !ok {
        tokensAndBalances := saved;
      }
    }

    method Deposit(token: Address, caller: Address, value: nat) returns (ok: bool)
      modifies this, tokens.Values
      ensures token !in tokens ==> !ok && tokensAndBalances == old(tokensAndBalances)
      ensures token in tokens ==>
                Paid(ok, old(tokensAndBalances), old(tokens[token].View()), tokensAndBalances, tokens[token].View(),
                     PaidIn(old(tokensAndBalances), old(tokens[token].View()), address, token, caller, value))
      ensures forall a :: a in tokens && (token !in tokens || tokens[a] != tokens[token]) ==>
                            tokens[a].View() == old(tokens[a].View())
    {
      hide MovedFrom;
      if token !in tokens {
        return false;
      }
      var savedToken := tokens[token].View();
      ok := tokens[token].TransferFrom(address, caller, address, value);
      if !ok {
        return;
      }
      var users: Amounts := UserAmounts(tokensAndBalances, token);
      if AmountOf(users, caller) + value >= U256 {
        tokens[token].Undo(savedToken);
        return false;
      }
      users := users[caller := AmountOf(users, caller) + value];
      tokensAndBalances := tokensAndBalances[token := users];
    }
  }

  predicate Paid(ok: bool, rec0: Recorded, t0: Token, rec: Recorded, t: Token, spec: Outcome<(Recorded, Token)>) {
    ok == spec.Ok? && (rec, t) == if ok then spec.value else (rec0, t0)
  }
}
