/**
 Native contract calls move balances on an overlay that is filled from the accounts
 on demand and written back at the end: src/contract/contractmanager.cpp,
 src/contract/contractcalllogger.h and processContractPayable of src/core/state.cpp.
 */
module Overlay {
  import opened Outcomes
  import opened Words
  import opened Sums
  import opened Accounts

  type BalanceMap = map<Address, Uint256>

  // What the code of a contract does to native balances.
  datatype Action = Send(from: Address, to: Address, amount: nat) | Read(who: Address)

  function Populated(a: Table, o: BalanceMap, k: Address): (p: BalanceMap)
    ensures k in p
  {
    if k in o then o else o[k := Balance(a, k)]
  }

  // sendTokens; the addition is checked, too.
  function Sent(a: Table, o: BalanceMap, from: Address, to: Address, amount: nat): Outcome<BalanceMap> {
    var p := Populated(a, Populated(a, o, from), to);
    if p[from] < amount then Throws
    else
      var less := p[from := p[from] - amount];
      if less[to] + amount >= U256 then Throws else Ok(less[to := less[to] + amount])
  }

  // The overlay and what the reads have returned.
  function Acted(a: Table, o: BalanceMap, act: Action): Outcome<(BalanceMap, seq<nat>)> {
    match act
    case Send(from, to, amount) =>
      var sent :- Sent(a, o, from, to, amount);
      Ok((sent, []))
    case Read(who) =>
      var p := Populated(a, o, who);
      Ok((p, [p[who]]))
  }

  // A throwing action ends the call.
  function ActedAll(a: Table, o: BalanceMap, acts: seq<Action>): Outcome<(BalanceMap, seq<nat>)>
    decreases |acts|
  {
    if acts == [] then Ok((o, []))
    else
      var (first, read) :- Acted(a, o, acts[0]);
      var (rest, seen) :- ActedAll(a, first, acts[1..]);
      Ok((rest, read + seen))
  }

  /* The same actions directly on the accounts */

  function Transferred(b: Table, from: Address, to: Address, amount: nat): After {
    var debited :- Debit(b, from, amount);
    Credit(debited, to, amount)
  }

  function ActedDirectly(b: Table, acts: seq<Action>): Outcome<(Table, seq<nat>)>
    decreases |acts|
  {
    if acts == [] then Ok((b, []))
    else
      match acts[0]
      case Read(who) =>
        var (rest, seen) :- ActedDirectly(b, acts[1..]);
        Ok((rest, [Balance(b, who)] + seen))
      case Send(from, to, amount) =>
        var t := Transferred(b, from, to, amount);
        if t.Done? then ActedDirectly(t.accounts, acts[1..]) else Throws
  }

  /* The class */

  class ContractManager {
    var accounts: Table                 // the accounts of the state
    var callLogger: Option<BalanceMap>   // balances_ of the active call logger

    constructor (accounts: Table)
      ensures this.accounts == accounts && callLogger == None
    {
      this.accounts, callLogger := accounts, None;
    }

    method PopulateBalance(k: Address)
      requires callLogger.Some?
      modifies this`callLogger
      ensures callLogger == Some(Populated(accounts, old(callLogger).value, k))
    {
      if k !in callLogger.value {
        callLogger := Some(callLogger.value[k := if k in accounts then accounts[k].balance else 0]);
      }
    }

    method GetBalanceFromAddress(k: Address) returns (r: Outcome<nat>)
      modifies this`callLogger
      ensures old(callLogger).None? ==> r == Throws && callLogger == None
      ensures old(callLogger).Some? ==>
                callLogger == Some(Populated(accounts, old(callLogger).value, k)) && r == Ok(callLogger.value[k])
    {
      if callLogger.None? {
        return Throws;
      }
      PopulateBalance(k);
      r := Ok(callLogger.value[k]);
    }

    method SendTokens(from: Address, to: Address, amount: nat) returns (ok: bool)
      modifies this`callLogger
      ensures old(callLogger).None? ==> !ok && callLogger == None
      ensures old(callLogger).Some? ==> callLogger.Some?
      ensures old(callLogger).Some? ==>
                var r := Sent(accounts, old(callLogger).value, from, to, amount);
                ok == r.Ok? && (ok ==> callLogger == Some(r.value))
    {
      if callLogger.None? {
        return false;
      }
      PopulateBalance(from);
      PopulateBalance(to);
      if callLogger.value[from] < amount {
        return false;
      }
      callLogger := Some(callLogger.value[from := callLogger.value[from] - amount]);
      ok := callLogger.value[to] + amount < U256;
      if ok {
        callLogger := Some(callLogger.value[to := callLogger.value[to] + amount]);
      }
    }

    method RunContract(acts: seq<Action>) returns (ok: bool, seen: seq<nat>)
      requires callLogger.Some?
      modifies this`callLogger
      ensures callLogger.Some?
      ensures var r := ActedAll(accounts, old(callLogger).value, acts);
        ok == r.Ok? && (ok ==> r.value == (callLogger.value, seen))
    {
      seen := [];
      assert acts[0..] == acts;
      PrependStep([], [], ActedAll(accounts, callLogger.value, acts));
      for i := 0 to |acts|
        invariant callLogger.Some?
        invariant ActedAll(accounts, old(callLogger).value, acts)
               == Prepend(seen, ActedAll(accounts, callLogger.value, acts[i..]))
      {
        assert acts[i..][1..] == acts[i + 1..];
        match acts[i] {
          case Send(from, to, amount) =>
            ok := SendTokens(from, to, amount);
            if !ok {
              return;
            }
            PrependStep(seen, [], ActedAll(accounts, callLogger.value, acts[i + 1..]));
          case Read(who) =>
            var balance := GetBalanceFromAddress(who);
            PrependStep(seen, [balance.value], ActedAll(accounts, callLogger.value, acts[i + 1..]));
            seen := seen + [balance.value];
        }
      }
      assert seen + [] == seen;
      ok := true;
    }

    // callContract of a transaction: the overlay is dropped when the contract throws, written back when the
    // function is payable.
    method CallContract(known: bool, acts: seq<Action>, throws: bool, payable: bool) returns (ok: bool)
      modifies this
      ensures callLogger == None
      ensures var r := ActedAll(old(accounts), map[], acts);
        ok == (known && r.Ok? && !throws)
        && accounts == if ok && payable then SetBalances(old(accounts), r.value.0) else old(accounts)
    {
      callLogger := Some(map[]);
      if !known {
        callLogger := None;
        return false;
      }
      var ran, seen := RunContract(acts);
      if !ran || throws {
        callLogger := None;
        return false;
      }
      if payable {
        accounts := SetBalances(accounts, callLogger.value);
      }
      callLogger := None;
      ok := true;
    }

    // A dry run: whatever happens, only the overlay has changed, and it is dropped.
    method ValidateCallContractWithTx(from: Address, to: Address, value: nat, known: bool, acts: seq<Action>,
                                      throws: bool)
      returns (r: Outcome<bool>)
      modifies this`callLogger
      ensures callLogger == None
      ensures r == var paid := if value > 0 then Sent(accounts, map[], from, to, value) else Ok(map[]);
        if !paid.Ok? then Throws
        else if !known then Ok(false)
        else if throws || !ActedAll(accounts, paid.value, acts).Ok? then Throws
        else Ok(true)
    {
      callLogger := Some(map[]);
      if value > 0 {
        var paid := SendTokens(from, to, value);
        if !paid {
          callLogger := None;
          return Throws;
        }
      }
      if !known {
        callLogger := None;
        return Ok(false);
      }
      var ran, seen := RunContract(acts);
      callLogger := None;
      r := if !ran || throws then Throws else Ok(true);
    }
  }

  function Prepend(seen: seq<nat>, r: Outcome<(BalanceMap, seq<nat>)>): Outcome<(BalanceMap, seq<nat>)> {
    if r.Ok? then Ok((r.value.0, seen + r.value.1)) else r
  }

  lemma PrependStep(seen: seq<nat>, read: seq<nat>, r: Outcome<(BalanceMap, seq<nat>)>)
    ensures Prepend(seen + read, r) == Prepend(seen, Prepend(read, r))
    ensures Prepend([], r) == r
  {
    if r.Ok? {
      assert seen + read + r.value.1 == seen + (read + r.value.1);
      assert [] + r.value.1 == r.value.1;
    }
  }

  /* The overlay refines direct transfers */

  // The accounts with the overlay written over them.
  function Flushed(a: Table, o: BalanceMap): Table {
    SetBalances(a, o)
  }

  // Equal but for accounts that are empty in one table and absent in the other.
  ghost predicate Alike(x: Table, y: Table) {
    forall k :: Balance(x, k) == Balance(y, k) && Nonce(x, k) == Nonce(y, k) && HasCode(x, k) == HasCode(y, k)
  }

  // The balance an overlay stands for.
  function Shown(a: Table, o: BalanceMap, k: Address): nat {
    if k in o then o[k] else Balance(a, k)
  }

  lemma FlushedAt(a: Table, o: BalanceMap, k: Address)
    ensures Balance(Flushed(a, o), k) == Shown(a, o, k)
    ensures Nonce(Flushed(a, o), k) == Nonce(a, k) && HasCode(Flushed(a, o), k) == HasCode(a, k)
  {
  }

  lemma PopulateIsAlike(a: Table, o: BalanceMap, k: Address)
    ensures Alike(Flushed(a, o), Flushed(a, Populated(a, o, k)))
  {
    forall j
      ensures Balance(Flushed(a, o), j) == Balance(Flushed(a, Populated(a, o, k)), j)
           && Nonce(Flushed(a, o), j) == Nonce(Flushed(a, Populated(a, o, k)), j)
           && HasCode(Flushed(a, o), j) == HasCode(Flushed(a, Populated(a, o, k)), j)
    {
      FlushedAt(a, o, j);
      FlushedAt(a, Populated(a, o, k), j);
    }
  }

  lemma StepsKeepCode(b: Table, k: Address, v: nat)
    ensures !Credit(b, k, v).Broken? && !Debit(b, k, v).Broken?
    ensures forall j :: HasCode(Credit(b, k, v).accounts, j) == HasCode(b, j)
    ensures forall j :: HasCode(Debit(b, k, v).accounts, j) == HasCode(b, j)
  {
  }

  // A direct transfer, balance by balance.
  lemma TransferredAt(b: Table, from: Address, to: Address, amount: nat)
    ensures var t := Transferred(b, from, to, amount);
      t.Done? <==> amount <= Balance(b, from) && (from != to ==> Balance(b, to) + amount < U256)
    ensures var t := Transferred(b, from, to, amount);
      t.Done? ==>
        forall k :: Balance(t.accounts, k)
                 == Balance(b, k) - (if k == from then amount else 0) + (if k == to then amount else 0)
                 && Nonce(t.accounts, k) == Nonce(b, k) && HasCode(t.accounts, k) == HasCode(b, k)
    ensures Transferred(b, from, to, amount).Done? ==> Total(Transferred(b, from, to, amount).accounts) == Total(b)
  {
    hide Debit, Credit, HasCode, Total;
    assert Balance(b, from) < U256 && Balance(b, to) < U256;
    DebitMoves(b, from, amount);
    StepsKeepCode(b, from, amount);
    var d := Debit(b, from, amount).accounts;
    CreditMoves(d, to, amount);
    StepsKeepCode(d, to, amount);
    hide Balance;
  }

  // One sendTokens, balance by balance.
  lemma SentAt(a: Table, o: BalanceMap, from: Address, to: Address, amount: nat)
    ensures var sent := Sent(a, o, from, to, amount);
      sent.Ok? <==> amount <= Shown(a, o, from) && (from != to ==> Shown(a, o, to) + amount < U256)
    ensures var sent := Sent(a, o, from, to, amount);
      sent.Ok? ==>
        forall k :: Shown(a, sent.value, k)
                 == Shown(a, o, k) - (if k == from then amount else 0) + (if k == to then amount else 0)
  {
    hide Balance;
  }

  // One sendTokens succeeds exactly when the transfer does, and then agrees with it.
  lemma SendRefines(a: Table, o: BalanceMap, b: Table, from: Address, to: Address, amount: nat)
    requires Alike(Flushed(a, o), b)
    ensures Sent(a, o, from, to, amount).Ok? <==> Transferred(b, from, to, amount).Done?
    ensures Sent(a, o, from, to, amount).Ok? ==>
              Alike(Flushed(a, Sent(a, o, from, to, amount).value), Transferred(b, from, to, amount).accounts)
  {
    hide Sent, Transferred, Flushed, Shown, Balance, Nonce, HasCode;
    TransferredAt(b, from, to, amount);
    SentAt(a, o, from, to, amount);
    FlushedAt(a, o, from);
    FlushedAt(a, o, to);
    var sent, t := Sent(a, o, from, to, amount), Transferred(b, from, to, amount);
    if sent.Ok? {
      forall k
        ensures Balance(Flushed(a, sent.value), k) == Balance(t.accounts, k)
             && Nonce(Flushed(a, sent.value), k) == Nonce(t.accounts, k)
             && HasCode(Flushed(a, sent.value), k) == HasCode(t.accounts, k)
      {
        FlushedAt(a, o, k);
        FlushedAt(a, sent.value, k);
      }
    }
  }

  lemma ReadRefines(a: Table, o: BalanceMap, b: Table, who: Address)
    requires Alike(Flushed(a, o), b)
    ensures Alike(Flushed(a, Populated(a, o, who)), b)
    ensures who in Populated(a, o, who) && Populated(a, o, who)[who] == Balance(b, who)
  {
    PopulateIsAlike(a, o, who);
    FlushedAt(a, Populated(a, o, who), who);
    hide Flushed, Balance, Nonce, HasCode;
  }

  lemma ActedUnfolds(a: Table, o: BalanceMap, acts: seq<Action>)
    requires acts != []
    ensures acts[0].Send? ==>
      var sent := Sent(a, o, acts[0].from, acts[0].to, acts[0].amount);
      ActedAll(a, o, acts) == if sent.Ok? then ActedAll(a, sent.value, acts[1..]) else Throws
    ensures acts[0].Read? ==>
      var p := Populated(a, o, acts[0].who);
      ActedAll(a, o, acts) == Prepend([p[acts[0].who]], ActedAll(a, p, acts[1..]))
  {
    if acts[0].Send? {
      var sent := Sent(a, o, acts[0].from, acts[0].to, acts[0].amount);
      if sent.Ok? {
        PrependStep([], [], ActedAll(a, sent.value, acts[1..]));
      }
    }
  }

  // Any sequence of sends and reads: the same successes and failures, the same balances read, and flushing the
  // overlay gives the accounts of the direct transfers.
  lemma {:induction false} OverlayRefines(a: Table, o: BalanceMap, b: Table, acts: seq<Action>)
    requires Alike(Flushed(a, o), b)
    ensures ActedAll(a, o, acts).Ok? <==> ActedDirectly(b, acts).Ok?
    ensures ActedAll(a, o, acts).Ok? ==>
      ActedAll(a, o, acts).value.1 == ActedDirectly(b, acts).value.1
      && Alike(Flushed(a, ActedAll(a, o, acts).value.0), ActedDirectly(b, acts).value.0)
    decreases |acts|
  {
    if acts != [] {
      ActedUnfolds(a, o, acts);
      hide Flushed, Sent, Transferred, Alike, Balance, Populated, ActedAll;
      match acts[0] {
        case Send(from, to, amount) =>
          SendRefines(a, o, b, from, to, amount);
          if Sent(a, o, from, to, amount).Ok? {
            OverlayRefines(a, Sent(a, o, from, to, amount).value, Transferred(b, from, to, amount).accounts, acts[1..]);
          }
        case Read(who) =>
          ReadRefines(a, o, b, who);
          OverlayRefines(a, Populated(a, o, who), b, acts[1..]);
      }
    }
  }

  lemma {:induction false} DirectConserves(b: Table, acts: seq<Action>)
    requires ActedDirectly(b, acts).Ok?
    ensures Total(ActedDirectly(b, acts).value.0) == Total(b)
    decreases |acts|
  {
    hide Total, Transferred;
    if acts != [] {
      match acts[0] {
        case Send(from, to, amount) =>
          TransferredAt(b, from, to, amount);
          DirectConserves(Transferred(b, from, to, amount).accounts, acts[1..]);
        case Read(_) =>
          DirectConserves(b, acts[1..]);
      }
    }
  }

  // Tables that are alike have the same total.
  lemma AlikeTotals(x: Table, y: Table)
    requires Alike(x, y)
    ensures Total(x) == Total(y)
  {
    var both: map<Address, nat> := map k | k in x.Keys + y.Keys :: Balance(x, k);
    assert forall k :: k in both ==> both[k] == Get(Balances(x), k) && both[k] == Balance(y, k) == Get(Balances(y), k);
    SumOfExtended(Balances(x), both);
    SumOfExtended(Balances(y), both);
  }

  // A payable call as callContract makes it: flushing conserves the total and matches the direct transfers.
  lemma CallRefines(a: Table, acts: seq<Action>)
    ensures ActedAll(a, map[], acts).Ok? <==> ActedDirectly(a, acts).Ok?
    ensures ActedAll(a, map[], acts).Ok? ==>
      var flushed := SetBalances(a, ActedAll(a, map[], acts).value.0);
      Alike(flushed, ActedDirectly(a, acts).value.0) && Total(flushed) == Total(a)
  {
    assert Flushed(a, map[]) == a;
    OverlayRefines(a, map[], a, acts);
    if ActedAll(a, map[], acts).Ok? {
      DirectConserves(a, acts);
      AlikeTotals(SetBalances(a, ActedAll(a, map[], acts).value.0), ActedDirectly(a, acts).value.0);
    }
  }
}
