/**
 Who may do what with a token of the minting template: each call succeeds exactly
 under a condition on the maps, and over any run a token leaves its owner only by
 right (src/contract/templates/erc721.cpp and erc721mint.cpp).
 */
module NftRights {
  import opened Outcomes
  import opened Words
  import opened Crypto
  import opened Erc721Mint

  predicate Owns(s: TokenState, owner: Address, id: nat) {
    owner != ZERO_ADDRESS && id in s.owners && s.owners[id] == owner
  }

  predicate Operates(s: TokenState, owner: Address, operator: Address) {
    (owner, operator) in s.operatorApprovals && s.operatorApprovals[(owner, operator)]
  }

  // The zero caller, the owner, an operator of the owner, or the address approved for the token.
  predicate MayMove(s: TokenState, caller: Address, owner: Address, id: nat) {
    caller == ZERO_ADDRESS || caller == owner || Operates(s, owner, caller)
    || (id in s.tokenApprovals && s.tokenApprovals[id] == caller)
  }

  // s with the token given to another owner (the zero address for nobody) and its approval cleared.
  ghost predicate Handed(s: TokenState, t: TokenState, from: Address, to: Address, id: nat) {
    t == s.(owners := s.owners[id := to], tokenApprovals := s.tokenApprovals[id := ZERO_ADDRESS],
            balances := t.balances, preBurned := t.preBurned, rarity := t.rarity)
    && BalancesMove(s, t, from, to)
  }

  ghost predicate BalancesMove(s: TokenState, t: TokenState, from: Address, to: Address) {
    forall a: Address :: a != ZERO_ADDRESS ==>
      BalanceOf_(t, a) == BalanceOf_(s, a) - (if a == from then 1 else 0) + (if a == to then 1 else 0)
  }

  lemma OwnersCanGive(g: Config, s: TokenState, from: Address, to: Address, id: nat)
    requires StateOk(g, s) && Owns(s, from, id)
    ensures BalanceOf_(s, from) > 0
    ensures to != ZERO_ADDRESS && to != from ==> BalanceOf_(s, to) + 1 < U256
    ensures id < s.tokenIdCounter
  {
    assert Partitioned(s, id);
    assert id in OwnedBy(s, from);
    assert BalanceOf_(s, from) == |OwnedBy(s, from)|;
    if to != ZERO_ADDRESS && to != from {
      var ids := OwnedBy(s, to);
      forall j | j in ids + {id} ensures j < s.tokenIdCounter {
        assert Partitioned(s, j);
      }
      BelowCount(ids + {id}, s.tokenIdCounter);
      assert BalanceOf_(s, to) == |ids| && |ids + {id}| == |ids| + 1;
    }
  }

  lemma UpdateOfOwned(g: Config, s: TokenState, from: Address, to: Address, id: nat, auth: Address)
    requires StateOk(g, s) && Owns(s, from, id)
    ensures Update(s, to, id, auth).Ok? <==> auth == ZERO_ADDRESS || IsAuthorized(s, from, auth, id)
    ensures Update(s, to, id, auth).Ok? ==>
      var t := Update(s, to, id, auth).value;
      t.preBurned == s.preBurned && t.rarity == s.rarity && Handed(s, t, from, to, id)
  {
    OwnersCanGive(g, s, from, to, id);
    hide StateOk, IsAuthorized, BalanceOf_;
    LeaveOfOwned(s, from, id);
    if Update(s, to, id, auth).Ok? {
      UpdateEffects(s, to, id, auth);
    }
  }

  lemma LeaveOfOwned(s: TokenState, from: Address, id: nat)
    requires from != ZERO_ADDRESS && BalanceOf_(s, from) > 0
    ensures Leave(s, from, id).Ok?
    ensures var t := Leave(s, from, id).value;
      t.tokenApprovals == s.tokenApprovals[id := ZERO_ADDRESS]
      && forall a: Address :: BalanceOf_(t, a) == BalanceOf_(s, a) - if a == from then 1 else 0
  {
  }

  lemma AuthorizedExactly(s: TokenState, owner: Address, caller: Address, id: nat)
    requires owner != ZERO_ADDRESS
    ensures caller == ZERO_ADDRESS || IsAuthorized(s, owner, caller, id) <==> MayMove(s, caller, owner, id)
  {
  }

  // transferFrom succeeds exactly for a real receiver and a real owner, called by one who may move the token; it
  // then changes the owner, clears the approval and moves one unit of balance, and nothing else.
  lemma TransferSucceedsExactly(g: Config, s: TokenState, caller: Address, from: Address, to: Address, id: nat)
    requires StateOk(g, s)
    ensures var r := TransferredFrom(s, caller, from, to, id);
      && (r.Ok? <==> to != ZERO_ADDRESS && Owns(s, from, id) && MayMove(s, caller, from, id))
      && (r.Ok? ==> Handed(s, r.value, from, to, id) && r.value.preBurned == s.preBurned && r.value.rarity == s.rarity)
  {
    hide StateOk, Update, IsAuthorized, MayMove, Handed;
    var owner := OwnerOf_(s, id);
    if owner != ZERO_ADDRESS {
      UpdateOfOwned(g, s, owner, to, id, caller);
      AuthorizedExactly(s, owner, caller, id);
    }
  }

  // approve succeeds exactly on a token with an owner, for the zero caller, the owner or an operator.
  lemma ApproveSucceedsExactly(s: TokenState, caller: Address, to: Address, id: nat, owner: Address)
    requires OwnerOf_(s, id) == owner
    ensures var r := Approved(s, caller, to, id);
      && (r.Ok? <==> Owns(s, owner, id) && (caller == ZERO_ADDRESS || caller == owner || Operates(s, owner, caller)))
      && (r.Ok? ==> r.value == s.(tokenApprovals := s.tokenApprovals[id := to]))
  {
  }

  // preBurn succeeds exactly for the owner: the token leaves it and is entered as pre-burned under its name.
  lemma PreBurnSucceedsExactly(g: Config, s: TokenState, caller: Address, id: nat)
    requires StateOk(g, s)
    ensures var r := PreBurned(s, caller, id);
      && (r.Ok? <==> Owns(s, caller, id))
      && (r.Ok? ==>
            && Handed(s, r.value, caller, ZERO_ADDRESS, id)
            && id in s.rarity && r.value.rarity == s.rarity
            && r.value.preBurned
               == s.preBurned[id := BurnedToken(true, caller, 0, ZERO_HASH, ZERO_HASH, s.rarity[id])])
  {
    if Owns(s, caller, id) {
      UpdateOfOwned(g, s, caller, ZERO_ADDRESS, id, ZERO_ADDRESS);
      OwnersCanGive(g, s, caller, ZERO_ADDRESS, id);
      assert s.rarity[id := s.rarity[id]] == s.rarity;
      hide StateOk, Update, Owns;
      assert BalancesMove(s, Update(s, ZERO_ADDRESS, id, ZERO_ADDRESS).value, caller, ZERO_ADDRESS);
    }
  }

  // A mint gives the next id to its receiver, with a rarity drawn from the random number.
  lemma MintGives(g: Config, s: TokenState, to: Address, random: nat)
    requires StateOk(g, s) && Minted(g, s, to, random).Ok?
    ensures var t, id := Minted(g, s, to, random).value, s.tokenIdCounter;
      && t == s.(owners := s.owners[id := to], balances := t.balances,
                 rarity := s.rarity[id := if random % 100 == 0 then 1 else 0],
                 tokenIdCounter := id + 1, totalSupply := s.totalSupply + 1)
      && BalancesMove(s, t, ZERO_ADDRESS, to) && to != ZERO_ADDRESS && OwnerOf_(s, id) == ZERO_ADDRESS
  {
    assert Partitioned(s, s.tokenIdCounter);
    RarityExactly(random);
    hide StateOk;
  }

  // The second branch is never taken: a number divisible by 1000 is divisible by 100.
  lemma RarityExactly(random: nat)
    ensures RarityOf(random) == if random % 100 == 0 then 1 else 0
  {
    var r := random % 10000;
    assert r % 100 == random % 100;
    assert r % 1000 == 0 ==> r % 100 == 0;
  }

  // burn succeeds exactly for a pre-burned token and a signature of the signer over its id, user and rarity; the
  // entry then moves from the pre-burned tokens to the burned ones.
  lemma BurnMovesEntry(g: Config, s: TokenState, id: nat, v: byte, r: Hash, sg: Hash)
    requires StateOk(g, s)
    ensures id in s.preBurned ==> id in s.rarity
    ensures var t := Burned(g, s, id, v, r, sg);
      t.Ok? <==>
        && id in s.preBurned && v in {27, 28}
        && (var message := Fixed(id, 32) + s.preBurned[id].user + Fixed(s.rarity[id], 32);
            var signed := g.c.sha3(SIGN_PREFIX + g.c.sha3(message));
            ToAddress(g.c, g.c.recover(MakeSig(BE(r), BE(sg), v - 27), signed)) == g.signer)
    ensures var t := Burned(g, s, id, v, r, sg);
      t.Ok? ==>
        t.value == s.(burned := s.burned[id := BurnedToken(true, s.preBurned[id].user, v, r, sg, s.rarity[id])],
                      preBurned := s.preBurned - {id})
  {
    BurnSucceedsExactly(g, s, id, v, r, sg);
    assert Partitioned(s, id);
    hide Fixed, BE, MakeSig, ToAddress;
  }

  // Two messages that agree are for the same token, user and rarity.
  lemma MessageBinds(id: nat, user: Address, rarity: nat, id': nat, user': Address, rarity': nat)
    requires id < U256 && id' < U256 && rarity < U256 && rarity' < U256
    requires Fixed(id, 32) + user + Fixed(rarity, 32) == Fixed(id', 32) + user' + Fixed(rarity', 32)
    ensures id == id' && user == user' && rarity == rarity'
  {
    var m, m' := Fixed(id, 32) + user + Fixed(rarity, 32), Fixed(id', 32) + user' + Fixed(rarity', 32);
    assert m[..32] == Fixed(id, 32) && m'[..32] == Fixed(id', 32);
    assert m[32..52] == user && m'[32..52] == user';
    assert m[52..] == Fixed(rarity, 32) && m'[52..] == Fixed(rarity', 32);
    hide Fixed;
    WidthConstants();
    FixedValue(id, 32);
    FixedValue(id', 32);
    FixedValue(rarity, 32);
    FixedValue(rarity', 32);
  }

  /* Over runs */

  function After(g: Config, s: TokenState, call: Call): TokenState {
    var next := Perform(g, s, call);
    if next.Ok? then next.value else s
  }

  // The call takes the token from its owner by right.
  predicate TakesByRight(g: Config, s: TokenState, call: Call, owner: Address, id: nat) {
    Perform(g, s, call).Ok?
    && match call
       case TransferFrom(caller, from, to, j) => j == id && from == owner && MayMove(s, caller, owner, id)
       case PreBurn(caller, j) => j == id && caller == owner
       case _ => false
  }

  lemma LosesByRight(g: Config, s: TokenState, call: Call, owner: Address, id: nat)
    requires StateOk(g, s) && Owns(s, owner, id) && !Owns(After(g, s, call), owner, id)
    ensures TakesByRight(g, s, call, owner, id)
  {
    var t := After(g, s, call);
    hide StateOk, MayMove, Handed;
    match call
    case Mint(to, random) =>
      if Minted(g, s, to, random).Ok? {
        MintGives(g, s, to, random);
      }
    case PreBurn(caller, j) =>
      PreBurnSucceedsExactly(g, s, caller, j);
      HandedOwners(s, t, caller, ZERO_ADDRESS, j);
    case TransferFrom(caller, from, to, j) =>
      TransferSucceedsExactly(g, s, caller, from, to, j);
      HandedOwners(s, t, from, to, j);
    case _ =>
  }

  lemma HandedOwners(s: TokenState, t: TokenState, from: Address, to: Address, id: nat)
    ensures Handed(s, t, from, to, id) ==> t.owners == s.owners[id := to] && t.operatorApprovals == s.operatorApprovals
    ensures Handed(s, t, from, to, id) ==> t.tokenApprovals == s.tokenApprovals[id := ZERO_ADDRESS]
  {
  }

  // A token that has left its owner was taken at some call of the run by its owner, by an operator of the owner, by
  // the address then approved for it, or by the zero caller.
  lemma {:induction false} LostByRight(g: Config, s: TokenState, calls: seq<Call>, owner: Address, id: nat)
    returns (i: nat)
    requires StateOk(g, s) && Owns(s, owner, id) && !Owns(Run(g, s, calls), owner, id)
    ensures i < |calls|
    ensures var before := Run(g, s, calls[..i]);
      Owns(before, owner, id) && TakesByRight(g, before, calls[i], owner, id)
    decreases |calls|
  {
    hide Perform, StateOk, Owns, TakesByRight;
    var t := After(g, s, calls[0]);
    if Owns(t, owner, id) {
      StaysOk(g, s, calls[0]);
      var j := LostByRight(g, t, calls[1..], owner, id);
      i := j + 1;
      assert calls[..i][1..] == calls[1..][..j];
    } else {
      i := 0;
      LosesByRight(g, s, calls[0], owner, id);
      assert Run(g, s, calls[..0]) == s;
    }
  }

  lemma StaysOk(g: Config, s: TokenState, call: Call)
    requires StateOk(g, s)
    ensures StateOk(g, After(g, s, call))
  {
    hide StateOk, Perform;
    if Perform(g, s, call).Ok? {
      CallKeepsOk(g, s, call);
    }
  }

  // The last word of an owner about an operator.
  function LastGrant(calls: seq<Call>, owner: Address, operator: Address, was: bool): bool
    decreases |calls|
  {
    if calls == [] then was
    else
      var now := match calls[0]
        case SetApprovalForAll(caller, o, approved) =>
          if caller == owner && o == operator && o != ZERO_ADDRESS then approved else was
        case _ => was;
      LastGrant(calls[1..], owner, operator, now)
  }

  // An operator acts for an owner exactly when the owner's last word says so.
  lemma {:induction false} OperatorsOfRun(g: Config, s: TokenState, calls: seq<Call>, owner: Address, operator: Address)
    requires StateOk(g, s)
    ensures Operates(Run(g, s, calls), owner, operator)
        <==> LastGrant(calls, owner, operator, Operates(s, owner, operator))
    decreases |calls|
  {
    hide Perform, StateOk, Operates;
    if calls != [] {
      StaysOk(g, s, calls[0]);
      GrantOfCall(g, s, calls[0], owner, operator);
      OperatorsOfRun(g, After(g, s, calls[0]), calls[1..], owner, operator);
    }
  }

  lemma GrantOfCall(g: Config, s: TokenState, call: Call, owner: Address, operator: Address)
    requires StateOk(g, s)
    ensures Operates(After(g, s, call), owner, operator)
         == if call.SetApprovalForAll? && call.caller == owner && call.operator == operator && operator != ZERO_ADDRESS
            then call.approved else Operates(s, owner, operator)
  {
    hide StateOk, After;
    if call.SetApprovalForAll? {
      GrantSets(g, s, call);
    } else {
      OperatorsStay(g, s, call);
    }
  }

  lemma GrantSets(g: Config, s: TokenState, call: Call)
    requires call.SetApprovalForAll?
    ensures After(g, s, call).operatorApprovals
         == if call.operator != ZERO_ADDRESS then s.operatorApprovals[(call.caller, call.operator) := call.approved]
            else s.operatorApprovals
  {
  }

  lemma OperatorsStay(g: Config, s: TokenState, call: Call)
    requires StateOk(g, s) && !call.SetApprovalForAll?
    ensures After(g, s, call).operatorApprovals == s.operatorApprovals
  {
    var t := After(g, s, call);
    hide StateOk, Handed, MayMove;
    match call
    case Mint(to, random) =>
      if Minted(g, s, to, random).Ok? {
        MintGives(g, s, to, random);
      }
    case PreBurn(caller, j) =>
      PreBurnSucceedsExactly(g, s, caller, j);
      HandedOwners(s, t, caller, ZERO_ADDRESS, j);
    case TransferFrom(caller, from, to, j) =>
      TransferSucceedsExactly(g, s, caller, from, to, j);
      HandedOwners(s, t, from, to, j);
    case _ =>
  }

  // The call approves the address for the token by right.
  predicate ApprovesByRight(g: Config, s: TokenState, call: Call, spender: Address, id: nat) {
    call.Approve? && call.id == id && call.to == spender && Perform(g, s, call).Ok?
    && (call.caller == ZERO_ADDRESS || call.caller == OwnerOf_(s, id) || Operates(s, OwnerOf_(s, id), call.caller))
  }

  lemma ApprovalOfCall(g: Config, s: TokenState, call: Call, spender: Address, id: nat)
    requires StateOk(g, s) && spender != ZERO_ADDRESS
    requires GetApproved_(s, id) != spender && GetApproved_(After(g, s, call), id) == spender
    ensures ApprovesByRight(g, s, call, spender, id)
  {
    var t := After(g, s, call);
    hide StateOk, Handed, MayMove, Operates;
    match call
    case Mint(to, random) =>
      if Minted(g, s, to, random).Ok? {
        MintGives(g, s, to, random);
      }
    case PreBurn(caller, j) =>
      PreBurnSucceedsExactly(g, s, caller, j);
      HandedOwners(s, t, caller, ZERO_ADDRESS, j);
    case TransferFrom(caller, from, to, j) =>
      TransferSucceedsExactly(g, s, caller, from, to, j);
      HandedOwners(s, t, from, to, j);
    case Approve(caller, to, j) =>
      ApproveSucceedsExactly(s, caller, to, j, OwnerOf_(s, j));
    case _ =>
  }

  // An address approved for a token was approved at some call of the run by the token's owner of that time, by an
  // operator of that owner or by the zero caller.
  lemma {:induction false} ApprovedByRight(g: Config, s: TokenState, calls: seq<Call>, spender: Address, id: nat)
    returns (i: nat)
    requires StateOk(g, s) && spender != ZERO_ADDRESS
    requires GetApproved_(s, id) != spender && GetApproved_(Run(g, s, calls), id) == spender
    ensures i < |calls| && ApprovesByRight(g, Run(g, s, calls[..i]), calls[i], spender, id)
    decreases |calls|
  {
    hide Perform, StateOk, GetApproved_, ApprovesByRight;
    var t := After(g, s, calls[0]);
    if GetApproved_(t, id) == spender {
      i := 0;
      ApprovalOfCall(g, s, calls[0], spender, id);
      assert Run(g, s, calls[..0]) == s;
    } else {
      StaysOk(g, s, calls[0]);
      var j := ApprovedByRight(g, t, calls[1..], spender, id);
      i := j + 1;
      assert calls[..i][1..] == calls[1..][..j];
    }
  }
}
