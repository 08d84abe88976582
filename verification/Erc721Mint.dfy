/**
 The ERC721 template with minting and two-step burning:
 src/contract/templates/erc721.cpp and erc721mint.cpp. A call that throws is undone by
 the SafeVariables, so it leaves the state as it was.
 */
module Erc721Mint {
  import opened Outcomes
  import opened Words
  import opened Crypto

  type Uint256 = n: int | 0 <= n < U256

  datatype BurnedToken = BurnedToken(present: bool, user: Address, v: byte, r: Hash, s: Hash, rarity: nat)

  // The maps of the contract beside the enumeration of owned tokens.
  datatype TokenState = TokenState(
    owners: map<nat, Address>, balances: map<Address, Uint256>, tokenApprovals: map<nat, Address>,
    operatorApprovals: map<(Address, Address), bool>, tokenIdCounter: Uint256, totalSupply: Uint256,
    preBurned: map<nat, BurnedToken>, burned: map<nat, BurnedToken>, rarity: map<nat, nat>)

  // maxSupply_ and signer_ never change.
  datatype Config = Config(c: Suite, maxSupply: Uint256, signer: Address)

  /* Reads */

  function OwnerOf_(s: TokenState, id: nat): Address {
    if id in s.owners then s.owners[id] else ZERO_ADDRESS
  }

  function GetApproved_(s: TokenState, id: nat): Address {
    if id in s.tokenApprovals then s.tokenApprovals[id] else ZERO_ADDRESS
  }

  function BalanceOf_(s: TokenState, a: Address): Uint256 {
    if a in s.balances then s.balances[a] else 0
  }

  function IsApprovedForAll(s: TokenState, owner: Address, operator: Address): bool {
    (owner, operator) in s.operatorApprovals && s.operatorApprovals[(owner, operator)]
  }

  function IsAuthorized(s: TokenState, owner: Address, spender: Address, id: nat): bool {
    spender == owner
    || (spender != ZERO_ADDRESS && (IsApprovedForAll(s, owner, spender) || GetApproved_(s, id) == spender))
  }

  /* ERC721 */

  function Leave(s: TokenState, from: Address, id: nat): Outcome<TokenState> {
    if from == ZERO_ADDRESS then Ok(s)
    else if BalanceOf_(s, from) == 0 then Throws
    else Ok(s.(tokenApprovals := s.tokenApprovals[id := ZERO_ADDRESS],
               balances := s.balances[from := BalanceOf_(s, from) - 1]))
  }

  function Enter(s: TokenState, to: Address): Outcome<TokenState> {
    if to == ZERO_ADDRESS then Ok(s)
    else if BalanceOf_(s, to) + 1 >= U256 then Throws
    else Ok(s.(balances := s.balances[to := BalanceOf_(s, to) + 1]))
  }

  // update_: the authorization is checked for a non-zero auth only.
  function Update(s: TokenState, to: Address, id: nat, auth: Address): Outcome<TokenState> {
    var from := OwnerOf_(s, id);
    if auth != ZERO_ADDRESS && !IsAuthorized(s, from, auth, id) then Throws
    else
      var left :- Leave(s, from, id);
      var entered :- Enter(left, to);
      Ok(entered.(owners := entered.owners[id := to]))
  }

  function TransferredFrom(s: TokenState, caller: Address, from: Address, to: Address, id: nat): Outcome<TokenState> {
    if to == ZERO_ADDRESS then Throws
    else
      var next :- Update(s, to, id, caller);
      if OwnerOf_(s, id) == ZERO_ADDRESS || OwnerOf_(s, id) != from then Throws else Ok(next)
  }

  function Approved(s: TokenState, caller: Address, to: Address, id: nat): Outcome<TokenState> {
    var owner := OwnerOf_(s, id);
    if owner == ZERO_ADDRESS then Throws
    else if caller != ZERO_ADDRESS && owner != caller && !IsApprovedForAll(s, owner, caller) then Throws
    else Ok(s.(tokenApprovals := s.tokenApprovals[id := to]))
  }

  function ApprovedForAll(s: TokenState, caller: Address, operator: Address, approved: bool): Outcome<TokenState> {
    if operator == ZERO_ADDRESS then Throws
    else Ok(s.(operatorApprovals := s.operatorApprovals[(caller, operator) := approved]))
  }

  /* ERC721Mint */

  function RarityOf(random: nat): nat {
    var randomNum := random % 10000;
    if randomNum % 100 == 0 then 1 else if randomNum % 1000 == 0 then 2 else 0
  }

  function Minted(g: Config, s: TokenState, to: Address, random: nat): Outcome<TokenState> {
    if s.tokenIdCounter >= g.maxSupply then Throws
    else if to == ZERO_ADDRESS then Throws
    else
      var id := s.tokenIdCounter;
      var next :- Update(s, to, id, ZERO_ADDRESS);
      if next.totalSupply + 1 >= U256 then Throws
      else Ok(next.(rarity := next.rarity[id := RarityOf(random)], tokenIdCounter := id + 1,
                    totalSupply := next.totalSupply + 1))
  }

  function PreBurned(s: TokenState, caller: Address, id: nat): Outcome<TokenState> {
    if OwnerOf_(s, id) == ZERO_ADDRESS || OwnerOf_(s, id) != caller then Throws
    else
      var next :- Update(s, ZERO_ADDRESS, id, ZERO_ADDRESS);
      var rarity := if id in next.rarity then next.rarity[id] else 0;
      Ok(next.(preBurned := next.preBurned[id := BurnedToken(true, caller, 0, ZERO_HASH, ZERO_HASH, rarity)],
               rarity := next.rarity[id := rarity]))
  }

  // uint256ToBytes(tokenId), the user, uint256ToBytes(rarity).
  function Message(s: TokenState, id: nat, user: Address): Outcome<Bytes> {
    if id !in s.rarity then Throws else Ok(Fixed(id, 32) + user + Fixed(s.rarity[id], 32))
  }

  // "Ethereum Signed Message:" behind 0x19, a line feed and "32".
  const SIGN_PREFIX: Bytes := [
    0x19, 0x45, 0x74, 0x68, 0x65, 0x72, 0x65, 0x75, 0x6d, 0x20, 0x53, 0x69, 0x67, 0x6e, 0x65, 0x64, 0x20,
    0x4d, 0x65, 0x73, 0x73, 0x61, 0x67, 0x65, 0x3a, 0x0a, 0x33, 0x32]

  function ToTyped32ByteDataHash(c: Suite, messageHash: Hash): Hash {
    c.sha3(SIGN_PREFIX + messageHash)
  }

  // Who signed the burning of a token.
  function RecoveredSigner(c: Suite, message: Bytes, v: byte, r: Hash, s: Hash): Address {
    ToAddress(c, c.recover(MakeSig(BE(r), BE(s), v), ToTyped32ByteDataHash(c, c.sha3(message))))
  }

  function Burned(g: Config, s: TokenState, id: nat, v: byte, r: Hash, sg: Hash): Outcome<TokenState> {
    if id !in s.preBurned || !s.preBurned[id].present then Throws
    else
      var user := s.preBurned[id].user;
      var message :- Message(s, id, user);
      if v != 27 && v != 28 then Throws
      else if RecoveredSigner(g.c, message, v - 27, r, sg) != g.signer then Throws
      else
        Ok(s.(burned := s.burned[id := BurnedToken(true, user, v, r, sg, s.rarity[id])],
              preBurned := s.preBurned - {id}))
  }

  /* The class */

  class ERC721Mint {
    const g: Config
    var owners: map<nat, Address>
    var balances: map<Address, Uint256>
    var tokenApprovals: map<nat, Address>
    var operatorApprovals: map<(Address, Address), bool>
    var tokenIdCounter: Uint256
    var totalSupply: Uint256
    var preBurnedTokens: map<nat, BurnedToken>
    var burnedTokens: map<nat, BurnedToken>
    var tokenIdRarity: map<nat, nat>

    function View(): TokenState
      reads this
    {
      TokenState(owners, balances, tokenApprovals, operatorApprovals, tokenIdCounter, totalSupply, preBurnedTokens,
        burnedTokens, tokenIdRarity)
    }

    constructor (g: Config)
      ensures this.g == g && View() == FreshState()
    {
      this.g := g;
      owners, balances, tokenApprovals, operatorApprovals := map[], map[], map[], map[];
      tokenIdCounter, totalSupply := 0, 0;
      preBurnedTokens, burnedTokens, tokenIdRarity := map[], map[], map[];
    }

    // What the SafeVariables do when a call throws.
    method Undo(saved: TokenState)
      modifies this
      ensures View() == saved
    {
      owners, balances, tokenApprovals := saved.owners, saved.balances, saved.tokenApprovals;
      operatorApprovals, tokenIdCounter := saved.operatorApprovals, saved.tokenIdCounter;
      totalSupply := saved.totalSupply;
      preBurnedTokens, burnedTokens, tokenIdRarity := saved.preBurned, saved.burned, saved.rarity;
    }

    method UpdateOwner(to: Address, tokenId: nat, auth: Address) returns (ok: bool, prevOwner: Address)
      modifies this
      ensures var r := Update(old(View()), to, tokenId, auth); ok == r.Ok? && (ok ==> View() == r.value)
      ensures ok ==> prevOwner == OwnerOf_(old(View()), tokenId)
    {
      hide Leave, Enter;
      prevOwner := OwnerOf_(View(), tokenId);
      if auth != ZERO_ADDRESS && !IsAuthorized(View(), prevOwner, auth, tokenId) {
        return false, prevOwner;
      }
      ok := TakeFrom(prevOwner, tokenId);
      if ok {
        ok := GiveTo(to);
      }
      if ok {
        owners := owners[tokenId := to];
      }
    }

    method TakeFrom(from: Address, tokenId: nat) returns (ok: bool)
      modifies this
      ensures var r := Leave(old(View()), from, tokenId); ok == r.Ok? && (ok ==> View() == r.value)
    {
      if from != ZERO_ADDRESS {
        tokenApprovals := tokenApprovals[tokenId := ZERO_ADDRESS];
        var balance := BalanceOf_(View(), from);
        if balance == 0 {
          return false;
        }
        balances := balances[from := balance - 1];
      }
      ok := true;
    }

    method GiveTo(to: Address) returns (ok: bool)
      modifies this
      ensures var r := Enter(old(View()), to); ok == r.Ok? && (ok ==> View() == r.value)
    {
      if to != ZERO_ADDRESS {
        var balance := BalanceOf_(View(), to);
        if balance + 1 >= U256 {
          return false;
        }
        balances := balances[to := balance + 1];
      }
      ok := true;
    }

    method TransferFrom(caller: Address, from: Address, to: Address, tokenId: nat) returns (ok: bool)
      modifies this
      ensures Result(ok, old(View()), View(), TransferredFrom(old(View()), caller, from, to, tokenId))
    {
      var saved := View();
      if to == ZERO_ADDRESS {
        return false;
      }
      var updated, prevOwner := UpdateOwner(to, tokenId, caller);
      ok := updated && prevOwner != ZERO_ADDRESS && prevOwner == from;
      if !ok {
        Undo(saved);
      }
    }

    method Approve(caller: Address, to: Address, tokenId: nat) returns (ok: bool)
      modifies this
      ensures Result(ok, old(View()), View(), Approved(old(View()), caller, to, tokenId))
    {
      var owner := OwnerOf_(View(), tokenId);
      if owner == ZERO_ADDRESS {
        return false;
      }
      if caller != ZERO_ADDRESS && owner != caller && !IsApprovedForAll(View(), owner, caller) {
        return false;
      }
      tokenApprovals := tokenApprovals[tokenId := to];
      ok := true;
    }

    method SetApprovalForAll(caller: Address, operator: Address, approved: bool) returns (ok: bool)
      modifies this
      ensures Result(ok, old(View()), View(), ApprovedForAll(old(View()), caller, operator, approved))
    {
      if operator == ZERO_ADDRESS {
        return false;
      }
      operatorApprovals := operatorApprovals[(caller, operator) := approved];
      ok := true;
    }

    method Mint(to: Address, random: nat) returns (ok: bool)
      modifies this
      ensures Result(ok, old(View()), View(), Minted(g, old(View()), to, random))
    {
      var saved := View();
      if tokenIdCounter >= g.maxSupply {
        return false;
      }
      if to == ZERO_ADDRESS {
        return false;
      }
      var updated, prevOwner := UpdateOwner(to, tokenIdCounter, ZERO_ADDRESS);
      if !updated {
        Undo(saved);
        return false;
      }
      tokenIdRarity := tokenIdRarity[tokenIdCounter := RarityOf(random)];
      tokenIdCounter := tokenIdCounter + 1;
      if totalSupply + 1 >= U256 {
        Undo(saved);
        return false;
      }
      totalSupply := totalSupply + 1;
      ok := true;
    }

    method PreBurn(caller: Address, tokenId: nat) returns (ok: bool)
      modifies this
      ensures Result(ok, old(View()), View(), PreBurned(old(View()), caller, tokenId))
    {
      var saved := View();
      var owner := OwnerOf_(View(), tokenId);
      if owner == ZERO_ADDRESS || owner != caller {
        return false;
      }
      var updated, prevOwner := UpdateOwner(ZERO_ADDRESS, tokenId, ZERO_ADDRESS);
      if !updated || prevOwner == ZERO_ADDRESS {
        Undo(saved);
        return false;
      }
      if tokenId !in tokenIdRarity {
        tokenIdRarity := tokenIdRarity[tokenId := 0];
      }
      var token := BurnedToken(true, caller, 0, ZERO_HASH, ZERO_HASH, tokenIdRarity[tokenId]);
      preBurnedTokens := preBurnedTokens[tokenId := token];
      assert saved.rarity[tokenId := tokenIdRarity[tokenId]] == tokenIdRarity;
      ok := true;
    }

    // preBurnedTokens_[tokenId] inserts an empty entry for a token that is not there; the throw removes it again.
    method Burn(tokenId: nat, v: byte, r: Hash, s: Hash) returns (ok: bool)
      modifies this
      ensures Result(ok, old(View()), View(), Burned(g, old(View()), tokenId, v, r, s))
    {
      var saved := View();
      if tokenId !in preBurnedTokens {
        preBurnedTokens := preBurnedTokens[tokenId := BurnedToken(false, ZERO_ADDRESS, 0, ZERO_HASH, ZERO_HASH, 0)];
      }
      if !preBurnedTokens[tokenId].present {
        Undo(saved);
        return false;
      }
      var user := preBurnedTokens[tokenId].user;
      var message := Message(View(), tokenId, user);
      if !message.Ok? || (v != 27 && v != 28) {
        return false;
      }
      if RecoveredSigner(g.c, message.value, v - 27, r, s) != g.signer {
        return false;
      }
      burnedTokens := burnedTokens[tokenId := BurnedToken(true, user, v, r, s, tokenIdRarity[tokenId])];
      preBurnedTokens := preBurnedTokens - {tokenId};
      ok := true;
    }
  }

  function FreshState(): TokenState {
    TokenState(map[], map[], map[], map[], 0, 0, map[], map[], map[])
  }

  // A call either does what its specification says or throws and leaves the state as it was.
  predicate Result(ok: bool, before: TokenState, now: TokenState, spec: Outcome<TokenState>) {
    ok == spec.Ok? && now == if ok then spec.value else before
  }

  /* The partition of the ids */

  predicate IsOwned(s: TokenState, id: nat) {
    OwnerOf_(s, id) != ZERO_ADDRESS
  }

  // Below the counter an id is in exactly one of owned, pre-burned and burned; above it in none.
  ghost predicate Partitioned(s: TokenState, id: nat) {
    if id < s.tokenIdCounter then
      (IsOwned(s, id) && id !in s.preBurned && id !in s.burned)
      || (!IsOwned(s, id) && id in s.preBurned && id !in s.burned)
      || (!IsOwned(s, id) && id !in s.preBurned && id in s.burned)
    else !IsOwned(s, id) && id !in s.preBurned && id !in s.burned
  }

  ghost function OwnedBy(s: TokenState, a: Address): set<nat> {
    set id | id in s.owners && s.owners[id] == a
  }

  ghost predicate StateOk(g: Config, s: TokenState) {
    s.totalSupply == s.tokenIdCounter <= g.maxSupply
    && (forall id: nat :: Partitioned(s, id))
    && (forall a: Address :: a != ZERO_ADDRESS ==> BalanceOf_(s, a) == |OwnedBy(s, a)|)
    && (forall id: nat :: GetApproved_(s, id) != ZERO_ADDRESS ==> IsOwned(s, id))
    && (forall id :: id in s.preBurned ==> s.preBurned[id].present && s.preBurned[id].user != ZERO_ADDRESS)
    && (forall id :: id in s.burned ==> s.burned[id].present)
    && forall id: nat :: id < s.tokenIdCounter ==> id in s.rarity && s.rarity[id] <= 1
  }

  lemma LeaveEffects(s: TokenState, from: Address, id: nat)
    requires Leave(s, from, id).Ok?
    ensures var t := Leave(s, from, id).value;
      t == s.(balances := t.balances, tokenApprovals := t.tokenApprovals)
      && (forall j: nat :: GetApproved_(t, j)
            == if j == id && from != ZERO_ADDRESS then ZERO_ADDRESS else GetApproved_(s, j))
      && forall a: Address :: BalanceOf_(t, a)
           == BalanceOf_(s, a) - if a == from && a != ZERO_ADDRESS then 1 else 0
  {
  }

  lemma EnterEffects(s: TokenState, to: Address)
    requires Enter(s, to).Ok?
    ensures var t := Enter(s, to).value;
      t == s.(balances := t.balances)
      && forall a: Address :: BalanceOf_(t, a)
           == BalanceOf_(s, a) + if a == to && a != ZERO_ADDRESS then 1 else 0
  {
  }

  // What a successful update_ does.
  lemma UpdateEffects(s: TokenState, to: Address, id: nat, auth: Address)
    requires Update(s, to, id, auth).Ok?
    ensures var t := Update(s, to, id, auth).value;
      t == s.(owners := s.owners[id := to], balances := t.balances, tokenApprovals := t.tokenApprovals)
      && (forall j: nat :: GetApproved_(t, j) == if j == id && IsOwned(s, id) then ZERO_ADDRESS else GetApproved_(s, j))
      && forall a: Address :: BalanceOf_(t, a)
           == BalanceOf_(s, a) - (if a == OwnerOf_(s, id) && a != ZERO_ADDRESS then 1 else 0)
                               + (if a == to && a != ZERO_ADDRESS then 1 else 0)
  {
    hide Leave, Enter, IsAuthorized;
    var from := OwnerOf_(s, id);
    LeaveEffects(s, from, id);
    var left := Leave(s, from, id).value;
    EnterEffects(left, to);
    var entered := Enter(left, to).value;
    assert forall a: Address :: BalanceOf_(Update(s, to, id, auth).value, a) == BalanceOf_(entered, a);
    assert forall j: nat :: GetApproved_(Update(s, to, id, auth).value, j) == GetApproved_(left, j);
    hide BalanceOf_, GetApproved_;
  }

  // The ids of an owner follow.
  lemma OwnedAfterUpdate(s: TokenState, t: TokenState, to: Address, id: nat, a: Address)
    requires t.owners == s.owners[id := to] && a != ZERO_ADDRESS
    ensures |OwnedBy(t, a)|
         == |OwnedBy(s, a)| - (if a == OwnerOf_(s, id) then 1 else 0) + (if a == to then 1 else 0)
  {
    var before, after := OwnedBy(s, a), OwnedBy(t, a);
    assert id in before <==> a == OwnerOf_(s, id);
    assert a == to ==> after == before + {id};
    assert a != to ==> after == before - {id};
    hide *;
    OneMoreOrLess(before, id);
  }

  lemma OneMoreOrLess(ids: set<nat>, id: nat)
    ensures |ids + {id}| == |ids| + if id in ids then 0 else 1
    ensures |ids - {id}| == |ids| - if id in ids then 1 else 0
  {
    if id in ids {
      assert ids + {id} == ids;
    } else {
      assert ids - {id} == ids;
    }
  }

  lemma UpdateKeepsBalances(s: TokenState, to: Address, id: nat, auth: Address)
    requires Update(s, to, id, auth).Ok?
    requires forall a: Address :: a != ZERO_ADDRESS ==> BalanceOf_(s, a) == |OwnedBy(s, a)|
    ensures var t := Update(s, to, id, auth).value;
      forall a: Address :: a != ZERO_ADDRESS ==> BalanceOf_(t, a) == |OwnedBy(t, a)|
  {
    UpdateEffects(s, to, id, auth);
    var t := Update(s, to, id, auth).value;
    hide Update, OwnedBy, BalanceOf_;
    forall a: Address | a != ZERO_ADDRESS ensures BalanceOf_(t, a) == |OwnedBy(t, a)| {
      OwnedAfterUpdate(s, t, to, id, a);
    }
  }

  // Where update_ moves ownership, everything else about an id stays.
  lemma UpdateOwners(s: TokenState, to: Address, id: nat, auth: Address)
    requires Update(s, to, id, auth).Ok?
    ensures forall j: nat :: OwnerOf_(Update(s, to, id, auth).value, j) == if j == id then to else OwnerOf_(s, j)
  {
    UpdateEffects(s, to, id, auth);
    hide Update;
  }

  lemma MintPartitions(s: TokenState, t: TokenState, to: Address)
    requires forall j: nat :: Partitioned(s, j)
    requires to != ZERO_ADDRESS && t.preBurned == s.preBurned && t.burned == s.burned
    requires t.tokenIdCounter == s.tokenIdCounter + 1
    requires forall j: nat :: OwnerOf_(t, j) == if j == s.tokenIdCounter then to else OwnerOf_(s, j)
    ensures forall j: nat :: Partitioned(t, j)
  {
    hide OwnerOf_;
    forall j: nat ensures Partitioned(t, j) {
      assert Partitioned(s, j);
    }
  }

  lemma MintEffects(g: Config, s: TokenState, to: Address, random: nat)
    requires Minted(g, s, to, random).Ok?
    ensures var next, t := Update(s, to, s.tokenIdCounter, ZERO_ADDRESS), Minted(g, s, to, random).value;
      next.Ok? && s.tokenIdCounter < g.maxSupply && to != ZERO_ADDRESS && RarityOf(random) <= 1
      && t == next.value.(rarity := s.rarity[s.tokenIdCounter := RarityOf(random)],
                          tokenIdCounter := s.tokenIdCounter + 1, totalSupply := s.totalSupply + 1)
  {
    UpdateEffects(s, to, s.tokenIdCounter, ZERO_ADDRESS);
    hide Update;
  }

  lemma MintKeepsOk(g: Config, s: TokenState, to: Address, random: nat)
    requires StateOk(g, s) && Minted(g, s, to, random).Ok?
    ensures StateOk(g, Minted(g, s, to, random).value)
  {
    hide Update, OwnedBy, BalanceOf_, Minted, RarityOf, Partitioned, OwnerOf_;
    var id := s.tokenIdCounter;
    MintEffects(g, s, to, random);
    UpdateEffects(s, to, id, ZERO_ADDRESS);
    UpdateOwners(s, to, id, ZERO_ADDRESS);
    UpdateKeepsBalances(s, to, id, ZERO_ADDRESS);
    var next, t := Update(s, to, id, ZERO_ADDRESS).value, Minted(g, s, to, random).value;
    SameOwners(next, t);
    MintPartitions(s, t, to);
    forall j: nat | GetApproved_(t, j) != ZERO_ADDRESS ensures IsOwned(t, j) {
      assert GetApproved_(t, j) == GetApproved_(next, j);
    }
  }

  lemma SameOwners(s: TokenState, t: TokenState)
    requires s.owners == t.owners && s.balances == t.balances
    ensures forall a: Address :: OwnedBy(s, a) == OwnedBy(t, a) && BalanceOf_(s, a) == BalanceOf_(t, a)
    ensures forall j: nat :: OwnerOf_(s, j) == OwnerOf_(t, j)
  {
  }

  lemma PreBurnKeepsOk(g: Config, s: TokenState, caller: Address, id: nat)
    requires StateOk(g, s) && PreBurned(s, caller, id).Ok?
    ensures StateOk(g, PreBurned(s, caller, id).value)
  {
    UpdateEffects(s, ZERO_ADDRESS, id, ZERO_ADDRESS);
    UpdateOwners(s, ZERO_ADDRESS, id, ZERO_ADDRESS);
    UpdateKeepsBalances(s, ZERO_ADDRESS, id, ZERO_ADDRESS);
    var next, t := Update(s, ZERO_ADDRESS, id, ZERO_ADDRESS).value, PreBurned(s, caller, id).value;
    SameOwners(next, t);
    hide Update, OwnedBy, BalanceOf_;
    assert Partitioned(s, id) && IsOwned(s, id);
    forall j: nat ensures Partitioned(t, j) {
      assert Partitioned(s, j);
    }
    forall j: nat | GetApproved_(t, j) != ZERO_ADDRESS ensures IsOwned(t, j) {
      assert GetApproved_(t, j) == GetApproved_(next, j);
    }
  }

  lemma BurnKeepsOk(g: Config, s: TokenState, id: nat, v: byte, r: Hash, sg: Hash)
    requires StateOk(g, s) && Burned(g, s, id, v, r, sg).Ok?
    ensures StateOk(g, Burned(g, s, id, v, r, sg).value)
  {
    var t := Burned(g, s, id, v, r, sg).value;
    SameOwners(s, t);
    hide OwnedBy, BalanceOf_, RecoveredSigner;
    forall j: nat ensures Partitioned(t, j) {
      assert Partitioned(s, j);
    }
    forall j: nat | GetApproved_(t, j) != ZERO_ADDRESS ensures IsOwned(t, j) {
      assert GetApproved_(t, j) == GetApproved_(s, j);
    }
  }

  lemma TransferKeepsOk(g: Config, s: TokenState, caller: Address, from: Address, to: Address, id: nat)
    requires StateOk(g, s) && TransferredFrom(s, caller, from, to, id).Ok?
    ensures StateOk(g, TransferredFrom(s, caller, from, to, id).value)
  {
    UpdateEffects(s, to, id, caller);
    UpdateOwners(s, to, id, caller);
    UpdateKeepsBalances(s, to, id, caller);
    var t := Update(s, to, id, caller).value;
    hide Update, OwnedBy, BalanceOf_;
    forall j: nat ensures Partitioned(t, j) {
      assert Partitioned(s, j);
    }
  }

  lemma ApproveKeepsOk(g: Config, s: TokenState, caller: Address, to: Address, id: nat)
    requires StateOk(g, s) && Approved(s, caller, to, id).Ok?
    ensures StateOk(g, Approved(s, caller, to, id).value)
  {
    var t := Approved(s, caller, to, id).value;
    SameOwners(s, t);
    hide OwnedBy, BalanceOf_, IsApprovedForAll;
    forall j: nat ensures Partitioned(t, j) {
      assert Partitioned(s, j);
    }
    forall j: nat | GetApproved_(t, j) != ZERO_ADDRESS ensures IsOwned(t, j) {
      assert j != id ==> GetApproved_(t, j) == GetApproved_(s, j);
    }
  }

  lemma ApproveAllKeepsOk(g: Config, s: TokenState, caller: Address, operator: Address, approved: bool)
    requires StateOk(g, s) && ApprovedForAll(s, caller, operator, approved).Ok?
    ensures StateOk(g, ApprovedForAll(s, caller, operator, approved).value)
  {
    var t := ApprovedForAll(s, caller, operator, approved).value;
    SameOwners(s, t);
    hide OwnedBy, BalanceOf_;
    forall j: nat ensures Partitioned(t, j) {
      assert Partitioned(s, j);
    }
    forall j: nat | GetApproved_(t, j) != ZERO_ADDRESS ensures IsOwned(t, j) {
      assert GetApproved_(t, j) == GetApproved_(s, j);
    }
  }

  /* Runs */

  datatype Call =
    | Mint(to: Address, random: nat)
    | PreBurn(caller: Address, id: nat)
    | Burn(id: nat, v: byte, r: Hash, s: Hash)
    | TransferFrom(caller: Address, from: Address, to: Address, id: nat)
    | Approve(caller: Address, to: Address, id: nat)
    | SetApprovalForAll(caller: Address, operator: Address, approved: bool)

  function Perform(g: Config, s: TokenState, call: Call): Outcome<TokenState> {
    match call
    case Mint(to, random) => Minted(g, s, to, random)
    case PreBurn(caller, id) => PreBurned(s, caller, id)
    case Burn(id, v, r, sg) => Burned(g, s, id, v, r, sg)
    case TransferFrom(caller, from, to, id) => TransferredFrom(s, caller, from, to, id)
    case Approve(caller, to, id) => Approved(s, caller, to, id)
    case SetApprovalForAll(caller, operator, approved) => ApprovedForAll(s, caller, operator, approved)
  }

  // A throwing call leaves the state as it was.
  function Run(g: Config, s: TokenState, calls: seq<Call>): TokenState
    decreases |calls|
  {
    if calls == [] then s
    else
      var next := Perform(g, s, calls[0]);
      Run(g, if next.Ok? then next.value else s, calls[1..])
  }

  lemma CallKeepsOk(g: Config, s: TokenState, call: Call)
    requires StateOk(g, s) && Perform(g, s, call).Ok?
    ensures StateOk(g, Perform(g, s, call).value)
  {
    hide StateOk, Minted, PreBurned, Burned, TransferredFrom, Approved, ApprovedForAll;
    match call
    case Mint(to, random) => MintKeepsOk(g, s, to, random);
    case PreBurn(caller, id) => PreBurnKeepsOk(g, s, caller, id);
    case Burn(id, v, r, sg) => BurnKeepsOk(g, s, id, v, r, sg);
    case TransferFrom(caller, from, to, id) => TransferKeepsOk(g, s, caller, from, to, id);
    case Approve(caller, to, id) => ApproveKeepsOk(g, s, caller, to, id);
    case SetApprovalForAll(caller, operator, approved) => ApproveAllKeepsOk(g, s, caller, operator, approved);
  }

  lemma {:induction false} RunKeepsOk(g: Config, s: TokenState, calls: seq<Call>)
    requires StateOk(g, s)
    ensures StateOk(g, Run(g, s, calls))
    decreases |calls|
  {
    hide StateOk, Perform;
    if calls != [] {
      var next := Perform(g, s, calls[0]);
      if next.Ok? {
        CallKeepsOk(g, s, calls[0]);
      }
      RunKeepsOk(g, if next.Ok? then next.value else s, calls[1..]);
    }
  }

  // In every reachable state: the partition, the supply, the balances and the approvals.
  lemma ReachableIsOk(g: Config, calls: seq<Call>)
    ensures StateOk(g, Run(g, FreshState(), calls))
  {
    forall a: Address ensures OwnedBy(FreshState(), a) == {} {
    }
    RunKeepsOk(g, FreshState(), calls);
  }

  // In a reachable state burning depends on the pre-burned entry and the signature alone: the message can
  // always be built.
  lemma BurnSucceedsExactly(g: Config, s: TokenState, id: nat, v: byte, r: Hash, sg: Hash)
    requires StateOk(g, s)
    ensures id in s.preBurned ==> Message(s, id, s.preBurned[id].user).Ok?
    ensures Burned(g, s, id, v, r, sg).Ok?
       <==> id in s.preBurned && v in {27, 28}
            && RecoveredSigner(g.c, Message(s, id, s.preBurned[id].user).value, v - 27, r, sg) == g.signer
  {
    assert Partitioned(s, id);
  }

  // Minting in a reachable state fails only at the supply limit or for the zero address.
  lemma MintSucceedsExactly(g: Config, s: TokenState, to: Address, random: nat)
    requires StateOk(g, s)
    ensures Minted(g, s, to, random).Ok? <==> s.tokenIdCounter < g.maxSupply && to != ZERO_ADDRESS
  {
    assert Partitioned(s, s.tokenIdCounter);
    assert to != ZERO_ADDRESS ==> BalanceOf_(s, to) == |OwnedBy(s, to)|;
    if to != ZERO_ADDRESS {
      OwnedBound(g, s, to, s.tokenIdCounter);
    }
  }

  lemma {:induction false} BelowCount(ids: set<nat>, n: nat)
    requires forall id :: id in ids ==> id < n
    ensures |ids| <= n
    decreases n
  {
    if n > 0 {
      BelowCount(ids - {n - 1}, n - 1);
      if n - 1 in ids {
        assert |ids - {n - 1}| == |ids| - 1;
      } else {
        assert ids - {n - 1} == ids;
      }
    } else {
      assert ids == {};
    }
  }

  lemma OwnedBound(g: Config, s: TokenState, a: Address, n: nat)
    requires StateOk(g, s) && a != ZERO_ADDRESS && n == s.tokenIdCounter
    ensures |OwnedBy(s, a)| <= n
  {
    forall id | id in OwnedBy(s, a) ensures id < n {
      assert Partitioned(s, id);
    }
    BelowCount(OwnedBy(s, a), n);
  }
}
