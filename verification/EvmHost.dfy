/**
 The EVM host's journal: original and current values, access lists, commit and
 revert (src/core/evmhost.hpp). What the EVM does in between is any sequence of the
 host calls below.
 */
module EvmHost {
  import opened Words

  // Pairs are (original, current).
  datatype EvmAccount = EvmAccount(
    code: (Bytes, Bytes), codeHash: (Hash, Hash), storage: map<Hash, (Hash, Hash)>, transient: map<Hash, Hash>)

  datatype EvmEvent = EvmEvent(creator: Address, data: Bytes, topics: seq<Hash>)

  datatype StorageStatus = Assigned | Added | Modified | Deleted

  type EvmAccounts = map<Address, EvmAccount>

  const NO_ACCOUNT := EvmAccount(([], []), (ZERO_HASH, ZERO_HASH), map[], map[])

  datatype HostView = HostView(
    accounts: EvmAccounts, accessedStorages: seq<(Address, Hash)>, accessedTransients: seq<Address>,
    accessedCode: seq<Address>, contractAddresses: map<Hash, Address>, recentlyCreated: seq<Hash>,
    currentTxHash: Hash, emittedEvents: seq<EvmEvent>, shouldRevert: bool)

  /* Reads with the defaults of operator[] */

  function At(accounts: EvmAccounts, a: Address): EvmAccount {
    if a in accounts then accounts[a] else NO_ACCOUNT
  }

  function Slot(accounts: EvmAccounts, a: Address, k: Hash): (Hash, Hash) {
    if k in At(accounts, a).storage then At(accounts, a).storage[k] else (ZERO_HASH, ZERO_HASH)
  }

  function GetStorage(accounts: EvmAccounts, a: Address, k: Hash): Hash {
    Slot(accounts, a, k).1
  }

  function GetTransientStorage(accounts: EvmAccounts, a: Address, k: Hash): Hash {
    if k in At(accounts, a).transient then At(accounts, a).transient[k] else ZERO_HASH
  }

  function GetCode(accounts: EvmAccounts, a: Address): Bytes {
    At(accounts, a).code.1
  }

  function GetCodeHash(accounts: EvmAccounts, a: Address): Hash {
    At(accounts, a).codeHash.1
  }

  /* Writes to one account */

  function PutSlot(accounts: EvmAccounts, a: Address, k: Hash, slot: (Hash, Hash)): EvmAccounts {
    accounts[a := At(accounts, a).(storage := At(accounts, a).storage[k := slot])]
  }

  function PutTransient(accounts: EvmAccounts, a: Address, transient: map<Hash, Hash>): EvmAccounts {
    accounts[a := At(accounts, a).(transient := transient)]
  }

  function PutCode(accounts: EvmAccounts, a: Address, code: (Bytes, Bytes), hash: (Hash, Hash)): EvmAccounts {
    accounts[a := At(accounts, a).(code := code, codeHash := hash)]
  }

  /* Host calls */

  datatype HostCall =
    | SetStorage(addr: Address, key: Hash, value: Hash)
    | SetTransientStorage(addr: Address, key: Hash, value: Hash)
    | EmitLog(event: EvmEvent)
    | CreateContract(contractAddress: Address, code: Bytes)  // createContract behind a successful execution
    | TouchAccount(addr: Address)                            // accounts[addr] of a nested call
    | Selfdestruct

  // EIP-1283, as set_storage reports it.
  function StatusOf(slot: (Hash, Hash), value: Hash): StorageStatus {
    if slot.1 == value then Assigned
    else if slot.0 != slot.1 then Assigned
    else if slot.1 == ZERO_HASH then Added
    else if value != ZERO_HASH then Modified
    else Deleted
  }

  function Apply(sha3: Bytes -> Hash, v: HostView, call: HostCall): HostView {
    match call
    case SetStorage(a, k, value) =>
      v.(accounts := PutSlot(v.accounts, a, k, (Slot(v.accounts, a, k).0, value)),
         accessedStorages := v.accessedStorages + [(a, k)])
    case SetTransientStorage(a, k, value) =>
      v.(accounts := PutTransient(v.accounts, a, At(v.accounts, a).transient[k := value]),
         accessedTransients := v.accessedTransients + [a])
    case EmitLog(event) => v.(emittedEvents := v.emittedEvents + [event])
    case CreateContract(a, code) =>
      var was := At(v.accounts, a);
      v.(accounts := PutCode(v.accounts, a, (was.code.0, code), (was.codeHash.0, sha3(code))),
         recentlyCreated := v.recentlyCreated + [v.currentTxHash],
         contractAddresses := v.contractAddresses[v.currentTxHash := a],
         accessedCode := v.accessedCode + [a])
    case TouchAccount(a) => v.(accounts := v.accounts[a := At(v.accounts, a)])
    case Selfdestruct => v.(shouldRevert := true)
  }

  function ApplyAll(sha3: Bytes -> Hash, v: HostView, calls: seq<HostCall>): HostView {
    if calls == [] then v else Apply(sha3, ApplyAll(sha3, v, calls[..|calls| - 1]), calls[|calls| - 1])
  }

  /* Commit and revert: one entry of an access list at a time */

  function CommitSlots(accounts: EvmAccounts, list: seq<(Address, Hash)>): EvmAccounts {
    if list == [] then accounts
    else
      var before, (a, k) := CommitSlots(accounts, list[..|list| - 1]), list[|list| - 1];
      var now := Slot(before, a, k).1;
      PutSlot(before, a, k, (now, now))
  }

  function RevertSlots(accounts: EvmAccounts, list: seq<(Address, Hash)>): EvmAccounts {
    if list == [] then accounts
    else
      var before, (a, k) := RevertSlots(accounts, list[..|list| - 1]), list[|list| - 1];
      var orig := Slot(before, a, k).0;
      PutSlot(before, a, k, (orig, orig))
  }

  lemma NextCommitted(accounts: EvmAccounts, list: seq<(Address, Hash)>, i: nat)
    requires i < |list|
    ensures var before, (a, k) := CommitSlots(accounts, list[..i]), list[i];
      CommitSlots(accounts, list[..i + 1]) == PutSlot(before, a, k, (Slot(before, a, k).1, Slot(before, a, k).1))
  {
    hide Slot, PutSlot;
    assert list[..i + 1][..i] == list[..i];
  }

  lemma NextReverted(accounts: EvmAccounts, list: seq<(Address, Hash)>, i: nat)
    requires i < |list|
    ensures var before, (a, k) := RevertSlots(accounts, list[..i]), list[i];
      RevertSlots(accounts, list[..i + 1]) == PutSlot(before, a, k, (Slot(before, a, k).0, Slot(before, a, k).0))
  {
    hide Slot, PutSlot;
    assert list[..i + 1][..i] == list[..i];
  }

  lemma NothingWalked(accounts: EvmAccounts, list: seq<(Address, Hash)>)
    ensures CommitSlots(accounts, list[..0]) == accounts && RevertSlots(accounts, list[..0]) == accounts
  {
  }

  function ClearTransients(accounts: EvmAccounts, list: seq<Address>): EvmAccounts {
    if list == [] then accounts
    else PutTransient(ClearTransients(accounts, list[..|list| - 1]), list[|list| - 1], map[])
  }

  function CommitCodes(accounts: EvmAccounts, list: seq<Address>): EvmAccounts {
    if list == [] then accounts
    else
      var before, a := CommitCodes(accounts, list[..|list| - 1]), list[|list| - 1];
      var now := At(before, a);
      PutCode(before, a, (now.code.1, now.code.1), (now.codeHash.1, now.codeHash.1))
  }

  function RevertCodes(accounts: EvmAccounts, list: seq<Address>): EvmAccounts {
    if list == [] then accounts
    else
      var before, a := RevertCodes(accounts, list[..|list| - 1]), list[|list| - 1];
      var orig := At(before, a);
      PutCode(before, a, (orig.code.0, orig.code.0), (orig.codeHash.0, orig.codeHash.0))
  }

  lemma NextCodes(accounts: EvmAccounts, list: seq<Address>, i: nat)
    requires i < |list|
    ensures var before, a := CommitCodes(accounts, list[..i]), list[i];
      var now := At(before, a);
      CommitCodes(accounts, list[..i + 1])
      == PutCode(before, a, (now.code.1, now.code.1), (now.codeHash.1, now.codeHash.1))
    ensures var before, a := RevertCodes(accounts, list[..i]), list[i];
      var orig := At(before, a);
      RevertCodes(accounts, list[..i + 1])
      == PutCode(before, a, (orig.code.0, orig.code.0), (orig.codeHash.0, orig.codeHash.0))
  {
    hide At, PutCode;
    assert list[..i + 1][..i] == list[..i];
  }

  lemma NoCodesWalked(accounts: EvmAccounts, list: seq<Address>)
    ensures CommitCodes(accounts, list[..0]) == accounts && RevertCodes(accounts, list[..0]) == accounts
  {
  }

  function Erase(m: map<Hash, Address>, keys: seq<Hash>): map<Hash, Address> {
    map h | h in m && h !in keys :: m[h]
  }

  function Committed(v: HostView): HostView {
    v.(accounts := ClearTransients(CommitSlots(v.accounts, v.accessedStorages), v.accessedTransients),
       accessedStorages := [], accessedTransients := [], currentTxHash := ZERO_HASH, emittedEvents := [])
  }

  function CodeCommitted(v: HostView): HostView {
    v.(accounts := CommitCodes(v.accounts, v.accessedCode), recentlyCreated := [], accessedCode := [])
  }

  function Reverted(v: HostView): HostView {
    v.(accounts := ClearTransients(RevertSlots(v.accounts, v.accessedStorages), v.accessedTransients),
       contractAddresses := Erase(v.contractAddresses, v.recentlyCreated),
       accessedStorages := [], accessedTransients := [], recentlyCreated := [], currentTxHash := ZERO_HASH,
       emittedEvents := [])
  }

  function CodeReverted(v: HostView): HostView {
    v.(accounts := RevertCodes(v.accounts, v.accessedCode), accessedCode := [])
  }

  lemma PutSlotTwice(accounts: EvmAccounts, a: Address, k: Hash, first: (Hash, Hash), second: (Hash, Hash))
    ensures PutSlot(PutSlot(accounts, a, k, first), a, k, second) == PutSlot(accounts, a, k, second)
  {
    var storage: map<Hash, (Hash, Hash)> := At(accounts, a).storage;
    var once: map<Hash, (Hash, Hash)> := storage[k := first];
    assert once[k := second] == storage[k := second];
  }

  /* The class */

  class EvmHost {
    const sha3: Bytes -> Hash
    var accounts: EvmAccounts
    var accessedStorages: seq<(Address, Hash)>
    var accessedTransients: seq<Address>
    var accessedAccountsCode: seq<Address>
    var contractAddresses: map<Hash, Address>
    var recentlyCreatedContracts: seq<Hash>
    var currentTxHash: Hash
    var emittedEvents: seq<EvmEvent>
    var shouldRevert: bool

    function View(): HostView
      reads this
    {
      HostView(accounts, accessedStorages, accessedTransients, accessedAccountsCode, contractAddresses,
        recentlyCreatedContracts, currentTxHash, emittedEvents, shouldRevert)
    }

    constructor (sha3: Bytes -> Hash, accounts: EvmAccounts, contractAddresses: map<Hash, Address>)
      ensures View() == HostView(accounts, [], [], [], contractAddresses, [], ZERO_HASH, [], false)
    {
      this.sha3, this.accounts, this.contractAddresses := sha3, accounts, contractAddresses;
      accessedStorages, accessedTransients, accessedAccountsCode, recentlyCreatedContracts := [], [], [], [];
      currentTxHash, emittedEvents, shouldRevert := ZERO_HASH, [], false;
    }

    method SetStorage(addr: Address, key: Hash, value: Hash) returns (status: StorageStatus)
      modifies this
      ensures View() == Apply(sha3, old(View()), HostCall.SetStorage(addr, key, value))
      ensures status == StatusOf(Slot(old(accounts), addr, key), value)
    {
      var slot := Slot(accounts, addr, key);
      PutSlotTwice(accounts, addr, key, slot, (slot.0, value));
      accounts := PutSlot(accounts, addr, key, slot);
      accessedStorages := accessedStorages + [(addr, key)];
      var (oldOrig, oldCurr) := slot;
      if oldCurr == value {
        return Assigned;
      }
      if oldOrig == oldCurr {
        if oldCurr == ZERO_HASH {
          status := Added;
        } else if value != ZERO_HASH {
          status := Modified;
        } else {
          status := Deleted;
        }
      } else {
        status := Assigned;
      }
      accounts := PutSlot(accounts, addr, key, (oldOrig, value));
    }

    method SetTransientStorage(addr: Address, key: Hash, value: Hash)
      modifies this
      ensures View() == Apply(sha3, old(View()), HostCall.SetTransientStorage(addr, key, value))
    {
      accessedTransients := accessedTransients + [addr];
      accounts := PutTransient(accounts, addr, At(accounts, addr).transient[key := value]);
    }

    method EmitLog(event: EvmEvent)
      modifies this
      ensures View() == Apply(sha3, old(View()), HostCall.EmitLog(event))
    {
      emittedEvents := emittedEvents + [event];
    }

    // The bookkeeping of createContract.
    method StoreContract(contractAddress: Address, code: Bytes)
      modifies this
      ensures View() == Apply(sha3, old(View()), CreateContract(contractAddress, code))
    {
      var account := At(accounts, contractAddress);
      accounts := PutCode(accounts, contractAddress, account.code, (account.codeHash.0, sha3(code)));
      account := At(accounts, contractAddress);
      accounts := PutCode(accounts, contractAddress, (account.code.0, code), account.codeHash);
      recentlyCreatedContracts := recentlyCreatedContracts + [currentTxHash];
      contractAddresses := contractAddresses[currentTxHash := contractAddress];
      accessedAccountsCode := accessedAccountsCode + [contractAddress];
    }

    method Commit()
      modifies this
      ensures View() == Committed(old(View()))
    {
      hide Slot, PutSlot, CommitSlots, ClearTransients;
      NothingWalked(accounts, accessedStorages);
      for i := 0 to |accessedStorages|
        invariant View() == old(View()).(accounts := accounts)
        invariant accounts == CommitSlots(old(accounts), accessedStorages[..i])
      {
        var (addr, key) := accessedStorages[i];
        NextCommitted(old(accounts), accessedStorages, i);
        var now := Slot(accounts, addr, key).1;
        accounts := PutSlot(accounts, addr, key, (now, now));
      }
      assert accessedStorages[..|accessedStorages|] == accessedStorages;
      ClearAllTransients();
      accessedStorages, accessedTransients := [], [];
      currentTxHash, emittedEvents := ZERO_HASH, [];
    }

    method ClearAllTransients()
      modifies this
      ensures View() == old(View()).(accounts := ClearTransients(old(accounts), old(accessedTransients)))
    {
      for i := 0 to |accessedTransients|
        invariant View() == old(View()).(accounts := accounts)
        invariant accounts == ClearTransients(old(accounts), accessedTransients[..i])
      {
        assert accessedTransients[..i + 1][..i] == accessedTransients[..i];
        accounts := PutTransient(accounts, accessedTransients[i], map[]);
      }
      assert accessedTransients[..|accessedTransients|] == accessedTransients;
    }

    method CommitCode()
      modifies this
      ensures View() == CodeCommitted(old(View()))
    {
      hide At, PutCode, CommitCodes;
      NoCodesWalked(accounts, accessedAccountsCode);
      for i := 0 to |accessedAccountsCode|
        invariant View() == old(View()).(accounts := accounts)
        invariant accounts == CommitCodes(old(accounts), accessedAccountsCode[..i])
      {
        NextCodes(old(accounts), accessedAccountsCode, i);
        var x := accessedAccountsCode[i];
        var now := At(accounts, x);
        accounts := PutCode(accounts, x, (now.code.1, now.code.1), (now.codeHash.1, now.codeHash.1));
      }
      assert accessedAccountsCode[..|accessedAccountsCode|] == accessedAccountsCode;
      recentlyCreatedContracts, accessedAccountsCode := [], [];
    }

    method Revert()
      modifies this
      ensures View() == Reverted(old(View()))
    {
      hide Slot, PutSlot, RevertSlots, ClearTransients, Erase;
      NothingWalked(accounts, accessedStorages);
      for i := 0 to |accessedStorages|
        invariant View() == old(View()).(accounts := accounts)
        invariant accounts == RevertSlots(old(accounts), accessedStorages[..i])
      {
        var (addr, key) := accessedStorages[i];
        NextReverted(old(accounts), accessedStorages, i);
        var orig := Slot(accounts, addr, key).0;
        accounts := PutSlot(accounts, addr, key, (orig, orig));
      }
      assert accessedStorages[..|accessedStorages|] == accessedStorages;
      ClearAllTransients();
      EraseCreated();
      accessedStorages, accessedTransients, recentlyCreatedContracts := [], [], [];
      currentTxHash, emittedEvents := ZERO_HASH, [];
    }

    method EraseCreated()
      modifies this
      ensures View() == old(View()).(contractAddresses := Erase(old(contractAddresses), old(recentlyCreatedContracts)))
    {
      for i := 0 to |recentlyCreatedContracts|
        invariant View() == old(View()).(contractAddresses := contractAddresses)
        invariant contractAddresses == Erase(old(contractAddresses), recentlyCreatedContracts[..i])
      {
        var h := recentlyCreatedContracts[i];
        assert forall x :: x in recentlyCreatedContracts[..i + 1] <==> x in recentlyCreatedContracts[..i] || x == h;
        contractAddresses := contractAddresses - {h};
      }
      assert recentlyCreatedContracts[..|recentlyCreatedContracts|] == recentlyCreatedContracts;
    }

    method RevertCode()
      modifies this
      ensures View() == CodeReverted(old(View()))
    {
      hide At, PutCode, RevertCodes;
      NoCodesWalked(accounts, accessedAccountsCode);
      for i := 0 to |accessedAccountsCode|
        invariant View() == old(View()).(accounts := accounts)
        invariant accounts == RevertCodes(old(accounts), accessedAccountsCode[..i])
      {
        NextCodes(old(accounts), accessedAccountsCode, i);
        var orig := At(accounts, accessedAccountsCode[i]);
        accounts := PutCode(accounts, accessedAccountsCode[i], (orig.code.0, orig.code.0),
          (orig.codeHash.0, orig.codeHash.0));
      }
      assert accessedAccountsCode[..|accessedAccountsCode|] == accessedAccountsCode;
      accessedAccountsCode := [];
    }
  }
}
