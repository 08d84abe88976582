/**
 What the EVM reads back from its host: every observable behind any host calls, and
 behind any sequence of transactions (src/core/evmhost.hpp).
 */
module EvmWrites {
  import opened Words
  import opened EvmHost
  import opened EvmJournal

  /* The last write of a list of calls, or what was there before it */

  function LastStored(calls: seq<HostCall>, x: Address, k: Hash, was: Hash): Hash {
    if calls == [] then was
    else
      var before, last := LastStored(calls[..|calls| - 1], x, k, was), calls[|calls| - 1];
      match last
      case SetStorage(y, j, value) => if y == x && j == k then value else before
      case _ => before
  }

  function LastTransient(calls: seq<HostCall>, x: Address, k: Hash, was: Hash): Hash {
    if calls == [] then was
    else
      var before, last := LastTransient(calls[..|calls| - 1], x, k, was), calls[|calls| - 1];
      match last
      case SetTransientStorage(y, j, value) => if y == x && j == k then value else before
      case _ => before
  }

  // Code and its hash.
  function LastCode(sha3: Bytes -> Hash, calls: seq<HostCall>, x: Address, was: (Bytes, Hash)): (Bytes, Hash) {
    if calls == [] then was
    else
      var before, last := LastCode(sha3, calls[..|calls| - 1], x, was), calls[|calls| - 1];
      match last
      case CreateContract(y, code) => if y == x then (code, sha3(code)) else before
      case _ => before
  }

  function LastCreated(calls: seq<HostCall>, h: Hash, was: map<Hash, Address>): map<Hash, Address> {
    if calls == [] then was
    else
      var before, last := LastCreated(calls[..|calls| - 1], h, was), calls[|calls| - 1];
      match last
      case CreateContract(y, _) => before[h := y]
      case _ => before
  }

  function Logs(calls: seq<HostCall>): seq<EvmEvent> {
    if calls == [] then []
    else
      var before, last := Logs(calls[..|calls| - 1]), calls[|calls| - 1];
      match last
      case EmitLog(event) => before + [event]
      case _ => before
  }

  // What one call writes is read back, and nothing else changes.
  lemma ApplyReadsBack(sha3: Bytes -> Hash, v: HostView, call: HostCall, x: Address, k: Hash)
    ensures var a, w := v.accounts, Apply(sha3, v, call);
      && w.currentTxHash == v.currentTxHash
      && GetStorage(w.accounts, x, k)
         == (if call.SetStorage? && call.addr == x && call.key == k then call.value else GetStorage(a, x, k))
      && GetTransientStorage(w.accounts, x, k)
         == (if call.SetTransientStorage? && call.addr == x && call.key == k then call.value
             else GetTransientStorage(a, x, k))
      && (GetCode(w.accounts, x), GetCodeHash(w.accounts, x))
         == (if call.CreateContract? && call.contractAddress == x then (call.code, sha3(call.code))
             else (GetCode(a, x), GetCodeHash(a, x)))
      && w.contractAddresses
         == (if call.CreateContract? then v.contractAddresses[v.currentTxHash := call.contractAddress]
             else v.contractAddresses)
      && w.emittedEvents == (if call.EmitLog? then v.emittedEvents + [call.event] else v.emittedEvents)
      && w.shouldRevert == (v.shouldRevert || call.Selfdestruct?)
  {
    StoresOnly(sha3, v, call, x, k);
    CodeOnly(sha3, v, call, x);
    hide GetStorage, GetTransientStorage, GetCode, GetCodeHash, PutSlot, PutCode, PutTransient, Slot, At;
  }

  lemma StoresOnly(sha3: Bytes -> Hash, v: HostView, call: HostCall, x: Address, k: Hash)
    ensures var a, b := v.accounts, Apply(sha3, v, call).accounts;
      && GetStorage(b, x, k)
         == (if call.SetStorage? && call.addr == x && call.key == k then call.value else GetStorage(a, x, k))
      && GetTransientStorage(b, x, k)
         == (if call.SetTransientStorage? && call.addr == x && call.key == k then call.value
             else GetTransientStorage(a, x, k))
  {
  }

  lemma CodeOnly(sha3: Bytes -> Hash, v: HostView, call: HostCall, x: Address)
    ensures var a, b := v.accounts, Apply(sha3, v, call).accounts;
      (GetCode(b, x), GetCodeHash(b, x))
      == if call.CreateContract? && call.contractAddress == x then (call.code, sha3(call.code))
         else (GetCode(a, x), GetCodeHash(a, x))
  {
  }

  // Behind any host calls the EVM reads the last value written, or what was there.
  lemma {:induction false} CallsReadBack(sha3: Bytes -> Hash, v: HostView, calls: seq<HostCall>, x: Address, k: Hash)
    ensures var a, w := v.accounts, ApplyAll(sha3, v, calls);
      && w.currentTxHash == v.currentTxHash
      && GetStorage(w.accounts, x, k) == LastStored(calls, x, k, GetStorage(a, x, k))
      && GetTransientStorage(w.accounts, x, k) == LastTransient(calls, x, k, GetTransientStorage(a, x, k))
      && (GetCode(w.accounts, x), GetCodeHash(w.accounts, x))
         == LastCode(sha3, calls, x, (GetCode(a, x), GetCodeHash(a, x)))
      && w.contractAddresses == LastCreated(calls, v.currentTxHash, v.contractAddresses)
      && w.emittedEvents == v.emittedEvents + Logs(calls)
      && (w.shouldRevert <==> v.shouldRevert || Selfdestruct in calls)
  {
    hide Apply, GetStorage, GetTransientStorage, GetCode, GetCodeHash;
    if calls != [] {
      var init, last := calls[..|calls| - 1], calls[|calls| - 1];
      CallsReadBack(sha3, v, init, x, k);
      ApplyReadsBack(sha3, ApplyAll(sha3, v, init), last, x, k);
      assert calls == init + [last];
    }
  }

  /* Transactions */

  // A successful transaction leaves what its calls wrote last, a failing one what was there.
  lemma TxReadsBack(sha3: Bytes -> Hash, v: HostView, t: TxRun, x: Address, k: Hash)
    requires Clean(v)
    ensures var a, b := v.accounts, RunTx(sha3, v, t).accounts;
      && GetStorage(b, x, k) == (if t.ok then LastStored(t.calls, x, k, GetStorage(a, x, k)) else GetStorage(a, x, k))
      && (GetCode(b, x), GetCodeHash(b, x))
         == (if t.ok then LastCode(sha3, t.calls, x, (GetCode(a, x), GetCodeHash(a, x)))
             else (GetCode(a, x), GetCodeHash(a, x)))
      && GetTransientStorage(b, x, k) == ZERO_HASH
    ensures Clean(RunTx(sha3, v, t))
  {
    var v0 := v.(currentTxHash := t.hash);
    var w := ApplyAll(sha3, v0, t.calls);
    RunKeepsJournal(sha3, v0, t.calls);
    CallsReadBack(sha3, v0, t.calls, x, k);
    if t.ok {
      CommitKeeps(v0, w);
    } else {
      RevertRestores(v0, w);
    }
    hide ApplyAll, Settled, RolledBack, LastStored, LastCode, Slot;
    assert Slot(v.accounts, x, k) == Slot(v0.accounts, x, k);
  }

  function AllCalls(ts: seq<TxRun>): seq<HostCall> {
    if ts == [] then [] else (if ts[0].ok then ts[0].calls else []) + AllCalls(ts[1..])
  }

  lemma {:induction false} LastOfBoth(sha3: Bytes -> Hash, first: seq<HostCall>, next: seq<HostCall>, x: Address,
                                      k: Hash, was: Hash, code: (Bytes, Hash))
    ensures LastStored(first + next, x, k, was) == LastStored(next, x, k, LastStored(first, x, k, was))
    ensures LastCode(sha3, first + next, x, code) == LastCode(sha3, next, x, LastCode(sha3, first, x, code))
  {
    if next == [] {
      assert first + next == first;
    } else {
      var init := next[..|next| - 1];
      assert (first + next)[..|first + next| - 1] == first + init;
      LastOfBoth(sha3, first, init, x, k, was, code);
    }
  }

  // Over any sequence of transactions storage and code hold what the successful ones wrote last.
  lemma {:induction false} RunReadsBack(sha3: Bytes -> Hash, v: HostView, ts: seq<TxRun>, x: Address, k: Hash)
    requires Clean(v)
    ensures var a, b := v.accounts, RunTxs(sha3, v, ts).accounts;
      && GetStorage(b, x, k) == LastStored(AllCalls(ts), x, k, GetStorage(a, x, k))
      && (GetCode(b, x), GetCodeHash(b, x)) == LastCode(sha3, AllCalls(ts), x, (GetCode(a, x), GetCodeHash(a, x)))
    decreases |ts|
  {
    hide Clean, RunTx, GetStorage, GetCode, GetCodeHash, LastStored, LastCode;
    var a := v.accounts;
    var was, code := GetStorage(a, x, k), (GetCode(a, x), GetCodeHash(a, x));
    if ts == [] {
      NothingStored(sha3, x, k, was, code);
    } else {
      var now, rest := RunTx(sha3, v, ts[0]), AllCalls(ts[1..]);
      TxReadsBack(sha3, v, ts[0], x, k);
      RunReadsBack(sha3, now, ts[1..], x, k);
      LastOfBoth(sha3, ts[0].calls, rest, x, k, was, code);
      assert [] + rest == rest;
    }
  }

  lemma NothingStored(sha3: Bytes -> Hash, x: Address, k: Hash, was: Hash, code: (Bytes, Hash))
    ensures LastStored([], x, k, was) == was && LastCode(sha3, [], x, code) == code
  {
  }

  // What set_storage reports: nothing of note for a value that does not change or a slot written before in this
  // transaction, otherwise what the change does to a slot that was or becomes zero.
  lemma StatusExactly(slot: (Hash, Hash), value: Hash)
    ensures var changes, first := value != slot.1, slot.0 == slot.1;
      && (StatusOf(slot, value) == Added <==> changes && first && slot.0 == ZERO_HASH)
      && (StatusOf(slot, value) == Deleted <==> changes && first && slot.0 != ZERO_HASH && value == ZERO_HASH)
      && (StatusOf(slot, value) == Modified <==> changes && first && slot.0 != ZERO_HASH && value != ZERO_HASH)
  {
  }
}
