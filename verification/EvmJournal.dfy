/**
 What the journal of the EVM host guarantees: a revert restores every observable, a
 commit makes the current values original, failed transactions leave no trace.
 */
module EvmJournal {
  import opened Words
  import opened EvmHost

  /* What commit and revert do to each entry */

  ghost predicate SameCode(a: EvmAccounts, b: EvmAccounts) {
    forall x :: At(b, x).code == At(a, x).code && At(b, x).codeHash == At(a, x).codeHash
  }

  ghost predicate SameSlots(a: EvmAccounts, b: EvmAccounts) {
    forall x, k :: Slot(b, x, k) == Slot(a, x, k)
  }

  ghost predicate SameTransients(a: EvmAccounts, b: EvmAccounts) {
    forall x :: At(b, x).transient == At(a, x).transient
  }

  lemma PutSlotAt(a: EvmAccounts, x: Address, k: Hash, slot: (Hash, Hash))
    ensures var b := PutSlot(a, x, k, slot);
      SameCode(a, b) && SameTransients(a, b)
      && forall y, j :: Slot(b, y, j) == if (y, j) == (x, k) then slot else Slot(a, y, j)
  {
  }

  lemma {:induction false} CommitSlotsAt(a: EvmAccounts, list: seq<(Address, Hash)>)
    ensures var b := CommitSlots(a, list);
      SameCode(a, b) && SameTransients(a, b)
      && forall x, k :: Slot(b, x, k) == if (x, k) in list then (Slot(a, x, k).1, Slot(a, x, k).1) else Slot(a, x, k)
  {
    if list != [] {
      var before := CommitSlots(a, list[..|list| - 1]);
      var (x, k) := list[|list| - 1];
      CommitSlotsAt(a, list[..|list| - 1]);
      PutSlotAt(before, x, k, (Slot(before, x, k).1, Slot(before, x, k).1));
      hide Slot, PutSlot, At;
      assert list == list[..|list| - 1] + [(x, k)];
    }
  }

  lemma {:induction false} RevertSlotsAt(a: EvmAccounts, list: seq<(Address, Hash)>)
    ensures var b := RevertSlots(a, list);
      SameCode(a, b) && SameTransients(a, b)
      && forall x, k :: Slot(b, x, k) == if (x, k) in list then (Slot(a, x, k).0, Slot(a, x, k).0) else Slot(a, x, k)
  {
    if list != [] {
      var before := RevertSlots(a, list[..|list| - 1]);
      var (x, k) := list[|list| - 1];
      RevertSlotsAt(a, list[..|list| - 1]);
      PutSlotAt(before, x, k, (Slot(before, x, k).0, Slot(before, x, k).0));
      hide Slot, PutSlot, At;
      assert list == list[..|list| - 1] + [(x, k)];
    }
  }

  lemma {:induction false} ClearTransientsAt(a: EvmAccounts, list: seq<Address>)
    ensures var b := ClearTransients(a, list);
      SameCode(a, b) && SameSlots(a, b)
      && forall x :: At(b, x).transient == if x in list then map[] else At(a, x).transient
  {
    if list != [] {
      ClearTransientsAt(a, list[..|list| - 1]);
      assert list == list[..|list| - 1] + [list[|list| - 1]];
    }
  }

  lemma {:induction false} CommitCodesAt(a: EvmAccounts, list: seq<Address>)
    ensures var b := CommitCodes(a, list);
      SameSlots(a, b) && SameTransients(a, b)
      && (forall x :: At(b, x).code == if x in list then (At(a, x).code.1, At(a, x).code.1) else At(a, x).code)
      && forall x :: At(b, x).codeHash
                  == if x in list then (At(a, x).codeHash.1, At(a, x).codeHash.1) else At(a, x).codeHash
  {
    if list != [] {
      CommitCodesAt(a, list[..|list| - 1]);
      assert list == list[..|list| - 1] + [list[|list| - 1]];
    }
  }

  lemma {:induction false} RevertCodesAt(a: EvmAccounts, list: seq<Address>)
    ensures var b := RevertCodes(a, list);
      SameSlots(a, b) && SameTransients(a, b)
      && (forall x :: At(b, x).code == if x in list then (At(a, x).code.0, At(a, x).code.0) else At(a, x).code)
      && forall x :: At(b, x).codeHash
                  == if x in list then (At(a, x).codeHash.0, At(a, x).codeHash.0) else At(a, x).codeHash
  {
    if list != [] {
      RevertCodesAt(a, list[..|list| - 1]);
      assert list == list[..|list| - 1] + [list[|list| - 1]];
    }
  }

  /* The journal of one transaction */

  ghost predicate CleanAccounts(a: EvmAccounts) {
    (forall x, k :: Slot(a, x, k).0 == Slot(a, x, k).1)
    && forall x :: At(a, x).code.0 == At(a, x).code.1 && At(a, x).codeHash.0 == At(a, x).codeHash.1
                   && At(a, x).transient == map[]
  }

  ghost predicate Clean(v: HostView) {
    CleanAccounts(v.accounts) && v.accessedStorages == [] && v.accessedTransients == [] && v.accessedCode == []
    && v.recentlyCreated == [] && v.emittedEvents == []
  }

  // Whatever differs from its original is in an access list, and the originals are those of v0.
  ghost predicate Journaled(v0: HostView, v: HostView) {
    v.currentTxHash == v0.currentTxHash
    && (forall x, k :: Slot(v.accounts, x, k).0 == Slot(v0.accounts, x, k).1)
    && (forall x, k :: Slot(v.accounts, x, k).0 != Slot(v.accounts, x, k).1 ==> (x, k) in v.accessedStorages)
    && (forall x :: CodeJournaled(At(v0.accounts, x), At(v.accounts, x), x in v.accessedCode))
    && forall x :: At(v.accounts, x).transient != map[] ==> x in v.accessedTransients
  }

  predicate CodeJournaled(was: EvmAccount, now: EvmAccount, accessed: bool) {
    now.code.0 == was.code.1 && now.codeHash.0 == was.codeHash.1
    && (now.code.0 != now.code.1 || now.codeHash.0 != now.codeHash.1 ==> accessed)
  }

  lemma PutTransientAt(a: EvmAccounts, x: Address, transient: map<Hash, Hash>)
    ensures var b := PutTransient(a, x, transient);
      SameCode(a, b) && SameSlots(a, b)
      && forall y :: At(b, y).transient == if y == x then transient else At(a, y).transient
  {
  }

  lemma PutCodeAt(a: EvmAccounts, x: Address, code: (Bytes, Bytes), hash: (Hash, Hash))
    ensures var b := PutCode(a, x, code, hash);
      SameTransients(a, b) && SameSlots(a, b)
      && forall y :: At(b, y) == if y == x then At(a, y).(code := code, codeHash := hash) else At(a, y)
  {
  }

  lemma TouchLikes(a: EvmAccounts, x: Address)
    ensures Like(a, a[x := At(a, x)])
  {
  }

  lemma SlotsKeepJournal(sha3: Bytes -> Hash, v0: HostView, v: HostView, x: Address, k: Hash, value: Hash)
    requires Journaled(v0, v)
    ensures Journaled(v0, Apply(sha3, v, SetStorage(x, k, value)))
  {
    var slot := (Slot(v.accounts, x, k).0, value);
    PutSlotAt(v.accounts, x, k, slot);
    hide Slot, PutSlot, At, CodeJournaled;
    var w := Apply(sha3, v, SetStorage(x, k, value));
    assert w.accessedStorages[|v.accessedStorages|] == (x, k);
    forall y ensures CodeJournaled(At(v0.accounts, y), At(w.accounts, y), y in w.accessedCode) {
      SameCodeJournaled(At(v0.accounts, y), At(v.accounts, y), At(w.accounts, y), y in v.accessedCode);
    }
  }

  lemma SameCodeJournaled(was: EvmAccount, mid: EvmAccount, now: EvmAccount, accessed: bool)
    requires CodeJournaled(was, mid, accessed) && mid.code == now.code && mid.codeHash == now.codeHash
    ensures CodeJournaled(was, now, accessed)
  {
  }

  lemma TransientsKeepJournal(sha3: Bytes -> Hash, v0: HostView, v: HostView, x: Address, k: Hash, value: Hash)
    requires Journaled(v0, v)
    ensures Journaled(v0, Apply(sha3, v, SetTransientStorage(x, k, value)))
  {
    PutTransientAt(v.accounts, x, At(v.accounts, x).transient[k := value]);
    hide Slot, PutTransient, At, CodeJournaled;
    var w := Apply(sha3, v, SetTransientStorage(x, k, value));
    assert w.accessedTransients[|v.accessedTransients|] == x;
    forall y ensures CodeJournaled(At(v0.accounts, y), At(w.accounts, y), y in w.accessedCode) {
      SameCodeJournaled(At(v0.accounts, y), At(v.accounts, y), At(w.accounts, y), y in v.accessedCode);
    }
  }

  lemma CreationsKeepJournal(sha3: Bytes -> Hash, v0: HostView, v: HostView, x: Address, code: Bytes)
    requires Journaled(v0, v)
    ensures Journaled(v0, Apply(sha3, v, CreateContract(x, code)))
  {
    var was := At(v.accounts, x);
    PutCodeAt(v.accounts, x, (was.code.0, code), (was.codeHash.0, sha3(code)));
    hide Slot, PutCode, At;
    var w := Apply(sha3, v, CreateContract(x, code));
    assert w.accessedCode[|v.accessedCode|] == x;
    forall y ensures CodeJournaled(At(v0.accounts, y), At(w.accounts, y), y in w.accessedCode) {
      assert CodeJournaled(At(v0.accounts, y), At(v.accounts, y), y in v.accessedCode);
    }
  }

  lemma TouchesKeepJournal(sha3: Bytes -> Hash, v0: HostView, v: HostView, x: Address)
    requires Journaled(v0, v)
    ensures Journaled(v0, Apply(sha3, v, TouchAccount(x)))
  {
    TouchLikes(v.accounts, x);
    hide Slot, At, CodeJournaled;
    var w := Apply(sha3, v, TouchAccount(x));
    forall y ensures CodeJournaled(At(v0.accounts, y), At(w.accounts, y), y in w.accessedCode) {
      SameCodeJournaled(At(v0.accounts, y), At(v.accounts, y), At(w.accounts, y), y in v.accessedCode);
    }
  }

  lemma ApplyKeepsJournal(sha3: Bytes -> Hash, v0: HostView, v: HostView, call: HostCall)
    requires Journaled(v0, v)
    ensures Journaled(v0, Apply(sha3, v, call))
  {
    match call
    case SetStorage(x, k, value) => SlotsKeepJournal(sha3, v0, v, x, k, value);
    case SetTransientStorage(x, k, value) => TransientsKeepJournal(sha3, v0, v, x, k, value);
    case EmitLog(_) =>
    case CreateContract(x, code) => CreationsKeepJournal(sha3, v0, v, x, code);
    case TouchAccount(x) => TouchesKeepJournal(sha3, v0, v, x);
    case Selfdestruct =>
  }

  // From a clean host, after any host calls.
  lemma {:induction false} RunKeepsJournal(sha3: Bytes -> Hash, v0: HostView, calls: seq<HostCall>)
    requires Clean(v0)
    ensures Journaled(v0, ApplyAll(sha3, v0, calls))
  {
    if calls != [] {
      RunKeepsJournal(sha3, v0, calls[..|calls| - 1]);
      ApplyKeepsJournal(sha3, v0, ApplyAll(sha3, v0, calls[..|calls| - 1]), calls[|calls| - 1]);
    }
  }

  /* Observables */

  ghost predicate SameObservables(v: HostView, w: HostView) {
    (forall x, k :: GetStorage(v.accounts, x, k) == GetStorage(w.accounts, x, k))
    && (forall x, k :: GetTransientStorage(v.accounts, x, k) == GetTransientStorage(w.accounts, x, k))
    && (forall x :: GetCode(v.accounts, x) == GetCode(w.accounts, x))
    && (forall x :: GetCodeHash(v.accounts, x) == GetCodeHash(w.accounts, x))
    && v.contractAddresses == w.contractAddresses && v.emittedEvents == w.emittedEvents
  }

  function RolledBack(v: HostView): HostView {
    CodeReverted(Reverted(v))
  }

  function Settled(v: HostView): HostView {
    CodeCommitted(Committed(v))
  }

  // revert and revertCode restore storage, code and transient storage, original and current, and leave a clean
  // host behind.
  lemma RevertRestores(v0: HostView, v: HostView)
    requires Clean(v0) && Journaled(v0, v)
    ensures Like(v0.accounts, RolledBack(v).accounts) && Clean(RolledBack(v))
  {
    var a := RevertSlots(v.accounts, v.accessedStorages);
    var b := ClearTransients(a, v.accessedTransients);
    RevertSlotsAt(v.accounts, v.accessedStorages);
    ClearTransientsAt(a, v.accessedTransients);
    RevertCodesAt(b, v.accessedCode);
    hide Slot, RevertSlots, ClearTransients, RevertCodes, At;
    assert Like(v0.accounts, RolledBack(v).accounts);
  }

  /* Created contracts */

  predicate Creates(calls: seq<HostCall>) {
    exists i :: 0 <= i < |calls| && calls[i].CreateContract?
  }

  // Every creation of the transaction is recorded under its hash, and only there.
  lemma {:induction false} CreationsRecorded(sha3: Bytes -> Hash, v0: HostView, calls: seq<HostCall>)
    ensures var v, h := ApplyAll(sha3, v0, calls), v0.currentTxHash;
      v.currentTxHash == h && v.contractAddresses - {h} == v0.contractAddresses - {h}
      && (!Creates(calls) ==> v.contractAddresses == v0.contractAddresses)
      && forall x :: x in v.recentlyCreated <==> x in v0.recentlyCreated || (Creates(calls) && x == h)
  {
    if calls != [] {
      var init, last := calls[..|calls| - 1], calls[|calls| - 1];
      CreationsRecorded(sha3, v0, init);
      var v := ApplyAll(sha3, v0, init);
      assert Creates(calls) <==> Creates(init) || last.CreateContract? by { CreatesLast(calls); }
      hide Creates, ApplyAll, PutSlot, PutCode, PutTransient;
      if last.CreateContract? {
        assert (v.recentlyCreated + [v.currentTxHash])[|v.recentlyCreated|] == v.currentTxHash;
      }
    }
  }

  lemma CreatesLast(calls: seq<HostCall>)
    requires calls != []
    ensures Creates(calls) <==> Creates(calls[..|calls| - 1]) || calls[|calls| - 1].CreateContract?
  {
    var init := calls[..|calls| - 1];
    if i :| 0 <= i < |init| && init[i].CreateContract? {
      assert calls[i].CreateContract?;
    }
    if i :| 0 <= i < |calls| && calls[i].CreateContract? {
      assert i < |init| ==> init[i].CreateContract?;
    }
  }

  // What a revert leaves of the created addresses: without a creation all, otherwise all but those under the
  // hash of the transaction.
  lemma RevertedCreations(sha3: Bytes -> Hash, v0: HostView, calls: seq<HostCall>)
    requires Clean(v0)
    ensures RolledBack(ApplyAll(sha3, v0, calls)).contractAddresses
         == if Creates(calls) then v0.contractAddresses - {v0.currentTxHash} else v0.contractAddresses
  {
    CreationsRecorded(sha3, v0, calls);
    var v, h := ApplyAll(sha3, v0, calls), v0.currentTxHash;
    hide ApplyAll, Creates, RevertSlots, RevertCodes, ClearTransients;
    if Creates(calls) {
      assert Erase(v.contractAddresses, v.recentlyCreated) == v.contractAddresses - {h};
    } else {
      assert Erase(v.contractAddresses, v.recentlyCreated) == v.contractAddresses;
    }
  }

  // For any host calls of a transaction on a clean host: reverting restores everything observable if and only if
  // the hash had not created a contract before, or the calls create none.
  lemma RevertRestoresExactly(sha3: Bytes -> Hash, v0: HostView, calls: seq<HostCall>)
    requires Clean(v0)
    ensures SameObservables(v0, RolledBack(ApplyAll(sha3, v0, calls)))
       <==> v0.currentTxHash !in v0.contractAddresses || !Creates(calls)
  {
    var v := ApplyAll(sha3, v0, calls);
    RunKeepsJournal(sha3, v0, calls);
    RevertRestores(v0, v);
    RevertedCreations(sha3, v0, calls);
    LikeIsObservable(v0.accounts, RolledBack(v).accounts);
    hide ApplyAll, Creates, Like, CleanAccounts, Journaled, RolledBack;
    assert v0.currentTxHash !in v0.contractAddresses ==>
        v0.contractAddresses - {v0.currentTxHash} == v0.contractAddresses;
  }

  // The two tables answer every read alike, original and current values.
  ghost predicate Like(a: EvmAccounts, b: EvmAccounts) {
    SameSlots(a, b) && SameCode(a, b) && SameTransients(a, b)
  }

  lemma LikeIsObservable(a: EvmAccounts, b: EvmAccounts)
    requires Like(a, b)
    ensures forall x, k :: GetStorage(a, x, k) == GetStorage(b, x, k)
    ensures forall x, k :: GetTransientStorage(a, x, k) == GetTransientStorage(b, x, k)
    ensures forall x :: GetCode(a, x) == GetCode(b, x) && GetCodeHash(a, x) == GetCodeHash(b, x)
  {
    hide Slot, At;
    assert forall x :: At(b, x).transient == At(a, x).transient;
  }

  lemma SettledTables(v: HostView)
    ensures var s := Settled(v).accounts;
      (forall x, k :: Slot(s, x, k) == if (x, k) in v.accessedStorages
                                       then (Slot(v.accounts, x, k).1, Slot(v.accounts, x, k).1)
                                       else Slot(v.accounts, x, k))
      && (forall x :: At(s, x).transient == if x in v.accessedTransients then map[] else At(v.accounts, x).transient)
      && forall x :: At(s, x).code == (if x in v.accessedCode then (At(v.accounts, x).code.1, At(v.accounts, x).code.1)
                                       else At(v.accounts, x).code)
                     && At(s, x).codeHash == if x in v.accessedCode
                                             then (At(v.accounts, x).codeHash.1, At(v.accounts, x).codeHash.1)
                                             else At(v.accounts, x).codeHash
  {
    var a := CommitSlots(v.accounts, v.accessedStorages);
    var b := ClearTransients(a, v.accessedTransients);
    CommitSlotsAt(v.accounts, v.accessedStorages);
    ClearTransientsAt(a, v.accessedTransients);
    CommitCodesAt(b, v.accessedCode);
    hide Slot, CommitSlots, ClearTransients, CommitCodes, At;
  }

  // commit and commitCode keep storage, code and created contracts, clear the transient storage and leave a
  // clean host; reverting it then changes nothing at all.
  lemma CommitKeeps(v0: HostView, v: HostView)
    requires Clean(v0) && Journaled(v0, v)
    ensures Clean(Settled(v)) && RolledBack(Settled(v)) == Settled(v)
    ensures forall x, k :: GetStorage(Settled(v).accounts, x, k) == GetStorage(v.accounts, x, k)
    ensures forall x :: GetCode(Settled(v).accounts, x) == GetCode(v.accounts, x)
                        && GetCodeHash(Settled(v).accounts, x) == GetCodeHash(v.accounts, x)
    ensures Settled(v).contractAddresses == v.contractAddresses
  {
    SettledTables(v);
    RevertOfEmpty(Settled(v));
    hide Slot, CommitSlots, ClearTransients, CommitCodes, At, RolledBack;
  }

  lemma RevertOfEmpty(v: HostView)
    requires v.accessedStorages == [] && v.accessedTransients == [] && v.accessedCode == [] && v.recentlyCreated == []
    requires v.currentTxHash == ZERO_HASH && v.emittedEvents == []
    ensures RolledBack(v) == v
  {
    assert Erase(v.contractAddresses, []) == v.contractAddresses;
  }

  /* Sequences of transactions */

  datatype TxRun = TxRun(hash: Hash, calls: seq<HostCall>, ok: bool)

  // currentTxHash is set, the EVM runs, and the outcome decides between commit and revert.
  function RunTx(sha3: Bytes -> Hash, v: HostView, t: TxRun): HostView {
    var w := ApplyAll(sha3, v.(currentTxHash := t.hash), t.calls);
    (if t.ok then Settled(w) else RolledBack(w)).(shouldRevert := false)
  }

  function RunTxs(sha3: Bytes -> Hash, v: HostView, ts: seq<TxRun>): HostView
    decreases |ts|
  {
    if ts == [] then v else RunTxs(sha3, RunTx(sha3, v, ts[0]), ts[1..])
  }

  function Successful(ts: seq<TxRun>): seq<TxRun> {
    if ts == [] then [] else (if ts[0].ok then [ts[0]] else []) + Successful(ts[1..])
  }

  // Equal but for entries that only differ in being absent or holding the default.
  ghost predicate Equivalent(v: HostView, w: HostView) {
    Like(v.accounts, w.accounts) && v == w.(accounts := v.accounts)
  }

  // No failing transaction that creates a contract reuses a hash that has created one before it.
  ghost predicate FreshFailures(sha3: Bytes -> Hash, v: HostView, ts: seq<TxRun>)
    decreases |ts|
  {
    ts == []
    || ((ts[0].ok || !Creates(ts[0].calls) || ts[0].hash !in v.contractAddresses)
        && FreshFailures(sha3, RunTx(sha3, v, ts[0]), ts[1..]))
  }

  lemma ApplyRespects(sha3: Bytes -> Hash, v: HostView, w: HostView, call: HostCall)
    requires Equivalent(v, w)
    ensures Equivalent(Apply(sha3, v, call), Apply(sha3, w, call))
  {
    hide Slot, At, PutSlot, PutTransient, PutCode;
    match call
    case SetStorage(x, k, value) => PutSlotRespects(v.accounts, w.accounts, x, k, value);
    case SetTransientStorage(x, k, value) => PutTransientRespects(v.accounts, w.accounts, x, k, value);
    case EmitLog(_) =>
    case CreateContract(x, code) => PutCodeRespects(v.accounts, w.accounts, x, code, sha3(code));
    case TouchAccount(x) =>
      TouchLikes(v.accounts, x);
      TouchLikes(w.accounts, x);
    case Selfdestruct =>
  }

  lemma PutSlotRespects(a: EvmAccounts, b: EvmAccounts, x: Address, k: Hash, value: Hash)
    requires Like(a, b)
    ensures Slot(a, x, k) == Slot(b, x, k)
    ensures Like(PutSlot(a, x, k, (Slot(a, x, k).0, value)), PutSlot(b, x, k, (Slot(b, x, k).0, value)))
  {
    hide Slot, PutSlot, At;
    PutSlotAt(a, x, k, (Slot(a, x, k).0, value));
    PutSlotAt(b, x, k, (Slot(b, x, k).0, value));
  }

  lemma PutTransientRespects(a: EvmAccounts, b: EvmAccounts, x: Address, k: Hash, value: Hash)
    requires Like(a, b)
    ensures Like(PutTransient(a, x, At(a, x).transient[k := value]), PutTransient(b, x, At(b, x).transient[k := value]))
  {
    hide Slot, PutTransient, At;
    PutTransientAt(a, x, At(a, x).transient[k := value]);
    PutTransientAt(b, x, At(b, x).transient[k := value]);
  }

  lemma PutCodeRespects(a: EvmAccounts, b: EvmAccounts, x: Address, code: Bytes, hash: Hash)
    requires Like(a, b)
    ensures At(a, x).code == At(b, x).code && At(a, x).codeHash == At(b, x).codeHash
    ensures Like(PutCode(a, x, (At(a, x).code.0, code), (At(a, x).codeHash.0, hash)),
                 PutCode(b, x, (At(b, x).code.0, code), (At(b, x).codeHash.0, hash)))
  {
    hide Slot, PutCode, At;
    PutCodeAt(a, x, (At(a, x).code.0, code), (At(a, x).codeHash.0, hash));
    PutCodeAt(b, x, (At(b, x).code.0, code), (At(b, x).codeHash.0, hash));
  }

  lemma {:induction false} ApplyAllRespects(sha3: Bytes -> Hash, v: HostView, w: HostView, calls: seq<HostCall>)
    requires Equivalent(v, w)
    ensures Equivalent(ApplyAll(sha3, v, calls), ApplyAll(sha3, w, calls))
  {
    hide Equivalent, Apply;
    if calls != [] {
      var init, last := calls[..|calls| - 1], calls[|calls| - 1];
      ApplyAllRespects(sha3, v, w, init);
      ApplyRespects(sha3, ApplyAll(sha3, v, init), ApplyAll(sha3, w, init), last);
    }
  }

  lemma SettledRespects(v: HostView, w: HostView)
    requires Equivalent(v, w)
    ensures Equivalent(Settled(v), Settled(w))
  {
    SettledTables(v);
    SettledTables(w);
    hide Slot, CommitSlots, ClearTransients, CommitCodes, At;
  }

  // A transaction leaves the host clean; a failed one, unless it creates under a used hash, leaves an equivalent
  // host.
  lemma TxIsAtomic(sha3: Bytes -> Hash, v: HostView, t: TxRun)
    requires Clean(v) && v.currentTxHash == ZERO_HASH && !v.shouldRevert
    ensures Clean(RunTx(sha3, v, t)) && RunTx(sha3, v, t).currentTxHash == ZERO_HASH && !RunTx(sha3, v, t).shouldRevert
    ensures !t.ok && (!Creates(t.calls) || t.hash !in v.contractAddresses) ==> Equivalent(v, RunTx(sha3, v, t))
  {
    var v0 := v.(currentTxHash := t.hash);
    var w := ApplyAll(sha3, v0, t.calls);
    RunKeepsJournal(sha3, v0, t.calls);
    if t.ok {
      CommitKeeps(v0, w);
    } else {
      RevertRestores(v0, w);
      RevertedCreations(sha3, v0, t.calls);
      assert t.hash !in v.contractAddresses ==> v.contractAddresses - {t.hash} == v.contractAddresses;
    }
    hide CleanAccounts, Like, ApplyAll, Creates, CommitSlots, CommitCodes, RevertSlots, RevertCodes, ClearTransients;
  }

  // Failed transactions leave no trace: the host ends as if only the successful ones had run.
  lemma {:induction false} FailuresLeaveNoTrace(sha3: Bytes -> Hash, v: HostView, w: HostView, ts: seq<TxRun>)
    requires Clean(v) && v.currentTxHash == ZERO_HASH && !v.shouldRevert && Equivalent(v, w)
    requires FreshFailures(sha3, v, ts)
    ensures Equivalent(RunTxs(sha3, v, ts), RunTxs(sha3, w, Successful(ts)))
    decreases |ts|
  {
    hide Clean, RunTx;
    if ts != [] {
      var t, rest := ts[0], ts[1..];
      TxIsAtomic(sha3, v, t);
      if t.ok {
        OkRespects(sha3, v, w, t);
        FailuresLeaveNoTrace(sha3, RunTx(sha3, v, t), RunTx(sha3, w, t), rest);
        assert Successful(ts)[0] == t && Successful(ts)[1..] == Successful(rest);
      } else {
        FailuresLeaveNoTrace(sha3, RunTx(sha3, v, t), w, rest);
        assert Successful(ts) == Successful(rest);
      }
    }
  }

  lemma OkRespects(sha3: Bytes -> Hash, v: HostView, w: HostView, t: TxRun)
    requires Equivalent(v, w) && t.ok
    ensures Equivalent(RunTx(sha3, v, t), RunTx(sha3, w, t))
  {
    var v0, w0 := v.(currentTxHash := t.hash), w.(currentTxHash := t.hash);
    ApplyAllRespects(sha3, v0, w0, t.calls);
    SettledRespects(ApplyAll(sha3, v0, t.calls), ApplyAll(sha3, w0, t.calls));
    hide Settled, ApplyAll, Like;
  }
}
