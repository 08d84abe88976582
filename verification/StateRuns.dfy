/**
 Runs of the state: the mempool as a cache of the full check.
 */
module StateRuns {
  import opened Outcomes
  import opened Words
  import opened Crypto
  import opened Tx
  import opened Sums
  import opened Accounts
  import opened Cuts
  import opened State
  import opened ContractAddress

  datatype Node = Node(accounts: Table, pool: TxPool)

  // The calls that change the account table or the mempool; `follows` is what validateNextBlock decides
  // before it looks at the transactions.
  datatype Event =
    | AddTx(tx: TxBlock)
    | AddBalance(addr: Address)
    | ProcessBlock(follows: bool, txs: seq<TxBlock>, xs: seq<Execution>)

  predicate WellFormed(e: Event) {
    e.ProcessBlock? ==> |e.xs| == |e.txs|
  }

  predicate Accepted(n: Node, e: Event)
    requires e.ProcessBlock?
  {
    e.follows && AllValid(n.accounts, n.pool, e.txs) == Ok(true)
  }

  // An accepted block whose processing throws half way: the table has changed, the mempool has not been
  // refreshed.
  predicate CutShort(c: Suite, n: Node, e: Event)
    requires WellFormed(e)
  {
    e.ProcessBlock? && Accepted(n, e) && !ProcessAll(c, n.accounts, e.txs, e.xs).Done?
  }

  // What can be looked up to rule that out: the guard of processTransaction at each transaction's turn.
  predicate Guarded(c: Suite, n: Node, e: Event)
    requires WellFormed(e)
  {
    e.ProcessBlock? && Accepted(n, e) ==> Smooth(c, n.accounts, e.txs, e.xs)
  }

  function Step(c: Suite, n: Node, e: Event): Node
    requires WellFormed(e)
  {
    match e
    case AddTx(tx) =>
      if Validate(n.accounts, n.pool, tx) == Ok(NotInvalid) && tx.hash !in n.pool
      then n.(pool := n.pool[tx.hash := tx]) else n
    case AddBalance(addr) =>
      var r := Credit(n.accounts, addr, GRANT);
      if r.Broken? then n else n.(accounts := r.accounts)
    case ProcessBlock(_, txs, xs) =>
      if !Accepted(n, e) then n
      else
        var r := ProcessAll(c, n.accounts, txs, xs);
        match r
        case Done(a) => Node(a, Refreshed(a, n.pool, txs))
        case Threw(a) => n.(accounts := a)
        case Broken => n
  }

  function Run(c: Suite, n: Node, events: seq<Event>): Node
    requires forall i :: 0 <= i < |events| ==> WellFormed(events[i])
    decreases |events|
  {
    if events == [] then n else Run(c, Step(c, n, events[0]), events[1..])
  }

  // Every transaction of the mempool satisfies the rules of the current table.
  ghost predicate Sound(n: Node) {
    PoolSound(n.accounts, n.pool)
  }

  /* One event */

  // An accepted block is cut short exactly when the guard stops one of its transactions at its turn.
  lemma CutShortExactly(c: Suite, n: Node, e: Event)
    requires WellFormed(e)
    ensures CutShort(c, n, e) <==> !Guarded(c, n, e)
    ensures CutShort(c, n, e) <==>
      e.ProcessBlock? && Accepted(n, e) && exists k: nat :: CutAt(c, n.accounts, e.txs, e.xs, k)
  {
    if e.ProcessBlock? {
      SmoothExactly(c, n.accounts, e.txs, e.xs);
      CutExactly(c, n.accounts, e.txs, e.xs);
    }
  }

  // No pooled transaction has the sender of one of these.
  predicate NoSharedSender(pool: TxPool, txs: seq<TxBlock>) {
    forall h, i :: h in pool && 0 <= i < |txs| ==> pool[h].from != txs[i].from
  }

  // The mempool does not suffer from a cut: none, or no pooled transaction shares its sender with one that was
  // processed before it. (Undefined behaviour ends the model's step without an effect.)
  ghost predicate Harmless(c: Suite, n: Node, e: Event)
    requires WellFormed(e)
  {
    CutShort(c, n, e) && ProcessAll(c, n.accounts, e.txs, e.xs).Threw? ==>
      forall k: nat :: CutAt(c, n.accounts, e.txs, e.xs, k) ==> NoSharedSender(n.pool, e.txs[..k])
  }

  // Fewer transactions than nonces, and no call of a native contract.
  predicate Tame(e: Event) {
    e.ProcessBlock? ==> |e.xs| == |e.txs| < U64 && NoNativeCall(e.xs)
  }

  lemma UncutKeepsSound(c: Suite, n: Node, e: Event)
    requires Sound(n) && WellFormed(e) && !CutShort(c, n, e)
    ensures Sound(Step(c, n, e))
  {
    match e
    case AddTx(_) =>
    case AddBalance(addr) =>
      CreditMoves(n.accounts, addr, GRANT);
      var a := Credit(n.accounts, addr, GRANT).accounts;
      hide Passes, Credit;
      forall h | h in n.pool ensures Passes(a, n.pool[h]) {
        PassesMore(n.accounts, a, n.pool[h]);
      }
    case ProcessBlock(_, _, _) =>
      hide ProcessAll;
  }

  lemma {:induction false} CountFromMember(txs: seq<TxBlock>, i: nat)
    requires i < |txs|
    ensures CountFrom(txs, txs[i].from) > 0
  {
    if i > 0 {
      CountFromMember(txs[1..], i - 1);
    }
  }

  lemma {:induction false} CountFromNone(txs: seq<TxBlock>, sender: Address)
    ensures CountFrom(txs, sender) <= |txs|
    ensures (forall i :: 0 <= i < |txs| ==> txs[i].from != sender) ==> CountFrom(txs, sender) == 0
  {
    if txs != [] {
      CountFromNone(txs[1..], sender);
    }
  }

  // The table a cut leaves: the nonces of those who sent before it have risen, nobody else has lost anything.
  lemma CutTable(c: Suite, a: Table, txs: seq<TxBlock>, xs: seq<Execution>, k: nat, sender: Address)
    requires |txs| == |xs| && NoNativeCall(xs) && CutAt(c, a, txs, xs, k) && ProcessAll(c, a, txs, xs).Threw?
    ensures var b, count := ProcessAll(c, a, txs, xs).accounts, CountFrom(txs[..k], sender);
      (sender in a ==> sender in b) && Nonce(b, sender) == Risen(Nonce(a, sender), count)
      && (count == 0 ==> Balance(b, sender) >= Balance(a, sender))
  {
    hide Halts, Process, Nonce, Balance, Risen;
    var before := ProcessAll(c, a, txs[..k], xs[..k]).accounts;
    ProcessEndsExactly(c, before, txs[k], xs[k]);
    PrefixThenNext(c, a, txs, xs, k);
    ProcessAllSpares(c, a, txs[..k], xs[..k], sender);
    ProcessSpares(c, before, txs[k], xs[k]);
  }

  lemma PassesAfterCut(c: Suite, a: Table, txs: seq<TxBlock>, xs: seq<Execution>, k: nat, tx: TxBlock)
    requires |txs| == |xs| < U64 && NoNativeCall(xs) && CutAt(c, a, txs, xs, k) && ProcessAll(c, a, txs, xs).Threw?
    requires Passes(a, tx)
    ensures Passes(ProcessAll(c, a, txs, xs).accounts, tx) <==> CountFrom(txs[..k], tx.from) == 0
  {
    assert k < |txs|;
    hide ProcessAll, CutAt, CountFrom, Passes, Nonce, Balance, Risen;
    var b, count := ProcessAll(c, a, txs, xs).accounts, CountFrom(txs[..k], tx.from);
    CutTable(c, a, txs, xs, k, tx.from);
    CountFromNone(txs[..k], tx.from);
    PassesByNonce(a, b, tx, count);
  }

  // A sender whose nonce has risen by less than 2^64 fails, one that has lost nothing passes.
  lemma PassesByNonce(a: Table, b: Table, tx: TxBlock, count: nat)
    requires Passes(a, tx) && (tx.from in a ==> tx.from in b) && count < U64
    requires Nonce(b, tx.from) == Risen(Nonce(a, tx.from), count)
    requires count == 0 ==> Balance(b, tx.from) >= Balance(a, tx.from)
    ensures Passes(b, tx) <==> count == 0
  {
    if count > 0 {
      assert (Nonce(a, tx.from) + count) % U64 == if Nonce(a, tx.from) + count < U64 then Nonce(a, tx.from) + count
                                                  else Nonce(a, tx.from) + count - U64;
    }
  }

  // The exact effect of a cut on the mempool.
  lemma CutPoolExactly(c: Suite, n: Node, e: Event, k: nat)
    requires Sound(n) && WellFormed(e) && Tame(e) && CutShort(c, n, e)
    requires CutAt(c, n.accounts, e.txs, e.xs, k) && ProcessAll(c, n.accounts, e.txs, e.xs).Threw?
    ensures Sound(Step(c, n, e)) <==> NoSharedSender(n.pool, e.txs[..k])
  {
    var b, front := ProcessAll(c, n.accounts, e.txs, e.xs).accounts, e.txs[..k];
    hide CutAt, ProcessAll, CountFrom, Passes;
    forall h | h in n.pool ensures Passes(b, n.pool[h]) <==> CountFrom(front, n.pool[h].from) == 0 {
      PassesAfterCut(c, n.accounts, e.txs, e.xs, k, n.pool[h]);
    }
    forall h | h in n.pool
      ensures CountFrom(front, n.pool[h].from) == 0
         <==> forall i :: 0 <= i < |front| ==> n.pool[h].from != front[i].from
    {
      CountFromNone(front, n.pool[h].from);
      if i :| 0 <= i < |front| && n.pool[h].from == front[i].from {
        CountFromMember(front, i);
      }
    }
  }

  // After any event the mempool is sound exactly when the event was harmless.
  lemma StepSoundExactly(c: Suite, n: Node, e: Event)
    requires Sound(n) && WellFormed(e) && Tame(e)
    ensures Sound(Step(c, n, e)) <==> Harmless(c, n, e)
  {
    if !CutShort(c, n, e) {
      UncutKeepsSound(c, n, e);
    } else if ProcessAll(c, n.accounts, e.txs, e.xs).Threw? {
      hide CutAt, ProcessAll, NoSharedSender, Sound;
      CutShortExactly(c, n, e);
      forall k: nat | CutAt(c, n.accounts, e.txs, e.xs, k)
        ensures Sound(Step(c, n, e)) <==> NoSharedSender(n.pool, e.txs[..k])
      {
        CutPoolExactly(c, n, e, k);
      }
    }
  }

  /* Runs */

  ghost predicate GuardedRun(c: Suite, n: Node, events: seq<Event>)
    requires forall i :: 0 <= i < |events| ==> WellFormed(events[i])
    decreases |events|
  {
    events == [] || (Guarded(c, n, events[0]) && GuardedRun(c, Step(c, n, events[0]), events[1..]))
  }

  ghost predicate HarmlessRun(c: Suite, n: Node, events: seq<Event>)
    requires forall i :: 0 <= i < |events| ==> WellFormed(events[i])
    decreases |events|
  {
    events == [] || (Harmless(c, n, events[0]) && HarmlessRun(c, Step(c, n, events[0]), events[1..]))
  }

  ghost predicate SoundThroughout(c: Suite, n: Node, events: seq<Event>)
    requires forall i :: 0 <= i < |events| ==> WellFormed(events[i])
    decreases |events|
  {
    Sound(n) && (events != [] ==> SoundThroughout(c, Step(c, n, events[0]), events[1..]))
  }

  // Where the guard stops nothing the mempool stays sound, native calls included.
  lemma {:induction false} RunKeepsSound(c: Suite, n: Node, events: seq<Event>)
    requires forall i :: 0 <= i < |events| ==> WellFormed(events[i])
    requires Sound(n) && GuardedRun(c, n, events)
    ensures Sound(Run(c, n, events)) && SoundThroughout(c, n, events)
    decreases |events|
  {
    hide Sound, Step, Guarded, CutShort;
    if events != [] {
      CutShortExactly(c, n, events[0]);
      UncutKeepsSound(c, n, events[0]);
      RunKeepsSound(c, Step(c, n, events[0]), events[1..]);
    }
  }

  // In every state of a run the mempool is sound exactly when every event of the run was harmless.
  lemma {:induction false} RunSoundExactly(c: Suite, n: Node, events: seq<Event>)
    requires forall i :: 0 <= i < |events| ==> WellFormed(events[i]) && Tame(events[i])
    requires Sound(n)
    ensures SoundThroughout(c, n, events) <==> HarmlessRun(c, n, events)
    decreases |events|
  {
    hide Sound, Step, Harmless;
    if events != [] {
      StepSoundExactly(c, n, events[0]);
      if Harmless(c, n, events[0]) {
        RunSoundExactly(c, Step(c, n, events[0]), events[1..]);
      } else {
        assert !SoundThroughout(c, Step(c, n, events[0]), events[1..]);
      }
    }
  }

  // Over every guarded run the shortcut of the mempool answers what the full check would, for every transaction
  // whose hash is not also the hash of another one in the mempool.
  lemma ShortcutIsExact(c: Suite, accounts: Table, events: seq<Event>, tx: TxBlock)
    requires forall i :: 0 <= i < |events| ==> WellFormed(events[i])
    requires GuardedRun(c, Node(accounts, map[]), events)
    requires var n := Run(c, Node(accounts, map[]), events); tx.hash in n.pool ==> n.pool[tx.hash] == tx
    ensures var n := Run(c, Node(accounts, map[]), events);
      Validate(n.accounts, n.pool, tx) == FullCheck(n.accounts, tx)
  {
    RunKeepsSound(c, Node(accounts, map[]), events);
  }

  // No transaction of the block has the hash of a different one in the mempool.
  predicate NoClash(pool: TxPool, txs: seq<TxBlock>) {
    forall i :: 0 <= i < |txs| && txs[i].hash in pool ==> pool[txs[i].hash] == txs[i]
  }

  lemma {:induction false} ValidTxsPass(n: Node, txs: seq<TxBlock>)
    requires Sound(n) && NoClash(n.pool, txs) && AllValid(n.accounts, n.pool, txs) == Ok(true)
    ensures AllPass(n.accounts, txs)
    decreases |txs|
  {
    if txs != [] {
      ValidTxsPass(n, txs[1..]);
    }
  }

  // A block is not cut short if its senders are distinct, it calls no native contract, no sender pays
  // itself through the EVM and all balances together stay below 2^256.
  lemma OrderlyBlocksFinish(c: Suite, n: Node, e: Event)
    requires Sound(n) && WellFormed(e) && e.ProcessBlock? && NoClash(n.pool, e.txs)
    requires DistinctSenders(e.txs) && NoNativeCall(e.xs) && NotSelf(c, e.txs) && Total(n.accounts) < U256
    ensures !CutShort(c, n, e) && Guarded(c, n, e)
  {
    CutShortExactly(c, n, e);
    if Accepted(n, e) {
      ValidTxsPass(n, e.txs);
      PreStateSuffices(c, n.accounts, e.txs, e.xs);
    }
  }

  // A block that is cut short can leave a transaction in the mempool that the full check refuses: two calls
  // of one sender that can afford only the first.
  lemma CutShortIsUnsound(c: Suite)
    ensures exists n: Node, e: Event :: Sound(n) && WellFormed(e) && CutShort(c, n, e) && !Sound(Step(c, n, e))
  {
    hide AllValid, ProcessAll, Process, DeriveContractAddress;
    var sender, contract: Address := Repeat(1, 20), Repeat(2, 20);
    assert sender[0] != contract[0] && contract[0] != ZERO_ADDRESS[0];
    var body := TxBody(1, 0, 0, 0, 0, contract, 60, [], 0, 0, 0);
    var tx1, tx2 := TxBlock(body, sender, Repeat(1, 32)), TxBlock(body, sender, Repeat(2, 32));
    var x := Execution(EvmResult(false, 0, {}, map[]), NotNative);
    var a: Table := map[sender := Account(100, 0, false), contract := Account(0, 0, true)];
    var n := Node(a, map[tx1.hash := tx1]);
    var e := ProcessBlock(true, [tx1, tx2], [x, x]);
    assert Passes(a, tx1) && Passes(a, tx2);
    assert AllValid(a, n.pool, [tx1, tx2]) == Ok(true) by { AllValidTwo(a, n.pool, tx1, tx2); }
    var b := AfterFirst(c, a, tx1, x);
    SecondThrows(c, b, tx2, x);
    ProcessTwo(c, a, tx1, tx2, x);
    assert CutShort(c, n, e);
    var m := Step(c, n, e);
    assert m.pool == n.pool && Nonce(m.accounts, sender) == 1;
    assert !Passes(m.accounts, m.pool[tx1.hash]);
    assert Sound(n) && WellFormed(e) && !Sound(m);
  }

  lemma AllValidTwo(a: Table, pool: TxPool, tx1: TxBlock, tx2: TxBlock)
    requires Passes(a, tx1) && Passes(a, tx2)
    ensures AllValid(a, pool, [tx1, tx2]) == Ok(true)
  {
    hide FullCheck;
    assert Validate(a, pool, tx1) == Ok(NotInvalid) && Validate(a, pool, tx2) == Ok(NotInvalid);
    var one, none := [tx2], [tx2][1..];
    assert AllValid(a, pool, none) == Ok(true);
    assert AllValid(a, pool, one) == Ok(true);
    assert [tx1, tx2][1..] == one;
  }

  lemma ProcessTwo(c: Suite, a: Table, tx1: TxBlock, tx2: TxBlock, x: Execution)
    requires Process(c, a, tx1, x).Done? && Process(c, Process(c, a, tx1, x).accounts, tx2, x).Threw?
    ensures ProcessAll(c, a, [tx1, tx2], [x, x]) == Process(c, Process(c, a, tx1, x).accounts, tx2, x)
  {
    hide Process;
    assert [tx1, tx2][1..] == [tx2] && [x, x][1..] == [x];
  }

  // The first call goes through: the value has moved, the nonce has risen.
  lemma AfterFirst(c: Suite, a: Table, tx: TxBlock, x: Execution) returns (b: Table)
    requires Passes(a, tx) && IsEvm(a, tx.body.to) && tx.body.to != ZERO_ADDRESS && tx.body.to != tx.from
    requires Balance(a, tx.body.to) + tx.body.value < U256 && tx.body.value > 0
    requires x == Execution(EvmResult(false, tx.body.gasLimit, {}, map[]), NotNative)
    ensures Process(c, a, tx, x) == Done(b)
    ensures Balance(b, tx.from) == Balance(a, tx.from) - tx.body.value
    ensures Nonce(b, tx.from) == (Nonce(a, tx.from) + 1) % U64
    ensures IsEvm(b, tx.body.to) && Balance(b, tx.body.to) == Balance(a, tx.body.to) + tx.body.value
  {
    var from, to, value := tx.from, tx.body.to, tx.body.value;
    assert Touch(a, to) == a && RealTo(c, tx) == to;
    var credited: Table := a[to := a[to].(balance := a[to].balance + value)];
    var paid: Table := credited[from := credited[from].(balance := credited[from].balance - value)];
    assert PayEvm(c, a, tx) == Done(paid);
    assert TouchAll(paid, {}) == paid && StoreCode(paid, map[]) == paid;
    assert RunEvm(paid, tx, x.evm) == Done(paid) by {
      assert paid[from := paid[from]] == paid;
    }
    hide PayEvm, TouchAll, StoreCode, RunEvm, RealTo, Touch;
    b := Bump(paid, from);
  }

  lemma SecondThrows(c: Suite, b: Table, tx: TxBlock, x: Execution)
    requires tx.from in b && IsEvm(b, tx.body.to) && tx.body.to != ZERO_ADDRESS && tx.body.to != tx.from
    requires Balance(b, tx.body.to) + tx.body.value < U256 && Balance(b, tx.from) < tx.body.value
    ensures Process(c, b, tx, x).Threw? && Nonce(Process(c, b, tx, x).accounts, tx.from) == Nonce(b, tx.from)
  {
  }
}
