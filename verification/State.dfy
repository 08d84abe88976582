/**
 The node's state: validation with the mempool as a shortcut, block processing and
 the refresh of the mempool (src/core/state.cpp).
 */
module State {
  import opened Outcomes
  import opened Words
  import opened Crypto
  import opened Tx
  import opened Accounts
  import opened Cuts
  import opened Block
  import opened RdPos

  type TxPool = map<Hash, TxBlock>

  const GRANT: Uint256 := 1000000000000000000000  // what addBalance adds

  // validateTransactionInternal: a transaction in the mempool has been validated before.
  function Validate(a: Table, pool: TxPool, tx: TxBlock): Outcome<TxInvalid> {
    if tx.hash in pool then Ok(NotInvalid) else FullCheck(a, tx)
  }

  function AllValid(a: Table, pool: TxPool, txs: seq<TxBlock>): Outcome<bool> {
    if txs == [] then Ok(true)
    else
      var r :- Validate(a, pool, txs[0]);
      if r != NotInvalid then Ok(false) else AllValid(a, pool, txs[1..])
  }

  predicate Follows(latest: BlockView, b: BlockView) {
    b.nHeight == (latest.nHeight + 1) % U64 && b.prevBlockHash == latest.hash && latest.timestamp <= b.timestamp
  }

  // validateNextBlock.
  function ValidNext(c: Suite, a: Table, pool: TxPool, randomList: seq<Address>, min: nat, latest: BlockView,
                     b: BlockView): Outcome<bool>
    requires |randomList| > min
  {
    if !Follows(latest, b) || !ValidPosBlock(c, randomList, min, b) then Ok(false) else AllValid(a, pool, b.txs)
  }

  predicate InBlock(h: Hash, txs: seq<TxBlock>) {
    exists i :: 0 <= i < |txs| && txs[i].hash == h
  }

  // What is left of a mempool behind a block: what is not in it and still passes.
  function Refreshed(a: Table, pool: TxPool, txs: seq<TxBlock>): TxPool {
    map h | h in pool && !InBlock(h, txs) && Passes(a, pool[h]) :: pool[h]
  }

  predicate Keyed(pool: TxPool) {
    forall h :: h in pool ==> pool[h].hash == h
  }

  // No check of the refresh overflows.
  predicate Checkable(a: Table, pool: TxPool) {
    forall h :: h in pool ==> FullCheck(a, pool[h]).Ok?
  }

  function Outside(pool: TxPool, txs: seq<TxBlock>): TxPool {
    map h | h in pool && !InBlock(h, txs) :: pool[h]
  }

  predicate PartOf(part: TxPool, whole: TxPool) {
    forall h :: h in part ==> h in whole && part[h] == whole[h]
  }

  // Every transaction of the mempool satisfies the rules of the table.
  ghost predicate PoolSound(a: Table, pool: TxPool) {
    Keyed(pool) && forall h :: h in pool ==> Passes(a, pool[h])
  }

  // What has passed on one table can be checked on any other.
  lemma SoundIsCheckable(a: Table, pool: TxPool, b: Table, txs: seq<TxBlock>)
    requires PoolSound(a, pool)
    ensures Checkable(b, Outside(pool, txs))
  {
    forall h | h in pool ensures FullCheck(b, pool[h]).Ok? {
      assert Passes(a, pool[h]);
    }
    hide FullCheck;
  }

  datatype Ending = Finished | Uncaught | Undefined

  // A method that changed the table to `now` and ended in `end` did what the specification says.
  predicate Ends(end: Ending, now: Table, spec: After) {
    match spec
    case Done(a) => end.Finished? && now == a
    case Threw(a) => end.Uncaught? && now == a
    case Broken => end.Undefined?
  }

  class State {
    const c: Suite
    const rdpos: RdPos
    var accounts: Table
    var mempool: TxPool
    var processingPayable: bool
    var latest: BlockView  // the latest block of the storage

    constructor (c: Suite, rdpos: RdPos, accounts: Table, latest: BlockView)
      ensures this.c == c && this.rdpos == rdpos && this.accounts == accounts && this.latest == latest
      ensures mempool == map[] && !processingPayable
    {
      this.c, this.rdpos, this.accounts, this.latest := c, rdpos, accounts, latest;
      mempool, processingPayable := map[], false;
    }

    ghost predicate Valid()
      reads this, rdpos, rdpos.randomGen
    {
      rdpos.Valid() && rdpos.c == c && !processingPayable
    }

    method ValidateTransactionInternal(tx: TxBlock) returns (r: Outcome<TxInvalid>)
      ensures r == Validate(accounts, mempool, tx)
    {
      if tx.hash in mempool {
        return Ok(NotInvalid);
      }
      if tx.from !in accounts {
        return Ok(InvalidBalance);
      }
      var accBalance, accNonce := accounts[tx.from].balance, accounts[tx.from].nonce;
      var txWithFees := Cost(tx.body);
      if !txWithFees.Ok? {
        return Throws;
      }
      if txWithFees.value > accBalance {
        return Ok(InvalidBalance);
      }
      if accNonce != tx.body.nonce {
        return Ok(InvalidNonce);
      }
      r := Ok(NotInvalid);
    }

    method AddTo(k: Address, v: nat) returns (ok: bool)
      modifies this`accounts
      ensures Ends(if ok then Finished else Uncaught, accounts, Credit(old(accounts), k, v))
    {
      accounts := Touch(accounts, k);
      ok := accounts[k].balance + v < U256;
      if ok {
        accounts := accounts[k := accounts[k].(balance := accounts[k].balance + v)];
      }
    }

    method SubFrom(k: Address, v: nat) returns (ok: bool)
      modifies this`accounts
      ensures Ends(if ok then Finished else Uncaught, accounts, Debit(old(accounts), k, v))
    {
      accounts := Touch(accounts, k);
      ok := accounts[k].balance >= v;
      if ok {
        accounts := accounts[k := accounts[k].(balance := accounts[k].balance - v)];
      }
    }

    method ProcessTransaction(tx: TxBlock, x: Execution) returns (end: Ending)
      requires !processingPayable
      modifies this`accounts, this`processingPayable
      ensures Ends(end, accounts, Process(c, old(accounts), tx, x))
      ensures end.Finished? ==> !processingPayable
    {
      accounts := Touch(accounts, tx.body.to);
      if tx.from !in accounts {
        return Ending.Undefined;
      }
      if IsEvm(accounts, tx.body.to) {
        end := CallEvm(tx, x.evm);
      } else {
        end := CallClassic(tx, x.native);
      }
      if end.Finished? {
        accounts := Bump(accounts, tx.from);
      }
    }

    method CallEvm(tx: TxBlock, e: EvmResult) returns (end: Ending)
      modifies this`accounts
      ensures Ends(end, accounts, ProcessEvm(c, old(accounts), tx, e))
    {
      hide Credit, Debit, TouchAll, StoreCode;
      var realTo := RealTo(c, tx);
      if tx.body.value > 0 {
        var ok := AddTo(realTo, tx.body.value);
        if ok {
          ok := SubFrom(tx.from, tx.body.value);
        }
        if !ok {
          return Uncaught;
        }
      }
      accounts := TouchAll(accounts, e.touched);
      var tried := TryEvm(tx, e);
      if tried {
        accounts := StoreCode(accounts, e.code);
        return Finished;
      }
      var ok := AddTo(tx.from, tx.body.value);
      if ok {
        ok := SubFrom(realTo, tx.body.value);
      }
      end := if ok then Finished else Uncaught;
    }

    method TryEvm(tx: TxBlock, e: EvmResult) returns (ok: bool)
      modifies this`accounts
      ensures Ends(if ok then Finished else Uncaught, accounts, RunEvm(old(accounts), tx, e))
    {
      if e.gasLeft < 0 {
        return false;
      }
      if tx.body.gasLimit < e.gasLeft {
        return false;
      }
      var gasUsed := tx.body.gasLimit - e.gasLeft;
      if gasUsed * tx.body.maxFeePerGas >= U256 {
        return false;
      }
      ok := SubFrom(tx.from, gasUsed * tx.body.maxFeePerGas);
      ok := ok && !e.failed;
    }

    method CallClassic(tx: TxBlock, n: NativeResult) returns (end: Ending)
      requires !processingPayable
      modifies this`accounts, this`processingPayable
      ensures Ends(end, accounts, ProcessClassic(old(accounts), tx, n))
      ensures end.Finished? ==> !processingPayable
    {
      hide Credit, Debit, SetBalances;
      var tried := TryClassic(tx, n);
      if tried {
        return Finished;
      }
      if processingPayable {
        var ok := AddTo(tx.from, tx.body.value);
        if ok {
          ok := SubFrom(tx.body.to, tx.body.value);
        }
        if !ok {
          return Uncaught;
        }
        processingPayable := false;
      }
      var ok := AddTo(tx.from, tx.body.value);
      end := if ok then Finished else Uncaught;
    }

    method TryClassic(tx: TxBlock, n: NativeResult) returns (ok: bool)
      requires !processingPayable
      modifies this`accounts, this`processingPayable
      ensures Ends(if ok then Finished else Uncaught, accounts, RunClassic(old(accounts), tx, n))
      ensures processingPayable == Paying(old(accounts), tx, n)
    {
      hide Credit, Debit, SetBalances;
      var txValueWithFees := Cost(tx.body);
      if !txValueWithFees.Ok? {
        return false;
      }
      ok := SubFrom(tx.from, txValueWithFees.value);
      if !ok {
        return;
      }
      ok := AddTo(tx.body.to, tx.body.value);
      if !ok {
        return;
      }
      if n.Native? {
        if n.payable {
          processingPayable := true;
        }
        if n.threw {
          return false;
        }
        if n.payable {
          accounts := SetBalances(accounts, n.balances);
        }
        processingPayable := false;
      }
    }

    method ProcessTransactions(txs: seq<TxBlock>, xs: seq<Execution>) returns (end: Ending)
      requires |txs| == |xs| && !processingPayable
      modifies this`accounts, this`processingPayable
      ensures Ends(end, accounts, ProcessAll(c, old(accounts), txs, xs))
      ensures end.Finished? ==> !processingPayable
    {
      hide Process;
      for i := 0 to |txs|
        invariant !processingPayable
        invariant ProcessAll(c, old(accounts), txs, xs) == ProcessAll(c, accounts, txs[i..], xs[i..])
      {
        assert txs[i..][1..] == txs[i + 1..] && xs[i..][1..] == xs[i + 1..];
        end := ProcessTransaction(txs[i], xs[i]);
        if !end.Finished? {
          return;
        }
      }
      end := Finished;
    }

    method AddTx(tx: TxBlock) returns (r: Outcome<TxInvalid>)
      modifies this`mempool
      ensures r == Validate(accounts, old(mempool), tx)
      ensures mempool == if r == Ok(NotInvalid) && tx.hash !in old(mempool) then old(mempool)[tx.hash := tx]
                         else old(mempool)
    {
      r := ValidateTransactionInternal(tx);
      if r == Ok(NotInvalid) && tx.hash !in mempool {
        mempool := mempool[tx.hash := tx];
      }
    }

    method AddBalance(addr: Address) returns (ok: bool)
      modifies this`accounts
      ensures Ends(if ok then Finished else Uncaught, accounts, Credit(old(accounts), addr, GRANT))
    {
      ok := AddTo(addr, GRANT);
    }

    // The old mempool is walked in any order; an overflow in a check ends the walk.
    method RefreshMempool(txs: seq<TxBlock>) returns (ok: bool)
      requires Keyed(mempool)
      modifies this`mempool
      ensures ok == Checkable(accounts, Outside(old(mempool), txs))
      ensures ok ==> mempool == Refreshed(accounts, old(mempool), txs)
      ensures !ok ==> PartOf(mempool, Refreshed(accounts, old(mempool), txs))
    {
      hide FullCheck, InBlock;
      ghost var was := mempool;
      var remaining := mempool;
      NotInEmpty();
      for i := 0 to |txs|
        invariant forall h :: h in remaining <==> h in was && !InBlock(h, txs[..i])
        invariant forall h :: h in remaining ==> remaining[h] == was[h]
      {
        InBlockStep(txs, i);
        remaining := remaining - {txs[i].hash};
      }
      assert txs[..|txs|] == txs;
      assert remaining == Outside(was, txs);
      mempool := map[];
      ok := KeepPassing(remaining);
    }

    method KeepPassing(copy: TxPool) returns (ok: bool)
      requires Keyed(copy) && mempool == map[]
      modifies this`mempool
      ensures ok == Checkable(accounts, copy)
      ensures ok ==> mempool == map h | h in copy && Passes(accounts, copy[h]) :: copy[h]
      ensures !ok ==> PartOf(mempool, map h | h in copy && Passes(accounts, copy[h]) :: copy[h])
    {
      hide FullCheck;
      var keys := copy.Keys;
      while keys != {}
        invariant keys <= copy.Keys
        invariant forall h :: h in mempool <==> h in copy && h !in keys && Passes(accounts, copy[h])
        invariant forall h :: h in mempool ==> mempool[h] == copy[h]
        invariant forall h :: h in copy && h !in keys ==> FullCheck(accounts, copy[h]).Ok?
        decreases |keys|
      {
        var key :| key in keys;
        var r := ValidateTransactionInternal(copy[key]);
        if !r.Ok? {
          return false;
        }
        if r.value.NotInvalid? {
          mempool := mempool[key := copy[key]];
        }
        keys := keys - {key};
      }
      ok := true;
    }

    method ValidateNextBlock(b: BlockView) returns (r: Outcome<bool>)
      requires Valid()
      ensures r == ValidNext(c, accounts, mempool, rdpos.randomList, rdpos.minValidators, latest, b)
    {
      hide Validate, ValidPosBlock;
      if b.nHeight != (latest.nHeight + 1) % U64 {
        return Ok(false);
      }
      if b.prevBlockHash != latest.hash {
        return Ok(false);
      }
      if latest.timestamp > b.timestamp {
        return Ok(false);
      }
      var pos := rdpos.ValidateBlock(b);
      if !pos {
        return Ok(false);
      }
      for i := 0 to |b.txs|
        invariant AllValid(accounts, mempool, b.txs) == AllValid(accounts, mempool, b.txs[i..])
      {
        assert b.txs[i..][1..] == b.txs[i + 1..];
        var v := ValidateTransactionInternal(b.txs[i]);
        if !v.Ok? {
          return v.PropagateFailure();
        }
        if v.value != NotInvalid {
          return Ok(false);
        }
      }
      r := Ok(true);
    }

    // processNextBlock up to the storage, whose latest block is replaced. A block that does not validate throws
    // and changes nothing.
    method ProcessNextBlock(b: BlockView, xs: seq<Execution>) returns (end: Ending)
      requires Valid() && Keyed(mempool) && |xs| == |b.txs|
      modifies this, rdpos, rdpos.randomGen
      ensures end.Finished? ==> Valid()
      ensures var valid := old(ValidNext(c, accounts, mempool, rdpos.randomList, rdpos.minValidators, latest, b));
        var ran := ProcessAll(c, old(accounts), b.txs, xs);
        if valid != Ok(true) then end.Uncaught? && accounts == old(accounts) && mempool == old(mempool)
                                  && rdpos.randomList == old(rdpos.randomList) && latest == old(latest)
                                  && rdpos.validatorMempool == old(rdpos.validatorMempool)
        else if !ran.Done? then Ends(end, accounts, ran) && mempool == old(mempool)
                                && rdpos.randomList == old(rdpos.randomList) && latest == old(latest)
                                && rdpos.validatorMempool == old(rdpos.validatorMempool)
        else accounts == ran.accounts
             && rdpos.randomList == ShuffledBy(rdpos.c, rdpos.validators, b.blockRandomness)
             && rdpos.validatorMempool == map[]
             && (if Checkable(ran.accounts, Outside(old(mempool), b.txs)) then
                   end.Finished? && mempool == Refreshed(ran.accounts, old(mempool), b.txs) && latest == b
                 else end.Uncaught? && PartOf(mempool, Refreshed(ran.accounts, old(mempool), b.txs))
                      && latest == old(latest))
      ensures old(PoolSound(accounts, mempool)) && Smooth(c, old(accounts), b.txs, xs) ==>
                (end.Finished? <==>
                   old(ValidNext(c, accounts, mempool, rdpos.randomList, rdpos.minValidators, latest, b)) == Ok(true))
    {
      hide AllValid, ProcessAll, Smooth, Checkable, Outside, PartOf, Refreshed, PoolSound, FullCheck;
      SmoothExactly(c, accounts, b.txs, xs);
      ghost var before, pool := accounts, mempool;
      var valid := ValidateNextBlock(b);
      if valid != Ok(true) {
        return Uncaught;
      }
      end := ProcessTransactions(b.txs, xs);
      if !end.Finished? {
        return;
      }
      if PoolSound(before, pool) {
        SoundIsCheckable(before, pool, accounts, b.txs);
      }
      var seed := rdpos.ProcessBlock(b.finalized, b.blockRandomness);
      var ok := RefreshMempool(b.txs);
      if !ok {
        return Uncaught;
      }
      latest := b;
      end := Finished;
    }
  }

  lemma NotInEmpty()
    ensures forall h :: !InBlock(h, [])
  {
  }

  lemma InBlockStep(txs: seq<TxBlock>, i: nat)
    requires i < |txs|
    ensures forall h :: InBlock(h, txs[..i + 1]) <==> InBlock(h, txs[..i]) || h == txs[i].hash
  {
    forall h | InBlock(h, txs[..i]) ensures InBlock(h, txs[..i + 1]) {
      var j :| 0 <= j < i && txs[..i][j].hash == h;
      assert txs[..i + 1][j].hash == h;
    }
    assert txs[..i + 1][i].hash == txs[i].hash;
    forall h | InBlock(h, txs[..i + 1]) && h != txs[i].hash ensures InBlock(h, txs[..i]) {
      var j :| 0 <= j < i + 1 && txs[..i + 1][j].hash == h;
      assert txs[..i][j].hash == h;
    }
  }
}
