/**
 What the state accepts, in terms of the table and the block, and what a block leaves
 in the mempool (validateTransactionInternal, validateNextBlock and refreshMempool of
 src/core/state.cpp).
 */
module Acceptance {
  import opened Outcomes
  import opened Words
  import opened Crypto
  import opened Tx
  import opened Block
  import opened RdPos
  import opened Accounts
  import opened Cuts
  import opened State
  import opened StateRuns

  // The full check of a transaction: a missing sender first, then the cost in 256 bits, then the nonce.
  lemma CheckExactly(a: Table, tx: TxBlock)
    ensures var t, r := tx.body, FullCheck(a, tx);
      var cost := t.value + t.gasLimit * t.maxFeePerGas;
      && !r.Undefined?
      && (r.Throws? <==> tx.from in a && cost >= U256)
      && (r == Ok(InvalidBalance) <==> tx.from !in a || a[tx.from].balance < cost < U256)
      && (r == Ok(InvalidNonce) <==> tx.from in a && cost <= a[tx.from].balance && a[tx.from].nonce != t.nonce)
      && (r == Ok(NotInvalid) <==> tx.from in a && cost <= a[tx.from].balance && a[tx.from].nonce == t.nonce)
  {
  }

  lemma {:induction false} AllValidExactly(a: Table, pool: TxPool, txs: seq<TxBlock>)
    ensures AllValid(a, pool, txs) == Ok(true)
       <==> forall i :: 0 <= i < |txs| ==> txs[i].hash in pool || FullCheck(a, txs[i]) == Ok(NotInvalid)
  {
    hide FullCheck;
    if txs != [] {
      AllValidExactly(a, pool, txs[1..]);
      assert forall i :: 0 < i < |txs| ==> txs[i] == txs[1..][i - 1];
      assert forall i :: 0 <= i < |txs| - 1 ==> txs[1..][i] == txs[i + 1];
    }
  }

  // validateNextBlock accepts exactly a block of the next height that names the latest block's hash and is not
  // older, that rdPoS accepts, and whose transactions are each in the mempool or pass the full check.
  lemma NextBlockExactly(c: Suite, a: Table, pool: TxPool, randomList: seq<Address>, min: nat, latest: BlockView,
                         b: BlockView)
    requires |randomList| > min
    ensures ValidNext(c, a, pool, randomList, min, latest, b) == Ok(true) <==>
      && b.nHeight == (latest.nHeight + 1) % U64 && b.prevBlockHash == latest.hash && latest.timestamp <= b.timestamp
      && ValidPosBlock(c, randomList, min, b)
      && forall i :: 0 <= i < |b.txs| ==> b.txs[i].hash in pool || FullCheck(a, b.txs[i]) == Ok(NotInvalid)
  {
    AllValidExactly(a, pool, b.txs);
    hide AllValid, ValidPosBlock;
  }

  /* The chain */

  // Each block was accepted on top of the one before it, whatever the state was.
  ghost predicate Accepts(c: Suite, latest: BlockView, b: BlockView) {
    exists a: Table, pool: TxPool, randomList: seq<Address>, min: nat ::
      |randomList| > min && ValidNext(c, a, pool, randomList, min, latest, b) == Ok(true)
  }

  ghost predicate AcceptedInTurn(c: Suite, latest: BlockView, blocks: seq<BlockView>)
    decreases |blocks|
  {
    blocks == [] || (Accepts(c, latest, blocks[0]) && AcceptedInTurn(c, blocks[0], blocks[1..]))
  }

  // The block before the i-th.
  function Before(latest: BlockView, blocks: seq<BlockView>, i: nat): BlockView
    requires i < |blocks|
  {
    if i == 0 then latest else blocks[i - 1]
  }

  lemma AcceptedFollows(c: Suite, latest: BlockView, b: BlockView)
    requires Accepts(c, latest, b)
    ensures b.nHeight == (latest.nHeight + 1) % U64 && b.prevBlockHash == latest.hash && latest.timestamp <= b.timestamp
    ensures b.finalized
  {
    var a: Table, pool: TxPool, randomList: seq<Address>, min: nat :|
      |randomList| > min && ValidNext(c, a, pool, randomList, min, latest, b) == Ok(true);
    NextBlockExactly(c, a, pool, randomList, min, latest, b);
  }

  // Blocks accepted in turn form one chain: each names its predecessor, heights go up by one, times do not go back.
  lemma {:induction false} AcceptedChain(c: Suite, latest: BlockView, blocks: seq<BlockView>, i: nat)
    requires AcceptedInTurn(c, latest, blocks) && i < |blocks|
    ensures blocks[i].prevBlockHash == Before(latest, blocks, i).hash
    ensures blocks[i].nHeight == (latest.nHeight + i + 1) % U64
    ensures latest.timestamp <= Before(latest, blocks, i).timestamp <= blocks[i].timestamp
    decreases i
  {
    hide Accepts;
    AcceptedFollows(c, latest, blocks[0]);
    if i > 0 {
      AcceptedChain(c, blocks[0], blocks[1..], i - 1);
      HeightsAdd(latest.nHeight, i);
    }
  }

  lemma HeightsAdd(n: nat, i: nat)
    ensures ((n + 1) % U64 + i) % U64 == (n + i + 1) % U64
  {
    ModMultiple((n + 1) / U64, (n + 1) % U64 + i);
    assert n + i + 1 == (n + 1) / U64 * U64 + ((n + 1) % U64 + i);
  }

  /* The mempool */

  predicate SharesSender(txs: seq<TxBlock>, tx: TxBlock) {
    exists i :: 0 <= i < |txs| && txs[i].from == tx.from
  }

  // An accepted block that is processed to the end, without native calls, takes out of a sound mempool exactly its
  // own transactions and those that share a sender with one of its own; everybody else's stay.
  lemma RefreshExactly(c: Suite, n: Node, e: Event, h: Hash)
    requires Sound(n) && WellFormed(e) && Tame(e) && e.ProcessBlock? && Accepted(n, e) && !CutShort(c, n, e)
    ensures var m := Step(c, n, e);
      (h in m.pool <==> h in n.pool && !InBlock(h, e.txs) && !SharesSender(e.txs, n.pool[h]))
      && (h in m.pool ==> m.pool[h] == n.pool[h])
  {
    hide ProcessAll, Passes, CountFrom, Nonce, Balance, Risen;
    if h in n.pool {
      var b, tx := ProcessAll(c, n.accounts, e.txs, e.xs).accounts, n.pool[h];
      assert Passes(n.accounts, tx);
      ProcessAllSpares(c, n.accounts, e.txs, e.xs, tx.from);
      CountFromNone(e.txs, tx.from);
      PassesByNonce(n.accounts, b, tx, CountFrom(e.txs, tx.from));
      if i :| 0 <= i < |e.txs| && e.txs[i].from == tx.from {
        CountFromMember(e.txs, i);
      }
    }
  }

  // A transaction is taken into the mempool exactly when it passes the full check, and stays out otherwise.
  lemma AddTxExactly(c: Suite, n: Node, tx: TxBlock)
    ensures var m := Step(c, n, AddTx(tx));
      && m.accounts == n.accounts
      && m.pool == if tx.hash !in n.pool && FullCheck(n.accounts, tx) == Ok(NotInvalid) then n.pool[tx.hash := tx]
                   else n.pool
  {
  }
}
