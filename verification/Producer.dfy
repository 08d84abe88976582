/**
 The block producer: the ordering loops and the block assembly of
 Syncer::doValidatorBlock (src/core/blockchain.cpp), against validateNextBlock.
 */
module Producer {
  import opened Outcomes
  import opened Words
  import opened Crypto
  import opened Tx
  import opened ValidatorTx
  import opened Block
  import opened RandomGen
  import opened RdPos
  import opened RdPosRuns
  import opened Accounts
  import opened State

  // The mempool holds a transaction of the sender with that functor.
  ghost predicate Offers(m: Pool, sender: Address, functor: Bytes) {
    exists h :: h in m && IsOffer(m[h], sender, functor)
  }

  predicate IsOffer(tx: TxValidator, sender: Address, functor: Bytes) {
    tx.from == sender && HasFunctor(tx) && Functor(tx) == functor
  }

  // A commit and its reveal, both of the sender.
  ghost predicate HoldsPair(c: Suite, m: Pool, sender: Address) {
    exists h, k :: h in m && k in m && m[h].from == sender && m[k].from == sender && PairOk(c, m[h], m[k])
  }

  ghost predicate PairsHeld(c: Suite, m: Pool, senders: seq<Address>) {
    forall i :: 0 <= i < |senders| ==> HoldsPair(c, m, senders[i])
  }

  // txs are transactions of the mempool with that functor, one of each sender in order.
  ghost predicate Picked(m: Pool, senders: seq<Address>, functor: Bytes, txs: seq<TxValidator>) {
    |txs| == |senders|
    && forall i :: 0 <= i < |txs| ==> InPool(m, txs[i]) && IsOffer(txs[i], senders[i], functor)
  }

  predicate InPool(m: Pool, tx: TxValidator) {
    tx.hash in m && m[tx.hash] == tx
  }

  // What the ordering loops need in order to terminate: something to pick for every participant, and no
  // transaction of a participant that is too short for getFunctor.
  ghost predicate Orderable(m: Pool, senders: seq<Address>, functor: Bytes) {
    (forall h :: h in m ==> m[h].hash == h)
    && (forall h :: h in m && m[h].from in senders ==> HasFunctor(m[h]))
    && forall i :: 0 <= i < |senders| ==> Offers(m, senders[i], functor)
  }

  // One ordering loop. A pass over the mempool that finds nothing would be repeated for ever.
  method OrderByFunctor(mempool: Pool, randomList: seq<Address>, min: nat, functor: Bytes)
    returns (txs: seq<TxValidator>)
    requires |randomList| > min && Orderable(mempool, Participants(randomList, min), functor)
    ensures Picked(mempool, Participants(randomList, min), functor, txs)
  {
    txs := [];
    ghost var senders := Participants(randomList, min);
    var i := 1;
    while |txs| != min
      invariant i == |txs| + 1 <= min + 1
      invariant Picked(mempool, senders[..|txs|], functor, txs)
      decreases min - |txs|
    {
      assert senders[i - 1] == randomList[i] && Offers(mempool, senders[i - 1], functor);
      var keys := mempool.Keys;
      ghost var found := |txs|;
      while keys != {}
        invariant keys <= mempool.Keys
        invariant exists h :: h in keys && IsOffer(mempool[h], randomList[i], functor)
        decreases |keys|
      {
        var h :| h in keys;
        keys := keys - {h};
        if mempool[h].from == randomList[i] && Functor(mempool[h]) == functor {
          txs := txs + [mempool[h]];
          i := i + 1;
          break;
        }
      }
      assert senders[..|txs|] == senders[..found] + [senders[found]];
    }
    assert senders[..min] == senders;
  }

  // In a reachable mempool the pairs make both ordering loops terminate...
  lemma PairsAreOrderable(g: Config, n: Node)
    requires NodeOk(g, n) && PairsHeld(g.c, n.mempool, Participants(n.randomList, g.min))
    ensures Orderable(n.mempool, Participants(n.randomList, g.min), RANDOM_HASH)
    ensures Orderable(n.mempool, Participants(n.randomList, g.min), RANDOM_SEED)
  {
    var m, senders := n.mempool, Participants(n.randomList, g.min);
    forall h | h in m ensures m[h].hash == h {
      assert TxOk(g, n, h);
    }
    forall h | h in m && m[h].from in senders ensures HasFunctor(m[h]) {
      var i :| 0 <= i < |senders| && senders[i] == m[h].from;
      PairDecides(g.c, m, senders[i], h);
    }
    forall i | 0 <= i < |senders|
      ensures Offers(m, senders[i], RANDOM_HASH) && Offers(m, senders[i], RANDOM_SEED)
    {
      assert HoldsPair(g.c, m, senders[i]);
    }
  }

  // Beside its pair a participant has nothing in the mempool.
  lemma PairDecides(c: Suite, m: Pool, sender: Address, h: Hash)
    requires OnePerFunctor(m) && TwoPerSender(m) && HoldsPair(c, m, sender) && h in m && m[h].from == sender
    ensures HasFunctor(m[h])
  {
    var k :| k in m && m[k].from == sender && FunctionOf(m[k]) == RandomHash;
  }

  // ...and what they pick are the pairs.
  lemma PickedArePairs(c: Suite, m: Pool, senders: seq<Address>, commits: seq<TxValidator>, seeds: seq<TxValidator>)
    requires OnePerFunctor(m) && PairsHeld(c, m, senders)
    requires Picked(m, senders, RANDOM_HASH, commits) && Picked(m, senders, RANDOM_SEED, seeds)
    ensures PairsOk(c, commits, seeds)
  {
    forall i | 0 <= i < |senders| ensures PairOk(c, commits[i], seeds[i]) {
      assert HoldsPair(c, m, senders[i]);
      var h, k :| h in m && k in m && m[h].from == senders[i] && m[k].from == senders[i] && PairOk(c, m[h], m[k]);
      assert InPool(m, commits[i]) && InPool(m, seeds[i]);
      assert Functor(m[h]) == Functor(commits[i]) && Functor(m[k]) == Functor(seeds[i]);
      assert commits[i] == m[h] && seeds[i] == m[k];
    }
  }

  lemma PickedAreDistinct(m: Pool, senders: seq<Address>, functor: Bytes, txs: seq<TxValidator>)
    requires Picked(m, senders, functor, txs) && Distinct(senders)
    ensures SentBy(txs, senders) && DistinctHashes(txs)
  {
    forall i, j | 0 <= i < j < |txs| ensures txs[i].hash != txs[j].hash {
      assert InPool(m, txs[i]) && InPool(m, txs[j]);
      assert txs[i].from == senders[i] && txs[j].from == senders[j];
    }
  }

  // The assembled block: pairs in order, transactions of the mempool, signed.
  function Assembled(c: Suite, latest: BlockView, vals: seq<TxValidator>, txs: seq<TxBlock>, key: PrivKey,
                     newTimestamp: nat): BlockView
  {
    FinalizedBlock(c,
      NewBlock(latest.hash, latest.timestamp, (latest.nHeight + 1) % U64).(txValidators := vals, txs := txs),
      key, newTimestamp)
  }

  predicate FromMempool(pool: TxPool, txs: seq<TxBlock>) {
    forall i :: 0 <= i < |txs| ==> txs[i].hash in pool && pool[txs[i].hash] == txs[i]
  }

  lemma {:induction false} MempoolTxsAreValid(a: Table, pool: TxPool, txs: seq<TxBlock>)
    requires FromMempool(pool, txs)
    ensures AllValid(a, pool, txs) == Ok(true)
  {
    if txs != [] {
      assert txs[0].hash in pool;
      MempoolTxsAreValid(a, pool, txs[1..]);
    }
  }

  // Every block assembled from a reachable mempool of pairs and from the state's mempool passes
  // validateNextBlock exactly when its signer is randomList[0].
  lemma AssembledIsValid(g: Config, n: Node, a: Table, pool: TxPool, latest: BlockView,
                         commits: seq<TxValidator>, seeds: seq<TxValidator>, txs: seq<TxBlock>, key: PrivKey,
                         newTimestamp: nat)
    requires NodeOk(g, n) && n.latest == latest.nHeight && Signs(g.c, key) && latest.timestamp <= newTimestamp
    requires PairsHeld(g.c, n.mempool, Participants(n.randomList, g.min))
    requires Picked(n.mempool, Participants(n.randomList, g.min), RANDOM_HASH, commits)
    requires Picked(n.mempool, Participants(n.randomList, g.min), RANDOM_SEED, seeds)
    requires FromMempool(pool, txs)
    ensures ValidNext(g.c, a, pool, n.randomList, g.min, latest,
                      Assembled(g.c, latest, commits + seeds, txs, key, newTimestamp))
         == Ok(ToAddress(g.c, g.c.toUPub(key)) == n.randomList[0])
  {
    hide *;
    NodeFacts(g, n);
    var m, senders := n.mempool, Participants(n.randomList, g.min);
    var b := Assembled(g.c, latest, commits + seeds, txs, key, newTimestamp);
    PickedArePairs(g.c, m, senders, commits, seeds);
    PickedAreDistinct(m, senders, RANDOM_HASH, commits);
    PickedAreDistinct(m, senders, RANDOM_SEED, seeds);
    MempoolTxsAreValid(a, pool, txs);
    PickedHeights(g, n, RANDOM_HASH, commits);
    PickedHeights(g, n, RANDOM_SEED, seeds);
    AssembledFields(g.c, latest, commits + seeds, txs, key, newTimestamp);
    ValidOfParts(g.c, n.randomList, g.min, latest, b, commits, seeds);
    ValidNextUnfolds(g.c, a, pool, n.randomList, g.min, latest, b);
  }

  lemma {:induction false} SoundTxsAreValid(a: Table, pool: TxPool, other: TxPool, txs: seq<TxBlock>)
    requires PoolSound(a, pool) && FromMempool(pool, txs)
    ensures AllValid(a, other, txs) == Ok(true)
  {
    hide FullCheck;
    if txs != [] {
      assert Passes(a, pool[txs[0].hash]);
      SoundTxsAreValid(a, pool, other, txs[1..]);
    }
  }

  lemma SameVerdict(c: Suite, a: Table, pool: TxPool, other: TxPool, randomList: seq<Address>, min: nat,
                    latest: BlockView, b: BlockView)
    requires |randomList| > min && AllValid(a, pool, b.txs) == AllValid(a, other, b.txs)
    ensures ValidNext(c, a, pool, randomList, min, latest, b) == ValidNext(c, a, other, randomList, min, latest, b)
  {
  }

  // The other side: a node in the same state, whatever is in its own mempool, that parses the
  // serialized block of a producer with a sound mempool gets that block exactly when its
  // transactions round-trip, and then finds it valid exactly when its signer is randomList[0].
  lemma ReceivedIsValid(g: Config, n: Node, a: Table, pool: TxPool, latest: BlockView,
                        commits: seq<TxValidator>, seeds: seq<TxValidator>, txs: seq<TxBlock>, key: PrivKey,
                        newTimestamp: nat, other: TxPool)
    requires NodeOk(g, n) && n.latest == latest.nHeight && Signs(g.c, key)
    requires latest.timestamp <= newTimestamp < U64
    requires PairsHeld(g.c, n.mempool, Participants(n.randomList, g.min))
    requires Picked(n.mempool, Participants(n.randomList, g.min), RANDOM_HASH, commits)
    requires Picked(n.mempool, Participants(n.randomList, g.min), RANDOM_SEED, seeds)
    requires PoolSound(a, pool) && FromMempool(pool, txs)
    requires AllTxsFit(txs) && AllValsFit(commits + seeds)
    requires SizesFit(Assembled(g.c, latest, commits + seeds, txs, key, newTimestamp))
    ensures var b := Assembled(g.c, latest, commits + seeds, txs, key, newTimestamp);
      var received := Parse(g.c, Serialize(b));
      && (received == Ok(b) <==> TxsRoundTrip(g.c, b))
      && (TxsRoundTrip(g.c, b) ==>
            ValidNext(g.c, a, other, n.randomList, g.min, latest, received.value)
            == Ok(ToAddress(g.c, g.c.toUPub(key)) == n.randomList[0]))
  {
    hide *;
    NodeFacts(g, n);
    var b := Assembled(g.c, latest, commits + seeds, txs, key, newTimestamp);
    AssembledFields(g.c, latest, commits + seeds, txs, key, newTimestamp);
    AssembledIsSealed(g.c, latest, commits + seeds, txs, key, newTimestamp);
    BlockRoundTrip(g.c, b);
    AssembledIsValid(g, n, a, pool, latest, commits, seeds, txs, key, newTimestamp);
    SoundTxsAreValid(a, pool, other, txs);
    MempoolTxsAreValid(a, pool, txs);
    SameVerdict(g.c, a, pool, other, n.randomList, g.min, latest, b);
  }

  lemma AssembledIsSealed(c: Suite, latest: BlockView, vals: seq<TxValidator>, txs: seq<TxBlock>, key: PrivKey,
                          newTimestamp: nat)
    requires Signs(c, key) && AllTxsFit(txs) && AllValsFit(vals) && newTimestamp < U64
    ensures Sealed(c, Assembled(c, latest, vals, txs, key, newTimestamp))
  {
    hide AllTxsFit, AllValsFit, Sealed, FinalizedBlock;
    FinalizedIsSealed(c,
      NewBlock(latest.hash, latest.timestamp, (latest.nHeight + 1) % U64).(txValidators := vals, txs := txs),
      key, newTimestamp);
  }

  lemma NodeFacts(g: Config, n: Node)
    requires NodeOk(g, n)
    ensures |n.randomList| > g.min && Distinct(Participants(n.randomList, g.min)) && OnePerFunctor(n.mempool)
  {
  }

  lemma AssembledFields(c: Suite, latest: BlockView, vals: seq<TxValidator>, txs: seq<TxBlock>, key: PrivKey,
                        newTimestamp: nat)
    requires Signs(c, key) && latest.timestamp <= newTimestamp
    ensures var b := Assembled(c, latest, vals, txs, key, newTimestamp);
      Follows(latest, b) && b.finalized && b.validatorPubKey == c.toUPub(key) && b.txValidators == vals && b.txs == txs
      && b.nHeight == (latest.nHeight + 1) % U64
  {
    hide TxRoot, ValRoot, SerializedHeader, SeedOf;
  }

  lemma ValidOfParts(c: Suite, randomList: seq<Address>, min: nat, latest: BlockView, b: BlockView,
                     commits: seq<TxValidator>, seeds: seq<TxValidator>)
    requires |randomList| > min && b.finalized && b.txValidators == commits + seeds
    requires AllOfHeight(commits, b.nHeight) && AllOfHeight(seeds, b.nHeight)
    requires SentBy(commits, Participants(randomList, min)) && SentBy(seeds, Participants(randomList, min))
    requires DistinctHashes(commits) && PairsOk(c, commits, seeds)
    ensures ValidPosBlock(c, randomList, min, b) <==> ToAddress(c, b.validatorPubKey) == randomList[0]
  {
    hide ToAddress, PairOk;
    assert |commits| == |seeds| == min;
    assert b.txValidators[..min] == commits && b.txValidators[min..] == seeds;
  }

  lemma ValidNextUnfolds(c: Suite, a: Table, pool: TxPool, randomList: seq<Address>, min: nat, latest: BlockView,
                         b: BlockView)
    requires |randomList| > min && Follows(latest, b) && AllValid(a, pool, b.txs) == Ok(true)
    ensures ValidNext(c, a, pool, randomList, min, latest, b) == Ok(ValidPosBlock(c, randomList, min, b))
  {
  }

  lemma PickedHeights(g: Config, n: Node, functor: Bytes, txs: seq<TxValidator>)
    requires NodeOk(g, n) && Picked(n.mempool, Participants(n.randomList, g.min), functor, txs)
    ensures AllOfHeight(txs, (n.latest + 1) % U64)
  {
    hide NodeOk, IsOffer;
    forall i | 0 <= i < |txs| ensures txs[i].body.nHeight == (n.latest + 1) % U64 {
      assert InPool(n.mempool, txs[i]);
      HeightInPool(g, n, txs[i].hash);
    }
  }

  lemma HeightInPool(g: Config, n: Node, h: Hash)
    requires NodeOk(g, n) && h in n.mempool
    ensures n.mempool[h].body.nHeight == (n.latest + 1) % U64
  {
    assert TxOk(g, n, h);
  }

  // Each transaction of the mempool once, in any order.
  ghost predicate AllOnce(pool: TxPool, txs: seq<TxBlock>) {
    FromMempool(pool, txs) && (forall h :: h in pool ==> InBlock(h, txs))
    && forall i, j :: 0 <= i < j < |txs| ==> txs[i].hash != txs[j].hash
  }

  // fillBlockWithTransactions.
  method FillBlock(pool: TxPool, block: Block)
    requires Keyed(pool) && !block.finalized && block.txs == []
    modifies block
    ensures AllOnce(pool, block.txs)
    ensures block.View() == old(block.View()).(txs := block.txs)
  {
    var keys := pool.Keys;
    while keys != {}
      invariant keys <= pool.Keys
      invariant block.View() == old(block.View()).(txs := block.txs)
      invariant FromMempool(pool, block.txs)
      invariant forall i :: 0 <= i < |block.txs| ==> block.txs[i].hash !in keys
      invariant forall h :: h in pool && h !in keys ==> InBlock(h, block.txs)
      invariant forall i, j :: 0 <= i < j < |block.txs| ==> block.txs[i].hash != block.txs[j].hash
      decreases |keys|
    {
      var h :| h in keys;
      keys := keys - {h};
      ghost var was := block.txs;
      var appended := block.AppendTx(pool[h]);
      assert block.txs == was + [pool[h]];
      InBlockGrows(was, pool[h]);
    }
  }

  lemma InBlockGrows(txs: seq<TxBlock>, tx: TxBlock)
    ensures forall h :: InBlock(h, txs) ==> InBlock(h, txs + [tx])
    ensures InBlock(tx.hash, txs + [tx])
  {
    var all := txs + [tx];
    forall h | InBlock(h, txs) ensures InBlock(h, all) {
      var i :| 0 <= i < |txs| && txs[i].hash == h;
      assert all[i].hash == h;
    }
    assert all[|txs|].hash == tx.hash;
  }

  method AppendValidatorTxs(block: Block, txs: seq<TxValidator>)
    requires !block.finalized
    modifies block
    ensures block.View() == old(block.View()).(txValidators := old(block.txValidators) + txs)
  {
    assert txs[..0] == [];
    assert old(block.txValidators) + [] == old(block.txValidators);
    for i := 0 to |txs|
      invariant block.View() == old(block.View()).(txValidators := old(block.txValidators) + txs[..i])
    {
      var appended := block.AppendTxValidator(txs[i]);
      assert old(block.txValidators) + txs[..i] + [txs[i]] == old(block.txValidators) + txs[..i + 1];
    }
    assert txs[..|txs|] == txs;
  }

  // The block before it is signed.
  method BuildBlock(latest: BlockView, randomHashTxs: seq<TxValidator>, randomnessTxs: seq<TxValidator>, pool: TxPool)
    returns (block: Block)
    requires Keyed(pool)
    ensures fresh(block) && AllOnce(pool, block.txs)
    ensures block.View() == NewBlock(latest.hash, latest.timestamp, (latest.nHeight + 1) % U64)
                            .(txValidators := randomHashTxs + randomnessTxs, txs := block.txs)
  {
    block := new Block(latest.hash, latest.timestamp, (latest.nHeight + 1) % U64);
    AppendValidatorTxs(block, randomHashTxs);
    AppendValidatorTxs(block, randomnessTxs);
    assert [] + randomHashTxs + randomnessTxs == randomHashTxs + randomnessTxs;
    FillBlock(pool, block);
  }

  lemma UnsignedIsInvalid(c: Suite, a: Table, pool: TxPool, randomList: seq<Address>, min: nat, latest: BlockView,
                          b: BlockView)
    requires |randomList| > min && !b.finalized
    ensures ValidNext(c, a, pool, randomList, min, latest, b) == Ok(false)
  {
  }

  // doValidatorBlock up to the validation of its own block.
  method DoValidatorBlock(state: State, key: PrivKey, newTimestamp: nat) returns (block: Block, valid: Outcome<bool>)
    requires state.Valid() && Keyed(state.mempool)
    requires NodeOk(Config(state.c, state.rdpos.validators, state.rdpos.minValidators),
                    Node(state.rdpos.randomList, state.rdpos.validatorMempool, state.latest.nHeight))
    requires PairsHeld(state.c, state.rdpos.validatorMempool,
                       Participants(state.rdpos.randomList, state.rdpos.minValidators))
    ensures fresh(block) && AllOnce(state.mempool, block.txs)
    ensures Signs(state.c, key) && state.latest.timestamp <= newTimestamp ==>
              valid == Ok(ToAddress(state.c, state.c.toUPub(key)) == state.rdpos.randomList[0])
    ensures newTimestamp < state.latest.timestamp ==> valid == Ok(false)
  {
    hide TxRoot, ValRoot, SerializedHeader, SeedOf, ToAddress, ValidNext, NodeOk, PairsHeld, AllOnce, Picked, Orderable;
    var c, latest := state.c, state.latest;
    var mempool, randomList, min := state.rdpos.validatorMempool, state.rdpos.randomList, state.rdpos.minValidators;
    ghost var g, n := Config(c, state.rdpos.validators, min), Node(randomList, mempool, latest.nHeight);
    PairsAreOrderable(g, n);
    var randomHashTxs := OrderByFunctor(mempool, randomList, min, RANDOM_HASH);
    var randomnessTxs := OrderByFunctor(mempool, randomList, min, RANDOM_SEED);
    block := BuildBlock(latest, randomHashTxs, randomnessTxs, state.mempool);
    assert FromMempool(state.mempool, block.txs) by { OnceIsFrom(state.mempool, block.txs); }
    var signed := block.Finalize(c, key, newTimestamp);
    valid := state.ValidateNextBlock(block.View());
    if latest.timestamp > newTimestamp {
      UnsignedIsInvalid(c, state.accounts, state.mempool, randomList, min, latest, block.View());
    } else if Signs(c, key) {
      AssembledIsValid(g, n, state.accounts, state.mempool, latest, randomHashTxs, randomnessTxs, block.txs, key,
        newTimestamp);
    }
  }

  lemma OnceIsFrom(pool: TxPool, txs: seq<TxBlock>)
    requires AllOnce(pool, txs)
    ensures FromMempool(pool, txs)
  {
  }
}
