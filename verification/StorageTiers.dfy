/**
 What pushes and pops do to the chain and its indexes, and lookups of blocks that have
 left the chain: the cache and the database answer what the chain answered
 (src/core/storage.cpp).
 */
module StorageTiers {
  import opened Outcomes
  import opened Words
  import opened Tx
  import opened Block
  import opened Storage
  import opened StorageRuns

  // What a lookup of the j-th transaction of a block answers.
  function InfoOf(b: BlockView, j: nat): TxInfo
    requires j < |b.txs|
  {
    TxInfo(Some(b.txs[j]), b.hash, j, b.nHeight)
  }

  // The database holds blocks under their hashes, and for each of their transactions where it stands.
  ghost predicate DbOk(db: Db) {
    (forall h :: h in db.blocks ==> db.blocks[h].hash == h)
    && forall h, j :: h in db.blocks && 0 <= j < |db.blocks[h].txs| ==>
      db.blocks[h].txs[j].hash in db.txs && db.txs[db.blocks[h].txs[j].hash] == (h, j, db.blocks[h].nHeight)
  }

  // The caches hold blocks of the database, and what the database answers for a transaction.
  ghost predicate CacheOk(db: Db, blocks: map<Hash, BlockView>, txs: map<Hash, TxInfo>) {
    (forall h :: h in blocks ==> h in db.blocks && blocks[h] == db.blocks[h])
    && forall t :: t in txs ==>
      t in db.txs && DbTx(db, db.txs[t].0, db.txs[t].1, db.txs[t].2) == Ok(txs[t])
  }

  // A stored transaction is found with its block, index and height by its hash and by the block's hash, out of
  // the cache or out of the database, as often as one likes: what is found enters a cache that stays right.
  lemma TiersAgree(db: Db, blocks: map<Hash, BlockView>, txs: map<Hash, TxInfo>, h: Hash, j: nat)
    requires DbOk(db) && CacheOk(db, blocks, txs) && h in db.blocks && j < |db.blocks[h].txs|
    ensures var b := db.blocks[h];
      var t, info := b.txs[j].hash, InfoOf(b, j);
      && t in db.txs && db.txs[t] == (h, j, b.nHeight)
      && (if t in txs then Ok(txs[t]) else DbTx(db, h, j, b.nHeight)) == Ok(info)
      && StoredTxOf(db, txs, h, j, Ok(b.nHeight)) == Ok(info)
      && CacheOk(db, blocks[h := b], txs) && CacheOk(db, blocks, txs[t := info])
      && CacheOk(db, blocks, Insert(txs, t, info))
  {
    var b := db.blocks[h];
    var t, info := b.txs[j].hash, InfoOf(b, j);
    assert db.txs[t] == (h, j, b.nHeight);
    assert DbTx(db, h, j, b.nHeight) == Ok(info);
  }

  // A block in the cache does not bring its transactions along: the lookup through it succeeds exactly when the
  // transaction itself has been cached, and an index out of range is read all the same.
  lemma CachedBlockExactly(db: Db, blocks: map<Hash, BlockView>, txs: map<Hash, TxInfo>, h: Hash, j: nat)
    requires DbOk(db) && CacheOk(db, blocks, txs) && h in blocks
    ensures var b := blocks[h];
      && (j >= |b.txs| ==> CachedTxOf(txs, b, j).Undefined?)
      && (j < |b.txs| ==> (CachedTxOf(txs, b, j) == Ok(InfoOf(b, j)) <==> b.txs[j].hash in txs))
      && (j < |b.txs| && b.txs[j].hash !in txs ==> CachedTxOf(txs, b, j) == Throws)
  {
    if j < |blocks[h].txs| {
      TiersAgree(db, blocks, txs, h, j);
    }
  }

  // So a block fetched whole from the database hides its transactions: the lookup by block hash and index found
  // them before, and throws behind it.
  lemma FetchedBlockHides(db: Db, blocks: map<Hash, BlockView>, txs: map<Hash, TxInfo>, h: Hash, j: nat)
    requires DbOk(db) && CacheOk(db, blocks, txs) && h in db.blocks && j < |db.blocks[h].txs|
    requires db.blocks[h].txs[j].hash !in txs
    ensures var b := db.blocks[h];
      StoredTxOf(db, txs, h, j, Ok(b.nHeight)).Ok? && CachedTxOf(txs, blocks[h := b][h], j) == Throws
  {
    TiersAgree(db, blocks, txs, h, j);
  }

  /* Pushes and pops */

  // A push at the back succeeds exactly for a successor of the last block; the block is then the last of the chain,
  // and it and its transactions are found if their hashes are new.
  lemma PushBackStores(s: StoreView, b: BlockView)
    ensures PushedBack(s, b).Ok? <==>
      s.chain == []
      || var last := s.chain[|s.chain| - 1];
         b.prevBlockHash == last.hash && b.nHeight == (last.nHeight + 1) % U64
    ensures PushedBack(s, b).Ok? ==>
              PushedBack(s, b).value.chain == s.chain + [b] && Stores(s, PushedBack(s, b).value, b)
  {
    if PushedBack(s, b).Ok? {
      IndexedStores(s, s.(chain := s.chain + [b]), b);
    }
    hide Indexed;
  }

  lemma PushFrontStores(s: StoreView, b: BlockView)
    ensures PushedFront(s, b).Ok? <==>
      s.chain == []
      || var first := s.chain[0];
         first.prevBlockHash == b.hash && b.nHeight == (first.nHeight + U64 - 1) % U64
    ensures PushedFront(s, b).Ok? ==>
              PushedFront(s, b).value.chain == [b] + s.chain && Stores(s, PushedFront(s, b).value, b)
  {
    if PushedFront(s, b).Ok? {
      IndexedStores(s, s.(chain := [b] + s.chain), b);
    }
    hide Indexed;
  }

  ghost predicate NewTxs(s: StoreView, b: BlockView) {
    (forall i :: 0 <= i < |b.txs| ==> b.txs[i].hash !in s.txByHash)
    && forall i, j :: 0 <= i < j < |b.txs| ==> b.txs[i].hash != b.txs[j].hash
  }

  // What t finds beyond s is the block, by hash and by height, and its transactions; a key that is taken keeps its
  // entry.
  ghost predicate Stores(s: StoreView, t: StoreView, b: BlockView) {
    && b.hash in t.blockByHash && b.nHeight in t.hashByHeight && b.hash in t.heightByHash
    && (b.hash !in s.blockByHash ==> t.blockByHash == s.blockByHash[b.hash := b])
    && (b.nHeight !in s.hashByHeight ==> t.hashByHeight == s.hashByHeight[b.nHeight := b.hash])
    && (b.hash !in s.heightByHash ==> t.heightByHash == s.heightByHash[b.hash := b.nHeight])
    && (b.hash in s.blockByHash ==> t.blockByHash == s.blockByHash)
    && (b.nHeight in s.hashByHeight ==> t.hashByHeight == s.hashByHeight)
    && (b.hash in s.heightByHash ==> t.heightByHash == s.heightByHash)
    && (NewTxs(s, b) ==> forall i :: 0 <= i < |b.txs| ==>
          b.txs[i].hash in t.txByHash && t.txByHash[b.txs[i].hash] == (b.hash, i, b.nHeight))
    && forall h :: h in s.txByHash ==> h in t.txByHash && t.txByHash[h] == s.txByHash[h]
  }

  lemma IndexedStores(s: StoreView, t: StoreView, b: BlockView)
    requires t == s.(chain := t.chain)
    ensures Stores(s, Indexed(t, b), b)
  {
    TxsStay(s.txByHash, b, |b.txs|);
    if NewTxs(s, b) {
      InsertTxsAt(s.txByHash, b, |b.txs|);
    }
    hide InsertTxs;
  }

  lemma {:induction false} TxsStay(m: map<Hash, TxRef>, b: BlockView, n: nat)
    requires n <= |b.txs|
    ensures forall h :: h in m ==> h in InsertTxs(m, b, n) && InsertTxs(m, b, n)[h] == m[h]
  {
    if n > 0 {
      TxsStay(m, b, n - 1);
    }
  }

  // t no longer finds the block by hash, nor its transactions; the height maps keep it.
  ghost predicate Forgets(s: StoreView, t: StoreView, b: BlockView) {
    && t.blockByHash == s.blockByHash - {b.hash}
    && (forall h :: h in t.txByHash <==> h in s.txByHash && forall i :: 0 <= i < |b.txs| ==> b.txs[i].hash != h)
    && (forall h :: h in t.txByHash ==> t.txByHash[h] == s.txByHash[h])
    && t.hashByHeight == s.hashByHeight && t.heightByHash == s.heightByHash
  }

  // popBack and popFront take the last and the first block off a chain that has one.
  lemma PopBackForgets(s: StoreView)
    ensures PoppedBack(s).Undefined? <==> s.chain == []
    ensures s.chain != [] ==>
      var b := s.chain[|s.chain| - 1];
      PoppedBack(s).Ok? && PoppedBack(s).value.chain + [b] == s.chain && Forgets(s, PoppedBack(s).value, b)
  {
  }

  lemma PopFrontForgets(s: StoreView)
    ensures PoppedFront(s).Undefined? <==> s.chain == []
    ensures s.chain != [] ==>
      var b := s.chain[0];
      PoppedFront(s).Ok? && [b] + PoppedFront(s).value.chain == s.chain && Forgets(s, PoppedFront(s).value, b)
  {
  }
}
