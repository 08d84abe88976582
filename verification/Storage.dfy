/**
 The chain of recent blocks with its hash and height indexes: src/core/storage.cpp.
 */
module Storage {
  import opened Outcomes
  import opened Words
  import opened Tx
  import opened Block

  type TxRef = (Hash, nat, nat)  // block hash, index in the block, block height

  datatype StoreView = StoreView(
    chain: seq<BlockView>, blockByHash: map<Hash, BlockView>, txByHash: map<Hash, TxRef>,
    hashByHeight: map<nat, Hash>, heightByHash: map<Hash, nat>)

  // unordered_map::insert leaves an entry that is there as it is.
  function Insert<K, V>(m: map<K, V>, k: K, v: V): map<K, V> {
    if k in m then m else m[k := v]
  }

  // The first n transactions of a block entered into the index.
  function InsertTxs(m: map<Hash, TxRef>, b: BlockView, n: nat): map<Hash, TxRef>
    requires n <= |b.txs|
  {
    if n == 0 then m else Insert(InsertTxs(m, b, n - 1), b.txs[n - 1].hash, (b.hash, n - 1, b.nHeight))
  }

  predicate HasTx(b: BlockView, h: Hash) {
    exists i :: 0 <= i < |b.txs| && b.txs[i].hash == h
  }

  function EraseTxs(m: map<Hash, TxRef>, b: BlockView): map<Hash, TxRef> {
    map h | h in m && !HasTx(b, h) :: m[h]
  }

  // The maps behind a push; the block is already in the chain.
  function Indexed(s: StoreView, b: BlockView): StoreView {
    s.(blockByHash := Insert(s.blockByHash, b.hash, b), hashByHeight := Insert(s.hashByHeight, b.nHeight, b.hash),
       heightByHash := Insert(s.heightByHash, b.hash, b.nHeight), txByHash := InsertTxs(s.txByHash, b, |b.txs|))
  }

  predicate FollowsBack(s: StoreView, b: BlockView) {
    s.chain == []
    || (s.chain[|s.chain| - 1].hash == b.prevBlockHash && b.nHeight == (s.chain[|s.chain| - 1].nHeight + 1) % U64)
  }

  predicate PrecedesFront(s: StoreView, b: BlockView) {
    s.chain == [] || (s.chain[0].prevBlockHash == b.hash && b.nHeight == (s.chain[0].nHeight + U64 - 1) % U64)
  }

  function PushedBack(s: StoreView, b: BlockView): Outcome<StoreView> {
    if FollowsBack(s, b) then Ok(Indexed(s.(chain := s.chain + [b]), b)) else Throws
  }

  function PushedFront(s: StoreView, b: BlockView): Outcome<StoreView> {
    if PrecedesFront(s, b) then Ok(Indexed(s.(chain := [b] + s.chain), b)) else Throws
  }

  // A block leaves the two hash indexes, not the height maps.
  function Unindexed(s: StoreView, b: BlockView): StoreView {
    s.(txByHash := EraseTxs(s.txByHash, b), blockByHash := s.blockByHash - {b.hash})
  }

  function PoppedBack(s: StoreView): Outcome<StoreView> {
    if s.chain == [] then Undefined
    else Ok(Unindexed(s.(chain := s.chain[..|s.chain| - 1]), s.chain[|s.chain| - 1]))
  }

  function PoppedFront(s: StoreView): Outcome<StoreView> {
    if s.chain == [] then Undefined else Ok(Unindexed(s.(chain := s.chain[1..]), s.chain[0]))
  }

  /* Lookups */

  datatype Status = NotFound | OnChain | OnCache | OnDB

  datatype TxInfo = TxInfo(tx: Option<TxBlock>, blockHash: Hash, index: nat, height: nat)

  const NO_TX := TxInfo(None, ZERO_HASH, 0, 0)

  // What the two database columns hold, parsed.
  datatype Db = Db(blocks: map<Hash, BlockView>, txs: map<Hash, TxRef>)

  class Storage {
    const db: Db
    var chain: seq<BlockView>
    var blockByHash: map<Hash, BlockView>
    var txByHash: map<Hash, TxRef>
    var blockHashByHeight: map<nat, Hash>
    var blockHeightByHash: map<Hash, nat>
    var cachedBlocks: map<Hash, BlockView>
    var cachedTxs: map<Hash, TxInfo>

    function View(): StoreView
      reads this
    {
      StoreView(chain, blockByHash, txByHash, blockHashByHeight, blockHeightByHash)
    }

    // The height maps are read from the database first, then up to 501 blocks are pushed to the front.
    constructor (db: Db, hashByHeight: map<nat, Hash>, heightByHash: map<Hash, nat>)
      ensures View() == StoreView([], map[], map[], hashByHeight, heightByHash)
      ensures this.db == db && cachedBlocks == map[] && cachedTxs == map[]
    {
      this.db, blockHashByHeight, blockHeightByHash := db, hashByHeight, heightByHash;
      chain, blockByHash, txByHash, cachedBlocks, cachedTxs := [], map[], map[], map[], map[];
    }

    method PushBack(b: BlockView) returns (ok: bool)
      modifies this`chain, this`blockByHash, this`txByHash, this`blockHashByHeight, this`blockHeightByHash
      ensures var r := PushedBack(old(View()), b);
        ok == r.Ok? && View() == if ok then r.value else old(View())
    {
      if chain != [] {
        var back := chain[|chain| - 1];
        if back.hash != b.prevBlockHash {
          return false;
        }
        if b.nHeight != (back.nHeight + 1) % U64 {
          return false;
        }
      }
      chain := chain + [b];
      AddToMaps(b);
      ok := true;
    }

    method PushFront(b: BlockView) returns (ok: bool)
      modifies this`chain, this`blockByHash, this`txByHash, this`blockHashByHeight, this`blockHeightByHash
      ensures var r := PushedFront(old(View()), b);
        ok == r.Ok? && View() == if ok then r.value else old(View())
    {
      if chain != [] {
        var front := chain[0];
        if front.prevBlockHash != b.hash {
          return false;
        }
        if b.nHeight != (front.nHeight + U64 - 1) % U64 {
          return false;
        }
      }
      chain := [b] + chain;
      AddToMaps(b);
      ok := true;
    }

    method AddToMaps(b: BlockView)
      modifies this`blockByHash, this`txByHash, this`blockHashByHeight, this`blockHeightByHash
      ensures View() == Indexed(old(View()), b)
    {
      blockByHash := Insert(blockByHash, b.hash, b);
      blockHashByHeight := Insert(blockHashByHeight, b.nHeight, b.hash);
      blockHeightByHash := Insert(blockHeightByHash, b.hash, b.nHeight);
      for i := 0 to |b.txs|
        invariant txByHash == InsertTxs(old(txByHash), b, i)
        modifies this`txByHash
      {
        txByHash := Insert(txByHash, b.txs[i].hash, (b.hash, i, b.nHeight));
      }
    }

    method PopBack()
      requires chain != []
      modifies this`chain, this`blockByHash, this`txByHash
      ensures Ok(View()) == PoppedBack(old(View()))
    {
      var b := chain[|chain| - 1];
      RemoveFromMaps(b);
      chain := chain[..|chain| - 1];
    }

    method PopFront()
      requires chain != []
      modifies this`chain, this`blockByHash, this`txByHash
      ensures Ok(View()) == PoppedFront(old(View()))
    {
      var b := chain[0];
      RemoveFromMaps(b);
      chain := chain[1..];
    }

    method RemoveFromMaps(b: BlockView)
      modifies this`blockByHash, this`txByHash
      ensures View() == Unindexed(old(View()), b)
    {
      for i := 0 to |b.txs|
        invariant forall h :: h in txByHash <==> h in old(txByHash) && forall j :: 0 <= j < i ==> b.txs[j].hash != h
        invariant forall h :: h in txByHash ==> txByHash[h] == old(txByHash)[h]
        modifies this`txByHash
      {
        txByHash := txByHash - {b.txs[i].hash};
      }
      blockByHash := blockByHash - {b.hash};
    }

    method BlockStatus(hash: Hash) returns (status: Status)
      ensures status == StatusOfHash(hash)
    {
      if hash in blockByHash {
        return OnChain;
      } else if hash in cachedBlocks {
        return OnCache;
      } else if hash in db.blocks {
        return OnDB;
      }
      status := NotFound;
    }

    function StatusOfHash(hash: Hash): Status
      reads this
    {
      if hash in blockByHash then OnChain
      else if hash in cachedBlocks then OnCache
      else if hash in db.blocks then OnDB
      else NotFound
    }

    method HeightStatus(height: nat) returns (status: Status)
      ensures status == StatusAt(height)
    {
      if height !in blockHashByHeight {
        return NotFound;
      }
      var hash := blockHashByHeight[height];
      if hash in blockByHash {
        return OnChain;
      }
      status := if hash in cachedBlocks then OnCache else OnDB;
    }

    function StatusAt(height: nat): (status: Status)
      reads this
      ensures !status.NotFound? ==> height in blockHashByHeight
      ensures status.OnChain? ==> blockHashByHeight[height] in blockByHash
      ensures status.OnCache? ==> blockHashByHeight[height] in cachedBlocks
    {
      if height !in blockHashByHeight then NotFound
      else if blockHashByHeight[height] in blockByHash then OnChain
      else if blockHashByHeight[height] in cachedBlocks then OnCache
      else OnDB
    }

    // The block from the chain, the cache or the database, which then fills the cache.
    method GetBlock(hash: Hash) returns (r: Option<BlockView>)
      modifies this`cachedBlocks
      ensures r == old(match StatusOfHash(hash)
                       case OnChain => Some(blockByHash[hash])
                       case OnCache => Some(cachedBlocks[hash])
                       case OnDB => Some(db.blocks[hash])
                       case NotFound => None)
      ensures cachedBlocks == if old(StatusOfHash(hash)).OnDB? then old(cachedBlocks)[hash := db.blocks[hash]]
                              else old(cachedBlocks)
    {
      var status := BlockStatus(hash);
      match status {
        case NotFound => r := None;
        case OnChain => r := Some(blockByHash[hash]);
        case OnCache => r := Some(cachedBlocks[hash]);
        case OnDB =>
          cachedBlocks := cachedBlocks[hash := db.blocks[hash]];
          r := Some(cachedBlocks[hash]);
      }
    }

    // By height. The database is not asked whether it has the block; parsing nothing throws.
    method GetBlockAt(height: nat) returns (r: Outcome<Option<BlockView>>)
      modifies this`cachedBlocks
      ensures r == old(match StatusAt(height)
                       case NotFound => Ok(None)
                       case OnChain => Ok(Some(blockByHash[blockHashByHeight[height]]))
                       case OnCache => Ok(Some(cachedBlocks[blockHashByHeight[height]]))
                       case OnDB => if blockHashByHeight[height] in db.blocks
                                    then Ok(Some(db.blocks[blockHashByHeight[height]]))
                                    else Throws)
      ensures cachedBlocks == if old(StatusAt(height)).OnDB? && r.Ok?
                              then old(cachedBlocks)[blockHashByHeight[height] := db.blocks[blockHashByHeight[height]]]
                              else old(cachedBlocks)
    {
      var status := HeightStatus(height);
      match status {
        case NotFound => r := Ok(None);
        case OnChain => r := Ok(Some(blockByHash[blockHashByHeight[height]]));
        case OnCache => r := Ok(Some(cachedBlocks[blockHashByHeight[height]]));
        case OnDB =>
          var hash := blockHashByHeight[height];
          if hash !in db.blocks {
            return Throws;
          }
          cachedBlocks := Insert(cachedBlocks, hash, db.blocks[hash]);
          r := Ok(Some(cachedBlocks[hash]));
      }
    }

    method GetTx(tx: Hash) returns (r: Outcome<TxInfo>)
      modifies this`cachedTxs
      ensures r == if tx in txByHash then ChainTx(View(), tx)
                   else if tx in old(cachedTxs) then Ok(old(cachedTxs)[tx])
                   else if tx in db.txs then DbTx(db, db.txs[tx].0, db.txs[tx].1, db.txs[tx].2)
                   else Ok(NO_TX)
      ensures cachedTxs == if tx !in txByHash && tx !in old(cachedTxs) && tx in db.txs && r.Ok?
                           then old(cachedTxs)[tx := r.value] else old(cachedTxs)
    {
      if tx in txByHash {
        var (blockHash, blockIndex, blockHeight) := txByHash[tx];
        if blockHash !in blockByHash {
          return Throws;
        }
        var transactionList := blockByHash[blockHash].txs;
        if |transactionList| <= blockIndex {
          return Throws;
        }
        var transaction := transactionList[blockIndex];
        if transaction.hash != tx {
          return Throws;
        }
        return Ok(TxInfo(Some(transaction), blockHash, blockIndex, blockHeight));
      }
      if tx in cachedTxs {
        return Ok(cachedTxs[tx]);
      }
      if tx !in db.txs {
        return Ok(NO_TX);
      }
      var (blockHash, blockIndex, blockHeight) := db.txs[tx];
      if blockHash !in db.blocks || |db.blocks[blockHash].txs| <= blockIndex {
        return Undefined;
      }
      var info := TxInfo(Some(db.blocks[blockHash].txs[blockIndex]), blockHash, blockIndex, blockHeight);
      cachedTxs := cachedTxs[tx := info];
      r := Ok(info);
    }

    // The transaction of a block that is cached or stored, and what the cache then holds.
    function TxOf(status: Status, blockHash: Hash, blockIndex: nat): Outcome<TxInfo>
      requires status.OnCache? ==> blockHash in cachedBlocks
      requires status.OnCache? || status.OnDB?
      reads this
    {
      if status.OnCache? then CachedTxOf(cachedTxs, cachedBlocks[blockHash], blockIndex)
      else
        var height := if blockHash in blockHeightByHash then Ok(blockHeightByHash[blockHash]) else Throws;
        StoredTxOf(db, cachedTxs, blockHash, blockIndex, height)
    }

    // A block that is cached is taken to have its transactions cached as well; the index is not checked there.
    method GetTxByBlockHashAndIndex(blockHash: Hash, blockIndex: nat) returns (r: Outcome<TxInfo>)
      modifies this`cachedTxs
      ensures r == old(match StatusOfHash(blockHash)
                       case NotFound => Ok(NO_TX)
                       case OnChain => ChainTxByHash(View(), blockHash, blockIndex)
                       case status => TxOf(status, blockHash, blockIndex))
      ensures cachedTxs == if old(StatusOfHash(blockHash)).OnDB? && r.Ok?
                           then Insert(old(cachedTxs), db.blocks[blockHash].txs[blockIndex].hash, r.value)
                           else old(cachedTxs)
    {
      var status := BlockStatus(blockHash);
      match status {
        case NotFound => r := Ok(NO_TX);
        case OnChain =>
          var transactionList := blockByHash[blockHash].txs;
          if |transactionList| <= blockIndex {
            return Throws;
          }
          var transaction := transactionList[blockIndex];
          if transaction.hash !in txByHash {
            return Throws;
          }
          var (txBlockHash, txBlockIndex, txBlockHeight) := txByHash[transaction.hash];
          if txBlockHash != blockHash || txBlockIndex != blockIndex {
            return Throws;
          }
          r := Ok(TxInfo(Some(transaction), txBlockHash, txBlockIndex, txBlockHeight));
        case OnCache =>
          r := CachedTx(cachedBlocks[blockHash], blockIndex);
        case OnDB =>
          r := StoredTx(blockHash, blockIndex);
      }
    }

    method GetTxByBlockNumberAndIndex(blockHeight: nat, blockIndex: nat) returns (r: Outcome<TxInfo>)
      modifies this`cachedTxs
      ensures r == old(match StatusAt(blockHeight)
                       case NotFound => Ok(NO_TX)
                       case OnChain => ChainTxByHeight(View(), blockHeight, blockIndex)
                       case status => TxOf(status, blockHashByHeight[blockHeight], blockIndex))
      ensures cachedTxs == if old(StatusAt(blockHeight)).OnDB? && r.Ok?
                           then Insert(old(cachedTxs),
                                       db.blocks[blockHashByHeight[blockHeight]].txs[blockIndex].hash, r.value)
                           else old(cachedTxs)
    {
      var status := HeightStatus(blockHeight);
      match status {
        case NotFound => r := Ok(NO_TX);
        case OnChain =>
          var transactionList := blockByHash[blockHashByHeight[blockHeight]].txs;
          if |transactionList| <= blockIndex {
            return Throws;
          }
          var transaction := transactionList[blockIndex];
          if transaction.hash !in txByHash {
            return Throws;
          }
          var (txBlockHash, txBlockIndex, txBlockHeight) := txByHash[transaction.hash];
          r := Ok(TxInfo(Some(transaction), txBlockHash, txBlockIndex, txBlockHeight));
        case OnCache =>
          r := CachedTx(cachedBlocks[blockHashByHeight[blockHeight]], blockIndex);
        case OnDB =>
          r := StoredTx(blockHashByHeight[blockHeight], blockIndex);
      }
    }

    method CachedTx(b: BlockView, blockIndex: nat) returns (r: Outcome<TxInfo>)
      ensures r == CachedTxOf(cachedTxs, b, blockIndex)
    {
      if |b.txs| <= blockIndex {
        return Undefined;
      }
      if b.txs[blockIndex].hash !in cachedTxs {
        return Throws;
      }
      r := Ok(cachedTxs[b.txs[blockIndex].hash]);
    }

    method StoredTx(blockHash: Hash, blockIndex: nat) returns (r: Outcome<TxInfo>)
      modifies this`cachedTxs
      ensures r == old(TxOf(OnDB, blockHash, blockIndex))
      ensures cachedTxs == if r.Ok? then Insert(old(cachedTxs), db.blocks[blockHash].txs[blockIndex].hash, r.value)
                           else old(cachedTxs)
    {
      if blockHash !in db.blocks || |db.blocks[blockHash].txs| <= blockIndex {
        return Undefined;
      }
      var tx := db.blocks[blockHash].txs[blockIndex];
      if blockHash !in blockHeightByHash {
        return Throws;
      }
      cachedTxs := Insert(cachedTxs, tx.hash,
        TxInfo(Some(tx), blockHash, blockIndex, blockHeightByHash[blockHash]));
      r := Ok(cachedTxs[tx.hash]);
    }
  }

  // The bytes the database returns for a missing block, or behind the end of one, are read out of range.
  function DbTx(db: Db, blockHash: Hash, index: nat, height: nat): Outcome<TxInfo> {
    if blockHash !in db.blocks || |db.blocks[blockHash].txs| <= index then Undefined
    else Ok(TxInfo(Some(db.blocks[blockHash].txs[index]), blockHash, index, height))
  }

  function CachedTxOf(cachedTxs: map<Hash, TxInfo>, b: BlockView, index: nat): Outcome<TxInfo> {
    if |b.txs| <= index then Undefined
    else if b.txs[index].hash !in cachedTxs then Throws
    else Ok(cachedTxs[b.txs[index].hash])
  }

  // A transaction that is in the cache keeps its entry.
  function StoredTxOf(db: Db, cachedTxs: map<Hash, TxInfo>, blockHash: Hash, index: nat, height: Outcome<nat>)
    : Outcome<TxInfo>
  {
    if blockHash !in db.blocks || |db.blocks[blockHash].txs| <= index then Undefined
    else
      var n :- height;
      var h := db.blocks[blockHash].txs[index].hash;
      if h in cachedTxs then Ok(cachedTxs[h]) else DbTx(db, blockHash, index, n)
  }

  function ChainTx(s: StoreView, tx: Hash): Outcome<TxInfo>
    requires tx in s.txByHash
  {
    var (blockHash, index, height) := s.txByHash[tx];
    if blockHash !in s.blockByHash then Throws
    else
      var txs := s.blockByHash[blockHash].txs;
      if |txs| <= index || txs[index].hash != tx then Throws
      else Ok(TxInfo(Some(txs[index]), blockHash, index, height))
  }

  function ChainTxByHash(s: StoreView, blockHash: Hash, index: nat): Outcome<TxInfo>
    requires blockHash in s.blockByHash
  {
    var txs := s.blockByHash[blockHash].txs;
    if |txs| <= index || txs[index].hash !in s.txByHash then Throws
    else
      var (hash, i, height) := s.txByHash[txs[index].hash];
      if hash != blockHash || i != index then Throws else Ok(TxInfo(Some(txs[index]), hash, i, height))
  }

  function ChainTxByHeight(s: StoreView, height: nat, index: nat): Outcome<TxInfo>
    requires height in s.hashByHeight && s.hashByHeight[height] in s.blockByHash
  {
    var txs := s.blockByHash[s.hashByHeight[height]].txs;
    if |txs| <= index || txs[index].hash !in s.txByHash then Throws
    else
      var (hash, i, h) := s.txByHash[txs[index].hash];
      Ok(TxInfo(Some(txs[index]), hash, i, h))
  }
}
