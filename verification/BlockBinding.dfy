/**
 What an accepted block satisfies, byte by byte, and what its hash commits to (the
 deserializing constructor of src/utils/block.cpp).
 */
module BlockBinding {
  import opened Outcomes
  import opened Words
  import opened Crypto
  import opened Tx
  import opened ValidatorTx
  import opened Merkle
  import opened Block
  import opened TxBinding

  /* What is checked */

  function TxHashes(txs: seq<TxBlock>): (r: seq<Hash>)
    ensures |r| == |txs|
  {
    seq(|txs|, i requires 0 <= i < |txs| => txs[i].hash)
  }

  function ValHashes(txs: seq<TxValidator>): (r: seq<Hash>)
    ensures |r| == |txs|
  {
    seq(|txs|, i requires 0 <= i < |txs| => txs[i].hash)
  }

  // The Merkle root of a list of leaves, the zero hash for none.
  function MerkleRoot(c: Suite, hashes: seq<Hash>): Hash {
    RootOf(Layers(c.sha3, LeafHashes(c.sha3, hashes)))
  }

  // The bytes of a block that are hashed and signed.
  function HeaderBytes(bytes: Bytes): Bytes
    requires |bytes| >= 217
  {
    bytes[65..209]
  }

  lemma HeaderIsSlice(bytes: Bytes, b: BlockView)
    requires |bytes| >= 217 && b == Header(bytes).(txs := b.txs, txValidators := b.txValidators, hash := b.hash,
                                                   validatorPubKey := b.validatorPubKey, finalized := b.finalized)
    ensures SerializedHeader(b) == HeaderBytes(bytes)
  {
    FixedOfBE(bytes[193..201]);
    FixedOfBE(bytes[201..209]);
    hide BE, Fixed;
    var numbers := bytes[193..201] + bytes[201..209];
    assert HeaderBytes(bytes)
        == bytes[65..97] + (bytes[97..129] + (bytes[129..161] + (bytes[161..193] + numbers)));
  }

  // A block is accepted exactly when its frames parse into its two lists, the Merkle roots and the randomness in
  // the header are those of the lists, and the signature is well formed; hash and key are those of the header.
  lemma AcceptedExactly(c: Suite, bytes: Bytes, b: BlockView)
    ensures Parse(c, bytes) == Ok(b) <==>
      && |bytes| >= 217
      && b.validatorSig == bytes[..65] && b.prevBlockHash == bytes[65..97]
      && b.timestamp == BE(bytes[193..201]) && b.nHeight == BE(bytes[201..209])
      && ParseLists(c, bytes, BE(bytes[209..217]), BE(bytes[201..209])) == Ok((b.txs, b.txValidators))
      && b.txMerkleRoot == bytes[161..193] == MerkleRoot(c, TxHashes(b.txs))
      && b.validatorMerkleRoot == bytes[129..161] == MerkleRoot(c, ValHashes(b.txValidators))
      && b.blockRandomness == bytes[97..129] == SeedOf(c, b.txValidators)
      && VerifySig(BE(bytes[..32]), BE(bytes[32..64]), bytes[64])
      && b.hash == c.sha3(HeaderBytes(bytes)) && b.validatorPubKey == c.recover(bytes[..65], b.hash)
      && b.finalized
  {
    hide BE, ParseLists, MerkleRoot, TxHashes, ValHashes, Finish, SeedOf, VerifySig, SerializedHeader, SigR, SigS, SigV;
    if |bytes| >= 217 {
      var lists := ParseLists(c, bytes, BE(bytes[209..217]), BE(bytes[201..209]));
      if lists.Ok? {
        var read := Header(bytes).(txs := lists.value.0, txValidators := lists.value.1);
        FinishExactly(c, read, b);
        HeaderIsSlice(bytes, read);
        SigOfBytes(bytes);
      }
    }
  }

  // The checks behind the parsing, on any block that has been read.
  lemma FinishExactly(c: Suite, read: BlockView, b: BlockView)
    ensures var hash := c.sha3(SerializedHeader(read));
      Finish(c, read) == Ok(b) <==>
      && read.txMerkleRoot == MerkleRoot(c, TxHashes(read.txs))
      && read.validatorMerkleRoot == MerkleRoot(c, ValHashes(read.txValidators))
      && read.blockRandomness == SeedOf(c, read.txValidators)
      && VerifySig(SigR(read.validatorSig), SigS(read.validatorSig), SigV(read.validatorSig))
      && b == read.(hash := hash, validatorPubKey := c.recover(read.validatorSig, hash), finalized := true)
  {
    hide RootOf, Layers, LeafHashes, SeedOf, VerifySig, SerializedHeader;
    assert seq(|read.txs|, i requires 0 <= i < |read.txs| => read.txs[i].hash) == TxHashes(read.txs);
    assert seq(|read.txValidators|, i requires 0 <= i < |read.txValidators| => read.txValidators[i].hash)
        == ValHashes(read.txValidators);
  }

  lemma SigOfBytes(bytes: Bytes)
    requires |bytes| >= 65
    ensures SigR(bytes[..65]) == BE(bytes[..32]) && SigS(bytes[..65]) == BE(bytes[32..64])
    ensures SigV(bytes[..65]) == bytes[64]
  {
    hide BE;
    assert bytes[..65][..32] == bytes[..32] && bytes[..65][32..64] == bytes[32..64];
  }

  lemma {:induction false} FramesOfHeight(c: Suite, height: nat, bytes: Bytes, index: nat, n: nat)
    ensures var r := ReadFrames(ValParser(c, height), bytes, index, n);
      r.Ok? ==> forall i :: 0 <= i < |r.value.0| ==> r.value.0[i].body.nHeight == height
    decreases n
  {
    hide BE, ParseVal;
    if n > 0 && index + 4 <= |bytes| {
      var next := index + 4 + BE(bytes[index..index + 4]);
      FramesOfHeight(c, height, bytes, next, n - 1);
    }
  }

  // Every validator transaction of an accepted block has the height of the block.
  lemma AcceptedHeights(c: Suite, bytes: Bytes, b: BlockView)
    requires Parse(c, bytes) == Ok(b)
    ensures forall i :: 0 <= i < |b.txValidators| ==> b.txValidators[i].body.nHeight == b.nHeight
  {
    AcceptedExactly(c, bytes, b);
    hide Parse, BE, MerkleRoot, SeedOf, VerifySig, ParseLists;
    ListsOfHeight(c, bytes, BE(bytes[209..217]), BE(bytes[201..209]));
  }

  lemma ListsOfHeight(c: Suite, bytes: Bytes, start: nat, height: nat)
    ensures var r := ParseLists(c, bytes, start, height);
      r.Ok? ==> forall i :: 0 <= i < |r.value.1| ==> r.value.1[i].body.nHeight == height
  {
    hide ReadFrames, CountFrames, BE;
    var counted := CountFrames(bytes, start, |bytes|);
    if counted.Ok? {
      FramesOfHeight(c, height, bytes, start, counted.value);
      var vals := ReadFrames(ValParser(c, height), bytes, start, counted.value);
      var r := ParseLists(c, bytes, start, height);
      assert r.Ok? ==> vals.Ok? && r.value.1 == vals.value.0;
    }
  }

  /* What the hash of a block commits to */

  // The byte strings hashed for a Merkle tree.
  function TreePreimages(c: Suite, hashes: seq<Hash>): set<Bytes> {
    if hashes == [] then {} else Preimages(c.sha3, Tree(hashes))
  }

  // And for a whole block.
  function HashedBytes(c: Suite, b: BlockView): set<Bytes> {
    {SerializedHeader(b)} + TreePreimages(c, TxHashes(b.txs)) + TreePreimages(c, ValHashes(b.txValidators))
  }

  predicate NoZeroHash(sha3: Bytes -> Hash, inputs: set<Bytes>) {
    forall x :: x in inputs ==> sha3(x) != ZERO_HASH
  }

  lemma RootBinds(c: Suite, a: seq<Hash>, b: seq<Hash>)
    requires var inputs := TreePreimages(c, a) + TreePreimages(c, b);
      NoCollision(c.sha3, inputs) && NoZeroHash(c.sha3, inputs)
    requires MerkleRoot(c, a) == MerkleRoot(c, b)
    ensures multiset(a) == multiset(b)
  {
    hide Layers, RootOf, LeafHashes, Tree, Preimages;
    RootOfNone(c);
    if a != [] && b != [] {
      MerkleBinding(c.sha3, a, b);
    } else if a != [] {
      RootIsHashed(c, a);
    } else if b != [] {
      RootIsHashed(c, b);
    }
  }

  lemma RootOfNone(c: Suite)
    ensures MerkleRoot(c, []) == ZERO_HASH
  {
    assert LeafHashes(c.sha3, []) == [];
  }

  lemma RootIsHashed(c: Suite, a: seq<Hash>)
    requires a != []
    ensures exists x :: x in TreePreimages(c, a) && c.sha3(x) == MerkleRoot(c, a)
  {
    RootIsTermHash(c.sha3, a);
    hide Layers, RootOf, LeafHashes, Tree, Join;
    match Tree(a)
    case Leaf(x) => assert x in TreePreimages(c, a);
    case Node(l, r) => assert Join(HashOf(c.sha3, l), HashOf(c.sha3, r)) in TreePreimages(c, a);
  }

  // Two blocks accepted from any bytes with the same hash have the same header, and hold the same transactions and
  // the same validator transactions up to their order, without a collision or a zero hash among the bytes hashed.
  lemma HashBinds(c: Suite, bytes: Bytes, b: BlockView, bytes': Bytes, b': BlockView)
    requires Parse(c, bytes) == Ok(b) && Parse(c, bytes') == Ok(b') && b.hash == b'.hash
    requires var inputs := HashedBytes(c, b) + HashedBytes(c, b');
      NoCollision(c.sha3, inputs) && NoZeroHash(c.sha3, inputs)
    ensures |bytes| >= 217 && |bytes'| >= 217 && HeaderBytes(bytes) == HeaderBytes(bytes')
    ensures multiset(TxHashes(b.txs)) == multiset(TxHashes(b'.txs))
    ensures multiset(ValHashes(b.txValidators)) == multiset(ValHashes(b'.txValidators))
  {
    hide *;
    HeaderOfAccepted(c, bytes, b);
    HeaderOfAccepted(c, bytes', b');
    var inputs := HashedBytes(c, b) + HashedBytes(c, b');
    InputsCover(c, b);
    InputsCover(c, b');
    SameHeader(c, inputs, b, b');
    var txs, vals := TreePreimages(c, TxHashes(b.txs)), TreePreimages(c, ValHashes(b.txValidators));
    SafeSubset(c.sha3, inputs, txs + TreePreimages(c, TxHashes(b'.txs)));
    SafeSubset(c.sha3, inputs, vals + TreePreimages(c, ValHashes(b'.txValidators)));
    RootBinds(c, TxHashes(b.txs), TxHashes(b'.txs));
    RootBinds(c, ValHashes(b.txValidators), ValHashes(b'.txValidators));
  }

  lemma SafeSubset(sha3: Bytes -> Hash, inputs: set<Bytes>, some: set<Bytes>)
    requires NoCollision(sha3, inputs) && NoZeroHash(sha3, inputs) && some <= inputs
    ensures NoCollision(sha3, some) && NoZeroHash(sha3, some)
  {
  }

  lemma SameHeader(c: Suite, inputs: set<Bytes>, b: BlockView, b': BlockView)
    requires NoCollision(c.sha3, inputs) && SerializedHeader(b) in inputs && SerializedHeader(b') in inputs
    requires c.sha3(SerializedHeader(b)) == c.sha3(SerializedHeader(b'))
    ensures SerializedHeader(b) == SerializedHeader(b')
    ensures b.txMerkleRoot == b'.txMerkleRoot && b.validatorMerkleRoot == b'.validatorMerkleRoot
  {
    RootsInHeader(b);
    RootsInHeader(b');
    hide SerializedHeader;
  }

  lemma RootsInHeader(b: BlockView)
    ensures |SerializedHeader(b)| == 144
    ensures SerializedHeader(b)[64..96] == b.validatorMerkleRoot && SerializedHeader(b)[96..128] == b.txMerkleRoot
  {
    hide Fixed;
    var tail := Fixed(b.timestamp, 8) + Fixed(b.nHeight, 8);
    var h := b.prevBlockHash + (b.blockRandomness + (b.validatorMerkleRoot + (b.txMerkleRoot + tail)));
    assert SerializedHeader(b) == h;
    assert h[64..96] == b.validatorMerkleRoot;
    assert h[96..128] == b.txMerkleRoot;
  }

  lemma InputsCover(c: Suite, b: BlockView)
    ensures SerializedHeader(b) in HashedBytes(c, b)
    ensures TreePreimages(c, TxHashes(b.txs)) <= HashedBytes(c, b)
    ensures TreePreimages(c, ValHashes(b.txValidators)) <= HashedBytes(c, b)
  {
    hide TreePreimages, SerializedHeader;
  }

  lemma HeaderOfAccepted(c: Suite, bytes: Bytes, b: BlockView)
    requires Parse(c, bytes) == Ok(b)
    ensures |bytes| >= 217 && SerializedHeader(b) == HeaderBytes(bytes) && b.hash == c.sha3(SerializedHeader(b))
    ensures b.txMerkleRoot == MerkleRoot(c, TxHashes(b.txs))
    ensures b.validatorMerkleRoot == MerkleRoot(c, ValHashes(b.txValidators))
  {
    AcceptedExactly(c, bytes, b);
    hide Parse, ParseLists, BE, SeedOf, MerkleRoot, TxHashes, ValHashes, VerifySig, SerializedHeader;
    HeaderIsSlice(bytes, b);
  }

  /* And to the transactions themselves */

  ghost predicate IsParsed(c: Suite, tx: TxBlock) {
    exists bytes: Bytes :: 2 * |bytes| < U64 && ParseTx(c, bytes) == Ok(tx)
  }

  lemma {:induction false} FramesAreParsed(c: Suite, bytes: Bytes, index: nat, n: nat)
    requires 2 * |bytes| < U64
    ensures var r := ReadFrames(TxParser(c), bytes, index, n);
      r.Ok? ==> forall i :: 0 <= i < |r.value.0| ==> IsParsed(c, r.value.0[i])
    decreases n
  {
    hide BE, ParseTx;
    if n > 0 && index + 4 <= |bytes| {
      var next := index + 4 + BE(bytes[index..index + 4]);
      if next <= |bytes| {
        var frame := bytes[index + 4..next];
        FramesAreParsed(c, bytes, next, n - 1);
        assert ParseTx(c, frame).Ok? ==> IsParsed(c, ParseTx(c, frame).value);
      }
    }
  }

  lemma TxsAreParsed(c: Suite, bytes: Bytes, b: BlockView)
    requires 2 * |bytes| < U64 && Parse(c, bytes) == Ok(b)
    ensures forall i :: 0 <= i < |b.txs| ==> IsParsed(c, b.txs[i])
  {
    AcceptedExactly(c, bytes, b);
    hide Parse, BE, MerkleRoot, SeedOf, VerifySig, ParseLists;
    ListsAreOfTxs(c, bytes, BE(bytes[209..217]), BE(bytes[201..209]));
  }

  lemma ListsAreOfTxs(c: Suite, bytes: Bytes, start: nat, height: nat)
    requires 2 * |bytes| < U64
    ensures var r := ParseLists(c, bytes, start, height);
      r.Ok? ==> forall i :: 0 <= i < |r.value.0| ==> IsParsed(c, r.value.0[i])
  {
    hide ReadFrames, CountFrames, BE, IsParsed;
    var counted := CountFrames(bytes, TX_START, start);
    if counted.Ok? {
      FramesAreParsed(c, bytes, TX_START, counted.value);
      var txs := ReadFrames(TxParser(c), bytes, TX_START, counted.value);
      var r := ParseLists(c, bytes, start, height);
      assert r.Ok? ==> txs.Ok? && r.value.0 == txs.value.0;
    }
  }

  // The bytes hashed for two transactions do not collide.
  predicate BytesApart(c: Suite, x: TxBlock, y: TxBlock) {
    TxFits(x.body) && TxFits(y.body)
    && var a, b := TxSerialize(x.body, true), TxSerialize(y.body, true);
       c.sha3(a) == c.sha3(b) ==> a == b
  }

  predicate AllApart(c: Suite, txs: seq<TxBlock>) {
    forall i, j :: 0 <= i < |txs| && 0 <= j < |txs| ==> BytesApart(c, txs[i], txs[j])
  }

  lemma ApartAreNamed(c: Suite, x: TxBlock, y: TxBlock)
    requires IsParsed(c, x) && IsParsed(c, y) && BytesApart(c, x, y)
    ensures x.hash == y.hash ==> x == y
  {
    if x.hash == y.hash {
      var bytes: Bytes :| 2 * |bytes| < U64 && ParseTx(c, bytes) == Ok(x);
      var bytes': Bytes :| 2 * |bytes'| < U64 && ParseTx(c, bytes') == Ok(y);
      hide ParseTx, TxSerialize;
      TxHashBinds(c, bytes, x, bytes', y);
    }
  }

  lemma {:induction false} CountByHash(txs: seq<TxBlock>, x: TxBlock)
    requires forall i :: 0 <= i < |txs| && txs[i].hash == x.hash ==> txs[i] == x
    ensures multiset(txs)[x] == multiset(TxHashes(txs))[x.hash]
  {
    if txs != [] {
      var rest := txs[1..];
      assert txs == [txs[0]] + rest;
      assert TxHashes(txs) == [txs[0].hash] + TxHashes(rest);
      CountByHash(rest, x);
    }
  }

  lemma SameTxs(a: seq<TxBlock>, b: seq<TxBlock>)
    requires multiset(TxHashes(a)) == multiset(TxHashes(b))
    requires forall i, j :: 0 <= i < |a + b| && 0 <= j < |a + b| && (a + b)[i].hash == (a + b)[j].hash ==>
      (a + b)[i] == (a + b)[j]
    ensures multiset(a) == multiset(b)
  {
    var all := a + b;
    forall x: TxBlock ensures multiset(a)[x] == multiset(b)[x] {
      if x in all {
        var k :| 0 <= k < |all| && all[k] == x;
        assert forall i :: 0 <= i < |a| ==> all[i] == a[i];
        assert forall i :: 0 <= i < |b| ==> all[|a| + i] == b[i];
        CountByHash(a, x);
        CountByHash(b, x);
      }
    }
  }

  // So two accepted blocks with the same hash hold the same transactions, whatever their order, if the bytes of no
  // two of them collide either.
  lemma HashBindsTxs(c: Suite, bytes: Bytes, b: BlockView, bytes': Bytes, b': BlockView)
    requires Parse(c, bytes) == Ok(b) && Parse(c, bytes') == Ok(b') && b.hash == b'.hash
    requires 2 * |bytes| < U64 && 2 * |bytes'| < U64
    requires var inputs := HashedBytes(c, b) + HashedBytes(c, b');
      NoCollision(c.sha3, inputs) && NoZeroHash(c.sha3, inputs)
    requires AllApart(c, b.txs + b'.txs)
    ensures multiset(b.txs) == multiset(b'.txs)
  {
    HashBinds(c, bytes, b, bytes', b');
    TxsAreParsed(c, bytes, b);
    TxsAreParsed(c, bytes', b');
    hide AllApart, IsParsed, Parse;
    NamedByHash(c, b.txs, b'.txs);
    hide *;
    SameTxs(b.txs, b'.txs);
  }

  lemma NamedByHash(c: Suite, a: seq<TxBlock>, b: seq<TxBlock>)
    requires (forall i :: 0 <= i < |a| ==> IsParsed(c, a[i])) && forall i :: 0 <= i < |b| ==> IsParsed(c, b[i])
    requires AllApart(c, a + b)
    ensures forall i, j :: 0 <= i < |a + b| && 0 <= j < |a + b| && (a + b)[i].hash == (a + b)[j].hash ==>
      (a + b)[i] == (a + b)[j]
  {
    hide IsParsed, BytesApart;
    var all := a + b;
    forall i, j | 0 <= i < |all| && 0 <= j < |all| && all[i].hash == all[j].hash ensures all[i] == all[j] {
      assert BytesApart(c, all[i], all[j]);
      assert IsParsed(c, all[i]) && IsParsed(c, all[j]);
      ApartAreNamed(c, all[i], all[j]);
    }
  }
}
