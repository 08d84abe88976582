/**
 Blocks on the wire and their life before it: src/utils/block.cpp, and the lookup of
 one transaction in a serialized block (src/core/storage.cpp).
 */
module Block {
  import opened Outcomes
  import opened Words
  import opened Spans
  import opened Crypto
  import opened Tx
  import opened ValidatorTx
  import opened Merkle

  datatype BlockView = BlockView(
    validatorSig: Signature, prevBlockHash: Hash, blockRandomness: Hash,
    validatorMerkleRoot: Hash, txMerkleRoot: Hash, timestamp: nat, nHeight: nat,
    txValidators: seq<TxValidator>, txs: seq<TxBlock>,
    validatorPubKey: PubKey, finalized: bool, hash: Hash)

  const TX_START: int := 217
  const THREADS: int := 4

  /* Frames: a 4-byte size and that many bytes */

  // uint32ToBytes keeps the low four digits of a longer size.
  function Frame(item: Bytes): Bytes {
    Fixed(|item|, 4) + item
  }

  function Frames(items: seq<Bytes>): Bytes {
    if items == [] then [] else Frame(items[0]) + Frames(items[1..])
  }

  // Number of frames from index until end; the frame sizes alone are read.
  function CountFrames(b: Bytes, index: nat, end: nat): Outcome<nat>
    decreases end - index
  {
    if index >= end then Ok(0)
    else if index + 4 > |b| then Undefined
    else
      var n :- CountFrames(b, index + BE(b[index..index + 4]) + 4, end);
      Ok(n + 1)
  }

  // The position behind n frames.
  function SkipFrames(b: Bytes, index: nat, n: nat): Outcome<nat>
    decreases n
  {
    if n == 0 then Ok(index)
    else if index + 4 > |b| then Undefined
    else SkipFrames(b, index + BE(b[index..index + 4]) + 4, n - 1)
  }

  // n items parsed one after the other, and the position behind them.
  function ReadFrames<T>(p: Bytes -> Outcome<T>, b: Bytes, index: nat, n: nat): Outcome<(seq<T>, nat)>
    decreases n
  {
    if n == 0 then Ok(([], index))
    else if index + 4 > |b| || index + 4 + BE(b[index..index + 4]) > |b| then Undefined
    else
      var next := index + 4 + BE(b[index..index + 4]);
      var item :- p(b[index + 4..next]);
      var (items, j) :- ReadFrames(p, b, next, n - 1);
      Ok(([item] + items, j))
  }

  function First<T>(r: Outcome<(seq<T>, nat)>): Outcome<seq<T>> {
    var (items, _) :- r;
    Ok(items)
  }

  function Append<T>(xs: seq<T>, r: Outcome<(seq<T>, nat)>): Outcome<(seq<T>, nat)> {
    var (ys, i) :- r;
    Ok((xs + ys, i))
  }

  lemma AppendNothing<T>(r: Outcome<(seq<T>, nat)>)
    ensures Append([], r) == r
  {
    if r.Ok? {
      assert [] + r.value.0 == r.value.0;
    }
  }

  lemma AppendTwice<T>(xs: seq<T>, ys: seq<T>, r: Outcome<(seq<T>, nat)>)
    ensures Append(xs, Append(ys, r)) == Append(xs + ys, r)
  {
    if r.Ok? {
      assert xs + (ys + r.value.0) == xs + ys + r.value.0;
    }
  }

  // Reading m + n frames is reading m and then n from where those end.
  lemma {:induction false} ReadFramesSplit<T>(p: Bytes -> Outcome<T>, b: Bytes, index: nat, m: nat, n: nat)
    ensures var first := ReadFrames(p, b, index, m);
      ReadFrames(p, b, index, m + n) ==
        if first.Ok? then Append(first.value.0, ReadFrames(p, b, first.value.1, n)) else first
    ensures var first := ReadFrames(p, b, index, m);
      first.Ok? ==> SkipFrames(b, index, m) == Ok(first.value.1) && |first.value.0| == m
    decreases m
  {
    hide BE;
    if m == 0 {
      AppendNothing(ReadFrames(p, b, index, n));
    } else if index + 4 <= |b| && index + 4 + BE(b[index..index + 4]) <= |b| {
      var next := index + 4 + BE(b[index..index + 4]);
      var item := p(b[index + 4..next]);
      ReadFramesSplit(p, b, next, m - 1, n);
      var first := ReadFrames(p, b, next, m - 1);
      if item.Ok? && first.Ok? {
        AppendTwice([item.value], first.value.0, ReadFrames(p, b, first.value.1, n));
      }
    }
  }

  lemma {:induction false} SkipFramesSplit(b: Bytes, index: nat, m: nat, n: nat)
    ensures SkipFrames(b, index, m + n) ==
      if SkipFrames(b, index, m).Ok? then SkipFrames(b, SkipFrames(b, index, m).value, n) else SkipFrames(b, index, m)
    decreases m
  {
    hide BE;
    if m > 0 && index + 4 <= |b| {
      SkipFramesSplit(b, index + BE(b[index..index + 4]) + 4, m - 1, n);
    }
  }

  // The counting loop of the deserializing constructor.
  method Count(b: Bytes, start: nat, end: nat) returns (r: Outcome<nat>)
    ensures r == CountFrames(b, start, end)
    ensures r.Ok? ==> SkipFrames(b, start, r.value).Ok?
  {
    hide BE;
    var index: nat, count: nat := start, 0;
    ghost var whole := CountFrames(b, start, end);
    while index < end
      invariant whole == match CountFrames(b, index, end)
                         case Ok(n) => Ok(count + n)
                         case Throws => Throws
                         case Undefined => Undefined
      invariant SkipFrames(b, start, count) == Ok(index)
      decreases end - index
    {
      if index + 4 > |b| {
        return Undefined;
      }
      var txSize := BE(b[index..index + 4]);
      SkipFramesSplit(b, start, count, 1);
      index := index + txSize + 4;
      count := count + 1;
    }
    return Ok(count);
  }

  // The work of one async: nTxs items from startIdx.
  method ParseChunk<T>(p: Bytes -> Outcome<T>, b: Bytes, startIdx: nat, nTxs: nat) returns (r: Outcome<seq<T>>)
    ensures r == First(ReadFrames(p, b, startIdx, nTxs))
  {
    hide BE;
    var txVec: seq<T> := [];
    var idx: nat := startIdx;
    ghost var whole := ReadFrames(p, b, startIdx, nTxs);
    AppendNothing(whole);
    for ii := 0 to nTxs
      invariant whole == Append(txVec, ReadFrames(p, b, idx, nTxs - ii))
    {
      if idx + 4 > |b| || idx + 4 + BE(b[idx..idx + 4]) > |b| {
        return Undefined;
      }
      var len := BE(b[idx..idx + 4]);
      idx := idx + 4;
      var item :- p(b[idx..idx + len]);
      idx := idx + len;
      AppendTwice(txVec, [item], ReadFrames(p, b, idx, nTxs - ii - 1));
      txVec := txVec + [item];
    }
    assert txVec + [] == txVec;
    return Ok(txVec);
  }

  // The offset loop in front of the next async.
  method SkipChunk(b: Bytes, start: nat, nTxs: nat) returns (r: Outcome<nat>)
    ensures r == SkipFrames(b, start, nTxs)
  {
    hide BE;
    var thrOff: nat := start;
    for ii := 0 to nTxs
      invariant SkipFrames(b, thrOff, nTxs - ii) == SkipFrames(b, start, nTxs)
    {
      if thrOff + 4 > |b| {
        return Undefined;
      }
      thrOff := thrOff + BE(b[thrOff..thrOff + 4]) + 4;
    }
    return Ok(thrOff);
  }

  // The block transactions: one loop up to 2000 of them, four chunks above. Either
  // way the result is that of reading the frames one after the other.
  method ParseTxs<T>(p: Bytes -> Outcome<T>, b: Bytes, start: nat, txCount: nat) returns (r: Outcome<seq<T>>)
    requires SkipFrames(b, start, txCount).Ok?
    ensures r == First(ReadFrames(p, b, start, txCount))
  {
    if txCount <= 2000 {
      r := ParseChunk(p, b, start, txCount);
    } else {
      r := ParseInFour(p, b, start, txCount);
    }
  }

  method ParseInFour<T>(p: Bytes -> Outcome<T>, b: Bytes, start: nat, txCount: nat) returns (r: Outcome<seq<T>>)
    requires SkipFrames(b, start, txCount).Ok?
    ensures r == First(ReadFrames(p, b, start, txCount))
  {
    hide ReadFrames, SkipFrames;
    var share := txCount / THREADS;
    var f: seq<Outcome<seq<T>>> := [];
    var thrOff: nat := start;
    var i := 0;
    // Start the asyncs; what is left for the last of them is the remainder.
    NoFrames(p, b, start);
    while i < THREADS
      invariant 0 <= i <= THREADS && |f| == i
      invariant i < THREADS ==> SkipFrames(b, start, i * share) == Ok(thrOff)
      invariant forall k :: 0 <= k < i ==> SkipFrames(b, start, k * share).Ok?
      invariant forall k :: 0 <= k < i ==>
          f[k] == First(ReadFrames(p, b, SkipFrames(b, start, k * share).value, Share(txCount, k)))
    {
      var chunk := ParseChunk(p, b, thrOff, Share(txCount, i));
      f := f + [chunk];
      if i < THREADS - 1 {
        SkipFramesSplit(b, start, i * share, share);
        SkipFramesSplit(b, start, (i + 1) * share, txCount - (i + 1) * share);
        var next := SkipChunk(b, thrOff, share);
        thrOff := next.value;
      }
      i := i + 1;
    }
    // Wait for them in order.
    var txs: seq<T> := [];
    i := 0;
    ghost var whole := ReadFrames(p, b, start, txCount);
    ghost var done := 0;
    ReadFramesSplit(p, b, start, 0, txCount);
    while i < THREADS
      invariant 0 <= i <= THREADS && done == (if i == THREADS then txCount else i * share)
      invariant First(ReadFrames(p, b, start, done)) == Ok(txs)
    {
      ReadFramesSplit(p, b, start, done, Share(txCount, i));
      ReadFramesSplit(p, b, start, done + Share(txCount, i), txCount - done - Share(txCount, i));
      if !f[i].Ok? {
        return f[i];
      }
      txs := txs + f[i].value;
      done := done + Share(txCount, i);
      i := i + 1;
    }
    return Ok(txs);
  }

  lemma NoFrames<T>(p: Bytes -> Outcome<T>, b: Bytes, start: nat)
    ensures SkipFrames(b, start, 0) == Ok(start) && First(ReadFrames(p, b, start, 0)) == Ok([])
  {
  }

  // Division remainder goes to the last async.
  function Share(txCount: nat, i: nat): (n: nat)
    ensures i < THREADS - 1 ==> i * (txCount / THREADS) + n <= txCount
    ensures i == THREADS - 1 ==> i * (txCount / THREADS) + n == txCount
  {
    if i == THREADS - 1 then txCount / THREADS + txCount % THREADS else txCount / THREADS
  }

  /* Serialization */

  function SerializedHeader(b: BlockView): Bytes {
    b.prevBlockHash + (b.blockRandomness + (b.validatorMerkleRoot + (b.txMerkleRoot
    + (Fixed(b.timestamp, 8) + Fixed(b.nHeight, 8)))))
  }

  predicate AllTxsFit(txs: seq<TxBlock>) {
    forall i :: 0 <= i < |txs| ==> TxFits(txs[i].body)
  }

  predicate AllValsFit(txs: seq<TxValidator>) {
    forall i :: 0 <= i < |txs| ==> ValFits(txs[i].body, txs[i].chainId)
  }

  predicate TxsFit(b: BlockView) {
    AllTxsFit(b.txs) && AllValsFit(b.txValidators)
  }

  function TxItems(txs: seq<TxBlock>): (r: seq<Bytes>)
    requires AllTxsFit(txs)
    ensures |r| == |txs|
  {
    seq(|txs|, i requires 0 <= i < |txs| => TxSerialize(txs[i].body, true))
  }

  function ValItems(txs: seq<TxValidator>): (r: seq<Bytes>)
    requires AllValsFit(txs)
    ensures |r| == |txs|
  {
    seq(|txs|, i requires 0 <= i < |txs| => ValSerialize(txs[i].body, txs[i].chainId, true))
  }

  function Serialize(b: BlockView): Bytes
    requires TxsFit(b)
  {
    var txs := Frames(TxItems(b.txs));
    b.validatorSig + (SerializedHeader(b) + (Fixed(TX_START + |txs|, 8) + (txs + Frames(ValItems(b.txValidators)))))
  }

  /* Merkle roots */

  function TxRoot(c: Suite, txs: seq<TxBlock>): Hash {
    RootOf(Layers(c.sha3, LeafHashes(c.sha3, seq(|txs|, i requires 0 <= i < |txs| => txs[i].hash))))
  }

  function ValRoot(c: Suite, txs: seq<TxValidator>): Hash {
    RootOf(Layers(c.sha3, LeafHashes(c.sha3, seq(|txs|, i requires 0 <= i < |txs| => txs[i].hash))))
  }

  /* Deserialization */

  function Header(bytes: Bytes): (b: BlockView)
    requires |bytes| >= TX_START
  {
    BlockView(bytes[..65], bytes[65..97], bytes[97..129], bytes[129..161], bytes[161..193],
      BE(bytes[193..201]), BE(bytes[201..209]), [], [], EMPTY_KEY, false, ZERO_HASH)
  }

  // One validator transaction, with the height check of the parsing loop.
  function ParseValAt(c: Suite, height: nat, bytes: Bytes): Outcome<TxValidator> {
    var tx :- ParseVal(c, bytes);
    if tx.body.nHeight != height then Throws else Ok(tx)
  }

  function TxParser(c: Suite): Bytes -> Outcome<TxBlock> {
    x => ParseTx(c, x)
  }

  function ValParser(c: Suite, height: nat): Bytes -> Outcome<TxValidator> {
    x => ParseValAt(c, height, x)
  }

  // The checks behind the parsing loops.
  function Finish(c: Suite, b: BlockView): Outcome<BlockView> {
    if TxRoot(c, b.txs) != b.txMerkleRoot || ValRoot(c, b.txValidators) != b.validatorMerkleRoot
      || SeedOf(c, b.txValidators) != b.blockRandomness then Throws
    else
      var hash := c.sha3(SerializedHeader(b));
      if !VerifySig(SigR(b.validatorSig), SigS(b.validatorSig), SigV(b.validatorSig)) then Throws
      else Ok(b.(hash := hash, validatorPubKey := c.recover(b.validatorSig, hash), finalized := true))
  }

  // The deserializing constructor; every exception is rethrown.
  function Parse(c: Suite, bytes: Bytes): Outcome<BlockView> {
    if |bytes| < TX_START then Throws
    else
      var b := Header(bytes);
      var (txs, vals) :- ParseLists(c, bytes, BE(bytes[209..217]), b.nHeight);
      Finish(c, b.(txs := txs, txValidators := vals))
  }

  // The two transaction lists, the second from start.
  function ParseLists(c: Suite, bytes: Bytes, start: nat, height: nat): Outcome<(seq<TxBlock>, seq<TxValidator>)> {
    var txCount :- CountFrames(bytes, TX_START, start);
    var valTxCount :- CountFrames(bytes, start, |bytes|);
    var txs :- First(ReadFrames(TxParser(c), bytes, TX_START, txCount));
    var vals :- First(ReadFrames(ValParser(c, height), bytes, start, valTxCount));
    Ok((txs, vals))
  }

  method Deserialize(c: Suite, bytes: Bytes) returns (r: Outcome<BlockView>)
    ensures r == Parse(c, bytes)
  {
    if |bytes| < TX_START {
      return Throws;
    }
    var b := Header(bytes);
    var txValidatorStart := BE(bytes[209..217]);
    var txCount :- Count(bytes, TX_START, txValidatorStart);
    var valTxCount :- Count(bytes, txValidatorStart, |bytes|);
    var txs :- ParseTxs(TxParser(c), bytes, TX_START, txCount);
    var vals :- ParseChunk(ValParser(c, b.nHeight), bytes, txValidatorStart, valTxCount);
    b := b.(txs := txs, txValidators := vals);
    var expectedTxMerkleRoot, expectedValidatorMerkleRoot := TxRoot(c, txs), ValRoot(c, vals);
    var expectedRandomness := ParseTxSeedList(c, vals);
    if expectedTxMerkleRoot != b.txMerkleRoot {
      return Throws;
    }
    if expectedValidatorMerkleRoot != b.validatorMerkleRoot {
      return Throws;
    }
    if expectedRandomness != b.blockRandomness {
      return Throws;
    }
    var hash := c.sha3(SerializedHeader(b));
    if !VerifySig(SigR(b.validatorSig), SigS(b.validatorSig), SigV(b.validatorSig)) {
      return Throws;
    }
    return Ok(b.(hash := hash, validatorPubKey := c.recover(b.validatorSig, hash), finalized := true));
  }

  /* Round trip */

  predicate Small(items: seq<Bytes>) {
    forall item <- items :: |item| < U32
  }

  function ParseEach<T>(p: Bytes -> Outcome<T>, items: seq<Bytes>): Outcome<seq<T>> {
    if items == [] then Ok([])
    else
      var x :- p(items[0]);
      var xs :- ParseEach(p, items[1..]);
      Ok([x] + xs)
  }

  lemma {:induction false} ParseEachResult<T>(p: Bytes -> Outcome<T>, items: seq<Bytes>, xs: seq<T>)
    requires |items| == |xs|
    ensures ParseEach(p, items) == Ok(xs) <==> forall i :: 0 <= i < |xs| ==> p(items[i]) == Ok(xs[i])
  {
    if xs != [] {
      ParseEachResult(p, items[1..], xs[1..]);
      assert xs == [xs[0]] + xs[1..];
      var x, rest := p(items[0]), ParseEach(p, items[1..]);
      if x.Ok? && rest.Ok? {
        assert ([x.value] + rest.value)[0] == x.value && ([x.value] + rest.value)[1..] == rest.value;
      }
      assert forall i :: 0 < i < |xs| ==> items[i] == items[1..][i - 1] && xs[i] == xs[1..][i - 1];
      assert forall i :: 0 <= i < |xs| - 1 ==> items[1..][i] == items[i + 1] && xs[1..][i] == xs[i + 1];
    }
  }

  // The first frame of a list standing at index.
  lemma FrameAt(b: Bytes, index: nat, items: seq<Bytes>)
    requires items != [] && |items[0]| < U32 && At(b, index, Frames(items))
    ensures index + 4 + |items[0]| <= |b|
    ensures BE(b[index..index + 4]) == |items[0]|
    ensures b[index + 4..index + 4 + |items[0]|] == items[0]
    ensures At(b, index + 4 + |items[0]|, Frames(items[1..]))
    ensures |Frames(items)| == 4 + |items[0]| + |Frames(items[1..])|
  {
    hide BE, Fixed;
    AtSplit(b, index, Frame(items[0]), Frames(items[1..]));
    AtSplit(b, index, Fixed(|items[0]|, 4), items[0]);
    WidthConstants();
    FixedValue(|items[0]|, 4);
  }

  lemma {:induction false} FramesCounted(b: Bytes, index: nat, items: seq<Bytes>)
    requires Small(items) && At(b, index, Frames(items))
    ensures CountFrames(b, index, index + |Frames(items)|) == Ok(|items|)
    decreases items
  {
    hide BE;
    if items != [] {
      assert items[0] in items;
      FrameAt(b, index, items);
      FramesCounted(b, index + 4 + |items[0]|, items[1..]);
    }
  }

  lemma {:induction false} FramesParsed<T>(p: Bytes -> Outcome<T>, b: Bytes, index: nat, items: seq<Bytes>)
    requires Small(items) && At(b, index, Frames(items))
    ensures First(ReadFrames(p, b, index, |items|)) == ParseEach(p, items)
    decreases items
  {
    hide BE, Frames;
    if items != [] {
      assert items[0] in items;
      FrameAt(b, index, items);
      FramesParsed(p, b, index + 4 + |items[0]|, items[1..]);
    }
  }

  // A finalized block: the roots, the randomness, the hash and the key are those of
  // its contents and its signature verifies.
  predicate Sealed(c: Suite, b: BlockView) {
    TxsFit(b) && b.timestamp < U64 && b.nHeight < U64 && Finish(c, b) == Ok(b)
  }

  predicate SizesFit(b: BlockView)
    requires TxsFit(b)
  {
    && Small(TxItems(b.txs)) && Small(ValItems(b.txValidators))
    && |Serialize(b)| < U64
  }

  predicate TxsRoundTrip(c: Suite, b: BlockView)
    requires TxsFit(b)
  {
    && (forall i :: 0 <= i < |b.txs| ==> ParseTx(c, TxItems(b.txs)[i]) == Ok(b.txs[i]))
    && (forall i :: 0 <= i < |b.txValidators| ==>
          ParseValAt(c, b.nHeight, ValItems(b.txValidators)[i]) == Ok(b.txValidators[i]))
  }

  lemma HeaderReads(b: BlockView)
    requires TxsFit(b) && b.timestamp < U64 && b.nHeight < U64 && |Serialize(b)| < U64
    ensures var bytes, txs := Serialize(b), Frames(TxItems(b.txs));
      && |bytes| >= TX_START && BE(bytes[209..217]) == TX_START + |txs|
      && Header(bytes) == b.(txValidators := [], txs := [], validatorPubKey := EMPTY_KEY, finalized := false,
                             hash := ZERO_HASH)
      && At(bytes, TX_START, txs) && At(bytes, TX_START + |txs|, Frames(ValItems(b.txValidators)))
      && |bytes| == TX_START + |txs| + |Frames(ValItems(b.txValidators))|
  {
    hide BE, Fixed, Frames, TxItems, ValItems;
    var bytes, txs, vals := Serialize(b), Frames(TxItems(b.txs)), Frames(ValItems(b.txValidators));
    var h, start := SerializedHeader(b), Fixed(TX_START + |txs|, 8);
    WidthConstants();
    FixedValue(TX_START + |txs|, 8);
    FixedValue(b.timestamp, 8);
    FixedValue(b.nHeight, 8);
    assert bytes[65..] == h + (start + (txs + vals));
    assert bytes[..65] == b.validatorSig;
    assert bytes[65..209] == h;
    HeaderFields(b, bytes);
    assert bytes[209..] == start + (txs + vals);
    assert bytes[209..217] == start;
    assert bytes[217..] == txs + vals;
    AtFront(txs, vals);
    AtBehind(txs, vals, 0, vals);
    AtShift(bytes, TX_START, 0, txs);
    AtShift(bytes, TX_START, |txs|, vals);
  }

  lemma HeaderFields(b: BlockView, bytes: Bytes)
    requires |bytes| >= TX_START && bytes[65..209] == SerializedHeader(b)
    ensures bytes[65..97] == b.prevBlockHash && bytes[97..129] == b.blockRandomness
    ensures bytes[129..161] == b.validatorMerkleRoot && bytes[161..193] == b.txMerkleRoot
    ensures bytes[193..201] == Fixed(b.timestamp, 8) && bytes[201..209] == Fixed(b.nHeight, 8)
  {
    hide Fixed;
    var h := bytes[65..209];
    assert h == SerializedHeader(b);
    SubSub(bytes, 65, 209, 0, 32);
    SubSub(bytes, 65, 209, 32, 64);
    SubSub(bytes, 65, 209, 64, 96);
    SubSub(bytes, 65, 209, 96, 128);
    SubSub(bytes, 65, 209, 128, 136);
    SubSub(bytes, 65, 209, 136, 144);
    assert h[..32] == b.prevBlockHash && h[32..64] == b.blockRandomness;
    assert h[64..96] == b.validatorMerkleRoot && h[96..128] == b.txMerkleRoot;
    assert h[128..136] == Fixed(b.timestamp, 8) && h[136..144] == Fixed(b.nHeight, 8);
  }

  function BothLists(c: Suite, height: nat, items: seq<Bytes>, vals: seq<Bytes>)
    : Outcome<(seq<TxBlock>, seq<TxValidator>)>
  {
    var txs :- ParseEach(TxParser(c), items);
    var vs :- ParseEach(ValParser(c, height), vals);
    Ok((txs, vs))
  }

  lemma ListsOfFrames(c: Suite, bytes: Bytes, height: nat, items: seq<Bytes>, vals: seq<Bytes>)
    requires Small(items) && Small(vals)
    requires At(bytes, TX_START, Frames(items)) && At(bytes, TX_START + |Frames(items)|, Frames(vals))
    requires |bytes| == TX_START + |Frames(items)| + |Frames(vals)|
    ensures ParseLists(c, bytes, TX_START + |Frames(items)|, height) == BothLists(c, height, items, vals)
  {
    hide BE, Frames, CountFrames, ReadFrames, ParseEach, TxParser, ValParser, At, Small;
    var start := TX_START + |Frames(items)|;
    FramesCounted(bytes, TX_START, items);
    FramesCounted(bytes, start, vals);
    FramesParsed(TxParser(c), bytes, TX_START, items);
    FramesParsed(ValParser(c, height), bytes, start, vals);
  }

  // Deserializing serializeBlock of a finalized block gives back the block, with its
  // hash, key and both transaction lists, exactly when each of its transactions
  // round-trips and every validator transaction carries the height of the block.
  lemma BlockRoundTrip(c: Suite, b: BlockView)
    requires Sealed(c, b) && SizesFit(b)
    ensures Parse(c, Serialize(b)) == Ok(b) <==> TxsRoundTrip(c, b)
  {
    hide BE, Fixed, Frames, Serialize, Header, TxItems, ValItems, Finish, ParseLists, BothLists, At, Small;
    HeaderReads(b);
    ListsOfFrames(c, Serialize(b), b.nHeight, TxItems(b.txs), ValItems(b.txValidators));
    var lists := BothLists(c, b.nHeight, TxItems(b.txs), ValItems(b.txValidators));
    ListsAreParsed(c, b);
    if lists.Ok? {
      var read := Header(Serialize(b)).(txs := lists.value.0, txValidators := lists.value.1);
      FinishKeeps(c, read);
      if lists == Ok((b.txs, b.txValidators)) {
        FinishIgnores(c, read, b);
      }
    }
  }

  lemma ListsAreParsed(c: Suite, b: BlockView)
    requires TxsFit(b)
    ensures TxsRoundTrip(c, b)
       <==> BothLists(c, b.nHeight, TxItems(b.txs), ValItems(b.txValidators)) == Ok((b.txs, b.txValidators))
  {
    hide TxItems, ValItems, ParseTx, ParseValAt, ParseEach;
    ParseEachResult(TxParser(c), TxItems(b.txs), b.txs);
    ParseEachResult(ValParser(c, b.nHeight), ValItems(b.txValidators), b.txValidators);
  }

  lemma FinishKeeps(c: Suite, b: BlockView)
    ensures Finish(c, b).Ok? ==> Finish(c, b).value.txs == b.txs && Finish(c, b).value.txValidators == b.txValidators
  {
  }

  lemma FinishIgnores(c: Suite, a: BlockView, b: BlockView)
    requires a.(hash := b.hash, validatorPubKey := b.validatorPubKey, finalized := b.finalized) == b
    ensures Finish(c, a) == Finish(c, b)
  {
    hide TxRoot, ValRoot, SeedOf, VerifySig, Fixed;
  }

  /* One transaction out of a serialized block */

  // The position loop of getTxFromBlockWithIndex adds the frame size in 32 bits.
  function SkipFrames32(b: Bytes, index: nat, n: nat): Outcome<nat>
    decreases n
  {
    if n == 0 then Ok(index)
    else if index + 4 > |b| then Undefined
    else SkipFrames32(b, index + (BE(b[index..index + 4]) + 4) % U32, n - 1)
  }

  function TxAt(c: Suite, b: Bytes, txIndex: nat): Outcome<TxBlock> {
    var index :- SkipFrames32(b, TX_START, txIndex);
    if index + 4 > |b| || index + 4 + BE(b[index..index + 4]) > |b| then Undefined
    else ParseTx(c, b[index + 4..index + 4 + BE(b[index..index + 4])])
  }

  method GetTxFromBlockWithIndex(c: Suite, blockData: Bytes, txIndex: nat) returns (r: Outcome<TxBlock>)
    ensures r == TxAt(c, blockData, txIndex)
  {
    hide BE, ParseTx;
    var index: nat := TX_START;
    var currentTx := 0;
    while currentTx < txIndex
      invariant 0 <= currentTx <= txIndex
      invariant SkipFrames32(blockData, index, txIndex - currentTx) == SkipFrames32(blockData, TX_START, txIndex)
    {
      if index + 4 > |blockData| {
        return Undefined;
      }
      var txSize := BE(blockData[index..index + 4]);
      index := index + (txSize + 4) % U32;
      currentTx := currentTx + 1;
    }
    if index + 4 > |blockData| {
      return Undefined;
    }
    var txSize := BE(blockData[index..index + 4]);
    index := index + 4;
    if index + txSize > |blockData| {
      return Undefined;
    }
    return ParseTx(c, blockData[index..index + txSize]);
  }

  lemma {:induction false} FrameSought(b: Bytes, index: nat, items: seq<Bytes>, i: nat)
    requires At(b, index, Frames(items)) && i < |items|
    requires forall item <- items :: |item| < U32 - 4
    ensures var at := SkipFrames32(b, index, i);
      at.Ok? && At(b, at.value, Frames(items[i..]))
    decreases i
  {
    hide BE, Frames;
    if i > 0 {
      assert items[0] in items;
      FrameAt(b, index, items);
      FrameSought(b, index + 4 + |items[0]|, items[1..], i - 1);
      assert items[1..][i - 1..] == items[i..];
    } else {
      assert items[0..] == items;
    }
  }

  lemma TxAtOfFrames(c: Suite, b: Bytes, items: seq<Bytes>, i: nat)
    requires At(b, TX_START, Frames(items)) && i < |items|
    requires forall item <- items :: |item| < U32 - 4
    ensures TxAt(c, b, i) == ParseTx(c, items[i])
  {
    hide BE, Frames, Frame, ParseTx, SkipFrames32, At;
    FrameSought(b, TX_START, items, i);
    assert items[i] in items && items[i..][0] == items[i];
    FrameAt(b, SkipFrames32(b, TX_START, i).value, items[i..]);
  }

  // The i-th transaction found in the bytes of a block is what the block parser makes
  // of its i-th frame, if no frame is so long that its size plus four wraps.
  lemma SoughtIsParsed(c: Suite, b: BlockView, i: nat)
    requires Sealed(c, b) && SizesFit(b) && i < |b.txs|
    requires forall item <- TxItems(b.txs) :: |item| < U32 - 4
    ensures TxAt(c, Serialize(b), i) == ParseTx(c, TxItems(b.txs)[i])
    ensures Parse(c, Serialize(b)) == Ok(b) ==> TxAt(c, Serialize(b), i) == Ok(b.txs[i])
  {
    hide BE, Frames, Serialize, Header, ParseTx, Finish, Parse, ParseValAt, TxAt, TxItems;
    HeaderReads(b);
    TxAtOfFrames(c, Serialize(b), TxItems(b.txs), i);
    BlockRoundTrip(c, b);
  }

  /* The class */

  class Block {
    var validatorSig: Signature
    var prevBlockHash: Hash
    var blockRandomness: Hash
    var validatorMerkleRoot: Hash
    var txMerkleRoot: Hash
    var timestamp: nat
    var nHeight: nat
    var txValidators: seq<TxValidator>
    var txs: seq<TxBlock>
    var validatorPubKey: PubKey
    var finalized: bool
    var blockHash: Hash

    function View(): BlockView
      reads this
    {
      BlockView(validatorSig, prevBlockHash, blockRandomness, validatorMerkleRoot, txMerkleRoot,
        timestamp, nHeight, txValidators, txs, validatorPubKey, finalized, blockHash)
    }

    constructor (prevBlockHash: Hash, timestamp: nat, nHeight: nat)
      ensures View() == NewBlock(prevBlockHash, timestamp, nHeight)
    {
      this.prevBlockHash, this.timestamp, this.nHeight := prevBlockHash, timestamp, nHeight;
      validatorSig, validatorPubKey := Repeat(0, 65), EMPTY_KEY;
      blockRandomness, validatorMerkleRoot, txMerkleRoot, blockHash := ZERO_HASH, ZERO_HASH, ZERO_HASH, ZERO_HASH;
      txValidators, txs, finalized := [], [], false;
    }

    method AppendTx(tx: TxBlock) returns (ok: bool)
      modifies this
      ensures ok == !old(finalized)
      ensures View() == if ok then old(View()).(txs := old(txs) + [tx]) else old(View())
    {
      if finalized {
        return false;
      }
      txs := txs + [tx];
      return true;
    }

    method AppendTxValidator(tx: TxValidator) returns (ok: bool)
      modifies this
      ensures ok == !old(finalized)
      ensures View() == if ok then old(View()).(txValidators := old(txValidators) + [tx]) else old(View())
    {
      if finalized {
        return false;
      }
      txValidators := txValidators + [tx];
      return true;
    }

    method Sign(c: Suite, validatorPrivKey: PrivKey)
      modifies this
      ensures var hash := c.sha3(SerializedHeader(old(View())));
        var sig := c.sign(hash, validatorPrivKey);
        View() == old(View()).(hash := hash, validatorSig := sig, validatorPubKey := c.recover(sig, hash),
                               finalized := true)
    {
      hide SerializedHeader;
      blockHash := c.sha3(SerializedHeader(View()));
      validatorSig := c.sign(blockHash, validatorPrivKey);
      validatorPubKey := c.recover(validatorSig, blockHash);
      finalized := true;
    }

    method Finalize(c: Suite, validatorPrivKey: PrivKey, newTimestamp: nat) returns (ok: bool)
      modifies this
      ensures ok == (!old(finalized) && old(timestamp) <= newTimestamp)
      ensures View() == if ok then FinalizedBlock(c, old(View()), validatorPrivKey, newTimestamp) else old(View())
    {
      hide TxRoot, ValRoot, SerializedHeader, SeedOf;
      if finalized {
        return false;
      }
      if timestamp > newTimestamp {
        return false;
      }
      var seed := ParseTxSeedList(c, txValidators);
      timestamp, blockRandomness := newTimestamp, seed;
      txMerkleRoot, validatorMerkleRoot := TxRoot(c, txs), ValRoot(c, txValidators);
      Sign(c, validatorPrivKey);
      return true;
    }

    // serializeBlock writes eight zeros for the start of the validator transactions
    // and patches them once it is known.
    method SerializeBlock() returns (ret: Bytes)
      requires TxsFit(View())
      ensures ret == Serialize(View())
    {
      hide Fixed, TxItems, ValItems, SerializedHeader, Frames;
      var header := SerializedHeader(View());
      HeaderLength(View());
      ret := validatorSig + header;
      var txValidatorStartLoc := |ret|;
      ret := ret + Repeat(0, 8);
      var frames := WriteTxs(txs);
      ret := ret + frames;
      var start := Fixed(|ret|, 8);
      Patch(validatorSig + header, Repeat(0, 8), frames, start);
      ret := ret[..txValidatorStartLoc] + start + ret[txValidatorStartLoc + 8..];
      var valFrames := WriteVals(txValidators);
      ret := ret + valFrames;
      Regroup(validatorSig, header, start, frames, valFrames);
    }
  }

  lemma Patch(front: Bytes, hole: Bytes, back: Bytes, word: Bytes)
    requires |hole| == |word|
    ensures var s := front + hole + back; s[..|front|] + word + s[|front| + |word|..] == front + word + back
  {
    var s := front + hole + back;
    assert s[..|front|] == front && s[|front| + |word|..] == back;
  }

  lemma Regroup(a: Bytes, b: Bytes, c: Bytes, d: Bytes, e: Bytes)
    ensures a + b + c + d + e == a + (b + (c + (d + e)))
  {
  }

  lemma HeaderLength(b: BlockView)
    ensures |SerializedHeader(b)| == 144
  {
  }

  method WriteTxs(txs: seq<TxBlock>) returns (ret: Bytes)
    requires AllTxsFit(txs)
    ensures ret == Frames(TxItems(txs))
  {
    hide Fixed, TxItems, TxSerialize, Frames, TxFits;
    ret := [];
    assert txs[0..] == txs;
    for i := 0 to |txs|
      invariant ret + Frames(TxItems(txs[i..])) == Frames(TxItems(txs))
    {
      var txBytes := TxRlpSerialize(txs[i].body, true);
      TxItemsStep(txs, i);
      FramesUnfold([txBytes], TxItems(txs[i + 1..]));
      ret := ret + (Fixed(|txBytes|, 4) + txBytes);
    }
    NoItems();
    assert txs[|txs|..] == [] && ret + [] == ret;
  }

  lemma TxItemsStep(txs: seq<TxBlock>, i: nat)
    requires i < |txs| && AllTxsFit(txs)
    ensures TxItems(txs[i..]) == [TxSerialize(txs[i].body, true)] + TxItems(txs[i + 1..])
  {
    hide TxSerialize, TxFits;
  }

  method WriteVals(txs: seq<TxValidator>) returns (ret: Bytes)
    requires AllValsFit(txs)
    ensures ret == Frames(ValItems(txs))
  {
    hide Fixed, ValItems, ValSerialize, Frames, ValFits;
    ret := [];
    assert txs[0..] == txs;
    for i := 0 to |txs|
      invariant ret + Frames(ValItems(txs[i..])) == Frames(ValItems(txs))
    {
      var txBytes := ValRlpSerialize(txs[i].body, txs[i].chainId, true);
      ValItemsStep(txs, i);
      FramesUnfold([txBytes], ValItems(txs[i + 1..]));
      ret := ret + (Fixed(|txBytes|, 4) + txBytes);
    }
    NoItems();
    assert txs[|txs|..] == [] && ret + [] == ret;
  }

  lemma ValItemsStep(txs: seq<TxValidator>, i: nat)
    requires i < |txs| && AllValsFit(txs)
    ensures ValItems(txs[i..]) == [ValSerialize(txs[i].body, txs[i].chainId, true)] + ValItems(txs[i + 1..])
  {
    hide ValSerialize, ValFits;
  }

  lemma NoItems()
    ensures Frames(TxItems([])) == [] && Frames(ValItems([])) == []
  {
  }

  lemma FramesUnfold(first: seq<Bytes>, rest: seq<Bytes>)
    requires |first| == 1
    ensures Frames(first + rest) == Frame(first[0]) + Frames(rest)
  {
    assert (first + rest)[1..] == rest;
  }

  function NewBlock(prevBlockHash: Hash, timestamp: nat, nHeight: nat): BlockView {
    BlockView(Repeat(0, 65), prevBlockHash, ZERO_HASH, ZERO_HASH, ZERO_HASH, timestamp, nHeight, [], [],
      EMPTY_KEY, false, ZERO_HASH)
  }

  function FinalizedBlock(c: Suite, b: BlockView, key: PrivKey, newTimestamp: nat): BlockView {
    var b1 := b.(timestamp := newTimestamp, txMerkleRoot := TxRoot(c, b.txs),
      validatorMerkleRoot := ValRoot(c, b.txValidators), blockRandomness := SeedOf(c, b.txValidators));
    var hash := c.sha3(SerializedHeader(b1));
    var sig := c.sign(hash, key);
    b1.(hash := hash, validatorSig := sig, validatorPubKey := c.recover(sig, hash), finalized := true)
  }

  // A finalized block passes every check of the deserializing constructor.
  lemma FinalizedIsSealed(c: Suite, b: BlockView, key: PrivKey, newTimestamp: nat)
    requires Signs(c, key) && TxsFit(b) && newTimestamp < U64 && b.nHeight < U64
    ensures Sealed(c, FinalizedBlock(c, b, key, newTimestamp))
    ensures FinalizedBlock(c, b, key, newTimestamp).validatorPubKey == c.toUPub(key)
  {
    var f := FinalizedBlock(c, b, key, newTimestamp);
    assert SerializedHeader(f) == SerializedHeader(f.(hash := ZERO_HASH, validatorSig := b.validatorSig));
  }
}
