/**
 Block and validator transactions on the wire: src/utils/tx.cpp. A block
 transaction is a type-2 RLP list (EIP-1559), a validator transaction a legacy list
 whose v carries the chain id (EIP-155).
 */
module Tx {
  import opened Outcomes
  import opened Words
  import opened Spans
  import opened Crypto
  import opened Rlp

  /* Block transactions */

  // The fields of the list, in the order they are written.
  datatype TxBody = TxBody(
    chainId: nat, nonce: nat, maxPriorityFeePerGas: nat, maxFeePerGas: nat, gasLimit: nat,
    to: Address, value: nat, data: Bytes, v: byte, r: nat, s: nat)

  datatype TxBlock = TxBlock(body: TxBody, from: Address, hash: Hash)

  // The widths of the C++ members; a data vector is far below 2^63 bytes.
  predicate TxFits(t: TxBody) {
    && t.chainId < U64 && t.nonce < U256 && t.maxPriorityFeePerGas < U256 && t.maxFeePerGas < U256
    && t.gasLimit < U256 && t.value < U256 && t.r < U256 && t.s < U256 && 2 * |t.data| < U64
  }

  function TxFront(t: TxBody): Bytes
    requires TxFits(t)
  {
    IntField(t.chainId) + (IntField(t.nonce) + (IntField(t.maxPriorityFeePerGas) + (IntField(t.maxFeePerGas)
    + (IntField(t.gasLimit) + (AddressField(t.to) + IntField(t.value))))))
  }

  function TxSig(t: TxBody): Bytes
    requires TxFits(t)
  {
    [if t.v == 0 then 0x80 else t.v] + (SigField(t.r) + SigField(t.s))
  }

  function TxBack(t: TxBody, includeSig: bool): Bytes
    requires TxFits(t)
  {
    DataField(t.data) + ([0xc0] + (if includeSig then TxSig(t) else []))
  }

  function TxPayload(t: TxBody, includeSig: bool): Bytes
    requires TxFits(t)
  {
    TxFront(t) + TxBack(t, includeSig)
  }

  // The first pass of rlpSerialize.
  function TxTotalSize(t: TxBody, includeSig: bool): nat {
    IntSize(t.chainId) + IntSize(t.nonce) + IntSize(t.maxPriorityFeePerGas) + IntSize(t.maxFeePerGas)
    + IntSize(t.gasLimit) + (if t.to == ZERO_ADDRESS then 1 else 21) + IntSize(t.value) + 1 + DataSize(t.data)
    + (if includeSig then 3 + |MinBytes(t.r)| + |MinBytes(t.s)| else 0)
  }

  // The sizes counted in the first pass are the bytes written in the second.
  lemma TxSizesAgree(t: TxBody, includeSig: bool)
    requires TxFits(t)
    ensures |TxPayload(t, includeSig)| == TxTotalSize(t, includeSig) < U64
  {
    hide MinBytes, IntField, SigField, DataField, PlainIntField;
    FieldSizes(t.chainId, t.data);
    FieldSizes(t.nonce, t.data);
    FieldSizes(t.maxPriorityFeePerGas, t.data);
    FieldSizes(t.maxFeePerGas, t.data);
    FieldSizes(t.gasLimit, t.data);
    FieldSizes(t.value, t.data);
    FieldSizes(t.r, t.data);
    FieldSizes(t.s, t.data);
  }

  function TxSerialize(t: TxBody, includeSig: bool): Bytes
    requires TxFits(t)
  {
    TxSizesAgree(t, includeSig);
    [0x02] + (ListHeader(TxTotalSize(t, includeSig)) + TxPayload(t, includeSig))
  }

  method TxRlpSerialize(t: TxBody, includeSig: bool) returns (ret: Bytes)
    requires TxFits(t)
    ensures ret == TxSerialize(t, includeSig)
  {
    hide TxFront, TxBack, ListHeader, TxTotalSize;
    TxSizesAgree(t, includeSig);
    var total := MeasureTx(t, includeSig);
    var header := WriteListHeader(total);
    var front := WriteTxFront(t);
    var back := WriteTxBack(t, includeSig);
    ret := [0x02] + (header + (front + back));
  }

  method WriteTxFront(t: TxBody) returns (front: Bytes)
    requires TxFits(t)
    ensures front == TxFront(t)
  {
    hide IntField, AddressField;
    var chainId := WriteInt(t.chainId);
    var nonce := WriteInt(t.nonce);
    var maxPriorityFee := WriteInt(t.maxPriorityFeePerGas);
    var maxFee := WriteInt(t.maxFeePerGas);
    var gasLimit := WriteInt(t.gasLimit);
    var to := AddressField(t.to);
    var value := WriteInt(t.value);
    front := chainId + (nonce + (maxPriorityFee + (maxFee + (gasLimit + (to + value)))));
  }

  method WriteTxBack(t: TxBody, includeSig: bool) returns (back: Bytes)
    requires TxFits(t)
    ensures back == TxBack(t, includeSig)
  {
    hide DataField, SigField;
    var data := WriteData(t.data);
    if includeSig {
      var r := WriteSig(t.r);
      var s := WriteSig(t.s);
      back := data + ([0xc0] + ([if t.v == 0x00 then 0x80 else t.v] + (r + s)));
    } else {
      back := data + ([0xc0] + []);
    }
  }

  method MeasureTx(t: TxBody, includeSig: bool) returns (total: nat)
    requires TxFits(t)
    ensures total == TxTotalSize(t, includeSig)
  {
    hide MinBytes, IntSize, DataSize;
    total := 0;
    var size := MeasureInt(t.chainId);
    total := total + size;
    size := MeasureInt(t.nonce);
    total := total + size;
    size := MeasureInt(t.maxPriorityFeePerGas);
    total := total + size;
    size := MeasureInt(t.maxFeePerGas);
    total := total + size;
    size := MeasureInt(t.gasLimit);
    total := total + size;
    total := total + if t.to == ZERO_ADDRESS then 1 else 1 + 20;
    size := MeasureInt(t.value);
    total := total + size;
    total := total + 1;
    size := MeasureData(t.data);
    total := total + size;
    if includeSig {
      var reqBytesR := BytesRequired(t.r);
      var reqBytesS := BytesRequired(t.s);
      total := total + 1;
      total := total + 1 + reqBytesR;
      total := total + 1 + reqBytesS;
    }
  }

  // The fields before data, and the position behind them.
  function ReadTxFront(b: Bytes, i: nat): Outcome<(TxBody, nat)> {
    var (chainId, i1) :- ReadInt(b, i, false, 0x37);
    var (nonce, i2) :- ReadInt(b, i1, false, 0x37);
    var (maxPriorityFee, i3) :- ReadInt(b, i2, true, 0x37);
    var (maxFee, i4) :- ReadInt(b, i3, true, 0x37);
    var (gasLimit, i5) :- ReadInt(b, i4, false, 0x37);
    var (to, i6) :- ReadAddress(b, i5);
    var (value, i7) :- ReadInt(b, i6, true, 0x37);
    Ok((TxBody(chainId, nonce, maxPriorityFee, maxFee, gasLimit, to, value, [], 0, 0, 0), i7))
  }

  // Data, the empty access list, v, r and s.
  function ReadTxBack(b: Bytes, i: nat, t: TxBody): Outcome<TxBody> {
    var (data, i1) :- ReadData(b, i, true);
    if i1 >= |b| then Undefined
    else if b[i1] != 0xc0 then Throws
    else if i1 + 1 >= |b| then Undefined
    else if b[i1 + 1] != 0x80 && b[i1 + 1] > 0x01 then Throws
    else
      var (r, i3) :- ReadSig(b, i1 + 2, 0x20);
      var (s, _) :- ReadSig(b, i3, 0x20);
      Ok(t.(data := data, v := if b[i1 + 1] == 0x80 then 0 else b[i1 + 1], r := r, s := s))
  }

  // The sender and the hash of a well-signed body. The members of a parsed body
  // always have their C++ widths (ParsedTxFits).
  function FinishTx(c: Suite, t: TxBody): Outcome<TxBlock> {
    if !TxFits(t) || !VerifySig(t.r, t.s, t.v) then Throws
    else
      var key := c.recover(MakeSig(t.r, t.s, t.v), c.sha3(TxSerialize(t, false)));
      if key == EMPTY_KEY then Throws
      else Ok(TxBlock(t, ToAddress(c, key), c.sha3(TxSerialize(t, true))))
  }

  // The raw constructor.
  function ParseTx(c: Suite, bytes: Bytes): Outcome<TxBlock> {
    if bytes == [] then Undefined
    else if bytes[0] != 0x02 then Throws
    else
      var txData := bytes[1..];
      var i :- ReadListHeader(txData);
      var (front, j) :- ReadTxFront(txData, i);
      var t :- ReadTxBack(txData, j, front);
      FinishTx(c, t)
  }

  // What the field readers return has its C++ width.
  lemma ReadsFit(b: Bytes, i: nat)
    requires 2 * |b| < U64
    ensures ReadInt(b, i, true, 0x37).Ok? ==> ReadInt(b, i, true, 0x37).value.0 < U256
    ensures ReadInt(b, i, false, 0x37).Ok? ==> ReadInt(b, i, false, 0x37).value.0 < U64
    ensures ReadSig(b, i, 0x20).Ok? ==> ReadSig(b, i, 0x20).value.0 < U256
    ensures ReadData(b, i, true).Ok? ==> |ReadData(b, i, true).value.0| <= |b|
  {
    hide BE;
  }

  lemma ParsedFrontFits(b: Bytes, i: nat)
    requires 2 * |b| < U64 && ReadTxFront(b, i).Ok?
    ensures TxFits(ReadTxFront(b, i).value.0)
  {
    hide ReadInt, ReadAddress;
    var i1 := ReadInt(b, i, false, 0x37).value.1;
    var i2 := ReadInt(b, i1, false, 0x37).value.1;
    var i3 := ReadInt(b, i2, true, 0x37).value.1;
    var i4 := ReadInt(b, i3, true, 0x37).value.1;
    var i5 := ReadInt(b, i4, false, 0x37).value.1;
    var i6 := ReadAddress(b, i5).value.1;
    ReadsFit(b, i);
    ReadsFit(b, i1);
    ReadsFit(b, i2);
    ReadsFit(b, i3);
    ReadsFit(b, i4);
    ReadsFit(b, i6);
  }

  lemma ParsedTxFits(b: Bytes, i: nat)
    requires 2 * |b| < U64
    ensures var front := ReadTxFront(b, i);
      front.Ok? ==> var back := ReadTxBack(b, front.value.1, front.value.0); back.Ok? ==> TxFits(back.value)
  {
    hide ReadTxFront, ReadSig, ReadData;
    var front := ReadTxFront(b, i);
    if front.Ok? && ReadTxBack(b, front.value.1, front.value.0).Ok? {
      ParsedFrontFits(b, i);
      var i1 := ReadData(b, front.value.1, true).value.1;
      ReadsFit(b, front.value.1);
      ReadsFit(b, i1 + 2);
      ReadsFit(b, ReadSig(b, i1 + 2, 0x20).value.1);
    }
  }

  method ParseTxBlock(c: Suite, bytes: Bytes) returns (res: Outcome<TxBlock>)
    requires 2 * |bytes| < U64
    ensures res == ParseTx(c, bytes)
  {
    hide ReadListHeader, ReadInt, ReadAddress, ReadData, ReadSig, FinishTx;
    if bytes == [] {
      return Undefined;
    }
    if bytes[0] != 0x02 {
      return Throws;
    }
    var txData := bytes[1..];
    var index :- ParseListHeader(txData);
    var chainId :- ParseInt(txData, index, false, 0x37);
    index := chainId.1;
    var nonce :- ParseInt(txData, index, false, 0x37);
    index := nonce.1;
    var maxPriorityFee :- ParseInt(txData, index, true, 0x37);
    index := maxPriorityFee.1;
    var maxFee :- ParseInt(txData, index, true, 0x37);
    index := maxFee.1;
    var gasLimit :- ParseInt(txData, index, false, 0x37);
    index := gasLimit.1;
    var to :- ReadAddress(txData, index);
    index := to.1;
    var value :- ParseInt(txData, index, true, 0x37);
    index := value.1;
    var data :- ParseData(txData, index, true);
    index := data.1;
    if index >= |txData| {
      return Undefined;
    } else if txData[index] != 0xc0 {
      return Throws;
    }
    index := index + 1;
    if index >= |txData| {
      return Undefined;
    }
    var v := 0;
    if txData[index] != 0x80 {
      v := txData[index];
      if v > 0x01 {
        return Throws;
      }
    }
    index := index + 1;
    var r :- ParseSig(txData, index, 0x20);
    index := r.1;
    var s :- ParseSig(txData, index, 0x20);
    var t := TxBody(chainId.0, nonce.0, maxPriorityFee.0, maxFee.0, gasLimit.0, to.0, value.0, data.0, v, r.0, s.0);
    res := FinishTx(c, t);
  }

  // A transaction whose sender and hash are those of its body.
  predicate SignedTx(c: Suite, tx: TxBlock) {
    && TxFits(tx.body)
    && FinishTx(c, tx.body) == Ok(tx)
  }

  // The key belongs to the sender and its signature of the hash verifies.
  predicate KeySigns(c: Suite, hash: Hash, from: Address, privKey: PrivKey) {
    var sig := c.sign(hash, privKey);
    ToAddress(c, c.toUPub(privKey)) == from && c.recover(sig, hash) == c.toUPub(privKey)
    && VerifySig(SigR(sig), SigS(sig), SigV(sig))
  }

  // The signing constructor.
  method SignTxBlock(c: Suite, unsigned: TxBody, from: Address, privKey: PrivKey) returns (res: Outcome<TxBlock>)
    requires TxFits(unsigned)
    ensures var hash := c.sha3(TxSerialize(unsigned, false));
      var sig := c.sign(hash, privKey);
      if KeySigns(c, hash, from, privKey) then
        res.Ok? && res.value.body == unsigned.(v := SigV(sig), r := SigR(sig), s := SigS(sig))
      else res == Throws
    ensures res.Ok? ==> res.value.from == from && res.value.hash == c.sha3(TxSerialize(res.value.body, true))
    ensures res.Ok? && c.toUPub(privKey) != EMPTY_KEY ==> SignedTx(c, res.value)
  {
    var pubKey := c.toUPub(privKey);
    if ToAddress(c, pubKey) != from {
      return Throws;
    }
    var msg := TxRlpSerialize(unsigned, false);
    var sig := c.sign(c.sha3(msg), privKey);
    BEBound(sig[..32]);
    BEBound(sig[32..64]);
    WidthConstants();
    var t := unsigned.(r := SigR(sig), s := SigS(sig), v := SigV(sig));
    MakeSigOfParts(sig);
    SignatureIsNotSigned(unsigned, t);
    if pubKey != c.recover(sig, c.sha3(msg)) || !VerifySig(t.r, t.s, t.v) {
      return Throws;
    }
    var full := TxRlpSerialize(t, true);
    return Ok(TxBlock(t, from, c.sha3(full)));
  }

  lemma SignatureIsNotSigned(t: TxBody, u: TxBody)
    requires TxFits(t) && TxFits(u) && t.(v := 0, r := 0, s := 0) == u.(v := 0, r := 0, s := 0)
    ensures TxSerialize(t, false) == TxSerialize(u, false)
  {
  }

  // What the parser makes of a body: nonce and gas limit are cut to 64 bits.
  function CutTx(t: TxBody): TxBody {
    t.(nonce := t.nonce % U64, gasLimit := t.gasLimit % U64)
  }

  lemma TxFrontReads(b: Bytes, i: nat, t: TxBody)
    requires TxFits(t) && At(b, i, TxFront(t))
    ensures ReadTxFront(b, i) == Ok((CutTx(t).(data := [], v := 0, r := 0, s := 0), i + |TxFront(t)|))
  {
    hide IntField, AddressField, ReadInt, ReadAddress, PlainIntField, At;
    var f6 := AddressField(t.to) + IntField(t.value);
    var f5 := IntField(t.gasLimit) + f6;
    var f4 := IntField(t.maxFeePerGas) + f5;
    var f3 := IntField(t.maxPriorityFeePerGas) + f4;
    var f2 := IntField(t.nonce) + f3;
    AtSplit(b, i, IntField(t.chainId), f2);
    IntFieldReads(b, i, t.chainId, false, 0x37);
    var j := i + |IntField(t.chainId)|;
    AtSplit(b, j, IntField(t.nonce), f3);
    IntFieldReads(b, j, t.nonce, false, 0x37);
    j := j + |IntField(t.nonce)|;
    AtSplit(b, j, IntField(t.maxPriorityFeePerGas), f4);
    IntFieldReads(b, j, t.maxPriorityFeePerGas, true, 0x37);
    j := j + |IntField(t.maxPriorityFeePerGas)|;
    AtSplit(b, j, IntField(t.maxFeePerGas), f5);
    IntFieldReads(b, j, t.maxFeePerGas, true, 0x37);
    j := j + |IntField(t.maxFeePerGas)|;
    AtSplit(b, j, IntField(t.gasLimit), f6);
    IntFieldReads(b, j, t.gasLimit, false, 0x37);
    j := j + |IntField(t.gasLimit)|;
    AtSplit(b, j, AddressField(t.to), IntField(t.value));
    AddressFieldReads(b, j, t.to);
    IntFieldReads(b, j + |AddressField(t.to)|, t.value, true, 0x37);
  }

  lemma TxBackReads(b: Bytes, i: nat, t: TxBody, front: TxBody)
    requires TxFits(t) && t.v <= 1 && At(b, i, TxBack(t, true))
    ensures |t.data| != 55 ==> ReadTxBack(b, i, front) == Ok(front.(data := t.data, v := t.v, r := t.r, s := t.s))
    ensures |t.data| == 55 && ReadTxBack(b, i, front).Ok? ==> ReadTxBack(b, i, front).value.data == []
  {
    hide DataField, SigField, ReadData, ReadSig, ReadInt, At, TxSig;
    var data := DataField(t.data);
    AtSplit(b, i, data, [0xc0] + TxSig(t));
    DataFieldReads(b, i, t.data, true);
    if |t.data| != 55 {
      SigPartReads(b, i + |data|, t);
    }
  }

  lemma SigPartReads(b: Bytes, j: nat, t: TxBody)
    requires TxFits(t) && t.v <= 1 && At(b, j, [0xc0] + TxSig(t))
    ensures j + 1 < |b| && b[j] == 0xc0 && b[j + 1] == if t.v == 0 then 0x80 else t.v
    ensures ReadSig(b, j + 2, 0x20) == Ok((t.r, j + 2 + |SigField(t.r)|))
    ensures ReadSig(b, j + 2 + |SigField(t.r)|, 0x20) == Ok((t.s, j + 2 + |SigField(t.r)| + |SigField(t.s)|))
  {
    hide SigField, ReadSig, ReadInt, At;
    var v: byte := if t.v == 0 then 0x80 else t.v;
    AtSplit(b, j, [0xc0], TxSig(t));
    AtSplit(b, j + 1, [v], SigField(t.r) + SigField(t.s));
    ByteAt(b, j, 0xc0);
    ByteAt(b, j + 1, v);
    AtSplit(b, j + 2, SigField(t.r), SigField(t.s));
    SigFieldReads(b, j + 2, t.r, true, 0x20);
    SigFieldReads(b, j + 2 + |SigField(t.r)|, t.s, true, 0x20);
  }

  lemma ByteAt(b: Bytes, i: nat, x: byte)
    requires At(b, i, [x])
    ensures i < |b| && b[i] == x
  {
    assert b[i..i + 1][0] == b[i];
  }

  // Parsing rlpSerialize(true) of a signed transaction gives back every member of it
  // exactly when the list is longer than 55 bytes, data does not have 55 bytes and
  // nonce and gas limit have 64 bits.
  lemma TxRoundTrip(c: Suite, tx: TxBlock)
    requires SignedTx(c, tx)
    ensures ParseTx(c, TxSerialize(tx.body, true)) == Ok(tx) <==>
      TxTotalSize(tx.body, true) > 55 && |tx.body.data| != 55 && tx.body.nonce < U64 && tx.body.gasLimit < U64
  {
    hide TxFront, TxBack, ReadTxFront, ReadTxBack, ListHeader, ReadListHeader, TxTotalSize, MinBytes, VerifySig;
    var t := tx.body;
    TxSizesAgree(t, true);
    var header, payload := ListHeader(TxTotalSize(t, true)), TxPayload(t, true);
    var txData := header + payload;
    assert TxSerialize(t, true)[1..] == txData;
    ListHeaderReads(payload);
    if |payload| > 55 {
      AtBehind(header, payload, 0, TxFront(t));
      AtBehind(header, payload, |TxFront(t)|, TxBack(t, true));
      TxFrontReads(txData, |header|, t);
      var front := CutTx(t).(data := [], v := 0, r := 0, s := 0);
      RecoveryIdOfSigned(c, tx);
      TxBackReads(txData, |header| + |TxFront(t)|, t, front);
      var back := ReadTxBack(txData, |header| + |TxFront(t)|, front);
      assert ParseTx(c, TxSerialize(t, true)) == if back.Ok? then FinishTx(c, back.value) else back.PropagateFailure();
      FinishKeepsBody(c, if back.Ok? then back.value else t);
    }
  }

  lemma RecoveryIdOfSigned(c: Suite, tx: TxBlock)
    requires SignedTx(c, tx)
    ensures tx.body.v <= 1
  {
  }

  lemma FinishKeepsBody(c: Suite, t: TxBody)
    ensures FinishTx(c, t).Ok? ==> FinishTx(c, t).value.body == t
  {
  }

  /* Validator transactions */

  datatype ValBody = ValBody(data: Bytes, nHeight: nat, v: nat, r: nat, s: nat)

  datatype TxValidator = TxValidator(body: ValBody, chainId: nat, from: Address, hash: Hash)

  predicate ValFits(t: ValBody, chainId: nat) {
    2 * |t.data| < U64 && t.nHeight < U64 && t.v < U256 && t.r < U256 && t.s < U256 && chainId < U64
  }

  // Unsigned, v is replaced by the chain id, r and s by empty strings.
  function ValPayload(t: ValBody, chainId: nat, includeSig: bool): Bytes
    requires ValFits(t, chainId)
  {
    DataField(t.data) + (IntField(t.nHeight) +
      if includeSig then PlainIntField(t.v) + (SigField(t.r) + SigField(t.s))
      else PlainIntField(chainId) + [0x80, 0x80])
  }

  function ValTotalSize(t: ValBody, chainId: nat, includeSig: bool): nat {
    DataSize(t.data) + IntSize(t.nHeight) + (if includeSig then IntSize(t.v) else IntSize(chainId))
    + (if includeSig then 2 + |MinBytes(t.r)| + |MinBytes(t.s)| else 2)
  }

  lemma ValSizesAgree(t: ValBody, chainId: nat, includeSig: bool)
    requires ValFits(t, chainId)
    ensures |ValPayload(t, chainId, includeSig)| == ValTotalSize(t, chainId, includeSig) < U64
  {
    hide MinBytes, IntField, SigField, DataField, PlainIntField;
    FieldSizes(t.nHeight, t.data);
    FieldSizes(t.v, t.data);
    FieldSizes(chainId, t.data);
    FieldSizes(t.r, t.data);
    FieldSizes(t.s, t.data);
  }

  function ValSerialize(t: ValBody, chainId: nat, includeSig: bool): Bytes
    requires ValFits(t, chainId)
  {
    ValSizesAgree(t, chainId, includeSig);
    ListHeader(ValTotalSize(t, chainId, includeSig)) + ValPayload(t, chainId, includeSig)
  }

  method ValRlpSerialize(t: ValBody, chainId: nat, includeSig: bool) returns (ret: Bytes)
    requires ValFits(t, chainId)
    ensures ret == ValSerialize(t, chainId, includeSig)
  {
    hide IntField, SigField, DataField, ListHeader, MinBytes, IntSize, DataSize;
    ValSizesAgree(t, chainId, includeSig);
    var total := MeasureData(t.data);
    var size := MeasureInt(t.nHeight);
    total := total + size;
    size := MeasureInt(if includeSig then t.v else chainId);
    total := total + size;
    var reqBytesR := BytesRequired(t.r);
    var reqBytesS := BytesRequired(t.s);
    total := total + if !includeSig then 1 else 1 + reqBytesR;
    total := total + if !includeSig then 1 else 1 + reqBytesS;
    var header := WriteListHeader(total);
    var data := WriteData(t.data);
    var nHeight := WriteInt(t.nHeight);
    var v := WritePlainInt(if includeSig then t.v else chainId);
    if includeSig {
      var r := WriteSig(t.r);
      var s := WriteSig(t.s);
      ret := header + (data + (nHeight + (v + (r + s))));
    } else {
      ret := header + (data + (nHeight + (v + [0x80, 0x80])));
    }
  }

  function ReadVal(b: Bytes, i: nat): Outcome<ValBody> {
    var (data, i1) :- ReadData(b, i, false);
    var (nHeight, i2) :- ReadInt(b, i1, false, 0x7f);
    var (v, i3) :- ReadInt(b, i2, true, 0x37);
    var (r, i4) :- ReadSig(b, i3, 0x37);
    var (s, _) :- ReadSig(b, i4, 0x37);
    Ok(ValBody(data, nHeight, v, r, s))
  }

  // The chain id and the recovery id that v stands for. For v of 27 and 28 the
  // checked subtraction of at least 35 throws, whatever the chain id member holds.
  function SplitV(v: nat): Outcome<(nat, byte)> {
    if v <= 36 || (v - 35) / 2 >= U64 then Throws else Ok(((v - 35) / 2, (v - 35) % 2))
  }

  function FinishVal(c: Suite, t: ValBody): Outcome<TxValidator> {
    var (chainId, recoveryId) :- SplitV(t.v);
    if !ValFits(t, chainId) || !VerifySig(t.r, t.s, recoveryId) then Throws
    else
      var key := c.recover(MakeSig(t.r, t.s, recoveryId), c.sha3(ValSerialize(t, chainId, false)));
      if key == EMPTY_KEY then Throws
      else Ok(TxValidator(t, chainId, ToAddress(c, key), c.sha3(ValSerialize(t, chainId, true))))
  }

  // The raw constructor.
  function ParseVal(c: Suite, bytes: Bytes): Outcome<TxValidator> {
    var i :- ReadListHeader(bytes);
    var t :- ReadVal(bytes, i);
    FinishVal(c, t)
  }

  lemma ParsedValFits(b: Bytes, i: nat, chainId: nat)
    requires 2 * |b| < U64 && chainId < U64
    ensures var t := ReadVal(b, i); t.Ok? ==> ValFits(t.value, chainId)
  {
    hide BE;
    assert forall x: nat :: x % U64 < U64;
  }

  method ParseTxValidator(c: Suite, bytes: Bytes) returns (res: Outcome<TxValidator>)
    requires 2 * |bytes| < U64
    ensures res == ParseVal(c, bytes)
  {
    hide ReadListHeader, ReadInt, ReadData, ReadSig, FinishVal;
    var index :- ParseListHeader(bytes);
    var data :- ParseData(bytes, index, false);
    index := data.1;
    var nHeight :- ParseInt(bytes, index, false, 0x7f);
    index := nHeight.1;
    var v :- ParseInt(bytes, index, true, 0x37);
    index := v.1;
    var r :- ParseSig(bytes, index, 0x37);
    index := r.1;
    var s :- ParseSig(bytes, index, 0x37);
    res := FinishVal(c, ValBody(data.0, nHeight.0, v.0, r.0, s.0));
  }

  // A transaction as its signing constructor leaves it: v is recId + 2 chainId + 35
  // in uint64_t arithmetic.
  ghost predicate SealedVal(c: Suite, tx: TxValidator, recId: byte) {
    && ValFits(tx.body, tx.chainId)
    && VerifySig(tx.body.r, tx.body.s, recId)
    && tx.body.v == (recId + 2 * tx.chainId + 35) % U64
    && tx.hash == c.sha3(ValSerialize(tx.body, tx.chainId, true))
    && var key := c.recover(MakeSig(tx.body.r, tx.body.s, recId), c.sha3(ValSerialize(tx.body, tx.chainId, false)));
    key != EMPTY_KEY && tx.from == ToAddress(c, key)
  }

  lemma AddMod(a: nat, b: nat)
    ensures (a + b % U64) % U64 == (a + b) % U64
  {
    ModMultiple(b / U64, a + b % U64);
    assert a + b == b / U64 * U64 + (a + b % U64);
  }

  lemma UnsignedIgnoresSignature(t: ValBody, u: ValBody, chainId: nat)
    requires ValFits(t, chainId) && ValFits(u, chainId) && t.data == u.data && t.nHeight == u.nHeight
    ensures ValSerialize(t, chainId, false) == ValSerialize(u, chainId, false)
  {
  }

  // What the signing constructor signs, and its signature.
  function UnsignedHash(c: Suite, data: Bytes, chainId: nat, nHeight: nat): Hash
    requires 2 * |data| < U64 && chainId < U64 && nHeight < U64
  {
    c.sha3(ValSerialize(ValBody(data, nHeight, 0, 0, 0), chainId, false))
  }

  // The signing constructor.
  method SignTxValidator(c: Suite, from: Address, data: Bytes, chainId: nat, nHeight: nat, privKey: PrivKey)
    returns (res: Outcome<TxValidator>)
    requires 2 * |data| < U64 && chainId < U64 && nHeight < U64
    ensures res == Throws || res.Ok?
    ensures res.Ok? <==> KeySigns(c, UnsignedHash(c, data, chainId, nHeight), from, privKey)
    ensures res.Ok? ==> var tx := res.value;
      var sig := c.sign(UnsignedHash(c, data, chainId, nHeight), privKey);
      && tx.from == from && tx.chainId == chainId && tx.body.data == data && tx.body.nHeight == nHeight
      && tx.body.r == SigR(sig) && tx.body.s == SigS(sig)
      && (c.toUPub(privKey) != EMPTY_KEY ==> SealedVal(c, tx, SigV(sig)))
  {
    hide ValSerialize, BE, Fixed;
    var pubKey := c.toUPub(privKey);
    var unsigned := ValBody(data, nHeight, 0, 0, 0);
    var msg := ValRlpSerialize(unsigned, chainId, false);
    if ToAddress(c, pubKey) != from {
      return Throws;
    }
    var sig := c.sign(c.sha3(msg), privKey);
    BEBound(sig[..32]);
    BEBound(sig[32..64]);
    WidthConstants();
    var recoveryIds := SigV(sig);
    var t := unsigned.(r := SigR(sig), s := SigS(sig), v := (recoveryIds + (chainId * 2 + 35) % U64) % U64);
    MakeSigOfParts(sig);
    UnsignedIgnoresSignature(t, unsigned, chainId);
    AddMod(recoveryIds, 2 * chainId + 35);
    if !VerifySig(t.r, t.s, recoveryIds) || pubKey != c.recover(sig, c.sha3(msg)) {
      return Throws;
    }
    var full := ValRlpSerialize(t, chainId, true);
    return Ok(TxValidator(t, chainId, from, c.sha3(full)));
  }

  lemma ValFieldsRead(b: Bytes, i: nat, t: ValBody, chainId: nat)
    requires ValFits(t, chainId) && At(b, i, ValPayload(t, chainId, true))
    ensures |t.data| != 55 ==> ReadVal(b, i) == Ok(t)
    ensures |t.data| == 55 && ReadVal(b, i).Ok? ==> ReadVal(b, i).value.data == []
  {
    hide DataField, IntField, PlainIntField, SigField, ReadData, ReadInt, ReadSig, At;
    var sig := SigField(t.r) + SigField(t.s);
    AtSplit(b, i, DataField(t.data), IntField(t.nHeight) + (PlainIntField(t.v) + sig));
    DataFieldReads(b, i, t.data, false);
    if |t.data| != 55 {
      var j := i + |DataField(t.data)|;
      AtSplit(b, j, IntField(t.nHeight), PlainIntField(t.v) + sig);
      IntFieldReads(b, j, t.nHeight, false, 0x7f);
      j := j + |IntField(t.nHeight)|;
      AtSplit(b, j, PlainIntField(t.v), sig);
      IntFieldReads(b, j, t.v, true, 0x37);
      j := j + |PlainIntField(t.v)|;
      AtSplit(b, j, SigField(t.r), SigField(t.s));
      SigFieldReads(b, j, t.r, true, 0x37);
      SigFieldReads(b, j + |SigField(t.r)|, t.s, true, 0x37);
    }
  }

  // v gives back the chain id unless it wrapped or the chain id is zero.
  lemma SplitOfSealedV(chainId: nat, recId: byte)
    requires chainId < U64 && recId <= 1
    ensures var v := (recId + 2 * chainId + 35) % U64;
      if chainId >= 1 && recId + 2 * chainId + 35 < U64 then SplitV(v) == Ok((chainId, recId))
      else SplitV(v).Ok? ==> SplitV(v).value.0 != chainId
  {
  }

  // Parsing rlpSerialize(true) of a sealed validator transaction gives back every
  // member of it exactly when the list is longer than 55 bytes, data does not have
  // 55 bytes, the chain id is not zero and v did not wrap.
  lemma ValRoundTrip(c: Suite, tx: TxValidator, recId: byte)
    requires SealedVal(c, tx, recId)
    ensures ParseVal(c, ValSerialize(tx.body, tx.chainId, true)) == Ok(tx) <==>
      && ValTotalSize(tx.body, tx.chainId, true) > 55 && |tx.body.data| != 55
      && tx.chainId >= 1 && recId + 2 * tx.chainId + 35 < U64
  {
    hide ValPayload, ReadVal, ListHeader, ReadListHeader, ValTotalSize, MinBytes;
    var t, chainId := tx.body, tx.chainId;
    ValSizesAgree(t, chainId, true);
    var header, payload := ListHeader(ValTotalSize(t, chainId, true)), ValPayload(t, chainId, true);
    ListHeaderReads(payload);
    if |payload| > 55 {
      AtBehind(header, payload, 0, payload);
      ValFieldsRead(header + payload, |header|, t, chainId);
      SplitOfSealedV(chainId, recId);
      FinishValKeeps(c, t);
      var read := ReadVal(header + payload, |header|);
      if read.Ok? {
        FinishValKeeps(c, read.value);
      }
    }
  }

  lemma FinishValKeeps(c: Suite, t: ValBody)
    ensures FinishVal(c, t).Ok? ==> FinishVal(c, t).value.body == t
    ensures FinishVal(c, t).Ok? ==> SplitV(t.v).Ok? && FinishVal(c, t).value.chainId == SplitV(t.v).value.0
  {
  }
}
