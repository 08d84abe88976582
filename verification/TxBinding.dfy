/**
 What an accepted transaction satisfies and what its hash commits to (the raw
 constructors of src/utils/tx.cpp).
 */
module TxBinding {
  import opened Outcomes
  import opened Words
  import opened Spans
  import opened Crypto
  import opened Rlp
  import opened Tx

  // Every accepted block transaction is a type-2 list, well signed by its sender over everything but the signature,
  // and known by the hash of everything.
  lemma ParsedTxIsSigned(c: Suite, bytes: Bytes, tx: TxBlock)
    requires ParseTx(c, bytes) == Ok(tx) && 2 * |bytes| < U64
    ensures var t := tx.body;
      && bytes != [] && bytes[0] == 2
      && TxFits(t) && t.nonce < U64 && t.gasLimit < U64
      && t.v <= 1 && 0 < t.r < EC_CONST && 0 < t.s < EC_CONST
      && (var key := c.recover(MakeSig(t.r, t.s, t.v), c.sha3(TxSerialize(t, false)));
          key != EMPTY_KEY && tx.from == c.sha3(key[1..])[12..])
      && tx.hash == c.sha3(TxSerialize(t, true))
  {
    hide ReadListHeader, ReadTxFront, ReadTxBack, FinishTx, TxSerialize, TxFits, MakeSig;
    var txData := bytes[1..];
    var i := ReadListHeader(txData).value;
    ParsedWidths(txData, i);
    ParsedTxFits(txData, i);
    var front := ReadTxFront(txData, i).value;
    KeepsFront(txData, front.1, front.0);
    FinishedIsSigned(c, ReadTxBack(txData, front.1, front.0).value, tx);
  }

  lemma KeepsFront(b: Bytes, i: nat, front: TxBody)
    ensures var r := ReadTxBack(b, i, front);
      r.Ok? ==> r.value.nonce == front.nonce && r.value.gasLimit == front.gasLimit && r.value.v <= 1
  {
    hide ReadData, ReadSig;
  }

  lemma FinishedIsSigned(c: Suite, t: TxBody, tx: TxBlock)
    requires FinishTx(c, t) == Ok(tx)
    ensures tx.body == t && TxFits(t) && t.v <= 1 && 0 < t.r < EC_CONST && 0 < t.s < EC_CONST
    ensures var key := c.recover(MakeSig(t.r, t.s, t.v), c.sha3(TxSerialize(t, false)));
      key != EMPTY_KEY && tx.from == c.sha3(key[1..])[12..]
    ensures tx.hash == c.sha3(TxSerialize(t, true))
  {
    hide TxSerialize, TxFits, MakeSig;
  }

  lemma ParsedWidths(b: Bytes, i: nat)
    requires 2 * |b| < U64
    ensures var front := ReadTxFront(b, i);
      front.Ok? ==> front.value.0.nonce < U64 && front.value.0.gasLimit < U64
  {
    hide ReadInt, ReadAddress;
    if ReadTxFront(b, i).Ok? {
      var i1 := ReadInt(b, i, false, 0x37).value.1;
      var i2 := ReadInt(b, i1, false, 0x37).value.1;
      var i3 := ReadInt(b, i2, true, 0x37).value.1;
      var i4 := ReadInt(b, i3, true, 0x37).value.1;
      ReadsFit(b, i1);
      ReadsFit(b, i4);
    }
  }

  // The same for validator transactions, whose v holds the chain id and the recovery id.
  lemma ParsedValIsSigned(c: Suite, bytes: Bytes, tx: TxValidator)
    requires ParseVal(c, bytes) == Ok(tx)
    ensures var t, id := tx.body, (tx.body.v - 35) % 2;
      && t.v > 36 && tx.chainId == (t.v - 35) / 2 && ValFits(t, tx.chainId)
      && 0 < t.r < EC_CONST && 0 < t.s < EC_CONST
      && (var key := c.recover(MakeSig(t.r, t.s, id), c.sha3(ValSerialize(t, tx.chainId, false)));
          key != EMPTY_KEY && tx.from == c.sha3(key[1..])[12..])
      && tx.hash == c.sha3(ValSerialize(t, tx.chainId, true))
  {
    hide ReadListHeader, ReadVal, ValSerialize, MakeSig;
  }

  /* The serialization is one to one */

  lemma SizeOfHeader(n: nat, m: nat)
    requires n < U64 && m < U64 && n + |ListHeader(n)| == m + |ListHeader(m)|
    ensures n == m
  {
    if n < m {
      HeaderGrows(n, m);
    } else if m < n {
      HeaderGrows(m, n);
    }
    hide ListHeader;
  }

  lemma HeaderGrows(n: nat, m: nat)
    requires n <= m < U64
    ensures |ListHeader(n)| <= |ListHeader(m)|
  {
    DigitsGrow(n, m);
    hide MinBytes;
  }

  lemma {:induction false} DigitsGrow(n: nat, m: nat)
    requires n <= m
    ensures |MinBytes(n)| <= |MinBytes(m)|
  {
    if n > 0 {
      DigitsGrow(n / 256, m / 256);
    }
  }

  lemma SamePayload(a: Bytes, b: Bytes)
    requires |a| < U64 && |b| < U64 && ListHeader(|a|) + a == ListHeader(|b|) + b
    ensures a == b
  {
    hide ListHeader;
    SizeOfHeader(|a|, |b|);
    var h := ListHeader(|a|);
    assert (h + a)[|h|..] == a && (h + b)[|h|..] == b;
  }

  // No data field is the start of another one.
  lemma SameData(d: Bytes, x: Bytes, e: Bytes, y: Bytes)
    requires |d| < U64 && |e| < U64 && DataField(d) + x == DataField(e) + y
    ensures d == e && x == y
  {
    var all := DataField(d) + x;
    SameLength(d, x, e, y);
    var n := |DataField(d)|;
    assert all[..n] == DataField(d) && all[..n] == DataField(e);
    assert all[n..] == x && all[n..] == y;
    assert DataField(d)[n - |d|..] == d by { DataAtEnd(d); }
    assert DataField(e)[n - |e|..] == e by { DataAtEnd(e); }
  }

  lemma DataAtEnd(d: Bytes)
    requires |d| < U64
    ensures |DataField(d)| > |d| && DataField(d)[|DataField(d)| - |d|..] == d
  {
    hide MinBytes;
  }

  lemma SameLength(d: Bytes, x: Bytes, e: Bytes, y: Bytes)
    requires |d| < U64 && |e| < U64 && DataField(d) + x == DataField(e) + y
    ensures |d| == |e| && |DataField(d)| == |DataField(e)|
  {
    LengthFits(|d|);
    LengthFits(|e|);
    var all := DataField(d) + x;
    assert all[0] == DataField(d)[0] == DataField(e)[0];
    if |d| > 55 {
      DigitsOfLength(d, x);
      DigitsOfLength(e, y);
      MinBytesValue(|d|);
      MinBytesValue(|e|);
    }
    hide MinBytes;
  }

  lemma DigitsOfLength(d: Bytes, x: Bytes)
    requires |d| < U64
    ensures var digits, all := MinBytes(|d|), DataField(d) + x;
      |d| > 55 ==> |digits| <= 8 && DataField(d)[0] == 0xb7 + |digits| && digits != []
                   && |all| > |digits| && all[1..1 + |digits|] == digits
    ensures |d| <= 55 ==> DataField(d)[0] <= 0xb7
  {
    LengthFits(|d|);
    if |d| > 55 {
      MinBytesNoLeadingZero(|d|);
    }
    hide MinBytes;
    if |d| > 55 {
      var digits := MinBytes(|d|);
      assert DataField(d) + x == [0xb7 + |digits|] + digits + d + x;
    }
  }

  lemma SignatureBinds(t: TxBody, u: TxBody)
    requires TxFits(t) && TxFits(u) && t.v <= 1 && u.v <= 1 && TxSig(t) == TxSig(u)
    ensures t.v == u.v && t.r == u.r && t.s == u.s
  {
    var b := TxSig(t);
    assert b[0] == (if t.v == 0 then 0x80 else t.v) && b[0] == (if u.v == 0 then 0x80 else u.v);
    SigsBind(b[1..], t.r, t.s, u.r, u.s);
  }

  lemma SigsBind(b: Bytes, r: nat, s: nat, r': nat, s': nat)
    requires r < U256 && s < U256 && r' < U256 && s' < U256
    requires b == SigField(r) + SigField(s) == SigField(r') + SigField(s')
    ensures r == r' && s == s'
  {
    hide SigField, ReadInt, ReadSig;
    AtFront(SigField(r), SigField(s));
    AtFront(SigField(r'), SigField(s'));
    SigFieldReads(b, 0, r, true, 0x37);
    SigFieldReads(b, 0, r', true, 0x37);
    var n := |SigField(r)|;
    assert At(b, n, SigField(s)) && At(b, n, SigField(s'));
    SigFieldReads(b, n, s, true, 0x37);
    SigFieldReads(b, n, s', true, 0x37);
  }

  lemma PayloadBinds(t: TxBody, u: TxBody)
    requires TxFits(t) && TxFits(u) && t.v <= 1 && u.v <= 1
    requires t.nonce < U64 && t.gasLimit < U64 && u.nonce < U64 && u.gasLimit < U64
    requires TxPayload(t, true) == TxPayload(u, true)
    ensures t == u
  {
    hide TxFront, TxSig, ReadTxFront, DataField;
    var b := TxPayload(t, true);
    AtFront(TxFront(t), TxBack(t, true));
    AtFront(TxFront(u), TxBack(u, true));
    TxFrontReads(b, 0, t);
    TxFrontReads(b, 0, u);
    var n := |TxFront(t)|;
    assert b[n..] == TxBack(t, true) && b[n..] == TxBack(u, true);
    SameData(t.data, [0xc0] + TxSig(t), u.data, [0xc0] + TxSig(u));
    assert ([0xc0] + TxSig(t))[1..] == TxSig(t) && ([0xc0] + TxSig(u))[1..] == TxSig(u);
    SignatureBinds(t, u);
    assert CutTx(t) == t && CutTx(u) == u;
  }

  // Two bodies with the same bytes are the same.
  lemma TxBytesBind(t: TxBody, u: TxBody)
    requires TxFits(t) && TxFits(u) && t.v <= 1 && u.v <= 1
    requires t.nonce < U64 && t.gasLimit < U64 && u.nonce < U64 && u.gasLimit < U64
    requires TxSerialize(t, true) == TxSerialize(u, true)
    ensures t == u
  {
    TxSizesAgree(t, true);
    TxSizesAgree(u, true);
    hide TxPayload, TxTotalSize, ListHeader;
    var a, b := TxPayload(t, true), TxPayload(u, true);
    assert TxSerialize(t, true)[1..] == ListHeader(|a|) + a;
    assert TxSerialize(u, true)[1..] == ListHeader(|b|) + b;
    SamePayload(a, b);
    PayloadBinds(t, u);
  }

  // Two accepted transactions with the same hash are the same, unless the hash collides on their bytes.
  lemma TxHashBinds(c: Suite, bytes: Bytes, x: TxBlock, bytes': Bytes, y: TxBlock)
    requires ParseTx(c, bytes) == Ok(x) && ParseTx(c, bytes') == Ok(y) && 2 * |bytes| < U64 && 2 * |bytes'| < U64
    requires x.hash == y.hash
    ensures TxFits(x.body) && TxFits(y.body)
    ensures var a, b := TxSerialize(x.body, true), TxSerialize(y.body, true);
      x == y || (a != b && c.sha3(a) == c.sha3(b))
  {
    ParsedTxIsSigned(c, bytes, x);
    ParsedTxIsSigned(c, bytes', y);
    hide ParseTx, TxSerialize, TxFits, MakeSig;
    if TxSerialize(x.body, true) == TxSerialize(y.body, true) {
      TxBytesBind(x.body, y.body);
    }
  }

  lemma ValPayloadBinds(t: ValBody, n: nat, u: ValBody, m: nat)
    requires ValFits(t, n) && ValFits(u, m) && ValPayload(t, n, true) == ValPayload(u, m, true)
    ensures t == u
  {
    hide DataField, IntField, SigField, PlainIntField, ReadInt, ReadSig;
    var x := IntField(t.nHeight) + (PlainIntField(t.v) + (SigField(t.r) + SigField(t.s)));
    var y := IntField(u.nHeight) + (PlainIntField(u.v) + (SigField(u.r) + SigField(u.s)));
    SameData(t.data, x, u.data, y);
    IntsBind(t, u, x);
  }

  lemma IntsBind(t: ValBody, u: ValBody, b: Bytes)
    requires t.nHeight < U64 && t.v < U256 && t.r < U256 && t.s < U256
    requires u.nHeight < U64 && u.v < U256 && u.r < U256 && u.s < U256
    requires b == IntField(t.nHeight) + (PlainIntField(t.v) + (SigField(t.r) + SigField(t.s)))
               == IntField(u.nHeight) + (PlainIntField(u.v) + (SigField(u.r) + SigField(u.s)))
    ensures t.(data := []) == u.(data := [])
  {
    hide IntField, SigField, PlainIntField, ReadInt, ReadSig;
    var x := PlainIntField(t.v) + (SigField(t.r) + SigField(t.s));
    var y := PlainIntField(u.v) + (SigField(u.r) + SigField(u.s));
    AtFront(IntField(t.nHeight), x);
    AtFront(IntField(u.nHeight), y);
    IntFieldReads(b, 0, t.nHeight, false, 0x37);
    IntFieldReads(b, 0, u.nHeight, false, 0x37);
    var n := |IntField(t.nHeight)|;
    assert b[n..] == x && b[n..] == y;
    AtFront(PlainIntField(t.v), SigField(t.r) + SigField(t.s));
    AtFront(PlainIntField(u.v), SigField(u.r) + SigField(u.s));
    IntFieldReads(x, 0, t.v, true, 0x37);
    IntFieldReads(x, 0, u.v, true, 0x37);
    var k := |PlainIntField(t.v)|;
    assert x[k..] == SigField(t.r) + SigField(t.s) && x[k..] == SigField(u.r) + SigField(u.s);
    SigsBind(x[k..], t.r, t.s, u.r, u.s);
  }

  // The same for validator transactions.
  lemma ValHashBinds(c: Suite, bytes: Bytes, x: TxValidator, bytes': Bytes, y: TxValidator)
    requires ParseVal(c, bytes) == Ok(x) && ParseVal(c, bytes') == Ok(y) && x.hash == y.hash
    ensures ValFits(x.body, x.chainId) && ValFits(y.body, y.chainId)
    ensures var a, b := ValSerialize(x.body, x.chainId, true), ValSerialize(y.body, y.chainId, true);
      x == y || (a != b && c.sha3(a) == c.sha3(b))
  {
    ParsedValIsSigned(c, bytes, x);
    ParsedValIsSigned(c, bytes', y);
    hide ParseVal, MakeSig, ValPayload, ValTotalSize, ListHeader;
    ValSizesAgree(x.body, x.chainId, true);
    ValSizesAgree(y.body, y.chainId, true);
    if ValSerialize(x.body, x.chainId, true) == ValSerialize(y.body, y.chainId, true) {
      SamePayload(ValPayload(x.body, x.chainId, true), ValPayload(y.body, y.chainId, true));
      ValPayloadBinds(x.body, x.chainId, y.body, y.chainId);
    }
  }
}
