/**
 The serializers of src/utils/tx.cpp against the RLP of appendix B of the Ethereum
 Yellow Paper and the transaction payload of EIP-1559, defined on their own.
 */
module RlpStandard {
  import opened Words
  import opened Rlp
  import opened Tx
  import opened TxBinding

  datatype Item = Str(bytes: Bytes) | List(items: seq<Item>)

  // Strings and lists of 2^64 bytes and more have no encoding.
  function Prefix(base: nat, len: nat): Bytes
    requires base <= 0xc0
  {
    if len <= 55 then [base + len]
    else if len < U64 then LengthFits(len); [base + 55 + |MinBytes(len)|] + MinBytes(len)
    else []
  }

  function Encode(item: Item): Bytes
    decreases item, 1
  {
    match item
    case Str(s) => if |s| == 1 && s[0] < 0x80 then s else Prefix(0x80, |s|) + s
    case List(items) => var payload := EncodeAll(items); Prefix(0xc0, |payload|) + payload
  }

  function EncodeAll(items: seq<Item>): Bytes
    decreases items, 0
  {
    if items == [] then [] else Encode(items[0]) + EncodeAll(items[1..])
  }

  // A number is the string of its digits without leading zeros.
  function Num(n: nat): Item {
    Str(MinBytes(n))
  }

  function To(to: Address): Item {
    if to == ZERO_ADDRESS then Str([]) else Str(to)
  }

  // chain_id, nonce, max_priority_fee_per_gas, max_fee_per_gas, gas_limit, destination, amount, data, access_list.
  function Unsigned1559(t: TxBody): seq<Item> {
    [Num(t.chainId), Num(t.nonce), Num(t.maxPriorityFeePerGas), Num(t.maxFeePerGas), Num(t.gasLimit), To(t.to),
     Num(t.value), Str(t.data), List([])]
  }

  // signature_y_parity, signature_r, signature_s.
  function Signature1559(t: TxBody): seq<Item> {
    [Num(t.v), Num(t.r), Num(t.s)]
  }

  /* Field by field */

  // What is written with a length byte although it stands for itself.
  predicate OneLowByte(data: Bytes) {
    |data| == 1 && data[0] < 0x80
  }

  predicate LowNumber(n: nat) {
    0 < n < 0x80
  }

  lemma DigitsOfLow(n: nat)
    requires n < 0x80
    ensures MinBytes(n) == if n == 0 then [] else [n]
  {
    assert MinBytes(0) == [];
  }

  lemma DigitsOfHigh(n: nat)
    requires n >= 0x80
    ensures MinBytes(n) != [] && !OneLowByte(MinBytes(n))
  {
    if n < 0x100 {
      assert MinBytes(0) == [];
    } else {
      assert MinBytes(n / 256) != [];
    }
  }

  lemma NumbersAreStandard(n: nat)
    requires n < U256
    ensures IntField(n) == Encode(Num(n))
    ensures if LowNumber(n) then |SigField(n)| == |Encode(Num(n))| + 1 else SigField(n) == Encode(Num(n))
    ensures |Encode(Num(n))| <= 33
  {
    DigitsFit(n);
    if n < 0x80 {
      DigitsOfLow(n);
    } else {
      DigitsOfHigh(n);
    }
    hide MinBytes;
  }

  lemma DataIsStandard(data: Bytes)
    requires 2 * |data| < U64
    ensures if OneLowByte(data) then |DataField(data)| == |Encode(Str(data))| + 1
            else DataField(data) == Encode(Str(data))
  {
    hide MinBytes;
  }

  lemma {:induction false} EncodeAllConcat(xs: seq<Item>, ys: seq<Item>)
    ensures EncodeAll(xs + ys) == EncodeAll(xs) + EncodeAll(ys)
  {
    if xs == [] {
      assert xs + ys == ys;
    } else {
      assert (xs + ys)[1..] == xs[1..] + ys;
      EncodeAllConcat(xs[1..], ys);
    }
  }

  lemma OneItem(x: Item)
    ensures EncodeAll([x]) == Encode(x)
  {
    assert [x][1..] == [] && EncodeAll([]) == [];
    assert Encode(x) + [] == Encode(x);
  }

  lemma MoreItems(x: Item, xs: seq<Item>)
    ensures EncodeAll([x] + xs) == Encode(x) + EncodeAll(xs)
  {
    assert ([x] + xs)[1..] == xs;
  }

  /* Whole lists */

  lemma FrontIsStandard(t: TxBody)
    requires TxFits(t)
    ensures TxFront(t)
         == EncodeAll([Num(t.chainId), Num(t.nonce), Num(t.maxPriorityFeePerGas), Num(t.maxFeePerGas), Num(t.gasLimit),
                       To(t.to), Num(t.value)])
  {
    hide IntField, Encode;
    NumbersAreStandard(t.chainId);
    NumbersAreStandard(t.nonce);
    NumbersAreStandard(t.maxPriorityFeePerGas);
    NumbersAreStandard(t.maxFeePerGas);
    NumbersAreStandard(t.gasLimit);
    NumbersAreStandard(t.value);
    AddressIsStandard(t.to);
    hide Num, To, AddressField;
    OneItem(Num(t.value));
    var x6 := [Num(t.value)];
    var x5 := [To(t.to)] + x6;
    var x4 := [Num(t.gasLimit)] + x5;
    var x3 := [Num(t.maxFeePerGas)] + x4;
    var x2 := [Num(t.maxPriorityFeePerGas)] + x3;
    var x1 := [Num(t.nonce)] + x2;
    MoreItems(To(t.to), x6);
    MoreItems(Num(t.gasLimit), x5);
    MoreItems(Num(t.maxFeePerGas), x4);
    MoreItems(Num(t.maxPriorityFeePerGas), x3);
    MoreItems(Num(t.nonce), x2);
    MoreItems(Num(t.chainId), x1);
    assert [Num(t.chainId), Num(t.nonce), Num(t.maxPriorityFeePerGas), Num(t.maxFeePerGas), Num(t.gasLimit), To(t.to),
            Num(t.value)] == [Num(t.chainId)] + x1;
  }

  lemma AddressIsStandard(to: Address)
    ensures AddressField(to) == Encode(To(to))
  {
  }

  // Two lists of which the first is longer get different bytes.
  lemma LongerHeader(n: nat, m: nat)
    requires n <= m < U64
    ensures |ListHeader(n)| <= |ListHeader(m)|
    ensures ListHeader(n) == Prefix(0xc0, n)
  {
    HeaderGrows(n, m);
    hide MinBytes;
  }

  // The payload of a list against the standard one.
  ghost predicate Agrees(written: Bytes, standard: Bytes, deviates: bool) {
    if deviates then |written| > |standard| else written == standard
  }

  lemma ListAgrees(written: Bytes, standard: Bytes, deviates: bool)
    requires Agrees(written, standard, deviates) && |written| < U64
    ensures ListHeader(|written|) + written == Prefix(0xc0, |standard|) + standard <==> !deviates
  {
    LongerHeader(|standard|, |written|);
    hide ListHeader, Prefix;
    if deviates {
      assert |ListHeader(|written|) + written| > |Prefix(0xc0, |standard|) + standard|;
    }
  }

  lemma PartsAgree(a: Bytes, a': Bytes, d: bool, b: Bytes, b': Bytes, e: bool)
    requires Agrees(a, a', d) && Agrees(b, b', e)
    ensures Agrees(a + b, a' + b', d || e)
  {
  }

  // What is signed is the standard payload exactly when data is not a single byte below 0x80.
  lemma UnsignedStandardExactly(t: TxBody)
    requires TxFits(t)
    ensures TxSerialize(t, false) == [0x02] + Encode(List(Unsigned1559(t))) <==> !OneLowByte(t.data)
  {
    UnsignedAgrees(t);
    TxSizesAgree(t, false);
    assert TxPayload(t, false) == TxFront(t) + (DataField(t.data) + [0xc0]) by { EmptyTail(t); }
    hide TxPayload, TxFront, DataField, EncodeAll, ListHeader, Prefix, OneLowByte, TxTotalSize, Unsigned1559;
    var written, standard := TxPayload(t, false), EncodeAll(Unsigned1559(t));
    ListAgrees(written, standard, OneLowByte(t.data));
    BehindByte(0x02, ListHeader(|written|) + written, Encode(List(Unsigned1559(t))));
  }

  lemma EmptyTail(t: TxBody)
    requires TxFits(t)
    ensures TxPayload(t, false) == TxFront(t) + (DataField(t.data) + [0xc0])
  {
    assert [0xc0] + [] == [0xc0];
  }

  lemma BehindByte(x: byte, a: Bytes, b: Bytes)
    ensures [x] + a == [x] + b <==> a == b
  {
    assert ([x] + a)[1..] == a && ([x] + b)[1..] == b;
  }

  lemma UnsignedAgrees(t: TxBody)
    requires TxFits(t)
    ensures Agrees(TxFront(t) + (DataField(t.data) + [0xc0]), EncodeAll(Unsigned1559(t)), OneLowByte(t.data))
  {
    var front := [Num(t.chainId), Num(t.nonce), Num(t.maxPriorityFeePerGas), Num(t.maxFeePerGas), Num(t.gasLimit),
                  To(t.to), Num(t.value)];
    var back := [Str(t.data)] + [List([])];
    FrontIsStandard(t);
    DataIsStandard(t.data);
    EmptyList();
    hide TxFront, DataField, EncodeAll, Encode, OneLowByte, Num, To;
    OneItem(List([]));
    MoreItems(Str(t.data), [List([])]);
    EncodeAllConcat(front, back);
    assert Unsigned1559(t) == front + back;
    PartsAgree(DataField(t.data), Encode(Str(t.data)), OneLowByte(t.data), [0xc0], [0xc0], false);
    PartsAgree(TxFront(t), EncodeAll(front), false, DataField(t.data) + [0xc0], Encode(Str(t.data)) + [0xc0],
      OneLowByte(t.data));
  }

  lemma EmptyList()
    ensures Encode(List([])) == [0xc0]
  {
    assert EncodeAll([]) == [];
  }

  // A signed transaction is the standard encoding exactly when moreover neither r nor s is a number below 0x80.
  lemma SignedStandardExactly(t: TxBody)
    requires TxFits(t) && t.v <= 1
    ensures TxSerialize(t, true) == [0x02] + Encode(List(Unsigned1559(t) + Signature1559(t)))
       <==> !OneLowByte(t.data) && !LowNumber(t.r) && !LowNumber(t.s)
  {
    var items := Unsigned1559(t) + Signature1559(t);
    var deviates := OneLowByte(t.data) || LowNumber(t.r) || LowNumber(t.s);
    UnsignedAgrees(t);
    SignatureAgrees(t);
    TxSizesAgree(t, true);
    SignedPayload(t);
    hide TxPayload, TxFront, TxSig, DataField, EncodeAll, ListHeader, Prefix, OneLowByte, LowNumber, TxTotalSize,
      Unsigned1559, Signature1559;
    EncodeAllConcat(Unsigned1559(t), Signature1559(t));
    PartsAgree(TxFront(t) + (DataField(t.data) + [0xc0]), EncodeAll(Unsigned1559(t)), OneLowByte(t.data),
      TxSig(t), EncodeAll(Signature1559(t)), LowNumber(t.r) || LowNumber(t.s));
    var written, standard := TxPayload(t, true), EncodeAll(items);
    ListAgrees(written, standard, deviates);
    BehindByte(0x02, ListHeader(|written|) + written, Encode(List(items)));
  }

  lemma SignedPayload(t: TxBody)
    requires TxFits(t)
    ensures TxPayload(t, true) == TxFront(t) + (DataField(t.data) + [0xc0]) + TxSig(t)
  {
    hide TxFront, DataField, TxSig;
    var front, data, sig := TxFront(t), DataField(t.data), TxSig(t);
    assert front + (data + ([0xc0] + sig)) == front + (data + [0xc0]) + sig;
  }

  lemma SignatureAgrees(t: TxBody)
    requires TxFits(t) && t.v <= 1
    ensures Agrees(TxSig(t), EncodeAll(Signature1559(t)), LowNumber(t.r) || LowNumber(t.s))
  {
    NumbersAreStandard(t.v);
    NumbersAreStandard(t.r);
    NumbersAreStandard(t.s);
    var parity: Bytes := [if t.v == 0 then 0x80 else t.v];
    assert parity == Encode(Num(t.v));
    hide Encode, SigField, IntField, Num, LowNumber;
    OneItem(Num(t.s));
    MoreItems(Num(t.r), [Num(t.s)]);
    MoreItems(Num(t.v), [Num(t.r)] + [Num(t.s)]);
    assert Signature1559(t) == [Num(t.v)] + ([Num(t.r)] + [Num(t.s)]);
    PartsAgree(SigField(t.r), Encode(Num(t.r)), LowNumber(t.r), SigField(t.s), Encode(Num(t.s)), LowNumber(t.s));
    PartsAgree(parity, parity, false, SigField(t.r) + SigField(t.s), Encode(Num(t.r)) + Encode(Num(t.s)),
      LowNumber(t.r) || LowNumber(t.s));
  }

  function ValItem(t: ValBody): Item {
    List([Str(t.data), Num(t.nHeight), Num(t.v), Num(t.r), Num(t.s)])
  }

  // A signed validator transaction is the list of data, height, v, r and s under the same condition and for a
  // v above zero, which is written as it is.
  lemma ValidatorStandardExactly(t: ValBody, chainId: nat)
    requires ValFits(t, chainId)
    ensures ValSerialize(t, chainId, true) == Encode(ValItem(t))
       <==> t.v > 0 && !OneLowByte(t.data) && !LowNumber(t.r) && !LowNumber(t.s)
  {
    var low := OneLowByte(t.data) || LowNumber(t.r) || LowNumber(t.s);
    ValSizesAgree(t, chainId, true);
    var d, d', h := DataField(t.data), Encode(Str(t.data)), IntField(t.nHeight);
    var v, v' := PlainIntField(t.v), Encode(Num(t.v));
    var sig, sig' := SigField(t.r) + SigField(t.s), Encode(Num(t.r)) + Encode(Num(t.s));
    var standard := d' + (h + (v' + sig'));
    ValItems(t);
    assert Encode(ValItem(t)) == Prefix(0xc0, |standard|) + standard;
    PlainIsStandard(t.v);
    SignaturesAgree(t.r, t.s);
    DataIsStandard(t.data);
    hide Prefix, Encode, ListHeader, DataField, IntField, SigField, PlainIntField, OneLowByte, LowNumber, Num, ValItem,
      ValTotalSize;
    var written := d + (h + (v + sig));
    if low || t.v > 0 {
      assert Agrees(written, standard, low);
      ListAgrees(written, standard, low);
      if t.v == 0 {
        assert ListHeader(|written|) + written != Prefix(0xc0, |standard|) + standard;
      }
    } else {
      DifferentV(d, h, sig);
      LongerHeader(|standard|, |written|);
      SameFront(ListHeader(|written|), written, standard);
    }
  }

  lemma PlainIsStandard(v: nat)
    requires v < U256
    ensures v > 0 ==> PlainIntField(v) == Encode(Num(v))
    ensures v == 0 ==> PlainIntField(v) == [0] && Encode(Num(v)) == [0x80]
  {
    NumbersAreStandard(v);
    assert MinBytes(0) == [];
  }

  lemma SignaturesAgree(r: nat, s: nat)
    requires r < U256 && s < U256
    ensures Agrees(SigField(r) + SigField(s), Encode(Num(r)) + Encode(Num(s)), LowNumber(r) || LowNumber(s))
  {
    NumbersAreStandard(r);
    NumbersAreStandard(s);
    hide SigField, Encode, LowNumber;
    PartsAgree(SigField(r), Encode(Num(r)), LowNumber(r), SigField(s), Encode(Num(s)), LowNumber(s));
  }

  lemma ValItems(t: ValBody)
    requires t.nHeight < U256
    ensures Encode(ValItem(t)) == var standard := Encode(Str(t.data)) + (IntField(t.nHeight) + (Encode(Num(t.v))
              + (Encode(Num(t.r)) + Encode(Num(t.s)))));
      Prefix(0xc0, |standard|) + standard
  {
    NumbersAreStandard(t.nHeight);
    var last := [Num(t.r)] + [Num(t.s)];
    var more := [Num(t.v)] + last;
    var items := [Str(t.data)] + ([Num(t.nHeight)] + more);
    assert ValItem(t) == List(items);
    EncodeOfList(items);
    hide EncodeAll, Prefix, IntField, Num, Encode;
    OneItem(Num(t.s));
    MoreItems(Num(t.r), [Num(t.s)]);
    MoreItems(Num(t.v), last);
    MoreItems(Num(t.nHeight), more);
    MoreItems(Str(t.data), [Num(t.nHeight)] + more);
  }

  lemma EncodeOfList(items: seq<Item>)
    ensures Encode(List(items)) == Prefix(0xc0, |EncodeAll(items)|) + EncodeAll(items)
  {
  }

  lemma DifferentV(d: Bytes, h: Bytes, sig: Bytes)
    ensures d + (h + ([0] + sig)) != d + (h + ([0x80] + sig))
  {
    var a: Bytes, b: Bytes := d + (h + ([0] + sig)), d + (h + ([0x80] + sig));
    assert a[|d| + |h|] == 0 && b[|d| + |h|] == 0x80;
  }

  lemma SameFront(front: Bytes, a: Bytes, b: Bytes)
    requires a != b
    ensures front + a != front + b
  {
    assert (front + a)[|front|..] == a && (front + b)[|front|..] == b;
  }
}
