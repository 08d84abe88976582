/**
 The RLP pieces from which transactions are written and read: the repeated field
 code of src/utils/tx.cpp.
 */
module Rlp {
  import opened Outcomes
  import opened Words
  import opened Spans

  /* Writing */

  // An integer: 0x80 for zero, the byte itself below 0x80, else a short string.
  function IntField(n: nat): Bytes
    requires n < U256
  {
    if n == 0 then [0x80] else if n < 0x80 then [n] else SigField(n)
  }

  // Always a short string (r and s).
  function SigField(n: nat): Bytes
    requires n < U256
  {
    DigitsFit(n);
    [0x80 + |MinBytes(n)|] + MinBytes(n)
  }

  // The v or chainId field of a validator transaction: zero is written as itself.
  function PlainIntField(n: nat): Bytes
    requires n < U256
  {
    if n < 0x80 then [n] else SigField(n)
  }

  function AddressField(to: Address): Bytes {
    if to == ZERO_ADDRESS then [0x80] else [0x94] + to
  }

  function DataField(data: Bytes): Bytes
    requires |data| < U64
  {
    if data == [] then [0x80]
    else if |data| <= 55 then [0x80 + |data|] + data
    else LengthFits(|data|); [0xb7 + |MinBytes(|data|)|] + MinBytes(|data|) + data
  }

  // The list header written in front of total payload bytes.
  function ListHeader(total: nat): Bytes
    requires total < U64
  {
    if total <= 55 then [0xc0 + total]
    else LengthFits(total); [0xf7 + |MinBytes(total)|] + MinBytes(total)
  }

  lemma DigitsFit(n: nat)
    requires n < U256
    ensures |MinBytes(n)| <= 32
  {
    WidthConstants();
    MinBytesWidth(n, 32);
  }

  lemma LengthFits(n: nat)
    requires n < U64
    ensures |MinBytes(n)| <= 8
  {
    WidthConstants();
    MinBytesWidth(n, 8);
  }

  method WriteInt(n: nat) returns (r: Bytes)
    requires n < U256
    ensures r == IntField(n)
  {
    if n == 0 {
      return [0x80];
    } else if n < 0x80 {
      return [n];
    }
    r := WriteSig(n);
  }

  method WriteSig(n: nat) returns (r: Bytes)
    requires n < U256
    ensures r == SigField(n)
  {
    var reqBytes := BytesRequired(n);
    DigitsFit(n);
    var digits := UintToBytes(n);
    r := [0x80 + reqBytes] + digits;
  }

  method WritePlainInt(n: nat) returns (r: Bytes)
    requires n < U256
    ensures r == PlainIntField(n)
  {
    if n < 0x80 {
      return [n];
    }
    r := WriteSig(n);
  }

  method WriteData(data: Bytes) returns (r: Bytes)
    requires |data| < U64
    ensures r == DataField(data)
  {
    if |data| == 0 {
      return [0x80];
    } else if |data| <= 55 {
      return [0x80 + |data|] + data;
    }
    LengthFits(|data|);
    var sizeBytes := BytesRequired(|data|);
    var digits := UintToBytes(|data|);
    r := [0xb7 + sizeBytes] + digits + data;
  }

  method WriteListHeader(total: nat) returns (r: Bytes)
    requires total < U64
    ensures r == ListHeader(total)
  {
    if total <= 55 {
      return [0xc0 + total];
    }
    LengthFits(total);
    var sizeBytes := BytesRequired(total);
    var digits := UintToBytes(total);
    r := [0xf7 + sizeBytes] + digits;
  }

  /* Sizes, as the first pass computes them */

  function IntSize(n: nat): nat {
    if n < 0x80 then 1 else 1 + |MinBytes(n)|
  }

  function DataSize(data: Bytes): nat {
    if data == [] then 1 else if |data| <= 55 then 1 + |data| else 1 + |MinBytes(|data|)| + |data|
  }

  method MeasureInt(n: nat) returns (size: nat)
    ensures size == IntSize(n)
  {
    var reqBytes := BytesRequired(n);
    size := if n < 0x80 then 1 else 1 + reqBytes;
  }

  method MeasureData(data: Bytes) returns (size: nat)
    ensures size == DataSize(data)
  {
    if |data| == 0 {
      size := 1;
    } else if |data| <= 55 {
      size := 1 + |data|;
    } else {
      var width := BytesRequired(|data|);
      size := 1 + width + |data|;
    }
  }

  lemma FieldSizes(n: nat, data: Bytes)
    requires n < U256 && |data| < U64
    ensures |IntField(n)| == |PlainIntField(n)| == IntSize(n) <= 33
    ensures |SigField(n)| == 1 + |MinBytes(n)| <= 33
    ensures |DataField(data)| == DataSize(data) <= |data| + 9
  {
    DigitsFit(n);
    LengthFits(|data|);
  }

  /* Reading: every reader takes the position of a field and returns its value and
     the position behind it; a read outside the bytes is undefined behaviour. */

  // A subspan, or undefined behaviour.
  function Slice(b: Bytes, i: nat, len: nat): Outcome<Bytes> {
    if i + len > |b| then Undefined else Ok(b[i..i + len])
  }

  // fromBigEndian<uint256_t> or fromBigEndian<uint64_t>.
  function BigEndian(s: Bytes, wide: bool): Outcome<nat> {
    if wide then (if BE(s) < U256 then Ok(BE(s)) else Throws) else Ok(BE(s) % U64)
  }

  function ReadInt(b: Bytes, i: nat, wide: bool, limit: nat): Outcome<(nat, nat)> {
    if i >= |b| then Undefined
    else if b[i] <= 0x80 then Ok((if b[i] == 0x80 then 0 else b[i], i + 1))
    else if b[i] - 0x80 > limit then Throws
    else
      var digits :- Slice(b, i + 1, b[i] - 0x80);
      var n :- BigEndian(digits, wide);
      Ok((n, i + 1 + |digits|))
  }

  // r and s: the length byte wraps below 0x80.
  function ReadSig(b: Bytes, i: nat, limit: nat): Outcome<(nat, nat)> {
    if i >= |b| then Undefined
    else if (b[i] - 0x80) % U8 > limit then Throws
    else
      var digits :- Slice(b, i + 1, (b[i] - 0x80) % U8);
      var n :- BigEndian(digits, true);
      Ok((n, i + 1 + |digits|))
  }

  function ReadAddress(b: Bytes, i: nat): Outcome<(Address, nat)> {
    if i >= |b| then Undefined
    else if b[i] == 0x80 then Ok((ZERO_ADDRESS, i + 1))
    else if b[i] != 0x94 then Throws
    else
      var to :- Slice(b, i + 1, 20);
      Ok((to, i + 21))
  }

  // A short string is taken only below 0xb7; 0xb7 itself is a long string whose
  // length has no bytes. Block transactions throw from 0xc0 on, validator
  // transactions do not look.
  function ReadData(b: Bytes, i: nat, strict: bool): Outcome<(Bytes, nat)> {
    if i >= |b| then Undefined
    else if b[i] < 0x80 then Ok(([b[i]], i + 1))
    else if b[i] < 0xb7 then
      var data :- Slice(b, i + 1, b[i] - 0x80);
      Ok((data, i + 1 + |data|))
    else if strict && b[i] >= 0xc0 then Throws
    else
      var digits :- Slice(b, i + 1, b[i] - 0xb7);
      var data :- Slice(b, i + 1 + |digits|, BE(digits) % U64);
      Ok((data, i + 1 + |digits| + |data|))
  }

  // The list header and its size check; the position of the first field.
  function ReadListHeader(b: Bytes): Outcome<nat> {
    if b == [] then Undefined
    else if b[0] < 0xf7 then Throws
    else
      var digits :- Slice(b, 1, b[0] - 0xf7);
      if BE(digits) % U64 != |b| - |digits| - 1 then Throws else Ok(1 + |digits|)
  }

  method ParseInt(b: Bytes, i: nat, wide: bool, limit: nat) returns (r: Outcome<(nat, nat)>)
    ensures r == ReadInt(b, i, wide, limit)
  {
    if i >= |b| {
      return Undefined;
    }
    var length := if b[i] >= 0x80 then b[i] - 0x80 else 0;
    if length != 0 {
      if length > limit {
        return Throws;
      }
      var digits :- Slice(b, i + 1, length);
      var n :- ParseBigEndian(digits, wide);
      return Ok((n, i + 1 + length));
    }
    return Ok((if b[i] == 0x80 then 0 else b[i], i + 1));
  }

  method ParseBigEndian(digits: Bytes, wide: bool) returns (r: Outcome<nat>)
    ensures r == BigEndian(digits, wide)
  {
    if wide {
      r := FromBigEndian256(digits);
    } else {
      var n := FromBigEndian64(digits);
      return Ok(n);
    }
  }

  method ParseSig(b: Bytes, i: nat, limit: nat) returns (r: Outcome<(nat, nat)>)
    ensures r == ReadSig(b, i, limit)
  {
    if i >= |b| {
      return Undefined;
    }
    var length := (b[i] - 0x80) % U8;
    if length > limit {
      return Throws;
    }
    var digits :- Slice(b, i + 1, length);
    var n :- ParseBigEndian(digits, true);
    return Ok((n, i + 1 + length));
  }

  method ParseData(b: Bytes, i: nat, strict: bool) returns (r: Outcome<(Bytes, nat)>)
    ensures r == ReadData(b, i, strict)
  {
    if i >= |b| {
      return Undefined;
    }
    var index := i;
    if b[index] < 0x80 {
      return Ok(([b[index]], index + 1));
    } else if b[index] < 0xb7 {
      var dataLength := b[index] - 0x80;
      index := index + 1;
      var data :- Slice(b, index, dataLength);
      return Ok((data, index + dataLength));
    } else if strict && b[index] >= 0xc0 {
      return Throws;
    }
    var dataLengthSize: nat := b[index] - 0xb7;
    index := index + 1;
    var digits :- Slice(b, index, dataLengthSize);
    var dataLength := FromBigEndian64(digits);
    index := index + dataLengthSize;
    var data :- Slice(b, index, dataLength);
    return Ok((data, index + dataLength));
  }

  method ParseListHeader(b: Bytes) returns (r: Outcome<nat>)
    ensures r == ReadListHeader(b)
  {
    if b == [] {
      return Undefined;
    }
    if b[0] < 0xf7 {
      return Throws;
    }
    var listLengthSize := b[0] - 0xf7;
    var digits :- Slice(b, 1, listLengthSize);
    var listLength := FromBigEndian64(digits);
    if listLength < |b| - listLengthSize - 1 {
      return Throws;
    } else if listLength > |b| - listLengthSize - 1 {
      return Throws;
    }
    return Ok(1 + listLengthSize);
  }

  /* Each reader undoes its writer, as far as it does */

  lemma SigFieldReads(b: Bytes, i: nat, n: nat, wide: bool, limit: nat)
    requires n < U256 && 0x20 <= limit && At(b, i, SigField(n))
    ensures ReadSig(b, i, limit) == Ok((n, i + |SigField(n)|))
    ensures n > 0 ==> ReadInt(b, i, wide, limit) == Ok((if wide then n else n % U64, i + |SigField(n)|))
  {
    hide MinBytes, BE, IntField;
    DigitsFit(n);
    var digits := MinBytes(n);
    AtSplit(b, i, [0x80 + |digits|], digits);
    MinBytesValue(n);
    assert b[i] == b[i..i + 1][0] == 0x80 + |digits|;
    assert Slice(b, i + 1, |digits|) == Ok(digits);
    if n > 0 {
      MinBytesNoLeadingZero(n);
    }
  }

  lemma IntFieldReads(b: Bytes, i: nat, n: nat, wide: bool, limit: nat)
    requires n < U256 && 0x20 <= limit && (At(b, i, IntField(n)) || At(b, i, PlainIntField(n)))
    ensures ReadInt(b, i, wide, limit) == Ok((if wide then n else n % U64, i + |IntField(n)|))
    ensures |IntField(n)| == |PlainIntField(n)|
  {
    hide MinBytes, BE;
    if n >= 0x80 {
      SigFieldReads(b, i, n, wide, limit);
    } else {
      assert b[i] == b[i..i + 1][0];
    }
  }

  lemma AddressFieldReads(b: Bytes, i: nat, to: Address)
    requires At(b, i, AddressField(to))
    ensures ReadAddress(b, i) == Ok((to, i + |AddressField(to)|))
  {
    if to == ZERO_ADDRESS {
      assert b[i] == b[i..i + 1][0];
    } else {
      AtSplit(b, i, [0x94], to);
      assert b[i] == b[i..i + 1][0];
    }
  }

  // A data field comes back unless it has exactly 55 bytes; then nothing is read
  // and the next field is sought at its first byte.
  lemma DataFieldReads(b: Bytes, i: nat, data: Bytes, strict: bool)
    requires |data| < U64 && At(b, i, DataField(data))
    ensures ReadData(b, i, strict) == if |data| == 55 then Ok(([], i + 1)) else Ok((data, i + |DataField(data)|))
  {
    hide MinBytes, BE;
    if data == [] {
      assert b[i] == b[i..i + 1][0] && b[i + 1..i + 1] == [];
    } else if |data| <= 55 {
      AtSplit(b, i, [0x80 + |data|], data);
      assert b[i] == b[i..i + 1][0];
      if |data| == 55 {
        NothingIsZero();
        assert b[i + 1..i + 1] == [];
      }
    } else {
      LongDataReads(b, i, data, strict);
    }
  }

  lemma NothingIsZero()
    ensures BE([]) % U64 == 0
  {
  }

  lemma LongDataReads(b: Bytes, i: nat, data: Bytes, strict: bool)
    requires 55 < |data| < U64 && At(b, i, DataField(data))
    ensures ReadData(b, i, strict) == Ok((data, i + |DataField(data)|))
  {
    hide MinBytes, BE, At, ReadData;
    var digits := MinBytes(|data|);
    LengthFits(|data|);
    AtSplit(b, i, [0xb7 + |digits|] + digits, data);
    AtSplit(b, i, [0xb7 + |digits|], digits);
    MinBytesNoLeadingZero(|data|);
    MinBytesValue(|data|);
    LongPartsRead(b, i, digits, data, strict);
  }

  lemma LongPartsRead(b: Bytes, i: nat, digits: Bytes, data: Bytes, strict: bool)
    requires 1 <= |digits| <= 8 && BE(digits) == |data| < U64
    requires At(b, i, [0xb7 + |digits|]) && At(b, i + 1, digits) && At(b, i + 1 + |digits|, data)
    ensures ReadData(b, i, strict) == Ok((data, i + 1 + |digits| + |data|))
  {
    hide BE, ReadData;
    assert b[i] == b[i..i + 1][0];
    LongBranch(b, i, digits, data, strict);
  }

  lemma LongBranch(b: Bytes, i: nat, digits: Bytes, data: Bytes, strict: bool)
    requires i < |b| && 1 <= |digits| <= 8 && b[i] == 0xb7 + |digits| && BE(digits) == |data| < U64
    requires Slice(b, i + 1, |digits|) == Ok(digits) && Slice(b, i + 1 + |digits|, |data|) == Ok(data)
    ensures ReadData(b, i, strict) == Ok((data, i + 1 + |digits| + |data|))
  {
    hide BE, Slice;
  }

  // The header is accepted exactly when it announces more than 55 bytes.
  lemma ListHeaderReads(payload: Bytes)
    requires |payload| < U64
    ensures var header := ListHeader(|payload|);
      ReadListHeader(header + payload) == if |payload| > 55 then Ok(|header|) else Throws
  {
    hide MinBytes, BE;
    var n := |payload|;
    var header := ListHeader(n);
    var b := header + payload;
    if n > 55 {
      LengthFits(n);
      MinBytesValue(n);
      assert b[1..1 + |MinBytes(n)|] == MinBytes(n);
    } else if n == 55 {
      NothingIsZero();
      assert b[1..1] == [];
    }
  }
}
