/**
 Base-256 arithmetic under every codec: src/utils/utils.h and the fixed-width
 conversions of src/utils/utils.cpp. Numbers are unbounded; the C++ widths are
 written out as moduli (uint64_t) or as thrown overflows (checked uint256_t).
 */
module Words {
  import opened Outcomes

  type byte = b: int | 0 <= b < 256
  type Bytes = seq<byte>
  type Hash = h: Bytes | |h| == 32 witness seq(32, _ => 0)
  type Address = a: Bytes | |a| == 20 witness seq(20, _ => 0)

  const U8: int := 0x100
  const U32: int := 0x1_0000_0000
  const U64: int := 0x1_0000_0000_0000_0000
  const U256: int := 0x1_00000000_00000000_00000000_00000000_00000000_00000000_00000000_00000000
  const ZERO_HASH: Hash := Repeat(0, 32)
  const ZERO_ADDRESS: Address := Repeat(0, 20)

  function Pow256(n: nat): (p: nat)
    ensures p > 0
  {
    if n == 0 then 1 else 256 * Pow256(n - 1)
  }

  // Value of a big-endian byte string.
  function BE(s: Bytes): nat {
    if s == [] then 0 else 256 * BE(s[..|s| - 1]) + s[|s| - 1]
  }

  // The k low base-256 digits of n, most significant first.
  function Fixed(n: nat, k: nat): (s: Bytes)
    ensures |s| == k
  {
    if k == 0 then [] else Fixed(n / 256, k - 1) + [n % 256]
  }

  // The base-256 digits of n without leading zeros.
  function MinBytes(n: nat): Bytes {
    if n == 0 then [] else MinBytes(n / 256) + [n % 256]
  }

  function Repeat(b: byte, n: nat): (s: Bytes)
    ensures |s| == n
  {
    seq(n, _ => b)
  }

  // Utils::padLeftBytes and Utils::padRightBytes with zeros.
  function PadLeft(s: Bytes, n: nat): Bytes {
    Repeat(0, if n > |s| then n - |s| else 0) + s
  }

  function PadRight(s: Bytes, n: nat): Bytes {
    s + Repeat(0, if n > |s| then n - |s| else 0)
  }

  lemma WidthConstants()
    ensures Pow256(1) == U8 && Pow256(4) == U32 && Pow256(8) == U64 && Pow256(32) == U256
  {
    assert Pow256(4) == U32;
    assert Pow256(8) == U64;
    assert Pow256(16) == U64 * U64 by { Pow256Add(8, 8); }
    Pow256Add(16, 16);
  }

  lemma {:induction false} Pow256Add(a: nat, b: nat)
    ensures Pow256(a + b) == Pow256(a) * Pow256(b)
  {
    if a > 0 {
      Pow256Add(a - 1, b);
    }
  }

  lemma {:induction false} Pow256Monotone(a: nat, b: nat)
    requires a <= b
    ensures Pow256(a) <= Pow256(b)
  {
    if a < b {
      Pow256Monotone(a, b - 1);
    }
  }

  lemma {:induction false} BEBound(s: Bytes)
    ensures BE(s) < Pow256(|s|)
  {
    if s != [] {
      BEBound(s[..|s| - 1]);
    }
  }

  lemma {:induction false} BEConcat(a: Bytes, b: Bytes)
    ensures BE(a + b) == BE(a) * Pow256(|b|) + BE(b)
  {
    if b == [] {
      assert a + b == a;
    } else {
      var b' := b[..|b| - 1];
      assert (a + b)[..|a + b| - 1] == a + b';
      BEConcat(a, b');
      Distribute(BE(a), Pow256(|b'|), BE(b'));
    }
  }

  lemma Distribute(x: nat, p: nat, y: nat)
    ensures 256 * (x * p + y) == x * (256 * p) + 256 * y
  {
  }

  lemma {:induction false} BEZeros(n: nat)
    ensures BE(Repeat(0, n)) == 0
  {
    if n > 0 {
      assert Repeat(0, n)[..n - 1] == Repeat(0, n - 1);
      BEZeros(n - 1);
    }
  }

  // Fixed-width round trip, value side: uintNToBytes then bytesToUintN.
  lemma {:induction false} FixedValue(n: nat, k: nat)
    requires n < Pow256(k)
    ensures BE(Fixed(n, k)) == n
  {
    if k > 0 {
      FixedValue(n / 256, k - 1);
      var s := Fixed(n / 256, k - 1);
      assert (s + [n % 256])[..k - 1] == s;
    }
  }

  // Fixed-width round trip, byte side: bytesToUintN then uintNToBytes.
  lemma {:induction false} FixedOfBE(s: Bytes)
    ensures Fixed(BE(s), |s|) == s
  {
    if s != [] {
      FixedOfBE(s[..|s| - 1]);
      assert s == s[..|s| - 1] + [s[|s| - 1]];
    }
  }

  // uintToBytes then fromBigEndian.
  lemma {:induction false} MinBytesValue(n: nat)
    ensures BE(MinBytes(n)) == n
  {
    if n > 0 {
      MinBytesValue(n / 256);
      var s := MinBytes(n / 256);
      assert (s + [n % 256])[..|s|] == s;
    }
  }

  // bytesRequired is the least sufficient width.
  lemma {:induction false} MinBytesWidth(n: nat, k: nat)
    ensures |MinBytes(n)| <= k <==> n < Pow256(k)
  {
    if n > 0 && k > 0 {
      MinBytesWidth(n / 256, k - 1);
    }
  }

  lemma {:induction false} MinBytesNoLeadingZero(n: nat)
    requires n > 0
    ensures MinBytes(n) != [] && MinBytes(n)[0] != 0
  {
    if n >= 256 {
      MinBytesNoLeadingZero(n / 256);
    }
  }

  // padLeftBytes(uintToBytes(n), k) is the fixed-width encoding.
  lemma {:induction false} PadLeftIsFixed(n: nat, k: nat)
    requires n < Pow256(k)
    ensures |MinBytes(n)| <= k && PadLeft(MinBytes(n), k) == Fixed(n, k)
  {
    MinBytesWidth(n, k);
    if k > 0 {
      PadLeftIsFixed(n / 256, k - 1);
      if n > 0 {
        assert PadLeft(MinBytes(n), k) == PadLeft(MinBytes(n / 256), k - 1) + [n % 256];
      } else {
        assert PadLeft(MinBytes(n), k) == PadLeft(MinBytes(n / 256), k - 1) + [0];
      }
    }
  }

  lemma {:induction false} BEPrefixBound(s: Bytes, i: nat)
    requires i <= |s|
    ensures BE(s[..i]) <= BE(s)
  {
    if i < |s| {
      var s' := s[..|s| - 1];
      assert s'[..i] == s[..i];
      BEPrefixBound(s', i);
    } else {
      assert s[..i] == s;
    }
  }

  // Utils::fromBigEndian<uint64_t>: shifts drop what does not fit.
  method FromBigEndian64(bytes: Bytes) returns (r: nat)
    ensures r == BE(bytes) % U64
  {
    r := 0;
    for i := 0 to |bytes|
      invariant r == BE(bytes[..i]) % U64
    {
      assert bytes[..i + 1][..i] == bytes[..i];
      ShiftMod(BE(bytes[..i]), bytes[i]);
      r := (r * 256 + bytes[i]) % U64;
    }
    assert bytes[..|bytes|] == bytes;
  }

  lemma ShiftMod(x: nat, b: byte)
    ensures (x % U64 * 256 + b) % U64 == (256 * x + b) % U64
  {
    var q := x / U64;
    assert x == q * U64 + x % U64;
    assert 256 * x + b == 256 * q * U64 + (x % U64 * 256 + b);
    ModMultiple(256 * q, x % U64 * 256 + b);
  }

  lemma {:induction false} ModMultiple(q: nat, r: nat)
    ensures (q * U64 + r) % U64 == r % U64
  {
    if q > 0 {
      ModMultiple(q - 1, r);
      assert q * U64 + r == ((q - 1) * U64 + r) + U64;
    }
  }

  // Utils::fromBigEndian<uint256_t>: the shift is checked and throws on overflow.
  method FromBigEndian256(bytes: Bytes) returns (r: Outcome<nat>)
    ensures r == if BE(bytes) < U256 then Ok(BE(bytes)) else Throws
  {
    var ret := 0;
    for i := 0 to |bytes|
      invariant ret == BE(bytes[..i]) < U256
    {
      assert bytes[..i + 1][..i] == bytes[..i];
      BEPrefixBound(bytes, i + 1);
      if ret * 256 + bytes[i] >= U256 {
        return Throws;
      }
      ret := ret * 256 + bytes[i];
    }
    assert bytes[..|bytes|] == bytes;
    return Ok(ret);
  }

  // Utils::bytesRequired.
  method BytesRequired(n: nat) returns (ic: nat)
    ensures ic == |MinBytes(n)|
  {
    ic := 0;
    var i := n;
    while i != 0
      invariant ic + |MinBytes(i)| == |MinBytes(n)|
    {
      i := i / 256;
      ic := ic + 1;
    }
  }

  // Utils::uintToBytes: a buffer of bytesRequired(n) bytes filled from the back.
  method UintToBytes(n: nat) returns (ret: Bytes)
    ensures ret == MinBytes(n)
  {
    var size := BytesRequired(n);
    var buf := new byte[size];
    var b := size;
    var i := n;
    while i != 0
      invariant b <= size == buf.Length
      invariant b == |MinBytes(i)|
      invariant MinBytes(n) == MinBytes(i) + buf[b..]
    {
      b := b - 1;
      ghost var rest := buf[b + 1..];
      buf[b] := i % 256;
      assert buf[b..] == [i % 256] + rest;
      i := i / 256;
    }
    assert buf[b..] == buf[..];
    return buf[..];
  }
}
