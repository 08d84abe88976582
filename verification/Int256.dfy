/**
 The 32-byte integer words of the ABI: src/contract/abi.cpp and
 Utils::bytesToInt256 (src/utils/utils.cpp). The limb bytes that encodeInt reads
 are the base-256 digits of the magnitude.
 */
module Int256 {
  import opened Outcomes
  import opened Words

  const INT_MIN: int := -U256 / 2
  const INT_MAX: int := U256 / 2 - 1

  // The two's-complement word of n.
  function IntWord(n: int): Bytes
    requires -U256 <= n < U256
  {
    Fixed(if n < 0 then U256 + n else n, 32)
  }

  function Complement(s: Bytes): (c: Bytes)
    ensures |c| == |s|
  {
    seq(|s|, i requires 0 <= i < |s| => 255 - s[i])
  }

  // Adding one to a big-endian byte string, with the carry running left.
  function Increment(s: Bytes): (t: Bytes)
    ensures |t| == |s|
  {
    if s == [] then []
    else if s[|s| - 1] != 255 then s[..|s| - 1] + [s[|s| - 1] + 1]
    else Increment(s[..|s| - 1]) + [0]
  }

  lemma {:induction false} ComplementValue(s: Bytes)
    ensures BE(Complement(s)) + BE(s) == Pow256(|s|) - 1
  {
    if s != [] {
      assert Complement(s)[..|s| - 1] == Complement(s[..|s| - 1]);
      ComplementValue(s[..|s| - 1]);
    }
  }

  lemma {:induction false} IncrementValue(s: Bytes)
    requires BE(s) + 1 < Pow256(|s|)
    ensures BE(Increment(s)) == BE(s) + 1
  {
    var last := |s| - 1;
    if s != [] && s[last] != 255 {
      assert Increment(s)[..last] == s[..last];
    } else if s != [] {
      BEBound(s[..last]);
      IncrementValue(s[..last]);
      assert Increment(s)[..last] == Increment(s[..last]);
    }
  }

  lemma NegativeWord(n: int)
    requires INT_MIN <= n < 0
    ensures Increment(Complement(Fixed(-n, 32))) == IntWord(n)
  {
    WidthConstants();
    var mag := Fixed(-n, 32);
    FixedValue(-n, 32);
    ComplementValue(mag);
    IncrementValue(Complement(mag));
    FixedOfBE(Increment(Complement(mag)));
  }

  // ABI::Encoder::encodeUint: the exported digits are copied to the right end.
  method EncodeUint(num: nat) returns (ret: Bytes)
    requires num < U256
    ensures ret == Fixed(num, 32)
  {
    hide Fixed, MinBytes, Pow256;
    var tmp := ExportBits(num);
    assert |tmp| <= 32 && PadLeft(tmp, 32) == Fixed(num, 32);
    var buf := new byte[32](_ => 0);
    for ii := 0 to |tmp|
      invariant forall k :: 0 <= k < 32 ==> buf[k] == if k >= 32 - ii then tmp[k - (32 - |tmp|)] else 0
    {
      buf[31 - ii] := tmp[|tmp| - ii - 1];
    }
    assert buf[..] == PadLeft(tmp, 32);
    return buf[..];
  }

  // boost export_bits writes one zero byte for zero.
  method ExportBits(num: nat) returns (tmp: Bytes)
    ensures tmp == if num == 0 then [0] else MinBytes(num)
    ensures num < U256 ==> |tmp| <= 32 && PadLeft(tmp, 32) == Fixed(num, 32)
  {
    if num < U256 {
      WidthConstants();
      PadLeftIsFixed(num, 32);
      if num == 0 {
        assert PadLeft([0], 32) == PadLeft([], 32);
      }
    }
    if num == 0 {
      return [0];
    }
    tmp := UintToBytes(num);
  }

  // ABI::Encoder::encodeInt.
  method EncodeInt(num: int) returns (ret: Bytes)
    requires INT_MIN <= num <= INT_MAX
    ensures ret == IntWord(num)
  {
    if num >= 0 {
      ret := EncodeUint(num);
      return;
    }
    hide Fixed, Complement, Increment;
    var buf := FlipBits(Fixed(-num, 32));
    AddOne(buf);
    NegativeWord(num);
    return buf[..];
  }

  // The loop over the bits of the number.
  method FlipBits(limbs: Bytes) returns (buf: array<byte>)
    requires |limbs| == 32
    ensures fresh(buf) && buf.Length == 32 && buf[..] == Complement(limbs)
  {
    buf := new byte[32](_ => 255);
    for i := 0 to 32
      invariant forall k :: 32 - i <= k < 32 ==> buf[k] == 255 - limbs[k]
    {
      buf[31 - i] := 255 - limbs[31 - i];
    }
  }

  // The loop that carries.
  method AddOne(buf: array<byte>)
    requires buf.Length == 32
    modifies buf
    ensures buf[..] == Increment(old(buf[..]))
  {
    ghost var flipped := buf[..];
    assert flipped[..32] == flipped && buf[32..] == [];
    var i := 31;
    while i >= 0
      invariant -1 <= i <= 31
      invariant buf[..i + 1] == flipped[..i + 1]
      invariant Increment(flipped) == Increment(flipped[..i + 1]) + buf[i + 1..]
    {
      assert flipped[..i + 1][..i] == flipped[..i];
      ghost var tail := buf[i + 1..];
      assert buf[i] == flipped[i];
      if buf[i] != 255 {
        buf[i] := buf[i] + 1;
        assert buf[..] == buf[..i] + [buf[i]] + tail;
        return;
      }
      buf[i] := 0;
      assert buf[i..] == [0] + tail;
      i := i - 1;
    }
    assert buf[0..] == buf[..];
  }

  // 1 + 256 + ... + 256^k for a byte string ending in exactly k zero bytes: what
  // the borrow loop of bytesToInt256 subtracts.
  function BorrowSum(s: Bytes): nat {
    if s == [] then 0
    else if s[|s| - 1] == 0 then 1 + 256 * BorrowSum(s[..|s| - 1])
    else 1
  }

  lemma {:induction false} BorrowSumBound(s: Bytes)
    ensures s != [] ==> BorrowSum(s) < 2 * Pow256(|s| - 1)
  {
    if |s| > 1 {
      BorrowSumBound(s[..|s| - 1]);
    }
  }

  // Utils::bytesToInt256 on a 32-byte word.
  function DecodeIntWord(b: Bytes): int
    requires |b| == 32
  {
    if b[0] >= 128 then BE(b) - BorrowSum(b) - (U256 - 1) else BE(b)
  }

  method BytesToInt256(b: Bytes) returns (r: int)
    requires |b| == 32
    ensures r == DecodeIntWord(b)
  {
    if b[0] < 128 {
      return BE(b);
    }
    NegativeWordBound(b);
    var ret := SubtractBorrows(b, BE(b));
    assert ret >= 0;  // the checked subtraction never underflows
    return -(U256 - 1 - ret);
  }

  // The borrow loop of bytesToInt256.
  method SubtractBorrows(b: Bytes, start: int) returns (ret: int)
    requires b != []
    ensures ret == start - BorrowSum(b)
  {
    ret := start;
    var borrow := true;
    var i := |b| - 1;
    assert b[..i + 1] == b;
    while i >= 0 && borrow
      invariant -1 <= i < |b|
      invariant start - ret + (if borrow then Pow256(|b| - 1 - i) * BorrowSum(b[..i + 1]) else 0) == BorrowSum(b)
    {
      ghost var p := Pow256(|b| - 1 - i);
      ghost var rest := BorrowSum(b[..i]);
      assert b[..i + 1][..i] == b[..i];
      assert b[i] == 0 ==> p * (1 + 256 * rest) == p + 256 * p * rest;
      borrow := b[i] == 0;
      ret := ret - Pow256(|b| - 1 - i);
      i := i - 1;
    }
  }

  lemma {:induction false} LeadingByte(b: Bytes, c: nat)
    requires b != [] && b[0] >= c
    ensures BE(b) >= c * Pow256(|b| - 1)
  {
    if |b| > 1 {
      LeadingByte(b[..|b| - 1], c);
    } else {
      assert b[..0] == [];
    }
  }

  lemma NegativeWordBound(b: Bytes)
    requires b != [] && b[0] >= 128
    ensures BE(b) >= BorrowSum(b)
  {
    LeadingByte(b, 128);
    BorrowSumBound(b);
  }

  // Number of trailing zero bytes of m.
  function TrailingZeroBytes(m: nat): nat
    requires m > 0
  {
    if m % 256 == 0 then 1 + TrailingZeroBytes(m / 256) else 0
  }

  // 256 + 256^2 + ... + 256^k.
  function PowerSum(k: nat): nat {
    if k == 0 then 0 else 256 * (1 + PowerSum(k - 1))
  }

  lemma {:induction false} BorrowOfNegated(m: nat, k: nat)
    requires 0 < m < Pow256(k)
    ensures BorrowSum(Fixed(Pow256(k) - m, k)) == 1 + PowerSum(TrailingZeroBytes(m))
  {
    var x := Pow256(k) - m;
    var s := Fixed(x / 256, k - 1);
    assert Fixed(x, k)[..k - 1] == s;
    if m % 256 == 0 {
      assert x / 256 == Pow256(k - 1) - m / 256 && x % 256 == 0;
      BorrowOfNegated(m / 256, k - 1);
    } else {
      assert x % 256 != 0;
    }
  }

  lemma {:induction false} FirstByte(x: nat, k: nat)
    requires 0 < k && x < Pow256(k)
    ensures Fixed(x, k)[0] == x / Pow256(k - 1)
  {
    if k > 1 {
      FirstByte(x / 256, k - 1);
      DivDiv(x, Pow256(k - 2));
    }
  }

  lemma DivDiv(x: nat, p: nat)
    requires p > 0
    ensures x / 256 / p == x / (256 * p)
  {
    var q := x / 256 / p;
    assert q * p <= x / 256 < (q + 1) * p;
    assert q * (256 * p) <= x < (q + 1) * (256 * p);
    var y := x / (256 * p);
    assert y * (256 * p) <= x < (y + 1) * (256 * p);
    if y < q {
      MulLe(y + 1, q, 256 * p);
    } else if q < y {
      MulLe(q + 1, y, 256 * p);
    }
  }

  lemma MulLe(a: int, b: int, p: nat)
    requires a <= b
    ensures a * p <= b * p
  {
  }

  lemma HighBit(x: nat, k: nat)
    requires k > 0 && x < Pow256(k)
    ensures Fixed(x, k)[0] >= 128 <==> 2 * x >= Pow256(k)
  {
    FirstByte(x, k);
    HalfDecides(x, Pow256(k - 1));
  }

  lemma HalfDecides(x: nat, p: nat)
    requires p > 0
    ensures x / p >= 128 <==> 2 * x >= 256 * p
  {
    if x >= 128 * p {
      DivLower(x, p, 128);
    } else {
      DivUpper(x, p, 128);
    }
  }

  lemma IntWordValue(n: int)
    requires INT_MIN <= n <= INT_MAX
    ensures var w, x := IntWord(n), if n < 0 then U256 + n else n;
      |w| == 32 && BE(w) == x && (w[0] >= 128 <==> n < 0)
  {
    WidthConstants();
    var x := if n < 0 then U256 + n else n;
    FixedValue(x, 32);
    HighBit(x, 32);
  }

  // decodeInt undoes encodeInt up to the sum of the powers the borrow loop
  // subtracts once too often: exactly the identity on non-negative numbers and on
  // negative numbers whose last byte is not zero.
  lemma IntWordRoundTrip(n: int)
    requires INT_MIN <= n <= INT_MAX
    ensures DecodeIntWord(IntWord(n)) == if n >= 0 then n else n - PowerSum(TrailingZeroBytes(-n))
    ensures DecodeIntWord(IntWord(n)) == n <==> n >= 0 || n % 256 != 0
  {
    IntWordValue(n);
    if n < 0 {
      WidthConstants();
      BorrowOfNegated(-n, 32);
      assert (-n) % 256 == 0 <==> n % 256 == 0;
    }
  }

  lemma DivLower(x: nat, p: nat, c: nat)
    requires p > 0 && x >= c * p
    ensures x / p >= c
  {
    if x / p < c {
      MulLe(x / p + 1, c, p);
    }
  }

  lemma DivUpper(x: nat, p: nat, c: nat)
    requires p > 0 && x < c * p
    ensures x / p < c
  {
    if x / p >= c {
      MulLe(c, x / p, p);
    }
  }

  // The failing family is not empty: -256 decodes to -512.
  lemma MinusTwoFiftySixFails()
    ensures DecodeIntWord(IntWord(-256)) == -512
  {
    IntWordRoundTrip(-256);
    assert TrailingZeroBytes(256) == 1;
  }
}
