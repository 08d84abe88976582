/**
 Addresses of created contracts: EVMHost::deriveContractAddress of src/core/evmhost.hpp.
 */
module ContractAddress {
  import opened Words
  import opened Crypto

  // The one byte written for the nonce. From 0x80 on it is the length prefix of the nonce, whose digits
  // are not written.
  function NonceByte(nonce: nat): byte {
    if nonce < 0x80 then nonce else (0x80 + |MinBytes(nonce)|) % U8
  }

  function SizeByte(nonce: nat): byte {
    (0xc0 + 20 + if nonce < 0x80 then 1 else 1 + |MinBytes(nonce)|) % U8
  }

  function Preimage(nonce: nat, creator: Address): Bytes {
    [SizeByte(nonce)] + creator + [NonceByte(nonce)]
  }

  function DeriveContractAddress(c: Suite, nonce: nat, creator: Address): Address {
    c.sha3(Preimage(nonce, creator))[12..]
  }

  // Two creations share a preimage exactly when they have the same creator and their nonces are equal, or both
  // need a length prefix and have equally many digits.
  lemma SamePreimage(n: nat, x: Address, m: nat, y: Address)
    requires n < U64 && m < U64
    ensures Preimage(n, x) == Preimage(m, y)
       <==> x == y && (n == m || (n >= 0x80 && m >= 0x80 && |MinBytes(n)| == |MinBytes(m)|))
  {
    BytesOfNonce(n);
    BytesOfNonce(m);
    hide NonceByte, SizeByte, MinBytes;
    var p, q := Preimage(n, x), Preimage(m, y);
    assert p[0] == SizeByte(n) && p[21] == NonceByte(n) && q[0] == SizeByte(m) && q[21] == NonceByte(m);
    assert p[1..21] == x && q[1..21] == y;
  }

  lemma BytesOfNonce(n: nat)
    requires n < U64
    ensures n < 0x80 ==> NonceByte(n) == n && SizeByte(n) == 0xd5
    ensures n >= 0x80 ==> NonceByte(n) == 0x80 + |MinBytes(n)| && SizeByte(n) == 0xd5 + |MinBytes(n)|
    ensures n >= 0x80 ==> |MinBytes(n)| > 0
  {
    WidthConstants();
    MinBytesWidth(n, 8);
    hide Pow256;
  }
}
