/**
 The cryptography the node relies on, as parameters: src/utils/ecdsa.cpp and
 Utils::sha3. Nothing is assumed of a suite except where a property asks for it.
 */
module Crypto {
  import opened Words

  type PubKey = k: Bytes | |k| == 65 witness seq(65, _ => 0)
  type Signature = s: Bytes | |s| == 65 witness seq(65, _ => 0)
  type PrivKey = Bytes

  const EC_CONST: int := 115792089237316195423570985008687907852837564279074904382605163141518161494337
  const EMPTY_KEY: PubKey := Repeat(0, 65)

  datatype Suite = Suite(
    sha3: Bytes -> Hash,
    sign: (Hash, PrivKey) -> Signature,
    recover: (Signature, Hash) -> PubKey,  // EMPTY_KEY on failure
    toUPub: PrivKey -> PubKey)

  function ToAddress(c: Suite, key: PubKey): Address {
    c.sha3(key[1..])[12..]
  }

  predicate VerifySig(r: nat, s: nat, v: nat) {
    v <= 1 && 0 < r < EC_CONST && 0 < s < EC_CONST
  }

  function MakeSig(r: nat, s: nat, v: byte): Signature {
    Fixed(r, 32) + Fixed(s, 32) + [v]
  }

  function SigR(sig: Signature): nat {
    BE(sig[..32])
  }

  function SigS(sig: Signature): nat {
    BE(sig[32..64])
  }

  function SigV(sig: Signature): byte {
    sig[64]
  }

  // Signatures of a key verify and recover to that key.
  ghost predicate Signs(c: Suite, key: PrivKey) {
    forall h: Hash :: var sig := c.sign(h, key);
      VerifySig(SigR(sig), SigS(sig), SigV(sig)) && c.recover(sig, h) == c.toUPub(key)
  }

  // The parts of a signature make it up again.
  lemma MakeSigOfParts(sig: Signature)
    ensures MakeSig(SigR(sig), SigS(sig), SigV(sig)) == sig
  {
    FixedOfBE(sig[..32]);
    FixedOfBE(sig[32..64]);
    assert sig == sig[..32] + sig[32..64] + [sig[64]];
  }
}
