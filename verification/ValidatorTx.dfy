/**
 The two functions a validator transaction can call, and the seed they add up to:
 src/core/rdpos.cpp.
 */
module ValidatorTx {
  import opened Words
  import opened Crypto
  import opened Tx

  datatype Function = Invalid | RandomHash | RandomSeed

  const RANDOM_HASH: Bytes := [0xcf, 0xff, 0xe7, 0x46]
  const RANDOM_SEED: Bytes := [0x6f, 0xc5, 0xa2, 0xd6]

  // getFunctor; the C++ reads four bytes whatever the size of data.
  function Functor(tx: TxValidator): Bytes
    requires |tx.body.data| >= 4
  {
    tx.body.data[..4]
  }

  function FunctionOf(tx: TxValidator): Function {
    if |tx.body.data| != 36 then Invalid
    else if Functor(tx) == RANDOM_HASH then RandomHash
    else if Functor(tx) == RANDOM_SEED then RandomSeed
    else Invalid
  }

  // The bytes revealed by the seed transactions of a list, in order.
  function Seeds(txs: seq<TxValidator>): Bytes {
    if txs == [] then []
    else (if FunctionOf(txs[0]) == RandomSeed then txs[0].body.data[4..] else []) + Seeds(txs[1..])
  }

  // The bytes taken from the first i transactions.
  predicate Collected(txs: seq<TxValidator>, i: nat, seed: Bytes) {
    i <= |txs| && seed + Seeds(txs[i..]) == Seeds(txs)
  }

  lemma NothingCollected(txs: seq<TxValidator>)
    ensures Collected(txs, 0, [])
  {
    assert txs[0..] == txs && [] + Seeds(txs) == Seeds(txs);
  }

  lemma NextCollected(txs: seq<TxValidator>, i: nat, seed: Bytes)
    requires i < |txs| && Collected(txs, i, seed)
    ensures FunctionOf(txs[i]) == RandomSeed ==>
              |txs[i].body.data| == 36 && Collected(txs, i + 1, seed + txs[i].body.data[4..])
    ensures FunctionOf(txs[i]) != RandomSeed ==> Collected(txs, i + 1, seed)
  {
    hide Functor;
    var rest := Seeds(txs[i + 1..]);
    assert txs[i..][1..] == txs[i + 1..];
    if FunctionOf(txs[i]) == RandomSeed {
      var part := txs[i].body.data[4..];
      assert seed + (part + rest) == seed + part + rest;
    } else {
      assert [] + rest == rest;
    }
  }

  lemma AllCollected(txs: seq<TxValidator>, seed: Bytes)
    requires Collected(txs, |txs|, seed)
    ensures seed == Seeds(txs)
  {
    assert txs[|txs|..] == [] && seed + [] == seed;
  }

  function SeedOf(c: Suite, txs: seq<TxValidator>): Hash {
    if txs == [] then ZERO_HASH else c.sha3(Seeds(txs))
  }

  // rdPoS::parseTxSeedList.
  method ParseTxSeedList(c: Suite, txs: seq<TxValidator>) returns (r: Hash)
    ensures r == SeedOf(c, txs)
  {
    if txs == [] {
      return ZERO_HASH;
    }
    hide Seeds, FunctionOf, Functor, Collected;
    var seed: Bytes := [];
    assert Collected(txs, 0, []) by { NothingCollected(txs); }
    for i := 0 to |txs|
      invariant Collected(txs, i, seed)
    {
      NextCollected(txs, i, seed);
      if FunctionOf(txs[i]) == RandomSeed {
        seed := seed + txs[i].body.data[4..];
      }
    }
    AllCollected(txs, seed);
    r := c.sha3(seed);
  }
}
