/**
 The consensus state of src/core/rdpos.cpp: the shuffled validator list, the
 commit/reveal mempool and the validation of a block's validator transactions.
 */
module RdPos {
  import opened Outcomes
  import opened Words
  import opened Crypto
  import opened Tx
  import opened ValidatorTx
  import opened RandomGen
  import opened Block

  type Pool = map<Hash, TxValidator>

  function TxsFrom(m: Pool, sender: Address): set<Hash> {
    set h | h in m && m[h].from == sender
  }

  lemma TxsFromMembers(m: Pool, sender: Address)
    ensures forall h :: h in TxsFrom(m, sender) <==> h in m && m[h].from == sender
  {
  }

  // randomList[1..minValidators], who commit and reveal in this round.
  function Participants(randomList: seq<Address>, min: nat): (r: seq<Address>)
    requires |randomList| > min
    ensures |r| == min
  {
    randomList[1..min + 1]
  }

  predicate HasFunctor(tx: TxValidator) {
    |tx.body.data| >= 4
  }

  // addValidatorTx: the new mempool and the returned flag. getFunctor reads four bytes unchecked.
  function Add(m: Pool, randomList: seq<Address>, min: nat, latest: nat, tx: TxValidator): Outcome<(Pool, bool)>
    requires |randomList| > min
  {
    if tx.hash in m then Ok((m, true))
    else if tx.body.nHeight != (latest + 1) % U64 then Ok((m, false))
    else if tx.from !in Participants(randomList, min) then Ok((m, false))
    else
      var own := TxsFrom(m, tx.from);
      if |own| == 0 then Ok((m[tx.hash := tx], true))
      else if |own| == 1 then
        if !HasFunctor(tx) || exists h :: h in own && !HasFunctor(m[h]) then Undefined
        else if exists h :: h in own && Functor(m[h]) == Functor(tx) then Ok((m, false))
        else Ok((m[tx.hash := tx], true))
      else Ok((m, false))
  }

  function ShuffledBy(c: Suite, validators: seq<Address>, seed: Hash): (r: seq<Address>)
    ensures |r| == |validators|
  {
    Shuffled(validators, DrawsOf(c.sha3, seed, |validators|), |validators|)
  }

  // One commit and its reveal.
  predicate PairOk(c: Suite, hashTx: TxValidator, seedTx: TxValidator) {
    FunctionOf(hashTx) == RandomHash && FunctionOf(seedTx) == RandomSeed && hashTx.from == seedTx.from
    && c.sha3(seedTx.body.data[4..]) == hashTx.body.data[4..]
  }

  predicate SentBy(txs: seq<TxValidator>, senders: seq<Address>) {
    |txs| == |senders| && forall i :: 0 <= i < |txs| ==> txs[i].from == senders[i]
  }

  predicate DistinctHashes(txs: seq<TxValidator>) {
    forall i, j :: 0 <= i < j < |txs| ==> txs[i].hash != txs[j].hash
  }

  predicate AllOfHeight(txs: seq<TxValidator>, height: nat) {
    forall i :: 0 <= i < |txs| ==> txs[i].body.nHeight == height
  }

  predicate PairsOk(c: Suite, commits: seq<TxValidator>, seeds: seq<TxValidator>) {
    |commits| == |seeds| && forall i :: 0 <= i < |commits| ==> PairOk(c, commits[i], seeds[i])
  }

  // What validateBlock accepts: signed by randomList[0], then one commit of each participant, in order,
  // then their reveals in the same order.
  predicate ValidPosBlock(c: Suite, randomList: seq<Address>, min: nat, b: BlockView)
    requires |randomList| > min
  {
    b.finalized && ToAddress(c, b.validatorPubKey) == randomList[0] && |b.txValidators| == 2 * min
    && AllOfHeight(b.txValidators, b.nHeight)
    && SentBy(b.txValidators[..min], Participants(randomList, min))
    && SentBy(b.txValidators[min..], Participants(randomList, min))
    && DistinctHashes(b.txValidators[..min])
    && PairsOk(c, b.txValidators[..min], b.txValidators[min..])
  }

  class RdPos {
    const c: Suite
    const validators: seq<Address>  // the sorted set, in order
    const minValidators: nat
    const randomGen: RandomGen
    var randomList: seq<Address>
    var validatorMempool: Pool
    var bestRandomSeed: Hash

    // The C++ indexes randomList[0..minValidators] and doubles minValidators in 32 bits, both unchecked.
    ghost predicate Valid()
      reads this, randomGen
    {
      minValidators < |validators| == |randomList| && 2 * minValidators < U32 && randomGen.sha3 == c.sha3
    }

    // Behind the database reads: the validators found there and the randomness of the latest block.
    constructor (c: Suite, validators: seq<Address>, minValidators: nat, latestRandomness: Hash)
      requires minValidators < |validators| && 2 * minValidators < U32
      ensures Valid() && fresh(randomGen)
      ensures this.c == c && this.validators == validators && this.minValidators == minValidators
      ensures randomList == ShuffledBy(c, validators, latestRandomness) && validatorMempool == map[]
      ensures bestRandomSeed == latestRandomness
    {
      this.c, this.validators, this.minValidators := c, validators, minValidators;
      validatorMempool := map[];
      bestRandomSeed := latestRandomness;
      randomGen := new RandomGen(c.sha3, ZERO_HASH);
      new;
      randomGen.SetSeed(bestRandomSeed);
      ShuffleValidators();
    }

    // randomList_ is refilled from the set and shuffled.
    method ShuffleValidators()
      requires randomGen.sha3 == c.sha3
      modifies this`randomList, randomGen
      ensures randomList == ShuffledBy(c, validators, old(randomGen.seed))
      ensures randomGen.sha3 == c.sha3
    {
      var list := new Address[|validators|](i requires 0 <= i < |validators| => validators[i]);
      assert list[..] == validators;
      randomGen.Shuffle(list);
      randomList := list[..];
    }

    method ProcessBlock(finalized: bool, blockRandomness: Hash) returns (r: Outcome<Hash>)
      requires Valid()
      modifies this, randomGen
      ensures Valid()
      ensures r == if finalized then Ok(blockRandomness) else Throws
      ensures bestRandomSeed == if finalized then blockRandomness else old(bestRandomSeed)
      ensures finalized ==> randomList == ShuffledBy(c, validators, blockRandomness) && validatorMempool == map[]
      ensures !finalized ==> randomList == old(randomList) && validatorMempool == old(validatorMempool)
    {
      if !finalized {
        return Throws;
      }
      validatorMempool := map[];
      bestRandomSeed := blockRandomness;
      randomGen.SetSeed(bestRandomSeed);
      ShuffleValidators();
      r := Ok(bestRandomSeed);
    }

    method AddValidatorTx(tx: TxValidator, latestHeight: nat) returns (r: Outcome<bool>)
      requires Valid()
      modifies this`validatorMempool
      ensures Valid()
      ensures var s := Add(old(validatorMempool), randomList, minValidators, latestHeight, tx);
        if s.Ok? then validatorMempool == s.value.0 && r == Ok(s.value.1)
        else validatorMempool == old(validatorMempool) && r == s.PropagateFailure()
    {
      if tx.hash in validatorMempool {
        return Ok(true);
      }
      if tx.body.nHeight != (latestHeight + 1) % U64 {
        return Ok(false);
      }
      var participates := IsParticipant(tx.from);
      if !participates {
        return Ok(false);
      }
      var txs := CollectFrom(tx.from);
      if |txs| == 0 {
        validatorMempool := validatorMempool[tx.hash := tx];
        return Ok(true);
      } else if |txs| == 1 {
        if !HasFunctor(txs[0]) || !HasFunctor(tx) {
          return Undefined;
        }
        if Functor(txs[0]) == Functor(tx) {
          return Ok(false);
        }
        validatorMempool := validatorMempool[tx.hash := tx];
        return Ok(true);
      } else {
        return Ok(false);
      }
    }

    method IsParticipant(sender: Address) returns (participates: bool)
      requires Valid()
      ensures participates == (sender in Participants(randomList, minValidators))
    {
      participates := false;
      for i := 1 to minValidators + 1
        invariant !participates && sender !in randomList[1..i]
      {
        if sender == randomList[i] {
          assert Participants(randomList, minValidators)[i - 1] == sender;
          return true;
        }
      }
    }

    // The unordered mempool is walked in any order.
    method CollectFrom(sender: Address) returns (txs: seq<TxValidator>)
      ensures |txs| == |TxsFrom(validatorMempool, sender)|
      ensures |txs| == 1 ==>
                exists h :: TxsFrom(validatorMempool, sender) == {h} && txs[0] == validatorMempool[h]
    {
      hide TxsFrom;
      txs := [];
      var keys := validatorMempool.Keys;
      ghost var own := TxsFrom(validatorMempool, sender);
      ghost var seen: set<Hash> := {};
      TxsFromMembers(validatorMempool, sender);
      while keys != {}
        invariant keys <= validatorMempool.Keys
        invariant forall h :: h in seen <==> h in own && h !in keys
        invariant |txs| == |seen|
        invariant |txs| == 1 ==> exists h :: seen == {h} && txs[0] == validatorMempool[h]
        decreases |keys|
      {
        var key :| key in keys;
        if validatorMempool[key].from == sender {
          if |txs| == 0 {
            assert seen == {};
          }
          seen := seen + {key};
          txs := txs + [validatorMempool[key]];
        }
        keys := keys - {key};
      }
      assert seen == own;
    }
  
    method ValidateBlock(b: BlockView) returns (ok: bool)
      requires Valid()
      ensures ok == ValidPosBlock(c, randomList, minValidators, b)
    {
      if !b.finalized || ToAddress(c, b.validatorPubKey) != randomList[0]
         || |b.txValidators| != minValidators * 2 {
        return false;
      }
      for i := 0 to |b.txValidators|
        invariant AllOfHeight(b.txValidators[..i], b.nHeight)
      {
        if b.txValidators[i].body.nHeight != b.nHeight {
          return false;
        }
      }
      assert b.txValidators[..|b.txValidators|] == b.txValidators;
      var ordered, pairs := PairUp(b.txValidators);
      if !ordered {
        return false;
      }
      EmplacedPairsOf(b.txValidators[..minValidators], b.txValidators[minValidators..]);
      if |pairs| != minValidators {
        return false;
      }
      ok := CheckPairs(b.txValidators, pairs);
    }

    method PairUp(txs: seq<TxValidator>) returns (ordered: bool, pairs: map<Hash, (TxValidator, TxValidator)>)
      requires Valid() && |txs| == 2 * minValidators
      ensures ordered == (SentBy(txs[..minValidators], Participants(randomList, minValidators))
                          && SentBy(txs[minValidators..], Participants(randomList, minValidators)))
      ensures ordered ==> pairs == Emplaced(txs[..minValidators], txs[minValidators..], minValidators)
    {
      pairs := map[];
      ghost var commits, seeds := txs[..minValidators], txs[minValidators..];
      ghost var senders := Participants(randomList, minValidators);
      for i := 0 to minValidators
        invariant forall j :: 0 <= j < i ==> commits[j].from == senders[j] && seeds[j].from == senders[j]
        invariant pairs == Emplaced(commits, seeds, i)
      {
        assert commits[i] == txs[i] && seeds[i] == txs[i + minValidators] && senders[i] == randomList[i + 1];
        if txs[i].from != randomList[i + 1] || txs[i + minValidators].from != randomList[i + 1] {
          return false, pairs;
        }
        if txs[i].hash !in pairs {
          pairs := pairs[txs[i].hash := (txs[i], txs[i + minValidators])];
        }
      }
      ordered := true;
    }

    method CheckPairs(txs: seq<TxValidator>, pairs: map<Hash, (TxValidator, TxValidator)>) returns (ok: bool)
      requires Valid() && |txs| == 2 * minValidators
      requires PairsOf(pairs, txs[..minValidators], txs[minValidators..])
      ensures ok == PairsOk(c, txs[..minValidators], txs[minValidators..])
    {
      ghost var commits, seeds := txs[..minValidators], txs[minValidators..];
      var keys := pairs.Keys;
      while keys != {}
        invariant keys <= pairs.Keys
        invariant forall h :: h in pairs && h !in keys ==> PairOk(c, pairs[h].0, pairs[h].1)
        decreases |keys|
      {
        var key :| key in keys;
        var (hashTx, seedTx) := pairs[key];
        ghost var j :| 0 <= j < |commits| && commits[j].hash == key;
        assert pairs[key] == (commits[j], seeds[j]);
        var ok := CheckPair(hashTx, seedTx);
        if !ok {
          return false;
        }
        keys := keys - {key};
      }
      forall i | 0 <= i < |commits| ensures PairOk(c, commits[i], seeds[i]) {
        assert commits[i].hash in pairs && pairs[commits[i].hash] == (commits[i], seeds[i]);
      }
      ok := true;
    }

    method CheckPair(hashTx: TxValidator, seedTx: TxValidator) returns (ok: bool)
      ensures ok == PairOk(c, hashTx, seedTx)
    {
      var hashTxFunction, seedTxFunction := FunctionOf(hashTx), FunctionOf(seedTx);
      if hashTxFunction == Invalid || seedTxFunction == Invalid {
        return false;
      }
      if hashTx.from != seedTx.from {
        return false;
      }
      if hashTxFunction != RandomHash || seedTxFunction != RandomSeed {
        return false;
      }
      var hash, random := hashTx.body.data[4..], seedTx.body.data[4..];
      if |hash| != 32 || |random| != 32 {
        return false;
      }
      ok := c.sha3(random) == hash;
    }
  }

  // The map sends the hash of every commit to the commit and its reveal, and holds nothing else.
  predicate PairsOf(pairs: map<Hash, (TxValidator, TxValidator)>, commits: seq<TxValidator>, seeds: seq<TxValidator>) {
    |commits| == |seeds|
    && (forall i :: 0 <= i < |commits| ==>
                      commits[i].hash in pairs && pairs[commits[i].hash] == (commits[i], seeds[i]))
    && forall h :: h in pairs ==> exists i :: 0 <= i < |commits| && commits[i].hash == h
  }

  // emplace leaves a key that is there as it is.
  function Emplaced(commits: seq<TxValidator>, seeds: seq<TxValidator>, k: nat): map<Hash, (TxValidator, TxValidator)>
    requires k <= |commits| == |seeds|
  {
    if k == 0 then map[]
    else
      var m := Emplaced(commits, seeds, k - 1);
      if commits[k - 1].hash in m then m else m[commits[k - 1].hash := (commits[k - 1], seeds[k - 1])]
  }

  lemma {:induction false} EmplacedKeys(commits: seq<TxValidator>, seeds: seq<TxValidator>, k: nat)
    requires k <= |commits| == |seeds|
    ensures forall i :: 0 <= i < k ==> commits[i].hash in Emplaced(commits, seeds, k)
    ensures forall h :: h in Emplaced(commits, seeds, k) ==> exists i :: 0 <= i < k && commits[i].hash == h
    ensures |Emplaced(commits, seeds, k)| <= k
  {
    if k > 0 {
      EmplacedKeys(commits, seeds, k - 1);
    }
  }

  predicate DistinctUpTo(txs: seq<TxValidator>, k: nat)
    requires k <= |txs|
  {
    forall i, j :: 0 <= i < j < k ==> txs[i].hash != txs[j].hash
  }

  lemma EmplacedStep(commits: seq<TxValidator>, seeds: seq<TxValidator>, k: nat)
    requires 0 < k <= |commits| == |seeds|
    ensures var m := Emplaced(commits, seeds, k - 1);
      Emplaced(commits, seeds, k)
        == if exists j :: 0 <= j < k - 1 && commits[j].hash == commits[k - 1].hash then m
           else m[commits[k - 1].hash := (commits[k - 1], seeds[k - 1])]
    ensures (exists j :: 0 <= j < k - 1 && commits[j].hash == commits[k - 1].hash)
       <==> commits[k - 1].hash in Emplaced(commits, seeds, k - 1)
  {
    EmplacedKeys(commits, seeds, k - 1);
  }

  // The map is full exactly when no two commits share a hash...
  lemma {:induction false} EmplacedFull(commits: seq<TxValidator>, seeds: seq<TxValidator>, k: nat)
    requires k <= |commits| == |seeds|
    ensures |Emplaced(commits, seeds, k)| <= k
    ensures |Emplaced(commits, seeds, k)| == k <==> DistinctUpTo(commits, k)
  {
    if k > 0 {
      EmplacedFull(commits, seeds, k - 1);
      EmplacedStep(commits, seeds, k);
      hide Emplaced;
    }
  }

  // ...and then it sends every commit to its pair.
  lemma {:induction false} EmplacedPairs(commits: seq<TxValidator>, seeds: seq<TxValidator>, k: nat, i: nat)
    requires i < k <= |commits| == |seeds| && DistinctUpTo(commits, k)
    ensures commits[i].hash in Emplaced(commits, seeds, k)
    ensures Emplaced(commits, seeds, k)[commits[i].hash] == (commits[i], seeds[i])
  {
    EmplacedStep(commits, seeds, k);
    hide Emplaced;
    if i < k - 1 {
      EmplacedPairs(commits, seeds, k - 1, i);
    }
  }

  lemma EmplacedPairsOf(commits: seq<TxValidator>, seeds: seq<TxValidator>)
    requires |commits| == |seeds|
    ensures |Emplaced(commits, seeds, |commits|)| == |commits| <==> DistinctHashes(commits)
    ensures DistinctHashes(commits) ==> PairsOf(Emplaced(commits, seeds, |commits|), commits, seeds)
  {
    var k := |commits|;
    EmplacedFull(commits, seeds, k);
    EmplacedKeys(commits, seeds, k);
    if DistinctHashes(commits) {
      forall i | 0 <= i < k
        ensures commits[i].hash in Emplaced(commits, seeds, k)
        ensures Emplaced(commits, seeds, k)[commits[i].hash] == (commits[i], seeds[i])
      {
        EmplacedPairs(commits, seeds, k, i);
      }
    }
  }
}
