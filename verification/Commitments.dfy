/**
 What rdPoS accepts, in terms of the bytes of a block's validator transactions, and
 the law it is for: a participant's reveal is fixed by its commit (validateBlock of
 src/core/rdpos.cpp).
 */
module Commitments {
  import opened Words
  import opened Crypto
  import opened Tx
  import opened ValidatorTx
  import opened RandomGen
  import opened Block
  import opened RdPos

  // The i-th commit of a block, and the reveal that belongs to it.
  function Commit(b: BlockView, i: nat): TxValidator
    requires i < |b.txValidators|
  {
    b.txValidators[i]
  }

  function Reveal(b: BlockView, min: nat, i: nat): TxValidator
    requires min + i < |b.txValidators|
  {
    b.txValidators[min + i]
  }

  // validateBlock accepts exactly the finalized blocks signed by randomList[0] that hold 2 minValidators
  // transactions of the block's height, the i-th and the (min + i)-th sent by randomList[i + 1]: first a commit
  // of 36 bytes, no two with the same hash, then a reveal of 36 bytes whose seed hashes to what was committed.
  lemma AcceptedExactly(c: Suite, randomList: seq<Address>, min: nat, b: BlockView)
    requires |randomList| > min
    ensures ValidPosBlock(c, randomList, min, b) <==>
      && b.finalized && c.sha3(b.validatorPubKey[1..])[12..] == randomList[0] && |b.txValidators| == 2 * min
      && (forall i :: 0 <= i < 2 * min ==> b.txValidators[i].body.nHeight == b.nHeight)
      && (forall i :: 0 <= i < min ==>
            && Commit(b, i).from == randomList[i + 1] && Reveal(b, min, i).from == randomList[i + 1]
            && |Commit(b, i).body.data| == 36 && Commit(b, i).body.data[..4] == [0xcf, 0xff, 0xe7, 0x46]
            && |Reveal(b, min, i).body.data| == 36 && Reveal(b, min, i).body.data[..4] == [0x6f, 0xc5, 0xa2, 0xd6]
            && c.sha3(Reveal(b, min, i).body.data[4..]) == Commit(b, i).body.data[4..])
      && (forall i, j :: 0 <= i < j < min ==> b.txValidators[i].hash != b.txValidators[j].hash)
  {
    if |b.txValidators| == 2 * min {
      var commits, answers := b.txValidators[..min], b.txValidators[min..];
      var senders := Participants(randomList, min);
      assert forall i :: 0 <= i < min ==> commits[i] == b.txValidators[i] && answers[i] == Reveal(b, min, i);
      assert forall i :: 0 <= i < min ==> senders[i] == randomList[i + 1];
      OrderedExactly(commits, answers, senders);
      PairsExactly(c, commits, answers);
      hide PairsOk, SentBy, PairOk, Participants;
    }
  }

  lemma OrderedExactly(commits: seq<TxValidator>, answers: seq<TxValidator>, senders: seq<Address>)
    requires |commits| == |answers| == |senders|
    ensures SentBy(commits, senders) && SentBy(answers, senders) <==>
      forall i :: 0 <= i < |senders| ==> commits[i].from == senders[i] && answers[i].from == senders[i]
  {
  }

  // The senders apart, which the order of the block fixes.
  lemma PairsExactly(c: Suite, commits: seq<TxValidator>, answers: seq<TxValidator>)
    requires |commits| == |answers|
    ensures PairsOk(c, commits, answers) <==>
      forall i :: 0 <= i < |commits| ==>
        && commits[i].from == answers[i].from
        && |commits[i].body.data| == 36 && commits[i].body.data[..4] == [0xcf, 0xff, 0xe7, 0x46]
        && |answers[i].body.data| == 36 && answers[i].body.data[..4] == [0x6f, 0xc5, 0xa2, 0xd6]
        && c.sha3(answers[i].body.data[4..]) == commits[i].body.data[4..]
  {
    assert RANDOM_HASH[0] != RANDOM_SEED[0];
  }

  /* The randomness of a block */

  // The bytes revealed by each transaction.
  function Revealed(txs: seq<TxValidator>): Bytes
    requires forall i :: 0 <= i < |txs| ==> |txs[i].body.data| >= 4
  {
    if txs == [] then [] else txs[0].body.data[4..] + Revealed(txs[1..])
  }

  lemma {:induction false} SeedsOfReveals(txs: seq<TxValidator>)
    requires forall i :: 0 <= i < |txs| ==> FunctionOf(txs[i]) == RandomSeed
    ensures forall i :: 0 <= i < |txs| ==> |txs[i].body.data| == 36
    ensures Seeds(txs) == Revealed(txs)
  {
    if txs != [] {
      SeedsOfReveals(txs[1..]);
    }
  }

  lemma {:induction false} SeedsBehindCommits(commits: seq<TxValidator>, answers: seq<TxValidator>)
    requires forall i :: 0 <= i < |commits| ==> FunctionOf(commits[i]) != RandomSeed
    ensures Seeds(commits + answers) == Seeds(answers)
  {
    if commits == [] {
      assert commits + answers == answers;
    } else {
      assert (commits + answers)[1..] == commits[1..] + answers;
      SeedsBehindCommits(commits[1..], answers);
    }
  }

  lemma {:induction false} SameReveals(a: seq<TxValidator>, b: seq<TxValidator>)
    requires |a| == |b|
    requires forall i :: 0 <= i < |a| ==> |a[i].body.data| >= 4 && |b[i].body.data| >= 4
    requires forall i :: 0 <= i < |a| ==> a[i].body.data[4..] == b[i].body.data[4..]
    ensures Revealed(a) == Revealed(b)
  {
    if a != [] {
      assert forall i :: 0 <= i < |a| - 1 ==> a[1..][i] == a[i + 1] && b[1..][i] == b[i + 1];
      SameReveals(a[1..], b[1..]);
    }
  }

  // The randomness of an accepted block is the hash of its reveals, in the order of the participants.
  lemma SeedOfAccepted(c: Suite, randomList: seq<Address>, min: nat, b: BlockView)
    requires |randomList| > min && ValidPosBlock(c, randomList, min, b)
    ensures forall i :: 0 <= i < min ==> |Reveal(b, min, i).body.data| == 36
    ensures forall i :: 0 <= i < |b.txValidators[min..]| ==> |b.txValidators[min..][i].body.data| >= 4
    ensures SeedOf(c, b.txValidators) == if min == 0 then ZERO_HASH else c.sha3(Revealed(b.txValidators[min..]))
  {
    var commits, answers := b.txValidators[..min], b.txValidators[min..];
    assert b.txValidators == commits + answers;
    forall i | 0 <= i < min ensures |Reveal(b, min, i).body.data| == 36 {
      assert PairOk(c, commits[i], answers[i]);
    }
    forall i | 0 <= i < min ensures FunctionOf(commits[i]) == RandomHash && FunctionOf(answers[i]) == RandomSeed {
      assert PairOk(c, commits[i], answers[i]);
    }
    SeedsBehindCommits(commits, answers);
    SeedsOfReveals(answers);
  }

  // Commits bind: two blocks accepted on the same list whose commits carry the same data have the same randomness,
  // unless two seeds revealed for one commit differ and have the same hash.
  lemma CommitsFixTheSeed(c: Suite, randomList: seq<Address>, min: nat, b: BlockView, d: BlockView)
    requires |randomList| > min && ValidPosBlock(c, randomList, min, b) && ValidPosBlock(c, randomList, min, d)
    requires forall i :: 0 <= i < min ==> Commit(b, i).body.data == Commit(d, i).body.data
    ensures |b.txValidators| == |d.txValidators| == 2 * min
    ensures forall i :: 0 <= i < min ==> |Reveal(b, min, i).body.data| == 36 && |Reveal(d, min, i).body.data| == 36
    ensures || SeedOf(c, b.txValidators) == SeedOf(c, d.txValidators)
            || exists i :: 0 <= i < min && Reveal(b, min, i).body.data[4..] != Reveal(d, min, i).body.data[4..]
                           && c.sha3(Reveal(b, min, i).body.data[4..]) == c.sha3(Reveal(d, min, i).body.data[4..])
  {
    AcceptedExactly(c, randomList, min, b);
    AcceptedExactly(c, randomList, min, d);
    SeedOfAccepted(c, randomList, min, b);
    SeedOfAccepted(c, randomList, min, d);
    hide *;
    if forall i :: 0 <= i < min ==> Reveal(b, min, i).body.data[4..] == Reveal(d, min, i).body.data[4..] {
      SameAnswers(c, b, d, min);
    } else {
      var i :| 0 <= i < min && Reveal(b, min, i).body.data[4..] != Reveal(d, min, i).body.data[4..];
      assert Commit(b, i).body.data == Commit(d, i).body.data;
    }
  }

  lemma SameAnswers(c: Suite, b: BlockView, d: BlockView, min: nat)
    requires |b.txValidators| == |d.txValidators| == 2 * min
    requires forall i :: 0 <= i < min ==> |Reveal(b, min, i).body.data| == 36 && |Reveal(d, min, i).body.data| == 36
    requires forall i :: 0 <= i < min ==> Reveal(b, min, i).body.data[4..] == Reveal(d, min, i).body.data[4..]
    ensures var x, y := b.txValidators[min..], d.txValidators[min..];
      && (forall i :: 0 <= i < |x| ==> |x[i].body.data| >= 4) && (forall i :: 0 <= i < |y| ==> |y[i].body.data| >= 4)
      && Revealed(x) == Revealed(y)
  {
    hide Revealed;
    var x, y := b.txValidators[min..], d.txValidators[min..];
    assert forall i :: 0 <= i < min ==> x[i] == Reveal(b, min, i) && y[i] == Reveal(d, min, i);
    SameReveals(x, y);
  }

  /* The order of the next round */

  // The i-th number drawn for n validators.
  function Draw(c: Suite, randomness: Hash, n: nat, i: nat): nat
    requires i < n
  {
    BE(SeedAfter(c.sha3, randomness, i + 1)) % (n - i)
  }

  // Two randomness values shuffle the validators into the same order exactly when all their draws agree.
  lemma SameOrderExactly(c: Suite, validators: seq<Address>, r: Hash, s: Hash)
    requires Distinct(validators)
    ensures ShuffledBy(c, validators, r) == ShuffledBy(c, validators, s) <==>
      forall i :: 0 <= i < |validators| ==> Draw(c, r, |validators|, i) == Draw(c, s, |validators|, i)
  {
    hide BE, SeedAfter, Shuffled;
    var n := |validators|;
    var d, e := DrawsOf(c.sha3, r, n), DrawsOf(c.sha3, s, n);
    forall i | 0 <= i < n ensures d[i] == Draw(c, r, n, i) && e[i] == Draw(c, s, n, i) {
      DrawAt(c.sha3, r, n, i);
      DrawAt(c.sha3, s, n, i);
    }
    hide DrawsOf, Draw;
    if Shuffled(validators, d, n) == Shuffled(validators, e, n) {
      DrawsAreDetermined(validators, d, e, n);
      assert d[..n] == d && e[..n] == e;
    }
    if forall i :: 0 <= i < n ==> Draw(c, r, n, i) == Draw(c, s, n, i) {
      assert d == e;
    }
  }
}
