/**
 Runs of the storage: its indexes agree with the chain.
 */
module StorageRuns {
  import opened Outcomes
  import opened Words
  import opened Tx
  import opened Block
  import opened Storage

  /* Blocks that can be told apart by their hashes */

  // Equal block hashes mean equal blocks, equal transaction hashes the same place; the last height of 64
  // bits is not reached.
  ghost predicate Distinct(u: set<BlockView>) {
    (forall b, d :: b in u && d in u && b.hash == d.hash ==> b == d)
    && (forall b, d, i, j :: b in u && d in u && SameTx(b, i, d, j) ==> b == d && i == j)
    && forall b :: b in u ==> b.nHeight < U64 - 1
  }

  predicate SameTx(b: BlockView, i: int, d: BlockView, j: int) {
    0 <= i < |b.txs| && 0 <= j < |d.txs| && b.txs[i].hash == d.txs[j].hash
  }

  // Contiguous in height and previous hash.
  ghost predicate Contiguous(chain: seq<BlockView>) {
    (forall i :: 0 <= i < |chain| ==> chain[i].nHeight == chain[0].nHeight + i)
    && forall i, j :: 0 <= i && j == i + 1 && j < |chain| ==> chain[j].prevBlockHash == chain[i].hash
  }

  ghost predicate Drawn(u: set<BlockView>, chain: seq<BlockView>) {
    forall i :: 0 <= i < |chain| ==> chain[i] in u
  }

  ghost predicate BlocksExact(s: StoreView) {
    (forall b :: b in s.chain ==> b.hash in s.blockByHash && s.blockByHash[b.hash] == b)
    && forall h :: h in s.blockByHash ==> s.blockByHash[h] in s.chain && s.blockByHash[h].hash == h
  }

  ghost predicate IsTx(chain: seq<BlockView>, h: Hash, b: BlockView, j: int) {
    b in chain && 0 <= j < |b.txs| && b.txs[j].hash == h
  }

  ghost predicate TxsExact(s: StoreView) {
    (forall b, j :: b in s.chain && 0 <= j < |b.txs| ==>
       b.txs[j].hash in s.txByHash && s.txByHash[b.txs[j].hash] == (b.hash, j, b.nHeight))
    && forall h :: h in s.txByHash ==> exists b, j :: IsTx(s.chain, h, b, j)
  }

  // The height by hash is right for every block, and there for every block of the chain.
  ghost predicate HeightsByHash(u: set<BlockView>, s: StoreView) {
    (forall b :: b in u && b.hash in s.heightByHash ==> s.heightByHash[b.hash] == b.nHeight)
    && forall b :: b in s.chain ==> b.hash in s.heightByHash
  }

  // What every run of pushes and pops keeps.
  ghost predicate HashesOk(u: set<BlockView>, s: StoreView) {
    Drawn(u, s.chain) && Contiguous(s.chain) && BlocksExact(s) && TxsExact(s) && HeightsByHash(u, s)
  }

  // What the maps say of a ledger.
  ghost predicate MapsOf(byHeight: map<nat, Hash>, byHash: map<Hash, nat>, ledger: seq<BlockView>) {
    (forall b :: b in ledger ==> b.nHeight in byHeight && byHeight[b.nHeight] == b.hash
                                 && b.hash in byHash && byHash[b.hash] == b.nHeight)
    && (forall n :: n in byHeight ==> exists b :: b in ledger && b.nHeight == n)
    && forall h :: h in byHash ==> exists b :: b in ledger && b.hash == h
  }

  // The height maps hold the ledger: every block that has been in the chain; the chain is its end.
  ghost predicate HeightsOk(u: set<BlockView>, s: StoreView, ledger: seq<BlockView>) {
    Drawn(u, ledger) && Contiguous(ledger)
    && |s.chain| <= |ledger| && s.chain == ledger[|ledger| - |s.chain|..]
    && MapsOf(s.hashByHeight, s.heightByHash, ledger)
  }

  /* One block in or out: the hash indexes */

  lemma {:induction false} InsertTxsAt(m: map<Hash, TxRef>, b: BlockView, n: nat)
    requires n <= |b.txs|
    requires forall i, j :: 0 <= i < j < |b.txs| ==> b.txs[i].hash != b.txs[j].hash
    requires forall i :: 0 <= i < |b.txs| ==> b.txs[i].hash !in m
    ensures forall i :: 0 <= i < n ==>
              b.txs[i].hash in InsertTxs(m, b, n) && InsertTxs(m, b, n)[b.txs[i].hash] == (b.hash, i, b.nHeight)
    ensures forall h :: h in m ==> h in InsertTxs(m, b, n) && InsertTxs(m, b, n)[h] == m[h]
    ensures forall h :: h in InsertTxs(m, b, n) ==> h in m || exists i :: 0 <= i < n && b.txs[i].hash == h
  {
    if n > 0 {
      InsertTxsAt(m, b, n - 1);
    }
  }

  // b joins the chain t of s at either end.
  ghost predicate Joins(chain: seq<BlockView>, b: BlockView, t: seq<BlockView>) {
    t == chain + [b] || t == [b] + chain
  }

  lemma JoinedMembers(chain: seq<BlockView>, b: BlockView, t: seq<BlockView>)
    requires Joins(chain, b, t)
    ensures forall d :: d in t <==> d == b || d in chain
  {
    assert (chain + [b])[|chain|] == b && ([b] + chain)[0] == b;
    forall d | d in chain ensures d in t {
      var i :| 0 <= i < |chain| && chain[i] == d;
      assert (chain + [b])[i] == d && ([b] + chain)[i + 1] == d;
    }
  }

  lemma TxsApart(u: set<BlockView>, b: BlockView, d: BlockView, j: nat)
    requires Distinct(u) && b in u && d in u && b != d && j < |d.txs|
    ensures !HasTx(b, d.txs[j].hash)
  {
    forall i | 0 <= i < |b.txs| ensures b.txs[i].hash != d.txs[j].hash {
      assert !SameTx(b, i, d, j);
    }
  }

  lemma TxsAreNew(u: set<BlockView>, s: StoreView, b: BlockView)
    requires Distinct(u) && Drawn(u, s.chain) && TxsExact(s) && b in u && b !in s.chain
    ensures forall i, j :: 0 <= i < j < |b.txs| ==> b.txs[i].hash != b.txs[j].hash
    ensures forall h :: h in s.txByHash ==> !HasTx(b, h)
  {
    forall i, j | 0 <= i < j < |b.txs| ensures b.txs[i].hash != b.txs[j].hash {
      assert !SameTx(b, i, b, j);
    }
    forall h | h in s.txByHash ensures !HasTx(b, h) {
      var d, j :| IsTx(s.chain, h, d, j);
      TxsApart(u, b, d, j);
    }
  }

  lemma TxsJoin(u: set<BlockView>, s: StoreView, b: BlockView, t: seq<BlockView>)
    requires Distinct(u) && Drawn(u, s.chain) && TxsExact(s) && b in u && b !in s.chain && Joins(s.chain, b, t)
    ensures TxsExact(Indexed(s.(chain := t), b))
  {
    JoinedMembers(s.chain, b, t);
    TxsAreNew(u, s, b);
    var m, now := s.txByHash, InsertTxs(s.txByHash, b, |b.txs|);
    InsertTxsAt(m, b, |b.txs|);
    JoinTxs(s, b, t, now);
  }

  // TxsExact for an index that holds the old entries and those of b.
  lemma JoinTxs(s: StoreView, b: BlockView, t: seq<BlockView>, now: map<Hash, TxRef>)
    requires TxsExact(s) && forall d :: d in t <==> d == b || d in s.chain
    requires forall i :: 0 <= i < |b.txs| ==> b.txs[i].hash in now && now[b.txs[i].hash] == (b.hash, i, b.nHeight)
    requires forall h :: h in s.txByHash ==> h in now && now[h] == s.txByHash[h]
    requires forall h :: h in now ==> h in s.txByHash || HasTx(b, h)
    ensures TxsExact(s.(chain := t, txByHash := now))
  {
    var m := s.txByHash;
    forall h | h in now ensures exists d, j :: IsTx(t, h, d, j) {
      if h in m {
        var d, j :| IsTx(s.chain, h, d, j);
        assert IsTx(t, h, d, j);
      } else {
        var j :| 0 <= j < |b.txs| && b.txs[j].hash == h;
        assert IsTx(t, h, b, j);
      }
    }
  }

  lemma HashesApart(u: set<BlockView>, chain: seq<BlockView>, b: BlockView)
    requires Distinct(u) && Drawn(u, chain) && b in u && b !in chain
    ensures forall d :: d in chain ==> d.hash != b.hash
  {
  }

  lemma BlocksJoin(u: set<BlockView>, s: StoreView, b: BlockView, t: seq<BlockView>)
    requires Distinct(u) && Drawn(u, s.chain) && BlocksExact(s) && b in u && b !in s.chain && Joins(s.chain, b, t)
    ensures BlocksExact(Indexed(s.(chain := t), b))
  {
    JoinedMembers(s.chain, b, t);
    HashesApart(u, s.chain, b);
    hide InsertTxs, Distinct, Drawn, Joins;
    assert b.hash !in s.blockByHash;
  }

  // b leaves the chain, t is what is left.
  lemma TxsLeave(u: set<BlockView>, s: StoreView, b: BlockView, t: seq<BlockView>)
    requires Distinct(u) && Drawn(u, s.chain) && TxsExact(s) && Joins(t, b, s.chain) && b !in t
    ensures TxsExact(Unindexed(s.(chain := t), b))
  {
    JoinedMembers(t, b, s.chain);
    var now := EraseTxs(s.txByHash, b);
    assert forall d :: d in s.chain ==> d in u;
    forall d, j | d in t && 0 <= j < |d.txs|
      ensures d.txs[j].hash in now && now[d.txs[j].hash] == (d.hash, j, d.nHeight)
    {
      TxsApart(u, b, d, j);
    }
    forall h | h in now ensures exists d, j :: IsTx(t, h, d, j) {
      var d, j :| IsTx(s.chain, h, d, j);
      assert d != b;
      assert IsTx(t, h, d, j);
    }
  }

  lemma BlocksLeave(u: set<BlockView>, s: StoreView, b: BlockView, t: seq<BlockView>)
    requires Distinct(u) && Drawn(u, s.chain) && BlocksExact(s) && Joins(t, b, s.chain) && b !in t
    ensures BlocksExact(Unindexed(s.(chain := t), b))
  {
    JoinedMembers(t, b, s.chain);
    assert b in s.chain;
    forall d | d in t ensures d in u {
      assert d in s.chain;
    }
    HashesApart(u, t, b);
    hide Distinct, Drawn, Joins, EraseTxs;
  }

  lemma HeightsJoin(u: set<BlockView>, s: StoreView, b: BlockView, t: seq<BlockView>)
    requires Distinct(u) && b in u && HeightsByHash(u, s) && Joins(s.chain, b, t)
    ensures HeightsByHash(u, Indexed(s.(chain := t), b))
  {
    JoinedMembers(s.chain, b, t);
    assert forall d :: d in u && d.hash == b.hash ==> d == b;
    hide Distinct, Joins, InsertTxs;
  }

  lemma HeightsLeave(u: set<BlockView>, s: StoreView, b: BlockView, t: seq<BlockView>)
    requires HeightsByHash(u, s) && Joins(t, b, s.chain)
    ensures HeightsByHash(u, Unindexed(s.(chain := t), b))
  {
    JoinedMembers(t, b, s.chain);
    hide Joins, EraseTxs;
  }

  /* Runs */

  datatype Event = PushBack(block: BlockView) | PushFront(block: BlockView) | PopBack | PopFront

  function Step(s: StoreView, e: Event): Outcome<StoreView> {
    match e
    case PushBack(b) => PushedBack(s, b)
    case PushFront(b) => PushedFront(s, b)
    case PopBack => PoppedBack(s)
    case PopFront => PoppedFront(s)
  }

  // A push that throws changes nothing; a pop of an empty chain is undefined.
  function Run(s: StoreView, events: seq<Event>): Outcome<StoreView>
    decreases |events|
  {
    if events == [] then Ok(s)
    else
      match Step(s, events[0])
      case Ok(t) => Run(t, events[1..])
      case Throws => Run(s, events[1..])
      case Undefined => Undefined
  }

  ghost predicate From(u: set<BlockView>, e: Event) {
    (e.PushBack? || e.PushFront?) ==> e.block in u
  }

  // A block that follows a contiguous chain is not in it, and keeps it contiguous.
  lemma BackIsNew(u: set<BlockView>, s: StoreView, b: BlockView)
    requires Distinct(u) && Drawn(u, s.chain) && Contiguous(s.chain) && b in u && FollowsBack(s, b)
    ensures b !in s.chain && Contiguous(s.chain + [b]) && Drawn(u, s.chain + [b])
    ensures forall d :: d in s.chain ==> d.nHeight != b.nHeight
  {
    var chain, t := s.chain, s.chain + [b];
    if chain != [] {
      assert chain[|chain| - 1] in u;
      assert b.nHeight == chain[|chain| - 1].nHeight + 1;
      hide Distinct, FollowsBack;
      forall i, j | 0 <= i && j == i + 1 && j < |t| ensures t[j].prevBlockHash == t[i].hash {
        if j < |chain| {
          assert chain[j].prevBlockHash == chain[i].hash;
        }
      }
    }
  }

  lemma FrontIsNew(u: set<BlockView>, s: StoreView, b: BlockView)
    requires Distinct(u) && Drawn(u, s.chain) && Contiguous(s.chain) && b in u && PrecedesFront(s, b)
    ensures b !in s.chain && Contiguous([b] + s.chain) && Drawn(u, [b] + s.chain)
    ensures forall d :: d in s.chain ==> d.nHeight != b.nHeight
  {
    if s.chain != [] {
      assert s.chain[0] in u && b.nHeight < U64 - 1;
      assert b.nHeight + 1 == s.chain[0].nHeight;
      var t := [b] + s.chain;
      forall i, j | 0 <= i && j == i + 1 && j < |t| ensures t[j].prevBlockHash == t[i].hash {
        if i > 0 {
          assert s.chain[j - 1].prevBlockHash == s.chain[i - 1].hash;
        }
      }
    }
  }

  lemma ContiguousPart(chain: seq<BlockView>, i: nat, j: nat)
    requires Contiguous(chain) && i <= j <= |chain|
    ensures Contiguous(chain[i..j])
  {
    var t := chain[i..j];
    forall k, l | 0 <= k && l == k + 1 && l < |t| ensures t[l].prevBlockHash == t[k].hash {
      assert chain[i + l].prevBlockHash == chain[i + k].hash;
    }
  }

  lemma PushKeepsHashes(u: set<BlockView>, s: StoreView, b: BlockView, t: seq<BlockView>)
    requires Distinct(u) && HashesOk(u, s) && b in u && b !in s.chain && Joins(s.chain, b, t)
    requires Contiguous(t) && Drawn(u, t)
    ensures HashesOk(u, Indexed(s.(chain := t), b))
  {
    hide Distinct, Drawn, Contiguous, BlocksExact, TxsExact, HeightsByHash, Joins, Insert, InsertTxs;
    TxsJoin(u, s, b, t);
    BlocksJoin(u, s, b, t);
    HeightsJoin(u, s, b, t);
  }

  lemma PopKeepsHashes(u: set<BlockView>, s: StoreView, b: BlockView, t: seq<BlockView>)
    requires Distinct(u) && HashesOk(u, s) && Joins(t, b, s.chain) && b !in t && Contiguous(t) && Drawn(u, t)
    ensures HashesOk(u, Unindexed(s.(chain := t), b))
  {
    hide Distinct, Drawn, Contiguous, BlocksExact, TxsExact, HeightsByHash, Joins, EraseTxs;
    TxsLeave(u, s, b, t);
    BlocksLeave(u, s, b, t);
    HeightsLeave(u, s, b, t);
  }

  // What is left of the chain without its last or its first block.
  lemma LastIsLone(u: set<BlockView>, chain: seq<BlockView>)
    requires chain != [] && Contiguous(chain) && Drawn(u, chain)
    ensures var b, t := chain[|chain| - 1], chain[..|chain| - 1];
      b !in t && Contiguous(t) && Drawn(u, t) && Joins(t, b, chain)
  {
    var n := |chain| - 1;
    ContiguousPart(chain, 0, n);
    assert chain[0..n] == chain[..n] && chain == chain[..n] + [chain[n]];
    assert forall i :: 0 <= i < n ==> chain[i].nHeight != chain[n].nHeight;
  }

  lemma FirstIsLone(u: set<BlockView>, chain: seq<BlockView>)
    requires chain != [] && Contiguous(chain) && Drawn(u, chain)
    ensures var b, t := chain[0], chain[1..]; b !in t && Contiguous(t) && Drawn(u, t) && Joins(t, b, chain)
  {
    ContiguousPart(chain, 1, |chain|);
    assert chain[1..|chain|] == chain[1..] && chain == [chain[0]] + chain[1..];
    assert forall i :: 1 <= i < |chain| ==> chain[i].nHeight != chain[0].nHeight;
  }

  lemma StepKeepsHashes(u: set<BlockView>, s: StoreView, e: Event)
    requires Distinct(u) && HashesOk(u, s) && From(u, e) && Step(s, e).Ok?
    ensures HashesOk(u, Step(s, e).value)
  {
    var chain, n := s.chain, |s.chain|;
    assert Contiguous(chain) && Drawn(u, chain);
    hide Distinct, HashesOk, Contiguous, Drawn, Indexed, Unindexed, FollowsBack, PrecedesFront;
    match e
    case PushBack(b) =>
      BackIsNew(u, s, b);
      PushKeepsHashes(u, s, b, chain + [b]);
    case PushFront(b) =>
      FrontIsNew(u, s, b);
      PushKeepsHashes(u, s, b, [b] + chain);
    case PopBack =>
      LastIsLone(u, chain);
      PopKeepsHashes(u, s, chain[n - 1], chain[..n - 1]);
    case PopFront =>
      FirstIsLone(u, chain);
      PopKeepsHashes(u, s, chain[0], chain[1..]);
  }

  // The deque stays contiguous and both hash indexes exact over every run of pushes and pops.
  lemma {:induction false} RunKeepsHashes(u: set<BlockView>, s: StoreView, events: seq<Event>)
    requires Distinct(u) && HashesOk(u, s) && forall i :: 0 <= i < |events| ==> From(u, events[i])
    requires Run(s, events).Ok?
    ensures HashesOk(u, Run(s, events).value)
    decreases |events|
  {
    hide Distinct, HashesOk, Step, From;
    if events != [] {
      var t := Step(s, events[0]);
      if t.Ok? {
        StepKeepsHashes(u, s, events[0]);
        RunKeepsHashes(u, t.value, events[1..]);
      } else {
        RunKeepsHashes(u, s, events[1..]);
      }
    }
  }

  /* The height maps: every run */

  // The maps name every block of the chain at its height.
  ghost predicate HeightsAgree(s: StoreView) {
    forall i :: 0 <= i < |s.chain| ==>
      s.chain[i].nHeight in s.hashByHeight && s.hashByHeight[s.chain[i].nHeight] == s.chain[i].hash
  }

  // The height of the block is free, or already taken by the block itself: a lookup before the push.
  predicate HeightFree(s: StoreView, b: BlockView) {
    b.nHeight in s.hashByHeight ==> s.hashByHeight[b.nHeight] == b.hash
  }

  // A push keeps the agreement exactly when the height is free.
  lemma PushAgreesExactly(s: StoreView, b: BlockView, t: seq<BlockView>)
    requires HeightsAgree(s) && Joins(s.chain, b, t)
    ensures HeightsAgree(Indexed(s.(chain := t), b)) <==> HeightFree(s, b)
  {
    hide InsertTxs;
    var now := Indexed(s.(chain := t), b);
    var k := if t == s.chain + [b] then |s.chain| else 0;
    assert t[k] == b;
    forall i | 0 <= i < |t| && i != k
      ensures t[i].nHeight in now.hashByHeight && now.hashByHeight[t[i].nHeight] == t[i].hash
    {
      var d := s.chain[if k == 0 && t != s.chain + [b] then i - 1 else i];
      assert d == t[i];
    }
  }

  // The guard of a step; a push that throws and a pop need none.
  predicate Guarded(s: StoreView, e: Event) {
    (e.PushBack? || e.PushFront?) && Step(s, e).Ok? ==> HeightFree(s, e.block)
  }

  lemma StepAgreesExactly(s: StoreView, e: Event)
    requires HeightsAgree(s) && Step(s, e).Ok?
    ensures HeightsAgree(Step(s, e).value) <==> Guarded(s, e)
  {
    hide Indexed;
    match e
    case PushBack(b) => PushAgreesExactly(s, b, s.chain + [b]);
    case PushFront(b) => PushAgreesExactly(s, b, [b] + s.chain);
    case PopBack =>
    case PopFront =>
  }

  ghost predicate GuardedRun(s: StoreView, events: seq<Event>)
    decreases |events|
  {
    events == []
    || (Guarded(s, events[0])
        && match Step(s, events[0])
           case Ok(t) => GuardedRun(t, events[1..])
           case Throws => GuardedRun(s, events[1..])
           case Undefined => true)
  }

  ghost predicate AgreesThroughout(s: StoreView, events: seq<Event>)
    decreases |events|
  {
    HeightsAgree(s)
    && (events != [] ==>
          match Step(s, events[0])
          case Ok(t) => AgreesThroughout(t, events[1..])
          case Throws => AgreesThroughout(s, events[1..])
          case Undefined => true)
  }

  // Over every run of pushes and pops, popBack included: the heights agree with the chain in every state of the
  // run exactly when each push that succeeds found its height free.
  lemma {:induction false} RunAgreesExactly(s: StoreView, events: seq<Event>)
    requires HeightsAgree(s)
    ensures AgreesThroughout(s, events) <==> GuardedRun(s, events)
    decreases |events|
  {
    hide HeightsAgree, Guarded, Step;
    if events != [] {
      var t := Step(s, events[0]);
      if t.Ok? {
        StepAgreesExactly(s, events[0]);
        if Guarded(s, events[0]) {
          RunAgreesExactly(t.value, events[1..]);
        } else {
          assert !AgreesThroughout(t.value, events[1..]);
        }
      } else {
        FailuresAreGuarded(s, events[0]);
        RunAgreesExactly(s, events[1..]);
      }
    }
  }

  lemma FailuresAreGuarded(s: StoreView, e: Event)
    ensures !Step(s, e).Ok? ==> Guarded(s, e)
  {
  }

  // Behind popBack only the block that was popped finds its height free.
  lemma PopBackFreesNothingElse(u: set<BlockView>, s: StoreView, b: BlockView)
    requires Distinct(u) && Drawn(u, s.chain) && Contiguous(s.chain) && HeightsAgree(s) && |s.chain| >= 2
    requires PushedBack(PoppedBack(s).value, b).Ok?
    ensures HeightsAgree(PushedBack(PoppedBack(s).value, b).value) <==> b.hash == s.chain[|s.chain| - 1].hash
  {
    var n := |s.chain| - 1;
    assert s.chain[n] in u && s.chain[n - 1].nHeight + 1 == s.chain[n].nHeight;
    assert s.hashByHeight[s.chain[n].nHeight] == s.chain[n].hash;
    StepAgreesExactly(s, PopBack);
    StepAgreesExactly(PoppedBack(s).value, PushBack(b));
  }

  // On an emptied chain any height is accepted, and a block at the height of the last one popped is in the same
  // position.
  lemma EmptiedChainFreesNothingElse(s: StoreView, b: BlockView)
    requires HeightsAgree(s) && |s.chain| == 1 && b.nHeight == s.chain[0].nHeight
    ensures PoppedFront(s).Ok? && PushedBack(PoppedFront(s).value, b).Ok?
    ensures HeightsAgree(PushedBack(PoppedFront(s).value, b).value) <==> b.hash == s.chain[0].hash
  {
    StepAgreesExactly(s, PopFront);
    StepAgreesExactly(PoppedFront(s).value, PushBack(b));
  }

  /* The height maps: runs that need no guard */

  // How the ledger grows: a block pushed behind its end or before its start is new, any other returns.
  function NextLedger(s: StoreView, ledger: seq<BlockView>, e: Event): seq<BlockView>
    requires |s.chain| <= |ledger|
  {
    match e
    case PushBack(b) =>
      if !FollowsBack(s, b) || (s.chain == [] && ledger != [] && b == ledger[|ledger| - 1]) then ledger
      else ledger + [b]
    case PushFront(b) =>
      if !PrecedesFront(s, b) || |s.chain| < |ledger| then ledger else [b] + ledger
    case PopBack => ledger
    case PopFront => ledger
  }

  // Without popBack; a push onto an emptied chain brings back the last block of the ledger or continues it.
  predicate Orderly(s: StoreView, ledger: seq<BlockView>, e: Event) {
    match e
    case PushBack(b) =>
      s.chain == [] && ledger != [] ==> b == ledger[|ledger| - 1] || FollowsBack(s.(chain := ledger), b)
    case PushFront(b) => s.chain == [] && ledger != [] ==> b == ledger[|ledger| - 1]
    case PopBack => false
    case PopFront => true
  }

  ghost predicate OrderlyRun(s: StoreView, ledger: seq<BlockView>, events: seq<Event>)
    requires |s.chain| <= |ledger|
    decreases |events|
  {
    events == []
    || (Orderly(s, ledger, events[0])
        && var t := Step(s, events[0]);
           if t.Ok? then
             |t.value.chain| <= |NextLedger(s, ledger, events[0])|
             && OrderlyRun(t.value, NextLedger(s, ledger, events[0]), events[1..])
           else OrderlyRun(s, ledger, events[1..]))
  }

  // Entering a new block at either end, or one that is there.
  lemma MapsInsert(u: set<BlockView>, s: StoreView, ledger: seq<BlockView>, b: BlockView, next: seq<BlockView>)
    requires Distinct(u) && Drawn(u, ledger) && b in u && MapsOf(s.hashByHeight, s.heightByHash, ledger)
    requires || (b in ledger && next == ledger)
             || (Joins(ledger, b, next) && forall d :: d in ledger ==> d.nHeight != b.nHeight)
    ensures MapsOf(Insert(s.hashByHeight, b.nHeight, b.hash), Insert(s.heightByHash, b.hash, b.nHeight), next)
  {
    if b !in ledger {
      JoinedMembers(ledger, b, next);
      HashesApart(u, ledger, b);
      hide Distinct, Drawn, Joins;
      assert b.hash !in s.heightByHash && b.nHeight !in s.hashByHeight;
      InsertNew(s.hashByHeight, s.heightByHash, ledger, b, next);
    }
  }

  lemma InsertNew(hashes: map<nat, Hash>, heights: map<Hash, nat>, ledger: seq<BlockView>, b: BlockView,
                  next: seq<BlockView>)
    requires MapsOf(hashes, heights, ledger) && b.nHeight !in hashes && b.hash !in heights
    requires forall d :: d in next <==> d in ledger || d == b
    ensures MapsOf(Insert(hashes, b.nHeight, b.hash), Insert(heights, b.hash, b.nHeight), next)
  {
    assert b in next;
  }

  // A block that follows the chain follows the ledger.
  lemma LedgerExtends(u: set<BlockView>, s: StoreView, ledger: seq<BlockView>, b: BlockView)
    requires Distinct(u) && HeightsOk(u, s, ledger) && b in u && FollowsBack(s, b)
    requires s.chain == [] ==> FollowsBack(s.(chain := ledger), b)
    ensures Contiguous(ledger + [b]) && Drawn(u, ledger + [b])
    ensures forall d :: d in ledger ==> d.nHeight != b.nHeight
  {
    if s.chain != [] {
      assert s.chain[|s.chain| - 1] == ledger[|ledger| - 1];
    }
    var t := s.(chain := ledger);
    assert FollowsBack(t, b);
    hide HeightsOk, MapsOf;
    BackIsNew(u, t, b);
  }

  lemma PushBackKeepsHeights(u: set<BlockView>, s: StoreView, ledger: seq<BlockView>, b: BlockView)
    requires Distinct(u) && HeightsOk(u, s, ledger) && b in u && FollowsBack(s, b) && Orderly(s, ledger, PushBack(b))
    ensures HeightsOk(u, Indexed(s.(chain := s.chain + [b]), b), NextLedger(s, ledger, PushBack(b)))
  {
    hide Distinct, Drawn, Contiguous, MapsOf, InsertTxs;
    var next := NextLedger(s, ledger, PushBack(b));
    if next == ledger {
      assert next[|next| - 1..] == [b];
    } else {
      LedgerExtends(u, s, ledger, b);
      assert next[|next| - (|s.chain| + 1)..] == s.chain + [b];
    }
    MapsInsert(u, s, ledger, b, next);
  }

  // Before its start the ledger is new; behind it, a block before the chain is one that was there.
  lemma LedgerReturns(u: set<BlockView>, s: StoreView, ledger: seq<BlockView>, b: BlockView)
    requires Distinct(u) && HeightsOk(u, s, ledger) && b in u && PrecedesFront(s, b)
    requires 0 < |s.chain| < |ledger|
    ensures b == ledger[|ledger| - |s.chain| - 1]
  {
    var start := |ledger| - |s.chain|;
    assert ledger[start].prevBlockHash == ledger[start - 1].hash && ledger[start] == s.chain[0];
    assert ledger[start - 1] in u;
  }

  lemma PushFrontKeepsHeights(u: set<BlockView>, s: StoreView, ledger: seq<BlockView>, b: BlockView)
    requires Distinct(u) && HeightsOk(u, s, ledger) && b in u && PrecedesFront(s, b) && Orderly(s, ledger, PushFront(b))
    ensures HeightsOk(u, Indexed(s.(chain := [b] + s.chain), b), NextLedger(s, ledger, PushFront(b)))
  {
    hide Distinct, Drawn, Contiguous, MapsOf, InsertTxs;
    var next := NextLedger(s, ledger, PushFront(b));
    var start := |ledger| - |s.chain|;
    if start == 0 {
      assert s.chain == ledger;
      FrontIsNew(u, s, b);
      assert next[0..] == [b] + s.chain;
    } else {
      if s.chain != [] {
        LedgerReturns(u, s, ledger, b);
      }
      assert b == ledger[start - 1];
      assert next[start - 1..] == [b] + s.chain;
    }
    MapsInsert(u, s, ledger, b, next);
  }

  lemma StepKeepsHeights(u: set<BlockView>, s: StoreView, ledger: seq<BlockView>, e: Event)
    requires Distinct(u) && HeightsOk(u, s, ledger) && From(u, e) && Orderly(s, ledger, e) && Step(s, e).Ok?
    ensures HeightsOk(u, Step(s, e).value, NextLedger(s, ledger, e))
  {
    hide Distinct, Drawn, Contiguous, MapsOf, Indexed, FollowsBack, PrecedesFront, EraseTxs;
    match e
    case PushBack(b) => PushBackKeepsHeights(u, s, ledger, b);
    case PushFront(b) => PushFrontKeepsHeights(u, s, ledger, b);
    case PopBack =>
    case PopFront =>
      assert s.chain[1..] == ledger[|ledger| - (|s.chain| - 1)..];
  }

  // The height maps agree with everything that has been in the chain, of which the chain is the end.
  lemma {:induction false} RunKeepsHeights(u: set<BlockView>, s: StoreView, ledger: seq<BlockView>, events: seq<Event>)
    returns (last: seq<BlockView>)
    requires Distinct(u) && HeightsOk(u, s, ledger) && forall i :: 0 <= i < |events| ==> From(u, events[i])
    requires OrderlyRun(s, ledger, events) && Run(s, events).Ok?
    ensures HeightsOk(u, Run(s, events).value, last)
    decreases |events|
  {
    hide Distinct, Step, From, Orderly, NextLedger, Contiguous, Drawn, MapsOf;
    last := ledger;
    if events != [] {
      var t := Step(s, events[0]);
      if t.Ok? {
        StepKeepsHeights(u, s, ledger, events[0]);
        last := RunKeepsHeights(u, t.value, NextLedger(s, ledger, events[0]), events[1..]);
      } else {
        last := RunKeepsHeights(u, s, ledger, events[1..]);
      }
    }
  }

  // In such a run the heights agree throughout and every push is guarded.
  lemma HeightsOkAgree(u: set<BlockView>, s: StoreView, ledger: seq<BlockView>)
    requires HeightsOk(u, s, ledger)
    ensures HeightsAgree(s)
  {
    forall i | 0 <= i < |s.chain|
      ensures s.chain[i].nHeight in s.hashByHeight && s.hashByHeight[s.chain[i].nHeight] == s.chain[i].hash
    {
      assert ledger[|ledger| - |s.chain| + i] == s.chain[i];
      assert s.chain[i] in ledger;
    }
  }

  lemma {:induction false} OrderlyRunIsGuarded(u: set<BlockView>, s: StoreView, ledger: seq<BlockView>,
                                               events: seq<Event>)
    requires Distinct(u) && HeightsOk(u, s, ledger) && forall i :: 0 <= i < |events| ==> From(u, events[i])
    requires OrderlyRun(s, ledger, events)
    ensures GuardedRun(s, events) && AgreesThroughout(s, events)
    decreases |events|
  {
    hide Distinct, Step, From, Orderly, NextLedger, Guarded, HeightsAgree, MapsOf, Drawn, Contiguous;
    HeightsOkAgree(u, s, ledger);
    if events != [] {
      var t := Step(s, events[0]);
      if t.Ok? {
        StepKeepsHeights(u, s, ledger, events[0]);
        HeightsOkAgree(u, t.value, NextLedger(s, ledger, events[0]));
        StepAgreesExactly(s, events[0]);
        OrderlyRunIsGuarded(u, t.value, NextLedger(s, ledger, events[0]), events[1..]);
      } else {
        FailuresAreGuarded(s, events[0]);
        OrderlyRunIsGuarded(u, s, ledger, events[1..]);
      }
    }
  }

  /* Lookups on the chain */

  // With popBack in the run and no guard the two lookups by hash agree; an index out of range throws.
  lemma HashLookupsAgree(u: set<BlockView>, s: StoreView, i: nat, j: nat)
    requires HashesOk(u, s) && i < |s.chain|
    ensures var b := s.chain[i];
      b.hash in s.blockByHash
      && ChainTxByHash(s, b.hash, j) == if j < |b.txs| then Ok(TxInfo(Some(b.txs[j]), b.hash, j, b.nHeight)) else Throws
    ensures var b := s.chain[i];
      j < |b.txs| ==> b.txs[j].hash in s.txByHash && ChainTx(s, b.txs[j].hash) == ChainTxByHash(s, b.hash, j)
  {
    assert s.chain[i] in s.chain;
  }

  // The lookup by height answers like them exactly when the map names the block at its height.
  lemma HeightLookupAgreesExactly(u: set<BlockView>, s: StoreView, i: nat, j: nat)
    requires Distinct(u) && HashesOk(u, s) && i < |s.chain| && j < |s.chain[i].txs|
    ensures var b := s.chain[i];
      (b.nHeight in s.hashByHeight && s.hashByHeight[b.nHeight] in s.blockByHash
       && ChainTxByHeight(s, b.nHeight, j) == ChainTxByHash(s, b.hash, j))
      <==> b.nHeight in s.hashByHeight && s.hashByHeight[b.nHeight] == b.hash
  {
    var b := s.chain[i];
    HashLookupsAgree(u, s, i, j);
    hide Distinct, Drawn;
    if b.nHeight in s.hashByHeight && s.hashByHeight[b.nHeight] in s.blockByHash {
      var k :| 0 <= k < |s.chain| && s.chain[k] == s.blockByHash[s.hashByHeight[b.nHeight]];
      HashLookupsAgree(u, s, k, j);
      assert s.chain[k] in s.chain;
    }
  }

  // In a state whose heights agree all three lookups of an in-range transaction of the chain succeed and answer
  // alike, and an index out of range throws.
  lemma LookupsAgree(u: set<BlockView>, s: StoreView, i: nat, j: nat)
    requires HashesOk(u, s) && HeightsAgree(s) && i < |s.chain|
    ensures var b := s.chain[i];
      b.hash in s.blockByHash && b.nHeight in s.hashByHeight && s.hashByHeight[b.nHeight] == b.hash
    ensures var b := s.chain[i];
      j < |b.txs| ==>
        var info := TxInfo(Some(b.txs[j]), b.hash, j, b.nHeight);
        b.txs[j].hash in s.txByHash && ChainTx(s, b.txs[j].hash) == Ok(info)
        && ChainTxByHash(s, b.hash, j) == Ok(info) && ChainTxByHeight(s, b.nHeight, j) == Ok(info)
    ensures var b := s.chain[i];
      j >= |b.txs| ==> ChainTxByHash(s, b.hash, j) == Throws && ChainTxByHeight(s, b.nHeight, j) == Throws
  {
    assert s.chain[i] in s.chain;
    hide Distinct, Drawn, Contiguous;
  }
}
