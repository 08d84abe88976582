/**
 Runs of the consensus state: every sequence of validator transactions, blocks and
 clearings of the mempool.
 */
module RdPosRuns {
  import opened Outcomes
  import opened Words
  import opened Crypto
  import opened Tx
  import opened ValidatorTx
  import opened RandomGen
  import opened RdPos

  // The consensus state beside the height of the latest stored block.
  datatype Node = Node(randomList: seq<Address>, mempool: Pool, latest: nat)

  datatype Event =
    | AddTx(tx: TxValidator)
    | ClearMempool
    | ProcessBlock(finalized: bool, randomness: Hash)  // and its push to the storage

  datatype Config = Config(c: Suite, validators: seq<Address>, min: nat)

  ghost predicate GoodConfig(g: Config) {
    g.min < |g.validators| && Distinct(g.validators)
  }

  function Start(g: Config, latest: nat, randomness: Hash): Node {
    Node(ShuffledBy(g.c, g.validators, randomness), map[], latest)
  }

  // A block that is not finalized throws before anything changes.
  function Step(g: Config, n: Node, e: Event): Outcome<Node>
    requires |n.randomList| > g.min
  {
    match e
    case AddTx(tx) =>
      var (m, _) :- Add(n.mempool, n.randomList, g.min, n.latest, tx);
      Ok(n.(mempool := m))
    case ClearMempool => Ok(n.(mempool := map[]))
    case ProcessBlock(finalized, randomness) =>
      if finalized then Ok(Node(ShuffledBy(g.c, g.validators, randomness), map[], (n.latest + 1) % U64))
      else Ok(n)
  }

  function Run(g: Config, n: Node, events: seq<Event>): Outcome<Node>
    requires |n.randomList| == |g.validators| > g.min
    decreases |events|
  {
    if events == [] then Ok(n)
    else
      var next :- Step(g, n, events[0]);
      Run(g, next, events[1..])
  }

  ghost predicate TxOk(g: Config, n: Node, h: Hash)
    requires |n.randomList| > g.min && h in n.mempool
  {
    var tx := n.mempool[h];
    tx.hash == h && tx.body.nHeight == (n.latest + 1) % U64 && tx.from in Participants(n.randomList, g.min)
  }

  // Two transactions of one sender have different functors.
  ghost predicate OnePerFunctor(m: Pool) {
    forall h, k :: h in m && k in m && h != k && m[h].from == m[k].from ==>
      HasFunctor(m[h]) && HasFunctor(m[k]) && Functor(m[h]) != Functor(m[k])
  }

  ghost predicate TwoPerSender(m: Pool) {
    forall a: Address :: |TxsFrom(m, a)| <= 2
  }

  ghost predicate NodeOk(g: Config, n: Node) {
    multiset(n.randomList) == multiset(g.validators) && |n.randomList| == |g.validators| > g.min
    && Distinct(n.randomList)
    && (forall h :: h in n.mempool ==> TxOk(g, n, h)) && OnePerFunctor(n.mempool) && TwoPerSender(n.mempool)
  }

  lemma ShuffleIsOk(g: Config, randomness: Hash, latest: nat)
    requires GoodConfig(g)
    ensures NodeOk(g, Node(ShuffledBy(g.c, g.validators, randomness), map[], latest))
  {
    var n := |g.validators|;
    var draws := DrawsOf(g.c.sha3, randomness, n);
    ShufflePermutes(g.validators, draws, n);
    ShuffleKeepsDistinct(g.validators, draws, n);
    hide Shuffled;
    forall a: Address ensures |TxsFrom(map[], a)| <= 2 {
      assert TxsFrom(map[], a) == {};
    }
  }

  lemma TxsFromInsert(m: Pool, h: Hash, tx: TxValidator, a: Address)
    requires h !in m
    ensures TxsFrom(m[h := tx], a) == if a == tx.from then TxsFrom(m, a) + {h} else TxsFrom(m, a)
  {
  }

  // What addValidatorTx has checked of a transaction it inserts.
  ghost predicate Inserts(g: Config, n: Node, tx: TxValidator)
    requires |n.randomList| > g.min
  {
    tx.hash !in n.mempool && tx.body.nHeight == (n.latest + 1) % U64
    && tx.from in Participants(n.randomList, g.min) && |TxsFrom(n.mempool, tx.from)| <= 1
    && forall h :: h in n.mempool && n.mempool[h].from == tx.from ==>
      HasFunctor(n.mempool[h]) && HasFunctor(tx) && Functor(n.mempool[h]) != Functor(tx)
  }

  lemma AddInserts(g: Config, n: Node, tx: TxValidator)
    requires |n.randomList| > g.min && Step(g, n, AddTx(tx)).Ok?
    ensures var now := Step(g, n, AddTx(tx)).value;
      now == n || (Inserts(g, n, tx) && now == n.(mempool := n.mempool[tx.hash := tx]))
  {
    hide TxsFrom;
    TxsFromMembers(n.mempool, tx.from);
  }

  // What addValidatorTx takes: a new transaction for the next height, sent by one of randomList[1..min], whose
  // sender has nothing in the mempool or a single transaction with another functor.
  predicate Takes(m: Pool, randomList: seq<Address>, min: nat, latest: nat, tx: TxValidator)
    requires |randomList| > min
  {
    tx.hash !in m && tx.body.nHeight == (latest + 1) % U64
    && (exists i :: 1 <= i <= min && randomList[i] == tx.from)
    && (forall h, k :: h in m && k in m && m[h].from == tx.from && m[k].from == tx.from ==> h == k)
    && forall h :: h in m && m[h].from == tx.from ==>
      |m[h].body.data| >= 4 && |tx.body.data| >= 4 && m[h].body.data[..4] != tx.body.data[..4]
  }

  // addValidatorTx inserts exactly that, leaves the mempool alone otherwise, and returns whether the transaction is
  // there; getFunctor of too short data apart, which is undefined.
  lemma AddTakesExactly(m: Pool, randomList: seq<Address>, min: nat, latest: nat, tx: TxValidator)
    requires |randomList| > min
    ensures var r := Add(m, randomList, min, latest, tx);
      && !r.Throws?
      && (Takes(m, randomList, min, latest, tx) ==> r == Ok((m[tx.hash := tx], true)))
      && (r.Ok? && !Takes(m, randomList, min, latest, tx) ==> r == Ok((m, tx.hash in m)))
      && (r.Undefined? ==> exists h :: h in m && m[h].from == tx.from
                                       && (|m[h].body.data| < 4 || |tx.body.data| < 4))
  {
    var own := TxsFrom(m, tx.from);
    TxsFromMembers(m, tx.from);
    ParticipantsExactly(randomList, min, tx.from);
    hide TxsFrom, Participants;
    if |own| == 1 {
      var h :| h in own;
      assert |own - {h}| == 0;
      assert own == {h};
    } else if own != {} {
      var h :| h in own;
      assert |own - {h}| > 0;
      var k :| k in own - {h};
      assert !Takes(m, randomList, min, latest, tx);
    }
  }

  lemma ParticipantsExactly(randomList: seq<Address>, min: nat, sender: Address)
    requires |randomList| > min
    ensures sender in Participants(randomList, min) <==> exists i :: 1 <= i <= min && randomList[i] == sender
  {
    var senders := Participants(randomList, min);
    if i :| 1 <= i <= min && randomList[i] == sender {
      assert senders[i - 1] == sender;
    }
    if sender in senders {
      var j :| 0 <= j < min && senders[j] == sender;
      assert randomList[j + 1] == sender;
    }
  }

  lemma InsertKeepsSenders(m: Pool, tx: TxValidator)
    requires TwoPerSender(m) && tx.hash !in m && |TxsFrom(m, tx.from)| <= 1
    ensures TwoPerSender(m[tx.hash := tx])
  {
    hide TxsFrom;
    var now := m[tx.hash := tx];
    forall a: Address ensures |TxsFrom(now, a)| <= 2 {
      TxsFromInsert(m, tx.hash, tx, a);
    }
  }

  lemma InsertKeepsFunctors(m: Pool, tx: TxValidator)
    requires OnePerFunctor(m) && tx.hash !in m
    requires forall h :: h in m && m[h].from == tx.from ==>
      HasFunctor(m[h]) && HasFunctor(tx) && Functor(m[h]) != Functor(tx)
    ensures OnePerFunctor(m[tx.hash := tx])
  {
    hide Functor;
  }

  lemma AddKeepsOk(g: Config, n: Node, tx: TxValidator)
    requires NodeOk(g, n) && Step(g, n, AddTx(tx)).Ok?
    ensures NodeOk(g, Step(g, n, AddTx(tx)).value)
  {
    AddInserts(g, n, tx);
    var now := Step(g, n, AddTx(tx)).value;
    hide Step, TxsFrom, OnePerFunctor, TwoPerSender;
    if now != n {
      InsertKeepsFunctors(n.mempool, tx);
      InsertKeepsSenders(n.mempool, tx);
    }
  }

  // In every reachable state the list is a permutation of the validators and the mempool is in order.
  lemma {:induction false} RunsStayOk(g: Config, n: Node, events: seq<Event>)
    requires GoodConfig(g) && NodeOk(g, n) && Run(g, n, events).Ok?
    ensures NodeOk(g, Run(g, n, events).value)
    decreases |events|
  {
    if events != [] {
      var next := Step(g, n, events[0]).value;
      match events[0] {
        case AddTx(tx) => AddKeepsOk(g, n, tx);
        case ClearMempool => ClearIsOk(g, n);
        case ProcessBlock(_, randomness) => ShuffleIsOk(g, randomness, (n.latest + 1) % U64);
      }
      RunsStayOk(g, next, events[1..]);
    }
  }

  lemma ClearIsOk(g: Config, n: Node)
    requires NodeOk(g, n)
    ensures NodeOk(g, n.(mempool := map[]))
  {
    forall a: Address ensures |TxsFrom(map[], a)| <= 2 {
      assert TxsFrom(map[], a) == {};
    }
  }

  lemma ReachableIsOk(g: Config, latest: nat, randomness: Hash, events: seq<Event>)
    requires GoodConfig(g) && Run(g, Start(g, latest, randomness), events).Ok?
    ensures NodeOk(g, Run(g, Start(g, latest, randomness), events).value)
  {
    ShuffleIsOk(g, randomness, latest);
    RunsStayOk(g, Start(g, latest, randomness), events);
  }

  // ------------------------------------------------------------ how full the mempool can be

  function FromAny(m: Pool, senders: seq<Address>): set<Hash> {
    set h | h in m && m[h].from in senders
  }

  function CountFrom(m: Pool, senders: seq<Address>): nat {
    if senders == [] then 0 else |TxsFrom(m, senders[0])| + CountFrom(m, senders[1..])
  }

  lemma {:induction false} CountsAdd(m: Pool, senders: seq<Address>)
    requires Distinct(senders)
    ensures |FromAny(m, senders)| == CountFrom(m, senders)
  {
    if senders == [] {
      assert FromAny(m, senders) == {};
    } else {
      var a, rest := senders[0], senders[1..];
      CountsAdd(m, rest);
      assert a !in rest;
      assert FromAny(m, senders) == TxsFrom(m, a) + FromAny(m, rest);
      assert TxsFrom(m, a) !! FromAny(m, rest);
    }
  }

  lemma {:induction false} CountBound(m: Pool, senders: seq<Address>)
    requires TwoPerSender(m)
    ensures CountFrom(m, senders) <= 2 * |senders|
    ensures CountFrom(m, senders) == 2 * |senders| <==> forall i :: 0 <= i < |senders| ==> |TxsFrom(m, senders[i])| == 2
  {
    if senders != [] {
      var rest := senders[1..];
      CountBound(m, rest);
      assert |TxsFrom(m, senders[0])| <= 2;
      if forall i :: 0 <= i < |senders| ==> |TxsFrom(m, senders[i])| == 2 {
        forall i | 0 <= i < |rest| ensures |TxsFrom(m, rest[i])| == 2 {
          assert rest[i] == senders[i + 1];
        }
      }
      if CountFrom(m, senders) == 2 * |senders| {
        forall i | 0 <= i < |senders| ensures |TxsFrom(m, senders[i])| == 2 {
          if i > 0 {
            assert senders[i] == rest[i - 1];
          }
        }
      }
    }
  }

  ghost predicate TwoFunctors(m: Pool, a: Address) {
    exists h, k :: h in m && k in m && h != k && TxsFrom(m, a) == {h, k}
      && HasFunctor(m[h]) && HasFunctor(m[k]) && Functor(m[h]) != Functor(m[k])
  }

  lemma TwoOfPair(m: Pool, a: Address)
    requires OnePerFunctor(m)
    ensures |TxsFrom(m, a)| == 2 <==> TwoFunctors(m, a)
  {
    var own := TxsFrom(m, a);
    if |own| == 2 {
      var h, k := TwoOf(own);
      assert h in own && k in own;
    }
    hide Functor;
  }

  lemma TwoOf(own: set<Hash>) returns (h: Hash, k: Hash)
    requires |own| == 2
    ensures h != k && own == {h, k}
  {
    h :| h in own;
    assert |own - {h}| == 1;
    k :| k in own - {h};
    assert |own - {h} - {k}| == 0;
  }

  // At most two transactions for each of the minValidators participants; the mempool is full exactly when
  // every participant has two, of different functors.
  lemma MempoolBound(g: Config, n: Node)
    requires NodeOk(g, n)
    ensures |n.mempool| <= 2 * g.min
    ensures |n.mempool| == 2 * g.min
       <==> forall i :: 1 <= i <= g.min ==> TwoFunctors(n.mempool, n.randomList[i])
  {
    var m, senders := n.mempool, Participants(n.randomList, g.min);
    assert FromAny(m, senders) == m.Keys by {
      forall h | h in m ensures m[h].from in senders {
        assert TxOk(g, n, h);
      }
    }
    CountsAdd(m, senders);
    CountBound(m, senders);
    TwoOfAll(m, senders);
    hide *;
    SameParticipants(m, n.randomList, g.min);
  }

  lemma TwoOfAll(m: Pool, senders: seq<Address>)
    requires OnePerFunctor(m)
    ensures (forall i :: 0 <= i < |senders| ==> |TxsFrom(m, senders[i])| == 2)
       <==> forall i :: 0 <= i < |senders| ==> TwoFunctors(m, senders[i])
  {
    hide TxsFrom, TwoFunctors, OnePerFunctor;
    forall i | 0 <= i < |senders| ensures |TxsFrom(m, senders[i])| == 2 <==> TwoFunctors(m, senders[i]) {
      TwoOfPair(m, senders[i]);
    }
  }

  lemma SameParticipants(m: Pool, randomList: seq<Address>, min: nat)
    requires |randomList| > min
    ensures var senders := Participants(randomList, min);
      (forall i :: 0 <= i < |senders| ==> TwoFunctors(m, senders[i]))
      <==> forall i :: 1 <= i <= min ==> TwoFunctors(m, randomList[i])
  {
    hide TwoFunctors;
    var senders := Participants(randomList, min);
    if forall i :: 0 <= i < min ==> TwoFunctors(m, senders[i]) {
      forall i | 1 <= i <= min ensures TwoFunctors(m, randomList[i]) {
        assert TwoFunctors(m, senders[i - 1]);
      }
    }
    if forall i :: 1 <= i <= min ==> TwoFunctors(m, randomList[i]) {
      forall i | 0 <= i < min ensures TwoFunctors(m, senders[i]) {
        assert senders[i] == randomList[i + 1];
      }
    }
  }
}
