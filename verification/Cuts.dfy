/**
 Blocks whose processing is cut short by an exception: when that happens, and what it
 leaves of the account table (processNextBlock of src/core/state.cpp).
 */
module Cuts {
  import opened Words
  import opened Crypto
  import opened Tx
  import opened Sums
  import opened Accounts

  // The guard of processTransaction holds off at every transaction's turn.
  predicate Smooth(c: Suite, a: Table, txs: seq<TxBlock>, xs: seq<Execution>)
    requires |txs| == |xs|
    decreases |txs|
  {
    txs == []
    || (!Halts(c, a, txs[0], xs[0])
        && var next := Process(c, a, txs[0], xs[0]);
           next.Done? && Smooth(c, next.accounts, txs[1..], xs[1..]))
  }

  lemma {:induction false} SmoothExactly(c: Suite, a: Table, txs: seq<TxBlock>, xs: seq<Execution>)
    requires |txs| == |xs|
    ensures ProcessAll(c, a, txs, xs).Done? <==> Smooth(c, a, txs, xs)
    decreases |txs|
  {
    hide Process, Halts;
    if txs != [] {
      ProcessEndsExactly(c, a, txs[0], xs[0]);
      var next := Process(c, a, txs[0], xs[0]);
      if next.Done? {
        SmoothExactly(c, next.accounts, txs[1..], xs[1..]);
      }
    }
  }

  // The first k transactions go through and the guard stops the next one.
  predicate CutAt(c: Suite, a: Table, txs: seq<TxBlock>, xs: seq<Execution>, k: nat)
    requires |txs| == |xs|
  {
    k < |txs|
    && var before := ProcessAll(c, a, txs[..k], xs[..k]);
       before.Done? && Halts(c, before.accounts, txs[k], xs[k])
  }

  lemma {:induction false} PrefixThenNext(c: Suite, a: Table, txs: seq<TxBlock>, xs: seq<Execution>, k: nat)
    requires |txs| == |xs| && k < |txs| && ProcessAll(c, a, txs[..k], xs[..k]).Done?
    ensures var next := Process(c, ProcessAll(c, a, txs[..k], xs[..k]).accounts, txs[k], xs[k]);
      !next.Done? ==> ProcessAll(c, a, txs, xs) == next
    decreases k
  {
    hide Process;
    if k > 0 {
      var first := Process(c, a, txs[0], xs[0]).accounts;
      assert txs[..k][1..] == txs[1..][..k - 1] && xs[..k][1..] == xs[1..][..k - 1];
      PrefixThenNext(c, first, txs[1..], xs[1..], k - 1);
    }
  }

  lemma {:induction false} FindCut(c: Suite, a: Table, txs: seq<TxBlock>, xs: seq<Execution>) returns (k: nat)
    requires |txs| == |xs| && !ProcessAll(c, a, txs, xs).Done?
    ensures CutAt(c, a, txs, xs, k)
    decreases |txs|
  {
    hide Process, Halts;
    ProcessEndsExactly(c, a, txs[0], xs[0]);
    var next := Process(c, a, txs[0], xs[0]);
    if next.Done? {
      var j := FindCut(c, next.accounts, txs[1..], xs[1..]);
      k := j + 1;
      assert txs[..k][1..] == txs[1..][..j] && xs[..k][1..] == xs[1..][..j];
    } else {
      k := 0;
    }
  }

  // A block is cut short if and only if the guard stops some transaction at its turn.
  lemma CutExactly(c: Suite, a: Table, txs: seq<TxBlock>, xs: seq<Execution>)
    requires |txs| == |xs|
    ensures !ProcessAll(c, a, txs, xs).Done? <==> exists k: nat :: CutAt(c, a, txs, xs, k)
  {
    hide ProcessAll, Process, Halts;
    if !ProcessAll(c, a, txs, xs).Done? {
      var k := FindCut(c, a, txs, xs);
    } else if exists k: nat :: CutAt(c, a, txs, xs, k) {
      var k: nat :| CutAt(c, a, txs, xs, k);
      PrefixThenNext(c, a, txs, xs, k);
      ProcessEndsExactly(c, ProcessAll(c, a, txs[..k], xs[..k]).accounts, txs[k], xs[k]);
    }
  }

  /* What a processed transaction does to the others */

  // No account disappears and nobody but the sender loses; nobody at all where `sender` is absent.
  ghost predicate Spares(a: Table, b: Table, sender: Address) {
    a.Keys <= b.Keys && (forall k :: Nonce(b, k) == Nonce(a, k))
    && forall k :: k != sender ==> Balance(b, k) >= Balance(a, k)
  }

  ghost predicate SparesAll(a: Table, b: Table) {
    a.Keys <= b.Keys && (forall k :: Nonce(b, k) == Nonce(a, k)) && forall k :: Balance(b, k) >= Balance(a, k)
  }

  lemma EvmSpares(c: Suite, a: Table, tx: TxBlock, e: EvmResult)
    ensures var r := ProcessEvm(c, a, tx, e);
      (r.Done? ==> Spares(a, r.accounts, tx.from)) && (r.Threw? ==> SparesAll(a, r.accounts))
  {
    hide PayEvm, RunEvm, RefundEvm, RealTo, TouchAll, StoreCode;
    PayEvmEnds(c, a, tx);
    PayEvmSpares(c, a, tx);
    if PayEvm(c, a, tx).Done? {
      var paid := PayEvm(c, a, tx).accounts;
      TouchAllMoves(paid, e.touched, tx.from);
      var b := TouchAll(paid, e.touched);
      var fee := RunEvmEnds(c, a, b, tx, e);
      var ran := RunEvm(b, tx, e);
      if ran.Done? {
        StoreCodeMoves(ran.accounts, e.code, tx.from);
      } else {
        RefundEvmMoves(c, a, ran.accounts, tx, fee);
      }
    }
  }

  lemma PayEvmSpares(c: Suite, a: Table, tx: TxBlock)
    ensures PayEvm(c, a, tx).Threw? ==> SparesAll(a, PayEvm(c, a, tx).accounts)
  {
    hide Credit, Debit, RealTo;
    CreditMoves(a, RealTo(c, tx), tx.body.value);
    DebitMoves(Credit(a, RealTo(c, tx), tx.body.value).accounts, tx.from, tx.body.value);
  }

  lemma RunClassicSpares(a: Table, tx: TxBlock)
    ensures var r := RunClassic(a, tx, NotNative);
      Spares(a, r.accounts, tx.from) && (!Affordable(a, tx) ==> SparesAll(a, r.accounts))
  {
    hide Credit, Debit;
    var t := tx.body;
    if Cost(t).Ok? {
      DebitMoves(a, tx.from, Cost(t).value);
      CreditMoves(Debit(a, tx.from, Cost(t).value).accounts, t.to, t.value);
    }
  }

  lemma ClassicSpares(a: Table, tx: TxBlock)
    ensures var r := ProcessClassic(a, tx, NotNative);
      (r.Done? ==> Spares(a, r.accounts, tx.from)) && (r.Threw? ==> SparesAll(a, r.accounts))
  {
    assert Balance(a, tx.from) < U256;
    RunClassicStops(a, tx, NotNative);
    RunClassicSpares(a, tx);
    hide Credit, RunClassic, Affordable, Balance, Spares, SparesAll;
    var ran := RunClassic(a, tx, NotNative);
    if ran.Threw? {
      CreditMoves(ran.accounts, tx.from, tx.body.value);
      RefundSpares(a, ran.accounts, Credit(ran.accounts, tx.from, tx.body.value).accounts, tx.from);
    }
  }

  // A refund to the sender on top.
  lemma RefundSpares(a: Table, b: Table, d: Table, sender: Address)
    requires exists v: nat :: Moves(b, d, sender, v)
    ensures Spares(a, b, sender) ==> Spares(a, d, sender)
    ensures SparesAll(a, b) ==> SparesAll(a, d)
  {
    var v: nat :| Moves(b, d, sender, v);
    hide Balance, Nonce;
  }

  lemma ProcessSpares(c: Suite, a: Table, tx: TxBlock, x: Execution)
    requires x.native.NotNative?
    ensures var r := Process(c, a, tx, x);
      (r.Threw? ==> SparesAll(a, r.accounts))
      && (r.Done? ==>
            a.Keys <= r.accounts.Keys
            && (forall k :: Nonce(r.accounts, k) == if k == tx.from then (Nonce(a, k) + 1) % U64 else Nonce(a, k))
            && forall k :: k != tx.from ==> Balance(r.accounts, k) >= Balance(a, k))
  {
    hide ProcessEvm, ProcessClassic, Bump;
    var t := Touch(a, tx.body.to);
    TouchMoves(a, tx.body.to);
    EvmSpares(c, t, tx, x.evm);
    ClassicSpares(t, tx);
    var r := if IsEvm(t, tx.body.to) then ProcessEvm(c, t, tx, x.evm) else ProcessClassic(t, tx, x.native);
    if r.Done? {
      BumpMoves(r.accounts, tx.from);
    }
  }

  function CountFrom(txs: seq<TxBlock>, sender: Address): nat {
    if txs == [] then 0 else (if txs[0].from == sender then 1 else 0) + CountFrom(txs[1..], sender)
  }

  // A 64-bit nonce behind that many transactions.
  function Risen(nonce: nat, count: nat): nat {
    (nonce + count) % U64
  }

  // Every nonce rises by the number of its transactions; who sent none has not lost anything.
  lemma {:induction false} ProcessAllSpares(c: Suite, a: Table, txs: seq<TxBlock>, xs: seq<Execution>, k: Address)
    requires |txs| == |xs| && NoNativeCall(xs) && ProcessAll(c, a, txs, xs).Done?
    ensures var b := ProcessAll(c, a, txs, xs).accounts;
      (k in a ==> k in b) && Nonce(b, k) == Risen(Nonce(a, k), CountFrom(txs, k))
      && (CountFrom(txs, k) == 0 ==> Balance(b, k) >= Balance(a, k))
    decreases |txs|
  {
    hide Process, Balance, Nonce;
    NonceWraps(a, k, CountFrom(if txs == [] then [] else txs[1..], k));
    if txs != [] {
      assert xs[0].native.NotNative?;
      ProcessSpares(c, a, txs[0], xs[0]);
      var next := Process(c, a, txs[0], xs[0]).accounts;
      ProcessAllSpares(c, next, txs[1..], xs[1..], k);
      assert Nonce(next, k) == if k == txs[0].from then (Nonce(a, k) + 1) % U64 else Nonce(a, k);
      assert k != txs[0].from ==> Balance(next, k) >= Balance(a, k);
    }
  }

  lemma NonceWraps(a: Table, k: Address, more: nat)
    ensures Nonce(a, k) % U64 == Nonce(a, k)
    ensures ((Nonce(a, k) + 1) % U64 + more) % U64 == (Nonce(a, k) + 1 + more) % U64
  {
    if Nonce(a, k) + 1 == U64 {
      assert (U64 + more) % U64 == more % U64;
    }
  }
}
