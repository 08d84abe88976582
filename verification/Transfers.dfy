/**
 What a processed transaction does to every account, whatever the transaction is:
 balances, nonces and code behind processTransaction of src/core/state.cpp, and the
 ledger of a whole block.
 */
module Transfers {
  import opened Words
  import opened Crypto
  import opened Tx
  import opened ContractAddress
  import opened Accounts

  // Where the value goes: the named account, or the address a creation derives.
  function Receiver(c: Suite, tx: TxBlock): Address {
    if tx.body.to == ZERO_ADDRESS then DeriveContractAddress(c, tx.body.nonce, tx.from) else tx.body.to
  }

  // The gas an EVM execution used can be charged once the value is paid.
  predicate GasPaid(c: Suite, a: Table, tx: TxBlock, e: EvmResult) {
    var value := tx.body.value;
    0 <= e.gasLeft <= tx.body.gasLimit && EvmFee(tx, e) < U256
    && EvmFee(tx, e) <= Balance(a, tx.from) - value + (if Receiver(c, tx) == tx.from then value else 0)
  }

  // A plain transfer or native call gets as far as the receiver.
  predicate Transferred(a: Table, tx: TxBlock) {
    Affordable(a, tx) && (tx.from == tx.body.to || Balance(a, tx.body.to) + tx.body.value < U256)
  }

  predicate NativeThrows(x: Execution) {
    x.native.Native? && x.native.threw
  }

  // The value is with the receiver in the end.
  predicate Arrives(c: Suite, a: Table, tx: TxBlock, x: Execution) {
    if IsEvm(a, tx.body.to) then GasPaid(c, a, tx, x.evm) && !x.evm.failed
    else Transferred(a, tx) && !(NativeThrows(x) && x.native.payable)
  }

  // What the catch block of a plain transfer or native call gives back: the value, twice for a payable call.
  function Returned(a: Table, tx: TxBlock, x: Execution): nat {
    if !Transferred(a, tx) then tx.body.value
    else if NativeThrows(x) then (if x.native.payable then 2 * tx.body.value else tx.body.value)
    else 0
  }

  function GasCost(t: TxBody): nat {
    t.gasLimit * t.maxFeePerGas
  }

  function Credited(c: Suite, a: Table, tx: TxBlock, x: Execution, k: Address): nat {
    (if Arrives(c, a, tx, x) && k == Receiver(c, tx) then tx.body.value else 0)
    + (if k == tx.from && !IsEvm(a, tx.body.to) then Returned(a, tx, x) else 0)
  }

  function Debited(c: Suite, a: Table, tx: TxBlock, x: Execution, k: Address): nat {
    var t := tx.body;
    if k != tx.from then 0
    else if IsEvm(a, t.to) then
      (if Arrives(c, a, tx, x) then t.value else 0) + (if GasPaid(c, a, tx, x.evm) then EvmFee(tx, x.evm) else 0)
    else if Affordable(a, tx) then t.value + GasCost(t)
    else 0
  }

  // A payable native call that succeeds has the last word on the balances it reports.
  predicate Reports(a: Table, tx: TxBlock, x: Execution, k: Address) {
    !IsEvm(a, tx.body.to) && Transferred(a, tx)
    && x.native.Native? && !x.native.threw && x.native.payable && k in x.native.balances
  }

  /* The EVM branch */

  lemma ReceiverIsRealTo(c: Suite, tx: TxBlock)
    ensures Receiver(c, tx) == RealTo(c, tx)
  {
  }

  lemma RunEvmExactly(c: Suite, a: Table, b: Table, tx: TxBlock, e: EvmResult)
    requires Paid(c, a, b, tx, 0)
    ensures RunEvm(b, tx, e).Done? <==> GasPaid(c, a, tx, e) && !e.failed
    ensures !RunEvm(b, tx, e).Broken?
    ensures Paid(c, a, RunEvm(b, tx, e).accounts, tx, if GasPaid(c, a, tx, e) then EvmFee(tx, e) else 0)
  {
    hide Credit, Debit, RealTo, Receiver;
    ReceiverIsRealTo(c, tx);
    RunEvmUnfolds(b, tx, e);
    hide RunEvm, EvmFee;
    if 0 <= e.gasLeft <= tx.body.gasLimit {
      DebitMoves(b, tx.from, EvmFee(tx, e));
    }
  }

  lemma RunEvmUnfolds(b: Table, tx: TxBlock, e: EvmResult)
    ensures var charged := Debit(b, tx.from, EvmFee(tx, e));
      RunEvm(b, tx, e)
      == if e.gasLeft < 0 || e.gasLeft > tx.body.gasLimit || EvmFee(tx, e) >= U256 then Threw(b)
         else if charged.Done? && e.failed then Threw(charged.accounts) else charged
  {
    hide Debit;
  }

  lemma RefundExactly(c: Suite, a: Table, b: Table, tx: TxBlock, fee: nat, k: Address)
    requires Paid(c, a, b, tx, fee) && RefundEvm(c, b, tx).Done?
    ensures Balance(RefundEvm(c, b, tx).accounts, k) == Balance(a, k) - if k == tx.from then fee else 0
  {
    hide Credit, Debit, RealTo;
    var to, value := RealTo(c, tx), tx.body.value;
    CreditMoves(b, tx.from, value);
    DebitMoves(Credit(b, tx.from, value).accounts, to, value);
  }

  lemma EvmBalances(c: Suite, a: Table, tx: TxBlock, x: Execution, k: Address)
    requires IsEvm(a, tx.body.to) && ProcessEvm(c, a, tx, x.evm).Done?
    ensures Balance(ProcessEvm(c, a, tx, x.evm).accounts, k)
         == Balance(a, k) + Credited(c, a, tx, x, k) - Debited(c, a, tx, x, k)
  {
    hide PayEvm, RunEvm, RefundEvm, RealTo, Receiver, TouchAll, StoreCode, GasPaid;
    ReceiverIsRealTo(c, tx);
    PayEvmEnds(c, a, tx);
    var paid, e := PayEvm(c, a, tx).accounts, x.evm;
    TouchAllMoves(paid, e.touched, tx.from);
    var b := TouchAll(paid, e.touched);
    RunEvmExactly(c, a, b, tx, e);
    assert GasPaid(c, a, tx, e) ==> 0 <= e.gasLeft <= tx.body.gasLimit by { GasInRange(c, a, tx, e); }
    var ran := RunEvm(b, tx, e);
    if ran.Done? {
      StoreCodeMoves(ran.accounts, e.code, tx.from);
    } else {
      RefundExactly(c, a, ran.accounts, tx, if GasPaid(c, a, tx, e) then EvmFee(tx, e) else 0, k);
    }
  }

  lemma GasInRange(c: Suite, a: Table, tx: TxBlock, e: EvmResult)
    ensures GasPaid(c, a, tx, e) ==> 0 <= e.gasLeft <= tx.body.gasLimit
  {
  }

  /* The branch of plain transfers and native calls */

  // The try block up to the native call, if any.
  lemma RunClassicExactly(a: Table, tx: TxBlock, k: Address)
    ensures var r, t := RunClassic(a, tx, NotNative), tx.body;
      !r.Broken? && (r.Done? <==> Transferred(a, tx))
      && Balance(r.accounts, k)
         == Balance(a, k) + (if Transferred(a, tx) && k == t.to then t.value else 0)
            - (if Affordable(a, tx) && k == tx.from then t.value + GasCost(t) else 0)
  {
    var t := tx.body;
    assert Balance(a, tx.from) < U256;
    CostIs(t);
    hide Credit, Debit, Cost, GasCost;
    if Cost(t).Ok? {
      DebitMoves(a, tx.from, Cost(t).value);
      CreditMoves(Debit(a, tx.from, Cost(t).value).accounts, t.to, t.value);
    }
  }

  lemma CostIs(t: TxBody)
    ensures !Cost(t).Undefined? && (Cost(t).Ok? ==> Cost(t).value == t.value + GasCost(t))
  {
  }

  // What the native call adds to it.
  lemma RunNativeExactly(a: Table, tx: TxBlock, n: NativeResult)
    ensures var plain, r := RunClassic(a, tx, NotNative), RunClassic(a, tx, n);
      r == if !plain.Done? || n.NotNative? then plain
           else if n.threw then Threw(plain.accounts)
           else Done(if n.payable then SetBalances(plain.accounts, n.balances) else plain.accounts)
  {
    hide Credit, Debit, SetBalances;
  }

  lemma SetBalancesAt(a: Table, balances: map<Address, Uint256>, k: Address)
    ensures Balance(SetBalances(a, balances), k) == if k in balances then balances[k] else Balance(a, k)
    ensures Nonce(SetBalances(a, balances), k) == Nonce(a, k)
    ensures HasCode(SetBalances(a, balances), k) == HasCode(a, k)
  {
  }

  lemma UndoExactly(a: Table, tx: TxBlock, k: Address)
    requires UndoTransfer(a, tx).Done?
    ensures Balance(UndoTransfer(a, tx).accounts, k)
         == Balance(a, k) + (if k == tx.from then tx.body.value else 0) - (if k == tx.body.to then tx.body.value else 0)
  {
    hide Credit, Debit;
    CreditMoves(a, tx.from, tx.body.value);
    DebitMoves(Credit(a, tx.from, tx.body.value).accounts, tx.body.to, tx.body.value);
  }

  lemma ClassicBalances(c: Suite, a: Table, tx: TxBlock, x: Execution, k: Address)
    requires !IsEvm(a, tx.body.to) && ProcessClassic(a, tx, x.native).Done?
    ensures Balance(ProcessClassic(a, tx, x.native).accounts, k)
         == if Reports(a, tx, x, k) then x.native.balances[k]
            else Balance(a, k) + Credited(c, a, tx, x, k) - Debited(c, a, tx, x, k)
  {
    hide Credit, Debit, RunClassic, Affordable, Transferred, SetBalances, UndoTransfer, GasCost;
    RunClassicExactly(a, tx, k);
    RunNativeExactly(a, tx, x.native);
    var plain, ran := RunClassic(a, tx, NotNative), RunClassic(a, tx, x.native);
    if ran.Done? {
      if x.native.Native? {
        SetBalancesAt(plain.accounts, x.native.balances, k);
      }
    } else if Paying(a, tx, x.native) {
      UndoExactly(ran.accounts, tx, k);
      CreditMoves(UndoTransfer(ran.accounts, tx).accounts, tx.from, tx.body.value);
    } else {
      CreditMoves(ran.accounts, tx.from, tx.body.value);
    }
  }

  /* The whole transaction */

  // Every balance behind any transaction that ends: what arrived or was given back is added, what the sender paid
  // is taken away, and a payable native call sets what it reports.
  lemma ProcessBalances(c: Suite, a: Table, tx: TxBlock, x: Execution, k: Address)
    requires Process(c, a, tx, x).Done?
    ensures Balance(Process(c, a, tx, x).accounts, k)
         == if Reports(a, tx, x, k) then x.native.balances[k]
            else Balance(a, k) + Credited(c, a, tx, x, k) - Debited(c, a, tx, x, k)
  {
    hide ProcessEvm, ProcessClassic, Bump, Touch, Receiver;
    var t := Touch(a, tx.body.to);
    TouchMoves(a, tx.body.to);
    TouchCode(a, tx.body.to);
    SameDecisions(c, a, t, tx, x, k);
    var b := if IsEvm(t, tx.body.to) then ProcessEvm(c, t, tx, x.evm) else ProcessClassic(t, tx, x.native);
    BumpMoves(b.accounts, tx.from);
    if IsEvm(t, tx.body.to) {
      EvmBalances(c, t, tx, x, k);
    } else {
      ClassicBalances(c, t, tx, x, k);
    }
  }

  lemma SameDecisions(c: Suite, a: Table, b: Table, tx: TxBlock, x: Execution, k: Address)
    requires IsEvm(a, tx.body.to) == IsEvm(b, tx.body.to) && forall j :: Balance(a, j) == Balance(b, j)
    ensures Credited(c, a, tx, x, k) == Credited(c, b, tx, x, k) && Debited(c, a, tx, x, k) == Debited(c, b, tx, x, k)
    ensures Reports(a, tx, x, k) == Reports(b, tx, x, k)
  {
    hide Receiver, Cost;
  }

  // The same for a transaction that passes the full check and calls no native contract: the sender pays value
  // and fee and the receiver gets the value; a failing call, or a value that does not fit the receiver, costs
  // the fee alone.
  lemma PassingBalances(c: Suite, a: Table, tx: TxBlock, x: Execution, k: Address)
    requires Passes(a, tx) && x.native.NotNative? && Process(c, a, tx, x).Done?
    ensures var t := tx.body;
      var arrives := if IsEvm(a, t.to) then 0 <= x.evm.gasLeft <= t.gasLimit && !x.evm.failed
                     else tx.from == t.to || Balance(a, t.to) + t.value < U256;
      Balance(Process(c, a, tx, x).accounts, k)
      == Balance(a, k) + (if arrives && k == Receiver(c, tx) then t.value else 0)
         - (if k == tx.from then (if arrives then t.value else 0) + Fee(a, tx, x) else 0)
  {
    hide Process, Receiver;
    ProcessBalances(c, a, tx, x, k);
    if 0 <= x.evm.gasLeft <= tx.body.gasLimit {
      FeeBound(tx, tx.body.gasLimit - x.evm.gasLeft);
    }
  }

  /* Nonces and code */

  ghost predicate Keeps(a: Table, b: Table) {
    forall k :: Nonce(b, k) == Nonce(a, k) && HasCode(b, k) == HasCode(a, k)
  }

  lemma MovesKeep(a: Table, k: Address, v: nat)
    ensures Keeps(a, Touch(a, k)) && Keeps(a, Credit(a, k, v).accounts) && Keeps(a, Debit(a, k, v).accounts)
  {
  }

  // The code that a successful EVM execution stores.
  predicate Stores(c: Suite, a: Table, tx: TxBlock, x: Execution, k: Address) {
    IsEvm(a, tx.body.to) && GasPaid(c, a, tx, x.evm) && !x.evm.failed && k in x.evm.code
  }

  lemma EvmCode(c: Suite, a: Table, tx: TxBlock, x: Execution, k: Address)
    requires IsEvm(a, tx.body.to) && ProcessEvm(c, a, tx, x.evm).Done?
    ensures var b := ProcessEvm(c, a, tx, x.evm).accounts;
      Nonce(b, k) == Nonce(a, k)
      && HasCode(b, k) == if Stores(c, a, tx, x, k) then x.evm.code[k] else HasCode(a, k)
  {
    hide Credit, Debit, RealTo, Receiver, TouchAll, StoreCode, GasPaid, Keeps, Paid;
    var e, value, to := x.evm, tx.body.value, RealTo(c, tx);
    PayEvmEnds(c, a, tx);
    var paid := PayEvm(c, a, tx).accounts;
    PayKeeps(c, a, tx);
    TouchAllMoves(paid, e.touched, tx.from);
    var b := TouchAll(paid, e.touched);
    assert Paid(c, a, b, tx, 0) by { PaidStays(c, a, paid, b, tx); }
    TouchAllKeeps(paid, e.touched);
    RunEvmExactly(c, a, b, tx, e);
    MovesKeep(b, tx.from, EvmFee(tx, e));
    var ran := RunEvm(b, tx, e);
    KeepsAt(a, paid, k);
    KeepsAt(paid, b, k);
    KeepsAt(b, ran.accounts, k);
    if ran.Done? {
      StoreCodeAt(ran.accounts, e.code, k);
    } else {
      MovesKeep(ran.accounts, tx.from, value);
      var refunded := Credit(ran.accounts, tx.from, value).accounts;
      MovesKeep(refunded, to, value);
      KeepsAt(ran.accounts, refunded, k);
      KeepsAt(refunded, Debit(refunded, to, value).accounts, k);
    }
  }

  lemma KeepsAt(a: Table, b: Table, k: Address)
    ensures Keeps(a, b) ==> Nonce(b, k) == Nonce(a, k) && HasCode(b, k) == HasCode(a, k)
  {
  }

  lemma PaidStays(c: Suite, a: Table, paid: Table, b: Table, tx: TxBlock)
    requires Paid(c, a, paid, tx, 0) && Moves(paid, b, tx.from, 0)
    ensures Paid(c, a, b, tx, 0)
  {
    hide RealTo;
  }

  lemma PayKeeps(c: Suite, a: Table, tx: TxBlock)
    ensures Keeps(a, PayEvm(c, a, tx).accounts)
  {
    hide Credit, Debit, RealTo;
    MovesKeep(a, RealTo(c, tx), tx.body.value);
    CreditMoves(a, RealTo(c, tx), tx.body.value);
    MovesKeep(Credit(a, RealTo(c, tx), tx.body.value).accounts, tx.from, tx.body.value);
  }

  lemma TouchAllKeeps(a: Table, touched: set<Address>)
    ensures Keeps(a, TouchAll(a, touched))
  {
  }

  lemma StoreCodeAt(a: Table, code: map<Address, bool>, k: Address)
    ensures Nonce(StoreCode(a, code), k) == Nonce(a, k)
    ensures HasCode(StoreCode(a, code), k) == if k in code then code[k] else HasCode(a, k)
  {
  }

  lemma ClassicKeeps(a: Table, tx: TxBlock, n: NativeResult, k: Address)
    requires ProcessClassic(a, tx, n).Done?
    ensures var b := ProcessClassic(a, tx, n).accounts;
      Nonce(b, k) == Nonce(a, k) && HasCode(b, k) == HasCode(a, k)
  {
    hide Credit, Debit, RunClassic, SetBalances, UndoTransfer, Nonce, HasCode;
    RunClassicKeeps(a, tx);
    RunNativeExactly(a, tx, n);
    var plain, ran := RunClassic(a, tx, NotNative), RunClassic(a, tx, n);
    KeepsAt(a, plain.accounts, k);
    if ran.Done? {
      if n.Native? {
        SetBalancesAt(plain.accounts, n.balances, k);
      }
    } else {
      UndoKeeps(plain.accounts, tx);
      var back := if Paying(a, tx, n) then UndoTransfer(plain.accounts, tx).accounts else plain.accounts;
      KeepsAt(plain.accounts, back, k);
      MovesKeep(back, tx.from, tx.body.value);
      KeepsAt(back, Credit(back, tx.from, tx.body.value).accounts, k);
    }
  }

  lemma RunClassicKeeps(a: Table, tx: TxBlock)
    ensures !RunClassic(a, tx, NotNative).Broken? && Keeps(a, RunClassic(a, tx, NotNative).accounts)
  {
    hide Credit, Debit;
    if Cost(tx.body).Ok? {
      DebitMoves(a, tx.from, Cost(tx.body).value);
      MovesKeep(a, tx.from, Cost(tx.body).value);
      var debited := Debit(a, tx.from, Cost(tx.body).value).accounts;
      CreditMoves(debited, tx.body.to, tx.body.value);
      MovesKeep(debited, tx.body.to, tx.body.value);
    }
  }

  lemma UndoKeeps(a: Table, tx: TxBlock)
    ensures !UndoTransfer(a, tx).Broken? && Keeps(a, UndoTransfer(a, tx).accounts)
  {
    hide Credit, Debit;
    CreditMoves(a, tx.from, tx.body.value);
    MovesKeep(a, tx.from, tx.body.value);
    var credited := Credit(a, tx.from, tx.body.value).accounts;
    DebitMoves(credited, tx.body.to, tx.body.value);
    MovesKeep(credited, tx.body.to, tx.body.value);
  }

  // Behind any transaction that ends the sender's nonce has risen by one and no other, and the code is what a
  // successful EVM execution stored or what it was.
  lemma ProcessNoncesAndCode(c: Suite, a: Table, tx: TxBlock, x: Execution, k: Address)
    requires Process(c, a, tx, x).Done?
    ensures var b := Process(c, a, tx, x).accounts;
      && Nonce(b, k) == (if k == tx.from then (Nonce(a, k) + 1) % U64 else Nonce(a, k))
      && HasCode(b, k) == if Stores(c, a, tx, x, k) then x.evm.code[k] else HasCode(a, k)
  {
    hide ProcessEvm, ProcessClassic, Touch, Bump, Receiver;
    var t := Touch(a, tx.body.to);
    TouchMoves(a, tx.body.to);
    TouchCode(a, tx.body.to);
    MovesKeep(a, tx.body.to, 0);
    KeepsAt(a, t, k);
    var b := if IsEvm(t, tx.body.to) then ProcessEvm(c, t, tx, x.evm) else ProcessClassic(t, tx, x.native);
    BumpMoves(b.accounts, tx.from);
    BumpCode(b.accounts, tx.from, k);
    if IsEvm(t, tx.body.to) {
      EvmCode(c, t, tx, x, k);
    } else {
      ClassicKeeps(t, tx, x.native, k);
    }
  }

  lemma BumpCode(a: Table, sender: Address, k: Address)
    ensures HasCode(Bump(a, sender), k) == HasCode(a, k)
  {
  }

  /* The ledger of a block */

  function Received(c: Suite, a: Table, txs: seq<TxBlock>, xs: seq<Execution>, k: Address): nat
    requires |txs| == |xs|
    decreases |txs|
  {
    if txs == [] then 0
    else
      var next := Process(c, a, txs[0], xs[0]);
      Credited(c, a, txs[0], xs[0], k) + if next.Done? then Received(c, next.accounts, txs[1..], xs[1..], k) else 0
  }

  function Spent(c: Suite, a: Table, txs: seq<TxBlock>, xs: seq<Execution>, k: Address): nat
    requires |txs| == |xs|
    decreases |txs|
  {
    if txs == [] then 0
    else
      var next := Process(c, a, txs[0], xs[0]);
      Debited(c, a, txs[0], xs[0], k) + if next.Done? then Spent(c, next.accounts, txs[1..], xs[1..], k) else 0
  }

  // No native call reports a balance of the account.
  predicate Unreported(xs: seq<Execution>, k: Address) {
    forall i :: 0 <= i < |xs| && xs[i].native.Native? ==> k !in xs[i].native.balances
  }

  // Behind a block every account holds what it held, plus what it received, minus what it spent.
  lemma {:induction false} BlockBalances(c: Suite, a: Table, txs: seq<TxBlock>, xs: seq<Execution>, k: Address)
    requires |txs| == |xs| && ProcessAll(c, a, txs, xs).Done? && Unreported(xs, k)
    ensures Balance(ProcessAll(c, a, txs, xs).accounts, k)
         == Balance(a, k) + Received(c, a, txs, xs, k) - Spent(c, a, txs, xs, k)
    decreases |txs|
  {
    hide Process, Credited, Debited, Balance;
    if txs != [] {
      ProcessBalances(c, a, txs[0], xs[0], k);
      BlockBalances(c, Process(c, a, txs[0], xs[0]).accounts, txs[1..], xs[1..], k);
    }
  }
}
