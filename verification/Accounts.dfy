/**
 The account table and the processing of one transaction on it: src/core/state.cpp.
 */
module Accounts {
  import opened Outcomes
  import opened Words
  import opened Crypto
  import opened Tx
  import opened Sums
  import opened ContractAddress

  type Uint256 = n: int | 0 <= n < U256
  type Uint64 = n: int | 0 <= n < U64

  // The current balance and nonce, and whether there is code.
  datatype Account = Account(balance: Uint256, nonce: Uint64, hasCode: bool)

  type Table = map<Address, Account>

  const EMPTY_ACCOUNT := Account(0, 0, false)

  // How a step ends: normally, with an exception that leaves the table as it then is, or undefined.
  datatype After = Done(accounts: Table) | Threw(accounts: Table) | Broken {
    predicate IsFailure() {
      !Done?
    }

    function PropagateFailure(): After
      requires !Done?
    {
      this
    }

    function Extract(): Table
      requires Done?
    {
      accounts
    }
  }

  /* What validation asks of a transaction */

  datatype TxInvalid = NotInvalid | InvalidNonce | InvalidBalance

  // value + gasLimit * maxFee in checked 256-bit arithmetic.
  function Cost(t: TxBody): Outcome<nat> {
    if t.gasLimit * t.maxFeePerGas >= U256 || t.value + t.gasLimit * t.maxFeePerGas >= U256 then Throws
    else Ok(t.value + t.gasLimit * t.maxFeePerGas)
  }

  // validateTransactionInternal without the mempool.
  function FullCheck(a: Table, tx: TxBlock): Outcome<TxInvalid> {
    if tx.from !in a then Ok(InvalidBalance)
    else
      var cost :- Cost(tx.body);
      if cost > a[tx.from].balance then Ok(InvalidBalance)
      else if a[tx.from].nonce != tx.body.nonce then Ok(InvalidNonce)
      else Ok(NotInvalid)
  }

  predicate Passes(a: Table, tx: TxBlock) {
    FullCheck(a, tx) == Ok(NotInvalid)
  }

  /* Checked arithmetic on balances */

  // accounts[k], which inserts an empty account.
  function Touch(a: Table, k: Address): Table {
    if k in a then a else a[k := EMPTY_ACCOUNT]
  }

  function Credit(a: Table, k: Address, v: nat): After {
    var t := Touch(a, k);
    if t[k].balance + v >= U256 then Threw(t) else Done(t[k := t[k].(balance := t[k].balance + v)])
  }

  function Debit(a: Table, k: Address, v: nat): After {
    var t := Touch(a, k);
    if t[k].balance < v then Threw(t) else Done(t[k := t[k].(balance := t[k].balance - v)])
  }

  /* One transaction */

  // What the EVM reports: a failing status (or a raised shouldRevert), the gas left, the accounts the host
  // calls inserted, and the code they stored (true for code that is not empty).
  datatype EvmResult = EvmResult(failed: bool, gasLeft: int, touched: set<Address>, code: map<Address, bool>)

  // What a native C++ contract does, if the receiver is one.
  datatype NativeResult = NotNative | Native(payable: bool, threw: bool, balances: map<Address, Uint256>)

  datatype Execution = Execution(evm: EvmResult, native: NativeResult)

  predicate IsEvm(a: Table, to: Address) {
    to == ZERO_ADDRESS || (to in a && a[to].hasCode)
  }

  function RealTo(c: Suite, tx: TxBlock): Address {
    if tx.body.to == ZERO_ADDRESS then DeriveContractAddress(c, tx.body.nonce, tx.from) else tx.body.to
  }

  function TouchAll(a: Table, touched: set<Address>): Table {
    a + map k | k in touched && k !in a :: EMPTY_ACCOUNT
  }

  function StoreCode(a: Table, code: map<Address, bool>): Table {
    a + map k | k in code :: (if k in a then a[k] else EMPTY_ACCOUNT).(hasCode := code[k])
  }

  function SetBalances(a: Table, balances: map<Address, Uint256>): Table {
    a + map k | k in balances :: (if k in a then a[k] else EMPTY_ACCOUNT).(balance := balances[k])
  }

  // The try block of an EVM call, behind the execution.
  function RunEvm(a: Table, tx: TxBlock, e: EvmResult): After {
    if e.gasLeft < 0 || e.gasLeft > tx.body.gasLimit then Threw(a)
    else
      var fee := (tx.body.gasLimit - e.gasLeft) * tx.body.maxFeePerGas;
      if fee >= U256 then Threw(a)
      else
        var charged :- Debit(a, tx.from, fee);
        if e.failed then Threw(charged) else Done(charged)
  }

  function PayEvm(c: Suite, a: Table, tx: TxBlock): After {
    if tx.body.value == 0 then Done(a)
    else
      var credited :- Credit(a, RealTo(c, tx), tx.body.value);
      Debit(credited, tx.from, tx.body.value)
  }

  function RefundEvm(c: Suite, a: Table, tx: TxBlock): After {
    var refunded :- Credit(a, tx.from, tx.body.value);
    Debit(refunded, RealTo(c, tx), tx.body.value)
  }

  function ProcessEvm(c: Suite, a: Table, tx: TxBlock, e: EvmResult): After {
    var paid :- PayEvm(c, a, tx);
    var ran := RunEvm(TouchAll(paid, e.touched), tx, e);
    match ran
    case Done(b) => Done(StoreCode(b, e.code))
    case Threw(b) => RefundEvm(c, b, tx)
    case Broken => Broken
  }

  // The try block of a plain transfer or native call.
  function RunClassic(a: Table, tx: TxBlock, n: NativeResult): After {
    var t := tx.body;
    if Cost(t).Ok? then
      var debited :- Debit(a, tx.from, Cost(t).value);
      var credited :- Credit(debited, t.to, t.value);
      if n.NotNative? then Done(credited)
      else if n.threw then Threw(credited)
      else Done(if n.payable then SetBalances(credited, n.balances) else credited)
    else Threw(a)
  }

  // Whether processingPayable_ is set when the try block throws.
  function Paying(a: Table, tx: TxBlock, n: NativeResult): bool {
    n.Native? && n.payable && n.threw && RunClassic(a, tx, NotNative).Done?
  }

  function ProcessClassic(a: Table, tx: TxBlock, n: NativeResult): After {
    var ran := RunClassic(a, tx, n);
    match ran
    case Done(b) => Done(b)
    case Broken => Broken
    case Threw(b) =>
      var back :- if Paying(a, tx, n) then UndoTransfer(b, tx) else Done(b);
      Credit(back, tx.from, tx.body.value)
  }

  function UndoTransfer(a: Table, tx: TxBlock): After {
    var credited :- Credit(a, tx.from, tx.body.value);
    Debit(credited, tx.body.to, tx.body.value)
  }

  // processTransaction: the receiver is inserted, a missing sender is dereferenced.
  function Process(c: Suite, accounts: Table, tx: TxBlock, x: Execution): After {
    var a := Touch(accounts, tx.body.to);
    if tx.from !in a then Broken
    else
      var b :- if IsEvm(a, tx.body.to) then ProcessEvm(c, a, tx, x.evm) else ProcessClassic(a, tx, x.native);
      Done(Bump(b, tx.from))
  }

  function Bump(a: Table, k: Address): Table {
    var t := Touch(a, k);
    t[k := t[k].(nonce := (t[k].nonce + 1) % U64)]
  }

  // The transactions of a block, in order.
  function ProcessAll(c: Suite, accounts: Table, txs: seq<TxBlock>, xs: seq<Execution>): After
    requires |txs| == |xs|
    decreases |txs|
  {
    if txs == [] then Done(accounts)
    else
      var next :- Process(c, accounts, txs[0], xs[0]);
      ProcessAll(c, next, txs[1..], xs[1..])
  }

  /* Totals */

  function Balances(a: Table): map<Address, nat> {
    map k | k in a :: a[k].balance
  }

  ghost function Total(a: Table): nat {
    Sum(Balances(a))
  }

  function Balance(a: Table, k: Address): nat {
    if k in a then a[k].balance else 0
  }

  function Nonce(a: Table, k: Address): nat {
    if k in a then a[k].nonce else 0
  }

  predicate HasCode(a: Table, k: Address) {
    k in a && a[k].hasCode
  }

  // What a transaction costs its sender beyond the value it moves.
  function EvmFee(tx: TxBlock, e: EvmResult): nat {
    if 0 <= e.gasLeft <= tx.body.gasLimit then (tx.body.gasLimit - e.gasLeft) * tx.body.maxFeePerGas else 0
  }

  function Fee(accounts: Table, tx: TxBlock, x: Execution): nat {
    if IsEvm(accounts, tx.body.to) then EvmFee(tx, x.evm) else tx.body.gasLimit * tx.body.maxFeePerGas
  }

  function Fees(c: Suite, accounts: Table, txs: seq<TxBlock>, xs: seq<Execution>): nat
    requires |txs| == |xs|
    decreases |txs|
  {
    if txs == [] then 0
    else
      var next := Process(c, accounts, txs[0], xs[0]);
      Fee(accounts, txs[0], xs[0]) + if next.Done? then Fees(c, next.accounts, txs[1..], xs[1..]) else 0
  }

  /* How each step moves balances */

  // b is a with d added to the balance of k; nonces stay and no account disappears.
  ghost predicate Moves(a: Table, b: Table, k: Address, d: int) {
    a.Keys <= b.Keys && Total(b) == Total(a) + d
    && (forall j :: Nonce(b, j) == Nonce(a, j))
    && forall j :: Balance(b, j) == Balance(a, j) + if j == k then d else 0
  }

  lemma TouchMoves(a: Table, k: Address)
    ensures k in Touch(a, k) && Moves(a, Touch(a, k), k, 0)
  {
    if k !in a {
      assert Balances(Touch(a, k)) == Balances(a)[k := 0];
      SumUpdate(Balances(a), k, 0);
    }
  }

  lemma BalanceMoves(a: Table, k: Address, v: nat)
    requires k in a && v < U256
    ensures Moves(a, a[k := a[k].(balance := v)], k, v - a[k].balance)
  {
    assert Balances(a[k := a[k].(balance := v)]) == Balances(a)[k := v];
    SumUpdate(Balances(a), k, v);
  }

  lemma CreditMoves(a: Table, k: Address, v: nat)
    ensures Credit(a, k, v).Threw? <==> Balance(a, k) + v >= U256
    ensures !Credit(a, k, v).Broken? && Moves(a, Credit(a, k, v).accounts, k,
              if Credit(a, k, v).Done? then v else 0)
  {
    TouchMoves(a, k);
    if Balance(a, k) + v < U256 {
      BalanceMoves(Touch(a, k), k, Balance(a, k) + v);
    }
  }

  lemma DebitMoves(a: Table, k: Address, v: nat)
    ensures Debit(a, k, v).Threw? <==> Balance(a, k) < v
    ensures !Debit(a, k, v).Broken? && Moves(a, Debit(a, k, v).accounts, k,
              if Debit(a, k, v).Done? then 0 - v else 0)
  {
    TouchMoves(a, k);
    if Balance(a, k) >= v {
      BalanceMoves(Touch(a, k), k, Balance(a, k) - v);
    }
  }

  lemma TouchAllMoves(a: Table, touched: set<Address>, k: Address)
    ensures Moves(a, TouchAll(a, touched), k, 0)
  {
    SumOfExtended(Balances(a), Balances(TouchAll(a, touched)));
  }

  lemma StoreCodeMoves(a: Table, code: map<Address, bool>, k: Address)
    ensures Moves(a, StoreCode(a, code), k, 0)
  {
    SumOfExtended(Balances(a), Balances(StoreCode(a, code)));
  }

  lemma BumpMoves(a: Table, k: Address)
    ensures Total(Bump(a, k)) == Total(a) && a.Keys <= Bump(a, k).Keys
    ensures forall j :: Balance(Bump(a, k), j) == Balance(a, j)
    ensures forall j :: Nonce(Bump(a, k), j) == if j == k then (Nonce(a, j) + 1) % U64 else Nonce(a, j)
  {
    TouchMoves(a, k);
    assert Balances(Bump(a, k)) == Balances(Touch(a, k));
  }

  /* A transaction that passes the full check */

  // Nobody but the sender loses, nonces stay, and the total falls by the fee.
  ghost predicate Charged(a: Table, b: Table, sender: Address, fee: nat) {
    a.Keys <= b.Keys && Total(b) == Total(a) - fee
    && (forall j :: Nonce(b, j) == Nonce(a, j))
    && forall j :: j != sender ==> Balance(b, j) >= Balance(a, j)
  }

  lemma FeeBound(tx: TxBlock, gas: nat)
    requires gas <= tx.body.gasLimit
    ensures gas * tx.body.maxFeePerGas <= tx.body.gasLimit * tx.body.maxFeePerGas
  {
  }

  lemma ClassicCharges(a: Table, tx: TxBlock)
    requires Passes(a, tx)
    ensures ProcessClassic(a, tx, NotNative).Done?
    ensures Charged(a, ProcessClassic(a, tx, NotNative).accounts, tx.from, tx.body.gasLimit * tx.body.maxFeePerGas)
  {
    hide Credit, Debit;
    var t := tx.body;
    DebitMoves(a, tx.from, Cost(t).value);
    var debited := Debit(a, tx.from, Cost(t).value).accounts;
    CreditMoves(debited, t.to, t.value);
    var credited := Credit(debited, t.to, t.value);
    if credited.Threw? {
      CreditMoves(credited.accounts, tx.from, t.value);
    }
  }

  // The credit of an EVM call or creation, which stands outside the try block, does not fit 256 bits.
  predicate Overflows(c: Suite, a: Table, tx: TxBlock) {
    IsEvm(a, tx.body.to) && tx.body.value > 0 && Balance(a, RealTo(c, tx)) + tx.body.value >= U256
  }

  // The payment of an EVM call, which stands outside the try block, overflows or underflows.
  predicate EvmHalts(c: Suite, a: Table, tx: TxBlock) {
    tx.body.value > 0
    && (Balance(a, RealTo(c, tx)) + tx.body.value >= U256
        || (RealTo(c, tx) != tx.from && Balance(a, tx.from) < tx.body.value))
  }

  // The value is with the receiver: what the other lemmas need of the table between payment and outcome.
  lemma PayEvmEnds(c: Suite, a: Table, tx: TxBlock)
    ensures !PayEvm(c, a, tx).Broken?
    ensures PayEvm(c, a, tx).Threw? <==> EvmHalts(c, a, tx)
    ensures PayEvm(c, a, tx).Done? ==> Paid(c, a, PayEvm(c, a, tx).accounts, tx, 0)
  {
    hide Credit, Debit, RealTo;
    var to, value := RealTo(c, tx), tx.body.value;
    if value > 0 {
      CreditMoves(a, to, value);
      DebitMoves(Credit(a, to, value).accounts, tx.from, value);
    }
  }

  // b is a with the value moved to the receiver and a fee charged.
  ghost predicate Paid(c: Suite, a: Table, b: Table, tx: TxBlock, fee: int) {
    var to, value := RealTo(c, tx), tx.body.value;
    a.Keys <= b.Keys && Total(b) == Total(a) - fee
    && (forall j :: Nonce(b, j) == Nonce(a, j))
    && forall j :: Balance(b, j)
                == Balance(a, j) + (if j == to then value else 0) - (if j == tx.from then value + fee else 0)
  }

  lemma RunEvmMoves(c: Suite, a: Table, b: Table, tx: TxBlock, e: EvmResult)
    requires Passes(a, tx) && Paid(c, a, b, tx, 0)
    ensures !RunEvm(b, tx, e).Broken?
    ensures Paid(c, a, RunEvm(b, tx, e).accounts, tx, EvmFee(tx, e))
    ensures e.failed ==> RunEvm(b, tx, e).Threw?
  {
    hide Credit, Debit, RealTo;
    if 0 <= e.gasLeft <= tx.body.gasLimit {
      var fee := EvmFee(tx, e);
      FeeBound(tx, tx.body.gasLimit - e.gasLeft);
      DebitMoves(b, tx.from, fee);
    }
  }

  lemma RefundEvmMoves(c: Suite, a: Table, b: Table, tx: TxBlock, fee: nat)
    requires Paid(c, a, b, tx, fee)
    requires tx.body.value > 0 ==> Balance(a, RealTo(c, tx)) + tx.body.value < U256
    ensures RefundEvm(c, b, tx).Done?
    ensures Charged(a, RefundEvm(c, b, tx).accounts, tx.from, fee)
  {
    hide Credit, Debit, RealTo;
    var to, value := RealTo(c, tx), tx.body.value;
    CreditMoves(b, tx.from, value);
    DebitMoves(Credit(b, tx.from, value).accounts, to, value);
  }

  lemma EvmCharges(c: Suite, a: Table, tx: TxBlock, e: EvmResult)
    requires Passes(a, tx) && IsEvm(a, tx.body.to)
    ensures !ProcessEvm(c, a, tx, e).Broken?
    ensures ProcessEvm(c, a, tx, e).Threw? <==> Overflows(c, a, tx)
    ensures ProcessEvm(c, a, tx, e).Done? ==>
              Charged(a, ProcessEvm(c, a, tx, e).accounts, tx.from, EvmFee(tx, e))
  {
    hide PayEvm, RunEvm, RefundEvm, RealTo, TouchAll, StoreCode, EvmFee;
    PayEvmEnds(c, a, tx);
    if PayEvm(c, a, tx).Done? {
      var paid := PayEvm(c, a, tx).accounts;
      TouchAllMoves(paid, e.touched, tx.from);
      var b := TouchAll(paid, e.touched);
      RunEvmMoves(c, a, b, tx, e);
      var ran := RunEvm(b, tx, e);
      if ran.Done? {
        StoreCodeMoves(ran.accounts, e.code, tx.from);
      } else {
        RefundEvmMoves(c, a, ran.accounts, tx, EvmFee(tx, e));
      }
    }
  }

  // One transaction that passes the full check: it fails only where an EVM-bound credit overflows, and
  // otherwise charges exactly its fee, bumps the sender's nonce and harms nobody else.
  lemma ProcessCharges(c: Suite, a: Table, tx: TxBlock, x: Execution)
    requires Passes(a, tx) && x.native.NotNative?
    ensures !Process(c, a, tx, x).Broken?
    ensures Process(c, a, tx, x).Threw? <==> Overflows(c, a, tx)
    ensures Process(c, a, tx, x).Done? ==>
      var b := Process(c, a, tx, x).accounts;
      a.Keys <= b.Keys && Total(b) == Total(a) - Fee(a, tx, x)
      && (forall j :: Nonce(b, j) == if j == tx.from then (Nonce(a, j) + 1) % U64 else Nonce(a, j))
      && forall j :: j != tx.from ==> Balance(b, j) >= Balance(a, j)
  {
    var t := Touch(a, tx.body.to);
    TouchMoves(a, tx.body.to);
    hide ProcessEvm, ProcessClassic, Touch, Bump, RealTo;
    assert IsEvm(t, tx.body.to) == IsEvm(a, tx.body.to) by { TouchCode(a, tx.body.to); }
    var b := if IsEvm(t, tx.body.to) then ProcessEvm(c, t, tx, x.evm) else ProcessClassic(t, tx, x.native);
    assert Passes(t, tx) by { PassesMore(a, t, tx); }
    if IsEvm(t, tx.body.to) {
      EvmCharges(c, t, tx, x.evm);
    } else {
      ClassicCharges(t, tx);
    }
    if b.Done? {
      BumpMoves(b.accounts, tx.from);
    }
  }

  lemma TouchCode(a: Table, k: Address)
    ensures IsEvm(Touch(a, k), k) == IsEvm(a, k)
  {
  }

  // Passing is monotone in the table around the sender.
  lemma PassesMore(a: Table, b: Table, tx: TxBlock)
    requires Passes(a, tx) && a.Keys <= b.Keys
    requires Balance(b, tx.from) >= Balance(a, tx.from) && Nonce(b, tx.from) == Nonce(a, tx.from)
    ensures Passes(b, tx)
  {
  }

  /* A block validated against the state before it */

  predicate DistinctSenders(txs: seq<TxBlock>) {
    forall i, j :: 0 <= i < j < |txs| ==> txs[i].from != txs[j].from
  }

  predicate NoNativeCall(xs: seq<Execution>) {
    forall i :: 0 <= i < |xs| ==> xs[i].native.NotNative?
  }

  predicate AllPass(a: Table, txs: seq<TxBlock>) {
    forall i :: 0 <= i < |txs| ==> Passes(a, txs[i])
  }

  // No sender pays itself by way of the EVM.
  predicate NotSelf(c: Suite, txs: seq<TxBlock>) {
    forall i :: 0 <= i < |txs| ==> RealTo(c, txs[i]) != txs[i].from
  }

  // The senders' nonces rise by one, all others stay.
  ghost predicate NoncesRise(a: Table, b: Table, txs: seq<TxBlock>) {
    (forall i :: 0 <= i < |txs| ==> Nonce(b, txs[i].from) == (Nonce(a, txs[i].from) + 1) % U64)
    && forall k :: (forall i :: 0 <= i < |txs| ==> txs[i].from != k) ==> Nonce(b, k) == Nonce(a, k)
  }

  // No credit of an EVM-bound transaction overflows when its turn comes.
  predicate NeverOverflows(c: Suite, a: Table, txs: seq<TxBlock>, xs: seq<Execution>)
    requires |txs| == |xs|
    decreases |txs|
  {
    txs == []
    || (!Overflows(c, a, txs[0])
        && var next := Process(c, a, txs[0], xs[0]);
           next.Done? ==> NeverOverflows(c, next.accounts, txs[1..], xs[1..]))
  }

  // Pre-state validation suffices: with distinct senders and no native call, a block whose transactions
  // all pass the full check on the table before it is processed to the end, exactly unless the credit of
  // an EVM-bound transaction overflows (impossible below a total of 2^256 without a payment to oneself);
  // every sender's nonce rises by one, the total falls by the fees.
  lemma {:induction false} PreStateSuffices(c: Suite, a: Table, txs: seq<TxBlock>, xs: seq<Execution>)
    requires |txs| == |xs| && DistinctSenders(txs) && NoNativeCall(xs) && AllPass(a, txs)
    ensures !ProcessAll(c, a, txs, xs).Broken?
    ensures ProcessAll(c, a, txs, xs).Done? <==> NeverOverflows(c, a, txs, xs)
    ensures Total(a) < U256 && NotSelf(c, txs) ==> ProcessAll(c, a, txs, xs).Done?
    ensures ProcessAll(c, a, txs, xs).Done? ==>
      var b := ProcessAll(c, a, txs, xs).accounts;
      NoncesRise(a, b, txs) && Total(b) == Total(a) - Fees(c, a, txs, xs)
    decreases |txs|
  {
    if txs != [] {
      var tx, x := txs[0], xs[0];
      ProcessCharges(c, a, tx, x);
      var next := Process(c, a, tx, x);
      if Total(a) < U256 && NotSelf(c, txs) {
        assert RealTo(c, tx) != tx.from;
        NoOverflow(c, a, tx);
      }
      hide Process, Fee, Passes, Overflows, RealTo;
      if next.Done? {
        var rest, more := txs[1..], xs[1..];
        assert NotSelf(c, txs) ==> NotSelf(c, rest);
        forall i | 0 <= i < |rest| ensures Passes(next.accounts, rest[i]) {
          assert rest[i] == txs[i + 1] && rest[i].from != tx.from;
          PassesMore(a, next.accounts, rest[i]);
        }
        PreStateSuffices(c, next.accounts, rest, more);
        if ProcessAll(c, a, txs, xs).Done? {
          NoncesStep(a, next.accounts, ProcessAll(c, a, txs, xs).accounts, txs);
        }
      }
    }
  }

  lemma NoOverflow(c: Suite, a: Table, tx: TxBlock)
    requires Total(a) < U256 && Passes(a, tx) && RealTo(c, tx) != tx.from
    ensures !Overflows(c, a, tx)
  {
    var to := RealTo(c, tx);
    SumAtLeast(Balances(a), to);
    assert Get(Balances(a), to) == Balance(a, to);
    SumAtLeastTwo(Balances(a), to, tx.from);
  }

  lemma NoncesStep(a: Table, b: Table, z: Table, txs: seq<TxBlock>)
    requires txs != [] && DistinctSenders(txs)
    requires forall j :: Nonce(b, j) == if j == txs[0].from then (Nonce(a, j) + 1) % U64 else Nonce(a, j)
    requires NoncesRise(b, z, txs[1..])
    ensures NoncesRise(a, z, txs)
  {
    var rest := txs[1..];
    forall i | 0 <= i < |txs| ensures Nonce(z, txs[i].from) == (Nonce(a, txs[i].from) + 1) % U64 {
      if i > 0 {
        assert rest[i - 1] == txs[i];
      }
    }
    forall k | forall i :: 0 <= i < |txs| ==> txs[i].from != k ensures Nonce(z, k) == Nonce(a, k) {
      assert txs[0].from != k;
      assert forall i :: 0 <= i < |rest| ==> rest[i].from != k;
    }
  }

  // Why the senders must be distinct: a plain transfer that the sender cannot afford any more is caught and
  // refunds a value that was never debited, so the total grows.
  lemma UnaffordableMints(c: Suite, a: Table, tx: TxBlock, x: Execution)
    requires tx.from in a && x.native.NotNative? && !IsEvm(a, tx.body.to)
    requires !Affordable(a, tx)
    ensures Process(c, a, tx, x).Done? <==> Balance(a, tx.from) + tx.body.value < U256
    ensures Process(c, a, tx, x).Done? ==>
              Total(Process(c, a, tx, x).accounts) == Total(a) + tx.body.value
  {
    hide Credit, Debit, Touch, Bump;
    var t := Touch(a, tx.body.to);
    TouchMoves(a, tx.body.to);
    TouchCode(a, tx.body.to);
    if Cost(tx.body).Ok? {
      DebitMoves(t, tx.from, Cost(tx.body).value);
    }
    var debited := if Cost(tx.body).Ok? then Debit(t, tx.from, Cost(tx.body).value).accounts else t;
    CreditMoves(debited, tx.from, tx.body.value);
    var credited := Credit(debited, tx.from, tx.body.value);
    if credited.Done? {
      BumpMoves(credited.accounts, tx.from);
    }
  }

  // value + gasLimit * maxFee neither overflows nor exceeds the sender's balance.
  predicate Affordable(a: Table, tx: TxBlock) {
    Cost(tx.body).Ok? && Cost(tx.body).value <= Balance(a, tx.from)
  }

  // A plain transfer ends with exactly its fee gone from the total if and only if the sender can afford it; a
  // nonce that does not match makes no difference.
  lemma TransferConservesExactly(c: Suite, a: Table, tx: TxBlock, x: Execution)
    requires tx.from in a && x.native.NotNative? && !IsEvm(a, tx.body.to)
    ensures Process(c, a, tx, x).Done?
            && Total(Process(c, a, tx, x).accounts) == Total(a) - tx.body.gasLimit * tx.body.maxFeePerGas
       <==> Affordable(a, tx)
  {
    if Affordable(a, tx) {
      var matched := tx.(body := tx.body.(nonce := Nonce(a, tx.from)));
      ProcessCharges(c, a, matched, x);
      SameButNonce(c, a, tx, matched, x);
    } else {
      UnaffordableMints(c, a, tx, x);
    }
  }

  // A plain transfer does not look at its own nonce.
  lemma SameButNonce(c: Suite, a: Table, tx: TxBlock, other: TxBlock, x: Execution)
    requires !IsEvm(a, tx.body.to) && x.native.NotNative? && other == tx.(body := tx.body.(nonce := other.body.nonce))
    ensures Process(c, a, tx, x) == Process(c, a, other, x) && Fee(a, tx, x) == Fee(a, other, x)
  {
    hide Credit, Debit, Bump;
    TouchCode(a, tx.body.to);
  }

  /* How one transaction ends, whatever it is */

  // The guard of processTransaction: what a caller can look up in the table before the call, with the report of
  // the native contract where one is called.
  predicate Halts(c: Suite, a: Table, tx: TxBlock, x: Execution) {
    var t, balance := tx.body, Balance(a, tx.from);
    if tx.from !in a && tx.from != t.to then true
    else if IsEvm(a, t.to) then EvmHalts(c, a, tx)
    else if !Affordable(a, tx) then balance + t.value >= U256
    else if !CreditFits(a, tx) then false
    else
      x.native.Native? && x.native.threw && (x.native.payable || tx.from == t.to)
      && balance - t.gasLimit * t.maxFeePerGas + t.value >= U256
  }

  // Whatever the gas, a fee is charged or none.
  lemma RunEvmEnds(c: Suite, a: Table, b: Table, tx: TxBlock, e: EvmResult) returns (fee: nat)
    requires Paid(c, a, b, tx, 0)
    ensures !RunEvm(b, tx, e).Broken?
    ensures Paid(c, a, RunEvm(b, tx, e).accounts, tx, fee)
  {
    hide Credit, Debit, RealTo;
    fee := 0;
    if 0 <= e.gasLeft <= tx.body.gasLimit {
      var asked := EvmFee(tx, e);
      DebitMoves(b, tx.from, asked);
      if asked < U256 && asked <= Balance(b, tx.from) {
        fee := asked;
      }
    }
  }

  lemma EvmEndsExactly(c: Suite, a: Table, tx: TxBlock, e: EvmResult)
    ensures ProcessEvm(c, a, tx, e).Done? <==> !EvmHalts(c, a, tx)
    ensures !ProcessEvm(c, a, tx, e).Broken?
  {
    hide PayEvm, RunEvm, RefundEvm, RealTo, TouchAll, StoreCode;
    PayEvmEnds(c, a, tx);
    if PayEvm(c, a, tx).Done? {
      var paid := PayEvm(c, a, tx).accounts;
      TouchAllMoves(paid, e.touched, tx.from);
      var b := TouchAll(paid, e.touched);
      var fee := RunEvmEnds(c, a, b, tx, e);
      var ran := RunEvm(b, tx, e);
      if ran.Threw? {
        RefundEvmMoves(c, a, ran.accounts, tx, fee);
      }
    }
  }

  predicate CreditFits(a: Table, tx: TxBlock) {
    tx.from == tx.body.to || Balance(a, tx.body.to) + tx.body.value < U256
  }

  // Where the try block of a transfer or native call stops, and with which balances.
  lemma RunClassicStops(a: Table, tx: TxBlock, n: NativeResult)
    ensures var r, cost := RunClassic(a, tx, n), tx.body.value + tx.body.gasLimit * tx.body.maxFeePerGas;
      !r.Broken?
      && (!Affordable(a, tx) ==> r.Threw? && Balance(r.accounts, tx.from) == Balance(a, tx.from))
      && (Affordable(a, tx) && !CreditFits(a, tx) ==>
            r.Threw? && Balance(r.accounts, tx.from) == Balance(a, tx.from) - cost)
      && (Affordable(a, tx) && CreditFits(a, tx) ==>
            (r.Threw? <==> n.Native? && n.threw)
            && (r.Threw? ==>
                  Balance(r.accounts, tx.from)
                  == Balance(a, tx.from) - cost + (if tx.from == tx.body.to then tx.body.value else 0)
                  && Balance(r.accounts, tx.body.to) >= tx.body.value))
    ensures Paying(a, tx, n) <==> n.Native? && n.payable && n.threw && Affordable(a, tx) && CreditFits(a, tx)
  {
    hide Credit, Debit, SetBalances;
    var t := tx.body;
    assert Balance(a, tx.from) < U256;
    if Cost(t).Ok? {
      DebitMoves(a, tx.from, Cost(t).value);
      CreditMoves(Debit(a, tx.from, Cost(t).value).accounts, t.to, t.value);
    }
  }

  // Undoing the transfer of a payable call, and the refund of the value on top of it.
  lemma UndoEnds(b: Table, tx: TxBlock)
    requires Balance(b, tx.body.to) >= tx.body.value
    ensures UndoTransfer(b, tx).Done? <==> Balance(b, tx.from) + tx.body.value < U256
    ensures !UndoTransfer(b, tx).Broken?
    ensures UndoTransfer(b, tx).Done? ==>
              Balance(UndoTransfer(b, tx).accounts, tx.from)
              == Balance(b, tx.from) + if tx.from == tx.body.to then 0 else tx.body.value
  {
    hide Credit, Debit;
    CreditMoves(b, tx.from, tx.body.value);
    DebitMoves(Credit(b, tx.from, tx.body.value).accounts, tx.body.to, tx.body.value);
  }

  lemma ClassicEndsExactly(a: Table, tx: TxBlock, n: NativeResult)
    ensures ProcessClassic(a, tx, n).Done? <==>
      if !Affordable(a, tx) then Balance(a, tx.from) + tx.body.value < U256
      else !CreditFits(a, tx)
           || !(n.Native? && n.threw && (n.payable || tx.from == tx.body.to)
                && Balance(a, tx.from) - tx.body.gasLimit * tx.body.maxFeePerGas + tx.body.value >= U256)
    ensures !ProcessClassic(a, tx, n).Broken?
  {
    hide Credit, RunClassic, Paying, UndoTransfer;
    assert Balance(a, tx.from) < U256;
    RunClassicStops(a, tx, n);
    var ran := RunClassic(a, tx, n);
    if ran.Threw? {
      if Paying(a, tx, n) {
        UndoEnds(ran.accounts, tx);
        CreditMoves(UndoTransfer(ran.accounts, tx).accounts, tx.from, tx.body.value);
      } else {
        CreditMoves(ran.accounts, tx.from, tx.body.value);
      }
    }
  }

  // processTransaction ends without an exception or undefined behaviour exactly when the guard says so.
  lemma ProcessEndsExactly(c: Suite, a: Table, tx: TxBlock, x: Execution)
    ensures Process(c, a, tx, x).Done? <==> !Halts(c, a, tx, x)
  {
    hide ProcessEvm, ProcessClassic, Bump, RealTo, Affordable;
    var t := Touch(a, tx.body.to);
    TouchMoves(a, tx.body.to);
    TouchCode(a, tx.body.to);
    assert Affordable(t, tx) == Affordable(a, tx) by { SameAffordable(a, t, tx); }
    if tx.from in t {
      if IsEvm(t, tx.body.to) {
        EvmEndsExactly(c, t, tx, x.evm);
      } else {
        ClassicEndsExactly(t, tx, x.native);
      }
    }
  }

  lemma SameAffordable(a: Table, b: Table, tx: TxBlock)
    requires Balance(a, tx.from) == Balance(b, tx.from)
    ensures Affordable(a, tx) == Affordable(b, tx)
  {
  }
}
