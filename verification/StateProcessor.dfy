/** Processing a block: gas accumulates over its transactions and receipts record it. */
module StateProcessors {
  import opened Options
  import opened Sums
  import opened StateTransitions

  datatype Log = Log(payload: nat, blockNumber: nat, blockHash: nat, txHash: nat, txIndex: nat, index: nat)

  /** The address of a contract is determined by its creator and the creator's nonce. */
  datatype Contract = CreatedBy(creator: Address, nonce: nat)

  datatype Receipt = Receipt(failed: bool, cumulative: nat, gasUsed: int, logs: seq<Log>, txHash: nat, contract: Option<Contract>)

  datatype BlockTx = BlockTx(hash: nat, msg: Message)

  datatype Block = Block(number: nat, hash: nat, gasLimit: nat, coinbase: Address, txs: seq<BlockTx>)

  // ------------------------------------------------------------------ what a block amounts to

  /** The virtual machine and the rules in force. */
  datatype Env = Env(vm: Machine, homestead: bool)

  /** The world after one transaction, if it can run. */
  ghost function Applied(env: Env, coinbase: Address, w: World, msg: Message): World
    requires Frugal(env.vm)
  {
    if CanRun(w, msg, env.homestead) then
      assert RunOf(env.vm, w, msg, env.homestead).left <= msg.gas;
      Settled(RunOf(env.vm, w, msg, env.homestead), msg, coinbase)
    else w
  }

  /** The world before transaction `i` of a block. */
  ghost function WorldAt(env: Env, block: Block, w: World, i: nat): World
    requires Frugal(env.vm) && i <= |block.txs|
  {
    if i == 0 then w else Applied(env, block.coinbase, WorldAt(env, block, w, i - 1), block.txs[i - 1].msg)
  }

  ghost predicate Runs(env: Env, block: Block, w: World, i: nat)
    requires Frugal(env.vm) && i < |block.txs|
  {
    CanRun(WorldAt(env, block, w, i), block.txs[i].msg, env.homestead)
  }

  /** What the machine makes of transaction `i`. */
  ghost function OutcomeAt(env: Env, block: Block, w: World, i: nat): (o: Outcome)
    requires Frugal(env.vm) && i < |block.txs| && Runs(env, block, w, i)
    ensures o.left <= block.txs[i].msg.gas
  {
    RunOf(env.vm, WorldAt(env, block, w, i), block.txs[i].msg, env.homestead)
  }

  ghost function GasOf(env: Env, block: Block, w: World, i: nat): nat
    requires Frugal(env.vm) && i < |block.txs|
  {
    if Runs(env, block, w, i) then UsedGas(OutcomeAt(env, block, w, i), block.txs[i].msg) else 0
  }

  /** The gas used by the transactions before `i`. */
  ghost function GasBefore(env: Env, block: Block, w: World, i: nat): nat
    requires Frugal(env.vm) && i <= |block.txs|
  {
    if i == 0 then 0 else GasBefore(env, block, w, i - 1) + GasOf(env, block, w, i - 1)
  }

  /** Why a message is refused, if it is. */
  ghost function RefusalOf(env: Env, w: World, msg: Message, pool: int): TxError {
    var pre := PreCheck(msg, Lookup(w.nonces, msg.from), Lookup(w.balances, msg.from), pool);
    if pre != NoError then pre
    else if !CanRun(w, msg, env.homestead) then OutOfGas
    else if RunOf(env.vm, w, msg, env.homestead).poor then InsufficientBalance
    else NoError
  }

  /** Every refusal in the sender's, the pool's and the message's own terms, in the order of the checks. */
  lemma RefusalMeans(env: Env, w: World, msg: Message, pool: int)
    ensures var nonce, balance, err := Lookup(w.nonces, msg.from), Lookup(w.balances, msg.from), RefusalOf(env, w, msg, pool);
            var wrong, huge, poor := msg.checkNonce && nonce != msg.nonce, msg.gas >= 0x1_0000_0000_0000_0000, balance < msg.gas * msg.gasPrice;
            && (err == InvalidNonce <==> wrong)
            && (err == InsufficientBalanceForGas <==> !wrong && !huge && poor)
            && (err == GasLimitReached <==> !wrong && !huge && !poor && pool < msg.gas)
            && (err == OutOfGas <==> !wrong && (huge || (!poor && pool >= msg.gas && msg.gas < Intrinsic(msg, env.homestead))))
            && (err == NoError ==> !wrong && !huge && !poor && Intrinsic(msg, env.homestead) <= msg.gas <= pool)
  {
    hide Intrinsic;
  }

  /** The machine never lowers a nonce. */
  ghost predicate NeverLowers(vm: Machine) {
    forall msg, w, gas, a :: Lookup(vm(msg, w, gas).world.nonces, a) >= Lookup(w.nonces, a)
  }

  /** A transaction that can run raises the sender's nonce if it is a call, and lowers none. */
  lemma NonceRises(env: Env, w: World, msg: Message, coinbase: Address, a: Address)
    requires Frugal(env.vm) && NeverLowers(env.vm)
    ensures var before, after := Lookup(w.nonces, a), Lookup(Applied(env, coinbase, w, msg).nonces, a);
            && before <= after
            && (CanRun(w, msg, env.homestead) && a == msg.from && !msg.create ==> before < after)
  {
    hide Settled, Entered, Intrinsic;
    if CanRun(w, msg, env.homestead) {
      var o := RunOf(env.vm, w, msg, env.homestead);
      EnteredMeans(w, msg, a);
      assert o.left <= msg.gas;
      SettledMeans(o, msg, coinbase, a);
      assert Lookup(o.world.nonces, a) >= Lookup(Entered(w, msg).nonces, a);
    }
  }

  lemma {:induction false} NoncesRise(env: Env, block: Block, w: World, i: nat, j: nat, a: Address)
    requires Frugal(env.vm) && NeverLowers(env.vm) && i <= j <= |block.txs|
    ensures Lookup(WorldAt(env, block, w, i).nonces, a) <= Lookup(WorldAt(env, block, w, j).nonces, a)
    decreases j
  {
    if i < j {
      NoncesRise(env, block, w, i, j - 1, a);
      NonceRises(env, WorldAt(env, block, w, j - 1), block.txs[j - 1].msg, block.coinbase, a);
    }
  }

  /** A call whose nonce is checked is accepted only once in a block: the same message is refused ever after. */
  lemma NotTwice(env: Env, block: Block, w: World, i: nat, j: nat)
    requires Frugal(env.vm) && NeverLowers(env.vm) && i < j < |block.txs| && block.txs[j].msg == block.txs[i].msg
    requires block.txs[i].msg.checkNonce && !block.txs[i].msg.create && Refusal(env, block, w, i) == NoError
    ensures Refusal(env, block, w, j) == InvalidNonce
  {
    hide WorldAt, GasBefore, Applied;
    var msg, now := block.txs[i].msg, WorldAt(env, block, w, i);
    RefusalMeans(env, now, msg, block.gasLimit - GasBefore(env, block, w, i));
    NonceRises(env, now, msg, block.coinbase, msg.from);
    WorldNext(env, block, w, i);
    NoncesRise(env, block, w, i + 1, j, msg.from);
    RefusalMeans(env, WorldAt(env, block, w, j), msg, block.gasLimit - GasBefore(env, block, w, j));
  }

  lemma WorldNext(env: Env, block: Block, w: World, i: nat)
    requires Frugal(env.vm) && i < |block.txs|
    ensures WorldAt(env, block, w, i + 1) == Applied(env, block.coinbase, WorldAt(env, block, w, i), block.txs[i].msg)
  {
  }

  /** Each transaction finds the world and the gas its predecessors left. */
  ghost function Refusal(env: Env, block: Block, w: World, i: nat): TxError
    requires Frugal(env.vm) && i < |block.txs|
  {
    RefusalOf(env, WorldAt(env, block, w, i), block.txs[i].msg, block.gasLimit - GasBefore(env, block, w, i))
  }

  /** A transaction that runs pays for some gas, at most what it bought and at least half of the price of its data. */
  lemma GasBounds(env: Env, block: Block, w: World, i: nat)
    requires Frugal(env.vm) && i < |block.txs| && Runs(env, block, w, i)
    ensures 0 < GasOf(env, block, w, i) <= block.txs[i].msg.gas
    ensures Intrinsic(block.txs[i].msg, env.homestead) <= 2 * GasOf(env, block, w, i)
  {
    hide WorldAt, UsedGas;
  }

  /** The number of logs of the transactions before `i`. */
  ghost function LogCount(env: Env, block: Block, w: World, i: nat): nat
    requires Frugal(env.vm) && i <= |block.txs|
  {
    if i == 0 then 0
    else LogCount(env, block, w, i - 1) + if Runs(env, block, w, i - 1) then |OutcomeAt(env, block, w, i - 1).logs| else 0
  }

  /** A log with the fields that follow from its place in the block. */
  function LogAt(payload: nat, block: Block, j: nat, index: nat): Log
    requires j < |block.txs|
  {
    Log(payload, block.number, block.hash, block.txs[j].hash, j, index)
  }

  function LogsAt(payloads: seq<nat>, block: Block, j: nat, first: nat): seq<Log>
    requires j < |block.txs|
  {
    seq(|payloads|, k requires 0 <= k < |payloads| => LogAt(payloads[k], block, j, first + k))
  }

  function ContractOf(tx: BlockTx): Option<Contract> {
    if tx.msg.create then Some(CreatedBy(tx.msg.from, tx.msg.nonce)) else None
  }

  /** The receipt of a transaction that the machine has run. */
  function ReceiptOf(o: Outcome, block: Block, i: nat, usedGas: nat, logSize: nat): Receipt
    requires i < |block.txs| && o.left <= block.txs[i].msg.gas
  {
    var gas := UsedGas(o, block.txs[i].msg);
    Receipt(o.failed, usedGas + gas, gas, LogsAt(o.logs, block, i, logSize), block.txs[i].hash, ContractOf(block.txs[i]))
  }

  /** The receipt of transaction `i`. */
  ghost function ReceiptAt(env: Env, block: Block, w: World, i: nat): Receipt
    requires Frugal(env.vm) && i < |block.txs| && Runs(env, block, w, i)
  {
    ReceiptOf(OutcomeAt(env, block, w, i), block, i, GasBefore(env, block, w, i), LogCount(env, block, w, i))
  }

  /** A receipt in the terms of its transaction and the machine's outcome. */
  lemma ReceiptMeans(o: Outcome, block: Block, i: nat, usedGas: nat, logSize: nat, k: nat)
    requires i < |block.txs| && o.left <= block.txs[i].msg.gas
    ensures var r, tx := ReceiptOf(o, block, i, usedGas, logSize), block.txs[i];
            && r.failed == o.failed && r.gasUsed == UsedGas(o, tx.msg) && r.cumulative == usedGas + r.gasUsed && r.txHash == tx.hash
            && r.contract == (if tx.msg.create then Some(CreatedBy(tx.msg.from, tx.msg.nonce)) else None)
            && |r.logs| == |o.logs| && (k < |o.logs| ==> r.logs[k] == Log(o.logs[k], block.number, block.hash, tx.hash, i, logSize + k))
  {
    hide UsedGas;
  }

  /** What the virtual machine itself added to the total balance in the transactions before `i`. */
  ghost function VmChange(env: Env, block: Block, w: World, i: nat): int
    requires Frugal(env.vm) && i <= |block.txs|
  {
    if i == 0 then 0
    else
      VmChange(env, block, w, i - 1) +
      if !Runs(env, block, w, i - 1) then 0
      else Sum(OutcomeAt(env, block, w, i - 1).world.balances)
           - Sum(Entered(WorldAt(env, block, w, i - 1), block.txs[i - 1].msg).balances)
  }

  /** Over a whole block fees neither create nor destroy wei: only the machine changes the total. */
  lemma {:induction false} BlockConserves(env: Env, block: Block, w: World, i: nat)
    requires Frugal(env.vm) && i <= |block.txs|
    ensures Sum(WorldAt(env, block, w, i).balances) == Sum(w.balances) + VmChange(env, block, w, i)
  {
    hide Sum, Settled, Entered;
    if i > 0 {
      BlockConserves(env, block, w, i - 1);
      if Runs(env, block, w, i - 1) {
        Conserves(WorldAt(env, block, w, i - 1), OutcomeAt(env, block, w, i - 1), block.txs[i - 1].msg, block.coinbase);
      }
    }
  }

  // ------------------------------------------------------------------ the processor

  /** Applies a block's transactions in order, and stops at the first that is refused. */
  method Process(env: Env, accounts: Accounts, block: Block)
    returns (receipts: seq<Receipt>, totalUsedGas: nat, err: TxError, pool: GasPool)
    requires Frugal(env.vm)
    modifies accounts
    ensures fresh(pool)
    ensures err == NoError <==> forall j :: 0 <= j < |block.txs| ==> Refusal(env, block, old(accounts.State()), j) == NoError
    ensures err != NoError ==> receipts == [] && exists j :: FirstRefused(env, block, old(accounts.State()), j, err)
    ensures err == NoError ==>
              && accounts.State() == WorldAt(env, block, old(accounts.State()), |block.txs|)
              && totalUsedGas == GasBefore(env, block, old(accounts.State()), |block.txs|)
              && pool.gas + totalUsedGas == block.gasLimit
              && |receipts| == |block.txs|
              && forall j :: 0 <= j < |receipts| ==> Receipted(receipts[j], env, block, old(accounts.State()), j)
  {
    hide *;
    ghost var w := accounts.State();
    Start(env, block, w);
    receipts, totalUsedGas, err := [], 0, NoError;
    pool := new GasPool(block.gasLimit);
    var logSize := 0;
    for i := 0 to |block.txs|
      invariant fresh(pool) && err == NoError && |receipts| == i && accounts.State() == WorldAt(env, block, w, i)
      invariant totalUsedGas == GasBefore(env, block, w, i) && pool.gas + totalUsedGas == block.gasLimit && logSize == LogCount(env, block, w, i)
      invariant forall j :: 0 <= j < i ==> Refusal(env, block, w, j) == NoError
      invariant forall j :: 0 <= j < i ==> Receipted(receipts[j], env, block, w, j)
    {
      var receipt;
      StepOf(env, block, w, i);
      receipt, totalUsedGas, err := ApplyTransaction(env, pool, accounts, block, i, totalUsedGas, logSize);
      if err != NoError {
        Refused(env, block, w, i, err);
        receipts := [];
        return;
      }
      receipts, logSize := receipts + [receipt], logSize + |receipt.logs|;
    }
  }

  ghost predicate FirstRefused(env: Env, block: Block, w: World, j: int, err: TxError)
    requires Frugal(env.vm)
  {
    && 0 <= j < |block.txs| && Refusal(env, block, w, j) == err != NoError
    && forall i :: 0 <= i < j ==> Refusal(env, block, w, i) == NoError
  }

  ghost predicate Receipted(r: Receipt, env: Env, block: Block, w: World, i: nat)
    requires Frugal(env.vm)
  {
    i < |block.txs| && Runs(env, block, w, i) && r == ReceiptAt(env, block, w, i)
  }

  lemma Start(env: Env, block: Block, w: World)
    requires Frugal(env.vm)
    ensures WorldAt(env, block, w, 0) == w && GasBefore(env, block, w, 0) == 0 && LogCount(env, block, w, 0) == 0
  {
  }

  lemma Refused(env: Env, block: Block, w: World, j: nat, err: TxError)
    requires Frugal(env.vm) && j < |block.txs| && Refusal(env, block, w, j) == err != NoError
    requires forall i :: 0 <= i < j ==> Refusal(env, block, w, i) == NoError
    ensures FirstRefused(env, block, w, j, err)
  {
  }

  /** Applies transaction `i` of a block. */
  method ApplyTransaction(env: Env, gp: GasPool, accounts: Accounts, block: Block, i: nat, usedGas: nat, logSize: nat)
    returns (receipt: Receipt, total: nat, err: TxError)
    requires Frugal(env.vm) && i < |block.txs|
    modifies gp, accounts
    ensures err == RefusalOf(env, old(accounts.State()), block.txs[i].msg, old(gp.gas))
    ensures err == NoError ==>
              && CanRun(old(accounts.State()), block.txs[i].msg, env.homestead)
              && var o := RunOf(env.vm, old(accounts.State()), block.txs[i].msg, env.homestead);
                 && o.left <= block.txs[i].msg.gas && accounts.State() == Settled(o, block.txs[i].msg, block.coinbase)
                 && receipt == ReceiptOf(o, block, i, usedGas, logSize) && |receipt.logs| == |o.logs|
                 && total == usedGas + UsedGas(o, block.txs[i].msg) && gp.gas == old(gp.gas) - UsedGas(o, block.txs[i].msg)
  {
    hide Settled, UsedGas, CanRun, Sum, Entered, PreCheck, LogsAt, Wei;
    var tx := block.txs[i];
    var st := new StateTransition(gp, accounts, tx.msg);
    var required, gas, failed, payloads;
    required, gas, failed, err, payloads := st.TransitionDb(env.vm, env.homestead, block.coinbase);
    total, receipt := usedGas, Receipt(failed, 0, 0, [], 0, None);
    if err != NoError {
      return;
    }
    total := usedGas + gas;
    var logs := AddLogs(payloads, block, i, logSize);
    receipt := Receipt(failed, total, gas, logs, tx.hash, None);
    if tx.msg.create {
      receipt := receipt.(contract := Some(CreatedBy(tx.msg.from, tx.msg.nonce)));
    }
  }

  /** What an accepted transaction `i` does to the block's totals. */
  lemma StepOf(env: Env, block: Block, w: World, i: nat)
    requires Frugal(env.vm) && i < |block.txs|
    ensures var now, msg, used, logs := WorldAt(env, block, w, i), block.txs[i].msg, GasBefore(env, block, w, i), LogCount(env, block, w, i);
            && RefusalOf(env, now, msg, block.gasLimit - used) == Refusal(env, block, w, i)
            && (CanRun(now, msg, env.homestead) ==>
                  var o := RunOf(env.vm, now, msg, env.homestead);
                  && o.left <= msg.gas && WorldAt(env, block, w, i + 1) == Settled(o, msg, block.coinbase)
                  && Receipted(ReceiptOf(o, block, i, used, logs), env, block, w, i)
                  && GasBefore(env, block, w, i + 1) == used + UsedGas(o, msg) && LogCount(env, block, w, i + 1) == logs + |o.logs|)
  {
    hide Settled, UsedGas, RefusalOf, LogsAt;
    if Runs(env, block, w, i) {
      var o := OutcomeAt(env, block, w, i);
      assert o.left <= block.txs[i].msg.gas;
      assert WorldAt(env, block, w, i + 1) == Settled(o, block.txs[i].msg, block.coinbase);
      assert Receipted(ReceiptOf(o, block, i, GasBefore(env, block, w, i), LogCount(env, block, w, i)), env, block, w, i);
    }
  }

  method AddLogs(payloads: seq<nat>, block: Block, j: nat, first: nat) returns (r: seq<Log>)
    requires j < |block.txs|
    ensures r == LogsAt(payloads, block, j, first) && |r| == |payloads|
  {
    r := [];
    for k := 0 to |payloads|
      invariant r == LogsAt(payloads[..k], block, j, first)
    {
      r := r + [LogAt(payloads[k], block, j, first + k)];
    }
    assert payloads[..|payloads|] == payloads;
  }

  // ------------------------------------------------------------------ derived receipt fields

  function Payloads(logs: seq<Log>): seq<nat> {
    seq(|logs|, k requires 0 <= k < |logs| => logs[k].payload)
  }

  /** What is stored of a receipt: everything else can be derived. */
  function Stored(r: Receipt): Receipt {
    Receipt(r.failed, r.cumulative, 0, seq(|r.logs|, k requires 0 <= k < |r.logs| => Log(r.logs[k].payload, 0, 0, 0, 0, 0)), 0, None)
  }

  /** The number of logs in the receipts before position `j`. */
  function LogsBefore(receipts: seq<Receipt>, j: nat): nat
    requires j <= |receipts|
  {
    if j == 0 then 0 else LogsBefore(receipts, j - 1) + |receipts[j - 1].logs|
  }

  /** A receipt with the fields that follow from the block, its position and its predecessor's
      cumulative gas. */
  function Derived(r: Receipt, previous: nat, block: Block, j: nat, firstLog: nat): Receipt
    requires j < |block.txs|
  {
    var tx := block.txs[j];
    r.(gasUsed := r.cumulative - previous,
       txHash := tx.hash,
       contract := if tx.msg.create then ContractOf(tx) else r.contract,
       logs := LogsAt(Payloads(r.logs), block, j, firstLog))
  }

  function Previous(receipts: seq<Receipt>, j: nat): nat
    requires j <= |receipts|
  {
    if j == 0 then 0 else receipts[j - 1].cumulative
  }

  /** The derived fields of the receipt at position `j`. */
  function DerivedAt(receipts: seq<Receipt>, block: Block, j: nat): Receipt
    requires j < |receipts| && j < |block.txs|
  {
    Derived(receipts[j], Previous(receipts, j), block, j, LogsBefore(receipts, j))
  }

  lemma DerivedIs(receipts: seq<Receipt>, block: Block, j: nat, previous: nat, firstLog: nat)
    requires j < |receipts| && j < |block.txs| && previous == Previous(receipts, j) && firstLog == LogsBefore(receipts, j)
    ensures DerivedAt(receipts, block, j) == Derived(receipts[j], previous, block, j, firstLog)
    ensures LogsBefore(receipts, j + 1) == firstLog + |receipts[j].logs|
    ensures DerivedAt(receipts, block, j).cumulative == receipts[j].cumulative
  {
  }

  /** Computes the derived fields of a block's receipts in place; there is a transaction for every receipt. */
  method SetReceiptsData(block: Block, receipts: array<Receipt>)
    requires receipts.Length <= |block.txs|
    modifies receipts
    ensures forall j :: 0 <= j < receipts.Length ==> receipts[j] == DerivedAt(old(receipts[..]), block, j)
  {
    hide LogsBefore, DerivedAt, LogsAt;
    var logIndex, previous := 0, 0;
    ghost var was := receipts[..];
    NoLogsYet(was);
    for j := 0 to receipts.Length
      invariant logIndex == LogsBefore(was, j) && previous == Previous(was, j)
      invariant forall i :: j <= i < receipts.Length ==> receipts[i] == was[i]
      invariant forall i :: 0 <= i < j ==> receipts[i] == DerivedAt(was, block, i)
    {
      DerivedIs(was, block, j, previous, logIndex);
      var tx := block.txs[j];
      receipts[j] := receipts[j].(txHash := tx.hash);
      if tx.msg.create {
        receipts[j] := receipts[j].(contract := Some(CreatedBy(tx.msg.from, tx.msg.nonce)));
      }
      var logs := AddLogs(Payloads(receipts[j].logs), block, j, logIndex);
      receipts[j] := receipts[j].(gasUsed := receipts[j].cumulative - previous, logs := logs);
      logIndex, previous := logIndex + |logs|, receipts[j].cumulative;
    }
  }

  lemma NoLogsYet(receipts: seq<Receipt>)
    ensures LogsBefore(receipts, 0) == 0
  {
  }

  /** Storing the receipts of a processed block and deriving the rest again yields the same receipts. */
  lemma ReceiptsRecovered(env: Env, block: Block, w: World, receipts: seq<Receipt>, stored: seq<Receipt>, j: nat)
    requires Frugal(env.vm) && |receipts| == |stored| == |block.txs| && j < |receipts|
    requires forall i :: 0 <= i < |receipts| ==> Receipted(receipts[i], env, block, w, i) && stored[i] == Stored(receipts[i])
    ensures DerivedAt(stored, block, j) == receipts[j]
  {
    hide Frugal, WorldAt, GasOf, Runs, OutcomeAt, LogCount, GasBefore;
    LogsCounted(env, block, w, receipts, stored, j);
    GasSoFar(env, block, w, j);
    if j > 0 {
      GasSoFar(env, block, w, j - 1);
    }
    var r, o := receipts[j], OutcomeAt(env, block, w, j);
    assert Receipted(r, env, block, w, j) && stored[j] == Stored(r);
    assert j > 0 ==> Receipted(receipts[j - 1], env, block, w, j - 1) && stored[j - 1] == Stored(receipts[j - 1]);
    assert Payloads(stored[j].logs) == o.logs;
  }

  lemma GasSoFar(env: Env, block: Block, w: World, j: nat)
    requires Frugal(env.vm) && j < |block.txs|
    ensures GasBefore(env, block, w, j + 1) == GasBefore(env, block, w, j) + GasOf(env, block, w, j) && GasBefore(env, block, w, 0) == 0
    ensures Runs(env, block, w, j) ==> GasOf(env, block, w, j) == UsedGas(OutcomeAt(env, block, w, j), block.txs[j].msg)
  {
  }

  lemma {:induction false} LogsCounted(env: Env, block: Block, w: World, receipts: seq<Receipt>, stored: seq<Receipt>, j: nat)
    requires Frugal(env.vm) && |receipts| == |stored| == |block.txs| && j <= |receipts|
    requires forall i :: 0 <= i < |receipts| ==> Receipted(receipts[i], env, block, w, i) && stored[i] == Stored(receipts[i])
    ensures LogsBefore(stored, j) == LogCount(env, block, w, j)
  {
    hide Frugal, WorldAt, GasOf, Runs, OutcomeAt, GasBefore;
    if j > 0 {
      LogsCounted(env, block, w, receipts, stored, j - 1);
      assert Receipted(receipts[j - 1], env, block, w, j - 1) && stored[j - 1] == Stored(receipts[j - 1]);
    }
  }

  /** Logs are numbered through the block without a gap, and each names its transaction and block. */
  lemma LogsNumbered(receipts: seq<Receipt>, block: Block, j: nat, k: nat)
    requires j < |receipts| && j < |block.txs| && k < |receipts[j].logs|
    ensures |DerivedAt(receipts, block, j).logs| == |receipts[j].logs|
    ensures var log := DerivedAt(receipts, block, j).logs[k];
            && log == Log(receipts[j].logs[k].payload, block.number, block.hash, block.txs[j].hash, j, LogsBefore(receipts, j) + k)
            && log.txHash == DerivedAt(receipts, block, j).txHash
            && (k + 1 == |receipts[j].logs| ==> LogsBefore(receipts, j + 1) == log.index + 1)
  {
    DerivedIs(receipts, block, j, Previous(receipts, j), LogsBefore(receipts, j));
  }
}
