/** Executing transactions: the flow of gas and of wei. */
module StateTransitions {
  import opened Sums

  type Address = nat
  type Byte = x: nat | x < 256

  const TX_GAS: nat := 21000
  const TX_GAS_CONTRACT_CREATION: nat := 53000
  const TX_DATA_ZERO_GAS: nat := 4
  const TX_DATA_NON_ZERO_GAS: nat := 68
  const TWO_TO_THE_64: nat := 0x1_0000_0000_0000_0000

  datatype Message = Message(from: Address, create: bool, gasPrice: nat, gas: nat, value: nat,
                             nonce: nat, checkNonce: bool, data: seq<Byte>)

  datatype TxError = NoError | InvalidNonce | OutOfGas | InsufficientBalanceForGas | GasLimitReached | InsufficientBalance

  // ------------------------------------------------------------------ intrinsic gas

  /** What a transaction's data costs, byte by byte. */
  function DataGas(data: seq<Byte>): nat {
    if data == [] then 0
    else DataGas(data[..|data| - 1]) + if data[|data| - 1] == 0 then TX_DATA_ZERO_GAS else TX_DATA_NON_ZERO_GAS
  }

  function BaseGas(create: bool, homestead: bool): nat {
    if create && homestead then TX_GAS_CONTRACT_CREATION else TX_GAS
  }

  /** Counts the non-zero bytes once and prices both kinds. */
  method IntrinsicGas(data: seq<Byte>, create: bool, homestead: bool) returns (igas: nat)
    ensures igas == BaseGas(create, homestead) + DataGas(data)
  {
    igas := if create && homestead then TX_GAS_CONTRACT_CREATION else TX_GAS;
    if |data| > 0 {
      var nz := 0;
      for i := 0 to |data|
        invariant nz <= i && nz * TX_DATA_NON_ZERO_GAS + (i - nz) * TX_DATA_ZERO_GAS == DataGas(data[..i])
      {
        assert data[..i + 1][..i] == data[..i];
        if data[i] != 0 {
          nz := nz + 1;
        }
      }
      assert data[..|data|] == data;
      igas := igas + nz * TX_DATA_NON_ZERO_GAS;
      igas := igas + (|data| - nz) * TX_DATA_ZERO_GAS;
    }
  }

  // ------------------------------------------------------------------ the gas pool

  class GasPool {
    var gas: nat

    constructor (gas: nat)
      ensures this.gas == gas
    {
      this.gas := gas;
    }

    method AddGas(amount: nat)
      modifies this
      ensures gas == old(gas) + amount
    {
      gas := gas + amount;
    }

    /** Deducts an amount if the pool has that much. */
    method SubGas(amount: nat) returns (err: TxError)
      modifies this
      ensures err == if old(gas) < amount then GasLimitReached else NoError
      ensures gas == if old(gas) < amount then old(gas) else old(gas) - amount
    {
      if gas < amount {
        return GasLimitReached;
      }
      gas := gas - amount;
      return NoError;
    }
  }

  // ------------------------------------------------------------------ the accounts

  function Lookup(m: map<Address, nat>, a: Address): nat {
    if a in m then m[a] else 0
  }

  /** What an amount of gas costs. */
  function Wei(gas: nat, price: nat): nat {
    gas * price
  }

  function Pay(balances: map<Address, nat>, a: Address, amount: nat): map<Address, nat> {
    balances[a := Lookup(balances, a) + amount]
  }

  /** What a transaction works on: balances and nonces, and whatever else contracts store. */
  datatype World = World(balances: map<Address, nat>, nonces: map<Address, nat>, storage: nat)

  /** What the virtual machine makes of a message: the world it leaves, its refund counter, the gas left, whether it
      failed, whether that was for want of the value to transfer, and the payloads of its logs. */
  datatype Outcome = Outcome(world: World, refund: nat, left: nat, failed: bool, poor: bool, logs: seq<nat>)

  /** The virtual machine, given the message, the world and the gas. */
  type Machine = (Message, World, nat) -> Outcome

  /** The machine hands back no more gas than it was given. */
  ghost predicate Frugal(vm: Machine) {
    forall msg, w, gas :: vm(msg, w, gas).left <= gas
  }

  predicate Charged(before: map<Address, nat>, after: map<Address, nat>, a: Address, amount: nat) {
    amount <= Lookup(before, a) && after == before[a := Lookup(before, a) - amount]
  }

  lemma PayTwice(balances: map<Address, nat>, a: Address, x: nat, y: nat)
    ensures Pay(Pay(balances, a, x), a, y) == Pay(balances, a, x + y)
  {
  }

  lemma Credit(balances: map<Address, nat>, a: Address, amount: nat)
    ensures Sum(Pay(balances, a, amount)) == Sum(balances) + amount
  {
    SumOfPut(balances, a, Lookup(balances, a) + amount);
  }

  lemma SumOfPut(balances: map<Address, nat>, a: Address, v: nat)
    ensures Sum(balances[a := v]) == Sum(balances) - Lookup(balances, a) + v
  {
    var after := balances[a := v];
    SumTakeOut(after, a);
    if a in balances {
      SumTakeOut(balances, a);
      assert after - {a} == balances - {a};
    } else {
      assert after - {a} == balances;
    }
  }

  class Accounts {
    var balances: map<Address, nat>
    var nonces: map<Address, nat>
    var storage: nat
    var refund: nat

    function State(): World
      reads this
    {
      World(balances, nonces, storage)
    }

    constructor (w: World)
      ensures State() == w && refund == 0
    {
      balances, nonces, storage, refund := w.balances, w.nonces, w.storage, 0;
    }

    method AddBalance(a: Address, amount: nat)
      modifies this`balances
      ensures balances == Pay(old(balances), a, amount) && Sum(balances) == Sum(old(balances)) + amount
    {
      Credit(balances, a, amount);
      balances := balances[a := Lookup(balances, a) + amount];
    }

    method SubBalance(a: Address, amount: nat)
      requires amount <= Lookup(balances, a)
      modifies this`balances
      ensures Sum(balances) == Sum(old(balances)) - amount
      ensures balances == old(balances)[a := Lookup(old(balances), a) - amount]
    {
      SumOfPut(balances, a, Lookup(balances, a) - amount);
      balances := balances[a := Lookup(balances, a) - amount];
    }

    /** Lets the virtual machine work on the accounts. */
    method Execute(vm: Machine, msg: Message, gas: nat) returns (o: Outcome)
      modifies this
      ensures o == vm(msg, old(State()), gas) && State() == o.world && refund == o.refund
    {
      o := vm(msg, State(), gas);
      balances, nonces, storage, refund := o.world.balances, o.world.nonces, o.world.storage, o.refund;
    }
  }

  // ------------------------------------------------------------------ one transaction

  /** Why a message is refused before anything happens, if it is. */
  function PreCheck(msg: Message, nonce: nat, balance: nat, pool: int): TxError {
    if msg.checkNonce && nonce != msg.nonce then InvalidNonce
    else if msg.gas >= TWO_TO_THE_64 then OutOfGas
    else if balance < Wei(msg.gas, msg.gasPrice) then InsufficientBalanceForGas
    else if pool < msg.gas then GasLimitReached
    else NoError
  }

  /** The sender's nonce moves on before a call; for a creation the virtual machine takes care of it. */
  function Advanced(nonces: map<Address, nat>, msg: Message): map<Address, nat> {
    if msg.create then nonces else nonces[msg.from := Lookup(nonces, msg.from) + 1]
  }

  /** The refund for gas: at most half of what was used. */
  function RefundOf(usedGas: nat, counter: nat): nat {
    if usedGas / 2 < counter then usedGas / 2 else counter
  }

  function Intrinsic(msg: Message, homestead: bool): nat {
    BaseGas(msg.create, homestead) + DataGas(msg.data)
  }

  /** The sender can prepay the gas, and the gas covers the data. */
  predicate CanRun(w: World, msg: Message, homestead: bool) {
    Wei(msg.gas, msg.gasPrice) <= Lookup(w.balances, msg.from) && Intrinsic(msg, homestead) <= msg.gas
  }

  /** The world when the machine starts: the gas is paid for, and the nonce has moved on. */
  function Entered(w: World, msg: Message): World
    requires Wei(msg.gas, msg.gasPrice) <= Lookup(w.balances, msg.from)
  {
    w.(balances := w.balances[msg.from := Lookup(w.balances, msg.from) - Wei(msg.gas, msg.gasPrice)], nonces := Advanced(w.nonces, msg))
  }

  function RunOf(vm: Machine, w: World, msg: Message, homestead: bool): Outcome
    requires CanRun(w, msg, homestead)
  {
    vm(msg, Entered(w, msg), msg.gas - Intrinsic(msg, homestead))
  }

  /** The gas a message is charged for: what it required, less the refund. */
  function UsedGas(o: Outcome, msg: Message): (used: nat)
    requires o.left <= msg.gas
    ensures used <= msg.gas - o.left <= 2 * used
  {
    msg.gas - o.left - RefundOf(msg.gas - o.left, o.refund)
  }

  /** The machine's world with the spare gas paid back to the sender and the rest paid to the coinbase. */
  function Settled(o: Outcome, msg: Message, coinbase: Address): World
    requires o.left <= msg.gas
  {
    var used := UsedGas(o, msg);
    o.world.(balances := Pay(Pay(o.world.balances, msg.from, Wei(msg.gas - used, msg.gasPrice)), coinbase, Wei(used, msg.gasPrice)))
  }

  /** The refund is as large as it can be without exceeding the counter or half of the gas used. */
  lemma RefundMeans(usedGas: nat, counter: nat)
    ensures var refund := RefundOf(usedGas, counter);
            && refund <= counter && 2 * refund <= usedGas
            && (refund == counter || 2 * (refund + 1) > usedGas)
  {
  }

  /** On entry the sender has paid for the gas; a call has moved its nonce on by one, a creation has not; nothing
      else has changed. */
  lemma EnteredMeans(w: World, msg: Message, a: Address)
    requires Wei(msg.gas, msg.gasPrice) <= Lookup(w.balances, msg.from)
    ensures var e := Entered(w, msg);
            && Lookup(e.balances, a) == Lookup(w.balances, a) - (if a == msg.from then msg.gas * msg.gasPrice else 0)
            && Lookup(e.nonces, a) == Lookup(w.nonces, a) + (if a == msg.from && !msg.create then 1 else 0)
            && (msg.create ==> e.nonces == w.nonces) && e.storage == w.storage
  {
  }

  /** The sender gets the gas back that was not used, the coinbase is paid for the gas that was, and nothing else
      changes. */
  lemma SettledMeans(o: Outcome, msg: Message, coinbase: Address, a: Address)
    requires o.left <= msg.gas
    ensures var s, used := Settled(o, msg, coinbase), UsedGas(o, msg);
            && Lookup(s.balances, a) == Lookup(o.world.balances, a) + (if a == msg.from then (msg.gas - used) * msg.gasPrice else 0)
                                        + (if a == coinbase then used * msg.gasPrice else 0)
            && s.nonces == o.world.nonces && s.storage == o.world.storage
  {
    hide UsedGas;
  }

  /** The gas charged for: what the machine took and the price of the data, less the refund. */
  lemma UsedGasMeans(o: Outcome, msg: Message)
    requires o.left <= msg.gas
    ensures var required, used := msg.gas - o.left, UsedGas(o, msg);
            && required - used <= o.refund && 2 * (required - used) <= required
            && (required - used == o.refund || 2 * (required - used + 1) > required)
  {
    RefundMeans(msg.gas - o.left, o.refund);
  }

  /** One byte of data costs 4 or 68 gas; without data a creation costs 53000 gas from Homestead on, and anything else 21000. */
  lemma IntrinsicMeans(msg: Message, homestead: bool, b: Byte)
    ensures Intrinsic(msg.(data := msg.data + [b]), homestead) == Intrinsic(msg, homestead) + if b == 0 then 4 else 68
    ensures Intrinsic(msg.(data := []), homestead) == if msg.create && homestead then 53000 else 21000
  {
    assert (msg.data + [b])[..|msg.data|] == msg.data;
  }

  /** One transaction neither creates nor destroys wei beyond what the machine itself does. */
  lemma Conserves(w: World, o: Outcome, msg: Message, coinbase: Address)
    requires Wei(msg.gas, msg.gasPrice) <= Lookup(w.balances, msg.from) && o.left <= msg.gas
    ensures Sum(Settled(o, msg, coinbase).balances) - Sum(w.balances) == Sum(o.world.balances) - Sum(Entered(w, msg).balances)
  {
    hide Sum, UsedGas, Pay, Lookup, Wei;
    var used, price := UsedGas(o, msg), msg.gasPrice;
    var spare: nat, paid: nat, cost: nat := Wei(msg.gas - used, price), Wei(used, price), Wei(msg.gas, price);
    assert spare + paid == cost by {
      Distribute(msg.gas - used, used, price);
    }
    SumOfPut(w.balances, msg.from, Lookup(w.balances, msg.from) - cost);
    Credit(o.world.balances, msg.from, spare);
    Credit(Pay(o.world.balances, msg.from, spare), coinbase, paid);
  }

  class StateTransition {
    const gp: GasPool
    const accounts: Accounts
    const msg: Message
    var gas: nat
    var initialGas: nat

    constructor (gp: GasPool, accounts: Accounts, msg: Message)
      ensures this.gp == gp && this.accounts == accounts && this.msg == msg && gas == 0 && initialGas == 0
    {
      this.gp, this.accounts, this.msg, gas, initialGas := gp, accounts, msg, 0, 0;
    }

    method UseGas(amount: nat) returns (err: TxError)
      modifies this`gas
      ensures err == if old(gas) < amount then OutOfGas else NoError
      ensures gas == if old(gas) < amount then old(gas) else old(gas) - amount
    {
      if gas < amount {
        return OutOfGas;
      }
      gas := gas - amount;
      return NoError;
    }

    /** Buys the message's gas from the pool with the sender's wei. */
    method BuyGas() returns (err: TxError)
      requires gas == 0
      modifies this, gp, accounts`balances
      ensures err == PreCheck(msg.(checkNonce := false), 0, Lookup(old(accounts.balances), msg.from), old(gp.gas))
      ensures err != NoError ==> gp.gas == old(gp.gas) && accounts.balances == old(accounts.balances)
      ensures err == NoError ==> gas == initialGas == msg.gas && gp.gas == old(gp.gas) - msg.gas
      ensures err == NoError ==> Charged(old(accounts.balances), accounts.balances, msg.from, Wei(msg.gas, msg.gasPrice))
      ensures err == NoError ==> Sum(accounts.balances) == Sum(old(accounts.balances)) - Wei(msg.gas, msg.gasPrice)
    {
      if msg.gas >= TWO_TO_THE_64 {
        return OutOfGas;
      }
      var cost := Wei(msg.gas, msg.gasPrice);
      if Lookup(accounts.balances, msg.from) < cost {
        return InsufficientBalanceForGas;
      }
      err := gp.SubGas(msg.gas);
      if err != NoError {
        return;
      }
      gas := gas + msg.gas;
      initialGas := msg.gas;
      accounts.SubBalance(msg.from, cost);
    }

    /** Pays back the unused gas and the capped refund, and returns the rest to the pool. */
    method RefundGas()
      requires gas <= initialGas
      modifies this`gas, gp, accounts`balances
      ensures gas == old(gas) + RefundOf(initialGas - old(gas), accounts.refund) && gas <= initialGas
      ensures gp.gas == old(gp.gas) + gas && accounts.balances == Pay(old(accounts.balances), msg.from, Wei(gas, msg.gasPrice))
      ensures Sum(accounts.balances) == Sum(old(accounts.balances)) + Wei(gas, msg.gasPrice)
    {
      accounts.AddBalance(msg.from, Wei(gas, msg.gasPrice));
      var refund := (initialGas - gas) / 2;
      if accounts.refund <= refund {
        refund := accounts.refund;
      }
      Distribute(gas, refund, msg.gasPrice);
      PayTwice(old(accounts.balances), msg.from, Wei(gas, msg.gasPrice), Wei(refund, msg.gasPrice));
      gas := gas + refund;
      accounts.AddBalance(msg.from, Wei(refund, msg.gasPrice));
      gp.AddGas(gas);
    }

    /** Applies the message. */
    method TransitionDb(vm: Machine, homestead: bool, coinbase: Address)
      returns (required: nat, used: nat, failed: bool, err: TxError, logs: seq<nat>)
      requires gas == 0 && initialGas == 0 && Frugal(vm)
      modifies this, gp, accounts
      ensures var w := old(accounts.State());
              var pre := PreCheck(msg, Lookup(w.nonces, msg.from), Lookup(w.balances, msg.from), old(gp.gas));
              && (pre != NoError ==> err == pre && gp.gas == old(gp.gas) && accounts.State() == w)
              && (pre == NoError && !CanRun(w, msg, homestead) ==>
                    && err == OutOfGas && gp.gas == old(gp.gas) - msg.gas
                    && accounts.State() == w.(balances := Entered(w, msg).balances))
              && (pre == NoError && CanRun(w, msg, homestead) ==>
                    var o := RunOf(vm, w, msg, homestead);
                    if o.poor then err == InsufficientBalance && gp.gas == old(gp.gas) - msg.gas && accounts.State() == o.world
                    else
                      && err == NoError && failed == o.failed && logs == o.logs && required == msg.gas - o.left && used == UsedGas(o, msg)
                      && gp.gas == old(gp.gas) - used && accounts.State() == Settled(o, msg, coinbase)
                      && Intrinsic(msg, homestead) <= required <= msg.gas
                      && Sum(accounts.balances) - Sum(w.balances) == Sum(o.world.balances) - Sum(Entered(w, msg).balances))
    {
      hide Sum, DataGas, Settled, UsedGas, Wei;
      required, used, failed, logs := 0, 0, false, [];
      if msg.checkNonce && Lookup(accounts.nonces, msg.from) != msg.nonce {
        err := InvalidNonce;
        return;
      }
      err := BuyGas();
      if err != NoError {
        return;
      }
      var igas := IntrinsicGas(msg.data, msg.create, homestead);
      if igas >= TWO_TO_THE_64 {
        err := OutOfGas;
        return;
      }
      err := UseGas(igas);
      if err != NoError {
        return;
      }
      ghost var w := old(accounts.State());
      required, used, failed, err, logs := Run(vm, coinbase);
      Conserves(w, RunOf(vm, w, msg, homestead), msg, coinbase);
    }

    /** Runs the message on the bought gas and settles the account for it. */
    method Run(vm: Machine, coinbase: Address)
      returns (required: nat, used: nat, failed: bool, err: TxError, logs: seq<nat>)
      requires gas <= initialGas == msg.gas && Frugal(vm)
      modifies this`gas, gp, accounts
      ensures var w := old(accounts.State()).(nonces := Advanced(old(accounts.nonces), msg));
              var o := vm(msg, w, old(gas));
              if o.poor then err == InsufficientBalance && gp.gas == old(gp.gas) && accounts.State() == o.world
              else
                && err == NoError && failed == o.failed && logs == o.logs && required == msg.gas - o.left && used == UsedGas(o, msg)
                && gp.gas == old(gp.gas) + msg.gas - used && accounts.State() == Settled(o, msg, coinbase)
    {
      hide Sum, Pay, RefundOf, Wei;
      required, used, failed, logs := 0, 0, false, [];
      if !msg.create {
        accounts.nonces := accounts.nonces[msg.from := Lookup(accounts.nonces, msg.from) + 1];
      }
      assert vm(msg, accounts.State(), gas).left <= gas;
      var o := accounts.Execute(vm, msg, gas);
      gas := o.left;
      if o.poor {
        err := InsufficientBalance;
        return;
      }
      required := initialGas - gas;
      RefundGas();
      used := initialGas - gas;
      accounts.AddBalance(coinbase, Wei(used, msg.gasPrice));
      err, failed, logs := NoError, o.failed, o.logs;
    }
  }

  lemma Distribute(a: nat, b: nat, price: nat)
    ensures Wei(a + b, price) == Wei(a, price) + Wei(b, price)
  {
  }
}