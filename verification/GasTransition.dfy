/** The gas and balance transition of one EVM message: intrinsic gas, buying
    gas, running the VM, the capped refund, and paying the coinbase. */
module GasTransitions {
  import opened Models
  import opened Ledgers

  // The price constants live in the protocol package; only their positivity is used.
  datatype Prices = Prices(txGas: uint64, createGas: uint64, zeroByte: uint64, nonZeroByte: uint64)
  type GasSchedule = p: Prices | p.zeroByte > 0 && p.nonZeroByte > 0 witness Prices(21000, 53000, 4, 68)

  datatype Message = Message(
    from: string, to: Option<string>, nonce: uint64, gasLimit: uint64, gasPrice: uint64,
    value: int, data: seq<byte>, checkNonce: bool)

  // ---- Intrinsic gas ----

  function NonZeroBytes(data: seq<byte>): (n: nat)
    ensures n <= |data|
  {
    if data == [] then 0
    else (if data[|data| - 1] != 0 then 1 else 0) + NonZeroBytes(data[..|data| - 1])
  }

  function BaseGas(s: GasSchedule, creation: bool): uint64 {
    if creation then s.createGas else s.txGas
  }

  lemma Scaled(a: nat, b: nat, price: nat)
    requires a <= b
    ensures a * price <= b * price
  {
    assert (b - a) * price >= 0;
    assert (b - a) * price == b * price - a * price;
  }

  // The price of the data in unbounded arithmetic, byte by byte.
  function DataGas(s: GasSchedule, data: seq<byte>): nat {
    if data == [] then 0
    else DataGas(s, data[..|data| - 1]) + if data[|data| - 1] == 0 then s.zeroByte else s.nonZeroByte
  }

  function TrueIntrinsicGas(s: GasSchedule, data: seq<byte>, creation: bool): nat {
    BaseGas(s, creation) + DataGas(s, data)
  }

  // The code counts instead.
  lemma {:induction false} DataGasByCount(s: GasSchedule, data: seq<byte>)
    ensures var nz := NonZeroBytes(data);
      DataGas(s, data) == nz * s.nonZeroByte + (|data| - nz) * s.zeroByte
  {
    if data != [] {
      var front := data[..|data| - 1];
      var nz := NonZeroBytes(front);
      DataGasByCount(s, front);
      assert (nz + 1) * s.nonZeroByte == nz * s.nonZeroByte + s.nonZeroByte;
      assert (|front| - nz + 1) * s.zeroByte == (|front| - nz) * s.zeroByte + s.zeroByte;
    }
  }

  // The price by what it is made of: a base for no data, and each byte adds its own price.
  lemma IntrinsicByByte(s: GasSchedule, data: seq<byte>, b: byte, creation: bool)
    ensures TrueIntrinsicGas(s, [], creation) == if creation then s.createGas else s.txGas
    ensures TrueIntrinsicGas(s, data + [b], creation)
         == TrueIntrinsicGas(s, data, creation) + if b == 0 then s.zeroByte else s.nonZeroByte
  {
    assert (data + [b])[..|data|] == data;
  }

  // A division guard refuses exactly the counts whose product does not fit.
  lemma DivisionGuard(room: nat, price: nat, count: nat)
    requires price > 0
    ensures room / price < count <==> count * price > room
  {
    var q, r := room / price, room % price;
    assert room == q * price + r && 0 <= r < price;
    if q < count {
      Scaled(q + 1, count, price);
      assert (q + 1) * price == q * price + price;
    } else {
      Scaled(count, q, price);
    }
  }

  // The two guards together refuse exactly the prices that do not fit.
  lemma TwoGuards(s: GasSchedule, data: seq<byte>, creation: bool, nz: nat, z: nat)
    requires nz == NonZeroBytes(data) && nz + z == |data|
    ensures var gas, more := BaseGas(s, creation), nz * s.nonZeroByte;
      && more >= 0
      && (if (MAX_UINT64 - gas) / s.nonZeroByte < nz then TrueIntrinsicGas(s, data, creation) > MAX_UINT64
          else && gas + more <= MAX_UINT64
               && ((MAX_UINT64 - (gas + more)) / s.zeroByte < z
                   <==> TrueIntrinsicGas(s, data, creation) > MAX_UINT64))
      && TrueIntrinsicGas(s, data, creation) == gas + more + z * s.zeroByte
  {
    var gas := BaseGas(s, creation);
    DataGasByCount(s, data);
    Scaled(0, z, s.zeroByte);
    Scaled(0, nz, s.nonZeroByte);
    DivisionGuard(MAX_UINT64 - gas, s.nonZeroByte, nz);
    if nz * s.nonZeroByte <= MAX_UINT64 - gas {
      DivisionGuard(MAX_UINT64 - (gas + nz * s.nonZeroByte), s.zeroByte, z);
    }
  }

  // A Go slice is shorter than 2^63 bytes.
  method IntrinsicGas(s: GasSchedule, data: seq<byte>, contractCreation: bool)
    returns (gas: uint64, err: Option<Error>)
    requires |data| < 0x8000_0000_0000_0000
    ensures err.None? <==> TrueIntrinsicGas(s, data, contractCreation) <= MAX_UINT64
    ensures err.None? ==> gas == TrueIntrinsicGas(s, data, contractCreation)
    ensures err.Some? ==> gas == 0 && err.value == OutOfGas
  {
    if contractCreation {
      gas := s.createGas;
    } else {
      gas := s.txGas;
    }
    if |data| > 0 {
      var nz: uint64 := 0;
      var i := 0;
      while i < |data|
        invariant 0 <= i <= |data| && nz == NonZeroBytes(data[..i])
      {
        assert data[..i + 1][..i] == data[..i];
        if data[i] != 0 {
          nz := nz + 1;
        }
        i := i + 1;
      }
      assert data[..i] == data;
      var z: uint64 := |data| - nz;
      TwoGuards(s, data, contractCreation, nz, z);
      if (MAX_UINT64 - gas) / s.nonZeroByte < nz {
        return 0, Some(OutOfGas);
      }
      gas := gas + nz * s.nonZeroByte;
      if (MAX_UINT64 - gas) / s.zeroByte < z {
        return 0, Some(OutOfGas);
      }
      gas := gas + z * s.zeroByte;
    }
    err := None;
  }

  // ---- The VM ----

  datatype VmError = InsufficientBalance | OtherVmError
  datatype VmCall = VmCall(ledger: Ledger, msg: Message, gas: uint64)
  datatype VmOutcome = VmOutcome(ledger: Ledger, gasLeft: uint64, refund: uint64, err: Option<VmError>)
  type Vm = VmCall -> VmOutcome

  ghost predicate Conforms(c: VmCall, o: VmOutcome) {
    && o.gasLeft <= c.gas
    && Total(o.ledger.balances) == Total(c.ledger.balances)
    && (o.err == Some(InsufficientBalance) ==> o.ledger.balances == c.ledger.balances)
  }

  // Any virtual machine that returns no more gas than it was given, keeps the total balance,
  // and leaves balances alone when it reports that the transfer cannot be paid.
  ghost predicate Conforming(vm: Vm) {
    forall c :: Conforms(c, vm(c))
  }

  // ---- Reference: one message ----

  datatype Transition = Transition(ledger: Ledger, pool: uint64, usedGas: uint64, failed: bool, err: Option<Error>)

  function Price(gas: uint64, msg: Message): int {
    gas * msg.gasPrice
  }

  // The checks before any gas is bought.
  function PreCheck(l: Ledger, pool: uint64, msg: Message): Option<Error> {
    if msg.checkNonce && NonceOf(l, msg.from) > msg.nonce then Some(NonceTooLow)
    else if BalanceOf(l, msg.from) < Price(msg.gasLimit, msg) then Some(InsufficientBalanceForGas)
    else if pool < msg.gasLimit then Some(GasLimitReached)
    else None
  }

  // What the VM is started with once intrinsic gas is paid.
  function CallOf(s: GasSchedule, l: Ledger, msg: Message): VmCall
    requires TrueIntrinsicGas(s, msg.data, msg.to.None?) <= msg.gasLimit
  {
    var bought := Credit(l, msg.from, -Price(msg.gasLimit, msg));
    var started := if msg.to.None? then bought
                   else WithNonce(bought, msg.from, Wrap(NonceOf(l, msg.from) + 1));
    VmCall(started, msg, msg.gasLimit - TrueIntrinsicGas(s, msg.data, msg.to.None?))
  }

  // The refund counter, capped to half of the gas used.
  function CappedRefund(used: uint64, refund: uint64): uint64 {
    if used / 2 > refund then refund else used / 2
  }

  // What is left of the limit once the capped refund is added, in the code's uint64 arithmetic.
  function Remainder(limit: uint64, gasLeft: uint64, refund: uint64): uint64 {
    Wrap(gasLeft + CappedRefund(Wrap(limit - gasLeft), refund))
  }

  // Return of the remainder and the coinbase's fee.
  function Paid(o: VmOutcome, pool: uint64, msg: Message, coinbase: string, gas: uint64, used: uint64): Transition {
    Transition(Credit(Credit(o.ledger, msg.from, Price(gas, msg)), coinbase, Price(used, msg)),
               Wrap(pool + gas), used, o.err.Some?, None)
  }

  function Settle(o: VmOutcome, pool: uint64, msg: Message, coinbase: string): Transition {
    var gas := Remainder(msg.gasLimit, o.gasLeft, o.refund);
    Paid(o, pool, msg, coinbase, gas, Wrap(msg.gasLimit - gas))
  }

  // After the VM call.
  function Finish(o: VmOutcome, pool: uint64, msg: Message, coinbase: string): Transition {
    if o.err == Some(InsufficientBalance) then Transition(o.ledger, pool, 0, false, Some(VmInsufficientBalance))
    else Settle(o, pool, msg, coinbase)
  }

  function Apply(s: GasSchedule, vm: Vm, l: Ledger, pool: uint64, msg: Message, coinbase: string): Transition {
    var check := PreCheck(l, pool, msg);
    if check.Some? then Transition(l, pool, 0, false, check)
    else if TrueIntrinsicGas(s, msg.data, msg.to.None?) > msg.gasLimit then
      Transition(Credit(l, msg.from, -Price(msg.gasLimit, msg)), pool - msg.gasLimit, 0, false, Some(OutOfGas))
    else Finish(vm(CallOf(s, l, msg)), pool - msg.gasLimit, msg, coinbase)
  }

  // ---- Properties ----

  // The settlement by its remainder and the gas used.
  lemma SettleIs(o: VmOutcome, pool: uint64, msg: Message, coinbase: string, gas: uint64, used: uint64)
    requires gas == Remainder(msg.gasLimit, o.gasLeft, o.refund) && used == Wrap(msg.gasLimit - gas)
    ensures Settle(o, pool, msg, coinbase) == Paid(o, pool, msg, coinbase, gas, used)
  {
  }

  // Nothing wraps while settling, and at least half of the gas used stays used.
  lemma SettleDoesNotWrap(s: GasSchedule, vm: Vm, l: Ledger, pool: uint64, msg: Message)
    requires Conforming(vm) && PreCheck(l, pool, msg).None?
    requires TrueIntrinsicGas(s, msg.data, msg.to.None?) <= msg.gasLimit
    ensures var o := vm(CallOf(s, l, msg));
      var before := msg.gasLimit - o.gasLeft;
      var gas := o.gasLeft + CappedRefund(Wrap(before), o.refund);
      && 0 <= before <= msg.gasLimit && Wrap(before) == before
      && o.gasLeft <= gas <= msg.gasLimit && pool - msg.gasLimit + gas <= pool
      && msg.gasLimit - gas >= (before + 1) / 2
  {
    assert Conforms(CallOf(s, l, msg), vm(CallOf(s, l, msg)));
  }

  lemma TwoCredits(l: Ledger, who: string, amount: int, other: string, fee: int)
    ensures Total(Credit(Credit(l, who, amount), other, fee).balances) == Total(l.balances) + amount + fee
  {
    CreditAddsToTotal(l, who, amount);
    CreditAddsToTotal(Credit(l, who, amount), other, fee);
  }

  lemma RemainderShape(limit: uint64, gasLeft: uint64, refund: uint64)
    requires gasLeft <= limit
    ensures gasLeft + CappedRefund(limit - gasLeft, refund) <= limit
    ensures Remainder(limit, gasLeft, refund) == gasLeft + CappedRefund(limit - gasLeft, refund)
  {
    WrapAtMost(limit - gasLeft);
    WrapAtMost(gasLeft + CappedRefund(limit - gasLeft, refund));
  }

  lemma PaidShape(o: VmOutcome, pool: uint64, msg: Message, coinbase: string, gas: uint64, used: uint64)
    requires pool + gas <= MAX_UINT64
    ensures Paid(o, pool, msg, coinbase, gas, used) == Transition(
      Credit(Credit(o.ledger, msg.from, Price(gas, msg)), coinbase, Price(used, msg)),
      pool + gas, used, o.err.Some?, None)
  {
    WrapAtMost(pool + gas);
  }

  // The settlement with the wrap-arounds that never happen taken out.
  lemma SettleShape(o: VmOutcome, pool: uint64, msg: Message, coinbase: string) returns (gas: uint64)
    requires o.gasLeft <= msg.gasLimit && pool + msg.gasLimit <= MAX_UINT64
    ensures o.gasLeft <= gas <= msg.gasLimit
    ensures gas == o.gasLeft + CappedRefund(msg.gasLimit - o.gasLeft, o.refund)
    ensures Settle(o, pool, msg, coinbase) == Transition(
      Credit(Credit(o.ledger, msg.from, Price(gas, msg)), coinbase, Price(msg.gasLimit - gas, msg)),
      pool + gas, msg.gasLimit - gas, o.err.Some?, None)
  {
    gas := o.gasLeft + CappedRefund(msg.gasLimit - o.gasLeft, o.refund);
    RemainderShape(msg.gasLimit, o.gasLeft, o.refund);
    WrapAtMost(msg.gasLimit - gas);
    PaidShape(o, pool, msg, coinbase, gas, msg.gasLimit - gas);
    SettleIs(o, pool, msg, coinbase, gas, msg.gasLimit - gas);
  }

  lemma SplitPrice(a: int, b: int, price: int)
    ensures a * price + b * price == (a + b) * price
  {
  }

  // The remainder and the fee together are what was paid for the gas.
  lemma SettlePaysBack(o: VmOutcome, pool: uint64, msg: Message, coinbase: string)
    requires o.gasLeft <= msg.gasLimit && pool + msg.gasLimit <= MAX_UINT64
    ensures var t := Settle(o, pool, msg, coinbase);
      && Total(t.ledger.balances) == Total(o.ledger.balances) + Price(msg.gasLimit, msg)
      && t.pool == pool + msg.gasLimit - t.usedGas && t.usedGas <= msg.gasLimit
  {
    var gas := SettleShape(o, pool, msg, coinbase);
    TwoCredits(o.ledger, msg.from, Price(gas, msg), coinbase, Price(msg.gasLimit - gas, msg));
    SplitPrice(gas, msg.gasLimit - gas, msg.gasPrice);
  }

  // Every error-free path conserves value, whoever the coinbase is, and the gas pool falls by
  // exactly the gas reported as used.
  lemma TransitionConserves(s: GasSchedule, vm: Vm, l: Ledger, pool: uint64, msg: Message, coinbase: string)
    requires Conforming(vm) && Apply(s, vm, l, pool, msg, coinbase).err.None?
    ensures var t := Apply(s, vm, l, pool, msg, coinbase);
      && Total(t.ledger.balances) == Total(l.balances)
      && t.pool == pool - t.usedGas
      && t.usedGas <= msg.gasLimit <= pool
  {
    CreditAddsToTotal(l, msg.from, -Price(msg.gasLimit, msg));
    SettleDoesNotWrap(s, vm, l, pool, msg);
    var o := vm(CallOf(s, l, msg));
    assert Conforms(CallOf(s, l, msg), o);
    SettlePaysBack(o, pool - msg.gasLimit, msg, coinbase);
  }

  // An error found before gas is bought changes nothing; any later error leaves exactly
  // gasLimit * gasPrice debited and the whole gas limit out of the pool.
  lemma TransitionErrors(s: GasSchedule, vm: Vm, l: Ledger, pool: uint64, msg: Message, coinbase: string)
    requires Conforming(vm) && Apply(s, vm, l, pool, msg, coinbase).err.Some?
    ensures var t := Apply(s, vm, l, pool, msg, coinbase);
      var early := PreCheck(l, pool, msg).Some?;
      && t.usedGas == 0
      && (early ==> t.ledger == l && t.pool == pool)
      && (!early ==> t.pool == pool - msg.gasLimit)
      && (t.err == Some(OutOfGas) ==> t.ledger.nonces == l.nonces)
      && (!early ==> t.ledger.balances == Credit(l, msg.from, -(msg.gasLimit * msg.gasPrice)).balances)
      && (!early ==> Total(t.ledger.balances) == Total(l.balances) - msg.gasLimit * msg.gasPrice)
      && (t.err.value in {NonceTooLow, InsufficientBalanceForGas, GasLimitReached} <==> early)
  {
    CreditAddsToTotal(l, msg.from, -Price(msg.gasLimit, msg));
    if PreCheck(l, pool, msg).None? && TrueIntrinsicGas(s, msg.data, msg.to.None?) <= msg.gasLimit {
      assert Conforms(CallOf(s, l, msg), vm(CallOf(s, l, msg)));
    }
  }

  // ---- One message by its purpose ----

  // The call a message comes to: the whole limit is paid, the nonce stepped unless a contract is
  // created, and the VM gets the limit less the intrinsic gas.
  ghost predicate Starts(s: GasSchedule, l: Ledger, msg: Message, c: VmCall) {
    && c.msg == msg
    && c.gas == msg.gasLimit - TrueIntrinsicGas(s, msg.data, msg.to.None?)
    && c.ledger.balances == l.balances[msg.from := BalanceOf(l, msg.from) - msg.gasLimit * msg.gasPrice]
    && c.ledger.nonces == if msg.to.None? then l.nonces else l.nonces[msg.from := Wrap(NonceOf(l, msg.from) + 1)]
  }

  // What a VM outcome costs: the gas used less a refund of at most half of it.
  function Charge(msg: Message, o: VmOutcome): int {
    var used := msg.gasLimit - o.gasLeft;
    used - if o.refund < used / 2 then o.refund else used / 2
  }

  // The remainder of the limit goes back to the sender, the charge to the coinbase.
  ghost predicate Settled(o: VmOutcome, msg: Message, coinbase: string, l: Ledger, charge: int) {
    && l.nonces == o.ledger.nonces
    && forall who :: BalanceOf(l, who) == BalanceOf(o.ledger, who)
                       + (if who == msg.from then (msg.gasLimit - charge) * msg.gasPrice else 0)
                       + (if who == coinbase then charge * msg.gasPrice else 0)
  }

  lemma CreditsSettle(o: VmOutcome, msg: Message, coinbase: string, gas: uint64, charge: uint64)
    requires gas == msg.gasLimit - charge
    ensures Settled(o, msg, coinbase,
                    Credit(Credit(o.ledger, msg.from, Price(gas, msg)), coinbase, Price(charge, msg)), charge)
  {
  }

  lemma ChargeIs(msg: Message, o: VmOutcome, intrinsic: nat)
    requires intrinsic + o.gasLeft <= msg.gasLimit
    ensures var gas := o.gasLeft + CappedRefund(msg.gasLimit - o.gasLeft, o.refund);
      msg.gasLimit - gas == Charge(msg, o) >= (intrinsic + 1) / 2
  {
  }

  // Which error comes out, check by check; only the last one has the VM run.
  lemma TransitionVerdict(s: GasSchedule, vm: Vm, l: Ledger, pool: uint64, msg: Message, coinbase: string)
    returns (c: VmCall)
    ensures var intrinsic := TrueIntrinsicGas(s, msg.data, msg.to.None?);
      && (intrinsic <= msg.gasLimit ==> Starts(s, l, msg, c))
      && Apply(s, vm, l, pool, msg, coinbase).err
         == if msg.checkNonce && NonceOf(l, msg.from) > msg.nonce then Some(NonceTooLow)
            else if BalanceOf(l, msg.from) < msg.gasLimit * msg.gasPrice then Some(InsufficientBalanceForGas)
            else if pool < msg.gasLimit then Some(GasLimitReached)
            else if intrinsic > msg.gasLimit then Some(OutOfGas)
            else if vm(c).err == Some(InsufficientBalance) then Some(VmInsufficientBalance)
            else None
    ensures var t := Apply(s, vm, l, pool, msg, coinbase);
      t.err == Some(VmInsufficientBalance) ==> t.ledger == vm(c).ledger
  {
    c := if TrueIntrinsicGas(s, msg.data, msg.to.None?) <= msg.gasLimit then CallOf(s, l, msg) else VmCall(l, msg, 0);
  }

  lemma SettleExactly(o: VmOutcome, pool: uint64, msg: Message, coinbase: string, intrinsic: nat)
    requires intrinsic + o.gasLeft <= msg.gasLimit && pool + msg.gasLimit <= MAX_UINT64
    ensures var t := Settle(o, pool, msg, coinbase);
      && t.usedGas == Charge(msg, o) && t.usedGas >= (intrinsic + 1) / 2
      && t.pool == pool + msg.gasLimit - t.usedGas && t.failed == o.err.Some?
      && Settled(o, msg, coinbase, t.ledger, t.usedGas)
  {
    var gas := SettleShape(o, pool, msg, coinbase);
    ChargeIs(msg, o, intrinsic);
    CreditsSettle(o, msg, coinbase, gas, msg.gasLimit - gas);
  }

  // Without an error the intrinsic gas has been charged, at least half of it finally, and beyond
  // the settlement everything is as the VM left it.
  lemma TransitionExactly(s: GasSchedule, vm: Vm, l: Ledger, pool: uint64, msg: Message, coinbase: string)
    returns (c: VmCall)
    requires Conforming(vm) && Apply(s, vm, l, pool, msg, coinbase).err.None?
    ensures Starts(s, l, msg, c) && vm(c).err != Some(InsufficientBalance)
    ensures var t := Apply(s, vm, l, pool, msg, coinbase);
      && t.usedGas == Charge(msg, vm(c)) && t.usedGas >= (TrueIntrinsicGas(s, msg.data, msg.to.None?) + 1) / 2
      && t.pool == pool - t.usedGas && t.failed == vm(c).err.Some?
      && Settled(vm(c), msg, coinbase, t.ledger, t.usedGas)
  {
    c := CallOf(s, l, msg);
    assert Conforms(c, vm(c));
    SettleExactly(vm(c), pool - msg.gasLimit, msg, coinbase, TrueIntrinsicGas(s, msg.data, msg.to.None?));
  }

  // ---- The transition object ----

  // The block's gas pool.
  class GasPool {
    var gas: uint64

    constructor (totalGas: uint64)
      ensures gas == totalGas
    {
      gas := totalGas;
    }

    method SubGas(amount: uint64) returns (err: Option<Error>)
      modifies this
      ensures if old(gas) < amount then err == Some(GasLimitReached) && gas == old(gas)
              else err == None && gas == old(gas) - amount
    {
      if gas < amount {
        return Some(GasLimitReached);
      }
      gas := gas - amount;
      return None;
    }

    method AddGas(amount: uint64)
      modifies this
      ensures gas == Wrap(old(gas) + amount)
    {
      gas := Wrap(gas + amount);
    }
  }

  class StateTransition {
    const schedule: GasSchedule
    const vm: Vm
    const gp: GasPool
    const msg: Message
    const state: StateDB
    const coinbase: string
    var gas: uint64
    var initialGas: uint64

    constructor (schedule: GasSchedule, vm: Vm, gp: GasPool, msg: Message, state: StateDB, coinbase: string)
      ensures this.schedule == schedule && this.vm == vm && this.gp == gp && this.msg == msg
      ensures this.state == state && this.coinbase == coinbase && gas == 0 && initialGas == 0
    {
      this.schedule, this.vm, this.gp, this.msg := schedule, vm, gp, msg;
      this.state, this.coinbase := state, coinbase;
      gas, initialGas := 0, 0;
    }

    function GasUsed(): uint64
      reads this
    {
      Wrap(initialGas - gas)
    }

    method UseGas(amount: uint64) returns (err: Option<Error>)
      modifies `gas
      ensures if old(gas) < amount then err == Some(OutOfGas) && gas == old(gas)
              else err == None && gas == old(gas) - amount
    {
      if gas < amount {
        return Some(OutOfGas);
      }
      gas := gas - amount;
      return None;
    }

    method BuyGas() returns (err: Option<Error>)
      requires gas == 0
      modifies this, gp, state
      ensures err == PreCheck(old(state.world.ledger), old(gp.gas), msg.(checkNonce := false))
      ensures err.Some? ==> state.world == old(state.world) && gp.gas == old(gp.gas)
      ensures err.None? ==> gas == initialGas == msg.gasLimit && gp.gas == old(gp.gas) - msg.gasLimit
      ensures var w := old(state.world);
        err.None? ==> state.world == w.(ledger := Credit(w.ledger, msg.from, -Price(msg.gasLimit, msg)))
    {
      var mgval := msg.gasLimit * msg.gasPrice;
      var balance := BalanceOf(state.world.ledger, msg.from);
      if balance < mgval {
        return Some(InsufficientBalanceForGas);
      }
      err := gp.SubGas(msg.gasLimit);
      if err.Some? {
        return;
      }
      gas := Wrap(gas + msg.gasLimit);
      initialGas := msg.gasLimit;
      state.SubBalance(msg.from, mgval);
    }

    method PreCheckAndBuy() returns (err: Option<Error>)
      requires gas == 0
      modifies this, gp, state
      ensures err == PreCheck(old(state.world.ledger), old(gp.gas), msg)
      ensures err.Some? ==> state.world == old(state.world) && gp.gas == old(gp.gas)
      ensures err.None? ==> gas == initialGas == msg.gasLimit && gp.gas == old(gp.gas) - msg.gasLimit
      ensures var w := old(state.world);
        err.None? ==> state.world == w.(ledger := Credit(w.ledger, msg.from, -Price(msg.gasLimit, msg)))
    {
      if msg.checkNonce {
        var nonce := NonceOf(state.world.ledger, msg.from);
        if nonce > msg.nonce {
          return Some(NonceTooLow);
        }
      }
      err := BuyGas();
    }

    method RefundGas(refundCounter: uint64)
      modifies this, gp, state
      ensures initialGas == old(initialGas)
      ensures gas == Remainder(initialGas, old(gas), refundCounter)
      ensures gp.gas == Wrap(old(gp.gas) + gas)
      ensures state.world == old(state.world).(ledger := Credit(old(state.world).ledger, msg.from, Price(gas, msg)))
    {
      var refund := GasUsed() / 2;
      if refund > refundCounter {
        refund := refundCounter;
      }
      gas := Wrap(gas + refund);
      var remaining := gas * msg.gasPrice;
      state.AddBalance(msg.from, remaining);
      gp.AddGas(gas);
    }

    // Refund and fee, once the VM has returned without a consensus error.
    method PayOut(outcome: VmOutcome) returns (usedGas: uint64)
      requires initialGas == msg.gasLimit && gas == outcome.gasLeft && state.world.ledger == outcome.ledger
      modifies this, gp, state
      ensures gas == Remainder(msg.gasLimit, outcome.gasLeft, outcome.refund) && usedGas == Wrap(msg.gasLimit - gas)
      ensures gp.gas == Wrap(old(gp.gas) + gas)
      ensures state.world
        == old(state.world).(ledger := Paid(outcome, old(gp.gas), msg, coinbase, gas, usedGas).ledger)
    {
      RefundGas(outcome.refund);
      usedGas := GasUsed();
      state.AddBalance(coinbase, Price(usedGas, msg));
    }

    // TransitionDb from the VM call on.
    method Execute(contractCreation: bool) returns (usedGas: uint64, failed: bool, err: Option<Error>)
      requires initialGas == msg.gasLimit
      modifies this, gp, state
      ensures var l := old(state.world.ledger);
        var started := if contractCreation then l else WithNonce(l, msg.from, Wrap(NonceOf(l, msg.from) + 1));
        var t := Finish(vm(VmCall(started, msg, old(gas))), old(gp.gas), msg, coinbase);
        && usedGas == t.usedGas && failed == t.failed && err == t.err
        && gp.gas == t.pool && state.world == old(state.world).(ledger := t.ledger)
    {
      if !contractCreation {
        state.SetNonce(msg.from, Wrap(NonceOf(state.world.ledger, msg.from) + 1));
      }
      var outcome := vm(VmCall(state.world.ledger, msg, gas));
      state.world := state.world.(ledger := outcome.ledger);
      gas := outcome.gasLeft;
      if outcome.err == Some(InsufficientBalance) {
        return 0, false, Some(VmInsufficientBalance);
      }
      usedGas := PayOut(outcome);
      SettleIs(outcome, old(gp.gas), msg, coinbase, gas, usedGas);
      return usedGas, outcome.err.Some?, None;
    }

    method TransitionDb() returns (usedGas: uint64, failed: bool, err: Option<Error>)
      requires gas == 0 && |msg.data| < 0x8000_0000_0000_0000
      modifies this, gp, state
      ensures var t := Apply(schedule, vm, old(state.world.ledger), old(gp.gas), msg, coinbase);
        && usedGas == t.usedGas && failed == t.failed && err == t.err
        && gp.gas == t.pool && state.world == old(state.world).(ledger := t.ledger)
    {
      err := PreCheckAndBuy();
      if err.Some? {
        return 0, false, err;
      }
      var contractCreation := msg.to.None?;
      var intrinsic: uint64;
      intrinsic, err := IntrinsicGas(schedule, msg.data, contractCreation);
      if err.Some? {
        return 0, false, err;
      }
      err := UseGas(intrinsic);
      if err.Some? {
        return 0, false, err;
      }
      usedGas, failed, err := Execute(contractCreation);
    }
  }
}
