/** The EVM interpreter: checks, the message built from a transaction, and the
    receipt after the gas transition. */
module EvmInterpreter {
  import opened Models
  import opened Ledgers
  import G = GasTransitions

  // What a block provides to its EVM transactions. The beneficiary is the zero address.
  datatype EvmEnv = EvmEnv(schedule: G.GasSchedule, vm: G.Vm, coinbase: Address)

  function Verify(w: World, tx: Transaction): Option<Error> {
    if tx.signer.None? then Some(InvalidSigner)
    else if tx.from !in w.accounts then Some(FromAccountNotFound)
    else if w.accounts[tx.from].isFrozen then Some(FrozenAccount)
    else if tx.signer.value !in w.accounts[tx.from].addresses then Some(InvalidSigner)
    else if tx.to != "" && tx.to !in w.accounts then Some(ToAccountNotFound)
    else None
  }

  function MessageError(w: World, tx: Transaction): Option<Error> {
    if tx.signer.None? then Some(InvalidSigner)
    else if tx.to != "" && tx.to !in w.accounts then Some(ToAccountNotFound)
    else if tx.to != "" && !w.accounts[tx.to].isContract then Some(InvalidContract)
    else None
  }

  // Gas is paid by the signing address; a contract account's CN is its address.
  function TxAsMessage(w: World, tx: Transaction): G.Message
    requires MessageError(w, tx).None?
  {
    G.Message(tx.signer.value, if tx.to == "" then None else Some(w.accounts[tx.to].cn),
              tx.nonce, tx.gasLimit, tx.gasPrice, tx.value, tx.input, true)
  }

  // `gas` is what the transaction adds to the block's used gas.
  datatype Outcome = Outcome(ledger: Ledger, pool: uint64, gas: uint64, success: bool, err: Option<Error>)

  function Applied(env: EvmEnv, w: World, pool: uint64, tx: Transaction): Outcome {
    var bad := MessageError(w, tx);
    if bad.Some? then Outcome(w.ledger, pool, 0, false, bad)
    else
      var t := G.Apply(env.schedule, env.vm, w.ledger, pool, TxAsMessage(w, tx), env.coinbase);
      Outcome(t.ledger, t.pool, t.usedGas, t.err.None? && !t.failed, t.err)
  }

  method ApplyTransaction(env: EvmEnv, db: StateDB, gp: G.GasPool, tx: Transaction, usedGas: uint64)
    returns (receipt: Option<Receipt>, err: Option<Error>, used: uint64)
    requires |tx.input| < 0x8000_0000_0000_0000
    modifies db, gp
    ensures var o := Applied(env, old(db.world), old(gp.gas), tx);
      && err == o.err && gp.gas == o.pool && db.world == old(db.world).(ledger := o.ledger)
      && used == (if err.None? then Wrap(usedGas + o.gas) else usedGas)
      && receipt == if err.None? then Some(Receipt(tx, o.success, o.gas, used)) else None
  {
    err := MessageError(db.world, tx);
    if err.Some? {
      return None, err, usedGas;
    }
    var msg := TxAsMessage(db.world, tx);
    var st := new G.StateTransition(env.schedule, env.vm, gp, msg, db, env.coinbase);
    var gas, failed;
    gas, failed, err := st.TransitionDb();
    if err.Some? {
      return None, err, usedGas;
    }
    used := Wrap(usedGas + gas);
    return Some(Receipt(tx, !failed, gas, used)), None, used;
  }

  // Admitted exactly when the unfrozen sender signed it and the recipient, if any, exists.
  lemma VerifyExactly(w: World, tx: Transaction)
    ensures Verify(w, tx).None? <==> SignedBySender(w, tx) && (tx.to == "" || tx.to in w.accounts)
  {
  }

  // What the VM is asked to do: the signer sends the value and the input, with the limit, price and
  // nonce of the transaction, to the contract it names, or creates one.
  ghost predicate Requests(w: World, tx: Transaction, msg: G.Message) {
    && tx.signer == Some(msg.from)
    && (if tx.to == "" then msg.to == None
        else tx.to in w.accounts && w.accounts[tx.to].isContract && msg.to == Some(w.accounts[tx.to].cn))
    && msg.value == tx.value && msg.data == tx.input && msg.checkNonce
    && msg.gasLimit == tx.gasLimit && msg.gasPrice == tx.gasPrice && msg.nonce == tx.nonce
  }

  // Without a request the transaction is refused and changes nothing.
  lemma NoRequest(env: EvmEnv, w: World, pool: uint64, tx: Transaction)
    requires forall msg :: !Requests(w, tx, msg)
    ensures var o := Applied(env, w, pool, tx);
      o.err.Some? && o.ledger == w.ledger && o.pool == pool && o.gas == 0
  {
    if MessageError(w, tx).None? {
      assert Requests(w, tx, TxAsMessage(w, tx));
    }
  }

  // Otherwise everything is up to the gas transition of that request.
  lemma RequestRuns(env: EvmEnv, w: World, pool: uint64, tx: Transaction, msg: G.Message)
    requires Requests(w, tx, msg)
    ensures var o, t := Applied(env, w, pool, tx), G.Apply(env.schedule, env.vm, w.ledger, pool, msg, env.coinbase);
      && o.err == t.err && o.ledger == t.ledger && o.pool == t.pool && o.gas == t.usedGas
      && (o.success <==> t.err.None? && !t.failed)
  {
    assert msg == TxAsMessage(w, tx);
  }

  // Without an error the VM has run that request, the gas is settled between the signer and the
  // coinbase, and success is what the VM says.
  lemma AppliedExactly(env: EvmEnv, w: World, pool: uint64, tx: Transaction) returns (c: G.VmCall)
    requires G.Conforming(env.vm) && Applied(env, w, pool, tx).err.None?
    ensures Requests(w, tx, c.msg) && G.Starts(env.schedule, w.ledger, c.msg, c)
    ensures NonceOf(w.ledger, c.msg.from) <= tx.nonce
    ensures BalanceOf(w.ledger, c.msg.from) >= tx.gasLimit * tx.gasPrice && pool >= tx.gasLimit
    ensures var o, vo := Applied(env, w, pool, tx), env.vm(c);
      && o.success == vo.err.None? && o.gas == G.Charge(c.msg, vo) && o.pool == pool - o.gas
      && G.Settled(vo, c.msg, env.coinbase, o.ledger, o.gas)
  {
    var msg := TxAsMessage(w, tx);
    c := G.TransitionVerdict(env.schedule, env.vm, w.ledger, pool, msg, env.coinbase);
    c := G.TransitionExactly(env.schedule, env.vm, w.ledger, pool, msg, env.coinbase);
  }

  // The transaction buys its gas, and then its limit does not cover the intrinsic gas or the VM
  // finds that the transfer cannot be paid.
  predicate FailsAfterBuyGas(env: EvmEnv, w: World, pool: uint64, tx: Transaction) {
    MessageError(w, tx).None? &&
    var msg := TxAsMessage(w, tx);
    && G.PreCheck(w.ledger, pool, msg).None?
    && (G.TrueIntrinsicGas(env.schedule, msg.data, msg.to.None?) > msg.gasLimit
        || env.vm(G.CallOf(env.schedule, w.ledger, msg)).err == Some(G.InsufficientBalance))
  }

  // An EVM transaction takes out of the pool exactly the gas it reports or, when it fails
  // after buying gas, its whole limit; reaching the gas limit changes nothing.
  lemma PoolAccounted(env: EvmEnv, w: World, pool: uint64, tx: Transaction)
    requires G.Conforming(env.vm)
    ensures var o := Applied(env, w, pool, tx);
      && (o.err.None? ==> o.pool == pool - o.gas)
      && (o.err.Some? ==> o.gas == 0)
      && (o.err.Some? ==> o.pool == pool - (if FailsAfterBuyGas(env, w, pool, tx) then tx.gasLimit else 0))
      && (o.err == Some(GasLimitReached) ==> o.pool == pool && o.ledger == w.ledger)
  {
    if MessageError(w, tx).None? {
      var msg := TxAsMessage(w, tx);
      if G.Apply(env.schedule, env.vm, w.ledger, pool, msg, env.coinbase).err.None? {
        G.TransitionConserves(env.schedule, env.vm, w.ledger, pool, msg, env.coinbase);
      } else {
        G.TransitionErrors(env.schedule, env.vm, w.ledger, pool, msg, env.coinbase);
      }
    }
  }

  // The total balance falls exactly by what a failed transaction has paid for its gas.
  lemma ValueAccounted(env: EvmEnv, w: World, pool: uint64, tx: Transaction)
    requires G.Conforming(env.vm)
    ensures Total(Applied(env, w, pool, tx).ledger.balances)
      == Total(w.ledger.balances) - (if FailsAfterBuyGas(env, w, pool, tx) then tx.gasLimit * tx.gasPrice else 0)
  {
    if MessageError(w, tx).None? {
      var msg := TxAsMessage(w, tx);
      if G.Apply(env.schedule, env.vm, w.ledger, pool, msg, env.coinbase).err.None? {
        G.TransitionConserves(env.schedule, env.vm, w.ledger, pool, msg, env.coinbase);
      } else {
        G.TransitionErrors(env.schedule, env.vm, w.ledger, pool, msg, env.coinbase);
      }
    }
  }

  // It does happen: with a limit under the intrinsic gas the transaction fails, and its sender, who
  // had just enough for the limit, has nothing left.
  lemma LateFailureBurns(coinbase: Address)
    ensures var vm: G.Vm := (c: G.VmCall) => G.VmOutcome(c.ledger, c.gas, 0, None);
      var env := EvmEnv(G.Prices(21000, 53000, 4, 68), vm, coinbase);
      var w := World(map[], Ledger(map["sender" := 10], map[]), map[]);
      var tx := Transaction("sender", "", Evm, 0, 5, 2, 0, [], Some("sender"), OtherOperation);
      && G.Conforming(vm) && FailsAfterBuyGas(env, w, 5, tx)
      && BalanceOf(Applied(env, w, 5, tx).ledger, "sender") == 0 && Applied(env, w, 5, tx).pool == 0
  {
  }
}
