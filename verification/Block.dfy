/** The application's block work: `Prepare` runs a block's transactions through
    their interpreters, `Commit` rewrites the receipts. */
module Blocks {
  import opened Models
  import opened Ledgers
  import opened WorldRuns
  import A = AccountInterpreter
  import L = LostInterpreter
  import B = BaseInterpreter
  import E = EvmInterpreter
  import G = GasTransitions
  import N = NonceQueues

  // What a block's transactions see beside the world: the height of the last stored block,
  // the header's time, and the EVM surroundings.
  datatype Env = Env(height: uint64, headerTime: uint64, evm: E.EvmEnv)

  // An element of the block: something that is no state transaction, or one together with
  // the clock readings its verification and its application will make.
  datatype Entry = Foreign | Tx(tx: Transaction, clockVerify: uint64, clockApply: uint64)

  function VerifyTx(w: World, tx: Transaction, now: uint64): Option<Error> {
    match tx.interpreter
    case Base => B.Verify(w, tx)
    case AccountOps => A.Verify(w, tx)
    case Lost => L.Verify(w, tx, now)
    case Evm => E.Verify(w, tx)
  }

  // The outcome of one ApplyTransaction call. `charge` is what it added to usedGas.
  datatype Applied = Applied(world: World, pool: uint64, charge: uint64, success: bool, err: Option<Error>)

  function ApplyTx(env: Env, w: World, pool: uint64, tx: Transaction, now: uint64): Applied {
    match tx.interpreter
    case Base =>
      var t := B.Transferred(w.ledger, tx);
      if t.Some? then Applied(w.(ledger := t.value), pool, B.TRANSFER_GAS, true, None)
      else Applied(w, pool, B.TRANSFER_GAS, true, Some(NonceMismatch))
    case AccountOps =>
      var err := A.Verify(w, tx);
      Applied(A.Step(w, tx, env.height), pool, if err.None? then A.ACCOUNT_OP_GAS else 0, true, err)
    case Lost =>
      var err := L.Verify(w, tx, now);
      Applied(L.Step(w, tx, env.headerTime, now), pool, if err.None? then L.LOST_OP_GAS else 0, true, err)
    case Evm =>
      var o := E.Applied(env.evm, w, pool, tx);
      Applied(w.(ledger := o.ledger), o.pool, if o.err.None? then o.gas else 0, o.success, o.err)
  }

  // ---- Reference: the block as a fold ----

  // The account book of one applied transaction: gas added to usedGas, whether a receipt
  // shows it, and gas gone from the pool without being reported as used.
  datatype Charge = Charge(tx: Transaction, gas: uint64, receipted: bool, success: bool, burned: uint64)

  datatype BlockState = BlockState(
    world: World,
    pool: uint64,
    used: uint64,
    okTxs: seq<Transaction>,
    errTxs: seq<Option<Transaction>>,
    receipts: seq<Receipt>,
    queues: map<string, N.Queue>,
    halted: bool,
    charges: seq<Charge>,
    acts: seq<Action>)

  function Start(w: World, totalGas: uint64, queues: map<string, N.Queue>): BlockState {
    BlockState(w, totalGas, 0, [], [], [], queues, false, [], [])
  }

  function ActionOf(env: Env, tx: Transaction, now: uint64, after: World): Action {
    match tx.interpreter
    case Base => BaseTx(tx)
    case AccountOps => AccountTx(tx, env.height)
    case Lost => LostTx(tx, env.headerTime, now)
    case Evm => EvmTx(after.ledger)
  }

  function BurnedGas(env: Env, st: BlockState, tx: Transaction): uint64 {
    if tx.interpreter.Evm? && E.FailsAfterBuyGas(env.evm, st.world, st.pool, tx) then tx.gasLimit else 0
  }

  function ChargeOf(tx: Transaction, a: Applied, burned: uint64): Charge {
    Charge(tx, a.charge, a.err.None?, a.success, burned)
  }

  // A transaction that passed verification has been applied, or the block is full. A failed
  // one is in neither list, and whatever it changed stays.
  function Recorded(st: BlockState, tx: Transaction, a: Applied, burned: uint64, act: Action): BlockState {
    if a.err == Some(GasLimitReached) then st.(world := a.world, pool := a.pool, halted := true)
    else
      var used := Wrap(st.used + a.charge);
      var done := st.(world := a.world, pool := a.pool, used := used,
                      charges := st.charges + [ChargeOf(tx, a, burned)], acts := st.acts + [act]);
      if a.err.Some? then done
      else done.(okTxs := st.okTxs + [tx], receipts := st.receipts + [Receipt(tx, a.success, a.charge, used)],
                 queues := N.Step(st.queues, N.Prepared(tx)))
  }

  function Execute(env: Env, st: BlockState, tx: Transaction, now: uint64): BlockState {
    var a := ApplyTx(env, st.world, st.pool, tx, now);
    Recorded(st, tx, a, BurnedGas(env, st, tx), ActionOf(env, tx, now, a.world))
  }

  function Step(env: Env, totalGas: uint64, st: BlockState, e: Entry): BlockState {
    if st.halted then st
    else match e
      case Foreign => st.(errTxs := st.errTxs + [None])
      case Tx(tx, clockVerify, clockApply) =>
        if totalGas < st.used then st.(halted := true)
        else if VerifyTx(st.world, tx, clockVerify).Some? then st.(errTxs := st.errTxs + [Some(tx)])
        else Execute(env, st, tx, clockApply)
  }

  function Fold(env: Env, totalGas: uint64, st: BlockState, entries: seq<Entry>): BlockState
    decreases |entries|
  {
    if entries == [] then st else Fold(env, totalGas, Step(env, totalGas, st, entries[0]), entries[1..])
  }

  lemma {:induction false} HaltedStays(env: Env, totalGas: uint64, st: BlockState, entries: seq<Entry>)
    requires st.halted
    ensures Fold(env, totalGas, st, entries) == st
    decreases |entries|
  {
    if entries != [] {
      HaltedStays(env, totalGas, st, entries[1..]);
    }
  }

  lemma {:induction false} FoldNext(env: Env, totalGas: uint64, st: BlockState, entries: seq<Entry>, e: Entry)
    ensures Fold(env, totalGas, st, entries + [e]) == Step(env, totalGas, Fold(env, totalGas, st, entries), e)
    decreases |entries|
  {
    if entries == [] {
      assert [e][1..] == [] && entries + [e] == [e];
    } else {
      assert (entries + [e])[1..] == entries[1..] + [e];
      FoldNext(env, totalGas, Step(env, totalGas, st, entries[0]), entries[1..], e);
    }
  }

  // The state in which the k-th element's turn comes.
  function Turn(env: Env, totalGas: uint64, st: BlockState, entries: seq<Entry>, k: nat): BlockState
    requires k <= |entries|
  {
    Fold(env, totalGas, st, entries[..k])
  }

  lemma TurnEnds(env: Env, totalGas: uint64, st: BlockState, entries: seq<Entry>)
    ensures Turn(env, totalGas, st, entries, 0) == st
    ensures Turn(env, totalGas, st, entries, |entries|) == Fold(env, totalGas, st, entries)
  {
    assert entries[..0] == [] && entries[..|entries|] == entries;
  }

  lemma TurnNext(env: Env, totalGas: uint64, st: BlockState, entries: seq<Entry>, k: nat)
    requires k < |entries|
    ensures Turn(env, totalGas, st, entries, k + 1)
      == Step(env, totalGas, Turn(env, totalGas, st, entries, k), entries[k])
  {
    assert entries[..k + 1] == entries[..k] + [entries[k]];
    FoldNext(env, totalGas, st, entries[..k], entries[k]);
  }

  function PrepareResult(env: Env, totalGas: uint64, w: World, queues: map<string, N.Queue>, entries: seq<Entry>)
    : BlockState
  {
    Fold(env, totalGas, Start(w, totalGas, queues), entries)
  }

  // ---- The gas ledger ----

  function TotalCharged(charges: seq<Charge>): nat {
    if charges == [] then 0 else TotalCharged(charges[..|charges| - 1]) + charges[|charges| - 1].gas
  }

  // Gas used by successful EVM transactions.
  function EvmUsed(charges: seq<Charge>): nat {
    if charges == [] then 0
    else
      var last := charges[|charges| - 1];
      EvmUsed(charges[..|charges| - 1]) + (if last.tx.interpreter.Evm? && last.receipted then last.gas else 0)
  }

  // Gas limits of EVM transactions that failed after buying gas.
  function EvmBurned(charges: seq<Charge>): nat {
    if charges == [] then 0 else EvmBurned(charges[..|charges| - 1]) + charges[|charges| - 1].burned
  }

  function LastCharge(charges: seq<Charge>): uint64 {
    if charges == [] then 0 else charges[|charges| - 1].gas
  }

  ghost predicate BalancedBy(totalGas: uint64, pool: uint64, used: uint64, charges: seq<Charge>) {
    && pool + EvmUsed(charges) + EvmBurned(charges) == totalGas
    && used == Wrap(TotalCharged(charges))
    && used <= totalGas + LastCharge(charges)
  }

  ghost predicate Balanced(totalGas: uint64, st: BlockState) {
    BalancedBy(totalGas, st.pool, st.used, st.charges)
  }

  // One more charge in the books.
  lemma ChargeAdds(charges: seq<Charge>, c: Charge)
    ensures var all := charges + [c];
      && TotalCharged(all) == TotalCharged(charges) + c.gas
      && EvmUsed(all) == EvmUsed(charges) + (if c.tx.interpreter.Evm? && c.receipted then c.gas else 0)
      && EvmBurned(all) == EvmBurned(charges) + c.burned
      && LastCharge(all) == c.gas
  {
    assert (charges + [c])[..|charges|] == charges;
  }

  // One transaction moves out of the pool what its charge says.
  ghost predicate MovesPool(pool: uint64, tx: Transaction, a: Applied, burned: uint64) {
    a.pool + (if tx.interpreter.Evm? && a.err.None? then a.charge else 0) + burned == pool
  }

  // A full block is noticed before anything changes.
  lemma LimitChangesNothing(env: Env, w: World, pool: uint64, tx: Transaction, now: uint64)
    ensures var a := ApplyTx(env, w, pool, tx, now);
      a.err == Some(GasLimitReached) ==> a.pool == pool && a.world == w && a.charge == 0
  {
  }

  lemma PoolMoves(env: Env, st: BlockState, tx: Transaction, now: uint64)
    requires G.Conforming(env.evm.vm)
    ensures MovesPool(st.pool, tx, ApplyTx(env, st.world, st.pool, tx, now), BurnedGas(env, st, tx))
  {
    if tx.interpreter.Evm? {
      E.PoolAccounted(env.evm, st.world, st.pool, tx);
    }
  }

  lemma BalanceNext(totalGas: uint64, pool: uint64, used: uint64, charges: seq<Charge>, pool': uint64, c: Charge)
    requires BalancedBy(totalGas, pool, used, charges) && used <= totalGas
    requires pool' + (if c.tx.interpreter.Evm? && c.receipted then c.gas else 0) + c.burned == pool
    ensures BalancedBy(totalGas, pool', Wrap(used + c.gas), charges + [c])
  {
    ChargeAdds(charges, c);
    WrapPlus(TotalCharged(charges), c.gas);
    WrapAtMost(used + c.gas);
  }

  // The figures of a recorded transaction.
  lemma RecordedFigures(st: BlockState, tx: Transaction, a: Applied, burned: uint64, act: Action)
    requires a.err != Some(GasLimitReached)
    ensures var done := Recorded(st, tx, a, burned, act);
      && done.pool == a.pool && done.used == Wrap(st.used + a.charge)
      && done.charges == st.charges + [ChargeOf(tx, a, burned)]
  {
  }

  lemma RecordedBalances(totalGas: uint64, st: BlockState, tx: Transaction, a: Applied, burned: uint64, act: Action)
    requires Balanced(totalGas, st) && st.used <= totalGas && MovesPool(st.pool, tx, a, burned)
    requires a.err == Some(GasLimitReached) ==> a.pool == st.pool
    ensures Balanced(totalGas, Recorded(st, tx, a, burned, act))
  {
    if a.err != Some(GasLimitReached) {
      RecordedFigures(st, tx, a, burned, act);
      BalanceNext(totalGas, st.pool, st.used, st.charges, a.pool, ChargeOf(tx, a, burned));
    }
  }

  lemma ExecuteBalances(env: Env, totalGas: uint64, st: BlockState, tx: Transaction, now: uint64)
    requires G.Conforming(env.evm.vm) && Balanced(totalGas, st) && st.used <= totalGas
    ensures Balanced(totalGas, Execute(env, st, tx, now))
  {
    var a := ApplyTx(env, st.world, st.pool, tx, now);
    PoolMoves(env, st, tx, now);
    LimitChangesNothing(env, st.world, st.pool, tx, now);
    RecordedBalances(totalGas, st, tx, a, BurnedGas(env, st, tx), ActionOf(env, tx, now, a.world));
  }

  // Over the whole block: what is left in the pool, what EVM transactions used and what
  // failed ones burned add up to the block's gas; usedGas is the sum of all charges and
  // exceeds the block's gas by at most the last one.
  lemma {:induction false} FoldBalances(env: Env, totalGas: uint64, st: BlockState, entries: seq<Entry>)
    requires G.Conforming(env.evm.vm) && Balanced(totalGas, st)
    ensures Balanced(totalGas, Fold(env, totalGas, st, entries))
    decreases |entries|
  {
    if entries != [] {
      var e := entries[0];
      if !st.halted && e.Tx? && totalGas >= st.used {
        ExecuteBalances(env, totalGas, st, e.tx, e.clockApply);
      }
      FoldBalances(env, totalGas, Step(env, totalGas, st, e), entries[1..]);
    }
  }

  lemma PrepareBalances(env: Env, totalGas: uint64, w: World, queues: map<string, N.Queue>, entries: seq<Entry>)
    requires G.Conforming(env.evm.vm)
    ensures Balanced(totalGas, PrepareResult(env, totalGas, w, queues, entries))
  {
    FoldBalances(env, totalGas, Start(w, totalGas, queues), entries);
  }

  // ---- Where every element goes ----

  // Accepted, refused before execution, failed during it, or not reached because the block is full.
  datatype Fate = Accepted | Refused | Failed | Unreached

  function FateOf(env: Env, totalGas: uint64, st: BlockState, e: Entry): Fate {
    if st.halted then Unreached
    else match e
      case Foreign => Refused
      case Tx(tx, clockVerify, clockApply) =>
        if totalGas < st.used then Unreached
        else if VerifyTx(st.world, tx, clockVerify).Some? then Refused
        else
          var err := ApplyTx(env, st.world, st.pool, tx, clockApply).err;
          if err.None? then Accepted else if err == Some(GasLimitReached) then Unreached else Failed
  }

  function Fates(env: Env, totalGas: uint64, st: BlockState, entries: seq<Entry>): (fates: seq<Fate>)
    ensures |fates| == |entries|
    decreases |entries|
  {
    if entries == [] then []
    else
      [FateOf(env, totalGas, st, entries[0])] + Fates(env, totalGas, Step(env, totalGas, st, entries[0]), entries[1..])
  }

  function IfAccepted(e: Entry, fate: Fate): seq<Transaction> {
    if fate.Accepted? && e.Tx? then [e.tx] else []
  }

  // A refused element that is no state transaction shows as a nil.
  function IfRefused(e: Entry, fate: Fate): seq<Option<Transaction>> {
    if !fate.Refused? then [] else if e.Tx? then [Some(e.tx)] else [None]
  }

  // The accepted transactions among the elements, in order.
  function AcceptedTxs(entries: seq<Entry>, fates: seq<Fate>): seq<Transaction>
    requires |fates| == |entries|
  {
    if entries == [] then [] else IfAccepted(entries[0], fates[0]) + AcceptedTxs(entries[1..], fates[1..])
  }

  function RefusedTxs(entries: seq<Entry>, fates: seq<Fate>): seq<Option<Transaction>>
    requires |fates| == |entries|
  {
    if entries == [] then [] else IfRefused(entries[0], fates[0]) + RefusedTxs(entries[1..], fates[1..])
  }

  lemma StepPlaces(env: Env, totalGas: uint64, st: BlockState, e: Entry)
    ensures var next, fate := Step(env, totalGas, st, e), FateOf(env, totalGas, st, e);
      && next.okTxs == st.okTxs + IfAccepted(e, fate)
      && next.errTxs == st.errTxs + IfRefused(e, fate)
      && (next.halted <==> fate.Unreached?)
  {
  }

  // The first element's place, and the rest from there.
  lemma FirstPlaces(env: Env, totalGas: uint64, st: BlockState, entries: seq<Entry>)
    returns (fate: Fate, next: BlockState)
    requires entries != []
    ensures Fold(env, totalGas, st, entries) == Fold(env, totalGas, next, entries[1..])
    ensures Fates(env, totalGas, st, entries) == [fate] + Fates(env, totalGas, next, entries[1..])
    ensures next.okTxs == st.okTxs + IfAccepted(entries[0], fate)
    ensures next.errTxs == st.errTxs + IfRefused(entries[0], fate)
    ensures (next.halted <==> fate.Unreached?) && (st.halted ==> next.halted)
  {
    fate, next := FateOf(env, totalGas, st, entries[0]), Step(env, totalGas, st, entries[0]);
    StepPlaces(env, totalGas, st, entries[0]);
  }

  lemma FirstAccepted(before: seq<Transaction>, entries: seq<Entry>, fate: Fate, fates: seq<Fate>)
    requires entries != [] && |fates| == |entries| - 1
    ensures before + AcceptedTxs(entries, [fate] + fates)
      == before + IfAccepted(entries[0], fate) + AcceptedTxs(entries[1..], fates)
  {
    var head, rest := IfAccepted(entries[0], fate), AcceptedTxs(entries[1..], fates);
    assert ([fate] + fates)[1..] == fates;
    assert before + (head + rest) == before + head + rest;
  }

  lemma FirstRefused(before: seq<Option<Transaction>>, entries: seq<Entry>, fate: Fate, fates: seq<Fate>)
    requires entries != [] && |fates| == |entries| - 1
    ensures before + RefusedTxs(entries, [fate] + fates)
      == before + IfRefused(entries[0], fate) + RefusedTxs(entries[1..], fates)
  {
    var head, rest := IfRefused(entries[0], fate), RefusedTxs(entries[1..], fates);
    assert ([fate] + fates)[1..] == fates;
    assert before + (head + rest) == before + head + rest;
  }

  // okTxs are exactly the accepted elements, in block order,
  lemma {:induction false} AcceptedInOrder(env: Env, totalGas: uint64, st: BlockState, entries: seq<Entry>)
    ensures Fold(env, totalGas, st, entries).okTxs == st.okTxs + AcceptedTxs(entries, Fates(env, totalGas, st, entries))
    decreases |entries|
  {
    if entries != [] {
      var fate, next := FirstPlaces(env, totalGas, st, entries);
      AcceptedInOrder(env, totalGas, next, entries[1..]);
      FirstAccepted(st.okTxs, entries, fate, Fates(env, totalGas, next, entries[1..]));
    }
  }

  // and errTxs exactly the refused ones; what failed is in neither.
  lemma {:induction false} RefusedInOrder(env: Env, totalGas: uint64, st: BlockState, entries: seq<Entry>)
    ensures Fold(env, totalGas, st, entries).errTxs
      == st.errTxs + RefusedTxs(entries, Fates(env, totalGas, st, entries))
    decreases |entries|
  {
    if entries != [] {
      var fate, next := FirstPlaces(env, totalGas, st, entries);
      RefusedInOrder(env, totalGas, next, entries[1..]);
      FirstRefused(st.errTxs, entries, fate, Fates(env, totalGas, next, entries[1..]));
    }
  }

  // What holds at first and continues exactly under a condition holds later exactly if all the
  // conditions did.
  lemma {:induction false} Continues(p: nat -> bool, condition: nat -> bool, n: nat)
    requires p(0) && forall k: nat :: k < n ==> (p(k + 1) <==> p(k) && condition(k))
    ensures p(n) <==> forall k: nat :: k < n ==> condition(k)
    decreases n
  {
    if n > 0 {
      var before: nat := n - 1;
      Continues(p, condition, before);
      assert p(before + 1) <==> p(before) && condition(before);
    }
  }

  // From the first element not reached on, none is.
  lemma {:induction false} FullBlockStops(env: Env, totalGas: uint64, st: BlockState, entries: seq<Entry>)
    ensures var fates := Fates(env, totalGas, st, entries);
      && (Fold(env, totalGas, st, entries).halted <==> st.halted || Unreached in fates)
      && (forall i, j :: 0 <= i <= j < |fates| && fates[i].Unreached? ==> fates[j].Unreached?)
      && (st.halted ==> forall i :: 0 <= i < |fates| ==> fates[i].Unreached?)
    decreases |entries|
  {
    if entries != [] {
      var _, next := FirstPlaces(env, totalGas, st, entries);
      FullBlockStops(env, totalGas, next, entries[1..]);
    }
  }

  // An EVM transaction passes every check but that of the pool, which is below its gas limit.
  predicate ExceedsPool(env: Env, st: BlockState, tx: Transaction) {
    && tx.interpreter.Evm? && E.MessageError(st.world, tx).None?
    && var msg := E.TxAsMessage(st.world, tx);
    && NonceOf(st.world.ledger, msg.from) <= msg.nonce
    && BalanceOf(st.world.ledger, msg.from) >= msg.gasLimit * msg.gasPrice
    && st.pool < msg.gasLimit
  }

  // The two guards that stop the loop.
  predicate FillsUp(env: Env, totalGas: uint64, st: BlockState, e: Entry) {
    e.Tx? && (totalGas < st.used || (VerifyTx(st.world, e.tx, e.clockVerify).None? && ExceedsPool(env, st, e.tx)))
  }

  lemma FillsUpExactly(env: Env, totalGas: uint64, st: BlockState, e: Entry)
    requires !st.halted
    ensures Step(env, totalGas, st, e).halted <==> FillsUp(env, totalGas, st, e)
  {
  }

  lemma TurnFills(env: Env, totalGas: uint64, st: BlockState, entries: seq<Entry>, k: nat)
    requires k < |entries|
    ensures var now := Turn(env, totalGas, st, entries, k);
      !Turn(env, totalGas, st, entries, k + 1).halted <==> !now.halted && !FillsUp(env, totalGas, now, entries[k])
  {
    var now := Turn(env, totalGas, st, entries, k);
    TurnNext(env, totalGas, st, entries, k);
    if !now.halted {
      FillsUpExactly(env, totalGas, now, entries[k]);
    }
  }

  // Prepare stops early exactly when at some element's turn more than the block's gas has been
  // used, or an EVM transaction asks for more than the pool has left.
  lemma StopsExactly(env: Env, totalGas: uint64, st: BlockState, entries: seq<Entry>)
    requires !st.halted
    ensures Turn(env, totalGas, st, entries, |entries|).halted <==>
      exists k :: 0 <= k < |entries| && FillsUp(env, totalGas, Turn(env, totalGas, st, entries, k), entries[k])
  {
    var goesOn := (k: nat) => k <= |entries| && !Turn(env, totalGas, st, entries, k).halted;
    var fits := (k: nat) => k < |entries| && !FillsUp(env, totalGas, Turn(env, totalGas, st, entries, k), entries[k]);
    TurnEnds(env, totalGas, st, entries);
    forall k: nat | k < |entries| ensures goesOn(k + 1) <==> goesOn(k) && fits(k) {
      TurnFills(env, totalGas, st, entries, k);
    }
    Continues(goesOn, fits, |entries|);
    assert forall k: nat :: k < |entries| ==>
      (fits(k) <==> !FillsUp(env, totalGas, Turn(env, totalGas, st, entries, k), entries[k]));
  }

  // ---- Value that leaves the ledger ----

  // A transfer to the empty name loses its value, a registration overwrites whatever balance was
  // kept under the new name, and an EVM transaction that fails after buying its gas has paid for it.
  function Leak(env: Env, st: BlockState, tx: Transaction): int {
    match tx.interpreter
    case Base =>
      if tx.nonce == NonceOf(st.world.ledger, tx.from) && tx.value > 0 && tx.to == "" then tx.value else 0
    case AccountOps => A.Overwritten(st.world, tx)
    case Lost => 0
    case Evm => BurnedGas(env, st, tx) * tx.gasPrice
  }

  lemma ApplyLeaks(env: Env, st: BlockState, tx: Transaction, clockVerify: uint64, now: uint64)
    requires G.Conforming(env.evm.vm) && VerifyTx(st.world, tx, clockVerify).None?
    ensures Total(ApplyTx(env, st.world, st.pool, tx, now).world.ledger.balances)
      == Total(st.world.ledger.balances) - Leak(env, st, tx)
  {
    match tx.interpreter
    case Base => B.MovedTotal(WithNonce(st.world.ledger, tx.from, Wrap(tx.nonce + 1)), tx);
    case AccountOps => A.StepTotal(st.world, tx, env.height);
    case Lost =>
    case Evm => E.ValueAccounted(env.evm, st.world, st.pool, tx);
  }

  function LeakOf(env: Env, totalGas: uint64, st: BlockState, e: Entry): int {
    var fate := FateOf(env, totalGas, st, e);
    if e.Tx? && (fate.Accepted? || fate.Failed?) then Leak(env, st, e.tx) else 0
  }

  lemma StepLeaks(env: Env, totalGas: uint64, st: BlockState, e: Entry)
    requires G.Conforming(env.evm.vm)
    ensures Total(Step(env, totalGas, st, e).world.ledger.balances)
      == Total(st.world.ledger.balances) - LeakOf(env, totalGas, st, e)
  {
    if !st.halted && e.Tx? && totalGas >= st.used && VerifyTx(st.world, e.tx, e.clockVerify).None? {
      ApplyLeaks(env, st, e.tx, e.clockVerify, e.clockApply);
      LimitChangesNothing(env, st.world, st.pool, e.tx, e.clockApply);
    }
  }

  function Leaks(env: Env, totalGas: uint64, st: BlockState, entries: seq<Entry>): int
    decreases |entries|
  {
    if entries == [] then 0
    else
      LeakOf(env, totalGas, st, entries[0]) + Leaks(env, totalGas, Step(env, totalGas, st, entries[0]), entries[1..])
  }

  // Over a block the total balance falls by exactly what leaks: nothing is created, and nothing else is lost.
  lemma {:induction false} FoldLeaks(env: Env, totalGas: uint64, st: BlockState, entries: seq<Entry>)
    requires G.Conforming(env.evm.vm)
    ensures Total(Fold(env, totalGas, st, entries).world.ledger.balances)
      == Total(st.world.ledger.balances) - Leaks(env, totalGas, st, entries)
    decreases |entries|
  {
    if entries != [] {
      StepLeaks(env, totalGas, st, entries[0]);
      FoldLeaks(env, totalGas, Step(env, totalGas, st, entries[0]), entries[1..]);
    }
  }

  lemma PrepareLeaks(env: Env, totalGas: uint64, w: World, queues: map<string, N.Queue>, entries: seq<Entry>)
    requires G.Conforming(env.evm.vm)
    ensures Total(PrepareResult(env, totalGas, w, queues, entries).world.ledger.balances)
      == Total(w.ledger.balances) - Leaks(env, totalGas, Start(w, totalGas, queues), entries)
  {
    FoldLeaks(env, totalGas, Start(w, totalGas, queues), entries);
  }

  // ---- The block as a run ----

  ghost predicate Follows(w: World, st: BlockState) {
    st.world == After(w, st.acts)
  }

  // Applying a verified transaction is the action it is recorded as.
  lemma ActionMatches(env: Env, w: World, pool: uint64, tx: Transaction, clockVerify: uint64, now: uint64)
    requires VerifyTx(w, tx, clockVerify).None?
    ensures var a := ApplyTx(env, w, pool, tx, now);
      Act(w, ActionOf(env, tx, now, a.world)) == a.world
  {
  }

  lemma AfterNext(w: World, acts: seq<Action>, a: Action)
    ensures After(w, acts + [a]) == Act(After(w, acts), a)
  {
    assert (acts + [a])[..|acts|] == acts;
  }

  lemma ExecuteFollows(env: Env, w: World, st: BlockState, tx: Transaction, clockVerify: uint64, now: uint64)
    requires Follows(w, st) && VerifyTx(st.world, tx, clockVerify).None?
    ensures Follows(w, Execute(env, st, tx, now))
  {
    var a := ApplyTx(env, st.world, st.pool, tx, now);
    LimitChangesNothing(env, st.world, st.pool, tx, now);
    ActionMatches(env, st.world, st.pool, tx, clockVerify, now);
    AfterNext(w, st.acts, ActionOf(env, tx, now, a.world));
  }

  lemma StepFollows(env: Env, totalGas: uint64, w: World, st: BlockState, e: Entry)
    requires Follows(w, st)
    ensures Follows(w, Step(env, totalGas, st, e))
  {
    if !st.halted && e.Tx? && totalGas >= st.used && VerifyTx(st.world, e.tx, e.clockVerify).None? {
      ExecuteFollows(env, w, st, e.tx, e.clockVerify, e.clockApply);
      assert Step(env, totalGas, st, e) == Execute(env, st, e.tx, e.clockApply);
    } else {
      assert Step(env, totalGas, st, e).world == st.world && Step(env, totalGas, st, e).acts == st.acts;
    }
  }

  lemma {:induction false} FoldFollows(env: Env, totalGas: uint64, w: World, st: BlockState, entries: seq<Entry>)
    requires Follows(w, st)
    ensures Follows(w, Fold(env, totalGas, st, entries))
    decreases |entries|
  {
    if entries != [] {
      StepFollows(env, totalGas, w, st, entries[0]);
      FoldFollows(env, totalGas, w, Step(env, totalGas, st, entries[0]), entries[1..]);
    }
  }

  predicate BaseEntry(e: Entry) {
    e.Tx? ==> e.tx.interpreter.Base?
  }

  predicate AllBase(acts: seq<Action>) {
    forall i :: 0 <= i < |acts| ==> acts[i].BaseTx?
  }

  lemma {:induction false} BaseFold(env: Env, totalGas: uint64, st: BlockState, entries: seq<Entry>)
    requires AllBase(st.acts) && forall i :: 0 <= i < |entries| ==> BaseEntry(entries[i])
    ensures AllBase(Fold(env, totalGas, st, entries).acts)
    decreases |entries|
  {
    if entries != [] {
      assert BaseEntry(entries[0]);
      BaseFold(env, totalGas, Step(env, totalGas, st, entries[0]), entries[1..]);
    }
  }

  datatype Block = Block(env: Env, totalGas: uint64, entries: seq<Entry>)

  // Several blocks, each prepared on the world the one before it left.
  function AfterBlocks(w: World, queues: map<string, N.Queue>, blocks: seq<Block>): World
    decreases |blocks|
  {
    if blocks == [] then w
    else
      var b := blocks[0];
      var st := PrepareResult(b.env, b.totalGas, w, queues, b.entries);
      AfterBlocks(st.world, st.queues, blocks[1..])
  }

  lemma BlockIsRun(w: World, queues: map<string, N.Queue>, b: Block)
    ensures var st := PrepareResult(b.env, b.totalGas, w, queues, b.entries);
      st.world == After(w, st.acts)
  {
    FoldFollows(b.env, b.totalGas, w, Start(w, b.totalGas, queues), b.entries);
  }

  // The actions a run of blocks executes.
  function ActsOf(w: World, queues: map<string, N.Queue>, blocks: seq<Block>): seq<Action>
    decreases |blocks|
  {
    if blocks == [] then []
    else
      var b := blocks[0];
      var st := PrepareResult(b.env, b.totalGas, w, queues, b.entries);
      st.acts + ActsOf(st.world, st.queues, blocks[1..])
  }

  // Any run of blocks is a run of actions, so everything proved about runs holds of it.
  lemma {:induction false} BlocksAreRuns(w: World, queues: map<string, N.Queue>, blocks: seq<Block>)
    ensures AfterBlocks(w, queues, blocks) == After(w, ActsOf(w, queues, blocks))
    decreases |blocks|
  {
    if blocks != [] {
      var b := blocks[0];
      var st := PrepareResult(b.env, b.totalGas, w, queues, b.entries);
      BlockIsRun(w, queues, b);
      BlocksAreRuns(st.world, st.queues, blocks[1..]);
      AfterConcat(w, st.acts, ActsOf(st.world, st.queues, blocks[1..]));
    }
  }

  ghost predicate BaseBlock(b: Block) {
    forall i :: 0 <= i < |b.entries| ==> BaseEntry(b.entries[i])
  }

  lemma {:induction false} BaseBlocksTransfer(w: World, queues: map<string, N.Queue>, blocks: seq<Block>)
    requires forall i :: 0 <= i < |blocks| ==> BaseBlock(blocks[i])
    ensures AllBase(ActsOf(w, queues, blocks))
    decreases |blocks|
  {
    if blocks != [] {
      var b := blocks[0];
      var st := PrepareResult(b.env, b.totalGas, w, queues, b.entries);
      BaseFold(b.env, b.totalGas, Start(w, b.totalGas, queues), b.entries);
      BaseBlocksTransfer(st.world, st.queues, blocks[1..]);
    }
  }

  // Over any run of blocks of base transfers, where no account is called "": balances stay
  // non-negative and the total balance is constant.
  lemma BaseBlocksConserve(w: World, queues: map<string, N.Queue>, blocks: seq<Block>)
    requires B.NonNegative(w.ledger) && "" !in w.accounts
    requires forall i :: 0 <= i < |blocks| ==> BaseBlock(blocks[i])
    ensures var w' := AfterBlocks(w, queues, blocks);
      B.NonNegative(w'.ledger) && Total(w'.ledger.balances) == Total(w.ledger.balances)
  {
    var acts := ActsOf(w, queues, blocks);
    BlocksAreRuns(w, queues, blocks);
    BaseBlocksTransfer(w, queues, blocks);
    BaseRunIsTransfers(w, acts);
    B.RunConserves(w, Transfers(acts));
  }

  // Each sender's applied nonces count up from its initial nonce over all the blocks.
  lemma BaseBlocksNonces(w: World, queues: map<string, N.Queue>, blocks: seq<Block>, sender: string)
    requires forall i :: 0 <= i < |blocks| ==> BaseBlock(blocks[i])
    ensures AllBase(ActsOf(w, queues, blocks))
    ensures B.CountsUp(NonceOf(w.ledger, sender),
                       B.AppliedNonces(w, Transfers(ActsOf(w, queues, blocks)), sender),
                       NonceOf(AfterBlocks(w, queues, blocks).ledger, sender))
  {
    var acts := ActsOf(w, queues, blocks);
    BlocksAreRuns(w, queues, blocks);
    BaseBlocksTransfer(w, queues, blocks);
    BaseRunIsTransfers(w, acts);
    B.AppliedConsecutive(w, Transfers(acts), sender);
  }

  // And each account has what it began with, what it was sent, and not what it sent.
  lemma BaseBlocksBalances(w: World, queues: map<string, N.Queue>, blocks: seq<Block>, who: string)
    requires forall i :: 0 <= i < |blocks| ==> BaseBlock(blocks[i])
    ensures AllBase(ActsOf(w, queues, blocks))
    ensures var applied := B.AppliedTxs(w, Transfers(ActsOf(w, queues, blocks)));
      BalanceOf(AfterBlocks(w, queues, blocks).ledger, who)
        == BalanceOf(w.ledger, who) + B.ReceivedBy(applied, who) - B.SentBy(applied, who)
  {
    var acts := ActsOf(w, queues, blocks);
    BlocksAreRuns(w, queues, blocks);
    BaseBlocksTransfer(w, queues, blocks);
    BaseRunIsTransfers(w, acts);
    B.RunBalances(w, Transfers(acts), who);
  }

  // Any run of blocks keeps accounts sound and every delegable flag rooted.
  lemma BlocksKeepDelegation(w: World, queues: map<string, N.Queue>, blocks: seq<Block>)
    requires Sound(w)
    ensures Sound(AfterBlocks(w, queues, blocks))
    ensures Delegated(AfterBlocks(w, queues, blocks), Roots(w, ActsOf(w, queues, blocks)))
  {
    BlocksAreRuns(w, queues, blocks);
    RunDelegation(w, ActsOf(w, queues, blocks));
  }

  // ---- Receipts ----

  function SumGas(rs: seq<Receipt>): nat {
    if rs == [] then 0 else SumGas(rs[..|rs| - 1]) + rs[|rs| - 1].gasUsed
  }

  // The cumulative figure is the sum, in uint64, of the gas used up to and including it, on top of
  // what other receipts show before these.
  ghost predicate ConsistentAt(base: int, rs: seq<Receipt>, i: nat)
    requires i < |rs|
  {
    rs[i].cumulativeGasUsed == Wrap(base + SumGas(rs[..i + 1]))
  }

  ghost predicate ConsistentFrom(base: int, rs: seq<Receipt>) {
    forall i :: 0 <= i < |rs| ==> ConsistentAt(base, rs, i)
  }

  ghost predicate Consistent(rs: seq<Receipt>) {
    ConsistentFrom(0, rs)
  }

  // What Commit's loop makes of a receipt, from the cumulative figure before it.
  function RewrittenAt(rs: seq<Receipt>, i: nat): Receipt
    requires i < |rs|
  {
    if i == 0 then rs[0].(cumulativeGasUsed := rs[0].gasUsed)
    else
      var before := if i == 1 then rs[0].gasUsed else rs[i - 1].cumulativeGasUsed;
      rs[i].(gasUsed := Wrap(rs[i].cumulativeGasUsed - before))
  }

  function Rewritten(rs: seq<Receipt>): (out: seq<Receipt>)
    ensures |out| == |rs|
  {
    seq(|rs|, i requires 0 <= i < |rs| => RewrittenAt(rs, i))
  }

  // After Commit every cumulative figure is the prefix sum.
  lemma {:induction false} RewrittenPrefix(rs: seq<Receipt>, i: nat)
    requires i < |rs|
    ensures Rewritten(rs)[i].cumulativeGasUsed == Wrap(SumGas(Rewritten(rs)[..i + 1]))
    decreases i
  {
    var out := Rewritten(rs);
    assert out[..i + 1][..i] == out[..i];
    if i == 0 {
      assert SumGas(out[..0]) == 0;
    } else {
      RewrittenPrefix(rs, i - 1);
      var before: int := out[i - 1].cumulativeGasUsed;
      WrapPlus(SumGas(out[..i]), out[i].gasUsed);
      WrapCancels(before, rs[i].cumulativeGasUsed);
    }
  }

  // The first receipt keeps its gas and every later one its cumulative figure; the other figure is
  // what makes the prefix sums come out. Nothing else about a receipt changes.
  lemma RewrittenExactly(rs: seq<Receipt>, i: nat)
    requires i < |rs|
    ensures var r, before := Rewritten(rs)[i], Rewritten(rs)[..i];
      && r.tx == rs[i].tx && r.success == rs[i].success
      && (if i == 0 then r.gasUsed == rs[0].gasUsed else r.cumulativeGasUsed == rs[i].cumulativeGasUsed)
      && r.cumulativeGasUsed == Wrap(SumGas(before) + r.gasUsed)
  {
    RewrittenPrefix(rs, i);
    assert Rewritten(rs)[..i + 1][..i] == Rewritten(rs)[..i];
  }

  lemma CumulativeAt(rs: seq<Receipt>, i: nat)
    requires Consistent(rs) && i < |rs|
    ensures rs[i].cumulativeGasUsed == Wrap(SumGas(rs[..i]) + rs[i].gasUsed) == Wrap(SumGas(rs[..i + 1]))
  {
    assert ConsistentAt(0, rs, i) && rs[..i + 1][..i] == rs[..i];
  }

  lemma SuccessiveDifference(sum: int, gas: uint64)
    ensures Wrap(Wrap(sum + gas) - Wrap(sum)) == gas
  {
    WrapPlus(sum, gas);
    var x := Wrap(sum);
    if x + gas < TWO_TO_64 {
    } else {
      assert Wrap(x + gas) == x + gas - TWO_TO_64;
    }
  }

  lemma FirstCumulative(rs: seq<Receipt>)
    requires Consistent(rs) && |rs| > 0
    ensures rs[0].cumulativeGasUsed == rs[0].gasUsed
  {
    CumulativeAt(rs, 0);
    assert SumGas(rs[..0]) == 0;
    WrapAtMost(rs[0].gasUsed);
  }

  lemma ConsistentIsRewritten(rs: seq<Receipt>, i: nat)
    requires Consistent(rs) && i < |rs|
    ensures RewrittenAt(rs, i) == rs[i]
  {
    FirstCumulative(rs);
    if i > 0 {
      CumulativeAt(rs, i);
      CumulativeAt(rs, i - 1);
      SuccessiveDifference(SumGas(rs[..i]), rs[i].gasUsed);
    }
  }

  // Commit changes nothing exactly when the figures were consistent already.
  lemma CommitLeavesConsistent(rs: seq<Receipt>)
    ensures Rewritten(rs) == rs <==> Consistent(rs)
  {
    if Consistent(rs) {
      forall i | 0 <= i < |rs| ensures RewrittenAt(rs, i) == rs[i] {
        ConsistentIsRewritten(rs, i);
      }
    }
    if Rewritten(rs) == rs {
      forall i | 0 <= i < |rs| ensures ConsistentAt(0, rs, i) {
        RewrittenPrefix(rs, i);
      }
    }
  }

  // Committing twice is committing once.
  lemma CommitIdempotent(rs: seq<Receipt>)
    ensures Consistent(Rewritten(rs)) && Rewritten(Rewritten(rs)) == Rewritten(rs)
  {
    forall i | 0 <= i < |rs| ensures ConsistentAt(0, Rewritten(rs), i) {
      RewrittenPrefix(rs, i);
    }
    CommitLeavesConsistent(Rewritten(rs));
  }

  // The receipts a block produces, from its charges.
  function ReceiptsOf(charges: seq<Charge>): seq<Receipt> {
    if charges == [] then []
    else
      var c := charges[|charges| - 1];
      var before := ReceiptsOf(charges[..|charges| - 1]);
      if c.receipted then before + [Receipt(c.tx, c.success, c.gas, Wrap(TotalCharged(charges)))] else before
  }

  // Gas charged without a receipt.
  function Unreceipted(charges: seq<Charge>): nat {
    if charges == [] then 0
    else
      var c := charges[|charges| - 1];
      Unreceipted(charges[..|charges| - 1]) + (if c.receipted then 0 else c.gas)
  }

  // The block's receipts follow from its charges.
  ghost predicate BookedBy(charges: seq<Charge>, receipts: seq<Receipt>, used: uint64) {
    receipts == ReceiptsOf(charges) && used == Wrap(TotalCharged(charges))
  }

  ghost predicate Booked(st: BlockState) {
    BookedBy(st.charges, st.receipts, st.used)
  }

  lemma BookNext(charges: seq<Charge>, receipts: seq<Receipt>, used: uint64, c: Charge)
    requires BookedBy(charges, receipts, used)
    ensures var total := Wrap(used + c.gas);
      BookedBy(charges + [c],
               if c.receipted then receipts + [Receipt(c.tx, c.success, c.gas, total)] else receipts,
               total)
  {
    assert (charges + [c])[..|charges|] == charges;
    ChargeAdds(charges, c);
    WrapPlus(TotalCharged(charges), c.gas);
  }

  lemma RecordedBooks(st: BlockState, tx: Transaction, a: Applied, burned: uint64, act: Action)
    requires Booked(st)
    ensures Booked(Recorded(st, tx, a, burned, act))
  {
    BookNext(st.charges, st.receipts, st.used, ChargeOf(tx, a, burned));
  }

  lemma ExecuteBooks(env: Env, st: BlockState, tx: Transaction, now: uint64)
    requires Booked(st)
    ensures Booked(Execute(env, st, tx, now))
  {
    var a := ApplyTx(env, st.world, st.pool, tx, now);
    RecordedBooks(st, tx, a, BurnedGas(env, st, tx), ActionOf(env, tx, now, a.world));
  }

  lemma {:induction false} FoldBooks(env: Env, totalGas: uint64, st: BlockState, entries: seq<Entry>)
    requires Booked(st)
    ensures Booked(Fold(env, totalGas, st, entries))
    decreases |entries|
  {
    if entries != [] {
      var e := entries[0];
      if e.Tx? {
        ExecuteBooks(env, st, e.tx, e.clockApply);
      }
      FoldBooks(env, totalGas, Step(env, totalGas, st, e), entries[1..]);
    }
  }

  lemma {:induction false} ReceiptsSum(charges: seq<Charge>)
    ensures SumGas(ReceiptsOf(charges)) + Unreceipted(charges) == TotalCharged(charges)
  {
    if charges != [] {
      var front := charges[..|charges| - 1];
      ReceiptsSum(front);
      var rs := ReceiptsOf(charges);
      if charges[|charges| - 1].receipted {
        assert rs[..|rs| - 1] == ReceiptsOf(front);
      }
    }
  }

  lemma ConsistentExtends(base: int, rs: seq<Receipt>, r: Receipt)
    ensures ConsistentFrom(base, rs + [r])
      <==> ConsistentFrom(base, rs) && r.cumulativeGasUsed == Wrap(base + SumGas(rs + [r]))
  {
    var all := rs + [r];
    assert all[..|rs| + 1] == all;
    forall i | 0 <= i < |rs| ensures ConsistentAt(base, all, i) <==> ConsistentAt(base, rs, i) {
      assert all[..i + 1] == rs[..i + 1];
    }
    assert ConsistentAt(base, all, |rs|) <==> r.cumulativeGasUsed == Wrap(base + SumGas(all));
  }

  // Before any charge that has a receipt, the gas charged without one shows in uint64 as the gas of
  // the receipts before these.
  ghost predicate NoGap(base: int, charges: seq<Charge>) {
    forall j :: 0 <= j < |charges| && charges[j].receipted ==> Wrap(Unreceipted(charges[..j])) == Wrap(base)
  }

  lemma NoGapExtends(base: int, charges: seq<Charge>, c: Charge)
    ensures NoGap(base, charges + [c])
      <==> NoGap(base, charges) && (c.receipted ==> Wrap(Unreceipted(charges)) == Wrap(base))
  {
    var all := charges + [c];
    assert all[..|charges|] == charges;
    forall j | 0 <= j < |charges| ensures charges[..j] == all[..j] && charges[j] == all[j] {
    }
    if NoGap(base, all) {
      forall j | 0 <= j < |charges| && charges[j].receipted ensures Wrap(Unreceipted(charges[..j])) == Wrap(base) {
        assert all[j].receipted && charges[..j] == all[..j];
      }
      assert c.receipted ==> all[|charges|].receipted;
    }
  }

  lemma LastConsistent(base: int, front: seq<Charge>, c: Charge)
    requires c.receipted
    ensures ConsistentFrom(base, ReceiptsOf(front + [c]))
      <==> ConsistentFrom(base, ReceiptsOf(front)) && Wrap(Unreceipted(front)) == Wrap(base)
  {
    var all := front + [c];
    assert all[..|all| - 1] == front;
    var r := Receipt(c.tx, c.success, c.gas, Wrap(TotalCharged(all)));
    assert ReceiptsOf(all) == ReceiptsOf(front) + [r] && Unreceipted(all) == Unreceipted(front);
    ConsistentExtends(base, ReceiptsOf(front), r);
    ReceiptsSum(all);
    WrapSame(SumGas(ReceiptsOf(all)), Unreceipted(front), base);
  }

  // A block's receipts, after others of that much gas, are consistent exactly when there is no gap.
  lemma {:induction false} ReceiptsConsistent(base: int, charges: seq<Charge>)
    ensures ConsistentFrom(base, ReceiptsOf(charges)) <==> NoGap(base, charges)
  {
    if charges != [] {
      var front, c := charges[..|charges| - 1], charges[|charges| - 1];
      assert charges == front + [c];
      ReceiptsConsistent(base, front);
      NoGapExtends(base, front, c);
      if c.receipted {
        LastConsistent(base, front, c);
      }
    }
  }

  // A verified base transfer comes with a nonce that is not its sender's: it is charged, not written.
  predicate Mismatched(env: Env, totalGas: uint64, st: BlockState, e: Entry) {
    && !st.halted && e.Tx? && totalGas >= st.used && VerifyTx(st.world, e.tx, e.clockVerify).None?
    && e.tx.interpreter.Base? && e.tx.nonce != NonceOf(st.world.ledger, e.tx.from)
  }

  predicate IsAccepted(env: Env, totalGas: uint64, st: BlockState, e: Entry) {
    FateOf(env, totalGas, st, e).Accepted?
  }

  // How many of the first k elements are such transfers.
  function Mismatches(env: Env, totalGas: uint64, st: BlockState, entries: seq<Entry>, k: nat): (n: nat)
    requires k <= |entries|
    ensures n <= k
  {
    if k == 0 then 0
    else
      Mismatches(env, totalGas, st, entries, k - 1)
      + (if Mismatched(env, totalGas, Turn(env, totalGas, st, entries, k - 1), entries[k - 1]) then 1 else 0)
  }

  // What one charge does to the two figures.
  lemma ChargeGap(base: int, charges: seq<Charge>, c: Charge)
    ensures Unreceipted(charges + [c]) == Unreceipted(charges) + (if c.receipted then 0 else c.gas)
    ensures NoGap(base, charges + [c])
      <==> NoGap(base, charges) && (c.receipted ==> Wrap(Unreceipted(charges)) == Wrap(base))
  {
    assert (charges + [c])[..|charges|] == charges;
    NoGapExtends(base, charges, c);
  }

  lemma ChargeOfFailure(env: Env, st: BlockState, tx: Transaction, now: uint64)
    ensures var a := ApplyTx(env, st.world, st.pool, tx, now);
      a.err.Some? ==> a.charge == if tx.interpreter.Base? then B.TRANSFER_GAS else 0
    ensures tx.interpreter.Base? ==>
      (ApplyTx(env, st.world, st.pool, tx, now).err.Some? <==> tx.nonce != NonceOf(st.world.ledger, tx.from))
    ensures tx.interpreter.Base? ==> ApplyTx(env, st.world, st.pool, tx, now).err != Some(GasLimitReached)
  {
  }

  lemma StepGap(base: int, env: Env, totalGas: uint64, st: BlockState, e: Entry)
    ensures var next := Step(env, totalGas, st, e);
      && Unreceipted(next.charges)
           == Unreceipted(st.charges) + (if Mismatched(env, totalGas, st, e) then B.TRANSFER_GAS else 0)
      && (NoGap(base, next.charges) <==>
            NoGap(base, st.charges)
            && (IsAccepted(env, totalGas, st, e) ==> Wrap(Unreceipted(st.charges)) == Wrap(base)))
  {
    if !st.halted && e.Tx? && totalGas >= st.used && VerifyTx(st.world, e.tx, e.clockVerify).None? {
      var a := ApplyTx(env, st.world, st.pool, e.tx, e.clockApply);
      ChargeOfFailure(env, st, e.tx, e.clockApply);
      ChargeGap(base, st.charges, ChargeOf(e.tx, a, BurnedGas(env, st, e.tx)));
    }
  }

  lemma TurnAddsGap(base: int, env: Env, totalGas: uint64, st: BlockState, entries: seq<Entry>, k: nat)
    requires k < |entries|
    ensures var before, next := Turn(env, totalGas, st, entries, k), Turn(env, totalGas, st, entries, k + 1);
      && Unreceipted(next.charges) == Unreceipted(before.charges)
           + (if Mismatched(env, totalGas, before, entries[k]) then B.TRANSFER_GAS else 0)
      && (NoGap(base, next.charges) <==>
            NoGap(base, before.charges)
            && (IsAccepted(env, totalGas, before, entries[k]) ==> Wrap(Unreceipted(before.charges)) == Wrap(base)))
  {
    TurnNext(env, totalGas, st, entries, k);
    StepGap(base, env, totalGas, Turn(env, totalGas, st, entries, k), entries[k]);
  }

  // If the j-th element is accepted, the gas of the mismatched transfers before it shows in uint64
  // as the gas of the receipts before this block's; where there are none, not at all.
  ghost predicate SeamlessAt(base: int, env: Env, totalGas: uint64, st: BlockState, entries: seq<Entry>, j: nat)
    requires j < |entries|
  {
    IsAccepted(env, totalGas, Turn(env, totalGas, st, entries, j), entries[j]) ==>
      Wrap(B.TRANSFER_GAS * Mismatches(env, totalGas, st, entries, j)) == Wrap(base)
  }

  ghost predicate Seamless(base: int, env: Env, totalGas: uint64, st: BlockState, entries: seq<Entry>) {
    forall j :: 0 <= j < |entries| ==> SeamlessAt(base, env, totalGas, st, entries, j)
  }

  lemma {:induction false} TurnUnreceipted(env: Env, totalGas: uint64, st: BlockState, entries: seq<Entry>, k: nat)
    requires k <= |entries| && st.charges == []
    ensures Unreceipted(Turn(env, totalGas, st, entries, k).charges)
      == B.TRANSFER_GAS * Mismatches(env, totalGas, st, entries, k)
    decreases k
  {
    if k == 0 {
      assert entries[..0] == [];
    } else {
      TurnUnreceipted(env, totalGas, st, entries, k - 1);
      TurnAddsGap(0, env, totalGas, st, entries, k - 1);
    }
  }

  lemma SeamAdds(base: int, env: Env, totalGas: uint64, st: BlockState, entries: seq<Entry>, k: nat)
    requires k < |entries| && st.charges == []
    ensures NoGap(base, Turn(env, totalGas, st, entries, k + 1).charges)
      <==> NoGap(base, Turn(env, totalGas, st, entries, k).charges) && SeamlessAt(base, env, totalGas, st, entries, k)
  {
    TurnUnreceipted(env, totalGas, st, entries, k);
    TurnAddsGap(base, env, totalGas, st, entries, k);
  }

  lemma TurnGap(base: int, env: Env, totalGas: uint64, st: BlockState, entries: seq<Entry>)
    requires st.charges == []
    ensures NoGap(base, Turn(env, totalGas, st, entries, |entries|).charges)
      <==> Seamless(base, env, totalGas, st, entries)
  {
    var p := (k: nat) => k <= |entries| && NoGap(base, Turn(env, totalGas, st, entries, k).charges);
    var condition := (k: nat) => k < |entries| && SeamlessAt(base, env, totalGas, st, entries, k);
    TurnEnds(env, totalGas, st, entries);
    forall k: nat | k < |entries| ensures p(k + 1) <==> p(k) && condition(k) {
      SeamAdds(base, env, totalGas, st, entries, k);
    }
    Continues(p, condition, |entries|);
    assert forall k: nat :: k < |entries| ==> (condition(k) <==> SeamlessAt(base, env, totalGas, st, entries, k));
  }

  lemma PreparedReceipts(base: int, env: Env, totalGas: uint64, w: World, queues: map<string, N.Queue>,
                         entries: seq<Entry>)
    ensures ConsistentFrom(base, PrepareResult(env, totalGas, w, queues, entries).receipts)
      <==> Seamless(base, env, totalGas, Start(w, totalGas, queues), entries)
  {
    var start, st := Start(w, totalGas, queues), PrepareResult(env, totalGas, w, queues, entries);
    FoldBooks(env, totalGas, start, entries);
    ReceiptsConsistent(base, st.charges);
    TurnEnds(env, totalGas, start, entries);
    TurnGap(base, env, totalGas, start, entries);
  }

  // For one Prepare on a fresh context: Commit changes nothing exactly when, before every accepted
  // transaction, the gas of the transfers executed with a wrong nonce is a multiple of 2^64.
  lemma PrepareThenCommit(env: Env, totalGas: uint64, w: World, queues: map<string, N.Queue>, entries: seq<Entry>)
    ensures var st := PrepareResult(env, totalGas, w, queues, entries);
      Rewritten(st.receipts) == st.receipts <==> Seamless(0, env, totalGas, Start(w, totalGas, queues), entries)
  {
    CommitLeavesConsistent(PrepareResult(env, totalGas, w, queues, entries).receipts);
    PreparedReceipts(0, env, totalGas, w, queues, entries);
  }

  // A prepared block: the state its loop began with and the receipts it added to the context.
  datatype Prepared = Prepared(block: Block, start: BlockState, receipts: seq<Receipt>)

  ghost predicate SeamlessBlock(base: int, p: Prepared) {
    Seamless(base, p.block.env, p.block.totalGas, p.start, p.block.entries)
  }

  function PreparedBlocks(w: World, queues: map<string, N.Queue>, blocks: seq<Block>): (ps: seq<Prepared>)
    ensures |ps| == |blocks|
    decreases |blocks|
  {
    if blocks == [] then []
    else
      var b := blocks[0];
      var st := PrepareResult(b.env, b.totalGas, w, queues, b.entries);
      [Prepared(b, Start(w, b.totalGas, queues), st.receipts)] + PreparedBlocks(st.world, st.queues, blocks[1..])
  }

  // The context collects the receipts of all Prepares until it is committed.
  function Collected(ps: seq<Prepared>): seq<Receipt> {
    if ps == [] then [] else ps[0].receipts + Collected(ps[1..])
  }

  ghost predicate AllSeamless(base: int, ps: seq<Prepared>)
    decreases |ps|
  {
    ps != [] ==> SeamlessBlock(base, ps[0]) && AllSeamless(base + SumGas(ps[0].receipts), ps[1..])
  }

  ghost predicate SeamsShow(p: Prepared) {
    forall base: int :: ConsistentFrom(base, p.receipts) <==> SeamlessBlock(base, p)
  }

  ghost predicate AllShow(ps: seq<Prepared>) {
    ps != [] ==> SeamsShow(ps[0]) && AllShow(ps[1..])
  }

  lemma FirstSeamsShow(w: World, queues: map<string, N.Queue>, b: Block)
    ensures SeamsShow(Prepared(b, Start(w, b.totalGas, queues),
                               PrepareResult(b.env, b.totalGas, w, queues, b.entries).receipts))
  {
    var p := Prepared(b, Start(w, b.totalGas, queues), PrepareResult(b.env, b.totalGas, w, queues, b.entries).receipts);
    forall base: int ensures ConsistentFrom(base, p.receipts) <==> SeamlessBlock(base, p) {
      PreparedReceipts(base, b.env, b.totalGas, w, queues, b.entries);
    }
  }

  lemma {:induction false} PreparedSeamsShow(w: World, queues: map<string, N.Queue>, blocks: seq<Block>)
    ensures AllShow(PreparedBlocks(w, queues, blocks))
    decreases |blocks|
  {
    if blocks != [] {
      var b := blocks[0];
      var st := PrepareResult(b.env, b.totalGas, w, queues, b.entries);
      FirstSeamsShow(w, queues, b);
      PreparedSeamsShow(st.world, st.queues, blocks[1..]);
    }
  }

  lemma {:induction false} SumGasConcat(rs: seq<Receipt>, more: seq<Receipt>)
    ensures SumGas(rs + more) == SumGas(rs) + SumGas(more)
    decreases |more|
  {
    if more == [] {
      assert rs + more == rs;
    } else {
      assert (rs + more)[..|rs + more| - 1] == rs + more[..|more| - 1];
      SumGasConcat(rs, more[..|more| - 1]);
    }
  }

  lemma {:induction false} ConsistentConcat(base: int, rs: seq<Receipt>, more: seq<Receipt>)
    ensures ConsistentFrom(base, rs + more) <==> ConsistentFrom(base, rs) && ConsistentFrom(base + SumGas(rs), more)
    decreases |more|
  {
    if more == [] {
      assert rs + more == rs;
    } else {
      var front, r := more[..|more| - 1], more[|more| - 1];
      assert more == front + [r] && rs + more == rs + front + [r];
      ConsistentConcat(base, rs, front);
      ConsistentExtends(base, rs + front, r);
      ConsistentExtends(base + SumGas(rs), front, r);
      SumGasConcat(rs, more);
    }
  }

  ghost predicate AllConsistent(base: int, ps: seq<Prepared>)
    decreases |ps|
  {
    ps != [] ==> ConsistentFrom(base, ps[0].receipts) && AllConsistent(base + SumGas(ps[0].receipts), ps[1..])
  }

  lemma {:induction false} CollectedConsistent(base: int, ps: seq<Prepared>)
    ensures ConsistentFrom(base, Collected(ps)) <==> AllConsistent(base, ps)
    decreases |ps|
  {
    if ps != [] {
      var rs, rest := ps[0].receipts, Collected(ps[1..]);
      CollectedConsistent(base + SumGas(rs), ps[1..]);
      ConsistentConcat(base, rs, rest);
      assert Collected(ps) == rs + rest;
    }
  }

  lemma {:induction false} SeamlessConsistent(base: int, ps: seq<Prepared>)
    requires AllShow(ps)
    ensures AllConsistent(base, ps) <==> AllSeamless(base, ps)
    decreases |ps|
  {
    if ps != [] {
      assert SeamsShow(ps[0]) && (ConsistentFrom(base, ps[0].receipts) <==> SeamlessBlock(base, ps[0]));
      SeamlessConsistent(base + SumGas(ps[0].receipts), ps[1..]);
    }
  }

  // For several Prepares on one context: Commit changes nothing exactly when, before every accepted
  // transaction of every block, the gas of that block's transfers with a wrong nonce is, modulo
  // 2^64, the gas of all receipts of the blocks before.
  lemma PreparesThenCommit(w: World, queues: map<string, N.Queue>, blocks: seq<Block>)
    ensures var ps := PreparedBlocks(w, queues, blocks);
      Rewritten(Collected(ps)) == Collected(ps) <==> AllSeamless(0, ps)
  {
    CommitLeavesConsistent(Collected(PreparedBlocks(w, queues, blocks)));
    PreparedSeamsShow(w, queues, blocks);
    CollectedConsistent(0, PreparedBlocks(w, queues, blocks));
    SeamlessConsistent(0, PreparedBlocks(w, queues, blocks));
  }

  lemma {:induction false} MismatchesCount(env: Env, totalGas: uint64, st: BlockState, entries: seq<Entry>, k: nat)
    requires k <= |entries|
    ensures Mismatches(env, totalGas, st, entries, k) == 0 <==>
      forall i :: 0 <= i < k ==> !Mismatched(env, totalGas, Turn(env, totalGas, st, entries, i), entries[i])
    decreases k
  {
    if k > 0 {
      MismatchesCount(env, totalGas, st, entries, k - 1);
    }
  }

  // In a block short enough for that gas to fit in uint64: exactly when no transfer executed with
  // a wrong nonce precedes an accepted transaction.
  lemma ShortBlockThenCommit(env: Env, totalGas: uint64, w: World, queues: map<string, N.Queue>, entries: seq<Entry>)
    requires B.TRANSFER_GAS * |entries| <= MAX_UINT64
    ensures var start := Start(w, totalGas, queues);
      var st := PrepareResult(env, totalGas, w, queues, entries);
      Rewritten(st.receipts) == st.receipts <==>
        forall i, j ::
          0 <= i < j < |entries| && Mismatched(env, totalGas, Turn(env, totalGas, start, entries, i), entries[i]) ==>
            !IsAccepted(env, totalGas, Turn(env, totalGas, start, entries, j), entries[j])
  {
    var start := Start(w, totalGas, queues);
    PrepareThenCommit(env, totalGas, w, queues, entries);
    forall j | 0 <= j < |entries|
      ensures SeamlessAt(0, env, totalGas, start, entries, j) <==>
        (IsAccepted(env, totalGas, Turn(env, totalGas, start, entries, j), entries[j]) ==>
          forall i :: 0 <= i < j ==> !Mismatched(env, totalGas, Turn(env, totalGas, start, entries, i), entries[i]))
    {
      MismatchesCount(env, totalGas, start, entries, j);
      WrapAtMost(B.TRANSFER_GAS * Mismatches(env, totalGas, start, entries, j));
    }
  }

  const HOLDER: Account := Account("ann", "org", {"k"}, false, None, false, false, false, "", None)
  const WALLET: World := World(map["ann@org" := HOLDER], Ledger(map[], map[]), map[])

  function TransferWith(nonce: uint64): Transaction {
    Transaction("ann@org", "ann@org", Base, nonce, 0, 0, 0, [], Some("k"), OtherOperation)
  }

  // A world in which Ann's next transfer is the one of this nonce.
  ghost predicate AnnIsAt(w: World, nonce: uint64) {
    w.accounts == WALLET.accounts && NonceOf(w.ledger, "ann@org") == nonce && BalanceOf(w.ledger, "ann@org") >= 0
  }

  // There that transfer is written, and another one only charged.
  lemma TransferStep(env: Env, totalGas: uint64, st: BlockState, at: uint64, nonce: uint64)
    requires AnnIsAt(st.world, at) && at < MAX_UINT64 && !st.halted && st.used <= totalGas
    ensures var next, used := Step(env, totalGas, st, Tx(TransferWith(nonce), 0, 0)), Wrap(st.used + B.TRANSFER_GAS);
      && next.used == used && !next.halted
      && next.receipts == st.receipts
           + (if nonce == at then [Receipt(TransferWith(nonce), true, B.TRANSFER_GAS, used)] else [])
      && AnnIsAt(next.world, if nonce == at then at + 1 else at)
  {
    assert B.Verify(st.world, TransferWith(nonce)).None?;
    WrapAtMost(at + 1);
  }

  // Such a transfer at the front of a block.
  lemma TransferFirst(env: Env, totalGas: uint64, st: BlockState, at: uint64, nonce: uint64, entries: seq<Entry>)
    returns (next: BlockState)
    requires AnnIsAt(st.world, at) && at < MAX_UINT64 && !st.halted && st.used <= totalGas
    requires st.used + B.TRANSFER_GAS <= MAX_UINT64
    ensures Fold(env, totalGas, st, [Tx(TransferWith(nonce), 0, 0)] + entries) == Fold(env, totalGas, next, entries)
    ensures next.used == st.used + B.TRANSFER_GAS && !next.halted
    ensures next.receipts == st.receipts
      + (if nonce == at then [Receipt(TransferWith(nonce), true, B.TRANSFER_GAS, next.used)] else [])
    ensures AnnIsAt(next.world, if nonce == at then at + 1 else at)
  {
    var e := Tx(TransferWith(nonce), 0, 0);
    next := Step(env, totalGas, st, e);
    TransferStep(env, totalGas, st, at, nonce);
    WrapAtMost(st.used + B.TRANSFER_GAS);
    assert ([e] + entries)[1..] == entries;
  }

  lemma WrongThenRight(env: Env, totalGas: uint64, st: BlockState, at: uint64, wrong: uint64) returns (end: BlockState)
    requires AnnIsAt(st.world, at) && at < MAX_UINT64 && wrong != at && !st.halted && st.used == 0
    requires totalGas >= B.TRANSFER_GAS
    ensures end == Fold(env, totalGas, st, [Tx(TransferWith(wrong), 0, 0)] + [Tx(TransferWith(at), 0, 0)])
    ensures end.receipts == st.receipts + [Receipt(TransferWith(at), true, B.TRANSFER_GAS, 2 * B.TRANSFER_GAS)]
  {
    var second := [Tx(TransferWith(at), 0, 0)];
    var one := TransferFirst(env, totalGas, st, at, wrong, second);
    end := TransferFirst(env, totalGas, one, at, at, []);
    assert second + [] == second;
  }

  lemma RewrittenOne(r: Receipt)
    ensures Rewritten([r]) == [r.(cumulativeGasUsed := r.gasUsed)]
  {
  }

  // It does happen: of two transfers the first has a wrong nonce, and its gas shows in the receipt
  // of the second until Commit takes it out again.
  lemma MismatchShows(env: Env, totalGas: uint64, queues: map<string, N.Queue>)
    requires totalGas >= B.TRANSFER_GAS
    ensures var entries := [Tx(TransferWith(1), 0, 0), Tx(TransferWith(0), 0, 0)];
      var receipts := PrepareResult(env, totalGas, WALLET, queues, entries).receipts;
      && receipts == [Receipt(TransferWith(0), true, B.TRANSFER_GAS, 2 * B.TRANSFER_GAS)]
      && Rewritten(receipts) == [Receipt(TransferWith(0), true, B.TRANSFER_GAS, B.TRANSFER_GAS)] != receipts
  {
    var end := WrongThenRight(env, totalGas, Start(WALLET, totalGas, queues), 0, 1);
    assert [Tx(TransferWith(1), 0, 0)] + [Tx(TransferWith(0), 0, 0)]
      == [Tx(TransferWith(1), 0, 0), Tx(TransferWith(0), 0, 0)];
    var shown := Receipt(TransferWith(0), true, B.TRANSFER_GAS, 2 * B.TRANSFER_GAS);
    RewrittenOne(shown);
    assert [shown][0] != Rewritten([shown])[0];
  }

  lemma OneTransfer(env: Env, totalGas: uint64, w: World, queues: map<string, N.Queue>, nonce: uint64)
    requires nonce < 2 && AnnIsAt(w, nonce)
    ensures var st := PrepareResult(env, totalGas, w, queues, [Tx(TransferWith(nonce), 0, 0)]);
      && st.receipts == [Receipt(TransferWith(nonce), true, B.TRANSFER_GAS, B.TRANSFER_GAS)]
      && AnnIsAt(st.world, nonce + 1)
  {
    var e := Tx(TransferWith(nonce), 0, 0);
    var end := TransferFirst(env, totalGas, Start(w, totalGas, queues), nonce, nonce, []);
    assert [e] + [] == [e];
  }

  lemma RewrittenTwo(r: Receipt, s: Receipt)
    requires r.cumulativeGasUsed == r.gasUsed == s.cumulativeGasUsed
    ensures Rewritten([r, s]) == [r, s.(gasUsed := 0)]
  {
    assert Rewritten([r, s])[1] == s.(gasUsed := Wrap(s.cumulativeGasUsed - r.gasUsed));
  }

  lemma PreparedTwo(w: World, queues: map<string, N.Queue>, b: Block, c: Block)
    ensures var st := PrepareResult(b.env, b.totalGas, w, queues, b.entries);
      Collected(PreparedBlocks(w, queues, [b, c]))
        == st.receipts + PrepareResult(c.env, c.totalGas, st.world, st.queues, c.entries).receipts
  {
    var st := PrepareResult(b.env, b.totalGas, w, queues, b.entries);
    assert [b, c][1..] == [c] && [c][1..] == [];
    var ps, rest := PreparedBlocks(w, queues, [b, c]), PreparedBlocks(st.world, st.queues, [c]);
    assert ps[1..] == rest && rest[1..] == [];
    assert Collected(rest) == rest[0].receipts + [] == rest[0].receipts;
  }

  lemma TwoBlocks(env: Env, totalGas: uint64, queues: map<string, N.Queue>, first: Block, second: Block)
    requires first == Block(env, totalGas, [Tx(TransferWith(0), 0, 0)])
    requires second == Block(env, totalGas, [Tx(TransferWith(1), 0, 0)])
    ensures Collected(PreparedBlocks(WALLET, queues, [first, second]))
      == [Receipt(TransferWith(0), true, B.TRANSFER_GAS, B.TRANSFER_GAS)]
        + [Receipt(TransferWith(1), true, B.TRANSFER_GAS, B.TRANSFER_GAS)]
  {
    var st := PrepareResult(env, totalGas, WALLET, queues, first.entries);
    OneTransfer(env, totalGas, WALLET, queues, 0);
    OneTransfer(env, totalGas, st.world, st.queues, 1);
    PreparedTwo(WALLET, queues, first, second);
  }

  // It does happen: prepared one after the other on one context, two blocks of one good transfer each
  // are committed with a second receipt that shows no gas.
  lemma SecondPrepareShows(env: Env, totalGas: uint64, queues: map<string, N.Queue>)
    ensures var first := Block(env, totalGas, [Tx(TransferWith(0), 0, 0)]);
      var second := Block(env, totalGas, [Tx(TransferWith(1), 0, 0)]);
      var receipts := Collected(PreparedBlocks(WALLET, queues, [first, second]));
      && |receipts| == 2 && receipts[1].gasUsed == B.TRANSFER_GAS && Rewritten(receipts)[1].gasUsed == 0
  {
    TwoBlocks(env, totalGas, queues, Block(env, totalGas, [Tx(TransferWith(0), 0, 0)]),
              Block(env, totalGas, [Tx(TransferWith(1), 0, 0)]));
    var r := Receipt(TransferWith(0), true, B.TRANSFER_GAS, B.TRANSFER_GAS);
    var s := Receipt(TransferWith(1), true, B.TRANSFER_GAS, B.TRANSFER_GAS);
    RewrittenTwo(r, s);
    assert [r] + [s] == [r, s];
  }

  // ---- What becomes of one element ----

  // *usedGas += gas
  function MoreUsed(used: uint64, gas: uint64): uint64 {
    Wrap(used + gas)
  }

  lemma RecordedFields(st: BlockState, tx: Transaction, a: Applied, burned: uint64, act: Action)
    requires a.err == Some(GasLimitReached) ==> a.charge == 0
    ensures var done := Recorded(st, tx, a, burned, act);
      && done.world == a.world && done.pool == a.pool && done.used == MoreUsed(st.used, a.charge)
      && done.halted == (st.halted || a.err == Some(GasLimitReached)) && done.errTxs == st.errTxs
      && done.okTxs == (if a.err.None? then st.okTxs + [tx] else st.okTxs)
      && done.queues == (if a.err.None? then N.Step(st.queues, N.Prepared(tx)) else st.queues)
      && done.receipts ==
           (if a.err.None? then st.receipts + [Receipt(tx, a.success, a.charge, done.used)] else st.receipts)
  {
    WrapAtMost(st.used);
  }

  // Execute by its outcome.
  lemma ExecuteShape(env: Env, st: BlockState, tx: Transaction, now: uint64)
    ensures var a, done := ApplyTx(env, st.world, st.pool, tx, now), Execute(env, st, tx, now);
      && done.world == a.world && done.pool == a.pool && done.used == MoreUsed(st.used, a.charge)
      && done.halted == (st.halted || a.err == Some(GasLimitReached)) && done.errTxs == st.errTxs
      && done.okTxs == (if a.err.None? then st.okTxs + [tx] else st.okTxs)
      && done.queues == (if a.err.None? then N.Step(st.queues, N.Prepared(tx)) else st.queues)
      && done.receipts ==
           (if a.err.None? then st.receipts + [Receipt(tx, a.success, a.charge, done.used)] else st.receipts)
  {
    var a := ApplyTx(env, st.world, st.pool, tx, now);
    LimitChangesNothing(env, st.world, st.pool, tx, now);
    RecordedFields(st, tx, a, BurnedGas(env, st, tx), ActionOf(env, tx, now, a.world));
  }

  // The element's transaction is signed by an address of its unfrozen sender or, if it is a
  // recovery, by the address on record.
  ghost predicate SignedEntry(w: World, tx: Transaction) {
    if tx.interpreter.Lost? && tx.operation.FoundRequest? then SignedByRecoverer(w, tx) else SignedBySender(w, tx)
  }

  // Whatever is executed at its turn, with or without success, is signed so.
  lemma ExecutedIsSigned(env: Env, totalGas: uint64, st: BlockState, entries: seq<Entry>, k: nat)
    requires k < |entries|
    ensures var now, e := Turn(env, totalGas, st, entries, k), entries[k];
      FateOf(env, totalGas, now, e) in {Accepted, Failed} ==> e.Tx? && SignedEntry(now.world, e.tx)
  {
    var now, e := Turn(env, totalGas, st, entries, k), entries[k];
    if e.Tx? && e.tx.interpreter.Evm? {
      E.VerifyExactly(now.world, e.tx);
    }
  }

  // A transfer's fate: refused unless its unfrozen sender signed it and has the cost and the recipient
  // exists, then accepted with the sender's next nonce and failed with any other.
  lemma TransferFate(env: Env, totalGas: uint64, st: BlockState, e: Entry)
    requires !st.halted && st.used <= totalGas && e.Tx? && e.tx.interpreter.Base?
    ensures var tx := e.tx;
      FateOf(env, totalGas, st, e)
        == if !SignedBySender(st.world, tx) || tx.to !in st.world.accounts
              || BalanceOf(st.world.ledger, tx.from) < tx.value + Wrap(tx.gasLimit * tx.gasPrice) then Refused
           else if NonceOf(st.world.ledger, tx.from) == tx.nonce then Accepted
           else Failed
  {
    B.StepExactly(st.world, e.tx);
  }

  // An account operation is accepted or refused; so is a recovery operation, unless the clock goes
  // back between its two readings. An EVM transaction is refused exactly when its unfrozen sender
  // did not sign it or its recipient does not exist.
  lemma OtherFates(env: Env, totalGas: uint64, st: BlockState, e: Entry)
    requires !st.halted && st.used <= totalGas && e.Tx? && !e.tx.interpreter.Base?
    ensures var fate, tx, w := FateOf(env, totalGas, st, e), e.tx, st.world;
      match tx.interpreter
      case AccountOps => fate == if A.Verify(w, tx).None? then Accepted else Refused
      case Lost =>
        && (fate.Refused? <==> L.Verify(w, tx, e.clockVerify).Some?)
        && (fate.Failed? ==> tx.operation.FoundRequest? && e.clockApply < e.clockVerify)
        && !fate.Unreached?
      case Evm => fate.Refused? <==> !(SignedBySender(w, tx) && (tx.to == "" || tx.to in w.accounts))
  {
    if e.tx.interpreter.Evm? {
      E.VerifyExactly(st.world, e.tx);
    }
  }

  // The step an accepted transaction is in the run of the world.
  function NamedAction(env: Env, e: Entry, after: World): Action
    requires e.Tx?
  {
    match e.tx.interpreter
    case Base => BaseTx(e.tx)
    case AccountOps => AccountTx(e.tx, env.height)
    case Lost => LostTx(e.tx, env.headerTime, e.clockApply)
    case Evm => EvmTx(after.ledger)
  }

  // An accepted element acts on the world through its interpreter, joins its sender's nonce queue,
  // and has a receipt for its gas, 21000 unless the VM ran, which usedGas goes up by.
  lemma AcceptedExactly(env: Env, totalGas: uint64, st: BlockState, e: Entry)
    requires FateOf(env, totalGas, st, e).Accepted?
    ensures var next := Step(env, totalGas, st, e);
      && e.Tx? && next.world == Act(st.world, NamedAction(env, e, next.world))
      && next.queues == N.Step(st.queues, N.Prepared(e.tx))
      && |next.receipts| == |st.receipts| + 1 && next.receipts[..|st.receipts|] == st.receipts
      && var receipt := next.receipts[|st.receipts|];
      && receipt.tx == e.tx && receipt.cumulativeGasUsed == next.used == Wrap(st.used + receipt.gasUsed)
      && (!e.tx.interpreter.Evm? ==> receipt.success && receipt.gasUsed == 21000 && next.pool == st.pool)
  {
    ActionMatches(env, st.world, st.pool, e.tx, e.clockVerify, e.clockApply);
  }

  // An accepted EVM transaction is settled as the VM's answer to its request says.
  lemma AcceptedEvm(env: Env, totalGas: uint64, st: BlockState, e: Entry) returns (c: G.VmCall)
    requires G.Conforming(env.evm.vm)
    requires FateOf(env, totalGas, st, e).Accepted? && e.tx.interpreter.Evm?
    ensures var next, o := Step(env, totalGas, st, e), env.evm.vm(c);
      && E.Requests(st.world, e.tx, c.msg) && G.Starts(env.evm.schedule, st.world.ledger, c.msg, c)
      && |next.receipts| == |st.receipts| + 1
      && var receipt := next.receipts[|st.receipts|];
      && receipt.success == o.err.None? && receipt.gasUsed == G.Charge(c.msg, o)
      && next.pool == st.pool - receipt.gasUsed
      && G.Settled(o, c.msg, env.evm.coinbase, next.world.ledger, receipt.gasUsed)
  {
    c := E.AppliedExactly(env.evm, st.world, st.pool, e.tx);
  }

  // Any other element leaves lists of accepted, receipts and queues alone; only a failed transfer is
  // charged, and only a failed EVM transaction may change the world.
  lemma OthersExactly(env: Env, totalGas: uint64, st: BlockState, e: Entry)
    requires !FateOf(env, totalGas, st, e).Accepted?
    ensures var next, fate := Step(env, totalGas, st, e), FateOf(env, totalGas, st, e);
      && next.okTxs == st.okTxs && next.receipts == st.receipts && next.queues == st.queues
      && (fate.Failed? && e.tx.interpreter.Base? ==> next.used == Wrap(st.used + 21000))
      && (!(fate.Failed? && e.tx.interpreter.Base?) ==> next.used == st.used)
      && (!(fate.Failed? && e.tx.interpreter.Evm?) ==> next.world == st.world && next.pool == st.pool)
  {
    if !st.halted && e.Tx? && totalGas >= st.used && VerifyTx(st.world, e.tx, e.clockVerify).None? {
      ChargeOfFailure(env, st, e.tx, e.clockApply);
      ExecuteShape(env, st, e.tx, e.clockApply);
      LimitChangesNothing(env, st.world, st.pool, e.tx, e.clockApply);
      WrapAtMost(st.used);
    }
  }

  // The nonce queues after the accepted transactions have joined them.
  function QueuesAfter(queues: map<string, N.Queue>, txs: seq<Transaction>): map<string, N.Queue> {
    if txs == [] then queues else N.Step(QueuesAfter(queues, txs[..|txs| - 1]), N.Prepared(txs[|txs| - 1]))
  }

  // The receipts are those of the accepted transactions, one each in order, and the queues have
  // taken in exactly these.
  ghost predicate BooksAgree(queues: map<string, N.Queue>, st: BlockState) {
    && |st.receipts| == |st.okTxs|
    && (forall i :: 0 <= i < |st.okTxs| ==> st.receipts[i].tx == st.okTxs[i])
    && st.queues == QueuesAfter(queues, st.okTxs)
  }

  lemma StepRecords(queues: map<string, N.Queue>, env: Env, totalGas: uint64, st: BlockState, e: Entry)
    requires BooksAgree(queues, st)
    ensures BooksAgree(queues, Step(env, totalGas, st, e))
  {
    var next := Step(env, totalGas, st, e);
    StepPlaces(env, totalGas, st, e);
    if FateOf(env, totalGas, st, e).Accepted? {
      AcceptedExactly(env, totalGas, st, e);
      assert next.okTxs == st.okTxs + [e.tx] && next.okTxs[..|st.okTxs|] == st.okTxs;
      forall i | 0 <= i < |st.okTxs| ensures next.receipts[i].tx == next.okTxs[i] {
        assert next.receipts[..|st.receipts|][i] == st.receipts[i];
      }
    } else {
      OthersExactly(env, totalGas, st, e);
    }
  }

  lemma {:induction false} FoldRecords(queues: map<string, N.Queue>, env: Env, totalGas: uint64, st: BlockState,
                                       entries: seq<Entry>)
    requires BooksAgree(queues, st)
    ensures BooksAgree(queues, Fold(env, totalGas, st, entries))
    decreases |entries|
  {
    if entries != [] {
      StepRecords(queues, env, totalGas, st, entries[0]);
      FoldRecords(queues, env, totalGas, Step(env, totalGas, st, entries[0]), entries[1..]);
    }
  }

  lemma PrepareRecords(env: Env, totalGas: uint64, w: World, queues: map<string, N.Queue>, entries: seq<Entry>)
    ensures BooksAgree(queues, PrepareResult(env, totalGas, w, queues, entries))
  {
    FoldRecords(queues, env, totalGas, Start(w, totalGas, queues), entries);
  }

  // ---- Prepare and Commit ----

  method ApplyTransaction(env: Env, db: StateDB, gp: G.GasPool, tx: Transaction, now: uint64, usedGas: uint64)
    returns (receipt: Option<Receipt>, err: Option<Error>, used: uint64)
    requires |tx.input| < 0x8000_0000_0000_0000
    modifies db, gp
    ensures var a := ApplyTx(env, old(db.world), old(gp.gas), tx, now);
      && err == a.err && db.world == a.world && gp.gas == a.pool && used == Wrap(usedGas + a.charge)
      && receipt == if err.None? then Some(Receipt(tx, a.success, a.charge, used)) else None
  {
    match tx.interpreter {
      case Base => receipt, err, used := B.ApplyTransaction(db, tx, usedGas);
      case AccountOps => receipt, err, used := A.ApplyTransaction(db, tx, env.height, usedGas);
      case Lost => receipt, err, used := L.ApplyTransaction(db, tx, env.headerTime, now, usedGas);
      case Evm => receipt, err, used := E.ApplyTransaction(env.evm, db, gp, tx, usedGas);
    }
  }

  method ApplyAndPush(env: Env, db: StateDB, gp: G.GasPool, nonce: N.NonceCache, tx: Transaction, now: uint64,
                      usedGas: uint64)
    returns (receipt: Option<Receipt>, err: Option<Error>, used: uint64)
    requires |tx.input| < 0x8000_0000_0000_0000
    modifies db, gp, nonce
    ensures var a := ApplyTx(env, old(db.world), old(gp.gas), tx, now);
      && err == a.err && db.world == a.world && gp.gas == a.pool && used == MoreUsed(usedGas, a.charge)
      && receipt == (if err.None? then Some(Receipt(tx, a.success, a.charge, used)) else None)
    ensures nonce.queues == if err.None? then N.Step(old(nonce.queues), N.Prepared(tx)) else old(nonce.queues)
  {
    receipt, err, used := ApplyTransaction(env, db, gp, tx, now, usedGas);
    if err.None? {
      nonce.Push(tx);
    }
  }

  // The part of Prepare's loop after verification.
  method ExecuteOne(env: Env, db: StateDB, gp: G.GasPool, nonce: N.NonceCache, tx: Transaction, now: uint64,
                    usedGas: uint64, ghost st: BlockState)
    returns (receipt: Option<Receipt>, err: Option<Error>, used: uint64)
    requires |tx.input| < 0x8000_0000_0000_0000
    requires db.world == st.world && gp.gas == st.pool && nonce.queues == st.queues && usedGas == st.used
    modifies db, gp, nonce
    ensures var done := Execute(env, st, tx, now);
      && db.world == done.world && gp.gas == done.pool && nonce.queues == done.queues && used == done.used
      && done.errTxs == st.errTxs && done.halted == (st.halted || err == Some(GasLimitReached))
      && done.okTxs == (if err.None? then st.okTxs + [tx] else st.okTxs)
      && done.receipts == (if receipt.Some? then st.receipts + [receipt.value] else st.receipts)
  {
    ExecuteShape(env, st, tx, now);
    receipt, err, used := ApplyAndPush(env, db, gp, nonce, tx, now, usedGas);
  }

  method Prepare(db: StateDB, nonce: N.NonceCache, env: Env, txs: seq<Entry>, totalGas: uint64)
    returns (usedGas: uint64, okTxs: seq<Transaction>, errTxs: seq<Option<Transaction>>, receipts: seq<Receipt>)
    requires forall i :: 0 <= i < |txs| && txs[i].Tx? ==> |txs[i].tx.input| < 0x8000_0000_0000_0000
    modifies db, nonce
    ensures var st := PrepareResult(env, totalGas, old(db.world), old(nonce.queues), txs);
      && db.world == st.world && nonce.queues == st.queues
      && usedGas == st.used && okTxs == st.okTxs && errTxs == st.errTxs && receipts == st.receipts
  {
    var gp := new G.GasPool(totalGas);
    usedGas, okTxs, errTxs, receipts := 0, [], [], [];
    ghost var st := Start(db.world, totalGas, nonce.queues);
    ghost var result := PrepareResult(env, totalGas, db.world, nonce.queues, txs);
    var i := 0;
    assert txs[0..] == txs;
    while i < |txs|
      invariant 0 <= i <= |txs| && fresh(gp)
      invariant Fold(env, totalGas, st, txs[i..]) == result && !st.halted
      invariant db.world == st.world && nonce.queues == st.queues && gp.gas == st.pool
      invariant usedGas == st.used && okTxs == st.okTxs && errTxs == st.errTxs && receipts == st.receipts
    {
      var entry := txs[i];
      ghost var before := st;
      st := Step(env, totalGas, st, entry);
      assert txs[i..][0] == entry && txs[i..][1..] == txs[i + 1..];
      i := i + 1;
      if entry.Foreign? {
        errTxs := errTxs + [None];
        continue;
      }
      var tx := entry.tx;
      if totalGas < usedGas {
        HaltedStays(env, totalGas, st, txs[i..]);
        break;
      }
      var refused := VerifyTx(db.world, tx, entry.clockVerify);
      if refused.Some? {
        errTxs := errTxs + [Some(tx)];
        continue;
      }
      var receipt, err;
      receipt, err, usedGas := ExecuteOne(env, db, gp, nonce, tx, entry.clockApply, usedGas, before);
      if err.Some? {
        if err.value == GasLimitReached {
          HaltedStays(env, totalGas, st, txs[i..]);
          break;
        }
        continue;
      }
      okTxs := okTxs + [tx];
      if receipt.Some? {
        receipts := receipts + [receipt.value];
      }
    }
  }

  lemma RewrittenCumulative(rs: seq<Receipt>, i: nat)
    requires i < |rs|
    ensures RewrittenAt(rs, i).cumulativeGasUsed == if i == 0 then rs[0].gasUsed else rs[i].cumulativeGasUsed
  {
  }

  // The first i receipts rewritten, the rest as they were.
  ghost predicate RewrittenUpTo(now: seq<Receipt>, rs: seq<Receipt>, i: nat) {
    && |now| == |rs|
    && (forall k {:trigger now[k]} :: 0 <= k < i && k < |rs| ==> now[k] == RewrittenAt(rs, k))
    && (forall k {:trigger now[k]} :: i <= k < |rs| ==> now[k] == rs[k])
  }

  lemma RewriteOne(now: seq<Receipt>, rs: seq<Receipt>, i: nat)
    requires i < |rs| && RewrittenUpTo(now, rs, i)
    ensures now[i] == rs[i]
    ensures i > 0 ==>
      now[i].(gasUsed := Wrap(now[i].cumulativeGasUsed - now[i - 1].cumulativeGasUsed)) == RewrittenAt(rs, i)
    ensures RewrittenUpTo(now[i := RewrittenAt(rs, i)], rs, i + 1)
  {
    if i > 0 {
      RewrittenCumulative(rs, i - 1);
    }
  }

  // Commit's loop over the stored receipts.
  method Commit(receipts: array<Receipt>)
    modifies receipts
    ensures receipts[..] == Rewritten(old(receipts[..]))
  {
    ghost var rs := receipts[..];
    var i := 0;
    while i < receipts.Length
      invariant 0 <= i <= receipts.Length && RewrittenUpTo(receipts[..], rs, i)
    {
      RewriteOne(receipts[..], rs, i);
      ghost var before := receipts[..];
      if i == 0 {
        receipts[i] := receipts[i].(cumulativeGasUsed := receipts[i].gasUsed);
      } else {
        receipts[i] := receipts[i].(gasUsed := Wrap(receipts[i].cumulativeGasUsed - receipts[i - 1].cumulativeGasUsed));
      }
      assert receipts[..] == before[i := RewrittenAt(rs, i)];
      i := i + 1;
    }
    assert forall k :: 0 <= k < |rs| ==> receipts[..][k] == Rewritten(rs)[k];
  }
}
