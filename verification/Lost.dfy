/** The recovery interpreter: a partner reports an account lost and names a
    recovery address; after a waiting time that address may take it over. */
module LostInterpreter {
  import opened Models
  import opened Ledgers

  // lostFoundInterval as the code computes it.
  const LOST_FOUND_INTERVAL := 60 * 3600 * 24 * 2
  const LOST_OP_GAS := 21000

  function VerifyLostRequest(w: World, from: string, cn: string, domain: string): Option<Error> {
    var name := AccountName(cn, domain);
    if name !in w.accounts then Some(ToAccountNotFound)
    else if from != w.accounts[name].partner then Some(Unauthorized)
    else None
  }

  function VerifyFoundRequest(w: World, account: string, signer: Address, now: uint64): Option<Error> {
    if account !in w.accounts then Some(ToAccountNotFound)
    else
      var record := w.accounts[account].lost;
      if record.None? then Some(Unauthorized)
      else if record.value.recoverAddr != signer then Some(Unauthorized)
      else if now < record.value.timeStamp then Some(Unauthorized)
      else None
  }

  // VerifyTx of the recovery interpreter, with the clock it reads.
  function Verify(w: World, tx: Transaction, now: uint64): Option<Error> {
    if tx.from !in w.accounts then Some(FromAccountNotFound)
    else
      var from := w.accounts[tx.from];
      if from.isFrozen then Some(FrozenAccount)
      else if tx.signer.None? then Some(InvalidSigner)
      else match tx.operation
        case Undecodable => Some(DecodeFailed)
        case LostRequest(cn, domain, _) =>
          if tx.signer.value !in from.addresses then Some(InvalidSigner)
          else VerifyLostRequest(w, tx.from, cn, domain)
        case FoundRequest => VerifyFoundRequest(w, tx.from, tx.signer.value, now)
        case LostReset => if tx.signer.value !in from.addresses then Some(InvalidSigner) else None
        case _ => Some(InvalidAccountOp)
  }

  // The earliest clock reading at which a request made under this header may be completed.
  function Deadline(headerTime: uint64): uint64 {
    Wrap(headerTime + LOST_FOUND_INTERVAL)
  }

  function Effect(w: World, tx: Transaction, headerTime: uint64, now: uint64): World
    requires Verify(w, tx, now).None?
  {
    match tx.operation
    case LostRequest(cn, domain, recoverAddr) =>
      var name := AccountName(cn, domain);
      WithAccount(w, name, w.accounts[name].(lost := Some(LostStore(recoverAddr, Deadline(headerTime)))))
    case FoundRequest =>
      var account := w.accounts[tx.from];
      WithAccount(w, tx.from, account.(addresses := {account.lost.value.recoverAddr}, lost := None))
    case LostReset =>
      WithAccount(w, tx.from, w.accounts[tx.from].(lost := None))
  }

  // One recovery transaction; a refused one changes nothing.
  function Step(w: World, tx: Transaction, headerTime: uint64, now: uint64): World {
    if Verify(w, tx, now).Some? then w
    else
      var done := Effect(w, tx, headerTime, now);
      done.(ledger := WithNonce(done.ledger, tx.from, Wrap(NonceOf(done.ledger, tx.from) + 1)))
  }

  // The sum wraps for header times near the top of uint64; otherwise the deadline is
  // the header time plus the interval.
  lemma DeadlineExact(headerTime: uint64)
    ensures Deadline(headerTime) == headerTime + 10_368_000 <==> headerTime <= MAX_UINT64 - 10_368_000
  {
    if headerTime > MAX_UINT64 - LOST_FOUND_INTERVAL {
      assert Deadline(headerTime) == headerTime + LOST_FOUND_INTERVAL - TWO_TO_64;
    }
  }

  // A report is accepted exactly from the account's partner, signed by one of the partner's addresses;
  lemma LostRequestAccepted(w: World, tx: Transaction, now: uint64)
    requires tx.operation.LostRequest?
    ensures var name := tx.operation.cn + "@" + tx.operation.domain;
      Verify(w, tx, now).None?
      <==> SignedBySender(w, tx) && name in w.accounts && w.accounts[name].partner == tx.from
  {
  }

  // its withdrawal from the account itself;
  lemma LostResetAccepted(w: World, tx: Transaction, now: uint64)
    requires tx.operation.LostReset?
    ensures Verify(w, tx, now).None? <==> SignedBySender(w, tx)
  {
  }

  // and a recovery exactly when signed with the address on record, its deadline passed, for an
  // account that is not frozen. An account's own addresses do not matter there.
  lemma FoundRequestAccepted(w: World, tx: Transaction, now: uint64)
    requires tx.operation.FoundRequest?
    ensures Verify(w, tx, now).None?
      <==> && tx.from in w.accounts && !w.accounts[tx.from].isFrozen
           && w.accounts[tx.from].lost.Some?
           && tx.signer == Some(w.accounts[tx.from].lost.value.recoverAddr)
           && now >= w.accounts[tx.from].lost.value.timeStamp
  {
  }

  // No other operation is accepted here.
  lemma NothingElseAccepted(w: World, tx: Transaction, now: uint64)
    ensures Verify(w, tx, now).None? ==>
      tx.operation.LostRequest? || tx.operation.FoundRequest? || tx.operation.LostReset?
  {
  }

  // An accepted operation writes one account's record, and on a recovery its addresses; balances,
  // domains and every other account stay, and only the sender's nonce moves.
  lemma StepExactly(w: World, tx: Transaction, headerTime: uint64, now: uint64)
    requires Verify(w, tx, now).None?
    ensures var w' := Step(w, tx, headerTime, now);
      var name := if tx.operation.LostRequest? then tx.operation.cn + "@" + tx.operation.domain else tx.from;
      && name in w.accounts
      && var a := w.accounts[name];
      && w'.accounts == w.accounts[name :=
           if tx.operation.LostRequest? then
             a.(lost := Some(LostStore(tx.operation.recoverAddr, Wrap(headerTime + 10_368_000))))
           else if tx.operation.FoundRequest? then a.(addresses := {tx.signer.value}, lost := None)
           else a.(lost := None)]
      && w'.domains == w.domains && w'.ledger.balances == w.ledger.balances
      && w'.ledger.nonces == w.ledger.nonces[tx.from := Wrap(NonceOf(w.ledger, tx.from) + 1)]
  {
  }

  method CommitLostRequest(db: StateDB, name: string, recoverAddr: Address, headerTime: uint64)
    requires name in db.world.accounts
    modifies db
    ensures var a := old(db.world).accounts[name];
      db.world == WithAccount(old(db.world), name, a.(lost := Some(LostStore(recoverAddr, Deadline(headerTime)))))
  {
    var store := LostStore(recoverAddr, Wrap(headerTime + LOST_FOUND_INTERVAL));
    db.PutAccount(name, db.world.accounts[name].(lost := Some(store)));
  }

  // The address change and the removal of the record are two updates of the account.
  method CommitFoundRequest(db: StateDB, name: string)
    requires name in db.world.accounts && db.world.accounts[name].lost.Some?
    modifies db
    ensures var a := old(db.world).accounts[name];
      db.world == WithAccount(old(db.world), name, a.(addresses := {a.lost.value.recoverAddr}, lost := None))
  {
    var store := db.world.accounts[name].lost.value;
    db.PutAccount(name, db.world.accounts[name].(addresses := {store.recoverAddr}));
    db.PutAccount(name, db.world.accounts[name].(lost := None));
  }

  method ApplyTransaction(db: StateDB, tx: Transaction, headerTime: uint64, now: uint64, usedGas: uint64)
    returns (receipt: Option<Receipt>, err: Option<Error>, used: uint64)
    modifies db
    ensures err == Verify(old(db.world), tx, now) && db.world == Step(old(db.world), tx, headerTime, now)
    ensures err.Some? ==> receipt.None? && used == usedGas
    ensures err.None? ==> used == Wrap(usedGas + LOST_OP_GAS)
    ensures err.None? ==> receipt == Some(Receipt(tx, true, LOST_OP_GAS, used))
  {
    used := usedGas;
    err := Verify(db.world, tx, now);
    if err.Some? {
      return None, err, used;
    }
    match tx.operation {
      case LostRequest(cn, domain, recoverAddr) =>
        CommitLostRequest(db, AccountName(cn, domain), recoverAddr, headerTime);
      case FoundRequest =>
        CommitFoundRequest(db, tx.from);
      case LostReset =>
        db.PutAccount(tx.from, db.world.accounts[tx.from].(lost := None));
    }
    used := Wrap(used + LOST_OP_GAS);
    db.SetNonce(tx.from, Wrap(NonceOf(db.world.ledger, tx.from) + 1));
    return Some(Receipt(tx, true, LOST_OP_GAS, used)), None, used;
  }
}
