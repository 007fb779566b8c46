/** The base interpreter: a plain transfer with its balance check and nonce step. */
module BaseInterpreter {
  import opened Models
  import opened Ledgers

  const TRANSFER_GAS := 21000

  function Verify(w: World, tx: Transaction): Option<Error> {
    if tx.signer.None? then Some(InvalidSigner)
    else if tx.from !in w.accounts then Some(FromAccountNotFound)
    else if w.accounts[tx.from].isFrozen then Some(FrozenAccount)
    else if tx.signer.value !in w.accounts[tx.from].addresses then Some(InvalidSigner)
    else if tx.to !in w.accounts then Some(ToAccountNotFound)
    else if BalanceOf(w.ledger, tx.from) < tx.Cost() then Some(BalanceNotEnough)
    else None
  }

  function Moved(l: Ledger, tx: Transaction): Ledger {
    if tx.value <= 0 then l
    else
      var paid := Credit(l, tx.from, -tx.value);
      if tx.to != "" then Credit(paid, tx.to, tx.value) else paid
  }

  // writeState: the ledger after the transfer, or a nonce mismatch.
  function Transferred(l: Ledger, tx: Transaction): Option<Ledger> {
    if NonceOf(l, tx.from) != tx.nonce then None
    else Some(Moved(WithNonce(l, tx.from, Wrap(tx.nonce + 1)), tx))
  }

  // Whether the transaction is verified and written.
  predicate Applies(w: World, tx: Transaction) {
    Verify(w, tx).None? && NonceOf(w.ledger, tx.from) == tx.nonce
  }

  function Step(w: World, tx: Transaction): World {
    if Applies(w, tx) then w.(ledger := Transferred(w.ledger, tx).value) else w
  }

  // What a transfer takes from an account, and what it brings.
  function Sent(tx: Transaction, who: string): int {
    if who == tx.from && tx.value > 0 then tx.value else 0
  }

  function Received(tx: Transaction, who: string): int {
    if who == tx.to && tx.to != "" && tx.value > 0 then tx.value else 0
  }

  // The transfer by its effect on each account.
  ghost predicate Transfers(l: Ledger, tx: Transaction, l': Ledger) {
    && l'.nonces == l.nonces[tx.from := Wrap(tx.nonce + 1)]
    && forall who :: BalanceOf(l', who) == BalanceOf(l, who) + Received(tx, who) - Sent(tx, who)
  }

  method WriteState(db: StateDB, tx: Transaction) returns (err: Option<Error>)
    modifies db
    ensures var t := Transferred(old(db.world.ledger), tx);
      if t.Some? then err.None? && db.world == old(db.world).(ledger := t.value)
      else err == Some(NonceMismatch) && db.world == old(db.world)
    ensures err.None? <==> NonceOf(old(db.world.ledger), tx.from) == tx.nonce
    ensures err.None? ==> Transfers(old(db.world.ledger), tx, db.world.ledger)
  {
    var currentNonce: int := NonceOf(db.world.ledger, tx.from);
    if currentNonce != tx.nonce {
      return Some(NonceMismatch);
    }
    db.SetNonce(tx.from, Wrap(currentNonce + 1));
    if tx.value > 0 {
      db.SubBalance(tx.from, tx.value);
      if tx.to != "" {
        db.AddBalance(tx.to, tx.value);
      }
    }
    return None;
  }

  // Gas is charged before the state is written, so a nonce mismatch is charged too.
  method ApplyTransaction(db: StateDB, tx: Transaction, usedGas: uint64)
    returns (receipt: Option<Receipt>, err: Option<Error>, used: uint64)
    modifies db
    ensures used == Wrap(usedGas + TRANSFER_GAS)
    ensures var t := Transferred(old(db.world.ledger), tx);
      if t.Some? then
        err.None? && receipt == Some(Receipt(tx, true, TRANSFER_GAS, used)) &&
        db.world == old(db.world).(ledger := t.value)
      else err == Some(NonceMismatch) && receipt.None? && db.world == old(db.world)
    ensures err.None? ==> Transfers(old(db.world.ledger), tx, db.world.ledger)
  {
    used := Wrap(usedGas + TRANSFER_GAS);
    receipt := Some(Receipt(tx, true, TRANSFER_GAS, used));
    err := WriteState(db, tx);
    if err.Some? {
      receipt := None;
    }
  }

  // ---- One transfer ----

  ghost predicate NonNegative(l: Ledger) {
    forall who :: who in l.balances ==> l.balances[who] >= 0
  }

  // The wrapping gas product only ever makes Cost too small, never less than the value,
  // so no verified transfer overdraws.
  lemma VerifiedCoversValue(w: World, tx: Transaction)
    requires Verify(w, tx).None?
    ensures BalanceOf(w.ledger, tx.from) >= tx.value
  {
  }

  // A transfer takes effect exactly when the unfrozen sender signed it with its next nonce, has the
  // cost, and the recipient exists; then it moves the value and the nonce, and nothing else.
  lemma StepExactly(w: World, tx: Transaction)
    ensures Applies(w, tx) <==>
      && SignedBySender(w, tx) && tx.to in w.accounts
      && BalanceOf(w.ledger, tx.from) >= tx.value + Wrap(tx.gasLimit * tx.gasPrice)
      && NonceOf(w.ledger, tx.from) == tx.nonce
    ensures var w' := Step(w, tx);
      if Applies(w, tx) then
        w'.accounts == w.accounts && w'.domains == w.domains && Transfers(w.ledger, tx, w'.ledger)
      else w' == w
  {
  }

  lemma StepKeepsNonNegative(w: World, tx: Transaction)
    requires NonNegative(w.ledger)
    ensures NonNegative(Step(w, tx).ledger)
  {
    if Applies(w, tx) {
      VerifiedCoversValue(w, tx);
    }
  }

  // Value sent to the empty name is credited to nobody.
  lemma MovedTotal(l: Ledger, tx: Transaction)
    ensures Total(Moved(l, tx).balances)
      == Total(l.balances) - (if tx.value > 0 && tx.to == "" then tx.value else 0)
  {
    if tx.value > 0 {
      CreditAddsToTotal(l, tx.from, -tx.value);
      CreditAddsToTotal(Credit(l, tx.from, -tx.value), tx.to, tx.value);
    }
  }

  // The total is kept exactly unless value leaves for the empty name.
  lemma StepConserves(w: World, tx: Transaction)
    ensures Total(Step(w, tx).ledger.balances) == Total(w.ledger.balances)
      <==> !(Applies(w, tx) && tx.value > 0 && tx.to == "")
  {
    MovedTotal(WithNonce(w.ledger, tx.from, Wrap(tx.nonce + 1)), tx);
  }

  // ---- Runs of transfers ----

  function Run(w: World, txs: seq<Transaction>): World
    decreases |txs|
  {
    if txs == [] then w else Step(Run(w, txs[..|txs| - 1]), txs[|txs| - 1])
  }

  // The transfers of a run that take effect.
  function AppliedTxs(w: World, txs: seq<Transaction>): seq<Transaction>
    decreases |txs|
  {
    if txs == [] then []
    else
      var front, last := txs[..|txs| - 1], txs[|txs| - 1];
      AppliedTxs(w, front) + if Applies(Run(w, front), last) then [last] else []
  }

  function SentBy(txs: seq<Transaction>, who: string): int {
    if txs == [] then 0 else SentBy(txs[..|txs| - 1], who) + Sent(txs[|txs| - 1], who)
  }

  function ReceivedBy(txs: seq<Transaction>, who: string): int {
    if txs == [] then 0 else ReceivedBy(txs[..|txs| - 1], who) + Received(txs[|txs| - 1], who)
  }

  lemma OneMore(txs: seq<Transaction>, tx: Transaction, who: string)
    ensures SentBy(txs + [tx], who) == SentBy(txs, who) + Sent(tx, who)
    ensures ReceivedBy(txs + [tx], who) == ReceivedBy(txs, who) + Received(tx, who)
  {
    assert (txs + [tx])[..|txs|] == txs;
  }

  // Over any run each account has what it began with, what it was sent, and not what it sent.
  lemma {:induction false} RunBalances(w: World, txs: seq<Transaction>, who: string)
    ensures var applied := AppliedTxs(w, txs);
      BalanceOf(Run(w, txs).ledger, who)
        == BalanceOf(w.ledger, who) + ReceivedBy(applied, who) - SentBy(applied, who)
    decreases |txs|
  {
    if txs != [] {
      var front, last := txs[..|txs| - 1], txs[|txs| - 1];
      RunBalances(w, front, who);
      StepExactly(Run(w, front), last);
      OneMore(AppliedTxs(w, front), last, who);
      assert AppliedTxs(w, front) + [] == AppliedTxs(w, front);
    }
  }

  // Nonces of the transfers applied for one sender, in order.
  function AppliedNonces(w: World, txs: seq<Transaction>, sender: string): seq<uint64>
    decreases |txs|
  {
    if txs == [] then []
    else
      var front, last := txs[..|txs| - 1], txs[|txs| - 1];
      AppliedNonces(w, front, sender) + (if Applies(Run(w, front), last) && last.from == sender then [last.nonce] else [])
  }

  // Where no account is called "", balances stay non-negative and the total is constant.
  lemma {:induction false} RunConserves(w: World, txs: seq<Transaction>)
    requires NonNegative(w.ledger) && "" !in w.accounts
    ensures var w' := Run(w, txs);
      NonNegative(w'.ledger) && Total(w'.ledger.balances) == Total(w.ledger.balances) && w'.accounts == w.accounts
    decreases |txs|
  {
    if txs != [] {
      var here := Run(w, txs[..|txs| - 1]);
      RunConserves(w, txs[..|txs| - 1]);
      StepKeepsNonNegative(here, txs[|txs| - 1]);
      StepConserves(here, txs[|txs| - 1]);
    }
  }

  lemma StepNonce(w: World, tx: Transaction, sender: string)
    ensures NonceOf(Step(w, tx).ledger, sender)
      == if Applies(w, tx) && tx.from == sender then Wrap(NonceOf(w.ledger, sender) + 1) else NonceOf(w.ledger, sender)
  {
  }

  // The nonces count up one by one, modulo 2^64, from where the sender stood to where it stands
  // now, and none comes twice until 2^64 of them have been.
  ghost predicate CountsUp(start: uint64, nonces: seq<uint64>, end: uint64) {
    && end == Wrap(start + |nonces|)
    && (forall i :: 0 <= i < |nonces| ==> nonces[i] == Wrap(start + i))
    && (forall i, j :: 0 <= i < j < |nonces| && j - i < TWO_TO_64 ==> nonces[i] != nonces[j])
  }

  lemma CountsUpNext(start: uint64, nonces: seq<uint64>, end: uint64)
    requires CountsUp(start, nonces, end)
    ensures CountsUp(start, nonces + [end], Wrap(end + 1))
  {
    var more := nonces + [end];
    WrapPlus(start + |nonces|, 1);
    forall i, j | 0 <= i < j < |more| && j - i < TWO_TO_64 ensures more[i] != more[j] {
      WrapDiffers(start + i, start + j);
    }
  }

  // A sender's applied nonces are consecutive from its initial nonce, and none is applied twice.
  lemma {:induction false} AppliedConsecutive(w: World, txs: seq<Transaction>, sender: string)
    ensures CountsUp(NonceOf(w.ledger, sender), AppliedNonces(w, txs, sender), NonceOf(Run(w, txs).ledger, sender))
    decreases |txs|
  {
    if txs != [] {
      var front, last := txs[..|txs| - 1], txs[|txs| - 1];
      AppliedConsecutive(w, front, sender);
      StepNonce(Run(w, front), last, sender);
      CountsUpNext(NonceOf(w.ledger, sender), AppliedNonces(w, front, sender), NonceOf(Run(w, front).ledger, sender));
    }
  }
}
