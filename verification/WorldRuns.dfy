/** Runs of transactions over the shared world: what every account, recovery,
    transfer and VM step together keep. */
module WorldRuns {
  import opened Models
  import opened Ledgers
  import opened Domains
  import A = AccountInterpreter
  import L = LostInterpreter
  import B = BaseInterpreter

  // One executed transaction with the header and clock values it saw. A VM transaction may
  // leave any ledger behind.
  datatype Action =
    | AccountTx(tx: Transaction, height: uint64)
    | LostTx(tx: Transaction, headerTime: uint64, now: uint64)
    | BaseTx(tx: Transaction)
    | EvmTx(ledger: Ledger)

  function Act(w: World, a: Action): World {
    match a
    case AccountTx(tx, height) => A.Step(w, tx, height)
    case LostTx(tx, headerTime, now) => L.Step(w, tx, headerTime, now)
    case BaseTx(tx) => B.Step(w, tx)
    case EvmTx(ledger) => w.(ledger := ledger)
  }

  function After(w: World, acts: seq<Action>): World
    decreases |acts|
  {
    if acts == [] then w else Act(After(w, acts[..|acts| - 1]), acts[|acts| - 1])
  }

  // The world in which the k-th transaction runs.
  function At(w: World, acts: seq<Action>, k: nat): World
    requires k <= |acts|
  {
    After(w, acts[..k])
  }

  lemma AtStart(w: World, acts: seq<Action>)
    ensures At(w, acts, 0) == w
  {
    assert acts[..0] == [];
  }

  lemma AtNext(w: World, acts: seq<Action>, k: nat)
    requires k < |acts|
    ensures At(w, acts, k + 1) == Act(At(w, acts, k), acts[k])
  {
    assert acts[..k + 1][..k] == acts[..k];
  }

  // What every step keeps holds throughout.
  lemma {:induction false} Throughout(p: nat -> bool, n: nat)
    requires p(0) && forall i: nat :: i < n && p(i) ==> p(i + 1)
    ensures forall k: nat :: k <= n ==> p(k)
    decreases n
  {
    if n > 0 {
      Throughout(p, n - 1);
      var before: nat := n - 1;
      assert p(before) && p(before + 1);
    }
  }

  // Runs follow one another.
  lemma {:induction false} AfterConcat(w: World, first: seq<Action>, second: seq<Action>)
    ensures After(w, first + second) == After(After(w, first), second)
    decreases |second|
  {
    if second == [] {
      assert first + second == first;
    } else {
      var front := second[..|second| - 1];
      assert (first + second)[..|first + second| - 1] == first + front;
      AfterConcat(w, first, front);
    }
  }

  lemma AccountsStay(w: World, a: Action)
    ensures w.accounts.Keys <= Act(w, a).accounts.Keys
  {
  }

  lemma {:induction false} AccountsStayOver(w: World, acts: seq<Action>)
    ensures w.accounts.Keys <= After(w, acts).accounts.Keys
    decreases |acts|
  {
    if acts != [] {
      AccountsStayOver(w, acts[..|acts| - 1]);
      AccountsStay(After(w, acts[..|acts| - 1]), acts[|acts| - 1]);
    }
  }

  // A run of base transactions alone is a run of transfers.
  function Transfers(acts: seq<Action>): seq<Transaction>
    requires forall i :: 0 <= i < |acts| ==> acts[i].BaseTx?
  {
    seq(|acts|, i requires 0 <= i < |acts| => acts[i].tx)
  }

  lemma {:induction false} BaseRunIsTransfers(w: World, acts: seq<Action>)
    requires forall i :: 0 <= i < |acts| ==> acts[i].BaseTx?
    ensures After(w, acts) == B.Run(w, Transfers(acts))
    decreases |acts|
  {
    if acts != [] {
      BaseRunIsTransfers(w, acts[..|acts| - 1]);
      assert Transfers(acts)[..|acts| - 1] == Transfers(acts[..|acts| - 1]);
    }
  }

  // ---- Recovery ----

  predicate LostAccepted(w: World, a: Action) {
    a.LostTx? && L.Verify(w, a.tx, a.now).None?
  }

  // An accepted request that reports this account lost.
  predicate Requests(w: World, a: Action, name: string) {
    && LostAccepted(w, a) && a.tx.operation.LostRequest?
    && AccountName(a.tx.operation.cn, a.tx.operation.domain) == name
  }

  predicate Clears(w: World, a: Action, name: string) {
    LostAccepted(w, a) && (a.tx.operation.FoundRequest? || a.tx.operation.LostReset?) && a.tx.from == name
  }

  predicate Registers(w: World, a: Action, name: string) {
    && a.AccountTx? && A.Verify(w, a.tx).None?
    && (a.tx.operation.RegisterAccount? || a.tx.operation.RegisterDomain?)
    && NameOf(a.tx.operation.store) == name
  }

  predicate Touches(w: World, a: Action, name: string) {
    Requests(w, a, name) || Clears(w, a, name) || Registers(w, a, name)
  }

  function RecordOf(w: World, name: string): Option<LostStore> {
    if name in w.accounts then w.accounts[name].lost else None
  }

  // What a step that touches the account leaves: a request its record, a registration
  // whatever its store brings along, for nobody checks that.
  function RecordLeftBy(w: World, a: Action, name: string): Option<LostStore> {
    if Requests(w, a, name) then Some(LostStore(a.tx.operation.recoverAddr, L.Deadline(a.headerTime)))
    else if Registers(w, a, name) then a.tx.operation.store.lost
    else None
  }

  lemma AccountActOnRecord(w: World, tx: Transaction, height: uint64, name: string)
    ensures var a := AccountTx(tx, height);
      RecordOf(A.Step(w, tx, height), name)
        == if Registers(w, a, name) then tx.operation.store.lost else RecordOf(w, name)
  {
  }

  lemma LostActOnRecord(w: World, tx: Transaction, headerTime: uint64, now: uint64, name: string)
    ensures var a := LostTx(tx, headerTime, now);
      RecordOf(L.Step(w, tx, headerTime, now), name)
        == if Requests(w, a, name) then Some(LostStore(tx.operation.recoverAddr, L.Deadline(headerTime)))
           else if Clears(w, a, name) then None
           else RecordOf(w, name)
  {
  }

  lemma ActOnRecord(w: World, a: Action, name: string)
    ensures RecordOf(Act(w, a), name) == if Touches(w, a, name) then RecordLeftBy(w, a, name) else RecordOf(w, name)
  {
    match a
    case AccountTx(tx, height) => AccountActOnRecord(w, tx, height, name);
    case LostTx(tx, headerTime, now) => LostActOnRecord(w, tx, headerTime, now, name);
    case BaseTx(tx) =>
    case EvmTx(ledger) =>
  }

  ghost predicate Untouched(w: World, acts: seq<Action>, from: nat, to: nat, name: string)
    requires to <= |acts|
  {
    forall i :: from <= i < to ==> !Touches(At(w, acts, i), acts[i], name)
  }

  // Step j left the record the account has before step k.
  ghost predicate LastTouched(w: World, acts: seq<Action>, j: nat, k: nat, name: string)
    requires k <= |acts|
  {
    j < k && Touches(At(w, acts, j), acts[j], name) && Untouched(w, acts, j + 1, k, name)
  }

  lemma StepKeepsRecord(w: World, acts: seq<Action>, i: nat, name: string)
    requires i < |acts| && !Touches(At(w, acts, i), acts[i], name)
    ensures RecordOf(At(w, acts, i + 1), name) == RecordOf(At(w, acts, i), name)
  {
    AtNext(w, acts, i);
    ActOnRecord(At(w, acts, i), acts[i], name);
  }

  // An untouched record stays,
  lemma {:induction false} RecordStays(w: World, acts: seq<Action>, j: nat, k: nat, name: string)
    requires j <= k <= |acts| && Untouched(w, acts, j, k, name)
    ensures RecordOf(At(w, acts, k), name) == RecordOf(At(w, acts, j), name)
    decreases k
  {
    if k > j {
      RecordStays(w, acts, j, k - 1, name);
      StepKeepsRecord(w, acts, k - 1, name);
    }
  }

  // so the record before step k is what the last step to touch the account left.
  lemma RecordIsLast(w: World, acts: seq<Action>, j: nat, k: nat, name: string)
    requires k <= |acts| && LastTouched(w, acts, j, k, name)
    ensures RecordOf(At(w, acts, k), name) == RecordLeftBy(At(w, acts, j), acts[j], name)
  {
    AtNext(w, acts, j);
    ActOnRecord(At(w, acts, j), acts[j], name);
    RecordStays(w, acts, j + 1, k, name);
  }

  // The last index below k at which something held.
  lemma {:induction false} LastIndex(p: nat -> bool, k: nat) returns (j: Option<nat>)
    ensures j.None? ==> forall i: nat :: i < k ==> !p(i)
    ensures j.Some? ==> j.value < k && p(j.value) && forall i: nat :: j.value < i < k ==> !p(i)
    decreases k
  {
    if k == 0 {
      j := None;
    } else if p(k - 1) {
      j := Some(k - 1);
    } else {
      j := LastIndex(p, k - 1);
    }
  }

  lemma LastTouch(w: World, acts: seq<Action>, k: nat, name: string) returns (j: Option<nat>)
    requires k <= |acts|
    ensures j.None? ==> Untouched(w, acts, 0, k, name)
    ensures j.Some? ==> LastTouched(w, acts, j.value, k, name)
  {
    var touches := (i: nat) => i < |acts| && Touches(At(w, acts, i), acts[i], name);
    j := LastIndex(touches, k);
    assert forall i: nat :: i < |acts| ==> (touches(i) <==> Touches(At(w, acts, i), acts[i], name));
  }

  // A record present at step k was left by the last step to touch the account, an accepted request
  // or a registration that brought it, unless the account had it from the start.
  lemma RecordOrigin(w: World, acts: seq<Action>, k: nat, name: string) returns (j: Option<nat>)
    requires k <= |acts| && RecordOf(At(w, acts, k), name).Some?
    ensures j.None? ==> Untouched(w, acts, 0, k, name) && RecordOf(At(w, acts, k), name) == RecordOf(w, name)
    ensures j.Some? ==> LastTouched(w, acts, j.value, k, name) && !Clears(At(w, acts, j.value), acts[j.value], name)
    ensures j.Some? ==>
      RecordOf(At(w, acts, k), name) == RecordLeftBy(At(w, acts, j.value), acts[j.value], name)
  {
    j := LastTouch(w, acts, k, name);
    if j.Some? {
      RecordIsLast(w, acts, j.value, k, name);
    } else {
      AtStart(w, acts);
      RecordStays(w, acts, 0, k, name);
    }
  }

  ghost predicate Found(w: World, acts: seq<Action>, k: nat) {
    k < |acts| && LostAccepted(At(w, acts, k), acts[k]) && acts[k].tx.operation.FoundRequest?
  }

  // Step j is a request for the account recovered at step k, by the partner it had then, who was not
  // frozen and signed it with an address of its own. It names the present signer; its deadline has
  // passed, and nothing touched the record in between.
  ghost predicate Authorises(w: World, acts: seq<Action>, j: nat, k: nat)
    requires Found(w, acts, k)
  {
    var name := acts[k].tx.from;
    && LastTouched(w, acts, j, k, name)
    && var there := At(w, acts, j);
    && Requests(there, acts[j], name)
    && SignedBySender(there, acts[j].tx)
    && name in there.accounts && acts[j].tx.from == there.accounts[name].partner
    && acts[k].tx.signer == Some(acts[j].tx.operation.recoverAddr)
    && acts[k].now >= L.Deadline(acts[j].headerTime)
  }

  // Step j registered the account with a recovery record of its own, which still stands.
  ghost predicate Planted(w: World, acts: seq<Action>, j: nat, k: nat, name: string)
    requires k <= |acts|
  {
    && LastTouched(w, acts, j, k, name) && Registers(At(w, acts, j), acts[j], name)
    && acts[j].tx.operation.store.lost.Some?
  }

  lemma LastTouchUnique(w: World, acts: seq<Action>, i: nat, j: nat, k: nat, name: string)
    requires k <= |acts| && LastTouched(w, acts, i, k, name) && LastTouched(w, acts, j, k, name)
    ensures i == j
  {
  }

  // The account had its record from the start.
  ghost predicate CarriedIn(w: World, acts: seq<Action>, k: nat, name: string)
    requires k <= |acts|
  {
    RecordOf(w, name).Some? && Untouched(w, acts, 0, k, name)
  }

  // Over any run, an accepted FoundRequest follows a request that authorises it exactly when its
  // record was neither planted by a registration nor there from the start; a planted one named the signer.
  lemma FoundIsAuthorised(w: World, acts: seq<Action>, k: nat)
    requires Found(w, acts, k)
    ensures var name := acts[k].tx.from;
      (exists j :: Authorises(w, acts, j, k)) <==>
        !(exists j :: Planted(w, acts, j, k, name)) && !CarriedIn(w, acts, k, name)
    ensures forall j: nat :: Planted(w, acts, j, k, acts[k].tx.from) ==>
      var record := acts[j].tx.operation.store.lost.value;
      acts[k].tx.signer == Some(record.recoverAddr) && acts[k].now >= record.timeStamp
  {
    var name := acts[k].tx.from;
    var last := RecordOrigin(w, acts, k, name);
    if last.Some? {
      forall j: nat | LastTouched(w, acts, j, k, name) ensures j == last.value {
        LastTouchUnique(w, acts, j, last.value, k, name);
      }
      assert Touches(At(w, acts, last.value), acts[last.value], name);
      assert Authorises(w, acts, last.value, k) || Planted(w, acts, last.value, k, name);
    } else {
      forall j: nat ensures !LastTouched(w, acts, j, k, name) {
        assert j < k ==> !Touches(At(w, acts, j), acts[j], name);
      }
    }
  }

  // The case exists: a registration may plant a record that the address it names can redeem at once.
  const PLAIN: Account := Account("", "org", {}, false, None, false, false, false, "", None)
  const REGISTRAR: Account :=
    PLAIN.(cn := "admin", addresses := {"a"}, isAdmin := true,
           permissions := Some(Permissions(true, false, false, false, false)))
  const ORG: World := World(map["admin@org" := REGISTRAR], Ledger(map[], map[]), map[])
  const MARKED: Account := PLAIN.(cn := "user", addresses := {"u"}, lost := Some(LostStore("other", 0)))
  const REGISTRATION: Transaction :=
    Transaction("admin@org", "user@org", AccountOps, 0, 0, 0, 0, [], Some("a"), RegisterAccount(MARKED, 0, 0))
  const REDEMPTION: Transaction := Transaction("user@org", "", Lost, 0, 0, 0, 0, [], Some("other"), FoundRequest)

  lemma PlantedRecordIsHonoured()
    ensures var acts := [AccountTx(REGISTRATION, 0), LostTx(REDEMPTION, 0, 0)];
      && Found(ORG, acts, 1) && Planted(ORG, acts, 0, 1, "user@org")
      && !(exists i :: Authorises(ORG, acts, i, 1))
      && After(ORG, acts).accounts["user@org"].addresses == {"other"}
  {
    var acts := [AccountTx(REGISTRATION, 0), LostTx(REDEMPTION, 0, 0)];
    AtStart(ORG, acts);
    AtNext(ORG, acts, 0);
    assert NameOf(MARKED) == "user@org";
    assert A.Verify(ORG, REGISTRATION).None?;
    FoundIsAuthorised(ORG, acts, 1);
    assert acts[..|acts| - 1] == acts[..1];
  }

  // Where the account has no record at first and its accepted registrations bring none, every
  // recovery is authorised.
  lemma FoundAfterPlainRegistrations(w: World, acts: seq<Action>, k: nat) returns (j: nat)
    requires Found(w, acts, k) && RecordOf(w, acts[k].tx.from).None?
    requires forall i :: 0 <= i < k && Registers(At(w, acts, i), acts[i], acts[k].tx.from) ==>
      acts[i].tx.operation.store.lost.None?
    ensures Authorises(w, acts, j, k)
  {
    FoundIsAuthorised(w, acts, k);
    j :| Authorises(w, acts, j, k);
  }

  // Conversely a request, left alone, is honoured once its deadline has passed.
  lemma FoundIsHonoured(w: World, acts: seq<Action>, j: nat, k: nat, tx: Transaction, now: uint64)
    requires k <= |acts| && LastTouched(w, acts, j, k, tx.from) && Requests(At(w, acts, j), acts[j], tx.from)
    requires tx.operation.FoundRequest? && tx.signer == Some(acts[j].tx.operation.recoverAddr)
    ensures var here := At(w, acts, k);
      tx.from in here.accounts &&
      (L.Verify(here, tx, now).None? <==> !here.accounts[tx.from].isFrozen && now >= L.Deadline(acts[j].headerTime))
  {
    RecordIsLast(w, acts, j, k, tx.from);
  }

  // ---- Who signed what happened ----

  // Signed with the address on the account's recovery record; the account is not frozen.
  ghost predicate SignedByRecoverer(w: World, tx: Transaction) {
    && tx.from in w.accounts
    && !w.accounts[tx.from].isFrozen
    && w.accounts[tx.from].lost.Some?
    && tx.signer == Some(w.accounts[tx.from].lost.value.recoverAddr)
  }

  // The step's transaction is signed as it must be.
  ghost predicate Signed(w: World, a: Action) {
    match a
    case AccountTx(tx, _) => SignedBySender(w, tx)
    case LostTx(tx, _, _) => if tx.operation.FoundRequest? then SignedByRecoverer(w, tx) else SignedBySender(w, tx)
    case BaseTx(tx) => SignedBySender(w, tx)
    case EvmTx(_) => true
  }

  lemma ChangeIsSigned(w: World, a: Action)
    ensures Act(w, a) == w || Signed(w, a)
  {
    if a.BaseTx? {
      B.StepExactly(w, a.tx);
    }
  }

  // Over any run the world changes only by steps signed at that moment with an address of the
  // unfrozen sender or, for a recovery, with the address on record. What VM transactions do to
  // the ledger is not looked at here.
  lemma RunChangesAreSigned(w: World, acts: seq<Action>, k: nat)
    requires k < |acts|
    ensures At(w, acts, k + 1) == At(w, acts, k) || Signed(At(w, acts, k), acts[k])
  {
    AtNext(w, acts, k);
    ChangeIsSigned(At(w, acts, k), acts[k]);
  }

  // An applied transfer out of the account.
  ghost predicate Spends(w: World, a: Action, name: string) {
    a.BaseTx? && Signed(w, a) && a.tx.from == name && a.tx.value > 0
  }

  lemma FallIsSpent(w: World, a: Action, name: string)
    requires BalanceOf(Act(w, a).ledger, name) < BalanceOf(w.ledger, name)
    ensures Spends(w, a, name) || Registers(w, a, name) || a.EvmTx?
  {
    match a
    case AccountTx(tx, height) =>
      if A.Verify(w, tx).None? {
        A.StepExactly(w, tx, height);
      }
    case LostTx(tx, headerTime, now) =>
    case BaseTx(tx) => B.StepExactly(w, tx);
    case EvmTx(ledger) =>
  }

  // If a balance fell over a run, some step was a transfer that an address of the account signed
  // while it was not frozen, a registration under its name, or a VM transaction.
  lemma {:induction false} BalanceFallOrigin(w: World, acts: seq<Action>, name: string) returns (k: nat)
    requires BalanceOf(After(w, acts).ledger, name) < BalanceOf(w.ledger, name)
    ensures k < |acts|
    ensures Spends(At(w, acts, k), acts[k], name) || Registers(At(w, acts, k), acts[k], name) || acts[k].EvmTx?
    decreases |acts|
  {
    if acts == [] {
      assert false;
    } else {
      var before, a := acts[..|acts| - 1], acts[|acts| - 1];
      if BalanceOf(After(w, before).ledger, name) < BalanceOf(w.ledger, name) {
        k := BalanceFallOrigin(w, before, name);
        assert before[..k] == acts[..k];
      } else {
        k := |acts| - 1;
        FallIsSpent(After(w, before), a, name);
      }
    }
  }

  // So do addresses: they change only by a recovery, which the address on record signs, or by a
  // registration under the name.
  lemma AddressChange(w: World, a: Action, name: string)
    requires name in w.accounts && name in Act(w, a).accounts
    requires Act(w, a).accounts[name].addresses != w.accounts[name].addresses
    ensures (a.LostTx? && a.tx.operation.FoundRequest? && SignedByRecoverer(w, a.tx) && a.tx.from == name)
      || Registers(w, a, name)
  {
  }

  lemma {:induction false} AddressOrigin(w: World, acts: seq<Action>, name: string) returns (k: nat)
    requires name in w.accounts && name in After(w, acts).accounts
    requires After(w, acts).accounts[name].addresses != w.accounts[name].addresses
    ensures k < |acts|
    ensures var here, a := At(w, acts, k), acts[k];
      (a.LostTx? && a.tx.operation.FoundRequest? && SignedByRecoverer(here, a.tx) && a.tx.from == name)
      || Registers(here, a, name)
    decreases |acts|
  {
    if acts == [] {
      assert false;
    } else {
      var before, a := acts[..|acts| - 1], acts[|acts| - 1];
      AccountsStayOver(w, before);
      if After(w, before).accounts[name].addresses != w.accounts[name].addresses {
        k := AddressOrigin(w, before, name);
        assert before[..k] == acts[..k];
      } else {
        k := |acts| - 1;
        AddressChange(After(w, before), a, name);
      }
    }
  }

  // ---- Delegation of permissions ----

  // The four flags IsValidPermission compares, and the right to deploy contracts.
  datatype Flag = RegisterUser | UpdateUser | FrozenUser | RegisterSubdomain | DeployContract
  datatype Grant = Grant(domain: string, flag: Flag)

  predicate Holds(a: Account, f: Flag) {
    match f
    case RegisterUser => a.permissions.Some? && a.permissions.value.registerUser
    case UpdateUser => a.permissions.Some? && a.permissions.value.updateUser
    case FrozenUser => a.permissions.Some? && a.permissions.value.frozenUser
    case RegisterSubdomain => a.permissions.Some? && a.permissions.value.registerSubdomain
    case DeployContract => a.enableDeployContract
  }

  // Accounts sit under their own names, and are administrators exactly if they have permissions.
  ghost predicate SoundAccount(name: string, a: Account) {
    && name == NameOf(a) && '@' !in a.cn && '@' !in a.domain
    && (a.isAdmin <==> a.permissions.Some?)
  }

  ghost predicate Sound(w: World) {
    forall n :: n in w.accounts ==> SoundAccount(n, w.accounts[n])
  }

  // Some root holds the flag in this domain or an ancestor of it.
  ghost predicate Rooted(roots: iset<Grant>, domain: string, f: Flag) {
    exists d :: Grant(d, f) in roots && Governs(d, domain)
  }

  ghost predicate RootedAccount(roots: iset<Grant>, a: Account) {
    forall f :: Holds(a, f) ==> Rooted(roots, a.domain, f)
  }

  ghost predicate Delegated(w: World, roots: iset<Grant>) {
    forall n :: n in w.accounts ==> RootedAccount(roots, w.accounts[n])
  }

  ghost function InitialGrants(w: World): iset<Grant> {
    iset g: Grant | exists n :: n in w.accounts && w.accounts[n].domain == g.domain && Holds(w.accounts[n], g.flag)
  }

  predicate RegistersDomain(w: World, a: Action) {
    a.AccountTx? && A.Verify(w, a.tx).None? && a.tx.operation.RegisterDomain?
  }

  // RegisterDomain deliberately makes a new root.
  ghost function Minted(w: World, a: Action): iset<Grant> {
    iset g: Grant | RegistersDomain(w, a) && g.domain == a.tx.operation.store.domain
  }

  ghost function Roots(w: World, acts: seq<Action>): iset<Grant>
    decreases |acts|
  {
    if acts == [] then InitialGrants(w)
    else
      var before := acts[..|acts| - 1];
      Roots(w, before) + Minted(After(w, before), acts[|acts| - 1])
  }

  lemma FormatHasNoAt(store: Account, enableDomain: bool)
    requires A.VerifyAccountFormat(store, enableDomain).None?
    ensures '@' !in store.cn && '@' !in store.domain
  {
    assert !A.IsLetterOrDigit('@');
  }

  // What a child may be given: nothing its governing domain's administrator does not hold.
  lemma PassedOn(roots: iset<Grant>, from: Account, a: Account)
    requires RootedAccount(roots, from) && from.permissions.Some? && Governs(from.domain, a.domain)
    requires a.permissions.Some? ==> A.IsValidPermission(from.permissions.value, a.permissions.value)
    requires a.enableDeployContract ==> from.enableDeployContract || Rooted(roots, a.domain, DeployContract)
    ensures RootedAccount(roots, a)
  {
    forall f | Holds(a, f) ensures Rooted(roots, a.domain, f) {
      if Holds(from, f) {
        var d :| Grant(d, f) in roots && Governs(d, from.domain);
        GovernsTransitive(d, from.domain, a.domain);
      }
    }
  }

  lemma MoreRoots(roots: iset<Grant>, more: iset<Grant>, a: Account)
    requires roots <= more && RootedAccount(roots, a)
    ensures RootedAccount(more, a)
  {
    forall f | Holds(a, f) ensures Rooted(more, a.domain, f) {
      var d :| Grant(d, f) in roots && Governs(d, a.domain);
    }
  }

  // The one account an account operation writes.
  function Changed(tx: Transaction): string {
    match tx.operation
    case RegisterAccount(store, _, _) => NameOf(store)
    case RegisterDomain(store, _, _) => NameOf(store)
    case FreezeAccount(cn, domain, _) => AccountName(cn, domain)
    case UpdatePermission(cn, domain, _) => AccountName(cn, domain)
    case _ => tx.from
  }

  lemma SameGrants(roots: iset<Grant>, a: Account, b: Account)
    requires RootedAccount(roots, a) && a.permissions == b.permissions && a.domain == b.domain
    requires a.enableDeployContract == b.enableDeployContract
    ensures RootedAccount(roots, b)
  {
    forall f | Holds(b, f) ensures Rooted(roots, b.domain, f) {
      assert Holds(a, f);
    }
  }

  lemma ChangedAccountKeeps(w: World, tx: Transaction, height: uint64, roots: iset<Grant>)
    requires Sound(w) && Delegated(w, roots) && A.Verify(w, tx).None?
    ensures var name, w' := Changed(tx), A.Step(w, tx, height);
      && name in w'.accounts && w'.accounts == w.accounts[name := w'.accounts[name]]
      && SoundAccount(name, w'.accounts[name])
      && RootedAccount(roots + Minted(w, AccountTx(tx, height)), w'.accounts[name])
  {
    var from := w.accounts[tx.from];
    assert SoundAccount(tx.from, from) && RootedAccount(roots, from);
    var more := roots + Minted(w, AccountTx(tx, height));
    var name, w' := Changed(tx), A.Step(w, tx, height);
    var made := w'.accounts[name];
    match tx.operation {
      case RegisterAccount(store, balance, nonce) =>
        FormatHasNoAt(store, from.domain != "");
        PassedOn(roots, from, store);
        MoreRoots(roots, more, store);
      case RegisterDomain(store, balance, nonce) =>
        FormatHasNoAt(store, from.domain != "");
        forall f | Holds(made, f) ensures Rooted(more, made.domain, f) {
          assert Grant(store.domain, f) in more && Governs(store.domain, made.domain);
        }
      case FreezeAccount(cn, domain, frozen) =>
        assert SoundAccount(name, w.accounts[name]) && RootedAccount(roots, w.accounts[name]);
        MoreRoots(roots, more, w.accounts[name]);
        SameGrants(more, w.accounts[name], made);
      case UpdatePermission(cn, domain, p) =>
        var target := w.accounts[name];
        assert SoundAccount(name, target) && RootedAccount(roots, target);
        NamesInjective(target.cn, target.domain, cn, domain);
        assert Holds(target, DeployContract) ==> Rooted(roots, target.domain, DeployContract);
        PassedOn(roots, from, made);
        MoreRoots(roots, more, made);
      case SetPartner(cn, domain) =>
        MoreRoots(roots, more, from);
        SameGrants(more, from, made);
    }
  }

  lemma AccountStepKeeps(w: World, tx: Transaction, height: uint64, roots: iset<Grant>)
    requires Sound(w) && Delegated(w, roots) && A.Verify(w, tx).None?
    ensures Sound(A.Step(w, tx, height))
    ensures Delegated(A.Step(w, tx, height), roots + Minted(w, AccountTx(tx, height)))
  {
    var from := w.accounts[tx.from];
    var more := roots + Minted(w, AccountTx(tx, height));
    var w' := A.Step(w, tx, height);
    var name := Changed(tx);
    assert SoundAccount(tx.from, from) && RootedAccount(roots, from);
    assert SoundAccount(name, w'.accounts[name]) && RootedAccount(more, w'.accounts[name]) by {
      ChangedAccountKeeps(w, tx, height, roots);
    }
    forall n | n in w'.accounts ensures SoundAccount(n, w'.accounts[n]) && RootedAccount(more, w'.accounts[n]) {
      if n != name {
        assert w'.accounts[n] == w.accounts[n] && RootedAccount(roots, w.accounts[n]);
        MoreRoots(roots, more, w.accounts[n]);
      }
    }
  }

  predicate SameStanding(a: Account, b: Account) {
    && a.cn == b.cn && a.domain == b.domain && a.permissions == b.permissions
    && a.isAdmin == b.isAdmin && a.isFrozen == b.isFrozen && a.enableDeployContract == b.enableDeployContract
  }

  // The other interpreters leave names, domains and permissions alone.
  ghost predicate SameAuthority(w: World, w': World) {
    w'.accounts.Keys == w.accounts.Keys &&
    forall n :: n in w.accounts ==> SameStanding(w.accounts[n], w'.accounts[n])
  }

  lemma LostKeepsAuthority(w: World, tx: Transaction, headerTime: uint64, now: uint64)
    ensures SameAuthority(w, L.Step(w, tx, headerTime, now))
  {
    if L.Verify(w, tx, now).None? {
      var name := if tx.operation.LostRequest? then AccountName(tx.operation.cn, tx.operation.domain) else tx.from;
      var w' := L.Effect(w, tx, headerTime, now);
      assert name in w.accounts && w'.accounts == w.accounts[name := w'.accounts[name]];
      assert SameStanding(w.accounts[name], w'.accounts[name]);
    }
  }

  lemma OthersKeepAuthority(w: World, a: Action)
    requires !(a.AccountTx? && A.Verify(w, a.tx).None?)
    ensures SameAuthority(w, Act(w, a)) && Minted(w, a) == iset{}
  {
    if a.LostTx? {
      LostKeepsAuthority(w, a.tx, a.headerTime, a.now);
    }
  }

  lemma AuthorityKeeps(w: World, w': World, roots: iset<Grant>)
    requires SameAuthority(w, w') && Sound(w) && Delegated(w, roots)
    ensures Sound(w') && Delegated(w', roots)
  {
    forall n | n in w'.accounts ensures SoundAccount(n, w'.accounts[n]) && RootedAccount(roots, w'.accounts[n]) {
      assert SoundAccount(n, w.accounts[n]) && RootedAccount(roots, w.accounts[n]);
      assert SameStanding(w.accounts[n], w'.accounts[n]);
      SameGrants(roots, w.accounts[n], w'.accounts[n]);
    }
  }

  // Over any run, accounts stay sound and every delegable flag stays rooted.
  lemma {:induction false} RunDelegation(w: World, acts: seq<Action>)
    requires Sound(w)
    ensures Sound(After(w, acts)) && Delegated(After(w, acts), Roots(w, acts))
    decreases |acts|
  {
    if acts == [] {
      forall n, f | n in w.accounts && Holds(w.accounts[n], f)
        ensures Rooted(InitialGrants(w), w.accounts[n].domain, f)
      {
        assert Grant(w.accounts[n].domain, f) in InitialGrants(w);
        assert Governs(w.accounts[n].domain, w.accounts[n].domain);
      }
      assert forall n :: n in w.accounts ==> RootedAccount(InitialGrants(w), w.accounts[n]);
    } else {
      var before, a := acts[..|acts| - 1], acts[|acts| - 1];
      var here := After(w, before);
      RunDelegation(w, before);
      if a.AccountTx? && A.Verify(here, a.tx).None? {
        AccountStepKeeps(here, a.tx, a.height, Roots(w, before));
      } else {
        OthersKeepAuthority(here, a);
        AuthorityKeeps(here, Act(here, a), Roots(w, before));
        assert Roots(w, acts) == Roots(w, before);
      }
    }
  }

  lemma {:induction false} NoNewRoots(w: World, acts: seq<Action>)
    requires forall i :: 0 <= i < |acts| ==> !RegistersDomain(At(w, acts, i), acts[i])
    ensures Roots(w, acts) == InitialGrants(w)
    decreases |acts|
  {
    if acts != [] {
      var before := acts[..|acts| - 1];
      forall i | 0 <= i < |before| ensures !RegistersDomain(At(w, before, i), before[i]) {
        assert before[..i] == acts[..i];
        assert !RegistersDomain(At(w, acts, i), acts[i]);
      }
      NoNewRoots(w, before);
      assert !RegistersDomain(At(w, acts, |before|), acts[|before|]);
      assert Minted(After(w, before), acts[|before|]) == iset{};
    }
  }

  // Without new domains, whoever holds a delegable flag sits in or below the domain of an
  // initial account that held the same flag.
  lemma DelegationOrigin(w: World, acts: seq<Action>, name: string, f: Flag) returns (origin: string)
    requires Sound(w)
    requires forall i :: 0 <= i < |acts| ==> !RegistersDomain(At(w, acts, i), acts[i])
    requires name in After(w, acts).accounts && Holds(After(w, acts).accounts[name], f)
    ensures origin in w.accounts && Holds(w.accounts[origin], f)
    ensures Governs(w.accounts[origin].domain, After(w, acts).accounts[name].domain)
  {
    RunDelegation(w, acts);
    NoNewRoots(w, acts);
    assert RootedAccount(InitialGrants(w), After(w, acts).accounts[name]);
    var d :| Grant(d, f) in InitialGrants(w) && Governs(d, After(w, acts).accounts[name].domain);
    origin :| origin in w.accounts && w.accounts[origin].domain == d && Holds(w.accounts[origin], f);
  }

  // ---- The right to register domains ----

  // The permission comparison does not look at this right, so it is not delegated but handed out.
  predicate HandsOutDomains(w: World, a: Action) {
    && a.AccountTx? && A.Verify(w, a.tx).None?
    && a.tx.operation.UpdatePermission? && a.tx.operation.permissions.registerDomain
  }

  ghost predicate NobodyRegistersDomains(w: World) {
    forall n :: n in w.accounts ==> !A.MayRegisterDomain(w.accounts[n])
  }

  lemma OthersKeepNobody(w: World, a: Action)
    requires NobodyRegistersDomains(w) && !(a.AccountTx? && A.Verify(w, a.tx).None?)
    ensures NobodyRegistersDomains(Act(w, a))
  {
    OthersKeepAuthority(w, a);
    forall n | n in w.accounts ensures !A.MayRegisterDomain(Act(w, a).accounts[n]) {
      assert SameStanding(w.accounts[n], Act(w, a).accounts[n]) && !A.MayRegisterDomain(w.accounts[n]);
    }
  }

  lemma ChangedAccountRight(w: World, tx: Transaction, height: uint64)
    requires NobodyRegistersDomains(w) && A.Verify(w, tx).None?
    ensures var name, w' := Changed(tx), A.Step(w, tx, height);
      && name in w'.accounts && w'.accounts == w.accounts[name := w'.accounts[name]]
      && (A.MayRegisterDomain(w'.accounts[name]) <==> HandsOutDomains(w, AccountTx(tx, height)))
      && !tx.operation.RegisterDomain?
  {
    assert !A.MayRegisterDomain(w.accounts[tx.from]);
  }

  // Where nobody has the right, somebody gets it exactly by an update whose permissions carry it,
  // although the administrator making the update does not have it either.
  lemma DomainRightAppears(w: World, a: Action)
    requires NobodyRegistersDomains(w)
    ensures !NobodyRegistersDomains(Act(w, a)) <==> HandsOutDomains(w, a)
    ensures !RegistersDomain(w, a)
  {
    if a.AccountTx? && A.Verify(w, a.tx).None? {
      ChangedAccountRight(w, a.tx, a.height);
    } else {
      OthersKeepNobody(w, a);
    }
  }

  // Over a run nobody ever has it exactly when no accepted update hands it out, and then no domain
  // is registered.
  lemma NoDomainsUnlessHandedOut(w: World, acts: seq<Action>)
    requires NobodyRegistersDomains(w)
    ensures (forall k :: 0 <= k <= |acts| ==> NobodyRegistersDomains(At(w, acts, k)))
      <==> forall i :: 0 <= i < |acts| ==> !HandsOutDomains(At(w, acts, i), acts[i])
    ensures (forall i :: 0 <= i < |acts| ==> !HandsOutDomains(At(w, acts, i), acts[i])) ==>
      forall i :: 0 <= i < |acts| ==> !RegistersDomain(At(w, acts, i), acts[i])
  {
    if forall i :: 0 <= i < |acts| ==> !HandsOutDomains(At(w, acts, i), acts[i]) {
      var nobody := (k: nat) => k <= |acts| && NobodyRegistersDomains(At(w, acts, k));
      AtStart(w, acts);
      forall i: nat | i < |acts| && nobody(i) ensures nobody(i + 1) {
        AtNext(w, acts, i);
        DomainRightAppears(At(w, acts, i), acts[i]);
      }
      Throughout(nobody, |acts|);
      forall k | 0 <= k <= |acts| ensures NobodyRegistersDomains(At(w, acts, k)) {
        assert nobody(k);
      }
      forall i | 0 <= i < |acts| ensures !RegistersDomain(At(w, acts, i), acts[i]) {
        DomainRightAppears(At(w, acts, i), acts[i]);
      }
    }
    if forall k :: 0 <= k <= |acts| ==> NobodyRegistersDomains(At(w, acts, k)) {
      forall i | 0 <= i < |acts| ensures !HandsOutDomains(At(w, acts, i), acts[i]) {
        AtNext(w, acts, i);
        DomainRightAppears(At(w, acts, i), acts[i]);
      }
    }
  }

  // So from a world where nobody may register domains, and without such updates, every right has
  // an initial holder above.
  lemma DelegationWithoutHandouts(w: World, acts: seq<Action>, name: string, f: Flag) returns (origin: string)
    requires Sound(w) && NobodyRegistersDomains(w)
    requires forall i :: 0 <= i < |acts| ==> !HandsOutDomains(At(w, acts, i), acts[i])
    requires name in After(w, acts).accounts && Holds(After(w, acts).accounts[name], f)
    ensures origin in w.accounts && Holds(w.accounts[origin], f)
    ensures Governs(w.accounts[origin].domain, After(w, acts).accounts[name].domain)
  {
    NoDomainsUnlessHandedOut(w, acts);
    origin := DelegationOrigin(w, acts, name, f);
  }

  const NO_RIGHTS: Permissions := Permissions(false, false, false, false, false)
  const TOP: Account := PLAIN.(cn := "top", addresses := {"t"}, isAdmin := true, permissions := Some(NO_RIGHTS))
  const SUB: Account := PLAIN.(cn := "sub", domain := "a.org", isAdmin := true, permissions := Some(NO_RIGHTS))
  const TREE: World := World(map["top@org" := TOP, "sub@a.org" := SUB], Ledger(map[], map[]), map[])
  const HANDOUT: Transaction := Transaction("top@org", "", AccountOps, 0, 0, 0, 0, [], Some("t"),
    UpdatePermission("sub", "a.org", NO_RIGHTS.(registerDomain := true)))

  lemma TreeIsSound()
    ensures Sound(TREE) && NobodyRegistersDomains(TREE)
  {
    assert NameOf(TOP) == "top@org" && NameOf(SUB) == "sub@a.org";
  }

  // It does happen: an administrator without any right hands this one to the one below.
  lemma DomainRightFromNobody()
    ensures Sound(TREE) && NobodyRegistersDomains(TREE)
    ensures HandsOutDomains(TREE, AccountTx(HANDOUT, 0))
    ensures A.MayRegisterDomain(Act(TREE, AccountTx(HANDOUT, 0)).accounts["sub@a.org"])
  {
    TreeIsSound();
    assert AccountName("sub", "a.org") == "sub@a.org";
    assert IsSubDomain("org", "a.org") by {
      assert "a.org"[1..] == ".org" == "." + "org";
    }
    assert A.Verify(TREE, HANDOUT).None?;
  }

  // ---- No nil permissions ----

  lemma SoundMeansNoNil(w: World, tx: Transaction)
    requires Sound(w)
    ensures A.Verify(w, tx) != Some(NilPermissions)
  {
    if tx.from in w.accounts {
      assert SoundAccount(tx.from, w.accounts[tx.from]);
    }
  }

  // In every reachable world the permission check never meets an administrator without permissions.
  lemma NoNilPermissions(w: World, acts: seq<Action>, tx: Transaction)
    requires Sound(w)
    ensures A.Verify(After(w, acts), tx) != Some(NilPermissions)
  {
    RunDelegation(w, acts);
    SoundMeansNoNil(After(w, acts), tx);
  }

  // ---- Addresses ----

  // No address signs for two accounts.
  ghost predicate Apart(w: World, n: string, m: string) {
    n in w.accounts && m in w.accounts && n != m ==> w.accounts[n].addresses !! w.accounts[m].addresses
  }

  ghost predicate Disjoint(w: World) {
    forall n, m :: Apart(w, n, m)
  }

  lemma NewAddresses(w: World, store: Account, n: string)
    requires !A.AddressTaken(w, store)
    ensures n in w.accounts ==> w.accounts[n].addresses !! store.addresses
  {
    if n in w.accounts {
      forall a | a in w.accounts[n].addresses ensures a !in store.addresses {
      }
    }
  }

  // Account operations keep it: a registered account brings only unused addresses, and a
  // registration of a user never replaces an account.
  lemma AccountStepKeepsDisjoint(w: World, tx: Transaction, height: uint64)
    requires Disjoint(w)
    ensures Disjoint(A.Step(w, tx, height))
    ensures A.Verify(w, tx).None? && tx.operation.RegisterAccount? ==> NameOf(tx.operation.store) !in w.accounts
  {
    var w' := A.Step(w, tx, height);
    forall n, m ensures Apart(w', n, m) {
      assert Apart(w, n, m);
      if A.Verify(w, tx).None? && (tx.operation.RegisterAccount? || tx.operation.RegisterDomain?) {
        NewAddresses(w, tx.operation.store, n);
        NewAddresses(w, tx.operation.store, m);
      }
    }
  }

  // No other account has the signer's address.
  ghost predicate FreshAddress(w: World, tx: Transaction)
    requires tx.signer.Some?
  {
    forall n :: n in w.accounts && n != tx.from ==> tx.signer.value !in w.accounts[n].addresses
  }

  // A recovery does not ask whether the recovery address is in use: it keeps the property
  // exactly when no other account has that address.
  lemma FoundKeepsDisjointExactly(w: World, tx: Transaction, headerTime: uint64, now: uint64)
    requires Disjoint(w) && L.Verify(w, tx, now).None? && tx.operation.FoundRequest?
    ensures Disjoint(L.Step(w, tx, headerTime, now))
      <==> FreshAddress(w, tx)
  {
    var w' := L.Step(w, tx, headerTime, now);
    if FreshAddress(w, tx) {
      forall n, m ensures Apart(w', n, m) {
        assert Apart(w, n, m);
      }
    }
    if Disjoint(w') {
      forall n | n in w.accounts && n != tx.from ensures tx.signer.value !in w.accounts[n].addresses {
        assert Apart(w', tx.from, n);
      }
    }
  }

  lemma OthersKeepDisjoint(w: World, a: Action)
    requires Disjoint(w) && !a.AccountTx? && !(LostAccepted(w, a) && a.tx.operation.FoundRequest?)
    ensures Disjoint(Act(w, a))
  {
    forall n, m ensures Apart(Act(w, a), n, m) {
      assert Apart(w, n, m);
    }
  }

  lemma StepKeepsDisjoint(w: World, acts: seq<Action>, k: nat)
    requires k < |acts| && Disjoint(At(w, acts, k))
    requires Found(w, acts, k) ==> FreshAddress(At(w, acts, k), acts[k].tx)
    ensures Disjoint(At(w, acts, k + 1))
  {
    var here, a := At(w, acts, k), acts[k];
    AtNext(w, acts, k);
    if a.AccountTx? {
      AccountStepKeepsDisjoint(here, a.tx, a.height);
    } else if Found(w, acts, k) {
      FoundKeepsDisjointExactly(here, a.tx, a.headerTime, a.now);
    } else {
      OthersKeepDisjoint(here, a);
    }
  }

  // Over any run no two accounts ever share an address exactly when every accepted recovery hands
  // out an address nobody else has at that moment.
  lemma RunKeepsDisjoint(w: World, acts: seq<Action>)
    requires Disjoint(w)
    ensures (forall k :: 0 <= k <= |acts| ==> Disjoint(At(w, acts, k)))
      <==> forall k :: 0 <= k < |acts| && Found(w, acts, k) ==> FreshAddress(At(w, acts, k), acts[k].tx)
  {
    if forall k :: 0 <= k < |acts| && Found(w, acts, k) ==> FreshAddress(At(w, acts, k), acts[k].tx) {
      var disjoint := (k: nat) => k <= |acts| && Disjoint(At(w, acts, k));
      AtStart(w, acts);
      forall k: nat | k < |acts| && disjoint(k) ensures disjoint(k + 1) {
        StepKeepsDisjoint(w, acts, k);
      }
      Throughout(disjoint, |acts|);
      forall k | 0 <= k <= |acts| ensures Disjoint(At(w, acts, k)) {
        assert disjoint(k);
      }
    }
    if forall k :: 0 <= k <= |acts| ==> Disjoint(At(w, acts, k)) {
      forall k | 0 <= k < |acts| && Found(w, acts, k) ensures FreshAddress(At(w, acts, k), acts[k].tx) {
        AtNext(w, acts, k);
        FoundKeepsDisjointExactly(At(w, acts, k), acts[k].tx, acts[k].headerTime, acts[k].now);
      }
    }
  }

  const GUARDIAN: Account := PLAIN.(cn := "admin", addresses := {"a"})
  const WARD: Account := PLAIN.(cn := "user", addresses := {"u"}, partner := "admin@org")
  const HOUSEHOLD: World := World(map["admin@org" := GUARDIAN, "user@org" := WARD], Ledger(map[], map[]), map[])
  const REPORT: Transaction :=
    Transaction("admin@org", "", Lost, 0, 0, 0, 0, [], Some("a"), LostRequest("user", "org", "a"))
  const RECOVERY: Transaction := Transaction("user@org", "", Lost, 0, 0, 0, 0, [], Some("a"), FoundRequest)

  // It does happen: the partner names its own address, which then signs for both accounts.
  lemma RecoveryShares()
    ensures var acts := [LostTx(REPORT, 0, 0), LostTx(RECOVERY, 0, MAX_UINT64)];
      && Disjoint(HOUSEHOLD) && Found(HOUSEHOLD, acts, 1) && !FreshAddress(At(HOUSEHOLD, acts, 1), RECOVERY)
      && !Disjoint(After(HOUSEHOLD, acts))
  {
    var acts := [LostTx(REPORT, 0, 0), LostTx(RECOVERY, 0, MAX_UINT64)];
    AtStart(HOUSEHOLD, acts);
    AtNext(HOUSEHOLD, acts, 0);
    AtNext(HOUSEHOLD, acts, 1);
    assert AccountName("user", "org") == "user@org";
    assert L.Verify(HOUSEHOLD, REPORT, 0).None?;
    assert acts[..|acts|] == acts;
    assert !Apart(After(HOUSEHOLD, acts), "admin@org", "user@org");
  }

  // ---- Freezing ----

  // The freeze of `name` by a step, with the authority it needs.
  ghost predicate AuthorisedFreeze(w: World, a: Action, name: string) {
    && a.AccountTx? && a.tx.operation.FreezeAccount? && A.Verify(w, a.tx).None?
    && AccountName(a.tx.operation.cn, a.tx.operation.domain) == name
    && a.tx.from in w.accounts && name in w.accounts
    && var actor, target := w.accounts[a.tx.from], w.accounts[name];
       && actor.isAdmin && !actor.isFrozen
       && ((actor.domain == target.domain && !target.isAdmin) || IsSubDomain(actor.domain, target.domain))
  }

  lemma OthersKeepFrozen(w: World, a: Action, name: string)
    requires name in w.accounts && !(a.AccountTx? && A.Verify(w, a.tx).None?)
    ensures name in Act(w, a).accounts && Act(w, a).accounts[name].isFrozen == w.accounts[name].isFrozen
  {
    OthersKeepAuthority(w, a);
    assert SameStanding(w.accounts[name], Act(w, a).accounts[name]);
  }

  // A domain registration replaces the account of its name, if there is one, by a new administrator.
  predicate Recreates(w: World, a: Action, name: string) {
    RegistersDomain(w, a) && NameOf(a.tx.operation.store) == name
  }

  // A step changes an account's mark exactly if it is an authorised freeze that says otherwise, or
  // re-creates a frozen account as the administrator of a new domain.
  lemma FreezeChangesExactly(w: World, a: Action, name: string)
    requires Sound(w) && name in w.accounts
    ensures name in Act(w, a).accounts
    ensures Act(w, a).accounts[name].isFrozen != w.accounts[name].isFrozen <==>
      || (AuthorisedFreeze(w, a, name) && a.tx.operation.frozen != w.accounts[name].isFrozen)
      || (Recreates(w, a, name) && w.accounts[name].isFrozen)
  {
    if !(a.AccountTx? && A.Verify(w, a.tx).None?) {
      OthersKeepFrozen(w, a, name);
    } else if a.tx.operation.FreezeAccount? {
      var target := w.accounts[Changed(a.tx)];
      assert SoundAccount(Changed(a.tx), target);
      NamesInjective(target.cn, target.domain, a.tx.operation.cn, a.tx.operation.domain);
    }
  }

  const FOUNDER: Account :=
    PLAIN.(cn := "top", addresses := {"t"}, isAdmin := true, permissions := Some(NO_RIGHTS.(registerDomain := true)))
  const FROZEN: Account := PLAIN.(cn := "sub", domain := "a.org", addresses := {"s"}, isFrozen := true)
  const SETTLED: World :=
    World(map["top@org" := FOUNDER, "sub@a.org" := FROZEN], Ledger(map["sub@a.org" := 50], map["sub@a.org" := 7]), map[])
  const REFOUNDING: Transaction := Transaction("top@org", "", AccountOps, 0, 0, 0, 0, [], Some("t"),
    RegisterDomain(PLAIN.(cn := "sub", domain := "a.org", addresses := {"x"}), 0, 0))

  lemma SettledIsSound()
    ensures Sound(SETTLED)
  {
    assert NameOf(FOUNDER) == "top@org" && NameOf(FROZEN) == "sub@a.org";
  }

  // It does happen: nobody asks whether the administrator's account exists, so registering the domain
  // of an account unfreezes it, hands it to another address and sets balance and nonce to zero.
  lemma RecreationResets()
    ensures var w', name := Act(SETTLED, AccountTx(REFOUNDING, 0)), "sub@a.org";
      && Sound(SETTLED) && Recreates(SETTLED, AccountTx(REFOUNDING, 0), name)
      && SETTLED.accounts[name].isFrozen && !w'.accounts[name].isFrozen && w'.accounts[name].addresses == {"x"}
      && BalanceOf(SETTLED.ledger, name) == 50 && BalanceOf(w'.ledger, name) == 0
      && NonceOf(SETTLED.ledger, name) == 7 && NonceOf(w'.ledger, name) == 0
  {
    SettledIsSound();
    assert NameOf(REFOUNDING.operation.store) == "sub@a.org";
    assert A.Verify(SETTLED, REFOUNDING).None?;
  }

  lemma SoundAfter(w: World, acts: seq<Action>)
    requires Sound(w)
    ensures Sound(After(w, acts))
  {
    RunDelegation(w, acts);
  }

  // If an account's frozen mark changed over a run, then some step was a freeze by an unfrozen
  // administrator of its own domain (if it is no administrator itself) or of a domain above
  // it, or re-created it as the administrator of a new domain.
  lemma {:induction false} FreezeOrigin(w: World, acts: seq<Action>, name: string) returns (k: nat)
    requires Sound(w) && name in w.accounts
    requires name in After(w, acts).accounts && After(w, acts).accounts[name].isFrozen != w.accounts[name].isFrozen
    ensures k < |acts|
    ensures AuthorisedFreeze(At(w, acts, k), acts[k], name) || Recreates(At(w, acts, k), acts[k], name)
    decreases |acts|
  {
    if acts == [] {
      assert false;
    } else {
      var before, a := acts[..|acts| - 1], acts[|acts| - 1];
      var here := After(w, before);
      AccountsStayOver(w, before);
      SoundAfter(w, before);
      if here.accounts[name].isFrozen != w.accounts[name].isFrozen {
        k := FreezeOrigin(w, before, name);
        assert before[..k] == acts[..k];
      } else {
        k := |acts| - 1;
        FreezeChangesExactly(here, a, name);
      }
    }
  }

  // ---- Nonces over mixed runs ----

  // The only steps that may set a sender's nonce back: a registration under its name, and a VM
  // transaction that touches its nonce.
  predicate Rewinds(w: World, a: Action, sender: string) {
    Registers(w, a, sender) || (a.EvmTx? && NonceOf(a.ledger, sender) != NonceOf(w.ledger, sender))
  }

  // A transfer that is verified and written for this sender.
  predicate AppliesFor(w: World, a: Action, sender: string) {
    a.BaseTx? && B.Applies(w, a.tx) && a.tx.from == sender
  }

  lemma AccountStepNonce(w: World, tx: Transaction, height: uint64, sender: string)
    requires !Registers(w, AccountTx(tx, height), sender)
    ensures NonceOf(A.Step(w, tx, height).ledger, sender)
      == Wrap(NonceOf(w.ledger, sender) + (if A.Verify(w, tx).None? && tx.from == sender then 1 else 0))
  {
    WrapAtMost(NonceOf(w.ledger, sender));
  }

  // Any other step leaves the nonce or moves it on by one.
  lemma NonceMovesOn(w: World, a: Action, sender: string) returns (n: nat)
    requires !Rewinds(w, a, sender)
    ensures n <= 1 && NonceOf(Act(w, a).ledger, sender) == Wrap(NonceOf(w.ledger, sender) + n)
    ensures AppliesFor(w, a, sender) ==> n == 1
  {
    n := 0;
    WrapAtMost(NonceOf(w.ledger, sender));
    match a
    case AccountTx(tx, height) =>
      AccountStepNonce(w, tx, height, sender);
      n := if A.Verify(w, tx).None? && tx.from == sender then 1 else 0;
    case LostTx(tx, headerTime, now) =>
      n := if L.Verify(w, tx, now).None? && tx.from == sender then 1 else 0;
    case BaseTx(tx) =>
      B.StepNonce(w, tx, sender);
      n := if AppliesFor(w, a, sender) then 1 else 0;
    case EvmTx(ledger) =>
  }

  lemma NonceNext(w: World, acts: seq<Action>, sender: string, k: nat) returns (n: nat)
    requires k < |acts| && !Rewinds(At(w, acts, k), acts[k], sender)
    ensures n <= 1 && NonceOf(At(w, acts, k + 1).ledger, sender) == Wrap(NonceOf(At(w, acts, k).ledger, sender) + n)
    ensures AppliesFor(At(w, acts, k), acts[k], sender) ==> n == 1
  {
    n := NonceMovesOn(At(w, acts, k), acts[k], sender);
    AtNext(w, acts, k);
  }

  // A counter is left alone by a step or moved on by one, as it is when a transfer is applied.
  ghost predicate Ticks(counter: nat -> uint64, applied: nat -> bool, k: nat) {
    counter(k + 1) == Wrap(counter(k) + 1) || (counter(k + 1) == counter(k) && !applied(k))
  }

  lemma {:induction false} CountsOver(counter: nat -> uint64, applied: nat -> bool, i: nat, j: nat) returns (n: nat)
    requires i <= j && forall k: nat :: i <= k < j ==> Ticks(counter, applied, k)
    ensures n <= j - i && counter(j) == Wrap(counter(i) + n) && (i < j && applied(i) ==> n > 0)
    decreases j
  {
    n := 0;
    WrapAtMost(counter(i));
    if i < j {
      var k: nat := j - 1;
      var before := CountsOver(counter, applied, i, k);
      assert Ticks(counter, applied, k);
      n := if counter(j) == counter(k) && !applied(k) then before else before + 1;
      WrapPlus(counter(i) + before, 1);
    }
  }

  function NonceAt(w: World, acts: seq<Action>, sender: string): nat -> uint64 {
    (k: nat) => if k <= |acts| then NonceOf(At(w, acts, k).ledger, sender) else 0
  }

  function AppliedAt(w: World, acts: seq<Action>, sender: string): nat -> bool {
    (k: nat) => k < |acts| && AppliesFor(At(w, acts, k), acts[k], sender)
  }

  lemma NonceTicks(w: World, acts: seq<Action>, sender: string, k: nat)
    requires k < |acts| && !Rewinds(At(w, acts, k), acts[k], sender)
    ensures Ticks(NonceAt(w, acts, sender), AppliedAt(w, acts, sender), k)
  {
    var n := NonceNext(w, acts, sender, k);
    WrapAtMost(NonceOf(At(w, acts, k).ledger, sender));
  }

  lemma MovedOnDiffers(x: uint64, n: nat)
    requires 0 < n < TWO_TO_64
    ensures Wrap(x + n) != x
  {
    WrapAtMost(x);
    WrapDiffers(x, x + n);
  }

  lemma NonceDiffers(w: World, acts: seq<Action>, sender: string, i: nat, j: nat)
    requires i < j < |acts| && j - i < TWO_TO_64 && AppliesFor(At(w, acts, i), acts[i], sender)
    requires forall k :: i <= k < j ==> !Rewinds(At(w, acts, k), acts[k], sender)
    ensures NonceOf(At(w, acts, i).ledger, sender) != NonceOf(At(w, acts, j).ledger, sender)
  {
    var counter, applied := NonceAt(w, acts, sender), AppliedAt(w, acts, sender);
    forall k: nat | i <= k < j ensures Ticks(counter, applied, k) {
      NonceTicks(w, acts, sender, k);
    }
    assert applied(i);
    var n := CountsOver(counter, applied, i, j);
    MovedOnDiffers(counter(i), n);
  }

  // Over any run of all interpreters, a nonce of a sender is applied twice within 2^64 steps only
  // across a registration under the sender's name, or a VM transaction that touched its nonce.
  lemma RepeatedNonceWasRewound(w: World, acts: seq<Action>, sender: string, i: nat, j: nat) returns (k: nat)
    requires i < j < |acts| && j - i < TWO_TO_64
    requires AppliesFor(At(w, acts, i), acts[i], sender) && AppliesFor(At(w, acts, j), acts[j], sender)
    requires acts[i].tx.nonce == acts[j].tx.nonce
    ensures i < k < j && Rewinds(At(w, acts, k), acts[k], sender)
  {
    if forall k :: i <= k < j ==> !Rewinds(At(w, acts, k), acts[k], sender) {
      NonceDiffers(w, acts, sender, i, j);
    }
    k :| i <= k < j && Rewinds(At(w, acts, k), acts[k], sender);
  }
}
