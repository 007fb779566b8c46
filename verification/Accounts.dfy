/** The account interpreter: registering users and domains, freezing, updating
    permissions and naming a partner, each guarded by the caller's domain and flags. */
module AccountInterpreter {
  import opened Models
  import opened Ledgers
  import opened Domains

  const MIN_NAME_LEN := 3
  const MAX_NAME_LEN := 64
  const ACCOUNT_OP_GAS := 21000

  // ---- Formats and permissions ----

  // unicode.IsLetter or unicode.IsDigit; every rune outside ASCII is taken to be one.
  predicate IsLetterOrDigit(c: char) {
    '0' <= c <= '9' || 'A' <= c <= 'Z' || 'a' <= c <= 'z' || c as int >= 128
  }

  function VerifyAccountFormat(store: Account, enableDomain: bool): Option<Error> {
    if |store.cn| > MAX_NAME_LEN || |store.cn| < MIN_NAME_LEN then Some(InvalidNameLength)
    else if enableDomain && (|store.domain| > MAX_NAME_LEN || |store.domain| < MIN_NAME_LEN) then
      Some(InvalidDomainLength)
    else if !enableDomain && store.domain != "" then Some(InvalidDomainFormat)
    else if exists c :: c in store.cn && !(IsLetterOrDigit(c) || c == '_') then Some(InvalidNameFormat)
    else if enableDomain && exists c :: c in store.domain && !(IsLetterOrDigit(c) || c == '.') then
      Some(InvalidNameFormat)
    else None
  }

  predicate IsValidPermission(from: Permissions, to: Permissions) {
    && (to.registerUser ==> from.registerUser)
    && (to.updateUser ==> from.updateUser)
    && (to.frozenUser ==> from.frozenUser)
    && (to.registerSubdomain ==> from.registerSubdomain)
  }

  // The protocol package's AuthorizedRegisterUser and AuthorizedRegisterDomain.
  predicate MayRegisterUser(from: Account) {
    from.permissions.Some? && from.permissions.value.registerUser
  }

  predicate MayRegisterDomain(from: Account) {
    from.permissions.Some? && from.permissions.value.registerDomain
  }

  predicate AddressTaken(w: World, store: Account) {
    exists n :: n in w.accounts && exists a :: a in w.accounts[n].addresses && a in store.addresses
  }

  // The checks both registrations begin with.
  function VerifyNewStore(w: World, from: Account, store: Account, balance: int, nonce: uint64): Option<Error> {
    var format := VerifyAccountFormat(store, from.domain != "");
    if format.Some? then format
    else if balance != 0 || nonce != 0 then Some(InvalidBalance)
    else if AddressTaken(w, store) then Some(AddressExists)
    else None
  }

  function VerifyRegisterDomain(w: World, from: Account, store: Account, balance: int, nonce: uint64): Option<Error> {
    var basic := VerifyNewStore(w, from, store, balance, nonce);
    if basic.Some? then basic
    else if !MayRegisterDomain(from) then Some(Unauthorized)
    else if store.domain in w.domains then Some(DomainExists)
    else None
  }

  // What a registration may carry, by where the new account's domain lies.
  function VerifyPlacement(from: Account, store: Account): Option<Error>
    requires from.permissions.Some?
  {
    if from.domain == store.domain then
      if store.isAdmin then Some(InvalidAdminField)
      else if store.permissions.Some? then Some(InvalidPermission)
      else None
    else if IsSubDomain(from.domain, store.domain) then
      if store.isAdmin then
        if !from.permissions.value.registerSubdomain then Some(Unauthorized)
        else if store.permissions.None? || !IsValidPermission(from.permissions.value, store.permissions.value) then
          Some(InvalidPermission)
        else if store.permissions.value.registerDomain then Some(InvalidPermission)
        else None
      else if store.permissions.Some? then Some(InvalidPermission)
      else None
    else Some(InvalidDomain)
  }

  function VerifyAccountRegister(w: World, from: Account, store: Account, balance: int, nonce: uint64): Option<Error> {
    var basic := VerifyNewStore(w, from, store, balance, nonce);
    if basic.Some? then basic
    else if !MayRegisterUser(from) then Some(Unauthorized)
    else if !from.enableDeployContract && store.enableDeployContract then Some(Unauthorized)
    else
      var placement := VerifyPlacement(from, store);
      if placement.Some? then placement
      else if NameOf(store) in w.accounts then Some(AccountExists)
      else None
  }

  function VerifyFreeze(w: World, from: Account, cn: string, domain: string): Option<Error> {
    if !from.isAdmin then Some(Unauthorized)
    else if AccountName(cn, domain) !in w.accounts then Some(AccountNotExists)
    else
      var target := w.accounts[AccountName(cn, domain)];
      if from.domain == target.domain then
        if target.isAdmin then Some(Unauthorized) else None
      else if IsSubDomain(from.domain, domain) then None
      else Some(Unauthorized)
  }

  // NilPermissions stands for the Go code's nil dereference.
  function VerifyUpdatePermission(w: World, from: Account, cn: string, domain: string, p: Permissions): Option<Error> {
    if !from.isAdmin then Some(Unauthorized)
    else if AccountName(cn, domain) !in w.accounts then Some(AccountNotExists)
    else if !IsSubDomain(from.domain, domain) || !w.accounts[AccountName(cn, domain)].isAdmin then Some(Unauthorized)
    else if from.permissions.None? then Some(NilPermissions)
    else if !IsValidPermission(from.permissions.value, p) then Some(Unauthorized)
    else None
  }

  function VerifySetPartner(from: Account, cn: string, domain: string): Option<Error> {
    if from.domain == domain || IsSubDomain(domain, from.domain) || cn == "" then None else Some(InvalidDomain)
  }

  // VerifyTx of the account interpreter.
  function Verify(w: World, tx: Transaction): Option<Error> {
    if tx.from !in w.accounts then Some(FromAccountNotFound)
    else
      var from := w.accounts[tx.from];
      if from.isFrozen then Some(FrozenAccount)
      else if tx.signer.None? || tx.signer.value !in from.addresses then Some(InvalidSigner)
      else match tx.operation
        case Undecodable => Some(DecodeFailed)
        case RegisterAccount(store, balance, nonce) =>
          if NameOf(store) != tx.to then Some(InvalidInput)
          else VerifyAccountRegister(w, from, store, balance, nonce)
        case RegisterDomain(store, balance, nonce) => VerifyRegisterDomain(w, from, store, balance, nonce)
        case FreezeAccount(cn, domain, frozen) => VerifyFreeze(w, from, cn, domain)
        case UpdatePermission(cn, domain, p) => VerifyUpdatePermission(w, from, cn, domain, p)
        case SetPartner(cn, domain) => VerifySetPartner(from, cn, domain)
        case _ => Some(InvalidAccountOp)
  }

  // ---- Effects ----

  const DOMAIN_ADMIN: Permissions := Permissions(true, true, true, false, true)

  function AsDomainAdmin(store: Account): Account {
    store.(permissions := Some(DOMAIN_ADMIN), isAdmin := true, enableDeployContract := true, isFrozen := false)
  }

  function PartnerName(cn: string, domain: string): string {
    if cn == "" then "" else AccountName(cn, domain)
  }

  // What a verified operation does, before the sender's nonce moves on.
  function Effect(w: World, tx: Transaction, height: uint64): World
    requires Verify(w, tx).None?
  {
    match tx.operation
    case RegisterAccount(store, balance, nonce) => Created(w, store, balance, nonce)
    case RegisterDomain(store, balance, nonce) =>
      var made := Created(w, AsDomainAdmin(store), balance, nonce);
      made.(domains := made.domains[store.domain := DomainStore(store.cn, Wrap(height + 1))])
    case FreezeAccount(cn, domain, frozen) =>
      var name := AccountName(cn, domain);
      WithAccount(w, name, w.accounts[name].(isFrozen := frozen))
    case UpdatePermission(cn, domain, p) =>
      var name := AccountName(cn, domain);
      WithAccount(w, name, w.accounts[name].(permissions := Some(p)))
    case SetPartner(cn, domain) =>
      WithAccount(w, tx.from, w.accounts[tx.from].(partner := PartnerName(cn, domain)))
  }

  function NextNonce(w: World, who: string): World {
    w.(ledger := WithNonce(w.ledger, who, Wrap(NonceOf(w.ledger, who) + 1)))
  }

  // One account transaction; a refused one changes nothing.
  function Step(w: World, tx: Transaction, height: uint64): World {
    if Verify(w, tx).Some? then w else NextNonce(Effect(w, tx, height), tx.from)
  }

  // The balance a registration finds under the name it creates, and sets to zero.
  function Overwritten(w: World, tx: Transaction): int {
    match tx.operation
    case RegisterAccount(store, _, _) => BalanceOf(w.ledger, NameOf(store))
    case RegisterDomain(store, _, _) => BalanceOf(w.ledger, NameOf(store))
    case _ => 0
  }

  // No account operation changes the total balance in any other way.
  lemma StepTotal(w: World, tx: Transaction, height: uint64)
    requires Verify(w, tx).None?
    ensures Total(Step(w, tx, height).ledger.balances) == Total(w.ledger.balances) - Overwritten(w, tx)
  {
    if tx.operation.RegisterAccount? || tx.operation.RegisterDomain? {
      TotalUpdated(w.ledger.balances, NameOf(tx.operation.store), 0);
    }
  }

  // ---- Who may do what ----

  lemma FormatExactly(store: Account, enableDomain: bool)
    ensures VerifyAccountFormat(store, enableDomain).None?
      <==> && 3 <= |store.cn| <= 64
           && (forall c :: c in store.cn ==>
                 '0' <= c <= '9' || 'A' <= c <= 'Z' || 'a' <= c <= 'z' || c as int >= 128 || c == '_')
           && (if !enableDomain then store.domain == ""
               else && 3 <= |store.domain| <= 64
                    && forall c :: c in store.domain ==>
                         '0' <= c <= '9' || 'A' <= c <= 'Z' || 'a' <= c <= 'z' || c as int >= 128 || c == '.')
  {
  }

  // A new name in the right format, with nothing on it and no address that is in use.
  ghost predicate Registrable(w: World, from: Account, store: Account, balance: int, nonce: uint64) {
    && VerifyAccountFormat(store, from.domain != "").None?
    && balance == 0 && nonce == 0
    && forall n :: n in w.accounts ==> w.accounts[n].addresses !! store.addresses
  }

  ghost predicate PlainUser(store: Account) {
    !store.isAdmin && store.permissions.None?
  }

  // An administrator below: with no right its maker lacks, and none to register domains.
  ghost predicate SubAdmin(maker: Permissions, store: Account) {
    && store.isAdmin && store.permissions.Some?
    && var p := store.permissions.value;
    && !p.registerDomain
    && (p.registerUser ==> maker.registerUser)
    && (p.updateUser ==> maker.updateUser)
    && (p.frozenUser ==> maker.frozenUser)
    && (p.registerSubdomain ==> maker.registerSubdomain)
  }

  // Users may be registered in the maker's domain and below it, administrators only below.
  lemma RegisterAccepted(w: World, tx: Transaction, store: Account, balance: int, nonce: uint64)
    requires tx.operation == RegisterAccount(store, balance, nonce)
    ensures Verify(w, tx).None? <==>
      && SignedBySender(w, tx)
      && var from := w.accounts[tx.from];
      && tx.to == NameOf(store) && tx.to !in w.accounts && Registrable(w, from, store, balance, nonce)
      && from.permissions.Some? && from.permissions.value.registerUser
      && (store.enableDeployContract ==> from.enableDeployContract)
      && (if PlainUser(store) then store.domain == from.domain || IsSubDomain(from.domain, store.domain)
          else && IsSubDomain(from.domain, store.domain)
               && from.permissions.value.registerSubdomain && SubAdmin(from.permissions.value, store))
  {
    if tx.from in w.accounts && w.accounts[tx.from].domain == store.domain {
      SubDomainStrictOrder(store.domain, store.domain, store.domain);
    }
  }

  // A domain is registered once, by an account with that right.
  lemma RegisterDomainAccepted(w: World, tx: Transaction, store: Account, balance: int, nonce: uint64)
    requires tx.operation == RegisterDomain(store, balance, nonce)
    ensures Verify(w, tx).None? <==>
      && SignedBySender(w, tx)
      && var from := w.accounts[tx.from];
      && Registrable(w, from, store, balance, nonce)
      && from.permissions.Some? && from.permissions.value.registerDomain
      && store.domain !in w.domains
  {
  }

  // Administrators freeze the users of their domain and, by the name given, anything below it.
  lemma FreezeAccepted(w: World, tx: Transaction, cn: string, domain: string, frozen: bool)
    requires tx.operation == FreezeAccount(cn, domain, frozen)
    ensures Verify(w, tx).None? <==>
      && SignedBySender(w, tx) && w.accounts[tx.from].isAdmin
      && cn + "@" + domain in w.accounts
      && var from, target := w.accounts[tx.from], w.accounts[cn + "@" + domain];
      if target.domain == from.domain then !target.isAdmin else IsSubDomain(from.domain, domain)
  {
  }

  // They set the permissions of administrators below, to what they have themselves.
  lemma UpdateAccepted(w: World, tx: Transaction, cn: string, domain: string, p: Permissions)
    requires tx.operation == UpdatePermission(cn, domain, p)
    ensures Verify(w, tx).None? <==>
      && SignedBySender(w, tx) && w.accounts[tx.from].isAdmin
      && cn + "@" + domain in w.accounts && w.accounts[cn + "@" + domain].isAdmin
      && IsSubDomain(w.accounts[tx.from].domain, domain)
      && w.accounts[tx.from].permissions.Some?
      && var own := w.accounts[tx.from].permissions.value;
      && (p.registerUser ==> own.registerUser) && (p.updateUser ==> own.updateUser)
      && (p.frozenUser ==> own.frozenUser) && (p.registerSubdomain ==> own.registerSubdomain)
  {
  }

  // A partner lies in the own domain or in one above, or is taken back.
  lemma SetPartnerAccepted(w: World, tx: Transaction, cn: string, domain: string)
    requires tx.operation == SetPartner(cn, domain)
    ensures Verify(w, tx).None? <==>
      && SignedBySender(w, tx)
      && (cn == "" || domain == w.accounts[tx.from].domain || IsSubDomain(domain, w.accounts[tx.from].domain))
  {
  }

  predicate Registers(tx: Transaction) {
    tx.operation.RegisterAccount? || tx.operation.RegisterDomain?
  }

  // The account an operation writes: its name and what stands there afterwards.
  function Written(w: World, tx: Transaction): Option<(string, Account)> {
    match tx.operation
    case RegisterAccount(store, _, _) => Some((store.cn + "@" + store.domain, store))
    case RegisterDomain(store, _, _) =>
      Some((store.cn + "@" + store.domain,
            Account(store.cn, store.domain, store.addresses, true, Some(Permissions(true, true, true, false, true)),
                    false, true, store.isContract, store.partner, store.lost)))
    case FreezeAccount(cn, domain, frozen) =>
      var name := cn + "@" + domain;
      if name in w.accounts then Some((name, w.accounts[name].(isFrozen := frozen))) else None
    case UpdatePermission(cn, domain, p) =>
      var name := cn + "@" + domain;
      if name in w.accounts then Some((name, w.accounts[name].(permissions := Some(p)))) else None
    case SetPartner(cn, domain) =>
      if tx.from in w.accounts then
        Some((tx.from, w.accounts[tx.from].(partner := if cn == "" then "" else cn + "@" + domain)))
      else None
    case _ => None
  }

  // An accepted operation writes that account and moves the sender's nonce. A registration starts
  // the account without balance at nonce zero, and the one of a domain enters the domain.
  lemma StepExactly(w: World, tx: Transaction, height: uint64)
    requires Verify(w, tx).None?
    ensures var w', written := Step(w, tx, height), Written(w, tx);
      && written.Some? && w'.accounts == w.accounts[written.value.0 := written.value.1]
      && w'.domains == (if tx.operation.RegisterDomain?
                        then w.domains[tx.operation.store.domain := DomainStore(tx.operation.store.cn, Wrap(height + 1))]
                        else w.domains)
      && (forall who :: BalanceOf(w'.ledger, who)
            == if Registers(tx) && who == written.value.0 then 0 else BalanceOf(w.ledger, who))
      && (forall who :: NonceOf(w'.ledger, who)
            == var n := if Registers(tx) && who == written.value.0 then 0 else NonceOf(w.ledger, who);
               if who == tx.from then Wrap(n + 1) else n)
  {
  }

  method ApplyTransaction(db: StateDB, tx: Transaction, height: uint64, usedGas: uint64)
    returns (receipt: Option<Receipt>, err: Option<Error>, used: uint64)
    modifies db
    ensures err == Verify(old(db.world), tx) && db.world == Step(old(db.world), tx, height)
    ensures err.Some? ==> receipt.None? && used == usedGas
    ensures err.None? ==> used == Wrap(usedGas + ACCOUNT_OP_GAS)
    ensures err.None? ==> receipt == Some(Receipt(tx, true, ACCOUNT_OP_GAS, used))
  {
    used := usedGas;
    err := Verify(db.world, tx);
    if err.Some? {
      return None, err, used;
    }
    match tx.operation {
      case RegisterAccount(store, balance, nonce) =>
        db.CreateAccount(store, balance, nonce);
      case RegisterDomain(store, balance, nonce) =>
        var admin := store.(permissions := Some(Permissions(true, true, true, false, true)));
        admin := admin.(isAdmin := true);
        admin := admin.(enableDeployContract := true);
        admin := admin.(isFrozen := false);
        db.CreateAccount(admin, balance, nonce);
        db.AddDomain(store.domain, DomainStore(store.cn, Wrap(height + 1)));
      case FreezeAccount(cn, domain, frozen) =>
        var name := AccountName(cn, domain);
        if frozen {
          db.PutAccount(name, db.world.accounts[name].(isFrozen := true));
        } else {
          db.PutAccount(name, db.world.accounts[name].(isFrozen := false));
        }
      case UpdatePermission(cn, domain, p) =>
        var name := AccountName(cn, domain);
        db.PutAccount(name, db.world.accounts[name].(permissions := Some(p)));
      case SetPartner(cn, domain) =>
        db.PutAccount(tx.from, db.world.accounts[tx.from].(partner := PartnerName(cn, domain)));
    }
    used := Wrap(used + ACCOUNT_OP_GAS);
    db.SetNonce(tx.from, Wrap(NonceOf(db.world.ledger, tx.from) + 1));
    return Some(Receipt(tx, true, ACCOUNT_OP_GAS, used)), None, used;
  }
}
