/** Balances and nonces by account or address, the total they hold, and the
    world state the interpreters share. */
module Ledgers {
  import opened Models

  datatype Ledger = Ledger(balances: map<string, int>, nonces: map<string, uint64>)

  function BalanceOf(l: Ledger, who: string): int {
    if who in l.balances then l.balances[who] else 0
  }

  function NonceOf(l: Ledger, who: string): uint64 {
    if who in l.nonces then l.nonces[who] else 0
  }

  function Credit(l: Ledger, who: string, amount: int): Ledger {
    l.(balances := l.balances[who := BalanceOf(l, who) + amount])
  }

  function WithNonce(l: Ledger, who: string, nonce: uint64): Ledger {
    l.(nonces := l.nonces[who := nonce])
  }

  ghost function Pick(m: map<string, int>): (k: string)
    requires m.Keys != {}
    ensures k in m
  {
    var k :| k in m; k
  }

  // The sum of all balances.
  ghost function Total(m: map<string, int>): int
    decreases |m.Keys|
  {
    if m.Keys == {} then 0
    else
      var k := Pick(m);
      assert (m - {k}).Keys == m.Keys - {k};
      m[k] + Total(m - {k})
  }

  lemma {:induction false} TotalWithout(m: map<string, int>, k: string)
    requires k in m
    ensures Total(m) == m[k] + Total(m - {k})
    decreases |m.Keys|
  {
    var j := Pick(m);
    assert (m - {j}).Keys == m.Keys - {j} && (m - {k}).Keys == m.Keys - {k};
    if j != k {
      TotalWithout(m - {j}, k);
      TotalWithout(m - {k}, j);
      assert m - {j} - {k} == m - {k} - {j};
    }
  }

  lemma TotalUpdated(m: map<string, int>, k: string, v: int)
    ensures Total(m[k := v]) == Total(m) + v - (if k in m then m[k] else 0)
  {
    TotalWithout(m[k := v], k);
    if k in m {
      TotalWithout(m, k);
      assert m[k := v] - {k} == m - {k};
    } else {
      assert m[k := v] - {k} == m;
    }
  }

  lemma CreditAddsToTotal(l: Ledger, who: string, amount: int)
    ensures Total(Credit(l, who, amount).balances) == Total(l.balances) + amount
  {
    TotalUpdated(l.balances, who, BalanceOf(l, who) + amount);
  }

  datatype DomainStore = DomainStore(admin: string, number: uint64)

  datatype World = World(accounts: map<string, Account>, ledger: Ledger, domains: map<string, DomainStore>)

  // Accounts are stored under CN@Domain.
  function AccountName(cn: string, domain: string): string {
    cn + "@" + domain
  }

  function NameOf(store: Account): string {
    AccountName(store.cn, store.domain)
  }

  // The transaction is signed with an address of its sender, who is there and not frozen.
  ghost predicate SignedBySender(w: World, tx: Transaction) {
    && tx.from in w.accounts
    && !w.accounts[tx.from].isFrozen
    && tx.signer.Some?
    && tx.signer.value in w.accounts[tx.from].addresses
  }

  function WithAccount(w: World, name: string, store: Account): World {
    w.(accounts := w.accounts[name := store])
  }

  function Created(w: World, store: Account, balance: int, nonce: uint64): World {
    var name := NameOf(store);
    World(w.accounts[name := store],
          Ledger(w.ledger.balances[name := balance], w.ledger.nonces[name := nonce]),
          w.domains)
  }

  // The state database. It lives outside this repository; every update below is a map update.
  class StateDB {
    var world: World

    constructor (w: World)
      ensures world == w
    {
      world := w;
    }

    method AddBalance(who: string, amount: int)
      modifies this
      ensures world == old(world).(ledger := Credit(old(world).ledger, who, amount))
    {
      world := world.(ledger := Credit(world.ledger, who, amount));
    }

    method SubBalance(who: string, amount: int)
      modifies this
      ensures world == old(world).(ledger := Credit(old(world).ledger, who, -amount))
    {
      world := world.(ledger := Credit(world.ledger, who, -amount));
    }

    method SetNonce(who: string, nonce: uint64)
      modifies this
      ensures world == old(world).(ledger := WithNonce(old(world).ledger, who, nonce))
    {
      world := world.(ledger := WithNonce(world.ledger, who, nonce));
    }

    method CreateAccount(store: Account, balance: int, nonce: uint64)
      modifies this
      ensures world == Created(old(world), store, balance, nonce)
    {
      world := Created(world, store, balance, nonce);
    }

    method AddDomain(domain: string, store: DomainStore)
      modifies this
      ensures world == old(world).(domains := old(world).domains[domain := store])
    {
      world := world.(domains := world.domains[domain := store]);
    }

    // Replace the stored account; the caller has looked it up.
    method PutAccount(name: string, store: Account)
      modifies this
      ensures world == WithAccount(old(world), name, store)
    {
      world := WithAccount(world, name, store);
    }
  }
}
