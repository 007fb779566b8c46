/** `txSortedMap`: transactions by nonce in a map, a heap of the nonces, and a
    lazily built sorted cache. Each method is proved to perform the operation
    of TxSequences on the one sequence all three structures stand for. */
module SortedMaps {
  import opened Models
  import opened Sorting
  import opened Heaps
  import opened TxSequences

  // The heap holds each key exactly once.
  ghost predicate Indexes(data: seq<uint64>, items: map<uint64, Transaction>) {
    IsHeap(data) && multiset(data) == multiset(items.Keys)
  }

  lemma SameSize(data: seq<uint64>, items: map<uint64, Transaction>)
    requires multiset(data) == multiset(items.Keys)
    ensures |data| == |items|
  {
    assert |multiset(data)| == |multiset(items.Keys)|;
  }

  // The heap's root is the nonce of the first transaction in order.
  lemma RootIsFirst(data: seq<uint64>, items: map<uint64, Transaction>, s: seq<Transaction>)
    requires Indexes(data, items) && Listing(s, items)
    ensures |data| == 0 <==> |s| == 0
    ensures |s| > 0 ==> |data| > 0 && data[0] == s[0].nonce
  {
    ListingSize(s, items);
    SameSize(data, items);
    if |data| > 0 {
      assert data[0] in multiset(data);
      assert Agrees(s, items, items[data[0]]);
      assert Agrees(s, items, s[0]);
      assert s[0].nonce in multiset(data);
      var k :| 0 <= k < |data| && data[k] == s[0].nonce;
      RootIsMinimum(data, k);
    }
  }

  lemma IndexDeleted(items: map<uint64, Transaction>, nonce: uint64)
    requires nonce in items
    ensures multiset(Delete(items, nonce).Keys) == multiset(items.Keys) - multiset{nonce}
  {
  }

  lemma IndexAdded(items: map<uint64, Transaction>, nonce: uint64, tx: Transaction)
    ensures multiset(items[nonce := tx].Keys)
      == multiset(items.Keys) + (if nonce in items then multiset{} else multiset{nonce})
  {
    assert items[nonce := tx].Keys == items.Keys + {nonce};
  }

  // A sorted index ends with the nonce of the last transaction in order.
  lemma LastInOrder(d: seq<uint64>, items: map<uint64, Transaction>, s: seq<Transaction>)
    requires |d| == |s| > 0 && multiset(d) == multiset(items.Keys) && Listing(s, items)
    requires SortedNonces(d)
    ensures d[|d| - 1] == s[|s| - 1].nonce
  {
    var k := |d| - 1;
    assert d[k] in multiset(d);
    assert Agrees(s, items, items[d[k]]) && Agrees(s, items, s[k]);
    assert s[k].nonce in multiset(d);
  }

  // Where the uint64 counter of Ready's loop stands after k steps: it wraps only past the
  // largest nonce.
  function Counter(start: uint64, k: nat): uint64 {
    if start + k <= MAX_UINT64 then start + k else 0
  }

  // Once it has wrapped no entry is left to match it.
  lemma NoWrappedMatch(s: seq<Transaction>, k: nat)
    requires Ascending(s) && k < |s| && IsRun(s, k)
    ensures s[k].nonce == Counter(s[0].nonce, k) <==> s[k].nonce == s[0].nonce + k
    ensures s[k].nonce == s[0].nonce + k ==> Wrap(s[k].nonce as int + 1) == Counter(s[0].nonce, k + 1)
  {
    if k > 0 {
      assert s[k - 1].nonce == s[0].nonce + (k - 1);
      assert s[k - 1].nonce < s[k].nonce;
    }
  }

  // One turn of Cap's loop: the highest nonce left goes.
  lemma CapStep(s: seq<Transaction>, d: seq<uint64>, items: map<uint64, Transaction>, size: nat)
    requires 0 < size <= |s| == |d| && Listing(s[..size], items)
    requires multiset(d[..size]) == multiset(items.Keys)
    requires SortedNonces(d)
    ensures d[size - 1] in items && items[d[size - 1]] == s[size - 1]
    ensures Listing(s[..size - 1], Delete(items, d[size - 1]))
    ensures multiset(d[..size - 1]) == multiset(Delete(items, d[size - 1]).Keys)
    ensures Reversed(s[size - 1..]) == Reversed(s[size..]) + [s[size - 1]]
  {
    LastInOrder(d[..size], items, s[..size]);
    PrefixStep(s, size, items);
    IndexDeleted(items, d[size - 1]);
    assert d[..size] == d[..size - 1] + [d[size - 1]];
    assert s[size - 1..][1..] == s[size..];
  }

  // One turn of Ready's loop: the root is the next transaction in order and extends the run.
  lemma ReadyStep(s: seq<Transaction>, k: nat, data: seq<uint64>, items: map<uint64, Transaction>)
    requires Ascending(s) && k <= |s| && IsRun(s, k) && Listing(s[k..], items) && Indexes(data, items)
    requires |s| > 0 && |data| > 0 && data[0] == Counter(s[0].nonce, k)
    ensures k < |s| && IsRun(s, k + 1)
    ensures Wrap(data[0] as int + 1) == Counter(s[0].nonce, k + 1)
  {
    RootIsFirst(data, items, s[k..]);
    NoWrappedMatch(s, k);
  }

  // The loop stops where the run does.
  lemma ReadyDone(s: seq<Transaction>, k: nat, data: seq<uint64>, items: map<uint64, Transaction>)
    requires Ascending(s) && 0 < k <= |s| && IsRun(s, k) && Listing(s[k..], items) && Indexes(data, items)
    requires |data| > 0 ==> data[0] != Counter(s[0].nonce, k)
    ensures RunLength(s) == k
  {
    RootIsFirst(data, items, s[k..]);
    if k < |s| {
      NoWrappedMatch(s, k);
    }
    RunLengthIs(s, k);
  }

  lemma LookupIsMap(s: seq<Transaction>, items: map<uint64, Transaction>, nonce: uint64)
    requires Listing(s, items)
    ensures HasNonce(s, nonce) <==> nonce in items
    ensures Lookup(s, nonce) == if nonce in items then Some(items[nonce]) else None
  {
    BelowSplits(s, nonce);
    var k := Below(s, nonce);
    if k < |s| {
      assert Agrees(s, items, s[k]);
    }
    if nonce in items {
      assert Agrees(s, items, items[nonce]);
      var i :| 0 <= i < |s| && s[i] == items[nonce];
      BelowIs(s, nonce, i);
    }
  }

  lemma PutLists(s: seq<Transaction>, items: map<uint64, Transaction>, tx: Transaction)
    requires Listing(s, items)
    ensures Listing(TxSequences.Put(s, tx), items[tx.nonce := tx])
  {
    PutOrdered(s, tx);
    var t, m := TxSequences.Put(s, tx), items[tx.nonce := tx];
    forall x ensures Agrees(t, m, x) {
      assert Agrees(s, items, x);
    }
  }

  lemma WithoutLists(s: seq<Transaction>, items: map<uint64, Transaction>, nonce: uint64)
    requires Listing(s, items)
    ensures Listing(Without(s, nonce), Delete(items, nonce))
  {
    WithoutOrdered(s, nonce);
    forall x ensures Agrees(Without(s, nonce), Delete(items, nonce), x) {
      assert Agrees(s, items, x);
    }
  }

  // How far the filter loop has got with x: still waiting, kept or removed.
  ghost predicate Sifted(m: map<uint64, Transaction>, todo: set<uint64>, kept: map<uint64, Transaction>,
                         removed: seq<Transaction>, filter: Transaction -> bool, x: Transaction)
  {
    var held := x.nonce in m && m[x.nonce] == x;
    && (x in removed <==> held && x.nonce !in todo && filter(x))
    && (held ==> (x.nonce in kept <==> x.nonce in todo || !filter(x)))
  }

  ghost predicate Sifting(m: map<uint64, Transaction>, todo: set<uint64>, kept: map<uint64, Transaction>,
                          removed: seq<Transaction>, filter: Transaction -> bool)
  {
    && todo <= kept.Keys <= m.Keys
    && (forall n :: n in kept ==> kept[n] == m[n])
    && Distinct(removed)
    && forall x :: Sifted(m, todo, kept, removed, filter, x)
  }

  lemma SiftStart(m: map<uint64, Transaction>, filter: Transaction -> bool)
    ensures Sifting(m, m.Keys, m, [], filter)
  {
    forall x ensures Sifted(m, m.Keys, m, [], filter, x) {
    }
  }

  lemma SiftStep(m: map<uint64, Transaction>, todo: set<uint64>, kept: map<uint64, Transaction>,
                 removed: seq<Transaction>, filter: Transaction -> bool, nonce: uint64)
    requires Keyed(m) && nonce in todo && Sifting(m, todo, kept, removed, filter)
    ensures kept[nonce] == m[nonce]
    ensures if filter(m[nonce])
      then Sifting(m, todo - {nonce}, Delete(kept, nonce), removed + [m[nonce]], filter)
      else Sifting(m, todo - {nonce}, kept, removed, filter)
  {
    assert Sifted(m, todo, kept, removed, filter, m[nonce]);
    DistinctAppend(removed, m[nonce]);
    forall x
      ensures !filter(m[nonce]) ==> Sifted(m, todo - {nonce}, kept, removed, filter, x)
      ensures filter(m[nonce]) ==> Sifted(m, todo - {nonce}, Delete(kept, nonce), removed + [m[nonce]], filter, x)
    {
      assert Sifted(m, todo, kept, removed, filter, x);
    }
  }

  lemma SiftDone(s: seq<Transaction>, m: map<uint64, Transaction>, kept: map<uint64, Transaction>,
                 removed: seq<Transaction>, filter: Transaction -> bool)
    requires Listing(s, m) && Sifting(m, {}, kept, removed, filter)
    ensures Listing(Reject(s, filter), kept)
    ensures multiset(removed) == multiset(Select(s, filter))
    ensures removed == [] ==> kept == m && Reject(s, filter) == s
  {
    FilterMembers(s, filter);
    FilterKeepsOrder(s, filter);
    forall x ensures Agrees(Reject(s, filter), kept, x) && (x in removed <==> x in Select(s, filter)) {
      assert Agrees(s, m, x) && Sifted(m, {}, kept, removed, filter, x);
    }
    AscendingIsDistinct(Select(s, filter));
    DistinctSameElements(removed, Select(s, filter));
    if removed == [] {
      forall n | n in m ensures n in kept {
        assert Sifted(m, {}, kept, removed, filter, m[n]);
      }
      ListingUnique(Reject(s, filter), s, m);
    }
  }

  // x has been collected: the map holds it and its key is no longer waiting.
  ghost predicate Taken(list: seq<Transaction>, items: map<uint64, Transaction>, todo: set<uint64>, x: Transaction) {
    x in list <==> x.nonce in items && items[x.nonce] == x && x.nonce !in todo
  }

  lemma TakeOne(list: seq<Transaction>, items: map<uint64, Transaction>, todo: set<uint64>, nonce: uint64)
    requires Keyed(items) && nonce in items && nonce in todo
    requires Distinct(list) && forall x :: Taken(list, items, todo, x)
    ensures Distinct(list + [items[nonce]])
    ensures forall x :: Taken(list + [items[nonce]], items, todo - {nonce}, x)
  {
    assert Taken(list, items, todo, items[nonce]);
    DistinctAppend(list, items[nonce]);
    forall x ensures Taken(list + [items[nonce]], items, todo - {nonce}, x) {
      assert Taken(list, items, todo, x);
    }
  }

  // Transaction.Less is an ordering sort.Sort may be given.
  lemma LessIsStrictWeak()
    ensures StrictWeakOrder(Transaction.Less)
  {
  }

  // Sorting all the values of the map by Less lists the map.
  lemma SortedListing(list: seq<Transaction>, items: map<uint64, Transaction>)
    requires Keyed(items) && Distinct(list) && forall x :: Taken(list, items, {}, x)
    ensures Listing(SortBy(list, Transaction.Less), items)
  {
    var s := SortBy(list, Transaction.Less);
    LessIsStrictWeak();
    SortBySorts(list, Transaction.Less);
    PermutationDistinct(list, s);
    forall x ensures Agrees(s, items, x) {
      assert Taken(list, items, {}, x);
      assert x in multiset(s) <==> x in multiset(list);
    }
    forall i, j | 0 <= i < j < |s| ensures s[i].nonce < s[j].nonce {
      assert !Transaction.Less(s[j], s[i]);
      assert Agrees(s, items, s[i]) && Agrees(s, items, s[j]);
    }
  }

  class TxSortedMap {
    var items: map<uint64, Transaction>
    const index: NonceHeap
    var cache: Option<seq<Transaction>>
    ghost var contents: seq<Transaction>  // the transactions held, in nonce order

    ghost predicate Valid()
      reads this, index
    {
      && Listing(contents, items)
      && Indexes(index.data, items)
      && (cache.Some? ==> cache.value == contents)
    }

    constructor ()
      ensures Valid() && fresh(index) && contents == []
    {
      items := map[];
      index := new NonceHeap();
      cache := None;
      contents := [];
    }

    method Get(nonce: uint64) returns (tx: Option<Transaction>)
      requires Valid()
      ensures tx == Lookup(contents, nonce)
    {
      LookupIsMap(contents, items, nonce);
      tx := if nonce in items then Some(items[nonce]) else None;
    }

    method Put(tx: Transaction)
      requires Valid()
      modifies this, index
      ensures Valid() && contents == TxSequences.Put(old(contents), tx)
    {
      PutLists(contents, items, tx);
      var nonce := tx.nonce;
      if nonce !in items {
        index.Push(nonce);
      }
      IndexAdded(items, nonce, tx);
      items, cache := items[nonce := tx], None;
      contents := TxSequences.Put(contents, tx);
    }

    // The body of Forward's and Ready's loops: pop the root, hand out and delete its transaction.
    method PopFirst(ghost s: seq<Transaction>, ghost k: nat) returns (tx: Transaction)
      requires k <= |s| && Listing(s[k..], items) && Indexes(index.data, items) && |index.data| > 0
      modifies `items, index
      ensures k < |s| && tx == s[k] && s[..k] + [tx] == s[..k + 1] && Listing(s[k + 1..], items)
      ensures Indexes(index.data, items) && |index.data| == |old(index.data)| - 1
    {
      RootIsFirst(index.data, items, s[k..]);
      SuffixStep(s, k, items);
      IndexDeleted(items, index.data[0]);
      var nonce := index.Pop();
      tx := items[nonce];
      items := Delete(items, nonce);
    }

    method Forward(threshold: uint64) returns (removed: seq<Transaction>)
      requires Valid()
      modifies this, index
      ensures Valid()
      ensures removed == old(contents)[..Below(old(contents), threshold)]
      ensures contents == old(contents)[Below(old(contents), threshold)..]
      ensures cache.Some? == old(cache.Some?)
    {
      ghost var s := contents;
      BelowSplits(s, threshold);
      removed := [];
      assert s[0..] == s;
      while |index.data| > 0 && index.data[0] < threshold
        invariant |removed| <= Below(s, threshold) && removed == s[..|removed|]
        invariant Indexes(index.data, items) && Listing(s[|removed|..], items)
        invariant cache == old(cache)
        decreases |index.data|
      {
        RootIsFirst(index.data, items, s[|removed|..]);
        var tx := PopFirst(s, |removed|);
        removed := removed + [tx];
      }
      RootIsFirst(index.data, items, s[|removed|..]);
      if cache.Some? {
        cache := Some(cache.value[|removed|..]);
      }
      contents := s[|removed|..];
    }

    // Rebuild the heap from the keys of the map, in whatever order they come.
    method Reindex()
      modifies index
      ensures Indexes(index.data, items)
    {
      index.Clear();
      var keys := items.Keys;
      while keys != {}
        invariant keys <= items.Keys && multiset(index.data) == multiset(items.Keys - keys)
        decreases |keys|
      {
        var nonce :| nonce in keys;
        assert items.Keys - (keys - {nonce}) == items.Keys - keys + {nonce};
        keys := keys - {nonce};
        index.Append(nonce);
      }
      assert items.Keys - keys == items.Keys;
      index.Init();
    }

    // Map iteration order is arbitrary, so only the elements removed are determined.
    method Filter(filter: Transaction -> bool) returns (removed: seq<Transaction>)
      requires Valid()
      modifies this, index
      ensures Valid()
      ensures multiset(removed) == multiset(Select(old(contents), filter))
      ensures contents == Reject(old(contents), filter)
    {
      ghost var m, s := items, contents;
      SiftStart(m, filter);
      removed := [];
      var todo := items.Keys;
      while todo != {}
        invariant Sifting(m, todo, items, removed, filter)
        invariant index.data == old(index.data) && cache == old(cache)
        decreases |todo|
      {
        var nonce :| nonce in todo;
        SiftStep(m, todo, items, removed, filter, nonce);
        todo := todo - {nonce};
        var tx := items[nonce];
        if filter(tx) {
          removed := removed + [tx];
          items := Delete(items, nonce);
        }
      }
      SiftDone(s, m, items, removed, filter);
      contents := Reject(s, filter);
      if |removed| > 0 {
        Reindex();
        cache := None;
      }
    }

    // Cap's loop, over a sorted index.
    method DropHighest(threshold: nat) returns (drops: seq<Transaction>)
      requires Listing(contents, items) && multiset(index.data) == multiset(items.Keys)
      requires SortedNonces(index.data) && threshold <= |items| == |contents| == |index.data|
      modifies `items
      ensures drops == Reversed(contents[threshold..])
      ensures Listing(contents[..threshold], items)
      ensures multiset(index.data[..threshold]) == multiset(items.Keys)
    {
      ghost var s, d := contents, index.data;
      drops := [];
      var size := |items|;
      assert s[..size] == s && d[..size] == d;
      while size > threshold
        invariant threshold <= size <= |s| == |d|
        invariant Listing(s[..size], items) && multiset(d[..size]) == multiset(items.Keys)
        invariant drops == Reversed(s[size..])
      {
        CapStep(s, d, items, size);
        var nonce := index.data[size - 1];
        drops := drops + [items[nonce]];
        items := Delete(items, nonce);
        size := size - 1;
      }
    }

    // A negative threshold makes the Go code index before the slice.
    method Cap(threshold: nat) returns (drops: seq<Transaction>)
      requires Valid()
      modifies this, index
      ensures Valid()
      ensures var s := old(contents);
        if |s| <= threshold then drops == [] && contents == s
        else drops == Reversed(s[threshold..]) && contents == s[..threshold]
      ensures cache.Some? == old(cache.Some?)
    {
      ListingSize(contents, items);
      drops := [];
      if |items| <= threshold {
        return;
      }
      SameSize(index.data, items);
      index.Sort();
      drops := DropHighest(threshold);
      contents := contents[..threshold];
      index.Truncate(threshold);
      index.Init();
      if cache.Some? {
        cache := Some(cache.value[..|cache.value| - |drops|]);
      }
    }

    method Remove(nonce: uint64) returns (ok: bool)
      requires Valid()
      modifies this, index
      ensures Valid()
      ensures ok == HasNonce(old(contents), nonce)
      ensures contents == Without(old(contents), nonce)
    {
      LookupIsMap(contents, items, nonce);
      if nonce !in items {
        return false;
      }
      ghost var d := index.data;
      assert nonce in multiset(d);
      var i := 0;
      while i < |index.data|
        invariant index.data == d && 0 <= i <= |d|
        invariant nonce !in d[..i]
      {
        if index.data[i] == nonce {
          var _ := index.RemoveAt(i);
          break;
        }
        i := i + 1;
      }
      IndexDeleted(items, nonce);
      WithoutLists(contents, items, nonce);
      items := Delete(items, nonce);
      cache := None;
      contents := Without(contents, nonce);
      return true;
    }

    // Ready's loop.
    method PopRun() returns (ready: seq<Transaction>)
      requires Listing(contents, items) && Indexes(index.data, items)
      requires |contents| > 0 && |index.data| > 0 && index.data[0] == contents[0].nonce
      modifies `items, index
      ensures |ready| == RunLength(contents) && ready == contents[..|ready|]
      ensures Listing(contents[|ready|..], items) && Indexes(index.data, items)
    {
      ghost var s, k := contents, 0;
      ready := [];
      assert s[0..] == s;
      var next: uint64 := index.data[0];
      while |index.data| > 0 && index.data[0] == next
        invariant k <= |s| && ready == s[..k] && IsRun(s, k)
        invariant Indexes(index.data, items) && Listing(s[k..], items)
        invariant next == Counter(s[0].nonce, k)
        invariant k == 0 ==> |index.data| > 0 && index.data[0] == next
        decreases |index.data|
      {
        ReadyStep(s, k, index.data, items);
        var tx := PopFirst(s, k);
        ready := ready + [tx];
        next := Wrap(next + 1);
        k := k + 1;
      }
      ReadyDone(s, k, index.data, items);
    }

    method Ready(start: uint64) returns (ready: seq<Transaction>)
      requires Valid()
      modifies this, index
      ensures Valid()
      ensures var s := old(contents);
        var n := if s == [] || s[0].nonce > start then 0 else RunLength(s);
        ready == s[..n] && contents == s[n..]
    {
      RootIsFirst(index.data, items, contents);
      if |index.data| == 0 || index.data[0] > start {
        assert contents[0..] == contents;
        return [];
      }
      ready := PopRun();
      cache := None;
      contents := contents[|ready|..];
    }

    method Len() returns (n: nat)
      requires Valid()
      ensures n == |contents|
    {
      ListingSize(contents, items);
      n := |items|;
    }

    // The caller gets a slice of its own, whatever it then does to it.
    method Flatten() returns (txs: array<Transaction>)
      requires Valid()
      modifies `cache
      ensures Valid() && cache.Some? && fresh(txs) && txs[..] == contents
    {
      if cache.None? {
        var list: seq<Transaction> := [];
        var todo := items.Keys;
        while todo != {}
          invariant todo <= items.Keys
          invariant Distinct(list) && forall x :: Taken(list, items, todo, x)
          decreases |todo|
        {
          var nonce :| nonce in todo;
          TakeOne(list, items, todo, nonce);
          todo := todo - {nonce};
          list := list + [items[nonce]];
        }
        SortedListing(list, items);
        ListingUnique(SortBy(list, Transaction.Less), contents, items);
        cache := Some(SortBy(list, Transaction.Less));
      }
      var sorted := cache.value;
      txs := new Transaction[|sorted|](i requires 0 <= i < |sorted| => sorted[i]);
      assert txs[..] == sorted;
    }
  }
}
