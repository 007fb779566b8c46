/** `GetHashFn`: block hashes by height, looked up along the parent links and
    memoised by a closure. */
module AncestorHashes {
  import opened Models

  datatype Header = Header(height: uint64, parentHash: Hash)

  ghost predicate GoodChain(c: map<(Hash, uint64), Header>) {
    forall k :: k in c ==> c[k].height == k.1 < MAX_UINT64
  }

  // GetHeader by hash and height: a stored header carries the height it is stored under,
  // and no block sits at the largest height.
  type Chain = c: map<(Hash, uint64), Header> | GoodChain(c) witness map[]

  const ZERO_HASH: Hash := 0

  // Go's height - 1.
  function Prev(height: uint64): uint64 {
    Wrap(height - 1)
  }

  // How many parent links can still be followed from a block at this height.
  function LinksLeft(height: uint64): nat {
    if height == MAX_UINT64 then 0 else height + 1
  }

  // The uncached walk: `hash` names the block at `height`; follow parents until height n.
  function Walk(chain: Chain, hash: Hash, height: uint64, n: uint64): Hash
    decreases LinksLeft(height)
  {
    if n == height then hash
    else if (hash, height) !in chain then ZERO_HASH
    else
      var header := chain[(hash, height)];
      Walk(chain, header.parentHash, Prev(height), n)
  }

  // What the reference header's chain says about height n.
  function AncestorHash(chain: Chain, ref: Header, n: uint64): Hash {
    Walk(chain, ref.parentHash, Prev(ref.height), n)
  }

  // `steps` parent links lead from (hash, height) to (hash', height').
  predicate Leads(chain: Chain, hash: Hash, height: uint64, steps: nat, hash': Hash, height': uint64)
    decreases steps
  {
    if steps == 0 then hash == hash' && height == height'
    else if (hash, height) !in chain then false
    else Leads(chain, chain[(hash, height)].parentHash, Prev(height), steps - 1, hash', height')
  }

  // Every link goes exactly one height down.
  lemma {:induction false} LeadsDown(chain: Chain, hash: Hash, height: uint64, steps: nat, hash': Hash, n: uint64)
    requires Leads(chain, hash, height, steps, hash', n)
    ensures n == Wrap(height - steps)
    ensures steps > 0 ==> height < MAX_UINT64 && steps <= height + 1 && (n != height)
    decreases steps
  {
    if steps > 0 {
      assert chain[(hash, height)].height == height < MAX_UINT64;
      assert Prev(height) == if height == 0 then MAX_UINT64 else height - 1;
      LeadsDown(chain, chain[(hash, height)].parentHash, Prev(height), steps - 1, hash', n);
    }
  }

  // The walk answers with the block the parent links lead to at that height.
  lemma {:induction false} WalkFindsAncestor(chain: Chain, hash: Hash, height: uint64, steps: nat, hash': Hash, n: uint64)
    requires Leads(chain, hash, height, steps, hash', n)
    ensures Walk(chain, hash, height, n) == hash'
    decreases steps
  {
    if steps > 0 {
      if n == height {
        LeadsDown(chain, hash, height, steps, hash', n);
      } else {
        WalkFindsAncestor(chain, chain[(hash, height)].parentHash, Prev(height), steps - 1, hash', n);
      }
    }
  }

  // A non-zero answer is always such an ancestor.
  lemma {:induction false} WalkIsAncestor(chain: Chain, hash: Hash, height: uint64, n: uint64) returns (steps: nat)
    ensures Walk(chain, hash, height, n) != ZERO_HASH ==>
      steps <= LinksLeft(height) && Leads(chain, hash, height, steps, Walk(chain, hash, height, n), n)
    decreases LinksLeft(height)
  {
    steps := 0;
    if n != height && (hash, height) in chain {
      steps := WalkIsAncestor(chain, chain[(hash, height)].parentHash, Prev(height), n);
      steps := steps + 1;
    }
  }

  lemma {:induction false} OneLinkFurther(chain: Chain, hash: Hash, height: uint64, steps: nat, at: Hash, low: uint64)
    requires Leads(chain, hash, height, steps, at, low) && (at, low) in chain
    ensures Leads(chain, hash, height, steps + 1, chain[(at, low)].parentHash, Prev(low))
    decreases steps
  {
    if steps > 0 {
      OneLinkFurther(chain, chain[(hash, height)].parentHash, Prev(height), steps - 1, at, low);
    }
  }

  // One turn of the loop: the header's parent is on the reference's ancestor line.
  lemma WalkStep(chain: Chain, ref: Header, steps: nat, at: Hash, height: uint64)
    requires Leads(chain, ref.parentHash, Prev(ref.height), steps, at, height) && (at, height) in chain
    ensures var header := chain[(at, height)];
      && header.height == height && LinksLeft(Prev(height)) < LinksLeft(height)
      && Leads(chain, ref.parentHash, Prev(ref.height), steps + 1, header.parentHash, Prev(height))
      && AncestorHash(chain, ref, Prev(height)) == header.parentHash
  {
    OneLinkFurther(chain, ref.parentHash, Prev(ref.height), steps, at, height);
    WalkFindsAncestor(chain, ref.parentHash, Prev(ref.height), steps + 1, chain[(at, height)].parentHash, Prev(height));
  }

  // Every remembered entry is what the walk would answer.
  ghost predicate Remembers(chain: Chain, ref: Header, cache: map<uint64, Hash>) {
    Prev(ref.height) in cache && forall k :: k in cache ==> cache[k] == AncestorHash(chain, ref, k)
  }

  lemma RememberMore(chain: Chain, ref: Header, cache: map<uint64, Hash>, height: uint64)
    requires Remembers(chain, ref, cache)
    ensures Remembers(chain, ref, cache[height := AncestorHash(chain, ref, height)])
  {
  }

  // The closure GetHashFn returns.
  class HashFn {
    const ref: Header
    const chain: Chain
    var cache: Option<map<uint64, Hash>>

    ghost predicate Valid()
      reads this
    {
      cache.Some? ==> Remembers(chain, ref, cache.value)
    }

    constructor (ref: Header, chain: Chain)
      ensures Valid() && this.ref == ref && this.chain == chain && cache.None?
    {
      this.ref, this.chain := ref, chain;
      cache := None;
    }

    method GetHash(n: uint64) returns (hash: Hash)
      requires Valid()
      modifies this
      ensures Valid() && hash == AncestorHash(chain, ref, n)
    {
      if cache.None? {
        cache := Some(map[Wrap(ref.height - 1) := ref.parentHash]);
      }
      if n in cache.value {
        return cache.value[n];
      }
      var at, height := ref.parentHash, Wrap(ref.height - 1);
      ghost var steps := 0;
      while (at, height) in chain
        invariant Valid() && cache.Some? && n != height
        invariant Leads(chain, ref.parentHash, Prev(ref.height), steps, at, height)
        invariant AncestorHash(chain, ref, n) == Walk(chain, at, height, n)
        decreases LinksLeft(height)
      {
        var header := chain[(at, height)];
        WalkStep(chain, ref, steps, at, height);
        steps := steps + 1;
        var below := Wrap(header.height - 1);
        RememberMore(chain, ref, cache.value, below);
        cache := Some(cache.value[below := header.parentHash]);
        if n == below {
          return header.parentHash;
        }
        at, height := header.parentHash, below;
      }
      return ZERO_HASH;
    }
  }
}
