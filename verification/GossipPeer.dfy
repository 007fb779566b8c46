/** One peer of the transaction gossip: its known set, its bounded send queue,
    and the batch its own loop is sending. Transactions are their hashes. */
module GossipPeers {
  import opened Models

  type PeerId = nat

  const MAX_QUEUED_TXS := 128

  // `taken` is the batch the peer's own loop is sending and `marked` how much of it is marked as
  // known; `enqueued` and `sent` record what has ever gone into the queue and out to the network.
  datatype Peer = Peer(known: set<Hash>, queue: seq<seq<Hash>>, taken: seq<Hash>, marked: nat,
                       enqueued: seq<Hash>, sent: seq<Hash>)

  const NEW_PEER: Peer := Peer({}, [], [], 0, [], [])

  function Hashes(txs: seq<Hash>): set<Hash> {
    set i | 0 <= i < |txs| :: txs[i]
  }

  // ---- Reference steps ----

  // The transactions of a batch a peer does not know, in batch order.
  function Unknown(known: set<Hash>, txs: seq<Hash>): seq<Hash> {
    if txs == [] then []
    else
      var front, last := txs[..|txs| - 1], txs[|txs| - 1];
      Unknown(known, front) + (if last in known then [] else [last])
  }

  predicate IsSource(source: Option<PeerId>, force: bool, p: PeerId) {
    !force && source == Some(p)
  }

  // Whether a peer is to be sent this transaction.
  predicate Lacks(p: PeerId, peer: Peer, source: Option<PeerId>, hash: Hash, force: bool) {
    !IsSource(source, force, p) && hash !in peer.known
  }

  // What one broadcast collects for a peer.
  function BatchFor(p: PeerId, peer: Peer, source: Option<PeerId>, txs: seq<Hash>, force: bool): seq<Hash> {
    if IsSource(source, force, p) then [] else Unknown(peer.known, txs)
  }

  // The source of a non-forced broadcast is taken to know every transaction in it.
  function Scanned(p: PeerId, peer: Peer, source: Option<PeerId>, txs: seq<Hash>, force: bool): Peer {
    if IsSource(source, force, p) then peer.(known := peer.known + Hashes(txs)) else peer
  }

  // What txSet has for a peer so far.
  function Held(txSet: map<PeerId, seq<Hash>>, p: PeerId): seq<Hash> {
    if p in txSet then txSet[p] else []
  }

  function Told(peer: Peer, hash: Hash): Peer {
    peer.(known := peer.known + {hash})
  }

  // The channel send of AsyncSendTransactions; marking comes afterwards.
  function Queued(peer: Peer, batch: seq<Hash>): Peer {
    peer.(queue := peer.queue + [batch], enqueued := peer.enqueued + batch)
  }

  // AsyncSendTransactions as a whole: a full queue drops the batch and leaves it unknown.
  function Offered(peer: Peer, batch: seq<Hash>): Peer {
    if |peer.queue| < MAX_QUEUED_TXS then Queued(peer, batch).(known := peer.known + Hashes(batch)) else peer
  }

  // The peer's own loop takes a batch, marks its hashes one by one and sends it.
  function Took(peer: Peer): Peer
    requires peer.queue != []
  {
    peer.(queue := peer.queue[1..], taken := peer.queue[0], marked := 0)
  }

  function Echoed(peer: Peer): Peer
    requires peer.marked < |peer.taken|
  {
    Told(peer, peer.taken[peer.marked]).(marked := peer.marked + 1)
  }

  function Transmitted(peer: Peer): Peer {
    peer.(taken := [], marked := 0, sent := peer.sent + peer.taken)
  }

  // A whole turn of that loop.
  function Drained(peer: Peer): Peer
    requires peer.queue != []
  {
    Transmitted(Took(peer)).(known := peer.known + Hashes(peer.queue[0]))
  }

  function Broadcasted(p: PeerId, peer: Peer, source: Option<PeerId>, txs: seq<Hash>, force: bool): Peer {
    var batch := BatchFor(p, peer, source, txs, force);
    if batch == [] then Scanned(p, peer, source, txs, force)
    else Offered(Scanned(p, peer, source, txs, force), batch)
  }

  // ---- One peer ----

  ghost predicate Unique(s: seq<Hash>) {
    forall i, j :: 0 <= i < j < |s| ==> s[i] != s[j]
  }

  function Flat(batches: seq<seq<Hash>>): seq<Hash> {
    if batches == [] then [] else batches[0] + Flat(batches[1..])
  }

  ghost predicate Tidy(peer: Peer) {
    peer.marked <= |peer.taken| && |peer.queue| <= MAX_QUEUED_TXS
  }

  // What was queued is what was sent, followed by what is being sent and by what still waits.
  ghost predicate Flowing(peer: Peer) {
    Tidy(peer) && peer.enqueued == peer.sent + peer.taken + Flat(peer.queue)
  }

  // Moreover nothing was queued twice.
  ghost predicate Orderly(peer: Peer) {
    Flowing(peer) && Unique(peer.enqueued)
  }

  // Moreover everything ever queued is known.
  ghost predicate Good(peer: Peer) {
    Orderly(peer) && Hashes(peer.enqueued) <= peer.known
  }

  lemma {:induction false} UnknownIs(known: set<Hash>, txs: seq<Hash>)
    ensures forall h :: h in Unknown(known, txs) <==> h in txs && h !in known
  {
    if txs != [] {
      var front, last := txs[..|txs| - 1], txs[|txs| - 1];
      UnknownIs(known, front);
      assert txs == front + [last];
    }
  }

  // The batch is what the peer does not know, in the order of the broadcast: `at` is where each of
  // its hashes stands there.
  ghost predicate Picks(txs: seq<Hash>, known: set<Hash>, batch: seq<Hash>, at: seq<nat>) {
    && |at| == |batch|
    && (forall k :: 0 <= k < |at| ==> at[k] < |txs| && batch[k] == txs[at[k]])
    && (forall j, k :: 0 <= j < k < |at| ==> at[j] < at[k])
    && forall i :: 0 <= i < |txs| ==> (txs[i] !in known <==> i in at)
  }

  lemma PicksNext(txs: seq<Hash>, known: set<Hash>, batch: seq<Hash>, at: seq<nat>, h: Hash)
    requires Picks(txs, known, batch, at)
    ensures if h in known then Picks(txs + [h], known, batch, at) else Picks(txs + [h], known, batch + [h], at + [|txs|])
  {
    var more := txs + [h];
    forall k | 0 <= k < |at| ensures at[k] < |txs| && more[at[k]] == batch[k] {
    }
    forall i | 0 <= i < |txs| ensures more[i] !in known <==> i in at {
      assert more[i] == txs[i];
    }
    assert |txs| !in at;
  }

  lemma {:induction false} UnknownPicks(known: set<Hash>, txs: seq<Hash>) returns (at: seq<nat>)
    ensures Picks(txs, known, Unknown(known, txs), at)
  {
    if txs == [] {
      at := [];
    } else {
      var front, last := txs[..|txs| - 1], txs[|txs| - 1];
      at := UnknownPicks(known, front);
      PicksNext(front, known, Unknown(known, front), at, last);
      assert txs == front + [last] && Unknown(known, front) + [] == Unknown(known, front);
      at := if last in known then at else at + [|front|];
    }
  }

  // Queueing a batch keeps hashes unique exactly when it repeats nothing, inside or out.
  lemma UniqueSum(s: seq<Hash>, t: seq<Hash>)
    ensures Unique(s + t) <==> Unique(s) && Unique(t) && forall h :: h in t ==> h !in s
  {
    if Unique(s) && Unique(t) && forall h :: h in t ==> h !in s {
      forall i, j | 0 <= i < j < |s + t| ensures (s + t)[i] != (s + t)[j] {
        if i < |s| <= j {
          assert (s + t)[i] == s[i] && (s + t)[j] == t[j - |s|] && t[j - |s|] in t;
        }
      }
    }
    if Unique(s + t) {
      forall i, j | 0 <= i < j < |s| ensures s[i] != s[j] {
        assert (s + t)[i] == s[i] && (s + t)[j] == s[j];
      }
      forall i, j | 0 <= i < j < |t| ensures t[i] != t[j] {
        assert (s + t)[|s| + i] == t[i] && (s + t)[|s| + j] == t[j];
      }
      forall h | h in t ensures h !in s {
        var j :| 0 <= j < |t| && t[j] == h;
        forall i | 0 <= i < |s| ensures s[i] != h {
          assert (s + t)[i] == s[i] && (s + t)[|s| + j] == t[j];
        }
      }
    }
  }

  lemma {:induction false} UnknownUnique(known: set<Hash>, txs: seq<Hash>)
    requires Unique(txs)
    ensures Unique(Unknown(known, txs))
  {
    if txs != [] {
      var front, last := txs[..|txs| - 1], txs[|txs| - 1];
      UnknownUnique(known, front);
      UnknownIs(known, front);
      assert txs == front + [last];
      UniqueSum(front, [last]);
      UniqueSum(Unknown(known, front), [last]);
    }
  }

  lemma {:induction false} FlatAppend(batches: seq<seq<Hash>>, batch: seq<Hash>)
    ensures Flat(batches + [batch]) == Flat(batches) + batch
  {
    if batches == [] {
      assert batches + [batch] == [batch] && [batch][1..] == [];
    } else {
      FlatAppend(batches[1..], batch);
      assert (batches + [batch])[1..] == batches[1..] + [batch];
    }
  }

  lemma HashesOfSum(s: seq<Hash>, t: seq<Hash>)
    ensures Hashes(s + t) == Hashes(s) + Hashes(t)
  {
    assert forall i :: 0 <= i < |s| ==> (s + t)[i] == s[i];
    assert forall i :: 0 <= i < |t| ==> (s + t)[|s| + i] == t[i];
  }

  lemma OneHash(hash: Hash)
    ensures Hashes([hash]) == {hash}
  {
    assert [hash][0] == hash;
  }

  lemma QueueKeepsFlowing(peer: Peer, batch: seq<Hash>)
    requires Flowing(peer) && |peer.queue| < MAX_QUEUED_TXS
    ensures Flowing(Queued(peer, batch))
  {
    FlatAppend(peer.queue, batch);
    assert peer.sent + peer.taken + Flat(peer.queue) + batch == peer.sent + peer.taken + (Flat(peer.queue) + batch);
  }

  lemma QueueKeepsOrderly(peer: Peer, batch: seq<Hash>)
    requires Orderly(peer) && |peer.queue| < MAX_QUEUED_TXS
    requires Unique(batch) && forall h :: h in batch ==> h !in peer.enqueued
    ensures Orderly(Queued(peer, batch))
  {
    UniqueSum(peer.enqueued, batch);
    QueueKeepsFlowing(peer, batch);
  }

  lemma TakeKeepsFlowing(peer: Peer)
    requires Flowing(peer) && peer.queue != [] && peer.taken == []
    ensures Flowing(Took(peer))
  {
    var first, rest := peer.queue[0], Flat(peer.queue[1..]);
    assert peer.sent + [] + (first + rest) == peer.sent + first + rest;
  }

  lemma TransmitKeepsFlowing(peer: Peer)
    requires Flowing(peer)
    ensures Flowing(Transmitted(peer))
  {
    var rest := Flat(peer.queue);
    assert peer.sent + peer.taken + [] + rest == peer.sent + peer.taken + rest;
  }

  lemma OfferKeepsGood(peer: Peer, batch: seq<Hash>)
    requires Good(peer) && Unique(batch) && forall h :: h in batch ==> h !in peer.known
    ensures Good(Offered(peer, batch))
  {
    if |peer.queue| < MAX_QUEUED_TXS {
      forall h | h in batch ensures h !in peer.enqueued {
        assert h in peer.enqueued ==> h in Hashes(peer.enqueued);
      }
      QueueKeepsOrderly(peer, batch);
      HashesOfSum(peer.enqueued, batch);
    }
  }

  // Sending teaches the known set nothing new.
  lemma DrainKeepsGood(peer: Peer)
    requires Good(peer) && peer.queue != [] && peer.taken == []
    ensures Good(Drained(peer)) && Drained(peer).known == peer.known
  {
    var first, rest := peer.queue[0], Flat(peer.queue[1..]);
    TakeKeepsFlowing(peer);
    TransmitKeepsFlowing(Took(peer));
    assert peer.enqueued == peer.sent + first + rest;
    HashesOfSum(peer.sent + first, rest);
    HashesOfSum(peer.sent, first);
  }

  ghost predicate Gets(was: Peer, now: Peer, txs: seq<Hash>, batch: seq<Hash>, at: seq<nat>) {
    && Picks(txs, was.known, batch, at)
    && now == was.(known := was.known + Hashes(txs), queue := was.queue + [batch], enqueued := was.enqueued + batch)
  }

  // A broadcast by what it does to one peer. The source of one that is not forced learns it all, a
  // peer that knows it all or has no room is left alone, and every other one has what it does not
  // know put into its queue as one batch, and into what it knows.
  ghost predicate Served(p: PeerId, was: Peer, now: Peer, source: Option<PeerId>, txs: seq<Hash>, force: bool) {
    if !force && source == Some(p) then now == was.(known := was.known + Hashes(txs))
    else if Hashes(txs) <= was.known || |was.queue| >= 128 then now == was
    else exists batch, at :: Gets(was, now, txs, batch, at)
  }

  lemma BroadcastServes(p: PeerId, peer: Peer, source: Option<PeerId>, txs: seq<Hash>, force: bool)
    ensures Served(p, peer, Broadcasted(p, peer, source, txs, force), source, txs, force)
  {
    var batch := Unknown(peer.known, txs);
    var at := UnknownPicks(peer.known, txs);
    UnknownIs(peer.known, txs);
    assert batch != [] ==> batch[0] in batch;
    assert peer.known + Hashes(batch) == peer.known + Hashes(txs);
    assert Gets(peer, Offered(peer, batch), txs, batch, at) || |peer.queue| >= 128;
  }

  // So whoever is not the source comes to know only what is queued to it.
  lemma KnownIsQueued(p: PeerId, was: Peer, now: Peer, source: Option<PeerId>, txs: seq<Hash>, force: bool, h: Hash)
    requires Served(p, was, now, source, txs, force) && (force || source != Some(p))
    requires h in now.known && h !in was.known
    ensures h in now.enqueued && h in Flat(now.queue)
  {
    var batch, at :| Gets(was, now, txs, batch, at);
    var i :| 0 <= i < |txs| && txs[i] == h;
    var k :| 0 <= k < |at| && at[k] == i;
    assert batch[k] == h;
    FlatAppend(was.queue, batch);
  }

  // A whole broadcast of distinct hashes keeps a peer good, and leaves the batch either queued
  // or, with a full queue, unknown and free to be offered again.
  lemma BroadcastKeepsGood(p: PeerId, peer: Peer, source: Option<PeerId>, txs: seq<Hash>, force: bool)
    requires Good(peer) && Unique(txs)
    ensures var after := Broadcasted(p, peer, source, txs, force);
      && Good(after)
      && (IsSource(source, force, p) ==> after.enqueued == peer.enqueued && Hashes(txs) <= after.known)
      && (!IsSource(source, force, p) && |peer.queue| < MAX_QUEUED_TXS ==> Hashes(txs) <= after.known)
      && (!IsSource(source, force, p) && |peer.queue| >= MAX_QUEUED_TXS ==> after == peer)
  {
    UnknownIs(peer.known, txs);
    UnknownUnique(peer.known, txs);
    var batch := BatchFor(p, peer, source, txs, force);
    if batch != [] {
      OfferKeepsGood(peer, batch);
    }
    if !IsSource(source, force, p) && |peer.queue| < MAX_QUEUED_TXS {
      forall h | h in Hashes(txs) ensures h in Broadcasted(p, peer, source, txs, force).known {
        assert h in txs;
        assert h !in peer.known ==> h in batch;
      }
    }
  }
}
