/** `peerSet`: the broadcast of transactions to the peers that do not know them
    yet, each method proved against the peer-level functions. */
module PeerSets {
  import opened Models
  import opened GossipPeers

  lemma NextHash(txs: seq<Hash>, i: nat)
    requires i < |txs|
    ensures Hashes(txs[..i + 1]) == Hashes(txs[..i]) + {txs[i]}
  {
    HashesOfSum(txs[..i], [txs[i]]);
    assert txs[..i + 1] == txs[..i] + [txs[i]];
    OneHash(txs[i]);
  }

  // How far the walk over the peers has got with one of them.
  predicate Looked(p: PeerId, was: Peer, now: Peer, listed: bool, waiting: bool,
                   source: Option<PeerId>, hash: Hash, force: bool)
  {
    if waiting then now == was
    else now == Scanned(p, was, source, [hash], force) && listed == Lacks(p, was, source, hash, force)
  }

  ghost predicate Walked(was: map<PeerId, Peer>, now: map<PeerId, Peer>, list: set<PeerId>, todo: set<PeerId>,
                         source: Option<PeerId>, hash: Hash, force: bool)
  {
    && todo <= was.Keys == now.Keys && list <= was.Keys - todo
    && forall p :: p in was ==> Looked(p, was[p], now[p], p in list, p in todo, source, hash, force)
  }

  lemma WalkOne(was: map<PeerId, Peer>, now: map<PeerId, Peer>, list: set<PeerId>, todo: set<PeerId>,
                source: Option<PeerId>, hash: Hash, force: bool, p: PeerId)
    requires p in todo && Walked(was, now, list, todo, source, hash, force)
    ensures p in was && now[p] == was[p]
    ensures Walked(was, now[p := Scanned(p, was[p], source, [hash], force)],
                   if Lacks(p, was[p], source, hash, force) then list + {p} else list,
                   todo - {p}, source, hash, force)
  {
    assert Looked(p, was[p], now[p], p in list, p in todo, source, hash, force);
    var next := now[p := Scanned(p, was[p], source, [hash], force)];
    var more := if Lacks(p, was[p], source, hash, force) then list + {p} else list;
    forall q | q in was ensures Looked(q, was[q], next[q], q in more, q in todo - {p}, source, hash, force) {
      assert Looked(q, was[q], now[q], q in list, q in todo, source, hash, force);
    }
  }

  // txSet holds, for each peer with something to get, exactly its batch.
  ghost predicate Collected(was: map<PeerId, Peer>, txSet: map<PeerId, seq<Hash>>,
                            source: Option<PeerId>, txs: seq<Hash>, force: bool)
  {
    && txSet.Keys <= was.Keys
    && (forall p :: p in txSet ==> txSet[p] != [])
    && forall p :: p in was ==> BatchFor(p, was[p], source, txs, force) == Held(txSet, p)
  }

  // One more transaction scanned: it joins the batch of exactly the peers that lack it.
  lemma ScanOne(p: PeerId, peer: Peer, source: Option<PeerId>, txs: seq<Hash>, force: bool, i: nat)
    requires i < |txs|
    ensures var sofar := Scanned(p, peer, source, txs[..i], force);
      && Scanned(p, sofar, source, [txs[i]], force) == Scanned(p, peer, source, txs[..i + 1], force)
      && BatchFor(p, peer, source, txs[..i + 1], force) == BatchFor(p, peer, source, txs[..i], force) +
         (if Lacks(p, sofar, source, txs[i], force) then [txs[i]] else [])
  {
    assert txs[..i + 1] == txs[..i] + [txs[i]];
    assert txs[..i + 1][..i] == txs[..i];
    HashesOfSum(txs[..i], [txs[i]]);
    assert peer.known + Hashes(txs[..i]) + Hashes([txs[i]]) == peer.known + (Hashes(txs[..i]) + Hashes([txs[i]]));
  }

  // What txSet has for a peer once the transaction was added to its batch, or not.
  ghost predicate Grown(p: PeerId, before: map<PeerId, seq<Hash>>, now: map<PeerId, seq<Hash>>,
                        added: set<PeerId>, tx: Hash)
  {
    && Held(now, p) == (if p in added then Held(before, p) + [tx] else Held(before, p))
    && (p in now <==> p in before || p in added)
  }

  ghost predicate AllGrown(before: map<PeerId, seq<Hash>>, now: map<PeerId, seq<Hash>>, added: set<PeerId>, tx: Hash) {
    forall p :: Grown(p, before, now, added, tx)
  }

  lemma GrownNext(before: map<PeerId, seq<Hash>>, now: map<PeerId, seq<Hash>>, added: set<PeerId>, tx: Hash, p: PeerId)
    requires p !in added && AllGrown(before, now, added, tx)
    ensures AllGrown(before, now[p := Held(now, p) + [tx]], added + {p}, tx)
  {
    var next, more := now[p := Held(now, p) + [tx]], added + {p};
    forall q ensures Grown(q, before, next, more, tx) {
      assert Grown(q, before, now, added, tx) && Grown(p, before, now, added, tx);
    }
  }

  ghost predicate AllScanned(was: map<PeerId, Peer>, peers: map<PeerId, Peer>,
                             source: Option<PeerId>, txs: seq<Hash>, force: bool)
  {
    && peers.Keys == was.Keys
    && forall p :: p in was ==> peers[p] == Scanned(p, was[p], source, txs, force)
  }

  lemma ScanRound(was: map<PeerId, Peer>, scanned: map<PeerId, Peer>, peers: map<PeerId, Peer>,
                  before: map<PeerId, seq<Hash>>, txSet: map<PeerId, seq<Hash>>, list: set<PeerId>,
                  source: Option<PeerId>, txs: seq<Hash>, force: bool, i: nat)
    requires i < |txs| && AllScanned(was, scanned, source, txs[..i], force)
    requires Collected(was, before, source, txs[..i], force)
    requires peers.Keys == was.Keys && list <= was.Keys && AllGrown(before, txSet, list, txs[i])
    requires forall p :: p in peers ==> peers[p] == Scanned(p, scanned[p], source, [txs[i]], force)
    requires forall p :: p in peers ==> (p in list <==> Lacks(p, scanned[p], source, txs[i], force))
    ensures AllScanned(was, peers, source, txs[..i + 1], force)
    ensures Collected(was, txSet, source, txs[..i + 1], force)
  {
    forall p | p in was
      ensures peers[p] == Scanned(p, was[p], source, txs[..i + 1], force)
      ensures BatchFor(p, was[p], source, txs[..i + 1], force) == Held(txSet, p)
    {
      ScanOne(p, was[p], source, txs, force, i);
      assert Grown(p, before, txSet, list, txs[i]);
    }
    forall p | p in txSet ensures p in was && txSet[p] != [] {
      assert Grown(p, before, txSet, list, txs[i]);
    }
  }

  // The peers still to be offered their batch are scanned only, the others are done.
  ghost predicate Offering(was: map<PeerId, Peer>, now: map<PeerId, Peer>, todo: set<PeerId>,
                           source: Option<PeerId>, txs: seq<Hash>, force: bool)
  {
    && now.Keys == was.Keys
    && forall p :: p in was ==>
         now[p] == if p in todo then Scanned(p, was[p], source, txs, force)
                   else Broadcasted(p, was[p], source, txs, force)
  }

  lemma OfferingStarts(was: map<PeerId, Peer>, now: map<PeerId, Peer>, txSet: map<PeerId, seq<Hash>>,
                       source: Option<PeerId>, txs: seq<Hash>, force: bool)
    requires AllScanned(was, now, source, txs, force) && Collected(was, txSet, source, txs, force)
    ensures Offering(was, now, txSet.Keys, source, txs, force)
  {
    forall p | p in was && p !in txSet ensures now[p] == Broadcasted(p, was[p], source, txs, force) {
      assert BatchFor(p, was[p], source, txs, force) == Held(txSet, p);
    }
  }

  lemma OfferOne(was: map<PeerId, Peer>, now: map<PeerId, Peer>, txSet: map<PeerId, seq<Hash>>, todo: set<PeerId>,
                 source: Option<PeerId>, txs: seq<Hash>, force: bool, p: PeerId)
    requires Collected(was, txSet, source, txs, force) && p in todo && todo <= txSet.Keys
    requires Offering(was, now, todo, source, txs, force)
    ensures p in now && Offering(was, now[p := Offered(now[p], txSet[p])], todo - {p}, source, txs, force)
  {
    assert BatchFor(p, was[p], source, txs, force) == Held(txSet, p) == txSet[p];
  }

  class PeerSet {
    var peers: map<PeerId, Peer>

    constructor ()
      ensures peers == map[]
    {
      peers := map[];
    }

    // The channel send comes first, the marking after it.
    method AsyncSendTransactions(p: PeerId, txs: seq<Hash>)
      requires p in peers
      modifies this
      ensures var was := old(peers)[p];
        peers == old(peers)[p :=
          if |was.queue| < 128 then
            was.(queue := was.queue + [txs], enqueued := was.enqueued + txs, known := was.known + Hashes(txs))
          else was]
    {
      ghost var was := peers[p];
      assert peers[p := was] == peers;
      if |peers[p].queue| < MAX_QUEUED_TXS {
        peers := peers[p := Queued(peers[p], txs)];
        var i := 0;
        assert was.known + Hashes(txs[..0]) == was.known;
        while i < |txs|
          invariant 0 <= i <= |txs| && p in peers
          invariant peers == old(peers)[p := Queued(was, txs).(known := was.known + Hashes(txs[..i]))]
        {
          NextHash(txs, i);
          assert was.known + Hashes(txs[..i]) + {txs[i]} == was.known + Hashes(txs[..i + 1]);
          peers := peers[p := Told(peers[p], txs[i])];
          i := i + 1;
        }
        assert txs[..i] == txs;
      }
    }

    // One turn of a peer's own loop: take the oldest batch, mark it and send it.
    method SendNext(p: PeerId)
      requires p in peers && peers[p].queue != [] && peers[p].taken == []
      modifies this
      ensures peers == old(peers)[p := Drained(old(peers)[p])]
    {
      ghost var was := peers[p];
      peers := peers[p := Took(peers[p])];
      while peers[p].marked < |peers[p].taken|
        invariant p in peers && peers[p].marked <= |was.queue[0]|
        invariant peers[p] == Took(was).(known := was.known + Hashes(was.queue[0][..peers[p].marked]),
                                         marked := peers[p].marked)
        invariant peers == old(peers)[p := peers[p]]
        decreases |was.queue[0]| - peers[p].marked
      {
        NextHash(was.queue[0], peers[p].marked);
        peers := peers[p := Echoed(peers[p])];
      }
      assert was.queue[0][..peers[p].marked] == was.queue[0];
      peers := peers[p := Transmitted(peers[p])];
    }

    // The source of a non-forced broadcast is marked on the way.
    method PeersWithoutTx(source: Option<PeerId>, hash: Hash, force: bool) returns (list: set<PeerId>)
      modifies this
      ensures peers.Keys == old(peers).Keys && list <= peers.Keys
      ensures forall p :: p in peers ==> peers[p] == Scanned(p, old(peers)[p], source, [hash], force)
      ensures forall p :: p in peers ==> (p in list <==> Lacks(p, old(peers)[p], source, hash, force))
    {
      list := {};
      var todo := peers.Keys;
      ghost var was := peers;
      while todo != {}
        invariant Walked(was, peers, list, todo, source, hash, force)
        decreases |todo|
      {
        var p :| p in todo;
        WalkOne(was, peers, list, todo, source, hash, force, p);
        OneHash(hash);
        assert peers[p := peers[p]] == peers;
        todo := todo - {p};
        if !force && source == Some(p) {
          peers := peers[p := peers[p].(known := peers[p].known + {hash})];
        } else if hash !in peers[p].known {
          list := list + {p};
        }
      }
    }

    // Add a transaction to the batch of every listed peer.
    method AppendTo(txSet: map<PeerId, seq<Hash>>, list: set<PeerId>, tx: Hash) returns (more: map<PeerId, seq<Hash>>)
      ensures AllGrown(txSet, more, list, tx)
    {
      more := txSet;
      var rest := list;
      ghost var done: set<PeerId> := {};
      while rest != {}
        invariant done <= list && rest == list - done
        invariant AllGrown(txSet, more, done, tx)
        decreases |rest|
      {
        var p :| p in rest;
        GrownNext(txSet, more, done, tx, p);
        more := more[p := Held(more, p) + [tx]];
        rest, done := rest - {p}, done + {p};
      }
      assert done == list;
    }

    // BroadcastTxs' second loop.
    method SendAll(ghost was: map<PeerId, Peer>, txSet: map<PeerId, seq<Hash>>,
                   ghost source: Option<PeerId>, ghost txs: seq<Hash>, ghost force: bool)
      requires AllScanned(was, peers, source, txs, force)
      requires Collected(was, txSet, source, txs, force)
      modifies this
      ensures peers.Keys == was.Keys
      ensures forall p :: p in was ==> peers[p] == Broadcasted(p, was[p], source, txs, force)
    {
      var todo := txSet.Keys;
      OfferingStarts(was, peers, txSet, source, txs, force);
      while todo != {}
        invariant todo <= txSet.Keys && Offering(was, peers, todo, source, txs, force)
        decreases |todo|
      {
        var p :| p in todo;
        OfferOne(was, peers, txSet, todo, source, txs, force, p);
        todo := todo - {p};
        AsyncSendTransactions(p, txSet[p]);
      }
    }

    // A broadcast with no drain in between: every peer ends as Broadcasted says.
    method BroadcastTxs(source: Option<PeerId>, txs: seq<Hash>, force: bool)
      modifies this
      ensures peers.Keys == old(peers).Keys
      ensures forall p :: p in peers ==> peers[p] == Broadcasted(p, old(peers)[p], source, txs, force)
      ensures forall p :: p in peers ==> Served(p, old(peers)[p], peers[p], source, txs, force)
    {
      ghost var was := peers;
      var txSet: map<PeerId, seq<Hash>> := map[];
      var i := 0;
      while i < |txs|
        invariant 0 <= i <= |txs|
        invariant AllScanned(was, peers, source, txs[..i], force)
        invariant Collected(was, txSet, source, txs[..i], force)
      {
        ghost var scanned := peers;
        var list := PeersWithoutTx(source, txs[i], force);
        ghost var before := txSet;
        txSet := AppendTo(txSet, list, txs[i]);
        ScanRound(was, scanned, peers, before, txSet, list, source, txs, force, i);
        i := i + 1;
      }
      assert txs[..i] == txs;
      SendAll(was, txSet, source, txs, force);
      forall p | p in peers ensures Served(p, was[p], peers[p], source, txs, force) {
        BroadcastServes(p, was[p], source, txs, force);
      }
    }
  }
}
