/** Transaction gossip as interleaved steps: calls of `BroadcastTxs` that look at
    one peer and mark one hash at a time, and the peers' own sending loops. */
module GossipProtocol {
  import opened Models
  import opened GossipPeers

  // A call of BroadcastTxs under way: what it has still to scan, the peers already looked at for the
  // first of these, its txSet, and what of the batch it queued last, to the peer `to`, it has
  // still to mark as known.
  datatype Call = Call(source: Option<PeerId>, force: bool, todo: seq<Hash>, looked: set<PeerId>,
                       batches: map<PeerId, seq<Hash>>, to: PeerId, marking: seq<Hash>)

  function NewCall(source: Option<PeerId>, txs: seq<Hash>, force: bool): Call {
    Call(source, force, txs, {}, map[], 0, [])
  }

  datatype State = State(peers: map<PeerId, Peer>, calls: map<nat, Call>)

  const START: State := State(map[], map[])

  // Send is the channel send of a batch, Mark the marking of one of its hashes; Take, Echo and
  // Transmit are the steps of a peer's own loop. In between may be anything.
  datatype Step =
    | Register(p: PeerId)
    | Begin(id: nat, source: Option<PeerId>, txs: seq<Hash>, force: bool)
    | Look(id: nat, p: PeerId)
    | Advance(id: nat)
    | Send(id: nat, p: PeerId)
    | Mark(id: nat)
    | Take(p: PeerId)
    | Echo(p: PeerId)
    | Transmit(p: PeerId)

  // A scan of one hash holds the read lock, so no peer registers meanwhile.
  ghost predicate Possible(st: State, e: Step) {
    match e
    case Register(p) => p !in st.peers && forall id :: id in st.calls ==> st.calls[id].looked == {}
    case Begin(id, source, txs, force) => id !in st.calls && Unique(txs)
    case Look(id, p) => id in st.calls && st.calls[id].todo != [] && p in st.peers && p !in st.calls[id].looked
    case Advance(id) => id in st.calls && st.calls[id].todo != [] && st.peers.Keys <= st.calls[id].looked
    case Send(id, p) =>
      && id in st.calls && st.calls[id].todo == [] && st.calls[id].marking == []
      && p in st.calls[id].batches && p in st.peers
    case Mark(id) => id in st.calls && st.calls[id].marking != [] && st.calls[id].to in st.peers
    case Take(p) => p in st.peers && st.peers[p].queue != [] && st.peers[p].taken == []
    case Echo(p) => p in st.peers && st.peers[p].marked < |st.peers[p].taken|
    case Transmit(p) => p in st.peers && st.peers[p].taken != [] && st.peers[p].marked == |st.peers[p].taken|
  }

  function AfterLook(c: Call, p: PeerId, peer: Peer): Call
    requires c.todo != []
  {
    c.(looked := c.looked + {p},
       batches := if Lacks(p, peer, c.source, c.todo[0], c.force)
                  then c.batches[p := Held(c.batches, p) + [c.todo[0]]] else c.batches)
  }

  function AfterAdvance(c: Call): Call
    requires c.todo != []
  {
    c.(todo := c.todo[1..], looked := {})
  }

  // A full queue drops the batch.
  function AfterSend(c: Call, p: PeerId, room: bool): Call {
    var rest := c.(batches := c.batches - {p});
    if room then rest.(to := p, marking := Held(c.batches, p)) else rest
  }

  function HasRoom(peer: Peer): bool {
    |peer.queue| < MAX_QUEUED_TXS
  }

  function AfterOffer(peer: Peer, batch: seq<Hash>): Peer {
    if HasRoom(peer) then Queued(peer, batch) else peer
  }

  ghost function Next(st: State, e: Step): State
    requires Possible(st, e)
  {
    match e
    case Register(p) => st.(peers := st.peers[p := NEW_PEER])
    case Begin(id, source, txs, force) => st.(calls := st.calls[id := NewCall(source, txs, force)])
    case Look(id, p) =>
      var c := st.calls[id];
      State(st.peers[p := Scanned(p, st.peers[p], c.source, [c.todo[0]], c.force)],
            st.calls[id := AfterLook(c, p, st.peers[p])])
    case Advance(id) => st.(calls := st.calls[id := AfterAdvance(st.calls[id])])
    case Send(id, p) =>
      var c := st.calls[id];
      State(st.peers[p := AfterOffer(st.peers[p], c.batches[p])],
            st.calls[id := AfterSend(c, p, HasRoom(st.peers[p]))])
    case Mark(id) =>
      var c := st.calls[id];
      State(st.peers[c.to := Told(st.peers[c.to], c.marking[0])], st.calls[id := c.(marking := c.marking[1..])])
    case Take(p) => st.(peers := st.peers[p := Took(st.peers[p])])
    case Echo(p) => st.(peers := st.peers[p := Echoed(st.peers[p])])
    case Transmit(p) => st.(peers := st.peers[p := Transmitted(st.peers[p])])
  }

  // ---- What a call has in hand for a peer ----

  predicate Marking(c: Call, p: PeerId, h: Hash) {
    c.to == p && h in c.marking
  }

  // The call has yet to look at the peer for this hash, and the peer lacks it. One that registers
  // later is looked at unless the scan of the hash has begun.
  predicate WillCollect(peers: map<PeerId, Peer>, c: Call, p: PeerId, h: Hash) {
    && h in c.todo && !IsSource(c.source, c.force, p)
    && if p in peers then h !in peers[p].known && !(h == c.todo[0] && p in c.looked)
       else !(h == c.todo[0] && c.looked != {})
  }

  // The call is going to queue the hash to the peer, or has queued it and not marked it yet.
  predicate Claims(peers: map<PeerId, Peer>, c: Call, p: PeerId, h: Hash) {
    h in Held(c.batches, p) || Marking(c, p, h) || WillCollect(peers, c, p, h)
  }

  ghost predicate Exclusive(peers: map<PeerId, Peer>, c: Call, d: Call) {
    forall p: PeerId, h: Hash :: Claims(peers, c, p, h) ==> !Claims(peers, d, p, h)
  }

  // A call that begins claims nothing another call claims.
  ghost predicate ClashFree(st: State, e: Step) {
    e.Begin? ==> forall id :: id in st.calls ==> Exclusive(st.peers, st.calls[id], NewCall(e.source, e.txs, e.force))
  }

  // ---- The invariant ----

  ghost predicate Shape(peers: map<PeerId, Peer>, c: Call) {
    && Unique(c.todo) && (c.todo == [] ==> c.looked == {})
    && c.looked <= peers.Keys && c.batches.Keys <= peers.Keys
    && (forall p, h :: h in Held(c.batches, p) && h in c.todo ==> h == c.todo[0] && p in c.looked)
    && (c.marking != [] ==> c.todo == [] && c.to in peers && c.to !in c.batches)
    && (forall h :: h in c.marking ==> c.to in peers && h in peers[c.to].enqueued)
  }

  // A batch repeats nothing, inside or against what was queued to the peer.
  ghost predicate Fit(peers: map<PeerId, Peer>, c: Call) {
    && Shape(peers, c)
    && forall p :: p in c.batches ==> Unique(c.batches[p]) && forall h :: h in c.batches[p] ==> h !in peers[p].enqueued
  }

  ghost predicate BeingMarked(st: State, p: PeerId, h: Hash) {
    exists id :: id in st.calls && Marking(st.calls[id], p, h)
  }

  // Everything queued to the peer is known, or the call that queued it is about to mark it.
  ghost predicate Accounted(st: State, p: PeerId)
    requires p in st.peers
  {
    forall h :: h in st.peers[p].enqueued ==> h in st.peers[p].known || BeingMarked(st, p, h)
  }

  ghost predicate Inv(st: State) {
    && (forall p :: p in st.peers ==> Orderly(st.peers[p]) && Accounted(st, p))
    && (forall id :: id in st.calls ==> Fit(st.peers, st.calls[id]))
    && (forall id, other :: id in st.calls && other in st.calls && id != other ==>
          Exclusive(st.peers, st.calls[id], st.calls[other]))
  }

  // What a step of one call may do to a peer.
  ghost predicate Grows(p: PeerId, was: Peer, now: Peer, c: Call, c': Call) {
    && Orderly(now) && was.known <= now.known
    && (forall h :: h in was.enqueued ==> h in now.enqueued)
    && (forall h :: h in now.enqueued ==> h in was.enqueued || h in Held(c.batches, p))
    && (forall h :: h in now.enqueued && h !in now.known && !Marking(c', p, h) ==>
          h in was.enqueued && !Marking(c, p, h))
  }

  ghost predicate AllGrow(peers: map<PeerId, Peer>, peers': map<PeerId, Peer>, c: Call, c': Call) {
    peers'.Keys == peers.Keys && forall p :: p in peers ==> Grows(p, peers[p], peers'[p], c, c')
  }

  lemma ClaimsShrink(peers: map<PeerId, Peer>, peers': map<PeerId, Peer>, c: Call, c': Call, d: Call, p: PeerId, h: Hash)
    requires AllGrow(peers, peers', c, c')
    ensures Claims(peers', d, p, h) ==> Claims(peers, d, p, h)
  {
    assert p in peers ==> Grows(p, peers[p], peers'[p], c, c');
  }

  lemma OtherStaysFit(peers: map<PeerId, Peer>, peers': map<PeerId, Peer>, c: Call, c': Call, d: Call)
    requires AllGrow(peers, peers', c, c') && Fit(peers, d) && Exclusive(peers, c, d)
    ensures Fit(peers', d)
  {
    forall p, h | p in d.batches && h in d.batches[p] ensures h !in peers'[p].enqueued {
      assert Grows(p, peers[p], peers'[p], c, c') && Claims(peers, d, p, h);
      assert h in Held(c.batches, p) ==> Claims(peers, c, p, h);
    }
    forall h | h in d.marking ensures h in peers'[d.to].enqueued {
      assert Grows(d.to, peers[d.to], peers'[d.to], c, c');
    }
  }

  lemma ExclusiveSides(peers: map<PeerId, Peer>, c: Call, d: Call)
    requires Exclusive(peers, c, d)
    ensures Exclusive(peers, d, c)
  {
    forall p: PeerId, h: Hash | Claims(peers, d, p, h) ensures !Claims(peers, c, p, h) {
    }
  }

  // Two other calls stay apart, and so does the moving one if it claims nothing new.
  lemma StaysExclusive(peers: map<PeerId, Peer>, peers': map<PeerId, Peer>, c: Call, c': Call,
                       one: Call, one': Call, other: Call, other': Call)
    requires AllGrow(peers, peers', c, c') && Exclusive(peers, one, other)
    requires forall p: PeerId, h: Hash :: Claims(peers', one', p, h) ==> Claims(peers, one, p, h)
    requires forall p: PeerId, h: Hash :: Claims(peers', other', p, h) ==> Claims(peers, other, p, h)
    ensures Exclusive(peers', one', other')
  {
    forall p: PeerId, h: Hash | Claims(peers', one', p, h) ensures !Claims(peers', other', p, h) {
      assert Claims(peers, one, p, h);
    }
  }

  lemma StaysAccounted(st: State, id: nat, peers': map<PeerId, Peer>, c': Call, p: PeerId)
    requires id in st.calls && AllGrow(st.peers, peers', st.calls[id], c') && p in st.peers && Accounted(st, p)
    ensures Accounted(State(peers', st.calls[id := c']), p)
  {
    var st' := State(peers', st.calls[id := c']);
    assert Grows(p, st.peers[p], peers'[p], st.calls[id], c');
    forall h | h in peers'[p].enqueued ensures h in peers'[p].known || BeingMarked(st', p, h) {
      if h !in peers'[p].known {
        if Marking(c', p, h) {
          assert Marking(st'.calls[id], p, h);
        } else {
          assert BeingMarked(st, p, h);
          var other :| other in st.calls && Marking(st.calls[other], p, h);
          assert other in st'.calls && Marking(st'.calls[other], p, h);
        }
      }
    }
  }

  lemma ClaimsLess(st: State, id: nat, peers': map<PeerId, Peer>, c': Call, other: nat)
    requires id in st.calls && other in st.calls && AllGrow(st.peers, peers', st.calls[id], c')
    requires forall p: PeerId, h: Hash :: Claims(peers', c', p, h) ==> Claims(st.peers, st.calls[id], p, h)
    ensures forall p: PeerId, h: Hash ::
      Claims(peers', st.calls[id := c'][other], p, h) ==> Claims(st.peers, st.calls[other], p, h)
  {
    if other != id {
      forall p: PeerId, h: Hash | Claims(peers', st.calls[other], p, h) ensures Claims(st.peers, st.calls[other], p, h) {
        ClaimsShrink(st.peers, peers', st.calls[id], c', st.calls[other], p, h);
      }
    }
  }

  lemma CallsStayExclusive(st: State, id: nat, peers': map<PeerId, Peer>, c': Call, one: nat, other: nat)
    requires id in st.calls && AllGrow(st.peers, peers', st.calls[id], c')
    requires forall p: PeerId, h: Hash :: Claims(peers', c', p, h) ==> Claims(st.peers, st.calls[id], p, h)
    requires one in st.calls && other in st.calls && Exclusive(st.peers, st.calls[one], st.calls[other])
    ensures Exclusive(peers', st.calls[id := c'][one], st.calls[id := c'][other])
  {
    var calls' := st.calls[id := c'];
    ClaimsLess(st, id, peers', c', one);
    ClaimsLess(st, id, peers', c', other);
    StaysExclusive(st.peers, peers', st.calls[id], c', st.calls[one], calls'[one], st.calls[other], calls'[other]);
  }

  lemma MovedPeers(st: State, id: nat, peers': map<PeerId, Peer>, c': Call)
    requires id in st.calls && AllGrow(st.peers, peers', st.calls[id], c')
    requires forall p :: p in st.peers ==> Accounted(st, p)
    ensures forall p :: p in peers' ==> Orderly(peers'[p]) && Accounted(State(peers', st.calls[id := c']), p)
  {
    forall p | p in peers' ensures Orderly(peers'[p]) && Accounted(State(peers', st.calls[id := c']), p) {
      assert Grows(p, st.peers[p], peers'[p], st.calls[id], c');
      StaysAccounted(st, id, peers', c', p);
    }
  }

  lemma MovedCalls(st: State, id: nat, peers': map<PeerId, Peer>, c': Call)
    requires Inv(st) && id in st.calls && AllGrow(st.peers, peers', st.calls[id], c') && Fit(peers', c')
    ensures forall other :: other in st.calls ==> Fit(peers', st.calls[id := c'][other])
  {
    forall other | other in st.calls ensures Fit(peers', st.calls[id := c'][other]) {
      if other != id {
        OtherStaysFit(st.peers, peers', st.calls[id], c', st.calls[other]);
      }
    }
  }

  // A step of one call keeps the invariant if it keeps that call fit and claims nothing new.
  lemma CallMoves(st: State, id: nat, peers': map<PeerId, Peer>, c': Call)
    requires Inv(st) && id in st.calls && AllGrow(st.peers, peers', st.calls[id], c') && Fit(peers', c')
    requires forall p: PeerId, h: Hash :: Claims(peers', c', p, h) ==> Claims(st.peers, st.calls[id], p, h)
    ensures Inv(State(peers', st.calls[id := c']))
  {
    var calls' := st.calls[id := c'];
    MovedPeers(st, id, peers', c');
    MovedCalls(st, id, peers', c');
    forall one, other | one in calls' && other in calls' && one != other
      ensures Exclusive(peers', calls'[one], calls'[other])
    {
      CallsStayExclusive(st, id, peers', c', one, other);
    }
  }

  const IDLE: Call := NewCall(None, [], false)

  // So does a step of a peer's own loop, which belongs to no call.
  lemma PeersMove(st: State, peers': map<PeerId, Peer>)
    requires Inv(st) && AllGrow(st.peers, peers', IDLE, IDLE)
    ensures Inv(st.(peers := peers'))
  {
    forall p | p in peers' ensures Orderly(peers'[p]) && Accounted(st.(peers := peers'), p) {
      assert Grows(p, st.peers[p], peers'[p], IDLE, IDLE);
      forall h | h in peers'[p].enqueued ensures h in peers'[p].known || BeingMarked(st.(peers := peers'), p, h) {
        if h !in peers'[p].known {
          assert BeingMarked(st, p, h);
        }
      }
    }
    forall id | id in st.calls ensures Fit(peers', st.calls[id]) {
      OtherStaysFit(st.peers, peers', IDLE, IDLE, st.calls[id]);
    }
    forall id | id in st.calls
      ensures forall p: PeerId, h: Hash :: Claims(peers', st.calls[id], p, h) ==> Claims(st.peers, st.calls[id], p, h)
    {
      forall p: PeerId, h: Hash | Claims(peers', st.calls[id], p, h) ensures Claims(st.peers, st.calls[id], p, h) {
        ClaimsShrink(st.peers, peers', IDLE, IDLE, st.calls[id], p, h);
      }
    }
    forall one, other | one in st.calls && other in st.calls && one != other
      ensures Exclusive(peers', st.calls[one], st.calls[other])
    {
      StaysExclusive(st.peers, peers', IDLE, IDLE, st.calls[one], st.calls[one], st.calls[other], st.calls[other]);
    }
  }

  // ---- Every step keeps it ----

  // A hash a call will collect has not been queued to the peer.
  lemma CollectsNew(st: State, id: nat, p: PeerId, h: Hash)
    requires Inv(st) && id in st.calls && p in st.peers && WillCollect(st.peers, st.calls[id], p, h)
    ensures h !in st.peers[p].enqueued
  {
    if h in st.peers[p].enqueued {
      assert Accounted(st, p) && BeingMarked(st, p, h);
      var other :| other in st.calls && Marking(st.calls[other], p, h);
      assert Fit(st.peers, st.calls[other]) && st.calls[other].marking != [];
      assert Claims(st.peers, st.calls[id], p, h) && Claims(st.peers, st.calls[other], p, h);
    }
  }

  lemma LookShape(peers: map<PeerId, Peer>, c: Call, p: PeerId)
    requires Shape(peers, c) && c.todo != [] && p in peers && p !in c.looked
    ensures Shape(peers[p := Scanned(p, peers[p], c.source, [c.todo[0]], c.force)], AfterLook(c, p, peers[p]))
  {
  }

  lemma LookFits(st: State, id: nat, p: PeerId)
    requires Inv(st) && Possible(st, Look(id, p))
    ensures var c, peer := st.calls[id], st.peers[p];
      Fit(st.peers[p := Scanned(p, peer, c.source, [c.todo[0]], c.force)], AfterLook(c, p, peer))
  {
    var c, peer := st.calls[id], st.peers[p];
    var h := c.todo[0];
    assert Fit(st.peers, c);
    LookShape(st.peers, c, p);
    if Lacks(p, peer, c.source, h, c.force) {
      assert WillCollect(st.peers, c, p, h);
      CollectsNew(st, id, p, h);
      assert h !in Held(c.batches, p);
      UniqueSum(Held(c.batches, p), [h]);
    }
  }

  lemma LookClaims(peers: map<PeerId, Peer>, c: Call, p: PeerId, q: PeerId, h: Hash)
    requires Shape(peers, c) && c.todo != [] && p in peers && p !in c.looked
    ensures Claims(peers[p := Scanned(p, peers[p], c.source, [c.todo[0]], c.force)], AfterLook(c, p, peers[p]), q, h)
      ==> Claims(peers, c, q, h)
  {
  }

  lemma LookKeepsInv(st: State, id: nat, p: PeerId)
    requires Inv(st) && Possible(st, Look(id, p))
    ensures Inv(Next(st, Look(id, p)))
  {
    var c, peer := st.calls[id], st.peers[p];
    var c', peers' := AfterLook(c, p, peer), st.peers[p := Scanned(p, peer, c.source, [c.todo[0]], c.force)];
    assert Fit(st.peers, c);
    LookFits(st, id, p);
    forall q | q in st.peers ensures Grows(q, st.peers[q], peers'[q], c, c') {
      assert Orderly(st.peers[q]);
    }
    forall q: PeerId, h: Hash ensures Claims(peers', c', q, h) ==> Claims(st.peers, c, q, h) {
      LookClaims(st.peers, c, p, q, h);
    }
    CallMoves(st, id, peers', c');
  }

  lemma AdvanceShape(peers: map<PeerId, Peer>, c: Call)
    requires Shape(peers, c) && c.todo != []
    ensures Shape(peers, AfterAdvance(c)) && c.todo[0] !in AfterAdvance(c).todo
    ensures forall h :: h in c.todo <==> h == c.todo[0] || h in AfterAdvance(c).todo
  {
    assert c.todo == [c.todo[0]] + c.todo[1..];
    UniqueSum([c.todo[0]], c.todo[1..]);
    assert c.todo[0] in [c.todo[0]];
    forall p, h | h in Held(c.batches, p) ensures h !in c.todo[1..] {
      assert h in c.todo[1..] ==> h in c.todo;
    }
  }

  lemma AdvanceKeepsInv(st: State, id: nat)
    requires Inv(st) && Possible(st, Advance(id))
    ensures Inv(Next(st, Advance(id)))
  {
    var c := st.calls[id];
    assert Fit(st.peers, c);
    AdvanceShape(st.peers, c);
    forall q | q in st.peers ensures Grows(q, st.peers[q], st.peers[q], c, AfterAdvance(c)) {
      assert Orderly(st.peers[q]);
    }
    CallMoves(st, id, st.peers, AfterAdvance(c));
  }

  lemma SendFits(peers: map<PeerId, Peer>, c: Call, p: PeerId)
    requires Fit(peers, c) && c.todo == [] && c.marking == [] && p in c.batches && p in peers
    ensures Fit(peers[p := AfterOffer(peers[p], c.batches[p])], AfterSend(c, p, HasRoom(peers[p])))
  {
  }

  lemma SendGrows(peers: map<PeerId, Peer>, c: Call, p: PeerId, q: PeerId)
    requires Fit(peers, c) && c.todo == [] && c.marking == [] && p in c.batches && p in peers && q in peers
    requires Orderly(peers[q])
    ensures Grows(q, peers[q], peers[p := AfterOffer(peers[p], c.batches[p])][q], c, AfterSend(c, p, HasRoom(peers[p])))
  {
    if q == p && HasRoom(peers[p]) {
      QueueKeepsOrderly(peers[p], c.batches[p]);
    }
  }

  lemma SendClaims(peers: map<PeerId, Peer>, c: Call, p: PeerId, q: PeerId, h: Hash)
    requires c.todo == [] && c.marking == [] && p in c.batches && p in peers
    ensures Claims(peers[p := AfterOffer(peers[p], c.batches[p])], AfterSend(c, p, HasRoom(peers[p])), q, h)
      ==> Claims(peers, c, q, h)
  {
  }

  lemma SendKeepsInv(st: State, id: nat, p: PeerId)
    requires Inv(st) && Possible(st, Send(id, p))
    ensures Inv(Next(st, Send(id, p)))
  {
    var c, peer := st.calls[id], st.peers[p];
    var c', peers' := AfterSend(c, p, HasRoom(peer)), st.peers[p := AfterOffer(peer, c.batches[p])];
    assert Fit(st.peers, c);
    SendFits(st.peers, c, p);
    assert AllGrow(st.peers, peers', c, c') by {
      forall q | q in st.peers ensures Grows(q, st.peers[q], peers'[q], c, c') {
        assert Orderly(st.peers[q]);
        SendGrows(st.peers, c, p, q);
      }
    }
    forall q: PeerId, h: Hash ensures Claims(peers', c', q, h) ==> Claims(st.peers, c, q, h) {
      SendClaims(st.peers, c, p, q, h);
    }
    CallMoves(st, id, peers', c');
  }

  lemma MarkMoves(peers: map<PeerId, Peer>, c: Call, q: PeerId, h: Hash)
    requires c.marking != [] && c.to in peers
    ensures Claims(peers[c.to := Told(peers[c.to], c.marking[0])], c.(marking := c.marking[1..]), q, h)
      ==> Claims(peers, c, q, h)
  {
    assert c.marking == [c.marking[0]] + c.marking[1..];
  }

  lemma MarkGrows(peers: map<PeerId, Peer>, c: Call, q: PeerId)
    requires c.marking != [] && c.to in peers && q in peers && Orderly(peers[q])
    ensures Grows(q, peers[q], peers[c.to := Told(peers[c.to], c.marking[0])][q], c, c.(marking := c.marking[1..]))
  {
    assert c.marking == [c.marking[0]] + c.marking[1..];
  }

  lemma MarkKeepsInv(st: State, id: nat)
    requires Inv(st) && Possible(st, Mark(id))
    ensures Inv(Next(st, Mark(id)))
  {
    var c := st.calls[id];
    var c', peers' := c.(marking := c.marking[1..]), st.peers[c.to := Told(st.peers[c.to], c.marking[0])];
    assert Fit(st.peers, c) && c.marking == [c.marking[0]] + c.marking[1..];
    assert AllGrow(st.peers, peers', c, c') by {
      forall q | q in st.peers ensures Grows(q, st.peers[q], peers'[q], c, c') {
        assert Orderly(st.peers[q]);
        MarkGrows(st.peers, c, q);
      }
    }
    forall q: PeerId, h: Hash ensures Claims(peers', c', q, h) ==> Claims(st.peers, c, q, h) {
      MarkMoves(st.peers, c, q, h);
    }
    CallMoves(st, id, peers', c');
  }

  lemma PeerStepGrows(st: State, e: Step, q: PeerId)
    requires Possible(st, e) && (e.Take? || e.Echo? || e.Transmit?) && q in st.peers && Orderly(st.peers[q])
    ensures Grows(q, st.peers[q], Next(st, e).peers[q], IDLE, IDLE)
  {
    if q == e.p {
      if e.Take? {
        TakeKeepsFlowing(st.peers[q]);
      } else if e.Transmit? {
        TransmitKeepsFlowing(st.peers[q]);
      }
    }
  }

  lemma PeerStepAllGrow(st: State, e: Step)
    requires Possible(st, e) && (e.Take? || e.Echo? || e.Transmit?)
    requires forall q :: q in st.peers ==> Orderly(st.peers[q])
    ensures AllGrow(st.peers, Next(st, e).peers, IDLE, IDLE)
  {
    forall q | q in st.peers ensures Grows(q, st.peers[q], Next(st, e).peers[q], IDLE, IDLE) {
      PeerStepGrows(st, e, q);
    }
  }

  lemma PeerStepKeepsInv(st: State, e: Step)
    requires Inv(st) && Possible(st, e) && (e.Take? || e.Echo? || e.Transmit?)
    ensures Inv(Next(st, e))
  {
    PeerStepAllGrow(st, e);
    PeersMove(st, Next(st, e).peers);
  }

  lemma RegisterClaims(st: State, p: PeerId, id: nat, q: PeerId, h: Hash)
    requires Possible(st, Register(p)) && id in st.calls && Shape(st.peers, st.calls[id])
    ensures Claims(Next(st, Register(p)).peers, st.calls[id], q, h) <==> Claims(st.peers, st.calls[id], q, h)
  {
  }

  lemma RegisterKeepsInv(st: State, p: PeerId)
    requires Inv(st) && Possible(st, Register(p))
    ensures Inv(Next(st, Register(p)))
  {
    var peers' := st.peers[p := NEW_PEER];
    forall q | q in peers' ensures Orderly(peers'[q]) && Accounted(st.(peers := peers'), q) {
      if q != p {
        assert Orderly(st.peers[q]) && Accounted(st, q);
        forall h | h in st.peers[q].enqueued ensures h in peers'[q].known || BeingMarked(st.(peers := peers'), q, h) {
          assert h in st.peers[q].known || BeingMarked(st, q, h);
        }
      }
    }
    forall id | id in st.calls ensures Fit(peers', st.calls[id]) {
      assert Fit(st.peers, st.calls[id]);
    }
    forall one, other | one in st.calls && other in st.calls && one != other
      ensures Exclusive(peers', st.calls[one], st.calls[other])
    {
      assert Exclusive(st.peers, st.calls[one], st.calls[other]);
      assert Fit(st.peers, st.calls[one]) && Fit(st.peers, st.calls[other]);
      forall q: PeerId, h: Hash | Claims(peers', st.calls[one], q, h) ensures !Claims(peers', st.calls[other], q, h) {
        RegisterClaims(st, p, one, q, h);
        RegisterClaims(st, p, other, q, h);
      }
    }
  }

  lemma BeginKeepsInv(st: State, e: Step)
    requires Inv(st) && e.Begin? && Possible(st, e) && ClashFree(st, e)
    ensures Inv(Next(st, e))
  {
    var next := Next(st, e);
    forall p | p in next.peers ensures Orderly(next.peers[p]) && Accounted(next, p) {
      assert Orderly(st.peers[p]) && Accounted(st, p);
      forall h | h in st.peers[p].enqueued ensures h in next.peers[p].known || BeingMarked(next, p, h) {
        if BeingMarked(st, p, h) {
          var id :| id in st.calls && Marking(st.calls[id], p, h);
          assert id in next.calls && Marking(next.calls[id], p, h);
        }
      }
    }
    forall one, other | one in next.calls && other in next.calls && one != other
      ensures Exclusive(next.peers, next.calls[one], next.calls[other])
    {
      if one == e.id {
        ExclusiveSides(st.peers, st.calls[other], next.calls[one]);
      }
    }
  }

  lemma StepKeepsInv(st: State, e: Step)
    requires Inv(st) && Possible(st, e) && ClashFree(st, e)
    ensures Inv(Next(st, e))
  {
    match e
    case Register(p) => RegisterKeepsInv(st, p);
    case Begin(id, source, txs, force) => BeginKeepsInv(st, e);
    case Look(id, p) => LookKeepsInv(st, id, p);
    case Advance(id) => AdvanceKeepsInv(st, id);
    case Send(id, p) => SendKeepsInv(st, id, p);
    case Mark(id) => MarkKeepsInv(st, id);
    case Take(p) => PeerStepKeepsInv(st, e);
    case Echo(p) => PeerStepKeepsInv(st, e);
    case Transmit(p) => PeerStepKeepsInv(st, e);
  }

  // ---- Runs ----

  ghost predicate IsRun(st: State, steps: seq<Step>)
    decreases |steps|
  {
    steps == [] || (Possible(st, steps[0]) && IsRun(Next(st, steps[0]), steps[1..]))
  }

  ghost function Run(st: State, steps: seq<Step>): State
    requires IsRun(st, steps)
    decreases |steps|
  {
    if steps == [] then st else Run(Next(st, steps[0]), steps[1..])
  }

  lemma RunCons(st: State, e: Step, rest: seq<Step>)
    requires Possible(st, e) && IsRun(Next(st, e), rest)
    ensures IsRun(st, [e] + rest) && Run(st, [e] + rest) == Run(Next(st, e), rest)
  {
    assert ([e] + rest)[1..] == rest;
  }

  lemma {:induction false} RunConcat(st: State, first: seq<Step>, second: seq<Step>)
    requires IsRun(st, first) && IsRun(Run(st, first), second)
    ensures IsRun(st, first + second) && Run(st, first + second) == Run(Run(st, first), second)
    decreases |first|
  {
    if first == [] {
      assert first + second == second;
    } else {
      RunConcat(Next(st, first[0]), first[1..], second);
      assert (first + second)[1..] == first[1..] + second;
    }
  }

  lemma RunFour(st: State, a: Step, b: Step, c: Step, d: Step)
    requires Possible(st, a) && Possible(Next(st, a), b) && Possible(Next(Next(st, a), b), c)
    requires Possible(Next(Next(Next(st, a), b), c), d)
    ensures IsRun(st, [a, b, c, d]) && Run(st, [a, b, c, d]) == Next(Next(Next(Next(st, a), b), c), d)
  {
    var end := Next(Next(Next(Next(st, a), b), c), d);
    RunCons(Next(Next(Next(st, a), b), c), d, []);
    RunCons(Next(Next(st, a), b), c, [d] + []);
    RunCons(Next(st, a), b, [c] + ([d] + []));
    RunCons(st, a, [b] + ([c] + ([d] + [])));
    assert [a] + ([b] + ([c] + ([d] + []))) == [a, b, c, d];
  }

  ghost predicate AllClashFree(st: State, steps: seq<Step>)
    requires IsRun(st, steps)
    decreases |steps|
  {
    steps != [] ==> ClashFree(st, steps[0]) && AllClashFree(Next(st, steps[0]), steps[1..])
  }

  // In every interleaving of calls, overlapping or not, in which none begins with a claim another
  // call has, the invariant holds.
  lemma {:induction false} EveryRunGood(st: State, steps: seq<Step>)
    requires Inv(st) && IsRun(st, steps) && AllClashFree(st, steps)
    ensures Inv(Run(st, steps))
    decreases |steps|
  {
    if steps != [] {
      StepKeepsInv(st, steps[0]);
      EveryRunGood(Next(st, steps[0]), steps[1..]);
    }
  }

  // So each hash is queued to a peer at most once, is known to it unless it is just being marked,
  // and what was sent is a prefix of what was queued.
  lemma EnqueuedAtMostOnce(steps: seq<Step>, p: PeerId, i: nat, j: nat)
    requires IsRun(START, steps) && AllClashFree(START, steps)
    requires p in Run(START, steps).peers && i < j < |Run(START, steps).peers[p].enqueued|
    ensures var peer := Run(START, steps).peers[p];
      && peer.enqueued[i] != peer.enqueued[j] && peer.sent <= peer.enqueued
      && (peer.enqueued[i] in peer.known || BeingMarked(Run(START, steps), p, peer.enqueued[i]))
      && |peer.queue| <= MAX_QUEUED_TXS
  {
    EveryRunGood(START, steps);
    var st := Run(START, steps);
    assert Orderly(st.peers[p]) && Accounted(st, p);
    assert st.peers[p].enqueued[i] in st.peers[p].enqueued;
  }

  // ---- A simple guard ----

  // The call has yet to scan the hash, to offer it to some peer, or to mark it as known.
  ghost predicate InFlight(c: Call, h: Hash) {
    h in c.todo || h in c.marking || exists p :: p in c.batches && h in c.batches[p]
  }

  ghost predicate BeginsApart(st: State, e: Step) {
    e.Begin? ==> forall id, h :: id in st.calls && h in e.txs ==> !InFlight(st.calls[id], h)
  }

  // A call that shares no hash with what is in flight cannot clash.
  lemma ApartIsClashFree(st: State, e: Step)
    requires BeginsApart(st, e)
    ensures ClashFree(st, e)
  {
    if e.Begin? {
      forall id | id in st.calls ensures Exclusive(st.peers, st.calls[id], NewCall(e.source, e.txs, e.force)) {
        forall p: PeerId, h: Hash | Claims(st.peers, st.calls[id], p, h)
          ensures !Claims(st.peers, NewCall(e.source, e.txs, e.force), p, h)
        {
          assert h in e.txs ==> !InFlight(st.calls[id], h);
        }
      }
    }
  }

  ghost predicate AllBeginApart(st: State, steps: seq<Step>)
    requires IsRun(st, steps)
    decreases |steps|
  {
    steps != [] ==> BeginsApart(st, steps[0]) && AllBeginApart(Next(st, steps[0]), steps[1..])
  }

  // So the theorems above hold of every run in which no call begins with a hash in flight.
  lemma {:induction false} ApartRunsAreClashFree(st: State, steps: seq<Step>)
    requires IsRun(st, steps) && AllBeginApart(st, steps)
    ensures AllClashFree(st, steps)
    decreases |steps|
  {
    if steps != [] {
      ApartIsClashFree(st, steps[0]);
      ApartRunsAreClashFree(Next(st, steps[0]), steps[1..]);
    }
  }

  // A call has nothing for its source unless it is forced.
  ghost predicate SkipsSource(c: Call) {
    forall p :: p in c.batches ==> !IsSource(c.source, c.force, p)
  }

  lemma {:induction false} SourceIsSkipped(st: State, steps: seq<Step>)
    requires IsRun(st, steps) && forall id :: id in st.calls ==> SkipsSource(st.calls[id])
    ensures forall id :: id in Run(st, steps).calls ==> SkipsSource(Run(st, steps).calls[id])
    decreases |steps|
  {
    if steps != [] {
      var next := Next(st, steps[0]);
      forall id | id in next.calls ensures SkipsSource(next.calls[id]) {
        assert id in st.calls ==> SkipsSource(st.calls[id]);
      }
      SourceIsSkipped(next, steps[1..]);
    }
  }

  // ---- Calls that clash ----

  ghost predicate BeginsNothing(steps: seq<Step>) {
    forall i :: 0 <= i < |steps| ==> !steps[i].Begin?
  }

  // Both calls claim the hash for the peer, and the second has queued nothing yet.
  ghost predicate Doubled(st: State, first: nat, second: nat, p: PeerId, h: Hash) {
    && first in st.calls && second in st.calls && first != second
    && (forall id :: id in st.calls ==> Shape(st.peers, st.calls[id]))
    && (forall q :: q in st.peers ==> Tidy(st.peers[q]))
    && Claims(st.peers, st.calls[first], p, h) && Claims(st.peers, st.calls[second], p, h)
    && st.calls[second].marking == []
  }

  lemma LookKeepsShape(peers: map<PeerId, Peer>, c: Call, p: PeerId, d: Call)
    requires Shape(peers, d) && c.todo != [] && p in peers
    ensures Shape(peers[p := Scanned(p, peers[p], c.source, [c.todo[0]], c.force)], d)
  {
  }

  // Looking for one hash of a call leaves the claims to the hash with whoever has them.
  lemma LookKeepsClaim(peers: map<PeerId, Peer>, c: Call, q: PeerId, d: Call, p: PeerId, h: Hash)
    requires Shape(peers, c) && c.todo != [] && q in peers && q !in c.looked
    requires Claims(peers, d, p, h) && (p in peers ==> Claims(peers, c, p, h))
    ensures Claims(peers[q := Scanned(q, peers[q], c.source, [c.todo[0]], c.force)], d, p, h)
  {
    OneHash(c.todo[0]);
    if q == p && h == c.todo[0] {
      assert h in c.todo && h !in Held(c.batches, p) && !Marking(c, p, h);
      assert !IsSource(c.source, c.force, p);
    }
  }

  lemma LookMovesClaim(peers: map<PeerId, Peer>, c: Call, q: PeerId, p: PeerId, h: Hash)
    requires Shape(peers, c) && c.todo != [] && q in peers && q !in c.looked
    requires Claims(peers, c, p, h) && (p !in peers ==> c.looked != {})
    ensures Claims(peers[q := Scanned(q, peers[q], c.source, [c.todo[0]], c.force)], AfterLook(c, q, peers[q]), p, h)
  {
    OneHash(c.todo[0]);
  }

  lemma LookKeepsDoubled(st: State, first: nat, second: nat, p: PeerId, h: Hash, id: nat, q: PeerId)
    requires Doubled(st, first, second, p, h) && Possible(st, Look(id, q))
    requires if p in st.peers then id == first || id == second else st.calls[id].looked != {}
    ensures Doubled(Next(st, Look(id, q)), first, second, p, h)
  {
    var c, next := st.calls[id], Next(st, Look(id, q));
    forall other | other in next.calls ensures Shape(next.peers, next.calls[other]) {
      if other == id {
        LookShape(st.peers, c, q);
      } else {
        LookKeepsShape(st.peers, c, q, st.calls[other]);
      }
    }
    forall other | other == first || other == second ensures Claims(next.peers, next.calls[other], p, h) {
      if other == id {
        LookMovesClaim(st.peers, c, q, p, h);
      } else {
        LookKeepsClaim(st.peers, c, q, st.calls[other], p, h);
      }
    }
  }

  lemma AdvanceKeepsDoubled(st: State, first: nat, second: nat, p: PeerId, h: Hash, id: nat)
    requires Doubled(st, first, second, p, h) && Possible(st, Advance(id))
    requires p !in st.peers ==> st.calls[id].looked != {}
    ensures Doubled(Next(st, Advance(id)), first, second, p, h)
  {
    AdvanceShape(st.peers, st.calls[id]);
  }

  // Some run in which no call begins leads from one state to the other.
  ghost predicate Leads(st: State, steps: seq<Step>, end: State) {
    IsRun(st, steps) && BeginsNothing(steps) && Run(st, steps) == end
  }

  ghost predicate Reaches(st: State, end: State) {
    exists steps :: Leads(st, steps, end)
  }

  lemma ReachesItself(st: State)
    ensures Reaches(st, st)
  {
    assert Leads(st, [], st);
  }

  lemma ReachesBy(st: State, e: Step, end: State)
    requires Possible(st, e) && !e.Begin? && Reaches(Next(st, e), end)
    ensures Reaches(st, end)
  {
    var rest :| Leads(Next(st, e), rest, end);
    RunCons(st, e, rest);
    assert Leads(st, [e] + rest, end);
  }

  lemma ReachesOver(st: State, mid: State, end: State)
    requires Reaches(st, mid) && Reaches(mid, end)
    ensures Reaches(st, end)
  {
    var first :| Leads(st, first, mid);
    var second :| Leads(mid, second, end);
    RunConcat(st, first, second);
    assert Leads(st, first + second, end);
  }

  lemma ReachesNext(st: State, e: Step)
    requires Possible(st, e) && !e.Begin?
    ensures Reaches(st, Next(st, e))
  {
    ReachesItself(Next(st, e));
    ReachesBy(st, e, Next(st, e));
  }

  // The scan of the hash a call is at has come to its end.
  ghost predicate HashScanned(st: State, end: State, id: nat)
    requires id in st.calls && st.calls[id].todo != []
  {
    && end.peers.Keys == st.peers.Keys && end.calls.Keys == st.calls.Keys
    && end.calls[id].todo == st.calls[id].todo[1..] && end.calls[id].looked == {}
    && forall other :: other in st.calls && other != id ==> end.calls[other] == st.calls[other]
  }

  lemma LookGoesOn(st: State, id: nat, q: PeerId)
    requires Possible(st, Look(id, q))
    ensures var next := Next(st, Look(id, q));
      && next.peers.Keys == st.peers.Keys && next.calls.Keys == st.calls.Keys
      && next.calls[id].todo == st.calls[id].todo && next.calls[id].looked == st.calls[id].looked + {q}
      && |next.peers.Keys - next.calls[id].looked| < |st.peers.Keys - st.calls[id].looked|
      && forall end :: HashScanned(next, end, id) ==> HashScanned(st, end, id)
  {
    var next := Next(st, Look(id, q));
    assert next.peers.Keys - next.calls[id].looked == st.peers.Keys - st.calls[id].looked - {q};
    assert q in st.peers.Keys - st.calls[id].looked;
  }

  lemma {:induction false} FinishHash(st: State, first: nat, second: nat, p: PeerId, h: Hash, id: nat)
    returns (end: State)
    requires Doubled(st, first, second, p, h) && id in st.calls && st.calls[id].todo != []
    requires if p in st.peers then id == first || id == second else st.calls[id].looked != {}
    ensures Reaches(st, end) && Doubled(end, first, second, p, h) && HashScanned(st, end, id)
    decreases |st.peers.Keys - st.calls[id].looked|
  {
    if st.peers.Keys <= st.calls[id].looked {
      AdvanceKeepsDoubled(st, first, second, p, h, id);
      end := Next(st, Advance(id));
      ReachesNext(st, Advance(id));
    } else {
      var q :| q in st.peers && q !in st.calls[id].looked;
      LookKeepsDoubled(st, first, second, p, h, id, q);
      LookGoesOn(st, id, q);
      end := FinishHash(Next(st, Look(id, q)), first, second, p, h, id);
      ReachesBy(st, Look(id, q), end);
    }
  }

  ghost function Scanning(st: State): set<nat> {
    set id | id in st.calls && st.calls[id].looked != {}
  }

  lemma OneScanLess(st: State, mid: State, id: nat)
    requires id in Scanning(st) && st.calls[id].todo != [] && HashScanned(st, mid, id)
    ensures |Scanning(mid)| < |Scanning(st)|
  {
    assert Scanning(mid) == Scanning(st) - {id};
  }

  // The scans under way end, so that a peer can register.
  lemma {:induction false} FinishScans(st: State, first: nat, second: nat, p: PeerId, h: Hash) returns (end: State)
    requires Doubled(st, first, second, p, h) && p !in st.peers
    ensures Reaches(st, end) && Doubled(end, first, second, p, h) && p !in end.peers && Scanning(end) == {}
    decreases |Scanning(st)|
  {
    if Scanning(st) == {} {
      end := st;
      ReachesItself(st);
    } else {
      var id :| id in Scanning(st);
      assert Shape(st.peers, st.calls[id]);
      var mid := FinishHash(st, first, second, p, h, id);
      OneScanLess(st, mid, id);
      end := FinishScans(mid, first, second, p, h);
      ReachesOver(st, mid, end);
    }
  }

  lemma RegisterKeepsDoubled(st: State, first: nat, second: nat, p: PeerId, h: Hash)
    requires Doubled(st, first, second, p, h) && Possible(st, Register(p))
    ensures Doubled(Next(st, Register(p)), first, second, p, h)
  {
    RegisterClaims(st, p, first, p, h);
    RegisterClaims(st, p, second, p, h);
  }

  lemma RegisterForClash(st: State, first: nat, second: nat, p: PeerId, h: Hash) returns (end: State)
    requires Doubled(st, first, second, p, h)
    ensures Reaches(st, end) && Doubled(end, first, second, p, h) && p in end.peers
  {
    if p in st.peers {
      end := st;
      ReachesItself(st);
    } else {
      var mid := FinishScans(st, first, second, p, h);
      forall id | id in mid.calls ensures mid.calls[id].looked == {} {
        assert id !in Scanning(mid);
      }
      RegisterKeepsDoubled(mid, first, second, p, h);
      end := Next(mid, Register(p));
      ReachesNext(mid, Register(p));
      ReachesOver(st, mid, end);
    }
  }

  // A call scans all it has still to scan.
  lemma {:induction false} ScanOut(st: State, first: nat, second: nat, p: PeerId, h: Hash, id: nat)
    returns (end: State)
    requires Doubled(st, first, second, p, h) && p in st.peers && (id == first || id == second)
    ensures Reaches(st, end) && Doubled(end, first, second, p, h) && p in end.peers
    ensures end.calls.Keys == st.calls.Keys && end.calls[id].todo == []
    ensures forall other :: other in st.calls && other != id ==> end.calls[other] == st.calls[other]
    decreases |st.calls[id].todo|
  {
    if st.calls[id].todo == [] {
      end := st;
      ReachesItself(st);
    } else {
      var mid := FinishHash(st, first, second, p, h, id);
      end := ScanOut(mid, first, second, p, h, id);
      ReachesOver(st, mid, end);
    }
  }

  // The second call waits to queue the hash, and the first has queued it or waits to.
  ghost predicate Ready(st: State, first: nat, second: nat, p: PeerId, h: Hash) {
    && first in st.calls && second in st.calls && first != second && p in st.peers
    && (forall q :: q in st.peers ==> Tidy(st.peers[q]))
    && st.calls[second].todo == [] && st.calls[second].marking == [] && h in Held(st.calls[second].batches, p)
    && st.calls[first].todo == [] && (st.calls[first].marking != [] ==> st.calls[first].to in st.peers)
    && (h in st.peers[p].enqueued || h in Held(st.calls[first].batches, p))
  }

  lemma ClashGetsReady(st: State, first: nat, second: nat, p: PeerId, h: Hash) returns (end: State)
    requires Doubled(st, first, second, p, h)
    ensures Reaches(st, end) && Ready(end, first, second, p, h)
  {
    var one := RegisterForClash(st, first, second, p, h);
    var two := ScanOut(one, first, second, p, h, first);
    end := ScanOut(two, first, second, p, h, second);
    ReachesOver(one, two, end);
    ReachesOver(st, one, end);
    assert Shape(end.peers, end.calls[first]) && Shape(end.peers, end.calls[second]);
  }

  // The peer's own loop makes room in the queue.
  lemma {:induction false} MakeRoom(st: State, p: PeerId) returns (end: State)
    requires p in st.peers && Tidy(st.peers[p])
    ensures Reaches(st, end) && p in end.peers && end == st.(peers := st.peers[p := end.peers[p]])
    ensures end.peers[p].enqueued == st.peers[p].enqueued && Tidy(end.peers[p]) && HasRoom(end.peers[p])
    decreases |st.peers[p].queue|, |st.peers[p].taken|, |st.peers[p].taken| - st.peers[p].marked
  {
    var peer := st.peers[p];
    if HasRoom(peer) {
      end := st;
      ReachesItself(st);
      assert st.peers == st.peers[p := peer];
    } else {
      var e := if peer.taken == [] then Take(p) else if peer.marked < |peer.taken| then Echo(p) else Transmit(p);
      end := MakeRoom(Next(st, e), p);
      ReachesBy(st, e, end);
    }
  }

  // A call marks all it has still to mark.
  lemma {:induction false} MarkOut(st: State, id: nat) returns (end: State)
    requires id in st.calls && (st.calls[id].marking != [] ==> st.calls[id].to in st.peers)
    ensures Reaches(st, end)
    ensures end.calls == st.calls[id := st.calls[id].(marking := [])] && end.peers.Keys == st.peers.Keys
    ensures forall q :: q in st.peers ==> end.peers[q] == st.peers[q].(known := end.peers[q].known)
    decreases |st.calls[id].marking|
  {
    if st.calls[id].marking == [] {
      end := st;
      ReachesItself(st);
      assert st.calls == st.calls[id := st.calls[id].(marking := [])];
    } else {
      end := MarkOut(Next(st, Mark(id)), id);
      ReachesBy(st, Mark(id), end);
    }
  }

  lemma QueueFirst(st: State, first: nat, second: nat, p: PeerId, h: Hash) returns (end: State)
    requires Ready(st, first, second, p, h)
    ensures Reaches(st, end) && Ready(end, first, second, p, h) && h in end.peers[p].enqueued
  {
    if h in st.peers[p].enqueued {
      end := st;
      ReachesItself(st);
    } else {
      var one := MarkOut(st, first);
      var two := MakeRoom(one, p);
      end := Next(two, Send(first, p));
      ReachesNext(two, Send(first, p));
      ReachesOver(one, two, end);
      ReachesOver(st, one, end);
    }
  }

  lemma QueueSecond(st: State, first: nat, second: nat, p: PeerId, h: Hash) returns (end: State)
    requires Ready(st, first, second, p, h) && h in st.peers[p].enqueued
    ensures Reaches(st, end) && p in end.peers && !Unique(end.peers[p].enqueued)
  {
    var one := MakeRoom(st, p);
    end := Next(one, Send(second, p));
    ReachesNext(one, Send(second, p));
    ReachesOver(st, one, end);
    UniqueSum(one.peers[p].enqueued, one.calls[second].batches[p]);
  }

  lemma NewCallShape(peers: map<PeerId, Peer>, source: Option<PeerId>, txs: seq<Hash>, force: bool)
    requires Unique(txs)
    ensures Shape(peers, NewCall(source, txs, force))
  {
  }

  lemma BeginDoubles(st: State, begin: Step, first: nat, p: PeerId, h: Hash)
    requires Inv(st) && begin.Begin? && Possible(st, begin) && first in st.calls
    requires Claims(st.peers, st.calls[first], p, h)
    requires Claims(st.peers, NewCall(begin.source, begin.txs, begin.force), p, h)
    ensures Doubled(Next(st, begin), first, begin.id, p, h)
  {
    var next := Next(st, begin);
    assert next.peers == st.peers && next.calls[begin.id] == NewCall(begin.source, begin.txs, begin.force);
    forall id | id in next.calls ensures Shape(next.peers, next.calls[id]) {
      if id == begin.id {
        NewCallShape(st.peers, begin.source, begin.txs, begin.force);
      } else {
        assert Fit(st.peers, st.calls[id]);
      }
    }
    forall q | q in next.peers ensures Tidy(next.peers[q]) {
      assert Orderly(st.peers[q]);
    }
  }

  // Conversely, a call that begins with a claim another call has can be carried on, without a third
  // call, until the hash has been queued to that peer twice.
  lemma SharedHashRepeats(st: State, begin: Step, first: nat, p: PeerId, h: Hash) returns (rest: seq<Step>)
    requires Inv(st) && begin.Begin? && Possible(st, begin) && first in st.calls
    requires Claims(st.peers, st.calls[first], p, h)
    requires Claims(st.peers, NewCall(begin.source, begin.txs, begin.force), p, h)
    ensures IsRun(st, [begin] + rest) && BeginsNothing(rest)
    ensures p in Run(st, [begin] + rest).peers && !Unique(Run(st, [begin] + rest).peers[p].enqueued)
  {
    var next := Next(st, begin);
    BeginDoubles(st, begin, first, p, h);
    var one := ClashGetsReady(next, first, begin.id, p, h);
    var two := QueueFirst(one, first, begin.id, p, h);
    var end := QueueSecond(two, first, begin.id, p, h);
    ReachesOver(one, two, end);
    ReachesOver(next, one, end);
    rest :| Leads(next, rest, end);
    RunCons(st, begin, rest);
  }

  // After the call begins, and as long as no other does, no hash is queued twice.
  ghost predicate QueuesOnce(st: State, begin: Step, rest: seq<Step>) {
    IsRun(st, [begin] + rest) && BeginsNothing(rest) ==>
      forall p :: p in Run(st, [begin] + rest).peers ==> Unique(Run(st, [begin] + rest).peers[p].enqueued)
  }

  lemma {:induction false} NothingBegunIsClashFree(st: State, steps: seq<Step>)
    requires IsRun(st, steps) && BeginsNothing(steps)
    ensures AllClashFree(st, steps)
    decreases |steps|
  {
    if steps != [] {
      assert !steps[0].Begin?;
      assert forall i :: 0 <= i < |steps[1..]| ==> steps[1..][i] == steps[i + 1];
      NothingBegunIsClashFree(Next(st, steps[0]), steps[1..]);
    }
  }

  lemma ClashFreeQueuesOnce(st: State, begin: Step, rest: seq<Step>)
    requires Inv(st) && begin.Begin? && Possible(st, begin) && ClashFree(st, begin)
    ensures QueuesOnce(st, begin, rest)
  {
    if IsRun(st, [begin] + rest) && BeginsNothing(rest) {
      assert ([begin] + rest)[1..] == rest;
      StepKeepsInv(st, begin);
      NothingBegunIsClashFree(Next(st, begin), rest);
      EveryRunGood(Next(st, begin), rest);
      RunCons(st, begin, rest);
      forall p | p in Run(st, [begin] + rest).peers ensures Unique(Run(st, [begin] + rest).peers[p].enqueued) {
        assert Orderly(Run(Next(st, begin), rest).peers[p]);
      }
    }
  }

  // A call may begin without a hash ever being queued twice, whatever the steps that follow, exactly
  // when it clashes with no call under way.
  lemma BeginIsSafeExactly(st: State, begin: Step)
    requires Inv(st) && begin.Begin? && Possible(st, begin)
    ensures (forall rest :: QueuesOnce(st, begin, rest)) <==> ClashFree(st, begin)
  {
    if ClashFree(st, begin) {
      forall rest ensures QueuesOnce(st, begin, rest) {
        ClashFreeQueuesOnce(st, begin, rest);
      }
    } else {
      var c := NewCall(begin.source, begin.txs, begin.force);
      var first :| first in st.calls && !Exclusive(st.peers, st.calls[first], c);
      var p: PeerId, h: Hash :| Claims(st.peers, st.calls[first], p, h) && Claims(st.peers, c, p, h);
      var rest := SharedHashRepeats(st, begin, first, p, h);
      assert !QueuesOnce(st, begin, rest);
    }
  }

  // It does happen: two calls with the same hash, the second begun before the first has scanned it.
  lemma OverlappingScansRepeat(h: Hash) returns (rest: seq<Step>)
    ensures var steps := [Register(0)] + ([Begin(0, None, [h], false)] + ([Begin(1, None, [h], false)] + rest));
      IsRun(START, steps) && 0 in Run(START, steps).peers && !Unique(Run(START, steps).peers[0].enqueued)
  {
    var first, second := Begin(0, None, [h], false), Begin(1, None, [h], false);
    var one := Next(START, Register(0));
    var two := Next(one, first);
    StepKeepsInv(START, Register(0));
    StepKeepsInv(one, first);
    rest := SharedHashRepeats(two, second, 0, 0, h);
    RunCons(one, first, [second] + rest);
    RunCons(START, Register(0), [first] + ([second] + rest));
  }

  // The call has the hash in hand for peer 0.
  function ScannedOnce(h: Hash): State {
    State(map[0 := NEW_PEER], map[0 := NewCall(None, [], false).(batches := map[0 := [h]])])
  }

  // Peer 0 has the hash in its queue, and the call has still to mark it.
  function QueuedUnmarked(h: Hash): State {
    State(map[0 := Queued(NEW_PEER, [h])], map[0 := NewCall(None, [], false).(to := 0, marking := [h])])
  }

  lemma ScanOnce(h: Hash)
    ensures var steps := [Register(0), Begin(0, None, [h], false), Look(0, 0), Advance(0)];
      IsRun(START, steps) && Run(START, steps) == ScannedOnce(h)
  {
    var one := Next(START, Register(0));
    var two := Next(one, Begin(0, None, [h], false));
    var three := Next(two, Look(0, 0));
    var four := Next(three, Advance(0));
    assert four.calls[0].batches[0] == [] + [h] == [h] && four.calls[0].batches == ScannedOnce(h).calls[0].batches;
    assert four.calls[0] == ScannedOnce(h).calls[0];
    assert four.peers == ScannedOnce(h).peers && four.calls == ScannedOnce(h).calls;
    RunFour(START, Register(0), Begin(0, None, [h], false), Look(0, 0), Advance(0));
  }

  lemma QueueOnce(h: Hash)
    ensures IsRun(ScannedOnce(h), [Send(0, 0)]) && Run(ScannedOnce(h), [Send(0, 0)]) == QueuedUnmarked(h)
  {
    var next := Next(ScannedOnce(h), Send(0, 0));
    assert ScannedOnce(h).calls[0].batches - {0} == map[];
    assert next.peers == QueuedUnmarked(h).peers && next.calls == QueuedUnmarked(h).calls;
    RunCons(ScannedOnce(h), Send(0, 0), []);
    assert [Send(0, 0)] + [] == [Send(0, 0)];
  }

  lemma QueuedOnce(h: Hash)
    ensures var steps := [Register(0), Begin(0, None, [h], false), Look(0, 0), Advance(0), Send(0, 0)];
      IsRun(START, steps) && Run(START, steps) == QueuedUnmarked(h)
  {
    var scan := [Register(0), Begin(0, None, [h], false), Look(0, 0), Advance(0)];
    ScanOnce(h);
    QueueOnce(h);
    RunConcat(START, scan, [Send(0, 0)]);
    assert scan + [Send(0, 0)] == [Register(0), Begin(0, None, [h], false), Look(0, 0), Advance(0), Send(0, 0)];
  }

  lemma QueuedAgain(h: Hash)
    ensures var steps := [Begin(1, None, [h], false), Look(1, 0), Advance(1), Send(1, 0)];
      var st := QueuedUnmarked(h);
      IsRun(st, steps) && 0 in Run(st, steps).peers && Run(st, steps).peers[0].enqueued == [h, h]
  {
    var one := Next(QueuedUnmarked(h), Begin(1, None, [h], false));
    var two := Next(one, Look(1, 0));
    var three := Next(two, Advance(1));
    assert three.calls[1].batches == map[0 := [] + [h]];
    RunFour(QueuedUnmarked(h), Begin(1, None, [h], false), Look(1, 0), Advance(1), Send(1, 0));
  }

  // Marking counts: the first call has scanned and queued everything and not yet
  // marked it when the second begins with the same hash.
  lemma MarkingCounts(h: Hash)
    ensures var queued := [Register(0), Begin(0, None, [h], false), Look(0, 0), Advance(0), Send(0, 0)];
      var again := [Begin(1, None, [h], false), Look(1, 0), Advance(1), Send(1, 0)];
      && IsRun(START, queued) && 0 in Run(START, queued).calls
      && Run(START, queued).calls[0].todo == [] && Run(START, queued).calls[0].batches == map[]
      && IsRun(START, queued + again) && 0 in Run(START, queued + again).peers
      && Run(START, queued + again).peers[0].enqueued == [h, h]
  {
    QueuedOnce(h);
    QueuedAgain(h);
    RunConcat(START, [Register(0), Begin(0, None, [h], false), Look(0, 0), Advance(0), Send(0, 0)],
              [Begin(1, None, [h], false), Look(1, 0), Advance(1), Send(1, 0)]);
  }
}
