/** What gossip is for, over every interleaving of broadcasts and sending loops: a
    finished broadcast has reached every peer, and a peer is taken to know only
    what was queued to it or what came from it. */
module GossipDelivery {
  import opened Models
  import opened GossipPeers
  import opened GossipProtocol

  // ---- A finished broadcast has reached every peer ----

  // The peer knows the hash, or the call is still going to look, to queue it there, or to mark it.
  ghost predicate Coming(st: State, id: nat, p: PeerId, h: Hash) {
    && id in st.calls && p in st.peers
    && var c := st.calls[id];
      || h in st.peers[p].known
      || h in Held(c.batches, p)
      || Marking(c, p, h)
      || (h in c.todo && !(h == c.todo[0] && p in c.looked))
  }

  // If this is where the call offers the peer its batch, the queue has room for it.
  ghost predicate Meets(st: State, e: Step, id: nat, p: PeerId)
    requires Possible(st, e)
  {
    e == Send(id, p) ==> |st.peers[p].queue| < 128
  }

  lemma CallStepKeepsComing(st: State, e: Step, id: nat, p: PeerId, h: Hash)
    requires Possible(st, e) && Meets(st, e, id, p) && Coming(st, id, p, h)
    requires (e.Look? || e.Advance? || e.Send? || e.Mark?) && e.id == id
    ensures Coming(Next(st, e), id, p, h)
  {
    var c := st.calls[id];
    if e.Look? || e.Advance? {
      OneHash(c.todo[0]);
      assert c.todo == [c.todo[0]] + c.todo[1..];
    } else if e.Mark? {
      assert c.marking == [c.marking[0]] + c.marking[1..];
    }
  }

  lemma StepKeepsComing(st: State, e: Step, id: nat, p: PeerId, h: Hash)
    requires Possible(st, e) && Meets(st, e, id, p) && Coming(st, id, p, h)
    ensures Coming(Next(st, e), id, p, h)
  {
    if (e.Look? || e.Advance? || e.Send? || e.Mark?) && e.id == id {
      CallStepKeepsComing(st, e, id, p, h);
    }
  }

  ghost predicate AlwaysMeets(st: State, steps: seq<Step>, id: nat, p: PeerId)
    requires IsRun(st, steps)
    decreases |steps|
  {
    steps != [] ==> Meets(st, steps[0], id, p) && AlwaysMeets(Next(st, steps[0]), steps[1..], id, p)
  }

  lemma {:induction false} RunKeepsComing(st: State, steps: seq<Step>, id: nat, p: PeerId, h: Hash)
    requires IsRun(st, steps) && AlwaysMeets(st, steps, id, p) && Coming(st, id, p, h)
    ensures Coming(Run(st, steps), id, p, h)
    decreases |steps|
  {
    if steps != [] {
      StepKeepsComing(st, steps[0], id, p, h);
      RunKeepsComing(Next(st, steps[0]), steps[1..], id, p, h);
    }
  }

  // Nothing left to scan, to offer or to mark.
  predicate Over(c: Call) {
    c.todo == [] && c.batches == map[] && c.marking == []
  }

  // Whatever runs beside it, once a broadcast is over every peer that was there when it began knows
  // every hash of it, unless the peer's queue was full when it was offered its batch.
  lemma BroadcastReaches(st: State, begin: Step, rest: seq<Step>, p: PeerId, h: Hash)
    requires begin.Begin? && Possible(st, begin) && IsRun(Next(st, begin), rest)
    requires p in st.peers && h in begin.txs && AlwaysMeets(Next(st, begin), rest, begin.id, p)
    ensures var end := Run(Next(st, begin), rest);
      && begin.id in end.calls && p in end.peers
      && (Over(end.calls[begin.id]) ==> h in end.peers[p].known)
  {
    RunKeepsComing(Next(st, begin), rest, begin.id, p, h);
  }

  // ---- What is known was queued or came from the peer ----

  predicate CameFrom(e: Step, p: PeerId, h: Hash) {
    e.Begin? && !e.force && e.source == Some(p) && h in e.txs
  }

  // An earlier broadcast, not forced, that came from the peer and carried the hash.
  ghost predicate Sourced(past: seq<Step>, p: PeerId, h: Hash) {
    exists i :: 0 <= i < |past| && CameFrom(past[i], p, h)
  }

  lemma SourcedMore(past: seq<Step>, e: Step, p: PeerId, h: Hash)
    ensures Sourced(past + [e], p, h) <==> Sourced(past, p, h) || CameFrom(e, p, h)
  {
    assert (past + [e])[|past|] == e;
    if Sourced(past, p, h) {
      var i :| 0 <= i < |past| && CameFrom(past[i], p, h);
      assert (past + [e])[i] == past[i];
    }
  }

  ghost predicate PeerTraced(p: PeerId, peer: Peer, past: seq<Step>) {
    Flowing(peer) && forall h :: h in peer.known ==> h in peer.enqueued || Sourced(past, p, h)
  }

  ghost predicate CallTraced(peers: map<PeerId, Peer>, c: Call, past: seq<Step>) {
    && (forall h :: h in c.marking ==> c.to in peers && h in peers[c.to].enqueued)
    && (forall p, h :: c.source == Some(p) && !c.force && h in c.todo ==> Sourced(past, p, h))
  }

  ghost predicate Traced(st: State, past: seq<Step>) {
    && (forall p :: p in st.peers ==> PeerTraced(p, st.peers[p], past))
    && (forall id :: id in st.calls ==> CallTraced(st.peers, st.calls[id], past))
  }

  lemma QuietPeerTraced(p: PeerId, peer: Peer, past: seq<Step>, e: Step)
    requires PeerTraced(p, peer, past)
    ensures PeerTraced(p, peer, past + [e])
  {
    forall h | h in peer.known ensures h in peer.enqueued || Sourced(past + [e], p, h) {
      SourcedMore(past, e, p, h);
    }
  }

  // The peer a step touches.
  lemma LookTraced(st: State, past: seq<Step>, id: nat, p: PeerId)
    requires Traced(st, past) && Possible(st, Look(id, p))
    ensures PeerTraced(p, Next(st, Look(id, p)).peers[p], past)
  {
    var c := st.calls[id];
    assert PeerTraced(p, st.peers[p], past) && CallTraced(st.peers, c, past);
    OneHash(c.todo[0]);
    assert c.todo[0] in c.todo;
  }

  lemma SendTraced(st: State, past: seq<Step>, id: nat, p: PeerId)
    requires Traced(st, past) && Possible(st, Send(id, p))
    ensures PeerTraced(p, Next(st, Send(id, p)).peers[p], past)
  {
    assert PeerTraced(p, st.peers[p], past);
    if HasRoom(st.peers[p]) {
      QueueKeepsFlowing(st.peers[p], st.calls[id].batches[p]);
    }
  }

  lemma MarkTraced(st: State, past: seq<Step>, id: nat)
    requires Traced(st, past) && Possible(st, Mark(id))
    ensures PeerTraced(st.calls[id].to, Next(st, Mark(id)).peers[st.calls[id].to], past)
  {
    var c := st.calls[id];
    assert PeerTraced(c.to, st.peers[c.to], past) && CallTraced(st.peers, c, past);
    assert c.marking[0] in c.marking;
  }

  lemma LoopTraced(st: State, past: seq<Step>, e: Step)
    requires Traced(st, past) && Possible(st, e) && (e.Take? || e.Echo? || e.Transmit?)
    ensures PeerTraced(e.p, Next(st, e).peers[e.p], past)
  {
    var peer := st.peers[e.p];
    assert PeerTraced(e.p, peer, past);
    match e
    case Take(p) => TakeKeepsFlowing(peer);
    case Echo(p) =>
      assert peer.taken[peer.marked] in peer.taken;
      assert peer.taken[peer.marked] in peer.enqueued;
    case Transmit(p) => TransmitKeepsFlowing(peer);
  }

  lemma PeersStayTraced(st: State, past: seq<Step>, e: Step, p: PeerId)
    requires Traced(st, past) && Possible(st, e) && p in Next(st, e).peers
    ensures PeerTraced(p, Next(st, e).peers[p], past + [e])
  {
    assert p in st.peers ==> PeerTraced(p, st.peers[p], past);
    match e {
      case Look(id, q) => LookTraced(st, past, id, q);
      case Send(id, q) => SendTraced(st, past, id, q);
      case Mark(id) => MarkTraced(st, past, id);
      case Take(q) => LoopTraced(st, past, e);
      case Echo(q) => LoopTraced(st, past, e);
      case Transmit(q) => LoopTraced(st, past, e);
      case _ =>
    }
    QuietPeerTraced(p, Next(st, e).peers[p], past, e);
  }

  lemma QueuedStays(st: State, e: Step, p: PeerId, h: Hash)
    requires Possible(st, e) && p in st.peers && h in st.peers[p].enqueued
    ensures p in Next(st, e).peers && h in Next(st, e).peers[p].enqueued
  {
  }

  lemma MarkingStaysQueued(st: State, past: seq<Step>, e: Step, id: nat, h: Hash)
    requires Traced(st, past) && Possible(st, e) && id in Next(st, e).calls && h in Next(st, e).calls[id].marking
    ensures var to := Next(st, e).calls[id].to;
      to in Next(st, e).peers && h in Next(st, e).peers[to].enqueued
  {
    if id in st.calls {
      var c := st.calls[id];
      assert CallTraced(st.peers, c, past);
      if h in c.marking && c.to == Next(st, e).calls[id].to {
        QueuedStays(st, e, c.to, h);
      }
    }
  }

  lemma TodoStaysSourced(st: State, past: seq<Step>, e: Step, id: nat, p: PeerId, h: Hash)
    requires Traced(st, past) && Possible(st, e) && id in Next(st, e).calls
    requires var c := Next(st, e).calls[id]; c.source == Some(p) && !c.force && h in c.todo
    ensures Sourced(past + [e], p, h)
  {
    SourcedMore(past, e, p, h);
    if id in st.calls {
      assert CallTraced(st.peers, st.calls[id], past);
      assert h in st.calls[id].todo;
    }
  }

  lemma StepKeepsTraced(st: State, past: seq<Step>, e: Step)
    requires Traced(st, past) && Possible(st, e)
    ensures Traced(Next(st, e), past + [e])
  {
    var next := Next(st, e);
    forall p | p in next.peers ensures PeerTraced(p, next.peers[p], past + [e]) {
      PeersStayTraced(st, past, e, p);
    }
    forall id | id in next.calls ensures CallTraced(next.peers, next.calls[id], past + [e]) {
      var c := next.calls[id];
      forall h | h in c.marking ensures c.to in next.peers && h in next.peers[c.to].enqueued {
        MarkingStaysQueued(st, past, e, id, h);
      }
      forall p, h | c.source == Some(p) && !c.force && h in c.todo ensures Sourced(past + [e], p, h) {
        TodoStaysSourced(st, past, e, id, p, h);
      }
    }
  }

  lemma {:induction false} RunKeepsTraced(st: State, past: seq<Step>, steps: seq<Step>)
    requires Traced(st, past) && IsRun(st, steps)
    ensures Traced(Run(st, steps), past + steps)
    decreases |steps|
  {
    if steps == [] {
      assert past + steps == past;
    } else {
      StepKeepsTraced(st, past, steps[0]);
      RunKeepsTraced(Next(st, steps[0]), past + [steps[0]], steps[1..]);
      assert past + [steps[0]] + steps[1..] == past + steps;
    }
  }

  // In every run, clashing or not, a peer is taken to know only what was queued to it or came from
  // it, and what was queued has been sent, is being sent, or waits, in that order.
  lemma KnownIsQueuedOrSourced(steps: seq<Step>, p: PeerId)
    requires IsRun(START, steps) && p in Run(START, steps).peers
    ensures var peer := Run(START, steps).peers[p];
      && (forall h :: h in peer.known ==> h in peer.enqueued || Sourced(steps, p, h))
      && peer.enqueued == peer.sent + peer.taken + Flat(peer.queue)
  {
    RunKeepsTraced(START, [], steps);
    assert [] + steps == steps;
    assert PeerTraced(p, Run(START, steps).peers[p], steps);
  }

  // Together: a broadcast that is over has had each of its hashes queued to every peer that was
  // there, by itself or by another, except where the hash came from the peer or its queue was full.
  lemma BroadcastDelivers(before: seq<Step>, begin: Step, rest: seq<Step>, p: PeerId, h: Hash)
    requires IsRun(START, before) && begin.Begin? && Possible(Run(START, before), begin)
    requires IsRun(Next(Run(START, before), begin), rest)
    requires p in Run(START, before).peers && h in begin.txs
    requires AlwaysMeets(Next(Run(START, before), begin), rest, begin.id, p)
    ensures var end := Run(Next(Run(START, before), begin), rest);
      begin.id in end.calls && Over(end.calls[begin.id]) ==>
        p in end.peers && (h in end.peers[p].enqueued || Sourced(before + ([begin] + rest), p, h))
  {
    var st := Run(START, before);
    BroadcastReaches(st, begin, rest, p, h);
    RunCons(st, begin, rest);
    RunConcat(START, before, [begin] + rest);
    KnownIsQueuedOrSourced(before + ([begin] + rest), p);
  }
}
