/** `Nonce`: one queue of admitted transactions per account, and the nonce gate
    of `ValidateTx` that reads its back. */
module NonceQueues {
  import opened Models

  type Queue = seq<Transaction>

  function QueueOf(cache: map<string, Queue>, account: string): Queue {
    if account in cache then cache[account] else []
  }

  // ---- Reference operations on one queue ----

  // What getNonceCache reports.
  function CachedNonce(q: Queue): uint64 {
    if q == [] then 0 else q[|q| - 1].nonce
  }

  // Drop from the back what is above the nonce.
  function DropTop(q: Queue, nonce: uint64): Queue {
    if q != [] && q[|q| - 1].nonce > nonce then DropTop(q[..|q| - 1], nonce) else q
  }

  // Drop from the front what is below the nonce, but never the last entry.
  function DropBottom(q: Queue, nonce: uint64): Queue {
    if |q| != 1 && q != [] && q[0].nonce < nonce then DropBottom(q[1..], nonce) else q
  }

  function Pushed(q: Queue, tx: Transaction): Queue {
    if q != [] && tx.nonce < q[0].nonce then q else q + [tx]
  }

  // The gate: the only nonce let through is the larger of the stored and the cached one.
  function Gate(stateNonce: uint64, cached: uint64, nonce: uint64): Option<Error> {
    if nonce < stateNonce then Some(NonceTooLow)
    else if nonce != (if cached > stateNonce then cached else stateNonce) then Some(NonceTooHigh)
    else None
  }

  // ---- Properties ----

  ghost predicate NonDecreasing(q: Queue) {
    forall i, j :: 0 <= i < j < |q| ==> q[i].nonce <= q[j].nonce
  }

  // k entries stay, and they are exactly those at or below the nonce.
  ghost predicate SplitsAt(q: Queue, nonce: uint64, k: nat) {
    && k <= |q|
    && (forall i :: 0 <= i < k ==> q[i].nonce <= nonce)
    && (forall i :: k <= i < |q| ==> q[i].nonce > nonce)
  }

  // DeleteErrTx keeps exactly the entries at or below the failed nonce.
  lemma {:induction false} DropTopKeepsExactly(q: Queue, nonce: uint64)
    requires NonDecreasing(q)
    ensures SplitsAt(q, nonce, |DropTop(q, nonce)|) && DropTop(q, nonce) == q[..|DropTop(q, nonce)|]
  {
    if q != [] && q[|q| - 1].nonce > nonce {
      var front := q[..|q| - 1];
      DropTopKeepsExactly(front, nonce);
      var k := |DropTop(front, nonce)|;
      forall i | 0 <= i < |q| ensures i < k <==> q[i].nonce <= nonce {
        if i < |q| - 1 { assert q[i] == front[i]; }
      }
    } else {
      assert q[..|q|] == q;
    }
  }

  // Where DropBottom cuts.
  lemma {:induction false} DropBottomCut(q: Queue, nonce: uint64) returns (k: nat)
    ensures k <= |q| && DropBottom(q, nonce) == q[k..] && (q != [] ==> k < |q|)
    ensures forall i :: 0 <= i < k ==> q[i].nonce < nonce
    ensures k + 1 < |q| ==> q[k].nonce >= nonce
  {
    k := 0;
    if |q| > 1 && q[0].nonce < nonce {
      var rest := DropBottomCut(q[1..], nonce);
      k := rest + 1;
      assert q[k..] == q[1..][rest..];
      forall i | 0 < i < k ensures q[i].nonce < nonce {
        assert q[i] == q[1..][i - 1];
      }
    }
  }

  // DeleteOkTx keeps a suffix that still has the old back, and drops only lower nonces;
  // what it reports as the cached nonce never changes.
  lemma DropBottomKeepsBack(q: Queue, nonce: uint64)
    ensures var d := DropBottom(q, nonce);
      && |d| <= |q| && d == q[|q| - |d|..]
      && (q != [] ==> d != [])
      && CachedNonce(d) == CachedNonce(q)
      && (forall i :: 0 <= i < |q| - |d| ==> q[i].nonce < nonce)
      && (|d| > 1 ==> d[0].nonce >= nonce)
  {
    var k := DropBottomCut(q, nonce);
  }

  // The queue is empty, the transaction is dropped, or its nonce is not below the back.
  predicate PushFits(q: Queue, tx: Transaction) {
    q == [] || tx.nonce < q[0].nonce || tx.nonce >= CachedNonce(q)
  }

  // These are exactly the pushes that keep the order.
  lemma PushKeepsOrder(q: Queue, tx: Transaction)
    requires NonDecreasing(q)
    ensures NonDecreasing(Pushed(q, tx))
      <==> PushFits(q, tx)
  {
    var p := Pushed(q, tx);
    if q != [] && tx.nonce >= q[0].nonce {
      assert p[|q|] == tx && p[|q| - 1] == q[|q| - 1];
    }
  }

  // Without it the queue stops being usable: a later DeleteErrTx misses a higher nonce.
  lemma OutOfOrderPushBreaks(five: Transaction, seven: Transaction, six: Transaction)
    requires five.nonce == 5 && seven.nonce == 7 && six.nonce == 6
    ensures var q := Pushed(Pushed(Pushed([], five), seven), six);
      !NonDecreasing(q) && seven in DropTop(q, 6)
  {
    var q := Pushed(Pushed(Pushed([], five), seven), six);
    assert q == [five, seven, six];
    assert q[1].nonce > q[2].nonce;
    assert DropTop(q, 6) == q && q[1] == seven;
  }

  // What is dropped instead lies below everything queued.
  lemma PushExactly(q: Queue, tx: Transaction)
    requires NonDecreasing(q)
    ensures Pushed(q, tx) == if q == [] || exists x :: x in q && x.nonce <= tx.nonce then q + [tx] else q
  {
    if q != [] {
      assert q[0] in q;
      forall x | x in q ensures q[0].nonce <= x.nonce {
        var i :| 0 <= i < |q| && q[i] == x;
      }
    }
  }

  // The one nonce let through is the largest of the stored one and those queued; where nothing is
  // queued it is the stored one.
  lemma GateExactly(q: Queue, stateNonce: uint64, nonce: uint64)
    requires NonDecreasing(q)
    ensures var err := Gate(stateNonce, CachedNonce(q), nonce);
      && (err.None? <==> nonce >= stateNonce && (forall x :: x in q ==> nonce >= x.nonce)
                         && (nonce == stateNonce || exists x :: x in q && nonce == x.nonce))
      && (err == Some(NonceTooLow) <==> nonce < stateNonce)
      && (err.Some? && nonce >= stateNonce ==> err == Some(NonceTooHigh))
  {
    if q != [] {
      var back := q[|q| - 1];
      assert back in q;
      forall x | x in q ensures x.nonce <= back.nonce {
        var i :| 0 <= i < |q| && q[i] == x;
      }
    }
  }

  // An admitted nonce is the queue's new back.
  lemma AdmittedIsBack(q: Queue, stateNonce: uint64, tx: Transaction)
    requires NonDecreasing(q) && Gate(stateNonce, CachedNonce(q), tx.nonce).None?
    ensures Pushed(q, tx) == q + [tx] && NonDecreasing(Pushed(q, tx)) && CachedNonce(Pushed(q, tx)) == tx.nonce
  {
    PushKeepsOrder(q, tx);
  }

  // After an admission the gate lets exactly the same nonce through again until the stored
  // nonce passes it, and from then on exactly the stored one.
  lemma GateAfterAdmission(q: Queue, stateNonce: uint64, tx: Transaction, laterState: uint64, nonce: uint64)
    requires NonDecreasing(q) && Gate(stateNonce, CachedNonce(q), tx.nonce).None?
    ensures Gate(laterState, CachedNonce(Pushed(q, tx)), nonce).None?
      <==> nonce == (if laterState <= tx.nonce then tx.nonce else laterState)
  {
    AdmittedIsBack(q, stateNonce, tx);
  }

  // ---- Runs over all accounts ----

  datatype Event =
    | Admit(stateNonce: uint64, tx: Transaction)  // ValidateTx; the gate may refuse
    | Prepared(tx: Transaction)                   // Prepare's push
    | DeleteOk(tx: Transaction)
    | DeleteErr(tx: Transaction)

  // The sender's queue after an event.
  function Own(q: Queue, e: Event): Queue {
    match e
    case Admit(stateNonce, tx) => if Gate(stateNonce, CachedNonce(q), tx.nonce).None? then Pushed(q, tx) else q
    case Prepared(tx) => Pushed(q, tx)
    case DeleteOk(tx) => DropBottom(q, tx.nonce)
    case DeleteErr(tx) => DropTop(q, tx.nonce)
  }

  function Step(cache: map<string, Queue>, e: Event): map<string, Queue> {
    cache[e.tx.from := Own(QueueOf(cache, e.tx.from), e)]
  }

  function Run(cache: map<string, Queue>, events: seq<Event>): map<string, Queue>
    decreases |events|
  {
    if events == [] then cache else Run(Step(cache, events[0]), events[1..])
  }

  // The one obligation on callers: Prepare pushes only what fits.
  predicate PushesFit(cache: map<string, Queue>, events: seq<Event>)
    decreases |events|
  {
    events != [] ==>
      && (events[0].Prepared? ==> PushFits(QueueOf(cache, events[0].tx.from), events[0].tx))
      && PushesFit(Step(cache, events[0]), events[1..])
  }

  // What an event makes of its sender's queue.
  ghost predicate Becomes(q: Queue, q': Queue, e: Event) {
    match e
    case Admit(stateNonce, tx) => q' == if Gate(stateNonce, CachedNonce(q), tx.nonce).None? then q + [tx] else q
    case Prepared(tx) => q' == if q == [] || exists x :: x in q && x.nonce <= tx.nonce then q + [tx] else q
    case DeleteOk(tx) =>
      |q'| <= |q| && q' == q[|q| - |q'|..] && forall i :: 0 <= i < |q| - |q'| ==> q[i].nonce < tx.nonce
    case DeleteErr(tx) => q' <= q && SplitsAt(q, tx.nonce, |q'|)
  }

  lemma QueueBecomes(q: Queue, e: Event)
    requires NonDecreasing(q)
    ensures Becomes(q, Own(q, e), e)
  {
    match e
    case Admit(stateNonce, tx) =>
      if Gate(stateNonce, CachedNonce(q), tx.nonce).None? {
        AdmittedIsBack(q, stateNonce, tx);
      }
    case Prepared(tx) => PushExactly(q, tx);
    case DeleteOk(tx) => DropBottomKeepsBack(q, tx.nonce);
    case DeleteErr(tx) => DropTopKeepsExactly(q, tx.nonce);
  }

  // An event is about its sender's queue alone, and only an admission or a push puts anything in.
  lemma StepExactly(cache: map<string, Queue>, e: Event, account: string)
    requires NonDecreasing(QueueOf(cache, e.tx.from))
    ensures var q, q' := QueueOf(cache, account), QueueOf(Step(cache, e), account);
      if account == e.tx.from then Becomes(q, q', e) else q' == q
  {
    if account == e.tx.from {
      QueueBecomes(QueueOf(cache, account), e);
    }
  }

  ghost predicate AllOrdered(cache: map<string, Queue>) {
    forall a :: a in cache ==> NonDecreasing(cache[a])
  }

  // Every queue is in order at every moment of the run.
  ghost predicate OrderedThroughout(cache: map<string, Queue>, events: seq<Event>)
    decreases |events|
  {
    AllOrdered(cache) && (events != [] ==> OrderedThroughout(Step(cache, events[0]), events[1..]))
  }

  lemma SliceKeepsOrder(q: Queue, from: nat, to: nat)
    requires NonDecreasing(q) && from <= to <= |q|
    ensures NonDecreasing(q[from..to])
  {
  }

  lemma DropsKeepOrder(q: Queue, nonce: uint64)
    requires NonDecreasing(q)
    ensures NonDecreasing(DropTop(q, nonce)) && NonDecreasing(DropBottom(q, nonce))
  {
    DropTopKeepsExactly(q, nonce);
    DropBottomKeepsBack(q, nonce);
    SliceKeepsOrder(q, 0, |DropTop(q, nonce)|);
    SliceKeepsOrder(q, |q| - |DropBottom(q, nonce)|, |q|);
  }

  // One event keeps the queues in order exactly if a push by Prepare fits.
  lemma StepKeepsOrder(cache: map<string, Queue>, e: Event)
    requires AllOrdered(cache)
    ensures AllOrdered(Step(cache, e)) <==> (e.Prepared? ==> PushFits(QueueOf(cache, e.tx.from), e.tx))
  {
    var q, after := QueueOf(cache, e.tx.from), Step(cache, e);
    PushKeepsOrder(q, e.tx);
    DropsKeepOrder(q, e.tx.nonce);
    assert e.tx.from in after ==> after[e.tx.from] == QueueOf(after, e.tx.from);
    forall a | a in after && a != e.tx.from ensures NonDecreasing(after[a]) {
      assert after[a] == cache[a];
    }
  }

  // Over a run every queue is always non-decreasing exactly when Prepare's pushes fit.
  lemma {:induction false} RunKeepsOrder(cache: map<string, Queue>, events: seq<Event>)
    requires AllOrdered(cache)
    ensures OrderedThroughout(cache, events) <==> PushesFit(cache, events)
    ensures PushesFit(cache, events) ==> AllOrdered(Run(cache, events))
    decreases |events|
  {
    if events != [] {
      StepKeepsOrder(cache, events[0]);
      if AllOrdered(Step(cache, events[0])) {
        RunKeepsOrder(Step(cache, events[0]), events[1..]);
      }
    }
  }

  // Then its back, the reported nonce, is its maximum.
  lemma BackIsMaximum(cache: map<string, Queue>, events: seq<Event>, account: string, i: nat)
    requires AllOrdered(cache) && PushesFit(cache, events) && i < |QueueOf(Run(cache, events), account)|
    ensures QueueOf(Run(cache, events), account)[i].nonce <= CachedNonce(QueueOf(Run(cache, events), account))
  {
    RunKeepsOrder(cache, events);
    assert account in Run(cache, events);
  }

  // ---- The cache itself ----

  class NonceCache {
    var queues: map<string, Queue>

    constructor ()
      ensures queues == map[]
    {
      queues := map[];
    }

    method PopTopNonce(stack: Queue, nonce: uint64) returns (q: Queue)
      ensures q == DropTop(stack, nonce)
      decreases |stack|
    {
      q := stack;
      if |stack| > 0 {
        var back := stack[|stack| - 1];
        if back.nonce > nonce {
          q := PopTopNonce(stack[..|stack| - 1], nonce);
        }
      }
    }

    method DeleteErrTx(tx: Transaction)
      modifies this
      ensures forall a :: QueueOf(queues, a) == QueueOf(Step(old(queues), DeleteErr(tx)), a)
    {
      if tx.from in queues {
        var q := PopTopNonce(queues[tx.from], tx.nonce);
        queues := queues[tx.from := q];
      }
    }

    method PopBottomNonce(stack: Queue, nonce: uint64) returns (q: Queue)
      ensures q == DropBottom(stack, nonce)
      decreases |stack|
    {
      q := stack;
      if |stack| == 1 {
        return;
      }
      if |stack| > 0 {
        var front := stack[0];
        if front.nonce < nonce {
          q := PopBottomNonce(stack[1..], nonce);
        }
      }
    }

    method DeleteOkTx(tx: Transaction)
      modifies this
      ensures forall a :: QueueOf(queues, a) == QueueOf(Step(old(queues), DeleteOk(tx)), a)
    {
      if tx.from in queues {
        var q := PopBottomNonce(queues[tx.from], tx.nonce);
        queues := queues[tx.from := q];
      }
    }

    // An account asked about for the first time gets an empty queue.
    method GetNonceCache(account: string) returns (nonce: uint64, ok: bool)
      modifies this
      ensures nonce == CachedNonce(QueueOf(old(queues), account)) && ok == (account in old(queues))
      ensures queues == old(queues)[account := QueueOf(old(queues), account)]
    {
      if account !in queues {
        queues := queues[account := []];
        return 0, false;
      }
      var q := queues[account];
      if |q| == 0 {
        return 0, true;
      }
      return q[|q| - 1].nonce, true;
    }

    method Push(tx: Transaction)
      modifies this
      ensures queues == Step(old(queues), Prepared(tx))
    {
      var que := [];
      if tx.from in queues {
        que := queues[tx.from];
        if |que| > 0 && tx.nonce < que[0].nonce {
          return;
        }
      }
      queues := queues[tx.from := que + [tx]];
    }

    // The nonce part of ValidateTx, for a transaction whose interpreter check has the given result.
    method ValidateNonce(tx: Transaction, stateNonce: uint64, verified: Option<Error>) returns (err: Option<Error>)
      modifies this
      ensures err == (var g := Gate(stateNonce, CachedNonce(QueueOf(old(queues), tx.from)), tx.nonce);
                      if g.Some? then g else verified)
      ensures var expected := if err.None? then Step(old(queues), Admit(stateNonce, tx)) else old(queues);
        forall a :: QueueOf(queues, a) == QueueOf(expected, a)
    {
      if tx.nonce < stateNonce {
        return Some(NonceTooLow);
      }
      var nonce := stateNonce;
      var nonceCache, _ := GetNonceCache(tx.from);
      if nonceCache > nonce {
        nonce := nonceCache;
      }
      if tx.nonce != nonce {
        return Some(NonceTooHigh);
      }
      if verified.Some? {
        return verified;
      }
      Push(tx);
      return None;
    }
  }
}
