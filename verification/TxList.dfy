/** `txList`: the per-account list over `txSortedMap`, with the two
    over-approximating caps, the strict mode and the price-bump rule.
    ListState and Apply are its reference; the class refines them. */
module TxLists {
  import opened Models
  import opened TxSequences
  import opened SortedMaps

  datatype ListState = ListState(strict: bool, txs: seq<Transaction>, costCap: int, gasCap: uint64)

  // The caps bound every transaction held; this is what makes Filter's early exit sound.
  ghost predicate Covered(st: ListState) {
    forall i :: 0 <= i < |st.txs| ==> st.txs[i].Cost() <= st.costCap && st.txs[i].gasLimit <= st.gasCap
  }

  ghost predicate WellFormed(st: ListState) {
    Ascending(st.txs) && Covered(st)
  }

  // ---- Replacement ----

  function BumpThreshold(oldPrice: uint64, priceBump: uint64): uint64 {
    Wrap(oldPrice * Wrap(100 + priceBump)) / 100
  }

  predicate Outbids(oldPrice: uint64, newPrice: uint64, priceBump: uint64) {
    !(oldPrice >= newPrice || BumpThreshold(oldPrice, priceBump) > newPrice)
  }

  // The rule as meant: strictly dearer, and by at least the bump, without wrap-around.
  predicate OutbidsUnbounded(oldPrice: uint64, newPrice: uint64, priceBump: uint64) {
    newPrice > oldPrice && newPrice >= oldPrice * (100 + priceBump) / 100
  }

  lemma MulOrdered(a: nat, b: nat, c: nat)
    requires b <= c
    ensures a * b <= a * c && a * b >= 0
  {
  }

  // The two wrap-arounds of the threshold come to one.
  lemma BumpThresholdWraps(oldPrice: uint64, priceBump: uint64)
    ensures BumpThreshold(oldPrice, priceBump) == Wrap(oldPrice * (100 + priceBump)) / 100
  {
    var factor: int := 100 + priceBump;
    var q := factor / TWO_TO_64;
    assert factor == Wrap(factor) + q * TWO_TO_64;
    assert oldPrice * (Wrap(factor) + q * TWO_TO_64) == oldPrice * Wrap(factor) + oldPrice * q * TWO_TO_64;
    WrapMultiple(oldPrice * Wrap(factor), oldPrice * q);
  }

  // The threshold is never above the meant one, and equals it exactly when the product fits.
  lemma BumpThresholdAtMost(oldPrice: uint64, priceBump: uint64)
    ensures BumpThreshold(oldPrice, priceBump) <= oldPrice * (100 + priceBump) / 100
    ensures BumpThreshold(oldPrice, priceBump) == oldPrice * (100 + priceBump) / 100
      <==> oldPrice * (100 + priceBump) <= MAX_UINT64
  {
    var product: int := oldPrice * (100 + priceBump);
    MulOrdered(oldPrice, 0, 100 + priceBump);
    BumpThresholdWraps(oldPrice, priceBump);
    WrapAtMost(product);
    if product > MAX_UINT64 {
      WrapMultiple(product, -1);
      WrapAtMost(product - TWO_TO_64);
    }
  }

  // Where the product overflows, the meant threshold asks for more than one unit.
  lemma OverflowBinds(oldPrice: uint64, priceBump: uint64)
    requires priceBump > 0 && oldPrice * (100 + priceBump) > MAX_UINT64
    ensures oldPrice * (100 + priceBump) / 100 > oldPrice + 1
  {
    assert oldPrice * (100 + priceBump) == oldPrice * 100 + oldPrice * priceBump;
    if oldPrice >= 200 {
      MulOrdered(oldPrice, 1, priceBump);
    } else {
      MulOrdered(priceBump, oldPrice, 200);
    }
  }

  // For an old price and a bump, the wrapping rule is the intended one at every new price exactly
  // when the product does not overflow, no bump is asked for, or no higher price exists.
  lemma BumpRuleExact(oldPrice: uint64, priceBump: uint64)
    ensures (forall newPrice: uint64 ::
               Outbids(oldPrice, newPrice, priceBump) <==> OutbidsUnbounded(oldPrice, newPrice, priceBump))
       <==> (oldPrice * (100 + priceBump) <= MAX_UINT64 || priceBump == 0 || oldPrice == MAX_UINT64)
  {
    var wrapped: int, meant: int := BumpThreshold(oldPrice, priceBump), oldPrice * (100 + priceBump) / 100;
    BumpThresholdAtMost(oldPrice, priceBump);
    if priceBump > 0 && oldPrice * (100 + priceBump) > MAX_UINT64 && oldPrice < MAX_UINT64 {
      OverflowBinds(oldPrice, priceBump);
      var price: uint64 := if wrapped > oldPrice then wrapped else oldPrice + 1;
      assert Outbids(oldPrice, price, priceBump) && !OutbidsUnbounded(oldPrice, price, priceBump);
    }
  }

  // It does differ: at 2^63 the ten per cent bump wraps and one unit more is enough.
  lemma BumpRuleWraps()
    ensures Outbids(0x8000_0000_0000_0000, 0x8000_0000_0000_0001, 10)
    ensures !OutbidsUnbounded(0x8000_0000_0000_0000, 0x8000_0000_0000_0001, 10)
  {
    assert 0x8000_0000_0000_0000 * 110 % TWO_TO_64 == 0;
  }

  // ---- Filter ----

  predicate TooDear(costLimit: int, gasLimit: uint64, tx: Transaction) {
    tx.Cost() > costLimit || tx.gasLimit > gasLimit
  }

  function DearFilter(costLimit: int, gasLimit: uint64): Transaction -> bool {
    (tx: Transaction) => TooDear(costLimit, gasLimit, tx)
  }

  function AboveFilter(nonce: uint64): Transaction -> bool {
    (tx: Transaction) => tx.nonce > nonce
  }

  datatype Filtered = Filtered(removed: seq<Transaction>, invalids: seq<Transaction>, kept: seq<Transaction>)

  // The full scan, without the early exit.
  function FullScan(strict: bool, txs: seq<Transaction>, costLimit: int, gasLimit: uint64): Filtered {
    var dear := DearFilter(costLimit, gasLimit);
    var removed, kept := Select(txs, dear), Reject(txs, dear);
    if strict && removed != [] then
      var above := AboveFilter(removed[0].nonce);
      Filtered(removed, Select(kept, above), Reject(kept, above))
    else
      Filtered(removed, [], kept)
  }

  ghost predicate Within(costLimit: int, gasLimit: uint64, tx: Transaction) {
    tx.Cost() <= costLimit && tx.gasLimit <= gasLimit
  }

  // No transaction under the nonce is outside the limits.
  ghost predicate CleanBelow(txs: seq<Transaction>, costLimit: int, gasLimit: uint64, nonce: uint64) {
    forall y :: y in txs && y.nonce < nonce ==> Within(costLimit, gasLimit, y)
  }

  // What a filter leaves, by its purpose: held and within the limits, and in a strict list
  // nothing below it is outside them.
  ghost predicate Survives(strict: bool, txs: seq<Transaction>, costLimit: int, gasLimit: uint64, x: Transaction) {
    && x in txs
    && Within(costLimit, gasLimit, x)
    && (strict ==> CleanBelow(txs, costLimit, gasLimit, x.nonce))
  }

  // What is kept survives, what is removed is outside the limits, and only a strict list
  // invalidates anything else.
  ghost predicate FiltersInto(strict: bool, txs: seq<Transaction>, costLimit: int, gasLimit: uint64,
                         kept: seq<Transaction>, removed: seq<Transaction>, invalids: seq<Transaction>)
  {
    && (forall x :: x in kept <==> Survives(strict, txs, costLimit, gasLimit, x))
    && (forall x :: x in removed <==> x in txs && !Within(costLimit, gasLimit, x))
    && (!strict ==> invalids == [])
  }

  lemma {:induction false} NothingSelected(s: seq<Transaction>, filter: Transaction -> bool)
    requires forall i :: 0 <= i < |s| ==> !filter(s[i])
    ensures Select(s, filter) == [] && Reject(s, filter) == s
  {
    if s != [] {
      NothingSelected(s[1..], filter);
    }
  }

  // When the caps are within the limits, a full scan would remove nothing.
  lemma ShortcutSound(st: ListState, costLimit: int, gasLimit: uint64)
    requires Covered(st) && st.costCap <= costLimit && st.gasCap <= gasLimit
    ensures FullScan(st.strict, st.txs, costLimit, gasLimit) == Filtered([], [], st.txs)
  {
    NothingSelected(st.txs, DearFilter(costLimit, gasLimit));
  }

  // Removed, invalid and kept transactions partition the old contents; the removed are
  // exactly the too dear ones.
  lemma FullScanPartitions(strict: bool, txs: seq<Transaction>, costLimit: int, gasLimit: uint64)
    ensures var f := FullScan(strict, txs, costLimit, gasLimit);
      multiset(f.removed + f.invalids) + multiset(f.kept) == multiset(txs)
    ensures var f := FullScan(strict, txs, costLimit, gasLimit);
      forall x :: x in f.removed <==> x in txs && TooDear(costLimit, gasLimit, x)
  {
    var dear := DearFilter(costLimit, gasLimit);
    FilterPartitions(txs, dear);
    FilterMembers(txs, dear);
    var removed, kept := Select(txs, dear), Reject(txs, dear);
    if strict && removed != [] {
      FilterPartitions(kept, AboveFilter(removed[0].nonce));
    }
  }

  lemma FirstIsLowest(s: seq<Transaction>, x: Transaction)
    requires Ascending(s) && x in s
    ensures s[0].nonce <= x.nonce
  {
    var i :| 0 <= i < |s| && s[i] == x;
  }

  lemma LowestBounds(txs: seq<Transaction>, costLimit: int, gasLimit: uint64, removed: seq<Transaction>, nonce: uint64)
    requires Ascending(removed) && removed != []
    requires forall x :: x in removed <==> x in txs && TooDear(costLimit, gasLimit, x)
    ensures CleanBelow(txs, costLimit, gasLimit, nonce) <==> nonce <= removed[0].nonce
  {
    assert removed[0] in removed;
    if nonce <= removed[0].nonce {
      forall y | y in txs && y.nonce < nonce ensures Within(costLimit, gasLimit, y) {
        if y in removed {
          FirstIsLowest(removed, y);
        }
      }
    }
  }

  // The scan keeps exactly what survives.
  lemma ScanKeeps(strict: bool, txs: seq<Transaction>, costLimit: int, gasLimit: uint64, x: Transaction)
    requires Ascending(txs)
    ensures x in FullScan(strict, txs, costLimit, gasLimit).kept <==> Survives(strict, txs, costLimit, gasLimit, x)
  {
    var dear := DearFilter(costLimit, gasLimit);
    var removed, kept := Select(txs, dear), Reject(txs, dear);
    FilterMembers(txs, dear);
    FilterKeepsOrder(txs, dear);
    if strict && removed != [] {
      FilterMembers(kept, AboveFilter(removed[0].nonce));
      LowestBounds(txs, costLimit, gasLimit, removed, x.nonce);
    }
  }

  lemma FullScanExactly(strict: bool, txs: seq<Transaction>, costLimit: int, gasLimit: uint64)
    requires Ascending(txs)
    ensures var f := FullScan(strict, txs, costLimit, gasLimit);
      FiltersInto(strict, txs, costLimit, gasLimit, f.kept, f.removed, f.invalids)
  {
    var f := FullScan(strict, txs, costLimit, gasLimit);
    FilterMembers(txs, DearFilter(costLimit, gasLimit));
    forall x ensures x in f.kept <==> Survives(strict, txs, costLimit, gasLimit, x) {
      ScanKeeps(strict, txs, costLimit, gasLimit, x);
    }
  }

  // Position of the first too dear transaction.
  function FirstDear(txs: seq<Transaction>, costLimit: int, gasLimit: uint64): (k: nat)
    ensures k <= |txs|
  {
    if txs == [] || TooDear(costLimit, gasLimit, txs[0]) then 0
    else 1 + FirstDear(txs[1..], costLimit, gasLimit)
  }

  lemma {:induction false} SelectConcat(s: seq<Transaction>, t: seq<Transaction>, filter: Transaction -> bool)
    ensures Select(s + t, filter) == Select(s, filter) + Select(t, filter)
  {
    if s == [] {
      assert s + t == t;
    } else {
      SelectConcat(s[1..], t, filter);
      assert (s + t)[1..] == s[1..] + t;
      var head := if filter(s[0]) then [s[0]] else [];
      assert head + (Select(s[1..], filter) + Select(t, filter)) == head + Select(s[1..], filter) + Select(t, filter);
    }
  }

  lemma {:induction false} RejectConcat(s: seq<Transaction>, t: seq<Transaction>, filter: Transaction -> bool)
    ensures Reject(s + t, filter) == Reject(s, filter) + Reject(t, filter)
  {
    if s == [] {
      assert s + t == t;
    } else {
      RejectConcat(s[1..], t, filter);
      assert (s + t)[1..] == s[1..] + t;
      var head := if filter(s[0]) then [] else [s[0]];
      assert head + (Reject(s[1..], filter) + Reject(t, filter)) == head + Reject(s[1..], filter) + Reject(t, filter);
    }
  }

  lemma {:induction false} FirstDearSplits(txs: seq<Transaction>, costLimit: int, gasLimit: uint64)
    ensures var k := FirstDear(txs, costLimit, gasLimit);
      && (forall i :: 0 <= i < k ==> !TooDear(costLimit, gasLimit, txs[i]))
      && (k < |txs| ==> TooDear(costLimit, gasLimit, txs[k]))
  {
    if txs != [] && !TooDear(costLimit, gasLimit, txs[0]) {
      FirstDearSplits(txs[1..], costLimit, gasLimit);
      forall i | 0 <= i < FirstDear(txs, costLimit, gasLimit)
        ensures !TooDear(costLimit, gasLimit, txs[i])
      {
        if i > 0 { assert txs[i] == txs[1..][i - 1]; }
      }
    }
  }

  lemma {:induction false} EverythingSelected(s: seq<Transaction>, filter: Transaction -> bool)
    requires forall i :: 0 <= i < |s| ==> filter(s[i])
    ensures Select(s, filter) == s && Reject(s, filter) == []
  {
    if s != [] {
      EverythingSelected(s[1..], filter);
    }
  }

  // Of two parts with the threshold between them the filter picks the second.
  lemma AboveSplits(low: seq<Transaction>, high: seq<Transaction>, nonce: uint64)
    requires forall i :: 0 <= i < |low| ==> low[i].nonce <= nonce
    requires forall i :: 0 <= i < |high| ==> high[i].nonce > nonce
    ensures Select(low + high, AboveFilter(nonce)) == high && Reject(low + high, AboveFilter(nonce)) == low
  {
    var above := AboveFilter(nonce);
    SelectConcat(low, high, above);
    RejectConcat(low, high, above);
    NothingSelected(low, above);
    EverythingSelected(high, above);
  }

  lemma AscendingParts(low: seq<Transaction>, high: seq<Transaction>)
    requires Ascending(low + high)
    ensures Ascending(low) && Ascending(high)
    ensures forall i, j :: 0 <= i < |low| && 0 <= j < |high| ==> low[i].nonce < high[j].nonce
  {
    var all := low + high;
    assert forall i :: 0 <= i < |low| ==> all[i] == low[i];
    forall j | 0 <= j < |high| ensures all[|low| + j] == high[j] {
    }
    forall i, j | 0 <= i < j < |high| ensures high[i].nonce < high[j].nonce {
      assert all[|low| + i].nonce < all[|low| + j].nonce;
    }
    forall i, j | 0 <= i < |low| && 0 <= j < |high| ensures low[i].nonce < high[j].nonce {
      assert all[i].nonce < all[|low| + j].nonce;
    }
  }

  // What a filter that picks the first leaves of an ascending list is above the first.
  lemma FirstCutsRest(high: seq<Transaction>, filter: Transaction -> bool)
    requires Ascending(high) && high != [] && filter(high[0])
    ensures Select(high, filter) != [] && Select(high, filter)[0] == high[0]
    ensures var rest := Reject(high, filter);
      forall i :: 0 <= i < |rest| ==> rest[i].nonce > high[0].nonce
  {
    var rest := Reject(high[1..], filter);
    assert Reject(high, filter) == rest;
    FilterMembers(high[1..], filter);
    forall i | 0 <= i < |rest| ensures rest[i].nonce > high[0].nonce {
      assert rest[i] in rest;
      FirstIsLeast(high, rest[i]);
    }
  }

  // Where a list falls into affordable transactions and a rest that begins with one too dear.
  lemma StrictCutsBetween(low: seq<Transaction>, high: seq<Transaction>, costLimit: int, gasLimit: uint64)
    requires Ascending(low + high) && high != [] && TooDear(costLimit, gasLimit, high[0])
    requires forall i :: 0 <= i < |low| ==> !TooDear(costLimit, gasLimit, low[i])
    ensures var f := FullScan(true, low + high, costLimit, gasLimit);
      f.kept == low && f.removed != [] && f.removed[0] == high[0]
  {
    var dear, rest := DearFilter(costLimit, gasLimit), Reject(high, DearFilter(costLimit, gasLimit));
    AscendingParts(low, high);
    SelectConcat(low, high, dear);
    RejectConcat(low, high, dear);
    NothingSelected(low, dear);
    FirstCutsRest(high, dear);
    AboveSplits(low, rest, high[0].nonce);
  }

  // In strict mode a filter cuts the list at the first too dear transaction: what is kept
  // are exactly the nonces below the lowest removed one.
  lemma StrictFilterCuts(txs: seq<Transaction>, costLimit: int, gasLimit: uint64)
    requires Ascending(txs)
    ensures var f, k := FullScan(true, txs, costLimit, gasLimit), FirstDear(txs, costLimit, gasLimit);
      f.kept == txs[..k] && (k < |txs| ==> f.removed != [] && f.removed[0] == txs[k])
  {
    var k := FirstDear(txs, costLimit, gasLimit);
    FirstDearSplits(txs, costLimit, gasLimit);
    if k < |txs| {
      assert txs == txs[..k] + txs[k..];
      StrictCutsBetween(txs[..k], txs[k..], costLimit, gasLimit);
    } else {
      assert txs[..k] == txs;
      NothingSelected(txs, DearFilter(costLimit, gasLimit));
    }
  }

  // ---- Operations ----

  datatype ListOp =
    | Add(tx: Transaction, priceBump: uint64)
    | Forward(threshold: uint64)
    | Filter(costLimit: int, gasLimit: uint64)
    | Cap(count: nat)
    | Remove(tx: Transaction)
    | Ready(start: uint64)

  // What one operation does: the new state, what entered and what left the list.
  datatype Outcome = Outcome(state: ListState, entered: seq<Transaction>, gone: seq<Transaction>)

  predicate Accepts(st: ListState, tx: Transaction, priceBump: uint64) {
    var prior := Lookup(st.txs, tx.nonce);
    prior.Some? ==> Outbids(prior.value.gasPrice, tx.gasPrice, priceBump)
  }

  function Added(st: ListState, tx: Transaction, priceBump: uint64): Outcome {
    if !Accepts(st, tx, priceBump) then Outcome(st, [], [])
    else
      var prior := Lookup(st.txs, tx.nonce);
      var raised := st.(txs := Put(st.txs, tx),
                        costCap := if st.costCap < tx.Cost() then tx.Cost() else st.costCap,
                        gasCap := if st.gasCap < tx.gasLimit then tx.gasLimit else st.gasCap);
      Outcome(raised, [tx], if prior.Some? then [prior.value] else [])
  }

  function Cheapened(st: ListState, costLimit: int, gasLimit: uint64): Outcome {
    if st.costCap <= costLimit && st.gasCap <= gasLimit then Outcome(st, [], [])
    else
      var f := FullScan(st.strict, st.txs, costLimit, gasLimit);
      Outcome(st.(txs := f.kept, costCap := costLimit, gasCap := gasLimit), [], f.removed + f.invalids)
  }

  function Dropped(st: ListState, tx: Transaction): Outcome {
    var k := Below(st.txs, tx.nonce);
    if !HasNonce(st.txs, tx.nonce) then Outcome(st, [], [])
    else if st.strict then Outcome(st.(txs := st.txs[..k]), [], st.txs[k..])
    else Outcome(st.(txs := Without(st.txs, tx.nonce)), [], [st.txs[k]])
  }

  function Apply(st: ListState, op: ListOp): Outcome {
    match op
    case Add(tx, priceBump) => Added(st, tx, priceBump)
    case Forward(threshold) =>
      var k := Below(st.txs, threshold);
      Outcome(st.(txs := st.txs[k..]), [], st.txs[..k])
    case Filter(costLimit, gasLimit) => Cheapened(st, costLimit, gasLimit)
    case Cap(count) =>
      if |st.txs| <= count then Outcome(st, [], [])
      else Outcome(st.(txs := st.txs[..count]), [], Reversed(st.txs[count..]))
    case Remove(tx) => Dropped(st, tx)
    case Ready(start) =>
      var n := if st.txs == [] || st.txs[0].nonce > start then 0 else RunLength(st.txs);
      Outcome(st.(txs := st.txs[n..]), [], st.txs[..n])
  }

  function Run(st: ListState, ops: seq<ListOp>): Outcome
    decreases |ops|
  {
    if ops == [] then Outcome(st, [], [])
    else
      var first := Apply(st, ops[0]);
      var rest := Run(first.state, ops[1..]);
      Outcome(rest.state, first.entered + rest.entered, first.gone + rest.gone)
  }

  // ---- What every operation and every run keeps ----

  lemma ReversedElements(s: seq<Transaction>)
    ensures multiset(Reversed(s)) == multiset(s)
  {
    if s != [] {
      ReversedElements(s[1..]);
      assert s == [s[0]] + s[1..];
    }
  }

  lemma CutConserves(s: seq<Transaction>, k: nat)
    requires k <= |s|
    ensures multiset(s) == multiset(s[..k]) + multiset(s[k..])
  {
    assert s == s[..k] + s[k..];
  }

  lemma TakenOut(s: seq<Transaction>, k: nat)
    requires k < |s|
    ensures multiset(s) == multiset(s[..k]) + multiset(s[k + 1..]) + multiset{s[k]}
  {
    assert s == s[..k] + [s[k]] + s[k + 1..];
  }

  lemma PutConserves(s: seq<Transaction>, tx: Transaction)
    ensures multiset(s) + multiset{tx}
         == multiset(Put(s, tx)) + (if HasNonce(s, tx.nonce) then multiset{s[Below(s, tx.nonce)]} else multiset{})
  {
    var k, t := Below(s, tx.nonce), Put(s, tx);
    TakenOut(t, k);
    if HasNonce(s, tx.nonce) {
      TakenOut(s, k);
      assert t[..k] == s[..k] && t[k + 1..] == s[k + 1..];
    } else {
      CutConserves(s, k);
      assert t[..k] == s[..k] && t[k + 1..] == s[k..];
    }
  }

  lemma WithoutConserves(s: seq<Transaction>, nonce: uint64)
    requires HasNonce(s, nonce)
    ensures multiset(s) == multiset(Without(s, nonce)) + multiset{s[Below(s, nonce)]}
  {
    var k := Below(s, nonce);
    TakenOut(s, k);
    assert Without(s, nonce) == s[..k] + s[k + 1..];
  }

  lemma AddConserves(st: ListState, tx: Transaction, priceBump: uint64)
    ensures var o := Added(st, tx, priceBump);
      multiset(st.txs) + multiset(o.entered) == multiset(o.state.txs) + multiset(o.gone)
  {
    PutConserves(st.txs, tx);
  }

  lemma FilterConserves(st: ListState, costLimit: int, gasLimit: uint64)
    ensures var o := Cheapened(st, costLimit, gasLimit);
      multiset(st.txs) == multiset(o.state.txs) + multiset(o.gone) && o.entered == []
  {
    FullScanPartitions(st.strict, st.txs, costLimit, gasLimit);
  }

  lemma RemoveConserves(st: ListState, tx: Transaction)
    ensures var o := Dropped(st, tx);
      multiset(st.txs) == multiset(o.state.txs) + multiset(o.gone) && o.entered == []
  {
    if HasNonce(st.txs, tx.nonce) {
      CutConserves(st.txs, Below(st.txs, tx.nonce));
      WithoutConserves(st.txs, tx.nonce);
    }
  }

  lemma CapConserves(st: ListState, count: nat)
    ensures var o := Apply(st, Cap(count));
      multiset(st.txs) + multiset(o.entered) == multiset(o.state.txs) + multiset(o.gone)
  {
    if |st.txs| > count {
      CutConserves(st.txs, count);
      ReversedElements(st.txs[count..]);
    }
  }

  // Transactions are conserved: what was held plus what entered is what is held plus what left.
  lemma ApplyConserves(st: ListState, op: ListOp)
    ensures var o := Apply(st, op);
      multiset(st.txs) + multiset(o.entered) == multiset(o.state.txs) + multiset(o.gone)
  {
    match op
    case Add(tx, priceBump) => AddConserves(st, tx, priceBump);
    case Forward(threshold) => CutConserves(st.txs, Below(st.txs, threshold));
    case Filter(costLimit, gasLimit) => FilterConserves(st, costLimit, gasLimit);
    case Cap(count) => CapConserves(st, count);
    case Remove(tx) => RemoveConserves(st, tx);
    case Ready(start) =>
      CutConserves(st.txs, if st.txs == [] || st.txs[0].nonce > start then 0 else RunLength(st.txs));
  }

  lemma AddKeepsWellFormed(st: ListState, tx: Transaction, priceBump: uint64)
    requires WellFormed(st)
    ensures WellFormed(Added(st, tx, priceBump).state)
  {
    PutOrdered(st.txs, tx);
    var t := Put(st.txs, tx);
    forall i | 0 <= i < |t|
      ensures t[i] == tx || (t[i].Cost() <= st.costCap && t[i].gasLimit <= st.gasCap)
    {
      assert t[i] in t;
    }
  }

  lemma FilterKeepsWellFormed(st: ListState, costLimit: int, gasLimit: uint64)
    requires WellFormed(st)
    ensures WellFormed(Cheapened(st, costLimit, gasLimit).state)
  {
    var dear := DearFilter(costLimit, gasLimit);
    var kept := Reject(st.txs, dear);
    FilterKeepsOrder(st.txs, dear);
    FilterMembers(st.txs, dear);
    assert forall i :: 0 <= i < |kept| ==> !TooDear(costLimit, gasLimit, kept[i]) by {
      forall i | 0 <= i < |kept| ensures !dear(kept[i]) {
        assert kept[i] in kept;
      }
    }
    if st.strict && Select(st.txs, dear) != [] {
      var above := AboveFilter(Select(st.txs, dear)[0].nonce);
      FilterKeepsOrder(kept, above);
      FilterMembers(kept, above);
      assert forall i :: 0 <= i < |Reject(kept, above)| ==> Reject(kept, above)[i] in kept;
    }
  }

  lemma PartsKeepWellFormed(st: ListState, k: nat)
    requires WellFormed(st) && k <= |st.txs|
    ensures WellFormed(st.(txs := st.txs[..k])) && WellFormed(st.(txs := st.txs[k..]))
  {
  }

  lemma RemoveKeepsWellFormed(st: ListState, tx: Transaction)
    requires WellFormed(st)
    ensures WellFormed(Dropped(st, tx).state)
  {
    if st.strict {
      PartsKeepWellFormed(st, Below(st.txs, tx.nonce));
    } else {
      var t := Without(st.txs, tx.nonce);
      WithoutOrdered(st.txs, tx.nonce);
      forall i | 0 <= i < |t| ensures t[i] in st.txs {
        assert t[i] in t;
      }
    }
  }

  // Each operation keeps the strict nonce order and the caps' cover.
  lemma ApplyKeepsWellFormed(st: ListState, op: ListOp)
    requires WellFormed(st)
    ensures WellFormed(Apply(st, op).state)
  {
    var s := st.txs;
    match op
    case Add(tx, priceBump) => AddKeepsWellFormed(st, tx, priceBump);
    case Filter(costLimit, gasLimit) => FilterKeepsWellFormed(st, costLimit, gasLimit);
    case Remove(tx) => RemoveKeepsWellFormed(st, tx);
    case Forward(threshold) => PartsKeepWellFormed(st, Below(s, threshold));
    case Cap(count) =>
      if count < |s| { PartsKeepWellFormed(st, count); }
    case Ready(start) => PartsKeepWellFormed(st, if s == [] || s[0].nonce > start then 0 else RunLength(s));
  }

  lemma ConservesThrough(a: seq<Transaction>, b: seq<Transaction>, c: seq<Transaction>,
                         in1: seq<Transaction>, in2: seq<Transaction>, out1: seq<Transaction>, out2: seq<Transaction>)
    requires multiset(a) + multiset(in1) == multiset(b) + multiset(out1)
    requires multiset(b) + multiset(in2) == multiset(c) + multiset(out2)
    ensures multiset(a) + multiset(in1 + in2) == multiset(c) + multiset(out1 + out2)
  {
    calc {
      multiset(a) + multiset(in1 + in2);
      (multiset(a) + multiset(in1)) + multiset(in2);
      multiset(out1) + (multiset(b) + multiset(in2));
      multiset(c) + (multiset(out1) + multiset(out2));
      multiset(c) + multiset(out1 + out2);
    }
  }

  // Over any run of operations the order and the cover are kept,
  lemma {:induction false} RunKeepsWellFormed(st: ListState, ops: seq<ListOp>)
    requires WellFormed(st)
    ensures WellFormed(Run(st, ops).state)
    decreases |ops|
  {
    if ops != [] {
      ApplyKeepsWellFormed(st, ops[0]);
      RunKeepsWellFormed(Apply(st, ops[0]).state, ops[1..]);
    }
  }

  // and transactions are conserved.
  lemma {:induction false} RunConserves(st: ListState, ops: seq<ListOp>)
    ensures var o := Run(st, ops);
      multiset(st.txs) + multiset(o.entered) == multiset(o.state.txs) + multiset(o.gone)
    decreases |ops|
  {
    if ops != [] {
      var first, rest := Apply(st, ops[0]), Run(Apply(st, ops[0]).state, ops[1..]);
      ApplyConserves(st, ops[0]);
      RunConserves(first.state, ops[1..]);
      ConservesThrough(st.txs, first.state.txs, rest.state.txs, first.entered, rest.entered, first.gone, rest.gone);
    }
  }

  // After any run, Filter is a full scan: the early exit never hides a transaction.
  lemma FilterIsFullScan(st: ListState, ops: seq<ListOp>, costLimit: int, gasLimit: uint64)
    requires WellFormed(st)
    ensures var before := Run(st, ops).state;
      var f := FullScan(before.strict, before.txs, costLimit, gasLimit);
      var o := Apply(before, Filter(costLimit, gasLimit));
      o.state.txs == f.kept && o.gone == f.removed + f.invalids
  {
    RunKeepsWellFormed(st, ops);
    var before := Run(st, ops).state;
    if before.costCap <= costLimit && before.gasCap <= gasLimit {
      ShortcutSound(before, costLimit, gasLimit);
    }
  }

  // ---- Each operation by its purpose, one transaction at a time ----

  // Filter keeps the survivors and tightens the caps, unless they are within the limits already.
  lemma FilterExactly(st: ListState, costLimit: int, gasLimit: uint64)
    requires WellFormed(st)
    ensures var o := Apply(st, Filter(costLimit, gasLimit));
      && (forall x :: x in o.state.txs <==> Survives(st.strict, st.txs, costLimit, gasLimit, x))
      && multiset(st.txs) == multiset(o.state.txs) + multiset(o.gone)
      && o.entered == [] && o.state.strict == st.strict
      && (o.state.costCap, o.state.gasCap)
         == if st.costCap <= costLimit && st.gasCap <= gasLimit then (st.costCap, st.gasCap) else (costLimit, gasLimit)
  {
    FullScanExactly(st.strict, st.txs, costLimit, gasLimit);
    FilterConserves(st, costLimit, gasLimit);
    if st.costCap <= costLimit && st.gasCap <= gasLimit {
      ShortcutSound(st, costLimit, gasLimit);
    }
  }

  // The caps go up to the transaction's, and nothing else about the list changes.
  ghost predicate Raised(st: ListState, tx: Transaction, st': ListState) {
    && st'.strict == st.strict
    && st'.costCap >= st.costCap && st'.costCap >= tx.Cost() && st'.costCap in {st.costCap, tx.Cost()}
    && st'.gasCap >= st.gasCap && st'.gasCap >= tx.gasLimit && st'.gasCap in {st.gasCap, tx.gasLimit}
  }

  // Add under a nonce that is not held always succeeds,
  lemma AddFresh(st: ListState, tx: Transaction, priceBump: uint64)
    requires WellFormed(st) && forall y :: y in st.txs ==> y.nonce != tx.nonce
    ensures var o := Apply(st, Add(tx, priceBump));
      && o.entered == [tx] && o.gone == []
      && (forall x :: x in o.state.txs <==> x == tx || x in st.txs)
      && Raised(st, tx, o.state)
  {
    LookupFinds(st.txs, tx.nonce);
    PutOrdered(st.txs, tx);
  }

  // and under a held one exactly by outbidding it, which then leaves.
  lemma AddReplaces(st: ListState, tx: Transaction, priceBump: uint64, y: Transaction)
    requires WellFormed(st) && y in st.txs && y.nonce == tx.nonce
    ensures var o := Apply(st, Add(tx, priceBump));
      if tx.gasPrice > y.gasPrice && tx.gasPrice >= Wrap(y.gasPrice * Wrap(100 + priceBump)) / 100 then
        && o.entered == [tx] && o.gone == [y]
        && (forall x :: x in o.state.txs <==> x == tx || (x in st.txs && x != y))
        && Raised(st, tx, o.state)
      else o.state == st && o.entered == [] && o.gone == []
  {
    LookupFinds(st.txs, tx.nonce);
    PutOrdered(st.txs, tx);
    assert Lookup(st.txs, tx.nonce) == Some(y);
  }

  lemma PrefixIsBelow(s: seq<Transaction>, nonce: uint64)
    requires Ascending(s)
    ensures forall x :: x in s[..Below(s, nonce)] <==> x in s && x.nonce < nonce
  {
    BelowSplits(s, nonce);
  }

  // x goes when the nonce is removed.
  ghost predicate Leaves(strict: bool, txs: seq<Transaction>, nonce: uint64, x: Transaction) {
    x.nonce == nonce || (strict && x.nonce > nonce && exists y :: y in txs && y.nonce == nonce)
  }

  // Remove takes the nonce, and from a strict list all above it; the caps stay.
  lemma RemoveExactly(st: ListState, tx: Transaction)
    requires WellFormed(st)
    ensures var o := Apply(st, Remove(tx));
      && (forall x :: x in o.state.txs <==> x in st.txs && !Leaves(st.strict, st.txs, tx.nonce, x))
      && multiset(st.txs) == multiset(o.state.txs) + multiset(o.gone)
      && o.entered == [] && o.state == st.(txs := o.state.txs)
  {
    RemoveConserves(st, tx);
    LookupFinds(st.txs, tx.nonce);
    WithoutOrdered(st.txs, tx.nonce);
    if HasNonce(st.txs, tx.nonce) && st.strict {
      PrefixIsBelow(st.txs, tx.nonce);
    }
  }

  // Forward takes exactly the nonces under the threshold,
  lemma ForwardExactly(st: ListState, threshold: uint64)
    requires WellFormed(st)
    ensures var o := Apply(st, Forward(threshold));
      && o.gone + o.state.txs == st.txs && o.entered == [] && o.state == st.(txs := o.state.txs)
      && (forall x :: x in o.gone ==> x.nonce < threshold)
      && (forall x :: x in o.state.txs ==> x.nonce >= threshold)
  {
    BelowSplits(st.txs, threshold);
  }

  lemma CapParts(s: seq<Transaction>, count: nat)
    requires Ascending(s) && count <= |s|
    ensures forall i, j :: 0 <= i < j < |s| - count ==> Reversed(s[count..])[i].nonce > Reversed(s[count..])[j].nonce
    ensures multiset(s) == multiset(s[..count]) + multiset(Reversed(s[count..]))
  {
    CutConserves(s, count);
    ReversedElements(s[count..]);
  }

  // and Cap leaves exactly that many of the lowest ones.
  lemma CapExactly(st: ListState, count: nat)
    requires WellFormed(st)
    ensures var o := Apply(st, Cap(count));
      && o.state.txs == st.txs[..if |st.txs| <= count then |st.txs| else count]
      && multiset(st.txs) == multiset(o.state.txs) + multiset(o.gone)
      && (forall i, j :: 0 <= i < j < |o.gone| ==> o.gone[i].nonce > o.gone[j].nonce)
      && o.entered == [] && o.state == st.(txs := o.state.txs)
  {
    if |st.txs| <= count {
      assert st.txs[..|st.txs|] == st.txs;
    } else {
      CapParts(st.txs, count);
    }
  }

  // Ready(start) takes the maximal consecutive run from the smallest nonce, if that is at most start.
  lemma ReadyTakesMaximalRun(st: ListState, start: uint64)
    requires WellFormed(st)
    ensures var s, o := st.txs, Apply(st, Ready(start));
      && (if s == [] || s[0].nonce > start then o.gone == []
          else |o.gone| > 0 && IsRun(s, |o.gone|) && forall n: nat :: IsRun(s, n) ==> n <= |o.gone|)
      && o.gone + o.state.txs == s && o.entered == [] && o.state == st.(txs := o.state.txs)
  {
    RunLengthMaximal(st.txs);
  }

  // ---- Gaps ----

  // In strict mode no operation other than Add leaves anything but a slice of the list.
  lemma StrictLeavesSlice(st: ListState, op: ListOp) returns (from: nat, to: nat)
    requires st.strict && WellFormed(st) && !op.Add?
    ensures from <= to <= |st.txs| && Apply(st, op).state.txs == st.txs[from..to]
  {
    from, to := 0, |st.txs|;
    match op
    case Forward(threshold) => from := Below(st.txs, threshold);
    case Filter(costLimit, gasLimit) =>
      if st.costCap > costLimit || st.gasCap > gasLimit {
        StrictFilterCuts(st.txs, costLimit, gasLimit);
        to := FirstDear(st.txs, costLimit, gasLimit);
      }
    case Cap(count) =>
      if |st.txs| > count { to := count; }
    case Remove(tx) =>
      if HasNonce(st.txs, tx.nonce) { to := Below(st.txs, tx.nonce); }
    case Ready(start) =>
      from := if st.txs == [] || st.txs[0].nonce > start then 0 else RunLength(st.txs);
  }

  // So a contiguous interval of nonces stays one.
  lemma StrictKeepsContiguous(st: ListState, op: ListOp)
    requires st.strict && WellFormed(st) && Contiguous(st.txs) && !op.Add?
    ensures Contiguous(Apply(st, op).state.txs)
  {
    var from, to := StrictLeavesSlice(st, op);
    var t := st.txs[from..to];
    forall i | 0 <= i < |t| ensures t[i].nonce == t[0].nonce + i {
      assert t[i] == st.txs[from + i] && t[0] == st.txs[from];
    }
  }

  // An accepted Add keeps the interval exactly when its nonce is inside it or next to it.
  lemma AddKeepsContiguous(st: ListState, tx: Transaction, priceBump: uint64)
    requires WellFormed(st) && Contiguous(st.txs) && st.txs != [] && Accepts(st, tx, priceBump)
    ensures Contiguous(Apply(st, Add(tx, priceBump)).state.txs)
      <==> st.txs[0].nonce - 1 <= tx.nonce <= st.txs[|st.txs| - 1].nonce + 1
  {
    var s := st.txs;
    var k, t := Below(s, tx.nonce), Put(s, tx);
    BelowSplits(s, tx.nonce);
    assert t[k] == tx;
    if !HasNonce(s, tx.nonce) {
      if k > 0 {
        assert t[k - 1] == s[k - 1];
      }
      if k < |s| {
        assert t[k + 1] == s[k];
      }
    }
  }

  // ---- The list itself ----

  // The lowest removed nonce does not depend on the order the map was walked in.
  lemma LowestOfPermutation(s: seq<Transaction>, removed: seq<Transaction>)
    requires Ascending(s) && multiset(removed) == multiset(s)
    ensures |removed| == |s|
    ensures forall i :: 0 <= i < |removed| ==> s != [] && s[0].nonce <= removed[i].nonce
    ensures s != [] ==> s[0] in removed
  {
    assert |multiset(removed)| == |multiset(s)|;
    forall i | 0 <= i < |removed| ensures s != [] && s[0].nonce <= removed[i].nonce {
      assert removed[i] in multiset(s);
    }
    if s != [] {
      assert s[0] in multiset(removed);
    }
  }

  lemma SameMembers(s: seq<Transaction>, t: seq<Transaction>)
    requires multiset(s) == multiset(t)
    ensures forall x :: x in s <==> x in t
    ensures t == [] ==> s == []
  {
    assert forall x :: (x in s <==> x in multiset(s)) && (x in t <==> x in multiset(t));
    assert s != [] ==> s[0] in s;
  }

  // The two walks over the map return what the scan does, in some order.
  lemma ScanDone(strict: bool, s: seq<Transaction>, costLimit: int, gasLimit: uint64,
                 removed: seq<Transaction>, invalids: seq<Transaction>)
    requires Ascending(s)
    requires var f := FullScan(strict, s, costLimit, gasLimit);
      multiset(removed) == multiset(f.removed) && multiset(invalids) == multiset(f.invalids)
    ensures var kept := FullScan(strict, s, costLimit, gasLimit).kept;
      && FiltersInto(strict, s, costLimit, gasLimit, kept, removed, invalids)
      && multiset(s) == multiset(kept) + multiset(removed + invalids)
  {
    var f := FullScan(strict, s, costLimit, gasLimit);
    FullScanExactly(strict, s, costLimit, gasLimit);
    FullScanPartitions(strict, s, costLimit, gasLimit);
    SameMembers(removed, f.removed);
    SameMembers(invalids, f.invalids);
  }

  // In an ascending list the nonces above a removed one are the tail after its place.
  lemma AboveIsTail(s: seq<Transaction>, nonce: uint64)
    requires Ascending(s)
    ensures var t := Without(s, nonce);
      Reject(t, AboveFilter(nonce)) == s[..Below(s, nonce)] &&
      Select(t, AboveFilter(nonce)) == s[if HasNonce(s, nonce) then Below(s, nonce) + 1 else Below(s, nonce)..]
  {
    var k := Below(s, nonce);
    var low, high := s[..k], s[if HasNonce(s, nonce) then k + 1 else k..];
    BelowSplits(s, nonce);
    assert Without(s, nonce) == low + high;
    AboveSplits(low, high, nonce);
  }

  class TxList {
    const strict: bool
    const txs: TxSortedMap
    var costCap: int
    var gasCap: uint64

    ghost function State(): ListState
      reads this, txs
    {
      ListState(strict, txs.contents, costCap, gasCap)
    }

    ghost predicate Valid()
      reads this, txs, txs.index
    {
      txs.Valid() && Covered(State())
    }

    constructor (strict: bool)
      ensures Valid() && fresh(txs) && fresh(txs.index)
      ensures State() == ListState(strict, [], 0, 0)
    {
      this.strict := strict;
      txs := new TxSortedMap();
      costCap, gasCap := 0, 0;
    }

    method Overlaps(tx: Transaction) returns (found: bool)
      requires Valid()
      ensures found <==> exists x :: x in txs.contents && x.nonce == tx.nonce
    {
      LookupFinds(txs.contents, tx.nonce);
      var prior := txs.Get(tx.nonce);
      found := prior.Some?;
    }

    // The replaced transaction comes back as an option: the Go code returns it as a typed nil.
    method Add(tx: Transaction, priceBump: uint64) returns (ok: bool, replaced: Option<Transaction>)
      requires Valid()
      modifies this, txs, txs.index
      ensures Valid() && State() == Apply(old(State()), ListOp.Add(tx, priceBump)).state
      ensures ok <==> forall y :: y in old(txs.contents) && y.nonce == tx.nonce ==>
        tx.gasPrice > y.gasPrice && tx.gasPrice >= Wrap(y.gasPrice * Wrap(100 + priceBump)) / 100
      ensures forall y :: replaced == Some(y) <==> ok && y in old(txs.contents) && y.nonce == tx.nonce
    {
      ApplyKeepsWellFormed(State(), ListOp.Add(tx, priceBump));
      LookupFinds(txs.contents, tx.nonce);
      var prior := txs.Get(tx.nonce);
      if prior.Some? {
        var threshold := Wrap(prior.value.gasPrice * Wrap(100 + priceBump)) / 100;
        if prior.value.gasPrice >= tx.gasPrice || threshold > tx.gasPrice {
          return false, None;
        }
      }
      txs.Put(tx);
      var cost := tx.Cost();
      if costCap < cost {
        costCap := cost;
      }
      var gas := tx.gasLimit;
      if gasCap < gas {
        gasCap := gas;
      }
      return true, prior;
    }

    method Forward(threshold: uint64) returns (removed: seq<Transaction>)
      requires Valid()
      modifies txs, txs.index
      ensures Valid() && State() == Apply(old(State()), ListOp.Forward(threshold)).state
      ensures removed == Apply(old(State()), ListOp.Forward(threshold)).gone
    {
      ApplyKeepsWellFormed(State(), ListOp.Forward(threshold));
      removed := txs.Forward(threshold);
    }

    // Filter's first loop in strict mode.
    method LowestNonce(removed: seq<Transaction>, ghost s: seq<Transaction>) returns (lowest: uint64)
      requires removed != [] && Ascending(s) && multiset(removed) == multiset(s)
      ensures s != [] && lowest == s[0].nonce
    {
      LowestOfPermutation(s, removed);
      lowest := MAX_UINT64;
      var i := 0;
      while i < |removed|
        invariant 0 <= i <= |removed|
        invariant forall j :: 0 <= j < i ==> lowest <= removed[j].nonce
        invariant lowest == MAX_UINT64 || exists j :: 0 <= j < i && lowest == removed[j].nonce
      {
        if lowest > removed[i].nonce {
          lowest := removed[i].nonce;
        }
        i := i + 1;
      }
      assert lowest <= removed[0].nonce <= MAX_UINT64;
    }

    method Filter(costLimit: int, gasLimit: uint64) returns (removed: seq<Transaction>, invalids: seq<Transaction>)
      requires Valid()
      modifies this, txs, txs.index
      ensures Valid()
      ensures State() == Apply(old(State()), ListOp.Filter(costLimit, gasLimit)).state
      ensures FiltersInto(strict, old(txs.contents), costLimit, gasLimit, txs.contents, removed, invalids)
      ensures multiset(old(txs.contents)) == multiset(txs.contents) + multiset(removed + invalids)
    {
      ghost var s := txs.contents;
      ApplyKeepsWellFormed(State(), ListOp.Filter(costLimit, gasLimit));
      if costCap <= costLimit && gasCap <= gasLimit {
        ShortcutSound(State(), costLimit, gasLimit);
        ScanDone(strict, s, costLimit, gasLimit, [], []);
        return [], [];
      }
      costCap := costLimit;
      gasCap := gasLimit;
      FilterKeepsOrder(s, DearFilter(costLimit, gasLimit));
      removed := txs.Filter(DearFilter(costLimit, gasLimit));
      invalids := [];
      ghost var dear := Select(s, DearFilter(costLimit, gasLimit));
      LowestOfPermutation(dear, removed);
      if strict && |removed| > 0 {
        var lowest := LowestNonce(removed, dear);
        invalids := txs.Filter(AboveFilter(lowest));
      }
      assert txs.contents == FullScan(strict, s, costLimit, gasLimit).kept;
      ScanDone(strict, s, costLimit, gasLimit, removed, invalids);
    }

    method Cap(threshold: nat) returns (drops: seq<Transaction>)
      requires Valid()
      modifies txs, txs.index
      ensures Valid() && State() == Apply(old(State()), ListOp.Cap(threshold)).state
      ensures drops == Apply(old(State()), ListOp.Cap(threshold)).gone
    {
      ApplyKeepsWellFormed(State(), ListOp.Cap(threshold));
      drops := txs.Cap(threshold);
    }

    // The strict list also reports the transactions above the removed nonce.
    method Remove(tx: Transaction) returns (ok: bool, invalids: seq<Transaction>)
      requires Valid()
      modifies txs, txs.index
      ensures Valid() && State() == Apply(old(State()), ListOp.Remove(tx)).state
      ensures ok == HasNonce(old(txs.contents), tx.nonce)
      ensures ok <==> exists y :: y in old(txs.contents) && y.nonce == tx.nonce
      ensures multiset(invalids) ==
        if strict && ok then multiset(old(txs.contents)[Below(old(txs.contents), tx.nonce) + 1..]) else multiset{}
    {
      ghost var s := txs.contents;
      RemoveKeepsWellFormed(State(), tx);
      AboveIsTail(s, tx.nonce);
      LookupFinds(s, tx.nonce);
      var nonce := tx.nonce;
      invalids := [];
      ok := txs.Remove(nonce);
      if !ok {
        return;
      }
      if strict {
        invalids := txs.Filter(AboveFilter(nonce));
      }
      assert State() == Dropped(old(State()), tx).state;
    }

    method Ready(start: uint64) returns (ready: seq<Transaction>)
      requires Valid()
      modifies txs, txs.index
      ensures Valid() && State() == Apply(old(State()), ListOp.Ready(start)).state
      ensures ready == Apply(old(State()), ListOp.Ready(start)).gone
    {
      ApplyKeepsWellFormed(State(), ListOp.Ready(start));
      ready := txs.Ready(start);
    }

    method Len() returns (n: nat)
      requires Valid()
      ensures n == |txs.contents|
    {
      n := txs.Len();
    }

    method Flatten() returns (list: array<Transaction>)
      requires Valid()
      modifies txs`cache
      ensures Valid() && State() == old(State()) && fresh(list) && list[..] == txs.contents
    {
      list := txs.Flatten();
    }
  }
}
