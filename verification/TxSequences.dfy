/** The plain reference a transaction list is measured against: a sequence of
    transactions in strictly increasing nonce order, and every list operation
    on it, with the properties the operations are used for. */
module TxSequences {
  import opened Models

  ghost predicate Ascending(s: seq<Transaction>) {
    forall i, j :: 0 <= i < j < |s| ==> s[i].nonce < s[j].nonce
  }

  // How many leading transactions have a nonce under the threshold.
  function Below(s: seq<Transaction>, threshold: int): (n: nat)
    ensures n <= |s|
  {
    if s == [] || s[0].nonce >= threshold then 0 else 1 + Below(s[1..], threshold)
  }

  // In an ascending sequence those are all of them.
  lemma {:induction false} BelowSplits(s: seq<Transaction>, threshold: int)
    requires Ascending(s)
    ensures forall i :: 0 <= i < |s| ==> (i < Below(s, threshold) <==> s[i].nonce < threshold)
  {
    if s != [] && s[0].nonce < threshold {
      BelowSplits(s[1..], threshold);
      forall i | 0 < i < |s|
        ensures i < Below(s, threshold) <==> s[i].nonce < threshold
      {
        assert s[i] == s[1..][i - 1];
      }
    }
  }

  lemma BelowIs(s: seq<Transaction>, threshold: int, n: nat)
    requires Ascending(s) && n <= |s|
    requires forall i :: 0 <= i < n ==> s[i].nonce < threshold
    requires n < |s| ==> s[n].nonce >= threshold
    ensures Below(s, threshold) == n
  {
    BelowSplits(s, threshold);
    var b := Below(s, threshold);
    assert b < |s| ==> s[b].nonce >= threshold;
  }

  predicate HasNonce(s: seq<Transaction>, nonce: uint64) {
    var k := Below(s, nonce);
    k < |s| && s[k].nonce == nonce
  }

  function Lookup(s: seq<Transaction>, nonce: uint64): Option<Transaction> {
    if HasNonce(s, nonce) then Some(s[Below(s, nonce)]) else None
  }

  // Both find what is there, wherever it stands.
  lemma LookupFinds(s: seq<Transaction>, nonce: uint64)
    requires Ascending(s)
    ensures HasNonce(s, nonce) <==> exists x :: x in s && x.nonce == nonce
    ensures forall x :: Lookup(s, nonce) == Some(x) <==> x in s && x.nonce == nonce
  {
    BelowSplits(s, nonce);
    var k := Below(s, nonce);
    forall x | x in s && x.nonce == nonce ensures k < |s| && s[k] == x {
      var i :| 0 <= i < |s| && s[i] == x;
      assert i >= k;
      assert s[k].nonce >= nonce;
    }
  }

  // Insert, or replace the transaction of the same nonce.
  function Put(s: seq<Transaction>, tx: Transaction): seq<Transaction> {
    var k := Below(s, tx.nonce);
    if HasNonce(s, tx.nonce) then s[k := tx] else s[..k] + [tx] + s[k..]
  }

  function Without(s: seq<Transaction>, nonce: uint64): seq<Transaction> {
    var k := Below(s, nonce);
    if HasNonce(s, nonce) then s[..k] + s[k + 1..] else s
  }

  lemma Spliced(s: seq<Transaction>, k: nat, tx: Transaction, k': nat)
    requires Ascending(s) && k <= k' <= k + 1 && k' <= |s|
    requires forall i :: 0 <= i < k ==> s[i].nonce < tx.nonce
    requires k < k' ==> s[k].nonce == tx.nonce
    requires forall i :: k' <= i < |s| ==> tx.nonce < s[i].nonce
    ensures Ascending(s[..k] + [tx] + s[k'..])
    ensures forall x :: x in s[..k] + [tx] + s[k'..] <==> x == tx || (x in s && x.nonce != tx.nonce)
  {
    forall x ensures x in s && x.nonce != tx.nonce <==> x in s[..k] || x in s[k'..] {
      if x in s && x.nonce != tx.nonce {
        var i :| 0 <= i < |s| && s[i] == x;
        assert i < k ==> s[..k][i] == x;
        assert i >= k' ==> s[k'..][i - k'] == x;
      }
    }
  }

  lemma PutOrdered(s: seq<Transaction>, tx: Transaction)
    requires Ascending(s)
    ensures Ascending(Put(s, tx))
    ensures forall x :: x in Put(s, tx) <==> x == tx || (x in s && x.nonce != tx.nonce)
  {
    BelowSplits(s, tx.nonce);
    var k := Below(s, tx.nonce);
    var k' := if HasNonce(s, tx.nonce) then k + 1 else k;
    assert Put(s, tx) == s[..k] + [tx] + s[k'..];
    Spliced(s, k, tx, k');
  }

  lemma Cut(s: seq<Transaction>, nonce: uint64, k: nat, k': nat)
    requires Ascending(s) && k <= k' <= k + 1 && k' <= |s|
    requires forall i :: 0 <= i < k ==> s[i].nonce < nonce
    requires k < k' ==> s[k].nonce == nonce
    requires forall i :: k' <= i < |s| ==> nonce < s[i].nonce
    ensures Ascending(s[..k] + s[k'..])
    ensures forall x :: x in s[..k] + s[k'..] <==> x in s && x.nonce != nonce
  {
    forall x | x in s && x.nonce != nonce ensures x in s[..k] || x in s[k'..] {
      var i :| 0 <= i < |s| && s[i] == x;
      assert i < k ==> s[..k][i] == x;
      assert i >= k' ==> s[k'..][i - k'] == x;
    }
  }

  lemma WithoutOrdered(s: seq<Transaction>, nonce: uint64)
    requires Ascending(s)
    ensures Ascending(Without(s, nonce))
    ensures forall x :: x in Without(s, nonce) <==> x in s && x.nonce != nonce
  {
    BelowSplits(s, nonce);
    var k := Below(s, nonce);
    Cut(s, nonce, k, if HasNonce(s, nonce) then k + 1 else k);
    assert s == s[..k] + s[k..];
  }

  // The transactions a filter picks, and those it leaves.
  function Select(s: seq<Transaction>, filter: Transaction -> bool): seq<Transaction> {
    if s == [] then []
    else (if filter(s[0]) then [s[0]] else []) + Select(s[1..], filter)
  }

  function Reject(s: seq<Transaction>, filter: Transaction -> bool): seq<Transaction> {
    if s == [] then []
    else (if filter(s[0]) then [] else [s[0]]) + Reject(s[1..], filter)
  }

  lemma {:induction false} FilterMembers(s: seq<Transaction>, filter: Transaction -> bool)
    ensures forall x :: x in Select(s, filter) <==> x in s && filter(x)
    ensures forall x :: x in Reject(s, filter) <==> x in s && !filter(x)
  {
    if s != [] {
      FilterMembers(s[1..], filter);
      assert s == [s[0]] + s[1..];
    }
  }

  lemma FirstIsLeast(s: seq<Transaction>, x: Transaction)
    requires Ascending(s) && s != [] && x in s[1..]
    ensures s[0].nonce < x.nonce
  {
    var j :| 0 <= j < |s[1..]| && s[1..][j] == x;
    assert s[j + 1] == x;
  }

  lemma PrependOrdered(s: seq<Transaction>, t: seq<Transaction>)
    requires Ascending(s) && s != [] && Ascending(t) && forall x :: x in t ==> x in s[1..]
    ensures Ascending([s[0]] + t)
  {
    forall i | 0 <= i < |t| ensures s[0].nonce < t[i].nonce {
      FirstIsLeast(s, t[i]);
    }
  }

  lemma {:induction false} FilterKeepsOrder(s: seq<Transaction>, filter: Transaction -> bool)
    requires Ascending(s)
    ensures Ascending(Select(s, filter)) && Ascending(Reject(s, filter))
  {
    if s != [] {
      FilterKeepsOrder(s[1..], filter);
      FilterMembers(s[1..], filter);
      PrependOrdered(s, Select(s[1..], filter));
      PrependOrdered(s, Reject(s[1..], filter));
    }
  }

  // A filter splits the list: nothing is lost and nothing is counted twice.
  lemma {:induction false} FilterPartitions(s: seq<Transaction>, filter: Transaction -> bool)
    ensures multiset(Select(s, filter)) + multiset(Reject(s, filter)) == multiset(s)
  {
    if s != [] {
      FilterPartitions(s[1..], filter);
      assert s == [s[0]] + s[1..];
    }
  }

  function Reversed(s: seq<Transaction>): (r: seq<Transaction>)
    ensures |r| == |s|
    ensures forall i :: 0 <= i < |s| ==> r[i] == s[|s| - 1 - i]
  {
    if s == [] then [] else Reversed(s[1..]) + [s[0]]
  }

  // Length of the run of consecutive nonces at the front.
  function RunLength(s: seq<Transaction>): (n: nat)
    ensures n <= |s|
  {
    if s == [] then 0
    else if |s| == 1 || s[1].nonce != s[0].nonce + 1 then 1
    else 1 + RunLength(s[1..])
  }

  predicate IsRun(s: seq<Transaction>, n: nat) {
    n <= |s| && forall i :: 0 <= i < n ==> s[i].nonce == s[0].nonce + i
  }

  // The run is consecutive and cannot be extended.
  lemma {:induction false} RunLengthMaximal(s: seq<Transaction>)
    ensures IsRun(s, RunLength(s))
    ensures forall n: nat :: IsRun(s, n) ==> n <= RunLength(s)
    ensures RunLength(s) < |s| ==> s[RunLength(s)].nonce != s[0].nonce + RunLength(s)
  {
    if |s| >= 2 && s[1].nonce == s[0].nonce + 1 {
      RunLengthMaximal(s[1..]);
      var r := RunLength(s[1..]);
      forall i | 0 <= i < RunLength(s) ensures s[i].nonce == s[0].nonce + i {
        if i > 0 { assert s[i] == s[1..][i - 1]; }
      }
      forall n: nat | IsRun(s, n) ensures n <= RunLength(s) {
        if n > 0 {
          assert IsRun(s[1..], n - 1) by {
            forall i | 0 <= i < n - 1 ensures s[1..][i].nonce == s[1..][0].nonce + i {
              assert s[1..][i] == s[i + 1];
            }
          }
        }
      }
    } else {
      assert |s| >= 2 ==> s[1].nonce != s[0].nonce + 1;
    }
  }

  // A run of length n that stops there is the maximal one.
  lemma RunLengthIs(s: seq<Transaction>, n: nat)
    requires n > 0 && IsRun(s, n)
    requires n < |s| ==> s[n].nonce != s[0].nonce + n
    ensures RunLength(s) == n
  {
    RunLengthMaximal(s);
    assert n < |s| ==> s[n].nonce != s[0].nonce + n;
  }

  ghost predicate Contiguous(s: seq<Transaction>) {
    IsRun(s, |s|)
  }

  // ---- The map a sequence lists ----

  ghost predicate Keyed(m: map<uint64, Transaction>) {
    forall n :: n in m ==> m[n].nonce == n
  }

  // x is in the sequence exactly when the map holds it.
  ghost predicate Agrees(s: seq<Transaction>, m: map<uint64, Transaction>, x: Transaction) {
    x in s <==> x.nonce in m && m[x.nonce] == x
  }

  // s holds exactly the values of m, in strictly increasing nonce order.
  ghost predicate Listing(s: seq<Transaction>, m: map<uint64, Transaction>) {
    && Ascending(s)
    && Keyed(m)
    && forall x :: Agrees(s, m, x)
  }

  // Go's delete(m, k).
  function Delete(m: map<uint64, Transaction>, k: uint64): (r: map<uint64, Transaction>)
    ensures r.Keys == m.Keys - {k}
  {
    map n | n in m && n != k :: m[n]
  }

  lemma FirstIsIn(t: seq<Transaction>)
    ensures t == [] || t[0] in t
  {
  }

  lemma AscendingTail(s: seq<Transaction>, x: Transaction)
    requires Ascending(s) && s != []
    ensures x in s[1..] <==> x in s && x != s[0]
  {
    if x in s[1..] {
      var i :| 0 <= i < |s[1..]| && s[1..][i] == x;
      assert s[i + 1] == x;
    }
  }

  lemma {:induction false} SameElementsSameOrder(s: seq<Transaction>, t: seq<Transaction>)
    requires Ascending(s) && Ascending(t)
    requires forall x :: x in s <==> x in t
    ensures s == t
    decreases |s|
  {
    if s == [] {
      FirstIsIn(t);
    } else {
      assert s[0] in t && t != [] && t[0] in s;
      var i :| 0 <= i < |t| && t[i] == s[0];
      var j :| 0 <= j < |s| && s[j] == t[0];
      assert i == 0 && j == 0;
      forall x ensures x in s[1..] <==> x in t[1..] {
        AscendingTail(s, x);
        AscendingTail(t, x);
      }
      SameElementsSameOrder(s[1..], t[1..]);
      assert s == [s[0]] + s[1..] && t == [t[0]] + t[1..];
    }
  }

  // There is only one listing of a map.
  lemma ListingUnique(s: seq<Transaction>, t: seq<Transaction>, m: map<uint64, Transaction>)
    requires Listing(s, m) && Listing(t, m)
    ensures s == t
  {
    forall x ensures x in s <==> x in t {
      assert Agrees(s, m, x) && Agrees(t, m, x);
    }
    SameElementsSameOrder(s, t);
  }

  // Deleting the first or the last listed nonce.
  lemma SuffixStep(s: seq<Transaction>, k: nat, m: map<uint64, Transaction>)
    requires k < |s| && Listing(s[k..], m)
    ensures s[k].nonce in m && m[s[k].nonce] == s[k]
    ensures Listing(s[k + 1..], Delete(m, s[k].nonce))
  {
    var rest := s[k..];
    assert rest[0] == s[k] && rest[1..] == s[k + 1..];
    assert Agrees(rest, m, s[k]);
    forall x ensures Agrees(rest[1..], Delete(m, s[k].nonce), x) {
      assert Agrees(rest, m, x);
      AscendingTail(rest, x);
    }
  }

  lemma {:induction false} ListingSize(s: seq<Transaction>, m: map<uint64, Transaction>)
    requires Listing(s, m)
    ensures |s| == |m| == |m.Keys|
  {
    if s == [] {
      forall n | n in m ensures m[n] in s {
        assert Agrees(s, m, m[n]);
      }
    } else {
      assert s[0..] == s && Agrees(s, m, s[0]);
      SuffixStep(s, 0, m);
      var rest := Delete(m, s[0].nonce);
      ListingSize(s[1..], rest);
      assert rest.Keys == m.Keys - {s[0].nonce};
    }
  }

  lemma PrefixStep(s: seq<Transaction>, k: nat, m: map<uint64, Transaction>)
    requires 0 < k <= |s| && Listing(s[..k], m)
    ensures s[k - 1].nonce in m && m[s[k - 1].nonce] == s[k - 1]
    ensures Listing(s[..k - 1], Delete(m, s[k - 1].nonce))
  {
    var front, last := s[..k - 1], s[k - 1];
    assert s[..k] == front + [last];
    assert Agrees(s[..k], m, last);
    forall i | 0 <= i < k - 1 ensures front[i].nonce < last.nonce {
      assert front[i] == s[..k][i] && last == s[..k][k - 1];
    }
    assert Ascending(front) by {
      forall i, j | 0 <= i < j < |front| ensures front[i].nonce < front[j].nonce {
        assert front[i] == s[..k][i] && front[j] == s[..k][j];
      }
    }
    forall x ensures Agrees(front, Delete(m, last.nonce), x) {
      assert Agrees(s[..k], m, x);
      assert x in s[..k] <==> x in front || x == last;
    }
  }

  // ---- Distinct elements ----

  ghost predicate Distinct(s: seq<Transaction>) {
    forall i, j :: 0 <= i < j < |s| ==> s[i] != s[j]
  }

  lemma DistinctAppend(s: seq<Transaction>, x: Transaction)
    requires Distinct(s) && x !in s
    ensures Distinct(s + [x])
  {
  }

  lemma {:induction false} DistinctCount(s: seq<Transaction>, x: Transaction)
    requires Distinct(s)
    ensures multiset(s)[x] == if x in s then 1 else 0
  {
    if s != [] {
      DistinctCount(s[1..], x);
      assert s == [s[0]] + s[1..];
      assert s[0] !in s[1..];
    }
  }

  lemma DistinctSameElements(s: seq<Transaction>, t: seq<Transaction>)
    requires Distinct(s) && Distinct(t) && forall x :: x in s <==> x in t
    ensures multiset(s) == multiset(t)
  {
    forall x ensures multiset(s)[x] == multiset(t)[x] {
      DistinctCount(s, x);
      DistinctCount(t, x);
    }
  }

  lemma {:induction false} CountDistinct(s: seq<Transaction>)
    requires forall x :: multiset(s)[x] <= 1
    ensures Distinct(s)
  {
    if s != [] {
      assert s == [s[0]] + s[1..];
      forall x ensures multiset(s[1..])[x] <= 1 {
        assert multiset(s)[x] == multiset{s[0]}[x] + multiset(s[1..])[x];
      }
      CountDistinct(s[1..]);
      assert multiset(s)[s[0]] == 1 + multiset(s[1..])[s[0]];
      assert s[0] !in s[1..];
    }
  }

  lemma PermutationDistinct(s: seq<Transaction>, t: seq<Transaction>)
    requires Distinct(s) && multiset(s) == multiset(t)
    ensures Distinct(t)
  {
    forall x ensures multiset(t)[x] <= 1 {
      DistinctCount(s, x);
    }
    CountDistinct(t);
  }

  lemma AscendingIsDistinct(s: seq<Transaction>)
    requires Ascending(s)
    ensures Distinct(s)
  {
    forall i, j | 0 <= i < j < |s| ensures s[i] != s[j] {
      assert s[i].nonce < s[j].nonce;
    }
  }
}
