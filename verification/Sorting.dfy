/** Go's `sort.Sort`, which the list code calls on nonces and on transactions.
    Its algorithm is not part of the repository: this is the contract it is
    used under, for an ordering that is a strict weak order. */
module Sorting {

  ghost predicate StrictWeakOrder<T(!new)>(less: (T, T) -> bool) {
    && (forall x, y :: less(x, y) ==> !less(y, x))
    && (forall x, y, z :: !less(y, x) && !less(z, y) ==> !less(z, x))
  }

  ghost predicate SortedBy<T>(less: (T, T) -> bool, s: seq<T>) {
    forall i, j :: 0 <= i < j < |s| ==> !less(s[j], s[i])
  }

  function InsertBy<T>(x: T, s: seq<T>, less: (T, T) -> bool): seq<T> {
    if s == [] || !less(s[0], x) then [x] + s
    else [s[0]] + InsertBy(x, s[1..], less)
  }

  function SortBy<T>(s: seq<T>, less: (T, T) -> bool): seq<T> {
    if s == [] then [] else InsertBy(s[0], SortBy(s[1..], less), less)
  }

  lemma {:induction false} InsertBySorted<T(!new)>(x: T, s: seq<T>, less: (T, T) -> bool)
    requires StrictWeakOrder(less) && SortedBy(less, s)
    ensures SortedBy(less, InsertBy(x, s, less))
    ensures multiset(InsertBy(x, s, less)) == multiset{x} + multiset(s)
  {
    if s == [] {
    } else if !less(s[0], x) {
      forall i | 0 <= i < |s| ensures !less(s[i], x) {
        assert i > 0 ==> !less(s[i], s[0]);
      }
    } else {
      InsertBySorted(x, s[1..], less);
      var rest := InsertBy(x, s[1..], less);
      assert s == [s[0]] + s[1..];
      forall j | 0 <= j < |rest| ensures !less(rest[j], s[0]) {
        assert rest[j] in multiset(rest);
        if rest[j] != x {
          assert rest[j] in s[1..];
        }
      }
    }
  }

  // The contract `sort.Sort` is used under: the same elements, in order.
  lemma {:induction false} SortBySorts<T(!new)>(s: seq<T>, less: (T, T) -> bool)
    requires StrictWeakOrder(less)
    ensures SortedBy(less, SortBy(s, less))
    ensures multiset(SortBy(s, less)) == multiset(s)
    ensures |SortBy(s, less)| == |s|
  {
    if s != [] {
      SortBySorts(s[1..], less);
      InsertBySorted(s[0], SortBy(s[1..], less), less);
      assert s == [s[0]] + s[1..];
      assert |multiset(SortBy(s, less))| == |multiset(s)|;
    }
  }
}
