/** Query-set semantics on sequences: `filter(...)` keeps the rows a
    predicate accepts, in store order; `order_by(...)` sorts by a total
    preorder. The database leaves the order of ties open, so contracts
    about ordered results say "sorted and a permutation" and nothing more. */
module Ordering {

  /** The rows of `s` that `p` accepts, in their original order. */
  function Filter<T(!new)>(s: seq<T>, p: T -> bool): (r: seq<T>)
    ensures |r| <= |s|
    ensures forall x :: x in r <==> x in s && p(x)
    ensures forall x :: multiset(r)[x] == if p(x) then multiset(s)[x] else 0
  {
    if s == [] then []
    else
      assert s == [s[0]] + s[1..];
      (if p(s[0]) then [s[0]] else []) + Filter(s[1..], p)
  }

  predicate SortedBy<T>(s: seq<T>, le: (T, T) -> bool) {
    forall i, j :: 0 <= i < j < |s| ==> le(s[i], s[j])
  }

  /** `le` orders every pair and is transitive: what `order_by` needs of a key. */
  ghost predicate TotalPreorder<T(!new)>(le: (T, T) -> bool) {
    && (forall a, b :: le(a, b) || le(b, a))
    && (forall a, b, c :: le(a, b) && le(b, c) ==> le(a, c))
  }

  function Insert<T>(x: T, s: seq<T>, le: (T, T) -> bool): (r: seq<T>)
    ensures multiset(r) == multiset(s) + multiset{x}
    ensures |r| == |s| + 1
  {
    if s == [] then [x]
    else if le(x, s[0]) then [x] + s
    else
      assert s == [s[0]] + s[1..];
      [s[0]] + Insert(x, s[1..], le)
  }

  /** Insertion sort: one admissible result of `order_by` on `s`. */
  function SortBy<T>(s: seq<T>, le: (T, T) -> bool): (r: seq<T>)
    ensures multiset(r) == multiset(s)
    ensures |r| == |s|
  {
    if s == [] then []
    else
      assert s == [s[0]] + s[1..];
      Insert(s[0], SortBy(s[1..], le), le)
  }

  lemma {:induction false} InsertSorted<T(!new)>(x: T, s: seq<T>, le: (T, T) -> bool)
    requires TotalPreorder(le)
    requires SortedBy(s, le)
    ensures SortedBy(Insert(x, s, le), le)
  {
    if s != [] && !le(x, s[0]) {
      InsertSorted(x, s[1..], le);
      var r := Insert(x, s[1..], le);
      forall j | 0 <= j < |r| ensures le(s[0], r[j]) {
        assert r[j] in multiset(r);
        assert r[j] == x || r[j] in multiset(s[1..]);
        if r[j] != x {
          var k :| 0 <= k < |s[1..]| && s[1..][k] == r[j];
          assert s[k + 1] == r[j];
        }
      }
    }
  }

  lemma {:induction false} SortBySorted<T(!new)>(s: seq<T>, le: (T, T) -> bool)
    requires TotalPreorder(le)
    ensures SortedBy(SortBy(s, le), le)
  {
    if s != [] {
      SortBySorted(s[1..], le);
      InsertSorted(s[0], SortBy(s[1..], le), le);
    }
  }

  /** A prefix of a sorted sequence is sorted. */
  lemma SortedPrefix<T>(s: seq<T>, n: nat, le: (T, T) -> bool)
    requires SortedBy(s, le) && n <= |s|
    ensures SortedBy(s[..n], le)
  {
  }

  /** `order_by(...)[:n]`: the first `n` rows in order are sorted and are
      drawn from the rows, all of them when `n` covers them. */
  lemma TakeSorted<T(!new)>(s: seq<T>, n: nat, le: (T, T) -> bool)
    requires TotalPreorder(le) && n <= |s|
    ensures |SortBy(s, le)[..n]| == n
    ensures SortedBy(SortBy(s, le)[..n], le)
    ensures multiset(SortBy(s, le)[..n]) <= multiset(s)
    ensures n == |s| ==> multiset(SortBy(s, le)[..n]) == multiset(s)
  {
    var ordered := SortBy(s, le);
    SortBySorted(s, le);
    SortedPrefix(ordered, n, le);
    assert ordered == ordered[..n] + ordered[n..];
    if n == |s| {
      assert ordered[..n] == ordered;
    }
  }

  /** The first `n` rows in order are the smallest: every row left out is
      ordered after every row kept. */
  lemma TakeSmallest<T(!new)>(s: seq<T>, n: nat, le: (T, T) -> bool)
    requires TotalPreorder(le) && n <= |s|
    ensures forall b, c :: b in SortBy(s, le)[..n] && c in multiset(s) - multiset(SortBy(s, le)[..n]) ==> le(b, c)
  {
    var ordered := SortBy(s, le);
    SortBySorted(s, le);
    var kept, dropped := ordered[..n], ordered[n..];
    assert ordered == kept + dropped;
    assert multiset(s) - multiset(kept) == multiset(dropped);
    forall b, c | b in kept && c in multiset(s) - multiset(kept)
      ensures le(b, c)
    {
      assert c in dropped;
      var i :| 0 <= i < |kept| && kept[i] == b;
      var j :| 0 <= j < |dropped| && dropped[j] == c;
      assert ordered[i] == b && ordered[n + j] == c;
    }
  }
}
