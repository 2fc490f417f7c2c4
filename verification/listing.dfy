/** Building blocks of the list queries: `filter(...)`, `order_by("-created_at")`
    and the slice `[offset : offset + limit]` of a Django queryset.

    The database leaves the relative order of rows with equal `created_at`
    unspecified; the model fixes one admissible order (a stable insertion
    sort), and every contract about ordering holds for any tie order.
 */
module Listing {
  import opened Outcomes

  /** One page of a list response: the rows of the page and the size of the
      whole filtered set. */
  datatype Listed<T> = Listed(items: seq<T>, totalCount: nat)

  /** Non-increasing in `key`: newest first when `key` is a creation time. */
  predicate NewestFirst<T>(xs: seq<T>, key: T -> int)
  {
    forall i, j :: 0 <= i < j < |xs| ==> key(xs[i]) >= key(xs[j])
  }

  /** The rows of `xs` that satisfy `keep`, each kept as often as it occurs. */
  function Filter<T(==, !new)>(xs: seq<T>, keep: T -> bool): (r: seq<T>)
    ensures forall x :: multiset(r)[x] == if keep(x) then multiset(xs)[x] else 0
    ensures forall x :: x in r ==> keep(x)
  {
    if |xs| == 0 then []
    else
      var rest := Filter(xs[1..], keep);
      assert xs == [xs[0]] + xs[1..];
      if keep(xs[0]) then [xs[0]] + rest else rest
  }

  /** Places `x` before the first row that is not newer than it. */
  function InsertNewest<T(==)>(x: T, xs: seq<T>, key: T -> int): (r: seq<T>)
    requires NewestFirst(xs, key)
    ensures NewestFirst(r, key)
    ensures multiset(r) == multiset(xs) + multiset{x}
  {
    if |xs| == 0 then [x]
    else if key(x) >= key(xs[0]) then [x] + xs
    else
      var rest := InsertNewest(x, xs[1..], key);
      assert xs == [xs[0]] + xs[1..];
      assert forall y :: y in rest ==> key(xs[0]) >= key(y) by {
        forall y | y in rest
          ensures key(xs[0]) >= key(y)
        {
          assert y in multiset(rest);
          if y != x {
            assert y in multiset(xs[1..]);
            var j :| 0 <= j < |xs[1..]| && xs[1..][j] == y;
            assert xs[j + 1] == y;
          }
        }
      }
      [xs[0]] + rest
  }

  /** `order_by("-key")`: a newest-first permutation of `xs`. */
  function SortNewestFirst<T(==)>(xs: seq<T>, key: T -> int): (r: seq<T>)
    ensures NewestFirst(r, key)
    ensures multiset(r) == multiset(xs)
  {
    if |xs| == 0 then []
    else
      assert xs == [xs[0]] + xs[1..];
      InsertNewest(xs[0], SortNewestFirst(xs[1..], key), key)
  }

  /** The slice `xs[offset : offset + limit]`, which is cut short (or empty)
      when it reaches past the end. */
  function Window<T>(xs: seq<T>, offset: nat, limit: nat): (r: seq<T>)
    ensures |r| == if offset >= |xs| then 0 else Min(limit, |xs| - offset)
    ensures forall k :: 0 <= k < |r| ==> r[k] == xs[offset + k]
    ensures forall x :: x in r ==> x in xs
  {
    if offset >= |xs| then [] else xs[offset..Min(offset + limit, |xs|)]
  }
}
