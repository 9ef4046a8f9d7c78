/**
  The three LINQ operators the task service builds its queries from
  (`Where`, `Select`, `FirstOrDefault`), over a table modelled as the
  sequence of its rows in storage order.
 */
module Linq {
  import opened Wrappers

  /**
    `Where(p)`: the rows that satisfy `p`, each as often as it occurs. That they
    keep their order is proved for key-ordered task tables (`WhereKeepsIdOrder`).
   */
  function Where<T(!new)>(s: seq<T>, p: T -> bool): (r: seq<T>)
    ensures |r| <= |s|
    ensures forall x :: multiset(r)[x] == if p(x) then multiset(s)[x] else 0
    ensures forall x :: x in r <==> x in s && p(x)
  {
    if s == [] then []
    else
      var rest := Where(s[1..], p);
      assert s == [s[0]] + s[1..];
      if p(s[0]) then [s[0]] + rest else rest
  }

  /** `Select(f)`: one result per row, the image of that row under `f`. */
  function Select<T, U>(s: seq<T>, f: T -> U): (r: seq<U>)
    ensures |r| == |s|
    ensures forall k :: 0 <= k < |s| ==> r[k] == f(s[k])
  {
    if s == [] then [] else [f(s[0])] + Select(s[1..], f)
  }

  /**
    The position of the row `FirstOrDefault(p)` returns: the first row that
    satisfies `p`, or `None` (the `null` default) when no row does.
   */
  function FirstIndex<T>(s: seq<T>, p: T -> bool): (r: Option<nat>)
    ensures r.None? <==> forall k :: 0 <= k < |s| ==> !p(s[k])
    ensures r.Some? ==> r.value < |s| && p(s[r.value])
    ensures r.Some? ==> forall k :: 0 <= k < r.value ==> !p(s[k])
  {
    if s == [] then None
    else if p(s[0]) then Some(0)
    else match FirstIndex(s[1..], p)
      case None => None
      case Some(i) => Some(i + 1)
  }

  /** A value is among the results of `Select` exactly when it is the image of some row. */
  lemma SelectMembership<T, U>(s: seq<T>, f: T -> U, y: U)
    ensures y in Select(s, f) <==> exists x :: x in s && y == f(x)
  {
  }

  /**
    Filtering by a predicate and by its negation splits the table: every row
    lands in exactly one of the two results, so their sizes add up to the table's.
   */
  lemma WherePartition<T(!new)>(s: seq<T>, p: T -> bool, q: T -> bool)
    requires forall x :: q(x) == !p(x)
    ensures multiset(Where(s, p)) + multiset(Where(s, q)) == multiset(s)
    ensures |Where(s, p)| + |Where(s, q)| == |s|
  {
  }
}
