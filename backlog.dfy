/**
  The two list operations a class's backlog goes through: finding the
  first subject not yet used today, and Python's `list.remove`, which drops
  the first occurrence of a value.
*/
module Backlog {
  import opened Wrappers

  /** The position of the first element of `q` that is not in `used`. */
  function FirstUnused<T(==)>(q: seq<T>, used: set<T>): (r: Option<nat>)
    ensures r.Some? ==> r.value < |q| && q[r.value] !in used
    ensures r.Some? ==> forall j :: 0 <= j < r.value ==> q[j] in used
    ensures r.None? ==> forall j :: 0 <= j < |q| ==> q[j] in used
  {
    if q == [] then None
    else if q[0] !in used then Some(0)
    else match FirstUnused(q[1..], used)
      case None => None
      case Some(i) => Some(i + 1)
  }

  /** Python's `list.remove`: drop the first occurrence of `x`. */
  function RemoveFirst<T(==)>(q: seq<T>, x: T): (r: seq<T>)
    requires x in q
    ensures |r| == |q| - 1
  {
    if q[0] == x then q[1..] else [q[0]] + RemoveFirst(q[1..], x)
  }

  /**
    When the subjects before position `k` all differ from `q[k]`, removing
    the first occurrence of `q[k]` removes position `k` and nothing else.
  */
  lemma {:induction false} RemoveFirstAt<T>(q: seq<T>, k: nat)
    requires k < |q|
    requires forall i :: 0 <= i < k ==> q[i] != q[k]
    ensures RemoveFirst(q, q[k]) == q[..k] + q[k + 1..]
  {
    if k == 0 {
      assert q[..0] + q[1..] == q[1..];
    } else {
      var t := q[1..];
      assert t[k - 1] == q[k];
      RemoveFirstAt(t, k - 1);
      assert q[0] != q[k];
      assert [q[0]] + (t[..k - 1] + t[k..]) == q[..k] + q[k + 1..];
    }
  }

  /** Removing one occurrence of `x` takes exactly one `x` out of the multiset of elements. */
  lemma {:induction false} RemoveFirstMultiset<T>(q: seq<T>, x: T)
    requires x in q
    ensures multiset(RemoveFirst(q, x)) == multiset(q) - multiset{x}
  {
    assert q == [q[0]] + q[1..];
    if q[0] != x {
      RemoveFirstMultiset(q[1..], x);
    }
  }

  /** Dropping position `k` takes exactly one `q[k]` out of the multiset of elements. */
  lemma DropAtMultiset<T>(q: seq<T>, k: nat)
    requires k < |q|
    ensures multiset(q[..k] + q[k + 1..]) == multiset(q) - multiset{q[k]}
  {
    assert q == q[..k] + [q[k]] + q[k + 1..];
  }

  /** The first-unused position is the only one with its defining property. */
  lemma FirstUnusedUnique<T>(q: seq<T>, used: set<T>, r: Option<nat>)
    requires r.Some? ==> r.value < |q| && q[r.value] !in used && forall j :: 0 <= j < r.value ==> q[j] in used
    requires r.None? ==> forall j :: 0 <= j < |q| ==> q[j] in used
    ensures r == FirstUnused(q, used)
  {
  }
}
