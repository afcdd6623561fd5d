/** Numbers in ascending order, each once.

This is what slices.SortFunc and slices.Compact leave of hashes and role identifiers
(internal/spaces/operation.go:141-151), and ORDER BY of sequence numbers; and a set, in a strict order, has one. */
module Sorting {
  function Listed(q: seq<nat>): set<nat> { set r | r in q }

  predicate Ascending(q: seq<nat>) {
    forall i, j | 0 <= i < j < |q| :: q[i] < q[j]
  }

  /** q, sorted and each once. */
  method Sort(q: seq<nat>) returns (out: seq<nat>)
    ensures Ascending(out) && Listed(out) == Listed(q)
  {
    out := [];
    for i := 0 to |q|
      invariant Ascending(out) && Listed(out) == Listed(q[..i])
    {
      out := Insert(out, q[i]);
      assert q[..i + 1] == q[..i] + [q[i]];
    }
    assert q[..|q|] == q;
  }

  method Insert(q: seq<nat>, h: nat) returns (out: seq<nat>)
    requires Ascending(q)
    ensures Ascending(out) && Listed(out) == Listed(q) + {h}
  {
    var k := 0;
    while k < |q| && q[k] < h
      invariant 0 <= k <= |q| && forall j | 0 <= j < k :: q[j] < h
    {
      k := k + 1;
    }
    if k < |q| && q[k] == h { return q; }
    out := q[..k] + [h] + q[k..];
    InsertedAscending(q, k, h);
    InsertedListed(q, k, h);
  }

  lemma InsertedAscending(q: seq<nat>, k: nat, h: nat)
    requires Ascending(q) && k <= |q| && (forall j | 0 <= j < k :: q[j] < h) && (k < |q| ==> h < q[k])
    ensures Ascending(q[..k] + [h] + q[k..])
  {
    assert forall j | k <= j < |q| :: h < q[j];
  }

  lemma InsertedListed(q: seq<nat>, k: nat, h: nat)
    requires k <= |q|
    ensures Listed(q[..k] + [h] + q[k..]) == Listed(q) + {h}
  {
    assert q == q[..k] + q[k..];
    assert forall r :: r in q <==> r in q[..k] || r in q[k..];
  }

  // ---- A set has one order ----

  ghost predicate Ordered<T>(less: (T, T) -> bool, q: seq<T>) {
    forall i, j | 0 <= i < j < |q| :: less(q[i], q[j]) && !less(q[j], q[i])
  }

  ghost function Members<T(!new)>(q: seq<T>): set<T> { set e | e in q }

  /** Two sequences in the same strict order, of the same members, are the same. */
  lemma {:induction false} SameSetSameOrder<T(!new)>(less: (T, T) -> bool, x: seq<T>, y: seq<T>)
    requires Ordered(less, x) && Ordered(less, y) && Members(x) == Members(y)
    ensures x == y
  {
    NotEmpty(x);
    NotEmpty(y);
    if x != [] {
      LastsAgree(less, x, y);
      InPrefix(less, x);
      InPrefix(less, y);
      SameSetSameOrder(less, x[..|x| - 1], y[..|y| - 1]);
      assert x == x[..|x| - 1] + [x[|x| - 1]] && y == y[..|y| - 1] + [y[|y| - 1]];
    }
  }

  lemma NotEmpty<T(!new)>(x: seq<T>)
    ensures x != [] ==> Members(x) != {}
  {
    if x != [] { assert x[0] in Members(x); }
  }

  lemma LastsAgree<T(!new)>(less: (T, T) -> bool, x: seq<T>, y: seq<T>)
    requires Ordered(less, x) && Ordered(less, y) && x != [] && y != [] && Members(x) == Members(y)
    ensures x[|x| - 1] == y[|y| - 1]
  {
    var (e, f) := (x[|x| - 1], y[|y| - 1]);
    assert e in Members(y) && f in Members(x);
    var i, j :| 0 <= i < |y| && y[i] == e && 0 <= j < |x| && x[j] == f;
  }

  lemma InPrefix<T(!new)>(less: (T, T) -> bool, x: seq<T>)
    requires Ordered(less, x) && x != []
    ensures Members(x[..|x| - 1]) == Members(x) - {x[|x| - 1]}
  {
    var (init, e) := (x[..|x| - 1], x[|x| - 1]);
    assert x == init + [e];
  }
}
