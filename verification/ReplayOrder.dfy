/** The one order every member applies a space's operations in (internal/spaces/state.go:103-169). */
module ReplayOrder {
  // `IsOrder` says what that order is without saying how it is computed: repeatedly, the least operation all of
  // whose parents came before, until none is left. ReplayQueue's `Order` computes it as the source does.

  import opened Basics
  import opened Operations

  /** What the priority queue is ordered by: the clock, then the identifier. */
  predicate Less(a: Operation, b: Operation) {
    if a.time != b.time then a.time.Before(b.time) else a.id < b.id
  }

  /** No two operations share both clock and identifier, which the source leaves unordered. */
  ghost predicate DistinctKeys(s: set<Operation>) {
    forall a, b | a in s && b in s && a.time == b.time && a.id == b.id :: a == b
  }

  /** No two operations share a hash. */
  ghost predicate Collisionless(s: set<Operation>) {
    forall a, b | a in s && b in s && a.hash == b.hash :: a == b
  }

  ghost function Elements(q: seq<Operation>): set<Operation> {
    set o | o in q
  }

  ghost function Names(s: set<Operation>): set<Hash> {
    set o | o in s :: o.hash
  }

  ghost predicate Follows(root: Hash, done: set<Hash>, o: Operation) {
    forall p | p in o.parents :: p == root || p in done
  }

  ghost predicate IsReady(root: Hash, s: set<Operation>, done: set<Operation>, o: Operation) {
    o in s && o !in done && Follows(root, Names(done), o)
  }

  ghost predicate IsNext(root: Hash, s: set<Operation>, done: set<Operation>, o: Operation) {
    && IsReady(root, s, done, o)
    && forall x | IsReady(root, s, done, x) :: !Less(x, o)
  }

  ghost predicate IsOrdering(root: Hash, s: set<Operation>, q: seq<Operation>) {
    forall k | 0 <= k < |q| :: IsNext(root, s, Elements(q[..k]), q[k])
  }

  /** q is s in replay order: always the least ready operation, until no operation is ready. */
  ghost predicate IsOrder(root: Hash, s: set<Operation>, q: seq<Operation>) {
    && IsOrdering(root, s, q)
    && (forall o | o in s :: !IsReady(root, s, Elements(q), o))
  }

  /** o's ancestry, down to the root, is in s: at most n generations of it. */
  ghost predicate Grounded(root: Hash, s: set<Operation>, o: Operation, n: nat)
    decreases n, 1
  {
    o in s && forall p | p in o.parents && p != root :: n > 0 && NamesGrounded(root, s, p, n - 1)
  }

  ghost predicate NamesGrounded(root: Hash, s: set<Operation>, p: Hash, n: nat)
    decreases n, 2
  {
    exists x | x in s && x.hash == p :: Grounded(root, s, x, n)
  }

  ghost predicate AncestryKnown(root: Hash, s: set<Operation>, o: Operation) {
    exists n: nat :: Grounded(root, s, o, n)
  }

  /** The operations of q that are in d, in q's order. */
  ghost function Restrict(q: seq<Operation>, d: set<Operation>): (r: seq<Operation>)
    ensures Elements(r) == Elements(q) * d
  {
    if q == [] then []
    else
      var o := q[|q| - 1];
      var r := Restrict(q[..|q| - 1], d);
      assert Elements(q) == Elements(q[..|q| - 1]) + {o} by { assert q == q[..|q| - 1] + [o]; }
      var out := if o in d then r + [o] else r;
      assert Elements(out) == Elements(r) + if o in d then {o} else {};
      out
  }

  lemma OrderingExtends(root: Hash, s: set<Operation>, q: seq<Operation>, o: Operation)
    requires IsOrdering(root, s, q) && IsNext(root, s, Elements(q), o)
    ensures IsOrdering(root, s, q + [o]) && Elements(q + [o]) == Elements(q) + {o}
  {
    assert (q + [o])[..|q|] == q;
    forall k | 0 <= k < |q| ensures IsNext(root, s, Elements((q + [o])[..k]), (q + [o])[k]) {
      assert (q + [o])[..k] == q[..k];
    }
  }

  // ---- What an order is ----

  /** An operation comes once, after every operation it names, and is one of s. */
  lemma OrderIsCausal(root: Hash, s: set<Operation>, q: seq<Operation>)
    requires IsOrder(root, s, q)
    ensures Elements(q) <= s
    ensures forall i, j | 0 <= i < j < |q| :: q[i] != q[j]
    ensures forall j, p | 0 <= j < |q| && p in q[j].parents && p != root :: exists i | 0 <= i < j :: q[i].hash == p
  {
    forall o | o in q ensures o in s {
      var k :| 0 <= k < |q| && q[k] == o;
      assert IsNext(root, s, Elements(q[..k]), q[k]);
    }
    forall i, j | 0 <= i < j < |q| ensures q[i] != q[j] {
      assert IsNext(root, s, Elements(q[..j]), q[j]);
      assert q[..j][i] == q[i];
      assert q[i] in Elements(q[..j]);
    }
    forall j, p | 0 <= j < |q| && p in q[j].parents && p != root ensures exists i | 0 <= i < j :: q[i].hash == p {
      assert IsNext(root, s, Elements(q[..j]), q[j]);
      var x :| x in Elements(q[..j]) && x.hash == p;
      var i :| 0 <= i < j && q[..j][i] == x;
      assert q[i].hash == p;
    }
  }

  /** Of two operations both ready, the one that comes first is of the earlier clock; of equal clocks, its identifier is
      not the greater. */
  lemma EarliestReadyFirst(root: Hash, s: set<Operation>, q: seq<Operation>)
    requires IsOrder(root, s, q)
    ensures forall i, j | 0 <= i < j < |q| && (forall p | p in q[j].parents && p != root :: exists k | 0 <= k < i :: q[k].hash == p) ::
      var (a, b) := (q[i], q[j]);
      || a.time.wall < b.time.wall
      || (a.time.wall == b.time.wall && a.time.counter < b.time.counter)
      || (a.time.wall == b.time.wall && a.time.counter == b.time.counter && a.id <= b.id)
  {
    forall i, j | 0 <= i < j < |q| && (forall p | p in q[j].parents && p != root :: exists k | 0 <= k < i :: q[k].hash == p)
      ensures !Less(q[j], q[i])
    {
      NextIsNotAfter(root, s, q, i, j);
    }
  }

  lemma NextIsNotAfter(root: Hash, s: set<Operation>, q: seq<Operation>, i: nat, j: nat)
    requires IsOrder(root, s, q) && i < j < |q|
    requires forall p | p in q[j].parents && p != root :: exists k | 0 <= k < i :: q[k].hash == p
    ensures !Less(q[j], q[i])
  {
    OrderIsCausal(root, s, q);
    var done := Elements(q[..i]);
    assert forall k | 0 <= k < i :: q[..i][k] == q[k] && q[k] in done;
    assert q[j] in Elements(q);
    assert IsNext(root, s, done, q[i]);
    assert IsReady(root, s, done, q[j]);
  }

  lemma {:induction false} OrderedIsGrounded(root: Hash, s: set<Operation>, q: seq<Operation>, k: nat)
    requires IsOrder(root, s, q) && k < |q|
    ensures Grounded(root, s, q[k], k)
  {
    OrderIsCausal(root, s, q);
    assert q[k] in Elements(q);
    forall p | p in q[k].parents && p != root ensures k > 0 && NamesGrounded(root, s, p, k - 1) {
      var i :| 0 <= i < k && q[i].hash == p;
      OrderedIsGrounded(root, s, q, i);
      GroundedGrows(root, s, s, q[i], i, k - 1);
    }
  }

  /** Learning more, or allowing more generations, grounds no less. */
  lemma {:induction false} GroundedGrows(root: Hash, s: set<Operation>, t: set<Operation>, o: Operation, m: nat, n: nat)
    requires Grounded(root, s, o, m) && s <= t && m <= n
    ensures Grounded(root, t, o, n)
    decreases m
  {
    forall p | p in o.parents && p != root ensures NamesGrounded(root, t, p, n - 1) {
      assert NamesGrounded(root, s, p, m - 1);
      var x :| x in s && x.hash == p && Grounded(root, s, x, m - 1);
      GroundedGrows(root, s, t, x, m - 1, n - 1);
    }
  }

  lemma {:induction false} GroundedIsOrdered(root: Hash, s: set<Operation>, q: seq<Operation>, o: Operation, n: nat)
    requires IsOrder(root, s, q) && Grounded(root, s, o, n)
    ensures o in q
    decreases n
  {
    forall p | p in o.parents && p != root ensures p in Names(Elements(q)) {
      assert NamesGrounded(root, s, p, n - 1);
      var x :| x in s && x.hash == p && Grounded(root, s, x, n - 1);
      GroundedIsOrdered(root, s, q, x, n - 1);
      assert x in Elements(q);
    }
    assert Follows(root, Names(Elements(q)), o);
    assert !IsReady(root, s, Elements(q), o);
  }

  /** What is ordered is exactly what has its whole ancestry, down to the root, known; the rest waits. */
  lemma OrderedIffAncestryKnown(root: Hash, s: set<Operation>, q: seq<Operation>, o: Operation)
    requires IsOrder(root, s, q)
    ensures o in q <==> AncestryKnown(root, s, o)
  {
    if o in q {
      var k :| 0 <= k < |q| && q[k] == o;
      OrderedIsGrounded(root, s, q, k);
    }
    if AncestryKnown(root, s, o) {
      var n: nat :| Grounded(root, s, o, n);
      GroundedIsOrdered(root, s, q, o, n);
    }
  }

  // ---- Learning more never reorders ----

  /** r has run through q as far as j: of what q orders, before holds what q orders first. */
  ghost predicate HasRun(q: seq<Operation>, j: nat, done: set<Operation>) {
    j <= |q| && Elements(q[..j]) == done * Elements(q)
  }

  /** What comes next in the smaller set's order is ready in the larger's. */
  lemma NextIsReady(root: Hash, s: set<Operation>, t: set<Operation>, q: seq<Operation>, done: set<Operation>, j: nat)
    requires s <= t && IsOrder(root, s, q) && HasRun(q, j, done) && j < |q|
    ensures IsNext(root, s, Elements(q[..j]), q[j]) && IsReady(root, t, done, q[j])
  {
    var before := Elements(q[..j]);
    assert IsNext(root, s, before, q[j]);
    assert q[j] in Elements(q);
    assert Names(before) <= Names(done);
  }

  /** What is ready in the larger set, if the smaller orders it, is ready there too. */
  lemma ReadyInSmaller(root: Hash, s: set<Operation>, t: set<Operation>, q: seq<Operation>, done: set<Operation>, j: nat, o: Operation)
    requires s <= t && Collisionless(t) && done <= t
    requires IsOrder(root, s, q) && HasRun(q, j, done)
    requires IsReady(root, t, done, o) && o in q
    ensures j < |q| && IsReady(root, s, Elements(q[..j]), o)
  {
    var before := Elements(q[..j]);
    OrderIsCausal(root, s, q);
    var i :| 0 <= i < |q| && q[i] == o;
    assert o !in before && o in Elements(q);
    assert forall l | 0 <= l < j :: q[..j][l] in before && q[l] == q[..j][l];
    forall p | p in o.parents && p != root ensures p in Names(before) {
      var l :| 0 <= l < i && q[l].hash == p;
      assert q[l] in Elements(q);
      var x :| x in done && x.hash == p;
      assert x == q[l];
    }
  }

  /** The larger set's next operation, if the smaller orders it, is the smaller's next. */
  lemma NextIsSame(root: Hash, s: set<Operation>, t: set<Operation>, q: seq<Operation>, done: set<Operation>, j: nat, o: Operation)
    requires s <= t && Collisionless(t) && DistinctKeys(t) && done <= t
    requires IsOrder(root, s, q) && HasRun(q, j, done)
    requires IsNext(root, t, done, o) && o in Elements(q)
    ensures j < |q| && o == q[j]
  {
    ReadyInSmaller(root, s, t, q, done, j, o);
    NextIsReady(root, s, t, q, done, j);
    assert !Less(o, q[j]) && !Less(q[j], o);
  }

  lemma {:induction false} RunsThrough(root: Hash, s: set<Operation>, t: set<Operation>, q: seq<Operation>, r: seq<Operation>, k: nat)
    returns (j: nat)
    requires s <= t && Collisionless(t) && DistinctKeys(t)
    requires IsOrder(root, s, q) && IsOrder(root, t, r) && k <= |r|
    ensures HasRun(q, j, Elements(r[..k])) && Restrict(r[..k], Elements(q)) == q[..j]
  {
    if k == 0 {
      j := 0;
    } else {
      j := RunsThrough(root, s, t, q, r, k - 1);
      RestrictStep(r, k, Elements(q));
      hide *;
      if r[k - 1] in Elements(q) {
        InOrder(root, t, r, k - 1);
        NextIsSame(root, s, t, q, Elements(r[..k - 1]), j, r[k - 1]);
        assert q[..j + 1] == q[..j] + [q[j]];
        j := j + 1;
      }
      RunAsRestricted(q, r[..k], j);
    }
  }

  lemma RunAsRestricted(q: seq<Operation>, r: seq<Operation>, j: nat)
    requires j <= |q| && Restrict(r, Elements(q)) == q[..j]
    ensures HasRun(q, j, Elements(r))
  {
  }

  lemma InOrder(root: Hash, s: set<Operation>, q: seq<Operation>, k: nat)
    requires IsOrder(root, s, q) && k < |q|
    ensures IsNext(root, s, Elements(q[..k]), q[k]) && Elements(q[..k]) <= s
  {
    OrderIsCausal(root, s, q);
    forall o | o in q[..k] ensures o in Elements(q) { }
  }

  lemma RestrictStep(q: seq<Operation>, k: nat, d: set<Operation>)
    requires 0 < k <= |q|
    ensures Restrict(q[..k], d) == Restrict(q[..k - 1], d) + if q[k - 1] in d then [q[k - 1]] else []
  {
    assert q[..k][..k - 1] == q[..k - 1];
  }

  /** Stability: what a set orders, a larger set orders alike. Learning more puts operations between those
      already ordered, and never reorders them nor takes one out. */
  lemma LearningNeverReorders(root: Hash, s: set<Operation>, t: set<Operation>, q: seq<Operation>, r: seq<Operation>)
    requires s <= t && Collisionless(t) && DistinctKeys(t)
    requires IsOrder(root, s, q) && IsOrder(root, t, r)
    ensures Restrict(r, Elements(q)) == q
  {
    var j := RunsThrough(root, s, t, q, r, |r|);
    assert r[..|r|] == r;
    if j < |q| {
      NextIsReady(root, s, t, q, Elements(r), j);
    }
    assert q[..|q|] == q;
  }

  lemma {:induction false} RestrictToAll(q: seq<Operation>, d: set<Operation>)
    requires Elements(q) <= d
    ensures Restrict(q, d) == q
  {
    if q != [] {
      assert q == q[..|q| - 1] + [q[|q| - 1]];
      assert q[|q| - 1] in Elements(q);
      assert Elements(q[..|q| - 1]) <= d by {
        forall o | o in q[..|q| - 1] ensures o in d { assert o in Elements(q); }
      }
      RestrictToAll(q[..|q| - 1], d);
    }
  }

  /** A set has one order: members holding the same operations order them alike. */
  lemma OrderIsUnique(root: Hash, s: set<Operation>, q: seq<Operation>, r: seq<Operation>)
    requires Collisionless(s) && DistinctKeys(s)
    requires IsOrder(root, s, q) && IsOrder(root, s, r)
    ensures q == r
  {
    forall o | o in r ensures o in q {
      OrderedIffAncestryKnown(root, s, r, o);
      OrderedIffAncestryKnown(root, s, q, o);
    }
    LearningNeverReorders(root, s, s, q, r);
    RestrictToAll(r, Elements(q));
  }

  /** Once neither of two members has ordered an operation the other does not hold, both have ordered the
      same operations in the same order, whatever else each holds that waits. */
  lemma SettledExchangeAgrees(root: Hash, a: set<Operation>, b: set<Operation>, q: seq<Operation>, r: seq<Operation>)
    requires Collisionless(a + b) && DistinctKeys(a + b)
    requires IsOrder(root, a, q) && IsOrder(root, b, r)
    requires Elements(q) <= b && Elements(r) <= a
    ensures q == r
  {
    OrdersOwnOrdered(root, a, q);
    OrdersOwnOrdered(root, b, r);
    forall o | o in q ensures o in r { CarriesOver(root, a, b, q, r, o); }
    forall o | o in r ensures o in q { CarriesOver(root, b, a, r, q, o); }
    assert Elements(q) == Elements(r);
    OrderIsUnique(root, Elements(q), q, r);
  }

  lemma CarriesOver(root: Hash, a: set<Operation>, b: set<Operation>, q: seq<Operation>, r: seq<Operation>, o: Operation)
    requires IsOrder(root, a, q) && IsOrder(root, b, r) && Elements(q) <= b && o in q
    ensures o in r
  {
    OrdersOwnOrdered(root, a, q);
    OrderedIffAncestryKnown(root, Elements(q), q, o);
    var n: nat :| Grounded(root, Elements(q), o, n);
    GroundedGrows(root, Elements(q), b, o, n, n);
    OrderedIffAncestryKnown(root, b, r, o);
  }

  /** What waits has no part in the order. */
  lemma OrdersOwnOrdered(root: Hash, s: set<Operation>, q: seq<Operation>)
    requires IsOrder(root, s, q)
    ensures IsOrder(root, Elements(q), q)
  {
    OrderIsCausal(root, s, q);
    forall k | 0 <= k < |q| ensures IsNext(root, Elements(q), Elements(q[..k]), q[k]) {
      assert IsNext(root, s, Elements(q[..k]), q[k]);
    }
  }
}
