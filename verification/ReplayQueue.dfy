/** The replay order as the source computes it (internal/spaces/state.go:117-169). */
module ReplayQueue {
  // This is Kahn's algorithm over maps whose iteration order is arbitrary, with counters of missing parents, lists of
  // children, and a priority queue of ready operations.

  import opened Basics
  import opened Operations
  import opened ReplayOrder

  /** How many of the parents ps are still missing. */
  ghost function Pending(ps: seq<Hash>, root: Hash, done: set<Hash>): nat {
    if ps == [] then 0
    else
      var p := ps[|ps| - 1];
      Pending(ps[..|ps| - 1], root, done) + if p != root && p !in done then 1 else 0
  }

  lemma {:induction false} NonePending(ps: seq<Hash>, root: Hash, done: set<Hash>)
    ensures Pending(ps, root, done) == 0 <==> forall p | p in ps :: p == root || p in done
  {
    if ps != [] {
      assert ps == ps[..|ps| - 1] + [ps[|ps| - 1]];
      NonePending(ps[..|ps| - 1], root, done);
    }
  }

  /** Once h is applied, what waited for it has as many fewer parents missing as it named h. */
  lemma {:induction false} PendingDrops(ps: seq<Hash>, root: Hash, done: set<Hash>, h: Hash)
    requires h !in done
    ensures Pending(ps, root, done) == Pending(ps, root, done + {h}) + Named(ps, root, h)
  {
    if ps != [] {
      assert ps == ps[..|ps| - 1] + [ps[|ps| - 1]];
      PendingDrops(ps[..|ps| - 1], root, done, h);
    }
  }

  /** How many times ps names p; the root is never waited for. */
  ghost function Named(ps: seq<Hash>, root: Hash, p: Hash): nat {
    if p == root then 0 else Times(ps, p)
  }

  ghost function Times(q: seq<Hash>, h: Hash): nat { multiset(q)[h] }

  /** The queue r holds exactly the operations q, each once. */
  ghost predicate Holds(r: seq<Operation>, q: set<Operation>) {
    Elements(r) == q && forall i, j | 0 <= i < j < |r| :: r[i] != r[j]
  }

  lemma Push(r: seq<Operation>, q: set<Operation>, o: Operation)
    requires Holds(r, q) && o !in q
    ensures Holds(r + [o], q + {o})
  {
    assert forall x | x in r :: x in Elements(r);
  }

  /** A map's value, or Go's zero value for a key it does not hold. */
  function Count(m: map<Hash, nat>, h: Hash): nat { if h in m then m[h] else 0 }

  function Children(m: map<Hash, seq<Hash>>, h: Hash): seq<Hash> { if h in m then m[h] else [] }

  /** byHash holds s, each operation under its hash. */
  ghost predicate Indexes(byHash: map<Hash, Operation>, s: set<Operation>) {
    && (forall h | h in byHash :: byHash[h] in s && byHash[h].hash == h)
    && (forall o | o in s :: o.hash in byHash)
  }

  /** The children of each operation are those that name it, once for every time they do. */
  ghost predicate ChildrenName(root: Hash, named: map<Hash, seq<Hash>>, children: map<Hash, seq<Hash>>) {
    forall p :: Lists(root, named, p, Children(children, p))
  }

  ghost predicate Lists(root: Hash, named: map<Hash, seq<Hash>>, p: Hash, children: seq<Hash>) {
    forall c :: Times(children, c) == if c in named then Named(named[c], root, p) else 0
  }

  /** Each counter is how many of the parents named so far are missing. */
  ghost predicate Counts(root: Hash, named: map<Hash, seq<Hash>>, done: set<Hash>, missing: map<Hash, nat>) {
    forall h :: Count(missing, h) == if h in named then Pending(named[h], root, done) else 0
  }

  /** The operations of s, out apart, that wait for no parent. */
  ghost function Free(s: set<Operation>, out: set<Operation>, missing: map<Hash, nat>): set<Operation> {
    set o | o in s && o !in out && Count(missing, o.hash) == 0
  }

  /** Waiting for no parent is being ready. */
  lemma FreeIsReady(root: Hash, s: set<Operation>, named: map<Hash, seq<Hash>>, out: set<Operation>, missing: map<Hash, nat>, o: Operation)
    requires Counts(root, named, Names(out), missing)
    requires forall o | o in s :: o.hash in named && named[o.hash] == o.parents
    ensures o in Free(s, out, missing) <==> IsReady(root, s, out, o)
  {
    if o in s { NonePending(o.parents, root, Names(out)); }
  }

  /** What heap.Pop does: takes out an operation that no other in the queue is less than. */
  method PopLeast(r: seq<Operation>, ghost q: set<Operation>) returns (op: Operation, rest: seq<Operation>)
    requires r != [] && Holds(r, q)
    ensures op in q && forall x | x in q :: !Less(x, op)
    ensures forall x | x in q ::
      || op.time.wall < x.time.wall
      || (op.time.wall == x.time.wall && op.time.counter < x.time.counter)
      || (op.time.wall == x.time.wall && op.time.counter == x.time.counter && op.id <= x.id)
    ensures Holds(rest, q - {op})
  {
    var least := 0;
    for i := 1 to |r|
      invariant 0 <= least < |r|
      invariant forall j | 0 <= j < i :: !Less(r[j], r[least])
    {
      if Less(r[i], r[least]) { least := i; }
    }
    op, rest := r[least], r[..least] + r[least + 1..];
    assert r == r[..least] + [op] + r[least + 1..];
  }

  predicate IsLeast(h: Hash, s: set<Hash>) {
    h in s && forall x | x in s :: h <= x
  }

  lemma {:induction false} LeastHash(s: set<Hash>) returns (least: Hash)
    requires s != {}
    ensures IsLeast(least, s)
  {
    least :| least in s;
    var t := s - {least};
    assert s == t + {least};
    if t != {} {
      var l := LeastHash(t);
      least := if l < least then l else least;
    }
  }

  method Order(root: Hash, ops: seq<Operation>) returns (ordered: seq<Operation>, waiting: seq<Operation>)
    requires Collisionless(Elements(ops))
    ensures IsOrder(root, Elements(ops), ordered)
    ensures forall i, j | 0 <= i < j < |ordered| && (forall p | p in ordered[j].parents && p != root :: exists k | 0 <= k < i :: ordered[k].hash == p) ::
      var (a, b) := (ordered[i], ordered[j]);
      || a.time.wall < b.time.wall
      || (a.time.wall == b.time.wall && a.time.counter < b.time.counter)
      || (a.time.wall == b.time.wall && a.time.counter == b.time.counter && a.id <= b.id)
    ensures Elements(waiting) == Elements(ops) - Elements(ordered)
    ensures Sorted(waiting)
  {
    var byHash: map<Hash, Operation> := map[];
    for i := 0 to |ops|
      invariant Indexes(byHash, Elements(ops[..i]))
    {
      byHash := byHash[ops[i].hash := ops[i]];
      assert ops[..i + 1] == ops[..i] + [ops[i]];
    }
    assert ops[..|ops|] == ops;
    var missing, children, r := Link(root, byHash, Elements(ops));
    ordered, missing := Drain(root, byHash, Elements(ops), missing, children, r);
    waiting := Waiting(byHash, Elements(ops), missing);
    hide *;
    EarliestReadyFirst(root, Elements(ops), ordered);
  }

  /** The second loop of `order`: applies the least ready operation until none is. */
  method Drain(root: Hash, byHash: map<Hash, Operation>, ghost s: set<Operation>,
      missing0: map<Hash, nat>, children: map<Hash, seq<Hash>>, r0: seq<Operation>)
    returns (ordered: seq<Operation>, missing: map<Hash, nat>)
    requires Collisionless(s) && Indexes(byHash, s)
    requires Counts(root, Parents(byHash, {}), {}, missing0)
    requires ChildrenName(root, Parents(byHash, {}), children)
    requires Holds(r0, Free(s, {}, missing0))
    ensures IsOrder(root, s, ordered)
    ensures forall o | o in s :: o in ordered <==> Count(missing, o.hash) == 0
  {
    var r := r0;
    ordered, missing := [], missing0;
    assert Names({}) == {};
    while r != []
      invariant IsOrdering(root, s, ordered) && Elements(ordered) <= s
      invariant Counts(root, Parents(byHash, {}), Names(Elements(ordered)), missing)
      invariant NoneWaits(Elements(ordered), missing)
      invariant Holds(r, Free(s, Elements(ordered), missing))
      decreases |s - Elements(ordered)|
    {
      hide *;
      var op;
      op, missing, r := ApplyLeast(root, byHash, s, Elements(ordered), missing, children, r);
      OrderingExtends(root, s, ordered, op);
      ordered := ordered + [op];
    }
    AllDrained(root, byHash, s, Elements(ordered), missing);
  }

  /** One turn of the second loop of `order`. */
  method ApplyLeast(root: Hash, byHash: map<Hash, Operation>, ghost s: set<Operation>, ghost done: set<Operation>,
      missing: map<Hash, nat>, children: map<Hash, seq<Hash>>, r: seq<Operation>)
    returns (op: Operation, missing': map<Hash, nat>, r': seq<Operation>)
    requires Collisionless(s) && Indexes(byHash, s) && done <= s && NoneWaits(done, missing)
    requires Counts(root, Parents(byHash, {}), Names(done), missing)
    requires ChildrenName(root, Parents(byHash, {}), children)
    requires r != [] && Holds(r, Free(s, done, missing))
    ensures op in s - done && |s - (done + {op})| < |s - done| && IsNext(root, s, done, op)
    ensures NoneWaits(done + {op}, missing') && Holds(r', Free(s, done + {op}, missing'))
    ensures Counts(root, Parents(byHash, {}), Names(done + {op}), missing')
  {
    hide *;
    op, r' := PopLeast(r, Free(s, done, missing));
    LeastIsNext(root, byHash, s, done, missing, op);
    ChildrenListed(root, Parents(byHash, {}), children, op.hash);
    assert s - (done + {op}) == (s - done) - {op};
    missing', r' := Release(root, byHash, s, done, op, missing, Children(children, op.hash), r');
  }

  /** With no operation free, none is ready, and what was applied is what waits for no parent. */
  lemma AllDrained(root: Hash, byHash: map<Hash, Operation>, s: set<Operation>, out: set<Operation>, missing: map<Hash, nat>)
    requires Collisionless(s) && Indexes(byHash, s) && NoneWaits(out, missing) && Free(s, out, missing) == {}
    requires Counts(root, Parents(byHash, {}), Names(out), missing)
    ensures forall o | o in s :: !IsReady(root, s, out, o) && (o in out <==> Count(missing, o.hash) == 0)
  {
    forall o | o in s ensures !IsReady(root, s, out, o) && (o in out <==> Count(missing, o.hash) == 0) {
      FreeIsReady(root, s, Parents(byHash, {}), out, missing, o);
    }
  }

  lemma ChildrenListed(root: Hash, named: map<Hash, seq<Hash>>, children: map<Hash, seq<Hash>>, h: Hash)
    requires ChildrenName(root, named, children)
    ensures Lists(root, named, h, Children(children, h))
  {
  }

  ghost predicate NoneWaits(out: set<Operation>, missing: map<Hash, nat>) {
    forall o | o in out :: Count(missing, o.hash) == 0
  }

  lemma LeastIsNext(root: Hash, byHash: map<Hash, Operation>, s: set<Operation>, out: set<Operation>, missing: map<Hash, nat>, op: Operation)
    requires Collisionless(s) && Indexes(byHash, s) && NoneWaits(out, missing)
    requires Counts(root, Parents(byHash, {}), Names(out), missing)
    requires op in Free(s, out, missing) && forall x | x in Free(s, out, missing) :: !Less(x, op)
    ensures IsNext(root, s, out, op) && op in s - out
    ensures NoneWaits(out + {op}, missing)
  {
    var named := Parents(byHash, {});
    FreeIsReady(root, s, named, out, missing, op);
    forall x | IsReady(root, s, out, x) ensures !Less(x, op) { FreeIsReady(root, s, named, out, missing, x); }
  }

  /** The last loop of `order`: what still misses a parent, by hash. */
  method Waiting(byHash: map<Hash, Operation>, ghost s: set<Operation>, missing: map<Hash, nat>) returns (waiting: seq<Operation>)
    requires Collisionless(s) && Indexes(byHash, s)
    ensures Elements(waiting) == set o | o in s && Count(missing, o.hash) > 0
    ensures Sorted(waiting)
  {
    waiting := [];
    var todo := byHash.Keys;
    while todo != {}
      invariant todo <= byHash.Keys && Sorted(waiting) && Elements(waiting) == Delayed(s, todo, missing)
      invariant forall o, h | o in Delayed(s, todo, missing) && h in todo :: o.hash < h
    {
      ghost var least := LeastHash(todo);
      var h :| h in todo && IsLeast(h, todo);
      DelayedGrows(byHash, s, todo, missing, h, waiting);
      if Count(missing, h) > 0 { waiting := waiting + [byHash[h]]; }
      todo := todo - {h};
    }
    assert Delayed(s, {}, missing) == set o | o in s && Count(missing, o.hash) > 0;
  }

  ghost predicate Sorted(q: seq<Operation>) {
    forall i, j | 0 <= i < j < |q| :: q[i].hash < q[j].hash
  }

  ghost function Delayed(s: set<Operation>, todo: set<Hash>, missing: map<Hash, nat>): set<Operation> {
    set o | o in s && o.hash !in todo && Count(missing, o.hash) > 0
  }

  lemma DelayedGrows(byHash: map<Hash, Operation>, s: set<Operation>, todo: set<Hash>, missing: map<Hash, nat>, h: Hash, waiting: seq<Operation>)
    requires Collisionless(s) && Indexes(byHash, s) && todo <= byHash.Keys && IsLeast(h, todo)
    requires Sorted(waiting) && Elements(waiting) == Delayed(s, todo, missing)
    requires forall o, h | o in Delayed(s, todo, missing) && h in todo :: o.hash < h
    ensures var waiting' := if Count(missing, h) > 0 then waiting + [byHash[h]] else waiting;
      Sorted(waiting') && Elements(waiting') == Delayed(s, todo - {h}, missing)
    ensures forall o, h' | o in Delayed(s, todo - {h}, missing) && h' in todo - {h} :: o.hash < h'
  {
    DelayedIs(byHash, s, todo, missing, h);
    var op := byHash[h];
    forall o | o in waiting ensures o.hash < op.hash { assert o in Elements(waiting); }
    hide Delayed, Collisionless, Indexes;
    SortedMore(waiting, op);
  }

  lemma SortedMore(q: seq<Operation>, op: Operation)
    requires Sorted(q) && forall o | o in q :: o.hash < op.hash
    ensures Sorted(q + [op]) && Elements(q + [op]) == Elements(q) + {op}
  {
  }

  lemma DelayedIs(byHash: map<Hash, Operation>, s: set<Operation>, todo: set<Hash>, missing: map<Hash, nat>, h: Hash)
    requires Collisionless(s) && Indexes(byHash, s) && todo <= byHash.Keys && h in todo
    ensures byHash[h].hash == h
    ensures Delayed(s, todo - {h}, missing) == Delayed(s, todo, missing) + if Count(missing, h) > 0 then {byHash[h]} else {}
  {
  }

  /** The first loop of `order`: counts each operation's parents, lists them their children, and queues those
      with none to wait for. */
  method Link(root: Hash, byHash: map<Hash, Operation>, ghost s: set<Operation>)
    returns (missing: map<Hash, nat>, children: map<Hash, seq<Hash>>, r: seq<Operation>)
    requires Collisionless(s) && Indexes(byHash, s)
    ensures Counts(root, Parents(byHash, {}), {}, missing)
    ensures ChildrenName(root, Parents(byHash, {}), children)
    ensures Holds(r, Free(s, {}, missing))
  {
    missing, children, r := map[], map[], [];
    var todo := byHash.Keys;
    while todo != {}
      invariant todo <= byHash.Keys
      invariant Counts(root, Parents(byHash, todo), {}, missing) && ChildrenName(root, Parents(byHash, todo), children)
      invariant Holds(r, Free(Linked(s, todo), {}, missing))
    {
      hide Counts, ChildrenName, Linked, Free, Holds;
      var h :| h in todo;
      var op := byHash[h];
      ghost var was := missing;
      missing, children := LinkParents(root, op, missing, children, Parents(byHash, todo));
      assert Parents(byHash, todo)[h := op.parents] == Parents(byHash, todo - {h});
      QueueGrows(root, byHash, s, todo, h, was, missing);
      if Count(missing, h) == 0 {
        Push(r, Free(Linked(s, todo), {}, was), op);
        r := r + [op];
      }
      todo := todo - {h};
    }
    assert Linked(s, todo) == s;
  }

  ghost function Parents(byHash: map<Hash, Operation>, todo: set<Hash>): map<Hash, seq<Hash>> {
    map h | h in byHash && h !in todo :: byHash[h].parents
  }

  ghost function Linked(s: set<Operation>, todo: set<Hash>): set<Operation> {
    set o | o in s && o.hash !in todo
  }

  lemma QueueGrows(root: Hash, byHash: map<Hash, Operation>, s: set<Operation>, todo: set<Hash>, h: Hash,
      was: map<Hash, nat>, missing: map<Hash, nat>)
    requires Collisionless(s) && Indexes(byHash, s) && h in todo && todo <= byHash.Keys
    requires Counts(root, Parents(byHash, todo), {}, was) && Counts(root, Parents(byHash, todo - {h}), {}, missing)
    ensures Free(Linked(s, todo - {h}), {}, missing) ==
            Free(Linked(s, todo), {}, was) + if Count(missing, h) == 0 then {byHash[h]} else {}
    ensures byHash[h] !in Free(Linked(s, todo), {}, was)
  {
    assert Linked(s, todo - {h}) == Linked(s, todo) + {byHash[h]};
    forall o | o in Linked(s, todo) ensures Count(missing, o.hash) == Count(was, o.hash) {
      assert o.hash in Parents(byHash, todo) && o.hash in Parents(byHash, todo - {h});
    }
  }

  method LinkParents(root: Hash, op: Operation, missing: map<Hash, nat>, children: map<Hash, seq<Hash>>, ghost named: map<Hash, seq<Hash>>)
    returns (missing': map<Hash, nat>, children': map<Hash, seq<Hash>>)
    requires op.hash !in named && Counts(root, named, {}, missing) && ChildrenName(root, named, children)
    ensures Counts(root, named[op.hash := op.parents], {}, missing')
    ensures ChildrenName(root, named[op.hash := op.parents], children')
  {
    missing', children' := missing, children;
    LinkNothing(root, op.hash, missing, children, named);
    hide *;
    assert op.parents[..0] == [];
    for j := 0 to |op.parents|
      invariant Counts(root, named[op.hash := op.parents[..j]], {}, missing')
      invariant ChildrenName(root, named[op.hash := op.parents[..j]], children')
    {
      missing', children' := LinkParent(root, op.hash, op.parents[j], missing', children', named[op.hash := op.parents[..j]]);
      assert named[op.hash := op.parents[..j]][op.hash := op.parents[..j] + [op.parents[j]]] == named[op.hash := op.parents[..j + 1]] by {
        assert op.parents[..j] + [op.parents[j]] == op.parents[..j + 1];
      }
    }
    assert op.parents[..|op.parents|] == op.parents;
  }

  lemma LinkNothing(root: Hash, h: Hash, missing: map<Hash, nat>, children: map<Hash, seq<Hash>>, named: map<Hash, seq<Hash>>)
    requires h !in named && Counts(root, named, {}, missing) && ChildrenName(root, named, children)
    ensures Counts(root, named[h := []], {}, missing) && ChildrenName(root, named[h := []], children)
  {
    forall p ensures Lists(root, named[h := []], p, Children(children, p)) {
      ChildrenListed(root, named, children, p);
    }
  }

  method LinkParent(root: Hash, h: Hash, p: Hash, missing: map<Hash, nat>, children: map<Hash, seq<Hash>>, ghost named: map<Hash, seq<Hash>>)
    returns (missing': map<Hash, nat>, children': map<Hash, seq<Hash>>)
    requires h in named && Counts(root, named, {}, missing) && ChildrenName(root, named, children)
    ensures Counts(root, named[h := named[h] + [p]], {}, missing')
    ensures ChildrenName(root, named[h := named[h] + [p]], children')
  {
    hide Counts, ChildrenName;
    CountParent(root, h, p, missing, named);
    ListParent(root, h, p, children, named);
    missing', children' := missing, children;
    if p != root {
      missing' := missing[h := Count(missing, h) + 1];
      children' := children[p := Children(children, p) + [h]];
    }
  }

  lemma CountParent(root: Hash, h: Hash, p: Hash, missing: map<Hash, nat>, named: map<Hash, seq<Hash>>)
    requires h in named && Counts(root, named, {}, missing)
    ensures Counts(root, named[h := named[h] + [p]], {}, if p == root then missing else missing[h := Count(missing, h) + 1])
  {
    assert (named[h] + [p])[..|named[h]|] == named[h];
  }

  lemma ListParent(root: Hash, h: Hash, p: Hash, children: map<Hash, seq<Hash>>, named: map<Hash, seq<Hash>>)
    requires h in named && ChildrenName(root, named, children)
    ensures ChildrenName(root, named[h := named[h] + [p]], if p == root then children else children[p := Children(children, p) + [h]])
  {
    var children' := if p == root then children else children[p := Children(children, p) + [h]];
    forall x ensures Lists(root, named[h := named[h] + [p]], x, Children(children', x)) {
      hide Lists;
      ListNamed(root, h, p, named, x, Children(children, x));
    }
  }

  lemma ListNamed(root: Hash, h: Hash, p: Hash, named: map<Hash, seq<Hash>>, x: Hash, children: seq<Hash>)
    requires h in named && Lists(root, named, x, children)
    ensures Lists(root, named[h := named[h] + [p]], x, if x == p && p != root then children + [h] else children)
  {
    Appended(named[h], p);
    Appended(children, h);
  }

  lemma Appended(q: seq<Hash>, h: Hash)
    ensures forall c :: Times(q + [h], c) == Times(q, c) + if c == h then 1 else 0
  {
  }

  /** The inner loop of `order`: op was applied, and each of its children waits for one parent fewer. */
  method Release(root: Hash, byHash: map<Hash, Operation>, ghost s: set<Operation>, ghost was: set<Operation>, op: Operation,
      missing: map<Hash, nat>, children: seq<Hash>, r: seq<Operation>)
    returns (missing': map<Hash, nat>, r': seq<Operation>)
    requires Collisionless(s) && Indexes(byHash, s) && was <= s && op in s - was
    requires Lists(root, Parents(byHash, {}), op.hash, children)
    requires Counts(root, Parents(byHash, {}), Names(was), missing)
    requires NoneWaits(was + {op}, missing)
    requires Holds(r, Free(s, was, missing) - {op})
    ensures Counts(root, Parents(byHash, {}), Names(was + {op}), missing')
    ensures NoneWaits(was + {op}, missing')
    ensures Holds(r', Free(s, was + {op}, missing'))
  {
    hide *;
    missing', r' := missing, r;
    ghost var out := was + {op};
    ReleaseBegins(root, byHash, s, was, op, missing, children);
    for i := 0 to |children|
      invariant Decremented(missing, children[..i], missing') && NoneWaits(out, missing')
      invariant Holds(r', Free(s, out, missing'))
    {
      var c := children[i];
      DecrementFrees(byHash, s, out, missing, missing', children, i);
      ghost var free := Free(s, out, missing');
      missing' := missing'[c := Count(missing', c) - 1];
      if missing'[c] == 0 {
        Push(r', free, byHash[c]);
        r' := r' + [byHash[c]];
      }
    }
    assert children[..|children|] == children;
  }

  /** An operation's children, counted, are what each waits for it. */
  lemma ReleaseBegins(root: Hash, byHash: map<Hash, Operation>, s: set<Operation>, was: set<Operation>, op: Operation,
      missing: map<Hash, nat>, children: seq<Hash>)
    requires Collisionless(s) && Indexes(byHash, s) && was <= s && op in s - was
    requires Lists(root, Parents(byHash, {}), op.hash, children)
    requires Counts(root, Parents(byHash, {}), Names(was), missing)
    requires NoneWaits(was + {op}, missing)
    ensures Decremented(missing, children[..0], missing)
    ensures Free(s, was, missing) - {op} == Free(s, was + {op}, missing)
    ensures forall c :: Times(children, c) <= Count(missing, c)
    ensures forall c | c in children :: c in byHash
    ensures forall missing' | Decremented(missing, children, missing') :: Counts(root, Parents(byHash, {}), Names(was + {op}), missing')
  {
    ChildrenPend(root, Parents(byHash, {}), Names(was), op.hash, missing, children);
    assert Names(was + {op}) == Names(was) + {op.hash};
    forall c | c in children ensures c in byHash { assert Times(children, c) > 0; }
  }

  ghost predicate Decremented(missing: map<Hash, nat>, gone: seq<Hash>, missing': map<Hash, nat>) {
    forall h :: Count(missing', h) == Count(missing, h) - Times(gone, h)
  }

  lemma DecrementFrees(byHash: map<Hash, Operation>, s: set<Operation>, out: set<Operation>,
      missing0: map<Hash, nat>, missing: map<Hash, nat>, children: seq<Hash>, i: nat)
    requires Collisionless(s) && Indexes(byHash, s) && NoneWaits(out, missing) && i < |children|
    requires Decremented(missing0, children[..i], missing)
    requires forall c :: Times(children, c) <= Count(missing0, c)
    requires forall c | c in children :: c in byHash
    ensures var c := children[i];
      && Count(missing, c) > 0 && c in byHash
      && var missing' := missing[c := Count(missing, c) - 1];
      && Decremented(missing0, children[..i + 1], missing') && NoneWaits(out, missing')
      && Free(s, out, missing') == (if missing'[c] == 0 then Free(s, out, missing) + {byHash[c]} else Free(s, out, missing))
      && byHash[c] !in Free(s, out, missing)
  {
    var c := children[i];
    Appended(children[..i], c);
    assert children[..i + 1] == children[..i] + [c];
    assert Times(children, c) >= Times(children[..i + 1], c) by {
      assert children == children[..i + 1] + children[i + 1..];
    }
    var missing' := missing[c := Count(missing, c) - 1];
    forall o | o in s && o != byHash[c] ensures Count(missing', o.hash) == Count(missing, o.hash) {
      assert o.hash != c;
    }
    assert byHash[c] !in out;
  }

  lemma ChildrenPend(root: Hash, named: map<Hash, seq<Hash>>, done: set<Hash>, h: Hash, missing: map<Hash, nat>, children: seq<Hash>)
    requires h !in done && Counts(root, named, done, missing)
    requires Lists(root, named, h, children)
    ensures forall c :: Times(children, c) <= Count(missing, c)
    ensures forall missing' | Decremented(missing, children, missing') :: Counts(root, named, done + {h}, missing')
  {
    forall c | c in named
      ensures Pending(named[c], root, done) == Pending(named[c], root, done + {h}) + Times(children, c)
    {
      PendingDrops(named[c], root, done, h);
    }
  }
}
