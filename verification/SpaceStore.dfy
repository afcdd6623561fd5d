/** Making, keeping and exchanging a space's operations, and settling its secret. */
module SpaceStore {
  // internal/spaces/store.go:138-206, operation.go:54-212, epoch.go:111-151 and sync.go:58-79.

  import opened Basics
  import opened Operations
  import opened ReplayOrder
  import opened Sorting
  import opened Authority
  import opened Epochs
  import opened SpaceState

  // ---- A fresh operation comes last ----

  /** heads cover q: each is a head of q, and every head of q is one of them. */
  ghost predicate Heads(root: Hash, q: seq<Operation>, heads: seq<Hash>) {
    forall h :: h in heads <==> IsHead(root, q, h)
  }

  /** An operation made after the heads of what is known, and which nothing known names, is applied last: the
      order of everything else is what it was. */
  lemma FreshComesLast(root: Hash, s: set<Operation>, q: seq<Operation>, op: Operation)
    requires IsOrder(root, s, q) && Collisionless(s + {op}) && op !in s
    requires op.hash != root && forall o | o in s :: o.hash != root && op.hash !in o.parents
    requires Heads(root, q, op.parents)
    ensures IsOrder(root, s + {op}, q + [op])
  {
    forall k | 0 <= k < |q| ensures IsNext(root, s + {op}, Elements(q[..k]), q[k]) {
      WaitsForLast(root, s, q, op, k);
      assert IsNext(root, s, Elements(q[..k]), q[k]);
    }
    FreshIsNext(root, s, q, op);
    OrderingExtends(root, s + {op}, q, op);
    forall o | o in s + {op} ensures !IsReady(root, s + {op}, Elements(q + [op]), o) {
      assert op in Elements(q + [op]);
      if o in s { assert !IsReady(root, s, Elements(q), o); }
    }
  }

  /** Until all of q is applied, its last operation is a head op still waits for. */
  lemma WaitsForLast(root: Hash, s: set<Operation>, q: seq<Operation>, op: Operation, k: nat)
    requires IsOrder(root, s, q) && Collisionless(s + {op}) && op !in s && k < |q|
    requires forall o | o in s :: o.hash != root
    requires Heads(root, q, op.parents)
    ensures !IsReady(root, s + {op}, Elements(q[..k]), op)
  {
    OrderIsCausal(root, s, q);
    var last := q[|q| - 1];
    assert last in Elements(q);
    assert forall i | 0 <= i < |q| :: q[i] in Elements(q);
    assert last.hash !in NamedIn(q);
    assert IsHead(root, q, last.hash);
    assert last.hash !in Names(Elements(q[..k]));
  }

  /** With all of q applied, op is ready, and nothing else is. */
  lemma FreshIsNext(root: Hash, s: set<Operation>, q: seq<Operation>, op: Operation)
    requires IsOrder(root, s, q) && op !in s
    requires Heads(root, q, op.parents)
    ensures IsNext(root, s + {op}, Elements(q), op)
  {
    OrderIsCausal(root, s, q);
    forall p | p in op.parents && p != root ensures p in Names(Elements(q)) {
      assert IsHead(root, q, p);
      var o :| o in q && o.hash == p;
      assert o in Elements(q);
    }
    forall x | IsReady(root, s + {op}, Elements(q), x) ensures !Less(x, op) {
      assert !IsReady(root, s, Elements(q), x);
      assert x == op;
    }
  }

  // ---- The secret of an epoch ----

  /** A discovery secret of an epoch; digest is its SHA-256, which settles between two made at once. */
  datatype Secret = Secret(epoch: Hash, author: Key, digest: Hash)

  predicate Counts(v: Space, epoch: Hash, x: Secret) {
    x.epoch == epoch && RankOf(v, x.author).Level() >= Administrator.Level()
  }

  ghost function Set(held: seq<Secret>): set<Secret> { set x | x in held }

  /** best is the secret settled on among those held: of those that count, the one whose digest is lowest. */
  ghost predicate Settles(v: Space, epoch: Hash, held: set<Secret>, best: Option<Secret>) {
    match best
    case None => forall x | x in held :: !Counts(v, epoch, x)
    case Some(b) => b in held && Counts(v, epoch, b) && forall x | x in held && Counts(v, epoch, x) :: b.digest <= x.digest
  }

  /** Members in the same state, who hold the same secrets, settle on the same one; and who holds more settles
      on it, or on one whose digest is lower. */
  lemma SettledAlike(v: Space, epoch: Hash, a: set<Secret>, b: set<Secret>, x: Option<Secret>, y: Option<Secret>)
    requires a <= b && forall p, q | p in b && q in b && p.digest == q.digest :: p == q
    requires Settles(v, epoch, a, x) && Settles(v, epoch, b, y)
    ensures x.Some? ==> y.Some? && (y == x || (y.value.digest < x.value.digest && y.value !in a))
    ensures a == b ==> x == y
  {
  }

  // ---- The store ----

  datatype Failure = Malformed | Refused(why: Refusal)

  datatype Result<T> = Ok(value: T) | Err(failure: Failure)

  const MAX_RESTRICTION := 100

  predicate UsesChannel(kind: Kind) {
    kind in {CreateChannel, CreateVoiceChannel, RenameChannel, DeleteChannel, RestrictChannel, OpenChannel, RestrictWriting, OpenWriting}
  }

  predicate UsesRole(kind: Kind) {
    kind in {CreateRole, RenameRole, DeleteRole, GiveRole, TakeRole}
  }

  predicate UsesMember(kind: Kind) {
    kind in {AddMember, RemoveMember, GiveRole, TakeRole, MakeAdmin, UnmakeAdmin, TransferOwnership, MuteMember, UnmuteMember}
  }

  predicate UsesName(kind: Kind) {
    kind in {RenameSpace, CreateChannel, CreateVoiceChannel, RenameChannel, CreateRole, RenameRole, Introduce}
  }

  predicate UsesRoles(kind: Kind) {
    kind in {RestrictChannel, RestrictWriting}
  }

  /** c holds the fields its kind uses, and no other. */
  predicate Fits(c: Change, cleanName: string -> bool) {
    && UsesChannel(c.kind) == (c.channel != 0)
    && UsesRole(c.kind) == (c.role != 0)
    && UsesMember(c.kind) == (c.member != 0)
    && (if UsesName(c.kind) then cleanName(c.name) else c.name == "")
    && (if UsesRoles(c.kind) then |c.roles| <= MAX_RESTRICTION && 0 !in c.roles && Ascending(c.roles) else c.roles == [])
  }

  /** The latest moment of a history, or its genesis's. */
  method Latest(created: Time, h: seq<Outcome>) returns (last: Time)
    ensures last == created || exists o :: o in h && last == o.operation.time
    ensures !last.Before(created) && forall o | o in h :: !last.Before(o.operation.time)
  {
    last := created;
    for i := 0 to |h|
      invariant last == created || exists o :: o in h[..i] && last == o.operation.time
      invariant !last.Before(created) && forall o | o in h[..i] :: !last.Before(o.operation.time)
    {
      if last.Before(h[i].operation.time) { last := h[i].operation.time; }
      assert h[..i + 1] == h[..i] + [h[i]];
    }
    assert h[..|h|] == h;
  }

  class Store {
    const genesis: Genesis
    const cleanName: string -> bool
    /** The operations kept, one row to a hash. */
    var ops: seq<Operation>
    var secrets: seq<Secret>

    ghost predicate Valid()
      reads this
    {
      forall i, j | 0 <= i < j < |ops| :: ops[i].hash != ops[j].hash
    }

    constructor (g: Genesis, cleanName: string -> bool)
      ensures Valid() && genesis == g && this.cleanName == cleanName && ops == [] && secrets == []
    {
      genesis, this.cleanName, ops, secrets := g, cleanName, [], [];
    }

    lemma Rows()
      requires Valid()
      ensures Collisionless(Elements(ops))
    {
    }

    /** The space as every operation kept leaves it. */
    method State() returns (s: State)
      requires Valid()
      ensures fresh(s) && s.genesis == genesis && IsOrder(genesis.hash, Elements(ops), s.Ordered())
      ensures s.Value() == Run(Begun(genesis), s.Ordered()) && s.history == Outcomes(Begun(genesis), s.Ordered())
    {
      Rows();
      s := new State(genesis, ops);
    }

    /** Keeps op, and says whether it was new. */
    method Keep(op: Operation) returns (isNew: bool)
      requires Valid()
      modifies this`ops
      ensures Valid()
      ensures isNew <==> op.hash !in Names(Elements(old(ops)))
      ensures ops == if isNew then old(ops) + [op] else old(ops)
    {
      for i := 0 to |ops|
        invariant forall j | 0 <= j < i :: ops[j].hash != op.hash
      {
        if ops[i].hash == op.hash {
          assert ops[i] in Elements(ops);
          return false;
        }
      }
      ops := ops + [op];
      return true;
    }

    /** The secret of the epoch every member settles on, if one was made by someone who may. */
    method Current(v: Space, epoch: Hash) returns (best: Option<Secret>)
      ensures Settles(v, epoch, Set(secrets), best)
      // Only one made for the epoch, by who owns or administers the space, counts; and of those the one of the lowest digest.
      ensures best.Some? ==> best.value in secrets
      ensures forall x | x in secrets && x.epoch == epoch && !v.deleted && x.author in v.members && v.members[x.author].rank in {Administrator, Owner} ::
        best.Some? && best.value.digest <= x.digest
      ensures best.Some? ==>
        best.value.epoch == epoch && !v.deleted && best.value.author in v.members && v.members[best.value.author].rank in {Administrator, Owner}
    {
      best := None;
      for i := 0 to |secrets|
        invariant Settles(v, epoch, Set(secrets[..i]), best)
      {
        var x := secrets[i];
        if Counts(v, epoch, x) && (best == None || x.digest < best.value.digest) { best := Some(x); }
        assert secrets[..i + 1] == secrets[..i] + [x];
      }
      assert secrets[..|secrets|] == secrets;
      forall x | x in secrets
        ensures x in Set(secrets)
        ensures Counts(v, epoch, x) <==> x.epoch == epoch && !v.deleted && x.author in v.members && v.members[x.author].rank in {Administrator, Owner}
      {
      }
    }

    /** Makes the secret of the state's epoch, whose digest would be digest, if me may and nobody has yet. */
    method Rotate(me: Key, s: State, digest: Hash) returns (held: Option<Secret>)
      requires s.genesis == genesis
      modifies this`secrets
      ensures var epoch := EpochOf(genesis.hash, s.history);
        && Settles(s.Value(), epoch, Set(secrets), held)
        && (RankOf(s.Value(), me).Level() >= Administrator.Level() ==> held.Some?)
        && (secrets == old(secrets) || secrets == old(secrets) + [Secret(epoch, me, digest)])
    {
      var epoch := Epoch(genesis.hash, s.history);
      held := Current(s.Value(), epoch);
      if held.Some? || RankOf(s.Value(), me).Level() < Administrator.Level() { return; }
      var x := Secret(epoch, me, digest);
      secrets := secrets + [x];
      held := Some(x);
      assert forall y | y in secrets :: y in old(secrets) || y == x;
      assert x in secrets;
    }

    /** The operation change would be, made by me after every operation known here. q is their order. */
    method Prepare(me: Key, change: Change, now: int, id: ID, hash: Hash) returns (op: Operation, ghost q: seq<Operation>)
      requires Valid()
      ensures op.hash == hash && op.id == id && op.author == me && op.space == genesis.space && op.change == change
      ensures IsOrder(genesis.hash, Elements(ops), q) && Heads(genesis.hash, q, op.parents)
      ensures genesis.created.Before(op.time) && forall o: Operation | o in q :: o.time.Before(op.time)
    {
      hide IsOrder, Run, Outcomes;
      var before := State();
      q := before.Ordered();
      var last := Latest(genesis.created, before.history);
      var parents := before.Heads();
      op := Operation(hash, genesis.space, id, me, Tick(last, now), parents, change);
      assert forall h :: h in parents <==> h in Listed(parents);
    }

    /** The same, and why the space would refuse it, judged by replaying everything with it. */
    method Judge(me: Key, change: Change, now: int, id: ID, hash: Hash)
      returns (op: Operation, refused: Option<Refusal>, ghost q: seq<Operation>)
      requires Valid() && DistinctKeys(Elements(ops))
      // The hash is no other's, and nobody knows it yet; nor is the random identifier anybody's.
      requires hash != genesis.hash
      requires forall o | o in ops :: o.hash != hash && o.hash != genesis.hash && hash !in o.parents && o.id != id
      ensures op.hash == hash && op.id == id && op.author == me && op.space == genesis.space && op.change == change
      ensures IsOrder(genesis.hash, Elements(ops), q)
      ensures genesis.created.Before(op.time) && forall o: Operation | o in q :: o.time.Before(op.time)
      ensures IsOrder(genesis.hash, Elements(ops) + {op}, q + [op])
      ensures refused == Authority.Refused(Run(Begun(genesis), q), op)
    {
      hide IsOrder, Run, Outcomes, Authority.Refused, DistinctKeys, Collisionless, Heads;
      op, q := Prepare(me, change, now, id, hash);
      FreshIsKnownApart(ops, op);
      FreshComesLast(genesis.hash, Elements(ops), q, op);
      var after := new State(genesis, ops + [op]);
      OrderIsUnique(genesis.hash, Elements(ops + [op]), after.Ordered(), q + [op]);
      LastOutcome(Begun(genesis), q, op);
      refused := after.history[|after.history| - 1].refused;
    }

    lemma LastOutcome(v: Space, q: seq<Operation>, op: Operation)
      ensures var h := Outcomes(v, q + [op]); |h| == |q| + 1 && h[|q|].refused == Authority.Refused(Run(v, q), op)
    {
      assert (q + [op])[..|q|] == q;
    }

    lemma FreshIsKnownApart(ops: seq<Operation>, op: Operation)
      requires forall i, j | 0 <= i < j < |ops| :: ops[i].hash != ops[j].hash
      requires DistinctKeys(Elements(ops)) && forall o | o in ops :: o.hash != op.hash && o.id != op.id
      ensures Elements(ops + [op]) == Elements(ops) + {op} && op !in Elements(ops)
      ensures Collisionless(Elements(ops + [op])) && DistinctKeys(Elements(ops + [op]))
    {
    }

    /** Makes change as me and keeps it; a change the state refuses is not made. id and hash are the identifier
        and the hash it will have, and digest a fresh secret's. */
    method Operate(me: Key, change: Change, now: int, id: ID, hash: Hash, digest: Hash)
      returns (r: Result<Operation>, ghost op: Operation, ghost q: seq<Operation>)
      requires Valid() && DistinctKeys(Elements(ops))
      requires hash != genesis.hash
      requires forall o | o in ops :: o.hash != hash && o.hash != genesis.hash && hash !in o.parents && o.id != id
      modifies this
      ensures Valid()
      ensures r == Err(Malformed) <==> !Fits(op.change, cleanName)
      ensures r.Err? ==> ops == old(ops) && secrets == old(secrets)
      ensures r.Ok? ==> r.value == op && ops == old(ops) + [op]
      ensures op.hash == hash && op.author == me && op.space == genesis.space
      // The roles a channel is restricted to are sorted, and each named once.
      ensures op.change.(roles := change.roles) == change && Listed(op.change.roles) == Listed(change.roles)
      ensures if UsesRoles(change.kind) then Ascending(op.change.roles) else op.change == change
      // q is what was known, in order; the operation made comes after it all, and is judged by what it left.
      ensures IsOrder(genesis.hash, Elements(old(ops)), q) && IsOrder(genesis.hash, Elements(old(ops)) + {op}, q + [op])
      ensures forall o: Operation | o in q :: o.time.Before(op.time)
      ensures Fits(op.change, cleanName) ==>
        match Authority.Refused(Run(Begun(genesis), q), op)
        case Some(why) => r == Err(Refused(why))
        case None => r == Ok(op)
      // A change that may revoke somebody's access begins an epoch, whose secret its author makes if still above members.
      ensures r.Ok? && Revokes(change.kind) ==>
        var after := Run(Begun(genesis), q + [op]);
        && EpochOf(genesis.hash, Outcomes(Begun(genesis), q + [op])) == hash
        && (RankOf(after, me).Level() >= Administrator.Level() ==> exists x :: x in secrets && Counts(after, hash, x))
    {
      var c := change;
      if UsesRoles(c.kind) {
        var roles := Sort(c.roles);
        c := c.(roles := roles);
      }
      hide IsOrder, Run, Outcomes, Authority.Refused, DistinctKeys, Collisionless, Counts, EpochOf;
      var made, refused;
      made, refused, q := Judge(me, c, now, id, hash);
      op := made;
      FreshIsKnownApart(ops, op);
      if !Fits(c, cleanName) { return Err(Malformed), op, q; }
      if refused.Some? { return Err(Refused(refused.value)), op, q; }
      var isNew := Keep(made);
      assert op.hash !in Names(Elements(old(ops)));
      if Revokes(change.kind) {
        var s := State();
        OrderIsUnique(genesis.hash, Elements(ops), s.Ordered(), q + [op]);
        EpochBegins(genesis.hash, Begun(genesis), q, op);
        var held := Rotate(me, s, digest);
      }
      return Ok(made), op, q;
    }

    lemma EpochBegins(root: Hash, v: Space, q: seq<Operation>, op: Operation)
      requires Authority.Refused(Run(v, q), op).None? && Revokes(op.change.kind)
      ensures EpochOf(root, Outcomes(v, q + [op])) == op.hash
    {
      assert (q + [op])[..|q|] == q;
    }

    /** Every operation applied here that peer, a member, does not hold; nobody else is given anything. */
    method Lacking(peer: Key, held: set<Hash>) returns (out: seq<Operation>, ghost q: seq<Operation>)
      requires Valid()
      ensures IsOrder(genesis.hash, Elements(ops), q)
      ensures out == if RankOf(Run(Begun(genesis), q), peer) == Nobody then [] else Lacked(q, held)
    {
      hide IsOrder, Run, Outcomes;
      var s := State();
      q := s.Ordered();
      out := [];
      if RankOf(s.Value(), peer) == Nobody { return; }
      for i := 0 to |s.history|
        invariant out == Lacked(q[..i], held)
      {
        var o := s.history[i].operation;
        assert q[..i + 1] == q[..i] + [o];
        if o.hash !in held { out := out + [o]; }
      }
      assert q[..|s.history|] == q;
    }
  }

  /** The operations of q that held does not name, in q's order. */
  function Lacked(q: seq<Operation>, held: set<Hash>): (r: seq<Operation>)
    ensures forall o | o in q && o.hash !in held :: o in r
  {
    if q == [] then [] else
      var o := q[|q| - 1];
      assert q == q[..|q| - 1] + [o];
      Lacked(q[..|q| - 1], held) + if o.hash in held then [] else [o]
  }

  /** When neither of two members lacks an operation the other applied, both are in the same state, with the same
      history: whatever order their operations came in, and whatever else each holds that waits. */
  lemma SettledMembersAgree(g: Genesis, a: set<Operation>, b: set<Operation>, q: seq<Operation>, r: seq<Operation>)
    requires Collisionless(a + b) && DistinctKeys(a + b)
    requires IsOrder(g.hash, a, q) && IsOrder(g.hash, b, r)
    requires Lacked(q, Names(b)) == [] && Lacked(r, Names(a)) == []
    ensures Run(Begun(g), q) == Run(Begun(g), r)
    ensures Outcomes(Begun(g), q) == Outcomes(Begun(g), r)
  {
    OrderIsCausal(g.hash, a, q);
    OrderIsCausal(g.hash, b, r);
    HeldIsShared(a, b, q);
    HeldIsShared(b, a, r);
    SettledExchangeAgrees(g.hash, a, b, q, r);
  }

  lemma HeldIsShared(a: set<Operation>, b: set<Operation>, q: seq<Operation>)
    requires Collisionless(a + b) && Elements(q) <= a
    requires Lacked(q, Names(b)) == []
    ensures Elements(q) <= b
  {
    forall o | o in Elements(q) ensures o in b {
      assert o in q && o.hash in Names(b);
      var x :| x in b && x.hash == o.hash;
    }
  }
}
