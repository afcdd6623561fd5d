/** A space's state, built in place from its operations (internal/spaces/state.go:64-189, 322-457). */
module SpaceState {
  import opened Basics
  import opened Operations
  import opened ReplayOrder
  import opened Sorting
  import opened ReplayQueue
  import opened Authority

  class State {
    const genesis: Genesis
    var name: string
    var deleted: bool
    var history: seq<Outcome>
    var waiting: seq<Operation>
    var members: map<Key, Person>
    var channels: map<ID, Channel>
    var roles: map<ID, string>
    var gone: set<ID>

    function Value(): Space
      reads this
    {
      Space(genesis.space, name, deleted, members, channels, roles, gone)
    }

    /** The operations applied, in the order they were. */
    function Ordered(): seq<Operation>
      reads this
    {
      Made(history)
    }

    /** Replay: the state the operations ops leave, in whatever order they are given. */
    constructor (g: Genesis, ops: seq<Operation>)
      requires Collisionless(Elements(ops))
      ensures genesis == g && IsOrder(g.hash, Elements(ops), Ordered())
      ensures Value() == Run(Begun(g), Ordered()) && history == Outcomes(Begun(g), Ordered())
      ensures Elements(waiting) == Elements(ops) - Elements(Ordered()) && Sorted(waiting)
    {
      genesis, name, deleted, history, waiting := g, g.name, false, [], [];
      members := map[g.creator := Person(Owner, "", {}, false)];
      channels, roles, gone := map[], map[], {};
      new;
      hide Run, Outcomes, IsOrder, Sorted, Collisionless, Elements;
      var ordered, left := Order(g.hash, ops);
      ApplyAll(ordered);
      waiting := left;
    }

    method ApplyAll(ordered: seq<Operation>)
      requires Value() == Begun(genesis) && history == []
      modifies this
      ensures Value() == Run(Begun(genesis), ordered) && history == Outcomes(Begun(genesis), ordered) && Ordered() == ordered
    {
      for i := 0 to |ordered|
        invariant Value() == Run(Begun(genesis), ordered[..i]) && history == Outcomes(Begun(genesis), ordered[..i])
      {
        hide *;
        var refused := Apply(ordered[i]);
        StepRun(Begun(genesis), ordered, i);
        history := history + [Outcome(ordered[i], refused)];
      }
      assert ordered[..|ordered|] == ordered;
      MadeOfOutcomes(Begun(genesis), ordered);
    }

    /** Makes op's change if its author held the authority it needs; otherwise says why, and changes nothing. */
    method Apply(op: Operation) returns (refused: Option<Refusal>)
      modifies this`name, this`deleted, this`members, this`channels, this`roles, this`gone
      ensures refused == Refused(old(Value()), op)
      ensures Value() == Applied(old(Value()), op)
    {
      if deleted { return Some(Deleted); }
      if op.space != genesis.space { return Some(Unknown); }
      if op.author !in members { return Some(NotMember); }
      if members[op.author].rank.Level() < Needs(op.change.kind).Level() { return Some(NotAllowed); }
      refused := Make(op.author, op.change);
    }

    /** The switch on what kind of change it is. */
    method Make(author: Key, c: Change) returns (refused: Option<Refusal>)
      requires author in members && !deleted && members[author].rank.Level() >= Needs(c.kind).Level()
      modifies this`name, this`deleted, this`members, this`channels, this`roles, this`gone
      ensures refused == RefusedOf(old(Value()), old(members[author]), c)
      ensures refused.Some? ==> Value() == old(Value())
      ensures refused.None? ==> Value() == MadeBy(old(Value()), author, c)
    {
      refused := None;
      match c.kind
      case RenameSpace => name := c.name;
      case DeleteSpace => deleted := true;
      case Introduce => members := members[author := members[author].(name := c.name)];
      case CreateChannel | CreateVoiceChannel =>
        if c.channel in channels || c.channel in gone { return Some(Exists); }
        channels := channels[c.channel := Channel(c.name, false, {}, false, {}, c.kind == CreateVoiceChannel)];
      case RenameChannel | DeleteChannel | RestrictChannel | OpenChannel | RestrictWriting | OpenWriting =>
        refused := MakeInChannel(author, c);
      case CreateRole | RenameRole | DeleteRole =>
        refused := MakeToRole(author, c);
      case AddMember =>
        if c.member in members { return Some(Exists); }
        if |members| >= MAX_MEMBERS { return Some(Full); }
        members := members[c.member := Person(Member, "", {}, false)];
      case Leave =>
        if members[author].rank == Owner { return Some(NotAllowed); }
        members := members - {author};
      case RemoveMember | GiveRole | TakeRole | MakeAdmin | UnmakeAdmin | TransferOwnership | MuteMember | UnmuteMember =>
        refused := MakeToMember(author, c);
    }

    method MakeInChannel(author: Key, c: Change) returns (refused: Option<Refusal>)
      requires author in members && !deleted
      requires c.kind in {RenameChannel, DeleteChannel, RestrictChannel, OpenChannel, RestrictWriting, OpenWriting}
      modifies this`channels, this`gone
      ensures refused == RefusedOf(old(Value()), members[author], c)
      ensures refused.Some? ==> Value() == old(Value())
      ensures refused.None? ==> Value() == MadeBy(old(Value()), author, c)
    {
      if c.channel !in channels { return Some(Unknown); }
      var ch := channels[c.channel];
      if c.kind == RenameChannel {
        channels := channels[c.channel := ch.(name := c.name)];
      } else if c.kind == DeleteChannel {
        channels := channels - {c.channel};
        gone := gone + {c.channel};
      } else if c.kind == OpenChannel {
        channels := channels[c.channel := ch.(restricted := false, roles := {})];
      } else if c.kind == OpenWriting {
        channels := channels[c.channel := ch.(guarded := false, writers := {})];
      } else {
        var named := {};
        for i := 0 to |c.roles|
          invariant named == Listed(c.roles[..i]) && forall r | r in c.roles[..i] :: r in roles
        {
          if c.roles[i] !in roles { return Some(Unknown); }
          named := named + {c.roles[i]};
          assert c.roles[..i + 1] == c.roles[..i] + [c.roles[i]];
        }
        assert c.roles[..|c.roles|] == c.roles;
        channels := channels[c.channel :=
          if c.kind == RestrictChannel then ch.(restricted := true, roles := named) else ch.(guarded := true, writers := named)];
      }
      return None;
    }

    method MakeToRole(author: Key, c: Change) returns (refused: Option<Refusal>)
      requires author in members && !deleted
      requires c.kind in {CreateRole, RenameRole, DeleteRole}
      modifies this`members, this`channels, this`roles, this`gone
      ensures refused == RefusedOf(old(Value()), old(members[author]), c)
      ensures refused.Some? ==> Value() == old(Value())
      ensures refused.None? ==> Value() == MadeBy(old(Value()), author, c)
    {
      if c.kind == CreateRole {
        if c.role in roles || c.role in gone { return Some(Exists); }
        roles := roles[c.role := c.name];
        return None;
      }
      if c.role !in roles { return Some(Unknown); }
      if c.kind == RenameRole {
        roles := roles[c.role := c.name];
        return None;
      }
      roles := roles - {c.role};
      gone := gone + {c.role};
      WithoutFromMembers(c.role);
      WithoutFromChannels(c.role);
      return None;
    }

    method WithoutFromMembers(role: ID)
      modifies this`members
      ensures members == MembersWithout(old(members), role)
    {
      var left := members.Keys;
      while left != {}
        invariant left <= members.Keys && members.Keys == old(members.Keys)
        invariant forall k | k in members :: members[k] == if k in left then old(members)[k] else MembersWithout(old(members), role)[k]
      {
        var k :| k in left;
        members := members[k := members[k].(roles := members[k].roles - {role})];
        left := left - {k};
      }
    }

    method WithoutFromChannels(role: ID)
      modifies this`channels
      ensures channels == ChannelsWithout(old(channels), role)
    {
      var left := channels.Keys;
      while left != {}
        invariant left <= channels.Keys && channels.Keys == old(channels.Keys)
        invariant forall id | id in channels :: channels[id] == if id in left then old(channels)[id] else ChannelsWithout(old(channels), role)[id]
      {
        var id :| id in left;
        var ch := channels[id];
        channels := channels[id := ch.(roles := ch.roles - {role}, writers := ch.writers - {role})];
        left := left - {id};
      }
    }

    method MakeToMember(author: Key, c: Change) returns (refused: Option<Refusal>)
      requires author in members && !deleted
      requires c.kind in {RemoveMember, GiveRole, TakeRole, MakeAdmin, UnmakeAdmin, TransferOwnership, MuteMember, UnmuteMember}
      requires members[author].rank.Level() >= Needs(c.kind).Level()
      modifies this`members
      ensures refused == RefusedOf(old(Value()), old(members[author]), c)
      ensures refused.Some? ==> Value() == old(Value())
      ensures refused.None? ==> Value() == MadeBy(old(Value()), author, c)
    {
      if c.member !in members || (c.kind in {GiveRole, TakeRole} && c.role !in roles) { return Some(Unknown); }
      var target := members[c.member];
      if c.kind == RemoveMember {
        if target.rank == Owner || (target.rank == Administrator && members[author].rank.Level() < Owner.Level()) { return Some(NotAllowed); }
        members := members - {c.member};
      } else if c.kind == GiveRole {
        members := members[c.member := target.(roles := target.roles + {c.role})];
      } else if c.kind == TakeRole {
        members := members[c.member := target.(roles := target.roles - {c.role})];
      } else if c.kind == MuteMember || c.kind == UnmuteMember {
        if members[author].rank.Level() <= target.rank.Level() { return Some(NotAllowed); }
        members := members[c.member := target.(muted := c.kind == MuteMember)];
      } else if c.kind == MakeAdmin && target.rank == Member {
        members := members[c.member := target.(rank := Administrator)];
      } else if c.kind == UnmakeAdmin && target.rank == Administrator {
        members := members[c.member := target.(rank := Member)];
      } else if c.kind == TransferOwnership && target.rank != Owner {
        members := members[c.member := target.(rank := Owner)];
        members := members[author := members[author].(rank := Administrator)];
      } else {
        return Some(NotAllowed);
      }
      return None;
    }

    /** The operations applied that no other names: what the next operation made here comes after. */
    method Heads() returns (heads: seq<Hash>)
      ensures forall h :: h in Listed(heads) <==> IsHead(genesis.hash, Ordered(), h)
      ensures Ascending(heads)
    {
      var named := {};
      var q := Ordered();
      for i := 0 to |history|
        invariant named == NamedIn(q[..i])
      {
        var ps := history[i].operation.parents;
        for j := 0 to |ps|
          invariant named == NamedIn(q[..i]) + Listed(ps[..j])
        {
          named := named + {ps[j]};
          assert ps[..j + 1] == ps[..j] + [ps[j]];
        }
        assert ps[..|ps|] == ps && q[..i + 1] == q[..i] + [q[i]];
        NamedInGrows(q[..i], q[i]);
      }
      assert q[..|history|] == q;
      heads := [];
      for i := 0 to |history|
        invariant Listed(heads) == HashesIn(q[..i]) - named
      {
        var h := history[i].operation.hash;
        assert q[..i + 1] == q[..i] + [q[i]];
        assert Listed(heads + [h]) == Listed(heads) + {h};
        if h !in named { heads := heads + [h]; }
      }
      assert forall h :: h in Listed(heads) <==> Unnamed(q, h);
      if heads == [] {
        heads := [genesis.hash];
        assert Listed(heads) == {genesis.hash};
      } else {
        assert heads[0] in Listed(heads);
        heads := Sort(heads);
      }
    }
  }

  /** The hashes q's operations name. */
  ghost function NamedIn(q: seq<Operation>): set<Hash> {
    set o, p | o in q && p in o.parents :: p
  }

  lemma NamedInGrows(q: seq<Operation>, o: Operation)
    ensures NamedIn(q + [o]) == NamedIn(q) + Listed(o.parents)
  {
  }

  ghost function HashesIn(q: seq<Operation>): set<Hash> {
    set o | o in q :: o.hash
  }

  ghost predicate Unnamed(q: seq<Operation>, h: Hash) {
    h in HashesIn(q) && h !in NamedIn(q)
  }

  ghost predicate IsHead(root: Hash, q: seq<Operation>, h: Hash) {
    Unnamed(q, h) || (h == root && forall x :: !Unnamed(q, x))
  }
}
