/** Which changes begin an epoch of a space, and what an epoch promises (internal/spaces/epoch.go). */
module Epochs {
  import opened Basics
  import opened Operations
  import opened Sorting
  import opened Authority

  /** The changes that may revoke somebody's access. */
  predicate Revokes(kind: Kind) {
    kind in {RemoveMember, Leave, TakeRole, DeleteRole, RestrictChannel, UnmakeAdmin, DeleteSpace}
  }

  predicate Begins(o: Outcome) {
    o.refused.None? && Revokes(o.operation.change.kind)
  }

  /** What names the current epoch: the latest operation applied that may have revoked access, or the genesis. */
  function EpochOf(root: Hash, h: seq<Outcome>): Hash {
    if h == [] then root
    else if Begins(h[|h| - 1]) then h[|h| - 1].operation.hash
    else EpochOf(root, h[..|h| - 1])
  }

  method Epoch(root: Hash, h: seq<Outcome>) returns (epoch: Hash)
    ensures epoch == EpochOf(root, h)
  {
    var i := |h|;
    assert h[..i] == h;
    while i > 0
      invariant 0 <= i <= |h| && EpochOf(root, h) == EpochOf(root, h[..i])
    {
      i := i - 1;
      assert h[..i + 1][..i] == h[..i];
      if Begins(h[i]) { return h[i].operation.hash; }
    }
    return root;
  }

  /** An epoch is named by the last operation that was not refused and removed a member, took a role, deleted one, restricted a channel, unmade
      an administrator or deleted the space, or in which somebody left; or, if there is none, by the genesis. */
  lemma {:induction false} EpochIsLatest(root: Hash, h: seq<Outcome>, i: nat)
    requires i < |h| && h[i].refused.None?
    requires h[i].operation.change.kind in {RemoveMember, Leave, TakeRole, DeleteRole, RestrictChannel, UnmakeAdmin, DeleteSpace}
    requires forall j | i < j < |h| ::
      h[j].refused.Some? || h[j].operation.change.kind !in {RemoveMember, Leave, TakeRole, DeleteRole, RestrictChannel, UnmakeAdmin, DeleteSpace}
    ensures EpochOf(root, h) == h[i].operation.hash
  {
    if i < |h| - 1 { EpochIsLatest(root, h[..|h| - 1], i); }
  }

  lemma {:induction false} EpochIsGenesis(root: Hash, h: seq<Outcome>)
    requires forall o | o in h ::
      o.refused.Some? || o.operation.change.kind !in {RemoveMember, Leave, TakeRole, DeleteRole, RestrictChannel, UnmakeAdmin, DeleteSpace}
    ensures EpochOf(root, h) == root
  {
    if h != [] { EpochIsGenesis(root, h[..|h| - 1]); }
  }

  // ---- The table of revoking changes is exactly right ----

  /** k loses, from v to w, their membership, or the sight of a channel that is still there. */
  predicate LosesSight(v: Space, w: Space, k: Key, id: ID) {
    || (k in v.members && k !in w.members)
    || (Sees(v, k, id) && id in w.channels && !Sees(w, k, id))
  }

  /** An operation of any other kind never takes anybody's membership, nor anybody's sight of a channel that
      still exists. */
  lemma OthersRevokeNothing(v: Space, op: Operation, k: Key, id: ID)
    requires !Revokes(op.change.kind)
    ensures !LosesSight(v, Applied(v, op), k, id)
  {
    if Refused(v, op).None? {
      if k in v.members { MembersOfOthers(v, op, k); }
      if id in v.channels && id in Changed(v, op).channels { ChannelsOfOthers(v, op, id); }
      hide MembersAfter, ChannelsAfter;
    }
  }

  lemma MembersOfOthers(v: Space, op: Operation, k: Key)
    requires !Revokes(op.change.kind) && Refused(v, op).None? && k in v.members
    ensures k in Changed(v, op).members
    ensures v.members[k].roles <= Changed(v, op).members[k].roles
    ensures v.members[k].rank.Level() >= Administrator.Level() ==> Changed(v, op).members[k].rank.Level() >= Administrator.Level()
  {
    hide ChannelsAfter, RolesAfter, GoneAfter;
  }

  lemma ChannelsOfOthers(v: Space, op: Operation, id: ID)
    requires !Revokes(op.change.kind) && Refused(v, op).None? && id in v.channels && id in Changed(v, op).channels
    ensures Changed(v, op).channels[id].restricted ==>
      v.channels[id].restricted && v.channels[id].roles <= Changed(v, op).channels[id].roles
  {
    hide MembersAfter, RolesAfter, GoneAfter;
  }

  /** Deleting a role shows nobody a channel they did not see: a channel left with no roles stays restricted. */
  lemma DeletingRolesShowsNothing(v: Space, op: Operation, k: Key, id: ID)
    requires op.change.kind == DeleteRole && Sees(Applied(v, op), k, id)
    ensures Sees(v, k, id)
  {
    if Refused(v, op).None? {
      var w := Changed(v, op);
      assert w.channels == ChannelsWithout(v.channels, op.change.role);
      assert w.members == MembersWithout(v.members, op.change.role);
    }
  }

  /** A space of an owner (1), an administrator (2) and a member (3) who holds role 9, with a channel open to all
      (6) and one restricted to that role (5). */
  function Example(): Space {
    Space(4, "", false,
      map[1 := Person(Owner, "", {}, false), 2 := Person(Administrator, "", {}, false), 3 := Person(Member, "", {9}, false)],
      map[5 := Channel("", true, {9}, false, {}, false), 6 := Channel("", false, {}, false, {}, false)],
      map[9 := ""], {})
  }

  function Revoking(kind: Kind): Operation {
    var author := if kind == Leave then 3 else 1;
    var member := if kind == UnmakeAdmin then 2 else 3;
    Operation(7, 4, 8, author, Time(0, 0), [0], Change(kind, 6, 9, member, "", []))
  }

  const EXAMPLE := Genesis(0, 4, 1, "", Time(0, 0))

  /** What the owner makes of it. */
  function Making(kind: Kind, channel: ID, role: ID, member_: Key, roles: seq<ID>): Operation {
    Operation(7, 4, 8, 1, Time(0, 0), [0], Change(kind, channel, role, member_, "", roles))
  }

  function ExampleRun(): seq<Operation> {
    [Making(AddMember, 0, 0, 2, []), Making(MakeAdmin, 0, 0, 2, []), Making(AddMember, 0, 0, 3, []), Making(CreateRole, 0, 9, 0, []),
     Making(GiveRole, 0, 9, 3, []), Making(CreateChannel, 5, 0, 0, []), Making(RestrictChannel, 5, 0, 0, [9]), Making(CreateChannel, 6, 0, 0, [])]
  }

  /** The example after two of its operations, four, six and all. */
  function Stage(n: nat): Space {
    var plain := Person(Member, "", {}, false);
    if n == 0 then Begun(EXAMPLE)
    else if n == 1 then Begun(EXAMPLE).(members := map[1 := Person(Owner, "", {}, false), 2 := Person(Administrator, "", {}, false)])
    else if n == 2 then Stage(1).(members := Stage(1).members[3 := plain], roles := map[9 := ""])
    else if n == 3 then Stage(2).(members := Example().members, channels := map[5 := Channel("", false, {}, false, {}, false)])
    else Example()
  }

  lemma FirstStage()
    ensures Applied(Applied(Stage(0), ExampleRun()[0]), ExampleRun()[1]) == Stage(1)
  {
    var two := Stage(0).(members := Stage(0).members[2 := Person(Member, "", {}, false)]);
    OwnerMakes(Stage(0), ExampleRun()[0], two);
    OwnerMakes(two, ExampleRun()[1], Stage(1));
    hide Applied;
  }

  lemma SecondStage()
    ensures Applied(Applied(Stage(1), ExampleRun()[2]), ExampleRun()[3]) == Stage(2)
  {
    var three := Stage(1).(members := Stage(1).members[3 := Person(Member, "", {}, false)]);
    OwnerMakes(Stage(1), ExampleRun()[2], three);
    OwnerMakes(three, ExampleRun()[3], Stage(2));
    hide Applied;
  }

  lemma ThirdStage()
    ensures Applied(Applied(Stage(2), ExampleRun()[4]), ExampleRun()[5]) == Stage(3)
  {
    var given := Stage(2).(members := Example().members);
    OwnerMakes(Stage(2), ExampleRun()[4], given);
    OwnerMakes(given, ExampleRun()[5], Stage(3));
    hide Applied;
  }

  lemma LastStage()
    ensures Applied(Applied(Stage(3), ExampleRun()[6]), ExampleRun()[7]) == Stage(4)
  {
    var restricted := Stage(3).(channels := map[5 := Channel("", true, {9}, false, {}, false)]);
    assert Listed([9]) == {9};
    OwnerMakes(Stage(3), ExampleRun()[6], restricted);
    OwnerMakes(restricted, ExampleRun()[7], Stage(4));
    hide Applied;
  }

  /** A run of the owner's leaves the example. */
  lemma ExampleIsReached()
    ensures Run(Begun(EXAMPLE), ExampleRun()) == Example()
  {
    FirstStage();
    SecondStage();
    ThirdStage();
    LastStage();
    assert Stage(0) == Begun(EXAMPLE) && Stage(4) == Example();
    hide Applied, Example, Stage, Begun;
    EightSteps(Begun(EXAMPLE), ExampleRun());
  }

  lemma OwnerMakes(v: Space, op: Operation, w: Space)
    requires v.id == 4 == op.space && !v.deleted && op.author == 1 && 1 in v.members && v.members[1].rank == Owner
    requires RefusedOf(v, v.members[1], op.change).None? && w == MadeBy(v, 1, op.change)
    ensures Applied(v, op) == w
  {
  }

  lemma EightSteps(v: Space, ops: seq<Operation>)
    requires |ops| == 8
    ensures Run(v, ops) == Applied(Applied(Applied(Applied(Applied(Applied(Applied(Applied(v, ops[0]), ops[1]), ops[2]), ops[3]), ops[4]), ops[5]), ops[6]), ops[7])
  {
    assert ops[..8] == ops && Run(v, ops[..0]) == v;
    hide Applied;
    StepRun(v, ops, 0); StepRun(v, ops, 1); StepRun(v, ops, 2); StepRun(v, ops, 3);
    StepRun(v, ops, 4); StepRun(v, ops, 5); StepRun(v, ops, 6); StepRun(v, ops, 7);
  }

  /** Every kind in the table can revoke: it takes the member's, or the administrator's, access in the example. */
  lemma RevokingRevokes(kind: Kind) returns (k: Key, id: ID)
    requires Revokes(kind)
    ensures LosesSight(Example(), Applied(Example(), Revoking(kind)), k, id)
  {
    k, id := if kind == UnmakeAdmin then 2 else 3, if kind in {RestrictChannel, DeleteSpace} then 6 else 5;
    RevokingApplies(kind);
    if kind in {RestrictChannel, DeleteSpace} {
      ExampleChannelLost(kind);
    } else {
      ExampleMemberLoses(kind);
    }
  }

  lemma ExampleChannelLost(kind: Kind)
    requires kind in {RestrictChannel, DeleteSpace} && Refused(Example(), Revoking(kind)).None?
    ensures LosesSight(Example(), Changed(Example(), Revoking(kind)), 3, 6)
  {
    hide RolesAfter, GoneAfter;
    var v, op := Example(), Revoking(kind);
    assert Sees(v, 3, 6);
    assert MembersAfter(v, op.author, op.change) == v.members;
    hide MembersAfter;
    assert 6 in ChannelsAfter(v, op.change);
    if kind == RestrictChannel {
      assert ChannelsAfter(v, op.change)[6].restricted && ChannelsAfter(v, op.change)[6].roles == {};
    }
  }

  lemma ExampleMemberLoses(kind: Kind)
    requires kind in {RemoveMember, Leave, TakeRole, DeleteRole, UnmakeAdmin} && Refused(Example(), Revoking(kind)).None?
    ensures LosesSight(Example(), Changed(Example(), Revoking(kind)), if kind == UnmakeAdmin then 2 else 3, 5)
  {
    hide Refused, RefusedOf, RolesAfter, GoneAfter;
    assert Example().channels[5].roles == {9} && 9 in Example().members[3].roles;
    assert Sees(Example(), 3, 5) && Sees(Example(), 2, 5);
  }

  lemma RevokingApplies(kind: Kind)
    requires Revokes(kind)
    ensures Refused(Example(), Revoking(kind)).None?
  {
  }

  /** A kind of change is in the table if and only if, in some space a run leaves, it takes somebody's membership or
      somebody's sight of a channel that is still there. */
  lemma TableIsExact(kind: Kind)
    ensures Revokes(kind) <==>
      exists g: Genesis, ops: seq<Operation>, op: Operation, k: Key, id: ID ::
        op.change.kind == kind && LosesSight(Run(Begun(g), ops), Applied(Run(Begun(g), ops), op), k, id)
  {
    if Revokes(kind) {
      ExampleIsReached();
      var k, id := RevokingRevokes(kind);
      assert Revoking(kind).change.kind == kind;
      assert LosesSight(Run(Begun(EXAMPLE), ExampleRun()), Applied(Run(Begun(EXAMPLE), ExampleRun()), Revoking(kind)), k, id);
    } else {
      forall v: Space, op: Operation, k: Key, id: ID | op.change.kind == kind ensures !LosesSight(v, Applied(v, op), k, id) {
        OthersRevokeNothing(v, op, k, id);
      }
    }
  }

  // ---- Within an epoch nobody loses anything ----

  /** Operations name one another apart, and apart from the genesis. */
  ghost predicate NamedApart(root: Hash, ops: seq<Operation>) {
    && (forall o | o in ops :: o.hash != root)
    && (forall i, j | 0 <= i < j < |ops| :: ops[i].hash != ops[j].hash)
  }

  lemma {:induction false} EpochIsNamed(root: Hash, v: Space, ops: seq<Operation>)
    ensures EpochOf(root, Outcomes(v, ops)) == root || exists o :: o in ops && o.hash == EpochOf(root, Outcomes(v, ops))
  {
    if ops != [] {
      var init := ops[..|ops| - 1];
      assert Outcomes(v, ops)[..|ops| - 1] == Outcomes(v, init);
      EpochIsNamed(root, v, init);
    }
  }

  lemma FewerNamedApart(root: Hash, all: seq<Operation>, some: seq<Operation>)
    requires NamedApart(root, all) && some <= all
    ensures NamedApart(root, some)
  {
    forall o | o in some ensures o in all { }
  }

  /** An operation that begins an epoch names it, so the epoch is not an earlier one. */
  lemma LastBeginsNone(root: Hash, v: Space, ops: seq<Operation>, all: seq<Operation>)
    requires NamedApart(root, all) && |ops| < |all| && ops == all[..|ops|]
    requires EpochOf(root, Outcomes(v, all)) == EpochOf(root, Outcomes(v, ops))
    ensures Refused(Run(v, all[..|all| - 1]), all[|all| - 1]).None? ==> !Revokes(all[|all| - 1].change.kind)
    ensures EpochOf(root, Outcomes(v, all[..|all| - 1])) == EpochOf(root, Outcomes(v, ops))
  {
    EpochIsNamed(root, v, ops);
    var last := all[|all| - 1];
    assert last in all;
    forall o | o in ops ensures o.hash != last.hash {
      var i :| 0 <= i < |ops| && ops[i] == o;
      assert all[i] == o;
    }
  }

  /** As long as the epoch is the same, whoever was a member still is, and sees every channel they saw that is
      still there: losing access always begins an epoch. */
  lemma {:induction false} WithinAnEpochNobodyLoses(root: Hash, v: Space, ops: seq<Operation>, more: seq<Operation>, k: Key, id: ID)
    requires NamedApart(root, ops + more)
    requires EpochOf(root, Outcomes(v, ops + more)) == EpochOf(root, Outcomes(v, ops))
    ensures !LosesSight(Run(v, ops), Run(v, ops + more), k, id)
    decreases |more|
  {
    hide *;
    if more == [] {
      assert ops + more == ops;
      NothingLost(Run(v, ops), k, id);
    } else {
      var all := ops + more;
      var init, op := more[..|more| - 1], more[|more| - 1];
      assert all[..|all| - 1] == ops + init && all[|all| - 1] == op && all[..|ops|] == ops && all[..|all|] == all;
      LastBeginsNone(root, v, ops, all);
      FewerNamedApart(root, all, ops + init);
      WithinAnEpochNobodyLoses(root, v, ops, init, k, id);
      StepRun(v, all, |all| - 1);
      RunSplits(v, ops, init);
      LostIsGone(Run(v, ops), init, id);
      StepKeepsSight(Run(v, ops), Run(v, ops + init), op, k, id);
    }
  }

  lemma NothingLost(v: Space, k: Key, id: ID)
    ensures !LosesSight(v, v, k, id)
  {
  }

  lemma StepKeepsSight(v: Space, w: Space, op: Operation, k: Key, id: ID)
    requires !LosesSight(v, w, k, id) && (Refused(w, op).None? ==> !Revokes(op.change.kind))
    requires id in v.channels && id !in w.channels ==> id in w.gone
    ensures !LosesSight(v, Applied(w, op), k, id)
  {
    if Refused(w, op).None? {
      OthersRevokeNothing(w, op, k, id);
      StepGone(w, op, id);
    }
  }
}
