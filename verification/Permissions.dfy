/** What changes do to who sees, writes and reacts in a channel (internal/spaces/state.go:244-305, 340-457). */
module Permissions {
  import opened Basics
  import opened Operations
  import opened Sorting
  import opened Authority
  import P = Posts

  /** k makes entries of a kind in a channel. */
  predicate Makes(v: Space, k: Key, id: ID, kind: P.Kind) {
    if kind == P.Kind.Reacted then Reacts(v, k, id) else Writes(v, k, id)
  }

  /** Who moderates whom, as v says. */
  function ModeratesIn(v: Space): P.Moderates { (moderator: Key, member_: Key) => Moderates(v, moderator, member_) }

  /** k holds one of roles. */
  predicate HoldsOne(v: Space, k: Key, roles: seq<ID>) {
    k in v.members && exists r :: r in roles && r in v.members[k].roles
  }

  predicate Administers(v: Space, k: Key) {
    k in v.members && v.members[k].rank.Level() >= Administrator.Level()
  }

  /** Nobody outside the space, and nobody once it is deleted, makes anything; and whoever makes entries of any kind sees the
      channel, and reacts in it. */
  lemma MakersReactAndSee(v: Space, k: Key, id: ID, kind: P.Kind)
    ensures Makes(v, k, id, kind) ==> Reacts(v, k, id) && Sees(v, k, id)
    ensures Sees(v, k, id) ==> k in v.members && !v.deleted && id in v.channels
  {
  }

  // ---- Who comes to see ----

  /** op, applied in v, shows k a channel: it makes or opens it to all, restricts it to a role of k's, adds k where it is
      open, gives k a role it is restricted to, or has k administer the space. */
  predicate Shows(v: Space, op: Operation, k: Key, id: ID) {
    var c := op.change;
    && Refused(v, op).None? && c.kind != DeleteSpace
    && (match c.kind
        case CreateChannel | CreateVoiceChannel | OpenChannel => c.channel == id && k in v.members
        case RestrictChannel => c.channel == id && HoldsOne(v, k, c.roles)
        case AddMember => c.member == k && id in v.channels && !v.channels[id].restricted
        case GiveRole => c.member == k && id in v.channels && c.role in v.channels[id].roles
        case MakeAdmin | TransferOwnership => c.member == k && id in v.channels
        case _ => false)
  }

  /** Whoever does not see a channel sees it after an operation if and only if it shows it to them. */
  lemma ShownIff(v: Space, op: Operation, k: Key, id: ID)
    requires !Sees(v, k, id)
    ensures Sees(Applied(v, op), k, id) <==> Shows(v, op, k, id)
  {
    if Refused(v, op).None? {
      if id in Changed(v, op).channels && id in v.channels { ChannelAfter(v, op, id); }
      if k in v.members && k in Changed(v, op).members { MemberAfter(v, op, k); }
      ShownByKind(v, op, k, id);
    }
  }

  /** What an operation leaves of a channel that decides who writes in it. */
  ghost predicate WritingLeft(op: Operation, c: Channel, d: Channel, id: ID) {
    if op.change.kind == OpenWriting && op.change.channel == id then !d.guarded
    else if op.change.kind == RestrictWriting && op.change.channel == id then d.guarded && d.writers == Listed(op.change.roles)
    else if op.change.kind == DeleteRole then d.guarded == c.guarded && d.writers == c.writers - {op.change.role}
    else d.guarded == c.guarded && d.writers == c.writers
  }

  /** And who sees it. */
  ghost predicate ChannelLeft(v: Space, op: Operation, c: Channel, d: Channel, id: ID) {
    if op.change.kind == OpenChannel && op.change.channel == id then !d.restricted
    else if op.change.kind == RestrictChannel && op.change.channel == id then d.restricted && d.roles == Listed(op.change.roles)
    else if op.change.kind == DeleteRole then d.restricted == c.restricted && d.roles == c.roles - {op.change.role}
    else d.restricted == c.restricted && d.roles == c.roles
  }

  /** And of a member. */
  ghost predicate MemberLeft(v: Space, op: Operation, p: Person, q: Person, k: Key) {
    && q.roles == (if op.change.kind == GiveRole && op.change.member == k then p.roles + {op.change.role}
                   else if op.change.kind == DeleteRole || (op.change.kind == TakeRole && op.change.member == k) then p.roles - {op.change.role}
                   else p.roles)
    && q.rank == (if op.change.kind in {MakeAdmin, UnmakeAdmin} && op.change.member == k then (if op.change.kind == MakeAdmin then Administrator else Member)
                  else if op.change.kind == TransferOwnership && op.author == k then Administrator
                  else if op.change.kind == TransferOwnership && op.change.member == k then Owner
                  else p.rank)
  }

  lemma ChannelAfter(v: Space, op: Operation, id: ID)
    requires Refused(v, op).None? && id in v.channels && id in Changed(v, op).channels
    ensures ChannelLeft(v, op, v.channels[id], Changed(v, op).channels[id], id) && WritingLeft(op, v.channels[id], Changed(v, op).channels[id], id)
  {
    hide MembersAfter, RolesAfter, GoneAfter;
  }

  lemma MemberAfter(v: Space, op: Operation, k: Key)
    requires Refused(v, op).None? && k in v.members && k in Changed(v, op).members
    ensures MemberLeft(v, op, v.members[k], Changed(v, op).members[k], k)
  {
    hide ChannelsAfter, RolesAfter, GoneAfter;
  }

  lemma ShownByKind(v: Space, op: Operation, k: Key, id: ID)
    requires Refused(v, op).None? && !Sees(v, k, id)
    requires id in v.channels && id in Changed(v, op).channels ==> ChannelLeft(v, op, v.channels[id], Changed(v, op).channels[id], id)
    requires k in v.members && k in Changed(v, op).members ==> MemberLeft(v, op, v.members[k], Changed(v, op).members[k], k)
    ensures Sees(Changed(v, op), k, id) <==> Shows(v, op, k, id)
  {
    hide RolesAfter, GoneAfter;
  }

  /** The space after the first n operations of a run. */
  function After(v: Space, ops: seq<Operation>, n: nat): Space
    requires n <= |ops|
  {
    Run(v, ops[..n])
  }

  lemma AfterStep(v: Space, ops: seq<Operation>, n: nat)
    requires n < |ops|
    ensures After(v, ops, n + 1) == Applied(After(v, ops, n), ops[n])
  {
    StepRun(v, ops, n);
    hide Applied;
  }

  lemma AfterNone(v: Space, ops: seq<Operation>)
    ensures After(v, ops, 0) == v
  {
  }

  /** Over any run, whoever comes to see a channel was shown it by some operation, and has seen it since. */
  lemma {:induction false} WhoeverSeesWasShown(v: Space, ops: seq<Operation>, n: nat, k: Key, id: ID) returns (i: nat)
    requires n <= |ops| && !Sees(v, k, id) && Sees(After(v, ops, n), k, id)
    ensures i < n && !Sees(After(v, ops, i), k, id) && Shows(After(v, ops, i), ops[i], k, id)
    ensures forall j | i < j <= n :: Sees(After(v, ops, j), k, id)
  {
    hide *;
    AfterNone(v, ops);
    AfterStep(v, ops, n - 1);
    if Sees(After(v, ops, n - 1), k, id) {
      i := WhoeverSeesWasShown(v, ops, n - 1, k, id);
    } else {
      i := n - 1;
      ShownIff(After(v, ops, i), ops[i], k, id);
    }
  }

  // ---- Who ceases to see ----

  /** k sees the channel id by the role alone. */
  predicate SeesOnlyBy(v: Space, k: Key, id: ID, role: ID)
    requires id in v.channels && k in v.members
  {
    !Administers(v, k) && v.channels[id].restricted && forall r | r in v.channels[id].roles && r in v.members[k].roles :: r == role
  }

  /** op, applied in v, hides from k a channel it sees: it deletes it, or the space, or restricts it to roles k has none of; or
      k is out; or k loses the one role, or the rank, it sees it by. */
  predicate Hides(v: Space, op: Operation, k: Key, id: ID)
    requires id in v.channels && k in v.members
  {
    var c := op.change;
    && Refused(v, op).None?
    && (match c.kind
        case DeleteSpace => true
        case DeleteChannel => c.channel == id
        case RestrictChannel => c.channel == id && !Administers(v, k) && !HoldsOne(v, k, c.roles)
        case RemoveMember => c.member == k
        case Leave => op.author == k
        case TakeRole => c.member == k && SeesOnlyBy(v, k, id, c.role)
        case DeleteRole => SeesOnlyBy(v, k, id, c.role)
        case UnmakeAdmin => c.member == k && v.channels[id].restricted && v.channels[id].roles !! v.members[k].roles
        case _ => false)
  }

  /** Whoever sees a channel does not after an operation if and only if it hides it from them. */
  lemma HiddenIff(v: Space, op: Operation, k: Key, id: ID)
    requires Sees(v, k, id)
    ensures !Sees(Applied(v, op), k, id) <==> Hides(v, op, k, id)
  {
    if Refused(v, op).None? {
      SightIsThere(v, k, id);
      StaysThere(v, op, k, id);
      if id in Changed(v, op).channels { ChannelAfter(v, op, id); }
      if k in Changed(v, op).members { MemberAfter(v, op, k); }
      hide Changed, Sees, Hides, ChannelLeft, MemberLeft, Refused;
      HiddenByKind(v, op, k, id);
    }
  }

  /** What goes, goes so. */
  lemma StaysThere(v: Space, op: Operation, k: Key, id: ID)
    requires Refused(v, op).None? && id in v.channels && k in v.members
    ensures id !in Changed(v, op).channels <==> op.change.kind == DeleteChannel && op.change.channel == id
    ensures k !in Changed(v, op).members <==> (op.change.kind == RemoveMember && op.change.member == k) || (op.change.kind == Leave && op.author == k)
    ensures Changed(v, op).deleted <==> v.deleted || op.change.kind == DeleteSpace
  {
    hide RolesAfter, GoneAfter;
  }

  /** Whoever and whatever is there still is as what decides sight leaves them. */
  ghost predicate LeftSo(v: Space, op: Operation, w: Space, k: Key, id: ID)
    requires Refused(v, op).None?
  {
    && (id !in w.channels <==> op.change.kind == DeleteChannel && op.change.channel == id)
    && (k !in w.members <==> (op.change.kind == RemoveMember && op.change.member == k) || (op.change.kind == Leave && op.author == k))
    && (w.deleted <==> v.deleted || op.change.kind == DeleteSpace)
    && (id in v.channels && id in w.channels ==> ChannelLeft(v, op, v.channels[id], w.channels[id], id))
    && (k in v.members && k in w.members ==> MemberLeft(v, op, v.members[k], w.members[k], k))
  }

  lemma HiddenByKind(v: Space, op: Operation, k: Key, id: ID)
    requires Refused(v, op).None? && Sees(v, k, id) && LeftSo(v, op, Changed(v, op), k, id)
    ensures !Sees(Changed(v, op), k, id) <==> Hides(v, op, k, id)
  {
    var (w, kind) := (Changed(v, op), op.change.kind);
    assert kind == UnmakeAdmin && op.change.member == k ==> v.members[k].rank == Administrator;
    hide Changed, Refused;
    if id in w.channels && k in w.members && !w.deleted {
      if kind in {MakeAdmin, UnmakeAdmin, TransferOwnership} { RankHides(v, op, w, k, id); }
      else if kind in {GiveRole, TakeRole, DeleteRole} { RoleHides(v, op, w, k, id); }
      else { OtherHides(v, op, w, k, id); }
    }
  }

  lemma RankHides(v: Space, op: Operation, w: Space, k: Key, id: ID)
    requires Refused(v, op).None? && Sees(v, k, id) && LeftSo(v, op, w, k, id) && id in w.channels && k in w.members && !w.deleted
    requires op.change.kind in {MakeAdmin, UnmakeAdmin, TransferOwnership}
    requires op.change.kind == UnmakeAdmin && op.change.member == k ==> v.members[k].rank == Administrator
    ensures !Sees(w, k, id) <==> Hides(v, op, k, id)
  {
    hide Refused;
  }

  lemma RoleHides(v: Space, op: Operation, w: Space, k: Key, id: ID)
    requires Refused(v, op).None? && Sees(v, k, id) && LeftSo(v, op, w, k, id) && id in w.channels && k in w.members && !w.deleted
    requires op.change.kind in {GiveRole, TakeRole, DeleteRole}
    ensures !Sees(w, k, id) <==> Hides(v, op, k, id)
  {
    hide Refused;
    var (c, d, p, q) := (v.channels[id], w.channels[id], v.members[k], w.members[k]);
    assert Administers(w, k) == Administers(v, k) && d.restricted == c.restricted;
    if !Administers(v, k) && c.restricted {
      var r :| r in c.roles && r in p.roles && (r != op.change.role || forall s | s in c.roles && s in p.roles :: s == op.change.role);
      assert r != op.change.role ==> r in d.roles && r in q.roles;
    }
  }

  lemma OtherHides(v: Space, op: Operation, w: Space, k: Key, id: ID)
    requires Refused(v, op).None? && Sees(v, k, id) && LeftSo(v, op, w, k, id) && id in w.channels && k in w.members && !w.deleted
    requires op.change.kind !in {MakeAdmin, UnmakeAdmin, TransferOwnership, GiveRole, TakeRole, DeleteRole}
    ensures !Sees(w, k, id) <==> Hides(v, op, k, id)
  {
    hide Refused;
  }

  /** Over any run, whoever ceases to see a channel had it hidden from them by some operation, and has not seen it since. */
  lemma {:induction false} WhoeverSeesNoMoreWasHidden(v: Space, ops: seq<Operation>, n: nat, k: Key, id: ID) returns (i: nat)
    requires n <= |ops| && Sees(v, k, id) && !Sees(After(v, ops, n), k, id)
    ensures i < n && SeesThere(After(v, ops, i), k, id) && Hides(After(v, ops, i), ops[i], k, id)
    ensures forall j | i < j <= n :: !Sees(After(v, ops, j), k, id)
  {
    hide *;
    AfterNone(v, ops);
    AfterStep(v, ops, n - 1);
    if Sees(After(v, ops, n - 1), k, id) {
      i := n - 1;
      SightIsThere(After(v, ops, i), k, id);
      HiddenIff(After(v, ops, i), ops[i], k, id);
    } else {
      i := WhoeverSeesNoMoreWasHidden(v, ops, n - 1, k, id);
    }
  }

  predicate SeesThere(v: Space, k: Key, id: ID) { Sees(v, k, id) && id in v.channels && k in v.members }

  lemma SightIsThere(v: Space, k: Key, id: ID)
    ensures SeesThere(v, k, id) <==> Sees(v, k, id)
    ensures SeesThere(v, k, id) ==> id in v.channels && k in v.members
  {
  }

  // ---- What was said of a channel or a member last, holds ----

  /** Of the roles there are, just those of roles are in named; and each of roles is one, or was deleted. */
  ghost predicate NamesStill(v: Space, named: set<ID>, roles: seq<ID>) {
    (forall r | r in v.roles :: r in named <==> r in roles) && forall r | r in roles :: r in v.roles || r in v.gone
  }

  /** A channel is restricted to roles; or it is open. */
  ghost predicate IsSeenAs(v: Space, id: ID, to: Option<seq<ID>>) {
    && id in v.channels && v.channels[id].restricted == to.Some?
    && (to.Some? ==> NamesStill(v, v.channels[id].roles, to.value))
  }

  /** Writing in a channel is restricted to roles; or it is open. */
  ghost predicate IsWrittenAs(v: Space, id: ID, to: Option<seq<ID>>) {
    && id in v.channels && v.channels[id].guarded == to.Some?
    && (to.Some? ==> NamesStill(v, v.channels[id].writers, to.value))
  }

  /** Roles come and go, and what a channel names goes with them. */
  lemma NamesStay(v: Space, op: Operation, named: set<ID>, left: set<ID>, roles: seq<ID>)
    requires Refused(v, op).None? && named <= v.roles.Keys && NamesStill(v, named, roles)
    requires left == if op.change.kind == DeleteRole then named - {op.change.role} else named
    ensures NamesStill(Changed(v, op), left, roles)
  {
    hide MembersAfter, ChannelsAfter;
  }

  predicate SaysWhoSees(op: Operation, id: ID) {
    op.change.channel == id && op.change.kind in {CreateChannel, CreateVoiceChannel, OpenChannel, RestrictChannel, DeleteChannel}
  }

  predicate SaysWhoWrites(op: Operation, id: ID) {
    op.change.channel == id && op.change.kind in {CreateChannel, CreateVoiceChannel, OpenWriting, RestrictWriting, DeleteChannel}
  }

  /** What an operation that says who sees, or who writes in, a channel leaves, unless it deletes it. */
  lemma SaidLeaves(v: Space, op: Operation, id: ID)
    requires Refused(v, op).None? && op.change.kind != DeleteChannel
    ensures SaysWhoSees(op, id) ==> IsSeenAs(Changed(v, op), id, if op.change.kind == RestrictChannel then Some(op.change.roles) else None)
    ensures SaysWhoWrites(op, id) ==> IsWrittenAs(Changed(v, op), id, if op.change.kind == RestrictWriting then Some(op.change.roles) else None)
  {
    hide MembersAfter;
  }

  lemma SaidStays(v: Space, op: Operation, id: ID, to: Option<seq<ID>>)
    requires RolesExist(v)
    ensures IsSeenAs(v, id, to) && !SaysWhoSees(op, id) ==> IsSeenAs(Applied(v, op), id, to)
    ensures IsWrittenAs(v, id, to) && !SaysWhoWrites(op, id) ==> IsWrittenAs(Applied(v, op), id, to)
  {
    if Refused(v, op).None? && id in v.channels && !(op.change.kind == DeleteChannel && op.change.channel == id) {
      ChannelStays(v, op, id);
      ChannelAfter(v, op, id);
      var (c, d) := (v.channels[id], Changed(v, op).channels[id]);
      assert c.roles <= v.roles.Keys && c.writers <= v.roles.Keys;
      hide Changed, Refused, RolesExist, NamesStill;
      if to.Some? {
        if NamesStill(v, c.roles, to.value) && !SaysWhoSees(op, id) { NamesStay(v, op, c.roles, d.roles, to.value); }
        if NamesStill(v, c.writers, to.value) && !SaysWhoWrites(op, id) { NamesStay(v, op, c.writers, d.writers, to.value); }
      }
    }
  }

  lemma ChannelStays(v: Space, op: Operation, id: ID)
    requires Refused(v, op).None? && id in v.channels && !(op.change.kind == DeleteChannel && op.change.channel == id)
    ensures id in Changed(v, op).channels
  {
    hide MembersAfter, RolesAfter, GoneAfter;
  }

  lemma RolesStay(v: Space, op: Operation)
    requires RolesExist(v)
    ensures RolesExist(Applied(v, op))
  {
    if Refused(v, op).None? { ChangedKeepsRoles(v, op); }
    hide Changed, RolesExist;
  }

  /** What a run has said of a channel, once nothing it does says otherwise. */
  lemma {:induction false} SaidHolds(v: Space, ops: seq<Operation>, i: nat, n: nat, id: ID, to: Option<seq<ID>>)
    requires RolesExist(v) && i < n <= |ops|
    ensures RolesExist(After(v, ops, n))
    ensures IsSeenAs(After(v, ops, i + 1), id, to) && (forall j | i < j < n :: !SaysWhoSees(ops[j], id)) ==> IsSeenAs(After(v, ops, n), id, to)
    ensures IsWrittenAs(After(v, ops, i + 1), id, to) && (forall j | i < j < n :: !SaysWhoWrites(ops[j], id)) ==> IsWrittenAs(After(v, ops, n), id, to)
  {
    hide RolesExist, IsSeenAs, IsWrittenAs, SaysWhoSees, SaysWhoWrites, After;
    if n == i + 1 {
      RunRoles(v, ops, n);
    } else {
      SaidHolds(v, ops, i, n - 1, id, to);
      AfterStep(v, ops, n - 1);
      RolesStay(After(v, ops, n - 1), ops[n - 1]);
      SaidStays(After(v, ops, n - 1), ops[n - 1], id, to);
    }
  }

  lemma {:induction false} RunRoles(v: Space, ops: seq<Operation>, n: nat)
    requires RolesExist(v) && n <= |ops|
    ensures RolesExist(After(v, ops, n))
  {
    hide RolesExist, Applied, After;
    AfterNone(v, ops);
    if n > 0 {
      RunRoles(v, ops, n - 1);
      AfterStep(v, ops, n - 1);
      RolesStay(After(v, ops, n - 1), ops[n - 1]);
    }
  }

  /** Over any run, a channel is seen by all its members since it was made, or opened, and since it was restricted by exactly
      those who administer the space or hold one of the roles named then, until something else is said of who sees it:
      whatever becomes of members and roles in between. */
  lemma SeenSince(v: Space, ops: seq<Operation>, i: nat, n: nat, k: Key, id: ID)
    requires RolesExist(v) && i < n <= |ops| && forall j | i < j < n :: !SaysWhoSees(ops[j], id)
    requires Refused(After(v, ops, i), ops[i]).None? && SaysWhoSees(ops[i], id) && ops[i].change.kind != DeleteChannel
    ensures var (w, c) := (After(v, ops, n), ops[i].change);
      Sees(w, k, id) <==> k in w.members && !w.deleted && (c.kind == RestrictChannel ==> Administers(w, k) || HoldsOne(w, k, c.roles))
  {
    var c := ops[i].change;
    var to := if c.kind == RestrictChannel then Some(c.roles) else None;
    AfterStep(v, ops, i);
    SaidLeaves(After(v, ops, i), ops[i], id);
    SaidHolds(v, ops, i, n, id, to);
    hide After, SaysWhoSees, RolesExist, Refused, Changed, IsSeenAs;
    SeenAs(After(v, ops, n), k, id, to);
  }

  lemma SeenAs(v: Space, k: Key, id: ID, to: Option<seq<ID>>)
    requires RolesExist(v) && IsSeenAs(v, id, to)
    ensures Sees(v, k, id) <==> k in v.members && !v.deleted && (to.Some? ==> Administers(v, k) || HoldsOne(v, k, to.value))
  {
    if k in v.members && to.Some? { HeldAreNamed(v, v.channels[id].roles, to.value, k); }
  }

  lemma HeldAreNamed(v: Space, named: set<ID>, roles: seq<ID>, k: Key)
    requires RolesExist(v) && NamesStill(v, named, roles) && k in v.members
    ensures (exists r :: r in named && r in v.members[k].roles) <==> HoldsOne(v, k, roles)
  {
  }

  /** And so of who, of those who react in it, write in it. */
  lemma WrittenSince(v: Space, ops: seq<Operation>, i: nat, n: nat, k: Key, id: ID)
    requires RolesExist(v) && i < n <= |ops| && forall j | i < j < n :: !SaysWhoWrites(ops[j], id)
    requires Refused(After(v, ops, i), ops[i]).None? && SaysWhoWrites(ops[i], id) && ops[i].change.kind != DeleteChannel
    ensures var (w, c) := (After(v, ops, n), ops[i].change);
      Writes(w, k, id) <==> Reacts(w, k, id) && (c.kind == RestrictWriting ==> Administers(w, k) || HoldsOne(w, k, c.roles))
  {
    var c := ops[i].change;
    var to := if c.kind == RestrictWriting then Some(c.roles) else None;
    AfterStep(v, ops, i);
    SaidLeaves(After(v, ops, i), ops[i], id);
    SaidHolds(v, ops, i, n, id, to);
    hide After, SaysWhoWrites, RolesExist, Refused, Changed, IsWrittenAs;
    WrittenAs(After(v, ops, n), k, id, to);
  }

  lemma WrittenAs(v: Space, k: Key, id: ID, to: Option<seq<ID>>)
    requires RolesExist(v) && IsWrittenAs(v, id, to)
    ensures Writes(v, k, id) <==> Reacts(v, k, id) && (to.Some? ==> Administers(v, k) || HoldsOne(v, k, to.value))
  {
    if k in v.members && to.Some? { HeldAreNamed(v, v.channels[id].writers, to.value, k); }
  }

  /** Over any run, one who was muted makes nothing in any channel as long as they are a member, until they are let speak; and
      one let speak reacts wherever they see, until they are muted. */
  lemma {:induction false} SilentSince(v: Space, ops: seq<Operation>, i: nat, n: nat, k: Key, id: ID, kind: P.Kind)
    requires i < n <= |ops| && forall j | i < j <= n :: k in After(v, ops, j).members
    requires Refused(After(v, ops, i), ops[i]).None? && ops[i].change.member == k && ops[i].change.kind in {MuteMember, UnmuteMember}
    requires forall j | i < j < n :: !(ops[j].change.member == k && ops[j].change.kind in {MuteMember, UnmuteMember})
    ensures var (w, mute) := (After(v, ops, n), ops[i].change.kind == MuteMember);
      && k in w.members && w.members[k].muted == mute
      && (mute ==> !Makes(w, k, id, kind)) && (!mute ==> (Reacts(w, k, id) <==> Sees(w, k, id)))
  {
    hide After, Applied, Refused;
    AfterStep(v, ops, n - 1);
    if n == i + 1 {
      MutedAfter(After(v, ops, i), ops[i], k);
    } else {
      SilentSince(v, ops, i, n - 1, k, id, kind);
      MutedAfter(After(v, ops, n - 1), ops[n - 1], k);
    }
  }

  lemma MutedAfter(v: Space, op: Operation, k: Key)
    requires k in Applied(v, op).members
    ensures Refused(v, op).None? && op.change.member == k && op.change.kind in {MuteMember, UnmuteMember} ==>
      Applied(v, op).members[k].muted == (op.change.kind == MuteMember)
    ensures k in v.members && !(op.change.member == k && op.change.kind in {MuteMember, UnmuteMember}) ==>
      Applied(v, op).members[k].muted == v.members[k].muted
  {
    hide ChannelsAfter, RolesAfter, GoneAfter;
  }

  /** Over any run, a member has the name they last introduced themselves by, and nobody else gives them one; and a channel the
      one it was last given. */
  lemma {:induction false} NamedSince(v: Space, ops: seq<Operation>, i: nat, n: nat, k: Key)
    requires i < n <= |ops| && forall j | i <= j <= n :: k in After(v, ops, j).members
    requires Refused(After(v, ops, i), ops[i]).None? && ops[i].author == k && ops[i].change.kind == Introduce
    requires forall j | i < j < n :: !(ops[j].author == k && ops[j].change.kind == Introduce)
    ensures After(v, ops, n).members[k].name == ops[i].change.name
  {
    hide After, Applied, Refused;
    AfterStep(v, ops, n - 1);
    MembersChangeOnlySo(After(v, ops, n - 1), ops[n - 1], k);
    if n > i + 1 { NamedSince(v, ops, i, n - 1, k); }
  }

  lemma {:induction false} ChannelNamedSince(v: Space, ops: seq<Operation>, i: nat, n: nat, id: ID)
    requires i < n <= |ops| && forall j | i < j <= n :: id in After(v, ops, j).channels
    requires Refused(After(v, ops, i), ops[i]).None? && ops[i].change.channel == id && ops[i].change.kind in {CreateChannel, CreateVoiceChannel, RenameChannel}
    requires forall j | i < j < n :: !(ops[j].change.channel == id && ops[j].change.kind == RenameChannel)
    ensures After(v, ops, n).channels[id].name == ops[i].change.name
  {
    hide *;
    AfterStep(v, ops, n - 1);
    if n == i + 1 {
      ChannelGiven(After(v, ops, i), ops[i], id);
    } else {
      ChannelNamedSince(v, ops, i, n - 1, id);
      ChannelNameStays(After(v, ops, n - 1), ops[n - 1], id);
    }
  }

  lemma ChannelGiven(v: Space, op: Operation, id: ID)
    requires Refused(v, op).None? && op.change.channel == id && op.change.kind in {CreateChannel, CreateVoiceChannel, RenameChannel}
    requires id in Applied(v, op).channels
    ensures Applied(v, op).channels[id].name == op.change.name
  {
    MadeIsNew(v, op);
    ChannelsChangeOnlySo(v, op, id);
    hide *;
  }

  lemma ChannelNameStays(v: Space, op: Operation, id: ID)
    requires id in v.channels && id in Applied(v, op).channels && !(op.change.channel == id && op.change.kind == RenameChannel)
    ensures Applied(v, op).channels[id].name == v.channels[id].name
  {
    ChannelsChangeOnlySo(v, op, id);
    hide *;
  }

  lemma MadeIsNew(v: Space, op: Operation)
    requires Refused(v, op).None?
    ensures op.change.kind in {CreateChannel, CreateVoiceChannel} ==> op.change.channel !in v.channels
    ensures op.change.kind == RenameChannel ==> op.change.channel in v.channels
  {
  }

  /** Who moderates whom changes only as somebody comes to administer the space, or ceases to. */
  lemma ModerationStays(v: Space, op: Operation, k: Key, l: Key)
    requires op.change.kind !in {MakeAdmin, UnmakeAdmin, TransferOwnership, DeleteSpace}
    requires op.change.kind == RemoveMember ==> !Administers(v, op.change.member)
    requires op.change.kind == Leave ==> !Administers(v, op.author)
    ensures ModeratesIn(Applied(v, op))(k, l) == ModeratesIn(v)(k, l)
  {
    hide ChannelsAfter, RolesAfter, GoneAfter;
  }

  // ---- Nothing else changes ----

  /** An operation changes nothing of a member it is neither by nor about, but that a role deleted is theirs no more; and
      nobody's name but its author's, by their introducing themselves. */
  lemma MembersChangeOnlySo(v: Space, op: Operation, k: Key)
    ensures var (w, c) := (Applied(v, op), op.change);
      k != op.author && k != c.member ==>
        && (k in w.members <==> k in v.members)
        && (k in v.members && c.kind != DeleteRole ==> w.members[k] == v.members[k])
        && (k in v.members && Refused(v, op).None? && c.kind == DeleteRole ==> w.members[k] == v.members[k].(roles := v.members[k].roles - {c.role}))
    ensures var (w, c) := (Applied(v, op), op.change);
      k in v.members && k in w.members ==>
        w.members[k].name == if Refused(v, op).None? && c.kind == Introduce && op.author == k then c.name else v.members[k].name
  {
    hide ChannelsAfter, RolesAfter, GoneAfter;
  }

  /** Nor anything of a channel it is not about, but that a role deleted opens it, or lets write in it, no more; nor of a
      role it is not about; and a channel or a role has the name it was last given, and so has the space. */
  lemma ChannelsChangeOnlySo(v: Space, op: Operation, id: ID)
    ensures var (w, c) := (Applied(v, op), op.change);
      && (id != c.channel ==>
            && (id in w.channels <==> id in v.channels)
            && (id in v.channels && c.kind != DeleteRole ==> w.channels[id] == v.channels[id])
            && (id in v.channels && Refused(v, op).None? && c.kind == DeleteRole ==>
                  w.channels[id] == v.channels[id].(roles := v.channels[id].roles - {c.role}, writers := v.channels[id].writers - {c.role})))
      && (id != c.role ==> (id in w.roles <==> id in v.roles) && (id in v.roles ==> w.roles[id] == v.roles[id]))
    ensures var (w, c, made) := (Applied(v, op), op.change, Refused(v, op).None?);
      && (id in w.channels && id !in v.channels ==> made && c.kind in {CreateChannel, CreateVoiceChannel} && c.channel == id && w.channels[id].name == c.name)
      && (id in w.channels && id in v.channels ==>
            w.channels[id].name == if made && c.kind == RenameChannel && c.channel == id then c.name else v.channels[id].name)
      && w.name == if made && c.kind == RenameSpace then c.name else v.name
  {
    hide MembersAfter, GoneAfter;
  }
}
