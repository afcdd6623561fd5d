/** Who may change what in a space, and what each change leaves (internal/spaces/state.go:26-457). */
module Authority {
  import opened Basics
  import opened Operations
  import opened Sorting

  const MAX_MEMBERS := 50

  datatype Rank = Nobody | Member | Administrator | Owner {
    function Level(): nat {
      match this
      case Nobody => 0
      case Member => 1
      case Administrator => 2
      case Owner => 3
    }
  }

  datatype Person = Person(rank: Rank, name: string, roles: set<ID>, muted: bool)

  datatype Channel = Channel(name: string, restricted: bool, roles: set<ID>, guarded: bool, writers: set<ID>, voice: bool)

  /** A space as its operations left it. */
  datatype Space = Space(id: ID, name: string, deleted: bool, members: map<Key, Person>, channels: map<ID, Channel>,
    roles: map<ID, string>, gone: set<ID>)

  datatype Refusal = NotMember | NotAllowed | Full | Unknown | Exists | Deleted

  datatype Outcome = Outcome(operation: Operation, refused: Option<Refusal>)

  function Begun(g: Genesis): Space {
    Space(g.space, g.name, false, map[g.creator := Person(Owner, "", {}, false)], map[], map[], {})
  }

  /** The rank each kind of change needs of its author. */
  function Needs(kind: Kind): Rank {
    match kind
    case MakeAdmin | UnmakeAdmin | TransferOwnership | DeleteSpace => Owner
    case Leave | Introduce => Member
    case _ => Administrator
  }

  function RankOf(v: Space, k: Key): Rank {
    if k in v.members && !v.deleted then v.members[k].rank else Nobody
  }

  predicate Sees(v: Space, k: Key, id: ID) {
    id in v.channels && k in v.members && !v.deleted &&
    var (c, p) := (v.channels[id], v.members[k]);
    p.rank.Level() >= Administrator.Level() || !c.restricted || exists r | r in c.roles :: r in p.roles
  }

  predicate Reacts(v: Space, k: Key, id: ID) {
    Sees(v, k, id) && !v.members[k].muted
  }

  predicate Writes(v: Space, k: Key, id: ID) {
    Reacts(v, k, id) &&
    var (c, p) := (v.channels[id], v.members[k]);
    !c.guarded || p.rank.Level() >= Administrator.Level() || exists r | r in c.writers :: r in p.roles
  }

  predicate Moderates(v: Space, moderator: Key, member: Key) {
    RankOf(v, moderator).Level() >= Administrator.Level() && RankOf(v, moderator).Level() > RankOf(v, member).Level()
  }

  /** Why op changes nothing in v, if it does not. */
  function Refused(v: Space, op: Operation): Option<Refusal> {
    if v.deleted then Some(Deleted)
    else if op.space != v.id then Some(Unknown)
    else if op.author !in v.members then Some(NotMember)
    else if v.members[op.author].rank.Level() < Needs(op.change.kind).Level() then Some(NotAllowed)
    else RefusedOf(v, v.members[op.author], op.change)
  }

  /** The same, for a change by one whose rank its kind allows. */
  function RefusedOf(v: Space, author: Person, c: Change): Option<Refusal> {
    var known := c.member in v.members;
    match c.kind
    case CreateChannel | CreateVoiceChannel => if c.channel in v.channels || c.channel in v.gone then Some(Exists) else None
    case RenameChannel | DeleteChannel | OpenChannel | OpenWriting => if c.channel in v.channels then None else Some(Unknown)
    case RestrictChannel | RestrictWriting =>
      if c.channel in v.channels && forall r | r in c.roles :: r in v.roles then None else Some(Unknown)
    case AddMember => if known then Some(Exists) else if |v.members| >= MAX_MEMBERS then Some(Full) else None
    case RemoveMember =>
      if !known then Some(Unknown) else if v.members[c.member].rank.Level() < author.rank.Level() then None else Some(NotAllowed)
    case Leave => if author.rank == Owner then Some(NotAllowed) else None
    case CreateRole => if c.role in v.roles || c.role in v.gone then Some(Exists) else None
    case RenameRole | DeleteRole => if c.role in v.roles then None else Some(Unknown)
    case GiveRole | TakeRole => if known && c.role in v.roles then None else Some(Unknown)
    case MakeAdmin => if !known then Some(Unknown) else if v.members[c.member].rank == Member then None else Some(NotAllowed)
    case UnmakeAdmin => if !known then Some(Unknown) else if v.members[c.member].rank == Administrator then None else Some(NotAllowed)
    case TransferOwnership => if !known then Some(Unknown) else if v.members[c.member].rank != Owner then None else Some(NotAllowed)
    case MuteMember | UnmuteMember =>
      if !known then Some(Unknown) else if v.members[c.member].rank.Level() < author.rank.Level() then None else Some(NotAllowed)
    case RenameSpace | DeleteSpace | Introduce => None
  }

  /** What a change leaves, where it is not refused. */
  function Changed(v: Space, op: Operation): Space
    requires Refused(v, op).None?
  {
    MadeBy(v, op.author, op.change)
  }

  function MadeBy(v: Space, author: Key, c: Change): Space
    requires author in v.members && RefusedOf(v, v.members[author], c).None?
  {
    Space(v.id, if c.kind == RenameSpace then c.name else v.name, v.deleted || c.kind == DeleteSpace,
      MembersAfter(v, author, c), ChannelsAfter(v, c), RolesAfter(v, c), GoneAfter(v, c))
  }

  function MembersAfter(v: Space, author: Key, c: Change): map<Key, Person>
    requires author in v.members && RefusedOf(v, v.members[author], c).None?
  {
    var (all, k) := (v.members, c.member);
    match c.kind
    case AddMember => all[k := Person(Member, "", {}, false)]
    case RemoveMember => all - {k}
    case Leave => all - {author}
    case DeleteRole => MembersWithout(all, c.role)
    case GiveRole => all[k := all[k].(roles := all[k].roles + {c.role})]
    case TakeRole => all[k := all[k].(roles := all[k].roles - {c.role})]
    case MakeAdmin => all[k := all[k].(rank := Administrator)]
    case UnmakeAdmin => all[k := all[k].(rank := Member)]
    case TransferOwnership => all[k := all[k].(rank := Owner)][author := all[author].(rank := Administrator)]
    case Introduce => all[author := all[author].(name := c.name)]
    case MuteMember | UnmuteMember => all[k := all[k].(muted := c.kind == MuteMember)]
    case _ => all
  }

  function ChannelsAfter(v: Space, c: Change): map<ID, Channel>
    requires c.kind in {RenameChannel, RestrictChannel, OpenChannel, RestrictWriting, OpenWriting} ==> c.channel in v.channels
  {
    var (all, id) := (v.channels, c.channel);
    match c.kind
    case CreateChannel | CreateVoiceChannel => all[id := Channel(c.name, false, {}, false, {}, c.kind == CreateVoiceChannel)]
    case RenameChannel => all[id := all[id].(name := c.name)]
    case DeleteChannel => all - {id}
    case RestrictChannel => all[id := all[id].(restricted := true, roles := Listed(c.roles))]
    case OpenChannel => all[id := all[id].(restricted := false, roles := {})]
    case RestrictWriting => all[id := all[id].(guarded := true, writers := Listed(c.roles))]
    case OpenWriting => all[id := all[id].(guarded := false, writers := {})]
    case DeleteRole => ChannelsWithout(all, c.role)
    case _ => all
  }

  function RolesAfter(v: Space, c: Change): map<ID, string> {
    match c.kind
    case CreateRole | RenameRole => v.roles[c.role := c.name]
    case DeleteRole => v.roles - {c.role}
    case _ => v.roles
  }

  function GoneAfter(v: Space, c: Change): set<ID> {
    match c.kind
    case DeleteChannel => v.gone + {c.channel}
    case DeleteRole => v.gone + {c.role}
    case _ => v.gone
  }

  function MembersWithout(members: map<Key, Person>, role: ID): map<Key, Person> {
    map k | k in members :: members[k].(roles := members[k].roles - {role})
  }

  function ChannelsWithout(channels: map<ID, Channel>, role: ID): map<ID, Channel> {
    map c | c in channels :: channels[c].(roles := channels[c].roles - {role}, writers := channels[c].writers - {role})
  }

  function Applied(v: Space, op: Operation): Space {
    if Refused(v, op).None? then Changed(v, op) else v
  }

  /** The space after every operation of ops, in turn. */
  function Run(v: Space, ops: seq<Operation>): Space {
    if ops == [] then v else Applied(Run(v, ops[..|ops| - 1]), ops[|ops| - 1])
  }

  function Outcomes(v: Space, ops: seq<Operation>): (h: seq<Outcome>)
    ensures |h| == |ops| && forall i | 0 <= i < |ops| :: h[i].operation == ops[i]
  {
    if ops == [] then [] else
      var init, op := ops[..|ops| - 1], ops[|ops| - 1];
      Outcomes(v, init) + [Outcome(op, Refused(Run(v, init), op))]
  }

  lemma StepRun(v: Space, q: seq<Operation>, i: nat)
    requires i < |q|
    ensures Run(v, q[..i + 1]) == Applied(Run(v, q[..i]), q[i])
    ensures Outcomes(v, q[..i + 1]) == Outcomes(v, q[..i]) + [Outcome(q[i], Refused(Run(v, q[..i]), q[i]))]
  {
    assert q[..i + 1][..i] == q[..i];
  }

  /** The operations of a history, in its order. */
  function Made(h: seq<Outcome>): (q: seq<Operation>)
    ensures |q| == |h| && forall i | 0 <= i < |h| :: q[i] == h[i].operation
  {
    if h == [] then [] else Made(h[..|h| - 1]) + [h[|h| - 1].operation]
  }

  lemma MadeOfOutcomes(v: Space, ops: seq<Operation>)
    ensures Made(Outcomes(v, ops)) == ops
  {
  }

  // ---- What every run keeps ----

  ghost predicate OwnedBy(v: Space, k: Key) {
    k in v.members && v.members[k].rank == Owner && forall j | j in v.members && v.members[j].rank == Owner :: j == k
  }

  ghost predicate Owned(v: Space) {
    exists k :: OwnedBy(v, k)
  }

  /** Nobody has no rank, and no role that does not exist is held, or named by a channel. */
  ghost predicate RolesExist(v: Space) {
    RolesHeldExist(v) && RolesNamedExist(v)
  }

  ghost predicate RolesHeldExist(v: Space) {
    forall k | k in v.members :: v.members[k].rank != Nobody && v.members[k].roles <= v.roles.Keys
  }

  ghost predicate RolesNamedExist(v: Space) {
    forall c | c in v.channels :: v.channels[c].roles <= v.roles.Keys && v.channels[c].writers <= v.roles.Keys
  }

  /** What every state of every space is: of one owner, of at most 50 members, its roles existing. */
  ghost predicate Sound(v: Space) {
    Owned(v) && |v.members| <= MAX_MEMBERS && RolesExist(v)
  }

  lemma ChangedKeepsRoles(v: Space, op: Operation)
    requires RolesExist(v) && Refused(v, op).None?
    ensures RolesExist(Changed(v, op))
  {
    ChangedKeepsHeld(v, op);
    ChangedKeepsNamed(v, op);
  }

  lemma ChangedKeepsHeld(v: Space, op: Operation)
    requires RolesExist(v) && Refused(v, op).None?
    ensures RolesHeldExist(Changed(v, op))
  {
    hide ChannelsAfter, GoneAfter;
  }

  lemma ChangedKeepsNamed(v: Space, op: Operation)
    requires RolesExist(v) && Refused(v, op).None?
    ensures RolesNamedExist(Changed(v, op))
  {
    hide MembersAfter, GoneAfter;
  }

  lemma ChangedKeepsSound(v: Space, op: Operation)
    requires Sound(v) && Refused(v, op).None?
    ensures Sound(Changed(v, op))
  {
    ChangedKeepsOwner(v, op);
    ChangedKeepsSize(v, op);
    ChangedKeepsRoles(v, op);
  }

  lemma ChangedKeepsOwner(v: Space, op: Operation)
    requires Owned(v) && Refused(v, op).None?
    ensures Owned(Changed(v, op))
  {
    hide ChannelsAfter, RolesAfter, GoneAfter;
    var owner :| OwnedBy(v, owner);
    assert OwnedBy(Changed(v, op), if op.change.kind == TransferOwnership then op.change.member else owner);
  }

  lemma ChangedKeepsSize(v: Space, op: Operation)
    requires |v.members| <= MAX_MEMBERS && Refused(v, op).None?
    ensures |Changed(v, op).members| <= MAX_MEMBERS
  {
    hide ChannelsAfter, RolesAfter, GoneAfter;
    var before, after := v.members.Keys, Changed(v, op).members.Keys;
    if op.change.kind == AddMember {
      assert after == before + {op.change.member};
    } else {
      assert after <= before;
      Within(after, before);
    }
  }

  lemma {:induction false} Within(a: set<Key>, b: set<Key>)
    requires a <= b
    ensures |a| <= |b|
  {
    if a != {} {
      var k :| k in a;
      Within(a - {k}, b - {k});
    }
  }

  lemma {:induction false} EveryRunIsSound(g: Genesis, ops: seq<Operation>)
    ensures Sound(Run(Begun(g), ops))
  {
    if ops == [] {
      assert OwnedBy(Begun(g), g.creator);
    } else {
      var v, op := Run(Begun(g), ops[..|ops| - 1]), ops[|ops| - 1];
      EveryRunIsSound(g, ops[..|ops| - 1]);
      if Refused(v, op).None? { ChangedKeepsSound(v, op); }
    }
  }

  // ---- What a step may do to a member ----

  /** op, applied in v, takes k out of the space: k leaves, or is removed by one of strictly higher rank. */
  predicate TakesOut(v: Space, op: Operation, k: Key) {
    && Refused(v, op).None? && op.author in v.members && k in v.members
    && (|| (op.change.kind == Leave && op.author == k && v.members[k].rank != Owner)
        || (op.change.kind == RemoveMember && op.change.member == k
            && v.members[op.author].rank.Level() > v.members[k].rank.Level()
            && v.members[op.author].rank.Level() >= Administrator.Level()))
  }

  /** Exactly those two take anybody out. */
  lemma OnlyTakenOut(v: Space, op: Operation, k: Key)
    requires k in v.members
    ensures k !in Applied(v, op).members <==> TakesOut(v, op, k)
  {
    hide ChannelsAfter, RolesAfter, GoneAfter;
  }

  /** Only one of strictly higher rank, administering the space, mutes a member or lets them speak. */
  lemma OnlyHigherMutes(v: Space, op: Operation, k: Key)
    requires k in v.members && k in Applied(v, op).members
    requires v.members[k].muted != Applied(v, op).members[k].muted
    ensures op.author in v.members && Moderates(v, op.author, k)
    ensures op.change.kind == if v.members[k].muted then UnmuteMember else MuteMember
  {
    hide ChannelsAfter, RolesAfter, GoneAfter;
  }

  /** Only the owner changes a rank; so nobody comes to administer, or to own, a space but by its owner. */
  lemma OnlyOwnerRanks(v: Space, op: Operation, k: Key)
    requires k in v.members && k in Applied(v, op).members
    requires v.members[k].rank != Applied(v, op).members[k].rank
    ensures op.author in v.members && v.members[op.author].rank == Owner
    ensures Applied(v, op).members[k].rank == Owner ==> v.members[op.author].rank == Owner && Applied(v, op).members[op.author].rank == Administrator
  {
    hide ChannelsAfter, RolesAfter, GoneAfter;
  }

  lemma OnlyAddedJoin(v: Space, op: Operation, k: Key)
    requires k !in v.members && k in Applied(v, op).members
    ensures op.change.kind == AddMember && op.change.member == k && op.author in v.members
    ensures v.members[op.author].rank.Level() >= Administrator.Level()
    ensures Applied(v, op).members[k] == Person(Member, "", {}, false)
  {
    hide ChannelsAfter, RolesAfter, GoneAfter;
  }

  // ---- What never comes back ----

  lemma {:induction false} RunSplits(v: Space, a: seq<Operation>, b: seq<Operation>)
    ensures Run(v, a + b) == Run(Run(v, a), b)
  {
    if b == [] {
      assert a + b == a;
    } else {
      assert (a + b)[..|a + b| - 1] == a + b[..|b| - 1];
      RunSplits(v, a, b[..|b| - 1]);
    }
  }

  /** Once a space is deleted nothing changes it, and every operation is refused for that. */
  lemma {:induction false} DeletionIsFinal(v: Space, ops: seq<Operation>)
    requires v.deleted
    ensures Run(v, ops) == v
    ensures forall o | o in Outcomes(v, ops) :: o.refused == Some(Deleted)
  {
    if ops != [] {
      DeletionIsFinal(v, ops[..|ops| - 1]);
    }
  }

  lemma StepGone(v: Space, op: Operation, id: ID)
    ensures id in v.gone ==> id in Applied(v, op).gone
    ensures id in v.gone && id !in v.channels ==> id !in Applied(v, op).channels
    ensures id in v.gone && id !in v.roles ==> id !in Applied(v, op).roles
    ensures id in v.channels && id !in Applied(v, op).channels ==> id in Applied(v, op).gone
    ensures id in v.roles && id !in Applied(v, op).roles ==> id in Applied(v, op).gone
  {
    hide MembersAfter;
  }

  /** A channel, or a role, that is gone is not made again. */
  lemma {:induction false} GoneStaysGone(v: Space, ops: seq<Operation>, id: ID)
    requires id in v.gone
    ensures id in Run(v, ops).gone
    ensures id !in v.channels ==> id !in Run(v, ops).channels
    ensures id !in v.roles ==> id !in Run(v, ops).roles
  {
    if ops != [] {
      GoneStaysGone(v, ops[..|ops| - 1], id);
      StepGone(Run(v, ops[..|ops| - 1]), ops[|ops| - 1], id);
    }
  }

  lemma {:induction false} LostIsGone(v: Space, ops: seq<Operation>, id: ID)
    ensures id in v.channels && id !in Run(v, ops).channels ==> id in Run(v, ops).gone
    ensures id in v.roles && id !in Run(v, ops).roles ==> id in Run(v, ops).gone
  {
    if ops != [] {
      var init := ops[..|ops| - 1];
      LostIsGone(v, init, id);
      StepGone(Run(v, init), ops[|ops| - 1], id);
    }
  }

  /** What was deleted is never seen again, whatever comes after. */
  lemma DeletedNeverReturns(v: Space, ops: seq<Operation>, more: seq<Operation>, id: ID)
    ensures id in v.channels && id !in Run(v, ops).channels ==> id !in Run(v, ops + more).channels
    ensures id in v.roles && id !in Run(v, ops).roles ==> id !in Run(v, ops + more).roles
  {
    LostIsGone(v, ops, id);
    RunSplits(v, ops, more);
    if id in Run(v, ops).gone { GoneStaysGone(Run(v, ops), more, id); }
  }

  /** Whoever was a member and no longer is, left, or was removed by one then above them. */
  lemma {:induction false} LostMembersWereTakenOut(v: Space, ops: seq<Operation>, k: Key) returns (i: nat)
    requires k in v.members && k !in Run(v, ops).members
    ensures i < |ops| && TakesOut(Run(v, ops[..i]), ops[i], k)
  {
    var init := ops[..|ops| - 1];
    if k in Run(v, init).members {
      i := |ops| - 1;
      OnlyTakenOut(Run(v, init), ops[i], k);
    } else {
      i := LostMembersWereTakenOut(v, init, k);
      assert ops[..i] == init[..i];
    }
  }
}
