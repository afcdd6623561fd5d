/** What each rank may do in a space, and who did what was done to it (ADR 0038, docs/protocol/spaces.md). */
module Ranks {
  // internal/spaces/state.go:233-305, 309-457. What is said here is said of who is a member, and of their ranks: of what
  // the state holds alone.

  import opened Basics
  import opened Operations
  import opened Authority
  import Permissions
  import P = Posts
  import SpaceStore

  // ---- One operation ----

  /** What is done: the owner alone deletes the space, ranks others and hands it over; the owner and administrators do all else, to
      those below them; and whoever is a member names themselves, and, but the owner, leaves. */
  lemma DoneIff(v: Space, op: Operation)
    ensures Refused(v, op).None? <==>
      && !v.deleted && op.space == v.id && op.author in v.members
      && var (rank, c) := (v.members[op.author].rank, op.change);
      match c.kind
      case DeleteSpace => rank == Owner
      case MakeAdmin => rank == Owner && c.member in v.members && v.members[c.member].rank == Member
      case UnmakeAdmin => rank == Owner && c.member in v.members && v.members[c.member].rank == Administrator
      case TransferOwnership => rank == Owner && c.member in v.members && v.members[c.member].rank != Owner
      case Introduce => rank in {Member, Administrator, Owner}
      case Leave => rank in {Member, Administrator}
      case RenameSpace => rank in {Administrator, Owner}
      case CreateChannel | CreateVoiceChannel => rank in {Administrator, Owner} && c.channel !in v.channels && c.channel !in v.gone
      case RenameChannel | DeleteChannel | OpenChannel | OpenWriting => rank in {Administrator, Owner} && c.channel in v.channels
      case RestrictChannel | RestrictWriting =>
        rank in {Administrator, Owner} && c.channel in v.channels && forall r | r in c.roles :: r in v.roles
      case CreateRole => rank in {Administrator, Owner} && c.role !in v.roles && c.role !in v.gone
      case RenameRole | DeleteRole => rank in {Administrator, Owner} && c.role in v.roles
      case GiveRole | TakeRole => rank in {Administrator, Owner} && c.member in v.members && c.role in v.roles
      case AddMember => rank in {Administrator, Owner} && c.member !in v.members && |v.members| < 50
      case RemoveMember | MuteMember | UnmuteMember =>
        && c.member in v.members && v.members[c.member].rank != Owner
        && (rank == Owner || (rank == Administrator && v.members[c.member].rank != Administrator))
  {
  }

  /** What is not done says why: the space is deleted, or another; the author is nobody there, or lacks the rank, which is said before
      anything else; or the thing, or the person, is there already, or is not there. */
  lemma RefusedFor(v: Space, op: Operation)
    ensures v.deleted ==> Refused(v, op) == Some(Deleted)
    ensures !v.deleted && op.space != v.id ==> Refused(v, op) == Some(Unknown)
    ensures !v.deleted && op.space == v.id && op.author !in v.members ==> Refused(v, op) == Some(NotMember)
    ensures !v.deleted && op.space == v.id && op.author in v.members ==>
      var (why, c, rank) := (Refused(v, op), op.change, v.members[op.author].rank);
      var about := c.kind in {RemoveMember, MuteMember, UnmuteMember, MakeAdmin, UnmakeAdmin, TransferOwnership};
      var lacks :=
        if c.kind in {DeleteSpace, MakeAdmin, UnmakeAdmin, TransferOwnership} then rank != Owner
        else if c.kind in {Leave, Introduce} then rank == Nobody
        else rank !in {Administrator, Owner};
      if lacks then why == Some(NotAllowed)
      else
        && (why == Some(Full) <==> c.kind == AddMember && c.member !in v.members && |v.members| >= 50)
        && (why == Some(Exists) <==>
              || (c.kind in {CreateChannel, CreateVoiceChannel} && (c.channel in v.channels || c.channel in v.gone))
              || (c.kind == CreateRole && (c.role in v.roles || c.role in v.gone))
              || (c.kind == AddMember && c.member in v.members))
        && (why == Some(Unknown) <==>
              || (c.kind in {RenameChannel, DeleteChannel, OpenChannel, OpenWriting, RestrictChannel, RestrictWriting} && c.channel !in v.channels)
              || (c.kind in {RestrictChannel, RestrictWriting} && exists r :: r in c.roles && r !in v.roles)
              || (c.kind in {RenameRole, DeleteRole, GiveRole, TakeRole} && c.role !in v.roles)
              || ((about || c.kind in {GiveRole, TakeRole}) && c.member !in v.members))
        && (why == Some(NotAllowed) ==> c.kind == Leave || (about && c.member in v.members))
        && (why.Some? ==> why.value in {Full, Exists, Unknown, NotAllowed})
  {
  }

  /** The owner moderates everybody else, an administrator whoever is no administrator and not the owner; both, those who are
      out; and nobody anybody, once the space is deleted. */
  lemma ModeratesIff(v: Space, moderator: Key, member_: Key)
    ensures Moderates(v, moderator, member_) <==>
      && !v.deleted && moderator in v.members
      && match v.members[moderator].rank
         case Owner => member_ in v.members ==> v.members[member_].rank != Owner
         case Administrator => member_ in v.members ==> v.members[member_].rank !in {Owner, Administrator}
         case _ => false
  {
  }

  /** The owner and administrators see every channel, and write in it unless muted. A member sees one that is open, or
      restricted to a role of theirs; reacts in it unless muted; and writes in it too, if writing is open, or restricted to a role
      of theirs. */
  lemma MayIff(v: Space, k: Key, id: ID)
    ensures v.deleted || k !in v.members || id !in v.channels ==> !Sees(v, k, id)
    ensures !v.deleted && k in v.members && id in v.channels ==>
      var (p, c) := (v.members[k], v.channels[id]);
      && (Sees(v, k, id) <==> p.rank in {Administrator, Owner} || !c.restricted || exists r :: r in c.roles && r in p.roles)
      && (Reacts(v, k, id) <==> Sees(v, k, id) && !p.muted)
      && (Writes(v, k, id) <==> Sees(v, k, id) && !p.muted && (p.rank in {Administrator, Owner} || !c.guarded || exists r :: r in c.writers && r in p.roles))
  {
  }

  /** And what they make there: one muted nothing; one who only reads, reactions. */
  lemma MakesIff(v: Space, k: Key, id: ID, kind: P.Kind)
    ensures Permissions.Makes(v, k, id, kind) <==>
      && !v.deleted && k in v.members && id in v.channels && !v.members[k].muted
      && var (p, c) := (v.members[k], v.channels[id]);
      && (p.rank in {Administrator, Owner} || !c.restricted || exists r :: r in c.roles && r in p.roles)
      && (kind == P.Kind.Reacted || p.rank in {Administrator, Owner} || !c.guarded || exists r :: r in c.writers && r in p.roles)
  {
    MayIff(v, k, id);
    hide Sees;
  }

  /** What a change of each kind is made of: a channel, a role, a member and a name, each if its kind is about one, and no other; and roles,
      at most 100, in order and each once, if it restricts a channel to some. */
  lemma FitsIff(c: Change, cleanName: string -> bool)
    ensures SpaceStore.Fits(c, cleanName) <==>
      match c.kind
      case RenameSpace | Introduce => c.channel == 0 && c.role == 0 && c.member == 0 && cleanName(c.name) && c.roles == []
      case CreateChannel | CreateVoiceChannel | RenameChannel => c.channel != 0 && c.role == 0 && c.member == 0 && cleanName(c.name) && c.roles == []
      case DeleteChannel | OpenChannel | OpenWriting => c.channel != 0 && c.role == 0 && c.member == 0 && c.name == "" && c.roles == []
      case RestrictChannel | RestrictWriting =>
        && c.channel != 0 && c.role == 0 && c.member == 0 && c.name == "" && |c.roles| <= 100 && 0 !in c.roles
        && forall i, j | 0 <= i < j < |c.roles| :: c.roles[i] < c.roles[j]
      case CreateRole | RenameRole => c.channel == 0 && c.role != 0 && c.member == 0 && cleanName(c.name) && c.roles == []
      case DeleteRole => c.channel == 0 && c.role != 0 && c.member == 0 && c.name == "" && c.roles == []
      case GiveRole | TakeRole => c.channel == 0 && c.role != 0 && c.member != 0 && c.name == "" && c.roles == []
      case AddMember | RemoveMember | MakeAdmin | UnmakeAdmin | TransferOwnership | MuteMember | UnmuteMember =>
        c.channel == 0 && c.role == 0 && c.member != 0 && c.name == "" && c.roles == []
      case Leave | DeleteSpace => c.channel == 0 && c.role == 0 && c.member == 0 && c.name == "" && c.roles == []
  {
  }

  // ---- Over a run ----

  function Found<T>(m: map<ID, T>, id: ID): Option<T> { if id in m then Some(m[id]) else None }

  /** A space that is deleted was deleted by the one who then was its owner, and whose alone it was. */
  lemma {:induction false} DeletedByItsOwner(g: Genesis, ops: seq<Operation>) returns (i: nat)
    requires Run(Begun(g), ops).deleted
    ensures i < |ops| && ops[i].change.kind == DeleteSpace
    ensures var (v, k) := (Run(Begun(g), ops[..i]), ops[i].author);
      !v.deleted && k in v.members && v.members[k].rank == Owner && forall j | j in v.members && j != k :: v.members[j].rank != Owner
  {
    var init := ops[..|ops| - 1];
    if Run(Begun(g), init).deleted {
      i := DeletedByItsOwner(g, init);
      assert ops[..i] == init[..i];
    } else {
      i := |ops| - 1;
      EveryRunIsSound(g, init);
      hide Run;
      DeletedBy(Run(Begun(g), init), ops[i]);
    }
  }

  lemma DeletedBy(v: Space, op: Operation)
    requires Sound(v) && !v.deleted && Applied(v, op).deleted
    ensures op.change.kind == DeleteSpace && op.author in v.members && v.members[op.author].rank == Owner
    ensures forall j | j in v.members && j != op.author :: v.members[j].rank != Owner
  {
    hide MembersAfter, ChannelsAfter, RolesAfter, GoneAfter;
    DoneIff(v, op);
    var owner :| OwnedBy(v, owner);
  }

  /** Whatever became of a channel, somebody who then administered the space made of it: made, renamed, restricted, opened or
      deleted it, or deleted a role. */
  lemma {:induction false} ChannelsWereChangedBy(v: Space, ops: seq<Operation>, id: ID) returns (i: nat)
    requires Found(v.channels, id) != Found(Run(v, ops).channels, id)
    ensures i < |ops| && (ops[i].change.channel == id || ops[i].change.kind == DeleteRole)
    ensures ops[i].change.kind in {CreateChannel, CreateVoiceChannel, RenameChannel, DeleteChannel, RestrictChannel, OpenChannel,
                                   RestrictWriting, OpenWriting, DeleteRole}
    ensures var (v, k) := (Run(v, ops[..i]), ops[i].author); !v.deleted && k in v.members && v.members[k].rank in {Administrator, Owner}
  {
    if ops != [] {
      var init := ops[..|ops| - 1];
      if Found(v.channels, id) != Found(Run(v, init).channels, id) {
        i := ChannelsWereChangedBy(v, init, id);
        assert ops[..i] == init[..i];
      } else {
        i := |ops| - 1;
        ChannelChangedBy(Run(v, init), ops[i], id);
      }
    }
  }

  lemma ChannelChangedBy(v: Space, op: Operation, id: ID)
    requires Found(v.channels, id) != Found(Applied(v, op).channels, id)
    ensures op.change.channel == id || op.change.kind == DeleteRole
    ensures op.change.kind in {CreateChannel, CreateVoiceChannel, RenameChannel, DeleteChannel, RestrictChannel, OpenChannel,
                               RestrictWriting, OpenWriting, DeleteRole}
    ensures !v.deleted && op.author in v.members && v.members[op.author].rank in {Administrator, Owner}
  {
    hide MembersAfter, RolesAfter, GoneAfter;
    DoneIff(v, op);
  }

  /** And a role: made, renamed or deleted it. */
  lemma {:induction false} RolesWereChangedBy(v: Space, ops: seq<Operation>, id: ID) returns (i: nat)
    requires Found(v.roles, id) != Found(Run(v, ops).roles, id)
    ensures i < |ops| && ops[i].change.role == id && ops[i].change.kind in {CreateRole, RenameRole, DeleteRole}
    ensures var (v, k) := (Run(v, ops[..i]), ops[i].author); !v.deleted && k in v.members && v.members[k].rank in {Administrator, Owner}
  {
    if ops != [] {
      var init := ops[..|ops| - 1];
      if Found(v.roles, id) != Found(Run(v, init).roles, id) {
        i := RolesWereChangedBy(v, init, id);
        assert ops[..i] == init[..i];
      } else {
        i := |ops| - 1;
        DoneIff(Run(v, init), ops[i]);
      }
    }
  }

  /** And the space's name. */
  lemma {:induction false} WasRenamedBy(v: Space, ops: seq<Operation>) returns (i: nat)
    requires v.name != Run(v, ops).name
    ensures i < |ops| && ops[i].change.kind == RenameSpace && ops[i].change.name == Run(v, ops).name
    ensures var (v, k) := (Run(v, ops[..i]), ops[i].author); !v.deleted && k in v.members && v.members[k].rank in {Administrator, Owner}
  {
    if ops != [] {
      var init := ops[..|ops| - 1];
      if Run(v, init).name == Run(v, ops).name {
        i := WasRenamedBy(v, init);
        assert ops[..i] == init[..i];
      } else {
        i := |ops| - 1;
        DoneIff(Run(v, init), ops[i]);
      }
    }
  }
}
