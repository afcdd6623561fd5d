/** The signed operations a space is made of (internal/spaces/operation.go, genesis.go).

`hash` stands for the SHA-256 of what was signed and its signature: what others name an operation by. That two
operations do not share one is stated where it is needed (`Collisionless` in ReplayOrder). */
module Operations {
  import opened Basics

  datatype Kind =
    | RenameSpace | CreateChannel | CreateVoiceChannel | RenameChannel | DeleteChannel
    | RestrictChannel | OpenChannel | RestrictWriting | OpenWriting
    | AddMember | RemoveMember | Leave
    | CreateRole | RenameRole | DeleteRole | GiveRole | TakeRole
    | MakeAdmin | UnmakeAdmin | TransferOwnership | DeleteSpace
    | Introduce | MuteMember | UnmuteMember

  /** What an operation does; the fields its kind does not use are empty, or zero. */
  datatype Change = Change(kind: Kind, channel: ID, role: ID, member: Key, name: string, roles: seq<ID>)

  datatype Operation = Operation(hash: Hash, space: ID, id: ID, author: Key, time: Time, parents: seq<Hash>, change: Change)

  /** The first, signed record of a space; `hash` is what names it as a parent. */
  datatype Genesis = Genesis(hash: Hash, space: ID, creator: Key, name: string, created: Time)
}
