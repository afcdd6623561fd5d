# Convia, modelled and proved in Dafny

Convia is a chat application without a server: each person's machine keeps what it knows, and machines exchange what
the others lack. What the application promises is therefore about every order in which things may arrive: that
everybody comes to the same state, that nothing is lost, and that what is no longer shown can be destroyed without
anybody's view changing. This project models the Go core that makes those promises, and proves them.

`dafny verify dfyconfig.toml` checks all of it.

## What is modelled

Where the source changes tables or objects in place, the model is a class, or a method with loops, proved to leave what
a function of the old state says; what the source promises is proved of that function.

* **The replay order** (`ReplayOrder`, `ReplayQueue`). A space is the signed operations its members made, each naming the
  ones before it. `IsOrder` says what the one order of them is, with no algorithm: always the least operation, by clock
  and identifier, all of whose parents came before. It is proved to be unique, to hold exactly what has its whole
  ancestry known, and to be stable: learning more never reorders. `Order` is the source's algorithm, with counters, child
  lists, a queue, and maps ranged over in any order, proved to compute it.
* **State and authority** (`Operations`, `Authority`, `Ranks`, `Permissions`, `SpaceState`). The 24 kinds of change, what refuses
  each, and what each leaves; the class `State` is proved to replay them in place. Every run keeps one owner, at most 50
  members, and no role that does not exist; what is deleted never returns; and each change has just the effect it should
  on who sees, writes and reacts where. `Ranks` says what each rank may do, and who did what was done over a run, of what
  the state holds alone.
* **Epochs and the store of operations** (`Epochs`, `SpaceStore`). Which changes begin an epoch, that the table of them is
  exactly right, and that within an epoch nobody loses access; that the operation a member makes is judged by just the
  state it was made in; and that two members who lack nothing of each other's are in the same state.
* **What shows, and what is wiped** (`Reactions`, `Conversation`, `ConversationFold`, `Showing`, `Posts`, `PostsFold`,
  `ChannelShowing`). The views of
  a conversation and of a channel are specified entry by entry, without passes or indexes; the folds are proved to
  compute them; and it is proved exactly when compaction changes nothing of them, whichever of the texts it may wipe are
  wiped, and whenever; in a channel, also exactly when it does not though others moderate by then. `Showing` and
  `ChannelShowing` say what shows, in what order, who can change it, and what is kept, of the entries alone.
* **Delivery** (`Mailbox`, `Wire`, `Delivery`, `DeliverySafety`, `MessageStore`). Two peers over a network that loses,
  repeats and reorders, with sequence numbers, the outbox, acknowledgements, statements of what is held, compaction and
  messages hidden on one machine. In every run nothing written is lost, nothing stored is short of its text, and peers
  that hold the same show the same.
* **Channels among members** (`ChannelStore`, `ChannelGossip`, `ChannelSplits`, `ChannelSync`, `SignedEntries`). Any number of members,
  passing on entries that may have lost their text, each taking, compacting and showing them as the state of the space it
  knows then has it; exactly when two that hold the same show the same, and runs in which they do not; what a member says it
  holds, what it is supplied, and exactly when two that supply each other come to have the same; and why nobody who passes
  an entry on can change it.
* **Bytes** (`Canonical`, `Checksum`, `Bech32m`, `Regrouping`, `Invitations`, `Published`). Injective transcripts; the checksum of BIP
  350, by its linearity over the bits, so that no burst within six characters goes unnoticed; the regrouping of bits in a
  64-bit word that wraps around; and invitations that come back as they were given; all of them byte for byte what is published.
* **Connections** (`Peers`, `OnDemand`, `Wanting`, `Accepting`, `PeersManager`, `PeersApart`, `Glare`, `GlareRefined`). The manager's events, in any
  order; what a ready connection was proven over; that it connects only on demand, and never polls who is away; that what
  it wants is what it said, and that it answers only whom it accepts; that what happens with one peer leaves the others be; and two peers that connect at once, under every interleaving: `Glare` keeps
  only the ends and the signals, and `GlareRefined` proves that every run of two whole managers, handshake and all, is one
  of its runs, and that both end with one connection proven.
* **The rendezvous service** (`Rendezvous`, `RendezvousService`). Who subscribes to and announces what, in two indexes,
  and that whoever must be told was told.
* **Pictures and files** (`Images`, `ImageCleaners`, `Records`, `SealedPieces`, `FileTransfer`). Cleaning four formats is a
  projection, that leaves no record, and all else; sealed pieces at their offsets read back as the file; and a file marked whole is the one described.
* `Basics` and `Sorting` are shared by them.

## What is given

Hashes, keys and identifiers are the numbers their bytes spell. Cryptography is functions with laws: a key's signatures
verify, what is sealed opens under its owner and is 40 bytes longer, and digests are injective where a lemma says so. That no
two operations share a hash, or both clock and identifier, is a hypothesis where it is used (`Collisionless`,
`DistinctKeys`): the source leaves the order of operations that share both unspecified. Random sessions, identifiers and hashes of
what is made are parameters, that nobody has yet. Text that may be a message, an emoji, a name, or UTF-8, is a predicate. The
moment of each event is a parameter. Each queued closure, locked section or transaction of the source is one step.

## What a reader of the code might not expect

These are results: each names the lemma that shows it, with the input, or says exactly when.

* A conversation's fold ignores an edit of a file (internal/messages/entries.go:148-151), but compaction counts it
  (internal/messages/store.go:235-236) and wipes the file's name, so that the file shows as deleted. A peer of this version makes no
  such entry (`Targets` refuses it), but accepts one (`Mailbox.LostFileIsTaken`).
  `Conversation.CompactionShowsNothingIff` says exactly when it happens.
* What its author deletes, or edits, is to be wiped on both peers
  (docs/adr/0034-a-message-is-edited-and-deleted-by-its-author.md). But receiving compacts only for an edit or a deletion
  (internal/messages/store.go:355-357): a message that arrives after its own deletion shows as deleted, and its text is kept,
  until something else compacts. `Showing.ReceivingKeepsGoneIff` says exactly when, and `Showing.LateTextIsKept` is a run of two
  honest peers; in a channel, `ChannelShowing.AcceptingKeepsGoneIff` and `ChannelShowing.LateTextIsKept`.
* A channel's fold lets an edit after a deletion bring the message back (internal/spaces/channel.go:69), and compaction then
  wipes that edit's text, although the comment above it says a wiped edit is followed by what superseded it.
  `Posts.CompactionShowsNothingIff` says exactly when. It happens when neither the one who deletes nor the one who edits knows
  of the other (`ChannelStore.BothAreTaken`), and also when everything is known: an entry's moment is taken from its author's own
  entries (internal/spaces/sync.go:95-103), so a moderator whose clock is behind deletes a message before an edit of it
  they hold, and both its text and its deletion are lost (`ChannelStore.LateDeletionIsLost`). `ChannelStore.WritingRevivesIff` says
  of every entry that may be written whether it does.
* A moderator's deletion is to count as the space stands when it is read (docs/protocol/spaces.md:67), and who moderates whom is
  read anew whenever a channel is compacted, or shown (internal/spaces/channel.go:62, 202). But a text wiped is gone for good: a deletion by a moderator who is then made a plain member counts for those who compacted before they learned
  of it, and not for others, who all the same take it, and the two never show the same (`ChannelSplits.DemotionSplits`).
  `Posts.CompactionShowsNothingLaterIff` says exactly when it matters, and `ChannelGossip.HoldersAgree` when members agree for all that.
* A message wiped shows as deleted to a member who holds it without the edit it was wiped for (internal/spaces/channel.go:50), until
  they are passed it: `ChannelSplits.EarlyCopySplits`; and `ChannelGossip.SameHoldersAgreeIff` says exactly when members agree.
* Whoever passes an entry on is refused if its author makes no such entries now (internal/spaces/sync.go:122-131): they left,
  were removed or muted, or lost a role. But it is supplied all the same (internal/spaces/sync.go:237-266), and again every
  time, and a new member, who is to be given every channel's history they may read, never has what such authors wrote
  (`ChannelSync.TheGoneAreNotHeard`, `ChannelSync.RefusedIsDueStill`). `ChannelSync.ExchangeSettlesIff` says exactly when two
  members who supply each other come to have the same.
* What a member writes in a channel is meant to come after every entry of theirs there (internal/spaces/sync.go:81), but its
  moment is taken from the latest millisecond of those alone, not its counter (internal/spaces/sync.go:95-103): a third entry in one
  millisecond, or a second one while the clock is set back, has the moment of the one before it, and the identifiers, which are
  random, decide between them. `ChannelStore.WrittenComesAfterIff` says exactly when it comes after.
* A channel and a role share what is gone (internal/spaces/state.go:345, 399): an identifier deleted as one is never made
  as the other (`Authority.GoneStaysGone`).
* An invitation's name may be 128 bytes when it is encoded, but any length up to 255 is decoded
  (internal/invitation/invitation.go:91-107): `Invitations.LongNamesAreRead`.
* A parked peer that then connects by itself, and is lost again, is still parked (internal/peers/peers.go:589-604, 788-791):
  it is wanted, has no connection, and waits for the service to announce it, although both are online
  (`OnDemand.LostAgainStaysParked`).
* Two peers that connect at once end on one session only if the service delivers each one's signals in order:
  `Glare.OutOfOrderSplits` is the run that shows why.

## Model

| member | source | states |
|---|---|---|
| ReplayOrder.LearningNeverReorders | internal/spaces/state.go:135-169 | Of two sets of operations, one within the other, the order of the larger, restricted to what the smaller ordered, is the order of the smaller: learning more never reorders, and never takes out, what was ordered (no two operations sharing clock and identifier, or hash). |
| ReplayOrder.OrderIsUnique | internal/spaces/state.go:135-169 | A set has one order: whatever order the maps are ranged over in, members holding the same operations order them alike. |
| ReplayOrder.OrderedIffAncestryKnown | internal/spaces/state.go:100-103 | An operation is ordered if and only if every generation of its ancestry, down to the genesis, is known; all else waits. |
| ReplayOrder.OrderIsCausal | internal/spaces/state.go:100-103 | An order holds each operation once, only operations of the set, and each after every operation it names. |
| ReplayOrder.EarliestReadyFirst | internal/spaces/state.go:117-125 | In every order, of two operations, where every parent of the later but the genesis comes before the earlier: the earlier is of the lower millisecond; or of the same and the lower counter; or of both the same, and its identifier is not the higher. |
| ReplayOrder.SettledExchangeAgrees | internal/spaces/state.go:135-169 | When neither of two members ordered anything the other does not hold, their orders are equal, whatever else each holds that waits. |
| ReplayOrder.OrdersOwnOrdered | internal/spaces/state.go:163-168 | What waits has no part in the order: the ordered operations alone have the same order. |
| ReplayQueue.Order | internal/spaces/state.go:135-169 | From any sequence of operations, with duplicates, and any order of ranging over the maps: the loops with counters, child lists and priority queue yield the order, in which of any two that could both come, the one of the lower millisecond, counter, then identifier does; and exactly the rest waits, by ascending hash. |
| ReplayQueue.Link | internal/spaces/state.go:140-153 | The first loop leaves each operation with the count of the parents it names other than the genesis, each parent with its children as often as they name it, and queues exactly those with none to wait for. |
| ReplayQueue.LinkParents | internal/spaces/state.go:144-149 | The loop over one operation's parents counts each of them, and lists the operation as a child of each, as often as it is named. |
| ReplayQueue.PopLeast | internal/spaces/state.go:117-133 | What the heap gives is an operation of the queue than which no other has a lower millisecond, or the same and a lower counter, or both the same and a lower identifier; exactly the others are left. |
| ReplayQueue.Drain | internal/spaces/state.go:154-162 | The second loop, begun with the free operations queued, applies all of the set that is ever ready, each time the least, and leaves counters that are zero for exactly what it applied. |
| ReplayQueue.ApplyLeast | internal/spaces/state.go:155-161 | One turn of it takes the least ready operation, and leaves counters and a queue right for one operation more applied. |
| ReplayQueue.Release | internal/spaces/state.go:157-161 | The inner loop frees exactly the operations for which the one applied was the last missing parent, each once, even if they name it twice. |
| ReplayQueue.Waiting | internal/spaces/state.go:163-168 | What is listed as waiting is exactly what still misses a parent, in ascending order of hash. |
| ReplayQueue.FreeIsReady | internal/spaces/state.go:140-162 | Having a count of zero missing parents is having every parent applied. |
| SpaceState.State.constructor | internal/spaces/state.go:103-115 | Replay of any sequence of operations leaves the state that applying them one by one in the replay order leaves, the outcome of each in that order, and the rest waiting. |
| SpaceState.State.ApplyAll | internal/spaces/state.go:109-112 | Applying a sequence in place leaves the run of it, and for each operation why it was refused, if it was, by the state before it. |
| SpaceState.State.Apply | internal/spaces/state.go:323-339 | Applying an operation in place refuses it for the first reason there is, and leaves the whole state as it was then; otherwise it leaves the change made. `Ranks.DoneIff` and `Ranks.RefusedFor` say which and why, rank by rank. |
| SpaceState.State.Make | internal/spaces/state.go:341-457 | The switch on the 24 kinds: what each refuses, and the whole state it leaves. |
| SpaceState.State.MakeInChannel | internal/spaces/state.go:349-376 | The kinds about a channel: an unknown channel, or a role that does not exist, refuses all; otherwise just that channel changes. |
| SpaceState.State.MakeToRole | internal/spaces/state.go:398-419 | The kinds about a role: a deleted one is taken from every member and every channel, and is gone. |
| SpaceState.State.MakeToMember | internal/spaces/state.go:385-455 | The kinds about another member: who may remove, promote, demote, mute or make whom the owner, and what it leaves. |
| SpaceState.State.WithoutFromMembers | internal/spaces/state.go:412-415 | Ranging over the members in any order takes a deleted role from each, and changes nothing else. |
| SpaceState.State.WithoutFromChannels | internal/spaces/state.go:416-419 | And from each channel's readers and writers. |
| SpaceState.State.Heads | internal/spaces/state.go:172-189 | The heads are exactly the applied operations no applied one names, or the genesis if there are none, ascending, each once. |
| Authority.EveryRunIsSound | internal/spaces/state.go:103-115 | After any sequence of operations there is exactly one owner, there are at most 50 members, nobody is without a rank, and every role held by a member or named by a channel exists. |
| Authority.ChangedKeepsSound | internal/spaces/state.go:323-457 | Each applied change keeps that. |
| Authority.OnlyTakenOut | internal/spaces/state.go:385-397 | A member is out after an operation if and only if it was applied and they left, or one of strictly higher rank, administering the space, removed them. |
| Authority.LostMembersWereTakenOut | internal/spaces/state.go:385-397 | Over any run, whoever was a member and is not one left, or was removed by one then of strictly higher rank. |
| Authority.OnlyHigherMutes | internal/spaces/state.go:447-454 | Only one of strictly higher rank, administering the space, mutes a member or lets them speak again. |
| Authority.OnlyOwnerRanks | internal/spaces/state.go:429-442 | Only the owner changes anybody's rank, and whoever makes another the owner becomes an administrator. |
| Authority.OnlyAddedJoin | internal/spaces/state.go:377-384 | Nobody comes in but by being added, by one administering the space, and then as a plain member with no role. |
| Authority.DeletionIsFinal | internal/spaces/state.go:324-326 | Once a space is deleted, any run leaves it as it is, and refuses every operation for that. |
| Authority.GoneStaysGone | internal/spaces/state.go:344-402 | An identifier that is gone stays so over any run, and no channel or role has it again; channels and roles share what is gone. |
| Authority.LostIsGone | internal/spaces/state.go:356-358 | A channel or a role lost over a run is gone. |
| Authority.DeletedNeverReturns | internal/spaces/state.go:344-412 | What a run lost, no continuation of it brings back. |
| Authority.StepGone | internal/spaces/state.go:344-419 | One operation makes nothing gone come back, and nothing disappear without being gone. |
| Authority.RunSplits | internal/spaces/state.go:109-112 | Running one sequence and then another is running both. |
| Ranks.DoneIff | internal/spaces/state.go:309-457 | Exactly what is done, kind by kind: the owner alone deletes the space, makes and unmakes administrators and hands it over; the owner and administrators do all else, to those below them; a member introduces themselves, and leaves unless they are the owner; and what is made is new, what is changed is there, and a 51st member is not added. |
| Ranks.RefusedFor | internal/spaces/state.go:323-457 | And exactly why not: the space is deleted or another; the author is nobody there, or lacks the rank, whatever else is wrong; what would be made was made before; what would be changed is not there; or the space is full. |
| Ranks.ModeratesIff | internal/spaces/state.go:301-304 | The owner moderates everybody else, an administrator whoever is neither the owner nor an administrator; both, those who are out; and nobody anybody once the space is deleted. |
| Ranks.MayIff | internal/spaces/state.go:244-292 | Exactly who sees a channel, reacts in it and writes in it: by rank, by the roles it is restricted to, and by being muted. |
| Ranks.MakesIff | internal/spaces/state.go:293-299 | And who makes entries of each kind there. |
| Ranks.DeletedByItsOwner | internal/spaces/state.go:440-441 | Over any run, a space that is deleted was deleted by the one member who then was its owner. |
| Ranks.ChannelsWereChangedBy | internal/spaces/state.go:341-376 | Over any run, if anything of a channel is not as it was, there is an operation about it, or one that deleted a role, by a member who then was the owner or an administrator. |
| Ranks.RolesWereChangedBy | internal/spaces/state.go:398-419 | And so of a role, and an operation that made, renamed or deleted it. |
| Ranks.WasRenamedBy | internal/spaces/state.go:342-343 | And so of the space's name, which is the one such an operation gave it. |
| Ranks.FitsIff | internal/spaces/operation.go:63-88 | The fields a change of each kind holds, and that it holds no others; of roles at most 100, in order and each once. |
| Permissions.WhoeverSeesWasShown | internal/spaces/state.go:103-115 | Over any run, whoever comes to see a channel was shown it by one operation of it, and has seen it ever since. |
| Permissions.ShownIff | internal/spaces/state.go:244-256 | Whoever does not see a channel sees it after an operation if and only if, applied, it makes or opens the channel, restricts it to a role of theirs, adds them where it is open, gives them a role it is restricted to, or has them administer the space: each refusal, and every one of the 24 kinds, considered. |
| Permissions.WhoeverSeesNoMoreWasHidden | internal/spaces/state.go:103-115 | Over any run, whoever ceases to see a channel had it hidden from them by one operation of it, and has not seen it since. |
| Permissions.HiddenIff | internal/spaces/state.go:244-256 | Whoever sees a channel does not after an operation if and only if, applied, it deletes the channel or the space, restricts the channel to roles they have none of, takes them out, or takes the one role, or the rank, they see it by. |
| Permissions.SeenSince | internal/spaces/state.go:244-256 | Over any run, from an operation that makes, opens or restricts a channel until another says who sees it: exactly all members, or exactly those who then administer the space or hold one of the roles it named, see it, whatever became of members and roles in between. |
| Permissions.WrittenSince | internal/spaces/state.go:265-282 | And so of who, of those who react in it, write in it, from an operation that says so until another does. |
| Permissions.SilentSince | internal/spaces/state.go:289-299 | Over any run, one muted makes nothing in any channel while they stay a member, until they are let speak; and one let speak reacts wherever they see, until muted. |
| Permissions.NamedSince | internal/spaces/state.go:445-446 | Over any run, a member has the name they last introduced themselves by. |
| Permissions.ChannelNamedSince | internal/spaces/state.go:344-358 | And a channel the name it was last given. |
| Permissions.MakersReactAndSee | internal/spaces/state.go:244-305 | Whoever makes entries of any kind in a channel reacts in it and sees it, and nobody outside the space, or once it is deleted, does. |
| Permissions.ModerationStays | internal/spaces/state.go:300-321 | Who moderates whom changes only as somebody comes to administer the space, or ceases to, or the space is deleted. |
| Permissions.MembersChangeOnlySo | internal/spaces/state.go:323-457 | An operation changes nothing of a member it is neither by nor about, but that a deleted role is theirs no more; and no name but its author's, by their introducing themselves. |
| Permissions.ChannelsChangeOnlySo | internal/spaces/state.go:323-457 | Nor anything of a channel or a role it is not about, but for a deleted role; and a channel, and the space, has the name it was last given. |
| Epochs.Epoch | internal/spaces/epoch.go:32-39 | The scan from the end finds the latest applied operation of a revoking kind, or the genesis. |
| Epochs.EpochIsLatest | internal/spaces/epoch.go:23-39 | The epoch is named by the last operation not refused that removed a member, took or deleted a role, restricted a channel, unmade an administrator or deleted the space, or in which somebody left. |
| Epochs.EpochIsGenesis | internal/spaces/epoch.go:23-39 | Or, if there is none, by the genesis. |
| Epochs.OthersRevokeNothing | internal/spaces/epoch.go:24-26 | An operation of a kind not in the table takes nobody's membership, nor anybody's sight of a channel that is still there, in any state. |
| Epochs.RevokingRevokes | internal/spaces/epoch.go:24-26 | Every kind in the table does so in some sound state. |
| Epochs.TableIsExact | internal/spaces/epoch.go:24-26 | So a kind is in the table if and only if, in some space that a run leaves, it can. |
| Epochs.ExampleIsReached | internal/spaces/state.go:103-115 | The space those are shown in is what a run of eight operations, from the space's beginning, leaves. |
| Epochs.DeletingRolesShowsNothing | internal/spaces/state.go:410-419 | Deleting a role never shows anybody a channel they did not see. |
| Epochs.WithinAnEpochNobodyLoses | internal/spaces/epoch.go:28-39 | Over any run that ends in the epoch it began in, whoever was a member is one, and sees every channel they saw that is still there. |
| SpaceStore.FreshComesLast | internal/spaces/store.go:157-174 | An operation made after the heads, which nobody names yet, is ordered last whatever its clock and identifier, and all else stays as it was: so the last outcome is its own. |
| SpaceStore.FreshIsNext | internal/spaces/store.go:157-174 | With all that was known applied, it is the only operation ready. |
| SpaceStore.Store.Operate | internal/spaces/store.go:141-181 | Making a change: the operation is later than all that is known and ordered after it; it is made if and only if it is well formed and the state as it stands does not refuse it, and is otherwise not kept, with the reason; and a revoking one names the epoch, whose secret its author makes if they still administer the space. |
| SpaceStore.Store.Judge | internal/spaces/store.go:165-174 | The refusal read from the last outcome of a replay of everything is that of the new operation in the state just read. |
| SpaceStore.Store.Prepare | internal/spaces/store.go:152-165 | The operation to be made names exactly the heads, and its clock is after the genesis's and that of every operation applied. |
| SpaceStore.Store.State | internal/spaces/store.go:93-105 | The state read is the run of the order of all the operations kept. |
| SpaceStore.Store.Keep | internal/spaces/store.go:197-206 | An operation is kept once, and said to be new if and only if its hash was not kept. |
| SpaceStore.Latest | internal/spaces/store.go:152-157 | The latest moment of a history is one of its moments, or the genesis's, and none is later. |
| Basics.Tick | internal/hlc/hlc.go:33-43 | What the clock gives next is not before the physical time, nor before what it gave last: if in the same millisecond, of a higher counter; and no later than that if the physical time is behind. |
| SpaceStore.Store.Current | internal/spaces/epoch.go:112-127 | The secret settled on is, of those of the epoch by a member who is the owner or an administrator, the one whose digest is lowest, or none if there are none. |
| SpaceStore.Store.Rotate | internal/spaces/epoch.go:139-151 | Whoever may makes a secret where none counts, so that one does; otherwise nothing is made; and the one returned is the one settled on. |
| SpaceStore.SettledAlike | internal/spaces/epoch.go:41-60 | Members in one state holding the same secrets settle on the same one; whoever holds more settles on it or on a lower one that the other lacks. |
| SpaceStore.Store.Lacking | internal/spaces/sync.go:60-79 | A member is given exactly the applied operations they do not hold, in the replay order; anybody else nothing. |
| SpaceStore.Lacked | internal/spaces/sync.go:60-79 | Nothing not held is left out. |
| SpaceStore.SettledMembersAgree | internal/spaces/sync.go:58-79 | When neither of two members lacks anything the other applied, their states and their histories, with every refusal, are equal. |
| Sorting.Sort | internal/spaces/operation.go:141-151 | Sorting and compacting leaves the same elements, ascending, each once. |
| Sorting.SameSetSameOrder | internal/spaces/sync.go:196-209 | Two sequences in the same strict order with the same members are equal. |
| Conversation.WipingNeverShows | internal/messages/store.go:210-267 | With any of the texts compaction may wipe, or a message hidden here, wiped, whichever and however many, the whole view is what it was: messages, edits, deletions, reactions and quotes (no file of its author's edited). |
| Conversation.CompactionShowsNothingIff | internal/messages/store.go:210-267 | Compacting whole entries changes nothing shown if and only if no file that shows and was not deleted was edited by its author. |
| Conversation.EditedFileIsLost | internal/messages/entries.go:150-152 | Such a file shows before, and shows as deleted after. |
| Conversation.FileCanBeLost | internal/messages/store.go:228-239 | Two entries for which it happens: what shows before is not what shows after. |
| Mailbox.LostFileIsTaken | internal/messages/store.go:323-359 | And the store takes both from a contact, so that what then shows is not what was sent. |
| Showing.ViewInOrder | internal/messages/store.go:378-391 | What a conversation shows comes by the millisecond it was written, then the counter, then the identifier. |
| Showing.RunsKeepOrder | internal/messages/store.go:378-381 | In every run of two peers both logs are in that order. |
| Showing.ShowsJust | internal/messages/entries.go:121-137 | The messages and files not hidden on this machine show, and nothing else does. |
| Showing.DeletedShows | internal/messages/entries.go:152-154 | A message its own author deleted shows as deleted, with no text, and no file. |
| Showing.LastEditShows | internal/messages/entries.go:148-151 | A text its author did not delete shows as what the last of its author's edits that keep their text says: the last by the clock, and of equal clocks by the identifier. |
| Showing.UntouchedShows | internal/messages/entries.go:162-172 | And as it was written, if its author neither deleted nor edited it, whatever others made of it; a wiped one as deleted. |
| Showing.ReactionShowsIff | internal/messages/entries.go:155-186 | A message not deleted shows an emoji as one's own if and only if the last of one's reactions to it with that emoji put it on. |
| Showing.QuoteShows | internal/messages/entries.go:188-204 | An answer shows the first 140 characters of what the message it answers shows, whose it is, and whether it is deleted. |
| Showing.MissingShows | internal/messages/entries.go:188-204 | Or that the message it answers is missing. |
| Showing.OthersShowAlike | internal/messages/entries.go:138-161 | Whatever entry one writes, wherever in the log it comes, every message of the others shows in the same order the same text, file, and marks of being edited or deleted. |
| Showing.OthersSaidAlike | internal/messages/entries.go:145-154 | Said of one message: no entry of another changes its text, or edits or deletes it. |
| Showing.OthersGoneAlike | internal/messages/store.go:226-239 | Nor does any decide whether its text is gone, and is wiped. |
| Showing.WipesJust | internal/messages/store.go:215-267 | Compaction leaves each entry as it was, or without its text: what waits is as it was; of the rest it wipes exactly the messages and files their author edited or deleted, and the edits of a message its author deleted, or edited later. |
| Showing.CompactionKeepsNone | internal/messages/store.go:210-267 | After it, no text its author edited or deleted is kept but what waits. |
| Showing.WritingKeepsNone | internal/messages/store.go:183-183 | So neither after writing, nor after hearing what the contact holds. |
| Showing.ReceivingKeepsGoneIff | internal/messages/store.go:352-358 | Receiving an entry keeps such a text, where none was kept, if and only if it is a message, whole, whose edit or deletion by its author is there already. |
| Showing.LateTextIsKept | internal/messages/store.go:352-358 | A run of two honest peers in which that happens: the message shows as deleted, and its text is kept. |
| Showing.WritesIff | internal/messages/store.go:186-208 | Exactly what one may write: what is proper, about nothing or about a message that shows and was not deleted; edits of one's own texts, and deletions of one's own messages. |
| Showing.TakesIff | internal/messages/store.go:323-351 | Exactly what is taken of a contact, and what is known as held: by what the protocol allows, the number and the identifier. |
| Showing.ForgottenShowsNoMore | internal/messages/store.go:274-299 | A message deleted on this machine shows no more and keeps no text here; every other entry is as it was. |
| Showing.WaitsIff | internal/messages/store.go:480-500 | Exactly what waits no more once acknowledged, or once the contact holds up to a number; and what is sent of a contact's missing entries. |
| Conversation.GoneStaysGone | internal/messages/store.go:240-251 | What is gone stays gone whatever arrives, wherever it goes in the order: so it does not matter when, or how often, a conversation is compacted. |
| Conversation.GoneAlike | internal/messages/store.go:240-251 | Whether an entry is gone does not depend on what was wiped or hidden. |
| ConversationFold.Fold | internal/messages/entries.go:121-205 | The five passes of the fold, over maps ranged in any order, yield exactly the view, of which `Showing` says what it shows, of the entries alone. |
| ConversationFold.Collect | internal/messages/entries.go:127-134 | The first pass finds the messages that show, in order, and where each is. |
| ConversationFold.Take | internal/messages/entries.go:138-161 | The second pass takes an entry: what others than its author wrote it leaves as it was; its author's edits and deletions, and of each person and emoji the latest reaction, it takes. |
| ConversationFold.Blank | internal/messages/entries.go:163-167 | The third leaves nothing of a deleted message, nor of one wiped with no edit known. |
| ConversationFold.PutReactions | internal/messages/entries.go:169-186 | The fourth counts the reactions of each message that is not deleted. |
| ConversationFold.PutQuotes | internal/messages/entries.go:188-203 | The last quotes what each message answers as it shows, however far the loop is. |
| Reactions.Note | internal/messages/entries.go:154-159 | Noting a reaction keeps, of each person, emoji and message, what the latest says, and the emojis in the order they first came. |
| Reactions.Count | internal/messages/entries.go:169-186 | The reactions counted, ranging over the notes in any order, are the emojis in that order, each with how many people's latest puts it there and whether this person is one. |
| Reactions.CountOne | internal/messages/entries.go:174-185 | The count of one emoji is the number of those people, none counted twice. |
| Reactions.SameTally | internal/messages/entries.go:142-145 | Reactions to what does not show leave no mark on what does. |
| Reactions.Unreacted | internal/messages/entries.go:169-173 | A message the notes say nothing of has no reaction to show. |
| Reactions.TallyShows | internal/messages/entries.go:155-186 | What shows of a message's reactions is each emoji that somebody's last reaction with it put on, with how many such people there are, and whether one is me. |
| Reactions.LatestDecides | internal/messages/entries.go:155-160 | Of one's reactions with an emoji to a message, the last alone says whether it shows as theirs, whatever comes before and whatever else after. |
| Reactions.TallyInOrder | internal/messages/entries.go:173-186 | They show in the order the message was first given each. |
| MessageStore.Store.Compact | internal/messages/store.go:215-267 | Compacting in place wipes exactly what is gone, but for what is still in the outbox. |
| MessageStore.Index | internal/messages/store.go:220-225 | Every entry is found by its identifier. |
| MessageStore.Gather | internal/messages/store.go:226-239 | The loop gathers, of each message and file, exactly the edits of its own author, in order, and whether its own author deleted it. |
| MessageStore.CollectGone | internal/messages/store.go:240-251 | Ranging over the messages in any order collects exactly what is gone: a message deleted or edited since, its edits if deleted, and all but its latest edit otherwise. |
| MessageStore.WipeAll | internal/messages/store.go:252-266 | What is collected, and neither wiped nor waiting, is wiped; nothing else changes. |
| DeliverySafety.NothingIsLost | internal/messages/store.go:456-500 | In every run of two peers, over a network that loses, repeats and reorders, every entry written is in its author's outbox, whole, or stored by the other; and its author's entries are numbered 1, 2, 3 and on, each number once. |
| DeliverySafety.EveryRunKeeps | internal/messages/service.go:177-262 | The invariant of every run: what is stored is what was written, wiped only where it is gone or hidden; what was sent is as written unless the other stored it; no acknowledgement, nor statement of what is held, says more than is so. |
| DeliverySafety.FirstCopyIsWhole | internal/messages/store.go:323-359 | In any run what arrives is never refused and always acknowledged; when it is stored, it is stored whole, even if its author wiped their own since. |
| DeliverySafety.HoldingCatchesUp | internal/messages/service.go:189-202 | Told how far the other holds, a peer has all the other lacks on its way to it, as written. |
| DeliverySafety.ArrivalsComplete | internal/messages/service.go:210-243 | Once what was on its way has arrived, in any order and among anything else, the other holds it. |
| DeliverySafety.ShowsTheWhole | internal/messages/entries.go:121-205 | In any state of a run a peer shows what its entries would show whole, whatever either peer wiped, whenever. |
| DeliverySafety.PeersShowAlike | internal/messages/entries.go:115-121 | In any run, two peers that hold the same entries, none hidden, show the same, word for word, whatever the order of arrival and the times of compaction. |
| DeliverySafety.WriteKeeps | internal/messages/store.go:146-184 | Writing keeps the invariant: the new number is one more than the last, so there are neither gaps nor conflicts. |
| DeliverySafety.OnMessageKeeps | internal/messages/service.go:210-243 | Receiving keeps it, wiped copies of what is held included. |
| DeliverySafety.OnAckKeeps | internal/messages/store.go:481-488 | An acknowledgement drops from the outbox only what the other stored. |
| DeliverySafety.OnHoldingKeeps | internal/messages/store.go:491-500 | So does being told how far the other holds; and what is then sent is as written, or stored already. |
| DeliverySafety.ForgetKeeps | internal/messages/store.go:278-299 | Forgetting a message on this machine loses nothing of it to the other. |
| Delivery.CompactedKeeps | internal/messages/store.go:210-267 | Compaction of a log kept well leaves it so, with its identifiers, and what waits whole. |
| Delivery.PlacedKeeps | internal/messages/store.go:301-317 | So does storing an entry where its clock and identifier put it. |
| Delivery.ForgottenKeeps | internal/messages/store.go:278-299 | And so does hiding a message and wiping it. |
| MessageStore.Store.Add | internal/messages/store.go:146-184 | Writing in place refuses what may not be written, and then changes nothing; otherwise stores the entry with this peer's next number, queues it and compacts; and the rows come by millisecond, counter, then identifier. |
| MessageStore.Targets | internal/messages/store.go:190-208 | An entry is about a message that shows and is not deleted, only a text is edited, and only its author edits or deletes it; anything else is refused, for the right reason. |
| MessageStore.LastNumber | internal/messages/store.go:163-167 | The last number is one of the author's entries', or zero, and none is higher. |
| MessageStore.Store.Receive | internal/messages/store.go:323-359 | Receiving in place tells a new entry, one held, and one refused by the protocol or by a key of the tables, of other conversations' entries too, apart; only a new one is stored, as the contact's, and compacts if it edits or deletes; and the rows come by millisecond, counter, then identifier. |
| MessageStore.Store.RowsInOrder | internal/messages/store.go:378-381 | In every state the store's methods leave, the rows come so. |
| MessageStore.Store.NotWritten | internal/messages/store.go:147-165 | Why an entry may not be written, found in the tables. |
| MessageStore.HolderOf | internal/messages/store.go:336-345 | The entry that has a place in a sequence is found, if one has it. |
| MessageStore.Store.Holding | internal/messages/store.go:434-453 | What is held is said to be as far as every number up to it is held and the next is not. |
| MessageStore.HoldsSoFar | internal/messages/store.go:441-452 | The ordered numbers, read until the first gap, say just that. |
| MessageStore.Store.After | internal/messages/store.go:456-468 | What the contact misses is exactly this peer's entries after a number, ascending. |
| MessageStore.Store.Acknowledged | internal/messages/store.go:481-488 | Exactly what is acknowledged leaves the outbox, and what was kept for it alone is compacted. |
| MessageStore.Store.HeldUpTo | internal/messages/store.go:491-500 | Exactly this peer's entries up to a number leave the outbox, and then the same. |
| MessageStore.Store.Forget | internal/messages/store.go:278-299 | Only a message, and none still waiting, is hidden and wiped here. |
| Mailbox.PlacedInOrder | internal/messages/store.go:361-390 | An entry stored goes where its clock and identifier put it, and nothing else moves: what comes first is of the lower millisecond, or of the same and the lower counter, or of both the same and the lower identifier. |
| Wire.WireRoundTrips | internal/messages/service.go:365-435 | An entry is read as it was sent, but for its author, whom the connection says, and what is only this machine's. |
| Wire.WipedRoundTrips | internal/messages/service.go:365-435 | A wiped one too, but that a file's description is read as an empty one. |
| Wire.ReadingIsOfOneKind | internal/messages/service.go:389-435 | What is read has one kind, the one field that names it, and sent again reads the same. |
| Posts.WipingNeverShows | internal/spaces/channel.go:182-239 | With any of the texts compaction may wipe wiped, the view is what it was, if no deleted message was edited since. |
| Posts.CompactionShowsNothingIff | internal/spaces/channel.go:178-239 | Compacting a channel changes nothing it shows if and only if no message of it was deleted and then edited to some text. |
| Posts.CompactionShowsNothingLaterIff | internal/spaces/channel.go:62-70 | Compacted while some moderate, and seen when others do, a channel shows what it would have if and only if, of every message deleted as the first had it, the last thing done to it as the second have it is a deletion or an edit with no text, or nothing was done to it and its text was gone before. |
| Posts.WipingNeverShowsLater | internal/spaces/channel.go:182-239 | Then, with any of the texts wiped that compaction may wipe, the view is what it was. |
| Posts.DemotionIsLost | internal/spaces/channel.go:202-204 | A message and its deletion by a moderator since made a plain member: compacted before, it shows as deleted; compacted after, as it was said; and each compacts so again. |
| Posts.SameEntriesShowAlikeIff | internal/spaces/channel.go:40-122 | Two channels of the same entries, whatever was wiped of each, show the same if and only if of each message both say the same: it is deleted, or the text that shows of it was wiped in both or in neither, or is none. |
| Posts.RevivedIsLost | internal/spaces/channel.go:66-70 | Such a message shows its text before, and after shows as edited with no text. |
| Posts.DeletedCanBeRevived | internal/spaces/channel.go:63-75 | Three entries for which it happens, a moderator deleting while the author edits with a later clock: what shows before is not what shows after. |
| Posts.CompactionIsConfluent | internal/spaces/channel.go:182-239 | A channel some of whose gone texts were wiped is compacted to what the channel whole would be. |
| Posts.CompactionIsIdempotent | internal/spaces/channel.go:182-239 | Compacting twice is compacting once. |
| Posts.GoneAlike | internal/spaces/channel.go:210-227 | Whether an entry is gone does not depend on what was wiped. |
| PostsFold.Fold | internal/spaces/channel.go:40-122 | The passes of the fold, over maps ranged in any order, yield exactly the view. |
| PostsFold.Collect | internal/spaces/channel.go:46-53 | The first pass finds the messages, in order, and where each is; a wiped one begins as deleted. |
| PostsFold.Take | internal/spaces/channel.go:56-80 | The second takes an entry: only its author edits a message, which undeletes it; its author or a moderator of its author deletes it; reactions are noted. |
| PostsFold.Blank | internal/spaces/channel.go:81-85 | The third leaves nothing of a deleted message. |
| PostsFold.PutReactions | internal/spaces/channel.go:86-103 | The fourth counts the reactions of each message that is not deleted. |
| PostsFold.PutQuotes | internal/spaces/channel.go:104-120 | The last quotes what each text message answers as it shows. |
| ChannelStore.Compact | internal/spaces/channel.go:182-239 | Compacting in place wipes exactly what is gone. |
| ChannelStore.Gather | internal/spaces/channel.go:191-209 | The loop gathers of each text its author's edits, in order, and of each message whether it was rightly deleted. |
| ChannelStore.CollectGone | internal/spaces/channel.go:210-227 | Ranging over the edited and then the deleted messages, in any order, collects exactly what is gone. |
| ChannelStore.CollectEdited | internal/spaces/channel.go:212-220 | For an edited message: it, and all its edits if deleted, otherwise all but the last. |
| ChannelStore.WipeAll | internal/spaces/channel.go:229-238 | What is collected and not wiped is wiped; nothing else changes. |
| ChannelStore.Allows | internal/spaces/channel.go:155-176 | Reading the fold refuses an entry about no message, or one that shows as deleted but to answer it, an edit of a file, and an edit or deletion of what is not theirs; for the right reason. |
| ChannelStore.Find | internal/spaces/channel.go:163-166 | A message is found in what shows if and only if it is there, as it stands. |
| ChannelStore.WritingRevivesIff | internal/spaces/sync.go:82-116 | What a member writes, allowed, and placed by its moment wherever that is, brings a deleted message back if and only if it deletes the message before an edit held of it that has a text, or edits it after its deletion. |
| ChannelStore.WritingLosesIff | internal/spaces/sync.go:95-116 | The moment taken from the member's own entries, the compaction that follows writing changes what shows if and only if it does. |
| ChannelStore.OnlyLateDeletionsRevive | internal/spaces/channel.go:154-176 | Where deletions come last, that is if and only if it is a deletion, and the last edit held of its target has a text and a later moment. |
| ChannelStore.LateDeletionIsLost | internal/spaces/sync.go:95-103 | Two entries held, and a deletion by a moderator who knows both and whose clock is behind: it is allowed, the message comes back, and the compaction that follows leaves neither its text nor its deletion. |
| ChannelStore.BothAreTaken | internal/spaces/sync.go:122-141 | A deletion by a moderator and an edit by the author, neither knowing of the other: each was allowed, whoever is passed both takes both, and what they then show is not what was said. |
| ChannelStore.Store.Keep | internal/spaces/sync.go:143-165 | A message is kept in its place, unless one has its identifier, in any channel, or its number in its author's sequence: then nothing changes, and it is held if the two are the same but for a text lost. |
| ChannelStore.Store.Accept | internal/spaces/sync.go:122-141 | What a member passes on is taken if and only if its author makes such entries in the channel as the space's state then is; a new edit or deletion compacts. |
| ChannelStore.Store.Write | internal/spaces/sync.go:82-116 | What a member writes, if the space's state has them make such entries here and it is theirs to write, is numbered next after their last, given the next moment of their latest millisecond here, and kept; and the channel is compacted. Otherwise nothing changes, and it says why. |
| ChannelStore.LastWritten | internal/spaces/sync.go:95-101 | The last number and the latest millisecond of a member's entries, or zeros. |
| ChannelStore.WrittenComesAfterIff | internal/spaces/sync.go:81-103 | What is written comes after every entry of its author's there if and only if the clock moved on since the latest of them; or those of its millisecond were not counted, or counted once and of lower identifiers. |
| ChannelStore.WrittenCanComeBefore | internal/spaces/sync.go:95-103 | Three entries for which it does not: of two edits made while the clock stands or is set back, the first shows as the latest. |
| ChannelStore.Store.CompactEntries | internal/spaces/channel.go:182-239 | Compaction of the channel kept. |
| ChannelGossip.HoldersAgree | internal/spaces/sync.go:118-165 | In every run of any number of members, each taking, wiping and showing as its own state of the space then has it, and passed copies sent by anybody at any time before, wiped or not: any two that hold all that was written show the same, whoever moderates by then, and what all of it whole would show, provided that no message deleted, as those who moderated when texts were wiped had it, then counts as not deleted with a text to show; and if whoever moderated then does still, they compact to the same entries. |
| ChannelGossip.SameHoldersAgreeIff | internal/spaces/sync.go:118-165 | In every run, any two members that hold the same entries, all that was written or not, show the same if and only if of each message they say the same: the text that shows of it was wiped by both, or by neither, or is none. |
| ChannelGossip.SteadyLosesNothing | internal/spaces/channel.go:62-70 | If whoever moderated when texts were wiped does still, all that keeps members from agreeing is a message deleted and edited since. |
| ChannelGossip.WereAmong | internal/spaces/channel.go:182-186 | Nobody moderated when texts were wiped but whom the states of a run's moves have moderate. |
| ChannelSplits.DemotionSplits | internal/spaces/sync.go:122-141 | A run in which a moderator's deletion reaches one member before the moderator's demotion does, and another after: both hold all that was written, in one state of the space; one shows what was said, the other that it was deleted; and they compact it so. |
| ChannelSplits.EarlyCopySplits | internal/spaces/sync.go:242-266 | A run in which a member is passed what is left of a message edited, and not yet the edit: it shows as deleted, and to a member passed it before, holding the same, as it was said. |
| ChannelGossip.EveryRunKeeps | internal/spaces/sync.go:118-165 | In every run each member keeps copies of what was written, wiped only where gone among all that was written as somebody who moderated when texts were wiped has it, though the member may not know why. |
| ChannelGossip.PassedIsKept | internal/spaces/sync.go:122-165 | In every run what a member is passed never conflicts with what it keeps: it has it, or keeps it if and only if its author makes such entries in the channel as the member's state then is; otherwise nothing changes. |
| ChannelGossip.GoneIsAmong | internal/spaces/channel.go:210-227 | What compaction finds gone depends only on which entries are held, not on their texts. |
| ChannelShowing.ViewInOrder | internal/spaces/sync.go:196-209 | What a channel shows comes by millisecond, counter, then identifier. |
| ChannelShowing.RunsKeepOrder | internal/spaces/sync.go:196-209 | In every run every member keeps the entries so. |
| ChannelShowing.ShowsJust | internal/spaces/channel.go:40-55 | The messages and files show, and nothing else does. |
| ChannelShowing.LastDoneShows | internal/spaces/channel.go:56-72 | Of what its author, and those who moderate them, did to a message, the last alone says what shows: its text if it edits, nothing if it deletes. |
| ChannelShowing.UntouchedShows | internal/spaces/channel.go:40-55 | And as it was written, if none of them did anything to it. |
| ChannelShowing.ByModeratorIff | internal/spaces/channel.go:62-68 | A message is marked as deleted by a moderator if and only if somebody who moderates its author, and is not they, deleted it. |
| ChannelShowing.ReactionShowsIff | internal/spaces/channel.go:74-103 | A message not deleted shows an emoji as one's own if and only if the last of one's reactions to it with that emoji put it on. |
| ChannelShowing.QuoteShows | internal/spaces/channel.go:104-121 | An answer shows the first 140 characters of what the message it answers shows. |
| ChannelShowing.MissingShows | internal/spaces/channel.go:104-121 | Or that it is missing. |
| ChannelShowing.OthersStandAlike | internal/spaces/channel.go:56-72 | Whatever entry one writes who does not moderate another, wherever it comes, every message of that other stands as it did. |
| ChannelShowing.OthersGoneAlike | internal/spaces/channel.go:192-209 | Nor does it decide whether a text of that other's is gone, and is wiped. |
| ChannelShowing.WipesJust | internal/spaces/channel.go:182-239 | Compaction leaves each entry as it was, or without its text: it wipes exactly the messages and files that were edited by their author, or deleted by them or who moderates them, and the edits of one deleted, or edited later. |
| ChannelShowing.CompactionKeepsNone | internal/spaces/channel.go:177-181 | After it, no such text is kept. |
| ChannelShowing.AcceptingKeepsGoneIff | internal/spaces/sync.go:135-141 | Taking an entry keeps such a text, where none was kept, if and only if it is a message, whole, to which something was done already. |
| ChannelShowing.LateTextIsKept | internal/spaces/sync.go:135-141 | It happens when the deletion is passed first: the message shows as deleted, and its text is kept. |
| ChannelShowing.WritesIff | internal/spaces/channel.go:155-175 | Exactly what a member may write: edits of their own texts, deletions of their own messages and of those they moderate, and nothing but answers about what shows as deleted. |
| ChannelShowing.TakesIff | internal/spaces/sync.go:143-165 | An entry passed on is kept if and only if none has its identifier, nor its number of its author's. |
| ChannelGossip.MoreIsGone | internal/spaces/channel.go:178-181 | The more is held, the more is gone. |
| Posts.MoreModerateMoreGone | internal/spaces/channel.go:202-204 | And the more moderate. |
| ChannelGossip.WriteKeeps | internal/spaces/sync.go:82-116 | Writing keeps that. |
| ChannelGossip.PassKeeps | internal/spaces/sync.go:122-165 | And so does being passed any copy there ever was. |
| ChannelSync.Holding | internal/spaces/sync.go:212-235 | Reading the rows by channel, author and number says of every channel and author how far every number is held. |
| ChannelSync.Supply | internal/spaces/sync.go:242-266 | A peer is supplied exactly the messages of the channels they may read now that are past what they say they hold, each once, by channel, author and number, whatever order the channels are ranged over in. |
| ChannelSync.SupplyCompletes | internal/spaces/sync.go:122-165 | Of what the other has of a channel it sees, a peer supplied with it comes to have exactly what it had and what is by authors who make such entries now. |
| ChannelSync.ExchangeSettlesIff | internal/spaces/sync.go:122-266 | Once two members supplied each other, in either order or at once, they have the same of a channel both see if and only if every message of it that either lacked is by an author who makes such entries now. |
| ChannelSync.SettledSayAlike | internal/spaces/sync.go:212-235 | And then they say they hold it alike, of every author. |
| ChannelSync.RefusedIsDueStill | internal/spaces/sync.go:122-131 | A message supplied and refused for its author is due again after the exchange, whatever else was taken: it is supplied, and refused, every time. |
| ChannelSync.TheGoneAreNotHeard | internal/spaces/sync.go:237-266 | The input: the first message of one who is a member no more, had by one member and lacked by another; it is supplied, never taken, and the two never have the same. |
| ChannelSync.AcceptAll | internal/spaces/sync.go:122-165 | Taking what is supplied a message at a time leaves what was there and each that is by an author who makes such entries and has neither an identifier nor a place there is. |
| ChannelSync.NothingUnseenIsSupplied | internal/spaces/sync.go:248-252 | Nobody is supplied anything of a channel they do not see, and nobody outside the space anything. |
| ChannelSync.HeldIsNotSupplied | internal/spaces/sync.go:257-261 | What is held with no gap before it is not supplied again. |
| SignedEntries.EncodingRoundTrips | internal/spaces/entry.go:78-156 | An entry that may be made is read back as it was encoded. |
| SignedEntries.MadeVerifies | internal/spaces/message.go:46-83 | What is made of it verifies. |
| SignedEntries.WipedVerifies | internal/spaces/message.go:63-83 | And still does once wiped, signed by the same author over the same, as often as it is wiped; and it is the channel's wiped entry. |
| SignedEntries.SameSignedSameEntry | internal/spaces/sync.go:143-152 | Two messages that verify and are signed over the same are equal but for a text one of them lost: whoever passes one on can leave out its text, and change nothing. |
| SignedEntries.VerifiedWellFormed | internal/spaces/entry.go:44-75 | What verifies describes a file if and only if it is one, and has no text if it is wiped. |
| Canonical.EncodedInjective | internal/canonical/canonical.go:32-44 | Fields shorter than 2^32 bytes: equal encodings mean equal lists of fields. |
| Canonical.LongFieldsCollide | internal/canonical/canonical.go:36-43 | A field of 2^32 bytes does not: its length is cut to zero. |
| Canonical.TranscriptsInjective | internal/canonical/canonical.go:11-161 | No two things signed or derived from, of one domain or of two, have the same bytes: an operation's counted parents and roles included. |
| Canonical.OperationBodyInjective | internal/canonical/canonical.go:105-119 | The fields of an operation, with their counts, tell its two lists apart. |
| Canonical.DomainsDiffer | internal/canonical/canonical.go:11-22 | Each transcript has its own domain. |
| Canonical.Encode | internal/canonical/canonical.go:33-44 | The loop leaves each field after its length, in order. |
| Canonical.OperationBytes | internal/canonical/canonical.go:105-119 | What an operation's author signs, put together step by step, is the encoding of its fields. |
| Published.SignedAsPublished | docs/protocol/canonical-encodings.md:1-118 | Each thing signed or derived from is the fields published for it, in the order published, after its domain. |
| Published.FieldsFollowTheirLengths | internal/canonical/canonical.go:32-44 | Wherever a field comes, the four bytes before it spell its length, the highest first, and nothing else is added. |
| Published.NumbersAreBigEndian | internal/canonical/canonical.go:46-50 | A number of 32 or 64 bits is the bytes that spell it, the highest first; a negative one its two's complement. |
| Published.NamesAreAscii | internal/canonical/canonical.go:11-30 | Domains and roles are their characters' codes. |
| Checksum.Polymod | internal/invitation/bech32m.go:20-34 | The loop over the values, and over the generators' bits, leaves the register that feeding the values one by one leaves. |
| Checksum.Step | internal/invitation/bech32m.go:24-31 | One value shifts the register, adds the generators of its top bits, and the value. |
| Checksum.FedLinear | internal/invitation/bech32m.go:20-34 | The register is linear over the bits: that of the difference of two sequences is the difference of theirs. |
| Checksum.FeedInjective | internal/invitation/bech32m.go:24-31 | A step forgets nothing of a register of thirty bits. |
| Checksum.FedInjective | internal/invitation/bech32m.go:20-34 | Nor do steps: registers that differ still do after the same values, of any number. |
| Checksum.SixInjective | internal/invitation/bech32m.go:20-34 | Six values leave a register that no six others leave. |
| Checksum.BurstChangesChecksum | internal/invitation/bech32m.go:20-34 | Values of any length that differ only within six in a row have different checksums. |
| Checksum.DigitsClose | internal/invitation/bech32m.go:56-65 | The six values appended make the checksum what it is checked against. |
| Checksum.RestIsShift | internal/invitation/bech32m.go:61-63 | What is left of the checksum without its last values is it, shifted right by five bits for each, as the source takes its values. |
| Bech32m.DecodingUndoesEncoding | internal/invitation/bech32m.go:50-103 | Any data after any printable prefix without capitals, within 1023 characters in all, is decoded as it was encoded. |
| Bech32m.GarbledIsNoticed | internal/invitation/bech32m.go:69-103 | A code in upper or in lower case, of at most the 1023 characters read, garbled only within six characters in a row of its data, is always the checksum error. |
| Published.CodesAreBIP350s | internal/invitation/bech32m.go:10-33 | The alphabet is BIP 350's, and so is the code of no data with the prefix a, in capitals too, which takes all five generators and the constant. |
| Published.LongOrMixedIsNone | internal/invitation/bech32m.go:69-73 | A code of more than 1023 characters, or of capitals and small letters, is none. |
| Bech32m.ReplacedIsNoticed | internal/invitation/bech32m.go:69-103 | In particular, with any one data character replaced by another of the charset. |
| Bech32m.Encode | internal/invitation/bech32m.go:50-66 | The loops leave the prefix, the separator, the data's characters and the six of its checksum. |
| Bech32m.Decode | internal/invitation/bech32m.go:69-103 | The loop and its tests tell a code, a wrong checksum and a malformed one apart, the last separator being the one that counts. |
| Bech32m.Expand | internal/invitation/bech32m.go:36-48 | The prefix is checksummed as its characters' high bits, a zero, and their low bits. |
| Bech32m.LastIndex | internal/invitation/bech32m.go:77-80 | The separator is the last "1" there is. |
| Bech32m.Index | internal/invitation/bech32m.go:88-93 | A character's value is its first place in the charset. |
| Regrouping.RegroupingRoundTrips | internal/invitation/bech32m.go:105-129 | Every byte string comes back from its groups of five bits, of which there are as many as its bits need. |
| Regrouping.Regroup | internal/invitation/bech32m.go:106-129 | The loop, whose accumulator of 64 bits wraps around and is never masked, leaves exactly the bits of the data grouped anew: padded with zeros, or refused if five bits or a one are left over. |
| Regrouping.PutOut | internal/invitation/bech32m.go:115-118 | The inner loop puts out every whole group there is. |
| Regrouping.GroupedBits | internal/invitation/bech32m.go:105-129 | Groups are those of their bits. |
| Regrouping.BitsGrouped | internal/invitation/bech32m.go:105-129 | And the bits of groups are those they are made of. |
| Invitations.InvitationsRoundTrip | internal/invitation/invitation.go:40-115 | Every allowed invitation, signed by its own identity, has a code of at most 785 characters, within the 1023 Bech32m takes, and the code is decoded as the invitation. |
| Published.InvitesIff | internal/invitation/invitation.go:40-46 | Exactly what is encoded: a key of 32 bytes, a name of at most 128 and a hint of at most 255, both text. |
| Published.InvitationsAsPublished | internal/invitation/invitation.go:40-57 | An invitation is the code, with the prefix convia, of version 1, the key, the name and the hint after their sizes, and the signature of what is published. |
| Published.TakenIff | internal/invitation/invitation.go:59-115 | A payload is taken for an invitation if and only if it is one as published, of version 1 and with no byte more, and signed by the key it names. |
| Invitations.PayloadsRoundTrip | internal/invitation/invitation.go:59-115 | So has any payload whose fields fit their lengths, signed by its identity, though it may not be invited: its code is decoded as what it says. |
| Invitations.LongNamesAreRead | internal/invitation/invitation.go:40-107 | A name of 129 to 255 bytes is refused when encoded, and the code of such a payload, signed, is decoded all the same. |
| Invitations.MiscopiedIsNoticed | internal/invitation/invitation.go:59-66 | Its code with any one character after the separator replaced is said not to be copied exactly, and is never another invitation. |
| Invitations.DecodedIsSigned | internal/invitation/invitation.go:59-115 | What a code is decoded as was signed by the identity it names, and the payload is the only one that says it. |
| Invitations.PayloadReads | internal/invitation/invitation.go:40-107 | A payload is read as it was put together. |
| Invitations.PayloadIs | internal/invitation/invitation.go:80-107 | And whatever is read was put together so: nothing is left over or read twice. |
| Invitations.Encode | internal/invitation/invitation.go:40-56 | Encoding refuses what is not allowed, and otherwise appends each field after its length, and the signature. |
| Invitations.Decode | internal/invitation/invitation.go:59-115 | Decoding tells a code not copied exactly, a malformed one, a newer version and a bad signature apart. |
| Invitations.Verify | internal/invitation/invitation.go:73-114 | Consuming the payload piece by piece reads what it says, and verifies its signature. |
| Peers.EveryRunKeeps | internal/peers/peers.go:154-822 | In every run of events, whatever order maps are ranged over in: connections and the peers' own are in bijection; a wanted peer without one is parked or has a retry; the observer knows just whose are ready; and a ready one has a proof of its peer's key over just its fingerprints, its nonces and the version in common. |
| Peers.NextKeeps | internal/peers/peers.go:154-822 | Each event keeps that. |
| Peers.FingerprintsNeverChange | internal/peers/peers.go:417-428 | Whatever event comes, a connection still there has the fingerprints and the nonce it had, and if it was ready is ready on just what was proven. |
| Peers.ProofBindsBothEnds | internal/peers/peers.go:734-760 | What one end signs and the other verifies is one connection seen from its two ends: each meant to reach the other, one offered, and each has the other's fingerprint and nonce as the other's own. |
| Peers.FailedKeeps | internal/peers/peers.go:770-794 | Ending a connection and scheduling the next attempt keeps the invariant. |
| Peers.HandshakenKeeps | internal/peers/peers.go:684-723 | So does every message of the handshake, in whatever order they come. |
| Peers.TickedKeeps | internal/peers/peers.go:803-820 | And so does what a tick does of each peer. |
| OnDemand.OffersOnDemand | internal/peers/peers.go:223-278 | In every run, whatever event comes, this peer offers a new connection only to a peer it wants. |
| OnDemand.AwayIsNeverPolled | internal/peers/peers.go:617-628 | In every run, a peer the service could not reach is offered no connection, whatever event comes, until the service announces it, or nobody wants it and it is forgotten. |
| OnDemand.LostAgainStaysParked | internal/peers/peers.go:589-628 | The run of a peer wanted, unreachable, that then connects by itself and is lost again: it is still parked, with no attempt scheduled, though both are online. |
| OnDemand.EveryRunIsRestrained | internal/peers/peers.go:788-794 | In every run an attempt is scheduled only to a peer that is wanted and not parked. |
| OnDemand.WantedIsTriedIff | internal/peers/peers.go:770-794 | In every run, a peer without a connection has an attempt scheduled if and only if it is wanted and not parked. |
| OnDemand.NextRestrained | internal/peers/peers.go:154-822 | Each event keeps that, and parks or unparks nobody else. |
| Wanting.WantsAsItSays | internal/peers/peers.go:223-253 | Whatever event comes, what this peer wants of another is what it wanted, with the reason it begins to have, without the one it ceases to have, and nothing once it disconnects. |
| Wanting.WantedSince | internal/peers/peers.go:223-253 | In every run, from when a peer is wanted for a reason until it is released or disconnected, it has a connection, or an attempt scheduled, or is parked. |
| Accepting.OnlyTheAcceptedAreAnswered | internal/peers/peers.go:560-604 | Whatever event comes, a connection that is new and that this peer does not offer is of a peer it accepts, who offered it. |
| Accepting.EveryRunAnswersTheAccepted | internal/peers/peers.go:589-592 | In every run, every connection this peer does not offer is of a peer it accepts. |
| Accepting.StrangersChangeNothing | internal/peers/peers.go:560-592 | What a peer not accepted signals changes nothing, but on a connection it has. |
| Accepting.TickEndsIff | internal/peers/peers.go:796-822 | A tick ends exactly the connections not ready for as long as an attempt may last, and those ready that neither side wanted for as long as one may be idle. |
| Accepting.AttemptsIff | internal/peers/peers.go:179-197 | As the service is reached, waiting attempts are made at once, or a tick comes: exactly which peers get a connection. |
| Accepting.LossSchedules | internal/peers/peers.go:770-795 | A connection lost leaves its peer without one, and schedules the next attempt, one failure later, if and only if the peer is wanted and not parked. |
| Accepting.InterestIsHeard | internal/peers/peers.go:632-660 | What the other side says it wants of a ready connection is kept, and nothing else changes. |
| PeersManager.Manager.constructor | internal/peers/peers.go:144-151 | A manager begins with nothing, and validly. |
| PeersManager.Manager.Drop | internal/peers/peers.go:777-785 | A connection dropped is gone from both tables, and its loss is told if it was ready. |
| PeersManager.Manager.Again | internal/peers/peers.go:788-794 | The next attempt is scheduled, one failure more, if it is wanted and not parked. |
| PeersManager.Manager.Fail | internal/peers/peers.go:770-775 | Failing is both. |
| PeersManager.Manager.Make | internal/peers/peers.go:547-552 | A connection made is in both tables, with nothing known of it. |
| PeersManager.Manager.Connect | internal/peers/peers.go:535-545 | An attempt is made, or scheduled at once while there is no service to signal through. |
| PeersManager.Manager.Describe | internal/peers/peers.go:607-615 | A remote description with no single fingerprint, or another than before, ends the connection. |
| PeersManager.Manager.Offered | internal/peers/peers.go:589-604 | An offer is answered on a new connection, in place of the one there was, unless this peer's own pending offer wins; if its peer is not accepted, nothing changes, and no connection is new but one to an accepted peer who offered it. |
| PeersManager.Manager.Prove | internal/peers/peers.go:706-722 | With the other's hello and challenge, and a version in common, this peer proves itself once. |
| PeersManager.Manager.Verify | internal/peers/peers.go:747-760 | A proof that verifies makes the connection ready, and forgets failures; any other ends it. |
| PeersManager.Manager.Handshake | internal/peers/peers.go:684-723 | Each message of the handshake is taken once, and only after the channel opened; anything else ends the connection. |
| PeersManager.Manager.Receive | internal/peers/peers.go:632-674 | Before the proof only the handshake is taken; after it, none of it. |
| PeersManager.Manager.OnSignal | internal/peers/peers.go:560-586 | An offer or an answer, of a session not another peer's. |
| PeersManager.Manager.Unreachable | internal/peers/peers.go:617-628 | A peer the service cannot reach is parked, unless its connection is ready. |
| PeersManager.Manager.Want | internal/peers/peers.go:223-235 | A reason more: a connection is attempted, unless there is one, the peer is parked, or an attempt is scheduled. |
| PeersManager.Manager.Release | internal/peers/peers.go:238-252 | A reason less: with the last, no attempt is scheduled any more. |
| PeersManager.Manager.Reachable | internal/peers/peers.go:255-267 | A peer announced is parked no longer, and attempted at once if wanted. |
| PeersManager.Manager.Disconnect | internal/peers/peers.go:391-404 | The connection ends, and every reason for it. |
| PeersManager.Manager.OnLocalDescription | internal/peers/peers.go:417-428 | A local description with no single fingerprint, or another than before, ends the connection. |
| PeersManager.Manager.OnOpened | internal/peers/peers.go:474-489 | The handshake starts once, after both descriptions. |
| PeersManager.Manager.OnReport | internal/peers/peers.go:417-522 | What the WebView says of a connection: a description, that it opened or closed, a message or a file. |
| PeersManager.Manager.GoOnline | internal/peers/peers.go:179-196 | With a service to signal through, every wanted peer that is not parked and has no connection is attempted. |
| PeersManager.Manager.RetryNow | internal/peers/peers.go:272-278 | Every wanted attempt that is waiting is made at once. |
| PeersManager.Manager.Reset | internal/peers/peers.go:407-414 | Every connection is gone, and the wanted ones are scheduled. |
| PeersManager.Manager.TickOne | internal/peers/peers.go:803-820 | A tick ends an attempt that took too long, and a connection idle too long that neither wants; makes an attempt whose time came; and forgets a peer nobody wants. |
| PeersManager.Manager.Tick | internal/peers/peers.go:796-822 | It does so of every peer, and after a long sleep retries all that waits first. |
| Glare.GlareEndsOnOneSession | internal/peers/peers.go:535-604 | Two peers that connect at once, under every interleaving of signals in order: once all is done, both are on one session, proven, which is the lower key's if it offered one. |
| Glare.EveryInterleavingKeeps | internal/peers/peers.go:535-604 | At every moment of every interleaving the two ends and the signals on their way are of one of a few shapes, none of them split for good. |
| Glare.LowerNeverYields | internal/peers/peers.go:589-604 | The lower key never gives its own offer up, and no end, once there, is ever without a connection. |
| Glare.EveryStepIsProgress | internal/peers/peers.go:535-604 | Every step brings the end nearer. |
| Glare.OutOfOrderSplits | internal/peers/peers.go:589-604 | The order of signals is needed: a run after which an answer that overtakes an offer leaves each end on a session of its own. |
| Glare.OfferIsTakenSo | internal/peers/peers.go:560-604 | What the manager does of an offer is what an end does here. |
| Glare.AnswerIsTakenSo | internal/peers/peers.go:577-580 | And of an answer. |
| Glare.DescriptionIsTakenSo | internal/peers/peers.go:417-428 | And of its own description. |
| Glare.ConnectingIsSo | internal/peers/peers.go:535-552 | And when it connects. |
| GlareRefined.EveryRunIsGlares | internal/peers/peers.go:416-489 | Every run of two managers, begun online with no connection to each other, their signals and the messages of their handshake arriving in order, whatever each does with others in between, is a run of the two ends of Glare: no connection of theirs ever fails, and the handshake's last message is the end's proof. |
| GlareRefined.BothProveOne | internal/peers/peers.go:535-762 | Once nothing is left for either to do, if either connected, both have proven one connection, and both observers were told: the lower key's if it offered one, and each has the other's fingerprint and nonce as the other's own. |
| GlareRefined.EveryMoveIsProgress | internal/peers/peers.go:535-762 | Every step either takes towards the other leaves less to do, to the last message of the handshake, and what they do with others leaves no more. |
| GlareRefined.NextIsGlares | internal/peers/peers.go:416-762 | Each move of either manager keeps what holds of the two, and is a step of Glare's or none of it. |
| GlareRefined.TranscriptsMeet | internal/peers/peers.go:734-745 | In any such run, what one signs of the connection they are joined by is what the other verifies. |
| GlareRefined.HeardNext | internal/peers/peers.go:684-723 | What is heard next is always what the handshake wants next: the versions, the nonce, the proof over both, and only then what the other wants. |
| PeersApart.OthersAreLeftBe | internal/peers/peers.go:154-822 | Whatever this peer wishes of others, is signalled by others, or happens on their connections leaves all it knows of a peer, and their connection, as it was. |
| Rendezvous.EveryRunTells | internal/rendezvous/service/service.go:321-399 | In every run no limit is exceeded, only open connections have links, and whoever subscribes to what another announces was told since the later of the two began. |
| Rendezvous.ToldRightly | internal/rendezvous/service/service.go:347-399 | Nobody is told for nothing: when it was said, another announced what they subscribe to. |
| Rendezvous.SubscriptionsAfter | internal/rendezvous/service/service.go:322-385 | Exactly who subscribes to what after an event: a subscription begins if with it the peer has no more than it may, and ends as the peer unsubscribes or is gone. |
| Rendezvous.AnnouncementsAfter | internal/rendezvous/service/service.go:322-385 | And who announces what. |
| Rendezvous.ToldNoMore | internal/rendezvous/service/service.go:373-385 | In every run, a peer that unsubscribes from something, or is gone, does not subscribe to it and is not told of it until it subscribes to it again. |
| Rendezvous.AnnouncedNoMore | internal/rendezvous/service/service.go:373-385 | And one that withdraws something does not announce it until it announces it again. |
| Rendezvous.OthersAreNotTold | internal/rendezvous/service/service.go:387-402 | Nobody who neither subscribes to something nor begins to is told of it. |
| Rendezvous.TellingKept | internal/rendezvous/service/service.go:347-399 | Each event keeps that all were told. |
| Rendezvous.LimitsKept | internal/rendezvous/service/service.go:321-345 | And that no limit is exceeded. |
| RendezvousService.Service.constructor | internal/rendezvous/service/service.go:102-116 | A service begins with nothing, and validly. |
| RendezvousService.Service.Open | internal/rendezvous/service/service.go:237-245 | A connection begins with no links. |
| RendezvousService.Service.Forget | internal/rendezvous/service/service.go:247-260 | A connection that ends is taken off everything, and no identifier is left with nobody. |
| RendezvousService.Service.Subscribe | internal/rendezvous/service/service.go:347-357 | Subscribing, within the limit, tells this connection of exactly the new identifiers another announces; otherwise nothing changes. |
| RendezvousService.Service.Announce | internal/rendezvous/service/service.go:359-371 | Announcing, within the limit, tells exactly the other subscribers of each new identifier; otherwise nothing changes. |
| RendezvousService.Service.Unsubscribe | internal/rendezvous/service/service.go:373-385 | Identifiers dropped are dropped from both indexes, unless one is malformed. |
| RendezvousService.Service.Withdraw | internal/rendezvous/service/service.go:373-385 | And so of what is announced. |
| RendezvousService.Add | internal/rendezvous/service/service.go:321-345 | The links recorded are exactly the new ones, each once, in both indexes, unless all would be more than the limit: then nothing is. |
| RendezvousService.Drop | internal/rendezvous/service/service.go:373-385 | The links dropped are exactly those named, in both indexes. |
| RendezvousService.Clear | internal/rendezvous/service/service.go:247-269 | Ranging over a connection's identifiers in any order takes it off all of them. |
| RendezvousService.Others | internal/rendezvous/service/service.go:387-394 | Whether any connection but one has an identifier. |
| Images.CleaningIsAProjection | internal/images/images.go:44-296 | Whatever is cleaned is a picture of the same type, no longer, of an orientation from 1 to 8; and cleaned again it is the same, of orientation 1. |
| Images.NothingRemovedIsLeft | internal/images/images.go:40-57 | Of every piece of what is cleaned the whole is kept and none records an orientation: nothing cleaning removes is left (in a JPEG picture, before its first scan). |
| Records.NothingRecordedIsLeft | internal/images/images.go:44-296 | In bytes: a picture is its header and whole parts, up to the one it ends with; and cleaned it is the header and what is left of each, in their order: of no text, time, EXIF, XMP, comment or application's record anything, and of all else all but two flags of VP8X. |
| Records.PNGRemovedIff | internal/images/images.go:98-124 | Of PNG, exactly the chunks tEXt, zTXt, iTXt, tIME and eXIf are removed, and every other is kept whole. |
| Records.JPEGRemovedIff | internal/images/images.go:126-178 | Of JPEG, exactly the comments and the application's segments but JFIF's, a colour profile's and Adobe's. |
| Records.GIFRemovedIff | internal/images/images.go:213-231 | Of GIF, exactly the comments and the application's extensions but those that make it loop. |
| Records.WebPRemovedIff | internal/images/images.go:258-296 | Of WebP, exactly EXIF and XMP. |
| Records.LittleOrientation | internal/images/images.go:60-94 | The orientation is read from tag 0x0112 of the first directory, the lowest byte first. |
| Records.BigOrientation | internal/images/images.go:60-94 | Or the highest first. |
| Images.PiecesOfKept | internal/images/images.go:98-296 | The pieces of what is kept are the pieces kept, and no others. |
| Images.PieceFits | internal/images/images.go:98-296 | A piece is never empty, nor past the end; and what ends a picture is kept. |
| Images.Orientation | internal/images/images.go:63-93 | An orientation read is from 1 to 8, whatever the data. |
| Images.Blocks | internal/images/images.go:195-205 | Sub-blocks end after where they start, and within the data. |
| ImageCleaners.Clean | internal/images/images.go:44-57 | The cleaner of its type leaves of a picture its header and the pieces kept, or nothing of one malformed. |
| ImageCleaners.CleanPieces | internal/images/images.go:98-296 | The loop over a picture ends, within bounds, with what its pieces leave. |
| ImageCleaners.ReadOrientation | internal/images/images.go:63-93 | The loop over a directory's entries reads the orientation of the first valid record of it. |
| ImageCleaners.NextPNG | internal/images/images.go:102-123 | A chunk is kept, dropped, or read for the orientation and dropped; a cut one is malformed. |
| ImageCleaners.NextJPEG | internal/images/images.go:130-177 | A marker or a segment, likewise; the scan and all after it is kept. |
| ImageCleaners.NextGIF | internal/images/images.go:207-254 | An image or an extension, likewise; of the applications only those that loop are kept. |
| ImageCleaners.NextWebP | internal/images/images.go:266-292 | A chunk, likewise; the one that announces others announces none that was dropped. |
| ImageCleaners.SubBlocks | internal/images/images.go:195-205 | The loop over sub-blocks finds where they end, or that they do not. |
| SealedPieces.Pieces.Write | internal/storage/pieces.go:44-60 | What is written whole is held a sealed piece at a time, each at its offset, and no other file changes. |
| SealedPieces.Pieces.Put | internal/storage/pieces.go:63-76 | A piece put is sealed under its file and index, at its offset; nothing else of the file, nor any other, changes. |
| SealedPieces.Pieces.Read | internal/storage/pieces.go:79-102 | Reading from the start of a piece gives what the pieces there open to, as many bytes as asked for, to the end of the file at most; or nothing, if one is not here whole or does not open; from anywhere else, or of no file, nothing. |
| SealedPieces.HeldReads | internal/storage/pieces.go:79-102 | Of a file that holds data, or its first pieces, what is read within them is exactly the bytes asked for. |
| SealedPieces.Pieces.Remove | internal/storage/pieces.go:134-139 | A file removed is gone, and no other. |
| SealedPieces.PutHolds | internal/storage/pieces.go:62-76 | A piece put after whole pieces makes a file that holds them and it, as one write of all would. |
| FileTransfer.Reader.constructor | internal/storage/pieces.go:104-107 | A reader begins with all to be read. |
| FileTransfer.Reader.Fill | internal/storage/pieces.go:117-127 | A piece is at hand exactly while there is more to read. |
| FileTransfer.Reader.Read | internal/storage/pieces.go:117-131 | What is read is the start of what was left, and the rest is left; nothing exactly at the end. |
| FileTransfer.CopyAll | internal/messages/files.go:186-193 | Copied until its end, a reader gives the whole file. |
| FileTransfer.WholeIsAsDescribed | internal/messages/files.go:169-205 | Whatever pieces arrive, in whatever order: a file marked whole is the one whose digest was described. |
| FileTransfer.PiecesMakeTheFile | internal/messages/files.go:169-205 | A file's pieces, each arriving once and in order, make it, and mark it whole with the last. |
| FileTransfer.SentAre | internal/storage/pieces.go:13-18 | Each piece of a file is its next 64 KiB, and the last what is left. |
| FileTransfer.ArrivingIsProgress | internal/messages/files.go:169-205 | Progress is a whole number of pieces, or the whole file. |
| FileTransfer.WholeTakesNoMore | internal/messages/files.go:176-180 | A whole file takes no more pieces. |
| FileTransfer.ChannelsAcceptAlike | internal/spaces/files.go:146-155 | What a channel's file asks of a piece, in other words, is the same. |
| FileTransfer.Store.constructor | internal/messages/files.go:83-108 | A store begins with no files. |
| FileTransfer.Store.Describe | internal/messages/store.go:314-317 | A file described has its author, and nothing of it here. |
| FileTransfer.Store.Arrived | internal/messages/files.go:169-205 | A piece by the file's author, next and full, is stored at its offset and recorded; with the last, the file is marked whole if its digest is as described, and is otherwise dropped, to be asked for again; no other file changes. |
| FileTransfer.Store.Finish | internal/messages/files.go:186-204 | All of a file here marks it whole, or drops it. |
| FileTransfer.Store.IsDescribed | internal/messages/files.go:186-193 | The digest compared is that of all that was kept, read back. |

## Left out

* Cryptography, SQL, Protocol Buffers, WebSocket, WebRTC, files of the operating system, goroutines and locks: tables are
  maps and sequences, files are their bytes, signatures and seals are functions, marshalling is taken to be read back.
* The binary heap of `container/heap`: `PopLeast` takes the least of the queue by looking at each.
* The 32-bit counter of the hybrid clock is unbounded here, and so are sequence numbers; what a clock learns from others
  (internal/hlc/hlc.go:46-52) is not modelled, since every lemma holds for clocks of any value.
* What a person's status of a message is (waiting, sent, delivered, received), what is unread, and how much of a file is here,
  in what the folds show.
* Unicode: characters are those of a string, trimming and letter case are ASCII's, and what is valid is a predicate.
* The members, channels and roles of a space's state are values in maps here, where the source changes them through pointers; nobody
  holds two pointers to one.
* That two members who exchange a channel are in two states of the space: `ChannelSync` has both in one. That members come to know
  the same operations is `SpaceStore`'s.
* What the manager of connections hands to the WebView, to the service and to its observer, but for whose connection is ready,
  and what two that connect at once send each other; when exactly it retries (the growing wait and its jitter are a
  parameter); the identifiers it announces; and the parsing of a fingerprint.
* Failures, timeouts, candidates and ticks while two peers connect at once (`Glare`, `GlareRefined`), and what either then
  does about the other but connect: that it wants them no more, or ends the connection.
* The rendezvous service's admission, blocks, token bucket, relay of signals and its queues: who is told is who is
  handed a notice.
* Contacts, calls, voice channels, ringing, search, the user interface: smaller machines, left for later.
- GlareRefined.EveryRunIsGlares: has no failures, timeouts, candidates or ticks between the two, since each ends, or schedules
  anew, what `Peers` says it does, and the two then begin again.
- GlareRefined.BothProveOne: and so no more does this.
- Peers.EveryRunKeeps: the sessions made are nobody's yet; two random sessions of 16 bytes that are equal are not modelled.
