/** One peer's side of a conversation, and what each step of its store leaves (internal/messages/store.go).

A side is the rows of the conversation, in its order, and which of them are in the outbox. */
module Mailbox {
  import opened Basics
  import opened Conversation

  datatype Side = Side(me: Key, contact: Key, log: seq<Entry>, outbox: set<ID>)

  /** What a message's text, a reaction's emoji, a file's name and its type may be. */
  datatype Rules = Rules(message: string -> bool, emoji: string -> bool, fileName: string -> bool, fileKind: string -> bool)

  const MAX_FILE_SIZE := 100 * 1024 * 1024

  predicate IsFile(r: Rules, f: File) {
    0 < f.size <= MAX_FILE_SIZE && 1 <= f.orientation <= 8 && r.fileKind(f.kind)
  }

  /** An entry is one the protocol allows; a wiped one holds no text, so none is checked. */
  predicate Allowed(r: Rules, e: Entry) {
    && (e.wiped ==> e.text == "")
    && match e.kind
       case Text | Editing => !e.on && (e.wiped || r.message(e.text))
       case Reacting => r.emoji(e.text)
       case Deleting => true
       case Attaching => e.wiped || (r.fileName(e.text) && e.file.Some? && IsFile(r, e.file.value))
  }

  // ---- The order of a conversation ----

  predicate Before(e: Entry, f: Entry) {
    e.time.Before(f.time) || (e.time == f.time && e.id < f.id)
  }

  ghost predicate InOrder(log: seq<Entry>) {
    forall i, j | 0 <= i < j < |log| :: Before(log[i], log[j])
  }

  /** A log in order is in the order of its clock; of equal clocks, of its identifiers. */
  lemma OrderIs(log: seq<Entry>)
    requires InOrder(log)
    ensures forall i, j | 0 <= i < j < |log| ::
      || log[i].time.wall < log[j].time.wall
      || (log[i].time.wall == log[j].time.wall && log[i].time.counter < log[j].time.counter)
      || (log[i].time.wall == log[j].time.wall && log[i].time.counter == log[j].time.counter && log[i].id < log[j].id)
  {
    forall i, j | 0 <= i < j < |log| ensures Before(log[i], log[j]) { }
  }

  /** Where m goes in log. */
  function Place(log: seq<Entry>, m: Entry): (k: nat)
    ensures k <= |log|
    ensures forall i | 0 <= i < k :: Before(log[i], m)
    ensures k < |log| ==> !Before(log[k], m)
  {
    if log == [] || !Before(log[0], m) then 0 else 1 + Place(log[1..], m)
  }

  function Placed(log: seq<Entry>, m: Entry): seq<Entry> {
    var k := Place(log, m);
    log[..k] + [m] + log[k..]
  }

  ghost function IDs(log: seq<Entry>): set<ID> {
    set e | e in log :: e.id
  }

  lemma PlacedInOrder(log: seq<Entry>, x: Entry)
    requires InOrder(log) && DistinctIDs(log) && x.id !in IDs(log)
    ensures InOrder(Placed(log, x)) && DistinctIDs(Placed(log, x)) && IDs(Placed(log, x)) == IDs(log) + {x.id}
    ensures forall e :: e in Placed(log, x) <==> e in log || e == x
    ensures var now := Placed(log, x);
      forall i, j | 0 <= i < j < |now| ::
        || now[i].time.wall < now[j].time.wall
        || (now[i].time.wall == now[j].time.wall && now[i].time.counter < now[j].time.counter)
        || (now[i].time.wall == now[j].time.wall && now[i].time.counter == now[j].time.counter && now[i].id < now[j].id)
  {
    var k := Place(log, x);
    assert forall i | 0 <= i < |log| :: log[i] in log && log[i].id != x.id;
    assert k < |log| ==> Before(x, log[k]);
    assert Placed(log, x) == Inserted(log, k, x);
    InsertedInOrder(log, k, x);
    InsertedMembers(log, k, x);
    InsertedDistinct(log, k, x);
    hide Placed, Inserted, InOrder, DistinctIDs, IDs, Before;
    OrderIs(Placed(log, x));
  }

  lemma InsertedDistinct(log: seq<Entry>, k: nat, x: Entry)
    requires k <= |log| && DistinctIDs(log) && forall i | 0 <= i < |log| :: log[i].id != x.id
    ensures DistinctIDs(Inserted(log, k, x))
  {
  }

  lemma InsertedInOrder(log: seq<Entry>, k: nat, x: Entry)
    requires InOrder(log) && k <= |log| && (forall i | 0 <= i < k :: Before(log[i], x)) && (k < |log| ==> Before(x, log[k]))
    ensures InOrder(Inserted(log, k, x))
  {
    assert forall i | k <= i < |log| :: Before(x, log[i]);
  }

  lemma InsertedMembers(log: seq<Entry>, k: nat, x: Entry)
    requires k <= |log|
    ensures forall e :: e in Inserted(log, k, x) <==> e in log || e == x
    ensures IDs(Inserted(log, k, x)) == IDs(log) + {x.id}
  {
    assert log == log[..k] + log[k..];
  }

  // ---- Writing ----

  datatype Refusal = Invalid | NoTarget | NotYours | NotDelivered

  /** Why an entry of kind about target is not me's to write, if it is not. */
  ghost function NotTargeted(s: Side, target: ID, kind: Kind): Option<Refusal> {
    var t := Answered(s.log, target);
    if t.None? || IsDeleted(s.log, t.value) || (kind == Editing && t.value.kind != Text) then Some(NoTarget)
    else if (kind == Editing || kind == Deleting) && t.value.author != s.me then Some(NotYours)
    else None
  }

  ghost predicate IsLast(log: seq<Entry>, who: Key, n: nat) {
    && (forall e | e in log && e.author == who :: e.sequence <= n)
    && (n == 0 || exists e :: e in log && e.author == who && e.sequence == n)
  }

  ghost function NotAdded(r: Rules, s: Side, m: Entry): Option<Refusal> {
    if !Allowed(r, m) then Some(Invalid)
    else if m.target.Some? then NotTargeted(s, m.target.value, m.kind)
    else None
  }

  ghost function CompactedSide(s: Side): Side {
    s.(log := Compacted(s.log, s.outbox))
  }

  /** m, given its author and its sequence number, stored and put in the outbox. */
  ghost function Added(s: Side, m: Entry): Side {
    CompactedSide(s.(log := Placed(s.log, m), outbox := s.outbox + {m.id}))
  }

  // ---- Receiving ----

  datatype Reception = Kept | Held | Refused

  ghost predicate Takes(log: seq<Entry>, who: Key, sequence: nat) {
    exists e :: e in log && e.author == who && e.sequence == sequence
  }

  /** m as it is stored once received: the contact's, shown here, and a wiped file described no more. */
  function AsReceived(s: Side, m: Entry): Entry {
    m.(author := s.contact, hidden := false, file := if m.kind == Attaching && !m.wiped then m.file else None)
  }

  ghost function Judged(r: Rules, s: Side, m: Entry): Reception {
    if !Allowed(r, m) then Refused
    else if exists e :: e in s.log && e.author == s.contact && e.sequence == m.sequence && e.id == m.id then Held
    else if Takes(s.log, s.contact, m.sequence) || m.sequence == 0 || m.id in IDs(s.log) then Refused
    else Kept
  }

  ghost function Received(s: Side, m: Entry): Side {
    var stored := s.(log := Placed(s.log, AsReceived(s, m)));
    if m.kind == Editing || m.kind == Deleting then CompactedSide(stored) else stored
  }

  /** A contact's edit of their own file is taken, and compaction then wipes the file's name: what shows is not what was
      sent. */
  lemma LostFileIsTaken(r: Rules, me: Key)
    requires r.fileName("a.txt") && r.fileKind("") && r.message("b")
    ensures var file := Entry(1, 7, 1, Time(1, 0), Attaching, "a.txt", None, false, false, false, Some(File(1, "", 0, 1)));
      var edit := Entry(2, 7, 2, Time(2, 0), Editing, "b", Some(1), false, false, false, None);
      var (none, one) := (Side(8, 7, [], {}), Side(8, 7, [file], {}));
      && Judged(r, none, file) == Kept && Received(none, file) == one && Judged(r, one, edit) == Kept
      && View(Received(one, edit).log, me) != View([file, edit], me)
  {
    var file := Entry(1, 7, 1, Time(1, 0), Attaching, "a.txt", None, false, false, false, Some(File(1, "", 0, 1)));
    var edit := Entry(2, 7, 2, Time(2, 0), Editing, "b", Some(1), false, false, false, None);
    assert [file][1..] == [] && Placed([file], edit) == [file, edit] && Placed([], file) == [file];
    FileCanBeLost(me);
    BothTaken(r, me, file, edit);
    hide View, Compacted, Judged, Placed;
  }

  lemma BothTaken(r: Rules, me: Key, file: Entry, edit: Entry)
    requires Allowed(r, file) && Allowed(r, edit) && file.sequence > 0 && edit.sequence > 0 && edit.sequence != file.sequence && edit.id != file.id
    ensures Judged(r, Side(me, file.author, [], {}), file) == Kept && Judged(r, Side(me, file.author, [file], {}), edit) == Kept
  {
    hide Allowed;
  }

  // ---- What the contact holds ----

  ghost function Acknowledged(s: Side, ids: set<ID>): Side {
    CompactedSide(s.(outbox := s.outbox - ids))
  }

  ghost function OwnUpTo(s: Side, n: nat): set<ID> {
    set e | e in s.log && e.author == s.me && e.sequence <= n :: e.id
  }

  ghost function HeldUpTo(s: Side, n: nat): Side {
    CompactedSide(s.(outbox := s.outbox - OwnUpTo(s, n)))
  }

  /** n is how far log holds who's entries: all of 1 to n, and not n + 1. */
  ghost predicate Holds(log: seq<Entry>, who: Key, n: nat) {
    (forall k | 1 <= k <= n :: Takes(log, who, k)) && !Takes(log, who, n + 1)
  }

  /** What a contact who holds up to n is missing. */
  ghost function After(s: Side, n: nat): set<Entry> {
    set e | e in s.log && e.author == s.me && e.sequence > n
  }

  // ---- Forgetting ----

  ghost function NotForgotten(s: Side, target: ID): Option<Refusal> {
    if !exists e :: e in s.log && e.id == target && IsMessage(e.kind) then Some(NoTarget)
    else if target in s.outbox then Some(NotDelivered)
    else None
  }

  ghost function Forgotten(s: Side, target: ID): Side {
    s.(log := seq(|s.log|, i requires 0 <= i < |s.log| => if s.log[i].id == target then Wiped(s.log[i]).(hidden := true) else s.log[i]))
  }
}
