/** Two peers writing to each other over a network that loses, repeats and reorders what they send. */
module Delivery {
  // internal/messages/service.go:125-135, 155-262 and 272-283, with the store's steps of Mailbox.
  //
  // A wire is the set of everything ever sent one way: any of it may arrive, at any time, any number of times, or
  // never. Neither peer removes the other from its contacts.

  import opened Basics
  import opened Conversation
  import opened Mailbox
  import opened Wire

  datatype Packet = Message(d: Direct) | Ack(id: ID) | Holding(n: nat)

  /** written is every entry ever written, whole, by its identifier: what nobody sees of the run. */
  datatype World = World(a: Side, b: Side, ab: set<Packet>, ba: set<Packet>, written: map<ID, Entry>)

  /** What the peer a does. */
  datatype Action =
    | Write(m: Entry)
    | Resend(e: Entry)
    | Ready(n: nat)
    | OnMessage(d: Direct)
    | OnAck(id: ID)
    | OnHolding(n: nat)
    | Forget(target: ID)

  function Swap(w: World): World { World(w.b, w.a, w.ba, w.ab, w.written) }

  ghost predicate Enabled(r: Rules, w: World, act: Action) {
    match act
    case Write(m) =>
      && m.id !in w.written && Shaped(m) && !m.wiped && !m.hidden
      && m.author == w.a.me && m.sequence > 0 && IsLast(w.a.log, w.a.me, m.sequence - 1) && NotAdded(r, w.a, m).None?
    case Resend(e) => e in w.a.log && e.author == w.a.me && e.id in w.a.outbox
    case Ready(n) => Holds(w.a.log, w.a.contact, n)
    case OnMessage(d) => Message(d) in w.ba && FromWire(d).Some?
    case OnAck(id) => Ack(id) in w.ba
    case OnHolding(n) => Holding(n) in w.ba
    case Forget(target) => NotForgotten(w.a, target).None?
  }

  ghost function Sending(es: set<Entry>): set<Packet> { set e | e in es :: Message(ToWire(e)) }

  ghost function Next(r: Rules, w: World, act: Action): World
    requires Enabled(r, w, act)
  {
    match act
    case Write(m) => w.(a := Added(w.a, m), ab := w.ab + {Message(ToWire(m))}, written := w.written[m.id := m])
    case Resend(e) => w.(ab := w.ab + {Message(ToWire(e))})
    case Ready(n) => w.(ab := w.ab + {Holding(n)})
    case OnMessage(d) => (match Judged(r, w.a, FromWire(d).value)
                          case Kept => w.(a := Received(w.a, FromWire(d).value), ab := w.ab + {Ack(d.id)})
                          case Held => w.(ab := w.ab + {Ack(d.id)})
                          case Refused => w)
    case OnAck(id) => w.(a := Acknowledged(w.a, {id}))
    case OnHolding(n) => var a := HeldUpTo(w.a, n); w.(a := a, ab := w.ab + Sending(After(a, n)))
    case Forget(target) => w.(a := Forgotten(w.a, target))
  }

  datatype Move = ByA(act: Action) | ByB(act: Action)

  /** The world after a move, which does nothing where the peer cannot make it. */
  ghost function Moved(r: Rules, w: World, move: Move): World {
    match move
    case ByA(act) => if Enabled(r, w, act) then Next(r, w, act) else w
    case ByB(act) => if Enabled(r, Swap(w), act) then Swap(Next(r, Swap(w), act)) else w
  }

  ghost function Run(r: Rules, w: World, moves: seq<Move>): World {
    if moves == [] then w else Moved(r, Run(r, w, moves[..|moves| - 1]), moves[|moves| - 1])
  }

  function Begun(a: Key, b: Key): World {
    World(Side(a, b, [], {}), Side(b, a, [], {}), {}, {}, map[])
  }

  // ---- What every run keeps ----

  /** What was written is whole, and well formed; an edit is of a text of its author's. */
  ghost predicate WrittenWell(r: Rules, w: World) {
    forall id | id in w.written :: var m := w.written[id];
      && m.id == id && !m.wiped && !m.hidden && Shaped(m) && Allowed(r, m) && m.author in {w.a.me, w.b.me}
      && (m.kind == Editing ==> m.target.value in w.written && w.written[m.target.value].kind == Text)
  }

  /** e is what was written under its identifier, or that without its text. */
  predicate Copies(e: Entry, written: map<ID, Entry>) {
    e.id in written && (e == written[e.id] || e == Wiped(written[e.id]) || e == Wiped(written[e.id]).(hidden := true))
  }

  ghost predicate WipedRightly(log: seq<Entry>, e: Entry) {
    (e.wiped ==> IsGone(log, e) || e.hidden) && (e.hidden ==> IsMessage(e.kind))
  }

  /** A log is in order, holds an entry once, and keeps it whole but where its text is gone, or hidden here. */
  ghost predicate KeptWell(log: seq<Entry>, written: map<ID, Entry>) {
    && InOrder(log) && DistinctIDs(log)
    && (forall e | e in log :: Copies(e, written))
    && (forall e | e in log :: WipedRightly(log, e))
  }

  ghost predicate Wrote(w: map<ID, Entry>, who: Key, id: ID) { id in w && w[id].author == who }

  /** who's entries are numbered 1, 2, 3 and on, each number once, and log holds them all. */
  ghost predicate NumberedWell(log: seq<Entry>, who: Key, written: map<ID, Entry>) {
    && (forall id | Wrote(written, who, id) :: id in IDs(log) && written[id].sequence >= 1)
    && (forall x, y | Wrote(written, who, x) && Wrote(written, who, y) && written[x].sequence == written[y].sequence :: x == y)
    && (forall x, k: nat | Wrote(written, who, x) && 1 <= k <= written[x].sequence :: NumberTaken(written, who, k))
  }

  ghost predicate NumberTaken(written: map<ID, Entry>, who: Key, k: nat) {
    exists id :: Wrote(written, who, id) && written[id].sequence == k
  }

  ghost predicate IsWhole(log: seq<Entry>, who: Key, id: ID) {
    exists e :: e in log && e.id == id && e.author == who && !e.wiped && !e.hidden
  }

  /** What waits is whole; what does not, the other side stored. */
  ghost predicate WaitsWell(a: Side, b: Side, written: map<ID, Entry>) {
    && (forall id | id in a.outbox :: IsWhole(a.log, a.me, id))
    && (forall id | Wrote(written, a.me, id) && id !in a.outbox :: id in IDs(b.log))
  }

  /** What was sent is what was written, whole unless the other side stored it already; what the other side said
      it holds, it does. */
  ghost predicate SentWell(a: Side, b: Side, ab: set<Packet>, ba: set<Packet>, written: map<ID, Entry>) {
    && (forall d | Message(d) in ab :: SentMessage(a.me, b.log, written, d))
    && (forall id | Ack(id) in ba :: id in IDs(b.log))
    && (forall n | Holding(n) in ba :: HoldsUpTo(a.me, b.log, written, n))
  }

  ghost predicate SentMessage(who: Key, log: seq<Entry>, written: map<ID, Entry>, d: Direct) {
    && Wrote(written, who, d.id)
    && (d == ToWire(written[d.id]) || (d == ToWire(Wiped(written[d.id])) && Wipes(written[d.id].kind) && d.id in IDs(log)))
  }

  predicate Wipes(kind: Kind) { IsMessage(kind) || kind == Editing }

  ghost predicate HoldsUpTo(who: Key, log: seq<Entry>, written: map<ID, Entry>, n: nat) {
    forall k: nat | 1 <= k <= n :: HoldsNumber(who, log, written, k)
  }

  ghost predicate HoldsNumber(who: Key, log: seq<Entry>, written: map<ID, Entry>, k: nat) {
    exists id :: Wrote(written, who, id) && written[id].sequence == k && id in IDs(log)
  }

  /** What is kept of a's entries and a's log; the other half is the same of b. */
  ghost predicate Half(r: Rules, w: World) {
    && w.a.me != w.b.me && w.a.contact == w.b.me
    && KeptWell(w.a.log, w.written)
    && NumberedWell(w.a.log, w.a.me, w.written)
    && WaitsWell(w.a, w.b, w.written)
    && SentWell(w.a, w.b, w.ab, w.ba, w.written)
  }

  ghost predicate Invariant(r: Rules, w: World) {
    WrittenWell(r, w) && Half(r, w) && Half(r, Swap(w))
  }

  // ---- Logs ----

  /** now is log with some texts wiped, each gone, or of a message hidden with it. */
  ghost predicate Rewrites(log: seq<Entry>, now: seq<Entry>) {
    && |now| == |log|
    && forall i | 0 <= i < |log| ::
      || now[i] == log[i]
      || (now[i] == Wiped(log[i]) && IsGone(log, log[i]))
      || (now[i] == Wiped(log[i]).(hidden := true) && IsMessage(log[i].kind))
  }

  lemma RewrittenKeeps(log: seq<Entry>, now: seq<Entry>, written: map<ID, Entry>)
    requires KeptWell(log, written) && Rewrites(log, now)
    ensures KeptWell(now, written) && IDs(now) == IDs(log)
  {
    SameNames(log, now);
    forall i | 0 <= i < |log| ensures Copies(now[i], written) && WipedRightly(now, now[i]) {
      assert log[i] in log;
      assert Copies(log[i], written) && WipedRightly(log, log[i]);
      hide IsGone, InOrder, DistinctIDs;
      GoneAlike(log, now, i);
    }
  }

  /** Of two logs, the entries at each place have one name, and one moment. */
  ghost predicate AlikeNamed(log: seq<Entry>, now: seq<Entry>) {
    |now| == |log| && forall i | 0 <= i < |log| :: now[i].id == log[i].id && now[i].time == log[i].time
  }

  lemma CoresNamed(log: seq<Entry>, now: seq<Entry>)
    requires SameCores(log, now)
    ensures AlikeNamed(log, now)
  {
    forall i | 0 <= i < |log| ensures now[i].id == log[i].id && now[i].time == log[i].time { assert Core(now[i]) == Core(log[i]); }
  }

  lemma NamedIDs(log: seq<Entry>, now: seq<Entry>)
    requires AlikeNamed(log, now)
    ensures IDs(log) <= IDs(now)
  {
    forall id | id in IDs(log) ensures id in IDs(now) {
      var i :| 0 <= i < |log| && log[i].id == id;
      assert now[i] in now;
    }
  }

  lemma NamedInOrder(log: seq<Entry>, now: seq<Entry>)
    requires AlikeNamed(log, now)
    ensures InOrder(log) ==> InOrder(now)
    ensures DistinctIDs(log) ==> DistinctIDs(now)
  {
  }

  lemma SameNames(log: seq<Entry>, now: seq<Entry>)
    requires SameCores(log, now)
    ensures InOrder(log) ==> InOrder(now)
    ensures DistinctIDs(log) ==> DistinctIDs(now)
    ensures IDs(now) == IDs(log)
  {
    CoresNamed(log, now);
    NamedInOrder(log, now);
    NamedIDs(log, now);
    assert AlikeNamed(now, log);
    hide SameCores, InOrder, DistinctIDs, IDs;
    NamedIDs(now, log);
  }

  lemma WholeStays(log: seq<Entry>, now: seq<Entry>, who: Key, id: ID)
    requires IsWhole(log, who, id) && |now| == |log| && forall i | 0 <= i < |log| && log[i].id == id :: now[i] == log[i]
    ensures IsWhole(now, who, id)
  {
    var e :| e in log && e.id == id && e.author == who && !e.wiped && !e.hidden;
    var i :| 0 <= i < |log| && log[i] == e;
    assert now[i] in now;
  }

  /** Of a log kept well, compaction leaves a log kept well, and what waits as it was. */
  lemma CompactedKeeps(log: seq<Entry>, waiting: set<ID>, written: map<ID, Entry>)
    requires KeptWell(log, written)
    ensures KeptWell(Compacted(log, waiting), written) && IDs(Compacted(log, waiting)) == IDs(log)
    ensures forall who, id | id in waiting && IsWhole(log, who, id) :: IsWhole(Compacted(log, waiting), who, id)
  {
    RewrittenKeeps(log, Compacted(log, waiting), written);
    forall who, id | id in waiting && IsWhole(log, who, id) ensures IsWhole(Compacted(log, waiting), who, id) {
      WholeStays(log, Compacted(log, waiting), who, id);
    }
  }

  lemma PlacedKeeps(log: seq<Entry>, x: Entry, written: map<ID, Entry>)
    requires KeptWell(log, written) && x.id !in IDs(log) && Wrote(written, x.author, x.id) && x == written[x.id] && !x.wiped && !x.hidden
    ensures KeptWell(Placed(log, x), written) && IDs(Placed(log, x)) == IDs(log) + {x.id}
    ensures forall e :: e in Placed(log, x) <==> e in log || e == x
  {
    PlacedInOrder(log, x);
    forall e | e in log ensures WipedRightly(Placed(log, x), e) {
      assert WipedRightly(log, e);
      if IsGone(log, e) { GoneStaysGone(log, Place(log, x), x, e); }
    }
  }

  lemma MoreWritten(log: seq<Entry>, written: map<ID, Entry>, m: Entry)
    requires KeptWell(log, written) && m.id !in written
    ensures KeptWell(log, written[m.id := m]) && m.id !in IDs(log)
  {
  }

  lemma ForgottenKeeps(s: Side, target: ID, written: map<ID, Entry>)
    requires KeptWell(s.log, written) && NotForgotten(s, target).None?
    ensures KeptWell(Forgotten(s, target).log, written) && IDs(Forgotten(s, target).log) == IDs(s.log)
    ensures forall who, id | id != target && IsWhole(s.log, who, id) :: IsWhole(Forgotten(s, target).log, who, id)
  {
    var (log, now) := (s.log, Forgotten(s, target).log);
    var t :| t in log && t.id == target && IsMessage(t.kind);
    assert Rewrites(log, now) by {
      forall i | 0 <= i < |log| && log[i].id == target ensures log[i] == t { }
    }
    RewrittenKeeps(log, now, written);
    forall who, id | id != target && IsWhole(log, who, id) ensures IsWhole(now, who, id) {
      WholeStays(log, now, who, id);
    }
  }
}
