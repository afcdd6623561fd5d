/** The store of one conversation, its tables updated in place.

internal/messages/store.go:146-359 and 434-500. Each method is proved to leave what Mailbox says of its side, and so
all that Conversation and DeliverySafety prove. */
module MessageStore {
  import opened Basics
  import opened Sorting
  import opened Conversation
  import opened Mailbox

  /** t's edits, in order: what compaction gathers of them. */
  ghost function EditsOf(es: seq<Entry>, t: Entry): seq<Entry> {
    if es == [] then []
    else EditsOf(es[..|es| - 1], t) + if Edits(es[|es| - 1], t) then [es[|es| - 1]] else []
  }

  lemma {:induction false} LatestOfEdits(es: seq<Entry>, t: Entry)
    ensures LatestEdit(es, t, false) == if EditsOf(es, t) == [] then None else Some(EditsOf(es, t)[|EditsOf(es, t)| - 1])
    ensures forall e :: e in EditsOf(es, t) <==> e in es && Edits(e, t)
  {
    if es != [] {
      LatestOfEdits(es[..|es| - 1], t);
      assert es == es[..|es| - 1] + [es[|es| - 1]];
    }
  }

  lemma {:induction false} EditsDistinct(es: seq<Entry>, t: Entry)
    requires DistinctIDs(es)
    ensures DistinctIDs(EditsOf(es, t))
  {
    if es != [] {
      EditsDistinct(es[..|es| - 1], t);
      LatestOfEdits(es[..|es| - 1], t);
      assert forall e | e in es[..|es| - 1] :: e.id != es[|es| - 1].id;
      var init := EditsOf(es[..|es| - 1], t);
      assert forall i | 0 <= i < |init| :: init[i] in init;
    }
  }

  /** byID holds every entry of es, by its identifier. */
  ghost predicate Indexes(es: seq<Entry>, byID: map<ID, Entry>) {
    && (forall e | e in es :: e.id in byID && byID[e.id] == e)
    && (forall id | id in byID :: byID[id] in es && byID[id].id == id)
  }

  function Listing(edits: map<ID, seq<Entry>>, id: ID): seq<Entry> { if id in edits then edits[id] else [] }

  /** What compaction gathers of the entries es, about the messages of byID. */
  ghost predicate Gathers(es: seq<Entry>, byID: map<ID, Entry>, edits: map<ID, seq<Entry>>, deleted: set<ID>) {
    forall id | id in byID && IsMessage(byID[id].kind) ::
      Listing(edits, id) == EditsOf(es, byID[id]) && (id in deleted <==> IsDeleted(es, byID[id]))
  }

  method Index(es: seq<Entry>) returns (byID: map<ID, Entry>)
    requires DistinctIDs(es)
    ensures Indexes(es, byID)
  {
    byID := map[];
    for i := 0 to |es|
      invariant Indexes(es[..i], byID)
    {
      assert es[..i + 1] == es[..i] + [es[i]];
      assert forall e | e in es[..i] :: e.id != es[i].id;
      byID := byID[es[i].id := es[i]];
    }
    assert es[..|es|] == es;
  }

  method Gather(es: seq<Entry>, byID: map<ID, Entry>) returns (edits: map<ID, seq<Entry>>, deleted: set<ID>)
    requires forall id | id in byID :: byID[id].id == id
    ensures Gathers(es, byID, edits, deleted)
    // Only what a message's own author made of it is gathered.
    ensures forall id | id in byID && byID[id].kind in {Text, Attaching} ::
      && (id in deleted <==> exists d :: d in es && d.kind == Deleting && d.target == Some(id) && d.author == byID[id].author)
      && (forall e :: e in Listing(edits, id) <==> e in es && e.kind == Editing && e.target == Some(id) && e.author == byID[id].author)
  {
    edits, deleted := map[], {};
    for i := 0 to |es|
      invariant Gathers(es[..i], byID, edits, deleted)
    {
      var e := es[i];
      GatherStep(es[..i], e, byID, edits, deleted);
      assert es[..i + 1] == es[..i] + [e];
      if e.target.Some? && e.target.value in byID {
        var t := byID[e.target.value];
        if IsMessage(t.kind) && t.author == e.author {
          if e.kind == Editing {
            edits := edits[t.id := Listing(edits, t.id) + [e]];
          } else if e.kind == Deleting {
            deleted := deleted + {t.id};
          }
        }
      }
    }
    assert es[..|es|] == es;
    GatheredIs(es, byID, edits, deleted);
  }

  lemma GatheredIs(es: seq<Entry>, byID: map<ID, Entry>, edits: map<ID, seq<Entry>>, deleted: set<ID>)
    requires Gathers(es, byID, edits, deleted) && forall id | id in byID :: byID[id].id == id
    ensures forall id | id in byID && byID[id].kind in {Text, Attaching} ::
      && (id in deleted <==> exists d :: d in es && d.kind == Deleting && d.target == Some(id) && d.author == byID[id].author)
      && (forall e :: e in Listing(edits, id) <==> e in es && e.kind == Editing && e.target == Some(id) && e.author == byID[id].author)
  {
    forall id | id in byID && byID[id].kind in {Text, Attaching}
      ensures id in deleted <==> exists d :: d in es && d.kind == Deleting && d.target == Some(id) && d.author == byID[id].author
      ensures forall e :: e in Listing(edits, id) <==> e in es && e.kind == Editing && e.target == Some(id) && e.author == byID[id].author
    {
      LatestOfEdits(es, byID[id]);
      assert forall d :: Deletes(d, byID[id]) <==> d.kind == Deleting && d.target == Some(id) && d.author == byID[id].author;
      assert forall e :: Edits(e, byID[id]) <==> e.kind == Editing && e.target == Some(id) && e.author == byID[id].author;
      hide Edits, Deletes, EditsOf, LatestEdit;
    }
  }

  lemma EditsStep(es: seq<Entry>, e: Entry, t: Entry)
    ensures EditsOf(es + [e], t) == EditsOf(es, t) + (if Edits(e, t) then [e] else [])
    ensures IsDeleted(es + [e], t) <==> IsDeleted(es, t) || Deletes(e, t)
  {
    assert (es + [e])[..|es|] == es;
  }

  lemma GatherStep(es: seq<Entry>, e: Entry, byID: map<ID, Entry>, edits: map<ID, seq<Entry>>, deleted: set<ID>)
    requires Gathers(es, byID, edits, deleted) && forall id | id in byID :: byID[id].id == id
    ensures (e.target.None? || e.target.value !in byID || !Owns(e, byID[e.target.value]) || !IsMessage(byID[e.target.value].kind)
             || e.kind !in {Editing, Deleting}) ==> Gathers(es + [e], byID, edits, deleted)
    ensures e.target.Some? && e.target.value in byID && Edits(e, byID[e.target.value]) ==>
      Gathers(es + [e], byID, edits[e.target.value := Listing(edits, e.target.value) + [e]], deleted)
    ensures e.target.Some? && e.target.value in byID && Deletes(e, byID[e.target.value]) ==>
      Gathers(es + [e], byID, edits, deleted + {e.target.value})
  {
    hide EditsOf, IsDeleted;
    forall id | id in byID
      ensures EditsOf(es + [e], byID[id]) == EditsOf(es, byID[id]) + (if Edits(e, byID[id]) then [e] else [])
      ensures IsDeleted(es + [e], byID[id]) <==> IsDeleted(es, byID[id]) || Deletes(e, byID[id])
    {
      EditsStep(es, e, byID[id]);
    }
  }

  ghost function Set(es: seq<Entry>): set<Entry> { set e | e in es }

  /** What is gone for the message t's sake: t and its edits, if it was deleted; all but its latest edit, if it was
      edited. */
  ghost function GoneFor(es: seq<Entry>, t: Entry): set<Entry> {
    var edits := EditsOf(es, t);
    if !IsMessage(t.kind) then {}
    else if IsDeleted(es, t) then {t} + Set(edits)
    else if edits != [] then {t} + Set(edits[..|edits| - 1])
    else {}
  }

  ghost function GoneForAny(es: seq<Entry>, ts: set<Entry>): set<Entry> {
    set t, e | t in ts && e in GoneFor(es, t) :: e
  }

  lemma GoneIsForSome(es: seq<Entry>, e: Entry)
    requires DistinctIDs(es)
    ensures e in GoneForAny(es, Set(es)) <==> e in es && IsGone(es, e)
  {
    LatestOfEdits(es, e);
    if e in GoneForAny(es, Set(es)) {
      var t :| t in Set(es) && e in GoneFor(es, t);
      GoneForIsGone(es, t, e);
    }
    if e in es && IsGone(es, e) {
      if IsMessage(e.kind) {
        assert e in Set(es) && e in GoneFor(es, e);
      } else {
        var t :| t in es && Supersedes(es, t, e);
        SupersededIsGone(es, t, e);
        assert t in Set(es);
      }
    }
  }

  lemma SupersededIsGone(es: seq<Entry>, t: Entry, e: Entry)
    requires e in es && Supersedes(es, t, e)
    ensures e in GoneFor(es, t)
  {
    LatestOfEdits(es, t);
    var edits := EditsOf(es, t);
    assert e in edits;
    var i :| 0 <= i < |edits| && edits[i] == e;
    if !IsDeleted(es, t) { assert edits[..|edits| - 1][i] == e; }
  }

  lemma GoneForIsGone(es: seq<Entry>, t: Entry, e: Entry)
    requires DistinctIDs(es) && t in es && e in GoneFor(es, t)
    ensures e in es && IsGone(es, e)
  {
    LatestOfEdits(es, t);
    if e != t {
      var edits := EditsOf(es, t);
      assert e in edits && e.kind == Editing;
      EditsDistinct(es, t);
      assert Supersedes(es, t, e);
    }
  }

  /** Everything gone, gathered by ranging over the messages in any order. */
  method CollectGone(ghost es: seq<Entry>, byID: map<ID, Entry>, edits: map<ID, seq<Entry>>, deleted: set<ID>) returns (gone: seq<Entry>)
    requires DistinctIDs(es) && Indexes(es, byID) && Gathers(es, byID, edits, deleted)
    ensures forall e :: e in Set(gone) <==> e in es && IsGone(es, e)
  {
    gone := [];
    var left := byID.Keys;
    ghost var seen: set<Entry> := {};
    while left != {}
      invariant left <= byID.Keys && seen == set e | e in es && e.id !in left
      invariant Set(gone) == GoneForAny(es, seen)
    {
      var id :| id in left;
      var t := byID[id];
      var more: seq<Entry> := [];
      if !IsMessage(t.kind) {
      } else if id in deleted {
        more := [t] + Listing(edits, id);
      } else if |Listing(edits, id)| > 0 {
        more := [t] + Listing(edits, id)[..|Listing(edits, id)| - 1];
      }
      CollectStep(es, gone, seen, t, more);
      gone := gone + more;
      seen := seen + {t};
      left := left - {id};
    }
    assert seen == Set(es);
    forall e ensures e in Set(gone) <==> e in es && IsGone(es, e) { GoneIsForSome(es, e); }
  }

  lemma CollectStep(es: seq<Entry>, gone: seq<Entry>, seen: set<Entry>, t: Entry, more: seq<Entry>)
    requires Set(gone) == GoneForAny(es, seen)
    requires var edits := EditsOf(es, t);
      more == if !IsMessage(t.kind) then [] else if IsDeleted(es, t) then [t] + edits else if edits != [] then [t] + edits[..|edits| - 1] else []
    ensures Set(gone + more) == GoneForAny(es, seen + {t})
  {
    assert Set(more) == GoneFor(es, t);
    assert Set(gone + more) == Set(gone) + Set(more);
    assert GoneForAny(es, seen + {t}) == GoneForAny(es, seen) + GoneFor(es, t);
  }

  /** log with the row id wiped. */
  function WipeRow(log: seq<Entry>, id: ID): seq<Entry> {
    seq(|log|, i requires 0 <= i < |log| => if log[i].id == id then Wiped(log[i]) else log[i])
  }

  ghost function WipedRows(log: seq<Entry>, outbox: set<ID>, gone: set<Entry>): seq<Entry> {
    seq(|log|, i requires 0 <= i < |log| => if log[i] in gone && !log[i].wiped && log[i].id !in outbox then Wiped(log[i]) else log[i])
  }

  method WipeAll(log: seq<Entry>, outbox: set<ID>, gone: seq<Entry>) returns (now: seq<Entry>)
    requires DistinctIDs(log) && forall e | e in gone :: e in log
    ensures now == WipedRows(log, outbox, Set(gone))
  {
    now := log;
    for k := 0 to |gone|
      invariant now == WipedRows(log, outbox, Set(gone[..k]))
    {
      var e := gone[k];
      assert gone[..k + 1] == gone[..k] + [e];
      assert Set(gone[..k + 1]) == Set(gone[..k]) + {e};
      WipeStep(log, outbox, Set(gone[..k]), e);
      if e.wiped || e.id in outbox { continue; }
      now := WipeRow(now, e.id);
    }
    assert gone[..|gone|] == gone;
  }

  lemma WipeStep(log: seq<Entry>, outbox: set<ID>, gone: set<Entry>, e: Entry)
    requires DistinctIDs(log) && e in log
    ensures WipedRows(log, outbox, gone + {e}) ==
      if e.wiped || e.id in outbox then WipedRows(log, outbox, gone) else WipeRow(WipedRows(log, outbox, gone), e.id)
  {
  }

  class Store {
    const rules: Rules
    const me: Key
    const contact: Key
    /** The rows of the conversation, in its order. */
    var log: seq<Entry>
    var outbox: set<ID>
    /** The identifiers the table has in other conversations. */
    var elsewhere: set<ID>

    function Side(): Side
      reads this
    {
      Mailbox.Side(me, contact, log, outbox)
    }

    /** What the tables' keys keep. */
    ghost predicate Valid()
      reads this
    {
      KeysHold(log) && IDs(log) !! elsewhere
    }

    /** The rows come by their clocks; of equal clocks, by their identifiers. */
    lemma RowsInOrder()
      requires Valid()
      ensures forall i, j | 0 <= i < j < |log| ::
        || log[i].time.wall < log[j].time.wall
        || (log[i].time.wall == log[j].time.wall && log[i].time.counter < log[j].time.counter)
        || (log[i].time.wall == log[j].time.wall && log[i].time.counter == log[j].time.counter && log[i].id < log[j].id)
    {
      OrderIs(log);
      hide InOrder, Before;
    }

    constructor (rules: Rules, me: Key, contact: Key, elsewhere: set<ID>)
      ensures Valid() && Side() == Mailbox.Side(me, contact, [], {}) && this.rules == rules && this.elsewhere == elsewhere
    {
      this.rules, this.me, this.contact, this.elsewhere, log, outbox := rules, me, contact, elsewhere, [], {};
    }

    method Compact()
      requires Valid()
      modifies this`log
      ensures Valid() && Side() == CompactedSide(old(Side()))
    {
      var es := log;
      var byID := Index(es);
      var edits, deleted := Gather(es, byID);
      var gone := CollectGone(es, byID, edits, deleted);
      assert forall e | e in gone :: e in Set(gone);
      log := WipeAll(log, outbox, gone);
      assert log == Compacted(es, outbox);
      KeysStay(es, log);
    }

    /** Stores an entry whose identifier, and whose number, nothing has. */
    method Insert(m: Entry)
      requires Valid() && m.id !in IDs(log) && m.id !in elsewhere && m.sequence > 0 && !Takes(log, m.author, m.sequence)
      modifies this`log
      ensures Valid() && log == Placed(old(log), m)
    {
      IDsPlaced(log, m);
      KeysStayPlaced(log, m);
      log := PutIn(log, m);
    }

    /** Stores such an entry of this peer's, and queues it. */
    method Queue(m: Entry)
      requires Valid() && m.id !in IDs(log) && m.id !in elsewhere && m.sequence > 0 && !Takes(log, m.author, m.sequence)
      modifies this`log, this`outbox
      ensures Valid() && Side() == Added(old(Side()), m)
    {
      hide Takes, Placed, KeysHold, IDs, Compacted;
      Insert(m);
      outbox := outbox + {m.id};
      Compact();
    }

    /** Why an entry is not this peer's to write, if it is not. */
    method NotWritten(m: Entry) returns (refused: Option<Refusal>)
      ensures refused == NotAdded(rules, Side(), m)
    {
      refused := None;
      if !Allowed(rules, m) { refused := Some(Invalid); }
      else if m.target.Some? { refused := Targets(log, me, m.target.value, m.kind); }
    }

    /** Writes an entry of this peer's, given an identifier nothing has: numbers it, stores it, and queues it. */
    method Add(m: Entry) returns (refused: Option<Refusal>, entry: Entry)
      requires Valid() && m.id !in IDs(log) && m.id !in elsewhere
      modifies this`log, this`outbox
      ensures Valid() && refused == NotAdded(rules, old(Side()), m)
      ensures refused.Some? ==> Side() == old(Side())
      ensures refused.None? ==>
        && entry.sequence > 0 && IsLast(old(log), me, entry.sequence - 1)
        && entry == m.(author := me, sequence := entry.sequence)
        && Side() == Added(old(Side()), entry)
      ensures forall i, j | 0 <= i < j < |log| ::
        || log[i].time.wall < log[j].time.wall
        || (log[i].time.wall == log[j].time.wall && log[i].time.counter < log[j].time.counter)
        || (log[i].time.wall == log[j].time.wall && log[i].time.counter == log[j].time.counter && log[i].id < log[j].id)
    {
      hide *;
      entry := m;
      refused := NotWritten(m);
      if refused.Some? {
        RowsInOrder();
        return;
      }
      var last := LastNumber(log, me);
      NextIsFree(log, me, last);
      entry := m.(author := me, sequence := last + 1);
      Queue(entry);
      RowsInOrder();
    }

    /** Stores the contact's entry, unless it is held, or is one the protocol or the tables refuse. */
    method Receive(m: Entry) returns (how: Reception)
      requires Valid()
      modifies this`log
      ensures Valid() && how == ReceivedHow(rules, old(Side()), elsewhere, m)
      ensures Side() == if how == Kept then Received(old(Side()), m) else old(Side())
      ensures forall i, j | 0 <= i < j < |log| ::
        || log[i].time.wall < log[j].time.wall
        || (log[i].time.wall == log[j].time.wall && log[i].time.counter < log[j].time.counter)
        || (log[i].time.wall == log[j].time.wall && log[i].time.counter == log[j].time.counter && log[i].id < log[j].id)
    {
      RowsInOrder();
      if !Allowed(rules, m) { return Refused; }
      var held := HolderOf(log, contact, m.sequence);
      if held.Some? { return if held.value == m.id then Held else Refused; }
      var named := HasID(log, m.id);
      if m.sequence == 0 || named || m.id in elsewhere { return Refused; }
      var stored := AsReceived(Side(), m);
      Insert(stored);
      if m.kind == Editing || m.kind == Deleting { Compact(); }
      RowsInOrder();
      return Kept;
    }

    /** How far the contact's entries are held here, with every one before. */
    method Holding() returns (holding: nat)
      requires Valid()
      ensures Holds(log, contact, holding)
    {
      var numbers := NumbersOf(log, contact);
      numbers := Sort(numbers);
      holding := 0;
      for k := 0 to |numbers|
        invariant holding == k && forall j | 0 <= j < k :: numbers[j] == j + 1
      {
        assert numbers[k] in Listed(numbers);
        if numbers[k] != holding + 1 { break; }
        holding := numbers[k];
      }
      HoldsSoFar(log, contact, numbers, holding);
    }

    /** What the contact, who holds up to n, is missing: this peer's entries after it, in the order of their numbers. */
    method After(n: nat) returns (missing: seq<Entry>)
      requires Valid()
      ensures Set(missing) == Mailbox.After(Side(), n)
      ensures forall i, j | 0 <= i < j < |missing| :: missing[i].sequence < missing[j].sequence
    {
      missing := [];
      for i := 0 to |log|
        invariant Set(missing) == Mailbox.After(Mailbox.Side(me, contact, log[..i], outbox), n)
        invariant Numbered(missing)
      {
        assert log[..i + 1] == log[..i] + [log[i]];
        var e := log[i];
        if e.author == me && e.sequence > n {
          forall x | x in missing ensures x.sequence != e.sequence {
            assert x in Set(missing) && x in log[..i] && x.author == me;
          }
          missing := InsertNumbered(missing, e);
        }
      }
      assert log[..|log|] == log;
    }

    method Acknowledged(ids: seq<ID>)
      requires Valid()
      modifies this`log, this`outbox
      ensures Valid() && Side() == Mailbox.Acknowledged(old(Side()), set id | id in ids)
    {
      for k := 0 to |ids|
        invariant log == old(log) && outbox == old(outbox) - (set id | id in ids[..k])
      {
        assert ids[..k + 1] == ids[..k] + [ids[k]];
        outbox := outbox - {ids[k]};
      }
      assert ids[..|ids|] == ids;
      Compact();
    }

    method HeldUpTo(n: nat)
      requires Valid()
      modifies this`log, this`outbox
      ensures Valid() && Side() == Mailbox.HeldUpTo(old(Side()), n)
    {
      for i := 0 to |log|
        invariant log == old(log) && outbox == old(outbox) - OwnUpTo(Mailbox.Side(me, contact, log[..i], {}), n)
      {
        assert log[..i + 1] == log[..i] + [log[i]];
        if log[i].author == me && log[i].sequence <= n { outbox := outbox - {log[i].id}; }
      }
      assert log[..|log|] == log;
      Compact();
    }

    /** Deletes a message on this machine alone. */
    method Forget(target: ID) returns (refused: Option<Refusal>)
      requires Valid()
      modifies this`log
      ensures Valid() && refused == NotForgotten(old(Side()), target)
      ensures Side() == if refused.None? then Forgotten(old(Side()), target) else old(Side())
    {
      var i := 0;
      while i < |log| && !(log[i].id == target && IsMessage(log[i].kind))
        invariant 0 <= i <= |log| && forall j | 0 <= j < i :: !(log[j].id == target && IsMessage(log[j].kind))
      {
        i := i + 1;
      }
      if i == |log| { return Some(NoTarget); }
      if target in outbox { return Some(NotDelivered); }
      log := log[i := Wiped(log[i].(hidden := true))];
      KeysStay(old(log), log);
      return None;
    }
  }

  // ---- The queries ----

  /** No two rows of log have an identifier, or a number in an author's sequence, and no number is zero. */
  ghost predicate KeysHold(log: seq<Entry>) {
    DistinctIDs(log) && InOrder(log) && HaveNumbers(log)
  }

  ghost predicate HaveNumbers(log: seq<Entry>) {
    && (forall i, j | 0 <= i < j < |log| && log[i].author == log[j].author :: log[i].sequence != log[j].sequence)
    && (forall i | 0 <= i < |log| :: log[i].sequence > 0)
  }

  lemma SameIDs(es: seq<Entry>, now: seq<Entry>)
    requires SameCores(es, now)
    ensures IDs(now) == IDs(es)
  {
    assert forall i | 0 <= i < |es| :: es[i] in es && now[i] in now && Core(now[i]) == Core(es[i]) && now[i].id == es[i].id;
    hide SameCores, Core;
  }

  lemma KeysStay(es: seq<Entry>, now: seq<Entry>)
    requires KeysHold(es) && SameCores(es, now)
    ensures KeysHold(now) && IDs(now) == IDs(es)
  {
    SameIDs(es, now);
    assert forall i | 0 <= i < |es| ::
      Core(now[i]) == Core(es[i]) && now[i].id == es[i].id && now[i].time == es[i].time && now[i].author == es[i].author && now[i].sequence == es[i].sequence;
    hide SameCores, Core;
  }

  lemma IDsPlaced(log: seq<Entry>, x: Entry)
    requires KeysHold(log) && x.id !in IDs(log)
    ensures IDs(Placed(log, x)) == IDs(log) + {x.id}
  {
    PlacedInOrder(log, x);
    hide *;
  }

  lemma NumbersStay(log: seq<Entry>, k: nat, x: Entry)
    requires k <= |log| && x.sequence > 0 && HaveNumbers(log)
    requires forall i | 0 <= i < |log| && log[i].author == x.author :: log[i].sequence != x.sequence
    ensures HaveNumbers(log[..k] + [x] + log[k..])
  {
  }

  lemma KeysStayPlaced(log: seq<Entry>, x: Entry)
    requires KeysHold(log) && x.id !in IDs(log) && x.sequence > 0 && !Takes(log, x.author, x.sequence)
    ensures KeysHold(Placed(log, x))
  {
    PlacedInOrder(log, x);
    assert forall i | 0 <= i < |log| && log[i].author == x.author :: log[i] in log && log[i].sequence != x.sequence;
    NumbersStay(log, Place(log, x), x);
    hide InOrder, DistinctIDs, Place, HaveNumbers;
  }

  /** What comes of receiving m, when the identifiers elsewhere are taken by other conversations. */
  ghost function ReceivedHow(rules: Rules, s: Side, elsewhere: set<ID>, m: Entry): Reception {
    if Judged(rules, s, m) == Kept && m.id in elsewhere then Refused else Judged(rules, s, m)
  }

  /** log, with m put where it belongs. */
  method PutIn(log: seq<Entry>, m: Entry) returns (now: seq<Entry>)
    ensures now == Placed(log, m)
  {
    var k := 0;
    while k < |log| && Before(log[k], m)
      invariant 0 <= k <= |log| && Place(log, m) == k + Place(log[k..], m)
    {
      assert log[k..][1..] == log[k + 1..];
      k := k + 1;
    }
    now := log[..k] + [m] + log[k..];
  }

  /** Why an entry of kind about target is not me's to write, if it is not. */
  method Targets(log: seq<Entry>, me: Key, target: ID, kind: Kind) returns (refused: Option<Refusal>)
    ensures forall contact, outbox :: refused == NotTargeted(Mailbox.Side(me, contact, log, outbox), target, kind)
  {
    var t: Option<Entry> := None;
    for i := 0 to |log|
      invariant t == Answered(log[..i], target)
    {
      assert log[..i + 1][..i] == log[..i];
      if log[i].id == target && Visible(log[i]) { t := Some(log[i]); }
    }
    assert log[..|log|] == log;
    if t.None? { return Some(NoTarget); }
    var deleted := 0;
    for i := 0 to |log|
      invariant deleted > 0 <==> IsDeleted(log[..i], t.value)
    {
      assert log[..i + 1] == log[..i] + [log[i]];
      if Deletes(log[i], t.value) { deleted := deleted + 1; }
    }
    if deleted > 0 || (kind == Editing && t.value.kind != Text) { return Some(NoTarget); }
    if (kind == Editing || kind == Deleting) && t.value.author != me { return Some(NotYours); }
    return None;
  }

  method LastNumber(log: seq<Entry>, who: Key) returns (last: nat)
    ensures IsLast(log, who, last)
  {
    last := 0;
    for i := 0 to |log|
      invariant IsLast(log[..i], who, last)
    {
      assert log[..i + 1] == log[..i] + [log[i]];
      assert log[i] in log[..i + 1];
      if log[i].author == who && log[i].sequence > last { last := log[i].sequence; }
    }
    assert log[..|log|] == log;
  }

  lemma NextIsFree(log: seq<Entry>, who: Key, last: nat)
    requires IsLast(log, who, last)
    ensures !Takes(log, who, last + 1)
  {
  }

  /** The identifier of the entry that has who's number n, if one has. */
  method HolderOf(log: seq<Entry>, who: Key, n: nat) returns (held: Option<ID>)
    requires KeysHold(log)
    ensures held.None? <==> !Takes(log, who, n)
    ensures held.Some? ==> forall e | e in log && e.author == who && e.sequence == n :: e.id == held.value
  {
    for i := 0 to |log|
      invariant !Takes(log[..i], who, n)
    {
      assert log[..i + 1] == log[..i] + [log[i]];
      if log[i].author == who && log[i].sequence == n {
        assert log[i] in log;
        return Some(log[i].id);
      }
    }
    assert log[..|log|] == log;
    return None;
  }

  method HasID(log: seq<Entry>, id: ID) returns (has: bool)
    ensures has <==> id in IDs(log)
  {
    for i := 0 to |log|
      invariant forall j | 0 <= j < i :: log[j].id != id
    {
      if log[i].id == id {
        assert log[i] in log;
        return true;
      }
    }
    return false;
  }

  method NumbersOf(log: seq<Entry>, who: Key) returns (numbers: seq<nat>)
    ensures forall n :: n in Listed(numbers) <==> Takes(log, who, n)
  {
    numbers := [];
    for i := 0 to |log|
      invariant forall n :: n in Listed(numbers) <==> Takes(log[..i], who, n)
    {
      var e := log[i];
      assert log[..i + 1] == log[..i] + [e];
      assert e in log[..i + 1] && forall x :: x in log[..i + 1] <==> x in log[..i] || x == e;
      if e.author == who {
        assert Listed(numbers + [e.sequence]) == Listed(numbers) + {e.sequence};
        numbers := numbers + [e.sequence];
      }
    }
    assert log[..|log|] == log;
  }

  ghost predicate Numbered(q: seq<Entry>) {
    forall i, j | 0 <= i < j < |q| :: q[i].sequence < q[j].sequence
  }

  method InsertNumbered(q: seq<Entry>, e: Entry) returns (out: seq<Entry>)
    requires Numbered(q) && forall x | x in q :: x.sequence != e.sequence
    ensures Numbered(out) && Set(out) == Set(q) + {e}
  {
    var k := 0;
    while k < |q| && q[k].sequence < e.sequence
      invariant 0 <= k <= |q| && forall j | 0 <= j < k :: q[j].sequence < e.sequence
    {
      k := k + 1;
    }
    out := q[..k] + [e] + q[k..];
    assert k < |q| ==> q[k] in q;
    SetInserted(q, k, e);
  }

  lemma SetInserted(q: seq<Entry>, k: nat, e: Entry)
    requires k <= |q|
    ensures Set(q[..k] + [e] + q[k..]) == Set(q) + {e}
  {
    assert q == q[..k] + q[k..];
    assert forall x :: x in q <==> x in q[..k] || x in q[k..];
  }

  lemma HoldsSoFar(log: seq<Entry>, who: Key, numbers: seq<nat>, n: nat)
    requires KeysHold(log) && Ascending(numbers) && forall k :: k in Listed(numbers) <==> Takes(log, who, k)
    requires n <= |numbers| && (forall j | 0 <= j < n :: numbers[j] == j + 1) && (n < |numbers| ==> numbers[n] != n + 1)
    ensures Holds(log, who, n)
  {
    forall k | 1 <= k <= n ensures Takes(log, who, k) { assert numbers[k - 1] in Listed(numbers); }
    if n < |numbers| {
      assert numbers[n] in Listed(numbers);
      var e :| e in log && e.author == who && e.sequence == numbers[n];
      assert e.sequence > 0;
      if n > 0 { assert numbers[n - 1] < numbers[n]; }
    }
    assert forall i | n <= i < |numbers| :: numbers[n] <= numbers[i];
    assert n + 1 !in numbers;
    assert n + 1 !in Listed(numbers);
  }
}
