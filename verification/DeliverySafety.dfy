/** That every run of two peers loses nothing (ADR 0010, ADR 0011), and that they come to show the same. */
module DeliverySafety {
  import opened Basics
  import opened Sorting
  import opened Conversation
  import opened Mailbox
  import opened Wire
  import opened Delivery

  // ---- What a step of one peer keeps ----

  /** now is written with more of who's entries. */
  ghost predicate Extends(written: map<ID, Entry>, now: map<ID, Entry>, who: Key) {
    && (forall id | id in written :: id in now && now[id] == written[id])
    && (forall id | id in now && id !in written :: now[id].author == who)
  }

  ghost predicate StepOfA(w: World, now: World) {
    && now.b == w.b && now.ba == w.ba && now.a.me == w.a.me && now.a.contact == w.a.contact
    && Extends(w.written, now.written, w.a.me) && IDs(w.a.log) <= IDs(now.a.log)
  }

  /** What is kept of b, when a takes a step that says it holds no more than it does. */
  lemma OtherHalfKept(r: Rules, w: World, now: World)
    requires Half(r, Swap(w)) && StepOfA(w, now) && w.a.me != w.b.me
    requires forall id | Ack(id) in now.ab :: id in IDs(now.a.log)
    requires forall n | Holding(n) in now.ab :: HoldsUpTo(w.b.me, now.a.log, now.written, n)
    ensures Half(r, Swap(now))
  {
    var b := w.b.me;
    assert forall id :: Wrote(now.written, b, id) <==> Wrote(w.written, b, id);
    forall x, k: nat | Wrote(now.written, b, x) && 1 <= k <= now.written[x].sequence ensures NumberTaken(now.written, b, k) {
      assert NumberTaken(w.written, b, k);
    }
    assert NumberedWell(w.b.log, b, now.written);
    assert WaitsWell(w.b, now.a, now.written);
    forall d | Message(d) in w.ba ensures SentMessage(b, now.a.log, now.written, d) {
      assert SentMessage(b, w.a.log, w.written, d);
    }
  }

  /** What is kept of a, from what its step leaves. */
  lemma FirstHalfKept(r: Rules, w: World, now: World)
    requires Half(r, w) && StepOfA(w, now)
    requires KeptWell(now.a.log, now.written) && NumberedWell(now.a.log, w.a.me, now.written)
    requires WaitsWell(now.a, w.b, now.written)
    requires forall d | Message(d) in now.ab :: SentMessage(w.a.me, w.b.log, now.written, d)
    ensures Half(r, now)
  {
    forall n | Holding(n) in w.ba ensures HoldsUpTo(w.a.me, w.b.log, now.written, n) {
      assert HoldsUpTo(w.a.me, w.b.log, w.written, n);
      HoldsMore(w.a.me, w.b.log, w.b.log, w.written, now.written, n);
    }
  }

  lemma HoldsMore(who: Key, log: seq<Entry>, more: seq<Entry>, written: map<ID, Entry>, now: map<ID, Entry>, n: nat)
    requires HoldsUpTo(who, log, written, n) && IDs(log) <= IDs(more)
    requires forall id | id in written :: id in now && now[id] == written[id]
    ensures HoldsUpTo(who, more, now, n)
  {
    forall k: nat | 1 <= k <= n ensures HoldsNumber(who, more, now, k) {
      assert HoldsNumber(who, log, written, k);
    }
  }

  lemma SentMore(who: Key, log: seq<Entry>, written: map<ID, Entry>, now: map<ID, Entry>, d: Direct)
    requires SentMessage(who, log, written, d)
    requires forall id | id in written :: id in now && now[id] == written[id]
    ensures SentMessage(who, log, now, d)
  {
  }

  /** Storing more, and numbering nothing anew, keeps the numbers. */
  lemma NumbersStay(log: seq<Entry>, more: seq<Entry>, who: Key, written: map<ID, Entry>)
    requires NumberedWell(log, who, written) && IDs(log) <= IDs(more)
    ensures NumberedWell(more, who, written)
  {
  }

  // ---- Each step ----

  lemma WaitsStill(a: Side, b: Side, now: Side, written: map<ID, Entry>)
    requires WaitsWell(a, b, written) && now.me == a.me && now.outbox <= a.outbox
    requires forall id | id in now.outbox && IsWhole(a.log, a.me, id) :: IsWhole(now.log, a.me, id)
    requires forall id | id in a.outbox - now.outbox :: id in IDs(b.log)
    ensures WaitsWell(now, b, written)
  {
  }

  /** A step that changes only a's side, to one whose log and outbox are well, keeps everything. */
  lemma SideStepKeeps(r: Rules, w: World, a: Side)
    requires Invariant(r, w) && a.me == w.a.me && a.contact == w.a.contact && IDs(w.a.log) <= IDs(a.log)
    requires KeptWell(a.log, w.written) && WaitsWell(a, w.b, w.written)
    ensures Invariant(r, w.(a := a))
  {
    var now := w.(a := a);
    NumbersStay(w.a.log, a.log, w.a.me, w.written);
    hide KeptWell, NumberedWell, SentMessage, HoldsUpTo, WaitsWell;
    FirstHalfKept(r, w, now);
    forall n | Holding(n) in w.ab ensures HoldsUpTo(w.b.me, a.log, w.written, n) {
      assert HoldsUpTo(w.b.me, w.a.log, w.written, n);
      HoldsMore(w.b.me, w.a.log, a.log, w.written, w.written, n);
    }
    OtherHalfKept(r, w, now);
  }

  /** Taking out of the outbox what the other side stored, and compacting, keeps everything. */
  lemma DeliveredKeeps(r: Rules, w: World, gone: set<ID>)
    requires Invariant(r, w) && forall id | id in gone && id in w.a.outbox :: id in IDs(w.b.log)
    ensures Invariant(r, w.(a := CompactedSide(w.a.(outbox := w.a.outbox - gone))))
  {
    var a := CompactedSide(w.a.(outbox := w.a.outbox - gone));
    CompactedKeeps(w.a.log, w.a.outbox - gone, w.written);
    WaitsStill(w.a, w.b, a, w.written);
    SideStepKeeps(r, w, a);
  }

  /** Sending what is written, or saying what is held, keeps everything. */
  lemma SendingKeeps(r: Rules, w: World, packets: set<Packet>)
    requires Invariant(r, w)
    requires forall d | Message(d) in packets :: SentMessage(w.a.me, w.b.log, w.written, d)
    requires forall id | Ack(id) in packets :: id in IDs(w.a.log)
    requires forall n | Holding(n) in packets :: HoldsUpTo(w.b.me, w.a.log, w.written, n)
    ensures Invariant(r, w.(ab := w.ab + packets))
  {
    var now := w.(ab := w.ab + packets);
    hide KeptWell, NumberedWell, SentMessage, HoldsUpTo, WaitsWell;
    FirstHalfKept(r, w, now);
    OtherHalfKept(r, w, now);
  }

  /** What a holds of its own is what it wrote; sent again, it is as written, or the other side stored it. */
  lemma OwnIsSentWell(r: Rules, w: World, e: Entry)
    requires Invariant(r, w) && e in w.a.log && e.author == w.a.me
    ensures SentMessage(w.a.me, w.b.log, w.written, ToWire(e))
  {
    OwnWaitsOrIsStored(r, w, e);
    hide Invariant, ToWire, WipedRightly, IDs;
    CopySentWell(w.a.me, w.b.log, w.written, w.a.log, e);
  }

  lemma OwnWaitsOrIsStored(r: Rules, w: World, e: Entry)
    requires Invariant(r, w) && e in w.a.log && e.author == w.a.me
    ensures Copies(e, w.written) && WipedRightly(w.a.log, e) && Wrote(w.written, w.a.me, e.id) && !w.written[e.id].wiped
    ensures e.wiped ==> e.id in IDs(w.b.log)
  {
    assert Copies(e, w.written) && WipedRightly(w.a.log, e);
    assert Wrote(w.written, w.a.me, e.id);
    hide WipedRightly, NumberedWell, HoldsUpTo, SentMessage;
    if e.id in w.a.outbox {
      var x :| x in w.a.log && x.id == e.id && !x.wiped;
      assert x == e;
    }
  }

  lemma CopySentWell(who: Key, stored: seq<Entry>, written: map<ID, Entry>, log: seq<Entry>, e: Entry)
    requires Copies(e, written) && WipedRightly(log, e) && Wrote(written, who, e.id) && !written[e.id].wiped && (e.wiped ==> e.id in IDs(stored))
    ensures SentMessage(who, stored, written, ToWire(e))
  {
    hide IsGone, IDs;
    if e.wiped { GoneWipes(log, e); }
  }

  lemma GoneWipes(log: seq<Entry>, e: Entry)
    requires WipedRightly(log, e) && e.wiped
    ensures Wipes(e.kind)
  {
  }

  lemma ReadyKeeps(r: Rules, w: World, n: nat)
    requires Invariant(r, w) && Holds(w.a.log, w.a.contact, n)
    ensures Invariant(r, w.(ab := w.ab + {Holding(n)}))
  {
    HoldsIsTrue(w, n);
    SendingKeeps(r, w, {Holding(n)});
  }

  lemma HoldsIsTrue(w: World, n: nat)
    requires (forall e | e in w.a.log :: Copies(e, w.written)) && Holds(w.a.log, w.b.me, n)
    ensures HoldsUpTo(w.b.me, w.a.log, w.written, n)
  {
    forall k: nat | 1 <= k <= n ensures HoldsNumber(w.b.me, w.a.log, w.written, k) {
      assert Takes(w.a.log, w.b.me, k);
      var e :| e in w.a.log && e.author == w.b.me && e.sequence == k;
      assert Wrote(w.written, w.b.me, e.id) && e.id in IDs(w.a.log);
    }
  }

  lemma ResendKeeps(r: Rules, w: World, e: Entry)
    requires Invariant(r, w) && e in w.a.log && e.author == w.a.me
    ensures Invariant(r, w.(ab := w.ab + {Message(ToWire(e))}))
  {
    OwnIsSentWell(r, w, e);
    SendingKeeps(r, w, {Message(ToWire(e))});
  }

  lemma OnAckKeeps(r: Rules, w: World, id: ID)
    requires Invariant(r, w) && Ack(id) in w.ba
    ensures Invariant(r, w.(a := Acknowledged(w.a, {id})))
  {
    DeliveredKeeps(r, w, {id});
  }

  lemma OwnUpToIsHeld(r: Rules, w: World, n: nat, id: ID)
    requires Invariant(r, w) && Holding(n) in w.ba && id in OwnUpTo(w.a, n)
    ensures id in IDs(w.b.log)
  {
    var e :| e in w.a.log && e.author == w.a.me && e.sequence <= n && e.id == id;
    assert Copies(e, w.written);
    assert Wrote(w.written, w.a.me, id);
    assert HoldsUpTo(w.a.me, w.b.log, w.written, n);
    assert HoldsNumber(w.a.me, w.b.log, w.written, e.sequence);
  }

  lemma OnHoldingKeeps(r: Rules, w: World, n: nat)
    requires Invariant(r, w) && Holding(n) in w.ba
    ensures var a := HeldUpTo(w.a, n); Invariant(r, w.(a := a, ab := w.ab + Sending(After(a, n))))
  {
    forall id | id in OwnUpTo(w.a, n) ensures id in IDs(w.b.log) { OwnUpToIsHeld(r, w, n, id); }
    DeliveredKeeps(r, w, OwnUpTo(w.a, n));
    var v := w.(a := HeldUpTo(w.a, n));
    assert Invariant(r, v);
    forall d | Message(d) in Sending(After(v.a, n)) ensures SentMessage(v.a.me, v.b.log, v.written, d) {
      var e :| e in After(v.a, n) && d == ToWire(e);
      OwnIsSentWell(r, v, e);
    }
    SendingKeeps(r, v, Sending(After(v.a, n)));
  }

  lemma ForgetKeeps(r: Rules, w: World, target: ID)
    requires Invariant(r, w) && NotForgotten(w.a, target).None?
    ensures Invariant(r, w.(a := Forgotten(w.a, target)))
  {
    var a := Forgotten(w.a, target);
    ForgottenKeeps(w.a, target, w.written);
    WaitsStill(w.a, w.b, a, w.written);
    SideStepKeeps(r, w, a);
  }

  // ---- Receiving ----

  lemma ReadsAllowed(r: Rules, x: Entry, d: Direct)
    requires Shaped(x) && Allowed(r, x) && !x.wiped && !x.hidden && (d == ToWire(x) || (d == ToWire(Wiped(x)) && Wipes(x.kind)))
    ensures FromWire(d).Some? && Allowed(r, FromWire(d).value)
    ensures FromWire(d).value.id == d.id == x.id && FromWire(d).value.kind == x.kind && FromWire(d).value.sequence == x.sequence
    ensures d == ToWire(x) ==> FromWire(d).value == x.(author := 0)
  {
    if d == ToWire(x) { WireRoundTrips(x); } else { WipedRoundTrips(Wiped(x)); }
  }

  lemma ArrivesAt(r: Rules, a: Side, log: seq<Entry>, written: map<ID, Entry>, d: Direct)
    requires SentMessage(a.contact, a.log, written, d) && NumberedWell(log, a.contact, written)
    requires forall e | e in a.log :: Copies(e, written)
    requires forall id | id in written :: written[id].id == id
    requires var x := written[d.id]; Shaped(x) && Allowed(r, x) && !x.wiped && !x.hidden
    ensures FromWire(d).Some? && FromWire(d).value.id == d.id && FromWire(d).value.kind == written[d.id].kind
    ensures Judged(r, a, FromWire(d).value) == if d.id in IDs(a.log) then Held else Kept
    ensures d.id !in IDs(a.log) ==> AsReceived(a, FromWire(d).value) == written[d.id]
  {
    ReadsAllowed(r, written[d.id], d);
    var m := FromWire(d).value;
    hide FromWire, ToWire, Allowed, Judged;
    PlaceIsIts(a.log, log, a.contact, written, d.id);
    if d.id in IDs(a.log) {
      var e :| e in a.log && e.id == d.id;
      assert Copies(e, written);
      JudgedHeld(r, a, m, e);
    } else {
      JudgedKept(r, a, m);
    }
  }

  /** What arrives is held already, or it is whole, allowed, and nothing has its place: it is never refused. */
  lemma ArrivesWell(r: Rules, w: World, d: Direct)
    requires Invariant(r, w) && Message(d) in w.ba
    ensures FromWire(d).Some? && d.id in w.written && FromWire(d).value.id == d.id
    ensures Judged(r, w.a, FromWire(d).value) == if d.id in IDs(w.a.log) then Held else Kept
    ensures d.id !in IDs(w.a.log) ==> AsReceived(w.a, FromWire(d).value) == w.written[d.id]
    ensures FromWire(d).value.kind == w.written[d.id].kind
  {
    hide FromWire, ToWire, Judged, Copies, NumberedWell, WaitsWell, HoldsUpTo, AsReceived;
    assert SentMessage(w.b.me, w.a.log, w.written, d);
    ArrivesAt(r, w.a, w.b.log, w.written, d);
  }

  lemma JudgedHeld(r: Rules, a: Side, m: Entry, e: Entry)
    requires Allowed(r, m) && e in a.log && e.author == a.contact && e.sequence == m.sequence && e.id == m.id
    ensures Judged(r, a, m) == Held
  {
  }

  lemma JudgedKept(r: Rules, a: Side, m: Entry)
    requires Allowed(r, m) && m.id !in IDs(a.log) && m.sequence >= 1
    requires forall e | e in a.log && e.author == a.contact && e.sequence == m.sequence :: e.id == m.id
    ensures Judged(r, a, m) == Kept
  {
  }

  /** Only the entry itself has its number. */
  lemma PlaceIsIts(held: seq<Entry>, log: seq<Entry>, who: Key, written: map<ID, Entry>, id: ID)
    requires NumberedWell(log, who, written) && Wrote(written, who, id) && forall e | e in held :: Copies(e, written)
    requires forall id | id in written :: written[id].id == id
    ensures written[id].sequence >= 1
    ensures forall e | e in held && e.author == who && e.sequence == written[id].sequence :: e.id == id
  {
    forall e | e in held && e.author == who && e.sequence == written[id].sequence ensures e.id == id {
      assert Copies(e, written);
      assert Wrote(written, who, e.id);
    }
  }

  lemma StoredLogKept(a: Side, m: Entry, written: map<ID, Entry>)
    requires KeptWell(a.log, written) && m.id in written && m.id !in IDs(a.log)
    requires AsReceived(a, m) == written[m.id] && !written[m.id].wiped
    ensures KeptWell(Received(a, m).log, written) && IDs(Received(a, m).log) == IDs(a.log) + {m.id}
    ensures forall id | id in a.outbox && IsWhole(a.log, a.me, id) :: IsWhole(Received(a, m).log, a.me, id)
  {
    var x := written[m.id];
    var placed := Placed(a.log, x);
    PlacedKeeps(a.log, x, written);
    CompactedKeeps(placed, a.outbox, written);
    forall id | id in a.outbox && IsWhole(a.log, a.me, id) ensures IsWhole(placed, a.me, id) {
      var e :| e in a.log && e.id == id && e.author == a.me && !e.wiped && !e.hidden;
      assert e in placed;
    }
  }

  /** Storing what arrives keeps everything. */
  lemma StoringKeeps(r: Rules, w: World, m: Entry)
    requires Invariant(r, w) && m.id in w.written && m.id !in IDs(w.a.log)
    requires AsReceived(w.a, m) == w.written[m.id]
    ensures Invariant(r, w.(a := Received(w.a, m))) && m.id in IDs(Received(w.a, m).log)
  {
    StoredLogKept(w.a, m, w.written);
    WaitsStill(w.a, w.b, Received(w.a, m), w.written);
    SideStepKeeps(r, w, Received(w.a, m));
  }

  lemma OnMessageKeeps(r: Rules, w: World, d: Direct)
    requires Invariant(r, w) && Enabled(r, w, OnMessage(d))
    ensures Invariant(r, Next(r, w, OnMessage(d)))
  {
    ArrivesWell(r, w, d);
    assert SentMessage(w.b.me, w.a.log, w.written, d);
    var v := w;
    if d.id !in IDs(w.a.log) {
      StoringKeeps(r, w, FromWire(d).value);
      v := w.(a := Received(w.a, FromWire(d).value));
    }
    hide *;
    SendingAck(r, v, d.id);
    NextOnMessage(r, w, d);
  }

  lemma SendingAck(r: Rules, w: World, id: ID)
    requires Invariant(r, w) && id in IDs(w.a.log)
    ensures Invariant(r, w.(ab := w.ab + {Ack(id)}))
  {
    SendingKeeps(r, w, {Ack(id)});
  }

  lemma NextOnMessage(r: Rules, w: World, d: Direct)
    requires Enabled(r, w, OnMessage(d))
    requires Judged(r, w.a, FromWire(d).value) == if d.id in IDs(w.a.log) then Held else Kept
    ensures Next(r, w, OnMessage(d)) ==
      (if d.id in IDs(w.a.log) then w else w.(a := Received(w.a, FromWire(d).value))).(ab := w.ab + {Ack(d.id)})
  {
  }

  // ---- Writing ----

  /** The next number is nobody's yet, and leaves no gap. */
  lemma NumbersExtend(log: seq<Entry>, more: seq<Entry>, who: Key, written: map<ID, Entry>, m: Entry)
    requires NumberedWell(log, who, written) && (forall e | e in log :: Copies(e, written))
    requires m.id !in written && m.author == who && m.sequence > 0 && IsLast(log, who, m.sequence - 1)
    requires IDs(more) == IDs(log) + {m.id}
    ensures NumberedWell(more, who, written[m.id := m])
  {
    var now := written[m.id := m];
    forall x | Wrote(written, who, x) ensures written[x].sequence < m.sequence {
      var e :| e in log && e.id == x;
    }
    forall x, k: nat | Wrote(now, who, x) && 1 <= k <= now[x].sequence ensures NumberTaken(now, who, k) {
      if k == m.sequence {
        assert Wrote(now, who, m.id);
      } else {
        EarlierTaken(log, who, written, m, k);
        var id :| Wrote(written, who, id) && written[id].sequence == k;
        assert Wrote(now, who, id);
      }
    }
  }

  lemma EarlierTaken(log: seq<Entry>, who: Key, written: map<ID, Entry>, m: Entry, k: nat)
    requires NumberedWell(log, who, written) && forall e | e in log :: Copies(e, written)
    requires 1 <= k < m.sequence && IsLast(log, who, m.sequence - 1)
    ensures NumberTaken(written, who, k)
  {
    var e :| e in log && e.author == who && e.sequence == m.sequence - 1;
    assert Wrote(written, who, e.id) && k <= written[e.id].sequence;
  }

  lemma WrittenStaysWell(r: Rules, w: World, m: Entry, now: World)
    requires WrittenWell(r, w) && Enabled(r, w, Write(m)) && now.written == w.written[m.id := m]
    requires now.a.me == w.a.me && now.b.me == w.b.me && forall e | e in w.a.log :: Copies(e, w.written)
    ensures WrittenWell(r, now)
  {
    if m.kind == Editing {
      var t := Answered(w.a.log, m.target.value).value;
      assert Copies(t, w.written);
    }
  }

  lemma AddedKeepsLog(r: Rules, w: World, m: Entry)
    requires Half(r, w) && Enabled(r, w, Write(m))
    ensures var a := Added(w.a, m);
      && KeptWell(a.log, w.written[m.id := m]) && IDs(a.log) == IDs(w.a.log) + {m.id}
      && forall id | id in a.outbox :: IsWhole(a.log, w.a.me, id)
  {
    var now := w.written[m.id := m];
    MoreWritten(w.a.log, w.written, m);
    PlacedKeeps(w.a.log, m, now);
    var placed := Placed(w.a.log, m);
    CompactedKeeps(placed, w.a.outbox + {m.id}, now);
    forall id | id in w.a.outbox + {m.id} ensures IsWhole(placed, w.a.me, id) {
      if id == m.id {
        assert m in placed;
      } else {
        assert IsWhole(w.a.log, w.a.me, id);
        var e :| e in w.a.log && e.id == id && e.author == w.a.me && !e.wiped && !e.hidden;
        assert e in placed;
      }
    }
  }

  /** What a step that writes m leaves, a its writer's side after. */
  function Written(w: World, a: Side, m: Entry): World {
    w.(a := a, ab := w.ab + {Message(ToWire(m))}, written := w.written[m.id := m])
  }

  ghost predicate WritesTo(w: World, a: Side, m: Entry) {
    && m.id !in w.written && m.author == w.a.me && a.me == w.a.me && a.contact == w.a.contact
    && a.outbox == w.a.outbox + {m.id} && IDs(a.log) == IDs(w.a.log) + {m.id}
    && forall id | id in a.outbox :: IsWhole(a.log, a.me, id)
  }

  lemma WriteFirstHalf(r: Rules, w: World, a: Side, m: Entry)
    requires Half(r, w) && WritesTo(w, a, m)
    requires KeptWell(a.log, w.written[m.id := m]) && NumberedWell(a.log, a.me, w.written[m.id := m])
    ensures Half(r, Written(w, a, m)) && StepOfA(w, Written(w, a, m))
  {
    var now := Written(w, a, m);
    hide KeptWell, NumberedWell, HoldsUpTo, IsWhole;
    forall d | Message(d) in now.ab ensures SentMessage(a.me, w.b.log, now.written, d) {
      if Message(d) in w.ab {
        SentMore(a.me, w.b.log, w.written, now.written, d);
      } else {
        assert d == ToWire(m) && d.id == m.id;
      }
    }
    hide SentMessage, ToWire;
    FirstHalfKept(r, w, now);
  }

  lemma WriteOtherHalf(r: Rules, w: World, a: Side, m: Entry)
    requires Half(r, w) && Half(r, Swap(w)) && WritesTo(w, a, m)
    ensures Half(r, Swap(Written(w, a, m)))
  {
    var now := Written(w, a, m);
    hide KeptWell, NumberedWell, HoldsUpTo, IsWhole, WaitsWell, SentMessage, ToWire;
    forall n | Holding(n) in now.ab ensures HoldsUpTo(w.b.me, a.log, now.written, n) {
      assert HoldsUpTo(w.b.me, w.a.log, w.written, n);
      HoldsMore(w.b.me, w.a.log, a.log, w.written, now.written, n);
    }
    OtherHalfKept(r, w, now);
  }

  lemma WriteKeeps(r: Rules, w: World, m: Entry)
    requires Invariant(r, w) && Enabled(r, w, Write(m))
    ensures Invariant(r, Next(r, w, Write(m)))
  {
    var a := Added(w.a, m);
    AddedKeepsLog(r, w, m);
    NumbersExtend(w.a.log, a.log, w.a.me, w.written, m);
    WrittenStaysWell(r, w, m, Written(w, a, m));
    WriteFirstHalf(r, w, a, m);
    WriteOtherHalf(r, w, a, m);
  }

  // ---- Every run ----

  lemma NextKeeps(r: Rules, w: World, act: Action)
    requires Invariant(r, w) && Enabled(r, w, act)
    ensures Invariant(r, Next(r, w, act))
  {
    hide Invariant;
    match act
    case Write(m) => WriteKeeps(r, w, m);
    case Resend(e) => ResendKeeps(r, w, e);
    case Ready(n) => ReadyKeeps(r, w, n);
    case OnMessage(d) => OnMessageKeeps(r, w, d);
    case OnAck(id) => OnAckKeeps(r, w, id);
    case OnHolding(n) => OnHoldingKeeps(r, w, n);
    case Forget(target) => ForgetKeeps(r, w, target);
  }

  lemma SwapKeeps(r: Rules, w: World)
    ensures Invariant(r, Swap(w)) <==> Invariant(r, w)
  {
  }

  lemma {:induction false} EveryRunKeeps(r: Rules, a: Key, b: Key, moves: seq<Move>)
    requires a != b
    ensures Invariant(r, Run(r, Begun(a, b), moves))
  {
    if moves != [] {
      var init, move := moves[..|moves| - 1], moves[|moves| - 1];
      EveryRunKeeps(r, a, b, init);
      var w := Run(r, Begun(a, b), init);
      hide Invariant;
      match move
      case ByA(act) => if Enabled(r, w, act) { NextKeeps(r, w, act); }
      case ByB(act) =>
        SwapKeeps(r, w);
        if Enabled(r, Swap(w), act) {
          NextKeeps(r, Swap(w), act);
          SwapKeeps(r, Next(r, Swap(w), act));
        }
    }
  }

  // ---- Nothing is lost ----

  /** Whatever the network does, every entry written is either waiting with its author, whole, or stored by the
      other; and each peer's entries are numbered 1, 2, 3 and on, without a gap. */
  lemma NothingIsLost(r: Rules, a: Key, b: Key, moves: seq<Move>, id: ID)
    requires a != b && Wrote(Run(r, Begun(a, b), moves).written, a, id)
    ensures var w := Run(r, Begun(a, b), moves);
      && w.a.me == a && NumberedWell(w.a.log, a, w.written)
      && ((id in w.a.outbox && IsWhole(w.a.log, a, id)) || id in IDs(w.b.log))
  {
    EveryRunKeeps(r, a, b, moves);
    KeysStay(r, a, b, moves);
  }

  lemma KeysMove(r: Rules, w: World, move: Move)
    ensures var v := Moved(r, w, move); v.a.me == w.a.me && v.b.me == w.b.me && v.a.contact == w.a.contact && v.b.contact == w.b.contact
  {
    hide Enabled, Compacted, Judged, ToWire, FromWire, AsReceived;
  }

  lemma {:induction false} KeysStay(r: Rules, a: Key, b: Key, moves: seq<Move>)
    ensures var w := Run(r, Begun(a, b), moves); w.a.me == a && w.b.me == b && w.a.contact == b && w.b.contact == a
  {
    if moves != [] {
      KeysStay(r, a, b, moves[..|moves| - 1]);
      KeysMove(r, Run(r, Begun(a, b), moves[..|moves| - 1]), moves[|moves| - 1]);
      hide Moved;
    }
  }

  /** In any run, what arrives is never refused; it is acknowledged; and when it is stored, what is stored is what
      was written, whole, even where its author has wiped its own since. */
  lemma FirstCopyIsWhole(r: Rules, a: Key, b: Key, moves: seq<Move>, d: Direct)
    requires a != b && Message(d) in Run(r, Begun(a, b), moves).ba
    ensures var w := Run(r, Begun(a, b), moves);
      && Enabled(r, w, OnMessage(d)) && Ack(d.id) in Next(r, w, OnMessage(d)).ab
      && Judged(r, w.a, FromWire(d).value) != Refused
      && (Judged(r, w.a, FromWire(d).value) == Kept ==>
            d.id in w.written && AsReceived(w.a, FromWire(d).value) == w.written[d.id] && !w.written[d.id].wiped)
  {
    EveryRunKeeps(r, a, b, moves);
    ArrivesWell(r, Run(r, Begun(a, b), moves), d);
  }

  // ---- Catching up ----

  ghost predicate OnItsWay(w: World, id: ID) {
    id in w.written && (id in IDs(w.b.log) || Message(ToWire(w.written[id])) in w.ab)
  }

  /** A peer told how far the other holds sends it all it lacks. */
  lemma HoldingCatchesUp(r: Rules, w: World, n: nat, id: ID)
    requires Invariant(r, w) && Holding(n) in w.ba && Wrote(w.written, w.a.me, id)
    ensures OnItsWay(Next(r, w, OnHolding(n)), id)
  {
    OnHoldingKeeps(r, w, n);
    var now := Next(r, w, OnHolding(n));
    assert HoldsUpTo(w.a.me, w.b.log, w.written, n);
    SentAllAfter(r, now, n, id);
  }

  lemma SentAllAfter(r: Rules, w: World, n: nat, id: ID)
    requires Invariant(r, w) && HoldsUpTo(w.a.me, w.b.log, w.written, n) && Sending(After(w.a, n)) <= w.ab
    requires Wrote(w.written, w.a.me, id)
    ensures OnItsWay(w, id)
  {
    hide ToWire, WipedRightly;
    var e :| e in w.a.log && e.id == id;
    assert Copies(e, w.written);
    if e.sequence <= n {
      assert e.sequence >= 1 && HoldsNumber(w.a.me, w.b.log, w.written, e.sequence);
    } else {
      assert e in After(w.a, n) && Message(ToWire(e)) in w.ab;
      WaitingIsAsWritten(w, e);
      if id in w.a.outbox { assert ToWire(e) == ToWire(w.written[id]); }
    }
  }

  lemma WaitingIsAsWritten(w: World, e: Entry)
    requires KeptWell(w.a.log, w.written) && WaitsWell(w.a, w.b, w.written) && e in w.a.log
    ensures e.id in w.a.outbox ==> e == w.written[e.id]
  {
    if e.id in w.a.outbox {
      var x :| x in w.a.log && x.id == e.id && !x.wiped;
      assert x == e && Copies(e, w.written);
    }
  }

  /** What is stored, sent and written is never taken back. */
  ghost predicate Grows(w: World, now: World) {
    && IDs(w.a.log) <= IDs(now.a.log) && IDs(w.b.log) <= IDs(now.b.log) && w.ab <= now.ab && w.ba <= now.ba
    && forall id | id in w.written :: id in now.written && now.written[id] == w.written[id]
  }

  lemma NextGrows(r: Rules, w: World, act: Action)
    requires Invariant(r, w) && Enabled(r, w, act)
    ensures Grows(w, Next(r, w, act))
  {
    if act.OnMessage? { MessageGrows(r, w, act.d); } else { OtherGrows(r, w, act); }
  }

  lemma OtherGrows(r: Rules, w: World, act: Action)
    requires Invariant(r, w) && Enabled(r, w, act) && !act.OnMessage?
    ensures Grows(w, Next(r, w, act))
  {
    assert KeptWell(w.a.log, w.written);
    match act
    case Write(m) => AddedKeepsLog(r, w, m);
    case OnAck(id) => CompactedKeeps(w.a.log, w.a.outbox - {id}, w.written);
    case OnHolding(n) => CompactedKeeps(w.a.log, w.a.outbox - OwnUpTo(w.a, n), w.written);
    case Forget(target) => ForgottenKeeps(w.a, target, w.written);
    case _ =>
  }

  lemma WrittenWhole(r: Rules, w: World)
    requires Invariant(r, w)
    ensures KeptWell(w.a.log, w.written) && forall id | id in w.written :: !w.written[id].wiped
  {
  }

  lemma MessageGrows(r: Rules, w: World, d: Direct)
    requires Invariant(r, w) && Enabled(r, w, OnMessage(d))
    ensures Grows(w, Next(r, w, OnMessage(d)))
  {
    hide Next, Received, FromWire, AsReceived, Invariant, KeptWell, Judged;
    ArrivesWell(r, w, d);
    NextOnMessage(r, w, d);
    WrittenWhole(r, w);
    if d.id !in IDs(w.a.log) { StoredLogKept(w.a, FromWire(d).value, w.written); }
  }

  lemma MovedGrows(r: Rules, w: World, move: Move)
    requires Invariant(r, w)
    ensures Invariant(r, Moved(r, w, move)) && Grows(w, Moved(r, w, move))
  {
    SwapKeeps(r, w);
    hide Invariant;
    match move
    case ByA(act) => if Enabled(r, w, act) { NextKeeps(r, w, act); NextGrows(r, w, act); }
    case ByB(act) =>
      if Enabled(r, Swap(w), act) {
        NextKeeps(r, Swap(w), act);
        NextGrows(r, Swap(w), act);
        SwapKeeps(r, Next(r, Swap(w), act));
      }
  }

  /** Once everything then on its way to the other has arrived, in any order and among anything else, the other
      holds every entry that was written. */
  lemma {:induction false} ArrivalsComplete(r: Rules, w: World, more: seq<Move>, id: ID)
    requires Invariant(r, w) && OnItsWay(w, id) && w.written[id].id == id
    requires ByB(OnMessage(ToWire(w.written[id]))) in more
    ensures id in IDs(Run(r, w, more).b.log)
  {
    var init, move := more[..|more| - 1], more[|more| - 1];
    var (v, arrival) := (Run(r, w, init), ByB(OnMessage(ToWire(w.written[id]))));
    LastOrBefore(more, arrival);
    assert Run(r, w, more) == Moved(r, v, move);
    hide Run, Moved, Invariant, IDs, ToWire, OnItsWay;
    RunGrows(r, w, init);
    MovedGrows(r, v, move);
    if arrival in init {
      ArrivalsComplete(r, w, init, id);
    } else {
      OneArrives(r, w, v, id);
    }
  }

  lemma LastOrBefore(moves: seq<Move>, move: Move)
    requires move in moves
    ensures move in moves[..|moves| - 1] || moves[|moves| - 1] == move
  {
    assert moves == moves[..|moves| - 1] + [moves[|moves| - 1]];
  }

  lemma OneArrives(r: Rules, w: World, v: World, id: ID)
    requires Invariant(r, v) && Grows(w, v) && OnItsWay(w, id) && w.written[id].id == id
    ensures id in IDs(Moved(r, v, ByB(OnMessage(ToWire(w.written[id])))).b.log)
  {
    var d := ToWire(w.written[id]);
    SwapKeeps(r, v);
    hide Invariant, IDs, Next, ToWire;
    if Message(d) in v.ab {
      ArrivalStores(r, Swap(v), d);
    } else {
      assert id in IDs(v.b.log);
    }
  }

  lemma ArrivalStores(r: Rules, w: World, d: Direct)
    requires Invariant(r, w) && Message(d) in w.ba
    ensures Enabled(r, w, OnMessage(d)) && d.id in IDs(Next(r, w, OnMessage(d)).a.log)
  {
    ArrivesWell(r, w, d);
    if d.id !in IDs(w.a.log) { StoringKeeps(r, w, FromWire(d).value); }
    NextOnMessage(r, w, d);
  }

  lemma {:induction false} RunGrows(r: Rules, w: World, more: seq<Move>)
    requires Invariant(r, w)
    ensures Invariant(r, Run(r, w, more)) && Grows(w, Run(r, w, more))
  {
    if more != [] {
      RunGrows(r, w, more[..|more| - 1]);
      MovedGrows(r, Run(r, w, more[..|more| - 1]), more[|more| - 1]);
    }
  }

  // ---- Both show the same ----

  /** log as its entries were written. */
  ghost function Restored(log: seq<Entry>, written: map<ID, Entry>): seq<Entry> {
    seq(|log|, i requires 0 <= i < |log| => if log[i].id in written then written[log[i].id].(hidden := log[i].hidden) else log[i])
  }

  /** What a peer shows, it shows of the whole entries: nothing it, or the other, wiped, whenever it did. */
  lemma ShowsTheWhole(r: Rules, w: World, me: Key)
    requires Invariant(r, w)
    ensures View(w.a.log, me) == View(Restored(w.a.log, w.written), me)
  {
    var (log, es) := (w.a.log, Restored(w.a.log, w.written));
    assert KeptWell(log, w.written) && WrittenWell(r, w);
    hide Half, View;
    SameCoresRestored(log, w.written);
    SameNames(log, es);
    RestoredKeeps(log, w.written);
    forall t | t in es ensures !IsEditedFile(es, t) { EditsAreOfTexts(r, w, t); }
    hide KeptWell, WrittenWell, KeepsWhatShows, IsEditedFile, Restored;
    WipingNeverShows(es, log, me);
  }

  lemma SameCoresRestored(log: seq<Entry>, written: map<ID, Entry>)
    requires forall e | e in log :: Copies(e, written)
    requires forall id | id in written :: written[id].id == id
    ensures SameCores(log, Restored(log, written))
  {
    forall i | 0 <= i < |log| ensures Core(Restored(log, written)[i]) == Core(log[i]) {
      assert log[i] in log && Copies(log[i], written);
    }
  }

  lemma RestoredKeeps(log: seq<Entry>, written: map<ID, Entry>)
    requires forall e | e in log :: Copies(e, written)
    requires forall e | e in log :: WipedRightly(log, e)
    requires forall id | id in written :: written[id].id == id && !written[id].wiped && !written[id].hidden
    ensures var es := Restored(log, written); KeepsWhatShows(es, log) && Whole(es) && HidesMessages(es)
  {
    var es := Restored(log, written);
    SameCoresRestored(log, written);
    forall i | 0 <= i < |log|
      ensures log[i] == es[i] || (log[i] == Wiped(es[i]) && (IsGone(es, es[i]) || es[i].hidden))
      ensures !es[i].wiped && (es[i].hidden ==> IsMessage(es[i].kind))
    {
      assert log[i] in log && Copies(log[i], written) && WipedRightly(log, log[i]);
      hide IsGone;
      GoneAlike(es, log, i);
    }
  }

  lemma RestoredIs(log: seq<Entry>, written: map<ID, Entry>, e: Entry)
    requires (forall e | e in log :: Copies(e, written)) && e in Restored(log, written)
    requires forall id | id in written :: written[id].id == id
    ensures e.id in written && e == written[e.id].(hidden := e.hidden)
  {
    var i :| 0 <= i < |log| && Restored(log, written)[i] == e;
    assert log[i] in log && Copies(log[i], written);
  }

  lemma EditsAreOfTexts(r: Rules, w: World, t: Entry)
    requires WrittenWell(r, w) && forall e | e in w.a.log :: Copies(e, w.written)
    requires t in Restored(w.a.log, w.written)
    ensures !IsEditedFile(Restored(w.a.log, w.written), t)
  {
    var es := Restored(w.a.log, w.written);
    if LatestEdit(es, t, false).Some? {
      var e := LatestEdit(es, t, false).value;
      RestoredIs(w.a.log, w.written, e);
      RestoredIs(w.a.log, w.written, t);
      assert w.written[e.id].kind == Editing && w.written[t.id].kind == Text;
    }
  }

  /** When both hold the same entries, and neither hid any, both show the same, word for word, whenever and however
      often each of them compacted, and in whatever order the entries came. */
  lemma PeersShowAlike(r: Rules, a: Key, b: Key, moves: seq<Move>, me: Key)
    requires a != b
    requires var w := Run(r, Begun(a, b), moves);
      IDs(w.a.log) == IDs(w.b.log) && forall e | e in w.a.log || e in w.b.log :: !e.hidden
    ensures var w := Run(r, Begun(a, b), moves); View(w.a.log, me) == View(w.b.log, me)
  {
    var w := Run(r, Begun(a, b), moves);
    EveryRunKeeps(r, a, b, moves);
    assert Invariant(r, Swap(w)) by { SwapKeeps(r, w); }
    hide View;
    ShowsTheWhole(r, w, me);
    ShowsTheWhole(r, Swap(w), me);
    RestoredAlike(w.a.log, w.b.log, w.written);
  }

  lemma RestoredAlike(x: seq<Entry>, y: seq<Entry>, written: map<ID, Entry>)
    requires KeptWell(x, written) && KeptWell(y, written) && IDs(x) == IDs(y)
    requires forall id | id in written :: written[id].id == id && !written[id].hidden
    requires forall e | e in x || e in y :: !e.hidden
    ensures Restored(x, written) == Restored(y, written)
  {
    var (v, z) := (Restored(x, written), Restored(y, written));
    SameCoresRestored(x, written);
    SameCoresRestored(y, written);
    SameNames(x, v);
    SameNames(y, z);
    assert forall e | e in x || e in y :: Copies(e, written);
    forall e | e in v ensures e in z { RestoredIn(x, y, written, e); }
    forall e | e in z ensures e in v { RestoredIn(y, x, written, e); }
    assert Members(v) == Members(z);
    SameSetSameOrder(Before, v, z);
  }

  lemma RestoredIn(x: seq<Entry>, y: seq<Entry>, written: map<ID, Entry>, e: Entry)
    requires (forall e | e in x || e in y :: Copies(e, written) && !e.hidden) && IDs(x) <= IDs(y)
    requires e in Restored(x, written) && forall id | id in written :: written[id].id == id
    ensures e in Restored(y, written)
  {
    var i :| 0 <= i < |x| && Restored(x, written)[i] == e;
    assert x[i] in x && x[i].id in IDs(y);
    var f :| f in y && f.id == x[i].id;
    var j :| 0 <= j < |y| && y[j] == f;
    assert Restored(y, written)[j] == e;
  }
}
