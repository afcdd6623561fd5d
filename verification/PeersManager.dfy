/** The manager of this peer's connections, its tables updated in place by each event.

internal/peers/peers.go:79-141, 154-278, 383-522 and 524-822. Each method is proved to leave what Peers says, and so
all that Peers proves of every run. */
module PeersManager {
  import opened Basics
  import opened Peers

  class Manager {
    const cfg: Config
    /** Whether there is a rendezvous service to signal through. */
    var online: bool
    var ticked: int
    var peers: map<Key, Peer>
    var conns: map<ConnID, Conn>
    /** The proofs of the ready connections, and whose connection the observer was last told is ready. */
    ghost var proofs: map<ConnID, Signature>
    ghost var told: set<Key>

    ghost function State(): State
      reads this
    {
      Peers.State(online, ticked, peers, conns, proofs, told)
    }

    ghost predicate Valid()
      reads this
    {
      Invariant(cfg, State())
    }

    constructor (cfg: Config, now: int)
      ensures Valid() && State() == Begun(now) && this.cfg == cfg
    {
      this.cfg, online, ticked, peers, conns, proofs, told := cfg, false, now, map[], map[], map[], {};
      new;
      EveryRunKeeps(cfg, now, []);
    }

    // ---- The steps events are made of ----

    method Drop(id: ConnID)
      requires id in conns && conns[id].peer in peers
      modifies this
      ensures State() == Dropped(old(State()), id)
    {
      var c := conns[id];
      conns := conns - {id};
      proofs := proofs - {id};
      if peers[c.peer].conn == Some(id) { peers := peers[c.peer := peers[c.peer].(conn := None)]; }
      if c.ready { told := told - {c.peer}; }
      assert peers == Dropped(old(State()), id).peers;
    }

    /** Schedules k's next attempt. */
    method Again(env: Env, k: Key)
      requires k in peers
      modifies this
      ensures State() == Peers.Again(old(State()), env, k)
    {
      var p := peers[k];
      if p.reasons == {} || p.parked { return; }
      p := p.(failures := p.failures + 1);
      p := p.(retry := Some(env.later(p.failures)));
      peers := peers[k := p];
    }

    method Fail(env: Env, id: ConnID)
      requires id in conns && conns[id].peer in peers
      modifies this
      ensures State() == Failed(old(State()), env, id)
    {
      var k := conns[id].peer;
      Drop(id);
      Again(env, k);
    }

    method Make(env: Env, k: Key, id: ConnID, offerer: bool)
      modifies this
      ensures State() == Made(old(State()), env, k, id, offerer)
    {
      if k !in peers { peers := peers[k := NOBODY]; }
      peers := peers[k := peers[k].(conn := Some(id))];
      conns := conns[id := Conn(k, offerer, env.now, None, None, None, None, None, 0, false, false, false)];
    }

    method Connect(env: Env, k: Key)
      requires k in peers
      modifies this
      ensures State() == Connected(old(State()), env, k)
    {
      peers := peers[k := peers[k].(retry := None)];
      if !online {
        peers := peers[k := peers[k].(retry := Some(env.now))];
        return;
      }
      Make(env, k, env.session(k), true);
    }

    method Describe(env: Env, id: ConnID, fp: Option<Fingerprint>)
      requires id in conns && conns[id].peer in peers
      modifies this
      ensures State() == Described(old(State()), env, id, fp)
    {
      var c := conns[id];
      if fp.None? || (c.remote.Some? && c.remote != fp) {
        Fail(env, id);
        return;
      }
      conns := conns[id := c.(remote := fp)];
    }

    /** Answers a new connection, unless this peer's own attempt wins. */
    method Offered(env: Env, from: Key, id: ConnID, fp: Option<Fingerprint>)
      requires Valid() && id !in conns
      modifies this
      ensures State() == Peers.Offered(cfg, old(State()), env, from, id, fp)
      // Only who is accepted gets a connection; an offer of anybody else leaves nothing.
      ensures !cfg.accepts(from) ==> State() == old(State())
      ensures forall j | j in conns && j !in old(conns) :: j == id && conns[j].peer == from && !conns[j].offerer && cfg.accepts(from)
    {
      if !cfg.accepts(from) { return; }
      var prior := if from in peers then peers[from].conn else None;
      if prior.Some? {
        if !conns[prior.value].ready && conns[prior.value].offerer && cfg.me < from { return; }
        Drop(prior.value);
      }
      Make(env, from, id, false);
      Describe(env, id, fp);
    }

    /** Proves this peer on a connection once it has the other's hello and challenge. */
    method Prove(env: Env, id: ConnID)
      requires id in conns && conns[id].peer in peers
      modifies this
      ensures State() == Proves(cfg, old(State()), env, id)
    {
      var c := conns[id];
      if c.hello == None || c.theirs == None || c.proved { return; }
      var version := cfg.common(c.hello.value);
      if version.None? {
        Fail(env, id);
        return;
      }
      conns := conns[id := c.(version := version.value, proved := true)];
    }

    method Verify(env: Env, id: ConnID, signature: Signature)
      requires id in conns && conns[id].peer in peers
      modifies this
      ensures State() == Verified(cfg, old(State()), env, id, signature)
    {
      var c := conns[id];
      if !cfg.verifies(c.peer, TranscriptOf(cfg.me, c, !c.offerer), signature) {
        Fail(env, id);
        return;
      }
      conns := conns[id := c.(ready := true)];
      peers := peers[c.peer := peers[c.peer].(failures := 0)];
      peers := peers[c.peer := peers[c.peer].(idleSince := None)];
      proofs := proofs[id := signature];
      told := told + {c.peer};
      assert peers == old(peers)[c.peer := old(peers)[c.peer].(failures := 0, idleSince := None)];
    }

    method Handshake(env: Env, id: ConnID, m: Message)
      requires id in conns && conns[id].peer in peers
      modifies this
      ensures State() == Handshaken(cfg, old(State()), env, id, m)
    {
      hide Proves, Verified, Failed;
      var c := conns[id];
      if c.nonce == None {
        Fail(env, id);
        return;
      }
      match m {
        case Hello(versions) =>
          if c.hello != None {
            Fail(env, id);
          } else {
            conns := conns[id := c.(hello := Some(versions))];
            Prove(env, id);
          }
        case Challenge(nonce) =>
          if c.theirs != None || nonce == None {
            Fail(env, id);
          } else {
            conns := conns[id := c.(theirs := nonce)];
            Prove(env, id);
          }
        case Proof(signature) =>
          if !c.proved { Fail(env, id); } else { Verify(env, id, signature); }
        case _ =>
          Fail(env, id);
      }
    }

    method Receive(env: Env, id: ConnID, m: Message)
      requires id in conns && conns[id].peer in peers
      modifies this
      ensures State() == ReceivedOn(cfg, old(State()), env, id, m)
    {
      hide Handshaken, Described, Failed;
      var c := conns[id];
      if m.Malformed? {
        Fail(env, id);
      } else if !c.ready {
        Handshake(env, id, m);
      } else if m.Interest? {
        conns := conns[id := c.(theyWant := m.wanted)];
      } else if m.Renegotiate? {
        match m.how {
          case Description(fp) => Describe(env, id, fp);
          case ACandidate =>
          case OfNoKind => Fail(env, id);
        }
      } else if !m.Other? {
        Fail(env, id);
      }
    }

    // ---- Events ----

    method OnSignal(env: Env, e: Event)
      requires Valid() && IsFresh(State(), env) && IsSignal(e)
      modifies this
      ensures Valid() && State() == Next(cfg, old(State()), env, e)
    {
      NextKeeps(cfg, State(), env, e);
      hide Peers.Offered, Described, Invariant;
      match e {
        case OfferFrom(from, id, fp) =>
          if id !in conns { Offered(env, from, id, fp); } else if conns[id].peer == from { Describe(env, id, fp); }
        case AnswerFrom(from, id, fp) =>
          if id in conns && conns[id].peer == from && conns[id].offerer { Describe(env, id, fp); }
      }
    }

    method Unreachable(env: Env, k: Key)
      requires Valid() && IsFresh(State(), env)
      modifies this
      ensures Valid() && State() == Next(cfg, old(State()), env, Peers.Unreachable(k))
    {
      NextKeeps(cfg, State(), env, Peers.Unreachable(k));
      hide Base;
      if k !in peers || (peers[k].conn.Some? && conns[peers[k].conn.value].ready) { return; }
      if peers[k].conn.Some? { Drop(peers[k].conn.value); }
      peers := peers[k := peers[k].(parked := true)];
      peers := peers[k := peers[k].(retry := None)];
      assert peers == Next(cfg, old(State()), env, Peers.Unreachable(k)).peers;
    }

    /** reason needs a connection to k. */
    method Want(env: Env, k: Key, reason: string)
      requires Valid() && IsFresh(State(), env)
      modifies this
      ensures Valid() && State() == Next(cfg, old(State()), env, Peers.Want(k, reason))
    {
      NextKeeps(cfg, State(), env, Peers.Want(k, reason));
      assert Linked(State());
      hide Invariant, Base, Connected, IsFresh;
      if k !in peers { peers := peers[k := NOBODY]; }
      peers := peers[k := peers[k].(reasons := peers[k].reasons + {reason})];
      assert peers == WithPeer(old(State()), k, PeerOf(old(State()), k).(reasons := PeerOf(old(State()), k).reasons + {reason})).peers;
      if peers[k].conn.None? && !peers[k].parked && peers[k].retry.None? { Connect(env, k); }
    }

    /** reason no longer does. */
    method Release(env: Env, k: Key, reason: string)
      requires Valid() && IsFresh(State(), env)
      modifies this
      ensures Valid() && State() == Next(cfg, old(State()), env, Peers.Release(k, reason))
    {
      NextKeeps(cfg, State(), env, Peers.Release(k, reason));
      hide Base;
      if k !in peers || reason !in peers[k].reasons { return; }
      peers := peers[k := peers[k].(reasons := peers[k].reasons - {reason})];
      if !Wanted(peers[k]) { peers := peers[k := peers[k].(retry := None)]; }
      assert peers == Next(cfg, old(State()), env, Peers.Release(k, reason)).peers;
    }

    /** The rendezvous service announced k. */
    method Reachable(env: Env, k: Key)
      requires Valid() && IsFresh(State(), env)
      modifies this
      ensures Valid() && State() == Next(cfg, old(State()), env, Peers.Reachable(k))
    {
      NextKeeps(cfg, State(), env, Peers.Reachable(k));
      hide Base, Connected;
      if k !in peers { return; }
      peers := peers[k := peers[k].(parked := false)];
      if Wanted(peers[k]) && peers[k].conn.None? {
        peers := peers[k := peers[k].(failures := 0)];
        assert peers == old(peers)[k := old(peers)[k].(parked := false, failures := 0)];
        Connect(env, k);
      }
    }

    /** Ends the connection to k, and forgets every reason for it. */
    method Disconnect(env: Env, k: Key)
      requires Valid() && IsFresh(State(), env)
      modifies this
      ensures Valid() && State() == Next(cfg, old(State()), env, Peers.Disconnect(k))
    {
      NextKeeps(cfg, State(), env, Peers.Disconnect(k));
      if k !in peers { return; }
      peers := peers[k := peers[k].(reasons := {})];
      peers := peers[k := peers[k].(retry := None)];
      assert peers == old(peers)[k := old(peers)[k].(reasons := {}, retry := None)];
      if peers[k].conn.Some? { Drop(peers[k].conn.value); }
    }

    method OnLocalDescription(env: Env, id: ConnID, fp: Option<Fingerprint>)
      requires id in conns && conns[id].peer in peers
      modifies this
      ensures State() == if fp.None? || (old(conns)[id].local.Some? && old(conns)[id].local != fp) then Failed(old(State()), env, id)
        else WithConn(old(State()), id, old(conns)[id].(local := fp))
    {
      hide Failed;
      var c := conns[id];
      if fp == None || (c.local != None && c.local != fp) { Fail(env, id); } else { conns := conns[id := c.(local := fp)]; }
    }

    method OnOpened(env: Env, id: ConnID, nonce: Nonce)
      requires id in conns && conns[id].peer in peers
      modifies this
      ensures State() ==
        if old(conns)[id].nonce.Some? then old(State())
        else if old(conns)[id].local.None? || old(conns)[id].remote.None? then Failed(old(State()), env, id)
        else WithConn(old(State()), id, old(conns)[id].(nonce := Some(nonce)))
    {
      hide Failed;
      var c := conns[id];
      if c.nonce != None { return; }
      if c.local == None || c.remote == None { Fail(env, id); } else { conns := conns[id := c.(nonce := Some(nonce))]; }
    }

    /** What the WebView says of a connection. */
    method OnReport(env: Env, e: Event)
      requires Valid() && IsFresh(State(), env) && IsOfConn(e)
      modifies this
      ensures Valid() && State() == Next(cfg, old(State()), env, e)
    {
      NextKeeps(cfg, State(), env, e);
      assert Linked(State());
      assert Next(cfg, State(), env, e) == Reported(cfg, State(), env, e);
      hide Failed, ReceivedOn, Invariant, Base, WithConn, Next, IsFresh;
      if e.id !in conns { return; }
      if e.LocalDescription? {
        OnLocalDescription(env, e.id, e.fp);
      } else if e.Opened? {
        OnOpened(env, e.id, e.nonce);
      } else if e.Received? {
        Receive(env, e.id, e.message);
      } else if e.Closed? || !conns[e.id].ready {
        Fail(env, e.id);
      }
    }

    // ---- Ranging over the peers, in any order ----

    method GoOnline(env: Env) returns (ghost order: seq<Key>)
      requires Valid() && IsFresh(State(), env)
      modifies this
      ensures Valid() && State() == Next(cfg, old(State()), env, GoesOnline(order)) && (set k | k in order) == old(peers).Keys
    {
      online := true;
      ghost var start := State();
      order := ConnectAll(env);
      EachAlike(cfg, start, env, order, GoesOnline([]), GoesOnline(order));
      NextKeeps(cfg, old(State()), env, GoesOnline(order));
      hide Each, Invariant, IsFresh;
    }

    /** Connects to every wanted peer that is not parked. */
    method ConnectAll(env: Env) returns (ghost order: seq<Key>)
      modifies this
      ensures State() == Each(cfg, old(State()), env, order, GoesOnline([]))
      ensures (set k | k in order) == old(peers).Keys == peers.Keys
    {
      ghost var start := State();
      var left := peers.Keys;
      order := [];
      while left != {}
        invariant State() == Each(cfg, start, env, order, GoesOnline([]))
        invariant left + (set k | k in order) == old(peers).Keys == peers.Keys
      {
        var k :| k in left;
        StepIs(cfg, start, env, order, k, GoesOnline([]));
        hide Each, Online;
        ConnectOnline(env, k);
        order := order + [k];
        left := left - {k};
      }
    }

    method ConnectOnline(env: Env, k: Key)
      requires k in peers
      modifies this
      ensures State() == Online(old(State()), env, k) && peers.Keys == old(peers).Keys
    {
      var p := peers[k];
      if Wanted(p) && p.conn.None? && !p.parked { Connect(env, k); }
    }

    method Retry(env: Env, k: Key)
      requires k in peers
      modifies this
      ensures State() == Retried(old(State()), env, k) && peers.Keys == old(peers).Keys
    {
      var p := peers[k];
      if p.retry.Some? && p.conn.None? && Wanted(p) { Connect(env, k); }
    }

    /** Makes every wanted attempt that is waiting at once. */
    method RetryAll(env: Env) returns (ghost order: seq<Key>)
      modifies this
      ensures State() == Each(cfg, old(State()), env, order, NetworkChanged([]))
      ensures (set k | k in order) == old(peers).Keys == peers.Keys
    {
      ghost var start := State();
      var left := peers.Keys;
      order := [];
      while left != {}
        invariant State() == Each(cfg, start, env, order, NetworkChanged([]))
        invariant left + (set k | k in order) == old(peers).Keys == peers.Keys
      {
        var k :| k in left;
        StepIs(cfg, start, env, order, k, NetworkChanged([]));
        hide Each, Retried;
        Retry(env, k);
        order := order + [k];
        left := left - {k};
      }
    }

    method RetryNow(env: Env) returns (ghost order: seq<Key>)
      requires Valid() && IsFresh(State(), env)
      modifies this
      ensures Valid() && State() == Next(cfg, old(State()), env, NetworkChanged(order)) && (set k | k in order) == old(peers).Keys
    {
      order := RetryAll(env);
      EachAlike(cfg, old(State()), env, order, NetworkChanged([]), NetworkChanged(order));
      NextKeeps(cfg, old(State()), env, NetworkChanged(order));
      hide Each, Invariant, IsFresh;
    }

    /** The WebView lost every connection: the wanted ones are to be made again. */
    method Reset(env: Env) returns (ghost ids: seq<ConnID>)
      requires Valid() && IsFresh(State(), env)
      modifies this
      ensures Valid() && State() == Next(cfg, old(State()), env, Peers.Reset(ids)) && conns == map[]
    {
      ghost var start := State();
      var left := conns.Keys;
      ids := [];
      while left != {}
        invariant State() == EachGone(start, env, ids) && Invariant(cfg, State()) && left == conns.Keys
      {
        var id :| id in left;
        assert (ids + [id])[..|ids|] == ids;
        FailedKeeps(cfg, State(), env, id);
        FailedConns(State(), env, id);
        assert Linked(State());
        hide Failed, Invariant, Linked;
        Fail(env, id);
        ids := ids + [id];
        left := left - {id};
      }
      NextKeeps(cfg, old(State()), env, Peers.Reset(ids));
    }

    /** What a tick does of one peer. */
    method TickOne(env: Env, k: Key)
      requires k in peers && Linked(State())
      modifies this
      ensures State() == Ticked(cfg, old(State()), env, k)
    {
      hide Failed, Dropped, Connected;
      var p := peers[k];
      if p.conn.Some? {
        var c := conns[p.conn.value];
        if !c.ready && env.now - c.started >= cfg.attempt {
          Fail(env, p.conn.value);
        } else if c.ready && !Wanted(p) && !c.theyWant {
          if p.idleSince == None {
            peers := peers[k := p.(idleSince := Some(env.now))];
          } else if env.now - p.idleSince.value >= cfg.idle {
            Drop(p.conn.value);
          }
        } else if c.ready {
          peers := peers[k := p.(idleSince := None)];
        }
      } else if p.retry.Some? && env.now >= p.retry.value && Wanted(p) && !p.parked {
        Connect(env, k);
      } else if !Wanted(p) {
        peers := peers - {k};
      }
    }

    method Tick(env: Env) returns (ghost order: seq<Key>, ghost again: seq<Key>)
      requires Valid() && IsFresh(State(), env)
      modifies this
      ensures Valid() && State() == Next(cfg, old(State()), env, Peers.Tick(order, again)) && (set k | k in order) == old(peers).Keys
    {
      again := [];
      if env.now - ticked > 3 * cfg.tick {
        again := RetryAll(env);
        EachAlike(cfg, old(State()), env, again, NetworkChanged([]), NetworkChanged(again));
        hide Each;
      }
      ticked := env.now;
      ghost var start := State();
      TickStarts(cfg, old(State()), env, again, start);
      hide Next, Invariant, IsFresh, IsReserved, Each;
      order := TickAll(env);
      EachTickAlike(cfg, start, env, order, Peers.Tick([], []), Peers.Tick(order, again));
      NextKeeps(cfg, old(State()), env, Peers.Tick(order, again));
      NextIsTick(cfg, old(State()), env, order, again, start);
    }

    method TickAll(env: Env) returns (ghost order: seq<Key>)
      requires Invariant(cfg, State()) && IsReserved(State(), env)
      modifies this
      ensures State() == Each(cfg, old(State()), env, order, Peers.Tick([], [])) && (set k | k in order) == old(peers).Keys
    {
      ghost var start := State();
      var left := peers.Keys;
      order := [];
      while left != {}
        invariant State() == Each(cfg, start, env, order, Peers.Tick([], []))
        invariant left + (set k | k in order) == old(peers).Keys && left <= peers.Keys
      {
        var k :| k in left;
        EachKeeps(cfg, start, env, order, Peers.Tick([], []));
        TickStepIs(cfg, start, env, order, k);
        hide Each, Invariant, IsReserved;
        TickedKeys(cfg, State(), env, k);
        TickOne(env, k);
        order := order + [k];
        left := left - {k};
      }
    }
  }

  lemma TickStarts(cfg: Config, s: State, env: Env, again: seq<Key>, start: State)
    requires Invariant(cfg, s) && IsFresh(s, env)
    requires start == (if env.now - s.ticked > 3 * cfg.tick then Each(cfg, s, env, again, NetworkChanged(again)) else s).(ticked := env.now)
    ensures Invariant(cfg, start) && IsReserved(start, env)
  {
    EachKeeps(cfg, s, env, again, NetworkChanged(again));
    var t := if env.now - s.ticked > 3 * cfg.tick then Each(cfg, s, env, again, NetworkChanged(again)) else s;
    hide Each, Invariant;
    TickAlike(cfg, t, env);
  }

  lemma NextIsTick(cfg: Config, s: State, env: Env, order: seq<Key>, again: seq<Key>, start: State)
    requires Linked(s)
    requires start == (if env.now - s.ticked > 3 * cfg.tick then Each(cfg, s, env, again, NetworkChanged(again)) else s).(ticked := env.now)
    ensures Next(cfg, s, env, Peers.Tick(order, again)) == Each(cfg, start, env, order, Peers.Tick(order, again))
  {
    hide Each;
  }

  lemma TickStepIs(cfg: Config, s: State, env: Env, order: seq<Key>, k: Key)
    requires Invariant(cfg, Each(cfg, s, env, order, Peers.Tick([], [])))
    ensures var t := Each(cfg, s, env, order, Peers.Tick([], []));
      Linked(t) && Each(cfg, s, env, order + [k], Peers.Tick([], [])) == Ticked(cfg, t, env, k)
  {
    assert (order + [k])[..|order|] == order;
    hide Ticked;
  }

  /** A tick takes no peer away but its own. */
  lemma TickedKeys(cfg: Config, s: State, env: Env, k: Key)
    requires Linked(s) && k in s.peers
    ensures s.peers.Keys - {k} <= Ticked(cfg, s, env, k).peers.Keys
  {
  }

  lemma {:induction false} EachTickAlike(cfg: Config, s: State, env: Env, order: seq<Key>, e: Event, f: Event)
    requires e.Tick? && f.Tick?
    ensures Each(cfg, s, env, order, e) == Each(cfg, s, env, order, f)
  {
    if order != [] { EachTickAlike(cfg, s, env, order[..|order| - 1], e, f); }
  }

  lemma StepIs(cfg: Config, s: State, env: Env, order: seq<Key>, k: Key, e: Event)
    requires e.GoesOnline? || e.NetworkChanged?
    ensures var t := Each(cfg, s, env, order, e); Each(cfg, s, env, order + [k], e) == if e.GoesOnline? then Online(t, env, k) else Retried(t, env, k)
  {
    assert (order + [k])[..|order|] == order;
  }

  /** The order an event ranges in is given beside it. */
  lemma {:induction false} EachAlike(cfg: Config, s: State, env: Env, order: seq<Key>, e: Event, f: Event)
    requires (e.GoesOnline? && f.GoesOnline?) || (e.NetworkChanged? && f.NetworkChanged?)
    ensures Each(cfg, s, env, order, e) == Each(cfg, s, env, order, f)
  {
    if order != [] { EachAlike(cfg, s, env, order[..|order| - 1], e, f); }
  }
}
