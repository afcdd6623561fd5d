/** Peers connect on demand, and one who is away is never polled (ADR 0024), over every run of the manager's events.

internal/peers/peers.go:223-278, 391-414, 535-545, 617-628 and 770-822. Whatever happens, this peer offers a connection only
to a peer it wants and that is not parked; and a peer is parked until the service says it is reachable, or it is forgotten. */
module OnDemand {
  import opened Basics
  import opened Peers

  /** An attempt is scheduled only to a peer that is wanted, and not parked. */
  predicate IsScheduledRightly(p: Peer) { p.retry.Some? ==> Wanted(p) && !p.parked }

  /** A connection this peer offers, which is not one of was, is to a peer wanted and not parked. */
  ghost predicate OffersRightly(was: set<ConnID>, s: State, id: ConnID)
    requires id in s.conns
  {
    id !in was && s.conns[id].offerer && s.conns[id].peer in s.peers ==> Wanted(s.peers[s.conns[id].peer]) && !s.peers[s.conns[id].peer].parked
  }

  /** What every step of an event keeps: was are the connections before it, and away the peers then parked, but for one it
      unparks. */
  ghost predicate Restrained(was: set<ConnID>, away: set<Key>, s: State) {
    && (forall k | k in s.peers :: IsScheduledRightly(s.peers[k]))
    && (forall id | id in s.conns :: OffersRightly(was, s, id))
    && (forall k | k in away && k in s.peers :: s.peers[k].parked)
  }

  // ---- The steps events are made of ----

  lemma DroppedRestrained(was: set<ConnID>, away: set<Key>, s: State, id: ConnID)
    requires Restrained(was, away, s) && id in s.conns && s.conns[id].peer in s.peers
    ensures Restrained(was, away, Dropped(s, id))
  {
    var t := Dropped(s, id);
    assert forall k | k in t.peers :: t.peers[k] == s.peers[k] || t.peers[k] == s.peers[k].(conn := None);
    forall j | j in t.conns ensures OffersRightly(was, t, j) { assert OffersRightly(was, s, j); }
  }

  /** A peer may change, if it stays wanted, and parked or not, as it was. */
  lemma PeerRestrained(was: set<ConnID>, away: set<Key>, s: State, k: Key, p: Peer)
    requires Restrained(was, away, s) && k in s.peers && IsScheduledRightly(p)
    requires Wanted(s.peers[k]) && !s.peers[k].parked ==> Wanted(p) && !p.parked
    requires k in away ==> p.parked
    ensures Restrained(was, away, WithPeer(s, k, p))
  {
    var t := WithPeer(s, k, p);
    forall j | j in t.conns ensures OffersRightly(was, t, j) { assert OffersRightly(was, s, j); }
  }

  lemma FailedRestrained(was: set<ConnID>, away: set<Key>, s: State, env: Env, id: ConnID)
    requires Restrained(was, away, s) && id in s.conns && s.conns[id].peer in s.peers
    ensures Restrained(was, away, Failed(s, env, id))
  {
    var (t, k) := (Dropped(s, id), s.conns[id].peer);
    DroppedRestrained(was, away, s, id);
    hide Restrained, Dropped;
    AgainRestrained(was, away, t, env, k);
  }

  lemma AgainRestrained(was: set<ConnID>, away: set<Key>, s: State, env: Env, k: Key)
    requires Restrained(was, away, s) && k in s.peers
    ensures Restrained(was, away, Again(s, env, k))
  {
    var p := s.peers[k];
    if Wanted(p) && !p.parked {
      PeerRestrained(was, away, s, k, p.(failures := p.failures + 1, retry := Some(env.later(p.failures + 1))));
    }
  }

  lemma ConnRestrained(was: set<ConnID>, away: set<Key>, s: State, id: ConnID, c: Conn)
    requires Restrained(was, away, s) && id in s.conns && c.peer == s.conns[id].peer && c.offerer == s.conns[id].offerer
    ensures Restrained(was, away, WithConn(s, id, c))
  {
    var t := WithConn(s, id, c);
    forall j | j in t.conns ensures OffersRightly(was, t, j) { assert OffersRightly(was, s, j); }
  }

  lemma MadeRestrained(was: set<ConnID>, away: set<Key>, s: State, env: Env, k: Key, id: ConnID, offerer: bool)
    requires Restrained(was, away, s) && (k in away ==> k in s.peers)
    requires offerer ==> Wanted(PeerOf(s, k)) && !PeerOf(s, k).parked
    requires k !in s.peers ==> forall j | j in s.conns :: s.conns[j].peer != k
    ensures Restrained(was, away, Made(s, env, k, id, offerer))
  {
    var t := Made(s, env, k, id, offerer);
    forall j | j in t.conns ensures OffersRightly(was, t, j) {
      if j != id { assert OffersRightly(was, s, j); }
    }
  }

  lemma ConnectedRestrained(was: set<ConnID>, away: set<Key>, s: State, env: Env, k: Key)
    requires Restrained(was, away, s) && k in s.peers && Wanted(s.peers[k]) && !s.peers[k].parked
    ensures Restrained(was, away, Connected(s, env, k))
  {
    var p := s.peers[k].(retry := None);
    PeerRestrained(was, away, s, k, p);
    PeerRestrained(was, away, s, k, p.(retry := Some(env.now)));
    hide Restrained;
    if s.online { MadeRestrained(was, away, WithPeer(s, k, p), env, k, env.session(k), true); }
  }

  lemma DescribedRestrained(was: set<ConnID>, away: set<Key>, s: State, env: Env, id: ConnID, fp: Option<Fingerprint>)
    requires Restrained(was, away, s) && id in s.conns && s.conns[id].peer in s.peers
    ensures Restrained(was, away, Described(s, env, id, fp))
  {
    FailedRestrained(was, away, s, env, id);
    ConnRestrained(was, away, s, id, s.conns[id].(remote := fp));
    hide Restrained, Failed;
  }

  // ---- Signals and messages ----

  lemma OfferedRestrained(cfg: Config, was: set<ConnID>, away: set<Key>, s: State, env: Env, from: Key, id: ConnID, fp: Option<Fingerprint>)
    requires Restrained(was, away, s) && Linked(s) && id !in s.conns && away <= s.peers.Keys
    ensures Restrained(was, away, Offered(cfg, s, env, from, id, fp))
  {
    var prior := PeerOf(s, from).conn;
    if cfg.accepts(from) && !(prior.Some? && !s.conns[prior.value].ready && s.conns[prior.value].offerer && cfg.me < from) {
      var t := if prior.Some? then Dropped(s, prior.value) else s;
      if prior.Some? { DroppedRestrained(was, away, s, prior.value); }
      hide Restrained;
      MadeRestrained(was, away, t, env, from, id, false);
      DescribedRestrained(was, away, Made(t, env, from, id, false), env, id, fp);
    }
  }

  lemma ProvesRestrained(cfg: Config, was: set<ConnID>, away: set<Key>, s: State, env: Env, id: ConnID)
    requires Restrained(was, away, s) && id in s.conns && s.conns[id].peer in s.peers
    ensures Restrained(was, away, Proves(cfg, s, env, id))
  {
    var c := s.conns[id];
    FailedRestrained(was, away, s, env, id);
    if c.hello.Some? && cfg.common(c.hello.value).Some? {
      ConnRestrained(was, away, s, id, c.(version := cfg.common(c.hello.value).value, proved := true));
    }
    hide Restrained, Failed;
  }

  lemma VerifiedRestrained(cfg: Config, was: set<ConnID>, away: set<Key>, s: State, env: Env, id: ConnID, signature: Signature)
    requires Restrained(was, away, s) && id in s.conns && s.conns[id].peer in s.peers
    ensures Restrained(was, away, Verified(cfg, s, env, id, signature))
  {
    var c := s.conns[id];
    FailedRestrained(was, away, s, env, id);
    ConnRestrained(was, away, s, id, c.(ready := true));
    PeerRestrained(was, away, WithConn(s, id, c.(ready := true)), c.peer, s.peers[c.peer].(failures := 0, idleSince := None));
    hide Failed, TranscriptOf;
  }

  lemma HandshakenRestrained(cfg: Config, was: set<ConnID>, away: set<Key>, s: State, env: Env, id: ConnID, m: Message)
    requires Restrained(was, away, s) && id in s.conns && s.conns[id].peer in s.peers
    ensures Restrained(was, away, Handshaken(cfg, s, env, id, m))
  {
    var c := s.conns[id];
    FailedRestrained(was, away, s, env, id);
    hide Restrained, Failed, Proves, Verified;
    match m
    case Hello(versions) =>
      ConnRestrained(was, away, s, id, c.(hello := Some(versions)));
      ProvesRestrained(cfg, was, away, WithConn(s, id, c.(hello := Some(versions))), env, id);
    case Challenge(nonce) =>
      ConnRestrained(was, away, s, id, c.(theirs := nonce));
      ProvesRestrained(cfg, was, away, WithConn(s, id, c.(theirs := nonce)), env, id);
    case Proof(signature) => VerifiedRestrained(cfg, was, away, s, env, id, signature);
    case _ =>
  }

  lemma ReceivedRestrained(cfg: Config, was: set<ConnID>, away: set<Key>, s: State, env: Env, id: ConnID, m: Message)
    requires Restrained(was, away, s) && id in s.conns && s.conns[id].peer in s.peers
    ensures Restrained(was, away, ReceivedOn(cfg, s, env, id, m))
  {
    var c := s.conns[id];
    FailedRestrained(was, away, s, env, id);
    HandshakenRestrained(cfg, was, away, s, env, id, m);
    if m.Interest? { ConnRestrained(was, away, s, id, c.(theyWant := m.wanted)); }
    if m.Renegotiate? && m.how.Description? { DescribedRestrained(was, away, s, env, id, m.how.fp); }
    hide Restrained, Failed, Handshaken, Described;
  }

  // ---- Ranging ----

  lemma OnlineRestrained(was: set<ConnID>, away: set<Key>, s: State, env: Env, k: Key)
    requires Restrained(was, away, s)
    ensures Restrained(was, away, Online(s, env, k)) && Restrained(was, away, Retried(s, env, k))
  {
    if k in s.peers {
      assert IsScheduledRightly(s.peers[k]);
      hide Restrained, Connected;
      if Wanted(s.peers[k]) && !s.peers[k].parked { ConnectedRestrained(was, away, s, env, k); }
    }
  }

  lemma TickedRestrained(cfg: Config, was: set<ConnID>, away: set<Key>, s: State, env: Env, k: Key)
    requires Restrained(was, away, s) && Linked(s)
    ensures Restrained(was, away, Ticked(cfg, s, env, k))
  {
    if k in s.peers {
      var p := s.peers[k];
      if p.conn.Some? {
        FailedRestrained(was, away, s, env, p.conn.value);
        DroppedRestrained(was, away, s, p.conn.value);
        PeerRestrained(was, away, s, k, p.(idleSince := Some(env.now)));
        PeerRestrained(was, away, s, k, p.(idleSince := None));
        hide Restrained, Failed, Dropped;
      } else {
        GoneRestrained(was, away, s, k);
        hide Restrained, Connected;
        if Wanted(p) && !p.parked { ConnectedRestrained(was, away, s, env, k); }
      }
    }
  }

  lemma GoneRestrained(was: set<ConnID>, away: set<Key>, s: State, k: Key)
    requires Restrained(was, away, s)
    ensures Restrained(was, away, s.(peers := s.peers - {k}))
  {
    var t := s.(peers := s.peers - {k});
    forall j | j in t.conns ensures OffersRightly(was, t, j) { assert OffersRightly(was, s, j); }
  }

  lemma {:induction false} EachRestrained(cfg: Config, was: set<ConnID>, away: set<Key>, s: State, env: Env, order: seq<Key>, e: Event)
    requires Restrained(was, away, s)
    ensures Restrained(was, away, Each(cfg, s, env, order, e))
  {
    if order != [] {
      EachRestrained(cfg, was, away, s, env, order[..|order| - 1], e);
      var (t, k) := (Each(cfg, s, env, order[..|order| - 1], e), order[|order| - 1]);
      OnlineRestrained(was, away, t, env, k);
      if Linked(t) { TickedRestrained(cfg, was, away, t, env, k); }
      hide Restrained, Online, Retried, Ticked, Linked;
    }
  }

  lemma {:induction false} EachGoneRestrained(was: set<ConnID>, away: set<Key>, s: State, env: Env, ids: seq<ConnID>)
    requires Restrained(was, away, s)
    ensures Restrained(was, away, EachGone(s, env, ids))
  {
    if ids != [] {
      EachGoneRestrained(was, away, s, env, ids[..|ids| - 1]);
      var (t, id) := (EachGone(s, env, ids[..|ids| - 1]), ids[|ids| - 1]);
      if id in t.conns && Linked(t) { FailedRestrained(was, away, t, env, id); }
      hide Restrained, Failed;
    }
  }

  lemma RangedRestrained(cfg: Config, was: set<ConnID>, away: set<Key>, s: State, env: Env, e: Event)
    requires Restrained(was, away, s) && !IsSignal(e) && !IsOfPeer(e) && !IsOfConn(e)
    ensures Restrained(was, away, Ranged(cfg, s, env, e))
  {
    ClockAlike(was, away, s, env.now);
    match e
    case GoesOnline(order) => EachRestrained(cfg, was, away, s.(online := true), env, order, e);
    case NetworkChanged(order) => EachRestrained(cfg, was, away, s, env, order, e);
    case Tick(order, again) =>
      EachRestrained(cfg, was, away, s, env, again, NetworkChanged(again));
      var t := if env.now - s.ticked > 3 * cfg.tick then Each(cfg, s, env, again, NetworkChanged(again)) else s;
      ClockAlike(was, away, t, env.now);
      EachRestrained(cfg, was, away, t.(ticked := env.now), env, order, e);
    case Reset(ids) => EachGoneRestrained(was, away, s, env, ids);
    case GoesOffline =>
  }

  lemma ClockAlike(was: set<ConnID>, away: set<Key>, s: State, now: int)
    requires Restrained(was, away, s)
    ensures Restrained(was, away, s.(online := true)) && Restrained(was, away, s.(online := false)) && Restrained(was, away, s.(ticked := now))
  {
    forall id | id in s.conns ensures OffersRightly(was, s.(online := true), id) && OffersRightly(was, s.(online := false), id) && OffersRightly(was, s.(ticked := now), id) {
      assert OffersRightly(was, s, id);
    }
  }

  // ---- Every event ----

  ghost function Away(s: State): set<Key> { set k | k in s.peers && s.peers[k].parked }

  /** The peers an event leaves parked, of those that were: all but one announced. */
  ghost function StillAway(s: State, e: Event): set<Key> {
    if e.Reachable? then Away(s) - {e.peer} else Away(s)
  }

  /** A peer may change as it likes while no connection is new. */
  lemma FreePeerRestrained(away: set<Key>, s: State, k: Key, p: Peer)
    requires Restrained(s.conns.Keys, away, s) && IsScheduledRightly(p) && (k in away ==> p.parked)
    ensures Restrained(s.conns.Keys, away, WithPeer(s, k, p))
  {
  }

  lemma ConsideredRestrained(s: State, env: Env, e: Event)
    requires Restrained(s.conns.Keys, StillAway(s, e), s) && Linked(s) && IsOfPeer(e)
    ensures Restrained(s.conns.Keys, StillAway(s, e), Considered(s, env, e))
  {
    var (was, away, k) := (s.conns.Keys, StillAway(s, e), e.peer);
    var p := PeerOf(s, k);
    assert k in s.peers ==> IsScheduledRightly(p) && (p.parked <==> k in Away(s));
    match e
    case Unreachable(_) => UnreachableRestrained(was, away, s, env, k);
    case Want(_, reason) =>
      FreePeerRestrained(away, s, k, p.(reasons := p.reasons + {reason}));
      hide Restrained;
      if p.conn.None? && !p.parked { ConnectedRestrained(was, away, WithPeer(s, k, p.(reasons := p.reasons + {reason})), env, k); }
    case Release(_, reason) =>
      FreePeerRestrained(away, s, k, p.(reasons := p.reasons - {reason}, retry := None));
      if Wanted(p.(reasons := p.reasons - {reason})) { FreePeerRestrained(away, s, k, p.(reasons := p.reasons - {reason})); }
      hide Restrained;
    case Reachable(_) =>
      FreePeerRestrained(away, s, k, p.(parked := false));
      FreePeerRestrained(away, s, k, p.(parked := false, failures := 0));
      hide Restrained;
      if Wanted(p) { ConnectedRestrained(was, away, WithPeer(s, k, p.(parked := false, failures := 0)), env, k); }
    case Disconnect(_) =>
      FreePeerRestrained(away, s, k, p.(reasons := {}, retry := None));
      hide Restrained;
      if k in s.peers && p.conn.Some? { DroppedRestrained(was, away, WithPeer(s, k, p.(reasons := {}, retry := None)), p.conn.value); }
  }

  lemma UnreachableRestrained(was: set<ConnID>, away: set<Key>, s: State, env: Env, k: Key)
    requires Restrained(was, away, s) && Linked(s) && s.conns.Keys <= was
    ensures Restrained(was, away, Considered(s, env, Unreachable(k)))
  {
    if k in s.peers && s.peers[k].conn.Some? { DroppedRestrained(was, away, s, s.peers[k].conn.value); }
  }

  lemma NextRestrained(cfg: Config, s: State, env: Env, e: Event)
    requires Restrained(s.conns.Keys, Away(s), s) && Linked(s)
    ensures Restrained(s.conns.Keys, StillAway(s, e), Next(cfg, s, env, e))
  {
    var (was, away) := (s.conns.Keys, StillAway(s, e));
    assert Restrained(was, away, s) && away <= s.peers.Keys;
    hide Restrained, StillAway;
    if IsSignal(e) {
      if e.id in s.conns { DescribedRestrained(was, away, s, env, e.id, e.fp); }
      else if e.OfferFrom? { OfferedRestrained(cfg, was, away, s, env, e.peer, e.id, e.fp); }
    } else if IsOfPeer(e) {
      ConsideredRestrained(s, env, e);
    } else if IsOfConn(e) {
      ReportedRestrained(cfg, was, away, s, env, e);
    } else {
      RangedRestrained(cfg, was, away, s, env, e);
    }
  }

  lemma ReportedRestrained(cfg: Config, was: set<ConnID>, away: set<Key>, s: State, env: Env, e: Event)
    requires Restrained(was, away, s) && Linked(s) && IsOfConn(e)
    ensures Restrained(was, away, Reported(cfg, s, env, e))
  {
    if e.id in s.conns {
      var id := e.id;
      hide Restrained, Reported, Linked;
      if e.LocalDescription? { LocalRestrained(cfg, was, away, s, env, id, e.fp); }
      else if e.Opened? { OpenedRestrained(cfg, was, away, s, env, id, e.nonce); }
      else if e.Received? { MessageRestrained(cfg, was, away, s, env, id, e.message); }
      else { EndedRestrained(cfg, was, away, s, env, e, id); }
    }
  }

  lemma MessageRestrained(cfg: Config, was: set<ConnID>, away: set<Key>, s: State, env: Env, id: ConnID, m: Message)
    requires Restrained(was, away, s) && Linked(s) && id in s.conns
    ensures Restrained(was, away, Reported(cfg, s, env, Received(id, m)))
  {
    ReceivedRestrained(cfg, was, away, s, env, id, m);
    hide Restrained, ReceivedOn;
  }

  lemma EndedRestrained(cfg: Config, was: set<ConnID>, away: set<Key>, s: State, env: Env, e: Event, id: ConnID)
    requires Restrained(was, away, s) && Linked(s) && id in s.conns && (e == FileReceived(id) || e == Closed(id))
    ensures Restrained(was, away, Reported(cfg, s, env, e))
  {
    FailedRestrained(was, away, s, env, id);
    hide Restrained, Failed;
  }

  lemma LocalRestrained(cfg: Config, was: set<ConnID>, away: set<Key>, s: State, env: Env, id: ConnID, fp: Option<Fingerprint>)
    requires Restrained(was, away, s) && Linked(s) && id in s.conns
    ensures Restrained(was, away, Reported(cfg, s, env, LocalDescription(id, fp)))
  {
    FailedRestrained(was, away, s, env, id);
    ConnRestrained(was, away, s, id, s.conns[id].(local := fp));
    hide Restrained, Failed, WithConn;
  }

  lemma OpenedRestrained(cfg: Config, was: set<ConnID>, away: set<Key>, s: State, env: Env, id: ConnID, nonce: Nonce)
    requires Restrained(was, away, s) && Linked(s) && id in s.conns
    ensures Restrained(was, away, Reported(cfg, s, env, Opened(id, nonce)))
  {
    FailedRestrained(was, away, s, env, id);
    ConnRestrained(was, away, s, id, s.conns[id].(nonce := Some(nonce)));
    hide Restrained, Failed, WithConn;
  }

  // ---- Every run ----

  lemma {:induction false} EveryRunIsRestrained(cfg: Config, now: int, steps: seq<(Env, Event)>)
    ensures var s := Run(cfg, now, steps); Restrained(s.conns.Keys, Away(s), s)
  {
    if steps != [] {
      var (s, step) := (Run(cfg, now, steps[..|steps| - 1]), steps[|steps| - 1]);
      EveryRunIsRestrained(cfg, now, steps[..|steps| - 1]);
      if Linked(s) && IsFresh(s, step.0) { NextRestrained(cfg, s, step.0, step.1); }
      hide Next;
    }
  }

  /** In every run, a peer wanted without a connection has an attempt scheduled if and only if it is not parked; and one that
      nobody wants has none. */
  lemma WantedIsTriedIff(cfg: Config, now: int, steps: seq<(Env, Event)>, k: Key)
    requires k in Run(cfg, now, steps).peers && Run(cfg, now, steps).peers[k].conn.None?
    ensures var p := Run(cfg, now, steps).peers[k]; p.retry.Some? <==> Wanted(p) && !p.parked
  {
    EveryRunIsRestrained(cfg, now, steps);
    EveryRunKeeps(cfg, now, steps);
    hide Run, Base, OffersRightly;
  }

  /** Peers connect on demand: in every run, whatever event comes next, this peer offers a new connection only to a peer
      it wants. */
  lemma OffersOnDemand(cfg: Config, now: int, steps: seq<(Env, Event)>, env: Env, e: Event, id: ConnID)
    requires var s := Run(cfg, now, steps); IsFresh(s, env) && Linked(s) && id !in s.conns
    requires var t := Next(cfg, Run(cfg, now, steps), env, e); id in t.conns && t.conns[id].offerer
    ensures var t := Next(cfg, Run(cfg, now, steps), env, e); t.conns[id].peer in t.peers && Wanted(t.peers[t.conns[id].peer])
  {
    var s := Run(cfg, now, steps);
    EveryRunIsRestrained(cfg, now, steps);
    EveryRunKeeps(cfg, now, steps);
    NextRestrained(cfg, s, env, e);
    NextKeeps(cfg, s, env, e);
    assert OffersRightly(s.conns.Keys, Next(cfg, s, env, e), id);
    hide Next;
  }

  /** One who is away is never polled: in every run, a peer that is parked is offered no new connection, and stays parked,
      whatever event comes, but when the service announces it. */
  lemma AwayIsNeverPolled(cfg: Config, now: int, steps: seq<(Env, Event)>, env: Env, e: Event, k: Key)
    requires var s := Run(cfg, now, steps); IsFresh(s, env) && Linked(s) && k in s.peers && s.peers[k].parked && e != Reachable(k)
    ensures var (s, t) := (Run(cfg, now, steps), Next(cfg, Run(cfg, now, steps), env, e));
      && (k in t.peers ==> t.peers[k].parked)
      && forall id | id in t.conns && id !in s.conns && t.conns[id].peer == k :: !t.conns[id].offerer
  {
    var s := Run(cfg, now, steps);
    EveryRunIsRestrained(cfg, now, steps);
    EveryRunKeeps(cfg, now, steps);
    NextRestrained(cfg, s, env, e);
    NextKeeps(cfg, s, env, e);
    hide Next;
    var t := Next(cfg, s, env, e);
    assert k in StillAway(s, e);
    forall id | id in t.conns && id !in s.conns && t.conns[id].peer == k ensures !t.conns[id].offerer {
      assert OffersRightly(s.conns.Keys, t, id);
    }
  }

  /** Online, with k wanted: attempted; parked; and parked, but connected by itself. */
  function Up(now: int): State { Begun(now).(online := true) }
  function Wants(now: int, k: Key, parked: bool): State { WithPeer(Up(now), k, Peer({""}, None, None, 0, parked, None)) }
  function Attempted(now: int, env: Env, k: Key): State { Made(Wants(now, k, false), env, k, env.session(k), true) }

  function Visited(now: int, env: Env, k: Key, id: ConnID, fp: Fingerprint): State {
    var s := Made(Wants(now, k, true), env, k, id, false);
    WithConn(s, id, s.conns[id].(remote := Some(fp)))
  }

  lemma WantAttempts(cfg: Config, now: int, env: Env, k: Key)
    ensures Linked(Up(now)) && Next(cfg, Up(now), env, Want(k, "")) == Attempted(now, env, k)
  {
    assert NOBODY.reasons + {""} == {""};
  }

  lemma UnreachableParks(cfg: Config, now: int, first: Env, env: Env, k: Key)
    ensures Linked(Attempted(now, first, k)) && Next(cfg, Attempted(now, first, k), env, Unreachable(k)) == Wants(now, k, true)
  {
    var s := Attempted(now, first, k);
    var id := first.session(k);
    assert s.conns == map[id := s.conns[id]] && s.conns - {id} == map[] && s.proofs - {id} == map[];
    assert s.peers == map[k := s.peers[k]];
  }

  lemma OfferVisits(cfg: Config, now: int, env: Env, k: Key, id: ConnID, fp: Fingerprint)
    requires cfg.accepts(k)
    ensures Linked(Wants(now, k, true)) && Next(cfg, Wants(now, k, true), env, OfferFrom(k, id, Some(fp))) == Visited(now, env, k, id, fp)
  {
  }

  lemma LossParks(cfg: Config, now: int, was: Env, env: Env, k: Key, id: ConnID, fp: Fingerprint)
    ensures Linked(Visited(now, was, k, id, fp)) && Next(cfg, Visited(now, was, k, id, fp), env, Closed(id)) == Wants(now, k, true)
  {
    var s := Visited(now, was, k, id, fp);
    assert s.conns == map[id := s.conns[id]] && s.conns - {id} == map[] && s.proofs - {id} == map[];
    assert s.peers == map[k := s.peers[k]];
  }

  /** It is wanted, and not reached; then it connects, and is lost. */
  function Visit(first: Env, then_: Env, k: Key, id: ConnID, fp: Fingerprint): seq<(Env, Event)> {
    [(first, GoesOnline([])), (first, Want(k, "")), (then_, Unreachable(k)), (then_, OfferFrom(k, id, Some(fp))), (then_, Closed(id))]
  }

  /** The sessions made are nobody's yet. */
  ghost predicate AreApart(first: Env, then_: Env, id: ConnID) {
    && IsFresh(Begun(0), first) && IsFresh(Begun(0), then_)
    && (forall j, l :: first.session(j) != then_.session(l))
    && (forall j :: first.session(j) != id)
    && (forall j :: then_.session(j) != id)
  }

  /** Though both be online: a peer this one wants, and could not reach, that then connects by itself and is lost again, stays
      parked, with no attempt scheduled. */
  lemma LostAgainStaysParked(cfg: Config, now: int, first: Env, then_: Env, k: Key, id: ConnID, fp: Fingerprint)
    requires cfg.accepts(k) && AreApart(first, then_, id)
    ensures var s := Run(cfg, now, Visit(first, then_, k, id, fp));
      s.online && s.conns == map[] && s.peers == map[k := Peer({""}, None, None, 0, true, None)]
  {
    var steps := Visit(first, then_, k, id, fp);
    VisitRuns(cfg, now, first, then_, k, id, fp, steps);
    assert steps[..5] == steps;
    hide Run, Visit;
  }

  lemma VisitRuns(cfg: Config, now: int, first: Env, then_: Env, k: Key, id: ConnID, fp: Fingerprint, steps: seq<(Env, Event)>)
    requires cfg.accepts(k) && AreApart(first, then_, id)
    requires |steps| == 5 && steps[0] == (first, GoesOnline([])) && steps[1] == (first, Want(k, "")) && steps[2] == (then_, Unreachable(k))
    requires steps[3] == (then_, OfferFrom(k, id, Some(fp))) && steps[4] == (then_, Closed(id))
    ensures Run(cfg, now, steps[..5]) == Wants(now, k, true)
  {
    hide *;
    SessionsApart(now, first, then_, k, id, fp);
    GoingOnline(cfg, now, first, steps);
    WantAttempts(cfg, now, first, k);
    UnreachableParks(cfg, now, first, then_, k);
    OfferVisits(cfg, now, then_, k, id, fp);
    LossParks(cfg, now, then_, then_, k, id, fp);
    OneStep(cfg, now, steps, 0, Begun(now), Up(now));
    OneStep(cfg, now, steps, 1, Up(now), Attempted(now, first, k));
    OneStep(cfg, now, steps, 2, Attempted(now, first, k), Wants(now, k, true));
    OneStep(cfg, now, steps, 3, Wants(now, k, true), Visited(now, then_, k, id, fp));
    OneStep(cfg, now, steps, 4, Visited(now, then_, k, id, fp), Wants(now, k, true));
  }

  lemma GoingOnline(cfg: Config, now: int, env: Env, steps: seq<(Env, Event)>)
    ensures Linked(Begun(now)) && Next(cfg, Begun(now), env, GoesOnline([])) == Up(now) && Run(cfg, now, steps[..0]) == Begun(now)
  {
  }

  lemma SessionsApart(now: int, first: Env, then_: Env, k: Key, id: ConnID, fp: Fingerprint)
    requires AreApart(first, then_, id)
    ensures IsFresh(Begun(now), first) && IsFresh(Up(now), first) && IsFresh(Attempted(now, first, k), then_) && IsFresh(Wants(now, k, true), then_)
    ensures IsFresh(Visited(now, then_, k, id, fp), then_)
  {
  }

  lemma OneStep(cfg: Config, now: int, steps: seq<(Env, Event)>, n: nat, s: State, t: State)
    requires n < |steps| && Run(cfg, now, steps[..n]) == s
    requires Linked(s) && IsFresh(s, steps[n].0) && Next(cfg, s, steps[n].0, steps[n].1) == t
    ensures Run(cfg, now, steps[..n + 1]) == t
  {
    assert steps[..n + 1][..n] == steps[..n];
    hide Next;
  }
}
