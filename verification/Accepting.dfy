/** This peer answers only those it accepts; and when a connection is left to end (internal/peers/peers.go:391-414, 580-616). */
module Accepting {
  import opened Basics
  import opened Peers

  /** Of t's connections, those this peer does not offer were s's, as they were; made is not asked about. */
  ghost predicate AnswersNoMore(s: State, t: State, made: set<ConnID>) {
    forall id | id in t.conns && id !in made && !t.conns[id].offerer :: id in s.conns && !s.conns[id].offerer && t.conns[id].peer == s.conns[id].peer
  }

  lemma Then(s: State, t: State, u: State, made: set<ConnID>)
    requires AnswersNoMore(s, t, made) && AnswersNoMore(t, u, made)
    ensures AnswersNoMore(s, u, made)
  {
  }

  lemma DescribedAnswers(s: State, env: Env, id: ConnID, fp: Option<Fingerprint>)
    requires id in s.conns && s.conns[id].peer in s.peers
    ensures AnswersNoMore(s, Described(s, env, id, fp), {}) && AnswersNoMore(s, Failed(s, env, id), {}) && AnswersNoMore(s, Dropped(s, id), {})
    ensures forall made :: AnswersNoMore(s, Described(s, env, id, fp), made)
  {
  }

  lemma EndedAnswers(s: State, env: Env, id: ConnID)
    requires id in s.conns && s.conns[id].peer in s.peers
    ensures Failed(s, env, id).conns == Dropped(s, id).conns == s.conns - {id}
    ensures AnswersNoMore(s, Failed(s, env, id), {}) && AnswersNoMore(s, Dropped(s, id), {})
  {
  }

  lemma ReceivedAnswers(cfg: Config, s: State, env: Env, id: ConnID, m: Message)
    requires id in s.conns && s.conns[id].peer in s.peers
    ensures AnswersNoMore(s, ReceivedOn(cfg, s, env, id, m), {})
  {
    HandshakenAnswers(cfg, s, env, id, m);
    FailedConns(s, env, id);
    if m.Renegotiate? && m.how.Description? { DescribedAnswers(s, env, id, m.how.fp); }
    hide Handshaken, Failed, Described;
  }

  lemma HandshakenAnswers(cfg: Config, s: State, env: Env, id: ConnID, m: Message)
    requires id in s.conns && s.conns[id].peer in s.peers
    ensures AnswersNoMore(s, Handshaken(cfg, s, env, id, m), {})
  {
    FailedConns(s, env, id);
    var c := s.conns[id];
    if m.Hello? { ProvesAnswers(cfg, s, env, id, c.(hello := Some(m.versions))); }
    if m.Challenge? { ProvesAnswers(cfg, s, env, id, c.(theirs := m.nonce)); }
    hide Failed, Proves, TranscriptOf, WithConn;
  }

  lemma ProvesAnswers(cfg: Config, s: State, env: Env, id: ConnID, c: Conn)
    requires id in s.conns && s.conns[id].peer in s.peers && c.peer == s.conns[id].peer && c.offerer == s.conns[id].offerer
    ensures AnswersNoMore(s, Proves(cfg, WithConn(s, id, c), env, id), {})
  {
    FailedConns(WithConn(s, id, c), env, id);
    hide Failed;
  }

  lemma ReportedAnswers(cfg: Config, s: State, env: Env, e: Event)
    requires Linked(s) && IsOfConn(e)
    ensures AnswersNoMore(s, Reported(cfg, s, env, e), {})
  {
    if e.id in s.conns {
      assert s.conns[e.id].peer in s.peers;
      EndedAnswers(s, env, e.id);
      var c := s.conns[e.id];
      if e.Received? { ReceivedAnswers(cfg, s, env, e.id, e.message); }
      if e.LocalDescription? { ChangedAnswers(s, e.id, c.(local := e.fp)); }
      if e.Opened? { ChangedAnswers(s, e.id, c.(nonce := Some(e.nonce))); }
    }
    assert AnswersNoMore(s, s, {});
    hide Linked, ReceivedOn, Failed, WithConn, AnswersNoMore;
  }

  lemma ChangedAnswers(s: State, id: ConnID, c: Conn)
    requires id in s.conns && c.peer == s.conns[id].peer && c.offerer == s.conns[id].offerer
    ensures AnswersNoMore(s, WithConn(s, id, c), {})
  {
  }

  lemma ConnectedAnswers(s: State, env: Env, k: Key)
    requires k in s.peers
    ensures AnswersNoMore(s, Connected(s, env, k), {})
  {
  }

  lemma ConsideredAnswers(s: State, env: Env, e: Event)
    requires Linked(s) && IsOfPeer(e)
    ensures AnswersNoMore(s, Considered(s, env, e), {})
  {
    var (k, p) := (e.peer, PeerOf(s, e.peer));
    if e.Want? {
      ConnectedAnswers(WithPeer(s, k, p.(reasons := p.reasons + {e.reason})), env, k);
      hide Connected, Linked;
    } else if e.Reachable? {
      ConnectedAnswers(WithPeer(s, k, p.(parked := false, failures := 0)), env, k);
      hide Connected, Linked;
    }
  }

  lemma OneAnswers(cfg: Config, s: State, env: Env, k: Key)
    requires Linked(s)
    ensures AnswersNoMore(s, Ticked(cfg, s, env, k), {})
  {
    if k in s.peers {
      if s.peers[k].conn.Some? { TickedConns(cfg, s, env, k); } else { ConnectedAnswers(s, env, k); }
      hide Linked, Connected, Failed, Dropped;
      if s.peers[k].conn.Some? { hide Ticked; }
    }
  }

  lemma TickedConns(cfg: Config, s: State, env: Env, k: Key)
    requires Linked(s) && k in s.peers && s.peers[k].conn.Some?
    ensures var t := Ticked(cfg, s, env, k); t.conns == s.conns || t.conns == s.conns - {s.peers[k].conn.value}
  {
    var one := s.peers[k].conn.value;
    assert one in s.conns && s.conns[one].peer == k;
    EndedAnswers(s, env, one);
    hide Linked, AnswersNoMore, Failed, Dropped;
  }

  lemma OnlineAnswers(s: State, env: Env, k: Key)
    ensures AnswersNoMore(s, Online(s, env, k), {}) && AnswersNoMore(s, Retried(s, env, k), {})
  {
    if k in s.peers { ConnectedAnswers(s, env, k); }
    hide Connected;
  }

  lemma {:induction false} EachAnswers(cfg: Config, s: State, env: Env, order: seq<Key>, e: Event)
    ensures AnswersNoMore(s, Each(cfg, s, env, order, e), {})
  {
    if order != [] {
      var (t, k) := (Each(cfg, s, env, order[..|order| - 1], e), order[|order| - 1]);
      EachAnswers(cfg, s, env, order[..|order| - 1], e);
      OnlineAnswers(t, env, k);
      if Linked(t) { OneAnswers(cfg, t, env, k); }
      assert AnswersNoMore(t, t, {});
      hide Online, Retried, Ticked, Linked, AnswersNoMore;
      Then(s, t, Each(cfg, s, env, order, e), {});
    }
  }

  lemma {:induction false} EachGoneAnswers(s: State, env: Env, ids: seq<ConnID>)
    ensures AnswersNoMore(s, EachGone(s, env, ids), {})
  {
    if ids != [] {
      var (t, id) := (EachGone(s, env, ids[..|ids| - 1]), ids[|ids| - 1]);
      EachGoneAnswers(s, env, ids[..|ids| - 1]);
      if id in t.conns && Linked(t) { FailedConns(t, env, id); }
      hide Failed;
    }
  }

  lemma RangedAnswers(cfg: Config, s: State, env: Env, e: Event)
    requires !IsSignal(e) && !IsOfPeer(e) && !IsOfConn(e)
    ensures AnswersNoMore(s, Ranged(cfg, s, env, e), {})
  {
    match e
    case GoesOnline(order) => EachAnswers(cfg, s.(online := true), env, order, e);
    case NetworkChanged(order) => EachAnswers(cfg, s, env, order, e);
    case Reset(ids) => EachGoneAnswers(s, env, ids);
    case GoesOffline =>
    case Tick(order, again) =>
      EachAnswers(cfg, s, env, again, NetworkChanged(again));
      var t := if env.now - s.ticked > 3 * cfg.tick then Each(cfg, s, env, again, NetworkChanged(again)) else s;
      EachAnswers(cfg, t.(ticked := env.now), env, order, e);
      hide Each;
      Then(s, t, Ranged(cfg, s, env, e), {});
  }

  lemma OfferedAnswers(cfg: Config, s: State, env: Env, from: Key, id: ConnID, fp: Option<Fingerprint>)
    requires Linked(s) && id !in s.conns
    ensures AnswersNoMore(s, Offered(cfg, s, env, from, id, fp), {id})
    ensures var t := Offered(cfg, s, env, from, id, fp); id in t.conns ==> cfg.accepts(from) && t.conns[id].peer == from
  {
    var prior := PeerOf(s, from).conn;
    var t := if prior.Some? then Dropped(s, prior.value) else s;
    DescribedAnswers(Made(t, env, from, id, false), env, id, fp);
    hide Again;
  }

  /** Whatever event comes, a connection that is new and that this peer does not offer is of a peer it accepts, who offered it. */
  lemma OnlyTheAcceptedAreAnswered(cfg: Config, s: State, env: Env, e: Event, id: ConnID)
    requires Linked(s) && id in Next(cfg, s, env, e).conns && !Next(cfg, s, env, e).conns[id].offerer
    requires id in s.conns ==> s.conns[id].offerer || s.conns[id].peer != Next(cfg, s, env, e).conns[id].peer
    ensures cfg.accepts(Next(cfg, s, env, e).conns[id].peer)
    ensures e.OfferFrom? && e.id == id && e.peer == Next(cfg, s, env, e).conns[id].peer
  {
    if IsSignal(e) {
      if e.id in s.conns { SignalAnswers(s, env, e); } else if e.OfferFrom? { OfferedAnswers(cfg, s, env, e.peer, e.id, e.fp); }
    }
    else if IsOfPeer(e) { ConsideredAnswers(s, env, e); }
    else if IsOfConn(e) { ReportedAnswers(cfg, s, env, e); }
    else { RangedAnswers(cfg, s, env, e); }
    hide Offered, Described, Considered, Reported, Ranged;
  }

  lemma SignalAnswers(s: State, env: Env, e: Event)
    requires Linked(s) && IsSignal(e) && e.id in s.conns
    ensures s.conns[e.id].peer in s.peers && AnswersNoMore(s, Described(s, env, e.id, e.fp), {})
  {
    DescribedAnswers(s, env, e.id, e.fp);
  }

  /** So in every run, every connection this peer does not offer is of a peer it accepts. */
  lemma {:induction false} EveryRunAnswersTheAccepted(cfg: Config, now: int, steps: seq<(Env, Event)>, id: ConnID)
    requires id in Run(cfg, now, steps).conns && !Run(cfg, now, steps).conns[id].offerer
    ensures cfg.accepts(Run(cfg, now, steps).conns[id].peer)
  {
    if steps != [] {
      var (s, step) := (Run(cfg, now, steps[..|steps| - 1]), steps[|steps| - 1]);
      var t := Run(cfg, now, steps);
      if id in s.conns && !s.conns[id].offerer && s.conns[id].peer == t.conns[id].peer {
        EveryRunAnswersTheAccepted(cfg, now, steps[..|steps| - 1], id);
      } else {
        OnlyTheAcceptedAreAnswered(cfg, s, step.0, step.1, id);
      }
      hide Next, Linked;
    }
  }

  /** And what a peer not accepted signals, but on a connection it has, changes nothing. */
  lemma StrangersChangeNothing(cfg: Config, s: State, env: Env, e: Event)
    requires Linked(s) && IsSignal(e) && !cfg.accepts(e.peer)
    requires !(e.id in s.conns && s.conns[e.id].peer == e.peer)
    ensures Next(cfg, s, env, e) == s
  {
  }

  /** A connection ends at a tick, of those ranged over, if and only if it was not ready for as long as an attempt may last, or has been
      ready, with neither side wanting it, for as long as it may be idle; and nobody else's does. */
  lemma TickEndsIff(cfg: Config, s: State, env: Env, k: Key, id: ConnID)
    requires Linked(s) && id in s.conns && s.conns[id].peer in s.peers
    ensures id !in Ticked(cfg, s, env, k).conns <==>
      var (c, p) := (s.conns[id], s.peers[s.conns[id].peer]);
      && c.peer == k
      && (|| (!c.ready && env.now - c.started >= cfg.attempt)
          || (c.ready && p.reasons == {} && !c.theyWant && p.idleSince.Some? && env.now - p.idleSince.value >= cfg.idle))
  {
    assert s.peers[s.conns[id].peer].conn == Some(id);
    if k in s.peers && s.peers[k].conn.Some? {
      var one := s.peers[k].conn.value;
      assert one in s.conns && s.conns[one].peer == k && (one == id <==> k == s.conns[id].peer);
      hide Linked;
      EndedAnswers(s, env, one);
      hide Failed, Dropped, AnswersNoMore;
    }
  }

  /** What the other side says it wants of a ready connection is what is kept of it, and nothing else of the connection changes. */
  lemma InterestIsHeard(cfg: Config, s: State, env: Env, id: ConnID, wanted: bool)
    requires Linked(s) && id in s.conns && s.conns[id].ready
    ensures Next(cfg, s, env, Received(id, Interest(wanted))) == s.(conns := s.conns[id := s.conns[id].(theyWant := wanted)])
  {
  }

  /** Ranged over, a peer gets a new connection, if this peer is online, if and only if it has none, is wanted, and is not parked as the
      service is reached; has an attempt scheduled as waiting attempts are made at once; and has one due, and is not parked, at a tick. */
  lemma AttemptsIff(cfg: Config, s: State, env: Env, k: Key)
    requires Linked(s) && env.session(k) !in s.conns && s.online
    ensures var p := PeerOf(s, k);
      && (env.session(k) in Online(s, env, k).conns <==> p.reasons != {} && p.conn.None? && !p.parked)
      && (env.session(k) in Retried(s, env, k).conns <==> p.reasons != {} && p.conn.None? && p.retry.Some?)
      && (env.session(k) in Ticked(cfg, s, env, k).conns <==>
            p.reasons != {} && p.conn.None? && !p.parked && p.retry.Some? && env.now >= p.retry.value)
  {
    ConnectionMade(s, env, k);
    if k in s.peers && s.peers[k].conn.Some? { TickedConns(cfg, s, env, k); hide Ticked; }
    hide Linked, Connected;
  }

  lemma ConnectionMade(s: State, env: Env, k: Key)
    ensures k in s.peers && s.online ==> env.session(k) in Connected(s, env, k).conns
  {
  }

  /** A connection lost schedules the next attempt, if its peer is wanted and not parked, as late as after one failure more. */
  lemma LossSchedules(cfg: Config, s: State, env: Env, id: ConnID)
    requires Linked(s) && id in s.conns
    ensures var (t, k) := (Next(cfg, s, env, Closed(id)), s.conns[id].peer);
      && k in s.peers && k in t.peers && id !in t.conns && t.peers[k].conn == None
      && var p := s.peers[k];
         if p.reasons != {} && !p.parked then t.peers[k].failures == p.failures + 1 && t.peers[k].retry == Some(env.later(p.failures + 1))
         else t.peers[k].failures == p.failures && t.peers[k].retry == p.retry
  {
  }
}
