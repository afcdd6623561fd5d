/** What this peer wants of others is what it said (internal/peers/peers.go:223-278): nothing else that happens changes it. */
module Wanting {
  import opened Basics
  import opened Peers

  /** In t this peer wants of everybody what it wants of them in s. */
  ghost predicate WantsAlike(s: State, t: State) {
    forall k :: PeerOf(t, k).reasons == PeerOf(s, k).reasons
  }

  lemma Then(s: State, t: State, u: State)
    requires WantsAlike(s, t) && WantsAlike(t, u)
    ensures WantsAlike(s, u)
  {
  }

  lemma FailedAlike(s: State, env: Env, id: ConnID)
    requires id in s.conns && s.conns[id].peer in s.peers
    ensures WantsAlike(s, Failed(s, env, id)) && WantsAlike(s, Dropped(s, id))
  {
  }

  lemma DescribedAlike(s: State, env: Env, id: ConnID, fp: Option<Fingerprint>)
    requires id in s.conns && s.conns[id].peer in s.peers
    ensures WantsAlike(s, Described(s, env, id, fp))
  {
    FailedAlike(s, env, id);
    hide Failed;
  }

  lemma ConnectedAlike(s: State, env: Env, k: Key)
    requires k in s.peers
    ensures WantsAlike(s, Connected(s, env, k))
  {
  }

  lemma OfferedAlike(cfg: Config, s: State, env: Env, from: Key, id: ConnID, fp: Option<Fingerprint>)
    requires Linked(s) && id !in s.conns
    ensures WantsAlike(s, Offered(cfg, s, env, from, id, fp))
  {
    var prior := PeerOf(s, from).conn;
    var t := if prior.Some? then Dropped(s, prior.value) else s;
    if prior.Some? { FailedAlike(s, env, prior.value); }
    assert WantsAlike(t, Made(t, env, from, id, false));
    Then(s, t, Made(t, env, from, id, false));
    DescribedAlike(Made(t, env, from, id, false), env, id, fp);
    hide Described, WantsAlike, Dropped;
    Then(s, Made(t, env, from, id, false), Described(Made(t, env, from, id, false), env, id, fp));
    assert WantsAlike(s, s) by { SameWants(s, s); }
  }

  lemma SameWants(s: State, t: State)
    requires t.peers == s.peers
    ensures WantsAlike(s, t)
  {
  }

  lemma ProvesAlike(cfg: Config, s: State, env: Env, id: ConnID, c: Conn)
    requires id in s.conns && s.conns[id].peer in s.peers && c.peer == s.conns[id].peer
    ensures WantsAlike(s, Proves(cfg, WithConn(s, id, c), env, id))
  {
    FailedAlike(WithConn(s, id, c), env, id);
    hide Failed;
  }

  lemma VerifiedAlike(cfg: Config, s: State, env: Env, id: ConnID, signature: Signature)
    requires id in s.conns && s.conns[id].peer in s.peers
    ensures WantsAlike(s, Verified(cfg, s, env, id, signature))
  {
    FailedAlike(s, env, id);
    hide Failed, TranscriptOf;
  }

  lemma HandshakenAlike(cfg: Config, s: State, env: Env, id: ConnID, m: Message)
    requires id in s.conns && s.conns[id].peer in s.peers
    ensures WantsAlike(s, Handshaken(cfg, s, env, id, m))
  {
    var c := s.conns[id];
    FailedAlike(s, env, id);
    if m.Hello? { ProvesAlike(cfg, s, env, id, c.(hello := Some(m.versions))); }
    if m.Challenge? { ProvesAlike(cfg, s, env, id, c.(theirs := m.nonce)); }
    if m.Proof? { VerifiedAlike(cfg, s, env, id, m.signature); }
    hide Failed, Proves, Verified, WantsAlike, WithConn;
  }

  lemma ReceivedAlike(cfg: Config, s: State, env: Env, id: ConnID, m: Message)
    requires id in s.conns && s.conns[id].peer in s.peers
    ensures WantsAlike(s, ReceivedOn(cfg, s, env, id, m))
  {
    HandshakenAlike(cfg, s, env, id, m);
    FailedAlike(s, env, id);
    SameWants(s, s);
    if m.Interest? { SameWants(s, WithConn(s, id, s.conns[id].(theyWant := m.wanted))); }
    if m.Renegotiate? && m.how.Description? { DescribedAlike(s, env, id, m.how.fp); }
    hide Handshaken, Failed, Described, WantsAlike, WithConn;
  }

  lemma ReportedAlike(cfg: Config, s: State, env: Env, e: Event)
    requires Linked(s) && IsOfConn(e)
    ensures WantsAlike(s, Reported(cfg, s, env, e))
  {
    SameWants(s, s);
    if e.id in s.conns {
      var c := s.conns[e.id];
      assert c.peer in s.peers;
      FailedAlike(s, env, e.id);
      if e.Received? { ReceivedAlike(cfg, s, env, e.id, e.message); }
      if e.LocalDescription? { SameWants(s, WithConn(s, e.id, c.(local := e.fp))); }
      if e.Opened? { SameWants(s, WithConn(s, e.id, c.(nonce := Some(e.nonce)))); }
    }
    hide Linked, ReceivedOn, Failed, WithConn, WantsAlike;
  }

  lemma SignaledAlike(cfg: Config, s: State, env: Env, e: Event)
    requires Linked(s) && IsSignal(e)
    ensures WantsAlike(s, Signaled(cfg, s, env, e))
  {
    SameWants(s, s);
    if e.id in s.conns { DescribedAlike(s, env, e.id, e.fp); } else if e.OfferFrom? { OfferedAlike(cfg, s, env, e.peer, e.id, e.fp); }
    hide Linked, Described, Offered, WantsAlike;
  }

  lemma TickedAlike(cfg: Config, s: State, env: Env, k: Key)
    requires Linked(s)
    ensures WantsAlike(s, Ticked(cfg, s, env, k))
  {
    if k in s.peers {
      if s.peers[k].conn.Some? {
        FailedAlike(s, env, s.peers[k].conn.value);
        hide Linked, Failed, Dropped;
      } else {
        ConnectedAlike(s, env, k);
        hide Linked, Connected;
      }
    }
  }

  lemma OnlineAlike(s: State, env: Env, k: Key)
    ensures WantsAlike(s, Online(s, env, k)) && WantsAlike(s, Retried(s, env, k))
  {
    if k in s.peers { ConnectedAlike(s, env, k); }
    hide Connected;
  }

  lemma {:induction false} EachAlike(cfg: Config, s: State, env: Env, order: seq<Key>, e: Event)
    ensures WantsAlike(s, Each(cfg, s, env, order, e))
  {
    if order != [] {
      var (t, k) := (Each(cfg, s, env, order[..|order| - 1], e), order[|order| - 1]);
      EachAlike(cfg, s, env, order[..|order| - 1], e);
      OnlineAlike(t, env, k);
      if Linked(t) { TickedAlike(cfg, t, env, k); }
      SameWants(t, t);
      hide Online, Retried, Ticked, Linked, WantsAlike;
      Then(s, t, Each(cfg, s, env, order, e));
    }
  }

  lemma {:induction false} EachGoneAlike(s: State, env: Env, ids: seq<ConnID>)
    ensures WantsAlike(s, EachGone(s, env, ids))
  {
    if ids != [] {
      var (t, id) := (EachGone(s, env, ids[..|ids| - 1]), ids[|ids| - 1]);
      EachGoneAlike(s, env, ids[..|ids| - 1]);
      if id in t.conns && Linked(t) { FailedAlike(t, env, id); }
      hide Failed;
    }
  }

  lemma RangedAlike(cfg: Config, s: State, env: Env, e: Event)
    requires !IsSignal(e) && !IsOfPeer(e) && !IsOfConn(e)
    ensures WantsAlike(s, Ranged(cfg, s, env, e))
  {
    match e
    case GoesOnline(order) => EachAlike(cfg, s.(online := true), env, order, e);
    case NetworkChanged(order) => EachAlike(cfg, s, env, order, e);
    case Reset(ids) => EachGoneAlike(s, env, ids);
    case GoesOffline =>
    case Tick(order, again) =>
      EachAlike(cfg, s, env, again, NetworkChanged(again));
      var t := if env.now - s.ticked > 3 * cfg.tick then Each(cfg, s, env, again, NetworkChanged(again)) else s;
      EachAlike(cfg, t.(ticked := env.now), env, order, e);
      hide Each;
      Then(s, t, Ranged(cfg, s, env, e));
  }

  lemma ConsideredWants(s: State, env: Env, e: Event, k: Key)
    requires Linked(s) && IsOfPeer(e)
    ensures var (before, after) := (PeerOf(s, k).reasons, PeerOf(Considered(s, env, e), k).reasons);
      after == if e.peer != k then before
               else match e case Want(_, r) => before + {r} case Release(_, r) => before - {r} case Disconnect(_) => {} case _ => before
  {
    if e.Want? { WantWants(s, env, e.peer, e.reason); } else if e.Reachable? { ReachableWants(s, env, e.peer); } else { OtherWants(s, env, e, k); }
    hide Considered, Linked;
  }

  lemma WantWants(s: State, env: Env, l: Key, reason: string)
    requires Linked(s)
    ensures forall k :: PeerOf(Considered(s, env, Want(l, reason)), k).reasons == PeerOf(s, k).reasons + if k == l then {reason} else {}
  {
    var p := PeerOf(s, l);
    ConnectedAlike(WithPeer(s, l, p.(reasons := p.reasons + {reason})), env, l);
    hide Connected, Linked;
    assert forall k :: PeerOf(s, k).reasons + {} == PeerOf(s, k).reasons;
  }

  lemma ReachableWants(s: State, env: Env, l: Key)
    requires Linked(s)
    ensures WantsAlike(s, Considered(s, env, Reachable(l)))
  {
    ConnectedAlike(WithPeer(s, l, PeerOf(s, l).(parked := false, failures := 0)), env, l);
    hide Connected, Linked;
  }

  lemma OtherWants(s: State, env: Env, e: Event, k: Key)
    requires Linked(s) && (e.Unreachable? || e.Release? || e.Disconnect?)
    ensures var (before, after) := (PeerOf(s, k).reasons, PeerOf(Considered(s, env, e), k).reasons);
      after == if e.peer != k then before else match e case Release(_, r) => before - {r} case Disconnect(_) => {} case _ => before
  {
    var (l, p) := (e.peer, PeerOf(s, e.peer));
    if l in s.peers && p.conn.Some? {
      FailedAlike(s, env, p.conn.value);
      FailedAlike(WithPeer(s, l, p.(reasons := {}, retry := None)), env, p.conn.value);
    }
    hide Connected, Linked, Dropped, Failed;
  }

  /** Whatever event comes, what this peer wants of k is what it wanted, with a reason it begins to have, without one it ceases to have, and
      nothing once it disconnects. */
  lemma WantsAsItSays(cfg: Config, s: State, env: Env, e: Event, k: Key)
    requires Linked(s)
    ensures var (before, after) := (PeerOf(s, k).reasons, PeerOf(Next(cfg, s, env, e), k).reasons);
      after == if e == Disconnect(k) then {}
               else if e.Want? && e.peer == k then before + {e.reason}
               else if e.Release? && e.peer == k then before - {e.reason}
               else before
  {
    if IsOfPeer(e) { ConsideredWants(s, env, e, k); hide Considered, Linked; }
    else {
      AllAlike(cfg, s, env, e);
      hide Next, Linked;
    }
  }

  lemma AllAlike(cfg: Config, s: State, env: Env, e: Event)
    requires Linked(s) && !IsOfPeer(e)
    ensures WantsAlike(s, Next(cfg, s, env, e))
  {
    hide Signaled, Reported, Ranged, WantsAlike, Linked;
    if IsSignal(e) { SignaledAlike(cfg, s, env, e); }
    else if IsOfConn(e) { ReportedAlike(cfg, s, env, e); }
    else { RangedAlike(cfg, s, env, e); }
  }

  /** In every run, from when this peer wants k for a reason, until it releases it or disconnects, k is connected; or has an attempt
      scheduled; or is parked. */
  lemma WantedSince(cfg: Config, now: int, steps: seq<(Env, Event)>, i: nat, n: nat, k: Key, reason: string)
    requires i < n <= |steps| && steps[i].1 == Want(k, reason) && IsFresh(Run(cfg, now, steps[..i]), steps[i].0)
    requires forall j | i < j < n :: steps[j].1 != Disconnect(k) && steps[j].1 != Release(k, reason)
    ensures var s := Run(cfg, now, steps[..n]);
      k in s.peers && reason in s.peers[k].reasons && (s.peers[k].conn.Some? || s.peers[k].retry.Some? || s.peers[k].parked)
  {
    KeepsReason(cfg, now, steps, i, n, k, reason);
    EveryRunKeeps(cfg, now, steps[..n]);
    hide Run, Base;
  }

  lemma {:induction false} KeepsReason(cfg: Config, now: int, steps: seq<(Env, Event)>, i: nat, n: nat, k: Key, reason: string)
    requires i < n <= |steps| && steps[i].1 == Want(k, reason) && IsFresh(Run(cfg, now, steps[..i]), steps[i].0)
    requires forall j | i < j < n :: steps[j].1 != Disconnect(k) && steps[j].1 != Release(k, reason)
    ensures reason in PeerOf(Run(cfg, now, steps[..n]), k).reasons
  {
    hide *;
    LastStep(cfg, now, steps, n, k, reason);
    if i < n - 1 { KeepsReason(cfg, now, steps, i, n - 1, k, reason); }
  }

  lemma LastStep(cfg: Config, now: int, steps: seq<(Env, Event)>, n: nat, k: Key, reason: string)
    requires 0 < n <= |steps|
    ensures var (was, (env, e), later) := (Run(cfg, now, steps[..n - 1]), steps[n - 1], Run(cfg, now, steps[..n]));
      && (reason in PeerOf(was, k).reasons && e != Disconnect(k) && e != Release(k, reason) ==> reason in PeerOf(later, k).reasons)
      && (IsFresh(was, env) && e == Want(k, reason) ==> reason in PeerOf(later, k).reasons)
  {
    var s := Run(cfg, now, steps[..n - 1]);
    assert steps[..n][..n - 1] == steps[..n - 1];
    EveryRunKeeps(cfg, now, steps[..n - 1]);
    assert Linked(s);
    WantsAsItSays(cfg, s, steps[n - 1].0, steps[n - 1].1, k);
    hide Next, Linked, IsFresh, Base;
  }
}
