/** What happens to one peer's connection leaves every other's as it was.

internal/peers/peers.go:154-278, 383-522 and 535-822: the events of one peer, of one connection, and the signals of one
peer. The events that range over all are Peers' alone. */
module PeersApart {
  import opened Basics
  import P = Peers

  /** t is s, as far as k and its connection go, and t's connections are of whom s's are, but for made, which is not k's. */
  ghost predicate LeavesBe(s: P.State, t: P.State, k: Key, made: P.ConnID) {
    && t.online == s.online && (k in s.peers <==> k in t.peers) && (k in s.peers ==> t.peers[k] == s.peers[k])
    && (forall id | id in s.conns && s.conns[id].peer == k :: id in t.conns && t.conns[id] == s.conns[id])
    && (forall id | id in t.conns && id != made :: id in s.conns && t.conns[id].peer == s.conns[id].peer)
    && (made in t.conns ==> t.conns[made].peer != k)
  }

  lemma FailedLeaves(s: P.State, env: P.Env, id: P.ConnID, k: Key, made: P.ConnID)
    requires P.Linked(s) && id in s.conns && s.conns[id].peer != k && (made in s.conns ==> s.conns[made].peer != k)
    ensures LeavesBe(s, P.Failed(s, env, id), k, made) && LeavesBe(s, P.Dropped(s, id), k, made)
  {
  }

  lemma WithConnLeaves(s: P.State, id: P.ConnID, c: P.Conn, k: Key)
    requires id in s.conns && c.peer == s.conns[id].peer && c.peer != k
    ensures LeavesBe(s, P.WithConn(s, id, c), k, id)
  {
  }

  lemma ThenLeavesBe(s: P.State, t: P.State, u: P.State, k: Key, made: P.ConnID)
    requires LeavesBe(s, t, k, made) && LeavesBe(t, u, k, made)
    ensures LeavesBe(s, u, k, made)
  {
  }

  lemma MadeLeaves(s: P.State, env: P.Env, l: Key, id: P.ConnID, offerer: bool, k: Key)
    requires l != k && (id in s.conns ==> s.conns[id].peer != k)
    ensures LeavesBe(s, P.Made(s, env, l, id, offerer), k, id)
  {
  }

  lemma ConnectedLeaves(s: P.State, env: P.Env, l: Key, k: Key)
    requires l in s.peers && l != k && env.session(l) !in s.conns
    ensures LeavesBe(s, P.Connected(s, env, l), k, env.session(l))
  {
  }

  lemma WantLeaves(s: P.State, env: P.Env, l: Key, reason: string, k: Key)
    requires P.Linked(s) && l != k && env.session(l) !in s.conns
    ensures LeavesBe(s, P.Considered(s, env, P.Want(l, reason)), k, env.session(l))
  {
    var t := P.WithPeer(s, l, P.PeerOf(s, l).(reasons := P.PeerOf(s, l).reasons + {reason}));
    ConnectedLeaves(t, env, l, k);
    hide P.Connected;
  }

  lemma ReachableLeaves(s: P.State, env: P.Env, l: Key, k: Key)
    requires P.Linked(s) && l != k && env.session(l) !in s.conns
    ensures LeavesBe(s, P.Considered(s, env, P.Reachable(l)), k, env.session(l))
  {
    if l in s.peers { ConnectedLeaves(P.WithPeer(s, l, s.peers[l].(parked := false, failures := 0)), env, l, k); }
    hide P.Connected;
  }

  lemma PeerEventLeaves(s: P.State, env: P.Env, e: P.Event, k: Key)
    requires P.Linked(s) && P.IsOfPeer(e) && e.peer != k && env.session(e.peer) !in s.conns
    ensures LeavesBe(s, P.Considered(s, env, e), k, env.session(e.peer))
  {
    if e.Want? { WantLeaves(s, env, e.peer, e.reason, k); hide P.Considered; }
    else if e.Reachable? { ReachableLeaves(s, env, e.peer, k); hide P.Considered; }
  }

  lemma DescribedLeaves(s: P.State, env: P.Env, id: P.ConnID, fp: Option<P.Fingerprint>, k: Key)
    requires P.Linked(s) && id in s.conns && s.conns[id].peer != k
    ensures LeavesBe(s, P.Described(s, env, id, fp), k, id)
  {
    FailedLeaves(s, env, id, k, id);
    WithConnLeaves(s, id, s.conns[id].(remote := fp), k);
    hide P.Failed, LeavesBe, P.Linked;
  }

  lemma OfferedLeaves(cfg: P.Config, s: P.State, env: P.Env, from: Key, id: P.ConnID, fp: Option<P.Fingerprint>, k: Key)
    requires P.Linked(s) && id !in s.conns && from != k
    ensures LeavesBe(s, P.Offered(cfg, s, env, from, id, fp), k, id)
  {
    var prior := P.PeerOf(s, from).conn;
    var t := if prior.Some? then P.Dropped(s, prior.value) else s;
    if prior.Some? {
      FailedLeaves(s, env, prior.value, k, id);
      P.DroppedLinked(s, prior.value);
    }
    assert LeavesBe(s, s, k, id);
    P.MadeLinked(t, env, from, id, false);
    MadeLeaves(t, env, from, id, false, k);
    var u := P.Made(t, env, from, id, false);
    ThenLeavesBe(s, t, u, k, id);
    assert id in u.conns && u.conns[id].peer == from;
    DescribedLeaves(u, env, id, fp, k);
    hide LeavesBe, P.Linked, P.Made, P.Dropped, P.Described;
    ThenLeavesBe(s, u, P.Described(u, env, id, fp), k, id);
  }

  lemma SignalLeaves(cfg: P.Config, s: P.State, env: P.Env, e: P.Event, k: Key)
    requires P.Linked(s) && P.IsSignal(e) && e.peer != k && (e.id in s.conns ==> s.conns[e.id].peer != k)
    ensures LeavesBe(s, P.Signaled(cfg, s, env, e), k, e.id)
  {
    assert LeavesBe(s, s, k, e.id);
    if e.id in s.conns { DescribedLeaves(s, env, e.id, e.fp, k); } else if e.OfferFrom? { OfferedLeaves(cfg, s, env, e.peer, e.id, e.fp, k); }
    hide LeavesBe, P.Linked, P.Described, P.Offered;
  }

  lemma ProvesLeaves(cfg: P.Config, s: P.State, env: P.Env, id: P.ConnID, c: P.Conn, k: Key)
    requires P.Linked(s) && id in s.conns && c.peer == s.conns[id].peer && c.peer != k
    ensures LeavesBe(s, P.Proves(cfg, P.WithConn(s, id, c), env, id), k, id)
  {
    var t := P.WithConn(s, id, c);
    WithConnLeaves(s, id, c, k);
    assert P.Linked(t);
    FailedLeaves(t, env, id, k, id);
    WithConnLeaves(t, id, c.(version := (if c.hello.Some? && cfg.common(c.hello.value).Some? then cfg.common(c.hello.value).value else 0), proved := true), k);
    hide P.Failed, P.Linked, LeavesBe;
    forall u | LeavesBe(t, u, k, id) ensures LeavesBe(s, u, k, id) { ThenLeavesBe(s, t, u, k, id); }
  }

  lemma VerifiedLeaves(cfg: P.Config, s: P.State, env: P.Env, id: P.ConnID, signature: P.Signature, k: Key)
    requires P.Linked(s) && id in s.conns && s.conns[id].peer != k
    ensures LeavesBe(s, P.Verified(cfg, s, env, id, signature), k, id)
  {
    FailedLeaves(s, env, id, k, id);
    hide P.Failed;
  }

  lemma ReceivedLeaves(cfg: P.Config, s: P.State, env: P.Env, id: P.ConnID, m: P.Message, k: Key)
    requires P.Linked(s) && id in s.conns && s.conns[id].peer != k
    ensures LeavesBe(s, P.ReceivedOn(cfg, s, env, id, m), k, id)
  {
    var c := s.conns[id];
    assert LeavesBe(s, s, k, id);
    FailedLeaves(s, env, id, k, id);
    if m.Hello? { ProvesLeaves(cfg, s, env, id, c.(hello := Some(m.versions)), k); }
    if m.Challenge? { ProvesLeaves(cfg, s, env, id, c.(theirs := m.nonce), k); }
    if m.Proof? { VerifiedLeaves(cfg, s, env, id, m.signature, k); }
    if m.Interest? { WithConnLeaves(s, id, c.(theyWant := m.wanted), k); }
    if m.Renegotiate? && m.how.Description? { DescribedLeaves(s, env, id, m.how.fp, k); }
    hide P.Failed, P.Proves, P.Verified, P.Described, LeavesBe, P.Linked, P.WithConn;
  }

  lemma ConnEventLeaves(cfg: P.Config, s: P.State, env: P.Env, e: P.Event, k: Key)
    requires P.Linked(s) && P.IsOfConn(e) && (e.id in s.conns ==> s.conns[e.id].peer != k)
    ensures LeavesBe(s, P.Reported(cfg, s, env, e), k, e.id)
  {
    assert LeavesBe(s, s, k, e.id);
    if e.id in s.conns {
      var c := s.conns[e.id];
      FailedLeaves(s, env, e.id, k, e.id);
      if e.Received? { ReceivedLeaves(cfg, s, env, e.id, e.message, k); }
      if e.LocalDescription? { WithConnLeaves(s, e.id, c.(local := e.fp), k); }
      if e.Opened? { WithConnLeaves(s, e.id, c.(nonce := Some(e.nonce)), k); }
    }
    hide P.ReceivedOn, P.Failed, LeavesBe, P.WithConn, P.Linked;
  }

  /** The event is of one peer or of one connection, and not of k. */
  predicate IsAside(s: P.State, k: Key, e: P.Event) {
    || ((P.IsSignal(e) || P.IsOfPeer(e)) && e.peer != k && (P.IsSignal(e) && e.id in s.conns ==> s.conns[e.id].peer != k))
    || (P.IsOfConn(e) && (e.id in s.conns ==> s.conns[e.id].peer != k))
  }

  /** The session of the connection an event can make. */
  function MadeBy(env: P.Env, e: P.Event): P.ConnID
    requires P.IsSignal(e) || P.IsOfPeer(e) || P.IsOfConn(e)
  {
    if P.IsOfPeer(e) then env.session(e.peer) else e.id
  }

  /** Whatever this peer wishes of others, whatever the service and others say, and whatever happens on their connections,
      all that is known of k, and k's connection, stays as it was, and no other connection becomes k's. */
  lemma OthersAreLeftBe(cfg: P.Config, s: P.State, env: P.Env, e: P.Event, k: Key)
    requires P.Linked(s) && P.IsFresh(s, env) && IsAside(s, k, e)
    ensures LeavesBe(s, P.Next(cfg, s, env, e), k, MadeBy(env, e))
  {
    if P.IsSignal(e) { SignalLeaves(cfg, s, env, e, k); }
    else if P.IsOfPeer(e) { PeerEventLeaves(s, env, e, k); }
    else { ConnEventLeaves(cfg, s, env, e, k); }
    hide P.Signaled, P.Considered, P.Reported, LeavesBe, P.Linked;
  }
}
