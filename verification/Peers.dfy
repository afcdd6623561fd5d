/** This peer's connections to others, and what each event does to them.

internal/peers/peers.go:79-100, 154-278, 383-522 and 524-822. The events come one at a time, as the source queues
them, and every map is ranged over in an order that is any. */
module Peers {
  import opened Basics

  type ConnID = nat
  type Nonce = nat
  type Signature = nat
  type Fingerprint = nat

  datatype Peer = Peer(reasons: set<string>, conn: Option<ConnID>, retry: Option<int>, failures: nat, parked: bool, idleSince: Option<int>)

  datatype Conn = Conn(peer: Key, offerer: bool, started: int, local: Option<Fingerprint>, remote: Option<Fingerprint>,
    nonce: Option<Nonce>, hello: Option<seq<nat>>, theirs: Option<Nonce>, version: nat, proved: bool, ready: bool, theyWant: bool)

  // ---- What is proven ----

  datatype Role = Offerer | Answerer

  datatype Party = Party(identity: Key, fingerprint: Option<Fingerprint>, nonce: Option<Nonce>)

  /** What the offerer, or the answerer, signs on a connection. */
  datatype Transcript = Transcript(version: nat, signer: Role, offerer: Party, answerer: Party)

  function TranscriptOf(me: Key, c: Conn, offerer: bool): Transcript {
    var (mine, theirs) := (Party(me, c.local, c.nonce), Party(c.peer, c.remote, c.theirs));
    var role := if offerer then Offerer else Answerer;
    if c.offerer then Transcript(c.version, role, mine, theirs) else Transcript(c.version, role, theirs, mine)
  }

  /** Who this peer is, whom it accepts connections from, the highest version it has in common with others, how a
      signature of a key over a transcript verifies, and its timing. */
  datatype Config = Config(me: Key, accepts: Key -> bool, common: seq<nat> -> Option<nat>, verifies: (Key, Transcript, Signature) -> bool,
    attempt: int, idle: int, tick: int)

  /** The moment of an event, the random sessions of the connections it makes, and when the next attempt after so many
      failures is. */
  datatype Env = Env(now: int, session: Key -> ConnID, later: nat -> int)

  /** The connections, and, beside them, the proof each ready one was proven with and the peers whose connection the
      observer was last told is ready. */
  datatype State = State(online: bool, ticked: int, peers: map<Key, Peer>, conns: map<ConnID, Conn>, proofs: map<ConnID, Signature>, told: set<Key>)

  predicate Wanted(p: Peer) { p.reasons != {} }

  const NOBODY := Peer({}, None, None, 0, false, None)

  function PeerOf(s: State, k: Key): Peer { if k in s.peers then s.peers[k] else NOBODY }

  function WithPeer(s: State, k: Key, p: Peer): State { s.(peers := s.peers[k := p]) }

  // ---- The steps events are made of ----

  /** The connection id is gone; the observer is told, if it was ready. */
  function Dropped(s: State, id: ConnID): State
    requires id in s.conns && s.conns[id].peer in s.peers
  {
    var c := s.conns[id];
    var p := s.peers[c.peer];
    s.(conns := s.conns - {id}, proofs := s.proofs - {id}, told := if c.ready then s.told - {c.peer} else s.told,
       peers := s.peers[c.peer := if p.conn == Some(id) then p.(conn := None) else p])
  }

  /** k's next attempt is scheduled, if it is wanted and not parked. */
  function Again(s: State, env: Env, k: Key): State
    requires k in s.peers
  {
    var p := s.peers[k];
    if !Wanted(p) || p.parked then s
    else WithPeer(s, k, p.(failures := p.failures + 1, retry := Some(env.later(p.failures + 1))))
  }

  function Failed(s: State, env: Env, id: ConnID): State
    requires id in s.conns && s.conns[id].peer in s.peers
  {
    Again(Dropped(s, id), env, s.conns[id].peer)
  }

  function Made(s: State, env: Env, k: Key, id: ConnID, offerer: bool): State {
    WithPeer(s, k, PeerOf(s, k).(conn := Some(id))).(
      conns := s.conns[id := Conn(k, offerer, env.now, None, None, None, None, None, 0, false, false, false)])
  }

  function Connected(s: State, env: Env, k: Key): State
    requires k in s.peers
  {
    var p := s.peers[k].(retry := None);
    if !s.online then WithPeer(s, k, p.(retry := Some(env.now)))
    else Made(WithPeer(s, k, p), env, k, env.session(k), true)
  }

  function WithConn(s: State, id: ConnID, c: Conn): State { s.(conns := s.conns[id := c]) }

  /** The remote description, whose fingerprint is fp, if it has just one. */
  function Described(s: State, env: Env, id: ConnID, fp: Option<Fingerprint>): State
    requires id in s.conns && s.conns[id].peer in s.peers
  {
    var c := s.conns[id];
    if fp.None? || (c.remote.Some? && c.remote != fp) then Failed(s, env, id)
    else WithConn(s, id, c.(remote := fp))
  }

  function Offered(cfg: Config, s: State, env: Env, from: Key, id: ConnID, fp: Option<Fingerprint>): State
    requires id !in s.conns
    requires from in s.peers && s.peers[from].conn.Some? ==> s.peers[from].conn.value in s.conns && s.conns[s.peers[from].conn.value].peer == from
  {
    if !cfg.accepts(from) then s
    else
      var prior := PeerOf(s, from).conn;
      if prior.Some? && !s.conns[prior.value].ready && s.conns[prior.value].offerer && cfg.me < from then s
      else Described(Made(if prior.Some? then Dropped(s, prior.value) else s, env, from, id, false), env, id, fp)
  }

  // ---- The handshake ----

  datatype Renegotiation = Description(fp: Option<Fingerprint>) | ACandidate | OfNoKind

  datatype Message =
    | Hello(versions: seq<nat>)
    | Challenge(nonce: Option<Nonce>)
    | Proof(signature: Signature)
    | Interest(wanted: bool)
    | Renegotiate(how: Renegotiation)
    | Other
    | Malformed

  /** The connection proves itself once it has the other's hello and challenge, if there is a version in common. */
  function Proves(cfg: Config, s: State, env: Env, id: ConnID): State
    requires id in s.conns && s.conns[id].peer in s.peers
  {
    var c := s.conns[id];
    if c.hello.None? || c.theirs.None? || c.proved then s
    else
      var version := cfg.common(c.hello.value);
      if version.None? then Failed(s, env, id) else WithConn(s, id, c.(version := version.value, proved := true))
  }

  function Verified(cfg: Config, s: State, env: Env, id: ConnID, signature: Signature): State
    requires id in s.conns && s.conns[id].peer in s.peers
  {
    var c := s.conns[id];
    if !cfg.verifies(c.peer, TranscriptOf(cfg.me, c, !c.offerer), signature) then Failed(s, env, id)
    else
      WithPeer(WithConn(s, id, c.(ready := true)), c.peer, s.peers[c.peer].(failures := 0, idleSince := None)).(
        proofs := s.proofs[id := signature], told := s.told + {c.peer})
  }

  function Handshaken(cfg: Config, s: State, env: Env, id: ConnID, m: Message): State
    requires id in s.conns && s.conns[id].peer in s.peers
  {
    var c := s.conns[id];
    if c.nonce.None? then Failed(s, env, id)
    else
      match m
      case Hello(versions) => if c.hello.Some? then Failed(s, env, id) else Proves(cfg, WithConn(s, id, c.(hello := Some(versions))), env, id)
      case Challenge(nonce) =>
        if c.theirs.Some? || nonce.None? then Failed(s, env, id) else Proves(cfg, WithConn(s, id, c.(theirs := nonce)), env, id)
      case Proof(signature) => if !c.proved then Failed(s, env, id) else Verified(cfg, s, env, id, signature)
      case _ => Failed(s, env, id)
  }

  function ReceivedOn(cfg: Config, s: State, env: Env, id: ConnID, m: Message): State
    requires id in s.conns && s.conns[id].peer in s.peers
  {
    var c := s.conns[id];
    if m.Malformed? then Failed(s, env, id)
    else if !c.ready then Handshaken(cfg, s, env, id, m)
    else
      match m
      case Interest(wanted) => WithConn(s, id, c.(theyWant := wanted))
      case Renegotiate(Description(fp)) => Described(s, env, id, fp)
      case Renegotiate(ACandidate) => s
      case Renegotiate(OfNoKind) => Failed(s, env, id)
      case Other => s
      case _ => Failed(s, env, id)
  }

  // ---- What every run keeps ----

  /** Each connection is its peer's, and each peer's is there: at most one for each. */
  ghost predicate Linked(s: State) {
    && (forall id | id in s.conns :: s.conns[id].peer in s.peers && s.peers[s.conns[id].peer].conn == Some(id))
    && (forall k | k in s.peers && s.peers[k].conn.Some? :: s.peers[k].conn.value in s.conns && s.conns[s.peers[k].conn.value].peer == k)
  }

  /** A peer wanted without a connection is parked, or has its next attempt scheduled. */
  predicate Attended(p: Peer) {
    Wanted(p) && p.conn.None? ==> p.parked || p.retry.Some?
  }

  /** A connection goes through the handshake in order; and if it is ready, a proof of its peer's key verifies over its
      fingerprints, nonces and version as they are now. */
  ghost predicate Staged(cfg: Config, s: State, id: ConnID)
    requires id in s.conns
  {
    var c := s.conns[id];
    && (c.nonce.Some? ==> c.local.Some? && c.remote.Some?)
    && (c.hello.Some? || c.theirs.Some? ==> c.nonce.Some?)
    && (c.proved ==> c.hello.Some? && c.theirs.Some? && cfg.common(c.hello.value) == Some(c.version))
    && (c.ready ==> c.proved && id in s.proofs && cfg.verifies(c.peer, TranscriptOf(cfg.me, c, !c.offerer), s.proofs[id]))
  }

  ghost predicate IsReady(s: State, k: Key) {
    k in s.peers && s.peers[k].conn.Some? && s.peers[k].conn.value in s.conns && s.conns[s.peers[k].conn.value].ready
  }

  /** The observer knows whose connections are ready. */
  ghost predicate Told(s: State) {
    forall k :: k in s.told <==> IsReady(s, k)
  }

  ghost predicate Base(cfg: Config, s: State) {
    Linked(s) && Told(s) && forall id | id in s.conns :: Staged(cfg, s, id)
  }

  /** All that holds, but that k, for a moment, is attended to. */
  ghost predicate AllBut(cfg: Config, s: State, k: Key) {
    Base(cfg, s) && k in s.peers && forall l | l in s.peers && l != k :: Attended(s.peers[l])
  }

  ghost predicate Invariant(cfg: Config, s: State) {
    Base(cfg, s) && forall k | k in s.peers :: Attended(s.peers[k])
  }

  lemma DroppedLinked(s: State, id: ConnID)
    requires Linked(s) && id in s.conns
    ensures var t := Dropped(s, id); Linked(t) && t.peers[s.conns[id].peer].conn.None?
    ensures Dropped(s, id).peers == s.peers[s.conns[id].peer := s.peers[s.conns[id].peer].(conn := None)]
    ensures forall j | j in s.conns && j != id :: s.conns[j].peer != s.conns[id].peer
  {
  }

  lemma DroppedTold(s: State, id: ConnID)
    requires Linked(s) && Told(s) && id in s.conns
    ensures Told(Dropped(s, id))
  {
    var t := Dropped(s, id);
    forall l ensures l in t.told <==> IsReady(t, l) {
      assert l in s.told <==> IsReady(s, l);
    }
  }

  lemma DroppedKeeps(cfg: Config, s: State, id: ConnID)
    requires Base(cfg, s) && id in s.conns
    ensures var t := Dropped(s, id); Base(cfg, t) && t.peers[s.conns[id].peer].conn.None?
    ensures Dropped(s, id).peers == s.peers[s.conns[id].peer := s.peers[s.conns[id].peer].(conn := None)]
  {
    var t := Dropped(s, id);
    DroppedLinked(s, id);
    DroppedTold(s, id);
    hide Linked, Told;
    assert forall j | j in t.conns :: j in s.conns && j != id && Staged(cfg, s, j);
  }

  lemma AgainAttends(cfg: Config, s: State, env: Env, k: Key)
    requires AllBut(cfg, s, k) && s.peers[k].conn.None?
    ensures Invariant(cfg, Again(s, env, k))
  {
    PeerChanged(cfg, s, k, Again(s, env, k).peers[k]);
  }

  /** What is not about its connection may change of a peer. */
  lemma PeerChanged(cfg: Config, s: State, k: Key, p: Peer)
    requires Base(cfg, s) && p.conn == PeerOf(s, k).conn
    ensures Base(cfg, WithPeer(s, k, p))
  {
    var t := WithPeer(s, k, p);
    assert forall id | id in t.conns :: Staged(cfg, s, id);
    forall l ensures l in t.told <==> IsReady(t, l) { assert l in s.told <==> IsReady(s, l); }
  }

  lemma FailedKeeps(cfg: Config, s: State, env: Env, id: ConnID)
    requires Base(cfg, s) && id in s.conns && AllBut(cfg, s, s.conns[id].peer)
    ensures Invariant(cfg, Failed(s, env, id))
  {
    DroppedKeeps(cfg, s, id);
    var k := s.conns[id].peer;
    hide Base, Dropped;
    AgainAttends(cfg, Dropped(s, id), env, k);
  }

  lemma MadeLinked(s: State, env: Env, k: Key, id: ConnID, offerer: bool)
    requires Linked(s) && PeerOf(s, k).conn.None? && id !in s.conns
    ensures Linked(Made(s, env, k, id, offerer))
  {
  }

  lemma MadeTold(s: State, env: Env, k: Key, id: ConnID, offerer: bool)
    requires Linked(s) && Told(s) && PeerOf(s, k).conn.None? && id !in s.conns
    ensures Told(Made(s, env, k, id, offerer))
  {
    var t := Made(s, env, k, id, offerer);
    forall l ensures l in t.told <==> IsReady(t, l) { assert l in s.told <==> IsReady(s, l); }
  }

  lemma MadeKeeps(cfg: Config, s: State, env: Env, k: Key, id: ConnID, offerer: bool)
    requires Base(cfg, s) && PeerOf(s, k).conn.None? && id !in s.conns
    requires forall l | l in s.peers && l != k :: Attended(s.peers[l])
    ensures Invariant(cfg, Made(s, env, k, id, offerer))
  {
    MadeLinked(s, env, k, id, offerer);
    MadeTold(s, env, k, id, offerer);
    hide Linked, Told;
    assert forall j | j in s.conns :: Staged(cfg, s, j);
  }

  lemma ConnectedKeeps(cfg: Config, s: State, env: Env, k: Key)
    requires AllBut(cfg, s, k) && s.peers[k].conn.None? && env.session(k) !in s.conns
    ensures Invariant(cfg, Connected(s, env, k))
  {
    var p := s.peers[k].(retry := None);
    PeerChanged(cfg, s, k, p);
    PeerChanged(cfg, s, k, p.(retry := Some(env.now)));
    if s.online {
      hide Base;
      MadeKeeps(cfg, WithPeer(s, k, p), env, k, env.session(k), true);
    }
  }

  /** A connection may change while it is not ready, or keep what was proven. */
  lemma ConnChanged(cfg: Config, s: State, id: ConnID, c: Conn)
    requires Base(cfg, s) && id in s.conns && c.peer == s.conns[id].peer && c.ready == s.conns[id].ready
    requires Staged(cfg, WithConn(s, id, c), id)
    ensures Base(cfg, WithConn(s, id, c))
  {
    var t := WithConn(s, id, c);
    assert forall j | j in s.conns && j != id :: Staged(cfg, s, j) && t.conns[j] == s.conns[j];
    forall l ensures l in t.told <==> IsReady(t, l) { assert l in s.told <==> IsReady(s, l); }
  }

  lemma DescribedKeeps(cfg: Config, s: State, env: Env, id: ConnID, fp: Option<Fingerprint>)
    requires Invariant(cfg, s) && id in s.conns
    ensures Invariant(cfg, Described(s, env, id, fp))
  {
    var c := s.conns[id];
    if fp.None? || (c.remote.Some? && c.remote != fp) {
      FailedKeeps(cfg, s, env, id);
    } else {
      assert Staged(cfg, s, id);
      ConnChanged(cfg, s, id, c.(remote := fp));
    }
  }

  lemma OfferedKeeps(cfg: Config, s: State, env: Env, from: Key, id: ConnID, fp: Option<Fingerprint>)
    requires Invariant(cfg, s) && id !in s.conns
    ensures Invariant(cfg, Offered(cfg, s, env, from, id, fp))
  {
    var prior := PeerOf(s, from).conn;
    if cfg.accepts(from) && !(prior.Some? && !s.conns[prior.value].ready && s.conns[prior.value].offerer && cfg.me < from) {
      var t := if prior.Some? then Dropped(s, prior.value) else s;
      if prior.Some? { DroppedKeeps(cfg, s, prior.value); }
      hide Base;
      MadeKeeps(cfg, t, env, from, id, false);
      DescribedKeeps(cfg, Made(t, env, from, id, false), env, id, fp);
    }
  }

  lemma ProvesKeeps(cfg: Config, s: State, env: Env, id: ConnID)
    requires Invariant(cfg, s) && id in s.conns && !s.conns[id].ready
    ensures Invariant(cfg, Proves(cfg, s, env, id))
  {
    var c := s.conns[id];
    FailedKeeps(cfg, s, env, id);
    assert Staged(cfg, s, id);
    if c.hello.Some? && c.theirs.Some? && !c.proved && cfg.common(c.hello.value).Some? {
      ConnChanged(cfg, s, id, c.(version := cfg.common(c.hello.value).value, proved := true));
    }
  }

  lemma ReadyKeeps(cfg: Config, s: State, id: ConnID, signature: Signature)
    requires Base(cfg, s) && id in s.conns && s.conns[id].proved
    requires var c := s.conns[id]; cfg.verifies(c.peer, TranscriptOf(cfg.me, c, !c.offerer), signature)
    ensures Base(cfg, WithConn(s, id, s.conns[id].(ready := true)).(proofs := s.proofs[id := signature], told := s.told + {s.conns[id].peer}))
  {
    var c := s.conns[id];
    var t := WithConn(s, id, c.(ready := true)).(proofs := s.proofs[id := signature], told := s.told + {c.peer});
    assert forall j | j in s.conns :: Staged(cfg, s, j);
    forall l ensures l in t.told <==> IsReady(t, l) { assert l in s.told <==> IsReady(s, l); }
  }

  lemma VerifiedKeeps(cfg: Config, s: State, env: Env, id: ConnID, signature: Signature)
    requires Invariant(cfg, s) && id in s.conns && s.conns[id].proved && !s.conns[id].ready
    ensures Invariant(cfg, Verified(cfg, s, env, id, signature))
  {
    var c := s.conns[id];
    if !cfg.verifies(c.peer, TranscriptOf(cfg.me, c, !c.offerer), signature) {
      FailedKeeps(cfg, s, env, id);
    } else {
      ReadyKeeps(cfg, s, id, signature);
      var t := WithConn(s, id, c.(ready := true)).(proofs := s.proofs[id := signature], told := s.told + {c.peer});
      PeerChanged(cfg, t, c.peer, s.peers[c.peer].(failures := 0, idleSince := None));
      hide Base, TranscriptOf;
    }
  }

  lemma HandshakenKeeps(cfg: Config, s: State, env: Env, id: ConnID, m: Message)
    requires Invariant(cfg, s) && id in s.conns && !s.conns[id].ready
    ensures Invariant(cfg, Handshaken(cfg, s, env, id, m))
  {
    var c := s.conns[id];
    FailedKeeps(cfg, s, env, id);
    assert Staged(cfg, s, id);
    if c.nonce.Some? {
      match m
      case Hello(versions) =>
        if c.hello.None? {
          ConnChanged(cfg, s, id, c.(hello := Some(versions)));
          hide Base;
          ProvesKeeps(cfg, WithConn(s, id, c.(hello := Some(versions))), env, id);
        }
      case Challenge(nonce) =>
        if c.theirs.None? && nonce.Some? {
          ConnChanged(cfg, s, id, c.(theirs := nonce));
          hide Base;
          ProvesKeeps(cfg, WithConn(s, id, c.(theirs := nonce)), env, id);
        }
      case Proof(signature) => if c.proved { VerifiedKeeps(cfg, s, env, id, signature); }
      case _ =>
    }
  }

  lemma ReceivedKeeps(cfg: Config, s: State, env: Env, id: ConnID, m: Message)
    requires Invariant(cfg, s) && id in s.conns
    ensures Invariant(cfg, ReceivedOn(cfg, s, env, id, m))
  {
    var c := s.conns[id];
    FailedKeeps(cfg, s, env, id);
    if !c.ready {
      HandshakenKeeps(cfg, s, env, id, m);
    } else {
      assert Staged(cfg, s, id);
      if m.Interest? { ConnChanged(cfg, s, id, c.(theyWant := m.wanted)); }
      if m.Renegotiate? && m.how.Description? { DescribedKeeps(cfg, s, env, id, m.how.fp); }
    }
  }

  // ---- Events ----

  datatype Event =
    | GoesOnline(order: seq<Key>)
    | GoesOffline
    | OfferFrom(peer: Key, id: ConnID, fp: Option<Fingerprint>)
    | AnswerFrom(peer: Key, id: ConnID, fp: Option<Fingerprint>)
    | Unreachable(peer: Key)
    | Want(peer: Key, reason: string)
    | Release(peer: Key, reason: string)
    | Reachable(peer: Key)
    | NetworkChanged(order: seq<Key>)
    | Disconnect(peer: Key)
    | Reset(ids: seq<ConnID>)
    | LocalDescription(id: ConnID, fp: Option<Fingerprint>)
    | Opened(id: ConnID, nonce: Nonce)
    | Received(id: ConnID, message: Message)
    | FileReceived(id: ConnID)
    | Closed(id: ConnID)
    | Tick(order: seq<Key>, again: seq<Key>)

  /** A peer ranged over as the service is reached. */
  function Online(s: State, env: Env, k: Key): State {
    if k in s.peers && Wanted(s.peers[k]) && s.peers[k].conn.None? && !s.peers[k].parked then Connected(s, env, k) else s
  }

  /** And as waiting attempts are made at once. */
  function Retried(s: State, env: Env, k: Key): State {
    if k in s.peers && s.peers[k].retry.Some? && s.peers[k].conn.None? && Wanted(s.peers[k]) then Connected(s, env, k) else s
  }

  /** And at a tick: an attempt too long ends, an idle connection ends, an attempt due is made, a peer nobody wants goes. */
  function Ticked(cfg: Config, s: State, env: Env, k: Key): State
    requires k in s.peers && s.peers[k].conn.Some? ==> s.peers[k].conn.value in s.conns && s.conns[s.peers[k].conn.value].peer in s.peers
  {
    if k !in s.peers then s
    else
      var p := s.peers[k];
      if p.conn.Some? then
        var c := s.conns[p.conn.value];
        if !c.ready && env.now - c.started >= cfg.attempt then Failed(s, env, p.conn.value)
        else if c.ready && !Wanted(p) && !c.theyWant then
          if p.idleSince.None? then WithPeer(s, k, p.(idleSince := Some(env.now)))
          else if env.now - p.idleSince.value >= cfg.idle then Dropped(s, p.conn.value)
          else s
        else if c.ready then WithPeer(s, k, p.(idleSince := None))
        else s
      else if p.retry.Some? && env.now >= p.retry.value && Wanted(p) && !p.parked then Connected(s, env, k)
      else if !Wanted(p) then s.(peers := s.peers - {k})
      else s
  }

  ghost function Each(cfg: Config, s: State, env: Env, order: seq<Key>, e: Event): State {
    if order == [] then s
    else
      var (t, k) := (Each(cfg, s, env, order[..|order| - 1], e), order[|order| - 1]);
      match e
      case GoesOnline(_) => Online(t, env, k)
      case NetworkChanged(_) => Retried(t, env, k)
      case _ => if Linked(t) then Ticked(cfg, t, env, k) else t
  }

  ghost function EachGone(s: State, env: Env, ids: seq<ConnID>): State {
    if ids == [] then s
    else
      var (t, id) := (EachGone(s, env, ids[..|ids| - 1]), ids[|ids| - 1]);
      if id in t.conns && Linked(t) then Failed(t, env, id) else t
  }

  /** The sessions to be made are nobody's yet, and no two are the same. */
  ghost predicate IsFresh(s: State, env: Env) {
    && (forall k :: env.session(k) !in s.conns)
    && (forall k, l | env.session(k) == env.session(l) :: k == l)
  }

  predicate IsSignal(e: Event) { e.OfferFrom? || e.AnswerFrom? }
  predicate IsOfPeer(e: Event) { e.Unreachable? || e.Want? || e.Release? || e.Reachable? || e.Disconnect? }
  predicate IsOfConn(e: Event) { e.LocalDescription? || e.Opened? || e.Received? || e.FileReceived? || e.Closed? }

  /** What an offer or an answer from a peer does. */
  function Signaled(cfg: Config, s: State, env: Env, e: Event): State
    requires Linked(s) && IsSignal(e)
  {
    match e
    case OfferFrom(from, id, fp) =>
      if id !in s.conns then Offered(cfg, s, env, from, id, fp)
      else if s.conns[id].peer == from then Described(s, env, id, fp)
      else s
    case AnswerFrom(from, id, fp) => if id in s.conns && s.conns[id].peer == from && s.conns[id].offerer then Described(s, env, id, fp) else s
  }

  /** What this peer's own wishes, and the rendezvous service's news of a peer, do. */
  function Considered(s: State, env: Env, e: Event): State
    requires Linked(s) && IsOfPeer(e)
  {
    match e
    case Unreachable(k) =>
      if k !in s.peers || (s.peers[k].conn.Some? && s.conns[s.peers[k].conn.value].ready) then s
      else
        var t := if s.peers[k].conn.Some? then Dropped(s, s.peers[k].conn.value) else s;
        WithPeer(t, k, t.peers[k].(parked := true, retry := None))
    case Want(k, reason) =>
      var p := PeerOf(s, k);
      var t := WithPeer(s, k, p.(reasons := p.reasons + {reason}));
      if p.conn.None? && !p.parked && p.retry.None? then Connected(t, env, k) else t
    case Release(k, reason) =>
      if k !in s.peers || reason !in s.peers[k].reasons then s
      else
        var p := s.peers[k].(reasons := s.peers[k].reasons - {reason});
        WithPeer(s, k, if Wanted(p) then p else p.(retry := None))
    case Reachable(k) =>
      if k !in s.peers then s
      else
        var p := s.peers[k].(parked := false);
        if Wanted(p) && p.conn.None? then Connected(WithPeer(s, k, p.(failures := 0)), env, k) else WithPeer(s, k, p)
    case Disconnect(k) =>
      if k !in s.peers then s
      else
        var t := WithPeer(s, k, s.peers[k].(reasons := {}, retry := None));
        if s.peers[k].conn.Some? then Dropped(t, s.peers[k].conn.value) else t
  }

  /** What the WebView says of a connection does. */
  function Reported(cfg: Config, s: State, env: Env, e: Event): State
    requires Linked(s) && IsOfConn(e)
  {
    if e.id !in s.conns then s
    else
      var c := s.conns[e.id];
      match e
      case LocalDescription(id, fp) =>
        if fp.None? || (c.local.Some? && c.local != fp) then Failed(s, env, id) else WithConn(s, id, c.(local := fp))
      case Opened(id, nonce) =>
        if c.nonce.Some? then s
        else if c.local.None? || c.remote.None? then Failed(s, env, id)
        else WithConn(s, id, c.(nonce := Some(nonce)))
      case Received(id, m) => ReceivedOn(cfg, s, env, id, m)
      case FileReceived(id) => if !c.ready then Failed(s, env, id) else s
      case Closed(id) => Failed(s, env, id)
  }

  /** What is done ranging over the peers, or the connections. */
  ghost function Ranged(cfg: Config, s: State, env: Env, e: Event): State
    requires !IsSignal(e) && !IsOfPeer(e) && !IsOfConn(e)
  {
    match e
    case GoesOnline(order) => Each(cfg, s.(online := true), env, order, e)
    case GoesOffline => s.(online := false)
    case NetworkChanged(order) => Each(cfg, s, env, order, e)
    case Reset(ids) => EachGone(s, env, ids)
    case Tick(order, again) =>
      var t := if env.now - s.ticked > 3 * cfg.tick then Each(cfg, s, env, again, NetworkChanged(again)) else s;
      Each(cfg, t.(ticked := env.now), env, order, e)
  }

  ghost function Next(cfg: Config, s: State, env: Env, e: Event): State
    requires Linked(s)
  {
    if IsSignal(e) then Signaled(cfg, s, env, e)
    else if IsOfPeer(e) then Considered(s, env, e)
    else if IsOfConn(e) then Reported(cfg, s, env, e)
    else Ranged(cfg, s, env, e)
  }

  // ---- Every event keeps the invariant ----

  /** A session to be made, if it is made already, is of the peer it is for. */
  ghost predicate IsReserved(s: State, env: Env) {
    && (forall k :: env.session(k) in s.conns ==> s.conns[env.session(k)].peer == k)
    && (forall k, l | env.session(k) == env.session(l) :: k == l)
  }

  lemma ConnectsFresh(cfg: Config, s: State, env: Env, k: Key)
    requires Invariant(cfg, s) && IsReserved(s, env) && k in s.peers && s.peers[k].conn.None?
    ensures Invariant(cfg, Connected(s, env, k)) && IsReserved(Connected(s, env, k), env)
  {
    ConnectedKeeps(cfg, s, env, k);
  }

  lemma OneKeeps(cfg: Config, s: State, env: Env, k: Key)
    requires Invariant(cfg, s) && IsReserved(s, env)
    ensures Invariant(cfg, Online(s, env, k)) && IsReserved(Online(s, env, k), env)
    ensures Invariant(cfg, Retried(s, env, k)) && IsReserved(Retried(s, env, k), env)
  {
    if k in s.peers && s.peers[k].conn.None? { ConnectsFresh(cfg, s, env, k); }
  }

  lemma GonePeerKeeps(cfg: Config, s: State, k: Key)
    requires Invariant(cfg, s) && k in s.peers && s.peers[k].conn.None?
    ensures Invariant(cfg, s.(peers := s.peers - {k}))
  {
    var t := s.(peers := s.peers - {k});
    assert forall id | id in s.conns :: Staged(cfg, s, id);
    forall l ensures l in t.told <==> IsReady(t, l) { assert l in s.told <==> IsReady(s, l); }
  }

  lemma FewerReserved(s: State, t: State, env: Env)
    requires IsReserved(s, env) && forall id | id in t.conns :: id in s.conns && t.conns[id].peer == s.conns[id].peer
    ensures IsReserved(t, env)
  {
  }

  lemma TickedFewer(cfg: Config, s: State, env: Env, k: Key)
    requires Linked(s) && k in s.peers && s.peers[k].conn.Some?
    ensures var t := Ticked(cfg, s, env, k); forall id | id in t.conns :: id in s.conns && t.conns[id].peer == s.conns[id].peer
  {
  }

  lemma TickedConnStays(cfg: Config, s: State, env: Env, k: Key)
    requires Invariant(cfg, s) && k in s.peers && s.peers[k].conn.Some?
    ensures Linked(s) && Invariant(cfg, Ticked(cfg, s, env, k))
  {
    var p := s.peers[k];
    FailedKeeps(cfg, s, env, p.conn.value);
    DroppedKeeps(cfg, s, p.conn.value);
    PeerChanged(cfg, s, k, p.(idleSince := Some(env.now)));
    PeerChanged(cfg, s, k, p.(idleSince := None));
    assert Attended(p) && s.conns[p.conn.value].peer == k;
    hide Base, Failed, Dropped;
  }

  lemma TickedConnKeeps(cfg: Config, s: State, env: Env, k: Key)
    requires Invariant(cfg, s) && IsReserved(s, env) && k in s.peers && s.peers[k].conn.Some?
    ensures Linked(s) && Invariant(cfg, Ticked(cfg, s, env, k)) && IsReserved(Ticked(cfg, s, env, k), env)
  {
    TickedConnStays(cfg, s, env, k);
    hide *;
    TickedFewer(cfg, s, env, k);
    FewerReserved(s, Ticked(cfg, s, env, k), env);
  }

  lemma TickedKeeps(cfg: Config, s: State, env: Env, k: Key)
    requires Invariant(cfg, s) && IsReserved(s, env)
    ensures Linked(s) && Invariant(cfg, Ticked(cfg, s, env, k)) && IsReserved(Ticked(cfg, s, env, k), env)
  {
    if k in s.peers {
      if s.peers[k].conn.Some? {
        TickedConnKeeps(cfg, s, env, k);
      } else {
        ConnectsFresh(cfg, s, env, k);
        GonePeerKeeps(cfg, s, k);
        FewerReserved(s, s.(peers := s.peers - {k}), env);
        hide Base, IsReserved, Connected;
      }
    }
  }

  lemma {:induction false} EachKeeps(cfg: Config, s: State, env: Env, order: seq<Key>, e: Event)
    requires Invariant(cfg, s) && IsReserved(s, env)
    ensures Invariant(cfg, Each(cfg, s, env, order, e)) && IsReserved(Each(cfg, s, env, order, e), env)
  {
    if order != [] {
      EachKeeps(cfg, s, env, order[..|order| - 1], e);
      var (t, k) := (Each(cfg, s, env, order[..|order| - 1], e), order[|order| - 1]);
      OneKeeps(cfg, t, env, k);
      TickedKeeps(cfg, t, env, k);
      hide Invariant, IsReserved, Online, Retried, Ticked;
    }
  }

  lemma {:induction false} EachGoneKeeps(cfg: Config, s: State, env: Env, ids: seq<ConnID>)
    requires Invariant(cfg, s)
    ensures Invariant(cfg, EachGone(s, env, ids))
  {
    if ids != [] {
      EachGoneKeeps(cfg, s, env, ids[..|ids| - 1]);
      var (t, id) := (EachGone(s, env, ids[..|ids| - 1]), ids[|ids| - 1]);
      if id in t.conns { FailedKeeps(cfg, t, env, id); }
      hide Failed;
    }
  }

  lemma UnreachableKeeps(cfg: Config, s: State, env: Env, k: Key)
    requires Invariant(cfg, s)
    ensures Invariant(cfg, Considered(s, env, Unreachable(k)))
  {
    var p := PeerOf(s, k);
    if k in s.peers && !(p.conn.Some? && s.conns[p.conn.value].ready) {
      if p.conn.Some? { DroppedKeeps(cfg, s, p.conn.value); }
      var t := if p.conn.Some? then Dropped(s, p.conn.value) else s;
      PeerChanged(cfg, t, k, t.peers[k].(parked := true, retry := None));
      hide Base, Dropped;
    }
  }

  lemma DisconnectKeeps(cfg: Config, s: State, env: Env, k: Key)
    requires Invariant(cfg, s)
    ensures Invariant(cfg, Considered(s, env, Disconnect(k)))
  {
    var p := PeerOf(s, k).(reasons := {}, retry := None);
    PeerChanged(cfg, s, k, p);
    if k in s.peers && p.conn.Some? { DroppedKeeps(cfg, WithPeer(s, k, p), p.conn.value); }
    hide Base, Dropped;
  }

  lemma WantKeeps(cfg: Config, s: State, env: Env, k: Key, reason: string)
    requires Invariant(cfg, s) && IsFresh(s, env)
    ensures Invariant(cfg, Considered(s, env, Want(k, reason)))
  {
    var p := PeerOf(s, k).(reasons := PeerOf(s, k).reasons + {reason});
    PeerChanged(cfg, s, k, p);
    hide Base, Connected;
    if p.conn.None? { ConnectedKeeps(cfg, WithPeer(s, k, p), env, k); }
  }

  lemma ReachableKeeps(cfg: Config, s: State, env: Env, k: Key)
    requires Invariant(cfg, s) && IsFresh(s, env)
    ensures Invariant(cfg, Considered(s, env, Reachable(k)))
  {
    var p := PeerOf(s, k).(parked := false);
    PeerChanged(cfg, s, k, p);
    PeerChanged(cfg, s, k, p.(failures := 0));
    hide Base, Connected;
    if k in s.peers && p.conn.None? { ConnectedKeeps(cfg, WithPeer(s, k, p.(failures := 0)), env, k); }
  }

  lemma ReleaseKeeps(cfg: Config, s: State, env: Env, k: Key, reason: string)
    requires Invariant(cfg, s)
    ensures Invariant(cfg, Considered(s, env, Release(k, reason)))
  {
    var p := PeerOf(s, k).(reasons := PeerOf(s, k).reasons - {reason});
    PeerChanged(cfg, s, k, p);
    PeerChanged(cfg, s, k, p.(retry := None));
    hide Base;
  }

  lemma PeerEventKeeps(cfg: Config, s: State, env: Env, e: Event)
    requires Invariant(cfg, s) && IsFresh(s, env) && IsOfPeer(e)
    ensures Invariant(cfg, Considered(s, env, e))
  {
    hide Considered, Invariant, IsFresh, Linked;
    match e
    case Unreachable(k) => UnreachableKeeps(cfg, s, env, k);
    case Want(k, reason) => WantKeeps(cfg, s, env, k, reason);
    case Release(k, reason) => ReleaseKeeps(cfg, s, env, k, reason);
    case Reachable(k) => ReachableKeeps(cfg, s, env, k);
    case Disconnect(k) => DisconnectKeeps(cfg, s, env, k);
  }

  lemma LocalSet(cfg: Config, s: State, id: ConnID, fp: Option<Fingerprint>)
    requires Invariant(cfg, s) && id in s.conns && fp.Some? && (s.conns[id].local.None? || s.conns[id].local == fp)
    ensures Invariant(cfg, WithConn(s, id, s.conns[id].(local := fp)))
  {
    assert Staged(cfg, s, id);
    ConnChanged(cfg, s, id, s.conns[id].(local := fp));
    hide Base;
  }

  lemma LocalKeeps(cfg: Config, s: State, env: Env, id: ConnID, fp: Option<Fingerprint>)
    requires Invariant(cfg, s)
    ensures Invariant(cfg, Reported(cfg, s, env, LocalDescription(id, fp)))
  {
    if id in s.conns {
      FailedKeeps(cfg, s, env, id);
      hide Invariant, Failed, WithConn;
      if fp.Some? && (s.conns[id].local.None? || s.conns[id].local == fp) { LocalSet(cfg, s, id, fp); }
    }
  }

  lemma OpenedKeeps(cfg: Config, s: State, env: Env, id: ConnID, nonce: Nonce)
    requires Invariant(cfg, s)
    ensures Invariant(cfg, Reported(cfg, s, env, Opened(id, nonce)))
  {
    if id in s.conns && s.conns[id].nonce.None? {
      var c := s.conns[id];
      assert Staged(cfg, s, id);
      if c.local.Some? && c.remote.Some? { ConnChanged(cfg, s, id, c.(nonce := Some(nonce))); } else { FailedKeeps(cfg, s, env, id); }
      hide Failed, Base;
    }
  }

  lemma ConnEventKeeps(cfg: Config, s: State, env: Env, e: Event)
    requires Invariant(cfg, s) && IsOfConn(e)
    ensures Invariant(cfg, Reported(cfg, s, env, e))
  {
    var id := e.id;
    match e
    case LocalDescription(_, fp) => LocalKeeps(cfg, s, env, id, fp);
    case Opened(_, nonce) => OpenedKeeps(cfg, s, env, id, nonce);
    case Received(_, m) => if id in s.conns { ReceivedKeeps(cfg, s, env, id, m); }
    case _ =>
      if id in s.conns { FailedKeeps(cfg, s, env, id); }
      hide Failed, Base;
  }

  lemma RangeKeeps(cfg: Config, s: State, env: Env, e: Event)
    requires Invariant(cfg, s) && IsFresh(s, env) && !IsSignal(e) && !IsOfPeer(e) && !IsOfConn(e)
    ensures Invariant(cfg, Ranged(cfg, s, env, e))
  {
    assert IsReserved(s, env);
    match e
    case GoesOnline(order) =>
      OnlineAlike(cfg, s, env);
      EachKeeps(cfg, s.(online := true), env, order, e);
    case NetworkChanged(order) => EachKeeps(cfg, s, env, order, e);
    case Tick(order, again) =>
      EachKeeps(cfg, s, env, again, NetworkChanged(again));
      var t := if env.now - s.ticked > 3 * cfg.tick then Each(cfg, s, env, again, NetworkChanged(again)) else s;
      TickAlike(cfg, t, env);
      EachKeeps(cfg, t.(ticked := env.now), env, order, e);
    case Reset(ids) => EachGoneKeeps(cfg, s, env, ids);
    case GoesOffline => OnlineAlike(cfg, s, env);
  }

  lemma OnlineAlike(cfg: Config, s: State, env: Env)
    requires Invariant(cfg, s)
    ensures Invariant(cfg, s.(online := true)) && Invariant(cfg, s.(online := false)) && (IsReserved(s, env) ==> IsReserved(s.(online := true), env))
  {
    assert forall id | id in s.conns :: Staged(cfg, s, id);
    assert forall k :: k in s.told <==> IsReady(s, k);
    assert forall k :: IsReady(s.(online := true), k) == IsReady(s, k) && IsReady(s.(online := false), k) == IsReady(s, k);
  }

  lemma TickAlike(cfg: Config, s: State, env: Env)
    requires Invariant(cfg, s) && IsReserved(s, env)
    ensures Invariant(cfg, s.(ticked := env.now)) && IsReserved(s.(ticked := env.now), env)
  {
    assert forall id | id in s.conns :: Staged(cfg, s, id);
    assert forall k :: IsReady(s.(ticked := env.now), k) == IsReady(s, k);
  }

  lemma SignalKeeps(cfg: Config, s: State, env: Env, e: Event)
    requires Invariant(cfg, s) && IsSignal(e)
    ensures Invariant(cfg, Signaled(cfg, s, env, e))
  {
    if e.id in s.conns { DescribedKeeps(cfg, s, env, e.id, e.fp); } else if e.OfferFrom? { OfferedKeeps(cfg, s, env, e.peer, e.id, e.fp); }
    hide Described, Offered, Base;
  }

  lemma NextKeeps(cfg: Config, s: State, env: Env, e: Event)
    requires Invariant(cfg, s) && IsFresh(s, env)
    ensures Invariant(cfg, Next(cfg, s, env, e))
  {
    hide Signaled, Considered, Reported, Ranged, IsFresh;
    if IsSignal(e) { SignalKeeps(cfg, s, env, e); }
    else if IsOfPeer(e) { PeerEventKeeps(cfg, s, env, e); }
    else if IsOfConn(e) { ConnEventKeeps(cfg, s, env, e); }
    else { RangeKeeps(cfg, s, env, e); }
  }

  function Begun(now: int): State { State(false, now, map[], map[], map[], {}) }

  ghost function Run(cfg: Config, now: int, steps: seq<(Env, Event)>): State {
    if steps == [] then Begun(now)
    else
      var (s, step) := (Run(cfg, now, steps[..|steps| - 1]), steps[|steps| - 1]);
      if Linked(s) && IsFresh(s, step.0) then Next(cfg, s, step.0, step.1) else s
  }

  /** In every run, a peer has at most one connection, and each connection is its peer's; a peer wanted without one is
      parked or is to be tried again; the observer knows whose connections are ready; and a ready one was proven, over
      just its fingerprints, nonces and version. */
  lemma {:induction false} EveryRunKeeps(cfg: Config, now: int, steps: seq<(Env, Event)>)
    ensures Invariant(cfg, Run(cfg, now, steps))
  {
    if steps != [] {
      var (s, step) := (Run(cfg, now, steps[..|steps| - 1]), steps[|steps| - 1]);
      EveryRunKeeps(cfg, now, steps[..|steps| - 1]);
      if IsFresh(s, step.0) {
        NextKeeps(cfg, s, step.0, step.1);
        hide Next;
      }
    }
  }

  // ---- What is proven stays so ----

  /** d is the connection c later: its fingerprints and its nonce, once known, are what they were; and once it is ready,
      it is, and what was proven of it is what its parties would sign now. */
  predicate Continues(me: Key, c: Conn, d: Conn) {
    && d.peer == c.peer && d.offerer == c.offerer
    && (c.local.Some? ==> d.local == c.local) && (c.remote.Some? ==> d.remote == c.remote) && (c.nonce.Some? ==> d.nonce == c.nonce)
    && (c.ready ==> d.ready && TranscriptOf(me, d, true) == TranscriptOf(me, c, true) && TranscriptOf(me, d, false) == TranscriptOf(me, c, false))
  }

  ghost predicate Continued(me: Key, was: map<ConnID, Conn>, s: State) {
    forall id | id in was && id in s.conns :: Continues(me, was[id], s.conns[id])
  }

  lemma FailedConns(s: State, env: Env, id: ConnID)
    requires id in s.conns && s.conns[id].peer in s.peers
    ensures Failed(s, env, id).conns == s.conns - {id}
  {
  }

  lemma WithConnContinues(me: Key, was: map<ConnID, Conn>, s: State, id: ConnID, c: Conn)
    requires Continued(me, was, s) && id in s.conns && Continues(me, s.conns[id], c)
    ensures Continued(me, was, WithConn(s, id, c))
  {
  }

  lemma FewerContinue(me: Key, was: map<ConnID, Conn>, s: State, t: State, ids: set<ConnID>)
    requires Continued(me, was, s) && (t.conns == s.conns - ids || t.conns == s.conns)
    ensures Continued(me, was, t)
  {
  }

  lemma MadeContinues(me: Key, was: map<ConnID, Conn>, s: State, env: Env, k: Key, id: ConnID, offerer: bool)
    requires Continued(me, was, s) && id !in was
    ensures Continued(me, was, Made(s, env, k, id, offerer))
  {
  }

  lemma DescribedContinues(cfg: Config, was: map<ConnID, Conn>, s: State, env: Env, id: ConnID, fp: Option<Fingerprint>)
    requires Continued(cfg.me, was, s) && Invariant(cfg, s) && id in s.conns
    ensures Continued(cfg.me, was, Described(s, env, id, fp))
  {
    var c := s.conns[id];
    assert Staged(cfg, s, id);
    if fp.None? || (c.remote.Some? && c.remote != fp) {
      FailedConns(s, env, id);
      FewerContinue(cfg.me, was, s, Failed(s, env, id), {id});
    } else {
      WithConnContinues(cfg.me, was, s, id, c.(remote := fp));
    }
  }

  lemma OfferedContinues(cfg: Config, s: State, env: Env, from: Key, id: ConnID, fp: Option<Fingerprint>)
    requires Invariant(cfg, s) && id !in s.conns
    ensures Continued(cfg.me, s.conns, Offered(cfg, s, env, from, id, fp))
  {
    var prior := PeerOf(s, from).conn;
    if cfg.accepts(from) && !(prior.Some? && !s.conns[prior.value].ready && s.conns[prior.value].offerer && cfg.me < from) {
      var t := if prior.Some? then Dropped(s, prior.value) else s;
      if prior.Some? {
        DroppedKeeps(cfg, s, prior.value);
        FewerContinue(cfg.me, s.conns, s, t, {prior.value});
      }
      MadeKeeps(cfg, t, env, from, id, false);
      MadeContinues(cfg.me, s.conns, t, env, from, id, false);
      hide Continued, Invariant, Base, Continues;
      DescribedContinues(cfg, s.conns, Made(t, env, from, id, false), env, id, fp);
    }
  }

  lemma ReadyReceivedContinues(cfg: Config, s: State, env: Env, id: ConnID, m: Message)
    requires Invariant(cfg, s) && id in s.conns && s.conns[id].ready
    ensures Continued(cfg.me, s.conns, ReceivedOn(cfg, s, env, id, m))
  {
    FailedConns(s, env, id);
    FewerContinue(cfg.me, s.conns, s, Failed(s, env, id), {id});
    if m.Renegotiate? && m.how.Description? {
      DescribedContinues(cfg, s.conns, s, env, id, m.how.fp);
    } else if m.Interest? {
      WithConnContinues(cfg.me, s.conns, s, id, s.conns[id].(theyWant := m.wanted));
    }
    hide Failed, Described, Invariant, Continued;
  }

  lemma ReceivedContinues(cfg: Config, s: State, env: Env, id: ConnID, m: Message)
    requires Invariant(cfg, s) && id in s.conns
    ensures Continued(cfg.me, s.conns, ReceivedOn(cfg, s, env, id, m))
  {
    if s.conns[id].ready {
      ReadyReceivedContinues(cfg, s, env, id, m);
    } else {
      HandshakenConns(cfg, s, env, id, m);
      FailedConns(s, env, id);
      hide Handshaken, Failed, Invariant, Continues;
      assert forall j | j in s.conns :: Continues(cfg.me, s.conns[j], s.conns[j]) by { Reflexive(cfg.me, s.conns); }
    }
  }

  lemma Reflexive(me: Key, was: map<ConnID, Conn>)
    ensures forall j | j in was :: Continues(me, was[j], was[j])
  {
  }

  /** A step of the handshake ends the connection, or goes on with it, its fingerprints and its nonce as they were. */
  lemma HandshakenConns(cfg: Config, s: State, env: Env, id: ConnID, m: Message)
    requires id in s.conns && s.conns[id].peer in s.peers && !s.conns[id].ready
    ensures var (c, t) := (s.conns[id], Handshaken(cfg, s, env, id, m));
      || t.conns == s.conns - {id}
      || (exists d :: Continues(cfg.me, c, d) && t.conns == s.conns[id := d])
  {
    var c := s.conns[id];
    FailedConns(s, env, id);
    if c.nonce.Some? {
      match m
      case Hello(versions) => if c.hello.None? { ProvesConns(cfg, s, env, id, c.(hello := Some(versions))); }
      case Challenge(nonce) => if c.theirs.None? && nonce.Some? { ProvesConns(cfg, s, env, id, c.(theirs := nonce)); }
      case Proof(signature) =>
        if c.proved && cfg.verifies(c.peer, TranscriptOf(cfg.me, c, !c.offerer), signature) {
          assert Continues(cfg.me, c, c.(ready := true));
        }
      case _ =>
    }
  }

  lemma ProvesConns(cfg: Config, s: State, env: Env, id: ConnID, d: Conn)
    requires id in s.conns && s.conns[id].peer in s.peers && !s.conns[id].ready && Continues(cfg.me, s.conns[id], d) && !d.ready
    ensures var t := Proves(cfg, WithConn(s, id, d), env, id);
      || t.conns == s.conns - {id}
      || (exists f :: Continues(cfg.me, s.conns[id], f) && t.conns == s.conns[id := f])
  {
    var t := WithConn(s, id, d);
    FailedConns(t, env, id);
    assert t.conns - {id} == s.conns - {id};
    if d.hello.Some? && d.theirs.Some? && !d.proved && cfg.common(d.hello.value).Some? {
      var f := d.(version := cfg.common(d.hello.value).value, proved := true);
      assert Continues(cfg.me, s.conns[id], f) && t.conns[id := f] == s.conns[id := f];
    }
  }

  lemma ConnectedContinues(cfg: Config, was: map<ConnID, Conn>, s: State, env: Env, k: Key)
    requires Continued(cfg.me, was, s) && k in s.peers && env.session(k) !in was
    ensures Continued(cfg.me, was, Connected(s, env, k))
  {
  }

  lemma TickedContinues(cfg: Config, was: map<ConnID, Conn>, s: State, env: Env, k: Key)
    requires Continued(cfg.me, was, s) && Linked(s) && env.session(k) !in was
    ensures Continued(cfg.me, was, Ticked(cfg, s, env, k))
  {
    if k in s.peers {
      if s.peers[k].conn.Some? {
        var id := s.peers[k].conn.value;
        FailedConns(s, env, id);
        FewerContinue(cfg.me, was, s, Ticked(cfg, s, env, k), {id});
      } else {
        ConnectedContinues(cfg, was, s, env, k);
      }
    }
  }

  lemma {:induction false} EachContinues(cfg: Config, was: map<ConnID, Conn>, s: State, env: Env, order: seq<Key>, e: Event)
    requires Continued(cfg.me, was, s) && forall k :: env.session(k) !in was
    ensures Continued(cfg.me, was, Each(cfg, s, env, order, e))
  {
    if order != [] {
      EachContinues(cfg, was, s, env, order[..|order| - 1], e);
      var (t, k) := (Each(cfg, s, env, order[..|order| - 1], e), order[|order| - 1]);
      hide Continued, Linked;
      if k in t.peers { ConnectedContinues(cfg, was, t, env, k); }
      if Linked(t) { TickedContinues(cfg, was, t, env, k); }
      hide Connected, Ticked;
    }
  }

  lemma {:induction false} EachGoneContinues(me: Key, was: map<ConnID, Conn>, s: State, env: Env, ids: seq<ConnID>)
    requires Continued(me, was, s)
    ensures Continued(me, was, EachGone(s, env, ids))
  {
    if ids != [] {
      EachGoneContinues(me, was, s, env, ids[..|ids| - 1]);
      var (t, id) := (EachGone(s, env, ids[..|ids| - 1]), ids[|ids| - 1]);
      if id in t.conns && Linked(t) {
        FailedConns(t, env, id);
        FewerContinue(me, was, t, Failed(t, env, id), {id});
      }
      hide Failed, Continued;
    }
  }

  lemma RangeContinues(cfg: Config, s: State, env: Env, e: Event)
    requires Invariant(cfg, s) && IsFresh(s, env) && !IsSignal(e) && !IsOfPeer(e) && !IsOfConn(e)
    ensures Continued(cfg.me, s.conns, Ranged(cfg, s, env, e))
  {
    Reflexive(cfg.me, s.conns);
    hide Continues, Base;
    match e
    case GoesOnline(order) => EachContinues(cfg, s.conns, s.(online := true), env, order, e);
    case NetworkChanged(order) => EachContinues(cfg, s.conns, s, env, order, e);
    case Tick(order, again) =>
      EachContinues(cfg, s.conns, s, env, again, NetworkChanged(again));
      var t := if env.now - s.ticked > 3 * cfg.tick then Each(cfg, s, env, again, NetworkChanged(again)) else s;
      EachContinues(cfg, s.conns, t.(ticked := env.now), env, order, e);
    case Reset(ids) => EachGoneContinues(cfg.me, s.conns, s, env, ids);
    case GoesOffline =>
  }

  lemma ReleasedConns(cfg: Config, s: State, env: Env, e: Event)
    requires Linked(s) && (e.Unreachable? || e.Release? || e.Disconnect?)
    ensures Considered(s, env, e).conns == s.conns
      || (e.peer in s.peers && s.peers[e.peer].conn.Some? && Considered(s, env, e).conns == s.conns - {s.peers[e.peer].conn.value})
  {
  }

  lemma WantContinues(cfg: Config, s: State, env: Env, k: Key, reason: string)
    requires Linked(s) && IsFresh(s, env)
    ensures Continued(cfg.me, s.conns, Considered(s, env, Want(k, reason)))
  {
    var t := WithPeer(s, k, PeerOf(s, k).(reasons := PeerOf(s, k).reasons + {reason}));
    ConnectedContinues(cfg, s.conns, t, env, k);
    hide Connected, Continues, IsFresh;
    Reflexive(cfg.me, s.conns);
  }

  lemma ReachableContinues(cfg: Config, s: State, env: Env, k: Key)
    requires Linked(s) && IsFresh(s, env)
    ensures Continued(cfg.me, s.conns, Considered(s, env, Reachable(k)))
  {
    if k in s.peers { ConnectedContinues(cfg, s.conns, WithPeer(s, k, s.peers[k].(parked := false, failures := 0)), env, k); }
    hide Connected, Continues, IsFresh;
    Reflexive(cfg.me, s.conns);
  }

  lemma PeerEventContinues(cfg: Config, s: State, env: Env, e: Event)
    requires Linked(s) && IsFresh(s, env) && IsOfPeer(e)
    ensures Continued(cfg.me, s.conns, Considered(s, env, e))
  {
    if e.Want? {
      WantContinues(cfg, s, env, e.peer, e.reason);
    } else if e.Reachable? {
      ReachableContinues(cfg, s, env, e.peer);
    } else {
      ReleasedConns(cfg, s, env, e);
      var id := if e.peer in s.peers && s.peers[e.peer].conn.Some? then s.peers[e.peer].conn.value else 0;
      hide Considered, Continues;
      Reflexive(cfg.me, s.conns);
      FewerContinue(cfg.me, s.conns, s, Considered(s, env, e), {id});
    }
  }

  lemma LocalContinues(cfg: Config, s: State, env: Env, id: ConnID, e: Event)
    requires Invariant(cfg, s) && id in s.conns && (e.LocalDescription? || e.Opened?) && e.id == id
    ensures Continued(cfg.me, s.conns, Reported(cfg, s, env, e))
  {
    FailedConns(s, env, id);
    assert Staged(cfg, s, id);
    hide Failed;
  }

  lemma ConnEventContinues(cfg: Config, s: State, env: Env, e: Event)
    requires Invariant(cfg, s) && IsOfConn(e)
    ensures Continued(cfg.me, s.conns, Reported(cfg, s, env, e))
  {
    Reflexive(cfg.me, s.conns);
    var id := e.id;
    assert Continued(cfg.me, s.conns, s);
    if id in s.conns {
      FailedConns(s, env, id);
      FewerContinue(cfg.me, s.conns, s, Failed(s, env, id), {id});
      if e.Received? { ReceivedContinues(cfg, s, env, id, e.message); }
      if e.LocalDescription? || e.Opened? { LocalContinues(cfg, s, env, id, e); }
      hide Continued, Failed, ReceivedOn, Invariant;
    }
  }

  lemma SignalContinues(cfg: Config, s: State, env: Env, e: Event)
    requires Invariant(cfg, s) && IsSignal(e)
    ensures Continued(cfg.me, s.conns, Signaled(cfg, s, env, e))
  {
    Reflexive(cfg.me, s.conns);
    if e.id in s.conns { DescribedContinues(cfg, s.conns, s, env, e.id, e.fp); } else if e.OfferFrom? { OfferedContinues(cfg, s, env, e.peer, e.id, e.fp); }
    hide Described, Offered, Continues, Invariant;
  }

  /** Whatever happens next, a connection that is still there has the fingerprints it had, and if it was ready, is ready
      still, on just what was proven. */
  lemma FingerprintsNeverChange(cfg: Config, s: State, env: Env, e: Event)
    requires Invariant(cfg, s) && IsFresh(s, env)
    ensures Continued(cfg.me, s.conns, Next(cfg, s, env, e))
  {
    hide Signaled, Considered, Reported, Ranged, IsFresh, Continued;
    if IsSignal(e) { SignalContinues(cfg, s, env, e); }
    else if IsOfPeer(e) { PeerEventContinues(cfg, s, env, e); }
    else if IsOfConn(e) { ConnEventContinues(cfg, s, env, e); }
    else { RangeContinues(cfg, s, env, e); }
  }

  /** What one signs and the other verifies is one connection, seen from its two ends: each meant to reach the other, one
      offered and the other answered, and each has the other's fingerprint, and nonce, as the other's own. */
  lemma ProofBindsBothEnds(me: Key, c: Conn, them: Key, d: Conn)
    requires me != them && TranscriptOf(me, c, !c.offerer) == TranscriptOf(them, d, d.offerer)
    ensures c.peer == them && d.peer == me && c.offerer != d.offerer && c.version == d.version
    ensures c.remote == d.local && c.local == d.remote && c.theirs == d.nonce && c.nonce == d.theirs
  {
  }
}
