/** Two managers that want each other: every run of the two is one of Glare's, and ends with both having proven one connection. */
module GlareRefined {
  // internal/peers/peers.go:417-489, 535-615 and 684-762: what each does is Peers.Next; here is what each sends, and that
  // what was sent arrives in order. A data channel opens once both ends have both descriptions, and before anything
  // arrives on it. Nothing is lost and nobody gives up; with others, each does what it likes in between.

  import opened Basics
  import P = Peers
  import G = Glare
  import PeersApart

  type Session = P.ConnID

  /** A peer: its manager's configuration, the versions it speaks, and the session it makes if it connects. */
  datatype Self = Self(cfg: P.Config, versions: seq<nat>, own: Session)

  type Sign = (Key, P.Transcript) -> P.Signature

  /** A signal on its way, and the fingerprint of its description. */
  datatype Sent = Sent(signal: G.Signal, fp: P.Fingerprint)

  /** A peer's state, and what is on its way to it: signals, and messages on the data channel. */
  datatype Site = Site(s: P.State, signals: seq<Sent>, said: seq<P.Message>)

  datatype World = World(a: Site, b: Site)

  datatype Step =
    | Connect(reason: string)
    | Describe(fp: P.Fingerprint)
    | Arrive
    | Open(nonce: P.Nonce)
    | Take

  /** The connection to k, and its session. */
  datatype Link = Link(id: Session, conn: P.Conn)

  function LinkOf(s: P.State, k: Key): Option<Link> {
    if k in s.peers && s.peers[k].conn.Some? && s.peers[k].conn.value in s.conns then
      Some(Link(s.peers[k].conn.value, s.conns[s.peers[k].conn.value]))
    else None
  }

  function EndOf(l: Option<Link>): Option<G.End> {
    if l.None? then None
    else Some(G.End(l.value.id, l.value.conn.offerer, l.value.conn.local.Some?, l.value.conn.remote.Some?, l.value.conn.ready))
  }

  // ---- What a peer does, and sends ----

  predicate Can(x: Option<Link>, y: Option<Link>, signals: seq<Sent>, said: seq<P.Message>, step: Step) {
    match step
    case Connect(_) => x.None?
    case Describe(_) => x.Some? && x.value.conn.local.None?
    case Arrive => signals != []
    case Open(_) => G.IsJoined(EndOf(x), EndOf(y)) && x.value.conn.nonce.None?
    case Take => said != [] && x.Some? && x.value.conn.nonce.Some?
  }

  /** What happens to x's manager. */
  function EventOf(x: Option<Link>, them: Key, signals: seq<Sent>, said: seq<P.Message>, step: Step): P.Event
    requires Can(x, None, signals, said, step) || (x.Some? && step.Open?)
  {
    match step
    case Connect(reason) => P.Want(them, reason)
    case Describe(fp) => P.LocalDescription(x.value.id, Some(fp))
    case Arrive =>
      (match signals[0].signal
       case Offer(id) => P.OfferFrom(them, id, Some(signals[0].fp))
       case Answer(id) => P.AnswerFrom(them, id, Some(signals[0].fp)))
    case Open(nonce) => P.Opened(x.value.id, nonce)
    case Take => P.Received(x.value.id, said[0])
  }

  /** The signals a peer whose connection was x, and now is y, sends; and the messages. */
  function Signals(x: Option<Link>, step: Step): seq<Sent> {
    if step.Describe? && x.Some? then [Sent(G.Sends(EndOf(x).value), step.fp)] else []
  }

  function ProofOf(sign: Sign, me: Key, c: P.Conn): P.Message { P.Proof(sign(me, P.TranscriptOf(me, c, c.offerer))) }

  function Messages(sign: Sign, me: Self, x: Option<Link>, y: Option<Link>, wanted: bool): seq<P.Message> {
    if x.None? || y.None? then []
    else
      var (c, d) := (x.value.conn, y.value.conn);
      if c.nonce.None? && d.nonce.Some? then [P.Hello(me.versions), P.Challenge(d.nonce)]
      else if !c.proved && d.proved then [ProofOf(sign, me.cfg.me, d)]
      else if !c.ready && d.ready then [P.Interest(wanted)]
      else []
  }

  /** What a step makes of the connection x, if it does not fail. */
  function LinkAfter(me: Self, them: Self, now: int, x: Option<Link>, signals: seq<Sent>, said: seq<P.Message>, step: Step): Option<Link>
    requires Can(x, None, signals, said, step) || (x.Some? && step.Open?)
  {
    match step
    case Connect(_) => Some(Link(me.own, New(them.cfg.me, true, now)))
    case Describe(fp) => Some(x.value.(conn := x.value.conn.(local := Some(fp))))
    case Arrive => Signaled(me, them, now, x, signals[0])
    case Open(nonce) => Some(x.value.(conn := x.value.conn.(nonce := Some(nonce))))
    case Take => Some(x.value.(conn := Heard(me, x.value.conn, said[0])))
  }

  function New(k: Key, offerer: bool, now: int): P.Conn {
    P.Conn(k, offerer, now, None, None, None, None, None, 0, false, false, false)
  }

  function Signaled(me: Self, them: Self, now: int, x: Option<Link>, m: Sent): Option<Link> {
    var id := m.signal.session;
    if x.Some? && x.value.id == id then
      if m.signal.Offer? || x.value.conn.offerer then Some(x.value.(conn := x.value.conn.(remote := Some(m.fp)))) else x
    else if m.signal.Answer? || (x.Some? && !x.value.conn.ready && x.value.conn.offerer && me.cfg.me < them.cfg.me) then x
    else Some(Link(id, New(them.cfg.me, false, now).(remote := Some(m.fp))))
  }

  function Heard(me: Self, c: P.Conn, m: P.Message): P.Conn {
    match m
    case Hello(versions) => c.(hello := Some(versions))
    case Challenge(nonce) =>
      if c.hello.Some? && me.cfg.common(c.hello.value).Some? then
        c.(theirs := nonce, version := me.cfg.common(c.hello.value).value, proved := true)
      else c
    case Proof(_) => c.(ready := true)
    case Interest(wanted) => c.(theyWant := wanted)
    case _ => c
  }

  // ---- What holds between two connections ----

  /** y has been told nothing of x's fingerprint, and is being told nothing, but what it is. */
  predicate Told(x: Option<Link>, y: Option<Link>, toY: seq<Sent>) {
    x.Some? ==>
      && (forall m | m in toY && m.signal.session == x.value.id :: x.value.conn.local == Some(m.fp))
      && (y.Some? && y.value.id == x.value.id && y.value.conn.remote.Some? ==> y.value.conn.remote == x.value.conn.local)
  }

  /** What x has said of its connection so far, but what it wants. */
  function Says(sign: Sign, me: Self, x: Option<Link>): seq<P.Message> {
    if x.None? || x.value.conn.nonce.None? then []
    else
      [P.Hello(me.versions), P.Challenge(x.value.conn.nonce)]
      + if x.value.conn.proved then [ProofOf(sign, me.cfg.me, x.value.conn)] else []
  }

  /** How much of that y has taken. */
  function Taken(y: Option<Link>): nat {
    if y.None? then 0
    else (if y.value.conn.hello.Some? then 1 else 0) + (if y.value.conn.theirs.Some? then 1 else 0) + (if y.value.conn.ready then 1 else 0)
  }

  /** c has gone as far as what it heard, of versions and of nonce, lets it. */
  predicate InTurn(them: Self, me: Self, c: P.Conn, nonce: Option<P.Nonce>) {
    && (c.theirs.Some? <==> c.proved) && (c.proved ==> c.hello.Some? && c.nonce.Some?) && (c.ready ==> c.proved)
    && (c.hello.Some? ==> c.hello == Some(them.versions)) && (c.theirs.Some? ==> c.theirs == nonce)
    && (c.proved ==> Some(c.version) == me.cfg.common(them.versions))
  }

  /** said is the rest of what there was to say of a connection, and, once it is ready, what its peer wants. */
  predicate IsRest(said: seq<P.Message>, rest: seq<P.Message>, ready: bool) {
    said == rest || (ready && (said == rest + [P.Interest(true)] || said == rest + [P.Interest(false)]))
  }

  /** What is on its way to y is what x said and y has not taken; and nobody speaks before the two are joined. */
  predicate Spoken(sign: Sign, a: Self, b: Self, x: Option<Link>, y: Option<Link>, toY: seq<P.Message>) {
    && Taken(y) <= |Says(sign, a, x)|
    && IsRest(toY, Says(sign, a, x)[Taken(y)..], x.Some? && x.value.conn.ready)
    && (y.Some? ==> InTurn(a, b, y.value.conn, if x.Some? then x.value.conn.nonce else None))
    && (x.Some? && x.value.conn.nonce.Some? ==> G.IsJoined(EndOf(x), EndOf(y)))
  }

  /** A signal on its way to x is of y's connection, or is one x takes no notice of, and the two are not joined yet; and
      before x has a connection it has sent nothing. */
  predicate Apart(me: Self, them: Self, x: Option<Link>, y: Option<Link>, toX: seq<Sent>, toY: seq<Sent>) {
    && (x.None? ==> toY == [] && (y.Some? ==> y.value.id == them.own))
    && (toX != [] ==> IsApart(me, them, x, y, toX[0].signal, toY))
  }

  predicate IsApart(me: Self, them: Self, x: Option<Link>, y: Option<Link>, m: G.Signal, toY: seq<Sent>) {
    && m.session in {me.own, them.own} && !G.IsJoined(EndOf(x), EndOf(y))
    && (x.Some? && x.value.id == m.session && (m.Offer? || x.value.conn.offerer) ==> y.Some? && y.value.id == m.session)
    && (G.OnSignal(me.cfg.me < them.cfg.me, EndOf(x), m) != EndOf(x) && !(x.Some? && x.value.id == m.session) ==>
          && y.Some? && y.value.id == m.session && y.value.conn.remote.None?
          && forall n | n in toY :: n.signal.session != m.session)
  }

  // ---- Each step keeps it, of the connections ----

  lemma DescribeKeepsTold(x: Option<Link>, y: Option<Link>, toX: seq<Sent>, toY: seq<Sent>, fp: P.Fingerprint)
    requires x.Some? && x.value.conn.local.None? && Told(x, y, toY) && Told(y, x, toX)
    ensures var z := Some(x.value.(conn := x.value.conn.(local := Some(fp))));
      Told(z, y, toY + Signals(x, Describe(fp))) && Told(y, z, toX)
  {
  }

  lemma ArriveKeepsTold(me: Self, them: Self, now: int, x: Option<Link>, y: Option<Link>, toX: seq<Sent>, toY: seq<Sent>)
    requires toX != [] && Told(x, y, toY) && Told(y, x, toX) && Apart(me, them, x, y, toX, toY)
    ensures var z := Signaled(me, them, now, x, toX[0]); Told(z, y, toY) && Told(y, z, toX[1..])
  {
    assert toX[0] in toX && forall m | m in toX[1..] :: m in toX;
  }

  /** Before the two are joined nothing is said. */
  lemma NothingSaid(sign: Sign, a: Self, b: Self, x: Option<Link>, y: Option<Link>, toX: seq<P.Message>, toY: seq<P.Message>)
    requires Spoken(sign, a, b, x, y, toY) && Spoken(sign, b, a, y, x, toX) && !G.IsJoined(EndOf(x), EndOf(y))
    ensures toX == [] && toY == [] && Taken(x) == 0 && Taken(y) == 0
    ensures (x.Some? ==> x.value.conn.nonce.None? && !x.value.conn.proved && !x.value.conn.ready)
    ensures (y.Some? ==> y.value.conn.nonce.None? && !y.value.conn.proved && !y.value.conn.ready)
  {
  }

  lemma UnspokenKeeps(sign: Sign, a: Self, b: Self, x: Option<Link>, y: Option<Link>)
    requires Taken(x) == 0 && Taken(y) == 0
    requires x.Some? ==> x.value.conn.nonce.None? && !x.value.conn.proved && !x.value.conn.ready
    requires y.Some? ==> y.value.conn.nonce.None? && !y.value.conn.proved && !y.value.conn.ready
    ensures Spoken(sign, a, b, x, y, []) && Spoken(sign, b, a, y, x, [])
  {
  }

  lemma OpenKeepsSpoken(sign: Sign, a: Self, b: Self, x: Option<Link>, y: Option<Link>, toX: seq<P.Message>, toY: seq<P.Message>, nonce: P.Nonce)
    requires Spoken(sign, a, b, x, y, toY) && Spoken(sign, b, a, y, x, toX) && Can(x, y, [], toX, Open(nonce))
    ensures var z := Some(x.value.(conn := x.value.conn.(nonce := Some(nonce))));
      Spoken(sign, a, b, z, y, toY + Messages(sign, a, x, z, true)) && Spoken(sign, b, a, y, z, toX)
  {
  }

  /** What x hears next. */
  lemma HeardNext(sign: Sign, a: Self, b: Self, x: Option<Link>, y: Option<Link>, toX: seq<P.Message>, toY: seq<P.Message>)
    requires Spoken(sign, a, b, x, y, toY) && Spoken(sign, b, a, y, x, toX) && Can(x, y, [], toX, Take)
    ensures y.Some?
    ensures var c := x.value.conn;
      match Taken(x)
      case 0 => !c.proved && c.hello.None? && toX[0] == P.Hello(b.versions)
      case 1 => !c.proved && c.hello == Some(b.versions) && y.value.conn.nonce.Some? && toX[0] == P.Challenge(y.value.conn.nonce)
      case 2 => c.proved && !c.ready && y.value.conn.proved && toX[0] == ProofOf(sign, b.cfg.me, y.value.conn)
      case _ => c.ready && y.value.conn.ready && toX[0].Interest? && toX[1..] == []
  {
  }

  /** What is on its way to x, after it has taken the next of it. */
  lemma TakenKeeps(sign: Sign, a: Self, b: Self, x: Option<Link>, y: Option<Link>, toX: seq<P.Message>, toY: seq<P.Message>)
    requires Spoken(sign, a, b, x, y, toY) && Spoken(sign, b, a, y, x, toX) && Can(x, y, [], toX, Take) && a.cfg.common(b.versions).Some?
    ensures Spoken(sign, b, a, y, Some(x.value.(conn := Heard(a, x.value.conn, toX[0]))), toX[1..])
  {
    HeardNext(sign, a, b, x, y, toX, toY);
  }

  /** And on its way to y. */
  lemma AnswerKeeps(sign: Sign, a: Self, b: Self, x: Option<Link>, y: Option<Link>, toX: seq<P.Message>, toY: seq<P.Message>, wanted: bool)
    requires Spoken(sign, a, b, x, y, toY) && Spoken(sign, b, a, y, x, toX) && Can(x, y, [], toX, Take)
    requires a.cfg.common(b.versions).Some?
    ensures var z := Some(x.value.(conn := Heard(a, x.value.conn, toX[0])));
      Spoken(sign, a, b, z, y, toY + Messages(sign, a, x, z, wanted))
  {
    HeardNext(sign, a, b, x, y, toX, toY);
  }

  // ---- What a manager does is that step, of its connection ----

  /** s is as it was, or its connection to the other is one of theirs, with nobody else's in its place. */
  ghost predicate Meets(me: Self, them: Self, s: P.State) {
    && P.Invariant(me.cfg, s)
    && (forall id | id in s.conns && (id == me.own || id == them.own) :: s.conns[id].peer == them.cfg.me)
    && (LinkOf(s, them.cfg.me).None? ==>
          s.online && !P.PeerOf(s, them.cfg.me).parked && P.PeerOf(s, them.cfg.me).retry.None?)
  }

  lemma LinkIsConn(me: Self, them: Self, s: P.State)
    requires Meets(me, them, s)
    ensures var x := LinkOf(s, them.cfg.me);
      && P.PeerOf(s, them.cfg.me).conn == (if x.Some? then Some(x.value.id) else None)
      && (x.Some? ==> x.value.id in s.conns && s.conns[x.value.id] == x.value.conn && x.value.conn.peer == them.cfg.me && them.cfg.me in s.peers)
      && (forall id | id in s.conns && s.conns[id].peer == them.cfg.me :: x.Some? && x.value.id == id)
  {
  }

  /** A connection that goes on. */
  lemma WithConnMeets(me: Self, them: Self, s: P.State, c: P.Conn)
    requires Meets(me, them, s) && LinkOf(s, them.cfg.me).Some? && c.peer == them.cfg.me
    requires var t := P.WithConn(s, LinkOf(s, them.cfg.me).value.id, c); P.Invariant(me.cfg, t)
    ensures var t := P.WithConn(s, LinkOf(s, them.cfg.me).value.id, c);
      Meets(me, them, t) && LinkOf(t, them.cfg.me) == Some(LinkOf(s, them.cfg.me).value.(conn := c))
  {
    LinkIsConn(me, them, s);
    hide P.Invariant;
  }

  lemma ConnectFollows(me: Self, them: Self, s: P.State, env: P.Env, reason: string)
    requires Meets(me, them, s) && P.IsFresh(s, env) && LinkOf(s, them.cfg.me).None? && env.session(them.cfg.me) == me.own
    ensures var t := P.Next(me.cfg, s, env, P.Want(them.cfg.me, reason));
      Meets(me, them, t) && LinkOf(t, them.cfg.me) == Some(Link(me.own, New(them.cfg.me, true, env.now)))
  {
    LinkIsConn(me, them, s);
    P.NextKeeps(me.cfg, s, env, P.Want(them.cfg.me, reason));
    hide P.Invariant;
  }

  lemma DescribeFollows(me: Self, them: Self, s: P.State, env: P.Env, fp: P.Fingerprint)
    requires Meets(me, them, s) && P.IsFresh(s, env)
    requires LinkOf(s, them.cfg.me).Some? && LinkOf(s, them.cfg.me).value.conn.local.None?
    ensures var (x, k) := (LinkOf(s, them.cfg.me).value, them.cfg.me);
      var t := P.Next(me.cfg, s, env, P.LocalDescription(x.id, Some(fp)));
      Meets(me, them, t) && LinkOf(t, k) == Some(x.(conn := x.conn.(local := Some(fp))))
  {
    var x := LinkOf(s, them.cfg.me).value;
    LinkIsConn(me, them, s);
    P.NextKeeps(me.cfg, s, env, P.LocalDescription(x.id, Some(fp)));
    hide P.Invariant;
    WithConnMeets(me, them, s, x.conn.(local := Some(fp)));
  }

  lemma OpenFollows(me: Self, them: Self, s: P.State, env: P.Env, nonce: P.Nonce)
    requires Meets(me, them, s) && P.IsFresh(s, env)
    requires var x := LinkOf(s, them.cfg.me); x.Some? && x.value.conn.nonce.None? && x.value.conn.local.Some? && x.value.conn.remote.Some?
    ensures var (x, k) := (LinkOf(s, them.cfg.me).value, them.cfg.me);
      var t := P.Next(me.cfg, s, env, P.Opened(x.id, nonce));
      Meets(me, them, t) && LinkOf(t, k) == Some(x.(conn := x.conn.(nonce := Some(nonce))))
  {
    var x := LinkOf(s, them.cfg.me).value;
    LinkIsConn(me, them, s);
    P.NextKeeps(me.cfg, s, env, P.Opened(x.id, nonce));
    hide P.Invariant;
    WithConnMeets(me, them, s, x.conn.(nonce := Some(nonce)));
  }

  /** me has y's next message of the handshake at hand, and can take it. */
  predicate Follows(me: Self, them: Self, c: P.Conn, m: P.Message) {
    && c.nonce.Some?
    && match m
       case Hello(_) => !c.ready && c.hello.None? && c.theirs.None? && !c.proved
       case Challenge(nonce) => !c.ready && c.hello == Some(them.versions) && c.theirs.None? && !c.proved && nonce.Some?
       case Proof(signature) =>
         !c.ready && c.proved && me.cfg.verifies(them.cfg.me, P.TranscriptOf(me.cfg.me, c, !c.offerer), signature)
       case Interest(_) => c.ready
       case _ => false
  }

  lemma ReceivedSo(me: Self, them: Self, s: P.State, env: P.Env, x: Link, m: P.Message)
    requires x.id in s.conns && s.conns[x.id] == x.conn && x.conn.peer == them.cfg.me && them.cfg.me in s.peers
    requires Follows(me, them, x.conn, m) && me.cfg.common(them.versions).Some?
    ensures var t := P.ReceivedOn(me.cfg, s, env, x.id, m);
      if !m.Proof? then t == P.WithConn(s, x.id, Heard(me, x.conn, m))
      else t.conns == s.conns[x.id := Heard(me, x.conn, m)] && t.peers.Keys == s.peers.Keys
           && forall k | k in s.peers :: t.peers[k].conn == s.peers[k].conn
  {
  }

  /** A state whose connections and peers' connections are as they were, but for what was heard on this one. */
  lemma HeardMeets(me: Self, them: Self, s: P.State, t: P.State, c: P.Conn)
    requires Meets(me, them, s) && LinkOf(s, them.cfg.me).Some? && c.peer == them.cfg.me && P.Invariant(me.cfg, t)
    requires t.conns == s.conns[LinkOf(s, them.cfg.me).value.id := c]
    requires t.peers.Keys == s.peers.Keys && forall k | k in s.peers :: t.peers[k].conn == s.peers[k].conn
    ensures Meets(me, them, t) && LinkOf(t, them.cfg.me) == Some(LinkOf(s, them.cfg.me).value.(conn := c))
  {
    LinkIsConn(me, them, s);
    hide P.Invariant;
  }

  lemma ReceivedIs(me: Self, s: P.State, env: P.Env, id: Session, m: P.Message)
    requires P.Linked(s) && id in s.conns
    ensures P.Next(me.cfg, s, env, P.Received(id, m)) == P.ReceivedOn(me.cfg, s, env, id, m)
  {
    hide P.ReceivedOn;
  }

  lemma TakeFollows(me: Self, them: Self, s: P.State, env: P.Env, m: P.Message)
    requires Meets(me, them, s) && P.IsFresh(s, env) && LinkOf(s, them.cfg.me).Some?
    requires Follows(me, them, LinkOf(s, them.cfg.me).value.conn, m) && me.cfg.common(them.versions).Some?
    ensures var (x, k) := (LinkOf(s, them.cfg.me).value, them.cfg.me);
      var t := P.Next(me.cfg, s, env, P.Received(x.id, m));
      Meets(me, them, t) && LinkOf(t, k) == Some(x.(conn := Heard(me, x.conn, m)))
  {
    var x := LinkOf(s, them.cfg.me).value;
    LinkIsConn(me, them, s);
    assert P.Linked(s);
    P.NextKeeps(me.cfg, s, env, P.Received(x.id, m));
    hide P.Invariant, P.ReceivedOn, Follows, P.IsFresh, P.Next, Meets, P.Linked, LinkOf;
    ReceivedIs(me, s, env, x.id, m);
    ReceivedSo(me, them, s, env, x, m);
    HeardMeets(me, them, s, P.ReceivedOn(me.cfg, s, env, x.id, m), Heard(me, x.conn, m));
  }

  lemma SameFollows(me: Self, them: Self, s: P.State, env: P.Env, m: Sent)
    requires Meets(me, them, s) && P.IsFresh(s, env) && LinkOf(s, them.cfg.me).Some? && LinkOf(s, them.cfg.me).value.id == m.signal.session
    requires var c := LinkOf(s, them.cfg.me).value.conn; m.signal.Offer? || c.offerer ==> c.remote.None? || c.remote == Some(m.fp)
    ensures var t := P.Next(me.cfg, s, env, EventOf(None, them.cfg.me, [m], [], Arrive));
      Meets(me, them, t) && LinkOf(t, them.cfg.me) == Signaled(me, them, env.now, LinkOf(s, them.cfg.me), m)
  {
    var x := LinkOf(s, them.cfg.me).value;
    LinkIsConn(me, them, s);
    P.NextKeeps(me.cfg, s, env, EventOf(None, them.cfg.me, [m], [], Arrive));
    hide P.Invariant, P.IsFresh;
    if m.signal.Offer? || x.conn.offerer { WithConnMeets(me, them, s, x.conn.(remote := Some(m.fp))); }
  }

  /** The manager makes a connection of an offer, in place of the one it has, if it has one. */
  lemma ReplacedSo(me: Self, them: Self, s: P.State, env: P.Env, id: Session, fp: P.Fingerprint)
    requires P.Linked(s) && id !in s.conns && me.cfg.accepts(them.cfg.me)
    requires var prior := P.PeerOf(s, them.cfg.me).conn;
      !(prior.Some? && !s.conns[prior.value].ready && s.conns[prior.value].offerer && me.cfg.me < them.cfg.me)
    ensures var k := them.cfg.me; var t := P.Offered(me.cfg, s, env, k, id, Some(fp));
      && k in t.peers && t.peers[k].conn == Some(id) && id in t.conns && t.conns[id] == New(k, false, env.now).(remote := Some(fp))
      && forall j | j in t.conns && j != id :: j in s.conns && t.conns[j] == s.conns[j]
  {
  }

  lemma OtherSo(me: Self, them: Self, s: P.State, env: P.Env, m: Sent)
    requires P.Linked(s) && m.signal.session !in s.conns
    ensures P.Next(me.cfg, s, env, EventOf(None, them.cfg.me, [m], [], Arrive)) ==
      if m.signal.Offer? then P.Offered(me.cfg, s, env, them.cfg.me, m.signal.session, Some(m.fp)) else s
  {
    hide P.Offered, P.Linked;
  }

  lemma ReplacedMeets(me: Self, them: Self, s: P.State, t: P.State, id: Session, c: P.Conn)
    requires Meets(me, them, s) && P.Invariant(me.cfg, t) && them.cfg.me in t.peers && c.peer == them.cfg.me
    requires t.peers[them.cfg.me].conn == Some(id) && id in t.conns && t.conns[id] == c
    requires forall j | j in t.conns && j != id :: j in s.conns && t.conns[j] == s.conns[j]
    ensures Meets(me, them, t) && LinkOf(t, them.cfg.me) == Some(Link(id, c))
  {
    hide P.Invariant;
  }

  lemma OtherFollows(me: Self, them: Self, s: P.State, env: P.Env, m: Sent)
    requires Meets(me, them, s) && P.IsFresh(s, env) && me.cfg.accepts(them.cfg.me) && m.signal.session in {me.own, them.own}
    requires LinkOf(s, them.cfg.me).Some? ==> LinkOf(s, them.cfg.me).value.id != m.signal.session
    ensures var t := P.Next(me.cfg, s, env, EventOf(None, them.cfg.me, [m], [], Arrive));
      Meets(me, them, t) && LinkOf(t, them.cfg.me) == Signaled(me, them, env.now, LinkOf(s, them.cfg.me), m)
  {
    var (k, x, id) := (them.cfg.me, LinkOf(s, them.cfg.me), m.signal.session);
    LinkIsConn(me, them, s);
    var t := P.Next(me.cfg, s, env, EventOf(None, k, [m], [], Arrive));
    assert id !in s.conns && P.Linked(s);
    P.NextKeeps(me.cfg, s, env, EventOf(None, k, [m], [], Arrive));
    OtherSo(me, them, s, env, m);
    hide P.Invariant, P.IsFresh, P.Next, P.Linked, Meets;
    if m.signal.Offer? && !(x.Some? && !x.value.conn.ready && x.value.conn.offerer && me.cfg.me < k) {
      ReplacedSo(me, them, s, env, id, m.fp);
      hide P.Offered;
      ReplacedMeets(me, them, s, t, id, New(k, false, env.now).(remote := Some(m.fp)));
    } else {
      IgnoredSo(me, them, s, env, id, m.fp);
    }
  }

  lemma IgnoredSo(me: Self, them: Self, s: P.State, env: P.Env, id: Session, fp: P.Fingerprint)
    requires Meets(me, them, s) && id !in s.conns
    ensures var x := LinkOf(s, them.cfg.me);
      x.Some? && !x.value.conn.ready && x.value.conn.offerer && me.cfg.me < them.cfg.me ==>
        P.Offered(me.cfg, s, env, them.cfg.me, id, Some(fp)) == s
  {
    LinkIsConn(me, them, s);
  }

  // ---- Both peers ----

  datatype Setting = Setting(a: Self, b: Self, sign: Sign)

  function Flipped(p: Setting): Setting { Setting(p.b, p.a, p.sign) }
  function FlippedWorld(w: World): World { World(w.b, w.a) }

  /** Each accepts the other, they have a version in common, and what one signs the other verifies. */
  ghost predicate Apt(p: Setting) {
    && p.a.own != p.b.own && p.a.cfg.me != p.b.cfg.me && p.a.cfg.accepts(p.b.cfg.me) && p.b.cfg.accepts(p.a.cfg.me)
    && p.a.cfg.common(p.b.versions).Some? && p.b.cfg.common(p.a.versions) == p.a.cfg.common(p.b.versions)
    && (forall t :: p.a.cfg.verifies(p.b.cfg.me, t, p.sign(p.b.cfg.me, t)))
    && (forall t :: p.b.cfg.verifies(p.a.cfg.me, t, p.sign(p.a.cfg.me, t)))
  }

  function OfA(p: Setting, w: World): Option<Link> { LinkOf(w.a.s, p.b.cfg.me) }
  function OfB(p: Setting, w: World): Option<Link> { LinkOf(w.b.s, p.a.cfg.me) }

  ghost predicate Together(p: Setting, w: World) {
    var (x, y) := (OfA(p, w), OfB(p, w));
    && Meets(p.a, p.b, w.a.s) && Meets(p.b, p.a, w.b.s)
    && Told(x, y, w.b.signals) && Told(y, x, w.a.signals)
    && Spoken(p.sign, p.a, p.b, x, y, w.b.said) && Spoken(p.sign, p.b, p.a, y, x, w.a.said)
  }

  /** a can do this, in an environment whose sessions are nobody's; it connects with the session that is its own. */
  ghost predicate Enabled(p: Setting, w: World, env: P.Env, step: Step) {
    && P.Linked(w.a.s) && P.IsFresh(w.a.s, env) && (step.Connect? ==> env.session(p.b.cfg.me) == p.a.own)
    && Can(OfA(p, w), OfB(p, w), w.a.signals, w.a.said, step)
  }

  ghost function Acted(p: Setting, w: World, env: P.Env, step: Step): World
    requires Enabled(p, w, env, step)
  {
    var (x, k) := (OfA(p, w), p.b.cfg.me);
    var s := P.Next(p.a.cfg, w.a.s, env, EventOf(x, k, w.a.signals, w.a.said, step));
    World(Site(s, if step.Arrive? then w.a.signals[1..] else w.a.signals, if step.Take? then w.a.said[1..] else w.a.said),
          Site(w.b.s, w.b.signals + Signals(x, step),
               w.b.said + Messages(p.sign, p.a, x, LinkOf(s, k), P.Wanted(P.PeerOf(s, k)))))
  }

  /** What each signs of a connection they are joined by is what the other expects. */
  lemma TranscriptsMeet(p: Setting, w: World)
    requires Apt(p) && Together(p, w) && G.IsJoined(EndOf(OfA(p, w)), EndOf(OfB(p, w)))
    requires OfA(p, w).value.conn.proved && OfB(p, w).value.conn.proved
    ensures var (c, d) := (OfA(p, w).value.conn, OfB(p, w).value.conn);
      P.TranscriptOf(p.a.cfg.me, c, !c.offerer) == P.TranscriptOf(p.b.cfg.me, d, d.offerer)
  {
    LinkIsConn(p.a, p.b, w.a.s);
    LinkIsConn(p.b, p.a, w.b.s);
    hide Meets, LinkOf;
  }

  lemma TakesNext(p: Setting, w: World, env: P.Env)
    requires Apt(p) && Together(p, w) && Enabled(p, w, env, Take)
    ensures Follows(p.a, p.b, OfA(p, w).value.conn, w.a.said[0])
  {
    var (x, y) := (OfA(p, w), OfB(p, w));
    HeardNext(p.sign, p.a, p.b, x, y, w.a.said, w.b.said);
    if Taken(x) == 2 { TranscriptsMeet(p, w); }
    hide Meets, LinkOf, P.IsFresh, P.Linked;
  }

  /** The manager does what the step says. */
  lemma ActedSo(p: Setting, w: World, env: P.Env, step: Step)
    requires Apt(p) && Together(p, w) && Enabled(p, w, env, step)
    requires Apart(p.a, p.b, OfA(p, w), OfB(p, w), w.a.signals, w.b.signals)
    ensures var v := Acted(p, w, env, step);
      Meets(p.a, p.b, v.a.s) && OfA(p, v) == LinkAfter(p.a, p.b, env.now, OfA(p, w), w.a.signals, w.a.said, step)
  {
    var x := OfA(p, w);
    if step.Take? { TakesNext(p, w, env); TakeFollows(p.a, p.b, w.a.s, env, w.a.said[0]); }
    else if step.Open? { OpenFollows(p.a, p.b, w.a.s, env, step.nonce); }
    else if step.Describe? { DescribeFollows(p.a, p.b, w.a.s, env, step.fp); }
    else if step.Connect? { ConnectFollows(p.a, p.b, w.a.s, env, step.reason); }
    else {
      ArriveFollows(p, w, env);
    }
    hide Meets, P.Next, LinkOf, P.IsFresh, P.Linked, Told, Spoken, Apart;
  }

  lemma ArriveFollows(p: Setting, w: World, env: P.Env)
    requires Apt(p) && Together(p, w) && Enabled(p, w, env, Arrive)
    requires Apart(p.a, p.b, OfA(p, w), OfB(p, w), w.a.signals, w.b.signals)
    ensures var t := P.Next(p.a.cfg, w.a.s, env, EventOf(None, p.b.cfg.me, w.a.signals, w.a.said, Arrive));
      Meets(p.a, p.b, t) && LinkOf(t, p.b.cfg.me) == Signaled(p.a, p.b, env.now, OfA(p, w), w.a.signals[0])
  {
    var (x, m) := (OfA(p, w), w.a.signals[0]);
    assert m in w.a.signals;
    assert EventOf(None, p.b.cfg.me, w.a.signals, w.a.said, Arrive) == EventOf(None, p.b.cfg.me, [m], [], Arrive);
    hide Meets, P.Next, LinkOf, P.IsFresh, P.Linked;
    if x.Some? && x.value.id == m.signal.session { SameFollows(p.a, p.b, w.a.s, env, m); } else { OtherFollows(p.a, p.b, w.a.s, env, m); }
  }

  lemma ActedKeeps(p: Setting, w: World, env: P.Env, step: Step)
    requires Apt(p) && Together(p, w) && Enabled(p, w, env, step)
    requires Apart(p.a, p.b, OfA(p, w), OfB(p, w), w.a.signals, w.b.signals)
    ensures Together(p, Acted(p, w, env, step))
  {
    var (x, y, v) := (OfA(p, w), OfB(p, w), Acted(p, w, env, step));
    ActedSo(p, w, env, step);
    var z := LinkAfter(p.a, p.b, env.now, x, w.a.signals, w.a.said, step);
    assert OfB(p, v) == y && v.b.s == w.b.s;
    hide Meets, P.Next, LinkOf, P.IsFresh, P.Linked, P.PeerOf;
    LinkAfterKeeps(p, env.now, x, y, w.a, w.b, step, P.Wanted(P.PeerOf(v.a.s, p.b.cfg.me)));
    hide Told, Spoken, Apart, Can, Signals, Messages, LinkAfter;
  }

  lemma LinkAfterKeeps(p: Setting, now: int, x: Option<Link>, y: Option<Link>, a: Site, b: Site, step: Step, wanted: bool)
    requires Apt(p) && Told(x, y, b.signals) && Told(y, x, a.signals) && Can(x, y, a.signals, a.said, step)
    requires Spoken(p.sign, p.a, p.b, x, y, b.said) && Spoken(p.sign, p.b, p.a, y, x, a.said) && Apart(p.a, p.b, x, y, a.signals, b.signals)
    ensures var z := LinkAfter(p.a, p.b, now, x, a.signals, a.said, step);
      && Told(z, y, b.signals + Signals(x, step)) && Told(y, z, if step.Arrive? then a.signals[1..] else a.signals)
      && Spoken(p.sign, p.a, p.b, z, y, b.said + Messages(p.sign, p.a, x, z, wanted))
      && Spoken(p.sign, p.b, p.a, y, z, if step.Take? then a.said[1..] else a.said)
  {
    var z := LinkAfter(p.a, p.b, now, x, a.signals, a.said, step);
    TellingKept(p, now, x, y, a, b, step);
    hide Told;
    if step.Take? {
      TakenKeeps(p.sign, p.a, p.b, x, y, a.said, b.said);
      AnswerKeeps(p.sign, p.a, p.b, x, y, a.said, b.said, wanted);
    } else if step.Open? {
      OpenKeepsSpoken(p.sign, p.a, p.b, x, y, a.said, b.said, step.nonce);
      assert Messages(p.sign, p.a, x, z, true) == Messages(p.sign, p.a, x, z, wanted);
    } else {
      SilenceKept(p, now, x, y, a, b, step, wanted);
    }
    hide Spoken, Apart;
  }

  lemma TellingKept(p: Setting, now: int, x: Option<Link>, y: Option<Link>, a: Site, b: Site, step: Step)
    requires Told(x, y, b.signals) && Told(y, x, a.signals) && Can(x, y, a.signals, a.said, step)
    requires p.a.own != p.b.own && Apart(p.a, p.b, x, y, a.signals, b.signals)
    ensures var z := LinkAfter(p.a, p.b, now, x, a.signals, a.said, step);
      && Told(z, y, b.signals + Signals(x, step)) && Told(y, z, if step.Arrive? then a.signals[1..] else a.signals)
  {
    if step.Describe? { DescribeKeepsTold(x, y, a.signals, b.signals, step.fp); }
    else if step.Arrive? {
      ArriveKeepsTold(p.a, p.b, now, x, y, a.signals, b.signals);
      hide Told, Apart;
    }
    assert b.signals + [] == b.signals;
  }

  lemma SilenceKept(p: Setting, now: int, x: Option<Link>, y: Option<Link>, a: Site, b: Site, step: Step, wanted: bool)
    requires Can(x, y, a.signals, a.said, step) && !step.Take? && !step.Open? && Apart(p.a, p.b, x, y, a.signals, b.signals)
    requires Spoken(p.sign, p.a, p.b, x, y, b.said) && Spoken(p.sign, p.b, p.a, y, x, a.said)
    ensures var z := LinkAfter(p.a, p.b, now, x, a.signals, a.said, step);
      && Spoken(p.sign, p.a, p.b, z, y, b.said + Messages(p.sign, p.a, x, z, wanted)) && Spoken(p.sign, p.b, p.a, y, z, a.said)
  {
    var z := LinkAfter(p.a, p.b, now, x, a.signals, a.said, step);
    NothingSaid(p.sign, p.a, p.b, x, y, a.said, b.said);
    hide Spoken;
    UnspokenKeeps(p.sign, p.a, p.b, z, y);
  }

  // ---- Each step is one of Glare's, or none ----

  function SignalsOf(q: seq<Sent>): seq<G.Signal> { seq(|q|, i requires 0 <= i < |q| => q[i].signal) }

  /** The two peers as Glare sees them. */
  function GlareOf(p: Setting, w: World): G.World {
    G.World(EndOf(OfA(p, w)), EndOf(OfB(p, w)), SignalsOf(w.a.signals), SignalsOf(w.b.signals))
  }

  /** The step of Glare's this is: a connection is proven as the other's proof is taken, and the rest of the handshake is none. */
  function Plain(said: seq<P.Message>, step: Step): Option<G.Step> {
    match step
    case Connect(_) => Some(G.Connect)
    case Describe(_) => Some(G.Describe)
    case Arrive => Some(G.Arrive)
    case Open(_) => None
    case Take => if said != [] && said[0].Proof? then Some(G.Prove) else None
  }

  /** A step of an end's, or none, and what it sends. */
  predicate IsStep(lower: bool, own: Session, e: Option<G.End>, f: Option<G.End>, inbox: seq<G.Signal>, g: Option<G.Step>,
    now: Option<G.End>, sent: seq<G.Signal>)
  {
    if g.None? then now == e && sent == []
    else
      && (g.value.Connect? ==> e.None?) && (g.value.Describe? ==> e.Some? && !e.value.local) && (g.value.Arrive? ==> inbox != [])
      && (g.value.Prove? ==> G.IsJoined(e, f) && !e.value.ready)
      && now == G.EndAfter(lower, own, e, inbox, g.value) && sent == if g.value.Describe? then [G.Sends(e.value)] else []
  }

  lemma EndFollows(p: Setting, now: int, x: Option<Link>, y: Option<Link>, a: Site, b: Site, step: Step)
    requires Can(x, y, a.signals, a.said, step)
    requires Spoken(p.sign, p.a, p.b, x, y, b.said) && Spoken(p.sign, p.b, p.a, y, x, a.said)
    ensures var z := LinkAfter(p.a, p.b, now, x, a.signals, a.said, step);
      IsStep(p.a.cfg.me < p.b.cfg.me, p.a.own, EndOf(x), EndOf(y), SignalsOf(a.signals), Plain(a.said, step), EndOf(z), SignalsOf(Signals(x, step)))
  {
    if step.Take? {
      HeardNext(p.sign, p.a, p.b, x, y, a.said, b.said);
      ProofsAreJoined(p, x, y, a, b);
    }
    hide Spoken;
  }

  lemma ProofsAreJoined(p: Setting, x: Option<Link>, y: Option<Link>, a: Site, b: Site)
    requires Spoken(p.sign, p.a, p.b, x, y, b.said) && x.Some? && x.value.conn.nonce.Some?
    ensures G.IsJoined(EndOf(x), EndOf(y))
  {
  }

  lemma SignalsOfSent(q: seq<Sent>, more: seq<Sent>)
    ensures SignalsOf(q + more) == SignalsOf(q) + SignalsOf(more)
    ensures q != [] ==> SignalsOf(q[1..]) == SignalsOf(q)[1..]
  {
  }

  function Mirrored(f: G.World): G.World { G.World(f.b, f.a, f.toB, f.toA) }

  /** What a's step makes of what Glare sees. */
  lemma GlareActed(p: Setting, w: World, env: P.Env, step: Step)
    requires Apt(p) && Together(p, w) && Enabled(p, w, env, step)
    requires Apart(p.a, p.b, OfA(p, w), OfB(p, w), w.a.signals, w.b.signals)
    ensures var (f, h) := (GlareOf(p, w), GlareOf(p, Acted(p, w, env, step)));
      && h.a == EndOf(LinkAfter(p.a, p.b, env.now, OfA(p, w), w.a.signals, w.a.said, step)) && h.b == f.b
      && h.toA == (if step.Arrive? then f.toA[1..] else f.toA) && h.toB == f.toB + SignalsOf(Signals(OfA(p, w), step))
  {
    ActedSo(p, w, env, step);
    SignalsOfSent(w.a.signals, []);
    SignalsOfSent(w.b.signals, Signals(OfA(p, w), step));
    hide P.Next, LinkOf, Meets, Apart, Told, Spoken, P.IsFresh, P.Linked, LinkAfter, Messages, Apt, EndOf, Signals;
  }

  lemma StepIsGlares(sa: Session, sb: Session, f: G.World, h: G.World, g: Option<G.Step>, sent: seq<G.Signal>)
    requires g == Some(G.Arrive) ==> f.toA != []
    requires h.b == f.b && h.toA == (if g == Some(G.Arrive) then f.toA[1..] else f.toA) && h.toB == f.toB + sent
    ensures IsStep(true, sa, f.a, f.b, f.toA, g, h.a, sent) ==>
      if g.None? then h == f else G.Enabled(f, G.OfA(g.value)) && h == G.Next(sa, sb, f, G.OfA(g.value))
    ensures IsStep(false, sa, f.a, f.b, f.toA, g, h.a, sent) ==>
      if g.None? then h == f else G.Enabled(Mirrored(f), G.OfB(g.value)) && Mirrored(h) == G.Next(sb, sa, Mirrored(f), G.OfB(g.value))
  {
  }

  /** What a does is a step of Glare's, of the lower key's end if a's key is the lower. */
  lemma ActedIsGlares(p: Setting, w: World, env: P.Env, step: Step)
    requires Apt(p) && Together(p, w) && Enabled(p, w, env, step)
    requires Apart(p.a, p.b, OfA(p, w), OfB(p, w), w.a.signals, w.b.signals)
    ensures var (f, h, g) := (GlareOf(p, w), GlareOf(p, Acted(p, w, env, step)), Plain(w.a.said, step));
      if g.None? then h == f
      else if p.a.cfg.me < p.b.cfg.me then G.Enabled(f, G.OfA(g.value)) && h == G.Next(p.a.own, p.b.own, f, G.OfA(g.value))
      else G.Enabled(Mirrored(f), G.OfB(g.value)) && Mirrored(h) == G.Next(p.b.own, p.a.own, Mirrored(f), G.OfB(g.value))
  {
    GlareActed(p, w, env, step);
    EndFollows(p, env.now, OfA(p, w), OfB(p, w), w.a, w.b, step);
    var g := Plain(w.a.said, step);
    assert (step.Arrive? <==> g == Some(G.Arrive)) && (step.Arrive? ==> SignalsOf(w.a.signals) != []);
    assert GlareOf(p, w).toA == SignalsOf(w.a.signals) && GlareOf(p, w).a == EndOf(OfA(p, w)) && GlareOf(p, w).b == EndOf(OfB(p, w));
    hide *;
    StepIsGlares(p.a.own, p.b.own, GlareOf(p, w), GlareOf(p, Acted(p, w, env, step)), g, SignalsOf(Signals(OfA(p, w), step)));
  }

  lemma ApartInGlare(p: Setting, w: World)
    requires p.a.own != p.b.own && p.a.cfg.me < p.b.cfg.me && G.Invariant(p.a.own, p.b.own, GlareOf(p, w))
    ensures Apart(p.a, p.b, OfA(p, w), OfB(p, w), w.a.signals, w.b.signals)
    ensures Apart(p.b, p.a, OfB(p, w), OfA(p, w), w.b.signals, w.a.signals)
  {
    hide LinkOf;
    assert forall i | 0 <= i < |w.a.signals| :: SignalsOf(w.a.signals)[i] == w.a.signals[i].signal;
    assert forall i | 0 <= i < |w.b.signals| :: SignalsOf(w.b.signals)[i] == w.b.signals[i].signal;
  }

  // ---- What each does with others ----

  /** This is about somebody else, and the sessions are as random as they are meant to be. */
  ghost predicate IsAside(me: Self, them: Self, s: P.State, env: P.Env, e: P.Event) {
    && P.Linked(s) && P.IsFresh(s, env) && PeersApart.IsAside(s, them.cfg.me, e)
    && (!P.IsOfConn(e) ==> PeersApart.MadeBy(env, e) !in {me.own, them.own})
  }

  lemma LeftBeMeets(me: Self, them: Self, s: P.State, t: P.State, made: Session)
    requires Meets(me, them, s) && P.Invariant(me.cfg, t) && PeersApart.LeavesBe(s, t, them.cfg.me, made)
    requires made in t.conns ==> made !in {me.own, them.own}
    ensures Meets(me, them, t) && LinkOf(t, them.cfg.me) == LinkOf(s, them.cfg.me)
  {
    LinkIsConn(me, them, s);
    hide P.Invariant;
  }

  lemma AsideFacts(me: Self, them: Self, s: P.State, env: P.Env, e: P.Event)
    requires Meets(me, them, s) && IsAside(me, them, s, env, e)
    ensures P.IsFresh(s, env) && P.Invariant(me.cfg, s) && P.Linked(s) && PeersApart.IsAside(s, them.cfg.me, e)
    ensures P.IsSignal(e) || P.IsOfPeer(e) || P.IsOfConn(e)
    ensures PeersApart.MadeBy(env, e) in P.Next(me.cfg, s, env, e).conns ==> PeersApart.MadeBy(env, e) !in {me.own, them.own}
  {
    if P.IsOfConn(e) && e.id !in s.conns { assert P.Next(me.cfg, s, env, e) == s; }
    hide P.Invariant, P.IsFresh, P.ReceivedOn, P.Next;
  }

  lemma AsideMeets(me: Self, them: Self, s: P.State, env: P.Env, e: P.Event)
    requires Meets(me, them, s) && IsAside(me, them, s, env, e)
    ensures P.Linked(s)
    ensures var t := P.Next(me.cfg, s, env, e); Meets(me, them, t) && LinkOf(t, them.cfg.me) == LinkOf(s, them.cfg.me)
  {
    AsideFacts(me, them, s, env, e);
    hide *;
    P.NextKeeps(me.cfg, s, env, e);
    PeersApart.OthersAreLeftBe(me.cfg, s, env, e, them.cfg.me);
    LeftBeMeets(me, them, s, P.Next(me.cfg, s, env, e), PeersApart.MadeBy(env, e));
  }

  // ---- Runs ----

  /** What one of the two does of the other, or of others, and the moment and the sessions it has for it. */
  datatype Move =
    | Move(ofA: bool, env: P.Env, step: Step)
    | Aside(ofA: bool, env: P.Env, event: P.Event)

  ghost predicate AllowedOfA(p: Setting, w: World, m: Move) {
    match m
    case Move(_, env, step) => Enabled(p, w, env, step)
    case Aside(_, env, e) => IsAside(p.a, p.b, w.a.s, env, e)
  }

  ghost function NextOfA(p: Setting, w: World, m: Move): World
    requires AllowedOfA(p, w, m)
  {
    match m
    case Move(_, env, step) => Acted(p, w, env, step)
    case Aside(_, env, e) => World(w.a.(s := P.Next(p.a.cfg, w.a.s, env, e)), w.b)
  }

  ghost predicate Allowed(p: Setting, w: World, m: Move) {
    if m.ofA then AllowedOfA(p, w, m) else AllowedOfA(Flipped(p), FlippedWorld(w), m)
  }

  ghost function Next(p: Setting, w: World, m: Move): World
    requires Allowed(p, w, m)
  {
    if m.ofA then NextOfA(p, w, m) else FlippedWorld(NextOfA(Flipped(p), FlippedWorld(w), m))
  }

  /** The step of Glare's a move is, if it is one. */
  function PlainOf(w: World, m: Move): Option<G.Step> {
    if m.Aside? then None else Plain(if m.ofA then w.a.said else w.b.said, m.step)
  }

  /** The managers know nothing of each other, and are online; of others each may know what it likes. */
  ghost predicate Begins(p: Setting, w: World) {
    && Meets(p.a, p.b, w.a.s) && Meets(p.b, p.a, w.b.s) && OfA(p, w).None? && OfB(p, w).None?
    && w.a.signals == [] && w.a.said == [] && w.b.signals == [] && w.b.said == []
  }

  ghost function Run(p: Setting, begun: World, moves: seq<Move>): World {
    if moves == [] then begun
    else
      var (w, m) := (Run(p, begun, moves[..|moves| - 1]), moves[|moves| - 1]);
      if Allowed(p, w, m) then Next(p, w, m) else w
  }

  /** The moves of Glare's that a run makes. */
  ghost function Traced(p: Setting, begun: World, moves: seq<Move>): seq<G.Move> {
    if moves == [] then []
    else
      var (w, m) := (Run(p, begun, moves[..|moves| - 1]), moves[|moves| - 1]);
      var g := PlainOf(w, m);
      Traced(p, begun, moves[..|moves| - 1])
      + if Allowed(p, w, m) && g.Some? then [if m.ofA then G.OfA(g.value) else G.OfB(g.value)] else []
  }

  lemma FlippedTogether(p: Setting, w: World)
    ensures Together(p, w) <==> Together(Flipped(p), FlippedWorld(w))
    ensures Apt(p) <==> Apt(Flipped(p))
    ensures GlareOf(Flipped(p), FlippedWorld(w)) == Mirrored(GlareOf(p, w))
    ensures OfA(Flipped(p), FlippedWorld(w)) == OfB(p, w) && OfB(Flipped(p), FlippedWorld(w)) == OfA(p, w)
  {
    hide Meets, Told, Spoken, LinkOf;
  }

  lemma AsideKeeps(p: Setting, w: World, env: P.Env, e: P.Event)
    requires Together(p, w) && IsAside(p.a, p.b, w.a.s, env, e)
    ensures var v := World(w.a.(s := P.Next(p.a.cfg, w.a.s, env, e)), w.b);
      Together(p, v) && OfA(p, v) == OfA(p, w) && OfB(p, v) == OfB(p, w) && GlareOf(p, v) == GlareOf(p, w)
  {
    AsideMeets(p.a, p.b, w.a.s, env, e);
    hide P.Next, LinkOf, Meets, Told, Spoken, IsAside;
  }

  lemma NextOfAIsGlares(p: Setting, w: World, m: Move)
    requires Apt(p) && Together(p, w) && AllowedOfA(p, w, m)
    requires Apart(p.a, p.b, OfA(p, w), OfB(p, w), w.a.signals, w.b.signals)
    ensures Together(p, NextOfA(p, w, m))
    ensures var (f, h, g) := (GlareOf(p, w), GlareOf(p, NextOfA(p, w, m)), PlainOf(w, m.(ofA := true)));
      if g.None? then h == f
      else if p.a.cfg.me < p.b.cfg.me then G.Enabled(f, G.OfA(g.value)) && h == G.Next(p.a.own, p.b.own, f, G.OfA(g.value))
      else G.Enabled(Mirrored(f), G.OfB(g.value)) && Mirrored(h) == G.Next(p.b.own, p.a.own, Mirrored(f), G.OfB(g.value))
  {
    if m.Aside? {
      AsideKeeps(p, w, m.env, m.event);
    } else {
      ActedKeeps(p, w, m.env, m.step);
      ActedIsGlares(p, w, m.env, m.step);
    }
    hide Together, Acted, Enabled, IsAside, P.Next, GlareOf, Plain, Mirrored, G.Next, G.Enabled, Apart, OfA, OfB;
  }

  /** Whatever either manager does, the two stay together, and it is a step of Glare's or none. */
  lemma NextIsGlares(p: Setting, w: World, m: Move)
    requires Apt(p) && p.a.cfg.me < p.b.cfg.me && Together(p, w) && Allowed(p, w, m)
    requires G.Invariant(p.a.own, p.b.own, GlareOf(p, w))
    ensures Together(p, Next(p, w, m))
    ensures var (f, h, g) := (GlareOf(p, w), GlareOf(p, Next(p, w, m)), PlainOf(w, m));
      if g.None? then h == f
      else
        var n := if m.ofA then G.OfA(g.value) else G.OfB(g.value);
        G.Enabled(f, n) && h == G.Next(p.a.own, p.b.own, f, n)
  {
    DistinctSessions(p);
    ApartInGlare(p, w);
    if m.ofA {
      NextOfAIsGlares(p, w, m);
    } else {
      FlippedTogether(p, w);
      NextOfAIsGlares(Flipped(p), FlippedWorld(w), m);
      FlippedTogether(p, Next(p, w, m));
      assert Mirrored(Mirrored(GlareOf(p, w))) == GlareOf(p, w);
      assert Mirrored(Mirrored(GlareOf(p, Next(p, w, m)))) == GlareOf(p, Next(p, w, m));
    }
    hide Together, Apt, NextOfA, AllowedOfA, Apart, OfA, OfB, G.Invariant, Plain;
  }

  lemma GlareGoesOn(sa: Session, sb: Session, moves: seq<G.Move>, m: G.Move)
    requires G.Enabled(G.Run(sa, sb, moves), m)
    ensures G.Run(sa, sb, moves + [m]) == G.Next(sa, sb, G.Run(sa, sb, moves), m)
  {
    assert (moves + [m])[..|moves|] == moves;
    hide G.Next, G.Enabled;
  }

  lemma BegunTogether(p: Setting, begun: World)
    requires Begins(p, begun)
    ensures Together(p, begun) && GlareOf(p, begun) == G.World(None, None, [], [])
  {
    hide Meets, LinkOf;
  }

  /** Every run of the two managers is a run of Glare's: nothing fails, and all Glare proves holds of them. */
  lemma {:induction false} EveryRunIsGlares(p: Setting, begun: World, moves: seq<Move>)
    requires Apt(p) && p.a.cfg.me < p.b.cfg.me && Begins(p, begun)
    ensures Together(p, Run(p, begun, moves))
    ensures GlareOf(p, Run(p, begun, moves)) == G.Run(p.a.own, p.b.own, Traced(p, begun, moves))
  {
    hide Together, Apt, Next, Allowed, G.Invariant, GlareOf, PlainOf, G.Next, G.Enabled, Begins;
    if moves == [] {
      BegunTogether(p, begun);
    } else {
      hide G.Run;
      var (w, m) := (Run(p, begun, moves[..|moves| - 1]), moves[|moves| - 1]);
      EveryRunIsGlares(p, begun, moves[..|moves| - 1]);
      var so := Traced(p, begun, moves[..|moves| - 1]);
      assert so + [] == so;
      DistinctSessions(p);
      G.EveryInterleavingKeeps(p.a.own, p.b.own, so);
      var g := PlainOf(w, m);
      if Allowed(p, w, m) {
        NextIsGlares(p, w, m);
        if g.Some? {
          var n := if m.ofA then G.OfA(g.value) else G.OfB(g.value);
          GlareGoesOn(p.a.own, p.b.own, so, n);
          assert Traced(p, begun, moves) == so + [n];
        }
      }
    }
  }

  lemma DistinctSessions(p: Setting)
    requires Apt(p)
    ensures p.a.own != p.b.own
  {
  }

  // ---- How it ends ----

  /** Nothing is left for either to do, but to connect. */
  ghost predicate IsSettled(p: Setting, w: World) {
    forall step: Step | !step.Connect? ::
      && !Can(OfA(p, w), OfB(p, w), w.a.signals, w.a.said, step) && !Can(OfB(p, w), OfA(p, w), w.b.signals, w.b.said, step)
  }

  /** Once nothing is left to do, if either connected, both have proven one connection: the lower key's if it offered one,
      and otherwise the other's, and each has the other's fingerprint and nonce as the other's own. */
  lemma BothProveOne(p: Setting, begun: World, moves: seq<Move>)
    requires Apt(p) && p.a.cfg.me < p.b.cfg.me && Begins(p, begun) && IsSettled(p, Run(p, begun, moves))
    ensures var w := Run(p, begun, moves); var (x, y) := (OfA(p, w), OfB(p, w));
      || (x.None? && y.None?)
      || (x.Some? && y.Some? && x.value.id == y.value.id && x.value.id == (if x.value.conn.offerer then p.a.own else p.b.own)
          && x.value.conn.ready && y.value.conn.ready && p.b.cfg.me in w.a.s.told && p.a.cfg.me in w.b.s.told
          && x.value.conn.remote == y.value.conn.local && y.value.conn.remote == x.value.conn.local
          && x.value.conn.theirs == y.value.conn.nonce && y.value.conn.theirs == x.value.conn.nonce)
  {
    var w := Run(p, begun, moves);
    EveryRunIsGlares(p, begun, moves);
    SettledIsGlares(p, w);
    G.GlareEndsOnOneSession(p.a.own, p.b.own, Traced(p, begun, moves));
    assert GlareOf(p, w).a == EndOf(OfA(p, w)) && GlareOf(p, w).b == EndOf(OfB(p, w));
    if OfA(p, w).Some? { ReadyAreTold(p, w); }
    hide Run, Traced, IsSettled, SignalsOf, Apt;
  }

  lemma ReadyAreTold(p: Setting, w: World)
    requires Together(p, w)
    ensures OfA(p, w).Some? && OfA(p, w).value.conn.ready ==> p.b.cfg.me in w.a.s.told
    ensures OfB(p, w).Some? && OfB(p, w).value.conn.ready ==> p.a.cfg.me in w.b.s.told
  {
    assert P.IsReady(w.a.s, p.b.cfg.me) <==> p.b.cfg.me in w.a.s.told;
    assert P.IsReady(w.b.s, p.a.cfg.me) <==> p.a.cfg.me in w.b.s.told;
    hide Told, Spoken;
  }

  /** Nothing on its way to y, y has taken all that x said: the proof too, if x proved itself. */
  lemma SilentIsTaken(sign: Sign, a: Self, b: Self, x: Option<Link>, y: Option<Link>)
    requires Spoken(sign, a, b, x, y, []) && x.Some? && x.value.conn.nonce.Some?
    ensures y.Some? && y.value.conn.proved && (x.value.conn.proved ==> y.value.conn.ready)
  {
    SaysAll(sign, a, x);
    var says := Says(sign, a, x);
    hide Says, G.IsJoined;
    assert |says[Taken(y)..]| == |says| - Taken(y);
    assert Taken(y) == |says|;
  }

  lemma SaysAll(sign: Sign, me: Self, x: Option<Link>)
    requires x.Some? && x.value.conn.nonce.Some?
    ensures |Says(sign, me, x)| == if x.value.conn.proved then 3 else 2
  {
    hide ProofOf;
  }

  lemma SilentIsReady(p: Setting, x: Option<Link>, y: Option<Link>, toX: seq<P.Message>, toY: seq<P.Message>)
    requires Spoken(p.sign, p.a, p.b, x, y, toY) && Spoken(p.sign, p.b, p.a, y, x, toX) && toX == [] && toY == []
    requires x.Some? && y.Some? && x.value.conn.nonce.Some? && y.value.conn.nonce.Some?
    ensures x.value.conn.ready && y.value.conn.ready
  {
    hide Spoken;
    SilentIsTaken(p.sign, p.a, p.b, x, y);
    SilentIsTaken(p.sign, p.b, p.a, y, x);
  }

  lemma NothingLeft(x: Option<Link>, y: Option<Link>, signals: seq<Sent>, said: seq<P.Message>)
    requires forall step: Step | !step.Connect? :: !Can(x, y, signals, said, step)
    ensures signals == [] && (x.Some? ==> x.value.conn.local.Some?)
    ensures G.IsJoined(EndOf(x), EndOf(y)) ==> said == [] && x.value.conn.nonce.Some?
  {
    assert !Can(x, y, signals, said, Describe(0)) && !Can(x, y, signals, said, Arrive);
    assert !Can(x, y, signals, said, Open(0)) && !Can(x, y, signals, said, Take);
  }

  lemma SettledSo(f: G.World)
    requires f.toA == [] && f.toB == [] && (f.a.Some? ==> f.a.value.local) && (f.b.Some? ==> f.b.value.local)
    requires G.IsJoined(f.a, f.b) ==> f.a.value.ready && f.b.value.ready
    ensures G.IsSettled(f)
  {
  }

  lemma QuietIsSettled(p: Setting, x: Option<Link>, y: Option<Link>, a: Site, b: Site)
    requires Spoken(p.sign, p.a, p.b, x, y, b.said) && Spoken(p.sign, p.b, p.a, y, x, a.said)
    requires forall step: Step | !step.Connect? :: !Can(x, y, a.signals, a.said, step)
    requires forall step: Step | !step.Connect? :: !Can(y, x, b.signals, b.said, step)
    ensures G.IsSettled(G.World(EndOf(x), EndOf(y), SignalsOf(a.signals), SignalsOf(b.signals)))
  {
    NothingLeft(x, y, a.signals, a.said);
    NothingLeft(y, x, b.signals, b.said);
    hide Can, Spoken;
    if G.IsJoined(EndOf(x), EndOf(y)) { SilentIsReady(p, x, y, a.said, b.said); }
    SettledSo(G.World(EndOf(x), EndOf(y), SignalsOf(a.signals), SignalsOf(b.signals)));
    hide G.IsSettled;
  }

  lemma SettledIsGlares(p: Setting, w: World)
    requires Together(p, w) && IsSettled(p, w)
    ensures G.IsSettled(GlareOf(p, w))
  {
    hide Meets, Told, LinkOf, Spoken, Can, OfA, OfB, G.IsSettled;
    QuietIsSettled(p, OfA(p, w), OfB(p, w), w.a, w.b);
  }

  // ---- And that it ends ----

  /** What is left to be said on a connection. */
  function Unsaid(x: Option<Link>): nat {
    if x.None? then 5 else (if x.value.conn.nonce.None? then 3 else 0) + (if x.value.conn.proved then 0 else 2)
  }

  function Left(p: Setting, w: World): nat {
    G.Left(GlareOf(p, w)) + Unsaid(OfA(p, w)) + Unsaid(OfB(p, w)) + |w.a.said| + |w.b.said|
  }

  /** Handshake by handshake: a step says and hears no more than was left to say and hear, and less if it is none of Glare's. */
  lemma SaidIsProgress(p: Setting, now: int, x: Option<Link>, y: Option<Link>, a: Site, b: Site, step: Step, wanted: bool)
    requires Can(x, y, a.signals, a.said, step) && Apart(p.a, p.b, x, y, a.signals, b.signals) && p.a.cfg.common(p.b.versions).Some?
    requires Spoken(p.sign, p.a, p.b, x, y, b.said) && Spoken(p.sign, p.b, p.a, y, x, a.said)
    ensures var z := LinkAfter(p.a, p.b, now, x, a.signals, a.said, step);
      Unsaid(z) + |Messages(p.sign, p.a, x, z, wanted)| + (if step.Take? then |a.said| - 1 else |a.said|)
        <= Unsaid(x) + |a.said| - if Plain(a.said, step).None? then 1 else 0
  {
    if step.Take? { HeardNext(p.sign, p.a, p.b, x, y, a.said, b.said); }
    else if !step.Open? { NothingSaid(p.sign, p.a, p.b, x, y, a.said, b.said); }
    hide Spoken;
  }

  lemma ActedIsProgress(p: Setting, w: World, env: P.Env, step: Step)
    requires Apt(p) && Together(p, w) && Enabled(p, w, env, step)
    requires Apart(p.a, p.b, OfA(p, w), OfB(p, w), w.a.signals, w.b.signals)
    ensures var (v, g) := (Acted(p, w, env, step), Plain(w.a.said, step));
      Unsaid(OfA(p, v)) + Unsaid(OfB(p, v)) + |v.a.said| + |v.b.said|
        <= Unsaid(OfA(p, w)) + Unsaid(OfB(p, w)) + |w.a.said| + |w.b.said| - if g.None? then 1 else 0
  {
    var (x, v) := (OfA(p, w), Acted(p, w, env, step));
    ActedSo(p, w, env, step);
    assert OfB(p, v) == OfB(p, w);
    SaidIsProgress(p, env.now, x, OfB(p, w), w.a, w.b, step, P.Wanted(P.PeerOf(v.a.s, p.b.cfg.me)));
    hide P.Next, LinkOf, Meets, Apart, Told, Spoken, P.IsFresh, P.Linked, LinkAfter, Messages, Apt, Unsaid, Plain;
  }

  lemma NextOfAIsProgress(p: Setting, w: World, m: Move)
    requires Apt(p) && Together(p, w) && AllowedOfA(p, w, m)
    requires Apart(p.a, p.b, OfA(p, w), OfB(p, w), w.a.signals, w.b.signals)
    ensures var (v, g) := (NextOfA(p, w, m), PlainOf(w, m.(ofA := true)));
      Unsaid(OfA(p, v)) + Unsaid(OfB(p, v)) + |v.a.said| + |v.b.said|
        <= Unsaid(OfA(p, w)) + Unsaid(OfB(p, w)) + |w.a.said| + |w.b.said| - if m.Move? && g.None? then 1 else 0
  {
    if m.Aside? { AsideKeeps(p, w, m.env, m.event); } else { ActedIsProgress(p, w, m.env, m.step); }
    hide Together, Acted, Enabled, IsAside, P.Next, Plain, Apart, OfA, OfB, Unsaid;
  }

  /** Every move of one of the two to the other leaves less to do, and what they do with others no more: they go on with
      each other for only so long. */
  lemma EveryMoveIsProgress(p: Setting, w: World, m: Move)
    requires Apt(p) && p.a.cfg.me < p.b.cfg.me && Together(p, w) && Allowed(p, w, m)
    requires G.Invariant(p.a.own, p.b.own, GlareOf(p, w))
    ensures if m.Aside? then Left(p, Next(p, w, m)) <= Left(p, w) else Left(p, Next(p, w, m)) < Left(p, w)
  {
    DistinctSessions(p);
    NextIsGlares(p, w, m);
    ApartInGlare(p, w);
    var g := PlainOf(w, m);
    if g.Some? { G.EveryStepIsProgress(p.a.own, p.b.own, GlareOf(p, w), if m.ofA then G.OfA(g.value) else G.OfB(g.value)); }
    if m.ofA {
      NextOfAIsProgress(p, w, m);
    } else {
      FlippedTogether(p, w);
      FlippedTogether(p, Next(p, w, m));
      NextOfAIsProgress(Flipped(p), FlippedWorld(w), m);
    }
    hide Together, Apt, NextOfA, AllowedOfA, Apart, OfA, OfB, G.Invariant, Plain, G.Next, G.Enabled, GlareOf, G.Left, Unsaid;
  }
}
