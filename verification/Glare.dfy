/** Two peers that want each other at once, each offering, their signals arriving in order. */
module Glare {
  // internal/peers/peers.go:416-482 and 535-604, and ADR 0024: under every interleaving they end on one session, and on
  // the lower key's if it offered one. a is the lower key's end. Nothing here fails or times out; candidates are left out.

  import opened Basics
  import P = Peers

  type Session = P.ConnID

  /** A peer's connection to the other: whether it has its own description, and the other's. */
  datatype End = End(session: Session, offerer: bool, local: bool, remote: bool, ready: bool)

  datatype Signal = Offer(session: Session) | Answer(session: Session)

  /** Both ends, and the signals on their way to each, the first to arrive first. */
  datatype World = World(a: Option<End>, b: Option<End>, toA: seq<Signal>, toB: seq<Signal>)

  /** A peer connects; the WebView gives a peer the description of its own; a signal arrives; a peer proves the connection. */
  datatype Step = Connect | Describe | Arrive | Prove

  datatype Move = OfA(step: Step) | OfB(step: Step)

  // ---- What one end does ----

  /** An offer arrives; lower says this peer's key is the lower one. */
  function OnOffer(lower: bool, e: Option<End>, id: Session): Option<End> {
    if e.Some? && e.value.session == id then Some(e.value.(remote := true))
    else if e.Some? && !e.value.ready && e.value.offerer && lower then e
    else Some(End(id, false, false, true, false))
  }

  function OnAnswer(e: Option<End>, id: Session): Option<End> {
    if e.Some? && e.value.session == id && e.value.offerer then Some(e.value.(remote := true)) else e
  }

  function OnSignal(lower: bool, e: Option<End>, s: Signal): Option<End> {
    match s case Offer(id) => OnOffer(lower, e, id) case Answer(id) => OnAnswer(e, id)
  }

  /** What this peer sends once it has its own description. */
  function Sends(e: End): Signal { if e.offerer then Offer(e.session) else Answer(e.session) }

  /** The two ends are of one connection, and have each other's descriptions. */
  predicate IsJoined(e: Option<End>, f: Option<End>) {
    && e.Some? && f.Some? && e.value.session == f.value.session && e.value.offerer != f.value.offerer
    && e.value.local && e.value.remote && f.value.local && f.value.remote
  }

  // ---- Interleavings ----

  predicate Enabled(w: World, m: Move) {
    var (e, f, inbox) := if m.OfA? then (w.a, w.b, w.toA) else (w.b, w.a, w.toB);
    match m.step
    case Connect => e.None?
    case Describe => e.Some? && !e.value.local
    case Arrive => inbox != []
    case Prove => IsJoined(e, f) && !e.value.ready
  }

  /** own is the session the peer makes, if it connects. */
  function EndAfter(lower: bool, own: Session, e: Option<End>, inbox: seq<Signal>, step: Step): Option<End>
    requires step.Arrive? ==> inbox != []
    requires step.Describe? || step.Prove? ==> e.Some?
  {
    match step
    case Connect => Some(End(own, true, false, false, false))
    case Describe => Some(e.value.(local := true))
    case Arrive => OnSignal(lower, e, inbox[0])
    case Prove => Some(e.value.(ready := true))
  }

  function Next(sa: Session, sb: Session, w: World, m: Move): World
    requires Enabled(w, m)
  {
    match m
    case OfA(step) =>
      World(EndAfter(true, sa, w.a, w.toA, step), w.b, if step.Arrive? then w.toA[1..] else w.toA,
            if step.Describe? then w.toB + [Sends(w.a.value)] else w.toB)
    case OfB(step) =>
      World(w.a, EndAfter(false, sb, w.b, w.toB, step), if step.Describe? then w.toA + [Sends(w.b.value)] else w.toA,
            if step.Arrive? then w.toB[1..] else w.toB)
  }

  function Run(sa: Session, sb: Session, moves: seq<Move>): World {
    if moves == [] then World(None, None, [], [])
    else
      var (w, m) := (Run(sa, sb, moves[..|moves| - 1]), moves[|moves| - 1]);
      if Enabled(w, m) then Next(sa, sb, w, m) else w
  }

  // ---- What every interleaving keeps ----

  /** x offers its own session to y, who does not know it yet: the offer is on its way if it was made. */
  predicate Offering(own: Session, x: End, toY: seq<Signal>) {
    x.session == own && x.offerer && !x.remote && !x.ready && toY == if x.local then [Offer(own)] else []
  }

  /** y answers x's session own; before the answer, y's stale offer of its own may be on its way. */
  predicate Answering(own: Session, other: Session, x: End, y: End, toX: seq<Signal>, toY: seq<Signal>, stale: bool) {
    && x.session == own && x.offerer && x.local && y.session == own && !y.offerer && y.remote && toY == []
    && (x.remote ==> y.local) && (x.ready || y.ready ==> x.remote)
    && toX == (if stale then [Offer(other)] else []) + (if y.local && !x.remote then [Answer(own)] else [])
    && (stale ==> !x.remote)
  }

  predicate Invariant(sa: Session, sb: Session, w: World) {
    match (w.a, w.b)
    case (None, None) => w.toA == [] && w.toB == []
    case (Some(a), None) => Offering(sa, a, w.toB) && w.toA == []
    case (None, Some(b)) => Offering(sb, b, w.toA) && w.toB == []
    case (Some(a), Some(b)) =>
      // Both offer: a's offer wins, and b's, if it was made, is still on its way or was ignored.
      || (Offering(sa, a, w.toB) && b.session == sb && b.offerer && !b.remote && !b.ready && (w.toA == [] || (b.local && w.toA == [Offer(sb)])))
      || Answering(sa, sb, a, b, w.toA, w.toB, false) || Answering(sa, sb, a, b, w.toA, w.toB, true)
      || Answering(sb, sa, b, a, w.toB, w.toA, false)
  }

  lemma StepOfAKeeps(sa: Session, sb: Session, w: World, step: Step)
    requires sa != sb && Invariant(sa, sb, w) && Enabled(w, OfA(step))
    ensures Invariant(sa, sb, Next(sa, sb, w, OfA(step)))
  {
  }

  lemma StepOfBKeeps(sa: Session, sb: Session, w: World, step: Step)
    requires sa != sb && Invariant(sa, sb, w) && Enabled(w, OfB(step))
    ensures Invariant(sa, sb, Next(sa, sb, w, OfB(step)))
  {
  }

  lemma {:induction false} EveryInterleavingKeeps(sa: Session, sb: Session, moves: seq<Move>)
    requires sa != sb
    ensures Invariant(sa, sb, Run(sa, sb, moves))
  {
    if moves != [] {
      var (w, m) := (Run(sa, sb, moves[..|moves| - 1]), moves[|moves| - 1]);
      EveryInterleavingKeeps(sa, sb, moves[..|moves| - 1]);
      if Enabled(w, m) {
        match m case OfA(step) => StepOfAKeeps(sa, sb, w, step); case OfB(step) => StepOfBKeeps(sa, sb, w, step);
      }
    }
  }

  // ---- How it ends ----

  /** Nothing is on its way, nothing is being described, and what can be proven is. */
  predicate IsSettled(w: World) {
    forall step: Step | step != Connect :: !Enabled(w, OfA(step)) && !Enabled(w, OfB(step))
  }

  /** Once all is done, if either connected, both are on one session and have proven it: the lower key's, if it offered
      one, and otherwise the other's. */
  lemma GlareEndsOnOneSession(sa: Session, sb: Session, moves: seq<Move>)
    requires sa != sb && IsSettled(Run(sa, sb, moves))
    ensures var w := Run(sa, sb, moves);
      (w.a.None? && w.b.None?) || (IsJoined(w.a, w.b) && w.a.value.ready && w.b.value.ready && w.a.value.session == if w.a.value.offerer then sa else sb)
  {
    var w := Run(sa, sb, moves);
    EveryInterleavingKeeps(sa, sb, moves);
    assert !Enabled(w, OfA(Describe)) && !Enabled(w, OfB(Describe)) && !Enabled(w, OfA(Arrive)) && !Enabled(w, OfB(Arrive));
    assert !Enabled(w, OfA(Prove)) && !Enabled(w, OfB(Prove));
  }

  /** The lower key's own session, once offered, is never given up for the other's; and neither end, once there, is ever
      without a connection. */
  lemma LowerNeverYields(sa: Session, sb: Session, w: World, m: Move)
    requires sa != sb && Invariant(sa, sb, w) && Enabled(w, m)
    ensures var v := Next(sa, sb, w, m);
      && (w.a.Some? && w.a.value.offerer ==> v.a.Some? && v.a.value.offerer && v.a.value.session == sa)
      && (w.a.Some? ==> v.a.Some?) && (w.b.Some? ==> v.b.Some?)
  {
  }

  /** What is left to be done of an end, and of all. */
  function LeftOf(e: Option<End>): nat {
    if e.None? then 12 else (if e.value.local then 0 else 3) + (if e.value.ready then 0 else 1) + (if e.value.offerer then 5 else 0)
  }

  function Left(w: World): nat { LeftOf(w.a) + LeftOf(w.b) + |w.toA| + |w.toB| }

  /** Every step brings the end nearer: no interleaving goes on for ever. */
  lemma EveryStepIsProgress(sa: Session, sb: Session, w: World, m: Move)
    requires sa != sb && Invariant(sa, sb, w) && Enabled(w, m)
    ensures Left(Next(sa, sb, w, m)) < Left(w)
  {
  }

  /** The order of signals matters: had b's answer overtaken b's offer, each could end on its own session. */
  lemma OutOfOrderSplits(sa: Session, sb: Session)
    requires sa != sb
    ensures var w := Run(sa, sb, [OfB(Connect), OfB(Describe), OfA(Connect), OfA(Describe), OfB(Arrive), OfB(Describe)]);
      && w.toA == [Offer(sb), Answer(sa)]
      && var a := OnSignal(true, w.a, Answer(sa));
         IsJoined(a, w.b) && OnSignal(true, Some(a.value.(ready := true)), Offer(sb)) == Some(End(sb, false, false, true, false))
         && w.b.value.session == sa
  {
    var moves := [OfB(Connect), OfB(Describe), OfA(Connect), OfA(Describe), OfB(Arrive), OfB(Describe)];
    assert Run(sa, sb, moves[..0]) == World(None, None, [], []);
    RunStep(sa, sb, moves, 1);
    RunStep(sa, sb, moves, 2);
    RunStep(sa, sb, moves, 3);
    RunStep(sa, sb, moves, 4);
    RunStep(sa, sb, moves, 5);
    RunStep(sa, sb, moves, 6);
    assert moves[..6] == moves;
  }

  lemma RunStep(sa: Session, sb: Session, moves: seq<Move>, n: nat)
    requires 0 < n <= |moves|
    ensures Run(sa, sb, moves[..n]) ==
      var (w, m) := (Run(sa, sb, moves[..n - 1]), moves[n - 1]); if Enabled(w, m) then Next(sa, sb, w, m) else w
  {
    assert moves[..n][..n - 1] == moves[..n - 1];
  }

  // ---- An end is what the manager keeps ----

  /** This peer's end of its connection with k. */
  function EndOf(s: P.State, k: Key): Option<End> {
    if k in s.peers && s.peers[k].conn.Some? && s.peers[k].conn.value in s.conns then
      var c := s.conns[s.peers[k].conn.value];
      Some(End(s.peers[k].conn.value, c.offerer, c.local.Some?, c.remote.Some?, c.ready))
    else None
  }

  /** The manager takes an offer, of a session not another peer's, whose description is as it was if it was described, as an
      end does. */
  lemma OfferIsTakenSo(cfg: P.Config, s: P.State, env: P.Env, k: Key, id: Session, fp: P.Fingerprint)
    requires P.Invariant(cfg, s) && cfg.accepts(k)
    requires id in s.conns ==> s.conns[id].peer == k && (s.conns[id].remote.Some? ==> s.conns[id].remote == Some(fp))
    ensures EndOf(P.Next(cfg, s, env, P.OfferFrom(k, id, Some(fp))), k) == OnOffer(cfg.me < k, EndOf(s, k), id)
  {
    if id !in s.conns && P.PeerOf(s, k).conn.Some? { P.DroppedLinked(s, P.PeerOf(s, k).conn.value); }
  }

  lemma AnswerIsTakenSo(cfg: P.Config, s: P.State, env: P.Env, k: Key, id: Session, fp: P.Fingerprint)
    requires P.Invariant(cfg, s)
    requires id in s.conns && s.conns[id].peer == k ==> (s.conns[id].remote.Some? ==> s.conns[id].remote == Some(fp))
    ensures EndOf(P.Next(cfg, s, env, P.AnswerFrom(k, id, Some(fp))), k) == OnAnswer(EndOf(s, k), id)
  {
  }

  lemma DescriptionIsTakenSo(cfg: P.Config, s: P.State, env: P.Env, k: Key, id: Session, fp: P.Fingerprint)
    requires P.Invariant(cfg, s) && EndOf(s, k).Some? && EndOf(s, k).value.session == id && !EndOf(s, k).value.local
    ensures EndOf(P.Next(cfg, s, env, P.LocalDescription(id, Some(fp))), k) == Some(EndOf(s, k).value.(local := true))
  {
  }

  lemma ConnectingIsSo(cfg: P.Config, s: P.State, env: P.Env, k: Key, reason: string)
    requires P.Invariant(cfg, s) && P.IsFresh(s, env) && EndOf(s, k).None? && s.online && !P.PeerOf(s, k).parked && P.PeerOf(s, k).retry.None?
    ensures EndOf(P.Next(cfg, s, env, P.Want(k, reason)), k) == Some(End(env.session(k), true, false, false, false))
  {
  }
}
