/** The rendezvous service's matching, as a relation: who subscribes to what, who announces what, who was told. */
module Rendezvous {
  // internal/rendezvous/service/service.go:229-399.

  import opened Basics

  /** A peer's connection. */
  type Conn = nat

  datatype Link = Link(who: Conn, id: ID)

  datatype Limits = Limits(subscriptions: nat, announcements: nat)

  /** Each subscription and announcement with when it began, and when each subscriber was last told that an identifier of
      theirs is announced. */
  datatype State = State(open: set<Conn>, subs: map<Link, nat>, anns: map<Link, nat>, told: map<Link, nat>, now: nat)

  datatype Event =
    | Open(who: Conn)
    | Forget(who: Conn)
    | Subscribe(who: Conn, ids: seq<ID>)
    | Announce(who: Conn, ids: seq<ID>)
    | Unsubscribe(who: Conn, ids: seq<ID>)
    | Withdraw(who: Conn, ids: seq<ID>)

  ghost function IDsOf(links: map<Link, nat>, p: Conn): set<ID> {
    set l | l in links && l.who == p :: l.id
  }

  ghost function SetOf(ids: seq<ID>): set<ID> { set id | id in ids }

  /** What p would have with ids too. */
  ghost predicate IsWithin(links: map<Link, nat>, p: Conn, ids: seq<ID>, limit: nat) {
    |IDsOf(links, p) + SetOf(ids)| <= limit
  }

  /** p's links to those of ids it had none to. */
  ghost function Fresh(links: map<Link, nat>, p: Conn, ids: seq<ID>): set<Link> {
    set id | id in ids && Link(p, id) !in links :: Link(p, id)
  }

  ghost predicate IsOfAnother(links: map<Link, nat>, l: Link) {
    exists m :: m in links && m.id == l.id && m.who != l.who
  }

  ghost function At(links: set<Link>, now: nat): map<Link, nat> { map l | l in links :: now }

  /** Those told when p subscribes anew: p, of each identifier another announces. */
  ghost function ToldSubscriber(s: State, p: Conn, ids: seq<ID>): set<Link> {
    set l | l in Fresh(s.subs, p, ids) && IsOfAnother(s.anns, l)
  }

  /** And when p announces anew: each other subscriber of each identifier. */
  ghost function ToldSubscribers(s: State, p: Conn, ids: seq<ID>): set<Link> {
    set l | l in s.subs && l.who != p && Link(p, l.id) in Fresh(s.anns, p, ids)
  }

  ghost function Next(limits: Limits, s: State, e: Event): State {
    match e
    case Open(p) => if p in s.open then s else s.(open := s.open + {p}, now := s.now + 1)
    case Forget(p) => s.(open := s.open - {p}, subs := Without(s.subs, p), anns := Without(s.anns, p), now := s.now + 1)
    case Subscribe(p, ids) =>
      if p !in s.open || !IsWithin(s.subs, p, ids, limits.subscriptions) then s
      else s.(subs := s.subs + At(Fresh(s.subs, p, ids), s.now), told := s.told + At(ToldSubscriber(s, p, ids), s.now), now := s.now + 1)
    case Announce(p, ids) =>
      if p !in s.open || !IsWithin(s.anns, p, ids, limits.announcements) then s
      else s.(anns := s.anns + At(Fresh(s.anns, p, ids), s.now), told := s.told + At(ToldSubscribers(s, p, ids), s.now), now := s.now + 1)
    case Unsubscribe(p, ids) => s.(subs := s.subs - Links(p, ids), now := s.now + 1)
    case Withdraw(p, ids) => s.(anns := s.anns - Links(p, ids), now := s.now + 1)
  }

  ghost function Without(links: map<Link, nat>, p: Conn): map<Link, nat> {
    map l | l in links && l.who != p :: links[l]
  }

  ghost function Links(p: Conn, ids: seq<ID>): set<Link> { set id | id in ids :: Link(p, id) }

  ghost function Run(limits: Limits, es: seq<Event>): State {
    if es == [] then State({}, map[], map[], map[], 0) else Next(limits, Run(limits, es[..|es| - 1]), es[|es| - 1])
  }

  // ---- What every run keeps ----

  /** Whoever subscribes to what another announces was told so since the later of the two began. */
  ghost predicate TellsAll(s: State) {
    forall l, m | l in s.subs && m in s.anns && l.id == m.id && l.who != m.who ::
      l in s.told && s.told[l] >= s.subs[l] && s.told[l] >= s.anns[m]
  }

  ghost predicate Bounded(s: State) {
    && (forall l | l in s.subs :: s.subs[l] < s.now && l.who in s.open)
    && (forall l | l in s.anns :: s.anns[l] < s.now && l.who in s.open)
    && (forall l | l in s.told :: s.told[l] < s.now)
  }

  ghost predicate KeepsLimits(limits: Limits, s: State) {
    IsUnder(s.subs, limits.subscriptions) && IsUnder(s.anns, limits.announcements)
  }

  ghost predicate Invariant(limits: Limits, s: State) {
    TellsAll(s) && Bounded(s) && KeepsLimits(limits, s)
  }

  lemma AddedIDs(links: map<Link, nat>, p: Conn, ids: seq<ID>, now: nat, q: Conn)
    ensures IDsOf(links + At(Fresh(links, p, ids), now), q) == IDsOf(links, q) + if q == p then SetOf(ids) else {}
  {
    var more := links + At(Fresh(links, p, ids), now);
    forall id ensures id in IDsOf(more, q) <==> id in IDsOf(links, q) + (if q == p then SetOf(ids) else {}) {
      assert id in IDsOf(more, q) <==> Link(q, id) in more;
      assert id in IDsOf(links, q) <==> Link(q, id) in links;
    }
  }

  lemma FewerIDs(links: map<Link, nat>, fewer: map<Link, nat>, q: Conn)
    requires fewer.Keys <= links.Keys
    ensures |IDsOf(fewer, q)| <= |IDsOf(links, q)|
  {
    assert IDsOf(fewer, q) <= IDsOf(links, q);
    CountLess(IDsOf(fewer, q), IDsOf(links, q));
  }

  lemma {:induction false} CountLess(a: set<ID>, b: set<ID>)
    requires a <= b
    ensures |a| <= |b|
  {
    if a != {} {
      var x :| x in a;
      CountLess(a - {x}, b - {x});
    }
  }

  ghost predicate IsUnder(links: map<Link, nat>, limit: nat) {
    forall p :: |IDsOf(links, p)| <= limit
  }

  lemma AddedUnder(links: map<Link, nat>, p: Conn, ids: seq<ID>, now: nat, limit: nat)
    requires IsUnder(links, limit) && IsWithin(links, p, ids, limit)
    ensures IsUnder(links + At(Fresh(links, p, ids), now), limit)
  {
    forall q ensures |IDsOf(links + At(Fresh(links, p, ids), now), q)| <= limit {
      AddedIDs(links, p, ids, now, q);
      hide IDsOf, Fresh, At;
      assert IDsOf(links, q) + {} == IDsOf(links, q);
    }
  }

  lemma FewerUnder(links: map<Link, nat>, fewer: map<Link, nat>, limit: nat)
    requires IsUnder(links, limit) && fewer.Keys <= links.Keys
    ensures IsUnder(fewer, limit)
  {
    forall q ensures |IDsOf(fewer, q)| <= limit { FewerIDs(links, fewer, q); }
  }

  lemma LimitsKept(limits: Limits, s: State, e: Event)
    requires KeepsLimits(limits, s)
    ensures KeepsLimits(limits, Next(limits, s, e))
  {
    var t := Next(limits, s, e);
    match e
    case Subscribe(q, ids) => if t != s { hide *; AddedUnder(s.subs, q, ids, s.now, limits.subscriptions); }
    case Announce(q, ids) => if t != s { hide *; AddedUnder(s.anns, q, ids, s.now, limits.announcements); }
    case _ =>
      FewerUnder(s.subs, t.subs, limits.subscriptions);
      FewerUnder(s.anns, t.anns, limits.announcements);
  }

  lemma SubscribeTells(limits: Limits, s: State, p: Conn, ids: seq<ID>)
    requires TellsAll(s) && Bounded(s)
    ensures TellsAll(Next(limits, s, Subscribe(p, ids)))
  {
    var t := Next(limits, s, Subscribe(p, ids));
    forall l, m | l in t.subs && m in t.anns && l.id == m.id && l.who != m.who
      ensures l in t.told && t.told[l] >= t.subs[l] && t.told[l] >= t.anns[m]
    {
      if l in s.subs { assert l !in Fresh(s.subs, p, ids); } else { assert l in ToldSubscriber(s, p, ids); }
    }
  }

  lemma AnnounceTells(limits: Limits, s: State, p: Conn, ids: seq<ID>)
    requires TellsAll(s) && Bounded(s)
    ensures TellsAll(Next(limits, s, Announce(p, ids)))
  {
    var t := Next(limits, s, Announce(p, ids));
    forall l, m | l in t.subs && m in t.anns && l.id == m.id && l.who != m.who
      ensures l in t.told && t.told[l] >= t.subs[l] && t.told[l] >= t.anns[m]
    {
      if m in s.anns { assert m !in Fresh(s.anns, p, ids); } else { assert l in ToldSubscribers(s, p, ids); }
    }
  }

  lemma FewerTell(s: State, t: State)
    requires TellsAll(s) && t.told == s.told
    requires forall l | l in t.subs :: l in s.subs && t.subs[l] == s.subs[l]
    requires forall l | l in t.anns :: l in s.anns && t.anns[l] == s.anns[l]
    ensures TellsAll(t)
  {
  }

  lemma TellingKept(limits: Limits, s: State, e: Event)
    requires TellsAll(s) && Bounded(s)
    ensures TellsAll(Next(limits, s, e))
  {
    match e
    case Subscribe(p, ids) => SubscribeTells(limits, s, p, ids);
    case Announce(p, ids) => AnnounceTells(limits, s, p, ids);
    case _ => FewerTell(s, Next(limits, s, e));
  }

  ghost predicate IsBefore(links: map<Link, nat>, now: nat, open: set<Conn>) {
    forall l | l in links :: links[l] < now && l.who in open
  }

  lemma MoreBefore(links: map<Link, nat>, p: Conn, ids: seq<ID>, now: nat, open: set<Conn>)
    requires IsBefore(links, now, open) && p in open
    ensures IsBefore(links + At(Fresh(links, p, ids), now), now + 1, open)
  {
  }

  ghost predicate IsPast(told: map<Link, nat>, now: nat) { forall l | l in told :: told[l] < now }

  lemma MorePast(told: map<Link, nat>, more: set<Link>, now: nat)
    requires IsPast(told, now)
    ensures IsPast(told + At(more, now), now + 1)
  {
  }

  lemma BoundsKept(limits: Limits, s: State, e: Event)
    requires Bounded(s)
    ensures Bounded(Next(limits, s, e))
  {
    assert IsBefore(s.subs, s.now, s.open) && IsBefore(s.anns, s.now, s.open) && IsPast(s.told, s.now);
    var t := Next(limits, s, e);
    match e
    case Subscribe(p, ids) =>
      if t != s {
        MoreBefore(s.subs, p, ids, s.now, s.open);
        MorePast(s.told, ToldSubscriber(s, p, ids), s.now);
        hide At, Fresh, ToldSubscriber;
      }
    case Announce(p, ids) =>
      if t != s {
        MoreBefore(s.anns, p, ids, s.now, s.open);
        MorePast(s.told, ToldSubscribers(s, p, ids), s.now);
        hide At, Fresh, ToldSubscribers;
      }
    case _ =>
  }

  /** In every run, no limit is exceeded; only open connections have links; and whoever subscribes to what another
      announces was told since the later of the two began. */
  lemma {:induction false} EveryRunTells(limits: Limits, es: seq<Event>)
    ensures Invariant(limits, Run(limits, es))
  {
    if es != [] {
      var s := Run(limits, es[..|es| - 1]);
      EveryRunTells(limits, es[..|es| - 1]);
      TellingKept(limits, s, es[|es| - 1]);
      BoundsKept(limits, s, es[|es| - 1]);
      LimitsKept(limits, s, es[|es| - 1]);
      hide Next;
    } else {
      assert forall p :: IDsOf(map[], p) == {};
    }
  }

  /** Somebody told is somebody for whom there was something to tell: when it was said, another announced what they
      subscribe to. */
  lemma ToldRightly(limits: Limits, s: State, e: Event, l: Link)
    requires Bounded(s)
    requires var t := Next(limits, s, e); l in t.told && (l !in s.told || t.told[l] != s.told[l])
    ensures var t := Next(limits, s, e); l in t.subs && IsOfAnother(t.anns, l) && (e.Subscribe? || e.Announce?)
  {
    match e
    case Announce(p, ids) =>
      assert Link(p, l.id) in Next(limits, s, e).anns;
    case Subscribe(p, ids) =>
      var m :| m in s.anns && m.id == l.id && m.who != l.who;
      assert m in Next(limits, s, e).anns;
    case _ =>
  }

  // ---- Until when ----

  /** What one event makes of who subscribes to what: a subscription granted begins, if p's with it are no more than it may have; and
      ends as p unsubscribes, or is gone. */
  lemma SubscriptionsAfter(limits: Limits, s: State, e: Event, p: Conn, id: ID)
    ensures Link(p, id) in Next(limits, s, e).subs <==>
      || (e.Subscribe? && e.who == p && id in e.ids && p in s.open &&
            |(set l | l in s.subs && l.who == p :: l.id) + (set i | i in e.ids)| <= limits.subscriptions)
      || (Link(p, id) in s.subs && !(e.Unsubscribe? && e.who == p && id in e.ids) && e != Forget(p))
    ensures p in Next(limits, s, e).open <==> e == Open(p) || (p in s.open && e != Forget(p))
  {
    LinkEnds(s.subs, e.who, p, id);
    if e.Open? || e.Forget? {
      hide IsWithin, Fresh, At, Without;
    } else {
      WithinIs(s.subs, e.who, e.ids, limits.subscriptions);
      LinkBegins(s.subs, e.who, e.ids, s.now, p, id);
      hide IsWithin, Fresh, At, Without, Links;
    }
  }

  lemma WithinIs(links: map<Link, nat>, p: Conn, ids: seq<ID>, limit: nat)
    ensures IsWithin(links, p, ids, limit) <==> |(set l | l in links && l.who == p :: l.id) + (set i | i in ids)| <= limit
  {
    assert (set l | l in links && l.who == p :: l.id) == IDsOf(links, p) && (set i | i in ids) == SetOf(ids);
  }

  lemma LinkBegins(links: map<Link, nat>, q: Conn, ids: seq<ID>, now: nat, p: Conn, id: ID)
    ensures Link(p, id) in links + At(Fresh(links, q, ids), now) <==> Link(p, id) in links || (q == p && id in ids)
    ensures Link(p, id) in links - Links(q, ids) <==> Link(p, id) in links && !(q == p && id in ids)
  {
  }

  lemma LinkEnds(links: map<Link, nat>, q: Conn, p: Conn, id: ID)
    ensures Link(p, id) in Without(links, q) <==> Link(p, id) in links && q != p
  {
  }

  /** And of who announces what. */
  lemma AnnouncementsAfter(limits: Limits, s: State, e: Event, p: Conn, id: ID)
    ensures Link(p, id) in Next(limits, s, e).anns <==>
      || (e.Announce? && e.who == p && id in e.ids && p in s.open &&
            |(set l | l in s.anns && l.who == p :: l.id) + (set i | i in e.ids)| <= limits.announcements)
      || (Link(p, id) in s.anns && !(e.Withdraw? && e.who == p && id in e.ids) && e != Forget(p))
  {
    LinkEnds(s.anns, e.who, p, id);
    if e.Open? || e.Forget? {
      hide IsWithin, Fresh, At, Without;
    } else {
      WithinIs(s.anns, e.who, e.ids, limits.announcements);
      LinkBegins(s.anns, e.who, e.ids, s.now, p, id);
      hide IsWithin, Fresh, At, Without, Links;
    }
  }

  /** Nobody who does not subscribe to something, nor begins to, is told of it. */
  lemma OthersAreNotTold(limits: Limits, s: State, e: Event, p: Conn, id: ID)
    requires Link(p, id) !in s.subs && !(e.Subscribe? && e.who == p && id in e.ids)
    ensures Link(p, id) in Next(limits, s, e).told <==> Link(p, id) in s.told
    ensures Link(p, id) in s.told ==> Next(limits, s, e).told[Link(p, id)] == s.told[Link(p, id)]
  {
  }

  /** In every run, once p unsubscribes from id, or is gone, it does not subscribe to it, and is not told of it, until it subscribes to
      it again. */
  lemma {:induction false} ToldNoMore(limits: Limits, es: seq<Event>, i: nat, n: nat, p: Conn, id: ID)
    requires i < n <= |es| && ((es[i].Unsubscribe? && es[i].who == p && id in es[i].ids) || es[i] == Forget(p))
    requires forall j | i < j < n :: !(es[j].Subscribe? && es[j].who == p && id in es[j].ids)
    ensures var (s, t, l) := (Run(limits, es[..i]), Run(limits, es[..n]), Link(p, id));
      l !in t.subs && (l in t.told <==> l in s.told) && (l in s.told ==> t.told[l] == s.told[l])
  {
    assert es[..n][..n - 1] == es[..n - 1];
    var s := Run(limits, es[..n - 1]);
    SubscriptionsAfter(limits, s, es[n - 1], p, id);
    if n == i + 1 {
      assert Next(limits, s, es[i]).told == s.told;
    } else {
      ToldNoMore(limits, es, i, n - 1, p, id);
      OthersAreNotTold(limits, s, es[n - 1], p, id);
    }
    hide Next;
  }

  /** And once p withdraws id, or is gone, it does not announce it until it announces it again. */
  lemma {:induction false} AnnouncedNoMore(limits: Limits, es: seq<Event>, i: nat, n: nat, p: Conn, id: ID)
    requires i < n <= |es| && ((es[i].Withdraw? && es[i].who == p && id in es[i].ids) || es[i] == Forget(p))
    requires forall j | i < j < n :: !(es[j].Announce? && es[j].who == p && id in es[j].ids)
    ensures Link(p, id) !in Run(limits, es[..n]).anns
  {
    assert es[..n][..n - 1] == es[..n - 1];
    AnnouncementsAfter(limits, Run(limits, es[..n - 1]), es[n - 1], p, id);
    if n > i + 1 { AnnouncedNoMore(limits, es, i, n - 1, p, id); }
    hide Next;
  }
}
