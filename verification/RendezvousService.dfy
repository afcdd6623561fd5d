/** The rendezvous service's tables, updated in place (internal/rendezvous/service/service.go:229-399).

There are two indexes of each kind of link, by connection and by identifier; they are proved to say always what the
relation of Rendezvous does. */
module RendezvousService {
  import opened Basics
  import opened Rendezvous

  /** Both indexes of links: each connection's own identifiers, and the connections of each identifier that has any. */
  ghost predicate Mirrors(open: set<Conn>, links: map<Link, nat>, mine: map<Conn, set<ID>>, index: map<ID, set<Conn>>) {
    && mine.Keys == open
    && (forall p, id :: Link(p, id) in links <==> p in mine && id in mine[p])
    && (forall p, id :: Link(p, id) in links <==> id in index && p in index[id])
    && (forall id | id in index :: index[id] != {})
  }

  /** What an identifier of the right size is, of each there is. */
  function Identifiers(raw: seq<Option<ID>>): Option<seq<ID>> {
    if raw == [] then Some([])
    else
      var init := Identifiers(raw[..|raw| - 1]);
      if init.None? || raw[|raw| - 1].None? then None else Some(init.value + [raw[|raw| - 1].value])
  }

  /** Those of ids that p has no link to, each once. */
  method New(p: Conn, ids: seq<ID>, had: set<ID>) returns (added: seq<ID>)
    ensures forall i, j | 0 <= i < j < |added| :: added[i] != added[j]
    ensures forall id :: id in added <==> id in ids && id !in had
  {
    added := [];
    for i := 0 to |ids|
      invariant forall i, j | 0 <= i < j < |added| :: added[i] != added[j]
      invariant forall id :: id in added <==> id in ids[..i] && id !in had
    {
      if ids[i] in had || ids[i] in added { continue; }
      added := added + [ids[i]];
    }
    assert ids[..|ids|] == ids;
  }

  /** Records ids in mine and index, and returns those that are new, unless that is more than limit in all. */
  method Add(p: Conn, ids: seq<ID>, mine: map<Conn, set<ID>>, index: map<ID, set<Conn>>, limit: nat, ghost open: set<Conn>, ghost links: map<Link, nat>, ghost now: nat)
    returns (added: seq<ID>, violated: bool, mine': map<Conn, set<ID>>, index': map<ID, set<Conn>>)
    requires Mirrors(open, links, mine, index) && p in mine
    ensures violated <==> !IsWithin(links, p, ids, limit)
    ensures violated ==> mine' == mine && index' == index && added == []
    ensures !violated ==> Mirrors(open, links + At(Fresh(links, p, ids), now), mine', index') && Links(p, added) == Fresh(links, p, ids)
  {
    added := New(p, ids, mine[p]);
    Counted(links, p, ids, mine[p], added);
    if |mine[p]| + |added| > limit { return [], true, mine, index; }
    violated := false;
    FreshAre(links, p, ids, mine[p], added);
    hide *;
    mine', index' := Record(p, added, mine, index, open, links, now);
  }

  lemma FreshAre(links: map<Link, nat>, p: Conn, ids: seq<ID>, had: set<ID>, added: seq<ID>)
    requires forall id :: Link(p, id) in links <==> id in had
    requires forall id :: id in added <==> id in ids && id !in had
    ensures Links(p, added) == Fresh(links, p, ids)
  {
  }

  method Record(p: Conn, added: seq<ID>, mine: map<Conn, set<ID>>, index: map<ID, set<Conn>>, ghost open: set<Conn>, ghost links: map<Link, nat>, ghost now: nat)
    returns (mine': map<Conn, set<ID>>, index': map<ID, set<Conn>>)
    requires Mirrors(open, links, mine, index) && p in mine
    ensures Mirrors(open, links + At(Links(p, added), now), mine', index')
  {
    mine', index' := mine, index;
    assert links + At(Links(p, added[..0]), now) == links;
    for i := 0 to |added|
      invariant Mirrors(open, links + At(Links(p, added[..i]), now), mine', index') && p in mine'
    {
      var id := added[i];
      LinksMore(links, p, added, i, now);
      hide At, Links, Mirrors;
      MirrorsMore(open, links + At(Links(p, added[..i]), now), mine', index', Link(p, id), now);
      mine' := mine'[p := mine'[p] + {id}];
      index' := index'[id := (if id in index' then index'[id] else {}) + {p}];
    }
    assert added[..|added|] == added;
  }

  lemma LinksMore(links: map<Link, nat>, p: Conn, added: seq<ID>, i: nat, now: nat)
    requires i < |added|
    ensures links + At(Links(p, added[..i + 1]), now) == (links + At(Links(p, added[..i]), now))[Link(p, added[i]) := now]
  {
    assert added[..i + 1] == added[..i] + [added[i]];
    assert Links(p, added[..i + 1]) == Links(p, added[..i]) + {Link(p, added[i])};
  }

  lemma MirrorsMore(open: set<Conn>, links: map<Link, nat>, mine: map<Conn, set<ID>>, index: map<ID, set<Conn>>, l: Link, now: nat)
    requires Mirrors(open, links, mine, index) && l.who in mine
    ensures Mirrors(open, links[l := now], mine[l.who := mine[l.who] + {l.id}], index[l.id := (if l.id in index then index[l.id] else {}) + {l.who}])
  {
  }

  /** Those that are new, and those there were, are all there would be. */
  lemma Counted(links: map<Link, nat>, p: Conn, ids: seq<ID>, had: set<ID>, added: seq<ID>)
    requires forall id :: Link(p, id) in links <==> id in had
    requires forall i, j | 0 <= i < j < |added| :: added[i] != added[j]
    requires forall id :: id in added <==> id in ids && id !in had
    ensures |IDsOf(links, p) + SetOf(ids)| == |had| + |added|
  {
    forall id ensures id in IDsOf(links, p) <==> id in had {
      if id in had { assert Link(p, id) in links; }
    }
    assert IDsOf(links, p) == had;
    CountSeq(added);
    assert had + SetOf(ids) == had + SetOf(added);
  }

  lemma {:induction false} CountSeq(q: seq<ID>)
    requires forall i, j | 0 <= i < j < |q| :: q[i] != q[j]
    ensures |SetOf(q)| == |q|
  {
    if q != [] {
      var init := q[..|q| - 1];
      CountSeq(init);
      assert q == init + [q[|q| - 1]];
      assert SetOf(q) == SetOf(init) + {q[|q| - 1]};
    }
  }

  /** Takes id off p, and off what has none left. */
  function Removed(index: map<ID, set<Conn>>, id: ID, p: Conn): map<ID, set<Conn>> {
    if id !in index then index
    else if index[id] - {p} == {} then index - {id}
    else index[id := index[id] - {p}]
  }

  lemma MirrorsLess(open: set<Conn>, links: map<Link, nat>, mine: map<Conn, set<ID>>, index: map<ID, set<Conn>>, l: Link)
    requires Mirrors(open, links, mine, index) && l.who in mine
    ensures Mirrors(open, links - {l}, mine[l.who := mine[l.who] - {l.id}], Removed(index, l.id, l.who))
  {
    var now := Removed(index, l.id, l.who);
    forall p, id ensures Link(p, id) in links - {l} <==> id in now && p in now[id] {
      assert Link(p, id) in links <==> id in index && p in index[id];
      if id == l.id && id in index && p in index[id] && p != l.who { assert p in index[id] - {l.who}; }
    }
  }

  method Drop(p: Conn, ids: seq<ID>, mine: map<Conn, set<ID>>, index: map<ID, set<Conn>>, ghost open: set<Conn>, ghost links: map<Link, nat>)
    returns (mine': map<Conn, set<ID>>, index': map<ID, set<Conn>>)
    requires Mirrors(open, links, mine, index) && p in mine
    ensures Mirrors(open, links - Links(p, ids), mine', index')
  {
    mine', index' := mine, index;
    assert links - Links(p, ids[..0]) == links;
    for i := 0 to |ids|
      invariant Mirrors(open, links - Links(p, ids[..i]), mine', index') && p in mine'
    {
      var id := ids[i];
      assert Links(p, ids[..i + 1]) == Links(p, ids[..i]) + {Link(p, id)} by { assert ids[..i + 1] == ids[..i] + [id]; }
      MirrorsLess(open, links - Links(p, ids[..i]), mine', index', Link(p, id));
      assert (links - Links(p, ids[..i])) - {Link(p, id)} == links - Links(p, ids[..i + 1]);
      hide Mirrors, Removed;
      mine' := mine'[p := mine'[p] - {id}];
      index' := Removed(index', id, p);
    }
    assert ids[..|ids|] == ids;
  }

  /** Takes p off every identifier of its own, in any order. */
  method Clear(p: Conn, mine: map<Conn, set<ID>>, index: map<ID, set<Conn>>, ghost open: set<Conn>, ghost links: map<Link, nat>)
    returns (mine': map<Conn, set<ID>>, index': map<ID, set<Conn>>)
    requires Mirrors(open, links, mine, index) && p in mine
    ensures Mirrors(open - {p}, Without(links, p), mine', index')
  {
    index' := index;
    var left := mine[p];
    ghost var done: set<Link> := {};
    mine' := mine;
    assert links - done == links;
    while left != {}
      invariant Mirrors(open, links - done, mine', index') && p in mine' && mine'[p] == left
      invariant forall l | l in done :: l.who == p
    {
      var id :| id in left;
      MirrorsLess(open, links - done, mine', index', Link(p, id));
      assert (links - done) - {Link(p, id)} == links - (done + {Link(p, id)});
      hide Mirrors, Removed;
      done := done + {Link(p, id)};
      index' := Removed(index', id, p);
      left := left - {id};
      mine' := mine'[p := left];
    }
    NoneOfItsOwn(open, links, done, mine', index', p);
    mine' := mine' - {p};
  }

  lemma NoneOfItsOwn(open: set<Conn>, links: map<Link, nat>, done: set<Link>, mine: map<Conn, set<ID>>, index: map<ID, set<Conn>>, p: Conn)
    requires Mirrors(open, links - done, mine, index) && p in mine && mine[p] == {} && forall l | l in done :: l.who == p
    ensures Mirrors(open - {p}, Without(links, p), mine - {p}, index)
  {
    forall q, id ensures Link(q, id) in Without(links, p) <==> Link(q, id) in links - done {
      if q == p { assert id !in mine[p]; }
    }
  }

  /** Whether an identifier's connections are any but p's. */
  method Others(who: set<Conn>, p: Conn) returns (some: bool)
    ensures some <==> exists q :: q in who && q != p
  {
    var left := who;
    while left != {}
      invariant left <= who && forall q | q in who :: q in left || q == p
    {
      var q :| q in left;
      if q != p { return true; }
      left := left - {q};
    }
    return false;
  }

  /** The connections of an identifier. */
  function Of(index: map<ID, set<Conn>>, id: ID): set<Conn> { if id in index then index[id] else {} }

  class Service {
    const limits: Limits
    var subs: map<Conn, set<ID>>
    var anns: map<Conn, set<ID>>
    var subscribed: map<ID, set<Conn>>
    var announced: map<ID, set<Conn>>
    /** What the tables stand for. */
    ghost var state: State

    ghost predicate Valid()
      reads this
    {
      && Mirrors(state.open, state.subs, subs, subscribed)
      && Mirrors(state.open, state.anns, anns, announced)
      && Invariant(limits, state)
    }

    constructor (limits: Limits)
      ensures Valid() && this.limits == limits && state == Run(limits, [])
    {
      this.limits := limits;
      subs, anns, subscribed, announced := map[], map[], map[], map[];
      state := Run(limits, []);
      new;
      EveryRunTells(limits, []);
    }

    /** A connection begins. */
    method Open(p: Conn)
      requires Valid() && p !in subs
      modifies this
      ensures Valid() && state == Next(limits, old(state), Rendezvous.Open(p)) && p in subs
    {
      assert forall l | l in state.subs || l in state.anns :: l.who in state.open by { BoundsHold(limits, state); }
      subs := subs[p := {}];
      anns := anns[p := {}];
      Stays(limits, state, Rendezvous.Open(p));
      state := Next(limits, state, Rendezvous.Open(p));
    }

    /** A connection ended. */
    method Forget(p: Conn)
      requires Valid() && p in subs
      modifies this
      ensures Valid() && state == Next(limits, old(state), Rendezvous.Forget(p)) && p !in subs
    {
      Stays(limits, state, Rendezvous.Forget(p));
      hide Mirrors, Invariant, Without;
      subs, subscribed := Clear(p, subs, subscribed, state.open, state.subs);
      anns, announced := Clear(p, anns, announced, state.open, state.anns);
      state := Next(limits, state, Rendezvous.Forget(p));
    }

    /** Records what p subscribes to, and tells p of each new identifier that another announces. */
    method Subscribe(p: Conn, raw: seq<Option<ID>>) returns (told: seq<Link>, violated: bool)
      requires Valid() && p in subs
      modifies this
      ensures Valid()
      ensures var ids := Identifiers(raw);
        if ids.None? then violated && state == old(state) && told == []
        else
          && state == Next(limits, old(state), Rendezvous.Subscribe(p, ids.value))
          && (violated <==> !IsWithin(old(state).subs, p, ids.value, limits.subscriptions))
          && (set l | l in told) == if violated then {} else ToldSubscriber(old(state), p, ids.value)
    {
      told := [];
      var ids := Identifiers(raw);
      if ids.None? { return [], true; }
      ghost var before := state;
      Stays(limits, state, Rendezvous.Subscribe(p, ids.value));
      var added;
      added, violated, subs, subscribed := Add(p, ids.value, subs, subscribed, limits.subscriptions, state.open, state.subs, state.now);
      if !violated { told := TellSubscriber(p, added, announced, state.open, state.anns, anns); }
      state := Next(limits, state, Rendezvous.Subscribe(p, ids.value));
      if !violated { ToldAre(before, p, ids.value, added, told); }
    }

    /** Records what p announces, and tells every other subscriber of each new identifier. */
    method Announce(p: Conn, raw: seq<Option<ID>>) returns (told: seq<Link>, violated: bool)
      requires Valid() && p in anns
      modifies this
      ensures Valid()
      ensures var ids := Identifiers(raw);
        if ids.None? then violated && state == old(state) && told == []
        else
          && state == Next(limits, old(state), Rendezvous.Announce(p, ids.value))
          && (violated <==> !IsWithin(old(state).anns, p, ids.value, limits.announcements))
          && (set l | l in told) == if violated then {} else ToldSubscribers(old(state), p, ids.value)
    {
      told := [];
      var ids := Identifiers(raw);
      if ids.None? { return [], true; }
      ghost var before := state;
      Stays(limits, state, Rendezvous.Announce(p, ids.value));
      var added;
      added, violated, anns, announced := Add(p, ids.value, anns, announced, limits.announcements, state.open, state.anns, state.now);
      if !violated { told := TellSubscribers(p, added, subscribed, state.open, state.subs, subs); }
      state := Next(limits, state, Rendezvous.Announce(p, ids.value));
      if !violated { AllToldAre(before, p, ids.value, added, told); }
    }

    method Unsubscribe(p: Conn, raw: seq<Option<ID>>) returns (violated: bool)
      requires Valid() && p in subs
      modifies this
      ensures Valid() && (violated <==> Identifiers(raw).None?)
      ensures state == if violated then old(state) else Next(limits, old(state), Rendezvous.Unsubscribe(p, Identifiers(raw).value))
    {
      var ids := Identifiers(raw);
      if ids.None? { return true; }
      Stays(limits, state, Rendezvous.Unsubscribe(p, ids.value));
      hide Mirrors, Invariant;
      subs, subscribed := Drop(p, ids.value, subs, subscribed, state.open, state.subs);
      state := Next(limits, state, Rendezvous.Unsubscribe(p, ids.value));
      return false;
    }

    method Withdraw(p: Conn, raw: seq<Option<ID>>) returns (violated: bool)
      requires Valid() && p in anns
      modifies this
      ensures Valid() && (violated <==> Identifiers(raw).None?)
      ensures state == if violated then old(state) else Next(limits, old(state), Rendezvous.Withdraw(p, Identifiers(raw).value))
    {
      var ids := Identifiers(raw);
      if ids.None? { return true; }
      Stays(limits, state, Rendezvous.Withdraw(p, ids.value));
      hide Mirrors, Invariant;
      anns, announced := Drop(p, ids.value, anns, announced, state.open, state.anns);
      state := Next(limits, state, Rendezvous.Withdraw(p, ids.value));
      return false;
    }
  }

  lemma Stays(limits: Limits, s: State, e: Event)
    requires Invariant(limits, s)
    ensures Invariant(limits, Next(limits, s, e))
  {
    hide Next;
    TellingKept(limits, s, e);
    BoundsKept(limits, s, e);
    LimitsKept(limits, s, e);
  }

  lemma BoundsHold(limits: Limits, s: State)
    requires Invariant(limits, s)
    ensures forall l | l in s.subs || l in s.anns :: l.who in s.open
  {
  }

  method TellSubscriber(p: Conn, added: seq<ID>, announced: map<ID, set<Conn>>, ghost open: set<Conn>, ghost links: map<Link, nat>, ghost mine: map<Conn, set<ID>>)
    returns (told: seq<Link>)
    requires Mirrors(open, links, mine, announced)
    ensures forall l :: l in told <==> l in Links(p, added) && IsOfAnother(links, l)
  {
    told := [];
    for i := 0 to |added|
      invariant forall l :: l in told <==> l in Links(p, added[..i]) && IsOfAnother(links, l)
    {
      var id := added[i];
      assert Links(p, added[..i + 1]) == Links(p, added[..i]) + {Link(p, id)} by { assert added[..i + 1] == added[..i] + [id]; }
      var some := Others(Of(announced, id), p);
      OfAnother(open, links, mine, announced, p, id);
      hide IsOfAnother, Mirrors, Links;
      if some { told := told + [Link(p, id)]; }
    }
    assert added[..|added|] == added;
  }

  lemma OfAnother(open: set<Conn>, links: map<Link, nat>, mine: map<Conn, set<ID>>, index: map<ID, set<Conn>>, p: Conn, id: ID)
    requires Mirrors(open, links, mine, index)
    ensures IsOfAnother(links, Link(p, id)) <==> exists q :: q in Of(index, id) && q != p
  {
    if q :| q in Of(index, id) && q != p { assert Link(q, id) in links; }
    if m :| m in links && m.id == id && m.who != p { assert Link(m.who, id) == m && m.who in Of(index, id); }
  }

  lemma ToldAre(s: State, p: Conn, ids: seq<ID>, added: seq<ID>, told: seq<Link>)
    requires Links(p, added) == Fresh(s.subs, p, ids) && forall l :: l in told <==> l in Links(p, added) && IsOfAnother(s.anns, l)
    ensures (set l | l in told) == ToldSubscriber(s, p, ids)
  {
    hide Fresh, IsOfAnother, Links;
  }

  method TellSubscribers(p: Conn, added: seq<ID>, subscribed: map<ID, set<Conn>>, ghost open: set<Conn>, ghost links: map<Link, nat>, ghost mine: map<Conn, set<ID>>)
    returns (told: seq<Link>)
    requires Mirrors(open, links, mine, subscribed)
    ensures forall l :: l in told <==> l in links && l.who != p && l.id in added
  {
    told := [];
    for i := 0 to |added|
      invariant forall l :: l in told <==> l in links && l.who != p && l.id in added[..i]
    {
      var id := added[i];
      var left := Of(subscribed, id);
      ghost var was := told;
      assert forall q :: q in left <==> Link(q, id) in links;
      while left != {}
        invariant left <= Of(subscribed, id)
        invariant forall l :: l in told <==> l in was || (l.id == id && l.who != p && l.who in Of(subscribed, id) - left)
      {
        hide Mirrors, Of;
        var q :| q in left;
        if q != p { told := told + [Link(q, id)]; }
        left := left - {q};
      }
      assert added[..i + 1] == added[..i] + [id];
      assert forall l: Link | l.id == id :: l == Link(l.who, id);
    }
    assert added[..|added|] == added;
  }

  lemma AllToldAre(s: State, p: Conn, ids: seq<ID>, added: seq<ID>, told: seq<Link>)
    requires Links(p, added) == Fresh(s.anns, p, ids) && forall l :: l in told <==> l in s.subs && l.who != p && l.id in added
    ensures (set l | l in told) == ToldSubscribers(s, p, ids)
  {
    forall id ensures id in added <==> Link(p, id) in Fresh(s.anns, p, ids) {
      assert id in added <==> Link(p, id) in Links(p, added);
    }
    hide Fresh, Links;
  }
}
