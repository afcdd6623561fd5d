/** What reactions leave on a message: of each person and emoji the latest decides (ADR 0035). */
module Reactions {
  // Conversations and channels count them alike (internal/messages/entries.go:155-186,
  // internal/spaces/channel.go:74-103).

  import opened Basics

  /** author put emoji on target, or took it off. */
  datatype React = React(target: ID, author: Key, emoji: string, on: bool)

  /** An emoji on a message, how many put it there, and whether me is one of them. */
  datatype Reaction = Reaction(emoji: string, count: nat, mine: bool)

  datatype Slot = Slot(target: ID, author: Key, emoji: string)

  function KeyOf(r: React): Slot { Slot(r.target, r.author, r.emoji) }

  /** What the latest reaction of k says, or that there is none. */
  ghost function IsOn(rs: seq<React>, k: Slot): bool {
    if rs == [] then false
    else if KeyOf(rs[|rs| - 1]) == k then rs[|rs| - 1].on
    else IsOn(rs[..|rs| - 1], k)
  }

  /** The emojis target was ever given, in the order they first were. */
  ghost function Emojis(rs: seq<React>, target: ID): seq<string> {
    if rs == [] then []
    else
      var (before, r) := (Emojis(rs[..|rs| - 1], target), rs[|rs| - 1]);
      if r.target == target && r.emoji !in before then before + [r.emoji] else before
  }

  /** Those whose latest reaction to target with emoji is on. */
  ghost function Whose(rs: seq<React>, target: ID, emoji: string): set<Key> {
    set r | r in rs && r.target == target && r.emoji == emoji && IsOn(rs, KeyOf(r)) :: r.author
  }

  ghost function Tally(rs: seq<React>, target: ID, me: Key): seq<Reaction> {
    TallyOf(rs, target, me, Emojis(rs, target))
  }

  ghost function TallyOf(rs: seq<React>, target: ID, me: Key, emojis: seq<string>): seq<Reaction> {
    if emojis == [] then []
    else
      var emoji := emojis[|emojis| - 1];
      var who := Whose(rs, target, emoji);
      TallyOf(rs, target, me, emojis[..|emojis| - 1]) + if who == {} then [] else [Reaction(emoji, |who|, me in who)]
  }

  /** What a fold keeps while it goes: the latest of each, and each message's emojis. */
  ghost predicate Notes(rs: seq<React>, on: map<Slot, bool>, emojis: map<ID, seq<string>>) {
    NotesOn(rs, on) && NotesEmojis(rs, emojis)
  }

  ghost predicate NotesOn(rs: seq<React>, on: map<Slot, bool>) {
    on.Keys == (set r | r in rs :: KeyOf(r)) && forall k | k in on :: on[k] == IsOn(rs, k)
  }

  ghost predicate NotesEmojis(rs: seq<React>, emojis: map<ID, seq<string>>) {
    forall t :: Order(emojis, t) == Emojis(rs, t)
  }

  function Order(emojis: map<ID, seq<string>>, t: ID): seq<string> { if t in emojis then emojis[t] else [] }

  method Note(ghost rs: seq<React>, on: map<Slot, bool>, emojis: map<ID, seq<string>>, r: React)
    returns (on': map<Slot, bool>, emojis': map<ID, seq<string>>)
    requires Notes(rs, on, emojis)
    ensures Notes(rs + [r], on', emojis')
    ensures emojis'.Keys == emojis.Keys + {r.target}
  {
    on' := on[KeyOf(r) := r.on];
    emojis' := emojis;
    if r.target !in emojis { emojis' := emojis'[r.target := []]; }
    if r.emoji !in emojis'[r.target] { emojis' := emojis'[r.target := emojis'[r.target] + [r.emoji]]; }
    NotedOn(rs, on, r);
    forall t ensures Order(emojis', t) == Emojis(rs + [r], t) {
      assert (rs + [r])[..|rs|] == rs && Order(emojis, t) == Emojis(rs, t);
    }
  }

  lemma NotedOn(rs: seq<React>, on: map<Slot, bool>, r: React)
    requires NotesOn(rs, on)
    ensures NotesOn(rs + [r], on[KeyOf(r) := r.on])
  {
    assert (rs + [r])[..|rs|] == rs;
    assert on[KeyOf(r) := r.on].Keys == (set x | x in rs :: KeyOf(x)) + {KeyOf(r)};
    assert (set x | x in rs + [r] :: KeyOf(x)) == (set x | x in rs :: KeyOf(x)) + {KeyOf(r)};
  }

  /** The reactions on target, counted by ranging over what was kept in any order. */
  method Count(ghost rs: seq<React>, on: map<Slot, bool>, ghost emojis: map<ID, seq<string>>, target: ID, order: seq<string>, me: Key)
    returns (out: seq<Reaction>)
    requires Notes(rs, on, emojis) && order == Emojis(rs, target)
    ensures out == Tally(rs, target, me)
  {
    out := [];
    for i := 0 to |order|
      invariant out == TallyOf(rs, target, me, order[..i])
    {
      var count, mine := CountOne(rs, on, emojis, target, order[i], me);
      assert order[..i + 1][..i] == order[..i];
      if count > 0 { out := out + [Reaction(order[i], count, mine)]; }
    }
    assert order[..|order|] == order;
  }

  method CountOne(ghost rs: seq<React>, on: map<Slot, bool>, ghost emojis: map<ID, seq<string>>, target: ID, emoji: string, me: Key)
    returns (count: nat, mine: bool)
    requires Notes(rs, on, emojis)
    ensures count == |Whose(rs, target, emoji)| && mine == (me in Whose(rs, target, emoji))
  {
    count, mine := 0, false;
    var left := on.Keys;
    ghost var who: set<Key> := {};
    while left != {}
      invariant left <= on.Keys && count == |who| && mine == (me in who)
      invariant forall a :: a in who <==> var k := Slot(target, a, emoji); k in on && k !in left && on[k]
    {
      var k :| k in left;
      left := left - {k};
      if on[k] && k.target == target && k.emoji == emoji {
        count := count + 1;
        mine := mine || k.author == me;
        who := who + {k.author};
      }
    }
    forall a ensures a in who <==> a in Whose(rs, target, emoji) {
      var k := Slot(target, a, emoji);
      if a in who {
        var r :| r in rs && KeyOf(r) == k;
        assert r.author == a;
      }
    }
    assert who == Whose(rs, target, emoji);
  }

  // ---- Reactions to what does not show are left out ----

  ghost function OnlyTo(rs: seq<React>, ids: set<ID>): seq<React> {
    if rs == [] then []
    else OnlyTo(rs[..|rs| - 1], ids) + if rs[|rs| - 1].target in ids then [rs[|rs| - 1]] else []
  }

  lemma OnlyToStep(rs: seq<React>, r: React, ids: set<ID>)
    ensures OnlyTo(rs + [r], ids) == if r.target in ids then OnlyTo(rs, ids) + [r] else OnlyTo(rs, ids)
  {
    assert (rs + [r])[..|rs|] == rs;
  }

  lemma EmojisStep(rs: seq<React>, r: React, target: ID)
    ensures Emojis(rs + [r], target) ==
      if r.target == target && r.emoji !in Emojis(rs, target) then Emojis(rs, target) + [r.emoji] else Emojis(rs, target)
  {
    assert (rs + [r])[..|rs|] == rs;
  }

  lemma {:induction false} SameEmojis(rs: seq<React>, ids: set<ID>, target: ID)
    requires target in ids
    ensures Emojis(OnlyTo(rs, ids), target) == Emojis(rs, target)
  {
    if rs != [] {
      var (init, r) := (rs[..|rs| - 1], rs[|rs| - 1]);
      assert rs == init + [r];
      SameEmojis(init, ids, target);
      OnlyToStep(init, r, ids);
      EmojisStep(init, r, target);
      EmojisStep(OnlyTo(init, ids), r, target);
      hide OnlyTo, Emojis;
    }
  }

  lemma IsOnStep(rs: seq<React>, r: React, k: Slot)
    ensures IsOn(rs + [r], k) == if KeyOf(r) == k then r.on else IsOn(rs, k)
  {
    assert (rs + [r])[..|rs|] == rs;
  }

  lemma {:induction false} SameOn(rs: seq<React>, ids: set<ID>, k: Slot)
    requires k.target in ids
    ensures IsOn(OnlyTo(rs, ids), k) == IsOn(rs, k)
    ensures forall r | KeyOf(r) == k :: r in OnlyTo(rs, ids) <==> r in rs
  {
    if rs != [] {
      var (init, r) := (rs[..|rs| - 1], rs[|rs| - 1]);
      assert rs == init + [r];
      SameOn(init, ids, k);
      OnlyToStep(init, r, ids);
      IsOnStep(init, r, k);
      IsOnStep(OnlyTo(init, ids), r, k);
      hide OnlyTo, IsOn;
    }
  }

  lemma {:induction false} SameTallyOf(rs: seq<React>, ids: set<ID>, target: ID, me: Key, emojis: seq<string>)
    requires target in ids
    ensures TallyOf(OnlyTo(rs, ids), target, me, emojis) == TallyOf(rs, target, me, emojis)
  {
    if emojis != [] {
      var emoji := emojis[|emojis| - 1];
      SameTallyOf(rs, ids, target, me, emojis[..|emojis| - 1]);
      forall a ensures a in Whose(OnlyTo(rs, ids), target, emoji) <==> a in Whose(rs, target, emoji) {
        SameOn(rs, ids, Slot(target, a, emoji));
      }
      assert Whose(OnlyTo(rs, ids), target, emoji) == Whose(rs, target, emoji);
    }
  }

  /** The reactions to what does not show leave no mark on what does. */
  lemma SameTally(rs: seq<React>, ids: set<ID>, target: ID, me: Key)
    requires target in ids
    ensures Tally(OnlyTo(rs, ids), target, me) == Tally(rs, target, me)
  {
    SameEmojis(rs, ids, target);
    SameTallyOf(rs, ids, target, me, Emojis(rs, target));
  }

  /** A message that has no reaction kept shows none. */
  lemma Unreacted(rs: seq<React>, ids: set<ID>, emojis: map<ID, seq<string>>, target: ID, me: Key)
    requires NotesEmojis(OnlyTo(rs, ids), emojis) && target in ids && target !in emojis
    ensures Tally(rs, target, me) == []
  {
    assert Order(emojis, target) == [];
    SameTally(rs, ids, target, me);
  }

  // ---- The latest decides ----

  /** The reaction at i is the last that its author made with its emoji to what it is to. */
  ghost predicate IsLatest(rs: seq<React>, i: nat)
    requires i < |rs|
  {
    forall j | i < j < |rs| :: !(rs[j].target == rs[i].target && rs[j].author == rs[i].author && rs[j].emoji == rs[i].emoji)
  }

  /** Those who put emoji on target last, rather than took it off. */
  ghost function Puts(rs: seq<React>, target: ID, emoji: string): set<Key> {
    set i | 0 <= i < |rs| && rs[i].target == target && rs[i].emoji == emoji && rs[i].on && IsLatest(rs, i) :: rs[i].author
  }

  lemma {:induction false} OnIs(rs: seq<React>, k: Slot)
    ensures IsOn(rs, k) <==> exists i :: 0 <= i < |rs| && KeyOf(rs[i]) == k && rs[i].on && IsLatest(rs, i)
  {
    if rs != [] {
      var (init, r) := (rs[..|rs| - 1], rs[|rs| - 1]);
      if KeyOf(r) == k {
        assert IsLatest(rs, |rs| - 1);
      } else {
        OnIs(init, k);
        forall i | 0 <= i < |init| && KeyOf(init[i]) == k ensures IsLatest(init, i) <==> IsLatest(rs, i) {
          assert forall j | i < j < |init| :: init[j] == rs[j];
        }
        hide IsOn;
      }
    }
  }

  lemma WhoseIs(rs: seq<React>, target: ID, emoji: string)
    ensures Whose(rs, target, emoji) == Puts(rs, target, emoji)
  {
    forall a ensures a in Whose(rs, target, emoji) <==> a in Puts(rs, target, emoji) {
      OnIs(rs, Slot(target, a, emoji));
      hide IsOn, IsLatest;
    }
  }

  lemma {:induction false} EmojisAre(rs: seq<React>, target: ID)
    ensures forall e :: e in Emojis(rs, target) <==> exists r :: r in rs && r.target == target && r.emoji == e
    ensures forall p, q | 0 <= p < q < |Emojis(rs, target)| :: Emojis(rs, target)[p] != Emojis(rs, target)[q]
  {
    if rs != [] {
      EmojisAre(rs[..|rs| - 1], target);
      assert rs == rs[..|rs| - 1] + [rs[|rs| - 1]];
    }
  }

  lemma {:induction false} TallyOfShows(rs: seq<React>, target: ID, me: Key, emojis: seq<string>)
    ensures forall s :: s in TallyOf(rs, target, me, emojis) <==>
      s.emoji in emojis && s.count > 0 && s.count == |Puts(rs, target, s.emoji)| && (s.mine <==> me in Puts(rs, target, s.emoji))
  {
    if emojis != [] {
      var (init, emoji) := (emojis[..|emojis| - 1], emojis[|emojis| - 1]);
      TallyOfShows(rs, target, me, init);
      WhoseIs(rs, target, emoji);
      hide Whose, Puts;
      assert emojis == init + [emoji];
    }
  }

  /** What shows of a message's reactions is each emoji that somebody put on it and did not take off since, with how many did, and whether
      one is me; whatever was put on and taken off before. */
  lemma TallyShows(rs: seq<React>, target: ID, me: Key, s: Reaction)
    ensures s in Tally(rs, target, me) <==>
      s.count > 0 && s.count == |Puts(rs, target, s.emoji)| && (s.mine <==> me in Puts(rs, target, s.emoji))
  {
    EmojisAre(rs, target);
    TallyOfShows(rs, target, me, Emojis(rs, target));
    if s.count > 0 && s.count == |Puts(rs, target, s.emoji)| {
      var a :| a in Puts(rs, target, s.emoji);
      var i :| 0 <= i < |rs| && rs[i].target == target && rs[i].emoji == s.emoji && rs[i].author == a;
      assert rs[i] in rs;
    }
    hide TallyOf, Puts;
  }

  /** Of one's reactions with an emoji to a message, the last alone says whether it shows as theirs. */
  lemma LatestDecides(a: seq<React>, r: React, b: seq<React>)
    requires forall x | x in b :: !(x.target == r.target && x.author == r.author && x.emoji == r.emoji)
    ensures (exists s :: s in Tally(a + [r] + b, r.target, r.author) && s.emoji == r.emoji && s.mine) <==> r.on
  {
    var rs := a + [r] + b;
    assert rs[|a|] == r;
    forall j | |a| < j < |rs| ensures !(rs[j].target == r.target && rs[j].author == r.author && rs[j].emoji == r.emoji) {
      assert rs[j] == b[j - |a| - 1];
    }
    assert IsLatest(rs, |a|);
    var who := Puts(rs, r.target, r.emoji);
    forall i | 0 <= i < |rs| && rs[i].target == r.target && rs[i].emoji == r.emoji && rs[i].author == r.author && IsLatest(rs, i) ensures i == |a| { }
    assert r.author in who <==> r.on;
    hide Puts, Tally, IsLatest;
    forall s ensures s in Tally(rs, r.target, r.author) && s.emoji == r.emoji && s.mine ==> r.on { TallyShows(rs, r.target, r.author, s); }
    if r.on {
      var s := Reaction(r.emoji, |who|, true);
      TallyShows(rs, r.target, r.author, s);
      assert s in Tally(rs, r.target, r.author) && s.emoji == r.emoji && s.mine;
    }
  }

  /** target was given e before it was ever given f. */
  ghost predicate GivenFirst(rs: seq<React>, target: ID, e: string, f: string) {
    exists i :: 0 <= i < |rs| && rs[i].target == target && rs[i].emoji == e && forall j | 0 <= j <= i :: !(rs[j].target == target && rs[j].emoji == f)
  }

  lemma {:induction false} EmojisInOrder(rs: seq<React>, target: ID)
    ensures forall p, q | 0 <= p < q < |Emojis(rs, target)| :: GivenFirst(rs, target, Emojis(rs, target)[p], Emojis(rs, target)[q])
  {
    if rs != [] {
      var (init, r) := (rs[..|rs| - 1], rs[|rs| - 1]);
      var (was, now) := (Emojis(init, target), Emojis(rs, target));
      EmojisInOrder(init, target);
      EmojisAre(init, target);
      assert rs == init + [r];
      forall p, q | 0 <= p < q < |now| ensures GivenFirst(rs, target, now[p], now[q]) {
        if q < |was| {
          assert GivenFirst(init, target, was[p], was[q]);
        } else {
          assert was[p] in was;
          var x :| x in init && x.target == target && x.emoji == was[p];
          var i :| 0 <= i < |init| && init[i] == x;
          forall j | 0 <= j <= i ensures !(rs[j].target == target && rs[j].emoji == r.emoji) { assert init[j] in init; }
          assert rs[i] == x;
        }
      }
    }
  }

  /** t's emojis are given one before the next, all of them of emojis. */
  ghost predicate AreGivenSo(rs: seq<React>, target: ID, t: seq<Reaction>, emojis: seq<string>) {
    && (forall p, q | 0 <= p < q < |t| :: GivenFirst(rs, target, t[p].emoji, t[q].emoji))
    && (forall p | 0 <= p < |t| :: t[p].emoji in emojis)
  }

  lemma GivenSoGrows(rs: seq<React>, target: ID, t: seq<Reaction>, emojis: seq<string>, s: Reaction)
    requires AreGivenSo(rs, target, t, emojis) && forall i | 0 <= i < |emojis| :: GivenFirst(rs, target, emojis[i], s.emoji)
    ensures AreGivenSo(rs, target, t + [s], emojis + [s.emoji]) && AreGivenSo(rs, target, t, emojis + [s.emoji])
  {
    hide GivenFirst;
    forall p | 0 <= p < |t| ensures GivenFirst(rs, target, t[p].emoji, s.emoji) {
      var i :| 0 <= i < |emojis| && emojis[i] == t[p].emoji;
    }
  }

  lemma {:induction false} TallyOfInOrder(rs: seq<React>, target: ID, me: Key, emojis: seq<string>)
    requires forall p, q | 0 <= p < q < |emojis| :: GivenFirst(rs, target, emojis[p], emojis[q])
    ensures AreGivenSo(rs, target, TallyOf(rs, target, me, emojis), emojis)
  {
    hide GivenFirst, Whose;
    if emojis != [] {
      var (init, emoji) := (emojis[..|emojis| - 1], emojis[|emojis| - 1]);
      var (t, who) := (TallyOf(rs, target, me, init), Whose(rs, target, emoji));
      TallyOfInOrder(rs, target, me, init);
      GivenSoGrows(rs, target, t, init, Reaction(emoji, |who|, me in who));
      hide AreGivenSo;
      assert emojis == init + [emoji] && t + [] == t;
    }
  }

  /** They come in the order the message was first given them. */
  lemma TallyInOrder(rs: seq<React>, target: ID, me: Key, p: nat, q: nat)
    requires p < q < |Tally(rs, target, me)|
    ensures GivenFirst(rs, target, Tally(rs, target, me)[p].emoji, Tally(rs, target, me)[q].emoji)
  {
    EmojisInOrder(rs, target);
    TallyOfInOrder(rs, target, me, Emojis(rs, target));
    hide GivenFirst;
  }

  /** An emoji shows as me's if and only if me's latest reaction with it is on. */
  lemma MineIff(rs: seq<React>, target: ID, me: Key, emoji: string)
    ensures (exists s :: s in Tally(rs, target, me) && s.emoji == emoji && s.mine) <==> IsOn(rs, Slot(target, me, emoji))
  {
    var who := Puts(rs, target, emoji);
    OnIs(rs, Slot(target, me, emoji));
    assert me in who <==> IsOn(rs, Slot(target, me, emoji));
    hide Puts, IsOn, IsLatest, Tally;
    forall s ensures s in Tally(rs, target, me) && s.emoji == emoji && s.mine ==> me in who { TallyShows(rs, target, me, s); }
    if me in who {
      var s := Reaction(emoji, |who|, true);
      TallyShows(rs, target, me, s);
      assert s in Tally(rs, target, me) && s.emoji == emoji && s.mine;
    }
  }
}
