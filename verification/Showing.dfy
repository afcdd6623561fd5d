/** What a conversation shows, and what compaction leaves of it, said of its entries alone. */
module Showing {
  // internal/messages/entries.go:121-205, internal/messages/store.go:210-272 and 370-390. Nothing here is said by Owns, Edits, Deletes,
  // Visible or Before, but by what an entry holds: its kind, its author, what it is about, and when it was written.

  import opened Basics
  import R = Reactions
  import opened Conversation
  import opened Mailbox
  import opened Wire
  import opened Delivery
  import ConversationFold
  import DeliverySafety

  // ---- In what order ----

  lemma {:induction false} ViewShows(es: seq<Entry>, part: seq<Entry>, me: Key, p: nat) returns (i: nat)
    requires p < |ViewOf(es, part, me)|
    ensures i < |part| && Visible(part[i]) && ViewOf(es, part, me)[p] == ShownAs(es, part[i], me)
    ensures |ViewOf(es, part[..i], me)| == p
  {
    var init := part[..|part| - 1];
    if p < |ViewOf(es, init, me)| {
      i := ViewShows(es, init, me, p);
      assert part[..i] == init[..i];
    } else {
      i := |part| - 1;
    }
  }

  lemma {:induction false} ViewGrows(es: seq<Entry>, part: seq<Entry>, me: Key, i: nat, j: nat)
    requires i <= j <= |part|
    ensures |ViewOf(es, part[..i], me)| <= |ViewOf(es, part[..j], me)|
  {
    if i < j {
      ViewGrows(es, part, me, i, j - 1);
      assert part[..j][..j - 1] == part[..j - 1];
    }
  }

  /** What a conversation shows comes in that order. */
  lemma ViewInOrder(es: seq<Entry>, me: Key, p: nat, q: nat)
    requires InOrder(es) && p < q < |View(es, me)|
    ensures var (s, u) := (View(es, me)[p], View(es, me)[q]);
      || s.time.wall < u.time.wall
      || (s.time.wall == u.time.wall && s.time.counter < u.time.counter)
      || (s.time.wall == u.time.wall && s.time.counter == u.time.counter && s.id < u.id)
  {
    var i := ViewShows(es, es, me, p);
    var j := ViewShows(es, es, me, q);
    if j <= i { ViewGrows(es, es, me, j, i); }
    assert i < j;
    OrderIs(es);
    hide ViewOf, InOrder;
  }

  /** And every run keeps the logs of both in it, so that both show what they show in it. */
  lemma RunsKeepOrder(r: Rules, a: Key, b: Key, moves: seq<Move>, log: seq<Entry>, i: nat, j: nat)
    requires a != b && log in {Run(r, Begun(a, b), moves).a.log, Run(r, Begun(a, b), moves).b.log} && i < j < |log|
    ensures
      || log[i].time.wall < log[j].time.wall
      || (log[i].time.wall == log[j].time.wall && log[i].time.counter < log[j].time.counter)
      || (log[i].time.wall == log[j].time.wall && log[i].time.counter == log[j].time.counter && log[i].id < log[j].id)
  {
    DeliverySafety.EveryRunKeeps(r, a, b, moves);
    hide *;
    KeptInOrder(r, Run(r, Begun(a, b), moves));
    OrderIs(log);
  }

  lemma KeptInOrder(r: Rules, w: World)
    requires Invariant(r, w)
    ensures InOrder(w.a.log) && InOrder(w.b.log)
  {
    hide InOrder;
  }

  /** The messages and files not hidden here show, and nothing else does. */
  lemma ShowsJust(es: seq<Entry>, me: Key, id: ID)
    ensures (exists s :: s in View(es, me) && s.id == id) <==> exists e :: e in es && e.id == id && e.kind in {Text, Attaching} && !e.hidden
  {
    if s :| s in View(es, me) && s.id == id {
      var p :| 0 <= p < |View(es, me)| && View(es, me)[p] == s;
      var i := ViewShows(es, es, me, p);
      assert es[i] in es;
    }
    if e :| e in es && e.id == id && e.kind in {Text, Attaching} && !e.hidden {
      ViewHas(es, es, me, e);
    }
  }

  lemma {:induction false} ViewHas(es: seq<Entry>, part: seq<Entry>, me: Key, t: Entry)
    requires t in part && Visible(t)
    ensures ShownAs(es, t, me) in ViewOf(es, part, me)
  {
    var init := part[..|part| - 1];
    assert part == init + [part[|part| - 1]];
    if t in init { ViewHas(es, init, me, t); }
  }

  // ---- What of each message ----

  /** Only its own author's deletion deletes a message, and one is enough. */
  lemma DeletedShows(es: seq<Entry>, t: Entry, d: Entry)
    requires d in es && d.kind == Deleting && d.target == Some(t.id) && d.author == t.author
    ensures SaidOf(es, t) == Said("", false, true, None)
  {
    assert Deletes(d, t);
  }

  lemma {:induction false} LatestIs(es: seq<Entry>, t: Entry, k: nat)
    requires k < |es| && es[k].kind == Editing && es[k].target == Some(t.id) && es[k].author == t.author && !es[k].wiped
    requires forall j | k < j < |es| :: !(es[j].kind == Editing && es[j].target == Some(t.id) && es[j].author == t.author && !es[j].wiped)
    ensures LatestEdit(es, t, true) == Some(es[k])
  {
    if k < |es| - 1 { LatestIs(es[..|es| - 1], t, k); }
  }

  /** A text its author did not delete shows as the last of its author's edits that keep their text says, by the clock, and of
      equal clocks, by the identifier. */
  lemma LastEditShows(es: seq<Entry>, t: Entry, e: Entry)
    requires InOrder(es) && t.kind == Text && e in es
    requires forall d | d in es :: !(d.kind == Deleting && d.target == Some(t.id) && d.author == t.author)
    requires e.kind == Editing && e.target == Some(t.id) && e.author == t.author && !e.wiped
    requires forall f | f in es && f.kind == Editing && f.target == Some(t.id) && f.author == t.author && !f.wiped ::
      || f.time.wall < e.time.wall
      || (f.time.wall == e.time.wall && f.time.counter < e.time.counter)
      || (f.time.wall == e.time.wall && f.time.counter == e.time.counter && f.id <= e.id)
    ensures SaidOf(es, t) == Said(e.text, true, false, t.file)
  {
    OrderIs(es);
    var k :| 0 <= k < |es| && es[k] == e;
    forall j | k < j < |es| ensures !(es[j].kind == Editing && es[j].target == Some(t.id) && es[j].author == t.author && !es[j].wiped) {
      assert es[j] in es;
    }
    LatestIs(es, t, k);
    assert !IsDeleted(es, t);
    hide InOrder, LatestEdit;
  }

  /** And as it was written, if its author neither deleted nor edited it; but a file is never edited. */
  lemma UntouchedShows(es: seq<Entry>, t: Entry)
    requires forall d | d in es :: !(d.kind == Deleting && d.target == Some(t.id) && d.author == t.author)
    requires t.kind == Text ==> forall f | f in es :: !(f.kind == Editing && f.target == Some(t.id) && f.author == t.author && !f.wiped)
    ensures SaidOf(es, t) == if t.wiped then Said("", false, true, None) else Said(t.text, false, false, t.file)
  {
    assert !IsDeleted(es, t);
    if LatestEdit(es, t, true).Some? { assert LatestEdit(es, t, true).value in es; }
  }

  /** k reacts to the message id with emoji, or takes that off. */
  predicate ReactsSo(e: Entry, id: ID, k: Key, emoji: string) { e.kind == Reacting && e.target == Some(id) && e.author == k && e.text == emoji }

  /** The last of k's reactions to id with emoji is at i, and puts it on. */
  predicate PutsLast(es: seq<Entry>, id: ID, k: Key, emoji: string, i: nat) {
    i < |es| && ReactsSo(es[i], id, k, emoji) && es[i].on && forall j | i < j < |es| :: !ReactsSo(es[j], id, k, emoji)
  }

  lemma {:induction false} OnOfEntries(es: seq<Entry>, id: ID, k: Key, emoji: string)
    ensures R.IsOn(ReactsOf(es), R.Slot(id, k, emoji)) <==> exists i :: PutsLast(es, id, k, emoji, i)
  {
    if es != [] {
      var (init, e) := (es[..|es| - 1], es[|es| - 1]);
      OnOfEntries(init, id, k, emoji);
      var more := if e.kind == Reacting && e.target.Some? then [R.React(e.target.value, e.author, e.text, e.on)] else [];
      assert ReactsOf(es) == ReactsOf(init) + more;
      if more != [] { R.IsOnStep(ReactsOf(init), more[0], R.Slot(id, k, emoji)); } else { assert ReactsOf(init) + [] == ReactsOf(init); }
      hide R.IsOn, ReactsOf;
      LastGrows(init, e, id, k, emoji);
      assert init + [e] == es;
    }
  }

  lemma LastGrows(es: seq<Entry>, e: Entry, id: ID, k: Key, emoji: string)
    ensures ReactsSo(e, id, k, emoji) ==> ((exists i :: PutsLast(es + [e], id, k, emoji, i)) <==> e.on)
    ensures !ReactsSo(e, id, k, emoji) ==> ((exists i :: PutsLast(es + [e], id, k, emoji, i)) <==> exists i :: PutsLast(es, id, k, emoji, i))
  {
    var now := es + [e];
    assert now[|es|] == e && forall j | 0 <= j < |es| :: now[j] == es[j];
    if ReactsSo(e, id, k, emoji) {
      if e.on { assert PutsLast(now, id, k, emoji, |es|); }
    } else {
      forall i: nat ensures PutsLast(now, id, k, emoji, i) <==> PutsLast(es, id, k, emoji, i) { }
    }
  }

  /** A message not deleted shows an emoji as me's if and only if the last of me's reactions with it, of all that were said of the message,
      put it on. */
  lemma ReactionShowsIff(es: seq<Entry>, t: Entry, me: Key, emoji: string)
    requires !SaidOf(es, t).deleted
    ensures (exists s :: s in ShownAs(es, t, me).reactions && s.emoji == emoji && s.mine) <==>
      exists i :: PutsLast(es, t.id, me, emoji, i)
  {
    R.MineIff(ReactsOf(es), t.id, me, emoji);
    OnOfEntries(es, t.id, me, emoji);
    hide R.Tally, ReactsOf, R.IsOn, QuoteOf;
  }

  /** An answer shows the first 140 characters of what the message it answers says, as that shows itself; or that it is missing. */
  lemma QuoteShows(es: seq<Entry>, t: Entry, u: Entry, me: Key)
    requires DistinctIDs(es) && t.target == Some(u.id) && u in es && u.kind in {Text, Attaching} && !u.hidden
    ensures var s := SaidOf(es, u);
      ShownAs(es, t, me).replyTo == Some(Quote(u.id, u.author, if |s.text| <= 140 then s.text else s.text[..140] + "\U{2026}", u.author == me, false, s.deleted))
  {
    ConversationFold.AnsweredFinds(es, u);
    hide SaidOf, R.Tally, ReactsOf, Answered;
  }

  lemma MissingShows(es: seq<Entry>, t: Entry, id: ID, me: Key)
    requires t.target == Some(id) && forall u | u in es && u.id == id :: u.kind !in {Text, Attaching} || u.hidden
    ensures ShownAs(es, t, me).replyTo == Some(Quote(id, 0, "", false, true, false))
  {
    assert Answered(es, id).None?;
    hide SaidOf, R.Tally, ReactsOf, Answered;
  }

  // ---- Nobody else's ----

  lemma OthersEditNothing(a: seq<Entry>, x: Entry, b: seq<Entry>, t: Entry, whole: bool)
    requires t.author != x.author
    ensures LatestEdit(a + [x] + b, t, whole) == LatestEdit(a + b, t, whole)
    ensures IsDeleted(a + [x] + b, t) <==> IsDeleted(a + b, t)
  {
    LatestIsOwn(a, x, b, t, whole);
    assert forall e :: e in a + [x] + b <==> e in a + b || e == x;
    hide LatestEdit;
  }

  lemma {:induction false} LatestIsOwn(a: seq<Entry>, x: Entry, b: seq<Entry>, t: Entry, whole: bool)
    requires t.author != x.author
    ensures LatestEdit(a + [x] + b, t, whole) == LatestEdit(a + b, t, whole)
  {
    if b == [] {
      LatestStep(a, x, t, whole);
      assert a + [x] + b == a + [x] && a + b == a;
    } else {
      var (init, e) := (b[..|b| - 1], b[|b| - 1]);
      LatestIsOwn(a, x, init, t, whole);
      LatestStep(a + [x] + init, e, t, whole);
      LatestStep(a + init, e, t, whole);
      assert a + [x] + b == a + [x] + init + [e] && a + b == a + init + [e];
      hide LatestEdit;
    }
  }

  lemma LatestStep(es: seq<Entry>, e: Entry, t: Entry, whole: bool)
    ensures LatestEdit(es + [e], t, whole) ==
      if e.kind == Editing && e.target == Some(t.id) && e.author == t.author && (whole ==> !e.wiped) then Some(e) else LatestEdit(es, t, whole)
  {
    assert (es + [e])[..|es|] == es;
  }

  /** Whatever one writes, wherever it comes, every message of another says what it said. */
  lemma OthersSaidAlike(a: seq<Entry>, x: Entry, b: seq<Entry>, t: Entry)
    requires t.author != x.author
    ensures SaidOf(a + [x] + b, t) == SaidOf(a + b, t)
  {
    OthersEditNothing(a, x, b, t, true);
    hide LatestEdit, IsDeleted;
  }

  /** What is shown of a message, but for its reactions and what it answers. */
  ghost function Bare(s: Shown): Shown { s.(reactions := [], replyTo := None) }

  /** What is shown of those who did not write x, but for reactions and quotes. */
  ghost function ByOthers(v: seq<Shown>, author: Key): seq<Shown> {
    if v == [] then []
    else
      var s := v[|v| - 1];
      ByOthers(v[..|v| - 1], author) + if s.author != author then [Bare(s)] else []
  }

  /** Every message of others than author shows the same in now as in es. */
  ghost predicate OthersAlike(es: seq<Entry>, now: seq<Entry>, author: Key, me: Key) {
    forall t: Entry | t.author != author :: Bare(ShownAs(now, t, me)) == Bare(ShownAs(es, t, me))
  }

  lemma OthersAreAlike(a: seq<Entry>, x: Entry, b: seq<Entry>, me: Key)
    ensures OthersAlike(a + b, a + [x] + b, x.author, me)
  {
    forall t: Entry | t.author != x.author ensures Bare(ShownAs(a + [x] + b, t, me)) == Bare(ShownAs(a + b, t, me)) {
      OthersSaidAlike(a, x, b, t);
      hide SaidOf, QuoteOf, R.Tally, ReactsOf;
    }
  }

  lemma ByOthersStep(es: seq<Entry>, part: seq<Entry>, t: Entry, author: Key, me: Key)
    ensures ByOthers(ViewOf(es, part + [t], me), author) ==
      ByOthers(ViewOf(es, part, me), author) + if Visible(t) && t.author != author then [Bare(ShownAs(es, t, me))] else []
  {
    assert (part + [t])[..|part|] == part && ShownAs(es, t, me).author == t.author;
    var v := ViewOf(es, part, me);
    assert (v + [ShownAs(es, t, me)])[..|v|] == v && v + [] == v;
    hide ShownAs;
  }

  lemma {:induction false} SameByOthers(es: seq<Entry>, now: seq<Entry>, part: seq<Entry>, author: Key, me: Key)
    requires OthersAlike(es, now, author, me)
    ensures ByOthers(ViewOf(now, part, me), author) == ByOthers(ViewOf(es, part, me), author)
  {
    if part != [] {
      var (init, t) := (part[..|part| - 1], part[|part| - 1]);
      assert init + [t] == part;
      assert t.author != author ==> Bare(ShownAs(now, t, me)) == Bare(ShownAs(es, t, me));
      hide *;
      SameByOthers(es, now, init, author, me);
      ByOthersStep(es, init, t, author, me);
      ByOthersStep(now, init, t, author, me);
    }
  }

  lemma {:induction false} OwnAside(es: seq<Entry>, a: seq<Entry>, x: Entry, b: seq<Entry>, me: Key)
    ensures ByOthers(ViewOf(es, a + [x] + b, me), x.author) == ByOthers(ViewOf(es, a + b, me), x.author)
  {
    if b == [] {
      ByOthersStep(es, a, x, x.author, me);
      assert a + [x] + b == a + [x] && a + b == a;
    } else {
      var (init, t) := (b[..|b| - 1], b[|b| - 1]);
      assert a + [x] + b == a + [x] + init + [t] && a + b == a + init + [t];
      hide *;
      OwnAside(es, a, x, init, me);
      ByOthersStep(es, a + [x] + init, t, x.author, me);
      ByOthersStep(es, a + init, t, x.author, me);
    }
  }

  /** Whatever one writes, wherever it comes, every message of the others shows the text, the mark of being edited, or deleted, and
      the file it did. */
  lemma OthersShowAlike(a: seq<Entry>, x: Entry, b: seq<Entry>, me: Key)
    ensures ByOthers(View(a + [x] + b, me), x.author) == ByOthers(View(a + b, me), x.author)
  {
    OthersAreAlike(a, x, b, me);
    OwnAside(a + [x] + b, a, x, b, me);
    SameByOthers(a + b, a + [x] + b, a + b, x.author, me);
    hide OthersAlike, ViewOf, ByOthers;
  }

  /** Nor does it depend on what one writes whether a text of the others' is gone, and wiped wherever it is kept. */
  lemma OthersGoneAlike(a: seq<Entry>, x: Entry, b: seq<Entry>, e: Entry)
    requires e.author != x.author
    ensures IsGone(a + [x] + b, e) <==> IsGone(a + b, e)
  {
    OthersEditNothing(a, x, b, e, false);
    if e.kind == Editing {
      forall t | Edits(e, t) ensures Supersedes(a + [x] + b, t, e) <==> Supersedes(a + b, t, e) {
        OthersEditNothing(a, x, b, t, false);
      }
      hide LatestEdit, IsDeleted;
      assert forall t :: t in a + [x] + b <==> t in a + b || t == x;
      assert !Supersedes(a + [x] + b, x, e);
    }
  }

  // ---- What is kept ----

  lemma {:induction false} LatestWhere(es: seq<Entry>, t: Entry) returns (k: nat)
    ensures LatestEdit(es, t, false).Some? ==> k < |es| && LatestEdit(es, t, false) == Some(es[k])
    ensures forall j | 0 <= j < |es| && es[j].kind == Editing && es[j].target == Some(t.id) && es[j].author == t.author ::
      LatestEdit(es, t, false).Some? && j <= k
  {
    if es == [] {
      k := 0;
    } else {
      k := LatestWhere(es[..|es| - 1], t);
      if Edits(es[|es| - 1], t) { k := |es| - 1; }
      assert forall j | 0 <= j < |es| - 1 :: es[j] == es[..|es| - 1][j];
    }
  }

  /** Compaction leaves of an entry what it was, or that without its text. What waits it leaves whole. Of the rest it wipes just the
      messages, and files, their author edited or deleted; and the edits of a message its author edited later, or deleted. */
  lemma WipesJust(es: seq<Entry>, waiting: set<ID>, i: nat)
    requires DistinctIDs(es) && i < |es|
    ensures |Compacted(es, waiting)| == |es|
    ensures var (e, now) := (es[i], Compacted(es, waiting)[i]);
      && (now == e || now == e.(text := "", wiped := true))
      && (e.id in waiting || e.kind in {Reacting, Deleting} ==> now == e)
      && (e.id !in waiting && e.kind in {Text, Attaching} ==>
            (now.wiped <==> e.wiped || exists d :: d in es && d.kind in {Editing, Deleting} && d.target == Some(e.id) && d.author == e.author))
      && (e.id !in waiting && e.kind == Editing ==>
            (now.wiped <==>
               || e.wiped
               || ((exists t :: t in es && t.kind in {Text, Attaching} && e.target == Some(t.id) && e.author == t.author)
                   && (|| (exists d :: d in es && d.kind == Deleting && d.target == e.target && d.author == e.author)
                       || (exists j :: i < j < |es| && es[j].kind == Editing && es[j].target == e.target && es[j].author == e.author)))))
  {
    var e := es[i];
    assert IsMessage(e.kind) <==> e.kind in {Text, Attaching};
    MessageIsGone(es, e);
    forall t | t in es ensures Supersedes(es, t, e) <==> IsReplaced(es, t, i) { EditIsReplaced(es, t, i); }
    hide LatestEdit, IsDeleted, Supersedes;
  }

  lemma MessageIsGone(es: seq<Entry>, e: Entry)
    ensures IsDeleted(es, e) || LatestEdit(es, e, false).Some? <==>
      exists d :: d in es && d.kind in {Editing, Deleting} && d.target == Some(e.id) && d.author == e.author
  {
    if d :| d in es && d.kind in {Editing, Deleting} && d.target == Some(e.id) && d.author == e.author {
      assert d.kind == Deleting ==> Deletes(d, e);
    }
  }

  ghost predicate IsReplaced(es: seq<Entry>, t: Entry, i: nat)
    requires i < |es|
  {
    var e := es[i];
    && t.kind in {Text, Attaching} && e.kind == Editing && e.target == Some(t.id) && e.author == t.author
    && (|| (exists d :: d in es && d.kind == Deleting && d.target == e.target && d.author == e.author)
        || (exists j :: i < j < |es| && es[j].kind == Editing && es[j].target == e.target && es[j].author == e.author))
  }

  lemma EditIsReplaced(es: seq<Entry>, t: Entry, i: nat)
    requires DistinctIDs(es) && i < |es|
    ensures Supersedes(es, t, es[i]) <==> IsReplaced(es, t, i)
  {
    var k := LatestWhere(es, t);
    if Edits(es[i], t) {
      assert IsDeleted(es, t) <==> exists d :: d in es && d.kind == Deleting && d.target == es[i].target && d.author == es[i].author;
      assert i <= k;
      hide IsDeleted, LatestEdit;
      assert es[k].id == es[i].id <==> k == i;
    }
  }

  /** A text, or a file's name, its author edited or deleted is kept all the same, and does not wait. */
  ghost predicate KeepsGone(s: Side) {
    exists t, d :: t in s.log && d in s.log && IsKeptFor(s, t, d)
  }

  predicate IsKeptFor(s: Side, t: Entry, d: Entry) {
    && t.kind in {Text, Attaching} && !t.wiped && t.id !in s.outbox
    && d.kind in {Editing, Deleting} && d.target == Some(t.id) && d.author == t.author
  }

  /** Whatever compacts leaves none of them. */
  lemma CompactionKeepsNone(s: Side)
    requires DistinctIDs(s.log)
    ensures !KeepsGone(CompactedSide(s))
  {
    var now := Compacted(s.log, s.outbox);
    if t, d :| t in now && d in now && IsKeptFor(s, t, d) {
      var i :| 0 <= i < |now| && now[i] == t;
      var j :| 0 <= j < |now| && now[j] == d;
      WipesJust(s.log, s.outbox, i);
      WipesJust(s.log, s.outbox, j);
      assert s.log[j] in s.log;
      hide Compacted;
    }
  }

  /** Writing, and hearing that entries arrived, compacts. */
  lemma WritingKeepsNone(s: Side, m: Entry, ids: set<ID>, n: nat)
    requires InOrder(s.log) && DistinctIDs(s.log) && m.id !in IDs(s.log)
    ensures !KeepsGone(Added(s, m)) && !KeepsGone(Acknowledged(s, ids)) && !KeepsGone(HeldUpTo(s, n))
  {
    PlacedInOrder(s.log, m);
    hide KeepsGone, InOrder, DistinctIDs, Placed, Compacted, IDs;
    CompactionKeepsNone(s.(log := Placed(s.log, m), outbox := s.outbox + {m.id}));
    CompactionKeepsNone(s.(outbox := s.outbox - ids));
    CompactionKeepsNone(s.(outbox := s.outbox - OwnUpTo(s, n)));
  }

  /** So does receiving an edit or a deletion; but a message that arrives after what its author made of it is kept whole, its text with
      it, until something else compacts. Just then does receiving keep what both were to forget. */
  lemma ReceivingKeepsGoneIff(s: Side, m: Entry)
    requires InOrder(s.log) && DistinctIDs(s.log) && m.id !in IDs(s.log) && !KeepsGone(s)
    ensures KeepsGone(Received(s, m)) <==>
      && m.kind in {Text, Attaching} && !m.wiped && m.id !in s.outbox
      && exists d :: d in s.log && d.kind in {Editing, Deleting} && d.target == Some(m.id) && d.author == s.contact
  {
    var x := AsReceived(s, m);
    PlacedInOrder(s.log, x);
    var stored := s.(log := Placed(s.log, x));
    assert m.kind !in {Editing, Deleting} ==> Received(s, m) == stored;
    assert m.kind in {Editing, Deleting} ==> Received(s, m) == CompactedSide(stored);
    hide *;
    if m.kind in {Editing, Deleting} { CompactionKeepsNone(stored); } else { MoreKeepsGoneIff(s, x, stored); }
  }

  lemma MoreKeepsGoneIff(s: Side, x: Entry, now: Side)
    requires !KeepsGone(s) && x.kind !in {Editing, Deleting} && now.outbox == s.outbox
    requires forall e :: e in now.log <==> e in s.log || e == x
    ensures KeepsGone(now) <==>
      && x.kind in {Text, Attaching} && !x.wiped && x.id !in s.outbox
      && exists d :: d in s.log && d.kind in {Editing, Deleting} && d.target == Some(x.id) && d.author == x.author
  {
    if t, d :| t in now.log && d in now.log && IsKeptFor(now, t, d) { assert d in s.log && (t in s.log ==> !IsKeptFor(s, t, d)); }
    if d :| d in s.log && d.kind in {Editing, Deleting} && d.target == Some(x.id) && d.author == x.author && x.kind in {Text, Attaching} && !x.wiped && x.id !in s.outbox {
      assert x in now.log && d in now.log && IsKeptFor(now, x, d);
    }
  }

  // ---- What is written, and what is taken ----

  /** What the protocol asks of an entry: a text or an edit is a message, and no reaction; a reaction an emoji; a file of up to 100 MB has a
      name, a type and one of eight orientations; and what is wiped has no text. */
  predicate IsProper(r: Rules, m: Entry) {
    && (m.wiped ==> m.text == "")
    && (m.kind in {Text, Editing} ==> !m.on && (m.wiped || r.message(m.text)))
    && (m.kind == Reacting ==> r.emoji(m.text))
    && (m.kind == Attaching && !m.wiped ==>
          && r.fileName(m.text) && m.file.Some? && r.fileKind(m.file.value.kind)
          && 0 < m.file.value.size <= 104_857_600 && 1 <= m.file.value.orientation <= 8)
  }

  /** One writes what is proper, about nothing, or about a message that shows and its author did not delete; edits their own texts alone, and
      deletes their own messages alone. */
  lemma WritesIff(r: Rules, s: Side, m: Entry)
    requires DistinctIDs(s.log)
    ensures NotAdded(r, s, m).None? <==>
      && IsProper(r, m)
      && (m.target.Some? ==> exists t :: t in s.log && IsToAnswer(s, t, m))
  {
    if m.target.Some? {
      var id := m.target.value;
      assert NotTargeted(s, id, m.kind).None? <==> Answered(s.log, id).Some? && IsToAnswer(s, Answered(s.log, id).value, m) by {
        if Answered(s.log, id).Some? { NotDeletedIff(s.log, Answered(s.log, id).value); }
        hide Answered, IsDeleted;
      }
      hide NotTargeted, IsDeleted;
      if t :| t in s.log && IsToAnswer(s, t, m) { ConversationFold.AnsweredFinds(s.log, t); }
    }
  }

  /** t shows, was not deleted by its author, and is what m may be about. */
  ghost predicate IsToAnswer(s: Side, t: Entry, m: Entry) {
    && m.target == Some(t.id) && t.kind in {Text, Attaching} && !t.hidden
    && (forall d | d in s.log :: !(d.kind == Deleting && d.target == Some(t.id) && d.author == t.author))
    && (m.kind == Editing ==> t.kind == Text) && (m.kind in {Editing, Deleting} ==> t.author == s.me)
  }

  lemma NotDeletedIff(es: seq<Entry>, t: Entry)
    ensures !IsDeleted(es, t) <==> forall d | d in es :: !(d.kind == Deleting && d.target == Some(t.id) && d.author == t.author)
  {
    if !IsDeleted(es, t) { assert forall d | d in es :: !Deletes(d, t); }
  }

  /** Of what the contact sends, what is proper is taken, if its number and its identifier are nobody's, and it has a number; and is held
      already if its number is this very entry's. */
  lemma TakesIff(r: Rules, s: Side, m: Entry)
    ensures Judged(r, s, m) == Kept <==>
      IsProper(r, m) && m.sequence > 0 && forall e | e in s.log :: e.id != m.id && !(e.author == s.contact && e.sequence == m.sequence)
    ensures Judged(r, s, m) == Held <==>
      IsProper(r, m) && exists e :: e in s.log && e.author == s.contact && e.sequence == m.sequence && e.id == m.id
  {
    assert Allowed(r, m) <==> IsProper(r, m);
    hide Allowed, IsProper;
  }

  /** A message deleted on this machine alone shows no more, whole or not; every other entry stays as it was. */
  lemma ForgottenShowsNoMore(s: Side, target: ID, me: Key)
    ensures forall u | u in View(Forgotten(s, target).log, me) :: u.id != target
    ensures |Forgotten(s, target).log| == |s.log|
    ensures forall i | 0 <= i < |s.log| ::
      Forgotten(s, target).log[i] == if s.log[i].id == target then s.log[i].(text := "", wiped := true, hidden := true) else s.log[i]
  {
    ShowsJust(Forgotten(s, target).log, me, target);
    hide View;
  }

  /** An entry waits no more once it is acknowledged, or the contact says it holds up to its number, if it is this peer's; and waits otherwise. */
  lemma WaitsIff(s: Side, ids: set<ID>, n: nat, id: ID)
    ensures id in Acknowledged(s, ids).outbox <==> id in s.outbox && id !in ids
    ensures id in HeldUpTo(s, n).outbox <==> id in s.outbox && forall e | e in s.log && e.id == id && e.author == s.me :: e.sequence > n
    ensures forall e :: e in After(s, n) <==> e in s.log && e.author == s.me && e.sequence > n
  {
  }

  // ---- Which happens ----

  function SaidFirst(text: string): Entry { Entry(1, 7, 1, Time(1, 0), Text, text, None, false, false, false, None) }
  const UNSAID := Entry(2, 7, 2, Time(2, 0), Deleting, "", Some(1), false, false, false, None)

  function WroteFirst(text: string): World {
    World(Side(7, 8, [SaidFirst(text)], {1}), Side(8, 7, [], {}), {Message(ToWire(SaidFirst(text)))}, {}, map[1 := SaidFirst(text)])
  }

  function Unsaid(text: string): World {
    World(Side(7, 8, [SaidFirst(text), UNSAID], {1, 2}), Side(8, 7, [], {}),
      {Message(ToWire(SaidFirst(text))), Message(ToWire(UNSAID))}, {}, map[1 := SaidFirst(text), 2 := UNSAID])
  }

  function HeardUnsaid(text: string): World {
    Unsaid(text).(b := Side(8, 7, [UNSAID], {}), ba := {Ack(2)})
  }

  lemma WritesFirst(r: Rules, text: string)
    requires r.message(text)
    ensures Moved(r, Begun(7, 8), ByA(Write(SaidFirst(text)))) == WroteFirst(text)
  {
    var m := SaidFirst(text);
    assert Placed([], m) == [m] && Compacted([m], {1}) == [m];
    assert IsLast([], 7, 0) && ({} + {m.id}) == {1};
    hide Compacted;
  }

  lemma Unsays(r: Rules, text: string)
    ensures Moved(r, WroteFirst(text), ByA(Write(UNSAID))) == Unsaid(text)
  {
    var m := SaidFirst(text);
    assert [m][1..] == [] && Placed([m], UNSAID) == [m, UNSAID];
    assert Compacted([m, UNSAID], {1, 2}) == [m, UNSAID];
    assert m in [m] && IsLast([m], 7, 1);
    assert [m][..0] == [] && Answered([m], 1) == Some(m) && !IsDeleted([m], m);
    assert {1} + {2} == {1, 2};
    hide Compacted, Answered, IsDeleted, IsLast, Placed;
  }

  lemma HearsUnsaid(r: Rules, text: string)
    ensures Moved(r, Unsaid(text), ByB(OnMessage(ToWire(UNSAID)))) == HeardUnsaid(text)
  {
    var (w, d) := (Swap(Unsaid(text)), ToWire(UNSAID));
    assert FromWire(d) == Some(UNSAID.(author := 0));
    assert AsReceived(w.a, FromWire(d).value) == UNSAID;
    assert Judged(r, w.a, FromWire(d).value) == Kept;
    AloneStays(w.a, FromWire(d).value);
    hide Judged, Received, FromWire, ToWire;
  }

  lemma AloneStays(s: Side, m: Entry)
    requires s.log == [] && m.kind == Deleting && !m.hidden && m.file == None
    ensures Received(s, m) == s.(log := [m.(author := s.contact)])
  {
    var x := m.(author := s.contact);
    assert Placed([], x) == [x];
    assert Compacted([x], s.outbox) == [x];
  }

  lemma HearsSaid(r: Rules, text: string)
    requires r.message(text)
    ensures var w := Moved(r, HeardUnsaid(text), ByB(OnMessage(ToWire(SaidFirst(text)))));
      w.b.log == [SaidFirst(text), UNSAID] && w.b.outbox == {}
  {
    var (w, d) := (Swap(HeardUnsaid(text)), ToWire(SaidFirst(text)));
    assert FromWire(d) == Some(SaidFirst(text).(author := 0));
    assert AsReceived(w.a, FromWire(d).value) == SaidFirst(text);
    assert Judged(r, w.a, FromWire(d).value) == Kept;
    assert Placed([UNSAID], SaidFirst(text)) == [SaidFirst(text), UNSAID];
    hide Judged, FromWire, ToWire, Placed;
  }

  /** Of two honest peers: a message is written, and deleted while it still waits; the deletion arrives first, and the message, sent
      whole since it waits, after it. It shows as deleted to the one, who keeps its text. */
  lemma LateTextIsKept(r: Rules, text: string)
    requires r.message(text)
    ensures var moves := [ByA(Write(SaidFirst(text))), ByA(Write(UNSAID)), ByB(OnMessage(ToWire(UNSAID))), ByB(OnMessage(ToWire(SaidFirst(text))))];
      var b := Run(r, Begun(7, 8), moves).b;
      KeepsGone(b) && SaidFirst(text) in b.log && SaidOf(b.log, SaidFirst(text)) == Said("", false, true, None)
  {
    var moves := [ByA(Write(SaidFirst(text))), ByA(Write(UNSAID)), ByB(OnMessage(ToWire(UNSAID))), ByB(OnMessage(ToWire(SaidFirst(text))))];
    WritesFirst(r, text);
    Unsays(r, text);
    HearsUnsaid(r, text);
    HearsSaid(r, text);
    RunOfFour(r, Begun(7, 8), moves[0], moves[1], moves[2], moves[3]);
    hide Moved, Run, WroteFirst, Unsaid, HeardUnsaid;
    var b := Run(r, Begun(7, 8), moves).b;
    assert b.log[0] in b.log && b.log[1] in b.log && IsKeptFor(b, b.log[0], b.log[1]);
    DeletedShows(b.log, SaidFirst(text), UNSAID);
  }

  lemma RunOfFour(r: Rules, w: World, k: Move, l: Move, m: Move, n: Move)
    ensures Run(r, w, [k, l, m, n]) == Moved(r, Moved(r, Moved(r, Moved(r, w, k), l), m), n)
  {
    RunStep(r, w, [], k);
    RunStep(r, w, [k], l);
    RunStep(r, w, [k, l], m);
    RunStep(r, w, [k, l, m], n);
    assert [] + [k] == [k] && [k] + [l] == [k, l] && [k, l] + [m] == [k, l, m] && [k, l, m] + [n] == [k, l, m, n];
    hide Moved;
  }

  lemma RunStep(r: Rules, w: World, moves: seq<Move>, move: Move)
    ensures Run(r, w, []) == w && Run(r, w, moves + [move]) == Moved(r, Run(r, w, moves), move)
  {
    assert (moves + [move])[..|moves|] == moves;
    hide Moved;
  }
}
