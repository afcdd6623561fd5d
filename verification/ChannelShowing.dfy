/** What a channel shows, and what compaction leaves of it, said of its entries alone. */
module ChannelShowing {
  // internal/spaces/channel.go:40-122 and 182-239, internal/spaces/sync.go:121-140. Nothing here is said by Edits, Deletes, IsPost or
  // Before, but by what an entry holds: its kind, its author, what it is about, and when it was written.

  import opened Basics
  import opened Posts
  import C = Conversation
  import PostsFold
  import R = Reactions
  import S = ChannelStore
  import G = ChannelGossip

  // ---- In what order ----

  /** Entries in order are in the order of their clocks; of equal clocks, of their identifiers. */
  lemma OrderIs(es: seq<Entry>)
    requires G.InOrder(es)
    ensures forall i, j | 0 <= i < j < |es| ::
      || es[i].time.wall < es[j].time.wall
      || (es[i].time.wall == es[j].time.wall && es[i].time.counter < es[j].time.counter)
      || (es[i].time.wall == es[j].time.wall && es[i].time.counter == es[j].time.counter && es[i].id < es[j].id)
  {
    forall i, j | 0 <= i < j < |es| ensures G.Before(es[i], es[j]) { }
  }

  lemma {:induction false} ViewShows(mods: Moderates, es: seq<Entry>, part: seq<Entry>, me: Key, p: nat) returns (i: nat)
    requires p < |ViewOf(mods, es, part, me)|
    ensures i < |part| && IsPost(part[i].kind) && ViewOf(mods, es, part, me)[p] == ShownAs(mods, es, part[i], me)
    ensures |ViewOf(mods, es, part[..i], me)| == p
  {
    var init := part[..|part| - 1];
    if p < |ViewOf(mods, es, init, me)| {
      i := ViewShows(mods, es, init, me, p);
      assert part[..i] == init[..i];
    } else {
      i := |part| - 1;
    }
  }

  lemma {:induction false} ViewGrows(mods: Moderates, es: seq<Entry>, part: seq<Entry>, me: Key, i: nat, j: nat)
    requires i <= j <= |part|
    ensures |ViewOf(mods, es, part[..i], me)| <= |ViewOf(mods, es, part[..j], me)|
  {
    if i < j {
      ViewGrows(mods, es, part, me, i, j - 1);
      assert part[..j][..j - 1] == part[..j - 1];
    }
  }

  /** What a channel shows comes in that order. */
  lemma ViewInOrder(mods: Moderates, es: seq<Entry>, me: Key, p: nat, q: nat)
    requires G.InOrder(es) && p < q < |View(mods, es, me)|
    ensures var (s, u) := (View(mods, es, me)[p], View(mods, es, me)[q]);
      || s.time.wall < u.time.wall
      || (s.time.wall == u.time.wall && s.time.counter < u.time.counter)
      || (s.time.wall == u.time.wall && s.time.counter == u.time.counter && s.id < u.id)
  {
    var i := ViewShows(mods, es, es, me, p);
    var j := ViewShows(mods, es, es, me, q);
    if j <= i { ViewGrows(mods, es, es, me, j, i); }
    assert i < j;
    OrderIs(es);
    hide ViewOf, G.InOrder;
  }

  /** Every run keeps every member's entries in it. */
  lemma RunsKeepOrder(channel: ID, members: set<Key>, moves: seq<G.Move>, k: Key, i: nat, j: nat)
    requires var w := G.Run(G.Begun(channel, members), moves); k in w.logs && i < j < |w.logs[k]|
    ensures var (e, f) := (G.Run(G.Begun(channel, members), moves).logs[k][i], G.Run(G.Begun(channel, members), moves).logs[k][j]);
      || e.time.wall < f.time.wall
      || (e.time.wall == f.time.wall && e.time.counter < f.time.counter)
      || (e.time.wall == f.time.wall && e.time.counter == f.time.counter && e.id < f.id)
  {
    var w := G.Run(G.Begun(channel, members), moves);
    G.EveryRunKeeps(channel, members, moves);
    assert G.InOrder(w.logs[k]);
    OrderIs(w.logs[k]);
    hide *;
  }

  /** The messages and files show, and nothing else does. */
  lemma ShowsJust(mods: Moderates, es: seq<Entry>, me: Key, id: ID)
    ensures (exists s :: s in View(mods, es, me) && s.id == id) <==> exists e :: e in es && e.id == id && e.kind in {Said, Attached}
  {
    if s :| s in View(mods, es, me) && s.id == id {
      var p :| 0 <= p < |View(mods, es, me)| && View(mods, es, me)[p] == s;
      var i := ViewShows(mods, es, es, me, p);
      assert es[i] in es;
    }
    if e :| e in es && e.id == id && e.kind in {Said, Attached} {
      ViewHas(mods, es, es, me, e);
    }
  }

  lemma {:induction false} ViewHas(mods: Moderates, es: seq<Entry>, part: seq<Entry>, me: Key, t: Entry)
    requires t in part && IsPost(t.kind)
    ensures ShownAs(mods, es, t, me) in ViewOf(mods, es, part, me)
  {
    var init := part[..|part| - 1];
    assert part == init + [part[|part| - 1]];
    if t in init { ViewHas(mods, es, init, me, t); }
  }

  // ---- What of each message ----

  lemma {:induction false} LastDoneIs(mods: Moderates, es: seq<Entry>, t: Entry, k: nat)
    requires k < |es| && Does(mods, es[k], t) && forall j | k < j < |es| :: !Does(mods, es[j], t)
    ensures LastDone(mods, es, t) == Some(es[k])
  {
    if k < |es| - 1 { LastDoneIs(mods, es[..|es| - 1], t, k); }
  }

  /** e edits the message t: by its author, what is no file; or deletes it: by its author, or one who moderates them. */
  predicate Does(mods: Moderates, e: Entry, t: Entry) {
    && e.target == Some(t.id)
    && (|| (e.kind == Edited && t.kind == Said && e.author == t.author)
        || (e.kind == Deleted && t.kind in {Said, Attached} && (e.author == t.author || mods(e.author, t.author))))
  }

  /** Of what its author, and those who moderate them, did to a message, the last alone says what shows: deleted, if it deletes it;
      and if it edits it, its text. */
  lemma LastDoneShows(mods: Moderates, es: seq<Entry>, t: Entry, k: nat)
    requires k < |es| && Does(mods, es[k], t) && forall j | k < j < |es| :: !Does(mods, es[j], t)
    ensures var s := StandingOf(mods, es, t);
      && (es[k].kind == Deleted ==> s.deleted && !s.edited && s.text == "" && s.file == None)
      && (es[k].kind == Edited ==> !s.deleted && s.edited && s.text == es[k].text && s.file == t.file)
  {
    LastDoneIs(mods, es, t, k);
    hide LastDone, LatestEdit, IsDeletedByModerator;
    if es[k].kind == Edited { LastEditIs(mods, es, t, k); }
  }

  lemma {:induction false} LastEditIs(mods: Moderates, es: seq<Entry>, t: Entry, k: nat)
    requires k < |es| && Does(mods, es[k], t) && es[k].kind == Edited && forall j | k < j < |es| :: !Does(mods, es[j], t)
    ensures LatestEdit(es, t) == Some(es[k])
  {
    if k < |es| - 1 { LastEditIs(mods, es[..|es| - 1], t, k); }
  }

  /** And as it was written, if none of them did anything to it. */
  lemma UntouchedShows(mods: Moderates, es: seq<Entry>, t: Entry)
    requires t.kind in {Said, Attached} && forall e | e in es :: !Does(mods, e, t)
    ensures StandingOf(mods, es, t) == if t.wiped then Standing("", false, true, false, None) else Standing(t.text, false, false, false, t.file)
  {
    forall e | e in es ensures !Edits(e, t) && !Deletes(mods, e, t) { assert !Does(mods, e, t); }
    assert !IsDeletedByModerator(mods, es, t);
  }

  /** It shows as deleted by a moderator if one who moderates its author, and is not they, ever deleted it. */
  lemma ByModeratorIff(mods: Moderates, es: seq<Entry>, t: Entry)
    requires t.kind in {Said, Attached}
    ensures StandingOf(mods, es, t).byModerator <==>
      exists e :: e in es && e.kind == Deleted && e.target == Some(t.id) && e.author != t.author && mods(e.author, t.author)
  {
    hide LastDone, LatestEdit;
  }

  /** k reacts to the message id with emoji, or takes that off. */
  predicate ReactsSo(e: Entry, id: ID, k: Key, emoji: string) { e.kind == Reacted && e.target == Some(id) && e.author == k && e.text == emoji }

  /** The last of k's reactions to id with emoji is at i, and puts it on. */
  predicate PutsLast(es: seq<Entry>, id: ID, k: Key, emoji: string, i: nat) {
    i < |es| && ReactsSo(es[i], id, k, emoji) && es[i].on && forall j | i < j < |es| :: !ReactsSo(es[j], id, k, emoji)
  }

  lemma {:induction false} OnOfEntries(es: seq<Entry>, id: ID, k: Key, emoji: string)
    ensures R.IsOn(ReactsOf(es), R.Slot(id, k, emoji)) <==> exists i :: PutsLast(es, id, k, emoji, i)
  {
    if es != [] {
      var (init, e) := (es[..|es| - 1], es[|es| - 1]);
      OnOfEntries(init, id, k, emoji);
      var more := if e.kind == Reacted && e.target.Some? then [R.React(e.target.value, e.author, e.text, e.on)] else [];
      assert ReactsOf(es) == ReactsOf(init) + more;
      if more != [] { R.IsOnStep(ReactsOf(init), more[0], R.Slot(id, k, emoji)); } else { assert ReactsOf(init) + [] == ReactsOf(init); }
      hide R.IsOn, ReactsOf;
      LastGrows(init, e, id, k, emoji);
      assert init + [e] == es;
    }
  }

  lemma LastGrows(es: seq<Entry>, e: Entry, id: ID, k: Key, emoji: string)
    ensures ReactsSo(e, id, k, emoji) ==> ((exists i :: PutsLast(es + [e], id, k, emoji, i)) <==> e.on)
    ensures !ReactsSo(e, id, k, emoji) ==> ((exists i :: PutsLast(es + [e], id, k, emoji, i)) <==> exists i :: PutsLast(es, id, k, emoji, i))
  {
    var now := es + [e];
    assert now[|es|] == e && forall j | 0 <= j < |es| :: now[j] == es[j];
    if ReactsSo(e, id, k, emoji) {
      if e.on { assert PutsLast(now, id, k, emoji, |es|); }
    } else {
      forall i: nat ensures PutsLast(now, id, k, emoji, i) <==> PutsLast(es, id, k, emoji, i) { }
    }
  }

  /** A message not deleted shows an emoji as me's if and only if the last of me's reactions with it, of all that were said of the message,
      put it on. */
  lemma ReactionShowsIff(mods: Moderates, es: seq<Entry>, t: Entry, me: Key, emoji: string)
    requires !StandingOf(mods, es, t).deleted
    ensures (exists s :: s in ShownAs(mods, es, t, me).reactions && s.emoji == emoji && s.mine) <==>
      exists i :: PutsLast(es, t.id, me, emoji, i)
  {
    R.MineIff(ReactsOf(es), t.id, me, emoji);
    OnOfEntries(es, t.id, me, emoji);
    hide R.Tally, ReactsOf, R.IsOn, QuoteOf;
  }

  /** An answer shows the first 140 characters of what the message it answers says, as that shows itself; or that it is missing. */
  lemma QuoteShows(mods: Moderates, es: seq<Entry>, t: Entry, u: Entry, me: Key)
    requires DistinctIDs(es) && t.kind == Said && t.target == Some(u.id) && u in es && u.kind in {Said, Attached}
    ensures var s := StandingOf(mods, es, u);
      ShownAs(mods, es, t, me).replyTo ==
      Some(C.Quote(u.id, u.author, if |s.text| <= 140 then s.text else s.text[..140] + "\U{2026}", u.author == me, false, s.deleted))
  {
    PostsFold.AnsweredFinds(es, u);
    hide StandingOf, R.Tally, ReactsOf, Answered;
  }

  lemma MissingShows(mods: Moderates, es: seq<Entry>, t: Entry, id: ID, me: Key)
    requires t.kind == Said && t.target == Some(id) && forall u | u in es && u.id == id :: u.kind !in {Said, Attached}
    ensures ShownAs(mods, es, t, me).replyTo == Some(C.Quote(id, 0, "", false, true, false))
  {
    assert Answered(es, id).None?;
    hide StandingOf, R.Tally, ReactsOf, Answered;
  }

  // ---- Nobody else's ----

  lemma {:induction false} OthersDoNothing(mods: Moderates, a: seq<Entry>, x: Entry, b: seq<Entry>, t: Entry)
    requires t.author != x.author && !mods(x.author, t.author)
    ensures LatestEdit(a + [x] + b, t) == LatestEdit(a + b, t) && LastDone(mods, a + [x] + b, t) == LastDone(mods, a + b, t)
  {
    if b == [] {
      DoneStep(mods, a, x, t);
      assert a + [x] + b == a + [x] && a + b == a;
    } else {
      var (init, e) := (b[..|b| - 1], b[|b| - 1]);
      OthersDoNothing(mods, a, x, init, t);
      DoneStep(mods, a + [x] + init, e, t);
      DoneStep(mods, a + init, e, t);
      assert a + [x] + b == a + [x] + init + [e] && a + b == a + init + [e];
      hide LatestEdit, LastDone, Does;
    }
  }

  lemma DoneStep(mods: Moderates, es: seq<Entry>, e: Entry, t: Entry)
    ensures LatestEdit(es + [e], t) == if Does(mods, e, t) && e.kind == Edited then Some(e) else LatestEdit(es, t)
    ensures LastDone(mods, es + [e], t) == if Does(mods, e, t) then Some(e) else LastDone(mods, es, t)
  {
    assert (es + [e])[..|es|] == es;
  }

  lemma OthersDeleteNothing(mods: Moderates, a: seq<Entry>, x: Entry, b: seq<Entry>, t: Entry)
    requires t.author != x.author && !mods(x.author, t.author)
    ensures IsDeleted(mods, a + [x] + b, t) <==> IsDeleted(mods, a + b, t)
    ensures IsDeletedByModerator(mods, a + [x] + b, t) <==> IsDeletedByModerator(mods, a + b, t)
  {
    assert forall e :: e in a + [x] + b <==> e in a + b || e == x;
  }

  /** Whatever one writes who does not moderate another, wherever it comes, every message of that other stands as it did. */
  lemma OthersStandAlike(mods: Moderates, a: seq<Entry>, x: Entry, b: seq<Entry>, t: Entry)
    requires t.author != x.author && !mods(x.author, t.author)
    ensures StandingOf(mods, a + [x] + b, t) == StandingOf(mods, a + b, t)
  {
    OthersDoNothing(mods, a, x, b, t);
    OthersDeleteNothing(mods, a, x, b, t);
    hide LatestEdit, LastDone, IsDeletedByModerator;
  }

  /** Nor does it depend on what they write whether a text of that other's is gone, and wiped wherever it is kept. */
  lemma OthersGoneAlike(mods: Moderates, a: seq<Entry>, x: Entry, b: seq<Entry>, e: Entry)
    requires e.author != x.author && !mods(x.author, e.author)
    ensures IsGone(mods, a + [x] + b, e) <==> IsGone(mods, a + b, e)
  {
    OthersDoNothing(mods, a, x, b, e);
    OthersDeleteNothing(mods, a, x, b, e);
    if e.kind == Edited {
      forall t | Edits(e, t) ensures Supersedes(mods, a + [x] + b, t, e) <==> Supersedes(mods, a + b, t, e) {
        OthersDoNothing(mods, a, x, b, t);
        OthersDeleteNothing(mods, a, x, b, t);
      }
      hide LatestEdit, IsDeleted;
      assert forall t :: t in a + [x] + b <==> t in a + b || t == x;
      assert !Supersedes(mods, a + [x] + b, x, e);
    }
  }

  // ---- What is kept ----

  /** The last edit of t is the last of es that edits it. */
  lemma {:induction false} LatestWhere(mods: Moderates, es: seq<Entry>, t: Entry) returns (k: nat)
    ensures LatestEdit(es, t).Some? ==> k < |es| && LatestEdit(es, t) == Some(es[k])
    ensures forall j | 0 <= j < |es| && es[j].kind == Edited && Does(mods, es[j], t) :: LatestEdit(es, t).Some? && j <= k
  {
    if es == [] {
      k := 0;
    } else {
      k := LatestWhere(mods, es[..|es| - 1], t);
      if Edits(es[|es| - 1], t) { k := |es| - 1; }
      assert forall j | 0 <= j < |es| - 1 :: es[j] == es[..|es| - 1][j];
    }
  }

  /** Compaction leaves of an entry what it was, or that without its text. It wipes just the messages, and files, that something was
      done to; and the edits of a message edited later, or deleted. */
  lemma WipesJust(mods: Moderates, es: seq<Entry>, i: nat)
    requires DistinctIDs(es) && i < |es|
    ensures |Compacted(mods, es)| == |es|
    ensures var (e, now) := (es[i], Compacted(mods, es)[i]);
      && (now == e || now == e.(text := "", wiped := true))
      && (e.kind in {Reacted, Deleted} ==> now == e)
      && (e.kind in {Said, Attached} ==> (now.wiped <==> e.wiped || exists d :: d in es && Does(mods, d, e)))
      && (e.kind == Edited ==>
            (now.wiped <==>
               || e.wiped
               || exists t :: t in es && Does(mods, e, t) && IsReplaced(mods, es, t, i)))
  {
    var e := es[i];
    MessageIsGone(mods, es, e);
    forall t | t in es ensures Supersedes(mods, es, t, e) <==> e.kind == Edited && Does(mods, e, t) && IsReplaced(mods, es, t, i) { EditIsReplaced(mods, es, t, i); }
    hide LatestEdit, IsDeleted, Supersedes, Does, IsReplaced;
  }

  lemma MessageIsGone(mods: Moderates, es: seq<Entry>, e: Entry)
    ensures IsDeleted(mods, es, e) || LatestEdit(es, e).Some? <==> exists d :: d in es && Does(mods, d, e)
  {
    if d :| d in es && Does(mods, d, e) { assert d.kind == Deleted ==> Deletes(mods, d, e); }
    if d :| d in es && Deletes(mods, d, e) { assert Does(mods, d, e); }
    if LatestEdit(es, e).Some? { assert Does(mods, LatestEdit(es, e).value, e); }
  }

  /** After what es has at i, t was edited again; or it was deleted, before or after. */
  ghost predicate IsReplaced(mods: Moderates, es: seq<Entry>, t: Entry, i: nat) {
    || (exists d :: d in es && d.kind == Deleted && Does(mods, d, t))
    || (exists j :: i < j < |es| && es[j].kind == Edited && Does(mods, es[j], t))
  }

  lemma EditIsReplaced(mods: Moderates, es: seq<Entry>, t: Entry, i: nat)
    requires DistinctIDs(es) && i < |es|
    ensures Supersedes(mods, es, t, es[i]) <==> es[i].kind == Edited && Does(mods, es[i], t) && IsReplaced(mods, es, t, i)
  {
    var k := LatestWhere(mods, es, t);
    if Edits(es[i], t) {
      assert IsDeleted(mods, es, t) <==> exists d :: d in es && d.kind == Deleted && Does(mods, d, t);
      assert i <= k;
      hide IsDeleted, LatestEdit;
      assert es[k].id == es[i].id <==> k == i;
    }
  }

  /** The text of a message, or a file's name, that something was done to is kept all the same. */
  ghost predicate KeepsGone(mods: Moderates, es: seq<Entry>) {
    exists t, d :: t in es && d in es && t.kind in {Said, Attached} && !t.wiped && Does(mods, d, t)
  }

  /** Compaction leaves none; and so does writing, which compacts. */
  lemma CompactionKeepsNone(mods: Moderates, es: seq<Entry>)
    requires DistinctIDs(es)
    ensures !KeepsGone(mods, Compacted(mods, es))
  {
    var now := Compacted(mods, es);
    if t, d :| t in now && d in now && t.kind in {Said, Attached} && !t.wiped && Does(mods, d, t) {
      var i :| 0 <= i < |now| && now[i] == t;
      var j :| 0 <= j < |now| && now[j] == d;
      WipesJust(mods, es, i);
      WipesJust(mods, es, j);
      assert es[j] in es && Does(mods, es[j], es[i]);
      hide Compacted;
    }
  }

  /** Taking an edit or a deletion compacts; but a message that comes after what was done to it is kept whole until something compacts.
      Just then does taking an entry keep what was to be forgotten. */
  lemma AcceptingKeepsGoneIff(mods: Moderates, es: seq<Entry>, m: Entry)
    requires G.InOrder(es) && DistinctIDs(es) && !G.Conflicts(es, m) && !KeepsGone(mods, es)
    ensures KeepsGone(mods, G.Accepted(mods, es, m)) <==>
      m.kind in {Said, Attached} && !m.wiped && exists d :: d in es && Does(mods, d, m)
  {
    assert m.id !in G.IDs(es);
    G.PlacedInOrder(es, m);
    var stored := G.Placed(es, m);
    assert m.kind !in {Edited, Deleted} ==> G.Accepted(mods, es, m) == stored;
    assert m.kind in {Edited, Deleted} ==> G.Accepted(mods, es, m) == Compacted(mods, stored);
    hide *;
    if m.kind in {Edited, Deleted} { CompactionKeepsNone(mods, stored); } else { MoreKeepsGoneIff(mods, es, m, stored); }
  }

  lemma MoreKeepsGoneIff(mods: Moderates, es: seq<Entry>, m: Entry, now: seq<Entry>)
    requires !KeepsGone(mods, es) && m.kind !in {Edited, Deleted} && forall e :: e in now <==> e in es || e == m
    ensures KeepsGone(mods, now) <==> m.kind in {Said, Attached} && !m.wiped && exists d :: d in es && Does(mods, d, m)
  {
    if t, d :| t in now && d in now && t.kind in {Said, Attached} && !t.wiped && Does(mods, d, t) { assert d in es; }
    if d :| d in es && Does(mods, d, m) && m.kind in {Said, Attached} && !m.wiped { assert m in now && d in now; }
  }

  /** It happens: a member is passed the deletion first. */
  lemma LateTextIsKept(mods: Moderates, text: string)
    ensures var deletion := Entry(2, 7, 2, Time(2, 0), Deleted, "", Some(1), false, false, None);
      var message := Entry(1, 7, 1, Time(1, 0), Said, text, None, false, false, None);
      var es := G.Accepted(mods, G.Accepted(mods, [], deletion), message);
      message in es && KeepsGone(mods, es) && StandingOf(mods, es, message).deleted
  {
    var deletion := Entry(2, 7, 2, Time(2, 0), Deleted, "", Some(1), false, false, None);
    var message := Entry(1, 7, 1, Time(1, 0), Said, text, None, false, false, None);
    var es := [message, deletion];
    DeletionAlone(mods, deletion);
    MessageAfter(mods, deletion, message);
    hide *;
    assert es[0] in es && es[1] in es;
    LateStands(mods, message, deletion, es);
  }

  lemma DeletionAlone(mods: Moderates, d: Entry)
    requires d.kind == Deleted
    ensures G.Accepted(mods, [], d) == [d]
  {
    assert !IsGone(mods, [d], d) && !G.Conflicts([], d) && G.Place([], d) == 0;
    hide IsGone, G.Conflicts, G.Place;
    assert G.Placed([], d) == [d];
    assert Compacted(mods, [d]) == [d];
  }

  lemma MessageAfter(mods: Moderates, d: Entry, m: Entry)
    requires m.kind == Said && m.id != d.id && m.sequence != d.sequence && m.time.wall < d.time.wall
    ensures G.Accepted(mods, [d], m) == [m, d]
  {
    assert G.Placed([d], m) == [m, d];
  }

  lemma LateStands(mods: Moderates, m: Entry, d: Entry, es: seq<Entry>)
    requires es == [m, d] && m.kind == Said && !m.wiped && d.kind == Deleted && d.target == Some(m.id) && d.author == m.author
    ensures KeepsGone(mods, es) && StandingOf(mods, es, m).deleted
  {
    assert es[0] in es && es[1] in es && Does(mods, d, m);
    LastDoneShows(mods, es, m, 1);
    hide LastDone, LatestEdit, StandingOf;
  }

  // ---- What is written ----

  /** A member writes about nothing; or about a message of the channel, that does not show as deleted unless it is an answer: edits their own
      texts alone, and deletes their own messages and those of whom they moderate alone. */
  lemma WritesIff(mods: Moderates, es: seq<Entry>, me: Key, e: Entry)
    requires DistinctIDs(es) && WellFormed(es)
    ensures S.NotAllowed(mods, es, me, e).None? <==>
      e.target.None? || exists t :: t in es && IsToAnswer(mods, es, me, t, e)
  {
    hide StandingOf;
    if e.target.Some? {
      if Answered(es, e.target.value).Some? {
        var t := Answered(es, e.target.value).value;
        if !StandingOf(mods, es, t).deleted { FileStands(mods, es, t); }
        assert S.NotAllowed(mods, es, me, e).None? <==> IsToAnswer(mods, es, me, t, e);
      }
      if t :| t in es && IsToAnswer(mods, es, me, t, e) {
        PostsFold.AnsweredFinds(es, t);
      }
    }
  }

  ghost predicate IsToAnswer(mods: Moderates, es: seq<Entry>, me: Key, t: Entry, e: Entry) {
    && e.target == Some(t.id) && t.kind in {Said, Attached}
    && (e.kind == Said || !StandingOf(mods, es, t).deleted)
    && (e.kind == Edited ==> t.kind == Said && t.author == me)
    && (e.kind == Deleted ==> t.author == me || mods(me, t.author))
  }

  lemma FileStands(mods: Moderates, es: seq<Entry>, t: Entry)
    requires WellFormed(es) && t in es && !StandingOf(mods, es, t).deleted
    ensures StandingOf(mods, es, t).file.Some? <==> t.kind == Attached
  {
  }

  /** An entry passed on is kept if and only if no entry has its identifier, nor its number of its author's. */
  lemma TakesIff(mods: Moderates, es: seq<Entry>, m: Entry)
    ensures |G.Accepted(mods, es, m)| ==
      |es| + if exists e :: e in es && (e.id == m.id || (e.author == m.author && e.sequence == m.sequence)) then 0 else 1
  {
    assert |G.Placed(es, m)| == |es| + 1;
    hide G.Placed, IsGone;
  }
}
