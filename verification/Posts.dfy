/** What a channel shows of its entries, and the text no member keeps (internal/spaces/channel.go:40-122, 182-239). */
module Posts {
  import opened Basics
  import opened Reactions
  import C = Conversation

  datatype Kind = Said | Reacted | Edited | Deleted | Attached

  /** An entry of a channel: a message, which may answer another, a reaction (its emoji the text), an edit, a deletion
      or a file. A wiped entry's text is gone. */
  datatype Entry = Entry(id: ID, author: Key, sequence: nat, time: Time, kind: Kind, text: string, target: Option<ID>, on: bool,
    wiped: bool, file: Option<C.File>)

  /** Whether the first member moderates the second, as the space's state says (ADR 0041). */
  type Moderates = (Key, Key) -> bool

  datatype Post = Post(id: ID, author: Key, time: Time, text: string, edited: bool, deleted: bool, byModerator: bool,
    file: Option<C.File>, reactions: seq<Reaction>, replyTo: Option<C.Quote>)

  /** Whether entries of a kind show, rather than say something of those that do. */
  predicate IsPost(kind: Kind) { kind == Said || kind == Attached }

  predicate HasText(kind: Kind) { IsPost(kind) || kind == Edited }

  /** Only a message's author edits it, and a file's name is not edited. */
  predicate Edits(e: Entry, t: Entry) { e.kind == Edited && e.target == Some(t.id) && e.author == t.author && t.kind == Said }

  /** Its author deletes a message, or a moderator of its author. */
  predicate Deletes(mods: Moderates, e: Entry, t: Entry) {
    e.kind == Deleted && e.target == Some(t.id) && IsPost(t.kind) && (e.author == t.author || mods(e.author, t.author))
  }

  ghost predicate DistinctIDs(es: seq<Entry>) {
    forall i, j | 0 <= i < j < |es| :: es[i].id != es[j].id
  }

  /** What checking an entry leaves of the protocol's rules that matter here: a file and nothing else describes one,
      and a wiped entry has no text. */
  ghost predicate WellFormed(es: seq<Entry>) {
    forall e | e in es :: (e.kind == Attached <==> e.file.Some?) && (e.wiped ==> e.text == "")
  }

  // ---- What shows ----

  ghost predicate IsDeleted(mods: Moderates, es: seq<Entry>, t: Entry) {
    exists e :: e in es && Deletes(mods, e, t)
  }

  ghost predicate IsDeletedByModerator(mods: Moderates, es: seq<Entry>, t: Entry) {
    exists e :: e in es && Deletes(mods, e, t) && e.author != t.author
  }

  /** The last edit of t. */
  ghost function LatestEdit(es: seq<Entry>, t: Entry): (r: Option<Entry>)
    ensures r.Some? ==> r.value in es && Edits(r.value, t)
    ensures r.None? ==> forall e | e in es :: !Edits(e, t)
  {
    if es == [] then None
    else
      var (init, e) := (es[..|es| - 1], es[|es| - 1]);
      assert es == init + [e];
      if Edits(e, t) then Some(e) else LatestEdit(init, t)
  }

  /** The last thing done to t: an edit or a deletion. */
  ghost function LastDone(mods: Moderates, es: seq<Entry>, t: Entry): (r: Option<Entry>)
    ensures r.Some? ==> r.value in es && (Edits(r.value, t) || Deletes(mods, r.value, t))
    ensures r.None? ==> forall e | e in es :: !Edits(e, t) && !Deletes(mods, e, t)
    ensures r.Some? && Edits(r.value, t) ==> LatestEdit(es, t) == r
  {
    if es == [] then None
    else
      var (init, e) := (es[..|es| - 1], es[|es| - 1]);
      assert es == init + [e];
      if Edits(e, t) || Deletes(mods, e, t) then Some(e) else LastDone(mods, init, t)
  }

  datatype Standing = Standing(text: string, edited: bool, deleted: bool, byModerator: bool, file: Option<C.File>)

  /** How the message t stands: deleted if the last thing done to it deletes it, or, nothing done to it, if its text is
      gone; and otherwise of its latest text. */
  ghost function StandingOf(mods: Moderates, es: seq<Entry>, t: Entry): Standing {
    var (edit, last) := (LatestEdit(es, t), LastDone(mods, es, t));
    var byModerator := IsDeletedByModerator(mods, es, t);
    if if last.Some? then last.value.kind == Deleted else t.wiped then Standing("", false, true, byModerator, None)
    else Standing(if edit.Some? then edit.value.text else t.text, edit.Some?, false, byModerator, t.file)
  }

  ghost function ReactsOf(es: seq<Entry>): seq<React> {
    if es == [] then []
    else
      var e := es[|es| - 1];
      ReactsOf(es[..|es| - 1]) + if e.kind == Reacted && e.target.Some? then [React(e.target.value, e.author, e.text, e.on)] else []
  }

  /** The message of an identifier, if the channel has it. */
  ghost function Answered(es: seq<Entry>, id: ID): (r: Option<Entry>)
    ensures r.Some? ==> r.value in es && IsPost(r.value.kind) && r.value.id == id
  {
    if es == [] then None
    else if es[|es| - 1].id == id && IsPost(es[|es| - 1].kind) then Some(es[|es| - 1])
    else Answered(es[..|es| - 1], id)
  }

  ghost function QuoteOf(mods: Moderates, es: seq<Entry>, id: ID, me: Key): C.Quote {
    var t := Answered(es, id);
    if t.None? then C.Quote(id, 0, "", false, true, false)
    else
      var s := StandingOf(mods, es, t.value);
      C.Quote(id, t.value.author, C.Excerpt(s.text), t.value.author == me, false, s.deleted)
  }

  ghost function ShownAs(mods: Moderates, es: seq<Entry>, t: Entry, me: Key): Post {
    var s := StandingOf(mods, es, t);
    Post(t.id, t.author, t.time, s.text, s.edited, s.deleted, s.byModerator, s.file,
      if s.deleted then [] else Tally(ReactsOf(es), t.id, me),
      if t.kind != Said || t.target.None? then None else Some(QuoteOf(mods, es, t.target.value, me)))
  }

  /** The posts of part, as all of es leaves them. */
  ghost function ViewOf(mods: Moderates, es: seq<Entry>, part: seq<Entry>, me: Key): seq<Post> {
    if part == [] then []
    else
      var t := part[|part| - 1];
      ViewOf(mods, es, part[..|part| - 1], me) + if IsPost(t.kind) then [ShownAs(mods, es, t, me)] else []
  }

  /** The channel as me sees it. */
  ghost function View(mods: Moderates, es: seq<Entry>, me: Key): seq<Post> {
    ViewOf(mods, es, es, me)
  }

  // ---- What no member keeps ----

  /** e without its text. */
  function Wiped(e: Entry): Entry {
    if HasText(e.kind) then e.(text := "", wiped := true) else e
  }

  /** e is a message deleted, or edited, since; or an edit of one, deleted or edited again since. */
  ghost predicate IsGone(mods: Moderates, es: seq<Entry>, e: Entry) {
    || (IsPost(e.kind) && (IsDeleted(mods, es, e) || LatestEdit(es, e).Some?))
    || (e.kind == Edited && exists t :: t in es && Supersedes(mods, es, t, e))
  }

  /** t's edit e is not the text kept: t was deleted, or edited after e. */
  ghost predicate Supersedes(mods: Moderates, es: seq<Entry>, t: Entry, e: Entry) {
    Edits(e, t) && (IsDeleted(mods, es, t) || (LatestEdit(es, t).Some? && LatestEdit(es, t).value.id != e.id))
  }

  /** es as compaction leaves it. */
  ghost function Compacted(mods: Moderates, es: seq<Entry>): seq<Entry> {
    seq(|es|, i requires 0 <= i < |es| => if IsGone(mods, es, es[i]) && !es[i].wiped then Wiped(es[i]) else es[i])
  }

  /** now is es with the texts of some entries wiped, each of which was gone. */
  ghost predicate KeepsWhatIsKept(mods: Moderates, es: seq<Entry>, now: seq<Entry>) {
    |now| == |es| && forall i | 0 <= i < |es| :: now[i] == es[i] || (now[i] == Wiped(es[i]) && IsGone(mods, es, es[i]))
  }

  /** t was deleted, and the last thing done to it is an edit that still has its text: the channel shows it, edited, and
      compaction wipes what it shows. */
  ghost predicate IsRevived(mods: Moderates, es: seq<Entry>, t: Entry) {
    && t in es && IsDeleted(mods, es, t)
    && var last := LastDone(mods, es, t);
       last.Some? && last.value.kind == Edited && last.value.text != ""
  }

  ghost predicate NoneRevived(mods: Moderates, es: seq<Entry>) {
    forall t | t in es :: !IsRevived(mods, es, t)
  }

  /** t was deleted as those moderated who had its text wiped, and as those moderate who do now, it shows its text, or the
      last edit's: what shows was wiped. */
  ghost predicate IsLost(was: Moderates, mods: Moderates, es: seq<Entry>, t: Entry) {
    && t in es && IsDeleted(was, es, t)
    && var last := LastDone(mods, es, t);
       if last.None? then !t.wiped else last.value.kind == Edited && last.value.text != ""
  }

  ghost predicate NoneLost(was: Moderates, mods: Moderates, es: seq<Entry>) {
    forall t | t in es :: !IsLost(was, mods, es, t)
  }

  /** As long as the same moderate, what is lost is what was deleted and then edited. */
  lemma LostIfRevived(mods: Moderates, es: seq<Entry>, t: Entry)
    ensures IsLost(mods, mods, es, t) <==> IsRevived(mods, es, t)
  {
  }

  lemma NoneLostIff(mods: Moderates, es: seq<Entry>)
    ensures NoneLost(mods, mods, es) <==> NoneRevived(mods, es)
  {
    forall t ensures IsLost(mods, mods, es, t) <==> IsRevived(mods, es, t) { LostIfRevived(mods, es, t); }
    hide IsLost, IsRevived;
  }

  // ---- Wiping keeps what an entry is ----

  /** What names an entry, and says what it does: everything but its text. */
  function Core(e: Entry): Entry {
    if HasText(e.kind) then e.(text := "", wiped := false) else e
  }

  ghost predicate SameCores(es: seq<Entry>, now: seq<Entry>) {
    |now| == |es| && forall i | 0 <= i < |es| :: Core(now[i]) == Core(es[i])
  }

  lemma CoreSays(e: Entry, f: Entry)
    requires Core(f) == Core(e)
    ensures f.id == e.id && f.author == e.author && f.kind == e.kind && f.target == e.target && f.time == e.time && f.file == e.file && f.sequence == e.sequence
    ensures !HasText(e.kind) ==> f == e
    ensures forall t :: Edits(f, t) <==> Edits(e, t)
    ensures forall t :: Edits(t, f) <==> Edits(t, e)
    ensures forall mods, t :: Deletes(mods, f, t) <==> Deletes(mods, e, t)
    ensures forall mods, t :: Deletes(mods, t, f) <==> Deletes(mods, t, e)
  {
  }

  lemma DoesAlike(mods: Moderates, e: Entry, f: Entry, t: Entry, u: Entry)
    requires Core(f) == Core(e) && Core(u) == Core(t)
    ensures Edits(f, u) <==> Edits(e, t)
    ensures Deletes(mods, f, u) <==> Deletes(mods, e, t)
  {
  }

  /** The last edit is found at the same place. */
  lemma {:induction false} EditAlike(es: seq<Entry>, now: seq<Entry>, t: Entry, u: Entry) returns (at: nat)
    requires SameCores(es, now) && Core(u) == Core(t)
    ensures LatestEdit(now, u).Some? <==> LatestEdit(es, t).Some?
    ensures LatestEdit(es, t).Some? ==> at < |es| && LatestEdit(es, t).value == es[at] && LatestEdit(now, u).value == now[at]
  {
    at := 0;
    if es != [] {
      var n := |es| - 1;
      DoesAlike((_, _) => false, es[n], now[n], t, u);
      assert SameCores(es[..n], now[..n]);
      hide Core, Edits, SameCores;
      at := EditAlike(es[..n], now[..n], t, u);
      if Edits(es[n], t) { at := n; }
    }
  }

  /** And so is the last thing done. */
  lemma {:induction false} DoneAlike(mods: Moderates, es: seq<Entry>, now: seq<Entry>, t: Entry, u: Entry) returns (at: nat)
    requires SameCores(es, now) && Core(u) == Core(t)
    ensures LastDone(mods, now, u).Some? <==> LastDone(mods, es, t).Some?
    ensures LastDone(mods, es, t).Some? ==> at < |es| && LastDone(mods, es, t).value == es[at] && LastDone(mods, now, u).value == now[at]
  {
    at := 0;
    if es != [] {
      var n := |es| - 1;
      DoesAlike(mods, es[n], now[n], t, u);
      assert SameCores(es[..n], now[..n]);
      hide Core, Edits, Deletes, SameCores;
      at := DoneAlike(mods, es[..n], now[..n], t, u);
      if Edits(es[n], t) || Deletes(mods, es[n], t) { at := n; }
    }
  }

  lemma DeletedAlike(mods: Moderates, es: seq<Entry>, now: seq<Entry>, t: Entry, u: Entry)
    requires SameCores(es, now) && Core(u) == Core(t)
    ensures IsDeleted(mods, now, u) <==> IsDeleted(mods, es, t)
    ensures IsDeletedByModerator(mods, now, u) <==> IsDeletedByModerator(mods, es, t)
  {
    CoreSays(t, u);
    assert forall i | 0 <= i < |es| && es[i].kind == Deleted :: Core(now[i]) == Core(es[i]) && now[i] == es[i] && now[i] in now;
    assert forall i | 0 <= i < |now| && now[i].kind == Deleted :: Core(now[i]) == Core(es[i]) && now[i] == es[i] && es[i] in es;
  }

  /** Being gone is asked of what wiping keeps. */
  lemma GoneAlike(mods: Moderates, es: seq<Entry>, now: seq<Entry>, i: nat)
    requires SameCores(es, now) && i < |es|
    ensures IsGone(mods, now, now[i]) <==> IsGone(mods, es, es[i])
  {
    assert |now| == |es| && Core(now[i]) == Core(es[i]);
    CoreSays(es[i], now[i]);
    DeletedAlike(mods, es, now, es[i], now[i]);
    var _ := EditAlike(es, now, es[i], now[i]);
    hide IsDeleted, LatestEdit, SameCores, Supersedes, LastDone, Core, HasText, Edits, Deletes;
    if t :| t in es && Supersedes(mods, es, t, es[i]) {
      var j :| 0 <= j < |es| && es[j] == t;
      SupersedesAlike(mods, es, now, i, j);
      assert now[j] in now;
    }
    if t :| t in now && Supersedes(mods, now, t, now[i]) {
      var j :| 0 <= j < |now| && now[j] == t;
      SupersedesAlike(mods, es, now, i, j);
      assert es[j] in es;
    }
  }

  lemma SupersedesAlike(mods: Moderates, es: seq<Entry>, now: seq<Entry>, i: nat, j: nat)
    requires SameCores(es, now) && i < |es| && j < |es|
    ensures Supersedes(mods, now, now[j], now[i]) <==> Supersedes(mods, es, es[j], es[i])
  {
    assert Core(now[i]) == Core(es[i]) && Core(now[j]) == Core(es[j]);
    CoreSays(es[i], now[i]);
    CoreSays(es[j], now[j]);
    DeletedAlike(mods, es, now, es[j], now[j]);
    var edit := EditAlike(es, now, es[j], now[j]);
    if LatestEdit(es, es[j]).Some? { assert Core(now[edit]) == Core(es[edit]); }
  }

  // ---- Wiping does not show ----

  lemma StandsAlike(was: Moderates, mods: Moderates, es: seq<Entry>, now: seq<Entry>, i: nat)
    requires DistinctIDs(es) && WellFormed(es) && NoneLost(was, mods, es) && KeepsWhatIsKept(was, es, now)
    requires i < |es| && IsPost(es[i].kind)
    ensures StandingOf(mods, now, now[i]) == StandingOf(mods, es, es[i])
  {
    var t := es[i];
    KeptCores(was, es, now);
    assert Core(now[i]) == Core(t) && t in es;
    CoreSays(t, now[i]);
    DeletedAlike(mods, es, now, t, now[i]);
    var edit := EditAlike(es, now, t, now[i]);
    var last := DoneAlike(mods, es, now, t, now[i]);
    var done := LastDone(mods, es, t);
    assert !IsLost(was, mods, es, t);
    hide IsDeletedByModerator, KeepsWhatIsKept, SameCores, Core, NoneLost, LatestEdit, LastDone;
    if done.None? {
      UndoneStays(was, mods, es, now, i);
    } else {
      DoneStays(was, mods, es, now, t, last);
    }
  }

  /** A message nothing was done to keeps its text, or had none. */
  lemma UndoneStays(was: Moderates, mods: Moderates, es: seq<Entry>, now: seq<Entry>, i: nat)
    requires WellFormed(es) && KeepsWhatIsKept(was, es, now) && i < |es| && IsPost(es[i].kind)
    requires LastDone(mods, es, es[i]).None? && !IsLost(was, mods, es, es[i])
    ensures now[i] == es[i]
  {
    assert es[i] in es;
    assert LatestEdit(es, es[i]).None?;
  }

  /** And the last edit of one keeps its text, or had none. */
  lemma DoneStays(was: Moderates, mods: Moderates, es: seq<Entry>, now: seq<Entry>, t: Entry, last: nat)
    requires DistinctIDs(es) && KeepsWhatIsKept(was, es, now) && t in es && last < |es|
    requires LastDone(mods, es, t) == Some(es[last]) && !IsLost(was, mods, es, t)
    ensures now[last].kind == es[last].kind && (es[last].kind == Edited ==> now[last].text == es[last].text)
  {
    if es[last].kind == Edited && !IsDeleted(was, es, t) {
      LatestNotGone(was, es, t);
      assert now[last] == es[last];
    }
  }

  lemma KeptCores(mods: Moderates, es: seq<Entry>, now: seq<Entry>)
    requires KeepsWhatIsKept(mods, es, now)
    ensures SameCores(es, now)
  {
  }

  /** The latest edit of a message not deleted is not gone. */
  lemma LatestNotGone(mods: Moderates, es: seq<Entry>, t: Entry)
    requires DistinctIDs(es) && t in es && !IsDeleted(mods, es, t) && LatestEdit(es, t).Some?
    ensures !IsGone(mods, es, LatestEdit(es, t).value)
  {
    var e := LatestEdit(es, t).value;
    assert forall x | x in es && Edits(e, x) :: x == t;
  }

  lemma {:induction false} ReactsAlike(es: seq<Entry>, now: seq<Entry>)
    requires SameCores(es, now)
    ensures ReactsOf(now) == ReactsOf(es)
  {
    if es != [] {
      assert Core(now[|es| - 1]) == Core(es[|es| - 1]);
      ReactsAlike(es[..|es| - 1], now[..|es| - 1]);
    }
  }

  lemma {:induction false} AnsweredAlike(es: seq<Entry>, now: seq<Entry>, id: ID) returns (i: nat)
    requires SameCores(es, now)
    ensures Answered(es, id).Some? <==> Answered(now, id).Some?
    ensures Answered(es, id).Some? ==> i < |es| && Answered(es, id).value == es[i] && Answered(now, id).value == now[i]
  {
    i := 0;
    if es != [] {
      assert Core(now[|es| - 1]) == Core(es[|es| - 1]);
      i := AnsweredAlike(es[..|es| - 1], now[..|es| - 1], id);
      if es[|es| - 1].id == id && IsPost(es[|es| - 1].kind) { i := |es| - 1; }
    }
  }

  /** Every message stands in now as it does in es. */
  ghost predicate StandAlike(mods: Moderates, es: seq<Entry>, now: seq<Entry>) {
    |now| == |es| && forall i | 0 <= i < |es| && IsPost(es[i].kind) :: StandingOf(mods, now, now[i]) == StandingOf(mods, es, es[i])
  }

  lemma ShownAlike(mods: Moderates, es: seq<Entry>, now: seq<Entry>, i: nat, me: Key)
    requires SameCores(es, now) && StandAlike(mods, es, now) && i < |es| && IsPost(es[i].kind)
    ensures ShownAs(mods, now, now[i], me) == ShownAs(mods, es, es[i], me)
  {
    ReactsAlike(es, now);
    assert Core(now[i]) == Core(es[i]);
    CoreSays(es[i], now[i]);
    if es[i].target.Some? {
      var j := AnsweredAlike(es, now, es[i].target.value);
      if Answered(es, es[i].target.value).Some? {
        assert Core(now[j]) == Core(es[j]);
        CoreSays(es[j], now[j]);
      }
    }
    hide StandingOf, Core;
  }

  lemma {:induction false} ViewKeptOf(mods: Moderates, es: seq<Entry>, now: seq<Entry>, n: nat, me: Key)
    requires SameCores(es, now) && StandAlike(mods, es, now) && n <= |es|
    ensures |now| == |es| && ViewOf(mods, now, now[..n], me) == ViewOf(mods, es, es[..n], me)
  {
    if n > 0 {
      ViewKeptOf(mods, es, now, n - 1, me);
      ViewOfStep(mods, es, n, me);
      ViewOfStep(mods, now, n, me);
      SameKinds(es, now, n - 1);
      hide ViewOf, ShownAs, SameCores, StandAlike;
      if IsPost(es[n - 1].kind) { ShownAlike(mods, es, now, n - 1, me); }
    }
  }

  lemma StandingKeepsView(mods: Moderates, es: seq<Entry>, now: seq<Entry>, me: Key)
    requires SameCores(es, now) && StandAlike(mods, es, now)
    ensures View(mods, now, me) == View(mods, es, me)
  {
    ViewKeptOf(mods, es, now, |es|, me);
    assert es[..|es|] == es && now[..|es|] == now;
  }

  /** Compaction preserves the view, whoever moderates by the time it is seen: with any of the texts that compaction may wipe
      wiped, whichever and however many, a channel shows what it showed, unless it shows of a message deleted something that
      was wiped. */
  lemma WipingNeverShowsLater(was: Moderates, mods: Moderates, es: seq<Entry>, now: seq<Entry>, me: Key)
    requires DistinctIDs(es) && WellFormed(es) && NoneLost(was, mods, es) && KeepsWhatIsKept(was, es, now)
    ensures View(mods, now, me) == View(mods, es, me)
  {
    KeptCores(was, es, now);
    forall i | 0 <= i < |es| && IsPost(es[i].kind) ensures StandingOf(mods, now, now[i]) == StandingOf(mods, es, es[i]) {
      StandsAlike(was, mods, es, now, i);
    }
    hide StandingOf, View, NoneLost, SameCores, KeepsWhatIsKept;
    StandingKeepsView(mods, es, now, me);
  }

  /** In particular as long as the same moderate: a channel in which no deleted message was edited since shows what it
      showed. */
  lemma WipingNeverShows(mods: Moderates, es: seq<Entry>, now: seq<Entry>, me: Key)
    requires DistinctIDs(es) && WellFormed(es) && NoneRevived(mods, es) && KeepsWhatIsKept(mods, es, now)
    ensures View(mods, now, me) == View(mods, es, me)
  {
    NoneLostIff(mods, es);
    WipingNeverShowsLater(mods, mods, es, now, me);
  }

  // ---- When it would ----

  lemma ViewOfStep(mods: Moderates, es: seq<Entry>, n: nat, me: Key)
    requires 0 < n <= |es|
    ensures ViewOf(mods, es, es[..n], me) ==
      ViewOf(mods, es, es[..n - 1], me) + if IsPost(es[n - 1].kind) then [ShownAs(mods, es, es[n - 1], me)] else []
  {
    assert es[..n][..n - 1] == es[..n - 1];
    hide ShownAs;
  }

  lemma SameKinds(es: seq<Entry>, now: seq<Entry>, i: nat)
    requires SameCores(es, now) && i < |es|
    ensures i < |now| && now[i].kind == es[i].kind
  {
    assert Core(now[i]) == Core(es[i]);
  }

  lemma LastsAgree<T>(v: seq<T>, w: seq<T>, a: T, b: T)
    requires v + [a] == w + [b]
    ensures v == w && a == b
  {
    assert (v + [a])[|v|] == a && (w + [b])[|w|] == b;
    assert (v + [a])[..|v|] == v && (w + [b])[..|w|] == w;
  }

  lemma {:induction false} ViewsAgree(mods: Moderates, es: seq<Entry>, now: seq<Entry>, n: nat, i: nat, me: Key)
    requires SameCores(es, now) && i < n <= |es| && IsPost(es[i].kind)
    requires |now| == |es| && ViewOf(mods, now, now[..n], me) == ViewOf(mods, es, es[..n], me)
    ensures IsPost(now[i].kind) && ShownAs(mods, now, now[i], me) == ShownAs(mods, es, es[i], me)
  {
    hide ViewOf, ShownAs, SameCores, IsPost;
    ViewOfStep(mods, es, n, me);
    ViewOfStep(mods, now, n, me);
    SameKinds(es, now, n - 1);
    SameKinds(es, now, i);
    var (v, w) := (ViewOf(mods, es, es[..n - 1], me), ViewOf(mods, now, now[..n - 1], me));
    if IsPost(es[n - 1].kind) {
      LastsAgree(v, w, ShownAs(mods, es, es[n - 1], me), ShownAs(mods, now, now[n - 1], me));
    } else {
      assert v + [] == v && w + [] == w;
    }
    if i < n - 1 { ViewsAgree(mods, es, now, n - 1, i, me); }
  }

  /** A message edited after its deletion shows its text; compaction wipes the edit, and leaves it shown as edited,
      with no text at all. */
  lemma RevivedIsLost(mods: Moderates, es: seq<Entry>, i: nat)
    requires WellFormed(es) && i < |es| && IsRevived(mods, es, es[i])
    ensures var s := StandingOf(mods, es, es[i]); !s.deleted && s.edited && s.text != ""
    ensures var s := StandingOf(mods, Compacted(mods, es), Compacted(mods, es)[i]); !s.deleted && s.edited && s.text == ""
  {
    var (t, now) := (es[i], Compacted(mods, es));
    assert SameCores(es, now) && Core(now[i]) == Core(t);
    CoreSays(t, now[i]);
    var edit := EditAlike(es, now, t, now[i]);
    var last := DoneAlike(mods, es, now, t, now[i]);
    assert Core(now[last]) == Core(es[last]);
    CoreSays(es[last], now[last]);
    assert Supersedes(mods, es, t, es[last]);
    assert IsGone(mods, es, es[last]) && !es[last].wiped && now[last] == Wiped(es[last]);
  }

  lemma RevivedShows(mods: Moderates, es: seq<Entry>, t: Entry, me: Key)
    requires WellFormed(es) && IsRevived(mods, es, t)
    ensures View(mods, Compacted(mods, es), me) != View(mods, es, me)
  {
    LostIfRevived(mods, es, t);
    LostShows(mods, mods, es, t, me);
  }

  /** What is lost of a message: its last edit's text, or all of it, so that it shows as deleted. */
  lemma LostStands(was: Moderates, mods: Moderates, es: seq<Entry>, i: nat)
    requires WellFormed(es) && i < |es| && IsLost(was, mods, es, es[i])
    ensures var (s, now) := (StandingOf(mods, es, es[i]), Compacted(was, es));
      var z := StandingOf(mods, now, now[i]);
      !s.deleted && (if LastDone(mods, es, es[i]).None? then z.deleted else s.text != "" && z.text == "")
  {
    var (t, now) := (es[i], Compacted(was, es));
    CompactedCores(was, es);
    assert Core(now[i]) == Core(t);
    CoreSays(t, now[i]);
    var edit := EditAlike(es, now, t, now[i]);
    var last := DoneAlike(mods, es, now, t, now[i]);
    if LastDone(mods, es, t).None? {
      assert IsGone(was, es, t) && now[i] == Wiped(t);
    } else {
      assert Core(now[last]) == Core(es[last]);
      CoreSays(es[last], now[last]);
      assert Supersedes(was, es, t, es[last]);
      assert IsGone(was, es, es[last]) && now[last].text == "";
    }
    hide IsGone, IsDeleted, IsDeletedByModerator, SameCores, Core;
  }

  lemma LostShows(was: Moderates, mods: Moderates, es: seq<Entry>, t: Entry, me: Key)
    requires WellFormed(es) && IsLost(was, mods, es, t)
    ensures View(mods, Compacted(was, es), me) != View(mods, es, me)
  {
    var now := Compacted(was, es);
    var i :| 0 <= i < |es| && es[i] == t;
    LostStands(was, mods, es, i);
    CompactedCores(was, es);
    DeletedIsPost(was, es, t);
    assert |now| == |es|;
    hide Compacted, StandingOf, IsLost;
    ShownDiffers(mods, es, now, i, me);
  }

  lemma DeletedIsPost(mods: Moderates, es: seq<Entry>, t: Entry)
    ensures IsDeleted(mods, es, t) ==> IsPost(t.kind)
  {
  }

  lemma ShownDiffers(mods: Moderates, es: seq<Entry>, now: seq<Entry>, i: nat, me: Key)
    requires SameCores(es, now) && i < |es| && |now| == |es| && IsPost(es[i].kind)
    requires StandingOf(mods, now, now[i]) != StandingOf(mods, es, es[i])
    ensures View(mods, now, me) != View(mods, es, me)
  {
    StandingShows(mods, es, now, i, me);
    ViewIs(mods, es, me);
    ViewIs(mods, now, me);
    hide *;
    if View(mods, now, me) == View(mods, es, me) { ViewsAgree(mods, es, now, |es|, i, me); }
  }

  lemma ViewIs(mods: Moderates, es: seq<Entry>, me: Key)
    ensures View(mods, es, me) == ViewOf(mods, es, es[..|es|], me)
  {
    assert es[..|es|] == es;
    hide ViewOf;
  }

  lemma StandingShows(mods: Moderates, es: seq<Entry>, now: seq<Entry>, i: nat, me: Key)
    requires i < |es| && i < |now| && StandingOf(mods, now, now[i]) != StandingOf(mods, es, es[i])
    ensures ShownAs(mods, now, now[i], me) != ShownAs(mods, es, es[i], me)
  {
    hide StandingOf, QuoteOf, Tally, ReactsOf;
  }

  lemma CompactedCores(mods: Moderates, es: seq<Entry>)
    ensures SameCores(es, Compacted(mods, es)) && KeepsWhatIsKept(mods, es, Compacted(mods, es))
  {
  }

  /** Compacted while some moderate, and seen when others do, a channel shows what it would have, if and only if it shows
      nothing of a message that was deleted: the last thing done to it deletes it now, or is an edit that has no text; or
      nothing was done to it now, and its text was gone before. */
  lemma CompactionShowsNothingLaterIff(was: Moderates, mods: Moderates, es: seq<Entry>, me: Key)
    requires DistinctIDs(es) && WellFormed(es)
    ensures View(mods, Compacted(was, es), me) == View(mods, es, me) <==> NoneLost(was, mods, es)
  {
    if NoneLost(was, mods, es) {
      CompactedCores(was, es);
      WipingNeverShowsLater(was, mods, es, Compacted(was, es), me);
    } else {
      var t :| t in es && IsLost(was, mods, es, t);
      LostShows(was, mods, es, t, me);
    }
  }

  /** Compacting a channel changes nothing it shows, if and only if no message of it was deleted and then edited. */
  lemma CompactionShowsNothingIff(mods: Moderates, es: seq<Entry>, me: Key)
    requires DistinctIDs(es) && WellFormed(es)
    ensures View(mods, Compacted(mods, es), me) == View(mods, es, me) <==> NoneRevived(mods, es)
  {
    CompactionShowsNothingLaterIff(mods, mods, es, me);
    NoneLostIff(mods, es);
  }

  /** A moderator deletes a message while its author, who does not know it yet, edits it with a later clock. */
  lemma DeletedCanBeRevived(mods: Moderates, me: Key)
    requires mods(9, 7)
    ensures var said := Entry(1, 7, 1, Time(1, 0), Said, "hello", None, false, false, None);
      var deletion := Entry(2, 9, 1, Time(2, 0), Deleted, "", Some(1), false, false, None);
      var edit := Entry(3, 7, 2, Time(3, 0), Edited, "hello!", Some(1), false, false, None);
      && WellFormed([said, deletion, edit]) && DistinctIDs([said, deletion, edit]) && !NoneRevived(mods, [said, deletion, edit])
      && View(mods, Compacted(mods, [said, deletion, edit]), me) != View(mods, [said, deletion, edit], me)
  {
    var said := Entry(1, 7, 1, Time(1, 0), Said, "hello", None, false, false, None);
    var deletion := Entry(2, 9, 1, Time(2, 0), Deleted, "", Some(1), false, false, None);
    var edit := Entry(3, 7, 2, Time(3, 0), Edited, "hello!", Some(1), false, false, None);
    assert Deletes(mods, deletion, said);
    assert IsRevived(mods, [said, deletion, edit], said);
    RevivedShows(mods, [said, deletion, edit], said, me);
  }

  // ---- Channels of the same entries ----

  /** Of the i-th entry, a message, x and y say the same: it is deleted; or both have the text that shows of it, or neither. */
  ghost predicate SaysAlike(mods: Moderates, x: seq<Entry>, y: seq<Entry>, i: nat)
    requires i < |x| && i < |y|
  {
    var (d, e) := (LastDone(mods, x, x[i]), LastDone(mods, y, y[i]));
    if d.None? then x[i].wiped == y[i].wiped && x[i].text == y[i].text
    else d.value.kind == Edited ==> e.Some? && d.value.text == e.value.text
  }

  /** How a message stands is decided by the last thing done to it. */
  lemma StandingIs(mods: Moderates, es: seq<Entry>, t: Entry)
    ensures var (d, byModerator) := (LastDone(mods, es, t), IsDeletedByModerator(mods, es, t));
      StandingOf(mods, es, t) ==
        if if d.None? then t.wiped else d.value.kind == Deleted then Standing("", false, true, byModerator, None)
        else Standing(if d.None? then t.text else d.value.text, d.Some?, false, byModerator, t.file)
  {
    hide IsDeletedByModerator;
    if LastDone(mods, es, t).None? && LatestEdit(es, t).Some? { assert false; }
  }

  lemma StandsAlikeIff(mods: Moderates, x: seq<Entry>, y: seq<Entry>, i: nat)
    requires SameCores(x, y) && |y| == |x| && WellFormed(x) && WellFormed(y) && i < |x| && IsPost(x[i].kind)
    ensures StandingOf(mods, y, y[i]) == StandingOf(mods, x, x[i]) <==> SaysAlike(mods, x, y, i)
  {
    assert Core(y[i]) == Core(x[i]) && x[i] in x && y[i] in y;
    StandingIs(mods, x, x[i]);
    StandingIs(mods, y, y[i]);
    DeletedAlike(mods, x, y, x[i], y[i]);
    var last := DoneAlike(mods, x, y, x[i], y[i]);
    CoreSays(x[i], y[i]);
    if LastDone(mods, x, x[i]).Some? {
      assert Core(y[last]) == Core(x[last]);
      CoreSays(x[last], y[last]);
    }
    hide SameCores, Core, IsDeletedByModerator, IsDeleted, StandingOf, LastDone, LatestEdit;
  }

  /** Two channels of the same entries, whatever was wiped of each, show the same if and only if they say the same of each
      message. */
  lemma SameEntriesShowAlikeIff(mods: Moderates, x: seq<Entry>, y: seq<Entry>, me: Key)
    requires SameCores(x, y) && WellFormed(x) && WellFormed(y)
    ensures View(mods, y, me) == View(mods, x, me) <==> forall i | 0 <= i < |x| && IsPost(x[i].kind) :: SaysAlike(mods, x, y, i)
  {
    forall i | 0 <= i < |x| && IsPost(x[i].kind) ensures StandingOf(mods, y, y[i]) == StandingOf(mods, x, x[i]) <==> SaysAlike(mods, x, y, i) {
      StandsAlikeIff(mods, x, y, i);
    }
    assert |x| == |y|;
    hide StandingOf, View, SameCores, WellFormed, SaysAlike;
    if i :| 0 <= i < |x| && IsPost(x[i].kind) && !SaysAlike(mods, x, y, i) {
      ShownDiffers(mods, x, y, i, me);
    } else {
      StandingKeepsView(mods, x, y, me);
    }
  }

  // ---- Whoever moderates ----

  /** Whom was moderates, mods does too. */
  ghost predicate ModeratesMore(was: Moderates, mods: Moderates) { forall k: Key, l: Key :: was(k, l) ==> mods(k, l) }

  /** The more moderate, the more is gone. */
  lemma MoreModerateMoreGone(was: Moderates, mods: Moderates, es: seq<Entry>, e: Entry)
    requires ModeratesMore(was, mods) && IsGone(was, es, e)
    ensures IsGone(mods, es, e)
  {
    if e.kind == Edited {
      var t :| t in es && Supersedes(was, es, t, e);
      assert Supersedes(mods, es, t, e);
    }
  }

  /** A moderator deletes a message, and is then made a plain member: whoever was told of the deletion first has wiped it, and
      shows it as deleted; whoever was told of the demotion first shows it as it was said, for good. */
  lemma DemotionIsLost(was: Moderates, mods: Moderates, me: Key)
    requires was(9, 7) && !mods(9, 7)
    ensures var said := Entry(1, 7, 1, Time(1, 0), Said, "hello", None, false, false, None);
      var deletion := Entry(2, 9, 1, Time(2, 0), Deleted, "", Some(1), false, false, None);
      var es := [said, deletion];
      && WellFormed(es) && DistinctIDs(es) && NoneRevived(was, es) && NoneRevived(mods, es)
      && View(mods, Compacted(was, es), me) != View(mods, es, me) && Compacted(mods, es) == es
      && Compacted(mods, Compacted(was, es)) != Compacted(mods, es)
  {
    var said := Entry(1, 7, 1, Time(1, 0), Said, "hello", None, false, false, None);
    var deletion := Entry(2, 9, 1, Time(2, 0), Deleted, "", Some(1), false, false, None);
    var es := [said, deletion];
    assert Deletes(was, deletion, said) && !Deletes(mods, deletion, said) && es[..1] == [said];
    assert IsLost(was, mods, es, said);
    LostShows(was, mods, es, said, me);
    assert IsGone(was, es, said) && !IsGone(mods, es, said) && !IsGone(mods, es, deletion);
    assert Compacted(was, es)[0] == Wiped(said) && Compacted(mods, Compacted(was, es))[0].wiped;
  }

  // ---- Whenever, and however often ----

  /** A channel some of whose gone texts were wiped is compacted to what the channel whole would be. */
  lemma CompactionIsConfluent(mods: Moderates, es: seq<Entry>, now: seq<Entry>)
    requires WellFormed(es) && KeepsWhatIsKept(mods, es, now)
    ensures Compacted(mods, now) == Compacted(mods, es)
  {
    KeptCores(mods, es, now);
    forall i | 0 <= i < |es| ensures Compacted(mods, now)[i] == Compacted(mods, es)[i] {
      GoneAlike(mods, es, now, i);
      hide IsGone;
      assert es[i] in es;
    }
  }

  lemma CompactionIsIdempotent(mods: Moderates, es: seq<Entry>)
    requires WellFormed(es)
    ensures Compacted(mods, Compacted(mods, es)) == Compacted(mods, es)
  {
    CompactionIsConfluent(mods, es, Compacted(mods, es));
  }
}
