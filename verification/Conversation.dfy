/** What a conversation shows of its entries, and the text no peer keeps. */
module Conversation {
  // internal/messages/entries.go:85-205 and internal/messages/store.go:210-272.

  import opened Basics
  import opened Reactions

  datatype Kind = Text | Reacting | Editing | Deleting | Attaching

  /** Whether entries of a kind are messages, rather than entries about them. */
  predicate IsMessage(kind: Kind) { kind == Text || kind == Attaching }

  /** What a file entry describes; how much of it is held here is not the entry's. */
  datatype File = File(size: nat, kind: string, digest: Hash, orientation: nat)

  /** An entry: a message, a reaction (its emoji the text), an edit or a deletion. A wiped entry's text is gone; a
      hidden message was deleted on this machine alone. */
  datatype Entry = Entry(id: ID, author: Key, sequence: nat, time: Time, kind: Kind, text: string, target: Option<ID>, on: bool,
    wiped: bool, hidden: bool, file: Option<File>)

  /** What a reply shows of the message it answers. */
  datatype Quote = Quote(id: ID, author: Key, text: string, mine: bool, missing: bool, deleted: bool)

  /** A message as it shows, but for where it is on its way. */
  datatype Shown = Shown(id: ID, author: Key, sequence: nat, time: Time, kind: Kind, target: Option<ID>,
    text: string, edited: bool, deleted: bool, file: Option<File>, reactions: seq<Reaction>, replyTo: Option<Quote>)

  predicate Visible(e: Entry) { IsMessage(e.kind) && !e.hidden }

  predicate Owns(e: Entry, t: Entry) { e.target == Some(t.id) && e.author == t.author }

  predicate Edits(e: Entry, t: Entry) { e.kind == Editing && Owns(e, t) }

  predicate Deletes(e: Entry, t: Entry) { e.kind == Deleting && Owns(e, t) }

  ghost predicate DistinctIDs(es: seq<Entry>) {
    forall i, j | 0 <= i < j < |es| :: es[i].id != es[j].id
  }

  // ---- What shows ----

  ghost predicate IsDeleted(es: seq<Entry>, t: Entry) {
    exists e :: e in es && Deletes(e, t)
  }

  /** The latest of t's edits, of those that keep their text if whole. */
  ghost function LatestEdit(es: seq<Entry>, t: Entry, whole: bool): (r: Option<Entry>)
    ensures r.Some? ==> r.value in es && Edits(r.value, t) && (whole ==> !r.value.wiped)
    ensures r.None? ==> forall e | e in es && Edits(e, t) :: whole && e.wiped
  {
    if es == [] then None
    else
      var (init, e) := (es[..|es| - 1], es[|es| - 1]);
      assert es == init + [e];
      if Edits(e, t) && (whole ==> !e.wiped) then Some(e) else LatestEdit(init, t, whole)
  }

  datatype Said = Said(text: string, edited: bool, deleted: bool, file: Option<File>)

  /** What its own author's entries leave of the message t. */
  ghost function SaidOf(es: seq<Entry>, t: Entry): Said {
    var edit := if t.kind == Text then LatestEdit(es, t, true) else None;
    if IsDeleted(es, t) || (t.wiped && edit.None?) then Said("", false, true, None)
    else Said(if edit.Some? then edit.value.text else t.text, edit.Some?, false, t.file)
  }

  ghost function ReactsOf(es: seq<Entry>): seq<React> {
    if es == [] then []
    else
      var e := es[|es| - 1];
      ReactsOf(es[..|es| - 1]) + if e.kind == Reacting && e.target.Some? then [React(e.target.value, e.author, e.text, e.on)] else []
  }

  const EXCERPT := 140

  function Excerpt(text: string): string {
    if |text| > EXCERPT then text[..EXCERPT] + "\U{2026}" else text
  }

  /** The message of an identifier, if it shows. */
  ghost function Answered(es: seq<Entry>, id: ID): (r: Option<Entry>)
    ensures r.Some? ==> r.value in es && Visible(r.value) && r.value.id == id
  {
    if es == [] then None
    else if es[|es| - 1].id == id && Visible(es[|es| - 1]) then Some(es[|es| - 1])
    else Answered(es[..|es| - 1], id)
  }

  ghost function QuoteOf(es: seq<Entry>, id: ID, me: Key): Quote {
    var t := Answered(es, id);
    if t.None? then Quote(id, 0, "", false, true, false)
    else
      var s := SaidOf(es, t.value);
      Quote(id, t.value.author, Excerpt(s.text), t.value.author == me, false, s.deleted)
  }

  ghost function ShownAs(es: seq<Entry>, t: Entry, me: Key): Shown {
    var s := SaidOf(es, t);
    Shown(t.id, t.author, t.sequence, t.time, t.kind, t.target, s.text, s.edited, s.deleted, s.file,
      if s.deleted then [] else Tally(ReactsOf(es), t.id, me),
      if t.target.None? then None else Some(QuoteOf(es, t.target.value, me)))
  }

  /** The messages of part, as all of es leaves them. */
  ghost function ViewOf(es: seq<Entry>, part: seq<Entry>, me: Key): seq<Shown> {
    if part == [] then []
    else
      var t := part[|part| - 1];
      ViewOf(es, part[..|part| - 1], me) + if Visible(t) then [ShownAs(es, t, me)] else []
  }

  /** The conversation as me sees it. */
  ghost function View(es: seq<Entry>, me: Key): seq<Shown> {
    ViewOf(es, es, me)
  }

  // ---- What no peer keeps ----

  /** e without its text. */
  function Wiped(e: Entry): Entry { e.(text := "", wiped := true) }

  /** e is a message deleted, or edited, since; or an edit of one, deleted or edited again since. */
  ghost predicate IsGone(es: seq<Entry>, e: Entry) {
    || (IsMessage(e.kind) && (IsDeleted(es, e) || LatestEdit(es, e, false).Some?))
    || (e.kind == Editing && exists t :: t in es && Supersedes(es, t, e))
  }

  /** t's edit e shows no more: t was deleted, or edited after e. */
  ghost predicate Supersedes(es: seq<Entry>, t: Entry, e: Entry) {
    IsMessage(t.kind) && Edits(e, t) && (IsDeleted(es, t) || (LatestEdit(es, t, false).Some? && LatestEdit(es, t, false).value.id != e.id))
  }

  /** now is es with the texts of some entries wiped, each of which was gone, or hidden here. */
  ghost predicate KeepsWhatShows(es: seq<Entry>, now: seq<Entry>) {
    |now| == |es| && forall i | 0 <= i < |es| :: now[i] == es[i] || (now[i] == Wiped(es[i]) && (IsGone(es, es[i]) || es[i].hidden))
  }

  ghost predicate Whole(es: seq<Entry>) {
    forall e | e in es :: !e.wiped
  }

  /** Only messages are hidden. */
  ghost predicate HidesMessages(es: seq<Entry>) {
    forall e | e in es && e.hidden :: IsMessage(e.kind)
  }

  /** A file that shows, and was not deleted, was edited: what the fold takes no edit of is compacted all the same. */
  ghost predicate IsEditedFile(es: seq<Entry>, t: Entry) {
    t in es && Visible(t) && t.kind == Attaching && !IsDeleted(es, t) && LatestEdit(es, t, false).Some?
  }

  ghost predicate NoEditedFile(es: seq<Entry>) {
    forall t | t in es :: !IsEditedFile(es, t)
  }

  // ---- Wiping does not show ----

  /** The entries now are those of es, each with what names it unchanged. */
  ghost predicate Alike(es: seq<Entry>, now: seq<Entry>) {
    |now| == |es| && forall i | 0 <= i < |es| :: now[i] == es[i] || now[i] == Wiped(es[i])
  }

  /** What names an entry, and says what it is about: everything but its text, and what became of it. */
  function Core(e: Entry): Entry { e.(text := "", wiped := false, hidden := false) }

  ghost predicate SameCores(es: seq<Entry>, now: seq<Entry>) {
    |now| == |es| && forall i | 0 <= i < |es| :: Core(now[i]) == Core(es[i])
  }

  lemma {:induction false} DeletedAlike(es: seq<Entry>, now: seq<Entry>, t: Entry)
    requires SameCores(es, now)
    ensures IsDeleted(now, t) <==> IsDeleted(es, t)
  {
    if IsDeleted(es, t) {
      var i :| 0 <= i < |es| && Deletes(es[i], t);
      assert now[i] in now;
    }
    if IsDeleted(now, t) {
      var i :| 0 <= i < |now| && Deletes(now[i], t);
      assert es[i] in es;
    }
  }

  lemma {:induction false} ReactsAlike(es: seq<Entry>, now: seq<Entry>)
    requires Alike(es, now)
    requires forall i | 0 <= i < |es| && es[i].kind == Reacting :: now[i] == es[i]
    ensures ReactsOf(now) == ReactsOf(es)
  {
    if es != [] { ReactsAlike(es[..|es| - 1], now[..|es| - 1]); }
  }

  lemma {:induction false} LatestAlike(es: seq<Entry>, now: seq<Entry>, t: Entry)
    requires SameCores(es, now)
    ensures LatestEdit(now, t, false).Some? <==> LatestEdit(es, t, false).Some?
    ensures LatestEdit(es, t, false).Some? ==> LatestEdit(now, t, false).value.id == LatestEdit(es, t, false).value.id
  {
    if es != [] { LatestAlike(es[..|es| - 1], now[..|es| - 1], t); }
  }

  /** If the latest edit is not wiped, it is the latest of those that keep their text. */
  lemma {:induction false} LatestKept(es: seq<Entry>, now: seq<Entry>, t: Entry)
    requires Alike(es, now) && Whole(es)
    requires forall i | 0 <= i < |es| && LatestEdit(es, t, false) == Some(es[i]) :: now[i] == es[i]
    ensures LatestEdit(now, t, true) == LatestEdit(es, t, true) == LatestEdit(es, t, false)
  {
    if es != [] {
      var n := |es| - 1;
      assert es[n] in es;
      if !Edits(es[n], t) {
        assert Whole(es[..n]);
        LatestKept(es[..n], now[..n], t);
      }
    }
  }

  /** The latest edit of a message not deleted is not gone. */
  lemma LatestNotGone(es: seq<Entry>, t: Entry)
    requires DistinctIDs(es) && t in es && IsMessage(t.kind) && !IsDeleted(es, t) && LatestEdit(es, t, false).Some?
    ensures !IsGone(es, LatestEdit(es, t, false).value)
  {
    var e := LatestEdit(es, t, false).value;
    assert forall x | x in es && Edits(e, x) :: x == t;
  }

  lemma SaidKept(es: seq<Entry>, now: seq<Entry>, i: nat)
    requires DistinctIDs(es) && Whole(es) && HidesMessages(es) && KeepsWhatShows(es, now) && NoEditedFile(es)
    requires i < |es| && Visible(es[i])
    ensures SaidOf(now, now[i]) == SaidOf(es, es[i])
  {
    var t := es[i];
    DeletedAlike(es, now, t);
    if !IsDeleted(es, t) {
      if LatestEdit(es, t, false).Some? {
        assert t in es && !IsEditedFile(es, t);
        LatestNotGone(es, t);
        LatestKept(es, now, t);
      } else {
        assert now[i] == t;
        LatestKept(es, now, t);
      }
    }
    AskedAlike(now, t, now[i]);
  }

  lemma {:induction false} AnsweredAlike(es: seq<Entry>, now: seq<Entry>, id: ID) returns (i: nat)
    requires Alike(es, now)
    ensures Answered(es, id).Some? <==> Answered(now, id).Some?
    ensures Answered(es, id).Some? ==> i < |es| && Answered(es, id).value == es[i] && Answered(now, id).value == now[i]
  {
    i := 0;
    if es != [] {
      i := AnsweredAlike(es[..|es| - 1], now[..|es| - 1], id);
      if es[|es| - 1].id == id && Visible(es[|es| - 1]) { i := |es| - 1; }
    }
  }

  lemma ShownKept(es: seq<Entry>, now: seq<Entry>, i: nat, me: Key)
    requires DistinctIDs(es) && Whole(es) && HidesMessages(es) && KeepsWhatShows(es, now) && NoEditedFile(es)
    requires i < |es| && Visible(es[i])
    ensures ShownAs(now, now[i], me) == ShownAs(es, es[i], me)
  {
    SaidKept(es, now, i);
    assert forall e | e in es && e.kind == Reacting :: !IsGone(es, e) && !e.hidden;
    ReactsAlike(es, now);
    if es[i].target.Some? {
      var j := AnsweredAlike(es, now, es[i].target.value);
      if Answered(es, es[i].target.value).Some? { SaidKept(es, now, j); }
    }
  }

  lemma {:induction false} ViewKeptOf(es: seq<Entry>, now: seq<Entry>, n: nat, me: Key)
    requires DistinctIDs(es) && Whole(es) && HidesMessages(es) && KeepsWhatShows(es, now) && NoEditedFile(es)
    requires n <= |es|
    ensures ViewOf(now, now[..n], me) == ViewOf(es, es[..n], me)
  {
    if n > 0 {
      ViewKeptOf(es, now, n - 1, me);
      assert es[..n][..n - 1] == es[..n - 1] && now[..n][..n - 1] == now[..n - 1];
      if Visible(es[n - 1]) { ShownKept(es, now, n - 1, me); }
    }
  }

  /** Compaction preserves the view: with any of the texts that compaction may wipe wiped, whichever and however
      many, a conversation shows what it showed whole. */
  lemma WipingNeverShows(es: seq<Entry>, now: seq<Entry>, me: Key)
    requires DistinctIDs(es) && Whole(es) && HidesMessages(es) && KeepsWhatShows(es, now) && NoEditedFile(es)
    ensures View(now, me) == View(es, me)
  {
    ViewKeptOf(es, now, |es|, me);
    assert es[..|es|] == es && now[..|es|] == now;
  }

  // ---- When it would ----

  /** es as compaction leaves it: everything gone is wiped, but for what still waits to be delivered. */
  ghost function Compacted(es: seq<Entry>, waiting: set<ID>): seq<Entry> {
    seq(|es|, i requires 0 <= i < |es| => CompactedEntry(es, waiting, es[i]))
  }

  ghost function CompactedEntry(es: seq<Entry>, waiting: set<ID>, e: Entry): Entry {
    if IsGone(es, e) && !e.wiped && e.id !in waiting then Wiped(e) else e
  }

  lemma {:induction false} ViewsAgree(es: seq<Entry>, now: seq<Entry>, n: nat, i: nat, me: Key)
    requires Alike(es, now) && i < n <= |es| && Visible(es[i])
    requires ViewOf(now, now[..n], me) == ViewOf(es, es[..n], me)
    ensures ShownAs(now, now[i], me) == ShownAs(es, es[i], me)
  {
    assert es[..n][..n - 1] == es[..n - 1] && now[..n][..n - 1] == now[..n - 1];
    var (v, w) := (ViewOf(es, es[..n], me), ViewOf(now, now[..n], me));
    if Visible(es[n - 1]) {
      assert v[..|v| - 1] == ViewOf(es, es[..n - 1], me) && w[..|w| - 1] == ViewOf(now, now[..n - 1], me);
      assert v[|v| - 1] == ShownAs(es, es[n - 1], me) && w[|w| - 1] == ShownAs(now, now[n - 1], me);
    } else {
      assert v == ViewOf(es, es[..n - 1], me) && w == ViewOf(now, now[..n - 1], me);
    }
    if i < n - 1 { ViewsAgree(es, now, n - 1, i, me); }
  }

  /** The fold ignores an edit of a file; compaction wipes the file's name for it, and the file shows as deleted. */
  lemma EditedFileIsLost(es: seq<Entry>, i: nat, me: Key)
    requires Whole(es) && i < |es| && IsEditedFile(es, es[i])
    ensures !ShownAs(es, es[i], me).deleted && ShownAs(Compacted(es, {}), Compacted(es, {})[i], me).deleted
  {
    assert es[i] in es;
  }

  lemma EditedFileShows(es: seq<Entry>, t: Entry, me: Key)
    requires Whole(es) && IsEditedFile(es, t)
    ensures View(Compacted(es, {}), me) != View(es, me)
  {
    var now := Compacted(es, {});
    var i :| 0 <= i < |es| && es[i] == t;
    EditedFileIsLost(es, i, me);
    assert Alike(es, now) && es[..|es|] == es && now[..|es|] == now;
    hide ShownAs, Compacted, LatestEdit, IsDeleted;
    if View(now, me) == View(es, me) { ViewsAgree(es, now, |es|, i, me); }
  }

  lemma CompactedKeepsWhatShows(es: seq<Entry>, waiting: set<ID>)
    ensures KeepsWhatShows(es, Compacted(es, waiting))
  {
  }

  /** Compacting a conversation of whole entries changes nothing it shows, if and only if nobody edited a file of
      theirs that shows and was not deleted. */
  lemma CompactionShowsNothingIff(es: seq<Entry>, me: Key)
    requires DistinctIDs(es) && Whole(es) && HidesMessages(es)
    ensures View(Compacted(es, {}), me) == View(es, me) <==> NoEditedFile(es)
  {
    CompactedKeepsWhatShows(es, {});
    if NoEditedFile(es) {
      WipingNeverShows(es, Compacted(es, {}), me);
    } else {
      var t :| t in es && IsEditedFile(es, t);
      EditedFileShows(es, t, me);
    }
  }

  /** An entry somebody can send: their edit of their own file, which shows until compaction. */
  lemma FileCanBeLost(me: Key)
    ensures var file := Entry(1, 7, 1, Time(1, 0), Attaching, "a.txt", None, false, false, false, Some(File(1, "", 0, 1)));
      var edit := Entry(2, 7, 2, Time(2, 0), Editing, "b", Some(1), false, false, false, None);
      && DistinctIDs([file, edit]) && Whole([file, edit]) && HidesMessages([file, edit]) && !NoEditedFile([file, edit])
      && View(Compacted([file, edit], {}), me) != View([file, edit], me)
  {
    var file := Entry(1, 7, 1, Time(1, 0), Attaching, "a.txt", None, false, false, false, Some(File(1, "", 0, 1)));
    var edit := Entry(2, 7, 2, Time(2, 0), Editing, "b", Some(1), false, false, false, None);
    assert IsEditedFile([file, edit], file);
    EditedFileShows([file, edit], file, me);
  }

  // ---- As entries arrive ----

  ghost function Inserted(es: seq<Entry>, k: nat, x: Entry): seq<Entry>
    requires k <= |es|
  {
    es[..k] + [x] + es[k..]
  }

  lemma {:induction false} LatestInserted(es: seq<Entry>, k: nat, x: Entry, t: Entry)
    requires k <= |es|
    ensures LatestEdit(Inserted(es, k, x), t, false) == LatestEdit(es, t, false)
         || (Edits(x, t) && LatestEdit(Inserted(es, k, x), t, false) == Some(x))
    decreases |es|
  {
    if k == |es| {
      assert Inserted(es, k, x) == es + [x];
      LatestStep(es, x, t);
    } else {
      var (init, e) := (es[..|es| - 1], es[|es| - 1]);
      assert es == init + [e] && Inserted(es, k, x) == Inserted(init, k, x) + [e];
      LatestStep(init, e, t);
      LatestStep(Inserted(init, k, x), e, t);
      hide LatestEdit, Inserted;
      LatestInserted(init, k, x, t);
    }
  }

  lemma LatestStep(es: seq<Entry>, e: Entry, t: Entry)
    ensures LatestEdit(es + [e], t, false) == if Edits(e, t) then Some(e) else LatestEdit(es, t, false)
  {
    assert (es + [e])[..|es|] == es;
  }

  /** What is gone stays gone, whatever arrives, and wherever in the order: so it does not matter when, or how
      often, a conversation is compacted. */
  lemma GoneStaysGone(es: seq<Entry>, k: nat, x: Entry, e: Entry)
    requires k <= |es| && e in es && IsGone(es, e) && DistinctIDs(Inserted(es, k, x))
    ensures IsGone(Inserted(es, k, x), e)
  {
    var more := Inserted(es, k, x);
    assert forall y | y in es :: y in more && y.id != x.id by {
      forall y | y in es ensures y in more && y.id != x.id {
        var i :| 0 <= i < |es| && es[i] == y;
        assert more[if i < k then i else i + 1] == y && more[k] == x;
      }
    }
    LatestInserted(es, k, x, e);
    if e.kind == Editing {
      var t :| t in es && Supersedes(es, t, e);
      LatestInserted(es, k, x, t);
      assert Supersedes(more, t, e);
    }
  }

  /** Being gone is asked of what wiping keeps. */
  lemma GoneAlike(es: seq<Entry>, now: seq<Entry>, i: nat)
    requires SameCores(es, now) && i < |es|
    ensures IsGone(now, now[i]) <==> IsGone(es, es[i])
  {
    LeftAlike(es, now, es[i], now[i]);
    assert |now| == |es| && Core(now[i]) == Core(es[i]);
    hide LatestEdit, IsDeleted, SameCores, Supersedes;
    if t :| t in es && Supersedes(es, t, es[i]) {
      var j :| 0 <= j < |es| && es[j] == t;
      SupersedesAlike(es, now, i, j);
      assert now[j] in now;
    }
    if t :| t in now && Supersedes(now, t, now[i]) {
      var j :| 0 <= j < |now| && now[j] == t;
      SupersedesAlike(es, now, i, j);
      assert es[j] in es;
    }
  }

  lemma SupersedesAlike(es: seq<Entry>, now: seq<Entry>, i: nat, j: nat)
    requires SameCores(es, now) && i < |es| && j < |es|
    ensures Supersedes(now, now[j], now[i]) <==> Supersedes(es, es[j], es[i])
  {
    LeftAlike(es, now, es[j], now[j]);
  }

  lemma LeftAlike(es: seq<Entry>, now: seq<Entry>, t: Entry, u: Entry)
    requires SameCores(es, now) && Core(u) == Core(t)
    ensures IsDeleted(now, u) == IsDeleted(es, t)
    ensures LatestEdit(now, u, false).Some? <==> LatestEdit(es, t, false).Some?
    ensures LatestEdit(es, t, false).Some? ==> LatestEdit(now, u, false).value.id == LatestEdit(es, t, false).value.id
  {
    DeletedAlike(es, now, t);
    LatestAlike(es, now, t);
    AskedAlike(now, t, u);
  }

  /** What is left of a message is asked by its identifier and author alone. */
  lemma {:induction false} AskedAlike(es: seq<Entry>, t: Entry, u: Entry)
    requires Core(u) == Core(t)
    ensures IsDeleted(es, u) == IsDeleted(es, t)
    ensures LatestEdit(es, u, false) == LatestEdit(es, t, false)
    ensures LatestEdit(es, u, true) == LatestEdit(es, t, true)
  {
    if es != [] { AskedAlike(es[..|es| - 1], t, u); }
    assert forall e :: Deletes(e, u) == Deletes(e, t);
  }
}
