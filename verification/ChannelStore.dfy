/** The store of one channel, updated in place.

internal/spaces/channel.go:155-239 and internal/spaces/sync.go:82-165. Each method is proved to leave what Posts and
ChannelGossip say. */
module ChannelStore {
  import opened Basics
  import opened Posts
  import opened ChannelGossip
  import PostsFold
  import A = Authority
  import Permissions

  ghost function Set(es: seq<Entry>): set<Entry> { set e | e in es }

  /** t's edits, in order: what compaction gathers of them. */
  ghost function EditsOf(es: seq<Entry>, t: Entry): seq<Entry> {
    if es == [] then []
    else EditsOf(es[..|es| - 1], t) + if Edits(es[|es| - 1], t) then [es[|es| - 1]] else []
  }

  lemma {:induction false} LatestOfEdits(es: seq<Entry>, t: Entry)
    ensures LatestEdit(es, t) == if EditsOf(es, t) == [] then None else Some(EditsOf(es, t)[|EditsOf(es, t)| - 1])
    ensures forall e :: e in EditsOf(es, t) <==> e in es && Edits(e, t)
  {
    if es != [] {
      LatestOfEdits(es[..|es| - 1], t);
      assert es == es[..|es| - 1] + [es[|es| - 1]];
    }
  }

  lemma {:induction false} EditsDistinct(es: seq<Entry>, t: Entry)
    requires DistinctIDs(es)
    ensures DistinctIDs(EditsOf(es, t))
  {
    if es != [] {
      var (init, e) := (es[..|es| - 1], es[|es| - 1]);
      EditsDistinct(init, t);
      LatestOfEdits(init, t);
      assert forall x | x in init :: x.id != e.id;
      assert forall i | 0 <= i < |EditsOf(init, t)| :: EditsOf(init, t)[i] in EditsOf(init, t);
    }
  }

  /** byID holds every entry of es, by its identifier. */
  ghost predicate Indexes(es: seq<Entry>, byID: map<ID, Entry>) {
    && (forall e | e in es :: e.id in byID && byID[e.id] == e)
    && (forall id | id in byID :: byID[id] in es && byID[id].id == id)
  }

  function Listing(edits: map<ID, seq<Entry>>, id: ID): seq<Entry> { if id in edits then edits[id] else [] }

  /** What compaction gathers of the entries es, about the messages of byID. */
  ghost predicate Gathers(mods: Moderates, es: seq<Entry>, byID: map<ID, Entry>, edits: map<ID, seq<Entry>>, deleted: set<ID>) {
    && (forall id | id in byID :: Listing(edits, id) == EditsOf(es, byID[id]) && (id in deleted <==> IsDeleted(mods, es, byID[id])))
    && edits.Keys <= byID.Keys && deleted <= byID.Keys && forall id | id in edits :: edits[id] != []
  }

  method Index(es: seq<Entry>) returns (byID: map<ID, Entry>)
    requires DistinctIDs(es)
    ensures Indexes(es, byID)
  {
    byID := map[];
    for i := 0 to |es|
      invariant Indexes(es[..i], byID)
    {
      assert es[..i + 1] == es[..i] + [es[i]];
      assert forall e | e in es[..i] :: e.id != es[i].id;
      byID := byID[es[i].id := es[i]];
    }
    assert es[..|es|] == es;
  }

  method Gather(mods: Moderates, es: seq<Entry>, byID: map<ID, Entry>) returns (edits: map<ID, seq<Entry>>, deleted: set<ID>)
    requires forall id | id in byID :: byID[id].id == id
    ensures Gathers(mods, es, byID, edits, deleted)
  {
    edits, deleted := map[], {};
    for i := 0 to |es|
      invariant Gathers(mods, es[..i], byID, edits, deleted)
    {
      var e := es[i];
      GatherStep(mods, es[..i], e, byID, edits, deleted);
      assert es[..i + 1] == es[..i] + [e];
      hide Gathers;
      if e.target == None || e.kind == Said || e.kind == Reacted { continue; }
      if e.target.value !in byID { continue; }
      var t := byID[e.target.value];
      if t.kind != Said && (t.kind != Attached || e.kind == Edited) { continue; }
      if t.author != e.author && !(e.kind == Deleted && mods(e.author, t.author)) { continue; }
      if e.kind == Edited {
        edits := edits[t.id := Listing(edits, t.id) + [e]];
      } else if e.kind == Deleted {
        deleted := deleted + {t.id};
      }
    }
    assert es[..|es|] == es;
  }

  lemma EditsStep(mods: Moderates, es: seq<Entry>, e: Entry, t: Entry)
    ensures EditsOf(es + [e], t) == EditsOf(es, t) + (if Edits(e, t) then [e] else [])
    ensures IsDeleted(mods, es + [e], t) <==> IsDeleted(mods, es, t) || Deletes(mods, e, t)
  {
    assert (es + [e])[..|es|] == es;
  }

  lemma GatherStep(mods: Moderates, es: seq<Entry>, e: Entry, byID: map<ID, Entry>, edits: map<ID, seq<Entry>>, deleted: set<ID>)
    requires Gathers(mods, es, byID, edits, deleted) && forall id | id in byID :: byID[id].id == id
    ensures (e.target.None? || e.target.value !in byID || (!Edits(e, byID[e.target.value]) && !Deletes(mods, e, byID[e.target.value])))
      ==> Gathers(mods, es + [e], byID, edits, deleted)
    ensures e.target.Some? && e.target.value in byID && Edits(e, byID[e.target.value]) ==>
      Gathers(mods, es + [e], byID, edits[e.target.value := Listing(edits, e.target.value) + [e]], deleted)
    ensures e.target.Some? && e.target.value in byID && Deletes(mods, e, byID[e.target.value]) ==>
      Gathers(mods, es + [e], byID, edits, deleted + {e.target.value})
  {
    hide EditsOf, IsDeleted;
    forall id | id in byID
      ensures EditsOf(es + [e], byID[id]) == EditsOf(es, byID[id]) + (if Edits(e, byID[id]) then [e] else [])
      ensures IsDeleted(mods, es + [e], byID[id]) <==> IsDeleted(mods, es, byID[id]) || Deletes(mods, e, byID[id])
    {
      EditsStep(mods, es, e, byID[id]);
    }
  }

  /** What is gone for an edited message's sake: it, and its edits but for the last of one not deleted. */
  function GoneEdits(byID: map<ID, Entry>, edits: map<ID, seq<Entry>>, deleted: set<ID>, id: ID): seq<Entry>
    requires id in byID && id in edits && edits[id] != []
  {
    (if id in deleted then edits[id] else edits[id][..|edits[id]| - 1]) + [byID[id]]
  }

  ghost predicate IsCollected(byID: map<ID, Entry>, edits: map<ID, seq<Entry>>, deleted: set<ID>, e: Entry) {
    || (exists id :: id in edits && IsGoneFor(byID, edits, deleted, id, e))
    || (exists id :: id in deleted && id in byID && e == byID[id])
  }

  ghost predicate IsGoneFor(byID: map<ID, Entry>, edits: map<ID, seq<Entry>>, deleted: set<ID>, id: ID, e: Entry) {
    id in byID && id in edits && edits[id] != [] && e in GoneEdits(byID, edits, deleted, id)
  }

  /** What is gone for the sake of the edited messages, ranging over them in any order. */
  method CollectEdited(byID: map<ID, Entry>, edits: map<ID, seq<Entry>>, deleted: set<ID>) returns (gone: seq<Entry>)
    requires edits.Keys <= byID.Keys && forall id | id in edits :: edits[id] != []
    ensures forall e :: e in gone <==> exists id :: id in edits && IsGoneFor(byID, edits, deleted, id, e)
  {
    gone := [];
    var left := edits.Keys;
    while left != {}
      invariant left <= edits.Keys
      invariant forall e :: e in gone <==> exists id :: id in edits.Keys - left && IsGoneFor(byID, edits, deleted, id, e)
    {
      var target :| target in left;
      var more := GoneEdits(byID, edits, deleted, target);
      assert forall e :: e in more <==> IsGoneFor(byID, edits, deleted, target, e);
      hide IsGoneFor;
      ghost var done := edits.Keys - left;
      assert edits.Keys - (left - {target}) == done + {target};
      forall e ensures e in gone + more <==> exists id :: id in done + {target} && IsGoneFor(byID, edits, deleted, id, e) {
        assert e in gone + more <==> e in gone || e in more;
        if e in more { assert target in done + {target} && IsGoneFor(byID, edits, deleted, target, e); }
      }
      gone := gone + more;
      left := left - {target};
    }
  }

  /** Everything gone: then the deleted messages, in any order. */
  method CollectGone(mods: Moderates, ghost es: seq<Entry>, byID: map<ID, Entry>, edits: map<ID, seq<Entry>>, deleted: set<ID>) returns (gone: seq<Entry>)
    requires DistinctIDs(es) && Indexes(es, byID) && Gathers(mods, es, byID, edits, deleted)
    ensures forall e :: e in gone <==> e in es && IsGone(mods, es, e)
  {
    gone := CollectEdited(byID, edits, deleted);
    ghost var edited := gone;
    var left := deleted;
    while left != {}
      invariant left <= deleted
      invariant forall e :: e in gone <==> e in edited || exists id :: id in deleted - left && id in byID && byID[id] == e
    {
      hide Indexes, Gathers, IsGoneFor;
      var target :| target in left;
      gone := gone + [byID[target]];
      left := left - {target};
    }
    forall e ensures e in gone <==> e in es && IsGone(mods, es, e) {
      hide Indexes, Gathers, IsGoneFor, IsGone;
      CollectedIsGone(mods, es, byID, edits, deleted, e);
    }
  }

  lemma CollectedIsGone(mods: Moderates, es: seq<Entry>, byID: map<ID, Entry>, edits: map<ID, seq<Entry>>, deleted: set<ID>, e: Entry)
    requires DistinctIDs(es) && Indexes(es, byID) && Gathers(mods, es, byID, edits, deleted)
    ensures IsCollected(byID, edits, deleted, e) <==> e in es && IsGone(mods, es, e)
  {
    hide IsDeleted, LatestEdit, EditsOf, DistinctIDs, Edits;
    if id :| id in edits && IsGoneFor(byID, edits, deleted, id, e) {
      EditsGone(mods, es, byID[id], id in deleted, edits[id], e);
    }
    if id :| id in deleted && id in byID && e == byID[id] {
      assert IsDeleted(mods, es, e);
      DeletedIsPost(mods, es, e);
    }
    if e in es && IsGone(mods, es, e) {
      LatestOfEdits(es, e);
      if IsPost(e.kind) {
        if !IsDeleted(mods, es, e) {
          assert Listing(edits, e.id) == EditsOf(es, e);
          assert IsGoneFor(byID, edits, deleted, e.id, e);
        }
      } else {
        var t :| t in es && Supersedes(mods, es, t, e);
        SupersededIsCollected(mods, es, t, e, t.id in deleted);
        assert Listing(edits, t.id) == EditsOf(es, t);
        assert byID[t.id] == t;
        assert IsGoneFor(byID, edits, deleted, t.id, e);
      }
    }
  }

  lemma DeletedIsPost(mods: Moderates, es: seq<Entry>, t: Entry)
    requires IsDeleted(mods, es, t)
    ensures IsPost(t.kind)
  {
  }

  lemma EditsGone(mods: Moderates, es: seq<Entry>, t: Entry, deleted: bool, edits: seq<Entry>, e: Entry)
    requires DistinctIDs(es) && t in es && edits == EditsOf(es, t) && edits != [] && deleted == IsDeleted(mods, es, t)
    requires e in (if deleted then edits else edits[..|edits| - 1]) + [t]
    ensures e in es && IsGone(mods, es, e)
  {
    LatestOfEdits(es, t);
    assert edits[0] in edits;
    if e != t {
      assert e in edits;
      EditsDistinct(es, t);
      assert Supersedes(mods, es, t, e);
    }
  }

  lemma SupersededIsCollected(mods: Moderates, es: seq<Entry>, t: Entry, e: Entry, deleted: bool)
    requires e in es && Supersedes(mods, es, t, e) && deleted == IsDeleted(mods, es, t)
    ensures EditsOf(es, t) != [] && e in if deleted then EditsOf(es, t) else EditsOf(es, t)[..|EditsOf(es, t)| - 1]
  {
    LatestOfEdits(es, t);
    var edits := EditsOf(es, t);
    assert e in edits;
    var i :| 0 <= i < |edits| && edits[i] == e;
    if !deleted { assert edits[..|edits| - 1][i] == e; }
  }

  /** es with the row id put anew. */
  function PutRow(es: seq<Entry>, m: Entry): seq<Entry> {
    seq(|es|, i requires 0 <= i < |es| => if es[i].id == m.id then m else es[i])
  }

  ghost function WipedRows(es: seq<Entry>, gone: set<Entry>): seq<Entry> {
    seq(|es|, i requires 0 <= i < |es| => if es[i] in gone && !es[i].wiped then Wiped(es[i]) else es[i])
  }

  method WipeAll(es: seq<Entry>, gone: seq<Entry>) returns (now: seq<Entry>)
    requires DistinctIDs(es) && forall e | e in gone :: e in es
    ensures now == WipedRows(es, Set(gone))
  {
    now := es;
    for k := 0 to |gone|
      invariant now == WipedRows(es, Set(gone[..k]))
    {
      var m := gone[k];
      assert gone[..k + 1] == gone[..k] + [m];
      assert Set(gone[..k + 1]) == Set(gone[..k]) + {m};
      WipeStep(es, Set(gone[..k]), m);
      if m.wiped { continue; }
      now := PutRow(now, Wiped(m));
    }
    assert gone[..|gone|] == gone;
  }

  lemma WipeStep(es: seq<Entry>, gone: set<Entry>, m: Entry)
    requires DistinctIDs(es) && m in es
    ensures WipedRows(es, gone + {m}) == if m.wiped then WipedRows(es, gone) else PutRow(WipedRows(es, gone), Wiped(m))
  {
  }

  /** Wipes the text no longer shown of the rows es. */
  method Compact(mods: Moderates, es: seq<Entry>) returns (now: seq<Entry>)
    requires DistinctIDs(es)
    ensures now == Compacted(mods, es)
  {
    var byID := Index(es);
    var edits, deleted := Gather(mods, es, byID);
    var gone := CollectGone(mods, es, byID, edits, deleted);
    now := WipeAll(es, gone);
  }

  // ---- Writing ----

  datatype Refusal = NotReader | NoTarget | NotYours

  /** Why e is not me's to write, if it is not: what it is about is no message here, or shows as deleted, or is a file
      to edit; or e edits or deletes a message that is not me's to edit or delete. */
  ghost function NotAllowed(mods: Moderates, es: seq<Entry>, me: Key, e: Entry): Option<Refusal> {
    if e.target.None? then None
    else
      var t := Answered(es, e.target.value);
      if t.None? then Some(NoTarget)
      else
        var s := StandingOf(mods, es, t.value);
        if (s.deleted && e.kind != Said) || (e.kind == Edited && s.file.Some?) then Some(NoTarget)
        else if (e.kind == Edited && t.value.author != me) || (e.kind == Deleted && t.value.author != me && !mods(me, t.value.author)) then Some(NotYours)
        else None
  }

  method Allows(mods: Moderates, es: seq<Entry>, me: Key, e: Entry) returns (refused: Option<Refusal>)
    requires DistinctIDs(es) && WellFormed(es)
    ensures refused == NotAllowed(mods, es, me, e)
  {
    if e.target.None? { return None; }
    var posts := PostsFold.Fold(mods, es, me);
    var i := Find(mods, es, me, posts, e.target.value);
    if i == |posts| { return Some(NoTarget); }
    hide View, StandingOf, Answered;
    var p := posts[i];
    if (p.deleted && e.kind != Said) || (e.kind == Edited && p.file.Some?) { return Some(NoTarget); }
    if (e.kind == Edited && p.author != me) || (e.kind == Deleted && p.author != me && !mods(me, p.author)) { return Some(NotYours); }
    return None;
  }

  /** Where the post of an identifier is among posts, or their number. */
  method Find(mods: Moderates, ghost es: seq<Entry>, ghost me: Key, posts: seq<Post>, id: ID) returns (i: nat)
    requires DistinctIDs(es) && posts == View(mods, es, me)
    ensures i <= |posts| && (i == |posts| <==> Answered(es, id).None?)
    ensures i < |posts| ==> var (t, s) := (Answered(es, id).value, StandingOf(mods, es, Answered(es, id).value));
      posts[i].deleted == s.deleted && posts[i].file == s.file && posts[i].author == t.author
  {
    hide *;
    i := 0;
    while i < |posts| && posts[i].id != id
      invariant 0 <= i <= |posts| && forall j | 0 <= j < i :: posts[j].id != id
    {
      i := i + 1;
    }
    if i < |posts| { PostedAt(mods, es, me, i); } else { NotPosted(mods, es, me, id); }
  }

  lemma PostedAt(mods: Moderates, es: seq<Entry>, me: Key, i: nat)
    requires DistinctIDs(es) && i < |View(mods, es, me)|
    ensures var (p, a) := (View(mods, es, me)[i], Answered(es, View(mods, es, me)[i].id));
      a.Some? && p.author == a.value.author && var s := StandingOf(mods, es, a.value); p.deleted == s.deleted && p.file == s.file
  {
    PostsFold.ViewIsOfMessages(mods, es, es, me);
    var t := PostsFold.Messages(es)[i];
    assert t in PostsFold.Messages(es);
    PostsFold.AnsweredFinds(es, t);
  }

  lemma NotPosted(mods: Moderates, es: seq<Entry>, me: Key, id: ID)
    requires forall j | 0 <= j < |View(mods, es, me)| :: View(mods, es, me)[j].id != id
    ensures Answered(es, id).None?
  {
    PostsFold.ViewIsOfMessages(mods, es, es, me);
    PostsFold.AnsweredIsMessage(es, id);
    var (posts, ts) := (View(mods, es, me), PostsFold.Messages(es));
    assert posts == ViewOf(mods, es, es, me);
    hide View, ViewOf, Answered, PostsFold.Messages, StandingOf, QuoteOf;
  }

  /** The last thing done to a message ever deleted is a deletion: then none is revived. */
  ghost predicate DeletionsLast(mods: Moderates, es: seq<Entry>) {
    forall t | t in es && IsDeleted(mods, es, t) :: DeletionIsLast(mods, es, t)
  }

  ghost predicate DeletionIsLast(mods: Moderates, es: seq<Entry>, t: Entry) {
    var last := LastDone(mods, es, t); last.Some? && last.value.kind == Deleted
  }

  datatype Reception = Fresh | Held | Conflict

  /** A channel as a member keeps it. Its methods are given the space's state as it then is. */
  class Store {
    const channel: ID
    /** The identifiers the table has in other channels. */
    var elsewhere: set<ID>
    /** The entries, in the channel's order. */
    var entries: seq<Entry>

    ghost predicate Valid()
      reads this
    {
      InOrder(entries) && DistinctIDs(entries) && WellFormed(entries) && IDs(entries) !! elsewhere
    }

    constructor (channel: ID, elsewhere: set<ID>)
      ensures Valid() && entries == [] && this.channel == channel && this.elsewhere == elsewhere
    {
      this.channel, this.elsewhere, entries := channel, elsewhere, [];
    }

    /** Keeps m where it belongs, unless it is held, or a row has its identifier or its place. */
    method Keep(m: Entry) returns (how: Reception)
      requires Valid() && WellFormed([m])
      modifies this`entries
      ensures Valid()
      ensures how == if m.id in elsewhere then Conflict
        else if !Conflicts(old(entries), m) then Fresh else if FirstConflict(old(entries), m) then Held else Conflict
      ensures entries == if how == Fresh then Placed(old(entries), m) else old(entries)
    {
      if m.id in elsewhere { return Conflict; }
      var i := FindClash(entries, m);
      if i < |entries| { return if Core(entries[i]) == Core(m) then Held else Conflict; }
      assert m.id !in IDs(entries);
      PlacedInOrder(entries, m);
      PlacedWell(entries, m);
      entries := PutIn(entries, m);
      return Fresh;
    }

    /** Takes m, passed on by a member, if its author makes such entries here now. */
    method Accept(v: A.Space, m: Entry) returns (how: Option<Reception>)
      requires Valid() && WellFormed([m])
      modifies this`entries
      ensures Valid()
      ensures how.Some? <==> Takes(v, channel, m)
      ensures entries == if Takes(v, channel, m) && m.id !in elsewhere then Accepted(Permissions.ModeratesIn(v), old(entries), m) else old(entries)
      ensures how == Some(Fresh) <==> Takes(v, channel, m) && m.id !in elsewhere && !Conflicts(old(entries), m)
    {
      if !Takes(v, channel, m) { return None; }
      var kept := Keep(m);
      if kept == Fresh && (m.kind == Edited || m.kind == Deleted) { CompactEntries(v); }
      return Some(kept);
    }

    /** Writes e, by a member, as their next entry here, if they make such entries here and it is theirs to write. Its
        identifier is nobody's yet. */
    method Write(v: A.Space, e: Entry, now: int) returns (refused: Option<Refusal>, m: Entry)
      requires Valid() && WellFormed([e]) && e.id !in IDs(entries) && e.id !in elsewhere
      modifies this`entries
      ensures Valid()
      ensures refused == if Takes(v, channel, e) then NotAllowed(Permissions.ModeratesIn(v), old(entries), e.author, e) else Some(NotReader)
      ensures m == NextEntry(old(entries), e, now)
      ensures entries == if refused.None? then Written(Permissions.ModeratesIn(v), old(entries), m) else old(entries)
    {
      var sequence, wall := LastWritten(entries, e.author);
      m := e.(sequence := sequence + 1, time := Tick(Time(wall, 0), now));
      if !Takes(v, channel, e) { return Some(NotReader), m; }
      refused := Allows(Permissions.ModeratesIn(v), entries, e.author, e);
      if refused.Some? { return; }
      NextIsApart(entries, e, m);
      var _ := Keep(m);
      CompactEntries(v);
    }

    method CompactEntries(v: A.Space)
      requires Valid()
      modifies this`entries
      ensures Valid() && entries == Compacted(Permissions.ModeratesIn(v), old(entries))
    {
      CompactedNames(Permissions.ModeratesIn(v), entries);
      entries := Compact(Permissions.ModeratesIn(v), entries);
      CompactedWell(Permissions.ModeratesIn(v), old(entries));
    }
  }

  // ---- What comes next ----

  /** The highest number of who's entries, or zero. */
  function LastNumber(es: seq<Entry>, who: Key): (n: nat)
    ensures forall e | e in es && e.author == who :: e.sequence <= n
    ensures n == 0 || exists e :: e in es && e.author == who && e.sequence == n
  {
    if es == [] then 0
    else
      var (n, e) := (LastNumber(es[..|es| - 1], who), es[|es| - 1]);
      assert es == es[..|es| - 1] + [e];
      if e.author == who && e.sequence > n then e.sequence else n
  }

  /** The latest millisecond of who's entries, if there are any. */
  function LatestWall(es: seq<Entry>, who: Key): (w: Option<int>)
    ensures w.None? ==> forall e | e in es :: e.author != who
    ensures w.Some? ==> forall e | e in es && e.author == who :: e.time.wall <= w.value
    ensures w.Some? ==> exists e :: e in es && e.author == who && e.time.wall == w.value
  {
    if es == [] then None
    else
      var (w, e) := (LatestWall(es[..|es| - 1], who), es[|es| - 1]);
      assert es == es[..|es| - 1] + [e];
      if e.author == who && (w.None? || e.time.wall > w.value) then Some(e.time.wall) else w
  }

  /** And zero if there are none. */
  function LastWall(es: seq<Entry>, who: Key): int {
    var w := LatestWall(es, who); if w.Some? then w.value else 0
  }

  /** The moment of who's next entry, at the physical time now: the counter of their last is not asked for. */
  function NextTime(es: seq<Entry>, who: Key, now: int): Time {
    Tick(Time(LastWall(es, who), 0), now)
  }

  /** e, as its author's next entry here. */
  function NextEntry(es: seq<Entry>, e: Entry, now: int): Entry {
    e.(sequence := LastNumber(es, e.author) + 1, time := NextTime(es, e.author, now))
  }

  /** The last number and the last millisecond of who's entries. */
  method LastWritten(es: seq<Entry>, who: Key) returns (sequence: nat, wall: int)
    ensures sequence == LastNumber(es, who) && wall == LastWall(es, who)
  {
    sequence := 0;
    var latest := None;
    for i := 0 to |es|
      invariant sequence == LastNumber(es[..i], who) && latest == LatestWall(es[..i], who)
    {
      var e := es[i];
      assert es[..i + 1][..i] == es[..i];
      if e.author == who {
        if e.sequence > sequence { sequence := e.sequence; }
        if latest.None? || e.time.wall > latest.value { latest := Some(e.time.wall); }
      }
    }
    assert es[..|es|] == es;
    wall := if latest.Some? then latest.value else 0;
  }

  lemma NextIsApart(es: seq<Entry>, e: Entry, m: Entry)
    requires e.id !in IDs(es) && m.id == e.id && m.author == e.author && m.sequence == LastNumber(es, e.author) + 1
    ensures !Conflicts(es, m)
  {
    assert forall f | f in es :: f.id in IDs(es);
  }

  /** What a member writes comes after every entry of theirs here if and only if the clock moved on since the latest of
      them; or those in its millisecond were not counted, or counted once and of lower identifiers. */
  lemma WrittenComesAfterIff(es: seq<Entry>, e: Entry, now: int)
    ensures var (m, wall) := (NextEntry(es, e, now), LastWall(es, e.author));
      (forall f | f in es && f.author == e.author :: Before(f, m)) <==>
        now > wall || forall f | f in es && f.author == e.author && f.time.wall == wall :: f.time.counter == 0 || (f.time.counter == 1 && f.id < e.id)
  {
  }

  /** It does not always: of a message and two edits of it written in one millisecond, or while the clock is set back, the two
      edits have one moment, and the first shows as the latest if its identifier is the higher. */
  lemma WrittenCanComeBefore(now: int)
    requires now > 0
    ensures var said := Entry(1, 7, 1, NextTime([], 7, now), Said, "a", None, false, false, None);
      var first := Entry(9, 7, 2, NextTime([said], 7, now), Edited, "b", Some(1), false, false, None);
      var second := Entry(3, 7, 3, NextTime([said, first], 7, now), Edited, "c", Some(1), false, false, None);
      && Placed([said], first) == [said, first] && second.time == first.time
      && Placed([said, first], second) == [said, second, first] && LatestEdit([said, second, first], said) == Some(first)
  {
    var said := Entry(1, 7, 1, NextTime([], 7, now), Said, "a", None, false, false, None);
    var first := Entry(9, 7, 2, NextTime([said], 7, now), Edited, "b", Some(1), false, false, None);
    var second := Entry(3, 7, 3, NextTime([said, first], 7, now), Edited, "c", Some(1), false, false, None);
    assert LatestWall([], 7) == None;
    assert [said][..0] == [] && LatestWall([said], 7) == Some(now);
    assert [said, first][..1] == [said] && LatestWall([said, first], 7) == Some(now);
    assert [said][1..] == [] && [said, first][1..] == [first] && [first][1..] == [];
    assert [said, second, first][..2] == [said, second];
  }

  // ---- What writing brings back ----

  /** m is new to es: nothing has its identifier, or is about it yet. */
  ghost predicate IsNew(es: seq<Entry>, m: Entry) {
    m.id !in IDs(es) && m.target != Some(m.id) && forall e | e in es :: e.target != Some(m.id)
  }

  /** m, put where it belongs, brings a deleted message back: it deletes one, but an edit that has its text comes after it;
      or it edits one deleted, after all that was done to it. */
  ghost predicate Revives(mods: Moderates, es: seq<Entry>, m: Entry) {
    && (m.kind == Edited || m.kind == Deleted) && m.target.Some? && Answered(es, m.target.value).Some?
    && var t := Answered(es, m.target.value).value;
    && LastDone(mods, es, t).Some?
    && var last := LastDone(mods, es, t).value;
    if m.kind == Deleted then Before(m, last) && last.kind == Edited && last.text != ""
    else IsDeleted(mods, es, t) && Before(last, m) && m.text != ""
  }

  predicate Does(mods: Moderates, e: Entry, t: Entry) { Edits(e, t) || Deletes(mods, e, t) }

  lemma DoneStep(mods: Moderates, es: seq<Entry>, m: Entry, t: Entry)
    ensures LastDone(mods, es + [m], t) == if Edits(m, t) || Deletes(mods, m, t) then Some(m) else LastDone(mods, es, t)
    ensures IsDeleted(mods, es + [m], t) <==> IsDeleted(mods, es, t) || Deletes(mods, m, t)
  {
    assert (es + [m])[..|es|] == es;
  }

  lemma InsertedLast(es: seq<Entry>, k: nat, m: Entry)
    requires k < |es|
    ensures var init := es[..|es| - 1]; es == init + [es[|es| - 1]] && es[..k] + [m] + es[k..] == init[..k] + [m] + init[k..] + [es[|es| - 1]]
  {
  }

  lemma InsertedEnd(es: seq<Entry>, m: Entry)
    ensures es[..|es|] + [m] + es[|es|..] == es + [m]
  {
  }

  /** What was done last to t, once m is put where it belongs. */
  lemma {:induction false} DoneInserted(mods: Moderates, es: seq<Entry>, k: nat, m: Entry, t: Entry)
    requires k <= |es| && (forall i | 0 <= i < k :: Before(es[i], m)) && (forall i | k <= i < |es| :: !Before(es[i], m))
    ensures var last := LastDone(mods, es, t);
      LastDone(mods, es[..k] + [m] + es[k..], t) == if Does(mods, m, t) && (last.Some? ==> Before(last.value, m)) then Some(m) else last
    decreases |es|
  {
    hide LastDone, IsDeleted, Before;
    if k == |es| {
      InsertedEnd(es, m);
      DoneStep(mods, es, m, t);
      DoneAmong(mods, es, t);
    } else {
      var (init, e) := (es[..|es| - 1], es[|es| - 1]);
      InsertedLast(es, k, m);
      DoneStep(mods, init, e, t);
      DoneStep(mods, init[..k] + [m] + init[k..], e, t);
      DoneInserted(mods, init, k, m, t);
    }
  }

  lemma DoneAmong(mods: Moderates, es: seq<Entry>, t: Entry)
    ensures LastDone(mods, es, t).Some? ==> LastDone(mods, es, t).value in es
  {
  }

  lemma DonePlaced(mods: Moderates, es: seq<Entry>, m: Entry, t: Entry)
    requires InOrder(es) && m.id !in IDs(es)
    ensures var last := LastDone(mods, es, t);
      LastDone(mods, Placed(es, m), t) == if Does(mods, m, t) && (last.Some? ==> Before(last.value, m)) then Some(m) else last
    ensures IsDeleted(mods, Placed(es, m), t) <==> IsDeleted(mods, es, t) || Deletes(mods, m, t)
  {
    var k := Place(es, m);
    PlacedInOrder(es, m);
    assert forall i | k <= i < |es| :: !Before(es[i], m);
    DoneInserted(mods, es, k, m, t);
  }

  /** What is allowed does to its target what it says. */
  lemma AllowedDoes(mods: Moderates, es: seq<Entry>, me: Key, m: Entry)
    requires WellFormed(es) && m.author == me && NotAllowed(mods, es, me, m).None? && m.target.Some? && (m.kind == Edited || m.kind == Deleted)
    ensures Answered(es, m.target.value).Some? && Does(mods, m, Answered(es, m.target.value).value)
  {
  }

  /** Of a message m does nothing to, nothing comes back. */
  lemma OthersStay(mods: Moderates, es: seq<Entry>, m: Entry, t: Entry)
    requires InOrder(es) && m.id !in IDs(es) && t in es && !Does(mods, m, t) && !IsRevived(mods, es, t)
    ensures !IsRevived(mods, Placed(es, m), t)
  {
    DonePlaced(mods, es, m, t);
  }

  /** And its target comes back if and only if m revives it. */
  lemma TargetRevivedIff(mods: Moderates, es: seq<Entry>, m: Entry, t: Entry)
    requires InOrder(es) && DistinctIDs(es) && m.id !in IDs(es) && t in es && Does(mods, m, t) && !IsRevived(mods, es, t)
    ensures IsRevived(mods, Placed(es, m), t) <==> Revives(mods, es, m)
  {
    DonePlaced(mods, es, m, t);
    PlacedInOrder(es, m);
    PostsFold.AnsweredFinds(es, t);
    var last := LastDone(mods, es, t);
    if last.Some? { OneIsBefore(es, m, last.value); }
    hide InOrder, DistinctIDs, LastDone, Placed, IDs, Answered;
  }

  lemma OneIsBefore(es: seq<Entry>, m: Entry, e: Entry)
    requires m.id !in IDs(es) && e in es
    ensures Before(m, e) <==> !Before(e, m)
  {
    assert e.id in IDs(es);
  }

  /** What a member writes, being theirs to write, brings a deleted message back if and only if it deletes it before an edit
      held, which has its text, or edits it after its deletion. */
  lemma WritingRevivesIff(mods: Moderates, es: seq<Entry>, me: Key, m: Entry)
    requires InOrder(es) && DistinctIDs(es) && WellFormed(es) && NoneRevived(mods, es)
    requires IsNew(es, m) && m.author == me && NotAllowed(mods, es, me, m).None?
    ensures NoneRevived(mods, Placed(es, m)) <==> !Revives(mods, es, m)
  {
    PlacedInOrder(es, m);
    var now := Placed(es, m);
    forall t | t in now && !Revives(mods, es, m) ensures !IsRevived(mods, now, t) {
      if t == m {
        NothingAbout(mods, es, m);
      } else if Does(mods, m, t) {
        TargetRevivedIff(mods, es, m, t);
      } else {
        OthersStay(mods, es, m, t);
      }
    }
    if Revives(mods, es, m) {
      AllowedDoes(mods, es, me, m);
      TargetRevivedIff(mods, es, m, Answered(es, m.target.value).value);
    }
  }

  lemma NothingAbout(mods: Moderates, es: seq<Entry>, m: Entry)
    requires InOrder(es) && IsNew(es, m)
    ensures !IsRevived(mods, Placed(es, m), m)
  {
    PlacedInOrder(es, m);
    assert !IsDeleted(mods, Placed(es, m), m);
  }

  /** So the compaction that follows writing, of an entry written as its author's next, changes something that shows if and
      only if it does. */
  lemma WritingLosesIff(mods: Moderates, es: seq<Entry>, e: Entry, now: int, me: Key)
    requires InOrder(es) && DistinctIDs(es) && WellFormed(es) && NoneRevived(mods, es)
    requires IsNew(es, e) && WellFormed([e]) && NotAllowed(mods, es, e.author, e).None?
    ensures var m := NextEntry(es, e, now);
      View(mods, Written(mods, es, m), me) == View(mods, Placed(es, m), me) <==> !Revives(mods, es, m)
  {
    var m := NextEntry(es, e, now);
    assert WellFormed([m]) by { assert e in [e]; }
    WritingRevivesIff(mods, es, e.author, m);
    NextIsApart(es, e, m);
    PlacedWell(es, m);
    CompactionShowsNothingIff(mods, Placed(es, m), me);
  }

  /** Where deletions come last, only a deletion brings its message back, and only if the last edit held of it, which has its
      text, has a later moment than the member's clock gives. */
  lemma OnlyLateDeletionsRevive(mods: Moderates, es: seq<Entry>, me: Key, m: Entry)
    requires DistinctIDs(es) && WellFormed(es) && DeletionsLast(mods, es) && m.author == me && NotAllowed(mods, es, me, m).None?
    ensures Revives(mods, es, m) <==>
      && m.kind == Deleted && m.target.Some?
      && var t := Answered(es, m.target.value).value;
      && LatestEdit(es, t).Some? && Before(m, LatestEdit(es, t).value) && LatestEdit(es, t).value.text != ""
  {
    if m.target.Some? && (m.kind == Edited || m.kind == Deleted) {
      var t := Answered(es, m.target.value).value;
      assert !IsDeleted(mods, es, t);
      LastIsEdit(mods, es, t);
    }
  }

  lemma {:induction false} LastIsEdit(mods: Moderates, es: seq<Entry>, t: Entry)
    requires !IsDeleted(mods, es, t)
    ensures LastDone(mods, es, t) == LatestEdit(es, t)
  {
    if es != [] {
      var (init, e) := (es[..|es| - 1], es[|es| - 1]);
      assert es == init + [e] && e in es;
      assert !IsDeleted(mods, init, t) by { assert forall d | d in init :: d in es; }
      LastIsEdit(mods, init, t);
    }
  }

  /** It happens though everything was known, and allowed: a moderator whose clock is behind deletes a message edited in
      the meantime. It comes back, and the compaction that follows leaves of it neither its text nor its deletion. */
  lemma LateDeletionIsLost(mods: Moderates, me: Key)
    requires mods(9, 7)
    ensures var said := Entry(1, 7, 1, Time(1, 0), Said, "a", None, false, false, None);
      var edit := Entry(3, 7, 2, Time(100, 0), Edited, "b", Some(1), false, false, None);
      var deletion := Entry(2, 9, 0, Time(0, 0), Deleted, "", Some(1), false, false, None);
      var (es, m) := ([said, edit], NextEntry([said, edit], deletion, 50));
      && NotAllowed(mods, es, 9, deletion) == None && DeletionsLast(mods, es) && m.time == Time(50, 0)
      && Placed(es, m) == [said, m, edit] && IsRevived(mods, Placed(es, m), said)
      && View(mods, Written(mods, es, m), me) != View(mods, Placed(es, m), me)
      && StandingOf(mods, Written(mods, es, m), Written(mods, es, m)[0]) == Standing("", true, false, true, None)
  {
    var said := Entry(1, 7, 1, Time(1, 0), Said, "a", None, false, false, None);
    var edit := Entry(3, 7, 2, Time(100, 0), Edited, "b", Some(1), false, false, None);
    var deletion := Entry(2, 9, 0, Time(0, 0), Deleted, "", Some(1), false, false, None);
    var m := NextEntry([said, edit], deletion, 50);
    LateDeletionIsPlaced(said, edit, deletion, m);
    NothingDeleted(mods, said, edit, deletion);
    var placed := [said, m, edit];
    LateIsRevived(mods, said, m, edit);
    hide IsRevived, View, Compacted, StandingOf, NextEntry, Placed, NotAllowed, DeletionsLast, WellFormed;
    RevivedShows(mods, placed, said, me);
    LostKeepsNothing(mods, placed);
  }

  lemma LateIsRevived(mods: Moderates, said: Entry, m: Entry, edit: Entry)
    requires said.kind == Said && said.file.None? && !said.wiped && m.kind == Deleted && m.file.None? && !m.wiped && m.target == Some(said.id)
    requires edit.kind == Edited && edit.file.None? && !edit.wiped && edit.text != "" && edit.target == Some(said.id) && edit.author == said.author
    requires mods(m.author, said.author)
    ensures IsRevived(mods, [said, m, edit], said) && WellFormed([said, m, edit]) && Deletes(mods, [said, m, edit][1], said)
  {
    var placed := [said, m, edit];
    assert placed[1] == m && Deletes(mods, m, said) && placed[0] == said;
    assert IsDeleted(mods, placed, said);
  }

  lemma LateDeletionIsPlaced(said: Entry, edit: Entry, deletion: Entry, m: Entry)
    requires said.time == Time(1, 0) && edit.time == Time(100, 0) && said.author == edit.author == 7 && deletion.author == 9
    requires m == NextEntry([said, edit], deletion, 50)
    ensures m.time == Time(50, 0) && Placed([said, edit], m) == [said, m, edit]
  {
    assert LatestWall([said, edit], 9) == None by { assert [said, edit][..1] == [said] && [said][..0] == []; }
    assert [said, edit][1..] == [edit] && Place([said, edit], m) == 1 + Place([edit], m);
  }

  lemma NothingDeleted(mods: Moderates, said: Entry, edit: Entry, deletion: Entry)
    requires said.kind == Said && edit.kind == Edited && edit.target == Some(said.id) && edit.author == said.author && edit.id != said.id
    requires deletion.kind == Deleted && deletion.target == Some(said.id) && mods(deletion.author, said.author)
    ensures DeletionsLast(mods, [said, edit]) && NotAllowed(mods, [said, edit], deletion.author, deletion) == None
  {
    var es := [said, edit];
    assert es[..1] == [said] && [said][..0] == [];
    assert forall t :: !IsDeleted(mods, es, t);
    assert Answered([said], said.id) == Some(said) && Answered(es, said.id) == Some(said);
    LastIsEdit(mods, es, said);
    assert LatestEdit(es, said) == Some(edit) && !StandingOf(mods, es, said).deleted;
  }

  lemma LostKeepsNothing(mods: Moderates, es: seq<Entry>)
    requires WellFormed(es) && |es| == 3 && IsRevived(mods, es, es[0]) && es[0].kind == Said && Deletes(mods, es[1], es[0]) && es[1].author != es[0].author
    ensures StandingOf(mods, Compacted(mods, es), Compacted(mods, es)[0]) == Standing("", true, false, true, None)
  {
    var now := Compacted(mods, es);
    RevivedIsLost(mods, es, 0);
    assert es[0] in es && es[1] in es && now[1] == es[1] && now[1] in now;
    assert IsDeletedByModerator(mods, now, now[0]);
  }

  /** And though nobody did wrong: a moderator deletes a message that its author, who does not know it yet, edits. Both are
      theirs to write, whoever is passed both takes both, and what they then show is not what was said. */
  lemma BothAreTaken(mods: Moderates, me: Key)
    requires mods(9, 7)
    ensures var said := Entry(1, 7, 1, Time(1, 0), Said, "hello", None, false, false, None);
      var deletion := Entry(2, 9, 1, Time(2, 0), Deleted, "", Some(1), false, false, None);
      var edit := Entry(3, 7, 2, Time(3, 0), Edited, "hello!", Some(1), false, false, None);
      && NotAllowed(mods, [said], 9, deletion) == None && NotAllowed(mods, [said], 7, edit) == None
      && !Conflicts([said], deletion) && !Conflicts(Accepted(mods, [said], deletion), edit)
      && View(mods, Accepted(mods, Accepted(mods, [said], deletion), edit), me) != View(mods, [said, deletion, edit], me)
  {
    var said := Entry(1, 7, 1, Time(1, 0), Said, "hello", None, false, false, None);
    var deletion := Entry(2, 9, 1, Time(2, 0), Deleted, "", Some(1), false, false, None);
    var edit := Entry(3, 7, 2, Time(3, 0), Edited, "hello!", Some(1), false, false, None);
    assert [said][..0] == [] && [said][1..] == [];
    assert Answered([said], 1) == Some(said) && LastDone(mods, [said], said) == None;
    TakenInTurn(mods, said, deletion, edit);
    DeletedCanBeRevived(mods, me);
  }

  /** What is taken in turn is compacted to what all of it would be. */
  lemma TakenInTurn(mods: Moderates, said: Entry, deletion: Entry, edit: Entry)
    requires Before(said, deletion) && Before(deletion, edit) && said.id != deletion.id && said.id != edit.id && deletion.id != edit.id
    requires said.kind == Said && deletion.kind == Deleted && edit.kind == Edited && said.author == edit.author != deletion.author
    requires said.sequence != edit.sequence && WellFormed([said, deletion, edit]) && Deletes(mods, deletion, said)
    ensures !Conflicts([said], deletion) && !Conflicts(Accepted(mods, [said], deletion), edit)
    ensures Accepted(mods, Accepted(mods, [said], deletion), edit) == Compacted(mods, [said, deletion, edit])
  {
    var once := DeletionTaken(mods, said, deletion);
    PlacedLast([said], deletion);
    PlacedLast([once, deletion], edit);
    var (all, now) := ([said, deletion, edit], [once, deletion, edit]);
    assert [said] + [deletion] == [said, deletion] && [once, deletion] + [edit] == now;
    TakenKeeps(mods, said, deletion, edit, once);
    hide Compacted, KeepsWhatIsKept, WellFormed, Placed, Place, Deletes;
    CompactionIsConfluent(mods, all, now);
  }

  lemma TakenKeeps(mods: Moderates, said: Entry, deletion: Entry, edit: Entry, once: Entry)
    requires (once == said || once == Wiped(said)) && Deletes(mods, deletion, said)
    ensures KeepsWhatIsKept(mods, [said, deletion, edit], [once, deletion, edit])
  {
    var all := [said, deletion, edit];
    assert all[1] == deletion && IsDeleted(mods, all, said);
  }

  lemma {:induction false} PlacedLast(es: seq<Entry>, m: Entry)
    requires forall e | e in es :: Before(e, m)
    ensures Place(es, m) == |es| && Placed(es, m) == es + [m]
  {
    if es != [] { PlacedLast(es[1..], m); }
  }

  lemma DeletionTaken(mods: Moderates, said: Entry, deletion: Entry) returns (once: Entry)
    requires said.kind == Said && deletion.kind == Deleted
    ensures Compacted(mods, [said, deletion]) == [once, deletion] && (once == said || once == Wiped(said))
  {
    once := Compacted(mods, [said, deletion])[0];
    assert |Compacted(mods, [said, deletion])| == 2;
  }

  predicate Clashes(e: Entry, m: Entry) {
    e.id == m.id || (e.author == m.author && e.sequence == m.sequence)
  }

  method FindClash(es: seq<Entry>, m: Entry) returns (i: nat)
    ensures i <= |es| && (Conflicts(es, m) <==> i < |es|)
    ensures i < |es| ==> (FirstConflict(es, m) <==> Core(es[i]) == Core(m))
  {
    i := 0;
    while i < |es| && !Clashes(es[i], m)
      invariant 0 <= i <= |es| && forall j | 0 <= j < i :: !Clashes(es[j], m)
    {
      i := i + 1;
    }
    FirstIs(es, m, i);
  }

  /** es, with m put where it belongs. */
  method PutIn(es: seq<Entry>, m: Entry) returns (now: seq<Entry>)
    ensures now == Placed(es, m)
  {
    var k := 0;
    while k < |es| && Before(es[k], m)
      invariant 0 <= k <= |es| && Place(es, m) == k + Place(es[k..], m)
    {
      assert es[k..][1..] == es[k + 1..];
      k := k + 1;
    }
    now := es[..k] + [m] + es[k..];
  }

  /** The first entry of es that m clashes with is m, but for its text. */
  ghost predicate FirstConflict(es: seq<Entry>, m: Entry) {
    es != [] && if Clashes(es[0], m) then Core(es[0]) == Core(m) else FirstConflict(es[1..], m)
  }

  lemma {:induction false} FirstIs(es: seq<Entry>, m: Entry, i: nat)
    requires i <= |es| && (forall j | 0 <= j < i :: !Clashes(es[j], m)) && (i < |es| ==> Clashes(es[i], m))
    ensures Conflicts(es, m) <==> i < |es|
    ensures i < |es| ==> (FirstConflict(es, m) <==> Core(es[i]) == Core(m))
  {
    if i > 0 {
      FirstIs(es[1..], m, i - 1);
      assert es == [es[0]] + es[1..];
    } else if es != [] {
      assert es[0] in es;
    }
  }

  lemma PlacedWell(es: seq<Entry>, m: Entry)
    requires InOrder(es) && DistinctIDs(es) && WellFormed(es) && WellFormed([m]) && !Conflicts(es, m)
    ensures InOrder(Placed(es, m)) && DistinctIDs(Placed(es, m)) && WellFormed(Placed(es, m))
  {
    assert m.id !in IDs(es) && m in [m];
    PlacedInOrder(es, m);
    var k := Place(es, m);
    assert forall i | 0 <= i < |es| :: es[i] in es && es[i].id != m.id;
    DistinctInserted(es, k, m);
    hide InOrder, Place, DistinctIDs;
  }

  lemma DistinctInserted(es: seq<Entry>, k: nat, m: Entry)
    requires k <= |es| && DistinctIDs(es) && forall i | 0 <= i < |es| :: es[i].id != m.id
    ensures DistinctIDs(es[..k] + [m] + es[k..])
  {
  }

  lemma CompactedWell(mods: Moderates, es: seq<Entry>)
    requires InOrder(es) && DistinctIDs(es) && WellFormed(es)
    ensures var now := Compacted(mods, es); InOrder(now) && DistinctIDs(now) && WellFormed(now)
  {
    CompactedNames(mods, es);
    var now := Compacted(mods, es);
    assert forall i | 0 <= i < |es| :: now[i].id == es[i].id && es[i] in es && (now[i] == es[i] || now[i] == Wiped(es[i]));
    hide Compacted, InOrder;
  }
}
