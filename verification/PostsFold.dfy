/** The fold of a channel, in place as the source does it (internal/spaces/channel.go:40-122): five passes over the
posts it shows, proved to leave exactly the view. */
module PostsFold {
  import opened Basics
  import opened Reactions
  import opened Posts
  import C = Conversation

  /** The messages, in order. */
  ghost function Messages(es: seq<Entry>): (ts: seq<Entry>)
    ensures forall t | t in ts :: t in es && IsPost(t.kind)
  {
    if es == [] then []
    else
      var (ts, t) := (Messages(es[..|es| - 1]), es[|es| - 1]);
      if IsPost(t.kind) then ts + [t] else ts
  }

  ghost predicate Indexes(ts: seq<Entry>, index: map<ID, nat>) {
    && (forall p | 0 <= p < |ts| :: ts[p].id in index && index[ts[p].id] == p)
    && (forall id | id in index :: index[id] < |ts| && ts[index[id]].id == id)
  }

  lemma {:induction false} ViewIsOfMessages(mods: Moderates, es: seq<Entry>, part: seq<Entry>, me: Key)
    ensures |ViewOf(mods, es, part, me)| == |Messages(part)|
    ensures forall p | 0 <= p < |Messages(part)| :: ViewOf(mods, es, part, me)[p] == ShownAs(mods, es, Messages(part)[p], me)
  {
    if part != [] { ViewIsOfMessages(mods, es, part[..|part| - 1], me); }
  }

  lemma AnsweredByIndex(es: seq<Entry>, index: map<ID, nat>, id: ID)
    requires DistinctIDs(es) && Indexes(Messages(es), index)
    ensures Answered(es, id) == if id in index then Some(Messages(es)[index[id]]) else None
  {
    var ts := Messages(es);
    AnsweredIsMessage(es, id);
    if Answered(es, id).Some? {
      var p :| 0 <= p < |ts| && ts[p] == Answered(es, id).value;
    }
    if id in index {
      assert ts[index[id]] in ts;
      AnsweredFinds(es, ts[index[id]]);
    }
  }

  lemma {:induction false} AnsweredIsMessage(es: seq<Entry>, id: ID)
    ensures Answered(es, id).Some? ==> Answered(es, id).value in Messages(es)
  {
    if es != [] { AnsweredIsMessage(es[..|es| - 1], id); }
  }

  lemma {:induction false} AnsweredFinds(es: seq<Entry>, t: Entry)
    requires DistinctIDs(es) && t in es && IsPost(t.kind)
    ensures Answered(es, t.id) == Some(t)
  {
    var e := es[|es| - 1];
    if e != t {
      assert es == es[..|es| - 1] + [e];
      var i :| 0 <= i < |es| && es[i] == t;
      assert i < |es| - 1;
      AnsweredFinds(es[..|es| - 1], t);
    }
  }

  /** The reactions to what shows. */
  ghost function ReactsTo(es: seq<Entry>, ids: set<ID>): seq<React> { OnlyTo(ReactsOf(es), ids) }

  // ---- The passes ----

  function Plain(t: Entry): Post {
    Post(t.id, t.author, t.time, t.text, false, t.wiped, false, t.file, [], None)
  }

  /** t as the entries es, so far, leave it. */
  ghost function SoFar(mods: Moderates, es: seq<Entry>, t: Entry): Post {
    var (edit, last) := (LatestEdit(es, t), LastDone(mods, es, t));
    Plain(t).(text := if edit.Some? then edit.value.text else t.text, edited := edit.Some?,
              deleted := if last.Some? then last.value.kind == Deleted else t.wiped,
              byModerator := IsDeletedByModerator(mods, es, t))
  }

  ghost function AllSoFar(mods: Moderates, es: seq<Entry>, ts: seq<Entry>): seq<Post> {
    seq(|ts|, p requires 0 <= p < |ts| => SoFar(mods, es, ts[p]))
  }

  lemma NoneNamed(es: seq<Entry>, i: nat)
    requires DistinctIDs(es) && i < |es|
    ensures forall t | t in Messages(es[..i]) :: t.id != es[i].id
  {
    assert forall t | t in es[..i] :: t.id != es[i].id;
  }

  lemma IndexGrows(ts: seq<Entry>, index: map<ID, nat>, t: Entry)
    requires Indexes(ts, index) && forall u | u in ts :: u.id != t.id
    ensures Indexes(ts + [t], index[t.id := |ts|])
  {
    assert forall p | 0 <= p < |ts| :: ts[p] in ts;
  }

  /** The first pass: the messages, and where each is. */
  method Collect(es: seq<Entry>) returns (ts: seq<Entry>, index: map<ID, nat>)
    requires DistinctIDs(es)
    ensures ts == Messages(es) && Indexes(ts, index)
  {
    ts, index := [], map[];
    for i := 0 to |es|
      invariant ts == Messages(es[..i]) && Indexes(ts, index)
    {
      hide Indexes;
      assert es[..i + 1][..i] == es[..i];
      NoneNamed(es, i);
      IndexGrows(ts, index, es[i]);
      if es[i].kind == Said || es[i].kind == Attached {
        index := index[es[i].id := |ts|];
        ts := ts + [es[i]];
      }
    }
    assert es[..|es|] == es;
  }

  /** How one more entry leaves t. */
  function Then(mods: Moderates, e: Entry, t: Entry, p: Post): Post {
    if Edits(e, t) then p.(text := e.text, edited := true, deleted := false)
    else if Deletes(mods, e, t) then p.(deleted := true, byModerator := p.byModerator || e.author != t.author)
    else p
  }

  lemma SoFarStep(mods: Moderates, es: seq<Entry>, e: Entry, t: Entry)
    ensures SoFar(mods, es + [e], t) == Then(mods, e, t, SoFar(mods, es, t))
  {
    assert (es + [e])[..|es|] == es;
    assert IsDeletedByModerator(mods, es + [e], t) <==> IsDeletedByModerator(mods, es, t) || (Deletes(mods, e, t) && e.author != t.author);
  }

  lemma ReactsToStep(es: seq<Entry>, e: Entry, ids: set<ID>)
    ensures ReactsTo(es + [e], ids) ==
      if e.kind == Reacted && e.target.Some? && e.target.value in ids
      then ReactsTo(es, ids) + [React(e.target.value, e.author, e.text, e.on)] else ReactsTo(es, ids)
  {
    assert (es + [e])[..|es|] == es;
    if e.kind == Reacted && e.target.Some? {
      var r := React(e.target.value, e.author, e.text, e.on);
      assert ReactsOf(es + [e]) == ReactsOf(es) + [r];
      OnlyToStep(ReactsOf(es), r, ids);
    } else {
      assert ReactsOf(es + [e]) == ReactsOf(es);
    }
  }

  lemma AllUntouched(mods: Moderates, es: seq<Entry>, e: Entry, ts: seq<Entry>)
    requires forall p | 0 <= p < |ts| :: e.target != Some(ts[p].id)
    ensures AllSoFar(mods, es + [e], ts) == AllSoFar(mods, es, ts)
  {
    hide SoFar;
    forall p | 0 <= p < |ts| ensures SoFar(mods, es + [e], ts[p]) == SoFar(mods, es, ts[p]) { SoFarStep(mods, es, e, ts[p]); }
  }

  lemma AllTouched(mods: Moderates, es: seq<Entry>, e: Entry, ts: seq<Entry>, i: nat)
    requires i < |ts| && forall p | 0 <= p < |ts| :: e.target == Some(ts[p].id) <==> p == i
    ensures AllSoFar(mods, es + [e], ts) == AllSoFar(mods, es, ts)[i := Then(mods, e, ts[i], SoFar(mods, es, ts[i]))]
  {
    hide SoFar;
    forall p | 0 <= p < |ts| ensures p != i ==> SoFar(mods, es + [e], ts[p]) == SoFar(mods, es, ts[p]) {
      SoFarStep(mods, es, e, ts[p]);
    }
    SoFarStep(mods, es, e, ts[i]);
  }

  lemma SoFarIs(mods: Moderates, es: seq<Entry>, t: Entry)
    ensures SoFar(mods, es, t).author == t.author && SoFar(mods, es, t).file == t.file
  {
  }

  /** The second pass takes an entry: an edit of its author's own text, a deletion of its author's own message or of one
      they moderate the author of, or a reaction. */
  method Take(mods: Moderates, e: Entry, ghost es: seq<Entry>, ghost ts: seq<Entry>, index: map<ID, nat>, out: seq<Post>, on: map<Slot, bool>, emojis: map<ID, seq<string>>)
    returns (out': seq<Post>, on': map<Slot, bool>, emojis': map<ID, seq<string>>)
    requires Indexes(ts, index) && forall t | t in ts :: IsPost(t.kind) && (t.kind == Attached <==> t.file.Some?)
    requires out == AllSoFar(mods, es, ts) && Notes(ReactsTo(es, index.Keys), on, emojis) && emojis.Keys <= index.Keys
    ensures out' == AllSoFar(mods, es + [e], ts) && Notes(ReactsTo(es + [e], index.Keys), on', emojis') && emojis'.Keys <= index.Keys
  {
    out', on', emojis' := out, on, emojis;
    ReactsToStep(es, e, index.Keys);
    hide SoFar, ReactsTo, Notes;
    if e.kind == Said || e.target == None {
      if e.target.Some? && e.target.value in index { AllTouched(mods, es, e, ts, index[e.target.value]); } else { AllUntouched(mods, es, e, ts); }
      return;
    }
    if e.target.value !in index {
      AllUntouched(mods, es, e, ts);
      return;
    }
    var i := index[e.target.value];
    AllTouched(mods, es, e, ts, i);
    SoFarIs(mods, es, ts[i]);
    assert ts[i] in ts;
    if e.kind != Reacted && e.author != out[i].author && !(e.kind == Deleted && mods(e.author, out[i].author)) { return; }
    match e.kind {
      case Edited =>
        if out[i].file == None { out' := out[i := out[i].(text := e.text, edited := true, deleted := false)]; }
      case Deleted =>
        out' := out[i := out[i].(deleted := true, byModerator := out[i].byModerator || e.author != out[i].author)];
      case Reacted =>
        on', emojis' := Note(ReactsTo(es, index.Keys), on, emojis, React(e.target.value, e.author, e.text, e.on));
      case _ =>
    }
  }

  /** t as it stands, before its reactions and what it answers. */
  ghost function Settled(mods: Moderates, es: seq<Entry>, t: Entry): Post {
    var s := StandingOf(mods, es, t);
    Post(t.id, t.author, t.time, s.text, s.edited, s.deleted, s.byModerator, s.file, [], None)
  }

  /** The third pass: what a deleted message keeps is nothing. */
  method Blank(mods: Moderates, ghost es: seq<Entry>, ghost ts: seq<Entry>, out: seq<Post>) returns (out': seq<Post>)
    requires out == AllSoFar(mods, es, ts)
    ensures |out'| == |ts| && forall p | 0 <= p < |ts| :: out'[p] == Settled(mods, es, ts[p])
  {
    out' := out;
    for i := 0 to |out|
      invariant |out'| == |ts|
      invariant forall p | 0 <= p < |ts| :: out'[p] == if p < i then Settled(mods, es, ts[p]) else SoFar(mods, es, ts[p])
    {
      if out'[i].deleted { out' := out'[i := out'[i].(text := "", edited := false, file := None)]; }
    }
  }

  ghost function WithReactions(mods: Moderates, es: seq<Entry>, t: Entry, me: Key): Post {
    var s := Settled(mods, es, t);
    s.(reactions := if s.deleted then [] else Tally(ReactsOf(es), t.id, me))
  }

  lemma WithReactionsIs(mods: Moderates, es: seq<Entry>, t: Entry, me: Key)
    ensures var s := Settled(mods, es, t);
      WithReactions(mods, es, t, me) == (if s.deleted then s else s.(reactions := Tally(ReactsOf(es), t.id, me))) && s == s.(reactions := [])
  {
  }

  /** The fourth pass: the reactions on each message, ranging over those that have any. */
  method PutReactions(mods: Moderates, ghost es: seq<Entry>, ghost ts: seq<Entry>, index: map<ID, nat>, on: map<Slot, bool>, emojis: map<ID, seq<string>>, me: Key, out: seq<Post>)
    returns (out': seq<Post>)
    requires Indexes(ts, index) && |out| == |ts| && forall p | 0 <= p < |ts| :: out[p] == Settled(mods, es, ts[p])
    requires Notes(ReactsTo(es, index.Keys), on, emojis) && emojis.Keys <= index.Keys
    ensures |out'| == |ts| && forall p | 0 <= p < |ts| :: out'[p] == WithReactions(mods, es, ts[p], me)
  {
    hide WithReactions, Settled, Tally, ReactsOf, OnlyTo, NotesOn, Emojis;
    out' := out;
    var left := emojis.Keys;
    while left != {}
      invariant left <= emojis.Keys && |out'| == |ts|
      invariant forall p | 0 <= p < |ts| ::
        out'[p] == if ts[p].id in emojis.Keys - left then WithReactions(mods, es, ts[p], me) else Settled(mods, es, ts[p])
    {
      var target :| target in left;
      left := left - {target};
      var i := index[target];
      WithReactionsIs(mods, es, ts[i], me);
      if !out'[i].deleted {
        var rs := Count(ReactsTo(es, index.Keys), on, emojis, target, emojis[target], me);
        SameTally(ReactsOf(es), index.Keys, target, me);
        out' := out'[i := out'[i].(reactions := rs)];
      }
    }
    forall p | 0 <= p < |ts| && ts[p].id !in emojis ensures out'[p] == WithReactions(mods, es, ts[p], me) {
      WithReactionsIs(mods, es, ts[p], me);
      Unreacted(ReactsOf(es), index.Keys, emojis, ts[p].id, me);
    }
  }

  lemma ShownIs(mods: Moderates, es: seq<Entry>, t: Entry, me: Key)
    ensures ShownAs(mods, es, t, me) == WithReactions(mods, es, t, me).(replyTo :=
      if t.kind != Said || t.target.None? then None else Some(QuoteOf(mods, es, t.target.value, me)))
    ensures WithReactions(mods, es, t, me).replyTo == None
  {
  }

  lemma QuoteIs(mods: Moderates, es: seq<Entry>, t: Option<Entry>, id: ID, me: Key, p: Post)
    requires t == Answered(es, id)
    requires t.Some? ==> p == WithReactions(mods, es, t.value, me) || p == ShownAs(mods, es, t.value, me)
    ensures QuoteOf(mods, es, id, me) == if t.None? then C.Quote(id, 0, "", false, true, false)
      else C.Quote(id, p.author, C.Excerpt(p.text), p.author == me, false, p.deleted)
  {
  }

  /** The last pass: what each message answers, as it shows. */
  method PutQuotes(mods: Moderates, ghost es: seq<Entry>, ts: seq<Entry>, index: map<ID, nat>, me: Key, out: seq<Post>) returns (out': seq<Post>)
    requires DistinctIDs(es) && ts == Messages(es) && Indexes(ts, index)
    requires |out| == |ts| && forall p | 0 <= p < |ts| :: out[p] == WithReactions(mods, es, ts[p], me)
    ensures |out'| == |ts| && forall p | 0 <= p < |ts| :: out'[p] == ShownAs(mods, es, ts[p], me)
  {
    hide ShownAs, WithReactions, QuoteOf, Answered, DistinctIDs, C.Excerpt;
    out' := out;
    for i := 0 to |ts|
      invariant |out'| == |ts|
      invariant forall p | 0 <= p < |ts| :: out'[p] == if p < i then ShownAs(mods, es, ts[p], me) else WithReactions(mods, es, ts[p], me)
    {
      ShownIs(mods, es, ts[i], me);
      if ts[i].kind == Said && ts[i].target.Some? {
        var target := ts[i].target.value;
        AnsweredByIndex(es, index, target);
        if target !in index {
          QuoteIs(mods, es, None, target, me, out'[i]);
          out' := out'[i := out'[i].(replyTo := Some(C.Quote(target, 0, "", false, true, false)))];
        } else {
          var t := out'[index[target]];
          QuoteIs(mods, es, Some(ts[index[target]]), target, me, t);
          out' := out'[i := out'[i].(replyTo := Some(C.Quote(target, t.author, C.Excerpt(t.text), t.author == me, false, t.deleted)))];
        }
      }
    }
  }

  /** The second pass over all of es. */
  method TakeAll(mods: Moderates, es: seq<Entry>, ts: seq<Entry>, index: map<ID, nat>)
    returns (out: seq<Post>, on: map<Slot, bool>, emojis: map<ID, seq<string>>)
    requires Indexes(ts, index) && forall t | t in ts :: IsPost(t.kind) && (t.kind == Attached <==> t.file.Some?)
    ensures out == AllSoFar(mods, es, ts) && Notes(ReactsTo(es, index.Keys), on, emojis) && emojis.Keys <= index.Keys
  {
    out := seq(|ts|, p requires 0 <= p < |ts| => Plain(ts[p]));
    on, emojis := map[], map[];
    assert out == AllSoFar(mods, es[..0], ts);
    for i := 0 to |es|
      invariant out == AllSoFar(mods, es[..i], ts)
      invariant Notes(ReactsTo(es[..i], index.Keys), on, emojis) && emojis.Keys <= index.Keys
    {
      hide *;
      out, on, emojis := Take(mods, es[i], es[..i], ts, index, out, on, emojis);
      assert es[..i] + [es[i]] == es[..i + 1];
    }
    assert es[..|es|] == es;
  }

  /** The channel as me sees it. */
  method Fold(mods: Moderates, es: seq<Entry>, me: Key) returns (out: seq<Post>)
    requires DistinctIDs(es) && WellFormed(es)
    ensures out == View(mods, es, me)
  {
    var ts, index := Collect(es);
    assert forall t | t in ts :: t in es && IsPost(t.kind) && (t.kind == Attached <==> t.file.Some?);
    ViewIsOfMessages(mods, es, es, me);
    var on, emojis;
    out, on, emojis := TakeAll(mods, es, ts, index);
    hide AllSoFar, ShownAs, ViewOf, Messages, Indexes, Notes, ReactsTo, WithReactions, Settled;
    out := Blank(mods, es, ts, out);
    out := PutReactions(mods, es, ts, index, on, emojis, me, out);
    out := PutQuotes(mods, es, ts, index, me, out);
    assert out == View(mods, es, me);
  }
}
