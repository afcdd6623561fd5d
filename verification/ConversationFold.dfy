/** The fold of a conversation, in place as the source does it (internal/messages/entries.go:121-205): five passes
over the messages it shows, proved to leave exactly the view. */
module ConversationFold {
  import opened Basics
  import opened Reactions
  import opened Conversation

  /** The messages that show, in order. */
  ghost function Messages(es: seq<Entry>): (ts: seq<Entry>)
    ensures forall t | t in ts :: t in es && Visible(t)
  {
    if es == [] then []
    else
      var (ts, t) := (Messages(es[..|es| - 1]), es[|es| - 1]);
      if Visible(t) then ts + [t] else ts
  }

  ghost predicate Indexes(ts: seq<Entry>, index: map<ID, nat>) {
    && (forall p | 0 <= p < |ts| :: ts[p].id in index && index[ts[p].id] == p)
    && (forall id | id in index :: index[id] < |ts| && ts[index[id]].id == id)
  }

  lemma {:induction false} ViewIsOfMessages(es: seq<Entry>, part: seq<Entry>, me: Key)
    ensures |ViewOf(es, part, me)| == |Messages(part)|
    ensures forall p | 0 <= p < |Messages(part)| :: ViewOf(es, part, me)[p] == ShownAs(es, Messages(part)[p], me)
  {
    if part != [] { ViewIsOfMessages(es, part[..|part| - 1], me); }
  }

  lemma AnsweredByIndex(es: seq<Entry>, index: map<ID, nat>, id: ID)
    requires DistinctIDs(es) && Indexes(Messages(es), index)
    ensures Answered(es, id) == if id in index then Some(Messages(es)[index[id]]) else None
  {
    var ts := Messages(es);
    AnsweredIsMessage(es, id);
    if Answered(es, id).Some? {
      var p :| 0 <= p < |ts| && ts[p] == Answered(es, id).value;
    }
    if id in index {
      assert ts[index[id]] in ts;
      AnsweredFinds(es, ts[index[id]]);
    }
  }

  lemma {:induction false} AnsweredIsMessage(es: seq<Entry>, id: ID)
    ensures Answered(es, id).Some? ==> Answered(es, id).value in Messages(es)
  {
    if es != [] { AnsweredIsMessage(es[..|es| - 1], id); }
  }

  lemma {:induction false} AnsweredFinds(es: seq<Entry>, t: Entry)
    requires DistinctIDs(es) && t in es && Visible(t)
    ensures Answered(es, t.id) == Some(t)
  {
    var e := es[|es| - 1];
    if e != t {
      assert es == es[..|es| - 1] + [e];
      var i :| 0 <= i < |es| && es[i] == t;
      assert i < |es| - 1;
      AnsweredFinds(es[..|es| - 1], t);
    }
  }

  /** The reactions to what shows. */
  ghost function ReactsTo(es: seq<Entry>, ids: set<ID>): seq<React> { OnlyTo(ReactsOf(es), ids) }

  // ---- The passes ----

  function Plain(t: Entry): Shown {
    Shown(t.id, t.author, t.sequence, t.time, t.kind, t.target, t.text, false, false, t.file, [], None)
  }

  /** t as the entries es, so far, leave it. */
  ghost function SoFar(es: seq<Entry>, t: Entry): Shown {
    var edit := if t.kind == Text then LatestEdit(es, t, true) else None;
    Plain(t).(text := if edit.Some? then edit.value.text else t.text, edited := edit.Some?, deleted := IsDeleted(es, t))
  }

  ghost function AllSoFar(es: seq<Entry>, ts: seq<Entry>): seq<Shown> {
    seq(|ts|, p requires 0 <= p < |ts| => SoFar(es, ts[p]))
  }

  /** The first pass: the messages that show, and where each is. */
  method Collect(es: seq<Entry>) returns (ts: seq<Entry>, index: map<ID, nat>)
    requires DistinctIDs(es)
    ensures ts == Messages(es) && Indexes(ts, index)
  {
    ts, index := [], map[];
    for i := 0 to |es|
      invariant ts == Messages(es[..i]) && Indexes(ts, index)
    {
      assert es[..i + 1][..i] == es[..i];
      assert forall t | t in es[..i] :: t.id != es[i].id;
      assert forall p | 0 <= p < |ts| :: ts[p] in es[..i];
      if Visible(es[i]) {
        index := index[es[i].id := |ts|];
        ts := ts + [es[i]];
      }
    }
    assert es[..|es|] == es;
  }

  lemma SoFarStep(es: seq<Entry>, e: Entry, t: Entry)
    ensures SoFar(es + [e], t) ==
      if Edits(e, t) && !e.wiped && t.kind == Text then SoFar(es, t).(text := e.text, edited := true)
      else if Deletes(e, t) then SoFar(es, t).(deleted := true)
      else SoFar(es, t)
  {
    assert (es + [e])[..|es|] == es;
    assert IsDeleted(es + [e], t) <==> IsDeleted(es, t) || Deletes(e, t);
  }

  /** The second pass takes an entry: an edit or a deletion of its author's own message, or a reaction. */
  method Take(e: Entry, ghost es: seq<Entry>, ts: seq<Entry>, index: map<ID, nat>, out: seq<Shown>, on: map<Slot, bool>, emojis: map<ID, seq<string>>)
    returns (out': seq<Shown>, on': map<Slot, bool>, emojis': map<ID, seq<string>>)
    requires Indexes(ts, index) && out == AllSoFar(es, ts) && Notes(ReactsTo(es, index.Keys), on, emojis) && emojis.Keys <= index.Keys
    ensures out' == AllSoFar(es + [e], ts) && Notes(ReactsTo(es + [e], index.Keys), on', emojis') && emojis'.Keys <= index.Keys
    // What others wrote it leaves be.
    ensures forall p | 0 <= p < |ts| && ts[p].author != e.author :: out'[p] == out[p]
  {
    out', on', emojis' := out, on, emojis;
    ReactsToStep(es, e, index.Keys);
    hide LatestEdit, IsDeleted, ReactsTo, Notes;
    if e.target == None || e.target.value !in index {
      AllUntouched(es, e, ts);
      return;
    }
    var i := index[e.target.value];
    AllTouched(es, e, ts, i);
    match e.kind {
      case Editing =>
        if e.author == out[i].author && !e.wiped && out[i].kind == Text {
          out' := out[i := out[i].(text := e.text, edited := true)];
        }
      case Deleting =>
        if e.author == out[i].author { out' := out[i := out[i].(deleted := true)]; }
      case Reacting =>
        on', emojis' := Note(ReactsTo(es, index.Keys), on, emojis, React(e.target.value, e.author, e.text, e.on));
      case _ =>
    }
  }

  lemma ReactsToStep(es: seq<Entry>, e: Entry, ids: set<ID>)
    ensures ReactsTo(es + [e], ids) ==
      if e.kind == Reacting && e.target.Some? && e.target.value in ids
      then ReactsTo(es, ids) + [React(e.target.value, e.author, e.text, e.on)] else ReactsTo(es, ids)
  {
    assert (es + [e])[..|es|] == es;
    if e.kind == Reacting && e.target.Some? {
      var r := React(e.target.value, e.author, e.text, e.on);
      assert ReactsOf(es + [e]) == ReactsOf(es) + [r];
      OnlyToStep(ReactsOf(es), r, ids);
    } else {
      assert ReactsOf(es + [e]) == ReactsOf(es);
    }
  }

  lemma AllUntouched(es: seq<Entry>, e: Entry, ts: seq<Entry>)
    requires forall p | 0 <= p < |ts| :: e.target != Some(ts[p].id)
    ensures AllSoFar(es + [e], ts) == AllSoFar(es, ts)
  {
    hide SoFar, IsDeleted, LatestEdit;
    forall p | 0 <= p < |ts| ensures SoFar(es + [e], ts[p]) == SoFar(es, ts[p]) { SoFarStep(es, e, ts[p]); }
  }

  lemma AllTouched(es: seq<Entry>, e: Entry, ts: seq<Entry>, i: nat)
    requires i < |ts| && forall p | 0 <= p < |ts| :: e.target == Some(ts[p].id) <==> p == i
    ensures AllSoFar(es + [e], ts) == AllSoFar(es, ts)[i := SoFar(es + [e], ts[i])]
    ensures SoFar(es + [e], ts[i]) ==
      if Edits(e, ts[i]) && !e.wiped && ts[i].kind == Text then SoFar(es, ts[i]).(text := e.text, edited := true)
      else if Deletes(e, ts[i]) then SoFar(es, ts[i]).(deleted := true)
      else SoFar(es, ts[i])
  {
    hide SoFar, IsDeleted, LatestEdit;
    forall p | 0 <= p < |ts| ensures p != i ==> SoFar(es + [e], ts[p]) == SoFar(es, ts[p]) {
      SoFarStep(es, e, ts[p]);
    }
    SoFarStep(es, e, ts[i]);
  }

  /** t as its author's entries leave it, before its reactions and what it answers. */
  ghost function Settled(es: seq<Entry>, t: Entry): Shown {
    var s := SaidOf(es, t);
    Plain(t).(text := s.text, edited := s.edited, deleted := s.deleted, file := s.file)
  }

  /** The third pass: what a deleted message keeps is nothing. */
  method Blank(ghost es: seq<Entry>, ts: seq<Entry>, out: seq<Shown>) returns (out': seq<Shown>)
    requires out == AllSoFar(es, ts)
    ensures |out'| == |ts| && forall p | 0 <= p < |ts| :: out'[p] == Settled(es, ts[p])
  {
    out' := out;
    for i := 0 to |ts|
      invariant |out'| == |ts|
      invariant forall p | 0 <= p < |ts| :: out'[p] == if p < i then Settled(es, ts[p]) else SoFar(es, ts[p])
    {
      if out'[i].deleted || (ts[i].wiped && !out'[i].edited) {
        out' := out'[i := out'[i].(deleted := true, edited := false, text := "", file := None)];
      }
    }
  }

  ghost function Reacted(es: seq<Entry>, t: Entry, me: Key): Shown {
    var s := Settled(es, t);
    s.(reactions := if s.deleted then [] else Tally(ReactsOf(es), t.id, me))
  }

  lemma ReactedIs(es: seq<Entry>, t: Entry, me: Key)
    ensures var s := Settled(es, t);
      Reacted(es, t, me) == (if s.deleted then s else s.(reactions := Tally(ReactsOf(es), t.id, me))) && s == s.(reactions := [])
  {
  }

  /** The fourth pass: the reactions on each message, ranging over those that have any. */
  method PutReactions(ghost es: seq<Entry>, ts: seq<Entry>, index: map<ID, nat>, on: map<Slot, bool>, emojis: map<ID, seq<string>>, me: Key, out: seq<Shown>)
    returns (out': seq<Shown>)
    requires Indexes(ts, index) && |out| == |ts| && forall p | 0 <= p < |ts| :: out[p] == Settled(es, ts[p])
    requires Notes(ReactsTo(es, index.Keys), on, emojis) && emojis.Keys <= index.Keys
    ensures |out'| == |ts| && forall p | 0 <= p < |ts| :: out'[p] == Reacted(es, ts[p], me)
  {
    hide Reacted, Settled, Tally, ReactsOf, OnlyTo, NotesOn, Emojis;
    out' := out;
    var left := emojis.Keys;
    while left != {}
      invariant left <= emojis.Keys && |out'| == |ts|
      invariant forall p | 0 <= p < |ts| :: out'[p] == if ts[p].id in emojis.Keys - left then Reacted(es, ts[p], me) else Settled(es, ts[p])
    {
      var target :| target in left;
      left := left - {target};
      var i := index[target];
      ReactedIs(es, ts[i], me);
      if !out'[i].deleted {
        var rs := Count(ReactsTo(es, index.Keys), on, emojis, target, emojis[target], me);
        SameTally(ReactsOf(es), index.Keys, target, me);
        out' := out'[i := out'[i].(reactions := rs)];
      }
    }
    forall p | 0 <= p < |ts| && ts[p].id !in emojis ensures out'[p] == Reacted(es, ts[p], me) {
      ReactedIs(es, ts[p], me);
      Unreacted(ReactsOf(es), index.Keys, emojis, ts[p].id, me);
    }
  }

  /** What is left to be shown of a message with its reactions is what it answers. */
  lemma ShownIs(es: seq<Entry>, t: Entry, me: Key)
    ensures Reacted(es, t, me).target == t.target
    ensures ShownAs(es, t, me) ==
      if t.target.None? then Reacted(es, t, me) else Reacted(es, t, me).(replyTo := Some(QuoteOf(es, t.target.value, me)))
  {
    hide Tally, ReactsOf, QuoteOf;
  }

  /** A quote says of what it quotes what is shown of it, however far the loop is. */
  lemma QuoteIs(es: seq<Entry>, t: Option<Entry>, id: ID, me: Key, s: Shown)
    requires Answered(es, id) == t && (t.Some? ==> s == ShownAs(es, t.value, me) || s == Reacted(es, t.value, me))
    ensures QuoteOf(es, id, me) ==
      if t.None? then Quote(id, 0, "", false, true, false) else Quote(id, s.author, Excerpt(s.text), s.author == me, false, s.deleted)
  {
    hide Tally, ReactsOf, Answered, Excerpt;
  }

  /** The last pass: what each message answers, as it shows. */
  method PutQuotes(ghost es: seq<Entry>, ts: seq<Entry>, index: map<ID, nat>, me: Key, out: seq<Shown>) returns (out': seq<Shown>)
    requires DistinctIDs(es) && ts == Messages(es) && Indexes(ts, index)
    requires |out| == |ts| && forall p | 0 <= p < |ts| :: out[p] == Reacted(es, ts[p], me)
    ensures |out'| == |ts| && forall p | 0 <= p < |ts| :: out'[p] == ShownAs(es, ts[p], me)
  {
    hide ShownAs, Reacted, QuoteOf, Answered, DistinctIDs, Excerpt;
    out' := out;
    for i := 0 to |ts|
      invariant |out'| == |ts|
      invariant forall p | 0 <= p < |ts| :: out'[p] == if p < i then ShownAs(es, ts[p], me) else Reacted(es, ts[p], me)
    {
      ShownIs(es, ts[i], me);
      if out'[i].target.Some? {
        var target := out'[i].target.value;
        AnsweredByIndex(es, index, target);
        if target !in index {
          QuoteIs(es, None, target, me, out'[i]);
          out' := out'[i := out'[i].(replyTo := Some(Quote(target, 0, "", false, true, false)))];
        } else {
          var t := out'[index[target]];
          QuoteIs(es, Some(ts[index[target]]), target, me, t);
          out' := out'[i := out'[i].(replyTo := Some(Quote(target, t.author, Excerpt(t.text), t.author == me, false, t.deleted)))];
        }
      }
    }
  }

  /** The conversation as me sees it. */
  method Fold(es: seq<Entry>, me: Key) returns (out: seq<Shown>)
    requires DistinctIDs(es)
    ensures out == View(es, me)
  {
    var ts, index := Collect(es);
    out := seq(|ts|, p requires 0 <= p < |ts| => Plain(ts[p]));
    var on: map<Slot, bool>, emojis: map<ID, seq<string>> := map[], map[];
    assert out == AllSoFar(es[..0], ts);
    for i := 0 to |es|
      invariant out == AllSoFar(es[..i], ts)
      invariant Notes(ReactsTo(es[..i], index.Keys), on, emojis) && emojis.Keys <= index.Keys
    {
      hide *;
      out, on, emojis := Take(es[i], es[..i], ts, index, out, on, emojis);
      assert es[..i] + [es[i]] == es[..i + 1];
    }
    assert es[..|es|] == es;
    out := Blank(es, ts, out);
    out := PutReactions(es, ts, index, on, emojis, me, out);
    out := PutQuotes(es, ts, index, me, out);
    ViewIsOfMessages(es, es, me);
    assert out == View(es, me);
  }
}
