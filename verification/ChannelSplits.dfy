/** Runs of a channel that end with members who hold the same entries and show them differently.

internal/spaces/channel.go:62, 182-239 and internal/spaces/sync.go:122-165: what ChannelGossip proves of members who agree
is true of no more than it says. */
module ChannelSplits {
  import opened Basics
  import opened Posts
  import opened ChannelGossip
  import A = Authority
  import Permissions

  const SAID := Entry(1, 7, 1, Time(1, 0), Said, "hello", None, false, false, None)
  const EDIT := Entry(2, 7, 2, Time(2, 0), Edited, "hello!", Some(1), false, false, None)
  const DELETION := Entry(2, 9, 1, Time(2, 0), Deleted, "", Some(1), false, false, None)

  /** A world so far, each of whose members keeps what it says. */
  ghost predicate Keeps(w: World, channel: ID, logs: map<Key, seq<Entry>>, written: seq<Entry>, sent: set<Entry>) {
    w.channel == channel && w.logs == logs && w.written == written && sent <= w.copies
  }

  lemma PlacedAlone(m: Entry)
    ensures Placed([], m) == [m] && Placed([SAID], EDIT) == [SAID, EDIT] && Placed([SAID], DELETION) == [SAID, DELETION]
    ensures Placed([Wiped(SAID)], DELETION) == [Wiped(SAID), DELETION] && Placed([], DELETION) == [DELETION]
  {
    assert [SAID][1..] == [] && [Wiped(SAID)][1..] == [];
  }

  /** 7 says hello, and 8 and 9 are passed it. */
  function Told(v: A.Space): seq<Move> { [Write(7, SAID, v), Pass(8, SAID, v), Pass(9, SAID, v)] }

  lemma RunMore(w: World, moves: seq<Move>, move: Move)
    ensures Run(w, moves + [move]) == Moved(Run(w, moves), move)
  {
    assert (moves + [move])[..|moves|] == moves;
    hide Moved;
  }

  lemma SaidIsNotGone(mods: Moderates)
    ensures Compacted(mods, [SAID]) == [SAID] && Compacted(mods, [DELETION]) == [DELETION]
  {
    assert !IsGone(mods, [SAID], SAID) by { hide Deletes; assert forall e | e in [SAID] :: e == SAID; }
    assert !IsGone(mods, [DELETION], DELETION);
  }

  lemma WriteLeaves(w: World, channel: ID, logs: map<Key, seq<Entry>>, written: seq<Entry>, sent: set<Entry>, who: Key, m: Entry, v: A.Space, es: seq<Entry>, more: set<Entry>)
    requires Keeps(w, channel, logs, written, sent) && who in logs && !Conflicts(written, m) && WellFormed([m]) && !m.wiped
    requires Written(Permissions.ModeratesIn(v), logs[who], m) == es && more <= sent + {m} + AllOf(es)
    ensures Keeps(Moved(w, Write(who, m, v)), channel, logs[who := es], Placed(written, m), more)
  {
    hide Written, Placed, Conflicts, WellFormed;
  }

  lemma PassLeaves(w: World, channel: ID, logs: map<Key, seq<Entry>>, written: seq<Entry>, sent: set<Entry>, to: Key, m: Entry, v: A.Space, es: seq<Entry>)
    requires Keeps(w, channel, logs, written, sent) && to in logs && m in sent && Takes(v, channel, m)
    requires Accepted(Permissions.ModeratesIn(v), logs[to], m) == es
    ensures Keeps(Moved(w, Pass(to, m, v)), channel, logs[to := es], written, sent)
  {
    hide Accepted, Takes;
  }

  lemma FirstTaken(mods: Moderates, m: Entry)
    requires m.kind == Said
    ensures Accepted(mods, [], m) == [m] && !Conflicts([], m)
  {
    hide Compacted;
  }

  lemma AloneFormed(m: Entry)
    requires m.kind != Attached && m.file.None? && !m.wiped
    ensures WellFormed([m])
  {
    assert forall e | e in [m] :: e == m;
  }

  lemma SaidLeaves(mods: Moderates)
    ensures Written(mods, [], SAID) == [SAID]
  {
    PlacedAlone(SAID);
    SaidIsNotGone(mods);
    hide Placed, Compacted, Accepted, WellFormed, Conflicts;
  }

  const NONE: map<Key, seq<Entry>> := map[6 := [], 7 := [], 8 := [], 9 := []]

  lemma ThreeMoves(w: World, a: Move, b: Move, c: Move)
    ensures Run(w, [a, b, c]) == Moved(Moved(Moved(w, a), b), c)
  {
    assert [] + [a] == [a] && [a] + [b] == [a, b] && [a, b] + [c] == [a, b, c];
    RunMore(w, [], a);
    RunMore(w, [a], b);
    RunMore(w, [a, b], c);
    assert Run(w, []) == w;
    hide Run, Moved;
  }

  lemma FirstSaid(w: World, v: A.Space, channel: ID)
    requires Keeps(w, channel, NONE, [], {})
    ensures Keeps(Moved(w, Write(7, SAID, v)), channel, NONE[7 := [SAID]], [SAID], {SAID})
  {
    hide Moved, Placed, Keeps, Written, Conflicts, WellFormed, AllOf, Accepted;
    var mods := Permissions.ModeratesIn(v);
    PlacedAlone(SAID);
    AloneFormed(SAID);
    FirstTaken(mods, SAID);
    SaidLeaves(mods);
    WriteLeaves(w, channel, NONE, [], {}, 7, SAID, v, [SAID], {SAID});
  }

  lemma SaidPassed(w: World, v: A.Space, channel: ID)
    requires Keeps(w, channel, NONE[7 := [SAID]], [SAID], {SAID}) && Takes(v, channel, SAID)
    ensures Keeps(Moved(w, Pass(8, SAID, v)), channel, NONE[7 := [SAID]][8 := [SAID]], [SAID], {SAID})
  {
    hide *;
    ExampleIs();
    FirstTaken(Permissions.ModeratesIn(v), SAID);
    PassLeaves(w, channel, NONE[7 := [SAID]], [SAID], {SAID}, 8, SAID, v, [SAID]);
  }

  lemma SaidPassedOn(w: World, v: A.Space, channel: ID)
    requires Keeps(w, channel, NONE[7 := [SAID]][8 := [SAID]], [SAID], {SAID}) && Takes(v, channel, SAID)
    ensures Keeps(Moved(w, Pass(9, SAID, v)), channel, TOLD, [SAID], {SAID})
  {
    assert TOLD == NONE[7 := [SAID]][8 := [SAID]][9 := [SAID]];
    hide *;
    ExampleIs();
    FirstTaken(Permissions.ModeratesIn(v), SAID);
    PassLeaves(w, channel, NONE[7 := [SAID]][8 := [SAID]], [SAID], {SAID}, 9, SAID, v, [SAID]);
  }

  lemma TellingLeaves(v: A.Space, channel: ID)
    requires Takes(v, channel, SAID)
    ensures Keeps(Run(Begun(channel, {6, 7, 8, 9}), Told(v)), channel, TOLD, [SAID], {SAID})
  {
    var begun := Begun(channel, {6, 7, 8, 9});
    assert Told(v) == [Write(7, SAID, v), Pass(8, SAID, v), Pass(9, SAID, v)];
    hide *;
    ThreeMoves(begun, Write(7, SAID, v), Pass(8, SAID, v), Pass(9, SAID, v));
    BegunKeeps(channel);
    FirstSaid(begun, v, channel);
    SaidPassed(Moved(begun, Write(7, SAID, v)), v, channel);
    SaidPassedOn(Moved(Moved(begun, Write(7, SAID, v)), Pass(8, SAID, v)), v, channel);
  }

  /** What the entries are, and whom the maps hold. */
  lemma ExampleIs()
    ensures SAID.kind == Said && !SAID.wiped && !EDIT.wiped && !DELETION.wiped && DELETION.kind == Deleted
    ensures NONE.Keys == TOLD.Keys == {6, 7, 8, 9} && forall k | k in NONE :: NONE[k] == []
  {
  }

  lemma WrittenIs(mods: Moderates, es: seq<Entry>, m: Entry)
    ensures Written(mods, es, m) == Compacted(mods, Placed(es, m))
    ensures !Conflicts(es, m) && m.kind == Deleted ==> Accepted(mods, es, m) == Compacted(mods, Placed(es, m))
  {
    hide Compacted, Placed, Conflicts;
  }

  lemma ApartAndFormed()
    ensures !Conflicts([SAID], DELETION) && !Conflicts([SAID], EDIT) && WellFormed([DELETION]) && WellFormed([EDIT])
  {
    AloneFormed(DELETION);
    AloneFormed(EDIT);
    hide WellFormed;
  }

  lemma BegunKeeps(channel: ID)
    ensures Keeps(Begun(channel, {6, 7, 8, 9}), channel, NONE, [], {})
  {
  }

  /** What holds of the channel once 7 said hello. */
  const TOLD: map<Key, seq<Entry>> := NONE[7 := [SAID]][8 := [SAID]][9 := [SAID]]

  lemma CompactedDeletion(mods: Moderates)
    ensures mods(9, 7) ==> Compacted(mods, [SAID, DELETION]) == [Wiped(SAID), DELETION]
    ensures !mods(9, 7) ==> Compacted(mods, [SAID, DELETION]) == [SAID, DELETION]
  {
    var es := [SAID, DELETION];
    assert Deletes(mods, DELETION, SAID) == mods(9, 7) && es[..1] == [SAID];
    assert DELETION in es && IsDeleted(mods, es, SAID) == mods(9, 7) && LatestEdit(es, SAID).None?;
    assert !IsGone(mods, es, DELETION);
  }

  lemma CompactedEdit(mods: Moderates)
    ensures Compacted(mods, [SAID, EDIT]) == [Wiped(SAID), EDIT]
  {
    var es := [SAID, EDIT];
    assert es[..1] == [SAID] && LatestEdit(es, SAID) == Some(EDIT);
    assert !IsDeleted(mods, es, SAID) && forall t | t in es && Edits(EDIT, t) :: t == SAID;
    assert IsGone(mods, es, SAID) && !IsGone(mods, es, EDIT);
  }

  lemma DeletionLeaves(mods: Moderates)
    ensures mods(9, 7) ==> Written(mods, [SAID], DELETION) == Accepted(mods, [SAID], DELETION) == [Wiped(SAID), DELETION]
    ensures !mods(9, 7) ==> Accepted(mods, [SAID], DELETION) == [SAID, DELETION]
    ensures !Conflicts([SAID], DELETION) && WellFormed([DELETION])
  {
    hide *;
    ExampleIs();
    ApartAndFormed();
    PlacedAlone(SAID);
    CompactedDeletion(mods);
    WrittenIs(mods, [SAID], DELETION);
  }

  lemma FourMore(w: World, moves: seq<Move>, a: Move, b: Move, c: Move, d: Move)
    ensures Run(w, moves + [a, b, c, d]) == Moved(Moved(Moved(Moved(Run(w, moves), a), b), c), d)
  {
    assert moves + [a, b, c, d] == moves + [a] + [b] + [c] + [d];
    RunMore(w, moves, a);
    RunMore(w, moves + [a], b);
    RunMore(w, moves + [a] + [b], c);
    RunMore(w, moves + [a] + [b] + [c], d);
    hide Run, Moved;
  }

  const WHOLE: seq<Entry> := [SAID, DELETION]
  const LEFT: seq<Entry> := [Wiped(SAID), DELETION]

  function Demotion(v: A.Space, now: A.Space): seq<Move> {
    Told(v) + [Pass(6, SAID, v), Write(9, DELETION, v), Pass(8, DELETION, v), Pass(6, DELETION, now)]
  }

  /** 6 is told too, and 9 deletes what was said. */
  lemma DeletingLeaves(w: World, v: A.Space, channel: ID)
    requires Keeps(w, channel, TOLD, [SAID], {SAID}) && Takes(v, channel, SAID) && Permissions.ModeratesIn(v)(9, 7)
    ensures Keeps(Moved(Moved(w, Pass(6, SAID, v)), Write(9, DELETION, v)), channel, TOLD[6 := [SAID]][9 := LEFT], WHOLE, {SAID, DELETION})
  {
    hide Moved, Takes, Keeps, Placed, Written, Accepted, Conflicts, WellFormed, AllOf;
    FirstTaken(Permissions.ModeratesIn(v), SAID);
    PassLeaves(w, channel, TOLD, [SAID], {SAID}, 6, SAID, v, [SAID]);
    DeletionLeaves(Permissions.ModeratesIn(v));
    PlacedAlone(SAID);
    WriteLeaves(Moved(w, Pass(6, SAID, v)), channel, TOLD[6 := [SAID]], [SAID], {SAID}, 9, DELETION, v, LEFT, {SAID, DELETION});
  }

  /** 8 is passed the deletion while 9 moderates, and 6 once it does not. */
  lemma DeletionPassed(w: World, v: A.Space, now: A.Space, channel: ID)
    requires Keeps(w, channel, TOLD[6 := [SAID]][9 := LEFT], WHOLE, {SAID, DELETION}) && Takes(v, channel, DELETION) && Takes(now, channel, DELETION)
    requires Permissions.ModeratesIn(v)(9, 7) && !Permissions.ModeratesIn(now)(9, 7)
    ensures Keeps(Moved(Moved(w, Pass(8, DELETION, v)), Pass(6, DELETION, now)), channel, TOLD[6 := [SAID]][9 := LEFT][8 := LEFT][6 := WHOLE], WHOLE, {SAID, DELETION})
  {
    hide Moved, Takes, Keeps, Placed, Written, Accepted, Conflicts, WellFormed, AllOf;
    DeletionLeaves(Permissions.ModeratesIn(v));
    DeletionLeaves(Permissions.ModeratesIn(now));
    PassLeaves(w, channel, TOLD[6 := [SAID]][9 := LEFT], WHOLE, {SAID, DELETION}, 8, DELETION, v, LEFT);
    PassLeaves(Moved(w, Pass(8, DELETION, v)), channel, TOLD[6 := [SAID]][9 := LEFT][8 := LEFT], WHOLE, {SAID, DELETION}, 6, DELETION, now, WHOLE);
  }

  lemma DemotionLeaves(v: A.Space, now: A.Space, channel: ID)
    requires Takes(v, channel, SAID) && Takes(v, channel, DELETION) && Takes(now, channel, DELETION)
    requires Permissions.ModeratesIn(v)(9, 7) && !Permissions.ModeratesIn(now)(9, 7)
    ensures Keeps(Run(Begun(channel, {6, 7, 8, 9}), Demotion(v, now)), channel, TOLD[6 := [SAID]][9 := LEFT][8 := LEFT][6 := WHOLE], WHOLE, {SAID, DELETION})
  {
    var begun := Begun(channel, {6, 7, 8, 9});
    var w := Run(begun, Told(v));
    FourMore(begun, Told(v), Pass(6, SAID, v), Write(9, DELETION, v), Pass(8, DELETION, v), Pass(6, DELETION, now));
    assert Run(begun, Demotion(v, now)) == Moved(Moved(Moved(Moved(w, Pass(6, SAID, v)), Write(9, DELETION, v)), Pass(8, DELETION, v)), Pass(6, DELETION, now));
    hide *;
    TellingLeaves(v, channel);
    DeletingLeaves(w, v, channel);
    DeletionPassed(Moved(Moved(w, Pass(6, SAID, v)), Write(9, DELETION, v)), v, now, channel);
  }

  lemma DemotionTells(was: Moderates, mods: Moderates, me: Key)
    requires was(9, 7) && !mods(9, 7)
    ensures View(mods, WHOLE, me) != View(mods, LEFT, me) && Compacted(mods, WHOLE) != Compacted(mods, LEFT) && IDs(WHOLE) == IDs(LEFT)
  {
    DemotionIsLost(was, mods, me);
    CompactedDeletion(was);
    assert SAID in WHOLE && DELETION in WHOLE && Wiped(SAID) in LEFT && DELETION in LEFT;
    hide View, Compacted;
  }

  /** 9, who moderates 7, deletes what 7 said, and is then made a plain member. 8 is told of the deletion first, and wipes what
      was said; 6 is told of the demotion first, and takes the deletion all the same, since 9 still writes. Both then hold
      all that was written, and know the same of the space, and one shows what was said, and the other that it was deleted;
      and so they compact it, for good. */
  lemma DemotionSplits(v: A.Space, now: A.Space, channel: ID, me: Key)
    requires Takes(v, channel, SAID) && Takes(v, channel, DELETION) && Takes(now, channel, DELETION)
    requires Permissions.ModeratesIn(v)(9, 7) && !Permissions.ModeratesIn(now)(9, 7)
    ensures var (w, mods) := (Run(Begun(channel, {6, 7, 8, 9}), Demotion(v, now)), Permissions.ModeratesIn(now));
      && 6 in w.logs && 8 in w.logs && IDs(w.logs[6]) == IDs(w.logs[8]) == IDs(w.written)
      && View(mods, w.logs[6], me) != View(mods, w.logs[8], me)
      && Compacted(mods, w.logs[6]) != Compacted(mods, w.logs[8])
  {
    hide Demotion, Begun, Run, View, Compacted, IDs, Takes;
    DemotionLeaves(v, now, channel);
    DemotionTells(Permissions.ModeratesIn(v), Permissions.ModeratesIn(now), me);
  }

  /** What is left of what was said. */
  const COPY := Entry(1, 7, 1, Time(1, 0), Said, "", None, false, true, None)
  const EDITED: seq<Entry> := [COPY, EDIT]

  lemma EditLeaves(mods: Moderates)
    ensures Written(mods, [SAID], EDIT) == EDITED && !Conflicts([SAID], EDIT) && WellFormed([EDIT])
  {
    assert EDITED == [Wiped(SAID), EDIT];
    hide *;
    ApartAndFormed();
    PlacedAlone(SAID);
    CompactedEdit(mods);
    WrittenIs(mods, [SAID], EDIT);
  }

  function EarlyCopy(v: A.Space): seq<Move> { Told(v) + [Write(7, EDIT, v), Pass(6, COPY, v)] }

  lemma CopyIsSent()
    ensures {COPY} <= {SAID} + {EDIT} + AllOf(EDITED)
  {
    assert EDITED[0] == COPY && EDITED[0] in EDITED;
  }

  lemma EditingLeaves(w: World, v: A.Space, channel: ID)
    requires Keeps(w, channel, TOLD, [SAID], {SAID})
    ensures Keeps(Moved(w, Write(7, EDIT, v)), channel, TOLD[7 := EDITED], [SAID, EDIT], {COPY})
  {
    hide Moved, Keeps, Placed, Written, Conflicts, WellFormed, AllOf;
    CopyIsSent();
    EditLeaves(Permissions.ModeratesIn(v));
    PlacedAlone(SAID);
    WriteLeaves(w, channel, TOLD, [SAID], {SAID}, 7, EDIT, v, EDITED, {COPY});
  }

  lemma CopyPassed(w: World, v: A.Space, channel: ID)
    requires Keeps(w, channel, TOLD[7 := EDITED], [SAID, EDIT], {COPY}) && Takes(v, channel, COPY)
    ensures Keeps(Moved(w, Pass(6, COPY, v)), channel, TOLD[7 := EDITED][6 := [COPY]], [SAID, EDIT], {COPY})
  {
    hide Moved, Keeps, Takes, Accepted;
    FirstTaken(Permissions.ModeratesIn(v), COPY);
    PassLeaves(w, channel, TOLD[7 := EDITED], [SAID, EDIT], {COPY}, 6, COPY, v, [COPY]);
  }

  lemma CopyTakenToo(v: A.Space, channel: ID)
    requires Takes(v, channel, SAID)
    ensures Takes(v, channel, COPY)
  {
    hide Permissions.Makes;
  }

  lemma EarlyCopyLeaves(v: A.Space, channel: ID)
    requires Takes(v, channel, SAID)
    ensures Keeps(Run(Begun(channel, {6, 7, 8, 9}), EarlyCopy(v)), channel, TOLD[7 := EDITED][6 := [COPY]], [SAID, EDIT], {COPY})
  {
    var begun := Begun(channel, {6, 7, 8, 9});
    var (w, a, b) := (Run(begun, Told(v)), Write(7, EDIT, v), Pass(6, COPY, v));
    assert EarlyCopy(v) == Told(v) + [a] + [b];
    hide *;
    RunMore(begun, Told(v), a);
    RunMore(begun, Told(v) + [a], b);
    TellingLeaves(v, channel);
    EditingLeaves(w, v, channel);
    CopyTakenToo(v, channel);
    CopyPassed(Moved(w, a), v, channel);
  }

  /** A message wiped shows as deleted to whoever holds it without the edit it was wiped for: 7 edits what it said, and passes
      6 what is left of it; 8, who was passed it before, holds the same, and shows it. */
  lemma EarlyCopySplits(v: A.Space, channel: ID, me: Key)
    requires Takes(v, channel, SAID)
    ensures var (w, mods) := (Run(Begun(channel, {6, 7, 8, 9}), EarlyCopy(v)), Permissions.ModeratesIn(v));
      && 6 in w.logs && 8 in w.logs && IDs(w.logs[6]) == IDs(w.logs[8])
      && View(mods, w.logs[6], me) != View(mods, w.logs[8], me)
  {
    assert IDs([SAID]) == IDs([COPY]) by { assert SAID in [SAID] && COPY in [COPY]; }
    hide EarlyCopy, Begun, Run, View, IDs, Takes;
    EarlyCopyLeaves(v, channel);
    WipedShowsDeleted(Permissions.ModeratesIn(v), me);
  }

  lemma WipedShowsDeleted(mods: Moderates, me: Key)
    ensures View(mods, [COPY], me) != View(mods, [SAID], me)
  {
    assert [SAID][..0] == [] && [COPY][..0] == [];
    assert LastDone(mods, [SAID], SAID).None? && LastDone(mods, [COPY], COPY).None?;
    ShownDiffers(mods, [SAID], [COPY], 0, me);
  }
}
