/** Every member keeps a channel, and passes its entries on, wiped or not; whoever holds them all shows the same. */
module ChannelGossip {
  // internal/spaces/sync.go:84-190 and internal/spaces/channel.go:155-239. Members are in any states of the space, which
  // change as they like: each takes, wipes and shows as its own state then has it.

  import opened Basics
  import opened Sorting
  import opened Posts
  import A = Authority
  import Permissions

  // ---- The order of a channel ----

  predicate Before(e: Entry, f: Entry) {
    e.time.Before(f.time) || (e.time == f.time && e.id < f.id)
  }

  ghost predicate InOrder(es: seq<Entry>) {
    forall i, j | 0 <= i < j < |es| :: Before(es[i], es[j])
  }

  /** Where m goes in es. */
  function Place(es: seq<Entry>, m: Entry): (k: nat)
    ensures k <= |es|
    ensures forall i | 0 <= i < k :: Before(es[i], m)
    ensures k < |es| ==> !Before(es[k], m)
  {
    if es == [] || !Before(es[0], m) then 0 else 1 + Place(es[1..], m)
  }

  function Placed(es: seq<Entry>, m: Entry): seq<Entry> {
    var k := Place(es, m);
    es[..k] + [m] + es[k..]
  }

  ghost function IDs(es: seq<Entry>): set<ID> { set e | e in es :: e.id }

  /** m is, but for its text, an entry of es. */
  ghost predicate Knows(es: seq<Entry>, m: Entry) { exists e :: e in es && Core(e) == Core(m) }

  /** Another entry of es has m's identifier, or m's place in its author's sequence. */
  ghost predicate Conflicts(es: seq<Entry>, m: Entry) {
    exists e :: e in es && (e.id == m.id || (e.author == m.author && e.sequence == m.sequence))
  }

  /** A channel's entries once m came: kept, unless held or conflicting, and what an edit or a deletion leaves gone wiped. */
  ghost function Accepted(mods: Moderates, es: seq<Entry>, m: Entry): seq<Entry> {
    if Conflicts(es, m) then es
    else if m.kind == Edited || m.kind == Deleted then Compacted(mods, Placed(es, m))
    else Placed(es, m)
  }

  /** And once their keeper wrote m. */
  ghost function Written(mods: Moderates, es: seq<Entry>, m: Entry): seq<Entry> {
    Compacted(mods, Placed(es, m))
  }

  // ---- Being gone, asked of a set ----

  ghost function Cores(es: seq<Entry>): set<Entry> { set e | e in es :: Core(e) }

  /** e is gone where the entries s are held. */
  ghost predicate IsGoneAmong(mods: Moderates, s: set<Entry>, e: Entry) {
    || (IsPost(e.kind) && exists f :: f in s && (Deletes(mods, f, e) || Edits(f, e)))
    || (e.kind == Edited && exists t, f :: t in s && f in s && IsSupersededBy(mods, t, f, e))
  }

  ghost predicate IsSupersededBy(mods: Moderates, t: Entry, f: Entry, e: Entry) {
    Edits(e, t) && (Deletes(mods, f, t) || (Edits(f, t) && Before(e, f)))
  }

  /** The more is held, the more is gone. */
  lemma MoreIsGone(mods: Moderates, s: set<Entry>, more: set<Entry>, e: Entry)
    requires s <= more && IsGoneAmong(mods, s, e)
    ensures IsGoneAmong(mods, more, e)
  {
  }

  /** And the more moderate. */
  lemma MoreModerateAmong(was: Moderates, mods: Moderates, s: set<Entry>, e: Entry)
    requires ModeratesMore(was, mods) && IsGoneAmong(was, s, e)
    ensures IsGoneAmong(mods, s, e)
  {
  }

  lemma {:induction false} LatestIsLast(es: seq<Entry>, t: Entry)
    requires InOrder(es)
    ensures LatestEdit(es, t).Some? ==> forall f | f in es && Edits(f, t) :: f == LatestEdit(es, t).value || Before(f, LatestEdit(es, t).value)
  {
    if es != [] {
      var (init, e) := (es[..|es| - 1], es[|es| - 1]);
      assert es == init + [e];
      LatestIsLast(init, t);
    }
  }

  lemma GoneIsAmong(mods: Moderates, es: seq<Entry>, e: Entry)
    requires InOrder(es) && DistinctIDs(es) && e in es
    ensures IsGone(mods, es, e) <==> IsGoneAmong(mods, Cores(es), Core(e))
  {
    CoreOf(e);
    forall f | f in es ensures Core(f) in Cores(es) && (Deletes(mods, Core(f), Core(e)) <==> Deletes(mods, f, e)) && (Edits(Core(f), Core(e)) <==> Edits(f, e)) {
      DoesAlike(mods, f, Core(f), e, Core(e));
    }
    if IsPost(e.kind) {
      assert IsGone(mods, es, e) <==> exists f :: f in es && (Deletes(mods, f, e) || Edits(f, e));
    } else if e.kind == Edited {
      if t :| t in es && Supersedes(mods, es, t, e) {
        var f := SupersededBy(mods, es, t, e);
        SupersededCores(mods, t, f, e);
        assert Core(t) in Cores(es) && Core(f) in Cores(es);
      }
      if x, y :| x in Cores(es) && y in Cores(es) && IsSupersededBy(mods, x, y, Core(e)) {
        var t, f :| t in es && Core(t) == x && f in es && Core(f) == y;
        SupersededCores(mods, t, f, e);
        SupersedesBy(mods, es, t, f, e);
      }
    }
  }

  lemma CoreOf(e: Entry)
    ensures Core(Core(e)) == Core(e) && Core(e).kind == e.kind && Core(e).id == e.id && Core(e).time == e.time
  {
  }

  lemma SupersededCores(mods: Moderates, t: Entry, f: Entry, e: Entry)
    ensures IsSupersededBy(mods, Core(t), Core(f), Core(e)) <==> IsSupersededBy(mods, t, f, e)
  {
  }

  lemma SupersededBy(mods: Moderates, es: seq<Entry>, t: Entry, e: Entry) returns (f: Entry)
    requires InOrder(es) && DistinctIDs(es) && e in es && Supersedes(mods, es, t, e)
    ensures f in es && IsSupersededBy(mods, t, f, e)
  {
    if IsDeleted(mods, es, t) {
      f :| f in es && Deletes(mods, f, t);
    } else {
      LatestIsLast(es, t);
      f := LatestEdit(es, t).value;
    }
  }

  lemma SupersedesBy(mods: Moderates, es: seq<Entry>, t: Entry, f: Entry, e: Entry)
    requires InOrder(es) && DistinctIDs(es) && t in es && e in es && f in es && IsSupersededBy(mods, t, f, e)
    ensures Supersedes(mods, es, t, e)
  {
    if !IsDeleted(mods, es, t) {
      LatestIsLast(es, t);
      var l := LatestEdit(es, t).value;
      assert l == f || Before(f, l);
      assert l != e;
    }
  }

  // ---- Copies ----

  /** m is an entry that was written, or that without its text, which is gone. */
  ghost predicate IsCopy(mods: Moderates, written: seq<Entry>, m: Entry) {
    exists x :: x in written && (m == x || (m == Wiped(x) && IsGoneAmong(mods, Cores(written), Core(x))))
  }

  /** A member keeps copies of what was written, in order. */
  ghost predicate KeptWell(mods: Moderates, es: seq<Entry>, written: seq<Entry>) {
    InOrder(es) && forall m | m in es :: IsCopy(mods, written, m)
  }

  /** What was written: in order, nothing under another's identifier or in another's place. */
  ghost predicate WrittenWell(written: seq<Entry>) {
    && InOrder(written) && DistinctIDs(written) && WellFormed(written)
    && (forall e | e in written :: !e.wiped)
    && forall i, j | 0 <= i < j < |written| && written[i].author == written[j].author :: written[i].sequence != written[j].sequence
  }

  lemma CopyNames(mods: Moderates, written: seq<Entry>, m: Entry) returns (x: Entry)
    requires IsCopy(mods, written, m)
    ensures x in written && Core(m) == Core(x) && m.id == x.id && m.kind == x.kind && m.time == x.time && m.author == x.author && m.sequence == x.sequence
    ensures m == x || (m == Wiped(x) && IsGoneAmong(mods, Cores(written), Core(x)))
  {
    x :| x in written && (m == x || (m == Wiped(x) && IsGoneAmong(mods, Cores(written), Core(x))));
  }

  lemma KeptNames(mods: Moderates, es: seq<Entry>, written: seq<Entry>)
    requires KeptWell(mods, es, written) && WrittenWell(written)
    ensures DistinctIDs(es) && Cores(es) <= Cores(written) && IDs(es) <= IDs(written)
  {
    forall i, j | 0 <= i < j < |es| ensures es[i].id != es[j].id {
      assert es[i] in es && es[j] in es && Before(es[i], es[j]);
      hide IsCopy, Core, Wiped, WrittenWell, IsGoneAmong;
      var x := CopyNames(mods, written, es[i]);
      var y := CopyNames(mods, written, es[j]);
      if x.id == y.id { SameName(written, x, y); }
    }
    forall m | m in es ensures Core(m) in Cores(written) && m.id in IDs(written) {
      hide IsCopy, Core, Wiped, WrittenWell, IsGoneAmong;
      var x := CopyNames(mods, written, m);
    }
  }

  lemma SameName(written: seq<Entry>, x: Entry, y: Entry)
    requires DistinctIDs(written) || WrittenWell(written)
    requires x in written && y in written && x.id == y.id
    ensures x == y
  {
  }

  /** Wiping what is gone of copies leaves copies, whoever of those who ever moderated does now. */
  lemma CompactedKeeps(mods: Moderates, were: Moderates, es: seq<Entry>, written: seq<Entry>)
    requires KeptWell(were, es, written) && WrittenWell(written) && ModeratesMore(mods, were)
    ensures KeptWell(were, Compacted(mods, es), written) && IDs(Compacted(mods, es)) == IDs(es)
  {
    var now := Compacted(mods, es);
    KeptNames(were, es, written);
    CompactedNames(mods, es);
    forall m | m in now ensures IsCopy(were, written, m) {
      var i :| 0 <= i < |now| && now[i] == m;
      assert es[i] in es;
      var x := CopyNames(were, written, es[i]);
      if m != es[i] {
        GoneIsAmong(mods, es, es[i]);
        MoreIsGone(mods, Cores(es), Cores(written), Core(x));
        MoreModerateAmong(mods, were, Cores(written), Core(x));
        assert m == Wiped(x);
      }
    }
  }

  lemma CompactedNames(mods: Moderates, es: seq<Entry>)
    ensures IDs(Compacted(mods, es)) == IDs(es)
    ensures InOrder(es) ==> InOrder(Compacted(mods, es))
  {
    var now := Compacted(mods, es);
    assert forall i | 0 <= i < |es| :: now[i].id == es[i].id && now[i].time == es[i].time;
    assert forall i | 0 <= i < |es| :: es[i] in es && now[i] in now;
    hide Compacted;
  }

  lemma PlacedKeeps(mods: Moderates, es: seq<Entry>, m: Entry, written: seq<Entry>)
    requires KeptWell(mods, es, written) && WrittenWell(written) && IsCopy(mods, written, m) && m.id !in IDs(es)
    ensures KeptWell(mods, Placed(es, m), written) && IDs(Placed(es, m)) == IDs(es) + {m.id}
  {
    PlacedInOrder(es, m);
  }

  lemma PlacedInOrder(es: seq<Entry>, m: Entry)
    requires InOrder(es) && m.id !in IDs(es)
    ensures InOrder(Placed(es, m)) && IDs(Placed(es, m)) == IDs(es) + {m.id}
    ensures forall e :: e in Placed(es, m) <==> e in es || e == m
  {
    var k := Place(es, m);
    assert forall i | 0 <= i < |es| :: es[i] in es && es[i].id != m.id;
    assert k < |es| ==> Before(m, es[k]);
    InsertedInOrder(es, k, m);
    InsertedMembers(es, k, m);
  }

  lemma InsertedInOrder(es: seq<Entry>, k: nat, x: Entry)
    requires InOrder(es) && k <= |es| && (forall i | 0 <= i < k :: Before(es[i], x)) && (k < |es| ==> Before(x, es[k]))
    ensures InOrder(es[..k] + [x] + es[k..])
  {
    assert forall i | k <= i < |es| :: Before(x, es[i]);
  }

  lemma InsertedMembers(es: seq<Entry>, k: nat, x: Entry)
    requires k <= |es|
    ensures forall e :: e in es[..k] + [x] + es[k..] <==> e in es || e == x
    ensures IDs(es[..k] + [x] + es[k..]) == IDs(es) + {x.id}
  {
    assert es == es[..k] + es[k..];
  }

  /** What was copied stays so, as more is written, and more moderate. */
  lemma StillCopied(was: Moderates, were: Moderates, written: seq<Entry>, more: seq<Entry>, m: Entry)
    requires IsCopy(was, written, m) && ModeratesMore(was, were) && forall x | x in written :: x in more
    ensures IsCopy(were, more, m)
  {
    assert Cores(written) <= Cores(more);
    var x := CopyNames(was, written, m);
    if m != x {
      MoreIsGone(was, Cores(written), Cores(more), Core(x));
      MoreModerateAmong(was, were, Cores(more), Core(x));
    }
  }

  lemma StillKept(was: Moderates, were: Moderates, es: seq<Entry>, written: seq<Entry>, more: seq<Entry>)
    requires KeptWell(was, es, written) && ModeratesMore(was, were) && forall x | x in written :: x in more
    ensures KeptWell(were, es, more)
  {
    forall m | m in es ensures IsCopy(were, more, m) { StillCopied(was, were, written, more, m); }
  }

  // ---- Runs ----

  /** A channel: each member's entries of it, all that were ever written, every copy of one that a member ever kept, and so
      may have sent, and who moderated whom whenever a member wiped. */
  datatype World = World(channel: ID, logs: map<Key, seq<Entry>>, written: seq<Entry>, copies: set<Entry>, were: Moderates)

  /** In the state v of the space as it knows it, a member writes m; or is passed m, a copy sent some time by another. */
  datatype Move = Write(who: Key, m: Entry, v: A.Space) | Pass(to: Key, m: Entry, v: A.Space)

  /** Whether v's members take m: only if its author makes such entries in the channel now. */
  predicate Takes(v: A.Space, channel: ID, m: Entry) { Permissions.Makes(v, m.author, channel, m.kind) }

  function Either(was: Moderates, mods: Moderates): Moderates { (k: Key, l: Key) => was(k, l) || mods(k, l) }

  ghost function AllOf(es: seq<Entry>): set<Entry> { set e | e in es }

  ghost predicate Enabled(w: World, move: Move) {
    match move
    case Write(who, m, _) => who in w.logs && !Conflicts(w.written, m) && WellFormed([m]) && !m.wiped
    case Pass(to, m, _) => to in w.logs && m in w.copies
  }

  /** Whether to, taking m, has texts wiped. */
  ghost predicate Wipes(es: seq<Entry>, m: Entry) { !Conflicts(es, m) && (m.kind == Edited || m.kind == Deleted) }

  ghost function Moved(w: World, move: Move): World {
    if !Enabled(w, move) then w
    else
      var mods := Permissions.ModeratesIn(move.v);
      match move
      case Write(who, m, _) =>
        var es := Written(mods, w.logs[who], m);
        World(w.channel, w.logs[who := es], Placed(w.written, m), w.copies + {m} + AllOf(es), Either(w.were, mods))
      case Pass(to, m, v) =>
        if !Takes(v, w.channel, m) then w
        else
          var es := Accepted(mods, w.logs[to], m);
          w.(logs := w.logs[to := es], copies := w.copies + AllOf(es), were := if Wipes(w.logs[to], m) then Either(w.were, mods) else w.were)
  }

  ghost function Run(w: World, moves: seq<Move>): World {
    if moves == [] then w else Moved(Run(w, moves[..|moves| - 1]), moves[|moves| - 1])
  }

  function Nobody(k: Key, l: Key): bool { false }

  ghost function Begun(channel: ID, members: set<Key>): World { World(channel, map k | k in members :: [], [], {}, Nobody) }

  ghost predicate Invariant(w: World) {
    && WrittenWell(w.written) && (forall m | m in w.copies :: IsCopy(w.were, w.written, m))
    && forall k | k in w.logs :: KeptWell(w.were, w.logs[k], w.written)
  }

  lemma EitherMore(was: Moderates, mods: Moderates)
    ensures ModeratesMore(was, Either(was, mods)) && ModeratesMore(mods, Either(was, mods)) && ModeratesMore(was, was)
  {
  }

  /** What was kept and sent still is copies, once more is written and more moderate. */
  lemma StillWell(w: World, were: Moderates, more: seq<Entry>)
    requires Invariant(w) && ModeratesMore(w.were, were) && forall x | x in w.written :: x in more
    ensures (forall m | m in w.copies :: IsCopy(were, more, m)) && forall k | k in w.logs :: KeptWell(were, w.logs[k], more)
  {
    forall m | m in w.copies ensures IsCopy(were, more, m) { StillCopied(w.were, were, w.written, more, m); }
    forall k | k in w.logs ensures KeptWell(were, w.logs[k], more) { StillKept(w.were, were, w.logs[k], w.written, more); }
  }

  lemma WriteKeeps(w: World, who: Key, m: Entry, v: A.Space)
    requires Invariant(w) && Enabled(w, Write(who, m, v))
    ensures Invariant(Moved(w, Write(who, m, v)))
  {
    var (mods, more) := (Permissions.ModeratesIn(v), Placed(w.written, m));
    var were := Either(w.were, mods);
    assert m.id !in IDs(w.written);
    PlacedInOrder(w.written, m);
    WrittenMore(w.written, m);
    EitherMore(w.were, mods);
    StillWell(w, were, more);
    KeptNames(w.were, w.logs[who], w.written);
    assert IsCopy(were, more, m) by { assert m in more; }
    hide WrittenWell, IsCopy, Compacted, Placed, Permissions.ModeratesIn, Either, ModeratesMore;
    PlacedKeeps(were, w.logs[who], m, more);
    CompactedKeeps(mods, were, Placed(w.logs[who], m), more);
  }

  lemma WrittenMore(written: seq<Entry>, m: Entry)
    requires WrittenWell(written) && !Conflicts(written, m) && WellFormed([m]) && !m.wiped
    ensures WrittenWell(Placed(written, m))
  {
    assert m.id !in IDs(written);
    PlacedInOrder(written, m);
    assert m in [m];
    assert forall i | 0 <= i < |written| :: written[i] in written;
    InsertedApart(written, Place(written, m), m);
    hide InOrder, Place, DistinctIDs;
  }

  lemma InsertedApart(written: seq<Entry>, k: nat, m: Entry)
    requires k <= |written| && DistinctIDs(written)
    requires forall i, j | 0 <= i < j < |written| && written[i].author == written[j].author :: written[i].sequence != written[j].sequence
    requires forall i | 0 <= i < |written| :: written[i].id != m.id && (written[i].author == m.author ==> written[i].sequence != m.sequence)
    ensures var q := written[..k] + [m] + written[k..];
      DistinctIDs(q) && forall i, j | 0 <= i < j < |q| && q[i].author == q[j].author :: q[i].sequence != q[j].sequence
  {
  }

  lemma PassKeeps(w: World, to: Key, m: Entry, v: A.Space)
    requires Invariant(w) && Enabled(w, Pass(to, m, v))
    ensures Invariant(Moved(w, Pass(to, m, v)))
  {
    var (es, mods) := (w.logs[to], Permissions.ModeratesIn(v));
    var were := if Wipes(es, m) then Either(w.were, mods) else w.were;
    EitherMore(w.were, mods);
    StillWell(w, were, w.written);
    if Takes(v, w.channel, m) && !Conflicts(es, m) {
      assert m.id !in IDs(es);
      hide WrittenWell, IsCopy, Compacted, Placed, Takes, Permissions.ModeratesIn, Either, ModeratesMore;
      PlacedKeeps(were, es, m, w.written);
      if Wipes(es, m) { CompactedKeeps(mods, were, Placed(es, m), w.written); }
    }
  }

  /** In every run, each member keeps copies of what was written, a text wiped only where it is gone among all there
      is, as some that moderated have it, though the member may not know why. */
  lemma {:induction false} EveryRunKeeps(channel: ID, members: set<Key>, moves: seq<Move>)
    ensures Invariant(Run(Begun(channel, members), moves))
  {
    if moves != [] {
      var (init, move) := (moves[..|moves| - 1], moves[|moves| - 1]);
      EveryRunKeeps(channel, members, init);
      var w := Run(Begun(channel, members), init);
      hide Invariant, Accepted, Written, Takes;
      if Enabled(w, move) {
        match move
        case Write(who, m, v) => WriteKeeps(w, who, m, v);
        case Pass(to, m, v) => PassKeeps(w, to, m, v);
      }
    }
  }

  /** What a member is passed is never in conflict with what it keeps: either it has it already, or it keeps it if and only
      if its author makes such entries in the channel as the member's state is now. */
  lemma PassedIsKept(w: World, to: Key, m: Entry, v: A.Space)
    requires Invariant(w) && Enabled(w, Pass(to, m, v))
    ensures Conflicts(w.logs[to], m) ==> Knows(w.logs[to], m)
    ensures m.id in IDs(Moved(w, Pass(to, m, v)).logs[to]) <==> m.id in IDs(w.logs[to]) || Permissions.Makes(v, m.author, w.channel, m.kind)
    ensures m.id in IDs(w.logs[to]) || !Permissions.Makes(v, m.author, w.channel, m.kind) ==> Moved(w, Pass(to, m, v)).logs == w.logs
  {
    var es := w.logs[to];
    assert IsCopy(w.were, w.written, m) && KeptWell(w.were, es, w.written);
    var x := CopyNames(w.were, w.written, m);
    hide Permissions.Makes;
    if Conflicts(es, m) {
      var e :| e in es && (e.id == m.id || (e.author == m.author && e.sequence == m.sequence));
      var y := CopyNames(w.were, w.written, e);
      hide IsCopy, Core, Wiped, IsGoneAmong;
      SamePlace(w.written, x, y);
      assert w.logs[to := es] == w.logs && m.id in IDs(es);
    } else {
      hide KeptWell, WrittenWell, IsCopy, Compacted, Placed;
      assert m.id !in IDs(es);
      PlacedKeeps(w.were, es, m, w.written);
      CompactedNames(Permissions.ModeratesIn(v), Placed(es, m));
    }
  }

  lemma SamePlace(written: seq<Entry>, x: Entry, y: Entry)
    requires WrittenWell(written) && x in written && y in written && (x.id == y.id || (x.author == y.author && x.sequence == y.sequence))
    ensures x == y
  {
    var i, j :| 0 <= i < |written| && written[i] == x && 0 <= j < |written| && written[j] == y;
  }

  // ---- Whoever holds everything shows the same ----

  lemma HeldIsWiped(mods: Moderates, es: seq<Entry>, written: seq<Entry>)
    requires KeptWell(mods, es, written) && WrittenWell(written) && IDs(es) == IDs(written)
    ensures KeepsWhatIsKept(mods, written, es)
  {
    KeptNames(mods, es, written);
    forall c | c in Cores(written) ensures c in Cores(es) {
      var x :| x in written && Core(x) == c;
      assert x.id in IDs(es);
      var m :| m in es && m.id == x.id;
      var y := CopyNames(mods, written, m);
      SameName(written, x, y);
    }
    AlignedByOrder(es, written);
    forall i | 0 <= i < |written| ensures es[i] == written[i] || (es[i] == Wiped(written[i]) && IsGone(mods, written, written[i])) {
      assert es[i] in es && written[i] in written && Core(es[i]) == Core(written[i]);
      var x := CopyNames(mods, written, es[i]);
      CoreOf(es[i]);
      CoreOf(written[i]);
      SameName(written, x, written[i]);
      GoneIsAmong(mods, written, written[i]);
    }
  }

  ghost function CoresOf(es: seq<Entry>): seq<Entry> {
    seq(|es|, i requires 0 <= i < |es| => Core(es[i]))
  }

  lemma AlignedByOrder(x: seq<Entry>, y: seq<Entry>)
    requires InOrder(x) && InOrder(y) && Cores(x) == Cores(y)
    ensures SameCores(x, y)
  {
    CoresOrdered(x);
    CoresOrdered(y);
    SameSetSameOrder(Before, CoresOf(x), CoresOf(y));
    assert |CoresOf(x)| == |x| && |CoresOf(y)| == |y|;
    forall i | 0 <= i < |x| ensures Core(x[i]) == Core(y[i]) { assert CoresOf(x)[i] == Core(x[i]) && CoresOf(y)[i] == Core(y[i]); }
  }

  lemma CoresOrdered(x: seq<Entry>)
    requires InOrder(x)
    ensures Ordered(Before, CoresOf(x)) && Members(CoresOf(x)) == Cores(x)
  {
    assert forall i | 0 <= i < |x| :: CoresOf(x)[i] == Core(x[i]) && CoresOf(x)[i].time == x[i].time && CoresOf(x)[i].id == x[i].id;
    forall i, j | 0 <= i < j < |x| ensures Before(CoresOf(x)[i], CoresOf(x)[j]) && !Before(CoresOf(x)[j], CoresOf(x)[i]) {
      assert Before(x[i], x[j]);
    }
    forall c ensures c in Cores(x) <==> c in Members(CoresOf(x)) {
      if c in Cores(x) {
        var i :| 0 <= i < |x| && Core(x[i]) == c;
        assert CoresOf(x)[i] == c;
      }
      if c in CoresOf(x) {
        var i :| 0 <= i < |x| && CoresOf(x)[i] == c;
        assert x[i] in x;
      }
    }
  }

  /** In every run, any two members that hold all that was written show the same, word for word, whoever moderates by then,
      and what all that was written would show had nobody wiped anything, unless that shows of a message, which some that
      moderated had as deleted, something that was wiped. And if whoever moderated does still, what either compacts it to
      is the same whatever was done to it. */
  lemma HoldersAgree(channel: ID, members: set<Key>, moves: seq<Move>, k: Key, l: Key, mods: Moderates, me: Key)
    requires var w := Run(Begun(channel, members), moves);
      k in w.logs && l in w.logs && IDs(w.logs[k]) == IDs(w.written) == IDs(w.logs[l])
    ensures var w := Run(Begun(channel, members), moves);
      && (NoneLost(w.were, mods, w.written) ==> View(mods, w.logs[k], me) == View(mods, w.written, me) == View(mods, w.logs[l], me))
      && (ModeratesMore(w.were, mods) ==> Compacted(mods, w.logs[k]) == Compacted(mods, w.logs[l]))
  {
    var w := Run(Begun(channel, members), moves);
    EveryRunKeeps(channel, members, moves);
    assert WrittenWell(w.written) && KeptWell(w.were, w.logs[k], w.written) && KeptWell(w.were, w.logs[l], w.written);
    hide Run, Compacted, View, NoneLost, KeepsWhatIsKept, KeptWell, Begun, ModeratesMore;
    HeldIsWiped(w.were, w.logs[k], w.written);
    HeldIsWiped(w.were, w.logs[l], w.written);
    if ModeratesMore(w.were, mods) {
      KeptMore(w.were, mods, w.written, w.logs[k]);
      KeptMore(w.were, mods, w.written, w.logs[l]);
      CompactionIsConfluent(mods, w.written, w.logs[k]);
      CompactionIsConfluent(mods, w.written, w.logs[l]);
    }
    if NoneLost(w.were, mods, w.written) {
      WipingNeverShowsLater(w.were, mods, w.written, w.logs[k], me);
      WipingNeverShowsLater(w.were, mods, w.written, w.logs[l], me);
    }
  }

  lemma KeptMore(was: Moderates, mods: Moderates, es: seq<Entry>, now: seq<Entry>)
    requires ModeratesMore(was, mods) && KeepsWhatIsKept(was, es, now)
    ensures KeepsWhatIsKept(mods, es, now)
  {
    forall i | 0 <= i < |es| && IsGone(was, es, es[i]) ensures IsGone(mods, es, es[i]) { MoreModerateMoreGone(was, mods, es, es[i]); }
    hide IsGone, ModeratesMore, Wiped;
  }

  /** As long as nobody who moderated ceases to, all that can be lost is what was deleted and edited since. */
  lemma SteadyLosesNothing(were: Moderates, mods: Moderates, es: seq<Entry>)
    requires ModeratesMore(were, mods) && NoneRevived(mods, es)
    ensures NoneLost(were, mods, es)
  {
    forall t | t in es ensures !IsLost(were, mods, es, t) {
      assert !IsRevived(mods, es, t);
      if IsDeleted(were, es, t) {
        var e :| e in es && Deletes(were, e, t);
        assert Deletes(mods, e, t);
      }
    }
  }

  /** Nobody moderated in a run but whom the states of its moves say. */
  lemma {:induction false} WereAmong(w: World, moves: seq<Move>, mods: Moderates)
    requires ModeratesMore(w.were, mods) && forall move | move in moves :: ModeratesMore(Permissions.ModeratesIn(move.v), mods)
    ensures ModeratesMore(Run(w, moves).were, mods)
  {
    if moves != [] {
      var (init, move) := (moves[..|moves| - 1], moves[|moves| - 1]);
      assert move in moves && forall x | x in init :: x in moves;
      WereAmong(w, init, mods);
    }
  }

  /** In every run, any two members that hold the same entries, all that was written or not, show the same if and only if of
      each message they say the same: the text that shows of it was wiped by neither, or by both, or is none. */
  lemma SameHoldersAgreeIff(channel: ID, members: set<Key>, moves: seq<Move>, k: Key, l: Key, mods: Moderates, me: Key)
    requires var w := Run(Begun(channel, members), moves); k in w.logs && l in w.logs && IDs(w.logs[k]) == IDs(w.logs[l])
    ensures var w := Run(Begun(channel, members), moves); var (x, y) := (w.logs[k], w.logs[l]);
      && SameCores(x, y) && |x| == |y|
      && (View(mods, y, me) == View(mods, x, me) <==> forall i | 0 <= i < |x| && IsPost(x[i].kind) :: SaysAlike(mods, x, y, i))
  {
    var w := Run(Begun(channel, members), moves);
    var (x, y) := (w.logs[k], w.logs[l]);
    EveryRunKeeps(channel, members, moves);
    assert WrittenWell(w.written) && KeptWell(w.were, x, w.written) && KeptWell(w.were, y, w.written);
    hide Run, View, KeptWell, Begun, SaysAlike, WrittenWell;
    SameIDsSameCores(w.were, x, y, w.written);
    KeptFormed(w.were, x, w.written);
    KeptFormed(w.were, y, w.written);
    SameEntriesShowAlikeIff(mods, x, y, me);
  }

  lemma KeptFormed(were: Moderates, es: seq<Entry>, written: seq<Entry>)
    requires KeptWell(were, es, written) && WrittenWell(written)
    ensures WellFormed(es)
  {
    forall m | m in es ensures (m.kind == Attached <==> m.file.Some?) && (m.wiped ==> m.text == "") {
      var x := CopyNames(were, written, m);
    }
  }

  lemma SameIDsSameCores(were: Moderates, x: seq<Entry>, y: seq<Entry>, written: seq<Entry>)
    requires KeptWell(were, x, written) && KeptWell(were, y, written) && WrittenWell(written) && IDs(x) == IDs(y)
    ensures SameCores(x, y) && |x| == |y|
  {
    CoresAmong(were, x, y, written);
    CoresAmong(were, y, x, written);
    AlignedByOrder(y, x);
  }

  lemma CoresAmong(were: Moderates, x: seq<Entry>, y: seq<Entry>, written: seq<Entry>)
    requires KeptWell(were, x, written) && KeptWell(were, y, written) && WrittenWell(written) && IDs(x) <= IDs(y)
    ensures Cores(x) <= Cores(y)
  {
    forall c | c in Cores(x) ensures c in Cores(y) {
      var m :| m in x && Core(m) == c;
      assert m.id in IDs(x);
      var n :| n in y && n.id == m.id;
      var a := CopyNames(were, written, m);
      var b := CopyNames(were, written, n);
      hide KeptWell, IsCopy, Core;
      SameName(written, a, b);
    }
  }
}
