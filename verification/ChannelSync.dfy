/** How two members bring each other's channels up to date: what each says it holds, and what the other supplies. */
module ChannelSync {
  // internal/spaces/sync.go:25, 118-165 and 211-266, and the keys of the table of a space's messages
  // (internal/storage/migrations/0010_space_messages.sql:2-12).

  import opened Basics
  import opened Sorting
  import A = Authority
  import P = Posts
  import Permissions

  /** A row of a space's messages: its identifier, its kind, and its place in its author's sequence in its channel. What it
      says, wiped or not, is the channel's. */
  datatype Row = Row(id: ID, channel: ID, author: Key, sequence: nat, kind: P.Kind)

  /** How far each channel is held, of each author. */
  type Holdings = map<ID, map<Key, nat>>

  function Far(h: Holdings, c: ID, k: Key): nat { if c in h && k in h[c] then h[c][k] else 0 }

  ghost function Rows(rows: seq<Row>): set<Row> { set r | r in rows }

  /** The table's keys: no identifier twice, no place twice, and numbers from 1. */
  ghost predicate KeysHold(rows: set<Row>) {
    && (forall r | r in rows :: r.sequence > 0)
    && (forall r, s | r in rows && s in rows && (r.id == s.id || SamePlace(r, s)) :: r == s)
  }

  predicate SamePlace(r: Row, s: Row) { r.channel == s.channel && r.author == s.author && r.sequence == s.sequence }

  ghost predicate Takes(rows: set<Row>, c: ID, k: Key, n: nat) {
    exists r :: r in rows && r.channel == c && r.author == k && r.sequence == n
  }

  /** n is how far rows hold k's messages in c: all of 1 to n, and not n + 1. */
  ghost predicate HeldUpTo(rows: set<Row>, c: ID, k: Key, n: nat) {
    (forall i | 1 <= i <= n :: Takes(rows, c, k, i)) && !Takes(rows, c, k, n + 1)
  }

  ghost predicate Says(h: Holdings, rows: set<Row>) {
    forall c: ID, k: Key :: HeldUpTo(rows, c, k, Far(h, c, k))
  }

  // ---- The order of what is exchanged ----

  predicate Before(r: Row, s: Row) {
    if r.channel != s.channel then r.channel < s.channel
    else if r.author != s.author then r.author < s.author
    else r.sequence < s.sequence
  }

  /** rows, by channel, author and number. */
  method Arrange(rows: seq<Row>) returns (out: seq<Row>)
    requires KeysHold(Rows(rows))
    ensures Ordered(Before, out) && Rows(out) == Rows(rows)
  {
    out := [];
    for i := 0 to |rows|
      invariant Ordered(Before, out) && Rows(out) == Rows(rows[..i])
    {
      RowsMore(rows, i);
      assert forall r | r in Rows(rows[..i]) :: r in Rows(rows);
      if rows[i] !in out { out := Insert(out, rows[i]); }
    }
    assert rows[..|rows|] == rows;
  }

  method Insert(q: seq<Row>, r: Row) returns (out: seq<Row>)
    requires Ordered(Before, q) && forall s | s in Rows(q) :: !SamePlace(s, r)
    ensures Ordered(Before, out) && Rows(out) == Rows(q) + {r}
  {
    var k := 0;
    while k < |q| && Before(q[k], r)
      invariant 0 <= k <= |q| && forall j | 0 <= j < k :: Before(q[j], r)
    {
      k := k + 1;
    }
    out := q[..k] + [r] + q[k..];
    InsertedOrdered(q, r, k);
  }

  lemma InsertedOrdered(q: seq<Row>, r: Row, k: nat)
    requires Ordered(Before, q) && k <= |q| && forall s | s in Rows(q) :: !SamePlace(s, r)
    requires (forall j | 0 <= j < k :: Before(q[j], r)) && (k < |q| ==> !Before(q[k], r))
    ensures Ordered(Before, q[..k] + [r] + q[k..]) && Rows(q[..k] + [r] + q[k..]) == Rows(q) + {r}
  {
    InsertedRows(q, r, k);
    forall j | 0 <= j < |q| ensures if j < k then IsBefore(q[j], r) else IsBefore(r, q[j]) {
      assert q[j] in Rows(q) && q[if j > k then k else j] in Rows(q);
      if j >= k { BeforeAll(q[k], q[j], r); }
    }
    hide Before, Rows;
  }

  lemma InsertedRows(q: seq<Row>, r: Row, k: nat)
    requires k <= |q|
    ensures Rows(q[..k] + [r] + q[k..]) == Rows(q) + {r}
  {
    assert q == q[..k] + q[k..];
    assert Rows(q[..k] + [r] + q[k..]) == Rows(q[..k]) + {r} + Rows(q[k..]);
  }

  predicate IsBefore(r: Row, s: Row) { Before(r, s) && !Before(s, r) }

  lemma BeforeAll(s: Row, t: Row, r: Row)
    requires !Before(s, r) && !SamePlace(s, r) && (Before(s, t) || t == s)
    ensures IsBefore(r, t)
  {
  }

  lemma RowsMore(q: seq<Row>, i: nat)
    requires i < |q|
    ensures Rows(q[..i + 1]) == Rows(q[..i]) + {q[i]} && q[i] in Rows(q)
  {
    assert q[..i + 1] == q[..i] + [q[i]];
  }

  // ---- What is held ----

  /** How far this peer holds each channel, reading its rows by channel, author and number. */
  method Holding(rows: seq<Row>) returns (h: Holdings)
    requires KeysHold(Rows(rows))
    ensures Says(h, Rows(rows))
  {
    var q := Arrange(rows);
    h := map[];
    for i := 0 to |q|
      invariant Says(h, Rows(q[..i]))
    {
      RowsMore(q, i);
      SaysMore(h, q, i);
      hide Says;
      var r := q[i];
      ghost var was := h;
      h := With(h, r.channel);
      if Far(h, r.channel, r.author) == r.sequence - 1 {
        assert Put(h, r.channel, r.author, r.sequence) == Put(was, r.channel, r.author, r.sequence);
        h := Put(h, r.channel, r.author, r.sequence);
      }
    }
    assert q[..|q|] == q;
  }

  /** h, with room for c. */
  function With(h: Holdings, c: ID): Holdings { if c in h then h else h[c := map[]] }

  /** h, holding k's messages in c as far as n. */
  function Put(h: Holdings, c: ID, k: Key, n: nat): Holdings {
    var of: map<Key, nat> := if c in h then h[c] else map[];
    h[c := of[k := n]]
  }

  /** The next row is its author's number next to what is held, or leaves a gap. */
  lemma SaysMore(h: Holdings, q: seq<Row>, i: nat)
    requires Ordered(Before, q) && i < |q| && q[i].sequence > 0 && Says(h, Rows(q[..i]))
    ensures var (r, rows) := (q[i], Rows(q[..i]) + {q[i]});
      if Far(h, r.channel, r.author) == r.sequence - 1 then Says(Put(h, r.channel, r.author, r.sequence), rows)
      else Says(h, rows) && Says(With(h, r.channel), rows)
  {
    var (r, was) := (q[i], Rows(q[..i]));
    var (rows, far) := (was + {r}, Far(h, r.channel, r.author));
    forall s | s in was && s.channel == r.channel && s.author == r.author ensures s.sequence < r.sequence {
      var j :| 0 <= j < i && q[j] == s;
    }
    forall c: ID, k: Key, n: nat | Takes(was, c, k, n) ensures Takes(rows, c, k, n) { }
    assert r in rows && Takes(rows, r.channel, r.author, r.sequence);
    assert HeldUpTo(was, r.channel, r.author, far);
    assert HeldUpTo(rows, r.channel, r.author, if far == r.sequence - 1 then r.sequence else far);
    forall c: ID, k: Key | (c, k) != (r.channel, r.author) ensures HeldUpTo(rows, c, k, Far(h, c, k)) {
      assert HeldUpTo(was, c, k, Far(h, c, k));
    }
    FarPut(h, r.channel, r.author, r.sequence);
    hide HeldUpTo, Far, Put, With;
    if far == r.sequence - 1 {
      forall c: ID, k: Key ensures HeldUpTo(rows, c, k, Far(Put(h, r.channel, r.author, r.sequence), c, k)) { }
    } else {
      forall c: ID, k: Key ensures HeldUpTo(rows, c, k, Far(h, c, k)) && HeldUpTo(rows, c, k, Far(With(h, r.channel), c, k)) { }
    }
  }

  lemma FarPut(h: Holdings, c: ID, k: Key, n: nat)
    ensures forall d: ID, l: Key :: Far(Put(h, c, k, n), d, l) == if (d, l) == (c, k) then n else Far(h, d, l)
    ensures forall d: ID, l: Key :: Far(With(h, c), d, l) == Far(h, d, l)
  {
  }

  // ---- What is supplied ----

  /** r is peer's to read, and past how far they say they hold its author's. */
  predicate IsDue(v: A.Space, peer: Key, theirs: Holdings, r: Row) {
    A.Sees(v, peer, r.channel) && r.sequence > Far(theirs, r.channel, r.author)
  }

  ghost function Due(v: A.Space, peer: Key, theirs: Holdings, rows: set<Row>): set<Row> {
    set r | r in rows && IsDue(v, peer, theirs, r)
  }

  /** What peer lacks of the space v, of the channels it sees, ranging over the channels in any order. */
  method Supply(v: A.Space, peer: Key, rows: seq<Row>, theirs: Holdings) returns (out: seq<Row>)
    requires KeysHold(Rows(rows))
    ensures Rows(out) == Due(v, peer, theirs, Rows(rows)) && Ordered(Before, out)
  {
    out := [];
    var todo := v.channels.Keys;
    while todo != {}
      invariant todo <= v.channels.Keys
      invariant Rows(out) == set r | r in Due(v, peer, theirs, Rows(rows)) && r.channel !in todo
    {
      var c :| c in todo;
      todo := todo - {c};
      if A.Sees(v, peer, c) {
        var more := Missing(rows, c, theirs);
        assert Rows(out + more) == Rows(out) + Rows(more);
        out := out + more;
      }
    }
    out := Arrange(out);
  }

  method Missing(rows: seq<Row>, c: ID, theirs: Holdings) returns (out: seq<Row>)
    ensures Rows(out) == set r | r in Rows(rows) && r.channel == c && r.sequence > Far(theirs, c, r.author)
  {
    out := [];
    for i := 0 to |rows|
      invariant Rows(out) == set r | r in Rows(rows[..i]) && r.channel == c && r.sequence > Far(theirs, c, r.author)
    {
      RowsMore(rows, i);
      if rows[i].channel == c && rows[i].sequence > Far(theirs, c, rows[i].author) {
        assert Rows(out + [rows[i]]) == Rows(out) + {rows[i]};
        out := out + [rows[i]];
      }
    }
    assert rows[..|rows|] == rows;
  }

  /** Somebody who does not see a channel, or is no member, is supplied nothing of it, whatever they say they hold. */
  lemma NothingUnseenIsSupplied(v: A.Space, peer: Key, theirs: Holdings, rows: set<Row>, r: Row)
    requires r in Due(v, peer, theirs, rows)
    ensures peer in v.members && !v.deleted && r.channel in v.channels
    ensures v.channels[r.channel].restricted && v.members[peer].rank.Level() < A.Rank.Administrator.Level() ==>
      exists role :: role in v.channels[r.channel].roles && role in v.members[peer].roles
  {
  }

  /** Nothing held without a gap before it is supplied again. */
  lemma HeldIsNotSupplied(v: A.Space, peer: Key, theirs: set<Row>, h: Holdings, rows: set<Row>, r: Row)
    requires Says(h, theirs) && r in Due(v, peer, h, rows) && Takes(theirs, r.channel, r.author, r.sequence)
    ensures exists i :: 1 <= i < r.sequence && !Takes(theirs, r.channel, r.author, i)
  {
    var far := Far(h, r.channel, r.author);
    assert HeldUpTo(theirs, r.channel, r.author, far);
    assert far + 1 < r.sequence;
  }

  // ---- What is taken of what is supplied ----

  /** r's author makes such entries in its channel now: otherwise nobody takes it. */
  predicate IsMade(v: A.Space, r: Row) { Permissions.Makes(v, r.author, r.channel, r.kind) }

  ghost predicate Clashes(rows: set<Row>, r: Row) { exists s :: s in rows && (s.id == r.id || SamePlace(s, r)) }

  /** The rows once r was passed on. */
  ghost function Accepted(v: A.Space, rows: set<Row>, r: Row): set<Row> {
    if !IsMade(v, r) || Clashes(rows, r) then rows else rows + {r}
  }

  /** And once all of q was, in turn. */
  ghost function AllAccepted(v: A.Space, rows: set<Row>, q: seq<Row>): set<Row> {
    if q == [] then rows else Accepted(v, AllAccepted(v, rows, q[..|q| - 1]), q[|q| - 1])
  }

  /** Takes what is supplied, a row at a time. */
  method AcceptAll(v: A.Space, rows: seq<Row>, supplied: seq<Row>) returns (now: seq<Row>)
    ensures Rows(now) == AllAccepted(v, Rows(rows), supplied)
  {
    now := rows;
    for i := 0 to |supplied|
      invariant Rows(now) == AllAccepted(v, Rows(rows), supplied[..i])
    {
      var r := supplied[i];
      assert supplied[..i + 1][..i] == supplied[..i];
      if IsMade(v, r) {
        var clashes := HasClash(now, r);
        if !clashes {
          assert Rows(now + [r]) == Rows(now) + {r};
          now := now + [r];
        }
      }
    }
    assert supplied[..|supplied|] == supplied;
  }

  method HasClash(rows: seq<Row>, r: Row) returns (clashes: bool)
    ensures clashes <==> Clashes(Rows(rows), r)
  {
    for i := 0 to |rows|
      invariant !Clashes(Rows(rows[..i]), r)
    {
      RowsMore(rows, i);
      if rows[i].id == r.id || SamePlace(rows[i], r) { return true; }
    }
    assert rows[..|rows|] == rows;
    return false;
  }

  /** Nobody having used an identifier or a number twice, what is taken is all whose authors make such entries. */
  lemma {:induction false} AllAcceptedAre(v: A.Space, rows: set<Row>, q: seq<Row>)
    requires KeysHold(rows + Rows(q))
    ensures AllAccepted(v, rows, q) == rows + set r | r in q && IsMade(v, r)
  {
    if q != [] {
      var (init, r) := (q[..|q| - 1], q[|q| - 1]);
      RowsMore(q, |q| - 1);
      assert q[..|q|] == q && rows + Rows(init) <= rows + Rows(q);
      AllAcceptedAre(v, rows, init);
      hide AllAccepted, IsMade;
      MadeMore(v, init, r);
      assert q == init + [r];
      AcceptedIs(v, AllAccepted(v, rows, init), rows + Rows(q), r);
    }
  }

  lemma AcceptedIs(v: A.Space, now: set<Row>, all: set<Row>, r: Row)
    requires KeysHold(all) && now <= all && r in all
    ensures Accepted(v, now, r) == if IsMade(v, r) then now + {r} else now
  {
    hide IsMade;
  }

  lemma MadeMore(v: A.Space, q: seq<Row>, r: Row)
    ensures (set s | s in q + [r] && IsMade(v, s)) == (set s | s in q && IsMade(v, s)) + if IsMade(v, r) then {r} else {}
  {
    hide IsMade;
  }

  // ---- What an exchange comes to ----

  /** A peer that is supplied what it lacks comes to have, of a channel it sees, exactly what it had and what is by authors
      who make such entries now. */
  lemma SupplyCompletes(v: A.Space, peer: Key, theirs: set<Row>, h: Holdings, rows: set<Row>, supplied: seq<Row>, r: Row)
    requires KeysHold(theirs + rows) && Says(h, theirs) && Rows(supplied) == Due(v, peer, h, rows)
    requires r in rows && A.Sees(v, peer, r.channel)
    ensures r in AllAccepted(v, theirs, supplied) <==> r in theirs || IsMade(v, r)
  {
    hide IsMade;
    assert Rows(supplied) <= rows;
    assert KeysHold(theirs + Rows(supplied));
    AllAcceptedAre(v, theirs, supplied);
    DueIfLacking(v, peer, theirs, h, rows, r);
  }

  /** What a peer lacks of a channel it sees is due to it. */
  lemma DueIfLacking(v: A.Space, peer: Key, theirs: set<Row>, h: Holdings, rows: set<Row>, r: Row)
    requires KeysHold(theirs + rows) && Says(h, theirs) && r in rows && A.Sees(v, peer, r.channel)
    ensures r in theirs || r in Due(v, peer, h, rows)
  {
    var far := Far(h, r.channel, r.author);
    if r.sequence <= far {
      assert HeldUpTo(theirs, r.channel, r.author, far) && r.sequence > 0;
      assert Takes(theirs, r.channel, r.author, r.sequence);
      var s :| s in theirs && SamePlace(s, r);
      assert s == r;
    }
  }

  ghost function In(rows: set<Row>, c: ID): set<Row> { set r | r in rows && r.channel == c }

  /** Every row of c that is supplied, and lacking, is by an author who makes such entries now. */
  ghost predicate NoneIsRefused(v: A.Space, c: ID, theirs: set<Row>, supplied: seq<Row>) {
    forall r | r in supplied && r.channel == c && r !in theirs :: IsMade(v, r)
  }

  /** Once each of two members supplied the other, in either order or at once, they have the same of a channel both see if
      and only if every row of it that either lacked is by an author who makes such entries now. */
  lemma ExchangeSettlesIff(v: A.Space, p: Key, q: Key, ofP: set<Row>, ofQ: set<Row>, hp: Holdings, hq: Holdings, c: ID, toP: seq<Row>, toQ: seq<Row>)
    requires KeysHold(ofP + ofQ) && Says(hp, ofP) && Says(hq, ofQ) && A.Sees(v, p, c) && A.Sees(v, q, c)
    requires Rows(toP) == Due(v, p, hp, ofQ) && Rows(toQ) == Due(v, q, hq, ofP)
    ensures In(AllAccepted(v, ofP, toP), c) == In(AllAccepted(v, ofQ, toQ), c) <==> NoneIsRefused(v, c, ofP, toP) && NoneIsRefused(v, c, ofQ, toQ)
  {
    var (nowP, nowQ) := (AllAccepted(v, ofP, toP), AllAccepted(v, ofQ, toQ));
    TakenAre(v, p, ofP, hp, ofQ, toP);
    TakenAre(v, q, ofQ, hq, ofP, toQ);
    assert ofQ + ofP == ofP + ofQ;
    forall r | r in ofQ && r.channel == c ensures r in ofP || r in toP { DueIfLacking(v, p, ofP, hp, ofQ, r); }
    forall r | r in ofP && r.channel == c ensures r in ofQ || r in toQ { DueIfLacking(v, q, ofQ, hq, ofP, r); }
    hide KeysHold, Says, Due, IsMade, AllAccepted;
    if In(nowP, c) == In(nowQ, c) {
      forall r | r in toP && r.channel == c && r !in ofP ensures IsMade(v, r) { assert r in In(nowQ, c); }
      forall r | r in toQ && r.channel == c && r !in ofQ ensures IsMade(v, r) { assert r in In(nowP, c); }
    }
    if NoneIsRefused(v, c, ofP, toP) && NoneIsRefused(v, c, ofQ, toQ) {
      forall r ensures r in In(nowP, c) <==> r in In(nowQ, c) { }
    }
  }

  lemma TakenAre(v: A.Space, peer: Key, theirs: set<Row>, h: Holdings, rows: set<Row>, supplied: seq<Row>)
    requires KeysHold(theirs + rows) && Rows(supplied) == Due(v, peer, h, rows)
    ensures AllAccepted(v, theirs, supplied) == theirs + set r | r in supplied && IsMade(v, r)
    ensures forall r | r in supplied :: r in rows
  {
    assert forall r | r in supplied :: r in Rows(supplied);
    assert Rows(supplied) <= rows;
    assert KeysHold(theirs + Rows(supplied));
    AllAcceptedAre(v, theirs, supplied);
  }

  /** Settled, the two say they hold it alike, of every author. */
  lemma SettledSayAlike(nowP: set<Row>, nowQ: set<Row>, c: ID, k: Key, m: nat, n: nat)
    requires In(nowP, c) == In(nowQ, c) && HeldUpTo(nowP, c, k, m) && HeldUpTo(nowQ, c, k, n)
    ensures m == n
  {
    forall i: nat ensures Takes(nowP, c, k, i) <==> Takes(nowQ, c, k, i) {
      if Takes(nowP, c, k, i) {
        var r :| r in nowP && r.channel == c && r.author == k && r.sequence == i;
        assert r in In(nowP, c);
      }
      if Takes(nowQ, c, k, i) {
        var r :| r in nowQ && r.channel == c && r.author == k && r.sequence == i;
        assert r in In(nowQ, c);
      }
    }
  }

  /** What is refused is due still, whatever else is taken: as long as its author makes no such entries, it is supplied, and
      refused, every time. */
  lemma RefusedIsDueStill(v: A.Space, peer: Key, theirs: set<Row>, h: Holdings, rows: set<Row>, supplied: seq<Row>, r: Row, again: Holdings)
    requires KeysHold(theirs + rows) && Rows(supplied) == Due(v, peer, h, rows)
    requires r in supplied && r !in theirs && !IsMade(v, r) && Says(again, AllAccepted(v, theirs, supplied))
    ensures r !in AllAccepted(v, theirs, supplied) && r in Due(v, peer, again, rows)
  {
    TakenAre(v, peer, theirs, h, rows, supplied);
    assert r in Rows(supplied);
    var now := AllAccepted(v, theirs, supplied);
    assert now <= theirs + rows;
    assert forall s | s in now && SamePlace(s, r) :: s == r;
    assert !Takes(now, r.channel, r.author, r.sequence);
    assert HeldUpTo(now, r.channel, r.author, Far(again, r.channel, r.author)) && r.sequence > 0;
  }

  lemma NoRows(q: seq<Row>)
    ensures Rows(q) == {} ==> q == []
  {
    if q != [] { assert q[0] in Rows(q); }
  }

  /** It happens to what anybody wrote who is a member no more: whoever has not got it yet, a new member say, is given it by
      those who have, and never takes it; so the two never have the same of the channel. */
  lemma TheGoneAreNotHeard(v: A.Space, p: Key, q: Key, k: Key, r: Row)
    requires k !in v.members && r.author == k && r.sequence == 1 && A.Sees(v, p, r.channel) && A.Sees(v, q, r.channel)
    ensures Says(map[], {}) && Due(v, q, map[], {r}) == {r} && AllAccepted(v, {}, [r]) == {}
    ensures forall toP | Rows(toP) == {} :: In(AllAccepted(v, {r}, toP), r.channel) != In(AllAccepted(v, {}, [r]), r.channel)
  {
    assert AllAccepted(v, {}, []) == {} && [r][..0] == [];
    forall toP | Rows(toP) == {} ensures In(AllAccepted(v, {r}, toP), r.channel) != In(AllAccepted(v, {}, [r]), r.channel) {
      NoRows(toP);
      assert r in In(AllAccepted(v, {r}, toP), r.channel);
    }
  }
}
