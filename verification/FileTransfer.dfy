/** Files read whole, and files that arrive a piece at a time: one marked whole is the one described.

internal/storage/pieces.go:99-131, internal/messages/files.go:163-205 and internal/spaces/files.go:140-169. */
module FileTransfer {
  import opened Basics
  import opened SealedPieces

  // ---- Reading whole ----

  /** Reads a file a piece at a time. */
  class Reader {
    const pieces: Pieces
    const id: ID
    const size: nat
    ghost const data: seq<byte>
    var offset: nat
    var held: seq<byte>

    ghost predicate Valid()
      reads this, pieces
    {
      && pieces.sealing.Lawful() && |data| == size && (id in pieces.files ==> Holds(pieces.sealing, pieces.files[id], id, data)) && (size > 0 ==> id in pieces.files)
      && offset <= size && (offset % PIECE == 0 || offset == size) && |held| <= offset && held == data[offset - |held|..offset]
    }

    /** What is still to be read. */
    ghost function Remaining(): seq<byte>
      requires Valid()
      reads this, pieces
    {
      data[offset - |held|..]
    }

    constructor (pieces: Pieces, id: ID, size: nat, ghost data: seq<byte>)
      requires pieces.sealing.Lawful() && |data| == size && (size > 0 ==> id in pieces.files) && (id in pieces.files ==> Holds(pieces.sealing, pieces.files[id], id, data))
      ensures Valid() && Remaining() == data && this.pieces == pieces && fresh(this)
    {
      this.pieces, this.id, this.size, this.data := pieces, id, size, data;
      offset, held := 0, [];
    }

    /** Has a piece at hand, if there is more to read. */
    method Fill()
      requires Valid()
      modifies this
      ensures Valid() && Remaining() == old(Remaining()) && (held == [] <==> Remaining() == [])
    {
      hide Opened, UpTo;
      if |held| == 0 && offset < size {
        assert data[..size] == data;
        HeldReads(pieces.sealing, pieces.files[id], id, data, size, offset, PIECE);
        var piece := pieces.Read(id, size, offset, PIECE);
        hide Holds;
        assert piece == Some(data[offset..Min(offset + PIECE, size)]);
        held, offset := piece.value, offset + |piece.value|;
      }
    }

    /** Up to n bytes more, or nothing once all is read. */
    method Read(n: nat) returns (b: Option<seq<byte>>)
      requires Valid()
      modifies this
      ensures Valid()
      ensures b.None? <==> old(Remaining()) == []
      ensures b.None? ==> Remaining() == []
      ensures b.Some? ==> old(Remaining()) == b.value + Remaining() && |b.value| <= n && (n > 0 ==> |b.value| > 0)
    {
      Fill();
      hide Holds;
      if |held| == 0 { return None; }
      var k := Min(n, |held|);
      b := Some(held[..k]);
      Splits(data, offset - |held|, offset, k);
      held := held[k..];
    }
  }

  lemma Splits(data: seq<byte>, from: nat, to: nat, k: nat)
    requires from <= from + k <= to <= |data|
    ensures data[from..] == data[from..to][..k] + data[from + k..] && data[from..to][k..] == data[from + k..to]
  {
  }

  /** Copies all that a reader reads. */
  method CopyAll(r: Reader) returns (all: seq<byte>)
    requires r.Valid()
    modifies r
    ensures r.Valid() && all == old(r.Remaining())
  {
    all := [];
    var more := true;
    while more
      invariant r.Valid() && all + r.Remaining() == old(r.Remaining())
      invariant !more ==> r.Remaining() == []
      decreases more, |r.Remaining()|
    {
      ghost var left := r.Remaining();
      var b := r.Read(0x8000);
      if b.None? {
        more := false;
      } else {
        assert all + (b.value + r.Remaining()) == all + b.value + r.Remaining();
        all := all + b.value;
      }
    }
  }

  // ---- Arriving ----

  /** A file on its way: what describes it, the bytes that arrived, and whether it was found to be whole. */
  datatype Transfer = Transfer(size: nat, digest: Hash, bytes: seq<byte>, complete: bool)

  /** A piece is taken where the file stops so far, and is as long as it can be. */
  predicate Accepts(t: Transfer, offset: nat, piece: seq<byte>) {
    offset == |t.bytes| && offset % PIECE == 0 && offset <= t.size && |piece| != 0 && |piece| == Min(PIECE, t.size - offset)
  }

  /** A piece arrives; what is then as long as the file is the file, or is dropped, to be asked for again. */
  function Arrives(sha: seq<byte> -> Hash, t: Transfer, offset: nat, piece: seq<byte>): Transfer {
    if !Accepts(t, offset, piece) then t
    else
      var now := t.bytes + piece;
      if |now| < t.size then t.(bytes := now)
      else if sha(now) == t.digest then t.(bytes := now, complete := true)
      else t.(bytes := [], complete := false)
  }

  /** Progress is a whole number of pieces, until it is all; and what is marked whole is what was described. */
  ghost predicate IsProgress(sha: seq<byte> -> Hash, t: Transfer) {
    && |t.bytes| <= t.size && (t.complete || (|t.bytes| % PIECE == 0 && |t.bytes| < t.size))
    && (t.complete ==> |t.bytes| == t.size && sha(t.bytes) == t.digest)
  }

  lemma ArrivingIsProgress(sha: seq<byte> -> Hash, t: Transfer, offset: nat, piece: seq<byte>)
    requires IsProgress(sha, t)
    ensures IsProgress(sha, Arrives(sha, t, offset, piece))
  {
  }

  /** Whole, a file takes no more. */
  lemma WholeTakesNoMore(sha: seq<byte> -> Hash, t: Transfer, offset: nat, piece: seq<byte>)
    requires IsProgress(sha, t) && t.complete
    ensures Arrives(sha, t, offset, piece) == t
  {
  }

  /** What a channel's file asks of a piece is the same: that the file is not whole, rather than where pieces start. */
  lemma ChannelsAcceptAlike(sha: seq<byte> -> Hash, t: Transfer, offset: nat, piece: seq<byte>)
    requires IsProgress(sha, t)
    ensures Accepts(t, offset, piece) <==> !t.complete && offset == |t.bytes| && |piece| != 0 && |piece| == Min(PIECE, t.size - offset)
  {
  }

  ghost function Run(sha: seq<byte> -> Hash, t: Transfer, arrivals: seq<(nat, seq<byte>)>): Transfer {
    if arrivals == [] then t
    else
      var (s, a) := (Run(sha, t, arrivals[..|arrivals| - 1]), arrivals[|arrivals| - 1]);
      Arrives(sha, s, a.0, a.1)
  }

  /** Whatever arrives, in whatever order, a file marked whole is the one described. */
  lemma {:induction false} WholeIsAsDescribed(sha: seq<byte> -> Hash, size: nat, original: seq<byte>, arrivals: seq<(nat, seq<byte>)>)
    requires size > 0 && forall x, y | sha(x) == sha(y) :: x == y
    ensures var t := Run(sha, Transfer(size, sha(original), [], false), arrivals);
      IsProgress(sha, t) && t.size == size && t.digest == sha(original) && (t.complete ==> t.bytes == original)
  {
    var start := Transfer(size, sha(original), [], false);
    if arrivals != [] {
      var (init, a) := (arrivals[..|arrivals| - 1], arrivals[|arrivals| - 1]);
      WholeIsAsDescribed(sha, size, original, init);
      ArrivingIsProgress(sha, Run(sha, start, init), a.0, a.1);
    }
  }

  function PieceCount(size: nat): nat { (size + PIECE - 1) / PIECE }

  /** The first n pieces of data, as they are sent. */
  function Sent(data: seq<byte>, n: nat): seq<(nat, seq<byte>)>
    requires n <= PieceCount(|data|)
  {
    if n == 0 then [] else Sent(data, n - 1) + [((n - 1) * PIECE, PieceOf(data, n - 1))]
  }

  /** Each piece is the next 65536 bytes, and the last what is left. */
  lemma {:induction false} SentAre(data: seq<byte>, n: nat)
    requires n <= (|data| + 65535) / 65536
    ensures n <= PieceCount(|data|) && |Sent(data, n)| == n
    ensures forall k | 0 <= k < n ::
      && k * 65536 < |data|
      && Sent(data, n)[k] == (k * 65536, data[k * 65536..if (k + 1) * 65536 < |data| then (k + 1) * 65536 else |data|])
  {
    if n > 0 { SentAre(data, n - 1); }
  }

  /** A file's pieces, each arriving once and in order, make the file. */
  lemma {:induction false} PiecesMakeTheFile(sha: seq<byte> -> Hash, data: seq<byte>, n: nat)
    requires data != [] && n <= PieceCount(|data|)
    ensures var t := Run(sha, Transfer(|data|, sha(data), [], false), Sent(data, n));
      t == Transfer(|data|, sha(data), data[..Min(n * PIECE, |data|)], n == PieceCount(|data|))
  {
    if n > 0 {
      PiecesMakeTheFile(sha, data, n - 1);
      var sent := Sent(data, n);
      assert sent[..|sent| - 1] == Sent(data, n - 1) && sent[|sent| - 1] == ((n - 1) * PIECE, PieceOf(data, n - 1));
      hide Arrives, PieceOf, PieceCount, Sent;
      NextArrives(sha, data, n);
    }
  }

  lemma NextArrives(sha: seq<byte> -> Hash, data: seq<byte>, n: nat)
    requires 0 < n <= PieceCount(|data|)
    ensures var (size, before, after) := (|data|, Min((n - 1) * PIECE, |data|), Min(n * PIECE, |data|));
      n - 1 != PieceCount(size) && Arrives(sha, Transfer(size, sha(data), data[..before], false), (n - 1) * PIECE, PieceOf(data, n - 1))
        == Transfer(size, sha(data), data[..after], n == PieceCount(size))
  {
    NextPiece(data, n);
    hide PieceOf, PieceCount;
  }

  lemma NextPiece(data: seq<byte>, n: nat)
    requires 0 < n <= PieceCount(|data|)
    ensures var (start, piece) := ((n - 1) * PIECE, PieceOf(data, n - 1));
      && start < |data| && n - 1 != PieceCount(|data|) && |piece| != 0 && |piece| == Min(PIECE, |data| - start)
      && data[..start] + piece == data[..Min(n * PIECE, |data|)] && (n == PieceCount(|data|) <==> n * PIECE >= |data|)
      && data[..|data|] == data && start % PIECE == 0
  {
  }

  // ---- As the source does it ----

  datatype File = File(size: nat, digest: Hash, held: nat, complete: bool)

  /** The files described, and how much of each is here. */
  class Store {
    const pieces: Pieces
    const sha: seq<byte> -> Hash
    var files: map<ID, File>
    /** Who sends each. */
    var authors: map<ID, Key>
    /** The bytes of each that arrived. */
    ghost var bytes: map<ID, seq<byte>>

    ghost function TransferOf(id: ID): Transfer
      requires id in files && id in bytes
      reads this
    {
      Transfer(files[id].size, files[id].digest, bytes[id], files[id].complete)
    }

    ghost predicate Valid()
      reads this, pieces
    {
      pieces.sealing.Lawful() && files.Keys <= authors.Keys && forall id | id in files :: id in bytes && IsKept(pieces.sealing, sha, id, files[id], bytes[id], Kept(pieces.files, id))
    }

    constructor (pieces: Pieces, sha: seq<byte> -> Hash)
      requires pieces.sealing.Lawful()
      ensures Valid() && files == map[] && this.pieces == pieces && this.sha == sha
    {
      this.pieces, this.sha, files, authors, bytes := pieces, sha, map[], map[], map[];
    }

    /** A file author describes, of which nothing is here yet. */
    method Describe(id: ID, author: Key, size: nat, digest: Hash)
      requires Valid() && size > 0 && id !in files
      modifies this
      ensures Valid() && files == old(files)[id := File(size, digest, 0, false)] && TransferOf(id) == Transfer(size, digest, [], false)
      ensures authors == old(authors)[id := author]
    {
      authors := authors[id := author];
      files := files[id := File(size, digest, 0, false)];
      bytes := bytes[id := []];
    }

    /** Keeps a piece contact sent, if the file is theirs, and says whether the file is now whole. */
    method Arrived(contact: Key, id: ID, offset: nat, data: seq<byte>, nonce: nat) returns (whole: bool, taken: bool)
      requires Valid()
      modifies this, pieces
      ensures Valid() && files.Keys == old(files).Keys && authors == old(authors)
      ensures taken <==> id in old(files) && authors[id] == contact && Accepts(old(TransferOf(id)), offset, data)
      ensures id in old(files) ==> TransferOf(id) == if authors[id] == contact then Arrives(sha, old(TransferOf(id)), offset, data) else old(TransferOf(id))
      ensures whole <==> taken && TransferOf(id).complete
      ensures forall j | j in old(files) && j != id :: files[j] == old(files)[j] && bytes[j] == old(bytes)[j]
    {
      if id !in files || authors[id] != contact { return false, false; }
      var f := files[id];
      if offset != f.held || offset % PIECE != 0 || |data| == 0 || f.size < offset || |data| != Min(PIECE, f.size - offset) { return false, false; }
      ghost var was := bytes[id];
      ghost var now := was + data;
      pieces.Put(id, offset, data, nonce);
      PutKeeps(pieces.sealing, sha, id, f, was, Kept(old(pieces.files), id), data, nonce);
      hide Holds, WrittenAt, IsKept;
      assert Holds(pieces.sealing, pieces.files[id], id, now);
      var held := offset + |data|;
      var g := f.(held := held);
      if held == f.size { g, now := Finish(id, f, now); }
      ArrivedKeeps(pieces.sealing, sha, id, f, was, data, g, now, Kept(pieces.files, id));
      files, bytes := files[id := g], bytes[id := now];
      return g.complete, true;
    }

    /** All of a file is here: it is marked whole, or dropped. */
    method Finish(id: ID, f: File, ghost data: seq<byte>) returns (g: File, ghost kept: seq<byte>)
      requires pieces.sealing.Lawful() && |data| == f.size > 0 && id in pieces.files && Holds(pieces.sealing, pieces.files[id], id, data)
      modifies pieces
      ensures sha(data) == f.digest ==> g == f.(held := f.size, complete := true) && kept == data && pieces.files == old(pieces.files)
      ensures sha(data) != f.digest ==> g == f.(held := 0, complete := false) && kept == [] && pieces.files == old(pieces.files) - {id}
    {
      var same := IsDescribed(id, f, data);
      kept := data;
      if same { return f.(held := f.size, complete := true), data; }
      pieces.Remove(id);
      return f.(held := 0, complete := false), [];
    }

    /** Whether all that is kept of a file has the digest that describes it. */
    method IsDescribed(id: ID, f: File, ghost data: seq<byte>) returns (same: bool)
      requires pieces.sealing.Lawful() && |data| == f.size > 0 && id in pieces.files && Holds(pieces.sealing, pieces.files[id], id, data)
      ensures same <==> sha(data) == f.digest
    {
      var reader := new Reader(pieces, id, f.size, data);
      var all := CopyAll(reader);
      return sha(all) == f.digest;
    }
  }

  function Kept(files: map<ID, seq<byte>>, id: ID): seq<byte> { if id in files then files[id] else [] }

  /** What is recorded of a file is what arrived of it, and what is kept beside the database. */
  ghost predicate IsKept(s: Sealing, sha: seq<byte> -> Hash, id: ID, f: File, bytes: seq<byte>, kept: seq<byte>) {
    f.held == |bytes| && IsProgress(sha, Transfer(f.size, f.digest, bytes, f.complete)) && Holds(s, kept, id, bytes)
  }

  lemma PutKeeps(s: Sealing, sha: seq<byte> -> Hash, id: ID, f: File, bytes: seq<byte>, kept: seq<byte>, piece: seq<byte>, nonce: nat)
    requires s.Lawful() && IsKept(s, sha, id, f, bytes, kept) && Accepts(Transfer(f.size, f.digest, bytes, f.complete), f.held, piece)
    ensures Holds(s, WrittenAt(kept, f.held / PIECE * SLOT, s.seal(Owner(id, f.held / PIECE), nonce, piece)), id, bytes + piece)
  {
    PutHolds(s, kept, id, bytes, piece, nonce);
  }

  lemma ArrivedKeeps(s: Sealing, sha: seq<byte> -> Hash, id: ID, f: File, was: seq<byte>, piece: seq<byte>, g: File, now: seq<byte>, kept: seq<byte>)
    requires var t := Transfer(f.size, f.digest, was, f.complete);
      IsProgress(sha, t) && f.held == |was| && Accepts(t, f.held, piece)
    requires var all := was + piece;
      if |all| < f.size then g == f.(held := |all|) && now == all
      else if sha(all) == f.digest then g == f.(held := f.size, complete := true) && now == all
      else g == f.(held := 0, complete := false) && now == []
    requires now != [] ==> Holds(s, kept, id, now)
    ensures IsKept(s, sha, id, g, now, kept)
    ensures Transfer(g.size, g.digest, now, g.complete) == Arrives(sha, Transfer(f.size, f.digest, was, f.complete), f.held, piece)
  {
    ArrivingIsProgress(sha, Transfer(f.size, f.digest, was, f.complete), f.held, piece);
  }
}
