/** Files kept a sealed piece at a time, and read back (internal/storage/pieces.go:12-139). */
module SealedPieces {
  // Sealing is given as functions, with the laws that what is sealed opens, under the same owner, and is so much longer; a
  // file beside the database is its bytes.

  import opened Basics
  import Canonical

  type byte = Canonical.byte

  const PIECE := 0x1_0000
  const SEALING := 40
  const SLOT := PIECE + SEALING

  /** Whose a piece is: a file's, of an index. */
  datatype Owner = Owner(file: ID, index: nat)

  /** Each sealing takes a nonce of its own. */
  datatype Sealing = Sealing(seal: (Owner, nat, seq<byte>) -> seq<byte>, open: (Owner, seq<byte>) -> Option<seq<byte>>) {
    ghost predicate Lawful() {
      && (forall o, n, d :: |seal(o, n, d)| == |d| + SEALING && open(o, seal(o, n, d)) == Some(d))
      && (forall o, c | open(o, c).Some? :: |open(o, c).value| + SEALING == |c|)
    }
  }

  function Min(a: nat, b: nat): nat { if a < b then a else b }

  /** The bytes of the i-th piece of data. */
  function PieceOf(data: seq<byte>, i: nat): seq<byte>
    requires i * PIECE <= |data|
  {
    data[i * PIECE..Min((i + 1) * PIECE, |data|)]
  }

  /** file holds the i-th piece of data. */
  ghost predicate HoldsPiece(s: Sealing, file: seq<byte>, id: ID, data: seq<byte>, i: nat)
    requires i * PIECE <= |data|
  {
    var piece := PieceOf(data, i);
    i * SLOT + |piece| + SEALING <= |file| && s.open(Owner(id, i), file[i * SLOT..i * SLOT + |piece| + SEALING]) == Some(piece)
  }

  /** file holds data, a piece at a time. */
  ghost predicate Holds(s: Sealing, file: seq<byte>, id: ID, data: seq<byte>) {
    forall i: nat | i * PIECE < |data| :: HoldsPiece(s, file, id, data, i)
  }

  /** file with bytes written over it at an offset, zeros in between if it ends before. */
  function WrittenAt(file: seq<byte>, at: nat, bytes: seq<byte>): (f: seq<byte>)
    ensures |f| >= at + |bytes| && f[at..at + |bytes|] == bytes
  {
    var long := if |file| < at then file + seq(at - |file|, _ => 0) else file;
    long[..at] + bytes + if at + |bytes| < |long| then long[at + |bytes|..] else []
  }

  lemma WrittenBefore(file: seq<byte>, at: nat, bytes: seq<byte>, lo: nat, hi: nat)
    requires lo <= hi <= at && hi <= |file|
    ensures WrittenAt(file, at, bytes)[lo..hi] == file[lo..hi]
  {
    var long := if |file| < at then file + seq(at - |file|, _ => 0) else file;
    assert long[lo..hi] == file[lo..hi];
    assert WrittenAt(file, at, bytes)[lo..hi] == long[lo..hi];
  }

  /** A piece more of a file that holds whole pieces. */
  lemma PutHolds(s: Sealing, file: seq<byte>, id: ID, data: seq<byte>, piece: seq<byte>, nonce: nat)
    requires s.Lawful() && Holds(s, file, id, data) && |data| % PIECE == 0 && 0 < |piece| <= PIECE
    ensures var index := |data| / PIECE;
      Holds(s, WrittenAt(file, index * SLOT, s.seal(Owner(id, index), nonce, piece)), id, data + piece)
  {
    var index := |data| / PIECE;
    var sealed := s.seal(Owner(id, index), nonce, piece);
    var now := WrittenAt(file, index * SLOT, sealed);
    forall i: nat | i * PIECE < |data + piece| ensures HoldsPiece(s, now, id, data + piece, i) {
      if i < index {
        assert HoldsPiece(s, file, id, data, i);
        EarlierPiece(data, piece, i);
        WrittenBefore(file, index * SLOT, sealed, i * SLOT, i * SLOT + PIECE + SEALING);
      } else {
        assert i == index && PieceOf(data + piece, i) == piece;
      }
    }
  }

  lemma EarlierPiece(data: seq<byte>, piece: seq<byte>, i: nat)
    requires (i + 1) * PIECE <= |data|
    ensures PieceOf(data + piece, i) == PieceOf(data, i) && |PieceOf(data, i)| == PIECE
  {
  }

  /** Pieces of the start of data are pieces of data, if they are whole, or the start is all. */
  lemma PrefixPiece(data: seq<byte>, n: nat, i: nat)
    requires n <= |data| && (n % PIECE == 0 || n == |data|) && i * PIECE < n
    ensures PieceOf(data[..n], i) == PieceOf(data, i)
  {
    if n != |data| { assert (i + 1) * PIECE <= n; }
  }

  /** What the pieces of file from the index-th on hold, up to end of the size bytes described, or nothing if one is not here
      whole, or does not open. */
  ghost function Opened(s: Sealing, file: seq<byte>, id: ID, size: nat, index: nat, end: nat): (r: Option<seq<byte>>)
    requires s.Lawful() && end <= size
    ensures r.Some? ==> |r.value| >= end - index * PIECE
    decreases end - index * PIECE
  {
    if index * PIECE >= end then Some([])
    else
      var n := Min(PIECE, size - index * PIECE) + SEALING;
      if index * SLOT + n > |file| then None
      else
        var (piece, rest) := (s.open(Owner(id, index), file[index * SLOT..index * SLOT + n]), Opened(s, file, id, size, index + 1, end));
        if piece.None? || rest.None? then None else Some(piece.value + rest.value)
  }

  function UpTo(all: Option<seq<byte>>, n: nat): Option<seq<byte>>
    requires all.Some? ==> n <= |all.value|
  {
    if all.None? then None else Some(all.value[..n])
  }

  /** out, and then what is left to open. */
  ghost function Onto(out: seq<byte>, rest: Option<seq<byte>>): Option<seq<byte>> {
    if rest.None? then None else Some(out + rest.value)
  }

  /** The files kept beside the database. */
  class Pieces {
    const sealing: Sealing
    var files: map<ID, seq<byte>>

    constructor (sealing: Sealing)
      ensures this.sealing == sealing && files == map[]
    {
      this.sealing, files := sealing, map[];
    }

    /** Keeps data whole. */
    method Write(id: ID, data: seq<byte>, nonces: nat -> nat)
      requires sealing.Lawful()
      modifies this
      ensures id in files && Holds(sealing, files[id], id, data)
      ensures files == old(files)[id := files[id]]
    {
      var out: seq<byte> := [];
      var index := 0;
      ghost var done: seq<byte> := [];
      while index * PIECE < |data|
        invariant index * PIECE < |data| + PIECE && done == data[..Min(index * PIECE, |data|)]
        invariant index * PIECE <= |data| ==> |out| == index * SLOT
        invariant Holds(sealing, out, id, done) && files == old(files)
        decreases |data| + PIECE - index * PIECE
      {
        var piece := data[index * PIECE..Min((index + 1) * PIECE, |data|)];
        var sealed := sealing.seal(Owner(id, index), nonces(index), piece);
        AppendHolds(sealing, out, id, data, index, nonces(index));
        out := out + sealed;
        index := index + 1;
        done := data[..Min(index * PIECE, |data|)];
      }
      assert done == data;
      files := files[id := out];
    }

    /** Keeps the piece that starts at offset. */
    method Put(id: ID, offset: nat, piece: seq<byte>, nonce: nat)
      modifies this
      ensures files == old(files)[id := WrittenAt(if id in old(files) then old(files)[id] else [], offset / PIECE * SLOT,
                                                  sealing.seal(Owner(id, offset / PIECE), nonce, piece))]
    {
      var file := if id in files then files[id] else [];
      files := files[id := WrittenAt(file, offset / PIECE * SLOT, sealing.seal(Owner(id, offset / PIECE), nonce, piece))];
    }

    /** Reads length bytes of a file of size bytes from offset, which a piece starts at. */
    method Read(id: ID, size: nat, offset: nat, length: nat) returns (r: Option<seq<byte>>)
      requires sealing.Lawful()
      ensures offset % PIECE != 0 || offset >= size || id !in files ==> r == None
      ensures offset % PIECE == 0 && offset < size && id in files ==>
        var end := Min(offset + length, size); r == UpTo(Opened(sealing, files[id], id, size, offset / PIECE, end), end - offset)
    {
      if offset % PIECE != 0 || offset >= size { return None; }
      if id !in files { return None; }
      var file := files[id];
      var end := Min(offset + length, size);
      var out: seq<byte> := [];
      var index := offset / PIECE;
      ghost var all := Opened(sealing, file, id, size, index, end);
      StartsOn(all);
      while index * PIECE < end
        invariant all == Onto(out, Opened(sealing, file, id, size, index, end))
        decreases end + PIECE - index * PIECE
      {
        var n := Min(PIECE, size - index * PIECE) + SEALING;
        if index * SLOT + n > |file| { return None; }
        var piece := sealing.open(Owner(id, index), file[index * SLOT..index * SLOT + n]);
        if piece.None? { return None; }
        OpensNext(sealing, file, id, size, index, end, out, piece.value);
        out := out + piece.value;
        index := index + 1;
      }
      assert out + [] == out;
      return Some(out[..end - offset]);
    }

    method Remove(id: ID)
      modifies this
      ensures files == old(files) - {id}
    {
      files := files - {id};
    }
  }

  lemma OpensNext(s: Sealing, file: seq<byte>, id: ID, size: nat, index: nat, end: nat, out: seq<byte>, piece: seq<byte>)
    requires s.Lawful() && index * PIECE < end <= size
    requires var n := Min(PIECE, size - index * PIECE) + SEALING;
      index * SLOT + n <= |file| && s.open(Owner(id, index), file[index * SLOT..index * SLOT + n]) == Some(piece)
    ensures Onto(out, Opened(s, file, id, size, index, end)) == Onto(out + piece, Opened(s, file, id, size, index + 1, end))
  {
    var rest := Opened(s, file, id, size, index + 1, end);
    if rest.Some? { assert out + (piece + rest.value) == out + piece + rest.value; }
  }

  lemma StartsOn(all: Option<seq<byte>>)
    ensures all == Onto([], all)
  {
    if all.Some? { assert [] + all.value == all.value; }
  }

  /** What is held of data is what opens. */
  lemma {:induction false} HeldOpens(s: Sealing, file: seq<byte>, id: ID, data: seq<byte>, held: nat, index: nat, end: nat)
    requires s.Lawful() && end <= held <= |data| && (held % PIECE == 0 || held == |data|) && Holds(s, file, id, data[..held])
    requires index * PIECE <= end
    ensures var all := Opened(s, file, id, |data|, index, end); all.Some? && all.value[..end - index * PIECE] == data[index * PIECE..end]
    decreases end - index * PIECE
  {
    if index * PIECE < end {
      HeldPiece(s, file, id, data, held, index);
      assert |PieceOf(data, index)| == Min(PIECE, |data| - index * PIECE);
      var rest := Opened(s, file, id, |data|, index + 1, end);
      if (index + 1) * PIECE <= end {
        HeldOpens(s, file, id, data, held, index + 1, end);
        PieceThenRest(data, index, rest.value, end);
      } else {
        LastPiece(data, index, end);
      }
    }
  }

  /** Read from where a piece starts, what is held of data is what data says. */
  lemma HeldReads(s: Sealing, file: seq<byte>, id: ID, data: seq<byte>, held: nat, offset: nat, length: nat)
    requires s.Lawful() && held <= |data| && (held % PIECE == 0 || held == |data|) && Holds(s, file, id, data[..held])
    requires offset % PIECE == 0 && offset < |data| && Min(offset + length, |data|) <= held
    ensures var end := Min(offset + length, |data|);
      UpTo(Opened(s, file, id, |data|, offset / PIECE, end), end - offset) == Some(data[offset..end])
  {
    HeldOpens(s, file, id, data, held, offset / PIECE, Min(offset + length, |data|));
  }

  lemma LastPiece(data: seq<byte>, index: nat, end: nat)
    requires index * PIECE <= end <= |data| && end <= (index + 1) * PIECE
    ensures |PieceOf(data, index)| >= end - index * PIECE && (PieceOf(data, index) + [])[..end - index * PIECE] == data[index * PIECE..end]
  {
    var (piece, start) := (PieceOf(data, index), index * PIECE);
    assert piece + [] == piece && |piece| == Min((index + 1) * PIECE, |data|) - start;
    assert forall i | 0 <= i < end - start :: piece[i] == data[start + i];
  }

  lemma PieceThenRest(data: seq<byte>, index: nat, rest: seq<byte>, end: nat)
    requires (index + 1) * PIECE <= end <= |data| && |rest| >= end - (index + 1) * PIECE
    requires rest[..end - (index + 1) * PIECE] == data[(index + 1) * PIECE..end]
    ensures (PieceOf(data, index) + rest)[..end - index * PIECE] == data[index * PIECE..end]
  {
    assert data[index * PIECE..end] == PieceOf(data, index) + data[(index + 1) * PIECE..end];
  }

  lemma AppendHolds(s: Sealing, out: seq<byte>, id: ID, data: seq<byte>, index: nat, nonce: nat)
    requires s.Lawful() && index * PIECE < |data| && |out| == index * SLOT && Holds(s, out, id, data[..index * PIECE])
    ensures var sealed := s.seal(Owner(id, index), nonce, PieceOf(data, index));
      Holds(s, out + sealed, id, data[..Min((index + 1) * PIECE, |data|)])
      && ((index + 1) * PIECE <= |data| ==> |out + sealed| == (index + 1) * SLOT)
  {
    var (done, piece) := (data[..index * PIECE], PieceOf(data, index));
    var sealed := s.seal(Owner(id, index), nonce, piece);
    assert |done| / PIECE == index && 0 < |piece| <= PIECE;
    PutHolds(s, out, id, done, piece, nonce);
    assert WrittenAt(out, |out|, sealed) == out + sealed;
    assert done + piece == data[..Min((index + 1) * PIECE, |data|)];
  }

  lemma HeldPiece(s: Sealing, file: seq<byte>, id: ID, data: seq<byte>, held: nat, i: nat)
    requires held <= |data| && (held % PIECE == 0 || held == |data|) && i * PIECE < held && Holds(s, file, id, data[..held])
    ensures HoldsPiece(s, file, id, data, i)
  {
    PrefixPiece(data, held, i);
    assert HoldsPiece(s, file, id, data[..held], i);
  }
}
