/** What cleaning leaves of a picture (internal/images/images.go:24-296).

A picture is a header and pieces, of which some are kept; cleaning one cleaned changes nothing. Chunks are laid out as
section 3.2 of RFC 2083 (PNG), section B.1.1 of ITU-T T.81 (JPEG) and section 2.3 of RFC 9649 (WebP) have them. */
module Images {
  import opened Basics
  import Canonical

  type byte = Canonical.byte

  datatype Format = PNG | JPEG | GIF | WebP

  function Ascii(s: string): seq<byte> { Canonical.Ascii(s) }

  predicate HasPrefix(data: seq<byte>, prefix: seq<byte>) { prefix <= data }

  /** The type of picture data holds, by its first bytes. */
  function Type(data: seq<byte>): Option<Format> {
    if HasPrefix(data, [0x89, 0x50, 0x4E, 0x47, 0x0D, 0x0A, 0x1A, 0x0A]) then Some(PNG)
    else if HasPrefix(data, [0xFF, 0xD8, 0xFF]) then Some(JPEG)
    else if HasPrefix(data, Ascii("GIF87a")) || HasPrefix(data, Ascii("GIF89a")) then Some(GIF)
    else if |data| >= 12 && HasPrefix(data, Ascii("RIFF")) && data[8..12] == Ascii("WEBP") then Some(WebP)
    else None
  }

  // ---- Numbers ----

  /** The number s begins with, of four bytes or of two, the lowest first if little. */
  function U32(s: seq<byte>, little: bool): nat
    requires |s| >= 4
  {
    if little then s[0] as int + 0x100 * (s[1] as int + 0x100 * (s[2] as int + 0x100 * s[3] as int))
    else s[3] as int + 0x100 * (s[2] as int + 0x100 * (s[1] as int + 0x100 * s[0] as int))
  }

  function U16(s: seq<byte>, little: bool): nat
    requires |s| >= 2
  {
    if little then s[0] as int + 0x100 * s[1] as int else s[1] as int + 0x100 * s[0] as int
  }

  /** v, if it fits, as four bytes, the lowest first. */
  function Little32(v: nat): seq<byte> {
    [v % 0x100, v / 0x100 % 0x100, v / 0x1_0000 % 0x100, v / 0x100_0000 % 0x100]
  }

  // ---- The orientation ----

  /** The orientation the first image directory's entries from the i-th record, or 1. */
  function OrientationFrom(tiff: seq<byte>, little: bool, directory: nat, i: nat, count: nat): (o: nat)
    ensures 1 <= o <= 8
    decreases count - i
  {
    var entry := directory + 2 + i * 12;
    if i >= count || entry + 12 > |tiff| then 1
    else
      var o := U16(tiff[entry + 8..], little);
      if U16(tiff[entry..], little) == 0x0112 && U16(tiff[entry + 2..], little) == 3 && 1 <= o <= 8 then o
      else OrientationFrom(tiff, little, directory, i + 1, count)
  }

  /** The orientation TIFF data records, or 1. */
  function Orientation(tiff: seq<byte>): (o: nat)
    ensures 1 <= o <= 8
  {
    var little := HasPrefix(tiff, [0x49, 0x49, 0x2A, 0]);
    if (!little && !HasPrefix(tiff, [0x4D, 0x4D, 0, 0x2A])) || |tiff| < 8 then 1
    else
      var directory := U32(tiff[4..], little);
      if directory + 2 > |tiff| then 1 else OrientationFrom(tiff, little, directory, 0, U16(tiff[directory..], little))
  }

  const EXIF_PREFIX: seq<byte> := [0x45, 0x78, 0x69, 0x66, 0, 0]

  // ---- The pieces of a picture ----

  /** The piece a picture goes on with: how long it is, what of it is kept, the orientation it records if it does, and
      whether the picture ends with it. */
  datatype Piece = Malformed | Piece(size: nat, out: seq<byte>, turn: Option<nat>, last: bool)

  const EXIF_CHUNK: seq<byte> := Ascii("eXIf")
  const END_CHUNK: seq<byte> := Ascii("IEND")

  /** Text, and the time it was changed. */
  predicate IsNoted(kind: seq<byte>) {
    kind == Ascii("tEXt") || kind == Ascii("zTXt") || kind == Ascii("iTXt") || kind == Ascii("tIME")
  }

  /** A chunk of a kind, with its payload, whole. */
  function PNGChunk(kind: seq<byte>, payload: seq<byte>, whole: seq<byte>): Piece {
    if kind == EXIF_CHUNK then Piece(|whole|, [], Some(Orientation(payload)), false)
    else if IsNoted(kind) then Piece(|whole|, [], None, false)
    else Piece(|whole|, whole, None, kind == END_CHUNK)
  }

  function PNGPiece(r: seq<byte>): Piece {
    if |r| < 12 then Malformed
    else
      var size := U32(r, false);
      if 12 + size > |r| then Malformed else PNGChunk(r[4..8], r[8..8 + size], r[..12 + size])
  }

  const ICC_PREFIX: seq<byte> := Ascii("ICC_PROFILE") + [0]
  const ADOBE_PREFIX: seq<byte> := Ascii("Adobe")

  /** Whether a marker segment is part of drawing the picture. */
  predicate IsDrawn(marker: byte, payload: seq<byte>) {
    if marker == 0xE1 then false
    else if marker == 0xE0 then true
    else if marker == 0xE2 then HasPrefix(payload, ICC_PREFIX)
    else if marker == 0xEE then HasPrefix(payload, ADOBE_PREFIX)
    else !(0xE0 <= marker <= 0xEF || marker == 0xFE)
  }

  /** Whether a marker stands alone, with no segment. */
  predicate IsAlone(marker: byte) { marker == 0x01 || 0xD0 <= marker <= 0xD7 }

  /** A marker segment, with its payload, whole. */
  function JPEGSegment(marker: byte, payload: seq<byte>, whole: seq<byte>): Piece {
    Piece(|whole|, if IsDrawn(marker, payload) then whole else [],
      if marker == 0xE1 && HasPrefix(payload, EXIF_PREFIX) then Some(Orientation(payload[6..])) else None, false)
  }

  function JPEGPiece(r: seq<byte>): Piece {
    if |r| < 2 || r[0] != 0xFF then Malformed
    else
      var marker := r[1];
      // A fill byte before a marker.
      if marker == 0xFF then Piece(1, [], None, false)
      else if IsAlone(marker) then Piece(2, r[..2], None, false)
      else if marker == 0xD9 then Piece(2, r[..2], None, true)
      else if |r| < 4 then Malformed
      else
        var size := U16(r[2..4], false);
        if size < 2 || 2 + size > |r| then Malformed
        // The scan, and everything after it, is the picture itself.
        else if marker == 0xDA then Piece(|r|, r, None, true)
        else JPEGSegment(marker, r[4..2 + size], r[..2 + size])
  }

  /** Where the sub-blocks that start at from end, after their terminator. */
  function Blocks(r: seq<byte>, from: nat): (end: Option<nat>)
    ensures end.Some? ==> from < end.value <= |r|
    decreases |r| - from
  {
    if from >= |r| then None
    else if r[from] == 0 then Some(from + 1)
    else Blocks(r, from + 1 + r[from])
  }

  /** How long a colour table flags announce is. */
  function Table(flags: byte): nat {
    if flags < 0x80 then 0 else [6, 12, 24, 48, 96, 192, 384, 768][flags % 8]
  }

  const NETSCAPE: seq<byte> := Ascii("NETSCAPE2.0")
  const ANIMEXTS: seq<byte> := Ascii("ANIMEXTS1.0")

  predicate IsLoop(r: seq<byte>, end: nat)
    requires end <= |r|
  {
    end > 14 && r[2] == 11 && (r[3..14] == NETSCAPE || r[3..14] == ANIMEXTS)
  }

  function GIFPiece(r: seq<byte>): Piece {
    if r == [] then Malformed
    else if r[0] == 0x3B then Piece(1, [0x3B], None, true)
    else if r[0] == 0x21 then
      if |r| < 2 then Malformed
      else
        var end := Blocks(r, 2);
        if end.None? then Malformed
        else Piece(end.value, if r[1] != 0xFE && (r[1] == 0xFF ==> IsLoop(r, end.value)) then r[..end.value] else [], None, false)
    else if r[0] == 0x2C then
      if |r| < 10 || 11 + Table(r[9]) > |r| then Malformed
      else
        var end := Blocks(r, 11 + Table(r[9]));
        if end.None? then Malformed else Piece(end.value, r[..end.value], None, false)
    else Malformed
  }

  /** flags without those that announce EXIF and XMP, 8 and 4: their other bits. */
  function Unannounced(flags: byte): byte { flags / 16 * 16 + flags % 4 }

  const EXIF_FOURCC: seq<byte> := Ascii("EXIF")
  const XMP_FOURCC: seq<byte> := Ascii("XMP ")
  const VP8X_FOURCC: seq<byte> := Ascii("VP8X")

  /** A chunk of a kind, with its payload, whole. */
  function WebPChunk(kind: seq<byte>, payload: seq<byte>, whole: seq<byte>): Piece {
    if kind == EXIF_FOURCC then Piece(|whole|, [], Some(Orientation(if HasPrefix(payload, EXIF_PREFIX) then payload[6..] else payload)), false)
    else if kind == XMP_FOURCC then Piece(|whole|, [], None, false)
    else if kind == VP8X_FOURCC then Piece(|whole|, Quieted(whole), None, false)
    else Piece(|whole|, whole, None, false)
  }

  /** A VP8X chunk without the flags that announce what is no longer there. */
  function Quieted(whole: seq<byte>): seq<byte> { if |whole| > 8 then whole[8 := Unannounced(whole[8])] else whole }

  function WebPPiece(r: seq<byte>): Piece {
    if |r| < 8 then Malformed
    else
      var size := U32(r[4..8], true);
      var end := 8 + size + size % 2;
      if end > |r| then Malformed else WebPChunk(r[..4], r[8..8 + size], r[..end])
  }

  function PieceOf(f: Format, r: seq<byte>): Piece {
    match f case PNG => PNGPiece(r) case JPEG => JPEGPiece(r) case GIF => GIFPiece(r) case WebP => WebPPiece(r)
  }

  /** The pieces that r, after a header, is made of, up to the last; a WebP picture's are all it has. */
  function Pieces(f: Format, r: seq<byte>): Option<seq<Piece>> {
    if f == WebP && r == [] then Some([])
    else
      var p := PieceOf(f, r);
      if p.Malformed? || p.size == 0 || p.size > |r| then None
      else if p.last then Some([p])
      else
        var more := Pieces(f, r[p.size..]);
        if more.None? then None else Some([p] + more.value)
  }

  /** What is kept of pieces, and the orientation they record last, of o and theirs. */
  function Kept(ps: seq<Piece>): seq<byte> {
    if ps == [] || ps[0].Malformed? then [] else ps[0].out + Kept(ps[1..])
  }

  function Turned(ps: seq<Piece>, o: nat): nat {
    if ps == [] then o else Turned(ps[1..], if ps[0].Piece? && ps[0].turn.Some? then ps[0].turn.value else o)
  }

  /** How long a picture's header is, if it has a whole one. */
  function Header(f: Format, data: seq<byte>): Option<nat> {
    match f
    case PNG => if |data| < 8 then None else Some(8)
    case JPEG => if |data| < 2 then None else Some(2)
    case GIF => if |data| < 13 || 13 + Table(data[10]) > |data| then None else Some(13 + Table(data[10]))
    case WebP => if |data| < 12 || U32(data[4..], true) + 8 != |data| then None else Some(12)
  }

  /** The picture without what it records beyond it, and the orientation it recorded. */
  function CleanedAs(f: Format, data: seq<byte>): Option<(seq<byte>, nat)> {
    var h := Header(f, data);
    if h.None? then None
    else
      var ps := Pieces(f, data[h.value..]);
      if ps.None? then None
      else
        var out := data[..h.value] + Kept(ps.value);
        Some((if f == WebP then out[..4] + Little32(|out| - 8) + out[8..] else out, Turned(ps.value, 1)))
  }

  function Cleaned(data: seq<byte>): Option<(seq<byte>, nat)> {
    var f := Type(data);
    if f.None? then None else CleanedAs(f.value, data)
  }

  // ---- A piece kept is a piece again ----

  /** What a piece keeps is, whatever follows it, the same piece, kept as it is; or, of the last, with nothing after. */
  ghost predicate IsItself(f: Format, p: Piece)
    requires p.Piece?
  {
    if p.last then PieceOf(f, p.out) == Piece(|p.out|, p.out, None, true)
    else forall t :: PieceOf(f, p.out + t) == Piece(|p.out|, p.out, None, false)
  }

  lemma PNGAgain(r: seq<byte>)
    requires PNGPiece(r).Piece? && PNGPiece(r).out != []
    ensures IsItself(PNG, PNGPiece(r))
  {
    var p := PNGPiece(r);
    var size := U32(r, false);
    assert p.out == r[..12 + size] && p == PNGChunk(r[4..8], r[8..8 + size], r[..12 + size]);
    forall t: seq<byte> ensures PNGPiece(p.out + t) == Piece(|p.out|, p.out, None, p.last) {
      var s := p.out + t;
      assert U32(s, false) == size;
      SameSlice(r, s, 12 + size, 4, 8);
      SameSlice(r, s, 12 + size, 8, 8 + size);
      SameSlice(r, s, 12 + size, 0, 12 + size);
      hide U32, IsNoted, Orientation;
    }
    assert p.out + [] == p.out;
  }

  lemma SameSlice(r: seq<byte>, s: seq<byte>, n: nat, from: nat, to: nat)
    requires from <= to <= n <= |r| && n <= |s| && s[..n] == r[..n]
    ensures s[from..to] == r[from..to]
  {
    assert s[from..to] == s[..n][from..to] && r[from..to] == r[..n][from..to];
  }

  lemma JPEGAgain(r: seq<byte>)
    requires JPEGPiece(r).Piece? && JPEGPiece(r).out != []
    ensures IsItself(JPEG, JPEGPiece(r))
  {
    var p := JPEGPiece(r);
    if r[1] == 0xDA {
      assert p.out == r;
    } else {
      var n := |p.out|;
      assert p.out == r[..n];
      forall t: seq<byte> ensures JPEGPiece(p.out + t) == Piece(|p.out|, p.out, None, p.last) {
        var s := p.out + t;
        assert s[0] == r[0] && s[1] == r[1];
        SameSlice(r, s, n, 0, n);
        if n >= 4 {
          SameSlice(r, s, n, 2, 4);
          SameSlice(r, s, n, 4, n);
        }
        hide IsDrawn, Orientation, U16, HasPrefix;
      }
      assert p.out + [] == p.out;
    }
  }

  lemma {:induction false} BlocksAgain(r: seq<byte>, s: seq<byte>, from: nat)
    requires Blocks(r, from).Some? && |s| >= Blocks(r, from).value && s[..Blocks(r, from).value] == r[..Blocks(r, from).value]
    ensures Blocks(s, from) == Blocks(r, from)
    decreases |r| - from
  {
    var end := Blocks(r, from).value;
    assert s[from] == s[..end][from] == r[..end][from] == r[from];
    if r[from] != 0 { BlocksAgain(r, s, from + 1 + r[from]); }
  }

  lemma GIFAgain(r: seq<byte>)
    requires GIFPiece(r).Piece? && GIFPiece(r).out != []
    ensures IsItself(GIF, GIFPiece(r))
  {
    var p := GIFPiece(r);
    forall t: seq<byte> ensures GIFPiece(p.out + t) == Piece(|p.out|, p.out, None, p.last) {
      var s := p.out + t;
      assert s[0] == r[0] && s[..|p.out|] == p.out;
      if r[0] == 0x21 {
        assert s[1] == r[1];
        BlocksAgain(r, s, 2);
        if |p.out| > 14 { assert s[2] == r[2] && s[3..14] == r[3..14]; }
      } else if r[0] == 0x2C {
        assert s[9] == r[9];
        BlocksAgain(r, s, 11 + Table(r[9]));
      }
      hide Blocks, Canonical.Ascii, Table;
    }
    assert p.out + [] == p.out;
  }

  lemma UnannouncedOnce(flags: byte)
    ensures Unannounced(Unannounced(flags)) == Unannounced(flags)
  {
  }

  lemma QuietedOnce(whole: seq<byte>)
    ensures |Quieted(whole)| == |whole| && Quieted(Quieted(whole)) == Quieted(whole)
    ensures |whole| >= 8 ==> Quieted(whole)[..8] == whole[..8]
  {
    if |whole| > 8 { UnannouncedOnce(whole[8]); }
  }

  lemma WebPAgain(r: seq<byte>)
    requires WebPPiece(r).Piece? && WebPPiece(r).out != []
    ensures IsItself(WebP, WebPPiece(r))
  {
    var p := WebPPiece(r);
    var (kind, size) := (r[..4], U32(r[4..8], true));
    var end := 8 + size + size % 2;
    assert p == WebPChunk(kind, r[8..8 + size], r[..end]);
    QuietedOnce(r[..end]);
    assert |p.out| == end && p.out[..8] == r[..8];
    forall t: seq<byte> ensures WebPPiece(p.out + t) == Piece(|p.out|, p.out, None, false) {
      var s := p.out + t;
      assert s[..8] == p.out[..8];
      SameSlice(r, s, 8, 0, 4);
      SameSlice(r, s, 8, 4, 8);
      assert s[..end] == p.out;
      hide U32, Orientation, HasPrefix, Quieted;
    }
  }

  lemma Again(f: Format, r: seq<byte>)
    requires PieceOf(f, r).Piece? && PieceOf(f, r).out != []
    ensures IsItself(f, PieceOf(f, r))
  {
    match f
    case PNG => PNGAgain(r);
    case JPEG => JPEGAgain(r);
    case GIF => GIFAgain(r);
    case WebP => WebPAgain(r);
  }

  // ---- Cleaning what is cleaned ----

  /** The pieces of which something is kept, as what is kept has them. */
  function OnlyKept(ps: seq<Piece>): seq<Piece> {
    if ps == [] then []
    else if ps[0].Malformed? || ps[0].out == [] then OnlyKept(ps[1..])
    else [Piece(|ps[0].out|, ps[0].out, None, ps[0].last)] + OnlyKept(ps[1..])
  }

  /** What ends a picture is kept; and nothing kept is longer than its piece. */
  lemma PieceFits(f: Format, r: seq<byte>)
    requires PieceOf(f, r).Piece?
    ensures var p := PieceOf(f, r); 0 < p.size <= |r| && |p.out| <= p.size && (p.last ==> p.out != [] && f != WebP)
    ensures var p := PieceOf(f, r); p.turn.Some? ==> p.out == [] && 1 <= p.turn.value <= 8
    ensures var p := PieceOf(f, r); f == JPEG && p.out != [] ==> p.out[0] == 0xFF
  {
    hide Orientation, Blocks, Canonical.Ascii;
    if f == PNG { IENDKept(r); }
  }

  lemma IENDKept(r: seq<byte>)
    requires PNGPiece(r).Piece?
    ensures PNGPiece(r).last ==> PNGPiece(r).out != []
  {
  }

  lemma PiecesAre(f: Format, r: seq<byte>)
    requires Pieces(f, r).Some? && !(f == WebP && r == [])
    ensures PieceOf(f, r).Piece? && 0 < PieceOf(f, r).size <= |r|
    ensures var (p, ps) := (PieceOf(f, r), Pieces(f, r).value);
      if p.last then ps == [p] else Pieces(f, r[p.size..]).Some? && ps == [p] + Pieces(f, r[p.size..]).value
  {
    hide PieceOf;
  }

  lemma KeptOfFirst(p: Piece, more: seq<Piece>)
    requires p.Piece?
    ensures Kept([p] + more) == p.out + Kept(more)
    ensures OnlyKept([p] + more) == (if p.out == [] then [] else [Piece(|p.out|, p.out, None, p.last)]) + OnlyKept(more)
  {
    assert ([p] + more)[1..] == more;
  }

  lemma NothingKept()
    ensures Kept([]) == [] && OnlyKept([]) == [] && Pieces(WebP, []) == Some([])
  {
  }

  /** The pieces of what is kept are the pieces kept, each whole, and no others. */
  lemma {:induction false} PiecesOfKept(f: Format, r: seq<byte>)
    requires Pieces(f, r).Some?
    ensures var ps := Pieces(f, r).value; Pieces(f, Kept(ps)) == Some(OnlyKept(ps)) && |Kept(ps)| <= |r|
    ensures f == JPEG ==> Kept(Pieces(f, r).value) != [] && Kept(Pieces(f, r).value)[0] == 0xFF
    decreases |r|
  {
    NothingKept();
    hide Pieces, PieceOf, Kept, OnlyKept;
    if !(f == WebP && r == []) {
      var p := PieceOf(f, r);
      PiecesAre(f, r);
      PieceFits(f, r);
      if p.out != [] { Again(f, r); }
      if p.last {
        LastAlone(f, p);
        KeptOfFirst(p, []);
        assert [p] + [] == [p] && p.out + [] == p.out;
        assert [Piece(|p.out|, p.out, None, true)] + [] == [Piece(|p.out|, p.out, None, true)];
      } else {
        var more := Pieces(f, r[p.size..]).value;
        PiecesOfKept(f, r[p.size..]);
        KeptOfFirst(p, more);
        if p.out != [] { OneMore(f, p, Kept(more)); } else { Nothing(Kept(more), OnlyKept(more)); }
      }
    }
  }

  lemma Nothing(kept: seq<byte>, only: seq<Piece>)
    ensures [] + kept == kept && [] + only == only
  {
  }

  lemma LastAlone(f: Format, p: Piece)
    requires p.Piece? && p.last && p.out != [] && IsItself(f, p)
    ensures Pieces(f, p.out) == Some([Piece(|p.out|, p.out, None, true)])
  {
    hide PieceOf;
  }

  lemma OneMore(f: Format, p: Piece, t: seq<byte>)
    requires p.Piece? && !p.last && p.out != [] && IsItself(f, p) && Pieces(f, t).Some?
    ensures Pieces(f, p.out + t) == Some([Piece(|p.out|, p.out, None, false)] + Pieces(f, t).value)
  {
    hide PieceOf;
    assert (p.out + t)[|p.out|..] == t;
  }

  lemma {:induction false} NoTurns(ps: seq<Piece>)
    ensures Turned(OnlyKept(ps), 1) == 1
    ensures Kept(OnlyKept(ps)) == Kept(ps) || exists i :: 0 <= i < |ps| && ps[i].Malformed?
  {
    if ps != [] {
      NoTurns(ps[1..]);
      if ps[0].Piece? && ps[0].out != [] {
        assert OnlyKept(ps)[1..] == OnlyKept(ps[1..]);
      }
      if i :| 0 <= i < |ps[1..]| && ps[1..][i].Malformed? { assert ps[i + 1].Malformed?; }
      if ps[0].Malformed? { assert ps[0].Malformed?; }
    }
  }

  lemma {:induction false} PiecesHold(f: Format, r: seq<byte>)
    requires Pieces(f, r).Some?
    ensures forall i | 0 <= i < |Pieces(f, r).value| ::
      var p := Pieces(f, r).value[i]; p.Piece? && (p.turn.Some? ==> 1 <= p.turn.value <= 8)
    decreases |r|
  {
    if !(f == WebP && r == []) {
      var p := PieceOf(f, r);
      PieceFits(f, r);
      hide PieceOf;
      if !p.last { PiecesHold(f, r[p.size..]); }
    }
  }

  lemma {:induction false} TurnedUpright(ps: seq<Piece>, o: nat)
    requires 1 <= o <= 8 && forall i | 0 <= i < |ps| :: ps[i].Piece? && (ps[i].turn.Some? ==> 1 <= ps[i].turn.value <= 8)
    ensures 1 <= Turned(ps, o) <= 8
  {
    if ps != [] { TurnedUpright(ps[1..], if ps[0].turn.Some? then ps[0].turn.value else o); }
  }

  lemma Little32Reads(v: nat)
    requires v < 0x1_0000_0000
    ensures U32(Little32(v), true) == v
  {
    var (a, b, c) := (v / 0x100, v / 0x1_0000, v / 0x100_0000);
    assert b == a / 0x100 && c == b / 0x100;
  }

  lemma U32Bounded(s: seq<byte>)
    requires |s| >= 4
    ensures U32(s, true) < 0x1_0000_0000
  {
  }

  /** The header of what is cleaned is as long as it was. */
  lemma HeaderAgain(f: Format, data: seq<byte>)
    requires CleanedAs(f, data).Some? && Type(data) == Some(f)
    ensures var (out, h) := (CleanedAs(f, data).value.0, Header(f, data).value);
      |out| >= h && Header(f, out) == Some(h) && out[h..] == Kept(Pieces(f, data[h..]).value) && Type(out) == Some(f)
      && (f != WebP ==> out[..h] == data[..h]) && (f == WebP ==> out[..4] == data[..4] && out[8..12] == data[8..12] && out[4..8] == Little32(|out| - 8))
      && |out| <= |data|
  {
    var h := Header(f, data).value;
    var ps := Pieces(f, data[h..]).value;
    PiecesOfKept(f, data[h..]);
    var (kept, out) := (Kept(ps), CleanedAs(f, data).value.0);
    hide Pieces, Kept, Turned;
    match f
    case PNG => PNGHeader(data, kept);
    case JPEG => JPEGHeader(data, kept);
    case GIF => GIFHeader(data, h, kept);
    case WebP => WebPHeader(data, kept);
  }

  lemma PNGHeader(data: seq<byte>, kept: seq<byte>)
    requires Type(data) == Some(PNG)
    ensures var out := data[..8] + kept; Type(out) == Some(PNG) && out[8..] == kept
  {
  }

  lemma JPEGHeader(data: seq<byte>, kept: seq<byte>)
    requires Type(data) == Some(JPEG) && kept != [] && kept[0] == 0xFF
    ensures var out := data[..2] + kept; Type(out) == Some(JPEG) && out[2..] == kept
  {
    var out := data[..2] + kept;
    var prefix: seq<byte> := [0xFF, 0xD8, 0xFF];
    assert data[0] == prefix[0] && data[1] == prefix[1];
    assert out[..3] == prefix && out[0] == 0xFF && out[2..] == kept;
    assert HasPrefix(out, prefix);
    var png: seq<byte> := [0x89, 0x50, 0x4E, 0x47, 0x0D, 0x0A, 0x1A, 0x0A];
    assert png[0] == 0x89 && !HasPrefix(out, png);
  }

  lemma GIFHeader(data: seq<byte>, h: nat, kept: seq<byte>)
    requires Type(data) == Some(GIF) && Header(GIF, data) == Some(h)
    ensures var out := data[..h] + kept; Type(out) == Some(GIF) && out[h..] == kept && Header(GIF, out) == Some(h)
  {
    var out := data[..h] + kept;
    assert out[10] == data[10] && out[..6] == data[..6];
    GIFType(data);
    GIFType(out);
    hide Table;
  }

  lemma GIFType(data: seq<byte>)
    requires |data| >= 6
    ensures Type(data) == Some(GIF) <==> data[..6] == Ascii("GIF87a") || data[..6] == Ascii("GIF89a")
  {
    var (a, b) := (Ascii("GIF87a"), Ascii("GIF89a"));
    assert |a| == 6 && |b| == 6 && a[0] == 0x47 && b[0] == 0x47;
    assert (a <= data <==> data[..6] == a) && (b <= data <==> data[..6] == b);
    assert data[..6][0] == data[0];
  }

  lemma WebPHeader(data: seq<byte>, kept: seq<byte>)
    requires Type(data) == Some(WebP) && Header(WebP, data) == Some(12) && |kept| <= |data| - 12
    ensures var plain := data[..12] + kept;
      var out := plain[..4] + Little32(|plain| - 8) + plain[8..];
      Type(out) == Some(WebP) && Header(WebP, out) == Some(12) && out[12..] == kept
      && out[..4] == data[..4] && out[8..12] == data[8..12] && out[4..8] == Little32(|out| - 8) && |out| == |plain|
  {
    var plain := data[..12] + kept;
    var out := plain[..4] + Little32(|plain| - 8) + plain[8..];
    U32Bounded(data[4..]);
    assert |plain| - 8 < 0x1_0000_0000;
    Little32Reads(|plain| - 8);
    var size := Little32(|plain| - 8);
    assert |size| == 4 && out == data[..4] + (size + plain[8..]) && plain[8..] == data[8..12] + kept;
    assert out[..4] == data[..4] && out[4..] == size + plain[8..] && out[4..8] == size && out[8..] == plain[8..] && out[8..12] == data[8..12];
    assert U32(out[4..], true) == U32(out[4..8], true);
    WebPType(data);
    WebPType(out);
    hide U32, Little32;
  }

  lemma WebPType(data: seq<byte>)
    requires |data| >= 12
    ensures Type(data) == Some(WebP) <==> data[..4] == Ascii("RIFF") && data[8..12] == Ascii("WEBP")
  {
    assert Ascii("RIFF")[0] == 0x52 && Ascii("GIF87a")[0] == 0x47 && Ascii("GIF89a")[0] == 0x47;
    if data[..4] == Ascii("RIFF") {
      assert data == data[..4] + data[4..] && data[0] == data[..4][0];
    }
  }

  /** Cleaning is a projection: what is cleaned is a picture of the same type, no longer, upright or turned one of eight
      ways; and cleaned again it stays as it is, and records no turn. */
  lemma CleaningIsAProjection(data: seq<byte>)
    requires Cleaned(data).Some?
    ensures var (out, o) := Cleaned(data).value;
      Type(out) == Type(data) && |out| <= |data| && 1 <= o <= 8 && Cleaned(out) == Some((out, 1))
  {
    var f := Type(data).value;
    var h := Header(f, data).value;
    var ps := Pieces(f, data[h..]).value;
    HeaderAgain(f, data);
    PiecesOfKept(f, data[h..]);
    PiecesHold(f, data[h..]);
    TurnedUpright(ps, 1);
    NoTurns(ps);
    var out := Cleaned(data).value.0;
    hide Pieces, Kept, OnlyKept, Turned, Type, Header;
    SameAgain(f, out, h, Kept(ps));
    assert Kept(OnlyKept(ps)) == Kept(ps);
  }

  lemma SameAgain(f: Format, out: seq<byte>, h: nat, kept: seq<byte>)
    requires |out| >= h && out[h..] == kept && (f == WebP ==> h == 12 && out[4..8] == Little32(|out| - 8))
    ensures var again := out[..h] + kept; again == out && (f == WebP ==> again[..4] + Little32(|again| - 8) + again[8..] == out)
  {
    if f == WebP { assert out == out[..4] + out[4..8] + out[8..]; }
  }

  /** Nothing that is removed is left: of every piece of what is cleaned the whole is kept, and none records a turn. */
  lemma {:induction false} OnlyKeptIsWhole(ps: seq<Piece>)
    ensures forall q | q in OnlyKept(ps) :: q.Piece? && q.out != [] && q.size == |q.out| && q.turn == None
  {
    if ps != [] { OnlyKeptIsWhole(ps[1..]); }
  }

  lemma NothingRemovedIsLeft(data: seq<byte>)
    requires Cleaned(data).Some?
    ensures var (f, out) := (Type(data).value, Cleaned(data).value.0);
      && Header(f, out) == Header(f, data)
      && var left := Pieces(f, out[Header(f, out).value..]);
         left.Some? && forall q | q in left.value :: q.Piece? && q.out != [] && q.size == |q.out| && q.turn == None
  {
    var f := Type(data).value;
    var h := Header(f, data).value;
    HeaderAgain(f, data);
    PiecesOfKept(f, data[h..]);
    OnlyKeptIsWhole(Pieces(f, data[h..]).value);
    hide Pieces, Kept, OnlyKept, Turned, Type, Header;
  }
}
