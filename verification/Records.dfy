/** What cleaning removes of a picture, and that none of it is left, said of its bytes (internal/images/images.go:60-296). */
module Records {
  // Chunks are laid out as section 3.2 of RFC 2083 (PNG), section B.1.1 of ITU-T T.81 (JPEG), the GIF89a specification and section 2.3
  // of RFC 9649 (WebP) have them.

  import opened Basics
  import opened Images

  /** A part of a picture records something beyond it: of PNG, text, the time it was changed, or EXIF, by the chunk's kind; of JPEG, an
      application's segment that is not JFIF's, a colour profile or Adobe's, or a comment; of GIF, a comment, or an application's
      extension that does not make it loop; of WebP, EXIF or XMP. */
  predicate IsRecord(f: Format, s: seq<byte>)
    requires |s| >= 2
  {
    match f
    case PNG =>
      |s| >= 8 && s[4..8] in {[0x74, 0x45, 0x58, 0x74], [0x7A, 0x54, 0x58, 0x74], [0x69, 0x54, 0x58, 0x74], [0x74, 0x49, 0x4D, 0x45], [0x65, 0x58, 0x49, 0x66]}
    case JPEG =>
      || s[1] in {0xE1, 0xFE, 0xEF} || 0xE3 <= s[1] <= 0xED
      || (s[1] == 0xE2 && |s| >= 4 && !([0x49, 0x43, 0x43, 0x5F, 0x50, 0x52, 0x4F, 0x46, 0x49, 0x4C, 0x45, 0] <= s[4..]))
      || (s[1] == 0xEE && |s| >= 4 && !([0x41, 0x64, 0x6F, 0x62, 0x65] <= s[4..]))
    case GIF =>
      && s[0] == 0x21
      && (|| s[1] == 0xFE
          || (s[1] == 0xFF &&
              !(|s| > 14 && s[2] == 11 &&
                s[3..14] in {[0x4E, 0x45, 0x54, 0x53, 0x43, 0x41, 0x50, 0x45, 0x32, 0x2E, 0x30], [0x41, 0x4E, 0x49, 0x4D, 0x45, 0x58, 0x54, 0x53, 0x31, 0x2E, 0x30]})))
    case WebP => |s| >= 4 && s[..4] in {[0x45, 0x58, 0x49, 0x46], [0x58, 0x4D, 0x50, 0x20]}
  }

  lemma PNGRemovedIff(r: seq<byte>)
    requires PNGPiece(r).Piece?
    ensures var p := PNGPiece(r);
      p.size == 12 + U32(r, false) <= |r| && p.out == if IsRecord(PNG, r[..p.size]) then [] else r[..p.size]
  {
    var size := U32(r, false);
    var s := r[..12 + size];
    assert s[4..8] == r[4..8];
    assert PNGPiece(r) == PNGChunk(r[4..8], r[8..8 + size], s);
    KindsAre();
    hide U32, Orientation, Canonical.Ascii;
  }

  lemma KindsAre()
    ensures Ascii("tEXt") == [0x74, 0x45, 0x58, 0x74] && Ascii("zTXt") == [0x7A, 0x54, 0x58, 0x74] && Ascii("iTXt") == [0x69, 0x54, 0x58, 0x74]
    ensures Ascii("tIME") == [0x74, 0x49, 0x4D, 0x45] && EXIF_CHUNK == [0x65, 0x58, 0x49, 0x66]
    ensures EXIF_FOURCC == [0x45, 0x58, 0x49, 0x46] && XMP_FOURCC == [0x58, 0x4D, 0x50, 0x20]
  {
  }

  lemma NamesAre()
    ensures ICC_PREFIX == [0x49, 0x43, 0x43, 0x5F, 0x50, 0x52, 0x4F, 0x46, 0x49, 0x4C, 0x45, 0] && ADOBE_PREFIX == [0x41, 0x64, 0x6F, 0x62, 0x65]
    ensures NETSCAPE == [0x4E, 0x45, 0x54, 0x53, 0x43, 0x41, 0x50, 0x45, 0x32, 0x2E, 0x30]
    ensures ANIMEXTS == [0x41, 0x4E, 0x49, 0x4D, 0x45, 0x58, 0x54, 0x53, 0x31, 0x2E, 0x30]
  {
  }

  lemma JPEGRemovedIff(r: seq<byte>)
    requires JPEGPiece(r).Piece? && r[1] != 0xFF
    ensures var p := JPEGPiece(r); 2 <= p.size <= |r| && p.out == if IsRecord(JPEG, r[..p.size]) then [] else r[..p.size]
  {
    var p := JPEGPiece(r);
    var s := r[..p.size];
    if p.size >= 4 { assert s[4..] == r[4..p.size]; }
    NamesAre();
    hide Orientation, Canonical.Ascii, U16;
  }

  lemma GIFRemovedIff(r: seq<byte>)
    requires GIFPiece(r).Piece? && r[0] != 0x3B
    ensures var p := GIFPiece(r); 2 <= p.size <= |r| && p.out == if IsRecord(GIF, r[..p.size]) then [] else r[..p.size]
  {
    var p := GIFPiece(r);
    var s := r[..p.size];
    if p.size > 14 { assert s[3..14] == r[3..14] && s[2] == r[2]; }
    NamesAre();
    hide Canonical.Ascii, Blocks, Table;
  }

  lemma WebPRemovedIff(r: seq<byte>)
    requires WebPPiece(r).Piece?
    ensures var p := WebPPiece(r);
      && 8 <= p.size <= |r| && p.size == 8 + (U32(r[4..8], true) + 1) / 2 * 2
      && p.out == if IsRecord(WebP, r[..p.size]) then [] else if r[..4] == VP8X_FOURCC then Quieted(r[..p.size]) else r[..p.size]
  {
    var size := U32(r[4..8], true);
    var s := r[..8 + size + size % 2];
    assert s[..4] == r[..4] && WebPPiece(r) == WebPChunk(r[..4], r[8..8 + size], s);
    KindsAre();
    hide U32, Orientation, Canonical.Ascii, Quieted;
  }

  /** What is left of a part: nothing of a record, nor of the byte that fills up before a JPEG marker; of WebP's VP8X chunk, all but the
      flags that say there are EXIF and XMP; and of any other, all of it. */
  function LeftOf(f: Format, s: seq<byte>): seq<byte> {
    if s == [0xFF] || (|s| >= 2 && IsRecord(f, s)) then []
    else if f == WebP && |s| > 8 && s[..4] == [0x56, 0x50, 0x38, 0x58] then s[8 := s[8] / 16 * 16 + s[8] % 4]
    else s
  }

  /** A part is as long as it says: a chunk, a segment or a block is whole. */
  predicate IsWhole(f: Format, s: seq<byte>) {
    match f
    case PNG => |s| >= 12 && |s| == 12 + ((s[0] as int * 0x100 + s[1] as int) * 0x100 + s[2] as int) * 0x100 + s[3] as int
    case JPEG =>
      || s == [0xFF]
      || (|s| == 2 && s[0] == 0xFF && (s[1] == 1 || 0xD0 <= s[1] <= 0xD7 || s[1] == 0xD9))
      || (|s| >= 4 && s[0] == 0xFF && (s[1] == 0xDA || |s| == 2 + s[2] as int * 0x100 + s[3] as int))
    case GIF => s == [0x3B] || (|s| >= 2 && s[0] in {0x21, 0x2C} && s[|s| - 1] == 0)
    case WebP =>
      && |s| >= 8
      && var size := ((s[7] as int * 0x100 + s[6] as int) * 0x100 + s[5] as int) * 0x100 + s[4] as int;
         |s| == 8 + size + size % 2
  }

  /** A picture ends with it: PNG's IEND, the end of a JPEG image or its scan, GIF's trailer. */
  predicate IsEnd(f: Format, s: seq<byte>) {
    match f
    case PNG => |s| >= 8 && s[4..8] == [0x49, 0x45, 0x4E, 0x44]
    case JPEG => |s| >= 2 && s[1] in {0xD9, 0xDA}
    case GIF => s == [0x3B]
    case WebP => false
  }

  lemma PNGPart(r: seq<byte>)
    requires PNGPiece(r).Piece?
    ensures var p := PNGPiece(r); p.size <= |r| && IsWhole(PNG, r[..p.size]) && p.out == LeftOf(PNG, r[..p.size]) && (p.last <==> IsEnd(PNG, r[..p.size]))
  {
    PNGRemovedIff(r);
    PNGEndsIff(r);
    hide Orientation, IsRecord, PNGPiece;
  }

  lemma PNGEndsIff(r: seq<byte>)
    requires PNGPiece(r).Piece?
    ensures PNGPiece(r).last <==> IsEnd(PNG, r[..PNGPiece(r).size])
  {
    var s := r[..PNGPiece(r).size];
    assert s[4..8] == r[4..8];
    assert END_CHUNK == [0x49, 0x45, 0x4E, 0x44] && Ascii("eXIf") == [0x65, 0x58, 0x49, 0x66];
    KindsAre();
    hide Orientation, Canonical.Ascii, U32;
  }

  lemma WebPPart(r: seq<byte>)
    requires WebPPiece(r).Piece?
    ensures var p := WebPPiece(r); p.size <= |r| && IsWhole(WebP, r[..p.size]) && p.out == LeftOf(WebP, r[..p.size]) && (p.last <==> IsEnd(WebP, r[..p.size]))
  {
    WebPRemovedIff(r);
    assert VP8X_FOURCC == [0x56, 0x50, 0x38, 0x58];
    var s := r[..WebPPiece(r).size];
    assert s[..4] == r[..4] && s[4..8] == r[4..8];
    hide Orientation, IsRecord, WebPChunk, Canonical.Ascii;
  }

  lemma JPEGPart(r: seq<byte>)
    requires JPEGPiece(r).Piece?
    ensures var p := JPEGPiece(r); p.size <= |r| && IsWhole(JPEG, r[..p.size]) && p.out == LeftOf(JPEG, r[..p.size]) && (p.last <==> IsEnd(JPEG, r[..p.size]))
  {
    if r[1] == 0xFF { assert r[..1] == [0xFF]; } else { JPEGRemovedIff(r); }
    hide Orientation, IsRecord, IsDrawn;
  }

  lemma {:induction false} BlocksEnd(r: seq<byte>, from: nat)
    requires Blocks(r, from).Some?
    ensures r[Blocks(r, from).value - 1] == 0
    decreases |r| - from
  {
    if r[from] != 0 { BlocksEnd(r, from + 1 + r[from]); }
  }

  lemma GIFPart(r: seq<byte>)
    requires GIFPiece(r).Piece?
    ensures var p := GIFPiece(r); p.size <= |r| && IsWhole(GIF, r[..p.size]) && p.out == LeftOf(GIF, r[..p.size]) && (p.last <==> IsEnd(GIF, r[..p.size]))
  {
    if r[0] == 0x3B {
      assert r[..1] == [0x3B];
    } else {
      GIFRemovedIff(r);
      BlocksEnd(r, if r[0] == 0x21 then 2 else 11 + Table(r[9]));
    }
    hide Orientation, IsRecord, IsLoop, Table, Blocks;
  }

  lemma PartOf(f: Format, r: seq<byte>)
    requires PieceOf(f, r).Piece?
    ensures var p := PieceOf(f, r); p.size <= |r| && IsWhole(f, r[..p.size]) && p.out == LeftOf(f, r[..p.size]) && (p.last <==> IsEnd(f, r[..p.size]))
  {
    match f
    case PNG => PNGPart(r);
    case JPEG => JPEGPart(r);
    case GIF => GIFPart(r);
    case WebP => WebPPart(r);
  }

  // ---- Of a whole picture ----

  function Joined(parts: seq<seq<byte>>): seq<byte> {
    if parts == [] then [] else parts[0] + Joined(parts[1..])
  }

  function Left(f: Format, parts: seq<seq<byte>>): seq<seq<byte>> {
    if parts == [] then [] else [LeftOf(f, parts[0])] + Left(f, parts[1..])
  }

  /** r is parts, each whole, up to the one it ends with; of WebP, all of r. */
  ghost predicate ArePartsOf(f: Format, r: seq<byte>, parts: seq<seq<byte>>) {
    && Joined(parts) <= r
    && (forall i | 0 <= i < |parts| :: IsWhole(f, parts[i]) && (i < |parts| - 1 ==> !IsEnd(f, parts[i])))
    && if f == WebP then Joined(parts) == r else parts != [] && IsEnd(f, parts[|parts| - 1])
  }

  lemma LastPart(f: Format, r: seq<byte>, one: seq<byte>)
    requires (exists t :: r == one + t) && IsWhole(f, one) && IsEnd(f, one)
    ensures ArePartsOf(f, r, [one])
  {
    assert Joined([one]) == one + Joined([]) && one + [] == one;
    hide IsWhole;
  }

  lemma MoreParts(f: Format, r: seq<byte>, one: seq<byte>, t: seq<byte>, more: seq<seq<byte>>)
    requires r == one + t && IsWhole(f, one) && !IsEnd(f, one) && ArePartsOf(f, t, more)
    ensures ArePartsOf(f, r, [one] + more)
  {
    var parts := [one] + more;
    assert parts[1..] == more && Joined(parts) == one + Joined(more);
    assert forall i | 0 < i < |parts| :: parts[i] == more[i - 1];
    hide IsWhole, IsEnd, Joined;
    assert t == Joined(more) + t[|Joined(more)|..];
  }

  lemma FirstPart(f: Format, r: seq<byte>) returns (p: Piece, one: seq<byte>, t: seq<byte>)
    requires Pieces(f, r).Some? && !(f == WebP && r == [])
    ensures r == one + t && |t| < |r| && IsWhole(f, one) && p.Piece? && p.out == LeftOf(f, one) && (p.last <==> IsEnd(f, one))
    ensures if p.last then Pieces(f, r).value == [p] else Pieces(f, t).Some? && Pieces(f, r).value == [p] + Pieces(f, t).value
  {
    p := PieceOf(f, r);
    PiecesAre(f, r);
    PartOf(f, r);
    hide PieceOf, Pieces, LeftOf, IsWhole, IsEnd;
    one, t := r[..p.size], r[p.size..];
  }

  lemma {:induction false} PartsOf(f: Format, r: seq<byte>) returns (parts: seq<seq<byte>>)
    requires Pieces(f, r).Some?
    ensures ArePartsOf(f, r, parts) && Kept(Pieces(f, r).value) == Joined(Left(f, parts))
    decreases |r|
  {
    LeftOfNone(f);
    if f == WebP && r == [] {
      parts := [];
    } else {
      hide *;
      var p, one, t := FirstPart(f, r);
      if p.last {
        parts := [one];
        LastPart(f, r, one);
        LeftOfFirst(f, p, one, [], []);
      } else {
        var more := PartsOf(f, t);
        parts := [one] + more;
        MoreParts(f, r, one, t, more);
        LeftOfFirst(f, p, one, Pieces(f, t).value, more);
      }
    }
  }

  lemma LeftOfFirst(f: Format, p: Piece, one: seq<byte>, ps: seq<Piece>, more: seq<seq<byte>>)
    requires p.Piece? && p.out == LeftOf(f, one) && Kept(ps) == Joined(Left(f, more))
    ensures Kept([p] + ps) == Joined(Left(f, [one] + more))
    ensures [p] + [] == [p] && [one] + [] == [one] && (more == [] ==> [one] + more == [one]) && (ps == [] ==> [p] + ps == [p])
    ensures Kept([]) == Joined(Left(f, []))
  {
    KeptOfFirst(p, ps);
    JoinedFirst(f, one, more);
    hide Kept, Joined, Left, LeftOf;
    assert more == [] ==> [one] + more == [one];
    LeftOfNone(f);
  }

  lemma LeftOfNone(f: Format)
    ensures Kept([]) == Joined(Left(f, []))
  {
  }

  lemma JoinedFirst(f: Format, one: seq<byte>, more: seq<seq<byte>>)
    ensures Joined([one] + more) == one + Joined(more) && Joined(Left(f, [one] + more)) == LeftOf(f, one) + Joined(Left(f, more))
  {
    assert ([one] + more)[1..] == more && ([LeftOf(f, one)] + Left(f, more))[1..] == Left(f, more);
  }

  /** A picture is its header and whole parts, and cleaned it is the header and what is left of each, in their order: of no record anything, and
      of all else all. */
  lemma NothingRecordedIsLeft(data: seq<byte>) returns (h: nat, parts: seq<seq<byte>>)
    requires Cleaned(data).Some?
    ensures var f := Type(data).value;
      && h <= |data| && (f == GIF ==> |data| >= 13)
      && h == (match f case PNG => 8 case JPEG => 2 case WebP => 12
               case GIF => 13 + if data[10] < 0x80 then 0 else [6, 12, 24, 48, 96, 192, 384, 768][data[10] % 8])
      && ArePartsOf(f, data[h..], parts)
      && h <= |Cleaned(data).value.0| && Cleaned(data).value.0[h..] == Joined(Left(f, parts))
      && (f != WebP ==> Cleaned(data).value.0[..h] == data[..h])
  {
    var f := Type(data).value;
    h := Header(f, data).value;
    HeaderAgain(f, data);
    parts := PartsOf(f, data[h..]);
    hide Pieces, Kept, Turned, ArePartsOf, Left, Joined, Type;
  }

  /** The orientation of a picture whose first image directory, at 8, begins with an entry of tag 0x0112, a short number, is that number, if
      from 1 to 8; with the lowest byte first. */
  lemma LittleOrientation(tiff: seq<byte>)
    requires |tiff| >= 22 && tiff[0] == tiff[1] == 0x49 && tiff[2] == 0x2A && tiff[3] == 0
    requires tiff[4] == 8 && tiff[5] == tiff[6] == tiff[7] == 0 && tiff[8] >= 1
    requires tiff[10] == 0x12 && tiff[11] == 1 && tiff[12] == 3 && tiff[13] == 0 && 1 <= tiff[18] <= 8 && tiff[19] == 0
    ensures Orientation(tiff) == tiff[18]
  {
    assert tiff[..4] == [0x49, 0x49, 0x2A, 0] && HasPrefix(tiff, [0x49, 0x49, 0x2A, 0]);
    hide HasPrefix;
    assert U32(tiff[4..], true) == 8 && U16(tiff[8..], true) >= 1;
    assert U16(tiff[10..], true) == 0x112 && U16(tiff[12..], true) == 3 && U16(tiff[18..], true) == tiff[18];
    hide U32, U16;
    assert OrientationFrom(tiff, true, 8, 0, U16(tiff[8..], true)) == tiff[18];
  }

  /** And with the highest first. */
  lemma BigOrientation(tiff: seq<byte>)
    requires |tiff| >= 22 && tiff[0] == tiff[1] == 0x4D && tiff[2] == 0 && tiff[3] == 0x2A
    requires tiff[7] == 8 && tiff[4] == tiff[5] == tiff[6] == 0 && tiff[9] >= 1
    requires tiff[10] == 1 && tiff[11] == 0x12 && tiff[12] == 0 && tiff[13] == 3 && tiff[18] == 0 && 1 <= tiff[19] <= 8
    ensures Orientation(tiff) == tiff[19]
  {
    var two: seq<byte> := [0x49, 0x49, 0x2A, 0];
    var em: seq<byte> := [0x4D, 0x4D, 0, 0x2A];
    assert tiff[..4] == em && HasPrefix(tiff, em) && two[0] == 0x49 && !HasPrefix(tiff, two);
    hide HasPrefix;
    assert U32(tiff[4..], false) == 8 && U16(tiff[8..], false) >= 1;
    assert U16(tiff[10..], false) == 0x112 && U16(tiff[12..], false) == 3 && U16(tiff[18..], false) == tiff[19];
    hide U32, U16;
    assert OrientationFrom(tiff, false, 8, 0, U16(tiff[8..], false)) == tiff[19];
  }
}
