/** The cleaners of each type of picture, advancing over its bytes as the source does.

internal/images/images.go:44-296. Each is proved to leave what Images says: a cleaner's step is given the rest of the
picture, and where in it the rest begins. */
module ImageCleaners {
  import opened Basics
  import opened Images

  /** The pieces of data after a header of h bytes are those done and those from at on. */
  ghost predicate Going(f: Format, data: seq<byte>, h: nat, at: nat, done: seq<Piece>) {
    && h <= at <= |data|
    && var (all, more) := (Pieces(f, data[h..]), Pieces(f, data[at..]));
       all == if more.None? then None else Some(done + more.value)
  }

  lemma Advances(f: Format, data: seq<byte>, h: nat, at: nat, done: seq<Piece>)
    requires Going(f, data, h, at, done) && !(f == WebP && at == |data|)
    ensures var p := PieceOf(f, data[at..]);
      if p.Malformed? then Pieces(f, data[h..]).None?
      else 0 < p.size <= |data| - at && if p.last then Pieces(f, data[h..]) == Some(done + [p]) else Going(f, data, h, at + p.size, done + [p])
  {
    var p := PieceOf(f, data[at..]);
    if p.Piece? {
      PieceFits(f, data[at..]);
      assert data[at..][p.size..] == data[at + p.size..];
      hide PieceOf;
      if !p.last {
        var more := Pieces(f, data[at + p.size..]);
        if more.Some? { Joins(done, p, more.value); }
      }
    }
  }

  lemma Joins(done: seq<Piece>, p: Piece, more: seq<Piece>)
    ensures done + ([p] + more) == done + [p] + more
  {
  }

  lemma {:induction false} DoneMore(done: seq<Piece>, p: Piece, o: nat)
    requires p.Piece? && forall q | q in done :: q.Piece?
    ensures Kept(done + [p]) == Kept(done) + p.out
    ensures Turned(done + [p], o) == if p.turn.Some? then p.turn.value else Turned(done, o)
  {
    if done == [] {
      assert done + [p] == [p] && [p][1..] == [] && p.out + [] == p.out && [] + p.out == p.out;
    } else {
      assert (done + [p])[1..] == done[1..] + [p];
      DoneMore(done[1..], p, if done[0].turn.Some? then done[0].turn.value else o);
      assert done[0].out + (Kept(done[1..]) + p.out) == done[0].out + Kept(done[1..]) + p.out;
    }
  }

  lemma StartsOut(header: seq<byte>)
    ensures header + Kept([]) == header && Turned([], 1) == 1
  {
  }

  lemma KeptAfter(header: seq<byte>, done: seq<Piece>, p: Piece)
    requires p.Piece? && forall q | q in done :: q.Piece?
    ensures header + Kept(done + [p]) == header + Kept(done) + p.out
    ensures Turned(done + [p], 1) == if p.turn.Some? then p.turn.value else Turned(done, 1)
  {
    DoneMore(done, p, 1);
    hide Kept, Turned;
  }

  /** What the cleaner has of the picture so far. */
  ghost predicate Holds(f: Format, data: seq<byte>, h: nat, at: nat, done: seq<Piece>, out: seq<byte>, orientation: nat) {
    && Header(f, data) == Some(h) && Going(f, data, h, at, done) && (forall q | q in done :: q.Piece?)
    && out == data[..h] + Kept(done) && orientation == Turned(done, 1)
  }

  lemma Begins(f: Format, data: seq<byte>, h: nat)
    requires Header(f, data) == Some(h)
    ensures h <= |data| && Holds(f, data, h, h, [], data[..h], 1)
  {
    StartsOut(data[..h]);
    hide Pieces, Kept, Turned;
    var more := Pieces(f, data[h..]);
    if more.Some? { assert [] + more.value == more.value; }
  }

  /** A WebP picture states its size. */
  function Finished(f: Format, out: seq<byte>): seq<byte>
    requires f == WebP ==> |out| >= 8
  {
    if f == WebP then out[..4] + Little32(|out| - 8) + out[8..] else out
  }

  /** A piece taken: what the cleaner has then; or what the picture is, if it was the last. */
  lemma Takes(f: Format, data: seq<byte>, h: nat, at: nat, done: seq<Piece>, out: seq<byte>, orientation: nat)
    requires Holds(f, data, h, at, done, out, orientation) && !(f == WebP && at == |data|)
    ensures var p := PieceOf(f, data[at..]);
      if p.Malformed? then CleanedAs(f, data) == None
      else
        var (out', turned) := (if p.out == [] then out else out + p.out, if p.turn.Some? then p.turn.value else orientation);
        && 0 < p.size <= |data| - at
        && if p.last then f != WebP && CleanedAs(f, data) == Some((out', turned))
           else Holds(f, data, h, at + p.size, done + [p], out', turned)
  {
    var p := PieceOf(f, data[at..]);
    Advances(f, data, h, at, done);
    if p.Piece? { PieceFits(f, data[at..]); }
    hide Pieces, PieceOf, Kept, Turned, Going, Header;
    if p.Piece? {
      KeptAfter(data[..h], done, p);
      assert out + [] == out;
    }
  }

  /** The last piece of a WebP picture was taken. */
  lemma Ends(data: seq<byte>, done: seq<Piece>, out: seq<byte>, orientation: nat)
    requires Holds(WebP, data, 12, |data|, done, out, orientation)
    ensures |out| >= 12 && CleanedAs(WebP, data) == Some((Finished(WebP, out), orientation))
  {
    assert done + [] == done;
    assert data[|data|..] == [];
  }

  // ---- The orientation ----

  method ReadOrientation(tiff: seq<byte>) returns (o: nat)
    ensures o == Orientation(tiff)
  {
    hide U16, U32;
    var little := HasPrefix(tiff, [0x49, 0x49, 0x2A, 0]);
    if !little && !HasPrefix(tiff, [0x4D, 0x4D, 0, 0x2A]) { return 1; }
    if |tiff| < 8 { return 1; }
    var directory := U32(tiff[4..], little);
    if directory + 2 > |tiff| { return 1; }
    var count := U16(tiff[directory..], little);
    for i := 0 to count
      invariant Orientation(tiff) == OrientationFrom(tiff, little, directory, i, count)
    {
      var entry := directory + 2 + i * 12;
      if entry + 12 > |tiff| { return 1; }
      if U16(tiff[entry..], little) == 0x0112 && U16(tiff[entry + 2..], little) == 3 {
        o := U16(tiff[entry + 8..], little);
        if o >= 1 && o <= 8 { return o; }
      }
    }
    return 1;
  }

  // ---- The cleaners ----

  /** Where a cleaner is: how far, what it kept, and the orientation it read; or it found no picture, or its end. */
  datatype Place = Nowhere | At(at: nat, out: seq<byte>, orientation: nat, ended: bool)

  function After(p: Piece, at: nat, out: seq<byte>, orientation: nat): Place {
    if p.Malformed? then Nowhere
    else At(at + p.size, if p.out == [] then out else out + p.out, if p.turn.Some? then p.turn.value else orientation, p.last)
  }

  /** The next piece of a PNG picture, of which r is left. */
  method NextPNG(r: seq<byte>, at: nat, out: seq<byte>, orientation: nat) returns (next: Place)
    ensures next == After(PNGPiece(r), at, out, orientation)
  {
    hide PNGChunk, U32;
    if |r| < 12 { return Nowhere; }
    var size := U32(r, false);
    var end := 12 + size;
    if end > |r| { return Nowhere; }
    next := TakePNGChunk(r[4..8], r[8..8 + size], r[..end], at, out, orientation);
  }

  method TakePNGChunk(kind: seq<byte>, payload: seq<byte>, whole: seq<byte>, at: nat, was: seq<byte>, turn: nat) returns (next: Place)
    requires whole != []
    ensures next == After(PNGChunk(kind, payload, whole), at, was, turn)
  {
    var out, orientation := was, turn;
    EndIsKept();
    hide IsNoted, Orientation, EXIF_CHUNK, END_CHUNK;
    if kind == EXIF_CHUNK {
      orientation := ReadOrientation(payload);
    } else if IsNoted(kind) {
    } else {
      out := out + whole;
    }
    return At(at + |whole|, out, orientation, kind == END_CHUNK);
  }

  lemma EndIsKept()
    ensures END_CHUNK != EXIF_CHUNK && !IsNoted(END_CHUNK)
  {
    assert END_CHUNK[0] == 0x49 && EXIF_CHUNK[0] == 0x65;
    assert Ascii("tEXt")[0] == 0x74 && Ascii("zTXt")[0] == 0x7A && Ascii("iTXt")[0] == 0x69 && Ascii("tIME")[0] == 0x74;
  }

  /** The next piece of a JPEG picture, of which r is left. */
  method NextJPEG(r: seq<byte>, at: nat, out: seq<byte>, orientation: nat) returns (next: Place)
    ensures next == After(JPEGPiece(r), at, out, orientation)
  {
    hide JPEGSegment, U16;
    if |r| < 2 || r[0] != 0xFF { return Nowhere; }
    var marker := r[1];
    if marker == 0xFF {
      // A fill byte before a marker.
      return At(at + 1, out, orientation, false);
    } else if IsAlone(marker) {
      return At(at + 2, out + r[..2], orientation, false);
    } else if marker == 0xD9 {
      return At(at + 2, out + r[..2], orientation, true);
    }
    if |r| < 4 { return Nowhere; }
    var size := U16(r[2..4], false);
    var end := 2 + size;
    if size < 2 || end > |r| { return Nowhere; }
    // The scan, and everything after it, is the picture itself.
    if marker == 0xDA { return At(at + |r|, out + r, orientation, true); }
    next := TakeSegment(marker, r[4..end], r[..end], at, out, orientation);
  }

  /** Keeps a marker segment, or not, and reads the orientation of one that records it. */
  method TakeSegment(marker: byte, payload: seq<byte>, whole: seq<byte>, at: nat, was: seq<byte>, turn: nat) returns (next: Place)
    requires whole != []
    ensures next == After(JPEGSegment(marker, payload, whole), at, was, turn)
  {
    var out, orientation := was, turn;
    DrawnIs(marker, payload);
    hide IsDrawn, Orientation;
    if marker == 0xE1 {
      if HasPrefix(payload, EXIF_PREFIX) {
        PrefixLength(payload);
        orientation := ReadOrientation(payload[6..]);
      }
    } else if marker == 0xE0 || (marker == 0xE2 && HasPrefix(payload, ICC_PREFIX)) || (marker == 0xEE && HasPrefix(payload, ADOBE_PREFIX)) {
      out := out + whole;
    } else if (marker >= 0xE0 && marker <= 0xEF) || marker == 0xFE {
    } else {
      out := out + whole;
    }
    return At(at + |whole|, out, orientation, false);
  }

  lemma DrawnIs(marker: byte, payload: seq<byte>)
    ensures IsDrawn(marker, payload) <==> (marker == 0xE0 || (marker == 0xE2 && HasPrefix(payload, ICC_PREFIX))
      || (marker == 0xEE && HasPrefix(payload, ADOBE_PREFIX)) || !(0xE0 <= marker <= 0xEF || marker == 0xFE))
  {
    hide HasPrefix;
  }

  lemma PrefixLength(payload: seq<byte>)
    requires HasPrefix(payload, EXIF_PREFIX)
    ensures |payload| >= 6
  {
  }

  /** Where the sub-blocks that start at start end, after their terminator. */
  method SubBlocks(r: seq<byte>, start: nat) returns (end: Option<nat>)
    ensures end == Blocks(r, start)
  {
    var from := start;
    while from < |r|
      invariant Blocks(r, from) == Blocks(r, start)
      decreases |r| - from
    {
      var size := r[from];
      from := from + 1;
      if size == 0 { return Some(from); }
      from := from + size;
    }
    return None;
  }

  /** The next piece of a GIF picture, of which r is left. */
  method NextGIF(r: seq<byte>, at: nat, out: seq<byte>, orientation: nat) returns (next: Place)
    ensures next == After(GIFPiece(r), at, out, orientation)
  {
    hide Blocks, Table, IsLoop;
    // The data ended before the picture did.
    if |r| == 0 { return Nowhere; }
    if r[0] == 0x3B {
      return At(at + 1, out + [0x3B], orientation, true);
    } else if r[0] == 0x21 {
      if |r| < 2 { return Nowhere; }
      var mark := r[1];
      var end := SubBlocks(r, 2);
      if end.None? { return Nowhere; }
      var keep := mark != 0xFE;
      if mark == 0xFF { keep := IsLoop(r, end.value); }
      return At(at + end.value, if keep then out + r[..end.value] else out, orientation, false);
    } else if r[0] == 0x2C {
      if |r| < 10 { return Nowhere; }
      var from := 10 + Table(r[9]);
      // The image's smallest code size, then its data.
      from := from + 1;
      if from > |r| { return Nowhere; }
      var end := SubBlocks(r, from);
      if end.None? { return Nowhere; }
      return At(at + end.value, out + r[..end.value], orientation, false);
    } else {
      return Nowhere;
    }
  }

  /** The next piece of a WebP picture, of which r is left. */
  method NextWebP(r: seq<byte>, at: nat, out: seq<byte>, orientation: nat) returns (next: Place)
    ensures next == After(WebPPiece(r), at, out, orientation)
  {
    hide WebPChunk, U32;
    if |r| < 8 { return Nowhere; }
    var size := U32(r[4..8], true);
    var end := 8 + size + size % 2;
    if end > |r| { return Nowhere; }
    next := TakeWebPChunk(r[..4], r[8..8 + size], r[..end], at, out, orientation);
  }

  method TakeWebPChunk(kind: seq<byte>, payload: seq<byte>, whole: seq<byte>, at: nat, was: seq<byte>, turn: nat) returns (next: Place)
    requires |whole| >= 8
    ensures next == After(WebPChunk(kind, payload, whole), at, was, turn)
  {
    var out, orientation := was, turn;
    FourCCs();
    hide Orientation, Canonical.Ascii, Unannounced, EXIF_FOURCC, XMP_FOURCC, VP8X_FOURCC;
    if kind == EXIF_FOURCC {
      if HasPrefix(payload, EXIF_PREFIX) { orientation := ReadOrientation(payload[6..]); } else { orientation := ReadOrientation(payload); }
    } else if kind == XMP_FOURCC {
    } else if kind == VP8X_FOURCC {
      var chunk := whole;
      if |chunk| > 8 { chunk := chunk[8 := Unannounced(chunk[8])]; }
      out := out + chunk;
    } else {
      out := out + whole;
    }
    return At(at + |whole|, out, orientation, false);
  }

  lemma FourCCs()
    ensures VP8X_FOURCC != EXIF_FOURCC && VP8X_FOURCC != XMP_FOURCC && |EXIF_PREFIX| == 6
  {
    assert VP8X_FOURCC[0] == 0x56 && EXIF_FOURCC[0] == 0x45 && XMP_FOURCC[0] == 0x58;
  }

  // ---- All of a picture ----

  lemma TakesNext(f: Format, data: seq<byte>, h: nat, at: nat, done: seq<Piece>, out: seq<byte>, orientation: nat, next: Place)
    requires Holds(f, data, h, at, done, out, orientation) && at <= |data| && !(f == WebP && at == |data|)
    requires next == After(PieceOf(f, data[at..]), at, out, orientation)
    ensures next.Nowhere? ==> CleanedAs(f, data) == None
    ensures next.At? ==> at < next.at <= |data|
    ensures next.At? && next.ended ==> CleanedAs(f, data) == Some((next.out, next.orientation))
    ensures next.At? && !next.ended ==> Holds(f, data, h, next.at, done + [PieceOf(f, data[at..])], next.out, next.orientation)
  {
    hide *;
    Takes(f, data, h, at, done, out, orientation);
    AfterIs(PieceOf(f, data[at..]), at, out, orientation);
  }

  lemma AfterIs(p: Piece, at: nat, out: seq<byte>, orientation: nat)
    ensures p.Malformed? ==> After(p, at, out, orientation).Nowhere?
    ensures p.Piece? ==>
      After(p, at, out, orientation) == At(at + p.size, if p.out == [] then out else out + p.out, if p.turn.Some? then p.turn.value else orientation, p.last)
  {
  }

  /** Goes over the pieces of a picture after its header. */
  method CleanPieces(f: Format, data: seq<byte>, h: nat) returns (r: Option<(seq<byte>, nat)>)
    requires Header(f, data) == Some(h)
    ensures r == CleanedAs(f, data)
  {
    Begins(f, data, h);
    assert f == WebP ==> h == 12;
    hide *;
    var out, orientation, at := data[..h], 1, h;
    ghost var done: seq<Piece> := [];
    while !(f == WebP && at == |data|)
      invariant at <= |data| && Holds(f, data, h, at, done, out, orientation)
      decreases |data| - at
    {
      var next := NextPiece(f, data[at..], at, out, orientation);
      TakesNext(f, data, h, at, done, out, orientation, next);
      if next.Nowhere? { return None; }
      done := done + [PieceOf(f, data[at..])];
      at, out, orientation := next.at, next.out, next.orientation;
      if next.ended { return Some((out, orientation)); }
    }
    Ends(data, done, out, orientation);
    return Some((Finished(f, out), orientation));
  }

  method NextPiece(f: Format, r: seq<byte>, at: nat, out: seq<byte>, orientation: nat) returns (next: Place)
    ensures next == After(PieceOf(f, r), at, out, orientation)
  {
    match f {
      case PNG => next := NextPNG(r, at, out, orientation);
      case JPEG => next := NextJPEG(r, at, out, orientation);
      case GIF => next := NextGIF(r, at, out, orientation);
      case WebP => next := NextWebP(r, at, out, orientation);
    }
  }

  /** The picture in data without what it records beyond the picture, and the orientation it recorded. */
  method Clean(data: seq<byte>) returns (r: Option<(seq<byte>, nat)>)
    ensures r == Cleaned(data)
  {
    var f := Type(data);
    if f.None? { return None; }
    hide CleanedAs, Type;
    var h := Header(f.value, data);
    if h.None? {
      NoHeader(f.value, data);
      return None;
    }
    r := CleanPieces(f.value, data, h.value);
  }

  lemma NoHeader(f: Format, data: seq<byte>)
    requires Header(f, data).None?
    ensures CleanedAs(f, data) == None
  {
    hide Header;
  }
}
