/** That codes, and what is signed, are byte for byte what is published: BIP 350, and docs/protocol/canonical-encodings.md. */
module Published {
  // internal/invitation/bech32m.go:10-33, internal/canonical/canonical.go:11-161.

  import opened Checksum
  import opened Bech32m
  import C = Canonical
  import I = Invitations

  // ---- Codes ----

  lemma FedOne(values: seq<bv32>, v: bv32, was: bv32, now: bv32)
    requires Fed(1, values) == was && Xor(Feed(was), v) == now
    ensures Fed(1, values + [v]) == now
  {
    assert (values + [v])[..|values|] == values;
    hide Feed, Xor;
  }

  lemma FeedsPrefix()
    ensures Feed(1) == 0x20 && Feed(0x23) == 0x460
  {
    assert Top(1) == 0 && Top(0x23) == 0;
  }

  lemma FeedsPrefixOn()
    ensures Feed(0x460) == 0x8c00 && Feed(0x8c01) == 0x118020 && Feed(0x118020) == 0x2300400
  {
    assert Top(0x460) == 0 && Top(0x8c01) == 0 && Top(0x118020) == 0;
  }

  lemma FeedsZeros()
    ensures Feed(0x2300400) == 0x3d6ad7b2 && Feed(0x3d6ad7b2) == 0x2fd30b9
  {
    assert Top(0x2300400) == 1 && Top(0x3d6ad7b2) == 30;
  }

  lemma FeedsZerosOn()
    ensures Feed(0x2fd30b9) == 0x24cc4092 && Feed(0x24cc4092) == 0x15ccfe9e
  {
    assert Top(0x2fd30b9) == 1 && Top(0x24cc4092) == 18;
  }

  lemma FedNothing(values: seq<bv32>, was: bv32, now: bv32)
    requires Fed(1, values) == was && Feed(was) == now
    ensures Fed(1, values + [0]) == now
  {
    assert Xor(now, 0) == now;
    hide Feed, Xor;
    FedOne(values, 0, was, now);
  }

  lemma Xors()
    ensures Xor(0x20, 3) == 0x23 && Xor(0x8c00, 1) == 0x8c01 && Xor(0x15ccfe9e, CHECKED) == 0x3e04ce3d
  {
  }

  lemma PrefixFed()
    ensures Fed(1, [3, 0, 1]) == 0x8c01
  {
    assert Fed(1, []) == 1 && [] + [3 as bv32] == [3] && [3 as bv32] + [0] == [3, 0] && [3 as bv32, 0] + [1] == [3, 0, 1];
    hide *;
    FeedsPrefix();
    FeedsPrefixOn();
    Xors();
    FedOne([], 3, 1, 0x23);
    FedNothing([3], 0x23, 0x460);
    FedOne([3, 0], 1, 0x460, 0x8c01);
  }

  lemma ZerosFed(values: seq<bv32>)
    requires Fed(1, values) == 0x8c01
    ensures Fed(1, values + ZEROS) == 0x15ccfe9e
  {
    FeedsPrefixOn();
    FeedsZeros();
    FeedsZerosOn();
    hide Feed, Xor;
    FedNothing(values, 0x8c01, 0x118020);
    FedNothing(values + [0], 0x118020, 0x2300400);
    FedNothing(values + [0] + [0], 0x2300400, 0x3d6ad7b2);
    FedNothing(values + [0] + [0] + [0], 0x3d6ad7b2, 0x2fd30b9);
    FedNothing(values + [0] + [0] + [0] + [0], 0x2fd30b9, 0x24cc4092);
    FedNothing(values + [0] + [0] + [0] + [0] + [0], 0x24cc4092, 0x15ccfe9e);
    hide Fed;
    assert values + [0] + [0] + [0] + [0] + [0] + [0] == values + ZEROS;
  }

  lemma PrefixExpanded()
    ensures Expanded("a") == [3, 0, 1] && Values([]) == []
  {
    assert High('a') == 3 && Low('a') == 1;
    hide High, Low;
    assert |Expanded("a")| == 3 && Expanded("a")[0] == 3 && Expanded("a")[1] == 0 && Expanded("a")[2] == 1;
  }

  lemma EmptyMod()
    ensures ModOf("a", []) == 0x3e04ce3d
  {
    PrefixExpanded();
    hide Fed, Expanded, Values, Xor;
    assert Expanded("a") + Values([]) + ZEROS == [3, 0, 1] + ZEROS;
    PrefixFed();
    ZerosFed([3, 0, 1]);
    Xors();
  }

  lemma EmptyDigits()
    ensures Digit(0x3e04ce3d, 0) == 31 && Digit(0x3e04ce3d, 1) == 0 && Digit(0x3e04ce3d, 2) == 9
    ensures Digit(0x3e04ce3d, 3) == 19 && Digit(0x3e04ce3d, 4) == 17 && Digit(0x3e04ce3d, 5) == 29
  {
  }

  lemma EmptyCloses()
    ensures Closing(0x3e04ce3d) == [31, 0, 9, 19, 17, 29]
  {
    DigitsSmall(0x3e04ce3d);
    EmptyDigits();
    hide Digit;
  }

  lemma EmptyEncoded()
    ensures Encoded("a", []) == "a1lqfn3a"
  {
    EmptyMod();
    EmptyCloses();
    hide ModOf, Closing;
    assert Chars([]) == "" && Chars([31, 0, 9, 19, 17, 29]) == "lqfn3a";
  }

  /** The alphabet is the published one; so is the code of no data with the prefix "a", in capitals or not, which takes every one of the
      checksum's generators, and its constant. */
  lemma CodesAreBIP350s()
    ensures CHARSET == "qpzry9x8gf2tvdw0s3jn54khce6mua7l"
    ensures Encoded("a", []) == "a1lqfn3a" && Decoded("a1lqfn3a") == Ok("a", []) && Decoded("A1LQFN3A") == Ok("a", [])
  {
    EmptyEncoded();
    assert Lower("a") == "a" && IsPrintable("a");
    hide Encoded, Decoded, IsPrintable;
    DecodingUndoesEncoding("a", []);
    InCapitals();
  }

  lemma InCapitals()
    ensures Decoded("A1LQFN3A") == Decoded("a1lqfn3a")
  {
    assert Lower("A1LQFN3A") == "a1lqfn3a" && Upper("A1LQFN3A") == "A1LQFN3A" && Lower("a1lqfn3a") == "a1lqfn3a";
    hide Lower, Upper, Checked, LastIndex, IsInCharset, IsPrintable, Symbols, LowerChar, UpperChar;
  }

  // ---- What is signed ----

  lemma {:induction false} EncodedJoined(a: seq<seq<C.byte>>, b: seq<seq<C.byte>>)
    ensures C.Encoded(a + b) == C.Encoded(a) + C.Encoded(b)
  {
    if b == [] {
      assert a + b == a;
    } else {
      assert (a + b)[..|a + b| - 1] == a + b[..|b| - 1];
      EncodedJoined(a, b[..|b| - 1]);
      hide C.Uint32;
    }
  }

  /** What is signed is its fields one after another, each after its length: four bytes, the highest first. */
  lemma FieldsFollowTheirLengths(a: seq<seq<C.byte>>, f: seq<C.byte>, b: seq<seq<C.byte>>)
    requires |f| < C.TWO_32
    ensures var before := C.Encoded(a);
      var now := C.Encoded(a + [f] + b);
      |now| == |before| + 4 + |f| + |C.Encoded(b)|
      && now[..|before|] == before && Spelled(now[|before|..|before| + 4]) == |f|
      && now[|before| + 4..|before| + 4 + |f|] == f && now[|before| + 4 + |f|..] == C.Encoded(b)
  {
    assert C.Encoded([f]) == C.Uint32(|f|) + f by { assert [f][..0] == []; }
    EncodedJoined(a, [f]);
    EncodedJoined(a + [f], b);
    NumbersAreBigEndian(|f|, 0);
    hide C.Encoded, C.Uint32, Spelled;
    Parted(C.Encoded(a), C.Uint32(|f|), f, C.Encoded(b), C.Encoded(a + [f] + b));
  }

  lemma Parted(x: seq<C.byte>, length: seq<C.byte>, f: seq<C.byte>, y: seq<C.byte>, now: seq<C.byte>)
    requires |length| == 4 && now == x + (length + f) + y
    ensures |now| == |x| + 4 + |f| + |y| && now[..|x|] == x && now[|x|..|x| + 4] == length
    ensures now[|x| + 4..|x| + 4 + |f|] == f && now[|x| + 4 + |f|..] == y
  {
  }

  /** The number bytes spell, the highest first. */
  function Spelled(b: seq<C.byte>): nat {
    if b == [] then 0 else Spelled(b[..|b| - 1]) * 0x100 + b[|b| - 1] as int
  }

  lemma SpelledByte(b: seq<C.byte>, c: C.byte)
    ensures Spelled(b + [c]) == Spelled(b) * 0x100 + c as int
  {
    assert (b + [c])[..|b|] == b;
  }

  lemma SpelledFour(a: seq<C.byte>, b: seq<C.byte>)
    requires |b| == 4
    ensures Spelled(a + b) == Spelled(a) * C.TWO_32 + (((b[0] as int * 0x100 + b[1] as int) * 0x100 + b[2] as int) * 0x100 + b[3] as int)
  {
    SpelledByte(a, b[0]);
    SpelledByte(a + [b[0]], b[1]);
    SpelledByte(a + [b[0]] + [b[1]], b[2]);
    SpelledByte(a + [b[0]] + [b[1]] + [b[2]], b[3]);
    hide Spelled;
    assert a + [b[0]] + [b[1]] + [b[2]] + [b[3]] == a + b;
  }

  /** A number is signed as the bytes that spell it, the highest first: four of one below 2^32, and eight of one below 2^64, or of the
      two's complement of a negative one. */
  lemma NumbersAreBigEndian(v: nat, w: int)
    requires v < C.TWO_32
    ensures |C.Uint32(v)| == 4 && Spelled(C.Uint32(v)) == v
    ensures |C.Uint64(w)| == 8 && Spelled(C.Uint64(w)) == w % C.TWO_64
  {
    var u := w % C.TWO_64;
    var (a, b) := (C.Uint32(u / C.TWO_32), C.Uint32(u % C.TWO_32));
    assert |a| == 4 && |b| == 4 && C.Uint64(w) == a + b && |C.Uint32(v)| == 4;
    C.Digits(v);
    C.Digits(u / C.TWO_32);
    C.Digits(u % C.TWO_32);
    hide C.Uint32, C.Uint64;
    assert Spelled([]) == 0 && [] + C.Uint32(v) == C.Uint32(v) && [] + a == a;
    hide Spelled;
    SpelledFour([], C.Uint32(v));
    SpelledFour([], a);
    SpelledFour(a, b);
  }

  /** The characters of a name are signed as their codes. */
  lemma NamesAreAscii(s: string)
    requires forall i | 0 <= i < |s| :: s[i] as int < 0x80
    ensures |C.Ascii(s)| == |s| && forall i | 0 <= i < |s| :: C.Ascii(s)[i] as int == s[i] as int
  {
  }

  /** The fields published of each thing signed, in their order: first the domain, then what is said, a list after how many it has. */
  function PublishedFields(t: C.Transcript): seq<seq<C.byte>> {
    match t
    case PeerAuth(version, signer, o, a) =>
      [C.Ascii("convia/v1/peer-auth"), C.Uint32(version), C.Ascii(if signer.Offerer? then "offerer" else "answerer"),
       o.identity, o.fingerprint, o.nonce, a.identity, a.fingerprint, a.nonce]
    case RendezvousAuth(address, challenge) => [C.Ascii("convia/v1/rendezvous-auth"), address, challenge]
    case Invitation(version, identity, name, hint) => [C.Ascii("convia/v1/invitation"), C.Uint32(version), identity, name, hint]
    case PairSecret(requester, inviter, requesterPart, inviterPart) =>
      [C.Ascii("convia/v1/pair-secret"), requester, inviter, requesterPart, inviterPart]
    case Reachability(announcer, day) => [C.Ascii("convia/v1/reachability"), announcer, C.Uint32(day)]
    case SpaceGenesis(version, space, creator, name, wall, counter) =>
      [C.Ascii("convia/v1/space-genesis"), C.Uint32(version), space, creator, name, C.Uint64(wall), C.Uint32(counter)]
    case SpaceOperation(version, space, id, author, wall, counter, parents, kind, channel, role, member_, name, roles) =>
      [C.Ascii("convia/v1/space-operation"), C.Uint32(version), space, id, author, C.Uint64(wall), C.Uint32(counter), C.Uint32(|parents|)]
      + parents + [kind, channel, role, member_, name, C.Uint32(|roles|)] + roles
    case GroupMessage(version, space, channel, author, sequence, id, wall, counter, digest) =>
      [C.Ascii("convia/v1/group-message"), C.Uint32(version), space, channel, author, C.Uint64(sequence), id, C.Uint64(wall), C.Uint32(counter), digest]
    case SpaceSecret(version, space, epoch, author, secret) =>
      [C.Ascii("convia/v1/space-secret"), C.Uint32(version), space, epoch, author, secret]
    case VoicePresence(version, space, channel, member_, at, leaving, video) =>
      [C.Ascii("convia/v1/voice-presence"), C.Uint32(version), space, channel, member_, C.Uint64(at),
       C.Uint32(if leaving && video then 3 else if video then 2 else if leaving then 1 else 0)]
  }

  /** What is signed is those fields. */
  lemma SignedAsPublished(t: C.Transcript)
    ensures C.Bytes(t) == C.Encoded(PublishedFields(t))
  {
    hide C.Uint32, C.Uint64, C.Ascii, C.Encoded;
    assert C.Fields(t) == PublishedFields(t);
  }

  // ---- Invitations ----

  /** An invitation is encoded if and only if its identity is a key of 32 bytes, its name is text of at most 128 bytes, and its hint of at most
      255. */
  lemma InvitesIff(s: I.Scheme, utf8: seq<C.byte> -> bool, inv: I.Invitation, key: nat)
    ensures I.Encoded(s, utf8, inv, key).Ok? <==>
      |inv.identity| == 32 && |inv.name| <= 128 && |inv.hint| <= 255 && utf8(inv.name) && utf8(inv.hint)
  {
    hide Encoded, I.Transcript, I.Payload, I.Fives;
  }

  /** What the inviter signs, and what the code says: version 1, the key, the name and the hint, each after its size, and the signature. */
  function SignedInvitation(inv: I.Invitation): seq<C.byte> {
    C.Encoded([C.Ascii("convia/v1/invitation"), [0, 0, 0, 1], inv.identity, inv.name, inv.hint])
  }

  function SaidInvitation(inv: I.Invitation, signature: seq<C.byte>): seq<C.byte>
    requires |inv.name| < 0x100 && |inv.hint| < 0x100
  {
    [1] + inv.identity + [|inv.name|] + inv.name + [|inv.hint|] + inv.hint + signature
  }

  lemma InvitationsAsPublished(s: I.Scheme, utf8: seq<C.byte> -> bool, inv: I.Invitation, key: nat)
    requires I.Encoded(s, utf8, inv, key).Ok?
    ensures |inv.name| < 0x100 && |inv.hint| < 0x100
    ensures I.Encoded(s, utf8, inv, key).value == Encoded("convia", I.Fives(SaidInvitation(inv, s.sign(key, SignedInvitation(inv)))))
  {
    TranscriptIs(inv);
    hide Encoded, I.Transcript, SignedInvitation, I.Fives;
  }

  lemma TranscriptIs(inv: I.Invitation)
    ensures I.Transcript(inv) == SignedInvitation(inv)
  {
    SignedAsPublished(C.Invitation(1, inv.identity, inv.name, inv.hint));
    assert C.Uint32(1) == [0, 0, 0, 1];
    hide C.Encoded, C.Ascii, C.Uint32;
  }

  /** A payload is taken for an invitation if and only if it is one as published: of version 1, with no byte more, and signed by the key it
      names. */
  lemma TakenIff(s: I.Scheme, utf8: seq<C.byte> -> bool, payload: seq<C.byte>, inv: I.Invitation)
    ensures I.Verified(s, utf8, payload) == I.Ok(inv) <==>
      && |inv.identity| == 32 && |inv.name| < 0x100 && |inv.hint| < 0x100 && utf8(inv.name) && utf8(inv.hint)
      && exists signature :: |signature| == 64 && payload == SaidInvitation(inv, signature) && s.verify(inv.identity, SignedInvitation(inv), signature)
  {
    TranscriptIs(inv);
    hide I.Transcript, SignedInvitation, I.Parsed;
    if I.Verified(s, utf8, payload) == I.Ok(inv) {
      I.PayloadIs(utf8, payload[1..]);
      assert payload == [1] + payload[1..];
      ReadAsText(utf8, payload[1..]);
    }
    if |inv.identity| == 32 && |inv.name| < 0x100 && |inv.hint| < 0x100 && utf8(inv.name) && utf8(inv.hint) {
      forall signature | |signature| == 64 && payload == SaidInvitation(inv, signature) && s.verify(inv.identity, SignedInvitation(inv), signature)
        ensures I.Verified(s, utf8, payload) == I.Ok(inv)
      {
        I.PayloadReads(utf8, inv, signature);
      }
    }
  }

  lemma ReadAsText(utf8: seq<C.byte> -> bool, rest: seq<C.byte>)
    requires I.Parsed(utf8, rest).Some?
    ensures var inv := I.Parsed(utf8, rest).value.0; utf8(inv.name) && utf8(inv.hint)
  {
    hide I.Take, I.Field;
  }

  /** A code longer than 1023 characters, or with capitals and small letters both, is none. */
  lemma LongOrMixedIsNone(s: string)
    requires |s| > 1023 || exists i, j :: 0 <= i < |s| && 0 <= j < |s| && 'a' <= s[i] <= 'z' && 'A' <= s[j] <= 'Z'
    ensures Decoded(s) == Err(FormatError)
  {
    if i, j :| 0 <= i < |s| && 0 <= j < |s| && 'a' <= s[i] <= 'z' && 'A' <= s[j] <= 'Z' {
      assert Lower(s)[j] != s[j] && Upper(s)[i] != s[i];
    }
  }
}
