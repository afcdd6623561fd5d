/** What is signed and derived, byte for byte, and that no two things are signed alike. */
module Canonical {
  // internal/canonical/canonical.go:11-161.

  type byte = b: nat | b < 0x100

  const TWO_32 := 0x1_0000_0000
  const TWO_64 := 0x1_0000_0000_0000_0000

  function Ascii(s: string): seq<byte> {
    seq(|s|, i requires 0 <= i < |s| => if s[i] as int < 0x100 then s[i] as int else 0)
  }

  /** v as four big-endian bytes; what does not fit is cut. */
  function Uint32(v: nat): seq<byte> {
    [v / 0x100_0000 % 0x100, v / 0x1_0000 % 0x100, v / 0x100 % 0x100, v % 0x100]
  }

  /** v as eight big-endian bytes; a negative number's are those of its two's complement. */
  function Uint64(v: int): seq<byte> {
    var u := v % TWO_64;
    Uint32(u / TWO_32) + Uint32(u % TWO_32)
  }

  /** The fields, each preceded by its length. */
  function Encoded(fields: seq<seq<byte>>): seq<byte> {
    if fields == [] then []
    else Encoded(fields[..|fields| - 1]) + Uint32(|fields[|fields| - 1]|) + fields[|fields| - 1]
  }

  method Encode(fields: seq<seq<byte>>) returns (out: seq<byte>)
    ensures out == Encoded(fields)
  {
    out := [];
    for i := 0 to |fields|
      invariant out == Encoded(fields[..i])
    {
      assert fields[..i + 1][..i] == fields[..i];
      out := out + Uint32(|fields[i]|);
      out := out + fields[i];
    }
    assert fields[..|fields|] == fields;
  }

  // ---- Numbers and fields are read back ----

  lemma Uint32Injective(v: nat, w: nat)
    requires v < TWO_32 && w < TWO_32 && Uint32(v) == Uint32(w)
    ensures v == w
  {
    Digits(v);
    Digits(w);
    assert Uint32(v)[0] == Uint32(w)[0] && Uint32(v)[1] == Uint32(w)[1] && Uint32(v)[2] == Uint32(w)[2] && Uint32(v)[3] == Uint32(w)[3];
  }

  lemma Digits(v: nat)
    requires v < TWO_32
    ensures var u := Uint32(v); v == ((u[0] as int * 0x100 + u[1]) * 0x100 + u[2]) * 0x100 + u[3]
  {
    var (a, b, c) := (v / 0x100_0000, v / 0x1_0000, v / 0x100);
    assert b / 0x100 == a && c / 0x100 == b;
    assert v == c * 0x100 + v % 0x100 && c == b * 0x100 + c % 0x100 && b == a * 0x100 + b % 0x100;
  }

  predicate IsInt64(v: int) { -0x8000_0000_0000_0000 <= v < 0x8000_0000_0000_0000 }

  lemma Uint64Injective(v: int, w: int)
    requires (0 <= v < TWO_64 && 0 <= w < TWO_64) || (IsInt64(v) && IsInt64(w))
    requires Uint64(v) == Uint64(w)
    ensures v == w
  {
    var (x, y) := (v % TWO_64, w % TWO_64);
    assert Uint64(v)[..4] == Uint32(x / TWO_32) && Uint64(v)[4..] == Uint32(x % TWO_32);
    assert Uint64(w)[..4] == Uint32(y / TWO_32) && Uint64(w)[4..] == Uint32(y % TWO_32);
    hide Uint32, Uint64;
    Uint32Injective(x / TWO_32, y / TWO_32);
    Uint32Injective(x % TWO_32, y % TWO_32);
    SameResidue(v, w);
  }

  lemma SameResidue(v: int, w: int)
    requires (0 <= v < TWO_64 && 0 <= w < TWO_64) || (IsInt64(v) && IsInt64(w))
    requires v % TWO_64 / TWO_32 == w % TWO_64 / TWO_32 && v % TWO_64 % TWO_32 == w % TWO_64 % TWO_32
    ensures v == w
  {
    assert v % TWO_64 == w % TWO_64;
  }

  ghost predicate Short(fields: seq<seq<byte>>) {
    forall f | f in fields :: |f| < TWO_32
  }

  lemma {:induction false} EncodedFirst(fields: seq<seq<byte>>)
    requires fields != []
    ensures Encoded(fields) == Uint32(|fields[0]|) + fields[0] + Encoded(fields[1..])
  {
    if |fields| > 1 {
      var init := fields[..|fields| - 1];
      EncodedFirst(init);
      assert fields[1..][..|fields| - 2] == init[1..];
    } else {
      assert fields == [fields[0]] && fields[1..] == [] && fields[..0] == [];
    }
  }

  lemma EncodedParts(fields: seq<seq<byte>>)
    requires fields != []
    ensures var (f, out) := (fields[0], Encoded(fields));
      |out| >= 4 + |f| && out[..4] == Uint32(|f|) && out[4..4 + |f|] == f && out[4 + |f|..] == Encoded(fields[1..])
  {
    EncodedFirst(fields);
    assert |Uint32(|fields[0]|)| == 4;
    hide Encoded, Uint32;
  }

  lemma FirstTells(fields: seq<seq<byte>>, others: seq<seq<byte>>)
    requires fields != [] && others != [] && |fields[0]| < TWO_32 && |others[0]| < TWO_32 && Encoded(fields) == Encoded(others)
    ensures fields[0] == others[0] && Encoded(fields[1..]) == Encoded(others[1..])
  {
    hide *;
    EncodedParts(fields);
    EncodedParts(others);
    Uint32Injective(|fields[0]|, |others[0]|);
  }

  lemma NothingTells(fields: seq<seq<byte>>)
    requires Encoded(fields) == []
    ensures fields == []
  {
    hide *;
    if fields != [] { EncodedParts(fields); }
  }

  lemma ShortRest(fields: seq<seq<byte>>)
    requires Short(fields) && fields != []
    ensures |fields[0]| < TWO_32 && Short(fields[1..]) && fields == [fields[0]] + fields[1..]
  {
  }

  /** Fields shorter than 2^32 bytes are encoded apart from all others: the same bytes mean the same fields. */
  lemma {:induction false} EncodedInjective(fields: seq<seq<byte>>, others: seq<seq<byte>>)
    requires Short(fields) && Short(others) && Encoded(fields) == Encoded(others)
    ensures fields == others
  {
    assert Encoded([]) == [];
    hide *;
    if fields == [] {
      NothingTells(others);
    } else if others == [] {
      NothingTells(fields);
    } else {
      ShortRest(fields);
      ShortRest(others);
      FirstTells(fields, others);
      EncodedInjective(fields[1..], others[1..]);
    }
  }

  function Empties(n: nat): seq<seq<byte>> { seq(n, _ => []) }

  lemma {:induction false} EmptiesEncoded(n: nat)
    ensures Encoded(Empties(n)) == seq(4 * n, _ => 0)
  {
    if n > 0 {
      EmptiesEncoded(n - 1);
      assert Empties(n)[..n - 1] == Empties(n - 1);
      assert Uint32(0) == [0, 0, 0, 0];
    }
  }

  /** A field of 2^32 bytes is not: its length is cut to 0, and it reads as many empty fields. */
  lemma LongFieldsCollide()
    ensures var long: seq<byte> := seq(TWO_32, _ => 0); Encoded([long]) == Encoded(Empties(0x4000_0001)) && [long] != Empties(0x4000_0001)
  {
    var long: seq<byte> := seq(TWO_32, _ => 0);
    EmptiesEncoded(0x4000_0001);
    assert [long][..0] == [] && Uint32(TWO_32) == [0, 0, 0, 0];
    assert Encoded([long]) == [0, 0, 0, 0] + long;
    assert [0, 0, 0, 0] + long == seq(4 * 0x4000_0001, _ => 0);
  }

  // ---- What is signed ----

  datatype Role = Offerer | Answerer

  /** One side of a connection, its fingerprint normalized. */
  datatype Party = Party(identity: seq<byte>, fingerprint: seq<byte>, nonce: seq<byte>)

  datatype Transcript =
    | PeerAuth(version: nat, signer: Role, offerer: Party, answerer: Party)
    | RendezvousAuth(address: seq<byte>, challenge: seq<byte>)
    | Invitation(version: nat, identity: seq<byte>, name: seq<byte>, hint: seq<byte>)
    | PairSecret(requester: seq<byte>, inviter: seq<byte>, requesterPart: seq<byte>, inviterPart: seq<byte>)
    | Reachability(announcer: seq<byte>, day: nat)
    | SpaceGenesis(version: nat, space: seq<byte>, creator: seq<byte>, name: seq<byte>, wall: int, counter: nat)
    | SpaceOperation(version: nat, space: seq<byte>, id: seq<byte>, author: seq<byte>, wall: int, counter: nat, parents: seq<seq<byte>>,
        kind: seq<byte>, channel: seq<byte>, role: seq<byte>, member_: seq<byte>, name: seq<byte>, roles: seq<seq<byte>>)
    | GroupMessage(version: nat, space: seq<byte>, channel: seq<byte>, author: seq<byte>, sequence: nat, id: seq<byte>, wall: int, counter: nat, digest: seq<byte>)
    | SpaceSecret(version: nat, space: seq<byte>, epoch: seq<byte>, author: seq<byte>, secret: seq<byte>)
    | VoicePresence(version: nat, space: seq<byte>, channel: seq<byte>, member_: seq<byte>, at: int, leaving: bool, video: bool)

  function Domain(t: Transcript): seq<byte> {
    match t
    case PeerAuth(_, _, _, _) => Ascii("convia/v1/peer-auth")
    case RendezvousAuth(_, _) => Ascii("convia/v1/rendezvous-auth")
    case Invitation(_, _, _, _) => Ascii("convia/v1/invitation")
    case PairSecret(_, _, _, _) => Ascii("convia/v1/pair-secret")
    case Reachability(_, _) => Ascii("convia/v1/reachability")
    case SpaceGenesis(_, _, _, _, _, _) => Ascii("convia/v1/space-genesis")
    case SpaceOperation(_, _, _, _, _, _, _, _, _, _, _, _, _) => Ascii("convia/v1/space-operation")
    case GroupMessage(_, _, _, _, _, _, _, _, _) => Ascii("convia/v1/group-message")
    case SpaceSecret(_, _, _, _, _) => Ascii("convia/v1/space-secret")
    case VoicePresence(_, _, _, _, _, _, _) => Ascii("convia/v1/voice-presence")
  }

  function RoleName(r: Role): seq<byte> {
    match r case Offerer => Ascii("offerer") case Answerer => Ascii("answerer")
  }

  function Flags(leaving: bool, video: bool): nat { (if leaving then 1 else 0) + if video then 2 else 0 }

  /** What a transcript says after its domain: a list is its count, then its items. */
  function Body(t: Transcript): seq<seq<byte>> {
    match t
    case PeerAuth(version, signer, o, a) =>
      [Uint32(version), RoleName(signer), o.identity, o.fingerprint, o.nonce, a.identity, a.fingerprint, a.nonce]
    case RendezvousAuth(address, challenge) => [address, challenge]
    case Invitation(version, identity, name, hint) => [Uint32(version), identity, name, hint]
    case PairSecret(requester, inviter, requesterPart, inviterPart) => [requester, inviter, requesterPart, inviterPart]
    case Reachability(announcer, day) => [announcer, Uint32(day)]
    case SpaceGenesis(version, space, creator, name, wall, counter) => [Uint32(version), space, creator, name, Uint64(wall), Uint32(counter)]
    case SpaceOperation(version, space, id, author, wall, counter, parents, kind, channel, role, member_, name, roles) =>
      [Uint32(version), space, id, author, Uint64(wall), Uint32(counter), Uint32(|parents|)] + parents
      + [kind, channel, role, member_, name, Uint32(|roles|)] + roles
    case GroupMessage(version, space, channel, author, sequence, id, wall, counter, digest) =>
      [Uint32(version), space, channel, author, Uint64(sequence), id, Uint64(wall), Uint32(counter), digest]
    case SpaceSecret(version, space, epoch, author, secret) => [Uint32(version), space, epoch, author, secret]
    case VoicePresence(version, space, channel, member_, at, leaving, video) =>
      [Uint32(version), space, channel, member_, Uint64(at), Uint32(Flags(leaving, video))]
  }

  function Fields(t: Transcript): seq<seq<byte>> { [Domain(t)] + Body(t) }

  function Bytes(t: Transcript): seq<byte> { Encoded(Fields(t)) }

  /** The numbers are of their widths. */
  predicate InRange(t: Transcript) {
    match t
    case PeerAuth(version, _, _, _) => version < TWO_32
    case RendezvousAuth(_, _) => true
    case Invitation(version, _, _, _) => version < TWO_32
    case PairSecret(_, _, _, _) => true
    case Reachability(_, day) => day < TWO_32
    case SpaceGenesis(version, _, _, _, wall, counter) => version < TWO_32 && IsInt64(wall) && counter < TWO_32
    case SpaceOperation(version, _, _, _, wall, counter, parents, _, _, _, _, _, roles) =>
      version < TWO_32 && IsInt64(wall) && counter < TWO_32 && |parents| < TWO_32 && |roles| < TWO_32
    case GroupMessage(version, _, _, _, sequence, _, wall, counter, _) => version < TWO_32 && sequence < TWO_64 && IsInt64(wall) && counter < TWO_32
    case SpaceSecret(version, _, _, _, _) => version < TWO_32
    case VoicePresence(version, _, _, _, at, _, _) => version < TWO_32 && IsInt64(at)
  }

  ghost predicate Signable(t: Transcript) { InRange(t) && Short(Fields(t)) }

  /** The domains by number: each has its own. */
  function Number(t: Transcript): nat {
    match t
    case PeerAuth(_, _, _, _) => 0
    case RendezvousAuth(_, _) => 1
    case Invitation(_, _, _, _) => 2
    case PairSecret(_, _, _, _) => 3
    case Reachability(_, _) => 4
    case SpaceGenesis(_, _, _, _, _, _) => 5
    case SpaceOperation(_, _, _, _, _, _, _, _, _, _, _, _, _) => 6
    case GroupMessage(_, _, _, _, _, _, _, _, _) => 7
    case SpaceSecret(_, _, _, _, _) => 8
    case VoicePresence(_, _, _, _, _, _, _) => 9
  }

  /** A domain's length, and the first byte that tells it from those as long. */
  lemma DomainIs(t: Transcript)
    ensures |Domain(t)| == [19, 25, 20, 21, 22, 23, 25, 23, 22, 24][Number(t)]
    ensures |Domain(t)| > 16 && Domain(t)[10] == [112, 114, 105, 112, 114, 115, 115, 103, 115, 118][Number(t)]
  {
  }

  lemma DomainsDiffer(t: Transcript, u: Transcript)
    requires Domain(t) == Domain(u)
    ensures Number(t) == Number(u)
  {
    DomainIs(t);
    DomainIs(u);
  }

  lemma RoleNamesDiffer(r: Role, s: Role)
    requires RoleName(r) == RoleName(s)
    ensures r == s
  {
    assert |RoleName(Offerer)| == 7 && |RoleName(Answerer)| == 8;
  }

  lemma OperationBodyInjective(t: Transcript, u: Transcript)
    requires t.SpaceOperation? && u.SpaceOperation? && InRange(t) && InRange(u) && Body(t) == Body(u)
    ensures t == u
  {
    hide *;
    BodyIs(t);
    BodyIs(u);
    HeadIs(t);
    HeadIs(u);
    SameStart(HeadOf(t), t.parents + (MiddleOf(t) + t.roles), HeadOf(u), u.parents + (MiddleOf(u) + u.roles));
    OperationNumbers(t, u);
    SameStart(t.parents, MiddleOf(t) + t.roles, u.parents, MiddleOf(u) + u.roles);
    SameStart(MiddleOf(t), t.roles, MiddleOf(u), u.roles);
    MiddleTells(t, u);
  }

  lemma BodyIs(t: Transcript)
    requires t.SpaceOperation?
    ensures Body(t) == HeadOf(t) + (t.parents + (MiddleOf(t) + t.roles))
  {
    hide Uint32, Uint64;
    FourJoined(HeadOf(t), t.parents, MiddleOf(t), t.roles);
  }

  lemma FourJoined<T>(a: seq<T>, b: seq<T>, c: seq<T>, d: seq<T>)
    ensures a + b + c + d == a + (b + (c + d))
  {
  }

  function HeadOf(t: Transcript): seq<seq<byte>>
    requires t.SpaceOperation?
  {
    [Uint32(t.version), t.space, t.id, t.author, Uint64(t.wall), Uint32(t.counter), Uint32(|t.parents|)]
  }

  function MiddleOf(t: Transcript): seq<seq<byte>>
    requires t.SpaceOperation?
  {
    [t.kind, t.channel, t.role, t.member_, t.name, Uint32(|t.roles|)]
  }

  lemma HeadIs(t: Transcript)
    requires t.SpaceOperation?
    ensures |HeadOf(t)| == 7 && HeadOf(t)[0] == Uint32(t.version) && HeadOf(t)[1] == t.space && HeadOf(t)[2] == t.id && HeadOf(t)[3] == t.author
    ensures HeadOf(t)[4] == Uint64(t.wall) && HeadOf(t)[5] == Uint32(t.counter) && HeadOf(t)[6] == Uint32(|t.parents|) && |MiddleOf(t)| == 6
  {
    hide Uint32, Uint64;
  }

  lemma MiddleTells(t: Transcript, u: Transcript)
    requires t.SpaceOperation? && u.SpaceOperation? && MiddleOf(t) == MiddleOf(u)
    ensures t.kind == u.kind && t.channel == u.channel && t.role == u.role && t.member_ == u.member_ && t.name == u.name
  {
    var (m, n) := (MiddleOf(t), MiddleOf(u));
    assert m[0] == n[0] && m[1] == n[1] && m[2] == n[2] && m[3] == n[3] && m[4] == n[4];
  }

  /** Of sequences that are the same, starts as long as each other are the same, and so is what follows. */
  lemma SameStart<T>(a: seq<T>, x: seq<T>, b: seq<T>, y: seq<T>)
    requires |a| == |b| && a + x == b + y
    ensures a == b && x == y
  {
    assert (a + x)[..|a|] == a && (b + y)[..|b|] == b;
    assert (a + x)[|a|..] == x && (b + y)[|b|..] == y;
  }

  lemma OperationNumbers(t: Transcript, u: Transcript)
    requires t.SpaceOperation? && u.SpaceOperation? && InRange(t) && InRange(u)
    requires Uint32(t.version) == Uint32(u.version) && Uint64(t.wall) == Uint64(u.wall) && Uint32(t.counter) == Uint32(u.counter)
    requires Uint32(|t.parents|) == Uint32(|u.parents|)
    ensures t.version == u.version && t.wall == u.wall && t.counter == u.counter && |t.parents| == |u.parents|
  {
    Uint32Injective(t.version, u.version);
    Uint64Injective(t.wall, u.wall);
    Uint32Injective(t.counter, u.counter);
    Uint32Injective(|t.parents|, |u.parents|);
  }

  lemma OtherBodyInjective(t: Transcript, u: Transcript)
    requires Number(t) == Number(u) && !t.SpaceOperation? && InRange(t) && InRange(u) && Body(t) == Body(u)
    ensures t == u
  {
    var (b, c) := (Body(t), Body(u));
    hide Uint32, Uint64;
    match t
    case PeerAuth(_, _, _, _) =>
      assert b[0] == c[0] && b[1] == c[1] && b[2] == c[2] && b[3] == c[3] && b[4] == c[4] && b[5] == c[5] && b[6] == c[6] && b[7] == c[7];
      Uint32Injective(t.version, u.version);
      RoleNamesDiffer(t.signer, u.signer);
    case RendezvousAuth(_, _) => assert b[0] == c[0] && b[1] == c[1];
    case Invitation(_, _, _, _) =>
      assert b[0] == c[0] && b[1] == c[1] && b[2] == c[2] && b[3] == c[3];
      Uint32Injective(t.version, u.version);
    case PairSecret(_, _, _, _) => assert b[0] == c[0] && b[1] == c[1] && b[2] == c[2] && b[3] == c[3];
    case Reachability(_, _) =>
      assert b[0] == c[0] && b[1] == c[1];
      Uint32Injective(t.day, u.day);
    case SpaceGenesis(_, _, _, _, _, _) =>
      assert b[0] == c[0] && b[1] == c[1] && b[2] == c[2] && b[3] == c[3] && b[4] == c[4] && b[5] == c[5];
      Uint32Injective(t.version, u.version);
      Uint64Injective(t.wall, u.wall);
      Uint32Injective(t.counter, u.counter);
    case GroupMessage(_, _, _, _, _, _, _, _, _) =>
      assert b[0] == c[0] && b[1] == c[1] && b[2] == c[2] && b[3] == c[3] && b[4] == c[4] && b[5] == c[5] && b[6] == c[6] && b[7] == c[7] && b[8] == c[8];
      Uint32Injective(t.version, u.version);
      Uint64Injective(t.sequence, u.sequence);
      Uint64Injective(t.wall, u.wall);
      Uint32Injective(t.counter, u.counter);
    case SpaceSecret(_, _, _, _, _) =>
      assert b[0] == c[0] && b[1] == c[1] && b[2] == c[2] && b[3] == c[3] && b[4] == c[4];
      Uint32Injective(t.version, u.version);
    case VoicePresence(_, _, _, _, _, _, _) =>
      assert b[0] == c[0] && b[1] == c[1] && b[2] == c[2] && b[3] == c[3] && b[4] == c[4] && b[5] == c[5];
      Uint32Injective(t.version, u.version);
      Uint64Injective(t.at, u.at);
      Uint32Injective(Flags(t.leaving, t.video), Flags(u.leaving, u.video));
    case _ =>
  }

  lemma FieldsTell(t: Transcript, u: Transcript)
    requires Fields(t) == Fields(u)
    ensures Domain(t) == Domain(u) && Body(t) == Body(u)
  {
    hide Body, Domain;
    assert Fields(t)[0] == Domain(t) && Fields(u)[0] == Domain(u) && Fields(t)[1..] == Body(t) && Fields(u)[1..] == Body(u);
  }

  lemma BytesTell(t: Transcript, u: Transcript)
    requires Signable(t) && Signable(u) && Bytes(t) == Bytes(u)
    ensures Fields(t) == Fields(u) && InRange(t) && InRange(u)
  {
    hide Fields, InRange, Encoded;
    EncodedInjective(Fields(t), Fields(u));
  }

  /** No two things are signed, or derived from, the same bytes: neither two of one kind, nor, their domains apart, two of
      different kinds. */
  lemma TranscriptsInjective(t: Transcript, u: Transcript)
    requires Signable(t) && Signable(u) && Bytes(t) == Bytes(u)
    ensures t == u
  {
    hide *;
    BytesTell(t, u);
    FieldsTell(t, u);
    DomainsDiffer(t, u);
    NumbersTell(t, u);
    if t.SpaceOperation? { OperationBodyInjective(t, u); } else { OtherBodyInjective(t, u); }
  }

  lemma NumbersTell(t: Transcript, u: Transcript)
    requires Number(t) == Number(u)
    ensures t.SpaceOperation? <==> u.SpaceOperation?
  {
  }

  /** What an operation's author signs, put together field by field. */
  method OperationBytes(t: Transcript) returns (out: seq<byte>)
    requires t.SpaceOperation?
    ensures out == Bytes(t)
  {
    var fields: seq<seq<byte>> := [Ascii("convia/v1/space-operation"), Uint32(t.version), t.space, t.id, t.author, Uint64(t.wall), Uint32(t.counter), Uint32(|t.parents|)];
    fields := fields + t.parents;
    fields := fields + [t.kind, t.channel, t.role, t.member_, t.name, Uint32(|t.roles|)];
    fields := fields + t.roles;
    assert fields == Fields(t) by { hide Uint32, Uint64, Ascii; }
    out := Encode(fields);
  }
}
