/** The invitation a person gives to be added as a contact (internal/invitation/invitation.go:18-115).

Whatever may be invited is encoded, within what Bech32m holds, and decoded as it was. Signing is given as functions,
with the law that a key's signatures verify; what is UTF-8 is given as a predicate. */
module Invitations {
  import opened Basics
  import Canonical
  import Bech32m
  import Regrouping

  type byte = Canonical.byte

  datatype Scheme = Scheme(public: Key -> seq<byte>, sign: (Key, seq<byte>) -> seq<byte>, verify: (seq<byte>, seq<byte>, seq<byte>) -> bool) {
    ghost predicate Lawful() {
      forall k, m :: |public(k)| == PUBLIC_KEY_SIZE && |sign(k, m)| == SIGNATURE_SIZE && verify(public(k), m, sign(k, m))
    }
  }

  const PREFIX := "convia"
  const VERSION: byte := 1
  const MAX_NAME := 128
  const MAX_HINT := 255
  const PUBLIC_KEY_SIZE := 32
  const SIGNATURE_SIZE := 64

  datatype Invitation = Invitation(identity: seq<byte>, name: seq<byte>, hint: seq<byte>)

  datatype Error = ChecksumError | Malformed | NewerVersion | BadSignature

  datatype Result<T> = Ok(value: T) | Err(error: Error)

  /** What an inviter signs. */
  function Transcript(inv: Invitation): seq<byte> {
    Canonical.Bytes(Canonical.Invitation(1, inv.identity, inv.name, inv.hint))
  }

  predicate Allowed(utf8: seq<byte> -> bool, inv: Invitation) {
    |inv.identity| == PUBLIC_KEY_SIZE && |inv.name| <= MAX_NAME && |inv.hint| <= MAX_HINT && utf8(inv.name) && utf8(inv.hint)
  }

  // ---- The payload ----

  function Payload(inv: Invitation, signature: seq<byte>): seq<byte>
    requires |inv.name| < 0x100 && |inv.hint| < 0x100
  {
    [VERSION] + inv.identity + [|inv.name|] + inv.name + [|inv.hint|] + inv.hint + signature
  }

  /** The first n bytes of rest and what follows, or nothing of either. */
  function Take(rest: seq<byte>, n: nat): (Option<seq<byte>>, seq<byte>) {
    if n > |rest| then (None, []) else (Some(rest[..n]), rest[n..])
  }

  /** A field after its size. */
  function Field(rest: seq<byte>): (Option<seq<byte>>, seq<byte>) {
    var (size, after) := Take(rest, 1);
    if size.None? then (None, after)
    else
      var (value, then_) := Take(after, size.value[0]);
      (if value.None? && size.value[0] == 0 then Some([]) else value, then_)
  }

  /** An invitation and its signature, as a payload after its version says them. */
  function Parsed(utf8: seq<byte> -> bool, rest: seq<byte>): Option<(Invitation, seq<byte>)> {
    var (identity, r1) := Take(rest, PUBLIC_KEY_SIZE);
    var (name, r2) := Field(r1);
    var (hint, r3) := Field(r2);
    var (signature, r4) := Take(r3, SIGNATURE_SIZE);
    if identity.None? || name.None? || hint.None? || signature.None? || |r4| != 0 || !utf8(name.value) || !utf8(hint.value) then None
    else Some((Invitation(identity.value, name.value, hint.value), signature.value))
  }

  lemma FieldReads(value: seq<byte>, after: seq<byte>)
    requires |value| < 0x100
    ensures Field([|value|] + value + after) == (Some(value), after)
  {
    var rest := [|value|] + value + after;
    assert rest[..1] == [|value|] && rest[1..] == value + after;
    assert (value + after)[..|value|] == value && (value + after)[|value|..] == after;
  }

  lemma FieldIs(rest: seq<byte>)
    requires Field(rest).0.Some?
    ensures var (value, after) := (Field(rest).0.value, Field(rest).1); |value| < 0x100 && rest == [|value|] + value + after
  {
  }

  lemma TakeReads(value: seq<byte>, after: seq<byte>)
    ensures Take(value + after, |value|) == (Some(value), after)
  {
    assert (value + after)[..|value|] == value && (value + after)[|value|..] == after;
  }

  /** A payload is read as it was put together. */
  lemma PayloadReads(utf8: seq<byte> -> bool, inv: Invitation, signature: seq<byte>)
    requires |inv.identity| == PUBLIC_KEY_SIZE && |inv.name| < 0x100 && |inv.hint| < 0x100 && |signature| == SIGNATURE_SIZE
    requires utf8(inv.name) && utf8(inv.hint)
    ensures Payload(inv, signature)[0] == VERSION && Parsed(utf8, Payload(inv, signature)[1..]) == Some((inv, signature))
  {
    var third := signature;
    var second := [|inv.hint|] + inv.hint + third;
    var first := [|inv.name|] + inv.name + second;
    assert Payload(inv, signature) == [VERSION] + (inv.identity + first);
    assert Payload(inv, signature)[1..] == inv.identity + first;
    assert signature + [] == signature;
    hide Take, Field, Payload;
    TakeReads(inv.identity, first);
    FieldReads(inv.name, second);
    FieldReads(inv.hint, third);
    TakeReads(signature, []);
  }

  /** And put together as it was read: no other payload says the same. */
  lemma PayloadIs(utf8: seq<byte> -> bool, rest: seq<byte>)
    requires Parsed(utf8, rest).Some?
    ensures var (inv, signature) := Parsed(utf8, rest).value;
      |inv.identity| == PUBLIC_KEY_SIZE && |inv.name| < 0x100 && |inv.hint| < 0x100 && |signature| == SIGNATURE_SIZE
      && [VERSION] + rest == Payload(inv, signature)
  {
    var (identity, r1) := Take(rest, PUBLIC_KEY_SIZE);
    assert rest == identity.value + r1 && |identity.value| == PUBLIC_KEY_SIZE;
    var (name, r2) := Field(r1);
    var (hint, r3) := Field(r2);
    var (signature, r4) := Take(r3, SIGNATURE_SIZE);
    FieldIs(r1);
    FieldIs(r2);
    assert r3 == signature.value && |signature.value| == SIGNATURE_SIZE;
    hide Field, Take;
    PayloadJoins(rest, identity.value, r1, name.value, r2, hint.value, r3);
  }

  lemma PayloadJoins(rest: seq<byte>, identity: seq<byte>, r1: seq<byte>, name: seq<byte>, r2: seq<byte>, hint: seq<byte>, r3: seq<byte>)
    requires |name| < 0x100 && |hint| < 0x100
    requires rest == identity + r1 && r1 == [|name|] + name + r2 && r2 == [|hint|] + hint + r3
    ensures [VERSION] + rest == Payload(Invitation(identity, name, hint), r3)
  {
  }

  // ---- The code ----

  predicate IsSpace(c: char) { c == ' ' || 9 <= c as int <= 13 }

  function TrimLeft(s: string): string { if s != "" && IsSpace(s[0]) then TrimLeft(s[1..]) else s }
  function TrimRight(s: string): string { if s != "" && IsSpace(s[|s| - 1]) then TrimRight(s[..|s| - 1]) else s }
  function Trim(s: string): string { TrimRight(TrimLeft(s)) }

  function Fives(payload: seq<byte>): seq<Bech32m.sym> {
    PayloadGroups(payload);
    Regrouping.RegroupingRoundTrips(payload);
    FivesFit(Regrouping.ToFives(payload));
    Regrouping.ToFives(payload)
  }

  function Encoded(s: Scheme, utf8: seq<byte> -> bool, inv: Invitation, key: Key): Result<string> {
    if !Allowed(utf8, inv) then Err(Malformed)
    else Ok(Bech32m.Encoded(PREFIX, Fives(Payload(inv, s.sign(key, Transcript(inv))))))
  }

  /** What a payload says, its signature verified. */
  function Verified(s: Scheme, utf8: seq<byte> -> bool, payload: seq<byte>): Result<Invitation> {
    if payload == [] then Err(Malformed)
    else if payload[0] != VERSION then Err(if payload[0] > VERSION then NewerVersion else Malformed)
    else
      var p := Parsed(utf8, payload[1..]);
      if p.None? then Err(Malformed)
      else
        var (inv, signature) := p.value;
        if !s.verify(inv.identity, Transcript(inv), signature) then Err(BadSignature) else Ok(inv)
  }

  function Decoded(s: Scheme, utf8: seq<byte> -> bool, code: string): Result<Invitation> {
    match Bech32m.Decoded(Trim(code))
    case Err(ChecksumError) => Err(ChecksumError)
    case Err(FormatError) => Err(Malformed)
    case Ok(hrp, data) =>
      if hrp != PREFIX then Err(Malformed)
      else
        var payload := Regrouping.FromFives(data);
        if payload.None? then Err(Malformed)
        else
          FromFivesBytes(data);
          Verified(s, utf8, payload.value)
  }

  lemma PayloadGroups(payload: seq<byte>)
    ensures Regrouping.Groups(payload, 8)
  {
    Regrouping.ShlTimes(1);
    hide Regrouping.Shl;
  }

  lemma FivesFit(fives: seq<nat>)
    requires Regrouping.Groups(fives, 5)
    ensures forall i | 0 <= i < |fives| :: fives[i] < 32
  {
    Regrouping.ShlTimes(1);
    hide Regrouping.Shl;
    assert forall i | 0 <= i < |fives| :: fives[i] in fives;
  }

  lemma FromFivesBytes(data: seq<nat>)
    requires Regrouping.FromFives(data).Some?
    ensures forall i | 0 <= i < |Regrouping.FromFives(data).value| :: Regrouping.FromFives(data).value[i] < 0x100
  {
    var b := Regrouping.Bits(data, 5);
    var whole := |b| - |b| % 8;
    Regrouping.TimesIs(whole / 8);
    Regrouping.BitsGrouped(b[..whole], whole / 8, 8);
    Regrouping.ShlTimes(1);
    hide Regrouping.Shl, Regrouping.Grouped, Regrouping.Bits;
    var out := Regrouping.Grouped(b[..whole], 8);
    assert forall i | 0 <= i < |out| :: out[i] in out;
  }

  // ---- As the source does it ----

  /** Signs inv with key, the private key of its identity. */
  method Encode(s: Scheme, utf8: seq<byte> -> bool, inv: Invitation, key: Key) returns (r: Result<string>)
    ensures r == Encoded(s, utf8, inv, key)
  {
    if |inv.identity| != PUBLIC_KEY_SIZE || |inv.name| > MAX_NAME || |inv.hint| > MAX_HINT || !utf8(inv.name) || !utf8(inv.hint) {
      return Err(Malformed);
    }
    var transcript := Canonical.Encode(Canonical.Fields(Canonical.Invitation(1, inv.identity, inv.name, inv.hint)));
    var signature := s.sign(key, transcript);
    var payload: seq<byte> := [VERSION];
    payload := payload + inv.identity;
    payload := payload + [|inv.name|];
    payload := payload + inv.name;
    payload := payload + [|inv.hint|];
    payload := payload + inv.hint;
    payload := payload + signature;
    hide Canonical.Encoded, Canonical.Fields, Payload;
    assert payload == Payload(inv, signature) by { PayloadIsJoined(inv, signature); }
    PayloadGroups(payload);
    var data := Regrouping.Regroup(payload, 8, 5, true);
    hide Regrouping.ToFives;
    var fives := Fives(payload);
    assert data == Some(fives);
    var code := Bech32m.Encode(PREFIX, fives);
    return Ok(code);
  }

  /** Reads an invitation, and verifies its signature. */
  method Decode(s: Scheme, utf8: seq<byte> -> bool, code: string) returns (r: Result<Invitation>)
    ensures r == Decoded(s, utf8, code)
  {
    var d := Bech32m.Decode(Trim(code));
    hide Bech32m.Decoded, Regrouping.FromFives, Trim, Transcript, Regrouping.Groups;
    if d == Bech32m.Err(Bech32m.ChecksumError) { return Err(ChecksumError); }
    if d.Err? || d.hrp != PREFIX { return Err(Malformed); }
    SymsAreGroups(d.data);
    var bytes := Regrouping.Regroup(d.data, 5, 8, false);
    if bytes.None? { return Err(Malformed); }
    FromFivesBytes(d.data);
    r := Verify(s, utf8, bytes.value);
  }

  lemma SymsAreGroups(data: seq<Bech32m.sym>)
    ensures Regrouping.Groups(data, 5)
  {
    Regrouping.ShlTimes(1);
    hide Regrouping.Shl;
  }

  method Verify(s: Scheme, utf8: seq<byte> -> bool, payload: seq<byte>) returns (r: Result<Invitation>)
    ensures r == Verified(s, utf8, payload)
  {
    if |payload| == 0 { return Err(Malformed); }
    if payload[0] != VERSION { return Err(if payload[0] > VERSION then NewerVersion else Malformed); }
    hide Take, Field, Transcript;
    var rest := payload[1..];
    var taken := Take(rest, PUBLIC_KEY_SIZE);
    var identity := taken.0;
    rest := taken.1;
    taken := Field(rest);
    var name := taken.0;
    rest := taken.1;
    taken := Field(rest);
    var hint := taken.0;
    rest := taken.1;
    taken := Take(rest, SIGNATURE_SIZE);
    var signature := taken.0;
    rest := taken.1;
    if identity.None? || name.None? || hint.None? || signature.None? || |rest| != 0 || !utf8(name.value) || !utf8(hint.value) {
      return Err(Malformed);
    }
    var inv := Invitation(identity.value, name.value, hint.value);
    if !s.verify(inv.identity, Transcript(inv), signature.value) { return Err(BadSignature); }
    return Ok(inv);
  }

  lemma PayloadIsJoined(inv: Invitation, signature: seq<byte>)
    requires |inv.name| < 0x100 && |inv.hint| < 0x100
    ensures Payload(inv, signature) == [VERSION] + inv.identity + [|inv.name|] + inv.name + [|inv.hint|] + inv.hint + signature
  {
  }

  // ---- Decoding undoes encoding ----

  /** The code of any payload whose fields fit their lengths, signed by its identity, says it: also of a name longer than
      may be invited. */
  lemma PayloadsRoundTrip(s: Scheme, utf8: seq<byte> -> bool, inv: Invitation, key: Key)
    requires s.Lawful() && inv.identity == s.public(key) && |inv.name| < 0x100 && |inv.hint| < 0x100 && utf8(inv.name) && utf8(inv.hint)
    ensures var code := Bech32m.Encoded(PREFIX, Fives(Payload(inv, s.sign(key, Transcript(inv)))));
      |code| == 13 + (8 * (99 + |inv.name| + |inv.hint|) + 4) / 5 && Decoded(s, utf8, code) == Ok(inv)
  {
    var signature := s.sign(key, Transcript(inv));
    assert |inv.identity| == PUBLIC_KEY_SIZE && |signature| == SIGNATURE_SIZE && s.verify(inv.identity, Transcript(inv), signature);
    var payload := Payload(inv, signature);
    assert |payload| == 99 + |inv.name| + |inv.hint|;
    PayloadReads(utf8, inv, signature);
    PayloadGroups(payload);
    Regrouping.RegroupingRoundTrips(payload);
    var code := Bech32m.Encoded(PREFIX, Fives(payload));
    CodeIs(payload);
    hide Bech32m.Encoded, Regrouping.ToFives, Regrouping.FromFives, Payload, Parsed, Transcript, Trim;
  }

  /** Every invitation that may be given has a code, of at most 785 characters; and the code says it. */
  lemma InvitationsRoundTrip(s: Scheme, utf8: seq<byte> -> bool, inv: Invitation, key: Key)
    requires s.Lawful() && Allowed(utf8, inv) && inv.identity == s.public(key)
    ensures var code := Encoded(s, utf8, inv, key); code.Ok? && |code.value| <= 785 && Decoded(s, utf8, code.value) == Ok(inv)
  {
    PayloadsRoundTrip(s, utf8, inv, key);
    hide Decoded, Fives, Payload, Transcript, Bech32m.Encoded;
  }

  /** A name of 129 to 255 bytes may not be invited, but one who signs it all the same is taken to have. */
  lemma LongNamesAreRead(s: Scheme, utf8: seq<byte> -> bool, inv: Invitation, key: Key)
    requires s.Lawful() && inv.identity == s.public(key) && utf8(inv.name) && utf8(inv.hint)
    requires MAX_NAME < |inv.name| < 0x100 && |inv.hint| <= MAX_HINT
    ensures Encoded(s, utf8, inv, key) == Err(Malformed)
    ensures exists code :: |code| <= Bech32m.MAX_LENGTH && Decoded(s, utf8, code) == Ok(inv)
  {
    PayloadsRoundTrip(s, utf8, inv, key);
    hide Decoded, Fives, Payload, Transcript, Bech32m.Encoded;
    var code := Bech32m.Encoded(PREFIX, Fives(Payload(inv, s.sign(key, Transcript(inv)))));
    assert |code| <= 13 + 975 && Decoded(s, utf8, code) == Ok(inv);
  }

  lemma CodeIs(payload: seq<byte>)
    requires |payload| <= 609
    ensures var code := Bech32m.Encoded(PREFIX, Fives(payload));
      |code| == 13 + (8 * |payload| + 4) / 5 && Trim(code) == code && Bech32m.Decoded(code) == Bech32m.Ok(PREFIX, Fives(payload))
  {
    FivesCount(payload);
    hide *;
    FivesDecode(Fives(payload));
  }

  lemma FivesCount(payload: seq<byte>)
    requires |payload| <= 609
    ensures |Fives(payload)| == (8 * |payload| + 4) / 5 <= 975
  {
    PayloadGroups(payload);
    Regrouping.RegroupingRoundTrips(payload);
    hide Regrouping.ToFives, Regrouping.FromFives, Regrouping.Groups;
  }

  lemma FivesDecode(data: seq<Bech32m.sym>)
    requires |data| <= 975
    ensures var code := Bech32m.Encoded(PREFIX, data); |code| == |data| + 13 && Trim(code) == code && Bech32m.Decoded(code) == Bech32m.Ok(PREFIX, data)
  {
    PrefixIsPlain();
    var closing := Bech32m.Closing(Bech32m.ModOf(PREFIX, data));
    Bech32m.EncodedIs(PREFIX, data, closing);
    Bech32m.ClosingCloses(PREFIX, data);
    Bech32m.CharsLength(data + closing);
    hide Bech32m.Encoded, Bech32m.Decoded, Bech32m.Closing, Bech32m.ModOf, Bech32m.Chars, Trim;
    Bech32m.DecodingUndoesEncoding(PREFIX, data);
    NotSpaced(PREFIX, data + closing);
  }

  lemma PrefixIsPlain()
    ensures Bech32m.IsPrintable(PREFIX) && Bech32m.Lower(PREFIX) == PREFIX && |PREFIX| == 6 && !IsSpace(PREFIX[0])
  {
  }

  lemma NotSpaced(hrp: string, data: seq<Bech32m.sym>)
    requires hrp != "" && !IsSpace(hrp[0]) && data != []
    ensures Trim(hrp + "1" + Bech32m.Chars(data)) == hrp + "1" + Bech32m.Chars(data)
  {
    var s := hrp + "1" + Bech32m.Chars(data);
    assert s[0] == hrp[0] && s[|s| - 1] == Bech32m.CHARSET[data[|data| - 1]];
    NoSpaces(data[|data| - 1]);
  }

  lemma NoSpaces(d: Bech32m.sym)
    ensures !IsSpace(Bech32m.CHARSET[d])
  {
  }

  /** data's bytes are inv's, with a signature of it that verifies. */
  ghost predicate IsSaid(s: Scheme, inv: Invitation, signature: seq<byte>, data: seq<Bech32m.sym>)
    requires |inv.name| < 0x100 && |inv.hint| < 0x100
  {
    s.verify(inv.identity, Transcript(inv), signature) && Regrouping.FromFives(data) == Some(Payload(inv, signature))
  }

  /** What a code says was signed by whom it is of; and the code's payload is the only one that says it. */
  lemma DecodedIsSigned(s: Scheme, utf8: seq<byte> -> bool, code: string)
    requires Decoded(s, utf8, code).Ok?
    ensures var inv := Decoded(s, utf8, code).value;
      |inv.identity| == PUBLIC_KEY_SIZE && |inv.name| < 0x100 && |inv.hint| < 0x100 && utf8(inv.name) && utf8(inv.hint)
      && exists signature :: IsSaid(s, inv, signature, Bech32m.Decoded(Trim(code)).data)
  {
    var data := Bech32m.Decoded(Trim(code)).data;
    var payload := Regrouping.FromFives(data).value;
    FromFivesBytes(data);
    hide Bech32m.Decoded, Regrouping.FromFives, Payload, Transcript, Trim;
    PayloadIs(utf8, payload[1..]);
    assert [VERSION] + payload[1..] == payload;
    var (inv, signature) := Parsed(utf8, payload[1..]).value;
    assert IsSaid(s, inv, signature, data);
  }

  lemma TrimsNothing(code: string)
    requires code != "" && !IsSpace(code[0]) && !IsSpace(code[|code| - 1])
    ensures Trim(code) == code
  {
  }

  /** An invitation's code with any one of the characters after "convia1" replaced by another that codes use is not taken
      for any other: it was not copied exactly. */
  lemma MiscopiedIsNoticed(s: Scheme, utf8: seq<byte> -> bool, inv: Invitation, key: Key, p: nat, c: char)
    requires s.Lawful() && Allowed(utf8, inv) && inv.identity == s.public(key)
    requires var code := Encoded(s, utf8, inv, key).value; 7 <= p < |code| && c != code[p] && Bech32m.Index(Bech32m.CHARSET, c) >= 0
    ensures Decoded(s, utf8, Encoded(s, utf8, inv, key).value[p := c]) == Err(ChecksumError)
  {
    var payload := Payload(inv, s.sign(key, Transcript(inv)));
    assert |s.sign(key, Transcript(inv))| == SIGNATURE_SIZE;
    assert |payload| <= 482;
    var code := Encoded(s, utf8, inv, key).value;
    hide Payload, Transcript;
    CodeIs(payload);
    CodeParts(payload);
    hide *;
    Bech32m.NoOneInCharset(c);
    NoSpaces(Bech32m.Index(Bech32m.CHARSET, c));
    Bech32m.ReplacedIsNoticed(code, p, c);
    TrimsNothing(code[p := c]);
    Undecoded(s, utf8, code[p := c]);
  }

  lemma Undecoded(s: Scheme, utf8: seq<byte> -> bool, code: string)
    requires Bech32m.Decoded(Trim(code)) == Bech32m.Err(Bech32m.ChecksumError)
    ensures Decoded(s, utf8, code) == Err(ChecksumError)
  {
    hide Bech32m.Decoded, Trim;
  }

  lemma CodeParts(payload: seq<byte>)
    ensures var code := Bech32m.Encoded(PREFIX, Fives(payload));
      |code| > 7 && Bech32m.Lower(code) == code && Bech32m.LastIndex(code, '1') == 6 && !IsSpace(code[0]) && !IsSpace(code[|code| - 1])
  {
    var data := Fives(payload);
    var closing := Bech32m.Closing(Bech32m.ModOf(PREFIX, data));
    Bech32m.EncodedIs(PREFIX, data, closing);
    PrefixIsPlain();
    assert |closing| == 6;
    var chars := Bech32m.Chars(data + closing);
    hide Bech32m.Encoded, Bech32m.Closing, Bech32m.ModOf, Bech32m.Lower, Bech32m.LastIndex, Fives;
    Bech32m.SymbolsOfChars(data + closing);
    Bech32m.LowerParts(PREFIX, chars);
    Bech32m.CharsLength(data + closing);
    Joined(chars, data + closing);
  }

  lemma Joined(chars: string, data: seq<Bech32m.sym>)
    requires data != [] && chars == Bech32m.Chars(data) && '1' !in chars
    ensures var code := PREFIX + "1" + chars;
      |code| > 7 && Bech32m.LastIndex(code, '1') == 6 && !IsSpace(code[0]) && !IsSpace(code[|code| - 1])
  {
    var code := PREFIX + "1" + chars;
    assert forall j | 6 < j < |code| :: code[j] == chars[j - 7] && code[j] in chars;
    Bech32m.LastIndexIs(code, '1', 6);
    assert code[|code| - 1] == Bech32m.CHARSET[data[|data| - 1]];
    NoSpaces(data[|data| - 1]);
  }
}
