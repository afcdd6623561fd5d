/** A channel's entry as its author signs it, and as it travels: nobody who passes it on can make it another. */
module SignedEntries {
  // internal/spaces/entry.go:27-156, internal/spaces/message.go:23-120 and internal/spaces/sync.go:129-158.
  //
  // Digests are given as functions, and a signature is the key it is of and what it signs: what a forger cannot make is
  // taken from the signature's form, and what a digest names from its being injective. The marshalling of a message's
  // parts is taken to be read back as it was written.

  import opened Basics
  import opened Posts
  import C = Conversation

  /** What an entry is checked for: its texts' own rules, and a file's. */
  datatype Rules = Rules(message: string -> bool, emoji: string -> bool, fileName: string -> bool, file: C.File -> bool)

  /** An entry's own: what it says, whoever says it, and when. */
  datatype Says = Says(kind: Kind, text: string, target: Option<ID>, on: bool, wiped: bool, file: Option<C.File>)

  predicate Checks(r: Rules, e: Says) {
    && (!IsPost(e.kind) ==> e.target.Some?) && (e.kind == Attached ==> e.target.None?)
    && (e.kind == Attached <==> e.file.Some?)
    && match e.kind
       case Said | Edited => !e.on && (e.wiped || r.message(e.text))
       case Reacted => !e.wiped && r.emoji(e.text)
       case Deleted => !e.on && e.text == "" && !e.wiped
       case Attached => !e.on && (e.wiped || r.fileName(e.text)) && r.file(e.file.value)
  }

  /** What an author signs: at most one of its parts says what the entry is; none, that it is a message. */
  datatype Content = Content(replyTo: Option<ID>, reaction: Option<(Option<ID>, string, bool)>, edit: Option<ID>, deletion: Option<ID>,
    file: Option<C.File>, textDigest: Option<Hash>)

  function Encode(digest: string -> Hash, e: Says): (Content, Option<string>) {
    (Content(if e.kind == Said then e.target else None,
       if e.kind == Reacted then Some((e.target, e.text, e.on)) else None,
       if e.kind == Edited then e.target else None,
       if e.kind == Deleted then e.target else None,
       if e.kind == Attached then e.file else None,
       if HasText(e.kind) then Some(digest(e.text)) else None),
     if HasText(e.kind) then Some(e.text) else None)
  }

  function Count(c: Content): nat {
    (if c.reaction.Some? then 1 else 0) + (if c.edit.Some? then 1 else 0) + (if c.deletion.Some? then 1 else 0) + if c.file.Some? then 1 else 0
  }

  /** What content says, with its text if it was not wiped. */
  function Decode(r: Rules, digest: string -> Hash, c: Content, text: Option<string>): Option<Says> {
    if Count(c) > 1 || (Count(c) == 1 && c.replyTo.Some?) then None
    else
      var (kind, target, emoji, on) :=
        if c.reaction.Some? then (Reacted, c.reaction.value.0, c.reaction.value.1, c.reaction.value.2)
        else if c.edit.Some? then (Edited, c.edit, "", false)
        else if c.deletion.Some? then (Deleted, c.deletion, "", false)
        else if c.file.Some? then (Attached, None, "", false)
        else (Said, c.replyTo, "", false);
      if HasText(kind) != c.textDigest.Some? || (!HasText(kind) && text.Some?) then None
      else if HasText(kind) && text.Some? && digest(text.value) != c.textDigest.value then None
      else
        var e := Says(kind, if !HasText(kind) then emoji else if text.Some? then text.value else "", target, on, HasText(kind) && text.None?, c.file);
        if Checks(r, e) then Some(e) else None
  }

  /** What a signature of a group message covers. */
  datatype Signed = Signed(space: ID, channel: ID, author: Key, sequence: nat, id: ID, time: Time, digest: Hash)

  datatype Signature = Signature(signer: Key, over: Signed)

  datatype Message = Message(space: ID, channel: ID, author: Key, sequence: nat, id: ID, time: Time, says: Says,
    content: Content, text: Option<string>, digest: Hash, signature: Signature)

  function SignedOf(m: Message): Signed {
    Signed(m.space, m.channel, m.author, m.sequence, m.id, m.time, m.digest)
  }

  const MAX_INT64 := 0x7fff_ffff_ffff_ffff

  /** The digests of texts, and of contents. */
  datatype Digests = Digests(text: string -> Hash, content: Content -> Hash) {
    ghost predicate Injective() {
      && (forall s, t :: text(s) == text(t) ==> s == t)
      && (forall c, d :: content(c) == content(d) ==> c == d)
    }
  }

  predicate Verifies(r: Rules, h: Digests, m: Message) {
    && 0 < m.sequence <= MAX_INT64 && m.time.wall >= 0 && m.channel != 0 && h.content(m.content) == m.digest
    && Decode(r, h.text, m.content, m.text) == Some(m.says)
    && m.signature == Signature(m.author, SignedOf(m))
  }

  function Make(h: Digests, author: Key, space: ID, channel: ID, sequence: nat, id: ID, at: Time, e: Says): Message {
    var (content, text) := Encode(h.text, e);
    var d := h.content(content);
    Message(space, channel, author, sequence, id, at, e, content, text, d, Signature(author, Signed(space, channel, author, sequence, id, at, d)))
  }

  function WipedSays(e: Says): Says { if HasText(e.kind) then e.(text := "", wiped := true) else e }

  /** m without its text. */
  function WipedMessage(m: Message): Message {
    if HasText(m.says.kind) then m.(text := None, says := WipedSays(m.says)) else m
  }

  /** What a member keeps of a message, as its channel's entry. */
  function EntryOf(m: Message): Entry {
    Entry(m.id, m.author, m.sequence, m.time, m.says.kind, m.says.text, m.says.target, m.says.on, m.says.wiped, m.says.file)
  }

  /** An entry is read back as it was encoded. */
  lemma EncodingRoundTrips(r: Rules, digest: string -> Hash, e: Says)
    requires Checks(r, e) && !e.wiped
    ensures var (c, t) := Encode(digest, e); Decode(r, digest, c, t) == Some(e)
  {
    match e.kind case _ =>
  }

  /** What is made verifies. */
  lemma MadeVerifies(r: Rules, h: Digests, author: Key, space: ID, channel: ID, sequence: nat, id: ID, at: Time, e: Says)
    requires Checks(r, e) && !e.wiped && 0 < sequence <= MAX_INT64 && at.wall >= 0 && channel != 0
    ensures Verifies(r, h, Make(h, author, space, channel, sequence, id, at, e))
  {
    EncodingRoundTrips(r, h.text, e);
  }

  /** And still does once its text is wiped, as often as it is, signed by the same author over the same. */
  lemma WipedVerifies(r: Rules, h: Digests, m: Message)
    requires Verifies(r, h, m)
    ensures Verifies(r, h, WipedMessage(m)) && SignedOf(WipedMessage(m)) == SignedOf(m)
    ensures WipedMessage(WipedMessage(m)) == WipedMessage(m)
    ensures EntryOf(WipedMessage(m)) == Wiped(EntryOf(m))
  {
    match m.says.kind case _ =>
  }

  /** Two messages that verify and are signed over the same are the same but for a text one of them lost: whoever passes
      a message on can keep its text from those they pass it to, and change nothing else of it. */
  lemma SameSignedSameEntry(r: Rules, h: Digests, m: Message, n: Message)
    requires h.Injective() && Verifies(r, h, m) && Verifies(r, h, n) && SignedOf(m) == SignedOf(n)
    ensures m == n || m == WipedMessage(n) || n == WipedMessage(m)
    ensures Core(EntryOf(m)) == Core(EntryOf(n))
  {
    assert m.content == n.content;
    SameTextOrNone(r, h, m.content, m.text, n.text);
    hide Checks;
  }

  lemma SameTextOrNone(r: Rules, h: Digests, c: Content, s: Option<string>, t: Option<string>)
    requires h.Injective() && Decode(r, h.text, c, s).Some? && Decode(r, h.text, c, t).Some?
    ensures s == t || (HasText(Decode(r, h.text, c, s).value.kind) && (s.None? || t.None?))
  {
    hide Checks;
  }

  /** What verifies is well formed: nothing but a file describes one, and what is wiped has no text. */
  lemma VerifiedWellFormed(r: Rules, h: Digests, m: Message)
    requires Verifies(r, h, m)
    ensures WellFormed([EntryOf(m)])
  {
    var e := EntryOf(m);
    assert (e.kind == Attached <==> e.file.Some?) && (e.wiped ==> e.text == "");
  }
}
