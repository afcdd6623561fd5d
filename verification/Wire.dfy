/** Entries as they travel (internal/messages/service.go:365-435). */
module Wire {
  import opened Basics
  import opened Conversation
  import opened Mailbox

  datatype Reaction = Reaction(target: Option<ID>, emoji: string, on: bool)
  datatype Edit = Edit(target: Option<ID>, text: string)
  datatype Attachment = Attachment(size: nat, kind: string, digest: Hash, orientation: nat)

  /** A message of the protocol; every field but the first four may be absent, or empty. */
  datatype Direct = Direct(id: ID, sequence: nat, time: Time, wiped: bool, text: string, replyTo: Option<ID>,
    reaction: Option<Reaction>, edit: Option<Edit>, deletion: Option<ID>, attachment: Option<Attachment>)

  function ToWire(m: Entry): Direct {
    var d := Direct(m.id, m.sequence, m.time, m.wiped, "", None, None, None, None, None);
    match m.kind
    case Text => d.(text := m.text, replyTo := m.target)
    case Reacting => d.(reaction := Some(Reaction(m.target, m.text, m.on)))
    case Editing => d.(edit := Some(Edit(m.target, m.text)))
    case Deleting => d.(deletion := m.target)
    case Attaching =>
      d.(text := m.text, attachment := Some(
           if m.file.Some? && !m.wiped then Attachment(m.file.value.size, m.file.value.kind, m.file.value.digest, m.file.value.orientation)
           else Attachment(0, "", 0, 0)))
  }

  /** The entry d is, or nothing for one that is no single kind the protocol allows. */
  function FromWire(d: Direct): Option<Entry> {
    var kinds := (if d.reaction.Some? then 1 else 0) + (if d.edit.Some? then 1 else 0) +
                 (if d.deletion.Some? then 1 else 0) + (if d.attachment.Some? then 1 else 0);
    var plain := d.text == "" && d.replyTo.None?;
    var m := Entry(d.id, 0, d.sequence, d.time, Text, "", None, false, d.wiped, false, None);
    if kinds > 1 then None
    else if d.reaction.Some? && plain then
      Targeted(m.(kind := Reacting, text := d.reaction.value.emoji, on := d.reaction.value.on, target := d.reaction.value.target))
    else if d.edit.Some? && plain then
      Targeted(m.(kind := Editing, text := d.edit.value.text, target := d.edit.value.target))
    else if d.deletion.Some? && plain then
      Targeted(m.(kind := Deleting, target := d.deletion))
    else if d.attachment.Some? && d.replyTo.None? then
      var a := d.attachment.value;
      Some(m.(kind := Attaching, text := d.text, file := Some(File(a.size, a.kind, a.digest, if a.orientation < 1 then 1 else a.orientation))))
    else if kinds == 0 then Some(m.(text := d.text, target := d.replyTo))
    else None
  }

  function Targeted(m: Entry): Option<Entry> {
    if m.target.Some? then Some(m) else None
  }

  /** An entry of one of the shapes this peer makes: about a message unless it is one, and no field of another kind. */
  predicate Shaped(m: Entry) {
    && (m.kind in {Reacting, Editing, Deleting} ==> m.target.Some?)
    && (m.kind == Attaching ==> m.target.None? && m.file.Some? && m.file.value.orientation >= 1)
    && (m.kind != Attaching ==> m.file.None?)
    && (m.kind != Reacting ==> !m.on)
    && (m.kind == Deleting ==> m.text == "")
  }

  /** What is sent is what is read, but for who wrote it, which the connection says, and what was hidden here. */
  lemma WireRoundTrips(m: Entry)
    requires Shaped(m) && !m.wiped
    ensures FromWire(ToWire(m)) == Some(m.(author := 0, hidden := false))
  {
  }

  /** So is a wiped entry, but for what described its file, in whose place is an empty description. */
  lemma WipedRoundTrips(m: Entry)
    requires Shaped(m) && m.wiped
    ensures FromWire(ToWire(m)) ==
      Some(m.(author := 0, hidden := false, file := if m.kind == Attaching then Some(File(0, "", 0, 1)) else None))
  {
  }

  /** No two readings: what is read of a message has one kind, and sending it again reads the same. */
  lemma ReadingIsOfOneKind(d: Direct)
    requires FromWire(d).Some?
    ensures var m := FromWire(d).value;
      && (m.kind == Reacting <==> d.reaction.Some?) && (m.kind == Editing <==> d.edit.Some?)
      && (m.kind == Deleting <==> d.deletion.Some?) && (m.kind == Attaching <==> d.attachment.Some?)
      && FromWire(ToWire(m)).Some? && (!m.wiped ==> FromWire(ToWire(m)) == Some(m))
  {
  }
}
