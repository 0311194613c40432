/**
 * The `Message` schema: two required references, a trimmed `text` and an
 * `image` that default to the empty string, a soft-delete flag that defaults
 * to false, and the `createdAt`/`updatedAt` timestamps Mongoose adds.
 * Object ids are their hex strings; timestamps are integers.
 */
module MessageModel {
  import opened Wrappers
  import opened Text

  type Id = string

  datatype Message = Message(
    id: Id,
    senderId: Id,
    channelId: Id,
    text: string,
    image: string,
    isDeleted: bool,
    createdAt: int,
    updatedAt: int)

  /** The fields handed to `Message.create`; `None` for a field left out. */
  datatype Draft = Draft(senderId: Option<Id>, channelId: Option<Id>, text: Option<string>, image: Option<string>)

  /**
   * `Message.create(draft)` as far as the schema decides it: `None` is the
   * validation error for a missing required reference; otherwise the stored
   * document with defaults filled in, `text` trimmed, not deleted, and both
   * timestamps set to the creation time.
   */
  function Create(d: Draft, id: Id, now: int): (r: Option<Message>)
    ensures r.Some? <==> d.senderId.Some? && d.channelId.Some?
    ensures r.Some? ==>
              && r.value.id == id
              && r.value.senderId == d.senderId.value
              && r.value.channelId == d.channelId.value
              && Trimmed(r.value.text)
              && (d.text.None? ==> r.value.text == "")
              && (d.text.Some? ==> r.value.text == Trim(d.text.value))
              && (d.image.None? ==> r.value.image == "")
              && (d.image.Some? ==> r.value.image == d.image.value)
              && !r.value.isDeleted
              && r.value.createdAt == now
              && r.value.updatedAt == now
  {
    if d.senderId.None? || d.channelId.None? then None
    else
      Some(Message(id, d.senderId.value, d.channelId.value, Trim(d.text.GetOr("")),
                   d.image.GetOr(""), false, now, now))
  }

  /** Creating a message again from its stored fields gives it back: the stored text is already trimmed. */
  lemma CreateTextStable(d: Draft, id: Id, now: int)
    requires d.senderId.Some? && d.channelId.Some?
    ensures var m := Create(d, id, now).value;
            Create(Draft(Some(m.senderId), Some(m.channelId), Some(m.text), Some(m.image)), id, now) == Some(m)
  {
    TrimIdempotent(d.text.GetOr(""));
  }
}
