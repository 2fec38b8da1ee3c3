/** The message document (models/Message.js). */
module MessageModel {

  import opened Common

  /** A stored message. `senderId` and `receiverId` are required; `text`
      and `image` are optional; `replyTo` is null (`None`) unless the
      message answers another one. `seen` and `isDeleted` are the read
      receipt and the soft-delete flag. */
  datatype Message = Message(
    senderId: UserId,
    receiverId: UserId,
    text: Option<string>,
    image: Option<string>,
    replyTo: Option<MessageId>,
    seen: bool,
    isDeleted: bool)

  /** `Message.create(...)` with the schema defaults `seen: false` and
      `isDeleted: false`. */
  function CreateMessage(senderId: UserId, receiverId: UserId, text: Option<string>,
                         image: Option<string>, replyTo: Option<MessageId>): (m: Message)
  {
    Message(senderId, receiverId, text, image, replyTo, false, false)
  }

  /** A new message starts unseen and not deleted, as a reply only when
      given a target, and with exactly the parties and content given. */
  lemma CreatedMessageDefaults(senderId: UserId, receiverId: UserId, text: Option<string>,
                               image: Option<string>, replyTo: Option<MessageId>)
    ensures var m := CreateMessage(senderId, receiverId, text, image, replyTo);
      && !m.seen && !m.isDeleted && m.replyTo == replyTo
      && m.senderId == senderId && m.receiverId == receiverId && m.text == text && m.image == image
  {
  }

  /** The filter of the unseen-count queries:
      `{ senderId: from, receiverId: to, seen: false, isDeleted: false }`. */
  predicate UnseenFrom(m: Message, from: UserId, to: UserId) {
    m.senderId == from && m.receiverId == to && !m.seen && !m.isDeleted
  }

  /** The `$or` of the conversation filter: `a` to `b` or `b` to `a`. */
  predicate Between(m: Message, a: UserId, b: UserId) {
    (m.senderId == a && m.receiverId == b) || (m.senderId == b && m.receiverId == a)
  }
}
