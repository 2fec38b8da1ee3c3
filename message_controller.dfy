/** controllers/messageController.js: sending, deleting and marking
    messages, the conversation query, and the unseen counts of the contact
    list. Every handler behind `protectRoute` receives the authenticated
    user's id as `requester`; the middleware found that user in the user
    table, and no handler removes users. */
module MessageController {

  import opened Common
  import opened UserModel
  import opened MessageModel
  import opened Store
  import opened Server

  // ---------------------------------------------------------------------
  // Store updates made by the handlers

  /** `message.isDeleted = true; await message.save()`. */
  function WithDeleted(messages: map<MessageId, Message>, id: MessageId): (r: map<MessageId, Message>)
    ensures r.Keys == messages.Keys
    ensures forall k :: k in messages && k != id ==> r[k] == messages[k]
    ensures id in messages ==> r[id] == messages[id].(isDeleted := true)
  {
    if id in messages then messages[id := messages[id].(isDeleted := true)] else messages
  }

  /** `Message.findByIdAndUpdate(id, { seen: true })`; a missing id updates nothing. */
  function WithSeen(messages: map<MessageId, Message>, id: MessageId): (r: map<MessageId, Message>)
    ensures r.Keys == messages.Keys
    ensures forall k :: k in messages && k != id ==> r[k] == messages[k]
    ensures id in messages ==> r[id] == messages[id].(seen := true)
  {
    if id in messages then messages[id := messages[id].(seen := true)] else messages
  }

  /** The image reference stored with a new message: the upload's
      `secure_url` when the request carried an image, nothing otherwise. */
  function ImageUrl(image: Option<string>, upload: Result<string>): Option<string> {
    if Truthy(image) && upload.Ok? then Some(upload.value) else None
  }

  /** `replyToMessage?._id || null`. */
  function ReplyTarget(replyTo: Option<MessageId>): Option<MessageId> {
    if Truthy(replyTo) then Some(replyTo.value) else None
  }

  /** A reply target was named but is missing or soft-deleted. */
  predicate ReplyUnusable(messages: map<MessageId, Message>, replyTo: Option<MessageId>) {
    Truthy(replyTo) && (replyTo.value !in messages || messages[replyTo.value].isDeleted)
  }

  // ---------------------------------------------------------------------
  // Handlers

  /** getMessages: the messages exchanged between the two users, in either
      direction, that are not soft-deleted. */
  function GetMessages(messages: map<MessageId, Message>, requester: UserId, otherUserId: UserId)
    : (r: map<MessageId, Message>)
    ensures forall id :: id in r <==>
      id in messages && !messages[id].isDeleted && Between(messages[id], requester, otherUserId)
    ensures forall id :: id in r ==> r[id] == messages[id]
  {
    map id | id in messages && !messages[id].isDeleted && Between(messages[id], requester, otherUserId)
      :: messages[id]
  }

  /** sendMessage. The guards run in the order of the code: a missing
      receiver (its `blockedUsers` is read off null), a receiver that
      blocked the sender, a failed image upload, an unusable reply target.
      A message that passes them is stored under `newId`, the id the
      database assigns, and `newMessage` goes to the receiver's socket,
      then to the sender's, for each of them present in the socket map. */
  method SendMessage(db: Database, io: SocketServer, requester: UserId, receiverId: UserId,
                     text: Option<string>, image: Option<string>, replyTo: Option<MessageId>,
                     upload: Result<string>, newId: MessageId)
    returns (r: Result<MessageId>)
    requires db.Valid() && requester in db.users && newId !in db.messages
    modifies db`messages, io`emitted
    ensures db.Valid()
    ensures receiverId !in db.users ==> r == Fail(NullReceiver)
    ensures receiverId in db.users && requester in db.users[receiverId].blockedUsers
      ==> r == Fail(BlockedByUser)
    ensures (receiverId in db.users && requester !in db.users[receiverId].blockedUsers
             && Truthy(image) && upload.Fail?) ==> r == Fail(UploadFailed)
    ensures (receiverId in db.users && requester !in db.users[receiverId].blockedUsers
             && !(Truthy(image) && upload.Fail?) && ReplyUnusable(old(db.messages), replyTo))
            ==> r == Fail(RepliedMessageNotFound)
    ensures r.Ok? <==> (receiverId in db.users && requester !in db.users[receiverId].blockedUsers
                        && !(Truthy(image) && upload.Fail?) && !ReplyUnusable(old(db.messages), replyTo))
    ensures r.Fail? ==> db.messages == old(db.messages) && io.emitted == old(io.emitted)
    ensures r.Ok? ==>
      var m := CreateMessage(requester, receiverId, text, ImageUrl(image, upload), ReplyTarget(replyTo));
      var e := NewMessage(newId, m, requester, receiverId);
      && r.value == newId
      && db.messages == old(db.messages)[newId := m]
      && io.emitted == old(io.emitted) + Notify(io.userSocketMap, receiverId, e)
                                       + Notify(io.userSocketMap, requester, e)
  {
    if receiverId !in db.users {
      return Fail(NullReceiver);
    }
    var receiver := db.users[receiverId];
    if requester in receiver.blockedUsers {
      return Fail(BlockedByUser);
    }
    var imageUrl: Option<string> := None;
    if Truthy(image) {
      if upload.Fail? {
        return Fail(UploadFailed);
      }
      imageUrl := Some(upload.value);
    }
    var replyTarget: Option<MessageId> := None;
    if Truthy(replyTo) {
      if replyTo.value !in db.messages || db.messages[replyTo.value].isDeleted {
        return Fail(RepliedMessageNotFound);
      }
      replyTarget := Some(replyTo.value);
    }
    var message := CreateMessage(requester, receiverId, text, imageUrl, replyTarget);
    db.messages := db.messages[newId := message];
    assert MessagesValid(db.messages, db.users) by {
      forall id | id in db.messages ensures MessageOk(db.messages, db.users, id) {
        if id != newId {
          assert MessageOk(old(db.messages), db.users, id);
        }
      }
    }
    var e := NewMessage(newId, message, requester, receiverId);
    io.NotifyUser(receiverId, e);
    io.NotifyUser(requester, e);
    return Ok(newId);
  }

  /** deleteMessage: a missing message, then a requester other than the
      sender, are refused; otherwise the message is soft-deleted (again, if
      it already was) and `messageDeleted` goes to the receiver's socket
      when the receiver is in the socket map. */
  method DeleteMessage(db: Database, io: SocketServer, requester: UserId, messageId: MessageId)
    returns (r: Result<()>)
    requires db.Valid() && requester in db.users
    modifies db`messages, io`emitted
    ensures db.Valid()
    ensures messageId !in old(db.messages) ==> r == Fail(MessageNotFound)
    ensures messageId in old(db.messages) && old(db.messages)[messageId].senderId != requester
      ==> r == Fail(UnauthorizedDelete)
    ensures r.Ok? <==> messageId in old(db.messages) && old(db.messages)[messageId].senderId == requester
    ensures r.Fail? ==> db.messages == old(db.messages) && io.emitted == old(io.emitted)
    ensures r.Ok? ==>
      && db.messages == WithDeleted(old(db.messages), messageId)
      && io.emitted == old(io.emitted)
           + Notify(io.userSocketMap, old(db.messages)[messageId].receiverId, MessageDeleted(messageId))
  {
    if messageId !in db.messages {
      return Fail(MessageNotFound);
    }
    var message := db.messages[messageId];
    if message.senderId != requester {
      return Fail(UnauthorizedDelete);
    }
    db.messages := db.messages[messageId := message.(isDeleted := true)];
    assert MessagesValid(db.messages, db.users) by {
      forall id | id in db.messages ensures MessageOk(db.messages, db.users, id) {
        assert MessageOk(old(db.messages), db.users, id);
      }
    }
    io.NotifyUser(message.receiverId, MessageDeleted(messageId));
    return Ok(());
  }

  /** markMessagesAsSeen: sets `seen` on the message with that id, whoever
      asks and whether or not it exists, and always answers success. The
      handler emits nothing, so it takes no socket server. */
  method MarkMessagesAsSeen(db: Database, messageId: MessageId) returns (r: Result<()>)
    requires db.Valid()
    modifies db`messages
    ensures db.Valid()
    ensures r == Ok(())
    ensures db.messages == WithSeen(old(db.messages), messageId)
  {
    if messageId in db.messages {
      db.messages := db.messages[messageId := db.messages[messageId].(seen := true)];
      assert MessagesValid(db.messages, db.users) by {
        forall id | id in db.messages ensures MessageOk(db.messages, db.users, id) {
          assert MessageOk(old(db.messages), db.users, id);
        }
      }
    }
    return Ok(());
  }

  // ---------------------------------------------------------------------
  // Unseen counts and the sidebar

  /** The messages the unseen queries count for the pair (`from`, `to`). */
  function UnseenIds(messages: map<MessageId, Message>, from: UserId, to: UserId): set<MessageId> {
    set id | id in messages && UnseenFrom(messages[id], from, to)
  }

  /** `Message.countDocuments({ senderId: from, receiverId: to, seen: false,
      isDeleted: false })`, and equally the `length` of the matching `find`. */
  function UnseenCount(messages: map<MessageId, Message>, from: UserId, to: UserId): (c: nat)
    ensures c <= |messages|
    ensures c == 0 <==> forall id :: id in messages ==> !UnseenFrom(messages[id], from, to)
    ensures forall id :: id in messages && UnseenFrom(messages[id], from, to) ==> c >= 1
  {
    var ids := UnseenIds(messages, from, to);
    SubsetCardinality(ids, messages.Keys);
    assert forall id :: id in messages && UnseenFrom(messages[id], from, to) ==> id in ids;
    |ids|
  }

  /** A subset has no more elements than its superset. */
  lemma {:induction false} SubsetCardinality(a: set<MessageId>, b: set<MessageId>)
    requires a <= b
    ensures |a| <= |b|
    decreases |b|
  {
    if a != {} {
      var x :| x in a;
      SubsetCardinality(a - {x}, b - {x});
    }
  }

  /** getUnseenMessagesCount: for each contact of the requester, the number
      of messages from that contact to the requester that are neither seen
      nor deleted; contacts with no such message get no key. */
  method GetUnseenMessagesCount(db: Database, requester: UserId) returns (unseen: map<UserId, nat>)
    requires db.Valid() && requester in db.users
    ensures forall c :: c in unseen <==>
      c in db.users[requester].contacts && UnseenCount(db.messages, c, requester) > 0
    ensures forall c :: c in unseen ==> unseen[c] == UnseenCount(db.messages, c, requester)
  {
    var contacts := db.users[requester].contacts;
    unseen := map[];
    var i := 0;
    while i < |contacts|
      invariant 0 <= i <= |contacts|
      invariant forall c :: c in unseen <==>
        c in contacts[..i] && UnseenCount(db.messages, c, requester) > 0
      invariant forall c :: c in unseen ==> unseen[c] == UnseenCount(db.messages, c, requester)
    {
      var count := UnseenCount(db.messages, contacts[i], requester);
      if count > 0 {
        unseen := unseen[contacts[i] := count];
      }
      assert contacts[..i + 1] == contacts[..i] + [contacts[i]];
      i := i + 1;
    }
    assert contacts[..i] == contacts;
  }

  /** One contact as the sidebar lists it: the contact without its password,
      whether the requester blocked it, and its bio with `""` for none. */
  datatype SidebarEntry = SidebarEntry(profile: Profile, blocked: bool, bio: string)

  /** The `usersWithStatus` array: one entry per contact, in contact order. */
  function UsersWithStatus(users: map<UserId, User>, me: User): (r: seq<SidebarEntry>)
    requires forall c :: c in me.contacts ==> c in users
    ensures |r| == |me.contacts|
    ensures forall i :: 0 <= i < |r| ==>
      var c := me.contacts[i];
      && r[i].profile == PublicView(c, users[c])
      && (r[i].blocked <==> c in me.blockedUsers)
      && r[i].bio == (if users[c].bio.Some? then users[c].bio.value else "")
  {
    seq(|me.contacts|, i requires 0 <= i < |me.contacts| =>
      var c := me.contacts[i];
      SidebarEntry(PublicView(c, users[c]), c in me.blockedUsers, users[c].bio.GetOr("")))
  }

  /** getUsersForSidebar: the requester's contacts with their block flags,
      and the same unseen counts as getUnseenMessagesCount. */
  method GetUsersForSidebar(db: Database, requester: UserId)
    returns (entries: seq<SidebarEntry>, unseen: map<UserId, nat>)
    requires db.Valid() && requester in db.users
    ensures |entries| == |db.users[requester].contacts|
    ensures forall i :: 0 <= i < |entries| ==>
      var c := db.users[requester].contacts[i];
      && c in db.users
      && entries[i].profile == PublicView(c, db.users[c])
      && (entries[i].blocked <==> c in db.users[requester].blockedUsers)
      && entries[i].bio == db.users[c].bio.GetOr("")
    ensures forall c :: c in unseen <==>
      c in db.users[requester].contacts && UnseenCount(db.messages, c, requester) > 0
    ensures forall c :: c in unseen ==> unseen[c] == UnseenCount(db.messages, c, requester)
  {
    var me := db.users[requester];
    assert UserOk(db.users, requester);
    entries := UsersWithStatus(db.users, me);
    unseen := GetUnseenMessagesCount(db, requester);
  }

  // ---------------------------------------------------------------------
  // Properties relating the handlers

  /** Writing one message record changes the unseen count of a pair by what
      the old and the new record contribute to it, and nothing more. */
  lemma UnseenCountAfterWrite(messages: map<MessageId, Message>, id: MessageId, m: Message,
                              from: UserId, to: UserId)
    ensures UnseenCount(messages[id := m], from, to)
            + (if id in messages && UnseenFrom(messages[id], from, to) then 1 else 0)
         == UnseenCount(messages, from, to) + (if UnseenFrom(m, from, to) then 1 else 0)
  {
    var before := UnseenIds(messages, from, to);
    var after := UnseenIds(messages[id := m], from, to);
    assert before - {id} == after - {id};
    if id in before {
      assert |before| == |before - {id}| + 1;
    } else {
      assert before - {id} == before;
    }
    if id in after {
      assert |after| == |after - {id}| + 1;
    } else {
      assert after - {id} == after;
    }
  }

  /** A successful send raises the receiver's unseen count for the sender
      by exactly one and leaves every other pair's count alone. */
  lemma SendCountsOnce(messages: map<MessageId, Message>, id: MessageId, sender: UserId, receiver: UserId,
                       text: Option<string>, image: Option<string>, replyTo: Option<MessageId>,
                       from: UserId, to: UserId)
    requires id !in messages
    ensures var after := messages[id := CreateMessage(sender, receiver, text, image, replyTo)];
      UnseenCount(after, from, to)
        == UnseenCount(messages, from, to) + (if from == sender && to == receiver then 1 else 0)
  {
    UnseenCountAfterWrite(messages, id, CreateMessage(sender, receiver, text, image, replyTo), from, to);
  }

  /** Marking a message seen lowers exactly its own pair's count, by one,
      when it was unseen and not deleted. */
  lemma MarkSeenCountsOnce(messages: map<MessageId, Message>, id: MessageId, from: UserId, to: UserId)
    ensures UnseenCount(WithSeen(messages, id), from, to)
      == UnseenCount(messages, from, to) - (if id in messages && UnseenFrom(messages[id], from, to) then 1 else 0)
  {
    if id in messages {
      UnseenCountAfterWrite(messages, id, messages[id].(seen := true), from, to);
    }
  }

  /** Deleting a message lowers exactly its own pair's count, by one, when
      it was unseen and not yet deleted. */
  lemma DeleteCountsOnce(messages: map<MessageId, Message>, id: MessageId, from: UserId, to: UserId)
    ensures UnseenCount(WithDeleted(messages, id), from, to)
      == UnseenCount(messages, from, to) - (if id in messages && UnseenFrom(messages[id], from, to) then 1 else 0)
  {
    if id in messages {
      UnseenCountAfterWrite(messages, id, messages[id].(isDeleted := true), from, to);
    }
  }

  /** Deleting twice leaves the store as deleting once. */
  lemma DeleteIdempotent(messages: map<MessageId, Message>, id: MessageId)
    ensures WithDeleted(WithDeleted(messages, id), id) == WithDeleted(messages, id)
  {
  }

  /** Marking seen twice leaves the store as marking once. */
  lemma MarkSeenIdempotent(messages: map<MessageId, Message>, id: MessageId)
    ensures WithSeen(WithSeen(messages, id), id) == WithSeen(messages, id)
  {
  }

  /** Both parties see the same conversation. */
  lemma ConversationSymmetric(messages: map<MessageId, Message>, a: UserId, b: UserId)
    ensures GetMessages(messages, a, b) == GetMessages(messages, b, a)
  {
  }

  /** A sent message is in the conversation of its two parties afterwards,
      whether or not either was connected when it was sent. */
  lemma SentMessageIsFetched(messages: map<MessageId, Message>, id: MessageId, sender: UserId, receiver: UserId,
                             text: Option<string>, image: Option<string>, replyTo: Option<MessageId>)
    requires id !in messages
    ensures var m := CreateMessage(sender, receiver, text, image, replyTo);
      && GetMessages(messages[id := m], receiver, sender) == GetMessages(messages, receiver, sender)[id := m]
      && GetMessages(messages[id := m], sender, receiver) == GetMessages(messages, sender, receiver)[id := m]
  {
  }

  /** A deleted message drops out of every conversation; nothing else does. */
  lemma DeletedMessageIsHidden(messages: map<MessageId, Message>, id: MessageId, a: UserId, b: UserId)
    ensures GetMessages(WithDeleted(messages, id), a, b) == GetMessages(messages, a, b) - {id}
  {
  }

  /** Marking seen keeps the set of messages a conversation shows. */
  lemma MarkSeenKeepsConversation(messages: map<MessageId, Message>, id: MessageId, a: UserId, b: UserId)
    ensures GetMessages(WithSeen(messages, id), a, b).Keys == GetMessages(messages, a, b).Keys
  {
  }
}
