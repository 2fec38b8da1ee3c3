# Chat backend: presence map, message lifecycle, contacts and password reset

This project is a Dafny model of the decision logic in a one-to-one chat
backend (Express, Mongoose, socket.io). The model is one in-memory state
machine with two objects:

- `Store.Database` holds the user table (`map<UserId, User>`), the message
  table (`map<MessageId, Message>`) and the OTP records (a `seq`, in
  insertion order). `findOne` on the OTP records is modelled as returning
  the first match in that order. MongoDB guarantees no such order; taking
  the first match is the model's choice.
- `Server.SocketServer` holds the module-level `userSocketMap` of server.js
  and the list of events emitted so far (`emitted`).

Every HTTP handler is a method. It returns a `Result`, the handler's
`{ success, ... }` answer, with an `Error` that names the response message.
It changes only the fields its `modifies` clause names (`db`users`,
`db`messages`, `db`otps`, `io`emitted`). Each socket push appends one
`Emission` to `io.emitted`: either `ToAll` (`io.emit`) or `ToSocket`
(`io.to(id).emit`).

`Database.Valid()` is the invariant every handler keeps:

- Emails are non-empty and unique.
- Every stored password passed the schema validators.
- Contact and block lists have no duplicates, never hold their owner, and
  name only existing users. "Never hold their owner" holds here because
  ids are compared in one canonical spelling; see `AddContact` and
  `BlockUser` under "## Left out".
- Every message's sender, receiver and reply target exist.
- OTP record ids are distinct.

The presence map is modelled as the code writes it. A connect stores the
new socket. A disconnect deletes the user's entry whatever socket it holds,
so a late disconnect of an old connection removes a newer connection's
entry. `Server.StaleDisconnectErasesNewerEntry` and
`Scenarios.StaleDisconnect` show this race. The model does not add a guarded
compare-and-delete, because server.js has none. The map type itself
guarantees at most one socket per user.

Four other points where the code does something a reader might not expect:

- **Password validators.** The schema's validators (`minlength: 6` and a
  special character) run on the stored value. That value is the bcrypt hash,
  not the plaintext. `UserModel.BcryptShapedValueIsValid` proves that every
  bcrypt-shaped value passes. `Scenarios.SignupWithWeakPassword` then
  registers a plaintext the validators reject.
- **Profile updates skip validation.** `updateProfile` writes through
  `findByIdAndUpdate`, which runs no validators, so it can store an empty
  `fullName`. The next `user.save()` validates the whole document and
  rejects it. A later password reset with a good code therefore fails, and
  the password and the code stay as they were. `Scenarios.ResetAfterEmptiedName`
  walks through that sequence.
- **Mark-seen and delete.** `markMessagesAsSeen` has no ownership check,
  emits nothing, and also marks deleted messages. Deleting an
  already-deleted message succeeds again and emits `messageDeleted` again.
- **Sender notification.** `newMessage` goes to the one socket
  `userSocketMap` holds for the sender, if any. It does not go to several
  sessions of the sender.

External calls are parameters of the handlers:

- bcrypt: `hash`, `salt` and `compare`.
- Cloudinary: `upload`, the upload's outcome.
- nodemailer: `mailSent`.
- `crypto.randomInt`: `code`, within the bounds `randomInt` guarantees.
- `Date.now`: `now`, in milliseconds.
- ObjectId generation: `newId`, a fresh id.
- The `$regex` test of `searchUsers`: `matches`.

Handlers behind `protectRoute` take the authenticated user's id as
`requester`, with `requires requester in db.users`. The middleware loaded
that user from the table, and no handler deletes users. The signup and
login handlers of controllers/authController.js (lines 9-53) are copies of
those in controllers/userController.js. `UserController.Signup` and
`UserController.Login` model both.

## Model

| member | source | states |
|---|---|---|
| `Server.AfterConnect` | server.js:20-25 | a truthy handshake `userId` maps to the new socket id, replacing any earlier socket of that user; no other entry changes; a missing or empty `userId` leaves the map as it was |
| `Server.AfterDisconnect` | server.js:28-30 | the disconnecting connection's user loses its entry whatever socket the entry holds (an absent `userId` deletes the key "undefined"); every other entry is unchanged |
| `Server.SocketServer.OnConnection` | server.js:19-26 | the map becomes `AfterConnect` of the old map, and exactly one `getOnlineUsers` broadcast carrying the new key set is appended |
| `Server.SocketServer.OnDisconnect` | server.js:28-32 | the map becomes `AfterDisconnect` of the old map, and exactly one `getOnlineUsers` broadcast carrying the new key set is appended |
| `Server.Notify` | controllers/messageController.js:69-76 | a push to a user yields one emission to the user's mapped socket when the user is in the map and none otherwise |
| `Server.SocketServer.NotifyUser` | controllers/messageController.js:112-115 | the emitted list grows by exactly `Notify` of the current map; the map is unchanged |
| `Server.SocketServer.Run` | server.js:19-32 | running a trace of connects and disconnects through the two callbacks leaves the map as `Replay` of the trace and appends exactly `Broadcasts` of the trace, so the lemmas about `Replay` and `Broadcasts` hold of the callbacks themselves |
| `Server.OneBroadcastPerCallback` | server.js:26-31 | over any run of connects and disconnects there is exactly one broadcast per callback, and the i-th one carries the keys of the map as the i-th callback left it |
| `Server.KeysComeFromHandshakes` | server.js:17-24 | every key in the map after a run was there before or was announced by some connection's handshake; the empty id is never added |
| `Server.StaleDisconnectErasesNewerEntry` | server.js:23-30 | connect(u, s1), connect(u, s2), then the disconnect of s1: the map held s2 for u, and afterwards u has no entry |
| `MessageController.GetMessages` | controllers/messageController.js:11-17 | the result is exactly the non-deleted messages from requester to other or from other to requester, each as stored |
| `MessageController.ConversationSymmetric` | controllers/messageController.js:11-17 | both parties get the same conversation |
| `MessageController.SendMessage` | controllers/messageController.js:29-93 | fails with nothing stored and nothing emitted for a missing receiver, a receiver whose `blockedUsers` holds the sender, a failed upload, or a reply target that is missing or deleted, in that order; otherwise stores exactly one message (sender, path id, text as given, the upload URL, reply target or none, unseen, not deleted) and emits `newMessage` to the receiver's socket, then the sender's, each only if mapped; keeps `Valid` |
| `MessageController.SentMessageIsFetched` | controllers/messageController.js:54-61 | after a send, the message is in both parties' conversation whether or not anyone was connected, and nothing else in it changed |
| `MessageController.DeleteMessage` | controllers/messageController.js:95-122 | a missing message fails with `MessageNotFound`, a requester other than the sender with `UnauthorizedDelete`, in both cases with the store and the emitted list unchanged; otherwise only `isDeleted` of that message becomes true and `messageDeleted` goes to the receiver's socket iff the receiver is mapped |
| `MessageController.WithDeleted` | controllers/messageController.js:109-110 | the soft delete sets `isDeleted` of that message only; ids and all other messages are unchanged |
| `MessageController.DeleteIdempotent` | controllers/messageController.js:109-110 | deleting twice leaves the store as deleting once |
| `MessageController.DeletedMessageIsHidden` | controllers/messageController.js:16 | after a delete, every conversation loses exactly that message |
| `MessageController.MarkMessagesAsSeen` | controllers/messageController.js:161-170 | always succeeds; sets `seen` of the message with that id if it exists, with no ownership check, and emits nothing |
| `MessageController.WithSeen` | controllers/messageController.js:164 | only `seen` of that message changes; a missing id changes nothing |
| `MessageController.MarkSeenIdempotent` | controllers/messageController.js:164 | marking seen twice leaves the store as marking once |
| `MessageController.MarkSeenKeepsConversation` | controllers/messageController.js:164 | marking seen never adds a message to a conversation or removes one |
| `MessageController.UnseenCount` | controllers/messageController.js:142-148 | the number of stored messages from one user to another that are neither seen nor deleted, as `countDocuments` (lines 180-185) and the `length` of the matching `find` count them: at most the number of messages, and zero exactly when no message matches |
| `MessageController.GetUnseenMessagesCount` | controllers/messageController.js:173-197 | on a valid store, the result has a key c iff c is a contact of the requester with at least one message to the requester that is unseen and not deleted, and its value is the number of such messages |
| `MessageController.UsersWithStatus` | controllers/messageController.js:133-138 | one entry per contact in contact order, without its password; its `blocked` flag holds iff the contact is in the requester's `blockedUsers`; its bio is the contact's bio or "" when it has none |
| `MessageController.GetUsersForSidebar` | controllers/messageController.js:124-159 | the entries are `UsersWithStatus` of the requester's contacts, and the unseen map obeys the same rule as in getUnseenMessagesCount |
| `MessageController.UnseenCountAfterWrite` | controllers/messageController.js:180-185 | writing one message record changes a pair's unseen count by the new record's contribution minus the old record's |
| `MessageController.SendCountsOnce` | controllers/messageController.js:54-61 | a stored message raises the (sender, receiver) unseen count by exactly one and no other pair's count |
| `MessageController.MarkSeenCountsOnce` | controllers/messageController.js:164 | marking an unseen, undeleted message seen lowers its pair's count by one; otherwise no count changes |
| `MessageController.DeleteCountsOnce` | controllers/messageController.js:109 | deleting an unseen, undeleted message lowers its pair's count by one; otherwise no count changes |
| `MessageModel.CreatedMessageDefaults` | models/Message.js:3-32 | a new message is unseen, not deleted, a reply only when given a target, with the given parties, text and image |
| `UserModel.CreatedUserDefaults` | models/User.js:26-44 | a new user has `profilePic` "" and empty `contacts` and `blockedUsers` lists, with the given email, fullName, password and bio |
| `UserModel.HasSpecialCharIff` | models/User.js:18-21 | the validator's scan finds a special character iff some character of the value is in the class `!@#$%^&*()_+-=[]{};':"\|,.<>/?` |
| `UserModel.DocumentValid` | models/User.js:4-23 | what `create()` and `save()` accept of a whole user document: a non-empty `email` and `fullName` (the `required` checks) and a password of at least 6 characters with a special character; it decides `ResetPassword`'s `ValidationFailed` outcome |
| `UserModel.PasswordValidIff` | models/User.js:13-23 | the password validators accept a value iff it has at least 6 characters and one of them is a special character |
| `UserModel.BcryptShapedValueIsValid` | models/User.js:16-22 | every value of bcrypt's shape (starting with `$`, at least 6 long) passes the validators, which therefore never constrain the plaintext |
| `UserModel.WeakPlaintextIsInvalid` | models/User.js:16-22 | "abcdefgh" is rejected by the validators |
| `UserModel.PublicView` | controllers/userController.js:97 | the returned user is the stored record without its password |
| `Store.Database.FindUserByEmail` | controllers/userController.js:13 | returns the one user whose email matches, or none exactly when no user has that email |
| `Store.AddUserKeepsValid` | models/User.js:4-8 | a user with an unused, non-empty email and a valid password can be added without breaking uniqueness of emails or any other part of `Valid` |
| `Store.UpdateUserKeepsValid` | controllers/userController.js:124-128 | replacing a user record by one with the same email, a valid password and well-formed lists keeps `Valid` |
| `Store.RemoveKeepsOtpIdsUnique` | controllers/authController.js:123 | deleting one OTP record keeps the remaining ids distinct |
| `UserController.Signup` | controllers/userController.js:7-31 | fails with nothing created when fullName, email, password or bio is empty, when the email is taken, or when the validators reject the stored hash; otherwise adds exactly one user under the new id whose password is `hash(password, salt)`, not the plaintext |
| `UserController.Login` | controllers/userController.js:34-51 | an absent or unknown email and a wrong password all fail with `InvalidCredentials`; a known email without a `password` fails with `IllegalArguments`, bcrypt's rejection that the `catch` reports; no other failure occurs; it succeeds iff both fields are present, a user with that email exists and `compare` accepts the password, and then returns that user |
| `UserController.ProfileUpdated` | controllers/userController.js:64-72 | the new record has the given bio and fullName (each only if present in the request) and the new picture if any; email, password and both lists are unchanged |
| `UserController.UpdateProfile` | controllers/userController.js:59-79 | without a truthy `profilePic` only bio and fullName are written; with one, a failed upload changes nothing and a successful one also sets `profilePic` to its URL; only the requester's record changes |
| `UserController.SearchUsers` | controllers/userController.js:82-104 | an empty query returns nothing; otherwise exactly the users other than the requester that the pattern matches, without passwords; the requester is never in the result |
| `ListOps.AddToSet` | controllers/userController.js:126 | `$addToSet`: the result holds the old elements and the new one and nothing else, appends only if absent, and keeps a duplicate-free list duplicate-free |
| `ListOps.Pull` | controllers/userController.js:146 | `$pull`: the result holds exactly the old elements other than the removed one, each as often as before (multiset equality with the removed element's count set to zero) |
| `ListOps.PullAbsent` | controllers/userController.js:146 | pulling an absent id changes nothing |
| `ListOps.PullIdempotent` | controllers/userController.js:196 | pulling twice equals pulling once |
| `ListOps.PullKeepsNoDup` | controllers/userController.js:196 | pulling keeps a duplicate-free list duplicate-free |
| `ListOps.AddToSetIdempotent` | controllers/userController.js:177 | adding twice equals adding once |
| `UserController.AddContact` | controllers/userController.js:107-135 | a nonexistent id fails with `UserNotFound`, checked first, and the requester's own id with `CannotAddSelf`, both changing nothing; otherwise the contacts list becomes `AddToSet` of the old one, so repeating the call changes nothing |
| `UserController.RemoveContact` | controllers/userController.js:138-155 | always succeeds; the contacts list loses every occurrence of the id and nothing else changes |
| `UserController.BlockUser` | controllers/userController.js:158-186 | a request without `userId` fails with `UndefinedUserId`, the TypeError of its `toString()` at the self check; then the requester's own id fails with `CannotBlockSelf`, then a nonexistent id with `UserNotFound`; otherwise `blockedUsers` becomes `AddToSet` of the old list and `contacts` is unchanged |
| `UserController.UnblockUser` | controllers/userController.js:189-205 | always succeeds; `blockedUsers` loses every occurrence of the id and nothing else changes |
| `OtpModel.FindOtp` | controllers/authController.js:97 | the position of the first record matching both email and code, or none iff no record matches both |
| `OtpModel.RemoveAt` | controllers/authController.js:104 | deleting the found record removes exactly that record and keeps the others in order |
| `OtpModel.ConsumedCodeIsGone` | controllers/authController.js:122-123 | once the matched record is deleted, the same (email, code) finds nothing unless another record carries the same pair |
| `Decimal.ToDecimal` | controllers/authController.js:70 | `Number.prototype.toString()` of a natural number: a non-empty string of decimal digits with no leading zero when the number is positive |
| `Decimal.ParseToDecimal` | controllers/authController.js:70 | the decimal notation reads back as the number it was made from, so distinct draws give distinct codes |
| `Decimal.ToDecimalLength` | controllers/authController.js:70 | a number in [10^(k-1), 10^k) has a k-character notation |
| `AuthController.IssuedCodeShape` | controllers/authController.js:70 | an issued code is six digits with no leading zero that read back as the drawn number, which lies in [100000, 999999) |
| `AuthController.RequestPasswordReset` | controllers/authController.js:61-84 | an unknown email fails with no OTP stored; otherwise exactly one record (email, code, now + 600000 ms) is appended, and the call succeeds iff the mail was sent; a failed mail still leaves the record |
| `AuthController.ResetPassword` | controllers/authController.js:87-130 | fails with nothing changed on a missing field, on no record matching both email and code, on no user with that email, or when `save()` rejects the user's record with the new hash in it (a hash the password validators reject, or an empty `fullName` stored by an earlier profile update); a matching record with `expiresAt < now` is deleted and the reset fails (`expiresAt == now` is accepted); on success the user's password becomes `hash(newPassword, salt)` and exactly the matched record is deleted |

## Left out

- Express wiring is not modelled: the app, CORS, `listen`, `connectDB`, the
  status routes and the route tables. Each handler's JSON answer is its
  `Result`.
- `checkAuth` and `getMe` are not modelled. They echo `req.user` and have no
  logic.
- The authentication middleware (middleware/auth.js) is not part of this
  model. Its effect is the precondition that `requester` is a stored user.
- `generateToken` is not modelled. It is an opaque function of the user id,
  so `Login` and `Signup` return the id.
- The user document in the signup and login answers is not modelled. In
  the code it includes the stored hash. `UpdateProfile` does return the
  stored record, hash included, as the code does.
- Mongoose `populate` joins are not modelled. Answers carry ids and records,
  not the populated sub-documents. Populate's dropping of dangling
  references cannot matter here, because `Valid` rules dangling references
  out.
- The order of `find` results and of `Object.keys` is not modelled.
  Conversations and key sets are maps and sets.
- The socket.io transport is not modelled. An emission is recorded, not
  sent, and the set of open sockets that an `io.emit` reaches is not
  tracked.
- The interleaving of concurrent requests at `await` points is not
  modelled. Handlers run one at a time. Two signups racing past `findOne`
  with the same email are therefore not modelled; the unique index would
  reject one.
- `Promise.all` in the unseen counts is modelled as a sequential loop. The
  result does not depend on the order.
- bcrypt, Cloudinary, nodemailer, `crypto.randomInt` and `Date.now` are
  parameters of the handlers, as described above.
- The MongoDB TTL index on OTP records is not modelled. It deletes records
  on the database side.
- Record timestamps (`createdAt`, `updatedAt`) are not modelled.
- Cast errors are not modelled. An id that is not a valid ObjectId makes the
  code's query throw, which becomes a failure. In the model every id is
  well-formed and canonical (see the spelling line below), so an unknown id
  behaves like a missing record.
- MarkMessagesAsSeen: always answers success. The code would fail on a
  malformed id through the cast error above.
- SearchUsers: matching is the `matches` parameter, not case-insensitive
  regular-expression matching. A query that is not a valid pattern would
  make the code throw; the model does not capture this.
- UpdateProfile: assumes Mongoose 7 or later, which drops undefined keys
  from an update. Under older versions an absent `bio` or `fullName` might
  be unset instead of left alone.
- Ids are modelled in one canonical spelling, lower-case hex as
  `toString()` gives it. In the code, every query (`findById`, `find`,
  `create`, `$addToSet`, `$pull`) casts a request's id to an ObjectId. The
  cast accepts other spellings, such as upper-case hex, and finds the same
  record. `userSocketMap` lookups and the self checks use the raw string.
  The model identifies a record only by its canonical id, so a differently
  spelt id behaves like an unknown one. SendMessage: the case where code
  and model then differ is a message sent to an upper-case spelling of the
  receiver's id. The code stores it and skips the receiver's socket. The
  model fails with `NullReceiver` and stores nothing. The same spelling
  would find the record in deleteMessage, markMessagesAsSeen, getMessages,
  removeContact and unblockUser, where the model answers as for an unknown
  id.
- AddContact: ids are modelled in one canonical spelling. In the code, the
  self check (controllers/userController.js:119) compares the raw request
  string with `userId.toString()`, but `findById` and `$addToSet` cast the
  string to an ObjectId, and the cast accepts upper-case hex. So an
  upper-case spelling of the requester's own id passes the check, and the
  requester lands in their own `contacts`. The model does not capture this,
  and `ListOk`'s "never the owner" relies on it.
- BlockUser: the same spelling gap applies to the self check at
  controllers/userController.js:164, which lets a requester into their own
  `blockedUsers`.
- Login: a request without `email` is modelled as matching no user. The
  filter `{ email: undefined }` is sent as `null`, and every stored user has
  an email.
- Request fields are strings or absent. JSON numbers, `null` and arrays in
  request bodies are not modelled, and neither are handshake queries that
  repeat `userId`. An absent field is modelled as `None` where the code
  treats it differently from a present one. The contact, unblock and search
  handlers and RequestPasswordReset take plain strings, because there an
  absent id, query or email is answered exactly as an unknown id, an empty
  query or an unknown email. For RequestPasswordReset this rests on the
  same assumption as for Login: `findOne({ email: undefined })` matches no
  user, so the answer is `EmailNotFound`.
- PasswordValid: `|s|` counts Unicode code points, while `minlength`
  counts UTF-16 code units, so the two differ for characters outside the
  Basic Multilingual Plane. Only bcrypt's ASCII output reaches the
  validator, so no handler's outcome depends on it.
- Presence map lookups of inherited property names (`toString`,
  `__proto__`) are not modelled. JavaScript resolves them on the prototype.
- Several sessions per user and a guarded compare-and-delete on disconnect
  would be desirable designs. The code implements neither, so the model
  does not either.
