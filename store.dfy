/** The three collections the handlers read and write: users and messages
    by `_id`, and the OTP records in insertion order. `Valid` collects what
    the handlers keep true of them: unique and non-empty emails, stored
    passwords that passed the schema validators, contact and block lists
    without duplicates, without the owner and naming existing users, and
    messages whose sender, receiver and reply target exist. */
module Store {

  import opened Common
  import opened ListOps
  import opened UserModel
  import opened MessageModel
  import opened OtpModel

  /** A contact or block list of user `owner`: duplicate-free (every entry
      came through `$addToSet`), never `owner` itself, only existing users.
      "Never `owner`" rests on ids being compared in their canonical
      spelling; the code's self checks compare the raw request string. */
  ghost predicate ListOk(users: map<UserId, User>, owner: UserId, l: seq<UserId>) {
    NoDup(l) && forall c :: c in l ==> c in users && c != owner
  }

  ghost predicate UserOk(users: map<UserId, User>, id: UserId)
    requires id in users
  {
    var u := users[id];
    u.email != "" && PasswordValid(u.password)
    && ListOk(users, id, u.contacts) && ListOk(users, id, u.blockedUsers)
  }

  /** `email` is `required` and `unique` in the schema. */
  ghost predicate EmailsUnique(users: map<UserId, User>) {
    forall a, b :: a in users && b in users && users[a].email == users[b].email ==> a == b
  }

  ghost predicate UsersValid(users: map<UserId, User>) {
    EmailsUnique(users) && forall id :: id in users ==> UserOk(users, id)
  }

  ghost predicate MessageOk(messages: map<MessageId, Message>, users: map<UserId, User>, id: MessageId)
    requires id in messages
  {
    var m := messages[id];
    m.senderId in users && m.receiverId in users
    && (m.replyTo.Some? ==> m.replyTo.value in messages)
  }

  ghost predicate MessagesValid(messages: map<MessageId, Message>, users: map<UserId, User>) {
    forall id :: id in messages ==> MessageOk(messages, users, id)
  }

  ghost predicate OtpIdsUnique(otps: seq<OtpRecord>) {
    forall i, j :: 0 <= i < j < |otps| ==> otps[i].id != otps[j].id
  }

  /** Some user of the table has this email. */
  ghost predicate EmailTaken(users: map<UserId, User>, email: string) {
    exists id :: id in users && users[id].email == email
  }

  /** Replacing one user's record by one with the same email, a password
      that passes the validators and well-formed lists keeps the store
      valid. */
  lemma UpdateUserKeepsValid(users: map<UserId, User>, messages: map<MessageId, Message>,
                             id: UserId, u: User)
    requires UsersValid(users) && MessagesValid(messages, users)
    requires id in users && u.email == users[id].email
    requires PasswordValid(u.password)
    requires ListOk(users, id, u.contacts) && ListOk(users, id, u.blockedUsers)
    ensures UsersValid(users[id := u]) && MessagesValid(messages, users[id := u])
  {
    var after := users[id := u];
    assert after.Keys == users.Keys;
    forall k | k in after ensures UserOk(after, k) {
      if k != id {
        assert UserOk(users, k);
      }
    }
    forall k | k in messages ensures MessageOk(messages, after, k) {
      assert MessageOk(messages, users, k);
    }
  }

  /** Adding a user under a fresh id, with an email nobody holds and a
      password that passes the validators, keeps the store valid. */
  lemma AddUserKeepsValid(users: map<UserId, User>, messages: map<MessageId, Message>,
                          id: UserId, u: User)
    requires UsersValid(users) && MessagesValid(messages, users)
    requires id !in users && !EmailTaken(users, u.email)
    requires u.email != "" && PasswordValid(u.password) && u.contacts == [] && u.blockedUsers == []
    ensures UsersValid(users[id := u]) && MessagesValid(messages, users[id := u])
  {
    var after := users[id := u];
    forall k | k in after ensures UserOk(after, k) {
      if k != id {
        assert UserOk(users, k);
      }
    }
    forall k | k in messages ensures MessageOk(messages, after, k) {
      assert MessageOk(messages, users, k);
    }
  }

  /** Deleting one OTP record keeps the remaining ids distinct. */
  lemma RemoveKeepsOtpIdsUnique(otps: seq<OtpRecord>, i: nat)
    requires OtpIdsUnique(otps) && i < |otps|
    ensures OtpIdsUnique(RemoveAt(otps, i))
  {
    var r := RemoveAt(otps, i);
    forall a, b | 0 <= a < b < |r| ensures r[a].id != r[b].id {
      var a' := if a < i then a else a + 1;
      var b' := if b < i then b else b + 1;
      assert r[a] == otps[a'] && r[b] == otps[b'];
    }
  }

  class Database {
    var users: map<UserId, User>
    var messages: map<MessageId, Message>
    var otps: seq<OtpRecord>

    ghost predicate Valid()
      reads this
    {
      UsersValid(users) && MessagesValid(messages, users) && OtpIdsUnique(otps)
    }

    constructor ()
      ensures Valid()
      ensures users == map[] && messages == map[] && otps == []
    {
      users, messages, otps := map[], map[], [];
    }

    /** `User.findOne({ email })`. Emails are unique, so the answer is the
        one user holding `email`, or none. */
    method FindUserByEmail(email: string) returns (r: Option<UserId>)
      requires Valid()
      ensures r.None? <==> forall id :: id in users ==> users[id].email != email
      ensures r.Some? ==> r.value in users && users[r.value].email == email
      ensures r.Some? ==> forall id :: id in users && users[id].email == email ==> id == r.value
    {
      if exists id :: id in users && users[id].email == email {
        var id :| id in users && users[id].email == email;
        r := Some(id);
      } else {
        r := None;
      }
    }
  }
}
