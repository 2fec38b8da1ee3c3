/** controllers/userController.js: account creation and login, profile
    updates, user search, and the contact and block lists. The password
    hash, the image upload and the search pattern are external: bcrypt is
    the pair (`hash`, `salt`) of a hashing function and the salt
    `genSalt(10)` drew, `compare` is `bcrypt.compare`, an upload is the
    outcome the image host returns, and `matches` is the case-insensitive
    regular-expression test of the query against a user's name or email.
    The signup and login handlers of controllers/authController.js are
    copies of the two here. */
module UserController {

  import opened Common
  import opened ListOps
  import opened UserModel
  import opened Store

  predicate SignupFieldsGiven(fullName: Option<string>, email: Option<string>,
                              password: Option<string>, bio: Option<string>) {
    Truthy(fullName) && Truthy(email) && Truthy(password) && Truthy(bio)
  }

  /** signup: all four fields must be non-empty and the email unused. The
      stored password is the hash of the one given, and the schema
      validators run on that stored value, not on the plaintext. */
  method Signup(db: Database, fullName: Option<string>, email: Option<string>,
                password: Option<string>, bio: Option<string>,
                hash: (string, string) -> string, salt: string, newId: UserId)
    returns (r: Result<UserId>)
    requires db.Valid() && newId !in db.users
    modifies db`users
    ensures db.Valid()
    ensures !SignupFieldsGiven(fullName, email, password, bio) ==> r == Fail(AllFieldsRequired)
    ensures SignupFieldsGiven(fullName, email, password, bio) && EmailTaken(old(db.users), email.value)
      ==> r == Fail(UserAlreadyExists)
    ensures (SignupFieldsGiven(fullName, email, password, bio) && !EmailTaken(old(db.users), email.value)
             && !PasswordValid(hash(password.value, salt))) ==> r == Fail(ValidationFailed)
    ensures r.Ok? <==> (SignupFieldsGiven(fullName, email, password, bio)
                        && !EmailTaken(old(db.users), email.value) && PasswordValid(hash(password.value, salt)))
    ensures r.Fail? ==> db.users == old(db.users)
    ensures r.Ok? ==>
      && r.value == newId
      && db.users == old(db.users)[newId := CreateUser(email.value, fullName.value, hash(password.value, salt), bio.value)]
  {
    if !(Truthy(fullName) && Truthy(email) && Truthy(password) && Truthy(bio)) {
      return Fail(AllFieldsRequired);
    }
    var existing := db.FindUserByEmail(email.value);
    if existing.Some? {
      return Fail(UserAlreadyExists);
    }
    var hashedPassword := hash(password.value, salt);
    var user := CreateUser(email.value, fullName.value, hashedPassword, bio.value);
    if !PasswordValid(user.password) {
      return Fail(ValidationFailed);
    }
    AddUserKeepsValid(db.users, db.messages, newId, user);
    db.users := db.users[newId := user];
    return Ok(newId);
  }

  /** login: an unknown email and a wrong password give the same answer.
      A missing `email` is sent to the database as `null` and matches no
      stored user. A missing `password` for a known email reaches
      `bcrypt.compare(undefined, hash)`, which rejects its arguments; the
      `catch` reports that error instead. */
  method Login(db: Database, email: Option<string>, password: Option<string>,
               compare: (string, string) -> bool)
    returns (r: Result<UserId>)
    requires db.Valid()
    ensures (email.None? || !EmailTaken(db.users, email.value)) ==> r == Fail(InvalidCredentials)
    ensures email.Some? && EmailTaken(db.users, email.value) && password.None? ==> r == Fail(IllegalArguments)
    ensures r.Fail? ==> r.error == InvalidCredentials || r.error == IllegalArguments
    ensures r.Ok? <==> email.Some? && password.Some?
                       && exists id :: id in db.users && db.users[id].email == email.value
                                       && compare(password.value, db.users[id].password)
    ensures r.Ok? ==> r.value in db.users && db.users[r.value].email == email.value
                      && compare(password.value, db.users[r.value].password)
  {
    if email.None? {
      return Fail(InvalidCredentials);
    }
    var found := db.FindUserByEmail(email.value);
    if found.None? {
      return Fail(InvalidCredentials);
    }
    if password.None? {
      return Fail(IllegalArguments);
    }
    if !compare(password.value, db.users[found.value].password) {
      return Fail(InvalidCredentials);
    }
    return Ok(found.value);
  }

  /** The record `findByIdAndUpdate` leaves: each of `bio` and `fullName`
      that the request carries (the update drops undefined keys), and the
      new picture when there is one; nothing else changes. */
  function ProfileUpdated(u: User, newPic: Option<string>, bio: Option<string>, fullName: Option<string>)
    : (r: User)
    ensures r.email == u.email && r.password == u.password
    ensures r.contacts == u.contacts && r.blockedUsers == u.blockedUsers
    ensures r.bio == (if bio.Some? then bio else u.bio)
    ensures r.fullName == (if fullName.Some? then fullName.value else u.fullName)
    ensures r.profilePic == (if newPic.Some? then newPic.value else u.profilePic)
  {
    u.(bio := if bio.Some? then bio else u.bio,
       fullName := fullName.GetOr(u.fullName),
       profilePic := newPic.GetOr(u.profilePic))
  }

  /** updateProfile: without a picture only bio and fullName are written;
      with one, the upload runs first and its URL becomes `profilePic`. A
      failed upload changes nothing. The update runs no validators. */
  method UpdateProfile(db: Database, requester: UserId, profilePic: Option<string>,
                       bio: Option<string>, fullName: Option<string>, upload: Result<string>)
    returns (r: Result<User>)
    requires db.Valid() && requester in db.users
    modifies db`users
    ensures db.Valid()
    ensures Truthy(profilePic) && upload.Fail? ==> r == Fail(UploadFailed) && db.users == old(db.users)
    ensures !Truthy(profilePic) ==>
      && r.Ok?
      && db.users == old(db.users)[requester := ProfileUpdated(old(db.users)[requester], None, bio, fullName)]
    ensures Truthy(profilePic) && upload.Ok? ==>
      && r.Ok?
      && db.users == old(db.users)[requester := ProfileUpdated(old(db.users)[requester], Some(upload.value), bio, fullName)]
    ensures r.Ok? ==> r.value == db.users[requester]
  {
    var newPic: Option<string> := None;
    if Truthy(profilePic) {
      if upload.Fail? {
        return Fail(UploadFailed);
      }
      newPic := Some(upload.value);
    }
    var updated := ProfileUpdated(db.users[requester], newPic, bio, fullName);
    assert UserOk(db.users, requester);
    UpdateUserKeepsValid(db.users, db.messages, requester, updated);
    db.users := db.users[requester := updated];
    return Ok(updated);
  }

  /** searchUsers: an empty query finds nobody; otherwise every user but
      the requester whose name or email the pattern matches, without
      passwords. */
  function SearchUsers(users: map<UserId, User>, requester: UserId, query: string,
                       matches: (string, User) -> bool): (r: map<UserId, Profile>)
    ensures query == "" ==> r == map[]
    ensures requester !in r
    ensures query != "" ==> forall id :: id in r <==> id in users && id != requester && matches(query, users[id])
    ensures forall id :: id in r ==> r[id] == PublicView(id, users[id])
  {
    if query == "" then map[]
    else map id | id in users && id != requester && matches(query, users[id]) :: PublicView(id, users[id])
  }

  /** addContact: an unknown id is refused first, then the requester's own
      id; otherwise the id joins the contact list unless already there. */
  method AddContact(db: Database, requester: UserId, contactId: UserId) returns (r: Result<seq<UserId>>)
    requires db.Valid() && requester in db.users
    modifies db`users
    ensures db.Valid()
    ensures contactId !in old(db.users) ==> r == Fail(UserNotFound)
    ensures contactId in old(db.users) && contactId == requester ==> r == Fail(CannotAddSelf)
    ensures r.Ok? <==> contactId in old(db.users) && contactId != requester
    ensures r.Fail? ==> db.users == old(db.users)
    ensures r.Ok? ==>
      var me := old(db.users)[requester];
      && db.users == old(db.users)[requester := me.(contacts := AddToSet(me.contacts, contactId))]
      && r.value == db.users[requester].contacts
  {
    if contactId !in db.users {
      return Fail(UserNotFound);
    }
    if contactId == requester {
      return Fail(CannotAddSelf);
    }
    var me := db.users[requester];
    var updated := me.(contacts := AddToSet(me.contacts, contactId));
    assert UserOk(db.users, requester);
    UpdateUserKeepsValid(db.users, db.messages, requester, updated);
    db.users := db.users[requester := updated];
    return Ok(updated.contacts);
  }

  /** removeContact: every occurrence of the id leaves the contact list;
      no check on the id. */
  method RemoveContact(db: Database, requester: UserId, contactId: UserId) returns (r: Result<seq<UserId>>)
    requires db.Valid() && requester in db.users
    modifies db`users
    ensures db.Valid()
    ensures var me := old(db.users)[requester];
      && db.users == old(db.users)[requester := me.(contacts := Pull(me.contacts, contactId))]
      && r == Ok(db.users[requester].contacts)
  {
    var me := db.users[requester];
    var updated := me.(contacts := Pull(me.contacts, contactId));
    assert UserOk(db.users, requester);
    PullKeepsNoDup(me.contacts, contactId);
    UpdateUserKeepsValid(db.users, db.messages, requester, updated);
    db.users := db.users[requester := updated];
    return Ok(updated.contacts);
  }

  /** blockUser: a request without `userId` throws at the self check
      (`undefined.toString()`), and the `catch` reports it. Then the
      requester's own id is refused, then an unknown id; otherwise the id
      joins the block list unless already there. The contact list is left
      as it is. */
  method BlockUser(db: Database, requester: UserId, target: Option<UserId>) returns (r: Result<seq<UserId>>)
    requires db.Valid() && requester in db.users
    modifies db`users
    ensures db.Valid()
    ensures target.None? ==> r == Fail(UndefinedUserId)
    ensures target == Some(requester) ==> r == Fail(CannotBlockSelf)
    ensures target.Some? && target.value != requester && target.value !in old(db.users) ==> r == Fail(UserNotFound)
    ensures r.Ok? <==> target.Some? && target.value != requester && target.value in old(db.users)
    ensures r.Fail? ==> db.users == old(db.users)
    ensures r.Ok? ==>
      var me := old(db.users)[requester];
      && db.users == old(db.users)[requester := me.(blockedUsers := AddToSet(me.blockedUsers, target.value))]
      && db.users[requester].contacts == me.contacts
      && r.value == db.users[requester].blockedUsers
  {
    if target.None? {
      return Fail(UndefinedUserId);
    }
    var userId := target.value;
    if userId == requester {
      return Fail(CannotBlockSelf);
    }
    if userId !in db.users {
      return Fail(UserNotFound);
    }
    var me := db.users[requester];
    var updated := me.(blockedUsers := AddToSet(me.blockedUsers, userId));
    assert UserOk(db.users, requester);
    UpdateUserKeepsValid(db.users, db.messages, requester, updated);
    db.users := db.users[requester := updated];
    return Ok(updated.blockedUsers);
  }

  /** unblockUser: every occurrence of the id leaves the block list. */
  method UnblockUser(db: Database, requester: UserId, userId: UserId) returns (r: Result<seq<UserId>>)
    requires db.Valid() && requester in db.users
    modifies db`users
    ensures db.Valid()
    ensures var me := old(db.users)[requester];
      && db.users == old(db.users)[requester := me.(blockedUsers := Pull(me.blockedUsers, userId))]
      && r == Ok(db.users[requester].blockedUsers)
  {
    var me := db.users[requester];
    var updated := me.(blockedUsers := Pull(me.blockedUsers, userId));
    assert UserOk(db.users, requester);
    PullKeepsNoDup(me.blockedUsers, userId);
    UpdateUserKeepsValid(db.users, db.messages, requester, updated);
    db.users := db.users[requester := updated];
    return Ok(updated.blockedUsers);
  }
}
