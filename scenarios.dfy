/** Client code driving the handlers the way a run of the server would,
    showing what callers can conclude from the handlers' contracts alone. */
module Scenarios {

  import opened Common
  import opened UserModel
  import opened Store
  import opened Server
  import opened UserController
  import opened MessageController
  import opened OtpModel
  import opened AuthController

  /** A hash function of bcrypt's shape, standing in for the real one. */
  function FakeBcrypt(plain: string, salt: string): string {
    "$2b$10$" + salt + plain
  }

  /** User "u" connects on socket "s1", reconnects on "s2", and the first
      connection's disconnect arrives late: "u" is then absent from the
      map although "s2" is still open. */
  method StaleDisconnect() {
    var io := new SocketServer();
    var first := Connection("s1", Some("u"));
    var second := Connection("s2", Some("u"));
    io.OnConnection(first);
    io.OnConnection(second);
    assert io.userSocketMap["u"] == "s2";
    io.OnDisconnect(first);
    assert "u" !in io.userSocketMap;
    assert io.userSocketMap == map[];
    assert io.userSocketMap.Keys == {};
    assert |io.emitted| == 3;
    assert io.emitted[2] == ToAll(GetOnlineUsers({}));
  }

  /** A plaintext the validators would reject is accepted at signup,
      because they only see the hash. */
  method SignupWithWeakPassword() {
    var db := new Database();
    BcryptShapedValueIsValid(FakeBcrypt("abcdefgh", "salt"));
    var r := Signup(db, Some("Ann"), Some("ann@example.com"), Some("abcdefgh"), Some("hello"),
                    FakeBcrypt, "salt", "u1");
    assert r == Ok("u1");
    WeakPlaintextIsInvalid();
    assert !PasswordValid("abcdefgh");
  }

  /** A fresh store with two users "a" and "b" and empty lists. */
  method TwoUsers() returns (db: Database)
    ensures fresh(db) && db.Valid()
    ensures "a" in db.users && "b" in db.users && db.users["b"].blockedUsers == []
    ensures db.messages == map[]
  {
    db := new Database();
    BcryptShapedValueIsValid(FakeBcrypt("pw", "s"));
    var ra := Signup(db, Some("A"), Some("a@example.com"), Some("pw"), Some("bio"), FakeBcrypt, "s", "a");
    assert ra.Ok?;
    BcryptShapedValueIsValid(FakeBcrypt("pw", "t"));
    var rb := Signup(db, Some("B"), Some("b@example.com"), Some("pw"), Some("bio"), FakeBcrypt, "t", "b");
    assert rb.Ok?;
  }

  /** "a" sends to "b" while "b" is connected: "b"'s socket receives exactly
      one `newMessage`, carrying "a" as sender, the text and `seen == false`. */
  method SendToLiveReceiver() {
    var db := TwoUsers();
    var io := new SocketServer();
    io.OnConnection(Connection("sb", Some("b")));
    var before := |io.emitted|;
    var sent := SendMessage(db, io, "a", "b", Some("hi"), None, None, Fail(UploadFailed), "m1");
    assert sent == Ok("m1");
    assert io.emitted[before..] == [ToSocket("sb", NewMessage("m1", db.messages["m1"], "a", "b"))];
    assert db.messages["m1"].senderId == "a" && db.messages["m1"].text == Some("hi");
    assert !db.messages["m1"].seen;
  }

  /** "a" sends to "b" while "b" is offline: nothing is pushed, and the
      message is in "b"'s conversation with "a" afterwards. */
  method SendToOfflineReceiver() {
    var db := TwoUsers();
    var io := new SocketServer();
    var sent := SendMessage(db, io, "a", "b", Some("later"), None, None, Fail(UploadFailed), "m2");
    assert sent == Ok("m2");
    assert io.emitted == [];
    assert "m2" in GetMessages(db.messages, "b", "a");
  }

  /** A profile update that empties `fullName` goes through, since the
      update runs no validators. */
  method SignupThenEmptyName() returns (db: Database)
    ensures fresh(db) && db.Valid()
    ensures db.users.Keys == {"u1"} && db.otps == []
    ensures db.users["u1"].email == "ann@example.com" && db.users["u1"].fullName == ""
  {
    db := new Database();
    BcryptShapedValueIsValid(FakeBcrypt("pw", "s"));
    var signed := Signup(db, Some("Ann"), Some("ann@example.com"), Some("pw"), Some("bio"),
                         FakeBcrypt, "s", "u1");
    assert signed == Ok("u1");
    var updated := UserController.UpdateProfile(db, "u1", None, None, Some(""), Fail(UploadFailed));
    assert updated.Ok?;
  }

  /** After that update, a password reset with a good code is refused by
      `save()`, and both the old password and the code survive it. */
  method ResetAfterEmptiedName() {
    var db := SignupThenEmptyName();
    assert "u1" in db.users;
    assert EmailTaken(db.users, "ann@example.com");
    var requested := RequestPasswordReset(db, "ann@example.com", 123456, 0, "o1", true);
    assert requested.Ok?;
    var code := OtpCode(123456);
    assert db.otps == [OtpRecord("o1", "ann@example.com", code, OtpLifetimeMs)];
    var users, otps := db.users, db.otps;
    var reset := ResetPassword(db, Some("ann@example.com"), Some(code), Some("new-pw"), 1000,
                               FakeBcrypt, "t");
    assert Matches(otps[0], "ann@example.com", code);
    assert !Expired(otps[0], 1000);
    assert reset == Fail(ValidationFailed);
    assert db.users == users && db.otps == otps;
  }
}
