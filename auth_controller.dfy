/** controllers/authController.js: the password-reset flow. A request
    stores a six-digit code for an existing email and mails it; a reset
    consumes a matching, unexpired code and replaces the password hash.
    The clock (`now`, in milliseconds), the random draw (`code`), the mail
    delivery (`mailSent`) and bcrypt (`hash`, `salt`) are supplied by the
    caller. */
module AuthController {

  import opened Common
  import opened Decimal
  import opened UserModel
  import opened OtpModel
  import opened Store

  /** The string `crypto.randomInt(100000, 999999).toString()` produces. */
  function OtpCode(code: nat): string {
    ToDecimal(code)
  }

  /** An issued code is six decimal digits, with no leading zero, that read
      back as the drawn number; since `randomInt` excludes its upper bound,
      that number lies in [100000, 999999). */
  lemma IssuedCodeShape(code: nat)
    requires 100000 <= code < 999999
    ensures |OtpCode(code)| == 6 && AllDigits(OtpCode(code)) && OtpCode(code)[0] != '0'
    ensures Parse(OtpCode(code)) == code
    ensures 100000 <= Parse(OtpCode(code)) < 999999
  {
    assert Pow10(5) == 100000 && Pow10(6) == 1000000;
    ToDecimalLength(code, 6);
    ParseToDecimal(code);
  }

  /** requestPasswordReset: an unknown email is refused and stores nothing.
      Otherwise a record with the code and an expiry ten minutes from now
      is stored, and then the mail is sent; if sending fails the handler
      reports the failure but the record stays. */
  method RequestPasswordReset(db: Database, email: string, code: nat, now: int,
                              newOtpId: string, mailSent: bool)
    returns (r: Result<()>)
    requires db.Valid()
    requires 100000 <= code < 999999
    requires forall k :: 0 <= k < |db.otps| ==> db.otps[k].id != newOtpId
    modifies db`otps
    ensures db.Valid()
    ensures !EmailTaken(db.users, email) ==> r == Fail(EmailNotFound) && db.otps == old(db.otps)
    ensures EmailTaken(db.users, email) ==>
      && db.otps == old(db.otps) + [OtpRecord(newOtpId, email, OtpCode(code), now + OtpLifetimeMs)]
      && (r.Ok? <==> mailSent)
      && (r.Fail? ==> r.error == EmailSendFailed)
  {
    var user := db.FindUserByEmail(email);
    if user.None? {
      return Fail(EmailNotFound);
    }
    var otp := OtpCode(code);
    var expiresAt := now + OtpLifetimeMs;
    db.otps := db.otps + [OtpRecord(newOtpId, email, otp, expiresAt)];
    if !mailSent {
      return Fail(EmailSendFailed);
    }
    return Ok(());
  }

  /** `user.save()` with the new hash accepts the record of the user
      holding `email`: the whole document is validated, not only the
      password just assigned. */
  ghost predicate SaveAccepts(users: map<UserId, User>, email: string, hashed: string) {
    exists id :: id in users && users[id].email == email && DocumentValid(users[id].(password := hashed))
  }

  predicate ResetFieldsGiven(email: Option<string>, otp: Option<string>, newPassword: Option<string>) {
    Truthy(email) && Truthy(otp) && Truthy(newPassword)
  }

  /** resetPassword. Missing fields, and then a code with no record for
      that email, are refused with nothing changed. A record found past its
      expiry (strictly: `expiresAt < now`) is deleted and the reset
      refused. A record still good with no user for the email, or a user
      record that `save()` rejects with the new hash in it (a bad hash, or
      an empty `fullName` left by an earlier profile update), leaves
      everything as it was. Otherwise
      the user's password becomes the hash of the new one and exactly the
      matched record is deleted. */
  method ResetPassword(db: Database, email: Option<string>, otp: Option<string>,
                       newPassword: Option<string>, now: int,
                       hash: (string, string) -> string, salt: string)
    returns (r: Result<()>)
    requires db.Valid()
    modifies db`users, db`otps
    ensures db.Valid()
    ensures r.Fail? && r.error != OtpExpired ==> db.users == old(db.users) && db.otps == old(db.otps)
    ensures !ResetFieldsGiven(email, otp, newPassword) ==> r == Fail(AllFieldsRequired)
    ensures ResetFieldsGiven(email, otp, newPassword) ==>
      var found := FindOtp(old(db.otps), email.value, otp.value);
      && (found.None? ==> r == Fail(InvalidOrExpiredOtp))
      && (found.Some? && Expired(old(db.otps)[found.value], now) ==>
            r == Fail(OtpExpired) && db.users == old(db.users)
            && db.otps == RemoveAt(old(db.otps), found.value))
      && ((found.Some? && !Expired(old(db.otps)[found.value], now) && !EmailTaken(old(db.users), email.value))
          ==> r == Fail(UserNotFound))
      && ((found.Some? && !Expired(old(db.otps)[found.value], now) && EmailTaken(old(db.users), email.value)
           && !SaveAccepts(old(db.users), email.value, hash(newPassword.value, salt)))
          ==> r == Fail(ValidationFailed))
      && (r.Ok? <==> found.Some? && !Expired(old(db.otps)[found.value], now)
                     && SaveAccepts(old(db.users), email.value, hash(newPassword.value, salt)))
      && (r.Ok? ==>
            exists id ::
              && id in old(db.users) && old(db.users)[id].email == email.value
              && db.users == old(db.users)[id := old(db.users)[id].(password := hash(newPassword.value, salt))]
              && db.otps == RemoveAt(old(db.otps), found.value))
  {
    if !(Truthy(email) && Truthy(otp) && Truthy(newPassword)) {
      return Fail(AllFieldsRequired);
    }
    var found := FindOtp(db.otps, email.value, otp.value);
    if found.None? {
      return Fail(InvalidOrExpiredOtp);
    }
    var i := found.value;
    if db.otps[i].expiresAt < now {
      RemoveKeepsOtpIdsUnique(db.otps, i);
      db.otps := RemoveAt(db.otps, i);
      return Fail(OtpExpired);
    }
    var user := db.FindUserByEmail(email.value);
    if user.None? {
      return Fail(UserNotFound);
    }
    var id := user.value;
    var hashedPassword := hash(newPassword.value, salt);
    var updated := db.users[id].(password := hashedPassword);
    if !DocumentValid(updated) {
      return Fail(ValidationFailed);
    }
    assert UserOk(db.users, id);
    UpdateUserKeepsValid(db.users, db.messages, id, updated);
    db.users := db.users[id := updated];
    RemoveKeepsOtpIdsUnique(db.otps, i);
    db.otps := RemoveAt(db.otps, i);
    return Ok(());
  }
}
