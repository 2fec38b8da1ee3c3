/** The user document (models/User.js): its fields, the defaults a new
    document receives, and the password validators of the schema. */
module UserModel {

  import opened Common

  /** A stored user. `password` holds whatever the handler assigned to it,
      which is the bcrypt hash; `bio` has no default and may be absent. */
  datatype User = User(
    email: string,
    fullName: string,
    password: string,
    profilePic: string,
    bio: Option<string>,
    contacts: seq<UserId>,
    blockedUsers: seq<UserId>)

  /** A user as the handlers return it: `select("-password")` and
      `populate(..., "-password")` drop the password field. */
  datatype Profile = Profile(
    id: UserId,
    email: string,
    fullName: string,
    profilePic: string,
    bio: Option<string>,
    contacts: seq<UserId>,
    blockedUsers: seq<UserId>)

  function PublicView(id: UserId, u: User): (p: Profile)
    ensures p.id == id && p.email == u.email && p.fullName == u.fullName
    ensures p.profilePic == u.profilePic && p.bio == u.bio
    ensures p.contacts == u.contacts && p.blockedUsers == u.blockedUsers
  {
    Profile(id, u.email, u.fullName, u.profilePic, u.bio, u.contacts, u.blockedUsers)
  }

  /** `User.create({ fullName, email, password, bio })`: the fields it is
      given, and the schema defaults for the rest (`profilePic: ""`, empty
      `contacts` and `blockedUsers` arrays). */
  function CreateUser(email: string, fullName: string, password: string, bio: string): User {
    User(email, fullName, password, "", Some(bio), [], [])
  }

  /** A new user has no picture and empty contact and block lists. */
  lemma CreatedUserDefaults(email: string, fullName: string, password: string, bio: string)
    ensures var u := CreateUser(email, fullName, password, bio);
      && u.profilePic == "" && u.contacts == [] && u.blockedUsers == []
      && u.email == email && u.fullName == fullName && u.password == password && u.bio == Some(bio)
  {
  }

  /** The characters of the validator's class `[!@#$%^&*()_+\-=\[\]{};':"\\|,.<>\/?]`. */
  const SpecialChars: set<char> :=
    {'!', '@', '#', '$', '%', '^', '&', '*', '(', ')', '_', '+', '-', '=', '[', ']',
     '{', '}', ';', '\'', ':', '"', '\\', '|', ',', '.', '<', '>', '/', '?'}

  /** The regular expression test, scanning the value left to right. */
  predicate HasSpecialChar(s: string) {
    s != [] && (s[0] in SpecialChars || HasSpecialChar(s[1..]))
  }

  /** The validators of the `password` path: `minlength: 6` and the
      special-character validator. Mongoose runs them on the value being
      stored. */
  predicate PasswordValid(s: string) {
    |s| >= 6 && HasSpecialChar(s)
  }

  /** What `create()` and `save()` check of a whole document: `email` and
      `fullName` are `required`, which refuses the empty string, and the
      password passes its validators. `findByIdAndUpdate` checks none of
      this, so a stored record may fail it (an empty `fullName`). */
  function DocumentValid(u: User): (ok: bool)
    ensures ok <==> && u.email != "" && u.fullName != "" && |u.password| >= 6
                    && exists i :: 0 <= i < |u.password| && u.password[i] in SpecialChars
  {
    PasswordValidIff(u.password);
    u.email != "" && u.fullName != "" && PasswordValid(u.password)
  }

  /** The scan finds a special character iff the value holds one somewhere. */
  lemma {:induction false} HasSpecialCharIff(s: string)
    ensures HasSpecialChar(s) <==> exists i :: 0 <= i < |s| && s[i] in SpecialChars
  {
    if s != [] {
      HasSpecialCharIff(s[1..]);
      if HasSpecialChar(s[1..]) {
        var i :| 0 <= i < |s[1..]| && s[1..][i] in SpecialChars;
        assert s[i + 1] in SpecialChars;
      }
      if exists i :: 0 <= i < |s| && s[i] in SpecialChars {
        var i :| 0 <= i < |s| && s[i] in SpecialChars;
        if i > 0 {
          assert s[1..][i - 1] in SpecialChars;
        }
      }
    }
  }

  /** The password validators accept a value iff it has at least six
      characters and one of them is in the special-character class. */
  lemma PasswordValidIff(s: string)
    ensures PasswordValid(s) <==> |s| >= 6 && exists i :: 0 <= i < |s| && s[i] in SpecialChars
  {
    HasSpecialCharIff(s);
  }

  /** bcrypt's output starts with `$2a$` / `$2b$` and is 60 characters long,
      so the validators, which run on the stored hash and not on the
      plaintext, accept every such value: the policy never constrains the
      password a user chooses. */
  lemma BcryptShapedValueIsValid(s: string)
    requires |s| >= 6 && s[0] == '$'
    ensures PasswordValid(s)
  {
  }

  /** A plaintext without any special character, rejected by the validators
      if they were ever applied to it. */
  lemma WeakPlaintextIsInvalid()
    ensures !PasswordValid("abcdefgh")
  {
    PasswordValidIff("abcdefgh");
  }
}
