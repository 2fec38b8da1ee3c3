/** Shared vocabulary of the chat backend: identifiers, optional request
    fields, and the outcome every handler reports in its JSON response. */
module Common {

  /** A user's `_id`, compared through `toString()` everywhere in the
      handlers. Every id is taken in its one canonical spelling (lower-case
      hex), the form `toString()` gives. */
  type UserId = string

  /** A message's `_id`. */
  type MessageId = string

  datatype Option<+T> = None | Some(value: T) {
    function GetOr(default: T): T {
      match this
      case Some(v) => v
      case None => default
    }
  }

  /** Why a handler answered `{ success: false, message }`. The first group
      are the handlers' own guard messages; the second group are the
      exceptions its `catch` turns into a failure response. */
  datatype Error =
    | AllFieldsRequired       // "All fields are required"
    | UserAlreadyExists       // "User already exists"
    | InvalidCredentials      // "Invalid credentials"
    | UserNotFound            // "User not found"
    | CannotAddSelf           // "Cannot add yourself as a contact"
    | CannotBlockSelf         // "Cannot block yourself"
    | BlockedByUser           // "You are blocked by this user"
    | RepliedMessageNotFound  // "Replied message not found"
    | MessageNotFound         // "Message not found"
    | UnauthorizedDelete      // "Unauthorized to delete this message"
    | EmailNotFound           // "Email not found"
    | InvalidOrExpiredOtp     // "Invalid or expired OTP"
    | OtpExpired              // "OTP has expired"
    | NullReceiver            // TypeError: reading `blockedUsers` of a missing receiver
    | UploadFailed            // the image host rejected the upload
    | ValidationFailed        // the schema validators rejected the document
    | EmailSendFailed         // "Failed to send OTP email"
    | UndefinedUserId         // TypeError: calling `toString` of a missing `userId`
    | IllegalArguments        // bcrypt.compare given a non-string: "Illegal arguments: undefined, string"

  /** The `success` flag of a response, with its payload or its error. */
  datatype Result<+T> = Ok(value: T) | Fail(error: Error)

  /** JavaScript truthiness of an optional string field of a request body:
      `undefined` and `""` are both falsy. */
  predicate Truthy(field: Option<string>) {
    field.Some? && field.value != ""
  }
}
