/** Error kinds and result wrappers shared by the user and post models.
    Go returns a plain `error` value; the model keeps only which kind of
    error it is, not its message text. */
module Outcomes {

  /** Go's `uint` on a 64-bit platform: the type of every ID field. */
  newtype Uint = x: int | 0 <= x < 0x1_0000_0000_0000_0000

  datatype Option<+T> = None | Some(value: T)

  datatype Error =
    | NameRequired        // "Name is a required field"
    | PasswordRequired    // "Password is a required field"
    | EmailRequired       // "Email is a required field"
    | InvalidEmail        // "Invalid Email format: [...]"
    | UnsupportedAction   // "Unsupported action [...]"
    | TitleRequired       // "Title is a require field"
    | ContentRequired     // "Content is a require field"
    | InvalidUserId       // "A valid user ID is required"
    | HashFailed          // the error returned by the password hash
    | RecordNotFound      // the database found no matching row
    | DatabaseFailure     // any other error the database reports

  /** A Go `error` result: nil (`Ok`) or an error of some kind. */
  datatype Outcome = Ok | Fail(error: Error)

  /** The outcome of a validator that reports the first unmet requirement:
      nil when the list of unmet requirements is empty, its head otherwise. */
  function FirstOf(violations: seq<Error>): Outcome
  {
    if violations == [] then Ok else Fail(violations[0])
  }
}
