/** Vocabulary shared by the services: nullable values, identities, the
    domain errors the services raise, and Java's notion of a blank string. */
module Common {

  /** A Java reference that may be null. */
  datatype Option<+T> = None | Some(value: T) {
    /** The value, or `default` when null. */
    function GetOr(default: T): T {
      match this
      case Some(v) => v
      case None => default
    }
  }

  /** A database identity (a `Long` primary key). */
  type Id = int

  /** A clock reading (`LocalDateTime`); the model only stores and compares it. */
  type Instant = int

  /** One constructor per `CustomException` message the services throw. */
  datatype Error =
    | AdminRegistrationForbidden   // "role ADMIN cannot register"
    | UsernameTaken                // "a user with this login already exists"
    | UnpRequired                  // "UNP is mandatory for a client"
    | UnpRejected                  // "UNP failed validation"
    | UnpNotInRegistry             // "UNP not found in the reference table"
    | UnpTaken                     // "a user with this UNP already exists"
    | CompanyNameRequired          // "company name is mandatory for a client"
    | DriverCompanyName            // "a driver must not carry a company name"
    | UserNotFound
    | ClientIdRequired
    | ClientNotFound
    | DeclarationTypeRequired
    | ProductDescriptionRequired
    | ProductValueInvalid          // null or negative product value
    | DeclarationNotFound
    | DeclarationNotEditable       // edit of a declaration that is not PENDING
    | DeclarationNotDeletable      // delete of a declaration that is not PENDING
    | LicensePlateRequired
    | LicensePlateTaken
    | VehicleNotFound

  /** The outcome of an operation that returns a value or throws. */
  datatype Result<+T> = Success(value: T) | Failure(error: Error)

  /** The outcome of an operation that returns nothing or throws. */
  datatype Outcome = Pass | Fail(error: Error)

  /** The characters `String.trim()` strips: every code point up to U+0020. */
  predicate IsTrimmable(c: char) {
    c <= ' '
  }

  /** The leading part of `String.trim()`: drop trimmable characters from the front. */
  function TrimStart(s: string): (r: string)
    ensures |r| <= |s| && r == s[|s| - |r|..]
    ensures forall i :: 0 <= i < |s| - |r| ==> IsTrimmable(s[i])
    ensures r == [] || !IsTrimmable(r[0])
  {
    if |s| > 0 && IsTrimmable(s[0]) then TrimStart(s[1..]) else s
  }

  /** The trailing part of `String.trim()`: drop trimmable characters from the back. */
  function TrimEnd(s: string): (r: string)
    ensures |r| <= |s| && r == s[..|r|]
    ensures forall i :: |r| <= i < |s| ==> IsTrimmable(s[i])
    ensures r == [] || !IsTrimmable(r[|r| - 1])
  {
    if |s| > 0 && IsTrimmable(s[|s| - 1]) then TrimEnd(s[..|s| - 1]) else s
  }

  /** `String.trim()`. */
  function Trim(s: string): string {
    TrimEnd(TrimStart(s))
  }

  /** `s == null || s.trim().isEmpty()`: the services' test for a missing
      text field, stated on the characters (see `BlankMeansTrimmedEmpty`). */
  predicate IsBlank(s: Option<string>) {
    s.None? || forall i :: 0 <= i < |s.value| ==> IsTrimmable(s.value[i])
  }

  /** The blank test agrees with Java's: null, or empty after `trim()`. */
  lemma BlankMeansTrimmedEmpty(s: Option<string>)
    ensures IsBlank(s) <==> s.None? || Trim(s.value) == []
  {
  }
}
