/** Stateless input guards for signup and sign-in. Each returns `None` when the
    input is acceptable and otherwise an error tagged with its own field. */
module Validation {
  import opened Entity

  /** The outcome of `net/mail.ParseAddress` (address syntax of RFC 5322,
      section 3.4): true when the string parses as an address. */
  type AddressParser = string -> bool

  function ValidateEmail(parseAddress: AddressParser, email: string): (r: Option<Error>)
    ensures email == "" <==> r == Some(ValidationError("email", "email is required"))
    ensures email != "" && !parseAddress(email) <==> r == Some(ValidationError("email", "email is invalid"))
    ensures r.None? <==> email != "" && parseAddress(email)
  {
    if email == "" then
      Some(ValidationError("email", "email is required"))
    else if !parseAddress(email) then
      Some(ValidationError("email", "email is invalid"))
    else
      None
  }

  function ValidatePassword(password: string): (r: Option<Error>)
    ensures r.Some? <==> password == ""
    ensures r.Some? ==> r.value == ValidationError("password", "password is required")
  {
    if password == "" then Some(ValidationError("password", "password is required")) else None
  }

  /** The roles a user may hold. */
  predicate IsRole(role: string) {
    role == "regular" || role == "superuser"
  }

  /** An absent role is accepted (signup fills in the default later). */
  function ValidateRole(role: Option<string>): (r: Option<Error>)
    ensures r.None? <==> role.None? || IsRole(role.value)
    ensures r.Some? ==> r.value == ValidationError("role", "role is not regular or superuser")
  {
    if role.None? then None
    else if !IsRole(role.value) then Some(ValidationError("role", "role is not regular or superuser"))
    else None
  }
}
