/** The single static credential pair behind HTTP Basic authentication. */
module Auth {
  import opened Wrappers

  /** The configured `BAUSR`. */
  const BasicAuthUser: string := "anton"
  /** The configured `BAPWD`. */
  const BasicAuthPassword: string := "thisisasecretpassword"

  /** `get_password`: the password registered for `username`, if any. */
  function GetPassword(username: string): (r: Option<string>)
    ensures r.Some? <==> username == BasicAuthUser
    ensures r.Some? ==> r.value == BasicAuthPassword
  {
    if username == BasicAuthUser then Some(BasicAuthPassword) else None
  }

  /**
   * The check the Basic-auth layer makes with `get_password`: the password
   * sent must equal the one registered for the user sent.
   */
  predicate Authenticated(username: string, password: string)
    // exactly one credential pair is accepted: the configured one
    ensures Authenticated(username, password) <==>
            username == BasicAuthUser && password == BasicAuthPassword
  {
    GetPassword(username) == Some(password)
  }
}
