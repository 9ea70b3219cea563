/** The credential check and the two callbacks of lib/auth.ts that carry a
    signed-in user's id into the JWT and from the JWT into the session. */
module Auth {
  import opened Js

  const DemoEmail := "demo@example.com"
  const DemoPassword := "password"

  /** The `credentials` object the sign-in form posts; either field may be missing. */
  datatype Credentials = Credentials(email: Option<string>, password: Option<string>)

  /** The user record a provider hands to the callbacks. */
  datatype User = User(id: string, name: string, email: string)

  /** The claims `getToken` decodes from the session cookie. */
  datatype TokenClaims = TokenClaims(name: Option<string>, email: Option<string>, id: Option<string>)

  /** `authorize(credentials)`: the one hard-coded demo account is accepted, by
      exact comparison of both fields, and every other input is refused. */
  function Authorize(credentials: Option<Credentials>): (r: Option<User>)
    ensures r.Some? <==>
      credentials.Some? && credentials.value.email == Some(DemoEmail) && credentials.value.password == Some(DemoPassword)
    ensures r.Some? ==> r.value == User("1", "Demo User", credentials.value.email.value)
  {
    if credentials.Some? && credentials.value.email == Some(DemoEmail) && credentials.value.password == Some(DemoPassword)
    then Some(User("1", "Demo User", credentials.value.email.value))
    else None
  }

  /** The JWT that next-auth passes to, and takes back from, the `jwt` callback. */
  class Jwt {
    var name: Option<string>
    var email: Option<string>
    var id: Option<string>

    constructor (name: Option<string>, email: Option<string>)
      ensures this.name == name && this.email == email && id.None?
    {
      this.name, this.email, this.id := name, email, None;
    }
  }

  /** `session.user` of the session object. */
  class SessionUser {
    var name: Option<string>
    var email: Option<string>
    var id: Option<string>

    constructor (name: Option<string>, email: Option<string>)
      ensures this.name == name && this.email == email && id.None?
    {
      this.name, this.email, this.id := name, email, None;
    }
  }

  class Session {
    var user: SessionUser?

    constructor (user: SessionUser?)
      ensures this.user == user
    {
      this.user := user;
    }
  }

  /** The `jwt` callback: with a user, the token takes the user's id; without
      one, the token is returned as it was. The same object is returned. */
  method JwtCallback(token: Jwt, user: Option<User>) returns (r: Jwt)
    modifies token
    ensures r == token
    ensures token.id == if user.Some? then Some(user.value.id) else old(token.id)
    ensures token.name == old(token.name) && token.email == old(token.email)
  {
    if user.Some? {
      token.id := Some(user.value.id);
    }
    r := token;
  }

  /** The `session` callback: when there is a token and a `session.user`, the
      user's id becomes the token's id (missing if the token has none);
      otherwise nothing changes. The same session object is returned. */
  method SessionCallback(session: Session, token: Jwt?) returns (r: Session)
    modifies session.user
    ensures r == session && session.user == old(session.user)
    ensures session.user != null && token != null ==> session.user.id == token.id
    ensures session.user != null && token == null ==> session.user.id == old(session.user.id)
    ensures session.user != null ==>
      session.user.name == old(session.user.name) && session.user.email == old(session.user.email)
  {
    if token != null && session.user != null {
      session.user.id := token.id;
    }
    r := session;
  }

  /** A credentials sign-in from start to end: `authorize`, then the `jwt`
      callback with the user it returned, then the `session` callback. The demo
      account ends with id "1" in both token and session; any other input
      leaves both ids as they were. */
  method SignIn(credentials: Option<Credentials>, token: Jwt, session: Session) returns (user: Option<User>)
    requires session.user != null
    modifies token, session.user
    ensures user == Authorize(credentials)
    ensures user.Some? ==> token.id == Some("1") && session.user.id == Some("1")
    ensures user.None? ==> token.id == old(token.id) && session.user.id == old(token.id)
  {
    user := Authorize(credentials);
    var t := JwtCallback(token, user);
    var s := SessionCallback(session, t);
  }
}
