/**
 * Request sequences against a freshly started server, with what the
 * handlers' contracts let a client conclude about their answers.
 */
module Scenarios {
  import opened Wrappers
  import opened Bearer
  import opened Auth

  /**
   * Register, then check the session with the issued token, log out, check
   * again, and log out a second time.
   */
  method RegisterCheckLogout(jwt: TokenOracle, t0: int, t1: int)
    returns (registered: Response, valid: Response, loggedOut: Response, expired: Response, again: Response)
    requires Sound(jwt)
    requires t0 <= t1 && t1 / 1000 < t0 / 1000 + TokenLifetime
    ensures registered.status == 201
    ensures valid.body.SessionValid? && valid.body.user.email == "a@x.com" && valid.body.user.name == "A"
    ensures valid.body.sessionDuration == t1 - t0
    ensures loggedOut == Response(200, Notice(LogoutSuccessful))
    ensures expired == Response(200, SessionInvalid(SessionExpired))
    ensures again == loggedOut
  {
    var server := new AuthServer();
    registered := server.Register(Some("A"), Some("a@x.com"), Some("secret1"), t0, jwt, None);
    var id := IdOf(0);
    var token := registered.body.token;
    assert token == jwt.mint(id, t0);
    var header := Some(BearerHeader(token));
    BearerRoundTrip(token);
    valid := CheckSession(server.sessions, header, t1, jwt);
    loggedOut := server.Logout(header, t1, jwt);
    expired := CheckSession(server.sessions, header, t1, jwt);
    again := server.Logout(header, t1, jwt);
  }

  /** The same email registered twice: the second attempt is refused and changes nothing. */
  method RegisterTwice(jwt: TokenOracle, now: int) returns (first: Response, second: Response, users: nat, sessions: nat)
    ensures first.status == 201
    ensures second == Response(400, ErrorBody(UserExists))
    ensures users == 1 && sessions == 1
  {
    var server := new AuthServer();
    first := server.Register(Some("A"), Some("a@x.com"), Some("secret1"), now, jwt, None);
    assert server.users[0].email == "a@x.com";
    second := server.Register(Some("B"), Some("a@x.com"), Some("secret2"), now, jwt, None);
    users, sessions := |server.users|, |server.sessions|;
  }

  /** Five characters are too few for a password, six are enough. */
  method PasswordLength(jwt: TokenOracle, now: int) returns (short: Response, enough: Response)
    ensures short == Response(400, ErrorBody(PasswordTooShort))
    ensures enough.status == 201
  {
    var server := new AuthServer();
    short := server.Register(Some("A"), Some("a@x.com"), Some("abcde"), now, jwt, None);
    enough := server.Register(Some("A"), Some("a@x.com"), Some("abcdef"), now, jwt, None);
  }

  /** A wrong password and an unknown email get the very same answer. */
  method LoginFailures(jwt: TokenOracle, now: int) returns (wrongPassword: Response, unknownEmail: Response)
    ensures wrongPassword == unknownEmail == Response(401, ErrorBody(InvalidCredentials))
  {
    var server := new AuthServer();
    var _ := server.Register(Some("A"), Some("a@x.com"), Some("secret1"), now, jwt, None);
    wrongPassword := server.Login(Some("a@x.com"), Some("secret2"), now, jwt, None);
    unknownEmail := server.Login(Some("b@x.com"), Some("secret1"), now, jwt, None);
  }

  /**
   * Two logins of the same user: the registry keeps one entry for the user,
   * with the later login time, and the earlier token sees it.
   */
  method LoginTwice(jwt: TokenOracle, t0: int, t1: int, t2: int)
    returns (entries: map<string, Session>, check: Response)
    requires Sound(jwt)
    requires t0 <= t1 <= t2 && t2 / 1000 < t1 / 1000 + TokenLifetime
    ensures entries == map[IdOf(0) := Session(IdOf(0), "a@x.com", "A", t2)]
    ensures check.body.SessionValid? && check.body.loginTime == t2 && check.body.sessionDuration == 0
  {
    var token;
    entries, token := RegisterAndLogInTwice(jwt, t0, t1, t2);
    BearerRoundTrip(token);
    check := CheckSession(entries, Some(BearerHeader(token)), t2, jwt);
  }

  /** The requests of `LoginTwice`: the registry they leave and the token of the first login. */
  method RegisterAndLogInTwice(jwt: TokenOracle, t0: int, t1: int, t2: int)
    returns (entries: map<string, Session>, token: string)
    ensures entries == map[IdOf(0) := Session(IdOf(0), "a@x.com", "A", t2)]
    ensures token == jwt.mint(IdOf(0), t1)
  {
    var server := RegisteredServer(jwt, t0);
    assert FindByEmail(server.users, "a@x.com") == Some(server.users[0]);
    var first := server.Login(Some("a@x.com"), Some("secret1"), t1, jwt, None);
    token := first.body.token;
    assert FindByEmail(server.users, "a@x.com") == Some(server.users[0]);
    var _ := server.Login(Some("a@x.com"), Some("secret1"), t2, jwt, None);
    entries := server.sessions;
  }

  /** A fresh server after user A registers at `t0`. */
  method RegisteredServer(jwt: TokenOracle, t0: int) returns (server: AuthServer)
    ensures fresh(server) && server.Valid()
    ensures server.users == [User(IdOf(0), "A", "a@x.com", "secret1")]
    ensures server.sessions == map[IdOf(0) := Session(IdOf(0), "a@x.com", "A", t0)]
  {
    server := new AuthServer();
    var _ := server.Register(Some("A"), Some("a@x.com"), Some("secret1"), t0, jwt, None);
  }
}
