/**
 * The authentication routes of the API: a credential store, a process-wide
 * session registry keyed by user id, and the six request handlers that act
 * on them.  Register, login and logout change the registry in place and are
 * methods of `AuthServer`; profile, check-session and the sessions listing
 * only read it and are functions of the registry's value.
 *
 * The token library and the password hash are collaborators: a token oracle
 * (`TokenOracle`, sound by `Sound`) and an exact password comparison.  The
 * clock is the `now` parameter, in milliseconds.
 */
module Auth {
  import opened Wrappers
  import opened Bearer
  import Decimal

  // ---------------------------------------------------------------------
  // Data model

  /** A stored user; `password` stands for the salted hash kept by the store. */
  datatype User = User(id: string, name: string, email: string, password: string)

  /** An entry of the session registry. */
  datatype Session = Session(userId: string, email: string, name: string, loginTime: int)

  /** What a response shows of a user: never the password. */
  datatype UserView = UserView(id: string, name: string, email: string)

  /** The JSON body of a response, one variant per shape the handlers send. */
  datatype Body =
    | ErrorBody(error: string)
    | Issued(id: string, name: string, email: string, token: string, message: string)
    | Notice(message: string)
    | SessionList(activeSessions: seq<Session>, totalSessions: nat)
    | ProfileBody(profileUser: Option<UserView>, loginTime: int, sessionDuration: int)
    | SessionValid(user: UserView, loginTime: int, sessionDuration: int)
    | SessionInvalid(message: string)

  datatype Response = Response(status: int, body: Body)

  const MinPasswordLength := 6

  /** The tokens' lifetime, `expiresIn: '30d'`, in whole seconds as the token's `exp` counts it. */
  const TokenLifetime := 30 * 24 * 60 * 60

  const AllFieldsRequired := "All fields are required"
  const PasswordTooShort := "Password must be at least 6 characters"
  const UserExists := "User already exists with this email"
  const RegistrationSuccessful := "Registration successful!"
  const CredentialsRequired := "Email and password are required"
  const InvalidCredentials := "Invalid email or password"
  const LoginSuccessful := "Login successful!"
  const NoTokenProvided := "No token provided"
  const LogoutFailed := "Logout failed"
  const LogoutSuccessful := "Logout successful"
  const NotAuthorizedNoToken := "Not authorized, no token"
  const SessionExpired := "Session expired"
  const NotAuthorizedTokenFailed := "Not authorized, token failed"
  const NoToken := "No token"
  const InvalidToken := "Invalid token"

  // ---------------------------------------------------------------------
  // Collaborators

  /**
   * The token library: `mint(id, iat)` signs a token for user `id` at time
   * `iat`; `verify(token, now)` gives the id the token was signed for, or
   * None when the signature is wrong or the token has expired.
   */
  datatype TokenOracle = TokenOracle(mint: (string, int) -> string, verify: (string, int) -> Option<string>)

  /**
   * What the model relies on of the token library: a minted token fits in a
   * Bearer header, and verifies to its id until it expires.  Both times are
   * read in whole seconds: the token's issue time is `iat / 1000`, it expires
   * at `iat / 1000 + TokenLifetime`, and it is refused once `now / 1000`
   * reaches that (NumericDate, section 2 of RFC 7519).
   */
  ghost predicate Sound(jwt: TokenOracle) {
    (forall id, iat :: jwt.mint(id, iat) != "" && ' ' !in jwt.mint(id, iat)) &&
    (forall id, iat, now :: iat <= now && now / 1000 < iat / 1000 + TokenLifetime ==>
       jwt.verify(jwt.mint(id, iat), now) == Some(id))
  }

  /** `user.correctPassword(candidate, user.password)`. */
  predicate CorrectPassword(u: User, candidate: string) {
    u.password == candidate
  }

  /** A request field the handlers reject with `!field`: absent or empty. */
  predicate Missing(field: Option<string>) {
    field.None? || field.value == ""
  }

  /** The id the store gives the n-th user created (a stand-in for an ObjectId). */
  function IdOf(n: nat): string {
    Decimal.NatToString(n)
  }

  /** The fields the handlers look a stored user up by. */
  datatype Key = ByEmail | ById

  function KeyOf(u: User, key: Key): string {
    match key
    case ByEmail => u.email
    case ById => u.id
  }

  /** A query of the store: the first stored user whose `key` field is `value`. */
  function Find(users: seq<User>, key: Key, value: string): (r: Option<User>)
    ensures r.Some? ==> r.value in users && KeyOf(r.value, key) == value
    ensures r.None? <==> forall i :: 0 <= i < |users| ==> KeyOf(users[i], key) != value
  {
    if users == [] then None
    else if KeyOf(users[0], key) == value then Some(users[0])
    else Find(users[1..], key, value)
  }

  /** `User.findOne({ email })`. */
  function FindByEmail(users: seq<User>, email: string): Option<User> {
    Find(users, ByEmail, email)
  }

  /** `User.findById(id)`. */
  function FindById(users: seq<User>, id: string): Option<User> {
    Find(users, ById, id)
  }

  function ViewOf(u: User): UserView {
    UserView(u.id, u.name, u.email)
  }

  // ---------------------------------------------------------------------
  // Invariants of the store and the registry

  /** Users are kept in creation order, with the ids the store handed out and distinct emails. */
  ghost predicate StoreValid(users: seq<User>) {
    (forall i :: 0 <= i < |users| ==> users[i].id == IdOf(i)) &&
    (forall i, j :: 0 <= i < j < |users| ==> users[i].email != users[j].email)
  }

  predicate Distinct(s: seq<string>) {
    forall i, j :: 0 <= i < j < |s| ==> s[i] != s[j]
  }

  /** `order` is the registry's iteration order: each key once. */
  ghost predicate OrderValid(sessions: map<string, Session>, order: seq<string>) {
    Distinct(order) && forall k :: k in sessions <==> k in order
  }

  /** A registry entry caches the stored user with the entry's key as id. */
  ghost predicate Mirrors(sessions: map<string, Session>, users: seq<User>) {
    forall k :: k in sessions ==>
      sessions[k].userId == k && FindById(users, k).Some? &&
      sessions[k].email == FindById(users, k).value.email &&
      sessions[k].name == FindById(users, k).value.name
  }

  /** The order with `x` taken out: what `Map.delete` does to the iteration order. */
  function Without(s: seq<string>, x: string): (r: seq<string>)
    ensures forall y :: y in r <==> y in s && y != x
    ensures Distinct(s) ==> Distinct(r)
    ensures x !in s ==> r == s
  {
    if s == [] then []
    else if s[0] == x then Without(s[1..], x)
    else
      var rest := Without(s[1..], x);
      assert Distinct(s) ==> s[0] !in s[1..];
      [s[0]] + rest
  }

  /** `Map.delete` keeps the other keys in their order: the key is cut out where it stood. */
  lemma WithoutCutsOut(s: seq<string>, x: string)
    requires Distinct(s) && x in s
    ensures exists k :: 0 <= k < |s| && s[k] == x && Without(s, x) == s[..k] + s[k + 1..]
  {
    var k :| 0 <= k < |s| && s[k] == x;
    WithoutAt(s, x, k);
  }

  /** Taking out the key at position `k` of an order without repeats. */
  lemma {:induction false} WithoutAt(s: seq<string>, x: string, k: nat)
    requires Distinct(s) && k < |s| && s[k] == x
    ensures Without(s, x) == s[..k] + s[k + 1..]
  {
    var tail := s[1..];
    DistinctTail(s);
    if k == 0 {
      assert x !in tail;
      assert Without(s, x) == Without(tail, x) == tail;
      assert s[..0] + s[1..] == tail;
    } else {
      assert s[0] != s[k];
      assert tail[k - 1] == x;
      assert Without(s, x) == [s[0]] + Without(tail, x);
      WithoutAt(tail, x, k - 1);
      CutAfterHead(s, k);
    }
  }

  /** Removing repeats is inherited by the tail, which does not hold the head. */
  lemma DistinctTail(s: seq<string>)
    requires Distinct(s) && s != []
    ensures Distinct(s[1..]) && s[0] !in s[1..]
  {
    var tail := s[1..];
    forall i, j | 0 <= i < j < |tail| ensures tail[i] != tail[j] {
      assert tail[i] == s[i + 1] && tail[j] == s[j + 1];
    }
    forall j | 0 <= j < |tail| ensures tail[j] != s[0] {
      assert tail[j] == s[j + 1];
    }
  }

  /** Cutting position `k > 0` out of `s` is keeping the head and cutting `k - 1` out of the tail. */
  lemma CutAfterHead(s: seq<string>, k: nat)
    requires 0 < k < |s|
    ensures s[..k] + s[k + 1..] == [s[0]] + (s[1..][..k - 1] + s[1..][k..])
  {
    assert s[..k] == [s[0]] + s[1..][..k - 1];
    assert s[k + 1..] == s[1..][k..];
  }

  // ---------------------------------------------------------------------
  // Lemmas about the store

  /** The id handed to the next user belongs to no stored user. */
  lemma FreshId(users: seq<User>)
    requires StoreValid(users)
    ensures FindById(users, IdOf(|users|)).None?
  {
    forall i | 0 <= i < |users|
      ensures users[i].id != IdOf(|users|)
    {
      if users[i].id == IdOf(|users|) {
        Decimal.NatToStringInjective(i, |users|);
      }
    }
  }

  /** Looking a stored user up by its id finds that user. */
  lemma FindByIdOfMember(users: seq<User>, u: User)
    requires StoreValid(users) && u in users
    ensures FindById(users, u.id) == Some(u)
  {
    var i :| 0 <= i < |users| && users[i] == u;
    var v := FindById(users, u.id).value;
    var j :| 0 <= j < |users| && users[j] == v;
    Decimal.NatToStringInjective(i, j);
  }

  /** Appending a user changes an id lookup only where it found nothing before. */
  lemma {:induction false} FindByIdAppend(users: seq<User>, u: User, id: string)
    ensures FindById(users + [u], id) ==
      if FindById(users, id).Some? then FindById(users, id)
      else if u.id == id then Some(u) else None
  {
    if users != [] {
      assert (users + [u])[1..] == users[1..] + [u];
      FindByIdAppend(users[1..], u, id);
    }
  }

  /** A sequence without repetitions has as many elements as positions. */
  lemma {:induction false} DistinctSetSize(s: seq<string>)
    requires Distinct(s)
    ensures |(set x | x in s)| == |s|
  {
    if s != [] {
      var tail := s[1..];
      assert Distinct(tail) by {
        forall i, j | 0 <= i < j < |tail| ensures tail[i] != tail[j] {
          assert tail[i] == s[i + 1] && tail[j] == s[j + 1];
        }
      }
      DistinctSetSize(tail);
      assert (set x | x in s) == (set x | x in tail) + {s[0]};
      assert s[0] !in (set x | x in tail);
    }
  }

  /** A registry with a consistent order has one key per position. */
  lemma OrderSize(sessions: map<string, Session>, order: seq<string>)
    requires OrderValid(sessions, order)
    ensures |sessions| == |order|
  {
    assert sessions.Keys == (set x | x in order);
    DistinctSetSize(order);
  }

  // ---------------------------------------------------------------------
  // The changes the handlers make keep the invariants

  /** Creating a user with the next id and a new email keeps the store valid. */
  lemma CreateKeepsStoreValid(users: seq<User>, u: User)
    requires StoreValid(users)
    requires u.id == IdOf(|users|) && FindByEmail(users, u.email).None?
    ensures StoreValid(users + [u])
  {
    var users' := users + [u];
    assert forall i :: 0 <= i < |users| ==> users[i].email != u.email;
    forall i | 0 <= i < |users'| ensures users'[i].id == IdOf(i) {
      if i < |users| {
        assert users'[i] == users[i];
      }
    }
    forall i, j | 0 <= i < j < |users'| ensures users'[i].email != users'[j].email {
      assert users'[i] == users[i];
      if j < |users| {
        assert users'[j] == users[j];
      }
    }
  }

  /** Opening the session of a newly created user keeps the invariants. */
  lemma CreateKeepsInvariants(users: seq<User>, sessions: map<string, Session>, order: seq<string>, u: User, now: int)
    requires StoreValid(users) && OrderValid(sessions, order) && Mirrors(sessions, users)
    requires u.id == IdOf(|users|) && FindByEmail(users, u.email).None?
    ensures u.id !in sessions
    ensures StoreValid(users + [u])
    ensures OrderValid(sessions[u.id := Session(u.id, u.email, u.name, now)], order + [u.id])
    ensures Mirrors(sessions[u.id := Session(u.id, u.email, u.name, now)], users + [u])
  {
    FreshId(users);
    CreateKeepsStoreValid(users, u);
    UnstoredIdNotOpen(users, sessions, u.id);
    OpenNewKeepsOrder(sessions, order, u.id, Session(u.id, u.email, u.name, now));
    NewSessionMirrors(users, sessions, u, now);
  }

  /** No registry entry has an id the store does not hold. */
  lemma UnstoredIdNotOpen(users: seq<User>, sessions: map<string, Session>, id: string)
    requires Mirrors(sessions, users)
    requires FindById(users, id).None?
    ensures id !in sessions
  {
  }

  /** A new key is appended to the iteration order. */
  lemma OpenNewKeepsOrder(sessions: map<string, Session>, order: seq<string>, k: string, v: Session)
    requires OrderValid(sessions, order) && k !in sessions
    ensures OrderValid(sessions[k := v], order + [k])
  {
    assert k !in order;
    var order' := order + [k];
    forall i, j | 0 <= i < j < |order'| ensures order'[i] != order'[j] {
      if j < |order| {
        assert order'[i] == order[i] && order'[j] == order[j];
      }
    }
  }

  /** Overwriting an existing key leaves the iteration order as it is. */
  lemma OverwriteKeepsOrder(sessions: map<string, Session>, order: seq<string>, k: string, v: Session)
    requires OrderValid(sessions, order) && k in sessions
    ensures OrderValid(sessions[k := v], order)
  {
  }

  /** The session of a user appended to the store caches that user; earlier entries keep theirs. */
  lemma NewSessionMirrors(users: seq<User>, sessions: map<string, Session>, u: User, now: int)
    requires Mirrors(sessions, users)
    requires FindById(users, u.id).None?
    ensures Mirrors(sessions[u.id := Session(u.id, u.email, u.name, now)], users + [u])
  {
    var sessions' := sessions[u.id := Session(u.id, u.email, u.name, now)];
    forall k | k in sessions'
      ensures sessions'[k].userId == k
      ensures FindById(users + [u], k).Some?
      ensures sessions'[k].email == FindById(users + [u], k).value.email
      ensures sessions'[k].name == FindById(users + [u], k).value.name
    {
      FindByIdAppend(users, u, k);
    }
  }

  /** Opening the session of a stored user keeps the invariants. */
  lemma LoginKeepsInvariants(users: seq<User>, sessions: map<string, Session>, order: seq<string>, u: User, now: int)
    requires StoreValid(users) && OrderValid(sessions, order) && Mirrors(sessions, users)
    requires u in users
    ensures OrderValid(sessions[u.id := Session(u.id, u.email, u.name, now)],
                       if u.id in sessions then order else order + [u.id])
    ensures Mirrors(sessions[u.id := Session(u.id, u.email, u.name, now)], users)
  {
    FindByIdOfMember(users, u);
    var v := Session(u.id, u.email, u.name, now);
    if u.id in sessions {
      OverwriteKeepsOrder(sessions, order, u.id, v);
    } else {
      OpenNewKeepsOrder(sessions, order, u.id, v);
    }
    StoredSessionMirrors(users, sessions, u, now);
  }

  /** The session of a user the store finds by its id caches that user. */
  lemma StoredSessionMirrors(users: seq<User>, sessions: map<string, Session>, u: User, now: int)
    requires Mirrors(sessions, users)
    requires FindById(users, u.id) == Some(u)
    ensures Mirrors(sessions[u.id := Session(u.id, u.email, u.name, now)], users)
  {
  }

  /** Closing the session of any id keeps the invariants. */
  lemma LogoutKeepsInvariants(users: seq<User>, sessions: map<string, Session>, order: seq<string>, id: string)
    requires OrderValid(sessions, order) && Mirrors(sessions, users)
    ensures OrderValid(sessions - {id}, Without(order, id))
    ensures Mirrors(sessions - {id}, users)
  {
  }

  // ---------------------------------------------------------------------
  // The read-only handlers

  /** The user id of a request's token, when it carries one that verifies. */
  function VerifiedId(header: Option<string>, now: int, jwt: TokenOracle): Option<string>
  {
    match ExtractToken(header)
    case None => None
    case Some(token) => jwt.verify(token, now)
  }

  /**
   * The one authorization condition of the protected routes: a token that
   * verifies, and a registry entry for its id.
   */
  predicate Authorized(sessions: map<string, Session>, header: Option<string>, now: int, jwt: TokenOracle) {
    VerifiedId(header, now, jwt).Some? && VerifiedId(header, now, jwt).value in sessions
  }

  /** GET /check-session: never an error status; valid exactly when authorized. */
  function CheckSession(sessions: map<string, Session>, header: Option<string>, now: int, jwt: TokenOracle): (r: Response)
    ensures r.status == 200
    ensures r.body.SessionValid? <==> Authorized(sessions, header, now, jwt)
    ensures Authorized(sessions, header, now, jwt) ==>
      var id := VerifiedId(header, now, jwt).value;
      r.body.user == UserView(id, sessions[id].name, sessions[id].email) &&
      r.body.loginTime == sessions[id].loginTime &&
      r.body.sessionDuration == now - sessions[id].loginTime
    ensures !Authorized(sessions, header, now, jwt) ==>
      r.body == SessionInvalid(
        if ExtractToken(header).None? then NoToken
        else if VerifiedId(header, now, jwt).None? then InvalidToken
        else SessionExpired)
  {
    match ExtractToken(header)
    case None => Response(200, SessionInvalid(NoToken))
    case Some(token) =>
      match jwt.verify(token, now)
      case None => Response(200, SessionInvalid(InvalidToken))
      case Some(id) =>
        if id in sessions then
          var s := sessions[id];
          Response(200, SessionValid(UserView(id, s.name, s.email), s.loginTime, now - s.loginTime))
        else Response(200, SessionInvalid(SessionExpired))
  }

  /**
   * GET /profile.  `storeError` says that `User.findById` raises; the store
   * is consulted only once the session check has passed.
   */
  function Profile(sessions: map<string, Session>, users: seq<User>, header: Option<string>, now: int,
                   jwt: TokenOracle, storeError: bool): (r: Response)
    ensures r.status == 200 || r.status == 401
    ensures r.status == 200 <==> Authorized(sessions, header, now, jwt) && !storeError
    ensures r.status == 200 ==>
      var id := VerifiedId(header, now, jwt).value;
      var u := FindById(users, id);
      r.body == ProfileBody(if u.Some? then Some(ViewOf(u.value)) else None,
                            sessions[id].loginTime, now - sessions[id].loginTime)
    ensures ExtractToken(header).None? ==> r == Response(401, ErrorBody(NotAuthorizedNoToken))
    ensures ExtractToken(header).Some? && VerifiedId(header, now, jwt).None? ==>
      r == Response(401, ErrorBody(NotAuthorizedTokenFailed))
    ensures VerifiedId(header, now, jwt).Some? && VerifiedId(header, now, jwt).value !in sessions ==>
      r == Response(401, ErrorBody(SessionExpired))
    ensures Authorized(sessions, header, now, jwt) && storeError ==>
      r == Response(401, ErrorBody(NotAuthorizedTokenFailed))
  {
    match ExtractToken(header)
    case None => Response(401, ErrorBody(NotAuthorizedNoToken))
    case Some(token) =>
      match jwt.verify(token, now)
      case None => Response(401, ErrorBody(NotAuthorizedTokenFailed))
      case Some(id) =>
        if id !in sessions then Response(401, ErrorBody(SessionExpired))
        else if storeError then Response(401, ErrorBody(NotAuthorizedTokenFailed))
        else
          var s := sessions[id];
          var u := FindById(users, id);
          Response(200, ProfileBody(if u.Some? then Some(ViewOf(u.value)) else None,
                                    s.loginTime, now - s.loginTime))
  }

  /** GET /sessions: every registry entry, in the registry's iteration order, and their number. */
  function ListSessions(sessions: map<string, Session>, order: seq<string>): (r: Response)
    requires OrderValid(sessions, order)
    ensures r.status == 200 && r.body.SessionList?
    ensures r.body.totalSessions == |sessions| == |r.body.activeSessions| == |order|
    ensures forall i :: 0 <= i < |order| ==> r.body.activeSessions[i] == sessions[order[i]]
  {
    OrderSize(sessions, order);
    var items := seq(|order|, i requires 0 <= i < |order| => sessions[order[i]]);
    Response(200, SessionList(items, |sessions|))
  }

  /** The listing leaves no registry entry out. */
  lemma ListingCoversRegistry(sessions: map<string, Session>, order: seq<string>, k: string)
    requires OrderValid(sessions, order)
    requires k in sessions
    ensures sessions[k] in ListSessions(sessions, order).body.activeSessions
  {
    var i :| 0 <= i < |order| && order[i] == k;
    assert ListSessions(sessions, order).body.activeSessions[i] == sessions[k];
  }

  /** For a consistent state, profile shows the very user check-session reconstructs from the registry. */
  lemma ProfileAgreesWithCheckSession(sessions: map<string, Session>, users: seq<User>, header: Option<string>,
                                      now: int, jwt: TokenOracle)
    requires Mirrors(sessions, users)
    requires Authorized(sessions, header, now, jwt)
    ensures Profile(sessions, users, header, now, jwt, false).body ==
      var c := CheckSession(sessions, header, now, jwt).body;
      ProfileBody(Some(c.user), c.loginTime, c.sessionDuration)
  {
  }

  // ---------------------------------------------------------------------
  // The state and the handlers that change it

  class AuthServer {
    /** The user collection, in creation order. */
    var users: seq<User>
    /** `activeSessions`, keyed by user id. */
    var sessions: map<string, Session>
    /** The keys of `activeSessions` in insertion order. */
    var order: seq<string>

    ghost predicate Valid()
      reads this
    {
      StoreValid(users) && OrderValid(sessions, order) && Mirrors(sessions, users)
    }

    constructor ()
      ensures Valid()
      ensures users == [] && sessions == map[] && order == []
    {
      users, sessions, order := [], map[], [];
    }

    /** `activeSessions.set(s.userId, s)`: a new key goes last, an existing key keeps its place. */
    method PutSession(s: Session)
      modifies this
      ensures users == old(users)
      ensures sessions == old(sessions)[s.userId := s]
      ensures order == if s.userId in old(sessions) then old(order) else old(order) + [s.userId]
    {
      if s.userId !in sessions {
        order := order + [s.userId];
      }
      sessions := sessions[s.userId := s];
    }

    /** `activeSessions.delete(id)`. */
    method DeleteSession(id: string)
      modifies this
      ensures users == old(users)
      ensures sessions == old(sessions) - {id}
      ensures order == Without(old(order), id)
    {
      sessions := sessions - {id};
      order := Without(order, id);
    }

    /**
     * POST /register.  `storeError` is the message of an error the store
     * raises while it is consulted.
     */
    method Register(name: Option<string>, email: Option<string>, password: Option<string>, now: int,
                    jwt: TokenOracle, storeError: Option<string>) returns (r: Response)
      requires Valid()
      modifies this
      ensures Valid()
      ensures Missing(name) || Missing(email) || Missing(password) ==>
        r == Response(400, ErrorBody(AllFieldsRequired)) && unchanged(this)
      ensures !Missing(name) && !Missing(email) && !Missing(password) && |password.value| < MinPasswordLength ==>
        r == Response(400, ErrorBody(PasswordTooShort)) && unchanged(this)
      ensures !Missing(name) && !Missing(email) && !Missing(password) && |password.value| >= MinPasswordLength ==>
        if storeError.Some? then
          r == Response(400, ErrorBody(storeError.value)) && unchanged(this)
        else if FindByEmail(old(users), email.value).Some? then
          r == Response(400, ErrorBody(UserExists)) && unchanged(this)
        else
          var id := IdOf(|old(users)|);
          users == old(users) + [User(id, name.value, email.value, password.value)] &&
          sessions == old(sessions)[id := Session(id, email.value, name.value, now)] &&
          order == old(order) + [id] &&
          r == Response(201, Issued(id, name.value, email.value, jwt.mint(id, now), RegistrationSuccessful))
    {
      if Missing(name) || Missing(email) || Missing(password) {
        return Response(400, ErrorBody(AllFieldsRequired));
      }
      if |password.value| < MinPasswordLength {
        return Response(400, ErrorBody(PasswordTooShort));
      }
      if storeError.Some? {
        return Response(400, ErrorBody(storeError.value));
      }
      if FindByEmail(users, email.value).Some? {
        return Response(400, ErrorBody(UserExists));
      }
      var id := IdOf(|users|);
      var user := User(id, name.value, email.value, password.value);
      CreateKeepsInvariants(users, sessions, order, user, now);
      users := users + [user];
      PutSession(Session(user.id, user.email, user.name, now));
      var token := jwt.mint(user.id, now);
      r := Response(201, Issued(user.id, user.name, user.email, token, RegistrationSuccessful));
    }

    /** POST /login.  An unknown email and a wrong password get the same answer. */
    method Login(email: Option<string>, password: Option<string>, now: int, jwt: TokenOracle,
                 storeError: Option<string>) returns (r: Response)
      requires Valid()
      modifies this
      ensures Valid()
      ensures Missing(email) || Missing(password) ==>
        r == Response(400, ErrorBody(CredentialsRequired)) && unchanged(this)
      ensures !Missing(email) && !Missing(password) ==>
        var found := FindByEmail(old(users), email.value);
        if storeError.Some? then
          r == Response(400, ErrorBody(storeError.value)) && unchanged(this)
        else if found.None? || !CorrectPassword(found.value, password.value) then
          r == Response(401, ErrorBody(InvalidCredentials)) && unchanged(this)
        else
          var u := found.value;
          users == old(users) &&
          sessions == old(sessions)[u.id := Session(u.id, u.email, u.name, now)] &&
          order == (if u.id in old(sessions) then old(order) else old(order) + [u.id]) &&
          r == Response(200, Issued(u.id, u.name, u.email, jwt.mint(u.id, now), LoginSuccessful))
    {
      if Missing(email) || Missing(password) {
        return Response(400, ErrorBody(CredentialsRequired));
      }
      if storeError.Some? {
        return Response(400, ErrorBody(storeError.value));
      }
      var found := FindByEmail(users, email.value);
      if found.None? || !CorrectPassword(found.value, password.value) {
        return Response(401, ErrorBody(InvalidCredentials));
      }
      var user := found.value;
      LoginKeepsInvariants(users, sessions, order, user, now);
      PutSession(Session(user.id, user.email, user.name, now));
      var token := jwt.mint(user.id, now);
      r := Response(200, Issued(user.id, user.name, user.email, token, LoginSuccessful));
    }

    /** POST /logout: removes the token's registry entry, present or not. */
    method Logout(header: Option<string>, now: int, jwt: TokenOracle) returns (r: Response)
      requires Valid()
      modifies this
      ensures Valid()
      ensures ExtractToken(header).None? ==>
        r == Response(400, ErrorBody(NoTokenProvided)) && unchanged(this)
      ensures ExtractToken(header).Some? && VerifiedId(header, now, jwt).None? ==>
        r == Response(400, ErrorBody(LogoutFailed)) && unchanged(this)
      ensures VerifiedId(header, now, jwt).Some? ==>
        var id := VerifiedId(header, now, jwt).value;
        users == old(users) &&
        sessions == old(sessions) - {id} &&
        order == Without(old(order), id) &&
        r == Response(200, Notice(LogoutSuccessful))
    {
      var token := ExtractToken(header);
      if token.None? {
        return Response(400, ErrorBody(NoTokenProvided));
      }
      var decoded := jwt.verify(token.value, now);
      if decoded.None? {
        return Response(400, ErrorBody(LogoutFailed));
      }
      LogoutKeepsInvariants(users, sessions, order, decoded.value);
      DeleteSession(decoded.value);
      r := Response(200, Notice(LogoutSuccessful));
    }
  }
}
