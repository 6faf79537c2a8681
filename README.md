# Authentication sessions and dashboard durations, in Dafny

This project models two parts of a small full-stack demo. The first is the
API's authentication routes (`backend/routes/auth.js`). The second is the
computed text of the frontend dashboard (`frontend/src/components/Dashboard.jsx`).

**Backend.** A user store and the process-wide session registry
`activeSessions` are fields of the class `Auth.AuthServer`:

- `users` is the user collection, in creation order.
- `sessions` is the registry, keyed by user id.
- `order` is the registry's insertion order. A JavaScript `Map` lists its
  entries in that order.

Register, login and logout change these fields in place, so they are methods.
Each method's postcondition gives the exact response and the exact new state:

- which key is set or deleted;
- that everything else is unchanged;
- that `Valid()` is preserved.

`Valid()` is the object invariant:

- stored users carry the ids the store handed out, and emails are distinct;
- `order` lists each registry key exactly once;
- every registry entry caches the stored user whose id is its key.

Profile, check-session and the sessions listing only read the registry. They
are functions of the registry's value, so they cannot change it.

The collaborators are abstracted:

- The token library is a `TokenOracle`: a `mint` function and a `verify`
  function.
- `Sound` states what the scenarios rely on. A minted token is non-empty and
  has no space. It verifies to its user id until it expires. Both times are
  read in whole seconds, as the token's `iat` and `exp` are: a token minted
  at `t0` milliseconds is accepted while `now / 1000 < t0 / 1000 + 2592000`.
- The password check is an exact comparison.
- The clock is an integer parameter `now`, in milliseconds.

Bearer-token extraction (`authorization?.split(' ')[1]`, then `!token`) is
modelled exactly. `Text.Split` is JavaScript's `split(' ')`, and
`Bearer.IsSecondField` is an index-based reference definition proved
equivalent to the extraction.

**Frontend.** `formatDuration` is modelled on safe integers (magnitude at
most 2^53 - 1), where JavaScript's arithmetic on doubles is exact:

- `Math.floor(a / b)` with a positive divisor is Dafny's `/`.
- JavaScript's `%` is written out as `JsRem`.

The computation is split into the breakdown (`ShapeOf`) and the template
literals (`Render`). Two further definitions are proved to agree with it:

- `Describes`, a reference definition of the breakdown. `ShapeOf` is proved
  to satisfy it, and it is proved to admit no other breakdown.
- `ParseDuration`, a parser that reads every written form back.

The `'N/A'` guard and the active-sessions card are functions. `CardOfListing`
connects the card to the backend's listing.

Three behaviours of the code that a reader might not expect are modelled as
written:

- Logout with a token that fails verification answers 400 "Logout failed"
  (`backend/routes/auth.js` lines 127-129).
- A duplicate email at registration answers 400, like the other registration
  errors (lines 34-35).
- The sessions listing asks for no token (lines 133-147).

## Model

| member | source | states |
|---|---|---|
| `Text.Split` | backend/routes/auth.js:115 | `split(' ')` gives at least one field, and no field contains a space |
| `Text.JoinSplit` | backend/routes/auth.js:115 | joining the fields with single spaces gives back the header |
| `Text.SplitJoin` | backend/routes/auth.js:115 | space-free fields joined by spaces split back into the same fields |
| `Text.SplitNoSpace` | backend/routes/auth.js:115 | a string without a space is a single field |
| `Text.SplitAppend` | backend/routes/auth.js:115 | a space between two strings separates their fields: `split(a + ' ' + b)` is `split(a)` followed by `split(b)` |
| `Bearer.ExtractToken` | backend/routes/auth.js:115-119 | a token that is present is non-empty and has no space; a missing header gives no token |
| `Bearer.ExtractTokenIsSecondField` | backend/routes/auth.js:115-119 | the token is `t` iff `t` is non-empty and is the text after the header's first space, up to the next space or the end (both directions) |
| `Bearer.ExtractFromParts` | backend/routes/auth.js:152-154 | first field, space, `t`, then nothing or a space: the token is `t`, or no token when `t` is empty |
| `Bearer.NoSpaceNoToken` | backend/routes/auth.js:183-185 | a header with no space carries no token |
| `Bearer.EmptyBearerNoToken` | backend/routes/auth.js:115-118 | `"Bearer "` carries no token |
| `Bearer.BearerHeader` | frontend/src/components/Dashboard.jsx:15 | the client's `Bearer ${token}` header; `Bearer.BearerRoundTrip` shows the server reads the token back from it |
| `Bearer.BearerRoundTrip` | frontend/src/components/Dashboard.jsx:15 | a `Bearer ${token}` header built by the client yields that token back, for a non-empty space-free token |
| `Decimal.NatToString` | frontend/src/components/Dashboard.jsx:39-41 | the decimal text of a number is non-empty and all digits, with no leading zero: it starts with `0` only for zero, which is written "0" |
| `Decimal.ValueOfNatToString` | frontend/src/components/Dashboard.jsx:39-41 | the decimal text denotes the number it was written from |
| `Decimal.NatToStringInjective` | frontend/src/components/Dashboard.jsx:39-41 | different numbers have different texts |
| `Decimal.IntToString` | frontend/src/components/Dashboard.jsx:39-41 | an integer's text, with a minus sign for negatives, is non-empty and has no space |
| `Decimal.ParseNegative` | frontend/src/components/Dashboard.jsx:39-41 | a minus sign followed by the digits of a positive `n` reads back as `-n` |
| `Decimal.ParseIntToString` | frontend/src/components/Dashboard.jsx:39-41 | an integer's text parses back to that integer |
| `Auth.CorrectPassword` | backend/routes/auth.js:84 | the password check, an exact comparison with the stored password; `Scenarios.LoginFailures` shows that a wrong one is refused like an unknown email |
| `Auth.Missing` | backend/routes/auth.js:24 | `!field` on a request field (also line 77): absent or empty; `Auth.AuthServer.Register` and `Auth.AuthServer.Login` answer 400 exactly then |
| `Auth.Find` | backend/routes/auth.js:33 | a store query returns a stored user whose key field has the value asked for, and returns nothing exactly when no stored user has it |
| `Auth.FindByEmail` | backend/routes/auth.js:33-34 | `findOne({ email })`: `Auth.Find` by email, with its contract |
| `Auth.FindById` | backend/routes/auth.js:166 | `findById`: `Auth.Find` by id, with its contract; `Auth.FindByIdOfMember` and `Auth.FreshId` say what it finds in a valid store |
| `Auth.FreshId` | backend/routes/auth.js:39-43 | the id given to a newly created user belongs to no stored user |
| `Auth.FindByIdOfMember` | backend/routes/auth.js:82-89 | in a valid store, looking up a stored user's id finds that very user |
| `Auth.FindByIdAppend` | backend/routes/auth.js:39-43 | creating a user leaves every earlier id lookup unchanged |
| `Auth.Without` | backend/routes/auth.js:124 | deleting a key from the iteration order keeps every other key and drops that one; it keeps the order free of repeats, and it changes nothing when the key is absent |
| `Auth.WithoutCutsOut` | backend/routes/auth.js:124 | deleting a key that is present cuts it out where it stood: the other keys keep their relative order |
| `Auth.WithoutAt` | backend/routes/auth.js:124 | the key at position `k` of an order without repeats is cut out at `k`: the result is the keys before `k` followed by the keys after it |
| `Auth.DistinctSetSize` | backend/routes/auth.js:142 | a sequence without repeats has as many distinct elements as positions |
| `Auth.OrderSize` | backend/routes/auth.js:142 | `activeSessions.size` equals the number of keys in the iteration order |
| `Auth.CreateKeepsStoreValid` | backend/routes/auth.js:33-43 | a user created with the next id and an email no stored user has keeps the ids in creation order and the emails distinct |
| `Auth.UnstoredIdNotOpen` | backend/routes/auth.js:50-55 | a consistent registry has no entry for an id the store does not hold |
| `Auth.OpenNewKeepsOrder` | backend/routes/auth.js:50 | setting a key the registry lacks and appending it to the order keeps each key listed exactly once |
| `Auth.OverwriteKeepsOrder` | backend/routes/auth.js:89 | setting a key the registry already holds keeps the same order consistent |
| `Auth.NewSessionMirrors` | backend/routes/auth.js:39-55 | after a user is appended, that user's new entry and every earlier entry still cache the stored user with their key as id |
| `Auth.CreateKeepsInvariants` | backend/routes/auth.js:39-55 | registration's new id has no registry entry yet, and creating the user and opening its session keep all three invariants |
| `Auth.StoredSessionMirrors` | backend/routes/auth.js:89-94 | overwriting the entry of a stored user with that user's email and name keeps every entry a cache of the store |
| `Auth.LoginKeepsInvariants` | backend/routes/auth.js:84-94 | login's `Map.set` keeps the order consistent, whether the key is new or already present, and keeps every entry a cache of the store |
| `Auth.LogoutKeepsInvariants` | backend/routes/auth.js:124 | `Map.delete` of any id, present or not, keeps the order consistent and the remaining entries caches of the store |
| `Auth.CheckSession` | backend/routes/auth.js:181-211 | status is always 200; `valid` is true iff the token is present, verifies and has a registry entry; then `_id` comes from the token, and name, email and login time come from the entry, with duration `now - loginTime`; otherwise the message is "No token", "Invalid token" or "Session expired" according to which step failed |
| `Auth.Profile` | backend/routes/auth.js:150-178 | status is 200 or 401, and 200 iff authorized and the store did not fail; no token gives "Not authorized, no token"; a failed verification gives "Not authorized, token failed"; no entry gives "Session expired"; success shows the stored user without the password, the login time and `now - loginTime` |
| `Auth.ListSessions` | backend/routes/auth.js:133-143 | status 200; one item per registry entry in insertion order, each item that entry; `totalSessions` is the size of the registry |
| `Auth.ListingCoversRegistry` | backend/routes/auth.js:135-138 | every registry entry appears in the listing |
| `Auth.ProfileAgreesWithCheckSession` | backend/routes/auth.js:166-173 | in a consistent state, profile shows the user that check-session rebuilds from the registry's cache (lines 193-203), with the same login time and duration |
| `Auth.AuthServer.constructor` | backend/routes/auth.js:16 | the server starts with no users and an empty registry, and the invariant holds |
| `Auth.AuthServer.PutSession` | backend/routes/auth.js:50-55 | `Map.set` sets exactly that key; a new key goes last in the iteration order, and an existing key keeps its place |
| `Auth.AuthServer.DeleteSession` | backend/routes/auth.js:124 | `Map.delete` removes exactly that key; the order loses that key only |
| `Auth.AuthServer.Register` | backend/routes/auth.js:19-69 | rejections come in order, each 400 and changing nothing: a missing or empty field ("All fields are required"), then a password under 6 characters, then a store error with its message, then an existing email ("User already exists with this email"); otherwise one user is appended with a fresh id, exactly that id's entry is set to {id, email, name, now}, the order gains that id, and the answer is 201 with the token minted for the id; the invariant is kept |
| `Auth.AuthServer.Login` | backend/routes/auth.js:72-110 | a missing field gives 400 and changes nothing; a store error gives 400 with its message and changes nothing; an unknown email and a wrong password both give the same 401 "Invalid email or password" and change nothing; success overwrites exactly the user's entry with loginTime `now`, keeps the user's place in the order, leaves the store alone, and answers 200 with a fresh token |
| `Auth.AuthServer.Logout` | backend/routes/auth.js:113-130 | no token gives 400 "No token provided" and changes nothing; a failed verification gives 400 "Logout failed" and changes nothing; a verified token removes exactly its id's entry, whether or not one existed, and answers 200 "Logout successful" |
| `Scenarios.RegisterCheckLogout` | backend/routes/auth.js:19-69 | after registration, check-session with the issued token is valid with the registered name and email and duration `t1 - t0`; logout succeeds; check-session on the same unexpired token then gives "Session expired"; a second logout succeeds in the same way (lines 113-130, 181-211) |
| `Scenarios.RegisterTwice` | backend/routes/auth.js:33-36 | registering an email a second time gives 400 "User already exists with this email", with still one user and one session |
| `Scenarios.PasswordLength` | backend/routes/auth.js:28-30 | a five-character password is refused, a six-character one accepted |
| `Scenarios.LoginFailures` | backend/routes/auth.js:84-105 | a wrong password and an unknown email get identical responses |
| `Scenarios.LoginTwice` | backend/routes/auth.js:89-94 | after two logins, the registry has exactly one entry, with the later login time; check-session with the first token reports that entry |
| `Dashboard.FloorDiv` | frontend/src/components/Dashboard.jsx:35-37 | `Math.floor(a / b)` is the integer `q` with `q*b <= a < q*b + b` |
| `Dashboard.JsRem` | frontend/src/components/Dashboard.jsx:39-40 | JavaScript's `%` agrees with Dafny's for non-negative dividends, and lies in `(-b, 0]` for negative ones |
| `Dashboard.ShapeOf` | frontend/src/components/Dashboard.jsx:35-40 | the breakdown `formatDuration` computes: which form, and its two numbers; `Dashboard.ShapeOfDescribes` and `Dashboard.DescribesUnique` prove it is exactly the reference breakdown `Describes` |
| `Dashboard.Render` | frontend/src/components/Dashboard.jsx:39-41 | the three template literals; `Dashboard.ParseRender` shows each written form reads back as the shape it was written from |
| `Dashboard.FormatDuration` | frontend/src/components/Dashboard.jsx:34-42 | the text written for `ms` reads back as the breakdown of `ms`, which `Dashboard.ShapeOfDescribes` pins to the reference windows |
| `Dashboard.ShapeOfDescribes` | frontend/src/components/Dashboard.jsx:34-42 | the breakdown matches the reference. Hours form: h ≥ 1, minutes below 60, ms in [h·3600000 + m·60000, +60000). Minutes form: 1 ≤ m < 60, seconds below 60, ms in [m·60000 + s·1000, +1000). Seconds form: s < 60, ms in [s·1000, +1000). Hours form iff ms ≥ 3,600,000; minutes form iff 60,000 ≤ ms < 3,600,000; seconds form iff ms < 60,000 |
| `Dashboard.DescribesUnique` | frontend/src/components/Dashboard.jsx:34-42 | only one breakdown fits a duration, so the reference determines what `formatDuration` writes |
| `Dashboard.BelowOneSecond` | frontend/src/components/Dashboard.jsx:41 | any 0 ≤ ms < 1000 is written "0s" |
| `Dashboard.ParseRender` | frontend/src/components/Dashboard.jsx:39-41 | each of the three written forms reads back as the numbers it was written from |
| `Dashboard.FormatDurationReadsBack` | frontend/src/components/Dashboard.jsx:34-42 | the breakdown read back from the text `formatDuration` writes describes the input: it fixes the window `ms` lies in |
| `Dashboard.RenderEndsInUnit` | frontend/src/components/Dashboard.jsx:39-41 | every written form ends in `m` or `s` |
| `Dashboard.DurationCell` | frontend/src/components/Dashboard.jsx:112 | the cell is 'N/A' iff the duration is absent or zero; otherwise it is `formatDuration` of the duration |
| `Dashboard.Row` | frontend/src/components/Dashboard.jsx:140-145 | one card line: the session's name and `formatDuration(now - loginTime)`; `Dashboard.ActiveSessionsCard` lists one per shown session |
| `Dashboard.ActiveSessionsCard` | frontend/src/components/Dashboard.jsx:133-148 | the card counts all sessions and lists the first min(3, n) of them, in order, each with its name and `formatDuration(now - loginTime)` |
| `Dashboard.CardOfListing` | frontend/src/components/Dashboard.jsx:133-136 | drawn from the sessions listing, the card counts every registry entry (backend/routes/auth.js:142) and lists the first entries in the registry's insertion order |

## Left out

- JWT signing and verification internals are not modelled: HMAC, the 30-day expiry check, and the fallback secret (backend/routes/auth.js lines 8-13). Tokens come from an abstract `TokenOracle`. Only the scenarios assume it is `Sound`; the handlers' contracts hold for any oracle.
- The `User` model is not part of this model. Schema validation, any normalisation of emails, and bcrypt hashing are out. `CorrectPassword` compares the candidate with the stored password exactly.
- Ids are the decimal index of a user in the store, standing in for MongoDB ObjectIds. `user._id.toString()` and `decoded.id` are both that string.
- `Auth.AuthServer.Register`: `storeError` models an error raised by `User.findOne`. A failure of `User.create` (line 39) is not modelled separately. It would answer the same 400 with its message and change neither the store nor the registry.
- `Auth.Profile`: `storeError` models an error raised by `User.findById` (line 166). It answers 401 "Not authorized, token failed", like the catch branch.
- Request fields are absent or strings. Non-string JSON values are not modelled: for a number, `password.length` is `undefined` and the length check passes.
- Password length is counted in Unicode scalar values. JavaScript counts UTF-16 code units, so the two differ for characters outside the Basic Multilingual Plane.
- The 500 branch of the sessions listing (line 145) is not modelled: nothing in the listing can fail.
- Login times are integers in milliseconds. `new Date()` and its JSON form as a date string are not modelled. One `now` serves both the token check and `Date.now()` within a request.
- Numbers are Dafny's unbounded integers, not JavaScript doubles. `formatDuration`, `Math.floor` and `${n}` are faithful only for safe integers, of magnitude at most 2^53 - 1. Beyond that, JavaScript rounds: `Math.floor(2**60 / 1000)` is 1152921504606847, not 1152921504606846. And `${1e21}` writes "1e+21". Login times and durations in milliseconds stay far below that bound.
- `Dashboard.JsRem`: for a negative dividend the contract gives only the range `(-b, 0]`. `formatDuration` applies `%` only to positive operands.
- `formatDuration` on non-integer or `NaN` input is not modelled. `NaN` arises from a missing `loginTime`.
- Concurrency between requests is not modelled, including the race between the duplicate-email check and user creation. The model is sequential.
- `backend/index.js` is not part of this model: Express wiring, CORS, the database connection, the health routes and the 404 handler.
- `frontend/src/App.jsx` is not part of this model: rendering and the connection probe.
- React state and effects are not modelled, nor the `Promise.all` fetch with its `|| []` fallback, `toLocaleString` formatting of the login time, or console logging.
