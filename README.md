# cinema_service core, modelled in Dafny

This project models the logic-bearing core of `cinema_service`, a Go backend for a film library. The core has four parts:

- **The HTTP middleware.** `Authenticate` checks the `Authorization: Bearer <token>` header and stores the caller's identity in the request context. `RequireAdmin` lets only `ADMIN` identities through. `ResponseWriter` records the status code and the byte count of a response.
- **The user service.** `GenerateToken` looks up credentials, builds the JWT claims (issued-at, expires-at twelve hours later, user ID and role) and signs them with HS256 (section 3.2 of RFC 7518). `ParseToken` hands a token to the JWT library and returns the identity found in its claims.
- **The movie service.** `GetMoviesFilter` sorts the repository's movie list by title, by rating or by creation date, or rejects the filter. The other operations forward to the repository and wrap its errors.
- **The actor repository.** `GetActors` groups the rows of an actors-movies join by actor ID. `DeleteActor` turns the affected-row count into "actor not found". `CreateActor` gives the actor a fresh ID before inserting it.

## How the model is built

- Go error values are a datatype (`Errors.Error`). `fmt.Errorf("p: %w", e)` and `errors.Wrap(e, "p")` both become `Wrapped("p", e)`; they give the same message, and "## Left out" says how they differ for `errors.Unwrap`. `Message` is `err.Error()`.
- Collaborators the core cannot see are parameters:
  - the user and movie repositories;
  - the JWT signer and parser;
  - the token parser handed to the middleware;
  - the database's answers (query error, scanned rows, iteration error, rows affected);
  - the wrapped `http.ResponseWriter`'s replies;
  - `uuid.New()`;
  - the clock.
- Time is an integer count of nanoseconds. `jwt.NewNumericDate` truncates to whole seconds.
- Go strings are sequences of code points. Go's `<` on strings is defined explicitly as `Strings.LexLess`. On valid UTF-8 it gives the same order as Go's byte-wise comparison.
- The state `ResponseWriter` changes in place is a class. Its fields are updated by `WriteHeader` and `Write`. The ghost record `forwarded` lists the calls passed on to the wrapped writer, and the invariant `Valid()` ties both counters to that history.
- `GetMoviesFilter` sorts a Dafny `array` in place, as `sort.Slice` sorts the slice. `GetActors` is a method whose loops match the Go loops: an outer loop over the scanned rows and an inner linear search of the actors kept so far.

### Behaviour of the code worth knowing

The model follows the code, including three behaviours a reader might not expect:

- **No issue/parse round trip.** The identity field of `tokenClaims` is unexported (internal/usecase/user.go:26), so it is never written into a token and never read back. With a parser that leaves that field alone (`Users.KeepsUnexportedField`), every accepted token yields a nil identity. `Users.ParseTokenYieldsNilIdentity` proves this.
  - `Authenticate` then stores a nil `*UserInfo`, and `RequireAdmin` dereferences it. That is the `Panic` outcome.
  - `Middleware.ServiceTokensNeverReachAdminHandlers` proves that no request reaches an admin-only handler through the service's own `ParseToken`.
- **No algorithm allow-list.** The key callback returns the fixed key whatever algorithm the token declares (`Users.KeyForIgnoresAlgorithm`).
- **The "date" filter is rejected.** The test at internal/usecase/movie_service_test.go:267-280 expects `GetMoviesFilter` to accept `"date"`. The code has no such case and answers "invalid filter". The model follows the code.

## Model

| member | source | states |
|---|---|---|
| Errors.WrapErr | internal/usecase/movie.go:31-37 | The `if err != nil { return fmt.Errorf("p: %w", err) }` idiom: nil exactly when the cause is nil. Otherwise `Errors.Unwrap` (`errors.Unwrap`) gives back the cause, and `Errors.Message` (`err.Error()`) is `p: ` followed by the cause's message. |
| Strings.Split | internal/api/middleware/middleware.go:42 | `strings.Split` on one character (`Strings.Explode` is `strings.Split(s, "")`, one piece per character): at least one piece, no piece contains the separator, and joining the pieces with the separator gives back the input. |
| Strings.SplitJoin | internal/api/middleware/middleware.go:42 | The other direction: splitting a join of separator-free pieces gives back exactly those pieces. |
| Strings.LexLessFirstDifference | internal/usecase/movie.go:72 | `Strings.LexLess`, Go's string `<`, holds exactly when `a` is a proper prefix of `b`, or `a` is smaller at the first position where they differ. |
| Strings.LexLessIrreflexive | internal/usecase/movie.go:72 | No string is less than itself. |
| Strings.LexLessTransitive | internal/usecase/movie.go:72 | String `<` is transitive. |
| Strings.LexLessTotal | internal/usecase/movie.go:72 | Of two different strings, one is less than the other. |
| Strings.LexLessAsymmetric | internal/usecase/movie.go:72 | String `<` never holds both ways. |
| Strings.NotLexLessIsLessEq | internal/usecase/movie.go:72 | `!(b < a)` is exactly `a <= b`. |
| Users.NewNumericDate | internal/usecase/user.go:80-81 | A time in nanoseconds becomes the whole second at or just before it. |
| Users.GetUser | internal/usecase/user.go:45-51 | The repository's user is returned unchanged; its error is wrapped as "getting user". |
| Users.NewClaims | internal/usecase/user.go:78-86 | The claims embed the user's ID and role, are issued at `now` truncated to the second, and expire exactly 12 hours (43200 s) after that. |
| Users.GenerateToken | internal/usecase/user.go:72-94 | A lookup failure gives the error `get user: getting user: <cause>`. A success is the signer's output for an HS256 token over `NewClaims` under the key "some-signing-key". A signing failure is wrapped as "sign token". |
| Users.GenerateTokenLookupFailure | internal/usecase/user.go:73-76 | When the lookup fails no signing happens: the result is the same for any signer, with message `get user: getting user: <cause>`. |
| Users.KeyForIgnoresAlgorithm | internal/usecase/user.go:97-99 | The key callback `Users.KeyFor` returns the fixed signing key for every declared algorithm. |
| Users.ParseToken | internal/usecase/user.go:96-110 | A parser failure is wrapped as "parse token". Claims of another type give "token claims are not of type *tokenClaims". A parse that succeeds with claims of type `*tokenClaims` returns `Ok` of the claims' identity field as it stands, and only that case succeeds. |
| Users.ParseTokenYieldsNilIdentity | internal/usecase/user.go:24-27 | With a parser that cannot set the unexported identity field, a successful `ParseToken` always returns a nil identity. |
| Middleware.BearerSplit | internal/api/middleware/middleware.go:42-46 | Splitting on spaces gives exactly `["Bearer", t]` if and only if the header is `Bearer ` followed by a space-free `t`; the token is then the text after the first 7 characters. |
| Middleware.Authenticate | internal/api/middleware/middleware.go:32-63 | `Vary: Authorization` is added on every path. An empty header gives 401 "empty auth header". A header not of the form `Bearer <t>` gives 401 "invalid auth header". Exactly `Bearer ` gives 401 "token is empty". Otherwise the parser is called once with `t`: its error message becomes a 401, and its identity is stored under "user_info" with the rest of the request unchanged. |
| Middleware.AuthenticateRejectsBeforeParsing | internal/api/middleware/middleware.go:35-51 | Without a non-empty bearer token the request is rejected, the parser is never called, and the result does not depend on the parser. |
| Middleware.RequireAdmin | internal/api/middleware/middleware.go:65-77 | The request goes on, unchanged, if and only if the context holds a non-nil identity whose role is exactly "ADMIN". A missing or wrongly typed entry gives 401 "User context not found". A nil identity panics. Any other role gives 403 "Access denied". |
| Middleware.RequireAdminIgnoresHeader | internal/api/middleware/middleware.go:65-77 | The admin decision never depends on the request header, token included. |
| Middleware.AdminOnlyAdmits | internal/api/middleware/middleware.go:32-77 | `Middleware.AdminOnly`, `Authenticate` wrapped around `RequireAdmin`, admits a request if and only if it bears a non-empty token that parses to an ADMIN identity. That identity is what the handler then finds in the context. |
| Middleware.ServiceTokensNeverReachAdminHandlers | internal/api/middleware/middleware.go:53-72 | With the service's own `ParseToken`, an authenticated request carries a nil identity, and the admin chain always rejects or panics. |
| Middleware.LastWriteHeaderWins | internal/api/middleware/middleware.go:107-110 | After a `WriteHeader(c)`, later writes leave the recorded status at `c`. |
| Middleware.ResponseWriter.constructor | internal/api/middleware/middleware.go:103-105 | A new writer records status 200, size 0 and an empty call history. |
| Middleware.ResponseWriter.WriteHeader | internal/api/middleware/middleware.go:107-110 | The status becomes the code, the call is forwarded, and the size is unchanged. |
| Middleware.ResponseWriter.Write | internal/api/middleware/middleware.go:112-116 | The wrapped writer's count and error are returned. The size grows by exactly that count, and the status is unchanged. |
| Middleware.ResponseWriter.StatusCode | internal/api/middleware/middleware.go:118-120 | The last code forwarded, or 200 if there was none. |
| Middleware.ResponseWriter.Size | internal/api/middleware/middleware.go:122-124 | The sum of the counts the wrapped writer reported. |
| Movies.OrderFor | internal/usecase/movie.go:69-88 | A filter is accepted if and only if it is "title", "rating", "created_at" or "". "rating" and "" pick the same ordering. |
| Movies.LessIsStrictWeakOrder | internal/usecase/movie.go:71-85 | Each `less` passed to `sort.Slice` (`Movies.Less`) is a strict weak order: asymmetric, and "not less" is transitive. |
| Movies.SortedByMeans | internal/usecase/movie.go:69-85 | Sorted under `less` means ascending by title, descending by rating, or newest first. |
| Movies.SortMovies | internal/usecase/movie.go:71-85 | `sort.Slice` in place: the array ends sorted under `less` and is a permutation of what it held. |
| Movies.GetMoviesFilter | internal/usecase/movie.go:63-91 | A repository error gives `get movies: <cause>`. A bad filter gives "invalid filter". Otherwise the result is a permutation of the repository list, sorted as its filter says. |
| Movies.GetMovies | internal/usecase/movie.go:55-61 | The repository list unchanged, or its error under "get movies". |
| Movies.GetMoviesBySnippet | internal/usecase/movie.go:93-99 | The repository's search result unchanged, or its error under "get movies by snippet". |
| Movies.CreateMovie | internal/usecase/movie.go:31-37 | Nil exactly when the repository succeeds; otherwise its error under "create movie". |
| Movies.UpdateMovie | internal/usecase/movie.go:39-45 | Nil exactly when the repository succeeds; otherwise its error under "update movie". |
| Movies.DeleteMovie | internal/usecase/movie.go:47-53 | Nil exactly when the repository succeeds; otherwise its error under "delete movie". |
| Actors.FirstScanFailure | internal/repository/actors.go:62-67 | None exactly when every row scanned. Otherwise it is the error of a failing scan with every earlier scan successful, so the error of the first failing row. |
| Actors.Lookup | internal/repository/actors.go:69-75 | The inner search finds a kept actor with the row's ID, or none exactly when no kept actor has that ID. |
| Actors.AbsorbExisting | internal/repository/actors.go:70-81 | A row whose ID is already kept only appends its movie to that actor's group. The grouping invariant is kept. |
| Actors.AbsorbNew | internal/repository/actors.go:77-81 | A row with a new ID appends its actor to the list with a one-movie group. The grouping invariant is kept. |
| Actors.AbsorbGroups | internal/repository/actors.go:69-81 | `Actors.Absorb`, one turn of the row loop, keeps the grouping invariant. |
| Actors.AbsorbTotal | internal/repository/actors.go:81 | Each turn adds exactly one movie to the groups. |
| Actors.GroupRowsCorrect | internal/repository/actors.go:58-82 | `Actors.GroupRows` runs the loop over all rows. After all rows the result has the following shape. One kept actor per distinct ID, in first-occurrence order. Each is the record of the first row with that ID. Each group holds the movies of all rows with that ID, in row order. The map's keys are exactly the kept actors. The group sizes add up to the number of rows. |
| Actors.GroupedFilms | internal/repository/actors.go:57-88 | In the returned map itself, no two keys share an ID. Every row's ID has its first row's actor as a key. Every key holds exactly the movies of its ID's rows, in order. |
| Actors.GetActors | internal/repository/actors.go:45-89 | A query, scan or iteration error gives `get actors: <cause>` and no map; the scan error is that of the first failing row. When the query, every scan and the iteration are clean, the call succeeds, and the map is the grouping of the scanned rows. |
| Actors.DeleteActor | internal/repository/actors.go:90-108 | A failed statement is wrapped as "failed to delete actor". Zero affected rows give "actor not found". The result is nil exactly when the statement succeeded and affected some row. |
| Actors.CreateActor | internal/repository/actors.go:23-33 | On the `*domain.Actor` it is given (`Actors.ActorRecord`), the actor's ID is overwritten with the fresh ID and nothing else changes. The insert receives the updated actor, and its error is wrapped as "create actor". |

## Left out

- HTTP transport: the server, routing, and the `Register*` composition of the middleware in cmd/api/v1/main.go. `Middleware.AdminOnly` models the `Authenticate(RequireAdmin(h))` chain on its own.
- The JSON handlers and internal/api/handlers/response.go: encoding, and the response `NewErrorResponse` writes. A rejection is modelled as its status and message only.
- `LoggingMiddleware`: it only logs through slog, using the writer's `StatusCode` and `Size`.
- The JWT library's internals: HMAC-SHA256, signature and `exp` checks, and the JSON encoding of claims. Signing and parsing are opaque, fallible functions.
- bcrypt hashing and password comparison, which are foreign cryptography.
- All SQL text and pgx calls. The database's results are inputs.
  - The delete statement in `DeleteActor` targets the `movies` table; which table is affected is not modelled.
  - The second `err != nil` test in `DeleteActor` (internal/repository/actors.go:100-102) can never fire, because `err` was already nil there. The model has no branch for it.
- `UpdateActor` and internal/usecase/actors.go: forwarding with an error prefix, as already shown by the movie pass-throughs.
- `uuid.New()` and `time.Now()`. The fresh ID and the clock are parameters, and the two clock reads in `GenerateToken` are one `now`.
- Users.GenerateToken: the two `time.Now()` reads are modelled as one instant, so an expiry that differs from issued-at + 12 h by a second boundary falling between the reads is not modelled.
- Movies.GetMoviesFilter: the result is a new sequence; that `sort.Slice` reorders the repository's own slice, which the caller may share, is not modelled.
- The order in which `sort.Slice` leaves equal elements: the model sorts by insertion, which is one of the orders it may produce.
- Actors.GetActors: Go keys the map by `*domain.Actor` pointer and the model keys it by actor value. The kept actors have distinct IDs, so the two maps have the same entries.
- Context values of other types are represented only by a type name. Request fields other than the header and the context are not modelled.
- Errors.Unwrap: for `DeleteActor`'s `errors.Wrap(err, "failed to delete actor")` (github.com/pkg/errors), the real `errors.Unwrap` gives an inner message wrapper, not `err` itself. The model treats it like `fmt.Errorf("%w")`. The messages agree, and no code in the core unwraps that error.
- Go's `int` width: ratings are compared but never combined, so no overflow can arise.
