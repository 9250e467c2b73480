/** The user service of internal/usecase/user.go: credential lookup, token
    issuance and token parsing. The credential store, the HS256 signer and the
    token parser of the JWT library are opaque collaborators passed in as
    functions; the clock is a parameter `now` in nanoseconds since the Unix
    epoch. */
module Users {
  import opened Errors
  import opened Domain

  /** The process-wide HMAC key. */
  const SigningKey: string := "some-signing-key"

  /** One second, in nanoseconds (`time.Second`). */
  const Second: int := 1_000_000_000

  /** `tokenTTL = 12 * time.Hour`, in nanoseconds. */
  const TokenTTL: int := 12 * 60 * 60 * Second

  /** The name of the HMAC-SHA256 signing method (section 3.2 of RFC 7518). */
  const HS256: string := "HS256"

  /** The identity a token stands for. */
  datatype UserInfo = UserInfo(userID: Uuid, role: string)

  /** The two registered claims the service sets (section 4.1 of RFC 7519),
      as whole seconds since the Unix epoch; the others stay unset. */
  datatype RegisteredClaims = RegisteredClaims(expiresAt: Option<int>, issuedAt: Option<int>)

  /** `tokenClaims`. Its identity field is unexported, so the JSON encoding of
      the claims never carries it and decoding never sets it. */
  datatype TokenClaims = TokenClaims(registered: RegisteredClaims, userClaims: Option<UserInfo>)

  /** An unsigned token as built by `jwt.NewWithClaims`. */
  datatype Token = Token(alg: string, claims: TokenClaims)

  /** The dynamic type of the claims a parsed token holds. */
  datatype ClaimsValue = OfTokenClaims(claims: TokenClaims) | OfOtherType

  /** A token accepted by the parser: its declared algorithm and its claims. */
  datatype ParsedToken = ParsedToken(alg: string, claims: ClaimsValue)

  /** `UserRepo.GetUser(ctx, login, password)`. */
  type UserRepo = (string, string) -> Result<User>

  /** `token.SignedString(key)`. */
  type Signer = (Token, string) -> Result<string>

  /** The key callback handed to the parser: given the algorithm the token
      declares, the key to verify it with. */
  type KeyFunc = string -> Result<string>

  /** `jwt.ParseWithClaims(token, destination, keyFunc)`. */
  type Parser = (string, TokenClaims, KeyFunc) -> Result<ParsedToken>

  /** `jwt.NewNumericDate`: the time truncated down to a whole second. */
  function NewNumericDate(t: int): (seconds: int)
    ensures seconds * Second <= t < seconds * Second + Second
  {
    t / Second
  }

  /** Credential lookup; a failure is wrapped as "getting user". */
  function GetUser(repo: UserRepo, login: string, password: string): (r: Result<User>)
    ensures r.Ok? <==> repo(login, password).Ok?
    ensures r.Ok? ==> r.value == repo(login, password).value
    ensures r.Err? ==> r.error == Wrapped("getting user", repo(login, password).error)
  {
    match repo(login, password)
    case Err(e) => Err(Wrapped("getting user", e))
    case Ok(user) => Ok(user)
  }

  /** The claims issued for `user` at time `now`: they embed the user's ID and
      role, are issued at `now` and expire exactly twelve hours later. */
  function NewClaims(user: User, now: int): (c: TokenClaims)
    ensures c.userClaims == Some(UserInfo(user.id, user.role))
    ensures c.registered.issuedAt.Some? && c.registered.expiresAt.Some?
    ensures c.registered.issuedAt.value * Second <= now < c.registered.issuedAt.value * Second + Second
    ensures c.registered.expiresAt.value == c.registered.issuedAt.value + 12 * 60 * 60
  {
    TokenClaims(
      RegisteredClaims(Some(NewNumericDate(now + TokenTTL)), Some(NewNumericDate(now))),
      Some(UserInfo(user.id, user.role)))
  }

  /** Sign-in: look the user up, then sign an HS256 token for them. */
  function GenerateToken(repo: UserRepo, sign: Signer, login: string, password: string, now: int)
    : (r: Result<string>)
    ensures repo(login, password).Err? ==>
      r == Err(Wrapped("get user", Wrapped("getting user", repo(login, password).error)))
    ensures r.Ok? ==>
      repo(login, password).Ok? &&
      sign(Token(HS256, NewClaims(repo(login, password).value, now)), SigningKey) == Ok(r.value)
    ensures repo(login, password).Ok? && r.Err? ==>
      var signed := sign(Token(HS256, NewClaims(repo(login, password).value, now)), SigningKey);
      signed.Err? && r.error == Wrapped("sign token", signed.error)
  {
    match GetUser(repo, login, password)
    case Err(e) => Err(Wrapped("get user", e))
    case Ok(user) =>
      var token := Token(HS256, NewClaims(user, now));
      match sign(token, SigningKey)
      case Err(e) => Err(Wrapped("sign token", e))
      case Ok(signed) => Ok(signed)
  }

  /** When the lookup fails no token is signed: the outcome does not depend on
      the signer, and its message is the two-level chain. */
  lemma GenerateTokenLookupFailure(repo: UserRepo, sign: Signer, other: Signer,
                                   login: string, password: string, now: int)
    requires repo(login, password).Err?
    ensures GenerateToken(repo, sign, login, password, now) == GenerateToken(repo, other, login, password, now)
    ensures Message(GenerateToken(repo, sign, login, password, now).error) ==
      "get user: getting user: " + Message(repo(login, password).error)
  {
  }

  /** The key callback of `ParseToken`: the fixed key, whatever algorithm the
      token declares. */
  function KeyFor(alg: string): Result<string>
  {
    Ok(SigningKey)
  }

  /** No algorithm allow-list: every declared algorithm gets the same key. */
  lemma KeyForIgnoresAlgorithm(alg: string, other: string)
    ensures KeyFor(alg) == KeyFor(other) == Ok(SigningKey)
  {
  }

  /** `&tokenClaims{}`, the destination handed to the parser. */
  const EmptyClaims: TokenClaims := TokenClaims(RegisteredClaims(None, None), None)

  /** Token parsing: the parser's error is wrapped as "parse token"; claims of
      another type are refused; otherwise the claims' identity is returned
      as it stands. */
  function ParseToken(parse: Parser, token: string): (r: Result<Option<UserInfo>>)
    ensures parse(token, EmptyClaims, KeyFor).Err? ==>
      r == Err(Wrapped("parse token", parse(token, EmptyClaims, KeyFor).error))
    ensures parse(token, EmptyClaims, KeyFor).Ok? && !parse(token, EmptyClaims, KeyFor).value.claims.OfTokenClaims? ==>
      r == Err(Error("token claims are not of type *tokenClaims"))
    ensures parse(token, EmptyClaims, KeyFor).Ok? && parse(token, EmptyClaims, KeyFor).value.claims.OfTokenClaims? ==>
      r == Ok(parse(token, EmptyClaims, KeyFor).value.claims.claims.userClaims)
    ensures r.Ok? ==>
      parse(token, EmptyClaims, KeyFor).Ok? &&
      parse(token, EmptyClaims, KeyFor).value.claims.OfTokenClaims? &&
      r.value == parse(token, EmptyClaims, KeyFor).value.claims.claims.userClaims
  {
    match parse(token, EmptyClaims, KeyFor)
    case Err(e) => Err(Wrapped("parse token", e))
    case Ok(t) =>
      match t.claims
      case OfOtherType => Err(Error("token claims are not of type *tokenClaims"))
      case OfTokenClaims(claims) => Ok(claims.userClaims)
  }

  /** A parser that, like `encoding/json`, leaves the unexported field of its
      destination as it was. */
  ghost predicate KeepsUnexportedField(parse: Parser)
  {
    forall token, dest, keyFunc ::
      parse(token, dest, keyFunc).Ok? && parse(token, dest, keyFunc).value.claims.OfTokenClaims? ==>
        parse(token, dest, keyFunc).value.claims.claims.userClaims == dest.userClaims
  }

  /** With such a parser an accepted token always yields a nil identity: the
      claims issued by `GenerateToken` never come back from `ParseToken`. */
  lemma ParseTokenYieldsNilIdentity(parse: Parser, token: string)
    requires KeepsUnexportedField(parse)
    ensures ParseToken(parse, token).Ok? ==> ParseToken(parse, token).value == None
  {
  }
}
