/** The HTTP middleware of internal/api/middleware/middleware.go.

    A handler wrapped by `Authenticate` or `RequireAdmin` is modelled by what
    the wrapper decides: reject the request with a status and an error message,
    call the next handler with a (possibly extended) request, or panic. The
    response headers the wrapper writes and the tokens it hands to the token
    parser are part of the result, so that "added on every path" and "never
    called" can be stated. */
module Middleware {
  import opened Errors
  import opened Strings
  import opened Domain
  import opened Users

  /** `http.Header`: each name maps to its list of values. */
  type Header = map<string, seq<string>>

  /** `Header.Get`: the first value, or "" when there is none. */
  function HeaderGet(h: Header, name: string): string
  {
    if name in h && h[name] != [] then h[name][0] else ""
  }

  /** `Header.Add`: append a value to a name, the other names untouched. */
  function HeaderAdd(h: Header, name: string, value: string): Header
  {
    h[name := (if name in h then h[name] else []) + [value]]
  }

  const StatusOK: int := 200
  const StatusUnauthorized: int := 401
  const StatusForbidden: int := 403

  /** The context key under which `Authenticate` stores the identity. */
  const UserCtx: string := "user_info"

  /** A value stored in a request context: a `*usecase.UserInfo` (nil or not)
      or a value of some other dynamic type. */
  datatype ContextValue = UserInfoPointer(info: Option<UserInfo>) | OtherValue(typeName: string)

  type Context = map<string, ContextValue>

  /** The parts of an `*http.Request` the middleware reads or changes. */
  datatype Request = Request(header: Header, context: Context)

  /** What a middleware does with a request. */
  datatype Outcome =
    | Reject(status: int, message: string)
    | Next(request: Request)
    | Panic

  /** The middleware's decision, the response header after it, and the
      arguments of every call it made to the token parser, in order. */
  datatype Handled = Handled(header: Header, outcome: Outcome, parsed: seq<string>)

  /** `UserService.ParseToken`. */
  type TokenParser = string -> Result<Option<UserInfo>>

  /** The header value `Bearer <token>`: the scheme word, one space, and a
      token with no space in it (the token may be empty here). */
  predicate BearerForm(h: string)
  {
    |h| >= 7 && h[..7] == "Bearer " && ' ' !in h[7..]
  }

  /** Splitting on single spaces gives exactly `["Bearer", t]` precisely for the
      values of the form `Bearer <t>`, and then `t` is the text after the space. */
  lemma BearerSplit(h: string)
    ensures (|Split(h, ' ')| == 2 && Split(h, ' ')[0] == "Bearer") <==> BearerForm(h)
    ensures BearerForm(h) ==> Split(h, ' ')[1] == h[7..]
  {
    var parts := Split(h, ' ');
    if BearerForm(h) {
      assert h == Join(["Bearer", h[7..]], ' ');
      SplitJoin(["Bearer", h[7..]], ' ');
    }
    if |parts| == 2 && parts[0] == "Bearer" {
      assert Join(parts[1..], ' ') == parts[1];
      assert h == "Bearer" + [' '] + parts[1];
      assert h[7..] == parts[1];
    }
  }

  /** `Authenticate(next)` applied to response header `w` and request `r`. */
  function Authenticate(parse: TokenParser, w: Header, r: Request): (res: Handled)
    ensures res.header == HeaderAdd(w, "Vary", "Authorization")
    ensures |res.parsed| <= 1
    ensures HeaderGet(r.header, "Authorization") == "" ==>
      res.outcome == Reject(StatusUnauthorized, "empty auth header") && res.parsed == []
    ensures var auth := HeaderGet(r.header, "Authorization");
      auth != "" && !BearerForm(auth) ==>
        res.outcome == Reject(StatusUnauthorized, "invalid auth header") && res.parsed == []
    ensures HeaderGet(r.header, "Authorization") == "Bearer " ==>
      res.outcome == Reject(StatusUnauthorized, "token is empty") && res.parsed == []
    ensures var auth := HeaderGet(r.header, "Authorization");
      BearerForm(auth) && |auth| > 7 ==>
        res.parsed == [auth[7..]] &&
        match parse(auth[7..])
        case Err(e) => res.outcome == Reject(StatusUnauthorized, Message(e))
        case Ok(info) => res.outcome == Next(r.(context := r.context[UserCtx := UserInfoPointer(info)]))
  {
    var w' := HeaderAdd(w, "Vary", "Authorization");
    var auth := HeaderGet(r.header, "Authorization");
    if auth == "" then
      Handled(w', Reject(StatusUnauthorized, "empty auth header"), [])
    else
      var parts := Split(auth, ' ');
      BearerSplit(auth);
      if |parts| != 2 || parts[0] != "Bearer" then
        Handled(w', Reject(StatusUnauthorized, "invalid auth header"), [])
      else if |parts[1]| == 0 || |Explode(parts[1])| == 0 then
        Handled(w', Reject(StatusUnauthorized, "token is empty"), [])
      else
        match parse(parts[1])
        case Err(e) => Handled(w', Reject(StatusUnauthorized, Message(e)), [parts[1]])
        case Ok(info) =>
          Handled(w', Next(r.(context := r.context[UserCtx := UserInfoPointer(info)])), [parts[1]])
  }

  /** Before a non-empty token is in hand the parser is never consulted: the
      result is the same whichever parser is installed. */
  lemma AuthenticateRejectsBeforeParsing(parse: TokenParser, other: TokenParser, w: Header, r: Request)
    requires var auth := HeaderGet(r.header, "Authorization"); !(BearerForm(auth) && |auth| > 7)
    ensures Authenticate(parse, w, r) == Authenticate(other, w, r)
    ensures Authenticate(parse, w, r).outcome.Reject?
    ensures Authenticate(parse, w, r).parsed == []
  {
    var auth := HeaderGet(r.header, "Authorization");
    assert auth == "Bearer " || auth == "" || !BearerForm(auth) by {
      if BearerForm(auth) && |auth| == 7 {
        assert auth == auth[..7];
      }
    }
  }

  /** A non-nil `*UserInfo` whose role is exactly "ADMIN". */
  predicate IsAdmin(v: ContextValue)
  {
    v.UserInfoPointer? && v.info.Some? && v.info.value.role == ADMIN
  }

  /** `RequireAdmin(next)`: only an identity whose role is exactly "ADMIN" is
      let through, with the request as it came. The header is never read. */
  function RequireAdmin(r: Request): (o: Outcome)
    ensures o.Next? <==> UserCtx in r.context && IsAdmin(r.context[UserCtx])
    ensures o.Next? ==> o.request == r
    ensures UserCtx !in r.context || !r.context[UserCtx].UserInfoPointer? ==>
      o == Reject(StatusUnauthorized, "User context not found")
    ensures UserCtx in r.context && r.context[UserCtx] == UserInfoPointer(None) ==> o == Panic
    ensures UserCtx in r.context && r.context[UserCtx].UserInfoPointer? &&
            r.context[UserCtx].info.Some? && r.context[UserCtx].info.value.role != ADMIN ==>
      o == Reject(StatusForbidden, "Access denied")
  {
    if UserCtx !in r.context || !r.context[UserCtx].UserInfoPointer? then
      Reject(StatusUnauthorized, "User context not found")
    else
      match r.context[UserCtx].info
      case None => Panic
      case Some(user) =>
        if user.role != ADMIN then Reject(StatusForbidden, "Access denied") else Next(r)
  }

  /** The admin gate decides on the context alone: changing the request's
      header (the bearer token included) changes nothing but the request
      handed on. */
  lemma RequireAdminIgnoresHeader(r: Request, h: Header)
    ensures RequireAdmin(r.(header := h)).Next? == RequireAdmin(r).Next?
    ensures !RequireAdmin(r).Next? ==> RequireAdmin(r.(header := h)) == RequireAdmin(r)
  {
  }

  /** A handler registered behind both wrappers, `Authenticate(RequireAdmin(h))`. */
  function AdminOnly(parse: TokenParser, w: Header, r: Request): Handled
  {
    var a := Authenticate(parse, w, r);
    if a.outcome.Next? then a.(outcome := RequireAdmin(a.outcome.request)) else a
  }

  /** The whole chain lets a request through exactly when it bears a token that
      the parser maps to an ADMIN identity; the handler then sees the request
      with that identity in its context. Identities already in the incoming
      context play no part. */
  lemma AdminOnlyAdmits(parse: TokenParser, w: Header, r: Request)
    ensures var auth := HeaderGet(r.header, "Authorization");
      AdminOnly(parse, w, r).outcome.Next? <==>
        BearerForm(auth) && |auth| > 7 &&
        parse(auth[7..]).Ok? && parse(auth[7..]).value.Some? && parse(auth[7..]).value.value.role == ADMIN
    ensures var auth := HeaderGet(r.header, "Authorization");
      AdminOnly(parse, w, r).outcome.Next? ==>
        AdminOnly(parse, w, r).outcome.request == r.(context := r.context[UserCtx := UserInfoPointer(parse(auth[7..]).value)])
  {
    var auth := HeaderGet(r.header, "Authorization");
    if !(BearerForm(auth) && |auth| > 7) {
      AuthenticateRejectsBeforeParsing(parse, parse, w, r);
    }
  }

  /** With the service's own `ParseToken` over a parser that leaves the
      unexported identity field alone, an accepted token stores a nil
      identity, and the admin gate then dereferences it: no request ever
      reaches an admin-only handler. */
  lemma ServiceTokensNeverReachAdminHandlers(lib: Parser, w: Header, r: Request)
    requires KeepsUnexportedField(lib)
    ensures var a := Authenticate(t => ParseToken(lib, t), w, r);
      a.outcome.Next? ==> a.outcome.request.context[UserCtx] == UserInfoPointer(None)
    ensures AdminOnly(t => ParseToken(lib, t), w, r).outcome.Reject? ||
            AdminOnly(t => ParseToken(lib, t), w, r).outcome.Panic?
  {
    var auth := HeaderGet(r.header, "Authorization");
    if BearerForm(auth) && |auth| > 7 {
      ParseTokenYieldsNilIdentity(lib, auth[7..]);
    } else {
      AuthenticateRejectsBeforeParsing(t => ParseToken(lib, t), t => ParseToken(lib, t), w, r);
    }
  }

  /** A call the recording writer passes on to the writer it wraps; a write
      records the byte count the wrapped writer reported. */
  datatype WriterCall = WriteHeaderCall(code: int) | WriteCall(data: seq<bv8>, written: int)

  /** The status in force after `calls`: the last code written, 200 before any. */
  function LastStatus(calls: seq<WriterCall>): int
  {
    if |calls| == 0 then StatusOK
    else if calls[|calls| - 1].WriteHeaderCall? then calls[|calls| - 1].code
    else LastStatus(calls[..|calls| - 1])
  }

  /** The sum of the byte counts the wrapped writer reported. */
  function BytesWritten(calls: seq<WriterCall>): int
  {
    if |calls| == 0 then 0
    else BytesWritten(calls[..|calls| - 1]) +
         (if calls[|calls| - 1].WriteCall? then calls[|calls| - 1].written else 0)
  }

  /** The last `WriteHeader` wins: writes that follow it do not change the status. */
  lemma {:induction false} LastWriteHeaderWins(calls: seq<WriterCall>, code: int, later: seq<WriterCall>)
    requires forall i :: 0 <= i < |later| ==> later[i].WriteCall?
    ensures LastStatus(calls + [WriteHeaderCall(code)] + later) == code
    decreases |later|
  {
    if |later| > 0 {
      var front := later[..|later| - 1];
      assert (calls + [WriteHeaderCall(code)] + later)[..|calls| + 1 + |front|] ==
             calls + [WriteHeaderCall(code)] + front;
      LastWriteHeaderWins(calls, code, front);
    }
  }

  /** `ResponseWriter`: wraps a writer and records the status code and the
      number of bytes written through it. */
  class ResponseWriter {
    var statusCode: int
    var size: int
    /** The calls passed on to the wrapped writer, oldest first. */
    ghost var forwarded: seq<WriterCall>

    ghost predicate Valid()
      reads this
    {
      statusCode == LastStatus(forwarded) && size == BytesWritten(forwarded)
    }

    /** `NewResponseWriter`. */
    constructor ()
      ensures Valid()
      ensures forwarded == [] && statusCode == StatusOK && size == 0
    {
      statusCode := StatusOK;
      size := 0;
      forwarded := [];
    }

    method WriteHeader(code: int)
      requires Valid()
      modifies this
      ensures Valid()
      ensures forwarded == old(forwarded) + [WriteHeaderCall(code)]
      ensures statusCode == code && size == old(size)
    {
      statusCode := code;
      forwarded := forwarded + [WriteHeaderCall(code)];
    }

    /** The wrapped writer's reply to `Write(data)` is `(written, writeErr)`. */
    method Write(data: seq<bv8>, written: int, writeErr: Option<Error>) returns (n: int, err: Option<Error>)
      requires Valid()
      modifies this
      ensures Valid()
      ensures forwarded == old(forwarded) + [WriteCall(data, written)]
      ensures n == written && err == writeErr
      ensures size == old(size) + written && statusCode == old(statusCode)
    {
      forwarded := forwarded + [WriteCall(data, written)];
      assert forwarded[..|forwarded| - 1] == old(forwarded);
      n, err := written, writeErr;
      size := size + n;
    }

    method StatusCode() returns (code: int)
      requires Valid()
      ensures code == LastStatus(forwarded)
    {
      code := statusCode;
    }

    method Size() returns (n: int)
      requires Valid()
      ensures n == BytesWritten(forwarded)
    {
      n := size;
    }
  }
}
