/**
 * The single-file backend: user lookup and registration, password login,
 * bearer tokens and the current-user dependency, and the body its edit
 * endpoint sends back. Its chat endpoints apply the same table rules as the
 * chat router and are modelled once, in ChatApi.
 *
 * bcrypt is the pair of parameters `hash` and `verify`. A token is modelled by
 * what `jwt.decode` can learn from it: the claims of a token this server
 * signed with its key, or nothing for any other string.
 */
module MainApp {
  import opened Wrappers
  import opened Http
  import opened Messages
  import opened Table
  import ChatApi

  const UsernameTaken: HttpError := HttpError(400, "Username already registered")
  const BadLogin: HttpError := HttpError(401, "Incorrect username or password")
  const BadCredentials: HttpError := HttpError(401, "Could not validate credentials")
  /** What `OAuth2PasswordBearer` raises when the request has no bearer token. */
  const NoBearer: HttpError := HttpError(401, "Not authenticated")
  /** What FastAPI sends when a body fails its `response_model`. */
  const InternalServerError: HttpError := HttpError(500, "Internal Server Error")

  /** Token lifetime, in seconds, when the caller gives none (15 minutes). */
  const DefaultExpirySeconds: int := 15 * 60
  /** Declared next to the algorithm name; no code path reads it. */
  const AccessTokenExpireMinutes: int := 30

  /** `get_user`: the user row with that username, if any. */
  function GetUser(users: seq<User>, username: string): (r: Option<User>)
    ensures r.Some? ==> r.value in users && r.value.username == username
    ensures r.None? <==> forall u :: u in users ==> u.username != username
  {
    if users == [] then None
    else if users[0].username == username then Some(users[0])
    else GetUser(users[1..], username)
  }

  /** With unique usernames, the lookup finds each registered user. */
  lemma {:induction false} GetUserFindsEachUser(users: seq<User>, k: int)
    requires UniqueUsernames(users)
    requires 0 <= k < |users|
    ensures GetUser(users, users[k].username) == Some(users[k])
  {
    if k > 0 {
      assert users[1..][k - 1] == users[k];
      GetUserFindsEachUser(users[1..], k - 1);
    }
  }

  /** POST /register: a taken username is refused with 400 and nothing is
      added; otherwise one user row with the hashed password is added. */
  method RegisterUser(db: Database, username: string, password: string, now: int,
                      hash: string -> string)
    returns (r: Result<User, HttpError>)
    requires db.Valid()
    modifies db`users
    ensures db.Valid()
    ensures GetUser(old(db.users), username).Some? ==>
              r == Failure(UsernameTaken) && db.users == old(db.users)
    ensures GetUser(old(db.users), username).None? ==>
              && r == Success(User(NextUserId(old(db.users)), username, hash(password), now))
              && db.users == old(db.users) + [r.value]
  {
    if GetUser(db.users, username).Some? {
      return Failure(UsernameTaken);
    }
    var u := User(NextUserId(db.users), username, hash(password), now);
    db.users := db.users + [u];
    r := Success(u);
  }

  /** `authenticate_user`: the user, or None (the source's False) when the
      username is unknown or the password does not match its hash. */
  function AuthenticateUser(users: seq<User>, username: string, password: string,
                            verify: (string, string) -> bool)
    : (r: Option<User>)
    ensures r.Some? ==> r.value in users && r.value.username == username
                        && verify(password, r.value.hashedPassword)
  {
    match GetUser(users, username)
    case None => None
    case Some(u) => if verify(password, u.hashedPassword) then Some(u) else None
  }

  /** With unique usernames, a login succeeds exactly for a stored user whose
      hash the password matches, and yields that user. */
  lemma AuthenticateUserExactly(users: seq<User>, username: string, password: string,
                                verify: (string, string) -> bool, k: int)
    requires UniqueUsernames(users)
    requires 0 <= k < |users| && users[k].username == username
    ensures AuthenticateUser(users, username, password, verify) ==
              if verify(password, users[k].hashedPassword) then Some(users[k]) else None
  {
    GetUserFindsEachUser(users, k);
  }

  lemma AuthenticateUnknownUser(users: seq<User>, username: string, password: string,
                                verify: (string, string) -> bool)
    requires forall k :: 0 <= k < |users| ==> users[k].username != username
    ensures AuthenticateUser(users, username, password, verify) == None
  {
    assert forall u :: u in users ==> u.username != username;
  }

  /** The claims `jwt.decode` returns for a token signed with the server key:
      "sub" (absent when the payload has none) and "exp" in seconds. */
  datatype Claims = Claims(sub: Option<string>, exp: int)

  /** A bearer token: one this server signed, or any other string. */
  datatype Token = Signed(claims: Claims) | Unsigned(text: string)

  /** `expires_delta or timedelta(minutes=15)`: a zero delta is falsy in
      Python, so it falls back to the default as well. */
  function ExpiresAt(now: int, expiresDelta: Option<int>): (exp: int)
    ensures expiresDelta.Some? && expiresDelta.value != 0 ==> exp == now + expiresDelta.value
    ensures expiresDelta.None? || expiresDelta.value == 0 ==> exp == now + DefaultExpirySeconds
  {
    match expiresDelta
    case Some(d) => if d != 0 then now + d else now + DefaultExpirySeconds
    case None => now + DefaultExpirySeconds
  }

  /** `create_access_token({"sub": sub}, expires_delta)` at clock `now`. */
  function CreateAccessToken(sub: string, now: int, expiresDelta: Option<int>): (t: Token)
    ensures t.Signed? && t.claims.sub == Some(sub)
    ensures t.claims.exp == ExpiresAt(now, expiresDelta)
  {
    Signed(Claims(Some(sub), ExpiresAt(now, expiresDelta)))
  }

  /** `jwt.decode` at clock `now`: the claims of a token this server signed,
      while the clock has not passed "exp"; JWTError otherwise. */
  function Decode(token: Token, now: int): (r: Option<Claims>)
    ensures r.Some? <==> token.Signed? && now <= token.claims.exp
    ensures r.Some? ==> r.value == token.claims
  {
    if token.Signed? && now <= token.claims.exp then Some(token.claims) else None
  }

  /** A token this server created decodes to what was put in it, until it
      expires. */
  lemma DecodeCreated(sub: string, issuedAt: int, expiresDelta: Option<int>, now: int)
    ensures Decode(CreateAccessToken(sub, issuedAt, expiresDelta), now) ==
              if now <= ExpiresAt(issuedAt, expiresDelta)
              then Some(Claims(Some(sub), ExpiresAt(issuedAt, expiresDelta)))
              else None
  {
  }

  /** `get_current_user`: 401 for no bearer token, one that does not decode,
      a payload without "sub", or a "sub" naming no user; otherwise that user. */
  function GetCurrentUser(users: seq<User>, bearer: Option<Token>, now: int)
    : (r: Result<User, HttpError>)
    ensures r.Failure? ==> r.error.status == 401
    ensures r.Failure? <==>
              || bearer.None?
              || Decode(bearer.value, now).None?
              || Decode(bearer.value, now).value.sub.None?
              || GetUser(users, Decode(bearer.value, now).value.sub.value).None?
    ensures r.Success? ==>
              && r.value in users
              && bearer.Some? && bearer.value.Signed? && now <= bearer.value.claims.exp
              && bearer.value.claims.sub == Some(r.value.username)
  {
    match bearer
    case None => Failure(NoBearer)
    case Some(token) =>
      match Decode(token, now)
      case None => Failure(BadCredentials)
      case Some(claims) =>
        match claims.sub
        case None => Failure(BadCredentials)
        case Some(username) =>
          match GetUser(users, username)
          case None => Failure(BadCredentials)
          case Some(u) => Success(u)
  }

  /** The body of a successful POST /token. */
  datatype TokenReply = TokenReply(accessToken: Token, tokenType: string)

  /** POST /token: 401 for a failed login, else a bearer token for the
      username with the default lifetime (no expires_delta is passed). */
  function LoginForAccessToken(users: seq<User>, username: string, password: string, now: int,
                               verify: (string, string) -> bool)
    : (r: Result<TokenReply, HttpError>)
    ensures r.Failure? <==> AuthenticateUser(users, username, password, verify).None?
    ensures r.Failure? ==> r.error == BadLogin
    ensures r.Success? ==>
              && r.value.tokenType == "bearer"
              && r.value.accessToken == Signed(Claims(Some(username), now + DefaultExpirySeconds))
  {
    match AuthenticateUser(users, username, password, verify)
    case None => Failure(BadLogin)
    case Some(u) => Success(TokenReply(CreateAccessToken(u.username, now, None), "bearer"))
  }

  /** A token from a successful login identifies the same user to every
      protected endpoint for exactly the default lifetime, not the 30
      minutes the unused constant names. */
  lemma LoginTokenIdentifiesUser(users: seq<User>, username: string, password: string,
                                 issuedAt: int, verify: (string, string) -> bool, now: int)
    requires UniqueUsernames(users)
    requires LoginForAccessToken(users, username, password, issuedAt, verify).Success?
    ensures
      var token := LoginForAccessToken(users, username, password, issuedAt, verify).value.accessToken;
      var u := AuthenticateUser(users, username, password, verify).value;
      && (now <= issuedAt + DefaultExpirySeconds ==>
            GetCurrentUser(users, Some(token), now) == Success(u))
      && (now > issuedAt + DefaultExpirySeconds ==>
            GetCurrentUser(users, Some(token), now) == Failure(BadCredentials))
      && issuedAt + DefaultExpirySeconds != issuedAt + AccessTokenExpireMinutes * 60
  {
    var u := AuthenticateUser(users, username, password, verify).value;
    var k :| 0 <= k < |users| && users[k] == u;
    GetUserFindsEachUser(users, k);
  }

  /** The body of GET /verify-token. */
  datatype VerifyReply = VerifyReply(message: string, username: string)

  /** GET /verify-token: the current-user check, then the user's name. */
  function VerifyToken(users: seq<User>, bearer: Option<Token>, now: int)
    : (r: Result<VerifyReply, HttpError>)
    ensures r.Failure? <==> GetCurrentUser(users, bearer, now).Failure?
    ensures r.Failure? ==> r.error.status == 401
    ensures r.Success? ==>
              && r.value.message == "Token is valid"
              && r.value.username == GetCurrentUser(users, bearer, now).value.username
  {
    match GetCurrentUser(users, bearer, now)
    case Failure(e) => Failure(e)
    case Success(u) => Success(VerifyReply("Token is valid", u.username))
  }

  /** FastAPI's check of a returned list against `List[MessageResponse]`:
      any `None` element fails validation and the client gets a 500. */
  function ValidateResponseList(body: seq<Option<MessageResponse>>)
    : (r: Result<seq<MessageResponse>, HttpError>)
    ensures r.Success? <==> forall k :: 0 <= k < |body| ==> body[k].Some?
    ensures r.Success? ==>
              |r.value| == |body| && forall k :: 0 <= k < |body| ==> r.value[k] == body[k].value
    ensures r.Failure? ==> r == Failure(InternalServerError)
  {
    if body == [] then Success([])
    else if body[0].None? then Failure(InternalServerError)
    else match ValidateResponseList(body[1..])
      case Failure(e) => Failure(e)
      case Success(rest) => Success([body[0].value] + rest)
  }

  /** The list this file's PUT /messages/{id} returns, as written: always two
      elements, the second `None` when no reply was regenerated. */
  function UpdateBodyAsWritten(edited: Message, reply: Option<Message>)
    : (b: seq<Option<MessageResponse>>)
    ensures |b| == 2
    ensures b[0] == Some(ToResponse(edited))
    ensures b[1].None? <==> reply.None?
    ensures reply.Some? ==> b[1] == Some(ToResponse(reply.value))
  {
    [Some(ToResponse(edited)),
     if reply.Some? then Some(ToResponse(reply.value)) else None]
  }

  /** An edit with no assistant reply to regenerate is committed, yet the
      response fails validation and the client receives a 500. */
  lemma UnrepliedEditAsWrittenFails(edited: Message)
    ensures ValidateResponseList(UpdateBodyAsWritten(edited, None)) == Failure(InternalServerError)
  {
  }

  /** With a reply regenerated, the body as written validates to the same
      serialised rows as the chat router's edit: the two endpoints differ
      only when there is no reply. */
  lemma RepliedEditAsWrittenValidates(edited: Message, reply: Message)
    ensures ValidateResponseList(UpdateBodyAsWritten(edited, Some(reply))) ==
              Success(Serialise(ChatApi.EditedRows(edited, Some(reply))))
  {
    UpdateBodyValidates(edited, Some(reply));
    assert UpdateBodyAsWritten(edited, Some(reply)) == UpdateBody(edited, Some(reply));
  }

  /** The list meant: the edited message, then the reply only when there is one. */
  function UpdateBody(edited: Message, reply: Option<Message>): (b: seq<Option<MessageResponse>>)
    ensures |b| == if reply.Some? then 2 else 1
    ensures b[0] == Some(ToResponse(edited))
    ensures forall k :: 0 <= k < |b| ==> b[k].Some?
  {
    if reply.Some? then [Some(ToResponse(edited)), Some(ToResponse(reply.value))]
    else [Some(ToResponse(edited))]
  }

  /** The intended list always validates, to the serialised rows the chat
      router's edit returns. */
  lemma UpdateBodyValidates(edited: Message, reply: Option<Message>)
    ensures ValidateResponseList(UpdateBody(edited, reply)) ==
              Success(Serialise(ChatApi.EditedRows(edited, reply)))
  {
    var rows := ChatApi.EditedRows(edited, reply);
    var v := ValidateResponseList(UpdateBody(edited, reply));
    assert v.Success?;
    assert |v.value| == |Serialise(rows)|;
    assert forall k :: 0 <= k < |rows| ==> v.value[k] == Serialise(rows)[k];
  }
}
