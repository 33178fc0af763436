/** Password authentication and bearer tokens. Password hashing and token
    signing are parameters of the model: `verify(hashed, plain)` is the
    password check, and a `Codec` signs a claim set into a token string and
    decodes a token string back (or fails to). Time is integer seconds. */
module Auth {
  import opened Wrappers
  import opened Errors
  import opened DataManager
  import opened Seqs

  /** A stored user account. The email is the login name. */
  datatype UserFields = UserFields(email: string, name: string, hashedPassword: Option<string>)

  /** The user record the lookup hands to the authentication service. */
  datatype UserView = UserView(name: string, email: string, hashedPassword: Option<string>)

  /** The claims a token carries; decoding may yield a claim set lacking any of them. */
  datatype Claims = Claims(name: Option<string>, sub: Option<string>, expiresAt: Option<int>)

  /** Token signing and verification, kept abstract. */
  datatype Codec = Codec(sign: Claims -> string, decode: string -> Option<Claims>)

  /** The response of a successful login. */
  datatype Token = Token(accessToken: string, tokenType: string)

  /** The identity a valid token establishes. */
  datatype Identity = Identity(name: Option<string>, email: string)

  const TokenType: string := "bearer"
  const TokenExpireMinutes: nat := 60
  const SecondsPerMinute: nat := 60

  const UserNotFound: Error := HttpError(NotFound, "User not found")
  const IncorrectPassword: Error := HttpError(Unauthorized, "Incorrect password")
  const InvalidToken: Error := HttpError(Unauthorized, "Invalid token")
  const InvalidCredentials: Error := HttpError(Unauthorized, "Invalid credentials")
  const TokenExpired: Error := HttpError(Unauthorized, "Token expired")

  /** The codec decodes every token it signed to the claims it signed. */
  ghost predicate RoundTrips(codec: Codec)
  {
    forall p :: codec.decode(codec.sign(p)) == Some(p)
  }

  /** The users registered under `email`, in table order. */
  function WithEmail(users: seq<Row<UserFields>>, email: string): (r: seq<Row<UserFields>>)
    ensures forall u :: u in r <==> u in users && u.fields.email == email
    ensures r == [] <==> forall k :: 0 <= k < |users| ==> users[k].fields.email != email
    ensures r != [] ==> exists k ::
      && 0 <= k < |users| && r[0] == users[k] && users[k].fields.email == email
      && forall j :: 0 <= j < k ==> users[j].fields.email != email
  {
    var keep := (u: Row<UserFields>) => u.fields.email == email;
    var r := GetItems(users, Where(keep));
    assert r != [] ==> r[0] in r;
    FilterHeadIsFirst(users, keep);
    r
  }

  /** `get_user`: the account registered under `email`, or 404. */
  function GetUser(users: seq<Row<UserFields>>, email: string): (r: Result<UserView, Error>)
    ensures r.Failure? <==> forall k :: 0 <= k < |users| ==> users[k].fields.email != email
    ensures r.Failure? ==> r.error == UserNotFound
    ensures r.Success? ==> exists k ::
      && 0 <= k < |users| && users[k].fields.email == email
      && (forall j :: 0 <= j < k ==> users[j].fields.email != email)
      && r.value == UserView(users[k].fields.name, users[k].fields.email, users[k].fields.hashedPassword)
  {
    var found := WithEmail(users, email);
    if found == [] then Failure(UserNotFound)
    else
      var u := found[0];
      Success(UserView(u.fields.name, u.fields.email, u.fields.hashedPassword))
  }

  /** The instant a token issued at `now` stops being valid. */
  function ExpirationTime(now: int): int
  {
    now + TokenExpireMinutes * SecondsPerMinute
  }

  /** The claims of a token issued at `now` to the named user. */
  function AccessClaims(name: string, email: string, now: int): Claims
  {
    Claims(Some(name), Some(email), Some(ExpirationTime(now)))
  }

  /** `is_expired`: a token is expired strictly after its expiry instant. */
  predicate IsExpired(expiresAt: int, now: int)
  {
    expiresAt < now
  }

  /** `authenticate`: look the user up (404 if unknown), refuse a missing
      password hash or a password that does not verify (401), otherwise issue
      a bearer token for the stored name and email. */
  function Authenticate(users: seq<Row<UserFields>>, email: string, password: string,
                        verify: (string, string) -> bool, codec: Codec, now: int): (r: Result<Token, Error>)
    ensures r == Failure(UserNotFound) <==> forall k :: 0 <= k < |users| ==> users[k].fields.email != email
    ensures r == Failure(IncorrectPassword) <==>
      GetUser(users, email).Success? &&
      (GetUser(users, email).value.hashedPassword.None? ||
       !verify(GetUser(users, email).value.hashedPassword.value, password))
    ensures r.Success? ==> exists u ::
      && u in users && u.fields.email == email
      && u.fields.hashedPassword.Some? && verify(u.fields.hashedPassword.value, password)
      && r.value == Token(codec.sign(AccessClaims(u.fields.name, email, now)), TokenType)
    ensures r.Success? ==>
      GetUser(users, email).Success?
      && r.value == Token(codec.sign(AccessClaims(GetUser(users, email).value.name, email, now)), TokenType)
    ensures r.Failure? ==> r.error == UserNotFound || r.error == IncorrectPassword
  {
    match GetUser(users, email)
    case Failure(e) => Failure(e)
    case Success(user) =>
      if user.hashedPassword.None? then Failure(IncorrectPassword)
      else if !verify(user.hashedPassword.value, password) then Failure(IncorrectPassword)
      else Success(Token(codec.sign(AccessClaims(user.name, user.email, now)), TokenType))
  }

  /** `get_current_user`: 401 for a missing or undecodable token, for one
      without a subject, and for an expired one; otherwise the identity the
      token names. A token without an expiry fails parsing outside the
      handler's `except` and surfaces as an unhandled error. */
  function GetCurrentUser(token: Option<string>, codec: Codec, now: int): (r: Result<Identity, Error>)
    ensures token.None? ==> r == Failure(InvalidToken)
    ensures token.Some? && codec.decode(token.value).None? ==> r == Failure(InvalidCredentials)
    ensures token.Some? && codec.decode(token.value).Some? ==>
      var claims := codec.decode(token.value).value;
      && (claims.sub.None? ==> r == Failure(InvalidCredentials))
      && (claims.sub.Some? && claims.expiresAt.None? ==> r == Failure(Unhandled))
      && (claims.sub.Some? && claims.expiresAt.Some? && claims.expiresAt.value < now ==> r == Failure(TokenExpired))
    ensures r.Success? <==>
      && token.Some?
      && codec.decode(token.value).Some?
      && codec.decode(token.value).value.sub.Some?
      && codec.decode(token.value).value.expiresAt.Some?
      && now <= codec.decode(token.value).value.expiresAt.value
    ensures r.Success? ==>
      r.value == Identity(codec.decode(token.value).value.name, codec.decode(token.value).value.sub.value)
    ensures r.Failure? ==> r.error in {InvalidToken, InvalidCredentials, TokenExpired, Unhandled}
  {
    if token.None? then Failure(InvalidToken)
    else
      match codec.decode(token.value)
      case None => Failure(InvalidCredentials)
      case Some(payload) =>
        if payload.sub.None? then Failure(InvalidCredentials)
        else if payload.expiresAt.None? then Failure(Unhandled)
        else if IsExpired(payload.expiresAt.value, now) then Failure(TokenExpired)
        else Success(Identity(payload.name, payload.sub.value))
  }

  /** `create_user`: store the name, email and hash of the password. The email
      column is unique, so a second account under the same email is refused by
      the store and surfaces as an unhandled error. */
  function CreateUser(s: Store<UserFields>, name: string, email: string, password: string,
                      hash: string -> string): (r: Result<Store<UserFields>, Error>)
    requires Valid(s)
    ensures r.Failure? <==> exists k :: 0 <= k < |s.rows| && s.rows[k].fields.email == email
    ensures r.Failure? ==> r.error == Unhandled
    ensures r.Success? ==>
      && Valid(r.value)
      && |r.value.rows| == |s.rows| + 1
      && r.value.rows[..|s.rows|] == s.rows
      && r.value.rows[|s.rows|].fields == UserFields(email, name, Some(hash(password)))
  {
    if exists k :: 0 <= k < |s.rows| && s.rows[k].fields.email == email then Failure(Unhandled)
    else
      var added := AddItem(s, UserFields(email, name, Some(hash(password))));
      assert added.store.rows[..|s.rows|] == s.rows;
      Success(added.store)
  }

  /** A token issued at `now` is accepted, with the issued name and email,
      up to and including its expiry instant, and refused as expired after it. */
  lemma IssuedTokenLifetime(codec: Codec, name: string, email: string, now: int, later: int)
    requires RoundTrips(codec)
    ensures var token := Some(codec.sign(AccessClaims(name, email, now)));
      && (later <= ExpirationTime(now) ==> GetCurrentUser(token, codec, later) == Success(Identity(Some(name), email)))
      && (later > ExpirationTime(now) ==> GetCurrentUser(token, codec, later) == Failure(TokenExpired))
  {
  }

  /** A freshly registered user who logs in with the same password receives a
      token that identifies them for the next sixty minutes. */
  lemma RegisterThenLogin(s: Store<UserFields>, name: string, email: string, password: string,
                          hash: string -> string, verify: (string, string) -> bool,
                          codec: Codec, now: int, later: int)
    requires Valid(s) && RoundTrips(codec)
    requires verify(hash(password), password)
    requires forall k :: 0 <= k < |s.rows| ==> s.rows[k].fields.email != email
    requires now <= later <= ExpirationTime(now)
    ensures CreateUser(s, name, email, password, hash).Success?
    ensures var users := CreateUser(s, name, email, password, hash).value.rows;
      var login := Authenticate(users, email, password, verify, codec, now);
      && login.Success?
      && login.value.tokenType == TokenType
      && GetCurrentUser(Some(login.value.accessToken), codec, later) == Success(Identity(Some(name), email))
  {
  }
}
