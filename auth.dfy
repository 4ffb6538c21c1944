/** The authentication handlers: issuing a pair of signed, time-limited
    tokens, registering and logging in against the user table, refreshing a
    pair, and the stateless logout. Signing keys, the password hash and the
    token text are symbolic; time is an explicit clock in seconds. */
module Auth {
  import opened Common
  import opened Validation

  // ---------------------------------------------------------------------
  // Tokens

  /** The two signing secrets. */
  datatype Secret = AccessSecret | RefreshSecret

  /** The claims a token carries: its subject and its expiry instant. */
  datatype Claims = Claims(userId: UserId, exp: nat)

  /** A token as the verifier sees the string: claims signed under one of the
      two secrets, or text that is no such token. */
  datatype Jwt = Signed(claims: Claims, secret: Secret) | Malformed

  /** The body of every successful register, login and refresh. */
  datatype TokenPair = TokenPair(accessToken: Jwt, refreshToken: Jwt)

  /** `expiresIn: '15m'`, in seconds. */
  const AccessLifetime: nat := 15 * 60

  /** `expiresIn: '7d'`, in seconds. */
  const RefreshLifetime: nat := 7 * 24 * 60 * 60

  /** `jwt.sign({ userId }, secret, { expiresIn })` at instant `now`. */
  function Sign(userId: UserId, secret: Secret, lifetime: nat, now: nat): (r: Jwt)
    ensures forall t: nat :: Verify(r, secret, t) == if t < now + lifetime then Some(userId) else None
    ensures forall other, t: nat :: other != secret ==> Verify(r, other, t).None?
  {
    Signed(Claims(userId, now + lifetime), secret)
  }

  /** `jwt.verify(token, secret)` at instant `now`: the subject, when the
      token is signed under `secret` and has not expired. */
  function Verify(token: Jwt, secret: Secret, now: nat): (r: Option<UserId>)
    ensures r.Some? <==> token.Signed? && token.secret == secret && now < token.claims.exp
    ensures r.Some? ==> r.value == token.claims.userId
  {
    match token
    case Malformed => None
    case Signed(claims, s) => if s == secret && now < claims.exp then Some(claims.userId) else None
  }

  /** `generateTokens(userId)` at instant `now`. */
  function GenerateTokens(userId: UserId, now: nat): (r: TokenPair)
    ensures r.accessToken.Signed? && r.refreshToken.Signed?
    ensures r.accessToken.claims.userId == userId && r.refreshToken.claims.userId == userId
    ensures r.accessToken.secret == AccessSecret && r.refreshToken.secret == RefreshSecret
    ensures r.accessToken.claims.exp == now + AccessLifetime < r.refreshToken.claims.exp == now + RefreshLifetime
  {
    TokenPair(Sign(userId, AccessSecret, AccessLifetime, now),
              Sign(userId, RefreshSecret, RefreshLifetime, now))
  }

  /** A pair issued at `issuedAt` for `u`: the access token verifies to `u`
      under the access secret for fifteen minutes, the refresh token under
      the refresh secret for seven days, and neither passes under the other
      secret. */
  lemma GeneratedTokensVerify(u: UserId, issuedAt: nat, now: nat)
    ensures Verify(GenerateTokens(u, issuedAt).accessToken, AccessSecret, now)
         == if now < issuedAt + AccessLifetime then Some(u) else None
    ensures Verify(GenerateTokens(u, issuedAt).refreshToken, RefreshSecret, now)
         == if now < issuedAt + RefreshLifetime then Some(u) else None
    ensures Verify(GenerateTokens(u, issuedAt).accessToken, RefreshSecret, now).None?
    ensures Verify(GenerateTokens(u, issuedAt).refreshToken, AccessSecret, now).None?
  {
  }

  // ---------------------------------------------------------------------
  // Password hashing

  /** A stored password digest: the salt and a key derived from the
      password. The derivation is idealised as injective. */
  datatype Digest = Digest(salt: nat, key: string)

  /** `bcrypt.hash(password, 10)` with the salt it drew. */
  function Hash(password: string, salt: nat): (r: Digest)
    ensures r.salt == salt
    ensures forall q :: Compare(q, r) <==> q == password
  {
    Digest(salt, password)
  }

  /** `bcrypt.compare(password, digest)`: the password's key, derived with
      the stored salt, is the stored key. */
  predicate Compare(password: string, digest: Digest): (r: bool)
    ensures r <==> Digest(digest.salt, password) == digest
  {
    digest.key == password
  }

  /** A password matches its own digest, whatever the salt, and no other
      password does. */
  lemma CompareHash(p: string, q: string, salt: nat)
    ensures Compare(p, Hash(p, salt))
    ensures Compare(q, Hash(p, salt)) ==> q == p
  {
  }

  // ---------------------------------------------------------------------
  // The gateway

  /** A row of the user table. */
  datatype User = User(id: UserId, email: string, password: Digest)

  const RegisterFailed := Failure(400, "Invalid input or server error")
  const UserExists := Failure(400, "User already exists")
  const LoginInvalidInput := Failure(400, "Invalid input")
  const InvalidCredentials := Failure(401, "Invalid credentials")
  const InvalidRefreshToken := Failure(401, "Invalid refresh token")
  const LoggedOut := "Logged out successfully"

  /** The user table keyed by email, the clock, and the email syntax check.
      User ids come from a counter, which stands for the store's generator
      of unique keys. */
  class AuthGateway {
    var users: map<string, User>
    var nextId: UserId
    var now: nat
    const isEmail: string -> bool

    /** Each row sits under its own email, and ids are unique and already
        handed out. */
    ghost predicate Valid()
      reads this
    {
      && (forall e :: e in users ==> users[e].email == e && users[e].id < nextId)
      && (forall e, e' :: e in users && e' in users && users[e].id == users[e'].id ==> e == e')
    }

    /** No users yet; the clock reads `now`. */
    constructor (isEmail: string -> bool, now: nat)
      ensures Valid() && users == map[] && this.now == now && this.isEmail == isEmail
    {
      users := map[];
      nextId := 0;
      this.now := now;
      this.isEmail := isEmail;
    }

    /** Time passes. */
    method AdvanceClock(seconds: nat)
      modifies this`now
      ensures now == old(now) + seconds
    {
      now := now + seconds;
    }

    /** `POST /auth/register`: a body that fails the schema is a 400; an
        email already in the table is a 400 "User already exists"; in both
        cases the table is unchanged. Otherwise exactly one user is added,
        under that email, with a fresh id and the digest of the password,
        and the reply is 201 with a token pair for the new id. */
    method Register(body: CredentialsBody, salt: nat) returns (r: Response<TokenPair>)
      requires Valid()
      modifies this`users, this`nextId
      ensures Valid()
      ensures ParseRegister(body, isEmail).None? ==> r == Err(RegisterFailed) && users == old(users)
      ensures ParseRegister(body, isEmail).Some? && ParseRegister(body, isEmail).value.email in old(users) ==>
        r == Err(UserExists) && users == old(users)
      ensures ParseRegister(body, isEmail).Some? && ParseRegister(body, isEmail).value.email !in old(users) ==>
        var c := ParseRegister(body, isEmail).value;
        && (forall e :: e in old(users) ==> old(users)[e].id != old(nextId))
        && users == old(users)[c.email := User(old(nextId), c.email, Hash(c.password, salt))]
        && r == Ok(201, GenerateTokens(old(nextId), now))
    {
      match ParseRegister(body, isEmail)
      case None =>
        r := Err(RegisterFailed);
      case Some(c) =>
        if c.email in users {
          r := Err(UserExists);
        } else {
          var id := nextId;
          users := users[c.email := User(id, c.email, Hash(c.password, salt))];
          nextId := nextId + 1;
          r := Ok(201, GenerateTokens(id, now));
        }
    }

    /** `POST /auth/login`: a body that fails the schema is a 400; an
        unknown email and a wrong password give the one same 401; a known
        email with its password gives 200 and a pair for that user. */
    function Login(body: CredentialsBody): (r: Response<TokenPair>)
      reads this
      ensures ParseLogin(body, isEmail).None? ==> r == Err(LoginInvalidInput)
      ensures ParseLogin(body, isEmail).Some? ==>
        var c := ParseLogin(body, isEmail).value;
        (r.Ok? <==> c.email in users && Compare(c.password, users[c.email].password))
      ensures ParseLogin(body, isEmail).Some? && r.Err? ==> r == Err(InvalidCredentials)
      ensures r.Ok? ==> r == Ok(200, GenerateTokens(users[ParseLogin(body, isEmail).value.email].id, now))
    {
      match ParseLogin(body, isEmail)
      case None => Err(LoginInvalidInput)
      case Some(c) =>
        if c.email !in users || !Compare(c.password, users[c.email].password) then Err(InvalidCredentials)
        else Ok(200, GenerateTokens(users[c.email].id, now))
    }

    /** `POST /auth/refresh`: when the body carries a token that verifies
        under the refresh secret now, 200 and a new pair for its subject;
        anything else (no token, a malformed, expired or access token) is
        the one 401. The user table is never consulted. */
    function Refresh(body: RefreshBody<Jwt>): (r: Response<TokenPair>)
      reads this
      ensures r.Ok? <==> ParseRefresh(body).Some? && Verify(ParseRefresh(body).value, RefreshSecret, now).Some?
      ensures r.Ok? ==> r == Ok(200, GenerateTokens(body.refreshToken.value.claims.userId, now))
      ensures r.Err? ==> r.failure == InvalidRefreshToken
    {
      match ParseRefresh(body)
      case None => Err(InvalidRefreshToken)
      case Some(token) =>
        match Verify(token, RefreshSecret, now)
        case None => Err(InvalidRefreshToken)
        case Some(userId) => Ok(200, GenerateTokens(userId, now))
    }

    /** `POST /auth/logout`: the fixed message; nothing changes, since the
        method may modify nothing. */
    method Logout() returns (r: Response<string>)
      ensures r == Ok(200, LoggedOut)
    {
      r := Ok(200, LoggedOut);
    }
  }

  /** Login cannot tell an unknown email from a wrong password: both give the
      same reply. */
  lemma LoginFailuresIndistinguishable(g: AuthGateway, unknown: string, known: string, wrong: string)
    requires g.isEmail(unknown) && unknown !in g.users
    requires g.isEmail(known) && known in g.users && !Compare(wrong, g.users[known].password)
    ensures g.Login(CredentialsBody(Given(unknown), Given(wrong)))
         == g.Login(CredentialsBody(Given(known), Given(wrong)))
         == Err(InvalidCredentials)
  {
  }

  /** A registered user who gives the registered password gets a pair whose
      access token verifies to that user's id. */
  lemma LoginWithRegisteredPassword(g: AuthGateway, email: string, password: string, salt: nat)
    requires g.isEmail(email) && email in g.users && g.users[email].password == Hash(password, salt)
    ensures g.Login(CredentialsBody(Given(email), Given(password))) == Ok(200, GenerateTokens(g.users[email].id, g.now))
    ensures Verify(g.Login(CredentialsBody(Given(email), Given(password))).body.accessToken, AccessSecret, g.now)
         == Some(g.users[email].id)
  {
    CompareHash(password, password, salt);
  }

  /** Refreshing revokes nothing: after a successful refresh the old refresh
      token still verifies, to the same subject, until its own expiry, and
      the new pair is for that subject too. */
  lemma RefreshDoesNotRevoke(g: AuthGateway, token: Jwt, later: nat)
    requires g.Refresh(RefreshBody(Given(token))).Ok?
    requires later < token.claims.exp
    ensures token.Signed? && token.secret == RefreshSecret
    ensures Verify(token, RefreshSecret, later) == Some(token.claims.userId)
    ensures var pair := g.Refresh(RefreshBody(Given(token))).body;
            && Verify(pair.accessToken, AccessSecret, g.now) == Some(token.claims.userId)
            && Verify(pair.refreshToken, RefreshSecret, g.now) == Some(token.claims.userId)
  {
    GeneratedTokensVerify(token.claims.userId, g.now, g.now);
  }

  /** An access token is never accepted as a refresh token, and an expired
      refresh token is refused. */
  lemma RefreshRejects(g: AuthGateway, token: Jwt)
    requires token.Malformed? || token.secret == AccessSecret || g.now >= token.claims.exp
    ensures g.Refresh(RefreshBody(Given(token))) == Err(InvalidRefreshToken)
  {
  }
}
