/**
 * Registration and login over the Users table, the JWT settings the service
 * is built with, and the blank-token guards of its token checks. Token
 * creation, signing and validation are library calls and stand outside the
 * model; the table is a sequence of rows whose usernames, emails and ids are
 * unique, as the table's unique indexes and key guarantee.
 */
module AuthServices {
  import opened Wrappers
  import opened Time
  import opened Text
  import opened Users
  import opened DataContext
  import UnitOfWorks
  import PasswordHasher

  datatype JwtSettings = JwtSettings(secretKey: string, issuer: string, audience: string, expirationMinutes: int)

  datatype RegisterRequest = RegisterRequest(
    username: string,
    email: string,
    password: string,
    confirmPassword: string,
    firstName: Option<string>,
    lastName: Option<string>)

  /** `username` may hold either the account's username or its email. */
  datatype LoginRequest = LoginRequest(username: string, password: string)

  /** What a successful registration or login answers with (the token itself is not modelled). */
  datatype LoginResponse = LoginResponse(userId: int, username: string, email: string, expiresAt: DateTime)

  datatype AuthError =
    | ArgumentNull(paramName: string)
    | Argument(message: string)
    | InvalidOperation(message: string)
    | Unauthorized(message: string)
    | ParseFailure                      // the expiry setting is not an integer
    | Store(error: UnitOfWorks.Error)   // thrown by the unit of work's save

  const DefaultIssuer := "PortfolioAPI"
  const DefaultAudience := "PortfolioClients"
  const DefaultExpirationMinutes := "60"
  const InvalidCredentials := "Invalid username or password"

  /** A configuration value, `None` when the key is not configured. */
  function Setting(config: map<string, string>, key: string): Option<string> {
    if key in config then Some(config[key]) else None
  }

  /**
   * The constructor's reading of the configuration: the secret key is
   * mandatory; issuer, audience and expiry default to "PortfolioAPI",
   * "PortfolioClients" and "60" minutes. `parseInt` is the library's integer
   * parser (`None` where it throws).
   */
  function LoadJwtSettings(config: map<string, string>, parseInt: string -> Option<int>): (r: Result<JwtSettings, AuthError>)
    ensures "Jwt:SecretKey" !in config ==> r == Err(InvalidOperation("JWT SecretKey not configured"))
    ensures r.Ok? ==> r.value.secretKey == config["Jwt:SecretKey"]
    ensures r.Ok? ==> r.value.issuer == (if "Jwt:Issuer" in config then config["Jwt:Issuer"] else "PortfolioAPI")
    ensures r.Ok? ==> r.value.audience == (if "Jwt:Audience" in config then config["Jwt:Audience"] else "PortfolioClients")
    ensures "Jwt:SecretKey" in config && "Jwt:ExpirationMinutes" !in config && parseInt("60") == Some(60) ==>
      r.Ok? && r.value.expirationMinutes == 60
    ensures "Jwt:SecretKey" in config ==> (r.Err? <==> parseInt(Setting(config, "Jwt:ExpirationMinutes").GetOr("60")).None?)
    ensures "Jwt:SecretKey" in config && r.Err? ==> r.error == ParseFailure
    ensures r.Ok? ==> r.value.expirationMinutes == parseInt(Setting(config, "Jwt:ExpirationMinutes").GetOr("60")).value
  {
    match Setting(config, "Jwt:SecretKey")
    case None => Err(InvalidOperation("JWT SecretKey not configured"))
    case Some(secret) =>
      var issuer := Setting(config, "Jwt:Issuer").GetOr(DefaultIssuer);
      var audience := Setting(config, "Jwt:Audience").GetOr(DefaultAudience);
      match parseInt(Setting(config, "Jwt:ExpirationMinutes").GetOr(DefaultExpirationMinutes))
      case None => Err(ParseFailure)
      case Some(minutes) => Ok(JwtSettings(secret, issuer, audience, minutes))
  }

  /** The three lookups the service makes in the Users table. */
  datatype UserFilter = UsernameIs(name: string) | EmailIs(email: string) | UsernameOrEmailIs(login: string)

  predicate Matches(u: User, f: UserFilter) {
    match f
    case UsernameIs(n) => u.username == n
    case EmailIs(e) => u.email == e
    case UsernameOrEmailIs(x) => u.username == x || u.email == x
  }

  /** `FirstOrDefaultAsync`: the position of the first row the filter matches, if any. */
  function FirstMatch(users: seq<User>, f: UserFilter): (r: Option<nat>)
    ensures r.Some? ==> r.value < |users| && Matches(users[r.value], f)
    ensures r.Some? ==> forall k :: 0 <= k < r.value ==> !Matches(users[k], f)
    ensures r.None? <==> forall k :: 0 <= k < |users| ==> !Matches(users[k], f)
  {
    if users == [] then None
    else if Matches(users[0], f) then Some(0)
    else match FirstMatch(users[1..], f)
      case None => None
      case Some(k) => Some(k + 1)
  }

  /** The unique indexes on username and email, and the primary key. */
  ghost predicate UniqueAccounts(users: seq<User>) {
    forall i, j :: 0 <= i < j < |users| ==>
      && users[i].username != users[j].username
      && users[i].email != users[j].email
      && users[i].userId != users[j].userId
  }

  /** Under the unique indexes, a lookup by username or by email finds exactly the one row holding it. */
  lemma LookupFindsTheAccount(users: seq<User>, i: nat)
    requires UniqueAccounts(users) && i < |users|
    ensures FirstMatch(users, UsernameIs(users[i].username)) == Some(i)
    ensures FirstMatch(users, EmailIs(users[i].email)) == Some(i)
  {
  }

  /**
   * The unique indexes do not keep one account's username apart from
   * another's email, so a login name can match two rows; the lookup then
   * takes the first.
   */
  lemma LoginNameCanMatchTwoAccounts()
    ensures var a := User(1, "ann@example.com", "ann@mail.example", "", None, None, true, 0, 0);
            var b := User(2, "bob", "ann@example.com", "", None, None, true, 0, 0);
            && UniqueAccounts([a, b])
            && Matches(a, UsernameOrEmailIs("ann@example.com"))
            && Matches(b, UsernameOrEmailIs("ann@example.com"))
            && FirstMatch([a, b], UsernameOrEmailIs("ann@example.com")) == Some(0)
  {
  }

  /**
   * Whether a login with `login` and `password` gets in: the first row whose
   * username or email is `login` exists, is active, and its stored hash
   * verifies against `password`.
   */
  predicate AcceptsLogin(c: PasswordHasher.Primitives, users: seq<User>, login: string, password: string) {
    var t := FirstMatch(users, UsernameOrEmailIs(login));
    t.Some? && users[t.value].isActive && PasswordHasher.PasswordMatches(c, password, users[t.value].passwordHash)
  }

  /** `GenerateLoginResponse`: the response for `u`, its expiry `minutes` after `issuedAt`. */
  function ResponseFor(u: User, issuedAt: DateTime, minutes: int): (r: LoginResponse)
    ensures r.userId == u.userId && r.username == u.username && r.email == u.email
    ensures r.expiresAt - issuedAt == 60 * minutes
    ensures minutes >= 0 ==> r.expiresAt >= issuedAt
  {
    LoginResponse(u.userId, u.username, u.email, AddMinutes(issuedAt, minutes))
  }

  /** `ValidateTokenAsync`: a blank token is refused without being parsed; otherwise the library decides. */
  function ValidateToken(token: string, libraryValidates: string -> bool): (ok: bool)
    ensures IsBlank(token) ==> !ok
    ensures !IsBlank(token) ==> ok == libraryValidates(token)
  {
    if IsBlank(token) then false else libraryValidates(token)
  }

  /** `GetUserIdFromTokenAsync`: a blank token yields no id without being parsed; otherwise the library's reading of the id claim. */
  function GetUserIdFromToken(token: string, libraryReadsUserId: string -> Option<int>): (id: Option<int>)
    ensures IsBlank(token) ==> id.None?
    ensures !IsBlank(token) ==> id == libraryReadsUserId(token)
  {
    if IsBlank(token) then None else libraryReadsUserId(token)
  }

  class AuthService {
    const settings: JwtSettings
    const crypto: PasswordHasher.Primitives
    /** The rows of the Users table. */
    var users: seq<User>
    /** The identity the database assigns to the next inserted row. */
    var nextUserId: int

    ghost predicate Valid()
      reads this
    {
      && PasswordHasher.DerivesFullKeys(crypto)
      && UniqueAccounts(users)
      && (forall k :: 0 <= k < |users| ==> users[k].userId < nextUserId)
    }

    /**
     * Builds the service over the Users table, reading its JWT settings from
     * `config`. Where that reading fails the service is never built: the
     * failure is `LoadJwtSettings`'s error.
     */
    constructor (config: map<string, string>, parseInt: string -> Option<int>,
                 crypto: PasswordHasher.Primitives, users: seq<User>, nextUserId: int)
      requires LoadJwtSettings(config, parseInt).Ok?
      requires PasswordHasher.DerivesFullKeys(crypto) && UniqueAccounts(users)
      requires forall k :: 0 <= k < |users| ==> users[k].userId < nextUserId
      ensures Valid()
      ensures settings == LoadJwtSettings(config, parseInt).value && this.crypto == crypto
      ensures this.users == users && this.nextUserId == nextUserId
    {
      this.settings := LoadJwtSettings(config, parseInt).value;
      this.crypto := crypto;
      this.users := users;
      this.nextUserId := nextUserId;
    }

    /**
     * Registers an account. The username is checked before the email; a
     * taken one, a blank password or a failed save adds nothing. On success
     * exactly one active row is appended, holding the hash of the password
     * with the generator's `salt`, and the response carries its id,
     * username and email. `createdAt`, `updatedAt` and `issuedAt` are the
     * clock's readings.
     */
    method Register(request: Option<RegisterRequest>, salt: seq<PasswordHasher.byte>,
                    createdAt: DateTime, updatedAt: DateTime, issuedAt: DateTime,
                    saveResult: Result<nat, SaveFailure>)
      returns (r: Result<LoginResponse, AuthError>)
      requires Valid() && |salt| == PasswordHasher.SaltSize
      modifies this
      ensures Valid()
      ensures r.Err? ==> unchanged(this)
      ensures request.None? ==> r == Err(ArgumentNull("request"))
      ensures request.Some? && FirstMatch(old(users), UsernameIs(request.value.username)).Some? ==>
        r == Err(InvalidOperation("Username already exists"))
      ensures request.Some? && FirstMatch(old(users), UsernameIs(request.value.username)).None?
                            && FirstMatch(old(users), EmailIs(request.value.email)).Some? ==>
        r == Err(InvalidOperation("Email already exists"))
      ensures request.Some? && FirstMatch(old(users), UsernameIs(request.value.username)).None?
                            && FirstMatch(old(users), EmailIs(request.value.email)).None? ==>
        if IsBlank(request.value.password) then r == Err(Argument("Password cannot be empty"))
        else if saveResult.Err? then r == Err(Store(UnitOfWorks.TranslateSave(saveResult).error))
        else r.Ok?
      ensures r.Ok? ==>
        var req := request.value;
        var u := User(old(nextUserId), req.username, req.email,
                      crypto.toBase64(PasswordHasher.StoredBytes(crypto, req.password, salt)),
                      req.firstName, req.lastName, true, createdAt, updatedAt);
        && users == old(users) + [u]
        && nextUserId == old(nextUserId) + 1
        && r.value == ResponseFor(u, issuedAt, settings.expirationMinutes)
      ensures r.Ok? && PasswordHasher.Base64Sound(crypto) && FirstMatch(old(users), EmailIs(request.value.username)).None? ==>
        AcceptsLogin(crypto, users, request.value.username, request.value.password)
    {
      if request.None? {
        return Err(ArgumentNull("request"));
      }
      var req := request.value;
      var existing := FirstMatch(users, UsernameIs(req.username));
      if existing.Some? {
        return Err(InvalidOperation("Username already exists"));
      }
      existing := FirstMatch(users, EmailIs(req.email));
      if existing.Some? {
        return Err(InvalidOperation("Email already exists"));
      }
      var hashed := PasswordHasher.HashPassword(crypto, req.password, salt);
      if hashed.Err? {
        return Err(Argument(hashed.error.message));
      }
      var user := User(nextUserId, req.username, req.email, hashed.value,
                       req.firstName, req.lastName, true, createdAt, updatedAt);
      var saved := UnitOfWorks.TranslateSave(saveResult);
      if saved.Err? {
        return Err(Store(saved.error));
      }
      ghost var before := users;
      users := users + [user];
      nextUserId := nextUserId + 1;
      r := Ok(ResponseFor(user, issuedAt, settings.expirationMinutes));

      // unless another account's email equals the new username, a login by
      // that username finds the new row, and its hash verifies
      if PasswordHasher.Base64Sound(crypto) && FirstMatch(before, EmailIs(req.username)).None? {
        forall k | 0 <= k < |before|
          ensures !Matches(users[k], UsernameOrEmailIs(req.username))
        {
          assert users[k] == before[k];
          assert !Matches(before[k], UsernameIs(req.username));
          assert !Matches(before[k], EmailIs(req.username));
        }
        assert users[|before|] == user;
        assert FirstMatch(users, UsernameOrEmailIs(req.username)) == Some(|before|);
        PasswordHasher.HashThenVerify(crypto, req.password, salt);
      }
    }

    /**
     * Logs in with a username or an email. No matching row, an inactive
     * account and a wrong password are refused alike, with one message, and
     * change nothing. On success only the matched row's `UpdatedAt` changes,
     * to `now`, and the response carries that account's id, username and
     * email.
     */
    method Login(request: Option<LoginRequest>, now: DateTime, issuedAt: DateTime,
                 saveResult: Result<nat, SaveFailure>)
      returns (r: Result<LoginResponse, AuthError>)
      requires Valid()
      modifies this
      ensures Valid()
      ensures r.Err? ==> unchanged(this)
      ensures request.None? ==> r == Err(ArgumentNull("request"))
      ensures request.Some? && !AcceptsLogin(crypto, old(users), request.value.username, request.value.password) ==>
        r == Err(Unauthorized(InvalidCredentials))
      ensures request.Some? && AcceptsLogin(crypto, old(users), request.value.username, request.value.password) ==>
        if saveResult.Err? then r == Err(Store(UnitOfWorks.TranslateSave(saveResult).error)) else r.Ok?
      ensures r.Ok? ==>
        var i := FirstMatch(old(users), UsernameOrEmailIs(request.value.username)).value;
        && users == old(users)[i := old(users)[i].(updatedAt := now)]
        && nextUserId == old(nextUserId)
        && r.value == ResponseFor(old(users)[i], issuedAt, settings.expirationMinutes)
    {
      if request.None? {
        return Err(ArgumentNull("request"));
      }
      var req := request.value;
      var found := FirstMatch(users, UsernameOrEmailIs(req.username));
      if found.None? || !users[found.value].isActive {
        return Err(Unauthorized(InvalidCredentials));
      }
      var i := found.value;
      var user := users[i];
      var verified := PasswordHasher.VerifyPassword(crypto, req.password, user.passwordHash);
      if !verified {
        return Err(Unauthorized(InvalidCredentials));
      }
      user := user.(updatedAt := now);
      var saved := UnitOfWorks.TranslateSave(saveResult);
      if saved.Err? {
        return Err(Store(saved.error));
      }
      users := users[i := user];
      r := Ok(ResponseFor(user, issuedAt, settings.expirationMinutes));
    }
  }
}
