/**
 * UserController's login, logout and refresh endpoints over the refresh
 * token store (a map from token value to the owning user's id), the user
 * table behind UserService, and PasswordEncoder.matches as an opaque
 * predicate. Status codes are plain integers; an exception that escapes
 * an endpoint is the response `Threw`.
 */
module Users {
  import opened Wrappers
  import opened Security
  import opened Tokenizer

  const HTTP_OK: int := 200
  const HTTP_BAD_REQUEST: int := 400
  const HTTP_UNAUTHORIZED: int := 401

  const REFRESH_TOKEN_NOT_FOUND: string := "Refresh token not found"
  const USER_NOT_FOUND: string := "User not found"

  /** What UserService.findByEmail throws for an unknown email. */
  const UNKNOWN_EMAIL: JavaException := Other("no user with this email")

  datatype Role = Role(name: string)

  datatype User = User(id: int, userEmail: string, userPassword: string, userNickname: string, roles: seq<Role>)

  datatype UserLoginDto = UserLoginDto(userEmail: string, userPassword: string)

  /** UserLoginResponseDto; the refresh endpoint leaves refreshToken null. */
  datatype UserLoginResponseDto = UserLoginResponseDto(
    accessToken: string,
    refreshToken: Option<string>,
    id: int,
    userNickname: string)

  datatype Response = Response(status: int, body: Option<UserLoginResponseDto>) | Threw(thrown: JavaException)

  /** `roles.stream().map(Role::getName).collect(toList())`: the names, in order. */
  function RoleNames(roles: seq<Role>): (names: seq<string>)
    ensures |names| == |roles|
    ensures forall i :: 0 <= i < |roles| ==> names[i] == roles[i].name
  {
    if roles == [] then [] else [roles[0].name] + RoleNames(roles[1..])
  }

  /** UserService.findByEmail: the first user with that email, if any. */
  function FindByEmail(users: seq<User>, email: string): (r: Option<User>)
    ensures r.Some? ==> r.value in users && r.value.userEmail == email
    ensures r.None? ==> forall u :: u in users ==> u.userEmail != email
  {
    if users == [] then None
    else if users[0].userEmail == email then Some(users[0])
    else FindByEmail(users[1..], email)
  }

  /** UserService.getUser: the first user with that id, if any. */
  function GetUser(users: seq<User>, id: int): (r: Option<User>)
    ensures r.Some? ==> r.value in users && r.value.id == id
    ensures r.None? ==> forall u :: u in users ==> u.id != id
  {
    if users == [] then None
    else if users[0].id == id then Some(users[0])
    else GetUser(users[1..], id)
  }

  /** login: the response and the refresh token store afterwards. */
  function LoginResult(tk: JwtTokenizer, users: seq<User>, matches: (string, string) -> bool,
                       store: map<string, int>, bindingHasErrors: bool, loginDto: UserLoginDto, now: nat)
    : (Response, map<string, int>)
  {
    if bindingHasErrors then (Response(HTTP_BAD_REQUEST, None), store)
    else
      match FindByEmail(users, loginDto.userEmail)
      case None => (Threw(UNKNOWN_EMAIL), store)
      case Some(user) =>
        if !matches(loginDto.userPassword, user.userPassword) then (Response(HTTP_UNAUTHORIZED, None), store)
        else
          var roles := RoleNames(user.roles);
          match tk.CreateAccessToken(user.id, user.userEmail, user.userPassword, roles, now)
          case Err(e) => (Threw(e), store)
          case Ok(accessToken) =>
            match tk.CreateRefreshToken(user.id, user.userEmail, user.userPassword, roles, now)
            case Err(e) => (Threw(e), store)
            case Ok(refreshToken) =>
              (Response(HTTP_OK, Some(UserLoginResponseDto(accessToken, Some(refreshToken), user.id, user.userNickname))),
               store[refreshToken := user.id])
  }

  /** requestRefresh: look the value up, parse it with the refresh secret,
      find the user named by its id claim, and issue a new access token. */
  function RefreshResult(tk: JwtTokenizer, users: seq<User>, store: map<string, int>, value: string, now: nat): Response
  {
    if value !in store then Threw(IllegalArgument(REFRESH_TOKEN_NOT_FOUND))
    else
      match tk.ParseRefreshToken(value, now)
      case Err(e) => Threw(e)
      case Ok(claims) =>
        match IntegerClaim(claims.id)
        case Err(e) => Threw(e)
        case Ok(id) =>
          match GetUser(users, id)
          case None => Threw(IllegalArgument(USER_NOT_FOUND))
          case Some(user) =>
            match tk.CreateAccessToken(id, claims.subject, user.userNickname, claims.roles, now)
            case Err(e) => Threw(e)
            case Ok(accessToken) =>
              Response(HTTP_OK, Some(UserLoginResponseDto(accessToken, None, user.id, user.userNickname)))
  }

  /** Binding errors: 400 and nothing else happens. */
  lemma LoginBindingErrors(tk: JwtTokenizer, users: seq<User>, matches: (string, string) -> bool,
                           store: map<string, int>, loginDto: UserLoginDto, now: nat)
    ensures LoginResult(tk, users, matches, store, true, loginDto, now) == (Response(HTTP_BAD_REQUEST, None), store)
  {
  }

  /** A wrong password: 401, no token issued, the store unchanged. */
  lemma LoginWrongPassword(tk: JwtTokenizer, users: seq<User>, matches: (string, string) -> bool,
                           store: map<string, int>, loginDto: UserLoginDto, now: nat)
    requires FindByEmail(users, loginDto.userEmail).Some?
    requires !matches(loginDto.userPassword, FindByEmail(users, loginDto.userEmail).value.userPassword)
    ensures LoginResult(tk, users, matches, store, false, loginDto, now) == (Response(HTTP_UNAUTHORIZED, None), store)
  {
  }

  /** A successful login: both tokens carry the user's id, email, stored
      password hash as `name`, and role names in order; exactly the new
      refresh value is added to the store, owned by the user; the 200
      response carries both tokens, the id and the nickname. */
  lemma LoginSuccess(tk: JwtTokenizer, users: seq<User>, matches: (string, string) -> bool,
                     store: map<string, int>, loginDto: UserLoginDto, now: nat)
    requires tk.Valid()
    requires FindByEmail(users, loginDto.userEmail).Some?
    requires matches(loginDto.userPassword, FindByEmail(users, loginDto.userEmail).value.userPassword)
    ensures var user := FindByEmail(users, loginDto.userEmail).value;
            var (response, store') := LoginResult(tk, users, matches, store, false, loginDto, now);
            var roles := RoleNames(user.roles);
            var access := tk.CreateAccessToken(user.id, user.userEmail, user.userPassword, roles, now);
            var refresh := tk.CreateRefreshToken(user.id, user.userEmail, user.userPassword, roles, now);
      && access.Ok? && refresh.Ok?
      && response == Response(HTTP_OK, Some(UserLoginResponseDto(access.value, Some(refresh.value), user.id, user.userNickname)))
      && store'.Keys == store.Keys + {refresh.value}
      && store'[refresh.value] == user.id
      && (forall v :: v in store && v != refresh.value ==> store'[v] == store[v])
  {
  }

  /** The access token login issues carries the password hash in its `name`
      claim, readable by anyone holding the token until it expires. */
  lemma LoginNameClaimIsPasswordHash(tk: JwtTokenizer, users: seq<User>, matches: (string, string) -> bool,
                                     store: map<string, int>, loginDto: UserLoginDto, now: nat, t: nat)
    requires tk.Valid()
    requires FindByEmail(users, loginDto.userEmail).Some?
    requires matches(loginDto.userPassword, FindByEmail(users, loginDto.userEmail).value.userPassword)
    requires t < ExpiryInstant(now, ACCESS_TOKEN_EXPIRE_COUNT)
    ensures var response := LoginResult(tk, users, matches, store, false, loginDto, now).0;
            var claims := tk.ParseAccessToken(response.body.value.accessToken, t);
      && response.Response? && response.body.Some?
      && claims.Ok?
      && claims.value.name == FindByEmail(users, loginDto.userEmail).value.userPassword
  {
    var user := FindByEmail(users, loginDto.userEmail).value;
    var roles := RoleNames(user.roles);
    AccessTokenRoundTrip(tk, user.id, user.userEmail, user.userPassword, roles, now, t);
    RefreshTokenRoundTrip(tk, user.id, user.userEmail, user.userPassword, roles, now, now);
  }

  /** A value that is not in the store is refused before anything is parsed. */
  lemma RefreshUnknownValue(tk: JwtTokenizer, users: seq<User>, store: map<string, int>, value: string, now: nat)
    requires value !in store
    ensures RefreshResult(tk, users, store, value, now) == Threw(IllegalArgument(REFRESH_TOKEN_NOT_FOUND))
  {
  }

  /** After logout, the same value can no longer be refreshed. */
  lemma LogoutThenRefresh(tk: JwtTokenizer, users: seq<User>, store: map<string, int>, value: string, now: nat)
    ensures RefreshResult(tk, users, store - {value}, value, now) == Threw(IllegalArgument(REFRESH_TOKEN_NOT_FOUND))
  {
  }

  /** A stored value whose id claim names no user fails with "User not found". */
  lemma RefreshUnknownUser(tk: JwtTokenizer, users: seq<User>, store: map<string, int>, value: string, now: nat)
    requires value in store
    requires tk.ParseRefreshToken(value, now).Ok?
    requires INTEGER_MIN_VALUE <= tk.ParseRefreshToken(value, now).value.id <= INTEGER_MAX_VALUE
    requires forall u :: u in users ==> u.id != tk.ParseRefreshToken(value, now).value.id
    ensures RefreshResult(tk, users, store, value, now) == Threw(IllegalArgument(USER_NOT_FOUND))
  {
  }

  /** Login then refresh with the refresh token it returned, while that token
      lives: a new access token for the same id, email and roles, now with the
      user's nickname as `name`, and no refresh token in the response. Once
      the refresh token has expired, ExpiredJwt. */
  lemma {:induction false} LoginThenRefresh(tk: JwtTokenizer, users: seq<User>, matches: (string, string) -> bool,
                                            store: map<string, int>, loginDto: UserLoginDto, now: nat, t: nat)
    requires tk.Valid()
    requires FindByEmail(users, loginDto.userEmail).Some?
    requires matches(loginDto.userPassword, FindByEmail(users, loginDto.userEmail).value.userPassword)
    requires var user := FindByEmail(users, loginDto.userEmail).value;
      INTEGER_MIN_VALUE <= user.id <= INTEGER_MAX_VALUE && GetUser(users, user.id) == Some(user)
    ensures var user := FindByEmail(users, loginDto.userEmail).value;
            var (response, store') := LoginResult(tk, users, matches, store, false, loginDto, now);
            var refreshed := RefreshResult(tk, users, store', response.body.value.refreshToken.value, t);
            var access := tk.CreateAccessToken(user.id, user.userEmail, user.userNickname, RoleNames(user.roles), t);
      && response.Response? && response.body.Some? && response.body.value.refreshToken.Some?
      && access.Ok?
      && refreshed == if t < ExpiryInstant(now, REFRESH_TOKEN_EXPIRE_COUNT)
                      then Response(HTTP_OK, Some(UserLoginResponseDto(access.value, None, user.id, user.userNickname)))
                      else Threw(ExpiredJwt)
  {
    var user := FindByEmail(users, loginDto.userEmail).value;
    var roles := RoleNames(user.roles);
    AccessTokenRoundTrip(tk, user.id, user.userEmail, user.userPassword, roles, now, now);
    RefreshTokenRoundTrip(tk, user.id, user.userEmail, user.userPassword, roles, now, t);
    AccessTokenRoundTrip(tk, user.id, user.userEmail, user.userNickname, roles, t, t);
  }

  class UserController {
    const jwtTokenizer: JwtTokenizer
    const users: seq<User>
    /** PasswordEncoder.matches(raw, encoded). */
    const passwordMatches: (string, string) -> bool
    /** RefreshTokenService's store: token value to owning user id. */
    var refreshTokens: map<string, int>

    constructor (jwtTokenizer: JwtTokenizer, users: seq<User>, passwordMatches: (string, string) -> bool)
      ensures this.jwtTokenizer == jwtTokenizer && this.users == users && this.passwordMatches == passwordMatches
      ensures refreshTokens == map[]
    {
      this.jwtTokenizer := jwtTokenizer;
      this.users := users;
      this.passwordMatches := passwordMatches;
      refreshTokens := map[];
    }

    method Login(loginDto: UserLoginDto, bindingHasErrors: bool, now: nat) returns (response: Response)
      modifies this
      ensures (response, refreshTokens)
           == LoginResult(jwtTokenizer, users, passwordMatches, old(refreshTokens), bindingHasErrors, loginDto, now)
    {
      if bindingHasErrors {
        return Response(HTTP_BAD_REQUEST, None);
      }
      var found := FindByEmail(users, loginDto.userEmail);
      if found.None? {
        return Threw(UNKNOWN_EMAIL);
      }
      var user := found.value;
      if !passwordMatches(loginDto.userPassword, user.userPassword) {
        return Response(HTTP_UNAUTHORIZED, None);
      }
      var roles := RoleNames(user.roles);
      var accessToken := jwtTokenizer.CreateAccessToken(user.id, user.userEmail, user.userPassword, roles, now);
      if accessToken.Err? {
        return Threw(accessToken.error);
      }
      var refreshToken := jwtTokenizer.CreateRefreshToken(user.id, user.userEmail, user.userPassword, roles, now);
      if refreshToken.Err? {
        return Threw(refreshToken.error);
      }
      refreshTokens := refreshTokens[refreshToken.value := user.id];
      response := Response(HTTP_OK, Some(UserLoginResponseDto(accessToken.value, Some(refreshToken.value), user.id, user.userNickname)));
    }

    /** logout: deleting is idempotent and the answer is always 200. */
    method Logout(refreshToken: string) returns (response: Response)
      modifies this
      ensures refreshTokens == old(refreshTokens) - {refreshToken}
      ensures response == Response(HTTP_OK, None)
    {
      refreshTokens := refreshTokens - {refreshToken};
      response := Response(HTTP_OK, None);
    }

    /** requestRefresh: reads the store and never changes it. */
    method RequestRefresh(refreshToken: string, now: nat) returns (response: Response)
      ensures response == RefreshResult(jwtTokenizer, users, refreshTokens, refreshToken, now)
    {
      if refreshToken !in refreshTokens {
        return Threw(IllegalArgument(REFRESH_TOKEN_NOT_FOUND));
      }
      var claims := jwtTokenizer.ParseRefreshToken(refreshToken, now);
      if claims.Err? {
        return Threw(claims.error);
      }
      var id := IntegerClaim(claims.value.id);
      if id.Err? {
        return Threw(id.error);
      }
      var user := GetUser(users, id.value);
      if user.None? {
        return Threw(IllegalArgument(USER_NOT_FOUND));
      }
      var accessToken := jwtTokenizer.CreateAccessToken(id.value, claims.value.subject, user.value.userNickname, claims.value.roles, now);
      if accessToken.Err? {
        return Threw(accessToken.error);
      }
      response := Response(HTTP_OK, Some(UserLoginResponseDto(accessToken.value, None, user.value.id, user.value.userNickname)));
    }
  }
}
