/**
 * The pieces in sequence: an access token from JwtTokenizer, presented as
 * "Bearer <token>", goes through JwtAuthenticationFilter and comes out of
 * IfLoginArgumentResolver as a LoginUserDto.
 *
 * The AuthenticationProvider that turns a JwtAuthenticationToken into an
 * Authentication is not part of this model; ProviderReadsAccessToken
 * states what is assumed of it.
 */
module Pipeline {
  import opened Wrappers
  import opened Security
  import opened Tokenizer
  import opened AuthFilter
  import opened ArgumentResolver
  import opened LoginUser

  /** The assumed provider: a token that parses under the access secret is
      authenticated as a JwtAuthenticationToken whose principal is the id,
      subject and name claims and whose authorities are the roles claim. */
  ghost predicate ProviderReadsAccessToken(authenticate: string -> AuthOutcome, tk: JwtTokenizer, now: nat) {
    forall token :: tk.ParseAccessToken(token, now).Ok? ==>
      var c := tk.ParseAccessToken(token, now).value;
      authenticate(token) == Authenticated(Authentication(true, Some(LoginInfo(c.id, c.subject, c.name)), c.roles))
  }

  /** A live access token in a bearer header: the filter installs the
      Authentication built from the token's claims, leaves the "exception"
      attribute alone, runs the chain and returns normally. */
  lemma {:induction false} BearerAccessTokenAuthenticates(tk: JwtTokenizer, authenticate: string -> AuthOutcome,
                                                          id: int, email: string, name: string, roles: seq<string>,
                                                          issuedAt: nat, now: nat,
                                                          attribute: Option<JwtExceptionCode>, context: Option<Authentication>)
    requires tk.Valid() && ProviderReadsAccessToken(authenticate, tk, now)
    requires now < ExpiryInstant(issuedAt, ACCESS_TOKEN_EXPIRE_COUNT)
    ensures tk.CreateAccessToken(id, email, name, roles, issuedAt).Ok?
    ensures FilterSpec(Some("Bearer " + tk.CreateAccessToken(id, email, name, roles, issuedAt).value),
                       authenticate, None, attribute, context)
         == FilterEffect(attribute, Some(Authentication(true, Some(LoginInfo(id, email, name)), roles)), true, Continued)
  {
    AccessTokenRoundTrip(tk, id, email, name, roles, issuedAt, now);
    var token := tk.CreateAccessToken(id, email, name, roles, issuedAt).value;
    var jws := Jws(Claims(email, roles, id, name, issuedAt / 1000, (issuedAt + ACCESS_TOKEN_EXPIRE_COUNT) / 1000),
                   SignedWith(AlgorithmFor(tk.accessSecret), tk.accessSecret));
    assert token == tk.codec.compact(jws);
    CompactHasTextNoSpace(tk.codec, jws);
    GetTokenOfBearerHeader("Bearer", token);
    assert "Bearer" + " " + token == "Bearer " + token;
    var c := tk.ParseAccessToken(token, now).value;
    assert authenticate(token) == Authenticated(Authentication(true, Some(LoginInfo(c.id, c.subject, c.name)), c.roles));
    TokenAuthenticatedBeforeChain(Some("Bearer " + token), authenticate, None, attribute, context);
  }

  /** A live access token presented as a bearer header: the chain runs, the
      filter returns normally, and the controller parameter gets a descriptor
      with the id, email, name and roles the token was issued with. */
  method BearerRequest(tk: JwtTokenizer, authenticate: string -> AuthOutcome,
                       id: int, email: string, name: string, roles: seq<string>, issuedAt: nat, now: nat)
    returns (chainInvoked: bool, outcome: FilterOutcome, userId: Option<int>, userEmail: Option<string>,
             userNickname: Option<string>, userRoles: seq<string>)
    requires tk.Valid() && ProviderReadsAccessToken(authenticate, tk, now)
    requires now < ExpiryInstant(issuedAt, ACCESS_TOKEN_EXPIRE_COUNT)
    ensures chainInvoked && outcome == Continued
    ensures userId == Some(id) && userEmail == Some(email) && userNickname == Some(name) && userRoles == roles
  {
    BearerAccessTokenAuthenticates(tk, authenticate, id, email, name, roles, issuedAt, now, None, None);
    var token := tk.CreateAccessToken(id, email, name, roles, issuedAt).value;

    var request := new HttpRequest(Some("Bearer " + token));
    var context := new SecurityContext();
    var filter := new JwtAuthenticationFilter(authenticate);
    chainInvoked, outcome := filter.DoFilterInternal(request, context, None);

    var dto, thrown := ResolveArgument(Read(context.authentication));
    userId, userEmail, userNickname, userRoles := dto.userId, dto.userEmail, dto.userNickname, dto.roles;
  }
}
