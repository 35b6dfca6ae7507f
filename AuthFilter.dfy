/**
 * JwtAuthenticationFilter: per request, take the bearer token out of the
 * Authorization header, have the AuthenticationManager authenticate it,
 * install the result in the security context and pass the request down
 * the chain. Every exception on the way, the chain's own included, is
 * caught by the first matching catch clause, which may record a code in
 * the request's "exception" attribute, and turned into a
 * BadCredentialsException.
 */
module AuthFilter {
  import opened Wrappers
  import opened JavaStrings
  import opened Security

  /** Only "Bearer" is checked; the space after it is not. */
  const BEARER: string := "Bearer"

  /** The values JwtExceptionCode gives the "exception" request attribute. */
  datatype JwtExceptionCode = NotFoundToken | InvalidToken | ExpiredToken | UnsupportedToken

  /** getToken's three ways out: null, a string, or ArrayIndexOutOfBoundsException. */
  datatype Extracted = NoToken | Found(token: string) | OutOfBounds

  /** getToken: `authorization.split(" ")[1]` once the header has text and
      starts with "Bearer"; null otherwise. */
  function GetToken(authorization: Option<string>): (r: Extracted)
    ensures r == NoToken <==>
      authorization.None? || !HasText(authorization.value) || !(BEARER <= authorization.value)
    ensures r.Found? ==> ' ' !in r.token
  {
    if authorization.Some? && HasText(authorization.value) && BEARER <= authorization.value then
      var arr := Split(authorization.value, ' ');
      if |arr| > 1 then Found(arr[1]) else OutOfBounds
    else
      NoToken
  }

  /** A header "Bearer…" with no space in its first word, one space, and a
      non-empty token without spaces gives that token back. */
  lemma GetTokenOfBearerHeader(scheme: string, token: string)
    requires BEARER <= scheme && ' ' !in scheme
    requires token != "" && ' ' !in token
    ensures GetToken(Some(scheme + " " + token)) == Found(token)
  {
    var h := scheme + " " + token;
    assert h == scheme + [' '] + token;
    assert h[0] == 'B' && !IsWhitespace(h[0]);
    assert BEARER <= h by { assert h[..|BEARER|] == scheme[..|BEARER|]; }
    SplitTwoFields(scheme, token, ' ');
  }

  /** A "Bearer…" header without any space has no element [1]. */
  lemma GetTokenWithoutSpace(h: string)
    requires BEARER <= h && ' ' !in h
    ensures GetToken(Some(h)) == OutOfBounds
  {
    assert h[0] == 'B' && !IsWhitespace(h[0]);
    SplitWithoutDelimiter(h, ' ');
  }

  /** In general, for a "Bearer…" header that contains a space: element [1]
      of the raw fields when some field after the first is non-empty (Java
      drops only trailing empties), the out-of-bounds error otherwise. */
  lemma GetTokenSecondField(h: string)
    requires BEARER <= h && ' ' in h
    ensures var f := Fields(h, ' ');
      GetToken(Some(h)) ==
        if exists j :: 1 <= j < |f| && f[j] != "" then Found(f[1]) else OutOfBounds
  {
    assert h[0] == 'B' && !IsWhitespace(h[0]);
    SplitLongerThan(h, ' ', 1);
  }

  /** "BearerX abc" is accepted: the space after "Bearer" is not checked. */
  lemma GetTokenUncheckedSpace()
    ensures GetToken(Some("BearerX abc")) == Found("abc")
  {
    GetTokenOfBearerHeader("BearerX", "abc");
    assert "BearerX abc" == "BearerX" + " " + "abc";
  }

  /** "Bearer" and "Bearer " have no element [1]. */
  lemma GetTokenNoSecondElement()
    ensures GetToken(Some("Bearer")) == OutOfBounds
    ensures GetToken(Some("Bearer ")) == OutOfBounds
  {
    GetTokenWithoutSpace("Bearer");
    FieldsJoin(["Bearer", ""], ' ');
    assert Join(["Bearer", ""], ' ') == "Bearer ";
    GetTokenSecondField("Bearer ");
  }

  /** Two spaces: element [1] is the empty string between them. */
  lemma GetTokenDoubleSpace()
    ensures GetToken(Some("Bearer  t")) == Found("")
  {
    FieldsJoin(["Bearer", "", "t"], ' ');
    assert Join(["Bearer", "", "t"], ' ') == "Bearer  t";
    GetTokenSecondField("Bearer  t");
  }

  /** Another scheme, a blank header and a missing one give null. */
  lemma GetTokenNull()
    ensures GetToken(Some("Basic abc")) == NoToken
    ensures GetToken(Some(" ")) == NoToken
    ensures GetToken(None) == NoToken
  {
  }

  /** The catch clauses of doFilterInternal, in source order. */
  datatype CatchClause = NotFoundClause | InvalidClause | ExpiredClause | UnsupportedClause | GenericClause

  const CATCH_ORDER: seq<CatchClause> :=
    [NotFoundClause, InvalidClause, ExpiredClause, UnsupportedClause, GenericClause]

  /** Which exceptions each clause declares; `catch (Exception e)` takes all. */
  predicate Catches(clause: CatchClause, e: JavaException) {
    match clause
    case NotFoundClause => e == NullPointer || e == IllegalState
    case InvalidClause => e == JavaSecurity || e == MalformedJwt
    case ExpiredClause => e == ExpiredJwt
    case UnsupportedClause => e == UnsupportedJwt
    case GenericClause => true
  }

  /** Java's catch selection: the first clause, from position k on, that catches `e`. */
  function FirstCatchFrom(e: JavaException, k: nat): (i: nat)
    requires k < |CATCH_ORDER|
    ensures k <= i < |CATCH_ORDER| && Catches(CATCH_ORDER[i], e)
    ensures forall j :: k <= j < i ==> !Catches(CATCH_ORDER[j], e)
    decreases |CATCH_ORDER| - k
  {
    if Catches(CATCH_ORDER[k], e) || k == |CATCH_ORDER| - 1 then k else FirstCatchFrom(e, k + 1)
  }

  function CatchingClause(e: JavaException): CatchClause {
    CATCH_ORDER[FirstCatchFrom(e, 0)]
  }

  /** The code a clause records in the "exception" attribute; the generic one records none. */
  function ClauseCode(clause: CatchClause): Option<JwtExceptionCode> {
    match clause
    case NotFoundClause => Some(NotFoundToken)
    case InvalidClause => Some(InvalidToken)
    case ExpiredClause => Some(ExpiredToken)
    case UnsupportedClause => Some(UnsupportedToken)
    case GenericClause => None
  }

  /** The message of the BadCredentialsException a clause throws. */
  function ClauseMessage(clause: CatchClause): string {
    match clause
    case NotFoundClause => "throw new not found token exception"
    case InvalidClause => "throw new invalid token exception"
    case ExpiredClause => "throw new expired token exception"
    case UnsupportedClause => "throw new unsupported token exception"
    case GenericClause => "throw new exception"
  }

  /** The code recorded for an exception, over the whole exception taxonomy. */
  lemma ExceptionCodes(e: JavaException)
    ensures ClauseCode(CatchingClause(e)) == Some(NotFoundToken) <==> e == NullPointer || e == IllegalState
    ensures ClauseCode(CatchingClause(e)) == Some(InvalidToken) <==> e == JavaSecurity || e == MalformedJwt
    ensures ClauseCode(CatchingClause(e)) == Some(ExpiredToken) <==> e == ExpiredJwt
    ensures ClauseCode(CatchingClause(e)) == Some(UnsupportedToken) <==> e == UnsupportedJwt
    ensures ClauseCode(CatchingClause(e)) == None <==>
      !(e in {NullPointer, IllegalState, JavaSecurity, MalformedJwt, ExpiredJwt, UnsupportedJwt})
  {
  }

  /** What AuthenticationManager.authenticate does with a JwtAuthenticationToken. */
  datatype AuthOutcome = Authenticated(authentication: Authentication) | AuthFailed(thrown: JavaException)

  /** doFilterInternal returns normally, or throws BadCredentialsException. */
  datatype FilterOutcome = Continued | BadCredentials(message: string)

  /** Where the try block ends: the context's Authentication, whether the
      chain was entered, and what was thrown. */
  datatype TryResult = TryResult(authentication: Option<Authentication>, chainInvoked: bool, thrown: Option<JavaException>)

  /** Everything doFilterInternal leaves behind. */
  datatype FilterEffect = FilterEffect(
    exceptionAttribute: Option<JwtExceptionCode>,
    authentication: Option<Authentication>,
    chainInvoked: bool,
    outcome: FilterOutcome)

  /** The try block. `chainThrows` is what the rest of the filter chain throws, if anything. */
  function TryBlock(authorization: Option<string>, authenticate: string -> AuthOutcome,
                    chainThrows: Option<JavaException>, context: Option<Authentication>): TryResult
  {
    match GetToken(authorization)
    case OutOfBounds => TryResult(context, false, Some(ArrayIndexOutOfBounds))
    case NoToken => TryResult(context, true, chainThrows)
    case Found(token) =>
      if !HasText(token) then TryResult(context, true, chainThrows)
      else
        match authenticate(token)
        case AuthFailed(e) => TryResult(context, false, Some(e))
        case Authenticated(a) => TryResult(Some(a), true, chainThrows)
  }

  /** doFilterInternal as a whole: the try block, then the catch clause that takes its exception. */
  function FilterSpec(authorization: Option<string>, authenticate: string -> AuthOutcome,
                      chainThrows: Option<JavaException>,
                      attribute: Option<JwtExceptionCode>, context: Option<Authentication>): FilterEffect
  {
    var t := TryBlock(authorization, authenticate, chainThrows, context);
    match t.thrown
    case None => FilterEffect(attribute, t.authentication, t.chainInvoked, Continued)
    case Some(e) =>
      var clause := CatchingClause(e);
      var code := ClauseCode(clause);
      FilterEffect(if code.Some? then code else attribute, t.authentication, t.chainInvoked,
                   BadCredentials(ClauseMessage(clause)))
  }

  /** The filter returns normally exactly when nothing was thrown; every
      failure ends in BadCredentialsException with its clause's message, and
      the attribute changes only to that clause's code. */
  lemma FailureAlwaysBadCredentials(authorization: Option<string>, authenticate: string -> AuthOutcome,
                                    chainThrows: Option<JavaException>,
                                    attribute: Option<JwtExceptionCode>, context: Option<Authentication>)
    ensures var t := TryBlock(authorization, authenticate, chainThrows, context);
            var f := FilterSpec(authorization, authenticate, chainThrows, attribute, context);
      && (f.outcome == Continued <==> t.thrown.None?)
      && (t.thrown.None? ==> f.exceptionAttribute == attribute)
      && (t.thrown.Some? ==>
            && f.outcome == BadCredentials(ClauseMessage(CatchingClause(t.thrown.value)))
            && f.exceptionAttribute ==
                 (if ClauseCode(CatchingClause(t.thrown.value)).Some?
                  then ClauseCode(CatchingClause(t.thrown.value)) else attribute))
  {
  }

  /** No token text: no authentication attempt, the context as it was, and
      the chain is entered; with a quiet chain the request passes untouched. */
  lemma NoTokenTextNoAuthentication(authorization: Option<string>, authenticate: string -> AuthOutcome,
                                    chainThrows: Option<JavaException>,
                                    attribute: Option<JwtExceptionCode>, context: Option<Authentication>)
    requires GetToken(authorization) == NoToken
          || (GetToken(authorization).Found? && !HasText(GetToken(authorization).token))
    ensures var f := FilterSpec(authorization, authenticate, chainThrows, attribute, context);
      && f.authentication == context
      && f.chainInvoked
      && (chainThrows.None? ==> f.exceptionAttribute == attribute && f.outcome == Continued)
  {
  }

  /** A token with text is authenticated, and a successful Authentication is
      in the context before the chain runs, whatever the chain then does. */
  lemma TokenAuthenticatedBeforeChain(authorization: Option<string>, authenticate: string -> AuthOutcome,
                                      chainThrows: Option<JavaException>,
                                      attribute: Option<JwtExceptionCode>, context: Option<Authentication>)
    requires GetToken(authorization).Found? && HasText(GetToken(authorization).token)
    ensures var token := GetToken(authorization).token;
            var f := FilterSpec(authorization, authenticate, chainThrows, attribute, context);
      && (authenticate(token).Authenticated? ==>
            f.authentication == Some(authenticate(token).authentication) && f.chainInvoked)
      && (authenticate(token).AuthFailed? ==>
            f.authentication == context && !f.chainInvoked && f.outcome.BadCredentials?)
  {
  }

  /** "Bearer" alone: the out-of-bounds error is not a NullPointer or
      IllegalState one, so it lands in the generic clause and no code is recorded. */
  lemma BareBearerIsGenericFailure(authenticate: string -> AuthOutcome, chainThrows: Option<JavaException>,
                                   attribute: Option<JwtExceptionCode>, context: Option<Authentication>)
    ensures FilterSpec(Some("Bearer"), authenticate, chainThrows, attribute, context)
         == FilterEffect(attribute, context, false, BadCredentials("throw new exception"))
  {
  }

  /** The request, as far as the filter uses it. */
  class HttpRequest {
    const authorization: Option<string>
    var exceptionAttribute: Option<JwtExceptionCode>

    constructor (authorization: Option<string>)
      ensures this.authorization == authorization && exceptionAttribute == None
    {
      this.authorization := authorization;
      exceptionAttribute := None;
    }
  }

  class JwtAuthenticationFilter {
    /** AuthenticationManager.authenticate applied to a JwtAuthenticationToken. */
    const authenticationManager: string -> AuthOutcome

    constructor (authenticationManager: string -> AuthOutcome)
      ensures this.authenticationManager == authenticationManager
    {
      this.authenticationManager := authenticationManager;
    }

    /** getAuthentication: authenticate, and on success install the result in the context. */
    method GetAuthentication(token: string, context: SecurityContext) returns (thrown: Option<JavaException>)
      modifies context
      ensures authenticationManager(token).Authenticated? ==>
        context.authentication == Some(authenticationManager(token).authentication) && thrown == None
      ensures authenticationManager(token).AuthFailed? ==>
        context.authentication == old(context.authentication) && thrown == Some(authenticationManager(token).thrown)
    {
      var outcome := authenticationManager(token);
      match outcome
      case AuthFailed(e) =>
        thrown := Some(e);
      case Authenticated(a) =>
        context.authentication := Some(a);
        thrown := None;
    }

    /** doFilterInternal; `chainThrows` stands for filterChain.doFilter. */
    method DoFilterInternal(request: HttpRequest, context: SecurityContext, chainThrows: Option<JavaException>)
      returns (chainInvoked: bool, outcome: FilterOutcome)
      modifies request, context
      ensures FilterEffect(request.exceptionAttribute, context.authentication, chainInvoked, outcome)
           == FilterSpec(request.authorization, authenticationManager, chainThrows,
                         old(request.exceptionAttribute), old(context.authentication))
    {
      var thrown: Option<JavaException> := None;
      chainInvoked := false;
      var extracted := GetToken(request.authorization);
      if extracted.OutOfBounds? {
        thrown := Some(ArrayIndexOutOfBounds);
      } else {
        if extracted.Found? && HasText(extracted.token) {
          thrown := GetAuthentication(extracted.token, context);
        }
        if thrown.None? {
          chainInvoked := true;
          thrown := chainThrows;
        }
      }
      match thrown
      case None =>
        outcome := Continued;
      case Some(e) =>
        var clause := CatchingClause(e);
        var code := ClauseCode(clause);
        if code.Some? {
          request.exceptionAttribute := code;
        }
        outcome := BadCredentials(ClauseMessage(clause));
    }
  }
}
