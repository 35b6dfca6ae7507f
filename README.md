# JWT authentication pipeline — Dafny model

A model of the token authentication pipeline of a Spring Boot backend, with proofs:

- `JwtTokenizer` issues and parses the access token (30 minutes) and the refresh token (7 days). Each token class has its own secret.
- `JwtAuthenticationFilter` takes the bearer token out of the `Authorization` header and authenticates it. On success it installs the result in the security context. On a `NullPointerException`, `IllegalStateException`, `SecurityException`, `MalformedJwtException`, `ExpiredJwtException` or `UnsupportedJwtException` it records a failure code in the request's `"exception"` attribute. Any other failure reaches the generic clause, which records no code. Every failure throws `BadCredentialsException`.
- `IfLoginArgumentResolver` projects the installed identity into a `LoginUserDto`.
- `UserController` logs users in, logs them out and refreshes access tokens. It uses a refresh-token store.

Modules, one per source file, plus shared helpers:

- `Tokenizer` models `JwtTokenizer.java`: the lifetimes, create/parse, and `getUserIdFromToken`.
- `AuthFilter` models `JwtAuthenticationFilter.java`: `getToken`, the catch clauses, `getAuthentication` and `doFilterInternal`.
- `LoginUser` models `LoginUserDto.java`.
- `ArgumentResolver` models `IfLoginArgumentResolver.java`.
- `Users` models `UserController.java`: `login`, `logout` and `requestRefresh`.
- `Pipeline` chains the pieces: access token → header → filter → resolver.
- `JavaStrings` models `String.split(" ")` (limit 0, trailing empties dropped) and `StringUtils.hasText`.
- `Security` holds the exceptions, the principal, `Authentication` and the security context.
- `Wrappers` holds `Option` (Java `null`) and `Result` (a thrown exception).

Signing is abstract. A token is its claims plus the secret that signed it and the HMAC algorithm named in its header. `signWith` picks HS512, HS384 or HS256 as the strongest algorithm the signing secret is long enough for (64, 48 or 32 bytes). Parsing first checks that the verifying secret is long enough for the token's algorithm, then compares secrets, then checks the expiry, and only then refuses an unsigned token. A `Codec` (`compact`/`parse`) stands for the compact JWS serialisation, and `SoundCodec` states what it guarantees: `parse` inverts `compact`, and the text is non-empty and made only of base64url characters and dots. Verifying a signature means comparing secrets. `iat` and `exp` are whole seconds (NumericDate, section 2 of RFC 7519). A token is valid while `now < exp·1000`, as section 4.1.4 of RFC 7519 requires.

Quirks of the code that the model keeps:

- Only `"Bearer"` is checked, not the space after it, so `"BearerX abc"` yields `abc`.
- `"Bearer"` and `"Bearer "` have no element `[1]`. The out-of-bounds error is neither a `NullPointerException` nor an `IllegalStateException`, so it reaches the generic catch and no code is recorded.
- `"Bearer  t"` yields `""`, so no authentication is attempted.
- A wrong-key signature error is jjwt's `SignatureException`, which is not `java.lang.SecurityException`. If the authentication provider lets it propagate, it also reaches the generic catch and records no code. The same holds for `WeakKeyException`. jjwt throws that one both for a secret under 32 bytes and for a token whose algorithm needs a longer key than the verifying secret: with a 64-byte access secret and a 32-byte refresh secret, an access token parsed as a refresh token fails with `WeakKeyException`, not `SignatureException`.
- An unsigned token that has expired fails with `ExpiredJwtException`, because jjwt checks the expiry before it refuses unsigned tokens.
- Exceptions thrown further down the filter chain are caught by the same clauses.
- The `id` claim is read back through `(Integer)`. An id outside the `Integer` range, which JSON returns as a `Long`, fails with `ClassCastException`. This affects both `getUserIdFromToken` and `requestRefresh`.
- Login puts the stored password hash in the `name` claim. Refresh puts the nickname there.
- The refresh token is not rotated: `requestRefresh` never changes the store.

## Model

| member | source | states |
|---|---|---|
| `JavaStrings.Fields` | src/main/java/com/example/teama/jwt/filter/JwtAuthenticationFilter.java:90 | splitting on the delimiter gives at least one field and no field contains the delimiter |
| `JavaStrings.JoinFields` | src/main/java/com/example/teama/jwt/filter/JwtAuthenticationFilter.java:90 | joining the fields with the delimiter gives back the original string |
| `JavaStrings.FieldsJoin` | src/main/java/com/example/teama/jwt/filter/JwtAuthenticationFilter.java:90 | delimiter-free pieces, joined, split back into exactly those pieces |
| `JavaStrings.StripTrailingEmpty` | src/main/java/com/example/teama/jwt/filter/JwtAuthenticationFilter.java:90 | Java's limit-0 rule: the result is a prefix, does not end in "", and everything dropped is "" |
| `JavaStrings.Split` | src/main/java/com/example/teama/jwt/filter/JwtAuthenticationFilter.java:90 | no element of `split(" ")` contains a space |
| `JavaStrings.SplitLongerThan` | src/main/java/com/example/teama/jwt/filter/JwtAuthenticationFilter.java:90-91 | the split result has more than k elements iff some field at index k or later is non-empty |
| `JavaStrings.SplitTwoFields` | src/main/java/com/example/teama/jwt/filter/JwtAuthenticationFilter.java:90-91 | `a + " " + b` with space-free `a` and non-empty space-free `b` splits into `[a, b]` |
| `JavaStrings.SplitWithoutDelimiter` | src/main/java/com/example/teama/jwt/filter/JwtAuthenticationFilter.java:90-91 | a string without a space splits into itself alone, so there is no element [1] |
| `AuthFilter.GetToken` | src/main/java/com/example/teama/jwt/filter/JwtAuthenticationFilter.java:87-94 | null exactly when the header is missing, has no text, or does not start with "Bearer"; an extracted token never contains a space |
| `AuthFilter.GetTokenOfBearerHeader` | src/main/java/com/example/teama/jwt/filter/JwtAuthenticationFilter.java:88-91 | a header "Bearer…" + space + non-empty space-free token yields exactly that token |
| `AuthFilter.GetTokenWithoutSpace` | src/main/java/com/example/teama/jwt/filter/JwtAuthenticationFilter.java:89-91 | a "Bearer…" header without a space raises the out-of-bounds error |
| `AuthFilter.GetTokenSecondField` | src/main/java/com/example/teama/jwt/filter/JwtAuthenticationFilter.java:89-91 | for a "Bearer…" header with a space: field [1] if some later field is non-empty, otherwise out of bounds |
| `AuthFilter.GetTokenUncheckedSpace` | src/main/java/com/example/teama/jwt/filter/JwtAuthenticationFilter.java:89 | "BearerX abc" is accepted and yields "abc" |
| `AuthFilter.GetTokenNoSecondElement` | src/main/java/com/example/teama/jwt/filter/JwtAuthenticationFilter.java:90-91 | "Bearer" and "Bearer " raise the out-of-bounds error |
| `AuthFilter.GetTokenDoubleSpace` | src/main/java/com/example/teama/jwt/filter/JwtAuthenticationFilter.java:90-91 | "Bearer  t" yields the empty string |
| `AuthFilter.GetTokenNull` | src/main/java/com/example/teama/jwt/filter/JwtAuthenticationFilter.java:88-93 | another scheme, a blank header and a missing header give null |
| `AuthFilter.FirstCatchFrom` | src/main/java/com/example/teama/jwt/filter/JwtAuthenticationFilter.java:44-74 | the chosen clause catches the exception and no earlier clause does (first match wins) |
| `AuthFilter.ExceptionCodes` | src/main/java/com/example/teama/jwt/filter/JwtAuthenticationFilter.java:44-64 | NullPointer/IllegalState → NOT_FOUND_TOKEN, Security/Malformed → INVALID_TOKEN, Expired → EXPIRED_TOKEN, Unsupported → UNSUPPORTED_TOKEN; every other exception records no code (each as an iff) |
| `AuthFilter.FailureAlwaysBadCredentials` | src/main/java/com/example/teama/jwt/filter/JwtAuthenticationFilter.java:44-74 | the filter returns normally iff nothing was thrown; every failure throws BadCredentials with its clause's message, and the attribute changes only to that clause's code |
| `AuthFilter.NoTokenTextNoAuthentication` | src/main/java/com/example/teama/jwt/filter/JwtAuthenticationFilter.java:35-42 | without token text: no authentication, context unchanged, chain entered; with a quiet chain the attribute is untouched |
| `AuthFilter.TokenAuthenticatedBeforeChain` | src/main/java/com/example/teama/jwt/filter/JwtAuthenticationFilter.java:35-42 | a token with text is authenticated; on success the result is in the context and the chain runs; on failure the context is unchanged and the chain is skipped |
| `AuthFilter.BareBearerIsGenericFailure` | src/main/java/com/example/teama/jwt/filter/JwtAuthenticationFilter.java:64-73 | header "Bearer": generic clause, attribute and context unchanged, chain not entered |
| `AuthFilter.JwtAuthenticationFilter.GetAuthentication` | src/main/java/com/example/teama/jwt/filter/JwtAuthenticationFilter.java:78-84 | on success the context holds the manager's Authentication; on failure the context is unchanged and the exception is passed on |
| `AuthFilter.JwtAuthenticationFilter.DoFilterInternal` | src/main/java/com/example/teama/jwt/filter/JwtAuthenticationFilter.java:30-75 | the request attribute, the context, chain entry and the outcome are those of `FilterSpec` |
| `Tokenizer.SigningKey` | src/main/java/com/example/teama/jwt/util/JwtTokenizer.java:91-93 | a key exists iff the secret has at least 32 bytes; otherwise WeakKeyException |
| `Tokenizer.AlgorithmFor` | src/main/java/com/example/teama/jwt/util/JwtTokenizer.java:54 | `signWith` picks an algorithm the signing secret is long enough for, and no stronger one fits |
| `Tokenizer.ParseToken` | src/main/java/com/example/teama/jwt/util/JwtTokenizer.java:77-83 | succeeds iff the key is strong, the text non-empty, it decodes, it is signed with exactly this secret under an algorithm the secret is long enough for, and now < exp; the result is the token's claims; WeakKey exactly when the secret is under 32 bytes or too short for the token's algorithm; ExpiredJwt only for a token that decodes, is past exp, and is unsigned or signed with this secret |
| `Tokenizer.UnsignedTokenRefused` | src/main/java/com/example/teama/jwt/util/JwtTokenizer.java:77-83 | an unsigned token fails with UnsupportedJwt while live and with ExpiredJwt once expired |
| `Tokenizer.IntegerClaim` | src/main/java/com/example/teama/jwt/util/JwtTokenizer.java:63 | the `(Integer)` cast succeeds iff the id fits an Integer, giving the id unchanged |
| `Tokenizer.ExpiryInstantBounds` | src/main/java/com/example/teama/jwt/util/JwtTokenizer.java:53 | the expiry instant, truncated to seconds, is within one second before issuance + lifetime |
| `Tokenizer.ExpirationIsIssuedAtPlusLifetime` | src/main/java/com/example/teama/jwt/util/JwtTokenizer.java:52-53 | for a whole-second lifetime, exp = iat + lifetime in seconds |
| `Tokenizer.CreateThenParse` | src/main/java/com/example/teama/jwt/util/JwtTokenizer.java:40-56 | issue then parse under the same strong secret: the same sub, roles, id, name, iat, exp before the expiry instant; ExpiredJwt from it on |
| `Tokenizer.WrongKeyRefused` | src/main/java/com/example/teama/jwt/util/JwtTokenizer.java:77-83 | a token parsed under a different strong secret fails at any time: WeakKey when that secret is too short for the algorithm the signer's length chose, otherwise the signature error |
| `Tokenizer.AccessTokenRoundTrip` | src/main/java/com/example/teama/jwt/util/JwtTokenizer.java:30-32 | access tokens use the access secret; claims round-trip; exp − iat = 1800 s; valid iff before the expiry instant, else ExpiredJwt |
| `Tokenizer.RefreshTokenRoundTrip` | src/main/java/com/example/teama/jwt/util/JwtTokenizer.java:35-37 | refresh tokens use the refresh secret; claims round-trip; exp − iat = 604800 s |
| `Tokenizer.KeySeparation` | src/main/java/com/example/teama/jwt/util/JwtTokenizer.java:67-74 | with distinct secrets an access token fails as a refresh token and vice versa, with WeakKey when the parsing secret is shorter than the other secret's algorithm needs and the signature error otherwise |
| `Tokenizer.JwtTokenizer.GetUserIdFromToken` | src/main/java/com/example/teama/jwt/util/JwtTokenizer.java:59-64 | no second space-separated piece: out of bounds; a result is the id claim of that piece parsed with the access secret |
| `Tokenizer.UserIdFromBearerAccessToken` | src/main/java/com/example/teama/jwt/util/JwtTokenizer.java:59-64 | on "Bearer " + access token: the issued id while the token lives and the id fits an Integer; ClassCast or ExpiredJwt otherwise |
| `LoginUser.LoginUserDto.constructor` | src/main/java/com/example/teama/jwt/util/LoginUserDto.java:9-13 | a new descriptor has null fields and an empty role list |
| `LoginUser.LoginUserDto.AddRole` | src/main/java/com/example/teama/jwt/util/LoginUserDto.java:15-17 | roles = old roles + [role]; email, nickname and id unchanged |
| `LoginUser.DuplicateRolesKept` | src/main/java/com/example/teama/jwt/util/LoginUserDto.java:13-16 | adding the same role twice lists it twice |
| `ArgumentResolver.SupportsParameterNeedsBoth` | src/main/java/com/example/teama/jwt/util/IfLoginArgumentResolver.java:20-25 | supported iff @IfLogin is present and the type is exactly LoginUserDto; neither alone suffices |
| `ArgumentResolver.ResolveArgument` | src/main/java/com/example/teama/jwt/util/IfLoginArgumentResolver.java:28-64 | null when the context read throws, or the authentication or principal is null; ClassCast for a non-JWT authentication; otherwise a fresh descriptor with the principal's email, id and nickname and the authorities in order |
| `Users.RoleNames` | src/main/java/com/example/teama/controller/UserController.java:94 | one name per role, in the same order |
| `Users.FindByEmail` | src/main/java/com/example/teama/controller/UserController.java:89 | a found user is in the table and has that email; none means no user has it |
| `Users.GetUser` | src/main/java/com/example/teama/controller/UserController.java:154 | a found user is in the table and has that id; none means no user has it |
| `Users.LoginBindingErrors` | src/main/java/com/example/teama/controller/UserController.java:83-86 | binding errors: 400 and the store unchanged |
| `Users.LoginWrongPassword` | src/main/java/com/example/teama/controller/UserController.java:89-92 | wrong password: 401, no tokens, store unchanged |
| `Users.LoginSuccess` | src/main/java/com/example/teama/controller/UserController.java:94-121 | tokens from id, email, password hash as name and role names; exactly the new refresh value is added, owned by the user; 200 with both tokens, the id and the nickname |
| `Users.LoginNameClaimIsPasswordHash` | src/main/java/com/example/teama/controller/UserController.java:98-99 | the login access token's name claim is the stored password hash |
| `Users.RefreshUnknownValue` | src/main/java/com/example/teama/controller/UserController.java:149 | a value not in the store fails with "Refresh token not found" |
| `Users.LogoutThenRefresh` | src/main/java/com/example/teama/controller/UserController.java:129-135 | after logout of a value, refreshing it fails with "Refresh token not found" |
| `Users.RefreshUnknownUser` | src/main/java/com/example/teama/controller/UserController.java:150-154 | a stored, valid value whose id claim names no user fails with "User not found" |
| `Users.LoginThenRefresh` | src/main/java/com/example/teama/controller/UserController.java:148-171 | refreshing with the value login returned: a new access token for the same id, email and roles with the nickname as name, no refresh token in the response; ExpiredJwt once the refresh token expires |
| `Users.UserController.Login` | src/main/java/com/example/teama/controller/UserController.java:82-126 | the response and the new store are those of `LoginResult` |
| `Users.UserController.Logout` | src/main/java/com/example/teama/controller/UserController.java:129-135 | the value is removed from the store (idempotently) and the answer is 200 |
| `Users.UserController.RequestRefresh` | src/main/java/com/example/teama/controller/UserController.java:147-171 | the response is that of `RefreshResult`; the store is not modified |
| `Pipeline.BearerAccessTokenAuthenticates` | src/main/java/com/example/teama/jwt/filter/JwtAuthenticationFilter.java:30-42 | a live access token in a bearer header installs the Authentication built from its claims, leaves the attribute alone, and the chain runs normally |
| `Pipeline.BearerRequest` | src/main/java/com/example/teama/jwt/util/IfLoginArgumentResolver.java:42-63 | end to end: the controller parameter carries the issued id, email, name and roles |

## Left out

- HMAC-SHA signing and the base64url/JSON encoding inside jjwt are abstracted by `Codec` and secret equality. They are foreign library code.
- The AuthenticationManager and its JwtAuthenticationToken provider are not part of this model. The filter takes `authenticate` as a parameter. `Pipeline` assumes the provider builds the principal from the `id`, `sub` and `name` claims and the authorities from `roles`.
- `JwtAuthenticationToken` and `LoginInfoDto` are not part of this model. The principal is a `LoginInfo` or null; a principal of any other class (the `(LoginInfoDto)` cast) is not modelled.
- `SecurityContextHolder`'s thread-local storage, and clearing the context after the request, are not modelled. The context is an explicit object.
- Logging and `printStackTrace` are left out, because they have no effect on the outcome.
- Servlet plumbing is left out. Status codes are integers.
- `filterChain.doFilter` is a parameter: the exception it throws, if any.
- The clock is a parameter `now`. `createToken` reads `new Date()` twice, for `iat` and `exp`. The model uses one instant for both.
- The expiry boundary follows section 4.1.4 of RFC 7519: a token is rejected at and after `exp`. jjwt's own comparison code is not part of this model.
- `PasswordEncoder.matches` is an opaque predicate. The configured encoder is not visible.
- `RefreshTokenService` is reduced to add, lookup and delete on a map. Its handling of a duplicate value is not visible, so `add` overwrites. Two logins of one user in the same second produce the same refresh value.
- `UserService.findByEmail` throws something for an unknown email, but its class is not visible. It is modelled as `Other("no user with this email")`.
- The user table is a sequence, and lookups return its first match. Repository semantics are not visible.
- The secrets' `getBytes(UTF_8)` is left out. The model receives the secrets as bytes.
- Java `null` values for email, name, roles or id inside claims are not modelled. Java's 64-bit `Long` range for ids is not modelled; only the `Integer` cast is.
- The string values returned by `JwtExceptionCode.getCode()` are not part of this model. The attribute holds the enum constant.
- `PostController`, `UserInfoDto`, `showMyInfo`, `signup` and `userinfo` are left out. They are pass-throughs to services this model does not include.
