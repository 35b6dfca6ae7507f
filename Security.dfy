/**
 * The Java and Spring Security values the authentication pipeline passes
 * between its parts: the exceptions it throws and catches, the principal
 * and Authentication the AuthenticationManager produces, and the
 * security context that carries the Authentication through one request.
 */
module Security {
  import opened Wrappers

  /** The exception classes thrown on the paths the model covers. The jjwt
      SignatureException and WeakKeyException are io.jsonwebtoken ones,
      not java.lang.SecurityException. */
  datatype JavaException =
    | NullPointer
    | IllegalState
    | IllegalArgument(message: string)
    | ArrayIndexOutOfBounds
    | ClassCast
    | JavaSecurity
    | MalformedJwt
    | ExpiredJwt
    | UnsupportedJwt
    | SignatureJwt
    | WeakKey
    | Other(description: string)

  /** LoginInfoDto, the principal of an authenticated JwtAuthenticationToken. */
  datatype LoginInfo = LoginInfo(userId: int, email: string, userNickname: string)

  /** An Authentication: whether it is a JwtAuthenticationToken (the only kind
      the argument resolver can cast), its principal (null as None) and the
      authority strings of getAuthorities() in iteration order. */
  datatype Authentication = Authentication(
    isJwtAuthenticationToken: bool,
    principal: Option<LoginInfo>,
    authorities: seq<string>)

  /** The security context of the request being handled. */
  class SecurityContext {
    var authentication: Option<Authentication>

    constructor ()
      ensures authentication == None
    {
      authentication := None;
    }
  }
}
