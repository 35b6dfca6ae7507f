/**
 * IfLoginArgumentResolver: supplies a LoginUserDto to controller parameters
 * annotated with @IfLogin, projected from the Authentication in the
 * security context, or null when there is none.
 */
module ArgumentResolver {
  import opened Wrappers
  import opened Security
  import opened LoginUser

  datatype Annotation = IfLogin | OtherAnnotation(name: string)

  datatype ParameterType = LoginUserDtoType | OtherType(name: string)

  /** A controller method parameter: its annotations and its declared type. */
  datatype MethodParameter = MethodParameter(annotations: set<Annotation>, parameterType: ParameterType)

  /** supportsParameter: @IfLogin is present and the type is exactly LoginUserDto. */
  predicate SupportsParameter(parameter: MethodParameter)
  {
    IfLogin in parameter.annotations && parameter.parameterType == LoginUserDtoType
  }

  /** Neither condition alone is enough. */
  lemma SupportsParameterNeedsBoth(annotations: set<Annotation>, t: ParameterType)
    ensures SupportsParameter(MethodParameter(annotations, t)) <==> IfLogin in annotations && t == LoginUserDtoType
    ensures !SupportsParameter(MethodParameter(annotations - {IfLogin}, LoginUserDtoType))
    ensures t != LoginUserDtoType ==> !SupportsParameter(MethodParameter(annotations + {IfLogin}, t))
  {
  }

  /** Reading the security context: it may throw, or give the Authentication (null as None). */
  datatype ContextRead = ReadThrows | Read(authentication: Option<Authentication>)

  /** resolveArgument. A context read that throws, a null Authentication and
      a null principal all give null; an Authentication that is not a
      JwtAuthenticationToken fails the cast. Otherwise a new descriptor holds
      the principal's email, id and nickname and the authorities in order. */
  method ResolveArgument(read: ContextRead) returns (dto: LoginUserDto?, thrown: Option<JavaException>)
    ensures read.ReadThrows? ==> dto == null && thrown == None
    ensures read.Read? && read.authentication.None? ==> dto == null && thrown == None
    ensures read.Read? && read.authentication.Some? && !read.authentication.value.isJwtAuthenticationToken ==>
      dto == null && thrown == Some(ClassCast)
    ensures read.Read? && read.authentication.Some? && read.authentication.value.isJwtAuthenticationToken ==>
      var a := read.authentication.value;
      && thrown == None
      && (a.principal.None? ==> dto == null)
      && (a.principal.Some? ==>
            && dto != null && fresh(dto)
            && dto.userEmail == Some(a.principal.value.email)
            && dto.userId == Some(a.principal.value.userId)
            && dto.userNickname == Some(a.principal.value.userNickname)
            && dto.roles == a.authorities)
  {
    dto, thrown := null, None;
    if read.ReadThrows? {
      return;
    }
    var authentication := read.authentication;
    if authentication.None? {
      return;
    }
    var auth := authentication.value;
    if !auth.isJwtAuthenticationToken {
      thrown := Some(ClassCast);
      return;
    }
    var loginUserDto: LoginUserDto := new LoginUserDto();
    var principal := auth.principal;
    if principal.None? {
      return;
    }
    loginUserDto.userEmail := Some(principal.value.email);
    loginUserDto.userId := Some(principal.value.userId);
    loginUserDto.userNickname := Some(principal.value.userNickname);
    var authorities := auth.authorities;
    var i := 0;
    while i < |authorities|
      invariant 0 <= i <= |authorities|
      invariant loginUserDto.roles == authorities[..i]
      modifies loginUserDto`roles
    {
      loginUserDto.AddRole(authorities[i]);
      i := i + 1;
    }
    dto := loginUserDto;
  }
}
