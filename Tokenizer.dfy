/**
 * JwtTokenizer: issues and parses the access and refresh JWTs.
 *
 * HMAC signing and the compact base64url/JSON serialisation are jjwt's and
 * are abstracted: a signed token is the record of its claims together with
 * the secret that signed it, and its wire form comes from a Codec whose
 * `parse` undoes `compact`. Verifying a signature is comparing secrets.
 * Times are epoch milliseconds; `iat` and `exp` are stored as whole
 * seconds (a NumericDate, section 2 of RFC 7519).
 */
module Tokenizer {
  import opened Wrappers
  import opened JavaStrings
  import opened Security

  type Secret = seq<bv8>

  /** Lifetimes in milliseconds: 30 minutes and 7 days. */
  const ACCESS_TOKEN_EXPIRE_COUNT: nat := 30 * 60 * 1000
  const REFRESH_TOKEN_EXPIRE_COUNT: nat := 7 * 24 * 60 * 60 * 1000

  /** Keys.hmacShaKeyFor refuses secrets shorter than 256 bits. */
  const MIN_KEY_BYTES: nat := 32

  /** Range of java.lang.Integer: a JSON number outside it is read back as a Long. */
  const INTEGER_MIN_VALUE: int := -0x8000_0000
  const INTEGER_MAX_VALUE: int := 0x7FFF_FFFF

  const EMPTY_TOKEN_MESSAGE: string := "JWT String argument cannot be null or empty."

  /** The claims of an issued token: `sub`, `roles`, `id`, `name`, `iat`, `exp`. */
  datatype Claims = Claims(
    subject: string,
    roles: seq<string>,
    id: int,
    name: string,
    issuedAt: int,
    expiration: int)

  /** The HMAC algorithms of a JWS header (section 3.2 of RFC 7518). */
  datatype MacAlgorithm = HS256 | HS384 | HS512

  /** The shortest key an algorithm accepts: as many bytes as its hash output.
      jjwt checks this for signing and for verifying keys alike. */
  function MinKeyBytes(alg: MacAlgorithm): nat {
    match alg
    case HS256 => 32
    case HS384 => 48
    case HS512 => 64
  }

  /** signWith(key) with an HMAC key: the strongest algorithm the key is long
      enough for, tried in the order HS512, HS384, HS256. */
  function AlgorithmFor(key: Secret): (r: MacAlgorithm)
    requires |key| >= MIN_KEY_BYTES
    ensures MinKeyBytes(r) <= |key|
    ensures forall a :: MinKeyBytes(a) <= |key| ==> MinKeyBytes(a) <= MinKeyBytes(r)
  {
    if |key| >= MinKeyBytes(HS512) then HS512
    else if |key| >= MinKeyBytes(HS384) then HS384
    else HS256
  }

  /** How a token is signed: not at all (`alg` "none"), or with an HMAC
      algorithm named in its header and a secret. */
  datatype Signature = Unsigned | SignedWith(alg: MacAlgorithm, key: Secret)

  /** A JWS: the claims and how they were signed. */
  datatype Jws = Jws(claims: Claims, signature: Signature)

  /** The compact serialisation and its parser. */
  datatype Codec = Codec(compact: Jws -> string, parse: string -> Option<Jws>)

  /** The characters of the compact form: base64url digits and the dots between segments. */
  predicate IsCompactChar(ch: char) {
    ('A' <= ch <= 'Z') || ('a' <= ch <= 'z') || ('0' <= ch <= '9') || ch == '-' || ch == '_' || ch == '.'
  }

  /** What the compact serialisation guarantees: parsing gives back the token,
      and the text is non-empty and made of compact characters only. */
  ghost predicate SoundCodec(codec: Codec) {
    && (forall j :: codec.parse(codec.compact(j)) == Some(j))
    && (forall j :: |codec.compact(j)| > 0)
    && (forall j, i :: 0 <= i < |codec.compact(j)| ==> IsCompactChar(codec.compact(j)[i]))
  }

  lemma CompactHasTextNoSpace(codec: Codec, j: Jws)
    requires SoundCodec(codec)
    ensures HasText(codec.compact(j)) && ' ' !in codec.compact(j)
  {
    var s := codec.compact(j);
    assert IsCompactChar(s[0]);
    assert !IsWhitespace(s[0]);
  }

  /** Keys.hmacShaKeyFor: the key, or WeakKeyException for a short secret. */
  function SigningKey(secret: Secret): (r: Result<Secret, JavaException>)
    ensures r.Ok? <==> |secret| >= MIN_KEY_BYTES
    ensures r.Ok? ==> r.value == secret
    ensures r.Err? ==> r.error == WeakKey
  {
    if |secret| < MIN_KEY_BYTES then Err(WeakKey) else Ok(secret)
  }

  /** createToken: claims `sub`=email, `roles`, `id`, `name`, issued now and
      expiring `expire` milliseconds later, signed with `secret`. */
  function CreateToken(codec: Codec, id: int, email: string, name: string, roles: seq<string>,
                       expire: nat, secret: Secret, now: nat): (r: Result<string, JavaException>)
  {
    match SigningKey(secret)
    case Err(e) => Err(e)
    case Ok(key) =>
      Ok(codec.compact(Jws(Claims(email, roles, id, name, now / 1000, (now + expire) / 1000),
                           SignedWith(AlgorithmFor(key), key))))
  }

  /** parseToken: the key is made first (hmacShaKeyFor), then parseClaimsJws
      runs at time `now`: empty text, structure, the verifying key's length for
      the header's algorithm, the signature, the expiry, and last the refusal
      of an unsigned token by the claims-JWS handler. */
  function ParseToken(codec: Codec, token: string, secret: Secret, now: nat): (r: Result<Claims, JavaException>)
    ensures r.Ok? <==>
      && |secret| >= MIN_KEY_BYTES
      && HasText(token)
      && codec.parse(token).Some?
      && codec.parse(token).value.signature.SignedWith?
      && codec.parse(token).value.signature.key == secret
      && MinKeyBytes(codec.parse(token).value.signature.alg) <= |secret|
      && now < codec.parse(token).value.claims.expiration * 1000
    ensures r.Ok? ==> r.value == codec.parse(token).value.claims
    ensures r == Err(WeakKey) <==>
      || |secret| < MIN_KEY_BYTES
      || (&& HasText(token)
          && codec.parse(token).Some?
          && codec.parse(token).value.signature.SignedWith?
          && |secret| < MinKeyBytes(codec.parse(token).value.signature.alg))
    ensures r == Err(ExpiredJwt) ==>
      && codec.parse(token).Some?
      && now >= codec.parse(token).value.claims.expiration * 1000
      && (codec.parse(token).value.signature.SignedWith? ==> codec.parse(token).value.signature.key == secret)
  {
    match SigningKey(secret)
    case Err(e) => Err(e)
    case Ok(key) =>
      if !HasText(token) then Err(IllegalArgument(EMPTY_TOKEN_MESSAGE))
      else
        match codec.parse(token)
        case None => Err(MalformedJwt)
        case Some(jws) =>
          if jws.signature.SignedWith? && |key| < MinKeyBytes(jws.signature.alg) then Err(WeakKey)
          else if jws.signature.SignedWith? && jws.signature.key != key then Err(SignatureJwt)
          else if now >= jws.claims.expiration * 1000 then Err(ExpiredJwt)
          else if jws.signature.Unsigned? then Err(UnsupportedJwt)
          else Ok(jws.claims)
  }

  /** An unsigned token is refused only after its expiry is checked: expired,
      it fails as ExpiredJwt; live, as UnsupportedJwt. */
  lemma {:induction false} UnsignedTokenRefused(codec: Codec, c: Claims, secret: Secret, now: nat)
    requires SoundCodec(codec)
    requires |secret| >= MIN_KEY_BYTES
    ensures ParseToken(codec, codec.compact(Jws(c, Unsigned)), secret, now)
         == if now < c.expiration * 1000 then Err(UnsupportedJwt) else Err(ExpiredJwt)
  {
    CompactHasTextNoSpace(codec, Jws(c, Unsigned));
    assert codec.parse(codec.compact(Jws(c, Unsigned))) == Some(Jws(c, Unsigned));
  }

  /** `Long.valueOf((Integer) claims.get("id"))`: the id claim comes back from
      JSON as an Integer only when it fits one; otherwise the cast fails. */
  function IntegerClaim(v: int): (r: Result<int, JavaException>)
    ensures r.Ok? <==> INTEGER_MIN_VALUE <= v <= INTEGER_MAX_VALUE
    ensures r.Ok? ==> r.value == v
    ensures r.Err? ==> r.error == ClassCast
  {
    if INTEGER_MIN_VALUE <= v <= INTEGER_MAX_VALUE then Ok(v) else Err(ClassCast)
  }

  /** The instant (milliseconds) from which a token issued at `now` with
      lifetime `expire` is expired. */
  function ExpiryInstant(now: nat, expire: nat): nat {
    (now + expire) / 1000 * 1000
  }

  /** The second-granular expiry loses less than a second of the lifetime. */
  lemma ExpiryInstantBounds(now: nat, expire: nat)
    ensures now + expire - 1000 < ExpiryInstant(now, expire) <= now + expire
  {
  }

  /** With a lifetime of whole seconds, `exp` is `iat` plus that many seconds. */
  lemma ExpirationIsIssuedAtPlusLifetime(now: nat, expire: nat)
    requires expire % 1000 == 0
    ensures (now + expire) / 1000 == now / 1000 + expire / 1000
  {
  }

  /** Issuing then parsing under the same strong secret: before the expiry
      instant the claims come back exactly as given; from it on, ExpiredJwt. */
  lemma {:induction false} CreateThenParse(codec: Codec, id: int, email: string, name: string, roles: seq<string>,
                                           expire: nat, secret: Secret, now: nat, t: nat)
    requires SoundCodec(codec)
    requires |secret| >= MIN_KEY_BYTES
    ensures CreateToken(codec, id, email, name, roles, expire, secret, now).Ok?
    ensures ParseToken(codec, CreateToken(codec, id, email, name, roles, expire, secret, now).value, secret, t)
         == if t < ExpiryInstant(now, expire)
            then Ok(Claims(email, roles, id, name, now / 1000, (now + expire) / 1000))
            else Err(ExpiredJwt)
  {
    var jws := Jws(Claims(email, roles, id, name, now / 1000, (now + expire) / 1000),
                   SignedWith(AlgorithmFor(secret), secret));
    CompactHasTextNoSpace(codec, jws);
    assert codec.parse(codec.compact(jws)) == Some(jws);
  }

  /** A token signed with one strong secret is refused under a different one,
      whenever it is parsed: as WeakKey when the verifying secret is too short
      for the algorithm the signer's length chose, otherwise as SignatureJwt. */
  lemma {:induction false} WrongKeyRefused(codec: Codec, id: int, email: string, name: string, roles: seq<string>,
                                           expire: nat, signer: Secret, verifier: Secret, now: nat, t: nat)
    requires SoundCodec(codec)
    requires |signer| >= MIN_KEY_BYTES && |verifier| >= MIN_KEY_BYTES && signer != verifier
    ensures CreateToken(codec, id, email, name, roles, expire, signer, now).Ok?
    ensures ParseToken(codec, CreateToken(codec, id, email, name, roles, expire, signer, now).value, verifier, t)
         == if |verifier| < MinKeyBytes(AlgorithmFor(signer)) then Err(WeakKey) else Err(SignatureJwt)
  {
    var jws := Jws(Claims(email, roles, id, name, now / 1000, (now + expire) / 1000),
                   SignedWith(AlgorithmFor(signer), signer));
    CompactHasTextNoSpace(codec, jws);
    assert codec.parse(codec.compact(jws)) == Some(jws);
  }

  /** The tokenizer bean: the two secrets and the serialisation. */
  datatype JwtTokenizer = JwtTokenizer(accessSecret: Secret, refreshSecret: Secret, codec: Codec) {

    ghost predicate Valid() {
      SoundCodec(codec) && |accessSecret| >= MIN_KEY_BYTES && |refreshSecret| >= MIN_KEY_BYTES
    }

    function CreateAccessToken(id: int, email: string, name: string, roles: seq<string>, now: nat): Result<string, JavaException> {
      CreateToken(codec, id, email, name, roles, ACCESS_TOKEN_EXPIRE_COUNT, accessSecret, now)
    }

    function CreateRefreshToken(id: int, email: string, name: string, roles: seq<string>, now: nat): Result<string, JavaException> {
      CreateToken(codec, id, email, name, roles, REFRESH_TOKEN_EXPIRE_COUNT, refreshSecret, now)
    }

    function ParseAccessToken(token: string, now: nat): Result<Claims, JavaException> {
      ParseToken(codec, token, accessSecret, now)
    }

    function ParseRefreshToken(token: string, now: nat): Result<Claims, JavaException> {
      ParseToken(codec, token, refreshSecret, now)
    }

    /** getUserIdFromToken: the second space-separated piece of `token`
        (ArrayIndexOutOfBounds when there is none), parsed with the access
        secret, and its `id` claim read through the Integer cast. */
    function GetUserIdFromToken(token: string, now: nat): (r: Result<int, JavaException>)
      ensures r.Ok? ==>
                && |Split(token, ' ')| >= 2
                && ParseAccessToken(Split(token, ' ')[1], now).Ok?
                && ParseAccessToken(Split(token, ' ')[1], now).value.id == r.value
      ensures |Split(token, ' ')| < 2 ==> r == Err(ArrayIndexOutOfBounds)
    {
      var tokenArr := Split(token, ' ');
      if |tokenArr| < 2 then Err(ArrayIndexOutOfBounds)
      else
        match ParseAccessToken(tokenArr[1], now)
        case Err(e) => Err(e)
        case Ok(claims) => IntegerClaim(claims.id)
    }
  }

  /** Access tokens: signed with the access secret, `exp` 1800 s after `iat`,
      and parsed back with all four claims intact until the expiry instant. */
  lemma AccessTokenRoundTrip(tk: JwtTokenizer, id: int, email: string, name: string, roles: seq<string>, now: nat, t: nat)
    requires tk.Valid()
    ensures tk.CreateAccessToken(id, email, name, roles, now).Ok?
    ensures var c := tk.ParseAccessToken(tk.CreateAccessToken(id, email, name, roles, now).value, t);
      && (c.Ok? <==> t < ExpiryInstant(now, ACCESS_TOKEN_EXPIRE_COUNT))
      && (c.Ok? ==> c.value.subject == email && c.value.id == id && c.value.name == name && c.value.roles == roles
                    && c.value.expiration == c.value.issuedAt + 1800)
      && (c.Err? ==> c.error == ExpiredJwt)
  {
    CreateThenParse(tk.codec, id, email, name, roles, ACCESS_TOKEN_EXPIRE_COUNT, tk.accessSecret, now, t);
    ExpirationIsIssuedAtPlusLifetime(now, ACCESS_TOKEN_EXPIRE_COUNT);
  }

  /** Refresh tokens: the same with the refresh secret and 604800 s (7 days). */
  lemma RefreshTokenRoundTrip(tk: JwtTokenizer, id: int, email: string, name: string, roles: seq<string>, now: nat, t: nat)
    requires tk.Valid()
    ensures tk.CreateRefreshToken(id, email, name, roles, now).Ok?
    ensures var c := tk.ParseRefreshToken(tk.CreateRefreshToken(id, email, name, roles, now).value, t);
      && (c.Ok? <==> t < ExpiryInstant(now, REFRESH_TOKEN_EXPIRE_COUNT))
      && (c.Ok? ==> c.value.subject == email && c.value.id == id && c.value.name == name && c.value.roles == roles
                    && c.value.expiration == c.value.issuedAt + 604800)
      && (c.Err? ==> c.error == ExpiredJwt)
  {
    CreateThenParse(tk.codec, id, email, name, roles, REFRESH_TOKEN_EXPIRE_COUNT, tk.refreshSecret, now, t);
    ExpirationIsIssuedAtPlusLifetime(now, REFRESH_TOKEN_EXPIRE_COUNT);
  }

  /** Key separation: with distinct secrets, an access token never parses as
      a refresh token and a refresh token never parses as an access token.
      The error is WeakKey when the parsing secret is too short for the
      algorithm the other secret's length chose, SignatureJwt otherwise. */
  lemma KeySeparation(tk: JwtTokenizer, id: int, email: string, name: string, roles: seq<string>, now: nat, t: nat)
    requires tk.Valid() && tk.accessSecret != tk.refreshSecret
    ensures tk.CreateAccessToken(id, email, name, roles, now).Ok?
    ensures tk.ParseRefreshToken(tk.CreateAccessToken(id, email, name, roles, now).value, t)
         == if |tk.refreshSecret| < MinKeyBytes(AlgorithmFor(tk.accessSecret)) then Err(WeakKey) else Err(SignatureJwt)
    ensures tk.CreateRefreshToken(id, email, name, roles, now).Ok?
    ensures tk.ParseAccessToken(tk.CreateRefreshToken(id, email, name, roles, now).value, t)
         == if |tk.accessSecret| < MinKeyBytes(AlgorithmFor(tk.refreshSecret)) then Err(WeakKey) else Err(SignatureJwt)
  {
    WrongKeyRefused(tk.codec, id, email, name, roles, ACCESS_TOKEN_EXPIRE_COUNT, tk.accessSecret, tk.refreshSecret, now, t);
    WrongKeyRefused(tk.codec, id, email, name, roles, REFRESH_TOKEN_EXPIRE_COUNT, tk.refreshSecret, tk.accessSecret, now, t);
  }

  /** getUserIdFromToken on "Bearer <access token>": the id given at issuance,
      while the token lives and the id fits an Integer. */
  lemma UserIdFromBearerAccessToken(tk: JwtTokenizer, id: int, email: string, name: string, roles: seq<string>, now: nat, t: nat)
    requires tk.Valid()
    ensures tk.CreateAccessToken(id, email, name, roles, now).Ok?
    ensures tk.GetUserIdFromToken("Bearer " + tk.CreateAccessToken(id, email, name, roles, now).value, t)
         == if t >= ExpiryInstant(now, ACCESS_TOKEN_EXPIRE_COUNT) then Err(ExpiredJwt)
            else if INTEGER_MIN_VALUE <= id <= INTEGER_MAX_VALUE then Ok(id)
            else Err(ClassCast)
  {
    var s := ACCESS_TOKEN_EXPIRE_COUNT;
    var jws := Jws(Claims(email, roles, id, name, now / 1000, (now + s) / 1000),
                   SignedWith(AlgorithmFor(tk.accessSecret), tk.accessSecret));
    var tok := tk.codec.compact(jws);
    CompactHasTextNoSpace(tk.codec, jws);
    CreateThenParse(tk.codec, id, email, name, roles, s, tk.accessSecret, now, t);
    assert "Bearer " + tok == "Bearer" + [' '] + tok;
    SplitTwoFields("Bearer", tok, ' ');
  }
}
