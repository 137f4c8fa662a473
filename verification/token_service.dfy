/** The credential helpers of src/utils/auth.ts: bearer-header parsing, the
    claim sets of access and refresh tokens, the control flow of the two
    verifiers, and the hex-encoded password digest.

    Signing, signature checking, payload decoding and SHA-256 are not
    interpreted: they are function-valued fields of `Env`, so every statement
    below holds for whatever those primitives compute. */
module TokenService {
  import opened Base
  import opened UserSchema

  type Byte = x: int | 0 <= x < 256

  /** The `sub` claim as it can appear in a decoded payload: missing, a
      number (login and register sign the numeric row id) or a string
      (refresh signs `id.toString()`). */
  datatype Sub = NoSub | NumSub(n: int) | StrSub(s: string)

  /** JavaScript truthiness of a `sub` value. */
  predicate Truthy(sub: Sub) {
    match sub
    case NoSub => false
    case NumSub(n) => n != 0
    case StrSub(s) => s != ""
  }

  /** The numeric id a `sub` claim selects in `WHERE id = ?`: a number selects
      itself, a string of decimal digits selects its value, anything else
      selects no row. */
  function SubjectId(sub: Sub): (r: Option<int>)
    ensures sub.NumSub? ==> r == Some(sub.n)
    ensures sub.NoSub? ==> r.None?
    ensures sub.StrSub? ==> (r.Some? <==> |sub.s| > 0 && AllDigits(sub.s))
    ensures r.Some? && sub.StrSub? ==> r.value >= 0 && r.value == DigitsValue(sub.s)
  {
    match sub
    case NoSub => None
    case NumSub(n) => Some(n)
    case StrSub(s) =>
      match ParseDecimal(s)
      case None => None
      case Some(v) => Some(v)
  }

  /** The string subject `String(id)` selects the row with that id. */
  lemma SubjectIdOfRenderedId(id: nat)
    ensures SubjectId(StrSub(NatToString(id))) == Some(id)
  {
    ParseDecimalRoundTrip(id);
  }

  /** A decoded token payload. `kind` is the `type` claim. Claims are kept as
      the JSON strings they are; `role` is not checked against the enumeration. */
  datatype Payload = Payload(
    sub: Sub,
    email: Option<string>,
    role: Option<string>,
    kind: Option<string>,
    iat: int,
    exp: int)

  /** The signing library and the digest primitive, plus configuration.
      `verify` yields `None` when it throws; `decode` (base64url decode of the
      middle segment and JSON parse) yields `None` when either step throws. */
  datatype Env = Env(
    sign: (Payload, string) -> string,
    verify: (string, string) -> Option<bool>,
    decode: string -> Option<Payload>,
    sha256: string -> seq<Byte>,
    jwtSecret: string,
    saltRounds: Option<string>)

  // ---------------------------------------------------------------------
  // Bearer header
  // ---------------------------------------------------------------------

  const BearerPrefix: string := "Bearer "

  /** `extractTokenFromHeader`: the text after a case-sensitive `"Bearer "`
      prefix, or nothing for a missing, empty or differently prefixed header. */
  function ExtractTokenFromHeader(header: Option<string>): (r: Option<string>)
    ensures r.Some? <==> header.Some? && StartsWith(header.value, BearerPrefix)
    ensures r.Some? ==> header.value == BearerPrefix + r.value
  {
    match header
    case None => None
    case Some(h) =>
      if h == "" || !StartsWith(h, BearerPrefix) then None
      else
        assert h == h[..7] + h[7..];
        Some(h[7..])
  }

  /** Prefixing any token, even the empty one, and extracting it gives it back. */
  lemma ExtractTokenRoundTrip(token: string)
    ensures ExtractTokenFromHeader(Some(BearerPrefix + token)) == Some(token)
  {
    var h := BearerPrefix + token;
    assert h[..|BearerPrefix|] == BearerPrefix;
  }

  /** The prefix match is case-sensitive, and the bare scheme name carries no token. */
  lemma ExtractTokenRejects()
    ensures ExtractTokenFromHeader(Some("bearer abc")) == None
    ensures ExtractTokenFromHeader(Some("Bearer")) == None
    ensures ExtractTokenFromHeader(Some("")) == None
  {
    assert "bearer abc"[..7] != BearerPrefix by { assert "bearer abc"[0] == 'b'; }
  }

  // ---------------------------------------------------------------------
  // Claim sets
  // ---------------------------------------------------------------------

  /** Default lifetime of an access token, in seconds (24 hours). */
  const AccessTtl: int := 86400
  /** Lifetime of a refresh token, in seconds (30 days). */
  const RefreshTtl: int := 30 * 24 * 60 * 60
  const RefreshKind: string := "refresh"

  /** `Math.floor(Date.now() / 1000)`: the clock in milliseconds, in whole seconds. */
  function UnixSeconds(nowMs: int): (sec: int)
    ensures sec * 1000 <= nowMs < sec * 1000 + 1000
  {
    nowMs / 1000
  }

  /** The caller-supplied part of an access token's claims. */
  datatype AccessFields = AccessFields(sub: Sub, email: string, role: Role)

  /** `generateJWT`'s claim set: the fields copied, `iat` now, `exp` after
      `expiresIn` seconds, no `type` claim. */
  function AccessPayload(fields: AccessFields, nowMs: int, expiresIn: int): (p: Payload)
    ensures p.sub == fields.sub && p.email == Some(fields.email)
    ensures p.role == Some(RoleName(fields.role)) && ParseRole(p.role.value) == Some(fields.role)
    ensures p.kind.None?
    ensures p.iat * 1000 <= nowMs < p.iat * 1000 + 1000
    ensures p.exp - p.iat == expiresIn
  {
    var now := UnixSeconds(nowMs);
    Payload(fields.sub, Some(fields.email), Some(RoleName(fields.role)), None, now, now + expiresIn)
  }

  /** The signing library decodes every payload it signs with the configured
      secret. */
  ghost predicate DecodesOwnSignatures(env: Env) {
    forall p :: env.decode(env.sign(p, env.jwtSecret)) == Some(p)
  }

  /** `generateJWT`: a token signed with the configured secret whose claims,
      read back by a library that decodes its own signatures, are the given
      fields, issued now and expiring `expiresIn` seconds later, with no
      `type` claim. */
  function GenerateJWT(env: Env, fields: AccessFields, nowMs: int, expiresIn: int): (token: string)
    ensures DecodesOwnSignatures(env)
            ==> var p := env.decode(token);
                && p.Some? && p.value.sub == fields.sub && p.value.email == Some(fields.email)
                && p.value.role == Some(RoleName(fields.role)) && p.value.kind.None?
                && p.value.iat * 1000 <= nowMs < p.value.iat * 1000 + 1000
                && p.value.exp - p.value.iat == expiresIn
  {
    env.sign(AccessPayload(fields, nowMs, expiresIn), env.jwtSecret)
  }

  /** `generateRefreshToken`'s claim set: exactly the numeric subject, the
      refresh discriminator, `iat` now and `exp` thirty days later. */
  function RefreshPayload(userId: int, nowMs: int): (p: Payload)
    ensures p.sub == NumSub(userId) && p.kind == Some(RefreshKind)
    ensures p.email.None? && p.role.None?
    ensures p.iat * 1000 <= nowMs < p.iat * 1000 + 1000
    ensures p.exp - p.iat == 2592000
  {
    var now := UnixSeconds(nowMs);
    Payload(NumSub(userId), None, None, Some(RefreshKind), now, now + RefreshTtl)
  }

  /** `generateRefreshToken`: a token whose claims, read back by a library
      that decodes its own signatures, carry the user id as `sub`, the refresh
      discriminator, no e-mail or role, and a thirty-day lifetime from now. */
  function GenerateRefreshToken(env: Env, userId: int, nowMs: int): (token: string)
    ensures DecodesOwnSignatures(env)
            ==> var p := env.decode(token);
                && p.Some? && p.value.sub == NumSub(userId) && p.value.kind == Some(RefreshKind)
                && p.value.email.None? && p.value.role.None?
                && p.value.iat * 1000 <= nowMs < p.value.iat * 1000 + 1000
                && p.value.exp - p.value.iat == RefreshTtl
  {
    env.sign(RefreshPayload(userId, nowMs), env.jwtSecret)
  }

  /** The two claim sets are never equal, so no access token is a refresh
      token signed under another name: they differ in the discriminator. */
  lemma AccessAndRefreshPayloadsDiffer(fields: AccessFields, userId: int, nowMs: int, expiresIn: int)
    ensures AccessPayload(fields, nowMs, expiresIn).kind != RefreshPayload(userId, nowMs).kind
  {
  }

  // ---------------------------------------------------------------------
  // Verification
  // ---------------------------------------------------------------------

  /** `verifyJWT`: the decoded payload when the library accepts the
      signature; nothing when it rejects, throws, or the payload does not
      decode. The `type` claim is not consulted. */
  function VerifyJWT(env: Env, token: string): (r: Option<Payload>)
    ensures r.Some? <==> env.verify(token, env.jwtSecret) == Some(true) && env.decode(token).Some?
    ensures r.Some? ==> r == env.decode(token)
  {
    match env.verify(token, env.jwtSecret)
    case None => None
    case Some(ok) => if !ok then None else env.decode(token)
  }

  /** `verifyRefreshToken`: the `sub` claim of an accepted token whose `type`
      claim is `"refresh"`; nothing otherwise, including when the library throws. */
  function VerifyRefreshToken(env: Env, token: string): (r: Option<Sub>)
    ensures r.Some? <==> VerifyJWT(env, token).Some? && VerifyJWT(env, token).value.kind == Some(RefreshKind)
    ensures r.Some? ==> r.value == VerifyJWT(env, token).value.sub
  {
    match env.verify(token, env.jwtSecret)
    case None => None
    case Some(ok) =>
      if !ok then None
      else match env.decode(token)
        case None => None
        case Some(p) => if p.kind != Some(RefreshKind) then None else Some(p.sub)
  }

  /** The access-token verifier does not look at the discriminator: every
      token the refresh verifier accepts is accepted by it as well. */
  lemma RefreshTokenPassesAccessVerifier(env: Env, token: string)
    requires VerifyRefreshToken(env, token).Some?
    ensures VerifyJWT(env, token).Some? && VerifyJWT(env, token).value.kind == Some(RefreshKind)
  {
  }

  /** A freshly issued access token is never taken for a refresh token, as long
      as the library decodes what it signed. */
  lemma AccessTokenFailsRefreshVerifier(env: Env, fields: AccessFields, nowMs: int, expiresIn: int)
    requires var p := AccessPayload(fields, nowMs, expiresIn); env.decode(env.sign(p, env.jwtSecret)) == Some(p)
    ensures VerifyRefreshToken(env, GenerateJWT(env, fields, nowMs, expiresIn)).None?
  {
  }

  /** Issue-then-verify for refresh tokens: given a library that accepts and
      decodes its own signature, the refresh verifier returns the user id. */
  lemma RefreshRoundTrip(env: Env, userId: int, nowMs: int)
    requires var t := GenerateRefreshToken(env, userId, nowMs);
             env.verify(t, env.jwtSecret) == Some(true) && env.decode(t) == Some(RefreshPayload(userId, nowMs))
    ensures VerifyRefreshToken(env, GenerateRefreshToken(env, userId, nowMs)) == Some(NumSub(userId))
  {
  }

  // ---------------------------------------------------------------------
  // Password digest
  // ---------------------------------------------------------------------

  function HexDigit(d: nat): (c: char)
    requires d < 16
    ensures IsLowerHex(c)
  {
    if d < 10 then ('0' as int + d) as char else ('a' as int + (d - 10)) as char
  }

  predicate IsLowerHex(c: char) {
    '0' <= c <= '9' || 'a' <= c <= 'f'
  }

  function HexValue(c: char): (d: nat)
    requires IsLowerHex(c)
    ensures d < 16 && HexDigit(d) == c
  {
    if c <= '9' then c as int - '0' as int else c as int - 'a' as int + 10
  }

  /** `b.toString(16)`: one digit below 16, two from 16 on. */
  function ToBase16(b: Byte): string {
    if b < 16 then [HexDigit(b)] else [HexDigit(b / 16), HexDigit(b % 16)]
  }

  /** `padStart(2, '0')`. */
  function PadStart2(s: string): string {
    if |s| < 2 then seq(2 - |s|, _ => '0') + s else s
  }

  /** One digest byte as two lower-case hex digits, high nibble first. */
  function ByteToHex(b: Byte): (h: string)
    ensures h == [HexDigit(b / 16), HexDigit(b % 16)]
  {
    PadStart2(ToBase16(b))
  }

  /** `hashArray.map(...).join('')`. */
  function HexEncode(bytes: seq<Byte>): (h: string)
    ensures |h| == 2 * |bytes|
    ensures forall i :: 0 <= i < |h| ==> IsLowerHex(h[i])
    decreases |bytes|
  {
    if |bytes| == 0 then "" else ByteToHex(bytes[0]) + HexEncode(bytes[1..])
  }

  /** Reads pairs of lower-case hex digits back into bytes. */
  function HexDecode(h: string): Option<seq<Byte>>
    decreases |h|
  {
    if |h| == 0 then Some([])
    else if |h| == 1 || !IsLowerHex(h[0]) || !IsLowerHex(h[1]) then None
    else match HexDecode(h[2..])
      case None => None
      case Some(rest) => Some([HexValue(h[0]) * 16 + HexValue(h[1])] + rest)
  }

  lemma {:induction false} HexRoundTrip(bytes: seq<Byte>)
    ensures HexDecode(HexEncode(bytes)) == Some(bytes)
    decreases |bytes|
  {
    if |bytes| > 0 {
      var h := HexEncode(bytes);
      var b := bytes[0];
      assert h[2..] == HexEncode(bytes[1..]);
      HexRoundTrip(bytes[1..]);
      assert HexValue(h[0]) == b / 16 && HexValue(h[1]) == b % 16;
      assert [b] + bytes[1..] == bytes;
    }
  }

  /** Distinct digests have distinct hex strings. */
  lemma HexEncodeInjective(a: seq<Byte>, b: seq<Byte>)
    requires HexEncode(a) == HexEncode(b)
    ensures a == b
  {
    HexRoundTrip(a);
    HexRoundTrip(b);
  }

  /** The text that is digested: `password + process.env.SALT_ROUNDS ||
      'default_salt'` groups as `(password + SALT_ROUNDS) || 'default_salt'`,
      an unset variable concatenates as the text `undefined`, and the fallback
      is taken only when the concatenation is empty. */
  function HashInput(password: string, saltRounds: Option<string>): (r: string)
    ensures r != ""
    ensures saltRounds.None? ==> r == password + "undefined"
    ensures saltRounds.Some? && password + saltRounds.value != "" ==> r == password + saltRounds.value
    ensures r == "default_salt" && r != password + (if saltRounds.Some? then saltRounds.value else "undefined")
            ==> password == "" && saltRounds == Some("")
    ensures password == "" && saltRounds == Some("") ==> r == "default_salt"
  {
    var salt := match saltRounds case None => "undefined" case Some(s) => s;
    var joined := password + salt;
    if joined == "" then "default_salt" else joined
  }

  /** `hashPassword`: the lower-case hex rendering of the digest. */
  function HashPassword(env: Env, password: string): (h: string)
    ensures |h| == 2 * |env.sha256(HashInput(password, env.saltRounds))|
    ensures forall i :: 0 <= i < |h| ==> IsLowerHex(h[i])
    ensures HexDecode(h) == Some(env.sha256(HashInput(password, env.saltRounds)))
  {
    var digest := env.sha256(HashInput(password, env.saltRounds));
    HexRoundTrip(digest);
    HexEncode(digest)
  }

  /** `verifyPassword`: re-hash and compare. */
  function VerifyPassword(env: Env, password: string, hash: string): (ok: bool)
    ensures ok ==> HexDecode(hash) == Some(env.sha256(HashInput(password, env.saltRounds)))
  {
    HashPassword(env, password) == hash
  }

  /** A password always matches its own stored hash. */
  lemma VerifyOwnHash(env: Env, password: string)
    ensures VerifyPassword(env, password, HashPassword(env, password))
  {
  }

  /** A password matches another password's stored hash exactly when the two
      digest inputs collide under SHA-256; any other stored string is refused. */
  lemma VerifyPasswordMeansSameDigest(env: Env, password: string, other: string)
    ensures VerifyPassword(env, password, HashPassword(env, other))
            <==> env.sha256(HashInput(password, env.saltRounds)) == env.sha256(HashInput(other, env.saltRounds))
  {
    if VerifyPassword(env, password, HashPassword(env, other)) {
      HexEncodeInjective(env.sha256(HashInput(password, env.saltRounds)),
                         env.sha256(HashInput(other, env.saltRounds)));
    }
  }
}
