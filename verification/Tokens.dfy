/** create_token, decode_token and the login and refresh calls built on them. Times are microseconds
    since the epoch, as datetime.now gives them; a JWT carries whole seconds. */
module Tokens {

  import opened Wrappers

  datatype TokenType = Access | Refresh

  function TypeName(t: TokenType): string { if t == Access then "access" else "refresh" }

  /** JSON values, as far as the code tells them apart. */
  datatype Value = Text(text: string) | Number(number: int) | TextList(items: seq<string>) | OtherJson

  type Claims = map<string, Value>

  /** Signing is ideal: a token shows its claims to whoever has the secret, and nobody without it can
      make one. */
  datatype Token = Signed(claims: Claims, secret: string, algorithm: string) | Malformed(text: string)

  datatype Settings = Settings(secret: string, algorithm: string, accessMinutes: nat, refreshDays: nat) {
    /** expires_delta in seconds. */
    function Lifetime(t: TokenType): nat { if t == Access then accessMinutes * 60 else refreshDays * 86400 }
  }

  const SECOND: nat := 1_000_000

  function CreateToken(s: Settings, subject: string, typ: TokenType, scopes: seq<string>, extra: Claims,
                       now: nat, jti: string): Token {
    Signed(map["sub" := Text(subject), "typ" := Text(TypeName(typ)),
               "iat" := Number(now / SECOND), "exp" := Number((now + s.Lifetime(typ) * SECOND) / SECOND),
               "jti" := Text(jti), "scopes" := TextList(scopes)] + extra,
           s.secret, s.algorithm)
  }

  datatype Payload = Payload(sub: string, typ: TokenType, exp: int, iat: int, jti: string, scopes: seq<string>)

  /** The four messages of InvalidTokenError. */
  datatype Error = Expired | BadSignatureOrClaims | BadSchema | WrongType

  datatype Decoded = Ok(payload: Payload) | Err(error: Error)

  predicate Falsy(v: Value) { v == Text("") || v == Number(0) || v == TextList([]) }

  /** A claim that must be a time not in the future. */
  predicate NotBefore(c: Claims, name: string, now: nat) {
    name in c ==> c[name].Number? && c[name].number * SECOND <= now
  }

  /** PyJWT's verification: signature, required claims, then iat, nbf, exp, aud, sub and jti. */
  function VerifyClaims(s: Settings, token: Token, now: nat): Option<Error> {
    if token.Malformed? || token.secret != s.secret || token.algorithm != s.algorithm then Some(BadSignatureOrClaims)
    else
      var c := token.claims;
      if !({"exp", "iat", "sub", "typ", "jti"} <= c.Keys) then Some(BadSignatureOrClaims)
      else if !NotBefore(c, "iat", now) || !NotBefore(c, "nbf", now) then Some(BadSignatureOrClaims)
      else if !c["exp"].Number? then Some(BadSignatureOrClaims)
      else if c["exp"].number * SECOND <= now then Some(Expired)
      else if "aud" in c && !Falsy(c["aud"]) then Some(BadSignatureOrClaims)
      else if !c["sub"].Text? || !c["jti"].Text? then Some(BadSignatureOrClaims)
      else None
  }

  function ParseType(v: Value): Option<TokenType> {
    if v == Text("access") then Some(Access) else if v == Text("refresh") then Some(Refresh) else None
  }

  /** TokenPayload.model_validate on verified claims; scopes default to none. */
  function Validate(c: Claims): Option<Payload>
    requires {"exp", "iat", "sub", "typ", "jti"} <= c.Keys
  {
    var typ := ParseType(c["typ"]);
    if typ.Some? && c["sub"].Text? && c["jti"].Text? && c["exp"].Number? && c["iat"].Number?
       && ("scopes" in c ==> c["scopes"].TextList?)
    then Some(Payload(c["sub"].text, typ.value, c["exp"].number, c["iat"].number, c["jti"].text,
                      if "scopes" in c then c["scopes"].items else []))
    else None
  }

  function DecodeToken(s: Settings, token: Token, expected: Option<TokenType>, now: nat): Decoded {
    var problem := VerifyClaims(s, token, now);
    if problem.Some? then Err(problem.value)
    else
      var payload := Validate(token.claims);
      if payload.None? then Err(BadSchema)
      else if expected.Some? && payload.value.typ != expected.value then Err(WrongType)
      else Ok(payload.value)
  }

  // ---------------------------------------------------------------- round trip

  /** Claim names an extra claim would override or that PyJWT gives a meaning of its own. */
  const RESERVED := {"sub", "typ", "iat", "exp", "jti", "scopes", "nbf", "aud"}

  lemma {:induction false} WholeSeconds(now: nat, lifetime: nat)
    ensures (now + lifetime * SECOND) / SECOND == now / SECOND + lifetime
  {
  }

  /** Decoding a created token at any time t, in full: what was put in comes back exactly from the
      second of its creation until its expiry, and only for the type it has. */
  lemma {:induction false} RoundTrip(s: Settings, subject: string, typ: TokenType, scopes: seq<string>, extra: Claims,
                  now: nat, jti: string, expected: Option<TokenType>, t: nat)
    requires extra.Keys !! RESERVED
    ensures var iat := now / SECOND;
      var exp := iat + if typ == Access then s.accessMinutes * 60 else s.refreshDays * 86400;
      DecodeToken(s, CreateToken(s, subject, typ, scopes, extra, now, jti), expected, t)
      == if t < iat * SECOND then Err(BadSignatureOrClaims)
         else if t >= exp * SECOND then Err(Expired)
         else if expected.Some? && expected.value != typ then Err(WrongType)
         else Ok(Payload(subject, typ, exp, iat, jti, scopes))
  {
    WholeSeconds(now, s.Lifetime(typ));
    var c := CreateToken(s, subject, typ, scopes, extra, now, jti).claims;
    forall name | name in RESERVED ensures name !in extra { }
    assert "nbf" !in c && "aud" !in c;
    assert c["sub"] == Text(subject) && c["jti"] == Text(jti) && c["scopes"] == TextList(scopes);
    assert c["typ"] == Text(TypeName(typ)) && ParseType(c["typ"]) == Some(typ);
    assert c["iat"] == Number(now / SECOND) && c["exp"] == Number(now / SECOND + s.Lifetime(typ));
    assert {"exp", "iat", "sub", "typ", "jti"} <= c.Keys;
  }

  /** A token accepted where type `e` is expected carries the claim of type e and this secret, whoever
      made it; so no token serves as both types. */
  lemma {:induction false} TypesNeverMix(s: Settings, token: Token, e: TokenType, t: nat, e': TokenType, t': nat)
    requires DecodeToken(s, token, Some(e), t).Ok?
    ensures token.Signed? && token.secret == s.secret && token.algorithm == s.algorithm
    ensures "typ" in token.claims && token.claims["typ"] == Text(TypeName(e))
    ensures DecodeToken(s, token, Some(e'), t').Ok? ==> e' == e
  {
  }

  /** Exactly when a created token passes for the other type: an extra claim has overridden `typ` with
      that type's name, and the token is within its lifetime. */
  lemma {:induction false} OverridingClaimsCanMixTypes(s: Settings, subject: string, typ: TokenType,
                                                       scopes: seq<string>, extra: Claims, now: nat, jti: string,
                                                       e: TokenType, t: nat)
    requires extra.Keys !! RESERVED - {"typ"} && e != typ
    ensures var iat := now / SECOND;
      var exp := iat + if typ == Access then s.accessMinutes * 60 else s.refreshDays * 86400;
      DecodeToken(s, CreateToken(s, subject, typ, scopes, extra, now, jti), Some(e), t).Ok?
      <==> "typ" in extra && extra["typ"] == Text(TypeName(e)) && iat * SECOND <= t < exp * SECOND
  {
    WholeSeconds(now, s.Lifetime(typ));
    var c := CreateToken(s, subject, typ, scopes, extra, now, jti).claims;
    forall name | name in RESERVED - {"typ"} ensures name !in extra { }
    assert "nbf" !in c && "aud" !in c;
    assert c["sub"] == Text(subject) && c["jti"] == Text(jti) && c["scopes"] == TextList(scopes);
    assert c["typ"] == if "typ" in extra then extra["typ"] else Text(TypeName(typ));
    assert c["iat"] == Number(now / SECOND) && c["exp"] == Number(now / SECOND + s.Lifetime(typ));
    assert {"exp", "iat", "sub", "typ", "jti"} <= c.Keys;
  }

  /** Extra claims go into the token as they are and win over the code's own; without one of the same
      name each of the six is there. */
  lemma {:induction false} ClaimsOfCreated(s: Settings, subject: string, typ: TokenType, scopes: seq<string>,
                                           extra: Claims, now: nat, jti: string)
    ensures var token := CreateToken(s, subject, typ, scopes, extra, now, jti);
      && token.claims.Keys == {"sub", "typ", "iat", "exp", "jti", "scopes"} + extra.Keys
      && (forall name :: name in extra ==> token.claims[name] == extra[name])
      && ("scopes" !in extra ==> token.claims["scopes"] == TextList(scopes))
      && token.secret == s.secret && token.algorithm == s.algorithm
  {
  }

  /** A claim that is absent or a whole number of seconds not after `now`. */
  ghost predicate AbsentOrPast(c: Claims, name: string, now: nat) {
    name !in c || (exists n :: c[name] == Number(n) && n * SECOND <= now)
  }

  /** Our signature, all required claims there, and of the right kind where PyJWT looks; issued and valid by
      now, not yet expired, and for no particular audience. */
  ghost predicate Verified(s: Settings, token: Token, now: nat) {
    && token.Signed? && token.secret == s.secret && token.algorithm == s.algorithm
    && var c := token.claims;
    && "iat" in c && AbsentOrPast(c, "iat", now) && AbsentOrPast(c, "nbf", now)
    && "exp" in c && (exists n :: c["exp"] == Number(n) && now < n * SECOND)
    && ("aud" !in c || c["aud"] in {Text(""), Number(0), TextList([])})
    && "sub" in c && c["sub"].Text? && "jti" in c && c["jti"].Text? && "typ" in c
  }

  /** The claims also fit the schema of TokenPayload. */
  ghost predicate FitsSchema(c: Claims)
    requires "typ" in c
  {
    c["typ"] in {Text("access"), Text("refresh")} && ("scopes" !in c || c["scopes"].TextList?)
  }

  /** What decode_token accepts, whoever made the token. */
  ghost predicate Acceptable(s: Settings, token: Token, expected: Option<TokenType>, now: nat) {
    && Verified(s, token, now) && FitsSchema(token.claims)
    && (expected == Some(Access) ==> token.claims["typ"] == Text("access"))
    && (expected == Some(Refresh) ==> token.claims["typ"] == Text("refresh"))
  }

  lemma {:induction false} DecodeIsExact(s: Settings, token: Token, expected: Option<TokenType>, now: nat)
    ensures DecodeToken(s, token, expected, now).Ok? <==> Acceptable(s, token, expected, now)
    ensures DecodeToken(s, token, expected, now).Ok? ==>
              var p, c := DecodeToken(s, token, expected, now).payload, token.claims;
              && c["sub"] == Text(p.sub) && c["jti"] == Text(p.jti)
              && c["exp"] == Number(p.exp) && c["iat"] == Number(p.iat)
              && c["typ"] == Text(if p.typ == Access then "access" else "refresh")
              && p.scopes == if "scopes" in c then c["scopes"].items else []
    ensures DecodeToken(s, token, expected, now) == Err(WrongType) <==>
              Acceptable(s, token, None, now) && !Acceptable(s, token, expected, now)
    ensures DecodeToken(s, token, expected, now) == Err(BadSchema) <==>
              Verified(s, token, now) && !FitsSchema(token.claims)
    ensures DecodeToken(s, token, expected, now) == Err(Expired) <==>
              && token.Signed? && token.secret == s.secret && token.algorithm == s.algorithm
              && {"exp", "iat", "sub", "typ", "jti"} <= token.claims.Keys
              && AbsentOrPast(token.claims, "iat", now) && AbsentOrPast(token.claims, "nbf", now)
              && exists n :: token.claims["exp"] == Number(n) && n * SECOND <= now
  {
    if Verified(s, token, now) {
      var n :| token.claims["exp"] == Number(n) && now < n * SECOND;
      assert token.claims["exp"].number == n;
    }
    if DecodeToken(s, token, expected, now) == Err(Expired) {
      assert token.claims["exp"] == Number(token.claims["exp"].number);
    }
    if Acceptable(s, token, expected, now) {
      var n :| token.claims["exp"] == Number(n) && now < n * SECOND;
      assert token.claims["exp"].number == n;
    }
  }

  // ---------------------------------------------------------------- login and refresh

  datatype Pair = Pair(access: Token, refresh: Token, expiresIn: nat)

  /** Clock readings and token ids of one issue: two calls of create_token. */
  datatype Stamp = Stamp(accessAt: nat, refreshAt: nat, accessId: string, refreshId: string)

  function Issue(s: Settings, subject: string, scopes: seq<string>, at: Stamp): Pair {
    Pair(CreateToken(s, subject, Access, scopes, map[], at.accessAt, at.accessId),
         CreateToken(s, subject, Refresh, [], map[], at.refreshAt, at.refreshId),
         s.accessMinutes * 60)
  }

  /** AuthService.login once the credentials are known to be good. */
  function Login(s: Settings, userId: string, superuser: bool, at: Stamp): Pair {
    Issue(s, userId, if superuser then ["superuser"] else [], at)
  }

  /** AuthService.refresh: decoded at `now`, then two new tokens. */
  function RefreshTokens(s: Settings, token: Token, now: nat, at: Stamp): Option<Pair> {
    match DecodeToken(s, token, Some(Refresh), now)
    case Ok(payload) => Some(Issue(s, payload.sub, [], at))
    case Err(_) => None
  }

  /** The tree of pairs grown from one login; a refresh token may be used more than once. */
  datatype Node =
    | FromLogin(userId: string, superuser: bool, start: nat, at: Stamp)
    | FromRefresh(parent: Node, start: nat, at: Stamp)

  function Issued(s: Settings, n: Node): Option<Pair> {
    match n
    case FromLogin(userId, superuser, _, at) => Some(Login(s, userId, superuser, at))
    case FromRefresh(parent, start, at) =>
      var p := Issued(s, parent);
      if p.None? then None else RefreshTokens(s, p.value.refresh, start, at)
  }

  function Root(n: Node): Node
    ensures Root(n).FromLogin?
  {
    if n.FromLogin? then n else Root(n.parent)
  }

  function Rotations(n: Node): nat { if n.FromLogin? then 0 else 1 + Rotations(n.parent) }

  /** Each call of the chain comes in the parent's second of issue or later, and before its expiry. */
  ghost predicate InTime(s: Settings, n: Node) {
    n.FromLogin?
    || (InTime(s, n.parent)
        && var iat := n.parent.at.refreshAt / SECOND;
           iat * SECOND <= n.start < (iat + s.refreshDays * 86400) * SECOND)
  }

  function Scopes(n: Node): seq<string> {
    if n.FromLogin? && n.superuser then ["superuser"] else []
  }

  /** A chain of refreshes succeeds exactly when every call is in time, and what comes out is a pair
      for the login's own subject, with scopes on the login's access token only. */
  lemma {:induction false} ChainSucceedsInTime(s: Settings, n: Node)
    ensures Issued(s, n).Some? <==> InTime(s, n)
    ensures Issued(s, n).Some? ==> Issued(s, n).value == Issue(s, Root(n).userId, Scopes(n), n.at)
  {
    if n.FromRefresh? {
      ChainSucceedsInTime(s, n.parent);
      if Issued(s, n.parent).Some? {
        RoundTrip(s, Root(n).userId, Refresh, [], map[], n.parent.at.refreshAt, n.parent.at.refreshId,
                  Some(Refresh), n.start);
      }
    }
  }

  /** What the pair of a chain says when it is read, at any time: the login's subject on both tokens,
      scopes on the login's own access token and nowhere else, and each only until its expiry. */
  lemma {:induction false} TokensReadBack(s: Settings, n: Node, t: nat)
    requires Issued(s, n).Some?
    ensures var p, iat := Issued(s, n).value, n.at.accessAt / SECOND;
      DecodeToken(s, p.access, Some(Access), t)
      == if t < iat * SECOND then Err(BadSignatureOrClaims)
         else if t >= (iat + s.accessMinutes * 60) * SECOND then Err(Expired)
         else Ok(Payload(Root(n).userId, Access, iat + s.accessMinutes * 60, iat, n.at.accessId,
                         if n.FromLogin? && n.superuser then ["superuser"] else []))
    ensures var p, iat := Issued(s, n).value, n.at.refreshAt / SECOND;
      DecodeToken(s, p.refresh, Some(Refresh), t)
      == if t < iat * SECOND then Err(BadSignatureOrClaims)
         else if t >= (iat + s.refreshDays * 86400) * SECOND then Err(Expired)
         else Ok(Payload(Root(n).userId, Refresh, iat + s.refreshDays * 86400, iat, n.at.refreshId, []))
  {
    ChainSucceedsInTime(s, n);
    RoundTrip(s, Root(n).userId, Access, Scopes(n), map[], n.at.accessAt, n.at.accessId, Some(Access), t);
    RoundTrip(s, Root(n).userId, Refresh, [], map[], n.at.refreshAt, n.at.refreshId, Some(Refresh), t);
  }

  /** Whatever is presented, only a token of type refresh under our secret is rotated. */
  lemma {:induction false} OnlyRefreshTokensRotate(s: Settings, token: Token, now: nat, at: Stamp)
    requires RefreshTokens(s, token, now, at).Some?
    ensures token.Signed? && token.secret == s.secret && "typ" in token.claims && token.claims["typ"] == Text("refresh")
  {
    TypesNeverMix(s, token, Refresh, now, Refresh, now);
  }

  lemma {:induction false} AccessTokensNeverRotate(s: Settings, n: Node, now: nat, at: Stamp)
    requires Issued(s, n).Some?
    ensures RefreshTokens(s, Issued(s, n).value.access, now, at) == None
  {
    ChainSucceedsInTime(s, n);
    AccessIsRefused(s, Root(n).userId, Scopes(n), n.at.accessAt, n.at.accessId, now);
  }

  lemma {:induction false} AccessIsRefused(s: Settings, subject: string, scopes: seq<string>, at: nat, jti: string,
                                           now: nat)
    ensures DecodeToken(s, CreateToken(s, subject, Access, scopes, map[], at, jti), Some(Refresh), now).Err?
  {
    RoundTrip(s, subject, Access, scopes, map[], at, jti, Some(Refresh), now);
  }

  lemma {:induction false} RefreshIsNoAccess(s: Settings, subject: string, at: nat, jti: string, now: nat)
    ensures DecodeToken(s, CreateToken(s, subject, Refresh, [], map[], at, jti), Some(Access), now).Err?
  {
    RoundTrip(s, subject, Refresh, [], map[], at, jti, Some(Access), now);
  }

  /** The expiry claim, in microseconds. */
  function ExpiryOf(t: Token): int
    requires t.Signed? && "exp" in t.claims && t.claims["exp"].Number?
  {
    t.claims["exp"].number * SECOND
  }

  lemma {:induction false} CreatedExpiry(s: Settings, subject: string, typ: TokenType, scopes: seq<string>, now: nat,
                                         jti: string)
    ensures var token := CreateToken(s, subject, typ, scopes, map[], now, jti);
      && "exp" in token.claims && token.claims["exp"].Number?
      && var life := (if typ == Access then s.accessMinutes * 60 else s.refreshDays * 86400) * SECOND;
         now - SECOND + life < ExpiryOf(token) <= now + life
  {
    WholeSeconds(now, s.Lifetime(typ));
  }

  /** How long after the start of their calls the refresh tokens of the chain were made, all together. */
  function Delays(n: Node): int {
    n.at.refreshAt - n.start + if n.FromRefresh? then Delays(n.parent) else 0
  }

  lemma {:induction false} StartBound(s: Settings, n: Node)
    requires InTime(s, n)
    ensures n.start <= Root(n).start + Rotations(n) * (s.refreshDays * 86400 * SECOND)
                       + if n.FromRefresh? then Delays(n.parent) else 0
  {
    if n.FromRefresh? {
      StartBound(s, n.parent);
      var iat, k, life := n.parent.at.refreshAt / SECOND, Rotations(n.parent), s.refreshDays * 86400 * SECOND;
      assert (iat + s.refreshDays * 86400) * SECOND == iat * SECOND + life;
      assert n.start <= n.parent.at.refreshAt + life;
      OneMorePeriod(k, life);
    }
  }

  lemma {:induction false} IssuedExpiries(s: Settings, n: Node)
    requires Issued(s, n).Some?
    ensures var p := Issued(s, n).value;
      && "exp" in p.refresh.claims && p.refresh.claims["exp"].Number?
      && "exp" in p.access.claims && p.access.claims["exp"].Number?
      && ExpiryOf(p.refresh) <= n.at.refreshAt + s.refreshDays * 86400 * SECOND
      && ExpiryOf(p.access) <= n.at.accessAt + s.accessMinutes * 60 * SECOND
  {
    ChainSucceedsInTime(s, n);
    CreatedExpiry(s, Root(n).userId, Refresh, [], n.at.refreshAt, n.at.refreshId);
    CreatedExpiry(s, Root(n).userId, Access, Scopes(n), n.at.accessAt, n.at.accessId);
  }

  lemma {:induction false} OneMorePeriod(k: nat, period: nat)
    ensures (k + 1) * period == k * period + period
  {
  }

  /** Lifetime bound: k rotations after a login that started at t0, a refresh token has expired by
      t0 + (k+1)R and an access token by t0 + kR + A, plus the time the calls themselves took before they
      made their tokens. */
  lemma {:induction false} LifetimeBound(s: Settings, n: Node)
    requires Issued(s, n).Some?
    ensures var p, life := Issued(s, n).value, s.refreshDays * 86400 * SECOND;
      && "exp" in p.refresh.claims && p.refresh.claims["exp"].Number?
      && "exp" in p.access.claims && p.access.claims["exp"].Number?
      && ExpiryOf(p.refresh) <= Root(n).start + (Rotations(n) + 1) * life + Delays(n)
      && ExpiryOf(p.access) <= Root(n).start + Rotations(n) * life + s.accessMinutes * 60 * SECOND
                               + Delays(n) + (n.at.accessAt - n.at.refreshAt)
  {
    ChainSucceedsInTime(s, n);
    StartBound(s, n);
    IssuedExpiries(s, n);
    OneMorePeriod(Rotations(n), s.refreshDays * 86400 * SECOND);
  }

  /** expires_in is the access token's exp minus iat. */
  lemma {:induction false} ExpiresInIsHonest(s: Settings, n: Node)
    requires Issued(s, n).Some?
    ensures var p := Issued(s, n).value;
      "exp" in p.access.claims && "iat" in p.access.claims
      && p.access.claims["exp"].Number? && p.access.claims["iat"].Number?
      && p.expiresIn == p.access.claims["exp"].number - p.access.claims["iat"].number
  {
    ChainSucceedsInTime(s, n);
    WholeSeconds(n.at.accessAt, s.Lifetime(Access));
  }
}
