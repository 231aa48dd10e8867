/**
 * `TokenService.GenerateAccessToken`: one timestamp yields the access
 * token's claims and, on request, a refresh token's claims; the response
 * carries fixed lifetime and type fields; a refresh token is recorded in
 * the token store, and nothing is recorded otherwise. The JWT encoder,
 * the clock and the `jti` generator are parameters.
 */
module TokenService {
  import opened Wrappers
  import opened Int32
  import Tokens

  const AccessTokenLifetime: int := 3600
  const RefreshTokenLifetime: int := 86400 * 7
  const BearerTokenType: string := "Bearer"

  /** The range of `DateTimeOffset.ToUnixTimeSeconds()` (years 0001 to 9999). */
  const MinUnixSeconds: int := -62135596800
  const MaxUnixSeconds: int := 253402300799

  /** A token's claims; `jti` only on refresh tokens. */
  datatype Claims = Claims(sub: string, exp: int, iat: int, jti: Option<string>)

  datatype TokenResponse = TokenResponse(
    accessToken: string, refreshToken: Option<string>, expiresIn: int32, tokenType: string)

  /** The access token's claims: issued now, for `id`, living `AccessTokenLifetime` seconds, no `jti`. */
  function AccessTokenClaims(id: string, now: int): (c: Claims)
    ensures c.sub == id && c.iat == now && c.jti.None?
    ensures c.exp - c.iat == 3600
  {
    Claims(id, now + AccessTokenLifetime, now, None)
  }

  /** The refresh token's claims: issued now, for `id`, living a week, carrying `jti`. */
  function RefreshTokenClaims(id: string, now: int, jti: string): (c: Claims)
    ensures c.sub == id && c.iat == now && c.jti == Some(jti)
    ensures c.exp - c.iat == 7 * 24 * 60 * 60
  {
    Claims(id, now + RefreshTokenLifetime, now, Some(jti))
  }

  /** The response built from one timestamp: the access token always, the refresh token only on request. */
  function Respond(id: string, withRefreshToken: bool, now: int, jti: string, encode: Claims -> string): (r: TokenResponse)
    ensures r.accessToken == encode(AccessTokenClaims(id, now))
    ensures r.refreshToken.Some? <==> withRefreshToken
    ensures r.refreshToken.Some? ==> r.refreshToken.value == encode(RefreshTokenClaims(id, now, jti))
    ensures r.expiresIn as int == AccessTokenLifetime && r.tokenType == BearerTokenType
  {
    TokenResponse(
      encode(AccessTokenClaims(id, now)),
      if withRefreshToken then Some(encode(RefreshTokenClaims(id, now, jti))) else None,
      3600,
      "Bearer")
  }

  /** `ExpiresIn` is the access token's lifetime as its claims state it. */
  lemma ExpiresInMatchesAccessClaims(id: string, withRefreshToken: bool, now: int, jti: string, encode: Claims -> string)
    ensures Respond(id, withRefreshToken, now, jti, encode).expiresIn as int
         == AccessTokenClaims(id, now).exp - AccessTokenClaims(id, now).iat
  {
  }

  /** Both tokens name the same subject and issue time; the refresh token outlives the access token by 601200 s. */
  lemma ClaimsShareTimestamp(id: string, now: int, jti: string)
    ensures AccessTokenClaims(id, now).sub == RefreshTokenClaims(id, now, jti).sub == id
    ensures AccessTokenClaims(id, now).iat == RefreshTokenClaims(id, now, jti).iat == now
    ensures RefreshTokenClaims(id, now, jti).exp - AccessTokenClaims(id, now).exp == 601200
    ensures AccessTokenClaims(id, now).jti.None? && RefreshTokenClaims(id, now, jti).jti == Some(jti)
  {
  }

  /** The refresh-token record written for a response: issue time narrowed by the unchecked `(int)` cast. */
  function RefreshRecord(id: string, now: int, jti: string, encode: Claims -> string): (t: Tokens.Token)
    ensures t.identityId == id && t.refreshToken == encode(RefreshTokenClaims(id, now, jti))
    ensures Tokens.ParseCompositeId(t.id) == Some((id, Wrap(now)))
  {
    Tokens.CompositeIdRoundTrip(id, Wrap(now));
    Tokens.NewToken(id, encode(RefreshTokenClaims(id, now, jti)), Wrap(now))
  }

  /** Up to 2038-01-19 the record's key holds the claim's own issue time. */
  lemma RecordKeyMatchesClaims(id: string, now: int, jti: string, encode: Claims -> string)
    requires MinInt32 <= now <= MaxInt32
    ensures RefreshRecord(id, now, jti, encode).id == Tokens.GetCompositeId(id, now as int32)
    ensures Tokens.ParseCompositeId(RefreshRecord(id, now, jti, encode).id)
         == Some((RefreshTokenClaims(id, now, jti).sub, RefreshTokenClaims(id, now, jti).iat as int32))
  {
    Tokens.CompositeIdRoundTrip(id, now as int32);
  }

  /** One second past `int.MaxValue` the cast wraps and the key no longer holds the claim's issue time. */
  lemma RecordKeyWrapsAfter2038(id: string, jti: string, encode: Claims -> string)
    ensures RefreshRecord(id, 0x8000_0000, jti, encode).id == Tokens.GetCompositeId(id, -0x8000_0000)
    ensures Tokens.ParseCompositeId(RefreshRecord(id, 0x8000_0000, jti, encode).id) == Some((id, -0x8000_0000))
  {
    assert Wrap(0x8000_0000) == -0x8000_0000 by {
      assert (0x8000_0000 - MinInt32) % 0x1_0000_0000 == 0;
    }
    Tokens.CompositeIdRoundTrip(id, -0x8000_0000);
  }

  /** The token store: the refresh-token records written to it, oldest first. */
  class TokenRepository {
    var records: seq<Tokens.Token>

    constructor ()
      ensures records == []
    {
      records := [];
    }

    /** `CreateAsync(identityId, token, iat)`: records one token and returns it. */
    method Create(identityId: string, token: string, iat: int32) returns (t: Tokens.Token)
      modifies this
      ensures t == Tokens.NewToken(identityId, token, iat)
      ensures records == old(records) + [t]
    {
      t := Tokens.NewToken(identityId, token, iat);
      records := records + [t];
    }
  }

  class TokenService {
    const tokenRepository: TokenRepository

    constructor (tokenRepository: TokenRepository)
      ensures this.tokenRepository == tokenRepository
    {
      this.tokenRepository := tokenRepository;
    }

    /**
     * `GenerateAccessToken(id, withRefreshToken)` at clock reading `now`,
     * with `jti` the generated token id and `encode` the JWT signer.
     */
    method GenerateAccessToken(id: string, withRefreshToken: bool, now: int, jti: string, encode: Claims -> string)
      returns (r: TokenResponse)
      requires MinUnixSeconds <= now <= MaxUnixSeconds
      modifies tokenRepository
      ensures r == Respond(id, withRefreshToken, now, jti, encode)
      ensures tokenRepository.records
           == old(tokenRepository.records) + (if withRefreshToken then [RefreshRecord(id, now, jti, encode)] else [])
    {
      var accessToken := encode(AccessTokenClaims(id, now));
      var refreshToken: Option<string> := None;
      if withRefreshToken {
        var token := encode(RefreshTokenClaims(id, now, jti));
        refreshToken := Some(token);
        var _ := tokenRepository.Create(id, token, Wrap(now));
      }
      r := TokenResponse(accessToken, refreshToken, 3600, "Bearer");
    }
  }

  /**
   * A client of the two classes, not part of the C# code, showing what a
   * caller can conclude from their contracts alone: no refresh token and no
   * record without asking; with asking, one record keyed by id and issue time.
   */
  method GenerateTwice(id: string, now: int, jti: string, encode: Claims -> string)
    requires 0 <= now <= MaxInt32
  {
    var store := new TokenRepository();
    var service := new TokenService(store);
    var r1 := service.GenerateAccessToken(id, false, now, jti, encode);
    assert store.records == [] && r1.refreshToken == None;
    var r2 := service.GenerateAccessToken(id, true, now, jti, encode);
    assert |store.records| == 1 && r2.refreshToken.Some?;
    assert store.records[0].id == Tokens.GetCompositeId(id, now as int32);
    assert store.records[0].refreshToken == r2.refreshToken.value;
  }
}
