/** The refresh request (section 6 of RFC 6749). */
module OAuthGrantRefreshTokenDtos {
  import opened Wrappers
  import opened Validation
  import OAuthTokenDtos

  datatype OAuthGrantRefreshTokenDto = OAuthGrantRefreshTokenDto(
    grantType: Option<string>, refreshToken: Option<string>, scope: Option<string>)

  /** `OAuthGrantRefreshTokenDtoValidator`. */
  predicate IsValid(lib: Library, dto: OAuthGrantRefreshTokenDto)
    ensures IsValid(lib, dto) ==> dto.grantType == Some("refresh_token") && dto.refreshToken.Some?
  {
    && Equal(dto.grantType, "refresh_token")
    && NotEmpty(lib, dto.refreshToken)
    && OptionalNotEmpty(lib, dto.scope)
  }

  lemma Characterization(lib: Library, dto: OAuthGrantRefreshTokenDto)
    ensures IsValid(lib, dto) <==>
      && dto.grantType == Some("refresh_token")
      && dto.refreshToken.Some? && lib.notEmpty(dto.refreshToken.value)
      && (dto.scope.None? || dto.scope.value == "" || lib.notEmpty(dto.scope.value))
  {
  }

  /** Any other grant type is refused, and so is a missing one. */
  lemma GrantTypeMustMatch(lib: Library, dto: OAuthGrantRefreshTokenDto)
    requires dto.grantType != Some("refresh_token")
    ensures !IsValid(lib, dto)
  {
  }

  lemma ScopeOptional(lib: Library, dto: OAuthGrantRefreshTokenDto)
    requires IsNullOrEmpty(dto.scope)
    ensures IsValid(lib, dto) <==> IsValid(lib, dto.(scope := None))
  {
  }

  lemma AcceptedByDispatcher(lib: Library, dto: OAuthGrantRefreshTokenDto)
    requires IsValid(lib, dto)
    ensures OAuthTokenDtos.IsValid(OAuthTokenDtos.OAuthTokenDto(dto.grantType, None))
  {
  }
}
