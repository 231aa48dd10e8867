/** The authorization-code grant request (section 4.1.3 of RFC 6749). */
module OAuthGrantAuthorizationCodeDtos {
  import opened Wrappers
  import opened Validation
  import OAuthTokenDtos

  datatype OAuthGrantAuthorizationCodeDto = OAuthGrantAuthorizationCodeDto(
    grantType: Option<string>, code: Option<string>, clientId: Option<string>, redirectUri: Option<string>)

  /** `OAuthGrantAuthorizationCodeDtoValidator`. */
  predicate IsValid(lib: Library, dto: OAuthGrantAuthorizationCodeDto)
    ensures IsValid(lib, dto) ==> dto.grantType == Some("authorization_code") && dto.code.Some? && dto.clientId.Some?
  {
    && Equal(dto.grantType, "authorization_code")
    && NotEmpty(lib, dto.code)
    && NotEmpty(lib, dto.clientId)
    && OptionalAbsoluteUri(lib, dto.redirectUri)
  }

  lemma Characterization(lib: Library, dto: OAuthGrantAuthorizationCodeDto)
    ensures IsValid(lib, dto) <==>
      && dto.grantType == Some("authorization_code")
      && dto.code.Some? && lib.notEmpty(dto.code.value)
      && dto.clientId.Some? && lib.notEmpty(dto.clientId.value)
      && (dto.redirectUri.None? || dto.redirectUri.value == "" || lib.isAbsoluteUri(dto.redirectUri.value))
  {
  }

  /** Any other grant type, or none, is refused. */
  lemma GrantTypeMustMatch(lib: Library, dto: OAuthGrantAuthorizationCodeDto)
    requires dto.grantType != Some("authorization_code")
    ensures !IsValid(lib, dto)
  {
  }

  /** A missing code or client id is refused. */
  lemma CodeAndClientRequired(lib: Library, dto: OAuthGrantAuthorizationCodeDto)
    requires dto.code.None? || dto.clientId.None?
    ensures !IsValid(lib, dto)
  {
  }

  /** A missing or empty redirect URI never causes a rejection. */
  lemma RedirectUriOptional(lib: Library, dto: OAuthGrantAuthorizationCodeDto)
    requires IsNullOrEmpty(dto.redirectUri)
    ensures IsValid(lib, dto) <==> IsValid(lib, dto.(redirectUri := None))
  {
  }

  /** An accepted request also passes the token endpoint's dispatcher. */
  lemma AcceptedByDispatcher(lib: Library, dto: OAuthGrantAuthorizationCodeDto)
    requires IsValid(lib, dto)
    ensures OAuthTokenDtos.IsValid(OAuthTokenDtos.OAuthTokenDto(dto.grantType, None))
  {
  }
}
