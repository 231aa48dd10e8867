/** The authorization request with `response_type=token` (section 4.2.1 of RFC 6749). */
module OAuthResponseTokenDtos {
  import opened Wrappers
  import opened Validation
  import OAuthTokenDtos

  datatype OAuthResponseTokenDto = OAuthResponseTokenDto(
    responseType: Option<string>, clientId: Option<string>, redirectUri: Option<string>,
    scope: Option<string>, state: Option<string>)

  /** `OAuthResponseTokenDtoValidator`. */
  predicate IsValid(lib: Library, dto: OAuthResponseTokenDto)
    ensures IsValid(lib, dto) ==> dto.responseType == Some("token") && dto.clientId.Some?
  {
    && Equal(dto.responseType, "token")
    && NotEmpty(lib, dto.clientId)
    && OptionalAbsoluteUri(lib, dto.redirectUri)
    && OptionalNotEmpty(lib, dto.scope)
    && OptionalNotEmpty(lib, dto.state)
  }

  lemma Characterization(lib: Library, dto: OAuthResponseTokenDto)
    ensures IsValid(lib, dto) <==>
      && dto.responseType == Some("token")
      && dto.clientId.Some? && lib.notEmpty(dto.clientId.value)
      && (dto.redirectUri.None? || dto.redirectUri.value == "" || lib.isAbsoluteUri(dto.redirectUri.value))
      && (dto.scope.None? || dto.scope.value == "" || lib.notEmpty(dto.scope.value))
      && (dto.state.None? || dto.state.value == "" || lib.notEmpty(dto.state.value))
  {
  }

  /** Any other response type, `"code"` among them, or none, is refused. */
  lemma ResponseTypeMustMatch(lib: Library, dto: OAuthResponseTokenDto)
    requires dto.responseType != Some("token")
    ensures !IsValid(lib, dto)
  {
  }

  /** Missing or empty redirect URI, scope and state never cause a rejection. */
  lemma OptionalFields(lib: Library, dto: OAuthResponseTokenDto)
    requires IsNullOrEmpty(dto.redirectUri) && IsNullOrEmpty(dto.scope) && IsNullOrEmpty(dto.state)
    ensures IsValid(lib, dto) <==> IsValid(lib, dto.(redirectUri := None, scope := None, state := None))
  {
  }

  lemma AcceptedByDispatcher(lib: Library, dto: OAuthResponseTokenDto)
    requires IsValid(lib, dto)
    ensures OAuthTokenDtos.IsValid(OAuthTokenDtos.OAuthTokenDto(None, dto.responseType))
  {
  }
}
