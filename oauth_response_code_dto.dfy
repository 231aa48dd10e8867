/** The authorization request with `response_type=code` (section 4.1.1 of RFC 6749). */
module OAuthResponseCodeDtos {
  import opened Wrappers
  import opened Validation
  import OAuthTokenDtos

  datatype OAuthResponseCodeDto = OAuthResponseCodeDto(
    responseType: Option<string>, clientId: Option<string>, redirectUri: Option<string>,
    scope: Option<string>, state: Option<string>)

  /** `OAuthResponseCodeDtoValidator`. */
  predicate IsValid(lib: Library, dto: OAuthResponseCodeDto)
    ensures IsValid(lib, dto) ==> dto.responseType == Some("code") && dto.clientId.Some?
  {
    && Equal(dto.responseType, "code")
    && NotEmpty(lib, dto.clientId)
    && OptionalAbsoluteUri(lib, dto.redirectUri)
    && OptionalNotEmpty(lib, dto.scope)
    && OptionalNotEmpty(lib, dto.state)
  }

  lemma Characterization(lib: Library, dto: OAuthResponseCodeDto)
    ensures IsValid(lib, dto) <==>
      && dto.responseType == Some("code")
      && dto.clientId.Some? && lib.notEmpty(dto.clientId.value)
      && (dto.redirectUri.None? || dto.redirectUri.value == "" || lib.isAbsoluteUri(dto.redirectUri.value))
      && (dto.scope.None? || dto.scope.value == "" || lib.notEmpty(dto.scope.value))
      && (dto.state.None? || dto.state.value == "" || lib.notEmpty(dto.state.value))
  {
  }

  /** Any other response type, `"token"` among them, or none, is refused. */
  lemma ResponseTypeMustMatch(lib: Library, dto: OAuthResponseCodeDto)
    requires dto.responseType != Some("code")
    ensures !IsValid(lib, dto)
  {
  }

  /** Missing or empty redirect URI, scope and state never cause a rejection. */
  lemma OptionalFields(lib: Library, dto: OAuthResponseCodeDto)
    requires IsNullOrEmpty(dto.redirectUri) && IsNullOrEmpty(dto.scope) && IsNullOrEmpty(dto.state)
    ensures IsValid(lib, dto) <==> IsValid(lib, dto.(redirectUri := None, scope := None, state := None))
  {
  }

  lemma AcceptedByDispatcher(lib: Library, dto: OAuthResponseCodeDto)
    requires IsValid(lib, dto)
    ensures OAuthTokenDtos.IsValid(OAuthTokenDtos.OAuthTokenDto(None, dto.responseType))
  {
  }
}
