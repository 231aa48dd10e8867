/** The resource-owner password grant request (section 4.3.2 of RFC 6749). */
module OAuthGrantPasswordDtos {
  import opened Wrappers
  import opened Validation
  import OAuthTokenDtos

  datatype OAuthGrantPasswordDto = OAuthGrantPasswordDto(
    grantType: Option<string>, username: Option<string>, password: Option<string>, scope: Option<string>)

  /** `OAuthGrantPasswordDtoValidator`: no complexity rule on the password here. */
  predicate IsValid(lib: Library, dto: OAuthGrantPasswordDto)
    ensures IsValid(lib, dto) ==> dto.grantType == Some("password") && dto.username.Some? && dto.password.Some?
  {
    && Equal(dto.grantType, "password")
    && NotEmpty(lib, dto.username)
    && NotEmpty(lib, dto.password)
    && OptionalNotEmpty(lib, dto.scope)
  }

  lemma Characterization(lib: Library, dto: OAuthGrantPasswordDto)
    ensures IsValid(lib, dto) <==>
      && dto.grantType == Some("password")
      && dto.username.Some? && lib.notEmpty(dto.username.value)
      && dto.password.Some? && lib.notEmpty(dto.password.value)
      && (dto.scope.None? || dto.scope.value == "" || lib.notEmpty(dto.scope.value))
  {
  }

  lemma GrantTypeMustMatch(lib: Library, dto: OAuthGrantPasswordDto)
    requires dto.grantType != Some("password")
    ensures !IsValid(lib, dto)
  {
  }

  /** A missing or empty scope never causes a rejection. */
  lemma ScopeOptional(lib: Library, dto: OAuthGrantPasswordDto)
    requires IsNullOrEmpty(dto.scope)
    ensures IsValid(lib, dto) <==> IsValid(lib, dto.(scope := None))
  {
  }

  lemma AcceptedByDispatcher(lib: Library, dto: OAuthGrantPasswordDto)
    requires IsValid(lib, dto)
    ensures OAuthTokenDtos.IsValid(OAuthTokenDtos.OAuthTokenDto(dto.grantType, None))
  {
  }
}
