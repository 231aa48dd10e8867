/** The client-credentials grant request (section 4.4.2 of RFC 6749). */
module OAuthGrantClientCredentialsDtos {
  import opened Wrappers
  import opened Validation
  import OAuthTokenDtos

  datatype OAuthGrantClientCredentialsDto = OAuthGrantClientCredentialsDto(
    grantType: Option<string>, scope: Option<string>)

  /** `OAuthGrantClientCredentialsDtoValidator`. */
  predicate IsValid(lib: Library, dto: OAuthGrantClientCredentialsDto)
    ensures IsValid(lib, dto) ==> dto.grantType == Some("client_credentials")
  {
    && Equal(dto.grantType, "client_credentials")
    && OptionalNotEmpty(lib, dto.scope)
  }

  lemma Characterization(lib: Library, dto: OAuthGrantClientCredentialsDto)
    ensures IsValid(lib, dto) <==>
      && dto.grantType == Some("client_credentials")
      && (dto.scope.None? || dto.scope.value == "" || lib.notEmpty(dto.scope.value))
  {
  }

  /** The empty body `{ }` is refused: a null grant type fails `Equal`. */
  lemma EmptyBodyRejected(lib: Library)
    ensures !IsValid(lib, OAuthGrantClientCredentialsDto(None, None))
  {
  }

  lemma ScopeOptional(lib: Library, dto: OAuthGrantClientCredentialsDto)
    requires IsNullOrEmpty(dto.scope)
    ensures IsValid(lib, dto) <==> IsValid(lib, dto.(scope := None))
  {
  }

  lemma AcceptedByDispatcher(lib: Library, dto: OAuthGrantClientCredentialsDto)
    requires IsValid(lib, dto)
    ensures OAuthTokenDtos.IsValid(OAuthTokenDtos.OAuthTokenDto(dto.grantType, None))
  {
  }
}
