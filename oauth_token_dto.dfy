/**
 * The token endpoint's dispatcher: a request names exactly one of
 * `grant_type` (sections 4.1.3, 4.3.2, 4.4.2 and 6 of RFC 6749) and
 * `response_type` (sections 4.1.1 and 4.2.1), each from a fixed list.
 */
module OAuthTokenDtos {
  import opened Wrappers
  import opened Validation

  datatype OAuthTokenDto = OAuthTokenDto(grantType: Option<string>, responseType: Option<string>)

  const ResponseTypes: seq<string> := ["code", "token"]
  const GrantTypes: seq<string> := ["authorization_code", "password", "client_credentials", "refresh_token"]

  /** `types.Any(type => type == x)`: null matches nothing. */
  predicate AnyEquals(types: seq<string>, x: Option<string>) {
    x.Some? && x.value in types
  }

  /** `OAuthTokenDtoValidator`: the three rules, all of which must pass. */
  predicate IsValid(dto: OAuthTokenDto)
    ensures IsValid(dto) ==> IsNullOrEmpty(dto.grantType) || IsNullOrEmpty(dto.responseType)
    ensures IsValid(dto) ==> dto.grantType.Some? || dto.responseType.Some?
  {
    // exactly one of the two is given (XOR)
    && (!IsNullOrEmpty(dto.responseType) != !IsNullOrEmpty(dto.grantType))
    // response_type from the list, when grant_type is absent
    && (IsNullOrEmpty(dto.grantType) ==> AnyEquals(ResponseTypes, dto.responseType))
    // grant_type from the list, when response_type is absent
    && (IsNullOrEmpty(dto.responseType) ==> AnyEquals(GrantTypes, dto.grantType))
  }

  /** Valid exactly when one field is absent and the other is one of its listed values. */
  lemma Characterization(dto: OAuthTokenDto)
    ensures IsValid(dto) <==>
      || (IsNullOrEmpty(dto.grantType) && dto.responseType.Some? && dto.responseType.value in {"code", "token"})
      || (IsNullOrEmpty(dto.responseType) && dto.grantType.Some?
          && dto.grantType.value in {"authorization_code", "password", "client_credentials", "refresh_token"})
  {
  }

  /** Both fields given: rejected whatever they hold. */
  lemma BothRejected(dto: OAuthTokenDto)
    requires !IsNullOrEmpty(dto.grantType) && !IsNullOrEmpty(dto.responseType)
    ensures !IsValid(dto)
  {
  }

  /** Neither field given (`{ }`): rejected. */
  lemma NeitherRejected()
    ensures !IsValid(OAuthTokenDto(None, None))
  {
  }

  /** An empty string counts exactly as a missing field. */
  lemma EmptyIsNull(dto: OAuthTokenDto)
    ensures IsValid(dto.(grantType := Some(""))) == IsValid(dto.(grantType := None))
    ensures IsValid(dto.(responseType := Some(""))) == IsValid(dto.(responseType := None))
  {
  }

  /** Values of the wrong kind are refused in either field. */
  lemma WrongKindRejected(g: string, r: string)
    requires g in ResponseTypes && r in GrantTypes
    ensures !IsValid(OAuthTokenDto(Some(g), None))
    ensures !IsValid(OAuthTokenDto(None, Some(r)))
  {
  }
}
