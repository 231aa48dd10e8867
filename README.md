# Guardian core, modelled in Dafny

Guardian is an identity and authentication service. Its orchestration services
(registration, association, recovery) have no bodies in this revision. Its
repositories only pass calls through to the document store. The logic it does
carry is a set of small deterministic components, and this project models
those:

- **Composite storage keys** (`Integrations`, `RecoveryCodes`, `Tokens`). Each
  key function is a string format, and each constructor derives `Id` from it.
  An integration's key is `platform:userId`. A recovery code's key is
  `type:identityId`, the reverse of the key function's parameter order. A
  token's key is `identityId:iat`, with `iat` in decimal. Because a decimal
  never contains `:`, the token key can always be split back at its last `:`,
  so it is injective. The other two keys split back at their first `:` only
  when the first component has no `:`. Without that condition they collide, and
  `CompositeIdsCollide` shows such a collision.
- **Random strings** (`Crypto`). `GenerateRandomString(length)` draws
  `(length + 1) / 2` bytes and hex-encodes them in upper case. It drops the
  last digit when `length` is odd. The random generator is replaced by the
  bytes it returns. The arithmetic is C#'s 32-bit arithmetic (module `Int32`).
  So `int.MaxValue + 1` wraps, and the call throws there. It also throws for
  any `length` below -2.
- **HTTP Basic credentials and validated bodies** (`HttpRequestExtensions`).
  `GetBasicAuth` reads the first `Authorization` value and requires the
  case-sensitive prefix `"Basic "`. It decodes the rest and accepts the text
  only when it holds exactly one `:`. The code follows neither standard here.
  Section 2.1 of RFC 7235 makes the scheme name case-insensitive. Section 2 of
  RFC 7617 allows a `:` in the password. The model follows the code. The
  `ValidatableRequest` wrapper and the validity wrapping done by
  `GetJsonBody<T, V>` are modelled as written; see "Findings".
- **Request validators** (`Validation` and one module per DTO). The token
  endpoint's dispatcher (`OAuthTokenDtos`) accepts exactly one of `grant_type`
  and `response_type`, each from a fixed list. Six per-flow validators cover
  the flows of RFC 6749:
  - the authorization-code grant (section 4.1.3);
  - the password grant (section 4.3.2);
  - the client-credentials grant (section 4.4.2);
  - refresh (section 6);
  - the `code` response type (section 4.1.1);
  - the `token` response type (section 4.2.1).

  The account credential rules (`AccountAuthDtos`) require an email address the
  library accepts. The password must hold an ASCII upper-case letter, a
  lower-case letter, a digit and a character outside `[A-Za-z0-9]`. Each DTO is
  a record of `Option<string>` fields, where `None` is a missing field, and each
  validator is a predicate. FluentValidation's `NotEmpty` and `EmailAddress`
  and .NET's `Uri.TryCreate(.., UriKind.Absolute, ..)` are supplied as
  functions in a `Library` value. Nothing is assumed about them.
- **Token issuance** (`TokenService`). One timestamp gives the access-token
  claims (`exp = iat + 3600`). On request it also gives the refresh-token
  claims (`exp = iat + 604800`, plus a `jti`). The response always has
  `expires_in = 3600` and `token_type = "Bearer"`. When a refresh token is
  issued, exactly one record is written to the token store
  (`TokenRepository`, a class holding the sequence of records written). Its
  issue time goes through C#'s unchecked `(int)` cast. Up to 2038-01-19 the
  record's key holds the claim's issue time. After that date the cast wraps,
  and `RecordKeyWrapsAfter2038` shows the result. The JWT encoder, the clock
  and the `jti` generator are parameters.

C#'s `null` is `Option.None`. An exception the C# code lets escape is
`Result.Failure`.

## Model

| member | source | states |
|---|---|---|
| `Integrations.GetCompositeId` | Guardian/Models/Integration.cs:50-53 | the key is the platform, then `:`, then the user id, so its length is `\|platform\| + \|userId\| + 1` |
| `Integrations.NewIntegration` | Guardian/Models/Integration.cs:33-42 | the constructor sets `Id` to the key of (platform, userId) and stores identity, platform and user id unchanged |
| `Integrations.CompositeIdRoundTrip` | Guardian/Models/Integration.cs:50-53 | if the platform has no `:`, cutting the key at its first `:` gives back (platform, userId) |
| `Integrations.CompositeIdInjective` | Guardian/Models/Integration.cs:50-53 | if neither platform has a `:`, equal keys mean equal platforms and equal user ids |
| `Integrations.CompositeIdsCollide` | Guardian/Models/Integration.cs:50-53 | without that condition two different pairs share one key |
| `Integrations.IdIndependentOfIdentity` | Guardian/Models/Integration.cs:33-38 | the key does not depend on the owning identity |
| `Integrations.CompositeIdExample` | Guardian.Tests.Unit/Models/IntegrationTests.cs:10-17 | `("platform", "userId")` gives `"platform:userId"` |
| `RecoveryCodes.GetCompositeId` | Guardian/Models/RecoveryCode.cs:46-49 | the key is the type, then `:`, then the identity, in reverse parameter order |
| `RecoveryCodes.NewRecoveryCode` | Guardian/Models/RecoveryCode.cs:32-38 | the constructor sets `Id` to the key of (identityId, type) and stores code, identity and type unchanged |
| `RecoveryCodes.CompositeIdRoundTrip` | Guardian/Models/RecoveryCode.cs:46-49 | if the type has no `:`, cutting the key at its first `:` gives back (type, identityId) |
| `RecoveryCodes.CompositeIdInjective` | Guardian/Models/RecoveryCode.cs:46-49 | if neither type has a `:`, equal keys mean equal identities and equal types |
| `RecoveryCodes.CompositeIdsCollide` | Guardian/Models/RecoveryCode.cs:46-49 | without that condition two different pairs share one key |
| `RecoveryCodes.IdIndependentOfCode` | Guardian/Models/RecoveryCode.cs:32-34 | two codes for the same identity and type share one key |
| `RecoveryCodes.CompositeIdExample` | Guardian/Models/RecoveryCode.cs:46-49 | `("identityId", "type")` gives `"type:identityId"` |
| `Tokens.GetCompositeId` | Guardian/Models/Token.cs:39-42 | the key is the identity, then `:`, then the decimal rendering of `iat` |
| `Tokens.NewToken` | Guardian/Models/Token.cs:26-31 | the constructor sets `Id` to the key of (identityId, iat) and stores token and identity; `iat` is kept only in the key |
| `Tokens.CompositeIdRoundTrip` | Guardian/Models/Token.cs:39-42 | for every identity, even one holding `:`, cutting the key at its last `:` and parsing the digits gives back (identityId, iat) |
| `Tokens.CompositeIdInjective` | Guardian/Models/Token.cs:39-42 | equal keys mean equal identities and equal issue times |
| `Tokens.CompositeIdExample` | Guardian.Tests.Unit/Models/TokenTests.cs:9-17 | `("identityId", 1234567890)` gives `"identityId:1234567890"` |
| `Decimal.IntToDecimal` | Guardian/Models/Token.cs:41 | an int renders as digits only, with at most a leading `-` |
| `Decimal.DecimalHasNoColon` | Guardian/Models/Token.cs:41 | the rendering of an int never contains `:` |
| `Decimal.DecimalRoundTrip` | Guardian/Models/Token.cs:41 | parsing the rendering gives the int back |
| `Decimal.IntToDecimalInjective` | Guardian/Models/Token.cs:41 | distinct ints render differently |
| `Decimal.RenderingExample` | Guardian.Tests.Unit/Models/TokenTests.cs:11-17 | 1234567890 renders as `"1234567890"` |
| `Int32.Wrap` | Guardian/Services/TokenService.cs:62 | an unchecked 32-bit result agrees with the true value modulo 2^32, and equals it inside the int range |
| `Int32.DivTrunc` | Guardian/Utils/Crypto.cs:36 | C# integer division rounds toward zero: the remainder `a - q*b` lies in `[0, b)` for `a >= 0` and in `(-b, 0]` for `a < 0`, so `(-2 + 1) / 2` is 0, not -1 |
| `Int32.RemTrunc` | Guardian/Utils/Crypto.cs:38 | C# remainder completes the truncating quotient and takes the dividend's sign |
| `Crypto.ToHexString` | Guardian/Utils/Crypto.cs:35-36 | two upper-case hex digits per byte |
| `Crypto.ToHexStringAt` | Guardian/Utils/Crypto.cs:35-36 | digit pair `i` is byte `i`, high nibble first |
| `Crypto.HexRoundTrip` | Guardian/Utils/Crypto.cs:35-36 | decoding the hex text gives the bytes back |
| `Crypto.RandomByteCount` | Guardian/Utils/Crypto.cs:36 | `(length + 1) / 2` truncates toward zero below `int.MaxValue`, and at `int.MaxValue` the sum wraps and the count is `int.MinValue / 2` |
| `Crypto.GenerateRandomString` | Guardian/Utils/Crypto.cs:33-42 | every character of a result is an upper-case hex digit 0-9 or A-F |
| `Crypto.GeneratedLength` | Guardian/Utils/Crypto.cs:33-42 | for `0 <= length < int.MaxValue`, `(length + 1) / 2` bytes are drawn and the result has exactly `length` characters |
| `Crypto.GeneratedContents` | Guardian/Utils/Crypto.cs:35-39 | an even length gives the full encoding; an odd length gives it without its last digit |
| `Crypto.SmallNegativeLengthIsEmpty` | Guardian/Utils/Crypto.cs:36-41 | lengths -1 and -2 draw no bytes and give `""` |
| `Crypto.GenerateRandomStringThrows` | Guardian/Utils/Crypto.cs:36 | the call throws exactly when `length < -2` or `length == int.MaxValue` |
| `Crypto.DefaultLengthUses32Bytes` | Guardian/Utils/Crypto.cs:33-36 | the default length 64 draws 32 bytes and gives their 64-digit encoding |
| `Strings.Split` | Guardian/Utils/HttpRequestExtensions.cs:79-83 | `Split(':')` gives one more piece than there are `:`s; no piece holds `:`; joining the pieces with `:` gives the text back |
| `Strings.SplitJoin` | Guardian/Utils/HttpRequestExtensions.cs:79-83 | splitting undoes joining when no piece holds the separator |
| `HttpRequestExtensions.GetBasicAuth` | Guardian/Utils/HttpRequestExtensions.cs:65-86 | no `Authorization` header gives null; an empty value list throws at `[0]`; a first value without the prefix `"Basic "` gives null; a token that does not decode throws; credentials only come from a first value that starts with `"Basic "` and whose rest decodes to `username:password`, with no `:` in either part |
| `HttpRequestExtensions.BasicAuthRoundTrip` | Guardian/Utils/HttpRequestExtensions.cs:70-85 | a username and a password without `:`, encoded behind `"Basic "`, come back exactly; empty parts are allowed |
| `HttpRequestExtensions.NullUnlessOneColon` | Guardian/Utils/HttpRequestExtensions.cs:79-80 | once the token decodes, the result is null exactly when the text does not hold exactly one `:` |
| `HttpRequestExtensions.ColonInPasswordRefused` | Guardian/Utils/HttpRequestExtensions.cs:79-80 | `user:pass:word` gives null |
| `HttpRequestExtensions.LowerCaseSchemeRefused` | Guardian/Utils/HttpRequestExtensions.cs:72-73 | the prefix `"basic "` gives null |
| `HttpRequestExtensions.OnlyFirstValueRead` | Guardian/Utils/HttpRequestExtensions.cs:70 | header values after the first do not change the result |
| `HttpRequestExtensions.NewValidatableRequest` | Guardian/Utils/HttpRequestExtensions.cs:97-104 | `IsValid` holds exactly when the errors are null; `Errors` is then empty, and otherwise it is the given errors |
| `HttpRequestExtensions.ValidateBody` | Guardian/Utils/HttpRequestExtensions.cs:32-43 | the deserialised value is kept unchanged |
| `HttpRequestExtensions.ValidateBodyInvertsValidity` | Guardian/Utils/HttpRequestExtensions.cs:38-42 | as written, the wrapper's `IsValid` is the negation of the validator's, and its `Errors` are always empty |
| `HttpRequestExtensions.InvalidBodyMarkedValid` | Guardian/Utils/HttpRequestExtensions.cs:38-42 | a body with one validation failure comes out marked valid |
| `HttpRequestExtensions.ValidateBodyIntended` | Guardian/Utils/HttpRequestExtensions.cs:38-42 | the corrected wrapping keeps the validator's verdict and failures |
| `OAuthTokenDtos.IsValid` | Guardian/DTOs/OAuthTokenDto.cs:20-49 | an accepted request leaves at least one of `grant_type` and `response_type` null or empty and gives at least one of them |
| `OAuthTokenDtos.Characterization` | Guardian/DTOs/OAuthTokenDto.cs:36-49 | valid iff (grant empty and response in {code, token}) or (response empty and grant one of the four grant types) |
| `OAuthTokenDtos.BothRejected` | Guardian/DTOs/OAuthTokenDto.cs:36-39 | both fields given: rejected whatever they hold |
| `OAuthTokenDtos.NeitherRejected` | Guardian/DTOs/OAuthTokenDto.cs:36-49 | `{ }` is rejected |
| `OAuthTokenDtos.EmptyIsNull` | Guardian/DTOs/OAuthTokenDto.cs:37-48 | an empty string is treated exactly like a missing field |
| `OAuthTokenDtos.WrongKindRejected` | Guardian/DTOs/OAuthTokenDto.cs:22-49 | a response type given as `grant_type`, or a grant type given as `response_type`, is rejected |
| `OAuthGrantAuthorizationCodeDtos.IsValid` | Guardian/DTOs/OAuthGrantAuthorizationCodeDto.cs:21-35 | an accepted request has grant `authorization_code` and gives a code and a client id |
| `OAuthGrantAuthorizationCodeDtos.Characterization` | Guardian/DTOs/OAuthGrantAuthorizationCodeDto.cs:23-34 | valid iff grant is `authorization_code`, `NotEmpty(code)`, `NotEmpty(client_id)`, and the redirect is empty or an absolute URI |
| `OAuthGrantAuthorizationCodeDtos.GrantTypeMustMatch` | Guardian/DTOs/OAuthGrantAuthorizationCodeDto.cs:23-24 | any other grant type, or none, is rejected |
| `OAuthGrantAuthorizationCodeDtos.CodeAndClientRequired` | Guardian/DTOs/OAuthGrantAuthorizationCodeDto.cs:26-30 | a missing code or client id is rejected |
| `OAuthGrantAuthorizationCodeDtos.RedirectUriOptional` | Guardian/DTOs/OAuthGrantAuthorizationCodeDto.cs:32-34 | a missing or empty redirect URI never causes rejection |
| `OAuthGrantAuthorizationCodeDtos.AcceptedByDispatcher` | Guardian/DTOs/OAuthGrantAuthorizationCodeDto.cs:23-24 | an accepted request also passes the dispatcher |
| `OAuthGrantPasswordDtos.IsValid` | Guardian/DTOs/OAuthGrantPasswordDto.cs:21-35 | an accepted request has grant `password` and gives a username and a password |
| `OAuthGrantPasswordDtos.Characterization` | Guardian/DTOs/OAuthGrantPasswordDto.cs:23-34 | valid iff grant is `password`, `NotEmpty(username)`, `NotEmpty(password)` with no complexity rule, and the scope is empty or `NotEmpty` |
| `OAuthGrantPasswordDtos.GrantTypeMustMatch` | Guardian/DTOs/OAuthGrantPasswordDto.cs:23-24 | any other grant type, or none, is rejected |
| `OAuthGrantPasswordDtos.ScopeOptional` | Guardian/DTOs/OAuthGrantPasswordDto.cs:32-34 | a missing or empty scope never causes rejection |
| `OAuthGrantPasswordDtos.AcceptedByDispatcher` | Guardian/DTOs/OAuthGrantPasswordDto.cs:23-24 | an accepted request also passes the dispatcher |
| `OAuthGrantRefreshTokenDtos.IsValid` | Guardian/DTOs/OAuthGrantRefreshTokenDto.cs:18-29 | an accepted request has grant `refresh_token` and gives a refresh token |
| `OAuthGrantRefreshTokenDtos.Characterization` | Guardian/DTOs/OAuthGrantRefreshTokenDto.cs:20-28 | valid iff grant is `refresh_token`, `NotEmpty(refresh_token)`, and the scope is empty or `NotEmpty` |
| `OAuthGrantRefreshTokenDtos.GrantTypeMustMatch` | Guardian/DTOs/OAuthGrantRefreshTokenDto.cs:20-21 | any other grant type, or none, is rejected |
| `OAuthGrantRefreshTokenDtos.ScopeOptional` | Guardian/DTOs/OAuthGrantRefreshTokenDto.cs:26-28 | a missing or empty scope never causes rejection |
| `OAuthGrantRefreshTokenDtos.AcceptedByDispatcher` | Guardian/DTOs/OAuthGrantRefreshTokenDto.cs:20-21 | an accepted request also passes the dispatcher |
| `OAuthGrantClientCredentialsDtos.IsValid` | Guardian/DTOs/OAuthGrantClientCredentialsDto.cs:15-23 | an accepted request has grant `client_credentials` |
| `OAuthGrantClientCredentialsDtos.Characterization` | Guardian/DTOs/OAuthGrantClientCredentialsDto.cs:17-22 | valid iff grant is `client_credentials` and the scope is empty or `NotEmpty` |
| `OAuthGrantClientCredentialsDtos.EmptyBodyRejected` | Guardian/DTOs/OAuthGrantClientCredentialsDto.cs:17-18 | `{ }` is rejected: a null grant fails `Equal` |
| `OAuthGrantClientCredentialsDtos.ScopeOptional` | Guardian/DTOs/OAuthGrantClientCredentialsDto.cs:20-22 | a missing or empty scope never causes rejection |
| `OAuthGrantClientCredentialsDtos.AcceptedByDispatcher` | Guardian/DTOs/OAuthGrantClientCredentialsDto.cs:17-18 | an accepted request also passes the dispatcher |
| `OAuthResponseCodeDtos.IsValid` | Guardian/DTOs/OAuthResponseCodeDto.cs:24-43 | an accepted request has response type `code` and gives a client id |
| `OAuthResponseCodeDtos.Characterization` | Guardian/DTOs/OAuthResponseCodeDto.cs:26-42 | valid iff response type is `code`, `NotEmpty(client_id)`, the redirect is empty or absolute, and scope and state are each empty or `NotEmpty` |
| `OAuthResponseCodeDtos.ResponseTypeMustMatch` | Guardian/DTOs/OAuthResponseCodeDto.cs:26-27 | `token`, any other value, or none is rejected |
| `OAuthResponseCodeDtos.OptionalFields` | Guardian/DTOs/OAuthResponseCodeDto.cs:32-42 | a missing or empty redirect URI, scope or state never causes rejection |
| `OAuthResponseCodeDtos.AcceptedByDispatcher` | Guardian/DTOs/OAuthResponseCodeDto.cs:26-27 | an accepted request also passes the dispatcher |
| `OAuthResponseTokenDtos.IsValid` | Guardian/DTOs/OAuthResponseTokenDto.cs:24-43 | an accepted request has response type `token` and gives a client id |
| `OAuthResponseTokenDtos.Characterization` | Guardian/DTOs/OAuthResponseTokenDto.cs:26-42 | valid iff response type is `token`, `NotEmpty(client_id)`, the redirect is empty or absolute, and scope and state are each empty or `NotEmpty` |
| `OAuthResponseTokenDtos.ResponseTypeMustMatch` | Guardian/DTOs/OAuthResponseTokenDto.cs:26-27 | `code`, any other value, or none is rejected |
| `OAuthResponseTokenDtos.OptionalFields` | Guardian/DTOs/OAuthResponseTokenDto.cs:32-42 | a missing or empty redirect URI, scope or state never causes rejection |
| `OAuthResponseTokenDtos.AcceptedByDispatcher` | Guardian/DTOs/OAuthResponseTokenDto.cs:26-27 | an accepted request also passes the dispatcher |
| `AccountAuthDtos.IsValid` | Guardian/DTOs/AccountAuthDto.cs:16-37 | an accepted request gives an email address and a password of at least 4 characters: the four character classes are disjoint, so each needs its own character |
| `AccountAuthDtos.Characterization` | Guardian/DTOs/AccountAuthDto.cs:18-36 | valid iff the email is present and accepted by the library, and the password is present and holds A-Z, a-z, 0-9 and a character outside those classes |
| `AccountAuthDtos.NullRejected` | Guardian/DTOs/AccountAuthDto.cs:18-26 | a missing email or password is rejected |
| `AccountAuthDtos.AcceptedPasswords` | Guardian/DTOs/AccountAuthDto.cs:28-36 | `Example#12` passes, and so does the four-character `Aa1#`: there is no length rule |
| `AccountAuthDtos.RejectedNoUpper` | Guardian/DTOs/AccountAuthDto.cs:29-30 | `password#12` lacks only the capital letter |
| `AccountAuthDtos.RejectedNoLower` | Guardian/DTOs/AccountAuthDto.cs:31-32 | `PASSWORD#12` lacks only the lower-case letter |
| `AccountAuthDtos.RejectedNoDigit` | Guardian/DTOs/AccountAuthDto.cs:33-34 | `Password#` lacks only the digit |
| `AccountAuthDtos.RejectedNoSymbol` | Guardian/DTOs/AccountAuthDto.cs:35-36 | `Password12` lacks only the symbol |
| `AccountAuthDtos.SymbolClassIsBroad` | Guardian/DTOs/AccountAuthDto.cs:35-36 | a space or a non-ASCII letter counts as the symbol |
| `TokenService.AccessTokenClaims` | Guardian/Services/TokenService.cs:39-45 | the access claims name `id`, are issued now, expire 3600 s later and carry no `jti` |
| `TokenService.RefreshTokenClaims` | Guardian/Services/TokenService.cs:50-60 | the refresh claims name `id`, are issued now, expire one week later and carry the generated `jti` |
| `TokenService.Respond` | Guardian/Services/TokenService.cs:39-68 | the access token encodes the access claims; there is a refresh token iff one was asked for, and it encodes the refresh claims; `ExpiresIn` is 3600 and `TokenType` is `Bearer` |
| `TokenService.ExpiresInMatchesAccessClaims` | Guardian/Services/TokenService.cs:43-68 | `ExpiresIn` equals the access token's `exp - iat` |
| `TokenService.ClaimsShareTimestamp` | Guardian/Services/TokenService.cs:37-60 | both tokens have `sub = id` and the same `iat`; the refresh token expires 601200 s after the access token; only it has a `jti` |
| `TokenService.RefreshRecord` | Guardian/Services/TokenService.cs:62 | the record stores `id` and the encoded refresh token, and its key parses back to `id` and the issue time narrowed by the unchecked `(int)` cast |
| `TokenService.RecordKeyMatchesClaims` | Guardian/Services/TokenService.cs:62 | when `now` fits in an int, the record's key is `Token.GetCompositeId(id, now)` and parses back to the refresh claims' `sub` and `iat` |
| `TokenService.RecordKeyWrapsAfter2038` | Guardian/Services/TokenService.cs:62 | at `now = 2^31` the cast wraps and the key holds `-2147483648` |
| `TokenService.TokenRepository.Create` | Guardian/Repositories/TokenRepository.cs:55-68 | one record, built by the `Token` constructor, is added to the store and returned |
| `TokenService.TokenService.GenerateAccessToken` | Guardian/Services/TokenService.cs:33-69 | the response is `Respond(..)`; the store gains exactly the one refresh record when asked for and nothing otherwise |

## Findings

| source | as written | input that shows it | evidently intended | confidence | as-written member | corrected member |
|---|---|---|---|---|---|---|
| Guardian/Utils/HttpRequestExtensions.cs:40-42 | `validationResult.IsValid ? validationResult.Errors : null` passes the errors when the body is valid and null when it is invalid, so the wrapper's `IsValid` is the negation of the validator's and the failures are lost | a body with one failure, e.g. an unknown `grant_type` | pass null when valid and the failures when invalid, so `IsValid` and `Errors` agree with the validator | high (not executed) | `HttpRequestExtensions.ValidateBodyInvertsValidity` | `HttpRequestExtensions.ValidateBodyIntended` |

## Left out

- The Authentication, Association and Recovery services: every method body throws `NotImplementedException`, so there is no behaviour to model.
- The repositories (Account, Identity, Integration, RecoveryCode, Token, Client): they pass calls through to the document store. Uniqueness, not-found and expiry are storage semantics. `TokenRepository` here only records what `CreateAsync` is given. It does not model the store's upsert-by-key or its 14-day expiry.
- `Crypto.Hash` and `Crypto.Verify`: these are BCrypt calls.
- `GetJsonBody<T>` (reading and deserialising the body) and `ToBadRequest` (building the MVC result): I/O and framework plumbing. `ValidateBody` starts from the deserialised value and the validator's result.
- `Convert.FromBase64String` followed by `Encoding.Default.GetString`: one abstract partial function passed to `GetBasicAuth`. A token that does not decode is the `FormatException` result.
- HttpRequestExtensions.GetBasicAuth: the header dictionary is a map with exact keys. ASP.NET's case-insensitive header names are not modelled. `StartsWith` is modelled as an ordinal prefix test, while .NET compares culture-sensitively by default.
- `NotEmpty`, `EmailAddress` and `Uri.TryCreate`: library predicates supplied as parameters and never interpreted. The validators' error messages and property names are not modelled, only whether a request is accepted.
- JWT signing and encoding, the `JWT_SECRET` configuration lookup, `DateTimeOffset.UtcNow`, `ShortId.Generate` and logging: the encoder, the clock reading and the `jti` are parameters of `GenerateAccessToken`.
- The asynchronous execution of `GenerateAccessToken` and `CreateAsync`.
- C# renders an `int` with the current culture's negative sign; the model uses `-`.
- The refresh-token validator test for a null grant type (Guardian.Tests.Unit/DTOs/OAuthGrantRefreshTokenDtoTests.cs:45) has no `[TestMethod]` attribute, so it never runs. `OAuthGrantRefreshTokenDtos.GrantTypeMustMatch` proves the behaviour it meant to check.
