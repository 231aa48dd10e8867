/**
 * Request helpers: reading HTTP Basic credentials from the `Authorization`
 * header, and wrapping a deserialised body together with its validation
 * outcome. Base64 decoding followed by `Encoding.Default` is one abstract
 * partial function, `fromBase64`; `None` stands for the `FormatException`
 * that `Convert.FromBase64String` throws.
 */
module HttpRequestExtensions {
  import opened Wrappers
  import Strings

  const AuthorizationHeader: string := "Authorization"
  const BasicPrefix: string := "Basic "

  /** The request headers: each name with its list of values. */
  datatype HttpRequest = HttpRequest(headers: map<string, seq<string>>)

  datatype BasicAuth = BasicAuth(username: string, password: string)

  /** The exceptions `GetBasicAuth` lets escape. */
  datatype HeaderError =
    | NoHeaderValue   // the header is present with no value, so `[0]` throws
    | InvalidBase64   // `Convert.FromBase64String` rejects the token

  /**
   * `GetBasicAuth`: `Success(None)` where the C# method returns null,
   * `Success(Some(..))` for credentials, `Failure` where it throws.
   */
  function GetBasicAuth(req: HttpRequest, fromBase64: string -> Option<string>): (r: Result<Option<BasicAuth>, HeaderError>)
    ensures AuthorizationHeader !in req.headers ==> r == Success(None)
    ensures AuthorizationHeader in req.headers && |req.headers[AuthorizationHeader]| == 0 ==>
      r == Failure(NoHeaderValue)
    ensures (AuthorizationHeader in req.headers && |req.headers[AuthorizationHeader]| > 0
             && !(BasicPrefix <= req.headers[AuthorizationHeader][0]))
      ==> r == Success(None)
    ensures (AuthorizationHeader in req.headers && |req.headers[AuthorizationHeader]| > 0
             && BasicPrefix <= req.headers[AuthorizationHeader][0]
             && fromBase64(req.headers[AuthorizationHeader][0][|BasicPrefix|..]).None?)
      ==> r == Failure(InvalidBase64)
    ensures r.Success? && r.value.Some? ==>
      && AuthorizationHeader in req.headers
      && |req.headers[AuthorizationHeader]| > 0
      && BasicPrefix <= req.headers[AuthorizationHeader][0]
      && fromBase64(req.headers[AuthorizationHeader][0][|BasicPrefix|..])
         == Some(r.value.value.username + ":" + r.value.value.password)
      && ':' !in r.value.value.username
      && ':' !in r.value.value.password
  {
    if AuthorizationHeader !in req.headers then Success(None)
    else
      var values := req.headers[AuthorizationHeader];
      if |values| == 0 then Failure(NoHeaderValue)
      else
        var authHeader := values[0];
        if !(BasicPrefix <= authHeader) then Success(None)
        else
          var token := authHeader[|BasicPrefix|..];
          match fromBase64(token)
          case None => Failure(InvalidBase64)
          case Some(decoded) =>
            var parts := Strings.Split(decoded, ':');
            if |parts| != 2 then Success(None)
            else
              assert Strings.Join(parts[1..], ':') == parts[1];
              Success(Some(BasicAuth(parts[0], parts[1])))
  }

  /** A request carrying `value` as its single `Authorization` header. */
  function WithAuthorization(value: string): HttpRequest {
    HttpRequest(map[AuthorizationHeader := [value]])
  }

  /** Credentials without `:` in either part come back exactly as encoded. */
  lemma BasicAuthRoundTrip(username: string, password: string, token: string, fromBase64: string -> Option<string>)
    requires ':' !in username && ':' !in password
    requires fromBase64(token) == Some(username + ":" + password)
    ensures GetBasicAuth(WithAuthorization(BasicPrefix + token), fromBase64) == Success(Some(BasicAuth(username, password)))
  {
    var header := BasicPrefix + token;
    assert header[|BasicPrefix|..] == token;
    Strings.SplitJoin([username, password], ':');
    assert Strings.Join([username, password], ':') == username + ":" + password by {
      assert [username, password][1..] == [password];
    }
  }

  /** Once the token decodes, the result is null exactly when the text does not hold exactly one `:`. */
  lemma NullUnlessOneColon(req: HttpRequest, fromBase64: string -> Option<string>, decoded: string)
    requires AuthorizationHeader in req.headers && |req.headers[AuthorizationHeader]| > 0
    requires BasicPrefix <= req.headers[AuthorizationHeader][0]
    requires fromBase64(req.headers[AuthorizationHeader][0][|BasicPrefix|..]) == Some(decoded)
    ensures GetBasicAuth(req, fromBase64) == Success(None) <==> multiset(decoded)[':'] != 1
    ensures GetBasicAuth(req, fromBase64).Success?
  {
  }

  /** A password containing `:` is refused, although section 2 of RFC 7617 allows one. */
  lemma ColonInPasswordRefused(token: string, fromBase64: string -> Option<string>)
    requires fromBase64(token) == Some("user:pass:word")
    ensures GetBasicAuth(WithAuthorization(BasicPrefix + token), fromBase64) == Success(None)
  {
    var header := BasicPrefix + token;
    assert header[|BasicPrefix|..] == token;
    var parts := ["user", "pass", "word"];
    assert Strings.Join(parts, ':') == "user:pass:word" by {
      assert parts[1..] == ["pass", "word"] && parts[1..][1..] == ["word"];
    }
    Strings.SplitJoin(parts, ':');
  }

  /** The scheme is matched case-sensitively, although section 2.1 of RFC 7235 makes it case-insensitive. */
  lemma LowerCaseSchemeRefused(token: string, fromBase64: string -> Option<string>)
    ensures GetBasicAuth(WithAuthorization("basic " + token), fromBase64) == Success(None)
  {
    assert ("basic " + token)[0] != BasicPrefix[0];
  }

  /** Only the first value of the header is looked at. */
  lemma OnlyFirstValueRead(first: string, rest1: seq<string>, rest2: seq<string>, fromBase64: string -> Option<string>)
    ensures GetBasicAuth(HttpRequest(map[AuthorizationHeader := [first] + rest1]), fromBase64)
         == GetBasicAuth(HttpRequest(map[AuthorizationHeader := [first] + rest2]), fromBase64)
  {
  }

  // ---- Validated request bodies ----

  /** One validation failure: the property it concerns and the message. */
  datatype ValidationFailure = ValidationFailure(propertyName: string, errorMessage: string)

  /** What a validator reports: valid exactly when there are no failures. */
  datatype ValidationResult = ValidationResult(errors: seq<ValidationFailure>) {
    predicate IsValid() {
      |errors| == 0
    }
  }

  datatype ValidatableRequest<T> = ValidatableRequest(value: T, isValid: bool, errors: seq<ValidationFailure>)

  /**
   * The `ValidatableRequest` constructor: null errors mean valid, and the
   * stored errors are then the empty list; a request marked valid never
   * carries errors, and one carrying errors is never marked valid.
   */
  function NewValidatableRequest<T>(value: T, errors: Option<seq<ValidationFailure>>): (r: ValidatableRequest<T>)
    ensures r.value == value
    ensures r.isValid <==> errors.None?
    ensures r.isValid ==> r.errors == []
    ensures r.errors != [] ==> !r.isValid
    ensures errors.Some? ==> r.errors == errors.value
  {
    ValidatableRequest(value, errors.None?, if errors.None? then [] else errors.value)
  }

  /**
   * `GetJsonBody<T, V>` after deserialisation, as written: it passes the
   * errors when the validator says valid and null when it says invalid.
   */
  function ValidateBody<T>(value: T, result: ValidationResult): (r: ValidatableRequest<T>)
    ensures r.value == value
  {
    NewValidatableRequest(value, if result.IsValid() then Some(result.errors) else None)
  }

  /** As written the wrapper's verdict is the opposite of the validator's, and failures are dropped. */
  lemma ValidateBodyInvertsValidity<T>(value: T, result: ValidationResult)
    ensures ValidateBody(value, result).isValid == !result.IsValid()
    ensures ValidateBody(value, result).errors == []
  {
  }

  /** A body with one failure comes out marked valid with no errors to report. */
  lemma InvalidBodyMarkedValid(value: int)
    ensures ValidateBody(value, ValidationResult([ValidationFailure("grant_type", "Invalid grant_type provided")])).isValid
  {
  }

  /** The evidently intended wrapping: errors only when the validator reports some. */
  function ValidateBodyIntended<T>(value: T, result: ValidationResult): (r: ValidatableRequest<T>)
    ensures r.value == value
    ensures r.isValid == result.IsValid()
    ensures r.errors == result.errors
  {
    NewValidatableRequest(value, if result.IsValid() then None else Some(result.errors))
  }
}
