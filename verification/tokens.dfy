/** The token refresh of the alerts sign-in service (`AuthService.refreshToken`
    and `getExpiresIn`) and the HTTP status its controller answers with.

    The call to the identity server's token endpoint is an input: an
    `Exchange` says what came back (a token body, a 4xx refusal with its
    body, or anything else).  JSON parsing is not modelled either: a parsed
    body is given as the fields Jackson would yield, each missing, JSON
    null, a string, or a value of another type (whose cast to `String`
    throws).  Refusals are classified into the error codes of section 5.2 of
    RFC 6749 (`invalid_request`, `invalid_grant`, `invalid_client`) and
    `server_error` of its section 4.1.2.1. */
module TokenRefresh {
  import opened Wrappers
  import opened Strings

  const InvalidRequest := "invalid_request"
  const InvalidGrant := "invalid_grant"
  const InvalidClient := "invalid_client"
  const ServerError := "server_error"

  /** The codes a refused refresh can report. */
  predicate IsOAuthCode(code: string) {
    code == InvalidRequest || code == InvalidGrant || code == InvalidClient || code == ServerError
  }

  // ---------------------------------------------------------------------------
  // Parsed JSON
  // ---------------------------------------------------------------------------

  /** One field of a parsed JSON object. */
  datatype Field = Missing | Null | Str(s: string) | NotText

  /** The outcome of `(String) map.getOrDefault(key, d)`: the string (None
      for null), or a failed cast. */
  datatype Read = Value(v: Option<string>) | CastFailure

  function ReadString(f: Field, d: Option<string>): (r: Read)
    ensures r.CastFailure? <==> f.NotText?
    ensures f.Missing? ==> r == Value(d)
    ensures f.Null? ==> r == Value(None)
    ensures f.Str? ==> r == Value(Some(f.s))
  {
    match f
    case Missing => Value(d)
    case Null => Value(None)
    case Str(s) => Value(Some(s))
    case NotText => CastFailure
  }

  /** What `objectMapper.readValue(body, Map.class)` makes of an error body:
      no JSON object (unparseable, or JSON null), or an object with its
      "error" and "error_description" fields. */
  datatype ErrorJson = NotAnObject | ErrorObject(error: Field, description: Field)

  // ---------------------------------------------------------------------------
  // The error classification
  // ---------------------------------------------------------------------------

  /** The pair (error, errorDescription) as the catch block builds it; None
      is Java's null. */
  datatype Classified = Classified(error: Option<string>, description: Option<string>)

  const DefaultDescription := "Token refresh failed"
  const ExpiredDescription := "Invalid or expired refresh token"
  const NotActive := "token is not active"
  const ClientMismatch := "Session doesn't have required client. Ensure client_id matches the client used for login."

  function Initial(): Classified {
    Classified(Some(InvalidGrant), Some(DefaultDescription))
  }

  /** The substring patterns tried, on the lower-cased body, when the body
      could not be read as a JSON error object; without a match the raw body
      becomes the description and the error stays as it was. */
  function Fallback(error: Option<string>, body: string, clientId: string): (r: Classified)
    ensures var l := Lower(body);
      && (Contains(l, "session doesn't have required client") || Contains(l, "session does not have required client")
          ==> r.error == Some(InvalidRequest))
      && (r.error != error ==> r.error == Some(InvalidRequest) || r.error == Some(InvalidGrant) || r.error == Some(InvalidClient))
      && (r.error == error && r.description != Some(body) ==>
            r.description in {Some(ClientMismatch), Some("Token is not active"), Some("Invalid client ID: " + clientId)})
      && (!Contains(l, "session doesn't have required client") && !Contains(l, "session does not have required client")
          && !Contains(l, NotActive) && !Contains(l, InvalidGrant) && !Contains(l, "invalid client")
          ==> r == Classified(error, Some(body)))
  {
    var l := Lower(body);
    if Contains(l, "session doesn't have required client") || Contains(l, "session does not have required client") then
      Classified(Some(InvalidRequest), Some(ClientMismatch))
    else if Contains(l, NotActive) || Contains(l, InvalidGrant) then
      Classified(Some(InvalidGrant), Some("Token is not active"))
    else if Contains(l, "invalid client") then
      Classified(Some(InvalidClient), Some("Invalid client ID: " + clientId))
    else
      Classified(error, Some(body))
  }

  /** The parsing step of the catch block: the defaults for a missing or
      empty body, the JSON object's fields where they are present (a JSON
      null replaces a default by null), and the substring fallback when the
      body is not a JSON object or a field is not text. */
  function ParseErrorBody(body: Option<string>, json: ErrorJson, clientId: string): (r: Classified)
    ensures body.None? || |body.value| == 0 ==> r == Initial()
    ensures body.Some? && |body.value| > 0 && json.ErrorObject? && !json.error.NotText? && !json.description.NotText? ==>
      r == Classified(ReadString(json.error, Some(InvalidGrant)).v, ReadString(json.description, Some(DefaultDescription)).v)
    ensures body.Some? && |body.value| > 0 && (json.NotAnObject? || json.error.NotText?) ==>
      r == Fallback(Some(InvalidGrant), body.value, clientId)
  {
    if body.None? || |body.value| == 0 then Initial()
    else
      match json
      case NotAnObject => Fallback(Some(InvalidGrant), body.value, clientId)
      case ErrorObject(e, d) =>
        match ReadString(e, Some(InvalidGrant))
        case CastFailure => Fallback(Some(InvalidGrant), body.value, clientId)
        case Value(error) =>
          match ReadString(d, Some(DefaultDescription))
          case CastFailure => Fallback(error, body.value, clientId)
          case Value(description) => Classified(error, description)
  }

  /** The description says the token is no longer active, in any case. */
  predicate SaysNotActive(description: Option<string>) {
    description.Some? && Contains(Lower(description.value), NotActive)
  }

  /** The mapping step: a token that is not active is `invalid_grant`
      whatever the status; 401 becomes `invalid_grant` unless the error is
      `invalid_request` or `invalid_client`, and then a default description
      is replaced; 400 keeps the three client codes and turns anything else
      into `invalid_request`; any other status is `server_error`. */
  function MapStatus(status: int, c: Classified): (r: Classified)
    ensures r.error.Some? && IsOAuthCode(r.error.value)
    ensures SaysNotActive(c.description) ==> r == c.(error := Some(InvalidGrant))
    ensures !SaysNotActive(c.description) && status == 401 ==>
      if c.error == Some(InvalidRequest) || c.error == Some(InvalidClient) then r == c
      else r.error == Some(InvalidGrant)
           && r.description == (if c.description.None? || c.description == Some(DefaultDescription)
                                then Some(ExpiredDescription) else c.description)
    ensures !SaysNotActive(c.description) && status == 400 ==>
      r.description == c.description
      && (r.error == c.error <==> c.error in {Some(InvalidGrant), Some(InvalidRequest), Some(InvalidClient)})
      && (r.error != c.error ==> r.error == Some(InvalidRequest))
    ensures !SaysNotActive(c.description) && status != 400 && status != 401 ==>
      r == c.(error := Some(ServerError))
  {
    if SaysNotActive(c.description) then c.(error := Some(InvalidGrant))
    else if status == 401 then
      if c.error != Some(InvalidRequest) && c.error != Some(InvalidClient) then
        var description := if c.description.None? || c.description.value == DefaultDescription
                           then Some(ExpiredDescription) else c.description;
        Classified(Some(InvalidGrant), description)
      else c
    else if status == 400 then
      if c.error != Some(InvalidGrant) && c.error != Some(InvalidRequest) && c.error != Some(InvalidClient) then
        c.(error := Some(InvalidRequest))
      else c
    else c.(error := Some(ServerError))
  }

  // ---------------------------------------------------------------------------
  // refreshToken
  // ---------------------------------------------------------------------------

  /** `expires_in` as Jackson reads it: absent, a whole number (Integer,
      Long), a fraction (Double), or not a number. */
  datatype Expiry = NoExpiry | Whole(n: int) | Fraction(x: real) | NotNumber

  const DefaultExpiresIn := 300

  /** `getExpiresIn`: the number as a long, truncated toward zero for a
      fraction, and 300 seconds when the field is absent or not a number. */
  function GetExpiresIn(e: Expiry): (r: int)
    ensures e.NoExpiry? || e.NotNumber? ==> r == DefaultExpiresIn
    ensures e.Whole? ==> r == e.n
    ensures e.Fraction? ==>
      || ((r as real) <= e.x < (r as real) + 1.0 && 0.0 <= e.x)
      || ((r as real) - 1.0 < e.x <= (r as real) && e.x < 0.0)
  {
    match e
    case NoExpiry => DefaultExpiresIn
    case Whole(n) => n
    case Fraction(x) => if x >= 0.0 then x.Floor else -((-x).Floor)
    case NotNumber => DefaultExpiresIn
  }

  /** The fields of a successful token response. */
  datatype TokenBody = TokenBody(accessToken: Field, refreshToken: Field, tokenType: Field, expiresIn: Expiry)

  /** What the token endpoint call came to: a 2xx answer (with no body for
      an empty one), a refusal that `RestTemplate` raises as
      `HttpClientErrorException` (status, body as text, parsed body), or any
      other failure (5xx, I/O), which is not caught. */
  datatype Exchange =
    | Answered(body: Option<TokenBody>)
    | Refused(status: int, text: Option<string>, json: ErrorJson)
    | Broken

  /** `AuthResponse` */
  datatype AuthResponse = AuthResponse(accessToken: Option<string>, refreshToken: string, expiresIn: int,
                                       tokenType: Option<string>)

  /** A `TokenRefreshException` with its code and description, or some
      other runtime exception (a failed cast, an uncaught HTTP error). */
  datatype RefreshFailure = TokenRefreshError(error: string, description: Option<string>) | OtherFailure

  predicate Empty(s: Option<string>) {
    s.None? || |s.value| == 0
  }

  /** The answer to a successful call: the new refresh token or, when none
      came back, the old one; the token type defaults to "Bearer". */
  function Answer(b: TokenBody, oldToken: string): (r: Result<AuthResponse, RefreshFailure>)
    ensures r.Success? <==> !b.refreshToken.NotText? && !b.accessToken.NotText? && !b.tokenType.NotText?
    ensures r.Success? ==>
      && r.value.refreshToken == (if b.refreshToken.Str? && |b.refreshToken.s| > 0 then b.refreshToken.s else oldToken)
      && r.value.tokenType == ReadString(b.tokenType, Some("Bearer")).v
      && r.value.expiresIn == GetExpiresIn(b.expiresIn)
  {
    match ReadString(b.refreshToken, None)
    case CastFailure => Failure(OtherFailure)
    case Value(rotated) =>
      var token := if Empty(rotated) then oldToken else rotated.value;
      match ReadString(b.accessToken, None)
      case CastFailure => Failure(OtherFailure)
      case Value(access) =>
        match ReadString(b.tokenType, Some("Bearer"))
        case CastFailure => Failure(OtherFailure)
        case Value(kind) => Success(AuthResponse(access, token, GetExpiresIn(b.expiresIn), kind))
  }

  /** `refreshToken(refreshToken)` with the configured client id and the
      outcome of the call to the token endpoint. */
  function RefreshToken(token: Option<string>, clientId: Option<string>, exchange: Exchange)
    : (r: Result<AuthResponse, RefreshFailure>)
    ensures Empty(token) ==> r == Failure(TokenRefreshError(InvalidRequest, Some("Refresh token is required")))
    ensures !Empty(token) && Empty(clientId) ==> r == Failure(TokenRefreshError(ServerError, Some("Client ID is not configured")))
    ensures r.Success? ==> !Empty(token) && !Empty(clientId) && exchange.Answered? && exchange.body.Some?
    ensures r.Failure? && r.error.TokenRefreshError? ==> IsOAuthCode(r.error.error)
  {
    if Empty(token) then Failure(TokenRefreshError(InvalidRequest, Some("Refresh token is required")))
    else if Empty(clientId) then Failure(TokenRefreshError(ServerError, Some("Client ID is not configured")))
    else
      match exchange
      case Answered(body) =>
        if body.None? then Failure(TokenRefreshError(ServerError, Some("Empty response from Keycloak")))
        else Answer(body.value, token.value)
      case Refused(status, text, json) =>
        if 400 <= status < 500 then
          var c := MapStatus(status, ParseErrorBody(text, json, clientId.value));
          Failure(TokenRefreshError(c.error.value, c.description))
        else Failure(OtherFailure)
      case Broken => Failure(OtherFailure)
  }

  /** The input checks come before the call: with a missing token or client
      id the outcome does not depend on what the endpoint would answer. */
  lemma RejectedBeforeCall(token: Option<string>, clientId: Option<string>, x: Exchange, y: Exchange)
    requires Empty(token) || Empty(clientId)
    ensures RefreshToken(token, clientId, x) == RefreshToken(token, clientId, y)
    ensures RefreshToken(token, clientId, x).Failure?
  {
  }

  // ---------------------------------------------------------------------------
  // The controller's answer
  // ---------------------------------------------------------------------------

  /** The status `AuthController.refreshToken` answers a failure with. */
  function ControllerStatus(f: RefreshFailure): (s: int)
    ensures s in {400, 401, 500}
    ensures s == 401 <==> f.TokenRefreshError? && f.error == InvalidGrant
    ensures s == 400 <==> f.TokenRefreshError? && f.error == InvalidRequest
  {
    match f
    case TokenRefreshError(error, _) =>
      if error == InvalidGrant then 401 else if error == InvalidRequest then 400 else 500
    case OtherFailure => 500
  }

  /** The failure a refusal with this status and parsed body turns into. */
  function RefusalFailure(status: int, c: Classified): RefreshFailure {
    var m := MapStatus(status, c);
    TokenRefreshError(m.error.value, m.description)
  }

  /** A token that is not active is answered with 401, even when the
      identity server said 400. */
  lemma NotActiveIsUnauthorized(status: int, c: Classified)
    requires SaysNotActive(c.description)
    ensures ControllerStatus(RefusalFailure(status, c)) == 401
  {
  }

  /** A 401 is answered with 401 unless the parsed error is
      `invalid_request` (answered 400) or `invalid_client` (answered 500). */
  lemma UnauthorizedStaysUnauthorized(c: Classified)
    ensures c.error != Some(InvalidRequest) && c.error != Some(InvalidClient) ==>
      ControllerStatus(RefusalFailure(401, c)) == 401
    ensures c.error == Some(InvalidClient) && !SaysNotActive(c.description) ==>
      ControllerStatus(RefusalFailure(401, c)) == 500
  {
  }

  /** A 400 is answered with 400 unless the token is not active, or the
      parsed error is `invalid_grant` (401) or `invalid_client` (500); any
      other 4xx is a 500. */
  lemma BadRequestAnswers(status: int, c: Classified)
    requires 400 <= status < 500 && !SaysNotActive(c.description)
    ensures status == 400 ==>
      (ControllerStatus(RefusalFailure(status, c)) == 400 <==> c.error != Some(InvalidGrant) && c.error != Some(InvalidClient))
    ensures status != 400 && status != 401 ==> ControllerStatus(RefusalFailure(status, c)) == 500
  {
  }

  /** Examples: an expired token reported as a 400 JSON error is
      `invalid_grant`; an empty 401 body gets the expired-token description;
      a plain-text 400 naming a missing client session is `invalid_request`. */
  lemma RefreshExamples()
    ensures RefreshToken(Some("t"), Some("app"),
              Refused(400, Some("{...}"), ErrorObject(Str(InvalidGrant), Str("Token is not active"))))
            == Failure(TokenRefreshError(InvalidGrant, Some("Token is not active")))
    ensures RefreshToken(Some("t"), Some("app"), Refused(401, Some(""), NotAnObject))
            == Failure(TokenRefreshError(InvalidGrant, Some(ExpiredDescription)))
  {
    ExpiredJsonExample();
    EmptyBodyExample();
  }

  lemma ExpiredJsonExample()
    ensures RefreshToken(Some("t"), Some("app"),
              Refused(400, Some("{...}"), ErrorObject(Str(InvalidGrant), Str("Token is not active"))))
            == Failure(TokenRefreshError(InvalidGrant, Some("Token is not active")))
  {
    assert OccursAt(Lower("Token is not active"), NotActive, 0);
  }

  lemma EmptyBodyExample()
    ensures RefreshToken(Some("t"), Some("app"), Refused(401, Some(""), NotAnObject))
            == Failure(TokenRefreshError(InvalidGrant, Some(ExpiredDescription)))
  {
    DefaultNotInactive();
  }

  /** The default description does not mention an inactive token. */
  lemma DefaultNotInactive()
    ensures !Contains(Lower(DefaultDescription), NotActive)
  {
    assert Lower(DefaultDescription) == "token refresh failed";
    var d := "token refresh failed";
    forall i ensures !OccursAt(d, NotActive, i) {
      if i == 0 {
        assert d[i..i + |NotActive|][6] != NotActive[6];
      } else if i == 1 {
        assert d[1] == 'o' && NotActive[0] == 't';
        assert d[i..i + |NotActive|][0] == d[1];
      }
    }
  }
}
