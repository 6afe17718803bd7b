/**
 * The two axios interceptors of the shared API client (services/authService.ts):
 * the request interceptor that attaches the stored token as a Bearer header, and
 * the response interceptor that shows the server's error message and decides
 * whether confirming the alert sends the user back to the login screen.
 */
module AuthInterceptor {
  import opened Options

  // ---------------------------------------------------------------------------
  // Substring search: JavaScript's `String.prototype.includes`
  // ---------------------------------------------------------------------------

  /** `sub` occurs in `s` starting at offset `i`. */
  ghost predicate OccursAt(s: string, sub: string, i: int)
  {
    0 <= i && i + |sub| <= |s| && s[i..i + |sub|] == sub
  }

  lemma OccursInTail(s: string, sub: string)
    requires |s| > 0 && !OccursAt(s, sub, 0)
    ensures (exists i :: OccursAt(s, sub, i)) <==> (exists i :: OccursAt(s[1..], sub, i))
  {
    forall i | OccursAt(s, sub, i)
      ensures OccursAt(s[1..], sub, i - 1)
    {
      assert s[1..][i - 1..i - 1 + |sub|] == s[i..i + |sub|];
    }
    forall i | OccursAt(s[1..], sub, i)
      ensures OccursAt(s, sub, i + 1)
    {
      assert s[1..][i..i + |sub|] == s[i + 1..i + 1 + |sub|];
    }
  }

  /** `s.includes(sub)`: true exactly when `sub` occurs somewhere in `s`. */
  function Includes(s: string, sub: string): (r: bool)
    ensures r <==> exists i :: OccursAt(s, sub, i)
    decreases |s|
  {
    if |sub| > |s| then false
    else if s[..|sub|] == sub then (assert OccursAt(s, sub, 0); true)
    else (OccursInTail(s, sub); Includes(s[1..], sub))
  }

  /** `patterns.some(p => s.includes(p))`. */
  function IncludesAny(s: string, patterns: seq<string>): (r: bool)
    ensures r <==> exists k :: 0 <= k < |patterns| && Includes(s, patterns[k])
  {
    if patterns == [] then false
    else Includes(s, patterns[0]) || IncludesAny(s, patterns[1..])
  }

  /** Every character of an included string is a character of the enclosing one. */
  lemma IncludedCharsOccur(s: string, sub: string, j: int)
    requires Includes(s, sub) && 0 <= j < |sub|
    ensures sub[j] in s
  {
    var i :| OccursAt(s, sub, i);
    assert s[i + j] == s[i..i + |sub|][j];
  }

  /** A string with a character that `s` lacks is not included in `s`. */
  lemma NotIncludedIfCharMissing(s: string, sub: string, j: int)
    requires 0 <= j < |sub| && sub[j] !in s
    ensures !Includes(s, sub)
  {
    if Includes(s, sub) {
      IncludedCharsOccur(s, sub, j);
    }
  }

  // ---------------------------------------------------------------------------
  // Request interceptor
  // ---------------------------------------------------------------------------

  const AuthorizationHeader: string := "Authorization"
  const BearerPrefix: string := "Bearer "

  /** `token && ...`: a token read from storage is usable when present and non-empty. */
  predicate HasToken(token: Option<string>)
  {
    token.Some? && token.value != ""
  }

  /**
   * The headers after the request interceptor has run: with a token and a headers
   * object, `Authorization` is set to `Bearer <token>`; otherwise nothing changes.
   */
  function WithBearer(headers: Option<map<string, string>>, token: Option<string>): (h: Option<map<string, string>>)
    ensures HasToken(token) && headers.Some? ==>
      && h.Some?
      && h.value.Keys == headers.value.Keys + {AuthorizationHeader}
      && h.value[AuthorizationHeader] == BearerPrefix + token.value
      && (forall k :: k in headers.value && k != AuthorizationHeader ==> h.value[k] == headers.value[k])
    ensures !(HasToken(token) && headers.Some?) ==> h == headers
  {
    if HasToken(token) && headers.Some? then
      Some(headers.value[AuthorizationHeader := BearerPrefix + token.value])
    else
      headers
  }

  /** Running the interceptor twice with the same token is the same as running it once. */
  lemma WithBearerIdempotent(headers: Option<map<string, string>>, token: Option<string>)
    ensures WithBearer(WithBearer(headers, token), token) == WithBearer(headers, token)
  {
    if HasToken(token) && headers.Some? {
      var once := WithBearer(headers, token).value;
      assert once[AuthorizationHeader := BearerPrefix + token.value] == once;
    }
  }

  /** The mutable request configuration the interceptor receives and returns. */
  class RequestConfig {
    var headers: Option<map<string, string>>

    constructor (headers: Option<map<string, string>>)
      ensures this.headers == headers
    {
      this.headers := headers;
    }
  }

  /**
   * The request interceptor: `token` is what storage returned for the token key.
   * It writes the header into the config it was given and hands that same config on.
   */
  method AttachToken(config: RequestConfig, token: Option<string>) returns (out: RequestConfig)
    modifies config
    ensures out == config
    ensures config.headers == WithBearer(old(config.headers), token)
  {
    if HasToken(token) && config.headers.Some? {
      config.headers := Some(config.headers.value[AuthorizationHeader := BearerPrefix + token.value]);
    }
    out := config;
  }

  // ---------------------------------------------------------------------------
  // Response interceptor
  // ---------------------------------------------------------------------------

  const DefaultMessage: string := "Đã có lỗi xảy ra"
  const Unauthorized: int := 401
  const LoginRoute: string := "/login"

  /** Messages from a wrong current password: they never log the user out. */
  const PasswordErrors: seq<string> := [
    "Mật khẩu hiện tại không đúng",
    "Mật khẩu hiện tại sai",
    "Sai mật khẩu",
    "Current password is incorrect",
    "Incorrect current password"
  ]

  /** Messages of an expired or missing token: they send the user to the login screen. */
  const LogoutKeywords: seq<string> := [
    "Token hết hạn",
    "jwt expired",
    "Không tìm thấy token",
    "Unauthorized"
  ]

  /** The JSON body of a failed response; only its `error` field is read. */
  datatype ResponseBody = ResponseBody(error: Option<string>)

  /** The HTTP response attached to a failure: its status and its body, if any. */
  datatype ErrorResponse = ErrorResponse(status: int, data: Option<ResponseBody>)

  /** A failed request: a network failure carries no response at all. */
  datatype RequestFailure = RequestFailure(response: Option<ErrorResponse>)

  /** What confirming the alert asks the router for: nothing, or replacing the screen with `route`. */
  datatype OkAction = NoAction | Redirect(route: string)

  /** Everything the response interceptor does with a failure. */
  datatype Handled = Handled(alertMessage: string, onOk: OkAction, rejection: Option<ResponseBody>)

  /** `error.response?.data?.error`, absent at the first missing link. */
  function ServerMessage(f: RequestFailure): Option<string>
  {
    if f.response.Some? && f.response.value.data.Some? then f.response.value.data.value.error else None
  }

  /** `error.response?.status`. */
  function Status(f: RequestFailure): Option<int>
  {
    if f.response.Some? then Some(f.response.value.status) else None
  }

  /** `error.response?.data`: the value the failure is rejected with. */
  function ResponseData(f: RequestFailure): Option<ResponseBody>
  {
    if f.response.Some? then f.response.value.data else None
  }

  /**
   * `serverMessage || 'Đã có lỗi xảy ra'`: the server's message when it is present
   * and non-empty (the empty string is falsy), the fixed default otherwise.
   */
  function ErrorMessage(f: RequestFailure): (m: string)
    ensures m != ""
    ensures ServerMessage(f).Some? && ServerMessage(f).value != "" ==> m == ServerMessage(f).value
    ensures ServerMessage(f).None? || ServerMessage(f).value == "" ==> m == DefaultMessage
  {
    var msg := ServerMessage(f);
    if msg.Some? && msg.value != "" then msg.value else DefaultMessage
  }

  /**
   * The OK handler of the alert: it only ever redirects to the login route, and it
   * does so exactly for a 401 whose message names a token problem and no password problem.
   */
  function Classify(status: Option<int>, message: string): (a: OkAction)
    ensures a.NoAction? || a == Redirect(LoginRoute)
    ensures a.Redirect? <==>
      && status == Some(Unauthorized)
      && (forall j :: 0 <= j < |PasswordErrors| ==> !Includes(message, PasswordErrors[j]))
      && (exists k :: 0 <= k < |LogoutKeywords| && Includes(message, LogoutKeywords[k]))
  {
    if status == Some(Unauthorized) then
      if IncludesAny(message, PasswordErrors) then NoAction
      else if IncludesAny(message, LogoutKeywords) then Redirect(LoginRoute)
      else NoAction
    else
      NoAction
  }

  /** The response interceptor's error branch. */
  function HandleError(f: RequestFailure): (h: Handled)
    ensures h.alertMessage == ErrorMessage(f)
    ensures h.rejection == ResponseData(f)
  {
    var message := ErrorMessage(f);
    Handled(message, Classify(Status(f), message), ResponseData(f))
  }

  /** The redirect happens exactly for a 401 whose message names a token problem and no password problem. */
  lemma RedirectIff(f: RequestFailure)
    ensures HandleError(f).onOk == Redirect(LoginRoute) <==>
      && Status(f) == Some(Unauthorized)
      && (forall j :: 0 <= j < |PasswordErrors| ==> !Includes(ErrorMessage(f), PasswordErrors[j]))
      && (exists k :: 0 <= k < |LogoutKeywords| && Includes(ErrorMessage(f), LogoutKeywords[k]))
  {
  }

  /** A status other than 401 (or no response at all) never logs out, whatever the message. */
  lemma NonUnauthorizedNeverRedirects(f: RequestFailure)
    requires Status(f) != Some(Unauthorized)
    ensures HandleError(f).onOk == NoAction
  {
  }

  /** A password error wins over any logout keyword in the same message. */
  lemma PasswordErrorTakesPrecedence(f: RequestFailure, j: int)
    requires 0 <= j < |PasswordErrors| && Includes(ErrorMessage(f), PasswordErrors[j])
    ensures HandleError(f).onOk == NoAction
  {
  }

  /** A 401 naming a token problem, and no password problem, redirects to the login screen. */
  lemma LogoutKeywordRedirects(f: RequestFailure, k: int)
    requires Status(f) == Some(Unauthorized)
    requires 0 <= k < |LogoutKeywords| && Includes(ErrorMessage(f), LogoutKeywords[k])
    requires forall j :: 0 <= j < |PasswordErrors| ==> !Includes(ErrorMessage(f), PasswordErrors[j])
    ensures HandleError(f).onOk == Redirect(LoginRoute)
  {
  }

  /** A 401 whose message matches neither list does nothing. */
  lemma UnmatchedMessageStays(f: RequestFailure)
    requires forall k :: 0 <= k < |LogoutKeywords| ==> !Includes(ErrorMessage(f), LogoutKeywords[k])
    ensures HandleError(f).onOk == NoAction
  {
  }

  /** Each logout keyword and password error has a character the default message lacks. */
  lemma DefaultMatchesNothing()
    ensures forall k :: 0 <= k < |LogoutKeywords| ==> !Includes(DefaultMessage, LogoutKeywords[k])
    ensures forall j :: 0 <= j < |PasswordErrors| ==> !Includes(DefaultMessage, PasswordErrors[j])
  {
    forall k | 0 <= k < |LogoutKeywords|
      ensures !Includes(DefaultMessage, LogoutKeywords[k])
    {
      NotIncludedIfCharMissing(DefaultMessage, LogoutKeywords[k], 0);
    }
    forall j | 0 <= j < |PasswordErrors|
      ensures !Includes(DefaultMessage, PasswordErrors[j])
    {
      NotIncludedIfCharMissing(DefaultMessage, PasswordErrors[j], 0);
    }
  }

  /**
   * Without a usable server message the alert shows the default text, and a 401
   * then never logs out: the default message names no token problem.
   */
  lemma MissingMessageNeverRedirects(f: RequestFailure)
    requires ServerMessage(f).None? || ServerMessage(f).value == ""
    ensures HandleError(f).alertMessage == DefaultMessage
    ensures HandleError(f).onOk == NoAction
  {
    DefaultMatchesNothing();
    UnmatchedMessageStays(f);
  }

  function Failure401(message: string): RequestFailure
  {
    RequestFailure(Some(ErrorResponse(Unauthorized, Some(ResponseBody(Some(message))))))
  }

  /** An expired JWT on a 401 sends the user to the login screen. */
  lemma ExpiredJwtRedirects()
    ensures HandleError(Failure401("jwt expired")).onOk == Redirect(LoginRoute)
  {
    var m := "jwt expired";
    forall j | 0 <= j < |PasswordErrors|
      ensures !Includes(m, PasswordErrors[j])
    {
      NotIncludedIfCharMissing(m, PasswordErrors[j], 0);
    }
    assert Includes(m, LogoutKeywords[1]);
    LogoutKeywordRedirects(Failure401(m), 1);
  }

  /** "Unauthorized" next to a wrong-password message on a 401 still keeps the user logged in. */
  lemma WrongPasswordBeatsUnauthorized()
    ensures HandleError(Failure401("Unauthorized: Sai mật khẩu")).onOk == NoAction
  {
    var m := "Unauthorized: Sai mật khẩu";
    assert m[14..14 + |PasswordErrors[2]|] == PasswordErrors[2];
    assert OccursAt(m, PasswordErrors[2], 14);
    PasswordErrorTakesPrecedence(Failure401(m), 2);
  }
}
