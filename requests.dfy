/**
 * `g_requests`: one GET with one credential, classified by status code.
 * The transport is a responder function from request to response.
 */
module Requests {
  import opened Results

  datatype Request = Request(url: string, params: map<string, string>, headers: map<string, string>)

  datatype Response = Response(status: int, text: string)

  /** What the remote service answers; nothing else is assumed about it. */
  type Responder = Request -> Response

  /** The exceptions `g_requests` raises: OverusedToken, InvalidToken, ValueError(code). */
  datatype RequestError = OverusedToken | InvalidToken | UnhandledStatus(code: int)

  const StatusOk: int := 200
  const StatusForbidden: int := 403
  const StatusTooManyRequests: int := 429

  const AuthScheme: string := "Token "

  /** The credential carried by an Authorization header of the form `AuthScheme + token`. */
  function TokenOf(headers: map<string, string>): string {
    if "Authorization" in headers && |headers["Authorization"]| >= |AuthScheme|
    then headers["Authorization"][|AuthScheme|..]
    else ""
  }

  /**
   * The headers `get_requests` sends: one Authorization header whose value is
   * "Token " followed by the token, which can be read back from it.
   */
  function AuthHeaders(token: string): (h: map<string, string>)
    ensures "Authorization" in h && |h| == 1
    ensures |h["Authorization"]| >= |AuthScheme| && h["Authorization"][..|AuthScheme|] == AuthScheme
    ensures TokenOf(h) == token
  {
    var value := AuthScheme + token;
    assert value[|AuthScheme|..] == token;
    assert value[..|AuthScheme|] == AuthScheme;
    map["Authorization" := value]
  }

  /** Distinct tokens give distinct headers, so every request names the token it used. */
  lemma AuthHeadersInjective(t1: string, t2: string)
    ensures AuthHeaders(t1) == AuthHeaders(t2) <==> t1 == t2
  {
    if AuthHeaders(t1) == AuthHeaders(t2) {
      assert TokenOf(AuthHeaders(t1)) == TokenOf(AuthHeaders(t2));
    }
  }

  /** The status mapping of `g_requests`. */
  function Classify(resp: Response): (r: Result<string, RequestError>)
    ensures r.Ok? <==> resp.status == StatusOk
    ensures r.Ok? ==> r.value == resp.text
    ensures r == Err(OverusedToken) <==> resp.status == StatusTooManyRequests
    ensures r == Err(InvalidToken) <==> resp.status == StatusForbidden
    ensures r.Err? && r.error.UnhandledStatus? <==> resp.status !in {StatusOk, StatusTooManyRequests, StatusForbidden}
    ensures r.Err? && r.error.UnhandledStatus? ==> r.error.code == resp.status
  {
    if resp.status == StatusOk then Ok(resp.text)
    else if resp.status == StatusTooManyRequests then Err(OverusedToken)
    else if resp.status == StatusForbidden then Err(InvalidToken)
    else Err(UnhandledStatus(resp.status))
  }

  /** The status code each failure stands for. */
  function ErrorStatus(e: RequestError): int {
    match e
    case OverusedToken => StatusTooManyRequests
    case InvalidToken => StatusForbidden
    case UnhandledStatus(code) => code
  }

  /** A failure determines the status code it came from: the mapping loses nothing. */
  lemma ClassifyRecoversStatus(resp: Response)
    ensures Classify(resp).Err? ==> ErrorStatus(Classify(resp).error) == resp.status
    ensures Classify(resp).Ok? ==> resp == Response(StatusOk, Classify(resp).value)
  {
  }

  /** `g_requests(url, params, headers)`: perform the GET and classify the answer. */
  function GRequests(url: string, params: map<string, string>, headers: map<string, string>,
                     respond: Responder): (r: Result<string, RequestError>)
    ensures var resp := respond(Request(url, params, headers));
      (r.Ok? <==> resp.status == StatusOk) && (r.Ok? ==> r.value == resp.text)
  {
    Classify(respond(Request(url, params, headers)))
  }
}
