/**
 * The token-rotation loop of `get_requests`, as a function of the pool and
 * of the responder: always try the front token, drop it on 429, stop on
 * anything else, and fail with NotEnoughTokens once the pool is empty.
 */
module Rotation {
  import opened Results
  import opened Requests
  import TokenPool

  /**
   * What `get` raises. OverusedToken has no case: it is always handled by
   * rotating, so it never reaches the caller.
   */
  datatype FetchError = NotEnoughTokens | InvalidToken(token: string) | UnhandledStatus(code: int)

  /** The result of one `get`, the pool it leaves behind and the requests it sent. */
  datatype Outcome = Outcome(result: Result<string, FetchError>, pool: seq<string>, sent: seq<Request>)

  /** The request sent with credential `token`. */
  function RequestFor(url: string, params: map<string, string>, token: string): Request {
    Request(url, params, AuthHeaders(token))
  }

  /** The status the responder gives to credential `token`. */
  function StatusFor(url: string, params: map<string, string>, respond: Responder, token: string): int {
    respond(RequestFor(url, params, token)).status
  }

  /** How a non-429 failure of `g_requests` surfaces from `get`; 403 names the token. */
  function Surface(e: RequestError, token: string): FetchError
    requires !e.OverusedToken?
  {
    match e
    case InvalidToken => FetchError.InvalidToken(token)
    case UnhandledStatus(code) => FetchError.UnhandledStatus(code)
  }

  /**
   * The loop of `get_requests` over `pool`: the pool left is a suffix of the
   * one given, and it is empty exactly when NotEnoughTokens is raised.
   * `RotateSentCount`, `RotateSentTokens`, `RotateDropsOnly429` and
   * `RotateSettles` say which requests go out and what decides the result.
   */
  function Rotate(pool: seq<string>, url: string, params: map<string, string>, respond: Responder): (o: Outcome)
    ensures |o.pool| <= |pool| && o.pool == pool[|pool| - |o.pool|..]
    ensures o.result == Err(NotEnoughTokens) <==> o.pool == []
    decreases |pool|
  {
    if pool == [] then Outcome(Err(NotEnoughTokens), [], [])
    else
      var token := pool[0];
      var req := RequestFor(url, params, token);
      match GRequests(url, params, AuthHeaders(token), respond)
      case Ok(text) => Outcome(Ok(text), pool, [req])
      case Err(OverusedToken) =>
        var next := Rotate(pool[1..], url, params, respond);
        Outcome(next.result, next.pool, [req] + next.sent)
      case Err(e) => Outcome(Err(Surface(e, token)), pool, [req])
  }

  /** How the first answer other than 429 decides the result of `get`. */
  function Settle(resp: Response, token: string): Result<string, FetchError>
    requires resp.status != StatusTooManyRequests
  {
    match Classify(resp)
    case Ok(text) => Ok(text)
    case Err(e) => Err(Surface(e, token))
  }

  /** A 429 on the front token: it is dropped and the call goes on with the rest. */
  lemma RotateDropsFront(pool: seq<string>, url: string, params: map<string, string>, respond: Responder)
    requires pool != [] && StatusFor(url, params, respond, pool[0]) == StatusTooManyRequests
    ensures var next := Rotate(pool[1..], url, params, respond);
      Rotate(pool, url, params, respond) ==
        Outcome(next.result, next.pool, [RequestFor(url, params, pool[0])] + next.sent)
  {
    assert GRequests(url, params, AuthHeaders(pool[0]), respond) == Err(OverusedToken);
  }

  /** Any other answer on the front token ends the call with that token still in front. */
  lemma RotateStopsAtFront(pool: seq<string>, url: string, params: map<string, string>, respond: Responder)
    requires pool != [] && StatusFor(url, params, respond, pool[0]) != StatusTooManyRequests
    ensures Rotate(pool, url, params, respond) ==
      Outcome(Settle(respond(RequestFor(url, params, pool[0])), pool[0]), pool, [RequestFor(url, params, pool[0])])
  {
  }

  /** One request per dropped token, plus one for the token that ended the call, if any. */
  lemma {:induction false} RotateSentCount(pool: seq<string>, url: string, params: map<string, string>, respond: Responder)
    ensures var o := Rotate(pool, url, params, respond);
      |o.sent| == if o.pool == [] then |pool| else |pool| - |o.pool| + 1
    decreases |pool|
  {
    if pool != [] {
      if StatusFor(url, params, respond, pool[0]) == StatusTooManyRequests {
        RotateDropsFront(pool, url, params, respond);
        RotateSentCount(pool[1..], url, params, respond);
      } else {
        RotateStopsAtFront(pool, url, params, respond);
      }
    }
  }

  /** Request i goes out with the i-th token of the pool: always the front one of what is left. */
  lemma {:induction false} RotateSentTokens(pool: seq<string>, url: string, params: map<string, string>, respond: Responder)
    ensures var o := Rotate(pool, url, params, respond);
      forall i :: 0 <= i < |o.sent| ==> i < |pool| && o.sent[i] == RequestFor(url, params, pool[i])
    decreases |pool|
  {
    if pool != [] {
      if StatusFor(url, params, respond, pool[0]) == StatusTooManyRequests {
        RotateDropsFront(pool, url, params, respond);
        RotateSentTokens(pool[1..], url, params, respond);
        var o, next := Rotate(pool, url, params, respond), Rotate(pool[1..], url, params, respond);
        forall i | 0 <= i < |o.sent| ensures i < |pool| && o.sent[i] == RequestFor(url, params, pool[i]) {
          if i > 0 {
            assert o.sent[i] == next.sent[i - 1];
            assert pool[1..][i - 1] == pool[i];
          }
        }
      } else {
        RotateStopsAtFront(pool, url, params, respond);
      }
    }
  }

  /** Every token the call removed from the pool was answered with 429. */
  lemma {:induction false} RotateDropsOnly429(pool: seq<string>, url: string, params: map<string, string>, respond: Responder)
    ensures var o := Rotate(pool, url, params, respond);
      forall i :: 0 <= i < |pool| - |o.pool| ==> StatusFor(url, params, respond, pool[i]) == StatusTooManyRequests
    decreases |pool|
  {
    if pool != [] {
      if StatusFor(url, params, respond, pool[0]) == StatusTooManyRequests {
        RotateDropsFront(pool, url, params, respond);
        RotateDropsOnly429(pool[1..], url, params, respond);
        var o := Rotate(pool, url, params, respond);
        forall i | 0 <= i < |pool| - |o.pool|
          ensures StatusFor(url, params, respond, pool[i]) == StatusTooManyRequests
        {
          if i > 0 { assert pool[i] == pool[1..][i - 1]; }
        }
      } else {
        RotateStopsAtFront(pool, url, params, respond);
      }
    }
  }

  /** When tokens are left, the front one got an answer other than 429, and that answer is the result. */
  lemma {:induction false} RotateSettles(pool: seq<string>, url: string, params: map<string, string>, respond: Responder)
    ensures var o := Rotate(pool, url, params, respond);
      o.pool != [] ==>
        StatusFor(url, params, respond, o.pool[0]) != StatusTooManyRequests &&
        o.result == Settle(respond(RequestFor(url, params, o.pool[0])), o.pool[0])
    decreases |pool|
  {
    if pool != [] {
      if StatusFor(url, params, respond, pool[0]) == StatusTooManyRequests {
        RotateDropsFront(pool, url, params, respond);
        RotateSettles(pool[1..], url, params, respond);
      } else {
        RotateStopsAtFront(pool, url, params, respond);
      }
    }
  }

  /** With an empty pool nothing is sent and NotEnoughTokens is raised. */
  lemma EmptyPoolSendsNothing(url: string, params: map<string, string>, respond: Responder)
    ensures Rotate([], url, params, respond) == Outcome(Err(NotEnoughTokens), [], [])
  {
  }

  /**
   * If the first k tokens get 429 and token k gets anything else, the first k
   * are dropped, k + 1 requests go out, and token k's answer decides.
   */
  lemma StopsAtFirstNon429(pool: seq<string>, url: string, params: map<string, string>,
                            respond: Responder, k: nat)
    requires k < |pool|
    requires forall i :: 0 <= i < k ==> StatusFor(url, params, respond, pool[i]) == StatusTooManyRequests
    requires StatusFor(url, params, respond, pool[k]) != StatusTooManyRequests
    ensures Rotate(pool, url, params, respond).pool == pool[k..]
    ensures |Rotate(pool, url, params, respond).sent| == k + 1
    ensures Rotate(pool, url, params, respond).sent == RotateSent(pool[..k + 1], url, params)
    ensures Rotate(pool, url, params, respond).result == Settle(respond(RequestFor(url, params, pool[k])), pool[k])
  {
    RotateDropsOnly429(pool, url, params, respond);
    RotateSettles(pool, url, params, respond);
    RotateSentCount(pool, url, params, respond);
    RotateSentTokens(pool, url, params, respond);
    var o := Rotate(pool, url, params, respond);
    var dropped := |pool| - |o.pool|;
    if dropped > k {
      assert false;
    }
    if dropped < k {
      assert false;
    }
    assert o.sent == RotateSent(pool[..k + 1], url, params);
  }

  /** The requests sent, in order, with the credentials of `tokens`. */
  function RotateSent(tokens: seq<string>, url: string, params: map<string, string>): (sent: seq<Request>)
    ensures |sent| == |tokens|
    ensures forall i :: 0 <= i < |tokens| ==> sent[i] == RequestFor(url, params, tokens[i])
  {
    if tokens == [] then [] else [RequestFor(url, params, tokens[0])] + RotateSent(tokens[1..], url, params)
  }

  /** First k tokens get 429, token k gets 200: its body is returned and the pool loses exactly k tokens. */
  lemma SucceedsAfterK(pool: seq<string>, url: string, params: map<string, string>, respond: Responder, k: nat)
    requires k < |pool|
    requires forall i :: 0 <= i < k ==> StatusFor(url, params, respond, pool[i]) == StatusTooManyRequests
    requires StatusFor(url, params, respond, pool[k]) == StatusOk
    ensures Rotate(pool, url, params, respond).result == Ok(respond(RequestFor(url, params, pool[k])).text)
    ensures Rotate(pool, url, params, respond).pool == pool[k..]
    ensures |Rotate(pool, url, params, respond).sent| == k + 1
  {
    StopsAtFirstNon429(pool, url, params, respond, k);
  }

  /** First k tokens get 429, token k gets 403: InvalidToken names token k, which stays in the pool. */
  lemma InvalidAfterK(pool: seq<string>, url: string, params: map<string, string>, respond: Responder, k: nat)
    requires k < |pool|
    requires forall i :: 0 <= i < k ==> StatusFor(url, params, respond, pool[i]) == StatusTooManyRequests
    requires StatusFor(url, params, respond, pool[k]) == StatusForbidden
    ensures Rotate(pool, url, params, respond).result == Err(FetchError.InvalidToken(pool[k]))
    ensures Rotate(pool, url, params, respond).pool == pool[k..]
    ensures |Rotate(pool, url, params, respond).sent| == k + 1
  {
    StopsAtFirstNon429(pool, url, params, respond, k);
  }

  /** 403 on the front token: InvalidToken at once, one request, pool unchanged. */
  lemma InvalidFrontToken(pool: seq<string>, url: string, params: map<string, string>, respond: Responder)
    requires pool != [] && StatusFor(url, params, respond, pool[0]) == StatusForbidden
    ensures Rotate(pool, url, params, respond) ==
      Outcome(Err(FetchError.InvalidToken(pool[0])), pool, [RequestFor(url, params, pool[0])])
  {
  }

  /** Any other status on the front token propagates as UnhandledStatus with that code, pool unchanged. */
  lemma UnhandledFrontToken(pool: seq<string>, url: string, params: map<string, string>, respond: Responder)
    requires pool != []
    requires StatusFor(url, params, respond, pool[0]) !in {StatusOk, StatusTooManyRequests, StatusForbidden}
    ensures Rotate(pool, url, params, respond) ==
      Outcome(Err(FetchError.UnhandledStatus(StatusFor(url, params, respond, pool[0]))), pool, [RequestFor(url, params, pool[0])])
  {
  }

  /** Every token gets 429: the pool is emptied, one request per token, then NotEnoughTokens. */
  lemma {:induction false} AllOverused(pool: seq<string>, url: string, params: map<string, string>, respond: Responder)
    requires forall i :: 0 <= i < |pool| ==> StatusFor(url, params, respond, pool[i]) == StatusTooManyRequests
    ensures Rotate(pool, url, params, respond) == Outcome(Err(NotEnoughTokens), [], RotateSent(pool, url, params))
    decreases |pool|
  {
    if pool != [] {
      AllOverused(pool[1..], url, params, respond);
    }
  }

  /** Three tokens, the first two rate-limited, the third answered 200: only the third is left, after three requests. */
  lemma ThreeTokensScenario(pool: seq<string>, url: string, params: map<string, string>, respond: Responder)
    requires |pool| == 3
    requires StatusFor(url, params, respond, pool[0]) == StatusTooManyRequests
    requires StatusFor(url, params, respond, pool[1]) == StatusTooManyRequests
    requires StatusFor(url, params, respond, pool[2]) == StatusOk
    ensures Rotate(pool, url, params, respond).result == Ok(respond(RequestFor(url, params, pool[2])).text)
    ensures Rotate(pool, url, params, respond).pool == [pool[2]]
    ensures |Rotate(pool, url, params, respond).sent| == 3
  {
    SucceedsAfterK(pool, url, params, respond, 2);
  }

  /** Rotation only ever removes from the front, so a pool that ran out stays empty for every later call. */
  lemma ExhaustionIsPermanent(pool: seq<string>, url: string, params: map<string, string>, respond: Responder,
                              url2: string, params2: map<string, string>, respond2: Responder)
    requires Rotate(pool, url, params, respond).result == Err(NotEnoughTokens)
    ensures Rotate(Rotate(pool, url, params, respond).pool, url2, params2, respond2) ==
      Outcome(Err(NotEnoughTokens), [], [])
  {
  }

  /**
   * An unset RES_NINJA_TOKENS is one empty token, not an empty pool: exactly
   * one request goes out, with the header "Token ", before any failure.
   */
  lemma EmptyTokenIsTried(sep: char, url: string, params: map<string, string>, respond: Responder)
    ensures var o := Rotate(TokenPool.PoolFromEnv(None, sep), url, params, respond);
      |o.sent| == 1 && o.sent[0] == Request(url, params, map["Authorization" := "Token "])
  {
    var pool := TokenPool.PoolFromEnv(None, sep);
    RotateSentCount(pool, url, params, respond);
    RotateSentTokens(pool, url, params, respond);
    assert AuthScheme + pool[0] == "Token ";
  }
}
