/**
 * The fetcher behind `get(url, params, tokens=...)`: the credential pool is
 * one mutable list that lives as long as the process (the default argument
 * is evaluated once), so it is a field that persists between calls.
 */
module Fetchers {
  import opened Results
  import opened Requests
  import opened Rotation
  import opened Lru
  import TokenPool

  /** What `lru_cache` keys a call of `get_requests(url, **params)` on. */
  datatype CacheKey = CacheKey(url: string, params: map<string, string>)

  class Fetcher {
    /** The shared credential pool; a rate-limited token is removed from its front. */
    var tokens: seq<string>
    /** The `maxsize` given to `lru_cache`. */
    const maxsize: nat
    /** A memo that outlives single calls; only `Get` uses it. */
    const cache: LruCache<CacheKey, string>
    /** Every request sent so far, in order. */
    ghost var issued: seq<Request>

    ghost predicate Valid()
      reads this, cache
    {
      cache.Valid() && cache.capacity == maxsize
    }

    constructor (tokens: seq<string>, maxsize: nat)
      ensures Valid() && fresh(cache)
      ensures this.tokens == tokens && this.maxsize == maxsize
      ensures cache.entries == map[] && issued == []
    {
      this.tokens := tokens;
      this.maxsize := maxsize;
      cache := new LruCache(maxsize);
      issued := [];
    }

    /**
     * `get_requests`: try the front token while there is one; 429 pops it and
     * retries, 200 returns the text, 403 and any other status end the call.
     */
    method GetRequests(url: string, params: map<string, string>, respond: Responder)
      returns (r: Result<string, FetchError>)
      modifies this
      ensures var o := Rotate(old(tokens), url, params, respond);
        r == o.result && tokens == o.pool && issued == old(issued) + o.sent
    {
      ghost var final, before := Rotate(tokens, url, params, respond), issued;
      while |tokens| > 0
        invariant Pending(tokens, issued, before, final, url, params, respond)
        decreases |tokens|
      {
        var token := tokens[0];
        var headers := AuthHeaders(token);
        var result := GRequests(url, params, headers, respond);
        ghost var sent := issued;
        issued := issued + [Request(url, params, headers)];
        match result {
          case Ok(text) =>
            StopKeeps(tokens, sent, issued, before, final, url, params, respond);
            return Ok(text);
          case Err(OverusedToken) =>
            PopKeeps(tokens, sent, issued, before, final, url, params, respond);
            tokens := tokens[1..];
          case Err(InvalidToken) =>
            StopKeeps(tokens, sent, issued, before, final, url, params, respond);
            return Err(FetchError.InvalidToken(token));
          case Err(UnhandledStatus(code)) =>
            StopKeeps(tokens, sent, issued, before, final, url, params, respond);
            return Err(FetchError.UnhandledStatus(code));
        }
      }
      ExhaustedKeeps(tokens, issued, before, final, url, params, respond);
      return Err(NotEnoughTokens);
    }

    /**
     * `get_requests` wrapped by an LRU memo: a hit answers without touching the
     * pool or the network; a miss rotates and memoizes a success only.
     */
    method CachedCall(memo: LruCache<CacheKey, string>, url: string, params: map<string, string>,
                      respond: Responder) returns (r: Result<string, FetchError>)
      requires memo.Valid()
      modifies this, memo
      ensures memo.Valid()
      ensures var key := CacheKey(url, params);
        if key in old(memo.entries) then
          r == Ok(old(memo.entries)[key]) && tokens == old(tokens) && issued == old(issued) &&
          memo.entries == old(memo.entries) && memo.order == Without(old(memo.order), key) + [key]
        else
          var o := Rotate(old(tokens), url, params, respond);
          r == o.result && tokens == o.pool && issued == old(issued) + o.sent &&
          (r.Err? ==> memo.entries == old(memo.entries) && memo.order == old(memo.order)) &&
          (r.Ok? ==> memo.order == StoredOrder(old(memo.order), memo.capacity, key) &&
                     memo.entries == StoredEntries(old(memo.entries), old(memo.order), memo.capacity, key, r.value))
    {
      var key := CacheKey(url, params);
      var hit := memo.Lookup(key);
      if hit.Some? {
        return Ok(hit.value);
      }
      r := GetRequests(url, params, respond);
      if r.Ok? {
        memo.Store(key, r.value);
      }
    }

    /**
     * `get` as written: the `lru_cache` is created inside every call, so it is
     * always empty when looked up and the call is exactly the rotation loop.
     */
    method GetAsWritten(url: string, params: map<string, string>, respond: Responder)
      returns (r: Result<string, FetchError>)
      modifies this
      ensures var o := Rotate(old(tokens), url, params, respond);
        r == o.result && tokens == o.pool && issued == old(issued) + o.sent
    {
      var memo := new LruCache<CacheKey, string>(maxsize);
      r := CachedCall(memo, url, params, respond);
    }

    /**
     * `get` with the memo held by the fetcher, as its documentation promises:
     * a repeated successful request is answered from the cache.
     */
    method Get(url: string, params: map<string, string>, respond: Responder)
      returns (r: Result<string, FetchError>)
      requires Valid()
      modifies this, cache
      ensures Valid()
      ensures var key := CacheKey(url, params);
        if key in old(cache.entries) then
          r == Ok(old(cache.entries)[key]) && tokens == old(tokens) && issued == old(issued) &&
          cache.entries == old(cache.entries) && cache.order == Without(old(cache.order), key) + [key]
        else
          var o := Rotate(old(tokens), url, params, respond);
          r == o.result && tokens == o.pool && issued == old(issued) + o.sent &&
          (r.Err? ==> cache.entries == old(cache.entries) && cache.order == old(cache.order)) &&
          (r.Ok? ==> cache.order == StoredOrder(old(cache.order), maxsize, key) &&
                     cache.entries == StoredEntries(old(cache.entries), old(cache.order), maxsize, key, r.value))
    {
      r := CachedCall(cache, url, params, respond);
    }
  }

  /** The loop invariant of `GetRequests`: the calls still to come complete the outcome `final`. */
  ghost predicate Pending(tokens: seq<string>, sent: seq<Request>, before: seq<Request>, final: Outcome,
                          url: string, params: map<string, string>, respond: Responder)
  {
    var o := Rotate(tokens, url, params, respond);
    o.result == final.result && o.pool == final.pool && sent + o.sent == before + final.sent
  }

  /** A 429 turn of the loop: logging the request and popping the token keeps the invariant. */
  lemma PopKeeps(tokens: seq<string>, sent: seq<Request>, log: seq<Request>, before: seq<Request>, final: Outcome,
                 url: string, params: map<string, string>, respond: Responder)
    requires tokens != [] && Pending(tokens, sent, before, final, url, params, respond)
    requires GRequests(url, params, AuthHeaders(tokens[0]), respond) == Err(OverusedToken)
    requires log == sent + [RequestFor(url, params, tokens[0])]
    ensures Pending(tokens[1..], log, before, final, url, params, respond)
  {
    RotateDropsFront(tokens, url, params, respond);
    var req, rest := RequestFor(url, params, tokens[0]), Rotate(tokens[1..], url, params, respond).sent;
    assert sent + ([req] + rest) == (sent + [req]) + rest;
  }

  /** A turn that ends the loop: the request logged is the last one and its answer is the outcome. */
  lemma StopKeeps(tokens: seq<string>, sent: seq<Request>, log: seq<Request>, before: seq<Request>, final: Outcome,
                  url: string, params: map<string, string>, respond: Responder)
    requires tokens != [] && Pending(tokens, sent, before, final, url, params, respond)
    requires !GRequests(url, params, AuthHeaders(tokens[0]), respond).Err? ||
             !GRequests(url, params, AuthHeaders(tokens[0]), respond).error.OverusedToken?
    requires log == sent + [RequestFor(url, params, tokens[0])]
    ensures final.pool == tokens && log == before + final.sent
    ensures final.result == match GRequests(url, params, AuthHeaders(tokens[0]), respond)
      case Ok(text) => Ok(text)
      case Err(e) => Err(Surface(e, tokens[0]))
  {
    RotateStopsAtFront(tokens, url, params, respond);
  }

  /** The loop ran out of tokens: nothing more was sent and the outcome is NotEnoughTokens. */
  lemma ExhaustedKeeps(tokens: seq<string>, sent: seq<Request>, before: seq<Request>, final: Outcome,
                       url: string, params: map<string, string>, respond: Responder)
    requires |tokens| == 0 && Pending(tokens, sent, before, final, url, params, respond)
    ensures final.result == Err(NotEnoughTokens) && final.pool == [] && sent == before + final.sent
  {
    assert tokens == [];
    EmptyPoolSendsNothing(url, params, respond);
    assert sent + [] == sent;
  }

  /**
   * The pool as `get`'s default argument builds it at import time: the
   * RES_NINJA_TOKENS value (unset reads as "") split on the path separator,
   * copied and shuffled. The memo capacity is LRU_CACHE_MAXSIZE, 2048 when unset.
   */
  method NewFetcher(env: Option<string>, sep: char, draws: seq<nat>, maxsizeEnv: Option<nat>) returns (f: Fetcher)
    requires TokenPool.ValidDraws(draws, |TokenPool.PoolFromEnv(env, sep)|)
    ensures fresh(f) && f.Valid() && f.issued == [] && f.cache.entries == map[]
    ensures f.maxsize == maxsizeEnv.GetOr(DefaultMaxsize)
    ensures maxsizeEnv.None? ==> f.maxsize == 2048
    ensures multiset(f.tokens) == multiset(TokenPool.PoolFromEnv(env, sep))
    ensures env.None? ==> f.tokens == [""]
  {
    var parts := TokenPool.PoolFromEnv(env, sep);
    var a := new string[|parts|](i requires 0 <= i < |parts| => parts[i]);
    assert a[..] == parts;
    var b := TokenPool.Shuffle(a, draws);
    f := new Fetcher(b[..], maxsizeEnv.GetOr(DefaultMaxsize));
  }

  /**
   * Two identical calls of `get` as written: both go to the network, because
   * the first call's cache is gone when the second one starts.
   */
  method RepeatCallsAsWritten(f: Fetcher, url: string, params: map<string, string>, respond: Responder)
    returns (first: Result<string, FetchError>, second: Result<string, FetchError>)
    requires f.tokens != [] && StatusFor(url, params, respond, f.tokens[0]) == StatusOk
    modifies f
    ensures first == second == Ok(respond(RequestFor(url, params, old(f.tokens)[0])).text)
    ensures f.issued == old(f.issued) + [RequestFor(url, params, old(f.tokens)[0]), RequestFor(url, params, old(f.tokens)[0])]
  {
    ghost var req := RequestFor(url, params, f.tokens[0]);
    first := f.GetAsWritten(url, params, respond);
    assert f.issued == old(f.issued) + [req];
    second := f.GetAsWritten(url, params, respond);
  }

  /** The same two calls with the fetcher's own cache: the second one sends nothing. */
  method RepeatCallsCached(f: Fetcher, url: string, params: map<string, string>, respond: Responder)
    returns (first: Result<string, FetchError>, second: Result<string, FetchError>)
    requires f.Valid() && f.maxsize > 0 && CacheKey(url, params) !in f.cache.entries
    requires f.tokens != [] && StatusFor(url, params, respond, f.tokens[0]) == StatusOk
    modifies f, f.cache
    ensures first == second == Ok(respond(RequestFor(url, params, old(f.tokens)[0])).text)
    ensures f.issued == old(f.issued) + [RequestFor(url, params, old(f.tokens)[0])]
    ensures f.tokens == old(f.tokens)
  {
    first := f.Get(url, params, respond);
    second := f.Get(url, params, respond);
  }

  /**
   * Two distinct requests through the fetcher's memo, both answered 200: the
   * second is cached, and the first is still cached unless the capacity is 1,
   * when it is the least recently used key and is evicted.
   */
  method CacheTwoKeys(f: Fetcher, url1: string, url2: string, params: map<string, string>, respond: Responder)
    returns (first: Result<string, FetchError>, second: Result<string, FetchError>)
    requires f.Valid() && f.maxsize > 0 && f.cache.entries == map[] && url1 != url2
    requires f.tokens != []
    requires StatusFor(url1, params, respond, f.tokens[0]) == StatusOk
    requires StatusFor(url2, params, respond, f.tokens[0]) == StatusOk
    modifies f, f.cache
    ensures first.Ok? && second.Ok?
    ensures CacheKey(url2, params) in f.cache.entries
    ensures CacheKey(url1, params) in f.cache.entries <==> f.maxsize >= 2
    ensures f.tokens == old(f.tokens) && |f.issued| == |old(f.issued)| + 2
  {
    first := f.Get(url1, params, respond);
    second := f.Get(url2, params, respond);
  }
}
