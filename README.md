# reslib cached requests: a Dafny model

This project models the request layer of `reslib` (`reslib/cached_requests.py`).
That layer fetches hourly production profiles from the renewables.ninja API
and has four parts:

- **`round_coords`** snaps coordinates onto a 0.5-degree grid, so that nearby plants build identical request parameters.
- **`shuffle`** returns a shuffled copy of the token list.
- **`g_requests`** performs one GET with one API token and maps the HTTP status to a result or an exception:
  - 200 gives the text;
  - 429 raises `OverusedToken`;
  - 403 raises `InvalidToken`;
  - any other status raises `ValueError` with the code.
- **`get`** sends every request through a pool of tokens, always trying the front one:
  - on 429 it removes that token and retries with the next;
  - on 403 it aborts;
  - once the pool is empty it raises `NotEnoughTokens`.

The pool is `get`'s default argument. It is built once, at import time, so it is one list shared by every call for the life of the process.

Modules:

- `Results` (results.dfy): `Option` and `Result`. A raised exception is modelled as an `Err` value.
- `Coords` (coords.dfy): `round_coords` on integer tenths of a degree. The resolution is also in tenths, so 0.5 degree is 5. Python's `//` is modelled as floor division for both signs of the divisor, so -0.3 snaps to -0.5.
- `TokenPool` (pool.dfy):
  - `str.split` with an explicit separator, as applied to `RES_NINJA_TOKENS`;
  - `shuffle` as an array copy followed by the Fisher-Yates passes of `random.shuffle`, driven by a sequence of draws (`draws[i]` is what `randbelow(i + 1)` returned).
- `Requests` (requests.dfy):
  - the request and response values;
  - the `Authorization: Token <token>` header;
  - the status mapping of `g_requests`.
  - The network is a `Responder`, a function from request to response. It is passed to each call.
- `Rotation` (rotation.dfy): `Rotate` is the rotation loop as a pure function of the pool and the responder. It returns the result, the pool left behind and the requests sent. Lemmas state what the loop promises.
- `Lru` (lru.dfy): a bounded least-recently-used memo with the behaviour of `functools.lru_cache(maxsize)`. The default capacity is 2048.
- `Fetchers` (fetcher.dfy): class `Fetcher`.
  - Its `tokens` field is the shared pool, and it persists between calls.
  - A ghost field `issued` logs every request sent.
  - `GetRequests` is the `while` loop, proved equal to `Rotate`.
  - `GetAsWritten` is `get` as the code has it, with a fresh `lru_cache` built inside every call.
  - `Get` keeps the memo in the fetcher (see Findings).

The code and its docstring disagree in one place. The docstring of `g_requests` says `ValueError` is raised when "the status code is not in (420, 403)", but the code tests 429. The model follows the code.

## Model

| member | source | states |
|---|---|---|
| `Coords.FloorDiv` | reslib/cached_requests.py:43 | Python `//` is the floor of the quotient for either sign of the divisor: q * b <= a < q * b + b when b > 0, and q * b + b < a <= q * b when b < 0 |
| `Coords.Snap` | reslib/cached_requests.py:43 | a snapped coordinate is a multiple of the resolution; for a positive grid it lies in (x - res, x], for a negative one in [x, x - res) |
| `Coords.SnapUnique` | reslib/cached_requests.py:43 | the snap is the only multiple of the resolution in that window |
| `Coords.SnapIdempotent` | reslib/cached_requests.py:43 | snapping a snapped value changes nothing |
| `Coords.RoundCoords` | reslib/cached_requests.py:37-43 | one value per coordinate, in order, each a grid multiple within one step of its input; ZeroDivision exactly when res is 0 and there is at least one coordinate |
| `Coords.RoundCoordsIdempotent` | reslib/cached_requests.py:37-43 | rounding rounded coordinates returns them unchanged |
| `Coords.SameCell` | reslib/cached_requests.py:43 | on a positive grid, y normalizes to the same value as x exactly when y lies in the half-open cell [Snap(x), Snap(x) + res) |
| `Coords.RoundCoordsExamples` | reslib/cached_requests.py:40-41 | the doctest maps (45.4, 11.1) to (45.0, 11.0); 45.2 gives 45.0 and 10.9 gives 10.5 as in Plant's setters; -0.3 floors to -0.5; no coordinates give the empty tuple even with res 0 |
| `TokenPool.Split` | reslib/cached_requests.py:78 | `split(sep)` gives at least one piece, no piece holds the separator, and joining the pieces on the separator gives the input back |
| `TokenPool.SplitJoin` | reslib/cached_requests.py:78 | splitting a join of separator-free pieces gives those pieces back |
| `TokenPool.PoolFromEnv` | reslib/cached_requests.py:78 | the pool is never empty, and an unset variable gives exactly one empty token |
| `TokenPool.ShuffleSteps` | reslib/cached_requests.py:33 | the Fisher-Yates passes keep the length and the multiset of elements |
| `TokenPool.ShuffleKeepsElements` | reslib/cached_requests.py:22-34 | an element is in the shuffled list exactly when it is in the input |
| `TokenPool.Shuffle` | reslib/cached_requests.py:22-34 | a freshly allocated list holding a permutation of the input (the Fisher-Yates passes for the given draws); the caller's list is unchanged |
| `Requests.AuthHeaders` | reslib/cached_requests.py:95 | the headers hold just the Authorization entry, whose value starts with "Token " and gives the token back after it |
| `Requests.AuthHeadersInjective` | reslib/cached_requests.py:95 | two tokens give the same headers exactly when they are the same token |
| `Requests.Classify` | reslib/cached_requests.py:62-72 | status 200 gives the text; 429 gives OverusedToken; 403 gives InvalidToken; every other status gives the unhandled-status error, carrying that status code (each case both ways) |
| `Requests.ClassifyRecoversStatus` | reslib/cached_requests.py:62-72 | each failure determines the status it came from, and a success has status 200 and the response text |
| `Requests.GRequests` | reslib/cached_requests.py:46-72 | one GET with the given headers returns the response text exactly when the remote answer to that request has status 200 |
| `Rotation.Rotate` | reslib/cached_requests.py:93-108 | the pool left is a suffix of the pool given, and it is empty exactly when NotEnoughTokens is raised |
| `Rotation.RotateDropsFront` | reslib/cached_requests.py:98-100 | on 429 exactly the front token is removed, and the call continues on the rest with one request already sent |
| `Rotation.RotateStopsAtFront` | reslib/cached_requests.py:96-102 | any other answer ends the call after one request, with the pool unchanged; 403 names the token |
| `Rotation.RotateSentCount` | reslib/cached_requests.py:93-108 | one request per dropped token, plus one for the token that ended the call; none more when the pool ran out |
| `Rotation.RotateSentTokens` | reslib/cached_requests.py:93-95 | request i is sent with the i-th token of the pool, so every attempt uses the front token of what is left |
| `Rotation.RotateDropsOnly429` | reslib/cached_requests.py:98-100 | every token removed from the pool was answered 429 |
| `Rotation.RotateSettles` | reslib/cached_requests.py:96-102 | when tokens are left, the front one got an answer other than 429, and that answer decides the result |
| `Rotation.EmptyPoolSendsNothing` | reslib/cached_requests.py:105-108 | with an empty pool, NotEnoughTokens is raised and no request is sent |
| `Rotation.StopsAtFirstNon429` | reslib/cached_requests.py:93-102 | if the first k tokens get 429 and token k does not, the pool loses exactly k tokens, k + 1 requests go out, and token k's answer decides |
| `Rotation.SucceedsAfterK` | reslib/cached_requests.py:93-100 | k times 429 and then 200: the body is returned, the pool equals the original minus its first k tokens, and k + 1 requests were sent |
| `Rotation.InvalidAfterK` | reslib/cached_requests.py:101-102 | k times 429 and then 403: InvalidToken names token k, that token stays in the pool, and no further token is tried |
| `Rotation.InvalidFrontToken` | reslib/cached_requests.py:101-102 | 403 on the front token: InvalidToken at once, one request, pool unchanged |
| `Rotation.UnhandledFrontToken` | reslib/cached_requests.py:71-72 | any other status on the front token propagates with its code after one request, pool unchanged |
| `Rotation.AllOverused` | reslib/cached_requests.py:93-108 | if every token gets 429, the pool ends empty after one request per token and NotEnoughTokens is raised |
| `Rotation.ThreeTokensScenario` | reslib/cached_requests.py:93-100 | three tokens, answered 429, 429 and 200: success, only the third token is left, and three requests were sent |
| `Rotation.ExhaustionIsPermanent` | reslib/cached_requests.py:78 | once a call has emptied the shared pool, every later call raises NotEnoughTokens without a request |
| `Rotation.EmptyTokenIsTried` | reslib/cached_requests.py:78 | an unset RES_NINJA_TOKENS still sends exactly one request, with the header "Token " |
| `Lru.LruCache.constructor` | reslib/cached_requests.py:91 | a new memo is empty and has the given capacity |
| `Lru.LruCache.Lookup` | reslib/cached_requests.py:91-92 | a hit returns the stored text and makes the key the most recently used; a miss changes nothing |
| `Lru.StoredOrder` | reslib/cached_requests.py:91-92 | after storing a new key in a memo of positive capacity, the key is last (most recently used) and the keys before it are the old order, less its oldest key when the memo was full; capacity 0 keeps the order |
| `Lru.StoredEntries` | reslib/cached_requests.py:91-92 | after storing a new key, it maps to the value; when the memo was full the oldest key is gone; every other entry is kept and no other key appears; capacity 0 keeps the entries |
| `Lru.LruCache.Store` | reslib/cached_requests.py:91-92 | a new key is added as the most recently used; when full, the least recently used key is evicted and all others stay; capacity 0 stores nothing |
| `Fetchers.Fetcher.constructor` | reslib/cached_requests.py:75-78 | a fetcher starts with the given pool, an empty memo and no requests sent |
| `Fetchers.Fetcher.GetRequests` | reslib/cached_requests.py:92-108 | the `while` loop returns what `Rotate` returns, leaves the pool `Rotate` leaves, and sends exactly `Rotate`'s requests |
| `Fetchers.Fetcher.CachedCall` | reslib/cached_requests.py:91-110 | a memo hit returns the stored text with no request, the pool untouched and the key moved to most recently used; a miss is the rotation loop, a failure leaves the memo as it was, and a success is stored with `Store`'s order and eviction |
| `Fetchers.Fetcher.GetAsWritten` | reslib/cached_requests.py:75-110 | `get` as written is exactly the rotation loop on the shared pool, whatever earlier calls fetched |
| `Fetchers.Fetcher.Get` | reslib/cached_requests.py:80-84 | with the memo kept in the fetcher, a key fetched before is answered from memory without a request and becomes most recently used; a new key runs the rotation loop and a success is memoized with eviction of the least recently used key when full |
| `Fetchers.NewFetcher` | reslib/cached_requests.py:78-91 | the pool is a permutation of the split RES_NINJA_TOKENS value, and unset it is one empty token; the memo starts empty, with capacity LRU_CACHE_MAXSIZE, 2048 when unset |
| `Fetchers.RepeatCallsAsWritten` | reslib/cached_requests.py:91-92 | two identical calls of `get` as written, both answered 200, send two requests |
| `Fetchers.RepeatCallsCached` | reslib/cached_requests.py:80-84 | the same two calls with a persistent memo send one request and return the same text |
| `Fetchers.CacheTwoKeys` | reslib/cached_requests.py:91-92 | two distinct successful requests into an empty memo: the second is cached, and the first is still cached exactly when the capacity is at least 2 |

## Left out

- The float `round(coord, ndigits)` step. The model starts from integer tenths, so `ndigits` is fixed at 1, which is what every caller passes. The resolution is a whole number of tenths. For 0.5 the float snap is exact, because multiples of 0.5 are exact binary floats.
- The HTTP GET (`requests.get`, line 61) is network I/O. It is replaced by a `Responder` function.
  - The same request gets the same answer within one call. Separate calls may pass different responders.
  - Transport exceptions (connection errors, timeouts) are not modelled.
- The DEBUG dump (lines 53-60) is output only and is not modelled.
- Reading the environment (lines 78 and 91) is not modelled.
  - The `RES_NINJA_TOKENS` value is a parameter, and so is the path separator.
  - `LRU_CACHE_MAXSIZE` is a `nat` parameter. When the variable is set, its value arrives as a string, and `lru_cache` would reject it with a TypeError. That is not modelled, and neither is `maxsize=None`.
- `random.shuffle`'s randomness is the `draws` parameter.
- Exception message texts are not modelled. Only the token (`InvalidToken`) and the status code (unhandled status) are kept.
- `lru_cache` internals are not modelled: locking, re-entrant calls, `typed`, and keyword-order sensitivity of the key. `CacheKey` treats parameters as a map.
- Requests.GRequests: its contract states the success side only. Which error a failure gives is stated on `Requests.Classify`, which `GRequests` applies to the answer, because stating it on `GRequests` as well makes the proof of the rotation loop too costly for the solver.
- Concurrency: the model is single-threaded, as the source assumes.
- Callers that pass their own `tokens` list (reslib/wind.py:93) would use a separate pool, which is a separate `Fetcher`. They are not modelled further.
- reslib/plant.py, reslib/pv.py, reslib/wind.py, reslib/st.py, build/lib/reslib/planning.py and setup.py are not part of this model. They hold float energy and finance formulas, request parameter building, JSON parsing and packaging.

## Findings

| source | as written | input that shows it | evidently intended | confidence | as-written member | corrected member |
|---|---|---|---|---|---|---|
| reslib/cached_requests.py:91-92 | the `lru_cache`-wrapped `get_requests` is created inside `get`, so every call starts with an empty memo and nothing is ever served from it | two calls `get(url, params)` with the same arguments, whose front token is answered 200: both send a request | the docstring (lines 80-84) says the request is cached, so a repeated call should be answered from memory | high (not executed) | `Fetchers.Fetcher.GetAsWritten`, shown by `Fetchers.RepeatCallsAsWritten` | `Fetchers.Fetcher.Get`, proved by `Fetchers.RepeatCallsCached` |
