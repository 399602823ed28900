# antman-proxy request path, modelled in Dafny

antman-proxy is an image-resizing gateway written in Go. A request
`GET /resize?url=…&width=…&height=…&format=…&quality=…` passes a per-client token-bucket
rate limiter. It is then validated. The image manager checks the disk cache. On a miss it
fetches, decodes, resizes and encodes the image and writes it through the cache. The handler
answers with the file, a weak ETag and conditional-GET (304) support. A header middleware adds
CDN caching and CORS headers.

This project models that request path as immutable datatypes and pure functions. State is
threaded through explicitly: the client-to-bucket map, the cache directory as a
`map<path, File>`, and the worker pool's queue and counter. Foreign code is a parameter:
HTTP, the image codecs, the Lanczos resampler, md5, `url.Parse` and the outcomes of
filesystem calls that can fail.

| file | module | models |
|---|---|---|
| `results.dfy` | `Results` | nil pointers and `(value, error)` returns |
| `text.dfy` | `Text` | `strings.Contains`, `HasPrefix`, `ToLower`, `Split` |
| `decimal.dfy` | `Decimal` | the `%d` verb and `strconv.Atoi` on a 64-bit `int` |
| `fmt.dfy` | `Fmt` | `fmt.Errorf` applied to a text with no operands |
| `rate_limiter.dfy` | `RateLimiter` | `middlewares/rate_limiter.go` |
| `cache_manager.dfy` | `Cache` | `app/managers/cache/manager.go` |
| `image_manager.dfy` | `Pipeline` | `app/managers/image/manager.go` |
| `gateway.dfy` | `Gateway` | the validation chain, content type and ETag shared by both image handlers |
| `direct_handler.dfy` | `DirectHandler` | `app/handlers/image/handler.go` |
| `worker_pool.dfy` | `WorkerPool` | `handlers/image/worker_pool.go` |
| `pooled_handler.dfy` | `PooledHandler` | `handlers/image/handler.go` |
| `cdn_headers.dfy` | `CdnHeaders` | `middlewares/headers.go` |

## Behaviour as written

Behaviour of the Go code that the model follows as written:

- `ProcessImage` does not check the allow-list itself. Only the handlers do.
- The allow-list is a substring test on the lower-cased host, so `evilimgur.com.attacker.net`
  passes a list holding `imgur.com` (`Pipeline.AllowListIsSubstringMatch`).
- `calculateDimensions` divides the requested height by the aspect ratio. For a 200x100
  image, width 0 and height 50 gives 25x50 (`Pipeline.DividesByAspectRatio`).
- `ProcessImage` passes the request to `calculateDimensions` as `(height, width)`. A request
  for both sizes is resized transposed (`Pipeline.ResizeTargetTransposes`). The 200x100 image
  requested at width 0, height 50 becomes 50 wide and 100 high (`Pipeline.ResizeTargetExample`).
- Validation accepts a negative dimension next to a positive one
  (`Gateway.NegativeBesidePositiveAccepted`). `uint` then wraps it to a 64-bit value near
  2^64 before the resampler sees it (`Pipeline.ResizeTargetWrapsNegative`).
- The quality is not part of the cache key. A cached file made at one quality is returned for
  every other quality (`Pipeline.CacheHitShortCircuits`).
- The cache key hashes `url_width_height_format`. This pre-image is injective for formats
  without an underscore (`Pipeline.KeyPreimageInjective`), which covers every valid format.
  It is ambiguous otherwise (`Pipeline.KeyPreimageCollision`). Whether md5 keeps distinct
  pre-images apart is outside the model.
- The limiter moves its timestamp only when the refill adds something. The retry hint is
  `trunc(1000 / refillRate)` milliseconds.
- Only `NewManager` creates the cache directory; `Set` writes into it as it is.
- In the pooled handler, the `os.Stat` error is assigned to a new, shadowing `err`. A file that
  another request removed after processing therefore reaches `c.File`, which answers 404 with
  no ETag. The direct handler answers 400 with the stat error
  (`PooledHandler.RemovedFileReachesServeFile`).
- The pooled job re-creates a processing error with `fmt.Errorf(err.Error())`, which reads the
  text as a format string with no operands. An `http.Get` error quoting the URL
  `https://imgur.com/a%20b.jpg` therefore reaches the client as `…a%!b(MISSING).jpg…`, while the
  direct handler shows the text as it is (`Fmt.PlainPrefix`, `Fmt.MissingOperand`,
  `PooledHandler.AgreesWithDirectHandler`).
- After `Shutdown`, a worker may take a nil job from the closed, empty job channel. Calling it
  panics, the worker recovers, and the deferred `wg.Done()` on a zero counter then panics with
  "sync: negative WaitGroup counter" outside any `recover`, which ends the process. A `Submit`
  after `Shutdown` panics on the closed channel with the counter already raised
  (`WorkerPool.SubmitAfterShutdown`).
- The retry duration is `time.Duration(1000/refillRate) * time.Millisecond`, an `int64`
  product in nanoseconds that wraps. A refill rate of 10^-10 gives a negative duration
  (`RateLimiter.RetryAfterWraps`).

## Model

| member | source | states |
|---|---|---|
| `Text.Contains` | app/managers/image/manager.go:61 | `strings.Contains` is true iff the needle occurs at some position of the haystack; the empty needle always occurs |
| `Text.ContainsFrom` | app/managers/image/manager.go:61 | scanning from position i finds the needle iff it occurs at some position at or after i |
| `Text.ToLower` | app/managers/image/manager.go:59 | lower-casing keeps the length and maps each character through the ASCII fold |
| `Text.ToLowerIdempotent` | app/managers/image/manager.go:59 | a lower-cased host has no upper-case letter, and lower-casing it again changes nothing |
| `Text.Split` | app/handlers/image/handler.go:38-40 | the comma split of `VALID_FORMATS` is non-empty, no part contains a comma, and joining the parts gives back the input |
| `Text.SplitJoin` | app/handlers/image/handler.go:38-40 | splitting joined comma-free parts gives back exactly those parts |
| `Decimal.NatToString` | app/managers/image/manager.go:138 | `%d` of a natural number is a non-empty digit string without a leading zero |
| `Decimal.NatToStringRoundTrip` | app/managers/image/manager.go:138 | the digits printed for n denote n |
| `Decimal.IntToString` | app/managers/image/manager.go:138 | `%d` of an int is a non-empty string of digits and a sign |
| `Decimal.SignShows` | app/managers/image/manager.go:138 | `%d` of an int starts with `-` exactly when the int is negative |
| `Decimal.IntToStringInjective` | app/handlers/image/handler.go:97 | distinct integers print as distinct decimal strings |
| `Decimal.LeadingDigits` | app/handlers/image/handler.go:54-57 | the leading digit run is a digit-only prefix followed by a non-digit or the end of the text |
| `Decimal.Atoi` | app/handlers/image/handler.go:54-57 | `strconv.Atoi` with its error ignored: a sign and digits give their value clamped to 64 bits. Other text gives 0, unless its leading digit run already exceeds 2^64-1, which is a range error clamped by sign |
| `Decimal.OverflowingRunThenJunk` | app/handlers/image/handler.go:54-57 | a digit run above 2^64-1 followed by a non-digit parses as MaxInt64, or as MinInt64 after a `-` |
| `Decimal.OverflowBeforeJunk` | app/handlers/image/handler.go:54-57 | `99999999999999999999x` parses as MaxInt64 and its negation as MinInt64, so such a width is out of range rather than missing |
| `Decimal.InRangeRunThenJunk` | app/handlers/image/handler.go:54-57 | a digit run of at most 2^64-1 followed by a non-digit is a syntax error, so it parses as 0 with or without a leading `-` |
| `Decimal.JunkAfterInRangeDigits` | app/handlers/image/handler.go:54-57 | `9999999999999999999x` fits before the letter, so it parses as 0 |
| `Decimal.AtoiIntToString` | app/handlers/image/handler.go:54-57 | `Atoi` parses back every 64-bit integer printed by `%d` |
| `Decimal.ClampInt64` | app/handlers/image/handler.go:54-55 | an out-of-range number saturates at the 64-bit bound of its sign; an in-range one is kept |
| `Fmt.PercentFreeUnchanged` | handlers/image/handler.go:101-103 | `fmt.Errorf` of an error text without `%` gives back that text |
| `Fmt.ErrorfEscape` | handlers/image/handler.go:101-103 | a text whose every `%` is doubled prints as the original text, since `%%` prints `%` |
| `Fmt.MissingOperand` | handlers/image/handler.go:101-103 | `%20b` prints as `%!b(MISSING)`: the width is read and the verb has no operand |
| `Fmt.PlainPrefix` | handlers/image/handler.go:101-103 | text before the first `%` is copied unchanged, so a directive inside an error text only rewrites what follows it |
| `Fmt.TrailingPercent` | handlers/image/handler.go:101-103 | a text without `%` followed by a final `%` prints as that text followed by `%!(NOVERB)` |
| `Fmt.StarWidthWithoutOperand` | handlers/image/handler.go:101-103 | `%*d` prints as `%!(BADWIDTH)%!d(MISSING)` |
| `Fmt.IndexWithoutOperand` | handlers/image/handler.go:101-103 | `%[1]d` prints as `%!d(BADINDEX)` |
| `RateLimiter.NewBucket` | middlewares/rate_limiter.go:28-35 | a new bucket starts full, with tokens equal to capacity, and is valid when capacity is non-negative |
| `RateLimiter.Refill` | middlewares/rate_limiter.go:37-46 | with nothing earned the bucket is unchanged; otherwise the timestamp moves to now and tokens become the capped sum, never above capacity, and never below an old balance that was within capacity |
| `RateLimiter.Allow` | middlewares/rate_limiter.go:48-59 | admits iff the refilled balance is at least 1; an admission withdraws exactly 1, a denial leaves the refilled bucket as is |
| `RateLimiter.AllowPreservesValid` | middlewares/rate_limiter.go:37-59 | refill and allow keep 0 <= tokens <= capacity |
| `RateLimiter.AllowMany` | middlewares/rate_limiter.go:48-59 | n calls at one instant produce n decisions |
| `RateLimiter.BurstAdmitsFloorOfTokens` | middlewares/rate_limiter.go:48-59 | with no time advance, call i is admitted iff i < floor(tokens) |
| `RateLimiter.FreshBurst` | app/middlewares/rate_limiter_test.go:36-42 | a fresh bucket admits exactly floor(capacity) calls made at its creation instant |
| `RateLimiter.RetryAfterMillis` | middlewares/rate_limiter.go:83 | `time.Duration(1000/refillRate)` is 1000/refillRate truncated toward zero; it is undefined for a zero rate and outside 64 bits |
| `RateLimiter.WrapInt64` | middlewares/rate_limiter.go:83 | an int64 product is the exact product modulo 2^64, read as a signed 64-bit number |
| `RateLimiter.RetryAfter` | middlewares/rate_limiter.go:83-84 | the retry duration in nanoseconds is the millisecond count times 10^6 modulo 2^64; it is defined exactly when the millisecond count is; it equals the exact non-negative product while that fits |
| `RateLimiter.RetryAfterWraps` | middlewares/rate_limiter.go:83-84 | a refill rate of 10^-10 gives 10^13 ms, which wraps to -8446744073709551616 ns |
| `RateLimiter.RetryAfterOneSecond` | middlewares/rate_limiter.go:83-84 | a refill rate of 1 token/s gives a retry duration of exactly one second |
| `RateLimiter.Handle` | middlewares/rate_limiter.go:74-96 | the client's bucket is created once and then reused; no other client's bucket changes; a denial is 429 "Rate limit exceeded" with the configured capacity and retry hint, and the request goes on iff allow admits it |
| `RateLimiter.BasicRateLimitingExample` | app/middlewares/rate_limiter_test.go:36-42 | capacity 3 at one instant gives 200, 200, 200, 429, 429 |
| `RateLimiter.RefillExample` | app/middlewares/rate_limiter_test.go:43-50 | capacity 1 at rate 1/s gives 200, 429, then one second later 200, 429 |
| `RateLimiter.ClientsAreIndependent` | middlewares/rate_limiter.go:77 | one client's request does not change the verdict on another client's request |
| `Cache.NewManager` | app/managers/cache/manager.go:30-54 | nil config is an error; an empty directory becomes `image_cache` and a max age of exactly 0 becomes 86400, other values are kept; a failed directory creation is returned |
| `Cache.Extension` | app/managers/cache/manager.go:81-84 | the extension is `jpg` iff the format is `jpeg`, otherwise the format itself |
| `Cache.GetPath` | app/managers/cache/manager.go:80-86 | the path is `<dir>/<key>.<ext>` |
| `Cache.GetPathInjective` | app/managers/cache/manager.go:80-86 | for one format, distinct keys without `/` get distinct joined paths, before `filepath.Join` cleans them |
| `Cache.JpegAndJpgShareAFile` | app/managers/cache/manager.go:81-84 | the formats `jpeg` and `jpg` map one key to the same file |
| `Cache.Get` | app/managers/cache/manager.go:56-73 | returns the path iff the file exists and now - mtime <= maxAge; a missing or fresh file leaves the store unchanged; a stale one is removed unless removal fails, and the answer is "" either way |
| `Cache.Set` | app/managers/cache/manager.go:75-78 | always returns `GetPath(key, format)` with the write error; a successful write stores exactly the bytes at that path and touches no other file |
| `Cache.SetThenGet` | app/managers/cache/manager_test.go:138-148 | after a successful Set, the file holds the bytes written, and a Get within maxAge returns the same path and deletes nothing |
| `Cache.FreshnessBoundary` | app/managers/cache/manager.go:61-69 | an entry written at T is a hit at T+maxAge and a miss at T+maxAge+1, and that miss removes the file |
| `Pipeline.NewManager` | app/managers/image/manager.go:34-51 | nil config, then nil domain list, then nil cache manager are refused with their messages; otherwise both are kept |
| `Pipeline.AnyContainedFrom` | app/managers/image/manager.go:60-65 | the loop over the allowed entries succeeds iff some entry at or after i is a substring of the host |
| `Pipeline.IsURLAllowed` | app/managers/image/manager.go:53-66 | false on a parse error; otherwise true iff some allowed entry is a substring of the lower-cased host |
| `Pipeline.EmptyHostRejected` | app/managers/image/manager_test.go:106-110 | an empty host, as in `not-a-url`, passes iff the list holds the empty string |
| `Pipeline.AllowListIsSubstringMatch` | app/managers/image/manager.go:61 | a host that merely contains an allowed domain, with other text around it, passes |
| `Pipeline.KeyPreimageInjective` | app/managers/image/manager.go:137-140 | for underscore-free formats, equal key pre-images mean equal url, width, height and format |
| `Pipeline.KeyPreimageCollision` | app/managers/image/manager.go:138 | with an underscore in the format, two different requests share a pre-image |
| `Pipeline.SplitAtLastUnderscore` | app/managers/image/manager.go:138 | a string ending in `_` and an underscore-free tail splits uniquely |
| `Pipeline.CalculateDimensions` | app/managers/image/manager.go:69-82 | width 0 and height > 0 gives (floor(height / ar), height); height 0 and width > 0 gives (width, floor(width * ar)); anything else is unchanged |
| `Pipeline.DividesByAspectRatio` | app/managers/image/manager.go:74-76 | a 200x100 image with width 0 and height 50 gives 25x50 |
| `Pipeline.ToUint` | app/managers/image/manager.go:105 | `uint` keeps values in range and wraps negatives by 2^64 |
| `Pipeline.Encode` | app/managers/image/manager.go:109-132 | only jpeg, png and webp can succeed; a supported format's error starts with `<fmt>.Encode: `; any other format fails with "unsupported output format: <fmt>" |
| `Pipeline.PngIgnoresQuality` | app/managers/image/manager.go:115-119 | the png branch never passes the quality on, so any two qualities give the same result |
| `Pipeline.JpegUsesQuality` | app/managers/image/manager.go:110-114 | the jpeg branch passes the quality to the encoder, so qualities the encoder tells apart give different results |
| `Pipeline.ResizeTargetTransposes` | app/managers/image/manager.go:104-105 | with both dimensions positive, the resampler receives (height, width) |
| `Pipeline.ResizeTargetExample` | app/managers/image/manager.go:104-105 | a 200x100 image requested at width 0, height 50 is resized to 50x100 |
| `Pipeline.ResizeTargetWrapsNegative` | app/managers/image/manager.go:104-105 | a request of width -5, height 10 reaches the resampler as (10, 2^64-5) |
| `Pipeline.ProcessImage` | app/managers/image/manager.go:84-135 | the cache is consulted first; a successful run leaves its file in the cache; a hit returns the cached path with no other call and no change; a success returns the `GetPath` of the key after fetch, decode, resize, encode and set, in that order; an unsupported format never encodes or writes; on a miss, a fetch or decode error is returned unchanged with path "", and an encoder error comes back as `Encode`'s message; a failure before the write leaves the directory as the lookup left it |
| `Pipeline.CacheHitShortCircuits` | app/managers/image/manager.go:85-90 | on a cache hit, the result does not depend on fetch, decode, resize, encode or the quality |
| `Pipeline.ProcessImageResizesToTarget` | app/managers/image/manager.go:98-105 | after a miss and a good decode, the resampler is asked for the transposed target |
| `Pipeline.ProcessImageReturnsSet` | app/managers/image/manager.go:85-87 | after a successful encode, the result is exactly what Set returns for the key used in the lookup |
| `Pipeline.UnsupportedFormatFails` | app/managers/image/manager.go:130-131 | an unsupported format fails with its message after fetch, decode and resize, with no encoder or cache write called |
| `Gateway.ParseRequest` | app/handlers/image/handler.go:43-57 | width and height are `Atoi` of the parameter, 0 when it is absent; text `Atoi` rejects gives 0, except that an overflowing leading digit run clamps to ±MaxInt64; a present quality is `Atoi` of its text; format defaults to `jpeg` and quality to 85 only when absent |
| `Gateway.ValidFormatsExample` | app/handlers/image/handler_test.go:34 | `jpeg,png,webp` splits into the three formats |
| `Gateway.UnsetValidFormats` | app/handlers/image/handler.go:38-40 | an unset `VALID_FORMATS` yields the single format "" |
| `Gateway.Validate` | app/handlers/image/handler.go:42-77 | each message is returned exactly when its check is the first to fail, in the order url, domain, dimensions present, range, format, quality; success returns exactly the parsed values |
| `Gateway.NegativeBesidePositiveAccepted` | app/handlers/image/handler.go:59-67 | width -5 with height 10 passes validation |
| `Gateway.DefaultsExample` | app/handlers/image/handler_test.go:140-157 | a query with only url, width and height yields format jpeg and quality 85 |
| `Gateway.ContentType` | app/handlers/image/handler.go:85-89 | the content type is always `image/` + format |
| `Gateway.ETag` | app/handlers/image/handler.go:97 | the tag has the weak form `W/"…"`, and the text between the quotes parses back to the Unix mtime |
| `Gateway.Json` | app/handlers/image/handler.go:93 | `c.JSON` keeps a Content-Type the handler set and otherwise adds the JSON one; status, body and other headers are as given |
| `Gateway.ErrorResponse` | app/handlers/image/handler.go:44-46 | an error answered before any header was set is a 400 with the message and only the JSON content type |
| `Gateway.ServeFile` | handlers/image/handler.go:135 | `c.File` answers 200 iff the file exists and 404 iff it does not, with the handler's headers |
| `Gateway.StatView` | app/handlers/image/handler.go:91 | `os.Stat` finds the processed file iff it is in the directory and no other request removed it; every other file is seen as it is |
| `Gateway.ETagInjective` | app/handlers/image/handler.go:97 | distinct modification times give distinct tags |
| `DirectHandler.NewHandler` | app/handlers/image/handler.go:24-36 | nil config, then nil image manager, are refused with their messages |
| `DirectHandler.Respond` | app/handlers/image/handler.go:79-104 | a processing error becomes a 400 with its text; otherwise Content-Type is image/<format>; a file missing at `os.Stat` is a 400 with the stat error and no ETag; otherwise the handler itself answers 304 without ETag iff If-None-Match equals the tag, else it reaches `c.File` with the ETag (`ServeFile`'s own 304s are left out) |
| `DirectHandler.HandleResize` | app/handlers/image/handler.go:42-104 | validation errors are answered without processing and leave the cache alone; otherwise ProcessImage runs on exactly the validated values |
| `DirectHandler.ConditionalGetAfterSuccess` | app/handlers/image/handler.go:97-104 | a validated request whose processing succeeds gets 200 with an ETag; the same request with If-None-Match set to that ETag, while the file is fresh, gets 304 |
| `WorkerPool.NewWorkerPool` | handlers/image/worker_pool.go:15-31 | a non-positive size becomes one worker; the buffer holds twice the workers; the pool starts empty and valid |
| `WorkerPool.Submit` | handlers/image/worker_pool.go:53-56 | the counter grows by exactly one and the job joins the back of the queue |
| `WorkerPool.SubmitAfterShutdown` | handlers/image/worker_pool.go:53-65 | after `Shutdown`, `Submit` raises the counter but the send panics and queues nothing; under the schedule `WorkerPool.Shutdown` models, no worker can lower the counter again, so `Wait` never returns |
| `WorkerPool.LateSubmitBlocksWait` | handlers/image/worker_pool.go:53-65 | under the schedule `WorkerPool.Shutdown` models, a pool with every job finished becomes impossible to wait on once a job is submitted after `Shutdown` |
| `WorkerPool.Step` | handlers/image/worker_pool.go:33-51 | a worker takes the oldest job; the counter drops by exactly one whether the job returned or panicked |
| `WorkerPool.Shutdown` | handlers/image/worker_pool.go:62-65 | under the schedule in which every worker's `select` picks the closed shutdown channel, no job is taken or submitted after shutdown |
| `WorkerPool.WaitMeansAllRan` | handlers/image/worker_pool.go:58-60 | when Wait may return, every submitted job has run exactly once, in submission order |
| `WorkerPool.Drain` | handlers/image/worker_pool.go:33-51 | running the queue down empties it, appends each queued job with its outcome in queue order, and keeps the invariant |
| `WorkerPool.SubmitAllAndWait` | handlers/image/worker_pool_test.go:129-148 | N submits and a Wait run all N jobs in submission order, panicking ones included, for any pool size |
| `WorkerPool.CountSplits` | handlers/image/worker_pool_test.go:75-100 | returned plus panicked completions account for every completion |
| `WorkerPool.PanickingJobsStillComplete` | handlers/image/worker_pool_test.go:75-100 | once Wait may return, returned plus panicked jobs equal the jobs submitted |
| `PooledHandler.NewHandler` | handlers/image/handler.go:28-46 | nil config, then nil image manager, then nil pool, are refused with their messages |
| `PooledHandler.RunJob` | handlers/image/handler.go:68-126 | the job validates in the shared order, processes exactly the validated values, keeps a processing error as `fmt.Errorf` re-reads it (unchanged when it has no `%`), sets the content type, and flags 304 or sets the ETag depending on If-None-Match |
| `PooledHandler.HandleResize` | handlers/image/handler.go:52-136 | an empty url is answered without submitting a job; otherwise the job's error, as the job left it, becomes a 400, else 304, else `c.File`, which gives 200 when the file exists and 404 when it does not |
| `PooledHandler.AgreesWithDirectHandler` | handlers/image/handler.go:72-126 | unless another request removes the processed file before `os.Stat`, both handlers leave the same cache and give the same response, except that a processing error's text is re-read by `fmt.Errorf` in the pooled one; any error text without `%` is the same in both |
| `PooledHandler.RemovedFileReachesServeFile` | handlers/image/handler.go:113-135 | when the processed file is gone at `os.Stat`, the pooled handler reaches `c.File`, which answers 404 with no ETag; the direct handler answers 400 with the stat error |
| `CdnHeaders.GetCdnHeaders` | middlewares/headers.go:10-24 | the four base headers always have their fixed values; Access-Control-Allow-Origin "*" is present iff the content type starts with `image/`; exactly 4 or 5 entries |
| `CdnHeaders.ApplyHeaders` | middlewares/headers.go:26-34 | the headers are computed from the content type the downstream handler set, and override the downstream headers they name |
| `CdnHeaders.ProcessedResponsesAllowAnyOrigin` | middlewares/headers.go:19-21 | every direct-handler response after successful processing gets CORS, including 304 and stat errors |
| `CdnHeaders.ErrorResponsesGetNoCors` | middlewares/headers.go:11-21 | a validation-error response, whose content type is gin's JSON one, ends with exactly the four base headers and that content type, and no CORS header |

## Left out

- HTTP, the codecs, the resampler and md5 are uninterpreted fields of `Pipeline.Effects`.
  These are `http.Get`, `image.Decode`, `resize.Resize` with Lanczos3, and the jpeg/png/webp
  encoders. A non-2xx HTTP status is not an error in the Go code: its body is decoded, which
  is what `fetch` returning the body stands for.
- `url.Parse` is the `parseHost` field. It returns a host or an error.
- `Pipeline.Image`: decoded images are assumed non-empty. With a zero side, Go's float→int
  conversion of an infinite or NaN aspect ratio has no defined result.
- `Pipeline.CalculateDimensions`, `RateLimiter.Refill`, `RateLimiter.RetryAfterMillis`: these
  use exact rational arithmetic with floor or truncation. float64 rounding is not modelled.
- `RateLimiter.Handle`: gin's JSON content type on the 429 is not modelled. The `%.0f` header text, `Duration.String()` of `retry_after` and the
  `X-RateLimit-Reset` rounding are kept as numbers, not text.
- `RateLimiter(nil)` calls `log.Fatal`, which ends the process. The default `ClientIP`
  identification is a parameter (`client`).
- The limiter's mutex and `sync.Map` are not modelled. Calls are sequential, so
  `LoadOrStore` is a map update.
- Filesystem calls work on a map. `MkdirAll` and `WriteFile` are reduced to an error
  parameter, and `os.Remove` to a failure flag. A failed write leaves the map unchanged. A
  failed `Stat` means only "absent".
- Other requests run in between only in one place. `Disk.removedBeforeStat` says whether one of
  them removed the processed file between `ProcessImage` returning and the handler's `os.Stat`.
  For example, a `Get` that found the file stale could remove it. Without such a removal, a
  successful `ProcessImage` always leaves its file in place.
- `Cache.GetPath`, `Cache.GetPathInjective`: `filepath.Join` does not clean the path in this
  model. Keys and formats containing `/` could be collapsed by cleaning (`a/../b` and `b`), so
  the injectivity lemma is stated only for slash-free keys and formats. Even slash-free, the key
  `""` or `.` with the empty format (valid when `VALID_FORMATS` is unset) names the file `.` or
  `..`, which cleaning collapses: with cache directory `/` both become `/`. md5-hex keys are
  slash-free and never `.` or `""`.
- `Cache.NewManager` does not model that it writes the defaults back into the caller's
  `Config`.
- Time is an explicit `now`. Cache and ETag times are whole Unix seconds; limiter times are
  real seconds.
- `Text.ToLower` folds only ASCII letters.
- Worker pool: goroutines, channels and `WaitGroup` are a sequential state machine. A
  `Step` takes the oldest job and runs it to completion. With several workers the real jobs
  overlap, so the log order is the order jobs were taken, which equals completion order only
  with one worker.
- A `Submit` on a full buffer is modelled as waiting until a `Step` frees a slot.
- `WorkerPool.Submit`, `WorkerPool.SubmitAfterShutdown`: the panic raised by a send on the
  closed job channel is not followed further; the model keeps only the raised counter. Under the
  schedule `WorkerPool.Shutdown` models, every later `Wait` then blocks forever if a recovery
  middleware catches the panic. In Go a worker still in its loop may instead take a nil job from
  the closed, empty channel; the recovered call is followed by `wg.Done()`, which lowers the
  raised counter so `Wait` returns, or, on a zero counter, panics and ends the process. That
  schedule is not modelled.
- `WorkerPool.Shutdown`: the pool just stops. In Go a worker's `select` may still take jobs
  left in the closed buffer after `Shutdown`, so buffered jobs may still run. That schedule is
  not modelled. Neither are the nil jobs a closed, empty channel delivers. A worker calls such a
  nil job, which panics; the deferred function recovers that panic and then calls `wg.Done()`.
  On a zero counter this panics with "sync: negative WaitGroup counter" after the `recover`, which
  ends the process.
- Pooled handler: `Wait()` also blocks on other requests' jobs; that is not modelled.
- Pooled handler: the `c.File` call that follows a 304 written by the job is not modelled.
- `Fmt.Errorf` models `fmt.Errorf` with no operands over the characters of the text: bytes that
  are not valid UTF-8 are not modelled.
- `Gateway.ServeFile`, `DirectHandler.Respond`, `PooledHandler.HandleResize`: the handlers
  themselves answer 304 iff `If-None-Match` equals the tag. `http.ServeFile` is reduced to 200 or 404 depending on whether the file
  exists. Every other answer it can give becomes 200 in the model: 304 for `If-Modified-Since` or
  for a weakly matching or `*` `If-None-Match`, 206 and 416 for `Range`, and 412 for a failed
  precondition. The headers `http.Error` rewrites on a 404 are not modelled either.
- Header names are kept as the source spells them (`CDN-Cache-Control`, `ETag`). `http.Header.Set`
  stores them in canonical form (`Cdn-Cache-Control`, `Etag`); nothing the model compares depends
  on the spelling.
- Whether headers written after the body reach the client is not modelled. The middleware's
  header map is the result.
- gin routing, `app/server/server.go` configuration, `main.go`, `app/main.go`, graceful
  shutdown and the HTML handler are I/O and glue. The generated mocks are test scaffolding.
- `app/managers/image/types.go` declares a 4-argument `ProcessImage`. It disagrees with
  `managers/image/types.go` and `app/managers/image/manager.go`, and the 5-argument form is
  modelled.
