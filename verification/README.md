# redis-cache, modelled in Dafny

A book-search service sits in front of the Kakao book API and caches its
results in Redis. This project models the core of that service as pure Dafny
functions over explicit values, and proves properties of them:

- **PER cache manager** (`PerCache`): probabilistic early recomputation with a
  single-flight lock.
  - A read runs one atomic cache-get script. It returns the stored text, the
    stored recomputation cost ("delta") and the remaining time to live.
  - On a miss, only the caller that wins a token lock on `key:lock`
    recomputes. It writes the value and its cost, then releases the lock by
    compare-and-delete.
  - Every other caller re-reads the cache at most twice, then fails.
- **Circuit breaker** (`CircuitBreaker`): counts failures of the main
  operation and, once past `maxFailures`, sends every call to the fallback.
- **Count-threshold cache** (`ThresholdCache`): the earlier cache manager. It
  counts accesses per key and stores and serves a result only from the fifth
  access on.
- **Query normalizer** (`QueryNormalizer`): turns a search query into a cache
  key.
- **Kakao adapter** (`KakaoBook`): converts the API's records into search
  results. This includes the thumbnail file-name extraction, which relies on
  the JDK's URL decoder; `UrlDecoding` models that decoder, with its partner,
  the URL encoder.
- **Test adapter** (`TestSearchBookAdapter`): the stand-in for the API used in
  load tests.
- **Response record** (`SearchBookResponse`): the record that is cached.

Supporting modules:

- `Wrappers`: `Option` and `Result`.
- `RedisStore`: the Redis instance as a value. It holds a keyspace, remaining
  TTLs, and the set of commands that currently fail.
- `Codec`: the JSON mapper as an abstract pair of functions, each of which may
  throw.
- `JavaText`: Java string case mapping, `int` wrap-around, truncating `%` and
  decimal text.
- `JavaTime`: `LocalDate` and `OffsetDateTime`.
- `SearchBookDto`: the adapters' result record.

How the outside world enters the model:

- **Randomness** is an input. This covers the PER draw (as `-ln(u)`), the lock
  token, the test adapter's `nextInt` and `nextDouble` results, and its
  publication dates.
- **The recomputer** is a `Recomputation` value: it returns a value and a
  cost, or it throws.
- **Other processes** enter a read as a function `others(i, store)`: the store
  after what they wrote during the i-th back-off sleep.
- **The Kakao HTTP client** is a function parameter.
- **Java `null`** is `None`. A modelled exception is an `Err`, or the value
  the source's `catch` turns it into.

Where the intended design and the code differ, the model follows the code:

- **Early refresh:** the early-refresh decision is computed on a hit, but the
  cached value is served either way. No refresh is ever triggered.
- **Lock TTL and retry count:** the lock TTL is hard-coded to 5000 ms and the
  number of re-reads to 2. The configured values (600 ms, 1 attempt, back-off
  and jitter) are never read.
- **Circuit breaker states:** the breaker never enters HALF_OPEN, and once it
  is OPEN nothing closes it again. Only a successful main call, which cannot
  happen while it is OPEN, resets it.

## Model

| member | source | states |
|---|---|---|
| `PerCache.LockKey` | src/main/java/com/f1v3/cache/common/cache/PerRedisCacheManager.java:126-128 | the lock key starts with the data key and never equals it |
| `PerCache.DeltaKey` | src/main/java/com/f1v3/cache/common/cache/PerRedisCacheManager.java:217-219 | the delta key coincides with the data key exactly when the suffix is empty, and with the lock key exactly when the suffix is `:lock` |
| `PerCache.CacheResultOf` | src/main/java/com/f1v3/cache/common/cache/PerRedisCacheManager.java:138-151 | a null or short reply reads as a miss; a record is a hit exactly when it has data; each field is present exactly when its reply element has the matching type; a first element that is not a list is a cast failure |
| `PerCache.CacheResultOfReplyOf` | src/main/java/com/f1v3/cache/common/cache/PerRedisCacheManager.java:132-151 | every record whose hit flag agrees with its data is read back unchanged from the reply the script gives for it |
| `PerCache.GetCacheData` | src/main/java/com/f1v3/cache/common/cache/PerRedisCacheManager.java:132-152 | the read fails exactly on a store error or a stored value of the wrong type, and only with a read failure; it is a hit exactly when the key is stored, and then carries the stored text |
| `PerCache.ShouldRecompute` | src/main/java/com/f1v3/cache/common/cache/PerRedisCacheManager.java:198-215 | an incomplete record always asks for a refresh, and so does an expired complete one when cost, beta and draw are non-negative |
| `PerCache.ShouldRecomputeMonotoneInTtl` | src/main/java/com/f1v3/cache/common/cache/PerRedisCacheManager.java:207-214 | for a fixed draw, less remaining time never turns a refresh decision off |
| `PerCache.ShouldRecomputeMonotoneInCost` | src/main/java/com/f1v3/cache/common/cache/PerRedisCacheManager.java:207-214 | for a fixed draw and non-negative beta, a costlier last computation never turns a refresh decision off |
| `PerCache.AcquireLock` | src/main/java/com/f1v3/cache/common/cache/PerRedisCacheManager.java:103-109 | the token comes back exactly when the lock marker was absent, and then the marker holds the token with the given TTL; otherwise nothing changes |
| `PerCache.ReleaseLock` | src/main/java/com/f1v3/cache/common/cache/PerRedisCacheManager.java:111-124 | the release succeeds exactly when the marker holds this token and the store accepts the script; only then is the marker removed; a store error reads as not released |
| `PerCache.ReleaseKeepsOthersLock` | src/main/java/com/f1v3/cache/common/cache/PerRedisCacheManager.java:111-124 | a caller never removes a lock marker that holds another token |
| `PerCache.AcquireThenRelease` | src/main/java/com/f1v3/cache/common/cache/PerRedisCacheManager.java:103-124 | acquiring a free lock and releasing it with the same token gives back the original store |
| `PerCache.Put` | src/main/java/com/f1v3/cache/common/cache/PerRedisCacheManager.java:172-196 | a write fails exactly when the value cannot be serialized or the set script is rejected, and then nothing is written; otherwise the serialized value and the cost are stored with the configured TTL, and no other key changes |
| `PerCache.PutThenRead` | src/main/java/com/f1v3/cache/common/cache/PerRedisCacheManager.java:172-188 | the next read after a write is a hit with the written text, the written cost and the configured TTL |
| `PerCache.Deserialize` | src/main/java/com/f1v3/cache/common/cache/PerRedisCacheManager.java:164-170 | a decoding failure becomes an error; otherwise the decoded (possibly null) value is returned |
| `PerCache.TryRecomputeSingleFlight` | src/main/java/com/f1v3/cache/common/cache/PerRedisCacheManager.java:81-101 | a caller that finds the lock taken never recomputes and changes nothing; the lock winner recomputes once, between acquire and release; a value comes back exactly when this caller won the lock and its recomputed non-null value was serialized and written, and it is that value; a rejected lock attempt is the only error |
| `PerCache.RetryGetFromCacheOrFail` | src/main/java/com/f1v3/cache/common/cache/PerRedisCacheManager.java:64-78 | at most two re-reads and nothing else; a success is the decoded data of the last read; exhaustion means every re-read was made and the last one missed |
| `PerCache.RecomputeOrWait` | src/main/java/com/f1v3/cache/common/cache/PerRedisCacheManager.java:40-47 | after a miss: the leader's written non-null value is returned with no re-read; otherwise (a follower, a null or unserializable value, a throwing recomputer, a failed write) the caller re-reads, and a success is the decoded data of the last re-read; a failure is exhausted re-reads, a failed re-read or a rejected lock attempt; the recomputer runs only right after this caller won the lock, at most once, and the cache is read at most three times |
| `PerCache.Get` | src/main/java/com/f1v3/cache/common/cache/PerRedisCacheManager.java:35-78 | a hit is served from the cache with no lock, recompute or write; a miss returns the leader's own value or the decoded data of a later re-read, and a caller without the leader's value always re-reads; every failure is a CacheException caused by a failed read, exhausted re-reads or a rejected lock attempt; the single-flight properties and the bound on reads hold for every read |
| `PerCache.ColdKeyLeader` | src/main/java/com/f1v3/cache/common/cache/PerRedisCacheManager.java:35-101 | on a cold key the lock winner returns the recomputed value, writes it with its cost and TTL, and releases the lock |
| `PerCache.FailedLeaderReleasesAndExhausts` | src/main/java/com/f1v3/cache/common/cache/PerRedisCacheManager.java:64-101 | a leader whose recompute throws still releases the lock; with no other writer it fails after two re-reads and leaves the store as it was |
| `PerCache.FollowerServesConcurrentWrite` | src/main/java/com/f1v3/cache/common/cache/PerRedisCacheManager.java:64-86 | a caller that finds the lock taken serves the value another process writes during its first back-off |
| `PerCache.SequentialFollowerExhausts` | src/main/java/com/f1v3/cache/common/cache/PerRedisCacheManager.java:64-86 | with no other writer, a follower fails after two re-reads, never calls the recomputer and changes nothing |
| `PerCache.GetIgnoresRefreshDraw` | src/main/java/com/f1v3/cache/common/cache/PerRedisCacheManager.java:49-57 | the early-refresh draw never changes what a read does |
| `PerCache.SecondReadServesFirst` | src/main/java/com/f1v3/cache/common/cache/PerRedisCacheManager.java:35-61 | once a leader has filled a cold key, the next read serves that value from the cache after a single read |
| `RedisStore.SetIfAbsentClaimsOnce` | src/main/java/com/f1v3/cache/common/cache/PerRedisCacheManager.java:103-109 | after a SET NX that wrote, a second one on the same key with any value is refused and changes nothing, and GET reads the first value |
| `RedisStore.UnlockReleasesOnlyItsOwnClaim` | src/main/java/com/f1v3/cache/common/cache/PerRedisCacheManager.java:111-124 | after a claim with one token, unlocking with another token deletes nothing; unlocking with the owner's token deletes the key, after which GET finds nothing and a second unlock deletes nothing |
| `RedisStore.IncrCountsUp` | src/main/java/com/f1v3/cache/repository/RedisCommand.java:28-29 | after INCR, GET reads one more than before, a missing counter reading as 0, and every other key reads as before |
| `RedisStore.ExpireKeepsValues` | src/main/java/com/f1v3/cache/repository/RedisCommand.java:28-31 | setting an expiry changes no value GET can see, and setting the same expiry twice is setting it once |
| `RedisStore.LookupAfterSetValue` | src/main/java/com/f1v3/cache/repository/RedisCommand.java:20-22 | GET after SET reads the value just written, and every other key reads as before |
| `CircuitBreaker.WithMaxFailures` | src/main/java/com/f1v3/cache/common/circuitbreaker/SimpleCircuitBreaker.java:15-25 | a new breaker is CLOSED with no failures |
| `CircuitBreaker.Default` | src/main/java/com/f1v3/cache/common/circuitbreaker/SimpleCircuitBreaker.java:19-21 | the default breaker allows three failures |
| `CircuitBreaker.OnSuccess` | src/main/java/com/f1v3/cache/common/circuitbreaker/SimpleCircuitBreaker.java:55-59 | a success resets the breaker to a fresh one with the same limit |
| `CircuitBreaker.OnFailure` | src/main/java/com/f1v3/cache/common/circuitbreaker/SimpleCircuitBreaker.java:61-69 | a failure adds one to the count (32-bit); the breaker is OPEN afterwards exactly when it was OPEN before or the count now exceeds the limit |
| `CircuitBreaker.Execute` | src/main/java/com/f1v3/cache/common/circuitbreaker/SimpleCircuitBreaker.java:30-53 | OPEN: only the fallback runs and the breaker is untouched; a success returns the main result and resets the breaker; a failure counts once and returns the fallback's result |
| `CircuitBreaker.RunStaysReachable` | src/main/java/com/f1v3/cache/common/circuitbreaker/SimpleCircuitBreaker.java:30-69 | along any run of calls from a new breaker, HALF_OPEN is never entered, OPEN implies the count exceeds the limit, and once OPEN the breaker never changes again |
| `CircuitBreaker.StateQueriesAgree` | src/main/java/com/f1v3/cache/common/circuitbreaker/SimpleCircuitBreaker.java:72-86 | `isOpen` and `isClosed` read `getState`, and on a reachable breaker exactly one of them holds |
| `CircuitBreaker.ConsecutiveFailures` | src/main/java/com/f1v3/cache/common/circuitbreaker/SimpleCircuitBreaker.java:61-69 | for a limit from 0 below `Integer.MAX_VALUE`, after k failures from a new breaker the count is k, capped at limit + 1, and the breaker is OPEN exactly when k exceeds the limit |
| `CircuitBreaker.SearchFacadeOpensOnFourthFailure` | src/main/java/com/f1v3/cache/service/SearchBookFacade.java:20 | the search facade's breaker stays CLOSED after three failures and is OPEN after four |
| `ThresholdCache.CountAndDataKeysNeverCollide` | src/main/java/com/f1v3/cache/common/cache/RedisCacheManager.java:103-109 | no counter key equals any data key |
| `ThresholdCache.CountKeyInjective` | src/main/java/com/f1v3/cache/common/cache/RedisCacheManager.java:103-105 | distinct keys get distinct counter keys |
| `ThresholdCache.DataKeyInjective` | src/main/java/com/f1v3/cache/common/cache/RedisCacheManager.java:107-109 | distinct keys get distinct data keys |
| `ThresholdCache.GetCount` | src/main/java/com/f1v3/cache/common/cache/RedisCacheManager.java:83-87 | the stored count, 0 when no counter exists; fails exactly on a store error or a non-numeric counter |
| `ThresholdCache.IsThresholdReached` | src/main/java/com/f1v3/cache/common/cache/RedisCacheManager.java:95-97 | true exactly when the stored count is at least 5; fails exactly when reading the count fails |
| `ThresholdCache.GetFromCache` | src/main/java/com/f1v3/cache/common/cache/RedisCacheManager.java:35-49 | a response comes back exactly when the threshold is reached and the data key holds text that decodes to a non-null response; every error reads as empty |
| `ThresholdCache.IncrementCount` | src/main/java/com/f1v3/cache/common/cache/RedisCacheManager.java:51-55 | succeeds exactly when INCR and EXPIRE are accepted on a numeric or missing counter; then the count is one higher with a one-hour TTL; no other key, and no data key, ever changes |
| `ThresholdCache.AddToCache` | src/main/java/com/f1v3/cache/common/cache/RedisCacheManager.java:57-69 | an empty result or an unreached threshold stores nothing; a failed count read propagates; otherwise the serialized result is stored for 30 minutes, and a result that cannot be serialized or a failed write is swallowed with nothing stored |
| `ThresholdCache.Clear` | src/main/java/com/f1v3/cache/common/cache/RedisCacheManager.java:71-75 | clearing changes nothing |
| `ThresholdCache.AddThenGet` | src/main/java/com/f1v3/cache/common/cache/RedisCacheManager.java:35-69 | a result that was stored is served back by the next read, given a codec that round-trips it |
| `ThresholdCache.FifthAccessReachesThreshold` | src/main/java/com/f1v3/cache/common/cache/RedisCacheManager.java:51-97 | a fresh key has not reached the threshold after four accesses and has after the fifth |
| `QueryNormalizer.Keep` | src/main/java/com/f1v3/cache/common/normalizer/QueryNormalizer.java:34-36 | the kept characters all satisfy the class; a text entirely in the class is kept whole and one entirely outside it disappears |
| `QueryNormalizer.Trim` | src/main/java/com/f1v3/cache/common/normalizer/QueryNormalizer.java:30 | the result is empty exactly when every character is at most U+0020; otherwise it starts and ends with a character above U+0020 |
| `QueryNormalizer.Normalize` | src/main/java/com/f1v3/cache/common/normalizer/QueryNormalizer.java:29-39 | the key holds only Hangul syllables, ASCII lower-case letters and digits; a null or blank query gives `""` |
| `QueryNormalizer.NormalizeIsFilteredLowercase` | src/main/java/com/f1v3/cache/common/normalizer/QueryNormalizer.java:29-39 | the key is exactly the allowed characters of the lower-cased query; the blank check and the whitespace pass change nothing the last filter keeps |
| `QueryNormalizer.NormalizeIdempotent` | src/main/java/com/f1v3/cache/common/normalizer/QueryNormalizer.java:29-39 | normalizing a key gives the same key |
| `QueryNormalizer.NormalizeIgnoresCase` | src/main/java/com/f1v3/cache/common/normalizer/QueryNormalizer.java:35 | queries that differ only in ASCII letter case share a key |
| `QueryNormalizer.NormalizeIgnoresDisallowed` | src/main/java/com/f1v3/cache/common/normalizer/QueryNormalizer.java:34-36 | inserting anywhere a character that is not allowed once lower-cased leaves the key unchanged |
| `QueryNormalizer.NormalizeConcatenates` | src/main/java/com/f1v3/cache/common/normalizer/QueryNormalizer.java:34-36 | the key of a concatenation is the concatenation of the keys |
| `QueryNormalizer.NormalizeExampleMixedCase` | src/main/java/com/f1v3/cache/common/normalizer/QueryNormalizer.java:29-39 | `"Spring Boot"` becomes `"springboot"` |
| `QueryNormalizer.NormalizeExampleBlank` | src/main/java/com/f1v3/cache/common/normalizer/QueryNormalizer.java:30-32 | a query of spaces and tabs becomes `""` |
| `QueryNormalizer.NormalizeExampleHangul` | src/main/java/com/f1v3/cache/common/normalizer/QueryNormalizer.java:29-39 | `"C++ 프로그래밍!"` becomes `"c프로그래밍"` |
| `QueryNormalizer.NormalizeExampleDottedCapital` | src/main/java/com/f1v3/cache/common/normalizer/QueryNormalizer.java:35-36 | U+0130 followed by `T` becomes `"it"`: the combining dot that lower-casing adds is filtered out |
| `JavaText.ToLower` | src/main/java/com/f1v3/cache/common/normalizer/QueryNormalizer.java:35 | lower-casing leaves no ASCII capital; without U+0130 it maps each character on its own and keeps the length |
| `JavaText.ToLowerIdempotent` | src/main/java/com/f1v3/cache/clients/test/TestSearchBookAdapter.java:126 | lower-casing twice is lower-casing once |
| `JavaText.ToLowerOfToUpper` | src/main/java/com/f1v3/cache/clients/test/TestSearchBookAdapter.java:126 | upper-casing first does not change the lower-cased text |
| `JavaText.Wrap32` | src/main/java/com/f1v3/cache/clients/test/TestSearchBookAdapter.java:60 | the result is a 32-bit value congruent to the input modulo 2^32, and equal to it when the input fits |
| `JavaText.JavaRem` | src/main/java/com/f1v3/cache/clients/test/TestSearchBookAdapter.java:108 | the remainder takes the sign of the dividend and is smaller than the divisor in magnitude |
| `JavaText.DecimalTextRoundTrip` | src/main/java/com/f1v3/cache/clients/test/TestSearchBookAdapter.java:119 | reading back the decimal text of a number gives the number |
| `TestSearchBookAdapter.ListGet` | src/main/java/com/f1v3/cache/clients/test/TestSearchBookAdapter.java:108 | an element exactly for an index inside the list; otherwise an index error |
| `TestSearchBookAdapter.DetermineTotalResults` | src/main/java/com/f1v3/cache/clients/test/TestSearchBookAdapter.java:79-89 | the count lies in the range of the lower-cased query's case (150-199, 200-299, 80-119, 50-79, 60-84, otherwise 20-49) |
| `TestSearchBookAdapter.TotalResultsRange` | src/main/java/com/f1v3/cache/clients/test/TestSearchBookAdapter.java:79-89 | a count is reachable by some draw exactly when it lies in the query's range |
| `TestSearchBookAdapter.CapitalizeFirst` | src/main/java/com/f1v3/cache/clients/test/TestSearchBookAdapter.java:122-127 | the empty text stays empty; otherwise the first character is upper-cased and the rest lower-cased |
| `TestSearchBookAdapter.CapitalizeFirstIdempotent` | src/main/java/com/f1v3/cache/clients/test/TestSearchBookAdapter.java:122-127 | capitalizing twice is capitalizing once |
| `TestSearchBookAdapter.CapitalizeFirstIgnoresCase` | src/main/java/com/f1v3/cache/clients/test/TestSearchBookAdapter.java:122-127 | the result does not depend on the ASCII case of the input |
| `TestSearchBookAdapter.CapitalizeFirstExample` | src/main/java/com/f1v3/cache/clients/test/TestSearchBookAdapter.java:122-127 | `"springboot"` becomes `"Springboot"` |
| `TestSearchBookAdapter.GenerateTitle` | src/main/java/com/f1v3/cache/clients/test/TestSearchBookAdapter.java:107-116 | a non-negative index gives the query title or the volume title of that index; the call throws exactly for a negative index that is not a multiple of 12 |
| `TestSearchBookAdapter.GenerateThumbnailUrl` | src/main/java/com/f1v3/cache/clients/test/TestSearchBookAdapter.java:118-120 | a non-negative index below the `int` maximum gets the placeholder URL ending in index + 1 |
| `TestSearchBookAdapter.ThumbnailsDistinct` | src/main/java/com/f1v3/cache/clients/test/TestSearchBookAdapter.java:118-120 | different indexes get different thumbnail URLs |
| `TestSearchBookAdapter.GenerateBook` | src/main/java/com/f1v3/cache/clients/test/TestSearchBookAdapter.java:96-101 | one book is built exactly when the index is non-negative or a multiple of 12 |
| `TestSearchBookAdapter.Collect` | src/main/java/com/f1v3/cache/clients/test/TestSearchBookAdapter.java:92-104 | the loop succeeds when every step does, and then the k-th book is the step's book at index from + k; a failure is some step's exception |
| `TestSearchBookAdapter.GenerateBookIsBookAt` | src/main/java/com/f1v3/cache/clients/test/TestSearchBookAdapter.java:96-101 | at a non-negative index the book has that index's title, author, drawn date and thumbnail |
| `TestSearchBookAdapter.GenerateBooks` | src/main/java/com/f1v3/cache/clients/test/TestSearchBookAdapter.java:91-105 | from a non-negative start it succeeds with one book per index up to the end, the k-th being the book of index start + k |
| `TestSearchBookAdapter.NegativeRangeThrows` | src/main/java/com/f1v3/cache/clients/test/TestSearchBookAdapter.java:91-108 | a range of at least two indexes that starts below zero always throws |
| `TestSearchBookAdapter.StartIndex` | src/main/java/com/f1v3/cache/clients/test/TestSearchBookAdapter.java:60 | the start index is a 32-bit value, equal to (page - 1) * 10 while that fits |
| `TestSearchBookAdapter.SearchPage` | src/main/java/com/f1v3/cache/clients/test/TestSearchBookAdapter.java:56-77 | the page information reports the `int` end test, the total as pageable and total count, and the page asked for |
| `TestSearchBookAdapter.GenerateTestSearchResult` | src/main/java/com/f1v3/cache/clients/test/TestSearchBookAdapter.java:37-77 | the reported total lies in 20..299, equals the pageable count, and the page is echoed |
| `TestSearchBookAdapter.PageContents` | src/main/java/com/f1v3/cache/clients/test/TestSearchBookAdapter.java:56-77 | for at most 1000 results, a page from 1 up to 214748364 holds the books of indexes (page-1)*10 onwards, cut at the total; it is the end exactly when it reaches the total, and a page that is not the end is full |
| `TestSearchBookAdapter.NonPositivePageThrows` | src/main/java/com/f1v3/cache/clients/test/TestSearchBookAdapter.java:60-63 | pages 0 and below throw while the page arithmetic does not wrap |
| `TestSearchBookAdapter.OverflowPageClaimsMore` | src/main/java/com/f1v3/cache/clients/test/TestSearchBookAdapter.java:60-67 | page 214748365 comes back empty but not marked as the end |
| `TestSearchBookAdapter.SearchPageExact` | src/main/java/com/f1v3/cache/clients/test/TestSearchBookAdapter.java:56-77 | with exact arithmetic every positive page succeeds |
| `TestSearchBookAdapter.ExactPagesKeepPromise` | src/main/java/com/f1v3/cache/clients/test/TestSearchBookAdapter.java:59-67 | with exact arithmetic a page that is not the end is full and an empty page is the end |
| `TestSearchBookAdapter.ExactAgreesBelowOverflow` | src/main/java/com/f1v3/cache/clients/test/TestSearchBookAdapter.java:56-77 | exact and `int` arithmetic give the same result for every page whose arithmetic does not wrap |
| `KakaoBook.IndexOfFrom` | src/main/java/com/f1v3/cache/clients/kakao/response/KakaoSearchBookDTO.java:34 | the first position of the pattern at or after the start, or -1 exactly when there is none |
| `KakaoBook.IndexOf` | src/main/java/com/f1v3/cache/clients/kakao/response/KakaoSearchBookDTO.java:34 | the first position of the pattern, or -1 exactly when it does not occur |
| `KakaoBook.ExtractThumbnailFileName` | src/main/java/com/f1v3/cache/clients/kakao/response/KakaoSearchBookDTO.java:27-39 | a blank thumbnail gives `""`; otherwise the decoded text after the first `fname=`, or after position 5 when there is none, and `""` when the cut or the decoding fails |
| `KakaoBook.FirstMarkerAfter` | src/main/java/com/f1v3/cache/clients/kakao/response/KakaoSearchBookDTO.java:34 | appending the marker to a text without it puts the first occurrence right after that text |
| `KakaoBook.ExtractRecoversEncodedName` | src/main/java/com/f1v3/cache/clients/kakao/response/KakaoSearchBookDTO.java:27-39 | a thumbnail URL that carries a URL-encoded file name after its only marker gives back that file name |
| `KakaoBook.ExtractShortThumbnail` | src/main/java/com/f1v3/cache/clients/kakao/response/KakaoSearchBookDTO.java:27-39 | a thumbnail shorter than six characters gives `""` |
| `KakaoBook.ConvertAuthor` | src/main/java/com/f1v3/cache/clients/kakao/KakaoBookAdapter.java:63-65 | the first author, or "작자 미상" when there is none |
| `KakaoBook.ConvertPublishedDate` | src/main/java/com/f1v3/cache/clients/kakao/KakaoBookAdapter.java:67-69 | the date part of the timestamp, or 1970-01-01 when it is absent |
| `KakaoBook.ConvertBook` | src/main/java/com/f1v3/cache/clients/kakao/KakaoBookAdapter.java:45-49 | title copied, author, date and thumbnail converted |
| `KakaoBook.ConvertBooks` | src/main/java/com/f1v3/cache/clients/kakao/KakaoBookAdapter.java:42-51 | one converted book per document, in order |
| `KakaoBook.ConvertBooksAppend` | src/main/java/com/f1v3/cache/clients/kakao/KakaoBookAdapter.java:42-51 | converting a concatenation converts each part: nothing is reordered, dropped or merged |
| `KakaoBook.ConvertPageInfo` | src/main/java/com/f1v3/cache/clients/kakao/KakaoBookAdapter.java:53-61 | the counts and end flag come from the API, the page from the caller |
| `KakaoBook.ConvertResponse` | src/main/java/com/f1v3/cache/clients/kakao/KakaoBookAdapter.java:34-40 | the books and the page information are the converted documents and meta |
| `KakaoBook.Request` | src/main/java/com/f1v3/cache/clients/kakao/KakaoBookAdapter.java:19-29 | the API is asked for ten results sorted by accuracy, with the caller's query and page |
| `KakaoBook.Search` | src/main/java/com/f1v3/cache/clients/kakao/KakaoBookAdapter.java:23-32 | one book per returned document, in order; the end flag from the API; the page asked for |
| `KakaoBook.SearchEchoesPage` | src/main/java/com/f1v3/cache/clients/kakao/KakaoBookAdapter.java:23-32 | the result reports the requested page, whatever the API says, and as many books as the API returned for the fixed request |
| `UrlDecoding.ParseEscape` | src/main/java/com/f1v3/cache/clients/kakao/response/KakaoSearchBookDTO.java:35 | two hex digits give their byte; a `+` sign reads the second digit alone, `-0` reads as 0, anything else is rejected |
| `UrlDecoding.Utf8RoundTrip` | src/main/java/com/f1v3/cache/clients/kakao/response/KakaoSearchBookDTO.java:35 | decoding the UTF-8 encoding of a text gives the text back |
| `UrlDecoding.Decode` | src/main/java/com/f1v3/cache/clients/kakao/response/KakaoSearchBookDTO.java:35 | a text without `%` always decodes, to a text of the same length |
| `UrlDecoding.DecodePlain` | src/main/java/com/f1v3/cache/clients/kakao/response/KakaoSearchBookDTO.java:35 | a text without `%` or `+` decodes to itself |
| `UrlDecoding.DecodeEncode` | src/main/java/com/f1v3/cache/clients/kakao/response/KakaoSearchBookDTO.java:35 | decoding the URL encoding of any text gives the text back |
| `UrlDecoding.EncodeOnlyEscapesWhole` | src/main/java/com/f1v3/cache/clients/kakao/response/KakaoSearchBookDTO.java:35-38 | an encoded file name never makes the decoder throw |
| `UrlDecoding.DecodeRejects` | src/main/java/com/f1v3/cache/clients/kakao/response/KakaoSearchBookDTO.java:35-38 | a truncated escape, a non-hex digit and a negative signed escape make the decoder throw |
| `UrlDecoding.CutSurrogateIsOneReplacement` | src/main/java/com/f1v3/cache/clients/kakao/response/KakaoSearchBookDTO.java:35 | the bytes `ED A0..BF` cut off before a third continuation byte decode to one U+FFFD, as the JDK's decoder treats them |
| `UrlDecoding.WholeSurrogateIsOneReplacement` | src/main/java/com/f1v3/cache/clients/kakao/response/KakaoSearchBookDTO.java:35 | a whole encoded surrogate `ED A0..BF 80..BF` decodes to one U+FFFD |
| `UrlDecoding.DecodeEscapedSurrogate` | src/main/java/com/f1v3/cache/clients/kakao/response/KakaoSearchBookDTO.java:35 | `%ED%A0`, `%ED%A0%80` and `%ED%A0A` decode to one U+FFFD, the last followed by `A` |
| `UrlDecoding.DecodeSignedEscapes` | src/main/java/com/f1v3/cache/clients/kakao/response/KakaoSearchBookDTO.java:35 | `%+1%-0` decodes to the characters U+0001 and U+0000 |
| `SearchBookResponse.From` | src/main/java/com/f1v3/cache/dto/SearchBookResponse.java:13-29 | every book, in order, with each field copied, and every page field copied |
| `SearchBookResponse.FromLosesNothing` | src/main/java/com/f1v3/cache/dto/SearchBookResponse.java:13-29 | copying back gives the original search result |
| `SearchBookResponse.FromIsOnto` | src/main/java/com/f1v3/cache/dto/SearchBookResponse.java:13-29 | every response is the copy of some search result |
| `SearchBookResponse.FromInjective` | src/main/java/com/f1v3/cache/dto/SearchBookResponse.java:13-29 | distinct search results give distinct responses |

## Left out

- Time:
  - Clocks, sleeping, back-off jitter and TTL expiry are not modelled. No key expires inside a read.
  - The recomputation cost is an input.
  - The PER draw is the real number `-ln(u)`. Floating point, `Math.log` and the `long`-to-`double` conversion are not modelled.
- Concurrency:
  - Other processes act only during the back-off sleeps, through `others`. A write between the first read and the lock attempt is not modelled.
  - The circuit breaker's atomics are updated one call at a time.
  - TTL-driven hand-over of a lock is not modelled.
- Redis scripts: the Lua scripts behind the three PER script beans are not part of this model. Each is the atomic operation the manager expects of it:
  - the cache-get script returns value, delta and remaining TTL;
  - the cache-set script stores both keys with the configured TTL;
  - the unlock script is compare-and-delete.
- Code that is not modelled:
  - The Jackson mapper is an abstract codec.
  - The Spring wiring and configuration classes, and the Feign client.
  - Logging.
  - The request counter of the test adapter.
  - The callers: controller, use case, facade. Only the facade's breaker limit is used.
- Unused code: `recomputeAndCache` is never called, so it is left out.
- Locale: the default locale is assumed not to be Turkish, Azeri or Lithuanian.
- Case mapping: only these Unicode case mappings are modelled:
  - ASCII letters;
  - the Kelvin sign to `k`;
  - U+0130 to `i` plus U+0307.

  Other letters keep their case. This is exact for the cache key, because the final filter keeps only ASCII lower-case letters, digits and Hangul. It is not exact for the test adapter's titles, such as `capitalizeFirst` of "éa" or "ß".
- Strings are sequences of code points, not of UTF-16 units. `indexOf`, `substring` and `URLDecoder` positions are therefore exact only for text in the Basic Multilingual Plane.
- `UrlDecoding.ParseEscape`: accepts only ASCII hex digits. `Character.digit` also accepts full-width and other Unicode digits.
- Null values:
  - Null thumbnails, author lists, document lists and book lists are not modelled. They would throw, or in `isCacheable` return false.
  - A null query makes `determineTotalResults` throw before `capitalizeFirst` is reached, so only non-null queries are modelled there.
- `TestSearchBookAdapter.GenerateBooks`: the publication date of each book is a draw and is not tied to the clock.
- `TestSearchBookAdapter.DetermineTotalResults`: takes `nextInt`'s result as an input in range. It states the range, not the distribution.
- `TestSearchBookAdapter.GenerateTitle`: `String.format`'s `%d` is taken to print ASCII digits, that is, a default locale with Latin digits.
- `PerCache.ShouldRecompute`: a `null` remaining TTL and a missing delta are read as absent fields. Integer-to-`Long` reply widths are unbounded integers.
- `ThresholdCache.GetCount`: a counter is a stored number. The `Long.parseLong` of its text form is not modelled, nor are counters beyond `long`.

## Findings

| source | as written | input that shows it | evidently intended | confidence | as-written member | corrected member |
|---|---|---|---|---|---|---|
| src/main/java/com/f1v3/cache/clients/test/TestSearchBookAdapter.java:60-67 | `startIndex` and `startIndex + pageSize` are `int` arithmetic, and the page number comes from the request unchecked | page 214748365: `startIndex` is 2147483640 and `startIndex + 10` wraps to -2147483646, so the page has no books but `isEnd` is false | a page past the last result is empty and reports the end | not executed | `TestSearchBookAdapter.OverflowPageClaimsMore` | `TestSearchBookAdapter.ExactPagesKeepPromise` |
