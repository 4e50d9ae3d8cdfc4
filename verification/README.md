# devbriefs-news core, modelled in Dafny

A model of the statable core of a small security-news fetcher. The fetcher queries a
news-search API for hacking news, removes near-duplicate headlines, keys articles by
the hex MD5 of their titles, writes them through to a cache with a 24-hour expiry,
and serves them over HTTP. The model covers six pieces of that code:

- **Title similarity** (`Similarity`, with `Utf8`): the edit distance over code points,
  normalised by the larger length. As the Go code does, the normaliser is the UTF-8 *byte*
  length. Insertion and deletion cost 1. The cost of substituting one code point for a
  different one is a parameter, because the distance library's cost table is not part of
  this model.
- **Bounded fetch** (`GoogleNews`): the `select` between the 500 ms deadline (or the parent
  context's cancellation) and the worker's response. It is modelled as a decision over the
  first event, from event times given as inputs.
- **Title-keyed map** (`GoogleNewsLegacy`, with `Hex`): the earlier fetcher revision. It builds
  a map from `%x` of `md5.Sum([]byte(title))` to the article. MD5 is an input function
  returning 16 bytes.
- **Fetch pipeline** (`FetchEverything`, with `Calendar` and `Decimal`): the error cascade
  URL build → GET → decode → de-duplicate. It also covers the nine fixed query parameters and
  the one-week `from`/`to` window, written in the `2006-01-02` layout. The collaborators are
  inputs.
- **Cache write-through** (`NewsHandler`): the per-key marshal/store loop over the fetched
  map, into an abstract key → (value, expiry) cache. It also covers the handler's HTTP answer.
- **Configuration** (`Config`): rejection of an empty API key.

`Models` mirrors the article record. `Basics` holds Go's nil-able values and `error`s. Go's
nil slice, map or error is `None`. `Dedup` holds `KeepFirst`, an assumed keep-first stand-in
for the library's `nlp.RemoveDuplicates`. The pipeline takes the real filter as a parameter.
The stand-in is used only to check the pipeline's test expectation.

Facts about the Go code that shape the model:

- the similarity normaliser counts bytes, not characters (see Findings);
- the result channel is unbuffered (internal/api/google_news.go:43), so a worker that
  finishes after the `select` has returned blocks on its send forever;
- the daily loop exits the process on a fetch error (main.go:95-97; left out, below).

The test expecting `flaw`/`lawn` to score 0.75 is not modelled. With unit-cost edits their
distance is 2, which gives 0.5.

## Model

| member | source | states |
|---|---|---|
| `Similarity.ComputeDistance` | internal/utils/similarity.go:10 | the row-by-row dynamic-programming table computes exactly `Distance`, the recursive edit distance of `levenshtein.DistanceForStrings` over code points (insert/delete 1, substitution a parameter, 0 for identical code points) |
| `Similarity.NextRow` | internal/utils/similarity.go:10 | one pass over the second title turns the table row for the first `i` code points into the row for `i + 1` |
| `Similarity.MaxInt` | internal/utils/similarity.go:20-25 | the result is one of the two arguments and is at least both |
| `Similarity.MaxIntSymmetric` | internal/utils/similarity.go:20-25 | `maxInt` does not depend on argument order |
| `Similarity.CalculateSimilarity` | internal/utils/similarity.go:9-17 | the score never exceeds 1, and two empty titles score exactly 1 through the zero-length guard |
| `Similarity.DistanceSelf` | internal/utils/similarity.go:10 | a string is at distance 0 from itself |
| `Similarity.DistanceSymmetric` | internal/utils/similarity.go:10 | with equal insert and delete costs the distance is symmetric |
| `Similarity.DistanceLowerBound` | internal/utils/similarity.go:10 | the distance is at least the difference of the code-point counts |
| `Similarity.DistanceAtMostSum` | internal/utils/similarity.go:10 | the distance is at most the sum of the code-point counts |
| `Similarity.DistanceAtMostLonger` | internal/utils/similarity.go:10 | with a substitution cost of at most 1, the distance is at most the longer code-point count |
| `Similarity.DistanceAppendOne` | internal/utils/similarity.go:10 | appending one code point is at distance exactly 1 |
| `Similarity.DistanceLastDiffers` | internal/utils/similarity.go:10 | strings differing only in the last code point are at most 2 apart, whatever the substitution cost |
| `Similarity.DistanceNoCommon` | internal/utils/similarity.go:10 | strings with no code point in common are at least the longer length apart, and exactly the sum apart once a substitution costs 2 or more |
| `Similarity.SimilaritySelf` | internal/utils/similarity.go:10-16 | a title compared with itself scores 1 |
| `Similarity.SimilaritySymmetric` | internal/utils/similarity.go:10-11 | swapping the arguments leaves the score unchanged |
| `Similarity.SimilarityNonNegative` | internal/utils/similarity.go:10-16 | with a substitution cost of at most 1 the score is at least 0 |
| `Similarity.SimilarityEmptyVersusAscii` | internal/utils/similarity_test.go:16-17 | empty against a non-empty ASCII title scores 0, in either order |
| `Similarity.SimilarityAppendOneAscii` | internal/utils/similarity.go:10-16 | appending one ASCII character to an ASCII title of n characters scores 1 - 1/(n+1) |
| `Similarity.SimilarityAbcAbcd` | internal/utils/similarity_test.go:21 | "abc" against "abcd" scores 0.75 for every substitution cost |
| `Similarity.SimilarityDisjointDependsOnCost` | internal/utils/similarity_test.go:20 | two equal-length ASCII titles with no character in common (such as "abc" and "def") score 0 at substitution cost 1 but -1 at cost 2, so that expectation rests on the library's cost table |
| `Similarity.SimilarityAsciiAgrees` | internal/utils/similarity.go:10-11 | on ASCII titles the byte-length normaliser equals the code-point normaliser |
| `Similarity.ByteNormaliserCounterexample` | internal/utils/similarity.go:11 | "" against "é" scores 0.5 as written, where the code-point normaliser gives 0 |
| `Similarity.RuneSimilarity` | internal/utils/similarity.go:9-17 | corrected score normalised by code points: at most 1, and 1 for two empty titles |
| `Similarity.RuneSimilaritySelf` | internal/utils/similarity.go:10-16 | corrected score of a title against itself is 1 |
| `Similarity.RuneSimilaritySymmetric` | internal/utils/similarity.go:10-11 | corrected score is symmetric |
| `Similarity.RuneSimilarityEmptyVersusNonEmpty` | internal/utils/similarity_test.go:16-17 | corrected score of empty against any non-empty title is 0, whatever its alphabet |
| `Similarity.RuneSimilarityInUnitRange` | internal/utils/similarity.go:13-16 | corrected score lies in [0, 1] when a substitution costs at most 1 |
| `Similarity.RuneSimilarityLastDiffers` | internal/utils/similarity.go:10-16 | titles of n code points differing only in the last one score at least 1 - 2/n |
| `Utf8.ByteLenVersusRuneCount` | internal/utils/similarity.go:10-11 | `ByteLen`, Go's `len` on a string, is at least the code-point count, and equal to it exactly when the text is ASCII |
| `Utf8.Encode` | api/google_news_api.go:62 | `[]byte(title)` has `len(title)` bytes |
| `Utf8.DecodeEncode` | internal/utils/similarity.go:10 | decoding the UTF-8 bytes (`[]rune`) gives back the original code points |
| `Hex.HexLower` | api/google_news_api.go:62 | `%x` writes two characters per byte, each from 0-9a-f |
| `Hex.ParseHexLower` | api/google_news_api.go:62 | the `%x` text reads back to the bytes it renders |
| `Hex.HexLowerInjective` | api/google_news_api.go:62 | different digests give different keys |
| `Decimal.FormatIntRoundTrip` | internal/service/fetch_everything.go:60-61 | `FormatInt`, the zero-padded field rendering `time` uses for a date, reads back to its value |
| `Decimal.FormatIntFixedWidth` | internal/service/fetch_everything.go:60-61 | a value below 10^w fills exactly w digits |
| `Calendar.AddDays` | internal/service/fetch_everything.go:60 | `AddDate(0, 0, k)` always lands on a valid calendar date |
| `Calendar.AddDaysNumber` | internal/service/fetch_everything.go:60 | `AddDays(d, k)`, as `AddDate(0, 0, k)`, lands exactly `k` day numbers from `d`, counted independently as days since 0000-01-01 (`DayNumber`), forward or back |
| `Calendar.NextDayNumber` | internal/service/fetch_everything.go:60 | `NextDay` advances the day number by exactly one, across month ends, leap days and year ends |
| `Calendar.LeapsBeforeClosedForm` | internal/service/fetch_everything.go:60 | the year-by-year Gregorian leap count used by `DayNumber` equals the closed form: multiples of 4, less those of 100, plus those of 400 |
| `Calendar.DayNumberEpoch` | internal/service/fetch_everything.go:60 | the day count puts 1970-01-01 at day 719528, the Unix epoch's place in the proleptic Gregorian calendar |
| `Calendar.AddDaysBackYear` | internal/service/fetch_everything.go:60 | stepping back `n` days lowers the year by at most `n` |
| `Calendar.NextPrevInverse` | internal/service/fetch_everything.go:60 | a day back then a day forward (and the reverse) is the identity, across month and year ends |
| `Calendar.AddDaysInverse` | internal/service/fetch_everything.go:60-61 | n days back then n days forward returns to the same date |
| `Calendar.ParseFormatDate` | internal/service/fetch_everything.go:60-61 | `FormatDate`, the `Format("2006-01-02")` rendering: a date with a four-digit year renders in 10 characters and parses back to itself |
| `Dedup.KeepFirst` | internal/service/fetch_everything.go:99 | assumed stand-in: keeps only input articles, never more of them, and always the first |
| `Dedup.KeepFirstDistinct` | internal/service/fetch_everything.go:99 | assumed stand-in: no kept title is near an earlier kept title |
| `Dedup.KeepFirstCovers` | internal/service/fetch_everything.go:99 | assumed stand-in: every input article is kept or near a kept title |
| `Dedup.KeepFirstOfDistinct` | internal/service/fetch_everything.go:99 | assumed stand-in: an already distinct list passes unchanged |
| `Dedup.KeepFirstIdempotent` | internal/service/fetch_everything.go:99 | assumed stand-in: filtering twice equals filtering once |
| `FetchEverything.QueryFor` | internal/service/fetch_everything.go:46-52 | every news type, known or unknown, selects the hacking query |
| `FetchEverything.QueryParams` | internal/service/fetch_everything.go:64-73 | nine parameters under nine distinct names, so no `Add` overwrites another; `q` is always the hacking query and `apiKey` is the caller's key |
| `FetchEverything.FetchEverythingNews` | internal/service/fetch_everything.go:43-106 | exactly one of articles and error is non-nil; at most one GET is issued, and none exactly when the URL builder fails; every GET carries the fixed parameters |
| `FetchEverything.FetchCascade` | internal/service/fetch_everything.go:54-105 | the first failing collaborator's error is returned unchanged with nil articles; on success the articles are the filter's output at threshold 0.6 on "Title", with a nil error |
| `FetchEverything.NewsTypeIrrelevant` | internal/service/fetch_everything.go:46-52 | the result is the same for every news type |
| `FetchEverything.QueryWindowIsOneWeek` | internal/service/fetch_everything.go:59-73 | `to` reads back as today, and `from` reads back as a date seven days before it: seven `AddDays` steps short of today and exactly seven day numbers earlier |
| `FetchEverything.TestNewsKeepsFirst` | internal/service/fetch_everything_test.go:31-49 | with the keep-first stand-in, "Test News 1" then "Test News 2" yields only the first, with a nil error, at any substitution cost |
| `FetchEverything.HttpFailurePassesThrough` | internal/service/fetch_everything_test.go:50-58 | the GET error "http request error" comes back unchanged with nil articles |
| `GoogleNews.DoneAt` | internal/api/google_news.go:40 | the child context ends at the parent's cancellation if that comes before 500 ms, otherwise at 500 ms |
| `GoogleNews.ReturnsAt` | internal/api/google_news.go:54-61 | the caller returns no later than 500 ms, at the delivery when it wins and at the context's end otherwise |
| `GoogleNews.Worker` | internal/api/google_news.go:45-51 | the worker's message has exactly one of articles and error non-nil |
| `GoogleNews.Observe` | internal/api/google_news.go:54-61 | the delivery is the event observed exactly when it is ready no later than the context's end (ties by Go's random choice) |
| `GoogleNews.Select` | internal/api/google_news.go:54-61 | the deadline arm gives nil articles and the timeout error; the delivery arm gives the response unchanged |
| `GoogleNews.FetchEverythingHacking` | internal/api/google_news.go:38-62 | the worker's result when delivery wins, otherwise nil articles with the timeout error |
| `GoogleNews.ExactlyOneOutcome` | internal/api/google_news.go:46-61 | exactly one arm's outcome is returned, within 500 ms; the worker runs `FetchEverythingNews` with "hacking" and the API's own key and client |
| `GoogleNews.EarlyDeliveryIsReturned` | internal/api/google_news.go:58-59 | a response before the deadline and before any cancellation is returned as delivered |
| `GoogleNews.SilentWorkerTimesOut` | internal/api/google_news.go:56-57 | a worker that never answers yields nil articles and the timeout error at exactly 500 ms |
| `GoogleNews.ParentCancellationReportsTimeout` | internal/api/google_news.go:40-57 | cancelling the parent first takes the same arm, with the same timeout text, at the cancellation instant |
| `GoogleNewsLegacy.TitleKey` | api/google_news_api.go:62 | every key is 32 characters, each from 0-9a-f |
| `GoogleNewsLegacy.LastWithKey` | api/google_news_api.go:61-63 | reference definition: the last list position whose title hashes to a key (or -1) |
| `GoogleNewsLegacy.BuildTitleMapKeys` | api/google_news_api.go:61-63 | the key set of `BuildTitleMap`, the `range` loop filling the map, is exactly the hashes of the listed titles |
| `GoogleNewsLegacy.BuildTitleMapSize` | api/google_news_api.go:45-63 | the map never has more entries than the list has articles |
| `GoogleNewsLegacy.BuildTitleMapLastWins` | api/google_news_api.go:61-63 | each key holds the last article in list order whose title hashes to it |
| `GoogleNewsLegacy.TitleMapKeysAreHex` | api/google_news_api.go:62 | every key is 32 lower-case hex characters and is the key of some listed title |
| `GoogleNewsLegacy.TitleKeyParses` | api/google_news_api.go:62 | a key reads back as the title's 16-byte digest, so the hex rendering loses nothing |
| `GoogleNewsLegacy.SameTitleCollapses` | api/google_news_api.go:61-63 | articles with identical titles share one key, which holds an article no earlier than the later of them |
| `GoogleNewsLegacy.KeysSeparateWhenDigestsDiffer` | api/google_news_api.go:62 | two titles share a key exactly when their digests are equal |
| `GoogleNewsLegacy.FetchEverythingHacking` | api/google_news_api.go:39-67 | the timeout arm gives a nil map and the 500 ms error; the delivery arm gives the map the `range` loop builds over the delivered articles (so last write wins, by `BuildTitleMapLastWins`), keyed by the title hashes, never larger than the list, with the worker's error unchanged even when non-nil |
| `NewsHandler.WriteOne` | handlers/news_handler.go:21-28 | a key reaches the cache, with the 24-hour expiry, exactly when it marshals and the store accepts it; otherwise the cache is unchanged |
| `NewsHandler.WriteThroughAttempts` | handlers/news_handler.go:20-29 | in `WriteThrough`, the `range` loop over the map, every key in iteration order is attempted exactly once, and a failure on one key does not stop the rest |
| `NewsHandler.WriteThroughIsExpected` | handlers/news_handler.go:20-29 | the loop's final cache equals an order-free description of the writes |
| `NewsHandler.WriteThroughOrderIndependent` | handlers/news_handler.go:20-29 | any two iteration orders of the map leave the same cache |
| `NewsHandler.WriteThroughEffect` | handlers/news_handler.go:20-29 | written keys hold their marshalled value with the 24-hour expiry; failed keys and keys outside the map are untouched; a key that fails to marshal is never written |
| `NewsHandler.ErrorResponse` | handlers/news_handler.go:15 | `http.Error` answers status 500 with the error text and a newline |
| `NewsHandler.GetEveryHackingNews` | handlers/news_handler.go:12-36 | a fetch error answers 500 with the error text, with no cache write and no attempt; otherwise the cache and attempts are those of the write-through loop, so every key is attempted once in iteration order and the cache ends as the order-free reference describes; a successful encode answers 200 with the whole map as JSON, a failed one 500 with the encoder's error |
| `NewsHandler.ResponseIgnoresCacheFailures` | handlers/news_handler.go:31-35 | the answer does not depend on how the marshal and store calls fared |
| `NewsHandler.FetchErrorAnswers500` | handlers/news_handler_test.go:28-34 | the error "fetch error" answers 500 with body "fetch error\n" and leaves the cache unchanged |
| `Config.LoadConfig` | internal/config/config.go:14-29 | exactly one of config and error is non-nil; the error occurs exactly for the empty value, with the fixed message; otherwise the key is the value verbatim |
| `Config.LoadConfigExamples` | internal/config/config_test.go:20-28 | "test-api-key" is kept verbatim, a blank " " is accepted untrimmed, and "" gives no config |

## Findings

| source | as written | input that shows it | evidently intended | confidence | as-written member | corrected member |
|---|---|---|---|---|---|---|
| internal/utils/similarity.go:11 | the distance counts runes, but the normaliser `maxInt(len(a), len(b))` counts UTF-8 bytes | `CalculateSimilarity("", "é")` is 1 - 1/2 = 0.5, shown by `Similarity.ByteNormaliserCounterexample` | normalise by the rune count, so an empty title against any non-empty one scores 0 | medium (not executed) | `Similarity.CalculateSimilarity` | `Similarity.RuneSimilarity` |

The corrected score is the one `Dedup.SimilarAtLeast`, the nearness relation of the keep-first stand-in `Dedup.KeepFirst`, uses.
`Similarity.RuneSimilarityEmptyVersusNonEmpty` and `Similarity.RuneSimilarityInUnitRange`
prove the intended properties. On ASCII input both scores agree
(`Similarity.SimilarityAsciiAgrees`).

## Left out

- Daily scheduling loop (main.go:84-118): `TimeUntilNextRun` lives in a library that is not
  part of this model, and the loop is a `time.Sleep` inside a goroutine. As written, the loop
  exits the process on a fetch error (main.go:95-97). It also reschedules to 00:20, not 06:00
  (main.go:113).
- Goroutines and channels: only the `select`'s choice of first event is modelled. Both result
  channels are unbuffered (internal/api/google_news.go:43, api/google_news_api.go:44). So after
  a timeout the worker blocks forever on its send, a leaked goroutine the model does not show.
  The `err` shared across goroutines in main.go is also out of scope.
- `nlp.RemoveDuplicates` is a parameter of the pipeline. `Dedup.KeepFirst` is an assumed
  stand-in, used only for the test expectation.
- `urlcleaner.UrlParser` and its 500-character limit, the HTTP client, and
  `jsonhandler.UnmarshalJSONResponse` are inputs that succeed or fail. `url.Values.Encode`
  (percent-escaping, sorting by key) and `URL.String` are not modelled. A request carries the
  base URL and its parameters in the order they were added.
- The context passed to `FetchEverythingNews` is not modelled: the function never reads it.
- The two `time.Now()` calls (internal/service/fetch_everything.go:60-61) are one `today`.
  Calls that straddle midnight are not modelled.
- The levenshtein cost table is a parameter (`subCost`); MD5 is an input function.
- float64 arithmetic: the score is an exact `real`.
- Go strings holding invalid UTF-8: model strings are sequences of Unicode scalar values.
- TLS and HTTP client construction, the Cloudflare trusted-proxy bootstrap, Gin routing, and
  `fmt.Printf`/`log` output are left out.
- JSON encoding: `json.Marshal`, the cache `Set` and the response encoder are per-call
  inputs. A response encoder that fails after writing part of the body is modelled as a clean
  500 answer.
- Redis (datastore/redis_cache.go) is an abstract map. A failed `Set` is assumed to leave the
  key as it was. `Get`, `Remove`, `Scan` and `DeleteAll` are not used by the core.
- The commented-out store (datastore/store.go) and `NopCache` (datastore/mockStore.go) are left
  out.
- The pass-through layers are left out: internal/service/news_service.go,
  internal/handlers/news_handler.go, and the earlier news-fetcher/ tree.
- `services.FetchEverythingNews`, the worker of the earlier revision, is not part of this
  model. There the worker is an input function.
- The nil-versus-empty result of the de-duplicating filter is not modelled: its output is
  always a (possibly empty) list.
- Stale tests whose calls do not match the sources are used as intent only
  (internal/service/fetch_everything_test.go:76-81, internal/api/google_news_test.go:114-120,
  handlers/news_handler_test.go:52).
- Similarity.SimilarityNonNegative: proved only for a substitution cost of at most 1, because
  at cost 2 the score reaches -1 (`Similarity.SimilarityDisjointDependsOnCost`).
- Similarity.SimilarityEmptyVersusAscii: stated for ASCII titles only, because with the byte
  normaliser a non-ASCII title scores above 0 (see Findings).
- FetchEverything.QueryWindowIsOneWeek: proved for years 7 to 9999, where both dates print
  with four-digit years.
- FetchEverything.TestNewsKeepsFirst: rests on the keep-first stand-in, not on the library
  filter.
