# GitLab token expiration exporter: a Dafny model of the poll cycle

The exporter polls the GitLab personal-access-token listing. It publishes
one Prometheus gauge per token, `gitlab_token_expiration_days`, with labels
`token_name`, `token_id` and `token_owner`. Its value is the number of whole
days until the token expires. This project models one pass of the poll loop
in `src/main.go` and proves properties of it:

- `tokens.dfy` (module `Tokens`): the token record (`GitLabToken`'s `ID`,
  `Name`, `ExpiresAt`, `Username`), the label triple, and Go's `%d`
  formatting of the id.
- `pagination.dfy` (module `Pagination`): `getAllGitLabTokens` as the method
  `FetchAll`. It requests pages 1, 2, 3, … in order and appends their tokens.
  It stops at the first empty page. On the first failed page it returns that
  error and keeps nothing. Each page request is an oracle result
  (`Ok(tokens)` or `Err`). `Gather`, `RequestCount` and `FirstStop` specify
  the fetch.
- `expiration.dfy` (module `Expiration`): the per-token decision. It pads a
  10-byte expiry with `T23:59:59Z`, parses it (skipping the token on a
  failure), skips the name `"Private Token"`, and computes the whole days
  until expiry, truncated toward zero.
- `gauges.dfy` (module `Gauges`): the gauge vector as a class. Its one field
  is a map from label triple to value, and `Set` creates or overwrites one
  entry.
- `poll_cycle.dfy` (module `PollCycle`): one iteration of the `for` loop in
  `checkTokenExpirations`, as the method `CheckTokenExpirations`. It is
  proved against the specification function `Cycle`. The lemmas about
  `Cycle` and `ApplyTokens` state what a cycle does to the gauges.

Instants are integers counting seconds. The RFC 3339 parser (section 5.6 of
RFC 3339) is a parameter `parse: string -> Option<int>`. Go calls
`time.Now()` once for each token that reaches the day count (src/main.go:87),
so one pass does not judge every token at the same instant. The model passes
a clock `clock: nat -> int` instead, where `clock(i)` is the reading taken
for the i-th fetched token.

The length test at src/main.go:72 uses Go's `len`, which counts the bytes of
the UTF-8 encoding. The model counts the same bytes (`Expiration.ByteLength`).

`int(...)` at src/main.go:87 truncates the float quotient toward zero. It is
not a floor, so one second after expiry reads 0 days, not −1
(`Expiration.TruncatesTowardZero`).

## Model

| member | source | states |
|---|---|---|
| `Tokens.DecimalString` | src/main.go:88 | `%d` of an id: at least one character, a leading `-` exactly when the id is negative, decimal digits everywhere else |
| `Tokens.KeyOf` | src/main.go:88 | a token's series is labelled with its name, its decimal id (leading `-` exactly for negative ids) and its owner |
| `Tokens.DecimalStringInjective` | src/main.go:88 | two ids print as the same `%d` string if and only if they are equal |
| `Tokens.KeyOfIdentifies` | src/main.go:14-20 | two tokens share a gauge series if and only if name, id and owner agree; the expiry plays no part |
| `Pagination.PageAt` | src/main.go:101 | the outcome of requesting page n (`getGitLabTokens(n)`, src/main.go:117-142): the n-th listed result, and an empty page past the end of the listing |
| `Pagination.FetchAll` | src/main.go:97-115 | the fetch returns exactly `Gather(pages)`, and the pages it requests are exactly 1, 2, …, `RequestCount(pages)`, in that order |
| `Pagination.GatherCharacterised` | src/main.go:99-114 | with k the first page that is failed or empty, k + 1 requests are made; the result is that page's error if it failed, otherwise the concatenation of the first k pages |
| `Pagination.StopsAtFirstEmptyPage` | src/main.go:106-110 | k pages with tokens then an empty page: k + 1 requests, result is their in-order concatenation, and pages after the empty one cannot change it |
| `Pagination.ErrorDiscardsGatheredPages` | src/main.go:101-104 | k pages with tokens then a failed page: k + 1 requests, and the fetch returns that error with none of the earlier tokens |
| `Expiration.ByteLength` | src/main.go:72 | Go's `len`: the number of UTF-8 bytes, never fewer than the number of characters |
| `Expiration.ByteLengthOfAscii` | src/main.go:72 | for ASCII text, such as any RFC 3339 timestamp, the byte length is the character count |
| `Expiration.Pad` | src/main.go:72-74 | the suffix `T23:59:59Z` is appended if and only if the expiry is exactly 10 bytes long; the expiry is always a prefix of the result; the result is never 10 bytes long |
| `Expiration.PadIdempotent` | src/main.go:72-74 | padding an already padded expiry changes nothing |
| `Expiration.DaysUntil` | src/main.go:87 | the result is the number of whole days in (expiry − now), truncated toward zero; it is positive if and only if expiry is at least a day ahead, negative if and only if a full day has passed since expiry |
| `Expiration.DaysUntilMonotone` | src/main.go:87 | as `now` advances the day count never increases |
| `Expiration.TruncatesTowardZero` | src/main.go:87 | one second past expiry gives 0 days, while floor division would give −1 |
| `Expiration.EndOfDayExample` | src/main.go:71-88 | a token expiring `2030-01-10`, if the parser reads `2030-01-10T23:59:59Z` as its instant, is published with 9 days at 2030-01-01T00:00:00Z; the padding is part of the proof |
| `Expiration.Decide` | src/main.go:69-88 | a token is skipped as unparseable if and only if its padded expiry fails to parse; it is redacted if and only if it parsed and its name is `"Private Token"`; otherwise it is published under its label triple with `DaysUntil` of the parsed instant |
| `Expiration.RedactedNeverPublished` | src/main.go:82-85 | a token named `"Private Token"` is never published, whatever its other fields and whatever the parser returns |
| `Expiration.DateOnlyMeansEndOfDay` | src/main.go:71-76 | a date-only expiry is evaluated at 23:59:59Z of that date |
| `Gauges.GaugeVec.constructor` | src/main.go:14-20 | a new gauge vector holds no series |
| `Gauges.GaugeVec.Set` | src/main.go:88 | the series for the label triple is created or overwritten; every other series keeps its value; none is removed |
| `PollCycle.Step` | src/main.go:69-88 | one token: a published token creates or overwrites its own series with its days, a skipped token changes nothing, and no series is removed |
| `PollCycle.StepTouchesOnlyItsSeries` | src/main.go:88 | a token leaves every series other than its own with the same presence and value |
| `PollCycle.Cycle` | src/main.go:64-89 | one pass: a failed fetch leaves the gauges exactly as they were; a successful one never removes a series |
| `PollCycle.ApplyTokens` | src/main.go:68-89 | handling the tokens in order never removes a series |
| `PollCycle.ApplyTokensConcat` | src/main.go:68-89 | handling a + b is handling a, then b on the result with the clock readings that follow a's |
| `PollCycle.SkippedTokenChangesNothing` | src/main.go:76-85 | a token that is unparseable or redacted can be removed from the list without changing the outcome: processing simply continues with the next token, and every remaining token keeps its own clock reading |
| `PollCycle.UntouchedSeries` | src/main.go:88 | a series no token writes keeps its presence and its value |
| `PollCycle.LastWriteWins` | src/main.go:88 | a series ends the cycle with the value of the last token that wrote it, judged at that token's clock reading |
| `PollCycle.NewSeriesComeFromTokens` | src/main.go:88 | every series the cycle adds is the label triple of a published token |
| `PollCycle.RedactedSeriesUntouched` | src/main.go:83-85 | no series with token name `"Private Token"` is created or changed |
| `PollCycle.FetchErrorPublishesNothing` | src/main.go:64-66 | if any page fails before the first empty page, the cycle leaves every gauge as it was |
| `PollCycle.SuccessfulCycleHandlesAllPages` | src/main.go:64-68 | after k pages with tokens and an empty page (listed, or the first one past the end of the listing), the cycle handles exactly the tokens of those k pages, in page order |
| `PollCycle.CheckTokenExpirations` | src/main.go:63-90 | one pass, reading the clock once per token that reaches the day count, leaves the gauges equal to `Cycle` of the old gauges, and requests pages 1 … `RequestCount(pages)` in order |

## Left out

- HTTP request building, `client.Do`, the status-code check and JSON decoding (`getGitLabTokens`, src/main.go:117-142) are I/O and library calls. Each page is an oracle result, and a transport error, a non-200 status or a decode error is `Err`.
- A listing that never returns an empty page (the Go loop would run forever) is not modelled. The oracle is a finite sequence, and every page past its end is empty.
- `time.Parse` with `time.RFC3339` is a library call. It is a parameter from string to an optional instant in whole seconds, so sub-second precision is not modelled.
- `time.Now`, `time.Sleep(24 * time.Hour)`, the endless `for` and `select {}` are timing and non-termination. The clock readings are a parameter, and one cycle is modelled. Nothing is assumed about how readings relate to each other, such as being non-decreasing.
- Prometheus registration, `promhttp.Handler` and the concurrent `http.ListenAndServe` goroutine are a foreign library and concurrency. The gauge vector is a class holding a plain map.
- `Duration.Hours()` and `Set(float64(...))` use floating point. The model uses integer seconds and an exact truncating division, so `Duration` saturation and float rounding are not modelled. The gauge value is an integer.
- The error log lines (`fmt.Printf`) are not modelled.
- The globals `gitlabAPIURL` and `gitlabToken` (src/main.go:22-23) are never assigned after their empty initial values: `main` only prints the environment variables `GITLAB_API_URL` and `GITLAB_PERSONAL_ACCESS_TOKEN` (src/main.go:43-44). Both globals are read on every page request (src/main.go:119, 123), so the request URL is always `/personal_access_tokens?page=1`, with no scheme and no host. As written, `client.Do` then fails (src/main.go:125-128), `getAllGitLabTokens` returns that error on page 1 (src/main.go:101-104), and no gauge is ever set. The model keeps the page oracle general, so it also covers a configured URL. The as-written case is the oracle whose first page is `Err`, and `PollCycle.FetchErrorPublishesNothing` with k = 0 proves that it leaves the gauges unchanged.
- The token fields `Scopes`, `CreatedAt`, `Revoked`, `Active` and `AccessLevels` (src/main.go:34-38) are decoded but never read.
- Token ids are unbounded integers rather than Go's `int`, whose width depends on the platform (32 or 64 bits). In Go, an id that does not fit `int` never reaches `%d`: `Decode` at src/main.go:136 fails on it, so that whole page is `Err`. The oracle over-approximates here, because it also allows `Ok` pages that hold ids of any size. No proof depends on ids being bounded.
