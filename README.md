# SQLCAP core in Dafny

SQLCAP is a command-line scanner that looks for SQL injection through HTTP
headers (or a form field). It first measures a baseline: the status, the time
and the body size of a plain GET of the target URL. It then sends one request
per (header, payload) pair, with the payload placed in the header (or
percent-encoded into an `application/x-www-form-urlencoded` body). Any
response that differs too much from the baseline is judged suspicious. A
separate extractor fetches and caches a CSRF token from a token endpoint.

This project models that decision logic and proves properties of it:

- `Text` (`text.dfy`): the Rust `str` operations the code relies on. These are
  `find`, `split(..).next()`, `split(..).nth(1)`, `replace`, decimal
  `to_string`, and the UTF-8 byte length `len`.
- `FormEncoding` (`encoding.dfy`): the payload encoding of body mode. This is
  `urlencoding::encode` (percent-encoding of every UTF-8 byte outside the
  unreserved set, per sections 2.1 and 2.3 of RFC 3986, with upper-case hex),
  followed by the three `replace` calls.
- `Models` (`models.dfy`): the records of `models.rs`, with the `CsrfCache` as
  a class with mutable fields. It also holds the command-line arguments: their
  defaults and their required-if rules.
- `FileReader` (`file_reader.dfy`): the `lines → filter → trim` pipeline of
  `read_lines_from_file`, applied to the file's content.
- `Logger` (`logger.dfy`): the debug log entry that `log_request` builds, and
  what `log_request` and `clear_log` do to the log file's content.
- `Scanner` (`scanner.dfy`): the `SqliScanner` class. It covers request
  construction (Host, Cookie, header or body placement), the three baseline
  rules, `establish_baseline` and `test_injection`.
- `Services` (`scan_service.dfy`): the `ScanService` class. `run_scan` is two
  nested loops proved against a header-major specification of the whole scan.
- `JsonPointer` (`json_pointer.dfy`) and `Csrf` (`csrf.dfy`):
  - JSON Pointer evaluation, per section 4 of RFC 6901, as `serde_json`'s
    `Value::pointer` performs it;
  - the three extraction strategies and their dispatch;
  - the `get_token` cache, as a method on the `CsrfExtractor` class, proved
    against a one-step state-transition function.
- `Ui` (`ui.dfy`): the computing parts of `TerminalUI`. These are the 25-cell
  progress bar, the colour bucket of a status code, the cut-off of the verbose
  header listing, and the announced total.

The environment becomes inputs to the model:

- the network exchange (whether the request was sent, and the status,
  milliseconds and body size of the response);
- the clock;
- the success of log-file writes and file reads (the file content is passed
  as an `Option`);
- the iteration order of a `HashMap`;
- the foreign engines (regex, HTML selection, JSON parsing and
  pretty-printing).

Some behaviours of the code are easy to misread; the model records them as
the code has them:

- **CSRF cache without a duration.** No expiry is ever set in that case, and a
  cache hit needs an expiry, so every call fetches again
  (`src/core/csrf.rs:33`, `48-50`); `Csrf.NoDurationNeverReuses` proves it.
- **The `Host` header.** It is `url.split("://").nth(1)` cut at the first `/`.
  This is the text between the first and the second `://`, not everything
  after the first one: `http://a://b/` gives `a`. With no `://` at all, the
  whole URL is used, cut at the first `/`. The log's `Host:` line is derived
  the same way, but is omitted when there is no `://`.
- **`%2D%2D` → `--` never applies.** `-` is unreserved, so `urlencoding` never
  writes `%2D`. `FormEncoding.DashReplaceIsIdentity` proves the third
  replacement is the identity.
- **The three-argument call.** `run_scan` calls `test_injection` with three
  arguments (`src/services/scan_service.rs:80`), but the method takes eight
  (`src/core/scanner.rs:48-58`). The model passes the remaining ones as fixed
  values: the scan's HTTP method, no CSRF token, the default `csrf_token`
  field, no cookie field, and header mode (`Services.TestCase`).
- **The baseline is taken twice.** `run_scan` re-establishes the baseline on
  every call, so any baseline stored earlier is replaced. When that fails, the
  old one is kept and no test runs.

## Model

| member | source | states |
|---|---|---|
| `Text.UpTo` | src/core/scanner.rs:68 | `split(c).next()`: the result is a prefix without `c`, and it is the whole string or is followed by `c` |
| `Text.BeforeFirst` | src/core/scanner.rs:68 | `split(sep).next()`: a prefix without `sep`, which is the whole string exactly when `sep` does not occur and is otherwise followed by `sep` |
| `Text.AfterFirst` | src/core/logger.rs:37 | the text after an occurrence of `sep` (the first, by `Text.AfterFirstIsFirst`); `None` exactly when `sep` does not occur |
| `Text.SecondPiece` | src/core/logger.rs:37 | `split(sep).nth(1)`: `None` exactly when `sep` does not occur; otherwise a prefix of the text after the first `sep` that contains no `sep` (and reaches the next `sep`, by `Text.SecondPieceReachesNext`) |
| `Text.BeforeFirstNoEarlier` | src/core/scanner.rs:68 | no occurrence of `sep` starts inside `split(sep).next()`, so it stops at the first `sep` |
| `Text.AfterFirstIsFirst` | src/core/logger.rs:37 | the text after the first `sep`: `sep` occurs right before it and nowhere earlier |
| `Text.SecondPieceReachesNext` | src/core/logger.rs:37 | `split(sep).nth(1)` runs up to the next `sep` after the first one, or to the end, with no `sep` starting inside it |
| `Text.HostSegmentOf` | src/core/scanner.rs:68 | `split("://").next()` followed by `split('/').next()` yields the host segment: a prefix with no `/`, no `://` starting inside it, and followed by `/`, `://` or the end |
| `Text.HostSegmentUnique` | src/core/logger.rs:37-38 | the host segment of a text is unique, so the two derivations of the host agree |
| `Text.ReplaceAbsent` | src/core/scanner.rs:106-108 | `replace` of a pattern that does not occur leaves the string unchanged |
| `Text.NatToString` | src/core/scanner.rs:121 | `to_string` of an unsigned integer: non-empty, all digits, no leading zero, and `"0"` exactly for 0 |
| `Text.ParseNatToString` | src/core/scanner.rs:121 | parsing the decimal rendering of `n` gives `n` back |
| `Text.CharUtf8` | src/core/scanner.rs:121 | the UTF-8 encoding of a character is 1 to 4 bytes, and a single byte exactly for ASCII, where that byte is the code point |
| `Text.AsciiByteLen` | src/core/scanner.rs:121 | for ASCII text, `len()` is the number of characters and the bytes are the code points |
| `FormEncoding.HexRoundTrip` | src/core/scanner.rs:104 | each upper-case hex digit written by the encoder reads back as its value |
| `FormEncoding.ReplaceStage` | src/core/scanner.rs:104-107 | `%20`→`+` and then `%3B`→`;`, applied to the percent-encoding, each act byte by byte on the encoded bytes |
| `FormEncoding.DashReplaceIsIdentity` | src/core/scanner.rs:108 | the `%2D%2D`→`--` replacement changes nothing in an encoded payload |
| `FormEncoding.FormValueIsBytewise` | src/core/scanner.rs:104-108 | the form value is the byte-wise encoding: space as `+`, `;` as itself, unreserved bytes as themselves, every other byte as `%XY` |
| `FormEncoding.FormValueShape` | src/core/scanner.rs:104-108 | the form value has no space, no `%20`, no `%3B`, and is pure ASCII |
| `FormEncoding.DecodeEncodeBytes` | src/core/scanner.rs:104-108 | form-decoding the byte-wise encoding of any bytes gives those bytes back |
| `FormEncoding.FormValueRoundTrip` | src/core/scanner.rs:104-110 | a form parser recovers exactly the payload's UTF-8 bytes from the value placed in the body |
| `Models.NewBaseline` | src/core/models.rs:87-94 | `Baseline::new` stores the status, the duration and the body size unchanged |
| `Models.Message` | src/core/scanner.rs:165-185 | the reason text: only the status reason starts with "Status code changed from ", and it then names the two codes |
| `Models.CsrfCache.constructor` | src/core/csrf.rs:21-24 | a new cache holds no token and no expiry |
| `Models.ParseArgs` | src/core/models.rs:9-65 | parsing succeeds exactly when url and payload are given, the header list is given unless body injection is set, and the field list is given when it is set; on success, every default (3000, GET, csrf_token, debug_requests_log.txt, id) is filled in and the given values are kept; on failure, exactly the missing required names are listed (`url` when absent, `payload` when absent, `header` when absent without body injection, `fields` when absent with it) |
| `Models.ParseExplicit` | src/core/models.rs:19-24 | arguments that satisfy the required-if rules parse back to themselves; arguments that break them are refused |
| `Models.RequiredArgumentExamples` | src/core/models.rs:19-63 | with url and payload only, `header` is missing; with body injection as well, `fields` is missing instead; with fields too, all defaults apply |
| `FileReader.TrimStartSpec` | src/infra/file_reader.rs:18 | `trim_start` removes a whitespace prefix and leaves a suffix that does not start with whitespace |
| `FileReader.TrimEndSpec` | src/infra/file_reader.rs:18 | `trim_end` removes a whitespace suffix and leaves a prefix that does not end with whitespace |
| `FileReader.TrimSpec` | src/infra/file_reader.rs:18 | `trim` gives a middle slice of the line with only whitespace around it, and the result has no whitespace at either end |
| `FileReader.ReadLinesFromFile` | src/infra/file_reader.rs:10-22 | an unreadable file is an error naming its path; otherwise the result is the filtered and trimmed lines of the content |
| `FileReader.FilterTrimSplit` | src/infra/file_reader.rs:15-19 | the pipeline works line by line in order: the output for `a + b` is the output for `a` followed by the output for `b` |
| `FileReader.FilterTrimMembers` | src/infra/file_reader.rs:15-19 | a string is in the output exactly when it is the trim of a line that passes the filter, and the output is no longer than the input |
| `FileReader.FilterTrimTrims` | src/infra/file_reader.rs:18 | every output element is trimmed |
| `FileReader.WhitespaceLineBecomesEmpty` | src/infra/file_reader.rs:17-18 | the filter looks at the line before trimming, so a whitespace-only line passes and becomes `""` |
| `FileReader.IndentedCommentSurvives` | src/infra/file_reader.rs:17-18 | an indented `#` line is not treated as a comment: it passes the filter and keeps its `#` |
| `FileReader.FilteredLinesDropped` | src/infra/file_reader.rs:17 | an empty line or one starting with `#` contributes nothing, wherever it stands |
| `FileReader.LinesRoundTrip` | src/infra/file_reader.rs:16 | `lines()` pieces never contain a line feed, and for text without `\r`, joining them with line feeds gives the text back (plus a final line feed if it lacked one) |
| `FileReader.ReadLinesBounded` | src/infra/file_reader.rs:15-19 | the list never has more entries than the content has lines |
| `Logger.HostLine` | src/core/logger.rs:37-41 | the `Host:` line is present exactly when the URL contains `://`, and then holds the host segment of the text after the first `://`: everything up to the first `/` or the next `://` |
| `Logger.PresentInMap` | src/core/logger.rs:48-52 | the first pass lists exactly the important names that are keys of the map |
| `Logger.OthersListed` | src/core/logger.rs:55-59 | the second pass lists exactly the keys that are not important and do not contain `payload` |
| `Logger.PresentHeaderLines` | src/core/logger.rs:48-52 | the first loop writes one `name: value` line per important header present, in the fixed order |
| `Logger.OtherHeaderLines` | src/core/logger.rs:55-59 | the second loop writes one line per remaining listed header, in the map's iteration order |
| `Logger.BuildLogEntry` | src/core/logger.rs:28-82 | the entry built step by step equals the request line, Host line, header lines, body section and separator |
| `Logger.LogEffect` | src/core/logger.rs:23-97 | a disabled logger does nothing and succeeds; an enabled one appends the entry, or reports the open or write failure with the file name and leaves the file as it was |
| `Logger.LogRequest` | src/core/logger.rs:23-97 | `log_request` has exactly the effect `LogEffect` describes |
| `Logger.ClearLog` | src/core/logger.rs:100-109 | a disabled logger does nothing and succeeds; an enabled one empties the file, or reports the failure with the file name |
| `Logger.PresentDistinct` | src/core/logger.rs:48-52 | the first pass lists no name twice |
| `Logger.PresentIsSubsequence` | src/core/logger.rs:45-52 | the first pass keeps the important names it lists in the fixed order of the important list |
| `Logger.OthersDistinct` | src/core/logger.rs:55-59 | over an iteration order, the second pass lists no name twice |
| `Logger.EmittedSpec` | src/core/logger.rs:45-59 | a header is logged exactly when it is a key that is important or whose name lacks `payload`; no header is logged twice; the important ones present come first, as a subsequence of the fixed important list, and none of the later ones is important |
| `Logger.LogEntryShape` | src/core/logger.rs:31-82 | the entry starts with `<method> <url> HTTP/1.1\n` and ends with the separator; the body section is present exactly when there is a body, and then starts with a blank line |
| `Scanner.HostOf` | src/core/scanner.rs:68 | the Host value has no `/`; without `://` it is the URL's prefix up to the first `/`; with `://` it contains no `://` and is a prefix of the text after an occurrence of `://` (pinned down by `Scanner.HostOfSegment`) |
| `Scanner.HostOfSegment` | src/core/scanner.rs:68 | with `://`, the Host value is the host segment of the text after the first `://`: everything up to the first `/` or the next `://`, or to the end |
| `Scanner.InsertHeaders` | src/core/scanner.rs:74-77 | inserting headers one by one sends them in order, and the recorded map is the pairs inserted in order, a later one overwriting an earlier one |
| `Scanner.BuildRequest` | src/core/scanner.rs:61-128 | the request and the recorded debug headers built step by step are the common headers, the cookie and the placement; later map inserts overwrite earlier ones |
| `Scanner.HeaderModePlacement` | src/core/scanner.rs:124-128 | header mode: the target header carries the payload verbatim, it is sent last and recorded for the log, and there is no body |
| `Scanner.BodyModeWithoutPost` | src/core/scanner.rs:93-123 | body mode with a method other than POST adds neither the field, the content headers nor a body |
| `Scanner.FormBodyLayout` | src/core/scanner.rs:93-122 | POST body mode: the body is `name=enc(payload)`, followed by `&field=token` exactly when there is a token; `Content-Length` parses to the body's byte length; `enc(payload)` has no space, `%20` or `%3B` and decodes to the payload |
| `Scanner.CookieWithToken` | src/core/scanner.rs:80-87 | with a token, the sixth header is `Cookie: <cookie field, else csrf field>=<token>`, and the log records it unless the payload header is itself `Cookie` |
| `Scanner.HostHeaderAndLogLine` | src/core/scanner.rs:66-78 | the first header sent is `Host`; the log's Host line holds the same value when the URL has `://`, and is absent otherwise |
| `Scanner.HostListedInLog` | src/core/scanner.rs:75-78 | `Host` is among the recorded headers, so the log also lists it in its second pass |
| `Scanner.Classify` | src/core/scanner.rs:159-186 | the three checks in source order, each overwriting the reason, give exactly the precedence verdict `Judge` |
| `Scanner.NoBaselineNotSuspicious` | src/core/scanner.rs:160-163 | with no baseline, the result is never suspicious and has no reason |
| `Scanner.JudgeRules` | src/core/scanner.rs:163-186 | suspicious exactly when a rule fires; a reason exactly when suspicious; the status reason wins over the size reason, which wins over the timing reason |
| `Scanner.RuleBoundaries` | src/core/scanner.rs:164-176 | exactly twice the baseline time is not slow, one more ms is; with an empty baseline body any non-empty body fires; 100 bytes tolerate 80..120 |
| `Scanner.MatchingResponseNotSuspicious` | src/core/scanner.rs:163-186 | the baseline's own status and size, within twice its time, is not suspicious |
| `Scanner.InjectionResult` | src/core/scanner.rs:48-197 | a test errs exactly when the method is invalid, the log write fails, or the exchange fails (checked in that order); otherwise it echoes target and payload, reports the measurements and judges them against the baseline |
| `Scanner.InjectionLog` | src/core/scanner.rs:130-141 | the log file changes only when an enabled logger writes, and then gains the entry for the recorded headers and body |
| `Scanner.SqliScanner.constructor` | src/core/scanner.rs:27-31 | a new scanner has no baseline and no logger |
| `Scanner.SqliScanner.WithLogger` | src/core/scanner.rs:35-38 | sets the logger and keeps the baseline |
| `Scanner.SqliScanner.GetBaseline` | src/core/scanner.rs:200-217 | the baseline is the measurements of a received response; a send or read failure is its own error |
| `Scanner.SqliScanner.EstablishBaseline` | src/core/scanner.rs:41-45 | on success the new baseline replaces the stored one; on failure the stored one is kept |
| `Scanner.SqliScanner.TestInjection` | src/core/scanner.rs:48-197 | the result, the request handed to the client and the log file are exactly those of `InjectionOutcome` |
| `Services.ScanService.Init` | src/services/scan_service.rs:38-43 | stores the scanner, url, headers and payloads |
| `Services.ScanService.New` | src/services/scan_service.rs:21-44 | the header file is read first and then the payload file, and an unreadable one is an error naming it; on success a fresh scanner with no baseline or logger holds the filtered lists |
| `Services.ScanService.TotalTests` | src/services/scan_service.rs:120-122 | the total is 0 exactly when either list is empty |
| `Services.ScanService.EstablishBaseline` | src/services/scan_service.rs:47-49 | delegates to the scanner for the service's URL, with the same effect on the stored baseline |
| `Services.ScanService.TestOne` | src/services/scan_service.rs:77-81 | header `i` with payload `j` is run as test number `i·|payloads|+j+1`, with the fixed extra arguments |
| `Services.ScanService.TestHeader` | src/services/scan_service.rs:65-114 | the inner loop runs every payload once, in order, advances the counter by `|payloads|`, keeps the durations of successful tests and appends the suspicious ones |
| `Services.ScanService.RunScan` | src/services/scan_service.rs:52-117 | if the baseline fails: an error, no test, and the old baseline kept; otherwise the new baseline is stored, and the results are the suspicious results and the per-header timings of the header-major scan, with the counter ending at `total_tests()` |
| `Services.SuspiciousSpec` | src/services/scan_service.rs:98-101 | the collected results are exactly the successful results marked suspicious, all suspicious, at most one per test |
| `Services.SuspiciousConcat` | src/services/scan_service.rs:58-106 | collecting is compositional, so a failed test adds nothing and does not stop the collection |
| `Services.DurationsConcat` | src/services/scan_service.rs:66-84 | collecting durations is compositional: a successful test adds its own duration and a failed one adds nothing, so a header's durations are its successful tests' durations in payload order |
| `Services.DurationsSpec` | src/services/scan_service.rs:66-84 | one duration per successful test, never more than the tests, and all durations in order when every test succeeds |
| `Services.RowResultsAt` | src/services/scan_service.rs:71-81 | the `k`-th result of a header is its test of payload `k` |
| `Services.ResultsBeforeAt` | src/services/scan_service.rs:65-81 | header-major order: result `i·|payloads|+j` of the scan is header `i` tested with payload `j` |
| `Services.TimingsKeys` | src/services/scan_service.rs:113 | `header_results` has a key for every header tested, and no other key |
| `Services.TimingsLastWins` | src/services/scan_service.rs:113 | a header's value is the durations of its last occurrence in the list |
| `Services.TimingsBounded` | src/services/scan_service.rs:84-113 | each header holds at most one duration per payload |
| `Services.ResultIgnoresLogFile` | src/core/scanner.rs:130-188 | what the debug log already holds never influences a test's result |
| `JsonPointer.Split` | src/core/csrf.rs:109 | splitting a pointer gives at least one piece, and no piece contains the separator |
| `JsonPointer.SplitJoin` | src/core/csrf.rs:109 | splitting undoes joining pieces without the separator |
| `JsonPointer.EscapeHasNoSlash` | src/core/csrf.rs:109 | an escaped reference token contains no `/` |
| `JsonPointer.SlashesDecoded` | src/core/csrf.rs:109 | decoding `~1` first turns an escaped token into one where only `~` is still escaped |
| `JsonPointer.TildesDecoded` | src/core/csrf.rs:109 | decoding `~0` second restores the token, with no double decoding |
| `JsonPointer.EscapeRoundTrip` | src/core/csrf.rs:109 | unescaping undoes escaping for every key |
| `JsonPointer.EscapeAllRoundTrip` | src/core/csrf.rs:109 | the same for a whole path, and each escaped token is free of `/` |
| `JsonPointer.Resolve` | src/core/csrf.rs:109 | `Value::pointer`: the empty pointer designates the whole value, and a pointer not starting with `/` designates nothing |
| `JsonPointer.EncodeRoundTrip` | src/core/csrf.rs:109 | the pointer encoding any path decodes to that path, and resolves to exactly what following the path reaches |
| `JsonPointer.IndexRoundTrip` | src/core/csrf.rs:109 | each array index is found under its decimal rendering |
| `JsonPointer.IndexRefusals` | src/core/csrf.rs:109 | an index with a leading zero or a `+` sign, and the empty token, are not array indices |
| `JsonPointer.OneToken` | src/core/csrf.rs:109 | `/` followed by an escaped member name finds that member |
| `Csrf.ExtractWithRegex` | src/core/csrf.rs:75-84 | success exactly when there is a match with capture group 1, giving that group; a bad pattern is its own error |
| `Csrf.ExtractFromHtml` | src/core/csrf.rs:86-97 | success exactly when the first matching element has a `value` attribute, giving it; a bad selector is its own error |
| `Csrf.ExtractFromJson` | src/core/csrf.rs:99-115 | success exactly when the body parses, a pointer is configured, and it resolves to a string, which is the token |
| `Csrf.CachedToken` | src/core/csrf.rs:31-40 | a hit exactly when an expiry is set, `now` is before it, and a token is present; it is the cached token |
| `Csrf.Store` | src/core/csrf.rs:46-50 | the token is stored; the expiry becomes the store time plus the duration when one is configured, and is otherwise left as it was |
| `Csrf.CsrfExtractor.constructor` | src/core/csrf.rs:17-26 | a new extractor keeps its configuration and starts with an empty cache |
| `Csrf.CsrfExtractor.GetToken` | src/core/csrf.rs:29-53 | the result and the new cache are those of one `TokenStep` from the old cache |
| `Csrf.ExtractDispatch` | src/core/csrf.rs:55-73 | fetch failures come first, whatever the method; with a body, an unknown method is an error and a known one runs its strategy |
| `Csrf.JsonErrorOrder` | src/core/csrf.rs:99-115 | invalid JSON comes before a missing pointer, which comes before an unresolved or non-string value |
| `Csrf.JsonTokenFound` | src/core/csrf.rs:99-113 | with the pointer encoding a path to a string, the token is that string; any other kind of value there is "not found" |
| `Csrf.CacheHit` | src/core/csrf.rs:31-40 | a hit returns the cached token whatever the endpoint would answer, and leaves the cache unchanged |
| `Csrf.CacheMiss` | src/core/csrf.rs:42-52 | a miss passes on the extraction's result; a failure leaves the cache unchanged, and a success stores the token |
| `Csrf.ConsistentPreserved` | src/core/csrf.rs:29-53 | a cache that has a token whenever it has an expiry stays that way |
| `Csrf.ReuseWindow` | src/core/csrf.rs:33-49 | after a fetch with a duration of `d` seconds, every call before the expiry `later + d` seconds returns the same token without fetching, and no call at or after it reuses the token |
| `Csrf.NoDurationNeverReuses` | src/core/csrf.rs:33-50 | with no duration, from an empty cache, the expiry stays unset, and every call of any sequence of calls returns what its own fetch extracts |
| `Ui.CreateProgressBar` | src/shared/ui.rs:71-85 | the bar has 25 cells; cell `i` is `█` exactly when `i < completed` and `░` otherwise |
| `Ui.ProgressBarShape` | src/shared/ui.rs:76-82 | such a bar is a run of filled cells followed by empty ones; it is all filled from 25 on and all empty at 0 |
| `Ui.StatusBucket` | src/shared/ui.rs:425-433 | 200–299, 400–499, ≥ 500 and everything else get the four colours, each exactly on its range |
| `Ui.HeaderListing` | src/shared/ui.rs:157-167 | up to 12 headers are all listed and numbered from 1; with more, the first 10 are listed, then "... mais n−10 headers" |
| `Ui.AnnouncedTotal` | src/shared/ui.rs:150 | the announced total is 0 exactly when a list is empty, and is at least each non-empty count |
| `Ui.AnnouncedTotalIsScanTotal` | src/shared/ui.rs:150 | the announced total equals the scan service's `total_tests()` |

## Left out

- Network I/O: building the HTTP client, sending requests, reading bodies and
  measuring elapsed time. The exchange (sent or not, status, milliseconds,
  body size, the token endpoint's body) is an input, and client construction
  failure (`SqliScanner::new`, `ScanService::new`) is not modelled.
- The clock (`Utc::now`, `Instant::now`). The `get_token` readings are the
  parameters `now` and `later`; the log timestamp is part of each test's input.
- Async execution, the `Arc<Mutex<..>>` around the CSRF cache, and the 100 ms
  pause between requests. The model is single-threaded, with the cache as the
  fields of a class.
- The regex engine, HTML parsing and CSS selectors, JSON text parsing and
  pretty-printing, and `StatusCode`'s text rendering. These are foreign
  libraries; the model takes them as function parameters. `Method::from_bytes`
  is modelled as the token-character check of section 3.2.6 of RFC 7230.
- reqwest's header-name and header-value validation. This is a deferred error
  at send time, and surfaces in the model as a failed exchange.
- The values of the `HashMap` iteration order. The order is an input
  sequence, and the properties are stated for every order.
- File reads and writes, beyond their effect on the content. A partially
  written log entry is not modelled.
- Floating point:
  - the f64 size rule, modelled on integers as `|size − base|·100 > 20·base`,
    which agrees with f64 except for rounding near the boundary on very large
    sizes;
  - the f32 percentage conversion in `create_progress_bar`
    (`src/shared/ui.rs:73`). The model takes the integer `completed`.
- Integer widths: `u128` durations, `usize` sizes and `usize` array indices
  (the JSON pointer index parse has no width limit), the `u64 → i64` cast and
  overflow in the CSRF expiry computation, and `timeout_ms * 2`.
- Terminal output: every `println!`/`eprintln!`, colours and emoji. This
  includes the progress display inside `run_scan` and the printing of failed
  tests, which only report what the model returns.
- `ScanService::get_test_data`, a plain accessor.
- `clap` parsing beyond the required-if rules and the defaults: help and
  version output, the parsing of values, and short or long flag names.
- `src/handlers/cli_handler.rs`, `src/lib.rs` and `src/main.rs` are not part
  of this model. They are wiring only, and `cli_handler.rs` passes an
  `Option<PathBuf>` where a path is expected.
- The CSRF extractor is not connected to the scan loop, because the code does
  not connect it either.
