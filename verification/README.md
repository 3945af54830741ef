# TxtRipper robots.txt fetcher and Disallow filter, in Dafny

TxtRipper is a small Ruby command-line tool. It fetches `robots.txt` for one
domain (`-u`) or for every line of a list file (`-l`), and it can show only the
Disallow lines (`-d`). This project models and proves its core:

- **`fetch_robots_txt`** (module `RobotsFetch`). The tool tries
  `https://<domain>/robots.txt` and then `http://<domain>/robots.txt`. Each try
  is a redirect loop bounded by `redirect_limit` (default 5). A 2xx response
  returns its body. A 3xx with a Location header moves to `URI.join(current,
  location)`. A 3xx without Location, a 404, any other status, or any rescued
  exception ends that scheme and moves on. If both schemes fail, the tool
  returns `Could not fetch robots.txt for domain/URL '<domain>' after trying
  all schemes and redirects.`
  - The network, `URI.parse` and `Net::HTTP` are an oracle `Url -> Exchange`.
    An `Exchange` is `Reply(status, location, body)` or `Raised`. The oracle
    answers a URL the same way every time it is requested; a server whose
    answer changes between two requests for the same URL (possible in a
    redirect cycle, or when the HTTPS URL redirects to the HTTP candidate)
    is outside the model.
  - `URI.join` is a parameter `resolve: (Url, string) -> Option<Url>`, where
    `None` means it raised.
  - The recursive definition (`RunAttempt`, `TryCandidates`, `Fetch`) is the
    reference. The methods `FollowRedirects` and `FetchRobotsTxt` are written
    as the Ruby loops are, and they are proved equal to it.
  - Every result also carries `tried`: every URL that got past the limit
    check, whether its request was answered or raised, in order. Bounds, ordering and short-circuiting are stated over it.
- **The Disallow filter** (module `DisallowFilter`). This is
  `content.lines.grep(/^\s*disallow\s*:/i)` and the guard around it
  (`-d` given, content is a String, and it starts with neither `Error:` nor
  `Could not fetch`). A scanner `IsDisallowLine` is proved equivalent to a
  declarative reading of the regular expression. `^` matches at offset 0 or
  after any newline, and `\s` is space, tab, LF, VT, FF or CR.
- **Ruby `String#lines` / `join`** (module `TextLines`): a line split that
  round-trips through `join`.
- **The list-file rule** (module `ListFile`): `strip`, then skip lines that
  are empty or start with `#`. Numbers are 1-based and count skipped lines.
- **The main flow** (module `MainFlow`): `-u` and `-l` put fetch and display
  together.

Response bodies are `Option<string>`, because `response.body` can be `nil`.
The fetch then returns `nil`, and that is why the display guard tests
`content.is_a?(String)`. A Location header whose value is the empty string is
still followed, because an empty string is truthy in Ruby.

TxtRipper.rb has no host normaliser, no generator of bruteforce targets and no
result cache. `-u` passes its argument to the fetch unchanged, and `-l` passes
the stripped line. `fetch_robots_txt` returns either a body or the failure
string; it has no typed outcomes. The model therefore returns
`Fetched`/`Exhausted`, and the reasons a scheme failed exist only inside one
attempt (`StopReason`).

## Model

| member | source | states |
|---|---|---|
| RobotsFetch.RunAttempt | TxtRipper.rb:14-101 | one scheme's loop runs at most `limit - count` times; it runs not at all once the count has reached the limit; it starts at the URL it was given; if it gives up at the limit, it used its whole budget |
| RobotsFetch.RedirectStep | TxtRipper.rb:55-64 | a 3xx whose Location resolves continues the same attempt from the resolved URL, with the redirect count one higher and the current URL recorded as tried |
| RobotsFetch.AttemptIsRedirectChain | TxtRipper.rb:49-79 | each URL tried after the first is the resolved Location of a 3xx from the one before it; the last URL tried explains how the attempt ended (2xx body, 3xx without Location, 404, other status, exception or failed join, or a limit reached right after a redirect) |
| RobotsFetch.EndlessRedirectsReachLimit | TxtRipper.rb:17-64 | against a server that always redirects, an attempt ends at the limit after exactly `limit` URLs |
| RobotsFetch.TryCandidates | TxtRipper.rb:13-106 | the candidate loop ends exhausted exactly when no candidate's attempt got a body, in both directions |
| RobotsFetch.FollowRedirects | TxtRipper.rb:14-102 | the imperative inner loop (limit check, request, return / follow / break) computes exactly the attempt of the recursive definition |
| RobotsFetch.FetchRobotsTxt | TxtRipper.rb:9-107 | the imperative two-loop function returns the first body, or the failure message naming the input, and requests exactly the URLs of the reference fetch |
| RobotsFetch.CandidateUrls | TxtRipper.rb:11 | defines the candidate list: `"https://" + domain + "/robots.txt"` first, then the same with `http://`, with the input interpolated unchanged |
| RobotsFetch.FailureMessage | TxtRipper.rb:106 | defines the failure string returned when every scheme is exhausted, with the input between single quotes |
| RobotsFetch.HttpsTriedFirst | TxtRipper.rb:11-13 | with a positive limit, the first URL requested is `"https://" + domain + "/robots.txt"`, built from the unmodified input |
| RobotsFetch.SchemeOrder | TxtRipper.rb:11-106 | HTTPS then HTTP: a body over HTTPS is the result and nothing else is tried; otherwise the HTTP attempt follows the HTTPS attempt's URLs, and if it also fails the fetch is exhausted |
| RobotsFetch.HttpsSuccessShortCircuits | TxtRipper.rb:50-53 | a 2xx on the HTTPS URL returns its body after one request; the HTTP URL is never requested |
| RobotsFetch.OneTryEndsAttempt | TxtRipper.rb:55-100 | a 404, another status, a 3xx without Location, a 3xx whose Location `URI.join` rejects, or an exception ends the attempt after that single URL, with no retry |
| RobotsFetch.HttpsFailureFallsBack | TxtRipper.rb:55-103 | such an answer on the HTTPS URL moves on to the HTTP URL; the fetch is the HTTP attempt's result, preceded by that one HTTPS URL |
| RobotsFetch.FetchIsBounded | TxtRipper.rb:15-22 | at most `limit` URLs per scheme and `2 * limit` in all; with a limit of 0 or less nothing is requested and the failure message is returned |
| RobotsFetch.EndlessRedirectsExhaust | TxtRipper.rb:17-106 | a server that always redirects exhausts both schemes with exactly `2 * limit` requests and yields the failure message |
| RobotsFetch.Fetch | TxtRipper.rb:9-107 | the reference `fetch_robots_txt`: it gives up exactly when neither the HTTPS nor the HTTP attempt got a body, and otherwise yields the body of the first scheme that got one |
| RobotsFetch.Returned | TxtRipper.rb:53-106 | the Ruby return value: the body (possibly nil) when a scheme got one, otherwise a message that starts with "Could not fetch" and names the input verbatim |
| HttpsFinding.AsWrittenExchange | TxtRipper.rb:32-35 | defines the oracle as the code as written experiences it: any URI for which `isHttps` holds raises before a request is sent, and every other URI gets the server's answer |
| HttpsFinding.AsWrittenNeverGetsHttpsBody | TxtRipper.rb:32-35 | as written, an attempt never gets a body from an https URI, even after a redirect |
| HttpsFinding.AsWrittenSkipsHttps | TxtRipper.rb:32-100 | as written, the HTTPS candidate fails after one try whatever the server answers, and the result is the HTTP attempt's |
| HttpsFinding.HttpsOnlySiteIsLost | TxtRipper.rb:33-34 | for a site that serves robots.txt over HTTPS only, the code as written returns the failure message; the intended code returns the file after one request |
| TextLines.Lines | TxtRipper.rb:149 | `lines` cuts text into pieces that join back to the text; each piece is non-empty, a newline can only be its last character, and every piece but the last ends in a newline |
| TextLines.LinesOfJoin | TxtRipper.rb:149-153 | splitting the join of well-formed line pieces gives the same pieces back |
| DisallowFilter.IsDisallowLine | TxtRipper.rb:149 | defines the scanner: a run of `\s`, the eight letters of "disallow" in any ASCII case, another run of `\s`, then a colon, all from the first character; `IsDisallowLineMatchesRegex` relates it to the regular expression |
| DisallowFilter.IsDisallowLineMatchesRegex | TxtRipper.rb:149 | on a line piece, the scanner accepts exactly the lines `/^\s*disallow\s*:/i` matches (either direction) |
| DisallowFilter.Grep | TxtRipper.rb:149 | a line is kept exactly when it is in the input and is a Disallow line |
| DisallowFilter.GrepOfConcat | TxtRipper.rb:149 | filtering distributes over concatenation, so kept lines keep their relative order |
| DisallowFilter.GrepKeepsMultiplicity | TxtRipper.rb:149 | duplicates are kept: a Disallow line occurs as often as in the input, and any other line not at all |
| DisallowFilter.FilterApplies | TxtRipper.rb:147 | defines the display guard (repeated at line 180): `-d` was given, the content is a String, and it starts with neither "Error:" nor "Could not fetch" |
| DisallowFilter.Render | TxtRipper.rb:147-157 | content is shown verbatim exactly when `-d` is off, content is nil, or it starts with "Error:" or "Could not fetch"; the "none found" message appears exactly when the filter runs and no line matches; otherwise the matching lines are shown, exactly the filter's output in file order with duplicates kept |
| DisallowFilter.FilterIsIdempotent | TxtRipper.rb:147-153 | filtering the printed Disallow lines again shows the very same lines |
| DisallowFilter.AcceptsCapitalised | TxtRipper.rb:149 | `Disallow: /admin` is kept |
| DisallowFilter.AcceptsIndented | TxtRipper.rb:149 | `  disallow:/x` is kept |
| DisallowFilter.AcceptsSpaceBeforeColon | TxtRipper.rb:149 | `DISALLOW : /y` is kept |
| DisallowFilter.RejectsNonDisallowExamples | TxtRipper.rb:149 | `Allow: /z` and `# Disallow: /w` are not kept |
| ListFile.Strip | TxtRipper.rb:171 | the stripped text neither starts nor ends with a strip character, and it is empty exactly when the line is all strip characters |
| ListFile.StripIsUniqueTrim | TxtRipper.rb:171 | `strip` returns the unique slice that drops only strip characters on both sides and is not bordered by one |
| ListFile.StripIsIdempotent | TxtRipper.rb:171 | stripping twice equals stripping once |
| ListFile.SelectFromExact | TxtRipper.rb:170-175 | an entry is selected exactly when the stripped line with its number is that text and is neither empty nor starts with `#` |
| ListFile.SelectFromInRange | TxtRipper.rb:170-175 | every selected entry's number lies within the lines it was selected from |
| ListFile.SelectFromOrdered | TxtRipper.rb:170-175 | entries come out in file order: each entry's number is below the next one's |
| ListFile.IsSkipped | TxtRipper.rb:172 | defines the skip test on a stripped line: it is empty or its first character is `#` |
| ListFile.SelectEntries | TxtRipper.rb:170-172 | defines the `-l` selection: the file's lines, each stripped and numbered from 1, with empty and `#` lines dropped; `SelectEntriesExact`, `SelectFromInRange` and `SelectFromOrdered` state its properties |
| ListFile.SelectEntriesExact | TxtRipper.rb:170-175 | line `n` of the file (1-based, skipped lines counted) is processed, as its stripped text, exactly when that text is non-empty and not a comment |
| MainFlow.FailureMessageStart | TxtRipper.rb:106 | the failure message starts with "Could not fetch" |
| MainFlow.FailedFetchShownVerbatim | TxtRipper.rb:143-157 | when both schemes fail, the failure message is shown verbatim whether `-d` is given or not |
| MainFlow.NilBodyShownVerbatim | TxtRipper.rb:147 | a nil body is not a String, so it is shown as it is even with `-d` |
| MainFlow.ProcessDomain | TxtRipper.rb:141-157 | defines the `-u` path: fetch the input with the default limit of 5, then render what it returned through the `-d` guard |
| MainFlow.ProcessEntries | TxtRipper.rb:176-191 | one report per selected entry, in order, each with its number, its domain and the view `-u` would give that domain |
| MainFlow.ProcessList | TxtRipper.rb:170-191 | defines the `-l` path: one report for each selected line, in file order; `ProcessListReportsSelectedLines` and `EveryKeptLineIsReported` state what the reports are |
| MainFlow.ProcessListReportsSelectedLines | TxtRipper.rb:170-191 | every `-l` report is numbered by its file line, names the stripped line, passes the skip rule and is processed like `-u` |
| MainFlow.EveryKeptLineIsReported | TxtRipper.rb:170-176 | every line that passes the skip rule gets a report with its own line number, its stripped text and the view `-u` would give it |

## Findings

| source | as written | input that shows it | evidently intended | confidence | as-written member | corrected member |
|---|---|---|---|---|---|---|
| TxtRipper.rb:33 | `http.use_ssl = true.` ends in a dot, so Ruby chains it onto line 34 as `true.http.verify_mode = ...`. That raises NoMethodError for every https URI, and the rescue at lines 97-100 turns it into "this URL failed" | `example.com` serving robots.txt with 200 over HTTPS only (404 over HTTP): the tool reports "Could not fetch ..." | `http.use_ssl = true` followed by `http.verify_mode = VERIFY_NONE`, so HTTPS requests are sent without certificate verification | high; not executed | HttpsFinding.HttpsOnlySiteIsLost | RobotsFetch.HttpsSuccessShortCircuits |

The rest of the model (`Fetch`, `MainFlow`) uses the corrected behaviour: the
oracle decides what an https request returns. `HttpsFinding.AsWrittenExchange`
wraps an oracle so that every https URI raises, which reproduces the code as
written.

## Left out

- Networking: `Net::HTTP.new`, `http.request`, and the 5-second open and read timeouts (lines 29-45). They are replaced by the oracle.
- TLS configuration and certificate checking (lines 32-35). The finding above models their effect. The test `uri.scheme == 'https'` is a parameter `isHttps` of the as-written oracle.
- `URI.parse` and `URI.join` internals (section 5.2 of RFC 3986). Parsing failures are `Raised` in the oracle, and `resolve` is an uninterpreted parameter.
- Exception classes (InvalidURIError, SocketError, timeouts, SSLError, StandardError). All of them `break`, so one `Raised` outcome stands for all.
- Console output. The progress and diagnostic `puts`/`print` lines are not modelled. What the main program prints for a result is modelled as a `View`, and `Printed` gives the text handed to `puts`. The newline that `puts` adds is not modelled.
- `OptionParser` (lines 111-134), the `-u`/`-l`/neither dispatch, `File.exist?`, reading the file and `exit` codes (lines 139-199). This is CLI glue. The model takes the file's text as a string.
- ListFile.Strip: the model assumes that the list file decodes in Ruby's default external encoding, and `Strip` works on the decoded characters. In Ruby, `String#strip` raises ArgumentError on a line whose bytes are invalid in that encoding (for example a Latin-1 `café.example` under a UTF-8 locale). Nothing in the `-l` loop rescues it, so such a line ends the whole run at line 171. The model does not cover that abort.
- Case folding for `/i` covers ASCII letters only. This follows from `Net::HTTP` bodies being binary strings, where only ASCII letters fold.
- The set of `strip` characters (NUL, tab, LF, VT, FF, CR, space) follows current Ruby. Older Ruby versions did not strip a leading NUL.
- HTTP status classes are modelled as numeric ranges: 200-299 success, 300-399 redirection, 404 not found. This matches how `Net::HTTPResponse` picks a class from the first digit of a three-digit code.
