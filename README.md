# http1 / httpver: a verified model of the HTTP version grader

The `http1` and `httpver` programs probe a web host for HTTP/1.0, HTTP/1.1,
HTTP/2 and HTTP/3 support and grade the result: A when HTTP/3 answers, B for
HTTP/2 over TLS 1.3, C for HTTP/2 over any other TLS version, F otherwise.
Both programs run from the command line (targets come from a file, a
`--targets` flag and positional arguments) or as a small web front end. The
web front end keeps scan results in a four-hour cache and shows recent,
best and worst scans under its form.

This Dafny project models the deterministic core of the programs and proves
properties about it:

- `grade.dfy` (module `Grade`): `computeMinimalGrade` and its grading table.
- `check.dfy` (module `Check`): the probing engine of one target.
  - host-name validation and URL normalisation;
  - port resolution and the probe URLs;
  - how each probe outcome is classified;
  - assembly of the four fixed result slots, and grading;
  - the ordered multi-target batch and the worker-count clamp.
- `cache.dfy` (module `Cache`): the `resultCache` of the web front ends.
  - It is a class holding a `map` of entries and a `seq` of recent keys.
  - `get`, `set` and `recentSnapshots` are methods on it, with the wall clock as a parameter.
- `web_helpers.dfy` (module `WebHelpers`): the helpers both `web.go` files share.
  - `parseTargetsParam` and `cacheKey`;
  - `filterByGrade` and `selectTopByScore`;
  - `formatAge` and `plural`;
  - `statusTitle` and `hasVersion`.
- `web_scan.dfy` (module `WebScan`): the shared parts of `handleScan`.
  - the overview panels;
  - the page a request renders;
  - the fresh scan.
- `httpver_web.dfy` (module `HttpverWeb`) and `http1_web.dfy` (module `Http1Web`): what differs between the two front ends.
  - the `gradeClass` label for B and C;
  - the success test that decides whether a scan is listed as recent;
  - the extra `http1` template helpers and single-target error messages;
  - the request handler, from cache state before to cache state and page after.
- `cli.dfy` (module `Cli`): the command line.
  - `gatherTargets`, with the targets file's contents as an input;
  - the override port derived from `-port`;
  - the decision between scanning and showing usage.
- `strings.dfy`, `sequences.dfy` and `wrappers.dfy`: the Go library behaviour the core relies on.
  - `strings.Split`, `Join`, `TrimSpace`, `ToLower`, `HasPrefix`;
  - decimal formatting;
  - order-keeping de-duplication, subsequences and filtering;
  - `Option` and `Result`.

The network, `url.Parse` and `net.ParseIP` are inputs, bundled in a
`Check.Env`:

- `net` gives the outcome a probe request meets. That is a request that could not be built, a transport error (connection refused, DNS "no such host", or other), or a response with its protocol version and TLS state.
- `parse` gives what `url.Parse` reports for a string.
- `isIP` says whether a host name is an IP literal.

Each probing operation exists twice:

- a function (`CheckOf`, `Probe`) that says what the result is;
- an imperative method (`RunChecks`, `ProbeTarget`, `ProbeVersions`) that fills the four result slots of an array as the Go code does, proved equal to that function.

The two `web.go` files share the cache and helper code line for line, so it
is modelled once. The same holds for the two `main.go` files. Citations
below name one copy, or the other where a row covers what differs.

## Model

| member | source | states |
|---|---|---|
| Grade.ComputeMinimalGrade | internal/httpver/grade.go:20-46 | The grading is always one of the four pairs (95, A), (90, B), (80, C), (40, F). |
| Grade.GradeTable | internal/httpver/grade.go:20-46 | HTTP/3 gives (95, A) whatever else holds. HTTP/2 with "TLS 1.3" gives (90, B). HTTP/2 with any other TLS string, the empty one included, gives (80, C). Neither gives (40, F). |
| Grade.GradeMeaning | internal/httpver/grade.go:20-46 | Each letter holds exactly when its evidence does: A iff HTTP/3; B iff HTTP/2, no HTTP/3 and TLS 1.3; C iff HTTP/2, no HTTP/3 and another TLS string; F iff neither. |
| Grade.ScoreDeterminesGrade | internal/httpver/grade.go:20-46 | Two gradings have equal scores iff they have equal letters. |
| Grade.GradeMonotone | internal/httpver/grade.go:20-46 | Gaining HTTP/3 or HTTP/2 support never lowers the score. |
| Check.ValidHostnameShape | internal/httpver/check.go:69-103 | An accepted host name holds only letters, digits, hyphens and dots, and starts with neither a dot nor a hyphen. |
| Check.ValidHostnameFromLabels | internal/httpver/check.go:69-103 | Conversely, valid labels joined by dots, with or without one trailing dot, are accepted when they fit in 253 characters, and splitting gives back the same labels. |
| Check.ForeignCharRejected | internal/httpver/check.go:92-99 | One character outside letters, digits, hyphen and dot makes a host name invalid. |
| Check.HostnameExampleAccepted | internal/httpver/check.go:69-103 | "cloudflare.com" is accepted. |
| Check.HostnameExampleTrailingDotAccepted | internal/httpver/check.go:74-77 | The fully qualified "cloudflare.com." is accepted: one trailing dot is dropped. |
| Check.HostnameExampleMarkupRejected | internal/httpver/check.go:44-61 | An injection attempt with a space, quotes and markup is refused. |
| Check.HostnameExampleEmptyLabelRejected | internal/httpver/check.go:84-87 | "a..com" is refused because of its empty label. |
| Check.HostnameExampleHyphenRejected | internal/httpver/check.go:69-91 | "-a.com" (leading hyphen) and the empty name are refused. |
| Check.WithScheme | internal/httpver/check.go:30-32 | The result starts with http:// or https://. An input that already does is kept, and any other gets https:// in front. |
| Check.WithSchemeIdempotent | internal/httpver/check.go:30-32 | Adding the default scheme twice is the same as adding it once. |
| Check.NormalizeURL | internal/httpver/check.go:29-64 | Success iff the parse succeeds, the host is non-empty and the host name is acceptable: not localhost in any case, and an IP literal or a valid host name. The result is then the URL re-printed, user information included, with scheme https when none was given. |
| Check.LocalhostRejected | internal/httpver/check.go:51-54 | localhost in any letter case is refused, IP literal or not. |
| Check.IpLiteralSkipsLabelRules | internal/httpver/check.go:56-61 | For a non-empty host other than localhost, normalisation succeeds iff the host name is an IP literal or passes the label rules. |
| Check.StatusEmoji | internal/httpver/check.go:154-162 | Supported iff the row is supported; probe-failed iff unsupported and an error; not-supported iff neither. |
| Check.ResolvePort | internal/httpver/check.go:195-208 | The port is the override if given, else the URL's port, else 80 for scheme http and 443 otherwise. It is never empty. |
| Check.Ipv6AuthorityDoubleBracketed | internal/httpver/check.go:211-218 | As written, https://[2001:db8::1] is probed at https://[[2001:db8::1]]:443. |
| Check.ProbeHostBracketsOnce | internal/httpver/check.go:211-217 | With the corrected choice, an IPv6 host name gets exactly one pair of brackets before the port, and any other host name none. |
| Check.UrlWithPortKeepsUserinfo | internal/httpver/check.go:215-219 | The result URL used by the HTTP/1.1, HTTP/2 and HTTP/3 probes is the target URL re-printed with its user information kept and only the host given the explicit port. |
| Check.ProbeRequests | internal/httpver/check.go:221-230 | Exactly four probe requests are built. |
| Check.RunChecks | internal/httpver/check.go:166-460 | The method's result and the requests it sends equal `CheckOf`. |
| Check.ProbeTarget | internal/httpver/check.go:195-459 | For a parsed URL, the method builds the four requests and computes the result `Probe` specifies. |
| Check.ProbeVersions | internal/httpver/check.go:277-447 | The method fills the four slots with each probe's classification in version order. hasH2 and hasH3 are the HTTP/2 and HTTP/3 support flags. The TLS version and ALPN come from the HTTP/2 probe. `unresolved` holds iff some probe saw "no such host". |
| Check.RefusedTargetSentinel | internal/httpver/check.go:172-193 | A target refused by validation or by the second parse sends no probe and yields one result with version "error", error set, unsupported, score 0 and an empty grade. |
| Check.AcceptedTargetShape | internal/httpver/check.go:195-230 | An accepted target sends four requests, HTTP/1.0 to HTTP/3 in order, and gets four results in that version order. HTTP/1.0 goes to http://host on the override port or 80. The other three go to the result's URL on the resolved port. |
| Check.GradeFromProbes | internal/httpver/check.go:449-459 | Score and grade are the grading of the HTTP/3 and HTTP/2 results and the TLS version. TLS version and ALPN come from the HTTP/2 probe alone. |
| Check.SupportRules | internal/httpver/check.go:294-447 | HTTP/1.0 is supported iff the reply is HTTP/1.x, with detail "supported" iff the minor version is 0. HTTP/1.1 is supported only on an exact 1.1 reply. HTTP/2 and HTTP/3 are supported iff the major version is 2 or 3. |
| Check.ErrorRules | internal/httpver/check.go:109-121 | A transport error flags HTTP/1.0, 1.1 and 2 as errors but never HTTP/3. A refused connection reads "not supported (good) - TCP connection refused" on HTTP/1.0. No row is both supported and an error. |
| Check.UnresolvedIff | internal/httpver/check.go:284-291 | `unresolved` is set iff some probe sent saw DNS "no such host". |
| Check.GradeMatchesResults | internal/httpver/check.go:449-455 | For an accepted target the grade is A iff HTTP/3 is supported, and F iff neither HTTP/2 nor HTTP/3 is. |
| Check.WorkerCountForTargets | internal/httpver/check.go:584-600 | 0 workers for no targets. Otherwise min(max(1, 4 x CPUs), 64, target count), stated case by case: 4 x CPUs when in range, 64 when both exceed it, the target count when it is the smallest, 1 when the CPU count is not positive. |
| Check.RunChecksMulti | internal/httpver/check.go:487-519 | One result per target, in input order, each equal to the single-target check with the same override port. |
| Cache.RemoveFirst | cmd/http1/web.go:78-83 | Splicing out a key shortens the list by one exactly when the key was there. |
| Cache.ResultCache.constructor | cmd/http1/web.go:38-42 | A new cache is empty and its recent list is valid. |
| Cache.ResultCache.Get | cmd/http1/web.go:44-54 | A hit iff the key is present and has not expired strictly before now. A hit returns the stored results and scan time unchanged. |
| Cache.ResultCache.Set | cmd/httpver/web.go:52-87 | Afterwards the data is the old data without expired entries, plus the key's new entry (results, now, now + 4h, hidden iff not included). The recent list is moved along only when included. The recent-list invariant is kept. |
| Cache.ResultCache.DropExpired | cmd/httpver/web.go:58-63 | The sweep leaves exactly the entries still live at now and does not touch the recent list. |
| Cache.ResultCache.MoveToEnd | cmd/http1/web.go:76-90 | The recent list becomes the key moved to the end and cut to 32. The data is untouched and the invariant is kept. |
| Cache.ResultCache.RecentSnapshots | cmd/http1/web.go:103-137 | Nothing for limit <= 0. Otherwise the first `limit` rows of the visible entries, newest key first, each entry's results in order stamped with its scan time. |
| Cache.AppendEntryRows | cmd/http1/web.go:119-132 | The inner loop appends one entry's rows and stops once `limit` rows are collected. |
| Cache.RemoveFirstAt | cmd/http1/web.go:79-84 | Where the search loop stops determines the splice: the list without that position, or the list unchanged. |
| Cache.RemoveFirstSpec | cmd/http1/web.go:79-84 | On a duplicate-free list, splicing keeps every other key in order, keeps no copy of the key, and stays duplicate-free. |
| Cache.TouchShape | cmd/http1/web.go:76-90 | The moved list ends with the key, has at most 32 keys, and is the newest tail of the spliced list plus the key. |
| Cache.TouchSpec | cmd/http1/web.go:76-90 | The key ends up last and exactly once. The list stays duplicate-free and at most 32 long, and gains no key but this one. It keeps the newest of the other keys in order, dropping the oldest only when 32 would be exceeded. |
| Cache.TouchIdempotent | cmd/http1/web.go:76-90 | Storing again under the key that is already newest leaves the recent list as it is. |
| Cache.NewestAppend | cmd/http1/web.go:112-113 | The walk lists the rows of later keys before those of earlier ones. |
| Cache.NewestFromVisible | cmd/http1/web.go:114-118 | Every panel row comes from a present, live, non-hidden entry of a listed key. |
| Cache.SetThenGet | cmd/http1/web.go:44-73 | After a store, the key's entry holds the stored results and scan time. It is served iff the later time is at most four hours after the store. |
| Cache.SetKeepsOthers | cmd/http1/web.go:62-74 | Storing one key keeps exactly the other entries still live, unchanged. |
| Cache.StoredScanShownFirst | cmd/http1/web.go:103-118 | A scan stored as recent heads the panel walk, ahead of everything listed before. |
| Cache.HiddenScanNeverShown | cmd/http1/web.go:69-118 | A scan stored hidden never reaches the panel, even if its key was listed before. |
| Cli.GatherTargets | cmd/http1/main.go:41-85 | The method's result equals `Gathered`: an unreadable file is the error "failed to read targets file: ...". Otherwise the result is the file, flag and positional targets with repeats removed. |
| Cli.ReadTargetLines | cmd/httpver/main.go:26-32 | The file loop yields exactly the trimmed non-blank, non-comment lines in order. |
| Cli.ReadFlagParts | cmd/httpver/main.go:36-44 | The flag loop yields exactly the trimmed non-blank comma pieces in order. |
| Cli.Dedupe | cmd/httpver/main.go:50-58 | The `seen`-set loop yields the order-keeping exact-match de-duplication. |
| Cli.TargetLinesSpec | cmd/http1/main.go:50-56 | Every target read from the file is non-empty, trimmed and not a comment. Every such line of the file is read. |
| Cli.GatheredFailsOnlyOnUnreadableFile | cmd/http1/main.go:44-49 | Gathering fails iff the targets file cannot be read. |
| Cli.GatheredSpec | cmd/http1/main.go:44-84 | The result has no target twice. It is a subsequence of file targets, then flag targets, then positional arguments untrimmed, and holds every one of them. |
| Cli.DedupeIsCaseSensitive | cmd/http1/main.go:74-83 | "Example.com" and "example.com" are both kept: repeats are exact matches only. |
| Cli.OverridePort | cmd/http1/main.go:128-131 | The override is empty iff `-port` is at most 0; otherwise it is decimal digits. |
| Cli.OverridePortRoundTrip | cmd/http1/main.go:128-131 | A positive `-port` value is read back from the override as the same number. |
| Cli.PlanScanIff | cmd/http1/main.go:113-131 | With a readable file or none, a run scans iff some source names a target, and otherwise shows usage. The override is empty iff `-port` is at most 0. |
| Cli.PositionalArgumentScanned | cmd/httpver/main.go:46-47 | Every positional argument ends up among the scanned targets. |
| WebHelpers.ParseTargetsParam | cmd/http1/web.go:595-619 | The method's result equals `TargetsOf`: the trimmed, non-blank comma pieces with later case-insensitive repeats dropped. |
| WebHelpers.FirstOfEachTarget | cmd/httpver/web.go:396-407 | The loop with its lower-cased `seen` set keeps the first spelling of each piece, up to letter case. |
| WebHelpers.BlankTargets | cmd/http1/web.go:596-599 | Input that is blank after trimming names no target. |
| WebHelpers.TargetsOfSpec | cmd/http1/web.go:595-619 | Each target is trimmed, non-empty and comma-free, and no two are equal up to case. The targets are an order-kept selection of the pieces covering every piece up to case, and each is the first spelling of its piece. |
| WebHelpers.CacheKeyDeterminesTargets | cmd/http1/web.go:621-627 | For comma-free target lists, equal keys mean equal normalised lists, position by position. |
| WebHelpers.CacheKeyOrderSensitive | cmd/httpver/web.go:412-418 | Two different targets give different keys in the two orders. |
| WebHelpers.CacheKeyIgnoresCase | cmd/http1/web.go:621-627 | Spellings that differ only in letter case or surrounding white space share a key. |
| WebHelpers.FilterByGrade | cmd/http1/web.go:552-566 | Nothing for limit <= 0. Otherwise the first `limit` rows of the wanted grade, in order. |
| WebHelpers.GradeFilterSpec | cmd/http1/web.go:552-566 | The output is an order-kept selection of the input, all of the wanted grade and at most `limit` long. It misses no such row unless the limit is reached. |
| WebHelpers.SortByScore | cmd/http1/web.go:534-544 | The ranking holds the same rows as its input. |
| WebHelpers.SortByScoreSpec | cmd/http1/web.go:534-544 | The ranking is sorted by score in the asked direction, is a permutation of its input, and keeps rows of equal score in input order, as `sort.SliceStable` does. |
| WebHelpers.SelectTopByScoreSpec | cmd/http1/web.go:527-550 | The selection is sorted, has min(limit, input size) rows drawn from the input, and no row left out ranks strictly ahead of one kept. |
| WebHelpers.Plural | cmd/httpver/web.go:379-384 | The suffix is empty iff the count is 1. |
| WebHelpers.AgeOfSpec | cmd/httpver/web.go:359-377 | "just now" iff under two seconds. Whole seconds under a minute, whole minutes under an hour, whole hours under a day, whole days beyond, each the largest count of its unit that fits. |
| WebHelpers.FormatAgeSingular | cmd/http1/web.go:577-579 | Between one and two minutes the text is "1 minute ago", in the singular. |
| WebHelpers.StatusTitleMatchesEmoji | cmd/httpver/web.go:146-154 | Two rows get the same title iff they get the same status emoji. |
| WebHelpers.HasVersion | cmd/http1/web.go:275-282 | True iff some row has the wanted version and is supported. |
| WebHelpers.HasVersionOfSlots | cmd/httpver/web.go:168-175 | On the four fixed slots, `hasVersion` of a version reads that version's slot. |
| WebHelpers.HasVersionReadsSlot | cmd/httpver/web.go:168-175 | The same holds for the results of any accepted target. |
| WebScan.TooManyTargetsNamesLimit | cmd/http1/web.go:367 | The too-many-targets message names `MaxWebTargets`, the limit `HandleScan` compares the target count against. |
| WebScan.BuildOverview | cmd/http1/web.go:453-455 | The panels are the newest 12 visible rows, then the first 6 of those graded A and the first 6 graded F. |
| WebScan.OverviewSpec | cmd/http1/web.go:453-455 | The recent panel is a prefix of the visible rows, at most 12 long. Best and worst are order-kept selections of it, at most 6 each, graded A and F. |
| WebScan.FreshResults | cmd/http1/web.go:391-398 | A fresh scan has one result per target. |
| WebScan.ScanTargets | cmd/http1/web.go:391-398 | One target is checked directly and several through the batch. Either way the result is each target's check with no port override, in order. |
| HttpverWeb.GradeClassMeaning | cmd/httpver/web.go:158-167 | A refused target is "fail". For a scanned target, "fantastic" iff HTTP/3, "pass" iff HTTP/2 but not HTTP/3, and "fail" iff neither. |
| HttpverWeb.HandleScan | cmd/httpver/web.go:225-316 | No targets, or more than five, render the form (no message, or the limit message) and leave the cache alone. One to five targets are served as `Served` states. |
| HttpverWeb.ServeTargets | cmd/httpver/web.go:270-316 | A live cache hit keeps the cache and renders the stored results with their age. A miss stores the fresh results, listed as recent iff hiding was not asked for, then renders them. |
| HttpverWeb.ServedSpec | cmd/httpver/web.go:278-291 | A hit renders the stored results and leaves the cache untouched. On a miss, the fresh results are stored with scan time now. Hidden misses leave the recent list alone; any other miss, failed scans included, heads the recent panel. |
| Http1Web.GradeClassMeaning | cmd/http1/web.go:253-262 | A refused target is "fail". For a scanned target, "fantastic" iff HTTP/3, "borderline" iff HTTP/2 but not HTTP/3, and "fail" iff neither. |
| Http1Web.Http10ErrorNotSupported | internal/httpver/check.go:109-121 | Both wordings of an HTTP/1.0 transport error start with "not supported". |
| Http1Web.LegacyNotSupportedHttp10 | cmd/http1/web.go:152-163 | The HTTP/1.0 row reads as a good "not supported" iff its probe failed in transport, refused connections included. |
| Http1Web.LegacyNotSupportedHttp11 | cmd/http1/web.go:152-163 | The same for the HTTP/1.1 row. |
| Http1Web.LegacyNotSupportedModern | cmd/http1/web.go:152-163 | HTTP/2 and HTTP/3 rows are never read as good for being absent. |
| Http1Web.Http11Warning | cmd/http1/web.go:168-202 | The loop's flags equal `hasVersion` of each version, and the notes are joined as the template helper does. |
| Http1Web.Http11WarningShape | cmd/http1/web.go:168-202 | A warning appears iff the row is supported HTTP/1.1 and either neither HTTP/2 nor HTTP/3 is supported or HTTP/1.0 is. It ends with the downgrade sentence iff HTTP/1.0 is supported. |
| Http1Web.Http11WarningOnSlots | cmd/http1/web.go:168-202 | On the four fixed slots only the HTTP/1.1 row can carry the warning, under the conditions above read from the slots. |
| Http1Web.Http11WarningForCheck | cmd/http1/web.go:168-202 | The same holds for the results of any accepted target. |
| Http1Web.VersionDowngradeNote | cmd/http1/web.go:206-240 | The loop over supported rows gives the note the helper specifies. |
| Http1Web.DowngradeNoteOnSlots | cmd/http1/web.go:206-240 | HTTP/3 notes a possible downgrade iff HTTP/2 or HTTP/1.1 is also supported, and HTTP/2 iff HTTP/1.1 is. Unsupported rows and the HTTP/1.x rows carry no note. |
| Http1Web.DowngradeNoteForCheck | cmd/http1/web.go:206-240 | The same holds for the results of any accepted target. |
| Http1Web.InputValidationErrorForCheck | cmd/http1/web.go:474-494 | For one target the validation message appears iff nothing was probed, and it quotes the reason for the refusal. Several results never produce it. |
| Http1Web.UnresolvedHostErrorForCheck | cmd/http1/web.go:498-508 | For one target the DNS message appears iff one of its probes saw "no such host". |
| Http1Web.HasSuccessfulResult | cmd/http1/web.go:513-525 | True iff some resolved result has a supported version. |
| Http1Web.SuccessOfCheck | cmd/http1/web.go:513-525 | A refused target never counts as successful. A scanned one counts iff it resolved and one of its four versions is supported. |
| Http1Web.HandleScan | cmd/http1/web.go:332-469 | No targets, or more than five, render the form and leave the cache alone. One to five targets are served as `Served` states. |
| Http1Web.ServeTargets | cmd/http1/web.go:377-469 | A live hit keeps the cache. A miss stores the fresh results, listed as recent iff not hidden and something is supported. The page is JSON, a single-target error form, or the results. |
| Http1Web.RenderResults | cmd/http1/web.go:411-469 | The validation message comes first, then the DNS message, then the results page. |
| Http1Web.ServedSpec | cmd/http1/web.go:380-403 | A hit renders the stored results and leaves the cache untouched. A miss stores the fresh results with scan time now. A hidden or wholly unsupported miss leaves the recent list alone; any other miss heads the recent panel. |
| Http1Web.RefusedTargetPage | cmd/http1/web.go:398-428 | A single refused target renders the form with the reason it was refused. It is never listed as recent, whatever the hide switch says. |

## Left out

- The probes themselves are left out: HTTP/1.x, HTTP/2 and QUIC clients, TLS handshakes, timeouts and closing bodies. A probe's outcome is an input (`Env.net`), and so are `url.Parse` (`Env.parse`) and `net.ParseIP` (`Env.isIP`). `net.SplitHostPort` appears as the parsed URL's `hostPart`. The `net.OpError`, `syscall` and `net.DNSError` inspection is reduced to the three error kinds.
- Goroutines, the WaitGroup, mutexes and channels are not modelled. The four probes and the batch run sequentially. Each cache method is one atomic step, which is what its lock provides.
- Check.RunChecksMulti: results are written by index in one loop. Workers finishing in another order is not modelled, since the order of the returned slice does not depend on it.
- `CheckHTTPVersions`, `CheckHTTPVersionsMulti` and the JSON wrappers print or re-export `runChecks` and are not modelled. The streaming multi-target printer's output order depends on scheduling.
- Check.RunChecks, Check.ProbeTarget and Check.AcceptedTargetShape: the probe URLs are built with the corrected host choice `Check.ProbeHost` (see "## Findings"), not the as-written `Check.ProbeHostAsWritten`. For a target that is an IPv6 literal without a port, the model's result URL and requests carry one pair of brackets (`https://[2001:db8::1]:443`), where check.go:211-229 as written sends `https://[[2001:db8::1]]:443`. Whenever `SplitHostPort` succeeds, or the authority equals the host name, the two agree.
- Check.StatusEmoji returns one of three tokens instead of the emoji strings.
- The wall clock and `runtime.NumCPU` are parameters (`now` in nanoseconds, `numCpu`). One request uses one `now` for every cache call, whereas the Go code reads the clock in each.
- WebHelpers.AgeOfSpec: `formatAge` works on float seconds, minutes and hours. The model uses integer nanoseconds with truncating division, so float rounding of very long durations is not captured.
- Http1Web.InputValidationErrorForCheck: `%q` quoting is modelled as plain double quotes around the target (`Quote`). Go's escaping of quotes and control characters inside the target is not modelled.
- Strings.ToLower and Strings.TrimSpace handle ASCII letters and Unicode white space only. Unicode case folding is not modelled, and neither is `capFirst`, which needs it.
- HTML templates, `renderHTML`, `renderJSON`, `wantsJSON`, `runWebServer`, routing and `ParseForm` failures are not modelled. The page is a `Page` value: the form with its message, the results page, or JSON. `isJson` and the `hide` form value are inputs.
- `os.ReadFile` is not modelled. The targets file is a `TargetsFile` input: none named, unreadable with the reader's message, or its contents.
- Flag parsing, `--help`, `--web`, usage printing, timing output and JSON encoding in both `main` functions are not modelled. `Cli.PlanOf` covers what a run goes on to do: report the read error, show usage, or scan with the override port. The two programs print the read error slightly differently.

## Findings

| source | as written | input that shows it | evidently intended | confidence | as-written member | corrected member |
|---|---|---|---|---|---|---|
| internal/httpver/check.go:211-217 | When `net.SplitHostPort(u.Host)` fails, the whole authority `u.Host` is used as the host and passed to `net.JoinHostPort`. For an IPv6 literal without a port the authority is already bracketed, so it is bracketed a second time. | target `https://[2001:db8::1]` gives the probe URL `https://[[2001:db8::1]]:443` | The host is bracketed once, using `u.Hostname()` as the fallback: `https://[2001:db8::1]:443` | not executed | Check.ProbeHostAsWritten (shown by Check.Ipv6AuthorityDoubleBracketed) | Check.ProbeHost (proved by Check.ProbeHostBracketsOnce; used by Check.UrlWithPort and Check.Http10Url) |
