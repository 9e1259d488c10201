# webtraffic browsing engine in Dafny

webtraffic is a command-line web traffic generator. It runs forever. Each turn it:

1. picks a random root URL and a random depth in [min_depth, max_depth];
2. fetches the root URL;
3. extracts the page's `href="http(s)://…"` links and drops every link that contains a blacklist entry;
4. sleeps a random time in [min_wait, max_wait] and follows one of the remaining links, one level deeper, until the depth is used up.

A failed page, or one without usable links, is appended to the blacklist. A 429 answer raises both wait bounds by 10 seconds. The process also keeps a data meter and counts of good and bad requests. For its log lines it prints byte counts in base-1000 units.

This project models that engine and proves its properties:

- `blacklist.dfy` (module `Blacklist`): substring containment, the blacklist test `isBlacklisted` as an early-return loop, and the order-preserving filter it induces.
- `links.dfy` (module `Links`):
  - the link pattern as an explicit leftmost, non-overlapping scanner over the page text;
  - `getLinks` as a scan loop followed by a filter loop;
  - the properties of the links it returns.
- `units.dfy` (module `Units`): the divisor/exponent loop of `hrBytes`.
- `engine.dfy` (module `Engine`):
  - the session state as a value;
  - `doRequest`, one level of `recursiveBrowse`, the whole descent, and one turn of the driver loop, all as functions of that value;
  - the lemmas about them.
- `session.dfy` (module `Browser`):
  - class `Session`, whose fields are the package-level counters and the live configuration keys;
  - `doRequest`, `recursiveBrowse` and one driver turn as methods that update those fields in place.

  Each method is proved to leave the fields exactly as the corresponding `Engine` function says.

The network and the random number generator are inputs, given as an `Env`:

- `net(url, k)` is the outcome of the k-th request of the process: a request-construction error, a transport error, a read error with the partial body, or a status with a body;
- `rand(k)` is the k-th raw random number, and `rand.Intn(n)` is `rand(k) % n`.

Sleeps are recorded in a trace of durations in seconds (`sleeps`), and every request in a trace of URLs (`requested`). Page bodies are strings with one character per byte.

## Model

| member | source | states |
|---|---|---|
| Blacklist.Contains | main.go:279 | `strings.Contains`: true exactly when the entry occurs at some offset of the link; the empty entry occurs everywhere |
| Blacklist.IsBlacklisted | main.go:277-284 | the early-return loop answers true exactly when some blacklist entry is a substring of the link |
| Blacklist.Filter | main.go:261-266 | the filter loop of getLinks: keeps, in order, each extracted link that is not blacklisted, and never returns more links than it was given |
| Blacklist.FilterMembers | main.go:261-266 | a link survives the filter exactly when it was extracted and is not blacklisted |
| Blacklist.FilterAppend | main.go:261-266 | the filter works link by link, so survivors keep the order in which they were found |
| Blacklist.FilterKeepsClean | main.go:261-266 | nothing is deduplicated: with no link blacklisted every extracted link is returned, repeats included |
| Blacklist.EmptyEntryBlacklistsAll | main.go:277-284 | an empty blacklist entry excludes every link |
| Blacklist.ListedStaysBlacklisted | main.go:172 | a URL appended to the blacklist is excluded from then on, however the list grows |
| Blacklist.BlacklistMonotone | main.go:277-284 | growing the blacklist never re-admits a link it excluded |
| Links.QuoteIndex | main.go:43 | the first `"` at or after a position, with no quote before it |
| Links.MatchEnd | main.go:43 | a match at the start of the text ends on a quote that lies after `href="` and inside the text |
| Links.MatchEndFirstQuote | main.go:43 | that quote is the first one after `http://` or `https://`, and at least one character lies between the scheme and it |
| Links.MatchIsHttpUrl | main.go:43 | the URL a match yields starts with `http://` or `https://`, has a character after the scheme, and holds no quote |
| Links.Scan | main.go:259-262 | FindAllString plus the cut in getLinks: every match leftmost first, non-overlapping, with `href="` and the closing quote removed. Each link takes at least 15 characters of the page, so a page of n characters yields at most n/15 links |
| Links.ValidLinks | main.go:258-268 | what getLinks returns: the extracted links that are not blacklisted, again at most one per 15 characters of the page |
| Links.ScanYieldsHttpUrls | main.go:259-262 | every link found starts with `http://` or `https://`, has a character after `://` and has no `"` |
| Links.ScanIsSound | main.go:259-262 | every link found appears in the page as `href="` + link + `"` |
| Links.NoHrefNoLinks | main.go:259 | a page without `href="http` yields no match |
| Links.NoHrefNoValidLinks | main.go:258-268 | such a page makes getLinks return nothing, whatever the blacklist |
| Links.MatchStartsWithHrefHttp | main.go:43 | every match begins with `href="http` |
| Links.AnchorMatches | main.go:43 | a well-formed URL written as `href="` + URL + `"` is a match that closes right after the URL |
| Links.AnchorScan | main.go:259-262 | a well-formed URL inside an anchor is extracted exactly, and the scan resumes right after it |
| Links.RenderRoundTrip | main.go:259-262 | a page of anchors gives back its URLs in order, repeats included |
| Links.MatchAt | main.go:43 | one step of the search finds exactly the match that starts at the current position, if any |
| Links.FindLinks | main.go:259-262 | the scan loop returns every match leftmost first, with `href="` and the closing quote cut off |
| Links.GetLinks | main.go:258-268 | the append loop returns the extracted links that are not blacklisted, in page order |
| Links.ValidLinksMembers | main.go:258-268 | every returned link is a well-formed HTTP(S) URL and not blacklisted, and every extracted link that is not blacklisted is returned |
| Links.BlacklistedNeverFollowed | main.go:172 | once a URL is blacklisted no page ever offers it as a next hop |
| Units.HrScale | main.go:294-303 | plain bytes exactly below 1000; otherwise `div` = 1000^(exp+1) with div <= bytes < 1000·div, and `exp` <= 5, so the index into `"KMGTPE"` is in range for every int64 |
| Units.SeventhPowerOverflows | main.go:300-302 | 1000^7 exceeds the int64 range, which bounds the loop to six units |
| Engine.Intn | main.go:134 | `rand.Intn(n)` lies in [0, n) |
| Engine.Fetch | main.go:201-248 | doRequest appends the URL to the request trace. It returns the body exactly for a read response, the partial body on a read error, and an error otherwise. It sleeps the 30 s penalty on a transport error and on no other outcome. It keeps the gap between the wait bounds, and leaves the blacklist, the roots, the depth bounds and the randomness untouched |
| Engine.FetchCounters | main.go:204-247 | a fully read body adds its length to the data meter and one to exactly one counter (good for 200, bad otherwise); every error leaves all three alone |
| Engine.FetchRatchet | main.go:233-237 | both wait bounds rise by exactly 10 on a 429 and on no other outcome |
| Engine.HopPause | main.go:185 | the inter-hop sleep is drawn from [min_wait, max_wait] |
| Engine.NextLink | main.go:189 | the next hop is one of the valid links |
| Engine.PickRoot | main.go:134 | the turn's root is one of the configured roots |
| Engine.PickDepth | main.go:135 | the turn's depth lies in [min_depth, max_depth] |
| Engine.Hop | main.go:155-190 | one level of recursiveBrowse keeps min_wait <= max_wait |
| Engine.Proceed | main.go:161-189 | after the request, the level descends only when depth > 0, and keeps min_wait <= max_wait |
| Engine.HopRequests | main.go:155-166 | one level makes exactly one request, for its own URL, and at depth 0 it always stops |
| Engine.HopBlacklist | main.go:161-183 | one level appends at most its own URL to the blacklist, only when it stops, and never at depth 0 |
| Engine.HopWaits | main.go:233-237 | one level keeps the gap between the wait bounds and raises min_wait by 0 or 10 |
| Engine.HopCounters | main.go:222-240 | one level never decreases a counter, adds at most one to good plus bad, and leaves the roots and depth bounds alone |
| Engine.HopSleeps | main.go:185-187 | one level sleeps at most once: the 30 s penalty or a pause in [min_wait, max_wait] |
| Engine.HopDescends | main.go:176-189 | a level at depth >= 1 whose page has valid links descends to one of them |
| Engine.Browse | main.go:155-190 | recursiveBrowse: one level after another until a level stops; min_wait <= max_wait still holds at the end |
| Engine.BrowseRequests | main.go:155-190 | a branch requests its own URL first and makes between 1 and depth+1 requests; at depth 0 exactly one |
| Engine.BrowseBlacklist | main.go:166-183 | the blacklist is only appended to, by at most the branch's last requested URL, and never at depth 0 |
| Engine.BrowseDeadEnd | main.go:166-183 | at depth >= 1, a failed fetch or a page without valid links blacklists the URL once and ends the branch after that single request |
| Engine.BrowseFollowsValidLink | main.go:176-189 | otherwise the second request of the branch is one of the valid links of the first page |
| Engine.BrowseWaits | main.go:233-237 | across a branch the wait bounds move together and only upwards, so min_wait <= max_wait keeps holding |
| Engine.BrowseWaitSteps | main.go:233-237 | across a branch min_wait rises by a whole number of 10 s steps |
| Engine.BrowseCounters | main.go:223-242 | the data meter and both counters never decrease, good plus bad grow by at most the number of requests, and the roots and depth bounds stay put |
| Engine.BrowseSleeps | main.go:185-187 | sleeps are only appended to the trace, every sleep of a branch is the 30 s penalty or a pause no shorter than the initial min_wait and no longer than the final max_wait, and max_wait never falls |
| Engine.RunIteration | main.go:133-144 | one turn of the driver loop: browse from a drawn root to a drawn depth, then pause 10 s; min_wait <= max_wait holds after it |
| Engine.RunIterationRequests | main.go:133-139 | a driver turn first requests one of the roots and makes between 1 and max_depth+1 requests |
| Engine.RunIterationBlacklist | main.go:133-139 | a driver turn appends at most one URL to the blacklist: the last one it requested |
| Engine.RunIterationWaits | main.go:133-144 | a driver turn leaves the configuration valid for the next one and ends with the 10 s pause |
| Browser.Session.constructor | main.go:35-44 | a session starts with the loaded configuration, zero counters and empty traces; it is valid exactly when min_wait <= max_wait |
| Browser.Session.DoRequest | main.go:201-248 | updates the fields exactly as `Fetch` does and returns its result |
| Browser.Session.Draw | main.go:134 | consumes one random number and returns `rand.Intn(n)` for it |
| Browser.Session.AddToBlacklist | main.go:172 | appends the URL to the live blacklist |
| Browser.Session.PauseBetweenHops | main.go:185-187 | records one pause drawn from [min_wait, max_wait] |
| Browser.Session.RecursiveBrowse | main.go:155-190 | updates the fields exactly as `Browse` does and keeps min_wait <= max_wait |
| Browser.Session.FollowUp | main.go:161-172 | after the request: stop at depth 0, blacklist on error, otherwise read the page, as `Proceed` decides |
| Browser.Session.FollowLinks | main.go:176-189 | blacklist a page without valid links, otherwise pause, pick a link and descend, as `Proceed` decides |
| Browser.Session.RunOnce | main.go:133-144 | one driver turn updates the fields exactly as `RunIteration` does |

## Left out

- Negative depths: the depth is a natural number. In the source a negative `min_depth` gives a negative depth that never reaches the `depth == 0` case, and the descent only stops at an error or a page without links.
- Configuration plumbing: command-line wiring, configuration-file loading, environment binding and logging setup are not modelled. The session is built directly from the configuration values.
- HTTP details: request construction, the 5-second client timeout, the User-Agent header and reading the body are not modelled. They become the injected `Outcome`.
- Sleeps are recorded, never performed. The 30-second error penalty, the inter-hop pause and the 10-second root pause are entries of the `sleeps` trace.
- Randomness: `math/rand` is replaced by the injected `rand` sequence. `rand.Intn` panics on an empty range; the model turns that into preconditions, namely non-empty roots and `min <= max` for depths and waits.
- The driver's infinite loop is not modelled; one turn is (`RunIteration`, `RunOnce`). `RunIterationWaits` shows that each turn leaves the configuration able to run the next one.
- `hrBytes` float formatting: the `%.1f` formatting is left out; only the divisor/exponent loop is kept. Negative counts below 1000 take the plain-bytes branch as in the source.
- Log statements: all are left out. None of them affects control flow.
- Integer widths: `dataMeter` (int64) and the `int` counters are unbounded integers in the model. Overflow after about 9.2·10^18 bytes is not modelled.
- Text encoding: page bodies are converted to strings with one character per byte. No UTF-8 decoding is modelled; the pattern only looks at ASCII characters.
- Partial bodies: the partial body of a read error is carried in `Failed`, but no caller uses it, as in the source.
- Blacklisted roots: the model proves that no page ever offers a blacklisted URL as a next hop. Roots are drawn without a blacklist check, so a blacklisted root can be requested again; the model states no guarantee about that.
