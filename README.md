# PakePlus site logic, modelled in Dafny

This project models the parts of the PakePlus JS site that hold logic rather than layout:

- **the service worker** (`src/sw.js`): its URL classifier, the fetch dispatch, the three
  cache policies, install and activate, and the message protocol;
- **the in-page link checker** (`src/link-validator.js`);
- **the offline batch link fixer** (`src/batch-link-fixer.js`);
- **the prefetcher** (`src/performance-optimizer.js`);
- **the rules inside the page scripts** (`src/script.js` and `src/js/modern-core.js`);
- **the 3D viewer's state** (`src/app.js`);
- **the three font scripts** (`src/js/font-loader.js`, `src/js/exe-font-fixer.js` and
  `src/font-fallback.js`).

Each source file is one module. The module `Js` models the few JavaScript built-ins the
scripts rely on: truthiness, `indexOf`, `includes`, `startsWith`, `endsWith`, `trim`,
`toLowerCase`, `parseInt`, `find` and `findIndex`.

Source code that updates state in place is modelled as a Dafny class whose fields the
methods reassign:

- the cache storage of the service worker;
- the memo of the link checker;
- the link table and statistics of the batch fixer;
- the prefetch set and timers;
- the live-search counters;
- the viewer, the measuring tool and the page switcher;
- the list of loaded fonts;
- the element styles.

Every such method is specified against functions of the old state. Pure rules are functions,
and the lemmas beside them state what the source promises.

The model follows the code as written, including its quirks:

- `'/'` in the static list classifies every pathname that contains a slash as static;
- the 503 fallback is never produced;
- stale-while-revalidate resolves to `undefined` when the cache is empty and the fetch fails;
- networkFirst is the default branch.

Where verification showed that the code does not do what it evidently intends, the
"## Findings" table pairs the member that models the code as written with a corrected
member.

Browser effects become inputs:

- the network is an oracle of outcomes (`NetOutcome`, `Probe`, `FetchOutcome`);
- time is an integer number of milliseconds;
- canvas and layout measurements are functions passed in;
- file contents are a function from path to text;
- the file system of the batch fixer is the sequence of file paths a directory walk yields.

## Model

| member | source | states |
|---|---|---|
| ServiceWorker.SlashPathIsStatic | src/sw.js:219-222 | every pathname containing `/` is classified static, because `'/'` is in the static list and matching uses `includes` |
| ServiceWorker.ResourceExamples | src/sw.js:225-239 | `/images/logo.png` is an image, `/fonts/a.woff2` a font and `/api/items` an API call |
| ServiceWorker.HtmlPageExamples | src/sw.js:241-246 | `/about` and `/about.html` are HTML pages and `/css/style.css` is not |
| ServiceWorker.EmptyPathExamples | src/sw.js:219-246 | the empty pathname matches no static entry and is an HTML page |
| ServiceWorker.Guards | src/sw.js:101-117 | the dispatch tests six guards and the last one, the default branch, always holds |
| ServiceWorker.RouteIsFirstMatch | src/sw.js:97-118 | a non-GET request is never intercepted; a GET gets the policy of the first classifier that holds (static 1h, image 24h, font 30d, API network-first, HTML stale-while-revalidate, else network-first), and exactly one guard is first |
| ServiceWorker.RouteSlashPath | src/sw.js:105-106 | every GET whose pathname contains a slash goes to cacheFirst with the one-hour lifetime, so the later branches are unreachable for such URLs |
| ServiceWorker.ApiUrlGoesCacheFirst | src/sw.js:105-112 | an `/api/` URL is served cache-first, not network-first, as a consequence of the static-list quirk |
| ServiceWorker.FreshAntitone | src/sw.js:128-131 | a fresh entry only gets staler with time; a missing or unparseable `date` header is stale once `now` is past maxAge |
| ServiceWorker.Opened | src/sw.js:123 | `caches.open` creates the current cache when it is missing and leaves every other cache unchanged |
| ServiceWorker.AddAll | src/sw.js:61-64 | `addAll` is all-or-nothing: the bucket is unchanged unless every key is distinct and fetched with a storable response, in which case all keys are stored and every other key is kept |
| ServiceWorker.StaticKeys | src/sw.js:12-32 | the pre-cache list is the static list resolved against the origin, entry by entry |
| ServiceWorker.InstallCanSucceed | src/sw.js:57-73 | the static list has no duplicate, so install stores every entry once each one is fetched with a storable response |
| ServiceWorker.SumOverRemove | src/sw.js:293-298 | the summed cache size does not depend on the order in which keys are visited |
| ServiceWorker.SumOverPut | src/sw.js:140-146 | storing a response adds its size to the cache total, and replacing one swaps the old size for the new |
| ServiceWorker.SumOverSame | src/sw.js:288-302 | two caches that agree on a set of keys have the same total over them |
| ServiceWorker.BucketSize | src/sw.js:288-302 | the size loop returns the sum of the body sizes of every stored entry |
| ServiceWorker.TwoEntrySize | src/sw.js:288-302 | a cache holding bodies of 100 and 250 bytes reports 350 |
| ServiceWorker.NotificationTarget | src/sw.js:338-344 | the notification click opens `data.url` when it is truthy and `/` otherwise, never an empty URL |
| ServiceWorker.Worker.constructor | src/sw.js:57 | the worker starts with no caches, served from the given site origin |
| ServiceWorker.Worker.Open | src/sw.js:123 | opening creates the current cache if needed and returns its contents |
| ServiceWorker.Worker.Put | src/sw.js:140-146 | `cache.put` stores only acceptable responses and changes no other key or cache |
| ServiceWorker.Worker.Install | src/sw.js:57-73 | install opens the current cache and applies the all-or-nothing `addAll` of the static list, resolved against the site origin; a failure is swallowed |
| ServiceWorker.Worker.Activate | src/sw.js:76-94 | after activate the only cache left is the current one, with its contents unchanged |
| ServiceWorker.Worker.ClearAll | src/sw.js:279-285 | after `CLEAR_CACHE` no cache remains |
| ServiceWorker.Worker.CacheUrlList | src/sw.js:268-276 | `CACHE_URLS` opens the current cache and applies `addAll` to the given URLs |
| ServiceWorker.Worker.CacheSize | src/sw.js:288-302 | `GET_CACHE_SIZE` reports the summed body size of the current cache |
| ServiceWorker.Worker.OnMessage | src/sw.js:249-265 | exactly `GET_CACHE_SIZE` posts a reply; each message type has its effect on the caches; an unknown type changes nothing |
| ServiceWorker.Worker.CacheFirstPolicy | src/sw.js:121-161 | a fresh cached entry is answered without the network; otherwise the network response is returned and cached only when storable; on a network error an HTML page gets the site's cached offline page or `undefined`, any other request is rejected; the 503 response is never produced |
| ServiceWorker.Worker.NetworkFirstPolicy | src/sw.js:164-191 | a response before the timeout is returned and cached only when ok; a non-ok response is returned with no cache fallback; a timeout or error answers from the cache or rejects |
| ServiceWorker.Worker.StaleWhileRevalidatePolicy | src/sw.js:194-216 | the cached entry is returned when present, else the network response, else `undefined`; the entry is refreshed whenever the network gives a storable response |
| ServiceWorker.Worker.HandleFetch | src/sw.js:97-118 | only GET requests are answered, and any other method leaves the caches untouched; for each route the reply and the new caches are exactly those of the policy it picks (cache-first with the route's lifetime, network-first with the 3 s timeout, or stale-while-revalidate) |
| ServiceWorker.RepeatedFetchHitsCache | src/sw.js:121-146 | after a cacheFirst fetch stores a fresh response, a second request within the lifetime is answered from the cache |
| LinkValidator.KindsExclusive | src/link-validator.js:70-82 | `isExternalLink` holds iff the href starts with `http://`, `https://`, `mailto:` or `tel:`; `isAnchorLink` holds iff it starts with `#`; no href is both |
| LinkValidator.CountKind | src/link-validator.js:27-63 | a kind count never exceeds the number of links |
| LinkValidator.CountKindsSum | src/link-validator.js:27-63 | external, anchor and internal counts add up to the number of links |
| LinkValidator.Tally | src/link-validator.js:27-63 | after a run of per-link steps, total is the number of links, fixed never exceeds valid and valid + broken + external never exceeds total |
| LinkValidator.TallySnoc | src/link-validator.js:35-62 | one more link moves exactly the counter its step names, as the loop body does (a repaired link ends in valid and fixed, not broken) |
| LinkValidator.TallyCountsKinds | src/link-validator.js:27-63 | when each step fits its href's kind, the external counter is the number of external hrefs and valid + broken the number of internal ones |
| LinkValidator.TestLinkSyncIsInternalHtml | src/link-validator.js:240-247 | on every href that is not absolute, protocol-relative, `mailto:`, `tel:` or a fragment, the fix test `testLinkSync` and the hover test `isInternalHTMLLink` (lines 341-346) agree |
| LinkValidator.HtmlLinkHeuristicsDiffer | src/link-validator.js:240-247 | `testLinkSync` accepts `about.html`, `/` and `./`, rejects `about.php` and every `https://…` or `//…` href; `#intro.html` passes `testLinkSync` but not `isInternalHTMLLink`, which excludes anchors |
| LinkValidator.CheckLinkExists | src/link-validator.js:120-141 | the check always settles; a HEAD answer decides by `ok` or an opaque response; two network errors give false |
| LinkValidator.GetOnlyAfterHeadFails | src/link-validator.js:122-137 | the GET probe matters only when HEAD throws |
| LinkValidator.FindSimilarAnchor | src/link-validator.js:162-179 | a suggestion is one of the page's ids |
| LinkValidator.SimilarPrefersCaseVariant | src/link-validator.js:166-170 | the first case-insensitive match that differs from the target is suggested |
| LinkValidator.SimilarFallsBackToContainment | src/link-validator.js:162-179 | when no other id is a case variant of the target, nothing is suggested iff no id contains or is contained in the target (case-insensitively), and otherwise the first such id is suggested |
| LinkValidator.EmptyTargetTakesFirst | src/link-validator.js:172-176 | an empty target (`href` `#`) is contained in every id, so the first id is suggested when it is non-empty |
| LinkValidator.CollapseSlashes | src/link-validator.js:196 | `replace(/\/+/g, '/')` leaves no doubled slash, keeps the first character and never lengthens |
| LinkValidator.CollapseSlashesIdempotent | src/link-validator.js:196 | a string without doubled slashes is left as it is |
| LinkValidator.Candidates | src/link-validator.js:184-219 | there are four fix strategies, in source order |
| LinkValidator.ChooseFix | src/link-validator.js:221-236 | the applied fix is the first candidate that differs from the href and passes the check, or none when no candidate is accepted |
| LinkValidator.ChooseFixFirst | src/link-validator.js:221-233 | when candidate i passes the check and no earlier one does, it is the applied fix |
| LinkValidator.ChooseFixSound | src/link-validator.js:221-233 | an applied fix differs from the broken href and is validated or passes `testLinkSync` |
| LinkValidator.AppendHtmlNoHttp | src/link-validator.js:186-191 | appending `.html` does not create an `http` or `//` prefix |
| LinkValidator.ExtensionlessGetsHtml | src/link-validator.js:186-191 | an href without `.`, `#` or `?` that does not start with `http` or `//` is always repaired to `href + '.html'` |
| LinkValidator.Anchor.constructor | src/link-validator.js:25 | a link starts with its href and no classes or attributes |
| LinkValidator.Hrefs | src/link-validator.js:25-31 | the hrefs are read from the links in document order |
| LinkValidator.Validator.constructor | src/link-validator.js:7-12 | the memo sets and the pending map start empty |
| LinkValidator.Validator.MarkAsValid | src/link-validator.js:250-253 | `link-valid` is set and `link-broken` and `link-fixed` are cleared; nothing else changes |
| LinkValidator.Validator.MarkAsBroken | src/link-validator.js:255-260 | `link-broken` is set and `link-valid` and `link-fixed` are cleared; the title and `data-link-error` hold the reason |
| LinkValidator.Validator.MarkAsFixed | src/link-validator.js:262-265 | `link-fixed` is set and `link-broken` cleared |
| LinkValidator.Validator.MarkAsExternal | src/link-validator.js:267-281 | the link opens in a new tab with `noopener noreferrer` and carries the external icon once |
| LinkValidator.Validator.SuggestFix | src/link-validator.js:284-288 | the suggestion and its message are stored on the link with the `link-suggested-fix` class |
| LinkValidator.Validator.ValidateInternalLink | src/link-validator.js:85-117 | the answer is the memo's when the href is validated, broken or pending, and then nothing changes; otherwise the check runs: a pass adds the href to `validatedLinks`, a fail to `brokenLinks`, a throw to neither and answers false; the pending map ends as it began |
| LinkValidator.Validator.ValidateAnchorLink | src/link-validator.js:144-159 | an existing target marks the link valid; a missing one marks it broken, with a suggestion when a similar id exists |
| LinkValidator.Validator.ReportMissingAnchor | src/link-validator.js:150-158 | a missing target marks the link broken with the anchor named in its error, and a suggestion is added exactly when a similar non-empty id exists |
| LinkValidator.Validator.AttemptLinkFix | src/link-validator.js:182-237 | a fix is applied iff some strategy is accepted; the link then gets the first accepted href, keeps the old one in `data-original-href` and is marked fixed; otherwise it is marked broken |
| LinkValidator.Validator.ValidateOne | src/link-validator.js:36-62 | an external link is marked external (new tab, `noopener noreferrer`, icon) and moves the external counter; an anchor link is marked valid iff its target id is on the page, else reported missing, and moves no counter; an internal link is counted valid and marked valid iff its check passes, else counted fixed and rewritten to the first accepted strategy iff one exists, else counted broken and marked with its error |
| LinkValidator.Validator.ValidateAllLinks | src/link-validator.js:23-67 | the results are the tally of the steps each link took in document order, each step the one ValidateOne promises for that link's kind; so total is the number of links, external the number of external hrefs, valid + broken the number of internal ones, and with the anchors they add up to total |
| BatchLinkFixer.SplitJoin | src/batch-link-fixer.js:272 | splitting a `/`-joined path gives back its segments |
| BatchLinkFixer.ForwardSlashes | src/batch-link-fixer.js:270 | `replace(/\\/g, '/')` leaves no backslash and changes only backslashes |
| BatchLinkFixer.RelativeHref | src/batch-link-fixer.js:265-280 | the href has no backslash, starts with `../`, `/` or `./`, and is the path with `/` for `\`, with or without `./` in front |
| BatchLinkFixer.RelativeHrefCases | src/batch-link-fixer.js:273-277 | a path without backslashes or a leading slash is prefixed with `./`, or kept as it is when it already starts with a dot |
| BatchLinkFixer.RelativeHrefResolves | src/batch-link-fixer.js:265-280 | the href that `getRelativeHref` builds resolves, from the file's directory, back to the target file |
| BatchLinkFixer.GetRelativeHrefRoundTrip | src/batch-link-fixer.js:265-280 | the href written for a target is itself an internal link, and `resolveRelativePath` takes it, from the same file, back to the target |
| BatchLinkFixer.InternalLinkScope | src/batch-link-fixer.js:106-112 | fragment hrefs count as internal, while `http://`, `https://`, `mailto:`, `tel:` and protocol-relative hrefs do not |
| BatchLinkFixer.Basename | src/batch-link-fixer.js:166 | `path.basename`: the base name is the last segment, trailing slashes ignored: a slash-free suffix of the path that reaches back to a slash or to the start |
| BatchLinkFixer.Stem | src/batch-link-fixer.js:175 | the name without extension is the base name itself, or the part before its last dot when that dot is neither the first character nor part of `..` |
| BatchLinkFixer.AnchorNeverBroken | src/batch-link-fixer.js:116-138 | `resolveRelativePath` gives null for `#` hrefs and `checkFileExists(null)` is true, so anchor links are never counted broken |
| BatchLinkFixer.EscapeRegex | src/batch-link-fixer.js:300-302 | escaping never shortens the string and leaves a string without special characters unchanged |
| BatchLinkFixer.EscapeRegexRoundTrip | src/batch-link-fixer.js:300-302 | the escaped pattern consists only of literal tokens: each regex special character (`.*+?^${}()[]`, the vertical bar, the backslash) behind a backslash, every other character bare; read token by token, it is the original string |
| BatchLinkFixer.EscapedUnique | src/batch-link-fixer.js:300-302 | the escaped string is the only pattern of literal tokens that reads as the original string, so each special character is escaped and no other character is |
| BatchLinkFixer.MatchAt | src/batch-link-fixer.js:78 | a match of the href pattern at a position captures a non-empty href with no quote in it and ends past that position |
| BatchLinkFixer.Scan | src/batch-link-fixer.js:78-81 | the matches of the global regex are non-empty hrefs at strictly increasing positions |
| BatchLinkFixer.ScanAdvances | src/batch-link-fixer.js:81 | each step of the regex loop finds the first remaining match and resumes after it |
| BatchLinkFixer.RecordSpec | src/batch-link-fixer.js:82-101 | one match adds an entry for a new internal href on first sight, with its target resolved from this file, and one usage; other entries are unchanged; non-internal hrefs change nothing |
| BatchLinkFixer.RecordAllValid | src/batch-link-fixer.js:81-101 | recording a file keeps every entry's href equal to its key, with a usage and a single place in the order |
| BatchLinkFixer.RecordAllAt | src/batch-link-fixer.js:81-101 | after a file, an href has an entry iff it had one or occurs as an internal link, and its usages grew by its number of occurrences |
| BatchLinkFixer.RecordAllSpec | src/batch-link-fixer.js:81-101 | the table after a whole file, for every href at once |
| BatchLinkFixer.RecordAllKeepsFirstSight | src/batch-link-fixer.js:88-96 | an entry's resolved path and existence flag are those of its first sighting; it only gains usages |
| BatchLinkFixer.FindFile | src/batch-link-fixer.js:204-228 | a file found by name is in the walk and has that name, ignoring case |
| BatchLinkFixer.FindFileMisses | src/batch-link-fixer.js:204-228 | the search fails only when no file of the walk has the name |
| BatchLinkFixer.FirstSimilarFile | src/batch-link-fixer.js:231-262 | the similar-name search returns an HTML file whose lower-cased name contains, or is contained in, the base name |
| BatchLinkFixer.FirstSimilarMisses | src/batch-link-fixer.js:231-262 | it fails only when no HTML file has a similar name |
| BatchLinkFixer.Strategy | src/batch-link-fixer.js:166-197 | each strategy yields only files that exist |
| BatchLinkFixer.FirstStrategy | src/batch-link-fixer.js:160-201 | whichever strategy answers first, from a given one on, answers with a file of the walk |
| BatchLinkFixer.FindTarget | src/batch-link-fixer.js:160-201 | the target chosen is an existing file |
| BatchLinkFixer.FindCorrectLink | src/batch-link-fixer.js:160-201 | a replacement exists iff some strategy finds a file |
| BatchLinkFixer.FindCorrectLinkResolves | src/batch-link-fixer.js:160-201 | the replacement, resolved from the first file that uses the link, names an existing file |
| BatchLinkFixer.AppliedHrefs | src/batch-link-fixer.js:283-297 | as written, every file that uses the link receives the href computed for the first one |
| BatchLinkFixer.AppliedHrefBreaksInSubdirectory | src/batch-link-fixer.js:167 | a file in a subdirectory is given `./contacts.html`, which resolves to a missing file |
| BatchLinkFixer.CorrectedHrefs | src/batch-link-fixer.js:283-297 | corrected: one replacement per using file |
| BatchLinkFixer.CorrectedHrefsResolve | src/batch-link-fixer.js:283-297 | corrected: each replacement resolves, from its own file, to the chosen target |
| BatchLinkFixer.ExampleResolution | src/batch-link-fixer.js:116-138 | `./contacts.html` in a subdirectory resolves to a path the walk does not contain |
| BatchLinkFixer.FixableCount | src/batch-link-fixer.js:144-156 | fixed ≤ broken |
| BatchLinkFixer.FixedSetMembers | src/batch-link-fixer.js:144-156 | `fixedLinks` holds exactly the broken hrefs that have a replacement |
| BatchLinkFixer.Filter | src/batch-link-fixer.js:318-321 | the unfixed list is exactly the broken hrefs not in `fixedLinks` |
| BatchLinkFixer.Fixer.constructor | src/batch-link-fixer.js:10-21 | the table, the set of fixed links and every counter start empty or zero |
| BatchLinkFixer.HtmlOf | src/batch-link-fixer.js:45-62 | the files kept are exactly the walk's files whose last name ends in `.html`, and never more than the walk holds |
| BatchLinkFixer.RecordFilesSpec | src/batch-link-fixer.js:65-70 | recording whole files one after the other keeps every entry's href equal to its key with a non-empty use list, and keeps every entry already present |
| BatchLinkFixer.Fixer.ScanHtmlFiles | src/batch-link-fixer.js:45-62 | the HTML list is extended by exactly the walk's files whose name ends in `.html`, in walk order; the table, the fixed set and every counter are unchanged |
| BatchLinkFixer.Fixer.RecordMatch | src/batch-link-fixer.js:82-101 | one match increments `linksChecked` and records the href in the table |
| BatchLinkFixer.Fixer.ScanOnce | src/batch-link-fixer.js:81-101 | one pass of the regex loop moves strictly forward; a match at the position is recorded in the table and counted, so the matches found so far followed by those still ahead are always the file's whole match list |
| BatchLinkFixer.Fixer.AnalyzeFileLinks | src/batch-link-fixer.js:73-103 | `linksChecked` grows by the number of matches and the table is the recording of all of them |
| BatchLinkFixer.Fixer.AnalyzeLinks | src/batch-link-fixer.js:65-70 | each HTML file is processed once, in order: `filesProcessed` grows by their number, `linksChecked` by their total number of href matches, and the table becomes the one obtained by recording each file's links in turn; no entry is lost and the broken and fixed counters are unchanged |
| BatchLinkFixer.Fixer.FixEntry | src/batch-link-fixer.js:144-155 | a broken entry is counted, and counted fixed with its href added to `fixedLinks` iff a replacement is found |
| BatchLinkFixer.RepairableIffFound | src/batch-link-fixer.js:145-149 | an entry whose file is missing is broken, and it is repairable exactly when findCorrectLink returns a replacement |
| BatchLinkFixer.Fixer.FixBrokenLinks | src/batch-link-fixer.js:141-157 | `linksBroken` counts the entries that do not exist; `linksFixed` counts those with a replacement and is at most `linksBroken`; `fixedLinks` is a subset of the broken hrefs |
| BatchLinkFixer.Fixer.Fix | src/batch-link-fixer.js:24-42 | the walk HTML files are appended to `htmlFiles`; the table is the recording of every HTML file in order; `filesProcessed` grows by the number of HTML files and `linksChecked` by their matches; `linksBroken`, `linksFixed` and `fixedLinks` grow by the broken, repairable and repaired entries in insertion order, fixed never exceeding broken; the returned list is the report list of broken unfixed hrefs in insertion order |
| BatchLinkFixer.RunFixer | src/batch-link-fixer.js:334-342 | a fresh fixer run once ends with exactly the walk HTML files, the table recorded from an empty one, the file and link counts of those files, no more fixed than broken links, and a report listing exactly the broken hrefs no strategy finds a file for |
| PerformanceOptimizer.InternalLinkRule | src/performance-optimizer.js:104-112 | the empty href is not internal; any other is internal iff it starts with `./`, `/` or `#`, or contains `.html` without an `http` prefix |
| PerformanceOptimizer.InternalLinkExamples | src/performance-optimizer.js:104-112 | `about.html` is internal and an absolute `http` URL is not |
| PerformanceOptimizer.RemoveFirstSlash | src/performance-optimizer.js:299 | `replace('/', '')` removes only the first slash |
| PerformanceOptimizer.CurrentIndex | src/performance-optimizer.js:299-307 | the index of the first listed page whose name occurs in the path, and -1 exactly when none does |
| PerformanceOptimizer.NextPage | src/performance-optimizer.js:297-311 | the page after the first listed page that occurs in the path, and nothing for the last page or an unmatched path |
| PerformanceOptimizer.NextPageExamples | src/performance-optimizer.js:300-309 | about is followed by single-project; contacts has no successor |
| PerformanceOptimizer.ContactsIsLast | src/performance-optimizer.js:300-309 | the contacts page prefetches nothing |
| PerformanceOptimizer.ConnectionDelay | src/performance-optimizer.js:315-328 | `slow-2g`/`2g` give 1000 ms, `4g` 50 ms, anything else keeps the delay |
| PerformanceOptimizer.PendingLinks | src/performance-optimizer.js:120-136 | the pending link appends are the urls of the timers that will append a link |
| PerformanceOptimizer.Optimizer.constructor | src/performance-optimizer.js:7-12 | no page prefetched, delay 100 ms, no links, no timers |
| PerformanceOptimizer.Optimizer.PrefetchPage | src/performance-optimizer.js:114-137 | a url already prefetched or without `.html` is ignored; otherwise one link append is scheduled after the delay |
| PerformanceOptimizer.Optimizer.FireTimer | src/performance-optimizer.js:120-136 | a firing link append adds one prefetch link and records the url; the prefetched set only grows |
| PerformanceOptimizer.Optimizer.PrefetchCriticalPages | src/performance-optimizer.js:139-151 | exactly the four listed pages are scheduled, each after 1000 ms |
| PerformanceOptimizer.Optimizer.SetupLinkPrefetch | src/performance-optimizer.js:77-102 | exactly the internal links are marked for prefetching; no page is prefetched or linked yet and the delay is kept; the four critical pages are scheduled after the existing timers, in order, each to prefetch after 1000 ms |
| PerformanceOptimizer.Optimizer.PrefetchNextPage | src/performance-optimizer.js:297-312 | the page after the current one in the page order gets a link-append timer with the current delay, unless it is already prefetched; the last page, or a path that names no listed page, schedules nothing; nothing else changes |
| PerformanceOptimizer.Optimizer.HandleConnectionChange | src/performance-optimizer.js:315-328 | the delay follows the connection type when the browser reports one |
| PerformanceOptimizer.Optimizer.PrefetchPageOnce | src/performance-optimizer.js:114-137 | corrected: with the url recorded when it is scheduled, no page is linked or pending twice |
| PerformanceOptimizer.Optimizer.FireLinkOnce | src/performance-optimizer.js:120-136 | corrected: a firing append moves the page from pending to linked, keeping pages unique |
| PerformanceOptimizer.DistinctMove | src/performance-optimizer.js:134-135 | moving a page from pending to linked keeps the pages distinct |
| PerformanceOptimizer.DoubleTouchPrefetch | src/performance-optimizer.js:86-93 | as written, touchstart then mouseenter on one link appends two prefetch links for the same page |
| PerformanceOptimizer.DoubleTouchPrefetchOnce | src/performance-optimizer.js:114-137 | corrected: the same events append one link |
| SiteScript.DetectIE | src/script.js:5-6 | `isIE` is the number after `msie` if present, else 11 for `trident`, else 12 for `edge`, else false |
| SiteScript.IeClasses | src/script.js:598-603 | no IE class unless `isIE` is truthy; for a truthy version, `ie-edge` iff it is 12, `ie-11` iff 11, `lt-ie-10` iff below 10, `ie-10` iff below 11, and no other class |
| SiteScript.IeClassTable | src/script.js:598-603 | IE 9 gets `lt-ie-10` and `ie-10`, IE 10 only `ie-10`, IE 11 `ie-11`, Edge `ie-edge`, and a NaN version nothing |
| SiteScript.SupportScriptByEngine | src/script.js:6-14 | Trident loads the support script, Edge does not, and neither does a browser that is not IE |
| SiteScript.IeClassesAgreeWithSupport | src/script.js:9-14 | for a truthy version, the support script loads iff the page is marked `ie-11` or `ie-10`; `lt-ie-10` always comes with `ie-10`; `ie-edge` comes alone |
| SiteScript.PhoneNumberValid | src/script.js:296-299 | the validator accepts `''` and otherwise accepts iff the value matches `^(\+\d)?[0-9\-\(\) ]{5,}$` |
| SiteScript.SearchedIsOffer | src/script.js:194-206 | the search result is nothing or the value offered by an alias it visited |
| SiteScript.SearchPicksNearestSettled | src/script.js:196-205 | when an alias at or below the breakpoint offers a settling value, the nearest one wins |
| SiteScript.SearchWithoutOffer | src/script.js:196-205 | with no offer at or below the breakpoint, the field stays unset |
| SiteScript.SearchPicksLowestUnsettled | src/script.js:196-205 | when only unsettling values (0 or NaN items) are offered, the lowest one wins, since the search keeps going |
| SiteScript.SearchStep | src/script.js:197-204 | one step of the loop takes the offer only for a field not yet settled |
| SiteScript.OwlResponsive | src/script.js:189-207 | every breakpoint gets the entry found by the downward search from its own alias |
| SiteScript.OwlSearch | src/script.js:196-205 | the three fields after visiting aliases j down to `undefined` are the downward search's results for breakpoint j |
| SiteScript.NavbarEntry | src/script.js:719-742 | builder mode pins `stickUp` to false; otherwise it is present iff its attribute is truthy |
| SiteScript.NavbarEntryLocal | src/script.js:719-742 | a breakpoint's entry depends only on its own alias's attributes |
| SiteScript.NavbarResponsive | src/script.js:710-743 | one entry per breakpoint, built from that breakpoint's attributes |
| SiteScript.Total | src/script.js:365-370 | the error total is zero iff no element has a message |
| SiteScript.IsValidated | src/script.js:360-425 | true for no elements; otherwise true iff no validation message and, with a captcha present, a non-empty token; each element is flagged iff it has messages |
| SiteScript.NormalizeResult | src/script.js:1172 | the normalised result always has five characters, and a five-character result is kept |
| SiteScript.NormalizedMessages | src/script.js:1058-1065 | normalising is idempotent; a result of another length shows the generic failure message; a five-character code outside the table shows nothing |
| SiteScript.SearchOptionsAsWritten | src/script.js:793-800 | as written, the live count is parsed from `data-search-live`, not from `data-search-live-count` |
| SiteScript.SearchOptionsCorrected | src/script.js:798 | corrected: the count is parsed from its own attribute, everything else as before |
| SiteScript.LiveCountReadsWrongAttribute | src/script.js:798 | a count of 6 with a named results container gives NaN as written and 6 corrected |
| SiteScript.LiveSearch.constructor | src/script.js:799 | the counters start at zero and nothing is shown |
| SiteScript.LiveSearch.Issue | src/script.js:262-264 | issuing a request un-clears the results and numbers it `current + 1` |
| SiteScript.LiveSearch.OnInput | src/script.js:816-837 | a trimmed term longer than two characters issues a request; an empty one clears the results; anything else changes nothing |
| SiteScript.LiveSearch.Receive | src/script.js:273-284 | as written, a response is shown iff it brings `processed` up to `current` and the results are not cleared |
| SiteScript.LiveSearch.ReceiveLatest | src/script.js:273-284 | corrected: only the response to the latest request is shown, and the request shown never goes back |
| SiteScript.StaleResponseShown | src/script.js:274-276 | as written, when answers arrive out of order the answer to request 2 is left showing after request 3 |
| SiteScript.LatestResponseShown | src/script.js:274-276 | corrected: the same arrivals leave request 3's answer showing |
| SiteScript.TransitionSkipped | src/script.js:101 | a link containing `#`, `callto:`, `tel:`, `mailto:` or `://` anywhere never animates, nor does a light-gallery item; any other link without `#` or `:` always animates |
| SiteScript.MarkerSkipped | src/script.js:101 | each of the five markers, wherever it occurs in the link, stops the page transition |
| ModernCore.DeepClone | src/js/modern-core.js:369-380 | the clone equals the original: primitives, null and functions as they are, a date rebuilt from its time, arrays element by element, objects key by key |
| ModernCore.JsObject.constructor | src/js/modern-core.js:233 | an object holds the given properties |
| ModernCore.Extend | src/js/modern-core.js:233-240 | every own key of the source overwrites the target, the other target keys are kept, and the target is returned |
| ModernCore.AjaxRequest | src/js/modern-core.js:243-269 | caller options override the defaults (GET, JSON headers, 10000 ms); a body is sent iff `data` is truthy and the method is not GET |
| ModernCore.AjaxSettle | src/js/modern-core.js:270-290 | a network error is passed on; a non-ok response rejects with `HTTP status: text`; an ok body is read as JSON exactly when the data type is `'json'`, and a body that does not parse rejects with the parse error; the success callback gets the data read, and the promise resolves with it unless that callback throws, whose error then rejects |
| ModernCore.HttpErrorsDistinct | src/js/modern-core.js:272-275 | two failures with different status codes reject with different errors |
| ModernCore.Element.constructor | src/js/modern-core.js:21 | a new element has no classes, attributes or content |
| ModernCore.VisitedCount | src/js/modern-core.js:44-51 | the number of callbacks run is between the start and the length |
| ModernCore.VisitedCountStops | src/js/modern-core.js:44-51 | the loop stops right after the first callback that returns false |
| ModernCore.Collection.constructor | src/js/modern-core.js:21-41 | a falsy selector gives length 0, a string its number of matches, a node or window length 1 |
| ModernCore.Collection.Each | src/js/modern-core.js:44-51 | callbacks run on 0, 1, … in order and stop right after the first one that returns false |
| ModernCore.Collection.HasClass | src/js/modern-core.js:140-142 | false on an empty collection; a TypeError iff the first item is the window; otherwise true iff the first element has the class |
| ModernCore.Collection.GetAttr | src/js/modern-core.js:145-152 | null on an empty collection; a TypeError iff the first item is the window; otherwise exactly the first element value, null iff it lacks the attribute |
| ModernCore.Collection.GetHtml | src/js/modern-core.js:155-162 | `''` on an empty collection; undefined iff the first item is the window; otherwise the first element HTML |
| ModernCore.Collection.GetText | src/js/modern-core.js:165-172 | `''` on an empty collection; undefined iff the first item is the window; otherwise the first element text |
| ModernCore.Collection.AddClass | src/js/modern-core.js:122-126 | every element gains the class; only classes change |
| ModernCore.Collection.RemoveClass | src/js/modern-core.js:128-132 | every element loses the class; only classes change |
| ModernCore.Collection.ToggleClass | src/js/modern-core.js:134-138 | every element gains the class if it lacked it and loses it otherwise; only classes change |
| ModernCore.Collection.SetAttr | src/js/modern-core.js:145-152 | every element gets the attribute value; only attributes change |
| ModernCore.Collection.SetText | src/js/modern-core.js:165-172 | every element gets the text, and its markup becomes that text escaped; only text and markup change |
| ModernCore.EscapeText | src/js/modern-core.js:168 | the markup of a text node never contains `<` or `>`, and text without `&`, no-break space, `<` or `>` is its own markup |
| ModernCore.Collection.SetDisplay | src/js/modern-core.js:175-185 | show clears the display style and hide sets it to `none` on every element; only the display style changes |
| ModernCore.SetThenGetAttr | src/js/modern-core.js:145-152 | an attribute set through a non-empty collection reads back as the value set; an empty one reads null |
| ModernCore.AddThenHasClass | src/js/modern-core.js:120-142 | after `addClass`, `hasClass` answers true iff the collection is not empty |
| ModernCore.RemoveThenHasClass | src/js/modern-core.js:128-142 | after `removeClass`, `hasClass` answers false |
| ModernCore.ToggleThenHasClass | src/js/modern-core.js:134-142 | `toggleClass` flips what `hasClass` answers on a non-empty collection; an empty one answers false throughout |
| ModernCore.SetThenGetText | src/js/modern-core.js:155-172 | text set through a non-empty collection reads back as itself, and its markup as the escaped text; an empty collection reads empty strings |
| ModernCore.ReadWindow | src/js/modern-core.js:35-36 | on `$(window)`, `hasClass` and `attr(name)` throw a TypeError and `html()` and `text()` give undefined |
| ViewerApp.UploadType | src/app.js:830-840 | as written, `.gltf`, `.obj`, `.fbx`, `.stl` and `.ply` map to their type and any other name, `.glb` included, is refused |
| ViewerApp.UploadTypeCorrected | src/app.js:830-840 | corrected: `.glb` keeps the initial `glb` type; other names as before |
| ViewerApp.GlbSuffix | src/app.js:831-836 | a `.glb` name ends with none of the accepted extensions |
| ViewerApp.LibraryFilesRefusedOnUpload | src/app.js:830-840 | each shipped library model is refused on upload as written and accepted with its own type when corrected |
| ViewerApp.Viewer.constructor | src/app.js:493-497 | the viewer starts with the shipped library, no model and the first list entry active |
| ViewerApp.Viewer.LoadModel | src/app.js:664-733 | the current model leaves the scene first; a known type loads the asset or shows the loader's error; an unknown type gives the default box |
| ViewerApp.Viewer.SelectModel | src/app.js:508-512 | a click marks only that entry active and loads its model: a model with a loader is shown when it loads, and otherwise the scene is empty and the loader failure is reported; a type without a loader shows the default box; no error otherwise |
| ViewerApp.Viewer.Upload | src/app.js:823-851 | an upload is accepted iff there is a file of at most 100·1024·1024 bytes with an accepted extension; it then appends exactly one entry (path = url, the detected type) and loads it, reporting the loader failure when it does not load; a missing file changes nothing, an oversized or unsupported one only adds its error tip |
| ViewerApp.OpenScene | src/app.js:735 | building the scene loads the first library model |
| ViewerApp.MeasureTool.constructor | src/app.js:48-61 | the tool starts inactive with no points |
| ViewerApp.MeasureTool.OnClick | src/app.js:63-83 | clicks are ignored when inactive or missing; a hit appends one point and a sphere; a line and the distance appear only once there are two points |
| ViewerApp.MeasureTool.SetActive | src/app.js:121-128 | `setActive(false)` empties the points and spheres; `setActive(true)` only sets the flag |
| ViewerApp.MeasureThreePoints | src/app.js:63-128 | three clicks draw two lines and show the distance twice; switching off keeps no point |
| ViewerApp.ControlSpeed | src/app.js:558-562 | `fast` gives 1.5, `slow` 0.5, anything else 1.0 |
| ViewerApp.LightIntensities | src/app.js:563-568 | `bright`, `soft` and anything else give ambient 1.0, 0.3, 0.6 and directional 1.2, 0.5, 0.8 |
| ViewerApp.PixelRatio | src/app.js:550-557 | `high` uses the device ratio, `medium` 1.2, anything else 1.0 |
| ViewerApp.SettingsRanges | src/app.js:550-570 | every speed is 0.5, 1.0 or 1.5 and the directional light is always brighter than the ambient one |
| ViewerApp.SceneControls.constructor | src/app.js:616-640 | the scene starts with ambient 0.6, directional 0.8 and the device pixel ratio |
| ViewerApp.SceneControls.ApplySettings | src/app.js:548-571 | the pixel ratio, both speeds and both intensities follow the setting tables |
| ViewerApp.DefaultsKeepInitialLights | src/settingsData.js:1-7 | the default settings leave the initial lights and pixel ratio unchanged |
| ViewerApp.Pages.constructor | src/app.js:472 | no page is active before the first switch |
| ViewerApp.Pages.ShowPage | src/app.js:472-482 | the start page is hidden, the main and settings pages lose `active`, the target gains it, and the scene is built iff it is the main page |
| ViewerApp.SwitchPages | src/app.js:472-482 | at most one of the main and settings pages is active after any switch |
| FontLoading.CriticalFaces | src/js/font-loader.js:51-56 | the families pushed are exactly the critical ones among the faces, with no more entries than faces |
| FontLoading.AllCriticalHaveEnoughEntries | src/js/font-loader.js:121-125 | once every critical font has loaded, the written length test holds too; the converse is refuted by `TwoFacesOfOneFamily` |
| FontLoading.FontLoader.constructor | src/js/font-loader.js:18 | no font loaded and nothing announced |
| FontLoading.FontLoader.DetectFontSupport | src/js/font-loader.js:28-38 | the two support classes are added iff the features are present |
| FontLoading.FontLoader.OnFontsLoaded | src/js/font-loader.js:128-151 | `fonts-loaded` is added, the loaded list is announced and no element keeps `font-loading` |
| FontLoading.FontLoader.CheckAllFontsLoaded | src/js/font-loader.js:121-125 | as written, fonts count as loaded once there are at least as many entries as critical fonts, duplicates included |
| FontLoading.FontLoader.OnLoadingDone | src/js/font-loader.js:51-58 | the critical faces of the event are appended to the loaded list; then, when the written length test holds, `fonts-loaded` is added, the loaded list is announced and no element keeps `font-loading`, and otherwise nothing else changes |
| FontLoading.FontLoader.TestFontLoaded | src/js/font-loader.js:85-118 | the interval stops after at most 11 ticks, at the first width that differs from the fallback; the family is pushed, and the written check runs, iff some width within the 12 measurements differs; otherwise nothing changes |
| FontLoading.FontLoader.OnTimeout | src/js/font-loader.js:154-162 | the timeout calls `onFontsLoaded` only if `fonts-loaded` is not already set |
| FontLoading.FontLoader.CheckAllCriticalLoaded | src/js/font-loader.js:121-125 | corrected: `fonts-loaded` is added, the list announced and `font-loading` cleared iff every critical family has loaded; otherwise nothing changes |
| FontLoading.FontLoader.OnLoadingDoneCorrected | src/js/font-loader.js:51-58 | corrected: the critical faces are appended and the document is marked and announced iff every critical family has then loaded |
| FontLoading.CriticalFacesSnoc | src/js/font-loader.js:52-56 | the faces are filtered one at a time, in order |
| FontLoading.TwoFacesOfOneFamily | src/js/font-loader.js:121-125 | as written, two Montserrat faces mark the document loaded while Questrial has not loaded |
| FontLoading.TwoFacesOfOneFamilyCorrected | src/js/font-loader.js:121-125 | corrected: the same event leaves the document unmarked |
| ExeFontFixer.DetectEnvironment | src/js/exe-font-fixer.js:33-45 | `data-env` is `exe` iff some packaged-environment check holds; `data-online` is the negation of offline |
| ExeFontFixer.OfflineOrFileIsExe | src/js/exe-font-fixer.js:48-62 | an offline page, and a page opened from `file://`, are always `exe` |
| ExeFontFixer.PlainWebPage | src/js/exe-font-fixer.js:48-62 | an online https page from a named host in a plain browser is `web` |
| ExeFontFixer.Join | src/js/exe-font-fixer.js:67 | joining no names gives the empty string; otherwise the result ends with the last name |
| ExeFontFixer.JoinIncludesEach | src/js/exe-font-fixer.js:67 | every name of the list occurs in the joined text |
| ExeFontFixer.SafeStackNamesEveryFont | src/js/exe-font-fixer.js:11-22 | the safe stack names every safe font and ends with `sans-serif` |
| ExeFontFixer.ChineseInConcat | src/js/exe-font-fixer.js:89-91 | text contains Chinese iff one of its parts does |
| ExeFontFixer.ChildTextInParent | src/js/exe-font-fixer.js:79 | a child's Chinese text is part of its parent's text |
| ExeFontFixer.ChineseChildMakesChineseParent | src/js/exe-font-fixer.js:76-82 | an element with a Chinese-text child gets the CJK stack too |
| ExeFontFixer.PreorderShape | src/js/exe-font-fixer.js:158-161 | the elements of a subtree have distinct paths under the subtree's own path |
| ExeFontFixer.ApplyFrame | src/js/exe-font-fixer.js:148-161 | elements outside those fixed are untouched |
| ExeFontFixer.ApplyFixesEach | src/js/exe-font-fixer.js:148-156 | each fixed element gets the font its own text calls for, and carries `chinese-text` iff it already did or its text contains Chinese |
| ExeFontFixer.SubtreeFixed | src/js/exe-font-fixer.js:148-161 | every element of the subtree gets the CJK stack and class if its text contains Chinese, else the safe stack; elements outside are untouched |
| ExeFontFixer.Page.constructor | src/js/exe-font-fixer.js:9 | no element is styled yet |
| ExeFontFixer.Page.FixOne | src/js/exe-font-fixer.js:148-155 | one element gets the safe stack, then the CJK stack and class when its text contains Chinese |
| ExeFontFixer.Page.FixElementFont | src/js/exe-font-fixer.js:148-161 | the recursion styles the subtree in document order |
| ExeFontFixer.Page.FixFonts | src/js/exe-font-fixer.js:65-86 | the loop styles every element in document order |
| ExeFontFixer.LoopMatchesRecursion | src/js/exe-font-fixer.js:65-161 | `fixFonts` and `fixElementFont` from the root leave the page in the same state |
| FontFallback.SystemFonts | src/font-fallback.js:64-76 | the stack is chosen by first match: `windows`, then `mac`, then `linux`, else the YaHei stack |
| FontFallback.NameAgreesWithStack | src/font-fallback.js:87-89 | the logged system name always agrees with the stack chosen |
| FontFallback.WindowsWins | src/font-fallback.js:68-70 | a Windows user agent that also mentions Macintosh gets the YaHei stack |
| FontFallback.IsFontAvailable | src/font-fallback.js:10-30 | a font is available iff its width differs from the monospace baseline |
| FontFallback.Styled.constructor | src/font-fallback.js:34-36 | an element holds the given font and classes |
| FontFallback.SetFonts | src/font-fallback.js:53-59 | every listed element gets the stack; only fonts change |
| FontFallback.ApplyFontFallback | src/font-fallback.js:33-61 | the body gets the local stack iff Montserrat is unavailable; when Questrial is unavailable every brand gets the brand stack and every other heading the local stack, and otherwise their fonts are kept; only fonts change |
| FontFallback.SansSerifLooksLikeFallback | src/font-fallback.js:99 | any stack ending in `sans-serif` passes the written test |
| FontFallback.LocalStackLooksLikeFallback | src/font-fallback.js:49-58 | the stacks that `applyFontFallback` itself sets pass the written test |
| FontFallback.SansSerifStackIsNotSerif | src/font-fallback.js:99 | `Arial, sans-serif` passes the written test although it names no serif font |
| FontFallback.SerifStackIsSerif | src/font-fallback.js:99 | a stack ending in the generic `serif` passes both the written and the intended test |
| FontFallback.SerifFamilyLooksLikeFallback | src/font-fallback.js:99 | every hit of the intended test is also a hit of the written one |
| FontFallback.HandleFontTimeout | src/font-fallback.js:93-109 | the fallback fires iff the computed font passes the test (written: contains `serif`; intended: names a serif family); it then adds `system-font-fallback` to the body and every element, and otherwise no class changes; only classes change |

## Left out

- Browser APIs are not modelled: the Cache API itself, `fetch` bodies, `Response.blob`, `postMessage` ports, `skipWaiting` and `clients.claim`, the empty background-sync handler, and the push notification display. The store is a map and the network an oracle of outcomes.
- The 206 rule of `cache.put` is modelled as `Storable`.
- Real timing and races are not modelled. `Promise.race` against `setTimeout`, the un-awaited `cache.put`, the background revalidation and every timer run as sequential steps in program order. For networkFirst, a network answer that arrives after the timeout is not written to the cache, since the code only writes inside the resolved race. Timers in the prefetcher are explicit pending entries that fire one at a time.
- ServiceWorker.Worker.CacheFirstPolicy: the `date` header is an already parsed value (`DateHeader`). The parsing of HTTP dates is not modelled.
- THREE.js rendering, loaders and exporters, the raycasting distance, `MaterialEditor`, the export tool and the DOM styling of the panels in `src/app.js` are not modelled. Loader success is a boolean input and a ray hit is an optional point.
- ViewerApp.Viewer.Upload: the model is one run of the file-input `change` handler. The handler is registered inside `init3DScene` (src/app.js:616-852), which `showPage` calls on every visit to the main page (src/app.js:478-479), so after k visits one upload would load the model k times and push k entries; that repeated registration is not modelled. The stray closers at src/app.js:852-854 close nothing, so the file as given does not parse; the model reads it as if they were absent.
- jQuery plugin bootstrapping, AJAX and JSONP form submission, reCaptcha rendering and scale maths, and `isScrolledIntoView` in `src/script.js` are not modelled.
- `debounce`, `throttle`, `requestFrame`, `requestIdle`, `on`/`off` event wiring, `fadeIn`/`fadeOut` animations and `performance` marks in `src/js/modern-core.js` are not modelled: they are timers, events and browser APIs.
- ModernCore.DeepClone: values are modelled without object identity, so the contract states only that the clone equals the original. That the clone shares no object with the original is not captured. A cyclic object, on which the source recurses without end, cannot be formed. An object built by a class is a plain object of its own keys, so the clone's loss of the prototype is not captured either.
- ModernCore.Collection.AddClass, RemoveClass, ToggleClass, SetAttr and SetDisplay require every item to be an element. On `$(window)` the source throws a TypeError, because the window has no `classList`, `setAttribute` or `style`; that path is not modelled.
- ModernCore.Collection.SetText requires every item to be an element. On `$(window)` the source sets an ordinary `textContent` property of the window, which nothing reads; that write is not modelled.
- The `css` accessor and the `html(content)` setter in `src/js/modern-core.js` are not modelled: they need computed styles and HTML parsing.
- IntersectionObserver, script deferral, font preloading, service-worker registration and `reportPerformanceMetrics` in `src/performance-optimizer.js` are not modelled: they are browser APIs and floating-point timings.
- Canvas `measureText` and `offsetWidth` are not modelled. The font scripts receive the widths as functions.
- `src/js/compatibility-fix.js`, `src/js/performance-monitor.js` and `src/font-fix-batch.js` are not part of this model: they patch globals, log, or print constant text.
- The batch fixer's Node `fs`/`path` I/O is not modelled: directory walking, reading and rewriting files (`applyLinkFix` itself), and writing the report. The file system is the sequence of paths the walk yields, and file contents are a function.
- BatchLinkFixer.MatchAt: `\s` is the full JavaScript white-space set (`Js.IsJsSpace`). The `i` flag is applied to the `href` keyword through `Js.ToLower`, which lowers ASCII letters only. This is exact for this pattern, whose other parts are `=`, quotes and white space. The regex engine's backtracking is not modelled as such: for this pattern it cannot change which match is found.
- LinkValidator.Validator.AttemptLinkFix: an href that names an inherited property of a plain object, such as `constructor`, reads a function from the corrections table. `testLinkSync` would then throw. This case is not modelled.
- LinkValidator.Validator.SuggestFix: the click listener that applies a suggestion is not modelled.
- `enhanceValidLinks`, `preloadPage`, `reportResults` and `displayReport` in `src/link-validator.js` are not modelled: they are hover listeners, DOM insertion and console output.
- Js.ToLower: only ASCII letters are lowered. Other scripts are left as they are.
- ExeFontFixer: `addFontCSS`, the MutationObserver wiring, `testFont` and `debug` are not modelled: they are style injection, browser events and console output. An element's text is its `textContent`. The `innerText` fallback only matters for an empty text, which contains no Chinese either way.
- FontLoading: the `fonts.ready` promise and the choice between the Font Loading API and the canvas fallback are not modelled. Each path is a method the caller invokes.

## Findings

In each row the main model keeps the as-written member, because the site behaves that way. The corrected member is proved beside it.

| source | as written | input that shows it | evidently intended | confidence | as-written member | corrected member |
|---|---|---|---|---|---|---|
| src/batch-link-fixer.js:167 | the replacement href is computed relative to the first file that uses the link and written into every file that uses it | `contact.html` broken in `/s/index.html` and `/s/sub/b.html`, with `/s/contacts.html` present: `b.html` gets `./contacts.html`, which points to the missing `/s/sub/contacts.html` | each file gets an href relative to itself | not executed | BatchLinkFixer.AppliedHrefBreaksInSubdirectory | BatchLinkFixer.CorrectedHrefsResolve |
| src/performance-optimizer.js:115-136 | a page is recorded as prefetched only when its link is appended, after the delay | `touchstart` then the emulated `mouseenter` on one link within 100 ms | one prefetch link per page | not executed | PerformanceOptimizer.DoubleTouchPrefetch | PerformanceOptimizer.DoubleTouchPrefetchOnce |
| src/script.js:274-276 | a response is shown when the number of answers received equals the number of requests issued | requests 2 and 3 are in flight and 3 is answered before 2: request 2's older results stay on screen | only the latest request's response is shown | not executed | SiteScript.StaleResponseShown | SiteScript.LatestResponseShown |
| src/script.js:798 | the live-result count is parsed from `data-search-live` | `data-search-live="rd-search-results-live"` with `data-search-live-count="6"` gives NaN | parse `data-search-live-count` | not executed | SiteScript.LiveCountReadsWrongAttribute | SiteScript.SearchOptionsCorrected |
| src/app.js:830-840 | `type` starts as `glb`, but every name that is not one of the five other extensions is refused | uploading `robot_arm.glb`, the format of every shipped model | a `.glb` file is accepted as `glb` | not executed | ViewerApp.LibraryFilesRefusedOnUpload | ViewerApp.UploadTypeCorrected |
| src/js/font-loader.js:121-125 | fonts count as loaded once there are as many entries as critical fonts | one `loadingdone` event with two Montserrat faces | every critical family has loaded | not executed | FontLoading.TwoFacesOfOneFamily | FontLoading.TwoFacesOfOneFamilyCorrected |
| src/font-fallback.js:99 | the fallback fires when the computed font contains `serif` | a computed font of `Arial, sans-serif`, or any of the longer stacks the script itself sets, which end in `sans-serif` | fire only when the font is empty or names `serif` other than as part of `sans-serif` | not executed | FontFallback.SansSerifStackIsNotSerif | FontFallback.SerifStackIsSerif |
