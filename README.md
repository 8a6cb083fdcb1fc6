# roasted: the browsing-signal pipeline, modelled in Dafny

roasted is an MCP server that reads a user's local browser history and feeds it to a
comedy "roast" generator. This project models the pipeline that decides what the
generator gets to see, and proves properties of that model:

- **Extraction** (`browser_history.dfy`, `extraction.dfy`). The last `days` days of
  Safari and Chromium-family history are read. Each browser's native clock is converted
  to JavaScript milliseconds, and only rows strictly after the cutoff are selected (for
  Safari, also only rows with `load_successful = 1`). Rows are labelled and classified
  as organic or not. The sources are merged, sorted newest first with a stable sort, and
  deduplicated on (url, visit time), keeping the first entry for each key.
- **Privacy** (`privacy_filter.dfy`, `title_redaction.dfy`). The filter acts on age,
  on three domain lists (exact domain or subdomain match) and on night-time hours, and
  comes with the default and paranoid presets. Sanitizing cuts each URL down to
  protocol, host and the first two path segments, and redacts SSN, card, email and
  phone patterns in titles.
- **Analysis** (`domain_counts.dfy`, `time_patterns.dfy`, `categories.dfy`,
  `rapid_fire.dfy`, `roast_generator.dfy`):
  - visit counts per domain, and the top ten domains;
  - four time-of-day buckets;
  - five category detectors;
  - "digital obsession" (a top-three domain holding over 40% of visits);
  - "compulsive refreshing" (five or more visits to one domain with gaps under an hour);
  - three embarrassing factors;
  - a productivity score.
- **The `roast_browser_history` handler** (`server.dfy`). It applies the argument
  defaults, chooses the privacy preset, and returns early with a "nothing to roast"
  reply when the filtered history is empty.

Modelling choices:

- The source's loops that build a result step by step (counting, grouping, scanning,
  collecting, filtering the Chromium paths, deduplicating) become `method`s with loop
  invariants. Each `ensures` ties the result to a recursive specification function, and
  lemmas prove the source's promises about that function. Callbacks passed to
  `filter`, `map` and `forEach` that only select or transform (the obsession check
  among them) are recursive functions.
- JavaScript's `Array.prototype.sort` is stable. It is modelled as a stable insertion
  sort on an integer key (`StableSort.SortDesc`).
- A JavaScript `Map` keeps insertion order. It is modelled as
  `DomainCounts.CountTable`: a sequence of keys in insertion order plus a map.
- A JavaScript division is modelled as an exact `Fraction`. A zero denominator stands
  for NaN or Infinity, and every comparison on NaN is false.
- Some inputs are outside the model and become parameters:
  - URL parsing (`UrlParser`);
  - the local-time hour of a time value (`hourOf`);
  - the wall clock (`now`, and `cutoffFor` for the extraction cutoff);
  - reading each database file (`ReadOutcome`: missing, failed, or the rows the query
    returns, in the query's order).

## Model

| member | source | states |
|---|---|---|
| BrowserHistory.TruncateReal | src/browser-history.ts:95 | `new Date` of a fractional time value truncates toward zero: the result is within one of the input and never further from zero than it |
| BrowserHistory.TruncateThousandths | src/browser-history.ts:166 | microseconds / 1000, truncated toward zero, brackets the input to within one millisecond on the correct side of zero |
| BrowserHistory.SafariCutoffRoundTrip | src/browser-history.ts:70-71 | converting the millisecond cutoff to Safari seconds and back gives the cutoff exactly |
| BrowserHistory.ChromeCutoffRoundTrip | src/browser-history.ts:140-141 | converting the millisecond cutoff to Chrome microseconds and back gives the cutoff exactly |
| BrowserHistory.SafariCutoffBounds | src/browser-history.ts:85 | a Safari row strictly after the native cutoff becomes an entry at or after the millisecond cutoff; one strictly after in milliseconds was strictly after natively |
| BrowserHistory.ChromeCutoffBounds | src/browser-history.ts:157 | the same two implications for Chrome microseconds |
| BrowserHistory.ChromeCutoffMillisecondAdmitted | src/browser-history.ts:157-166 | the visit one microsecond past the native cutoff, the first one the strict `>` selects, converts to the cutoff millisecond itself, so entries at exactly the cutoff millisecond are admitted |
| BrowserHistory.ExtractDomain | src/browser-history.ts:202-209 | the parsed hostname, or "unknown" when the URL does not parse |
| BrowserHistory.ClassifyOrganicBrowsing | src/browser-history.ts:211-216 | a Safari visit is organic exactly when its origin is 0 or 1 (a null origin is not) |
| BrowserHistory.ClassifyOrganicChromeBrowsing | src/browser-history.ts:218-225 | a Chromium visit is non-organic exactly when its transition is 1 or 2 |
| BrowserHistory.GetChromeTransitionType | src/browser-history.ts:187-200 | codes 0–8 map to their nine labels (raw code, no core-type mask); every other code gives "unknown" |
| BrowserHistory.TransitionLabelsDistinct | src/browser-history.ts:187-200 | a label other than "unknown" is returned exactly for 0–8, and distinct codes get distinct labels |
| BrowserHistory.OrganicUnlessTypedOrBookmark | src/browser-history.ts:218-225 | non-organic iff the transition is labelled "typed" or "auto_bookmark" |
| BrowserHistory.VisitCountOrOne | src/browser-history.ts:96 | a missing or zero `visit_count` becomes 1, any other count is kept |
| BrowserHistory.SafariHistory | src/browser-history.ts:85-100 | the Safari entries number at most the rows returned |
| BrowserHistory.SafariHistoryMembers | src/browser-history.ts:85-100 | an entry is produced exactly for each row after the cutoff with `load_successful = 1`; every entry is at or after the cutoff and labelled "Safari" |
| BrowserHistory.ChromeHistoryFromPath | src/browser-history.ts:157-172 | the entries of one profile number at most its rows |
| BrowserHistory.ChromeHistoryMembers | src/browser-history.ts:157-172 | an entry is produced exactly for each row after the cutoff; every entry is at or after the cutoff and carries the browser name given |
| BrowserHistory.ExtractChromeHistory | src/browser-history.ts:106-132 | the loop over the five profile paths collects, in path order, the entries of every readable database and nothing from a missing or failing one |
| BrowserHistory.ChromePathIsolated | src/browser-history.ts:117-129 | a failing path does not stop the loop: every readable path's entries are in the result |
| BrowserHistory.ChromeHistoryOfMembers | src/browser-history.ts:117-129 | every Chromium entry is recent and carries the name derived from one of the paths |
| BrowserHistory.ChromePathName | src/browser-history.ts:178-185 | the first path is named "Chrome" |
| BrowserHistory.ChromeBetaPathName | src/browser-history.ts:179 | the second path is named "Chrome Beta" (checked before "Chrome") |
| BrowserHistory.ChromeCanaryPathName | src/browser-history.ts:180 | the third path is named "Chrome Canary" |
| BrowserHistory.ArcPathName | src/browser-history.ts:182 | the fourth path is named "Arc" |
| BrowserHistory.BravePathName | src/browser-history.ts:183 | the fifth path is named "Brave" |
| BrowserHistory.BrowserNamesOfTable | src/browser-history.ts:107-113 | the five paths get five distinct browser names |
| HistoryExtraction.DeduplicateHistory | src/browser-history.ts:227-238 | the loop with its `seen` set yields the first entry of each (url, time) key, in first-seen order |
| HistoryExtraction.DedupProperties | src/browser-history.ts:227-238 | the result is an order-preserving subsequence of the input, has no repeated key, loses no key, and each entry is the first in the input with its key |
| HistoryExtraction.DedupIdempotent | src/browser-history.ts:227-238 | a history without repeated keys is unchanged, so deduplicating twice is deduplicating once |
| HistoryExtraction.ExtractHistory | src/browser-history.ts:27-55 | Safari entries (if enabled and readable), then Chromium entries (if enabled), stably sorted newest first and deduplicated |
| HistoryExtraction.ExtractedMembers | src/browser-history.ts:53-54 | every extracted entry was collected, and every collected key appears in the result |
| HistoryExtraction.ExtractedOrderedAndUnique | src/browser-history.ts:53-54 | the extracted history is newest first and has no two entries with the same url and time |
| HistoryExtraction.CollectedRecentAndEnabled | src/browser-history.ts:34-50 | every collected entry is at or after the cutoff and comes from an enabled source; Chromium entries carry one of the five table names |
| HistoryExtraction.ExtractedRecentAndEnabled | src/browser-history.ts:27-55 | the same for the extracted history |
| HistoryExtraction.ExtractedFirstWins | src/browser-history.ts:53-54 | of colliding entries, the one collected first (Safari before Chromium, earlier path before later) is kept, because equal times keep their order in the stable sort |
| HistoryExtraction.ExtractedIncludesReadableSources | src/browser-history.ts:34-50 | every key from an enabled, readable source reaches the result |
| PrivacyFilter.MatchesRootMeaning | src/privacy-filter.ts:91-107 | a domain matches a listed root iff it equals it or ends with "." followed by it |
| PrivacyFilter.SubdomainMatching | src/privacy-filter.ts:91-95 | "www.webmd.com" is sensitive; "notwebmd.com" does not match "webmd.com" |
| PrivacyFilter.TooOldExact | src/privacy-filter.ts:50-51 | the days-since-visit test is exactly "elapsed milliseconds > maxHistoryAge days" |
| PrivacyFilter.FilterHistory | src/privacy-filter.ts:47-80 | the kept history is no longer than the input |
| PrivacyFilter.FilterHistoryMeaning | src/privacy-filter.ts:47-80 | the result is an order-preserving subsequence, and an entry is in it iff it is in the input and passes every test |
| PrivacyFilter.KeptEntryProperties | src/privacy-filter.ts:47-80 | a kept entry is within the age window, matches no root of an excluded list, and is outside 23:00–05:59 when night-time analysis is off |
| PrivacyFilter.StricterKeep | src/privacy-filter.ts:47-80 | an entry that passes stricter settings passes laxer ones |
| PrivacyFilter.StricterFilter | src/privacy-filter.ts:47-80 | filtering with stricter settings keeps a subsequence of what the laxer settings keep |
| PrivacyFilter.FilterIdempotent | src/privacy-filter.ts:47-80 | filtering twice with the same settings equals filtering once |
| PrivacyFilter.ParanoidWithinDefault | src/privacy-filter.ts:140-158 | the paranoid preset keeps a subsequence of what the default keeps: only day-time visits of the last three days outside all three domain lists |
| PrivacyFilter.JoinSplit | src/privacy-filter.ts:115 | joining the pieces of `split('/')` with '/' gives the string back |
| PrivacyFilter.JoinTakeSplit | src/privacy-filter.ts:115 | `split('/').slice(0, k+1).join('/')` is the text before the (k+1)-th slash |
| PrivacyFilter.BeforeSlashMeaning | src/privacy-filter.ts:115 | that text is a prefix with min(k, slashes) slashes: the whole string when it has at most k slashes, otherwise the part just before a slash |
| PrivacyFilter.SanitizeUrlMeaning | src/privacy-filter.ts:109-119 | a parsed URL becomes protocol + "//" + host + a prefix of its path with at most two slashes, the whole path when it has at most two |
| PrivacyFilter.SanitizeHistory | src/privacy-filter.ts:82-89 | sanitizing keeps the length of the history |
| PrivacyFilter.SanitizeHistoryPointwise | src/privacy-filter.ts:82-89 | position by position, only url and title change |
| PrivacyFilter.FilterSanitizeCommute | src/privacy-filter.ts:47-89 | filtering then sanitizing equals sanitizing then filtering |
| TitleRedaction.MatchAt | src/privacy-filter.ts:126-129 | a match of one of the four patterns starting at i is non-empty, stays in bounds, never starts at '[', starts with a digit at a word boundary (SSN, card, phone) or contains an '@' (email) |
| TitleRedaction.ReplaceFromNoMatch | src/privacy-filter.ts:134 | a global replace with no match anywhere leaves the text unchanged |
| TitleRedaction.ReplaceFromChanged | src/privacy-filter.ts:134 | a global replace with a match somewhere changes the text |
| TitleRedaction.ReplaceAllUnchangedIff | src/privacy-filter.ts:134 | a global replace leaves the text unchanged iff the pattern matches nowhere |
| TitleRedaction.SanitizeTitle | src/privacy-filter.ts:121-138 | the four replaces applied in order, SSN, card, email, phone |
| TitleRedaction.LeadingBoundaryRequired | src/privacy-filter.ts:126-129 | the SSN, phone and card patterns find no match that starts right after a word character |
| TitleRedaction.GluedNumberKept | src/privacy-filter.ts:121-138 | a title whose SSN-shaped number follows a letter ("a123-45-6789") comes back unchanged |
| TitleRedaction.CleanTitleUnchanged | src/privacy-filter.ts:121-138 | a title with no digit and no '@' is returned unchanged |
| TitleRedaction.RedactedIsClean | src/privacy-filter.ts:134 | "[REDACTED]" has no digit and no '@', and any sequence of the patterns leaves the marker on its own unchanged |
| TitleRedaction.RedactWithCleanAfterFirst | src/privacy-filter.ts:133-135 | once a replace leaves no digit or '@', the remaining patterns change nothing |
| TitleRedaction.SsnMatchExample | src/privacy-filter.ts:126 | "123-45-6789" is one SSN match of length 11 |
| TitleRedaction.SsnTitleRedacted | src/privacy-filter.ts:121-138 | the title "123-45-6789" becomes "[REDACTED]" |
| TitleRedaction.EmailMatchExample | src/privacy-filter.ts:128 | "a@b.co" is one email match |
| TitleRedaction.ShortTldNotMatched | src/privacy-filter.ts:128 | "a@b.c" is not an email: the top-level domain needs two letters |
| TitleRedaction.BarInTopLevelDomain | src/privacy-filter.ts:128 | the top-level-domain class also admits the bar character, so "a@b." + bar + "x" is one email match |
| DomainCounts.CountDomains | src/roast-generator.ts:236-239 | the counting loop's map equals the tally of the history |
| DomainCounts.TallyCorrect | src/roast-generator.ts:236-239 | each domain's count is its number of visits, the keys are exactly the visited domains (first-visit order, no repeats), and the counts add up to the number of visits |
| DomainCounts.UniqueDomainsCount | src/roast-generator.ts:269 | `domainCounts.size` is the number of distinct domains visited |
| DomainCounts.RankedOrdered | src/roast-generator.ts:241-243 | sorting by count and slicing gives min(n, size) entries in non-increasing count order, all taken from the map |
| DomainCounts.RankedIsTop | src/roast-generator.ts:241-243 | no omitted domain has a higher count than a kept one |
| DomainCounts.RankedTiesStable | src/roast-generator.ts:241-243 | domains with equal counts stay in first-visit order |
| DomainCounts.RankedSumBound | src/roast-generator.ts:241-243 | the ranked counts add up to at most the number of visits |
| StableSort.SortDescOrdered | src/browser-history.ts:53 | the descending sort yields non-increasing keys |
| StableSort.SortDescStable | src/browser-history.ts:53 | entries with equal keys keep their input order |
| StableSort.SortDescPermutes | src/browser-history.ts:53 | the sort is a permutation of its input |
| StableSort.SortAscendingOrdered | src/roast-generator.ts:658 | the ascending sort of timestamps is a permutation in non-decreasing order |
| TimePatterns.AnalyzeTimePatterns | src/roast-generator.ts:489-506 | the loop's counters equal the histogram of buckets 6–11, 12–17, 18–22 and the rest |
| TimePatterns.LateNightIsNight | src/roast-generator.ts:499-502 | the late-night bucket is exactly the privacy filter's night (23:00–05:59) |
| TimePatterns.TimeBucketsCount | src/roast-generator.ts:489-506 | each counter is the number of visits in its bucket, and the four add up to the number of visits |
| Categories.CountDomainsByCategory | src/roast-generator.ts:563-576 | the loop's count and examples equal the accumulation over the list, examples cut to three |
| Categories.AccumulateExamples | src/roast-generator.ts:567-573 | the examples are the listed domains with a positive count, in list order; the count is positive iff there is an example |
| Categories.CategoryCountIsVisits | src/roast-generator.ts:563-576 | the category count is the number of visits whose domain is listed, by exact key |
| Categories.CategoryTotalProperties | src/roast-generator.ts:563-576 | the count is between 0 and the number of visits; examples are the first three visited listed domains |
| RapidFire.GroupByDomain | src/roast-generator.ts:649-654 | the grouping loop's result equals the grouping function |
| RapidFire.GroupCorrect | src/roast-generator.ts:649-654 | groups are keyed by visited domain in first-visit order, and each holds that domain's visit times in history order, one per visit |
| RapidFire.MaxConsecutive | src/roast-generator.ts:660-673 | the scan loop's maximum equals the streak function |
| RapidFire.MaxStreakIsLongestRun | src/roast-generator.ts:660-673 | the maximum is at least 1 and at most the number of timestamps; a run of that many with every gap under an hour exists, and no such run is longer |
| RapidFire.AllCloseStreak | src/roast-generator.ts:664-673 | when every gap is under an hour the streak is the number of timestamps |
| RapidFire.BurstExample | src/roast-generator.ts:664-673 | visits at 0, 10, 20, 70, 75, 80, 85 and 90 minutes form one streak of 8 (a 50-minute gap does not reset it) |
| RapidFire.HourGapResets | src/roast-generator.ts:667 | a gap of exactly one hour resets the streak; 59 minutes does not |
| RapidFire.DetectRapidFireBrowsing | src/roast-generator.ts:644-681 | the detection loop's result equals the specification of rapid-fire domains |
| RapidFire.StreakBounds | src/roast-generator.ts:657-673 | a domain's streak is at least 1, and at most its visits when it was visited |
| RapidFire.RapidFireCorrect | src/roast-generator.ts:644-681 | a (domain, count) is reported iff the domain was visited, count is its streak and it reaches the threshold; domains are in first-visit order; the counts add up to at most the number of visits |
| RoastGenerator.TopDomainsProperties | src/roast-generator.ts:241-248 | the top list has min(10, distinct domains) entries in non-increasing count order, each a visited domain with its visit count and share; no omitted domain has more visits than a listed one |
| RoastGenerator.CategoryPatternProperties | src/roast-generator.ts:444-487 | a detector reports one pattern iff a listed domain was visited; its count is those visits, its percentage their share, its 1–3 examples visited listed domains |
| RoastGenerator.DetectorsCountVisits | src/roast-generator.ts:444-487 | each of the five detectors reports exactly when its own table was visited |
| RoastGenerator.ObsessionMembers | src/roast-generator.ts:611-626 | among the top three, an obsession is reported for a domain iff its share exceeds 40%, with its visit count and share |
| RoastGenerator.ObsessionBound | src/roast-generator.ts:611-626 | at most two obsessions can be reported |
| RoastGenerator.CompulsiveProperties | src/roast-generator.ts:628-639 | one "compulsive_refreshing" pattern iff some domain has a streak of at least 5; its examples are exactly those domains, its count their summed streaks, at least 5 each and at most the number of visits |
| RoastGenerator.ThresholdsExact | src/roast-generator.ts:517-537 | the floating-point thresholds 0.2 and 0.3 are the whole-number comparisons 5x > n and 10x > 3n |
| RoastGenerator.EmbarrassingFactorsMeaning | src/roast-generator.ts:508-546 | late-night (8) iff over a fifth of visits are at 23:00–05:59, social media (9) iff over 30% are to listed social sites, shopping (7) iff over a fifth are to listed shops, in that order |
| RoastGenerator.ProductivityProperties | src/roast-generator.ts:548-561 | procrastination visits are visits to the productivity-killer list, productive + procrastination = visits, the score is between 0 and 1, and NaN with no visits |
| RoastGenerator.AnalyzePatterns | src/roast-generator.ts:229-276 | the method assembles the specification's analysis from the counting and time loops |
| RoastGenerator.AnalysisTotals | src/roast-generator.ts:229-276 | totals equal visits, unique domains equal distinct domains, the time buckets add up to visits, at most eight patterns, none and no top domains for an empty history |
| Server.GetPrivacySettingsMeaning | src/index.ts:212-221 | "paranoid" gives the paranoid preset; "custom" takes each supplied field over the default and keeps the default for each of the five fields not supplied; anything else gives the default |
| Server.HandleRoastHistory | src/index.ts:132-189 | with the defaults 7, "medium", true, true, "default", true, false: extract, filter, sanitize, and reply "nothing to roast" on an empty result |
| Server.RoastGuard | src/index.ts:159-179 | the generator is reached iff some extracted entry passes the filter; it then gets a non-empty history made of sanitized kept entries; the empty reply quotes the requested days |
| Server.ExcludeFlagsOnlyForCustom | src/index.ts:151-157 | unless the level is "custom", `exclude_sensitive` and `exclude_work` do not change the reply |
| Server.NoSensitiveVisitRoasted | src/index.ts:151-160 | unless the level is "custom" with `exclude_sensitive` false, no roasted visit is to a sensitive domain or a subdomain of one |

## Left out

- Reading the SQLite databases and checking that files exist are outside the model. Each
  database is a `ReadOutcome` parameter: missing, failed (the error is caught and
  logged), or the rows the SQL query returns. The query's `ORDER BY` and `JOIN` are taken
  as given.
- Only the macOS profile paths appear, because the code has no others.
- `new URL` is the parameter `UrlParser`; the model does no URL parsing of its own.
- The clock is a parameter. `Date.now()` is one `now` for the whole filter; the code
  reads it once per entry.
- `setDate(getDate() - days)` is the parameter `cutoffFor`, so daylight-saving shifts are
  not modelled. The handler extracts with `cutoffFor(days)`.
- `getHours()` is the parameter `hourOf`, so time zones are not modelled.
- Floating point is left out:
  - Percentages and scores are exact fractions, and a zero denominator stands for NaN
    (0/0) or Infinity.
  - The thresholds are real-number comparisons.
  - Safari's epoch arithmetic is done on reals.
  - Rounding error in the source's doubles is not modelled.
  - `days`, and so `maxHistoryAge`, is a whole number in the model (`RoastArgs.days`,
    `PrivacySettings.maxHistoryAge`, `NothingToRoast.days` and the `cutoffFor` parameter
    are `int`). The tool accepts any JavaScript number. A fractional day count such as
    2.5 is therefore not modelled: not in the age test `daysSinceVisit > maxHistoryAge`,
    not in the history cutoff, and not in the "nothing to roast" reply that quotes it.
- HistoryExtraction.DeduplicateHistory: the key ``${url}:${toISOString()}`` is modelled as the
  pair (url, millisecond). `toISOString` gives a distinct string of fixed layout for every
  valid time value (the extended ±YYYYYY form outside years 0–9999), so the string key and
  the pair agree on the whole valid range. The `RangeError` that `toISOString` throws for an
  invalid date (a time value beyond ±8.64e15 ms) is not modelled.
- In-place `sort` is modelled on values, as a stable insertion sort on sequences.
- JavaScript's dynamic arguments are reduced to `Option` fields. A non-boolean
  `include_chrome`, or a null entry field, is not modelled.
- Rows whose `visit_time` column is NULL or not a number are not modelled.
- `generateRoast` is left out: the roast text, its templates, random selection and the
  observational and callback lines. This includes `getRandomItem`, because randomness
  is out of scope. The model stops at the history handed to the generator and at the
  `analyzePatterns` result.
- `handleAnalyzePatterns`, the tool listing, server setup and transport, logging, and
  the setup/demo scripts are outside the modelled core.
- `weird_content` is listed as `Categories.WeirdContent`. No detector reads it.
- `embarrassingDomains` lookups are exact keys: a subdomain such as "www.reddit.com"
  does not count for "reddit.com". This follows the code (`Categories.CategoryCountIsVisits`).
- Behaviour of the code that a reader of its documentation may not expect. The model
  follows the code in each case:
  - The burst 0, 10, 20, 70, 75, 80, 85, 90 minutes scores 8, not 5: the 50-minute gap
    does not reset the streak (`RapidFire.BurstExample`).
  - The productivity score of an empty history is NaN, not 1.
  - `exclude_sensitive` and `exclude_work` take effect only with `privacy_level`
    "custom". So the "nothing to roast" hint to set `exclude_sensitive: false` has no
    effect at the default level (`Server.ExcludeFlagsOnlyForCustom`).
  - The default level filters with a 7-day age limit whatever `days` is.
  - Transition codes are looked up raw, without masking the qualifier bits.
  - The email pattern's top-level-domain class admits '|' (`TitleRedaction.BarInTopLevelDomain`).
