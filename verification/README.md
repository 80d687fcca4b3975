# Verified model of the search command line's decision logic

The program runs DuckDuckGo searches from the command line: it fans a question out into sub-queries,
drives one or two Chrome processes per sub-query, fetches page text, fuses the result lists and reports
why a search came back empty. This project models the parts of it that decide something and proves
properties of them in Dafny:

- **Result fusion.** Canonical URLs (`FormUrlencoded`, `UrlPath`, `CanonicalUrl`, `CanonicalUrlLaws`,
  `PlainParser`), reciprocal rank fusion and first-seen deduplication of web results (`Fusion`,
  `WebFusion`, `WebFusionLaws`, `PageFusion`, `DocumentedFusion`) and of news results (`NewsFusion`,
  `NewsDedupe`, `NewsListings`). Hash maps are maps that list their values in an arbitrary order.
- **Permits and time.** The sizing policy (`Concurrency`), the lock order with nested tasks (`LockOrder`,
  `FanoutLocks`, `LockFairness`), the account of live Chrome processes and the collection of results
  (`QueryFanout`, `FanoutRuns`),
  schedules under a permit budget (`Schedule`) and the saturating time estimator with its gate and profiles
  (`Budget`, `BudgetLaws`, `BudgetGate`, `BudgetProfiles`), also against the reflection rounds it counts
  (`DepthRounds`).
- **Text.** UTF-8 and its order (`ByteOrder`), the two truncation families and the word-aware cap (`Utf8`, `Truncate`), and the line
  normalisation of extracted pages (`CleanText`).
- **Empty results.** The marker detector and the causal classifier (`ZeroCause`), and which markers can be reported
  (`MarkerTables`).
- **Identity and shutdown.** The rotating identity pool (`IdentityPool`), the user agent that is launched and the
  one that is reported (`UserAgent`), and the signal, grace and forced-exit protocol (`Shutdown`, `ShutdownRuns`).

`Common`, `Ordering`, `Arithmetic` and `Sums` hold what several of these share.

Library code enters as parameters with stated laws: the URL parser (`Splits` for what every parse yields,
`Lawful` for the URLs of one scheme, both satisfied by a concrete parser in `PlainParser`; the `url` crate
itself is not part of this model), the UTF-8 decoder of query texts, the hash of a canonical URL, the parser of
relative dates, the random generator. Scores are real numbers.

## Where the code and its comments differ

The model follows the code. Each difference is a lemma:

- Canonicalising a URL twice is not always canonicalising it once: without a path, the slash lands behind
  the query, and in a `file` URL the collapsed slashes can expose a drive letter that the next parse
  rewrites (`CanonicalUrlLaws.IdempotentExactly`, `PlainParser.SecondPassCanChange`,
  `PlainParser.DrivePathCanChange`). For `http` and `https` it always is (`CanonicalUrlLaws.WebUrlsSettle`).
- Only five `utm_` names are dropped, not `utm_*` (`DocumentedFusion.DocumentedRuleExactly`).
- Web scores and news occurrences count rows, not sub-queries (`DocumentedFusion.OneTermPerSubQueryExactly`,
  `DocumentedFusion.OccurrencesAreSubQueriesExactly`), and scores are not normalised to [0, 1]
  (`DocumentedFusion.ScoreWithinUnitExactly`).
- Deduplication sorts by position and URL; it does not keep the input order
  (`DocumentedFusion.InputOrderKeptExactly`).
- Two forced Chrome processes at a parallelism of 1 ask for more permits than exist and never start
  (`FanoutLocks.ForcedDualNeverStarts`).
- Two Chrome processes per query can be slower than one shared session (`BudgetGate.DualVersusShared`); on a
  contended host only where the estimate saturates (`BudgetGate.ContentionFavoursDual`).
- The gate falls below the estimate once the estimate is large enough for the margin to saturate
  (`BudgetGate.GateCoversEstimate`).
- Exactly two entries of the Cloudflare marker table can never be reported
  (`MarkerTables.TwoEntriesAreNeverReported`).
- The user agent in the metadata is not always the one Chrome is launched with: when no major version is
  detected, the launch assumes 146 while the metadata keep the number of the candidate
  (`UserAgent.KnownMajorIsReported`, `UserAgent.EdgeIsMisreported`).
- A forced exit reports 141 instead of 128 plus the signal when the deep-research envelope meets a closed
  pipe (`Shutdown.EveryExitNamesTheFirstSignal`).
- The lock-order comment lists six levels; the code has a seventh lock, the launch gate
  (`src/browser/session/mod.rs:205`), taken before the display lock. The model gives it its own level.

## Model

| member | source | states |
|---|---|---|
| Ordering.StrictlySortedUnique | src/aggregation.rs:313-321 | Under a strict order, two strictly sorted listings of the same elements are the same sequence: why a total comparator hides the hash map's iteration order. |
| Ordering.SortBySorts | src/aggregation.rs:315-321 | Sorting distinct comparable elements yields their strictly sorted listing, with every element once. |
| ByteOrder.TextOrderIsByteOrder | src/aggregation.rs:313-321 | One text is smaller than another character by character if and only if its UTF-8 bytes are smaller: they first differ in a smaller byte or end earlier. |
| Fusion.IntoValues | src/aggregation.rs:301 | A map yields every value exactly once in an order about which nothing is known. |
| WebFusion.MergeRow | src/aggregation.rs:272-296 | Given the fusion of the rows met so far under a key, or no entry when there are none, one loop iteration leaves the fusion of those rows and the new one. |
| WebFusion.FuseSnoc | src/aggregation.rs:272-296 | Absorbing a row into the fusion of a group gives the fusion of the longer group: sum, least rank, first fields, distinct queries. |
| WebFusion.RrfAggregate | src/aggregation.rs:252-323 | For every listing order of the hash map, the result is the strictly sorted listing (score down, position up, URL up) of the fused items, one per key. |
| WebFusion.DedupeByUrl | src/aggregation.rs:325-353 | The result is the strictly sorted listing (position, URL) of the first row of every key. |
| WebFusion.DistinctUrlsAreComparable | src/aggregation.rs:313-321 | Items with different URLs are always strictly ordered, so both comparators leave no ties. |
| WebFusionLaws.RankedOrder | src/aggregation.rs:315-321 | In the ranking scores never rise, equal scores stand by ascending position, and equal positions by ascending URL. |
| WebFusionLaws.KeptIsFirstRow | src/aggregation.rs:330-347 | Every deduplicated item is the first row of its key, sub-query by sub-query, with that row's fields, rank and query, and score 1. |
| WebFusionLaws.EveryKeyIsKept | src/aggregation.rs:330-347 | Every row's key has such an item. |
| WebFusionLaws.KeptOrder | src/aggregation.rs:351 | Deduplicated items stand by ascending rank, equal ranks by ascending URL. |
| WebFusionLaws.FusedRankingUnique | src/aggregation.rs:300-321 | Only one sequence meets the contract of the fusion: the output never depends on hash-map order. |
| WebFusionLaws.KeptListingUnique | src/aggregation.rs:348-352 | The same for deduplication. |
| WebFusionLaws.BestRankIsMinimum | src/aggregation.rs:291-293 | The position is attained by some row of the key and is not above the rank of any. |
| WebFusionLaws.FusedFields | src/aggregation.rs:272-296 | Title, display URL and snippet come from the first row that has one, the URL from the first row, the position is the least rank, the sources are the distinct non-empty queries in first-mention order. |
| WebFusionLaws.RankedKeysAreDistinct | src/aggregation.rs:269-280 | Every key of every row appears in the ranking exactly once. |
| WebFusionLaws.ScoreIsConserved | src/aggregation.rs:281 | The scores of the ranking add up to the weights of all rows of all sub-queries. |
| WebFusionLaws.SubQueryOrderKeepsScoreAndPosition | src/aggregation.rs:267-298 | Permuting the sub-queries changes neither the score nor the position of any key. |
| WebFusionLaws.RankingIgnoresSubQueryOrder | src/aggregation.rs:267-321 | When a key determines its URL, permuting the sub-queries leaves the sequence of (score, position, URL) unchanged. |
| WebFusionLaws.StandingsIgnoreSubQueryOrder | src/aggregation.rs:267-321 | Whatever the keys, permuting the sub-queries leaves the sequence of (score, position) unchanged. |
| WebFusionLaws.DedupeReordersRows | src/aggregation.rs:351 | Two single-row sub-queries whose rows come out in the reverse of the input order. |
| WebFusionLaws.RepeatedRowsAddUp | src/aggregation.rs:268-281 | A sub-query that lists a URL twice adds two terms to its score. |
| DocumentedFusion.InputOrderKeptExactly | src/aggregation.rs:17-20 | Deduplication keeps the input order if and only if every sub-query that adds a new key adds its first new row behind the last row kept before it, by position and URL. |
| DocumentedFusion.SingleSubQueryKeepsOrder | src/aggregation.rs:330-351 | The rows of a single sub-query always keep their order. |
| DocumentedFusion.OneTermPerSubQueryExactly | src/aggregation.rs:12-15 | A key has at least as many score terms as sub-queries that mention it, and exactly as many if and only if none lists it twice. |
| DocumentedFusion.OccurrencesAreSubQueriesExactly | src/aggregation.rs:392-394 | The occurrences of a news item are at least the sub-queries that mention it, and exactly as many if and only if none lists it twice. |
| DocumentedFusion.OneSubQueryCanOccurTwice | src/aggregation.rs:493-494 | A news list with one item twice: two occurrences in one sub-query. |
| DocumentedFusion.ScoreWithinUnitExactly | src/aggregation.rs:75-76 | All scores of m rows lie in [0, 1] if and only if m is at most k + 1. |
| DocumentedFusion.TopRowsScore | src/aggregation.rs:306-309 | m rows at rank 1 score m / (k + 1), the most that m rows can. |
| DocumentedFusion.DocumentedRuleExactly | src/aggregation.rs:28-29 | The pairs dropped are the documented ones if and only if every `utm_` name present is one of the five in the table. |
| DocumentedFusion.TrackingIsDocumented | src/aggregation.rs:131-142 | A name is dropped if and only if it is documented as a tracking name and, if it starts with `utm_`, is one of the five in the table. |
| PageFusion.NoPageTwice | src/aggregation.rs:200-206 | With the key the program uses, whatever the hash, the ranking never lists two spellings of one page. |
| PageFusion.RowsFuseByPage | src/aggregation.rs:200-206 | Unless the hash collides on them, two rows share a key if and only if their URLs are the same page. |
| NewsFusion.MergeRow | src/aggregation.rs:475-507 | Given the fused entry of the news rows met so far under a key, or none, one iteration leaves the fused entry of those rows and the new one; a new key takes the next order number. |
| NewsFusion.RrfAggregateNews | src/aggregation.rs:451-537 | The news list is the renumbered strictly sorted listing (score, age with unparsed last, first-seen order, URL) of the fused entries, one per key. |
| NewsFusion.NewsRankingUnique | src/aggregation.rs:511-536 | Only one list meets that contract. |
| NewsFusion.ExemplarIsFreshest | src/aggregation.rs:496-507 | The surviving row is the first with the smallest parsed age, or the first row when no date parses. |
| NewsFusion.NewsEntryFields | src/aggregation.rs:475-507 | The fields of an entry: those of the freshest row, the URL of the first, the sum of weights, the number of rows, the key's place in first-mention order. |
| NewsFusion.EqualScoresListFresherFirst | src/aggregation.rs:519-525 | Among equal scores a fresher result is never listed later, and equal ages keep first-mention order. |
| NewsListings.RankedNewsRows | src/aggregation.rs:451-537 | The fused list shows every key once, numbered from 1, with the first row's URL, the freshest row's fields, the number of rows and their score; scores never rise, equal scores are fresher first with unparsed dates last, and equal ages stand in the order in which the keys were first met. |
| NewsListings.ScoreAddsUp | src/aggregation.rs:493 | The scores of two groups of rows add up; the sum is infinite if and only if one of them is. |
| NewsListings.ScoreOfOne | src/aggregation.rs:470 | One row weighs 1/(k + position), and is infinite if and only if both are 0. |
| NewsDedupe.DedupeNewsByUrl | src/aggregation.rs:539-587 | The list is the renumbered strictly sorted listing (page position, first-seen order, URL) of the first row of every key. |
| NewsDedupe.DedupedNewsUnique | src/aggregation.rs:571-586 | Only one list meets that contract. |
| NewsListings.DedupedNewsRows | src/aggregation.rs:539-587 | The list shows the first row of every key and nothing else, with its URL, title, source, date and thumbnail, score 1 and one occurrence, numbered from 1; rows stand by page position, equal positions in the order in which they were met. |
| FormUrlencoded.PercentRoundTrip | src/aggregation.rs:151-155 | Percent-decoding what the serialiser escaped gives the bytes back. |
| FormUrlencoded.UnreservedExactly | src/aggregation.rs:151-155 | Exactly ASCII letters, digits and the marks `*-._` are written as they are (section 1.3 of the WHATWG URL Standard). |
| FormUrlencoded.ParseSerialize | src/aggregation.rs:143-156 | Parsing a serialised query gives its pairs back, in order (section 5 of the WHATWG URL Standard). |
| FormUrlencoded.SerializedIsQueryText | src/aggregation.rs:151-156 | A serialised query contains no character that would end it or start a path. |
| UrlPath.NormPathSpellsSegments | src/aggregation.rs:176-193 | The collapsed and trimmed path spells exactly the non-empty segments of the original. |
| UrlPath.NormPathKeepsSegments | src/aggregation.rs:176-193 | Normalising keeps the segments, settles after one pass, and always leaves a path that starts with a slash. |
| CanonicalUrl.SerializePairs | src/aggregation.rs:151-155 | Appending pair by pair writes the serialised query. |
| CanonicalUrl.CanonicalizeUrl | src/aggregation.rs:119-197 | The edits step by step compute the canonical form; unparseable text is returned unchanged. |
| CanonicalUrlLaws.TidyIsNormPath | src/aggregation.rs:161-195 | The slash edits on the text amount to normalising the path of the URL, when there is one. |
| CanonicalUrlLaws.TidyWithoutPath | src/aggregation.rs:163-195 | Without a path they append a slash to the query. |
| CanonicalUrlLaws.SortKeepsValues | src/aggregation.rs:150 | Sorting by name keeps the order of the values of each name. |
| CanonicalUrlLaws.DropTrackingSpec | src/aggregation.rs:131-147 | Exactly the tracking pairs go; all others stay with their multiplicity and their order per name. |
| UrlPath.DriveIsFirstSegment | src/aggregation.rs:176-193 | The normalised path begins with a letter and a mark if and only if the first non-empty segment of the path is that letter and mark. |
| CanonicalUrlLaws.IdempotentExactly | src/aggregation.rs:119-197 | Canonicalising twice is canonicalising once if and only if the URL has a path or no query pair survives, and it is not a `file` URL with a loose drive: a first non-empty path segment of a letter and a bar or, for parsers that drop the host of a drive, a letter and a colon behind a host. |
| CanonicalUrlLaws.WebUrlsSettle | src/types/http_url.rs:28-59 | For every parsed `http` or `https` URL canonicalising is idempotent. |
| CanonicalUrlLaws.DriveChanges | src/aggregation.rs:161-195 | A `file` URL with a loose drive has a canonical form that the next pass changes (section 4.4 of the WHATWG URL Standard). |
| CanonicalUrlLaws.SerializedPartsAreUnique | src/aggregation.rs:161 | Texts of URLs with paths agree only if scheme, authority text, path and query agree. |
| CanonicalUrlLaws.SecondPassChanges | src/aggregation.rs:161-195 | Without a path and with a surviving pair the second pass makes the text three characters longer. |
| CanonicalUrlLaws.CanonicalKeepsPairs | src/aggregation.rs:143-156 | For a URL with a path, the canonical form parses, has no fragment, keeps the path segments unless a drive is rewritten, and its query holds every non-tracking pair as often as before and nothing else. |
| CanonicalUrlLaws.CanonicalNamesAscend | src/aggregation.rs:149-150 | The names of the canonical query, parsed back, ascend. |
| CanonicalUrlLaws.SameQueryExactly | src/aggregation.rs:143-160 | Two URLs get the same query if and only if every non-tracking name has the same values in the same order. |
| CanonicalUrlLaws.EqualFormsExactlyForSamePage | src/aggregation.rs:119-197 | Two URLs with a path, of any schemes, get the same canonical form if and only if scheme, authority text up to host case, path segments and non-tracking values per name agree; only the delimiters of parsed parts are assumed. |
| CanonicalUrlLaws.OtherUtmNamesSurvive | src/aggregation.rs:131-142 | `utm_id` is kept. |
| PlainParser.PlainLibraryIsLawful | src/aggregation.rs:119-130 | The laws asked of the URL parser can be met, for every scheme and under both readings of the drive rule: a small concrete parser that rejects hosts, escapes queries, adds missing paths and rewrites drives meets them. |
| PlainParser.SecondPassCanChange | src/aggregation.rs:161-195 | A concrete URL, `foo://h?k=v`, whose second canonical form differs from the first. |
| PlainParser.DrivePathCanChange | src/aggregation.rs:175-186 | Another one that has a path: a `file` URL with host `h` whose path is an empty segment, a letter with a bar, and `x`. |
| PlainParser.ColonPathChangesWithHost | src/aggregation.rs:175-186 | With a colon for the bar, the second form differs if and only if drives drop hosts. |
| Utf8.EncodeInjective | src/text.rs:28-51 | Different texts have different UTF-8 bytes (section 3 of RFC 3629). |
| Utf8.BoundaryIsPrefixEnd | src/text.rs:38 | Every character boundary ends the encoding of some prefix of the text. |
| Utf8.PrefixEndIsBoundary | src/text.rs:38 | And conversely. |
| Truncate.FloorCharBoundary | src/text.rs:33-42 | The loop finds the greatest boundary not above the index, at most three bytes back, and the length when the index is past the end. |
| Truncate.TruncateToBytes | src/text.rs:49-51 | The slice is the encoding of the longest prefix of whole characters that fits. |
| Truncate.FitCharsIsGreatest | src/text.rs:44-51 | That prefix fits and no longer one does. |
| Truncate.ByteCapsCompose | src/text.rs:49-51 | Truncating to m bytes and then n is truncating to the smaller. |
| Truncate.TruncateToCharsIsPrefix | src/text.rs:57-62 | The byte slice is the encoding of the first `max_chars` characters, and is the whole text if and only if they are all of it. |
| Truncate.CharCapsCompose | src/text.rs:57-62 | Truncating to m characters and then n is truncating to the smaller. |
| Truncate.FamiliesCompared | src/text.rs:20-26 | A byte cap never keeps more characters than the same character cap. |
| Truncate.ConsolidationKeptBothCopies | src/text.rs:79-91 | The shared function equals both of the private copies it replaced, for every text and cap. |
| Truncate.TruncateAtWordSpec | src/text.rs:73-91 | The result is the whole text, a hard cut of a prefix without whitespace, or a prefix that ends a word, followed by whitespace and one unfinished word up to the cap. |
| Truncate.CutAtWordUnique | src/text.rs:87-90 | Only one prefix fits that description. |
| CleanText.NormaliseIdempotent | src/browser/extract.rs:439-444 | Normalising lines twice is normalising them once, for every minimum line length of at least 1. |
| CleanText.NormaliseNeedsAMinimum | src/browser/extract.rs:442 | With a minimum of 0 it is not. |
| CleanText.WordsOfLongLines | src/browser/extract.rs:439-444 | The normalised text has exactly the words of the surviving lines, in order. |
| CleanText.CleanSpec | src/browser/extract.rs:438-446 | The output is a prefix of the normalised text of at most `max_size` characters. |
| Concurrency.SlotsFitExactly | src/concurrency.rs:239-269 | A query asks for one or two permits, and for more than exist if and only if two processes are forced, both verticals run and the parallelism is at most 1. |
| Concurrency.EffectiveIsNearest | src/concurrency.rs:121-134 | The effective parallelism is the requested one, or the nearer end of 1 to 20. |
| Concurrency.TwoSlotsExactly | src/concurrency.rs:239-269 | A query pays two permits if and only if both verticals run, no shared session is asked for, and two processes are forced or, in automatic mode, the parallelism is at least 2. |
| Concurrency.PoolIsLargestUseful | src/concurrency.rs:208-224 | A fetch pool is as large as there are pages, within the process budget, or within 1 when nested in the fan-out. |
| LockOrder.InitialInv | src/concurrency.rs:36-46 | Tasks that keep the order start in a state that satisfies the invariant. |
| LockOrder.LevelsAscend | src/concurrency.rs:36-46 | The locks ascend strictly: query permits, page permits, host permits, browser pool, launch gate, display, CPU gate. |
| LockOrder.StepKeepsInv | src/concurrency.rs:36-46 | Every request, grant, release, spawn, join, end or panic keeps the order, the queues and the capacity of every lock. |
| LockOrder.NeverStuck | src/concurrency.rs:36-46 | Deadlock freedom: while some task is unfinished, nested tasks and joins included, some step other than a panic is enabled. |
| LockOrder.StepDecreases | src/concurrency.rs:36-46 | Every step uses up some of the remaining work. |
| LockOrder.CanFinish | src/concurrency.rs:36-46 | From every reachable state the remaining work can be completed without a panic. |
| LockOrder.DisciplinedTasksAlwaysFinish | src/concurrency.rs:36-46 | In every run no lock is over-committed, the length is bounded by the scripts, and a run that cannot continue has finished every task and returned every permit. |
| LockOrder.BlocksForever | src/concurrency.rs:36-46 | A task that requests more than the capacity stays where it is in every run. |
| LockFairness.FirstComeFirstServed | src/concurrency.rs:36-46 | While a task waits for a lock, every other task that is given it stood in the queue before it when the run began. |
| FanoutLocks.LaunchDisciplined | src/browser/session/mod.rs:185-205 | Launching a browser keeps the lock order. |
| FanoutLocks.FetchDisciplined | src/content_fetch/enrich.rs:372-452 | A nested page fetch keeps the lock order. |
| FanoutLocks.QueryDisciplined | src/parallel/batch.rs:134-207 | A query task with its nested launches and fetches keeps the order if and only if its slots fit the query semaphore. |
| FanoutLocks.QueryTakes | src/parallel/batch.rs:134-207 | A query with its sub-tasks requests its permits, the CPU gate, the launch gate, the display and its pool, with pages also the page permits, and the permits of exactly the hosts it fetches from. |
| FanoutLocks.AutomaticFanoutFinishes | src/parallel/batch.rs:72-89 | In automatic mode every run of a fan-out, whatever the interleaving and the panics, ends with all tasks finished and all permits back. |
| FanoutLocks.ForcedDualNeverStarts | src/concurrency.rs:239-252 | With two forced processes at a parallelism of at most 1, no query is admitted in any run. |
| QueryFanout.DecisionsAgree | src/parallel/batch.rs:74-84 | The fan-out pays for two processes exactly when the search pipeline, deciding again from the parallelism as given, runs two, and always for no more than there are permits. |
| QueryFanout.TaskStaysWithinItsPermits | src/pipeline/chrome/mod.rs:209-242 | A web and a news part with one browser each, one shared session, or a nested pool: no task ever runs more browsers than it paid permits for. |
| QueryFanout.NextKeepsInv | src/parallel/batch.rs:134-207 | Admission, each browser start and stop, fetch, return, error and panic keep the permit account. |
| QueryFanout.ChromesStayWithinBudget | src/concurrency.rs:72-80 | In every run held and free permits add up to the effective concurrency, live Chromes never exceed it, and at most floor(effective / slots) queries are in flight. |
| QueryFanout.AllPermitsReturn | src/parallel/batch.rs:206-221 | When all tasks have ended, in whatever way, all permits are back and no Chrome is left. |
| FanoutRuns.BoundsAreAttained | src/parallel/batch.rs:134-207 | With enough queries some run has floor(effective / slots) of them in flight and a live Chrome for every slot: the bounds are tight. |
| FanoutRuns.FetchAndEnd | src/parallel/batch.rs:134-207 | A search whose browsers are down can fetch with its pool and end, giving its permits back. |
| QueryFanout.CollectInOrder | src/parallel/batch.rs:211-268 | Whatever the completion order, each returned result stands at its query's index, also when lost tasks were filed in its slot first; a query that never returned is reported as failed. |
| Schedule.NoScheduleIsFaster | src/budget/estimate.rs:104-111 | No schedule of n equal jobs within the permit budget ends before ceil(n / floor(budget / slots)) units. |
| Schedule.GreedyTakesExactlyTheWaves | src/budget/estimate.rs:104-111 | Every greedy schedule ends exactly then. |
| Schedule.GreedyFillsWaves | src/budget/estimate.rs:104-111 | After w units a greedy schedule has started as many jobs as could possibly be started, all at unit boundaries. |
| Schedule.FormulaIsAttained | src/budget/estimate.rs:104-111 | Back-to-back full waves are such a schedule, so the bound is attained for every n. |
| Budget.ProfileFoundExactly | src/budget/profile.rs:30-31 | A profile is found if and only if the name spells it in any letter case with any white space around it. |
| Budget.ApplyBudgetProfile | src/budget/profile.rs:30-59 | Names that spell no profile leave the input as it is; no profile touches the workload, the parallelism or the host; lab changes the bands alone, desktop raises and thin pins the unit costs. |
| BudgetLaws.PercentIsCeiling | src/budget/contention.rs:50-58 | Scaling and gating round the exact percentage up, unless the product saturates. |
| BudgetLaws.UnitsAreExact | src/budget/estimate.rs:14-53 | Both unit costs equal the exact cost, saturated once. |
| BudgetLaws.WorkIsExact | src/budget/estimate.rs:79-93 | The work estimate equals the exact work, saturated once. |
| BudgetLaws.WallAtMostExact | src/budget/estimate.rs:101-123 | Uncontended, the wall estimate is the exact one saturated once, or below it when a unit times 100 saturates. |
| BudgetLaws.WallBoundsWork | src/budget/estimate.rs:86-123 | Uncontended, wall is at most work; work is at most wall times the process budget if and only if a unit times 100 does not saturate or the work fits the capacity of the ceiling that a saturated unit is cut to. |
| BudgetLaws.HugeUnitsEscapeTheBound | src/budget/contention.rs:52-58 | An input whose unit saturates and whose work exceeds that bound. |
| BudgetLaws.EstimateIsTheSchedule | src/budget/estimate.rs:101-123 | At any depth the waves plus follow-ups are never above any schedule within the permits followed by the follow-ups one after the other, and equal every greedy one when nothing saturates. |
| DepthRounds.EstimatesCoverEveryHistory | src/deep_research/run.rs:159-203 | Whatever a run's reflection rounds find and run, at most as many rounds as the depth, both estimates cover the fan-out and every follow-up. |
| DepthRounds.EstimatesAreReached | src/deep_research/run.rs:171-176 | Some history of rounds reaches both estimates exactly. |
| DepthRounds.NovelCountIsReachedExactly | src/deep_research/run.rs:171-203 | When every follow-up is a new text, the counted number is reached if and only if there are no rounds, or one follow-up a round, or the limit of sub-queries leaves room for all of them next to the texts seen at the start. |
| BudgetLaws.ContentionBands | src/budget/contention.rs:38-48 | Below the lower threshold nothing is scaled, between the thresholds the middle factor applies, from the upper one on the largest. |
| BudgetLaws.GatedMonotone | src/budget/estimate.rs:101-146 | The wall and the gated estimate never fall when sub-queries, fetching, cap, verticals, depth, unit seconds, margin or contention grow or parallelism shrinks, saturation and the 1-to-2 switch included. |
| BudgetLaws.CapacityMonotone | src/budget/estimate.rs:106-109 | More parallelism never lowers how many queries run at once, though it may double the slots of each. |
| BudgetLaws.BusierHostNeverCheaper | src/budget/contention.rs:38-48 | More Chromes on the host never lower the gate. |
| BudgetLaws.ProfilesAreOrdered | src/budget/profile.rs:30-59 | thin, lab and desktop_contended are ordered for every workload with serp at least 5, fetch at least 3 and margin at least 10. |
| BudgetProfiles.ThinStaysBelow | src/budget/profile.rs:43-57 | thin never gates above lab when serp and fetch, each with the caller's margin, are not below the thin ones with theirs, saturation included. |
| BudgetProfiles.ThinStaysBelowExactly | src/budget/profile.rs:43-57 | For unit costs up to 10^14 seconds, that holds on every workload if and only if they are so. |
| BudgetProfiles.LabStaysBelowDesktop | src/budget/profile.rs:32-57 | lab never gates above desktop_contended, whatever the costs. |
| BudgetGate.DualVersusShared | src/budget/estimate.rs:14-36 | On an uncontended host and at any depth, two processes per query are no slower than a shared session if and only if the budget is 1 or even or there is room: equivalently, dual waves are at most twice the shared waves plus the follow-ups. |
| BudgetGate.OneProcessTies | src/budget/estimate.rs:101-123 | Under a budget of one process both arrangements take the same time, saturation and contention included. |
| BudgetGate.HugeUnits | src/budget/estimate.rs:101-123 | When the scaled time of one vertical saturates, two processes are no slower if and only if one dual wave holds all sub-queries, or shared waves and follow-ups are at least a hundred, so that the shared estimate saturates as well. |
| BudgetGate.LargeUnits | src/budget/estimate.rs:101-123 | When only the scaled time of two verticals saturates: if and only if the dual waves are no longer than the shared ones at the ceiling of a percentage, or those are at least a hundred. |
| BudgetGate.SmallUnitsUncontended | src/budget/estimate.rs:101-123 | When neither does, on an uncontended host: under the condition of the unsaturated case, or when the shared waves saturate. |
| BudgetGate.SmallUnitsContended | src/budget/estimate.rs:101-123 | When neither does but the floor under the work saturates: if and only if the dual waves stay below the ceiling of a percentage or the shared waves, or those saturate. |
| BudgetGate.ContentionFavoursDual | src/budget/estimate.rs:116-119 | On a contended host the work floor makes them never slower, as long as it does not saturate; the four rows above settle the rest. |
| BudgetGate.SaturationCanReverse | src/budget/estimate.rs:20-36 | With a saturating unit they can be slower under an even budget. |
| BudgetGate.DualCanBeSlower | src/budget/estimate.rs:14-36 | Budget 3 and three sub-queries: they are slower. |
| BudgetGate.GateCoversEstimate | src/budget/estimate.rs:133-140 | The gate is at least the estimate if and only if the estimate is at most ceil(u64::MAX / 100). |
| BudgetGate.GateAddsTheMargin | src/budget/estimate.rs:131-140 | Unless something saturates the gate is the estimate plus its margin, of at most 100 percent, rounded up. |
| BudgetGate.DefaultsFitUpToTen | src/budget/mod.rs:49-66 | With the default knobs a run fits the default global timeout if and only if it has at most ten sub-queries. |
| BudgetGate.AutoRaiseNeverRejects | src/budget/validate.rs:51-71 | With automatic raising validation proceeds with the larger of timeout and gate. |
| BudgetGate.RaisedTimeoutIsStable | src/budget/validate.rs:51-86 | The raised timeout passes again under all flags and is left alone. |
| BudgetGate.BudgetOkAgreesWithValidation | src/budget/print.rs:82 | `budget_ok` is reported if and only if validation without raising does not reject. |
| BudgetGate.DecisionReportsItsNumbers | src/budget/validate.rs:51-86 | Either decision reports the estimate, the gate and the timeout it rests on; the timeout changes only by a raise, and a run under budget is marked only when allowed and not raised. |
| BudgetGate.DefaultBands | src/budget/contention.rs:26-48 | By default nothing is scaled below 20 Chromes on the host, everything doubles below 40 and takes two and a half times as long from there. |
| BudgetGate.SuggestionReport | src/budget/print.rs:83-84 | `budget_ok_suggested` is reported unless the caller overrode the gate and no raise took place. |
| BudgetGate.RejectionIsMonotone | src/budget/validate.rs:73-78 | A rejected workload stays rejected when it asks for more. |
| ZeroCause.ClassifierNormalForm | src/zero_cause.rs:75-192 | The chain of guards equals a shorter one: counters decide for empty bodies, signal, probe, markers, size and home page for the others. |
| ZeroCause.LegitimateExactly | src/zero_cause.rs:75-192 | A non-empty body is legitimate if and only if it shows a page signal and the pre-flight check was quiet. |
| ZeroCause.CountersMatterOnlyForEmptyBodies | src/zero_cause.rs:155-187 | For a non-empty body latency, retries and fetches are irrelevant, which makes the guard CR4c redundant. |
| ZeroCause.CausesOfEmptyBodies | src/zero_cause.rs:87-163 | The silent filter and the invalid response arise only for empty bodies; the vertical cause never arises. |
| ZeroCause.PaddingKeepsVerdict | src/zero_cause.rs:75-192 | Text around a page signal, block markers included, never changes the verdict. |
| ZeroCause.ProbeLevelOnlyAddsGhosts | src/zero_cause.rs:106-122 | A block seen by an earlier probe can only turn an anti-bot or suspicious verdict into a ghost block. |
| ZeroCause.CrossSignal | src/zero_cause.rs:101-119 | Once an earlier probe reported any block, a page of at least 4000 bytes with a shell mark and no page signal is a ghost block; level 0 reports nothing. |
| ZeroCause.EmptyBodyVerdicts | src/zero_cause.rs:87-163 | Without retries and fetches an empty body is invalid at 0 ms, legitimate below 200 ms and a silent filter from then on. |
| ZeroCause.UnmarkedPages | src/zero_cause.rs:120-187 | Without signal and markers a page below 4000 bytes is a ghost block, a longer one if it shows the home page, and suspicious otherwise. |
| ZeroCause.UnhealthyProbeIsNonLegitimate | src/probe_deep.rs:624-634 | A body that makes a probe unhealthy makes an empty result non-legitimate. |
| ZeroCause.HealthyExactly | src/probe_deep.rs:624-634 | A probe is healthy if and only if its status is below 400 and its page is empty, shows a page signal, or has neither a marker nor fewer than 4000 bytes. |
| ZeroCause.PageSignalExactly | src/probe_deep.rs:96-122 | A page shows a signal if and only if one of the fifteen selector texts occurs in it. |
| ZeroCause.WithoutMarker | src/probe_deep.rs:162-195 | What the detector reports for empty, signalled, short and long pages without a marker. |
| ZeroCause.FirstMatchSpec | src/probe_deep.rs:178-188 | The marker loop finds a marker if and only if some entry occurs, and reports one that does. |
| ZeroCause.ShadowedMarkers | src/probe_deep.rs:53-76 | `anomaly-modal__mask` and `anomaly-modal__title` are never reported: a shorter entry before them always wins. |
| ZeroCause.CloudflareReportedExactly | src/probe_deep.rs:176-183 | A Cloudflare entry is reported on some body if and only if no page selector and no earlier entry occurs in it. |
| ZeroCause.DuckDuckGoReportedExactly | src/probe_deep.rs:184-188 | An entry of the other table must hold no Cloudflare entry either. |
| MarkerTables.TwoEntriesAreNeverReported | src/probe_deep.rs:53-76 | Each entry of the Cloudflare table except `anomaly-modal__mask` and `anomaly-modal__title` is reported on some body, and those two on none. |
| MarkerTables.DuckDuckGoEntriesAreReported | src/probe_deep.rs:80-88 | All four entries of the other table are reported on some body. |
| IdentityPool.Pool.RotateOnBlock | src/identity.rs:311-322 | A rotation raises the level, saturating, and moves to an index its level allows. |
| IdentityPool.Pool.Reset | src/identity.rs:258-260 | A reset sets the level to 0 and keeps the identity. |
| IdentityPool.Pool.PinTo | src/identity.rs:273-278 | Pinning selects the index at level 0, or does nothing when it is out of range. |
| IdentityPool.Pool.FindIndex | src/identity.rs:284-288 | The search returns the first index that holds the pair. |
| IdentityPool.PinningFindsEveryProfile | src/identity.rs:394-403 | Looking up any pair and pinning it selects that very pair: the fallback to index 0 is never used. |
| IdentityPool.FallbackIsUnreachable | src/identity.rs:372-380 | No filtered rotation ever runs out of candidates. |
| IdentityPool.WhatRotationChanges | src/identity.rs:303-365 | Below level 4 the identity changes; the family stays only at level 1, the platform only at level 2. |
| IdentityPool.RotationMayPickExactly | src/identity.rs:303-365 | A rotation may lead to an identity if and only if it shares just the family at level 1, just the platform at level 2, neither at level 3, and to any from level 4 on. |
| IdentityPool.RunsStayInTheCatalog | src/identity.rs:258-322 | Over every run of rotate, reset and pin the index is in the catalog and the level counts the rotations since it was last set back. |
| IdentityPool.FirstThreeAreDistinct | src/identity.rs:303-365 | After a reset the first three identities are pairwise different. |
| IdentityPool.ThirdRotationMayReturn | src/identity.rs:353-365 | The third rotation can come back to the first identity. |
| UserAgent.RewriteUaChromeVersion | src/identity.rs:446-461 | Without `Chrome/` the text is returned; otherwise Chrome is named at the same place, followed by exactly the new number, and everything before and behind is unchanged. |
| UserAgent.RewrittenShape | src/identity.rs:446-461 | The rewritten text names Chrome at the same place, followed by exactly the new number; everything else is unchanged. |
| UserAgent.LastRewriteWins | src/identity.rs:446-461 | Of two rewrites the last decides. |
| UserAgent.RewriteKeepsTokens | src/identity.rs:446-461 | A rewrite neither creates nor destroys any browser or platform token. |
| UserAgent.CoercionSettles | src/identity.rs:492-511 | Coercion yields a user agent a Chromium on this host could have, changes no such user agent, and is its own fixed point. |
| UserAgent.KeptExactly | src/identity.rs:492-511 | A candidate is kept if and only if it names the host by one of its tokens, no Firefox, and no Safari without Chrome; otherwise the catalog's Chrome entry takes its place. |
| UserAgent.ResolutionSettles | src/identity.rs:566-579 | Resolving a resolved identity changes at most its version, and the result stays acceptable. |
| UserAgent.LaunchIsReportedExactly | src/pipeline/single.rs:290-302 | The launched user agent is the reported one if and only if Chrome is not named or the launch writes the version that is reported: the one probed before or, if that probe failed, the candidate's own. |
| UserAgent.KnownMajorIsReported | src/browser/session/mod.rs:189-192 | With one probe result for both, they differ if and only if the major is unknown and the coerced candidate names a Chrome other than 146. |
| UserAgent.EdgeIsMisreported | src/identity.rs:624-648 | With an unknown major the catalog's Edge entry of the host is reported as 145 and launched as 146. |
| UserAgent.ReplacedIsReported | src/identity.rs:492-511 | A candidate that coercion replaces is reported as it is launched also when no major is known. |
| UserAgent.ChromeIsNamedExactly | src/identity.rs:492-511 | The result names Chrome unless the candidate named no browser at all but the right platform. |
| UserAgent.AnnouncesTheInstalledMajor | src/browser/session/mod.rs:189-192 | If Chrome is named, the process announces exactly the probed major version, or 146, and the metadata name exactly the one resolved with. |
| Shutdown.GraceIsBounded | src/signals.rs:104-118 | The grace is within 1 to 60 seconds, is what was clamped and stored, and 5 by default. |
| Shutdown.StepKeepsInv | src/signals.rs:156-305 | Every step of handler, workers and signals keeps the shutdown invariant, and the first signal is never renamed. |
| Shutdown.EveryExitNamesTheFirstSignal | src/signals.rs:267-305 | In every interleaving a worker cancelled by the signal reports 128 plus the first signal, so does the forced exit unless its envelope meets a closed pipe, and the wait is at most the grace. |
| ShutdownRuns.WaitIsTheConfiguredOne | src/signals.rs:104-118 | In every run the grace of a handler that waits or has waited is the last one set before it read it, brought into 1 to 60 seconds, or 5 when none was set; the time waited is the number of ticks, and only a later signal cuts it short. |
| ShutdownRuns.FirstSignalIsNamed | src/signals.rs:267-271 | In every run the signal named is the first that came, and a cancellation is blamed on it if and only if the handler cancelled before anybody else. |
| ShutdownRuns.HandlerCanExit | src/signals.rs:267-305 | Once a signal came, the handler can force the exit by itself in at most 66 steps. |
| ShutdownRuns.WorkerCanReport | src/signals.rs:86-98 | A running worker can always see a cancellation and report the recorded code. |
| Shutdown.LaterSignalsDoNotRename | src/signals.rs:267-305 | No later signal changes the code that is owed. |
| Shutdown.WaitOnlyShrinks | src/signals.rs:307-340 | Nothing lengthens a wait that has begun, and another signal ends it. |
| Shutdown.WithoutSignals | src/signals.rs:42-48 | A cancellation without a signal is reported as 130, and nothing forces an exit. |
| Shutdown.ProgrammaticCancelCanRace | src/signals.rs:86-98 | After a programmatic cancel a worker can report 130 although SIGTERM came. |
| Shutdown.ReportNamesTheSignalExactly | src/signals.rs:86-101 | Once a signal came, a report names it if and only if the handler has recorded it by then or it is an interrupt. |

## Left out

- BudgetProfiles.ThinStaysBelowExactly: the converse is stated for search costs up to 10^14 seconds, so that the page count that tells the profiles apart fits 64 bits.
- QueryFanout.CollectInOrder: the number of queries is not cut to 32 bits.
- A browser whose shutdown fails counts as gone: the error is only logged (`src/pipeline/chrome/mod.rs:37`), and the bound on live
  processes does not see such a leftover.
- Chrome and CDP navigation, stealth scripts, virtual displays, process reaping, cookies, TLS, compression and file output: foreign processes and I/O.
- The rest of the URL parser, NFC, `blake3` and the random generator: parameters with stated laws, an arbitrary function, an arbitrary choice.
- URLs without an authority, such as `mailto:` texts, are covered by `CanonicalUrl.CanonicalizeUrl` but not by the laws about canonical forms.
- Rounding of `f64` scores: scores are real, with infinity only for a news weight of 1/0. With rounding, permuting sub-queries can change the last bits of a score.
- Ranks beyond 32 bits (`idx as u32`): a page never has that many rows.
- `relative_date_to_minutes`: an arbitrary partial function, because it rests on Unicode lower-casing; nothing proved about news depends on it.
- `per_sub_query_seconds`: a legacy helper, not used by the estimate.
- The advisory Chrome cap from CPUs and free memory, thread-pool sizes and channel capacities: simple bounds that gate nothing.
- tokio hands freed permits to the first waiter piece by piece; the lock machine grants a request when all its permits are free. Nobody behind the first waiter can tell the two apart.
- Early returns of a task are its panic step: both drop everything it holds.
- The circuit breaker and the cancellation checks inside a page fetch: they only end the task early.
- Follow-ups of depth rounds are scheduled one after the other, as the estimate counts them; how a round really spreads them is not modelled.
- The process-wide switch for strict exit codes, suggestion texts, JSON field names, help and localisation.
- Signal delivery on Windows and the case that a handler cannot be installed.
- The header shuffling of an identity.
