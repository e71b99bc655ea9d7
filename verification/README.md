# Job crawler: a verified model

The job crawler is a pipeline. A crawler worker takes tasks from `crawl.queue`, waits for a Redis rate
limiter, fetches pages and either forwards them to `jobs.raw` or fans a listing out into detail tasks on
the queue it is reading. A processor worker takes the pages, claims their URL and content in Redis,
parses them and upserts jobs into Postgres under a soft cap. A janitor deletes old rows. An HTTP API
searches the jobs through a cache, and an alert matcher reads the same search filter a second way.

This project models that behaviour in Dafny. Redis keys, Kafka topics and the `jobs` table are small
abstract states (maps with expiry, sequences, a keyed table). What the source updates in place is a
class whose methods are proved against specification functions; what happens between processes is a
state machine whose steps may interleave in any order; the theorems are about every call, every run or
every reachable state.

| file | what it models |
|---|---|
| `RateLimiter.dfy` | the sliding-window limiter as four Redis commands, the polling crawler, one caller at a time |
| `ConcurrentLimiter.dfy` | the same commands of any number of clients interleaved |
| `CrawlQueue.dfy` | the crawler worker feeding its own queue |
| `Robots.dfy` | the robots.txt checker, and what asking it about "/" is worth |
| `Dedup.dfy` | SETNX claims, and any number of workers racing on them |
| `JobStore.dfy` | the `jobs` table, upsert, retention sweep, and any history of them |
| `JobCap.dfy` | the cap: worker, counter, refresher and sweeps interleaved |
| `Processor.dfy` | the processor worker end to end |
| `Duplicates.dfy` | which deliveries of its runs are duplicates, in URLs and job fields |
| `Fingerprint.dfy` | canonical form of job fields |
| `Salary.dfy`, `SalaryForms.dfy` | the salary scanner, and what comes back from each of its three forms |
| `SearchQuery.dfy`, `Pagination.dfy` | the query compiler with its meaning in SQL, and how pages fit together |
| `AlertMatcher.dfy` | the alert matcher, and exactly when it agrees with the search |
| `Tags.dfy` | the tag extractor, whose order is that of a Go map |
| `SearchKey.dfy`, `CachedService.dfy` | JSON cache keys and the cache-aside service, one call at a time |
| `InvalidText.dfy` | texts that are not UTF-8, and exactly which filters share a key |
| `CacheStaleness.dfy`, `CachedSearch.dfy` | calls, updates and invalidations interleaved: bounded staleness, down to the rows of a search |
| `Invalidation.dfy` | exactly when an invalidation works |
| `SplitCsv.dfy` | the hand-written header splitter |
| `Prelude.dfy`, `Decimal.dfy`, `Strings.dfy` | shared definitions |

## Where the code and its comments disagree

The model follows the code.

- `internal/domain/alert.go:12-14` says alert matching is identical to the search. One shared tag is
  enough for an alert while the search wants all of them, and the alert ignores location, sources and
  the case of tags. `AlertMatcher.AgreementIsExact` says exactly when the two agree.
- `internal/crawler/worker.go:325` says the rate-limit window will open shortly. Denied polls are
  recorded too and keep it closed: `RateLimiter.PollingStarves`. The deployed crawler is wired
  to a limiter that always allows (`cmd/crawler/main.go:73`).
- `pkg/httputil/robots.go:27` speaks of a given path. The crawler asks about "/" whatever the path of
  its URL (`internal/crawler/worker.go:152`), so a page that robots.txt forbids is crawled unless "/"
  is forbidden too: `RobotsRuns.RootRuleIsExact`. A URL that does not parse counts as forbidden and is
  skipped, not dead-lettered: `Robots.AnswersByFirstFetch`.
- `internal/processor/dlq.go:13-15` says a dead letter can be replayed. Once a message
  unmarshals, its URL is claimed before anything else can fail, so a replay within 24 hours is dropped:
  `Processor.RedeliveryIsDropped`. `DedupRuns.EarlyReplayIsDropped` and
  `DedupRuns.RecentContentIsDropped` say exactly which deliveries the two checks drop.
- `internal/processor/dedup.go:52-53` speaks of URLs successfully crawled; a claim does not wait for
  success.
- `internal/service/cached_job_service.go:159-162` calls invalidation correct. A call that read the
  store before the update can fill the cache after the invalidation:
  `CacheStaleness.StalenessIsAttained`. `Invalidation.InvalidationIsExact` says exactly when it works.
  `Invalidate` has no caller in the repository.
- `internal/service/cached_job_service.go:50-53` and `:190` give every distinct filter a unique key. JSON
  prints each byte that is not part of a UTF-8 character alike, so the searches `?q=%fe` and `?q=%ff`
  share a key. `RawFilters.FiltersCollideExactly` says which filters share an encoding, and
  `RawFilters.ValidFiltersStandAlone` that a filter shares its encoding with no other exactly when its
  texts are valid UTF-8.
- `internal/processor/normalizer.go:119` says tags are sorted; they come out in map order, which is
  always sorted only when there is at most one: `Tags.SortedOnlyWhenAlone`.
- `internal/processor/normalizer.go:142` describes amounts in thousands. A text such as "$60 - 80k" is
  taken for the plain range first and read as 60 to 80 EUR: `SalaryForms.ShortRoundTripIsExact`.
  CHF is missing from the "up to" pattern (`internal/processor/normalizer.go:145`) and reads as EUR:
  `SalaryForms.UpToRoundTrip`.
- `pkg/redis/rate_limiter.go:64-68` fails open, but its polling caller treats the error as a failure:
  `RateLimiter.RespectRateLimit`.
- `internal/handler/job_handler.go:69-73` accepts every page number; some wrap round to a first page
  (`JobService.WrappedPageRepeatsFirst`). `internal/handler/job_handler.go:63-67` accepts minimum
  salaries that do not fit the INTEGER column, and those searches fail
  (`SearchQuery.CountIsMatching`).
- `internal/janitor/janitor.go:65` computes its cutoff in an int64 of nanoseconds, which wraps for
  retentions beyond 106751 days: `Janitor.CutoffIsRetention`.

## Model

| member | source | states |
|---|---|---|
| RateLimiter.Limiter.Allow | pkg/redis/rate_limiter.go:37-74 | one call runs prune, count, add, expire on its own key only and answers by the count taken before the add; a fault after any number of the commands fails open |
| RateLimiter.KeyHoldsTheWindow | pkg/redis/rate_limiter.go:46-62 | after any run the pruned, expiring set is exactly the part of the full history in the window of the latest call |
| RateLimiter.AdmitsByTheHistory | pkg/redis/rate_limiter.go:37-74 | pruning and expiry never change an answer: a call is admitted iff the full history has fewer than `limit` distinct members in the closed window, whatever the members are |
| RateLimiter.AllowCountsEarlierAttempts | pkg/redis/rate_limiter.go:29-37 | with distinct members, admitted iff fewer than `limit` earlier attempts, admitted or denied, lie in [now-W, now] |
| RateLimiter.WindowBound | pkg/redis/rate_limiter.go:29-37 | any closed window of length W holds at most `limit` admissions |
| RateLimiter.QuietGapAdmits | pkg/redis/rate_limiter.go:37-74 | an attempt more than W after the previous one is admitted |
| RateLimiter.LimitOneRule | pkg/redis/rate_limiter.go:37-74 | with limit 1 a call is admitted iff it is first or more than W after the previous attempt, denied attempts included |
| RateLimiter.ExpiryForgetsLateCalls | pkg/redis/rate_limiter.go:60-62 | the one-second buffer is exactly the execution delay that the expiry tolerates |
| RateLimiter.MemberNamesDiffer | pkg/redis/rate_limiter.go:41-44 | two calls get one member iff millisecond and nanosecond remainder both agree |
| RateLimiter.CollidingMembersCountOnce | pkg/redis/rate_limiter.go:41-58 | calls with one member count once, so any number of them passes limit 2 |
| RateLimiter.RespectRateLimit | internal/crawler/worker.go:309-328 | with any attempts of other crawlers between its polls, the wait ends at its first poll that is not within two seconds of the attempt before it, whoever made that, or at a Redis error after any number of commands, or by cancellation; the key is left as that traffic implies and no other key changes |
| RateLimiter.PollingStarves | internal/crawler/worker.go:312-326 | all of a wait's polls are denied iff each comes within two seconds of the attempt before it, its own or another crawler's, as polling every 500 ms does |
| RateLimiter.CrawlKeysDiffer | internal/crawler/worker.go:310 | every source has a window of its own |
| ConcurrentLimiter.OvershootBound | pkg/redis/rate_limiter.go:46-73 | however the commands of N clients interleave, a closed window of length W-S admits at most limit+N-1 |
| ConcurrentLimiter.OvershootAttained | pkg/redis/rate_limiter.go:46-73 | for every limit and N some run admits limit+N-1, so the bound cannot be improved |
| ConcurrentLimiter.AloneIsAllow | pkg/redis/rate_limiter.go:37-74 | from any state, a call's four commands taken without interruption leave the key as the single caller's pipeline does, and admit exactly when that does |
| ConcurrentLimiter.SingleClientRule | pkg/redis/rate_limiter.go:29-37 | so a client that is alone is admitted iff fewer than `limit` of its earlier attempts lie in [now-W, now] |
| ConcurrentLimiter.AloneIsReachable | pkg/redis/rate_limiter.go:46-62 | and the interleaved machine takes such a call wherever its theorems apply |
| CrawlQueue.CrawlerWorker.constructor | internal/crawler/worker.go:65-89 | the fan-out limit falls back to 50 when it is not positive |
| CrawlQueue.CrawlerWorker.ProcessMessage | internal/crawler/worker.go:125-212 | a delivery has exactly the effects on the three topics, the outcome and the one commit that its environment determines |
| CrawlQueue.CrawlerWorker.FanoutListing | internal/crawler/worker.go:218-278 | enqueues one detail task per URL up to the limit, or what a failed batch had written |
| CrawlQueue.CrawlerWorker.Drain | internal/crawler/worker.go:104-122 | in any order and under any failures the loop empties a queue of n messages and q listings within n + q*maxFanout deliveries, counting what went where |
| CrawlQueue.OutcomeByCause | internal/crawler/worker.go:125-212 | each of the six outcomes iff its own condition on the message, the limiter, robots.txt, the fetch, the parser, the publishes and the DLQ |
| CrawlQueue.RobotsAreObeyed | internal/crawler/worker.go:151-160 | on any run, whatever fails, no page that the check refuses reaches jobs.raw and no listing that it refuses puts anything on crawl.queue |
| CrawlQueue.FaultFreeRunsSucceed | internal/crawler/worker.go:162-212 | when nothing fails and nothing is refused, every delivery is forwarded, fanned out or an empty listing, and nothing is dead-lettered |
| CrawlQueue.WrittenPositions | internal/crawler/worker.go:268-270 | what a failed batch leaves is the tasks it had written, in order |
| Robots.RobotsChecker.IsAllowed | pkg/httputil/robots.go:31-64 | refuses a URL that does not parse, allows a site whose robots.txt cannot be fetched, and keeps the first one fetched |
| Robots.AnswersByFirstFetch | pkg/httputil/robots.go:14-16 | over the checker's whole life a site is judged by the robots.txt first fetched, whatever it says later, and allowed until then |
| RobotsRuns.RootIsAsked | internal/crawler/worker.go:152 | where robots.txt can be fetched, the crawler's answer is what the site says about "/" |
| RobotsRuns.RootRuleIsExact | pkg/httputil/robots.go:27-30 | every page that ever reaches jobs.raw is one that its site allows iff every site that allows "/" allows all its URLs |
| CrawlQueue.DeliveryKeepsContent | internal/crawler/worker.go:184-206 | a forward keeps source, URL and page; a fan-out is the first maxFanout URLs in order as detail tasks; dead-lettering keeps the message; only a failing DLQ loses one |
| CrawlQueue.DeliveryLosesWeight | internal/crawler/worker.go:184-212 | a delivery puts back strictly less weight than it took, only listings put anything back, and only detail tasks |
| CrawlQueue.DeliveryLowersQueue | internal/crawler/worker.go:248-270 | each delivery strictly lowers the queue's weight, also when a batch fails after writing any subset |
| CrawlQueue.FanoutTerminates | internal/crawler/worker.go:42-46 | with arrivals at any time, q listings and d others cause at most q*(maxFanout+1)+d deliveries and q fan-outs |
| CrawlQueue.DeliveriesAreConserved | internal/crawler/worker.go:102-122 | over any run, deliveries = forwarded + fanned out + empty + robots-skipped + dead-lettered + lost, each committed once |
| CrawlQueue.EverythingDerives | internal/crawler/worker.go:184-206 | on any run, every message queued or dead-lettered arrived or is a detail task of a listing that arrived, and every page forwarded is such a message's own |
| Dedup.Deduplicator.IsUrlCrawled | internal/processor/dedup.go:54-63 | claims the URL key for 24 hours iff it is free; a Redis error claims nothing and reports new |
| Dedup.Deduplicator.IsDuplicate | internal/processor/dedup.go:39-50 | the same for the fingerprint, for 7 days |
| DedupRuns.ClaimsAreApart | internal/processor/dedup.go:39-63 | on any interleaving of workers and redeliveries, claims of one URL are 24 hours apart and claims of one fingerprint 7 days, whatever becomes of the deliveries |
| DedupRuns.AtMostOncePersist | internal/processor/worker.go:121-158 | every upsert, acknowledged or not, was preceded by both checks, so claims of two upserts are 24 hours apart for one URL and 7 days apart for one fingerprint |
| DedupRuns.EarlyReplayIsDropped | internal/processor/worker.go:121-131 | on any run a delivery is dropped at its URL check iff some delivery claimed the URL less than 24 hours before, whatever became of that one |
| DedupRuns.RecentContentIsDropped | internal/processor/worker.go:148-158 | on any run a delivery is dropped at its content check iff some delivery claimed the fingerprint less than 7 days before, whatever became of that one |
| Dedup.KeysAreApart | internal/processor/dedup.go:41-56 | URL keys and content keys never coincide |
| Dedup.JobKeysDiffer | internal/processor/dedup.go:41 | no two fingerprints share a key |
| Dedup.UrlKeysDiffer | internal/processor/dedup.go:55-56 | two URLs share a key iff SHA-256 maps them together |
| Dedup.ContentKeysAgree | internal/processor/dedup.go:39-41 | two jobs with pipe-free titles and companies share a key iff all three normalised fields agree |
| Duplicates.UrlDuplicatesAreRecent | internal/processor/worker.go:121-131 | on every run of the worker from no claims, a delivery is a URL duplicate iff Redis answers it and an earlier delivery of the same URL claimed it less than 24 hours before |
| Duplicates.ContentDuplicatesAreRecent | internal/processor/dedup.go:31-38 | on every such run with pipe-free titles and companies, a delivery that gets to its content check is a duplicate iff Redis answers it and an earlier one with the same three normalised fields claimed them less than 7 days before |
| Fingerprint.NormalFormIsCanonical | internal/processor/dedup.go:77-80 | two fields normalise alike iff they have the same lower-case words |
| Fingerprint.NormaliseIsIdempotent | internal/processor/dedup.go:77-80 | normalising twice is normalising once |
| Fingerprint.CaseIsIgnored | internal/processor/dedup.go:77-80 | fields that lower to one text normalise alike |
| Fingerprint.PaddingIsIgnored | internal/processor/dedup.go:77-80 | Unicode white space around a field is ignored |
| Fingerprint.BlankRunsAreAlike | internal/processor/dedup.go:75-80 | any two non-empty runs of blanks inside a field are alike |
| Fingerprint.FingerprintIdentifies | internal/processor/dedup.go:65-72 | for an injective hash and pipe-free titles and companies, fingerprints agree iff all three normalised fields do |
| Fingerprint.SharingIsExact | internal/processor/dedup.go:65-80 | a job shares its fingerprint with a job of other normalised fields iff one of its normalised fields has a pipe with no space beside it |
| Fingerprint.NormalFormsHaveTheShape | internal/processor/dedup.go:74-80 | a text is its own normal form iff it is lower case, trimmed and single-spaced |
| Fingerprint.PipesCollide | internal/processor/dedup.go:69 | the simplest pair of such jobs |
| JobStore.JobRepo.Upsert | internal/repository/postgres/job_repo.go:27-83 | inserts, or on a known fingerprint changes url and updated_at only, returning the stored row's id and times; refused by the table's constraints it changes nothing; a database error may come before or after the commit |
| JobStore.InsertWritesEveryColumn | internal/repository/postgres/job_repo.go:61-80 | an insert fills each column from its own field, NULL for an empty optional text, cut to the column's size, and touches no other row |
| JobStore.ConflictUpdatesTwoColumns | internal/repository/postgres/job_repo.go:44-47 | a conflict changes url and updated_at of the row with the fingerprint and nothing else |
| Jobs.LegalJobs | migrations/000001_create_jobs_table.up.sql:4-48 | the table's constraints, as conditions on the job |
| JobStore.JobRepo.DeleteOlderThan | internal/repository/postgres/job_repo.go:315-325 | removes exactly the rows created before the cutoff and returns their number |
| JobStore.UpsertKeepsWellFormed | migrations/000001_create_jobs_table.up.sql:44 | at most one row per fingerprint is preserved |
| JobStore.UpsertSize | internal/repository/postgres/job_repo.go:44-48 | an upsert adds a row iff it succeeds with a new fingerprint |
| JobStore.CreatorIsFirstSurvivor | internal/repository/postgres/job_repo.go:44-48 | the event that created the present row is the first accepted upsert that no later sweep reached |
| JobStore.StoreRefinesHistory | internal/repository/postgres/job_repo.go:27-83 | after any interleaving of upserts and sweeps a fingerprint's row has id, created_at and facts of its creator and url and updated_at of the latest accepted upsert, and no row when there is no creator |
| Janitor.RunOnce | internal/janitor/janitor.go:62-79 | one unguarded sweep removes exactly the rows older than the retention, everything so far when the retention is not positive, and nothing when the delete fails |
| Janitor.Start | internal/janitor/janitor.go:28-60 | the guards let no sweep run without cleanup or with a retention that is not positive |
| Janitor.YoungRowsSurvive | internal/janitor/janitor.go:64-75 | no schedule of sweeps removes a row younger than the retention |
| Janitor.SurvivorsAreExact | internal/janitor/janitor.go:62-79 | after any schedule exactly the rows are left that were younger than the retention at each sweep that worked |
| Janitor.CutoffIsRetention | internal/janitor/janitor.go:65 | the cutoff is the intended one iff the retention is within 106751 days of zero |
| JobCap.CapBound | internal/processor/worker.go:188-207 | after a successful startup count, with at most K inserts in any refresh and L inserts committed but reported as failed, rows never exceed max(initial, cap+K+L) on any run |
| JobCap.LaggingCapBound | internal/processor/worker.go:75-77 | the same for a counter that starts behind, as after a failed startup count |
| JobCap.CapBoundIsAttained | internal/processor/worker.go:254-269 | for every cap, every K up to it and every L some run from the empty table stores cap+K+L rows, so neither term can be dropped |
| JobCap.RefreshIsExact | internal/processor/worker.go:254-269 | a refresh makes the counter exact iff the table has the same size at its store as at its count, and then the next check passes iff there is room |
| JobCap.CheckIsExact | internal/processor/worker.go:188-195 | a check passes iff there is no cap or room by the counter, and then the job it was given is the one upserted |
| JobCap.SweepReopensTheCap | internal/processor/worker.go:185-187 | where the table is full, a sweep and a refresh let the next job through iff the sweep found a row older than its cutoff |
| Processor.ProcessorWorker.ProcessMessage | internal/processor/worker.go:101-240 | one delivery changes claims, table, counter, topics and commits exactly as its steps in order say |
| Processor.ProcessorWorker.Start | internal/processor/worker.go:72-97 | the loop after the startup count is the fold of its deliveries |
| Processor.ProcessorWorker.RefreshCount | internal/processor/worker.go:260-269 | the counter becomes the table's size, or stays on error |
| Processor.PersistedIsStored | internal/processor/worker.go:158-223 | a persisted delivery had room; its row is under the fingerprint of the parsed title, company and location with the message's URL; a new row has each column from the message, the page, the text functions and the salary text; and that row's id is published |
| Processor.OutcomeByCause | internal/processor/worker.go:101-240 | URL duplicate, content duplicate, cap-skipped and persisted each iff its own condition; without a cap nothing is skipped |
| Processor.DeadLettersKeepTheMessage | internal/processor/dlq.go:41-59 | a dead letter holds the whole message under its key, or under its offset when it has none, and nothing else goes to jobs.failed |
| Processor.SalaryDecides | internal/processor/worker.go:161-180 | of the pages with a known working mode the table accepts exactly those whose parsed salary it accepts |
| Processor.PrintedRangeIsAccepted | internal/processor/worker.go:161-180 | so a page with a printed range is accepted iff the range is the right way round and fits INTEGER |
| Processor.PersistIsCapSteps | internal/processor/worker.go:188-207 | the worker's table and counter move by the cap machine's steps, whether the database fails or not |
| Processor.DeliveryIsDedupSteps | internal/processor/worker.go:121-202 | a delivery makes the claims of the claim machine's steps, and is persisted there exactly when its upsert reached the table, so the machine's theorems hold of the worker |
| Processor.DeliveryAccounts | internal/processor/worker.go:101-240 | only a persisted delivery touches the counter, only it and an upsert committed but reported as failed touch rows, only a dead-lettered one jobs.failed |
| Processor.DeliveriesAreConserved | internal/processor/worker.go:101-252 | over any run, deliveries = persisted + url duplicates + content duplicates + cap-skipped + dead-lettered + lost, each committed once |
| Processor.RedeliveryIsDropped | internal/processor/dlq.go:13-19 | whatever became of a first delivery and whatever came in between, a redelivery of its URL within 24 hours changes only the commit count |
| Salary.ScannerIsThePattern | internal/processor/normalizer.go:141 | every way to split a text by the pattern at one position has the scanner's first amount, and the scanner's second amount is the longest |
| Salary.LongestSplitIsTheMatch | internal/processor/normalizer.go:141 | a split that cannot be extended is the scanner's match, with its currency |
| Salary.ParseThousands | internal/processor/normalizer.go:188-195 | dropping the dots of a grouped number reads back the number |
| Salary.SalaryRoundTrip | internal/processor/normalizer.go:150-164 | amounts from 10 up, printed with thousands dots, either dash and any listed currency, come back exactly, clamped to an int |
| Salary.SalaryNeedsTwoDigits | internal/processor/normalizer.go:141-185 | with a one-digit amount the same text is not recognised at all |
| SalaryForms.PrefixIsIgnored | internal/processor/normalizer.go:155-164 | text without digits in front of a text in which a range is found changes nothing |
| SalaryForms.PrefixedRoundTrip | internal/processor/normalizer.go:150-164 | so the amounts of the first pattern come back from behind any such text |
| SalaryForms.ShortRoundTripIsExact | internal/processor/normalizer.go:143-172 | amounts in thousands come back, with their symbol's currency and as an int64 product, unless there is neither a k after the first amount nor a second symbol and both amounts have two digits; those are read as a plain range in EUR |
| SalaryForms.UpToRoundTrip | internal/processor/normalizer.go:145-182 | "up to" in any case with an amount from 10 up gives that maximum alone, clamped to an int, in EUR, USD or GBP; CHF reads as EUR |
| SalaryForms.NoDigitsNoSalary | internal/processor/normalizer.go:150-185 | a text without digits, such as the empty one, has no salary and no currency |
| Sql.WhereIgnoresLater | internal/repository/postgres/job_repo.go:149-155 | conditions mean the same when conditions and parameters are appended after them |
| SearchQuery.QueryBuilder.AddFilter | internal/repository/postgres/job_repo.go:127-147 | the growing conditions, arguments and index are the compiled filter |
| SearchQuery.CompiledMeansFilter | internal/repository/postgres/job_repo.go:123-151 | the generated clause is true of exactly the rows that meet the filter, and its placeholders are $1, $2, ... in order, each once, bound to a parameter of its type |
| SearchQuery.CountIsMatching | internal/repository/postgres/job_repo.go:154-159 | the count statement counts the matching rows, and fails iff the minimum salary exceeds INTEGER |
| SearchQuery.PageIsMatching | internal/repository/postgres/job_repo.go:193-208 | with LIMIT and OFFSET as its last two parameters, the page statement cuts the matching rows |
| SearchQuery.Search | internal/repository/postgres/job_repo.go:109-226 | a search returns the clamped page of the matching rows and their number, or an error for a salary or a wrapped offset Postgres refuses |
| SearchQuery.OrderByIsListed | internal/repository/postgres/job_repo.go:176-191 | whatever is asked for, the order clause is a listed column and a direction |
| SearchQuery.OrderByRule | internal/repository/postgres/job_repo.go:176-191 | for every sort text: a listed column, ascending iff what follows its first colon upper-cases to ASC; with any other column, published_at DESC |
| SearchQuery.FirstPageIsNewest | internal/repository/postgres/job_repo.go:162-177 | a request without a sort or page shows the first of the newest matching rows, 25 unless it asks for some number up to 100 |
| JobHandler.BuildFilter | internal/handler/job_handler.go:37-82 | every request gives page at least 1, per_page 1 to 100 and a non-negative salary, with each field as asked when it is legal |
| JobHandler.CleanList | internal/handler/job_handler.go:47-61 | tags and sources are the trimmed, non-blank, re-cased parts; none leaves a nil slice |
| JobHandler.CleanedListPositions | internal/handler/job_handler.go:47-61 | of comma-separated items exactly those with text come back, trimmed, re-cased and in their order |
| JobHandler.CleanedAreLower | internal/handler/job_handler.go:47-53 | tags reach the filter in lower case |
| JobHandler.AtoiPrint | internal/handler/job_handler.go:63-75 | every int printed in decimal is read back |
| JobHandler.AtoiReadsSpellings | internal/handler/job_handler.go:63-75 | a parameter is read as n iff n fits an int and the text is an optional sign, any zeros and the digits of n |
| JobService.ServiceSearch | internal/service/postgres_job_service.go:21-37 | the repository's answer with the page count |
| JobService.PagesTile | internal/service/postgres_job_service.go:26-29 | for every filter the handler can build and the database accepts, pages 1 to TotalPages of one snapshot concatenate to all matching rows, none empty or too long, all reporting the same totals |
| JobService.LaterPages | internal/repository/postgres/job_repo.go:161-174 | a later page is empty while its offset fits; it is an error iff the offset wraps negative, and shows rows iff it wraps inside the result |
| JobService.WrappedPageRepeatsFirst | internal/repository/postgres/job_repo.go:174 | page 2^58+1 of 64 rows is page 1 again |
| JobService.TilingNeedsBounds | internal/service/postgres_job_service.go:26-29 | pages tile every table iff per_page is between 1 and 100 |
| AlertMatcher.HasTagIntersection | internal/processor/alert_matcher.go:116-127 | true iff some tag of each side agree up to case |
| AlertMatcher.FindMatchingAlerts | internal/processor/alert_matcher.go:33-49 | the active alerts whose filter the job meets, all of them, in order; an error passes through |
| AlertMatcher.MatchingAlertsInOrder | internal/processor/alert_matcher.go:38-48 | they come in the order of the list, each as often as listed |
| AlertMatcher.QueryNarrows | internal/processor/alert_matcher.go:82-92 | a query narrows a filter to the jobs whose title or description mentions it, character by character and in any case |
| AlertMatcher.SearchImpliesAlert | internal/processor/alert_matcher.go:82-113 | for query-free filters every job the search selects also raises the alert |
| AlertMatcher.AgreementIsExact | internal/domain/alert.go:12-14 | for query-free filters, alert and search agree on every storable job iff the filter is unsatisfiable, or has no location, no source or all, and at most one distinct tag, in lower case |
| AlertMatcher.AlertIsWiderThanSearch | internal/domain/alert.go:12-14 | three filters and jobs on which they differ |
| Tags.ExtractTags | internal/processor/normalizer.go:120-135 | the tags are exactly the keywords in the text, each once, in some order |
| Tags.WordsAreFoundInEither | internal/processor/normalizer.go:120-128 | a keyword of one word is found iff the title or the description has it; none is found across the two |
| Tags.SortedOnlyWhenAlone | internal/processor/normalizer.go:118-119 | the tags are sorted whatever the map order iff at most one keyword is found |
| Tags.TagsAreLower | internal/processor/normalizer.go:118-119 | lowercase keywords give lowercase tags |
| Json.ReadCharsEscape | internal/service/cached_job_service.go:202 | a string read back through its JSON escapes is unchanged |
| Json.ReadMembersPrint | internal/service/cached_job_service.go:202 | an object of strings, integers, null and string arrays is read back exactly |
| SearchKey.DecodeEncode | internal/service/cached_job_service.go:201-205 | the JSON of a search filter has a left inverse |
| SearchKey.SameKeySameFilter | internal/service/cached_job_service.go:190-208 | two filters with one cache key are one filter, unless their encodings collide under SHA-256 |
| InvalidText.TextsCollideExactly | internal/service/cached_job_service.go:202 | two texts have one encoding iff they differ only in which bytes that are not UTF-8 they hold |
| InvalidText.ValidTextsStandAlone | internal/service/cached_job_service.go:202 | a text shares its encoding with no other iff it is valid UTF-8; a genuine U+FFFD is told apart from such a byte |
| InvalidText.ReadCharsUnits | internal/service/cached_job_service.go:202 | a reader of the JSON sees every such byte as the replacement character |
| RawFilters.FiltersCollideExactly | internal/service/cached_job_service.go:50-53 | two filters have one encoding iff they differ only in which such bytes their texts hold |
| RawFilters.ValidFiltersStandAlone | internal/service/cached_job_service.go:190-205 | a filter shares its encoding with no other iff all its texts are valid UTF-8 |
| RawFilters.ValidFiltersEncodeAlike | internal/service/cached_job_service.go:202 | a filter of valid texts is encoded as in `SearchKey` |
| SearchKey.KeySpacesAreDisjoint | pkg/redis/keys.go:33-48 | search, job and statistics keys never coincide, and the invalidation pattern covers exactly the searches |
| RedisCache.Cache.ScanAndDelete | pkg/redis/cache.go:88-112 | the cursor loop is the fold of the SCAN replies, stopping at the first failure |
| RedisCache.ScanDeletesReturned | pkg/redis/cache.go:92-109 | a completed scan deletes exactly the keys it was shown, a failed one nothing else |
| RedisCache.ScanCompletes | pkg/redis/cache.go:88-112 | a scan completes iff the replies reach cursor 0 without an error, and leaves exactly the entries that no reply up to that one named |
| CachedService.CachedJobService.Search | internal/service/cached_job_service.go:54-93 | a live entry is returned untouched; otherwise the inner answer is returned, and kept for 60 s unless it is an error or the write fails |
| CachedService.CachedJobService.GetByID | internal/service/cached_job_service.go:98-128 | the same for one job, for 5 minutes |
| CachedService.CachedJobService.GetStats | internal/service/cached_job_service.go:132-150 | the same for the statistics, for 1 hour |
| CachedService.CachedJobService.Invalidate | internal/service/cached_job_service.go:163-188 | with Redis answering and a full scan, exactly the searches, the job and the statistics are gone |
| CachedService.SameKeySameRequest | internal/service/cached_job_service.go:190-208 | different requests never share a key |
| CacheStaleness.AloneIsServed | internal/service/cached_job_service.go:54-93 | a call's steps in the interleaved machine, one per SQL statement and taken without interruption, reach what the service's methods do |
| CacheStaleness.BoundedStaleness | internal/service/cached_job_service.go:54-150 | on any interleaving of readers, updates, evictions, invalidations and failures, an answer is the inner service's answer to that request from states its statements read in order, none further back than a minute for a search, five for a job or an hour for the statistics, plus the delay from first statement to write |
| CachedSearch.SearchThroughCache | internal/service/cached_job_service.go:54-93 | so the total and the page of a search are those of two states of the table, in order, within that time |
| CacheStaleness.StalenessIsAttained | internal/service/cached_job_service.go:152-188 | that age is reached, one millisecond short, although an invalidation followed the update |
| Invalidation.FreshFromHereOn | internal/service/cached_job_service.go:54-150 | from any state, every new call for a request is answered from the store as it is there or becomes later iff no live entry has another answer and no call in flight can still write one in time |
| Invalidation.InvalidationIsExact | internal/service/cached_job_service.go:152-188 | so an invalidation works iff no such call is in flight |
| Invalidation.SingleStatementSpoils | internal/service/cached_job_service.go:112-125 | for a single job, such a call is one holding an answer that is not the current store's |
| SplitCsv.Trim | internal/handler/middleware/rate_limit.go:118-126 | the two loops compute the trimmed text |
| SplitCsv.TrimmedIsCore | internal/handler/middleware/rate_limit.go:118-126 | trimming gives the one text without padding at its ends that is the input but for padding |
| SplitCsv.SplitCSV | internal/handler/middleware/rate_limit.go:100-116 | the index loop is split on commas, trim, drop empty, for every string |
| SplitCsv.SplitInvertsJoin | internal/handler/middleware/rate_limit.go:100-116 | splitting undoes joining iff all parts are non-empty, trimmed and comma-free |
| SplitCsv.FieldsOfJoin | internal/handler/middleware/rate_limit.go:100-116 | of any comma-free parts, blank ones included, exactly those with text come back, trimmed and in order |
| SplitCsv.SplitIsStable | internal/handler/middleware/rate_limit.go:100-116 | a header rebuilt from its parts splits into the same parts |
| Strings.SplitJoin | internal/handler/job_handler.go:48 | strings.Split undoes joining of separator-free parts |

## Left out

- Fetching, cookies, HTML and JSON-LD parsing, the syntax of robots.txt and the parsing of URLs: a
  delivery's environment says whether they succeed and what they return.
- RobotsRuns.RootRuleIsExact: takes the rules of a site to stay as they are and to be fetched; what the
  checker does when they change or cannot be fetched is `Robots.AnswersByFirstFetch`.
- Duplicates.ContentDuplicatesAreRecent: takes titles and companies without pipes; `Fingerprint.SharingIsExact`
  says which others share a fingerprint.
- Logging, metrics, tracing, configuration, health probes, shutdown, migrations runner and the web UI.
- `NormalizeTitle`, `NormalizeLocation`, `DetectRemote` and `titleCase` are arbitrary functions of the
  processor model: regex clean-up and keyword lists without a deep invariant. `Tags` takes the keyword
  list as a parameter.
- Alert matching inside `processMessage`: the processor is started without an alert matcher
  (`cmd/processor/main.go`), so the matcher is modelled on its own; `NotifyMatches` only publishes.
- SHA-256 is a function parameter, assumed injective or collision-free where a statement says so.
- Unicode lowering and upper-casing are rune functions given as parameters, with the few properties used
  (`Fingerprint.LowersRunes`); Go strings with invalid UTF-8 appear only in `InvalidText`
  and `RawFilters`, and NUL characters, which Postgres refuses, are not treated specially.
- RateLimiter.RespectRateLimit: the attempts of other crawlers between two polls run all their commands,
  each before the next attempt's; commands of several clients interleave in `ConcurrentLimiter`.
- Salary texts with digits in front of the amounts, or with other text after them, have no round trip.
- Postgres full-text search and ILIKE are uninterpreted, as are query parsing and the server's limit of
  65535 parameters.
- The order of rows across different snapshots: sort columns are not unique, so pages are read from one
  ordered snapshot.
- `GetStats` aggregation and `GetByID` row scanning; the cached values are abstract, and JSON of results
  is taken to be faithful.
- Kafka partitions, offsets and rebalances: a redelivery is another arrival of the message, and a single
  publish that fails after being written is a failure. A second processor replica sharing the cap is
  not modelled; one replica is deployed.
- The scheduler's cron is only a source of tasks; the janitor's cron only of sweeps.
- ConcurrentLimiter.OvershootBound: assumes distinct members and a key that does not expire during the
  run; expiry is covered by the sequential theorems.
- RateLimiter.WindowBound: assumes stamps that do not decrease and an execution delay that grows by less
  than the one-second buffer; `RateLimiter.ExpiryForgetsLateCalls` shows the second is needed.
- Redis eviction of deduplication keys: claims last until their TTL, and a SETNX that reports an error is
  taken not to have been applied.
- Processor.ProcessorWorker.Start: the loop has the table and the counter to itself; the refresher
  goroutine and concurrent sweeps are in `JobCap`, whose steps `Processor.PersistIsCapSteps` ties to it.
