# prs-throughput in Dafny

prs-throughput collects pull-request metrics for one hosting-platform
organisation and reports on them. It has three layers:

- **Collection.** The platform's CLI lists the active repositories, then each
  repository's recent pull requests (PRs), filtered by creation date.
- **Normalisation and storage.** Each PR becomes a flat row: author, size,
  state, time to merge and labels. The rows are meant to be written to a
  store partitioned Hive-style by `org/repo/year/month`; the save path as
  written cannot run (see "Left out"), and the model follows the intended
  wiring. Older timestamped
  snapshot files are still read as a fallback; they can be pruned,
  consolidated and merged incrementally with keep-last de-duplication on
  `(repo, pr_number)`.
- **Reporting.** SQL aggregates give the summary; per-author, per-repository
  and per-size-bucket tables; weekly (newest six) and monthly trends; and
  the top authors. The reports turn these into a terminal dashboard, with
  trend tags, colours and bars, or into a markdown document.

An older single-file script does the same job with its own normalizer,
loader, size bucketing and save step.

The model restates each of these rules over plain sequences of rows:

- Timestamps are validated civil date-times ordered by epoch seconds.
- Hours, rates and means are exact `real`s.
- Files are values: a name plus either parquet rows or `Corrupt`.
- The Hive store is a class over a map from partition key to rows.
- The output directory is a class over its file list.
- The report loops and the collection loops are methods, proved against the
  functions that specify them.
- The CLI's output, the environment, the clock's cutoff date and the scan
  engine's result are all parameters.

Modules follow the source files:

| module | source |
|---|---|
| `Utils` | `utils.py` |
| `Processor` | `processor.py` |
| `GitHub` | `github.py` |
| `Storage` | `storage.py` |
| `Queries` | `queries.py` |
| `Reports` | `reports.py` |
| `Cli` | `cli.py` |
| `DataManager` | `data_manager.py` |
| `LegacyScript` | `pr_metrics.py` |

Shared modules: `Wrappers` (Option), `Strings` (split/join, Python string
order, decimal text), `Ordering` (filter, prefix, sort, distinctness),
`Time`, `Records` (raw PR and row values) and `Files`.

Where the code and the project's design description disagree, the model
follows the code:

- The older script takes the first review, by list position, rather than the
  earliest one.
- The weekly trend rules are tried in order, so one more PR at a slightly
  better rate is "up" even inside the stable band.
- The size distribution lists only non-empty buckets.
- The package's CLI writes the unfiltered rows to the Hive store under the
  sanitized org, but the minimum-PR-filtered rows to CSV.

## Model

| member | source | states |
|---|---|---|
| Utils.ResolveOrg | src/pr_metrics/utils.py:7-22 | A truthy CLI argument wins. Otherwise a truthy environment value is used. Otherwise the org is not specified (the ValueError). An empty-string argument falls through. A resolved org is never empty. |
| Utils.Lower | src/pr_metrics/utils.py:27 | Lower-casing one ASCII character: an upper-case letter moves down by 32, everything else is kept, and the result is never upper-case. |
| Utils.SanitizeOrgName | src/pr_metrics/utils.py:25-27 | Same length as the input, mapped character by character, with no space, no underscore and no upper-case letter in the result. |
| Utils.SanitizeIdempotent | src/pr_metrics/utils.py:27 | Sanitizing a sanitized name changes nothing. |
| Utils.SanitizeMergesSpellings | src/pr_metrics/utils.py:27 | Names whose characters agree up to case and space/underscore/dash get the same slug. |
| Records.ParsedStamp | src/pr_metrics/processor.py:16-18 | A timestamp field is parsed exactly when it is present and non-empty. |
| Processor.AuthorLogin | src/pr_metrics/processor.py:15 | `'unknown'` for a missing author object or a missing login; otherwise the login. |
| Processor.PrSize | src/pr_metrics/processor.py:21 | A missing additions or deletions count counts as 0, each on its own: with one missing the size is the other, with both missing it is 0. The size is non-negative when both counts are. |
| Processor.DeriveState | src/pr_metrics/processor.py:27 | `merged` iff a merge time exists; `closed` iff not merged and a close time exists; `open` otherwise. |
| Processor.TimeToMerge | src/pr_metrics/processor.py:22 | Present iff both timestamps are present. It equals the exact hours between them, and is negative exactly when the merge precedes creation (no clamping). |
| Processor.LabelText | src/pr_metrics/processor.py:28 | The label names joined by commas. No labels gives the empty string. |
| Processor.LabelsRoundTrip | src/pr_metrics/processor.py:28 | Splitting the label column on commas gives back the label names when no name contains a comma and there is at least one label. |
| Processor.NormalizePr | src/pr_metrics/processor.py:14-45 | A row carries the org argument, the repo and the PR number. Its author, timestamps, state, size, draft flag and labels follow the per-field rules. Commits and reviews are 0, first-review time is null, and the state agrees with the merge time. |
| Processor.RepoRows | src/pr_metrics/processor.py:13-45 | One row per PR of a repository, in list order. |
| Processor.FlattenLength | src/pr_metrics/processor.py:12-45 | Exactly one row per input PR across all repositories. |
| Processor.FlattenAppend | src/pr_metrics/processor.py:12-13 | Rows of earlier repositories come first: flattening distributes over concatenation of the repository list. |
| Processor.FlattenOrigin | src/pr_metrics/processor.py:12-45 | Every row is the normalization of some input PR of its own repository. |
| Processor.FlattenRows | src/pr_metrics/processor.py:10-47 | The nested append loop produces exactly the flattened rows. |
| Processor.ProcessPrsToDataframe | src/pr_metrics/processor.py:8-47 | The rows of `process_prs_to_dataframe`: one per input PR in iteration order, each with the org argument and a consistent state. |
| Processor.LatestPattern | src/pr_metrics/processor.py:54-59 | `pr_data_<sanitized org>_*.parquet` for a truthy org, else `pr_data_*.parquet`. |
| Processor.LoadLatestData | src/pr_metrics/processor.py:50-61 | Nothing iff no file matches. Otherwise it returns the contents of a matching file whose name is lexicographically greatest among the matches. |
| Files.MatchingFiles | src/pr_metrics/processor.py:57 | The glob: exactly the directory's files whose name matches the pattern. |
| Files.SortedByName | src/pr_metrics/processor.py:57 | `sorted(...)`: a permutation of the files, ascending by name. |
| Files.SortedByNameDescending | src/pr_metrics/storage.py:159 | `sorted(..., reverse=True)`: a permutation, descending by name. |
| Files.SortedLastGreatest | src/pr_metrics/processor.py:61 | The last file of a name-sorted list has the greatest name. |
| Files.ReadLatest | src/pr_metrics/processor.py:57-61 | `read_parquet(files[-1]) if files else None` for any pattern: missing iff nothing matches, else the read of a greatest-named match. |
| Strings.SplitJoin | src/pr_metrics/processor.py:28 | Splitting a comma-join of comma-free parts on the comma gives the parts back. |
| Strings.Take | src/pr_metrics/github.py:64 | `s[:n]`: the prefix of length min(n, len(s)). |
| Strings.Pad2 | src/pr_metrics/storage.py:24 | `f"{month:02d}"`: digits only, exactly two below 100, and it reads back as the number. |
| Strings.ParseNatToString | src/pr_metrics/storage.py:24 | Decimal text of a number reads back as that number. |
| Time.HoursBetween | src/pr_metrics/processor.py:22 | Exact hours between two instants; non-negative iff the first is not after the second. |
| Time.WholeDaysBetween | src/pr_metrics/reports.py:61 | `(b - a).days`: whole days rounded down, bracketing the second difference. |
| Time.WeekStart | src/pr_metrics/queries.py:85 | `DATE_TRUNC('week')`: a Monday within the six days before the instant's day. |
| Time.MonthIndex | src/pr_metrics/queries.py:136 | `DATE_TRUNC('month')`: the year and month can be read back from the index. |
| Storage.FieldValue | src/pr_metrics/storage.py:24 | A value read from a `name=value` directory name rebuilds that directory name. |
| Storage.FieldValueOf | src/pr_metrics/storage.py:24 | `name=value` reads back as `value`. |
| Storage.SegmentsFree | src/pr_metrics/storage.py:24 | With no `/` in org and repo, none of the four directory names contains `/`. |
| Storage.PartitionPathRoundTrip | src/pr_metrics/storage.py:9-25 | The path `base/org=/repo=/year=/month=MM` parses back to `(org, repo, year, month)` of the creation time, when org and repo contain no `/`. |
| Storage.PartitionKeySet | src/pr_metrics/storage.py:62-67 | The counted partitions are exactly the (org argument, repo, year, month) of the dated rows, and there are at most as many as rows. |
| Storage.CountPartitions | src/pr_metrics/storage.py:62-69 | The counting loop builds exactly that set. |
| Storage.PartitionRows | src/pr_metrics/storage.py:54-59 | A partition receives exactly the batch rows whose own org column, repo and creation month place them there. |
| Storage.Overwrite | src/pr_metrics/storage.py:54-59 | After a partitioned COPY, the store's keys are the old keys plus the written ones. Every unwritten partition is kept, and every written one holds exactly its batch rows (never empty). |
| Storage.OverwriteIdempotent | src/pr_metrics/storage.py:54-59 | Writing the same batch twice leaves what writing it once does. |
| Storage.OverwriteStoresEveryRow | src/pr_metrics/storage.py:54-59 | Every dated row with an org ends up in its partition. |
| Storage.CountedAreWritten | src/pr_metrics/storage.py:62-67 | When every row carries the org argument, the counted partitions are exactly the written ones. |
| Storage.PartitionCountOrgFree | src/pr_metrics/storage.py:62-69 | The number of counted partitions is the same whatever org labels them. |
| Storage.HiveStore.constructor | src/pr_metrics/storage.py:28 | A fresh store holds no partitions. |
| Storage.HiveStore.WriteToHive | src/pr_metrics/storage.py:28-72 | An empty batch writes nothing. Otherwise the store is overwritten with the batch, and the outcome reports the batch size and the number of distinct counted partitions. No partition is ever left empty. |
| Storage.HoldsAllSnoc | src/pr_metrics/storage.py:114-118 | Clauses are joined with AND: appending a clause conjoins it. |
| Storage.HiveClauses | src/pr_metrics/storage.py:101-112 | One clause each for a truthy org, repo and days_back, in the order org, repo, cutoff. Their conjunction is exactly the Hive filter, so `days_back` of 0 or None gives no time filter. |
| Storage.LegacyClauses | src/pr_metrics/storage.py:211-217 | The legacy filters: cutoff first, then repo. Empty iff neither is truthy; conjunction equal to the filter without org. |
| Storage.LoadFromHive | src/pr_metrics/storage.py:75-140 | The Hive outcome: (1) a "No files found"/"does not exist" error or zero filtered rows gives no data; (2) any other error propagates; (3) otherwise view `pr_data` holds only non-empty rows satisfying the filter. |
| Storage.LegacyCandidates | src/pr_metrics/storage.py:155-161 | The matching snapshots (sanitized-org pattern for a truthy org), newest name first, as a permutation of the matches. |
| Storage.FirstReadable | src/pr_metrics/storage.py:164-182 | None iff every candidate is corrupt. Otherwise the rows of the first readable candidate; every earlier one is corrupt. |
| Storage.SkippedPrefix | src/pr_metrics/storage.py:164-180 | The skipped files are the corrupt prefix before the first readable one (all files when none is). |
| Storage.AfterCorruptRun | src/pr_metrics/storage.py:164-182 | After a run of corrupt files, the next readable file (or the end) decides both the rows and the skipped files. |
| Storage.FirstLoadable | src/pr_metrics/storage.py:164-182 | The skip loop returns the first readable file's rows and the names of the files skipped before it. |
| Storage.LoadFromLegacy | src/pr_metrics/storage.py:143-182 | No view iff no candidate loads. Otherwise view `pr_data` holds the rows of the newest loadable candidate, with the skipped names reported. |
| Storage.LoadData | src/pr_metrics/storage.py:185-229 | A Hive result other than no-data is returned as is. Otherwise the legacy result is used: view `pr_data_filtered` (rows filtered by cutoff and repo) exactly when days_back or repo is truthy, else `pr_data`. The org reaches the legacy tier only through the file-name pattern. |
| Queries.Group | src/pr_metrics/queries.py:34 | A group holds exactly the rows with that key. |
| Queries.Keys | src/pr_metrics/queries.py:34 | The distinct keys: exactly those with a non-empty group. |
| Queries.CountDistinct | src/pr_metrics/queries.py:15-16 | `COUNT(DISTINCT ...)`: the number of distinct keys, at least one for a non-empty view. |
| Queries.GroupTable | src/pr_metrics/queries.py:34-35 | A grouped table keyed by distinct keys, sorted by the ORDER BY relation. Each row is the aggregate of its key's non-empty group, and every input row's key is listed. |
| Queries.TableOf | src/pr_metrics/queries.py:34-35 | Any reordering of one aggregate per distinct key keeps one row per key with the right aggregate. |
| Queries.PrefixCover | src/pr_metrics/queries.py:96 | An element cut by LIMIT is preceded by `limit` elements that sort before it. |
| Queries.MergedCount | src/pr_metrics/queries.py:10 | Merged rows are at most all rows. |
| Queries.Avg | src/pr_metrics/queries.py:11-12 | `AVG` is NULL iff there are no values; otherwise mean × count equals the sum. |
| Queries.AvgSize | src/pr_metrics/queries.py:11 | `AVG(pr_size)`: NULL iff the view is empty; otherwise the mean of the sizes. |
| Queries.MergeTimes | src/pr_metrics/queries.py:12 | Only merged rows' merge times are averaged. |
| Queries.MergeTimesOfConsistentRows | src/pr_metrics/queries.py:12 | With normalizer-consistent dated rows, every merged row contributes exactly one merge time. |
| Queries.Rate | src/pr_metrics/queries.py:32 | `100 * merged / count`, within [0, 100] when merged ≤ count. |
| Queries.EarliestCreated | src/pr_metrics/queries.py:13 | `MIN(created_at)`: NULL iff no row is dated, else a row's time not after any other. |
| Queries.LatestCreated | src/pr_metrics/queries.py:14 | `MAX(created_at)`: NULL iff no row is dated, else a row's time not before any other. |
| Queries.GetSummaryStats | src/pr_metrics/queries.py:5-19 | Summary: total = row count; merged = merged rows, NULL only on an empty view. The merge-time average is over merged rows only. The date range is NULL iff nothing is dated, and ordered. The distinct repo/author counts are at most the total. |
| Queries.AuthorStatOf | src/pr_metrics/queries.py:25-32 | One author's row: count, merged ≤ count, rate = 100·merged/count in [0,100]; size, merge-time and review averages. |
| Queries.GetAuthorStats | src/pr_metrics/queries.py:22-37 | One row per distinct author, count descending, each the aggregate of exactly that author's rows, every author listed. |
| Queries.RepoStatOf | src/pr_metrics/queries.py:43-50 | One repository's row: 1 ≤ distinct contributors ≤ count, merged ≤ count, rate in [0,100], averages. |
| Queries.GetRepoStats | src/pr_metrics/queries.py:40-55 | One row per distinct repository, count descending, each the aggregate of exactly its rows. |
| Queries.SizeCategoryOf | src/pr_metrics/queries.py:62-66 | ≤ 50 is Small, 51..200 is Medium, > 200 is Large: total and disjoint. |
| Queries.CategoryRow | src/pr_metrics/queries.py:67-70 | A bucket's row exists iff the bucket is non-empty and counts exactly its rows. |
| Queries.TotalCountAppend | src/pr_metrics/queries.py:67 | Bucket counts add up over concatenated tables. |
| Queries.CategoriesPartition | src/pr_metrics/queries.py:62-66 | The three buckets partition the rows. |
| Queries.SizeRowsTotal | src/pr_metrics/queries.py:58-77 | The bucket counts sum to the number of rows. |
| Queries.SizeRowsAt | src/pr_metrics/queries.py:58-77 | The size table is the Small, Medium and Large rows concatenated. |
| Queries.SizeRowsCategories | src/pr_metrics/queries.py:58-77 | Each row of the size table carries its own bucket. |
| Queries.SizeRowsCover | src/pr_metrics/queries.py:58-77 | Every non-empty bucket has a row. |
| Queries.SizeRowsOrdered | src/pr_metrics/queries.py:71-76 | Buckets appear Small < Medium < Large. |
| Queries.GetSizeDistribution | src/pr_metrics/queries.py:58-78 | Buckets strictly in Small/Medium/Large order. A bucket appears iff non-empty, each count is its bucket's size (≥ 1), and the counts sum to the total. |
| Queries.WeeklyStatOf | src/pr_metrics/queries.py:84-92 | One week's row: 1 ≤ distinct authors ≤ count, merged ≤ count, rate in [0,100]. PRs per developer = count / authors ≥ 1. |
| Queries.PerDev | src/pr_metrics/queries.py:92 | `COUNT(*) / COUNT(DISTINCT author)`, at least 1 when authors ≤ count. |
| Queries.StrictlyNewestFirst | src/pr_metrics/queries.py:95 | Distinct weeks sorted descending are strictly newer first (NULL last). |
| Queries.NewestGroups | src/pr_metrics/queries.py:94-96 | At most `n` groups, strictly newest first. Each is the aggregate of its group, and a row's week is missing only when `n` newer weeks are shown. |
| Queries.GetWeeklyStats | src/pr_metrics/queries.py:81-98 | At most 6 weeks, strictly newest first. Each row is its week's aggregate, and any omitted week is older than all six shown. |
| Queries.AuthorWeekStatOf | src/pr_metrics/queries.py:104-110 | One author-week row: count ≥ 1, merged ≤ count, rate in [0,100]. |
| Queries.GetAuthorWeeklyStats | src/pr_metrics/queries.py:101-117 | At most 6 weeks of only that author's rows, strictly newest first, each the aggregate of the author's rows that week. |
| Queries.AuthorCountOf | src/pr_metrics/queries.py:123 | An author's count equals the size of their group. |
| Queries.AuthorCounts | src/pr_metrics/queries.py:123-126 | Distinct authors, count descending, each count exact, every author listed. |
| Queries.GetTopAuthors | src/pr_metrics/queries.py:120-129 | At most `limit` distinct authors, count descending, each count exact. An unlisted author is beaten or tied by all `limit` listed ones. |
| Queries.TopAuthorsCover | src/pr_metrics/queries.py:126-127 | LIMIT drops only authors with no more PRs than every listed one. |
| Queries.TopAuthorsSorted | src/pr_metrics/queries.py:126-127 | The limited list stays count descending. |
| Queries.MonthlyStatOf | src/pr_metrics/queries.py:135-140 | One month's row: 1 ≤ distinct authors ≤ count, merged ≤ count, size average. |
| Queries.StrictlyOldestFirst | src/pr_metrics/queries.py:143 | Distinct months sorted ascending are strictly older first. |
| Queries.MonthsAscending | src/pr_metrics/queries.py:143 | A sorted table of distinct months is strictly ascending. |
| Queries.GetMonthlyStats | src/pr_metrics/queries.py:132-145 | Every month, strictly ascending, no limit, each its month's aggregate. |
| Reports.ClassifyTrend | src/pr_metrics/reports.py:191-208 | The tag from the ordered rules, stated rule by rule as iff conditions (up, down, stable within the band, up-quality-down, down-quality-up, neutral otherwise): total, exactly one tag. |
| Reports.UpBeatsStable | src/pr_metrics/reports.py:197-202 | (8, 80) to (9, 82) is "up" although it lies in the stable band: rule 1 wins. |
| Reports.AuthorBandNarrower | src/pr_metrics/reports.py:276-287 | Two fewer PRs at the same rate is stable week to week but neutral for one author. |
| Reports.BandOnlyAffectsStable | src/pr_metrics/reports.py:276-287 | The per-author band of 1 only turns stable into neutral; every other tag agrees with the weekly rules. |
| Reports.SuccessColour | src/pr_metrics/reports.py:89 | Green iff ≥ 90, yellow iff in [70, 90), red iff < 70. |
| Reports.RateColour | src/pr_metrics/reports.py:211 | Green iff ≥ 90, yellow iff in [75, 90), red iff < 75. |
| Reports.TimeColour | src/pr_metrics/reports.py:214-215 | No colour (a dash) iff the average is NULL. Otherwise green below 24, yellow below 72, red from 72 on. |
| Reports.RateColoursMonotone | src/pr_metrics/reports.py:89 | A better rate never gets a worse colour. The weekly colour is never kinder than the contributor colour. |
| Reports.TimeColourMonotone | src/pr_metrics/reports.py:214 | A longer merge time never gets a better colour. |
| Reports.Truncate | src/pr_metrics/reports.py:92 | Python `int(x)`: truncation toward zero. |
| Reports.Repeat | src/pr_metrics/reports.py:93 | `c * n`: n copies of c, empty for n ≤ 0. |
| Reports.Bar | src/pr_metrics/reports.py:93 | A cell is full iff its index is below n; the length is the width when 0 ≤ n ≤ width. |
| Reports.SuccessBar | src/pr_metrics/reports.py:92-93 | Exactly 15 cells for a rate in [0, 100]. Cell i is full iff (i+1)·100 ≤ 15·rate. |
| Reports.SuccessBarOutOfRange | src/pr_metrics/reports.py:92-93 | A rate of 120 gives an 18-cell bar and −10 a 16-cell bar. |
| Reports.SizeBar | src/pr_metrics/reports.py:141-146 | 20 cells when count ≤ max. Cell i is full iff (i+1)·max ≤ 20·count. |
| Reports.WeeklyLinesSnoc | src/pr_metrics/reports.py:177-231 | Each iteration appends the next week's line, compared with the week iterated just before. |
| Reports.WeeklyPerformance | src/pr_metrics/reports.py:176-231 | One line per week: the first gets no tag, every later one the tag against the row above (stable band 2). Each line has the week, rate colour and time colour of its own row. |
| Reports.AuthorLinesSnoc | src/pr_metrics/reports.py:259-305 | Each iteration of the per-author loop appends the next line. |
| Reports.AuthorPerformance | src/pr_metrics/reports.py:259-305 | The per-author loop: as the weekly loop but with stable band 1. |
| Reports.WeeklyPreviousIsNewer | src/pr_metrics/reports.py:180 | Weekly rows come newest first, so each line is compared with a strictly newer week. |
| Reports.MergeRateOrZero | src/pr_metrics/reports.py:316 | 0 for an author with no PRs, else the ratio. |
| Reports.PanelOf | src/pr_metrics/reports.py:243-319 | An author gets a panel iff they have at least two weekly rows. The panel holds their trend lines, total PRs and overall rate. |
| Reports.PanelsShown | src/pr_metrics/reports.py:241-319 | Each panel belongs to a listed top author, shows at least two weeks, and totals exactly that author's rows. |
| Reports.PanelsComplete | src/pr_metrics/reports.py:241-247 | A listed author with at least two weeks gets a panel (only the `continue` skips). |
| Reports.IndividualPanels | src/pr_metrics/reports.py:236-319 | The loop over the top authors builds exactly the panels, at most one per author. |
| Reports.ContributorLines | src/pr_metrics/reports.py:87-102 | One line per author row with its success colour and success bar. The bar is 15 cells for an in-range rate. |
| Reports.RepoLines | src/pr_metrics/reports.py:117-119 | One line per repository with its success colour. |
| Reports.MaxCount | src/pr_metrics/reports.py:141 | The maximum bucket count: no bucket exceeds it, and some bucket attains it. |
| Reports.SizeLines | src/pr_metrics/reports.py:141-155 | One line per bucket with its count and a 20-cell bar scaled to the largest bucket. |
| Reports.DaysSpan | src/pr_metrics/reports.py:61 | `(max - min).days + 1` is at least 1 for an ordered range. |
| Reports.PerDay | src/pr_metrics/reports.py:62 | Throughput × days = total PRs. |
| Reports.HeadlineOf | src/pr_metrics/reports.py:35-62 | The header: the merge rate as a ratio, a span of at least one day, and throughput per day of that span. |
| Reports.HeadlineRateBounded | src/pr_metrics/reports.py:42 | The headline merge rate is a percentage. |
| Reports.TableLinesShape | src/pr_metrics/reports.py:72-157 | One contributor line per author row, one repository line per repository row, and one size line per non-empty bucket. Every size bar is 20 cells. |
| Reports.TerminalFrom | src/pr_metrics/reports.py:35-319 | "No PRs found" iff the summary has no PRs or no date. A `ValueError` iff there are PRs, the span is at least 7 days and a weekly or per-author line is for the NULL week (`NaT.strftime`, reports.py:181/218 and 263/295). Otherwise the dashboard shows the weekly table and the individual panels exactly when the span is at least 7 days. |
| Reports.TerminalReportOf | src/pr_metrics/reports.py:18-327 | "No data" iff there is no connection; otherwise the outcome built from the view's query results. |
| Reports.NoPrsFoundExactly | src/pr_metrics/reports.py:38-40 | The early return is taken exactly for an empty view or one without any creation time. |
| Reports.WeekNotADateExactly | src/pr_metrics/reports.py:180-295 | The terminal report raises exactly when there are PRs, the span is at least 7 days, and one of the six newest weeks, or one of the six newest weeks of a top author with at least two weeks, is the NULL week. |
| Reports.UndatedRowFailsDashboard | src/pr_metrics/reports.py:180-218 | A PR without a creation time in a view spanning at least 7 days with fewer than six dated weeks makes the terminal report raise. |
| Reports.UndatedLinesExactly | src/pr_metrics/reports.py:180-295 | The shown lines have a NULL week exactly when the shown weekly or per-author query rows do. |
| Reports.PanelLines | src/pr_metrics/reports.py:236-305 | Every panel shows exactly its author's weekly rows. |
| Reports.WeeklySectionLoop | src/pr_metrics/reports.py:160-233 | The weekly loop over the six newest weeks gives exactly the weekly section. |
| Reports.IndividualSectionLoop | src/pr_metrics/reports.py:236-319 | The loop over the top `top_n` authors gives exactly the individual section. |
| Reports.MarkdownFrom | src/pr_metrics/reports.py:335-393 | "No PRs" iff the summary has no PRs or no date. Otherwise: weekly activity iff there are weekly rows, and monthly trends iff the span is at least 30 days. |
| Reports.MarkdownReportOf | src/pr_metrics/reports.py:329-405 | "No data" iff there is no connection; otherwise the document from the view's query results. |
| Reports.MarkdownAlwaysWeekly | src/pr_metrics/reports.py:379-385 | Past the early return, the weekly section is always present. |
| Cli.Put | src/pr_metrics/cli.py:69 | `d[k] = v`: the entry is present, nothing foreign is added, other keys are kept, and a new key goes last. |
| Cli.PutUnique | src/pr_metrics/cli.py:69 | Assigning a key keeps the keys unique. |
| Cli.CollectPrs | src/pr_metrics/cli.py:63-69 | The fetch loop builds exactly `all_prs_data`. |
| Cli.AllPrsDataEntries | src/pr_metrics/cli.py:63-69 | Keys are unique, and every stored list is non-empty and was fetched for its repository. |
| Cli.AllPrsDataComplete | src/pr_metrics/cli.py:67-69 | Every repository with a non-empty PR list has an entry. |
| Cli.AllPrsDataOfDistinct | src/pr_metrics/cli.py:63-69 | With distinct repository names, the dict is the non-empty lists in fetch order. |
| Cli.QualifyingRepos | src/pr_metrics/cli.py:82-83 | Distinct repository names; a repo is listed iff it has rows and at least `min_prs` of them. |
| Cli.MinPrsFilter | src/pr_metrics/cli.py:81-92 | No qualifying repo iff every repo has fewer than `min_prs` rows. Otherwise the kept rows are exactly those of qualifying repos, and `filtered_count` = distinct repos − kept repos. |
| Cli.FilteredCountIsDropped | src/pr_metrics/cli.py:87 | `filtered_count` is the number of repositories with too few rows, so it is never negative. |
| Cli.WholeRepositories | src/pr_metrics/cli.py:86 | A repository is kept or dropped whole. |
| Cli.PerDays | src/pr_metrics/cli.py:102 | Throughput × days = merged PRs. |
| Cli.ResultsOf | src/pr_metrics/cli.py:95-107 | Totals, merged count and rate in [0,100]. Daily throughput is merged / days; a day count of 0 is ruled out by the caller. The merged average is shown iff some PR is merged. |
| Cli.CollectAndSave | src/pr_metrics/cli.py:72-126 | No rows, or no qualifying repository, stops before any write. With qualifying rows and `--days 0` it stops too (`DaysZero`, exactly then): the throughput division raises before the writes. Otherwise the store receives all rows and the write counts partitions under the sanitized org. The CSV gets the filtered rows, under `CsvPath` = `output/pr_data_<sanitized>_<ts>.csv`, and the results are computed from them. |
| Cli.CountedPartitionsMissWrittenOnes | src/pr_metrics/cli.py:119-120 | When sanitizing changes the org, the counted partition keys and the written ones are disjoint (the rows carry the unsanitized org), yet the printed number of partitions equals the number written. |
| GitHub.RunGhCommand | src/pr_metrics/github.py:9-16 | A failing command or blank output gives `[]`, where blank means every character is one that `str.strip()` removes (the full `str.isspace()` set, not only ASCII). Non-blank output that is not JSON raises. Otherwise the parsed list. |
| GitHub.WhitespaceOutputIsEmpty | src/pr_metrics/github.py:13 | Output of separator or non-ASCII whitespace only (U+001C, U+00A0, U+2028, U+3000, U+0085) gives `[]`, not a JSON error. |
| GitHub.SortedNames | src/pr_metrics/github.py:43 | `sorted(set)`: strictly ascending, exactly the given names. |
| GitHub.CollectRepoNames | src/pr_metrics/github.py:37-43 | Exactly the distinct non-empty repository names of the hits, strictly ascending. |
| GitHub.ActiveReposFromSearch | src/pr_metrics/github.py:25-50 | An empty or raising search falls back to the repository list. Otherwise: the sorted distinct repository names of the hits. |
| GitHub.FilterSince | src/pr_metrics/github.py:60-66 | The loop keeps exactly the PRs created on or after `since`, in order. |
| GitHub.GetRepoPrs | src/pr_metrics/github.py:53-68 | Raises iff the listing raises; otherwise the date-filtered listing. |
| GitHub.FilterSinceExactly | src/pr_metrics/github.py:61-66 | A PR is kept iff it is listed, has a non-empty `createdAt`, and its first 10 characters are ≥ `since` as strings. |
| GitHub.UndatedDropped | src/pr_metrics/github.py:63 | A PR without a creation time is never kept. |
| DataManager.KeySetMember | data_manager.py:50-51 | The key set is exactly the `(repo, pr_number)` of some row. |
| DataManager.KeepLast | data_manager.py:50-53 | `drop_duplicates(keep='last')` keeps only input rows and never grows. |
| DataManager.KeepLastKeys | data_manager.py:50-53 | Every key of the input survives. |
| DataManager.KeepLastUnique | data_manager.py:50-53 | The kept keys are unique. |
| DataManager.KeepLastKeepsLast | data_manager.py:50-53 | The last occurrence of each key is kept. |
| DataManager.KeepLastOnlyLast | data_manager.py:50-53 | Every kept row is the last occurrence of its key. |
| DataManager.KeepLastOrder | data_manager.py:50-53 | Kept rows keep their relative input order. |
| DataManager.DropDuplicatesKeepLast | data_manager.py:49-53 | The de-duplication loop computes exactly the keep-last rows. |
| DataManager.NewRowWins | data_manager.py:102-109 | On a key collision, the new row (the last of its key among the new rows) survives the merge. |
| DataManager.LastInSuffix | data_manager.py:102-109 | A last occurrence within the new part is also its last among the new rows. |
| DataManager.LastNotInPrefix | data_manager.py:102-109 | A key that also occurs among the new rows is never last in the existing part. |
| DataManager.ExistingRowLoses | data_manager.py:102-109 | A surviving row whose key is among the new rows is that new row. |
| DataManager.ReadAll | data_manager.py:38-45 | Reading the snapshots fails iff some file is unreadable; otherwise the concatenated rows. |
| DataManager.SortedSnapshots | data_manager.py:30 | `sorted(glob("*.parquet"))`: exactly the parquet files, ascending by name. |
| DataManager.MergeAll | data_manager.py:28-59 | None without snapshots. A read error iff some snapshot is unreadable. Otherwise: keep-last over all rows in name order, with the combined count and duplicates removed = combined − deduped. |
| DataManager.SliceStop | data_manager.py:19 | Python's normalisation of a slice stop, negative stops included. |
| DataManager.FilesToRemove | data_manager.py:14-19 | The files removed are an oldest-first prefix of the name-sorted snapshots. |
| DataManager.NothingToPrune | data_manager.py:15-17 | Nothing is removed when there are at most `keep` files, or when `keep` is 0 (`files[:-0]` is empty). |
| DataManager.PruneKeepsNewest | data_manager.py:19 | For 0 < keep < count, exactly count − keep files are removed, all named no later than every survivor. |
| DataManager.PruneNegativeKeep | data_manager.py:19 | A negative `keep` removes the first −keep files. |
| DataManager.Without | data_manager.py:24 | `unlink`: exactly the other files remain, names stay unique. |
| DataManager.WithFile | data_manager.py:90 | `to_parquet(name)`: that name now holds the rows, other files are kept, names stay unique. |
| DataManager.ReadNamed | data_manager.py:97 | Missing iff no file has the name; otherwise the read of that file. |
| DataManager.KeySetAppend | data_manager.py:102 | The keys of a concatenation are the union of the keys. |
| DataManager.KeepLastCount | data_manager.py:106-111 | The de-duplicated length is the number of distinct keys. |
| DataManager.NetNewAsWrittenIsFetched | data_manager.py:111-112 | The source's "net new records" always equals the number of fetched rows. |
| DataManager.NetNewAsWrittenCountsRefetch | data_manager.py:112 | Re-fetching one stored PR adds no key, yet the source reports 1 new record. |
| DataManager.NetNewRecords | data_manager.py:112 | Net new records = the keys fetched that were not stored before. |
| DataManager.ExistingChoice | data_manager.py:83-92 | The caller's file if given. Else none iff there is no snapshot. Else a snapshot with the greatest name. |
| DataManager.OutputDir.constructor | data_manager.py:10 | The output directory holds the given uniquely named files. |
| DataManager.OutputDir.WriteParquet | data_manager.py:90 | Writing a file replaces or adds just that name. |
| DataManager.OutputDir.CleanupOldFiles | data_manager.py:12-26 | Removes exactly `files[:-keep]` of the name-sorted snapshots, reports their names, and keeps every other file. |
| DataManager.OutputDir.MergeAndDedupeAll | data_manager.py:28-59 | The merge of all snapshots as `MergeAll` gives it; nothing changes. |
| DataManager.OutputDir.CreateConsolidatedFile | data_manager.py:61-73 | Nothing without snapshots, a failure on an unreadable one. Otherwise the de-duplicated rows are written to `ConsolidatedName` = `pr_data_consolidated_<ts>.parquet`. |
| DataManager.OutputDir.IncrementalMergeStrategy | data_manager.py:75-124 | Without any existing file, the new rows are written unchanged as the first incremental file. Otherwise the chosen file is read, and existing+new is keep-last merged and written with its counts; an unreadable existing file changes nothing. |
| DataManager.OutputDir.MergeIntoSnapshot | data_manager.py:97-124 | The merge step: the keep-last concatenation is written as `IncrementalName` = `pr_data_incremental_<ts>.parquet`, with existing, fetched, duplicates-removed, net-new and final counts. |
| DataManager.ReadSnapshots | data_manager.py:38-45 | The read loop computes `ReadAll`, stopping at the first unreadable file. |
| DataManager.MergeRows | data_manager.py:102-112 | The merged rows are the keep-last concatenation. Duplicates removed = combined − deduped, and net new = the newly seen keys. |
| DataManager.UnlinkAll | data_manager.py:22-24 | The unlink loop removes exactly the doomed names and reports them in order. |
| DataManager.Unlinked | data_manager.py:24 | One more unlink removes one more name. |
| DataManager.ReadAllStep | data_manager.py:39-42 | Reading one more file extends the rows or fails on it. |
| DataManager.ReadErrorPersists | data_manager.py:40 | Once a read fails, later files do not change the outcome. |
| LegacyScript.FirstReviewTime | pr_metrics.py:80-85 | Present iff a creation time exists and the first listed review has a submission time. It equals the hours from creation to that review. |
| LegacyScript.FirstReviewIgnoresLaterReviews | pr_metrics.py:83 | Only `reviews[0]` matters: later reviews never change the first-review time. |
| LegacyScript.LegacyNormalizePr | pr_metrics.py:68-104 | A script row has no org column, commits and reviews as list lengths, the first-review time, and a consistent state. |
| LegacyScript.NormalizersAgree | pr_metrics.py:71-103 | The two normalizers agree on author, timestamps, state, size, time to merge, draft flag and labels. |
| LegacyScript.LegacyProcessPrs | pr_metrics.py:64-106 | One row per input PR in iteration order, without org, with a consistent state. |
| LegacyScript.LegacyLoadLatest | pr_metrics.py:108-111 | None iff there is no `*.parquet`; otherwise the contents of the greatest-named one. |
| LegacyScript.HeadlineRate | pr_metrics.py:125-127 | 0 for no PRs, else the ratio, always in [0, 100]. |
| LegacyScript.HeadlineOf | pr_metrics.py:120-147 | Totals and rate; throughput per day of the span, the same `Reports.PerDay` the package report uses. The merged average is shown iff some PR is merged and is the mean over merged rows. The span is whole days + 1 (≥ 1). |
| LegacyScript.LegacyReportOf | pr_metrics.py:113-147 | Nothing for no frame or an empty frame. An error when no row has a creation time. Otherwise the headline over all rows and the size table. |
| LegacyScript.ReportedRateIsRatio | pr_metrics.py:127 | A reported frame is non-empty, so its rate is the ratio. |
| LegacyScript.LegacyBucket | pr_metrics.py:225-226 | Right-closed bins (0,50], (50,200], (200,∞); a size ≤ 0 is in none. |
| LegacyScript.BucketsAgreeOnPositiveSizes | pr_metrics.py:225-226 | For positive sizes the script's bins are the package's buckets; size 0 is Small in the package but dropped by the script. |
| LegacyScript.BinStat | pr_metrics.py:227-230 | A bin's row: `count` of numbered PRs; the merge-time mean is NULL iff no merge time is present. |
| LegacyScript.BinsOf | pr_metrics.py:225-227 | Binning puts each row in its own size bucket. |
| LegacyScript.Observed | pr_metrics.py:227 | `observed=True`: a bin has a row iff it is non-empty. |
| LegacyScript.BinTableIndex | pr_metrics.py:227-232 | The table is the observed Small, Medium, Large rows concatenated. |
| LegacyScript.BinTableOrdered | pr_metrics.py:227-232 | Bins appear in Small, Medium, Large order. |
| LegacyScript.BinTableRows | pr_metrics.py:227-232 | Each table row is its bin's statistics. |
| LegacyScript.BinTableObserved | pr_metrics.py:227-232 | A bin has a row iff it is non-empty. |
| LegacyScript.LegacySizeTable | pr_metrics.py:224-232 | Strictly ordered bins. Each row is its bin's statistics. A bin is listed iff some row falls in it. |
| LegacyScript.ObservedCount | pr_metrics.py:228 | With numbered PRs, a bin's count is its number of rows. |
| LegacyScript.SizeTableCountsPositiveSizes | pr_metrics.py:225-228 | With numbered PRs, the table counts exactly the PRs of positive size: size-0 PRs are dropped. |
| LegacyScript.BinsPartition | pr_metrics.py:225-226 | The three bins hold exactly the positive-size rows. |
| LegacyScript.LowerName | pr_metrics.py:304 | `ORG.lower()` character by character. |
| LegacyScript.LowerWithoutSeparators | pr_metrics.py:304 | For a name without spaces or underscores, lower-casing equals sanitizing. |
| LegacyScript.LegacyNameMatchesPackagePattern | pr_metrics.py:304 | A script snapshot of such an org matches the package's org pattern, so the package finds the script's files. |
| LegacyScript.ScriptOrgHasNoSeparators | pr_metrics.py:14 | The script's org constant has no space or underscore. |
| LegacyScript.LegacyCollectAndSave | pr_metrics.py:264-308 | Nothing fetched, or no qualifying repository, saves nothing; nor does `--days 0` with qualifying rows (`DaysZero`, exactly then), whose throughput division raises first. Otherwise the filtered rows are written as `LegacyParquetName` = `pr_data_<org lower>_<ts>.parquet` in the output directory, the CSV path is `LegacyCsvPath` = `output/pr_data_<org lower>_<ts>.csv`, and the dropped repos are counted. |

## Left out

- The gh CLI, subprocess, environment variables and the clock. Their results
  are parameters: what the CLI printed and its JSON parse, the environment
  value, the cutoff date and the timestamp string.
- DuckDB and pandas internals: parsing, globbing over a real file system,
  `read_parquet`, `union_by_name`, Hive type inference. The engine's
  partitioned `COPY ... OVERWRITE_OR_IGNORE` is given as the function
  `Storage.Overwrite` (each written partition is replaced), and the scan
  result is an input value.
- Float details: `ROUND(..., 1)`, float division, NaN comparisons and
  number formatting. Rates and means are exact reals.
- Rendering: Rich panels, tables, styles, emoji, tabulate and markdown
  printing, headers, the "generated at" line and the tips footer. The model
  stops at the lines, colours, bars and sections the report decides on.
- SQL built by string interpolation (`storage.py:104-112`,
  `queries.py:112`, `reports.py:312`): a quote in an org, repo or author
  breaks or changes the query. The model treats the values as data, not as
  SQL text.
- `str.lower()` beyond ASCII, and timezone handling of timestamps.
- JSON null values inside objects (for example `"repository": null`, which
  raises in the source and then falls back). An optional field is missing or
  a value.
- Path normalisation beyond `Path("") / x`. Also the `'unknown'` default of
  `pr.get('repo', ...)`: rows always have a repo.
- NULL `org`, `repo` or date partitions in the store. Undated rows are stored
  nowhere.
- Reports.TerminalReportOf: the `WeekNotADate` outcome is the `ValueError`
  of `NaT.strftime` (reports.py:181/218, 263/295). `cli.py:42-49` only has
  `try/finally` around the report, so the error ends the command. The
  console output printed before the error is not part of that outcome: the
  headline, the tables, and the weekly table when the failing line is in a
  panel. GitHub always returns `createdAt`, so only rows from other writers
  of the view can be undated. The markdown report formats its weeks
  column-wise and does not fail this way.
- Cli.CollectAndSave, Storage.HiveStore.WriteToHive, Storage.Overwrite: the
  save path as written cannot run, and the model follows the intended
  wiring. Three mismatches stop it. `process_prs_to_dataframe` returns a
  DataFrame (processor.py:47), so `if not pr_rows` (cli.py:73) raises
  "truth value is ambiguous". `write_to_hive` expects a list of dicts
  (storage.py:38, storage.py:63-67) but is passed that DataFrame
  (cli.py:120). `PARTITION_BY (org, repo, year, month)` (storage.py:56)
  names `year` and `month` columns that the rows never carry
  (processor.py:30-45). The model passes a row list and derives year and
  month from `created_at`.
- `cli.py:35` calls `load_latest_data` with a `days_back` keyword that the
  function does not accept, and expects a connection back. This wiring is
  not modelled; each function is modelled against its own inputs.
- The `source_file` column added and dropped in `merge_and_dedupe_all`: it
  never reaches the result.
- Connection closing, and printing of progress lines.
- An exception from `get_repo_prs` inside the CLI fetch loop: it stops the
  program. `Cli.CollectAndSave` starts from the fetched lists.
- `get_org_repos` and both `since_date` computations: they only build a
  command line.
- The older script's author, weekly, monthly and repository sections of its
  markdown report. They print pandas aggregates that mirror the package
  queries (`Queries`). Only the headline and the size table, where the two
  differ, are modelled.
- The older script's `get_repo_prs` and its search. Its listing differs
  from the package one (pr_metrics.py:61 against github.py:57) in three
  ways. It also requests the `commits` and `reviews` fields. It passes no
  `--limit`, so it gets the CLI's default page size rather than 200. It
  delegates the date filter to the platform's `--search` instead of
  filtering `createdAt[:10]` afterwards.
- The older script's CSV file: only its name is modelled. It is not a file of
  `OutputDir`, whose files are parquet snapshots.
- A NaT first-review time in the older script: a review without a
  submission time gives no first-review time.
- Queries.GetTopAuthors: a negative `LIMIT` is not modelled (`limit` is a
  `nat`).
- DataManager.OutputDir.IncrementalMergeStrategy: as written, the source
  reports a net-new count equal to `len(new_df)`. The model reports the
  corrected count (see Findings).
- DataManager.OutputDir.IncrementalMergeStrategy: `existing_file` is a name
  in the output directory rather than an arbitrary path.

## Findings

| source | as written | input that shows it | evidently intended | confidence | as-written member | corrected member |
|---|---|---|---|---|---|---|
| data_manager.py:111-112 | `new_records = len(deduped) - len(existing) + duplicates_removed`, which always equals `len(new_df)` | one stored PR fetched again: reported as 1 net new record, although no new key was added | the number of distinct `(repo, pr_number)` keys among the new rows that were not stored before | not executed | DataManager.NetNewAsWrittenCountsRefetch | DataManager.NetNewRecords |
