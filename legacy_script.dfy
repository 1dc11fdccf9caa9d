/** The older single-file collector (pr_metrics.py): its own normalizer,
    which also counts commits and reviews and times the first review, its
    newest-file loader, the headline and size table of its markdown report,
    and the save step of its collection run. */
module LegacyScript {
  import opened Wrappers
  import opened Time
  import opened Strings
  import opened Ordering
  import opened Records
  import opened Files
  import opened Queries
  import opened Utils
  import opened Processor
  import opened DataManager
  import opened Cli
  import Reports

  /** The organization the script is fixed to. */
  const Org: string := "Eve-World-Platform"

  // ---------------------------------------------------------------------
  // Normalizer

  /** Hours from creation to the first listed review's submission, when the
      PR has a creation time and at least one review whose time is given
      (an empty `submittedAt` text stands for NaT, taken as no value). */
  function FirstReviewTime(createdAt: Option<Instant>, reviews: seq<RawReview>): (h: Option<real>)
    ensures h.Some? <==> (createdAt.Some? && reviews != [] && ParsedStamp(reviews[0].submittedAt).Some?)
    ensures h.Some? ==> h.value == HoursBetween(createdAt.value, ParsedStamp(reviews[0].submittedAt).value)
  {
    if reviews != [] && createdAt.Some? then
      var first := ParsedStamp(reviews[0].submittedAt);
      if first.Some? then Some(HoursBetween(createdAt.value, first.value)) else None
    else None
  }

  /** Only the first review in list order matters, not the earliest one. */
  lemma FirstReviewIgnoresLaterReviews(createdAt: Option<Instant>, first: RawReview, a: seq<RawReview>, b: seq<RawReview>)
    ensures FirstReviewTime(createdAt, [first] + a) == FirstReviewTime(createdAt, [first] + b)
  {
    assert ([first] + a)[0] == first && ([first] + b)[0] == first;
  }

  /** One row of the script's `process_prs_to_dataframe`: no org column. */
  function LegacyNormalizePr(repo: string, pr: RawPr): (r: Row)
    ensures r.org.None? && r.repo == repo && r.prNumber == pr.number
    ensures r.commits == pr.commitCount && r.reviews == |pr.reviews|
    ensures r.timeToFirstReviewHours == FirstReviewTime(ParsedStamp(pr.createdAt), pr.reviews)
    ensures StateConsistent(r)
  {
    var createdAt := ParsedStamp(pr.createdAt);
    var mergedAt := ParsedStamp(pr.mergedAt);
    var closedAt := ParsedStamp(pr.closedAt);
    Row(None, repo, pr.number, AuthorLogin(pr.author), createdAt, mergedAt,
        DeriveState(mergedAt, closedAt), PrSize(pr), pr.commitCount, |pr.reviews|,
        TimeToMerge(createdAt, mergedAt), FirstReviewTime(createdAt, pr.reviews),
        pr.isDraft.GetOr(false), LabelText(pr.labels))
  }

  /** The two normalizers agree on every column the package keeps, except
      the org and the review-derived ones. */
  lemma NormalizersAgree(org: string, repo: string, pr: RawPr)
    ensures (var a := LegacyNormalizePr(repo, pr); var b := NormalizePr(org, repo, pr);
      && a.repo == b.repo && a.prNumber == b.prNumber && a.author == b.author
      && a.createdAt == b.createdAt && a.mergedAt == b.mergedAt && a.state == b.state
      && a.prSize == b.prSize && a.timeToMergeHours == b.timeToMergeHours
      && a.isDraft == b.isDraft && a.labels == b.labels)
  {
  }

  function LegacyNormalizer(): (string, RawPr) -> Row
  {
    (repo, pr) => LegacyNormalizePr(repo, pr)
  }

  /** `process_prs_to_dataframe(all_prs_data)` of the script. */
  method LegacyProcessPrs(allPrsData: seq<RepoPrs>) returns (rows: seq<Row>)
    ensures rows == Flatten(allPrsData, LegacyNormalizer())
    ensures |rows| == TotalPrs(allPrsData)
    ensures forall r :: r in rows ==> r.org.None? && StateConsistent(r)
  {
    rows := FlattenRows(allPrsData, LegacyNormalizer());
    FlattenLength(allPrsData, LegacyNormalizer());
    forall r | r in rows
      ensures r.org.None? && StateConsistent(r)
    {
      FlattenOrigin(allPrsData, LegacyNormalizer(), r);
    }
  }

  // ---------------------------------------------------------------------
  // Loading

  /** `*.parquet` in the output directory, any name. */
  const LegacySnapshots: Pattern := Pattern("", ".parquet")

  /** `load_latest_data()`: the newest `*.parquet` by name, or None. */
  function LegacyLoadLatest(dir: seq<DataFile>): (r: ReadResult)
    ensures r.Missing? <==> forall f :: f in dir ==> !Matches(f.name, LegacySnapshots)
    ensures !r.Missing? ==> exists f :: (f in dir && Matches(f.name, LegacySnapshots) && r == ReadFile(f)
      && forall g :: g in dir && Matches(g.name, LegacySnapshots) ==> LexLeq(g.name, f.name))
  {
    ReadLatest(dir, LegacySnapshots)
  }

  // ---------------------------------------------------------------------
  // Report: headline

  datatype Headline = Headline(
    totalPrs: nat,
    mergedPrs: nat,
    mergeRate: real,
    avgMergeTime: Option<Option<real>>,
    daysSpan: int,
    dailyThroughput: real)

  /** What `generate_markdown_report(df)` gets to: nothing to report for no
      frame or an empty one, a raised error when no row has a creation time
      (the date range cannot be formatted), else the headline. */
  datatype LegacyReport = NoDataAvailable | DateRangeMissing | Reported(headline: Headline, sizes: seq<LegacySizeStat>)

  /** `merged / total * 100 if total > 0 else 0`. */
  function HeadlineRate(merged: nat, total: nat): (r: real)
    requires merged <= total
    ensures total == 0 ==> r == 0.0
    ensures total > 0 ==> r == Rate(merged, total)
    ensures 0.0 <= r <= 100.0
  {
    if total > 0 then Rate(merged, total) else 0.0
  }

  /** The headline of a frame whose first and last creation times are known. */
  function HeadlineOf(df: seq<Row>, first: Instant, last: Instant): (h: Headline)
    requires NotAfter(first, last)
    ensures h.totalPrs == |df| && h.mergedPrs == MergedCount(df)
    ensures 0.0 <= h.mergeRate <= 100.0
    ensures h.avgMergeTime.Some? <==> MergedCount(df) > 0
    ensures h.avgMergeTime.Some? ==> h.avgMergeTime.value == AvgMergeTime(df)
    ensures h.daysSpan >= 1 && h.daysSpan == WholeDaysBetween(first, last) + 1
    ensures h.dailyThroughput == Reports.PerDay(|df|, h.daysSpan)
  {
    var merged := MergedCount(df);
    var span := WholeDaysBetween(first, last) + 1;
    Headline(|df|, merged, HeadlineRate(merged, |df|),
             if merged > 0 then Some(AvgMergeTime(df)) else None,
             span, Reports.PerDay(|df|, span))
  }

  function LegacyReportOf(df: Option<seq<Row>>): (r: LegacyReport)
    ensures r.NoDataAvailable? <==> df.None? || df.value == []
    ensures r.DateRangeMissing? <==> (df.Some? && df.value != [] && forall x :: x in df.value ==> x.createdAt.None?)
    ensures r.Reported? ==> (r.headline.totalPrs == |df.value| && r.headline.totalPrs > 0
      && r.headline.daysSpan >= 1 && r.sizes == LegacySizeTable(df.value))
  {
    if df.None? || df.value == [] then NoDataAvailable
    else
      var first := EarliestCreated(df.value);
      var last := LatestCreated(df.value);
      if first.None? then DateRangeMissing
      else
        assert NotAfter(first.value, last.value) by {
          var x :| x in df.value && x.createdAt == last;
        }
        Reported(HeadlineOf(df.value, first.value, last.value), LegacySizeTable(df.value))
  }

  /** The frame always has a row when reported, so the `else 0` of the merge
      rate is never taken there. */
  lemma ReportedRateIsRatio(df: Option<seq<Row>>)
    requires LegacyReportOf(df).Reported?
    ensures LegacyReportOf(df).headline.mergeRate
         == Rate(LegacyReportOf(df).headline.mergedPrs, LegacyReportOf(df).headline.totalPrs)
  {
  }

  // ---------------------------------------------------------------------
  // Report: size table

  /** `pd.cut(pr_size, bins=[0, 50, 200, inf])`: right-closed bins, so a
      size of 0 or less falls in none. */
  function LegacyBucket(size: int): (c: Option<SizeCategory>)
    ensures c.None? <==> size <= 0
    ensures c == Some(Small) <==> 0 < size <= 50
    ensures c == Some(Medium) <==> 50 < size <= 200
    ensures c == Some(Large) <==> 200 < size
  {
    if size <= 0 then None
    else if size <= 50 then Some(Small)
    else if size <= 200 then Some(Medium)
    else Some(Large)
  }

  /** The script's bins and the queries' CASE agree on every positive size;
      the queries put every other size in Small. */
  lemma BucketsAgreeOnPositiveSizes(size: int)
    ensures size > 0 ==> LegacyBucket(size) == Some(SizeCategoryOf(size))
    ensures size <= 0 ==> LegacyBucket(size).None? && SizeCategoryOf(size) == Small
  {
  }

  function BucketOf(r: Row): Option<SizeCategory> { LegacyBucket(r.prSize) }

  function HasNumber(r: Row): bool { r.prNumber.Some? }

  function MergeHours(rows: seq<Row>): seq<real>
  {
    if rows == [] then []
    else (if rows[0].timeToMergeHours.Some? then [rows[0].timeToMergeHours.value] else []) + MergeHours(rows[1..])
  }

  /** `Count` is the `pr_number: count` aggregate (non-null numbers);
      `Avg Merge Time` is the mean of the non-null merge times. */
  datatype LegacySizeStat = LegacySizeStat(category: SizeCategory, count: nat, avgMergeTime: Option<real>)

  /** The table row of one bin: its category and its rows. */
  function BinStat(c: SizeCategory, bin: seq<Row>): (st: LegacySizeStat)
    ensures st.category == c && st.count == |Filter(bin, HasNumber)|
    ensures st.avgMergeTime.None? <==> MergeHours(bin) == []
  {
    LegacySizeStat(c, |Filter(bin, HasNumber)|, Avg(MergeHours(bin)))
  }

  /** The rows of bin `c`. */
  function BinRows(rows: seq<Row>, c: SizeCategory): seq<Row>
  {
    Group(rows, BucketOf, Some(c))
  }

  /** The rows of the three bins. */
  datatype Bins = Bins(small: seq<Row>, medium: seq<Row>, large: seq<Row>)

  function BinIn(b: Bins, c: SizeCategory): seq<Row>
  {
    match c
    case Small => b.small
    case Medium => b.medium
    case Large => b.large
  }

  function BinsOf(rows: seq<Row>): (b: Bins)
    ensures forall c :: BinIn(b, c) == BinRows(rows, c)
  {
    Bins(BinRows(rows, Small), BinRows(rows, Medium), BinRows(rows, Large))
  }

  /** A bin's table row, present only when the bin has a row (`observed=True`). */
  function Observed(c: SizeCategory, bin: seq<Row>): (t: seq<LegacySizeStat>)
    ensures |t| <= 1
    ensures t != [] <==> bin != []
    ensures forall i :: 0 <= i < |t| ==> t[i] == BinStat(c, bin)
  {
    if bin == [] then [] else [BinStat(c, bin)]
  }

  /** The table over given bins: one row per non-empty bin, Small, Medium,
      Large in that order. */
  function BinTable(b: Bins): seq<LegacySizeStat>
  {
    Observed(Small, b.small) + Observed(Medium, b.medium) + Observed(Large, b.large)
  }

  /** Where row `i` of the table comes from. */
  lemma BinTableIndex(b: Bins, i: int)
    requires 0 <= i < |BinTable(b)|
    ensures var s, m := Observed(Small, b.small), Observed(Medium, b.medium);
      || (i < |s| && BinTable(b)[i] == BinStat(Small, b.small))
      || (|s| <= i < |s| + |m| && BinTable(b)[i] == BinStat(Medium, b.medium))
      || (|s| + |m| <= i && BinTable(b)[i] == BinStat(Large, b.large))
  {
  }

  lemma BinTableOrdered(b: Bins)
    ensures var t := BinTable(b);
      forall i, j :: 0 <= i < j < |t| ==> CategoryRank(t[i].category) < CategoryRank(t[j].category)
  {
    var t := BinTable(b);
    forall i, j | 0 <= i < j < |t|
      ensures CategoryRank(t[i].category) < CategoryRank(t[j].category)
    {
      BinTableIndex(b, i);
      BinTableIndex(b, j);
    }
  }

  lemma BinTableRows(b: Bins)
    ensures var t := BinTable(b);
      forall i :: 0 <= i < |t| ==> t[i] == BinStat(t[i].category, BinIn(b, t[i].category))
  {
    var t := BinTable(b);
    forall i | 0 <= i < |t|
      ensures t[i] == BinStat(t[i].category, BinIn(b, t[i].category))
    {
      BinTableIndex(b, i);
    }
  }

  lemma BinTableObserved(b: Bins, c: SizeCategory)
    ensures var t := BinTable(b);
      (exists i :: 0 <= i < |t| && t[i].category == c) <==> BinIn(b, c) != []
  {
    var t := BinTable(b);
    var s, m := Observed(Small, b.small), Observed(Medium, b.medium);
    if BinIn(b, c) != [] {
      if c == Small {
        assert t[0].category == c;
      } else if c == Medium {
        assert t[|s|].category == c;
      } else {
        assert t[|s| + |m|].category == c;
      }
    } else {
      forall i | 0 <= i < |t|
        ensures t[i].category != c
      {
        BinTableIndex(b, i);
      }
    }
  }

  /** The size table: one row per observed bin, Small, Medium, Large in that
      order, each row the statistics of that bin's rows. */
  function LegacySizeTable(rows: seq<Row>): (t: seq<LegacySizeStat>)
    ensures forall i, j :: 0 <= i < j < |t| ==> CategoryRank(t[i].category) < CategoryRank(t[j].category)
    ensures forall i :: 0 <= i < |t| ==> t[i] == BinStat(t[i].category, BinRows(rows, t[i].category))
    ensures forall c :: (exists i :: 0 <= i < |t| && t[i].category == c) <==> BinRows(rows, c) != []
  {
    var b := BinsOf(rows);
    BinTableOrdered(b);
    BinTableRows(b);
    forall c
      ensures (exists i :: 0 <= i < |BinTable(b)| && BinTable(b)[i].category == c) <==> BinRows(rows, c) != []
    {
      BinTableObserved(b, c);
    }
    BinTable(b)
  }

  function BinnedCount(t: seq<LegacySizeStat>): nat
  {
    if t == [] then 0 else t[0].count + BinnedCount(t[1..])
  }

  lemma {:induction false} BinnedCountAppend(a: seq<LegacySizeStat>, b: seq<LegacySizeStat>)
    ensures BinnedCount(a + b) == BinnedCount(a) + BinnedCount(b)
  {
    if a == [] {
      assert a + b == b;
    } else {
      assert (a + b)[1..] == a[1..] + b;
      BinnedCountAppend(a[1..], b);
    }
  }

  /** With every PR numbered, a bin's row counts all of the bin's rows. */
  lemma ObservedCount(c: SizeCategory, bin: seq<Row>)
    requires forall r :: r in bin ==> r.prNumber.Some?
    ensures BinnedCount(Observed(c, bin)) == |bin|
  {
    FilterAll(bin, HasNumber);
    var t := Observed(c, bin);
    if t != [] {
      assert t[1..] == [];
    }
  }

  /** With every PR numbered, the table counts exactly the PRs of positive
      size: sizes of 0 or less are dropped. */
  lemma SizeTableCountsPositiveSizes(rows: seq<Row>)
    requires forall r :: r in rows ==> r.prNumber.Some?
    ensures BinnedCount(LegacySizeTable(rows)) == |Filter(rows, (r: Row) => r.prSize > 0)|
  {
    var s := Observed(Small, BinRows(rows, Small));
    var m := Observed(Medium, BinRows(rows, Medium));
    var l := Observed(Large, BinRows(rows, Large));
    BinnedCountAppend(s + m, l);
    BinnedCountAppend(s, m);
    ObservedCount(Small, BinRows(rows, Small));
    ObservedCount(Medium, BinRows(rows, Medium));
    ObservedCount(Large, BinRows(rows, Large));
    BinsPartition(rows);
  }

  /** The three bins split the rows of positive size. */
  lemma {:induction false} BinsPartition(rows: seq<Row>)
    ensures |Group(rows, BucketOf, Some(Small))| + |Group(rows, BucketOf, Some(Medium))| + |Group(rows, BucketOf, Some(Large))|
         == |Filter(rows, (r: Row) => r.prSize > 0)|
  {
    if rows != [] {
      BinsPartition(rows[1..]);
    }
  }

  // ---------------------------------------------------------------------
  // Collection run: what is saved

  /** `ORG.lower()` (ASCII letters). */
  function LowerName(s: string): (r: string)
    ensures |r| == |s| && forall i :: 0 <= i < |s| ==> r[i] == Lower(s[i])
  {
    seq(|s|, i requires 0 <= i < |s| => Lower(s[i]))
  }

  /** `pr_data_{org.lower()}_{timestamp}.parquet` in the output directory. */
  function LegacyParquetName(org: string, timestamp: string): string
  {
    "pr_data_" + LowerName(org) + "_" + timestamp + ".parquet"
  }

  function LegacyCsvPath(org: string, timestamp: string): string
  {
    "output/pr_data_" + LowerName(org) + "_" + timestamp + ".csv"
  }

  /** A name built as `prefix + middle + suffix` matches `prefix*suffix`. */
  lemma MatchesConcat(prefix: string, middle: string, suffix: string)
    ensures Matches(prefix + middle + suffix, Pattern(prefix, suffix))
  {
    var name := prefix + middle + suffix;
    assert name[..|prefix|] == prefix;
    assert name[|name| - |suffix|..] == suffix;
  }

  /** Without spaces or underscores, lower-casing is sanitizing... */
  lemma LowerWithoutSeparators(s: string)
    requires ' ' !in s && '_' !in s
    ensures LowerName(s) == SanitizeOrgName(s)
  {
    forall i | 0 <= i < |s|
      ensures LowerName(s)[i] == SanitizeOrgName(s)[i]
    {
      assert s[i] in s;
    }
  }

  /** ...so for such an org, and the script's own is one, the package
      loader's pattern finds the script's snapshots. */
  lemma LegacyNameMatchesPackagePattern(org: string, timestamp: string)
    requires ' ' !in org && '_' !in org && org != ""
    ensures Matches(LegacyParquetName(org, timestamp), LatestPattern(Some(org)))
  {
    LowerWithoutSeparators(org);
    MatchesConcat("pr_data_" + SanitizeOrgName(org) + "_", timestamp, ".parquet");
    assert LegacyParquetName(org, timestamp) == "pr_data_" + SanitizeOrgName(org) + "_" + timestamp + ".parquet";
  }

  lemma ScriptOrgHasNoSeparators()
    ensures ' ' !in Org && '_' !in Org && Org != ""
  {
  }

  datatype LegacyOutcome =
    | NothingFetched
    | NoReposWithEnoughPrs
    | DaysZero
    | SavedFiles(parquetPath: string, csvPath: string, rows: seq<Row>, filteredCount: int)

  /** The save half of the script's `main`: the rows of the repositories
      with at least `min_prs` PRs are saved both as a parquet snapshot in the
      output directory and as CSV; nothing is saved when no row or no
      repository qualifies, nor for `--days 0`, whose throughput division
      raises before the saves. */
  method LegacyCollectAndSave(dir: OutputDir, allPrsData: seq<RepoPrs>, minPrs: int, days: int, timestamp: string)
    returns (outcome: LegacyOutcome)
    requires dir.Valid()
    modifies dir
    ensures dir.Valid()
    ensures !outcome.SavedFiles? ==> dir.files == old(dir.files)
    ensures outcome.NothingFetched? <==> Flatten(allPrsData, LegacyNormalizer()) == []
    ensures outcome.NoReposWithEnoughPrs? <==> (Flatten(allPrsData, LegacyNormalizer()) != []
      && MinPrsFilter(Flatten(allPrsData, LegacyNormalizer()), minPrs).NoQualifyingRepos?)
    ensures outcome.DaysZero? <==> (Flatten(allPrsData, LegacyNormalizer()) != []
      && MinPrsFilter(Flatten(allPrsData, LegacyNormalizer()), minPrs).Kept? && days == 0)
    ensures outcome.SavedFiles? ==> (
      var kept := MinPrsFilter(Flatten(allPrsData, LegacyNormalizer()), minPrs);
      && outcome.rows == kept.rows && outcome.filteredCount == kept.filteredCount
      && outcome.parquetPath == OutputPath(LegacyParquetName(Org, timestamp))
      && outcome.csvPath == LegacyCsvPath(Org, timestamp)
      && dir.files == WithFile(old(dir.files), LegacyParquetName(Org, timestamp), kept.rows))
  {
    var df := LegacyProcessPrs(allPrsData);
    if df == [] {
      return NothingFetched;
    }
    var filtered := MinPrsFilter(df, minPrs);
    if filtered.NoQualifyingRepos? {
      return NoReposWithEnoughPrs;
    }
    if days == 0 {
      return LegacyOutcome.DaysZero;
    }
    var name := LegacyParquetName(Org, timestamp);
    dir.WriteParquet(name, filtered.rows);
    outcome := SavedFiles(OutputPath(name), LegacyCsvPath(Org, timestamp), filtered.rows, filtered.filteredCount);
  }
}
