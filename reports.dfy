/** The decision rules of the reports (src/pr_metrics/reports.py): the
    early returns, the day-span gates, the colour thresholds, the bar
    lengths, the six-way trend tag threaded through the weekly loops and the
    skipping of authors with too little history.  What is printed and how is
    not modelled; each report is the structured content it would show. */
module Reports {
  import opened Wrappers
  import opened Time
  import opened Ordering
  import opened Records
  import opened Queries

  // ---------------------------------------------------------------------
  // Trend tags

  datatype Trend = Up | Down | Stable | UpQualityDown | DownQualityUp | Neutral

  function AbsInt(x: int): nat { if x < 0 then -x else x }

  function AbsReal(x: real): real { if x < 0.0 then -x else x }

  /** The trend of one row against the previous one: the rules are tried in
      order and the first that holds wins.  `stableCount` is 2 for the
      weekly table and 1 for the per-author tables. */
  function ClassifyTrend(countChange: int, rateChange: real, stableCount: nat): (t: Trend)
    // Rules 1, 2, 4 and 5 never overlap rule 3's band, so four of the tags
    // have an order-free description.
    ensures t == Up <==> countChange > 0 && rateChange >= 0.0
    ensures t == Down <==> countChange < 0 && rateChange < -5.0
    ensures t == UpQualityDown <==> countChange > 0 && rateChange < -5.0
    ensures t == DownQualityUp <==> countChange < 0 && rateChange > 5.0
    ensures t == Stable <==> (AbsInt(countChange) <= stableCount && AbsReal(rateChange) <= 5.0
      && !(countChange > 0 && rateChange >= 0.0))
    ensures t == Neutral <==> (!(countChange > 0 && rateChange >= 0.0) && !(countChange < 0 && rateChange < -5.0)
      && !(AbsInt(countChange) <= stableCount && AbsReal(rateChange) <= 5.0)
      && !(countChange > 0 && rateChange < -5.0) && !(countChange < 0 && rateChange > 5.0))
  {
    if countChange > 0 && rateChange >= 0.0 then Up
    else if countChange < 0 && rateChange < -5.0 then Down
    else if AbsInt(countChange) <= stableCount && AbsReal(rateChange) <= 5.0 then Stable
    else if countChange > 0 && rateChange < -5.0 then UpQualityDown
    else if countChange < 0 && rateChange > 5.0 then DownQualityUp
    else Neutral
  }

  /** One more PR and a slightly better rate is "up", although the change is
      inside the stable band: the first rule wins. */
  lemma UpBeatsStable()
    ensures ClassifyTrend(9 - 8, 82.0 - 80.0, 2) == Up
    ensures AbsInt(9 - 8) <= 2 && AbsReal(82.0 - 80.0) <= 5.0
  {
  }

  /** The per-author band is narrower: two fewer PRs at the same rate is
      stable week to week but neutral for one author. */
  lemma AuthorBandNarrower()
    ensures ClassifyTrend(-2, 0.0, 2) == Stable
    ensures ClassifyTrend(-2, 0.0, 1) == Neutral
  {
  }

  /** A narrower band only turns stable rows into neutral ones. */
  lemma BandOnlyAffectsStable(countChange: int, rateChange: real)
    ensures ClassifyTrend(countChange, rateChange, 1) == ClassifyTrend(countChange, rateChange, 2)
      || (ClassifyTrend(countChange, rateChange, 2) == Stable && ClassifyTrend(countChange, rateChange, 1) == Neutral)
  {
  }

  // ---------------------------------------------------------------------
  // Colours and bars

  datatype Colour = Green | Yellow | Red

  /** Green is best. */
  function ColourRank(c: Colour): nat
  {
    match c
    case Green => 0
    case Yellow => 1
    case Red => 2
  }

  /** The success colour of the contributor and repository tables. */
  function SuccessColour(rate: real): (c: Colour)
    ensures c == Green <==> rate >= 90.0
    ensures c == Yellow <==> 70.0 <= rate < 90.0
    ensures c == Red <==> rate < 70.0
  {
    if rate >= 90.0 then Green else if rate >= 70.0 then Yellow else Red
  }

  /** The merge-rate colour of the weekly and per-author tables. */
  function RateColour(rate: real): (c: Colour)
    ensures c == Green <==> rate >= 90.0
    ensures c == Yellow <==> 75.0 <= rate < 90.0
    ensures c == Red <==> rate < 75.0
  {
    if rate >= 90.0 then Green else if rate >= 75.0 then Yellow else Red
  }

  /** The merge-time colour; no colour when the average is NULL (shown as a dash). */
  function TimeColour(hours: Option<real>): (c: Option<Colour>)
    ensures c.None? <==> hours.None?
    ensures c == Some(Green) <==> hours.Some? && hours.value < 24.0
    ensures c == Some(Yellow) <==> hours.Some? && 24.0 <= hours.value < 72.0
    ensures c == Some(Red) <==> hours.Some? && hours.value >= 72.0
  {
    if hours.None? then None
    else if hours.value < 24.0 then Some(Green)
    else if hours.value < 72.0 then Some(Yellow)
    else Some(Red)
  }

  /** A better rate never gets a worse colour; the weekly rate colour is
      never kinder than the contributor one. */
  lemma RateColoursMonotone(a: real, b: real)
    requires a <= b
    ensures ColourRank(SuccessColour(b)) <= ColourRank(SuccessColour(a))
    ensures ColourRank(RateColour(b)) <= ColourRank(RateColour(a))
    ensures ColourRank(SuccessColour(a)) <= ColourRank(RateColour(a))
  {
  }

  /** A longer merge time never gets a better colour. */
  lemma TimeColourMonotone(a: real, b: real)
    requires a <= b
    ensures ColourRank(TimeColour(Some(a)).value) <= ColourRank(TimeColour(Some(b)).value)
  {
  }

  /** Python's `int(x)`: truncation toward zero. */
  function Truncate(x: real): (n: int)
    ensures x >= 0.0 ==> n == x.Floor
    ensures x < 0.0 ==> n == -((-x).Floor) && n <= 0
  {
    if x >= 0.0 then x.Floor else -((-x).Floor)
  }

  /** Python's `c * n`: empty for n <= 0. */
  function Repeat(c: char, n: int): (s: string)
    ensures |s| == if n > 0 then n else 0
    ensures forall i :: 0 <= i < |s| ==> s[i] == c
  {
    if n <= 0 then "" else Repeat(c, n - 1) + [c]
  }

  const Full: char := '█'
  const Empty: char := '░'

  /** `"█" * n + "░" * (width - n)`. */
  function Bar(n: int, width: nat): (s: string)
    ensures 0 <= n <= width ==> |s| == width
    ensures forall i :: 0 <= i < |s| ==> (s[i] == Full <==> i < n)
  {
    Repeat(Full, n) + Repeat(Empty, width - n)
  }

  /** The 15-cell success bar: `int(15 * rate / 100)` full cells. */
  function SuccessBar(rate: real): (s: string)
    ensures 0.0 <= rate <= 100.0 ==> |s| == 15
    ensures 0.0 <= rate ==> forall i :: 0 <= i < |s| ==> (s[i] == Full <==> (i + 1) as real * 100.0 <= 15.0 * rate)
  {
    var n := Truncate(15.0 * rate / 100.0);
    var s := Bar(n, 15);
    assert 0.0 <= rate <= 100.0 ==> 0 <= n <= 15;
    if 0.0 <= rate then
      assert forall i :: 0 <= i < |s| ==> (s[i] == Full <==> (i + 1) as real * 100.0 <= 15.0 * rate) by {
        forall i | 0 <= i < |s|
          ensures s[i] == Full <==> (i + 1) as real * 100.0 <= 15.0 * rate
        {
          FloorBound(15.0 * rate / 100.0, i + 1);
        }
      }
      s
    else
      s
  }

  /** `k <= floor(x)` exactly when `k <= x`. */
  lemma FloorBound(x: real, k: int)
    ensures k <= x.Floor <==> k as real <= x
  {
  }

  /** A rate above 100 overfills the bar, a negative one overlengthens it. */
  lemma SuccessBarOutOfRange()
    ensures |SuccessBar(120.0)| == 18
    ensures |SuccessBar(-10.0)| == 16
  {
    assert Truncate(15.0 * 120.0 / 100.0) == 18;
    assert Truncate(15.0 * -10.0 / 100.0) == -1;
  }

  /** The 20-cell size bar: `int(20 * count / max_count)` full cells. */
  function SizeBar(count: nat, maxCount: nat): (s: string)
    requires maxCount > 0
    ensures count <= maxCount ==> |s| == 20
    ensures forall i :: 0 <= i < |s| ==> (s[i] == Full <==> (i + 1) * maxCount <= 20 * count)
  {
    var scaled := 20 * count;
    var s := Bar(scaled / maxCount, 20);
    ScaledCountBound(count, maxCount);
    BarCells(scaled, maxCount, s);
    s
  }

  /** At most `maxCount` PRs fill at most the 20 cells. */
  lemma ScaledCountBound(count: nat, maxCount: nat)
    requires maxCount > 0
    ensures count <= maxCount ==> (20 * count) / maxCount <= 20
  {
    if count <= maxCount {
      DivBound(20 * maxCount, maxCount, 20);
      DivBound(20 * maxCount, maxCount, 21);
      assert 21 * maxCount > 20 * maxCount;
      DivMonotone(20 * count, 20 * maxCount, maxCount);
    }
  }

  /** A bar of `a / d` full cells has cell `i` full iff `(i + 1) * d <= a`. */
  lemma BarCells(a: nat, d: nat, s: string)
    requires d > 0
    requires forall i :: 0 <= i < |s| ==> (s[i] == Full <==> i < a / d)
    ensures forall i :: 0 <= i < |s| ==> (s[i] == Full <==> (i + 1) * d <= a)
  {
    forall i | 0 <= i < |s|
      ensures s[i] == Full <==> (i + 1) * d <= a
    {
      DivBound(a, d, i + 1);
    }
  }

  lemma DivMonotone(a: nat, b: nat, d: nat)
    requires d > 0 && a <= b
    ensures a / d <= b / d
  {
    DivBound(a, d, a / d);
    DivBound(b, d, a / d);
  }

  /** `k <= a / d` exactly when `k * d <= a`. */
  lemma DivBound(a: nat, d: nat, k: nat)
    requires d > 0
    ensures k <= a / d <==> k * d <= a
  {
    var q := a / d;
    assert a == q * d + a % d && 0 <= a % d < d;
    if k <= q {
      assert k * d <= q * d;
    } else {
      assert (q + 1) * d <= k * d;
    }
  }

  // ---------------------------------------------------------------------
  // The weekly loops

  /** One table line: the week shown (`None` for the NULL week), the
      counts, colours and trend tag. */
  datatype TrendLine = TrendLine(
    week: Option<int>,
    created: nat,
    merged: nat,
    rateColour: Colour,
    timeColour: Option<Colour>,
    trend: Option<Trend>)

  /** Stable band of the weekly table. */
  const WeeklyStableCount: nat := 2

  /** Stable band of the per-author tables. */
  const AuthorStableCount: nat := 1

  /** The line of week `k` of the weekly table, compared with the week
      iterated just before it. */
  function WeeklyLineAt(stats: seq<WeeklyStat>, k: nat): TrendLine
    requires k < |stats|
  {
    var s := stats[k];
    TrendLine(s.week, s.prCount, s.mergedCount, RateColour(s.mergeRate), TimeColour(s.avgMergeTime),
              if k == 0 then None
              else Some(ClassifyTrend(s.prCount - stats[k - 1].prCount, s.mergeRate - stats[k - 1].mergeRate, WeeklyStableCount)))
  }

  function WeeklyLines(stats: seq<WeeklyStat>): seq<TrendLine>
  {
    seq(|stats|, k requires 0 <= k < |stats| => WeeklyLineAt(stats, k))
  }

  /** Each step of the loop appends the line of the next week. */
  lemma WeeklyLinesSnoc(stats: seq<WeeklyStat>, i: nat)
    requires i < |stats|
    ensures WeeklyLines(stats[..i + 1]) == WeeklyLines(stats[..i]) + [WeeklyLineAt(stats, i)]
  {
    assert WeeklyLineAt(stats[..i + 1], i) == WeeklyLineAt(stats, i);
    assert forall k :: 0 <= k < i ==> WeeklyLineAt(stats[..i + 1], k) == WeeklyLineAt(stats[..i], k);
  }

  /** The weekly loop: `prev_created` / `prev_merge_rate` carry the row
      iterated last, so the first line has no tag and every later line is
      compared with the line above it. */
  method WeeklyPerformance(stats: seq<WeeklyStat>) returns (lines: seq<TrendLine>)
    ensures |lines| == |stats|
    ensures |lines| > 0 ==> lines[0].trend.None?
    ensures forall k :: 0 < k < |lines| ==> (lines[k].trend
      == Some(ClassifyTrend(stats[k].prCount - stats[k - 1].prCount, stats[k].mergeRate - stats[k - 1].mergeRate, 2)))
    ensures forall k :: 0 <= k < |lines| ==> (lines[k].week == stats[k].week && lines[k].created == stats[k].prCount
      && lines[k].rateColour == RateColour(stats[k].mergeRate) && lines[k].timeColour == TimeColour(stats[k].avgMergeTime))
    ensures lines == WeeklyLines(stats)
  {
    var prevCreated: Option<int> := None;
    var prevMergeRate: Option<real> := None;
    lines := [];
    for i := 0 to |stats|
      invariant lines == WeeklyLines(stats[..i])
      invariant prevCreated.None? <==> i == 0
      invariant i > 0 ==> prevCreated == Some(stats[i - 1].prCount) && prevMergeRate == Some(stats[i - 1].mergeRate)
    {
      var row := stats[i];
      var trend: Option<Trend> := None;
      if prevCreated.Some? {
        var createdChange := row.prCount - prevCreated.value;
        var rateChange := row.mergeRate - prevMergeRate.value;
        trend := Some(ClassifyTrend(createdChange, rateChange, WeeklyStableCount));
      }
      WeeklyLinesSnoc(stats, i);
      lines := lines + [TrendLine(row.week, row.prCount, row.mergedCount, RateColour(row.mergeRate), TimeColour(row.avgMergeTime), trend)];
      prevCreated := Some(row.prCount);
      prevMergeRate := Some(row.mergeRate);
    }
    assert stats[..|stats|] == stats;
  }

  /** The line of week `k` of one author's table. */
  function AuthorLineAt(stats: seq<AuthorWeekStat>, k: nat): TrendLine
    requires k < |stats|
  {
    var s := stats[k];
    TrendLine(s.week, s.prCount, s.mergedCount, RateColour(s.mergeRate), TimeColour(s.avgMergeTime),
              if k == 0 then None
              else Some(ClassifyTrend(s.prCount - stats[k - 1].prCount, s.mergeRate - stats[k - 1].mergeRate, AuthorStableCount)))
  }

  function AuthorLines(stats: seq<AuthorWeekStat>): seq<TrendLine>
  {
    seq(|stats|, k requires 0 <= k < |stats| => AuthorLineAt(stats, k))
  }

  lemma AuthorLinesSnoc(stats: seq<AuthorWeekStat>, i: nat)
    requires i < |stats|
    ensures AuthorLines(stats[..i + 1]) == AuthorLines(stats[..i]) + [AuthorLineAt(stats, i)]
  {
    assert AuthorLineAt(stats[..i + 1], i) == AuthorLineAt(stats, i);
    assert forall k :: 0 <= k < i ==> AuthorLineAt(stats[..i + 1], k) == AuthorLineAt(stats[..i], k);
  }

  /** The per-author loop, with `prev_created` / `prev_rate`. */
  method AuthorPerformance(stats: seq<AuthorWeekStat>) returns (lines: seq<TrendLine>)
    ensures |lines| == |stats|
    ensures |lines| > 0 ==> lines[0].trend.None?
    ensures forall k :: 0 < k < |lines| ==> (lines[k].trend
      == Some(ClassifyTrend(stats[k].prCount - stats[k - 1].prCount, stats[k].mergeRate - stats[k - 1].mergeRate, 1)))
    ensures forall k :: 0 <= k < |lines| ==> (lines[k].week == stats[k].week && lines[k].created == stats[k].prCount
      && lines[k].rateColour == RateColour(stats[k].mergeRate) && lines[k].timeColour == TimeColour(stats[k].avgMergeTime))
    ensures lines == AuthorLines(stats)
  {
    var prevCreated: Option<int> := None;
    var prevRate: Option<real> := None;
    lines := [];
    for i := 0 to |stats|
      invariant lines == AuthorLines(stats[..i])
      invariant prevCreated.None? <==> i == 0
      invariant i > 0 ==> prevCreated == Some(stats[i - 1].prCount) && prevRate == Some(stats[i - 1].mergeRate)
    {
      var row := stats[i];
      var trend: Option<Trend> := None;
      if prevCreated.Some? {
        var createdChange := row.prCount - prevCreated.value;
        var rateChange := row.mergeRate - prevRate.value;
        trend := Some(ClassifyTrend(createdChange, rateChange, AuthorStableCount));
      }
      AuthorLinesSnoc(stats, i);
      lines := lines + [TrendLine(row.week, row.prCount, row.mergedCount, RateColour(row.mergeRate), TimeColour(row.avgMergeTime), trend)];
      prevCreated := Some(row.prCount);
      prevRate := Some(row.mergeRate);
    }
    assert stats[..|stats|] == stats;
  }

  /** Weekly rows come newest first, so each line is compared with the
      following (more recent) week. */
  lemma WeeklyPreviousIsNewer(rows: seq<Row>, k: nat)
    requires 0 < k < |GetWeeklyStats(rows)|
    ensures StrictlyNewer(GetWeeklyStats(rows)[k - 1].week, GetWeeklyStats(rows)[k].week)
  {
  }

  // ---------------------------------------------------------------------
  // Per-author panels

  /** `(merged / total * 100) if total > 0 else 0`. */
  function MergeRateOrZero(merged: nat, total: nat): (r: real)
    ensures total == 0 ==> r == 0.0
    ensures total > 0 ==> r == Rate(merged, total)
  {
    if total > 0 then merged as real / total as real * 100.0 else 0.0
  }

  datatype AuthorPanel = AuthorPanel(author: string, lines: seq<TrendLine>, totalPrs: nat, overallRate: real)

  /** The panel of one top author from their weekly rows and all their PRs,
      or none when fewer than two weeks of history exist. */
  function PanelOf(author: string, weekly: seq<AuthorWeekStat>, mine: seq<Row>): (p: seq<AuthorPanel>)
    ensures |p| <= 1
    ensures p != [] <==> |weekly| >= 2
    ensures forall q :: q in p ==> (q.author == author && |q.lines| >= 2 && q.lines == AuthorLines(weekly)
      && q.totalPrs == |mine| && q.overallRate == MergeRateOrZero(MergedCount(mine), |mine|))
  {
    if |weekly| < 2 then []
    else [AuthorPanel(author, AuthorLines(weekly), |mine|, MergeRateOrZero(MergedCount(mine), |mine|))]
  }

  /** The panel of a top author of `rows`. */
  function PanelFor(rows: seq<Row>, author: string): (p: seq<AuthorPanel>)
  {
    PanelOf(author, GetAuthorWeeklyStats(rows, author), Group(rows, AuthorOf, author))
  }

  function Panels(rows: seq<Row>, top: seq<AuthorCount>): seq<AuthorPanel>
  {
    if top == [] then [] else Panels(rows, top[..|top| - 1]) + PanelFor(rows, top[|top| - 1].author)
  }

  /** Every panel belongs to a listed author, shows at least two weeks, and
      its totals count exactly that author's rows. */
  lemma {:induction false} PanelsShown(rows: seq<Row>, top: seq<AuthorCount>, p: AuthorPanel)
    requires p in Panels(rows, top)
    ensures exists i :: 0 <= i < |top| && top[i].author == p.author
    ensures |p.lines| >= 2
    ensures p.totalPrs == |Group(rows, AuthorOf, p.author)|
  {
    var init := top[..|top| - 1];
    if p in Panels(rows, init) {
      PanelsShown(rows, init, p);
      var i :| 0 <= i < |init| && init[i].author == p.author;
      assert top[i] == init[i];
    } else {
      assert p in PanelFor(rows, top[|top| - 1].author);
    }
  }

  /** The lines of every panel are its author's weeks. */
  lemma {:induction false} PanelLines(rows: seq<Row>, top: seq<AuthorCount>, p: AuthorPanel)
    requires p in Panels(rows, top)
    ensures p.lines == AuthorLines(GetAuthorWeeklyStats(rows, p.author))
  {
    if p in Panels(rows, top[..|top| - 1]) {
      PanelLines(rows, top[..|top| - 1], p);
    } else {
      var a := top[|top| - 1].author;
      assert p in PanelOf(a, GetAuthorWeeklyStats(rows, a), Group(rows, AuthorOf, a));
    }
  }

  /** A listed author with at least two weeks of history gets a panel. */
  lemma {:induction false} PanelsComplete(rows: seq<Row>, top: seq<AuthorCount>, i: nat)
    requires i < |top| && |GetAuthorWeeklyStats(rows, top[i].author)| >= 2
    ensures exists p :: p in Panels(rows, top) && p.author == top[i].author
  {
    var init := top[..|top| - 1];
    if i == |top| - 1 {
      var p := PanelFor(rows, top[i].author)[0];
      assert p in Panels(rows, top);
    } else {
      assert init[i] == top[i];
      PanelsComplete(rows, init, i);
      var p :| p in Panels(rows, init) && p.author == top[i].author;
      assert p in Panels(rows, top);
    }
  }

  /** The individual-contributor loop over the top authors: authors with
      fewer than two weeks are skipped with `continue`. */
  method IndividualPanels(rows: seq<Row>, top: seq<AuthorCount>) returns (panels: seq<AuthorPanel>)
    ensures panels == Panels(rows, top)
    ensures |panels| <= |top|
  {
    panels := [];
    for i := 0 to |top|
      invariant panels == Panels(rows, top[..i])
      invariant |panels| <= i
    {
      assert top[..i + 1][..i] == top[..i];
      var author := top[i].author;
      var weekly := GetAuthorWeeklyStats(rows, author);
      var mine := Group(rows, AuthorOf, author);
      assert Panels(rows, top[..i + 1]) == panels + PanelOf(author, weekly, mine);
      if |weekly| < 2 {
        continue;
      }
      var lines := AuthorPerformance(weekly);
      var total, merged := |mine|, MergedCount(mine);
      var overallRate := MergeRateOrZero(merged, total);
      panels := panels + [AuthorPanel(author, lines, total, overallRate)];
    }
    assert top[..|top|] == top;
  }

  // ---------------------------------------------------------------------
  // The terminal dashboard

  /** A contributor line: success colour and bar. */
  datatype ContributorLine = ContributorLine(author: string, colour: Colour, bar: string)

  function ContributorLines(stats: seq<AuthorStat>): (lines: seq<ContributorLine>)
    ensures |lines| == |stats|
    ensures forall i :: 0 <= i < |stats| ==> (lines[i].author == stats[i].author
      && lines[i].colour == SuccessColour(stats[i].mergeRate) && lines[i].bar == SuccessBar(stats[i].mergeRate))
    ensures forall i :: 0 <= i < |stats| && 0.0 <= stats[i].mergeRate <= 100.0 ==> |lines[i].bar| == 15
  {
    seq(|stats|, i requires 0 <= i < |stats| =>
      ContributorLine(stats[i].author, SuccessColour(stats[i].mergeRate), SuccessBar(stats[i].mergeRate)))
  }

  datatype RepoLine = RepoLine(repo: string, colour: Colour)

  function RepoLines(stats: seq<RepoStat>): (lines: seq<RepoLine>)
    ensures |lines| == |stats|
    ensures forall i :: 0 <= i < |stats| ==> lines[i] == RepoLine(stats[i].repo, SuccessColour(stats[i].mergeRate))
  {
    seq(|stats|, i requires 0 <= i < |stats| => RepoLine(stats[i].repo, SuccessColour(stats[i].mergeRate)))
  }

  /** A size-table line: the bar against the largest category. */
  datatype SizeLine = SizeLine(category: SizeCategory, count: nat, bar: string)

  function MaxCount(sizes: seq<SizeStat>): (m: nat)
    ensures forall i :: 0 <= i < |sizes| ==> sizes[i].prCount <= m
    ensures sizes != [] ==> exists i :: 0 <= i < |sizes| && sizes[i].prCount == m
  {
    if sizes == [] then 0
    else
      var rest := MaxCount(sizes[1..]);
      if sizes[0].prCount >= rest then sizes[0].prCount else rest
  }

  /** `max_count = max(...)`, then one bar per category; a table whose
      counts are all zero has no bars to draw against. */
  function SizeLines(sizes: seq<SizeStat>): (lines: seq<SizeLine>)
    requires forall i :: 0 <= i < |sizes| ==> sizes[i].prCount >= 1
    ensures |lines| == |sizes|
    ensures forall i :: 0 <= i < |sizes| ==> (lines[i].category == sizes[i].category
      && lines[i].count == sizes[i].prCount && lines[i].bar == SizeBar(sizes[i].prCount, MaxCount(sizes))
      && |lines[i].bar| == 20)
  {
    if sizes == [] then []
    else
      var m := MaxCount(sizes);
      seq(|sizes|, i requires 0 <= i < |sizes| => SizeLine(sizes[i].category, sizes[i].prCount, SizeBar(sizes[i].prCount, m)))
  }

  /** `(date_max - date_min).days + 1`. */
  function DaysSpan(first: Instant, last: Instant): (d: int)
    ensures NotAfter(first, last) ==> d >= 1
  {
    WholeDaysBetween(first, last) + 1
  }

  /** `total_prs / days_span`. */
  function PerDay(count: nat, days: int): (r: real)
    requires days >= 1
    ensures r >= 0.0 && r * days as real == count as real
  {
    count as real / days as real
  }

  /** The summary passes the early return: some PR has a creation time. */
  predicate HasPrs(s: Summary)
  {
    s.totalPrs > 0 && s.dateMin.Some?
  }

  /** The headline numbers of both reports. */
  datatype Headline = Headline(summary: Summary, mergeRate: real, daysSpan: int, dailyThroughput: real)

  function HeadlineOf(s: Summary): (h: Headline)
    requires SummaryConsistent(s) && HasPrs(s)
    ensures h.summary == s
    ensures h.mergeRate == Rate(s.mergedPrs.value, s.totalPrs)
    ensures h.daysSpan >= 1 && h.dailyThroughput == PerDay(s.totalPrs, h.daysSpan)
  {
    var span := DaysSpan(s.dateMin.value, s.dateMax.value);
    Headline(s, MergeRateOrZero(s.mergedPrs.value, s.totalPrs), span, PerDay(s.totalPrs, span))
  }

  /** The headline rate is a percentage. */
  lemma HeadlineRateBounded(s: Summary)
    requires SummaryConsistent(s) && HasPrs(s)
    ensures 0.0 <= HeadlineOf(s).mergeRate <= 100.0
  {
  }

  /** The dashboard's three tables as drawn. */
  datatype TableLines = TableLines(contributors: seq<ContributorLine>, repos: seq<RepoLine>, sizes: seq<SizeLine>)

  function TableLinesOf(rows: seq<Row>): TableLines
  {
    TableLines(ContributorLines(GetAuthorStats(rows)), RepoLines(GetRepoStats(rows)), SizeLines(GetSizeDistribution(rows)))
  }

  /** One contributor line per author row, one repository line per
      repository row, one size line per non-empty category; every size bar
      is 20 cells. */
  lemma TableLinesShape(rows: seq<Row>)
    ensures |TableLinesOf(rows).contributors| == |GetAuthorStats(rows)|
    ensures |TableLinesOf(rows).repos| == |GetRepoStats(rows)|
    ensures |TableLinesOf(rows).sizes| == |GetSizeDistribution(rows)|
    ensures forall l :: l in TableLinesOf(rows).sizes ==> |l.bar| == 20
  {
    var sizes := TableLinesOf(rows).sizes;
    forall l | l in sizes
      ensures |l.bar| == 20
    {
      var i :| 0 <= i < |sizes| && sizes[i] == l;
    }
  }

  datatype Dashboard = Dashboard(
    headline: Headline,
    tables: TableLines,
    weekly: Option<seq<TrendLine>>,
    individuals: Option<seq<AuthorPanel>>)

  /** `WeekNotADate` is the `ValueError` raised when a shown line has the
      NULL week: `pd.to_datetime` turns it into `NaT`, whose `strftime`
      raises, and nothing between the report and the command catches it. */
  datatype TerminalReport = NoDataAvailable | NoPrsFound | WeekNotADate | Shown(dashboard: Dashboard)

  /** Some line of the weekly table or of an author's table is for the
      NULL week. */
  predicate HasUndatedLine(weekly: seq<TrendLine>, individuals: seq<AuthorPanel>)
  {
    UndatedLine(weekly) || exists i :: 0 <= i < |individuals| && UndatedLine(individuals[i].lines)
  }

  predicate UndatedLine(lines: seq<TrendLine>)
  {
    exists k :: 0 <= k < |lines| && lines[k].week.None?
  }

  /** The dashboard from the query results: the early return on no PRs,
      then the weekly table and the individual panels only for a span of at
      least a week, which fail when one of their lines has no week. */
  function TerminalFrom(s: Summary, tables: TableLines, weekly: seq<TrendLine>, individuals: seq<AuthorPanel>): (r: TerminalReport)
    requires SummaryConsistent(s)
    ensures r != NoDataAvailable
    ensures r == NoPrsFound <==> !HasPrs(s)
    ensures r == WeekNotADate <==> (HasPrs(s) && HeadlineOf(s).daysSpan >= 7 && HasUndatedLine(weekly, individuals))
    ensures r.Shown? ==> (r.dashboard.headline == HeadlineOf(s) && r.dashboard.tables == tables
      && r.dashboard.weekly == (if r.dashboard.headline.daysSpan >= 7 then Some(weekly) else None)
      && r.dashboard.individuals == (if r.dashboard.headline.daysSpan >= 7 then Some(individuals) else None))
  {
    if !HasPrs(s) then NoPrsFound
    else
      var headline := HeadlineOf(s);
      if headline.daysSpan >= 7 && HasUndatedLine(weekly, individuals) then WeekNotADate
      else Shown(Dashboard(
        headline,
        tables,
        if headline.daysSpan >= 7 then Some(weekly) else None,
        if headline.daysSpan >= 7 then Some(individuals) else None))
  }

  /** The weekly performance table of the dashboard. */
  function WeeklySection(rows: seq<Row>): seq<TrendLine>
  {
    WeeklyLines(GetWeeklyStats(rows))
  }

  /** The panels of the `top_n_individual` most active authors. */
  function IndividualSection(rows: seq<Row>, topN: nat): seq<AuthorPanel>
  {
    Panels(rows, GetTopAuthors(rows, topN))
  }

  /** `generate_rich_terminal_report(con, view_name, org, top_n_individual)`
      over the view's rows (`None` for no connection). */
  function TerminalReportOf(view: Option<seq<Row>>, topN: nat): (r: TerminalReport)
    ensures r == NoDataAvailable <==> view.None?
    ensures view.Some? ==> r == TerminalFrom(GetSummaryStats(view.value), TableLinesOf(view.value),
      WeeklySection(view.value), IndividualSection(view.value, topN))
  {
    if view.None? then NoDataAvailable
    else
      var rows := view.value;
      TerminalFrom(GetSummaryStats(rows), TableLinesOf(rows), WeeklySection(rows), IndividualSection(rows, topN))
  }

  /** "No PRs found" exactly for an empty view or one without any creation
      time. */
  lemma NoPrsFoundExactly(rows: seq<Row>, topN: nat)
    ensures TerminalReportOf(Some(rows), topN) == NoPrsFound
      <==> (rows == [] || forall r :: r in rows ==> r.createdAt.None?)
  {
  }

  /** Among the rows the dashboard would show, one is for the NULL week:
      one of the six newest weeks, or one of the six newest weeks of a top
      author with at least two weeks of history. */
  predicate UndatedShownWeek(rows: seq<Row>, topN: nat)
  {
    var top := GetTopAuthors(rows, topN);
    || UndatedWeek(GetWeeklyStats(rows))
    || exists j :: 0 <= j < |top| && UndatedPanelWeek(GetAuthorWeeklyStats(rows, top[j].author))
  }

  predicate UndatedWeek(stats: seq<WeeklyStat>)
  {
    exists k :: 0 <= k < |stats| && stats[k].week.None?
  }

  /** An author's weeks are shown (at least two) and one is NULL. */
  predicate UndatedPanelWeek(stats: seq<AuthorWeekStat>)
  {
    |stats| >= 2 && exists k :: 0 <= k < |stats| && stats[k].week.None?
  }

  /** The weekly table has a NULL-week line exactly when its weeks do. */
  lemma WeeklyUndated(stats: seq<WeeklyStat>)
    ensures UndatedLine(WeeklyLines(stats)) <==> UndatedWeek(stats)
  {
    if k :| 0 <= k < |stats| && stats[k].week.None? {
      assert WeeklyLines(stats)[k].week.None?;
    }
  }

  /** An author's lines have a NULL week exactly when their weeks do. */
  lemma AuthorUndated(stats: seq<AuthorWeekStat>)
    ensures UndatedLine(AuthorLines(stats)) <==> exists k :: 0 <= k < |stats| && stats[k].week.None?
  {
    if k :| 0 <= k < |stats| && stats[k].week.None? {
      assert AuthorLines(stats)[k].week.None?;
    }
  }

  /** A panel with a NULL-week line belongs to a top author whose shown
      weeks include the NULL week. */
  lemma PanelUndatedWeek(rows: seq<Row>, top: seq<AuthorCount>, p: AuthorPanel)
    requires p in Panels(rows, top) && UndatedLine(p.lines)
    ensures exists j :: 0 <= j < |top| && UndatedPanelWeek(GetAuthorWeeklyStats(rows, top[j].author))
  {
    PanelsShown(rows, top, p);
    PanelLines(rows, top, p);
    var j :| 0 <= j < |top| && top[j].author == p.author;
    var t := GetAuthorWeeklyStats(rows, top[j].author);
    AuthorUndated(t);
    assert UndatedPanelWeek(t);
  }

  /** A top author whose shown weeks include the NULL week has a panel with
      a NULL-week line. */
  lemma UndatedWeekPanel(rows: seq<Row>, top: seq<AuthorCount>, j: nat)
    requires j < |top| && UndatedPanelWeek(GetAuthorWeeklyStats(rows, top[j].author))
    ensures exists i :: 0 <= i < |Panels(rows, top)| && UndatedLine(Panels(rows, top)[i].lines)
  {
    var t := GetAuthorWeeklyStats(rows, top[j].author);
    PanelsComplete(rows, top, j);
    var p :| p in Panels(rows, top) && p.author == top[j].author;
    PanelLines(rows, top, p);
    AuthorUndated(t);
    var i :| 0 <= i < |Panels(rows, top)| && Panels(rows, top)[i] == p;
  }

  /** The lines of the dashboard have a NULL week exactly when the weeks
      it shows do. */
  lemma UndatedLinesExactly(rows: seq<Row>, topN: nat)
    ensures HasUndatedLine(WeeklySection(rows), IndividualSection(rows, topN)) <==> UndatedShownWeek(rows, topN)
  {
    var top := GetTopAuthors(rows, topN);
    var panels := IndividualSection(rows, topN);
    WeeklyUndated(GetWeeklyStats(rows));
    if i :| 0 <= i < |panels| && UndatedLine(panels[i].lines) {
      PanelUndatedWeek(rows, top, panels[i]);
    }
    if j :| 0 <= j < |top| && UndatedPanelWeek(GetAuthorWeeklyStats(rows, top[j].author)) {
      UndatedWeekPanel(rows, top, j);
    }
  }

  /** The terminal report fails with `ValueError` exactly when there are
      PRs, the span is at least a week, and a week it shows is NULL. */
  lemma WeekNotADateExactly(rows: seq<Row>, topN: nat)
    ensures TerminalReportOf(Some(rows), topN) == WeekNotADate
      <==> (HasPrs(GetSummaryStats(rows)) && HeadlineOf(GetSummaryStats(rows)).daysSpan >= 7 && UndatedShownWeek(rows, topN))
  {
    UndatedLinesExactly(rows, topN);
    FailsWhenUndated(GetSummaryStats(rows), TableLinesOf(rows), WeeklySection(rows), IndividualSection(rows, topN),
                     UndatedShownWeek(rows, topN));
  }

  /** `TerminalFrom` fails exactly for an undated line, whatever names that
      condition. */
  lemma FailsWhenUndated(s: Summary, tables: TableLines, weekly: seq<TrendLine>, individuals: seq<AuthorPanel>, undated: bool)
    requires SummaryConsistent(s) && (HasUndatedLine(weekly, individuals) <==> undated)
    ensures TerminalFrom(s, tables, weekly, individuals) == WeekNotADate <==> (HasPrs(s) && HeadlineOf(s).daysSpan >= 7 && undated)
  {
  }

  /** A PR without a creation time in a view spanning at least a week with
      fewer than six dated weeks puts the NULL week in the weekly table, so
      the terminal report fails. */
  lemma UndatedRowFailsDashboard(rows: seq<Row>, topN: nat, r: Row)
    requires r in rows && r.createdAt.None?
    requires HasPrs(GetSummaryStats(rows)) && HeadlineOf(GetSummaryStats(rows)).daysSpan >= 7
    requires |GetWeeklyStats(rows)| < 6
    ensures TerminalReportOf(Some(rows), topN) == WeekNotADate
  {
    var t := GetWeeklyStats(rows);
    assert KeyListed(t, WeekKey, 6, WeekOf(r));
    ListedNullWeek(t, WeekOf(r));
    UndatedWeekFails(rows, topN);
  }

  /** Fewer than six weeks listed: a listed NULL week is one of them. */
  lemma ListedNullWeek(t: seq<WeeklyStat>, w: Option<int>)
    requires KeyListed(t, WeekKey, 6, w) && |t| < 6 && w.None?
    ensures UndatedWeek(t)
  {
  }

  lemma UndatedWeekFails(rows: seq<Row>, topN: nat)
    requires HasPrs(GetSummaryStats(rows)) && HeadlineOf(GetSummaryStats(rows)).daysSpan >= 7
    requires UndatedWeek(GetWeeklyStats(rows))
    ensures TerminalReportOf(Some(rows), topN) == WeekNotADate
  {
    WeekNotADateExactly(rows, topN);
  }

  /** The weekly loop over the six newest weeks. */
  method WeeklySectionLoop(rows: seq<Row>) returns (lines: seq<TrendLine>)
    ensures lines == WeeklySection(rows)
  {
    lines := WeeklyPerformance(GetWeeklyStats(rows));
  }

  /** The individual-contributor loop over the top authors. */
  method IndividualSectionLoop(rows: seq<Row>, topN: nat) returns (panels: seq<AuthorPanel>)
    ensures panels == IndividualSection(rows, topN)
  {
    panels := IndividualPanels(rows, GetTopAuthors(rows, topN));
  }

  // ---------------------------------------------------------------------
  // The markdown report

  /** The three tables of the markdown report. */
  datatype Tables = Tables(authors: seq<AuthorStat>, repos: seq<RepoStat>, sizes: seq<SizeStat>)

  function TablesOf(rows: seq<Row>): Tables
  {
    Tables(GetAuthorStats(rows), GetRepoStats(rows), GetSizeDistribution(rows))
  }

  datatype Markdown = Markdown(
    headline: Headline,
    tables: Tables,
    weekly: Option<seq<WeeklyStat>>,
    monthly: Option<seq<MonthlyStat>>)

  datatype MarkdownReport = MarkdownNoData | MarkdownNoPrs | Printed(markdown: Markdown)

  /** The markdown document from the query results: weekly activity when
      there is any, monthly trends from a 30-day span on. */
  function MarkdownFrom(s: Summary, tables: Tables, weekly: seq<WeeklyStat>, monthly: seq<MonthlyStat>): (r: MarkdownReport)
    requires SummaryConsistent(s)
    ensures r != MarkdownNoData
    ensures r == MarkdownNoPrs <==> !HasPrs(s)
    ensures r.Printed? ==> (r.markdown.headline == HeadlineOf(s) && r.markdown.tables == tables
      && r.markdown.weekly == (if |weekly| > 0 then Some(weekly) else None)
      && r.markdown.monthly == (if r.markdown.headline.daysSpan >= 30 then Some(monthly) else None))
  {
    if !HasPrs(s) then MarkdownNoPrs
    else
      var headline := HeadlineOf(s);
      Printed(Markdown(
        headline,
        tables,
        if |weekly| > 0 then Some(weekly) else None,
        if headline.daysSpan >= 30 then Some(monthly) else None))
  }

  /** `generate_markdown_report(con, view_name, org)`. */
  function MarkdownReportOf(view: Option<seq<Row>>): (r: MarkdownReport)
    ensures r == MarkdownNoData <==> view.None?
    ensures view.Some? ==> r == MarkdownFrom(GetSummaryStats(view.value), TablesOf(view.value),
      GetWeeklyStats(view.value), GetMonthlyStats(view.value))
  {
    if view.None? then MarkdownNoData
    else
      var rows := view.value;
      MarkdownFrom(GetSummaryStats(rows), TablesOf(rows), GetWeeklyStats(rows), GetMonthlyStats(rows))
  }

  /** Past the early return the weekly section is always there: some row
      exists, so some week does. */
  lemma MarkdownAlwaysWeekly(rows: seq<Row>)
    requires MarkdownReportOf(Some(rows)).Printed?
    ensures MarkdownReportOf(Some(rows)).markdown.weekly == Some(GetWeeklyStats(rows))
  {
    assert KeyListed(GetWeeklyStats(rows), WeekKey, 6, WeekOf(rows[0]));
  }
}
