/** The aggregation queries (src/pr_metrics/queries.py), each a function over
    the rows of a view.  SQL semantics kept: AVG ignores NULLs and is NULL
    over no values, SUM over no rows is NULL, GROUP BY yields one row per
    distinct key, NULL keys sort last.  Rounding is left to presentation. */
module Queries {
  import opened Wrappers
  import opened Time
  import opened Ordering
  import opened Records

  // ---------------------------------------------------------------------
  // Grouping

  /** `WHERE key = k`: the rows of one group, in view order. */
  function Group<K(==,!new)>(rows: seq<Row>, key: Row -> K, k: K): (g: seq<Row>)
    ensures forall r :: r in g <==> r in rows && key(r) == k
    ensures |g| <= |rows|
  {
    Filter(rows, (r: Row) => key(r) == k)
  }

  /** The group keys of `GROUP BY key`: every key that some row has, once. */
  function Keys<K(==,!new)>(rows: seq<Row>, key: Row -> K): (ks: seq<K>)
    ensures Distinct(ks)
    ensures forall k :: k in ks <==> Group(rows, key, k) != []
    ensures |ks| <= |rows|
  {
    var all := MapSeq(rows, key);
    assert forall k :: k in all <==> Group(rows, key, k) != [] by {
      forall k ensures k in all <==> Group(rows, key, k) != [] {
        if k in all {
          var i :| 0 <= i < |all| && all[i] == k;
          assert rows[i] in Group(rows, key, k);
        }
        if Group(rows, key, k) != [] {
          var r := Group(rows, key, k)[0];
          assert r in rows;
          var i :| 0 <= i < |rows| && rows[i] == r;
          assert all[i] == k;
        }
      }
    }
    Dedup(all)
  }

  /** `COUNT(DISTINCT key)`: at least one for a non-empty group. */
  function CountDistinct<K(==,!new)>(rows: seq<Row>, key: Row -> K): (n: nat)
    ensures n == |Keys(rows, key)| && n <= |rows|
    ensures rows != [] ==> n >= 1
  {
    if rows != [] then
      assert rows[0] in Group(rows, key, key(rows[0]));
      |Keys(rows, key)|
    else |Keys(rows, key)|
  }

  function AuthorOf(r: Row): string { r.author }

  function RepoOf(r: Row): string { r.repo }

  /** `DATE_TRUNC('week', created_at)`: NULL when the creation time is. */
  function WeekOf(r: Row): Option<int>
  {
    if r.createdAt.Some? then Some(WeekStart(r.createdAt.value)) else None
  }

  /** `DATE_TRUNC('month', created_at)`. */
  function MonthOf(r: Row): Option<int>
  {
    if r.createdAt.Some? then Some(MonthIndex(r.createdAt.value)) else None
  }

  /** A table built from distinct group keys and then reordered has one row
      per key, each row the one built for its key. */
  lemma TableOf<K, S>(keys: seq<K>, mk: K --> S, keyOf: S -> K, unsorted: seq<S>, table: seq<S>)
    requires Distinct(keys)
    requires forall k :: k in keys ==> mk.requires(k) && keyOf(mk(k)) == k
    requires |unsorted| == |keys| && forall i :: 0 <= i < |keys| ==> unsorted[i] == mk(keys[i])
    requires multiset(table) == multiset(unsorted)
    ensures forall i, j :: 0 <= i < j < |table| ==> keyOf(table[i]) != keyOf(table[j])
    ensures forall i :: 0 <= i < |table| ==> keyOf(table[i]) in keys && table[i] == mk(keyOf(table[i]))
    ensures forall k :: k in keys ==> mk(k) in table
  {
    assert Distinct(unsorted) by {
      forall i, j | 0 <= i < j < |unsorted| ensures unsorted[i] != unsorted[j] {
        assert keyOf(unsorted[i]) == keys[i];
      }
    }
    DistinctPermutation(unsorted, table);
    forall i | 0 <= i < |table|
      ensures keyOf(table[i]) in keys && table[i] == mk(keyOf(table[i]))
    {
      assert table[i] in multiset(unsorted);
      var j :| 0 <= j < |unsorted| && unsorted[j] == table[i];
      assert keyOf(table[i]) == keys[j];
    }
    forall k | k in keys
      ensures mk(k) in table
    {
      var j :| 0 <= j < |keys| && keys[j] == k;
      assert unsorted[j] in multiset(table);
    }
  }

  /** `GROUP BY key ORDER BY ...`: one row per group key, built by `build`
      from the key and its group, ordered by `before`; `keyOf` reads the key
      back from a built row. */
  function GroupTable<K(==,!new), S(!new)>(rows: seq<Row>, key: Row -> K, build: (K, seq<Row>) --> S,
                                           keyOf: S -> K, before: (S, S) -> bool): (t: seq<S>)
    requires forall k, g: seq<Row> :: g != [] ==> build.requires(k, g) && keyOf(build(k, g)) == k
    requires TotalPreorder(before)
    ensures SortedBy(t, before)
    ensures forall i, j :: 0 <= i < j < |t| ==> keyOf(t[i]) != keyOf(t[j])
    ensures forall i :: 0 <= i < |t| ==> (Group(rows, key, keyOf(t[i])) != []
      && t[i] == build(keyOf(t[i]), Group(rows, key, keyOf(t[i]))))
    ensures forall r :: r in rows ==> exists i :: 0 <= i < |t| && keyOf(t[i]) == key(r)
  {
    var keys := Keys(rows, key);
    var mk := k requires Group(rows, key, k) != [] => build(k, Group(rows, key, k));
    var unsorted := seq(|keys|, i requires 0 <= i < |keys| => mk(keys[i]));
    SortSorted(unsorted, before);
    var t := Sort(unsorted, before);
    TableOf(keys, mk, keyOf, unsorted, t);
    assert forall r :: r in rows ==> r in Group(rows, key, key(r)) && mk(key(r)) in t;
    t
  }

  /** A row of a sorted table cut to its first `n` rows is either kept, or
      the cut table is full and every kept row sorts before it. */
  lemma PrefixCover<S>(all: seq<S>, n: nat, s: S, before: (S, S) -> bool)
    requires s in all && SortedBy(all, before)
    ensures s in Prefix(all, n) || (|Prefix(all, n)| == n && forall i :: 0 <= i < n ==> before(Prefix(all, n)[i], s))
  {
    var k :| 0 <= k < |all| && all[k] == s;
    if k < |Prefix(all, n)| {
      assert Prefix(all, n)[k] == s;
    }
  }

  // ---------------------------------------------------------------------
  // Column aggregates

  /** `SUM(CASE WHEN state = 'merged' THEN 1 ELSE 0 END)` over a non-empty group. */
  function MergedCount(rows: seq<Row>): (n: nat)
    ensures n <= |rows|
  {
    |Filter(rows, IsMerged)|
  }

  function Sum(xs: seq<real>): real
  {
    if xs == [] then 0.0 else xs[0] + Sum(xs[1..])
  }

  /** `AVG(x)` over the non-NULL values. */
  function Avg(xs: seq<real>): (m: Option<real>)
    ensures m.None? <==> xs == []
    ensures m.Some? ==> m.value * |xs| as real == Sum(xs)
  {
    if xs == [] then None else Some(Sum(xs) / |xs| as real)
  }

  function SizeOf(r: Row): real { r.prSize as real }

  function ReviewsOf(r: Row): real { r.reviews as real }

  /** `AVG(pr_size)`. */
  function AvgSize(rows: seq<Row>): (m: Option<real>)
    ensures m.None? <==> rows == []
    ensures m.Some? ==> m.value * |rows| as real == Sum(MapSeq(rows, SizeOf))
  {
    Avg(MapSeq(rows, SizeOf))
  }

  /** `CASE WHEN state = 'merged' THEN time_to_merge_hours END`, NULLs dropped:
      the merge times of merged rows only. */
  function MergeTimes(rows: seq<Row>): (ts: seq<real>)
    ensures |ts| <= MergedCount(rows)
    ensures forall x :: x in ts ==> exists r :: r in rows && IsMerged(r) && r.timeToMergeHours == Some(x)
  {
    if rows == [] then []
    else
      var rest := MergeTimes(rows[1..]);
      assert Filter(rows, IsMerged) == (if IsMerged(rows[0]) then [rows[0]] else []) + Filter(rows[1..], IsMerged);
      if IsMerged(rows[0]) && rows[0].timeToMergeHours.Some? then [rows[0].timeToMergeHours.value] + rest else rest
  }

  /** With consistent rows, a merge time is averaged for every merged row
      that has a creation time, and for no other row. */
  lemma {:induction false} MergeTimesOfConsistentRows(rows: seq<Row>)
    requires forall r :: r in rows ==> StateConsistent(r)
    requires forall r :: r in rows ==> r.createdAt.Some?
    ensures |MergeTimes(rows)| == MergedCount(rows)
  {
    if rows != [] {
      MergeTimesOfConsistentRows(rows[1..]);
      assert Filter(rows, IsMerged) == (if IsMerged(rows[0]) then [rows[0]] else []) + Filter(rows[1..], IsMerged);
    }
  }

  /** `AVG(CASE WHEN state = 'merged' THEN time_to_merge_hours END)`. */
  function AvgMergeTime(rows: seq<Row>): Option<real>
  {
    Avg(MergeTimes(rows))
  }

  /** `100.0 * merged / COUNT(*)` over a non-empty group. */
  function Rate(merged: nat, count: nat): (r: real)
    requires count > 0
    ensures merged <= count ==> 0.0 <= r <= 100.0
    ensures r * count as real == 100.0 * merged as real
  {
    assert merged <= count ==> 100.0 * merged as real <= 100.0 * count as real;
    100.0 * merged as real / count as real
  }

  /** `MIN(created_at)`: NULL when no row has a creation time. */
  function EarliestCreated(rows: seq<Row>): (t: Option<Instant>)
    ensures t.None? <==> forall r :: r in rows ==> r.createdAt.None?
    ensures t.Some? ==> exists r :: r in rows && r.createdAt == t
    ensures t.Some? ==> forall r :: r in rows && r.createdAt.Some? ==> NotAfter(t.value, r.createdAt.value)
  {
    if rows == [] then None
    else
      var rest := EarliestCreated(rows[1..]);
      var here := rows[0].createdAt;
      assert forall r :: r in rows <==> r == rows[0] || r in rows[1..];
      if here.None? then rest
      else if rest.None? || NotAfter(here.value, rest.value) then here
      else rest
  }

  /** `MAX(created_at)`. */
  function LatestCreated(rows: seq<Row>): (t: Option<Instant>)
    ensures t.None? <==> forall r :: r in rows ==> r.createdAt.None?
    ensures t.Some? ==> exists r :: r in rows && r.createdAt == t
    ensures t.Some? ==> forall r :: r in rows && r.createdAt.Some? ==> NotAfter(r.createdAt.value, t.value)
  {
    if rows == [] then None
    else
      var rest := LatestCreated(rows[1..]);
      var here := rows[0].createdAt;
      assert forall r :: r in rows <==> r == rows[0] || r in rows[1..];
      if here.None? then rest
      else if rest.None? || NotAfter(rest.value, here.value) then here
      else rest
  }

  // ---------------------------------------------------------------------
  // get_summary_stats

  datatype Summary = Summary(
    totalPrs: nat,
    mergedPrs: Option<nat>,
    avgPrSize: Option<real>,
    avgMergeTime: Option<real>,
    dateMin: Option<Instant>,
    dateMax: Option<Instant>,
    uniqueRepos: nat,
    uniqueAuthors: nat)

  /** What every summary row satisfies: the aggregates are NULL together
      and the date range is ordered. */
  predicate SummaryConsistent(s: Summary)
  {
    && (s.mergedPrs.Some? <==> s.totalPrs > 0)
    && (s.mergedPrs.Some? ==> s.mergedPrs.value <= s.totalPrs)
    && (s.dateMin.None? <==> s.dateMax.None?)
    && (s.dateMin.Some? ==> NotAfter(s.dateMin.value, s.dateMax.value))
  }

  function GetSummaryStats(rows: seq<Row>): (s: Summary)
    ensures SummaryConsistent(s)
    ensures s.totalPrs == |rows|
    ensures s.mergedPrs.None? <==> rows == []
    ensures s.mergedPrs.Some? ==> s.mergedPrs.value == MergedCount(rows) <= s.totalPrs
    ensures s.avgPrSize == AvgSize(rows) && s.avgMergeTime == Avg(MergeTimes(rows))
    ensures s.dateMin.None? <==> s.dateMax.None?
    ensures s.dateMin.None? <==> forall r :: r in rows ==> r.createdAt.None?
    ensures s.dateMin.Some? ==> NotAfter(s.dateMin.value, s.dateMax.value)
    ensures rows != [] <==> s.uniqueAuthors >= 1
    ensures s.uniqueRepos == CountDistinct(rows, RepoOf) && s.uniqueAuthors == CountDistinct(rows, AuthorOf)
    ensures s.uniqueRepos <= s.totalPrs && s.uniqueAuthors <= s.totalPrs
  {
    var earliest := EarliestCreated(rows);
    var latest := LatestCreated(rows);
    assert earliest.Some? ==> NotAfter(earliest.value, latest.value) by {
      if earliest.Some? {
        var r :| r in rows && r.createdAt == latest;
      }
    }
    Summary(|rows|, if rows == [] then None else Some(MergedCount(rows)), AvgSize(rows), AvgMergeTime(rows),
            earliest, latest, CountDistinct(rows, RepoOf), CountDistinct(rows, AuthorOf))
  }

  // ---------------------------------------------------------------------
  // get_author_stats

  datatype AuthorStat = AuthorStat(
    author: string,
    prCount: nat,
    mergedCount: nat,
    avgPrSize: Option<real>,
    avgMergeTime: Option<real>,
    avgReviews: Option<real>,
    mergeRate: real)

  function AuthorStatOf(author: string, group: seq<Row>): (s: AuthorStat)
    requires group != []
    ensures s.author == author && s.prCount == |group| >= 1
    ensures s.mergedCount == MergedCount(group) <= s.prCount
    ensures s.mergeRate == Rate(s.mergedCount, s.prCount) && 0.0 <= s.mergeRate <= 100.0
    ensures s.avgPrSize == AvgSize(group) && s.avgReviews == Avg(MapSeq(group, ReviewsOf))
    ensures s.avgMergeTime == AvgMergeTime(group)
  {
    AuthorStat(author, |group|, MergedCount(group), AvgSize(group), AvgMergeTime(group),
               Avg(MapSeq(group, ReviewsOf)), Rate(MergedCount(group), |group|))
  }

  predicate AuthorCountDesc(a: AuthorStat, b: AuthorStat) { a.prCount >= b.prCount }

  function AuthorKey(s: AuthorStat): string { s.author }

  /** `GROUP BY author ORDER BY pr_count DESC`. */
  function GetAuthorStats(rows: seq<Row>): (t: seq<AuthorStat>)
    ensures forall i, j :: 0 <= i < j < |t| ==> t[i].prCount >= t[j].prCount
    ensures forall i, j :: 0 <= i < j < |t| ==> t[i].author != t[j].author
    ensures forall i :: 0 <= i < |t| ==> (Group(rows, AuthorOf, t[i].author) != []
      && t[i] == AuthorStatOf(t[i].author, Group(rows, AuthorOf, t[i].author)))
    ensures forall r :: r in rows ==> exists i :: 0 <= i < |t| && t[i].author == r.author
  {
    GroupTable(rows, AuthorOf, AuthorStatOf, AuthorKey, AuthorCountDesc)
  }

  // ---------------------------------------------------------------------
  // get_repo_stats

  datatype RepoStat = RepoStat(
    repo: string,
    prCount: nat,
    mergedCount: nat,
    contributorCount: nat,
    avgPrSize: Option<real>,
    avgMergeTime: Option<real>,
    mergeRate: real)

  function RepoStatOf(repo: string, group: seq<Row>): (s: RepoStat)
    requires group != []
    ensures s.repo == repo && s.prCount == |group|
    ensures s.contributorCount == CountDistinct(group, AuthorOf) && 1 <= s.contributorCount <= s.prCount
    ensures s.mergedCount == MergedCount(group) <= s.prCount
    ensures s.mergeRate == Rate(s.mergedCount, s.prCount) && 0.0 <= s.mergeRate <= 100.0
    ensures s.avgPrSize == AvgSize(group) && s.avgMergeTime == AvgMergeTime(group)
  {
    RepoStat(repo, |group|, MergedCount(group), CountDistinct(group, AuthorOf), AvgSize(group),
             AvgMergeTime(group), Rate(MergedCount(group), |group|))
  }

  predicate RepoCountDesc(a: RepoStat, b: RepoStat) { a.prCount >= b.prCount }

  function RepoKey(s: RepoStat): string { s.repo }

  /** `GROUP BY repo ORDER BY pr_count DESC`. */
  function GetRepoStats(rows: seq<Row>): (t: seq<RepoStat>)
    ensures forall i, j :: 0 <= i < j < |t| ==> t[i].prCount >= t[j].prCount
    ensures forall i, j :: 0 <= i < j < |t| ==> t[i].repo != t[j].repo
    ensures forall i :: 0 <= i < |t| ==> (Group(rows, RepoOf, t[i].repo) != []
      && t[i] == RepoStatOf(t[i].repo, Group(rows, RepoOf, t[i].repo)))
    ensures forall r :: r in rows ==> exists i :: 0 <= i < |t| && t[i].repo == r.repo
  {
    GroupTable(rows, RepoOf, RepoStatOf, RepoKey, RepoCountDesc)
  }

  // ---------------------------------------------------------------------
  // get_size_distribution

  datatype SizeCategory = Small | Medium | Large

  /** `CASE WHEN pr_size <= 50 ... WHEN pr_size <= 200 ... ELSE ...`. */
  function SizeCategoryOf(size: int): (c: SizeCategory)
    ensures c == Small <==> size <= 50
    ensures c == Medium <==> 50 < size <= 200
    ensures c == Large <==> 200 < size
  {
    if size <= 50 then Small else if size <= 200 then Medium else Large
  }

  function CategoryLabel(c: SizeCategory): string
  {
    match c
    case Small => "Small (<50)"
    case Medium => "Medium (50-200)"
    case Large => "Large (>200)"
  }

  /** The ORDER BY of the size table. */
  function CategoryRank(c: SizeCategory): nat
  {
    match c
    case Small => 1
    case Medium => 2
    case Large => 3
  }

  function CategoryOf(r: Row): SizeCategory { SizeCategoryOf(r.prSize) }

  datatype SizeStat = SizeStat(category: SizeCategory, prCount: nat, avgMergeTime: Option<real>)

  /** The table row of one category, if any row falls in it. */
  function CategoryRow(rows: seq<Row>, c: SizeCategory): (t: seq<SizeStat>)
    ensures |t| <= 1
    ensures t != [] <==> Group(rows, CategoryOf, c) != []
    ensures t != [] ==> t[0] == SizeStat(c, |Group(rows, CategoryOf, c)|, AvgMergeTime(Group(rows, CategoryOf, c)))
    ensures TotalCount(t) == |Group(rows, CategoryOf, c)|
  {
    var g := Group(rows, CategoryOf, c);
    if g == [] then [] else [SizeStat(c, |g|, AvgMergeTime(g))]
  }

  function TotalCount(t: seq<SizeStat>): nat
  {
    if t == [] then 0 else t[0].prCount + TotalCount(t[1..])
  }

  lemma {:induction false} TotalCountAppend(a: seq<SizeStat>, b: seq<SizeStat>)
    ensures TotalCount(a + b) == TotalCount(a) + TotalCount(b)
  {
    if a != [] {
      assert (a + b)[1..] == a[1..] + b;
      TotalCountAppend(a[1..], b);
    } else {
      assert a + b == b;
    }
  }

  /** Every row falls in exactly one category. */
  lemma {:induction false} CategoriesPartition(rows: seq<Row>)
    ensures |Group(rows, CategoryOf, Small)| + |Group(rows, CategoryOf, Medium)| + |Group(rows, CategoryOf, Large)| == |rows|
  {
    if rows != [] {
      CategoriesPartition(rows[1..]);
    }
  }

  /** The category rows in ORDER BY order. */
  function SizeRows(rows: seq<Row>): seq<SizeStat>
  {
    CategoryRow(rows, Small) + CategoryRow(rows, Medium) + CategoryRow(rows, Large)
  }

  lemma SizeRowsTotal(rows: seq<Row>)
    ensures TotalCount(SizeRows(rows)) == |rows|
  {
    var s := CategoryRow(rows, Small);
    var m := CategoryRow(rows, Medium);
    var l := CategoryRow(rows, Large);
    CategoriesPartition(rows);
    TotalCountAppend(s, m);
    TotalCountAppend(s + m, l);
  }

  /** Each row of the size table is the row of one category: Small rows
      come first, then Medium, then Large. */
  lemma SizeRowsAt(rows: seq<Row>)
    ensures var s := CategoryRow(rows, Small);
      var m := CategoryRow(rows, Medium);
      var t := SizeRows(rows);
      forall i :: 0 <= i < |t| ==>
        && (i < |s| ==> t[i] == s[0])
        && (|s| <= i < |s| + |m| ==> t[i] == m[i - |s|])
        && (|s| + |m| <= i ==> t[i] == CategoryRow(rows, Large)[i - |s| - |m|])
  {
  }

  /** The category of each position of the size table. */
  lemma SizeRowsCategories(rows: seq<Row>)
    ensures var s := CategoryRow(rows, Small);
      var m := CategoryRow(rows, Medium);
      var t := SizeRows(rows);
      forall i :: 0 <= i < |t| ==>
        && t[i].category == (if i < |s| then Small else if i < |s| + |m| then Medium else Large)
        && t[i].prCount == |Group(rows, CategoryOf, t[i].category)| >= 1
  {
    SizeRowsAt(rows);
  }

  lemma SizeRowsCover(rows: seq<Row>)
    ensures var t := SizeRows(rows);
      forall c :: Group(rows, CategoryOf, c) != [] ==> exists i :: 0 <= i < |t| && t[i].category == c
  {
    var s := CategoryRow(rows, Small);
    var m := CategoryRow(rows, Medium);
    var t := SizeRows(rows);
    SizeRowsAt(rows);
    forall c | Group(rows, CategoryOf, c) != []
      ensures exists i :: 0 <= i < |t| && t[i].category == c
    {
      if c == Small { assert t[0].category == c; }
      else if c == Medium { assert t[|s|].category == c; }
      else { assert t[|s| + |m|].category == c; }
    }
  }

  lemma SizeRowsOrdered(rows: seq<Row>)
    ensures var t := SizeRows(rows);
      && (forall i, j :: 0 <= i < j < |t| ==> CategoryRank(t[i].category) < CategoryRank(t[j].category))
      && (forall i :: 0 <= i < |t| ==> t[i].prCount == |Group(rows, CategoryOf, t[i].category)| >= 1)
  {
    SizeRowsCategories(rows);
  }

  /** `GROUP BY size_category ORDER BY` Small, Medium, Large: only
      non-empty categories appear, and their counts add up to all rows. */
  function GetSizeDistribution(rows: seq<Row>): (t: seq<SizeStat>)
    ensures forall i, j :: 0 <= i < j < |t| ==> CategoryRank(t[i].category) < CategoryRank(t[j].category)
    ensures forall c :: Group(rows, CategoryOf, c) != [] <==> exists i :: 0 <= i < |t| && t[i].category == c
    ensures forall i :: 0 <= i < |t| ==> t[i].prCount == |Group(rows, CategoryOf, t[i].category)| >= 1
    ensures TotalCount(t) == |rows|
  {
    SizeRowsTotal(rows);
    SizeRowsCover(rows);
    SizeRowsOrdered(rows);
    SizeRows(rows)
  }

  // ---------------------------------------------------------------------
  // get_weekly_stats

  datatype WeeklyStat = WeeklyStat(
    week: Option<int>,
    prCount: nat,
    mergedCount: nat,
    activeAuthors: nat,
    avgPrSize: Option<real>,
    avgMergeTime: Option<real>,
    mergeRate: real,
    prsPerDev: real)

  function WeeklyStatOf(week: Option<int>, group: seq<Row>): (s: WeeklyStat)
    requires group != []
    ensures s.week == week && s.prCount == |group|
    ensures s.activeAuthors == CountDistinct(group, AuthorOf) && 1 <= s.activeAuthors <= s.prCount
    ensures s.mergedCount == MergedCount(group) <= s.prCount
    ensures s.mergeRate == Rate(s.mergedCount, s.prCount) && 0.0 <= s.mergeRate <= 100.0
    ensures s.avgPrSize == AvgSize(group) && s.avgMergeTime == AvgMergeTime(group)
    ensures s.prsPerDev == PerDev(s.prCount, s.activeAuthors) && s.prsPerDev >= 1.0
  {
    var authors := CountDistinct(group, AuthorOf);
    WeeklyStat(week, |group|, MergedCount(group), authors, AvgSize(group), AvgMergeTime(group),
               Rate(MergedCount(group), |group|), PerDev(|group|, authors))
  }

  /** `COUNT(*) * 1.0 / COUNT(DISTINCT author)`: PRs per active author. */
  function PerDev(count: nat, authors: nat): (r: real)
    requires 0 < authors
    ensures authors <= count ==> r >= 1.0
    ensures r * authors as real == count as real
  {
    assert authors <= count ==> authors as real <= count as real;
    count as real / authors as real
  }

  /** `ORDER BY week DESC`, NULL last. */
  predicate NewestFirst(a: Option<int>, b: Option<int>)
  {
    if a.None? then b.None? else b.None? || a.value >= b.value
  }

  /** `ORDER BY month` (ascending), NULL last. */
  predicate OldestFirst(a: Option<int>, b: Option<int>)
  {
    if a.None? then b.None? else b.None? || a.value <= b.value
  }

  function WeekKey(s: WeeklyStat): Option<int> { s.week }

  /** `a` is a later week than `b`, or `b` is the NULL week. */
  predicate StrictlyNewer(a: Option<int>, b: Option<int>)
  {
    a.Some? && (b.Some? ==> a.value > b.value)
  }

  /** `a` is an earlier month than `b`, or `b` is the NULL month. */
  predicate StrictlyOlder(a: Option<int>, b: Option<int>)
  {
    a.Some? && (b.Some? ==> a.value < b.value)
  }

  /** Distinct keys sorted newest first are strictly decreasing, NULL only last. */
  lemma StrictlyNewestFirst(a: Option<int>, b: Option<int>)
    requires NewestFirst(a, b) && a != b
    ensures StrictlyNewer(a, b)
  {
  }

  /** `w` is among the keys of `t`, or `t` holds `limit` rows whose keys
      are all at least as recent. */
  predicate KeyListed<S>(t: seq<S>, keyOf: S -> Option<int>, limit: nat, w: Option<int>)
  {
    || (exists i :: 0 <= i < |t| && keyOf(t[i]) == w)
    || (|t| == limit && forall i :: 0 <= i < |t| ==> NewestFirst(keyOf(t[i]), w))
  }

  /** `GROUP BY key ORDER BY key DESC LIMIT n` on a date key. */
  function NewestGroups<S(!new)>(rows: seq<Row>, key: Row -> Option<int>, build: (Option<int>, seq<Row>) --> S,
                                 keyOf: S -> Option<int>, n: nat): (t: seq<S>)
    requires forall k, g: seq<Row> :: g != [] ==> build.requires(k, g) && keyOf(build(k, g)) == k
    ensures |t| <= n
    ensures forall i, j :: 0 <= i < j < |t| ==> StrictlyNewer(keyOf(t[i]), keyOf(t[j]))
    ensures forall i :: 0 <= i < |t| ==> (Group(rows, key, keyOf(t[i])) != []
      && t[i] == build(keyOf(t[i]), Group(rows, key, keyOf(t[i]))))
    ensures forall r :: r in rows ==> KeyListed(t, keyOf, n, key(r))
  {
    var before := (a: S, b: S) => NewestFirst(keyOf(a), keyOf(b));
    var all := GroupTable(rows, key, build, keyOf, before);
    var t := Prefix(all, n);
    forall i, j | 0 <= i < j < |t|
      ensures StrictlyNewer(keyOf(t[i]), keyOf(t[j]))
    {
      assert before(all[i], all[j]);
      StrictlyNewestFirst(keyOf(all[i]), keyOf(all[j]));
    }
    forall r | r in rows
      ensures KeyListed(t, keyOf, n, key(r))
    {
      var k :| 0 <= k < |all| && keyOf(all[k]) == key(r);
      PrefixCover(all, n, all[k], before);
    }
    t
  }

  /** `GROUP BY week ORDER BY week DESC LIMIT 6`: the six most recent weeks. */
  function GetWeeklyStats(rows: seq<Row>): (t: seq<WeeklyStat>)
    ensures |t| <= 6
    ensures forall i, j :: 0 <= i < j < |t| ==> StrictlyNewer(t[i].week, t[j].week)
    ensures forall i :: 0 <= i < |t| ==> (Group(rows, WeekOf, t[i].week) != []
      && t[i] == WeeklyStatOf(t[i].week, Group(rows, WeekOf, t[i].week)))
    ensures forall r :: r in rows ==> KeyListed(t, WeekKey, 6, WeekOf(r))
  {
    NewestGroups(rows, WeekOf, WeeklyStatOf, WeekKey, 6)
  }

  // ---------------------------------------------------------------------
  // get_author_weekly_stats

  datatype AuthorWeekStat = AuthorWeekStat(
    week: Option<int>,
    prCount: nat,
    mergedCount: nat,
    avgPrSize: Option<real>,
    avgMergeTime: Option<real>,
    mergeRate: real)

  function AuthorWeekStatOf(week: Option<int>, group: seq<Row>): (s: AuthorWeekStat)
    requires group != []
    ensures s.week == week && s.prCount == |group| >= 1
    ensures s.mergedCount == MergedCount(group) <= s.prCount
    ensures s.mergeRate == Rate(s.mergedCount, s.prCount) && 0.0 <= s.mergeRate <= 100.0
    ensures s.avgPrSize == AvgSize(group) && s.avgMergeTime == AvgMergeTime(group)
  {
    AuthorWeekStat(week, |group|, MergedCount(group), AvgSize(group), AvgMergeTime(group),
                   Rate(MergedCount(group), |group|))
  }

  function AuthorWeekKey(s: AuthorWeekStat): Option<int> { s.week }

  /** `WHERE author = '<author>' GROUP BY week ORDER BY week DESC LIMIT 6`:
      only the author's rows are counted. */
  function GetAuthorWeeklyStats(rows: seq<Row>, author: string): (t: seq<AuthorWeekStat>)
    ensures |t| <= 6
    ensures forall i, j :: 0 <= i < j < |t| ==> StrictlyNewer(t[i].week, t[j].week)
    ensures forall i :: 0 <= i < |t| ==>
      var g := Group(Group(rows, AuthorOf, author), WeekOf, t[i].week);
      g != [] && t[i] == AuthorWeekStatOf(t[i].week, g) && forall r :: r in g ==> r.author == author && r in rows
    ensures forall r :: r in rows && r.author == author ==> KeyListed(t, AuthorWeekKey, 6, WeekOf(r))
  {
    var mine := Group(rows, AuthorOf, author);
    assert forall r :: r in rows && r.author == author ==> r in mine;
    NewestGroups(mine, WeekOf, AuthorWeekStatOf, AuthorWeekKey, 6)
  }

  // ---------------------------------------------------------------------
  // get_top_authors

  datatype AuthorCount = AuthorCount(author: string, prCount: nat)

  function AuthorCountOf(author: string, group: seq<Row>): (s: AuthorCount)
    ensures s.author == author && s.prCount == |group|
  {
    AuthorCount(author, |group|)
  }

  predicate CountDesc(a: AuthorCount, b: AuthorCount) { a.prCount >= b.prCount }

  function CountKey(s: AuthorCount): string { s.author }

  /** The author of `r` is in the top list, or the list is full of authors
      with at least as many PRs. */
  predicate TopAuthorListed(rows: seq<Row>, t: seq<AuthorCount>, limit: nat, r: Row)
  {
    || (exists i :: 0 <= i < |t| && t[i].author == r.author)
    || (|t| == limit && forall i :: 0 <= i < |t| ==> t[i].prCount >= |Group(rows, AuthorOf, r.author)|)
  }

  /** Every author's PR count, most PRs first. */
  function AuthorCounts(rows: seq<Row>): (t: seq<AuthorCount>)
    ensures SortedBy(t, CountDesc)
    ensures forall i, j :: 0 <= i < j < |t| ==> t[i].author != t[j].author
    ensures forall i :: 0 <= i < |t| ==> t[i].prCount == |Group(rows, AuthorOf, t[i].author)| >= 1
    ensures forall r :: r in rows ==> exists i :: 0 <= i < |t| && t[i].author == r.author
  {
    GroupTable(rows, AuthorOf, AuthorCountOf, CountKey, CountDesc)
  }

  /** `GROUP BY author ORDER BY pr_count DESC LIMIT <limit>`. */
  function GetTopAuthors(rows: seq<Row>, limit: nat): (t: seq<AuthorCount>)
    ensures |t| <= limit
    ensures forall i, j :: 0 <= i < j < |t| ==> t[i].prCount >= t[j].prCount
    ensures forall i, j :: 0 <= i < j < |t| ==> t[i].author != t[j].author
    ensures forall i :: 0 <= i < |t| ==> t[i].prCount == |Group(rows, AuthorOf, t[i].author)| >= 1
    ensures forall r :: r in rows ==> TopAuthorListed(rows, t, limit, r)
  {
    TopAuthorsCover(rows, limit);
    TopAuthorsSorted(rows, limit);
    Prefix(AuthorCounts(rows), limit)
  }

  lemma TopAuthorsCover(rows: seq<Row>, limit: nat)
    ensures forall r :: r in rows ==> TopAuthorListed(rows, Prefix(AuthorCounts(rows), limit), limit, r)
  {
    var all := AuthorCounts(rows);
    forall r | r in rows
      ensures TopAuthorListed(rows, Prefix(all, limit), limit, r)
    {
      var k :| 0 <= k < |all| && all[k].author == r.author;
      CutCover(all, limit, all[k]);
    }
  }

  /** A count-sorted table cut by LIMIT keeps an author, or is full of
      authors with at least as many PRs. */
  lemma CutCover(all: seq<AuthorCount>, limit: nat, a: AuthorCount)
    requires a in all && SortedBy(all, CountDesc)
    ensures var t := Prefix(all, limit);
      || (exists i :: 0 <= i < |t| && t[i].author == a.author)
      || (|t| == limit && forall i :: 0 <= i < |t| ==> t[i].prCount >= a.prCount)
  {
    var t := Prefix(all, limit);
    PrefixCover(all, limit, a, CountDesc);
    if a in t {
      var j :| 0 <= j < |t| && t[j] == a;
      assert t[j].author == a.author;
    } else {
      forall i | 0 <= i < |t|
        ensures t[i].prCount >= a.prCount
      {
        assert CountDesc(t[i], a);
      }
    }
  }

  lemma TopAuthorsSorted(rows: seq<Row>, limit: nat)
    ensures var t := Prefix(AuthorCounts(rows), limit);
      forall i, j :: 0 <= i < j < |t| ==> t[i].prCount >= t[j].prCount
  {
    var all := AuthorCounts(rows);
    assert forall i, j :: 0 <= i < j < |Prefix(all, limit)| ==> CountDesc(all[i], all[j]);
  }


  // ---------------------------------------------------------------------
  // get_monthly_stats

  datatype MonthlyStat = MonthlyStat(
    month: Option<int>,
    prCount: nat,
    mergedCount: nat,
    activeAuthors: nat,
    avgPrSize: Option<real>)

  function MonthlyStatOf(month: Option<int>, group: seq<Row>): (s: MonthlyStat)
    requires group != []
    ensures s.month == month && s.prCount == |group|
    ensures s.activeAuthors == CountDistinct(group, AuthorOf) && 1 <= s.activeAuthors <= s.prCount
    ensures s.mergedCount == MergedCount(group) <= s.prCount
    ensures s.avgPrSize == AvgSize(group)
  {
    MonthlyStat(month, |group|, MergedCount(group), CountDistinct(group, AuthorOf), AvgSize(group))
  }

  /** Distinct keys sorted oldest first are strictly increasing, NULL only last. */
  lemma StrictlyOldestFirst(a: Option<int>, b: Option<int>)
    requires OldestFirst(a, b) && a != b
    ensures StrictlyOlder(a, b)
  {
  }

  predicate MonthOldestFirst(a: MonthlyStat, b: MonthlyStat) { OldestFirst(a.month, b.month) }

  function MonthKey(s: MonthlyStat): Option<int> { s.month }

  lemma MonthsAscending(t: seq<MonthlyStat>)
    requires SortedBy(t, MonthOldestFirst)
    requires forall i, j :: 0 <= i < j < |t| ==> MonthKey(t[i]) != MonthKey(t[j])
    ensures forall i, j :: 0 <= i < j < |t| ==> StrictlyOlder(t[i].month, t[j].month)
  {
    forall i, j | 0 <= i < j < |t|
      ensures StrictlyOlder(t[i].month, t[j].month)
    {
      assert MonthOldestFirst(t[i], t[j]) && MonthKey(t[i]) != MonthKey(t[j]);
      StrictlyOldestFirst(t[i].month, t[j].month);
    }
  }

  /** `GROUP BY month ORDER BY month`: every month, oldest first, no limit. */
  function GetMonthlyStats(rows: seq<Row>): (t: seq<MonthlyStat>)
    ensures forall i, j :: 0 <= i < j < |t| ==> StrictlyOlder(t[i].month, t[j].month)
    ensures forall i :: 0 <= i < |t| ==> (Group(rows, MonthOf, t[i].month) != []
      && t[i] == MonthlyStatOf(t[i].month, Group(rows, MonthOf, t[i].month)))
    ensures forall r :: r in rows ==> exists i :: 0 <= i < |t| && t[i].month == MonthOf(r)
  {
    var t := GroupTable(rows, MonthOf, MonthlyStatOf, MonthKey, MonthOldestFirst);
    MonthsAscending(t);
    t
  }
}
