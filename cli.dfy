/** The collection run of the command-line entry point
    (src/pr_metrics/cli.py): the fetched PR lists become `all_prs_data`, the
    rows are filtered by the minimum PR count per repository, and what is
    written (every row, to the Hive store) differs from what is reported and
    saved as CSV (the filtered rows).  The fetches and the clock are inputs. */
module Cli {
  import opened Wrappers
  import opened Ordering
  import opened Records
  import opened Queries
  import opened Utils
  import opened Processor
  import opened Storage

  // ---------------------------------------------------------------------
  // all_prs_data

  /** No repository name occurs twice (the keys of a dict). */
  predicate UniqueRepos(d: seq<RepoPrs>)
  {
    forall i, j :: 0 <= i < j < |d| ==> d[i].repo != d[j].repo
  }

  /** `d[e.repo] = e.prs`: a present key keeps its place and takes the new
      value; a new key goes last. */
  function Put(d: seq<RepoPrs>, e: RepoPrs): (r: seq<RepoPrs>)
    ensures e in r
    ensures forall x :: x in r ==> x == e || x in d
    ensures forall x :: x in d && x.repo != e.repo ==> x in r
    ensures (forall x :: x in d ==> x.repo != e.repo) ==> r == d + [e]
  {
    if d == [] then [e]
    else
      assert forall x :: x in d <==> x == d[0] || x in d[1..];
      if d[0].repo == e.repo then
        [e] + d[1..]
      else
        [d[0]] + Put(d[1..], e)
  }

  /** Assigning a key keeps the keys unique. */
  lemma {:induction false} PutUnique(d: seq<RepoPrs>, e: RepoPrs)
    requires UniqueRepos(d)
    ensures UniqueRepos(Put(d, e))
  {
    if d != [] {
      var tail := d[1..];
      forall x | x in tail
        ensures x.repo != d[0].repo
      {
        var k :| 0 <= k < |tail| && tail[k] == x;
        assert d[k + 1] == x;
      }
      var r := Put(d, e);
      if d[0].repo != e.repo {
        PutUnique(tail, e);
      }
      forall i, j | 0 <= i < j < |r|
        ensures r[i].repo != r[j].repo
      {
        if i == 0 {
          assert r[j] in r[1..];
        } else {
          assert r[i] == r[1..][i - 1] && r[j] == r[1..][j - 1];
          if d[0].repo == e.repo {
            assert r[i] == tail[i - 1] && r[j] == tail[j - 1];
          }
        }
      }
    }
  }

  /** `all_prs_data` after the fetch loop over `(repo_name, prs)` pairs:
      only non-empty PR lists are stored. */
  function AllPrsData(fetched: seq<RepoPrs>): seq<RepoPrs>
  {
    if fetched == [] then []
    else
      var data := AllPrsData(fetched[..|fetched| - 1]);
      var last := fetched[|fetched| - 1];
      if last.prs != [] then Put(data, last) else data
  }

  /** The fetch loop of `main`. */
  method CollectPrs(fetched: seq<RepoPrs>) returns (data: seq<RepoPrs>)
    ensures data == AllPrsData(fetched)
  {
    data := [];
    for i := 0 to |fetched|
      invariant data == AllPrsData(fetched[..i])
    {
      assert fetched[..i + 1][..i] == fetched[..i];
      var entry := fetched[i];
      if entry.prs != [] {
        data := Put(data, entry);
      }
    }
    assert fetched[..|fetched|] == fetched;
  }

  /** Every stored list is non-empty, fetched for its repository, and the
      keys are unique. */
  lemma {:induction false} AllPrsDataEntries(fetched: seq<RepoPrs>)
    ensures UniqueRepos(AllPrsData(fetched))
    ensures forall e :: e in AllPrsData(fetched) ==> e.prs != [] && e in fetched
  {
    if fetched != [] {
      var init := fetched[..|fetched| - 1];
      AllPrsDataEntries(init);
      assert forall e :: e in init ==> e in fetched;
      PutUnique(AllPrsData(init), fetched[|fetched| - 1]);
    }
  }

  /** Every repository with a non-empty PR list has an entry. */
  lemma {:induction false} AllPrsDataComplete(fetched: seq<RepoPrs>, i: nat)
    requires i < |fetched| && fetched[i].prs != []
    ensures exists e :: e in AllPrsData(fetched) && e.repo == fetched[i].repo
  {
    var init := fetched[..|fetched| - 1];
    var last := fetched[|fetched| - 1];
    if i < |fetched| - 1 {
      assert init[i] == fetched[i];
      AllPrsDataComplete(init, i);
      var e :| e in AllPrsData(init) && e.repo == fetched[i].repo;
      if last.prs != [] && e.repo == last.repo {
        assert last in AllPrsData(fetched);
      } else {
        assert e in AllPrsData(fetched);
      }
    } else {
      assert last in AllPrsData(fetched);
    }
  }

  /** The fetch for this repository returned some PRs. */
  function FetchedAny(e: RepoPrs): bool { e.prs != [] }

  /** With distinct repository names (a search result or a repository list
      is), the dict is the non-empty lists in fetch order. */
  lemma {:induction false} AllPrsDataOfDistinct(fetched: seq<RepoPrs>)
    requires UniqueRepos(fetched)
    ensures AllPrsData(fetched) == Filter(fetched, FetchedAny)
  {
    if fetched != [] {
      var init := fetched[..|fetched| - 1];
      var last := fetched[|fetched| - 1];
      assert fetched == init + [last];
      AllPrsDataOfDistinct(init);
      FilterSnoc(init, last, FetchedAny);
      forall x | x in AllPrsData(init)
        ensures x.repo != last.repo
      {
        var k :| 0 <= k < |init| && init[k] == x;
        assert fetched[k] == x;
      }
    }
  }

  // ---------------------------------------------------------------------
  // The minimum-PRs filter

  /** `df['repo'].value_counts()[repo]`. */
  function RepoCount(rows: seq<Row>, repo: string): nat
  {
    |Group(rows, RepoOf, repo)|
  }

  function QualifiesTest(rows: seq<Row>, minPrs: int): string -> bool
  {
    (repo: string) => RepoCount(rows, repo) >= minPrs
  }

  /** `repo_counts[repo_counts >= min_prs].index`: the repositories with at
      least `min_prs` rows. */
  function QualifyingRepos(rows: seq<Row>, minPrs: int): (active: seq<string>)
    ensures Distinct(active)
    ensures forall repo :: repo in active <==> RepoCount(rows, repo) > 0 && RepoCount(rows, repo) >= minPrs
  {
    var all := Keys(rows, RepoOf);
    var active := Filter(all, QualifiesTest(rows, minPrs));
    assert Distinct(active) by {
      FilterDistinct(all, QualifiesTest(rows, minPrs));
    }
    active
  }

  function RowInTest(active: seq<string>): Row -> bool
  {
    (r: Row) => r.repo in active
  }

  datatype MinPrsOutcome = NoQualifyingRepos | Kept(rows: seq<Row>, filteredCount: int)

  /** The filter of `main`: none qualifying stops the run; otherwise the
      rows of qualifying repositories are kept and the others counted. */
  function MinPrsFilter(rows: seq<Row>, minPrs: int): (o: MinPrsOutcome)
    ensures o.NoQualifyingRepos? <==> forall r :: r in rows ==> RepoCount(rows, r.repo) < minPrs
    ensures o.Kept? ==> forall r :: r in o.rows <==> r in rows && RepoCount(rows, r.repo) >= minPrs
    ensures o.Kept? ==> o.filteredCount == |Keys(rows, RepoOf)| - |QualifyingRepos(rows, minPrs)|
  {
    var active := QualifyingRepos(rows, minPrs);
    RepoCountPositive(rows);
    if active == [] then
      assert forall r :: r in rows ==> r.repo !in active;
      NoQualifyingRepos
    else
      QualifyingWitness(rows, minPrs);
      Kept(Filter(rows, RowInTest(active)), |Keys(rows, RepoOf)| - |active|)
  }

  /** Every row's repository has at least that row. */
  lemma RepoCountPositive(rows: seq<Row>)
    ensures forall r :: r in rows ==> RepoCount(rows, r.repo) > 0
  {
    forall r | r in rows
      ensures RepoCount(rows, r.repo) > 0
    {
      assert r in Group(rows, RepoOf, r.repo);
    }
  }

  /** A qualifying repository has a row that reaches the minimum. */
  lemma QualifyingWitness(rows: seq<Row>, minPrs: int)
    requires QualifyingRepos(rows, minPrs) != []
    ensures exists r :: r in rows && RepoCount(rows, r.repo) >= minPrs
  {
    var r0 := QualifyingRepos(rows, minPrs)[0];
    assert Group(rows, RepoOf, r0) != [];
    assert Group(rows, RepoOf, r0)[0] in rows;
  }

  /** `filtered_count` is the number of repositories with too few rows, so
      it is never negative. */
  lemma FilteredCountIsDropped(rows: seq<Row>, minPrs: int)
    requires MinPrsFilter(rows, minPrs).Kept?
    ensures MinPrsFilter(rows, minPrs).filteredCount
         == |Filter(Keys(rows, RepoOf), Not(QualifiesTest(rows, minPrs)))|
    ensures MinPrsFilter(rows, minPrs).filteredCount >= 0
  {
    FilterSplit(Keys(rows, RepoOf), QualifiesTest(rows, minPrs));
  }

  /** A repository is kept or dropped whole. */
  lemma WholeRepositories(rows: seq<Row>, minPrs: int, a: Row, b: Row)
    requires MinPrsFilter(rows, minPrs).Kept? && a in rows && b in rows && a.repo == b.repo
    ensures a in MinPrsFilter(rows, minPrs).rows <==> b in MinPrsFilter(rows, minPrs).rows
  {
  }

  // ---------------------------------------------------------------------
  // What is written and what is reported

  /** The figures printed under RESULTS, over the filtered rows. */
  datatype Results = Results(totalPrs: nat, mergedPrs: nat, mergeRate: real, dailyThroughput: real,
                             avgMergeTime: Option<Option<real>>)

  /** `merged_prs / args.days` for a non-zero day count. The same quotient
      as `Reports.PerDay`, kept apart because `args.days` may be negative
      while a report's span is at least 1. */
  function PerDays(count: nat, days: int): (r: real)
    requires days != 0
    ensures r * days as real == count as real
  {
    count as real / days as real
  }

  /** The RESULTS figures; the caller has ruled out `--days 0`, for which
      the daily throughput raises `ZeroDivisionError`. */
  function ResultsOf(df: seq<Row>, days: int): (r: Results)
    requires days != 0
    ensures r.totalPrs == |df| && r.mergedPrs == MergedCount(df)
    ensures df == [] ==> r.mergeRate == 0.0
    ensures df != [] ==> r.mergeRate == Rate(MergedCount(df), |df|)
    ensures 0.0 <= r.mergeRate <= 100.0
    ensures r.dailyThroughput == PerDays(MergedCount(df), days)
    ensures r.avgMergeTime.Some? <==> MergedCount(df) > 0
  {
    var merged := MergedCount(df);
    Results(|df|, merged, if |df| > 0 then Rate(merged, |df|) else 0.0,
            PerDays(merged, days),
            if merged > 0 then Some(AvgMergeTime(df)) else None)
  }

  /** `f"{OUTPUT_DIR}/pr_data_{sanitized_org}_{timestamp}.csv"`. */
  function CsvPath(sanitizedOrg: string, timestamp: string): string
  {
    "output/pr_data_" + sanitizedOrg + "_" + timestamp + ".csv"
  }

  datatype CollectOutcome =
    | NoPrData
    | NoReposWithMinPrs
    | DaysZero
    | Saved(written: WriteOutcome, csvPath: string, csvRows: seq<Row>, filteredCount: int, results: Results)

  /** The collection half of `main` once the repositories' PR lists have
      been fetched: no rows, or no qualifying repository, stops before any
      write, and so does `--days 0`, whose throughput division raises before
      the writes; otherwise every row goes to the Hive store under the
      sanitized org while the filtered rows are reported and saved as CSV. */
  method CollectAndSave(store: HiveStore, fetched: seq<RepoPrs>, org: string, minPrs: int, days: int,
                        timestamp: string) returns (outcome: CollectOutcome)
    requires store.Valid()
    modifies store
    ensures store.Valid()
    ensures outcome.NoPrData? <==> Flatten(AllPrsData(fetched), Normalizer(org)) == []
    ensures !outcome.Saved? ==> store.partitions == old(store.partitions)
    ensures outcome.NoReposWithMinPrs? <==> (Flatten(AllPrsData(fetched), Normalizer(org)) != []
      && MinPrsFilter(Flatten(AllPrsData(fetched), Normalizer(org)), minPrs).NoQualifyingRepos?)
    ensures outcome.DaysZero? <==> (Flatten(AllPrsData(fetched), Normalizer(org)) != []
      && MinPrsFilter(Flatten(AllPrsData(fetched), Normalizer(org)), minPrs).Kept? && days == 0)
    ensures outcome.Saved? ==> (
      var rows := Flatten(AllPrsData(fetched), Normalizer(org));
      && store.partitions == Overwrite(old(store.partitions), rows)
      && outcome.written == Wrote(|rows|, |PartitionKeySet(rows, SanitizeOrgName(org))|)
      && outcome.csvRows == MinPrsFilter(rows, minPrs).rows
      && outcome.filteredCount == MinPrsFilter(rows, minPrs).filteredCount
      && outcome.csvPath == CsvPath(SanitizeOrgName(org), timestamp)
      && outcome.results == ResultsOf(outcome.csvRows, days))
  {
    var allPrsData := CollectPrs(fetched);
    var prRows := ProcessPrsToDataframe(allPrsData, org);
    if prRows == [] {
      return NoPrData;
    }
    var filtered := MinPrsFilter(prRows, minPrs);
    if filtered.NoQualifyingRepos? {
      return NoReposWithMinPrs;
    }
    if days == 0 {
      return DaysZero;
    }
    var df := filtered.rows;
    var results := ResultsOf(df, days);
    var sanitizedOrg := SanitizeOrgName(org);
    var written := store.WriteToHive(prRows, sanitizedOrg);
    outcome := Saved(written, CsvPath(sanitizedOrg, timestamp), df, filtered.filteredCount, results);
  }

  /** The rows carry the org as given while the write counts partitions
      under the sanitized org: when sanitizing changes the name, no counted
      partition is one the store writes, yet the printed number of
      partitions is still the number written. */
  lemma CountedPartitionsMissWrittenOnes(fetched: seq<RepoPrs>, org: string)
    requires SanitizeOrgName(org) != org
    ensures (var rows := Flatten(AllPrsData(fetched), Normalizer(org));
      PartitionKeySet(rows, SanitizeOrgName(org)) * WrittenKeys(rows) == {})
    ensures (var rows := Flatten(AllPrsData(fetched), Normalizer(org));
      |PartitionKeySet(rows, SanitizeOrgName(org))| == |WrittenKeys(rows)|)
  {
    var rows := Flatten(AllPrsData(fetched), Normalizer(org));
    forall k | k in WrittenKeys(rows)
      ensures k.org == org
    {
      var i :| 0 <= i < |rows| && EngineKey(rows[i]).Some? && EngineKey(rows[i]).value == k;
      FlattenOrigin(AllPrsData(fetched), Normalizer(org), rows[i]);
    }
    forall i | 0 <= i < |rows|
      ensures rows[i].org == Some(org)
    {
      assert rows[i] in rows;
      FlattenOrigin(AllPrsData(fetched), Normalizer(org), rows[i]);
    }
    CountedAreWritten(rows, org);
    PartitionCountOrgFree(rows, SanitizeOrgName(org), org);
  }
}
