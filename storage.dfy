/** Hive-partitioned storage and the two-tier loader (src/pr_metrics/storage.py).
    The store is a map from partition key (org, repo, year, month) to the
    rows kept in that partition; a Hive scan and the legacy snapshot files
    are inputs (what the engine reads, or fails to read). */
module Storage {
  import opened Wrappers
  import opened Time
  import opened Strings
  import opened Ordering
  import opened Records
  import opened Utils
  import opened Files

  // ---------------------------------------------------------------------
  // Partition paths

  datatype PartitionKey = PartitionKey(org: string, repo: string, year: int, month: int)

  /** The four `key=value` directory names below the base directory. */
  function PartitionSegments(org: string, repo: string, createdAt: Instant): seq<string>
  {
    ["org=" + org, "repo=" + repo, "year=" + NatToString(createdAt.year), "month=" + Pad2(createdAt.month)]
  }

  /** `get_partition_path`: base/org=<org>/repo=<repo>/year=<yyyy>/month=<mm>;
      `Path("") / x` is just `x`. */
  function PartitionPath(base: string, org: string, repo: string, createdAt: Instant): string
  {
    var tail := Join(PartitionSegments(org, repo, createdAt), "/");
    if base == "" then tail else base + "/" + tail
  }

  /** The value of a `name=value` directory name: everything after the
      first `=` when the key is `name`. */
  function FieldValue(segment: string, name: string): (v: Option<string>)
    ensures v.Some? ==> segment == name + "=" + v.value
  {
    if StartsWith(segment, name + "=") then
      assert segment == segment[..|name| + 1] + segment[|name| + 1..];
      Some(segment[|name| + 1..])
    else None
  }

  /** Hive partition inference: the key columns read back from the last
      four directory names, year and month as integers. */
  function ParsePartitionPath(path: string): Option<PartitionKey>
  {
    var parts := Split(path, '/');
    var n := |parts|;
    if n < 4 then None
    else
      var org := FieldValue(parts[n - 4], "org");
      var repo := FieldValue(parts[n - 3], "repo");
      var year := FieldValue(parts[n - 2], "year");
      var month := FieldValue(parts[n - 1], "month");
      if org.Some? && repo.Some? && year.Some? && month.Some?
         && year.value != "" && IsDigits(year.value) && month.value != "" && IsDigits(month.value)
      then Some(PartitionKey(org.value, repo.value, ParseNat(year.value), ParseNat(month.value)))
      else None
  }

  lemma FieldValueOf(name: string, value: string)
    ensures FieldValue(name + "=" + value, name) == Some(value)
  {
    var s := name + "=" + value;
    assert s[..|name| + 1] == name + "=";
    assert s[|name| + 1..] == value;
  }

  lemma {:induction false} SegmentsFree(org: string, repo: string, createdAt: Instant)
    requires Free(org, '/') && Free(repo, '/')
    ensures forall i :: 0 <= i < 4 ==> Free(PartitionSegments(org, repo, createdAt)[i], '/')
  {
    var segs := PartitionSegments(org, repo, createdAt);
    assert IsDigits(NatToString(createdAt.year)) && IsDigits(Pad2(createdAt.month));
    assert forall i :: 0 <= i < |segs[2]| ==> segs[2][i] != '/' by {
      forall i | 0 <= i < |segs[2]| ensures segs[2][i] != '/' {
        if i >= 5 { assert segs[2][i] == NatToString(createdAt.year)[i - 5]; }
      }
    }
    assert forall i :: 0 <= i < |segs[3]| ==> segs[3][i] != '/' by {
      forall i | 0 <= i < |segs[3]| ensures segs[3][i] != '/' {
        if i >= 6 { assert segs[3][i] == Pad2(createdAt.month)[i - 6]; }
      }
    }
    assert forall i :: 0 <= i < |segs[0]| ==> segs[0][i] != '/' by {
      forall i | 0 <= i < |segs[0]| ensures segs[0][i] != '/' {
        if i >= 4 { assert segs[0][i] == org[i - 4]; }
      }
    }
    assert forall i :: 0 <= i < |segs[1]| ==> segs[1][i] != '/' by {
      forall i | 0 <= i < |segs[1]| ensures segs[1][i] != '/' {
        if i >= 5 { assert segs[1][i] == repo[i - 5]; }
      }
    }
  }

  /** Reading a partition path back yields the org and repo written into it
      and the year and month of the PR's creation time, whatever the base
      directory, as long as org and repo contain no `/`. */
  lemma PartitionPathRoundTrip(base: string, org: string, repo: string, createdAt: Instant)
    requires Free(org, '/') && Free(repo, '/')
    ensures ParsePartitionPath(PartitionPath(base, org, repo, createdAt))
         == Some(PartitionKey(org, repo, createdAt.year, createdAt.month))
  {
    PathTail(base, org, repo, createdAt);
    ParseSegments(PartitionPath(base, org, repo, createdAt), org, repo, createdAt);
  }

  /** The last four `/`-separated parts of a partition path are its four
      directory names. */
  lemma PathTail(base: string, org: string, repo: string, createdAt: Instant)
    requires Free(org, '/') && Free(repo, '/')
    ensures var parts := Split(PartitionPath(base, org, repo, createdAt), '/');
      |parts| >= 4 && parts[|parts| - 4..] == PartitionSegments(org, repo, createdAt)
  {
    var segs := PartitionSegments(org, repo, createdAt);
    var tail := Join(segs, "/");
    SegmentsFree(org, repo, createdAt);
    SplitJoin(segs, '/');
    if base != "" {
      assert PartitionPath(base, org, repo, createdAt) == base + ['/'] + tail;
      SplitConcat(base, '/', tail);
    }
  }

  /** A path ending in the four directory names of a key parses to it. */
  lemma ParseSegments(path: string, org: string, repo: string, createdAt: Instant)
    requires var parts := Split(path, '/');
      |parts| >= 4 && parts[|parts| - 4..] == PartitionSegments(org, repo, createdAt)
    ensures ParsePartitionPath(path) == Some(PartitionKey(org, repo, createdAt.year, createdAt.month))
  {
    SegmentFields(Split(path, '/'), org, repo, createdAt);
    ParseNatToString(createdAt.year);
  }

  /** The four directory names read back as the key's fields. */
  lemma SegmentFields(parts: seq<string>, org: string, repo: string, createdAt: Instant)
    requires |parts| >= 4 && parts[|parts| - 4..] == PartitionSegments(org, repo, createdAt)
    ensures var n := |parts|;
      && FieldValue(parts[n - 4], "org") == Some(org)
      && FieldValue(parts[n - 3], "repo") == Some(repo)
      && FieldValue(parts[n - 2], "year") == Some(NatToString(createdAt.year))
      && FieldValue(parts[n - 1], "month") == Some(Pad2(createdAt.month))
  {
    var n := |parts|;
    var segs := PartitionSegments(org, repo, createdAt);
    assert parts[n - 4] == segs[0] && parts[n - 3] == segs[1];
    assert parts[n - 2] == segs[2] && parts[n - 1] == segs[3];
    FieldValueOf("org", org);
    FieldValueOf("repo", repo);
    FieldValueOf("year", NatToString(createdAt.year));
    FieldValueOf("month", Pad2(createdAt.month));
  }

  // ---------------------------------------------------------------------
  // Writing

  /** The partition `write_to_hive` counts a row in: the org argument, the
      row's repo, and its creation year and month; undated rows count nowhere. */
  function CountedKey(r: Row, org: string): Option<PartitionKey>
  {
    if r.createdAt.Some? then Some(PartitionKey(org, r.repo, r.createdAt.value.year, r.createdAt.value.month))
    else None
  }

  /** The `partitions` set of `write_to_hive`. */
  function PartitionKeySet(batch: seq<Row>, org: string): (keys: set<PartitionKey>)
    ensures forall k :: k in keys <==> exists i :: 0 <= i < |batch| && CountedKey(batch[i], org) == Some(k)
    ensures |keys| <= |batch|
  {
    if batch == [] then {}
    else
      var init := PartitionKeySet(batch[..|batch| - 1], org);
      var last := batch[|batch| - 1];
      assert forall i :: 0 <= i < |batch| - 1 ==> batch[..|batch| - 1][i] == batch[i];
      if last.createdAt.Some? then init + {CountedKey(last, org).value} else init
  }

  /** The counting loop of `write_to_hive`. */
  method CountPartitions(batch: seq<Row>, org: string) returns (partitions: set<PartitionKey>)
    ensures partitions == PartitionKeySet(batch, org)
  {
    partitions := {};
    for i := 0 to |batch|
      invariant partitions == PartitionKeySet(batch[..i], org)
    {
      var pr := batch[i];
      assert batch[..i + 1][..i] == batch[..i];
      if pr.createdAt.Some? {
        partitions := partitions + {PartitionKey(org, pr.repo, pr.createdAt.value.year, pr.createdAt.value.month)};
      }
    }
    assert batch[..|batch|] == batch;
  }

  /** The partition the engine places a row in: the row's own org column,
      its repo and its creation year and month. */
  function EngineKey(r: Row): Option<PartitionKey>
  {
    if r.org.Some? && r.createdAt.Some? then
      Some(PartitionKey(r.org.value, r.repo, r.createdAt.value.year, r.createdAt.value.month))
    else None
  }

  /** The partitions a COPY of `batch` writes. */
  function WrittenKeys(batch: seq<Row>): set<PartitionKey>
  {
    set i | 0 <= i < |batch| && EngineKey(batch[i]).Some? :: EngineKey(batch[i]).value
  }

  /** The rows of `batch` the engine places in partition `k`, in batch order. */
  function PartitionRows(batch: seq<Row>, k: PartitionKey): (rows: seq<Row>)
    ensures forall r :: r in rows <==> r in batch && EngineKey(r) == Some(k)
  {
    Filter(batch, (r: Row) => EngineKey(r) == Some(k))
  }

  /** The engine's `COPY ... PARTITION_BY (org, repo, year, month),
      OVERWRITE_OR_IGNORE`, taken as: every partition the batch touches is
      replaced by the batch's rows for it; every other partition is kept. */
  function Overwrite(store: map<PartitionKey, seq<Row>>, batch: seq<Row>): (s: map<PartitionKey, seq<Row>>)
    ensures s.Keys == store.Keys + WrittenKeys(batch)
    ensures forall k :: k in store && k !in WrittenKeys(batch) ==> s[k] == store[k]
    ensures forall k :: k in WrittenKeys(batch) ==> s[k] == PartitionRows(batch, k) && s[k] != []
  {
    var written := WrittenKeys(batch);
    assert forall k :: k in written ==> PartitionRows(batch, k) != [] by {
      forall k | k in written ensures PartitionRows(batch, k) != [] {
        var i :| 0 <= i < |batch| && EngineKey(batch[i]).Some? && EngineKey(batch[i]).value == k;
        assert batch[i] in PartitionRows(batch, k);
      }
    }
    map k | k in store.Keys + written :: if k in written then PartitionRows(batch, k) else store[k]
  }

  /** Writing the same batch twice leaves what writing it once does. */
  lemma OverwriteIdempotent(store: map<PartitionKey, seq<Row>>, batch: seq<Row>)
    ensures Overwrite(Overwrite(store, batch), batch) == Overwrite(store, batch)
  {
  }

  /** Every dated row that carries an org is stored in its partition. */
  lemma OverwriteStoresEveryRow(store: map<PartitionKey, seq<Row>>, batch: seq<Row>, i: nat)
    requires i < |batch| && EngineKey(batch[i]).Some?
    ensures EngineKey(batch[i]).value in Overwrite(store, batch)
    ensures batch[i] in Overwrite(store, batch)[EngineKey(batch[i]).value]
  {
    assert EngineKey(batch[i]).value in WrittenKeys(batch);
  }

  /** When every row carries the org argument (as the normalizer's rows do),
      the counted partitions are exactly the partitions written. */
  lemma CountedAreWritten(batch: seq<Row>, org: string)
    requires forall i :: 0 <= i < |batch| ==> batch[i].org == Some(org)
    ensures PartitionKeySet(batch, org) == WrittenKeys(batch)
  {
    forall k
      ensures k in PartitionKeySet(batch, org) <==> k in WrittenKeys(batch)
    {
      if k in WrittenKeys(batch) {
        var i :| 0 <= i < |batch| && EngineKey(batch[i]).Some? && EngineKey(batch[i]).value == k;
        assert CountedKey(batch[i], org) == Some(k);
      }
    }
  }

  /** The number of counted partitions does not depend on the org they are
      labelled with: only repo, year and month tell them apart. */
  lemma {:induction false} PartitionCountOrgFree(batch: seq<Row>, org1: string, org2: string)
    ensures |PartitionKeySet(batch, org1)| == |PartitionKeySet(batch, org2)|
  {
    if batch != [] {
      var init := batch[..|batch| - 1];
      var last := batch[|batch| - 1];
      PartitionCountOrgFree(init, org1, org2);
      if last.createdAt.Some? {
        var k1 := CountedKey(last, org1).value;
        var k2 := CountedKey(last, org2).value;
        CountedMemberOrgFree(init, last, org1, org2);
        AddOneCard(PartitionKeySet(init, org1), PartitionKeySet(init, org2), k1, k2);
      } else {
        assert PartitionKeySet(batch, org1) == PartitionKeySet(init, org1);
        assert PartitionKeySet(batch, org2) == PartitionKeySet(init, org2);
      }
    }
  }

  /** Adding one key to sets of equal size keeps them equal in size when it
      is new to both or to neither. */
  lemma AddOneCard(s1: set<PartitionKey>, s2: set<PartitionKey>, k1: PartitionKey, k2: PartitionKey)
    requires |s1| == |s2| && (k1 in s1 <==> k2 in s2)
    ensures |s1 + {k1}| == |s2 + {k2}|
  {
    if k1 in s1 {
      assert s1 + {k1} == s1 && s2 + {k2} == s2;
    } else {
      assert |s1 + {k1}| == |s1| + 1 && |s2 + {k2}| == |s2| + 1;
    }
  }

  /** Whether a dated row's partition was already counted does not depend
      on the org label either. */
  lemma CountedMemberOrgFree(init: seq<Row>, last: Row, org1: string, org2: string)
    requires last.createdAt.Some?
    ensures CountedKey(last, org1).value in PartitionKeySet(init, org1)
        <==> CountedKey(last, org2).value in PartitionKeySet(init, org2)
  {
    var k1 := CountedKey(last, org1).value;
    var k2 := CountedKey(last, org2).value;
    if k1 in PartitionKeySet(init, org1) {
      var i :| 0 <= i < |init| && CountedKey(init[i], org1) == Some(k1);
      assert CountedKey(init[i], org2) == Some(k2);
    }
    if k2 in PartitionKeySet(init, org2) {
      var i :| 0 <= i < |init| && CountedKey(init[i], org2) == Some(k2);
      assert CountedKey(init[i], org1) == Some(k1);
    }
  }

  datatype WriteOutcome = NothingToWrite | Wrote(prs: nat, partitions: nat)

  /** The Hive store under one base directory. */
  class HiveStore {
    var partitions: map<PartitionKey, seq<Row>>

    /** No partition directory is empty. */
    predicate Valid()
      reads this
    {
      forall k :: k in partitions ==> partitions[k] != []
    }

    constructor ()
      ensures partitions == map[] && Valid()
    {
      partitions := map[];
    }

    /** `write_to_hive(pr_data_list, org)`: an empty batch writes nothing;
        otherwise the batch is copied into its partitions and the number of
        PRs and of distinct counted partitions is reported. */
    method WriteToHive(batch: seq<Row>, org: string) returns (outcome: WriteOutcome)
      requires Valid()
      modifies this
      ensures Valid()
      ensures batch == [] ==> outcome == NothingToWrite && partitions == old(partitions)
      ensures batch != [] ==> partitions == Overwrite(old(partitions), batch)
      ensures batch != [] ==> outcome == Wrote(|batch|, |PartitionKeySet(batch, org)|)
    {
      if |batch| == 0 {
        return NothingToWrite;
      }
      partitions := Overwrite(partitions, batch);
      var counted := CountPartitions(batch, org);
      outcome := Wrote(|batch|, |counted|);
    }
  }

  // ---------------------------------------------------------------------
  // Loading

  /** Python truthiness of `days_back`. */
  predicate DaysTruthy(daysBack: Option<int>)
  {
    daysBack.Some? && daysBack.value != 0
  }

  /** One SQL WHERE condition; `cutoff` is the date `days_back` days before now. */
  datatype Clause = OrgIs(org: string) | RepoIs(repo: string) | CreatedSince(cutoff: Date)

  predicate Holds(r: Row, c: Clause)
  {
    match c
    case OrgIs(o) => r.org == Some(o)
    case RepoIs(n) => r.repo == n
    case CreatedSince(d) => r.createdAt.Some? && OnOrAfter(r.createdAt.value, d)
  }

  /** The clauses joined with AND. */
  predicate HoldsAll(r: Row, clauses: seq<Clause>)
  {
    forall i :: 0 <= i < |clauses| ==> Holds(r, clauses[i])
  }

  lemma HoldsAllSnoc(clauses: seq<Clause>, c: Clause)
    ensures forall r :: HoldsAll(r, clauses + [c]) <==> HoldsAll(r, clauses) && Holds(r, c)
  {
    forall r ensures HoldsAll(r, clauses + [c]) <==> HoldsAll(r, clauses) && Holds(r, c) {
      if HoldsAll(r, clauses + [c]) {
        assert Holds(r, (clauses + [c])[|clauses|]);
        forall i | 0 <= i < |clauses| ensures Holds(r, clauses[i]) {
          assert Holds(r, (clauses + [c])[i]);
        }
      }
    }
  }

  function Where(rows: seq<Row>, clauses: seq<Clause>): seq<Row>
  {
    Filter(rows, (r: Row) => HoldsAll(r, clauses))
  }

  function ClauseRank(c: Clause): nat
  {
    match c
    case OrgIs(_) => 0
    case RepoIs(_) => 1
    case CreatedSince(_) => 2
  }

  /** What the Hive filters mean for one row. */
  predicate HiveFilterHolds(r: Row, org: Option<string>, repo: Option<string>, daysBack: Option<int>, cutoff: Date)
  {
    && (Truthy(org) ==> r.org == org)
    && (Truthy(repo) ==> r.repo == repo.value)
    && (DaysTruthy(daysBack) ==> r.createdAt.Some? && OnOrAfter(r.createdAt.value, cutoff))
  }

  function HiveRows(rows: seq<Row>, org: Option<string>, repo: Option<string>, daysBack: Option<int>, cutoff: Date): seq<Row>
  {
    Filter(rows, (r: Row) => HiveFilterHolds(r, org, repo, daysBack, cutoff))
  }

  /** The `where_clauses` list of `load_from_hive`: org, repo, cutoff, each
      only for a truthy argument. */
  method HiveClauses(org: Option<string>, repo: Option<string>, daysBack: Option<int>, cutoff: Date)
    returns (clauses: seq<Clause>)
    ensures |clauses| == (if Truthy(org) then 1 else 0) + (if Truthy(repo) then 1 else 0) + (if DaysTruthy(daysBack) then 1 else 0)
    ensures forall i, j :: 0 <= i < j < |clauses| ==> ClauseRank(clauses[i]) < ClauseRank(clauses[j])
    ensures forall r :: HoldsAll(r, clauses) <==> HiveFilterHolds(r, org, repo, daysBack, cutoff)
  {
    clauses := [];
    if Truthy(org) {
      HoldsAllSnoc(clauses, OrgIs(org.value));
      clauses := clauses + [OrgIs(org.value)];
    }
    assert forall r :: HoldsAll(r, clauses) <==> (Truthy(org) ==> r.org == org);
    if Truthy(repo) {
      HoldsAllSnoc(clauses, RepoIs(repo.value));
      clauses := clauses + [RepoIs(repo.value)];
    }
    assert forall r :: HoldsAll(r, clauses) <==> (Truthy(org) ==> r.org == org) && (Truthy(repo) ==> r.repo == repo.value);
    if DaysTruthy(daysBack) {
      HoldsAllSnoc(clauses, CreatedSince(cutoff));
      clauses := clauses + [CreatedSince(cutoff)];
    }
  }

  /** The legacy `filters` list of `load_data`: cutoff first, then repo. */
  method LegacyClauses(repo: Option<string>, daysBack: Option<int>, cutoff: Date) returns (clauses: seq<Clause>)
    ensures clauses == [] <==> !DaysTruthy(daysBack) && !Truthy(repo)
    ensures |clauses| <= 2
    ensures forall i, j :: 0 <= i < j < |clauses| ==> ClauseRank(clauses[i]) > ClauseRank(clauses[j])
    ensures forall r :: HoldsAll(r, clauses) <==> HiveFilterHolds(r, None, repo, daysBack, cutoff)
  {
    clauses := [];
    if DaysTruthy(daysBack) {
      HoldsAllSnoc(clauses, CreatedSince(cutoff));
      clauses := clauses + [CreatedSince(cutoff)];
    }
    assert forall r :: HoldsAll(r, clauses) <==> (DaysTruthy(daysBack) ==> r.createdAt.Some? && OnOrAfter(r.createdAt.value, cutoff));
    if Truthy(repo) {
      HoldsAllSnoc(clauses, RepoIs(repo.value));
      clauses := clauses + [RepoIs(repo.value)];
    }
  }

  /** What the engine's `read_parquet('<base>/**/*.parquet', hive_partitioning=true)`
      gives: the rows with their partition columns, or an error message. */
  datatype HiveScan = Relation(rows: seq<Row>) | ScanError(message: string)

  /** A named view over a set of rows. */
  datatype View = View(name: string, rows: seq<Row>)

  /** `(con, view)`, `(None, None)`, or an exception that propagates. */
  datatype LoadResult = NoData | Loaded(view: View) | Failed(message: string)

  /** The error texts that mean "no Hive data yet". */
  predicate MissingData(message: string)
  {
    Contains(message, "No files found") || Contains(message, "does not exist")
  }

  /** The meaning of `load_from_hive`: the filtered rows as view `pr_data`,
      no data when none match or when no data has been written, and any
      other error propagated. */
  function HiveOutcome(org: Option<string>, repo: Option<string>, daysBack: Option<int>, cutoff: Date, scan: HiveScan): LoadResult
  {
    match scan
    case ScanError(message) => if MissingData(message) then NoData else Failed(message)
    case Relation(rows) =>
      var kept := HiveRows(rows, org, repo, daysBack, cutoff);
      if |kept| == 0 then NoData else Loaded(View("pr_data", kept))
  }

  /** `load_from_hive(org, repo, base_dir, days_back)`. */
  method LoadFromHive(org: Option<string>, repo: Option<string>, daysBack: Option<int>, cutoff: Date, scan: HiveScan)
    returns (result: LoadResult)
    ensures result == HiveOutcome(org, repo, daysBack, cutoff, scan)
    ensures result.Loaded? ==> result.view.name == "pr_data" && result.view.rows != []
    ensures result.Loaded? ==> forall r :: r in result.view.rows ==> HiveFilterHolds(r, org, repo, daysBack, cutoff)
  {
    var clauses := HiveClauses(org, repo, daysBack, cutoff);
    match scan
    case ScanError(message) =>
      if MissingData(message) {
        return NoData;
      }
      return Failed(message);
    case Relation(rows) =>
      var view := Where(rows, clauses);
      FilterCongruent(rows, (r: Row) => HoldsAll(r, clauses), (r: Row) => HiveFilterHolds(r, org, repo, daysBack, cutoff));
      var count := |view|;
      if count == 0 {
        return NoData;
      }
      return Loaded(View("pr_data", view));
  }

  /** The legacy candidates: matching snapshot names, newest name first. */
  function LegacyCandidates(org: Option<string>, dir: seq<DataFile>): (files: seq<DataFile>)
    ensures SortedBy(files, NameDescending)
    ensures multiset(files) == multiset(MatchingFiles(dir, LegacyPattern(org)))
  {
    SortedByNameDescending(MatchingFiles(dir, LegacyPattern(org)))
  }

  function LegacyPattern(org: Option<string>): Pattern
  {
    if Truthy(org) then Pattern("pr_data_" + SanitizeOrgName(org.value) + "_", ".parquet")
    else Pattern("pr_data_", ".parquet")
  }

  /** The first readable file's rows, trying the files in order. */
  function FirstReadable(files: seq<DataFile>): (rows: Option<seq<Row>>)
    ensures rows.None? <==> forall i :: 0 <= i < |files| ==> files[i].content.Corrupt?
    ensures rows.Some? ==> exists k :: (0 <= k < |files| && files[k].content == Parquet(rows.value)
      && forall j :: 0 <= j < k ==> files[j].content.Corrupt?)
  {
    if files == [] then None
    else if files[0].content.Parquet? then Some(files[0].content.rows)
    else
      var rest := FirstReadable(files[1..]);
      assert forall i :: 1 <= i < |files| ==> files[i] == files[1..][i - 1];
      rest
  }

  /** The files skipped before the first readable one (all, when none is). */
  function SkippedPrefix(files: seq<DataFile>): (skipped: seq<DataFile>)
    ensures |skipped| <= |files| && skipped == files[..|skipped|]
    ensures forall f :: f in skipped ==> f.content.Corrupt?
    ensures |skipped| < |files| ==> files[|skipped|].content.Parquet?
  {
    if files == [] || files[0].content.Parquet? then []
    else [files[0]] + SkippedPrefix(files[1..])
  }

  /** After a run of unreadable files, the first readable one (or the end)
      decides both the rows and the skipped files. */
  lemma {:induction false} AfterCorruptRun(files: seq<DataFile>, i: nat)
    requires i <= |files|
    requires forall j :: 0 <= j < i ==> files[j].content.Corrupt?
    ensures i < |files| && files[i].content.Parquet? ==>
      SkippedPrefix(files) == files[..i] && FirstReadable(files) == Some(files[i].content.rows)
    ensures i == |files| ==> SkippedPrefix(files) == files && FirstReadable(files).None?
  {
    if i > 0 {
      var rest := files[1..];
      AfterCorruptRun(rest, i - 1);
      assert files[..i] == [files[0]] + rest[..i - 1];
    }
  }

  /** The skip loop of `load_from_legacy`: try the files in order; the
      first that loads is returned, after the names of those skipped. */
  method FirstLoadable(files: seq<DataFile>) returns (rows: Option<seq<Row>>, skipped: seq<string>)
    ensures rows == FirstReadable(files)
    ensures skipped == MapSeq(SkippedPrefix(files), FileName)
  {
    skipped := [];
    for i := 0 to |files|
      invariant forall j :: 0 <= j < i ==> files[j].content.Corrupt?
      invariant skipped == MapSeq(files[..i], FileName)
    {
      var filepath := files[i];
      if filepath.content.Parquet? {
        AfterCorruptRun(files, i);
        return Some(filepath.content.rows), skipped;
      }
      assert files[..i + 1] == files[..i] + [filepath];
      MapSeqSnoc(files[..i], filepath, FileName);
      skipped := skipped + [filepath.name];
    }
    AfterCorruptRun(files, |files|);
    assert files[..|files|] == files;
    return None, skipped;
  }

  /** `load_from_legacy(org, output_dir)`: the candidates newest first; the
      first that loads becomes view `pr_data`. */
  method LoadFromLegacy(org: Option<string>, dir: seq<DataFile>) returns (view: Option<View>, skipped: seq<string>)
    ensures var files := LegacyCandidates(org, dir);
      && (view.None? <==> FirstReadable(files).None?)
      && (view.Some? ==> view.value == View("pr_data", FirstReadable(files).value))
      && skipped == MapSeq(SkippedPrefix(files), FileName)
  {
    var files := LegacyCandidates(org, dir);
    var rows;
    rows, skipped := FirstLoadable(files);
    if rows.None? {
      return None, skipped;
    }
    return Some(View("pr_data", rows.value)), skipped;
  }

  /** `load_data`: the Hive result whenever Hive has data or fails;
      otherwise the legacy snapshot, behind view `pr_data_filtered` exactly
      when a cutoff or a repo filter applies.  The org filter reaches the
      legacy tier only through the file-name pattern. */
  method LoadData(org: Option<string>, repo: Option<string>, daysBack: Option<int>, cutoff: Date,
                  scan: HiveScan, legacyDir: seq<DataFile>)
    returns (result: LoadResult, skipped: seq<string>)
    ensures var hive := HiveOutcome(org, repo, daysBack, cutoff, scan);
      !hive.NoData? ==> result == hive && skipped == []
    ensures var hive := HiveOutcome(org, repo, daysBack, cutoff, scan);
      var legacy := FirstReadable(LegacyCandidates(org, legacyDir));
      hive.NoData? ==>
        && skipped == MapSeq(SkippedPrefix(LegacyCandidates(org, legacyDir)), FileName)
        && (legacy.None? ==> result == NoData)
        && (legacy.Some? && (DaysTruthy(daysBack) || Truthy(repo)) ==>
              result == Loaded(View("pr_data_filtered", HiveRows(legacy.value, None, repo, daysBack, cutoff))))
        && (legacy.Some? && !DaysTruthy(daysBack) && !Truthy(repo) ==>
              result == Loaded(View("pr_data", legacy.value)))
  {
    result := LoadFromHive(org, repo, daysBack, cutoff, scan);
    if !result.NoData? {
      return result, [];
    }
    var legacy;
    legacy, skipped := LoadFromLegacy(org, legacyDir);
    if legacy.None? {
      return NoData, skipped;
    }
    var filters := LegacyClauses(repo, daysBack, cutoff);
    if filters != [] {
      var rows := Where(legacy.value.rows, filters);
      FilterCongruent(legacy.value.rows, (r: Row) => HoldsAll(r, filters), (r: Row) => HiveFilterHolds(r, None, repo, daysBack, cutoff));
      return Loaded(View("pr_data_filtered", rows)), skipped;
    }
    return Loaded(legacy.value), skipped;
  }
}
