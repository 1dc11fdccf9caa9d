/** Snapshot maintenance (data_manager.py): pruning old snapshot files,
    merging every snapshot with keep-last de-duplication on
    `(repo, pr_number)`, and the incremental merge in which newly fetched
    rows win over stored ones.  The output directory is a class whose file
    list the operations change; timestamps are parameters. */
module DataManager {
  import opened Wrappers
  import opened Strings
  import opened Ordering
  import opened Records
  import opened Files

  // ---------------------------------------------------------------------
  // Keep-last de-duplication

  /** The de-duplication key `['repo', 'pr_number']`; a missing number
      equals another missing number, as pandas compares it. */
  datatype PrKey = PrKey(repo: string, number: Option<int>)

  function KeyOf(r: Row): PrKey
  {
    PrKey(r.repo, r.prNumber)
  }

  function KeySet(rows: seq<Row>): set<PrKey>
  {
    if rows == [] then {} else {KeyOf(rows[0])} + KeySet(rows[1..])
  }

  lemma {:induction false} KeySetMember(rows: seq<Row>, k: PrKey)
    ensures k in KeySet(rows) <==> exists i :: 0 <= i < |rows| && KeyOf(rows[i]) == k
  {
    if rows != [] {
      KeySetMember(rows[1..], k);
      if k in KeySet(rows[1..]) {
        var i :| 0 <= i < |rows[1..]| && KeyOf(rows[1..][i]) == k;
        assert KeyOf(rows[i + 1]) == k;
      }
      if exists i :: 0 <= i < |rows| && KeyOf(rows[i]) == k {
        var i :| 0 <= i < |rows| && KeyOf(rows[i]) == k;
        if i > 0 {
          assert KeyOf(rows[1..][i - 1]) == k;
        }
      }
    }
  }

  /** Row `i` is the last one with its key. */
  predicate IsLast(rows: seq<Row>, i: int)
    requires 0 <= i < |rows|
  {
    forall j :: i < j < |rows| ==> KeyOf(rows[j]) != KeyOf(rows[i])
  }

  /** `drop_duplicates(subset=['repo', 'pr_number'], keep='last')`: a row
      survives when no later row has its key. */
  function KeepLast(rows: seq<Row>): (r: seq<Row>)
    ensures |r| <= |rows|
    ensures forall x :: x in r ==> x in rows
  {
    if rows == [] then []
    else if KeyOf(rows[0]) in KeySet(rows[1..]) then KeepLast(rows[1..])
    else [rows[0]] + KeepLast(rows[1..])
  }

  /** Every key of the input survives, and no other. */
  lemma {:induction false} KeepLastKeys(rows: seq<Row>)
    ensures KeySet(KeepLast(rows)) == KeySet(rows)
  {
    if rows != [] {
      KeepLastKeys(rows[1..]);
      if KeyOf(rows[0]) !in KeySet(rows[1..]) {
        assert ([rows[0]] + KeepLast(rows[1..]))[1..] == KeepLast(rows[1..]);
      }
    }
  }

  /** The surviving keys are unique. */
  lemma {:induction false} KeepLastUnique(rows: seq<Row>)
    ensures forall i, j :: 0 <= i < j < |KeepLast(rows)| ==> KeyOf(KeepLast(rows)[i]) != KeyOf(KeepLast(rows)[j])
  {
    if rows != [] {
      KeepLastUnique(rows[1..]);
      var rest := KeepLast(rows[1..]);
      if KeyOf(rows[0]) !in KeySet(rows[1..]) {
        KeepLastKeys(rows[1..]);
        forall j | 0 <= j < |rest|
          ensures KeyOf(rest[j]) != KeyOf(rows[0])
        {
          KeySetMember(rest, KeyOf(rest[j]));
        }
        var r := [rows[0]] + rest;
        forall i, j | 0 <= i < j < |r|
          ensures KeyOf(r[i]) != KeyOf(r[j])
        {
          assert r[j] == rest[j - 1];
          if i > 0 {
            assert r[i] == rest[i - 1];
          }
        }
      }
    }
  }

  /** The last row of every key is kept. */
  lemma {:induction false} KeepLastKeepsLast(rows: seq<Row>, i: nat)
    requires i < |rows| && IsLast(rows, i)
    ensures rows[i] in KeepLast(rows)
  {
    if i == 0 {
      forall j | 0 <= j < |rows[1..]|
        ensures KeyOf(rows[1..][j]) != KeyOf(rows[0])
      {
        assert rows[1..][j] == rows[j + 1];
      }
      KeySetMember(rows[1..], KeyOf(rows[0]));
    } else {
      var tail := rows[1..];
      assert tail[i - 1] == rows[i];
      assert IsLast(tail, i - 1) by {
        forall j | i - 1 < j < |tail|
          ensures KeyOf(tail[j]) != KeyOf(tail[i - 1])
        {
          assert tail[j] == rows[j + 1];
        }
      }
      KeepLastKeepsLast(tail, i - 1);
    }
  }

  /** Only last rows are kept. */
  lemma {:induction false} KeepLastOnlyLast(rows: seq<Row>, x: Row)
    requires x in KeepLast(rows)
    ensures exists i :: 0 <= i < |rows| && rows[i] == x && IsLast(rows, i)
  {
    var tail := rows[1..];
    if x in KeepLast(tail) {
      KeepLastOnlyLast(tail, x);
      var i :| 0 <= i < |tail| && tail[i] == x && IsLast(tail, i);
      assert rows[i + 1] == x;
      if KeyOf(rows[0]) == KeyOf(x) {
        assert IsLast(rows, i + 1);
      } else {
        assert IsLast(rows, i + 1);
      }
    } else {
      assert x == rows[0] && KeyOf(rows[0]) !in KeySet(tail);
      forall j | 0 < j < |rows|
        ensures KeyOf(rows[j]) != KeyOf(rows[0])
      {
        assert rows[j] == tail[j - 1];
        KeySetMember(tail, KeyOf(rows[0]));
      }
    }
  }

  /** `a` is `b` with some elements left out, the rest in order. */
  predicate IsSubsequence(a: seq<Row>, b: seq<Row>)
    decreases |b|
  {
    if a == [] then true
    else if b == [] then false
    else (a[0] == b[0] && IsSubsequence(a[1..], b[1..])) || IsSubsequence(a, b[1..])
  }

  /** The kept rows keep their relative input order. */
  lemma {:induction false} KeepLastOrder(rows: seq<Row>)
    ensures IsSubsequence(KeepLast(rows), rows)
  {
    if rows != [] {
      KeepLastOrder(rows[1..]);
      if KeyOf(rows[0]) !in KeySet(rows[1..]) {
        var r := [rows[0]] + KeepLast(rows[1..]);
        assert r[0] == rows[0] && r[1..] == KeepLast(rows[1..]);
      }
    }
  }

  /** The de-duplication loop: walking from the end with the set of keys
      already seen, a row is kept when its key is new. */
  method DropDuplicatesKeepLast(rows: seq<Row>) returns (deduped: seq<Row>)
    ensures deduped == KeepLast(rows)
  {
    var seen: set<PrKey> := {};
    deduped := [];
    var i := |rows|;
    while i > 0
      invariant 0 <= i <= |rows|
      invariant deduped == KeepLast(rows[i..])
      invariant seen == KeySet(rows[i..])
    {
      i := i - 1;
      assert rows[i..][1..] == rows[i + 1..];
      var key := KeyOf(rows[i]);
      if key !in seen {
        deduped := [rows[i]] + deduped;
        seen := seen + {key};
      }
    }
  }

  /** In `concat([existing, new])` a new row that is the last of its key in
      the new batch survives... */
  lemma NewRowWins(existing: seq<Row>, incoming: seq<Row>, i: nat)
    requires i < |incoming| && IsLast(incoming, i)
    ensures incoming[i] in KeepLast(existing + incoming)
  {
    var all := existing + incoming;
    var k := |existing| + i;
    assert all[k] == incoming[i];
    assert IsLast(all, k) by {
      forall j | k < j < |all|
        ensures KeyOf(all[j]) != KeyOf(all[k])
      {
        assert all[j] == incoming[j - |existing|];
      }
    }
    KeepLastKeepsLast(all, k);
  }

  /** A row last of its key in `existing + incoming` at a position inside
      `incoming` is last of its key in `incoming`. */
  lemma LastInSuffix(existing: seq<Row>, incoming: seq<Row>, j: nat)
    requires j < |incoming| && IsLast(existing + incoming, |existing| + j)
    ensures IsLast(incoming, j)
  {
    var all := existing + incoming;
    forall j' | j < j' < |incoming|
      ensures KeyOf(incoming[j']) != KeyOf(incoming[j])
    {
      assert all[|existing| + j'] == incoming[j'];
      assert all[|existing| + j] == incoming[j];
    }
  }

  /** A key the incoming batch carries is last somewhere past `existing`. */
  lemma LastNotInPrefix(existing: seq<Row>, incoming: seq<Row>, i: nat)
    requires i < |existing + incoming| && IsLast(existing + incoming, i)
    requires KeyOf((existing + incoming)[i]) in KeySet(incoming)
    ensures i >= |existing|
  {
    var all := existing + incoming;
    KeySetMember(incoming, KeyOf(all[i]));
    var m :| 0 <= m < |incoming| && KeyOf(incoming[m]) == KeyOf(all[i]);
    assert all[|existing| + m] == incoming[m];
  }

  /** ...and no stored row whose key the incoming batch also carries does. */
  lemma ExistingRowLoses(existing: seq<Row>, incoming: seq<Row>, x: Row)
    requires x in KeepLast(existing + incoming) && KeyOf(x) in KeySet(incoming)
    ensures exists j :: 0 <= j < |incoming| && incoming[j] == x && IsLast(incoming, j)
  {
    var all := existing + incoming;
    KeepLastOnlyLast(all, x);
    var i :| 0 <= i < |all| && all[i] == x && IsLast(all, i);
    LastNotInPrefix(existing, incoming, i);
    var j := i - |existing|;
    assert incoming[j] == all[i];
    LastInSuffix(existing, incoming, j);
  }

  // ---------------------------------------------------------------------
  // Reading every snapshot

  /** `pd.concat` of the files read in order, or the first file that
      cannot be read (its exception propagates). */
  datatype Combined = AllRows(rows: seq<Row>) | Unreadable(name: string)

  function ReadAll(files: seq<DataFile>): (c: Combined)
    ensures c.Unreadable? <==> exists i :: 0 <= i < |files| && files[i].content.Corrupt?
  {
    if files == [] then AllRows([])
    else
      var last := files[|files| - 1];
      var init := files[..|files| - 1];
      assert forall i :: 0 <= i < |init| ==> init[i] == files[i];
      match ReadAll(init)
      case Unreadable(name) => Unreadable(name)
      case AllRows(rows) =>
        match last.content
        case Corrupt => Unreadable(last.name)
        case Parquet(more) => AllRows(rows + more)
  }

  /** `*.parquet` */
  const Snapshots: Pattern := Pattern("", ".parquet")

  /** `sorted(Path(OUTPUT_DIR).glob("*.parquet"))`. */
  function SortedSnapshots(dir: seq<DataFile>): (files: seq<DataFile>)
    ensures SortedBy(files, NameAscending)
    ensures forall f :: f in files <==> f in dir && Matches(f.name, Snapshots)
  {
    var files := SortedByName(MatchingFiles(dir, Snapshots));
    assert forall f :: f in files <==> f in multiset(files);
    files
  }

  datatype MergeOutcome =
    | NoFiles
    | Deduped(rows: seq<Row>, combinedCount: nat, duplicatesRemoved: nat)
    | ReadError(name: string)

  /** `merge_and_dedupe_all()`: None without snapshots; otherwise every row
      of every snapshot in file-name order, keep-last de-duplicated, with
      the number of dropped duplicates. */
  function MergeAll(dir: seq<DataFile>): (m: MergeOutcome)
    ensures m == NoFiles <==> SortedSnapshots(dir) == []
    ensures m.ReadError? <==> SortedSnapshots(dir) != [] && ReadAll(SortedSnapshots(dir)).Unreadable?
    ensures m.Deduped? ==> (ReadAll(SortedSnapshots(dir)).AllRows?
      && m.rows == KeepLast(ReadAll(SortedSnapshots(dir)).rows)
      && m.combinedCount == |ReadAll(SortedSnapshots(dir)).rows|
      && m.duplicatesRemoved == m.combinedCount - |m.rows|)
  {
    var files := SortedSnapshots(dir);
    if files == [] then NoFiles
    else
      match ReadAll(files)
      case Unreadable(name) => ReadError(name)
      case AllRows(rows) =>
        var deduped := KeepLast(rows);
        Deduped(deduped, |rows|, |rows| - |deduped|)
  }

  // ---------------------------------------------------------------------
  // Pruning

  /** Python's normalisation of a slice end `stop` on a list of `n` items. */
  function SliceStop(n: nat, stop: int): (k: nat)
    ensures k <= n
    ensures stop >= 0 ==> k == if stop <= n then stop else n
    ensures stop < 0 ==> k == if n + stop >= 0 then n + stop else 0
  {
    if stop >= 0 then (if stop <= n then stop else n)
    else if n + stop >= 0 then n + stop else 0
  }

  /** The files `cleanup_old_files(keep_latest)` unlinks: nothing when there
      are at most `keep` snapshots, else `files[:-keep]`. */
  function FilesToRemove(dir: seq<DataFile>, keep: int): (doomed: seq<DataFile>)
    ensures |doomed| <= |SortedSnapshots(dir)|
    ensures doomed == SortedSnapshots(dir)[..|doomed|]
  {
    var files := SortedSnapshots(dir);
    if |files| <= keep then [] else files[..SliceStop(|files|, -keep)]
  }

  /** Nothing is pruned when the snapshots fit, or for `keep_latest = 0`
      (`files[:-0]` is empty). */
  lemma NothingToPrune(dir: seq<DataFile>, keep: int)
    requires |SortedSnapshots(dir)| <= keep || keep == 0
    ensures FilesToRemove(dir, keep) == []
  {
  }

  /** With `0 < keep < n` snapshots, the `n - keep` oldest names go and the
      newest `keep` stay; each removed name precedes each kept one. */
  lemma PruneKeepsNewest(dir: seq<DataFile>, keep: int)
    requires 0 < keep < |SortedSnapshots(dir)|
    ensures |FilesToRemove(dir, keep)| == |SortedSnapshots(dir)| - keep
    ensures forall i, j :: 0 <= i < |FilesToRemove(dir, keep)| <= j < |SortedSnapshots(dir)| ==>
      LexLeq(SortedSnapshots(dir)[i].name, SortedSnapshots(dir)[j].name)
  {
    var files := SortedSnapshots(dir);
    forall i, j | 0 <= i < |FilesToRemove(dir, keep)| <= j < |files|
      ensures LexLeq(files[i].name, files[j].name)
    {
      assert NameAscending(files[i], files[j]);
    }
  }

  /** A negative `keep_latest` slices from the front: the first `-keep`
      snapshots go. */
  lemma PruneNegativeKeep(dir: seq<DataFile>, keep: int)
    requires keep < 0
    ensures |FilesToRemove(dir, keep)| == if -keep <= |SortedSnapshots(dir)| then -keep else |SortedSnapshots(dir)|
  {
  }

  // ---------------------------------------------------------------------
  // The output directory

  predicate UniqueNames(files: seq<DataFile>)
  {
    forall i, j :: 0 <= i < j < |files| ==> files[i].name != files[j].name
  }

  /** The directory without the file called `name`. */
  function Without(files: seq<DataFile>, name: string): (r: seq<DataFile>)
    ensures forall f :: f in r <==> f in files && f.name != name
    ensures UniqueNames(files) ==> UniqueNames(r)
    ensures |r| <= |files|
  {
    if files == [] then []
    else
      var rest := Without(files[1..], name);
      assert forall f :: f in files <==> f == files[0] || f in files[1..];
      if files[0].name == name then rest
      else
        if UniqueNames(files) then
          HeadNameFresh(files);
          ConsUnique(files[0], rest);
          [files[0]] + rest
        else
          [files[0]] + rest
  }

  /** In a directory with unique names, no later file shares the first one's name. */
  lemma HeadNameFresh(files: seq<DataFile>)
    requires files != [] && UniqueNames(files)
    ensures UniqueNames(files[1..])
    ensures forall f :: f in files[1..] ==> f.name != files[0].name
  {
    forall f | f in files[1..]
      ensures f.name != files[0].name
    {
      var k :| 0 <= k < |files[1..]| && files[1..][k] == f;
      assert files[k + 1] == f;
    }
  }

  /** A file whose name is new keeps the names unique. */
  lemma ConsUnique(f: DataFile, rest: seq<DataFile>)
    requires UniqueNames(rest) && forall g :: g in rest ==> g.name != f.name
    ensures UniqueNames([f] + rest)
  {
    var r := [f] + rest;
    forall i, j | 0 <= i < j < |r|
      ensures r[i].name != r[j].name
    {
      if i == 0 {
        assert r[j] == rest[j - 1] && rest[j - 1] in rest;
      } else {
        assert r[i] == rest[i - 1] && r[j] == rest[j - 1];
      }
    }
  }

  /** `to_parquet(name)`: the file is created, or replaced. */
  function WithFile(files: seq<DataFile>, name: string, rows: seq<Row>): (r: seq<DataFile>)
    ensures forall f :: f in r <==> (f in files && f.name != name) || f == DataFile(name, Parquet(rows))
    ensures UniqueNames(files) ==> UniqueNames(r)
  {
    var rest := Without(files, name);
    rest + [DataFile(name, Parquet(rows))]
  }

  /** `pd.read_parquet(OUTPUT_DIR/name)`. */
  function ReadNamed(files: seq<DataFile>, name: string): (r: ReadResult)
    ensures r.Missing? <==> forall f :: f in files ==> f.name != name
    ensures !r.Missing? ==> exists f :: f in files && f.name == name && r == ReadFile(f)
  {
    if files == [] then Missing
    else if files[0].name == name then ReadFile(files[0])
    else
      var rest := ReadNamed(files[1..], name);
      assert forall f :: f in files <==> f == files[0] || f in files[1..];
      rest
  }

  /** Keys of a concatenation. */
  lemma {:induction false} KeySetAppend(a: seq<Row>, b: seq<Row>)
    ensures KeySet(a + b) == KeySet(a) + KeySet(b)
  {
    if a != [] {
      assert (a + b)[0] == a[0] && (a + b)[1..] == a[1..] + b;
      KeySetAppend(a[1..], b);
    } else {
      assert a + b == b;
    }
  }

  /** De-duplication leaves one row per distinct key. */
  lemma {:induction false} KeepLastCount(rows: seq<Row>)
    ensures |KeepLast(rows)| == |KeySet(rows)|
  {
    if rows != [] {
      KeepLastCount(rows[1..]);
      var k := KeyOf(rows[0]);
      assert KeySet(rows) == {k} + KeySet(rows[1..]);
      if k in KeySet(rows[1..]) {
        assert KeySet(rows) == KeySet(rows[1..]);
        assert KeepLast(rows) == KeepLast(rows[1..]);
      } else {
        assert KeepLast(rows) == [rows[0]] + KeepLast(rows[1..]);
        assert |KeySet(rows)| == |KeySet(rows[1..])| + 1;
      }
    }
  }

  /** The "net new records" figure as the source computes it:
      `len(deduped) - len(existing) + duplicates_removed`. */
  function NetNewAsWritten(existing: seq<Row>, incoming: seq<Row>): int
  {
    var deduped := KeepLast(existing + incoming);
    |deduped| - |existing| + (|existing + incoming| - |deduped|)
  }

  /** The duplicates cancel out: the figure is always the size of the
      fetched batch, even when every fetched row was already stored. */
  lemma NetNewAsWrittenIsFetched(existing: seq<Row>, incoming: seq<Row>)
    ensures NetNewAsWritten(existing, incoming) == |incoming|
  {
  }

  /** One stored pull request fetched again: nothing is new, yet the
      figure is 1. */
  lemma NetNewAsWrittenCountsRefetch(r: Row)
    ensures KeySet([r]) - KeySet([r]) == {}
    ensures NetNewAsWritten([r], [r]) == 1
  {
    NetNewAsWrittenIsFetched([r], [r]);
  }

  /** The intended figure: rows after the merge less the distinct stored
      rows. */
  function NetNewRecords(existing: seq<Row>, incoming: seq<Row>): (n: int)
    ensures n == |KeySet(incoming) - KeySet(existing)|
  {
    KeepLastCount(existing + incoming);
    KeepLastCount(existing);
    KeySetAppend(existing, incoming);
    var a := KeySet(existing);
    var b := KeySet(incoming);
    assert a + b == a + (b - a);
    assert a * (b - a) == {};
    |KeepLast(existing + incoming)| - |KeepLast(existing)|
  }

  /** The counts `incremental_merge_strategy` reports. */
  datatype MergeCounts = MergeCounts(existing: nat, fetched: nat, duplicatesRemoved: int, netNew: int, finalSize: nat)

  datatype IncrementalOutcome =
    | FirstFile(path: string)
    | MergedInto(path: string, counts: MergeCounts)
    | ExistingUnreadable(name: string)

  const OutputDirName: string := "output"

  function OutputPath(name: string): string
  {
    OutputDirName + "/" + name
  }

  function ConsolidatedName(timestamp: string): string
  {
    "pr_data_consolidated_" + timestamp + ".parquet"
  }

  function IncrementalName(timestamp: string): string
  {
    "pr_data_incremental_" + timestamp + ".parquet"
  }

  datatype ConsolidateOutcome = NothingConsolidated | Consolidated(path: string) | ConsolidateFailed(name: string)

  /** The snapshot `incremental_merge_strategy` merges into: the one named
      by the caller, else the newest by name, else none. */
  function ExistingChoice(dir: seq<DataFile>, existingFile: Option<string>): (name: Option<string>)
    ensures existingFile.Some? ==> name == existingFile
    ensures existingFile.None? ==> (name.None? <==> forall f :: f in dir ==> !Matches(f.name, Snapshots))
    ensures existingFile.None? && name.Some? ==> ((exists f :: f in dir && Matches(f.name, Snapshots) && f.name == name.value)
      && forall g :: g in dir && Matches(g.name, Snapshots) ==> LexLeq(g.name, name.value))
  {
    if existingFile.Some? then existingFile
    else
      var snapshots := SortedSnapshots(dir);
      if snapshots == [] then None
      else
        SortedLastGreatest(snapshots);
        assert snapshots[|snapshots| - 1] in snapshots;
        Some(snapshots[|snapshots| - 1].name)
  }

  /** The state after a merge with the stored rows `existing`: the
      de-duplicated concatenation is written and counted. */
  predicate IncrementalWrite(before: seq<DataFile>, after: seq<DataFile>, existing: seq<Row>, incoming: seq<Row>,
                             timestamp: string, result: IncrementalOutcome)
  {
    && after == WithFile(before, IncrementalName(timestamp), KeepLast(existing + incoming))
    && result == MergedInto(OutputPath(IncrementalName(timestamp)),
                            MergeCounts(|existing|, |incoming|, |existing + incoming| - |KeepLast(existing + incoming)|,
                                        NetNewRecords(existing, incoming), |KeepLast(existing + incoming)|))
  }

  /** The `output` directory: its files, with unique names. */
  class OutputDir {
    var files: seq<DataFile>

    predicate Valid()
      reads this
    {
      UniqueNames(files)
    }

    constructor (initial: seq<DataFile>)
      requires UniqueNames(initial)
      ensures files == initial && Valid()
    {
      files := initial;
    }

    /** `df.to_parquet(OUTPUT_DIR/name)`: the file is created or replaced. */
    method WriteParquet(name: string, rows: seq<Row>)
      requires Valid()
      modifies this
      ensures Valid()
      ensures files == WithFile(old(files), name, rows)
    {
      files := WithFile(files, name, rows);
    }

    /** `cleanup_old_files(keep_latest)`: the doomed files are unlinked one
        by one; every other file stays. */
    method CleanupOldFiles(keep: int) returns (removed: seq<string>)
      requires Valid()
      modifies this
      ensures Valid()
      ensures removed == MapSeq(FilesToRemove(old(files), keep), FileName)
      ensures forall f :: f in files <==> f in old(files) && f.name !in removed
    {
      var doomed := FilesToRemove(files, keep);
      var remaining;
      remaining, removed := UnlinkAll(files, doomed);
      files := remaining;
    }

    /** `merge_and_dedupe_all()`: the snapshots are read and concatenated in
        name order, then de-duplicated; the directory is unchanged. */
    method MergeAndDedupeAll() returns (outcome: MergeOutcome)
      ensures outcome == MergeAll(files)
    {
      var snapshots := SortedSnapshots(files);
      if snapshots == [] {
        return NoFiles;
      }
      var read := ReadSnapshots(snapshots);
      match read {
        case Unreadable(name) =>
          return ReadError(name);
        case AllRows(combined) =>
          var deduped := DropDuplicatesKeepLast(combined);
          outcome := Deduped(deduped, |combined|, |combined| - |deduped|);
      }
    }

    /** `create_consolidated_file(timestamp)`: the merged rows go to a new
        consolidated snapshot. */
    method CreateConsolidatedFile(timestamp: string) returns (result: ConsolidateOutcome)
      requires Valid()
      modifies this
      ensures Valid()
      ensures MergeAll(old(files)).NoFiles? ==> result == NothingConsolidated && files == old(files)
      ensures MergeAll(old(files)).ReadError? ==> result == ConsolidateFailed(MergeAll(old(files)).name) && files == old(files)
      ensures MergeAll(old(files)).Deduped? ==> (result == Consolidated(OutputPath(ConsolidatedName(timestamp)))
        && files == WithFile(old(files), ConsolidatedName(timestamp), MergeAll(old(files)).rows))
    {
      var merged := MergeAndDedupeAll();
      match merged {
        case NoFiles =>
          return NothingConsolidated;
        case ReadError(name) =>
          return ConsolidateFailed(name);
        case Deduped(rows, _, _) =>
          var name := ConsolidatedName(timestamp);
          files := WithFile(files, name, rows);
          result := Consolidated(OutputPath(name));
      }
    }

    /** `incremental_merge_strategy(new_df, existing_file)`: without any
        snapshot the new rows are written unchanged; otherwise the chosen
        (or newest) snapshot and the new rows are concatenated, stored rows
        first, de-duplicated keep-last, and written to a new snapshot. */
    method IncrementalMergeStrategy(newRows: seq<Row>, existingFile: Option<string>, timestamp: string)
      returns (result: IncrementalOutcome)
      requires Valid()
      modifies this
      ensures Valid()
      ensures ExistingChoice(old(files), existingFile).None? ==> (result == FirstFile(OutputPath(IncrementalName(timestamp)))
        && files == WithFile(old(files), IncrementalName(timestamp), newRows))
      ensures ExistingChoice(old(files), existingFile).Some? ==> (
        var name := ExistingChoice(old(files), existingFile).value;
        var read := ReadNamed(old(files), name);
        && (read.Read? ==> IncrementalWrite(old(files), files, read.rows, newRows, timestamp, result))
        && (!read.Read? ==> result == ExistingUnreadable(name) && files == old(files)))
    {
      var choice := ExistingChoice(files, existingFile);
      if choice.None? {
        var output := IncrementalName(timestamp);
        files := WithFile(files, output, newRows);
        return FirstFile(OutputPath(output));
      }
      var name := choice.value;
      var read := ReadNamed(files, name);
      if !read.Read? {
        return ExistingUnreadable(name);
      }
      result := MergeIntoSnapshot(read.rows, newRows, timestamp);
    }

    /** The merge branch: the stored rows and the new rows, de-duplicated,
        go to the incremental snapshot. */
    method MergeIntoSnapshot(existing: seq<Row>, newRows: seq<Row>, timestamp: string) returns (result: IncrementalOutcome)
      requires Valid()
      modifies this
      ensures Valid()
      ensures IncrementalWrite(old(files), files, existing, newRows, timestamp, result)
    {
      var deduped, counts := MergeRows(existing, newRows);
      var output := IncrementalName(timestamp);
      files := WithFile(files, output, deduped);
      result := MergedInto(OutputPath(output), counts);
    }
  }

  /** The read loop of `merge_and_dedupe_all`: the snapshots' rows are
      appended in order until one cannot be read. */
  method ReadSnapshots(snapshots: seq<DataFile>) returns (read: Combined)
    ensures read == ReadAll(snapshots)
  {
    var combined: seq<Row> := [];
    for i := 0 to |snapshots|
      invariant ReadAll(snapshots[..i]) == AllRows(combined)
    {
      ReadAllStep(snapshots, i);
      match snapshots[i].content {
        case Corrupt =>
          ReadErrorPersists(snapshots, i + 1);
          return Unreadable(snapshots[i].name);
        case Parquet(rows) =>
          combined := combined + rows;
      }
    }
    assert snapshots[..|snapshots|] == snapshots;
    read := AllRows(combined);
  }

  /** The merge step of `incremental_merge_strategy`: stored rows first,
      de-duplicated keep-last, and the counts it logs (the net-new count as
      the distinct new keys). */
  method MergeRows(existing: seq<Row>, incoming: seq<Row>) returns (deduped: seq<Row>, counts: MergeCounts)
    ensures deduped == KeepLast(existing + incoming)
    ensures counts == MergeCounts(|existing|, |incoming|, |existing + incoming| - |deduped|,
                                  NetNewRecords(existing, incoming), |deduped|)
  {
    var combined := existing + incoming;
    var originalCount := |combined|;
    deduped := DropDuplicatesKeepLast(combined);
    var duplicatesRemoved := originalCount - |deduped|;
    var distinctExisting := DropDuplicatesKeepLast(existing);
    var newRecords := |deduped| - |distinctExisting|;
    counts := MergeCounts(|existing|, |incoming|, duplicatesRemoved, newRecords, |deduped|);
  }

  /** The unlink loop of `cleanup_old_files` over a directory listing:
      each doomed file is removed in turn and its name recorded. */
  method UnlinkAll(dir: seq<DataFile>, doomed: seq<DataFile>) returns (remaining: seq<DataFile>, removed: seq<string>)
    requires UniqueNames(dir)
    ensures UniqueNames(remaining)
    ensures removed == MapSeq(doomed, FileName)
    ensures forall f :: f in remaining <==> f in dir && f.name !in removed
  {
    remaining := dir;
    removed := [];
    for i := 0 to |doomed|
      invariant UniqueNames(remaining)
      invariant removed == MapSeq(doomed[..i], FileName)
      invariant forall f :: f in remaining <==> f in dir && f.name !in removed
    {
      Unlinked(dir, remaining, removed, doomed[i].name);
      MapSeqSnoc(doomed[..i], doomed[i], FileName);
      assert doomed[..i + 1] == doomed[..i] + [doomed[i]];
      remaining := Without(remaining, doomed[i].name);
      removed := removed + [doomed[i].name];
    }
    assert doomed[..|doomed|] == doomed;
  }

  /** One more unlinked name: the files left are those of `before` whose
      name is in neither list. */
  lemma Unlinked(before: seq<DataFile>, files: seq<DataFile>, removed: seq<string>, name: string)
    requires forall f :: f in files <==> f in before && f.name !in removed
    ensures forall f :: f in Without(files, name) <==> f in before && f.name !in removed + [name]
  {
    forall f
      ensures f in Without(files, name) <==> f in before && f.name !in removed + [name]
    {
      assert f.name in removed + [name] <==> f.name in removed || f.name == name;
    }
  }

  /** Reading a prefix one file further. */
  lemma ReadAllStep(files: seq<DataFile>, i: nat)
    requires i < |files|
    ensures ReadAll(files[..i + 1]) == match ReadAll(files[..i])
      case Unreadable(name) => Unreadable(name)
      case AllRows(rows) => (match files[i].content
        case Corrupt => Unreadable(files[i].name)
        case Parquet(more) => AllRows(rows + more))
  {
    assert files[..i + 1][..i] == files[..i];
  }

  /** The first unreadable file is the read failure of the whole list. */
  lemma {:induction false} ReadErrorPersists(files: seq<DataFile>, n: nat)
    requires 0 < n <= |files| && ReadAll(files[..n]).Unreadable?
    ensures ReadAll(files) == ReadAll(files[..n])
    decreases |files| - n
  {
    if n == |files| {
      assert files[..n] == files;
    } else {
      ReadAllStep(files, n);
      ReadErrorPersists(files, n + 1);
    }
  }
}
