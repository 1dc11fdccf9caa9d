/** The record normalizer (src/pr_metrics/processor.py): per-repository raw
    PR objects become flat rows, one per PR, in iteration order. */
module Processor {
  import opened Wrappers
  import opened Time
  import opened Strings
  import opened Ordering
  import opened Records
  import opened Utils
  import opened Files

  /** `pr.get('author', {}).get('login', 'unknown') if pr.get('author') else 'unknown'`. */
  function AuthorLogin(author: Option<RawAuthor>): (s: string)
    ensures author.None? ==> s == "unknown"
    ensures author.Some? && author.value.login.None? ==> s == "unknown"
    ensures author.Some? && author.value.login.Some? ==> s == author.value.login.value
  {
    if author.Some? then author.value.login.GetOr("unknown") else "unknown"
  }

  /** `(additions or 0) + (deletions or 0)`. */
  function PrSize(pr: RawPr): (n: int)
    ensures pr.additions.GetOr(0) >= 0 && pr.deletions.GetOr(0) >= 0 ==> n >= 0
    ensures pr.additions.None? && pr.deletions.None? ==> n == 0
    ensures pr.additions.None? ==> n == pr.deletions.GetOr(0)
    ensures pr.deletions.None? ==> n == pr.additions.GetOr(0)
  {
    pr.additions.GetOr(0) + pr.deletions.GetOr(0)
  }

  /** `'merged' if merged_at else ('closed' if closed_at else 'open')`. */
  function DeriveState(mergedAt: Option<Instant>, closedAt: Option<Instant>): (s: State)
    ensures s == Merged <==> mergedAt.Some?
    ensures s == Closed <==> mergedAt.None? && closedAt.Some?
    ensures s == Open <==> mergedAt.None? && closedAt.None?
  {
    if mergedAt.Some? then Merged else if closedAt.Some? then Closed else Open
  }

  /** Hours from creation to merge, when both are known; never clamped. */
  function TimeToMerge(createdAt: Option<Instant>, mergedAt: Option<Instant>): (h: Option<real>)
    ensures h.Some? <==> createdAt.Some? && mergedAt.Some?
    ensures h.Some? ==> h.value == HoursBetween(createdAt.value, mergedAt.value)
    ensures h.Some? ==> (h.value < 0.0 <==> !NotAfter(createdAt.value, mergedAt.value))
  {
    if mergedAt.Some? && createdAt.Some? then Some(HoursBetween(createdAt.value, mergedAt.value)) else None
  }

  /** `l.get('name', '')`. */
  function LabelName(l: RawLabel): string
  {
    l.name.GetOr("")
  }

  function LabelNames(labels: seq<RawLabel>): seq<string>
  {
    MapSeq(labels, LabelName)
  }

  /** `','.join(...)` of the label names. */
  function LabelText(labels: seq<RawLabel>): (s: string)
    ensures labels == [] ==> s == ""
  {
    Join(LabelNames(labels), ",")
  }

  /** The label column can be split back into the label names, provided no
      name contains a comma and there is at least one label. */
  lemma LabelsRoundTrip(labels: seq<RawLabel>)
    requires |labels| >= 1
    requires forall i :: 0 <= i < |labels| ==> Free(LabelName(labels[i]), ',')
    ensures Split(LabelText(labels), ',') == LabelNames(labels)
  {
    SplitJoin(LabelNames(labels), ',');
  }

  /** One row of `process_prs_to_dataframe`. */
  function NormalizePr(org: string, repo: string, pr: RawPr): (r: Row)
    ensures r.org == Some(org) && r.repo == repo && r.prNumber == pr.number
    ensures r.author == AuthorLogin(pr.author)
    ensures r.createdAt == ParsedStamp(pr.createdAt) && r.mergedAt == ParsedStamp(pr.mergedAt)
    ensures StateConsistent(r)
    ensures r.state == Closed <==> ParsedStamp(pr.mergedAt).None? && ParsedStamp(pr.closedAt).Some?
    ensures r.prSize == PrSize(pr)
    ensures r.commits == 0 && r.reviews == 0 && r.timeToFirstReviewHours.None?
    ensures r.isDraft == pr.isDraft.GetOr(false)
    ensures r.labels == LabelText(pr.labels)
  {
    var createdAt := ParsedStamp(pr.createdAt);
    var mergedAt := ParsedStamp(pr.mergedAt);
    var closedAt := ParsedStamp(pr.closedAt);
    Row(Some(org), repo, pr.number, AuthorLogin(pr.author), createdAt, mergedAt,
        DeriveState(mergedAt, closedAt), PrSize(pr), 0, 0,
        TimeToMerge(createdAt, mergedAt), None, pr.isDraft.GetOr(false), LabelText(pr.labels))
  }

  /** The package normalizer for one org, as a value. */
  function Normalizer(org: string): (string, RawPr) -> Row
  {
    (repo, pr) => NormalizePr(org, repo, pr)
  }

  /** The rows of one repository's PRs, in list order. */
  function RepoRows(repo: string, prs: seq<RawPr>, normalize: (string, RawPr) -> Row): (rows: seq<Row>)
    ensures |rows| == |prs|
    ensures forall j :: 0 <= j < |prs| ==> rows[j] == normalize(repo, prs[j])
  {
    seq(|prs|, j requires 0 <= j < |prs| => normalize(repo, prs[j]))
  }

  /** All rows: repositories in dict order, PRs in list order. */
  function Flatten(data: seq<RepoPrs>, normalize: (string, RawPr) -> Row): seq<Row>
  {
    if data == [] then []
    else
      var last := data[|data| - 1];
      Flatten(data[..|data| - 1], normalize) + RepoRows(last.repo, last.prs, normalize)
  }

  /** The number of input PRs across all repositories. */
  function TotalPrs(data: seq<RepoPrs>): nat
  {
    if data == [] then 0 else TotalPrs(data[..|data| - 1]) + |data[|data| - 1].prs|
  }

  /** Exactly one row per input PR. */
  lemma {:induction false} FlattenLength(data: seq<RepoPrs>, normalize: (string, RawPr) -> Row)
    ensures |Flatten(data, normalize)| == TotalPrs(data)
  {
    if data != [] {
      FlattenLength(data[..|data| - 1], normalize);
    }
  }

  /** Rows of earlier repositories come first: flattening distributes over
      concatenation of the repository list. */
  lemma {:induction false} FlattenAppend(a: seq<RepoPrs>, b: seq<RepoPrs>, normalize: (string, RawPr) -> Row)
    ensures Flatten(a + b, normalize) == Flatten(a, normalize) + Flatten(b, normalize)
  {
    if b == [] {
      assert a + b == a;
    } else {
      var last := b[|b| - 1];
      var init := b[..|b| - 1];
      assert (a + b)[..|a + b| - 1] == a + init;
      assert (a + b)[|a + b| - 1] == last;
      var tail := RepoRows(last.repo, last.prs, normalize);
      assert Flatten(a + b, normalize) == Flatten(a + init, normalize) + tail;
      assert Flatten(b, normalize) == Flatten(init, normalize) + tail;
      FlattenAppend(a, init, normalize);
    }
  }

  /** Every flattened row is the normalization of some input PR of its repository. */
  lemma {:induction false} FlattenOrigin(data: seq<RepoPrs>, normalize: (string, RawPr) -> Row, row: Row)
    requires row in Flatten(data, normalize)
    ensures exists i, j :: 0 <= i < |data| && 0 <= j < |data[i].prs| && row == normalize(data[i].repo, data[i].prs[j])
  {
    var init := data[..|data| - 1];
    var last := data[|data| - 1];
    var rest := RepoRows(last.repo, last.prs, normalize);
    if row in Flatten(init, normalize) {
      FlattenOrigin(init, normalize, row);
      var i, j :| 0 <= i < |init| && 0 <= j < |init[i].prs| && row == normalize(init[i].repo, init[i].prs[j]);
      assert data[i] == init[i];
    } else {
      assert row in rest;
      var j :| 0 <= j < |rest| && rest[j] == row;
      assert row == normalize(data[|data| - 1].repo, data[|data| - 1].prs[j]);
    }
  }

  /** The nested loop of both normalizers, filling `rows` one PR at a time. */
  method FlattenRows(data: seq<RepoPrs>, normalize: (string, RawPr) -> Row) returns (rows: seq<Row>)
    ensures rows == Flatten(data, normalize)
  {
    rows := [];
    var i := 0;
    while i < |data|
      invariant 0 <= i <= |data|
      invariant rows == Flatten(data[..i], normalize)
    {
      var entry := data[i];
      var j := 0;
      while j < |entry.prs|
        invariant 0 <= j <= |entry.prs|
        invariant rows == Flatten(data[..i], normalize) + RepoRows(entry.repo, entry.prs[..j], normalize)
      {
        assert RepoRows(entry.repo, entry.prs[..j + 1], normalize)
            == RepoRows(entry.repo, entry.prs[..j], normalize) + [normalize(entry.repo, entry.prs[j])];
        rows := rows + [normalize(entry.repo, entry.prs[j])];
        j := j + 1;
      }
      assert entry.prs[..j] == entry.prs;
      assert data[..i + 1][..i] == data[..i];
      i := i + 1;
    }
    assert data[..i] == data;
  }

  /** `process_prs_to_dataframe(all_prs_data, org)`. */
  method ProcessPrsToDataframe(allPrsData: seq<RepoPrs>, org: string) returns (rows: seq<Row>)
    ensures rows == Flatten(allPrsData, Normalizer(org))
    ensures |rows| == TotalPrs(allPrsData)
    ensures forall r :: r in rows ==> r.org == Some(org) && StateConsistent(r)
  {
    rows := FlattenRows(allPrsData, Normalizer(org));
    FlattenLength(allPrsData, Normalizer(org));
    forall r | r in rows
      ensures r.org == Some(org) && StateConsistent(r)
    {
      FlattenOrigin(allPrsData, Normalizer(org), r);
    }
  }

  /** The file-name pattern of `load_latest_data`: the sanitized org's files
      when an org is given, else every `pr_data_*.parquet`. */
  function LatestPattern(org: Option<string>): (p: Pattern)
    ensures Truthy(org) ==> p == Pattern("pr_data_" + SanitizeOrgName(org.value) + "_", ".parquet")
    ensures !Truthy(org) ==> p == Pattern("pr_data_", ".parquet")
  {
    if Truthy(org) then Pattern("pr_data_" + SanitizeOrgName(org.value) + "_", ".parquet")
    else Pattern("pr_data_", ".parquet")
  }

  /** `load_latest_data(org, output_dir)`: the contents of the last matching
      file by name, or nothing. */
  function LoadLatestData(org: Option<string>, dir: seq<DataFile>): (r: ReadResult)
    ensures r.Missing? <==> forall f :: f in dir ==> !Matches(f.name, LatestPattern(org))
    ensures !r.Missing? ==> exists f :: (f in dir && Matches(f.name, LatestPattern(org)) && r == ReadFile(f)
      && forall g :: g in dir && Matches(g.name, LatestPattern(org)) ==> LexLeq(g.name, f.name))
  {
    ReadLatest(dir, LatestPattern(org))
  }
}
