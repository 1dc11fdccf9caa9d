/** The two record shapes of the pipeline: a pull request as the hosting
    platform's CLI returns it (every field may be missing), and the flat row
    the normalizer produces and the store and queries work on. */
module Records {
  import opened Wrappers
  import opened Time

  /** A timestamp field: the JSON text and the instant it parses to. */
  datatype Stamp = Stamp(text: string, instant: Instant)

  /** A non-empty `author` object; `login` is None when the key is absent. */
  datatype RawAuthor = RawAuthor(login: Option<string>)

  /** A label object; `name` is None when the key is absent. */
  datatype RawLabel = RawLabel(name: Option<string>)

  /** A review object. */
  datatype RawReview = RawReview(submittedAt: Option<Stamp>)

  /** One PR object of the CLI's JSON output.  None stands for a missing key
      or a null/falsy value (`author` None also covers an empty object);
      `commitCount` is the length of the `commits` list (0 when absent) and
      an absent `labels` or `reviews` list is the empty sequence. */
  datatype RawPr = RawPr(
    number: Option<int>,
    author: Option<RawAuthor>,
    createdAt: Option<Stamp>,
    mergedAt: Option<Stamp>,
    closedAt: Option<Stamp>,
    additions: Option<int>,
    deletions: Option<int>,
    isDraft: Option<bool>,
    labels: seq<RawLabel>,
    commitCount: nat,
    reviews: seq<RawReview>)

  /** The PR list fetched for one repository (one entry of `all_prs_data`). */
  datatype RepoPrs = RepoPrs(repo: string, prs: seq<RawPr>)

  /** `pd.to_datetime(pr.get(key)) if pr.get(key) else None`: a timestamp
      counts only when its text is non-empty. */
  function ParsedStamp(s: Option<Stamp>): (t: Option<Instant>)
    ensures t.Some? <==> s.Some? && s.value.text != ""
    ensures t.Some? ==> t.value == s.value.instant
  {
    if s.Some? && s.value.text != "" then Some(s.value.instant) else None
  }

  datatype State = Open | Closed | Merged

  /** The `state` column's text. */
  function StateName(s: State): string
  {
    match s
    case Open => "open"
    case Closed => "closed"
    case Merged => "merged"
  }

  /** A normalized row.  `org` is None for rows of the older script, whose
      rows carry no org column. */
  datatype Row = Row(
    org: Option<string>,
    repo: string,
    prNumber: Option<int>,
    author: string,
    createdAt: Option<Instant>,
    mergedAt: Option<Instant>,
    state: State,
    prSize: int,
    commits: int,
    reviews: int,
    timeToMergeHours: Option<real>,
    timeToFirstReviewHours: Option<real>,
    isDraft: bool,
    labels: string)

  /** `state = 'merged'`. */
  predicate IsMerged(r: Row)
  {
    r.state == Merged
  }

  /** The row invariant the normalizers establish: the state is merged
      exactly when a merge time is present, and a time to merge exists only
      for a merged PR with a creation time, and is that difference. */
  predicate StateConsistent(r: Row)
  {
    && (r.state == Merged <==> r.mergedAt.Some?)
    && (r.timeToMergeHours.Some? <==> r.mergedAt.Some? && r.createdAt.Some?)
    && (r.timeToMergeHours.Some? ==> r.timeToMergeHours.value == HoursBetween(r.createdAt.value, r.mergedAt.value))
  }
}
