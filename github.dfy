/** Post-processing of the hosting platform's CLI output (github.py): the
    CLI call itself is an input, given as what it printed and what that text
    parses to as JSON. */
module GitHub {
  import opened Wrappers
  import opened Strings
  import opened Ordering
  import opened Records

  /** One CLI invocation: it exits with an error, or it prints `stdout`,
      whose JSON parse is `json` (None when the text is not valid JSON). */
  datatype GhCall<T> = CommandFailed | Printed(stdout: string, json: Option<seq<T>>)

  /** A Python call that returns a list or raises. */
  datatype Outcome<T> = Returned(items: seq<T>) | Raised

  /** `run_gh_command`: a failing command and blank output both give `[]`;
      text that is not JSON raises (only the command failure is caught). */
  function RunGhCommand<T>(call: GhCall<T>): (r: Outcome<T>)
    ensures r.Raised? <==> call.Printed? && !IsBlank(call.stdout) && call.json.None?
    ensures call.CommandFailed? ==> r == Returned([])
    ensures call.Printed? && IsBlank(call.stdout) ==> r == Returned([])
    ensures call.Printed? && !IsBlank(call.stdout) && call.json.Some? ==> r == Returned(call.json.value)
  {
    match call
    case CommandFailed => Returned([])
    case Printed(stdout, json) =>
      if IsBlank(stdout) then Returned([])
      else if json.None? then Raised
      else Returned(json.value)
  }

  /** Output made only of non-ASCII or separator whitespace is blank too:
      it gives `[]` rather than a JSON error. */
  lemma WhitespaceOutputIsEmpty(call: GhCall<RawPr>)
    requires call.Printed? && call.stdout in ["\U{1C}", "\U{A0}", "\U{2028} \U{3000}", "\t\U{85}\U{1F}"]
    ensures RunGhCommand(call) == Returned([])
  {
  }

  // ---------------------------------------------------------------------
  // Active repositories from a PR search

  /** `{'name': ...}` under a search hit's `repository`; None for a missing
      object or key. */
  datatype RepoRef = RepoRef(name: Option<string>)

  datatype SearchHit = SearchHit(repository: Option<RepoRef>)

  /** `pr.get('repository', {}).get('name')`, when truthy. */
  predicate HasRepoName(hit: SearchHit)
  {
    hit.repository.Some? && hit.repository.value.name.Some? && hit.repository.value.name.value != ""
  }

  function RepoNameOf(hit: SearchHit): string
    requires HasRepoName(hit)
  {
    hit.repository.value.name.value
  }

  /** Strictly ascending: sorted and free of duplicates. */
  predicate StrictlyAscending(names: seq<string>)
  {
    forall i, j :: 0 <= i < j < |names| ==> LexLess(names[i], names[j])
  }

  lemma LexLeqOrderTotal()
    ensures TotalPreorder(LexLeq)
  {
    forall a: string, b: string
      ensures LexLeq(a, b) || LexLeq(b, a)
    {
      LexTrichotomy(a, b);
    }
    forall a: string, b: string, c: string | LexLeq(a, b) && LexLeq(b, c)
      ensures LexLeq(a, c)
    {
      if a != b && b != c {
        LexTransitive(a, b, c);
      }
    }
  }

  /** `sorted(names)` of a set of names, the set given by the distinct
      elements of a sequence. */
  function SortedNames(names: seq<string>): (r: seq<string>)
    ensures StrictlyAscending(r)
    ensures forall n :: n in r <==> n in names
  {
    var d := Dedup(names);
    var r := Sort(d, LexLeq);
    LexLeqOrderTotal();
    SortSorted(d, LexLeq);
    DistinctPermutation(d, r);
    assert forall n :: n in r <==> n in multiset(d);
    forall i, j | 0 <= i < j < |r|
      ensures LexLess(r[i], r[j])
    {
      assert LexLeq(r[i], r[j]) && r[i] != r[j];
    }
    r
  }

  /** The search hits' repositories: every distinct non-empty name, sorted
      ascending, collected into a set by a loop. */
  method CollectRepoNames(hits: seq<SearchHit>) returns (active: seq<string>)
    ensures StrictlyAscending(active)
    ensures forall n :: n in active <==> exists i :: 0 <= i < |hits| && HasRepoName(hits[i]) && RepoNameOf(hits[i]) == n
  {
    var added: seq<string> := [];
    for i := 0 to |hits|
      invariant forall n :: n in added <==> exists k :: 0 <= k < i && HasRepoName(hits[k]) && RepoNameOf(hits[k]) == n
    {
      if HasRepoName(hits[i]) {
        added := added + [RepoNameOf(hits[i])];
      }
    }
    active := SortedNames(added);
  }

  /** `get_active_repos_from_search`: the sorted names of the search, or the
      full repository list when the search finds nothing or raises. */
  method ActiveReposFromSearch(search: GhCall<SearchHit>, repoList: GhCall<string>) returns (r: Outcome<string>)
    ensures RunGhCommand(search).Raised? || RunGhCommand(search) == Returned([]) ==> r == RunGhCommand(repoList)
    ensures RunGhCommand(search).Returned? && RunGhCommand(search).items != [] ==> (r.Returned?
      && StrictlyAscending(r.items)
      && forall n :: n in r.items <==> exists hit :: hit in RunGhCommand(search).items && HasRepoName(hit) && RepoNameOf(hit) == n)
  {
    var hits := RunGhCommand(search);
    if hits.Raised? || hits.items == [] {
      return RunGhCommand(repoList);
    }
    var names := CollectRepoNames(hits.items);
    r := Returned(names);
  }

  // ---------------------------------------------------------------------
  // Date filter on a repository's PR list

  /** `pr['createdAt'][:10] >= since_date` for a PR with a non-empty
      `createdAt`; every other PR is dropped. */
  predicate CreatedSince(pr: RawPr, since: string)
  {
    pr.createdAt.Some? && pr.createdAt.value.text != "" && !LexLess(Take(pr.createdAt.value.text, 10), since)
  }

  function CreatedSinceTest(since: string): RawPr -> bool
  {
    (pr: RawPr) => CreatedSince(pr, since)
  }

  /** The post-processing of `get_repo_prs`: the PRs created on or after
      `since`, in their listed order. */
  method FilterSince(prs: seq<RawPr>, since: string) returns (kept: seq<RawPr>)
    ensures kept == Filter(prs, CreatedSinceTest(since))
  {
    var keep := CreatedSinceTest(since);
    kept := [];
    for i := 0 to |prs|
      invariant kept == Filter(prs[..i], keep)
    {
      FilterSnoc(prs[..i], prs[i], keep);
      assert prs[..i + 1] == prs[..i] + [prs[i]];
      if keep(prs[i]) {
        kept := kept + [prs[i]];
      }
    }
    assert prs[..|prs|] == prs;
  }

  /** `get_repo_prs` on the listing call: a failing or blank listing gives
      no PRs, unparsable output raises. */
  method GetRepoPrs(listing: GhCall<RawPr>, since: string) returns (r: Outcome<RawPr>)
    ensures r.Raised? <==> RunGhCommand(listing).Raised?
    ensures r.Returned? ==> r.items == Filter(RunGhCommand(listing).items, CreatedSinceTest(since))
  {
    var all := RunGhCommand(listing);
    if all.Raised? {
      return Raised;
    }
    var kept := FilterSince(all.items, since);
    r := Returned(kept);
  }

  /** Kept PRs are exactly those with a date prefix not before `since`. */
  lemma FilterSinceExactly(prs: seq<RawPr>, since: string, pr: RawPr)
    ensures pr in Filter(prs, CreatedSinceTest(since)) <==> (pr in prs
      && pr.createdAt.Some? && pr.createdAt.value.text != ""
      && LexLeq(since, Take(pr.createdAt.value.text, 10)))
  {
    var t := if pr.createdAt.Some? then Take(pr.createdAt.value.text, 10) else "";
    LexTrichotomy(t, since);
    if LexLess(since, t) {
      LexAsymmetric(since, t);
    }
    if t == since {
      LexIrreflexive(t);
    }
  }

  /** A PR without a creation time is never kept. */
  lemma UndatedDropped(prs: seq<RawPr>, since: string, pr: RawPr)
    requires pr.createdAt.None? || pr.createdAt.value.text == ""
    ensures pr !in Filter(prs, CreatedSinceTest(since))
  {
  }
}
