/** Organization resolution and the org-name slug used in file names
    (src/pr_metrics/utils.py). */
module Utils {
  import opened Wrappers

  /** Python truthiness of an optional string: present and non-empty. */
  predicate Truthy(s: Option<string>)
  {
    s.Some? && s.value != ""
  }

  /** `resolve_org` either returns an org or raises ValueError. */
  datatype OrgResolution = Resolved(org: string) | OrgNotSpecified

  /** The CLI argument wins, then the PR_METRICS_ORG environment value;
      with neither (None or empty) it is a configuration error.  The
      environment lookup is a parameter here. */
  function ResolveOrg(argsOrg: Option<string>, envOrg: Option<string>): (r: OrgResolution)
    ensures r.Resolved? <==> Truthy(argsOrg) || Truthy(envOrg)
    ensures Truthy(argsOrg) ==> r == Resolved(argsOrg.value)
    ensures !Truthy(argsOrg) && Truthy(envOrg) ==> r == Resolved(envOrg.value)
    ensures r.Resolved? ==> r.org != ""
  {
    if Truthy(argsOrg) then Resolved(argsOrg.value)
    else if Truthy(envOrg) then Resolved(envOrg.value)
    else OrgNotSpecified
  }

  predicate IsUpper(c: char)
  {
    'A' <= c <= 'Z'
  }

  /** `str.lower()` on one character (ASCII letters only). */
  function Lower(c: char): (l: char)
    ensures !IsUpper(l)
    ensures IsUpper(c) ==> l as int == c as int + 32
    ensures !IsUpper(c) ==> l == c
  {
    if IsUpper(c) then (c as int + 32) as char else c
  }

  /** One character of `.lower().replace(' ', '-').replace('_', '-')`. */
  function SanitizeChar(c: char): char
  {
    var l := Lower(c);
    if l == ' ' || l == '_' then '-' else l
  }

  /** `sanitize_org_name`: lower-case, spaces and underscores become dashes. */
  function SanitizeOrgName(s: string): (r: string)
    ensures |r| == |s|
    ensures forall i :: 0 <= i < |s| ==> r[i] == SanitizeChar(s[i])
    ensures forall i :: 0 <= i < |r| ==> r[i] != ' ' && r[i] != '_' && !IsUpper(r[i])
  {
    if s == [] then [] else [SanitizeChar(s[0])] + SanitizeOrgName(s[1..])
  }

  /** Sanitizing a sanitized name changes nothing. */
  lemma {:induction false} SanitizeIdempotent(s: string)
    ensures SanitizeOrgName(SanitizeOrgName(s)) == SanitizeOrgName(s)
  {
    if s != [] {
      var t := SanitizeOrgName(s);
      assert t[1..] == SanitizeOrgName(s[1..]);
      SanitizeIdempotent(s[1..]);
    }
  }

  /** Names that differ only in case, or in space/underscore/dash, share a slug. */
  lemma SanitizeMergesSpellings(s: string, t: string)
    requires |s| == |t|
    requires forall i :: 0 <= i < |s| ==> SanitizeChar(s[i]) == SanitizeChar(t[i])
    ensures SanitizeOrgName(s) == SanitizeOrgName(t)
  {
  }
}
