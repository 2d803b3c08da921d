/** Creating a pull request: title truncation and reuse of an already open one. */
module PullRequests {
  import opened Wrappers
  import opened GitHubTypes
  import Strings

  /** GitHub's limit on the length of a pull request title. */
  const TitleLimit: nat := 256
  /** The characters kept before the `"..."` suffix. */
  const TitleKeep: nat := TitleLimit - 3

  /**
   * `truncatePullRequestTitle`: a title within the limit is kept; a longer one is cut to its first
   * 253 characters, and further back to the last space among them when that space lies past 80%
   * of 253 (`lastSpaceIndex > 253 * 0.8`, in integers `5 * i > 4 * 253`), then `"..."` is appended.
   */
  function TruncatePullRequestTitle(title: string): (r: string)
    ensures |title| <= TitleLimit ==> r == title
    ensures |title| > TitleLimit ==> 206 <= |r| <= TitleLimit && r[|r| - 3..] == "..."
    ensures |title| > TitleLimit && |r| >= 3 ==>
      var kept := r[..|r| - 3];
      && r == kept + "..."
      && kept <= title
      && (|kept| == TitleKeep <==> forall j :: 203 <= j < TitleKeep ==> title[j] != ' ')
      && (|kept| < TitleKeep ==>
            203 <= |kept| && title[|kept|] == ' ' && forall j :: |kept| < j < TitleKeep ==> title[j] != ' ')
  {
    if |title| <= TitleLimit then title
    else
      var truncated := title[..TitleKeep];
      var lastSpaceIndex := Strings.LastIndexOf(truncated, ' ');
      var kept := if 5 * lastSpaceIndex > 4 * TitleKeep then truncated[..lastSpaceIndex] else truncated;
      assert (kept + "...")[..|kept|] == kept;
      kept + "..."
  }

  /** Truncation is idempotent: a truncated title is short enough to pass through unchanged. */
  lemma TruncateIdempotent(title: string)
    ensures TruncatePullRequestTitle(TruncatePullRequestTitle(title)) == TruncatePullRequestTitle(title)
  {
  }

  /** The answer of `findOpenPullRequestByHeadRef`: the open pull requests listed for the head, or an error. */
  datatype Lookup = Listed(prs: seq<PullRequest>) | LookupFailed

  /** `response.data[0] ?? null`. */
  function FirstOpen(prs: seq<PullRequest>): Option<PullRequest>
  {
    if |prs| == 0 then None else Some(prs[0])
  }

  /** The answer of `octokit.pulls.create`: the new pull request, or an error with its HTTP status. */
  datatype CreateResponse = CreateOk(pr: PullRequest) | CreateRejected(status: int)

  /** How `createPullRequest` ends. Every outcome but `Reused` follows a create call with `sentTitle`. */
  datatype CreateOutcome =
    | Reused(pr: PullRequest)
    | Created(pr: PullRequest, sentTitle: string)
    | ReusedAfterConflict(pr: PullRequest, sentTitle: string)
    | CreationError(sentTitle: string, existingNumber: Option<int>, existingUrl: Option<string>)
    | Rethrown(sentTitle: string, status: int)
    | LookupError

  predicate TargetsBase(pr: Option<PullRequest>, base: string)
  {
    pr.Some? && pr.value.baseRef == base
  }

  /**
   * `createPullRequest(title, body, head, base, {reuseExisting})`. The pre-flight lookup runs unless
   * `reuseExisting` is `false` and its error propagates; the lookup after a 422 swallows errors;
   * the `PullRequestCreationError` thrown after an unresolved 422 is kept opaque.
   */
  function CreatePullRequest(
    title: string,
    base: string,
    reuseExisting: Option<bool>,
    preflight: Lookup,
    create: CreateResponse,
    afterConflict: Lookup): (r: CreateOutcome)
    ensures r.Reused? <==>
      reuseExisting != Some(false) && preflight.Listed? && TargetsBase(FirstOpen(preflight.prs), base)
    ensures r.Reused? ==> r.pr == preflight.prs[0]
    ensures r.LookupError? <==> reuseExisting != Some(false) && preflight.LookupFailed?
    ensures !r.Reused? && !r.LookupError? ==> r.sentTitle == TruncatePullRequestTitle(Strings.Trim(title))
    ensures r.Created? <==> !r.Reused? && !r.LookupError? && create.CreateOk?
    ensures r.ReusedAfterConflict? <==>
      && !r.Reused? && !r.LookupError? && create == CreateRejected(422)
      && afterConflict.Listed? && TargetsBase(FirstOpen(afterConflict.prs), base)
    ensures r.ReusedAfterConflict? ==> r.pr == afterConflict.prs[0] && r.pr.baseRef == base
    ensures r.Rethrown? <==> !r.Reused? && !r.LookupError? && create.CreateRejected? && create.status != 422
    ensures r.Created? ==> r.pr == create.pr
    ensures r.Rethrown? ==> r.status == create.status
    ensures r.CreationError? ==>
      var found := if afterConflict.LookupFailed? then None else FirstOpen(afterConflict.prs);
      && create == CreateRejected(422)
      && !TargetsBase(found, base)
      && r.existingNumber == (if found.Some? then Some(found.value.number) else None)
      && r.existingUrl == (if found.Some? then Some(found.value.htmlUrl) else None)
  {
    var existing := if reuseExisting == Some(false) || preflight.LookupFailed? then None else FirstOpen(preflight.prs);
    if reuseExisting != Some(false) && preflight.LookupFailed? then LookupError
    else if TargetsBase(existing, base) then Reused(existing.value)
    else
      var sentTitle := TruncatePullRequestTitle(Strings.Trim(title));
      match create
      case CreateOk(pr) => Created(pr, sentTitle)
      case CreateRejected(status) =>
        if status == 422 then
          var found := if afterConflict.LookupFailed? then None else FirstOpen(afterConflict.prs);
          if TargetsBase(found, base) then ReusedAfterConflict(found.value, sentTitle)
          else CreationError(
            sentTitle,
            if found.Some? then Some(found.value.number) else None,
            if found.Some? then Some(found.value.htmlUrl) else None)
        else Rethrown(sentTitle, status)
  }

  /** Any title that reaches GitHub fits its limit. */
  lemma SentTitleWithinLimit(
    title: string, base: string, reuseExisting: Option<bool>,
    preflight: Lookup, create: CreateResponse, afterConflict: Lookup)
    ensures var r := CreatePullRequest(title, base, reuseExisting, preflight, create, afterConflict);
      !r.Reused? && !r.LookupError? ==> |r.sentTitle| <= TitleLimit
  {
  }
}
