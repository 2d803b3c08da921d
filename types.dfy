/** The parts of GitHub's API payloads that the core reads. */
module GitHubTypes {
  import opened Wrappers

  /** Lifecycle of a check run or a workflow run. */
  datatype RunStatus = Queued | InProgress | Completed

  /** Terminal outcome of a check run; only check runs can need action. */
  datatype CheckConclusion =
    | CheckSuccess | CheckFailure | CheckNeutral | CheckCancelled | CheckSkipped | CheckTimedOut | CheckActionRequired

  /** Terminal outcome of a workflow run. */
  datatype RunConclusion = RunSuccess | RunFailure | RunNeutral | RunCancelled | RunSkipped | RunTimedOut

  function CheckConclusionName(c: CheckConclusion): string
  {
    match c
    case CheckSuccess => "success"
    case CheckFailure => "failure"
    case CheckNeutral => "neutral"
    case CheckCancelled => "cancelled"
    case CheckSkipped => "skipped"
    case CheckTimedOut => "timed_out"
    case CheckActionRequired => "action_required"
  }

  /** The failing triplet `['failure', 'timed_out', 'cancelled']`. */
  predicate IsFailingCheckConclusion(c: CheckConclusion)
  {
    c == CheckFailure || c == CheckTimedOut || c == CheckCancelled
  }

  predicate IsFailingRunConclusion(c: RunConclusion)
  {
    c == RunFailure || c == RunTimedOut || c == RunCancelled
  }

  /** A check run as listed for the head commit of a pull request. */
  datatype CheckRun = CheckRun(
    id: int,
    name: string,
    status: RunStatus,
    conclusion: Option<CheckConclusion>,
    detailsUrl: Option<string>)

  /** A workflow run; `createdAt` is the run's creation time in milliseconds, absent when the payload lacks it. */
  datatype WorkflowRun = WorkflowRun(
    id: int,
    name: string,
    status: RunStatus,
    conclusion: Option<RunConclusion>,
    createdAt: Option<int>,
    htmlUrl: string)

  /** An open or closed pull request. */
  datatype PullRequest = PullRequest(number: int, htmlUrl: string, headRef: string, baseRef: string)

  /** The `output` block of a check run fetched by id. */
  datatype CheckOutput = CheckOutput(title: Option<string>, summary: Option<string>, text: Option<string>)

  /** One entry of a pull-request check failure report; the fallback entry has no summary and no output. */
  datatype FailedCheck = FailedCheck(
    name: string,
    conclusion: string,
    detailsUrl: Option<string>,
    summary: Option<string>,
    output: Option<CheckOutput>)

  /** JavaScript's `x || undefined` on an optional string: the empty string counts as absent. */
  function Truthy(s: Option<string>): (r: Option<string>)
    ensures r.Some? <==> s.Some? && s.value != ""
    ensures r.Some? ==> r == s
  {
    if s.Some? && s.value != "" then s else None
  }
}
