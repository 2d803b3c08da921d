/**
 * Waiting for a pull request's checks. Every pass of the polling loop reads the clock and the API;
 * here a pass is a `PrTick` holding what those reads returned, and a wait is driven by a finite
 * script of ticks. The step function `PrStep` is the loop body, `PrRun` runs a script, and the
 * imperative `WaitForPullRequestChecks` is proved to compute `PrRun`.
 */
module PrChecks {
  import opened Wrappers
  import opened GitHubTypes
  import opened Errors
  import opened Prompt
  import Strings
  import RepoUrl

  // ---------------------------------------------------------------------------------------------
  // Probes used when no checks show up

  /** `hasWorkflowsConfigured`: the repository lists at least one workflow; a failed listing counts as yes. */
  function HasWorkflowsConfigured(workflowCount: Fetch<nat>): (r: bool)
    ensures workflowCount.FetchFailed? ==> r
    ensures workflowCount.Fetched? ==> (r <==> workflowCount.value > 0)
  {
    match workflowCount
    case FetchFailed => true
    case Fetched(n) => n > 0
  }

  /** How far back a run on the head branch still counts without matching the head commit: five minutes. */
  const RecentWindow: int := 300000

  /** A workflow run as far as `hasWorkflowRunsForPR` looks at it. */
  datatype RunRef = RunRef(headSha: string, headBranch: string, createdAt: int)

  /**
   * What `hasWorkflowRunsForPR` read: the pull request's head commit and branch, the runs listed for
   * that commit and the runs listed for that branch, and the clock.
   */
  datatype PrRunsProbe = PrRunsProbe(
    headSha: string,
    headRef: string,
    shaRuns: seq<RunRef>,
    branchRuns: seq<RunRef>,
    now: int)

  /** A run belongs to the pull request: same head commit, or same branch and created in the last five minutes. */
  predicate IsRelevant(run: RunRef, p: PrRunsProbe)
  {
    run.headSha == p.headSha || (run.headBranch == p.headRef && run.createdAt > p.now - RecentWindow)
  }

  /** `allRuns.filter(...)`: the relevant runs, in order, duplicates kept. */
  function RelevantRuns(runs: seq<RunRef>, p: PrRunsProbe): (r: seq<RunRef>)
    ensures |r| <= |runs|
    ensures forall run :: run in r <==> run in runs && IsRelevant(run, p)
    decreases |runs|
  {
    if |runs| == 0 then []
    else
      var rest := RelevantRuns(runs[..|runs| - 1], p);
      assert runs == runs[..|runs| - 1] + [runs[|runs| - 1]];
      if IsRelevant(runs[|runs| - 1], p) then rest + [runs[|runs| - 1]] else rest
  }

  /** `hasWorkflowRunsForPR`: some listed run is relevant; any failure while probing counts as yes. */
  function HasWorkflowRunsForPR(probe: Fetch<PrRunsProbe>): (r: bool)
    ensures probe.FetchFailed? ==> r
    ensures probe.Fetched? ==>
      (r <==> exists run :: run in probe.value.shaRuns + probe.value.branchRuns && IsRelevant(run, probe.value))
  {
    match probe
    case FetchFailed => true
    case Fetched(p) =>
      var relevant := RelevantRuns(p.shaRuns + p.branchRuns, p);
      assert |relevant| > 0 ==> relevant[0] in relevant;
      |relevant| > 0
  }

  // ---------------------------------------------------------------------------------------------
  // The report thrown when checks fail

  /** `cr.conclusion && ['failure', 'timed_out', 'cancelled'].includes(cr.conclusion)`. */
  predicate IsFailing(cr: CheckRun)
  {
    cr.conclusion.Some? && IsFailingCheckConclusion(cr.conclusion.value)
  }

  /** `checkRuns.filter(...)`: the failing check runs, in order. */
  function FailingChecks(runs: seq<CheckRun>): (r: seq<CheckRun>)
    ensures |r| <= |runs|
    ensures forall cr :: cr in r <==> cr in runs && IsFailing(cr)
    ensures |r| == 0 <==> forall k :: 0 <= k < |runs| ==> !IsFailing(runs[k])
    decreases |runs|
  {
    if |runs| == 0 then []
    else
      var rest := FailingChecks(runs[..|runs| - 1]);
      assert runs == runs[..|runs| - 1] + [runs[|runs| - 1]];
      if IsFailing(runs[|runs| - 1]) then rest + [runs[|runs| - 1]] else rest
  }

  /** `check.conclusion || 'unknown'`. */
  function ConclusionText(c: Option<CheckConclusion>): string
  {
    if c.Some? then CheckConclusionName(c.value) else "unknown"
  }

  /**
   * One entry of the report. `details` holds what `checks.get` returned for each check run it
   * answered (the run's `output`, which may be missing); a run absent from it made that call throw,
   * and the entry falls back to name, conclusion and link.
   */
  function EnrichCheck(cr: CheckRun, details: map<int, Option<CheckOutput>>): (f: FailedCheck)
    ensures f.name == cr.name && f.conclusion == ConclusionText(cr.conclusion)
    ensures f.detailsUrl == Truthy(cr.detailsUrl)
    ensures cr.id !in details ==> f.summary.None? && f.output.None?
    ensures cr.id in details ==> f.output.Some?
    ensures cr.id in details && details[cr.id].Some? ==>
      f.summary == Truthy(details[cr.id].value.summary) &&
      f.output == Some(CheckOutput(
        Truthy(details[cr.id].value.title), Truthy(details[cr.id].value.summary), Truthy(details[cr.id].value.text)))
    ensures cr.id in details && details[cr.id].None? ==>
      f.summary.None? && f.output == Some(CheckOutput(None, None, None))
  {
    if cr.id in details then
      var out := details[cr.id];
      FailedCheck(
        cr.name,
        ConclusionText(cr.conclusion),
        Truthy(cr.detailsUrl),
        if out.Some? then Truthy(out.value.summary) else None,
        Some(if out.Some?
             then CheckOutput(Truthy(out.value.title), Truthy(out.value.summary), Truthy(out.value.text))
             else CheckOutput(None, None, None)))
    else
      FailedCheck(cr.name, ConclusionText(cr.conclusion), Truthy(cr.detailsUrl), None, None)
  }

  /** `Promise.all(failingChecks.map(...))`: one entry per failing run, in the same order. */
  function EnrichChecks(failing: seq<CheckRun>, details: map<int, Option<CheckOutput>>): (r: seq<FailedCheck>)
    ensures |r| == |failing|
    ensures forall k :: 0 <= k < |failing| ==> r[k] == EnrichCheck(failing[k], details)
  {
    seq(|failing|, k requires 0 <= k < |failing| => EnrichCheck(failing[k], details))
  }

  /** What the wait is told. `timeout` and `skipUserConfirmation` are the optional settings. */
  datatype PrWaitConfig = PrWaitConfig(
    prNumber: nat,
    timeout: Option<int>,
    skipUserConfirmation: bool)

  /** `https://github.com/${owner}/${repo}/pull/${prNumber}`. */
  function PullRequestUrl(prNumber: nat, d: RepoUrl.RepoDetails): string
  {
    "https://github.com/" + d.owner + "/" + d.repo + "/pull/" + Strings.NatToString(prNumber)
  }

  /** `check${n > 1 ? 's' : ''}`. */
  function CheckWord(n: nat): (w: string)
    ensures w == "checks" <==> n > 1
    ensures w == "check" <==> n <= 1
  {
    if n > 1 then "checks" else "check"
  }

  /** `PR #${prNumber} checks failed. ${n} check(s) failed.` */
  function FailureMessage(prNumber: nat, failing: nat): string
  {
    PrTag(prNumber) + " checks failed. " + Strings.NatToString(failing) + " "
      + CheckWord(failing) + " failed."
  }

  /**
   * The error thrown when checks fail: the count in its message, one report entry per failing run, and
   * the URL built from the repository details read again when the failure is seen.
   */
  function ChecksFailedError(prNumber: nat, d: RepoUrl.RepoDetails, failing: seq<CheckRun>, details: map<int, Option<CheckOutput>>)
    : (e: PullRequestCheckError)
    ensures e.name == "PullRequestCheckError"
    ensures e.message == FailureMessage(prNumber, |failing|)
    ensures e.prNumber == prNumber && e.prUrl == PullRequestUrl(prNumber, d)
    ensures |e.failedChecks| == |failing|
    ensures forall k :: 0 <= k < |failing| ==> e.failedChecks[k] == EnrichCheck(failing[k], details)
  {
    NewPullRequestCheckError(
      FailureMessage(prNumber, |failing|), Some(prNumber), Some(EnrichChecks(failing, details)),
      Some(PullRequestUrl(prNumber, d)))
  }

  /** The recovery text of a checks-failed error leads to the pull request itself. */
  lemma ChecksFailedErrorPointsAtPullRequest(
    prNumber: nat, d: RepoUrl.RepoDetails, failing: seq<CheckRun>, details: map<int, Option<CheckOutput>>)
    ensures Strings.Contains(RecoveryInstructions(ChecksFailedError(prNumber, d, failing, details)), PullRequestUrl(prNumber, d))
  {
    RecoveryInstructionsMention(ChecksFailedError(prNumber, d, failing, details));
  }

  // ---------------------------------------------------------------------------------------------
  // The polling loop

  /** `options.timeout || 3600000`: missing or zero gives one hour. */
  function EffectiveTimeout(timeout: Option<int>): (t: int)
    ensures timeout.None? ==> t == 3600000
    ensures timeout.Some? && timeout.value == 0 ==> t == 3600000
    ensures timeout.Some? && timeout.value != 0 ==> t == timeout.value
  {
    if timeout.Some? && timeout.value != 0 then timeout.value else 3600000
  }

  /** `maxConsecutiveNoChecks`: empty check lists in a row before the repository is examined. */
  const MaxConsecutiveNoChecks: nat := 3

  /** What one pass of the loop reads. */
  datatype PrTick = PrTick(
    elapsed: int,                                // Date.now() - startTime
    checks: Fetch<seq<CheckRun>>,                // pulls.get then checks.listForRef; either may throw
    details: map<int, Option<CheckOutput>>,      // checks.get per failing run id
    repoDetails: Fetch<RepoUrl.RepoDetails>,     // getRepoDetails, read again once checks fail
    workflowCount: Fetch<nat>,                   // what hasWorkflowsConfigured reads
    runsProbe: Fetch<PrRunsProbe>)               // what hasWorkflowRunsForPR reads

  /** The loop's variables `consecutiveNoChecksCount` and `checkedWorkflowRuns`. */
  datatype PrState = PrState(noChecks: nat, checkedRuns: bool)

  const PrStart: PrState := PrState(0, false)

  /** Why the wait would give up on checks; each has its own question. */
  datatype Situation = TimedOut | NoWorkflows | NoTriggeredRuns | PushOnlyRuns | Stalled

  /** How a wait ends. */
  datatype PrStop =
    | Proceeded(situation: Situation, asked: bool)   // returns without checks (`asked`: the gate said yes)
    | AllChecksPassed                                // returns: every check completed, none failing
    | Declined(situation: Situation)                 // throws: the gate said no
    | TimedOutUnattended                             // throws: timeout without asking
    | ChecksFailed(error: PullRequestCheckError)     // throws the report
    | ApiFailed                                      // an unguarded API call threw

  datatype PrStepResult = Continue(next: PrState) | Stop(stop: PrStop)

  /** A scripted wait either ends or is still polling when the script runs out. */
  datatype PrWait = Finished(stop: PrStop) | StillPolling(state: PrState)

  /** `Math.round(ms / 1000)`: JavaScript rounds halves up, which is floor of `x + 0.5`. */
  function RoundedSeconds(ms: int): int
  {
    (ms + 500) / 1000
  }

  /** `PR #${prNumber}`, as every question names the pull request. */
  function PrTag(prNumber: nat): string
  {
    "PR #" + Strings.NatToString(prNumber)
  }

  // The fixed text of the questions, around the pull request's tag.
  const TimeoutLead: string := "  Timeout reached while waiting for "
  const TimeoutTail: string :=
    " checks.\nThis might indicate that no checks are configured for this repository.\n"
    + "Do you want to proceed with merging the PR without waiting for checks?"
  const NoWorkflowsLead: string := "  No GitHub Actions workflows or checks are configured for this repository.\n"
  const NoWorkflowsTail: string :=
    " will never have status checks to wait for.\nDo you want to proceed with merging the PR without checks?"
  const NoTriggersLead: string :=
    "  GitHub Actions workflows are configured in this repository, but none appear to be triggered by "
  const NoTriggersMiddle: string :=
    ".\nThis usually means the workflow trigger patterns (branches, paths) don't match this PR.\n"
  const NoTriggersTail: string :=
    " will likely never have status checks to wait for.\n"
    + "Do you want to proceed with merging the PR without waiting for checks?"
  const PushOnlyLead: string := "  Workflow runs exist for the branch, but no check runs are associated with "
  const PushOnlyTail: string :=
    ".\nThis typically means workflows are configured for 'push' events but not 'pull_request' events.\n"
    + "Do you want to proceed with merging the PR without waiting for checks?"
  const StalledLead: string := "  After waiting "
  const StalledMiddle: string := "s, no checks have appeared for "
  const StalledTail: string :=
    ".\nThe configured workflows don't appear to trigger for this branch.\n"
    + "Do you want to proceed with merging the PR without checks?"

  /** The question the gate is asked in each situation: its opening, the pull request, and the rest. */
  function Question(s: Situation, prNumber: nat, elapsed: int): string
  {
    QuestionLead(s, elapsed) + PrTag(prNumber) + QuestionTail(s, PrTag(prNumber))
  }

  /** What a question says before it first names the pull request. */
  function QuestionLead(s: Situation, elapsed: int): string
  {
    WarningSign +
      match s
      case TimedOut => TimeoutLead
      case NoWorkflows => NoWorkflowsLead
      case NoTriggeredRuns => NoTriggersLead
      case PushOnlyRuns => PushOnlyLead
      case Stalled => StalledLead + Strings.IntToString(RoundedSeconds(elapsed)) + StalledMiddle
  }

  /** What a question says after it names the pull request `tag`. */
  function QuestionTail(s: Situation, tag: string): string
  {
    match s
    case TimedOut => TimeoutTail
    case NoWorkflows => NoWorkflowsTail
    case NoTriggeredRuns => NoTriggersMiddle + tag + NoTriggersTail
    case PushOnlyRuns => PushOnlyTail
    case Stalled => StalledTail
  }

  /**
   * How a situation ends: unattended, a timeout throws and everything else returns; otherwise the
   * gate's answer decides between returning and throwing.
   */
  function Decide(s: Situation, c: PrWaitConfig, elapsed: int, prompt: string -> bool): (stop: PrStop)
    ensures c.skipUserConfirmation && s == TimedOut ==> stop == TimedOutUnattended
    ensures c.skipUserConfirmation && s != TimedOut ==> stop == Proceeded(s, false)
    ensures !c.skipUserConfirmation ==>
      stop == (if prompt(Question(s, c.prNumber, elapsed)) then Proceeded(s, true) else Declined(s))
  {
    if c.skipUserConfirmation then
      if s == TimedOut then TimedOutUnattended else Proceeded(s, false)
    else if prompt(Question(s, c.prNumber, elapsed)) then Proceeded(s, true)
    else Declined(s)
  }

  /** One pass of the `while (true)` loop of `waitForPullRequestChecks`. */
  function PrStep(st: PrState, t: PrTick, c: PrWaitConfig, prompt: string -> bool): PrStepResult
  {
    if t.elapsed > EffectiveTimeout(c.timeout) then Stop(Decide(TimedOut, c, t.elapsed, prompt))
    else
      match t.checks
      case FetchFailed => Stop(ApiFailed)
      case Fetched(runs) =>
        if |runs| == 0 then
          var misses := st.noChecks + 1;
          if misses >= MaxConsecutiveNoChecks then
            if !HasWorkflowsConfigured(t.workflowCount) then Stop(Decide(NoWorkflows, c, t.elapsed, prompt))
            else if !st.checkedRuns then
              if !HasWorkflowRunsForPR(t.runsProbe) then Stop(Decide(NoTriggeredRuns, c, t.elapsed, prompt))
              else Stop(Decide(PushOnlyRuns, c, t.elapsed, prompt))
            else Stop(Decide(Stalled, c, t.elapsed, prompt))
          else Continue(PrState(misses, st.checkedRuns))
        else
          var failing := FailingChecks(runs);
          if |failing| > 0 then
            match t.repoDetails
            case FetchFailed => Stop(ApiFailed)
            case Fetched(d) => Stop(ChecksFailed(ChecksFailedError(c.prNumber, d, failing, t.details)))
          else if forall k :: 0 <= k < |runs| ==> runs[k].status == Completed then Stop(AllChecksPassed)
          else Continue(PrState(0, st.checkedRuns))
  }

  /** Runs the loop over a script of passes. */
  function PrRun(st: PrState, script: seq<PrTick>, c: PrWaitConfig, prompt: string -> bool): PrWait
    decreases |script|
  {
    if |script| == 0 then StillPolling(st)
    else
      match PrStep(st, script[0], c, prompt)
      case Stop(r) => Finished(r)
      case Continue(next) => PrRun(next, script[1..], c, prompt)
  }

  /** Asks the gate, or not, and turns the answer into the way the wait ends. */
  method Settle(s: Situation, c: PrWaitConfig, elapsed: int, gate: PromptGate) returns (stop: PrStop)
    ensures stop == Decide(s, c, elapsed, gate.current)
  {
    if !c.skipUserConfirmation {
      var proceedWithoutChecks := gate.PromptConfirmation(Question(s, c.prNumber, elapsed));
      if proceedWithoutChecks {
        stop := Proceeded(s, true);
      } else {
        stop := Declined(s);
      }
    } else if s == TimedOut {
      stop := TimedOutUnattended;
    } else {
      stop := Proceeded(s, false);
    }
  }

  /** `waitForPullRequestChecks` over a script of passes, asking `gate`. */
  method WaitForPullRequestChecks(c: PrWaitConfig, script: seq<PrTick>, gate: PromptGate) returns (result: PrWait)
    ensures result == PrRun(PrStart, script, c, gate.current)
  {
    var timeout := EffectiveTimeout(c.timeout);
    var consecutiveNoChecksCount: nat := 0;
    var checkedWorkflowRuns := false;
    var i := 0;
    while i < |script|
      invariant 0 <= i <= |script|
      invariant PrRun(PrStart, script, c, gate.current)
             == PrRun(PrState(consecutiveNoChecksCount, checkedWorkflowRuns), script[i..], c, gate.current)
    {
      var t := script[i];
      assert script[i..][0] == t && script[i..][1..] == script[i + 1..];
      if t.elapsed > timeout {
        var stop := Settle(TimedOut, c, t.elapsed, gate);
        return Finished(stop);
      }
      if t.checks.FetchFailed? {
        return Finished(ApiFailed);
      }
      var checkRuns := t.checks.value;
      if |checkRuns| == 0 {
        consecutiveNoChecksCount := consecutiveNoChecksCount + 1;
        if consecutiveNoChecksCount >= MaxConsecutiveNoChecks {
          var hasWorkflows := HasWorkflowsConfigured(t.workflowCount);
          if !hasWorkflows {
            var stop := Settle(NoWorkflows, c, t.elapsed, gate);
            return Finished(stop);
          } else if !checkedWorkflowRuns {
            var hasRunsForPR := HasWorkflowRunsForPR(t.runsProbe);
            checkedWorkflowRuns := true;
            var stop := Settle(if !hasRunsForPR then NoTriggeredRuns else PushOnlyRuns, c, t.elapsed, gate);
            return Finished(stop);
          } else {
            var stop := Settle(Stalled, c, t.elapsed, gate);
            return Finished(stop);
          }
        }
        i := i + 1;
        continue;
      }
      consecutiveNoChecksCount := 0;
      var failingChecks := FailingChecks(checkRuns);
      if |failingChecks| > 0 {
        if t.repoDetails.FetchFailed? {
          return Finished(ApiFailed);
        }
        var repoDetails := t.repoDetails.value;
        return Finished(ChecksFailed(ChecksFailedError(c.prNumber, repoDetails, failingChecks, t.details)));
      }
      var allChecksCompleted := forall k :: 0 <= k < |checkRuns| ==> checkRuns[k].status == Completed;
      if allChecksCompleted {
        return Finished(AllChecksPassed);
      }
      i := i + 1;
    }
    return StillPolling(PrState(consecutiveNoChecksCount, checkedWorkflowRuns));
  }

  // ---------------------------------------------------------------------------------------------
  // What the loop guarantees

  /** Between passes fewer than three misses are counted and the runs probe has not been used. */
  predicate Polling(st: PrState)
  {
    st.noChecks < MaxConsecutiveNoChecks && !st.checkedRuns
  }

  /** The wait ended in the "already probed, still no checks" branch. */
  predicate EndsStalled(stop: PrStop)
  {
    (stop.Proceeded? || stop.Declined?) && stop.situation == Stalled
  }

  /** A pass that continues keeps `Polling`, and a pass from a `Polling` state never stalls. */
  lemma StepKeepsPolling(st: PrState, t: PrTick, c: PrWaitConfig, prompt: string -> bool)
    requires Polling(st)
    ensures PrStep(st, t, c, prompt).Continue? ==> Polling(PrStep(st, t, c, prompt).next)
    ensures PrStep(st, t, c, prompt).Stop? ==> !EndsStalled(PrStep(st, t, c, prompt).stop)
  {
  }

  /**
   * The branch for "runs were already probed and still no checks" can never be taken: the pass that
   * probes the runs always ends the wait.
   */
  lemma {:induction false} StalledIsUnreachable(st: PrState, script: seq<PrTick>, c: PrWaitConfig, prompt: string -> bool)
    requires Polling(st)
    ensures PrRun(st, script, c, prompt).StillPolling? ==> Polling(PrRun(st, script, c, prompt).state)
    ensures PrRun(st, script, c, prompt).Finished? ==> !EndsStalled(PrRun(st, script, c, prompt).stop)
    decreases |script|
  {
    if |script| > 0 {
      StepKeepsPolling(st, script[0], c, prompt);
      if PrStep(st, script[0], c, prompt).Continue? {
        StalledIsUnreachable(PrStep(st, script[0], c, prompt).next, script[1..], c, prompt);
      }
    }
  }

  /** Three empty check lists in a row end the wait, on the third one at the latest. */
  lemma ThreeMissesEndTheWait(script: seq<PrTick>, c: PrWaitConfig, prompt: string -> bool)
    requires |script| >= 3
    requires forall k :: 0 <= k < 3 ==> script[k].checks == Fetched([])
    ensures PrRun(PrStart, script, c, prompt).Finished?
  {
    var s1 := script[1..];
    var s2 := s1[1..];
    assert s1[0] == script[1] && s2[0] == script[2];
    match PrStep(PrStart, script[0], c, prompt)
    case Stop(_) =>
    case Continue(n1) =>
      assert n1 == PrState(1, false);
      assert PrRun(PrStart, script, c, prompt) == PrRun(n1, s1, c, prompt);
      match PrStep(n1, s1[0], c, prompt)
      case Stop(_) =>
      case Continue(n2) =>
        assert n2 == PrState(2, false);
        assert PrRun(n1, s1, c, prompt) == PrRun(n2, s2, c, prompt);
        assert PrStep(n2, s2[0], c, prompt).Stop?;
  }

  /** A pass that sees checks resets the miss counter. */
  lemma ChecksResetMisses(st: PrState, t: PrTick, c: PrWaitConfig, prompt: string -> bool)
    requires t.elapsed <= EffectiveTimeout(c.timeout)
    requires t.checks.Fetched? && |t.checks.value| > 0
    ensures PrStep(st, t, c, prompt).Continue? ==> PrStep(st, t, c, prompt).next.noChecks == 0
  {
  }

  /**
   * A failing check ends the wait, whatever the other checks are doing: with the report when the
   * repository details are read again, and with that read's error when it throws.
   */
  lemma FailureTakesPrecedence(st: PrState, t: PrTick, c: PrWaitConfig, prompt: string -> bool, k: int)
    requires t.elapsed <= EffectiveTimeout(c.timeout)
    requires t.checks.Fetched? && 0 <= k < |t.checks.value| && IsFailing(t.checks.value[k])
    ensures t.repoDetails.Fetched? ==>
      PrStep(st, t, c, prompt)
        == Stop(ChecksFailed(ChecksFailedError(c.prNumber, t.repoDetails.value, FailingChecks(t.checks.value), t.details)))
    ensures t.repoDetails.FetchFailed? ==> PrStep(st, t, c, prompt) == Stop(ApiFailed)
    ensures |FailingChecks(t.checks.value)| > 0
  {
    assert t.checks.value[k] in FailingChecks(t.checks.value);
  }

  /** With checks present and none failing, the wait returns exactly when all have completed. */
  lemma CompletedChecksReturn(st: PrState, t: PrTick, c: PrWaitConfig, prompt: string -> bool)
    requires t.elapsed <= EffectiveTimeout(c.timeout)
    requires t.checks.Fetched? && |t.checks.value| > 0
    requires forall k :: 0 <= k < |t.checks.value| ==> !IsFailing(t.checks.value[k])
    ensures PrStep(st, t, c, prompt) == Stop(AllChecksPassed) <==>
      forall k :: 0 <= k < |t.checks.value| ==> t.checks.value[k].status == Completed
    ensures PrStep(st, t, c, prompt) != Stop(AllChecksPassed) ==> PrStep(st, t, c, prompt) == Continue(PrState(0, st.checkedRuns))
  {
  }

  /** A pass past the timeout ends the wait before any API call, with a timeout outcome. */
  lemma TimeoutEndsAtOnce(st: PrState, t: PrTick, c: PrWaitConfig, prompt: string -> bool)
    requires t.elapsed > EffectiveTimeout(c.timeout)
    ensures PrStep(st, t, c, prompt).Stop?
    ensures PrStep(st, t, c, prompt).stop in {Proceeded(TimedOut, true), Declined(TimedOut), TimedOutUnattended}
    ensures c.skipUserConfirmation <==> PrStep(st, t, c, prompt).stop == TimedOutUnattended
  {
  }

  /** Unattended, the gate is never consulted: any two gates give the same wait. */
  lemma {:induction false} UnattendedIgnoresGate(st: PrState, script: seq<PrTick>, c: PrWaitConfig, p1: string -> bool, p2: string -> bool)
    requires c.skipUserConfirmation
    ensures PrRun(st, script, c, p1) == PrRun(st, script, c, p2)
    ensures PrRun(st, script, c, p1).Finished? ==>
      !PrRun(st, script, c, p1).stop.Declined? && !(PrRun(st, script, c, p1).stop.Proceeded? && PrRun(st, script, c, p1).stop.asked)
    decreases |script|
  {
    if |script| > 0 {
      assert PrStep(st, script[0], c, p1) == PrStep(st, script[0], c, p2);
      if PrStep(st, script[0], c, p1).Continue? {
        UnattendedIgnoresGate(PrStep(st, script[0], c, p1).next, script[1..], c, p1, p2);
      }
    }
  }

  /** Attended, the question put to the gate decides between returning and throwing. */
  lemma GateDecides(s: Situation, c: PrWaitConfig, elapsed: int, prompt: string -> bool)
    requires !c.skipUserConfirmation
    ensures Decide(s, c, elapsed, prompt).Proceeded? <==> prompt(Question(s, c.prNumber, elapsed))
    ensures Decide(s, c, elapsed, prompt).Declined? <==> !prompt(Question(s, c.prNumber, elapsed))
  {
  }

  /** With the start-up gate, which answers yes, no wait ever ends by the user declining. */
  lemma {:induction false} DefaultGateNeverDeclines(st: PrState, script: seq<PrTick>, c: PrWaitConfig)
    ensures PrRun(st, script, c, DefaultPrompt).Finished? ==> !PrRun(st, script, c, DefaultPrompt).stop.Declined?
    decreases |script|
  {
    if |script| > 0 && PrStep(st, script[0], c, DefaultPrompt).Continue? {
      DefaultGateNeverDeclines(PrStep(st, script[0], c, DefaultPrompt).next, script[1..], c);
    }
  }

  /** Every question names the pull request it is about. */
  lemma QuestionNamesPullRequest(s: Situation, prNumber: nat, elapsed: int)
    ensures Strings.Contains(Question(s, prNumber, elapsed), PrTag(prNumber))
  {
    var tag := PrTag(prNumber);
    Strings.ContainsMiddle(QuestionLead(s, elapsed), tag, QuestionTail(s, tag));
  }

  /** The failure message states the count, with the plural only above one. */
  lemma FailureMessageCounts(prNumber: nat, failing: nat)
    ensures Strings.Contains(FailureMessage(prNumber, failing), Strings.NatToString(failing) + " " + CheckWord(failing) + " failed.")
  {
    var x := PrTag(prNumber) + " checks failed. ";
    var y := Strings.NatToString(failing) + " " + CheckWord(failing) + " failed.";
    assert FailureMessage(prNumber, failing) == x + y + "";
    Strings.ContainsMiddle(x, y, "");
  }
}
