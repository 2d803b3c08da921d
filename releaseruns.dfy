/**
 * Finding the workflow runs a release triggered, and waiting for them. As with pull-request checks,
 * a pass of the wait loop is a `ReleaseTick` holding what that pass read, `ReleaseStep` is the loop
 * body, `ReleaseRun` runs a script of passes and `WaitForReleaseWorkflows` is proved to compute it.
 */
module ReleaseRuns {
  import opened Wrappers
  import opened GitHubTypes
  import opened Prompt
  import Strings
  import Sorting

  // ---------------------------------------------------------------------------------------------
  // Discovery

  /** Runs created up to one minute before the release still count. */
  const ReleaseSlack: int := 60000

  /** Without the release's creation time, runs up to thirty minutes old count. */
  const RecentRunAge: int := 1800000

  /**
   * The filter on one run: a run without a creation time is dropped; with the release's creation
   * time `released`, a run counts from one minute before it; without it, a run counts while it is
   * at most thirty minutes old at `now`.
   */
  predicate KeepRun(run: WorkflowRun, released: Option<int>, now: int)
  {
    && run.createdAt.Some?
    && (if released.Some? then !(run.createdAt.value < released.value - ReleaseSlack)
        else !(now - run.createdAt.value > RecentRunAge))
  }

  /** A workflow of the repository with what `actions.listWorkflowRuns` gave for it. */
  datatype ReleaseWorkflow = ReleaseWorkflow(name: string, runs: Fetch<seq<WorkflowRun>>)

  /** The allow-list applies only when it is given and not empty. */
  predicate Selected(w: ReleaseWorkflow, workflowNames: Option<seq<string>>)
  {
    workflowNames.None? || |workflowNames.value| == 0 || w.name in workflowNames.value
  }

  /** `workflows.filter(...)`: the workflows to look at, in listing order. */
  function SelectWorkflows(ws: seq<ReleaseWorkflow>, workflowNames: Option<seq<string>>): (r: seq<ReleaseWorkflow>)
    ensures forall w :: w in r <==> w in ws && Selected(w, workflowNames)
    ensures workflowNames.None? || |workflowNames.value| == 0 ==> r == ws
    decreases |ws|
  {
    if |ws| == 0 then []
    else
      var rest := SelectWorkflows(ws[..|ws| - 1], workflowNames);
      assert ws == ws[..|ws| - 1] + [ws[|ws| - 1]];
      if Selected(ws[|ws| - 1], workflowNames) then rest + [ws[|ws| - 1]] else rest
  }

  /** `workflow_runs.filter(...)`: the runs of one listing that count, in order. */
  function KeptRuns(runs: seq<WorkflowRun>, released: Option<int>, now: int): (r: seq<WorkflowRun>)
    ensures forall run :: run in r <==> run in runs && KeepRun(run, released, now)
    ensures multiset(r) <= multiset(runs)
    decreases |runs|
  {
    if |runs| == 0 then []
    else
      var rest := KeptRuns(runs[..|runs| - 1], released, now);
      assert runs == runs[..|runs| - 1] + [runs[|runs| - 1]];
      if KeepRun(runs[|runs| - 1], released, now) then rest + [runs[|runs| - 1]] else rest
  }

  /** What one workflow adds: its kept runs, or nothing when its listing failed. */
  function RunsOf(w: ReleaseWorkflow, released: Option<int>, now: int): seq<WorkflowRun>
  {
    match w.runs
    case FetchFailed => []
    case Fetched(runs) => KeptRuns(runs, released, now)
  }

  /** `allRuns` before sorting: every selected workflow's kept runs, workflow by workflow. */
  function CollectRuns(ws: seq<ReleaseWorkflow>, released: Option<int>, now: int): (r: seq<WorkflowRun>)
    ensures forall run :: run in r <==> exists k :: 0 <= k < |ws| && run in RunsOf(ws[k], released, now)
    decreases |ws|
  {
    if |ws| == 0 then []
    else
      var init := ws[..|ws| - 1];
      var r := CollectRuns(init, released, now) + RunsOf(ws[|ws| - 1], released, now);
      assert forall k :: 0 <= k < |init| ==> init[k] == ws[k];
      r
  }

  /** The sort key: the run's creation time (every collected run has one). */
  function Stamp(run: WorkflowRun): int
  {
    if run.createdAt.Some? then run.createdAt.value else 0
  }

  /** Newest first. */
  predicate NewestFirst(s: seq<WorkflowRun>)
  {
    Sorting.Descending(s, Stamp)
  }

  /** `allRuns.sort((a, b) => time(b) - time(a))`. */
  function SortNewestFirst(s: seq<WorkflowRun>): (r: seq<WorkflowRun>)
    ensures NewestFirst(r)
    ensures multiset(r) == multiset(s)
  {
    Sorting.SortDescending(s, Stamp)
  }

  /** What the discovery reads: the release's creation time (absent when it could not be read), the workflow listing, the clock. */
  datatype ReleaseProbe = ReleaseProbe(
    releaseCreatedAt: Option<int>,
    listing: Fetch<seq<ReleaseWorkflow>>,
    now: int)

  /** `getWorkflowRunsTriggeredByRelease`, as a value: a failed workflow listing gives no runs. */
  function ReleaseRunsFor(p: ReleaseProbe, workflowNames: Option<seq<string>>): seq<WorkflowRun>
  {
    match p.listing
    case FetchFailed => []
    case Fetched(ws) =>
      SortNewestFirst(CollectRuns(SelectWorkflows(ws, workflowNames), p.releaseCreatedAt, p.now))
  }

  /** `getWorkflowRunsTriggeredByRelease`: collect workflow by workflow, then sort. */
  method GetWorkflowRunsTriggeredByRelease(p: ReleaseProbe, workflowNames: Option<seq<string>>)
    returns (allRuns: seq<WorkflowRun>)
    ensures allRuns == ReleaseRunsFor(p, workflowNames)
  {
    if p.listing.FetchFailed? {
      return [];
    }
    var relevantWorkflows := SelectWorkflows(p.listing.value, workflowNames);
    allRuns := [];
    for i := 0 to |relevantWorkflows|
      invariant allRuns == CollectRuns(relevantWorkflows[..i], p.releaseCreatedAt, p.now)
    {
      var workflow := relevantWorkflows[i];
      assert relevantWorkflows[..i + 1][..i] == relevantWorkflows[..i];
      if workflow.runs.Fetched? {
        var releaseRuns := KeptRuns(workflow.runs.value, p.releaseCreatedAt, p.now);
        allRuns := allRuns + releaseRuns;
      }
    }
    assert relevantWorkflows[..|relevantWorkflows|] == relevantWorkflows;
    allRuns := SortNewestFirst(allRuns);
  }

  /**
   * The discovered runs are sorted newest first, and they are exactly the kept runs of the selected
   * workflows whose listing succeeded.
   */
  lemma ReleaseRunsCharacterised(p: ReleaseProbe, workflowNames: Option<seq<string>>, run: WorkflowRun)
    requires p.listing.Fetched?
    ensures NewestFirst(ReleaseRunsFor(p, workflowNames))
    ensures run in ReleaseRunsFor(p, workflowNames) <==>
      exists w :: w in p.listing.value && Selected(w, workflowNames) && w.runs.Fetched?
        && run in w.runs.value && KeepRun(run, p.releaseCreatedAt, p.now)
  {
    var collected := CollectRuns(SelectWorkflows(p.listing.value, workflowNames), p.releaseCreatedAt, p.now);
    var r := ReleaseRunsFor(p, workflowNames);
    assert multiset(r) == multiset(collected);
    assert run in r <==> run in collected by {
      assert run in r <==> run in multiset(r);
      assert run in collected <==> run in multiset(collected);
    }
    CollectedRunsCharacterised(p.listing.value, workflowNames, p.releaseCreatedAt, p.now, run);
  }

  /** Before sorting: the collected runs are the kept runs of the selected workflows whose listing succeeded. */
  lemma CollectedRunsCharacterised(
    ws: seq<ReleaseWorkflow>, workflowNames: Option<seq<string>>, released: Option<int>, now: int, run: WorkflowRun)
    ensures run in CollectRuns(SelectWorkflows(ws, workflowNames), released, now) <==>
      exists w :: w in ws && Selected(w, workflowNames) && w.runs.Fetched? && run in w.runs.value && KeepRun(run, released, now)
  {
    var sel := SelectWorkflows(ws, workflowNames);
    if run in CollectRuns(sel, released, now) {
      var k :| 0 <= k < |sel| && run in RunsOf(sel[k], released, now);
      assert sel[k] in sel;
    }
    if exists w :: w in ws && Selected(w, workflowNames) && w.runs.Fetched? && run in w.runs.value && KeepRun(run, released, now) {
      var w :| w in ws && Selected(w, workflowNames) && w.runs.Fetched? && run in w.runs.value && KeepRun(run, released, now);
      var k :| 0 <= k < |sel| && sel[k] == w;
      assert run in RunsOf(sel[k], released, now);
    }
  }

  /** Sorting neither drops nor duplicates a run: the result is a permutation of what was collected. */
  lemma ReleaseRunsArePermutation(p: ReleaseProbe, workflowNames: Option<seq<string>>)
    requires p.listing.Fetched?
    ensures multiset(ReleaseRunsFor(p, workflowNames))
         == multiset(CollectRuns(SelectWorkflows(p.listing.value, workflowNames), p.releaseCreatedAt, p.now))
  {
  }

  /** With the release's creation time, the window is one minute before it, whatever the clock says. */
  lemma ReleaseTimeWindow(run: WorkflowRun, released: int, now1: int, now2: int)
    requires run.createdAt.Some?
    ensures KeepRun(run, Some(released), now1) <==> run.createdAt.value >= released - ReleaseSlack
    ensures KeepRun(run, Some(released), now1) == KeepRun(run, Some(released), now2)
  {
  }

  // ---------------------------------------------------------------------------------------------
  // The wait loop

  /** `options.timeout || 1800000`: missing or zero gives thirty minutes. */
  function EffectiveTimeout(timeout: Option<int>): (t: int)
    ensures timeout.None? ==> t == 1800000
    ensures timeout.Some? && timeout.value == 0 ==> t == 1800000
    ensures timeout.Some? && timeout.value != 0 ==> t == timeout.value
  {
    if timeout.Some? && timeout.value != 0 then timeout.value else 1800000
  }

  /** `maxConsecutiveNoWorkflows`. */
  const MaxConsecutiveNoWorkflows: nat := 20

  datatype ReleaseWaitConfig = ReleaseWaitConfig(
    tagName: string,
    timeout: Option<int>,
    workflowNames: Option<seq<string>>,
    skipUserConfirmation: bool)

  /** What one pass reads: the elapsed time and what discovery reads. */
  datatype ReleaseTick = ReleaseTick(elapsed: int, probe: ReleaseProbe)

  /** The loop's counter `consecutiveNoWorkflowsCount`. */
  datatype ReleaseState = ReleaseState(misses: nat)

  const ReleaseStart: ReleaseState := ReleaseState(0)

  datatype ReleaseSituation = ReleaseTimedOut | NoReleaseWorkflows

  datatype ReleaseStop =
    | ProceededWithout(situation: ReleaseSituation, asked: bool)   // returns (`asked`: the gate said yes)
    | AllWorkflowsPassed                                           // returns: all runs completed, none failing
    | Declined(situation: ReleaseSituation)                        // throws: the gate said no
    | TimedOutUnattended                                           // throws: timeout without asking
    | WorkflowsFailed(failing: seq<WorkflowRun>)                   // throws: some run failed

  datatype ReleaseStepResult = Continue(next: ReleaseState) | Stop(stop: ReleaseStop)

  datatype ReleaseWait = Finished(stop: ReleaseStop) | StillPolling(state: ReleaseState)

  const TimeoutLead: string := "  Timeout reached while waiting for release workflows for "
  const TimeoutTail: string :=
    ".\nThis might indicate that no workflows are configured to trigger on releases.\nDo you want to proceed anyway?"
  const NoWorkflowsLead: string := "  No GitHub Actions workflows appear to be triggered by the release "
  const NoWorkflowsTail: string :=
    ".\nThis might be expected if no workflows are configured for release events.\n"
    + "Do you want to proceed without waiting for workflows?"

  /** The question the gate is asked; both name the release's tag. */
  function Question(s: ReleaseSituation, tagName: string): (q: string)
  {
    match s
    case ReleaseTimedOut => WarningSign + TimeoutLead + tagName + TimeoutTail
    case NoReleaseWorkflows => WarningSign + NoWorkflowsLead + tagName + NoWorkflowsTail
  }

  /** Both questions name the tag and differ from each other. */
  lemma QuestionsNameTheTag(tagName: string)
    ensures Strings.Contains(Question(ReleaseTimedOut, tagName), tagName)
    ensures Strings.Contains(Question(NoReleaseWorkflows, tagName), tagName)
    ensures Question(ReleaseTimedOut, tagName) != Question(NoReleaseWorkflows, tagName)
  {
    Strings.ContainsMiddle(WarningSign + TimeoutLead, tagName, TimeoutTail);
    Strings.ContainsMiddle(WarningSign + NoWorkflowsLead, tagName, NoWorkflowsTail);
    var k := |WarningSign| + 2;
    assert Question(ReleaseTimedOut, tagName)[k] == TimeoutLead[2];
    assert Question(NoReleaseWorkflows, tagName)[k] == NoWorkflowsLead[2];
  }

  function Decide(s: ReleaseSituation, c: ReleaseWaitConfig, prompt: string -> bool): (stop: ReleaseStop)
    ensures c.skipUserConfirmation && s == ReleaseTimedOut ==> stop == TimedOutUnattended
    ensures c.skipUserConfirmation && s == NoReleaseWorkflows ==> stop == ProceededWithout(s, false)
    ensures !c.skipUserConfirmation ==>
      stop == (if prompt(Question(s, c.tagName)) then ProceededWithout(s, true) else Declined(s))
  {
    if c.skipUserConfirmation then
      if s == ReleaseTimedOut then TimedOutUnattended else ProceededWithout(s, false)
    else if prompt(Question(s, c.tagName)) then ProceededWithout(s, true)
    else Declined(s)
  }

  /** `run.conclusion && ['failure', 'timed_out', 'cancelled'].includes(run.conclusion)`. */
  predicate IsFailing(run: WorkflowRun)
  {
    run.conclusion.Some? && IsFailingRunConclusion(run.conclusion.value)
  }

  /** `workflowRuns.filter(...)`: the failing runs, in order. */
  function FailingRuns(runs: seq<WorkflowRun>): (r: seq<WorkflowRun>)
    ensures forall run :: run in r <==> run in runs && IsFailing(run)
    ensures |r| == 0 <==> forall k :: 0 <= k < |runs| ==> !IsFailing(runs[k])
    decreases |runs|
  {
    if |runs| == 0 then []
    else
      var rest := FailingRuns(runs[..|runs| - 1]);
      assert runs == runs[..|runs| - 1] + [runs[|runs| - 1]];
      if IsFailing(runs[|runs| - 1]) then rest + [runs[|runs| - 1]] else rest
  }

  /** One pass of the `while (true)` loop of `waitForReleaseWorkflows`. */
  function ReleaseStep(st: ReleaseState, t: ReleaseTick, c: ReleaseWaitConfig, prompt: string -> bool): ReleaseStepResult
  {
    if t.elapsed > EffectiveTimeout(c.timeout) then Stop(Decide(ReleaseTimedOut, c, prompt))
    else
      var runs := ReleaseRunsFor(t.probe, c.workflowNames);
      if |runs| == 0 then
        if st.misses + 1 >= MaxConsecutiveNoWorkflows then Stop(Decide(NoReleaseWorkflows, c, prompt))
        else Continue(ReleaseState(st.misses + 1))
      else
        var failing := FailingRuns(runs);
        if |failing| > 0 then Stop(WorkflowsFailed(failing))
        else if forall k :: 0 <= k < |runs| ==> runs[k].status == Completed then Stop(AllWorkflowsPassed)
        else Continue(ReleaseState(0))
  }

  function ReleaseRun(st: ReleaseState, script: seq<ReleaseTick>, c: ReleaseWaitConfig, prompt: string -> bool): ReleaseWait
    decreases |script|
  {
    if |script| == 0 then StillPolling(st)
    else
      match ReleaseStep(st, script[0], c, prompt)
      case Stop(r) => Finished(r)
      case Continue(next) => ReleaseRun(next, script[1..], c, prompt)
  }

  method Settle(s: ReleaseSituation, c: ReleaseWaitConfig, gate: PromptGate) returns (stop: ReleaseStop)
    ensures stop == Decide(s, c, gate.current)
  {
    if !c.skipUserConfirmation {
      var proceedWithoutWorkflows := gate.PromptConfirmation(Question(s, c.tagName));
      if proceedWithoutWorkflows {
        stop := ProceededWithout(s, true);
      } else {
        stop := Declined(s);
      }
    } else if s == ReleaseTimedOut {
      stop := TimedOutUnattended;
    } else {
      stop := ProceededWithout(s, false);
    }
  }

  /** `waitForReleaseWorkflows` over a script of passes (the initial 20-second delay is not modelled). */
  method WaitForReleaseWorkflows(c: ReleaseWaitConfig, script: seq<ReleaseTick>, gate: PromptGate)
    returns (result: ReleaseWait)
    ensures result == ReleaseRun(ReleaseStart, script, c, gate.current)
  {
    var timeout := EffectiveTimeout(c.timeout);
    var consecutiveNoWorkflowsCount: nat := 0;
    var i := 0;
    while i < |script|
      invariant 0 <= i <= |script|
      invariant ReleaseRun(ReleaseStart, script, c, gate.current)
             == ReleaseRun(ReleaseState(consecutiveNoWorkflowsCount), script[i..], c, gate.current)
    {
      var t := script[i];
      assert script[i..][0] == t && script[i..][1..] == script[i + 1..];
      if t.elapsed > timeout {
        var stop := Settle(ReleaseTimedOut, c, gate);
        return Finished(stop);
      }
      var workflowRuns := GetWorkflowRunsTriggeredByRelease(t.probe, c.workflowNames);
      if |workflowRuns| == 0 {
        consecutiveNoWorkflowsCount := consecutiveNoWorkflowsCount + 1;
        if consecutiveNoWorkflowsCount >= MaxConsecutiveNoWorkflows {
          var stop := Settle(NoReleaseWorkflows, c, gate);
          return Finished(stop);
        }
        i := i + 1;
        continue;
      }
      consecutiveNoWorkflowsCount := 0;
      var failingRuns := FailingRuns(workflowRuns);
      if |failingRuns| > 0 {
        return Finished(WorkflowsFailed(failingRuns));
      }
      var allWorkflowsCompleted := forall k :: 0 <= k < |workflowRuns| ==> workflowRuns[k].status == Completed;
      if allWorkflowsCompleted {
        return Finished(AllWorkflowsPassed);
      }
      i := i + 1;
    }
    return StillPolling(ReleaseState(consecutiveNoWorkflowsCount));
  }

  // ---------------------------------------------------------------------------------------------
  // What the loop guarantees

  /** Between passes fewer than twenty misses are counted. */
  lemma StepKeepsMissesBelowLimit(st: ReleaseState, t: ReleaseTick, c: ReleaseWaitConfig, prompt: string -> bool)
    ensures ReleaseStep(st, t, c, prompt).Continue? ==> ReleaseStep(st, t, c, prompt).next.misses < MaxConsecutiveNoWorkflows
  {
  }

  /** A pass whose workflow listing failed is a miss, like a pass that found no runs. */
  lemma FailedListingIsAMiss(st: ReleaseState, t: ReleaseTick, c: ReleaseWaitConfig, prompt: string -> bool)
    requires t.elapsed <= EffectiveTimeout(c.timeout) && t.probe.listing.FetchFailed?
    requires st.misses + 1 < MaxConsecutiveNoWorkflows
    ensures ReleaseStep(st, t, c, prompt) == Continue(ReleaseState(st.misses + 1))
  {
  }

  /** A pass that finds runs resets the counter. */
  lemma FoundRunsResetMisses(st: ReleaseState, t: ReleaseTick, c: ReleaseWaitConfig, prompt: string -> bool)
    requires t.elapsed <= EffectiveTimeout(c.timeout) && |ReleaseRunsFor(t.probe, c.workflowNames)| > 0
    ensures ReleaseStep(st, t, c, prompt).Continue? ==> ReleaseStep(st, t, c, prompt).next.misses == 0
  {
  }

  /** Failing runs end the wait with those runs, without asking the gate. */
  lemma FailingRunsThrowWithoutAsking(st: ReleaseState, t: ReleaseTick, c: ReleaseWaitConfig, p1: string -> bool, p2: string -> bool, k: int)
    requires t.elapsed <= EffectiveTimeout(c.timeout)
    requires 0 <= k < |ReleaseRunsFor(t.probe, c.workflowNames)| && IsFailing(ReleaseRunsFor(t.probe, c.workflowNames)[k])
    ensures ReleaseStep(st, t, c, p1) == ReleaseStep(st, t, c, p2)
    ensures ReleaseStep(st, t, c, p1) == Stop(WorkflowsFailed(FailingRuns(ReleaseRunsFor(t.probe, c.workflowNames))))
  {
    var runs := ReleaseRunsFor(t.probe, c.workflowNames);
    assert runs[k] in FailingRuns(runs);
  }

  /** With runs present and none failing, the wait returns exactly when all have completed. */
  lemma CompletedRunsReturn(st: ReleaseState, t: ReleaseTick, c: ReleaseWaitConfig, prompt: string -> bool)
    requires t.elapsed <= EffectiveTimeout(c.timeout)
    requires |ReleaseRunsFor(t.probe, c.workflowNames)| > 0
    requires forall k :: 0 <= k < |ReleaseRunsFor(t.probe, c.workflowNames)| ==> !IsFailing(ReleaseRunsFor(t.probe, c.workflowNames)[k])
    ensures ReleaseStep(st, t, c, prompt) == Stop(AllWorkflowsPassed) <==>
      forall k :: 0 <= k < |ReleaseRunsFor(t.probe, c.workflowNames)| ==> ReleaseRunsFor(t.probe, c.workflowNames)[k].status == Completed
    ensures ReleaseStep(st, t, c, prompt) != Stop(AllWorkflowsPassed) ==> ReleaseStep(st, t, c, prompt) == Continue(ReleaseState(0))
  {
  }

  /** A pass past the timeout ends the wait before discovery; unattended, it throws. */
  lemma TimeoutEndsAtOnce(st: ReleaseState, t: ReleaseTick, c: ReleaseWaitConfig, prompt: string -> bool)
    requires t.elapsed > EffectiveTimeout(c.timeout)
    ensures ReleaseStep(st, t, c, prompt).Stop?
    ensures ReleaseStep(st, t, c, prompt).stop in {ProceededWithout(ReleaseTimedOut, true), Declined(ReleaseTimedOut), TimedOutUnattended}
    ensures c.skipUserConfirmation <==> ReleaseStep(st, t, c, prompt).stop == TimedOutUnattended
  {
  }

  /** A pass that misses (within the timeout, no runs, every pass so far a miss) is one of `script`'s first passes. */
  predicate MissesAhead(script: seq<ReleaseTick>, n: nat, c: ReleaseWaitConfig)
  {
    n <= |script| &&
    forall k :: 0 <= k < n ==>
      script[k].elapsed <= EffectiveTimeout(c.timeout) && |ReleaseRunsFor(script[k].probe, c.workflowNames)| == 0
  }

  /** After `misses` misses, the next `20 - misses` missing passes end the wait. */
  lemma {:induction false} MissesEndTheWait(misses: nat, script: seq<ReleaseTick>, c: ReleaseWaitConfig, prompt: string -> bool)
    requires misses < MaxConsecutiveNoWorkflows
    requires MissesAhead(script, MaxConsecutiveNoWorkflows - misses, c)
    ensures ReleaseRun(ReleaseState(misses), script, c, prompt).Finished?
    ensures ReleaseRun(ReleaseState(misses), script, c, prompt).stop == Decide(NoReleaseWorkflows, c, prompt)
    decreases MaxConsecutiveNoWorkflows - misses
  {
    if misses + 1 < MaxConsecutiveNoWorkflows {
      assert ReleaseStep(ReleaseState(misses), script[0], c, prompt) == Continue(ReleaseState(misses + 1));
      assert MissesAhead(script[1..], MaxConsecutiveNoWorkflows - (misses + 1), c) by {
        forall k | 0 <= k < MaxConsecutiveNoWorkflows - (misses + 1)
          ensures script[1..][k] == script[k + 1]
        {
        }
      }
      MissesEndTheWait(misses + 1, script[1..], c, prompt);
    }
  }

  /** Unattended, the gate is never consulted, and no wait ends in a question. */
  lemma {:induction false} UnattendedIgnoresGate(st: ReleaseState, script: seq<ReleaseTick>, c: ReleaseWaitConfig, p1: string -> bool, p2: string -> bool)
    requires c.skipUserConfirmation
    ensures ReleaseRun(st, script, c, p1) == ReleaseRun(st, script, c, p2)
    ensures ReleaseRun(st, script, c, p1).Finished? ==>
      !ReleaseRun(st, script, c, p1).stop.Declined? &&
      !(ReleaseRun(st, script, c, p1).stop.ProceededWithout? && ReleaseRun(st, script, c, p1).stop.asked)
    decreases |script|
  {
    if |script| > 0 {
      assert ReleaseStep(st, script[0], c, p1) == ReleaseStep(st, script[0], c, p2);
      if ReleaseStep(st, script[0], c, p1).Continue? {
        UnattendedIgnoresGate(ReleaseStep(st, script[0], c, p1).next, script[1..], c, p1, p2);
      }
    }
  }

  /** With the start-up gate, no wait ends by the user declining. */
  lemma {:induction false} DefaultGateNeverDeclines(st: ReleaseState, script: seq<ReleaseTick>, c: ReleaseWaitConfig)
    ensures ReleaseRun(st, script, c, DefaultPrompt).Finished? ==> !ReleaseRun(st, script, c, DefaultPrompt).stop.Declined?
    decreases |script|
  {
    if |script| > 0 && ReleaseStep(st, script[0], c, DefaultPrompt).Continue? {
      DefaultGateNeverDeclines(ReleaseStep(st, script[0], c, DefaultPrompt).next, script[1..], c);
    }
  }
}
