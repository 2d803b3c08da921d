# github-tools, modelled in Dafny

A verified model of the GitHub automation core of `github-tools`. It covers:

- creating a pull request: title truncation and reuse of an open one;
- classifying workflow files as pull-request or release triggered;
- the two polling loops: one waits for a pull request's checks, one waits for the workflow runs a
  release triggered;
- the token budgets that gather issue context for commit messages and release notes;
- parsing the `origin` remote URL;
- the three error classes.

Every call to GitHub, to `git` or to the clock is an input. An API answer is a `Fetch` value: what
the call returned, or the fact that it threw. A wait loop is driven by a finite script of passes,
each holding what that pass read. Each loop is an imperative method, proved equal to a step
function run over the script. Properties of the loop are lemmas about that run.

Modules, one per concern:

- `Wrappers`: `Option`, and `Fetch` for external answers.
- `Strings`: JavaScript's `includes`, `trim`, `lastIndexOf` and number text.
- `GitHubTypes`: payloads.
- `Errors`: `src/errors.ts`.
- `Prompt`: the replaceable confirmation gate.
- `PullRequests`.
- `Triggers`: the classifiers and the workflow aggregators.
- `PrChecks`: `waitForPullRequestChecks` and its probes.
- `ReleaseRuns`: release run discovery and `waitForReleaseWorkflows`.
- `Sorting`: the comparator sort.
- `IssueContext`: `getIssueDetails`, `getMilestoneIssuesForRelease` and `getRecentClosedIssuesForCommit`.
- `RepoUrl`: `getRepoDetails`.

Where the explanatory comments and the code disagree, the model follows the code.

- The comment at `src/github.ts:378-379` says a standalone `*` in a branch filter is a catch-all. The
  pattern at line 380 needs a delimiter on both sides of the star, and the captured section ends
  before `]` and before the line end. So `branches: ['*']` is not detected. The model keeps the
  code's behaviour and proves the edge case (`Triggers.StarAtSectionEdgeNotDetected`).
- The comment at `src/github.ts:56` says the host form needs two path segments. Because the owner
  group excludes `:` and the SSH alternative accepts any `:` before the last two segments,
  `https://localhost:8080/repo` yields the owner `8080`. The model keeps this, and
  `RepoUrl.ParsedIffMatched` characterises exactly what each alternative accepts.

## Model

| member | source | states |
|---|---|---|
| Errors.NewCommandError | src/errors.ts:5-10 | the error is named `CommandError` and carries the message unchanged |
| Errors.NewArgumentError | src/errors.ts:12-17 | the error is named `ArgumentError` and carries the message unchanged |
| Errors.CommandAndArgumentErrorsDiffer | src/errors.ts:5-17 | a command error never equals an argument error, whatever their messages |
| Errors.NewPullRequestCheckError | src/errors.ts:19-30 | each omitted optional field takes its default (`0`, `[]`, `''`); each supplied one is kept as given |
| Errors.RecoveryInstructionsMention | src/errors.ts:32-38 | the recovery text contains the pull request URL verbatim, the "To resolve failed PR checks" heading, the fix step and the re-run step |
| Errors.RecoveryInstructionsDependOnlyOnUrl | src/errors.ts:32-38 | two errors produce the same recovery text if and only if their URLs are equal |
| Prompt.DefaultPrompt | src/github.ts:7-12 | the gate installed at start-up answers yes to every question |
| Prompt.PromptGate.constructor | src/github.ts:14 | the module starts with the default gate installed |
| Prompt.PromptGate.SetPromptFunction | src/github.ts:16-18 | afterwards the given function is the installed gate |
| Prompt.PromptGate.PromptConfirmation | src/github.ts:20-22 | the answer is the installed gate's answer to the message |
| PullRequests.TruncatePullRequestTitle | src/github.ts:87-105 | a title of at most 256 characters is unchanged. A longer one becomes a prefix of the title plus `...`, 206 to 256 characters long. The prefix is all 253 characters exactly when none of positions 203-252 is a space; otherwise it ends at the last such space |
| PullRequests.TruncateIdempotent | src/github.ts:89-105 | truncating a truncated title changes nothing |
| PullRequests.CreatePullRequest | src/github.ts:107-197 | an open pull request for the head that targets the base is reused, unless reuse is switched off. A failed pre-flight lookup propagates. Otherwise the trimmed, truncated title is sent. A successful create returns GitHub's pull request. A 422 reuses a matching pull request found afterwards; otherwise it raises a creation error that carries the number and URL of the open pull request found afterwards, if there is one. Any other status is rethrown with that status |
| PullRequests.SentTitleWithinLimit | src/github.ts:135-150 | every title sent to GitHub is within the 256-character limit |
| Strings.Trim | src/github.ts:46 | the result is a slice of the input with no whitespace at either end, and every character outside the slice is whitespace |
| Strings.TrimCharacterised | src/github.ts:46 | any such slice is the trim, so the leading and trailing whitespace is exactly what is removed |
| Strings.LastIndexOf | src/github.ts:99 | the result is -1 or an index holding the character, and no later index holds it |
| GitHubTypes.Truthy | src/github.ts:655-660 | an empty or missing string becomes absent; any other is kept |
| Triggers.HasStandaloneStarIff | src/github.ts:380 | the scan for a delimited star succeeds if and only if the pattern matches at some position of the section |
| Triggers.StandaloneStarFound | src/github.ts:380 | a delimited star token anywhere in the section is found, whatever surrounds it |
| Triggers.IsTriggeredByPullRequest | src/github.ts:343-398 | no pull_request trigger gives false. A trigger without a branch filter gives true. With a filter, the result is true if and only if the filter names the target, contains `**` or contains a delimited `*`. A thrown parse gives true |
| Triggers.CatchAllAdmitsEveryBranch | src/github.ts:378-383 | a filter containing `**` or a delimited `*` admits every target branch |
| Triggers.StarAtSectionEdgeNotDetected | src/github.ts:365-383 | a lone star at the first or last position of the captured section, bare or quoted, is not detected |
| Triggers.SingleStarIsNoDoubleStar | src/github.ts:380 | a section with a single star does not contain `**` |
| Triggers.ScopedWildcardRejectsOtherBranch | src/github.ts:378-386 | a filter whose only star closes it, such as `feature/*`, does not admit any target branch that the filter text does not contain |
| Triggers.ClassifierExamples | src/github.ts:368-391 | `[main, develop]` admits `main`; `['**']` and a filterless trigger admit any branch |
| Triggers.QuotedStarExamples | src/github.ts:365-386 | the section `'*'` does not admit `main`; ` '*' ` does |
| Triggers.IsTriggeredByRelease | src/github.ts:1203-1240 | true if and only if one of the three release patterns matched; a thrown parse gives false |
| Triggers.ClassifierFailureDefaultsDiffer | src/github.ts:393-397 | a parse failure counts as a pull-request trigger but, per lines 1236-1239, not as a release trigger |
| Triggers.AcceptedNamesMembership | src/github.ts:290-314 | a name is listed if and only if some workflow with that name was read as a file and classified as triggered; the list is no longer than the listing |
| Triggers.AcceptedNamesEmpty | src/github.ts:316-319 | no name is listed if and only if no workflow was accepted |
| Triggers.CheckWorkflowConfiguration | src/github.ts:256-338 | a failed listing reports "might exist" (count -1). An empty listing reports no workflows, with its warning. Otherwise the count is the listing's length and the names are the accepted workflows in order. Triggers are reported exactly when a name was accepted, and the warning is given exactly when none was |
| Triggers.MixedWorkflowsExample | tests/checkWorkflowConfiguration.test.ts:285-344 | of a CI workflow filtered to `main` and a release-only workflow, only `CI` is named for `main` |
| Triggers.GetWorkflowsTriggeredByRelease | src/github.ts:1146-1201 | the names of the release-triggered workflow files, in listing order; a failed listing gives none |
| PrChecks.HasWorkflowsConfigured | src/github.ts:234-250 | true if and only if at least one workflow is listed; a failed listing counts as true |
| PrChecks.RelevantRuns | src/github.ts:436-442 | a run is kept if and only if it matches the head commit, or is on the head branch and was created in the last five minutes |
| PrChecks.HasWorkflowRunsForPR | src/github.ts:404-458 | true if and only if some run listed for the commit or the branch is relevant; a failed API read counts as true |
| PrChecks.FailingChecks | src/github.ts:633-635 | a check is kept if and only if its conclusion is failure, timed_out or cancelled; the result is empty if and only if no check fails |
| PrChecks.EnrichCheck | src/github.ts:644-670 | the report entry keeps name, conclusion (`unknown` if missing) and link. It carries the summary and output only when `checks.get` answered; otherwise it falls back to the basic entry |
| PrChecks.EnrichChecks | src/github.ts:642-672 | one report entry per failing check, in the same order |
| PrChecks.CheckWord | src/github.ts:707 | the plural is used if and only if more than one check failed |
| PrChecks.ChecksFailedError | src/github.ts:637-720 | the thrown error carries the count in its message, one entry per failing check, the pull request number and its URL. The URL is built from the owner and repository read again at line 638 |
| PrChecks.ChecksFailedErrorPointsAtPullRequest | src/github.ts:706-717 | the recovery text of that error contains the pull request URL |
| PrChecks.FailureMessageCounts | src/github.ts:707 | the failure message states the count followed by `check` or `checks` and `failed.` |
| PrChecks.EffectiveTimeout | src/github.ts:464 | a missing or zero timeout means one hour; any other is used as given |
| PrChecks.Decide | src/github.ts:479-494 | unattended, a timeout throws and every other situation returns without asking; attended, the gate's answer to the situation's question decides between returning and throwing |
| PrChecks.Settle | src/github.ts:524-541 | asking the installed gate gives the outcome that Decide prescribes |
| PrChecks.WaitForPullRequestChecks | src/github.ts:460-735 | the loop ends exactly as the step function, run over the passes, prescribes |
| PrChecks.StepKeepsPolling | src/github.ts:511-627 | between passes fewer than three misses are counted and the run probe is unused; a pass from such a state never takes the stalled branch |
| PrChecks.StalledIsUnreachable | src/github.ts:598-621 | from the start, no wait ever ends in the "already probed, still no checks" branch |
| PrChecks.ThreeMissesEndTheWait | src/github.ts:511-623 | three empty check lists in a row end the wait |
| PrChecks.ChecksResetMisses | src/github.ts:629-630 | a pass that sees checks and continues resets the miss count |
| PrChecks.FailureTakesPrecedence | src/github.ts:633-721 | one failing check ends the wait, whatever the others are doing. It ends with the full failure report when the repository details are read again at line 638, and with that read's error when it throws |
| PrChecks.CompletedChecksReturn | src/github.ts:723-733 | with checks present and none failing, the wait returns if and only if all have completed; otherwise it continues with the miss count reset |
| PrChecks.TimeoutEndsAtOnce | src/github.ts:473-495 | a pass past the timeout ends the wait before any API call; it throws without asking if and only if unattended |
| PrChecks.UnattendedIgnoresGate | src/github.ts:465-621 | unattended, any two gates give the same wait, and no wait ends in the user's answer |
| PrChecks.GateDecides | src/github.ts:524-536 | attended, the wait proceeds if and only if the gate says yes, and throws if and only if it says no |
| PrChecks.DefaultGateNeverDeclines | src/github.ts:7-12 | with the start-up gate no wait ends because the user declined |
| PrChecks.QuestionNamesPullRequest | src/github.ts:480-608 | every question put to the gate names the pull request |
| ReleaseRuns.SelectWorkflows | src/github.ts:919-926 | a workflow is kept if and only if the allow-list is missing, empty, or names it; without a list all are kept |
| ReleaseRuns.KeptRuns | src/github.ts:945-975 | a run is kept if and only if it has a creation time and lies in the window: from one minute before the release, or without release time at most thirty minutes old |
| ReleaseRuns.CollectRuns | src/github.ts:930-987 | a run is collected if and only if it is kept for some selected workflow; failed listings add nothing |
| ReleaseRuns.SortNewestFirst | src/github.ts:989-992 | the result is a permutation of its input, newest first |
| ReleaseRuns.GetWorkflowRunsTriggeredByRelease | src/github.ts:882-1000 | the runs gathered workflow by workflow and then sorted equal the specification, which gives none after a failed listing |
| ReleaseRuns.ReleaseRunsCharacterised | src/github.ts:919-992 | the discovered runs are sorted newest first and are exactly the kept runs of the selected workflows whose listing succeeded |
| ReleaseRuns.CollectedRunsCharacterised | src/github.ts:919-987 | before sorting, the collected runs are exactly those kept runs |
| ReleaseRuns.ReleaseRunsArePermutation | src/github.ts:989-992 | sorting neither drops nor duplicates a collected run |
| ReleaseRuns.ReleaseTimeWindow | src/github.ts:954-963 | with the release time known, a run counts if and only if it was created at most one minute before the release, independent of the clock |
| ReleaseRuns.EffectiveTimeout | src/github.ts:1012 | a missing or zero timeout means thirty minutes; any other is used as given |
| ReleaseRuns.QuestionsNameTheTag | src/github.ts:1034-1077 | both release questions name the tag, and they differ from each other |
| ReleaseRuns.Decide | src/github.ts:1030-1090 | unattended, a timeout throws and "no workflows" returns; attended, the gate decides |
| ReleaseRuns.FailingRuns | src/github.ts:1100-1102 | a run is kept if and only if its conclusion is failure, timed_out or cancelled; empty if and only if none fails |
| ReleaseRuns.Settle | src/github.ts:1072-1089 | asking the installed gate gives the outcome that Decide prescribes |
| ReleaseRuns.WaitForReleaseWorkflows | src/github.ts:1002-1144 | the loop ends exactly as the step function, run over the passes, prescribes |
| ReleaseRuns.StepKeepsMissesBelowLimit | src/github.ts:1054-1094 | between passes fewer than twenty misses are counted |
| ReleaseRuns.FailedListingIsAMiss | src/github.ts:996-999 | a pass whose workflow listing failed counts as a miss, as an empty one does |
| ReleaseRuns.FoundRunsResetMisses | src/github.ts:1096-1097 | a pass that finds runs and continues resets the miss count |
| ReleaseRuns.FailingRunsThrowWithoutAsking | src/github.ts:1100-1110 | a failing run ends the wait with the failing runs, whatever the gate |
| ReleaseRuns.CompletedRunsReturn | src/github.ts:1112-1142 | with runs present and none failing, the wait returns if and only if all have completed; otherwise it continues with the count reset |
| ReleaseRuns.TimeoutEndsAtOnce | src/github.ts:1027-1049 | a pass past the timeout ends the wait before discovery; it throws without asking if and only if unattended |
| ReleaseRuns.MissesEndTheWait | src/github.ts:1054-1090 | from any count below twenty, as many further misses as remain to twenty end the wait with the "no workflows" outcome |
| ReleaseRuns.UnattendedIgnoresGate | src/github.ts:1013-1090 | unattended, any two gates give the same wait, and no wait ends in the user's answer |
| ReleaseRuns.DefaultGateNeverDeclines | src/github.ts:7-12 | with the start-up gate no release wait ends because the user declined |
| Sorting.Insert | src/github.ts:990-992 | inserting into a descending sequence keeps it descending and adds exactly the one element |
| Sorting.SortDescending | src/github.ts:1593 | the result is descending by key and a permutation of the input |
| Sorting.SortKeepsSorted | src/github.ts:1593 | a sequence already in order is returned unchanged |
| IssueContext.EstimateTokens | src/github.ts:1511 | the estimate is the length divided by four, rounded up |
| IssueContext.KeptCommentsFit | src/github.ts:1531-1546 | the kept comments are the first ones. The final total is the starting total plus their estimates. It stays within the limit once any comment is kept, and the first comment left out would have exceeded it |
| IssueContext.GetIssueDetails | src/github.ts:1487-1559 | the comment loop with its early exit computes the specification. A failed issue read fails. A title and body near the limit, or a failed comment listing, keep no comments |
| IssueContext.IssueDetailsWithinBudget | src/github.ts:1513-1551 | the comments returned are a prefix of those listed. The reported total is the title and body estimate plus theirs, within the budget once any comment is kept. The first comment dropped would not have fitted |
| IssueContext.NearLimitSkipsComments | src/github.ts:1516-1520 | a title and body at nine tenths of the budget or more return without comments, at their own estimate |
| IssueContext.IssueSection | src/github.ts:1611-1633 | the section opens with `### #`, the issue number, `: ` and the title, and ends with the `---` rule. It contains the description when the body is non-empty, the discussion points when comments were kept, and the labels when there are some |
| IssueContext.AdmittedArePrefix | src/github.ts:1606-1647 | the sections admitted are the first candidates, in order |
| IssueContext.AdmittedFitBudget | src/github.ts:1635-1644 | once any section is admitted, the header and the admitted sections fit the total budget; the first candidate left out would not have fitted |
| IssueContext.CollectMilestoneIssues | src/github.ts:1568-1585 | the issues gathered version by version equal the specification; a failed read fails the whole |
| IssueContext.WriteReleaseNotes | src/github.ts:1597-1650 | the notes built by the loop are the header and the admitted sections |
| IssueContext.GetMilestoneIssuesForRelease | src/github.ts:1561-1657 | the text equals the specification: empty when no issues were found or a read failed; otherwise the header and the admitted sections, most recently updated first |
| IssueContext.MilestoneNotesShape | src/github.ts:1587-1603 | the notes are empty or open with the header; they are empty when no milestone had issues |
| IssueContext.VersionsWithoutMilestoneAddNothing | src/github.ts:1572-1577 | versions whose milestone does not exist contribute no issues |
| IssueContext.CompletedIssues | src/github.ts:1681-1684 | an issue is kept if and only if it is not a pull request and was closed as completed |
| IssueContext.BeforeFirst | src/github.ts:1696 | the result is the longest prefix without the separator, and it is followed by the separator when the input contains one |
| IssueContext.BaseVersion | src/github.ts:1695-1697 | a version without `-dev.` is kept; otherwise the base is the prefix before the first dash |
| IssueContext.DevVersionBase | src/github.ts:1694-1697 | the base of `b-dev.n` is `b` when `b` has no dash |
| IssueContext.SliceTo | src/github.ts:1713 | a prefix of the input, of the length JavaScript's `slice(0, end)` gives for any end, including a negative one |
| IssueContext.MilestoneIssues | src/github.ts:1713-1719 | an issue of the window is kept if and only if it belongs to the relevant milestone |
| IssueContext.OtherIssues | src/github.ts:1713-1719 | an issue of the window is kept if and only if it does not belong to the relevant milestone |
| IssueContext.PartitionIsExact | src/github.ts:1713-1719 | the two groups together are the window, every issue in exactly one |
| IssueContext.GetRecentClosedIssuesForCommit | src/github.ts:1663-1779 | the partition loop computes the specified selection |
| IssueContext.RecentIssuesBounded | src/github.ts:1710-1770 | with a non-negative limit the selection has at most `limit` issues. Each one shown was listed, closed as completed, not a pull request, and in the group its milestone decides |
| IssueContext.NoVersionNoMilestone | src/github.ts:1692-1715 | without a current version no issue is put in the milestone group |
| RepoUrl.StripGit | src/github.ts:66-69 | the result is the name or the name less a final `.git` |
| RepoUrl.StripGitOnce | src/github.ts:66-69 | `.git` is stripped once; a name not ending in it is kept |
| RepoUrl.GetRepoDetails | src/github.ts:43-84 | a failed `git` call fails. The result is owner `o` and repo `r` if and only if the trimmed URL matches one of the two patterns with those groups |
| RepoUrl.ParsedIffMatched | src/github.ts:46-69 | the backward scan returns `d` if and only if the trimmed URL ends in `:owner/repo` or `//host/owner/repo` with `d` as the groups, less `.git` |
| RepoUrl.MatchedIsPattern | src/github.ts:57-64 | whatever the scan returns is the groups of one alternative of the pattern |
| RepoUrl.SshPatternIsMatched | src/github.ts:57-64 | a URL ending in `:owner/repo` is parsed to those groups |
| RepoUrl.HostPatternIsMatched | src/github.ts:57-64 | a URL ending in `//host/owner/repo` is parsed to those groups |
| RepoUrl.SshUrlParsed | src/github.ts:50-57 | any URL ending in `:owner/repo[.git]`, with any host or alias, gives that owner and the repo less `.git` |
| RepoUrl.HostUrlParsed | src/github.ts:52-57 | any URL ending in `//host/owner/repo[.git]` gives that owner and the repo less `.git` |
| RepoUrl.TrailingSeparatorRejected | src/github.ts:57-60 | a URL ending in `/` or `:` is rejected |
| RepoUrl.SinglePathPartRejected | src/github.ts:56-60 | a host URL with a single path part, such as `https://github.com/repo`, is rejected |

## Left out

- GitHub, `git` and the clock are not called. Octokit answers, the `git remote get-url` output and
  `Date.now()` readings are inputs (`Fetch` values, scripted passes, probe records).
- Logging and console output are left out. The recovery text is modelled, but not its printing line by line.
- The multi-line trigger patterns (the `on:` / `pull_request:` / `release:` / tag-push regular
  expressions) are inputs: a scan records which of them matched, and the captured branch section.
  The tests on the captured section, and everything done with the verdicts, are modelled exactly.
- Base64 decoding of workflow files is left out: the scan stands for the decoded content.
- Messages of plain thrown `Error`s are left out: which exception is thrown is modelled as an
  outcome, not its text. The texts of the confirmation questions and of the checks-failed error are
  modelled.
- `PullRequests.CreatePullRequest`: the `PullRequestCreationError` class is not part of this model. Its
  outcome keeps only the sent title and the existing pull request's number and URL.
- String lengths count characters, not UTF-16 code units. Titles and token estimates with
  characters outside the Basic Multilingual Plane would differ.
- A missing comment author or body in a release-notes discussion line prints as `undefined`. A body
  that is JSON `null` (which would print `null`) is not told apart.
- Timestamps are integers of milliseconds. Unparseable dates (`NaN`) are left out.
- `Promise.all` over the failing checks runs in sequence here. The `checks.get` answers are a map
  from run id, so order and concurrency do not matter.
- The delays (`delay(10000)`, `delay(15000)`) and the initial 20-second wait are left out. Time
  passing is the elapsed reading of each pass.
- A wait is a finite script of passes. An unbounded wait is represented by a script that runs out
  while still polling.
- `PrChecks.QuestionNamesPullRequest`, `ReleaseRuns.QuestionsNameTheTag`: the warning glyph in the
  questions is U+26A0 U+FE0F. The source file's bytes show it garbled.
- The other API wrappers are outside the modelled core: `mergePullRequest`, `createRelease`,
  `getReleaseByTagName`, `getOpenIssues`, `createIssue`, the milestone CRUD functions,
  `findOpenPullRequestByHeadRef`, `getClosedIssuesForMilestone` and `findMilestoneByTitle`. Their
  answers are inputs.
- `IssueContext.GetRecentClosedIssuesForCommit`: the formatted text (labels, 300-character body
  excerpts, headings) is left out. The model states which issues are shown, and in which group.
- `per_page: Math.min(limit, 100)` is left out: the listing is an input.
- Default argument values are not modelled as defaults: callers pass them. These are `base = 'main'` (`src/github.ts:111`), `maxTokens = 20000` (1487), `maxTotalTokens = 50000` (1561) and `limit = 10` (1663). The release-notes loop passes 20000 itself (1608), and the model does the same (`IssueContext.IssueTokens`).
- The `getOctokit()` and `getRepoDetails(cwd)` calls that come before the `try` block are left out. They throw out of the function (a missing `GITHUB_TOKEN`, or no parseable `origin`) rather than taking its error path. This affects `createPullRequest` (`src/github.ts:114-115`), `hasWorkflowsConfigured` (235-236), `checkWorkflowConfiguration` (263-264), `hasWorkflowRunsForPR` (405-406), `waitForPullRequestChecks` (461-462), `getWorkflowRunsTriggeredByRelease` (883-884), `getWorkflowsTriggeredByRelease` (1147-1148) and `getRecentClosedIssuesForCommit` (1664-1665). The model covers only the calls inside each `try`. In `getIssueDetails` (1488-1489) the same throw has the same effect as a failed `issues.get`, which its `catch` rethrows, so the failed issue record covers it. The second `getRepoDetails` call in `waitForPullRequestChecks` (638) is modelled: each pass holds what it read, and a failed read ends the wait with that error (`ApiFailed`).
- HasWorkflowRunsForPR: only a failed API read counts as true. A `getRepoDetails` failure at `src/github.ts:406` throws in the source, and the model does not cover it.
- `RepoUrl.GetRepoDetails`: the classification of `git` errors for logging is left out. Every error is
  rethrown, as in the source.
- `Sorting.SortDescending`: the model is a stable insertion sort, as JavaScript's sort is. Stability is
  not stated as a property; only order and permutation are.
- `RepoUrl.SshUrlParsed`, `RepoUrl.HostUrlParsed`: the example URLs of the source comments are
  covered by these general lemmas, not proved one by one.
