/** The error records of the tool: a name, a message and, for failed checks, the report. */
module Errors {
  import opened Wrappers
  import opened GitHubTypes
  import Strings

  /** An `Error` whose only addition is its `name`. */
  datatype NamedError = NamedError(name: string, message: string)

  function NewCommandError(message: string): (e: NamedError)
    ensures e.name == "CommandError" && e.message == message
  {
    NamedError("CommandError", message)
  }

  function NewArgumentError(message: string): (e: NamedError)
    ensures e.name == "ArgumentError" && e.message == message
  {
    NamedError("ArgumentError", message)
  }

  /** A command error and an argument error are told apart by name whatever their messages. */
  lemma CommandAndArgumentErrorsDiffer(m1: string, m2: string)
    ensures NewCommandError(m1) != NewArgumentError(m2)
  {
    assert NewCommandError(m1).name[0] != NewArgumentError(m2).name[0];
  }

  /** The failure of a pull request's checks; its fields are fixed at construction. */
  datatype PullRequestCheckError = PullRequestCheckError(
    name: string,
    message: string,
    prNumber: int,
    failedChecks: seq<FailedCheck>,
    prUrl: string)

  /**
   * The constructor: every optional argument that is left out takes its default (`0`, `[]`, `''`);
   * a supplied one is kept as given (for the three types here, JavaScript's `x || default`
   * changes only values that already equal the default).
   */
  function NewPullRequestCheckError(
    message: string,
    prNumber: Option<int>,
    failedChecks: Option<seq<FailedCheck>>,
    prUrl: Option<string>): (e: PullRequestCheckError)
    ensures e.name == "PullRequestCheckError" && e.message == message
    ensures prNumber.None? ==> e.prNumber == 0
    ensures prNumber.Some? ==> e.prNumber == prNumber.value
    ensures failedChecks.None? ==> e.failedChecks == []
    ensures failedChecks.Some? ==> e.failedChecks == failedChecks.value
    ensures prUrl.None? ==> e.prUrl == ""
    ensures prUrl.Some? ==> e.prUrl == prUrl.value
  {
    PullRequestCheckError(
      "PullRequestCheckError",
      message,
      if prNumber.Some? && prNumber.value != 0 then prNumber.value else 0,
      if failedChecks.Some? then failedChecks.value else [],
      if prUrl.Some? && prUrl.value != "" then prUrl.value else "")
  }

  const ResolvePhrase: string := "To resolve failed PR checks"
  const FixPhrase: string := "Fix the issues identified"
  const RerunPhrase: string := "Re-run this command"
  const ReviewStep: string := ":\n1. Review the failed checks at: "
  const FixStep: string := "\n2. "
  const PushStep: string := "\n3. Push the fixes\n4. "
  const RecoveryHead: string := ResolvePhrase + ReviewStep
  const RecoveryTail: string := FixStep + FixPhrase + PushStep + RerunPhrase

  /** `getRecoveryInstructions()`: the four-step text around the pull request's URL. */
  function RecoveryInstructions(e: PullRequestCheckError): string
  {
    RecoveryHead + e.prUrl + RecoveryTail
  }

  /** The recovery text quotes the URL verbatim and carries the fixed steps. */
  lemma RecoveryInstructionsMention(e: PullRequestCheckError)
    ensures Strings.Contains(RecoveryInstructions(e), e.prUrl)
    ensures Strings.Contains(RecoveryInstructions(e), ResolvePhrase)
    ensures Strings.Contains(RecoveryInstructions(e), FixPhrase)
    ensures Strings.Contains(RecoveryInstructions(e), RerunPhrase)
  {
    Strings.ContainsMiddle(RecoveryHead, e.prUrl, RecoveryTail);
    MentionsResolve(e);
    MentionsFix(e);
    MentionsRerun(e);
  }

  lemma MentionsResolve(e: PullRequestCheckError)
    ensures Strings.Contains(RecoveryInstructions(e), ResolvePhrase)
  {
    Strings.ContainsHalves(ResolvePhrase, ReviewStep);
    Strings.ContainsHalves(RecoveryHead, e.prUrl);
    Strings.ContainsHalves(RecoveryHead + e.prUrl, RecoveryTail);
    Strings.ContainsTransitive(RecoveryHead + e.prUrl, RecoveryHead, ResolvePhrase);
    Strings.ContainsTransitive(RecoveryInstructions(e), RecoveryHead + e.prUrl, ResolvePhrase);
  }

  /** The tail includes its steps. */
  lemma TailMentions()
    ensures Strings.Contains(RecoveryTail, FixPhrase) && Strings.Contains(RecoveryTail, RerunPhrase)
  {
    var fix := FixStep + FixPhrase;
    Strings.ContainsHalves(FixStep, FixPhrase);
    Strings.ContainsHalves(fix, PushStep);
    Strings.ContainsHalves(fix + PushStep, RerunPhrase);
    Strings.ContainsTransitive(fix + PushStep, fix, FixPhrase);
    Strings.ContainsTransitive(RecoveryTail, fix + PushStep, FixPhrase);
  }

  lemma MentionsFix(e: PullRequestCheckError)
    ensures Strings.Contains(RecoveryInstructions(e), FixPhrase)
  {
    TailMentions();
    Strings.ContainsHalves(RecoveryHead + e.prUrl, RecoveryTail);
    Strings.ContainsTransitive(RecoveryInstructions(e), RecoveryTail, FixPhrase);
  }

  lemma MentionsRerun(e: PullRequestCheckError)
    ensures Strings.Contains(RecoveryInstructions(e), RerunPhrase)
  {
    TailMentions();
    Strings.ContainsHalves(RecoveryHead + e.prUrl, RecoveryTail);
    Strings.ContainsTransitive(RecoveryInstructions(e), RecoveryTail, RerunPhrase);
  }

  /**
   * The recovery text depends on the URL alone and determines it: two errors get the same
   * text exactly when their URLs agree.
   */
  lemma RecoveryInstructionsDependOnlyOnUrl(e1: PullRequestCheckError, e2: PullRequestCheckError)
    ensures RecoveryInstructions(e1) == RecoveryInstructions(e2) <==> e1.prUrl == e2.prUrl
  {
    var t1, t2 := RecoveryInstructions(e1), RecoveryInstructions(e2);
    if t1 == t2 {
      assert |e1.prUrl| == |e2.prUrl|;
      assert e1.prUrl == t1[|RecoveryHead|..|RecoveryHead| + |e1.prUrl|];
      assert e2.prUrl == t2[|RecoveryHead|..|RecoveryHead| + |e2.prUrl|];
    }
  }
}
