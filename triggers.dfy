/**
 * The workflow-trigger classifier. The multi-line patterns that look for a trigger are not
 * modelled as regular expressions: a scan records what each of them found. The tests applied
 * to the captured `branches:` section, and everything the aggregators do with the verdicts, are exact.
 */
module Triggers {
  import opened Wrappers
  import Strings

  /**
   * What the pull-request patterns found: the block form `on:` ... `pull_request:`, the flow form
   * `on: [.., pull_request, ..]` / `on: pull_request`, and the text captured after `branches:`
   * (up to the first `]` or line end), when that pattern matched.
   */
  datatype PrScan = PrScan(blockForm: bool, flowForm: bool, branchesSection: Option<string>)

  /** What the release patterns found: a `release:` block, a flow-form release, a tag push. */
  datatype ReleaseScan = ReleaseScan(releaseBlock: bool, flowForm: bool, tagPush: bool)

  /** Classifying either succeeds on a scan or throws (and the classifier catches it). */
  datatype Scan<S> = Scanned(scan: S) | ScanThrew

  /** `[[,\s]`: what may stand before a standalone `*`. */
  predicate LeftDelimiter(c: char)
  {
    c == '[' || c == ',' || Strings.IsJsWhitespace(c)
  }

  /** `[,\s\]]`: what must follow it. */
  predicate RightDelimiter(c: char)
  {
    c == ',' || c == ']' || Strings.IsJsWhitespace(c)
  }

  /** The pattern `[[,\s]'?\*'?[,\s\]]` matches at the start of `s`. */
  predicate StarTokenAt(s: string)
  {
    && |s| >= 3 && LeftDelimiter(s[0])
    && (|| (s[1] == '*' && (RightDelimiter(s[2]) || (s[2] == '\'' && |s| >= 4 && RightDelimiter(s[3]))))
        || (|s| >= 4 && s[1] == '\'' && s[2] == '*'
            && (RightDelimiter(s[3]) || (s[3] == '\'' && |s| >= 5 && RightDelimiter(s[4])))))
  }

  /** `section.match(/[[,\s]'?\*'?[,\s\]]/)` finds a match somewhere. */
  predicate HasStandaloneStar(s: string)
    decreases |s|
  {
    |s| > 0 && (StarTokenAt(s) || HasStandaloneStar(s[1..]))
  }

  /** The scanning definition agrees with "the pattern matches at some position". */
  lemma {:induction false} HasStandaloneStarIff(s: string)
    ensures HasStandaloneStar(s) <==> exists i :: 0 <= i < |s| && StarTokenAt(s[i..])
    decreases |s|
  {
    if |s| > 0 {
      HasStandaloneStarIff(s[1..]);
      assert s[0..] == s;
      forall i | 1 <= i < |s| ensures s[i..] == s[1..][i - 1..] { }
      if HasStandaloneStar(s[1..]) {
        var i :| 0 <= i < |s[1..]| && StarTokenAt(s[1..][i..]);
        assert s[i + 1..] == s[1..][i..];
      }
      if exists i :: 0 <= i < |s| && StarTokenAt(s[i..]) {
        var i :| 0 <= i < |s| && StarTokenAt(s[i..]);
        if i > 0 {
          assert StarTokenAt(s[1..][i - 1..]);
        }
      }
    }
  }

  /** A delimited `*` anywhere in the section is found, whatever surrounds it. */
  lemma {:induction false} StandaloneStarFound(p: string, token: string, q: string)
    requires StarTokenAt(token)
    ensures HasStandaloneStar(p + token + q)
    decreases |p|
  {
    var s := p + token + q;
    if |p| == 0 {
      assert s == token + q;
      assert s[..|token|] == token;
    } else {
      assert s[1..] == p[1..] + token + q;
      StandaloneStarFound(p[1..], token, q);
    }
  }

  /** The branch filter admits the target: named in it, or a `**` or standalone `*` in it. */
  predicate BranchSectionAdmits(section: string, targetBranch: string)
  {
    || Strings.Contains(section, targetBranch)
    || Strings.Contains(section, "**")
    || HasStandaloneStar(section)
  }

  /**
   * `isTriggeredByPullRequest`: no pull_request trigger gives false, a trigger without a branch
   * filter gives true, a branch filter decides by `BranchSectionAdmits`; an exception gives true.
   */
  function IsTriggeredByPullRequest(scan: Scan<PrScan>, targetBranch: string): (r: bool)
    ensures scan.ScanThrew? ==> r
    ensures scan.Scanned? && !scan.scan.blockForm && !scan.scan.flowForm ==> !r
    ensures scan.Scanned? && (scan.scan.blockForm || scan.scan.flowForm) && scan.scan.branchesSection.None? ==> r
    ensures scan.Scanned? && (scan.scan.blockForm || scan.scan.flowForm) && scan.scan.branchesSection.Some? ==>
      (r <==> BranchSectionAdmits(scan.scan.branchesSection.value, targetBranch))
  {
    match scan
    case ScanThrew => true
    case Scanned(PrScan(blockForm, flowForm, branchesSection)) =>
      if !(blockForm || flowForm) then false
      else
        match branchesSection
        case None => true
        case Some(section) =>
          if Strings.Contains(section, targetBranch) then true
          else if Strings.Contains(section, "**") || HasStandaloneStar(section) then true
          else false
  }

  /** A `**` or any delimited `*` in the branch filter admits every target branch. */
  lemma CatchAllAdmitsEveryBranch(p: string, token: string, q: string, targetBranch: string)
    requires token == "**" || StarTokenAt(token)
    ensures IsTriggeredByPullRequest(Scanned(PrScan(true, false, Some(p + token + q))), targetBranch)
  {
    if token == "**" {
      Strings.ContainsMiddle(p, token, q);
    } else {
      StandaloneStarFound(p, token, q);
    }
  }

  /**
   * The captured section stops before `]` and before the line end, so a `*` that is the only star and
   * stands at the section's first or last position (alone, or behind or before a single quote) lacks a
   * delimiter on that side and is not found: `branches: ['*']` captures `'*'`, and a block list whose
   * line ends in `- '*'` captures `- '*'`.
   */
  lemma {:induction false} StarAtSectionEdgeNotDetected(p: string, q: string)
    requires '*' !in p && '*' !in q
    requires p == "" || p == "'" || q == "" || q == "'"
    ensures !HasStandaloneStar(p + "*" + q)
  {
    var s := p + "*" + q;
    forall j | 0 <= j < |s| ensures s[j] == '*' <==> j == |p| {
      if j < |p| { assert p[j] == s[j]; }
      if j > |p| { assert q[j - |p| - 1] == s[j]; }
    }
    forall j | 0 <= j < |p| ensures s[j] == p[j] { }
    forall j | |p| < j < |s| ensures s[j] == q[j - |p| - 1] { }
    HasStandaloneStarIff(s);
    forall i | 0 <= i < |s| ensures !StarTokenAt(s[i..]) {
      var t := s[i..];
      if |t| >= 3 {
        assert t[0] == s[i] && t[1] == s[i + 1] && t[2] == s[i + 2];
        if |t| >= 4 { assert t[3] == s[i + 3]; }
        if |t| >= 5 { assert t[4] == s[i + 4]; }
      }
    }
  }

  /** A section with a single star does not include `**`. */
  lemma SingleStarIsNoDoubleStar(p: string, q: string)
    requires '*' !in p && '*' !in q
    ensures !Strings.Contains(p + "*" + q, "**")
  {
    var s := p + "*" + q;
    Strings.ContainsOccurs(s, "**");
    forall i | 0 <= i && i + 2 <= |s| ensures !Strings.OccursAt(s, "**", i) {
      assert s[i..i + 2][0] == s[i] && s[i..i + 2][1] == s[i + 1];
      if i < |p| { assert p[i] == s[i]; }
      if i >= |p| && i + 1 < |s| { assert q[i - |p|] == s[i + 1]; }
    }
  }

  /**
   * A wildcard scoped to a prefix is not a catch-all: a filter such as `develop, feature/<star>`, whose
   * only star closes the section, does not admit any branch whose name the filter text does not
   * contain.
   */
  lemma ScopedWildcardRejectsOtherBranch(p: string, targetBranch: string)
    requires '*' !in p
    requires !Strings.Contains(p + "*", targetBranch)
    ensures !IsTriggeredByPullRequest(Scanned(PrScan(true, false, Some(p + "*"))), targetBranch)
  {
    assert p + "*" == p + "*" + "";
    StarAtSectionEdgeNotDetected(p, "");
    SingleStarIsNoDoubleStar(p, "");
  }

  /** `branches: [main, develop]` admits `main`; `['**']` and a filterless `on: pull_request` admit anything. */
  lemma ClassifierExamples(targetBranch: string)
    ensures IsTriggeredByPullRequest(Scanned(PrScan(true, false, Some("main, develop"))), "main")
    ensures IsTriggeredByPullRequest(Scanned(PrScan(true, false, Some("'**'"))), targetBranch)
    ensures IsTriggeredByPullRequest(Scanned(PrScan(false, true, None)), targetBranch)
  {
    assert "main" <= "main, develop";
    Strings.ContainsMiddle("'", "**", "'");
  }

  /** `branches: ['*']` (captured as `'*'`) does not admit `main`, although `branches: [ '*' ]` does. */
  lemma QuotedStarExamples()
    ensures !IsTriggeredByPullRequest(Scanned(PrScan(true, false, Some("'*'"))), "main")
    ensures IsTriggeredByPullRequest(Scanned(PrScan(true, false, Some(" '*' "))), "main")
  {
    assert "'*'" == "'" + "*" + "'";
    StarAtSectionEdgeNotDetected("'", "'");
    SingleStarIsNoDoubleStar("'", "'");
    Strings.NotContainsWithoutFirstChar("'*'", "main");
    assert StarTokenAt(" '*' ");
    assert " '*' " == "" + " '*' " + "";
    StandaloneStarFound("", " '*' ", "");
  }

  /** `isTriggeredByRelease`: any of the three release patterns; an exception gives false. */
  function IsTriggeredByRelease(scan: Scan<ReleaseScan>): (r: bool)
    ensures scan.ScanThrew? ==> !r
    ensures scan.Scanned? ==> (r <==> scan.scan.releaseBlock || scan.scan.flowForm || scan.scan.tagPush)
  {
    match scan
    case ScanThrew => false
    case Scanned(s) => s.releaseBlock || s.flowForm || s.tagPush
  }

  /** The two classifiers fail in opposite directions: a thrown scan is a pull-request trigger but no release trigger. */
  lemma ClassifierFailureDefaultsDiffer(targetBranch: string)
    ensures IsTriggeredByPullRequest(ScanThrew, targetBranch) && !IsTriggeredByRelease(ScanThrew)
  {
  }

  /** What `repos.getContent` gave for a workflow's path: a file (then scanned), something else, or an error. */
  datatype Content<S> = FileContent(scan: Scan<S>) | NotAFile | ContentFailed

  /** A workflow as listed by `actions.listRepoWorkflows`, with its fetched content. */
  datatype WorkflowFile<S> = WorkflowFile(name: string, path: string, content: Content<S>)

  /** A workflow whose file was read and classified as triggered. */
  predicate Accepted<S>(w: WorkflowFile<S>, classify: Scan<S> -> bool)
  {
    w.content.FileContent? && classify(w.content.scan)
  }

  /** The names of the accepted workflows, in listing order. */
  function AcceptedNames<S>(ws: seq<WorkflowFile<S>>, classify: Scan<S> -> bool): seq<string>
    decreases |ws|
  {
    if ws == [] then []
    else AcceptedNames(ws[..|ws| - 1], classify) + (if Accepted(ws[|ws| - 1], classify) then [ws[|ws| - 1].name] else [])
  }

  /** A name is listed exactly when some accepted workflow bears it, and the list is no longer than the listing. */
  lemma {:induction false} AcceptedNamesMembership<S>(ws: seq<WorkflowFile<S>>, classify: Scan<S> -> bool, n: string)
    ensures |AcceptedNames(ws, classify)| <= |ws|
    ensures n in AcceptedNames(ws, classify) <==> exists i :: 0 <= i < |ws| && ws[i].name == n && Accepted(ws[i], classify)
    decreases |ws|
  {
    if ws != [] {
      var init := ws[..|ws| - 1];
      AcceptedNamesMembership(init, classify, n);
      forall i | 0 <= i < |init| ensures init[i] == ws[i] { }
    }
  }

  /** The list is empty exactly when no workflow is accepted. */
  lemma {:induction false} AcceptedNamesEmpty<S>(ws: seq<WorkflowFile<S>>, classify: Scan<S> -> bool)
    ensures AcceptedNames(ws, classify) == [] <==> forall i :: 0 <= i < |ws| ==> !Accepted(ws[i], classify)
    decreases |ws|
  {
    if ws != [] {
      var init := ws[..|ws| - 1];
      AcceptedNamesEmpty(init, classify);
      forall i | 0 <= i < |init| ensures init[i] == ws[i] { }
    }
  }

  /** The report of `checkWorkflowConfiguration`. */
  datatype WorkflowConfiguration = WorkflowConfiguration(
    hasWorkflows: bool,
    workflowCount: int,
    hasPullRequestTriggers: bool,
    triggeredWorkflowNames: seq<string>,
    warning: Option<string>)

  const NoWorkflowsWarning: string := "No GitHub Actions workflows are configured in this repository"

  function NoPrTriggerWarning(count: nat, targetBranch: string): string
  {
    Strings.NatToString(count) + " workflow(s) are configured, but none appear to trigger on pull requests to " + targetBranch
  }

  /** The classifier `checkWorkflowConfiguration` applies to every workflow file. */
  function PrClassifier(targetBranch: string): Scan<PrScan> -> bool
  {
    scan => IsTriggeredByPullRequest(scan, targetBranch)
  }

  /**
   * `checkWorkflowConfiguration(targetBranch)`: the workflow listing is classified file by file
   * (an unreadable file is skipped); a failed listing reports "might exist" with count -1 and no warning.
   */
  method CheckWorkflowConfiguration(targetBranch: string, listing: Fetch<seq<WorkflowFile<PrScan>>>)
    returns (r: WorkflowConfiguration)
    ensures listing.FetchFailed? ==> r == WorkflowConfiguration(true, -1, true, [], None)
    ensures listing.Fetched? && |listing.value| == 0 ==>
      r == WorkflowConfiguration(false, 0, false, [], Some(NoWorkflowsWarning))
    ensures listing.Fetched? && |listing.value| > 0 ==>
      && r.hasWorkflows
      && r.workflowCount == |listing.value|
      && r.triggeredWorkflowNames == AcceptedNames(listing.value, PrClassifier(targetBranch))
      && (r.hasPullRequestTriggers <==> r.triggeredWorkflowNames != [])
      && (r.warning.Some? <==> r.triggeredWorkflowNames == [])
      && (r.warning.Some? ==> r.warning.value == NoPrTriggerWarning(|listing.value|, targetBranch))
  {
    if listing.FetchFailed? {
      return WorkflowConfiguration(true, -1, true, [], None);
    }
    var workflows := listing.value;
    if |workflows| == 0 {
      return WorkflowConfiguration(false, 0, false, [], Some(NoWorkflowsWarning));
    }
    var triggeredWorkflows: seq<string> := [];
    for i := 0 to |workflows|
      invariant triggeredWorkflows == AcceptedNames(workflows[..i], PrClassifier(targetBranch))
    {
      var workflow := workflows[i];
      assert workflows[..i + 1][..i] == workflows[..i];
      match workflow.content {
        case FileContent(scan) =>
          if IsTriggeredByPullRequest(scan, targetBranch) {
            triggeredWorkflows := triggeredWorkflows + [workflow.name];
          }
        case NotAFile =>
        case ContentFailed =>
      }
    }
    assert workflows[..|workflows|] == workflows;
    var hasPullRequestTriggers := |triggeredWorkflows| > 0;
    var warning := if !hasPullRequestTriggers then Some(NoPrTriggerWarning(|workflows|, targetBranch)) else None;
    return WorkflowConfiguration(true, |workflows|, hasPullRequestTriggers, triggeredWorkflows, warning);
  }

  /**
   * The mixed listing of the tests: a CI workflow filtered to `main` and a release-only workflow;
   * against `main` only the CI workflow is named.
   */
  lemma MixedWorkflowsExample()
    ensures AcceptedNames(
      [WorkflowFile("CI", ".github/workflows/ci.yml", FileContent(Scanned(PrScan(true, false, Some("main"))))),
       WorkflowFile("Release", ".github/workflows/release.yml", FileContent(Scanned(PrScan(false, false, None))))],
      PrClassifier("main")) == ["CI"]
  {
    var ws := [WorkflowFile("CI", ".github/workflows/ci.yml", FileContent(Scanned(PrScan(true, false, Some("main"))))),
               WorkflowFile("Release", ".github/workflows/release.yml", FileContent(Scanned(PrScan(false, false, None))))];
    assert ws[..1][..0] == [];
    assert "main" <= "main";
    assert Accepted(ws[0], PrClassifier("main"));
    assert ws[..1] == [ws[0]];
  }

  /** The classifier `getWorkflowsTriggeredByRelease` applies to every workflow file. */
  function ReleaseClassifier(): Scan<ReleaseScan> -> bool
  {
    scan => IsTriggeredByRelease(scan)
  }

  /**
   * `getWorkflowsTriggeredByRelease`: the names of the workflows whose files look release-triggered,
   * in listing order; a failed listing gives none.
   */
  method GetWorkflowsTriggeredByRelease(listing: Fetch<seq<WorkflowFile<ReleaseScan>>>) returns (names: seq<string>)
    ensures listing.FetchFailed? ==> names == []
    ensures listing.Fetched? ==> names == AcceptedNames(listing.value, ReleaseClassifier())
  {
    if listing.FetchFailed? {
      return [];
    }
    var workflows := listing.value;
    var releaseWorkflows: seq<string> := [];
    for i := 0 to |workflows|
      invariant releaseWorkflows == AcceptedNames(workflows[..i], ReleaseClassifier())
    {
      var workflow := workflows[i];
      assert workflows[..i + 1][..i] == workflows[..i];
      if workflow.content.FileContent? && IsTriggeredByRelease(workflow.content.scan) {
        releaseWorkflows := releaseWorkflows + [workflow.name];
      }
    }
    assert workflows[..|workflows|] == workflows;
    return releaseWorkflows;
  }
}
