/**
 * Issue context gathered for commit messages and release notes: the per-issue comment budget of
 * `getIssueDetails`, the release-notes budget of `getMilestoneIssuesForRelease`, and the issue
 * selection of `getRecentClosedIssuesForCommit`. Every API read is an input.
 */
module IssueContext {
  import opened Wrappers
  import Strings
  import Sorting

  // ---------------------------------------------------------------------------------------------
  // Token budgets

  /** `Math.ceil(text.length / 4)`: about four characters per token. */
  function EstimateTokens(text: string): (t: nat)
    ensures 4 * t >= |text| && 4 * t < |text| + 4
  {
    (|text| + 3) / 4
  }

  function Sum(costs: seq<nat>): nat
    decreases |costs|
  {
    if |costs| == 0 then 0 else costs[0] + Sum(costs[1..])
  }

  lemma SumCons(x: nat, s: seq<nat>)
    ensures Sum([x] + s) == x + Sum(s)
  {
    assert ([x] + s)[1..] == s;
  }

  // ---------------------------------------------------------------------------------------------
  // getIssueDetails

  /** An issue as `issues.get` returns it. */
  datatype IssueRecord = IssueRecord(title: string, body: Option<string>)

  /** A comment as `issues.listComments` returns it; author and body may be missing. */
  datatype Comment = Comment(author: Option<string>, body: Option<string>, createdAt: string)

  /** What `getIssueDetails` returns. */
  datatype IssueContent = IssueContent(title: string, body: string, comments: seq<Comment>, totalTokens: nat)

  /** `x || ''`. */
  function TextOrEmpty(s: Option<string>): string
  {
    if s.Some? then s.value else ""
  }

  /** `estimateTokens(comment.body || '')`. */
  function CommentTokens(c: Comment): nat
  {
    EstimateTokens(TextOrEmpty(c.body))
  }

  function CommentCosts(cs: seq<Comment>): (costs: seq<nat>)
    ensures |costs| == |cs|
    ensures forall k :: 0 <= k < |cs| ==> costs[k] == CommentTokens(cs[k])
  {
    seq(|cs|, k requires 0 <= k < |cs| => CommentTokens(cs[k]))
  }

  /**
   * The comments admitted in order from a running total `used` under `limit`: each is admitted while
   * the total with it stays within `limit`, and the first that does not fit ends the walk.
   */
  function KeptComments(cs: seq<Comment>, used: int, limit: int): seq<Comment>
    decreases |cs|
  {
    if |cs| == 0 || used + CommentTokens(cs[0]) > limit then []
    else [cs[0]] + KeptComments(cs[1..], used + CommentTokens(cs[0]), limit)
  }

  /** The running total once the walk of `KeptComments` ends. */
  function KeptTotal(cs: seq<Comment>, used: int, limit: int): (total: int)
    ensures total >= used
    decreases |cs|
  {
    if |cs| == 0 || used + CommentTokens(cs[0]) > limit then used
    else KeptTotal(cs[1..], used + CommentTokens(cs[0]), limit)
  }

  /**
   * The kept comments are the first ones, the final total is `used` plus their estimates, it stays
   * within `limit` once any comment is kept, and the first comment left out would have exceeded it.
   */
  lemma {:induction false} KeptCommentsFit(cs: seq<Comment>, used: int, limit: int)
    ensures var kept := KeptComments(cs, used, limit);
      && kept <= cs
      && KeptTotal(cs, used, limit) == used + Sum(CommentCosts(kept))
      && (|kept| > 0 ==> KeptTotal(cs, used, limit) <= limit)
      && (|kept| < |cs| ==> KeptTotal(cs, used, limit) + CommentTokens(cs[|kept|]) > limit)
    decreases |cs|
  {
    var kept := KeptComments(cs, used, limit);
    if |cs| == 0 || used + CommentTokens(cs[0]) > limit {
      assert CommentCosts(kept) == [];
    } else {
      var c := CommentTokens(cs[0]);
      var tail := cs[1..];
      KeptCommentsFit(tail, used + c, limit);
      var rest := KeptComments(tail, used + c, limit);
      assert kept == [cs[0]] + rest;
      assert CommentCosts(kept) == [c] + CommentCosts(rest);
      SumCons(c, CommentCosts(rest));
      if |rest| == 0 {
        assert CommentCosts(rest) == [];
      }
      if |kept| < |cs| {
        assert cs[|kept|] == tail[|rest|];
      }
    }
  }

  /** `currentTokens >= maxTokens * 0.9`, in integers. */
  predicate NearLimit(tokens: int, maxTokens: int)
  {
    10 * tokens >= 9 * maxTokens
  }

  /**
   * `getIssueDetails` as a value. A failed `issues.get` is rethrown; a title and body near the limit
   * skip the comments; a failed comment listing keeps none; otherwise the comments are admitted in
   * order under `maxTokens`.
   */
  function IssueDetails(issue: Fetch<IssueRecord>, comments: Fetch<seq<Comment>>, maxTokens: int): Fetch<IssueContent>
  {
    match issue
    case FetchFailed => FetchFailed
    case Fetched(i) =>
      var body := TextOrEmpty(i.body);
      var start := EstimateTokens(i.title + body);
      if NearLimit(start, maxTokens) || comments.FetchFailed? then Fetched(IssueContent(i.title, body, [], start))
      else
        Fetched(IssueContent(i.title, body, KeptComments(comments.value, start, maxTokens),
          KeptTotal(comments.value, start, maxTokens)))
  }

  /** `getIssueDetails`: the comment loop with its early `break`. */
  method GetIssueDetails(issue: Fetch<IssueRecord>, comments: Fetch<seq<Comment>>, maxTokens: int)
    returns (r: Fetch<IssueContent>)
    ensures r == IssueDetails(issue, comments, maxTokens)
  {
    if issue.FetchFailed? {
      return FetchFailed;
    }
    var title := issue.value.title;
    var body := TextOrEmpty(issue.value.body);
    var currentTokens: nat := EstimateTokens(title + body);
    if NearLimit(currentTokens, maxTokens) {
      return Fetched(IssueContent(title, body, [], currentTokens));
    }
    var kept: seq<Comment> := [];
    if comments.Fetched? {
      var cs := comments.value;
      ghost var start := currentTokens;
      assert cs[0..] == cs && kept + KeptComments(cs, start, maxTokens) == KeptComments(cs, start, maxTokens);
      var i := 0;
      while i < |cs|
        invariant 0 <= i <= |cs|
        invariant KeptComments(cs, start, maxTokens) == kept + KeptComments(cs[i..], currentTokens, maxTokens)
        invariant KeptTotal(cs, start, maxTokens) == KeptTotal(cs[i..], currentTokens, maxTokens)
      {
        var commentTokens := EstimateTokens(TextOrEmpty(cs[i].body));
        assert cs[i..][0] == cs[i] && cs[i..][1..] == cs[i + 1..];
        if currentTokens + commentTokens > maxTokens {
          assert kept + [] == kept;
          break;
        }
        assert kept + ([cs[i]] + KeptComments(cs[i + 1..], currentTokens + commentTokens, maxTokens))
            == (kept + [cs[i]]) + KeptComments(cs[i + 1..], currentTokens + commentTokens, maxTokens);
        kept := kept + [cs[i]];
        currentTokens := currentTokens + commentTokens;
        i := i + 1;
      }
    }
    assert comments.Fetched? ==> comments.value[|comments.value|..] == [];
    assert kept + [] == kept;
    return Fetched(IssueContent(title, body, kept, currentTokens));
  }

  /**
   * The comments kept are the first ones listed, their estimate plus that of title and body is the
   * reported total, the total stays within `maxTokens` once any comment is kept, and the first
   * comment left out would have exceeded it.
   */
  lemma IssueDetailsWithinBudget(issue: Fetch<IssueRecord>, comments: Fetch<seq<Comment>>, maxTokens: int)
    requires issue.Fetched? && comments.Fetched?
    requires !NearLimit(EstimateTokens(issue.value.title + TextOrEmpty(issue.value.body)), maxTokens)
    ensures IssueDetails(issue, comments, maxTokens).Fetched?
    ensures var d := IssueDetails(issue, comments, maxTokens).value;
      && d.comments <= comments.value
      && d.totalTokens == EstimateTokens(issue.value.title + TextOrEmpty(issue.value.body)) + Sum(CommentCosts(d.comments))
      && (|d.comments| > 0 ==> d.totalTokens <= maxTokens)
      && (|d.comments| < |comments.value| ==> d.totalTokens + CommentTokens(comments.value[|d.comments|]) > maxTokens)
  {
    KeptCommentsFit(comments.value, EstimateTokens(issue.value.title + TextOrEmpty(issue.value.body)), maxTokens);
  }

  /** A title and body that already use nine tenths of the budget leave out every comment. */
  lemma NearLimitSkipsComments(issue: Fetch<IssueRecord>, comments: Fetch<seq<Comment>>, maxTokens: int)
    requires issue.Fetched?
    requires NearLimit(EstimateTokens(issue.value.title + TextOrEmpty(issue.value.body)), maxTokens)
    ensures IssueDetails(issue, comments, maxTokens).Fetched?
    ensures IssueDetails(issue, comments, maxTokens).value.comments == []
    ensures IssueDetails(issue, comments, maxTokens).value.totalTokens
         == EstimateTokens(issue.value.title + TextOrEmpty(issue.value.body))
  {
  }

  // ---------------------------------------------------------------------------------------------
  // getMilestoneIssuesForRelease

  /** A milestone as `findMilestoneByTitle` returns it. */
  datatype Milestone = Milestone(number: int, title: string)

  /** `release/${version}`: the milestone a version's issues are filed under. */
  function MilestoneTitle(version: string): string
  {
    "release/" + version
  }

  /**
   * A closed issue of a milestone, with what `getIssueDetails` reads for it. `labels` holds the
   * label names (a missing list is empty).
   */
  datatype NoteIssue = NoteIssue(
    number: nat,
    updatedAt: int,
    labels: seq<string>,
    record: Fetch<IssueRecord>,
    comments: Fetch<seq<Comment>>)

  /** The budget `getIssueDetails` is given for each release-notes issue. */
  const IssueTokens: int := 20000

  const NotesHeader: string := "## Issues Resolved\n\nThe following issues were resolved in this release:\n\n"

  /** A value interpolated into a template literal; a missing one prints as `undefined`. */
  function Interpolated(s: Option<string>): string
  {
    if s.Some? then s.value else "undefined"
  }

  /** `a.join(sep)`. */
  function Join(parts: seq<string>, sep: string): string
    decreases |parts|
  {
    if |parts| == 0 then ""
    else if |parts| == 1 then parts[0]
    else Join(parts[..|parts| - 1], sep) + sep + parts[|parts| - 1]
  }

  /** The `- **author**: body` lines, one per kept comment. */
  function DiscussionLines(cs: seq<Comment>): string
    decreases |cs|
  {
    if |cs| == 0 then ""
    else
      var c := cs[|cs| - 1];
      DiscussionLines(cs[..|cs| - 1]) + "- **" + Interpolated(c.author) + "**: " + Interpolated(c.body) + "\n"
  }

  // The fixed text of an issue's section.
  const SectionOpening: string := "### #"
  const DescriptionHeading: string := "**Description:**\n"
  const DiscussionHeading: string := "**Key Discussion Points:**\n"
  const LabelsHeading: string := "**Labels:** "
  const SectionRule: string := "---\n\n"
  const BlankLine: string := "\n\n"

  /**
   * The markdown section of one issue: the `### #n: title` heading, the description when the body is
   * non-empty (JavaScript truthiness), the discussion when comments were kept, the labels when there
   * are some, and the closing rule.
   */
  function IssueSection(issue: NoteIssue, d: IssueContent): (section: string)
    ensures SectionHeading(issue, d.title) <= section
    ensures |SectionRule| <= |section| && section[|section| - |SectionRule|..] == SectionRule
    ensures d.body != "" ==> Strings.Contains(section, DescriptionHeading + d.body + BlankLine)
    ensures |d.comments| > 0 ==> Strings.Contains(section, DiscussionHeading + DiscussionLines(d.comments))
    ensures |issue.labels| > 0 ==> Strings.Contains(section, LabelsHeading + Join(issue.labels, ", ") + BlankLine)
  {
    var heading := SectionHeading(issue, d.title);
    var description := if d.body != "" then DescriptionHeading + d.body + BlankLine else "";
    var discussion := if |d.comments| > 0 then DiscussionHeading + DiscussionLines(d.comments) + "\n" else "";
    var labels := if |issue.labels| > 0 then LabelsHeading + Join(issue.labels, ", ") + BlankLine else "";
    var section := heading + description + discussion + labels + SectionRule;
    SectionParts(heading, description, discussion, labels);
    if |d.comments| > 0 then
      var points := DiscussionHeading + DiscussionLines(d.comments);
      Strings.ContainsHalves(points, "\n");
      Strings.ContainsTransitive(section, discussion, points);
      section
    else
      section
  }

  /** `### #${issue.number}: ${title}` and its blank line. */
  function SectionHeading(issue: NoteIssue, title: string): string
  {
    SectionOpening + Strings.NatToString(issue.number) + ": " + title + BlankLine
  }

  /** Where each part of a section sits in it. */
  lemma SectionParts(heading: string, description: string, discussion: string, labels: string)
    ensures var section := heading + description + discussion + labels + SectionRule;
      && heading <= section
      && section[|section| - |SectionRule|..] == SectionRule
      && Strings.Contains(section, description)
      && Strings.Contains(section, discussion)
      && Strings.Contains(section, labels)
  {
    var section := heading + description + discussion + labels + SectionRule;
    assert section == heading + description + (discussion + labels + SectionRule);
    Strings.ContainsMiddle(heading, description, discussion + labels + SectionRule);
    assert section == heading + description + discussion + (labels + SectionRule);
    Strings.ContainsMiddle(heading + description, discussion, labels + SectionRule);
    Strings.ContainsMiddle(heading + description + discussion, labels, SectionRule);
  }

  /** The section of an issue whose details were read. */
  function SectionOf(issue: NoteIssue): Fetch<string>
  {
    match IssueDetails(issue.record, issue.comments, IssueTokens)
    case FetchFailed => FetchFailed
    case Fetched(d) => Fetched(IssueSection(issue, d))
  }

  /** Each issue's section, or the failure to read its details. */
  function Candidates(issues: seq<NoteIssue>): (c: seq<Fetch<string>>)
    ensures |c| == |issues|
    decreases |issues|
  {
    if |issues| == 0 then [] else [SectionOf(issues[0])] + Candidates(issues[1..])
  }

  lemma {:induction false} CandidateAt(issues: seq<NoteIssue>, k: nat)
    requires k < |issues|
    ensures Candidates(issues)[k] == SectionOf(issues[k])
    decreases k
  {
    if k > 0 {
      CandidateAt(issues[1..], k - 1);
    }
  }

  /**
   * The sections admitted after `used` tokens under `limit`, walking the candidates in order: a
   * section is admitted while it fits, the first that does not fit ends the walk, and a failed
   * candidate reached before that fails the whole.
   */
  function AdmitSections(candidates: seq<Fetch<string>>, used: int, limit: int): Fetch<seq<string>>
    decreases |candidates|
  {
    if |candidates| == 0 then Fetched([])
    else
      match candidates[0]
      case FetchFailed => FetchFailed
      case Fetched(section) =>
        if used + EstimateTokens(section) > limit then Fetched([])
        else Prefixed([section], AdmitSections(candidates[1..], used + EstimateTokens(section), limit))
  }

  function SectionCosts(sections: seq<string>): (costs: seq<nat>)
    ensures |costs| == |sections|
    ensures forall k :: 0 <= k < |sections| ==> costs[k] == EstimateTokens(sections[k])
  {
    seq(|sections|, k requires 0 <= k < |sections| => EstimateTokens(sections[k]))
  }

  /** The admitted sections are the first candidates, in order. */
  lemma {:induction false} AdmittedArePrefix(candidates: seq<Fetch<string>>, used: int, limit: int)
    requires AdmitSections(candidates, used, limit).Fetched?
    ensures var secs := AdmitSections(candidates, used, limit).value;
      && |secs| <= |candidates|
      && (forall k :: 0 <= k < |secs| ==> candidates[k] == Fetched(secs[k]))
    decreases |candidates|
  {
    if |candidates| > 0 && candidates[0].Fetched? {
      var section := candidates[0].value;
      var cost := EstimateTokens(section);
      if used + cost <= limit {
        var tail := candidates[1..];
        AdmittedArePrefix(tail, used + cost, limit);
        var secs := AdmitSections(candidates, used, limit).value;
        var rest := AdmitSections(tail, used + cost, limit).value;
        assert secs == [section] + rest;
        forall k | 0 <= k < |secs| ensures candidates[k] == Fetched(secs[k]) {
          if k > 0 {
            assert candidates[k] == tail[k - 1] && secs[k] == rest[k - 1];
          }
        }
      }
    }
  }

  /**
   * Once any section is admitted their estimates fit the budget, and when a candidate is left out,
   * its section would not have fitted.
   */
  lemma {:induction false} AdmittedFitBudget(candidates: seq<Fetch<string>>, used: int, limit: int)
    requires AdmitSections(candidates, used, limit).Fetched?
    ensures var secs := AdmitSections(candidates, used, limit).value;
      && |secs| <= |candidates|
      && (|secs| > 0 ==> used + Sum(SectionCosts(secs)) <= limit)
      && (|secs| < |candidates| ==>
            candidates[|secs|].Fetched? &&
            used + Sum(SectionCosts(secs)) + EstimateTokens(candidates[|secs|].value) > limit)
    decreases |candidates|
  {
    var secs := AdmitSections(candidates, used, limit).value;
    if |candidates| > 0 {
      var section := candidates[0].value;
      var cost := EstimateTokens(section);
      if used + cost <= limit {
        var tail := candidates[1..];
        AdmittedFitBudget(tail, used + cost, limit);
        var rest := AdmitSections(tail, used + cost, limit).value;
        assert secs == [section] + rest;
        assert SectionCosts(secs) == [cost] + SectionCosts(rest);
        SumCons(cost, SectionCosts(rest));
        if |rest| == 0 {
          assert SectionCosts(rest) == [];
        }
        if |secs| < |candidates| {
          assert candidates[|secs|] == tail[|rest|];
        }
      } else {
        assert SectionCosts(secs) == [];
      }
    }
  }

  /** `a.join('')` of the sections. */
  function Concat(parts: seq<string>): string
    decreases |parts|
  {
    if |parts| == 0 then "" else parts[0] + Concat(parts[1..])
  }

  /**
   * What one version contributes: the milestone `release/<version>` is looked up, and if it exists its
   * closed issues are read. Either read may throw.
   */
  function VersionIssues(
    version: string,
    findMilestone: string -> Fetch<Option<Milestone>>,
    closedIssues: int -> Fetch<seq<NoteIssue>>): Fetch<seq<NoteIssue>>
  {
    match findMilestone(MilestoneTitle(version))
    case FetchFailed => FetchFailed
    case Fetched(None) => Fetched([])
    case Fetched(Some(m)) => closedIssues(m.number)
  }

  /** `allIssues`: the versions' issues, version by version; any failed read fails the whole. */
  function CollectIssues(
    versions: seq<string>,
    findMilestone: string -> Fetch<Option<Milestone>>,
    closedIssues: int -> Fetch<seq<NoteIssue>>): Fetch<seq<NoteIssue>>
    decreases |versions|
  {
    if |versions| == 0 then Fetched([])
    else
      match VersionIssues(versions[0], findMilestone, closedIssues)
      case FetchFailed => FetchFailed
      case Fetched(more) => Prefixed(more, CollectIssues(versions[1..], findMilestone, closedIssues))
  }

  function UpdatedAt(issue: NoteIssue): int
  {
    issue.updatedAt
  }

  /**
   * `getMilestoneIssuesForRelease` as a value: no issues, or any failure, gives the empty text;
   * otherwise the header and the admitted sections of the issues, most recently updated first.
   */
  function MilestoneNotes(
    versions: seq<string>,
    findMilestone: string -> Fetch<Option<Milestone>>,
    closedIssues: int -> Fetch<seq<NoteIssue>>,
    maxTotalTokens: int): string
  {
    match CollectIssues(versions, findMilestone, closedIssues)
    case FetchFailed => ""
    case Fetched(all) =>
      if |all| == 0 then ""
      else
        NotesText(AdmitSections(Candidates(Sorting.SortDescending(all, UpdatedAt)), EstimateTokens(NotesHeader), maxTotalTokens))
  }

  /** The text for the admitted sections: header and sections, or nothing after a failure. */
  function NotesText(admitted: Fetch<seq<string>>): string
  {
    match admitted
    case FetchFailed => ""
    case Fetched(sections) => NotesHeader + Concat(sections)
  }

  /** `getMilestoneIssuesForRelease`: collect version by version, sort, then admit sections under the budget. */
  method GetMilestoneIssuesForRelease(
    versions: seq<string>,
    findMilestone: string -> Fetch<Option<Milestone>>,
    closedIssues: int -> Fetch<seq<NoteIssue>>,
    maxTotalTokens: int) returns (notes: string)
    ensures notes == MilestoneNotes(versions, findMilestone, closedIssues, maxTotalTokens)
  {
    var collected := CollectMilestoneIssues(versions, findMilestone, closedIssues);
    if collected.FetchFailed? || |collected.value| == 0 {
      return "";
    }
    notes := WriteReleaseNotes(Sorting.SortDescending(collected.value, UpdatedAt), maxTotalTokens);
  }

  /** The first half of `getMilestoneIssuesForRelease`: each version's milestone issues, pushed in turn. */
  method CollectMilestoneIssues(
    versions: seq<string>,
    findMilestone: string -> Fetch<Option<Milestone>>,
    closedIssues: int -> Fetch<seq<NoteIssue>>) returns (r: Fetch<seq<NoteIssue>>)
    ensures r == CollectIssues(versions, findMilestone, closedIssues)
  {
    var allIssues: seq<NoteIssue> := [];
    PrefixedNothing(CollectIssues(versions, findMilestone, closedIssues));
    assert versions[0..] == versions;
    for v := 0 to |versions|
      invariant CollectIssues(versions, findMilestone, closedIssues)
             == Prefixed(allIssues, CollectIssues(versions[v..], findMilestone, closedIssues))
    {
      assert versions[v..][0] == versions[v] && versions[v..][1..] == versions[v + 1..];
      ghost var before := allIssues;
      ghost var rest := CollectIssues(versions[v + 1..], findMilestone, closedIssues);
      var milestone := findMilestone(MilestoneTitle(versions[v]));
      if milestone.FetchFailed? {
        return FetchFailed;
      }
      if milestone.value.None? {
        assert VersionIssues(versions[v], findMilestone, closedIssues) == Fetched([]);
        PrefixedAssociates(before, [], rest);
        assert before + [] == before;
        continue;
      }
      var issues := closedIssues(milestone.value.value.number);
      if issues.FetchFailed? {
        return FetchFailed;
      }
      if |issues.value| > 0 {
        allIssues := allIssues + issues.value;
      } else {
        assert allIssues + issues.value == allIssues;
      }
      assert VersionIssues(versions[v], findMilestone, closedIssues) == issues;
      PrefixedAssociates(before, issues.value, rest);
    }
    assert versions[|versions|..] == [];
    assert allIssues + [] == allIssues;
    return Fetched(allIssues);
  }

  /** The second half of `getMilestoneIssuesForRelease`: the header, then sections while the budget lasts. */
  method WriteReleaseNotes(sorted: seq<NoteIssue>, maxTotalTokens: int) returns (notes: string)
    ensures notes == NotesText(AdmitSections(Candidates(sorted), EstimateTokens(NotesHeader), maxTotalTokens))
  {
    ghost var candidates := Candidates(sorted);
    var releaseNotesContent := NotesHeader;
    var totalTokens := EstimateTokens(NotesHeader);
    ghost var sections: seq<string> := [];
    PrefixedNothing(AdmitSections(candidates, totalTokens, maxTotalTokens));
    assert candidates[0..] == candidates;
    var i := 0;
    while i < |sorted|
      invariant 0 <= i <= |sorted|
      invariant releaseNotesContent == NotesHeader + Concat(sections)
      invariant AdmitSections(candidates, EstimateTokens(NotesHeader), maxTotalTokens)
             == Prefixed(sections, AdmitSections(candidates[i..], totalTokens, maxTotalTokens))
    {
      var rendered := RenderSection(sorted, i);
      if rendered.FetchFailed? {
        return "";
      }
      var issueSection := rendered.value;
      AdmitNext(candidates, i, issueSection, totalTokens, maxTotalTokens);
      var sectionTokens := EstimateTokens(issueSection);
      if totalTokens + sectionTokens > maxTotalTokens {
        break;
      }
      ConcatSnoc(sections, issueSection);
      AppendAssociates(NotesHeader, Concat(sections), issueSection);
      AdmitStep(candidates, i, sections, issueSection, totalTokens, maxTotalTokens);
      releaseNotesContent := releaseNotesContent + issueSection;
      sections := sections + [issueSection];
      totalTokens := totalTokens + sectionTokens;
      i := i + 1;
    }
    assert i == |sorted| ==> candidates[i..] == [];
    assert sections + [] == sections;
    return releaseNotesContent;
  }

  /** The loop body's first half: issue `i`'s details under its own budget, then its section. */
  method RenderSection(sorted: seq<NoteIssue>, i: nat) returns (section: Fetch<string>)
    requires i < |sorted|
    ensures section == Candidates(sorted)[i]
    ensures section.Fetched? <==> sorted[i].record.Fetched?
    ensures section.Fetched? ==>
      && SectionHeading(sorted[i], sorted[i].record.value.title) <= section.value
      && section.value[|section.value| - |SectionRule|..] == SectionRule
  {
    CandidateAt(sorted, i);
    var issue := sorted[i];
    var issueDetails := GetIssueDetails(issue.record, issue.comments, IssueTokens);
    if issueDetails.FetchFailed? {
      return FetchFailed;
    }
    return Fetched(IssueSection(issue, issueDetails.value));
  }

  /** One step of the walk over the candidates, at candidate `i`. */
  lemma AdmitNext(candidates: seq<Fetch<string>>, i: nat, section: string, used: int, limit: int)
    requires i < |candidates| && candidates[i] == Fetched(section)
    ensures AdmitSections(candidates[i..], used, limit)
         == if used + EstimateTokens(section) > limit then Fetched([])
            else Prefixed([section], AdmitSections(candidates[i + 1..], used + EstimateTokens(section), limit))
  {
    assert candidates[i..][0] == candidates[i] && candidates[i..][1..] == candidates[i + 1..];
  }

  /** An admitted candidate moves from the walk ahead onto the sections behind. */
  lemma AdmitStep(candidates: seq<Fetch<string>>, i: nat, sections: seq<string>, section: string, used: int, limit: int)
    requires i < |candidates| && candidates[i] == Fetched(section)
    requires used + EstimateTokens(section) <= limit
    ensures Prefixed(sections, AdmitSections(candidates[i..], used, limit))
         == Prefixed(sections + [section], AdmitSections(candidates[i + 1..], used + EstimateTokens(section), limit))
  {
    AdmitNext(candidates, i, section, used, limit);
    PrefixedAssociates(sections, [section], AdmitSections(candidates[i + 1..], used + EstimateTokens(section), limit));
  }

  /** `prefix` followed by what a failing walk gave, failure staying failure. */
  function Prefixed<T>(prefix: seq<T>, r: Fetch<seq<T>>): Fetch<seq<T>>
  {
    match r
    case FetchFailed => FetchFailed
    case Fetched(rest) => Fetched(prefix + rest)
  }

  lemma PrefixedNothing<T>(r: Fetch<seq<T>>)
    ensures Prefixed([], r) == r
  {
    if r.Fetched? {
      assert [] + r.value == r.value;
    }
  }

  lemma PrefixedAssociates<T>(prefix: seq<T>, more: seq<T>, r: Fetch<seq<T>>)
    ensures Prefixed(prefix, Prefixed(more, r)) == Prefixed(prefix + more, r)
  {
    if r.Fetched? {
      assert prefix + (more + r.value) == (prefix + more) + r.value;
    }
  }

  lemma AppendAssociates(a: string, b: string, c: string)
    ensures (a + b) + c == a + (b + c)
  {
  }

  lemma {:induction false} ConcatSnoc(parts: seq<string>, s: string)
    ensures Concat(parts + [s]) == Concat(parts) + s
    decreases |parts|
  {
    if |parts| == 0 {
      assert [s][1..] == [];
    } else {
      assert (parts + [s])[1..] == parts[1..] + [s];
      ConcatSnoc(parts[1..], s);
    }
  }

  /** The release notes are empty, or open with the header; they are empty when no milestone had issues. */
  lemma MilestoneNotesShape(
    versions: seq<string>,
    findMilestone: string -> Fetch<Option<Milestone>>,
    closedIssues: int -> Fetch<seq<NoteIssue>>,
    maxTotalTokens: int)
    ensures var notes := MilestoneNotes(versions, findMilestone, closedIssues, maxTotalTokens);
      notes == "" || NotesHeader <= notes
    ensures CollectIssues(versions, findMilestone, closedIssues) == Fetched([]) ==>
      MilestoneNotes(versions, findMilestone, closedIssues, maxTotalTokens) == ""
  {
  }

  /** Versions without a milestone contribute nothing. */
  lemma {:induction false} VersionsWithoutMilestoneAddNothing(
    versions: seq<string>,
    findMilestone: string -> Fetch<Option<Milestone>>,
    closedIssues: int -> Fetch<seq<NoteIssue>>)
    requires forall k :: 0 <= k < |versions| ==> findMilestone(MilestoneTitle(versions[k])) == Fetched(None)
    ensures CollectIssues(versions, findMilestone, closedIssues) == Fetched([])
    decreases |versions|
  {
    if |versions| > 0 {
      var tail := versions[1..];
      assert forall k :: 0 <= k < |tail| ==> tail[k] == versions[k + 1];
      VersionsWithoutMilestoneAddNothing(tail, findMilestone, closedIssues);
      assert findMilestone(MilestoneTitle(versions[0])) == Fetched(None);
      assert VersionIssues(versions[0], findMilestone, closedIssues) == Fetched([]);
      PrefixedNothing(CollectIssues(tail, findMilestone, closedIssues));
    }
  }

  // ---------------------------------------------------------------------------------------------
  // getRecentClosedIssuesForCommit

  /** A closed issue as `issues.listForRepo` returns it. */
  datatype ClosedIssue = ClosedIssue(
    number: nat,
    isPullRequest: bool,
    stateReason: Option<string>,
    milestoneNumber: Option<int>)

  /** Not a pull request, and closed as completed. */
  predicate IsCompletedIssue(i: ClosedIssue)
  {
    !i.isPullRequest && i.stateReason == Some("completed")
  }

  function CompletedIssues(issues: seq<ClosedIssue>): (r: seq<ClosedIssue>)
    ensures forall i :: i in r <==> i in issues && IsCompletedIssue(i)
    ensures |r| <= |issues|
    decreases |issues|
  {
    if |issues| == 0 then []
    else
      var rest := CompletedIssues(issues[..|issues| - 1]);
      assert issues == issues[..|issues| - 1] + [issues[|issues| - 1]];
      if IsCompletedIssue(issues[|issues| - 1]) then rest + [issues[|issues| - 1]] else rest
  }

  /** The text before the first `c`, or all of `s` (`s.split(c)[0]`). */
  function BeforeFirst(s: string, c: char): (r: string)
    ensures r <= s && c !in r
    ensures |r| < |s| ==> s[|r|] == c
    ensures c in s ==> |r| < |s|
    decreases |s|
  {
    if |s| == 0 then ""
    else if s[0] == c then ""
    else [s[0]] + BeforeFirst(s[1..], c)
  }

  /** `v.includes('-dev.') ? v.split('-')[0] : v`. */
  function BaseVersion(v: string): (b: string)
    ensures !Strings.Contains(v, "-dev.") ==> b == v
    ensures Strings.Contains(v, "-dev.") ==> b <= v && '-' !in b && |b| < |v| && v[|b|] == '-'
  {
    if Strings.Contains(v, "-dev.") then
      Strings.ContainsOccurs(v, "-dev.");
      var k :| Strings.OccursAt(v, "-dev.", k);
      assert v[k] == v[k..k + 5][0];
      BeforeFirst(v, '-')
    else v
  }

  /** Splitting at the first `c` gives back the text before it. */
  lemma {:induction false} BeforeFirstOf(b: string, c: char, rest: string)
    requires c !in b
    ensures BeforeFirst(b + [c] + rest, c) == b
    decreases |b|
  {
    if |b| > 0 {
      assert (b + [c] + rest)[1..] == b[1..] + [c] + rest;
      BeforeFirstOf(b[1..], c, rest);
      assert b == [b[0]] + b[1..];
    }
  }

  /** A development version's base is the part before its first dash. */
  lemma DevVersionBase(b: string, counter: string)
    requires '-' !in b
    ensures BaseVersion(b + "-dev." + counter) == b
  {
    var v := b + "-dev." + counter;
    assert v[|b|..|b| + 5] == "-dev.";
    Strings.ContainsAt(v, "-dev.", |b|);
    assert v == b + ['-'] + ("dev." + counter);
    BeforeFirstOf(b, '-', "dev." + counter);
  }

  /** `s.slice(0, end)`: a negative `end` counts from the back; the result is clamped to `s`. */
  function SliceTo<T>(s: seq<T>, end: int): (r: seq<T>)
    ensures r <= s
    ensures end >= 0 ==> |r| == if end < |s| then end else |s|
    ensures end < 0 ==> |r| == if |s| + end > 0 then |s| + end else 0
  {
    if end >= 0 then (if end < |s| then s[..end] else s)
    else if |s| + end > 0 then s[..|s| + end] else []
  }

  /** The issue belongs to the milestone found for the current version. */
  predicate InMilestone(i: ClosedIssue, relevant: Option<Milestone>)
  {
    relevant.Some? && i.milestoneNumber == Some(relevant.value.number)
  }

  function MilestoneIssues(issues: seq<ClosedIssue>, relevant: Option<Milestone>): (r: seq<ClosedIssue>)
    ensures forall i :: i in r <==> i in issues && InMilestone(i, relevant)
    ensures |r| <= |issues|
    decreases |issues|
  {
    if |issues| == 0 then []
    else
      var rest := MilestoneIssues(issues[..|issues| - 1], relevant);
      assert issues == issues[..|issues| - 1] + [issues[|issues| - 1]];
      if InMilestone(issues[|issues| - 1], relevant) then rest + [issues[|issues| - 1]] else rest
  }

  function OtherIssues(issues: seq<ClosedIssue>, relevant: Option<Milestone>): (r: seq<ClosedIssue>)
    ensures forall i :: i in r <==> i in issues && !InMilestone(i, relevant)
    ensures |r| <= |issues|
    decreases |issues|
  {
    if |issues| == 0 then []
    else
      var rest := OtherIssues(issues[..|issues| - 1], relevant);
      assert issues == issues[..|issues| - 1] + [issues[|issues| - 1]];
      if !InMilestone(issues[|issues| - 1], relevant) then rest + [issues[|issues| - 1]] else rest
  }

  /** The two groups split the window: every issue lands in exactly one. */
  lemma {:induction false} PartitionIsExact(issues: seq<ClosedIssue>, relevant: Option<Milestone>)
    ensures multiset(MilestoneIssues(issues, relevant)) + multiset(OtherIssues(issues, relevant)) == multiset(issues)
    decreases |issues|
  {
    if |issues| > 0 {
      var init := issues[..|issues| - 1];
      PartitionIsExact(init, relevant);
      assert issues == init + [issues[|issues| - 1]];
    }
  }

  /**
   * What the commit context shows: the issues of the relevant milestone (under its title), then the
   * other issues that fit the remaining limit. Both empty means the empty text.
   */
  datatype RecentIssues = RecentIssues(milestone: Option<Milestone>, fromMilestone: seq<ClosedIssue>, others: seq<ClosedIssue>)

  const NoRecentIssues: RecentIssues := RecentIssues(None, [], [])

  /** The milestone to favour: looked up only for a non-empty current version. */
  function RelevantMilestone(currentVersion: Option<string>, findMilestone: string -> Fetch<Option<Milestone>>)
    : Fetch<Option<Milestone>>
  {
    if currentVersion.Some? && currentVersion.value != "" then findMilestone(MilestoneTitle(BaseVersion(currentVersion.value)))
    else Fetched(None)
  }

  /** The selection of `getRecentClosedIssuesForCommit`; a failed read gives the empty text. */
  function RecentClosedIssues(
    listing: Fetch<seq<ClosedIssue>>,
    currentVersion: Option<string>,
    findMilestone: string -> Fetch<Option<Milestone>>,
    limit: int): RecentIssues
  {
    if listing.FetchFailed? then NoRecentIssues
    else
      var issues := CompletedIssues(listing.value);
      if |issues| == 0 then NoRecentIssues
      else
        match RelevantMilestone(currentVersion, findMilestone)
        case FetchFailed => NoRecentIssues
        case Fetched(relevant) =>
          var window := SliceTo(issues, limit);
          var fromMilestone := MilestoneIssues(window, relevant);
          var others := OtherIssues(window, relevant);
          var remainingLimit := limit - |fromMilestone|;
          RecentIssues(
            relevant,
            fromMilestone,
            if |others| > 0 && remainingLimit > 0 then SliceTo(others, remainingLimit) else [])
  }

  /** `getRecentClosedIssuesForCommit`: the partition loop over the first `limit` issues. */
  method GetRecentClosedIssuesForCommit(
    listing: Fetch<seq<ClosedIssue>>,
    currentVersion: Option<string>,
    findMilestone: string -> Fetch<Option<Milestone>>,
    limit: int) returns (r: RecentIssues)
    ensures r == RecentClosedIssues(listing, currentVersion, findMilestone, limit)
  {
    if listing.FetchFailed? {
      return NoRecentIssues;
    }
    var issues := CompletedIssues(listing.value);
    if |issues| == 0 {
      return NoRecentIssues;
    }
    var relevantMilestone := RelevantMilestone(currentVersion, findMilestone);
    if relevantMilestone.FetchFailed? {
      return NoRecentIssues;
    }
    var relevant := relevantMilestone.value;
    var window := SliceTo(issues, limit);
    var milestoneIssues: seq<ClosedIssue> := [];
    var otherIssues: seq<ClosedIssue> := [];
    for k := 0 to |window|
      invariant milestoneIssues == MilestoneIssues(window[..k], relevant)
      invariant otherIssues == OtherIssues(window[..k], relevant)
    {
      assert window[..k + 1][..k] == window[..k];
      if InMilestone(window[k], relevant) {
        milestoneIssues := milestoneIssues + [window[k]];
      } else {
        otherIssues := otherIssues + [window[k]];
      }
    }
    assert window[..|window|] == window;
    var remainingLimit := limit - |milestoneIssues|;
    var shown := [];
    if |otherIssues| > 0 && remainingLimit > 0 {
      shown := SliceTo(otherIssues, remainingLimit);
    }
    return RecentIssues(relevant, milestoneIssues, shown);
  }

  /**
   * Milestone issues come first and are never cut; with a non-negative limit the whole selection
   * stays within it; every issue shown was listed, completed, and not a pull request.
   */
  lemma RecentIssuesBounded(
    listing: Fetch<seq<ClosedIssue>>,
    currentVersion: Option<string>,
    findMilestone: string -> Fetch<Option<Milestone>>,
    limit: int)
    ensures var r := RecentClosedIssues(listing, currentVersion, findMilestone, limit);
      && (limit >= 0 ==> |r.fromMilestone| + |r.others| <= limit)
      && (forall i :: i in r.fromMilestone ==> i in listing.value && IsCompletedIssue(i) && InMilestone(i, r.milestone))
      && (forall i :: i in r.others ==> i in listing.value && IsCompletedIssue(i) && !InMilestone(i, r.milestone))
  {
    var r := RecentClosedIssues(listing, currentVersion, findMilestone, limit);
    if listing.Fetched? && |CompletedIssues(listing.value)| > 0 && RelevantMilestone(currentVersion, findMilestone).Fetched? {
      var issues := CompletedIssues(listing.value);
      var relevant := RelevantMilestone(currentVersion, findMilestone).value;
      var window := SliceTo(issues, limit);
      assert forall i :: i in window ==> i in issues;
      var others := OtherIssues(window, relevant);
      assert forall i :: i in r.others ==> i in others;
      if limit >= 0 {
        PartitionIsExact(window, relevant);
        assert |window| == |MilestoneIssues(window, relevant)| + |others| by {
          assert |multiset(window)| == |multiset(MilestoneIssues(window, relevant))| + |multiset(others)|;
        }
      }
    }
  }

  /** Without a current version, nothing is looked up and no issue counts as a milestone issue. */
  lemma NoVersionNoMilestone(
    listing: Fetch<seq<ClosedIssue>>,
    findMilestone: string -> Fetch<Option<Milestone>>,
    limit: int)
    ensures RecentClosedIssues(listing, None, findMilestone, limit).fromMilestone == []
  {
    if listing.Fetched? {
      var issues := CompletedIssues(listing.value);
      var window := SliceTo(issues, limit);
      NoneSelectsNothing(window);
    }
  }

  /** Without a milestone, the milestone filter keeps nothing. */
  lemma {:induction false} NoneSelectsNothing(issues: seq<ClosedIssue>)
    ensures MilestoneIssues(issues, None) == []
    decreases |issues|
  {
    if |issues| > 0 {
      NoneSelectsNothing(issues[..|issues| - 1]);
    }
  }
}
