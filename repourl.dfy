/**
 * The owner and repository name taken from the `origin` remote URL by `getRepoDetails`. The URL is
 * trimmed and matched, at its end, against `:owner/repo` (the SSH form, for any host or alias) or
 * `//host/owner/repo` (any URL with a host), with an optional `.git` that is stripped once.
 */
module RepoUrl {
  import opened Wrappers
  import Strings

  datatype RepoDetails = RepoDetails(owner: string, repo: string)

  /** `[^/:]`: a character of the owner or the repository part. */
  predicate SegmentChar(c: char)
  {
    c != '/' && c != ':'
  }

  /** `[^/]`: a character of the host part. */
  predicate HostChar(c: char)
  {
    c != '/'
  }

  /** `[^/:]+` */
  predicate IsSegment(s: string)
  {
    |s| > 0 && forall k :: 0 <= k < |s| ==> SegmentChar(s[k])
  }

  /** `[^/]+` */
  predicate IsHost(s: string)
  {
    |s| > 0 && forall k :: 0 <= k < |s| ==> HostChar(s[k])
  }

  /** `suffix` is the end of `s`, character by character. */
  predicate EndsWith(s: string, suffix: string)
  {
    |suffix| <= |s| && forall k :: 0 <= k < |suffix| ==> s[|s| - |suffix| + k] == suffix[k]
  }

  /** `repo.endsWith('.git') ? repo.slice(0, -4) : repo` */
  function StripGit(repo: string): (r: string)
    ensures r == repo || r + ".git" == repo
  {
    if |repo| >= 4 && repo[|repo| - 4..] == ".git" then repo[..|repo| - 4] else repo
  }

  /** The regex's first alternative, `:owner/repo` before the end (`(?:\.git)?` matches empty, the greedy repo group takes any `.git`). */
  ghost predicate SshMatch(t: string, d: RepoDetails)
  {
    exists last :: IsSegment(d.owner) && IsSegment(last) && StripGit(last) == d.repo
      && EndsWith(t, ":" + d.owner + "/" + last)
  }

  /** The regex's second alternative, `//host/owner/repo` before the end. */
  ghost predicate HostMatch(t: string, d: RepoDetails)
  {
    exists host, last :: IsHost(host) && IsSegment(d.owner) && IsSegment(last) && StripGit(last) == d.repo
      && EndsWith(t, "//" + host + "/" + d.owner + "/" + last)
  }

  /** The start of the longest run of `[^/:]` characters that ends just before `end`. */
  function SegmentStart(u: string, end: nat): (start: nat)
    requires end <= |u|
    ensures start <= end
    decreases end
  {
    if end > 0 && SegmentChar(u[end - 1]) then SegmentStart(u, end - 1) else end
  }

  /** The run `SegmentStart` finds is `[^/:]` throughout and cannot be extended to the left. */
  lemma {:induction false} SegmentStartBounds(u: string, end: nat)
    requires end <= |u|
    ensures forall k :: SegmentStart(u, end) <= k < end ==> SegmentChar(u[k])
    ensures SegmentStart(u, end) == 0 || !SegmentChar(u[SegmentStart(u, end) - 1])
    decreases end
  {
    if end > 0 && SegmentChar(u[end - 1]) {
      SegmentStartBounds(u, end - 1);
    }
  }

  /** The start of the longest run of `[^/]` characters that ends just before `end`. */
  function HostStart(u: string, end: nat): (start: nat)
    requires end <= |u|
    ensures start <= end
    decreases end
  {
    if end > 0 && HostChar(u[end - 1]) then HostStart(u, end - 1) else end
  }

  /** The run `HostStart` finds is `[^/]` throughout and cannot be extended to the left. */
  lemma {:induction false} HostStartBounds(u: string, end: nat)
    requires end <= |u|
    ensures forall k :: HostStart(u, end) <= k < end ==> HostChar(u[k])
    ensures HostStart(u, end) == 0 || !HostChar(u[HostStart(u, end) - 1])
    decreases end
  {
    if end > 0 && HostChar(u[end - 1]) {
      HostStartBounds(u, end - 1);
    }
  }

  /** A run that ends at `end` and cannot be extended to the left is the one `SegmentStart` finds. */
  lemma {:induction false} SegmentStartIs(u: string, end: nat, start: nat)
    requires start <= end <= |u|
    requires forall k :: start <= k < end ==> SegmentChar(u[k])
    requires start == 0 || !SegmentChar(u[start - 1])
    ensures SegmentStart(u, end) == start
    decreases end
  {
    if end > start {
      SegmentStartIs(u, end - 1, start);
    }
  }

  lemma {:induction false} HostStartIs(u: string, end: nat, start: nat)
    requires start <= end <= |u|
    requires forall k :: start <= k < end ==> HostChar(u[k])
    requires start == 0 || !HostChar(u[start - 1])
    ensures HostStart(u, end) == start
    decreases end
  {
    if end > start {
      HostStartIs(u, end - 1, start);
    }
  }

  /**
   * The match on the trimmed URL `t`, scanned from its end: the repository part, the owner part
   * before it and, when that is preceded by `/`, the host.
   */
  function MatchRemote(t: string): Option<RepoDetails>
  {
    var b := SegmentStart(t, |t|);
    if b == |t| || b == 0 || t[b - 1] != '/' then None
    else
      var a := SegmentStart(t, b - 1);
      if a == b - 1 || a == 0 then None
      else if t[a - 1] == ':' then Some(RepoDetails(t[a..b - 1], StripGit(t[b..])))
      else
        var h := HostStart(t, a - 1);
        if h == a - 1 || h < 2 || t[h - 2] != '/' then None
        else Some(RepoDetails(t[a..b - 1], StripGit(t[b..])))
  }

  /** `getRepoDetails` after the `git remote get-url origin` call. */
  function ParseRemoteUrl(url: string): Option<RepoDetails>
  {
    MatchRemote(Strings.Trim(url))
  }

  /** `getRepoDetails`: a failed `git` call is rethrown, an unmatched URL throws. */
  function GetRepoDetails(remoteUrl: Fetch<string>): (r: Fetch<RepoDetails>)
    ensures remoteUrl.FetchFailed? ==> r.FetchFailed?
    ensures forall d :: r == Fetched(d) <==>
      remoteUrl.Fetched? && (SshMatch(Strings.Trim(remoteUrl.value), d) || HostMatch(Strings.Trim(remoteUrl.value), d))
  {
    match remoteUrl
    case FetchFailed => FetchFailed
    case Fetched(url) =>
      assert forall d :: ParseRemoteUrl(url) == Some(d) <==>
        SshMatch(Strings.Trim(url), d) || HostMatch(Strings.Trim(url), d) by {
        forall d ensures ParseRemoteUrl(url) == Some(d) <==> SshMatch(Strings.Trim(url), d) || HostMatch(Strings.Trim(url), d) {
          ParsedIffMatched(url, d);
        }
      }
      match ParseRemoteUrl(url)
      case None => FetchFailed
      case Some(d) => Fetched(d)
  }

  /** The owner and repository parts of `sep + owner + "/" + last` at the end of `t`, as slices. */
  lemma {:induction false} TailPieces(t: string, sep: string, owner: string, last: string)
    requires EndsWith(t, sep + owner + "/" + last)
    ensures var b := |t| - |last|; var a := b - 1 - |owner|;
      a >= |sep| && t[b..] == last && t[a..b - 1] == owner
  {
    var x := sep + owner + "/" + last;
    var b := |t| - |last|;
    var a := b - 1 - |owner|;
    assert t[|t| - |x|..] == x;
    assert t[b..] == x[|x| - |last|..] == last;
    assert t[a..b - 1] == x[|sep|..|sep| + |owner|] == owner;
  }

  /** What is matched is the groups of the pattern at the end of `t`. */
  lemma MatchedIsPattern(t: string)
    requires MatchRemote(t).Some?
    ensures SshMatch(t, MatchRemote(t).value) || HostMatch(t, MatchRemote(t).value)
  {
    var b := SegmentStart(t, |t|);
    var a := SegmentStart(t, b - 1);
    assert MatchRemote(t).value == RepoDetails(t[a..b - 1], StripGit(t[b..]));
    SegmentStartBounds(t, |t|);
    SegmentStartBounds(t, b - 1);
    if t[a - 1] == ':' {
      SshFormAt(t, a, b);
    } else {
      HostFormAt(t, a, b);
    }
  }

  /** Runs of `[^/:]` at `[a, b - 1)` and `[b, |t|)` are the groups of an SSH-form match behind a `:`. */
  lemma SshFormAt(t: string, a: nat, b: nat)
    requires 0 < a < b - 1 && b < |t| && t[a - 1] == ':' && t[b - 1] == '/'
    requires forall k :: a <= k < b - 1 ==> SegmentChar(t[k])
    requires forall k :: b <= k < |t| ==> SegmentChar(t[k])
    ensures SshMatch(t, RepoDetails(t[a..b - 1], StripGit(t[b..])))
  {
    PiecesAtEnd(t, ":", a, b);
    assert IsSegment(t[a..b - 1]) && IsSegment(t[b..]);
  }

  /** The same runs behind `//host/` are the groups of a host-form match. */
  lemma HostFormAt(t: string, a: nat, b: nat)
    requires 0 < a < b - 1 && b < |t| && t[a - 1] == '/' && t[b - 1] == '/'
    requires HostStart(t, a - 1) < a - 1 && HostStart(t, a - 1) >= 2 && t[HostStart(t, a - 1) - 2] == '/'
    requires forall k :: a <= k < b - 1 ==> SegmentChar(t[k])
    requires forall k :: b <= k < |t| ==> SegmentChar(t[k])
    ensures HostMatch(t, RepoDetails(t[a..b - 1], StripGit(t[b..])))
  {
    var h := HostStart(t, a - 1);
    HostStartBounds(t, a - 1);
    var host := t[h..a - 1];
    assert IsHost(host);
    var sep := "//" + host + "/";
    forall k | 0 <= k < |sep| ensures t[a - |sep| + k] == sep[k] {
      if 2 <= k < |sep| - 1 {
        assert sep[k] == host[k - 2];
      }
    }
    PiecesAtEnd(t, sep, a, b);
    assert IsSegment(t[a..b - 1]) && IsSegment(t[b..]);
  }

  /** `sep`, the owner part, `/` and the repository part, read back from the end of `t`. */
  lemma PiecesAtEnd(t: string, sep: string, a: nat, b: nat)
    requires |sep| <= a < b <= |t| && t[b - 1] == '/'
    requires forall k :: 0 <= k < |sep| ==> t[a - |sep| + k] == sep[k]
    ensures EndsWith(t, sep + t[a..b - 1] + "/" + t[b..])
  {
    var x := sep + t[a..b - 1] + "/" + t[b..];
    assert |x| == |t| - a + |sep|;
    forall k | 0 <= k < |x| ensures t[|t| - |x| + k] == x[k] {
      if k < |sep| {
      } else if k < |sep| + (b - 1 - a) {
        assert x[k] == t[a..b - 1][k - |sep|];
      } else if k == |sep| + (b - 1 - a) {
      } else {
        assert x[k] == t[b..][k - |sep| - (b - a)];
      }
    }
  }

  /** The characters of `sep + owner + "/" + last` at the end of `t`, one by one. */
  lemma {:induction false} TailIndices(t: string, sep: string, owner: string, last: string)
    requires EndsWith(t, sep + owner + "/" + last)
    ensures var b := |t| - |last|; var a := b - 1 - |owner|;
      && a - |sep| >= 0
      && (forall k :: 0 <= k < |last| ==> t[b + k] == last[k])
      && t[b - 1] == '/'
      && (forall k :: 0 <= k < |owner| ==> t[a + k] == owner[k])
      && (forall k :: 0 <= k < |sep| ==> t[a - |sep| + k] == sep[k])
  {
    var x := sep + owner + "/" + last;
    var o := |t| - |x|;
    assert forall k :: 0 <= k < |x| ==> t[o + k] == x[k];
    assert forall k :: 0 <= k < |last| ==> x[|sep| + |owner| + 1 + k] == last[k];
    assert x[|sep| + |owner|] == '/';
    assert forall k :: 0 <= k < |owner| ==> x[|sep| + k] == owner[k];
    assert forall k :: 0 <= k < |sep| ==> x[k] == sep[k];
  }

  /** A `[^/:]` part laid at `start` and ending at `end`, not extendable leftwards, is the run the scan finds. */
  lemma SegmentRunAt(t: string, start: nat, end: nat, part: string)
    requires start + |part| == end <= |t| && IsSegment(part)
    requires forall k :: 0 <= k < |part| ==> t[start + k] == part[k]
    requires start == 0 || !SegmentChar(t[start - 1])
    ensures SegmentStart(t, end) == start
  {
    forall k | start <= k < end ensures SegmentChar(t[k]) {
      assert t[start + (k - start)] == part[k - start];
    }
    SegmentStartIs(t, end, start);
  }

  /** Behind a separator that is not `[^/:]`, `owner/last` are the two runs the scans find. */
  lemma SegmentsAtEnd(t: string, sep: string, owner: string, last: string)
    requires |sep| > 0 && !SegmentChar(sep[|sep| - 1])
    requires IsSegment(owner) && IsSegment(last)
    requires EndsWith(t, sep + owner + "/" + last)
    ensures SegmentStart(t, |t|) == |t| - |last|
    ensures SegmentStart(t, |t| - |last| - 1) == |t| - |last| - 1 - |owner|
    ensures |t| - |last| - 1 - |owner| >= |sep| && t[|t| - |last| - 2 - |owner|] == sep[|sep| - 1]
    ensures t[|t| - |last| - 1] == '/'
  {
    TailIndices(t, sep, owner, last);
    var b := |t| - |last|;
    var a := b - 1 - |owner|;
    assert t[a - 1] == t[a - |sep| + (|sep| - 1)] == sep[|sep| - 1];
    SegmentRunAt(t, b, |t|, last);
    SegmentRunAt(t, a, b - 1, owner);
  }

  /** `MatchRemote` once the scans have found the repository part at `b` and the owner part at `a`. */
  lemma MatchAt(t: string, a: nat, b: nat)
    requires 0 < a < b - 1 && b < |t|
    requires SegmentStart(t, |t|) == b && t[b - 1] == '/' && SegmentStart(t, b - 1) == a
    requires t[a - 1] == ':' || (t[a - 1] == '/' && HostStart(t, a - 1) < a - 1 && HostStart(t, a - 1) >= 2
                                 && t[HostStart(t, a - 1) - 2] == '/')
    ensures MatchRemote(t) == Some(RepoDetails(t[a..b - 1], StripGit(t[b..])))
  {
  }

  /** An SSH-form match is found, with its groups. */
  lemma SshPatternIsMatched(t: string, d: RepoDetails)
    requires SshMatch(t, d)
    ensures MatchRemote(t) == Some(d)
  {
    var last :| IsSegment(d.owner) && IsSegment(last) && StripGit(last) == d.repo
      && EndsWith(t, ":" + d.owner + "/" + last);
    SegmentsAtEnd(t, ":", d.owner, last);
    var b := |t| - |last|;
    var a := b - 1 - |d.owner|;
    MatchAt(t, a, b);
    TailPieces(t, ":", d.owner, last);
  }

  /** A host-form match is found, with its groups. */
  lemma HostPatternIsMatched(t: string, d: RepoDetails)
    requires HostMatch(t, d)
    ensures MatchRemote(t) == Some(d)
  {
    var host, last :| IsHost(host) && IsSegment(d.owner) && IsSegment(last) && StripGit(last) == d.repo
      && EndsWith(t, "//" + host + "/" + d.owner + "/" + last);
    var sep := "//" + host + "/";
    SegmentsAtEnd(t, sep, d.owner, last);
    HostAtEnd(t, host, d.owner, last);
    var b := |t| - |last|;
    var a := b - 1 - |d.owner|;
    MatchAt(t, a, b);
    TailPieces(t, sep, d.owner, last);
  }

  /** Behind `//`, the host is the run the host scan finds. */
  lemma HostAtEnd(t: string, host: string, owner: string, last: string)
    requires IsHost(host) && IsSegment(owner) && IsSegment(last)
    requires EndsWith(t, "//" + host + "/" + owner + "/" + last)
    ensures var a := |t| - |last| - 1 - |owner|; var h := a - 1 - |host|;
      && h >= 2 && HostStart(t, a - 1) == h && t[h - 2] == '/'
  {
    var sep := "//" + host + "/";
    TailIndices(t, sep, owner, last);
    var a := |t| - |last| - 1 - |owner|;
    var h := a - 1 - |host|;
    assert t[h - 2] == sep[0] && t[h - 1] == sep[1];
    forall k | h <= k < a - 1 ensures HostChar(t[k]) {
      assert t[a - |sep| + (k - h + 2)] == sep[k - h + 2] == host[k - h];
    }
    HostStartIs(t, a - 1, h);
  }

  /** The trimmed URL matches the pattern at its end with `d` as its groups exactly when `d` is parsed. */
  lemma ParsedIffMatched(url: string, d: RepoDetails)
    ensures ParseRemoteUrl(url) == Some(d) <==> SshMatch(Strings.Trim(url), d) || HostMatch(Strings.Trim(url), d)
  {
    var t := Strings.Trim(url);
    if MatchRemote(t) == Some(d) {
      MatchedIsPattern(t);
    }
    if SshMatch(t, d) {
      SshPatternIsMatched(t, d);
    }
    if HostMatch(t, d) {
      HostPatternIsMatched(t, d);
    }
  }

  /** `.git` is stripped once, and a name without it is kept. */
  lemma StripGitOnce(repo: string)
    ensures StripGit(repo + ".git") == repo
    ensures !EndsWith(repo, ".git") ==> StripGit(repo) == repo
  {
    var r := repo + ".git";
    assert r[|r| - 4..] == ".git" && r[..|r| - 4] == repo;
    if |repo| >= 4 && repo[|repo| - 4..] == ".git" {
      assert EndsWith(repo, ".git") by {
        forall k | 0 <= k < 4 ensures repo[|repo| - 4 + k] == ".git"[k] {
          assert repo[|repo| - 4..][k] == repo[|repo| - 4 + k];
        }
      }
    }
  }

  lemma EndsWithAppended(prefix: string, suffix: string)
    ensures EndsWith(prefix + suffix, suffix)
  {
  }

  /** A URL without surrounding whitespace. */
  predicate Untrimmed(url: string)
  {
    url == [] || (!Strings.IsJsWhitespace(url[0]) && !Strings.IsJsWhitespace(url[|url| - 1]))
  }

  /** `<anything>:owner/last`, as in `git@github.com-fjell:owner/repo.git`, is parsed to the owner and `last` less `.git`. */
  lemma SshUrlParsed(prefix: string, owner: string, last: string)
    requires IsSegment(owner) && IsSegment(last)
    requires Untrimmed(prefix + (":" + owner + "/" + last))
    ensures ParseRemoteUrl(prefix + (":" + owner + "/" + last)) == Some(RepoDetails(owner, StripGit(last)))
  {
    var url := prefix + (":" + owner + "/" + last);
    Strings.TrimmedAlready(url);
    EndsWithAppended(prefix, ":" + owner + "/" + last);
    SshPatternIsMatched(url, RepoDetails(owner, StripGit(last)));
  }

  /** `<anything>//host/owner/last`, as in `https://github.com/owner/repo.git`, is parsed likewise. */
  lemma HostUrlParsed(scheme: string, host: string, owner: string, last: string)
    requires IsHost(host) && IsSegment(owner) && IsSegment(last)
    requires Untrimmed(scheme + ("//" + host + "/" + owner + "/" + last))
    ensures ParseRemoteUrl(scheme + ("//" + host + "/" + owner + "/" + last)) == Some(RepoDetails(owner, StripGit(last)))
  {
    var url := scheme + ("//" + host + "/" + owner + "/" + last);
    Strings.TrimmedAlready(url);
    EndsWithAppended(scheme, "//" + host + "/" + owner + "/" + last);
    HostPatternIsMatched(url, RepoDetails(owner, StripGit(last)));
  }

  /** A URL that ends in `/` or `:` has no repository part and is rejected. */
  lemma TrailingSeparatorRejected(url: string)
    requires |Strings.Trim(url)| > 0 && !SegmentChar(Strings.Trim(url)[|Strings.Trim(url)| - 1])
    ensures ParseRemoteUrl(url) == None
  {
  }

  /** A host URL with a single path part, as in `https://github.com/repo`, is rejected. */
  lemma SinglePathPartRejected(scheme: string, host: string, last: string)
    requires IsSegment(host) && IsSegment(last)
    requires Untrimmed(scheme + ("//" + host + "/" + last))
    ensures ParseRemoteUrl(scheme + ("//" + host + "/" + last)) == None
  {
    var url := scheme + ("//" + host + "/" + last);
    Strings.TrimmedAlready(url);
    EndsWithAppended(scheme, "//" + host + "/" + last);
    SingleSegmentBehindSlashes(url, host, last);
  }

  /** `//host/last` at the end of `t`, with no `:` in the host, leaves no owner part. */
  lemma SingleSegmentBehindSlashes(t: string, host: string, last: string)
    requires IsSegment(host) && IsSegment(last)
    requires EndsWith(t, "//" + host + "/" + last)
    ensures MatchRemote(t) == None
  {
    TailIndices(t, "//", host, last);
    var b := |t| - |last|;
    var a := b - 1 - |host|;
    assert t[a - 1] == t[a - |"//"| + 1] == "//"[1] == '/';
    assert t[a - 2] == t[a - |"//"| + 0] == "//"[0] == '/';
    SegmentRunAt(t, b, |t|, last);
    SegmentRunAt(t, a, b - 1, host);
    HostStartIs(t, a - 1, a - 1);
    NoHostAt(t, a, b);
  }

  /** `MatchRemote` once the scans find the owner part behind a `/` with no host before it. */
  lemma NoHostAt(t: string, a: nat, b: nat)
    requires 0 < a < b - 1 && b < |t|
    requires SegmentStart(t, |t|) == b && t[b - 1] == '/' && SegmentStart(t, b - 1) == a
    requires t[a - 1] == '/' && HostStart(t, a - 1) == a - 1
    ensures MatchRemote(t) == None
  {
  }
}
