/** The `!gitcheck` command of `cogs/gitcheck.py`: for each configured
    repository it fetches the latest commit of the configured branch and the
    most recently committed side branch with its open pull request, and
    shows one field per repository. GitHub's answers are parameters; dates
    are the seconds `datetime.fromisoformat` would give, or `None` when the
    text does not parse. */
module GitCheck {
  import opened Wrappers
  import opened Text

  const EpochOwner := "Project-Epoch"

  /** The repositories the cog checks, as `owner/repo:branch`. */
  const DefaultRepos: seq<string> := [EpochOwner + "/TrinityCore" + ":" + "epoch-core", EpochOwner + "/tswow" + ":" + "epoch"]

  // ---------------------------------------------------------------------
  // Single-character search
  // ---------------------------------------------------------------------

  lemma CharOccurs(s: string, c: char, j: nat)
    requires j < |s|
    ensures OccursAt(s, [c], j) <==> s[j] == c
  {
    assert j + 1 <= |s| ==> s[j..j + 1] == [s[j]];
  }

  /** Searching for one character finds its first occurrence, or shows it is
      absent. */
  lemma FindChar(s: string, c: char)
    ensures Find(s, [c]).None? ==> Lacks(s, c)
    ensures Find(s, [c]).Some? ==> var i := Find(s, [c]).value;
      i < |s| && s[i] == c && Lacks(s[..i], c)
  {
    forall j | 0 <= j < |s| {
      CharOccurs(s, c, j);
    }
  }

  /** A character absent from a prefix is first found right after it. */
  lemma FindCharAfter(prefix: string, c: char, rest: string)
    requires Lacks(prefix, c)
    ensures Find(prefix + [c] + rest, [c]) == Some(|prefix|)
  {
    var s := prefix + [c] + rest;
    FindSkipsPrefix(s, [c], |prefix|);
    CharOccurs(s, c, |prefix|);
  }

  // ---------------------------------------------------------------------
  // Repository specs and commit summaries
  // ---------------------------------------------------------------------

  datatype RepoSpec = RepoSpec(path: string, branch: string)

  /** `repo.split(':', 1)` when the spec has a ':', else the branch `main`. */
  function ParseRepoSpec(repo: string): (r: RepoSpec)
    ensures Contains(repo, ":") ==> r.path + ":" + r.branch == repo && Lacks(r.path, ':')
    ensures !Contains(repo, ":") ==> r == RepoSpec(repo, "main")
  {
    FindChar(repo, ':');
    match Find(repo, ":")
    case None => RepoSpec(repo, "main")
    case Some(i) =>
      assert repo == repo[..i] + ":" + repo[i + 1..];
      RepoSpec(repo[..i], repo[i + 1..])
  }

  /** A path without ':' and any branch, joined by ':', parse back into
      themselves. */
  lemma {:induction false} RepoSpecRoundTrip(path: string, branch: string)
    requires Lacks(path, ':')
    ensures ParseRepoSpec(path + ":" + branch) == RepoSpec(path, branch)
  {
    var s := path + ":" + branch;
    FindCharAfter(path, ':', branch);
    assert s[..|path|] == path && s[|path| + 1..] == branch;
  }

  /** `sha[:7]`. */
  function ShortSha(sha: string): (r: string)
    ensures |r| == if |sha| < 7 then |sha| else 7
    ensures r == sha[..|r|]
  {
    if |sha| < 7 then sha else sha[..7]
  }

  /** `message.split('\n')[0]`: the text before the first line break. */
  function FirstLine(message: string): (r: string)
    ensures |r| <= |message| && r == message[..|r|] && Lacks(r, '\n')
    ensures |r| < |message| ==> message[|r|] == '\n'
  {
    SplitHead(message, "\n");
    FindChar(message, '\n');
    Split(message, "\n")[0]
  }

  /** A commit as GitHub lists it. */
  datatype RawCommit = RawCommit(sha: string, message: string, author: string, date: Option<int>, url: string)

  /** What `get_latest_commit` returns. */
  datatype CommitData = CommitData(sha: string, message: string, author: string, date: Option<int>,
                                   repo: string, path: string, branch: string)

  /** `get_latest_commit`: `None` when the request fails in any way or the
      branch has no commits; otherwise the first commit, summarised. */
  function LatestCommit(repo: string, response: Option<seq<RawCommit>>): (r: Option<CommitData>)
    ensures r.None? <==> response.None? || |response.value| == 0
    ensures r.Some? ==>
      var c := response.value[0];
      && r.value.sha == ShortSha(c.sha) && r.value.message == FirstLine(c.message)
      && r.value.author == c.author && r.value.date == c.date && r.value.repo == repo
      && RepoSpec(r.value.path, r.value.branch) == ParseRepoSpec(repo)
  {
    if response.None? || |response.value| == 0 then None
    else
      var c := response.value[0];
      var spec := ParseRepoSpec(repo);
      Some(CommitData(ShortSha(c.sha), FirstLine(c.message), c.author, c.date, repo, spec.path, spec.branch))
  }

  /** A commit message over 60 characters is cut to 57 and marked "...". */
  function Truncate(message: string): (r: string)
    ensures |message| <= 60 ==> r == message
    ensures |message| > 60 ==> |r| == 60 && r[..57] == message[..57] && r[57..] == "..."
  {
    if |message| > 60 then message[..57] + "..." else message
  }

  /** Truncating twice is truncating once: a cut message is exactly 60
      characters and is left alone. */
  lemma TruncateIdempotent(message: string)
    ensures Truncate(Truncate(message)) == Truncate(message)
    ensures |Truncate(message)| <= 60
  {
  }

  /** The field title: the path, with the branch in parentheses unless it is
      `main`. */
  function RepoDisplay(path: string, branch: string): (r: string)
    ensures r == path <==> branch == "main"
    ensures |path| <= |r| && r[..|path|] == path
  {
    if branch != "main" then path + " (" + branch + ")" else path
  }

  // ---------------------------------------------------------------------
  // Relative time
  // ---------------------------------------------------------------------

  datatype Ago = DaysAgo(days: nat) | HoursAgo(hours: nat) | MinutesAgo(minutes: nat) | JustNow | UnknownTime

  /** The branches of `format_time_ago` on a `timedelta` normalised to whole
      days and the seconds left over. */
  function Buckets(days: int, seconds: nat): Ago {
    var hours := seconds / 3600;
    var minutes := (seconds % 3600) / 60;
    if days > 0 then DaysAgo(days)
    else if hours > 0 then HoursAgo(hours)
    else if minutes > 0 then MinutesAgo(minutes)
    else JustNow
  }

  /** `format_time_ago` as written: `timedelta` floors the difference to
      days and keeps the seconds left over in [0, 86400), even when the
      commit lies in the future. */
  function TimeAgoAsWritten(commit: Option<int>, now: int): (r: Ago)
    ensures r.UnknownTime? <==> commit.None?
    ensures commit.Some? && now < commit.value ==> !r.DaysAgo?
  {
    match commit
    case None => UnknownTime
    case Some(t) => Buckets((now - t) / 86400, (now - t) % 86400)
  }

  /** A commit a few seconds in the future (the clocks of GitHub and the bot
      disagree by 30 seconds) reads as almost a day old. */
  lemma FutureCommitReadsAsHoursAgo()
    ensures TimeAgoAsWritten(Some(30), 0) == HoursAgo(23)
  {
    assert (0 - 30) / 86400 == -1 && (0 - 30) % 86400 == 86370;
  }

  /** `format_time_ago` with a commit in the future read as "Just now": the
      age in whole days, else hours, else minutes, each at least 1. */
  function TimeAgo(commit: Option<int>, now: int): (r: Ago)
    ensures r.UnknownTime? <==> commit.None?
    ensures commit.Some? ==>
      var d := if now >= commit.value then now - commit.value else 0;
      && (r.DaysAgo? <==> 86400 <= d)
      && (r.DaysAgo? ==> r.days * 86400 <= d < r.days * 86400 + 86400)
      && (r.HoursAgo? <==> 3600 <= d < 86400)
      && (r.HoursAgo? ==> r.hours * 3600 <= d < r.hours * 3600 + 3600)
      && (r.MinutesAgo? <==> 60 <= d < 3600)
      && (r.MinutesAgo? ==> r.minutes * 60 <= d < r.minutes * 60 + 60)
      && (r.JustNow? <==> d < 60)
  {
    match commit
    case None => UnknownTime
    case Some(t) =>
      var d := if now >= t then now - t else 0;
      Buckets(d / 86400, d % 86400)
  }

  /** For commits in the past the two readings agree. */
  lemma TimeAgoAgreesOnPast(t: int, now: int)
    requires t <= now
    ensures TimeAgo(Some(t), now) == TimeAgoAsWritten(Some(t), now)
  {
  }

  /** The wording of an age: the singular only for a count of exactly one,
      any other count written out in decimal before the plural. */
  function AgoText(a: Ago): (r: string)
    ensures r == "1 day ago" <==> a == DaysAgo(1)
    ensures r == "1 hour ago" <==> a == HoursAgo(1)
    ensures r == "1 minute ago" <==> a == MinutesAgo(1)
    ensures a.DaysAgo? && a.days != 1 ==> |r| > 9 && r[|r| - 9..] == " days ago" && r[..|r| - 9] == NatToDecimal(a.days)
    ensures a.HoursAgo? && a.hours != 1 ==> |r| > 10 && r[|r| - 10..] == " hours ago" && r[..|r| - 10] == NatToDecimal(a.hours)
    ensures a.MinutesAgo? && a.minutes != 1 ==> |r| > 12 && r[|r| - 12..] == " minutes ago" && r[..|r| - 12] == NatToDecimal(a.minutes)
  {
    match a
    case DaysAgo(n) => if n == 1 then "1 day ago" else Counted(n, " days ago")
    case HoursAgo(n) => if n == 1 then "1 hour ago" else Counted(n, " hours ago")
    case MinutesAgo(n) => if n == 1 then "1 minute ago" else Counted(n, " minutes ago")
    case JustNow => "Just now"
    case UnknownTime => "Unknown time"
  }

  /** A plural age reads back as its count. */
  lemma AgoTextReadsBack(a: Ago)
    ensures a.DaysAgo? && a.days != 1 ==> ParseInt(AgoText(a)[..|AgoText(a)| - 9]) == Some(a.days)
    ensures a.HoursAgo? && a.hours != 1 ==> ParseInt(AgoText(a)[..|AgoText(a)| - 10]) == Some(a.hours)
    ensures a.MinutesAgo? && a.minutes != 1 ==> ParseInt(AgoText(a)[..|AgoText(a)| - 12]) == Some(a.minutes)
  {
    match a
    case DaysAgo(n) => DecimalParses(n);
    case HoursAgo(n) => DecimalParses(n);
    case MinutesAgo(n) => DecimalParses(n);
    case JustNow =>
    case UnknownTime =>
  }

  // ---------------------------------------------------------------------
  // Most recent side branch
  // ---------------------------------------------------------------------

  /** A branch of the listing with the answer to its commit request: no
      status when the request itself failed, and the commit's date and
      author when the status is 200. */
  datatype BranchCommit = BranchCommit(name: string, status: Option<nat>, date: Option<int>, author: string)

  predicate IsMainline(name: string) {
    name == "main" || name == "master"
  }

  /** A side branch whose commit request raised, or whose commit date does not
      parse: the whole lookup ends in the `except`. */
  predicate Raises(b: BranchCommit) {
    !IsMainline(b.name) && (b.status.None? || (b.status == Some(200) && b.date.None?))
  }

  /** A side branch whose commit was read. */
  predicate Considered(b: BranchCommit) {
    !IsMainline(b.name) && b.status == Some(200) && b.date.Some?
  }

  datatype Selection = Aborted | Chosen(index: Option<nat>)

  /** The branch loop over a prefix of the listing: the first branch with the
      latest date among those considered, or `Aborted` once one raises. */
  function Select(bs: seq<BranchCommit>): (r: Selection)
    ensures r.Chosen? && r.index.Some? ==> r.index.value < |bs| && Considered(bs[r.index.value])
  {
    if bs == [] then Chosen(None)
    else
      var n := |bs| - 1;
      var prev := Select(bs[..n]);
      if prev.Aborted? || Raises(bs[n]) then Aborted
      else if !Considered(bs[n]) then prev
      else match prev.index
        case None => Chosen(Some(n))
        case Some(k) => if bs[n].date.value > bs[k].date.value then Chosen(Some(n)) else prev
  }

  /** The loop aborts exactly when some side branch raises; otherwise it
      picks a considered branch with the latest date, the earliest listed
      among equals, and picks none only when no branch is considered. */
  lemma {:induction false} SelectSpec(bs: seq<BranchCommit>)
    ensures Select(bs).Aborted? <==> exists j :: 0 <= j < |bs| && Raises(bs[j])
    ensures Select(bs) == Chosen(None) <==>
      (forall j :: 0 <= j < |bs| ==> !Raises(bs[j])) && (forall j :: 0 <= j < |bs| ==> !Considered(bs[j]))
    ensures Select(bs).Chosen? && Select(bs).index.Some? ==> var k := Select(bs).index.value;
      && (forall j :: 0 <= j < |bs| && Considered(bs[j]) ==> bs[j].date.value <= bs[k].date.value)
      && (forall j :: 0 <= j < k && Considered(bs[j]) ==> bs[j].date.value < bs[k].date.value)
  {
    if bs != [] {
      var n := |bs| - 1;
      var pre := bs[..n];
      SelectSpec(pre);
      assert forall j :: 0 <= j < n ==> pre[j] == bs[j];
      var prev := Select(pre);
      if !prev.Aborted? && !Raises(bs[n]) && Considered(bs[n]) && prev.index.Some? {
        var k := prev.index.value;
        assert forall j :: 0 <= j < n && Considered(bs[j]) ==> bs[j].date.value <= bs[k].date.value;
        if bs[n].date.value > bs[k].date.value {
          assert Select(bs) == Chosen(Some(n));
        } else {
          assert Select(bs) == Chosen(Some(k));
        }
      }
    }
  }

  /** The loop of `get_latest_branch_and_pr`: `None` when it raised or found
      no side branch, else the index of the chosen branch. */
  method MostRecentBranch(bs: seq<BranchCommit>) returns (r: Option<nat>)
    ensures r == match Select(bs) case Aborted => None case Chosen(i) => i
  {
    var best: Option<nat> := None;
    var bestDate := 0;
    for i := 0 to |bs|
      invariant Select(bs[..i]) == Chosen(best)
      invariant best.Some? ==> bestDate == bs[best.value].date.value
    {
      assert bs[..i + 1][..i] == bs[..i];
      var b := bs[i];
      if !IsMainline(b.name) {
        if b.status.None? || (b.status == Some(200) && b.date.None?) {
          AbortSticks(bs, i + 1);
          return None;
        }
        if b.status == Some(200) {
          var date := b.date.value;
          if best.None? || date > bestDate {
            best := Some(i);
            bestDate := date;
          }
        }
      }
    }
    assert bs[..|bs|] == bs;
    r := best;
  }

  /** Once a prefix aborts, the whole loop does. */
  lemma {:induction false} AbortSticks(bs: seq<BranchCommit>, i: nat)
    requires i <= |bs| && Select(bs[..i]).Aborted?
    ensures Select(bs).Aborted?
  {
    if i < |bs| {
      var n := |bs| - 1;
      assert bs[..n][..i] == bs[..i];
      AbortSticks(bs[..n], i);
    } else {
      assert bs[..i] == bs;
    }
  }

  /** The `head` filter of the pull-request query: the owner (the path up to
      its first '/') and the branch. */
  function PrHead(path: string, branch: string): (r: string)
    ensures |r| > |branch| && r[|r| - |branch| - 1] == ':' && r[|r| - |branch|..] == branch
  {
    Split(path, "/")[0] + ":" + branch
  }

  /** For a path `owner/repo` the head is `owner:branch`. */
  lemma PrHeadSpec(owner: string, repo: string, branch: string)
    requires Lacks(owner, '/')
    ensures PrHead(owner + "/" + repo, branch) == owner + ":" + branch
  {
    var s := owner + "/" + repo;
    SplitHead(s, "/");
    FindCharAfter(owner, '/', repo);
    assert s[..|owner|] == owner;
  }

  datatype Pr = Pr(number: nat, title: string, url: string)

  /** The answer to the pull-request query. */
  datatype PrReply = PrTransportError | PrReply(status: nat, prs: seq<Pr>)

  datatype BranchInfo = BranchInfo(name: string, date: int, author: string, pr: Option<Pr>)

  /** `get_latest_branch_and_pr`: `None` when the listing fails or is empty,
      when a branch request raises, when no side branch was read, or when
      the pull-request request raises; otherwise the chosen branch with the
      first open pull request from `owner:branch`, if the query answered
      200. */
  method LatestBranchAndPr(path: string, listing: Option<seq<BranchCommit>>, prs: string -> PrReply)
    returns (r: Option<BranchInfo>)
    ensures r.Some? <==>
      && listing.Some? && Select(listing.value).Chosen? && Select(listing.value).index.Some?
      && !prs(PrHead(path, listing.value[Select(listing.value).index.value].name)).PrTransportError?
    ensures r.Some? ==>
      var b := listing.value[Select(listing.value).index.value];
      var reply := prs(PrHead(path, b.name));
      && r.value.name == b.name && r.value.date == b.date.value && r.value.author == b.author
      && (r.value.pr.Some? <==> reply.status == 200 && |reply.prs| > 0)
      && (r.value.pr.Some? ==> r.value.pr.value == reply.prs[0])
  {
    if listing.None? || |listing.value| == 0 {
      return None;
    }
    var k := MostRecentBranch(listing.value);
    if k.None? {
      return None;
    }
    var b := listing.value[k.value];
    var reply := prs(PrHead(path, b.name));
    if reply.PrTransportError? {
      return None;
    }
    var pr: Option<Pr> := None;
    if reply.status == 200 && |reply.prs| > 0 {
      pr := Some(reply.prs[0]);
    }
    r := Some(BranchInfo(b.name, b.date.value, b.author, pr));
  }

  // ---------------------------------------------------------------------
  // The command
  // ---------------------------------------------------------------------

  /** The "Latest Work" line; `appreciation` is whether a cheer for the
      author is added. */
  datatype WorkLine = WorkLine(branch: string, pr: Option<Pr>, when: Ago, appreciation: bool)

  /** One field of the reply. */
  datatype RepoEntry =
    | FetchError(repo: string)
    | CommitEntry(display: string, sha: string, message: string, author: string, when: Ago, work: Option<WorkLine>)

  /** The field for one repository. Both ages are the corrected reading;
      `EntryAgesAsWritten` shows they are what the command prints for
      commits that are not dated in the future. */
  function Entry(repo: string, commit: Option<CommitData>, branch: Option<BranchInfo>, now: int): (e: RepoEntry)
    ensures e.FetchError? <==> commit.None?
    ensures e.FetchError? ==> e.repo == repo
    ensures e.CommitEntry? ==>
      && e.display == RepoDisplay(commit.value.path, commit.value.branch)
      && e.sha == commit.value.sha && e.author == commit.value.author
      && e.message == Truncate(commit.value.message) && |e.message| <= 60
      && e.when == TimeAgo(commit.value.date, now)
      && (e.work.Some? <==> branch.Some?)
      && (e.work.Some? ==> e.work.value.branch == branch.value.name && e.work.value.pr == branch.value.pr)
      && (e.work.Some? ==> e.work.value.when == TimeAgo(Some(branch.value.date), now))
      && (e.work.Some? ==> (e.work.value.appreciation <==> now - branch.value.date < 3600))
  {
    match commit
    case None => FetchError(repo)
    case Some(c) =>
      TruncateIdempotent(c.message);
      var work := match branch
        case None => None
        case Some(b) => Some(WorkLine(b.name, b.pr, TimeAgo(Some(b.date), now), now - b.date < 3600));
      CommitEntry(RepoDisplay(c.path, c.branch), c.sha, Truncate(c.message), c.author, TimeAgo(c.date, now), work)
  }

  /** For commits that are not dated in the future, the ages a field shows are
      the ones `format_time_ago` as written prints. */
  lemma EntryAgesAsWritten(repo: string, commit: Option<CommitData>, branch: Option<BranchInfo>, now: int)
    requires commit.Some? && commit.value.date.Some? ==> commit.value.date.value <= now
    requires branch.Some? ==> branch.value.date <= now
    ensures var e := Entry(repo, commit, branch, now);
      && (e.CommitEntry? ==> e.when == TimeAgoAsWritten(commit.value.date, now))
      && (e.CommitEntry? && e.work.Some? ==> e.work.value.when == TimeAgoAsWritten(Some(branch.value.date), now))
  {
    if commit.Some? && commit.value.date.Some? {
      TimeAgoAgreesOnPast(commit.value.date.value, now);
    }
    if branch.Some? {
      TimeAgoAgreesOnPast(branch.value.date, now);
    }
  }

  /** The "Latest Work" line agrees with the branch lookup on the repository's
      path: present exactly when a side branch was chosen and the pull-request
      query did not raise, and then showing that branch, its age, the cheer
      for a commit under an hour old, and the first open pull request. */
  predicate ShowsWork(w: Option<WorkLine>, path: string, listing: Option<seq<BranchCommit>>, prs: string -> PrReply, now: int) {
    && (w.Some? <==>
          && listing.Some? && Select(listing.value).Chosen? && Select(listing.value).index.Some?
          && !prs(PrHead(path, listing.value[Select(listing.value).index.value].name)).PrTransportError?)
    && (w.Some? ==>
          var b := listing.value[Select(listing.value).index.value];
          var reply := prs(PrHead(path, b.name));
          && w.value.branch == b.name
          && w.value.when == TimeAgo(b.date, now)
          && (w.value.appreciation <==> now - b.date.value < 3600)
          && (w.value.pr.Some? <==> reply.status == 200 && |reply.prs| > 0)
          && (w.value.pr.Some? ==> w.value.pr.value == reply.prs[0]))
  }

  /** The field shown for a repository agrees with what its requests
      returned: an error field exactly when no commit was fetched, else the
      display name, short SHA, shortened message, author and age of that
      commit, and the work line of the lookup on its path. */
  predicate ShowsCommit(e: RepoEntry, repo: string, response: Option<seq<RawCommit>>,
                        listings: string -> Option<seq<BranchCommit>>, prs: string -> PrReply, now: int) {
    && (e.FetchError? <==> LatestCommit(repo, response).None?)
    && (e.CommitEntry? ==>
          var c := LatestCommit(repo, response).value;
          && e.display == RepoDisplay(c.path, c.branch)
          && e.sha == c.sha && e.author == c.author
          && e.message == Truncate(c.message)
          && e.when == TimeAgo(c.date, now)
          && ShowsWork(e.work, c.path, listings(c.path), prs, now))
  }

  /** The two configured repositories parse into their paths and branches. */
  lemma DefaultReposSpecs()
    ensures ParseRepoSpec(DefaultRepos[0]) == RepoSpec(EpochOwner + "/TrinityCore", "epoch-core")
    ensures ParseRepoSpec(DefaultRepos[1]) == RepoSpec(EpochOwner + "/tswow", "epoch")
  {
    assert Lacks("/TrinityCore", ':') && Lacks("/tswow", ':');
    OwnedRepoSpec("/TrinityCore", "epoch-core");
    OwnedRepoSpec("/tswow", "epoch");
  }

  lemma OwnedRepoSpec(repo: string, branch: string)
    requires Lacks(repo, ':')
    ensures ParseRepoSpec(EpochOwner + repo + ":" + branch) == RepoSpec(EpochOwner + repo, branch)
  {
    assert Lacks(EpochOwner, ':');
    LacksConcat(EpochOwner, repo, ':');
    RepoSpecRoundTrip(EpochOwner + repo, branch);
  }

  /** `gitcheck_command`: one field per configured repository, in order; the
      branch lookup runs only for a repository whose commit was fetched, on
      that repository's path. */
  method GitcheckCommand(commits: string -> Option<seq<RawCommit>>,
                         listings: string -> Option<seq<BranchCommit>>, prs: string -> PrReply, now: int)
    returns (entries: seq<RepoEntry>)
    ensures |entries| == |DefaultRepos|
    ensures forall i :: 0 <= i < |DefaultRepos| ==>
      ShowsCommit(entries[i], DefaultRepos[i], commits(DefaultRepos[i]), listings, prs, now)
  {
    var repos := DefaultRepos;
    entries := [];
    for i := 0 to |repos|
      invariant |entries| == i
      invariant forall j :: 0 <= j < i ==> ShowsCommit(entries[j], repos[j], commits(repos[j]), listings, prs, now)
    {
      var commit := LatestCommit(repos[i], commits(repos[i]));
      var branch: Option<BranchInfo> := None;
      if commit.Some? {
        branch := LatestBranchAndPr(commit.value.path, listings(commit.value.path), prs);
      }
      entries := entries + [Entry(repos[i], commit, branch, now)];
    }
  }
}
