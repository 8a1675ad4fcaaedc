/**
 * The failed-check filter and the projection in `run` (index.js): from the check
 * runs of one pull request's head commit, keep those that failed and completed
 * after `since`, and turn each into a record that carries, besides copied
 * fields, the workflow-run id and job id read out of its `details_url`.
 */
module FailedChecks {
  import opened Wrappers
  import Seqs
  import JsString
  import Timestamps

  /** A check run as `checks.listForRef` reports it: only the fields the filter and the projection read. */
  datatype CheckRun = CheckRun(
    name: string,
    conclusion: string,
    completedAt: string,
    detailsUrl: Option<string>,  // the API may report `null`
    pullRequests: seq<nat>)      // numbers of the associated pull requests, in the API's order

  /** The record built for each kept check (its `time_since` field is not modelled). */
  datatype FailedCheck = FailedCheck(
    pr: Option<nat>,
    name: string,
    detailsUrl: string,
    completedAt: string,
    conclusion: string,
    runId: Option<string>,
    jobId: Option<string>)

  /** Calling `split` on a `null` details URL throws a TypeError, which rejects the pull request's chain. */
  datatype ProjectError = DetailsUrlIsNull

  /** `details_url` of a GitHub Actions job reads `https://github.com/<owner>/<repo>/actions/runs/<run>/job/<job>`. */
  const RunIdSegment: nat := 7
  const JobIdSegment: nat := 9

  predicate IsFailure(c: CheckRun)
  {
    c.conclusion == "failure"
  }

  /** `check.completed_at > since`, a comparison of strings. */
  predicate CompletedAfter(c: CheckRun, since: string)
  {
    JsString.Less(since, c.completedAt)
  }

  /** The two filters of the chain, in the source's order: conclusion first, then completion time. */
  function FilterFailed(checks: seq<CheckRun>, since: string): (kept: seq<CheckRun>)
    ensures |kept| <= |checks|
    ensures forall i :: 0 <= i < |kept| ==> kept[i].conclusion == "failure" && JsString.Less(since, kept[i].completedAt)
  {
    Seqs.Filter(Seqs.Filter(checks, IsFailure), c => CompletedAfter(c, since))
  }

  /** A check is kept exactly when it failed and completed strictly after `since`. */
  lemma FilterFailedKeepsExactly(checks: seq<CheckRun>, since: string, c: CheckRun)
    ensures c in FilterFailed(checks, since) <==> c in checks && c.conclusion == "failure" && JsString.Less(since, c.completedAt)
  {
    Seqs.FilterFilter(checks, IsFailure, c => CompletedAfter(c, since), c => IsFailure(c) && CompletedAfter(c, since));
    Seqs.FilterMembership(checks, c => IsFailure(c) && CompletedAfter(c, since), c);
  }

  /** Nothing is merged or duplicated: a kept check appears as often as it does in the input. */
  lemma FilterFailedMultiplicity(checks: seq<CheckRun>, since: string, c: CheckRun)
    ensures multiset(FilterFailed(checks, since))[c]
         == if c.conclusion == "failure" && JsString.Less(since, c.completedAt) then multiset(checks)[c] else 0
  {
    Seqs.FilterFilter(checks, IsFailure, c => CompletedAfter(c, since), c => IsFailure(c) && CompletedAfter(c, since));
    Seqs.FilterMultiplicity(checks, c => IsFailure(c) && CompletedAfter(c, since), c);
  }

  /** The kept checks are the input with some checks deleted, in their original order. */
  lemma FilterFailedIsSubsequence(checks: seq<CheckRun>, since: string)
    ensures Seqs.IsSubsequence(FilterFailed(checks, since), checks)
  {
    Seqs.FilterIsSubsequence(checks, c => IsFailure(c) && CompletedAfter(c, since));
    Seqs.FilterFilter(checks, IsFailure, c => CompletedAfter(c, since), c => IsFailure(c) && CompletedAfter(c, since));
  }

  /** When every check failed after `since`, the filter keeps them all, in order. */
  lemma FilterFailedKeepsAllQualifying(checks: seq<CheckRun>, since: string)
    requires forall i :: 0 <= i < |checks| ==> checks[i].conclusion == "failure" && JsString.Less(since, checks[i].completedAt)
    ensures FilterFailed(checks, since) == checks
  {
    Seqs.FilterKeepsAll(checks, IsFailure);
    Seqs.FilterKeepsAll(checks, c => CompletedAfter(c, since));
  }

  /** The bound is strict: a check that completed exactly at `since` is dropped. */
  lemma FilterFailedExcludesBound(checks: seq<CheckRun>, since: string, c: CheckRun)
    requires c.completedAt == since
    ensures c !in FilterFailed(checks, since)
  {
    JsString.LessIrreflexive(since);
  }

  /**
   * For `since` as `toISOString` writes it and `completed_at` as GitHub writes it,
   * the string filter keeps a failed check exactly when it completed in the
   * second of `since` or a later one; milliseconds play no part.
   */
  lemma FilterFailedByValue(checks: seq<CheckRun>, since: string, c: CheckRun)
    requires Timestamps.Shape(since) == Timestamps.IsoLayout
    requires Timestamps.Shape(c.completedAt) == Timestamps.GitHubLayout
    ensures c in FilterFailed(checks, since)
        <==> c in checks && c.conclusion == "failure"
             && Timestamps.WholeSeconds(since) <= Timestamps.WholeSeconds(c.completedAt)
  {
    FilterFailedKeepsExactly(checks, since, c);
    Timestamps.IsoBeforeGitHub(since, c.completedAt);
  }

  /** A check that completed half a second before `since`, within the same second, is kept. */
  lemma SubSecondEarlierCheckKept(c: CheckRun)
    requires c.conclusion == "failure" && c.completedAt == "2024-05-01T12:00:00Z"
    ensures FilterFailed([c], "2024-05-01T12:00:00.500Z") == [c]
  {
    var since := "2024-05-01T12:00:00.500Z";
    JsString.LessSplitAt(since, c.completedAt, Timestamps.SecondsLength);
    assert since[..Timestamps.SecondsLength] == c.completedAt[..Timestamps.SecondsLength];
    assert since[Timestamps.SecondsLength..] == ".500Z" && c.completedAt[Timestamps.SecondsLength..] == "Z";
    FilterFailedKeepsAllQualifying([c], since);
  }

  /** `check.pull_requests[0].number`, `undefined` when the list is empty. */
  function FirstPullRequest(prs: seq<nat>): (pr: Option<nat>)
    ensures pr.Some? <==> |prs| > 0
    ensures pr.Some? ==> pr.value == prs[0]
  {
    if |prs| == 0 then None else Some(prs[0])
  }

  /** `details_url.split("/")[7]`. */
  function RunIdOf(url: string): (runId: Option<string>)
    ensures runId.Some? <==> multiset(url)['/'] >= RunIdSegment
    ensures runId.Some? ==> '/' !in runId.value
  {
    JsString.Segment(url, '/', RunIdSegment)
  }

  /** `details_url.split("/")[9]`. */
  function JobIdOf(url: string): (jobId: Option<string>)
    ensures jobId.Some? <==> multiset(url)['/'] >= JobIdSegment
    ensures jobId.Some? ==> '/' !in jobId.value
  {
    JsString.Segment(url, '/', JobIdSegment)
  }

  /** A job URL of GitHub Actions, assembled from its parts. */
  function ActionsJobUrl(owner: string, repo: string, runId: string, jobId: string): string
  {
    "https://github.com/" + owner + "/" + repo + "/actions/runs/" + runId + "/job/" + jobId
  }

  /** The pieces of a job URL between its slashes. */
  function ActionsJobUrlPieces(owner: string, repo: string, runId: string, jobId: string): seq<string>
  {
    ["https:", "", "github.com", owner, repo, "actions", "runs", runId, "job", jobId]
  }

  lemma ActionsJobUrlIsJoin(owner: string, repo: string, runId: string, jobId: string)
    ensures JsString.Join(ActionsJobUrlPieces(owner, repo, runId, jobId), '/') == ActionsJobUrl(owner, repo, runId, jobId)
  {
    JoinNestedPieces(owner, repo, runId, jobId);
    ActionsJobUrlNested(owner, repo, runId, jobId);
  }

  lemma JoinNestedPieces(owner: string, repo: string, runId: string, jobId: string)
    ensures JsString.Join(ActionsJobUrlPieces(owner, repo, runId, jobId), '/')
         == "https:" + "/" + ("" + "/" + ("github.com" + "/" + (owner + "/" + (repo + "/" + ("actions" + "/"
            + ("runs" + "/" + (runId + "/" + ("job" + "/" + jobId))))))))
  {
    var p9 := [jobId];
    var p8 := ["job"] + p9;
    var p7 := [runId] + p8;
    var p6 := ["runs"] + p7;
    var p5 := ["actions"] + p6;
    var p4 := [repo] + p5;
    var p3 := [owner] + p4;
    var p2 := ["github.com"] + p3;
    var p1 := [""] + p2;
    JsString.JoinCons("job", p9, '/');
    JsString.JoinCons(runId, p8, '/');
    JsString.JoinCons("runs", p7, '/');
    JsString.JoinCons("actions", p6, '/');
    JsString.JoinCons(repo, p5, '/');
    JsString.JoinCons(owner, p4, '/');
    JsString.JoinCons("github.com", p3, '/');
    JsString.JoinCons("", p2, '/');
    JsString.JoinCons("https:", p1, '/');
    ActionsJobUrlPiecesNested(owner, repo, runId, jobId);
  }

  lemma ActionsJobUrlNested(owner: string, repo: string, runId: string, jobId: string)
    ensures ActionsJobUrl(owner, repo, runId, jobId)
         == "https:" + "/" + ("" + "/" + ("github.com" + "/" + (owner + "/" + (repo + "/" + ("actions" + "/"
            + ("runs" + "/" + (runId + "/" + ("job" + "/" + jobId))))))))
  {
  }

  lemma ActionsJobUrlPiecesNested(owner: string, repo: string, runId: string, jobId: string)
    ensures ActionsJobUrlPieces(owner, repo, runId, jobId)
         == ["https:"] + ([""] + (["github.com"] + ([owner] + ([repo] + (["actions"] + (["runs"] + ([runId] + (["job"] + [jobId]))))))))
  {
  }

  lemma ActionsJobUrlPiecesHaveNoSlash(owner: string, repo: string, runId: string, jobId: string)
    requires '/' !in owner && '/' !in repo && '/' !in runId && '/' !in jobId
    ensures forall p :: p in ActionsJobUrlPieces(owner, repo, runId, jobId) ==> '/' !in p
  {
    var pieces := ActionsJobUrlPieces(owner, repo, runId, jobId);
    forall p | p in pieces ensures '/' !in p {
      var i :| 0 <= i < |pieces| && pieces[i] == p;
      if i == 0 { assert p == "https:"; }
      else if i == 2 { assert p == "github.com"; }
      else if i == 5 { assert p == "actions"; }
      else if i == 6 { assert p == "runs"; }
      else if i == 8 { assert p == "job"; }
    }
  }

  /** Reading segments 7 and 9 of a GitHub Actions job URL recovers its run id and job id. */
  lemma ActionsJobUrlIds(owner: string, repo: string, runId: string, jobId: string)
    requires '/' !in owner && '/' !in repo && '/' !in runId && '/' !in jobId
    ensures RunIdOf(ActionsJobUrl(owner, repo, runId, jobId)) == Some(runId)
    ensures JobIdOf(ActionsJobUrl(owner, repo, runId, jobId)) == Some(jobId)
  {
    var pieces := ActionsJobUrlPieces(owner, repo, runId, jobId);
    ActionsJobUrlIsJoin(owner, repo, runId, jobId);
    ActionsJobUrlPiecesHaveNoSlash(owner, repo, runId, jobId);
    JsString.SegmentOfJoin(pieces, '/', RunIdSegment);
    JsString.SegmentOfJoin(pieces, '/', JobIdSegment);
  }

  /** Two jobs of one workflow run have different details URLs that carry the same run id. */
  lemma JobsOfOneRunShareRunId(owner: string, repo: string, runId: string, job1: string, job2: string)
    requires '/' !in owner && '/' !in repo && '/' !in runId && '/' !in job1 && '/' !in job2
    requires job1 != job2
    ensures ActionsJobUrl(owner, repo, runId, job1) != ActionsJobUrl(owner, repo, runId, job2)
    ensures RunIdOf(ActionsJobUrl(owner, repo, runId, job1)) == RunIdOf(ActionsJobUrl(owner, repo, runId, job2)) == Some(runId)
  {
    ActionsJobUrlIds(owner, repo, runId, job1);
    ActionsJobUrlIds(owner, repo, runId, job2);
  }

  /** The example of a details URL: run `123`, job `456`. */
  lemma ExampleUrlIds()
    ensures RunIdOf("https://github.com/o/r/actions/runs/123/job/456") == Some("123")
    ensures JobIdOf("https://github.com/o/r/actions/runs/123/job/456") == Some("456")
  {
    ExampleUrlSpelled();
    ActionsJobUrlIds("o", "r", "123", "456");
  }

  lemma ExampleUrlSpelled()
    ensures ActionsJobUrl("o", "r", "123", "456") == "https://github.com/o/r/actions/runs/123/job/456"
  {
  }

  /** A URL with fewer than seven slashes has no run id and no job id; reading them is not an error. */
  lemma ShortUrlHasNoIds(url: string)
    requires multiset(url)['/'] < RunIdSegment
    ensures RunIdOf(url) == None && JobIdOf(url) == None
  {
  }

  /** `f` is the record the projection builds from `c`. */
  ghost predicate ProjectedFrom(c: CheckRun, f: FailedCheck)
  {
    && c.detailsUrl == Some(f.detailsUrl)
    && f.name == c.name
    && f.completedAt == c.completedAt
    && f.conclusion == c.conclusion
    && f.pr == FirstPullRequest(c.pullRequests)
    && f.runId == RunIdOf(f.detailsUrl)
    && f.jobId == JobIdOf(f.detailsUrl)
  }

  /** The `.map(...)` of the chain: one record per kept check, or the TypeError of the first `null` URL. */
  function Project(checks: seq<CheckRun>): (r: Result<seq<FailedCheck>, ProjectError>)
    ensures r.Success? <==> forall i :: 0 <= i < |checks| ==> checks[i].detailsUrl.Some?
    ensures r.Success? ==> |r.value| == |checks|
    ensures r.Success? ==> forall i :: 0 <= i < |checks| ==> ProjectedFrom(checks[i], r.value[i])
  {
    if checks == [] then Success([])
    else
      var c := checks[0];
      match c.detailsUrl
      case None => Failure(DetailsUrlIsNull)
      case Some(url) =>
        var f := FailedCheck(FirstPullRequest(c.pullRequests), c.name, url, c.completedAt, c.conclusion,
                             RunIdOf(url), JobIdOf(url));
        match Project(checks[1..])
        case Failure(e) => Failure(e)
        case Success(rest) => Success([f] + rest)
  }
}
