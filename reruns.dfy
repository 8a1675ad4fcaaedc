/**
 * The fan-out at the end of one pull request's chain in `run` (index.js): every
 * projected failed check leads to one `getWorkflowRun` request with its run id,
 * the responses are flattened with `[].concat(...)`, and every run obtained
 * leads to one `reRunWorkflowFailedJobs` request. Nothing is deduplicated: two
 * failed jobs of one workflow run give two rerun requests for that run.
 *
 * The two requests are network calls; they enter as parameters, and each is
 * answered per request: `getRun(i, runId)` is the response to the `i`-th lookup
 * of the chain (`None`: the request was rejected), and `rerunAccepted(i, id)`
 * tells whether the `i`-th rerun request, made for run `id`, was fulfilled. So
 * two requests for the same run may be answered differently. A rejection
 * anywhere rejects `Promise.all`, which ends the chain before its next step: no
 * later request is made and nothing is reported.
 */
module Reruns {
  import opened Wrappers
  import Seqs
  import opened FailedChecks

  /** The response of `getWorkflowRun`: only its `id`, which the rerun request uses, is modelled. */
  datatype WorkflowRun = WorkflowRun(id: nat)

  /**
   * What the chain reports through `setOutput`: one entry per fulfilled rerun
   * request, in order, and their count. An entry stands for the response by the
   * run id the request was made for; the response body is not modelled.
   */
  datatype Report = Report(rerunJobs: seq<nat>, rerunJobsCount: nat)

  /** What one pull request's chain does: the run ids it looks up, the run ids it asks to rerun, and its report, if any. */
  datatype PrChain = PrChain(lookups: seq<Option<string>>, reruns: seq<nat>, output: Option<Report>)

  /** `Promise.all` over promises once each has settled: every value, in order, or a rejection when any was rejected. */
  function PromiseAll<T>(settled: seq<Option<T>>): (all: Option<seq<T>>)
    ensures all.Some? <==> forall i :: 0 <= i < |settled| ==> settled[i].Some?
    ensures all.Some? ==> |all.value| == |settled|
    ensures all.Some? ==> forall i :: 0 <= i < |settled| ==> all.value[i] == settled[i].value
  {
    if settled == [] then Some([])
    else
      match settled[0]
      case None => None
      case Some(v) =>
        match PromiseAll(settled[1..])
        case None => None
        case Some(rest) => Some([v] + rest)
  }

  /** `Promise.all(failedChecks.map(check => getWorkflowRun(check.run_id)))`: every run, in order, or a rejection. */
  function ResolveRuns(failed: seq<FailedCheck>, getRun: (nat, Option<string>) -> Option<WorkflowRun>): (runs: Option<seq<WorkflowRun>>)
    ensures runs.Some? <==> forall i :: 0 <= i < |failed| ==> getRun(i, failed[i].runId).Some?
    ensures runs.Some? ==> |runs.value| == |failed|
    ensures runs.Some? ==> forall i :: 0 <= i < |failed| ==> runs.value[i] == getRun(i, failed[i].runId).value
  {
    var settled := seq(|failed|, i requires 0 <= i < |failed| => getRun(i, failed[i].runId));
    assert forall i :: 0 <= i < |failed| ==> settled[i] == getRun(i, failed[i].runId);
    PromiseAll(settled)
  }

  /** `runDetails.map(run => reRunWorkflowFailedJobs(run.run_id))`: the run id of each rerun request, in order. */
  function RerunRequests(runs: seq<WorkflowRun>): (ids: seq<nat>)
    ensures |ids| == |runs|
    ensures forall i :: 0 <= i < |runs| ==> ids[i] == runs[i].id
  {
    seq(|runs|, i requires 0 <= i < |runs| => runs[i].id)
  }

  /** The chain for one pull request, from the check runs of its head commit to its report. */
  function ReconcilePullRequest(
    checks: seq<CheckRun>, since: string,
    getRun: (nat, Option<string>) -> Option<WorkflowRun>, rerunAccepted: (nat, nat) -> bool): (chain: PrChain)
    ensures chain.output.Some? ==> chain.output.value.rerunJobs == chain.reruns
    ensures chain.output.Some? ==> forall i :: 0 <= i < |chain.reruns| ==> rerunAccepted(i, chain.reruns[i])
    ensures chain.output.Some? ==> chain.output.value.rerunJobsCount == |FilterFailed(checks, since)|
    ensures chain.reruns == [] || |chain.reruns| == |FilterFailed(checks, since)|
    ensures chain.lookups == [] || |chain.lookups| == |FilterFailed(checks, since)|
  {
    match Project(FilterFailed(checks, since))
    case Failure(_) => PrChain([], [], None)
    case Success(failed) =>
      var lookups := seq(|failed|, i requires 0 <= i < |failed| => failed[i].runId);
      match ResolveRuns(failed, getRun)
      case None => PrChain(lookups, [], None)
      case Some(runDetails) =>
        var flat := Seqs.Flatten(Seqs.Singletons(runDetails));
        Seqs.FlattenSingletons(runDetails);
        var reruns := RerunRequests(flat);
        var responses := seq(|reruns|, i requires 0 <= i < |reruns| => if rerunAccepted(i, reruns[i]) then Some(reruns[i]) else None);
        var output :=
          match PromiseAll(responses)
          case Some(rerunJobs) => Some(Report(rerunJobs, |rerunJobs|))
          case None => None;
        PrChain(lookups, reruns, output)
  }

  /** No kept check has a `null` details URL. */
  predicate UrlsPresent(kept: seq<CheckRun>)
  {
    forall i :: 0 <= i < |kept| ==> kept[i].detailsUrl.Some?
  }

  /** Every lookup of the chain is fulfilled. */
  predicate LookupsFulfilled(kept: seq<CheckRun>, getRun: (nat, Option<string>) -> Option<WorkflowRun>)
    requires UrlsPresent(kept)
  {
    forall i :: 0 <= i < |kept| ==> getRun(i, RunIdOf(kept[i].detailsUrl.value)).Some?
  }

  /** Every rerun request of the chain is fulfilled. */
  predicate RerunsFulfilled(kept: seq<CheckRun>, getRun: (nat, Option<string>) -> Option<WorkflowRun>, rerunAccepted: (nat, nat) -> bool)
    requires UrlsPresent(kept) && LookupsFulfilled(kept, getRun)
  {
    forall i :: 0 <= i < |kept| ==> rerunAccepted(i, getRun(i, RunIdOf(kept[i].detailsUrl.value)).value.id)
  }

  /**
   * When no kept check has a `null` URL, every kept check is looked up, in order,
   * with its own run id, whatever the lookups answer: all requests are made
   * before `Promise.all` settles.
   */
  lemma EveryKeptCheckLookedUp(
    checks: seq<CheckRun>, since: string,
    getRun: (nat, Option<string>) -> Option<WorkflowRun>, rerunAccepted: (nat, nat) -> bool)
    requires UrlsPresent(FilterFailed(checks, since))
    ensures var kept, chain := FilterFailed(checks, since), ReconcilePullRequest(checks, since, getRun, rerunAccepted);
      && |chain.lookups| == |kept|
      && forall i :: 0 <= i < |kept| ==> chain.lookups[i] == RunIdOf(kept[i].detailsUrl.value)
  {
  }

  /**
   * When no kept check has a `null` URL and every lookup succeeds, the chain asks
   * for exactly one rerun per kept check, in the order of the checks, each for the
   * run that check's lookup resolved to.
   */
  lemma OneRerunPerFailedCheck(
    checks: seq<CheckRun>, since: string,
    getRun: (nat, Option<string>) -> Option<WorkflowRun>, rerunAccepted: (nat, nat) -> bool)
    requires UrlsPresent(FilterFailed(checks, since))
    requires LookupsFulfilled(FilterFailed(checks, since), getRun)
    ensures var kept, chain := FilterFailed(checks, since), ReconcilePullRequest(checks, since, getRun, rerunAccepted);
      && |chain.lookups| == |chain.reruns| == |kept|
      && forall i :: 0 <= i < |kept| ==>
           && chain.lookups[i] == RunIdOf(kept[i].detailsUrl.value)
           && chain.reruns[i] == getRun(i, RunIdOf(kept[i].detailsUrl.value)).value.id
  {
    var kept := FilterFailed(checks, since);
    EveryKeptCheckLookedUp(checks, since, getRun, rerunAccepted);
    Seqs.FlattenSingletons(ResolveRuns(Project(kept).value, getRun).value);
  }

  /** The report is made exactly when every step succeeds, and then counts one rerun per kept check. */
  lemma ReportIffAllSucceed(
    checks: seq<CheckRun>, since: string,
    getRun: (nat, Option<string>) -> Option<WorkflowRun>, rerunAccepted: (nat, nat) -> bool)
    ensures var kept, chain := FilterFailed(checks, since), ReconcilePullRequest(checks, since, getRun, rerunAccepted);
      chain.output.Some?
      <==> && UrlsPresent(kept)
           && LookupsFulfilled(kept, getRun)
           && RerunsFulfilled(kept, getRun, rerunAccepted)
  {
    var kept := FilterFailed(checks, since);
    if !UrlsPresent(kept) {
      NullUrlRejectsChain(checks, since, getRun, rerunAccepted);
    } else if !LookupsFulfilled(kept, getRun) {
      RejectedLookupStopsChain(checks, since, getRun, rerunAccepted);
    } else if RerunsFulfilled(kept, getRun, rerunAccepted) {
      AllAcceptedGivesReport(checks, since, getRun, rerunAccepted);
    } else {
      RejectedRerunGivesNoReport(checks, since, getRun, rerunAccepted);
    }
  }

  /** A kept check with a `null` URL makes the projection throw: no lookup, no rerun, no report. */
  lemma NullUrlRejectsChain(
    checks: seq<CheckRun>, since: string,
    getRun: (nat, Option<string>) -> Option<WorkflowRun>, rerunAccepted: (nat, nat) -> bool)
    requires !UrlsPresent(FilterFailed(checks, since))
    ensures ReconcilePullRequest(checks, since, getRun, rerunAccepted) == PrChain([], [], None)
  {
  }

  /**
   * A rejected `getWorkflowRun` rejects `Promise.all`: every kept check was still
   * looked up, but no rerun is requested and nothing is reported.
   */
  lemma RejectedLookupStopsChain(
    checks: seq<CheckRun>, since: string,
    getRun: (nat, Option<string>) -> Option<WorkflowRun>, rerunAccepted: (nat, nat) -> bool)
    requires UrlsPresent(FilterFailed(checks, since))
    requires !LookupsFulfilled(FilterFailed(checks, since), getRun)
    ensures var kept, chain := FilterFailed(checks, since), ReconcilePullRequest(checks, since, getRun, rerunAccepted);
      && |chain.lookups| == |kept|
      && (forall i :: 0 <= i < |kept| ==> chain.lookups[i] == RunIdOf(kept[i].detailsUrl.value))
      && chain.reruns == []
      && chain.output == None
  {
    var kept := FilterFailed(checks, since);
    EveryKeptCheckLookedUp(checks, since, getRun, rerunAccepted);
    var i :| 0 <= i < |kept| && getRun(i, RunIdOf(kept[i].detailsUrl.value)).None?;
    assert getRun(i, Project(kept).value[i].runId).None?;
  }

  /**
   * A rejected rerun request rejects `Promise.all`: a rerun was requested for every
   * kept check, but nothing is reported.
   */
  lemma RejectedRerunGivesNoReport(
    checks: seq<CheckRun>, since: string,
    getRun: (nat, Option<string>) -> Option<WorkflowRun>, rerunAccepted: (nat, nat) -> bool)
    requires UrlsPresent(FilterFailed(checks, since))
    requires LookupsFulfilled(FilterFailed(checks, since), getRun)
    requires !RerunsFulfilled(FilterFailed(checks, since), getRun, rerunAccepted)
    ensures var kept, chain := FilterFailed(checks, since), ReconcilePullRequest(checks, since, getRun, rerunAccepted);
      |chain.reruns| == |kept| && chain.output == None
  {
    var kept, chain := FilterFailed(checks, since), ReconcilePullRequest(checks, since, getRun, rerunAccepted);
    OneRerunPerFailedCheck(checks, since, getRun, rerunAccepted);
    var i :| 0 <= i < |kept| && !rerunAccepted(i, getRun(i, RunIdOf(kept[i].detailsUrl.value)).value.id);
    assert !rerunAccepted(i, chain.reruns[i]);
  }

  /** When every step succeeds, the report lists every rerun request and counts one per kept check. */
  lemma AllAcceptedGivesReport(
    checks: seq<CheckRun>, since: string,
    getRun: (nat, Option<string>) -> Option<WorkflowRun>, rerunAccepted: (nat, nat) -> bool)
    requires UrlsPresent(FilterFailed(checks, since))
    requires LookupsFulfilled(FilterFailed(checks, since), getRun)
    requires RerunsFulfilled(FilterFailed(checks, since), getRun, rerunAccepted)
    ensures var kept, chain := FilterFailed(checks, since), ReconcilePullRequest(checks, since, getRun, rerunAccepted);
      chain.output == Some(Report(chain.reruns, |kept|))
  {
    var kept, chain := FilterFailed(checks, since), ReconcilePullRequest(checks, since, getRun, rerunAccepted);
    OneRerunPerFailedCheck(checks, since, getRun, rerunAccepted);
    var failed := Project(kept).value;
    var runDetails := ResolveRuns(failed, getRun).value;
    Seqs.FlattenSingletons(runDetails);
    assert chain.reruns == RerunRequests(runDetails);
  }

  /**
   * No deduplication: two failed checks of one workflow run (two jobs whose details
   * URLs share the run id in segment 7, whatever else differs) lead to two lookups
   * and two rerun requests for that run, and a count of two when both requests
   * are fulfilled.
   */
  lemma SameRunRerunTwice(
    c1: CheckRun, c2: CheckRun, since: string, run: WorkflowRun,
    getRun: (nat, Option<string>) -> Option<WorkflowRun>, rerunAccepted: (nat, nat) -> bool)
    requires c1.conclusion == "failure" && c2.conclusion == "failure"
    requires JsString.Less(since, c1.completedAt) && JsString.Less(since, c2.completedAt)
    requires c1.detailsUrl.Some? && c2.detailsUrl.Some?
    requires RunIdOf(c1.detailsUrl.value) == RunIdOf(c2.detailsUrl.value)
    requires getRun(0, RunIdOf(c1.detailsUrl.value)) == Some(run)
    requires getRun(1, RunIdOf(c2.detailsUrl.value)) == Some(run)
    requires rerunAccepted(0, run.id)
    requires rerunAccepted(1, run.id)
    ensures var chain := ReconcilePullRequest([c1, c2], since, getRun, rerunAccepted);
      && chain.lookups == [RunIdOf(c1.detailsUrl.value), RunIdOf(c2.detailsUrl.value)]
      && chain.reruns == [run.id, run.id]
      && chain.output == Some(Report([run.id, run.id], 2))
  {
    FilterFailedKeepsAllQualifying([c1, c2], since);
    OneRerunPerFailedCheck([c1, c2], since, getRun, rerunAccepted);
    AllAcceptedGivesReport([c1, c2], since, getRun, rerunAccepted);
  }

  /**
   * The cost of not deduplicating: for two failed jobs of one run, when GitHub
   * refuses the second rerun request for the run that the first request has
   * already re-queued, `Promise.all` rejects and nothing is reported, although
   * the run is being rerun.
   */
  lemma SecondRerunOfSameRunRefused(
    c1: CheckRun, c2: CheckRun, since: string, run: WorkflowRun,
    getRun: (nat, Option<string>) -> Option<WorkflowRun>, rerunAccepted: (nat, nat) -> bool)
    requires c1.conclusion == "failure" && c2.conclusion == "failure"
    requires JsString.Less(since, c1.completedAt) && JsString.Less(since, c2.completedAt)
    requires c1.detailsUrl.Some? && c2.detailsUrl.Some?
    requires RunIdOf(c1.detailsUrl.value) == RunIdOf(c2.detailsUrl.value)
    requires getRun(0, RunIdOf(c1.detailsUrl.value)) == Some(run)
    requires getRun(1, RunIdOf(c2.detailsUrl.value)) == Some(run)
    requires rerunAccepted(0, run.id)
    requires !rerunAccepted(1, run.id)
    ensures var chain := ReconcilePullRequest([c1, c2], since, getRun, rerunAccepted);
      && chain.reruns == [run.id, run.id]
      && chain.output == None
  {
    FilterFailedKeepsAllQualifying([c1, c2], since);
    OneRerunPerFailedCheck([c1, c2], since, getRun, rerunAccepted);
    assert !rerunAccepted(1, getRun(1, RunIdOf([c1, c2][1].detailsUrl.value)).value.id);
    RejectedRerunGivesNoReport([c1, c2], since, getRun, rerunAccepted);
  }
}
