# Failed pull-request check retry: a Dafny model

This project models the logic of the GitHub Action in `index.js` that reruns failed CI jobs on open pull requests. For the head commit of a pull request, the action lists the check runs that have completed. It keeps those whose conclusion is `"failure"` and whose `completed_at` comes after a lookback bound `since`. It turns each kept check into a record that carries the workflow-run id and the job id from its `details_url`. It looks up the workflow run of every record and asks GitHub to rerun the failed jobs of every run it obtains. Finally it reports the rerun responses and how many there are. In the model, each response stands as the run id its request was made for.

The model is pure: Dafny functions over sequences and strings, with lemmas. The source is itself a chain of `.filter`, `.map` and `concat` over immutable lists, with no state updated step by step. The modules follow the chain:

- `Seqs` (seqs.dfy): `filter` on the Immutable.js `List` built by `fromJS`, and the spread `[].concat(...xs)`.
- `JsString` (js_string.dfy): JavaScript's string comparison, `split("/")`, and indexing the pieces, which gives `undefined` past the end.
- `Timestamps` (timestamps.dfy): the lookback bound, and what comparing timestamps as strings means. `since` from `toISOString` carries milliseconds (`2024-05-01T12:00:00.000Z`). GitHub's `completed_at` does not (`2024-05-01T12:00:00Z`).
- `FailedChecks` (failed_checks.dfy): the two filters and the projection into records.
- `Reruns` (reruns.dfy): looking up each run, the flattening, one rerun request per run, and the report of one pull request's chain.

The two network requests of the chain enter as parameters. Each request is answered on its own, so two requests for the same run may get different answers:

- `getRun(i, runId)` is the response to the `i`-th `actions.getWorkflowRun` request of the chain. `None` means the request was rejected.
- `rerunAccepted(i, id)` says whether the `i`-th `actions.reRunWorkflowFailedJobs` request, made for run `id`, was fulfilled.

The current time enters as an integer `now`.

What the code does, which the model follows:

- **No deduplication.** The code makes one lookup and one rerun request per failed check, even when two checks share a run id (index.js:61-96). `SameRunRerunTwice` shows two failed checks whose URLs share the run id in segment 7 giving two requests and a count of 2. The URLs may differ elsewhere, for example in the job id (`JobsOfOneRunShareRunId`). `SecondRerunOfSameRunRefused` shows that when the second request for that run is refused, nothing is reported.
- **Lookback.** The comment says "last 24 hours", but the code goes back 30 days (index.js:10-13; `Since`).
- **Sub-second ties are kept.** `since` is compared as a string that has milliseconds, against a `completed_at` that has none. The first 19 characters (the date and time to the second) decide. When they are equal, `'.'` sorts before `'Z'`, so a check that completed in the same second as `since`, even before it, is kept (`FilterFailedByValue`, `SubSecondEarlierCheckKept`).
- **No error for a short URL.** A URL with too few segments gives an `undefined` run id or job id, and the check stays in the list (`RunIdOf`, `JobIdOf`).
- **One failure ends the chain.** A `null` details URL, a rejected lookup or a rejected rerun rejects the whole chain of that pull request, so nothing is reported for it (`ReportIffAllSucceed`). Every lookup is still made when one is rejected (`EveryKeptCheckLookedUp`). A rejected rerun does not stop the other rerun requests, which were already made.
- **The count.** `rerunJobsCount` counts the responses, one per kept check. It is reported only when every rerun request succeeded.

## Model

| member | source | states |
|---|---|---|
| `Timestamps.Since` | index.js:11-13 | The bound is exactly 30 days (2,592,000,000 ms) before `now`, more than the one day the comment names. |
| `JsString.LessIsLexicographic` | index.js:44 | JavaScript's string `<` is lexicographic order: either a proper prefix, or a smaller element at the first place the strings differ. The two definitions agree in both directions. |
| `JsString.LessIrreflexive` | index.js:44 | No string is below itself, so `completed_at > since` is false when the two are equal. |
| `JsString.LessAsymmetric` | index.js:44 | String order is asymmetric. |
| `JsString.LessTransitive` | index.js:44 | String order is transitive. |
| `JsString.LessTotal` | index.js:44 | Two different strings are always ordered one way or the other. |
| `Timestamps.SameShapeOrder` | index.js:44 | If two strings have the same layout (they differ only in which digits they hold), string order equals numeric order of their digits. This is the string side of section 5.1 of RFC 3339. |
| `Timestamps.SameShapeTotal` | index.js:44 | Two strings with the same layout have equal digit values only when they are equal. |
| `Timestamps.DigitsValueBound` | index.js:44 | The number read from the digits of a string is below 10 to the power of its digit count. |
| `JsString.LessSplitAt` | index.js:44 | When two strings differ in their first `n` elements, those decide the order. When they agree there, the rest decides. |
| `Timestamps.IsoBeforeGitHub` | index.js:44 | For `since` in the `toISOString` layout and `completed_at` in GitHub's layout, `since < completed_at` holds exactly when `completed_at` falls in the same second as `since` or a later one. |
| `Seqs.Filter` | index.js:41-44 | A filter's result is no longer than its input, and every element in it is from the input and passes the test. |
| `Seqs.FilterIsSubsequence` | index.js:41-44 | A filter's result is the input with some elements deleted, in their original order. |
| `Seqs.SubsequenceNoLonger` | index.js:41-44 | A subsequence is no longer than the sequence it comes from. |
| `Seqs.FilterMultiplicity` | index.js:41-44 | An element that passes appears in the result as often as in the input. An element that fails does not appear at all. |
| `Seqs.FilterMembership` | index.js:41-44 | A value is in the result exactly when it is in the input and passes. |
| `Seqs.FilterKeepsAll` | index.js:41-44 | A filter that every element passes returns its input unchanged. |
| `Seqs.FilterFilter` | index.js:41-44 | Two filters in a row equal one filter by the conjunction of their tests. |
| `FailedChecks.FilterFailed` | index.js:41-44 | Every kept check has conclusion `"failure"` and a `completed_at` strictly above `since` as strings. No more checks are kept than were given. |
| `FailedChecks.FilterFailedKeepsExactly` | index.js:41-44 | A check is kept exactly when it is in the input, its conclusion is `"failure"` and `since < completed_at`. Any other conclusion is dropped. |
| `FailedChecks.FilterFailedMultiplicity` | index.js:41-44 | A qualifying check is kept as many times as it occurs in the input. Nothing is merged or duplicated. |
| `FailedChecks.FilterFailedIsSubsequence` | index.js:41-44 | The kept checks keep the order of the input. Nothing is added. |
| `FailedChecks.FilterFailedKeepsAllQualifying` | index.js:41-44 | When every check failed after `since`, all are kept, in order. |
| `FailedChecks.FilterFailedExcludesBound` | index.js:44 | A check that completed exactly at `since` is dropped, because the bound is strict. |
| `FailedChecks.FilterFailedByValue` | index.js:41-44 | For `since` from `toISOString` and `completed_at` as GitHub writes it, a check is kept exactly when it is in the input, failed, and completed in the second of `since` or later. Milliseconds play no part. |
| `FailedChecks.SubSecondEarlierCheckKept` | index.js:44 | A failed check completed at `2024-05-01T12:00:00Z` is kept for `since` = `2024-05-01T12:00:00.500Z`, half a second later. |
| `FailedChecks.FirstPullRequest` | index.js:47 | `pull_requests[0].number` is present exactly when the list is non-empty, and it is then the first number. |
| `JsString.Split` | index.js:53-54 | `split` gives one more piece than there are separators, and no piece contains the separator. |
| `JsString.JoinSplit` | index.js:53-54 | Joining the pieces of a split with the separator gives back the original string. |
| `JsString.SplitJoin` | index.js:53-54 | Splitting a join of separator-free pieces gives back the pieces. |
| `JsString.Segment` | index.js:53-54 | `s.split(sep)[k]` is present exactly when `s` has at least `k` separators. A present segment never contains the separator. |
| `JsString.SegmentOfJoin` | index.js:53-54 | In a string built from separator-free pieces, segment `k` is piece `k`, or absent past the last piece. |
| `FailedChecks.RunIdOf` | index.js:53 | The run id is present exactly when the URL has at least 7 slashes, and it never contains a slash. |
| `FailedChecks.JobIdOf` | index.js:54 | The job id is present exactly when the URL has at least 9 slashes, and it never contains a slash. |
| `FailedChecks.ActionsJobUrlIds` | index.js:53-54 | For `https://github.com/<owner>/<repo>/actions/runs/<run>/job/<job>` with slash-free parts, segment 7 is `<run>` and segment 9 is `<job>`. |
| `FailedChecks.JobsOfOneRunShareRunId` | index.js:53-54 | Two jobs of one workflow run have different details URLs with the same run id in segment 7. |
| `FailedChecks.ExampleUrlIds` | index.js:53-54 | `https://github.com/o/r/actions/runs/123/job/456` gives run id `123` and job id `456`. |
| `FailedChecks.ShortUrlHasNoIds` | index.js:53-54 | A URL with fewer than 7 slashes gives no run id and no job id, and no error. |
| `FailedChecks.Project` | index.js:45-56 | The projection succeeds exactly when no kept check has a `null` details URL. On success there is one record per check, in order. Each record copies `name`, `details_url`, `completed_at` and `conclusion`, takes `pr` from the first associated pull request, and takes `run_id` and `job_id` from segments 7 and 9 of the URL. |
| `Seqs.FlattenSingletons` | index.js:86 | `[].concat(...runDetails)` returns `runDetails` with the same length and order. |
| `Reruns.PromiseAll` | index.js:84-96 | `Promise.all` succeeds exactly when every promise is fulfilled. It then gives every value, in order. |
| `Reruns.ResolveRuns` | index.js:61-84 | `Promise.all` over the lookups succeeds exactly when every lookup does. It then gives one run per record, in order, each the response to that record's own request. |
| `Reruns.ReconcilePullRequest` | index.js:38-106 | A report lists one entry per rerun request (the run id it was made for), and its count equals the number of kept checks. Each request was accepted. Lookups and reruns happen either not at all or once per kept check. |
| `Reruns.EveryKeptCheckLookedUp` | index.js:61-83 | If no kept check has a `null` URL, kept check `i` makes the `i`-th lookup with its own run id, whatever the lookups answer. |
| `Reruns.OneRerunPerFailedCheck` | index.js:61-96 | If there is no `null` URL and every lookup succeeds, then kept check `i` makes the `i`-th lookup, with its run id, and the `i`-th rerun request, for the run its lookup resolved to. |
| `Reruns.ReportIffAllSucceed` | index.js:84-106 | A report is made exactly when every kept check has a URL, every lookup request succeeds and every rerun request is accepted, each judged on its own. |
| `Reruns.NullUrlRejectsChain` | index.js:53-54 | If a kept check has a `null` URL, no lookup or rerun is requested and nothing is reported. |
| `Reruns.RejectedLookupStopsChain` | index.js:61-86 | If one lookup is rejected, every kept check was still looked up, but no rerun is requested and nothing is reported. |
| `Reruns.RejectedRerunGivesNoReport` | index.js:88-106 | If one rerun is rejected, a rerun was still requested for every kept check, but nothing is reported. |
| `Reruns.AllAcceptedGivesReport` | index.js:99-101 | If every step succeeds, the report lists every rerun request and counts one per kept check. |
| `Reruns.SameRunRerunTwice` | index.js:61-101 | Two failed checks whose details URLs carry the same run id (two jobs of one workflow run) give two lookups, each with its own check's run id, and two rerun requests for that run. When both requests are accepted, `rerunJobsCount` is 2. There is no deduplication. |
| `Reruns.SecondRerunOfSameRunRefused` | index.js:88-106 | For two failed checks whose URLs carry the same run id, if the second rerun request for that run is refused, `Promise.all` rejects and nothing is reported. |

## Left out

- The calls `pulls.list`, `checks.listForRef`, `actions.getWorkflowRun` and `actions.reRunWorkflowFailedJobs` are network I/O (index.js:21-37, 62-67, 90-94). The list of check runs is an input. The two per-run calls are the parameters `getRun` and `rerunAccepted`. `pulls.list` returns one page of open pull requests; the model starts from one pull request's check runs.
- The `forEach` over open pull requests runs one chain per pull request concurrently (index.js:29). Each chain calls `core.setOutput`, so the last chain to finish overwrites the outputs. The model covers one pull request's chain.
- `Promise` scheduling is left out. The model keeps only its outcome: a rejection anywhere ends the chain at that step.
- `new Date()` and `toISOString` are not modelled (index.js:11-13). `now` is an integer of milliseconds. The filter takes `since` as a string, and no conversion between the two is modelled. `FilterFailedByValue` takes as given that `since` has the `toISOString` layout, `YYYY-MM-DDTHH:MM:SS.sssZ`, and that GitHub writes `completed_at` as `YYYY-MM-DDTHH:MM:SSZ`. For other strings, only the string order of `FilterFailedKeepsExactly` is stated.
- The bodies of the `reRunWorkflowFailedJobs` responses are not modelled (index.js:99-100). `Report.rerunJobs` holds, for each fulfilled rerun request, the run id it was made for, in order. Its length, and so `rerunJobsCount`, is the same as the number of responses.
- The `time_since` field is not modelled (index.js:51). `moment(...).fromNow()` depends on the wall clock and the locale.
- Only the `id` of the workflow-run response is modelled (index.js:70-80). The rerun request uses only that field, and the model has no rows for the others.
- `completed_at` is a string in the model. The listing asks for completed check runs, and those always carry one. In JavaScript a `null` would fail the `>` test and the check would be dropped.
- String comparison in the model (`JsString.Less`) is on Unicode scalar values. JavaScript compares UTF-16 code units. The two orders differ only between characters above U+FFFF and characters from U+E000 to U+FFFF, which do not occur in ISO-8601 timestamps.
- `core.getInput`, `core.setFailed` and `console.log` are input wiring and logging (index.js:103-118). `maxRetries` is read but never used, and `retryInterval` is never supplied.
- The Immutable.js `fromJS`/`getIn` calls are replaced by plain records (index.js:40, 69).
