# Release gate and re-signing of SonarSource's release action, in Dafny

This project models the decision logic of `gh-action_release`, the GitHub
action SonarSource uses to release a build. It covers the following parts.

- **The releasability gate.** This is the go/no-go check that runs before a build is promoted. There are two revisions.
  - The newer coordinator (`Releasability`, with `CheckResult` and `ChecksReport`):
    - publishes one trigger request to an SNS topic;
    - derives the expected number of checks and the time budget from the Lambda listing;
    - polls an SQS queue, keeping every notification for its request that is not an acknowledgement.
  - The older coordinator (`LegacyReleasability`) keeps one verdict per check name and stops once as many distinct names as expected have reported.
  - `ReleasabilityInputs` holds the decoded cloud listings both coordinators read.
  - `VersionHelper`, `ReleasabilityFacade` and `Timeout` are the version normalisation and the time-budget predicate.
  - `Burgr` holds the decisions of the Burgr dashboard client in its three revisions:
    - `main/release/utils/burgr.py`;
    - `utils/burgr.py`;
    - `steps/relesability.py`.
- **Release plumbing.**
  - `BuildInfo` is the build-info queries, shared by the three copies of the class: `main/release/utils/buildinfo.py`, `main/utils/buildinfo.py` and `utils/artifactory.py`.
  - `Release` is publishing, revoking and gating in the newer action. `main/steps/release.py` is the same code three lines earlier, without the gate.
  - `StepsRelease` and `Distribute` are the older action's steps.
  - `Binaries` is the S3 bucket keys and upload order.
  - `GitHub` and `LegacyGitHub` are the two GitHub helpers. `VersionPattern` is the release tag pattern.
- **The re-signing scripts.**
  - `Vault` is the Vault client.
  - `ResignBinariesJar` and `UploadMissingToBinaries` are the two binaries-site scripts.
  - `ArtifactoryUtils` is the Artifactory side of re-signing.
  - `ResignArtifacts` is the token search, the build number and the run.
  - `SbomUtils` is the SBOM version rewriting.

The model runs on values rather than on the outside world.

- **Calls to the outside world.** Every call to Artifactory, S3, the binaries host, Burgr, Slack, GitHub, Maven Central, GnuPG or the local files is an `Effects.Effect`. A run appends its effects to a trace. Which calls raise is given up front, so exception paths can be followed.
  - Steps that work step by step are methods on an `Effects.World`. Each is proved equal to a function that states the whole trace and outcome.
- **Values from the cloud.** Cloud listings, HTTP answers, clock readings, environment variables and decoded JSON documents are parameters.
- **Helpers.**
  - `Json` is the decoded JSON values with Python's lookups and `json.dumps`.
  - `Py` is the Python string operations the code relies on: `split`, `join`, `replace`, `strip`, `startswith`, `lower` and `isdigit`.
- **Objects updated in place are classes:**
  - the newer report (`ChecksReport.ChecksReport`);
  - the older pending releasability (`LegacyReleasability.PendingReleasability`);
  - the newer coordinator (`Releasability.Releasability`);
  - the binaries client (`Binaries.Binaries`);
  - the local repository the SBOM rewrite works on (`SbomUtils.Repository`).

Where the code and its tests disagree, the model follows the code.
- `main/tests/utils/test_buildinfo.py:54-57` expects `None` when no artifacts are declared. `get_artifacts_to_publish` yields `""` there, because `get_property` swallows the lookup error. `BuildInfo.ArtifactsToPublishFallback` states the `""`.
- The final text pass of the SBOM rewrite (`scripts/re-sign/sbom_utils.py:132-136`) does not always remove every occurrence of the old version. `Py.ReplaceCanLeaveOccurrence` shows this even when the new version does not contain the old one. The property proved instead is that no `version` field keeps the old version: `SbomUtils.PassLeavesNoOldVersionField`.
- Some quirks are modelled as written:
  - the substring test `self.type in 'PASSED'` (`main/utils/releasability.py:16`);
  - the counting of messages rather than names (`main/release/releasability/releasability.py:122`);
  - a later stage hiding an earlier finished one (`main/release/utils/burgr.py:159-166`);
  - a `get_artifacts_to_publish` that never yields `None`.

## Model

| member | source | states |
|---|---|---|
| Timeout.DeadlineBoundary | main/release/utils/timeout.py:4-6 | the budget is not exceeded at or before `started_at + max_seconds` and is exceeded one second after it |
| Timeout.ExceededIsMonotone | main/release/utils/timeout.py:4-6 | once the budget is exceeded it stays exceeded at every later clock reading |
| VersionHelper.SonarLintVersionIsTextBeforeFirstPlus | main/release/utils/version_helper.py:7-13 | for `sonarlint-vscode` the version is a prefix of the requested one, holds no `+`, and is either the whole version or stops right before its first `+` |
| VersionHelper.OtherProjectsKeepVersion | main/release/utils/version_helper.py:8-13 | every project other than `sonarlint-vscode` keeps its version unchanged |
| VersionHelper.VersionWithoutPlusUnchanged | main/release/utils/version_helper.py:7-13 | a version without `+` is unchanged for every project |
| VersionHelper.StandardizedVersionIdempotent | main/release/utils/version_helper.py:7-13 | normalising an already normalised version changes nothing |
| ReleasabilityFacade.NewReleasability | main/release/utils/releasability.py:8-14 | the facade keeps the release request it was given |
| ReleasabilityFacade.FacadeVersionIsStandardized | main/release/utils/releasability.py:10-14 | the facade's own version normalisation agrees with the version helper: no `+` for `sonarlint-vscode`, the version unchanged otherwise |
| CheckResult.NewCheckResult | main/release/releasability/releasability_check_result.py:18-22 | the entry keeps name, state and message, and is passed exactly when the state is `PASSED` or `NOT_RELEVANT` |
| CheckResult.Prefix | main/release/releasability/releasability_check_result.py:33-42 | the glyph is always one of the four declared prefixes |
| CheckResult.PrefixAgreesWithPassRule | main/release/releasability/releasability_check_result.py:33-51 | a state passes exactly when its glyph is the success or optional one, and gets the failure glyph exactly when it is `ERROR` |
| CheckResult.UnknownStates | main/release/releasability/releasability_check_result.py:9-11 | the failure state is spelled `ERROR`; `FAILED` and `ACK` get the unknown glyph and do not pass |
| CheckResult.RenderLayout | main/release/releasability/releasability_check_result.py:24-31 | a rendered entry starts with glyph, space, name, space; with a message it ends in two spaces, a dash and the message; without one it ends in the space after the name |
| ChecksReport.AnyFailed | main/release/releasability/releasability_checks_report.py:22-23 | true exactly when some entry's `passed` is not true |
| ChecksReport.ChecksReport.constructor | main/release/releasability/releasability_checks_report.py:10-11 | a new report holds no entry |
| ChecksReport.ChecksReport.AddCheck | main/release/releasability/releasability_checks_report.py:13-14 | the entry is appended after the existing ones, nothing else changes |
| ChecksReport.ChecksReport.GetChecks | main/release/releasability/releasability_checks_report.py:16-17 | every added entry, in insertion order, duplicates kept |
| ChecksReport.ChecksReport.ContainsError | main/release/releasability/releasability_checks_report.py:22-23 | true exactly when some added entry did not pass |
| ChecksReport.EmptyReport | main/release/releasability/releasability_checks_report.py:19-23 | an empty report renders as the empty text and holds no error |
| ChecksReport.RenderReportAppend | main/release/releasability/releasability_checks_report.py:13-20 | adding an entry adds its line after a newline, or makes it the only line |
| ChecksReport.AnyFailedAppend | main/release/releasability/releasability_checks_report.py:13-23 | adding an entry adds an error exactly when that entry did not pass |
| ChecksReport.RenderReportLines | main/release/releasability/releasability_checks_report.py:19-20 | when no entry's line holds a newline, splitting the report on newlines gives back each entry's line in order |
| ReleasabilityInputs.Drain | main/release/releasability/releasability.py:134-138 | the pagination loop collects exactly the items of each page up to the first page that announces no next one |
| ReleasabilityInputs.SubscriptionDrainAsWrittenFailsOnSecondPage | main/release/releasability/releasability.py:142-146 | as written, listing the subscriptions succeeds exactly when the first page announces no next page, and then gives the drained items |
| ReleasabilityInputs.Subscribed | main/release/releasability/releasability.py:150 | a function is kept exactly when its ARN is among the endpoints; none is kept without endpoints, and no more than were listed |
| ReleasabilityInputs.MaxTimeout | main/release/releasability/releasability.py:155 | the result is one of the timeouts and no timeout exceeds it |
| ReleasabilityInputs.ChecksCountAndMaxTimeout | main/release/releasability/releasability.py:131-157 | fails exactly when no function is listed (`max` of an empty list); otherwise the count is the number of subscribed functions and the budget is the largest timeout of a listed function |
| ReleasabilityInputs.GetChecksCountAndMaxTimeout | main/release/releasability/releasability.py:131-157 | with both listings drained page by page, the result is the count and budget of the drained listings |
| ReleasabilityInputs.CountBounds | main/release/releasability/releasability.py:150-151 | the expected count never exceeds the number of listed functions and is zero without subscriptions |
| Releasability.ArnTextFields | main/release/releasability/releasability.py:35-38 | an ARN built from colon-free fields splits on `:` back into `arn`, `aws` and exactly those fields |
| Releasability.ArnConstantsFields | main/release/releasability/releasability.py:35-38 | the trigger topic, result topic and result queue ARNs carry the region, the account and the fixed SNS/SQS service and resource names |
| Releasability.ArnToSqsUrlOfQueueArn | main/release/releasability/releasability.py:88-99 | an SQS ARN maps to the queue URL of the same region, account and queue name |
| Releasability.ArnToSqsUrlRejectsOtherServices | main/release/releasability/releasability.py:88-99 | an ARN of any other service is rejected with `ValueError` |
| Releasability.ResultQueueUrl | main/release/releasability/releasability.py:35-38 | the result queue ARN of the constants maps to its URL |
| Releasability.ArnAccountAsWrittenIsMethodText | main/release/releasability/releasability.py:29-30 | as written, the account field of every ARN is the text of the bound method object, never a numeric account id |
| Releasability.ArnAccountIsCallerAccount | main/release/releasability/releasability.py:26-38 | with the method's result passed, the ARNs carry the caller's account id |
| Releasability.SnsRequestKeysOf | main/release/releasability/releasability.py:72-80 | the request's keys are the seven keys in the order the dict literal lists them |
| Releasability.SnsRequestFields | main/release/releasability/releasability.py:64-81 | the trigger request has exactly the seven keys, each bound to the value it was given, the repository slug being `org/project` |
| Releasability.SnsRequestKeysDistinct | main/release/releasability/releasability.py:72-80 | the seven keys of the trigger request are distinct |
| Releasability.Accepted | main/release/releasability/releasability.py:113-121 | never more notifications are accepted than the batch holds |
| Releasability.AcceptedMembers | main/release/releasability/releasability.py:113-121 | a notification is accepted exactly when it is in the batch, carries this request's id and is not an `ACK` |
| Releasability.AcceptedAppend | main/release/releasability/releasability.py:114-121 | a notification that is not accepted changes neither the entries nor the countdown; one that is adds itself at the end |
| Releasability.ReceiveRound | main/release/releasability/releasability.py:113-128 | one receive round appends exactly the entries of the batch's accepted notifications and counts the expected results down by their number |
| Releasability.EntriesAppend | main/release/releasability/releasability.py:114-128 | the entries of two runs of notifications are the entries of each, in order |
| Releasability.ReceiveStep | main/release/releasability/releasability.py:114-128 | looking at one more notification of the batch adds its entry exactly when it is accepted |
| Releasability.Releasability.constructor | main/release/releasability/releasability.py:26-30 | the coordinator keeps the release request and the ARNs of the given region and account |
| Releasability.Releasability.GetReleasabilityReport | main/release/releasability/releasability.py:101-129 | fails exactly when the listings give no function or the queue ARN is malformed; otherwise returns a new report holding the entries the poll loop collects within the expected count and the time budget, after the rounds it takes |
| Releasability.CollectedStep | main/release/releasability/releasability.py:106-128 | one poll round collects the accepted notifications of the next batch, then continues with the count reduced by their number and one second less |
| Releasability.PollResults | main/release/releasability/releasability.py:106-128 | the poll loop appends exactly the entries `Collected` specifies and makes exactly the receive calls `Rounds` counts |
| Releasability.CollectedLoopStep | main/release/releasability/releasability.py:106-128 | one iteration of the poll loop keeps the collected entries and the rounds made on course |
| Releasability.CollectedComeFromAcceptedNotifications | main/release/releasability/releasability.py:113-128 | every report entry comes from a received notification for this request that is not an acknowledgement, and carries its name and state |
| Releasability.NoAckInReport | main/release/releasability/releasability.py:120-121 | no acknowledgement reaches the report |
| Releasability.RoundsBounded | main/release/releasability/releasability.py:106-107 | the loop makes at most `remaining_time` receive calls, and none, collecting nothing, when no result is expected |
| Releasability.StopsWhenCountReachedOrTimeUsed | main/release/releasability/releasability.py:106-122 | the loop ends only when the time budget is used up or at least as many entries as expected were collected |
| Releasability.RepeatedNameCountsTwice | main/release/releasability/releasability.py:118-128 | results are counted per notification, not per check: one check reporting twice fills an expected count of two with two same-named entries |
| Releasability.EntryMessageCases | main/release/releasability/releasability.py:123-128 | the entry keeps the notification's name and state and passes by the state alone; an absent `message` key gives "" and a line ending in `" - "`, a JSON `null` gives no message and no note, a text is kept |
| Releasability.StartPublishesOnce | main/release/releasability/releasability.py:41-62 | a build number that is not an integer raises before anything is published; otherwise exactly one request goes to the trigger topic, with the returned id, the normalised version and the build number |
| Releasability.LocalPassedIffNoMessage | main/release/releasability/releasability.py:123-127 | the local `passed` flag is false exactly when the notification has a message |
| Releasability.AsWrittenReportFailsOnFirstResult | main/release/releasability/releasability.py:128 | as written the poll loop succeeds exactly when no entry would be collected: the first accepted notification raises `TypeError` |
| LegacyReleasability.CheckVerdict | main/utils/releasability.py:15-20 | a check passes exactly when its type is a substring of `PASSED` or is `NOT_RELEVANT`; a passing check shows no message, a failing one the failure glyph and its own message |
| LegacyReleasability.SubstringOfPassedPasses | main/utils/releasability.py:16-17 | the substring test lets `PASS`, `ED` and the empty type pass, with no message shown |
| LegacyReleasability.FailedAndErrorFail | main/utils/releasability.py:15-20 | `FAILED` and `ERROR` fail; `NOT_RELEVANT` passes with its own glyph |
| LegacyReleasability.PutNames | main/utils/releasability.py:36 | storing under a name keeps the order of the names and adds the name at the end exactly when it is new |
| LegacyReleasability.PutFind | main/utils/releasability.py:36 | after storing, the name finds the new check and every other name finds what it found before |
| LegacyReleasability.PutDistinct | main/utils/releasability.py:36 | names stay distinct, and the dictionary grows by one exactly when the name is new |
| LegacyReleasability.ProcessedAllAppend | main/utils/releasability.py:117-118 | processing a batch and then one more notification is processing the longer batch |
| LegacyReleasability.ZeroCountNeverTerminates | main/utils/releasability.py:38-43 | with no check expected the pending releasability never terminates |
| LegacyReleasability.ResultLineForms | main/utils/releasability.py:52-53 | a passed check shows glyph and name only; a failed one adds ` - message` unless the message is absent or empty |
| LegacyReleasability.PendingReleasability.constructor | main/utils/releasability.py:22-26 | a new pending releasability keeps its id, count and timeout and holds no check |
| LegacyReleasability.PendingReleasability.ProcessNotification | main/utils/releasability.py:28-36 | the dictionary becomes the old one with the check stored under its name when the notification is for this request and not an `ACK`, unchanged otherwise; names stay distinct |
| LegacyReleasability.PendingReleasability.IsTerminated | main/utils/releasability.py:38-43 | terminated exactly when some check is stored and the number of stored names equals the expected count |
| LegacyReleasability.PendingReleasability.GetStatusAndFormattedResult | main/utils/releasability.py:45-55 | the status is true exactly when every stored check passed, and the text is the result lines joined by newlines |
| LegacyReleasability.ProcessBatch | main/utils/releasability.py:117-118 | processing a batch leaves the dictionary `ProcessedAll` gives, names still distinct |
| LegacyReleasability.GetReleasabilityStatus | main/utils/releasability.py:107-120 | the dictionary and the number of rounds are those `Polled` specifies; status and text are computed from the final dictionary |
| LegacyReleasability.LastReportWins | main/utils/releasability.py:36 | the last notification under a name replaces the earlier one; other names keep theirs |
| LegacyReleasability.PutNoAck | main/utils/releasability.py:31-36 | storing a check that is not an acknowledgement keeps the dictionary free of acknowledgements |
| LegacyReleasability.ProcessedAllNoAck | main/utils/releasability.py:28-36 | processing a batch never stores an acknowledgement |
| LegacyReleasability.PolledNoAck | main/utils/releasability.py:107-120 | polling never stores an acknowledgement |
| LegacyReleasability.PolledRounds | main/utils/releasability.py:113-119 | at most `timeout` rounds, at least one when there is time, and fewer only when the last round terminated the releasability; the loop stops at the first terminating round: the final dictionary is the one after that many rounds and no earlier round's dictionary terminated |
| LegacyReleasability.ZeroCountPollsWholeBudget | main/utils/releasability.py:38-43 | with no check expected the loop always uses the whole time budget |
| LegacyReleasability.RepeatedNameCountsOnce | main/utils/releasability.py:36-43 | names count once: one check reporting twice stores one entry, so an expected count of two is never reached and every round is used |
| LegacyReleasability.FixedMembersKeys | main/utils/releasability.py:88-95 | the six fixed members come in their order and none of them is `branchName` |
| LegacyReleasability.FixedMembersFields | main/utils/releasability.py:88-95 | the request id, the result topic and the integer build number are bound under their keys |
| LegacyReleasability.OptionalMembersFields | main/utils/releasability.py:96-99 | `branchName` is present exactly when the branch is not empty, `prNumber` exactly when it is truthy |
| LegacyReleasability.LegacyRequestFields | main/utils/releasability.py:85-99 | the request holds the six fixed members, then `branchName` and `prNumber` only when truthy |
| LegacyReleasability.Releasability.constructor | main/utils/releasability.py:60-64 | the coordinator keeps the environment, the request and the two topic ARNs |
| LegacyReleasability.Releasability.Check | main/utils/releasability.py:66-83 | a non-integer build number raises before publishing; otherwise one request is published, a failing listing raises, and after polling the call succeeds exactly when every stored check passed, else raises `Releasability failed` |
| LegacyReleasability.StartPublishesRequest | main/utils/releasability.py:85-105 | starting publishes the request above to the trigger topic exactly when the build number is an integer |
| Burgr.Matching | main/release/utils/burgr.py:14 | only pipelines whose version is the target are kept |
| Burgr.MatchingAppend | main/release/utils/burgr.py:11-18 | the matches of two runs of pipelines are the matches of each, in order |
| Burgr.FirstWithVersionIsFirstMatch | main/release/utils/burgr.py:14 | over pipeline records the generator search returns the first pipeline with the version, or none |
| Burgr.CorrespondingPipelineIsFirstMatch | main/release/utils/burgr.py:11-18 | the first pipeline with the version in commit-then-pipeline order, or none; the same search is at utils/burgr.py:11-18 and steps/relesability.py:104-111 |
| Burgr.MissingPipelinesCountAsEmpty | main/release/utils/burgr.py:13 | a commit whose `pipelines` is missing, null or empty contributes no pipeline |
| Burgr.FinishedStates | main/release/utils/burgr.py:21-22 | a status is finished exactly when it is `errored`, `failed` or `passed` (also utils/burgr.py:21-22, steps/relesability.py:114-115); `running` and null are not |
| Burgr.ListingErrors | main/release/utils/burgr.py:144-150 | a listing answer other than 200 raises with the status message of the client revision, and an empty commit list raises `No commit information` |
| Burgr.PipelineErrors | main/release/utils/burgr.py:152-157 | no pipeline with the version raises; a pipeline not flagged releasable raises when the flag is checked; otherwise the first matching pipeline is used (also utils/burgr.py:137-143, steps/relesability.py:87-92) |
| Burgr.IsLastOfTypeExtend | main/release/utils/burgr.py:159-161 | appending a stage of another type keeps the last releasability stage where it was |
| Burgr.NoneOfTypeExtend | main/release/utils/burgr.py:159-161 | appending a stage of another type to stages with no releasability stage keeps none |
| Burgr.LastOfTypeIsLast | main/release/utils/burgr.py:159-161 | the reversed search finds the last stage of the type, or proves there is none |
| Burgr.EarlierFinishedStageIgnored | main/release/utils/burgr.py:159-166 | an unfinished last releasability stage gives "still running" although an earlier one finished, which alone would have been returned |
| Burgr.LatestFinishedStageIff | main/release/utils/burgr.py:159-166 | a stage is returned exactly when the last releasability stage exists and its status is final, and it is that stage (also utils/burgr.py:145-152, steps/relesability.py:94-101) |
| Burgr.PollReturnsFirstFinished | main/release/utils/burgr.py:122-128 | a successful poll returns the stage of the first answer that had a finished one, all earlier answers having been "still running" |
| Burgr.CheckObjectFields | main/release/utils/burgr.py:25-30 | a check record yields its name and state, and its message with "" as default |
| Burgr.FormatRaCheckForms | main/release/utils/burgr.py:25-30 | a passed check formats as `* ✅ name: PASSED`; any other state as `* ❌ name: STATE - message`, message defaulting to "" |
| Burgr.PrependFormatted | main/release/utils/burgr.py:35 | a formatted line in front of formatted lines keeps the lines paired with their checks |
| Burgr.FormatChecksKeepsRelevantInOrder | main/release/utils/burgr.py:33-35 | the report lines are the formatted checks that are not `NOT_RELEVANT`, in their order |
| Burgr.StartAcceptedIff | main/release/utils/burgr.py:91-96 | the start is accepted exactly when the status is 200 and the message is `done` (also utils/burgr.py:77-83, steps/relesability.py:29-35) |
| Burgr.StatusPassedOrRaises | main/release/utils/burgr.py:122-139 | the newer client returns only for a passed stage, and then its metadata; any other final status raises the failure report; a timeout becomes `Releasability timed out` |
| Burgr.OlderClientsIgnoreStatus | utils/burgr.py:63-126 | the older clients return the metadata of a finished stage whatever its status, post to the start URL of the version, and poll only after an accepted start (also steps/relesability.py:15-74) |
| Burgr.FormatChecksStep | main/release/utils/burgr.py:35 | a `NOT_RELEVANT` check is skipped; any other puts its line before the rest |
| Burgr.PassedLine | main/release/utils/burgr.py:25-30 | the line of a passed check |
| Burgr.FailedLine | main/release/utils/burgr.py:25-30 | the line of a check in any other state, with its message |
| Burgr.FailureReportIsRelevantLines | main/release/utils/burgr.py:33-40 | the failure raised for a finished stage carries the relevant checks' lines, in order, joined by newlines |
| BuildInfo.GetPropertyFollowsPath | main/release/utils/buildinfo.py:7-11 | the property is the value at `buildInfo.properties.name` when every key is there, and the default as soon as one is missing (also main/utils/buildinfo.py:7-11, utils/artifactory.py:116-120) |
| BuildInfo.VersionIsLastField | main/release/utils/buildinfo.py:16-17 | the version exists exactly when the first module id does; it is a colon-free suffix of the id preceded by a colon unless it is the whole id, so `g:a:v` gives `v` (also main/utils/buildinfo.py:16-17, utils/artifactory.py:125-126) |
| BuildInfo.RevokeSwapsRepos | main/release/utils/buildinfo.py:19-28 | revoking gives the promotion's source and target repositories swapped |
| BuildInfo.MissingRepositoryRaisesKeyError | main/release/utils/buildinfo.py:20 | a first status without `repository` raises `KeyError` |
| BuildInfo.TypedRepository | main/release/utils/buildinfo.py:21-27 | the type of `name-type` is `type`, and replacing it where it occurs only at the end swaps the suffix |
| BuildInfo.PromoteReposOfTypedRepository | main/release/utils/buildinfo.py:19-28 | for a repository `name-type` whose type occurs only at its end, promotion goes from `name-builds` to `name-releases` and revocation the other way |
| BuildInfo.ArtifactsToPublishFallback | main/release/utils/buildinfo.py:30-39 | the module property wins, the build property follows, and with neither the result is "" rather than None (also main/utils/buildinfo.py:19-28, utils/artifactory.py:128-137) |
| BuildInfo.IsPublicIffContains | main/release/utils/buildinfo.py:41-46 | for a text value the build is public exactly when the text contains `org.sonarsource` (also main/utils/buildinfo.py:44-49) |
| BuildInfo.PackageIsLeadingGroup | main/release/utils/buildinfo.py:48-55 | the package is the start of the artifacts text up to the first `,` or `:` (also main/utils/buildinfo.py:51-58) |
| BuildInfo.CompareGroups | main/utils/buildinfo.py:37-42 | the loop answers true exactly when some entry's three-character prefix differs from the first entry's; index `i - 1` over `0..n-1` visits every entry |
| BuildInfo.IsMulti | main/utils/buildinfo.py:30-42 | no artifacts or exactly one gives false; a truthy non-text value raises; otherwise true exactly when the entries' prefixes are not all the first one's (also utils/artifactory.py:139-151) |
| Binaries.GetBinariesRepo | main/release/utils/binaries.py:17-22 | commercial repository exactly when the group id starts with `com.`, the open-source one exactly otherwise |
| Binaries.ChecksumUploads | main/release/utils/binaries.py:38-40 | one upload per checksum, in order, each from `<temp>.<sum>` to `<key>.<sum>` |
| Binaries.SonarQubeRenamed | main/release/utils/binaries.py:24-33 | upload and deletion agree on `<repo>/sonarqube/sonarqube-<version>.zip` for the SonarQube distribution (also lines 55-60) |
| Binaries.UploadPlanShape | main/release/utils/binaries.py:24-53 | an upload writes the file, then its four checksums in order, and for the Eclipse update site also unpacks it under `SonarLint-for-Eclipse/releases/<version>`; the update site's key is under that directory |
| Binaries.DeleteCoversUpload | main/release/utils/binaries.py:55-67 | outside the update site, revocation deletes the file's key and the dotted prefix, and every key the upload wrote is one of these |
| Binaries.SiteKeysFirstCharacters | main/release/utils/binaries.py:30-33 | the update site's upload key lies under the SonarLint directory while its deletion key lies under the distribution repository (lines 55-60) |
| Binaries.SiteDeleteMissesUpload | main/release/utils/binaries.py:55-67 | for the update site, no key the upload wrote equals or extends the deletion key: revocation leaves the published site in place |
| Binaries.Binaries.constructor | main/release/utils/binaries.py:14-15 | keeps the bucket name |
| Binaries.Binaries.S3Upload | main/release/utils/binaries.py:24-53 | the calls made are the upload plan up to and including the first one that raises, and the result is that failure or success |
| Binaries.Binaries.S3Delete | main/release/utils/binaries.py:55-67 | the calls made are the deletion of the key and then of the dotted prefix, stopping at the first that raises |
| Distribute.DistributesOnlyWhenPublic | steps/distribute.py:5-9 | after the build info is fetched, the build is distributed exactly when the public check answers true, and no other call is made |
| Distribute.DistributesWhenTextNamesPublicGroup | steps/distribute.py:15-20 | with no declared artifacts nothing is distributed; with a text of artifacts the build is distributed exactly when that text contains `org.sonarsource` |
| Distribute.DistributeReraises | steps/distribute.py:7-12 | an exception of the public check or of the distribution is the step's own outcome, unchanged |
| Distribute.DistributeRelease | steps/distribute.py:5-12 | the calls made and the outcome are those of the fetch-check-distribute sequence, stopping at the first exception |
| Release.GetAction | main/release/utils/release.py:25-29 | the verb is "deleting" exactly on revocation and "publishing" exactly otherwise |
| Release.ParseThreeFields | main/release/utils/release.py:47-61 | an entry `gid:aid:ext` yields those three fields and an empty qualifier, and its file is `aid-version.ext` |
| Release.ParseFourFields | main/release/utils/release.py:47-61 | a fourth field becomes the qualifier, later fields are ignored, and a non-empty qualifier gives the file `aid-version-qual.ext` |
| Release.ShortEntryRaises | main/release/utils/release.py:49-52 | an entry with fewer than three `:`-separated fields raises before any call |
| Release.RevokeOnlyDeletes | main/release/utils/release.py:62-63 | revoking an entry makes only the two deletions of its binaries key, with no download and no upload |
| Release.PublishDownloadsThenUploads | main/release/utils/release.py:56-66 | publishing an entry downloads it with its checksums from the repository with `builds` turned into `releases`, then uploads it under its file name, and deletes nothing |
| Release.PublishEntriesInOrder | main/release/utils/release.py:39-44 | when every entry parses and nothing raises, the calls are the entries' plans concatenated in the listed order and the outcome is success |
| Release.NoArtifactsNoCalls | main/release/utils/release.py:36-37 | a build without declared artifacts makes no call at all |
| Release.PublishAllUsesDeployRepo | main/release/utils/release.py:32-44 | with declared artifacts, the run is the chain over the `,`-separated entries, with the build's version and the deploy repository with `qa` turned into `builds` |
| Release.UnpromoteCalls | main/release/utils/release.py:11-16 | the build info is fetched, then the build is unpromoted, and the first of these that raises ends the sequence with its error |
| Release.RevokeUnpromotesFirst | main/release/utils/release.py:10-16 | revocation fetches first and a failed fetch raises at once; otherwise the first two calls are fetch and unpromote, and a failed unpromotion deletes nothing and re-raises its own error |
| Release.RevokeWithoutBinaries | main/release/utils/release.py:17-19 | without a binaries client, revocation only fetches and unpromotes, and succeeds |
| Release.RevokeReraisesDeletionError | main/release/utils/release.py:17-22 | with a binaries client, revocation's calls and outcome are those of the deletion, its error re-raised unchanged |
| Release.GatePasses | main/release/utils/release.py:73-79 | with the version passed to Burgr, when the checks start and report without raising, exactly the start and status calls for the request's version and the output call are made and the gate succeeds; the request is the one given, else the one read from GitHub |
| Release.GateStartFailure | main/release/utils/release.py:76-83 | with the version passed to Burgr, when starting the checks raises, Slack is told the release failed, the GitHub release is revoked, and the start error is raised again |
| Release.GateStatusFailure | main/release/utils/release.py:76-83 | with the version passed to Burgr, when the status raises, the same clean-up follows and the status error is raised again |
| Release.GateAsWrittenNeverPasses | main/release/utils/release.py:73-83 | as written, every gate ends in an error and its only calls are the Slack notice and the GitHub revocation: the checks are never started and the output is never set |
| Release.GateAsWrittenAlwaysFails | main/release/utils/release.py:76-83 | wherever the corrected gate passes, the gate as written notifies Slack, revokes the GitHub release and raises `TypeError` for the missing `version` argument |
| Release.PublishArtifact | main/release/utils/release.py:47-66 | the calls made and the outcome are those of the entry's plan, stopping at the first call that raises |
| Release.PublishAllArtifactsToBinaries | main/release/utils/release.py:32-44 | the calls made and the outcome are those of publishing every declared entry of the build |
| Release.PublishEach | main/release/utils/release.py:42-44 | the loop's calls and outcome are the chain of the entries' runs: each in order, stopping at the first that raises |
| Release.RevokeRelease | main/release/utils/release.py:10-22 | the calls made and the outcome are those of fetch, unpromote and, with a binaries client, deletion of every declared entry |
| Release.ReleasabilityChecks | main/release/utils/release.py:73-83 | the calls made and the outcome are those of the corrected gate (the version passed to Burgr), including the request read from GitHub when none is given |
| StepsRelease.AsWrittenNeverUploads | steps/release.py:55-71 | as written, every entry whose download succeeds raises a `TypeError` from the five-argument upload call (utils/binaries.py:16 takes four), where the corrected step downloads, uploads and answers the file's URL |
| StepsRelease.AsWrittenAgreesBeforeUpload | steps/release.py:55-70 | wherever the upload is not reached (unparsable entry or failed download) both versions raise the same exception |
| StepsRelease.ReleaseUrlIsUploadKey | utils/binaries.py:24-29 | outside commercial groups and the SonarQube rename, the older action's release URL is the binaries host followed by the newer action's upload key |
| StepsRelease.NoArtifactsEmptyUrl | steps/release.py:37-52 | a build without declared artifacts makes no call and answers the empty URL |
| StepsRelease.SingleEntryShortcut | steps/release.py:44-47 | the early return for a single entry answers exactly what the loop over one entry would |
| StepsRelease.PublishesOne | steps/release.py:55-71 | an entry that parses and whose calls do not raise makes two calls, download then upload, and answers the file's URL |
| StepsRelease.PublishSeqReturnsLast | steps/release.py:48-52 | when every entry publishes, each is downloaded then uploaded in the listed order and the answer is the URL of the last entry |
| StepsRelease.PublishSeqStopsAtFailure | steps/release.py:48-52 | the first entry that raises ends the publication: the earlier entries' two calls each, then that entry's calls, and its exception |
| StepsRelease.ReleaseSucceeds | steps/release.py:8-19 | when nothing raises, the calls are fetch, promote, the publication, Burgr 'passed', and the rules coverage only when asked for |
| StepsRelease.ReleasePromoteFailure | steps/release.py:15-24 | a failed promotion publishes nothing and never reports 'passed'; Burgr hears 'failed' and the promotion's exception is raised again |
| StepsRelease.ReleasePublishFailure | steps/release.py:15-24 | a failed publication skips 'passed' and the rules coverage; Burgr hears 'failed' and the publication's exception is raised again |
| StepsRelease.ReleaseFailureReported | steps/release.py:21-24 | any exception after the fetch ends with a 'failed' report to Burgr, and the original exception is raised unless that report raises |
| StepsRelease.ReleaseFetchFailure | steps/release.py:14 | a fetch that raises ends the step before any report |
| StepsRelease.RevokeAsWrittenNeverUnpromotes | steps/release.py:26-32 | as written the unpromotion passes an argument the older promotion does not take, so a revocation never unpromotes and always raises; the corrected one fetches, unpromotes and succeeds when nothing raises |
| StepsRelease.PublishOne | steps/release.py:55-71 | the calls made and the answer are those of the corrected entry publication |
| StepsRelease.PublishEach | steps/release.py:48-52 | the loop's calls and answer are those of publishing the entries in order, keeping the last URL and stopping at the first exception |
| StepsRelease.PublishAllArtifacts | steps/release.py:35-52 | the calls and answer are those of the publication of the build's declared entries, with the single-entry shortcut |
| StepsRelease.ReleaseBody | steps/release.py:16-19 | the calls and outcome are the chain promote, publish, report 'passed', rules coverage, stopping at the first exception |
| StepsRelease.ReleaseStep | steps/release.py:8-24 | the calls and outcome are those of the whole release step, with the 'failed' report on an exception |
| StepsRelease.RevokeStep | steps/release.py:26-32 | the calls and outcome are those of the corrected revocation: fetch, then unpromote |
| VersionPattern.SpanDigits | main/release/utils/github.py:48 | the length read is that of the longest run of ASCII digits the text starts with |
| VersionPattern.MatchNumbersOfShape | main/release/utils/github.py:48-49 | every text made of three dotted numbers, an optional `-M<digits>` milestone, one allowed separator and a build number matches, capturing that build number |
| VersionPattern.MatchNumbersHasShape | main/release/utils/github.py:48-49 | conversely, every text that matches is three dotted numbers, an optional milestone, an allowed separator and the captured build number |
| VersionPattern.MatchVersionOfShape | main/release/utils/github.py:48-50 | a version of that shape matches up to `$`, and so does the same version followed by one newline, with the same build number |
| VersionPattern.MatchVersionHasShape | main/release/utils/github.py:48-50 | every version that matches up to `$` is of that shape, possibly followed by one newline |
| GitHub.NewGitHub | main/release/utils/github.py:25-33 | the object is made exactly when the event name is `release` or `workflow_dispatch` or the run is dry, holding the token and the event; otherwise `GitHubException` is raised |
| GitHub.SplitRepo | main/release/utils/github.py:39-40 | a split that succeeds gives two halves whose join with `/` is the repository's full name |
| GitHub.SplitRepoOf | main/release/utils/github.py:39-40 | an organisation and a project free of `/` are read back from `org/project` |
| GitHub.BranchName | main/release/utils/github.py:52-54 | without a release the branch is `master` |
| GitHub.FakeReleaseRequest | main/release/utils/github.py:64-74 | the dry-run request carries the placeholder version `?.?.?.????` and build number `????` |
| GitHub.RequestFromEvent | main/release/utils/github.py:35-62 | a request that is made reads everything from the event: the two halves of the full name, the tag (or input) as version, matching the tag pattern with the build number as its group, the branch of the release, and the given commit |
| GitHub.RequestOfParts | main/release/utils/github.py:35-62 | conversely, those parts read from the event make exactly that request |
| GitHub.UnmatchedTagRefused | main/release/utils/github.py:48-51 | a version that does not match the tag pattern is refused with `GitHubException` and its message |
| GitHub.RequestOfRelease | main/release/utils/github.py:44-62 | a release event whose tag has the pattern's shape gives the request with that tag, its build number, and the release's target unless that is a 40-hex commit SHA, in which case `master` |
| GitHub.RequestOfManualRun | main/release/utils/github.py:44-54 | a run without a release takes the version from the `version` input and the branch `master` |
| GitHub.CommitShaTargetIsMaster | main/release/utils/github.py:55-58 | a target of forty lowercase hex characters gives `master`; a target of any other length than 40 or 41 is kept |
| GitHub.RevokeRelease | main/release/utils/github.py:76-86 | at most two requests, none in a dry run or without a release, and the first is the patch that makes the release a draft |
| GitHub.RevokeWithoutRelease | main/release/utils/github.py:76-80 | in a dry run or without a release, nothing is requested and nothing raised |
| GitHub.RevokeDraftsThenDeletesTag | main/release/utils/github.py:81-86 | with a release, the release is patched to a draft under its own tag, then the tag's reference `git_refs_url` with `{/sha}` turned into `/tags/<tag>` is deleted, both with the token header |
| GitHub.PublishToBinariesCaseInsensitive | main/release/utils/github.py:88-90 | unset means no; a set input means yes exactly when it reads `true` in any letter case |
| LegacyGitHub.ReleaseInfoMatchesTag | utils/github.py:17-23 | without a version the event's release is returned; with one, the release exactly when its `tag_name` is that version, and `None` exactly otherwise |
| LegacyGitHub.RepositoryFullName | utils/github.py:25-26 | the answer exists exactly when the event has a repository with a `full_name`, and is that name |
| LegacyGitHub.CurrentBranch | utils/github.py:31-32 | a branch is read only from an event that has a release |
| LegacyGitHub.UploadUrlWithoutTemplate | utils/github.py:34-36 | an upload URL without the `{?name,label}` template is used unchanged |
| LegacyGitHub.RevokeWith | utils/github.py:42-53 | at most two requests, made only when the release has an id, and the first makes the release a draft |
| LegacyGitHub.RevokeWithoutId | utils/github.py:43-44 | without a truthy release id nothing is requested, as written and as intended |
| LegacyGitHub.AsWrittenNumericIdRaises | utils/github.py:46 | as written, a numeric release id makes `str.replace` raise `TypeError` before any request |
| LegacyGitHub.RevokeDraftsThenDeletesTag | utils/github.py:45-52 | as intended, the release at `releases_url` with `/<id>` is made a draft under its tag, then `<api>/repos/<full name>/git/refs/tags/<tag>` is deleted, both with the token header |
| Vault.NewVaultClient | scripts/re-sign/vault_utils.py:12-14 | the kept URL is the given one with only its trailing slashes removed, and the token is kept |
| Vault.SecretUrlSingleSlash | scripts/re-sign/vault_utils.py:13-30 | however many slashes the configured URL ends with, exactly one separates it from `v1/<path>` |
| Vault.UnwrapKvV2 | scripts/re-sign/vault_utils.py:38-45 | on a KV version 2 path, `{"data": {"data": S}}` unwraps to S, and without the inner `data` to the inner map |
| Vault.UnwrapOtherEngine | scripts/re-sign/vault_utils.py:46-51 | on other paths a single level is unwrapped even when the inner map has `data`; a body without `data` is the secret itself on any path |
| Vault.ReadSecretKey | scripts/re-sign/vault_utils.py:53-62 | a key's value is its text, or "" when missing or `None`; an HTTP error always raises `RuntimeError` |
| Vault.ReadSecretWhole | scripts/re-sign/vault_utils.py:53-59 | without a key (or with an empty one) the answer is the JSON text of the whole secret map |
| Vault.RoleName | scripts/re-sign/vault_utils.py:74-85 | every role name starts with `SonarSource-` |
| Vault.RoleNameOfOwner | scripts/re-sign/vault_utils.py:78-85 | a given owner yields a name without underscores, ending with the owner's name with underscores turned into dashes, and prefixed only when needed |
| Vault.RoleNameKeepsPrefixed | scripts/re-sign/vault_utils.py:74-85 | an owner already prefixed and free of underscores is kept as it is; a missing or empty owner gives the default role, which keeps its underscore |
| ResignBinariesJar.ParseJarUrl | scripts/re-sign/resign_binaries_jar.py:62-86 | a parsed URL gives a bucket key without leading slash whose last segment is the file name, ending in `.jar`; every refusal is a `ValueError` with one of the two messages |
| ResignBinariesJar.ParseJarUrlOf | scripts/re-sign/resign_binaries_jar.py:72-86 | a path `/dir/name` gives the key `dir/name` and the name exactly when the name ends in `.jar`, and is refused as not a JAR otherwise |
| ResignBinariesJar.ParseJarUrlWithoutPath | scripts/re-sign/resign_binaries_jar.py:75-78 | a path made only of slashes, or none, is refused as an invalid URL |
| ResignBinariesJar.SbomUrlsOfStem | scripts/re-sign/resign_binaries_jar.py:133-146 | a URL whose only `.jar` is its ending has its two SBOMs beside it, as `-cyclonedx.json` and `-cyclonedx.xml` |
| ResignBinariesJar.DownloadFile | scripts/re-sign/resign_binaries_jar.py:89-130 | False exactly for a 404 or 403 answer; True exactly for an answer without error status; an error status raises the HTTP error and any other exception propagates, except that a 404 or 403 carried by the exception gives False |
| ResignBinariesJar.SessionCredentials | scripts/re-sign/resign_binaries_jar.py:185-192 | explicit credentials are used exactly when both the key id and the secret are given, and then they are those |
| ResignBinariesJar.SignatureKey | scripts/re-sign/resign_binaries_jar.py:171-173 | the signature key is the object's key followed by `.asc` |
| ResignBinariesJar.UploadSignature | scripts/re-sign/resign_binaries_jar.py:149-198 | no upload exactly in a dry run, otherwise one, of the local signature to the signature key in the given bucket |
| ResignBinariesJar.IssueUploads | scripts/re-sign/resign_binaries_jar.py:304-363 | the uploads attempted are a prefix of those planned, and all of them when the run succeeds |
| ResignBinariesJar.IssueUploadsStops | scripts/re-sign/resign_binaries_jar.py:304-363 | the uploads succeed exactly when none is rejected; otherwise they stop at the first rejected one, the last attempted |
| ResignBinariesJar.PlannedUploads | scripts/re-sign/resign_binaries_jar.py:298-351 | no upload exactly in a dry run; at most three, the JAR's signature first, every one to the bucket under a `.asc` key |
| ResignBinariesJar.ProcessJarUrl | scripts/re-sign/resign_binaries_jar.py:225-363 | success requires a parsed URL and a downloaded JAR; uploads happen only outside a dry run, go to `.asc` keys in the bucket, are at most three, and none was rejected when the URL succeeds |
| ResignBinariesJar.AbsentJarFails | scripts/re-sign/resign_binaries_jar.py:263-266 | without the JAR itself nothing is uploaded and the URL fails |
| ResignBinariesJar.DryRunUploadsNothing | scripts/re-sign/resign_binaries_jar.py:298-357 | a dry run uploads nothing and succeeds once the URL parses, the JAR is fetched and its signature made |
| ResignBinariesJar.ParseJarPathOfStem | scripts/re-sign/resign_binaries_jar.py:72-86 | the path `/dir/stem.jar` parses to the key `dir/stem.jar` and the name `stem.jar` |
| ResignBinariesJar.FullRunUploadsThreeSignatures | scripts/re-sign/resign_binaries_jar.py:225-357 | a JAR found with both SBOMs, all three signed, gets the three signatures uploaded beside the originals in the order JAR, JSON, XML, and succeeds |
| ResignBinariesJar.PlannedUploadsOfStem | scripts/re-sign/resign_binaries_jar.py:304-349 | the three planned uploads take each local signature to the original's key with `.jar` replaced and `.asc` added |
| ResignBinariesJar.UrlLines | scripts/re-sign/resign_binaries_jar.py:216-220 | the kept lines are no more than the lines and each is neither empty nor a `#` comment |
| ResignBinariesJar.UrlLinesIff | scripts/re-sign/resign_binaries_jar.py:216-220 | a text is kept exactly when it is one of the stripped lines and names a URL |
| ResignBinariesJar.ListedUrls | scripts/re-sign/resign_binaries_jar.py:201-222 | a file lists no more URLs than it has lines |
| ResignBinariesJar.ListedUrlsIff | scripts/re-sign/resign_binaries_jar.py:201-222 | a URL is listed exactly when some line strips to it and it is neither empty nor a comment |
| ResignBinariesJar.ReadUrlsFromFile | scripts/re-sign/resign_binaries_jar.py:201-222 | the loop over the lines yields exactly the listed URLs, in order |
| ResignBinariesJar.UrlsToProcess | scripts/re-sign/resign_binaries_jar.py:402-451 | URLs are processed only with a Vault token and at least one URL; a file yields its listed URLs; a missing token is a usage error with its message |
| ResignBinariesJar.FailedUrls | scripts/re-sign/resign_binaries_jar.py:454-476 | there are no more failed URLs than URLs |
| ResignBinariesJar.Successes | scripts/re-sign/resign_binaries_jar.py:454-476 | there are no more successes than URLs |
| ResignBinariesJar.FailedUrlsCount | scripts/re-sign/resign_binaries_jar.py:454-476 | successes and failures add up to the URLs processed, and nothing failed exactly when every URL succeeded |
| ResignBinariesJar.FailedUrlsIff | scripts/re-sign/resign_binaries_jar.py:474-476 | a URL is listed as failed exactly when it sits at a position whose processing failed |
| ResignBinariesJar.Summarise | scripts/re-sign/resign_binaries_jar.py:453-493 | the counters and the failed list are those of the outcomes, they add up to the URLs, and the exit status is 1 exactly when some URL failed |
| UploadMissingToBinaries.ParseBinariesUrl | scripts/re-sign/upload_missing_to_binaries.py:57-95 | a parsed URL gives a distribution and an artifact free of `/`, a non-empty version, and the key (the path without leading slashes) under `dist/artifact/`; every refusal is a `ValueError` with its message |
| UploadMissingToBinaries.ParseBinariesUrlOf | scripts/re-sign/upload_missing_to_binaries.py:68-95 | the URL of `artifact-version.jar` in its distribution's artifact folder gives all four parts back |
| UploadMissingToBinaries.ParseBinariesUrlTooShort | scripts/re-sign/upload_missing_to_binaries.py:77-79 | a path of fewer than three parts is refused with its message |
| UploadMissingToBinaries.ExtractDirectoryOf | scripts/re-sign/upload_missing_to_binaries.py:152-161 | the directory of `dir/file` is `dir`, and a path without `/` has the empty directory |
| UploadMissingToBinaries.SearchArtifact | scripts/re-sign/upload_missing_to_binaries.py:98-149 | a dry run answers the placeholder path; otherwise an answer is the first hit's non-empty path |
| UploadMissingToBinaries.DryRunFolderOfSearch | scripts/re-sign/upload_missing_to_binaries.py:112-114 | in a dry run the artifact's folder is the placeholder folder named after the artifact and version |
| UploadMissingToBinaries.Unsigned | scripts/re-sign/upload_missing_to_binaries.py:211-217 | no more files kept than downloaded, and none kept is a `.asc` signature |
| UploadMissingToBinaries.UnsignedIff | scripts/re-sign/upload_missing_to_binaries.py:211-217 | a file is kept exactly when it was downloaded and is not a signature |
| UploadMissingToBinaries.DownloadFromRepo | scripts/re-sign/upload_missing_to_binaries.py:164-226 | nothing in a dry run or when the download fails, else exactly the downloaded files that are not signatures |
| UploadMissingToBinaries.FileUploads | scripts/re-sign/upload_missing_to_binaries.py:370-403 | a file is uploaded under `dist/artifact/<basename>`, followed by its signature under that key plus `.asc` exactly when the signature exists, all to the bucket with the session's credentials |
| UploadMissingToBinaries.AllUploads | scripts/re-sign/upload_missing_to_binaries.py:370-403 | between one and two uploads per file |
| UploadMissingToBinaries.AllUploadsUnderArtifact | scripts/re-sign/upload_missing_to_binaries.py:370-403 | every upload goes to the bucket under the artifact's folder of its distribution |
| UploadMissingToBinaries.UploadFiles | scripts/re-sign/upload_missing_to_binaries.py:370-411 | the loop's uploads and verdict are those of the planned uploads, file after file, stopping at the first that raises |
| UploadMissingToBinaries.ProcessUrl | scripts/re-sign/upload_missing_to_binaries.py:305-411 | the uploads and the verdict are those of parsing, searching, stopping in a dry run, downloading, signing and uploading file by file |
| UploadMissingToBinaries.ProcessUrlWithoutFiles | scripts/re-sign/upload_missing_to_binaries.py:341-361 | a dry run uploads nothing; without downloaded files the URL fails and nothing is uploaded |
| UploadMissingToBinaries.ProcessUrlUploadsUnderArtifact | scripts/re-sign/upload_missing_to_binaries.py:332-406 | every upload of a URL lands in the bucket under its distribution's artifact folder, and a success means no upload was refused |
| UploadMissingToBinaries.DropMarker | scripts/re-sign/upload_missing_to_binaries.py:296 | removing the list marker never lengthens a line |
| UploadMissingToBinaries.UrlOfLine | scripts/re-sign/upload_missing_to_binaries.py:289-300 | a line gives a URL only when it is neither empty nor a comment, and the URL starts with `http` |
| UploadMissingToBinaries.UrlsOfLinesIff | scripts/re-sign/upload_missing_to_binaries.py:285-302 | a URL is listed exactly when some stripped line gives it, so every listed URL starts with `http` |
| UploadMissingToBinaries.BulletedLine | scripts/re-sign/upload_missing_to_binaries.py:295-300 | a bulleted line with any marker and any spaces gives the URL after the bullet |
| UploadMissingToBinaries.ReadUrlsFromFile | scripts/re-sign/upload_missing_to_binaries.py:276-302 | the loop over the lines yields exactly the URLs the stripped lines give, in order |
| ArtifactoryUtils.ShouldUploadToMavenCentral | scripts/re-sign/artifactory_utils.py:896-915 | the loop over the entries answers the specification: no for empty or absent artifacts, else whether some entry's group starts with `org.sonarsource`, and a truthy non-text value raises |
| ArtifactoryUtils.CentralWantedOfEntries | scripts/re-sign/artifactory_utils.py:905-915 | for artifacts written as comma-separated entries, Maven Central is a target exactly when one entry is public |
| ArtifactoryUtils.IdFields | scripts/re-sign/artifactory_utils.py:434-436 | the fields of an id that has a `:` are its `:`-split |
| ArtifactoryUtils.IdFieldsOfJoin | scripts/re-sign/artifactory_utils.py:434-436 | an id of at least two `:`-free fields is split back into those fields |
| ArtifactoryUtils.FirstModuleGroupOfId | scripts/re-sign/artifactory_utils.py:431-436 | the group read is the first field of the first module's id |
| ArtifactoryUtils.UploadRepository | scripts/re-sign/artifactory_utils.py:428-451 | the repository choice only raises a `TypeError`; the key, index and attribute errors it catches leave the public default |
| ArtifactoryUtils.UploadRepositoryOfGroup | scripts/re-sign/artifactory_utils.py:435-440 | a `com.sonarsource` group gives the private releases repository, an `org.sonarsource` one the public releases repository |
| ArtifactoryUtils.UploadRepositoryFromStatus | scripts/re-sign/artifactory_utils.py:441-449 | for any other group, a first status naming builds gives its releases twin, one naming releases is kept, and any other leaves the public default |
| ArtifactoryUtils.PromotionRepos | scripts/re-sign/artifactory_utils.py:764-782 | the promotion moves between the public builds and releases or between the private ones, and only a `TypeError` escapes |
| ArtifactoryUtils.PromoteBuildToReleases | scripts/re-sign/artifactory_utils.py:744-819 | a dry run sends nothing and succeeds; at most one request is sent, and the promotion succeeds exactly when it was sent and answered 200, 201 or 204 |
| ArtifactoryUtils.PromoteOfGroup | scripts/re-sign/artifactory_utils.py:768-782 | a private group is promoted from private builds to private releases, any other between the public repositories |
| ArtifactoryUtils.NextSlash | scripts/re-sign/artifactory_utils.py:587 | the position found is the first `/` at or after the start, and none means there is no `/` there |
| ArtifactoryUtils.QuadSearch | scripts/re-sign/artifactory_utils.py:587 | a version found is four dot-separated digit runs |
| ArtifactoryUtils.QuadSearchSkips | scripts/re-sign/artifactory_utils.py:587 | positions without `/` are passed over by the search |
| ArtifactoryUtils.QuadSearchFinds | scripts/re-sign/artifactory_utils.py:587-589 | a four-part version between the first two slashes of a path is what the search finds |
| ArtifactoryUtils.IdsOf | scripts/re-sign/artifactory_utils.py:592-595 | the error message lists one id per module |
| ArtifactoryUtils.OldVersion | scripts/re-sign/artifactory_utils.py:570-595 | an extracted old version is never empty |
| ArtifactoryUtils.OldVersionIsThirdField | scripts/re-sign/artifactory_utils.py:574-579 | a first module id whose third field is non-empty gives that field |
| ArtifactoryUtils.OldVersionFromPath | scripts/re-sign/artifactory_utils.py:581-589 | a first module id without `:` leaves the version to the four-part version in the first artifact's path |
| ArtifactoryUtils.LastFieldRewrite | scripts/re-sign/artifactory_utils.py:219-225 | the last field of the id is replaced by the new version and every other field is kept (also lines 882-889) |
| ArtifactoryUtils.ThirdFieldRewrite | scripts/re-sign/artifactory_utils.py:369-375 | field 2 of the id is replaced by the new version and every other field is kept |
| ArtifactoryUtils.IdRewritesAgreeOnlyOnThreeFields | scripts/re-sign/artifactory_utils.py:219-225 | the manual rebuild's rewrite and the export rewrite (lines 369-375) agree on `group:artifact:version` ids and differ on ids with a classifier, one replacing the classifier and the other the version |
| ArtifactoryUtils.RenameExportedModules | scripts/re-sign/artifactory_utils.py:360-375 | each exported module with an original at the same position takes the original's id with the new version as field 2 when that id has at least three fields; every other module keeps its id |
| ArtifactoryUtils.LocalAt | scripts/re-sign/artifactory_utils.py:247-248 | a file is found under a path exactly when the path is among the local paths, and it is the one stored there |
| ArtifactoryUtils.AltPaths | scripts/re-sign/artifactory_utils.py:251-260 | three alternative spellings, four when the path has a `/` |
| ArtifactoryUtils.FirstKnown | scripts/re-sign/artifactory_utils.py:262-267 | a spelling found is one of the candidates and a local path |
| ArtifactoryUtils.ByName | scripts/re-sign/artifactory_utils.py:269-276 | a file found by name is a local file with that name |
| ArtifactoryUtils.Locate | scripts/re-sign/artifactory_utils.py:246-276 | a file found is one of the local files |
| ArtifactoryUtils.LocateOrder | scripts/re-sign/artifactory_utils.py:246-276 | an exact hit wins; otherwise the first alternative spelling that is a local path; the name scan runs only when no spelling is local |
| ArtifactoryUtils.FirstKnownFinds | scripts/re-sign/artifactory_utils.py:262-267 | some candidate is local exactly when a first local candidate is found |
| ArtifactoryUtils.LocateArtifact | scripts/re-sign/artifactory_utils.py:246-276 | the lookup with its dictionary hit and its two loops finds exactly what the specification names |
| ArtifactoryUtils.RebuiltArtifact | scripts/re-sign/artifactory_utils.py:278-306 | a rebuilt artifact comes from an original dictionary and is a dictionary |
| ArtifactoryUtils.RebuiltArtifactFields | scripts/re-sign/artifactory_utils.py:278-306 | an artifact found locally is named by the file it was found as, keeps its type and size and carries that file's checksums; one not found keeps every other field and is named by the path with the new version |
| ArtifactoryUtils.RebuiltArtifacts | scripts/re-sign/artifactory_utils.py:234-306 | a rebuild that succeeds gives one artifact per original |
| ArtifactoryUtils.RebuiltArtifactsStops | scripts/re-sign/artifactory_utils.py:234-306 | an exception while rebuilding a prefix is the exception of the whole rebuild |
| ArtifactoryUtils.RebuildArtifacts | scripts/re-sign/artifactory_utils.py:228-315 | the loop computes exactly the rebuilt artifacts, one per original, so the count check after it never raises |
| ArtifactoryUtils.RebuiltModule | scripts/re-sign/artifactory_utils.py:215-315 | a rebuilt module has artifacts exactly when the original had them, and as many |
| ArtifactoryUtils.RebuiltModules | scripts/re-sign/artifactory_utils.py:215-315 | a rebuild that succeeds gives one module per original |
| ArtifactoryUtils.RebuiltModulesKeepShape | scripts/re-sign/artifactory_utils.py:215-315 | rebuilding keeps each module's position, its having artifacts, and their count |
| ArtifactoryUtils.ValidateBuildInfo | scripts/re-sign/artifactory_utils.py:701-739 | validation passes exactly when the module counts and every module's artifact count agree; a count mismatch raises its message, and otherwise the first module whose artifacts differ is named |
| ArtifactoryUtils.RebuiltModulesHaveOriginalShape | scripts/re-sign/artifactory_utils.py:701-739 | a build info rebuilt by hand always has the original's shape, so its validation passes |
| ArtifactoryUtils.PollMavenCentralStatus | scripts/re-sign/artifactory_utils.py:1104-1175 | between 1 and 720 attempts with one sleep fewer; it returns at the first 2xx answer in a final state, raises on `FAILED`, and raises the timeout only after 720 unsettled attempts |
| ResignArtifacts.InitArtifactoryToken | scripts/re-sign/resign_artifacts.py:77-145 | the assignments of the constructor, fallback by fallback, read exactly the Vault paths of the specified search, in order, and end in its token or its `ValueError` |
| ResignArtifacts.ExplicitTokenWins | scripts/re-sign/resign_artifacts.py:85 | a non-empty explicit token is used as it is and no Vault path is read |
| ResignArtifacts.WithoutVaultUsesEnvironment | scripts/re-sign/resign_artifacts.py:134-143 | without a Vault token the environment's token is the only source and its absence raises `ValueError` |
| ResignArtifacts.ProjectRolesFirst | scripts/re-sign/resign_artifacts.py:88-106 | the project's own role is read first, its promoter role only when that read raised, and a non-empty token from either ends the search |
| ResignArtifacts.SkipsProjectStage | scripts/re-sign/resign_artifacts.py:88-93 | an empty project or the action's own name goes straight to the owner's or the default roles |
| ResignArtifacts.EnvironmentIsLastResort | scripts/re-sign/resign_artifacts.py:109-130 | when the project stage yields nothing, the token is the first second-stage read that does not raise, and the environment is consulted only after both raised |
| ResignArtifacts.EmptyVaultTokenHidesEnvironment | scripts/re-sign/resign_artifacts.py:117-138 | a second-stage read answering an empty token does not raise, so the environment's token is never consulted and the constructor raises `ValueError` |
| ResignArtifacts.DefaultOwnerPaths | scripts/re-sign/resign_artifacts.py:110-115 | the action's own name and an empty owner both read the default role's path |
| ResignArtifacts.LetterRun | scripts/re-sign/resign_artifacts.py:216 | the run counted is all letters and is followed by a non-letter or the end |
| ResignArtifacts.LetterRunThen | scripts/re-sign/resign_artifacts.py:216 | a letter prefix followed by a non-letter is exactly the run counted |
| ResignArtifacts.BuildNumberOfVersion | scripts/re-sign/resign_artifacts.py:215-225 | a version of the pattern's shape gives its build number |
| ResignArtifacts.BuildNumberOfPrefixedVersion | scripts/re-sign/resign_artifacts.py:215-225 | so does the same version behind a project prefix of letters and a dash |
| ResignArtifacts.SeparatorsAreNotDigits | scripts/re-sign/resign_artifacts.py:220 | none of `-`, `.` and `+` is a digit or a newline |
| ResignArtifacts.BuildNumberFallback | scripts/re-sign/resign_artifacts.py:226-231 | when the pattern does not match, a version ending in a separator and digits gives those digits |
| ResignArtifacts.BuildNumberIsDigitsOrOriginal | scripts/re-sign/resign_artifacts.py:215-235 | the new build number is all digits or else the original build number |
| ResignArtifacts.VersionWithoutDigitsKeepsBuildNumber | scripts/re-sign/resign_artifacts.py:232-235 | a version without any digit keeps the original build number |
| ResignArtifacts.BinariesBucketChoice | scripts/re-sign/resign_artifacts.py:147-149 | a configured bucket wins; without one and without the variable the default bucket is used; there is no bucket name only when the variable is set empty |
| ResignArtifacts.AfterImportNeverCleansUp | scripts/re-sign/resign_artifacts.py:208-310 | no step of the `try` after the key import is the key cleanup |
| ResignArtifacts.CleanupExactlyWhenImported | scripts/re-sign/resign_artifacts.py:185-316 | the key is cleaned up exactly when the steps up to its import returned, as the last call and once, and what the later steps raised is re-raised unchanged |
| ResignArtifacts.PassphraseFailureStillCleansUp | scripts/re-sign/pgp_utils.py:130-150 | the passphrase is read after the key is marked imported, so a failure to read it still has the key cleaned up by `run` |
| ResignArtifacts.RewriteAndUploadGated | scripts/re-sign/resign_artifacts.py:274-307 | the binaries upload happens only with a binaries client and artifacts to publish, the Maven Central one only when the build info asks for it |
| ResignArtifacts.UploadsAreGated | scripts/re-sign/resign_artifacts.py:274-307 | whatever raises, both uploads are gated on the build info created when there is one, else the original |
| ResignArtifacts.RunWithoutFailures | scripts/re-sign/resign_artifacts.py:185-316 | when nothing raises, every step is taken once in order: fetch, download, deletion, key import, passphrase, rewrites, signing, build info, the uploads decided on, cleanup |
| ResignArtifacts.CentralDecisionErrorStopsUploads | scripts/re-sign/resign_artifacts.py:278-316 | a Maven Central decision that raises comes before any upload, so nothing is uploaded, and the key is still cleaned up |
| ResignArtifacts.VersionErrorStopsRewrites | scripts/re-sign/resign_artifacts.py:209-316 | an original build info without a version stops the run before any rewrite, and the key is cleaned up |
| ResignArtifacts.RunAfterImport | scripts/re-sign/resign_artifacts.py:208-307 | the steps after the key import, call by call, are the specified steps and outcome |
| ResignArtifacts.RewriteAndUploadCalls | scripts/re-sign/resign_artifacts.py:210-307 | the rewrites and uploads, call by call, are the specified steps and outcome |
| ResignArtifacts.Run | scripts/re-sign/resign_artifacts.py:183-316 | `run`, call by call, makes the specified calls and ends in the specified outcome, with the cleanup in `finally` |
| SbomUtils.Glob | scripts/re-sign/sbom_utils.py:29 | a path is found exactly when it is under the directory and its last component ends with the suffix |
| SbomUtils.Collected | scripts/re-sign/sbom_utils.py:25-33 | a path is collected exactly when its name ends with one of the searched suffixes |
| SbomUtils.SbomFilesAreTheMatchingPaths | scripts/re-sign/sbom_utils.py:8-36 | a path is an SBOM file exactly when its name has one of the eight SBOM suffixes, and after removing duplicates there are no more files than paths |
| SbomUtils.SetVersion | scripts/re-sign/sbom_utils.py:78-80 | a dict whose version is the old one carries the new one afterwards and keeps its other fields; anything else is left alone |
| SbomUtils.ListItemsVersioned | scripts/re-sign/sbom_utils.py:82-94 | every component or package whose version is the old one carries the new one, the others and the other keys are left as they were, and the update is flagged exactly when one item had the old version |
| SbomUtils.RewriteDescribes | scripts/re-sign/sbom_utils.py:96-102 | each `documentDescribes` entry is rewritten in its place, non-strings are kept, and the update is flagged exactly when a string entry holds the old version |
| SbomUtils.UpdateAllVersionReferences | scripts/re-sign/sbom_utils.py:105-128 | the recursive loops leave the specified value behind, and raise the flag exactly when some reference field holds the old version or some version field equals it at any depth |
| SbomUtils.UntouchedUnchanged | scripts/re-sign/sbom_utils.py:105-125 | a value in which nothing sets the flag comes out of the pass as it went in |
| SbomUtils.RefValueUntouched | scripts/re-sign/sbom_utils.py:108-122 | a dict value that sets no flag is kept by the pass |
| SbomUtils.VersionIsNotRefKey | scripts/re-sign/sbom_utils.py:111-117 | a `version` key is never a reference key, so it reaches the exact-match branch |
| SbomUtils.PassLeavesNoOldVersionField | scripts/re-sign/sbom_utils.py:105-128 | when the versions differ, no `version` field at any depth holds the old version after the recursive pass |
| SbomUtils.DictRewrittenOnlyWhenUpdated | scripts/re-sign/sbom_utils.py:130-144 | a JSON dict is written only when a known field, the recursive pass or the text pass found the old version; text is written only when the text pass breaks the JSON; without a text pass the dict written is the one the passes left |
| SbomUtils.OtherFilesTextReplaced | scripts/re-sign/sbom_utils.py:145-161 | a file that is not a JSON dict is written exactly when the old version occurs in it, with every occurrence replaced |
| SbomUtils.AbsentVersionNoTextWrite | scripts/re-sign/sbom_utils.py:145-161 | a file whose text lacks the old version is never written as text |
| SbomUtils.Repository.constructor | scripts/re-sign/sbom_utils.py:39 | the repository holds the given files and those that cannot be written |
| SbomUtils.Repository.UpdateSbomVersions | scripts/re-sign/sbom_utils.py:39-164 | every SBOM file that can be read and written gets its new text, every other file keeps its own |
| SbomUtils.Repository.UpdateAll | scripts/re-sign/sbom_utils.py:60-164 | each given file in turn, a failing file skipped, leaves the specified repository |
| SbomUtils.Repository.UpdateOne | scripts/re-sign/sbom_utils.py:61-164 | one file is replaced by its new text and no other file changes |
| SbomUtils.FilesUpdatedIndependently | scripts/re-sign/sbom_utils.py:60-164 | what one file becomes depends only on its own text, so a failure on one file leaves the others' results alone |
| UploadMissingToBinaries.VersionOfFileName | scripts/re-sign/upload_missing_to_binaries.py:88-90 | a file name `<artifact>-<version>.jar` whose only `.jar` is its ending gives back exactly the version |
| Py.ReplaceCanLeaveOccurrence | scripts/re-sign/sbom_utils.py:132-136 | one `str.replace` pass can leave the old version behind even when the new one does not contain it: replacing `1.2` by `.` in `11.22` gives `1.2` |
| Py.ParseIntOfIntToString | main/release/releasability/releasability.py:54 | the build number parser reads back every natural number written by `str` |
| Py.ParseIntUnderscores | main/release/releasability/releasability.py:54 | like Python's `int()`, the build number parser drops an underscore between two digit groups: `a_b` parses to the value of the digits `ab` |
| Py.ParseIntRefusesStrayUnderscores | main/release/releasability/releasability.py:54 | a leading, trailing or doubled underscore makes the build number parser raise `ValueError`, as `int()` does |

## Left out

- Cloud and network clients (boto3 SNS/SQS/Lambda/STS/S3, HTTP through `requests` and `urllib`, the `polling` library, and the `jfrog`, `curl` and `gpg` subprocesses) are outside the model. What they answer is a parameter, and what they are asked is an effect.
- Clocks and sleeps (`time.time`, `datetime.now`, `time.sleep`) are left out. A clock reading is a parameter, and polling loops count rounds.
- The decoding of the SQS envelope (`Body`, then `Message`) is left out. Notifications arrive already decoded, since the code has no handling for malformed messages.
- The pagination loops of the Lambda and subscription listings are modelled as pages drained into lists. The real continuation tokens are not modelled.
- AWS account lookup and region/configuration selection are left out. The account id and region are parameters.
- `urllib.parse.urlparse` is left out. The URL parsers of the re-signing scripts receive the URL path alongside the URL.
- File reading, directory walks (`rglob`, `os.walk`), temporary directories, zip extraction and unreadable files are left out.
  - A file's lines or text are parameters.
  - A directory's files are a list of paths, or a map from path to text.
  - An SBOM file that cannot be read or written is a member of a given set.
- Logging and `print` output are left out. They do not affect any decision. The `::set-output` line is modelled as a `SetOutput` effect with the output's name and value; only its printed form is left out.
- `scripts/re-sign/pgp_utils.py`, `checksum_utils.py`, `file_utils.py`, `pom_utils.py` and `maven_metadata_utils.py` are not part of this model; each of their calls is one effect. Of `pgp_utils.py`, only the order of the key import, the passphrase read and the cleanup is kept.
- The thin REST and SSH wrappers are not part of this model. Each of their calls is one effect:
  - `main/release/utils/artifactory.py`, `main/utils/artifactory.py` and the `Artifactory` class of `utils/artifactory.py`;
  - the binaries hosts (`utils/binaries.py` `upload` is one `BinariesUpload` effect standing for its `mkdir`, `scp`, `unzip` and `gpg` commands);
  - Slack and Bintray.
- `Binaries.S3Upload`: the unpacking of the SonarLint Eclipse site is one `S3UploadUnpacked` effect, not a walk over the zip's entries.
- `release/steps/ReleaseRequest.py`, `vars.py`, `main/release/utils/dryrun.py` and the entry points (`main.py`, `main/main.py`, `main/release/main.py`) are not part of this model. Dry-run flags and configuration values are parameters.
- Characters are Unicode scalar values, but `\s`, `\d`, `str.lower`, `str.isdigit`, `str.strip` and `int()` use their ASCII tables only. Non-ASCII digits, spaces and case mappings are not modelled.
- `json.dumps` is modelled with its default separators and ASCII escaping, for the values the code writes. `json.loads` and the indented `json.dump` of the SBOM rewrite are parameters.
- `GitHub.NewGitHub`: the refusal message prints the allowed events as a fixed text. Python prints a set in an order that is not fixed.
- `GitHub.RequestFromEvent`: an absent `GITHUB_SHA` is not modelled. The commit is a parameter of type text.
- `LegacyGitHub.RevokeWith`: the return value `r.json()` of the deletion is not modelled. Only the requests made are.
- `ChecksReport.ChecksReport.GetChecks` returns the entries as a value. The Python method hands out the report's own list, and changes made through that alias are not modelled.
- The notification sent to Burgr by the older action's release step is one `NotifyBurgr` effect carrying the status only. Its payload is not modelled.
- `ArtifactoryUtils`: the following internals are effects or are left out:
  - the Maven Central bundle upload, checksum computation, artifact download and `.asc` deletion;
  - the build-info upload and the REST parsing of its answer;
  - the checksum fields of `_modify_exported_buildinfo`.
- `ArtifactoryUtils.RenameExportedModules`: module ids are assumed to be texts. A non-text id would raise in Python.
- `ArtifactoryUtils.PollMavenCentralStatus`: the parsing of the `curl` output is left out, as is the sleep duration (only the number of sleeps is stated). Each reply is a parsed status, state and body.
- `upload_to_binaries` (scripts/re-sign/artifactory_utils.py:822-893) is modelled only through its module-id rewrite (`ArtifactoryUtils.LastFieldRewrite`). The `ARTIFACTORY_DEPLOY_REPO` property it sets and its publication are an effect of the run.
- `ResignArtifacts.InitArtifactoryToken`: Vault's answer for each secret path is a function, so two reads of the same path answer alike. The `VAULT_ADDR` default and the reload of `release.vars` are left out.
- `ResignArtifacts.Run`: the steps of the run (POM, metadata, directory, file and SBOM rewrites, signing, build-info creation and both uploads) are opaque effects. Their internals are out of the model, and `main`'s `parser.error` is left out.
- `SbomUtils.Repository.UpdateSbomVersions`: the in-place mutation of nested dicts is modelled on values. Aliasing between parts of one document is not modelled, and a `RecursionError` on very deep documents is not modelled.
- `ResignBinariesJar.Summarise` and `UploadMissingToBinaries`: the summary counts and exit codes are modelled, but the printed summary and the argument parsing of `main` are not. The empty `--jar-url` case of the argument parser is not modelled.
- `UploadMissingToBinaries.SearchArtifact`: a decoding error of the search answer is not modelled. The answer arrives decoded.
- Tests that call functions absent from the code (`_get_check_results`, `_get_checks_count`, `_fetch_filtered_check_results`, `_get_checks`, a `_build_sns_request` on the facade, the SonarQube rename inside `publish_artifact`, a Burgr client without a version) describe no behaviour of this code. No property is taken from them.

## Findings

| source | as written | input that shows it | evidently intended | confidence | as-written member | corrected member |
|---|---|---|---|---|---|---|
| main/release/releasability/releasability.py:128 | the three-parameter constructor of `ReleasabilityCheckResult` (main/release/releasability/releasability_check_result.py:18) is called with four arguments | any notification for the request that is not an `ACK`: the call raises `TypeError` | one entry built from name, state and message | not executed | Releasability.AsWrittenReportFailsOnFirstResult | Releasability.PollResults |
| main/release/releasability/releasability.py:29 | `account_id = self._get_aws_account_id` stores the bound method, not its result | any construction: the ARNs carry the method's text as their account field | `self._get_aws_account_id()` | not executed | Releasability.ArnAccountAsWrittenIsMethodText | Releasability.ArnAccountIsCallerAccount |
| main/release/releasability/releasability.py:145 | the next page is asked for with `NextToken=sns_response['Subscriptions']`, a list; the same at main/utils/releasability.py:149 | a subscription listing with a second page: the request is refused | `NextToken=sns_response['NextToken']` | not executed | ReleasabilityInputs.SubscriptionDrainAsWrittenFailsOnSecondPage | ReleasabilityInputs.GetChecksCountAndMaxTimeout |
| steps/release.py:71 | `upload(tempfile, filename, gid, aid, version)` passes five arguments to `upload`, which takes four (utils/binaries.py:16) | any entry whose download succeeds: `TypeError` | `upload(tempfile, filename, aid, version)` | not executed | StepsRelease.AsWrittenNeverUploads | StepsRelease.PublishOne |
| steps/release.py:29 | `artifactory.promote(release_request, buildinfo, True)` passes a revoke flag to a `promote` that takes two arguments (utils/artifactory.py:49) | any revocation: `TypeError`, and nothing is unpromoted | a promotion that revokes | not executed | StepsRelease.RevokeAsWrittenNeverUnpromotes | StepsRelease.RevokeStep |
| utils/github.py:46 | `.replace("{/id}", self.release_info().get('id'))` passes the release id, an integer in GitHub's event payload, to `str.replace` | a release with id `1`: `TypeError` before any request | `.replace("{/id}", f"/{id}")` | not executed | LegacyGitHub.AsWrittenNumericIdRaises | LegacyGitHub.RevokeDraftsThenDeletesTag |
| main/release/utils/release.py:77-78 | `burgr.start_releasability_checks()` and `burgr.get_releasability_status()` are called without the `version` both require (main/release/utils/burgr.py:77, :98); the same at main/release/main.py:38-39 | any release request: the start call raises `TypeError`, Slack is told the release failed and the GitHub release is revoked | both calls passed `release_request.version` | not executed | Release.GateAsWrittenAlwaysFails | Release.GatePasses |
