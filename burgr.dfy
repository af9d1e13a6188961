/**
 * The decisions of the Burgr dashboard client: which pipeline of the
 * recent commits is the one of a version, which releasability stage is
 * the latest and whether it finished, whether a start request was
 * accepted, how failed checks are reported, and how the poll outcome is
 * turned into a result. The same search and stage rules are used by the
 * three client revisions.
 */
module Burgr {
  import opened Py
  import opened Json
  import opened ReleaseRequest
  import VersionHelper

  const Releasability: string := "releasability"
  const Passed: string := "passed"
  const CheckMark: string := "\U{2705}"
  const CrossMark: string := "\U{274C}"
  const TimedOut: string := "Releasability timed out"

  /** An HTTP answer: its status code, its text and that text decoded as JSON. */
  datatype Response = Response(status: int, text: string, body: Json)

  /** Which client revision: the newer one quotes the answer's text in its status error, the older ones the answer object. */
  datatype Revision = Newer | Older

  // -----------------------------------------------------------------------
  // Finding the pipeline of a version

  /** The pipelines of a commit: `commit.get('pipelines') or []`, iterated. */
  function PipelinesOf(commit: Json): Result<seq<Json>> {
    var p :- Get(commit, "pipelines");
    Iterate(OrEmpty(p))
  }

  /** `next(x for x in pipelines if x.get('version') == version)`, or None. */
  function FirstWithVersion(pipelines: seq<Json>, version: string): Result<Option<Json>>
    decreases |pipelines|
  {
    if |pipelines| == 0 then Ok(None)
    else
      var v :- Get(pipelines[0], "version");
      if v == JStr(version) then Ok(Some(pipelines[0])) else FirstWithVersion(pipelines[1..], version)
  }

  /** `get_corresponding_pipeline`: commits in order, then each commit's pipelines in order. */
  function GetCorrespondingPipeline(commits: seq<Json>, version: string): Result<Option<Json>>
    decreases |commits|
  {
    if |commits| == 0 then Ok(None)
    else
      var pipelines :- PipelinesOf(commits[0]);
      var found :- FirstWithVersion(pipelines, version);
      if found.Some? then Ok(found) else GetCorrespondingPipeline(commits[1..], version)
  }

  /** A pipeline record whose `version` is the given one. */
  predicate HasVersion(p: Json, version: string) {
    p.JObj? && Lookup(p.fields, "version") == Some(JStr(version))
  }

  /** The pipelines with the version, in order. */
  function Matching(pipelines: seq<Json>, version: string): (r: seq<Json>)
    ensures forall p :: p in r ==> HasVersion(p, version)
    decreases |pipelines|
  {
    if |pipelines| == 0 then []
    else (if HasVersion(pipelines[0], version) then [pipelines[0]] else []) + Matching(pipelines[1..], version)
  }

  lemma {:induction false} MatchingAppend(a: seq<Json>, b: seq<Json>, version: string)
    ensures Matching(a + b, version) == Matching(a, version) + Matching(b, version)
    decreases |a|
  {
    if |a| == 0 {
      assert a + b == b;
    } else {
      assert (a + b)[1..] == a[1..] + b;
      MatchingAppend(a[1..], b, version);
    }
  }

  /** The first element, if any. */
  function First(xs: seq<Json>): Option<Json> {
    if |xs| == 0 then None else Some(xs[0])
  }

  /** Commit records whose `pipelines` is absent, falsy or a list of records. */
  predicate WellShaped(commits: seq<Json>) {
    forall i :: 0 <= i < |commits| ==> WellShapedCommit(commits[i])
  }

  predicate WellShapedCommit(c: Json) {
    c.JObj? && PipelinesOf(c).Ok? && forall p :: p in PipelinesOf(c).value ==> p.JObj?
  }

  /** Over records, the search returns the first pipeline with the version. */
  lemma {:induction false} FirstWithVersionIsFirstMatch(pipelines: seq<Json>, version: string)
    requires forall p :: p in pipelines ==> p.JObj?
    ensures FirstWithVersion(pipelines, version) == Ok(First(Matching(pipelines, version)))
    decreases |pipelines|
  {
    if |pipelines| > 0 {
      assert pipelines[0] in pipelines;
      assert forall p :: p in pipelines[1..] ==> p in pipelines;
      FirstWithVersionIsFirstMatch(pipelines[1..], version);
    }
  }

  /** The pipelines of all commits, in commit order. */
  function AllPipelines(commits: seq<Json>): seq<Json>
    requires WellShaped(commits)
    decreases |commits|
  {
    if |commits| == 0 then [] else PipelinesOf(commits[0]).value + AllPipelines(commits[1..])
  }

  /**
   * `get_corresponding_pipeline` returns the first pipeline with the
   * version in commit-then-pipeline order, and None when there is none.
   */
  lemma {:induction false} CorrespondingPipelineIsFirstMatch(commits: seq<Json>, version: string)
    requires WellShaped(commits)
    ensures GetCorrespondingPipeline(commits, version) == Ok(First(Matching(AllPipelines(commits), version)))
    decreases |commits|
  {
    if |commits| > 0 {
      assert WellShapedCommit(commits[0]);
      var ps := PipelinesOf(commits[0]).value;
      FirstWithVersionIsFirstMatch(ps, version);
      assert WellShaped(commits[1..]) by {
        forall i | 0 <= i < |commits[1..]| ensures WellShapedCommit(commits[1..][i]) {
          assert commits[1..][i] == commits[i + 1];
        }
      }
      CorrespondingPipelineIsFirstMatch(commits[1..], version);
      MatchingAppend(ps, AllPipelines(commits[1..]), version);
    }
  }

  /** A commit with a missing, null or empty `pipelines` contributes nothing. */
  lemma MissingPipelinesCountAsEmpty(commit: Json)
    requires commit.JObj? && ("pipelines" !in Keys(commit.fields) || !Truthy(Lookup(commit.fields, "pipelines").value))
    ensures PipelinesOf(commit) == Ok([])
  {
  }

  // -----------------------------------------------------------------------
  // The latest releasability stage

  /** `is_finished`. */
  predicate IsFinished(status: Json) {
    status == JStr("errored") || status == JStr("failed") || status == JStr("passed")
  }

  /** A running or queued stage has not finished; only the three final states have. */
  lemma FinishedStates(s: string)
    ensures IsFinished(JStr(s)) <==> s == "errored" || s == "failed" || s == "passed"
    ensures !IsFinished(JStr("running")) && !IsFinished(JNull)
  {
  }

  /** `next(stage for stage in reversed(stages) if stage.get('type') == 'releasability')`, or None. */
  function LastOfType(stages: seq<Json>, kind: string): Result<Option<Json>>
    decreases |stages|
  {
    if |stages| == 0 then Ok(None)
    else
      var t :- Get(stages[|stages| - 1], "type");
      if t == JStr(kind) then Ok(Some(stages[|stages| - 1])) else LastOfType(stages[..|stages| - 1], kind)
  }

  const StatusError: string := "Error occurred while trying to retrieve current releasability status: "

  /** The message raised for an answer of the commit listing that is not 200. */
  function StatusErrorMessage(response: Response, revision: Revision): string {
    match revision
    case Newer => StatusError + "(" + IntToString(response.status) + ") " + response.text
    case Older => StatusError + "<Response [" + IntToString(response.status) + "]>"
  }
  const NoCommits: string := "No commit information found in burgrx for this branch"

  /**
   * The first half of `get_latest_releasability_stage`: the pipeline of the
   * version in one answer of the commit listing, or one of the four
   * exceptions (answer not 200, no commit, no pipeline of the version,
   * pipeline not releasable while that flag is checked).
   */
  function PipelineOf(response: Response, version: string, checkReleasable: bool, revision: Revision): Result<Json> {
    if response.status != 200 then Err(Raised("Exception", StatusErrorMessage(response, revision)))
    else
      var commits :- Iterate(response.body);
      if |commits| == 0 then Err(Raised("Exception", NoCommits))
      else
        var pipeline :- GetCorrespondingPipeline(commits, version);
        if pipeline.None? || !Truthy(pipeline.value) then Err(Raised("Exception", "No pipeline info found for version '" + version + "'"))
        else
          var releasable :- if checkReleasable then Get(pipeline.value, "releasable") else Ok(JBool(true));
          if checkReleasable && !Truthy(releasable) then Err(Raised("Exception", "Pipeline '" + PyStr(pipeline.value) + "' is not releasable"))
          else Ok(pipeline.value)
  }

  /**
   * The second half: the last stage of type "releasability" when it has
   * finished, None (Python's False, "still running") otherwise.
   */
  function LatestFinishedStage(pipeline: Json): Result<Option<Json>> {
    var stagesValue :- Get(pipeline, "stages");
    var stages :- Iterate(OrEmpty(stagesValue));
    var latest :- LastOfType(stages, Releasability);
    if latest.Some? && Truthy(latest.value) then
      var status :- Index(latest.value, "status");
      if IsFinished(status) then Ok(Some(latest.value)) else Ok(None)
    else Ok(None)
  }

  /** `get_latest_releasability_stage` on one answer of the commit listing. */
  function GetLatestReleasabilityStage(response: Response, version: string, checkReleasable: bool, revision: Revision): Result<Option<Json>> {
    var pipeline :- PipelineOf(response, version, checkReleasable, revision);
    LatestFinishedStage(pipeline)
  }

  /** A listing answer that is not 200, or that holds no commit, raises. */
  lemma ListingErrors(response: Response, version: string, checkReleasable: bool, revision: Revision)
    ensures response.status != 200 ==> PipelineOf(response, version, checkReleasable, revision) == Err(Raised("Exception", StatusErrorMessage(response, revision)))
    ensures response.status == 200 && response.body == JArr([])
            ==> PipelineOf(response, version, checkReleasable, revision) == Err(Raised("Exception", NoCommits))
  {
  }

  /**
   * Over well-shaped commits: no pipeline with the version raises, and so
   * does a pipeline not flagged releasable when the flag is checked.
   */
  lemma PipelineErrors(commits: seq<Json>, version: string, checkReleasable: bool, revision: Revision)
    requires |commits| > 0 && WellShaped(commits)
    ensures var r := PipelineOf(Response(200, "", JArr(commits)), version, checkReleasable, revision);
      var m := Matching(AllPipelines(commits), version);
      && (m == [] ==> r == Err(Raised("Exception", "No pipeline info found for version '" + version + "'")))
      && (m != [] && checkReleasable && Get(m[0], "releasable").Ok? && !Truthy(Get(m[0], "releasable").value)
          ==> r == Err(Raised("Exception", "Pipeline '" + PyStr(m[0]) + "' is not releasable")))
      && (m != [] && (!checkReleasable || (Get(m[0], "releasable").Ok? && Truthy(Get(m[0], "releasable").value)))
          ==> r == Ok(m[0]))
  {
    CorrespondingPipelineIsFirstMatch(commits, version);
    var m := Matching(AllPipelines(commits), version);
    assert Iterate(JArr(commits)) == Ok(commits);
    assert GetCorrespondingPipeline(commits, version) == Ok(First(m));
    if m != [] {
      assert m[0] in m;
      assert HasVersion(m[0], version);
      assert "version" in Keys(m[0].fields);
      assert Truthy(m[0]);
    }
  }

  /** Position k holds a stage of the kind, and no later position does. */
  predicate IsLastOfType(stages: seq<Json>, k: int, kind: string) {
    0 <= k < |stages| && HasType(stages[k], kind) && forall j :: k < j < |stages| ==> !HasType(stages[j], kind)
  }

  /** A stage not of the kind, appended, leaves the last stage of the kind where it was. */
  lemma IsLastOfTypeExtend(front: seq<Json>, s: Json, k: int, kind: string)
    requires IsLastOfType(front, k, kind) && !HasType(s, kind)
    ensures IsLastOfType(front + [s], k, kind)
  {
    var stages := front + [s];
    forall j | k < j < |stages| ensures !HasType(stages[j], kind) {
      if j < |front| { assert stages[j] == front[j]; }
    }
  }

  /** A stage not of the kind, appended to stages none of which is of the kind, keeps none of the kind. */
  lemma NoneOfTypeExtend(front: seq<Json>, s: Json, kind: string)
    requires forall j :: 0 <= j < |front| ==> !HasType(front[j], kind)
    requires !HasType(s, kind)
    ensures forall j :: 0 <= j < |front + [s]| ==> !HasType((front + [s])[j], kind)
  {
    forall j | 0 <= j < |front + [s]| ensures !HasType((front + [s])[j], kind) {
      if j < |front| { assert (front + [s])[j] == front[j]; }
    }
  }

  /** The reversed search finds the last stage of the kind. */
  lemma {:induction false} LastOfTypeIsLast(stages: seq<Json>, kind: string)
    requires forall s :: s in stages ==> s.JObj?
    ensures var r := LastOfType(stages, kind);
      && r.Ok?
      && (r.value.Some? ==> exists k :: IsLastOfType(stages, k, kind) && stages[k] == r.value.value)
      && (r.value.None? ==> forall j :: 0 <= j < |stages| ==> !HasType(stages[j], kind))
    decreases |stages|
  {
    if |stages| > 0 {
      var front := stages[..|stages| - 1];
      var s := stages[|stages| - 1];
      assert stages == front + [s];
      assert s in stages;
      assert forall x :: x in front ==> x in stages;
      LastOfTypeIsLast(front, kind);
      if HasType(s, kind) {
        assert IsLastOfType(stages, |stages| - 1, kind);
      } else {
        var r := LastOfType(front, kind);
        if r.value.Some? {
          var k :| IsLastOfType(front, k, kind) && front[k] == r.value.value;
          IsLastOfTypeExtend(front, s, k, kind);
          assert IsLastOfType(stages, k, kind) && stages[k] == r.value.value;
        } else {
          NoneOfTypeExtend(front, s, kind);
        }
      }
    }
  }

  predicate HasType(stage: Json, kind: string) {
    stage.JObj? && Lookup(stage.fields, "type") == Some(JStr(kind))
  }

  /**
   * Only the last releasability stage is considered: an unfinished last
   * one gives "still running" although an earlier one finished, which on
   * its own would have been returned.
   */
  lemma EarlierFinishedStageIgnored()
    ensures var done := JObj([("type", JStr(Releasability)), ("status", JStr("passed"))]);
      var running := JObj([("type", JStr(Releasability)), ("status", JStr("running"))]);
      && LatestFinishedStage(JObj([("stages", JArr([done, running]))])) == Ok(None)
      && LatestFinishedStage(JObj([("stages", JArr([done]))])) == Ok(Some(done))
  {
    var done := JObj([("type", JStr(Releasability)), ("status", JStr("passed"))]);
    var running := JObj([("type", JStr(Releasability)), ("status", JStr("running"))]);
    LookupAt(running.fields, 1);
    LookupAt(done.fields, 1);
    assert LastOfType([done, running], Releasability) == Ok(Some(running));
    assert LastOfType([done], Releasability) == Ok(Some(done));
  }

  /**
   * Over stage records: a stage is returned exactly when the last stage of
   * type "releasability" exists and its status is final, and it is that stage.
   */
  lemma LatestFinishedStageIff(pipeline: Json)
    requires pipeline.JObj? && Get(pipeline, "stages").Ok?
    requires var v := OrEmpty(Get(pipeline, "stages").value); v.JArr? && forall s :: s in v.items ==> s.JObj?
    ensures var stages := OrEmpty(Get(pipeline, "stages").value).items;
      var r := LatestFinishedStage(pipeline);
      var latest := LastOfType(stages, Releasability);
      && latest.Ok?
      && (r.Ok? && r.value.Some? <==> latest.value.Some? && Index(latest.value.value, "status").Ok?
                                      && IsFinished(Index(latest.value.value, "status").value))
      && (r.Ok? && r.value.Some? ==> r.value == latest.value)
  {
    var stages := OrEmpty(Get(pipeline, "stages").value).items;
    LastOfTypeIsLast(stages, Releasability);
    var latest := LastOfType(stages, Releasability);
    if latest.value.Some? {
      var k :| IsLastOfType(stages, k, Releasability) && stages[k] == latest.value.value;
      assert Truthy(latest.value.value);
    }
  }

  // -----------------------------------------------------------------------
  // Polling

  /**
   * `polling.poll` over the answers obtained before the deadline: the
   * first finished stage; an exception stops the polling; running out of
   * answers is the timeout.
   */
  function Poll(responses: seq<Response>, version: string, checkReleasable: bool, revision: Revision): (r: Result<Json>)
    decreases |responses|
  {
    if |responses| == 0 then Err(Raised("TimeoutException", ""))
    else
      var stage :- GetLatestReleasabilityStage(responses[0], version, checkReleasable, revision);
      if stage.Some? then Ok(stage.value) else Poll(responses[1..], version, checkReleasable, revision)
  }

  /** A poll that succeeds returns the stage of the first answer that had one; earlier answers were "still running". */
  lemma {:induction false} PollReturnsFirstFinished(responses: seq<Response>, version: string, checkReleasable: bool, revision: Revision)
    ensures var r := Poll(responses, version, checkReleasable, revision);
      r.Ok? ==> exists k :: FirstFinishedAt(responses, k, version, checkReleasable, revision, r.value)
    decreases |responses|
  {
    if |responses| > 0 {
      var first := GetLatestReleasabilityStage(responses[0], version, checkReleasable, revision);
      var r := Poll(responses, version, checkReleasable, revision);
      if first.Ok? && first.value.Some? {
        assert FirstFinishedAt(responses, 0, version, checkReleasable, revision, r.value);
      } else if first.Ok? {
        PollReturnsFirstFinished(responses[1..], version, checkReleasable, revision);
        assert r == Poll(responses[1..], version, checkReleasable, revision);
        if r.Ok? {
          var k :| FirstFinishedAt(responses[1..], k, version, checkReleasable, revision, r.value);
          FirstFinishedShift(responses, k, version, checkReleasable, revision, r.value);
        }
      }
    }
  }

  /** The answer at `k` is the first with a finished stage, `stage`; all earlier ones had none. */
  predicate FirstFinishedAt(responses: seq<Response>, k: int, version: string, checkReleasable: bool, revision: Revision,
                            stage: Json)
  {
    && 0 <= k < |responses|
    && GetLatestReleasabilityStage(responses[k], version, checkReleasable, revision) == Ok(Some(stage))
    && forall j :: 0 <= j < k ==> GetLatestReleasabilityStage(responses[j], version, checkReleasable, revision) == Ok(None)
  }

  lemma FirstFinishedShift(responses: seq<Response>, k: int, version: string, checkReleasable: bool, revision: Revision,
                           stage: Json)
    requires |responses| > 0
    requires GetLatestReleasabilityStage(responses[0], version, checkReleasable, revision) == Ok(None)
    requires FirstFinishedAt(responses[1..], k, version, checkReleasable, revision, stage)
    ensures FirstFinishedAt(responses, k + 1, version, checkReleasable, revision, stage)
  {
    FirstSomeShift(r => GetLatestReleasabilityStage(r, version, checkReleasable, revision), responses, k, stage);
  }

  /** The same for any way of reading a stage from an answer. */
  lemma FirstSomeShift(stageOf: Response -> Result<Option<Json>>, responses: seq<Response>, k: int, stage: Json)
    requires 0 <= k < |responses| - 1 && stageOf(responses[0]) == Ok(None)
    requires stageOf(responses[1..][k]) == Ok(Some(stage))
    requires forall j :: 0 <= j < k ==> stageOf(responses[1..][j]) == Ok(None)
    ensures stageOf(responses[k + 1]) == Ok(Some(stage))
    ensures forall j :: 0 <= j < k + 1 ==> stageOf(responses[j]) == Ok(None)
  {
    assert responses[k + 1] == responses[1..][k];
    forall j | 0 <= j < k + 1
      ensures stageOf(responses[j]) == Ok(None)
    {
      if j > 0 { assert responses[j] == responses[1..][j - 1]; }
    }
  }

  // -----------------------------------------------------------------------
  // Reports of failed checks

  /** `format_ra_check`. */
  function FormatRaCheck(check: Json): Result<string> {
    var state :- Index(check, "state");
    var statusChar := if state == JStr("PASSED") then CheckMark else CrossMark;
    var reason :- Reason(check, state);
    var name :- Index(check, "name");
    Ok("* " + statusChar + " " + PyStr(name) + ": " + PyStr(state) + reason)
  }

  /** The note after a check that did not pass: " - " and its message, "" by default. */
  function Reason(check: Json, state: Json): Result<string> {
    if state != JStr("PASSED") then
      var m :- GetOr(check, "message", JStr(""));
      Ok(" - " + PyStr(m))
    else Ok("")
  }

  /** The check object with a name, a state and, when given, a message. */
  function CheckObject(name: string, state: string, message: Option<string>): Json {
    JObj([("name", JStr(name)), ("state", JStr(state))]
         + (if message.Some? then [("message", JStr(message.value))] else []))
  }

  /** The fields of such an object, with the message defaulting to "". */
  lemma CheckObjectFields(name: string, state: string, message: Option<string>)
    ensures var check := CheckObject(name, state, message);
      && Index(check, "name") == Ok(JStr(name))
      && Index(check, "state") == Ok(JStr(state))
      && GetOr(check, "message", JStr("")) == Ok(JStr(if message.Some? then message.value else ""))
  {
    var fields := CheckObject(name, state, message).fields;
    LookupAt(fields, 0);
    LookupAt(fields, 1);
    if message.Some? {
      LookupAt(fields, 2);
    } else {
      assert "message" !in Keys(fields);
    }
  }

  /** A passed check shows the check mark and its name; any other state shows the cross, the state and the message. */
  lemma FormatRaCheckForms(name: string, state: string, message: Option<string>)
    ensures var text := FormatRaCheck(CheckObject(name, state, message));
      && (state == "PASSED" ==> text == Ok("* " + CheckMark + " " + name + ": PASSED"))
      && (state != "PASSED" ==> text == Ok("* " + CrossMark + " " + name + ": " + state + " - "
                                           + (if message.Some? then message.value else "")))
  {
    var check := CheckObject(name, state, message);
    var m := if message.Some? then message.value else "";
    var mark := if state == "PASSED" then CheckMark else CrossMark;
    var reason := if state == "PASSED" then "" else " - " + m;
    var head := "* " + mark + " " + name + ": " + state;
    assert FormatRaCheck(check) == Ok(head + reason) by {
      CheckObjectFields(name, state, message);
      assert Reason(check, JStr(state)) == Ok(reason);
    }
    if state == "PASSED" {
      assert head + reason == head;
      AppendAssoc("* " + mark + " " + name, ": ", state);
      assert ": " + state == ": PASSED";
    } else {
      AppendAssoc(head, " - ", m);
    }
  }

  /** The failed report's lines: every check not NOT_RELEVANT, in order. */
  function FormatChecks(checks: seq<Json>): Result<seq<string>>
    decreases |checks|
  {
    if |checks| == 0 then Ok([])
    else
      var state :- Index(checks[0], "state");
      if state == JStr("NOT_RELEVANT") then FormatChecks(checks[1..])
      else
        var line :- FormatRaCheck(checks[0]);
        var rest :- FormatChecks(checks[1..]);
        Ok([line] + rest)
  }

  /**
   * `format_failed_releasability`. The stage's `metadata` is taken as
   * already decoded.
   */
  function FormatFailedReleasability(releasability: Json): Result<string> {
    var metadata :- Index(releasability, "metadata");
    var checksValue :- Index(metadata, "checks");
    var checks :- Iterate(checksValue);
    var lines :- FormatChecks(checks);
    Ok(Join(lines, "\n"))
  }

  /** The checks that are reported: those whose state is not NOT_RELEVANT, in order. */
  function Relevant(checks: seq<Json>): seq<Json>
    decreases |checks|
  {
    if |checks| == 0 then []
    else if Index(checks[0], "state") == Ok(JStr("NOT_RELEVANT")) then Relevant(checks[1..])
    else [checks[0]] + Relevant(checks[1..])
  }

  /** Every line is the formatting of the check at the same place. */
  predicate FormattedPairwise(lines: seq<string>, checks: seq<Json>) {
    |lines| == |checks| && forall i :: 0 <= i < |lines| ==> Ok(lines[i]) == FormatRaCheck(checks[i])
  }

  /** A formatted line in front of formatted lines keeps them pairwise formatted. */
  lemma PrependFormatted(line: string, c: Json, lines: seq<string>, checks: seq<Json>)
    requires Ok(line) == FormatRaCheck(c) && FormattedPairwise(lines, checks)
    ensures FormattedPairwise([line] + lines, [c] + checks)
  {
    PrependPairwise(FormatRaCheck, line, c, lines, checks);
  }

  /** The same for any way of formatting. */
  lemma PrependPairwise(format: Json -> Result<string>, line: string, c: Json, lines: seq<string>, checks: seq<Json>)
    requires Ok(line) == format(c)
    requires |lines| == |checks| && forall i :: 0 <= i < |lines| ==> Ok(lines[i]) == format(checks[i])
    ensures |[line] + lines| == |[c] + checks|
    ensures forall i :: 0 <= i < |[line] + lines| ==> Ok(([line] + lines)[i]) == format(([c] + checks)[i])
  {
    forall i | 0 <= i < |[line] + lines|
      ensures Ok(([line] + lines)[i]) == format(([c] + checks)[i])
    {
      if i > 0 {
        assert ([line] + lines)[i] == lines[i - 1];
        assert ([c] + checks)[i] == checks[i - 1];
      }
    }
  }

  /** When every check has a state and formats, the lines are the formatted relevant checks, in order. */
  lemma {:induction false} FormatChecksKeepsRelevantInOrder(checks: seq<Json>)
    requires forall c :: c in checks ==> Index(c, "state").Ok? && FormatRaCheck(c).Ok?
    ensures FormatChecks(checks).Ok? && FormattedPairwise(FormatChecks(checks).value, Relevant(checks))
    decreases |checks|
  {
    if |checks| > 0 {
      var c := checks[0];
      assert c in checks;
      assert forall x :: x in checks[1..] ==> x in checks;
      FormatChecksKeepsRelevantInOrder(checks[1..]);
      var rest := FormatChecks(checks[1..]).value;
      var relevantRest := Relevant(checks[1..]);
      if Index(c, "state").value == JStr("NOT_RELEVANT") {
        assert FormatChecks(checks) == FormatChecks(checks[1..]);
        assert Relevant(checks) == relevantRest;
      } else {
        var line := FormatRaCheck(c).value;
        assert FormatChecks(checks) == Ok([line] + rest);
        assert Relevant(checks) == [c] + relevantRest;
        PrependFormatted(line, c, rest, relevantRest);
      }
    }
  }

  /** The exception carrying the report of the failed checks; an error while formatting is raised instead. */
  function ReleasabilityFailure(releasability: Json): Error {
    match FormatFailedReleasability(releasability)
    case Ok(text) => Raised("ReleasabilityFailure", text)
    case Err(e) => e
  }

  // -----------------------------------------------------------------------
  // Starting and waiting

  /** The start endpoint for a version. */
  function StartUrl(baseUrl: string, project: string, version: string): string {
    baseUrl + "/api/project/SonarSource/" + project + "/releasability/start/" + version
  }

  /** Whether the start request was accepted: status 200 and message "done" (default ""). */
  function StartAccepted(response: Response): Result<()> {
    var message :- GetOr(response.body, "message", JStr(""));
    if response.status == 200 && message == JStr("done") then Ok(())
    else Err(Raised("Exception", "Releasability checks failed to start: '" + PyStr(message) + "'"))
  }

  /** Only 200 with "done" starts; any other status or message raises. */
  lemma StartAcceptedIff(response: Response)
    requires response.body.JObj?
    ensures StartAccepted(response).Ok?
        <==> response.status == 200 && Lookup(response.body.fields, "message") == Some(JStr("done"))
  {
  }

  /**
   * `Burgr.start_releasability_checks` of the newer client: the URL posted
   * to (with the sonarlint-vscode version normalised) and the outcome.
   */
  function StartReleasabilityChecks(rr: ReleaseRequest, baseUrl: string, version: string, response: Response)
    : (string, Result<()>)
  {
    var v := VersionHelper.StandardizedVersion(rr.(version := version));
    (StartUrl(baseUrl, rr.project, v), StartAccepted(response))
  }

  /**
   * `Burgr.get_releasability_status` of the newer client: a final status
   * other than "passed" raises the failure report; otherwise the metadata.
   */
  function GetReleasabilityStatus(responses: seq<Response>, version: string, checkReleasable: bool): Result<Json> {
    match Poll(responses, version, checkReleasable, Newer)
    case Err(Raised("TimeoutException", _)) => Err(Raised("Exception", TimedOut))
    case Err(e) => Err(e)
    case Ok(releasability) =>
      (match Index(releasability, "status")
       case Err(e) => Err(e)
       case Ok(status) =>
         if status != JStr(Passed) then Err(ReleasabilityFailure(releasability))
         else Get(releasability, "metadata"))
  }

  /** The newer client returns only for a passed stage, and then its metadata; any other final status raises the report. */
  lemma StatusPassedOrRaises(responses: seq<Response>, version: string, checkReleasable: bool)
    ensures var r := GetReleasabilityStatus(responses, version, checkReleasable);
      var p := Poll(responses, version, checkReleasable, Newer);
      && (r.Ok? ==> p.Ok? && Index(p.value, "status") == Ok(JStr(Passed)) && Get(p.value, "metadata") == r)
      && (p.Ok? && Index(p.value, "status").Ok? && Index(p.value, "status").value != JStr(Passed)
          ==> r == Err(ReleasabilityFailure(p.value)))
      && (p == Err(Raised("TimeoutException", "")) ==> r == Err(Raised("Exception", TimedOut)))
  {
  }

  /**
   * The older clients' wait: the metadata of the finished stage whatever
   * its status (which is read for the log line, so a missing one raises);
   * the timeout becomes "Releasability timed out".
   */
  function PollMetadata(responses: seq<Response>, version: string, checkReleasable: bool): Result<Json> {
    match Poll(responses, version, checkReleasable, Older)
    case Err(Raised("TimeoutException", _)) => Err(Raised("Exception", TimedOut))
    case Err(e) => Err(e)
    case Ok(releasability) =>
      (match Index(releasability, "status")
       case Err(e) => Err(e)
       case Ok(_) => Get(releasability, "metadata"))
  }

  /**
   * `releasability_checks` of the older clients: post the start for the
   * version as given, and poll only when the start was accepted.
   */
  function ReleasabilityChecks(baseUrl: string, project: string, version: string, startResponse: Response,
                               responses: seq<Response>, checkReleasable: bool): (string, Result<Json>)
  {
    var url := StartUrl(baseUrl, project, version);
    match StartAccepted(startResponse)
    case Err(e) => (url, Err(e))
    case Ok(_) => (url, PollMetadata(responses, version, checkReleasable))
  }

  /**
   * The older clients never raise for a failed stage: a finished stage of
   * any status gives its metadata; and nothing is polled unless the start
   * was accepted.
   */
  lemma OlderClientsIgnoreStatus(baseUrl: string, project: string, version: string, startResponse: Response,
                                 responses: seq<Response>, checkReleasable: bool)
    ensures var p := Poll(responses, version, checkReleasable, Older);
      p.Ok? && Index(p.value, "status").Ok? ==> PollMetadata(responses, version, checkReleasable) == Get(p.value, "metadata")
    ensures var r := ReleasabilityChecks(baseUrl, project, version, startResponse, responses, checkReleasable);
      && r.0 == StartUrl(baseUrl, project, version)
      && (StartAccepted(startResponse).Err? ==> r.1 == Err(StartAccepted(startResponse).error))
      && (StartAccepted(startResponse).Ok? ==> r.1 == PollMetadata(responses, version, checkReleasable))
  {
  }

  /** One check of the report: skipped when NOT_RELEVANT, otherwise its line comes first. */
  lemma FormatChecksStep(check: Json, rest: seq<Json>)
    ensures var state := Index(check, "state");
      && (state == Ok(JStr("NOT_RELEVANT")) ==> FormatChecks([check] + rest) == FormatChecks(rest))
      && (state.Ok? && state != Ok(JStr("NOT_RELEVANT")) && FormatRaCheck(check).Ok? && FormatChecks(rest).Ok?
          ==> FormatChecks([check] + rest) == Ok([FormatRaCheck(check).value] + FormatChecks(rest).value))
  {
    assert ([check] + rest)[0] == check;
    assert ([check] + rest)[1..] == rest;
  }

  lemma PassedLine(name: string)
    ensures FormatRaCheck(JObj([("name", JStr(name)), ("state", JStr("PASSED"))])) == Ok("* " + CheckMark + " " + name + ": PASSED")
  {
    FormatRaCheckForms(name, "PASSED", None);
    assert [("name", JStr(name)), ("state", JStr("PASSED"))] + [] == [("name", JStr(name)), ("state", JStr("PASSED"))];
  }

  lemma FailedLine(name: string, state: string, message: string)
    requires state != "PASSED"
    ensures FormatRaCheck(JObj([("name", JStr(name)), ("state", JStr(state)), ("message", JStr(message))]))
         == Ok("* " + CrossMark + " " + name + ": " + state + " - " + message)
  {
    FormatRaCheckForms(name, state, Some(message));
    assert [("name", JStr(name)), ("state", JStr(state))] + [("message", JStr(message))]
        == [("name", JStr(name)), ("state", JStr(state)), ("message", JStr(message))];
  }

  /**
   * The failure raised for a stage whose checks all have a state and
   * format: its text is the relevant checks' lines, in order, joined by
   * newlines.
   */
  lemma FailureReportIsRelevantLines(stage: Json, checks: seq<Json>)
    requires Index(stage, "metadata").Ok? && Index(Index(stage, "metadata").value, "checks") == Ok(JArr(checks))
    requires forall c :: c in checks ==> Index(c, "state").Ok? && FormatRaCheck(c).Ok?
    ensures ReleasabilityFailure(stage).Raised? && ReleasabilityFailure(stage).kind == "ReleasabilityFailure"
    ensures exists lines: seq<string> ::
              && ReleasabilityFailure(stage).msg == Join(lines, "\n")
              && |lines| == |Relevant(checks)|
              && forall i :: 0 <= i < |lines| ==> Ok(lines[i]) == FormatRaCheck(Relevant(checks)[i])
  {
    FormatChecksKeepsRelevantInOrder(checks);
    var lines := FormatChecks(checks).value;
    assert FormatFailedReleasability(stage) == Ok(Join(lines, "\n"));
  }
}
