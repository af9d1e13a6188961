/**
 * The release plumbing of the newer action: publishing the artifacts a
 * build declares to the binaries bucket, revoking a release, and gating a
 * release on its releasability checks.
 */
module Release {
  import opened Py
  import opened Json
  import opened Effects
  import opened ReleaseRequest
  import BuildInfo
  import Binaries

  /** The deploy repository property of a build. */
  const DeployRepoProperty := "buildInfo.env.ARTIFACTORY_DEPLOY_REPO"

  /** The verb logged for an operation. */
  function GetAction(revoke: bool): (r: string)
    ensures r == "deleting" <==> revoke
    ensures r == "publishing" <==> !revoke
  {
    if revoke then "deleting" else "publishing"
  }

  /** The coordinates of one declared artifact; the qualifier is "" when absent. */
  datatype Coordinates = Coordinates(gid: string, aid: string, ext: string, qual: string)

  /**
   * An entry "gid:aid:ext[:qual...]": a fourth field becomes the qualifier,
   * further ones are ignored, fewer than three fields raise.
   */
  function ParseArtifact(artifact: string): Result<Coordinates> {
    var fields := Split(artifact, ':');
    if |fields| < 3 then Err(IndexError)
    else Ok(Coordinates(fields[0], fields[1], fields[2], if |fields| > 3 then fields[3] else ""))
  }

  /** The name of the released file, with the qualifier only when it is non-empty. */
  function FileName(c: Coordinates, version: string): string {
    if c.qual != "" then c.aid + "-" + version + "-" + c.qual + "." + c.ext
    else c.aid + "-" + version + "." + c.ext
  }

  /** The repository released files are taken from. */
  function ReleasesRepo(repo: string): string {
    Replace(repo, "builds", "releases")
  }

  /** Where the download leaves the file: the SonarQube distribution is saved under its published name. */
  function DownloadedFile(tmpDir: string, c: Coordinates, version: string): string {
    tmpDir + "/" + Binaries.PublishedName(FileName(c, version), c.aid, version).0
  }

  /**
   * The calls publishing (or, on revoke, deleting) one entry make when none
   * raises; an unparsable entry raises before any call.
   */
  function PublishPlan(bucket: string, tmpDir: string, artifact: string, version: string, repo: string, revoke: bool)
    : Result<seq<Effect>>
  {
    var c :- ParseArtifact(artifact);
    var filename := FileName(c, version);
    if revoke then Ok(Binaries.DeletePlan(bucket, filename, c.gid, c.aid, version))
    else
      Ok([Download(ReleasesRepo(repo), c.gid, c.aid, c.qual, c.ext, version, Binaries.UploadChecksums)]
         + Binaries.UploadPlan(bucket, DownloadedFile(tmpDir, c, version), filename, c.gid, c.aid, version))
  }

  /** The calls made by a plan that may raise before its first call. */
  function Run(plan: Result<seq<Effect>>, failing: map<Effect, Error>): (seq<Effect>, Result<()>) {
    match plan
    case Err(e) => ([], Err(e))
    case Ok(calls) => Issue(calls, failing)
  }

  /** What publishing (or deleting) each entry on its own does. */
  function EntryRuns(bucket: string, tmpDir: string, entries: seq<string>, version: string, repo: string, revoke: bool,
                     failing: map<Effect, Error>): seq<Outcome>
  {
    seq(|entries|, i requires 0 <= i < |entries| => EntryRun(bucket, tmpDir, entries[i], version, repo, revoke, failing))
  }

  /** What publishing (or deleting) one entry does. */
  function EntryRun(bucket: string, tmpDir: string, entry: string, version: string, repo: string, revoke: bool,
                    failing: map<Effect, Error>): Outcome
  {
    Run(PublishPlan(bucket, tmpDir, entry, version, repo, revoke), failing)
  }

  /**
   * Publishing (or revoking) every declared artifact of a build: the deploy
   * repository with "qa" turned into "builds", the version, then one entry
   * per ','-separated field when the declared artifacts are truthy.
   */
  function PublishAll(buildInfo: Json, bucket: string, tmpDir: string, revoke: bool, failing: map<Effect, Error>)
    : (seq<Effect>, Result<()>)
  {
    match AsStr(BuildInfo.GetProperty(buildInfo, DeployRepoProperty, JStr("")))
    case Err(e) => ([], Err(e))
    case Ok(deployRepo) =>
      match BuildInfo.GetVersion(buildInfo)
      case Err(e) => ([], Err(e))
      case Ok(version) =>
        var all := BuildInfo.GetArtifactsToPublish(buildInfo);
        if !Truthy(all) then ([], Ok(()))
        else if !all.JStr? then ([], Err(AttributeError("split on a non-string")))
        else Chain(EntryRuns(bucket, tmpDir, Split(all.s, ','), version, Replace(deployRepo, "qa", "builds"), revoke, failing))
  }

  // ----- properties of one entry -----

  /** Three ':'-free fields parse to those fields with no qualifier; the file is aid-version.ext. */
  lemma ParseThreeFields(gid: string, aid: string, ext: string, version: string)
    requires ':' !in gid && ':' !in aid && ':' !in ext
    ensures ParseArtifact(gid + ":" + aid + ":" + ext) == Ok(Coordinates(gid, aid, ext, ""))
    ensures FileName(Coordinates(gid, aid, ext, ""), version) == aid + "-" + version + "." + ext
  {
    SplitConcat(gid, ':', aid + ":" + ext);
    SplitConcat(aid, ':', ext);
    SplitNoSep(ext, ':');
    assert gid + ":" + aid + ":" + ext == gid + [':'] + (aid + [':'] + ext);
  }

  /** A fourth field is the qualifier and lands between the version and the extension. */
  lemma ParseFourFields(gid: string, aid: string, ext: string, qual: string, rest: string, version: string)
    requires ':' !in gid && ':' !in aid && ':' !in ext && ':' !in qual && qual != ""
    ensures ParseArtifact(gid + ":" + aid + ":" + ext + ":" + qual + rest).Ok?
    ensures ParseArtifact(gid + ":" + aid + ":" + ext + ":" + qual + rest).value == Coordinates(gid, aid, ext, Split(qual + rest, ':')[0])
    ensures rest == "" || rest[0] == ':' ==>
              FileName(ParseArtifact(gid + ":" + aid + ":" + ext + ":" + qual + rest).value, version)
              == aid + "-" + version + "-" + qual + "." + ext
  {
    var tail := qual + rest;
    assert gid + ":" + aid + ":" + ext + ":" + qual + rest == gid + [':'] + (aid + [':'] + (ext + [':'] + tail));
    SplitConcat(gid, ':', aid + [':'] + (ext + [':'] + tail));
    SplitConcat(aid, ':', ext + [':'] + tail);
    SplitConcat(ext, ':', tail);
    if rest == "" {
      SplitNoSep(qual, ':');
      assert tail == qual;
    } else if rest[0] == ':' {
      SplitConcat(qual, ':', rest[1..]);
      assert tail == qual + [':'] + rest[1..];
    }
  }

  /** An entry with fewer than three ':'-fields raises before any call. */
  lemma ShortEntryRaises(bucket: string, tmpDir: string, parts: seq<string>, version: string, repo: string, revoke: bool)
    requires 1 <= |parts| < 3
    requires forall i :: 0 <= i < |parts| ==> ':' !in parts[i]
    ensures PublishPlan(bucket, tmpDir, Join(parts, ":"), version, repo, revoke).Err?
  {
    SplitJoin(parts, ':');
  }

  /**
   * Revoking an entry only deletes: the file key and the keys extending it,
   * and downloads or uploads nothing.
   */
  lemma RevokeOnlyDeletes(bucket: string, tmpDir: string, artifact: string, version: string, repo: string)
    requires ParseArtifact(artifact).Ok?
    ensures var c := ParseArtifact(artifact).value;
            var key := Binaries.DeleteKey(FileName(c, version), c.gid, c.aid, version);
            PublishPlan(bucket, tmpDir, artifact, version, repo, true) == Ok([S3Delete(bucket, key), S3DeletePrefix(bucket, key + ".")])
  {
  }

  /**
   * Publishing an entry first downloads it, with its checksums, from the
   * repository with "builds" turned into "releases", then uploads the
   * downloaded file under the entry's file name.
   */
  lemma PublishDownloadsThenUploads(bucket: string, tmpDir: string, artifact: string, version: string, repo: string)
    requires ParseArtifact(artifact).Ok?
    ensures var c := ParseArtifact(artifact).value;
            var plan := PublishPlan(bucket, tmpDir, artifact, version, repo, false);
            && plan.Ok?
            && plan.value[0] == Download(Replace(repo, "builds", "releases"), c.gid, c.aid, c.qual, c.ext, version, Binaries.UploadChecksums)
            && plan.value[1..] == Binaries.UploadPlan(bucket, DownloadedFile(tmpDir, c, version), FileName(c, version), c.gid, c.aid, version)
            && forall k :: 0 <= k < |plan.value| ==> !plan.value[k].S3Delete? && !plan.value[k].S3DeletePrefix?
  {
    var c := ParseArtifact(artifact).value;
    var download := Download(ReleasesRepo(repo), c.gid, c.aid, c.qual, c.ext, version, Binaries.UploadChecksums);
    var upload := Binaries.UploadPlan(bucket, DownloadedFile(tmpDir, c, version), FileName(c, version), c.gid, c.aid, version);
    assert PublishPlan(bucket, tmpDir, artifact, version, repo, false) == Ok([download] + upload);
    Binaries.UploadPlanDeletesNothing(bucket, DownloadedFile(tmpDir, c, version), FileName(c, version), c.gid, c.aid, version);
    var plan := [download] + upload;
    assert plan[1..] == upload;
    forall k | 0 <= k < |plan|
      ensures !plan[k].S3Delete? && !plan[k].S3DeletePrefix?
    {
      if k > 0 {
        assert plan[k] == upload[k - 1];
      }
    }
  }

  // ----- properties of the whole publication -----

  /**
   * When every entry parses and no call raises, the calls are exactly the
   * plans of the entries, one entry after the other, in the listed order.
   */
  lemma PublishEntriesInOrder(bucket: string, tmpDir: string, entries: seq<string>, version: string,
                              repo: string, revoke: bool, failing: map<Effect, Error>)
    requires forall i :: 0 <= i < |entries| ==> PublishPlan(bucket, tmpDir, entries[i], version, repo, revoke).Ok?
    requires forall i :: 0 <= i < |entries| ==>
               forall e :: e in PublishPlan(bucket, tmpDir, entries[i], version, repo, revoke).value ==> e !in failing
    ensures Chain(EntryRuns(bucket, tmpDir, entries, version, repo, revoke, failing))
         == (Flatten(seq(|entries|, i requires 0 <= i < |entries| => PublishPlan(bucket, tmpDir, entries[i], version, repo, revoke).value)), Ok(()))
  {
    var runs := EntryRuns(bucket, tmpDir, entries, version, repo, revoke, failing);
    forall i | 0 <= i < |entries|
      ensures runs[i] == (PublishPlan(bucket, tmpDir, entries[i], version, repo, revoke).value, Ok(()))
    {
      var p := PublishPlan(bucket, tmpDir, entries[i], version, repo, revoke).value;
      assert forall k :: 0 <= k < |p| ==> p[k] !in failing;
      IssueNoneFailing(p, failing);
    }
    ChainInOrder(runs);
    assert seq(|runs|, i requires 0 <= i < |runs| => runs[i].0)
        == seq(|entries|, i requires 0 <= i < |entries| => PublishPlan(bucket, tmpDir, entries[i], version, repo, revoke).value);
  }

  /** With no declared artifacts nothing is called and nothing is raised. */
  lemma NoArtifactsNoCalls(buildInfo: Json, bucket: string, tmpDir: string, revoke: bool, failing: map<Effect, Error>)
    requires BuildInfo.GetProperty(buildInfo, DeployRepoProperty, JStr("")).JStr?
    requires BuildInfo.GetVersion(buildInfo).Ok?
    requires !Truthy(BuildInfo.GetArtifactsToPublish(buildInfo))
    ensures PublishAll(buildInfo, bucket, tmpDir, revoke, failing) == ([], Ok(()))
  {
  }

  /** The entries are published from the deploy repository with "qa" turned into "builds". */
  lemma PublishAllUsesDeployRepo(buildInfo: Json, bucket: string, tmpDir: string, revoke: bool, failing: map<Effect, Error>)
    requires BuildInfo.GetProperty(buildInfo, DeployRepoProperty, JStr("")).JStr?
    requires BuildInfo.GetVersion(buildInfo).Ok?
    requires BuildInfo.GetArtifactsToPublish(buildInfo).JStr? && BuildInfo.GetArtifactsToPublish(buildInfo).s != ""
    ensures PublishAll(buildInfo, bucket, tmpDir, revoke, failing)
         == Chain(EntryRuns(bucket, tmpDir, Split(BuildInfo.GetArtifactsToPublish(buildInfo).s, ','),
                            BuildInfo.GetVersion(buildInfo).value,
                            Replace(BuildInfo.GetProperty(buildInfo, DeployRepoProperty, JStr("")).s, "qa", "builds"),
                            revoke, failing))
  {
    var deployRepo := BuildInfo.GetProperty(buildInfo, DeployRepoProperty, JStr("")).s;
    assert AsStr(BuildInfo.GetProperty(buildInfo, DeployRepoProperty, JStr(""))) == Ok(deployRepo);
    assert Truthy(BuildInfo.GetArtifactsToPublish(buildInfo));
  }

  // ----- revocation -----

  /**
   * Revoking a release: fetch the build info, unpromote it, then, when a
   * binaries client exists, delete every declared artifact. Errors of the
   * unpromotion and of the deletion are re-raised as they are.
   */
  function RevokeOutcome(rr: ReleaseRequest, buildInfo: Json, bucket: Option<string>, tmpDir: string,
                         failing: map<Effect, Error>): (seq<Effect>, Result<()>)
  {
    var unpromoted := Issue([ReceiveBuildInfo(rr.project, rr.buildnumber), Promote(rr.project, rr.buildnumber, true)], failing);
    if unpromoted.1.Err? || bucket.None? then unpromoted
    else
      var deleted := PublishAll(buildInfo, bucket.value, tmpDir, true, failing);
      (unpromoted.0 + deleted.0, deleted.1)
  }

  /** Fetching the build info, then unpromoting, each raising when it is failing. */
  lemma UnpromoteCalls(rr: ReleaseRequest, failing: map<Effect, Error>)
    ensures var fetch := ReceiveBuildInfo(rr.project, rr.buildnumber);
            var unpromote := Promote(rr.project, rr.buildnumber, true);
            Issue([fetch, unpromote], failing)
            == if fetch in failing then ([fetch], Err(failing[fetch]))
               else if unpromote in failing then ([fetch, unpromote], Err(failing[unpromote]))
               else ([fetch, unpromote], Ok(()))
  {
    var fetch := ReceiveBuildInfo(rr.project, rr.buildnumber);
    var unpromote := Promote(rr.project, rr.buildnumber, true);
    IssueSingle(fetch, failing);
    IssueSingle(unpromote, failing);
    IssueAppend([fetch], [unpromote], failing);
    assert [fetch] + [unpromote] == [fetch, unpromote];
  }

  /**
   * The build info is fetched first and a failure there raises at once;
   * unpromotion comes next, and a failed unpromotion touches no binaries
   * and re-raises its own error.
   */
  lemma RevokeUnpromotesFirst(rr: ReleaseRequest, buildInfo: Json, bucket: Option<string>, tmpDir: string,
                              failing: map<Effect, Error>)
    ensures var (calls, r) := RevokeOutcome(rr, buildInfo, bucket, tmpDir, failing);
            && (ReceiveBuildInfo(rr.project, rr.buildnumber) in failing ==>
                  calls == [ReceiveBuildInfo(rr.project, rr.buildnumber)] && r == Err(failing[ReceiveBuildInfo(rr.project, rr.buildnumber)]))
            && (ReceiveBuildInfo(rr.project, rr.buildnumber) !in failing ==>
                  && |calls| >= 2
                  && calls[..2] == [ReceiveBuildInfo(rr.project, rr.buildnumber), Promote(rr.project, rr.buildnumber, true)]
                  && (Promote(rr.project, rr.buildnumber, true) in failing ==>
                        |calls| == 2 && r == Err(failing[Promote(rr.project, rr.buildnumber, true)])))
  {
    UnpromoteCalls(rr, failing);
    var calls := RevokeOutcome(rr, buildInfo, bucket, tmpDir, failing).0;
    var first := Issue([ReceiveBuildInfo(rr.project, rr.buildnumber), Promote(rr.project, rr.buildnumber, true)], failing);
    if first.1.Ok? && bucket.Some? {
      assert calls[..2] == first.0;
    }
  }

  /** Without a binaries client, revocation only unpromotes. */
  lemma RevokeWithoutBinaries(rr: ReleaseRequest, buildInfo: Json, tmpDir: string, failing: map<Effect, Error>)
    requires ReceiveBuildInfo(rr.project, rr.buildnumber) !in failing
    requires Promote(rr.project, rr.buildnumber, true) !in failing
    ensures RevokeOutcome(rr, buildInfo, None, tmpDir, failing)
         == ([ReceiveBuildInfo(rr.project, rr.buildnumber), Promote(rr.project, rr.buildnumber, true)], Ok(()))
  {
    UnpromoteCalls(rr, failing);
  }

  /** With a binaries client, the deletion's outcome, error included, is the revocation's outcome. */
  lemma RevokeReraisesDeletionError(rr: ReleaseRequest, buildInfo: Json, bucket: string, tmpDir: string,
                                    failing: map<Effect, Error>)
    requires ReceiveBuildInfo(rr.project, rr.buildnumber) !in failing
    requires Promote(rr.project, rr.buildnumber, true) !in failing
    ensures var deleted := PublishAll(buildInfo, bucket, tmpDir, true, failing);
            RevokeOutcome(rr, buildInfo, Some(bucket), tmpDir, failing)
            == ([ReceiveBuildInfo(rr.project, rr.buildnumber), Promote(rr.project, rr.buildnumber, true)] + deleted.0, deleted.1)
    ensures Issue([ReceiveBuildInfo(rr.project, rr.buildnumber), Promote(rr.project, rr.buildnumber, true)], failing)
         == ([ReceiveBuildInfo(rr.project, rr.buildnumber), Promote(rr.project, rr.buildnumber, true)], Ok(()))
  {
    UnpromoteCalls(rr, failing);
  }

  // ----- releasability gate -----

  /** The text notified on Slack when the gate fails. */
  function FailureNotice(rr: ReleaseRequest): string {
    "Released " + rr.project + ":" + rr.version + " failed"
  }

  /** The request the gate works on: the one given, else the one read from the GitHub event. */
  function Requested(request: Option<ReleaseRequest>, fromGitHub: Result<ReleaseRequest>): Result<ReleaseRequest> {
    if request.Some? then Ok(request.value) else fromGitHub
  }

  /**
   * The calls of a successful gate, with the version handed to Burgr:
   * start the checks, wait for their status, then set the step output.
   */
  function GateCalls(rr: ReleaseRequest): seq<Effect> {
    [StartReleasabilityChecks(rr.version), GetReleasabilityStatus(rr.version), SetOutput("releasability", "releasability done")]
  }

  /** The clean-up after a failed check: tell Slack, revoke the GitHub release. */
  function GateCleanup(rr: ReleaseRequest): seq<Effect> {
    [NotifySlack(FailureNotice(rr)), RevokeGitHubRelease]
  }

  /**
   * The releasability gate, with the version passed to both Burgr calls.
   * Any exception of the checks notifies Slack, revokes the GitHub
   * release, and is re-raised.
   */
  function GateOutcome(request: Option<ReleaseRequest>, fromGitHub: Result<ReleaseRequest>,
                       failing: map<Effect, Error>): (seq<Effect>, Result<()>)
  {
    var rr := Requested(request, fromGitHub);
    if rr.Err? then ([], Err(rr.error))
    else
      var gate := Issue(GateCalls(rr.value), failing);
      if gate.1.Ok? then gate
      else
        var cleanup := Issue(GateCleanup(rr.value), failing);
        (gate.0 + cleanup.0, if cleanup.1.Err? then cleanup.1 else gate.1)
  }

  /** What Python raises for `burgr.start_releasability_checks()` called without its `version`. */
  const StartArity := "start_releasability_checks() missing 1 required positional argument: 'version'"

  /**
   * The gate as written: both Burgr calls omit their required `version`,
   * so the start call raises `TypeError` before any request is sent, and
   * the clean-up follows.
   */
  function GateOutcomeAsWritten(request: Option<ReleaseRequest>, fromGitHub: Result<ReleaseRequest>,
                                failing: map<Effect, Error>): (seq<Effect>, Result<()>)
  {
    var rr := Requested(request, fromGitHub);
    if rr.Err? then ([], Err(rr.error))
    else
      var cleanup := Issue(GateCleanup(rr.value), failing);
      (cleanup.0, if cleanup.1.Err? then cleanup.1 else Err(TypeError(StartArity)))
  }

  /**
   * As written, the gate never passes: whatever Burgr and the other services
   * would answer, the outcome is an error, the checks are never started, and
   * the output is never set.
   */
  lemma GateAsWrittenNeverPasses(request: Option<ReleaseRequest>, fromGitHub: Result<ReleaseRequest>,
                                 failing: map<Effect, Error>)
    ensures var run := GateOutcomeAsWritten(request, fromGitHub, failing);
            && run.1.Err?
            && forall e :: e in run.0 ==> e.NotifySlack? || e.RevokeGitHubRelease?
  {
    var rr := Requested(request, fromGitHub);
    if rr.Ok? {
      IssuedArePlanned(GateCleanup(rr.value), failing);
    }
  }

  /**
   * Where the corrected gate passes, the gate as written reports the failed
   * release, revokes it and raises `TypeError`.
   */
  lemma GateAsWrittenAlwaysFails(rr: ReleaseRequest, fromGitHub: Result<ReleaseRequest>, failing: map<Effect, Error>)
    requires forall k :: 0 <= k < 3 ==> GateCalls(rr)[k] !in failing
    requires NotifySlack(FailureNotice(rr)) !in failing && RevokeGitHubRelease !in failing
    ensures GateOutcomeAsWritten(Some(rr), fromGitHub, failing)
         == ([NotifySlack(FailureNotice(rr)), RevokeGitHubRelease], Err(TypeError(StartArity)))
    ensures GateOutcome(Some(rr), fromGitHub, failing) == (GateCalls(rr), Ok(()))
  {
    IssueNoneFailing(GateCleanup(rr), failing);
    IssueNoneFailing(GateCalls(rr), failing);
  }

  /** A gate whose checks pass makes exactly its three calls, with the request's version. */
  lemma GatePasses(request: Option<ReleaseRequest>, fromGitHub: Result<ReleaseRequest>, failing: map<Effect, Error>)
    requires Requested(request, fromGitHub).Ok?
    requires var v := Requested(request, fromGitHub).value.version;
             StartReleasabilityChecks(v) !in failing && GetReleasabilityStatus(v) !in failing
    requires SetOutput("releasability", "releasability done") !in failing
    ensures var rr := Requested(request, fromGitHub).value;
            GateOutcome(request, fromGitHub, failing) == (GateCalls(rr), Ok(()))
  {
    var calls := GateCalls(Requested(request, fromGitHub).value);
    assert forall k :: 0 <= k < |calls| ==> calls[k] !in failing;
    IssueNoneFailing(calls, failing);
  }

  /**
   * When starting the checks raises, Slack is notified of the failed
   * release, the GitHub release is revoked, and the original error is
   * raised again.
   */
  lemma GateStartFailure(rr: ReleaseRequest, fromGitHub: Result<ReleaseRequest>, failing: map<Effect, Error>)
    requires StartReleasabilityChecks(rr.version) in failing
    requires NotifySlack(FailureNotice(rr)) !in failing && RevokeGitHubRelease !in failing
    ensures GateOutcome(Some(rr), fromGitHub, failing)
         == ([StartReleasabilityChecks(rr.version), NotifySlack(FailureNotice(rr)), RevokeGitHubRelease],
             Err(failing[StartReleasabilityChecks(rr.version)]))
  {
    var start := StartReleasabilityChecks(rr.version);
    var calls := GateCalls(rr);
    IssueNoneFailing(GateCleanup(rr), failing);
    IssueSingle(start, failing);
    IssueAppend([start], calls[1..], failing);
    assert [start] + calls[1..] == calls;
    assert Issue(calls, failing) == ([start], Err(failing[start]));
    assert [start] + GateCleanup(rr) == [start, NotifySlack(FailureNotice(rr)), RevokeGitHubRelease];
  }

  /**
   * When the status check raises, the same clean-up follows and the status
   * error is raised again.
   */
  lemma GateStatusFailure(rr: ReleaseRequest, fromGitHub: Result<ReleaseRequest>, failing: map<Effect, Error>)
    requires StartReleasabilityChecks(rr.version) !in failing && GetReleasabilityStatus(rr.version) in failing
    requires NotifySlack(FailureNotice(rr)) !in failing && RevokeGitHubRelease !in failing
    ensures GateOutcome(Some(rr), fromGitHub, failing)
         == ([StartReleasabilityChecks(rr.version), GetReleasabilityStatus(rr.version), NotifySlack(FailureNotice(rr)), RevokeGitHubRelease],
             Err(failing[GetReleasabilityStatus(rr.version)]))
  {
    var start := StartReleasabilityChecks(rr.version);
    var status := GetReleasabilityStatus(rr.version);
    var calls := GateCalls(rr);
    IssueNoneFailing(GateCleanup(rr), failing);
    IssueNoneFailing([start], failing);
    IssueSingle(status, failing);
    IssueAppend([start], [status], failing);
    IssueAppend([start, status], calls[2..], failing);
    assert [start] + [status] == [start, status];
    assert [start, status] + calls[2..] == calls;
    assert Issue(calls, failing) == ([start, status], Err(failing[status]));
    assert [start, status] + GateCleanup(rr) == [start, status, NotifySlack(FailureNotice(rr)), RevokeGitHubRelease];
  }

  // ----- the steps, run against the world -----

  /** Publishes or deletes one declared entry. */
  method PublishArtifact(world: World, binaries: Binaries.Binaries, tmpDir: string, artifact: string,
                         version: string, repo: string, revoke: bool) returns (r: Result<()>)
    modifies world
    ensures var run := EntryRun(binaries.binariesBucketName, tmpDir, artifact, version, repo, revoke, world.failing);
            (world.trace, r) == (old(world.trace) + run.0, run.1)
  {
    var parsed := ParseArtifact(artifact);
    if parsed.Err? {
      assert old(world.trace) + [] == world.trace;
      return Err(parsed.error);
    }
    var c := parsed.value;
    var filename := FileName(c, version);
    var bucket := binaries.binariesBucketName;
    if revoke {
      EntryRunOfDelete(bucket, tmpDir, artifact, version, repo, world.failing, c);
      r := binaries.S3Delete(world, filename, c.gid, c.aid, version);
    } else {
      var download := Download(ReleasesRepo(repo), c.gid, c.aid, c.qual, c.ext, version, Binaries.UploadChecksums);
      var upload := Binaries.UploadPlan(bucket, DownloadedFile(tmpDir, c, version), filename, c.gid, c.aid, version);
      EntryRunOfUpload(bucket, tmpDir, artifact, version, repo, world.failing, c);
      IssueAppend([download], upload, world.failing);
      IssueSingle(download, world.failing);
      r := world.Call(download);
      if r.Err? {
        return;
      }
      assert world.trace == old(world.trace) + [download];
      r := binaries.S3Upload(world, DownloadedFile(tmpDir, c, version), filename, c.gid, c.aid, version);
      SeqAssoc(old(world.trace), [download], Issue(upload, world.failing).0);
    }
  }

  lemma EntryRunOfDelete(bucket: string, tmpDir: string, artifact: string, version: string, repo: string,
                         failing: map<Effect, Error>, c: Coordinates)
    requires ParseArtifact(artifact) == Ok(c)
    ensures EntryRun(bucket, tmpDir, artifact, version, repo, true, failing)
         == Issue(Binaries.DeletePlan(bucket, FileName(c, version), c.gid, c.aid, version), failing)
  {
  }

  lemma EntryRunOfUpload(bucket: string, tmpDir: string, artifact: string, version: string, repo: string,
                         failing: map<Effect, Error>, c: Coordinates)
    requires ParseArtifact(artifact) == Ok(c)
    ensures EntryRun(bucket, tmpDir, artifact, version, repo, false, failing)
         == Issue([Download(ReleasesRepo(repo), c.gid, c.aid, c.qual, c.ext, version, Binaries.UploadChecksums)]
                  + Binaries.UploadPlan(bucket, DownloadedFile(tmpDir, c, version), FileName(c, version), c.gid, c.aid, version),
                  failing)
  {
  }

  /** Publishes or deletes every declared artifact of a build, in order. */
  method PublishAllArtifactsToBinaries(world: World, binaries: Binaries.Binaries, tmpDir: string, buildInfo: Json,
                                       revoke: bool) returns (r: Result<()>)
    modifies world
    ensures var run := PublishAll(buildInfo, binaries.binariesBucketName, tmpDir, revoke, world.failing);
            (world.trace, r) == (old(world.trace) + run.0, run.1)
  {
    assert old(world.trace) + [] == world.trace;
    var deployRepo := AsStr(BuildInfo.GetProperty(buildInfo, DeployRepoProperty, JStr("")));
    if deployRepo.Err? {
      return Err(deployRepo.error);
    }
    var repo := Replace(deployRepo.value, "qa", "builds");
    var version := BuildInfo.GetVersion(buildInfo);
    if version.Err? {
      return Err(version.error);
    }
    var all := BuildInfo.GetArtifactsToPublish(buildInfo);
    r := Ok(());
    if Truthy(all) {
      if !all.JStr? {
        return Err(AttributeError("split on a non-string"));
      }
      r := PublishEach(world, binaries, tmpDir, Split(all.s, ','), version.value, repo, revoke);
    }
  }

  /** The entries' outcomes, described one entry at a time. */
  predicate OneByOne(runs: seq<Outcome>, bucket: string, tmpDir: string, entries: seq<string>, version: string,
                     repo: string, revoke: bool, failing: map<Effect, Error>)
  {
    && |runs| == |entries|
    && forall k {:trigger EntryRun(bucket, tmpDir, entries[k], version, repo, revoke, failing)} ::
         0 <= k < |entries| ==> runs[k] == EntryRun(bucket, tmpDir, entries[k], version, repo, revoke, failing)
  }

  /** Described one entry at a time, the outcomes are exactly `EntryRuns`. */
  lemma EntryRunsOneByOne(runs: seq<Outcome>, bucket: string, tmpDir: string, entries: seq<string>, version: string,
                          repo: string, revoke: bool, failing: map<Effect, Error>)
    ensures OneByOne(runs, bucket, tmpDir, entries, version, repo, revoke, failing)
        <==> runs == EntryRuns(bucket, tmpDir, entries, version, repo, revoke, failing)
  {
  }

  /** One turn of the loop over the entries: publishing the i-th. */
  method PublishNext(world: World, binaries: Binaries.Binaries, tmpDir: string, artifacts: seq<string>, i: int,
                     version: string, repo: string, revoke: bool, ghost runs: seq<Outcome>) returns (r: Result<()>)
    requires 0 <= i < |artifacts|
    requires OneByOne(runs, binaries.binariesBucketName, tmpDir, artifacts, version, repo, revoke, world.failing)
    modifies world
    ensures (world.trace, r) == (old(world.trace) + runs[i].0, runs[i].1)
  {
    r := PublishArtifact(world, binaries, tmpDir, artifacts[i], version, repo, revoke);
  }

  /** The loop over the declared entries, stopping at the first that raises. */
  method PublishEach(world: World, binaries: Binaries.Binaries, tmpDir: string, artifacts: seq<string>,
                     version: string, repo: string, revoke: bool) returns (r: Result<()>)
    modifies world
    ensures var run := Chain(EntryRuns(binaries.binariesBucketName, tmpDir, artifacts, version, repo, revoke, world.failing));
            (world.trace, r) == (old(world.trace) + run.0, run.1)
  {
    r := Ok(());
    ghost var runs: seq<Outcome> :| OneByOne(runs, binaries.binariesBucketName, tmpDir, artifacts, version, repo, revoke, world.failing)
    by {
      EntryRunsOneByOne(EntryRuns(binaries.binariesBucketName, tmpDir, artifacts, version, repo, revoke, world.failing),
                        binaries.binariesBucketName, tmpDir, artifacts, version, repo, revoke, world.failing);
    }
    assert runs[..0] == [];
    assert world.trace == old(world.trace) + [];
    assert OneByOne(runs, binaries.binariesBucketName, tmpDir, artifacts, version, repo, revoke, world.failing);
    for i := 0 to |artifacts|
      invariant Chain(runs[..i]).1 == Ok(())
      invariant world.trace == old(world.trace) + Chain(runs[..i]).0
      invariant r == Ok(())
    {
      ChainStep(runs, i);
      ghost var before := Chain(runs[..i]).0;
      r := PublishNext(world, binaries, tmpDir, artifacts, i, version, repo, revoke, runs);
      assert world.trace == old(world.trace) + (before + runs[i].0);
      if r.Err? {
        EntryRunsOneByOne(runs, binaries.binariesBucketName, tmpDir, artifacts, version, repo, revoke, world.failing);
        return;
      }
      assert r.value == ();
    }
    assert runs[..|artifacts|] == runs;
    EntryRunsOneByOne(runs, binaries.binariesBucketName, tmpDir, artifacts, version, repo, revoke, world.failing);
  }

  /**
   * Revokes a release: the build info is fetched, the build unpromoted, and
   * with a binaries client every declared artifact deleted.
   */
  method RevokeRelease(world: World, binaries: Binaries.Binaries?, rr: ReleaseRequest, buildInfo: Json, tmpDir: string)
    returns (r: Result<()>)
    modifies world
    ensures var bucket := if binaries == null then None else Some(binaries.binariesBucketName);
            var run := RevokeOutcome(rr, buildInfo, bucket, tmpDir, world.failing);
            (world.trace, r) == (old(world.trace) + run.0, run.1)
  {
    r := world.CallAll([ReceiveBuildInfo(rr.project, rr.buildnumber), Promote(rr.project, rr.buildnumber, true)]);
    if r.Err? || binaries == null {
      return;
    }
    RevokeReraisesDeletionError(rr, buildInfo, binaries.binariesBucketName, tmpDir, world.failing);
    ghost var pre := [ReceiveBuildInfo(rr.project, rr.buildnumber), Promote(rr.project, rr.buildnumber, true)];
    ghost var deleted := PublishAll(buildInfo, binaries.binariesBucketName, tmpDir, true, world.failing);
    assert world.trace == old(world.trace) + pre;
    r := PublishAllArtifactsToBinaries(world, binaries, tmpDir, buildInfo, true);
    AppendAssoc(old(world.trace), pre, deleted.0);
  }

  /**
   * The releasability gate against the world, with the version passed to
   * Burgr: start the checks, wait for them, set the output; on an exception
   * notify Slack, revoke the GitHub release and raise again.
   */
  method ReleasabilityChecks(world: World, request: Option<ReleaseRequest>, fromGitHub: Result<ReleaseRequest>)
    returns (r: Result<()>)
    modifies world
    ensures var run := GateOutcome(request, fromGitHub, world.failing);
            (world.trace, r) == (old(world.trace) + run.0, run.1)
  {
    var rr := Requested(request, fromGitHub);
    if rr.Err? {
      assert world.trace == old(world.trace) + [];
      return Err(rr.error);
    }
    ghost var before := world.trace;
    r := world.CallAll(GateCalls(rr.value));
    if r.Err? {
      ghost var gateCalls := world.trace;
      var cleanup := world.CallAll(GateCleanup(rr.value));
      assert world.trace == before + (gateCalls[|before|..] + world.trace[|gateCalls|..]);
      if cleanup.Err? {
        r := cleanup;
      }
    }
  }
}
