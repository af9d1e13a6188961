/**
 * The distribution step of the older action: a build whose declared
 * artifacts belong to the public SonarSource group is handed to the
 * distribution of the repository manager; any exception is raised again.
 */
module Distribute {
  import opened Py
  import opened Json
  import opened Effects
  import opened ReleaseRequest
  import BuildInfo

  /**
   * `distribute_release`: fetch the build info; when `check_public` holds,
   * distribute the build. `check_public` is `BuildInfo.IsPublic`: the
   * declared artifacts are truthy and hold "org.sonarsource".
   */
  function DistributeOutcome(rr: ReleaseRequest, buildInfo: Json, failing: map<Effect, Error>): Outcome {
    var fetch := ReceiveBuildInfo(rr.project, rr.buildnumber);
    var distribute := DistributeBuild(rr.project, rr.buildnumber);
    if fetch in failing then ([fetch], Err(failing[fetch]))
    else
      match BuildInfo.IsPublic(buildInfo)
      case Err(e) => ([fetch], Err(e))
      case Ok(public) =>
        if !public then ([fetch], Ok(()))
        else if distribute in failing then ([fetch, distribute], Err(failing[distribute]))
        else ([fetch, distribute], Ok(()))
  }

  /**
   * Once the build info is fetched, the build is distributed exactly when
   * it is public, and nothing else is called.
   */
  lemma DistributesOnlyWhenPublic(rr: ReleaseRequest, buildInfo: Json, failing: map<Effect, Error>)
    requires ReceiveBuildInfo(rr.project, rr.buildnumber) !in failing
    ensures var (calls, r) := DistributeOutcome(rr, buildInfo, failing);
            && calls[0] == ReceiveBuildInfo(rr.project, rr.buildnumber)
            && (DistributeBuild(rr.project, rr.buildnumber) in calls <==> BuildInfo.IsPublic(buildInfo) == Ok(true))
            && |calls| == (if BuildInfo.IsPublic(buildInfo) == Ok(true) then 2 else 1)
  {
    assert ReceiveBuildInfo(rr.project, rr.buildnumber) != DistributeBuild(rr.project, rr.buildnumber);
  }

  /**
   * With declared artifacts given as text, the build is distributed exactly
   * when that text contains "org.sonarsource"; with none, it never is.
   */
  lemma DistributesWhenTextNamesPublicGroup(rr: ReleaseRequest, buildInfo: Json, failing: map<Effect, Error>)
    requires ReceiveBuildInfo(rr.project, rr.buildnumber) !in failing
    ensures !Truthy(BuildInfo.GetArtifactsToPublish(buildInfo)) ==>
              DistributeOutcome(rr, buildInfo, failing) == ([ReceiveBuildInfo(rr.project, rr.buildnumber)], Ok(()))
    ensures BuildInfo.GetArtifactsToPublish(buildInfo).JStr? ==>
              (DistributeBuild(rr.project, rr.buildnumber) in DistributeOutcome(rr, buildInfo, failing).0
               <==> Contains(BuildInfo.GetArtifactsToPublish(buildInfo).s, BuildInfo.PublicGroup))
  {
    DistributesOnlyWhenPublic(rr, buildInfo, failing);
    if BuildInfo.GetArtifactsToPublish(buildInfo).JStr? {
      BuildInfo.IsPublicIffContains(buildInfo);
    }
  }

  /**
   * The exception of the distribution, and that of the public check, is
   * raised as it is.
   */
  lemma DistributeReraises(rr: ReleaseRequest, buildInfo: Json, failing: map<Effect, Error>)
    requires ReceiveBuildInfo(rr.project, rr.buildnumber) !in failing
    ensures BuildInfo.IsPublic(buildInfo).Err? ==>
              DistributeOutcome(rr, buildInfo, failing).1 == Err(BuildInfo.IsPublic(buildInfo).error)
    ensures BuildInfo.IsPublic(buildInfo) == Ok(true) && DistributeBuild(rr.project, rr.buildnumber) in failing ==>
              DistributeOutcome(rr, buildInfo, failing).1 == Err(failing[DistributeBuild(rr.project, rr.buildnumber)])
  {
  }

  /** `distribute_release` against the world. */
  method DistributeRelease(world: World, rr: ReleaseRequest, buildInfo: Json) returns (r: Result<()>)
    modifies world
    ensures var run := DistributeOutcome(rr, buildInfo, world.failing);
            (world.trace, r) == (old(world.trace) + run.0, run.1)
  {
    IssueSingle(ReceiveBuildInfo(rr.project, rr.buildnumber), world.failing);
    IssueSingle(DistributeBuild(rr.project, rr.buildnumber), world.failing);
    r := world.Call(ReceiveBuildInfo(rr.project, rr.buildnumber));
    if r.Err? {
      return;
    }
    var public := BuildInfo.IsPublic(buildInfo);
    if public.Err? {
      return Err(public.error);
    }
    if public.value {
      r := world.Call(DistributeBuild(rr.project, rr.buildnumber));
      assert world.trace == old(world.trace) + [ReceiveBuildInfo(rr.project, rr.buildnumber), DistributeBuild(rr.project, rr.buildnumber)];
    }
  }
}
