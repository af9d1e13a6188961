/**
 * The release step of the older action: promote the build, put its
 * declared artifacts on the binaries host, and tell Burgr how it went.
 * Entries are parsed and named as in the newer action; the upload goes
 * through the binaries host, which answers with the URL of the file.
 */
module StepsRelease {
  import opened Py
  import opened Json
  import opened Effects
  import opened ReleaseRequest
  import BuildInfo
  import Binaries
  import Release

  const BinariesUrl := "https://binaries.sonarsource.com"
  /** Where the download of the older action leaves its files. */
  const DownloadDir := "/tmp"

  /** What a call that answers with a text did: the calls made and the text, or the exception. */
  type UrlOutcome = (seq<Effect>, Result<string>)

  /** The URL a file is published under on the binaries host. */
  function ReleaseUrl(filename: string, aid: string): string {
    if aid == Binaries.SonarLintSite then BinariesUrl + "/" + Binaries.SonarLintReleases + "/" + filename
    else BinariesUrl + "/" + Binaries.OssRepo + "/" + aid + "/" + filename
  }

  /** The download of one entry, from the repository with "builds" turned into "releases". */
  function DownloadOf(c: Release.Coordinates, version: string, repo: string): Effect {
    Download(Release.ReleasesRepo(repo), c.gid, c.aid, c.qual, c.ext, version, [])
  }

  /** The upload of one downloaded entry to the binaries host. */
  function UploadOf(c: Release.Coordinates, version: string): Effect {
    BinariesUpload(Release.DownloadedFile(DownloadDir, c, version), Release.FileName(c, version), c.aid, version)
  }

  /** The message of the exception the upload call raises: it passes five arguments to a four-parameter function. */
  const UploadArity := "upload() takes 4 positional arguments but 5 were given"

  /**
   * `publish_artifact` as written: the upload is called with the group id as
   * an extra argument, which raises as soon as the download is done.
   */
  function PublishArtifactAsWritten(artifact: string, version: string, repo: string, failing: map<Effect, Error>): UrlOutcome {
    match Release.ParseArtifact(artifact)
    case Err(e) => ([], Err(e))
    case Ok(c) =>
      var download := DownloadOf(c, version, repo);
      if download in failing then ([download], Err(failing[download]))
      else ([download], Err(TypeError(UploadArity)))
  }

  /** `publish_artifact` with the upload called as declared: download, upload, and the URL of the file. */
  function PublishArtifact(artifact: string, version: string, repo: string, failing: map<Effect, Error>): UrlOutcome {
    match Release.ParseArtifact(artifact)
    case Err(e) => ([], Err(e))
    case Ok(c) =>
      var download := DownloadOf(c, version, repo);
      var upload := UploadOf(c, version);
      if download in failing then ([download], Err(failing[download]))
      else if upload in failing then ([download, upload], Err(failing[upload]))
      else ([download, upload], Ok(ReleaseUrl(Release.FileName(c, version), c.aid)))
  }

  /** The calls publishing an entry makes when none raises. */
  function EntryCalls(artifact: string, version: string, repo: string): seq<Effect> {
    match Release.ParseArtifact(artifact)
    case Ok(c) => [DownloadOf(c, version, repo), UploadOf(c, version)]
    case Err(_) => []
  }

  /** The URL of an entry's file once published. */
  function EntryUrl(artifact: string, version: string): string {
    match Release.ParseArtifact(artifact)
    case Ok(c) => ReleaseUrl(Release.FileName(c, version), c.aid)
    case Err(_) => ""
  }

  /** An entry that parses and whose calls do not raise gives the URL of its file. */
  predicate Publishes(artifact: string, version: string, repo: string, failing: map<Effect, Error>) {
    && Release.ParseArtifact(artifact).Ok?
    && DownloadOf(Release.ParseArtifact(artifact).value, version, repo) !in failing
    && UploadOf(Release.ParseArtifact(artifact).value, version) !in failing
  }

  /**
   * As written, no entry is ever published: every entry whose download
   * succeeds raises `TypeError`, where the corrected step publishes it.
   */
  lemma AsWrittenNeverUploads(artifact: string, version: string, repo: string, failing: map<Effect, Error>)
    requires Publishes(artifact, version, repo, failing)
    ensures var c := Release.ParseArtifact(artifact).value;
            && PublishArtifactAsWritten(artifact, version, repo, failing) == ([DownloadOf(c, version, repo)], Err(TypeError(UploadArity)))
            && PublishArtifact(artifact, version, repo, failing)
               == ([DownloadOf(c, version, repo), UploadOf(c, version)], Ok(ReleaseUrl(Release.FileName(c, version), c.aid)))
  {
  }

  /** Both versions agree wherever the upload is not reached. */
  lemma AsWrittenAgreesBeforeUpload(artifact: string, version: string, repo: string, failing: map<Effect, Error>)
    requires Release.ParseArtifact(artifact).Err? || DownloadOf(Release.ParseArtifact(artifact).value, version, repo) in failing
    ensures PublishArtifactAsWritten(artifact, version, repo, failing) == PublishArtifact(artifact, version, repo, failing)
    ensures PublishArtifact(artifact, version, repo, failing).1.Err?
  {
  }

  /**
   * The URL names the key the file lands under: outside commercial groups
   * and the SonarQube rename, it is the binaries host followed by the
   * upload key of the newer action.
   */
  lemma ReleaseUrlIsUploadKey(filename: string, gid: string, aid: string, version: string)
    requires !StartsWith(gid, "com.") && aid != Binaries.SonarQubeApplication
    ensures ReleaseUrl(filename, aid) == BinariesUrl + "/" + Binaries.UploadKey(filename, gid, aid, version)
  {
    assert Binaries.PublishedName(filename, aid, version) == (filename, aid);
    if aid == Binaries.SonarLintSite {
      assert Binaries.UploadKey(filename, gid, aid, version) == Binaries.SonarLintReleases + "/" + filename;
      UnderHost(BinariesUrl, Binaries.SonarLintReleases, filename);
    } else {
      assert Binaries.GetBinariesRepo(gid) == Binaries.OssRepo;
      assert Binaries.UploadKey(filename, gid, aid, version) == Binaries.OssRepo + "/" + aid + "/" + filename;
      UnderHost(Binaries.OssRepo, aid, filename);
      UnderHost(BinariesUrl, Binaries.OssRepo + "/" + aid, filename);
      UnderHost(BinariesUrl, Binaries.OssRepo, aid);
    }
  }

  /** A path of two parts under a prefix, regrouped. */
  lemma UnderHost(host: string, a: string, b: string)
    ensures host + "/" + a + "/" + b == host + "/" + (a + "/" + b)
  {
  }

  /**
   * The entries published one after the other, stopping at the first that
   * raises; the text is the URL of the last entry published, or `url` when
   * there is none.
   */
  function PublishSeq(entries: seq<string>, version: string, repo: string, failing: map<Effect, Error>, url: string): UrlOutcome
    decreases |entries|
  {
    if |entries| == 0 then ([], Ok(url))
    else
      var first := PublishArtifact(entries[0], version, repo, failing);
      if first.1.Err? then first
      else
        var rest := PublishSeq(entries[1..], version, repo, failing, first.1.value);
        (first.0 + rest.0, rest.1)
  }

  /**
   * `publish_all_artifacts`: "" without declared artifacts, the single
   * entry's URL directly, or the entries published in order and the URL of
   * the last one.
   */
  function PublishAll(buildInfo: Json, failing: map<Effect, Error>): UrlOutcome {
    match AsStr(BuildInfo.GetProperty(buildInfo, Release.DeployRepoProperty, JStr("")))
    case Err(e) => ([], Err(e))
    case Ok(deployRepo) =>
      match BuildInfo.GetVersion(buildInfo)
      case Err(e) => ([], Err(e))
      case Ok(version) =>
        var all := BuildInfo.GetArtifactsToPublish(buildInfo);
        var repo := Replace(deployRepo, "qa", "builds");
        if !Truthy(all) then ([], Ok(""))
        else if !all.JStr? then ([], Err(AttributeError("split on a non-string")))
        else
          var entries := Split(all.s, ',');
          if |entries| == 1 then PublishArtifact(entries[0], version, repo, failing)
          else PublishSeq(entries, version, repo, failing, "")
  }

  /** Without declared artifacts nothing is called and the URL is "". */
  lemma NoArtifactsEmptyUrl(buildInfo: Json, failing: map<Effect, Error>)
    requires BuildInfo.GetProperty(buildInfo, Release.DeployRepoProperty, JStr("")).JStr?
    requires BuildInfo.GetVersion(buildInfo).Ok?
    requires !Truthy(BuildInfo.GetArtifactsToPublish(buildInfo))
    ensures PublishAll(buildInfo, failing) == ([], Ok(""))
  {
  }

  /** The shortcut for a single entry does what the loop would have done. */
  lemma SingleEntryShortcut(entry: string, version: string, repo: string, failing: map<Effect, Error>)
    ensures PublishSeq([entry], version, repo, failing, "") == PublishArtifact(entry, version, repo, failing)
  {
    assert [entry][1..] == [];
    var first := PublishArtifact(entry, version, repo, failing);
    if first.1.Ok? {
      assert first.0 + [] == first.0;
    }
  }

  /** An entry that publishes makes its two calls and gives its URL. */
  lemma PublishesOne(artifact: string, version: string, repo: string, failing: map<Effect, Error>)
    requires Publishes(artifact, version, repo, failing)
    ensures PublishArtifact(artifact, version, repo, failing) == (EntryCalls(artifact, version, repo), Ok(EntryUrl(artifact, version)))
    ensures |EntryCalls(artifact, version, repo)| == 2
  {
  }

  /**
   * When every entry publishes, each is downloaded then uploaded, in the
   * listed order, and the text is the URL of the last entry.
   */
  lemma {:induction false} PublishSeqReturnsLast(entries: seq<string>, version: string, repo: string,
                                                 failing: map<Effect, Error>, url: string)
    requires forall i :: 0 <= i < |entries| ==> Publishes(entries[i], version, repo, failing)
    ensures PublishSeq(entries, version, repo, failing, url)
         == (Flatten(EntryPlans(entries, version, repo)),
             Ok(if |entries| == 0 then url else EntryUrl(entries[|entries| - 1], version)))
    decreases |entries|
  {
    if |entries| > 0 {
      var tail := entries[1..];
      var firstUrl := EntryUrl(entries[0], version);
      PublishSeqFirstPublishes(entries, version, repo, failing, url);
      assert forall i :: 0 <= i < |tail| ==> tail[i] == entries[i + 1];
      PublishSeqReturnsLast(tail, version, repo, failing, firstUrl);
      EntryPlansTail(entries, version, repo);
      var rest := PublishSeq(tail, version, repo, failing, firstUrl);
      assert rest.1 == Ok(EntryUrl(entries[|entries| - 1], version)) by {
        if |tail| > 0 {
          assert tail[|tail| - 1] == entries[|entries| - 1];
        }
      }
    }
  }

  /** The calls each entry makes when it publishes, entry by entry. */
  function EntryPlans(entries: seq<string>, version: string, repo: string): seq<seq<Effect>>
  {
    seq(|entries|, i requires 0 <= i < |entries| => EntryCalls(entries[i], version, repo))
  }

  lemma EntryPlansTail(entries: seq<string>, version: string, repo: string)
    requires |entries| > 0
    ensures Flatten(EntryPlans(entries, version, repo))
         == EntryCalls(entries[0], version, repo) + Flatten(EntryPlans(entries[1..], version, repo))
  {
    assert EntryPlans(entries, version, repo)[1..] == EntryPlans(entries[1..], version, repo);
  }

  /** A first entry that publishes is followed by the rest, published from its URL. */
  lemma PublishSeqFirstPublishes(entries: seq<string>, version: string, repo: string, failing: map<Effect, Error>, url: string)
    requires |entries| > 0 && Publishes(entries[0], version, repo, failing)
    ensures var rest := PublishSeq(entries[1..], version, repo, failing, EntryUrl(entries[0], version));
            PublishSeq(entries, version, repo, failing, url) == (EntryCalls(entries[0], version, repo) + rest.0, rest.1)
  {
    PublishesOne(entries[0], version, repo, failing);
  }

  /** The first entry that raises ends the publication with its own exception. */
  lemma {:induction false} PublishSeqStopsAtFailure(entries: seq<string>, k: nat, version: string, repo: string,
                                                    failing: map<Effect, Error>, url: string)
    requires k < |entries|
    requires forall i :: 0 <= i < k ==> Publishes(entries[i], version, repo, failing)
    requires PublishArtifact(entries[k], version, repo, failing).1.Err?
    ensures var (calls, r) := PublishSeq(entries, version, repo, failing, url);
            && |calls| == 2 * k + |PublishArtifact(entries[k], version, repo, failing).0|
            && calls[2 * k..] == PublishArtifact(entries[k], version, repo, failing).0
            && r == PublishArtifact(entries[k], version, repo, failing).1
    decreases k
  {
    if k > 0 {
      PublishesOne(entries[0], version, repo, failing);
      var first := PublishArtifact(entries[0], version, repo, failing);
      assert entries[1..][k - 1] == entries[k];
      assert forall i :: 0 <= i < k - 1 ==> entries[1..][i] == entries[i + 1];
      PublishSeqStopsAtFailure(entries[1..], k - 1, version, repo, failing, first.1.value);
      var rest := PublishSeq(entries[1..], version, repo, failing, first.1.value);
      assert (first.0 + rest.0)[2 * k..] == rest.0[2 * (k - 1)..];
    }
  }

  // ----- the release step -----

  /** The steps of a release after the fetch, given what the publication did. */
  function ReleaseSteps(rr: ReleaseRequest, published: UrlOutcome, runRulesCov: bool, failing: map<Effect, Error>)
    : seq<Outcome>
  {
    [Issue([Promote(rr.project, rr.buildnumber, false)], failing),
     (published.0, if published.1.Err? then Err(published.1.error) else Ok(())),
     Issue([NotifyBurgr("passed")], failing),
     if runRulesCov then Issue([RulesCov], failing) else ([], Ok(()))]
  }

  /**
   * `release`: fetch the build info, then promote, publish (which did
   * `published`), report 'passed' to Burgr and, when asked, run the rules
   * coverage. Any exception there is reported to Burgr as 'failed' and
   * raised again.
   */
  function ReleaseOutcome(rr: ReleaseRequest, published: UrlOutcome, runRulesCov: bool, failing: map<Effect, Error>)
    : Outcome
  {
    var fetch := ReceiveBuildInfo(rr.project, rr.buildnumber);
    if fetch in failing then ([fetch], Err(failing[fetch]))
    else
      var body := Chain(ReleaseSteps(rr, published, runRulesCov, failing));
      if body.1.Ok? then ([fetch] + body.0, Ok(()))
      else
        var notify := NotifyBurgr("failed");
        ([fetch] + body.0 + [notify], if notify in failing then Err(failing[notify]) else body.1)
  }

  /** Four steps one after the other: the calls up to the first that raises, and its exception. */
  lemma ChainFour(a: Outcome, b: Outcome, c: Outcome, d: Outcome)
    ensures Chain([a, b, c, d])
         == if a.1.Err? then a
            else if b.1.Err? then (a.0 + b.0, b.1)
            else if c.1.Err? then (a.0 + b.0 + c.0, c.1)
            else (a.0 + b.0 + c.0 + d.0, d.1)
  {
    assert [a, b, c, d][1..] == [b, c, d];
    assert [b, c, d][1..] == [c, d];
    assert [c, d][1..] == [d];
    assert [d][1..] == [];
    if d.1.Ok? {
      assert d.1.value == ();
      assert Chain([d]) == (d.0 + [], Ok(()));
      assert d.0 + [] == d.0;
    } else {
      assert Chain([d]) == [d][0];
    }
    assert Chain([d]) == d;
    assert c.1.Ok? ==> Chain([c, d]) == (c.0 + d.0, d.1);
    assert b.1.Ok? && c.1.Ok? ==> Chain([b, c, d]) == (b.0 + (c.0 + d.0), d.1);
    assert b.1.Ok? && c.1.Err? ==> Chain([b, c, d]) == (b.0 + c.0, c.1);
    assert a.0 + (b.0 + (c.0 + d.0)) == a.0 + b.0 + c.0 + d.0;
    assert a.0 + (b.0 + c.0) == a.0 + b.0 + c.0;
  }

  /**
   * When nothing raises, the calls are: fetch, promote, the publication,
   * Burgr 'passed', then the rules coverage only when it is asked for.
   */
  lemma ReleaseSucceeds(rr: ReleaseRequest, published: UrlOutcome, runRulesCov: bool, failing: map<Effect, Error>)
    requires ReceiveBuildInfo(rr.project, rr.buildnumber) !in failing
    requires Promote(rr.project, rr.buildnumber, false) !in failing
    requires published.1.Ok?
    requires NotifyBurgr("passed") !in failing && RulesCov !in failing
    ensures ReleaseOutcome(rr, published, runRulesCov, failing)
         == ([ReceiveBuildInfo(rr.project, rr.buildnumber), Promote(rr.project, rr.buildnumber, false)]
             + published.0 + [NotifyBurgr("passed")] + (if runRulesCov then [RulesCov] else []),
             Ok(()))
  {
    IssueSingle(Promote(rr.project, rr.buildnumber, false), failing);
    IssueSingle(NotifyBurgr("passed"), failing);
    IssueSingle(RulesCov, failing);
    var rulesCov: seq<Effect> := if runRulesCov then [RulesCov] else [];
    ChainFour(Issue([Promote(rr.project, rr.buildnumber, false)], failing), (published.0, Ok(())),
              Issue([NotifyBurgr("passed")], failing), if runRulesCov then Issue([RulesCov], failing) else ([], Ok(())));
    assert Chain(ReleaseSteps(rr, published, runRulesCov, failing))
        == ([Promote(rr.project, rr.buildnumber, false)] + published.0 + [NotifyBurgr("passed")] + rulesCov, Ok(()));
    assert [ReceiveBuildInfo(rr.project, rr.buildnumber)]
           + ([Promote(rr.project, rr.buildnumber, false)] + published.0 + [NotifyBurgr("passed")] + rulesCov)
        == [ReceiveBuildInfo(rr.project, rr.buildnumber), Promote(rr.project, rr.buildnumber, false)]
           + published.0 + [NotifyBurgr("passed")] + rulesCov;
  }

  /**
   * A failed promotion publishes nothing and never reports 'passed': Burgr
   * hears 'failed' and the promotion's exception is raised again.
   */
  lemma ReleasePromoteFailure(rr: ReleaseRequest, published: UrlOutcome, runRulesCov: bool, failing: map<Effect, Error>)
    requires ReceiveBuildInfo(rr.project, rr.buildnumber) !in failing
    requires Promote(rr.project, rr.buildnumber, false) in failing
    requires NotifyBurgr("failed") !in failing
    ensures ReleaseOutcome(rr, published, runRulesCov, failing)
         == ([ReceiveBuildInfo(rr.project, rr.buildnumber), Promote(rr.project, rr.buildnumber, false), NotifyBurgr("failed")],
             Err(failing[Promote(rr.project, rr.buildnumber, false)]))
  {
    IssueSingle(Promote(rr.project, rr.buildnumber, false), failing);
    var steps := ReleaseSteps(rr, published, runRulesCov, failing);
    assert Chain(steps) == ([Promote(rr.project, rr.buildnumber, false)], Err(failing[Promote(rr.project, rr.buildnumber, false)]));
    assert [ReceiveBuildInfo(rr.project, rr.buildnumber)] + [Promote(rr.project, rr.buildnumber, false)] + [NotifyBurgr("failed")]
        == [ReceiveBuildInfo(rr.project, rr.buildnumber), Promote(rr.project, rr.buildnumber, false), NotifyBurgr("failed")];
  }

  /**
   * A failed publication skips 'passed' and the rules coverage: Burgr hears
   * 'failed' and the publication's exception is raised again.
   */
  lemma ReleasePublishFailure(rr: ReleaseRequest, published: UrlOutcome, runRulesCov: bool, failing: map<Effect, Error>)
    requires ReceiveBuildInfo(rr.project, rr.buildnumber) !in failing
    requires Promote(rr.project, rr.buildnumber, false) !in failing
    requires published.1.Err?
    requires NotifyBurgr("failed") !in failing
    ensures ReleaseOutcome(rr, published, runRulesCov, failing)
         == ([ReceiveBuildInfo(rr.project, rr.buildnumber), Promote(rr.project, rr.buildnumber, false)]
             + published.0 + [NotifyBurgr("failed")],
             Err(published.1.error))
  {
    IssueSingle(Promote(rr.project, rr.buildnumber, false), failing);
    var steps := ReleaseSteps(rr, published, runRulesCov, failing);
    assert steps[1..][0] == steps[1];
    assert Chain(steps[1..]) == steps[1];
    assert Chain(steps) == ([Promote(rr.project, rr.buildnumber, false)] + published.0, Err(published.1.error));
    assert [ReceiveBuildInfo(rr.project, rr.buildnumber)] + ([Promote(rr.project, rr.buildnumber, false)] + published.0)
        == [ReceiveBuildInfo(rr.project, rr.buildnumber), Promote(rr.project, rr.buildnumber, false)] + published.0;
  }

  /**
   * Any exception after the fetch ends with Burgr hearing 'failed'; the
   * exception raised is the original one unless that report raises itself.
   */
  lemma ReleaseFailureReported(rr: ReleaseRequest, published: UrlOutcome, runRulesCov: bool, failing: map<Effect, Error>)
    requires ReceiveBuildInfo(rr.project, rr.buildnumber) !in failing
    requires Chain(ReleaseSteps(rr, published, runRulesCov, failing)).1.Err?
    ensures var (calls, r) := ReleaseOutcome(rr, published, runRulesCov, failing);
            && calls[|calls| - 1] == NotifyBurgr("failed")
            && r.Err?
            && (NotifyBurgr("failed") !in failing ==> r == Chain(ReleaseSteps(rr, published, runRulesCov, failing)).1)
  {
  }

  /** A fetch that raises ends the step before anything is reported. */
  lemma ReleaseFetchFailure(rr: ReleaseRequest, published: UrlOutcome, runRulesCov: bool, failing: map<Effect, Error>)
    requires ReceiveBuildInfo(rr.project, rr.buildnumber) in failing
    ensures ReleaseOutcome(rr, published, runRulesCov, failing)
         == ([ReceiveBuildInfo(rr.project, rr.buildnumber)], Err(failing[ReceiveBuildInfo(rr.project, rr.buildnumber)]))
  {
  }

  // ----- revocation -----

  /** The message of the exception the unpromotion raises: it passes a third argument the promotion does not take. */
  const PromoteArity := "promote() takes 3 positional arguments but 4 were given"

  /** `revoke` as written: the promotion of the older action has no revoke parameter, so the call raises. */
  function RevokeAsWritten(rr: ReleaseRequest, failing: map<Effect, Error>): Outcome {
    var fetch := ReceiveBuildInfo(rr.project, rr.buildnumber);
    if fetch in failing then ([fetch], Err(failing[fetch]))
    else ([fetch], Err(TypeError(PromoteArity)))
  }

  /** `revoke` with the build unpromoted as intended. */
  function Revoke(rr: ReleaseRequest, failing: map<Effect, Error>): Outcome {
    Issue([ReceiveBuildInfo(rr.project, rr.buildnumber), Promote(rr.project, rr.buildnumber, true)], failing)
  }

  /**
   * As written, a revocation never unpromotes: once the build info is
   * fetched it raises, where the corrected one unpromotes the build and
   * succeeds unless a call raises.
   */
  lemma RevokeAsWrittenNeverUnpromotes(rr: ReleaseRequest, failing: map<Effect, Error>)
    ensures var (calls, r) := RevokeAsWritten(rr, failing);
            && Promote(rr.project, rr.buildnumber, true) !in calls && r.Err?
    ensures ReceiveBuildInfo(rr.project, rr.buildnumber) !in failing && Promote(rr.project, rr.buildnumber, true) !in failing ==>
              Revoke(rr, failing) == ([ReceiveBuildInfo(rr.project, rr.buildnumber), Promote(rr.project, rr.buildnumber, true)], Ok(()))
              && RevokeAsWritten(rr, failing).1 == Err(TypeError(PromoteArity))
  {
    Release.UnpromoteCalls(rr, failing);
  }

  // ----- the steps, run against the world -----

  /** The remaining entries, from the i-th on, after one more entry is published. */
  lemma PublishSeqStep(entries: seq<string>, i: int, version: string, repo: string, failing: map<Effect, Error>, url: string)
    requires 0 <= i < |entries|
    ensures var first := PublishArtifact(entries[i], version, repo, failing);
            PublishSeq(entries[i..], version, repo, failing, url)
            == if first.1.Err? then first
               else (first.0 + PublishSeq(entries[i + 1..], version, repo, failing, first.1.value).0,
                     PublishSeq(entries[i + 1..], version, repo, failing, first.1.value).1)
  {
    assert entries[i..][0] == entries[i];
    assert entries[i..][1..] == entries[i + 1..];
  }

  /** Publishes one entry: download it, upload it, and answer the URL of the file. */
  method PublishOne(world: World, artifact: string, version: string, repo: string) returns (r: Result<string>)
    modifies world
    ensures var run := PublishArtifact(artifact, version, repo, world.failing);
            (world.trace, r) == (old(world.trace) + run.0, run.1)
  {
    var parsed := Release.ParseArtifact(artifact);
    if parsed.Err? {
      assert world.trace == old(world.trace) + [];
      return Err(parsed.error);
    }
    var c := parsed.value;
    IssueSingle(DownloadOf(c, version, repo), world.failing);
    IssueSingle(UploadOf(c, version), world.failing);
    var done := world.Call(DownloadOf(c, version, repo));
    if done.Err? {
      return Err(done.error);
    }
    done := world.Call(UploadOf(c, version));
    assert world.trace == old(world.trace) + [DownloadOf(c, version, repo), UploadOf(c, version)];
    if done.Err? {
      return Err(done.error);
    }
    r := Ok(ReleaseUrl(Release.FileName(c, version), c.aid));
  }

  /** The loop over several entries: each published in turn, the URL of the last one kept. */
  method PublishEach(world: World, entries: seq<string>, version: string, repo: string) returns (r: Result<string>)
    modifies world
    ensures var run := PublishSeq(entries, version, repo, world.failing, "");
            (world.trace, r) == (old(world.trace) + run.0, run.1)
  {
    var releaseUrl := "";
    var i := 0;
    assert entries[0..] == entries;
    assert world.trace == old(world.trace) + [];
    while i < |entries|
      invariant 0 <= i <= |entries|
      invariant world.trace + PublishSeq(entries[i..], version, repo, world.failing, releaseUrl).0
             == old(world.trace) + PublishSeq(entries, version, repo, world.failing, "").0
      invariant PublishSeq(entries[i..], version, repo, world.failing, releaseUrl).1
             == PublishSeq(entries, version, repo, world.failing, "").1
    {
      PublishSeqStep(entries, i, version, repo, world.failing, releaseUrl);
      ghost var before := world.trace;
      var one := PublishOne(world, entries[i], version, repo);
      if one.Err? {
        AppendAssoc(before, PublishArtifact(entries[i], version, repo, world.failing).0, []);
        return Err(one.error);
      }
      AppendAssoc(before, PublishArtifact(entries[i], version, repo, world.failing).0,
                  PublishSeq(entries[i + 1..], version, repo, world.failing, one.value).0);
      releaseUrl := one.value;
      i := i + 1;
    }
    assert entries[i..] == [];
    assert world.trace + [] == world.trace;
    r := Ok(releaseUrl);
  }

  /**
   * `publish_all_artifacts`: the deploy repository and version of the
   * build, then nothing, the single entry, or every entry in turn.
   */
  method PublishAllArtifacts(world: World, buildInfo: Json) returns (r: Result<string>)
    modifies world
    ensures var run := PublishAll(buildInfo, world.failing);
            (world.trace, r) == (old(world.trace) + run.0, run.1)
  {
    assert world.trace == old(world.trace) + [];
    var deployRepo := AsStr(BuildInfo.GetProperty(buildInfo, Release.DeployRepoProperty, JStr("")));
    if deployRepo.Err? {
      return Err(deployRepo.error);
    }
    var repo := Replace(deployRepo.value, "qa", "builds");
    var version := BuildInfo.GetVersion(buildInfo);
    if version.Err? {
      return Err(version.error);
    }
    var all := BuildInfo.GetArtifactsToPublish(buildInfo);
    if !Truthy(all) {
      return Ok("");
    }
    if !all.JStr? {
      return Err(AttributeError("split on a non-string"));
    }
    var entries := Split(all.s, ',');
    if |entries| == 1 {
      r := PublishOne(world, entries[0], version.value, repo);
    } else {
      r := PublishEach(world, entries, version.value, repo);
    }
  }

  /** The part of `release` inside its `try`: promote, publish, report 'passed', and the rules coverage. */
  method ReleaseBody(world: World, rr: ReleaseRequest, buildInfo: Json, runRulesCov: bool) returns (r: Result<()>)
    modifies world
    ensures var run := Chain(ReleaseSteps(rr, PublishAll(buildInfo, world.failing), runRulesCov, world.failing));
            (world.trace, r) == (old(world.trace) + run.0, run.1)
  {
    ghost var published := PublishAll(buildInfo, world.failing);
    ghost var steps := ReleaseSteps(rr, published, runRulesCov, world.failing);
    ChainFour(steps[0], steps[1], steps[2], steps[3]);
    assert steps == [steps[0], steps[1], steps[2], steps[3]];
    r := world.Call(Promote(rr.project, rr.buildnumber, false));
    if r.Err? {
      return;
    }
    ghost var promoted := world.trace;
    var url := PublishAllArtifacts(world, buildInfo);
    AppendAssoc(old(world.trace), steps[0].0, steps[1].0);
    if url.Err? {
      return Err(url.error);
    }
    ghost var notified := world.trace;
    r := world.Call(NotifyBurgr("passed"));
    AppendAssoc(old(world.trace), steps[0].0 + steps[1].0, steps[2].0);
    if r.Err? {
      return;
    }
    if runRulesCov {
      r := world.Call(RulesCov);
    } else {
      assert world.trace == world.trace + [];
      assert r.value == ();
    }
    AppendAssoc(old(world.trace), steps[0].0 + steps[1].0 + steps[2].0, steps[3].0);
  }

  /**
   * `release`: fetch the build info, run the body, and on an exception
   * report 'failed' to Burgr before raising it again.
   */
  method ReleaseStep(world: World, rr: ReleaseRequest, buildInfo: Json, runRulesCov: bool) returns (r: Result<()>)
    modifies world
    ensures var run := ReleaseOutcome(rr, PublishAll(buildInfo, world.failing), runRulesCov, world.failing);
            (world.trace, r) == (old(world.trace) + run.0, run.1)
  {
    IssueSingle(ReceiveBuildInfo(rr.project, rr.buildnumber), world.failing);
    IssueSingle(NotifyBurgr("failed"), world.failing);
    r := world.Call(ReceiveBuildInfo(rr.project, rr.buildnumber));
    if r.Err? {
      return;
    }
    ghost var body := Chain(ReleaseSteps(rr, PublishAll(buildInfo, world.failing), runRulesCov, world.failing));
    r := ReleaseBody(world, rr, buildInfo, runRulesCov);
    AppendAssoc(old(world.trace), [ReceiveBuildInfo(rr.project, rr.buildnumber)], body.0);
    if r.Err? {
      var reported := world.Call(NotifyBurgr("failed"));
      AppendAssoc(old(world.trace), [ReceiveBuildInfo(rr.project, rr.buildnumber)] + body.0, [NotifyBurgr("failed")]);
      if reported.Err? {
        r := reported;
      }
    } else {
      assert r.value == ();
    }
  }

  /** The corrected `revoke`: fetch the build info, then unpromote the build. */
  method RevokeStep(world: World, rr: ReleaseRequest) returns (r: Result<()>)
    modifies world
    ensures var run := Revoke(rr, world.failing);
            (world.trace, r) == (old(world.trace) + run.0, run.1)
  {
    r := world.CallAll([ReceiveBuildInfo(rr.project, rr.buildnumber), Promote(rr.project, rr.buildnumber, true)]);
  }
}
