/**
 * The GitHub side of the newer action: the event that triggered the
 * workflow, read once at construction, and the release request derived
 * from it. The environment variables the class reads (`GITHUB_TOKEN`,
 * `GITHUB_EVENT_NAME`, `GITHUB_SHA`, `INPUT_DRY_RUN`,
 * `INPUT_PUBLISH_TO_BINARIES`) are parameters, the event file is given
 * already decoded, and the two HTTP requests of the revocation are
 * returned as a list of requests.
 */
module GitHub {
  import opened Py
  import opened Json
  import opened ReleaseRequest
  import VersionPattern

  /** The events the action may run on. */
  const AllowedEvents: set<string> := {"release", "workflow_dispatch"}
  const DefaultBranch := "master"
  /** The separators allowed between the version and the build number. */
  const TagSeparators: set<char> := {'.', '+'}
  const TagMessage := "The tag must follow this pattern: X.X.X.BUILD_NUMBER or X.X.X-MX.BUILD_NUMBER or X.X.X+BUILD_NUMBER"

  function GitHubException(msg: string): Error {
    Raised("GitHubException", msg)
  }

  /** Python's `str(x)` of an optional environment value. */
  function EnvText(v: Option<string>): string {
    if v.Some? then v.value else "None"
  }

  /** The constructed object: the token and the decoded event. */
  datatype GitHub = GitHub(token: Option<string>, event: Json)

  /**
   * `GitHub()`: the event is loaded only when the event name is allowed or
   * the run is a dry run; otherwise `GitHubException` is raised.
   */
  function NewGitHub(token: Option<string>, eventName: Option<string>, dryRun: bool, event: Json): (r: Result<GitHub>)
    ensures r.Ok? <==> (eventName.Some? && eventName.value in AllowedEvents) || dryRun
    ensures r.Ok? ==> r.value == GitHub(token, event)
    ensures r.Err? ==> r.error.Raised? && r.error.kind == "GitHubException"
  {
    if (eventName.Some? && eventName.value in AllowedEvents) || dryRun then Ok(GitHub(token, event))
    else Err(GitHubException(GatingMessage(eventName)))
  }

  function GatingMessage(eventName: Option<string>): string {
    "The action was neither triggered on {'release', 'workflow_dispatch'} events (is: '"
    + EnvText(eventName) + "'), neither with dry_run=true"
  }

  /** `_get_release`: the event's release, `None` (here `JNull`) when absent. */
  function GetRelease(gh: GitHub): Result<Json> {
    GetOr(gh.event, "release", JNull)
  }

  /** `_get_repository()["full_name"]`. */
  function FullName(gh: GitHub): Result<Json> {
    var repo :- Index(gh.event, "repository");
    Index(repo, "full_name")
  }

  /** `organisation, project = repo.split("/")`: exactly two pieces, or `ValueError`. */
  function SplitRepo(full: Json): (r: Result<(string, string)>)
    ensures r.Ok? ==> full.JStr? && full.s == r.value.0 + "/" + r.value.1
                      && '/' !in r.value.0 && '/' !in r.value.1
  {
    var s :- AsStr(full);
    var parts := Split(s, '/');
    if |parts| == 2 then
      JoinSplit(s, '/');
      assert Join(parts, ['/']) == parts[0] + "/" + Join(parts[1..], "/");
      Ok((parts[0], parts[1]))
    else if |parts| > 2 then Err(ValueError("too many values to unpack (expected 2)"))
    else Err(ValueError("not enough values to unpack (expected 2, got 1)"))
  }

  /** An organisation and a project free of '/' are read back from "org/project". */
  lemma SplitRepoOf(org: string, project: string)
    requires '/' !in org && '/' !in project
    ensures SplitRepo(JStr(org + "/" + project)) == Ok((org, project))
  {
    SplitConcat(org, '/', project);
    SplitNoSep(project, '/');
  }

  /** A character of `[a-f0-9]`. */
  predicate IsLowerHex(c: char) {
    '0' <= c <= '9' || 'a' <= c <= 'f'
  }

  /**
   * `re.compile("^([a-f0-9]{40})$").match(s)`: forty lowercase hex
   * characters, to which `$` allows one final newline.
   */
  predicate IsCommitSha(s: string) {
    var t := VersionPattern.BeforeEnd(s);
    |t| == 40 && forall i :: 0 <= i < |t| ==> IsLowerHex(t[i])
  }

  /** The branch: "master" without a release, else its target unless that is a commit SHA. */
  function BranchName(release: Json): (r: Result<string>)
    ensures release == JNull ==> r == Ok(DefaultBranch)
  {
    if release == JNull then Ok(DefaultBranch)
    else
      var target :- Index(release, "target_commitish");
      if !target.JStr? then Err(TypeError("expected string or bytes-like object"))
      else if IsCommitSha(target.s) then Ok(DefaultBranch)
      else Ok(target.s)
  }

  /** The version: the release's tag, or the `version` input of a manual run. */
  function VersionOf(gh: GitHub, release: Json): Result<Json> {
    if release == JNull then
      var inputs :- Index(gh.event, "inputs");
      Index(inputs, "version")
    else Index(release, "tag_name")
  }

  /** `__fake_release_request`: the repository is real, the rest placeholders. */
  function FakeReleaseRequest(gh: GitHub, sha: string): (r: Result<ReleaseRequest>)
    ensures r.Ok? ==> r.value.version == "?.?.?.????" && r.value.buildnumber == "????"
                      && r.value.branch == DefaultBranch && r.value.sha == sha
  {
    var full :- FullName(gh);
    var (org, project) :- SplitRepo(full);
    Ok(ReleaseRequest(org, project, "?.?.?.????", "????", DefaultBranch, sha))
  }

  /**
   * `get_release_request`: in a dry run the fake request; otherwise the
   * repository, the release, the version, which must match the tag
   * pattern (its last group is the build number), and the branch.
   */
  function GetReleaseRequest(gh: GitHub, dryRun: bool, sha: string): (r: Result<ReleaseRequest>)
  {
    if dryRun then FakeReleaseRequest(gh, sha)
    else
      var full :- FullName(gh);
      var (org, project) :- SplitRepo(full);
      var release :- GetRelease(gh);
      var version :- VersionOf(gh, release);
      if !version.JStr? then Err(TypeError("expected string or bytes-like object"))
      else
        match VersionPattern.MatchVersion(version.s, TagSeparators)
        case None => Err(GitHubException(TagMessage))
        case Some(build) =>
          var branch :- BranchName(release);
          Ok(ReleaseRequest(org, project, version.s, build, branch, sha))
  }

  /**
   * A request that is made reads everything from the event: the
   * organisation and project are the two halves of the repository's full
   * name, the version is the tag (or the input), it matches the tag
   * pattern with the build number as its last group, and the branch
   * follows the release.
   */
  lemma RequestFromEvent(gh: GitHub, sha: string)
    ensures var r := GetReleaseRequest(gh, false, sha);
            r.Ok? ==>
              && FullName(gh) == Ok(JStr(r.value.org + "/" + r.value.project))
              && '/' !in r.value.org && '/' !in r.value.project
              && GetRelease(gh).Ok?
              && VersionOf(gh, GetRelease(gh).value) == Ok(JStr(r.value.version))
              && VersionPattern.MatchVersion(r.value.version, TagSeparators) == Some(r.value.buildnumber)
              && BranchName(GetRelease(gh).value) == Ok(r.value.branch)
              && r.value.sha == sha
  {
    var r := GetReleaseRequest(gh, false, sha);
    if r.Ok? {
      assert FullName(gh).Ok?;
      var full := FullName(gh).value;
      assert SplitRepo(full).Ok?;
      var (org, project) := SplitRepo(full).value;
      assert GetRelease(gh).Ok?;
      var release := GetRelease(gh).value;
      assert VersionOf(gh, release).Ok?;
      var version := VersionOf(gh, release).value;
      assert version.JStr? && VersionPattern.MatchVersion(version.s, TagSeparators).Some?;
      var build := VersionPattern.MatchVersion(version.s, TagSeparators).value;
      assert BranchName(release).Ok?;
      assert r == Ok(ReleaseRequest(org, project, version.s, build, BranchName(release).value, sha));
    }
  }

  /** Conversely, the parts read from the event make the request. */
  lemma RequestOfParts(gh: GitHub, sha: string, org: string, project: string, release: Json,
                       version: string, build: string, branch: string)
    requires FullName(gh) == Ok(JStr(org + "/" + project)) && '/' !in org && '/' !in project
    requires GetRelease(gh) == Ok(release) && VersionOf(gh, release) == Ok(JStr(version))
    requires VersionPattern.MatchVersion(version, TagSeparators) == Some(build)
    requires BranchName(release) == Ok(branch)
    ensures GetReleaseRequest(gh, false, sha) == Ok(ReleaseRequest(org, project, version, build, branch, sha))
  {
    SplitRepoOf(org, project);
  }

  /** A version that does not match the pattern is refused with `GitHubException`. */
  lemma UnmatchedTagRefused(gh: GitHub, sha: string)
    requires FullName(gh).Ok? && SplitRepo(FullName(gh).value).Ok? && GetRelease(gh).Ok?
    requires VersionOf(gh, GetRelease(gh).value).Ok? && VersionOf(gh, GetRelease(gh).value).value.JStr?
    requires VersionPattern.MatchVersion(VersionOf(gh, GetRelease(gh).value).value.s, TagSeparators).None?
    ensures GetReleaseRequest(gh, false, sha) == Err(GitHubException(TagMessage))
  {
  }

  /**
   * An event of a published release whose tag has the pattern's shape
   * gives the request with that tag, its build number and the release's
   * branch.
   */
  lemma RequestOfRelease(gh: GitHub, sha: string, org: string, project: string, release: seq<(string, Json)>,
                         a: string, b: string, c: string, m: Option<string>, sep: char, build: string, target: string)
    requires FullName(gh) == Ok(JStr(org + "/" + project)) && '/' !in org && '/' !in project
    requires GetRelease(gh) == Ok(JObj(release))
    requires VersionPattern.WellFormed(a, b, c, m, sep, build, TagSeparators)
    requires Lookup(release, "tag_name") == Some(JStr(VersionPattern.Numbers(a, b, c, m, sep, build)))
    requires Lookup(release, "target_commitish") == Some(JStr(target))
    ensures GetReleaseRequest(gh, false, sha)
              == Ok(ReleaseRequest(org, project, VersionPattern.Numbers(a, b, c, m, sep, build), build,
                                   if IsCommitSha(target) then DefaultBranch else target, sha))
  {
    var version := VersionPattern.Numbers(a, b, c, m, sep, build);
    assert VersionOf(gh, JObj(release)) == Ok(JStr(version));
    VersionPattern.MatchVersionOfShape(a, b, c, m, sep, build, TagSeparators);
    RequestOfParts(gh, sha, org, project, JObj(release), version, build,
                   if IsCommitSha(target) then DefaultBranch else target);
  }

  /**
   * A manual run (no release) takes the version from the inputs and the
   * default branch.
   */
  lemma RequestOfManualRun(gh: GitHub, sha: string)
    requires GetRelease(gh) == Ok(JNull)
    ensures var r := GetReleaseRequest(gh, false, sha);
            r.Ok? ==> r.value.branch == DefaultBranch
                      && Index(gh.event, "inputs").Ok?
                      && Index(Index(gh.event, "inputs").value, "version") == Ok(JStr(r.value.version))
  {
  }

  /** A target that is a commit SHA gives the default branch; any other string is kept. */
  lemma CommitShaTargetIsMaster(release: Json, target: string)
    requires release != JNull && Index(release, "target_commitish") == Ok(JStr(target))
    ensures BranchName(release) == Ok(if IsCommitSha(target) then DefaultBranch else target)
    ensures |target| == 40 && (forall i :: 0 <= i < 40 ==> IsLowerHex(target[i])) ==> BranchName(release) == Ok(DefaultBranch)
    ensures (|target| != 40 && |target| != 41) ==> BranchName(release) == Ok(target)
  {
    if |target| == 40 && forall i :: 0 <= i < 40 ==> IsLowerHex(target[i]) {
      assert IsLowerHex(target[39]);
    }
  }

  // ----- revocation -----

  /** An HTTP request of the revocation. */
  datatype Request =
    | Patch(releaseUrl: Json, authorization: string, draft: bool, tagName: Json)
    | Delete(url: string, authorization: string)

  /**
   * `revoke_release`, skipped entirely in a dry run: without a release
   * nothing is requested; otherwise the release is turned back into a
   * draft, then its tag is deleted through the repository's `git_refs_url`.
   * The requests made, and the exception raised before the next one.
   */
  function RevokeRelease(gh: GitHub, dryRun: bool): (r: (seq<Request>, Result<()>))
    ensures |r.0| <= 2
    ensures r.0 != [] ==> !dryRun && GetRelease(gh).Ok? && GetRelease(gh).value != JNull
                          && r.0[0].Patch? && r.0[0].draft
  {
    if dryRun then ([], Ok(()))
    else
      match GetRelease(gh)
      case Err(e) => ([], Err(e))
      case Ok(release) =>
        if release == JNull then ([], Ok(()))
        else
          match (Index(release, "tag_name"), Index(release, "url"))
          case (Err(e), _) => ([], Err(e))
          case (_, Err(e)) => ([], Err(e))
          case (Ok(tag), Ok(url)) =>
            var auth := "token " + EnvText(gh.token);
            var patch := Patch(url, auth, true, tag);
            match Index(gh.event, "repository")
            case Err(e) => ([patch], Err(e))
            case Ok(repo) =>
              match GetOr(repo, "git_refs_url", JNull)
              case Err(e) => ([patch], Err(e))
              case Ok(refs) =>
                if !refs.JStr? then ([patch], Err(AttributeError("replace")))
                else ([patch, Delete(Replace(refs.s, "{/sha}", "/tags/" + PyStr(tag)), auth)], Ok(()))
  }

  /** Without a release, or in a dry run, nothing is requested and nothing is raised. */
  lemma RevokeWithoutRelease(gh: GitHub, dryRun: bool)
    requires dryRun || GetRelease(gh) == Ok(JNull)
    ensures RevokeRelease(gh, dryRun) == ([], Ok(()))
  {
  }

  /**
   * With a release whose fields are present, the release is made a draft
   * under its own tag and the tag reference is deleted.
   */
  lemma RevokeDraftsThenDeletesTag(gh: GitHub, release: Json, tag: string, url: Json, refs: string)
    requires GetRelease(gh) == Ok(release) && release != JNull
    requires Index(release, "tag_name") == Ok(JStr(tag)) && Index(release, "url") == Ok(url)
    requires Index(gh.event, "repository").Ok?
    requires GetOr(Index(gh.event, "repository").value, "git_refs_url", JNull) == Ok(JStr(refs))
    ensures var auth := "token " + EnvText(gh.token);
            RevokeRelease(gh, false)
              == ([Patch(url, auth, true, JStr(tag)), Delete(Replace(refs, "{/sha}", "/tags/" + tag), auth)], Ok(()))
  {
  }

  /** `is_publish_to_binaries`: the input, "false" when unset, compared case-insensitively with "true". */
  function IsPublishToBinaries(input: Option<string>): (r: bool)
  {
    Lower(if input.Some? then input.value else "false") == "true"
  }

  /** Unset means no; a set input means yes exactly when it reads "true" in any case. */
  lemma PublishToBinariesCaseInsensitive(input: Option<string>)
    ensures input.None? ==> !IsPublishToBinaries(input)
    ensures input.Some? ==>
              (IsPublishToBinaries(input) <==> |input.value| == 4 && forall i :: 0 <= i < 4 ==> LowerChar(input.value[i]) == "true"[i])
    ensures IsPublishToBinaries(Some("TRUE")) && IsPublishToBinaries(Some("True")) && !IsPublishToBinaries(Some("yes"))
  {
    assert Lower("false")[0] == 'f';
    if input.Some? {
      var l := Lower(input.value);
      if |input.value| == 4 && forall i :: 0 <= i < 4 ==> LowerChar(input.value[i]) == "true"[i] {
        assert l == "true";
      }
    }
    assert Lower("TRUE") == "true";
    assert Lower("True") == "true";
    assert Lower("yes")[0] == 'y';
  }
}
