/**
 * The re-signing script: where the Artifactory token comes from (an
 * explicit token, Vault roles tried in a fixed order, or the environment),
 * the build number the new version carries, and the run itself, which
 * downloads a build, rewrites its version, signs it again and uploads it,
 * with the uploads gated on the build info and the GnuPG key cleaned up
 * whenever it was imported.
 *
 * Vault's answer for each secret path, the environment variables and the
 * build infos fetched and created are inputs; every other call of the run
 * is an effect.
 */
module ResignArtifacts {
  import opened Py
  import opened Json
  import opened Effects
  import Vault
  import VersionPattern
  import BuildInfo
  import ArtifactoryUtils

  // Token search

  const DefaultRepoOwner := "gh-action_release"
  const DefaultRoleSuffix := "qa-deployer"
  const Promoter := "promoter"

  const MissingTokenMessage :=
    "Artifactory access token is required. Provide via:\n"
    + "  - Vault (--vault-token, defaults to SonarSource-gh-action_release-qa-deployer role)\n"
    + "  - Environment variable ARTIFACTORY_ACCESS_TOKEN\n"
    + "  - Command line --artifactory-token"

  /** A truthy optional text: present and not empty. */
  predicate Given(o: Option<string>) {
    o.Some? && o.value != ""
  }

  /** The Vault path holding the Artifactory token of a role. */
  function TokenPath(owner: Option<string>, suffix: string): string {
    Vault.ArtifactoryTokenPath(owner, suffix).0
  }

  /** `read_artifactory_token(owner, suffix)`, given what Vault answers for each path. */
  function ReadToken(answers: string -> Vault.Response, owner: Option<string>, suffix: string): Result<string> {
    var (path, key) := Vault.ArtifactoryTokenPath(owner, suffix);
    Vault.ReadSecret(path, Some(key), answers(path))
  }

  /**
   * One stage of the search: the role with the given suffix, then, only
   * when that read raises, the "promoter" role of the same owner. The
   * paths read, and the outcome of the last read.
   */
  function Stage(answers: string -> Vault.Response, owner: Option<string>, suffix: string): (seq<string>, Result<string>) {
    var first := ReadToken(answers, owner, suffix);
    if first.Ok? then ([TokenPath(owner, suffix)], first)
    else ([TokenPath(owner, suffix), TokenPath(owner, Promoter)], ReadToken(answers, owner, Promoter))
  }

  /** The project's own roles are tried first, except for an empty project or the action's own name. */
  predicate TriesProject(project: string) {
    project != "" && project != DefaultRepoOwner
  }

  /** The owner of the second stage: none (the default role) for the action's own name or an empty one. */
  function DefaultOwner(repoOwner: string): Option<string> {
    if repoOwner == DefaultRepoOwner || repoOwner == "" then None else Some(repoOwner)
  }

  /** The token the project stage leaves behind: what it read, or "" when both reads raised or it was skipped. */
  function ProjectToken(answers: string -> Vault.Response, project: string, suffix: string): string {
    if TriesProject(project) && Stage(answers, Some(project), suffix).1.Ok?
    then Stage(answers, Some(project), suffix).1.value
    else ""
  }

  /** The paths Vault was asked for, in order, and the token found. */
  datatype TokenSearch = TokenSearch(paths: seq<string>, token: Option<string>)

  /**
   * The search of `__init__`: a truthy explicit token is kept; without a
   * Vault client the environment's token is taken; otherwise the project
   * stage, then, unless it yielded a truthy token, the owner's (or the
   * default) stage, and the environment's token only when both reads of
   * that stage raised.
   */
  function SearchToken(explicit: Option<string>, hasVault: bool, project: string, repoOwner: string, suffix: string,
                       answers: string -> Vault.Response, env: Option<string>): TokenSearch
  {
    if Given(explicit) then TokenSearch([], explicit)
    else if !hasVault then TokenSearch([], env)
    else
      var projectReads := if TriesProject(project) then Stage(answers, Some(project), suffix).0 else [];
      var projectToken := ProjectToken(answers, project, suffix);
      if projectToken != "" then TokenSearch(projectReads, Some(projectToken))
      else
        var fallback := Stage(answers, DefaultOwner(repoOwner), suffix);
        TokenSearch(projectReads + fallback.0, if fallback.1.Ok? then Some(fallback.1.value) else env)
  }

  /** The token the client is built with, or the `ValueError` raised when none is truthy. */
  function ArtifactoryToken(search: TokenSearch): Result<string> {
    if Given(search.token) then Ok(search.token.value) else Err(ValueError(MissingTokenMessage))
  }

  /**
   * The token assignment of `__init__`, step by step: the variable starts
   * as the explicit token and each fallback overwrites it.
   */
  method InitArtifactoryToken(explicit: Option<string>, vaultToken: Option<string>, project: string, repoOwner: string,
                              suffix: string, answers: string -> Vault.Response, env: Option<string>)
    returns (paths: seq<string>, r: Result<string>)
    ensures var search := SearchToken(explicit, Given(vaultToken), project, repoOwner, suffix, answers, env);
            paths == search.paths && r == ArtifactoryToken(search)
  {
    var token := explicit;
    paths := [];
    if !Given(token) {
      if Given(vaultToken) {
        if TriesProject(project) {
          var read;
          paths, read := ReadStage(answers, Some(project), suffix);
          token := if read.Ok? then Some(read.value) else None;
        }
        assert token == None || token == Some(ProjectToken(answers, project, suffix));
        assert Given(token) <==> ProjectToken(answers, project, suffix) != "";
        if !Given(token) {
          var owner := DefaultOwner(repoOwner);
          var fallbackPaths, read := ReadStage(answers, owner, suffix);
          paths := paths + fallbackPaths;
          token := if read.Ok? then Some(read.value) else env;
        }
      } else {
        token := env;
      }
    }
    if !Given(token) {
      return paths, Err(ValueError(MissingTokenMessage));
    }
    r := Ok(token.value);
  }

  /**
   * One stage, step by step: the read with the given suffix and, when it
   * raises, the read of the "promoter" role.
   */
  method ReadStage(answers: string -> Vault.Response, owner: Option<string>, suffix: string)
    returns (paths: seq<string>, read: Result<string>)
    ensures (paths, read) == Stage(answers, owner, suffix)
  {
    paths := [TokenPath(owner, suffix)];
    read := ReadToken(answers, owner, suffix);
    if read.Err? {
      paths := paths + [TokenPath(owner, Promoter)];
      read := ReadToken(answers, owner, Promoter);
      StageAfterFailedRead(answers, owner, suffix);
    }
  }

  lemma StageAfterFailedRead(answers: string -> Vault.Response, owner: Option<string>, suffix: string)
    requires ReadToken(answers, owner, suffix).Err?
    ensures Stage(answers, owner, suffix)
         == ([TokenPath(owner, suffix)] + [TokenPath(owner, Promoter)], ReadToken(answers, owner, Promoter))
  {
    assert [TokenPath(owner, suffix)] + [TokenPath(owner, Promoter)] == [TokenPath(owner, suffix), TokenPath(owner, Promoter)];
  }

  /** A truthy explicit token is used as it is and Vault is never asked. */
  lemma ExplicitTokenWins(explicit: string, hasVault: bool, project: string, repoOwner: string, suffix: string,
                          answers: string -> Vault.Response, env: Option<string>)
    requires explicit != ""
    ensures var search := SearchToken(Some(explicit), hasVault, project, repoOwner, suffix, answers, env);
            search.paths == [] && ArtifactoryToken(search) == Ok(explicit)
  {
  }

  /** Without a Vault client the environment's token is the only source, and its absence raises `ValueError`. */
  lemma WithoutVaultUsesEnvironment(explicit: Option<string>, project: string, repoOwner: string, suffix: string,
                                    answers: string -> Vault.Response, env: Option<string>)
    requires !Given(explicit)
    ensures var search := SearchToken(explicit, false, project, repoOwner, suffix, answers, env);
            && search.paths == []
            && (Given(env) ==> ArtifactoryToken(search) == Ok(env.value))
            && (!Given(env) ==> ArtifactoryToken(search) == Err(ValueError(MissingTokenMessage)))
  {
  }

  /**
   * The project's role with the suffix is the first path read, and the
   * project's "promoter" role is read next when that read raised; a truthy
   * token from either ends the search there.
   */
  lemma ProjectRolesFirst(explicit: Option<string>, project: string, repoOwner: string, suffix: string,
                          answers: string -> Vault.Response, env: Option<string>)
    requires !Given(explicit) && TriesProject(project)
    ensures var search := SearchToken(explicit, true, project, repoOwner, suffix, answers, env);
            var first := ReadToken(answers, Some(project), suffix);
            var second := ReadToken(answers, Some(project), Promoter);
            && |search.paths| >= 1 && search.paths[0] == TokenPath(Some(project), suffix)
            && (first.Err? ==> |search.paths| >= 2 && search.paths[1] == TokenPath(Some(project), Promoter))
            && (first.Ok? && first.value != "" ==>
                  search.paths == [TokenPath(Some(project), suffix)] && ArtifactoryToken(search) == Ok(first.value))
            && (first.Err? && second.Ok? && second.value != "" ==>
                  && search.paths == [TokenPath(Some(project), suffix), TokenPath(Some(project), Promoter)]
                  && ArtifactoryToken(search) == Ok(second.value))
  {
  }

  /** An empty project, or the action's own name, skips straight to the owner's (or the default) roles. */
  lemma SkipsProjectStage(explicit: Option<string>, project: string, repoOwner: string, suffix: string,
                          answers: string -> Vault.Response, env: Option<string>)
    requires !Given(explicit) && !TriesProject(project)
    ensures var search := SearchToken(explicit, true, project, repoOwner, suffix, answers, env);
            search.paths[0] == TokenPath(DefaultOwner(repoOwner), suffix)
  {
  }

  /**
   * When the project stage yields nothing truthy, the token is the first
   * of the second stage's reads that does not raise, and the environment's
   * token is taken only when both of them raised, as the last resort after
   * those two reads.
   */
  lemma EnvironmentIsLastResort(explicit: Option<string>, project: string, repoOwner: string, suffix: string,
                                answers: string -> Vault.Response, env: Option<string>)
    requires !Given(explicit) && ProjectToken(answers, project, suffix) == ""
    ensures var search := SearchToken(explicit, true, project, repoOwner, suffix, answers, env);
            var owner := DefaultOwner(repoOwner);
            && (ReadToken(answers, owner, suffix).Ok? ==>
                  search.token == Some(ReadToken(answers, owner, suffix).value)
                  && Last(search.paths) == TokenPath(owner, suffix))
            && (ReadToken(answers, owner, suffix).Err? && ReadToken(answers, owner, Promoter).Ok? ==>
                  search.token == Some(ReadToken(answers, owner, Promoter).value))
            && (ReadToken(answers, owner, suffix).Err? && ReadToken(answers, owner, Promoter).Err? ==>
                  && search.token == env
                  && |search.paths| >= 2
                  && search.paths[|search.paths| - 2..] == [TokenPath(owner, suffix), TokenPath(owner, Promoter)])
  {
  }

  /**
   * A second-stage read that answers with an empty token (a secret without
   * "access_token") does not raise, so the environment is never consulted
   * and the search ends in `ValueError` even when the environment has a token.
   */
  lemma EmptyVaultTokenHidesEnvironment(explicit: Option<string>, project: string, repoOwner: string, suffix: string,
                                        answers: string -> Vault.Response, env: Option<string>)
    requires !Given(explicit) && ProjectToken(answers, project, suffix) == ""
    requires ReadToken(answers, DefaultOwner(repoOwner), suffix) == Ok("")
    ensures ArtifactoryToken(SearchToken(explicit, true, project, repoOwner, suffix, answers, env))
         == Err(ValueError(MissingTokenMessage))
  {
  }

  /** The action's own name and an empty owner both select the default role. */
  lemma DefaultOwnerPaths(suffix: string)
    ensures TokenPath(DefaultOwner(DefaultRepoOwner), suffix)
         == TokenPath(DefaultOwner(""), suffix)
         == "development/artifactory/token/SonarSource-gh-action_release-" + suffix
  {
  }

  // Build number of the new version

  const BuildSeparators: set<char> := {'-', '.', '+'}

  predicate IsAsciiLetter(c: char) {
    'a' <= c <= 'z' || 'A' <= c <= 'Z'
  }

  /** The length of the run of letters `s` starts with. */
  function LetterRun(s: string): (n: nat)
    ensures n <= |s|
    ensures forall i :: 0 <= i < n ==> IsAsciiLetter(s[i])
    ensures n < |s| ==> !IsAsciiLetter(s[n])
    decreases |s|
  {
    if |s| > 0 && IsAsciiLetter(s[0]) then 1 + LetterRun(s[1..]) else 0
  }

  /**
   * The optional project prefix `[a-zA-Z]+-` of the pattern, skipped when
   * present. Letters and digits never overlap, so a version that starts
   * with letters can only match with the prefix.
   */
  function WithoutProjectPrefix(s: string): string {
    var n := LetterRun(s);
    if 0 < n < |s| && s[n] == '-' then s[n + 1..] else s
  }

  /**
   * The build number of the new version: the build group of the version
   * pattern, optionally after a project prefix; failing that, the last
   * part between separators when it is all digits; else the original
   * build number.
   */
  function NewBuildNumber(version: string, original: string): string {
    match VersionPattern.MatchVersion(WithoutProjectPrefix(version), BuildSeparators)
    case Some(build) => build
    case None =>
      var last := Last(SplitAny(version, BuildSeparators));
      if IsDigits(last) then last else original
  }

  lemma LetterRunThen(p: string, rest: string)
    requires forall i :: 0 <= i < |p| ==> IsAsciiLetter(p[i])
    requires |rest| > 0 && !IsAsciiLetter(rest[0])
    ensures LetterRun(p + rest) == |p|
    decreases |p|
  {
    if |p| > 0 {
      assert (p + rest)[1..] == p[1..] + rest;
      LetterRunThen(p[1..], rest);
    } else {
      assert p + rest == rest;
    }
  }

  /** A version whose unprefixed part matches the pattern yields the pattern's build group. */
  lemma BuildNumberOfMatch(version: string, unprefixed: string, build: string, original: string)
    requires WithoutProjectPrefix(version) == unprefixed
    requires VersionPattern.MatchVersion(unprefixed, BuildSeparators) == Some(build)
    ensures NewBuildNumber(version, original) == build
  {
  }

  /** A version that starts with something other than a letter has no prefix to skip. */
  lemma NoPrefixWithoutLeadingLetter(v: string)
    requires |v| > 0 && !IsAsciiLetter(v[0])
    ensures WithoutProjectPrefix(v) == v
  {
  }

  /** A run of letters and a dash before a version is skipped. */
  lemma PrefixSkipped(prefix: string, v: string)
    requires prefix != "" && forall i :: 0 <= i < |prefix| ==> IsAsciiLetter(prefix[i])
    ensures WithoutProjectPrefix(prefix + "-" + v) == v
  {
    var pv := prefix + "-" + v;
    LetterRunThen(prefix, "-" + v);
    assert pv == prefix + ("-" + v);
    assert pv[|prefix|] == '-';
    assert pv[|prefix| + 1..] == v;
  }

  lemma NumbersStartWithDigit(a: string, b: string, c: string, m: Option<string>, sep: char, build: string)
    requires IsDigits(a)
    ensures var v := VersionPattern.Numbers(a, b, c, m, sep, build); |v| > 0 && !IsAsciiLetter(v[0])
  {
    var v := VersionPattern.Numbers(a, b, c, m, sep, build);
    assert v[0] == a[0];
  }

  /** A version of the pattern's shape yields its build number. */
  lemma BuildNumberOfVersion(a: string, b: string, c: string, m: Option<string>, sep: char, build: string, original: string)
    requires VersionPattern.WellFormed(a, b, c, m, sep, build, BuildSeparators)
    ensures NewBuildNumber(VersionPattern.Numbers(a, b, c, m, sep, build), original) == build
  {
    var v := VersionPattern.Numbers(a, b, c, m, sep, build);
    VersionPattern.MatchVersionOfShape(a, b, c, m, sep, build, BuildSeparators);
    NumbersStartWithDigit(a, b, c, m, sep, build);
    NoPrefixWithoutLeadingLetter(v);
    BuildNumberOfMatch(v, v, build, original);
  }

  /** So does the same version behind a project prefix of letters and a dash. */
  lemma BuildNumberOfPrefixedVersion(prefix: string, a: string, b: string, c: string, m: Option<string>, sep: char,
                                     build: string, original: string)
    requires VersionPattern.WellFormed(a, b, c, m, sep, build, BuildSeparators)
    requires prefix != "" && forall i :: 0 <= i < |prefix| ==> IsAsciiLetter(prefix[i])
    ensures NewBuildNumber(prefix + "-" + VersionPattern.Numbers(a, b, c, m, sep, build), original) == build
  {
    var v := VersionPattern.Numbers(a, b, c, m, sep, build);
    VersionPattern.MatchVersionOfShape(a, b, c, m, sep, build, BuildSeparators);
    PrefixSkipped(prefix, v);
    BuildNumberOfMatch(prefix + "-" + v, v, build, original);
  }

  lemma SeparatorsAreNotDigits()
    ensures forall x :: x in BuildSeparators ==> !IsAsciiDigit(x) && x != '\n'
  {
    assert forall x :: x in BuildSeparators ==> x == '-' || x == '.' || x == '+';
  }

  /**
   * When the pattern does not match, a version ending in a separator and
   * digits yields those digits.
   */
  lemma BuildNumberFallback(head: string, sep: char, digits: string, original: string)
    requires sep in BuildSeparators && IsDigits(digits)
    requires VersionPattern.MatchVersion(WithoutProjectPrefix(head + [sep] + digits), BuildSeparators).None?
    ensures NewBuildNumber(head + [sep] + digits, original) == digits
  {
    LastPieceAfterAnySeparator(head, sep, digits, BuildSeparators);
  }

  /** The new build number is always digits, or else the original build number. */
  lemma BuildNumberIsDigitsOrOriginal(version: string, original: string)
    ensures IsDigits(NewBuildNumber(version, original)) || NewBuildNumber(version, original) == original
  {
    var v := WithoutProjectPrefix(version);
    if VersionPattern.MatchVersion(v, BuildSeparators).Some? {
      SeparatorsAreNotDigits();
      VersionPattern.MatchVersionHasShape(v, BuildSeparators);
    }
  }

  /** A version without any digit keeps the original build number. */
  lemma VersionWithoutDigitsKeepsBuildNumber(version: string, original: string)
    requires forall i :: 0 <= i < |version| ==> !IsAsciiDigit(version[i])
    ensures NewBuildNumber(version, original) == original
  {
    var v := WithoutProjectPrefix(version);
    WithoutPrefixIsSuffix(version);
    NoDigitsInSuffix(version, v);
    NoDigitsNoMatch(v);
    var last := Last(SplitAny(version, BuildSeparators));
    SplitAnyLastIsSuffix(version, BuildSeparators);
    NoDigitsInSuffix(version, last);
    BuildNumberKept(version, original);
  }

  lemma WithoutPrefixIsSuffix(s: string)
    ensures EndsWith(s, WithoutProjectPrefix(s))
  {
    var n := LetterRun(s);
    if 0 < n < |s| && s[n] == '-' {
      assert s[|s| - |s[n + 1..]|..] == s[n + 1..];
    } else {
      assert s[|s| - |s|..] == s;
    }
  }

  lemma NoDigitsInSuffix(s: string, t: string)
    requires forall i :: 0 <= i < |s| ==> !IsAsciiDigit(s[i])
    requires EndsWith(s, t)
    ensures forall i :: 0 <= i < |t| ==> !IsAsciiDigit(t[i])
    ensures !IsDigits(t)
  {
    forall i | 0 <= i < |t|
      ensures !IsAsciiDigit(t[i])
    {
      assert t[i] == s[|s| - |t| + i];
    }
    if |t| > 0 {
      assert !IsAsciiDigit(t[0]);
    }
  }

  /** A matching version starts with a digit. */
  lemma NoDigitsNoMatch(v: string)
    requires forall i :: 0 <= i < |v| ==> !IsAsciiDigit(v[i])
    ensures VersionPattern.MatchVersion(v, BuildSeparators).None?
  {
    if VersionPattern.MatchVersion(v, BuildSeparators).Some? {
      SeparatorsAreNotDigits();
      VersionPattern.MatchVersionHasShape(v, BuildSeparators);
      assert false;
    }
  }

  /** Neither the pattern nor the last part gives a build number: the original is kept. */
  lemma BuildNumberKept(version: string, original: string)
    requires VersionPattern.MatchVersion(WithoutProjectPrefix(version), BuildSeparators).None?
    requires !IsDigits(Last(SplitAny(version, BuildSeparators)))
    ensures NewBuildNumber(version, original) == original
  {
  }

  // The run

  const DefaultBinariesBucket := "downloads-cdn-eu-central-1-prod"

  /**
   * The bucket of the binaries client: the release configuration's when
   * truthy, else the `BINARIES_AWS_DEPLOY` environment variable, else the
   * default bucket. A client exists only for a non-empty name.
   */
  function BinariesBucket(configured: Option<string>, env: Option<string>): string {
    if Given(configured) then configured.value else if env.Some? then env.value else DefaultBinariesBucket
  }

  /** Without configuration the default bucket is used; there is no binaries client only when the variable is set empty. */
  lemma BinariesBucketChoice(configured: Option<string>, env: Option<string>)
    ensures !Given(configured) && env.None? ==> BinariesBucket(configured, env) == DefaultBinariesBucket
    ensures BinariesBucket(configured, env) == "" <==> !Given(configured) && env == Some("")
    ensures Given(configured) ==> BinariesBucket(configured, env) == configured.value
  {
  }

  /** What one run re-signs: the project and build, the new version, and whether a binaries client exists. */
  datatype Resigner = Resigner(project: string, buildNumber: string, version: string, hasBinaries: bool)

  /** The steps up to the key import; `gpg_key_imported` is set once the last of them returns. */
  function UpToImport(rs: Resigner): seq<Effect> {
    [ReceiveBuildInfo(rs.project, rs.buildNumber), DownloadBuild(rs.project, rs.buildNumber), DeleteSignatures, ImportGpgKey]
  }

  /** The rewriting and signing steps, from the old version to the new one, ending with the new build info. */
  function Rewrites(rs: Resigner, oldVersion: string): seq<Effect> {
    RewriteSteps(oldVersion, rs.version, rs.project, NewBuildNumber(rs.version, rs.buildNumber))
  }

  function RewriteSteps(oldVersion: string, version: string, project: string, newBuild: string): seq<Effect> {
    [UpdatePoms(oldVersion, version), UpdateMetadata(oldVersion, version),
     RestructureDirectories(oldVersion, version), RenameFiles(oldVersion, version),
     UpdateSboms(oldVersion, version), SignArtifacts, CreateAndUploadBuildInfo(project, newBuild, version)]
  }

  /** The uploads that were decided on, binaries first. */
  function Uploads(rs: Resigner, binaries: bool, central: bool): seq<Effect> {
    UploadSteps(rs.project, NewBuildNumber(rs.version, rs.buildNumber), rs.version, binaries, central)
  }

  function UploadSteps(project: string, newBuild: string, version: string, binaries: bool, central: bool): seq<Effect> {
    (if binaries then [UploadToBinaries(project, newBuild, version)] else [])
    + (if central then [UploadToMavenCentral] else [])
  }

  /** The build info the uploads are decided on: the one created, when there is one (there is none in a dry run). */
  function ForCheck(original: Json, created: Option<Json>): Json {
    if created.Some? then created.value else original
  }

  /** `should_upload_binaries`: a binaries client and a truthy list of artifacts to publish. */
  predicate UploadsToBinaries(hasBinaries: bool, buildInfo: Json) {
    hasBinaries && Truthy(BuildInfo.GetArtifactsToPublish(buildInfo))
  }

  /**
   * What the `try` of `run` does after the key import: the passphrase
   * read, the old version read from the original build info, then the
   * rewrites and uploads.
   */
  function AfterImport(rs: Resigner, original: Json, created: Option<Json>, failing: map<Effect, Error>): Outcome {
    var passphrase := Issue([ReadPassphrase], failing);
    if passphrase.1.Err? then passphrase
    else
      match BuildInfo.GetVersion(original)
      case Err(e) => ([ReadPassphrase], Err(e))
      case Ok(oldVersion) =>
        var rest := RewriteAndUpload(rs, oldVersion, ForCheck(original, created), failing);
        ([ReadPassphrase] + rest.0, rest.1)
  }

  /**
   * The rewrites, then both upload decisions, Maven Central's (which may
   * raise) before any upload, and the uploads decided on.
   */
  function RewriteAndUpload(rs: Resigner, oldVersion: string, forCheck: Json, failing: map<Effect, Error>): Outcome {
    var rewrites := Issue(Rewrites(rs, oldVersion), failing);
    if rewrites.1.Err? then rewrites
    else
      match ArtifactoryUtils.CentralWanted(forCheck)
      case Err(e) => (rewrites.0, Err(e))
      case Ok(central) =>
        var uploads := Issue(Uploads(rs, UploadsToBinaries(rs.hasBinaries, forCheck), central), failing);
        (rewrites.0 + uploads.0, uploads.1)
  }

  /**
   * `run`: the steps up to the key import; if they all return, the rest,
   * and then, in `finally`, the cleanup of the imported key, which never
   * raises, so that the outcome of the rest is re-raised unchanged.
   */
  function RunOutcome(rs: Resigner, original: Json, created: Option<Json>, failing: map<Effect, Error>): Outcome {
    var fetch := Issue(UpToImport(rs), failing);
    if fetch.1.Err? then fetch
    else
      var rest := AfterImport(rs, original, created, failing);
      (fetch.0 + rest.0 + [CleanupGpgKey], rest.1)
  }

  /** The cleanup is no step of the `try`. */
  lemma AfterImportNeverCleansUp(rs: Resigner, original: Json, created: Option<Json>, failing: map<Effect, Error>)
    ensures CleanupGpgKey !in AfterImport(rs, original, created, failing).0
  {
    var out := AfterImport(rs, original, created, failing);
    var passphrase := Issue([ReadPassphrase], failing);
    IssuedArePlanned([ReadPassphrase], failing);
    if passphrase.1.Err? {
      assert out.0 == passphrase.0;
    } else if BuildInfo.GetVersion(original).Err? {
      assert out.0 == [ReadPassphrase];
    } else {
      var oldVersion := BuildInfo.GetVersion(original).value;
      var rest := RewriteAndUpload(rs, oldVersion, ForCheck(original, created), failing);
      RewriteAndUploadNeverCleansUp(rs, oldVersion, ForCheck(original, created), failing);
      assert out.0 == [ReadPassphrase] + rest.0;
    }
  }

  lemma RewritesNeverCleanUp(rs: Resigner, oldVersion: string)
    ensures CleanupGpgKey !in Rewrites(rs, oldVersion)
  {
    RewriteStepsUploadNothing(oldVersion, rs.version, rs.project, NewBuildNumber(rs.version, rs.buildNumber));
  }

  lemma RewriteAndUploadNeverCleansUp(rs: Resigner, oldVersion: string, forCheck: Json, failing: map<Effect, Error>)
    ensures CleanupGpgKey !in RewriteAndUpload(rs, oldVersion, forCheck, failing).0
  {
    var out := RewriteAndUpload(rs, oldVersion, forCheck, failing);
    var rewrites := Issue(Rewrites(rs, oldVersion), failing);
    IssuedArePlanned(Rewrites(rs, oldVersion), failing);
    RewritesNeverCleanUp(rs, oldVersion);
    var central := ArtifactoryUtils.CentralWanted(forCheck);
    if rewrites.1.Err? || central.Err? {
      assert out.0 == rewrites.0;
    } else {
      var planned := Uploads(rs, UploadsToBinaries(rs.hasBinaries, forCheck), central.value);
      var uploads := Issue(planned, failing);
      assert out.0 == rewrites.0 + uploads.0;
      IssuedArePlanned(planned, failing);
      UploadsAreTheDecidedOnes(rs, UploadsToBinaries(rs.hasBinaries, forCheck), central.value);
    }
  }

  /**
   * The key is cleaned up exactly when the steps up to its import all
   * returned, even when a later step raised. The cleanup is then the last
   * call and made once, and what the steps after the import raised is
   * re-raised unchanged.
   */
  lemma CleanupExactlyWhenImported(rs: Resigner, original: Json, created: Option<Json>, failing: map<Effect, Error>)
    ensures var run := RunOutcome(rs, original, created, failing);
            var fetch := Issue(UpToImport(rs), failing);
            && (CleanupGpgKey in run.0 <==> fetch.1.Ok?)
            && (fetch.1.Ok? ==>
                  && Last(run.0) == CleanupGpgKey
                  && (forall k :: 0 <= k < |run.0| - 1 ==> run.0[k] != CleanupGpgKey)
                  && run.1 == AfterImport(rs, original, created, failing).1)
  {
    var run := RunOutcome(rs, original, created, failing);
    var fetch := Issue(UpToImport(rs), failing);
    IssuedArePlanned(UpToImport(rs), failing);
    assert CleanupGpgKey !in fetch.0;
    if fetch.1.Ok? {
      AfterImportNeverCleansUp(rs, original, created, failing);
      var rest := AfterImport(rs, original, created, failing);
      assert run.0 == (fetch.0 + rest.0) + [CleanupGpgKey];
      forall k | 0 <= k < |run.0| - 1
        ensures run.0[k] != CleanupGpgKey
      {
        assert run.0[k] in fetch.0 + rest.0;
      }
    }
  }

  /** The passphrase is read after the key import, so a failure to read it still has the key cleaned up. */
  lemma PassphraseFailureStillCleansUp(rs: Resigner, original: Json, created: Option<Json>, failing: map<Effect, Error>)
    requires Issue(UpToImport(rs), failing).1.Ok? && ReadPassphrase in failing
    ensures RunOutcome(rs, original, created, failing)
         == (UpToImport(rs) + [ReadPassphrase, CleanupGpgKey], Err(failing[ReadPassphrase]))
  {
    IssueSingle(ReadPassphrase, failing);
    assert UpToImport(rs) + [ReadPassphrase] + [CleanupGpgKey] == UpToImport(rs) + [ReadPassphrase, CleanupGpgKey];
  }

  lemma RewriteAndUploadGated(rs: Resigner, oldVersion: string, forCheck: Json, failing: map<Effect, Error>)
    ensures forall e :: e in RewriteAndUpload(rs, oldVersion, forCheck, failing).0 && e.UploadToBinaries? ==>
              UploadsToBinaries(rs.hasBinaries, forCheck)
    ensures UploadToMavenCentral in RewriteAndUpload(rs, oldVersion, forCheck, failing).0 ==>
              ArtifactoryUtils.CentralWanted(forCheck) == Ok(true)
  {
    var out := RewriteAndUpload(rs, oldVersion, forCheck, failing);
    var rewrites := Issue(Rewrites(rs, oldVersion), failing);
    IssuedArePlanned(Rewrites(rs, oldVersion), failing);
    RewritesUploadNothing(rs, oldVersion);
    assert NoUploads(rewrites.0);
    var central := ArtifactoryUtils.CentralWanted(forCheck);
    if rewrites.1.Err? || central.Err? {
      assert out.0 == rewrites.0;
    } else {
      var binaries := UploadsToBinaries(rs.hasBinaries, forCheck);
      var uploads := Issue(Uploads(rs, binaries, central.value), failing);
      assert out.0 == rewrites.0 + uploads.0;
      IssuedArePlanned(Uploads(rs, binaries, central.value), failing);
      UploadsAreTheDecidedOnes(rs, binaries, central.value);
      assert UploadsOnlyIf(uploads.0, binaries, central.value);
      UploadsOnlyIfAppend(rewrites.0, uploads.0, binaries, central.value);
    }
  }

  /** No effect of the list is an upload. */
  predicate NoUploads(effects: seq<Effect>) {
    forall e :: e in effects ==> !e.UploadToBinaries? && e != UploadToMavenCentral
  }

  /** The effects of the list upload only as decided. */
  predicate UploadsOnlyIf(effects: seq<Effect>, binaries: bool, central: bool) {
    && (forall e :: e in effects && e.UploadToBinaries? ==> binaries)
    && (UploadToMavenCentral in effects ==> central)
  }

  lemma RewritesUploadNothing(rs: Resigner, oldVersion: string)
    ensures NoUploads(Rewrites(rs, oldVersion))
  {
    RewriteStepsUploadNothing(oldVersion, rs.version, rs.project, NewBuildNumber(rs.version, rs.buildNumber));
  }

  lemma RewriteStepsUploadNothing(oldVersion: string, version: string, project: string, newBuild: string)
    ensures NoUploads(RewriteSteps(oldVersion, version, project, newBuild))
    ensures CleanupGpgKey !in RewriteSteps(oldVersion, version, project, newBuild)
  {
  }

  lemma UploadsAreTheDecidedOnes(rs: Resigner, binaries: bool, central: bool)
    ensures UploadsOnlyIf(Uploads(rs, binaries, central), binaries, central)
    ensures CleanupGpgKey !in Uploads(rs, binaries, central)
  {
    UploadStepsAreTheDecidedOnes(rs.project, NewBuildNumber(rs.version, rs.buildNumber), rs.version, binaries, central);
  }

  lemma UploadStepsAreTheDecidedOnes(project: string, newBuild: string, version: string, binaries: bool, central: bool)
    ensures UploadsOnlyIf(UploadSteps(project, newBuild, version, binaries, central), binaries, central)
    ensures CleanupGpgKey !in UploadSteps(project, newBuild, version, binaries, central)
  {
  }

  lemma UploadsOnlyIfAppend(first: seq<Effect>, second: seq<Effect>, binaries: bool, central: bool)
    requires NoUploads(first) && UploadsOnlyIf(second, binaries, central)
    ensures UploadsOnlyIf(first + second, binaries, central)
  {
  }

  /**
   * Whatever raises, the binaries upload is made only with a binaries
   * client and artifacts to publish, and the Maven Central upload only when
   * the build info decided on asks for it; both look at the build info
   * created, when there is one.
   */
  lemma UploadsAreGated(rs: Resigner, original: Json, created: Option<Json>, failing: map<Effect, Error>)
    ensures var run := RunOutcome(rs, original, created, failing);
            var forCheck := ForCheck(original, created);
            && (forall e :: e in run.0 && e.UploadToBinaries? ==> UploadsToBinaries(rs.hasBinaries, forCheck))
            && (UploadToMavenCentral in run.0 ==> ArtifactoryUtils.CentralWanted(forCheck) == Ok(true))
  {
    var forCheck := ForCheck(original, created);
    IssuedArePlanned(UpToImport(rs), failing);
    IssuedArePlanned([ReadPassphrase], failing);
    if BuildInfo.GetVersion(original).Ok? {
      RewriteAndUploadGated(rs, BuildInfo.GetVersion(original).value, forCheck, failing);
    }
  }

  /**
   * When nothing raises, every step is taken once, in order: the fetch,
   * the key import, the passphrase, the rewrites, the uploads decided on
   * (the binaries one exactly with a client and artifacts to publish, the
   * Maven Central one exactly when asked for), and the cleanup.
   */
  lemma RunWithoutFailures(rs: Resigner, original: Json, created: Option<Json>, oldVersion: string, central: bool)
    requires BuildInfo.GetVersion(original) == Ok(oldVersion)
    requires ArtifactoryUtils.CentralWanted(ForCheck(original, created)) == Ok(central)
    ensures RunOutcome(rs, original, created, map[])
         == (UpToImport(rs) + [ReadPassphrase] + Rewrites(rs, oldVersion)
             + Uploads(rs, UploadsToBinaries(rs.hasBinaries, ForCheck(original, created)), central) + [CleanupGpgKey],
             Ok(()))
  {
    var uploads := Uploads(rs, UploadsToBinaries(rs.hasBinaries, ForCheck(original, created)), central);
    IssueNoneFailing(UpToImport(rs), map[]);
    IssueNoneFailing([ReadPassphrase], map[]);
    IssueNoneFailing(Rewrites(rs, oldVersion), map[]);
    IssueNoneFailing(uploads, map[]);
    SeqAssoc([ReadPassphrase], Rewrites(rs, oldVersion), uploads);
    SeqAssoc(UpToImport(rs), [ReadPassphrase], Rewrites(rs, oldVersion) + uploads);
    SeqAssoc(UpToImport(rs) + [ReadPassphrase], Rewrites(rs, oldVersion), uploads);
  }

  /**
   * The Maven Central decision is taken before any upload: when it raises,
   * nothing is uploaded, even with a binaries client and artifacts to
   * publish, and the key is still cleaned up.
   */
  lemma CentralDecisionErrorStopsUploads(rs: Resigner, original: Json, created: Option<Json>, oldVersion: string, e: Error)
    requires BuildInfo.GetVersion(original) == Ok(oldVersion)
    requires ArtifactoryUtils.CentralWanted(ForCheck(original, created)) == Err(e)
    ensures RunOutcome(rs, original, created, map[])
         == (UpToImport(rs) + [ReadPassphrase] + Rewrites(rs, oldVersion) + [CleanupGpgKey], Err(e))
  {
    IssueNoneFailing(UpToImport(rs), map[]);
    IssueNoneFailing([ReadPassphrase], map[]);
    IssueNoneFailing(Rewrites(rs, oldVersion), map[]);
    SeqAssoc(UpToImport(rs), [ReadPassphrase], Rewrites(rs, oldVersion));
  }

  /** An original build info without a version stops the run before any rewrite, and the key is cleaned up. */
  lemma VersionErrorStopsRewrites(rs: Resigner, original: Json, created: Option<Json>, failing: map<Effect, Error>)
    requires Issue(UpToImport(rs), failing).1.Ok? && ReadPassphrase !in failing
    requires BuildInfo.GetVersion(original).Err?
    ensures RunOutcome(rs, original, created, failing)
         == (UpToImport(rs) + [ReadPassphrase, CleanupGpgKey], Err(BuildInfo.GetVersion(original).error))
  {
    IssueSingle(ReadPassphrase, failing);
    assert UpToImport(rs) + [ReadPassphrase] + [CleanupGpgKey] == UpToImport(rs) + [ReadPassphrase, CleanupGpgKey];
  }

  /** The steps after the key import, call by call. */
  method RunAfterImport(world: World, rs: Resigner, original: Json, created: Option<Json>) returns (r: Result<()>)
    modifies world
    ensures world.trace == old(world.trace) + AfterImport(rs, original, created, world.failing).0
    ensures r == AfterImport(rs, original, created, world.failing).1
  {
    IssueSingle(ReadPassphrase, world.failing);
    r := world.Call(ReadPassphrase);
    if r.Err? {
      return;
    }
    assert world.trace == old(world.trace) + [ReadPassphrase];
    var oldVersion := BuildInfo.GetVersion(original);
    if oldVersion.Err? {
      return Err(oldVersion.error);
    }
    var forCheck := if created.Some? then created.value else original;
    r := RewriteAndUploadCalls(world, rs, oldVersion.value, forCheck);
    SeqAssoc(old(world.trace), [ReadPassphrase], RewriteAndUpload(rs, oldVersion.value, forCheck, world.failing).0);
  }

  /** The rewrites and uploads, call by call. */
  method RewriteAndUploadCalls(world: World, rs: Resigner, oldVersion: string, forCheck: Json) returns (r: Result<()>)
    modifies world
    ensures world.trace == old(world.trace) + RewriteAndUpload(rs, oldVersion, forCheck, world.failing).0
    ensures r == RewriteAndUpload(rs, oldVersion, forCheck, world.failing).1
  {
    r := world.CallAll(Rewrites(rs, oldVersion));
    if r.Err? {
      return;
    }
    var artifacts := BuildInfo.GetArtifactsToPublish(forCheck);
    var binaries := rs.hasBinaries && Truthy(artifacts);
    var central := ArtifactoryUtils.ShouldUploadToMavenCentral(forCheck);
    if central.Err? {
      return Err(central.error);
    }
    r := world.CallAll(Uploads(rs, binaries, central.value));
    SeqAssoc(old(world.trace), Issue(Rewrites(rs, oldVersion), world.failing).0, Issue(Uploads(rs, binaries, central.value), world.failing).0);
  }

  /** `run` call by call: the key is cleaned up after the rest whenever the import returned. */
  method Run(world: World, rs: Resigner, original: Json, created: Option<Json>) returns (r: Result<()>)
    modifies world
    ensures world.trace == old(world.trace) + RunOutcome(rs, original, created, world.failing).0
    ensures r == RunOutcome(rs, original, created, world.failing).1
  {
    ghost var fetch := Issue(UpToImport(rs), world.failing);
    r := world.CallAll(UpToImport(rs));
    if r.Err? {
      return;
    }
    ghost var rest := AfterImport(rs, original, created, world.failing);
    r := RunAfterImport(world, rs, original, created);
    assert world.trace == old(world.trace) + fetch.0 + rest.0;
    IssueSingle(CleanupGpgKey, world.failing);
    var _ := world.Call(CleanupGpgKey);
    assert world.trace == old(world.trace) + fetch.0 + rest.0 + [CleanupGpgKey];
    SeqAssoc(old(world.trace), fetch.0, rest.0);
    SeqAssoc(old(world.trace), fetch.0 + rest.0, [CleanupGpgKey]);
  }
}
