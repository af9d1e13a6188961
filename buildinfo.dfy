/**
 * Queries over an Artifactory build-info document: properties with a
 * default, the version of the first module, the repositories a promotion
 * moves between, the artifacts to publish and what they tell (public,
 * package, several groups). The three revisions of the class share these
 * definitions; only the newest has the repository query and only the
 * older two the several-groups query.
 */
module BuildInfo {
  import opened Py
  import opened Json

  const ArtifactsToPublishKey: string := "artifactsToPublish"
  const EnvArtifactsToPublish: string := "buildInfo.env.ARTIFACTS_TO_PUBLISH"
  const PublicGroup: string := "org.sonarsource"

  /** The value reached by following dict keys one after the other, if every key is there. */
  function AtPath(j: Json, path: seq<string>): Option<Json>
    decreases |path|
  {
    if |path| == 0 then Some(j)
    else if j.JObj? && path[0] in Keys(j.fields) then AtPath(Lookup(j.fields, path[0]).value, path[1..])
    else None
  }

  /** `self.json['buildInfo']['properties'][name]`, with the exception it may raise. */
  function PropertyLookup(json: Json, name: string): Result<Json> {
    var buildInfo :- Index(json, "buildInfo");
    var properties :- Index(buildInfo, "properties");
    Index(properties, name)
  }

  /** `get_property`: every exception on the way gives the default. */
  function GetProperty(json: Json, name: string, default: Json): Json {
    match PropertyLookup(json, name)
    case Ok(v) => v
    case Err(_) => default
  }

  /** The property is the value at the path when every key is there, and the default as soon as one is missing. */
  lemma GetPropertyFollowsPath(json: Json, name: string, default: Json)
    ensures GetProperty(json, name, default)
         == match AtPath(json, ["buildInfo", "properties", name]) case Some(v) => v case None => default
  {
    var path := ["buildInfo", "properties", name];
    assert path[1..] == ["properties", name] && path[1..][1..] == [name] && [name][1..] == [];
    var buildInfo := Index(json, "buildInfo");
    if buildInfo.Ok? {
      assert AtPath(json, path) == AtPath(buildInfo.value, ["properties", name]);
      var properties := Index(buildInfo.value, "properties");
      if properties.Ok? {
        assert AtPath(buildInfo.value, ["properties", name]) == AtPath(properties.value, [name]);
        var v := Index(properties.value, name);
        if v.Ok? {
          assert AtPath(properties.value, [name]) == AtPath(v.value, []);
        }
      }
    }
  }

  /** `get_module_property`: no default, so a missing key raises. */
  function ModuleProperty(json: Json, name: string): Result<Json> {
    var buildInfo :- Index(json, "buildInfo");
    var modules :- Index(buildInfo, "modules");
    var first :- At(modules, 0);
    var properties :- Index(first, "properties");
    Index(properties, name)
  }

  /** `get_version`: the last ':'-separated field of the first module's id. */
  function GetVersion(json: Json): Result<string> {
    var buildInfo :- Index(json, "buildInfo");
    var modules :- Index(buildInfo, "modules");
    var first :- At(modules, 0);
    var idValue :- Index(first, "id");
    var id :- AsStr(idValue);
    Ok(Last(Split(id, ':')))
  }

  /** The id of the first module, when it is a text. */
  function FirstModuleId(json: Json): Result<string> {
    var buildInfo :- Index(json, "buildInfo");
    var modules :- Index(buildInfo, "modules");
    var first :- At(modules, 0);
    var idValue :- Index(first, "id");
    AsStr(idValue)
  }

  /**
   * The version is a colon-free suffix of the module id, preceded by a
   * colon unless it is the whole id; `group:artifact:version` gives `version`.
   */
  lemma VersionIsLastField(json: Json)
    ensures GetVersion(json).Ok? <==> FirstModuleId(json).Ok?
    ensures GetVersion(json).Ok? ==>
      var id, v := FirstModuleId(json).value, GetVersion(json).value;
      && ':' !in v && EndsWith(id, v)
      && (v == id || id[|id| - |v| - 1] == ':')
    ensures forall prefix: string, version: string ::
      FirstModuleId(json) == Ok(prefix + ":" + version) && ':' !in version ==> GetVersion(json) == Ok(version)
  {
    if FirstModuleId(json).Ok? {
      var id := FirstModuleId(json).value;
      SplitLastIsSuffix(id, ':');
      assert Last(Split(id, ':')) in Split(id, ':');
    }
    forall prefix: string, version: string | FirstModuleId(json) == Ok(prefix + ":" + version) && ':' !in version
      ensures GetVersion(json) == Ok(version)
    {
      LastPieceAfterSeparator(prefix, ':', version);
    }
  }

  // -----------------------------------------------------------------------
  // Promotion repositories

  /**
   * `get_source_and_target_repos`: the repository type is the last
   * '-'-field of the first status's repository; promoting moves from that
   * name with the type replaced by "builds" to the one with "releases",
   * revoking the other way round. Every occurrence of the type is replaced.
   */
  function GetSourceAndTargetRepos(json: Json, revoke: bool): Result<(string, string)> {
    var repo :- FirstRepository(json);
    var repoType := Last(Split(repo, '-'));
    if revoke then Ok((Replace(repo, repoType, "releases"), Replace(repo, repoType, "builds")))
    else Ok((Replace(repo, repoType, "builds"), Replace(repo, repoType, "releases")))
  }

  /** `self.json['buildInfo']['statuses'][0]['repository']`, which must be a text. */
  function FirstRepository(json: Json): Result<string> {
    var buildInfo :- Index(json, "buildInfo");
    var statuses :- Index(buildInfo, "statuses");
    var first :- At(statuses, 0);
    var repoValue :- Index(first, "repository");
    AsStr(repoValue)
  }

  /** Revoking swaps the two repositories of promoting. */
  lemma RevokeSwapsRepos(json: Json)
    ensures GetSourceAndTargetRepos(json, true).Ok? <==> GetSourceAndTargetRepos(json, false).Ok?
    ensures GetSourceAndTargetRepos(json, true).Ok? ==>
      GetSourceAndTargetRepos(json, true).value
        == (GetSourceAndTargetRepos(json, false).value.1, GetSourceAndTargetRepos(json, false).value.0)
  {
  }

  /** A first status without a repository raises `KeyError`. */
  lemma MissingRepositoryRaisesKeyError(json: Json, status: Json, revoke: bool)
    requires Index(json, "buildInfo").Ok? && Index(Index(json, "buildInfo").value, "statuses").Ok?
    requires At(Index(Index(json, "buildInfo").value, "statuses").value, 0) == Ok(status)
    requires status.JObj? && "repository" !in Keys(status.fields)
    ensures GetSourceAndTargetRepos(json, revoke) == Err(KeyError("repository"))
  {
  }

  /** The type of `name-type` is `type`, and replacing it where it occurs only at the end swaps the suffix. */
  lemma TypedRepository(name: string, repoType: string, replacement: string)
    requires '-' !in repoType && |repoType| > 0
    requires forall i :: 0 <= i < |name| + 1 ==> !OccursAt(name + "-" + repoType, repoType, i)
    ensures Last(Split(name + "-" + repoType, '-')) == repoType
    ensures Replace(name + "-" + repoType, repoType, replacement) == name + "-" + replacement
  {
    var a := name + "-";
    assert a + repoType == name + "-" + repoType;
    assert a + replacement == name + "-" + replacement;
    LastPieceAfterSeparator(name, '-', repoType);
    ReplaceOnlyAtEnd(a, repoType, replacement);
  }

  /**
   * For a repository `name-type` whose type occurs only at its end,
   * promotion goes from `name-builds` to `name-releases`.
   */
  lemma PromoteReposOfTypedRepository(json: Json, name: string, repoType: string)
    requires '-' !in repoType && |repoType| > 0
    requires forall i :: 0 <= i < |name| + 1 ==> !OccursAt(name + "-" + repoType, repoType, i)
    requires FirstRepository(json) == Ok(name + "-" + repoType)
    ensures GetSourceAndTargetRepos(json, false) == Ok((name + "-" + "builds", name + "-" + "releases"))
    ensures GetSourceAndTargetRepos(json, true) == Ok((name + "-" + "releases", name + "-" + "builds"))
  {
    var repo := name + "-" + repoType;
    TypedRepository(name, repoType, "builds");
    TypedRepository(name, repoType, "releases");
    var builds, releases := Replace(repo, repoType, "builds"), Replace(repo, repoType, "releases");
    assert GetSourceAndTargetRepos(json, false) == Ok((builds, releases));
    assert GetSourceAndTargetRepos(json, true) == Ok((releases, builds));

  }

  // -----------------------------------------------------------------------
  // Artifacts to publish

  /**
   * `get_artifacts_to_publish`: the first module's property, and when that
   * raises the build property with its default "". The inner fallback
   * cannot raise, so the result is never Python's None unless a property
   * holds null.
   */
  function GetArtifactsToPublish(json: Json): Json {
    match ModuleProperty(json, ArtifactsToPublishKey)
    case Ok(v) => v
    case Err(_) => GetProperty(json, EnvArtifactsToPublish, JStr(""))
  }

  /** The module property wins; the build property follows; with neither the result is "" rather than None. */
  lemma ArtifactsToPublishFallback(json: Json)
    ensures ModuleProperty(json, ArtifactsToPublishKey).Ok? ==>
              GetArtifactsToPublish(json) == ModuleProperty(json, ArtifactsToPublishKey).value
    ensures ModuleProperty(json, ArtifactsToPublishKey).Err? && PropertyLookup(json, EnvArtifactsToPublish).Ok? ==>
              GetArtifactsToPublish(json) == PropertyLookup(json, EnvArtifactsToPublish).value
    ensures ModuleProperty(json, ArtifactsToPublishKey).Err? && PropertyLookup(json, EnvArtifactsToPublish).Err? ==>
              GetArtifactsToPublish(json) == JStr("")
  {
  }

  /** `is_public`: truthy artifacts holding "org.sonarsource"; a non-text truthy value is searched as Python would. */
  function IsPublic(json: Json): Result<bool> {
    var artifacts := GetArtifactsToPublish(json);
    if Truthy(artifacts) then PyIn(PublicGroup, artifacts) else Ok(false)
  }

  /** For a text value, public exactly when the text contains "org.sonarsource". */
  lemma IsPublicIffContains(json: Json)
    requires GetArtifactsToPublish(json).JStr?
    ensures IsPublic(json) == Ok(Contains(GetArtifactsToPublish(json).s, PublicGroup))
  {
    var s := GetArtifactsToPublish(json).s;
    if s == "" {
      assert !StartsWith(s, PublicGroup);
    }
  }

  /** `get_package`: the group id (first ':'-field) of the first ','-entry; a non-text value raises. */
  function GetPackage(json: Json): Result<string> {
    var all :- AsStr(GetArtifactsToPublish(json));
    var artifacts := Split(all, ',');
    Ok(Split(artifacts[0], ':')[0])
  }

  /** The package is the start of the artifacts text up to the first ',' or ':'. */
  lemma PackageIsLeadingGroup(json: Json)
    requires GetArtifactsToPublish(json).JStr?
    ensures GetPackage(json).Ok?
    ensures var all, p := GetArtifactsToPublish(json).s, GetPackage(json).value;
      && StartsWith(all, p) && ',' !in p && ':' !in p
      && (p == all || all[|p|] == ',' || all[|p|] == ':')
  {
    var all := GetArtifactsToPublish(json).s;
    var entry := Split(all, ',')[0];
    SplitFirstIsPrefix(all, ',');
    SplitFirstIsPrefix(entry, ':');
    var p := Split(entry, ':')[0];
    assert p in Split(entry, ':');
    assert forall c :: c in p ==> c in entry;
    if p != entry {
      assert all[|p|] == entry[|p|];
    }
  }

  /** Whether some entry's first three characters differ from the first entry's. */
  predicate MixedGroups(entries: seq<string>)
    requires |entries| > 0
  {
    exists j :: 0 <= j < |entries| && Take(entries[j], 3) != Take(entries[0], 3)
  }

  /**
   * The loop of `is_multi` over several entries: it reads entry `i - 1`
   * for `i` in `0..n-1`, which with Python's negative indices visits every
   * entry, and stops at the first whose prefix differs from the first one's.
   */
  method CompareGroups(artifacts: seq<string>) returns (mixed: bool)
    requires |artifacts| > 0
    ensures mixed <==> MixedGroups(artifacts)
  {
    var count := |artifacts|;
    var ref := Take(artifacts[0], 3);
    for i := 0 to count
      invariant i > 0 ==> Take(artifacts[count - 1], 3) == ref
      invariant forall j :: 0 <= j < i - 1 ==> Take(artifacts[j], 3) == ref
    {
      var current := Take(artifacts[if i - 1 < 0 then i - 1 + count else i - 1], 3);
      if current != ref {
        return true;
      }
    }
    return false;
  }

  /**
   * `is_multi`: truthy artifacts that split into several entries whose
   * three-character prefixes are not all the first one's. The loop reads
   * entry `i - 1` for `i` in `0..n-1`, which with Python's negative
   * indices visits every entry.
   */
  method IsMulti(json: Json) returns (r: Result<bool>)
    ensures var a := GetArtifactsToPublish(json);
      && (r.Err? <==> Truthy(a) && !a.JStr?)
      && (r.Ok? ==> (r.value <==> a.JStr? && |Split(a.s, ',')| > 1 && MixedGroups(Split(a.s, ','))))
  {
    var allartifacts := GetArtifactsToPublish(json);
    if Truthy(allartifacts) {
      if !allartifacts.JStr? {
        return Err(AttributeError("split"));
      }
      var artifacts := Split(allartifacts.s, ',');
      if |artifacts| == 1 {
        return Ok(false);
      }
      var mixed := CompareGroups(artifacts);
      return Ok(mixed);
    }
    return Ok(false);
  }
}
