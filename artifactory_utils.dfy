/**
 * The Artifactory side of re-signing a release: which repository the
 * re-signed artifacts go to, which repositories a promotion moves between,
 * the version the original build carried, how module ids get the new
 * version, how each original artifact is matched with a local file when
 * the build info is rebuilt by hand, the check that the rebuilt build info
 * has the original's shape, whether Maven Central is a target, and the
 * polling of a Maven Central deployment. Build-info documents are decoded
 * JSON; the local files, HTTP answers and deployment states are
 * parameters.
 */
module ArtifactoryUtils {
  import opened Py
  import opened Json
  import BuildInfo

  const PublicReleases: string := "sonarsource-public-releases"
  const PrivateReleases: string := "sonarsource-private-releases"
  const PublicBuilds: string := "sonarsource-public-builds"
  const PrivateBuilds: string := "sonarsource-private-builds"
  const PrivateGroup: string := "com.sonarsource"

  // ---------------------------------------------------------------------
  // Maven Central as a target

  /** An entry of `artifactsToPublish` whose group (the text before its first ':') is public. */
  predicate PublicEntry(entry: string) {
    StartsWith(Split(entry, ':')[0], BuildInfo.PublicGroup)
  }

  /**
   * Whether the artifacts go to Maven Central: not when the artifacts to
   * publish are empty or None; otherwise exactly when some comma-separated
   * entry is public. A truthy value that is not a string has no `split`.
   */
  function CentralWanted(json: Json): Result<bool> {
    CentralWantedFor(BuildInfo.GetArtifactsToPublish(json))
  }

  function CentralWantedFor(artifacts: Json): Result<bool> {
    if !Truthy(artifacts) then Ok(false)
    else if !artifacts.JStr? then Err(AttributeError("split"))
    else Ok(AnyPublic(Split(artifacts.s, ',')))
  }

  predicate AnyPublic(entries: seq<string>) {
    exists k :: 0 <= k < |entries| && PublicEntry(entries[k])
  }

  /** `should_upload_to_maven_central`: the entries are scanned until a public one is found. */
  method ShouldUploadToMavenCentral(json: Json) returns (r: Result<bool>)
    ensures r == CentralWanted(json)
  {
    var artifacts := BuildInfo.GetArtifactsToPublish(json);
    if !Truthy(artifacts) {
      return Ok(false);
    }
    if !artifacts.JStr? {
      return Err(AttributeError("split"));
    }
    var entries := Split(artifacts.s, ',');
    for i := 0 to |entries|
      invariant forall k :: 0 <= k < i ==> !PublicEntry(entries[k])
    {
      if PublicEntry(entries[i]) {
        assert AnyPublic(entries);
        return Ok(true);
      }
      NoPublicEntryYet(entries, i);
    }
    return Ok(false);
  }

  /** One more entry scanned without finding a public one. */
  lemma NoPublicEntryYet(entries: seq<string>, i: nat)
    requires i < |entries| && !PublicEntry(entries[i])
    requires forall k :: 0 <= k < i ==> !PublicEntry(entries[k])
    ensures forall k :: 0 <= k < i + 1 ==> !PublicEntry(entries[k])
  {
  }

  /**
   * For a list of artifacts written as comma-separated entries, Maven
   * Central is a target exactly when one of the entries is public.
   */
  lemma CentralWantedOfEntries(json: Json, entries: seq<string>)
    requires |entries| >= 1 && forall k :: 0 <= k < |entries| ==> ',' !in entries[k]
    requires BuildInfo.GetArtifactsToPublish(json) == JStr(Join(entries, ","))
    ensures CentralWanted(json) == Ok(AnyPublic(entries))
  {
    var text := Join(entries, ",");
    SplitJoin(entries, ',');
    if text == "" {
      EmptyTextHasNoPublicEntry(entries);
    }
    CentralWantedForText(text, entries);
  }

  lemma EmptyTextHasNoPublicEntry(entries: seq<string>)
    requires Split("", ',') == entries
    ensures !AnyPublic(entries)
  {
    SplitNoSep("", ',');
    SplitNoSep("", ':');
    assert !PublicEntry("");
  }

  lemma CentralWantedForText(text: string, entries: seq<string>)
    requires Split(text, ',') == entries
    requires text == "" ==> !AnyPublic(entries)
    ensures CentralWantedFor(JStr(text)) == Ok(AnyPublic(entries))
  {
  }

  // ---------------------------------------------------------------------
  // The first module's group, as the repository choices read it

  /** `buildinfo.json.get('buildInfo', {}).get('modules', [])`. */
  function Modules(json: Json): (r: Result<Json>)
    ensures r.Err? ==> Swallowed(r.error)
  {
    var buildInfo :- GetOr(json, "buildInfo", JObj([]));
    GetOr(buildInfo, "modules", JArr([]))
  }

  /** `modules[0].get('id', '')`. */
  function FirstId(modules: Json): (r: Result<Json>)
    ensures r.Err? ==> Swallowed(r.error) || r.error.TypeError?
  {
    var first :- First(modules);
    GetOr(first, "id", JStr(""))
  }

  /** The ':'-separated fields of a module id; None when the id has no ':'. */
  function IdFields(id: Json): (r: Result<Option<seq<string>>>)
    ensures r.Ok? && r.value.Some? ==> id.JStr? && r.value.value == Split(id.s, ':')
    ensures r.Err? ==> Swallowed(r.error) || r.error.TypeError?
  {
    var colon :- PyIn(":", id);
    if !colon then Ok(None)
    else
      var s :- AsStr(id);
      Ok(Some(Split(s, ':')))
  }

  /** The group of the first module: None without modules or without ':' in its id. */
  function FirstModuleGroup(json: Json): (r: Result<Option<string>>)
    ensures r.Err? ==> Swallowed(r.error) || r.error.TypeError?
  {
    var modules :- Modules(json);
    if !Truthy(modules) then Ok(None)
    else
      var id :- FirstId(modules);
      var fields :- IdFields(id);
      Ok(if fields.Some? then Some(fields.value[0]) else None)
  }

  /** The exceptions the repository choices swallow (`except (KeyError, IndexError, AttributeError)`). */
  predicate Swallowed(e: Error) {
    e.KeyError? || e.IndexError? || e.AttributeError?
  }

  /** A build-info document whose modules are the given list. */
  function WithModules(modules: seq<Json>): Json {
    JObj([("buildInfo", JObj([("modules", JArr(modules))]))])
  }

  /** ':' occurs in an id of at least two ':'-free fields joined by ':'. */
  lemma ColonInJoin(fields: seq<string>)
    requires |fields| >= 2
    ensures PyIn(":", JStr(Join(fields, ":"))) == Ok(true)
  {
    var n := |fields|;
    assert fields == fields[..n - 1] + [fields[n - 1]];
    JoinAppend(fields[..n - 1], fields[n - 1], ":");
    var id := Join(fields, ":");
    assert id == Join(fields[..n - 1], ":") + ":" + fields[n - 1];
    assert ':' in id by {
      assert id[|Join(fields[..n - 1], ":")|] == ':';
    }
    ContainsCharIff(id, ':');
  }

  /** An id of at least two fields is split back into its fields. */
  lemma IdFieldsOfJoin(fields: seq<string>)
    requires |fields| >= 2 && forall k :: 0 <= k < |fields| ==> ':' !in fields[k]
    ensures IdFields(JStr(Join(fields, ":"))) == Ok(Some(fields))
  {
    ColonInJoin(fields);
    SplitJoin(fields, ':');
  }

  /** The group read from a first module whose id is made of ':'-free fields. */
  lemma FirstModuleGroupOfId(fields: seq<string>, rest: seq<(string, Json)>, more: seq<Json>)
    requires |fields| >= 2 && forall k :: 0 <= k < |fields| ==> ':' !in fields[k]
    ensures FirstModuleGroup(WithModules([JObj([("id", JStr(Join(fields, ":")))] + rest)] + more)) == Ok(Some(fields[0]))
  {
    IdFieldsOfJoin(fields);
    FirstModuleGroupOfIdFields(JStr(Join(fields, ":")), fields, rest, more);
  }

  lemma FirstModuleGroupOfIdFields(id: Json, fields: seq<string>, rest: seq<(string, Json)>, more: seq<Json>)
    requires IdFields(id) == Ok(Some(fields))
    ensures FirstModuleGroup(WithModules([JObj([("id", id)] + rest)] + more)) == Ok(Some(fields[0]))
  {
    var modules := JArr([JObj([("id", id)] + rest)] + more);
    assert Modules(WithModules([JObj([("id", id)] + rest)] + more)) == Ok(modules);
    assert FirstId(modules) == Ok(id);
  }

  // ---------------------------------------------------------------------
  // Repository of the re-signed artifacts

  /**
   * The repository named by the first status of the original build: its
   * "builds" become "releases", one already naming releases is kept, any
   * other gives the public releases repository.
   */
  function StatusRepository(json: Json): (r: Result<Json>)
    ensures r.Err? ==> Swallowed(r.error) || r.error.TypeError?
  {
    var buildInfo :- GetOr(json, "buildInfo", JObj([]));
    var statuses :- Get(buildInfo, "statuses");
    if !Truthy(statuses) then Ok(JStr(PublicReleases))
    else
      var status :- First(statuses);
      var original :- GetOr(status, "repository", JStr(PublicReleases));
      var builds :- PyIn("builds", original);
      if builds then
        var s :- AsStr(original);
        Ok(JStr(Replace(s, "builds", "releases")))
      else
        var releases :- PyIn("releases", original);
        Ok(if releases then original else JStr(PublicReleases))
  }

  /** What the `try` block of the repository choice computes, or the exception it raises. */
  function UploadRepositoryAttempt(json: Json): (r: Result<Json>)
    ensures r.Err? ==> Swallowed(r.error) || r.error.TypeError?
  {
    var group :- FirstModuleGroup(json);
    match group
    case None => Ok(JStr(PublicReleases))
    case Some(g) =>
      if StartsWith(g, PrivateGroup) then Ok(JStr(PrivateReleases))
      else if StartsWith(g, BuildInfo.PublicGroup) then Ok(JStr(PublicReleases))
      else StatusRepository(json)
  }

  /**
   * The repository `create_and_upload_buildinfo` uploads to: private
   * releases for a "com.sonarsource" group, public releases for
   * "org.sonarsource", otherwise the first status's repository; a
   * swallowed exception leaves the public default. Only a `TypeError`
   * (an `in` test on a value that is not a container) escapes.
   */
  function UploadRepository(json: Json): (r: Result<Json>)
    ensures r.Err? ==> r.error.TypeError?
  {
    match UploadRepositoryAttempt(json)
    case Ok(repo) => Ok(repo)
    case Err(e) => if Swallowed(e) then Ok(JStr(PublicReleases)) else Err(e)
  }

  /** The group decides the repository whenever it names SonarSource. */
  lemma UploadRepositoryOfGroup(fields: seq<string>, rest: seq<(string, Json)>, more: seq<Json>)
    requires |fields| >= 2 && forall k :: 0 <= k < |fields| ==> ':' !in fields[k]
    ensures var json := WithModules([JObj([("id", JStr(Join(fields, ":")))] + rest)] + more);
            && (StartsWith(fields[0], PrivateGroup) ==> UploadRepository(json) == Ok(JStr(PrivateReleases)))
            && (StartsWith(fields[0], BuildInfo.PublicGroup) ==> UploadRepository(json) == Ok(JStr(PublicReleases)))
  {
    FirstModuleGroupOfId(fields, rest, more);
  }

  /** For any other group, a builds repository in the first status becomes its releases twin. */
  lemma UploadRepositoryFromStatus(json: Json, g: string, bi: seq<(string, Json)>, first: seq<(string, Json)>,
                                   others: seq<Json>, repo: string)
    requires FirstModuleGroup(json) == Ok(Some(g))
    requires !StartsWith(g, PrivateGroup) && !StartsWith(g, BuildInfo.PublicGroup)
    requires Index(json, "buildInfo") == Ok(JObj(bi))
    requires Lookup(bi, "statuses") == Some(JArr([JObj(first)] + others))
    requires Lookup(first, "repository") == Some(JStr(repo))
    ensures Contains(repo, "builds") ==> UploadRepository(json) == Ok(JStr(Replace(repo, "builds", "releases")))
    ensures !Contains(repo, "builds") && Contains(repo, "releases") ==> UploadRepository(json) == Ok(JStr(repo))
    ensures !Contains(repo, "builds") && !Contains(repo, "releases") ==> UploadRepository(json) == Ok(JStr(PublicReleases))
  {
    StatusRepositoryOf(json, bi, first, others, repo);
    assert UploadRepositoryAttempt(json) == StatusRepository(json);
  }

  /** The first status's repository, read from a document that has one. */
  lemma StatusRepositoryOf(json: Json, bi: seq<(string, Json)>, first: seq<(string, Json)>, others: seq<Json>, repo: string)
    requires Index(json, "buildInfo") == Ok(JObj(bi))
    requires Lookup(bi, "statuses") == Some(JArr([JObj(first)] + others))
    requires Lookup(first, "repository") == Some(JStr(repo))
    ensures StatusRepository(json)
         == Ok(if Contains(repo, "builds") then JStr(Replace(repo, "builds", "releases"))
               else if Contains(repo, "releases") then JStr(repo)
               else JStr(PublicReleases))
  {
    var statuses := JArr([JObj(first)] + others);
    assert GetOr(json, "buildInfo", JObj([])) == Ok(JObj(bi));
    assert Get(JObj(bi), "statuses") == Ok(statuses);
    assert Truthy(statuses);
    assert First(statuses) == Ok(JObj(first));
    assert GetOr(JObj(first), "repository", JStr(PublicReleases)) == Ok(JStr(repo));
  }

  // ---------------------------------------------------------------------
  // Promotion

  /**
   * The repositories a promotion moves between: private builds to private
   * releases for a "com.sonarsource" group, public otherwise; a swallowed
   * exception leaves the public pair.
   */
  function PromotionRepos(json: Json): (r: Result<(string, string)>)
    ensures r.Err? ==> r.error.TypeError?
    ensures r.Ok? ==> r.value in {(PublicBuilds, PublicReleases), (PrivateBuilds, PrivateReleases)}
  {
    match FirstModuleGroup(json)
    case Err(e) => if Swallowed(e) then Ok((PublicBuilds, PublicReleases)) else Err(e)
    case Ok(None) => Ok((PublicBuilds, PublicReleases))
    case Ok(Some(g)) =>
      if StartsWith(g, PrivateGroup) then Ok((PrivateBuilds, PrivateReleases)) else Ok((PublicBuilds, PublicReleases))
  }

  datatype Artifactory = Artifactory(url: string, headers: seq<(string, string)>)
  datatype Post = Post(url: string, headers: seq<(string, string)>, payload: Json)

  const DefaultArtifactoryUrl: string := "https://repox.jfrog.io/repox"
  const PromoteTokenMessage: string := "Artifactory client or ARTIFACTORY_ACCESS_TOKEN is required to promote build"

  function PromoteFailedMessage(status: int, text: string): string {
    "Failed to promote build: HTTP " + IntToString(status) + " - " + text
  }

  function PromotionPayload(repos: (string, string)): Json {
    JObj([("status", JStr("released")), ("sourceRepo", JStr(repos.0)), ("targetRepo", JStr(repos.1))])
  }

  /** Where and with which headers the request goes: the client's, or the environment's URL and token. */
  function Endpoint(client: Option<Artifactory>, envUrl: Option<string>, envToken: Option<string>): Result<Artifactory> {
    if client.Some? then Ok(client.value)
    else if envToken.None? || envToken.value == "" then Err(RuntimeError(PromoteTokenMessage))
    else
      var url := if envUrl.Some? then envUrl.value else DefaultArtifactoryUrl;
      Ok(Artifactory(url, [("Authorization", "Bearer " + envToken.value), ("Content-Type", "application/json")]))
  }

  /**
   * `promote_build_to_releases`: the requests sent and the outcome, given
   * the HTTP status and text the promotion request gets back.
   */
  function PromoteBuildToReleases(client: Option<Artifactory>, envUrl: Option<string>, envToken: Option<string>,
                                  project: string, buildNumber: string, json: Json, dryRun: bool,
                                  status: int, text: string): (r: (seq<Post>, Result<()>))
    ensures dryRun ==> r == ([], Ok(()))
    ensures |r.0| <= 1
    ensures r.0 != [] ==> PromotionRepos(json).Ok?
                          && r.0[0].payload == PromotionPayload(PromotionRepos(json).value)
                          && EndsWith(r.0[0].url, "/api/build/promote/" + project + "/" + buildNumber)
    ensures r.1.Ok? <==> dryRun || (r.0 != [] && status in {200, 201, 204})
  {
    if dryRun then ([], Ok(()))
    else
      match PromotionRepos(json)
      case Err(e) => ([], Err(e))
      case Ok(repos) =>
        match Endpoint(client, envUrl, envToken)
        case Err(e) => ([], Err(e))
        case Ok(endpoint) =>
          var route := "/api/build/promote/" + project + "/" + buildNumber;
          var url := endpoint.url + route;
          EndsWithAppended(endpoint.url, route);
          var post := Post(url, endpoint.headers, PromotionPayload(repos));
          if status in {200, 201, 204} then ([post], Ok(()))
          else ([post], Err(RuntimeError(PromoteFailedMessage(status, text))))
  }

  /** A private group is promoted from private builds to private releases; a public one between the public repositories. */
  lemma PromoteOfGroup(fields: seq<string>, rest: seq<(string, Json)>, more: seq<Json>, a: Artifactory,
                       project: string, buildNumber: string, status: int, text: string)
    requires |fields| >= 2 && forall k :: 0 <= k < |fields| ==> ':' !in fields[k]
    ensures var json := WithModules([JObj([("id", JStr(Join(fields, ":")))] + rest)] + more);
            var r := PromoteBuildToReleases(Some(a), None, None, project, buildNumber, json, false, status, text);
            && |r.0| == 1
            && r.0[0].url == a.url + ("/api/build/promote/" + project + "/" + buildNumber)
            && r.0[0].headers == a.headers
            && r.0[0].payload == PromotionPayload(if StartsWith(fields[0], PrivateGroup) then (PrivateBuilds, PrivateReleases)
                                                  else (PublicBuilds, PublicReleases))
  {
    FirstModuleGroupOfId(fields, rest, more);
  }

  // ---------------------------------------------------------------------
  // The version of the original build

  /** A text made of four non-empty digit runs separated by dots: `\d+\.\d+\.\d+\.\d+`. */
  predicate QuadVersion(seg: string) {
    && (forall i :: 0 <= i < |seg| ==> IsAsciiDigit(seg[i]) || seg[i] == '.')
    && |Split(seg, '.')| == 4
    && (forall k :: 0 <= k < |Split(seg, '.')| ==> Split(seg, '.')[k] != "")
  }

  /** The first '/' at or after `from`. */
  function NextSlash(s: string, from: nat): (r: Option<nat>)
    ensures r.Some? ==> from <= r.value < |s| && s[r.value] == '/' && forall m :: from <= m < r.value ==> s[m] != '/'
    ensures r.None? ==> forall m :: from <= m < |s| ==> s[m] != '/'
    decreases |s| - from
  {
    if from >= |s| then None
    else if s[from] == '/' then Some(from)
    else NextSlash(s, from + 1)
  }

  /**
   * `re.search(r'/(\d+\.\d+\.\d+\.\d+)/', s)` from position `i`: the
   * leftmost '/' whose text up to the next '/' is a four-part version.
   * A match can only end at that next '/', as digits and dots are not '/'.
   */
  function QuadSearch(s: string, i: nat): (r: Option<string>)
    ensures r.Some? ==> QuadVersion(r.value)
    decreases |s| - i
  {
    if i >= |s| then None
    else if s[i] == '/' && NextSlash(s, i + 1).Some? && QuadVersion(s[i + 1..NextSlash(s, i + 1).value]) then
      Some(s[i + 1..NextSlash(s, i + 1).value])
    else QuadSearch(s, i + 1)
  }

  /** Positions without '/' are passed over by the search. */
  lemma {:induction false} QuadSearchSkips(s: string, i: nat, j: nat)
    requires i <= j <= |s|
    requires forall m :: i <= m < j ==> s[m] != '/'
    ensures QuadSearch(s, i) == QuadSearch(s, j)
    decreases j - i
  {
    if i < j {
      QuadSearchSkips(s, i + 1, j);
    }
  }

  /** A four-part version between the first two slashes of a path is what the search finds. */
  lemma QuadSearchFinds(p: string, v: string, tail: string)
    requires '/' !in p && QuadVersion(v)
    ensures QuadSearch(p + "/" + v + "/" + tail, 0) == Some(v)
  {
    var s := p + "/" + v + "/" + tail;
    assert forall m :: 0 <= m < |p| ==> s[m] == p[m];
    QuadSearchSkips(s, 0, |p|);
    assert s[|p|] == '/';
    assert forall m :: |p| + 1 <= m < |p| + 1 + |v| ==> s[m] == v[m - |p| - 1];
    assert s[|p| + 1 + |v|] == '/';
    var k := NextSlash(s, |p| + 1);
    assert k == Some(|p| + 1 + |v|);
    assert s[|p| + 1..|p| + 1 + |v|] == v;
  }

  /** `[m.get('id', '') for m in modules]`, as the error message lists them. */
  function ModuleIds(modules: Json): Result<seq<Json>> {
    var items :- Iterate(modules);
    IdsOf(items)
  }

  function IdsOf(items: seq<Json>): (r: Result<seq<Json>>)
    ensures r.Ok? ==> |r.value| == |items|
    decreases |items|
  {
    if |items| == 0 then Ok([])
    else
      var id :- GetOr(items[0], "id", JStr(""));
      var rest :- IdsOf(items[1..]);
      Ok([id] + rest)
  }

  function OldVersionMessage(ids: seq<Json>): string {
    "Could not extract old version from buildinfo. Module IDs: " + PyRepr(JArr(ids))
  }

  /** Field 2 of the first module id when it has at least three fields, else "". */
  function IdVersion(modules: Json): Result<string> {
    if !Truthy(modules) then Ok("")
    else
      var id :- FirstId(modules);
      var fields :- IdFields(id);
      Ok(if fields.Some? && |fields.value| >= 3 then fields.value[2] else "")
  }

  /** The four-part version between slashes in the first artifact name of the first module, else "". */
  function PathVersion(modules: Json): Result<string> {
    if !Truthy(modules) then Ok("")
    else
      var first :- First(modules);
      var artifacts :- Get(first, "artifacts");
      if !Truthy(artifacts) then Ok("")
      else
        var artifact :- First(artifacts);
        var name :- GetOr(artifact, "name", JStr(""));
        if !name.JStr? then Err(TypeError("expected string or bytes-like object"))
        else Ok(match QuadSearch(name.s, 0) case Some(v) => v case None => "")
  }

  /**
   * The version of the original build, as `create_and_upload_buildinfo`
   * extracts it: the first module id's version field, failing that the
   * four-part version in the first artifact's path, failing that a
   * `RuntimeError` listing the module ids. It is never empty.
   */
  function OldVersion(json: Json): (r: Result<string>)
    ensures r.Ok? ==> r.value != ""
  {
    var modules :- Modules(json);
    var fromId :- IdVersion(modules);
    if fromId != "" then Ok(fromId)
    else
      var fromPath :- PathVersion(modules);
      if fromPath != "" then Ok(fromPath)
      else
        var ids :- ModuleIds(modules);
        Err(RuntimeError(OldVersionMessage(ids)))
  }

  /** A first module id with a non-empty third field gives that field. */
  lemma OldVersionIsThirdField(fields: seq<string>, rest: seq<(string, Json)>, more: seq<Json>)
    requires |fields| >= 3 && fields[2] != "" && forall k :: 0 <= k < |fields| ==> ':' !in fields[k]
    ensures OldVersion(WithModules([JObj([("id", JStr(Join(fields, ":")))] + rest)] + more)) == Ok(fields[2])
  {
    IdFieldsOfJoin(fields);
    OldVersionOfIdFields(JStr(Join(fields, ":")), fields, rest, more);
  }

  lemma OldVersionOfIdFields(id: Json, fields: seq<string>, rest: seq<(string, Json)>, more: seq<Json>)
    requires IdFields(id) == Ok(Some(fields)) && |fields| >= 3 && fields[2] != ""
    ensures OldVersion(WithModules([JObj([("id", id)] + rest)] + more)) == Ok(fields[2])
  {
    var modules := JArr([JObj([("id", id)] + rest)] + more);
    assert Modules(WithModules([JObj([("id", id)] + rest)] + more)) == Ok(modules);
    assert FirstId(modules) == Ok(id);
  }

  /** A first module id without ':' leaves the version to the first artifact's path. */
  lemma OldVersionFromPath(id: string, p: string, v: string, tail: string, more: seq<Json>, others: seq<Json>)
    requires ':' !in id && '/' !in p && QuadVersion(v)
    ensures var artifact := JObj([("name", JStr(p + "/" + v + "/" + tail))]);
            OldVersion(WithModules([JObj([("id", JStr(id)), ("artifacts", JArr([artifact] + others))])] + more)) == Ok(v)
  {
    var artifact := JObj([("name", JStr(p + "/" + v + "/" + tail))]);
    var m := JObj([("id", JStr(id)), ("artifacts", JArr([artifact] + others))]);
    var modules := JArr([m] + more);
    assert Modules(WithModules([m] + more)) == Ok(modules);
    assert FirstId(modules) == Ok(JStr(id));
    ContainsCharIff(id, ':');
    assert IdFields(JStr(id)) == Ok(None);
    assert IdVersion(modules) == Ok("");
    assert First(modules) == Ok(m);
    assert m.fields[1..] == [("artifacts", JArr([artifact] + others))];
    assert Keys(m.fields)[1] == "artifacts";
    assert Lookup(m.fields, "artifacts") == Lookup(m.fields[1..], "artifacts");
    assert Get(m, "artifacts") == Ok(JArr([artifact] + others));
    assert First(JArr([artifact] + others)) == Ok(artifact);
    QuadSearchFinds(p, v, tail);
    assert v != "" by {
      assert Split(v, '.')[0] != "";
      if v == "" { SplitNoSep("", '.'); }
    }
    assert PathVersion(modules) == Ok(v);
  }

  // ---------------------------------------------------------------------
  // Module ids with the new version

  /**
   * `_create_new_buildinfo` and `upload_to_binaries`: an id of at least
   * three ':' fields gets the new version as its last field.
   */
  function WithLastField(id: string, version: string): string {
    var parts := Split(id, ':');
    if |parts| >= 3 then Join(parts[..|parts| - 1] + [version], ":") else id
  }

  /** `_modify_exported_buildinfo`: an id of at least three fields gets the new version as its field 2. */
  function WithThirdField(id: string, version: string): string {
    var parts := Split(id, ':');
    if |parts| >= 3 then Join(parts[..2] + [version] + parts[3..], ":") else id
  }

  /** The last field is replaced and every other field is kept. */
  lemma LastFieldRewrite(id: string, version: string)
    requires ':' !in version
    ensures var parts := Split(id, ':');
            Split(WithLastField(id, version), ':') == if |parts| >= 3 then parts[..|parts| - 1] + [version] else parts
  {
    var parts := Split(id, ':');
    if |parts| >= 3 {
      var fields := parts[..|parts| - 1] + [version];
      assert forall k :: 0 <= k < |fields| ==> ':' !in fields[k] by {
        forall k | 0 <= k < |fields| ensures ':' !in fields[k] {
          if k < |parts| - 1 { assert fields[k] == parts[k]; }
        }
      }
      SplitJoin(fields, ':');
    }
  }

  /** Field 2 is replaced and every other field is kept. */
  lemma ThirdFieldRewrite(id: string, version: string)
    requires ':' !in version
    ensures var parts := Split(id, ':');
            Split(WithThirdField(id, version), ':') == if |parts| >= 3 then parts[..2] + [version] + parts[3..] else parts
  {
    var parts := Split(id, ':');
    if |parts| >= 3 {
      var fields := parts[..2] + [version] + parts[3..];
      assert forall k :: 0 <= k < |fields| ==> ':' !in fields[k] by {
        forall k | 0 <= k < |fields| ensures ':' !in fields[k] {
          if k < 2 { assert fields[k] == parts[k]; }
          else if k > 2 { assert fields[k] == parts[k]; }
        }
      }
      SplitJoin(fields, ':');
    }
  }

  /**
   * The two rewrites agree on `group:artifact:version` ids and disagree on
   * ids with a fourth field (a classifier): one replaces the classifier,
   * the other the version.
   */
  lemma IdRewritesAgreeOnlyOnThreeFields(g: string, a: string, v: string, c: string, version: string)
    requires ':' !in g && ':' !in a && ':' !in v && ':' !in c && ':' !in version
    ensures WithLastField(Join([g, a, v], ":"), version) == Join([g, a, version], ":")
    ensures WithThirdField(Join([g, a, v], ":"), version) == Join([g, a, version], ":")
    ensures WithLastField(Join([g, a, v, c], ":"), version) == Join([g, a, v, version], ":")
    ensures WithThirdField(Join([g, a, v, c], ":"), version) == Join([g, a, version, c], ":")
    ensures v != version ==> WithLastField(Join([g, a, v, c], ":"), version) != WithThirdField(Join([g, a, v, c], ":"), version)
  {
    SplitJoin([g, a, v], ':');
    SplitJoin([g, a, v, c], ':');
    assert [g, a, v][..2] + [version] + [g, a, v][3..] == [g, a, version];
    assert [g, a, v][..2] + [version] == [g, a, version];
    assert [g, a, v, c][..3] + [version] == [g, a, v, version];
    assert [g, a, v, c][..2] + [version] + [g, a, v, c][3..] == [g, a, version, c];
    if v != version {
      SplitJoin([g, a, v, version], ':');
      SplitJoin([g, a, version, c], ':');
    }
  }

  /**
   * `_modify_exported_buildinfo`: each exported module that has an
   * original at the same position takes the original's id with the new
   * version as field 2, when that id has at least three fields.
   */
  method RenameExportedModules(ids: array<string>, original: seq<string>, version: string)
    modifies ids
    ensures forall i :: 0 <= i < ids.Length ==>
              ids[i] == if i < |original| && |Split(original[i], ':')| >= 3 then WithThirdField(original[i], version)
                        else old(ids[i])
  {
    for i := 0 to ids.Length
      invariant forall k :: 0 <= k < i ==>
                  ids[k] == if k < |original| && |Split(original[k], ':')| >= 3 then WithThirdField(original[k], version)
                            else old(ids[k])
      invariant forall k :: i <= k < ids.Length ==> ids[k] == old(ids[k])
    {
      if i < |original| && |Split(original[i], ':')| >= 3 {
        ids[i] := WithThirdField(original[i], version);
      }
    }
  }

  // ---------------------------------------------------------------------
  // Rebuilding the build info by hand

  /** A file found under the local repository: its file name and checksums. */
  datatype LocalArtifact = LocalArtifact(name: string, sha1: string, md5: string, sha256: string)

  /** The local files, keyed by their path relative to the repository, in scan order. */
  type LocalFiles = seq<(string, LocalArtifact)>

  function LocalPaths(local: LocalFiles): (r: seq<string>)
    ensures |r| == |local| && forall i :: 0 <= i < |local| ==> r[i] == local[i].0
  {
    seq(|local|, i requires 0 <= i < |local| => local[i].0)
  }

  /** `local_artifacts[path]`: the file stored under `path`, if any. */
  function LocalAt(local: LocalFiles, path: string): (r: Option<LocalArtifact>)
    ensures r.Some? <==> path in LocalPaths(local)
    ensures r.Some? ==> (path, r.value) in local
    decreases |local|
  {
    if |local| == 0 then None
    else if local[0].0 == path then Some(local[0].1)
    else
      assert LocalPaths(local) == [local[0].0] + LocalPaths(local[1..]);
      LocalAt(local[1..], path)
  }

  /** The other spellings of a path tried in turn: dots and slashes stripped in front, "./" added, backslashes made slashes, and the file name. */
  function AltPaths(path: string): (r: seq<string>)
    ensures |r| == if '/' in path then 4 else 3
  {
    [LStripChars(path, {'.', '/'}), "./" + path, Replace(path, "\\", "/")]
      + (if '/' in path then [Basename(path)] else [])
  }

  /** The first candidate that is a local path. */
  function FirstKnown(candidates: seq<string>, local: LocalFiles): (r: Option<string>)
    ensures r.Some? ==> r.value in candidates && r.value in LocalPaths(local)
    decreases |candidates|
  {
    if |candidates| == 0 then None
    else if candidates[0] in LocalPaths(local) then Some(candidates[0])
    else FirstKnown(candidates[1..], local)
  }

  /** The first local file, in scan order, with the given file name. */
  function ByName(filename: string, local: LocalFiles): (r: Option<(string, LocalArtifact)>)
    ensures r.Some? ==> r.value in local && r.value.1.name == filename
    decreases |local|
  {
    if |local| == 0 then None
    else if local[0].1.name == filename then Some(local[0])
    else ByName(filename, local[1..])
  }

  /**
   * The local file of an artifact at `path` (the original path with the
   * new version), and the path it was found under: the exact path, then
   * each alternative spelling in order, then the first file with the same
   * file name.
   */
  function Locate(path: string, local: LocalFiles): (r: Option<(string, LocalArtifact)>)
    ensures r.Some? ==> r.value in local
  {
    match LocalAt(local, path)
    case Some(a) => Some((path, a))
    case None =>
      match FirstKnown(AltPaths(path), local)
      case Some(alt) => Some((alt, LocalAt(local, alt).value))
      case None => ByName(Basename(path), local)
  }

  /** The lookup order: an exact hit wins, and the name scan runs only when no spelling is a local path. */
  lemma LocateOrder(path: string, local: LocalFiles)
    ensures path in LocalPaths(local) ==> Locate(path, local).Some? && Locate(path, local).value.0 == path
    ensures path !in LocalPaths(local) && (exists k :: 0 <= k < |AltPaths(path)| && AltPaths(path)[k] in LocalPaths(local)) ==>
              Locate(path, local).Some? && Locate(path, local).value.0 in AltPaths(path)
    ensures path !in LocalPaths(local) && (forall k :: 0 <= k < |AltPaths(path)| ==> AltPaths(path)[k] !in LocalPaths(local)) ==>
              Locate(path, local) == ByName(Basename(path), local)
  {
    FirstKnownFinds(AltPaths(path), local);
  }

  /** Some candidate is local exactly when the first local candidate exists. */
  lemma {:induction false} FirstKnownFinds(candidates: seq<string>, local: LocalFiles)
    ensures FirstKnown(candidates, local).Some? <==> exists k :: 0 <= k < |candidates| && candidates[k] in LocalPaths(local)
    decreases |candidates|
  {
    if |candidates| > 0 {
      FirstKnownFinds(candidates[1..], local);
      if candidates[0] !in LocalPaths(local) {
        assert forall k :: 1 <= k < |candidates| ==> candidates[k] == candidates[1..][k - 1];
        if exists k :: 0 <= k < |candidates| && candidates[k] in LocalPaths(local) {
          var k :| 0 <= k < |candidates| && candidates[k] in LocalPaths(local);
          assert candidates[1..][k - 1] in LocalPaths(local);
        }
      }
    }
  }

  /** The lookup as `_create_new_buildinfo` runs it: a dict hit, then a loop over the spellings, then a loop over the files. */
  method LocateArtifact(path: string, local: LocalFiles) returns (found: Option<(string, LocalArtifact)>)
    ensures found == Locate(path, local)
  {
    var exact := LocalAt(local, path);
    if exact.Some? {
      return Some((path, exact.value));
    }
    var alts := AltPaths(path);
    var i := 0;
    while i < |alts|
      invariant 0 <= i <= |alts|
      invariant FirstKnown(alts, local) == FirstKnown(alts[i..], local)
    {
      assert alts[i..][1..] == alts[i + 1..];
      var hit := LocalAt(local, alts[i]);
      if hit.Some? {
        return Some((alts[i], hit.value));
      }
      i := i + 1;
    }
    var filename := Basename(path);
    var j := 0;
    while j < |local|
      invariant 0 <= j <= |local|
      invariant ByName(filename, local) == ByName(filename, local[j..])
    {
      assert local[j..][1..] == local[j + 1..];
      if local[j].1.name == filename {
        return Some(local[j]);
      }
      j := j + 1;
    }
    return None;
  }

  /** The original's "size" binding, kept when present. */
  function SizeField(fields: seq<(string, Json)>): seq<(string, Json)> {
    match Lookup(fields, "size")
    case Some(v) => [("size", v)]
    case None => []
  }

  /**
   * The artifact that replaces an original one: with a local file, its
   * file name, the original type, the local checksums and the original
   * size; without one, a copy of the original named by the new path.
   */
  function RebuiltArtifact(artifact: Json, oldVersion: string, version: string, local: LocalFiles): (r: Result<Json>)
    ensures r.Ok? ==> artifact.JObj? && r.value.JObj?
  {
    var name :- GetOr(artifact, "name", JStr(""));
    var kind := GetOr(artifact, "type", JStr("")).value;
    var origPath :- AsStr(name);
    var path := Replace(origPath, oldVersion, version);
    match Locate(path, local)
    case Some(hit) =>
      Ok(JObj([("name", JStr(Basename(hit.0))), ("type", kind), ("sha1", JStr(hit.1.sha1)),
               ("md5", JStr(hit.1.md5)), ("sha256", JStr(hit.1.sha256))] + SizeField(artifact.fields)))
    case None => Ok(JObj(Assign(artifact.fields, "name", JStr(path))))
  }

  /**
   * An artifact found locally is named by the file it was found as and
   * carries that file's checksums; one not found keeps every other field of
   * the original and is named by the path with the new version.
   */
  lemma RebuiltArtifactFields(fields: seq<(string, Json)>, origPath: string, oldVersion: string, version: string,
                              local: LocalFiles)
    requires Lookup(fields, "name") == Some(JStr(origPath))
    ensures var path := Replace(origPath, oldVersion, version);
            var r := RebuiltArtifact(JObj(fields), oldVersion, version, local);
            && r.Ok?
            && (Locate(path, local).Some? ==>
                  && Locate(path, local).value in local
                  && Lookup(r.value.fields, "name") == Some(JStr(Basename(Locate(path, local).value.0)))
                  && Lookup(r.value.fields, "sha1") == Some(JStr(Locate(path, local).value.1.sha1)))
            && (Locate(path, local).None? ==>
                  && Lookup(r.value.fields, "name") == Some(JStr(path))
                  && forall k :: k != "name" ==> Lookup(r.value.fields, k) == Lookup(fields, k))
  {
    var path := Replace(origPath, oldVersion, version);
    var kind := GetOr(JObj(fields), "type", JStr("")).value;
    assert GetOr(JObj(fields), "name", JStr("")) == Ok(JStr(origPath));
    match Locate(path, local)
    case Some(hit) =>
      var front := [("name", JStr(Basename(hit.0))), ("type", kind), ("sha1", JStr(hit.1.sha1)),
                    ("md5", JStr(hit.1.md5)), ("sha256", JStr(hit.1.sha256))];
      assert RebuiltArtifact(JObj(fields), oldVersion, version, local) == Ok(JObj(front + SizeField(fields)));
      assert Lookup(front, "name") == Some(JStr(Basename(hit.0)));
      assert Lookup(front[2..], "sha1") == Some(JStr(hit.1.sha1));
      assert Lookup(front[1..], "sha1") == Lookup(front[1..][1..], "sha1") by {
        assert front[1..][1..] == front[2..];
      }
      assert Lookup(front, "sha1") == Some(JStr(hit.1.sha1));
      LookupAppend(front, SizeField(fields), "name");
      LookupAppend(front, SizeField(fields), "sha1");
    case None =>
      assert RebuiltArtifact(JObj(fields), oldVersion, version, local) == Ok(JObj(Assign(fields, "name", JStr(path))));
  }

  /** The artifacts rebuilt one after the other; the first one that raises stops the rebuild. */
  function RebuiltArtifacts(orig: seq<Json>, oldVersion: string, version: string, local: LocalFiles): (r: Result<seq<Json>>)
    ensures r.Ok? ==> |r.value| == |orig|
    decreases |orig|
  {
    if |orig| == 0 then Ok([])
    else
      var init :- RebuiltArtifacts(orig[..|orig| - 1], oldVersion, version, local);
      var last :- RebuiltArtifact(orig[|orig| - 1], oldVersion, version, local);
      Ok(init + [last])
  }

  /** An exception while rebuilding a prefix is the exception of the whole rebuild. */
  lemma {:induction false} RebuiltArtifactsStops(orig: seq<Json>, n: nat, oldVersion: string, version: string, local: LocalFiles)
    requires n <= |orig|
    requires RebuiltArtifacts(orig[..n], oldVersion, version, local).Err?
    ensures RebuiltArtifacts(orig, oldVersion, version, local) == RebuiltArtifacts(orig[..n], oldVersion, version, local)
    decreases |orig| - n
  {
    if n < |orig| {
      assert orig[..n + 1][..n] == orig[..n];
      assert RebuiltArtifacts(orig[..n + 1], oldVersion, version, local).Err?;
      RebuiltArtifactsStops(orig, n + 1, oldVersion, version, local);
    } else {
      assert orig[..n] == orig;
    }
  }

  /**
   * The loop over a module's artifacts: one new artifact is appended per
   * original one, so the count check after the loop never raises.
   */
  method RebuildArtifacts(orig: seq<Json>, oldVersion: string, version: string, local: LocalFiles)
    returns (r: Result<seq<Json>>)
    ensures r == RebuiltArtifacts(orig, oldVersion, version, local)
    ensures r.Ok? ==> |r.value| == |orig|
  {
    var rebuilt: seq<Json> := [];
    for i := 0 to |orig|
      invariant RebuiltArtifacts(orig[..i], oldVersion, version, local) == Ok(rebuilt)
    {
      var artifact := orig[i];
      var name := GetOr(artifact, "name", JStr(""));
      var kind := GetOr(artifact, "type", JStr(""));
      assert orig[..i + 1][..i] == orig[..i];
      if name.Err? || kind.Err? || !name.value.JStr? {
        RebuiltArtifactsStops(orig, i + 1, oldVersion, version, local);
        return RebuiltArtifacts(orig[..i + 1], oldVersion, version, local);
      }
      var path := Replace(name.value.s, oldVersion, version);
      var found := LocateArtifact(path, local);
      var next: Json;
      if found.Some? {
        next := JObj([("name", JStr(Basename(found.value.0))), ("type", kind.value), ("sha1", JStr(found.value.1.sha1)),
                      ("md5", JStr(found.value.1.md5)), ("sha256", JStr(found.value.1.sha256))] + SizeField(artifact.fields));
      } else {
        next := JObj(Assign(artifact.fields, "name", JStr(path)));
      }
      assert RebuiltArtifact(artifact, oldVersion, version, local) == Ok(next);
      rebuilt := rebuilt + [next];
    }
    assert orig[..|orig|] == orig;
    return Ok(rebuilt);
  }

  /** A module of the original build: its id (when present) and its artifacts (when the key is present). */
  datatype Module = Module(id: Option<string>, artifacts: Option<seq<Json>>)

  /** One module of the rebuilt build info: the id with the new version last, the artifacts rebuilt. */
  function RebuiltModule(m: Module, oldVersion: string, version: string, local: LocalFiles): (r: Result<Module>)
    ensures r.Ok? ==> (r.value.artifacts.Some? <==> m.artifacts.Some?)
    ensures r.Ok? && m.artifacts.Some? ==> |r.value.artifacts.value| == |m.artifacts.value|
  {
    var id := if m.id.Some? then Some(WithLastField(m.id.value, version)) else None;
    if m.artifacts.None? then Ok(Module(id, None))
    else
      var artifacts :- RebuiltArtifacts(m.artifacts.value, oldVersion, version, local);
      Ok(Module(id, Some(artifacts)))
  }

  /** `_create_new_buildinfo`'s loop over the modules; the first one that raises stops it. */
  function RebuiltModules(modules: seq<Module>, oldVersion: string, version: string, local: LocalFiles): (r: Result<seq<Module>>)
    ensures r.Ok? ==> |r.value| == |modules|
    decreases |modules|
  {
    if |modules| == 0 then Ok([])
    else
      var init :- RebuiltModules(modules[..|modules| - 1], oldVersion, version, local);
      var last :- RebuiltModule(modules[|modules| - 1], oldVersion, version, local);
      Ok(init + [last])
  }

  /** Rebuilding keeps each module's position, its having artifacts, and their count. */
  lemma {:induction false} RebuiltModulesKeepShape(modules: seq<Module>, oldVersion: string, version: string, local: LocalFiles)
    requires RebuiltModules(modules, oldVersion, version, local).Ok?
    ensures var rebuilt := RebuiltModules(modules, oldVersion, version, local).value;
            forall i :: 0 <= i < |modules| ==>
              && (rebuilt[i].artifacts.Some? <==> modules[i].artifacts.Some?)
              && (modules[i].artifacts.Some? ==> |rebuilt[i].artifacts.value| == |modules[i].artifacts.value|)
    decreases |modules|
  {
    if |modules| > 0 {
      var n := |modules| - 1;
      RebuiltModulesKeepShape(modules[..n], oldVersion, version, local);
      var rebuilt := RebuiltModules(modules, oldVersion, version, local).value;
      assert rebuilt == RebuiltModules(modules[..n], oldVersion, version, local).value
                        + [RebuiltModule(modules[n], oldVersion, version, local).value];
    }
  }

  // ---------------------------------------------------------------------
  // Validation against the original

  /** What validation reads of a module: `get('id', 'unknown')` and the number of its artifacts. */
  datatype ModuleShape = ModuleShape(id: string, artifacts: nat)

  function ShapeOf(m: Module): ModuleShape {
    ModuleShape(if m.id.Some? then m.id.value else "unknown", if m.artifacts.Some? then |m.artifacts.value| else 0)
  }

  function Shapes(modules: seq<Module>): (r: seq<ModuleShape>)
    ensures |r| == |modules| && forall i :: 0 <= i < |modules| ==> r[i] == ShapeOf(modules[i])
  {
    seq(|modules|, i requires 0 <= i < |modules| => ShapeOf(modules[i]))
  }

  function ModuleCountMessage(expected: nat, found: nat): string {
    "Buildinfo validation failed: Expected " + IntToString(expected) + " modules, but new buildinfo has "
      + IntToString(found) + " modules. Not all artifacts were uploaded correctly."
  }

  function ArtifactCountMessage(i: nat, original: ModuleShape, created: ModuleShape): string {
    "Buildinfo validation failed: Module " + IntToString(i + 1) + " (" + original.id + ") has "
      + IntToString(original.artifacts) + " artifacts in original but " + IntToString(created.artifacts)
      + " in new buildinfo. Not all artifacts were uploaded."
  }

  /** Both builds have the same number of modules, and each module the same number of artifacts. */
  predicate SameShape(original: seq<ModuleShape>, created: seq<ModuleShape>) {
    |original| == |created| && forall i :: 0 <= i < |original| ==> original[i].artifacts == created[i].artifacts
  }

  /**
   * The validation after publishing: a `RuntimeError` when the module
   * counts differ, or naming the first module whose artifact count
   * differs; it passes exactly when the shapes agree.
   */
  method ValidateBuildInfo(original: seq<ModuleShape>, created: seq<ModuleShape>) returns (r: Result<()>)
    ensures r.Ok? <==> SameShape(original, created)
    ensures |original| != |created| ==> r == Err(RuntimeError(ModuleCountMessage(|original|, |created|)))
    ensures |original| == |created| && r.Err? ==>
              exists i :: 0 <= i < |original| && original[i].artifacts != created[i].artifacts
                          && (forall k :: 0 <= k < i ==> original[k].artifacts == created[k].artifacts)
                          && r == Err(RuntimeError(ArtifactCountMessage(i, original[i], created[i])))
  {
    if |original| != |created| {
      return Err(RuntimeError(ModuleCountMessage(|original|, |created|)));
    }
    for i := 0 to |original|
      invariant forall k :: 0 <= k < i ==> original[k].artifacts == created[k].artifacts
    {
      if original[i].artifacts != created[i].artifacts {
        return Err(RuntimeError(ArtifactCountMessage(i, original[i], created[i])));
      }
    }
    return Ok(());
  }

  /** A build info rebuilt by hand always has the original's shape, so its validation passes. */
  lemma RebuiltModulesHaveOriginalShape(modules: seq<Module>, oldVersion: string, version: string, local: LocalFiles)
    requires RebuiltModules(modules, oldVersion, version, local).Ok?
    ensures SameShape(Shapes(modules), Shapes(RebuiltModules(modules, oldVersion, version, local).value))
  {
    RebuiltModulesKeepShape(modules, oldVersion, version, local);
  }

  // ---------------------------------------------------------------------
  // Polling a Maven Central deployment

  const MaxAttempts: nat := 720
  const FinalStates: set<string> := {"VALIDATED", "PUBLISHING", "PUBLISHED"}

  /** One status check: the HTTP status, the deployment state read from the body, and the body. */
  datatype StatusReply = StatusReply(http: int, state: string, body: string)

  /** A check that ends the polling: a 2xx answer in a final state or "FAILED". */
  predicate Settles(reply: StatusReply) {
    200 <= reply.http < 300 && (reply.state in FinalStates || reply.state == "FAILED")
  }

  function FailedMessage(body: string): string {
    "❌ Deployment failed validation. Response: " + body
  }

  function TimeoutMessage(centralUrl: string, deploymentId: string): string {
    "❌ Timeout: Deployment did not reach a final state within 2.0 hours. Check deployment status manually using: "
      + centralUrl + "/api/v1/publisher/status?id=" + deploymentId
  }

  /**
   * `poll_maven_central_status`, given the reply to each attempt: it
   * returns at the first settling reply (the state, or a `RuntimeError` for
   * "FAILED"); other states and non-2xx answers lead to the next attempt;
   * after 720 attempts it raises the timeout. It sleeps between attempts
   * only, never after the last one.
   */
  method PollMavenCentralStatus(centralUrl: string, deploymentId: string, reply: nat -> StatusReply)
    returns (attempts: nat, sleeps: nat, r: Result<string>)
    ensures 1 <= attempts <= MaxAttempts && sleeps == attempts - 1
    ensures forall k :: 1 <= k < attempts ==> !Settles(reply(k))
    ensures Settles(reply(attempts)) && reply(attempts).state in FinalStates ==> r == Ok(reply(attempts).state)
    ensures Settles(reply(attempts)) && reply(attempts).state !in FinalStates ==> r == Err(RuntimeError(FailedMessage(reply(attempts).body)))
    ensures !Settles(reply(attempts)) ==> attempts == MaxAttempts && r == Err(RuntimeError(TimeoutMessage(centralUrl, deploymentId)))
  {
    var attempt := 1;
    sleeps := 0;
    while attempt <= MaxAttempts
      invariant 1 <= attempt <= MaxAttempts + 1
      invariant sleeps == if attempt <= MaxAttempts then attempt - 1 else MaxAttempts - 1
      invariant forall k :: 1 <= k < attempt ==> !Settles(reply(k))
    {
      var answer := reply(attempt);
      if 200 <= answer.http < 300 {
        if answer.state in FinalStates {
          return attempt, sleeps, Ok(answer.state);
        } else if answer.state == "FAILED" {
          return attempt, sleeps, Err(RuntimeError(FailedMessage(answer.body)));
        }
      }
      if attempt < MaxAttempts {
        sleeps := sleeps + 1;
      }
      attempt := attempt + 1;
    }
    return MaxAttempts, sleeps, Err(RuntimeError(TimeoutMessage(centralUrl, deploymentId)));
  }
}
