/**
 * The GitHub helper of the older action: accessors over the decoded event
 * of the workflow run, the upload address of a release asset, and the
 * revocation of a release, whose two HTTP requests are returned as a list.
 * The API base URL and the token are the constructor's arguments; the
 * event file is given already decoded.
 */
module LegacyGitHub {
  import opened Py
  import opened Json
  import GitHub

  datatype LegacyGitHub = LegacyGitHub(apiUrl: string, token: string, event: Json)

  /**
   * `release_info(version)`: the event's release; with a version, the
   * release only when its `tag_name` is that version, else `None`
   * (here `JNull`).
   */
  function ReleaseInfo(gh: LegacyGitHub, version: Option<string>): Result<Json> {
    var release :- Index(gh.event, "release");
    if version.None? then Ok(release)
    else
      var tag :- Get(release, "tag_name");
      if tag == JStr(version.value) then Ok(release) else Ok(JNull)
  }

  /** The release is returned exactly when its tag is the version asked for. */
  lemma ReleaseInfoMatchesTag(gh: LegacyGitHub, fields: seq<(string, Json)>, version: string)
    requires Index(gh.event, "release") == Ok(JObj(fields))
    ensures ReleaseInfo(gh, None) == Ok(JObj(fields))
    ensures ReleaseInfo(gh, Some(version)) == Ok(JObj(fields)) <==> Lookup(fields, "tag_name") == Some(JStr(version))
    ensures ReleaseInfo(gh, Some(version)) == Ok(JNull) <==> Lookup(fields, "tag_name") != Some(JStr(version))
  {
  }

  /** `repository_info`: the event's repository. */
  function RepositoryInfo(gh: LegacyGitHub): Result<Json> {
    Index(gh.event, "repository")
  }

  /** `repository_full_name`. */
  function RepositoryFullName(gh: LegacyGitHub): (r: Result<Json>)
    ensures r.Ok? <==> RepositoryInfo(gh).Ok? && Index(RepositoryInfo(gh).value, "full_name").Ok?
    ensures r.Ok? ==> r == Index(RepositoryInfo(gh).value, "full_name")
  {
    var repo :- RepositoryInfo(gh);
    Index(repo, "full_name")
  }

  /** `current_branch`: the release's `target_commitish`. */
  function CurrentBranch(gh: LegacyGitHub): (r: Result<Json>)
    ensures r.Ok? ==> Index(gh.event, "release").Ok?
                      && Index(Index(gh.event, "release").value, "target_commitish") == r
  {
    var release :- ReleaseInfo(gh, None);
    Index(release, "target_commitish")
  }

  /** The asset upload address: the release's `upload_url` with its template filled with the file name. */
  function UploadUrl(gh: LegacyGitHub, filename: string): Result<string> {
    var release :- ReleaseInfo(gh, None);
    var url :- Get(release, "upload_url");
    var s :- AsStr(url);
    Ok(Replace(s, "{?name,label}", "?name=" + filename))
  }

  /** An upload URL without a template is used as it is. */
  lemma UploadUrlWithoutTemplate(gh: LegacyGitHub, filename: string, url: string)
    requires Index(gh.event, "release").Ok? && Get(Index(gh.event, "release").value, "upload_url") == Ok(JStr(url))
    requires !Contains(url, "{?name,label}")
    ensures UploadUrl(gh, filename) == Ok(url)
  {
    ReplaceAbsent(url, "{?name,label}", "?name=" + filename);
  }

  /** The message Python gives when `str.replace` is handed a non-string. */
  function ReplaceArgMessage(v: Json): string {
    "replace() argument 2 must be str, not " + TypeName(v)
  }

  function TypeName(v: Json): string {
    match v
    case JNull => "NoneType"
    case JBool(_) => "bool"
    case JNum(_) => "int"
    case JStr(_) => "str"
    case JArr(_) => "list"
    case JObj(_) => "dict"
  }

  /**
   * The revocation as written: with a truthy release `id`, the release URL
   * is `releases_url` with "{/id}" replaced by the id itself, which raises
   * `TypeError` before any request when the id is not a string.
   */
  function RevokeReleaseAsWritten(gh: LegacyGitHub): (seq<GitHub.Request>, Result<()>) {
    RevokeWith(gh, true)
  }

  /**
   * `revoke_release` as evidently intended: "{/id}" is the URI template of
   * RFC 6570 section 3.2.6, which expands to "/" followed by the id.
   */
  function RevokeRelease(gh: LegacyGitHub): (seq<GitHub.Request>, Result<()>) {
    RevokeWith(gh, false)
  }

  /** What replaces "{/id}": the id itself as written, "/" and its text as intended. */
  function IdSegment(id: Json, asWritten: bool): Result<string> {
    if !asWritten then Ok("/" + PyStr(id))
    else if id.JStr? then Ok(id.s)
    else Err(TypeError(ReplaceArgMessage(id)))
  }

  /**
   * The steps of `revoke_release`, given how the id is put into the URL:
   * nothing without a truthy id; otherwise the release is made a draft
   * under its tag, then the tag reference is deleted.
   */
  function RevokeWith(gh: LegacyGitHub, asWritten: bool): (r: (seq<GitHub.Request>, Result<()>))
    ensures |r.0| <= 2
    ensures r.0 != [] ==> ReleaseInfo(gh, None).Ok? && Get(ReleaseInfo(gh, None).value, "id").Ok?
                          && Truthy(Get(ReleaseInfo(gh, None).value, "id").value)
  {
    match ReleaseInfo(gh, None)
    case Err(e) => ([], Err(e))
    case Ok(release) =>
      match Get(release, "id")
      case Err(e) => ([], Err(e))
      case Ok(id) =>
        if !Truthy(id) then ([], Ok(()))
        else
          match (Index(release, "tag_name"), RepositoryInfo(gh))
          case (Err(e), _) => ([], Err(e))
          case (_, Err(e)) => ([], Err(e))
          case (Ok(version), Ok(repo)) =>
            match Get(repo, "releases_url")
            case Err(e) => ([], Err(e))
            case Ok(releases) =>
              if !releases.JStr? then ([], Err(AttributeError("replace")))
              else
                match IdSegment(id, asWritten)
                case Err(e) => ([], Err(e))
                case Ok(text) =>
                  var auth := "token " + gh.token;
                  var patch := GitHub.Patch(JStr(Replace(releases.s, "{/id}", text)), auth, true, version);
                  match RepositoryFullName(gh)
                  case Err(e) => ([patch], Err(e))
                  case Ok(full) =>
                    var tagUrl := gh.apiUrl + "/repos/" + PyStr(full) + "/git/refs/tags/" + PyStr(version);
                    ([patch, GitHub.Delete(tagUrl, auth)], Ok(()))
  }

  /** Without a truthy release id nothing is requested, as written and as intended. */
  lemma RevokeWithoutId(gh: LegacyGitHub, release: Json)
    requires Index(gh.event, "release") == Ok(release)
    requires Get(release, "id").Ok? && !Truthy(Get(release, "id").value)
    ensures RevokeReleaseAsWritten(gh) == ([], Ok(()))
    ensures RevokeRelease(gh) == ([], Ok(()))
  {
  }

  /** As written, a numeric release id (the form GitHub sends) raises `TypeError` and nothing is requested. */
  lemma AsWrittenNumericIdRaises(gh: LegacyGitHub, release: seq<(string, Json)>, id: int, tag: Json,
                                 repo: seq<(string, Json)>, releasesUrl: string)
    requires Index(gh.event, "release") == Ok(JObj(release)) && id != 0
    requires Lookup(release, "id") == Some(JNum(id)) && Lookup(release, "tag_name") == Some(tag)
    requires Index(gh.event, "repository") == Ok(JObj(repo)) && Lookup(repo, "releases_url") == Some(JStr(releasesUrl))
    ensures RevokeReleaseAsWritten(gh) == ([], Err(TypeError(ReplaceArgMessage(JNum(id)))))
    ensures TypeName(JNum(id)) == "int"
  {
    assert IdSegment(JNum(id), true) == Err(TypeError(ReplaceArgMessage(JNum(id))));
  }

  /**
   * As intended, the same release is made a draft at its own address under
   * the releases URL, then its tag is deleted under the repository.
   */
  lemma RevokeDraftsThenDeletesTag(gh: LegacyGitHub, release: seq<(string, Json)>, id: Json, tag: Json,
                                   repo: seq<(string, Json)>, releasesUrl: string, full: Json)
    requires Index(gh.event, "release") == Ok(JObj(release)) && Truthy(id)
    requires Lookup(release, "id") == Some(id) && Lookup(release, "tag_name") == Some(tag)
    requires Index(gh.event, "repository") == Ok(JObj(repo)) && Lookup(repo, "releases_url") == Some(JStr(releasesUrl))
    requires Lookup(repo, "full_name") == Some(full)
    ensures var auth := "token " + gh.token;
            RevokeRelease(gh)
              == ([GitHub.Patch(JStr(Replace(releasesUrl, "{/id}", "/" + PyStr(id))), auth, true, tag),
                   GitHub.Delete(gh.apiUrl + "/repos/" + PyStr(full) + "/git/refs/tags/" + PyStr(tag), auth)],
                  Ok(()))
  {
  }
}
