/**
 * The script that restores artifacts missing from the binaries site: a
 * binaries URL names a distribution, an artifact and a file, the artifact
 * is found and downloaded from the repository manager, signed, and every
 * file is uploaded with its signature under the distribution's folder of
 * the S3 bucket. The repository manager's answers, the signing run and the
 * uploads that fail are parameters, as in the re-signing script whose
 * upload and URL-list vocabulary this module shares.
 */
module UploadMissingToBinaries {
  import opened Py
  import R = ResignBinariesJar

  function TooFewPartsMessage(url: string): string {
    "Invalid URL format: expected at least 3 path components in " + url
  }

  function NoVersionMessage(filename: string): string {
    "Could not extract version from filename: " + filename
  }

  /** Text of the form a + "/" + b + "/" + rest. */
  lemma SplitHeads(s: string)
    requires |Split(s, '/')| >= 3
    ensures var parts := Split(s, '/');
            StartsWith(s, parts[0] + "/" + parts[1] + "/")
  {
    var parts := Split(s, '/');
    JoinSplit(s, '/');
    var rest := Join(parts[2..], "/");
    assert parts[1..][1..] == parts[2..];
    assert Join(parts[1..], "/") == parts[1] + "/" + rest;
    assert s == parts[0] + "/" + (parts[1] + "/" + rest);
    AppendAssoc(parts[0] + "/", parts[1] + "/", rest);
    AppendAssoc(parts[0] + "/", parts[1], "/");
    assert s == (parts[0] + "/" + parts[1] + "/") + rest;
  }

  /**
   * `parse_binaries_url`: the URL path without leading slashes must have
   * at least three '/'-parts: the distribution, the artifact and the file
   * name. The version is the file name with every ".jar" removed and then
   * the first "{artifact}-" removed; it must not be empty. The result is
   * (distribution, artifact, version, key).
   */
  function ParseBinariesUrl(url: string, urlPath: string): (r: Result<(string, string, string, string)>)
    ensures r.Ok? ==> var (dist, artifact, version, key) := r.value;
                      EndsWith(urlPath, key) && |key| > 0 && key[0] != '/' && '/' !in dist && '/' !in artifact && version != ""
                      && StartsWith(key, dist + "/" + artifact + "/")
    ensures r.Err? ==> r.error in {ValueError(R.InvalidUrlMessage(url)), ValueError(TooFewPartsMessage(url))}
                       || (r.error.ValueError? && StartsWith(r.error.msg, "Could not extract version from filename: "))
  {
    var path := LStripChars(urlPath, {'/'});
    if path == "" then Err(ValueError(R.InvalidUrlMessage(url)))
    else
      var parts := Split(path, '/');
      if |parts| < 3 then Err(ValueError(TooFewPartsMessage(url)))
      else
        var filename := parts[2];
        var version := ReplaceFirst(Replace(filename, ".jar", ""), parts[1] + "-", "");
        if version == "" then Err(ValueError(NoVersionMessage(filename)))
        else
          SplitHeads(path);
          Ok((parts[0], parts[1], version, path))
  }

  /** `a + "/" + b + "/" + c` splits into exactly its three parts. */
  lemma SplitThree(a: string, b: string, c: string)
    requires '/' !in a && '/' !in b && '/' !in c
    ensures Split(a + "/" + b + "/" + c, '/') == [a, b, c]
  {
    AppendAssoc(a + "/" + b, "/", c);
    AppendAssoc(a + "/", b, "/" + c);
    AppendAssoc(a, "/", b + "/" + c);
    assert a + "/" + b + "/" + c == a + ['/'] + (b + ['/'] + c);
    SplitConcat(a, '/', b + ['/'] + c);
    SplitConcat(b, '/', c);
    SplitNoSep(c, '/');
  }

  /** Removing ".jar" from a file name whose only ".jar" is its ending, then the artifact prefix. */
  lemma VersionOfFileName(artifact: string, version: string)
    requires forall i :: 0 <= i < |artifact + "-" + version| ==> !OccursAt(artifact + "-" + version + ".jar", ".jar", i)
    ensures ReplaceFirst(Replace(artifact + "-" + version + ".jar", ".jar", ""), artifact + "-", "") == version
  {
    var stem := artifact + "-" + version;
    ReplaceOnlyAtEnd(stem, ".jar", "");
    assert stem + "" == stem;
    assert StartsWith(stem, artifact + "-");
    assert stem[|artifact + "-"|..] == version;
  }

  /**
   * The URL of a published file "{artifact}-{version}.jar" in the folder
   * of its distribution and artifact gives all four parts back.
   */
  lemma ParseBinariesUrlOf(url: string, dist: string, artifact: string, version: string)
    requires |dist| > 0 && '/' !in dist && '/' !in artifact && '/' !in version && version != ""
    requires forall i :: 0 <= i < |artifact + "-" + version| ==> !OccursAt(artifact + "-" + version + ".jar", ".jar", i)
    ensures var filename := artifact + "-" + version + ".jar";
            var key := dist + "/" + artifact + "/" + filename;
            ParseBinariesUrl(url, "/" + key) == Ok((dist, artifact, version, key))
  {
    var filename := artifact + "-" + version + ".jar";
    var key := dist + "/" + artifact + "/" + filename;
    assert '/' !in filename;
    assert LStripChars("/" + key, {'/'}) == key by {
      assert ("/" + key)[1..] == key;
    }
    SplitThree(dist, artifact, filename);
    VersionOfFileName(artifact, version);
  }

  /** A path without three parts is refused. */
  lemma ParseBinariesUrlTooShort(url: string, a: string, b: string)
    requires |a| > 0 && '/' !in a && '/' !in b
    ensures ParseBinariesUrl(url, "/" + a + "/" + b) == Err(ValueError(TooFewPartsMessage(url)))
  {
    var key := a + "/" + b;
    assert "/" + a + "/" + b == "/" + key;
    assert LStripChars("/" + key, {'/'}) == key by {
      assert ("/" + key)[1..] == key;
    }
    SplitConcat(a, '/', b);
    assert a + "/" + b == a + ['/'] + b;
    SplitNoSep(b, '/');
  }

  /** `extract_directory_from_path`: the path without its last '/'-segment. */
  function ExtractDirectory(path: string): string {
    var parts := Split(path, '/');
    Join(parts[..|parts| - 1], "/")
  }

  /** The directory of dir + "/" + file is dir, and a path without '/' has the empty directory. */
  lemma ExtractDirectoryOf(dir: string, file: string)
    requires '/' !in file
    ensures ExtractDirectory(dir + "/" + file) == dir
    ensures ExtractDirectory(file) == ""
  {
    assert dir + "/" + file == dir + ['/'] + file;
    SplitAppend(dir, '/', file);
    SplitNoSep(file, '/');
    var parts := Split(dir + "/" + file, '/');
    assert parts[..|parts| - 1] == Split(dir, '/');
    JoinSplit(dir, '/');
  }

  // ---------------------------------------------------------------------
  // The repository manager

  /** The answer of the search CLI: it failed, or it listed hits whose `path` is given ("" when missing). */
  datatype Search = SearchFailed(stderr: string) | Hits(paths: seq<string>)

  /** The folder the dry run pretends to have found an artifact in. */
  function DryRunFolder(artifact: string, version: string): string {
    "sonarsource/path/to/" + artifact + "/" + version
  }

  /** The file name of a published artifact. */
  function JarName(artifact: string, version: string): string {
    artifact + "-" + version + ".jar"
  }

  /**
   * `search_artifact_in_repox`: in a dry run the placeholder path, else
   * the first hit's path; no hit, an empty path or a failing CLI raise
   * `ValueError`.
   */
  function SearchArtifact(artifact: string, version: string, dryRun: bool, search: Search): (r: Result<string>)
    ensures dryRun ==> r == Ok(DryRunFolder(artifact, version) + "/" + JarName(artifact, version))
    ensures !dryRun && r.Ok? ==> search.Hits? && |search.paths| > 0 && r.value == search.paths[0] && r.value != ""
  {
    if dryRun then Ok(DryRunFolder(artifact, version) + "/" + JarName(artifact, version))
    else
      match search
      case SearchFailed(stderr) => Err(ValueError("Error searching Repox: " + stderr))
      case Hits(paths) =>
        if paths == [] then Err(ValueError("Artifact not found in Repox: " + JarName(artifact, version)))
        else if paths[0] == "" then Err(ValueError("Invalid search result for " + JarName(artifact, version)))
        else Ok(paths[0])
  }

  /** In a dry run the artifact's folder is the placeholder folder named after it. */
  lemma DryRunFolderOfSearch(artifact: string, version: string, search: Search)
    requires '/' !in artifact && '/' !in version
    ensures ExtractDirectory(SearchArtifact(artifact, version, true, search).value) == DryRunFolder(artifact, version)
  {
    ExtractDirectoryOf(DryRunFolder(artifact, version), JarName(artifact, version));
  }

  /** What the download CLI did: failed, or left these files in the temporary directory. */
  datatype Download = DownloadFailed | Walked(files: seq<string>)

  /** The files that are not signatures, in order. */
  function Unsigned(files: seq<string>): (r: seq<string>)
    ensures |r| <= |files|
    ensures forall i :: 0 <= i < |r| ==> !EndsWith(r[i], ".asc")
    decreases |files|
  {
    if files == [] then []
    else
      var n := |files| - 1;
      Unsigned(files[..n]) + (if EndsWith(files[n], ".asc") then [] else [files[n]])
  }

  /** A file is kept exactly when it was downloaded and is not a signature. */
  lemma {:induction false} UnsignedIff(files: seq<string>, f: string)
    ensures f in Unsigned(files) <==> f in files && !EndsWith(f, ".asc")
    decreases |files|
  {
    if files != [] {
      var n := |files| - 1;
      UnsignedIff(files[..n], f);
      assert files == files[..n] + [files[n]];
    }
  }

  /** `download_from_repo`: nothing in a dry run or when the CLI fails, else the downloaded files that are not signatures. */
  method DownloadFromRepo(dryRun: bool, download: Download) returns (files: seq<string>)
    ensures files == if dryRun || download.DownloadFailed? then [] else Unsigned(download.files)
  {
    if dryRun || download.DownloadFailed? {
      return [];
    }
    var walked := download.files;
    files := [];
    for n := 0 to |walked|
      invariant files == Unsigned(walked[..n])
    {
      assert walked[..n + 1][..n] == walked[..n];
      if !EndsWith(walked[n], ".asc") {
        files := files + [walked[n]];
      }
    }
    assert walked[..|walked|] == walked;
  }

  // ---------------------------------------------------------------------
  // One URL

  /**
   * The uploads for one downloaded file: the file under
   * "{distribution}/{artifact}/{basename}", then its signature under the
   * same key plus ".asc" when the signature exists.
   */
  function FileUploads(local: string, dist: string, artifact: string, signed: set<string>,
                       bucketName: string, aws: R.Aws): (r: seq<R.Upload>)
    ensures 1 <= |r| <= 2 && r[0].key == dist + "/" + artifact + "/" + Basename(local) && r[0].local == local
    ensures |r| == 2 <==> local in signed
    ensures |r| == 2 ==> r[1].key == R.SignatureKey(r[0].key) && r[1].local == local + ".asc"
    ensures forall u :: u in r ==> u.bucket == bucketName && u.credentials == R.SessionCredentials(aws)
  {
    var key := dist + "/" + artifact + "/" + Basename(local);
    var creds := R.SessionCredentials(aws);
    [R.Upload(local, bucketName, key, aws.region, creds)]
    + (if local in signed then [R.Upload(local + ".asc", bucketName, R.SignatureKey(key), aws.region, creds)] else [])
  }

  /** The uploads for all downloaded files, file by file. */
  function AllUploads(files: seq<string>, dist: string, artifact: string, signed: set<string>,
                      bucketName: string, aws: R.Aws): (r: seq<R.Upload>)
    ensures |files| <= |r| <= 2 * |files|
    decreases |files|
  {
    if files == [] then []
    else
      var n := |files| - 1;
      AllUploads(files[..n], dist, artifact, signed, bucketName, aws) + FileUploads(files[n], dist, artifact, signed, bucketName, aws)
  }

  /** Every upload goes under the artifact's folder of its distribution. */
  lemma {:induction false} AllUploadsUnderArtifact(files: seq<string>, dist: string, artifact: string, signed: set<string>,
                                                  bucketName: string, aws: R.Aws)
    ensures forall u :: u in AllUploads(files, dist, artifact, signed, bucketName, aws) ==>
              u.bucket == bucketName && StartsWith(u.key, dist + "/" + artifact + "/")
    decreases |files|
  {
    if files != [] {
      var n := |files| - 1;
      AllUploadsUnderArtifact(files[..n], dist, artifact, signed, bucketName, aws);
      var one := FileUploads(files[n], dist, artifact, signed, bucketName, aws);
      assert StartsWith(one[0].key, dist + "/" + artifact + "/");
      if |one| == 2 {
        assert StartsWith(one[1].key, one[0].key);
      }
    }
  }

  /**
   * `process_url` as a value: the uploads made and the verdict. False
   * when the URL does not parse, when the search raises, when nothing was
   * downloaded, and on any exception of the signing or an upload. A dry
   * run stops after the search and succeeds.
   */
  function ProcessUrlOutcome(url: string, urlPath: string, search: Search, download: Download, signing: R.Signing,
                             bucketName: string, aws: R.Aws, dryRun: bool, rejected: set<string>): (r: (seq<R.Upload>, bool))
  {
    match ParseBinariesUrl(url, urlPath)
    case Err(_) => ([], false)
    case Ok((dist, artifact, version, _)) =>
      if SearchArtifact(artifact, version, dryRun, search).Err? then ([], false)
      else if dryRun then ([], true)
      else
        var files := if download.DownloadFailed? then [] else Unsigned(download.files);
        if files == [] || signing.error.Some? then ([], false)
        else R.IssueUploads(AllUploads(files, dist, artifact, signing.signed, bucketName, aws), rejected)
  }

  /** The uploads of two runs of files are those of the first, then those of the second. */
  lemma {:induction false} AllUploadsAppend(a: seq<string>, b: seq<string>, dist: string, artifact: string,
                                            signed: set<string>, bucketName: string, aws: R.Aws)
    ensures AllUploads(a + b, dist, artifact, signed, bucketName, aws)
            == AllUploads(a, dist, artifact, signed, bucketName, aws) + AllUploads(b, dist, artifact, signed, bucketName, aws)
    decreases |b|
  {
    if b == [] {
      assert a + b == a;
    } else {
      var n := |b| - 1;
      var ab := a + b;
      AllUploadsAppend(a, b[..n], dist, artifact, signed, bucketName, aws);
      assert ab[..|ab| - 1] == a + b[..n];
      assert ab[|ab| - 1] == b[n];
      AllUploadsStep(ab, dist, artifact, signed, bucketName, aws);
      AllUploadsStep(b, dist, artifact, signed, bucketName, aws);
      UploadsAssoc(AllUploads(a, dist, artifact, signed, bucketName, aws),
                   AllUploads(b[..n], dist, artifact, signed, bucketName, aws),
                   FileUploads(b[n], dist, artifact, signed, bucketName, aws));
    }
  }

  lemma AllUploadsStep(files: seq<string>, dist: string, artifact: string, signed: set<string>,
                       bucketName: string, aws: R.Aws)
    requires files != []
    ensures AllUploads(files, dist, artifact, signed, bucketName, aws)
         == AllUploads(files[..|files| - 1], dist, artifact, signed, bucketName, aws)
            + FileUploads(files[|files| - 1], dist, artifact, signed, bucketName, aws)
  {
  }

  lemma UploadsAssoc(x: seq<R.Upload>, y: seq<R.Upload>, z: seq<R.Upload>)
    ensures x + y + z == x + (y + z)
  {
  }

  /** Once the uploads of the first files stop at a rejected one, the later files change nothing. */
  lemma StopsInFile(files: seq<string>, n: int, dist: string, artifact: string, signed: set<string>,
                    bucketName: string, aws: R.Aws, rejected: set<string>)
    requires 0 <= n < |files|
    requires !R.IssueUploads(AllUploads(files[..n + 1], dist, artifact, signed, bucketName, aws), rejected).1
    ensures R.IssueUploads(AllUploads(files, dist, artifact, signed, bucketName, aws), rejected)
            == R.IssueUploads(AllUploads(files[..n + 1], dist, artifact, signed, bucketName, aws), rejected)
  {
    assert files == files[..n + 1] + files[n + 1..];
    AllUploadsAppend(files[..n + 1], files[n + 1..], dist, artifact, signed, bucketName, aws);
    R.IssueUploadsAppend(AllUploads(files[..n + 1], dist, artifact, signed, bucketName, aws),
                         AllUploads(files[n + 1..], dist, artifact, signed, bucketName, aws), rejected);
  }

  /**
   * The loop of `process_url` over the downloaded files: each file and
   * then, when it exists, its signature is uploaded; an upload that raises
   * ends the processing as a failure.
   */
  method UploadFiles(files: seq<string>, dist: string, artifact: string, signed: set<string>,
                     bucketName: string, aws: R.Aws, rejected: set<string>) returns (uploads: seq<R.Upload>, ok: bool)
    ensures (uploads, ok) == R.IssueUploads(AllUploads(files, dist, artifact, signed, bucketName, aws), rejected)
  {
    uploads := [];
    for n := 0 to |files|
      invariant uploads == AllUploads(files[..n], dist, artifact, signed, bucketName, aws)
      invariant R.IssueUploads(uploads, rejected) == (uploads, true)
    {
      assert files[..n + 1][..n] == files[..n];
      var step := FileUploads(files[n], dist, artifact, signed, bucketName, aws);
      ghost var before := uploads;
      R.IssueUploadsAppend(before, step, rejected);
      assert AllUploads(files[..n + 1], dist, artifact, signed, bucketName, aws) == before + step;
      if step[0].key in rejected {
        uploads, ok := uploads + [step[0]], false;
        assert R.IssueUploads(step, rejected) == ([step[0]], false);
        StopsInFile(files, n, dist, artifact, signed, bucketName, aws, rejected);
        return;
      }
      uploads := uploads + [step[0]];
      if |step| == 2 {
        if step[1].key in rejected {
          uploads, ok := uploads + [step[1]], false;
          assert step == [step[0], step[1]];
          R.IssueTwoUploads(step[0], step[1], rejected);
          assert uploads == before + [step[0], step[1]];
          StopsInFile(files, n, dist, artifact, signed, bucketName, aws, rejected);
          return;
        }
        uploads := uploads + [step[1]];
        assert step == [step[0], step[1]];
        R.IssueTwoUploads(step[0], step[1], rejected);
      } else {
        assert R.IssueUploads(step, rejected) == ([step[0]], true);
        assert step == [step[0]];
      }
    }
    assert files[..|files|] == files;
    ok := true;
  }

  /**
   * `process_url`: parse, search, stop in a dry run, download, sign, then
   * upload file by file.
   */
  method ProcessUrl(url: string, urlPath: string, search: Search, download: Download, signing: R.Signing,
                    bucketName: string, aws: R.Aws, dryRun: bool, rejected: set<string>)
    returns (uploads: seq<R.Upload>, ok: bool)
    ensures (uploads, ok) == ProcessUrlOutcome(url, urlPath, search, download, signing, bucketName, aws, dryRun, rejected)
  {
    var parsed := ParseBinariesUrl(url, urlPath);
    if parsed.Err? {
      return [], false;
    }
    var (dist, artifact, version, _) := parsed.value;
    var found := SearchArtifact(artifact, version, dryRun, search);
    if found.Err? {
      return [], false;
    }
    if dryRun {
      return [], true;
    }
    var files := DownloadFromRepo(dryRun, download);
    if files == [] || signing.error.Some? {
      return [], false;
    }
    uploads, ok := UploadFiles(files, dist, artifact, signing.signed, bucketName, aws, rejected);
  }

  /** A dry run uploads nothing; without downloaded files the URL fails and nothing is uploaded. */
  lemma ProcessUrlWithoutFiles(url: string, urlPath: string, search: Search, download: Download, signing: R.Signing,
                               bucketName: string, aws: R.Aws, dryRun: bool, rejected: set<string>)
    ensures dryRun ==> ProcessUrlOutcome(url, urlPath, search, download, signing, bucketName, aws, dryRun, rejected).0 == []
    ensures download.DownloadFailed? || Unsigned(download.files) == [] ==>
              !ProcessUrlOutcome(url, urlPath, search, download, signing, bucketName, aws, false, rejected).1
              && ProcessUrlOutcome(url, urlPath, search, download, signing, bucketName, aws, false, rejected).0 == []
  {
  }

  /**
   * Every upload of a URL lands in the bucket under the folder of its
   * distribution and artifact, and a success means no upload was refused.
   */
  lemma ProcessUrlUploadsUnderArtifact(url: string, urlPath: string, search: Search, download: Download, signing: R.Signing,
                                       bucketName: string, aws: R.Aws, dryRun: bool, rejected: set<string>)
    requires ParseBinariesUrl(url, urlPath).Ok?
    ensures var (dist, artifact, _, _) := ParseBinariesUrl(url, urlPath).value;
            var (uploads, ok) := ProcessUrlOutcome(url, urlPath, search, download, signing, bucketName, aws, dryRun, rejected);
            (forall u :: u in uploads ==> u.bucket == bucketName && StartsWith(u.key, dist + "/" + artifact + "/"))
            && (ok ==> forall u :: u in uploads ==> u.key !in rejected)
  {
    var (dist, artifact, version, _) := ParseBinariesUrl(url, urlPath).value;
    var outcome := ProcessUrlOutcome(url, urlPath, search, download, signing, bucketName, aws, dryRun, rejected);
    var files := if download.DownloadFailed? then [] else Unsigned(download.files);
    if SearchArtifact(artifact, version, dryRun, search).Err? || dryRun || files == [] || signing.error.Some? {
      assert outcome.0 == [];
    } else {
      var planned := AllUploads(files, dist, artifact, signing.signed, bucketName, aws);
      assert outcome == R.IssueUploads(planned, rejected);
      AllUploadsUnderArtifact(files, dist, artifact, signing.signed, bucketName, aws);
      IssuedUnder(planned, rejected, bucketName, dist + "/" + artifact + "/");
    }
  }

  /** The uploads attempted are among those planned, and none of them was rejected when all went through. */
  lemma IssuedUnder(planned: seq<R.Upload>, rejected: set<string>, bucketName: string, prefix: string)
    requires forall u :: u in planned ==> u.bucket == bucketName && StartsWith(u.key, prefix)
    ensures var (uploads, ok) := R.IssueUploads(planned, rejected);
            (forall u :: u in uploads ==> u.bucket == bucketName && StartsWith(u.key, prefix))
            && (ok ==> forall u :: u in uploads ==> u.key !in rejected)
  {
    var (uploads, ok) := R.IssueUploads(planned, rejected);
    assert uploads == planned[..|uploads|];
    forall u | u in uploads ensures u in planned {
      var k :| 0 <= k < |uploads| && uploads[k] == u;
      assert planned[k] == u;
    }
    R.IssueUploadsStops(planned, rejected);
  }

  // ---------------------------------------------------------------------
  // The list of URLs

  /** A list marker at the start of a line. */
  const Markers: set<char> := {'-', '*', '•'}

  /** `re.sub(r'^[-*•]\s*', '', line)`: one leading marker and the whitespace after it. */
  function DropMarker(line: string): (r: string)
    ensures |r| <= |line|
  {
    if |line| > 0 && line[0] in Markers then LStripChars(line[1..], Whitespace) else line
  }

  /** The URL a stripped line gives, if any: not empty, not a comment, and starting with "http" once unmarked. */
  function UrlOfLine(stripped: string): (r: Option<string>)
    ensures r.Some? ==> StartsWith(r.value, "http") && R.IsUrlLine(stripped)
  {
    if !R.IsUrlLine(stripped) then None
    else
      var url := Strip(DropMarker(stripped));
      if StartsWith(url, "http") then Some(url) else None
  }

  /** The values present among optional texts, in order. */
  function Present(found: seq<Option<string>>): (r: seq<string>)
    ensures |r| <= |found|
    decreases |found|
  {
    if found == [] then []
    else
      var n := |found| - 1;
      Present(found[..n]) + (if found[n].Some? then [found[n].value] else [])
  }

  /** A text is present exactly when it is among the optional texts. */
  lemma {:induction false} PresentIff(found: seq<Option<string>>, url: string)
    ensures url in Present(found) <==> Some(url) in found
    decreases |found|
  {
    if found != [] {
      var n := |found| - 1;
      PresentIff(found[..n], url);
      assert found == found[..n] + [found[n]];
    }
  }

  /** What each stripped line gives. */
  function LineUrls(stripped: seq<string>): seq<Option<string>>
  {
    seq(|stripped|, i requires 0 <= i < |stripped| => UrlOfLine(stripped[i]))
  }

  lemma LineUrlsAt(stripped: seq<string>)
    ensures |LineUrls(stripped)| == |stripped|
    ensures forall i :: 0 <= i < |stripped| ==> LineUrls(stripped)[i] == UrlOfLine(stripped[i])
  {
  }

  lemma PresentStep(found: seq<Option<string>>, n: int)
    requires 0 <= n < |found|
    ensures Present(found[..n + 1]) == Present(found[..n]) + (if found[n].Some? then [found[n].value] else [])
  {
    assert found[..n + 1][..n] == found[..n];
  }

  /** The URLs of stripped lines, in order. */
  function UrlsOfLines(stripped: seq<string>): (r: seq<string>)
    ensures |r| <= |stripped|
  {
    Present(LineUrls(stripped))
  }

  /** A URL is listed exactly when some stripped line gives it; so every listed URL starts with "http". */
  lemma UrlsOfLinesIff(stripped: seq<string>, url: string)
    ensures url in UrlsOfLines(stripped) <==> exists i :: 0 <= i < |stripped| && UrlOfLine(stripped[i]) == Some(url)
    ensures url in UrlsOfLines(stripped) ==> StartsWith(url, "http")
  {
    var found := LineUrls(stripped);
    LineUrlsAt(stripped);
    PresentIff(found, url);
    if Some(url) in found {
      var i :| 0 <= i < |found| && found[i] == Some(url);
      assert UrlOfLine(stripped[i]) == found[i];
    }
  }

  /** A bulleted line "- https://…" (any marker, any spaces) gives the URL after the bullet. */
  lemma BulletedLine(marker: char, spaces: string, url: string)
    requires marker in Markers
    requires forall i :: 0 <= i < |spaces| ==> spaces[i] in Whitespace
    requires StartsWith(url, "http") && url[|url| - 1] !in Whitespace
    ensures UrlOfLine(Strip([marker] + spaces + url)) == Some(url)
  {
    var line := [marker] + spaces + url;
    assert url[0] == 'h' by { assert url[..4][0] == 'h'; }
    assert line[0] == marker && line[|line| - 1] == url[|url| - 1];
    StripUnchanged(line);
    assert R.IsUrlLine(line) by { assert line[..1][0] != '#'; }
    assert line[1..] == spaces + url;
    LStripPrefix(spaces, url, Whitespace);
    assert DropMarker(line) == url;
    StripUnchanged(url);
    assert Strip(DropMarker(line)) == url;
  }

  /** `read_urls_from_file` over the lines of the file. */
  method ReadUrlsFromFile(lines: seq<string>) returns (urls: seq<string>)
    ensures urls == UrlsOfLines(R.StrippedLines(lines))
  {
    ghost var found := LineUrls(R.StrippedLines(lines));
    LineUrlsAt(R.StrippedLines(lines));
    urls := [];
    for n := 0 to |lines|
      invariant urls == Present(found[..n])
    {
      var line := Strip(lines[n]);
      PresentStep(found, n);
      assert found[n] == UrlOfLine(line);
      if line == "" || StartsWith(line, "#") {
        assert found[n] == None;
        continue;
      }
      line := Strip(DropMarker(line));
      if StartsWith(line, "http") {
        assert found[n] == Some(line);
        urls := urls + [line];
      } else {
        assert found[n] == None;
      }
    }
    assert found[..|lines|] == found;
  }
}
