/**
 * The script that re-signs JAR files already published on the binaries
 * site: each JAR URL is mapped to its bucket key, the JAR and its two
 * CycloneDX SBOMs are downloaded, everything downloaded is signed, and
 * only the `.asc` signatures are uploaded to the S3 bucket. HTTP answers,
 * the signing run and the uploads that fail are parameters; the parsed
 * path of the URL is given alongside the URL.
 */
module ResignBinariesJar {
  import opened Py

  function InvalidUrlMessage(url: string): string {
    "Invalid URL: could not extract path from " + url
  }

  function NotJarMessage(url: string): string {
    "URL does not point to a JAR file: " + url
  }

  /**
   * `parse_jar_url`: the bucket key is the URL's path without its leading
   * slashes, and the file name is the key's last segment, which must end
   * in ".jar". `urlPath` is the path `urlparse` finds in `url`.
   */
  function ParseJarUrl(url: string, urlPath: string): (r: Result<(string, string)>)
    ensures r.Ok? ==> var (key, filename) := r.value;
                      |key| > 0 && key[0] != '/' && EndsWith(urlPath, key)
                      && '/' !in filename && EndsWith(key, filename) && EndsWith(filename, ".jar")
    ensures r.Err? ==> r.error == ValueError(InvalidUrlMessage(url)) || r.error == ValueError(NotJarMessage(url))
  {
    var path := LStripChars(urlPath, {'/'});
    if path == "" then Err(ValueError(InvalidUrlMessage(url)))
    else
      var filename := Basename(path);
      if !EndsWith(filename, ".jar") then Err(ValueError(NotJarMessage(url)))
      else Ok((path, filename))
  }

  /**
   * A URL whose path is "/" + directory + "/" + name gives the bucket key
   * directory + "/" + name and the file name back, exactly when the name
   * ends in ".jar"; otherwise the URL is refused as not a JAR.
   */
  lemma ParseJarUrlOf(url: string, dir: string, name: string)
    requires |dir| > 0 && dir[0] != '/' && '/' !in name
    ensures EndsWith(name, ".jar") ==> ParseJarUrl(url, "/" + dir + "/" + name) == Ok((dir + "/" + name, name))
    ensures !EndsWith(name, ".jar") ==> ParseJarUrl(url, "/" + dir + "/" + name) == Err(ValueError(NotJarMessage(url)))
  {
    var key := dir + "/" + name;
    assert "/" + dir + "/" + name == "/" + key;
    assert LStripChars("/" + key, {'/'}) == key by {
      assert ("/" + key)[1..] == key;
    }
    LastPieceAfterSeparator(dir, '/', name);
  }

  /** A path made only of slashes, or no path at all, is refused as an invalid URL. */
  lemma ParseJarUrlWithoutPath(url: string, urlPath: string)
    requires forall i :: 0 <= i < |urlPath| ==> urlPath[i] == '/'
    ensures ParseJarUrl(url, urlPath) == Err(ValueError(InvalidUrlMessage(url)))
  {
  }

  /** `get_sbom_urls`: every ".jar" of the URL becomes "-cyclonedx.json", resp. "-cyclonedx.xml". */
  function SbomUrls(jarUrl: string): (string, string) {
    (Replace(jarUrl, ".jar", "-cyclonedx.json"), Replace(jarUrl, ".jar", "-cyclonedx.xml"))
  }

  /** A URL whose only ".jar" is its ending has its SBOMs beside it, under the same stem. */
  lemma SbomUrlsOfStem(stem: string)
    requires forall i :: 0 <= i < |stem| ==> !OccursAt(stem + ".jar", ".jar", i)
    ensures SbomUrls(stem + ".jar") == (stem + "-cyclonedx.json", stem + "-cyclonedx.xml")
  {
    ReplaceOnlyAtEnd(stem, ".jar", "-cyclonedx.json");
    ReplaceOnlyAtEnd(stem, ".jar", "-cyclonedx.xml");
  }

  // ---------------------------------------------------------------------
  // Downloading

  /**
   * What one `requests.get` gives: an answer with its status code, or a
   * request exception, with the status of the response it carries if any.
   */
  datatype Fetch = Answered(status: int) | Failed(error: Error, response: Option<int>)

  /** A status that means "absent" to the script: not found, or forbidden. */
  predicate Absent(status: int) {
    status == 404 || status == 403
  }

  /** The exception `raise_for_status` raises for a 4xx or 5xx answer. */
  function HttpError(status: int): Error {
    Raised("HTTPError", IntToString(status))
  }

  /** The `except` clause of `download_file`: absent statuses give False, anything else is raised again. */
  function Handled(e: Error, response: Option<int>): Result<bool> {
    if response.Some? && Absent(response.value) then Ok(false) else Err(e)
  }

  /**
   * `download_file`: False for a 404 or 403, whether it comes as the
   * answer or with the exception; True once any other non-error answer is
   * written; an error status or any other exception propagates.
   */
  function DownloadFile(fetch: Fetch): (r: Result<bool>)
    ensures r == Ok(false) <==> (fetch.Answered? && Absent(fetch.status))
                                || (fetch.Failed? && fetch.response.Some? && Absent(fetch.response.value))
    ensures r == Ok(true) <==> fetch.Answered? && !(400 <= fetch.status < 600)
    ensures r.Err? ==> if fetch.Failed? then r.error == fetch.error else r.error == HttpError(fetch.status)
  {
    match fetch
    case Answered(status) =>
      if Absent(status) then Ok(false)
      else if 400 <= status < 600 then Handled(HttpError(status), Some(status))
      else Ok(true)
    case Failed(e, response) => Handled(e, response)
  }

  // ---------------------------------------------------------------------
  // Uploading

  /** The AWS settings of a run: optional explicit credentials and the region. */
  datatype Aws = Aws(keyId: Option<string>, secret: Option<string>, sessionToken: Option<string>, region: string)

  datatype Credentials = Credentials(keyId: string, secret: string, sessionToken: Option<string>)

  /** One `upload_file` call: local signature file, bucket, key, region and the explicit credentials if any. */
  datatype Upload = Upload(local: string, bucket: string, key: string, region: string, credentials: Option<Credentials>)

  /** A Python truthy optional text: present and not empty. */
  predicate Given(o: Option<string>) {
    o.Some? && o.value != ""
  }

  /**
   * The session's credentials: used only when both key id and secret are
   * given, with the session token only when it is given too; otherwise
   * boto3's default chain is left to find them.
   */
  function SessionCredentials(aws: Aws): (r: Option<Credentials>)
    ensures r.Some? <==> Given(aws.keyId) && Given(aws.secret)
    ensures r.Some? ==> r.value.keyId == aws.keyId.value && r.value.secret == aws.secret.value
                        && (r.value.sessionToken.Some? <==> Given(aws.sessionToken))
  {
    if Given(aws.keyId) && Given(aws.secret) then
      Some(Credentials(aws.keyId.value, aws.secret.value, if Given(aws.sessionToken) then aws.sessionToken else None))
    else None
  }

  /** The signature of an object is stored under the object's key followed by ".asc". */
  function SignatureKey(bucketKey: string): (r: string)
    ensures EndsWith(r, ".asc") && StartsWith(r, bucketKey) && |r| == |bucketKey| + 4
  {
    bucketKey + ".asc"
  }

  /**
   * `upload_signature_to_s3`: the upload it issues, none in a dry run,
   * else exactly one, to the signature key in the given bucket.
   */
  function UploadSignature(signaturePath: string, bucketKey: string, bucketName: string, aws: Aws, dryRun: bool): (r: seq<Upload>)
    ensures r == [] <==> dryRun
    ensures |r| <= 1
    ensures forall u :: u in r ==> u.key == SignatureKey(bucketKey) && u.bucket == bucketName && u.local == signaturePath
                                   && u.credentials == SessionCredentials(aws)
  {
    if dryRun then []
    else [Upload(signaturePath, bucketName, SignatureKey(bucketKey), aws.region, SessionCredentials(aws))]
  }

  /** The uploads actually made when those to a key in `rejected` raise: up to and including the first such one. */
  function IssueUploads(planned: seq<Upload>, rejected: set<string>): (r: (seq<Upload>, bool))
    ensures |r.0| <= |planned| && r.0 == planned[..|r.0|]
    ensures r.1 ==> r.0 == planned
    decreases |planned|
  {
    if planned == [] then ([], true)
    else if planned[0].key in rejected then ([planned[0]], false)
    else
      var (rest, ok) := IssueUploads(planned[1..], rejected);
      assert [planned[0]] + rest == planned[..1 + |rest|];
      ([planned[0]] + rest, ok)
  }

  /**
   * The uploads go through exactly when none is rejected; otherwise they
   * stop at the first rejected one, which is the last attempted.
   */
  lemma {:induction false} IssueUploadsStops(planned: seq<Upload>, rejected: set<string>)
    ensures var r := IssueUploads(planned, rejected);
            (r.1 <==> forall u :: u in planned ==> u.key !in rejected)
            && (!r.1 ==> |r.0| > 0 && Last(r.0).key in rejected && forall u :: u in r.0[..|r.0| - 1] ==> u.key !in rejected)
    decreases |planned|
  {
    if planned != [] && planned[0].key !in rejected {
      IssueUploadsStops(planned[1..], rejected);
      var rest := IssueUploads(planned[1..], rejected);
      assert IssueUploads(planned, rejected) == ([planned[0]] + rest.0, rest.1);
      assert forall u :: u in planned ==> u == planned[0] || u in planned[1..];
      if !rest.1 {
        assert ([planned[0]] + rest.0)[..|rest.0|] == [planned[0]] + rest.0[..|rest.0| - 1];
      }
    }
  }

  /** Two uploads of which the first goes through: the second is attempted, and decides the verdict. */
  lemma IssueTwoUploads(first: Upload, second: Upload, rejected: set<string>)
    requires first.key !in rejected
    ensures IssueUploads([first, second], rejected).0 == [first, second]
    ensures IssueUploads([first, second], rejected).1 <==> second.key !in rejected
  {
    assert [first, second][1..] == [second];
    assert [second][1..] == [];
    assert IssueUploads([second], rejected).1 <==> second.key !in rejected;
  }

  /** Issuing two lists of uploads one after the other: the second is reached only when the first went through. */
  lemma {:induction false} IssueUploadsAppend(a: seq<Upload>, b: seq<Upload>, rejected: set<string>)
    ensures IssueUploads(a + b, rejected)
            == if IssueUploads(a, rejected).1
               then (a + IssueUploads(b, rejected).0, IssueUploads(b, rejected).1)
               else IssueUploads(a, rejected)
    decreases |a|
  {
    if a == [] {
      assert a + b == b;
      assert a + IssueUploads(b, rejected).0 == IssueUploads(b, rejected).0;
    } else {
      assert (a + b)[0] == a[0] && (a + b)[1..] == a[1..] + b;
      if a[0].key in rejected {
        assert IssueUploads(a + b, rejected) == ([a[0]], false);
        assert IssueUploads(a, rejected) == ([a[0]], false);
      } else {
        IssueUploadsAppend(a[1..], b, rejected);
        var tail := IssueUploads(a[1..] + b, rejected);
        assert IssueUploads(a + b, rejected) == ([a[0]] + tail.0, tail.1);
        var first := IssueUploads(a[1..], rejected);
        assert IssueUploads(a, rejected) == ([a[0]] + first.0, first.1);
        var second := IssueUploads(b, rejected);
        if first.1 {
          assert tail == (a[1..] + second.0, second.1);
          assert [a[0]] + (a[1..] + second.0) == a + second.0;
        } else {
          assert tail == first;
        }
      }
    }
  }

  // ---------------------------------------------------------------------
  // One JAR

  /** The three answers a JAR URL gets: the JAR, then its JSON and its XML SBOM. */
  datatype Downloads = Downloads(jar: Fetch, sbomJson: Fetch, sbomXml: Fetch)

  /**
   * The signing run over the downloaded files: the exception it raises,
   * if any, and the local files for which a ".asc" exists afterwards.
   */
  datatype Signing = Signing(error: Option<Error>, signed: set<string>)

  /** Local name of the JSON, resp. XML, SBOM of a JAR file. */
  function SbomJsonFile(filename: string): string {
    Replace(filename, ".jar", "") + "-cyclonedx.json"
  }

  function SbomXmlFile(filename: string): string {
    Replace(filename, ".jar", "") + "-cyclonedx.xml"
  }

  /**
   * The signature uploads of a signed JAR: the JAR's own, then the JSON
   * SBOM's and the XML SBOM's when that SBOM was downloaded and signed;
   * an SBOM whose signature is missing only gets a warning.
   */
  function PlannedUploads(bucketKey: string, filename: string, jsonExists: bool, xmlExists: bool,
                          signed: set<string>, bucketName: string, aws: Aws, dryRun: bool): (r: seq<Upload>)
    ensures r == [] <==> dryRun
    ensures |r| <= 3 && (r != [] ==> r[0].key == SignatureKey(bucketKey))
    ensures forall u :: u in r ==> u.bucket == bucketName && EndsWith(u.key, ".asc")
  {
    var jsonFile := SbomJsonFile(filename);
    var xmlFile := SbomXmlFile(filename);
    UploadSignature(filename + ".asc", bucketKey, bucketName, aws, dryRun)
    + (if jsonExists && jsonFile in signed
       then UploadSignature(jsonFile + ".asc", Replace(bucketKey, ".jar", "-cyclonedx.json"), bucketName, aws, dryRun)
       else [])
    + (if xmlExists && xmlFile in signed
       then UploadSignature(xmlFile + ".asc", Replace(bucketKey, ".jar", "-cyclonedx.xml"), bucketName, aws, dryRun)
       else [])
  }

  /**
   * `process_jar_url`: the uploads made and the verdict. It is False when
   * the URL does not parse, when the JAR is absent, when the JAR has no
   * signature after signing, and on any exception (a download that
   * raises, the signing, an upload).
   */
  function ProcessJarUrl(jarUrl: string, urlPath: string, fetched: Downloads, signing: Signing,
                         bucketName: string, aws: Aws, dryRun: bool, rejected: set<string>): (r: (seq<Upload>, bool))
    ensures r.1 ==> ParseJarUrl(jarUrl, urlPath).Ok? && DownloadFile(fetched.jar) == Ok(true)
                    && signing.error.None? && ParseJarUrl(jarUrl, urlPath).value.1 in signing.signed
    ensures r.0 != [] ==> ParseJarUrl(jarUrl, urlPath).Ok? && !dryRun
                          && r.0[0].key == SignatureKey(ParseJarUrl(jarUrl, urlPath).value.0)
    ensures forall u :: u in r.0 ==> u.bucket == bucketName && EndsWith(u.key, ".asc")
    ensures r.1 ==> forall u :: u in r.0 ==> u.key !in rejected
    ensures |r.0| <= 3
  {
    match ParseJarUrl(jarUrl, urlPath)
    case Err(_) => ([], false)
    case Ok((bucketKey, filename)) =>
      if DownloadFile(fetched.jar) != Ok(true) then ([], false)
      else
        match DownloadFile(fetched.sbomJson)
        case Err(_) => ([], false)
        case Ok(jsonExists) =>
          match DownloadFile(fetched.sbomXml)
          case Err(_) => ([], false)
          case Ok(xmlExists) =>
            if signing.error.Some? || filename !in signing.signed then ([], false)
            else
              var planned := PlannedUploads(bucketKey, filename, jsonExists, xmlExists, signing.signed, bucketName, aws, dryRun);
              var (issued, ok) := IssueUploads(planned, rejected);
              IssueUploadsStops(planned, rejected);
              assert issued != [] ==> issued[0] == planned[0];
              (issued, ok)
  }

  /** Without the JAR itself nothing is signed or uploaded and the URL counts as failed. */
  lemma AbsentJarFails(jarUrl: string, urlPath: string, fetched: Downloads, signing: Signing,
                       bucketName: string, aws: Aws, dryRun: bool, rejected: set<string>)
    requires DownloadFile(fetched.jar) != Ok(true)
    ensures ProcessJarUrl(jarUrl, urlPath, fetched, signing, bucketName, aws, dryRun, rejected) == ([], false)
  {
  }

  /** A dry run uploads nothing, and succeeds once the JAR is fetched and signed without error. */
  lemma DryRunUploadsNothing(jarUrl: string, urlPath: string, fetched: Downloads, signing: Signing,
                             bucketName: string, aws: Aws, rejected: set<string>)
    ensures ProcessJarUrl(jarUrl, urlPath, fetched, signing, bucketName, aws, true, rejected).0 == []
    ensures ProcessJarUrl(jarUrl, urlPath, fetched, signing, bucketName, aws, true, rejected).1
            <==> ParseJarUrl(jarUrl, urlPath).Ok? && DownloadFile(fetched.jar) == Ok(true)
                 && DownloadFile(fetched.sbomJson).Ok? && DownloadFile(fetched.sbomXml).Ok?
                 && signing.error.None? && ParseJarUrl(jarUrl, urlPath).value.1 in signing.signed
  {
  }

  /** The URL path "/" + dir + "/" + stem + ".jar" parses into the key dir + "/" + stem + ".jar" and the JAR's name. */
  lemma ParseJarPathOfStem(url: string, dir: string, stem: string)
    requires |dir| > 0 && dir[0] != '/' && '/' !in stem
    ensures ParseJarUrl(url, "/" + dir + "/" + stem + ".jar") == Ok((dir + "/" + stem + ".jar", stem + ".jar"))
  {
    var name := stem + ".jar";
    assert '/' !in name;
    AppendAssoc("/" + dir + "/", stem, ".jar");
    AppendAssoc(dir + "/", stem, ".jar");
    assert EndsWith(name, ".jar");
    ParseJarUrlOf(url, dir, name);
  }

  /**
   * A JAR under directory `dir` whose key holds no other ".jar", found
   * with both SBOMs and all three signed, gets its three signatures
   * uploaded beside the originals, in the order JAR, JSON, XML.
   */
  lemma FullRunUploadsThreeSignatures(url: string, dir: string, stem: string, signing: Signing,
                                      bucketName: string, aws: Aws)
    requires |dir| > 0 && dir[0] != '/' && '/' !in stem
    requires forall i :: 0 <= i < |dir + "/" + stem| ==> !OccursAt(dir + "/" + stem + ".jar", ".jar", i)
    requires forall i :: 0 <= i < |stem| ==> !OccursAt(stem + ".jar", ".jar", i)
    requires signing.error.None?
    requires stem + ".jar" in signing.signed && stem + "-cyclonedx.json" in signing.signed
             && stem + "-cyclonedx.xml" in signing.signed
    ensures var key := dir + "/" + stem;
            var creds := SessionCredentials(aws);
            ProcessJarUrl(url, "/" + dir + "/" + stem + ".jar", Downloads(Answered(200), Answered(200), Answered(200)),
                          signing, bucketName, aws, false, {})
            == ([Upload(SignatureKey(stem + ".jar"), bucketName, SignatureKey(key + ".jar"), aws.region, creds),
                 Upload(SignatureKey(stem + "-cyclonedx.json"), bucketName, SignatureKey(key + "-cyclonedx.json"), aws.region, creds),
                 Upload(SignatureKey(stem + "-cyclonedx.xml"), bucketName, SignatureKey(key + "-cyclonedx.xml"), aws.region, creds)],
                true)
  {
    var key := dir + "/" + stem;
    ParseJarPathOfStem(url, dir, stem);
    assert DownloadFile(Answered(200)) == Ok(true);
    PlannedUploadsOfStem(key, stem, signing.signed, bucketName, aws);
    var planned := PlannedUploads(key + ".jar", stem + ".jar", true, true, signing.signed, bucketName, aws, false);
    IssueUploadsStops(planned, {});
  }

  /** The uploads planned for a signed JAR and both its signed SBOMs. */
  lemma PlannedUploadsOfStem(key: string, stem: string, signed: set<string>, bucketName: string, aws: Aws)
    requires forall i :: 0 <= i < |key| ==> !OccursAt(key + ".jar", ".jar", i)
    requires forall i :: 0 <= i < |stem| ==> !OccursAt(stem + ".jar", ".jar", i)
    requires stem + "-cyclonedx.json" in signed && stem + "-cyclonedx.xml" in signed
    ensures var creds := SessionCredentials(aws);
            PlannedUploads(key + ".jar", stem + ".jar", true, true, signed, bucketName, aws, false)
            == [Upload(SignatureKey(stem + ".jar"), bucketName, SignatureKey(key + ".jar"), aws.region, creds),
                Upload(SignatureKey(stem + "-cyclonedx.json"), bucketName, SignatureKey(key + "-cyclonedx.json"), aws.region, creds),
                Upload(SignatureKey(stem + "-cyclonedx.xml"), bucketName, SignatureKey(key + "-cyclonedx.xml"), aws.region, creds)]
  {
    ReplaceOnlyAtEnd(stem, ".jar", "");
    assert stem + "" == stem;
    ReplaceOnlyAtEnd(key, ".jar", "-cyclonedx.json");
    ReplaceOnlyAtEnd(key, ".jar", "-cyclonedx.xml");
    assert SbomJsonFile(stem + ".jar") == stem + "-cyclonedx.json";
    assert SbomXmlFile(stem + ".jar") == stem + "-cyclonedx.xml";
  }

  // ---------------------------------------------------------------------
  // The list of URLs and the summary

  /** A stripped line that names a URL: not empty and not a '#' comment. */
  predicate IsUrlLine(line: string) {
    line != "" && !StartsWith(line, "#")
  }

  /** The lines of a file, each stripped of surrounding whitespace. */
  function StrippedLines(lines: seq<string>): (r: seq<string>)
    ensures |r| == |lines| && forall i :: 0 <= i < |lines| ==> r[i] == Strip(lines[i])
  {
    seq(|lines|, i requires 0 <= i < |lines| => Strip(lines[i]))
  }

  /** The stripped lines that name a URL, in order. */
  function UrlLines(stripped: seq<string>): (r: seq<string>)
    ensures |r| <= |stripped|
    ensures forall i :: 0 <= i < |r| ==> IsUrlLine(r[i])
    decreases |stripped|
  {
    if stripped == [] then []
    else
      var n := |stripped| - 1;
      UrlLines(stripped[..n]) + (if IsUrlLine(stripped[n]) then [stripped[n]] else [])
  }

  /** A text is kept exactly when it is one of the lines and names a URL. */
  lemma {:induction false} UrlLinesIff(stripped: seq<string>, url: string)
    ensures url in UrlLines(stripped) <==> IsUrlLine(url) && url in stripped
    decreases |stripped|
  {
    if stripped != [] {
      var n := |stripped| - 1;
      UrlLinesIff(stripped[..n], url);
      assert stripped == stripped[..n] + [stripped[n]];
    }
  }

  /** The URLs a file with these lines lists, in order: the stripped lines that are not empty or comments. */
  function ListedUrls(lines: seq<string>): (r: seq<string>)
    ensures |r| <= |lines|
  {
    UrlLines(StrippedLines(lines))
  }

  /** A URL is listed exactly when some line strips to it and it is neither empty nor a comment. */
  lemma ListedUrlsIff(lines: seq<string>, url: string)
    ensures url in ListedUrls(lines) <==> IsUrlLine(url) && exists i :: 0 <= i < |lines| && Strip(lines[i]) == url
  {
    var stripped := StrippedLines(lines);
    UrlLinesIff(stripped, url);
    if url in stripped {
      var i :| 0 <= i < |stripped| && stripped[i] == url;
      assert Strip(lines[i]) == url;
    }
  }

  /** `read_urls_from_file` over the lines of the file. */
  method ReadUrlsFromFile(lines: seq<string>) returns (urls: seq<string>)
    ensures urls == ListedUrls(lines)
  {
    ghost var stripped := StrippedLines(lines);
    urls := [];
    for n := 0 to |lines|
      invariant urls == UrlLines(stripped[..n])
    {
      var line := Strip(lines[n]);
      UrlLinesStep(stripped, n);
      if !IsUrlLine(line) {
        continue;
      }
      urls := urls + [line];
    }
    assert stripped[..|lines|] == stripped;
  }

  lemma UrlLinesStep(stripped: seq<string>, n: int)
    requires 0 <= n < |stripped|
    ensures UrlLines(stripped[..n + 1]) == UrlLines(stripped[..n]) + (if IsUrlLine(stripped[n]) then [stripped[n]] else [])
  {
    assert stripped[..n + 1][..n] == stripped[..n];
  }

  /** Where the URLs come from: one `--jar-url`, or a `--jar-urls-file` that exists or not. */
  datatype UrlSource = SingleUrl(url: string) | UrlsFile(path: string, present: bool, lines: seq<string>)

  /** `parser.error`: the usage message, then exit status 2. */
  function UsageError(message: string): Error {
    Raised("SystemExit", message)
  }

  /**
   * The URLs `main` processes: a Vault token is required first; one URL
   * is taken as it is; a file must exist and list at least one URL.
   */
  function UrlsToProcess(vaultToken: Option<string>, source: UrlSource): (r: Result<seq<string>>)
    ensures r.Ok? ==> Given(vaultToken) && |r.value| > 0
    ensures r.Ok? && source.UrlsFile? ==> r.value == ListedUrls(source.lines)
    ensures !Given(vaultToken) ==> r == Err(UsageError("VAULT_TOKEN environment variable is required"))
  {
    if !Given(vaultToken) then Err(UsageError("VAULT_TOKEN environment variable is required"))
    else
      match source
      case SingleUrl(url) => Ok([url])
      case UrlsFile(path, present, lines) =>
        if !present then Err(UsageError("File not found: " + path))
        else
          var urls := ListedUrls(lines);
          if urls == [] then Err(UsageError("No valid URLs found in file: " + path)) else Ok(urls)
  }

  /** The URLs whose processing failed, in order. */
  function FailedUrls(urls: seq<string>, succeeded: seq<bool>): (r: seq<string>)
    requires |succeeded| == |urls|
    ensures |r| <= |urls|
    decreases |urls|
  {
    if urls == [] then []
    else
      var n := |urls| - 1;
      FailedUrls(urls[..n], succeeded[..n]) + (if succeeded[n] then [] else [urls[n]])
  }

  /** Number of successes. */
  function Successes(succeeded: seq<bool>): (r: nat)
    ensures r <= |succeeded|
  {
    if succeeded == [] then 0
    else Successes(succeeded[..|succeeded| - 1]) + (if succeeded[|succeeded| - 1] then 1 else 0)
  }

  /** Every URL is either a success or listed as failed, and the failed list is empty exactly when all succeeded. */
  lemma {:induction false} FailedUrlsCount(urls: seq<string>, succeeded: seq<bool>)
    requires |succeeded| == |urls|
    ensures Successes(succeeded) + |FailedUrls(urls, succeeded)| == |urls|
    ensures FailedUrls(urls, succeeded) == [] <==> forall i :: 0 <= i < |succeeded| ==> succeeded[i]
    decreases |urls|
  {
    if urls != [] {
      var n := |urls| - 1;
      FailedUrlsCount(urls[..n], succeeded[..n]);
      if forall i :: 0 <= i < |succeeded| ==> succeeded[i] {
        assert forall i :: 0 <= i < n ==> succeeded[..n][i] == succeeded[i];
      }
      if forall i :: 0 <= i < n ==> succeeded[..n][i] {
        if succeeded[n] {
          forall i | 0 <= i < |succeeded| ensures succeeded[i] {
            if i < n { assert succeeded[..n][i] == succeeded[i]; }
          }
        }
      }
    }
  }

  /** A URL is listed as failed exactly when it sits at a position whose processing failed. */
  lemma {:induction false} FailedUrlsIff(urls: seq<string>, succeeded: seq<bool>, url: string)
    requires |succeeded| == |urls|
    ensures url in FailedUrls(urls, succeeded) <==> exists i :: 0 <= i < |urls| && urls[i] == url && !succeeded[i]
    decreases |urls|
  {
    if urls != [] {
      var n := |urls| - 1;
      FailedUrlsIff(urls[..n], succeeded[..n], url);
      FailedSomewhereSplit(urls, succeeded, url);
      var prev := FailedUrls(urls[..n], succeeded[..n]);
      var last: seq<string> := if succeeded[n] then [] else [urls[n]];
      assert FailedUrls(urls, succeeded) == prev + last;
      assert url in prev + last <==> url in prev || url in last;
    }
  }

  /** Some position holding `url` failed. */
  predicate FailedSomewhere(urls: seq<string>, succeeded: seq<bool>, url: string)
    requires |succeeded| == |urls|
  {
    exists i :: 0 <= i < |urls| && urls[i] == url && !succeeded[i]
  }

  /** A failure somewhere is one before the last position, or at the last. */
  lemma FailedSomewhereSplit(urls: seq<string>, succeeded: seq<bool>, url: string)
    requires |succeeded| == |urls| && urls != []
    ensures var n := |urls| - 1;
            (FailedSomewhere(urls, succeeded, url)
             <==> FailedSomewhere(urls[..n], succeeded[..n], url) || (urls[n] == url && !succeeded[n]))
  {
    var n := |urls| - 1;
    if FailedSomewhere(urls, succeeded, url) {
      var i :| 0 <= i < |urls| && urls[i] == url && !succeeded[i];
      if i < n {
        assert urls[..n][i] == urls[i] && succeeded[..n][i] == succeeded[i];
      }
    }
    if FailedSomewhere(urls[..n], succeeded[..n], url) {
      var i :| 0 <= i < n && urls[..n][i] == url && !succeeded[..n][i];
      assert urls[i] == url && !succeeded[i];
    }
  }

  /**
   * The processing loop and summary of `main`, given whether each URL
   * succeeded: every URL is counted once, as a success or as a failure,
   * and the exit status is 1 exactly when one failed.
   */
  method Summarise(urls: seq<string>, succeeded: seq<bool>)
    returns (successful: nat, failed: nat, failedUrls: seq<string>, exitCode: int)
    requires |succeeded| == |urls|
    ensures successful == Successes(succeeded) && failedUrls == FailedUrls(urls, succeeded)
    ensures failed == |failedUrls| && successful + failed == |urls|
    ensures exitCode == (if failed > 0 then 1 else 0)
    ensures exitCode == 0 <==> forall i :: 0 <= i < |succeeded| ==> succeeded[i]
  {
    successful, failed, failedUrls := 0, 0, [];
    for n := 0 to |urls|
      invariant successful == Successes(succeeded[..n])
      invariant failedUrls == FailedUrls(urls[..n], succeeded[..n]) && failed == |failedUrls|
    {
      assert urls[..n + 1][..n] == urls[..n];
      assert succeeded[..n + 1][..n] == succeeded[..n];
      if succeeded[n] {
        successful := successful + 1;
      } else {
        failed := failed + 1;
        failedUrls := failedUrls + [urls[n]];
      }
    }
    assert urls[..|urls|] == urls && succeeded[..|urls|] == succeeded;
    FailedUrlsCount(urls, succeeded);
    exitCode := if failed > 0 then 1 else 0;
  }
}
