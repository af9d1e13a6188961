/**
 * Publication of released files to the binaries S3 bucket and their
 * removal on revocation.
 */
module Binaries {
  import opened Py
  import opened Effects

  const OssRepo := "Distribution"
  const CommercialRepo := "CommercialDistribution"
  /** The companion files uploaded next to every released file, in this order. */
  const UploadChecksums: seq<string> := ["md5", "sha1", "sha256", "asc"]
  /** The SonarQube distribution, published under another name. */
  const SonarQubeApplication := "sonar-application"
  /** The SonarLint for Eclipse update site, published under its own directory. */
  const SonarLintSite := "org.sonarlint.eclipse.site"
  const SonarLintReleases := "SonarLint-for-Eclipse/releases"

  /** Commercial artifacts (group id starting with "com.") go to their own directory. */
  function GetBinariesRepo(gid: string): (r: string)
    ensures r == CommercialRepo <==> StartsWith(gid, "com.")
    ensures r == OssRepo <==> !StartsWith(gid, "com.")
  {
    if StartsWith(gid, "com.") then CommercialRepo else OssRepo
  }

  /** The file name and artifact id an artifact is published under. */
  function PublishedName(filename: string, aid: string, version: string): (string, string)
  {
    if aid == SonarQubeApplication then ("sonarqube-" + version + ".zip", "sonarqube")
    else (filename, aid)
  }

  /** The key the file is uploaded to. */
  function UploadKey(filename: string, gid: string, aid: string, version: string): string
  {
    var (name, id) := PublishedName(filename, aid, version);
    if id == SonarLintSite then SonarLintReleases + "/" + name
    else GetBinariesRepo(gid) + "/" + id + "/" + name
  }

  /** The key removed on revocation: it has no case for the SonarLint site. */
  function DeleteKey(filename: string, gid: string, aid: string, version: string): string
  {
    var (name, id) := PublishedName(filename, aid, version);
    GetBinariesRepo(gid) + "/" + id + "/" + name
  }

  /** One upload per checksum, from the local companion file to the companion key. */
  function ChecksumUploads(bucket: string, tempFile: string, key: string, checksums: seq<string>): (r: seq<Effect>)
    ensures |r| == |checksums|
    ensures forall k :: 0 <= k < |checksums| ==>
              r[k] == S3Upload(tempFile + "." + checksums[k], bucket, key + "." + checksums[k])
  {
    if |checksums| == 0 then []
    else [S3Upload(tempFile + "." + checksums[0], bucket, key + "." + checksums[0])]
         + ChecksumUploads(bucket, tempFile, key, checksums[1..])
  }

  /** The calls of an upload: the file, its checksums, and for the update site its unpacked content. */
  function UploadPlan(bucket: string, tempFile: string, filename: string, gid: string, aid: string, version: string): seq<Effect>
  {
    var key := UploadKey(filename, gid, aid, version);
    [S3Upload(tempFile, bucket, key)]
    + ChecksumUploads(bucket, tempFile, key, UploadChecksums)
    + (if PublishedName(filename, aid, version).1 == SonarLintSite
       then [S3UploadUnpacked(tempFile, bucket, SonarLintReleases + "/" + version)]
       else [])
  }

  /** The calls of a deletion: the file's key, then every key extending it with a dot. */
  function DeletePlan(bucket: string, filename: string, gid: string, aid: string, version: string): seq<Effect>
  {
    var key := DeleteKey(filename, gid, aid, version);
    [S3Delete(bucket, key), S3DeletePrefix(bucket, key + ".")]
  }

  /** The SonarQube distribution is stored as sonarqube-<version>.zip under "sonarqube". */
  lemma SonarQubeRenamed(filename: string, gid: string, version: string)
    ensures UploadKey(filename, gid, SonarQubeApplication, version)
         == DeleteKey(filename, gid, SonarQubeApplication, version)
         == GetBinariesRepo(gid) + "/" + "sonarqube" + "/" + ("sonarqube-" + version + ".zip")
  {
    assert "sonarqube"[0] != SonarLintSite[0];
  }

  /** An upload makes one call for the file, then one per checksum in order, then for the update site one more. */
  lemma UploadPlanShape(bucket: string, tempFile: string, filename: string, gid: string, aid: string, version: string)
    ensures var plan := UploadPlan(bucket, tempFile, filename, gid, aid, version);
            var key := UploadKey(filename, gid, aid, version);
            && |plan| == (if aid == SonarLintSite then 6 else 5)
            && plan[0] == S3Upload(tempFile, bucket, key)
            && (forall k :: 0 <= k < |UploadChecksums| ==>
                  plan[k + 1] == S3Upload(tempFile + "." + UploadChecksums[k], bucket, key + "." + UploadChecksums[k]))
            && (aid == SonarLintSite ==>
                  plan[5] == S3UploadUnpacked(tempFile, bucket, SonarLintReleases + "/" + version)
                  && key == SonarLintReleases + "/" + filename)
  {
    var key := UploadKey(filename, gid, aid, version);
    var sums := ChecksumUploads(bucket, tempFile, key, UploadChecksums);
    var plan := UploadPlan(bucket, tempFile, filename, gid, aid, version);
    assert |UploadChecksums| == 4;
    forall k | 0 <= k < |UploadChecksums|
      ensures plan[k + 1] == S3Upload(tempFile + "." + UploadChecksums[k], bucket, key + "." + UploadChecksums[k])
    {
      assert plan[k + 1] == sums[k];
    }
  }

  /** An upload deletes nothing. */
  lemma UploadPlanDeletesNothing(bucket: string, tempFile: string, filename: string, gid: string, aid: string, version: string)
    ensures var plan := UploadPlan(bucket, tempFile, filename, gid, aid, version);
            forall k :: 0 <= k < |plan| ==> !plan[k].S3Delete? && !plan[k].S3DeletePrefix?
  {
    var key := UploadKey(filename, gid, aid, version);
    var sums := ChecksumUploads(bucket, tempFile, key, UploadChecksums);
    var tail := if PublishedName(filename, aid, version).1 == SonarLintSite
                then [S3UploadUnpacked(tempFile, bucket, SonarLintReleases + "/" + version)] else [];
    var plan := UploadPlan(bucket, tempFile, filename, gid, aid, version);
    assert plan == [S3Upload(tempFile, bucket, key)] + sums + tail;
    forall k | 0 <= k < |plan|
      ensures !plan[k].S3Delete? && !plan[k].S3DeletePrefix?
    {
      if k == 0 {
      } else if k <= |sums| {
        assert plan[k] == sums[k - 1];
      } else {
        assert plan[k] == tail[k - 1 - |sums|];
      }
    }
  }

  /**
   * Outside the update site, revocation removes every key an upload wrote:
   * the file's own key, and the checksum keys through the dotted prefix.
   */
  lemma DeleteCoversUpload(bucket: string, tempFile: string, filename: string, gid: string, aid: string, version: string)
    requires aid != SonarLintSite
    ensures var key := DeleteKey(filename, gid, aid, version);
            && DeletePlan(bucket, filename, gid, aid, version) == [S3Delete(bucket, key), S3DeletePrefix(bucket, key + ".")]
            && forall e :: e in UploadPlan(bucket, tempFile, filename, gid, aid, version) ==>
                 e.S3Upload? && e.bucket == bucket && (e.key == key || StartsWith(e.key, key + "."))
  {
    var key := DeleteKey(filename, gid, aid, version);
    assert UploadKey(filename, gid, aid, version) == key;
    var plan := UploadPlan(bucket, tempFile, filename, gid, aid, version);
    UploadPlanShape(bucket, tempFile, filename, gid, aid, version);
    forall e | e in plan
      ensures e.S3Upload? && e.bucket == bucket && (e.key == key || StartsWith(e.key, key + "."))
    {
      var k :| 0 <= k < |plan| && plan[k] == e;
      if k > 0 {
        var c := UploadChecksums[k - 1];
        assert e.key == key + "." + c;
        assert (key + "." + c)[..|key + "."|] == key + ".";
      }
    }
  }

  /** The update site is uploaded under a key starting with 'S'; its deletion key starts with 'D' or 'C'. */
  lemma SiteKeysFirstCharacters(filename: string, gid: string, version: string)
    ensures UploadKey(filename, gid, SonarLintSite, version) == SonarLintReleases + "/" + filename
    ensures DeleteKey(filename, gid, SonarLintSite, version) == GetBinariesRepo(gid) + "/" + SonarLintSite + "/" + filename
    ensures UploadKey(filename, gid, SonarLintSite, version)[0] == 'S'
    ensures DeleteKey(filename, gid, SonarLintSite, version)[0] != 'S'
  {
    assert PublishedName(filename, SonarLintSite, version) == (filename, SonarLintSite) by {
      assert SonarLintSite[0] != SonarQubeApplication[0];
    }
    var repo := GetBinariesRepo(gid);
    assert repo[0] == 'D' || repo[0] == 'C';
    assert (repo + "/" + SonarLintSite + "/" + filename)[0] == repo[0];
    assert (SonarLintReleases + "/" + filename)[0] == SonarLintReleases[0];
  }

  /**
   * For the update site, revocation removes nothing the upload wrote: the
   * upload went under the SonarLint directory, the deletion aims elsewhere.
   */
  lemma SiteDeleteMissesUpload(bucket: string, tempFile: string, filename: string, gid: string, version: string)
    ensures var key := DeleteKey(filename, gid, SonarLintSite, version);
            && key == GetBinariesRepo(gid) + "/" + SonarLintSite + "/" + filename
            && forall e :: e in UploadPlan(bucket, tempFile, filename, gid, SonarLintSite, version) && e.S3Upload? ==>
                 e.key != key && !StartsWith(e.key, key + ".")
  {
    var key := DeleteKey(filename, gid, SonarLintSite, version);
    var up := UploadKey(filename, gid, SonarLintSite, version);
    var plan := UploadPlan(bucket, tempFile, filename, gid, SonarLintSite, version);
    SiteKeysFirstCharacters(filename, gid, version);
    UploadPlanShape(bucket, tempFile, filename, gid, SonarLintSite, version);
    forall e | e in plan && e.S3Upload?
      ensures e.key != key && !StartsWith(e.key, key + ".")
    {
      var k :| 0 <= k < |plan| && plan[k] == e;
      assert e.key[0] == 'S' by {
        if k > 0 {
          var c := UploadChecksums[k - 1];
          assert e.key == up + "." + c;
          assert (up + "." + c)[0] == up[0];
        }
      }
      assert (key + ".")[0] == key[0];
    }
  }

  class Binaries {
    const binariesBucketName: string

    constructor(binariesBucketName: string)
      ensures this.binariesBucketName == binariesBucketName
    {
      this.binariesBucketName := binariesBucketName;
    }

    /** Uploads a downloaded file and its checksums, stopping at the first call that raises. */
    method S3Upload(world: World, tempFile: string, filename: string, gid: string, aid: string, version: string)
      returns (r: Result<()>)
      modifies world
      ensures var plan := UploadPlan(binariesBucketName, tempFile, filename, gid, aid, version);
              (world.trace, r) == (old(world.trace) + Issue(plan, world.failing).0, Issue(plan, world.failing).1)
    {
      r := world.CallAll(UploadPlan(binariesBucketName, tempFile, filename, gid, aid, version));
    }

    /** Removes a published file and every key extending its key with a dot. */
    method S3Delete(world: World, filename: string, gid: string, aid: string, version: string)
      returns (r: Result<()>)
      modifies world
      ensures var plan := DeletePlan(binariesBucketName, filename, gid, aid, version);
              (world.trace, r) == (old(world.trace) + Issue(plan, world.failing).0, Issue(plan, world.failing).1)
    {
      r := world.CallAll(DeletePlan(binariesBucketName, filename, gid, aid, version));
    }
  }
}
