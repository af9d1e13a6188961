/**
 * Version normalisation: for the `sonarlint-vscode` project the build
 * metadata after the first `+` is dropped; every other project keeps its
 * version as is.
 */
module VersionHelper {
  import opened Py
  import opened ReleaseRequest

  const SonarLintVsCode: string := "sonarlint-vscode"

  /** `VersionHelper.as_standardized_version`. */
  function StandardizedVersion(rr: ReleaseRequest): string {
    if rr.project == SonarLintVsCode then Split(rr.version, '+')[0] else rr.version
  }

  /** For sonarlint-vscode the result is the text before the first '+', and holds no '+'. */
  lemma SonarLintVersionIsTextBeforeFirstPlus(rr: ReleaseRequest)
    requires rr.project == SonarLintVsCode
    ensures '+' !in StandardizedVersion(rr)
    ensures StartsWith(rr.version, StandardizedVersion(rr))
    ensures var v := StandardizedVersion(rr);
            v == rr.version || (|v| < |rr.version| && rr.version[|v|] == '+')
  {
    SplitFirstIsPrefix(rr.version, '+');
  }

  /** Every other project keeps its version. */
  lemma OtherProjectsKeepVersion(rr: ReleaseRequest)
    requires rr.project != SonarLintVsCode
    ensures StandardizedVersion(rr) == rr.version
  {
  }

  /** A version without '+' is unchanged for every project. */
  lemma VersionWithoutPlusUnchanged(rr: ReleaseRequest)
    requires '+' !in rr.version
    ensures StandardizedVersion(rr) == rr.version
  {
    SplitNoSep(rr.version, '+');
  }

  /** Normalising an already normalised version changes nothing. */
  lemma StandardizedVersionIdempotent(rr: ReleaseRequest)
    ensures StandardizedVersion(rr.(version := StandardizedVersion(rr))) == StandardizedVersion(rr)
  {
    if rr.project == SonarLintVsCode {
      SonarLintVersionIsTextBeforeFirstPlus(rr);
      VersionWithoutPlusUnchanged(rr.(version := StandardizedVersion(rr)));
    }
  }
}

/**
 * The older releasability facade: it stores the release request and the
 * normalised version once, and starting the checks only logs a line.
 */
module ReleasabilityFacade {
  import opened Py
  import opened ReleaseRequest
  import VersionHelper

  datatype Releasability = Releasability(releaseRequest: ReleaseRequest, version: string)

  /** `Releasability.__init__`, which normalises the version itself. */
  function NewReleasability(rr: ReleaseRequest): (r: Releasability)
    ensures r.releaseRequest == rr
  {
    var version := if rr.project == "sonarlint-vscode" then Split(rr.version, '+')[0] else rr.version;
    Releasability(rr, version)
  }

  /** The line `start_releasability_checks` prints; it computes nothing else. */
  function StartReleasabilityChecks(r: Releasability): string {
    "Starting releasability check: " + r.releaseRequest.project + "#" + r.version
  }

  /** The facade's stored version is the shared normalised version. */
  lemma FacadeVersionIsStandardized(rr: ReleaseRequest)
    ensures NewReleasability(rr).version == VersionHelper.StandardizedVersion(rr)
    ensures rr.project == "sonarlint-vscode" ==> '+' !in NewReleasability(rr).version
    ensures rr.project != "sonarlint-vscode" ==> NewReleasability(rr).version == rr.version
  {
    if rr.project == "sonarlint-vscode" {
      VersionHelper.SonarLintVersionIsTextBeforeFirstPlus(rr);
    }
  }
}
