/**
 * The release request the coordinators work on: organisation, project,
 * version, build number, branch and commit of the release being gated.
 * Its Python class lives in `release/steps/ReleaseRequest.py`, which is not
 * part of this model; the fields are the ones the modelled code reads.
 */
module ReleaseRequest {

  datatype ReleaseRequest = ReleaseRequest(
    org: string,
    project: string,
    version: string,
    buildnumber: string,
    branch: string,
    sha: string)
}
