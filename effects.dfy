/**
 * The outside world of the release steps and of the re-signing script:
 * every call to Artifactory, S3, the binaries host, Burgr, Slack, GitHub,
 * Maven Central, GnuPG or the local artifact files is recorded, in order,
 * as an effect. Which calls raise, and with which exception, is given up front,
 * so the exception paths of the steps can be followed.
 */
module Effects {
  import opened Py

  datatype Effect =
    | ReceiveBuildInfo(project: string, buildNumber: string)
    | Promote(project: string, buildNumber: string, revoke: bool)
    | Download(repo: string, gid: string, aid: string, qual: string, ext: string, version: string, checksums: seq<string>)
    | S3Upload(localFile: string, bucket: string, key: string)
    | S3Delete(bucket: string, key: string)
    | S3DeletePrefix(bucket: string, prefix: string)
    | S3UploadUnpacked(localFile: string, bucket: string, prefix: string)
    | BinariesUpload(localFile: string, filename: string, aid: string, version: string)
    | NotifySlack(text: string)
    | RevokeGitHubRelease
    | NotifyBurgr(status: string)
    | RulesCov
    | DistributeBuild(project: string, buildNumber: string)
    | StartReleasabilityChecks(version: string)
    | GetReleasabilityStatus(version: string)
    | SetOutput(name: string, value: string)
    | DownloadBuild(project: string, buildNumber: string)
    | DeleteSignatures
    | ImportGpgKey
    | ReadPassphrase
    | UpdatePoms(oldVersion: string, version: string)
    | UpdateMetadata(oldVersion: string, version: string)
    | RestructureDirectories(oldVersion: string, version: string)
    | RenameFiles(oldVersion: string, version: string)
    | UpdateSboms(oldVersion: string, version: string)
    | SignArtifacts
    | CreateAndUploadBuildInfo(project: string, buildNumber: string, version: string)
    | UploadToBinaries(project: string, buildNumber: string, version: string)
    | UploadToMavenCentral
    | CleanupGpgKey

  /**
   * The calls made when `planned` is issued in order, stopping at the
   * first one that raises, and whether one raised.
   */
  function Issue(planned: seq<Effect>, failing: map<Effect, Error>): (r: (seq<Effect>, Result<()>))
    ensures r.1 == Ok(()) || (|r.0| > 0 && r.0[|r.0| - 1] in failing && r.1 == Err(failing[r.0[|r.0| - 1]]))
    ensures r.1.Ok? ==> r.0 == planned
    decreases |planned|
  {
    if |planned| == 0 then ([], Ok(()))
    else if planned[0] in failing then ([planned[0]], Err(failing[planned[0]]))
    else
      var rest := Issue(planned[1..], failing);
      ([planned[0]] + rest.0, rest.1)
  }

  /**
   * The calls made are a prefix of the plan; all but the last succeeded,
   * and the plan raised exactly when one of its calls is failing, which is
   * then the last one made.
   */
  lemma {:induction false} IssueStopsAtFirstFailing(planned: seq<Effect>, failing: map<Effect, Error>)
    ensures var r := Issue(planned, failing);
            && |r.0| <= |planned| && r.0 == planned[..|r.0|]
            && (r.1.Err? <==> exists k :: 0 <= k < |planned| && planned[k] in failing)
            && (r.1.Err? ==> |r.0| > 0 && r.0[|r.0| - 1] in failing && r.1.error == failing[r.0[|r.0| - 1]])
            && (forall k :: 0 <= k < |r.0| - 1 ==> r.0[k] !in failing)
    decreases |planned|
  {
    if |planned| > 0 && planned[0] !in failing {
      IssueStopsAtFirstFailing(planned[1..], failing);
      var rest := Issue(planned[1..], failing);
      assert Issue(planned, failing).0 == [planned[0]] + rest.0;
      assert forall k :: 1 <= k < |planned| ==> planned[k] == planned[1..][k - 1];
      assert planned[..|rest.0| + 1] == [planned[0]] + planned[1..][..|rest.0|];
    }
  }

  /** Issuing two plans one after the other is issuing their concatenation. */
  lemma {:induction false} IssueAppend(a: seq<Effect>, b: seq<Effect>, failing: map<Effect, Error>)
    ensures Issue(a + b, failing)
         == if Issue(a, failing).1.Err? then Issue(a, failing)
            else (Issue(a, failing).0 + Issue(b, failing).0, Issue(b, failing).1)
    decreases |a|
  {
    if |a| == 0 {
      assert a + b == b;
      assert Issue(a, failing) == ([], Ok(()));
      assert Issue(a, failing).0 + Issue(b, failing).0 == Issue(b, failing).0;
    } else {
      assert (a + b)[0] == a[0];
      assert (a + b)[1..] == a[1..] + b;
      if a[0] !in failing {
        IssueAppend(a[1..], b, failing);
        assert [a[0]] + (Issue(a[1..], failing).0 + Issue(b, failing).0)
            == ([a[0]] + Issue(a[1..], failing).0) + Issue(b, failing).0;
      }
    }
  }

  /** Concatenation of call sequences is associative. */
  lemma SeqAssoc(a: seq<Effect>, b: seq<Effect>, c: seq<Effect>)
    ensures a + b + c == a + (b + c)
  {
  }

  /** A single call is made, and raises exactly when it is failing. */
  lemma IssueSingle(e: Effect, failing: map<Effect, Error>)
    ensures Issue([e], failing) == ([e], if e in failing then Err(failing[e]) else Ok(()))
  {
    assert [e][1..] == [];
  }

  /** When no planned call raises, every one is made. */
  lemma IssueNoneFailing(planned: seq<Effect>, failing: map<Effect, Error>)
    requires forall k :: 0 <= k < |planned| ==> planned[k] !in failing
    ensures Issue(planned, failing) == (planned, Ok(()))
  {
    IssueStopsAtFirstFailing(planned, failing);
  }

  /** Only planned calls are made. */
  lemma IssuedArePlanned(planned: seq<Effect>, failing: map<Effect, Error>)
    ensures forall e :: e in Issue(planned, failing).0 ==> e in planned
  {
    IssueStopsAtFirstFailing(planned, failing);
    var r := Issue(planned, failing);
    forall e | e in r.0
      ensures e in planned
    {
      var k :| 0 <= k < |r.0| && r.0[k] == e;
      assert planned[k] == e;
    }
  }

  /** What a call, or a sequence of calls, did: the calls made and the outcome. */
  type Outcome = (seq<Effect>, Result<()>)

  /**
   * Steps taken one after the other, stopping at the first that raises:
   * the calls of all steps taken, and the outcome.
   */
  function Chain(runs: seq<Outcome>): Outcome
    decreases |runs|
  {
    if |runs| == 0 then ([], Ok(()))
    else if runs[0].1.Err? then runs[0]
    else
      var rest := Chain(runs[1..]);
      (runs[0].0 + rest.0, rest.1)
  }

  /** Taking one more step after the earlier ones. */
  lemma {:induction false} ChainAppend(runs: seq<Outcome>, last: Outcome)
    ensures var before := Chain(runs);
            Chain(runs + [last]) == if before.1.Err? then before else (before.0 + last.0, last.1)
    decreases |runs|
  {
    if |runs| == 0 {
      assert [] + [last] == [last];
      assert [last][1..] == [];
      assert last.0 + [] == last.0;
      assert [] + last.0 == last.0;
      if last.1.Ok? {
        assert last.1.value == ();
      }
    } else {
      assert (runs + [last])[0] == runs[0];
      assert (runs + [last])[1..] == runs[1..] + [last];
      ChainAppend(runs[1..], last);
      var rest := Chain(runs[1..]);
      if runs[0].1.Ok? && rest.1.Ok? {
        assert runs[0].0 + (rest.0 + last.0) == (runs[0].0 + rest.0) + last.0;
      }
    }
  }

  /** Once a step raises, no later step is taken. */
  lemma {:induction false} ChainStops(runs: seq<Outcome>, later: seq<Outcome>)
    requires Chain(runs).1.Err?
    ensures Chain(runs + later) == Chain(runs)
    decreases |runs|
  {
    assert (runs + later)[0] == runs[0];
    assert (runs + later)[1..] == runs[1..] + later;
    if runs[0].1.Ok? {
      ChainStops(runs[1..], later);
    }
  }

  /** One turn of a loop over the steps: the step follows the earlier ones, or raises and ends the loop. */
  lemma ChainStep(runs: seq<Outcome>, i: int)
    requires 0 <= i < |runs|
    requires Chain(runs[..i]).1 == Ok(())
    ensures var before := Chain(runs[..i]);
            && (runs[i].1.Ok? ==> Chain(runs[..i + 1]) == (before.0 + runs[i].0, Ok(())))
            && (runs[i].1.Err? ==> Chain(runs) == (before.0 + runs[i].0, runs[i].1))
  {
    ChainAppend(runs[..i], runs[i]);
    assert runs[..i + 1] == runs[..i] + [runs[i]];
    if runs[i].1.Err? {
      ChainStops(runs[..i + 1], runs[i + 1..]);
      assert runs[..i + 1] + runs[i + 1..] == runs;
    } else {
      assert runs[i].1.value == ();
    }
  }

  /** The calls of several plans, one after the other. */
  function Flatten(plans: seq<seq<Effect>>): seq<Effect>
    decreases |plans|
  {
    if |plans| == 0 then [] else plans[0] + Flatten(plans[1..])
  }

  /** When no step raises, the calls are those of every step, in order. */
  lemma {:induction false} ChainInOrder(runs: seq<Outcome>)
    requires forall i :: 0 <= i < |runs| ==> runs[i].1.Ok?
    ensures Chain(runs) == (Flatten(seq(|runs|, i requires 0 <= i < |runs| => runs[i].0)), Ok(()))
    decreases |runs|
  {
    if |runs| > 0 {
      ChainInOrder(runs[1..]);
      assert seq(|runs|, i requires 0 <= i < |runs| => runs[i].0)[1..]
          == seq(|runs[1..]|, i requires 0 <= i < |runs[1..]| => runs[1..][i].0);
    }
    if |runs| == 1 {
      assert runs[0].1.value == ();
    }
  }

  class World {
    var trace: seq<Effect>
    const failing: map<Effect, Error>

    constructor(failing: map<Effect, Error>)
      ensures trace == [] && this.failing == failing
    {
      trace := [];
      this.failing := failing;
    }

    /** One external call: it is recorded, and raises when it is among the failing ones. */
    method Call(e: Effect) returns (r: Result<()>)
      modifies this
      ensures (trace, r) == (old(trace) + Issue([e], failing).0, Issue([e], failing).1)
    {
      trace := trace + [e];
      r := if e in failing then Err(failing[e]) else Ok(());
    }

    /** Calls the planned effects in order until one raises. */
    method CallAll(planned: seq<Effect>) returns (r: Result<()>)
      modifies this
      ensures (trace, r) == (old(trace) + Issue(planned, failing).0, Issue(planned, failing).1)
    {
      var i := 0;
      r := Ok(());
      while i < |planned|
        invariant 0 <= i <= |planned|
        invariant forall k :: 0 <= k < i ==> planned[k] !in failing
        invariant trace == old(trace) + planned[..i] && r == Ok(())
      {
        r := Call(planned[i]);
        assert Issue([planned[i]], failing).0 == [planned[i]];
        assert planned[..i + 1] == planned[..i] + [planned[i]];
        assert trace == old(trace) + planned[..i + 1];
        if r.Err? {
          IssueNoneFailing(planned[..i], failing);
          IssueAppend(planned[..i], [planned[i]], failing);
          IssueAppend(planned[..i + 1], planned[i + 1..], failing);
          assert planned[..i + 1] + planned[i + 1..] == planned;
          return;
        }
        i := i + 1;
      }
      IssueNoneFailing(planned, failing);
      assert planned[..i] == planned;
    }
  }
}
