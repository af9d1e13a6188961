/**
 * The newer releasability coordinator. It publishes one trigger request to
 * the checks' topic, learns how many checks to expect and how long to wait
 * from the Lambda listing, then polls the result queue: every notification
 * for this request that is not an acknowledgement becomes one report entry,
 * and each such notification counts down the expected number of results,
 * whatever its check name.
 */
module Releasability {
  import opened Py
  import opened Json
  import opened ReleaseRequest
  import opened CheckResult
  import opened ChecksReport
  import opened ReleasabilityInputs
  import VersionHelper

  const ArnSns: string := "arn:aws:sns"
  const ArnSqs: string := "arn:aws:sqs"
  const TriggerTopic: string := "ReleasabilityTriggerTopic"
  const ResultTopic: string := "ReleasabilityResultTopic"
  const ResultQueue: string := "ReleasabilityResultQueue"
  const Ack: string := "ACK"

  datatype ArnConstants = ArnConstants(triggerTopicArn: string, resultTopicArn: string, resultQueueArn: string)

  /** `_define_arn_constants`. */
  function DefineArnConstants(region: string, accountId: string): ArnConstants {
    ArnConstants(
      ArnSns + ":" + region + ":" + accountId + ":" + TriggerTopic,
      ArnSns + ":" + region + ":" + accountId + ":" + ResultTopic,
      ArnSqs + ":" + region + ":" + accountId + ":" + ResultQueue)
  }

  /** The text of an ARN with the given colon-free fields. */
  function ArnText(service: string, region: string, accountId: string, resource: string): string {
    "arn:aws:" + service + ":" + region + ":" + accountId + ":" + resource
  }

  lemma ArnTextFields(service: string, region: string, accountId: string, resource: string)
    requires ':' !in service && ':' !in region && ':' !in accountId && ':' !in resource
    ensures Split(ArnText(service, region, accountId, resource), ':') == ["arn", "aws", service, region, accountId, resource]
  {
    var t4 := accountId + ":" + resource;
    var t3 := region + ":" + t4;
    var t2 := service + ":" + t3;
    var t1 := "aws" + ":" + t2;
    assert "arn" + ":" + t1 == ArnText(service, region, accountId, resource);
    SplitNoSep(resource, ':');
    SplitConcat(accountId, ':', resource);
    SplitConcat(region, ':', t4);
    SplitConcat(service, ':', t3);
    SplitConcat("aws", ':', t2);
    SplitConcat("arn", ':', t1);
  }

  /** The three ARNs are the region and account plus the fixed topic and queue names. */
  lemma ArnConstantsFields(region: string, accountId: string)
    requires ':' !in region && ':' !in accountId
    ensures var c := DefineArnConstants(region, accountId);
      && Split(c.triggerTopicArn, ':') == ["arn", "aws", "sns", region, accountId, TriggerTopic]
      && Split(c.resultTopicArn, ':') == ["arn", "aws", "sns", region, accountId, ResultTopic]
      && Split(c.resultQueueArn, ':') == ["arn", "aws", "sqs", region, accountId, ResultQueue]
  {
    var c := DefineArnConstants(region, accountId);
    assert ArnSns == "arn:aws:" + "sns" && ArnSqs == "arn:aws:" + "sqs";
    assert ':' !in TriggerTopic && ':' !in ResultTopic && ':' !in ResultQueue;
    ArnTextFields("sns", region, accountId, TriggerTopic);
    ArnTextFields("sns", region, accountId, ResultTopic);
    ArnTextFields("sqs", region, accountId, ResultQueue);
  }

  /** The queue URL AWS assigns to a queue. */
  function SqsUrl(region: string, accountId: string, queue: string): string {
    "https://sqs." + region + ".amazonaws.com/" + accountId + "/" + queue
  }

  /**
   * `_arn_to_sqs_url`: the service field must be "sqs"; too few fields
   * fail on the index, fields after the sixth are ignored.
   */
  function ArnToSqsUrl(arn: string): Result<string> {
    var parts := Split(arn, ':');
    if |parts| < 3 then Err(IndexError)
    else if parts[2] != "sqs" then Err(ValueError("Invalid sqs ARN: " + arn))
    else if |parts| < 6 then Err(IndexError)
    else Ok(SqsUrl(parts[3], parts[4], parts[5]))
  }

  /** An SQS ARN maps to the URL of the same region, account and queue. */
  lemma ArnToSqsUrlOfQueueArn(region: string, accountId: string, queue: string)
    requires ':' !in region && ':' !in accountId && ':' !in queue
    ensures ArnToSqsUrl(ArnText("sqs", region, accountId, queue)) == Ok(SqsUrl(region, accountId, queue))
  {
    ArnTextFields("sqs", region, accountId, queue);
  }

  /** Any other service in the third field is rejected with `ValueError`. */
  lemma ArnToSqsUrlRejectsOtherServices(service: string, region: string, accountId: string, resource: string)
    requires ':' !in service && ':' !in region && ':' !in accountId && ':' !in resource
    requires service != "sqs"
    ensures ArnToSqsUrl(ArnText(service, region, accountId, resource)).Err?
    ensures ArnToSqsUrl(ArnText(service, region, accountId, resource)).error.ValueError?
  {
    ArnTextFields(service, region, accountId, resource);
  }

  /** The result queue of the constants maps to its URL. */
  lemma ResultQueueUrl(region: string, accountId: string)
    requires ':' !in region && ':' !in accountId
    ensures ArnToSqsUrl(DefineArnConstants(region, accountId).resultQueueArn) == Ok(SqsUrl(region, accountId, ResultQueue))
  {
    assert DefineArnConstants(region, accountId).resultQueueArn == ArnText("sqs", region, accountId, ResultQueue);
    ArnToSqsUrlOfQueueArn(region, accountId, ResultQueue);
  }

  // -----------------------------------------------------------------------
  // Constructing the coordinator: the ARN account field

  /** How Python formats the bound method object `self._get_aws_account_id`. */
  function BoundMethodText(objectRepr: string): string {
    "<bound method " + "Releasability." + "_get_aws_account_id" + " of " + objectRepr + ">"
  }

  /** The constants as the constructor computes them: the method object is passed, not its result. */
  function ArnConstantsAsWritten(region: string, objectRepr: string): ArnConstants {
    DefineArnConstants(region, BoundMethodText(objectRepr))
  }

  /**
   * As written, the account field of every ARN is the method object's
   * text, which is never an account number.
   */
  lemma ArnAccountAsWrittenIsMethodText(region: string, objectRepr: string, accountId: string)
    requires ':' !in region && ':' !in objectRepr
    requires IsDigits(accountId)
    ensures var fields := Split(ArnConstantsAsWritten(region, objectRepr).triggerTopicArn, ':');
      |fields| == 6 && fields[4] == BoundMethodText(objectRepr) && fields[4] != accountId
  {
    assert ':' !in "<bound method " && ':' !in "Releasability." && ':' !in "_get_aws_account_id";
    var text := BoundMethodText(objectRepr);
    assert ':' !in text;
    ArnConstantsFields(region, text);
    assert text[0] == '<';
    assert IsAsciiDigit(accountId[0]);
  }

  /** Once the account id is the caller's account, the ARNs carry it. */
  lemma ArnAccountIsCallerAccount(region: string, accountId: string)
    requires ':' !in region && ':' !in accountId
    ensures var c := DefineArnConstants(region, accountId);
      && |Split(c.triggerTopicArn, ':')| == 6 && Split(c.triggerTopicArn, ':')[4] == accountId
      && |Split(c.resultQueueArn, ':')| == 6 && Split(c.resultQueueArn, ':')[4] == accountId
  {
    ArnConstantsFields(region, accountId);
  }

  // -----------------------------------------------------------------------
  // The trigger request

  const SnsRequestKeys: seq<string> :=
    ["uuid", "responseToARN", "repoSlug", "version", "vcsRevision", "artifactoryBuildNumber", "branchName"]

  /** `_build_sns_request`. */
  function BuildSnsRequest(resultTopicArn: string, correlationId: string, organization: string, projectName: string,
                           branchName: string, revision: string, version: string, buildNumber: int): Json
  {
    JObj([("uuid", JStr(correlationId)),
          ("responseToARN", JStr(resultTopicArn)),
          ("repoSlug", JStr(organization + "/" + projectName)),
          ("version", JStr(version)),
          ("vcsRevision", JStr(revision)),
          ("artifactoryBuildNumber", JNum(buildNumber)),
          ("branchName", JStr(branchName))])
  }

  lemma SnsRequestKeysOf(f: seq<(string, Json)>)
    requires |f| == 7
    requires f[0].0 == "uuid" && f[1].0 == "responseToARN" && f[2].0 == "repoSlug" && f[3].0 == "version"
    requires f[4].0 == "vcsRevision" && f[5].0 == "artifactoryBuildNumber" && f[6].0 == "branchName"
    ensures Keys(f) == SnsRequestKeys
  {
  }

  /** The request has exactly the seven keys, each bound to the value it was given. */
  lemma SnsRequestFields(resultTopicArn: string, correlationId: string, organization: string, projectName: string,
                         branchName: string, revision: string, version: string, buildNumber: int)
    ensures var r := BuildSnsRequest(resultTopicArn, correlationId, organization, projectName, branchName, revision, version, buildNumber);
      && r.JObj? && Keys(r.fields) == SnsRequestKeys && |r.fields| == 7
      && Lookup(r.fields, "uuid") == Some(JStr(correlationId))
      && Lookup(r.fields, "responseToARN") == Some(JStr(resultTopicArn))
      && Lookup(r.fields, "repoSlug") == Some(JStr(organization + "/" + projectName))
      && Lookup(r.fields, "version") == Some(JStr(version))
      && Lookup(r.fields, "vcsRevision") == Some(JStr(revision))
      && Lookup(r.fields, "artifactoryBuildNumber") == Some(JNum(buildNumber))
      && Lookup(r.fields, "branchName") == Some(JStr(branchName))
  {
    var f := BuildSnsRequest(resultTopicArn, correlationId, organization, projectName, branchName, revision, version, buildNumber).fields;
    SnsRequestKeysOf(f);
    forall i | 0 <= i < 7 ensures Lookup(f, f[i].0) == Some(f[i].1) {
      LookupAt(f, i);
    }
  }

  /** The seven keys are distinct. */
  lemma SnsRequestKeysDistinct()
    ensures |SnsRequestKeys| == 7
    ensures forall i, j :: 0 <= i < j < 7 ==> SnsRequestKeys[i] != SnsRequestKeys[j]
  {
  }

  /** The message text sent: Python's `str` of the request dict. */
  function MessageText(p: Publication): string {
    PyRepr(p.request)
  }

  datatype Started = Started(correlationId: string, published: seq<Publication>)

  /** The loop's view of one notification: it belongs to this request and is not an acknowledgement. */
  predicate IsAccepted(correlationId: string, m: Notification) {
    m.requestUUID == correlationId && m.kind != Ack
  }

  function Accepted(correlationId: string, batch: seq<Notification>): (r: seq<Notification>)
    ensures |r| <= |batch|
    decreases |batch|
  {
    if |batch| == 0 then []
    else
      var rest := Accepted(correlationId, batch[1..]);
      if IsAccepted(correlationId, batch[0]) then [batch[0]] + rest else rest
  }

  /** The accepted notifications are exactly the batch's notifications for this request that are not acknowledgements. */
  lemma {:induction false} AcceptedMembers(correlationId: string, batch: seq<Notification>)
    ensures forall m :: m in Accepted(correlationId, batch) <==> m in batch && IsAccepted(correlationId, m)
    decreases |batch|
  {
    if |batch| > 0 {
      AcceptedMembers(correlationId, batch[1..]);
      assert forall m :: m in batch <==> m == batch[0] || m in batch[1..];
    }
  }

  /** Messages that are not accepted change neither the entries nor the countdown. */
  lemma {:induction false} AcceptedAppend(correlationId: string, batch: seq<Notification>, m: Notification)
    ensures Accepted(correlationId, batch + [m])
         == Accepted(correlationId, batch) + (if IsAccepted(correlationId, m) then [m] else [])
    decreases |batch|
  {
    if |batch| > 0 {
      assert (batch + [m])[1..] == batch[1..] + [m];
      AcceptedAppend(correlationId, batch[1..], m);
    }
  }

  /**
   * The message an entry carries: the notification's `message` when the key
   * is present (`None` for a JSON `null`), or "" when it is absent.
   */
  function EntryMessage(m: Notification): Option<string> {
    if m.message.Some? then m.message.value else Some("")
  }

  /** The report entry for an accepted notification: name, state and message. */
  function Entry(m: Notification): CheckResult {
    NewCheckResult(m.checkName, m.kind, EntryMessage(m))
  }

  function Entries(ms: seq<Notification>): (r: seq<CheckResult>)
    ensures |r| == |ms|
    ensures forall i :: 0 <= i < |ms| ==> r[i] == Entry(ms[i])
  {
    seq(|ms|, i requires 0 <= i < |ms| => Entry(ms[i]))
  }

  function Head(batches: seq<seq<Notification>>): seq<Notification> {
    if |batches| > 0 then batches[0] else []
  }

  function Tail(batches: seq<seq<Notification>>): seq<seq<Notification>> {
    if |batches| > 0 then batches[1..] else []
  }

  /**
   * The entries the poll loop collects when `remaining` results are still
   * expected and `time` rounds are left; the i-th receive returns the i-th
   * batch (an empty one past the end).
   */
  function Collected(correlationId: string, remaining: int, time: int, batches: seq<seq<Notification>>): seq<CheckResult>
    decreases if time > 0 then time else 0
  {
    if remaining <= 0 || time <= 0 then []
    else
      var accepted := Accepted(correlationId, Head(batches));
      Entries(accepted) + Collected(correlationId, remaining - |accepted|, time - 1, Tail(batches))
  }

  /** The number of receive calls the poll loop makes. */
  function Rounds(correlationId: string, remaining: int, time: int, batches: seq<seq<Notification>>): nat
    decreases if time > 0 then time else 0
  {
    if remaining <= 0 || time <= 0 then 0
    else
      var accepted := Accepted(correlationId, Head(batches));
      1 + Rounds(correlationId, remaining - |accepted|, time - 1, Tail(batches))
  }

  /**
   * The inner loop of one receive round: every notification of the batch
   * for this request that is not an acknowledgement is added to the report
   * and counts down the expected results.
   */
  method ReceiveRound(report: ChecksReport, correlationId: string, messages: seq<Notification>, remaining: int)
    returns (left: int)
    modifies report
    ensures report.checks == old(report.checks) + Entries(Accepted(correlationId, messages))
    ensures left == remaining - |Accepted(correlationId, messages)|
  {
    left := remaining;
    var j := 0;
    while j < |messages|
      invariant 0 <= j <= |messages|
      invariant report.checks == old(report.checks) + Entries(Accepted(correlationId, messages[..j]))
      invariant left == remaining - |Accepted(correlationId, messages[..j])|
    {
      var content := messages[j];
      if content.requestUUID == correlationId {
        var checkResult := content.kind;
        if checkResult != Ack {
          left := left - 1;
          var message: Option<string> := Some("");
          if content.message.Some? {
            message := content.message.value;
          }
          var check := NewCheckResult(content.checkName, checkResult, message);
          assert check == Entry(content);
          report.AddCheck(check);
        }
      }
      ReceiveStep(correlationId, messages, j);
      j := j + 1;
    }
    assert messages[..|messages|] == messages;
  }

  lemma EntriesAppend(a: seq<Notification>, b: seq<Notification>)
    ensures Entries(a + b) == Entries(a) + Entries(b)
  {
  }

  /** Taking one more message of the batch adds its entry when it is accepted. */
  lemma ReceiveStep(correlationId: string, messages: seq<Notification>, j: int)
    requires 0 <= j < |messages|
    ensures var m := messages[j];
      && Accepted(correlationId, messages[..j + 1])
         == Accepted(correlationId, messages[..j]) + (if IsAccepted(correlationId, m) then [m] else [])
      && Entries(Accepted(correlationId, messages[..j + 1]))
         == Entries(Accepted(correlationId, messages[..j])) + (if IsAccepted(correlationId, m) then [Entry(m)] else [])
  {
    var m := messages[j];
    assert messages[..j + 1] == messages[..j] + [m];
    AcceptedAppend(correlationId, messages[..j], m);
    EntriesAppend(Accepted(correlationId, messages[..j]), if IsAccepted(correlationId, m) then [m] else []);
  }

  class Releasability {
    const releaseRequest: ReleaseRequest
    const arns: ArnConstants

    /** The coordinator with the ARNs of the caller's account in `region`. */
    constructor(releaseRequest: ReleaseRequest, region: string, accountId: string)
      ensures this.releaseRequest == releaseRequest
      ensures arns == DefineArnConstants(region, accountId)
    {
      this.releaseRequest := releaseRequest;
      arns := DefineArnConstants(region, accountId);
    }

    /**
     * `start_releasability_checks`: one publication to the trigger topic
     * with the normalised version; `correlationId` is the fresh identifier
     * the code draws, and is returned. A build number that is no integer
     * raises before anything is published.
     */
    function StartReleasabilityChecks(correlationId: string): Result<Started> {
      var version := VersionHelper.StandardizedVersion(releaseRequest);
      var buildNumber :- ParseInt(releaseRequest.buildnumber);
      var request := BuildSnsRequest(arns.resultTopicArn, correlationId, releaseRequest.org, releaseRequest.project,
                                     releaseRequest.branch, releaseRequest.sha, version, buildNumber);
      Ok(Started(correlationId, [Publication(arns.triggerTopicArn, request)]))
    }

    /**
     * `get_releasability_report`: the expected count and the budget come
     * from the listings; then at most `budget` receive rounds, each taking
     * the next batch and adding one entry per accepted notification.
     */
    method GetReleasabilityReport(correlationId: string, functionPages: seq<Page<LambdaFunction>>,
                                  subscriptionPages: seq<Page<Subscription>>, batches: seq<seq<Notification>>)
      returns (r: Result<ChecksReport>, receives: nat)
      ensures var counts := ChecksCountAndMaxTimeout(Drained(functionPages), Drained(subscriptionPages));
        && (r.Err? <==> counts.Err? || ArnToSqsUrl(arns.resultQueueArn).Err?)
        && (r.Ok? ==>
            && fresh(r.value)
            && r.value.checks == Collected(correlationId, counts.value.0, counts.value.1, batches)
            && receives == Rounds(correlationId, counts.value.0, counts.value.1, batches))
    {
      var counts := GetChecksCountAndMaxTimeout(functionPages, subscriptionPages);
      if counts.Err? {
        return Err(counts.error), 0;
      }
      var queueUrl := ArnToSqsUrl(arns.resultQueueArn);
      if queueUrl.Err? {
        return Err(queueUrl.error), 0;
      }
      var report := new ChecksReport();
      receives := PollResults(report, correlationId, counts.value.0, counts.value.1, batches);
      return Ok(report), receives;
    }
  }

  // -----------------------------------------------------------------------
  // Properties of the poll loop

  /** One round of the loop: the accepted notifications of the next batch, then the rest. */
  lemma CollectedStep(correlationId: string, remaining: int, time: int, batches: seq<seq<Notification>>)
    requires remaining > 0 && time > 0
    ensures var accepted := Accepted(correlationId, Head(batches));
      && Collected(correlationId, remaining, time, batches)
         == Entries(accepted) + Collected(correlationId, remaining - |accepted|, time - 1, Tail(batches))
      && Rounds(correlationId, remaining, time, batches)
         == 1 + Rounds(correlationId, remaining - |accepted|, time - 1, Tail(batches))
  {
  }

  /**
   * The poll loop of `get_releasability_report`: while results are
   * expected and time is left, take the next batch and add its entries.
   */
  method PollResults(report: ChecksReport, correlationId: string, remaining: int, time: int,
                     batches: seq<seq<Notification>>) returns (receives: nat)
    modifies report
    ensures report.checks == old(report.checks) + Collected(correlationId, remaining, time, batches)
    ensures receives == Rounds(correlationId, remaining, time, batches)
  {
    var remainingMessages, remainingTime, unread := remaining, time, batches;
    receives := 0;
    assert report.checks == old(report.checks) + [];
    while remainingMessages > 0 && remainingTime > 0
      invariant report.checks + Collected(correlationId, remainingMessages, remainingTime, unread)
             == old(report.checks) + Collected(correlationId, remaining, time, batches)
      invariant receives + Rounds(correlationId, remainingMessages, remainingTime, unread)
             == Rounds(correlationId, remaining, time, batches)
      decreases remainingTime
    {
      CollectedLoopStep(correlationId, report.checks, receives, remainingMessages, remainingTime, unread);
      remainingTime := remainingTime - 1;
      var messages := Head(unread);
      unread := Tail(unread);
      receives := receives + 1;
      remainingMessages := ReceiveRound(report, correlationId, messages, remainingMessages);
    }
    assert Collected(correlationId, remainingMessages, remainingTime, unread) == [];
    assert Rounds(correlationId, remainingMessages, remainingTime, unread) == 0;
  }

  /** One round of the poll loop keeps what is collected, and the rounds made, on course. */
  lemma CollectedLoopStep(correlationId: string, collected: seq<CheckResult>, rounds: nat, remaining: int, time: int,
                          batches: seq<seq<Notification>>)
    requires remaining > 0 && time > 0
    ensures var accepted := Accepted(correlationId, Head(batches));
      && (collected + Entries(accepted))
         + Collected(correlationId, remaining - |accepted|, time - 1, Tail(batches))
         == collected + Collected(correlationId, remaining, time, batches)
      && (rounds + 1) + Rounds(correlationId, remaining - |accepted|, time - 1, Tail(batches))
         == rounds + Rounds(correlationId, remaining, time, batches)
  {
    var accepted := Accepted(correlationId, Head(batches));
    CollectedStep(correlationId, remaining, time, batches);
    AppendAssoc(collected, Entries(accepted), Collected(correlationId, remaining - |accepted|, time - 1, Tail(batches)));
  }

  predicate Received(m: Notification, batches: seq<seq<Notification>>) {
    exists b :: 0 <= b < |batches| && m in batches[b]
  }

  /**
   * Every entry comes from a received notification for this request that
   * is not an acknowledgement, and carries its name and state.
   */
  lemma {:induction false} CollectedComeFromAcceptedNotifications(correlationId: string, remaining: int, time: int,
                                                                  batches: seq<seq<Notification>>)
    ensures forall e :: e in Collected(correlationId, remaining, time, batches) ==> FromAccepted(correlationId, batches, e)
    decreases if time > 0 then time else 0
  {
    if remaining > 0 && time > 0 {
      var accepted := Accepted(correlationId, Head(batches));
      var rest := Collected(correlationId, remaining - |accepted|, time - 1, Tail(batches));
      CollectedComeFromAcceptedNotifications(correlationId, remaining - |accepted|, time - 1, Tail(batches));
      CollectedStep(correlationId, remaining, time, batches);
      forall e | e in Collected(correlationId, remaining, time, batches)
        ensures FromAccepted(correlationId, batches, e)
      {
        if e in Entries(accepted) {
          FromHeadBatch(correlationId, batches, e);
        } else {
          assert e in rest;
          FromLaterBatch(correlationId, batches, e);
        }
      }
    }
  }

  /** The entry is that of a received notification accepted for this request. */
  ghost predicate FromAccepted(correlationId: string, batches: seq<seq<Notification>>, e: CheckResult) {
    exists m :: Received(m, batches) && IsAccepted(correlationId, m) && e == Entry(m)
  }

  /** An entry of the first batch comes from one of its accepted notifications. */
  lemma FromHeadBatch(correlationId: string, batches: seq<seq<Notification>>, e: CheckResult)
    requires e in Entries(Accepted(correlationId, Head(batches)))
    ensures FromAccepted(correlationId, batches, e)
  {
    var accepted := Accepted(correlationId, Head(batches));
    var i :| 0 <= i < |accepted| && Entries(accepted)[i] == e;
    assert accepted[i] in accepted;
    AcceptedMembers(correlationId, Head(batches));
    assert Received(accepted[i], batches) by {
      assert accepted[i] in batches[0];
    }
  }

  /** A notification received after the first batch was received. */
  lemma FromLaterBatch(correlationId: string, batches: seq<seq<Notification>>, e: CheckResult)
    requires FromAccepted(correlationId, Tail(batches), e)
    ensures FromAccepted(correlationId, batches, e)
  {
    var m :| Received(m, Tail(batches)) && IsAccepted(correlationId, m) && e == Entry(m);
    var b :| 0 <= b < |Tail(batches)| && m in Tail(batches)[b];
    assert m in batches[b + 1];
  }

  /** No acknowledgement and no other request's notification reaches the report. */
  lemma NoAckInReport(correlationId: string, remaining: int, time: int, batches: seq<seq<Notification>>)
    ensures forall e :: e in Collected(correlationId, remaining, time, batches) ==> e.state != Ack
  {
    CollectedComeFromAcceptedNotifications(correlationId, remaining, time, batches);
  }

  /** The loop makes at most `time` receive calls, and none when no result is expected. */
  lemma {:induction false} RoundsBounded(correlationId: string, remaining: int, time: int, batches: seq<seq<Notification>>)
    ensures Rounds(correlationId, remaining, time, batches) <= if time > 0 then time else 0
    ensures remaining <= 0 ==> Rounds(correlationId, remaining, time, batches) == 0
    ensures remaining <= 0 ==> Collected(correlationId, remaining, time, batches) == []
    decreases if time > 0 then time else 0
  {
    if remaining > 0 && time > 0 {
      var accepted := Accepted(correlationId, Head(batches));
      RoundsBounded(correlationId, remaining - |accepted|, time - 1, Tail(batches));
    }
  }

  /**
   * The loop ends either because the rounds are used up or because at
   * least as many entries as expected were collected.
   */
  lemma {:induction false} StopsWhenCountReachedOrTimeUsed(correlationId: string, remaining: int, time: int,
                                                          batches: seq<seq<Notification>>)
    requires time >= 0
    ensures Rounds(correlationId, remaining, time, batches) == time
         || |Collected(correlationId, remaining, time, batches)| >= remaining
    decreases time
  {
    if remaining > 0 && time > 0 {
      var accepted := Accepted(correlationId, Head(batches));
      StopsWhenCountReachedOrTimeUsed(correlationId, remaining - |accepted|, time - 1, Tail(batches));
    }
  }

  /**
   * Results are counted per notification, not per check name: one check
   * reporting twice satisfies an expected count of two and yields two
   * entries with the same name.
   */
  lemma RepeatedNameCountsTwice(m: Notification)
    requires IsAccepted(m.requestUUID, m)
    ensures Collected(m.requestUUID, 2, 5, [[m, m]]) == [Entry(m), Entry(m)]
    ensures Rounds(m.requestUUID, 2, 5, [[m, m]]) == 1
  {
    var u := m.requestUUID;
    assert Accepted(u, [m, m]) == [m, m] by {
      assert [m, m][1..] == [m];
    }
    assert Tail([[m, m]]) == [];
    assert Collected(u, 0, 4, []) == [];
  }

  /**
   * The entry keeps the notification's name and state and passes by the
   * state alone. Its message is "" when the key is absent, so the entry
   * renders with a trailing dash; a JSON `null` gives no message and no
   * note; a text is kept.
   */
  lemma EntryMessageCases(m: Notification)
    ensures Entry(m).name == m.checkName && Entry(m).state == m.kind
    ensures Entry(m).passed <==> HasPassed(m.kind)
    ensures m.message.None? ==>
              (Entry(m).message == Some("") && Render(Entry(m)) == Prefix(m.kind) + " " + m.checkName + "  - ")
    ensures m.message == Some(None) ==>
              (Entry(m).message.None? && Render(Entry(m)) == Prefix(m.kind) + " " + m.checkName + " ")
    ensures m.message.Some? && m.message.value.Some? ==> Entry(m).message == m.message.value
  {
    if m.message.None? {
      assert Render(Entry(m)) == Prefix(m.kind) + " " + m.checkName + " " + " - ";
    }
  }


  /** The coordinator publishes once, to the trigger topic, with the id it returns and the normalised version. */
  lemma StartPublishesOnce(r: Releasability, correlationId: string)
    ensures var s := r.StartReleasabilityChecks(correlationId);
      && (s.Ok? <==> ParseInt(r.releaseRequest.buildnumber).Ok?)
      && (s.Ok? ==>
            && s.value.correlationId == correlationId
            && |s.value.published| == 1
            && s.value.published[0].topicArn == r.arns.triggerTopicArn
            && s.value.published[0].request.JObj?
            && Lookup(s.value.published[0].request.fields, "uuid") == Some(JStr(correlationId))
            && Lookup(s.value.published[0].request.fields, "version")
               == Some(JStr(VersionHelper.StandardizedVersion(r.releaseRequest)))
            && Lookup(s.value.published[0].request.fields, "artifactoryBuildNumber")
               == Some(JNum(ParseInt(r.releaseRequest.buildnumber).value)))
  {
    var rr := r.releaseRequest;
    var n := ParseInt(rr.buildnumber);
    var version := VersionHelper.StandardizedVersion(rr);
    if n.Ok? {
      var request := BuildSnsRequest(r.arns.resultTopicArn, correlationId, rr.org, rr.project, rr.branch, rr.sha,
                                     version, n.value);
      assert r.StartReleasabilityChecks(correlationId) == Ok(Started(correlationId, [Publication(r.arns.triggerTopicArn, request)]));
      SnsRequestFields(r.arns.resultTopicArn, correlationId, rr.org, rr.project, rr.branch, rr.sha, version, n.value);
    } else {
      assert r.StartReleasabilityChecks(correlationId).Err?;
    }
  }

  // -----------------------------------------------------------------------
  // The entry constructor call as written

  /**
   * The arguments the loop passes when building an entry: name, state, the
   * local `passed` flag and the message.
   */
  function AsWrittenArguments(m: Notification): (string, string, bool, Option<string>) {
    (m.checkName, m.kind, m.message.None?, EntryMessage(m))
  }

  /** The local flag is false exactly when the notification has a message. */
  lemma LocalPassedIffNoMessage(m: Notification)
    ensures !AsWrittenArguments(m).2 <==> m.message.Some?
  {
  }

  /**
   * The constructor takes a name, a state and an optional message; called
   * with the four arguments above it raises `TypeError`.
   */
  function AsWrittenEntryError(m: Notification): Error {
    var _ := AsWrittenArguments(m);
    TypeError(AsWrittenArity)
  }

  const AsWrittenArity := "ReleasabilityCheckResult.__init__() takes from 3 to 4 positional arguments but 5 were given"

  /** Building the entries of one batch as written: the first entry raises. */
  function EntriesAsWritten(ms: seq<Notification>): Result<seq<CheckResult>> {
    if |ms| == 0 then Ok([]) else Err(AsWrittenEntryError(ms[0]))
  }

  /** The poll loop as written: the first accepted notification raises. */
  function CollectedAsWritten(correlationId: string, remaining: int, time: int, batches: seq<seq<Notification>>)
    : Result<seq<CheckResult>>
    decreases if time > 0 then time else 0
  {
    if remaining <= 0 || time <= 0 then Ok([])
    else
      var accepted := Accepted(correlationId, Head(batches));
      var entries := EntriesAsWritten(accepted);
      if entries.Err? then Err(entries.error)
      else
        var rest := CollectedAsWritten(correlationId, remaining - |accepted|, time - 1, Tail(batches));
        if rest.Err? then rest else Ok(entries.value + rest.value)
  }

  /**
   * As written, a report can never hold an entry: the loop succeeds exactly
   * when the corrected loop collects nothing.
   */
  lemma {:induction false} AsWrittenReportFailsOnFirstResult(correlationId: string, remaining: int, time: int,
                                                            batches: seq<seq<Notification>>)
    ensures CollectedAsWritten(correlationId, remaining, time, batches).Ok?
        <==> Collected(correlationId, remaining, time, batches) == []
    ensures CollectedAsWritten(correlationId, remaining, time, batches).Ok? ==>
              CollectedAsWritten(correlationId, remaining, time, batches).value == []
    decreases if time > 0 then time else 0
  {
    if remaining > 0 && time > 0 {
      var accepted := Accepted(correlationId, Head(batches));
      var later := Collected(correlationId, remaining - |accepted|, time - 1, Tail(batches));
      assert Collected(correlationId, remaining, time, batches) == Entries(accepted) + later;
      if |accepted| > 0 {
        assert EntriesAsWritten(accepted).Err?;
        assert |Entries(accepted) + later| > 0;
      } else {
        AsWrittenReportFailsOnFirstResult(correlationId, remaining - |accepted|, time - 1, Tail(batches));
        assert EntriesAsWritten(accepted) == Ok([]);
        assert Entries(accepted) + later == later;
      }
    }
  }
}
