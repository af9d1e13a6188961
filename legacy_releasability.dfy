/**
 * The older releasability coordinator. A pending releasability keeps a
 * dictionary from check name to the last verdict reported under that name;
 * it is terminated once as many distinct names as expected have reported.
 * The poll loop feeds every received notification to it for at most
 * `timeout` rounds and stops right after the round that terminates it.
 */
module LegacyReleasability {
  import opened Py
  import opened Json
  import opened ReleaseRequest
  import opened ReleasabilityInputs
  import VersionHelper

  const Ack: string := "ACK"
  const PassedGlyph: string := "\U{2705}"
  const NotRelevantGlyph: string := "\U{2713}"
  const FailedGlyph: string := "\U{274C}"
  const ReleasabilityFailed: string := "Releasability failed"

  /** A reported check: its type and the message when the notification had one. */
  datatype Check = Check(kind: string, message: Option<string>)

  /** What a check contributes: whether it passed, its glyph, and the message shown. */
  datatype Verdict = Verdict(passed: bool, emoji: string, message: Option<string>)

  /**
   * `Check.get_status_and_formatted_result`. The first test is Python's
   * `type in 'PASSED'`, a substring test: every substring of "PASSED",
   * the empty type included, passes.
   */
  function CheckVerdict(c: Check): (v: Verdict)
    ensures v.passed <==> Contains("PASSED", c.kind) || c.kind == "NOT_RELEVANT"
    ensures v.passed ==> v.message.None?
    ensures !v.passed ==> v.emoji == FailedGlyph && v.message == c.message
  {
    if Contains("PASSED", c.kind) then Verdict(true, PassedGlyph, None)
    else if c.kind == "NOT_RELEVANT" then Verdict(true, NotRelevantGlyph, None)
    else Verdict(false, FailedGlyph, c.message)
  }

  /** The substring test lets partial and empty types pass, with no message shown. */
  lemma SubstringOfPassedPasses()
    ensures CheckVerdict(Check("PASS", None)).passed
    ensures CheckVerdict(Check("", None)).passed
    ensures CheckVerdict(Check("ED", Some("x"))).passed && CheckVerdict(Check("ED", Some("x"))).message.None?
  {
    ContainsIffOccurs("PASSED", "PASS");
    assert OccursAt("PASSED", "PASS", 0);
    ContainsIffOccurs("PASSED", "");
    assert OccursAt("PASSED", "", 0);
    ContainsIffOccurs("PASSED", "ED");
    assert OccursAt("PASSED", "ED", 4);
  }

  /** "FAILED" and "ERROR" fail; "NOT_RELEVANT" passes with its own glyph. */
  lemma FailedAndErrorFail()
    ensures !CheckVerdict(Check("FAILED", None)).passed
    ensures !CheckVerdict(Check("ERROR", Some("broken"))).passed
    ensures CheckVerdict(Check("NOT_RELEVANT", None)).emoji == NotRelevantGlyph
  {
    ContainsChars("PASSED", "FAILED");
    assert "FAILED"[0] !in "PASSED";
    ContainsChars("PASSED", "ERROR");
    assert "ERROR"[1] !in "PASSED";
    ContainsChars("PASSED", "NOT_RELEVANT");
    assert "NOT_RELEVANT"[0] !in "PASSED";
  }

  // -----------------------------------------------------------------------
  // The checks dictionary: insertion-ordered, as a Python dict

  type Checks = seq<(string, Check)>

  predicate Distinct(names: seq<string>) {
    forall i, j :: 0 <= i < j < |names| ==> names[i] != names[j]
  }

  /** The check stored under `name`. */
  function Find(d: Checks, name: string): Option<Check>
    decreases |d|
  {
    if |d| == 0 then None
    else if d[0].0 == name then Some(d[0].1)
    else Find(d[1..], name)
  }

  /** `d[name] = c`: an existing name keeps its position and gets the new value, a new name goes last. */
  function Put(d: Checks, name: string, c: Check): Checks
    decreases |d|
  {
    if |d| == 0 then [(name, c)]
    else if d[0].0 == name then [(name, c)] + d[1..]
    else [d[0]] + Put(d[1..], name, c)
  }

  /** Storing keeps the order of the names and adds the name at the end when it is new. */
  lemma {:induction false} PutNames(d: Checks, name: string, c: Check)
    ensures Keys(Put(d, name, c)) == if name in Keys(d) then Keys(d) else Keys(d) + [name]
    decreases |d|
  {
    if |d| > 0 {
      PutNames(d[1..], name, c);
      assert Keys(d) == [d[0].0] + Keys(d[1..]);
      if d[0].0 != name {
        assert Keys(Put(d, name, c)) == [d[0].0] + Keys(Put(d[1..], name, c));
      } else {
        assert Keys(Put(d, name, c)) == [name] + Keys(d[1..]);
      }
    }
  }

  /** After storing, the name finds the new check and every other name finds what it found before. */
  lemma {:induction false} PutFind(d: Checks, name: string, c: Check, other: string)
    ensures Find(Put(d, name, c), name) == Some(c)
    ensures other != name ==> Find(Put(d, name, c), other) == Find(d, other)
    decreases |d|
  {
    if |d| > 0 && d[0].0 != name {
      PutFind(d[1..], name, c, other);
    }
  }

  /** The names of the dictionary stay distinct, so its size is the number of distinct names stored. */
  lemma PutDistinct(d: Checks, name: string, c: Check)
    requires Distinct(Keys(d))
    ensures Distinct(Keys(Put(d, name, c)))
    ensures |Put(d, name, c)| == |d| + (if name in Keys(d) then 0 else 1)
  {
    PutNames(d, name, c);
  }

  /** The notifications a pending releasability takes into account. */
  predicate IsAccepted(uuid: string, msg: Notification) {
    msg.requestUUID == uuid && msg.kind != Ack
  }

  /**
   * The check a notification is stored as: its `message` when the key is
   * present, else the default `None`; so an absent key and a JSON `null`
   * store the same check.
   */
  function Reported(msg: Notification): Check {
    Check(msg.kind, if msg.message.Some? then msg.message.value else None)
  }

  /** `process_notification` on a dictionary. */
  function Processed(uuid: string, d: Checks, msg: Notification): Checks {
    if IsAccepted(uuid, msg) then Put(d, msg.checkName, Reported(msg)) else d
  }

  /** A received batch processed in order. */
  function ProcessedAll(uuid: string, d: Checks, msgs: seq<Notification>): Checks
    decreases |msgs|
  {
    if |msgs| == 0 then d else ProcessedAll(uuid, Processed(uuid, d, msgs[0]), msgs[1..])
  }

  lemma ProcessedAllAppend(uuid: string, d: Checks, msgs: seq<Notification>, m: Notification)
    ensures ProcessedAll(uuid, d, msgs + [m]) == Processed(uuid, ProcessedAll(uuid, d, msgs), m)
    decreases |msgs|
  {
    if |msgs| > 0 {
      assert (msgs + [m])[1..] == msgs[1..] + [m];
      ProcessedAllAppend(uuid, Processed(uuid, d, msgs[0]), msgs[1..], m);
    }
  }

  /** `is_terminated`: some check reported, and as many distinct names as expected. */
  predicate Terminated(d: Checks, checksCount: int) {
    |d| > 0 && |d| == checksCount
  }

  /** With no check expected the pending releasability can never terminate. */
  lemma ZeroCountNeverTerminates(d: Checks)
    ensures !Terminated(d, 0)
  {
  }

  /** The line shown for one check: glyph and name, then " - message" when the message is not empty. */
  function ResultLine(name: string, c: Check): string {
    var v := CheckVerdict(c);
    v.emoji + " " + name + (if v.message.Some? && v.message.value != "" then " - " + v.message.value else "")
  }

  function ResultLines(d: Checks): (r: seq<string>)
    ensures |r| == |d|
    ensures forall i :: 0 <= i < |d| ==> r[i] == ResultLine(d[i].0, d[i].1)
  {
    seq(|d|, i requires 0 <= i < |d| => ResultLine(d[i].0, d[i].1))
  }

  /** The overall status: every check passed. */
  predicate AllPassed(d: Checks) {
    forall i :: 0 <= i < |d| ==> CheckVerdict(d[i].1).passed
  }

  /** A passed check is shown without message; a failed one with its message unless that is empty. */
  lemma ResultLineForms(name: string, c: Check)
    ensures CheckVerdict(c).passed ==> ResultLine(name, c) == CheckVerdict(c).emoji + " " + name
    ensures !CheckVerdict(c).passed && c.message.Some? && c.message.value != ""
            ==> ResultLine(name, c) == FailedGlyph + " " + name + " - " + c.message.value
    ensures !CheckVerdict(c).passed && (c.message.None? || c.message.value == "")
            ==> ResultLine(name, c) == FailedGlyph + " " + name
  {
  }

  class PendingReleasability {
    const uuid: string
    var checks: Checks
    const checksCount: int
    const timeout: int

    /** The dictionary never holds a name twice. */
    ghost predicate Valid()
      reads this
    {
      Distinct(Keys(checks))
    }

    constructor(uuid: string, checksCount: int, timeout: int)
      ensures this.uuid == uuid && this.checksCount == checksCount && this.timeout == timeout
      ensures checks == [] && Valid()
    {
      this.uuid := uuid;
      checks := [];
      this.checksCount := checksCount;
      this.timeout := timeout;
    }

    /** `process_notification`: another request's notification or an acknowledgement changes nothing. */
    method ProcessNotification(msg: Notification)
      requires Valid()
      modifies this
      ensures Valid()
      ensures checks == Processed(uuid, old(checks), msg)
    {
      if msg.requestUUID == uuid {
        var checkType := msg.kind;
        if checkType != Ack {
          var check := if msg.message.Some? then Check(checkType, msg.message.value) else Check(checkType, None);
          PutDistinct(checks, msg.checkName, check);
          checks := Put(checks, msg.checkName, check);
        }
      }
    }

    function IsTerminated(): (r: bool)
      reads this
      ensures r <==> Terminated(checks, checksCount)
    {
      if |checks| == 0 then false
      else if |checks| != checksCount then false
      else true
    }

    /** `get_status_and_formatted_result`: the conjunction of the verdicts and the lines in insertion order. */
    method GetStatusAndFormattedResult() returns (status: bool, text: string)
      ensures status <==> AllPassed(checks)
      ensures text == Join(ResultLines(checks), "\n")
    {
      status := true;
      var formattedResult: seq<string> := [];
      var i := 0;
      while i < |checks|
        invariant 0 <= i <= |checks|
        invariant status <==> forall j :: 0 <= j < i ==> CheckVerdict(checks[j].1).passed
        invariant formattedResult == ResultLines(checks[..i])
      {
        var (checkName, check) := checks[i];
        var v := CheckVerdict(check);
        if !v.passed {
          status := false;
        }
        var checkResult := v.emoji + " " + checkName;
        checkResult := checkResult + (if v.message.Some? && v.message.value != "" then " - " + v.message.value else "");
        formattedResult := formattedResult + [checkResult];
        assert checks[..i + 1] == checks[..i] + [checks[i]];
        i := i + 1;
      }
      assert checks[..|checks|] == checks;
      text := Join(formattedResult, "\n");
    }
  }

  /** The inner loop of one round: every received notification, in order. */
  method ProcessBatch(p: PendingReleasability, msgs: seq<Notification>)
    requires p.Valid()
    modifies p
    ensures p.Valid()
    ensures p.checks == ProcessedAll(p.uuid, old(p.checks), msgs)
  {
    var j := 0;
    while j < |msgs|
      invariant 0 <= j <= |msgs|
      invariant p.Valid()
      invariant p.checks == ProcessedAll(p.uuid, old(p.checks), msgs[..j])
    {
      p.ProcessNotification(msgs[j]);
      assert msgs[..j + 1] == msgs[..j] + [msgs[j]];
      ProcessedAllAppend(p.uuid, old(p.checks), msgs[..j], msgs[j]);
      j := j + 1;
    }
    assert msgs[..|msgs|] == msgs;
  }

  /**
   * The poll loop on values: the dictionary after the rounds made with `i`
   * rounds left, and the number of rounds; the i-th receive returns the
   * i-th batch (an empty one past the end).
   */
  function Polled(uuid: string, checksCount: int, d: Checks, i: int, batches: seq<seq<Notification>>): (Checks, nat)
    decreases if i > 0 then i else 0
  {
    if i <= 0 then (d, 0)
    else
      var d1 := ProcessedAll(uuid, d, if |batches| > 0 then batches[0] else []);
      if Terminated(d1, checksCount) then (d1, 1)
      else
        var rest := Polled(uuid, checksCount, d1, i - 1, if |batches| > 0 then batches[1..] else []);
        (rest.0, rest.1 + 1)
  }

  /** `_get_releasability_status`: poll, then compute status and report. */
  method GetReleasabilityStatus(p: PendingReleasability, batches: seq<seq<Notification>>)
    returns (status: bool, text: string, rounds: nat)
    requires p.Valid()
    modifies p
    ensures p.Valid()
    ensures (p.checks, rounds) == Polled(p.uuid, p.checksCount, old(p.checks), p.timeout, batches)
    ensures status <==> AllPassed(p.checks)
    ensures text == Join(ResultLines(p.checks), "\n")
  {
    var moreMessages := true;
    var i := p.timeout;
    var unread := batches;
    rounds := 0;
    while moreMessages && i > 0
      invariant p.Valid()
      invariant moreMessages ==>
        Polled(p.uuid, p.checksCount, old(p.checks), p.timeout, batches)
        == (Polled(p.uuid, p.checksCount, p.checks, i, unread).0, Polled(p.uuid, p.checksCount, p.checks, i, unread).1 + rounds)
      invariant !moreMessages ==> Polled(p.uuid, p.checksCount, old(p.checks), p.timeout, batches) == (p.checks, rounds)
      decreases if moreMessages then i + 1 else 0
    {
      i := i - 1;
      var messages := if |unread| > 0 then unread[0] else [];
      unread := if |unread| > 0 then unread[1..] else [];
      ProcessBatch(p, messages);
      rounds := rounds + 1;
      moreMessages := !p.IsTerminated();
    }
    status, text := p.GetStatusAndFormattedResult();
  }

  // -----------------------------------------------------------------------
  // Properties of processing and polling

  /** The last notification under a name wins; other names are untouched. */
  lemma LastReportWins(uuid: string, d: Checks, msg: Notification, other: string)
    requires IsAccepted(uuid, msg)
    ensures Find(Processed(uuid, d, msg), msg.checkName) == Some(Reported(msg))
    ensures other != msg.checkName ==> Find(Processed(uuid, d, msg), other) == Find(d, other)
  {
    PutFind(d, msg.checkName, Reported(msg), other);
  }

  /** No acknowledgement is ever stored. */
  predicate NoAck(d: Checks) {
    forall k :: 0 <= k < |d| ==> d[k].1.kind != Ack
  }

  lemma {:induction false} PutNoAck(d: Checks, name: string, c: Check)
    requires NoAck(d) && c.kind != Ack
    ensures NoAck(Put(d, name, c))
    decreases |d|
  {
    if |d| > 0 && d[0].0 != name {
      PutNoAck(d[1..], name, c);
      assert Put(d, name, c) == [d[0]] + Put(d[1..], name, c);
    }
  }

  lemma {:induction false} ProcessedAllNoAck(uuid: string, d: Checks, msgs: seq<Notification>)
    requires NoAck(d)
    ensures NoAck(ProcessedAll(uuid, d, msgs))
    decreases |msgs|
  {
    if |msgs| > 0 {
      if IsAccepted(uuid, msgs[0]) {
        PutNoAck(d, msgs[0].checkName, Reported(msgs[0]));
      }
      ProcessedAllNoAck(uuid, Processed(uuid, d, msgs[0]), msgs[1..]);
    }
  }

  /** Polling from an empty dictionary never stores an acknowledgement. */
  lemma {:induction false} PolledNoAck(uuid: string, checksCount: int, d: Checks, i: int, batches: seq<seq<Notification>>)
    requires NoAck(d)
    ensures NoAck(Polled(uuid, checksCount, d, i, batches).0)
    decreases if i > 0 then i else 0
  {
    if i > 0 {
      var d1 := ProcessedAll(uuid, d, if |batches| > 0 then batches[0] else []);
      ProcessedAllNoAck(uuid, d, if |batches| > 0 then batches[0] else []);
      PolledNoAck(uuid, checksCount, d1, i - 1, if |batches| > 0 then batches[1..] else []);
    }
  }

  /**
   * The dictionary after `k` rounds of receiving, whether or not it
   * terminated earlier; an exhausted queue gives empty batches.
   */
  function AfterRounds(uuid: string, d: Checks, k: nat, batches: seq<seq<Notification>>): Checks
    decreases k
  {
    if k == 0 then d
    else AfterRounds(uuid, ProcessedAll(uuid, d, if |batches| > 0 then batches[0] else []), k - 1, if |batches| > 0 then batches[1..] else [])
  }

  /**
   * At most `timeout` rounds, at least one when there is time; fewer rounds
   * than the budget only when the last round terminated the releasability.
   * The loop stops at the first terminating round: the final dictionary is
   * the one after `rounds` rounds, and none of the earlier ones terminated.
   */
  lemma {:induction false} PolledRounds(uuid: string, checksCount: int, d: Checks, i: int, batches: seq<seq<Notification>>)
    ensures var (final, rounds) := Polled(uuid, checksCount, d, i, batches);
      && rounds <= (if i > 0 then i else 0)
      && (i > 0 ==> rounds >= 1)
      && (rounds < i ==> Terminated(final, checksCount))
      && final == AfterRounds(uuid, d, rounds, batches)
      && (forall j :: 1 <= j < rounds ==> !Terminated(AfterRounds(uuid, d, j, batches), checksCount))
    decreases if i > 0 then i else 0
  {
    if i > 0 {
      var tail := if |batches| > 0 then batches[1..] else [];
      var d1 := ProcessedAll(uuid, d, if |batches| > 0 then batches[0] else []);
      assert AfterRounds(uuid, d, 1, batches) == d1;
      if !Terminated(d1, checksCount) {
        PolledRounds(uuid, checksCount, d1, i - 1, tail);
        var rounds := Polled(uuid, checksCount, d, i, batches).1;
        forall j | 1 <= j < rounds
          ensures !Terminated(AfterRounds(uuid, d, j, batches), checksCount)
        {
          assert AfterRounds(uuid, d, j, batches) == AfterRounds(uuid, d1, j - 1, tail);
        }
      }
    }
  }


  /** With no check expected the loop always uses the whole budget. */
  lemma ZeroCountPollsWholeBudget(uuid: string, d: Checks, i: int, batches: seq<seq<Notification>>)
    requires i >= 0
    ensures Polled(uuid, 0, d, i, batches).1 == i
  {
    PolledRounds(uuid, 0, d, i, batches);
    ZeroCountNeverTerminates(Polled(uuid, 0, d, i, batches).0);
  }

  /**
   * Names count once: one check reporting twice stores one entry, so an
   * expected count of two is never reached and every round is used.
   */
  lemma RepeatedNameCountsOnce(m: Notification)
    requires IsAccepted(m.requestUUID, m)
    ensures Polled(m.requestUUID, 2, [], 3, [[m, m]]) == ([(m.checkName, Reported(m))], 3)
  {
    var u := m.requestUUID;
    var d1 := [(m.checkName, Reported(m))];
    assert ProcessedAll(u, [], [m, m]) == d1 by {
      assert [m, m][1..] == [m];
      assert Processed(u, [], m) == d1;
      assert Processed(u, d1, m) == d1;
    }
    assert ProcessedAll(u, d1, []) == d1;
    assert Polled(u, 2, d1, 0, []) == (d1, 0);
    assert Polled(u, 2, d1, 1, []) == (d1, 1);
    assert Polled(u, 2, d1, 2, []) == (d1, 2);
  }

  // -----------------------------------------------------------------------
  // The coordinator

  const LegacyRequestKeys: seq<string> :=
    ["uuid", "responseToARN", "repoSlug", "version", "vcsRevision", "artifactoryBuildNumber"]

  /** The optional members of the trigger request, present only when truthy. */
  function OptionalMembers(branchName: string, prNumber: Json): seq<(string, Json)> {
    (if branchName != "" then [("branchName", JStr(branchName))] else [])
    + (if Truthy(prNumber) then [("prNumber", prNumber)] else [])
  }

  /** The six members every trigger request has. */
  function FixedMembers(releasabilityId: string, responseToArn: string, repoSlug: string, version: string,
                        revision: string, buildNumber: int): seq<(string, Json)>
  {
    [("uuid", JStr(releasabilityId)),
     ("responseToARN", JStr(responseToArn)),
     ("repoSlug", JStr(repoSlug)),
     ("version", JStr(version)),
     ("vcsRevision", JStr(revision)),
     ("artifactoryBuildNumber", JNum(buildNumber))]
  }

  /** The members of the trigger request, in insertion order. */
  function LegacyRequest(releasabilityId: string, responseToArn: string, repoSlug: string, version: string,
                         revision: string, buildNumber: int, branchName: string, prNumber: Json): seq<(string, Json)>
  {
    FixedMembers(releasabilityId, responseToArn, repoSlug, version, revision, buildNumber)
    + OptionalMembers(branchName, prNumber)
  }

  /** The six fixed members come in their order, and none of them is `branchName`. */
  lemma FixedMembersKeys(releasabilityId: string, responseToArn: string, repoSlug: string, version: string,
                         revision: string, buildNumber: int)
    ensures var f := FixedMembers(releasabilityId, responseToArn, repoSlug, version, revision, buildNumber);
      && Keys(f) == LegacyRequestKeys
      && "branchName" !in Keys(f)
  {
    var f := FixedMembers(releasabilityId, responseToArn, repoSlug, version, revision, buildNumber);
    assert Keys(f) == LegacyRequestKeys;
    assert forall k :: k in LegacyRequestKeys ==> k[0] != 'b';
  }

  lemma FixedMembersFields(releasabilityId: string, responseToArn: string, repoSlug: string, version: string,
                           revision: string, buildNumber: int)
    ensures var f := FixedMembers(releasabilityId, responseToArn, repoSlug, version, revision, buildNumber);
      && Lookup(f, "uuid") == Some(JStr(releasabilityId))
      && Lookup(f, "responseToARN") == Some(JStr(responseToArn))
      && Lookup(f, "artifactoryBuildNumber") == Some(JNum(buildNumber))
  {
    var f := FixedMembers(releasabilityId, responseToArn, repoSlug, version, revision, buildNumber);
    LookupAt(f, 0);
    LookupAt(f, 1);
    LookupAt(f, 5);
  }

  lemma OptionalMembersFields(branchName: string, prNumber: Json)
    ensures var opt := OptionalMembers(branchName, prNumber);
      && Keys(opt) == (if branchName != "" then ["branchName"] else []) + (if Truthy(prNumber) then ["prNumber"] else [])
      && Lookup(opt, "branchName") == (if branchName != "" then Some(JStr(branchName)) else None)
  {
  }

  /**
   * The request holds the six fixed members, then `branchName` and
   * `prNumber` only when truthy; the build number is an integer.
   */
  lemma LegacyRequestFields(releasabilityId: string, responseToArn: string, repoSlug: string, version: string,
                            revision: string, buildNumber: int, branchName: string, prNumber: Json)
    ensures var f := LegacyRequest(releasabilityId, responseToArn, repoSlug, version, revision, buildNumber, branchName, prNumber);
      && Keys(f) == LegacyRequestKeys + (if branchName != "" then ["branchName"] else [])
                                      + (if Truthy(prNumber) then ["prNumber"] else [])
      && Lookup(f, "uuid") == Some(JStr(releasabilityId))
      && Lookup(f, "responseToARN") == Some(JStr(responseToArn))
      && Lookup(f, "artifactoryBuildNumber") == Some(JNum(buildNumber))
      && Lookup(f, "branchName") == (if branchName != "" then Some(JStr(branchName)) else None)
  {
    var base := FixedMembers(releasabilityId, responseToArn, repoSlug, version, revision, buildNumber);
    var opt := OptionalMembers(branchName, prNumber);
    FixedMembersKeys(releasabilityId, responseToArn, repoSlug, version, revision, buildNumber);
    FixedMembersFields(releasabilityId, responseToArn, repoSlug, version, revision, buildNumber);
    OptionalMembersFields(branchName, prNumber);
    KeysAppend(base, opt);
    LookupAppend(base, opt, "uuid");
    LookupAppend(base, opt, "responseToARN");
    LookupAppend(base, opt, "artifactoryBuildNumber");
    LookupAppend(base, opt, "branchName");
    assert Lookup(base + opt, "branchName") == Lookup(opt, "branchName");
    AppendAssoc(LegacyRequestKeys, if branchName != "" then ["branchName"] else [], if Truthy(prNumber) then ["prNumber"] else []);
  }

  class Releasability {
    const envType: string
    const releaseRequest: ReleaseRequest
    const snsInputArn: string
    const snsOutputArn: string

    /** The coordinator with the trigger and result topics read from the parameter store. */
    constructor(envType: string, releaseRequest: ReleaseRequest, snsInputArn: string, snsOutputArn: string)
      ensures this.envType == envType && this.releaseRequest == releaseRequest
      ensures this.snsInputArn == snsInputArn && this.snsOutputArn == snsOutputArn
    {
      this.envType := envType;
      this.releaseRequest := releaseRequest;
      this.snsInputArn := snsInputArn;
      this.snsOutputArn := snsOutputArn;
    }

    /**
     * `_start_releasability`: the publication to the trigger topic;
     * `releasabilityId` is the fresh identifier the code draws. A build
     * number that is no integer raises first. An absent branch is "".
     */
    function StartReleasability(releasabilityId: string, version: string, revision: string,
                                branchName: string, prNumber: Json): Result<Publication>
    {
      var buildNumber :- ParseInt(releaseRequest.buildnumber);
      var request := LegacyRequest(releasabilityId, snsOutputArn, releaseRequest.org + "/" + releaseRequest.project,
                                   version, revision, buildNumber, branchName, prNumber);
      Ok(Publication(snsInputArn, JObj(request)))
    }

    /**
     * `check`: normalise the version, start, learn the expected count and
     * budget, poll, and raise when the status is false. On success the
     * printed report is returned.
     */
    method Check(version: string, branch: string, gitSha1: string, releasabilityId: string,
                 functionPages: seq<Page<LambdaFunction>>, subscriptionPages: seq<Page<Subscription>>,
                 batches: seq<seq<Notification>>)
      returns (r: Result<string>, published: seq<Publication>)
      ensures var v := VersionHelper.StandardizedVersion(releaseRequest.(version := version));
        var start := StartReleasability(releasabilityId, v, gitSha1, branch, JNull);
        var counts := ChecksCountAndMaxTimeout(Drained(functionPages), Drained(subscriptionPages));
        && (start.Err? ==> r == Err(start.error) && published == [])
        && (start.Ok? ==> published == [start.value])
        && (start.Ok? && counts.Err? ==> r == Err(counts.error))
        && (start.Ok? && counts.Ok? ==>
              var final := Polled(releasabilityId, counts.value.0, [], counts.value.1, batches).0;
              && (r.Ok? <==> AllPassed(final))
              && (r.Err? ==> r.error == Raised("Exception", ReleasabilityFailed))
              && (r.Ok? ==> r.value == Join(ResultLines(final), "\n")))
    {
      var v := VersionHelper.StandardizedVersion(releaseRequest.(version := version));
      var start := StartReleasability(releasabilityId, v, gitSha1, branch, JNull);
      if start.Err? {
        return Err(start.error), [];
      }
      published := [start.value];
      var counts := GetChecksCountAndMaxTimeout(functionPages, subscriptionPages);
      if counts.Err? {
        return Err(counts.error), published;
      }
      var pending := new PendingReleasability(releasabilityId, counts.value.0, counts.value.1);
      var status, result, _ := GetReleasabilityStatus(pending, batches);
      if !status {
        return Err(Raised("Exception", ReleasabilityFailed)), published;
      }
      r := Ok(result);
    }
  }

  /** Starting publishes the request above to the trigger topic, or raises on a non-integer build number. */
  lemma StartPublishesRequest(c: Releasability, releasabilityId: string, version: string, revision: string,
                              branchName: string, prNumber: Json)
    ensures var s := c.StartReleasability(releasabilityId, version, revision, branchName, prNumber);
      var n := ParseInt(c.releaseRequest.buildnumber);
      && (s.Ok? <==> n.Ok?)
      && (s.Ok? ==> s.value == Publication(c.snsInputArn, JObj(LegacyRequest(releasabilityId, c.snsOutputArn,
                       c.releaseRequest.org + "/" + c.releaseRequest.project, version, revision, n.value, branchName, prNumber))))
  {
  }
}
