/**
 * The newer coordinator's report: an append-only list of check results,
 * rendered one entry per line, with a query telling whether any entry did
 * not pass.
 */
module ChecksReport {
  import opened Py
  import opened CheckResult

  const NewLine: string := "\n"

  /** The rendered entries, in order. */
  function Lines(checks: seq<CheckResult>): (r: seq<string>)
    ensures |r| == |checks|
    ensures forall i :: 0 <= i < |checks| ==> r[i] == Render(checks[i])
  {
    seq(|checks|, i requires 0 <= i < |checks| => Render(checks[i]))
  }

  /** `str(report)`: the rendered entries joined by newlines. */
  function RenderReport(checks: seq<CheckResult>): string {
    Join(Lines(checks), NewLine)
  }

  /** Whether some entry has `passed` other than true. */
  function AnyFailed(checks: seq<CheckResult>): (r: bool)
    ensures r <==> exists i :: 0 <= i < |checks| && !checks[i].passed
    decreases |checks|
  {
    if |checks| == 0 then false
    else
      var rest := AnyFailed(checks[1..]);
      assert forall i :: 1 <= i < |checks| ==> checks[i] == checks[1..][i - 1];
      !checks[0].passed || rest
  }

  class ChecksReport {
    var checks: seq<CheckResult>

    constructor()
      ensures checks == []
    {
      checks := [];
    }

    /** Appends one entry at the end. */
    method AddCheck(check: CheckResult)
      modifies this
      ensures checks == old(checks) + [check]
    {
      checks := checks + [check];
    }

    /** Every added entry, in insertion order, duplicates kept. */
    function GetChecks(): (r: seq<CheckResult>)
      reads this
      ensures |r| == |checks| && forall i :: 0 <= i < |r| ==> r[i] == checks[i]
    {
      checks
    }

    function ToString(): string
      reads this
    {
      RenderReport(checks)
    }

    /** True iff some entry did not pass. */
    function ContainsError(): (r: bool)
      reads this
      ensures r <==> exists i :: 0 <= i < |checks| && !checks[i].passed
    {
      AnyFailed(checks)
    }
  }

  /** An empty report renders as the empty text and holds no error. */
  lemma EmptyReport()
    ensures RenderReport([]) == ""
    ensures !AnyFailed([])
  {
  }

  /** Appending an entry adds one line after a newline, or the first line. */
  lemma RenderReportAppend(checks: seq<CheckResult>, c: CheckResult)
    ensures RenderReport(checks + [c])
         == if checks == [] then Render(c) else RenderReport(checks) + NewLine + Render(c)
  {
    assert Lines(checks + [c]) == Lines(checks) + [Render(c)];
    JoinAppend(Lines(checks), Render(c), NewLine);
  }

  /** Appending an entry adds an error exactly when that entry did not pass. */
  lemma AnyFailedAppend(checks: seq<CheckResult>, c: CheckResult)
    ensures AnyFailed(checks + [c]) <==> AnyFailed(checks) || !c.passed
  {
    assert (checks + [c])[|checks|] == c;
    assert forall i :: 0 <= i < |checks| ==> (checks + [c])[i] == checks[i];
  }

  /**
   * When no name or message holds a newline, splitting the rendered report
   * on newlines gives back each entry's line, in order.
   */
  lemma RenderReportLines(checks: seq<CheckResult>)
    requires |checks| > 0
    requires forall i :: 0 <= i < |checks| ==> '\n' !in Render(checks[i])
    ensures Split(RenderReport(checks), '\n') == Lines(checks)
  {
    SplitJoin(Lines(checks), '\n');
  }
}
