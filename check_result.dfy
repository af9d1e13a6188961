/**
 * One entry of the newer releasability report: the check's name, the state
 * reported by the check, an optional message, and whether the state counts
 * as passed. Each state has a glyph used when the entry is rendered.
 */
module CheckResult {
  import opened Py

  const CheckOptionalPrefix: string := "\U{2713}"
  const SuccessPrefix: string := "\U{2705}"
  const FailurePrefix: string := "\U{274C}"
  const UnknownPrefix: string := "\U{2753}"

  const CheckPassed: string := "PASSED"
  const CheckNotRelevant: string := "NOT_RELEVANT"
  const CheckFailed: string := "ERROR"

  datatype CheckResult = CheckResult(name: string, state: string, message: Option<string>, passed: bool)

  /** The pass rule: only the two non-failing states pass. */
  function HasPassed(state: string): bool {
    match state
    case "PASSED" => true
    case "NOT_RELEVANT" => true
    case _ => false
  }

  /** The constructor: the fields as given, and `passed` from the pass rule. */
  function NewCheckResult(name: string, state: string, message: Option<string>): (r: CheckResult)
    ensures r.name == name && r.state == state && r.message == message
    ensures r.passed <==> state == CheckPassed || state == CheckNotRelevant
  {
    CheckResult(name, state, message, HasPassed(state))
  }

  /** The glyph shown in front of an entry. */
  function Prefix(state: string): (p: string)
    ensures p in {SuccessPrefix, CheckOptionalPrefix, FailurePrefix, UnknownPrefix}
  {
    match state
    case "PASSED" => SuccessPrefix
    case "NOT_RELEVANT" => CheckOptionalPrefix
    case "ERROR" => FailurePrefix
    case _ => UnknownPrefix
  }

  /** `str(result)`: glyph, name and note separated by single spaces. */
  function Render(c: CheckResult): string {
    var note := match c.message
      case Some(m) => " - " + m
      case None => "";
    Prefix(c.state) + " " + c.name + " " + note
  }

  /** The glyph and the pass rule agree: passing states get the two positive glyphs, and only they do. */
  lemma PrefixAgreesWithPassRule(state: string)
    ensures HasPassed(state) <==> Prefix(state) == SuccessPrefix || Prefix(state) == CheckOptionalPrefix
    ensures Prefix(state) == FailurePrefix <==> state == CheckFailed
  {
  }

  /** The failure state is spelled "ERROR"; "FAILED" and "ACK" are unknown states that do not pass. */
  lemma UnknownStates()
    ensures CheckFailed == "ERROR"
    ensures Prefix("FAILED") == UnknownPrefix && !HasPassed("FAILED")
    ensures Prefix("ACK") == UnknownPrefix && !HasPassed("ACK")
    ensures Prefix("ERROR") == FailurePrefix && !HasPassed("ERROR")
  {
  }

  /**
   * A rendered entry starts with its glyph and the name, and ends with the
   * note: with a message there are two spaces before the dash, without one
   * the line ends in a space.
   */
  lemma RenderLayout(c: CheckResult)
    ensures StartsWith(Render(c), Prefix(c.state) + " " + c.name + " ")
    ensures c.message.Some? ==> EndsWith(Render(c), c.name + "  - " + c.message.value)
    ensures c.message.None? ==> Render(c) == Prefix(c.state) + " " + c.name + " "
  {
    var head := Prefix(c.state) + " " + c.name + " ";
    assert Render(c)[..|head|] == head;
    if c.message.Some? {
      var tail := c.name + "  - " + c.message.value;
      assert Render(c) == Prefix(c.state) + " " + tail;
      assert Render(c)[|Render(c)| - |tail|..] == tail;
    }
  }
}
