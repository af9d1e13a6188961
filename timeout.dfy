/** The strict time-budget predicate; the clock reading is a parameter. */
module Timeout {

  /** `has_exceeded_timeout`: the budget is exceeded strictly after `startedAt + maxSeconds`. */
  predicate HasExceededTimeout(now: real, startedAt: real, maxSeconds: int) {
    now > startedAt + maxSeconds as real
  }

  /** At the deadline exactly the budget is not exceeded; one second later it is; before it it is not. */
  lemma DeadlineBoundary(startedAt: real, maxSeconds: int)
    ensures !HasExceededTimeout(startedAt + maxSeconds as real, startedAt, maxSeconds)
    ensures HasExceededTimeout(startedAt + maxSeconds as real + 1.0, startedAt, maxSeconds)
    ensures forall now :: now <= startedAt + maxSeconds as real ==> !HasExceededTimeout(now, startedAt, maxSeconds)
  {
  }

  /** Once exceeded, the budget stays exceeded at every later reading. */
  lemma ExceededIsMonotone(t: real, later: real, startedAt: real, maxSeconds: int)
    requires HasExceededTimeout(t, startedAt, maxSeconds) && t <= later
    ensures HasExceededTimeout(later, startedAt, maxSeconds)
  {
  }
}
