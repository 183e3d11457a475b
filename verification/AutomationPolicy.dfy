/** What a run may do, and what happens when it fails: the pure decisions. */
module AutomationPolicy {

  datatype Trigger = Schedule | Manual | Monitor

  datatype Policy = Policy(preserveSchedule: bool, allowDisabled: bool, escalateFailures: bool)

  /** Only the schedule moves the schedule; only a person may run what is switched off. */
  function TriggerPolicy(trigger: Trigger): Policy {
    match trigger
    case Manual => Policy(true, true, false)
    case Monitor => Policy(true, false, true)
    case Schedule => Policy(false, false, true)
  }

  const MAX_ATTEMPTS := 3
  const DISABLE_AFTER_FAILURES := 5
  const BACKOFF_SCHEDULE: seq<int> := [60_000, 300_000]
  const MAX_BACKOFF := 900_000

  predicate ShouldRetry(attempt: nat) {
    1 <= attempt < MAX_ATTEMPTS
  }

  function RetryBackoff(attempt: nat): int {
    if attempt < 1 then BACKOFF_SCHEDULE[0]
    else
      var index := (if attempt < |BACKOFF_SCHEDULE| then attempt else |BACKOFF_SCHEDULE|) - 1;
      var wait := BACKOFF_SCHEDULE[index];
      if wait < MAX_BACKOFF then wait else MAX_BACKOFF
  }

  predicate ShouldDisable(consecutiveFailures: nat) {
    consecutiveFailures >= DISABLE_AFTER_FAILURES
  }
}
