/** The policy that turns the outcome of handling a claimed message into one write on the queue. */
module JobCompleter {
  import GoStrings
  import TimeText

  const MAX_ATTEMPTS: int := 3
  const INBOUND_LEASE: nat := 120 * TimeText.NANOS_PER_SECOND

  /** What handling a message ends with.  Whether an error text counts as retryable is left open. */
  datatype Handled = Success(reply: string) | Failure(cause: string, retryable: bool) | LeaseLost

  datatype Action = Complete(reply: string) | Retry(cause: string, delay: nat) | Fail(cause: string) | Nothing

  function Seconds(n: nat): nat { n * TimeText.NANOS_PER_SECOND }

  function RetryBackoff(attempt: int): nat {
    if attempt <= 1 then Seconds(1)
    else if attempt == 2 then Seconds(2)
    else if attempt == 3 then Seconds(5)
    else if attempt == 4 then Seconds(10)
    else if attempt == 5 then Seconds(20)
    else Seconds(30)
  }

  function HeartbeatInterval(leaseDuration: int): nat {
    if leaseDuration <= 0 then 0
    else
      var interval := leaseDuration / 3;
      if interval < Seconds(5) then Seconds(5) else if interval > Seconds(30) then Seconds(30) else interval
  }

  /** Retry while attempts remain; a limit of 0 or less means no limit. */
  predicate MayRetry(retryable: bool, attempt: int, maxAttempts: int) {
    retryable && (maxAttempts <= 0 || attempt < maxAttempts)
  }

  function Decide(outcome: Handled, attempt: int): Action {
    match outcome
    case Success(reply) => Complete(reply)
    case LeaseLost => Nothing
    case Failure(cause, retryable) =>
      if MayRetry(retryable, attempt, MAX_ATTEMPTS) then Retry(cause, RetryBackoff(attempt)) else Fail(cause)
  }

  function FailureReply(id: nat, cause: string): string {
    "Failed to process message " + GoStrings.Decimal(id) + ": " + cause
  }
}
