/** Vocabulary shared by the components: run and job states, execution results, options. */
module Domain {

  datatype Option<+T> = None | Some(value: T)

  /** Run states (internal/runstate/state.go). */
  datatype RunState =
    | Pending | WaitingForWorker | Queued | Running | Retrying | KillRequested
    | Completed | Failed | Hung | Killed | Skipped | Cancelled | Paused | WaitingForChoice

  /** Terminal with no retry to come.  `Hung` is deliberately not among them. */
  predicate IsFinalTerminal(s: RunState) {
    s == Completed || s == Failed || s == Killed || s == Skipped || s == Cancelled
  }

  /** States after which a fixed-delay process gets its next run. */
  predicate ContinuesFixedDelayChain(s: RunState) {
    s == Completed || s == Failed || s == Hung || s == Killed || s == Cancelled
  }

  /** A run no execution will touch again: final terminal, or written off as hung. */
  predicate IsDead(s: RunState) {
    IsFinalTerminal(s) || s == Hung
  }

  /** Waiting for its first start. */
  predicate IsWaiting(s: RunState) {
    s == Pending || s == Queued
  }

  /** What the cancel handlers write for the state they read; None where they only report it. */
  function CancelWrite(seen: RunState): Option<RunState> {
    if seen == Pending || seen == Queued || seen == WaitingForWorker || seen == Paused || seen == Retrying then Some(Cancelled)
    else if seen == Running then Some(KillRequested)
    else None
  }

  function Max(a: int, b: int): int {
    if a < b then b else a
  }

  function Min(a: int, b: int): int {
    if a < b then a else b
  }
}
