/** Job states of the queues (internal/jobstate/state.go). */
module JobStates {

  datatype JobState =
    | Pending | WaitingForWorker | Running | Retrying | KillRequested
    | Completed | Failed | Killed | Cancelled

  predicate IsTerminal(s: JobState) {
    s == Completed || s == Failed || s == Killed || s == Cancelled
  }
}
