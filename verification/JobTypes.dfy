/** What the two job registries share (feature/jobs/types.go). */
module JobTypes {
  import opened Outcomes

  type JobId = string
  type Time = int

  datatype JobStatus = Running | Stopping | Completed | Killed | Failed | OtherStatus(name: string) {
    predicate IsTerminal() {
      Completed? || Killed? || Failed?
    }
  }

  /** The statuses a job ends in, and those of a job that may still be running. */
  const ENDED: set<JobStatus> := {Completed, Killed, Failed}
  const LIVE: set<JobStatus> := {Running, Stopping}

  datatype Outcome = Outcome(status: JobStatus, detail: string, output: string)

  /** collect: what the producer's channel delivered, None for a channel closed without a value. */
  function Collected(received: Option<Outcome>): (outcome: Outcome)
    ensures outcome.status in ENDED
    ensures received.Some? && received.value.status in ENDED ==> outcome == received.value
    // What the producer got wrong is told apart.
    ensures received.None? ==>
      outcome == Outcome(Failed, "producer closed done without an outcome (producer contract violation)", "")
    ensures received.Some? && received.value.status !in ENDED ==>
      outcome == Outcome(Failed, "producer reported a non-terminal status (producer contract violation)", "")
  {
    match received
    case None => Outcome(Failed, "producer closed done without an outcome (producer contract violation)", "")
    case Some(outcome) =>
      if outcome.status.IsTerminal() then outcome
      else Outcome(Failed, "producer reported a non-terminal status (producer contract violation)", "")
  }
}
