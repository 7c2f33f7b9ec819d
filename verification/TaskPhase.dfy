/** The phases of a task. */
module TaskPhase {
  datatype Phase = Pending | Running | WaitingApproval | Succeeded | Failed | DeadLetter
}
