/** The event status values stored in events.status, shared by every module. */
module EventTypes {
  datatype EventStatus = Submitted | Approved | Rejected | Planning | Confirmed | Completed | Cancelled

  // backend/src/events/cancel/cancel-rules.ts
  predicate IsCancellable(status: EventStatus) {
    status in {EventStatus.Submitted, EventStatus.Approved, EventStatus.Planning, EventStatus.Confirmed}
  }

  predicate IsTerminal(status: EventStatus) {
    status in {EventStatus.Rejected, EventStatus.Completed, EventStatus.Cancelled}
  }

  /** Nothing is both over and cancellable, and nothing neither. */
  lemma CancellableUnlessOver(status: EventStatus)
    ensures IsCancellable(status) <==>
      status != EventStatus.Rejected && status != EventStatus.Completed && status != EventStatus.Cancelled
    ensures IsTerminal(status) <==> !IsCancellable(status)
  {
  }
}
