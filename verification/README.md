# ConnectSphere backend: verified model

ConnectSphere runs an event from request to completion: an organiser submits a draft, a coordinator plans it with venue
staff, technical support and the Safety Officer, attendees register, and the event is confirmed, completed or cancelled.
Its backend is a set of transactions, each under a row lock, plus pure rule modules that have to agree with each other.
This project models each transaction as one atomic step on an explicit state and proves what every run keeps.

Each stateful component comes in two layers: transition functions over a state datatype, about which the laws are
proved, and a class whose methods update the same fields step by step, loops included, and are proved equal to those
functions. The modules named Effects say for each operation, in terms of the stored columns and the request alone,
exactly when it is accepted, why it is refused and what it writes, so that no transition can be another one unnoticed.
`dafny verify dfyconfig.toml` checks everything.

| file | content |
|---|---|
| `Waitlist.dfy`, `Registrations.dfy`, `RegistrationEffects.dfy` | waiting list order and promotion; registering, joining, withdrawing, settings, closing; when each is accepted and what it writes |
| `Sums.dfy`, `EquipmentStock.dfy`, `EquipmentEffects.dfy`, `StockBound.dfy`, `EquipmentRequests.dfy` | the stock allocator over all events; when each transaction is accepted and what it writes; the per-instant bound; the repository |
| `EventImpact.dfy`, `PlanningHistory.dfy`, `PlanningEffects.dfy`, `EventPlanning.dfy` | advertised edit conditions; the change engine and its log; what it does to each field; the service |
| `ChangeRequests.dfy`, `RequestEffects.dfy` | organiser change requests and their audit; when each step is accepted and what it writes |
| `Lists.dfy`, `Arrangements.dfy`, `Readiness.dfy`, `Checklist.dfy`, `QueueIndicators.dfy`, `ReadModels.dfy` | the derived read models, their agreement, and what they show of each row |
| `SafetyGate.dfy`, `SafetyEffects.dfy`, `EventLifecycle.dfy` | status history, safety check, triggers, the confirm gate; when each step is accepted and what it writes; the methods |
| `Cancellation.dfy`, `CancellationRequests.dfy` | the all-or-nothing cancellation; the organiser's request protocol |
| `Drafts.dfy`, `LeadAssignment.dfy`, `CsvExport.dfy` | optimistic draft saving; notices that follow an assignment; the CSV report and an RFC 4180 reader |
| `Wrappers.dfy`, `EventTypes.dfy` | optional values; event statuses |

Times are integers (instants), identifiers are naturals, strings are sequences of characters. The clock, fresh
identifiers, the safety feedback's selections, validation verdicts and faults inside a releaser are parameters, so every
statement holds for all of them. Users are given; role checks are left out.

## Where the code differs from what is written about it

The model follows the code. Where a promise in a comment, document or test is not what the code does, a lemma gives the
exact condition or an input:

- The Waitlist section of `backend/README.md` says that joining removes the entries of a closed list. A join on a closed
  list throws, and the throw rolls the settling back (`JoinKeepsOtherRows`). The same section calls the waiting-list
  cancel releaser "not yet wired"; `release.registry.ts` registers it.
- The position a join returns is the number now waiting exactly when no waiting entry joined after this instant
  (`JoinPosition`): the order relies on the injected clock not going back. `EarlierClockIsReached` runs a queue whose
  waiter joined at 10 and a join at 5, which gets position 1 of 2.
- The readiness rule says no booking is never vacuously approved. A non-empty list of only released bookings is
  (`ReleasedBookingsAskForNothing`), and the checklist disagrees with it on exactly those snapshots
  (`ChecklistAgreesWithConfirm`). Over whole runs the gap is closed by the freshness of the safety check (`ConfirmGate`).
- Cannot Provide is described as fully freeing the equipment. It does exactly when the request was not decided line by
  line or held nothing (`CannotProvideFreesEverything`); `CannotProvideLeavesALine` is a run, from an empty system,
  after which a refused request still holds a Reserved line.
- A cancelled event's released equipment lines come back to Reserved exactly when its still pending request is reserved
  (`OnlyReserveRevives`, `ReserveIgnoresCancellation`).
- The queue marks each equipment item sufficient on its own; two lines of one name can both be sufficient while the
  reservation is refused (`SameNameTwiceMisleads`). The marks decide under every inventory if and only if the listed
  names are distinct (`MarksAgreeIffDistinct`).
- When only one edge of a time moves, the update form says yes exactly when the server applies the move and the event's
  other edge lies inside every window (`HalfMovedStart`, `HalfMovedEnd`). So the two agree whenever the server holds the
  move back, and differ exactly when it applies one whose other edge is outside (`FormAndServerDisagree`).
- The planning log replays to the stored event up to the order of choice lists. It is exact throughout a run if and only
  if no step approves a change request that rewrites a list in another order (`ReplayStaysExact`, `RunReplaysExactly`);
  `ReorderedApprovalEscapesTheLog` is a run in which one does.
- A decision on a whole change does not read what single bookings decided, so a confirmation applies it even when one of
  them was already rejected (`WholeConfirmOverridesBookings`).
- A comment on draft submission says that the submitted snapshot must match the saved draft. The event's fields do, but
  its start and end are those of the submit request, and nothing compares them with the draft
  (`SubmissionCreatesTheEvent`, `EventDatesWereSubmitted`).
- Reassignment does not clear the former coordinator's unread safety response (`SafetyResponseStaysBehind`).

## Model

| member | source | states |
|---|---|---|
| Waitlist.FrontSize | backend/src/registrations/waitlist/position.ts:10-14 | positions by (joined_at, waitlist_seq) are gapless: k places reach exactly the first k entries, or all of them |
| Waitlist.PromotionMovesEveryoneUp | backend/src/registrations/waitlist/promotion.ts:17-55 | promoting a number of entries moves every remaining entry up by exactly that number |
| Waitlist.PromoteOne | backend/src/registrations/waitlist/promotion.ts:34-45 | promoting the first waiting entry extends the promoted front by exactly one position |
| Waitlist.PromotedSizes | backend/src/registrations/waitlist/promotion.ts:25-54 | promotion fills as many places as there are free places or waiting entries, and empties the list by the same number |
| Registrations.CapacityAndQueueHold | backend/src/registrations/registrations.service.ts:53-326 | over every run Registered rows never exceed the limit, and an entry waits only while the event is exactly full |
| Registrations.NoOvertaking | backend/src/registrations/registrations.service.ts:134-203 | under a join clock that does not go back, while an attendee waits only former holders and people ahead can come to hold a place, and the attendee's position never increases |
| Registrations.StepIsFair | backend/src/registrations/registrations.service.ts:53-326 | one step lets in only former holders and people ahead of a given waiter, and puts nobody new ahead |
| Registrations.JoinPosition | backend/src/registrations/registrations.service.ts:177-203 | a join, and a rejoin, adds exactly one waiter and returns the number now waiting if and only if nobody waiting joined later |
| Registrations.EarlierClockIsReached | backend/src/registrations/registrations.service.ts:177-203 | a reachable queue in which a join under an earlier clock gets position 1 of 2 |
| Registrations.JoinKeepsOtherRows | backend/src/registrations/registrations.service.ts:149-175 | a join never touches another row, and a refused join changes nothing at all |
| Registrations.WithdrawalHandsThePlaceOn | backend/src/registrations/registrations.service.ts:306-318 | a Registered withdrawal keeps the Registered count if and only if someone waits on an open list; then exactly the first in the queue is promoted |
| Registrations.RemovalMeansClosed | backend/src/registrations/waitlist/settle.ts:22-54 | a waiting entry is removed only when its registration is closed or switched off, and never by a join or a registration |
| Registrations.CancelClosesEveryRow | backend/src/registrations/waitlist/cancel-releaser.ts:17-43 | cancelling turns Registered and waiting rows Cancelled, waiting rows of a due list Removed, and leaves every other row |
| RegistrationEffects.RegisterIsAccepted | backend/src/registrations/registrations.service.ts:53-123 | a registration is accepted exactly on a Confirmed, enabled event from its opening instant and before its closing one, with fewer Registered rows than the limit, for someone neither registered, waiting nor cancelled |
| RegistrationEffects.RegisterTakesOnePlace | backend/src/registrations/registrations.service.ts:103-119 | the Registered set then grows by exactly the caller and no other row or column changes; a refusal changes nothing |
| RegistrationEffects.RegisterRefusals | backend/src/registrations/registrations.service.ts:58-119 | which condition gives each refusal of a registration, in the order of the checks |
| RegistrationEffects.WindowMeans | backend/src/registrations/registration/registration-window.ts:21-29 | registration is open exactly inside the window of a Confirmed, enabled event, and each closed state has its own condition |
| RegistrationEffects.JoinIsAccepted | backend/src/registrations/registrations.service.ts:134-203 | a join is accepted exactly on an open event that is full, for someone who neither organises nor coordinates it and is neither registered nor waiting |
| RegistrationEffects.JoinWritesOneRow | backend/src/registrations/registrations.service.ts:177-203 | the caller then waits with this instant and the next ticket, and nothing else changes; a refusal changes nothing |
| RegistrationEffects.JoinRefusals | backend/src/registrations/registrations.service.ts:149-175 | which condition gives each refusal of a join |
| RegistrationEffects.WithdrawIsAccepted | backend/src/registrations/registrations.service.ts:262-286 | a withdrawal is accepted exactly before the start, for a Registered row or one waiting on a list that has not ended; which condition gives each refusal |
| RegistrationEffects.WithdrawFromAPlace | backend/src/registrations/registrations.service.ts:306-318 | the caller is Withdrawn, exactly the first in line promoted on an open list, the waiting rows of an ended list Removed, every other row as it was |
| RegistrationEffects.WithdrawFromTheList | backend/src/registrations/registrations.service.ts:270-304 | leaving the list writes the caller's row only and promotes nobody; a refusal keeps no more than the removal of an ended list |
| RegistrationEffects.SettingsAreAccepted | backend/src/registrations/settings/registration-settings.service.ts:85-138 | new settings are accepted exactly for the stored version on a configurable event, when the merged settings have a valid limit and period, both dates if enabled, and room for the Registered attendees |
| RegistrationEffects.SettingsRefusals | backend/src/registrations/settings/registration-settings.service.ts:95-137 | which condition gives each refusal of new settings, in the order of the checks |
| RegistrationEffects.SettingsAreStored | backend/src/registrations/settings/registration-settings.service.ts:139-162 | every field of the request replaces the stored one under the next version; a list the old or the new window ends is Removed, otherwise a raised limit promotes exactly the entries it reaches |
| RegistrationEffects.CancelClosesTheRows | backend/src/registrations/waitlist/cancel-releaser.ts:17-43 | on every event that is not over: Registered rows become Cancelled, waiting ones Cancelled, or Removed on an ended list, and every other row stays |
| RegistrationEffects.OtherStepsAre | backend/src/registrations/waitlist/settle.ts:22-54 | reading removes exactly the waiting rows of an ended list and changes nothing else |
| Registrations.RegistrationsService.SettleLocked | backend/src/registrations/waitlist/settle.ts:22-33 | the update removes exactly the waiting entries of a due list |
| Registrations.RegistrationsService.FillFreeSpots | backend/src/registrations/waitlist/promotion.ts:17-55 | settling, counting and promoting equals filling the list up to the limit; the returned count is the growth of the Registered set |
| Registrations.RegistrationsService.PromoteInTurn | backend/src/registrations/waitlist/promotion.ts:32-53 | the loop that promotes the first entry while a place is free promotes exactly the entries whose position is within the free places |
| Registrations.RegistrationsService.Register | backend/src/registrations/registrations.service.ts:53-123 | the method equals its transition, refusals included, and keeps capacity and queue; RegistrationEffects.RegisterIsAccepted says exactly when it succeeds and RegisterTakesOnePlace what it writes |
| Registrations.RegistrationsService.JoinWaitlist | backend/src/registrations/registrations.service.ts:134-206 | the method equals its transition: refusals roll the settling back, a join goes to the back; RegistrationEffects.JoinIsAccepted says exactly when it succeeds and JoinWritesOneRow what it writes |
| Registrations.RegistrationsService.Withdraw | backend/src/registrations/registrations.service.ts:243-326 | the method equals its transition: refusals after the settling keep it, a freed place is offered in the same step |
| Registrations.RegistrationsService.UpdateSettings | backend/src/registrations/settings/registration-settings.service.ts:85-173 | the method equals its transition: settle, validate, write, settle again, promote when the capacity rose |
| StockBound.NeverOverCommitted | backend/src/equipment/requests/equipment-requests.repository.ts:288-361 | over every run of submissions, updates, decisions, reschedules, safety responses, cancellations and removals that does not lower the inventory, at every instant the Reserved quantity of each name is at most its active stock |
| StockBound.ReserveEstablishesTheBound | backend/src/equipment/requests/equipment-requests.repository.ts:308-332 | an accepted reservation puts every name it asks for within its stock at every instant of the event's window, from any state whatever |
| StockBound.OverlapSumBoundsInstants | backend/src/equipment/requests/equipment-requests.repository.ts:308-322 | the sum over overlapping windows plus the demand bounds what is held at each instant |
| StockBound.EventGivesUp | backend/src/events/planning/event-planning.repository.ts:443-461 | every transaction but a reservation, in and out of window reschedules among them, leaves its event holding no more at any instant and every other event as it was |
| StockBound.RescheduleKeepsOrFrees | backend/src/events/planning/event-planning.repository.ts:443-461 | a new time sends a Reserved request back to review; inside the old window every hold is kept, outside nothing stays held |
| StockBound.SendBackReopensExactly | backend/src/events/safety-officer/safety-officer.service.ts:226-243 | a safety response makes exactly the selected Reserved lines Requested again and the request Pending Review |
| StockBound.ReserveAgainRestores | backend/src/equipment/requests/equipment-requests.repository.ts:270-370 | round trip: after a reservation of all items, sending any lines back and reserving again is accepted and restores the reserved state exactly |
| StockBound.LoweringBreaksTheBound | backend/src/equipment/equipment.service.ts:252-322 | lowering the stock under a live reservation breaks the bound: the premise is needed |
| StockBound.StockCheckReadsTheQueue | backend/src/equipment/requests/equipment-requests.repository.ts:449-460 | the stock check passes exactly when each listed name's total is at most the available quantity shown for it |
| StockBound.ReservableMeansAllSufficient | backend/src/equipment/requests/equipment-requests.repository.ts:487-488 | a request passes the stock check only if every listed item is marked sufficient |
| StockBound.DistinctNamesMakeTheMarksExact | backend/src/equipment/requests/equipment-requests.repository.ts:487-488 | with distinct item names the stock check passes exactly when every listed item is marked sufficient |
| StockBound.MarksAgreeIffDistinct | backend/src/equipment/requests/equipment-requests.repository.ts:449-488 | the marks agree with the stock check under every inventory if and only if the listed names are distinct |
| StockBound.SameNameTwiceMisleads | backend/src/equipment/requests/equipment-requests.repository.ts:288-332 | two lines of one name can each be marked sufficient while the reservation is refused |
| StockBound.ReserveAgreesWithAvailability | backend/src/equipment/equipment.service.ts:201-249 | a request with Requested lines passes exactly when the availability read for its window offers each name's total; a whole request passes whenever it does |
| StockBound.CannotProvideFreesEverything | backend/src/equipment/requests/equipment-requests.repository.ts:379-419 | no line stays Requested, and no line stays Reserved exactly when the request was not decided line by line or held nothing |
| StockBound.CannotProvideLeavesALine | backend/src/equipment/requests/equipment-requests.repository.ts:379-419 | a run from an empty system, for any two differently named items in stock, that ends with a Cannot Provide request still holding a Reserved line |
| StockBound.OnlyReserveRevives | backend/src/equipment/requests/equipment-requests.repository.ts:270-370 | a cancelled event stays free of live lines under every step except exactly an accepted reservation of its non-empty request |
| StockBound.CancelledStaysFree | backend/src/equipment/release/equipment-reservation.releaser.ts:8-17 | after a cancellation no run without such a reservation brings a line of the event back |
| StockBound.ReserveIgnoresCancellation | backend/src/equipment/requests/equipment-requests.repository.ts:280-283 | a pending request of a cancelled event is reserved exactly when the stock suffices, with every item Reserved and the event still Cancelled |
| StockBound.OtherEventsUntouched | backend/src/equipment/requests/equipment-requests.repository.ts:36-419 | a transaction changes at most the event it names |
| EquipmentEffects.SubmitStoresTheSubmission | backend/src/equipment/requests/equipment-requests.repository.ts:36-101 | a submission is accepted exactly for an approved or planning event without a request; the request is then pending and holds the submitted items one for one, names, kinds and quantities, each with a Requested line of them, and nothing else changes but the move to Planning |
| EquipmentEffects.DemandIsSubmitted | backend/src/equipment/requests/equipment-requests.repository.ts:308-322 | what a stored request asks for under each name is the sum of the submitted quantities of that name |
| EquipmentEffects.UpdateIsAccepted | backend/src/equipment/requests/equipment-requests.repository.ts:103-158 | an update is accepted exactly on an approved or planning event with a request; under a safety review the submission must name the current items one for one and alter only selected ones |
| EquipmentEffects.UpdateStoresTheSubmission | backend/src/equipment/requests/equipment-requests.repository.ts:182-198 | without selected lines an update leaves the request pending with exactly the submitted items |
| EquipmentEffects.ReviewRewritesTheSelected | backend/src/equipment/requests/equipment-requests.repository.ts:159-180 | under a safety review each selected item takes the values submitted under its identifier with a Requested line, and every other item is unchanged |
| EquipmentEffects.ReserveIsAccepted | backend/src/equipment/requests/equipment-requests.repository.ts:270-332 | a reservation is accepted exactly for a pending request of an event that is neither Completed nor Confirmed, when every item to decide is in available stock and its name asks for no more than the stock leaves beside overlapping events |
| EquipmentEffects.ReserveReserves | backend/src/equipment/requests/equipment-requests.repository.ts:334-361 | every item to decide then has a Reserved line of its name and quantity; every other item, and every other column, is as it was |
| EquipmentEffects.OverlapMeansCommonInstant | backend/src/equipment/requests/equipment-requests.repository.ts:308-322 | two windows overlap exactly when they share an instant |
| EquipmentEffects.CannotProvideRetires | backend/src/equipment/requests/equipment-requests.repository.ts:379-419 | Cannot Provide is accepted exactly on the same requests; Requested lines become Unavailable, or Reserved ones where none was Requested, and no other column changes |
| EquipmentEffects.RescheduleMoves | backend/src/events/planning/event-planning.repository.ts:443-461 | Reserved lines are Released exactly when the window grew, and a Reserved request is pending again |
| EquipmentEffects.SendBackMoves | backend/src/events/safety-officer/safety-officer.service.ts:226-243 | exactly the selected Reserved lines become Requested, and the request pending if any line was selected |
| EquipmentEffects.CancelReleases | backend/src/equipment/release/equipment-reservation.releaser.ts:8-17 | on every event that is not over, exactly the Requested, Reserved and Unavailable lines become Released and the request keeps its status |
| EquipmentEffects.RemoveLineRemoves | backend/src/events/status/status.service.ts:299-326 | only an Unavailable line of an event in Planning is removed, and nothing else changes |
| EquipmentEffects.OtherWriters | backend/src/equipment/equipment.service.ts:252-322 | status changes, new events and inventory changes write their own column and no request |
| EquipmentRequests.StepKeepsIds | backend/src/equipment/requests/equipment-requests.repository.ts:62-74 | item identifiers stay distinct within every request |
| EquipmentRequests.SizesDecide | backend/src/equipment/requests/equipment-requests.repository.ts:145-149 | the size comparisons of the source hold exactly when the submission names every current item once and no other |
| EquipmentRequests.EquipmentRequestsRepository.Submit | backend/src/equipment/requests/equipment-requests.repository.ts:36-101 | the method, with its insertion loop and its conditional move to Planning, equals its transition and stores the submitted items with their quantities, each with its Requested line; one request per event; identifiers stay distinct and no name over-committed |
| EquipmentRequests.EquipmentRequestsRepository.Update | backend/src/equipment/requests/equipment-requests.repository.ts:103-200 | the method equals its transition: under safety review exactly the selected items take the values submitted for them, otherwise the request holds the submission; identifiers stay distinct and no name over-committed |
| EquipmentRequests.EquipmentRequestsRepository.FindUnavailable | backend/src/equipment/requests/equipment-requests.repository.ts:323-332 | the search finds no name exactly when every listed name suffices, and otherwise a name that does not |
| EquipmentRequests.EquipmentRequestsRepository.Reserve | backend/src/equipment/requests/equipment-requests.repository.ts:270-370 | the method equals its transition: insert the missing lines, refresh the covered ones; a refusal for stock names an insufficient item; at every instant every name stays within its stock |
| EquipmentRequests.EquipmentRequestsRepository.MarkCannotProvide | backend/src/equipment/requests/equipment-requests.repository.ts:379-419 | the one pass over the lines retires exactly what the two statements retire, and keeps identifiers and the stock bound |
| EquipmentRequests.ReadRequests | backend/src/equipment/requests/equipment-requests.repository.ts:466-493 | the grouping loop returns one record per request, in the order of their first rows, each holding exactly its own rows in order |
| EventImpact.ModesAreHonest | backend/src/events/planning/event-planning.service.ts:747-808 | a field shown as direct is never held back, one shown as needing review always is, and a condition holds in the form exactly when saving applies the change at once; for times, when both edges are sent. PlanningEffects.UpdateTreatsEachField says that saving holds exactly these fields |
| EventImpact.TimeFlagMeansOutside | backend/src/events/planning/helpers/event-impact.ts:147-171 | a time change is held back exactly when some active booking's window, or the event's own while equipment is held, does not contain it; PlanningEffects.UpdateTreatsEachField says that saving holds exactly these fields |
| EventImpact.DisjointWindowsAlwaysReview | backend/src/events/planning/event-planning.service.ts:757-778 | windows without a common interval hold back every move of either edge; no window holds back none |
| EventImpact.MoveFitsCommonWindow | backend/src/events/planning/event-planning.service.ts:757-778 | a move fits every window exactly when it fits from the latest start to the earliest end |
| EventImpact.TimesClassifiedAlike | backend/src/events/planning/event-planning.service.ts:678-690 | the two time fields of one update are held back together or applied together |
| EventImpact.HalfMovedStart | frontend/src/utils/planning.ts:113-120 | when only the start moves, the form says yes exactly when the server applies it and the event ends within every window |
| EventImpact.HalfMovedEnd | frontend/src/utils/planning.ts:113-120 | when only the end moves, the form says yes exactly when the server applies it and the event starts within every window |
| EventImpact.FormAndServerDisagree | frontend/src/utils/planning.ts:113-120 | an event that outlasts its booking: the server applies a start the form refuses |
| PlanningHistory.HistoryReplays | backend/src/events/planning/event-planning.service.ts:205-301 | over every run: one pending change per field, each from the stored value; every log entry is a real change that starts where the entries before left its field; replaying the log gives the stored event; the schedule stays ordered |
| PlanningHistory.ReplayStaysExact | backend/src/events/change-requests/review/change-request-review.service.ts:182-196 | an exact replay stays exact under a step if and only if the step does not approve a list in another order |
| PlanningHistory.RunReplaysExactly | backend/src/events/change-requests/review/change-request-review.service.ts:182-196 | over a run from an exact state, the replay is exact after every step if and only if no accepted step approves a list in another order |
| PlanningHistory.LogTakesUpdate | backend/src/events/planning/event-planning.repository.ts:506-545 | the entries of one update replay to writing exactly its immediate fields |
| PlanningHistory.UpdateKeepsSchedule | backend/src/events/planning/event-planning.service.ts:488-504 | checking the merged patch suffices: what an update writes leaves the end after the start |
| PlanningHistory.SameValueIsSameMeaning | backend/src/events/planning/event-planning.service.ts:643-656 | on lists without duplicates the comparison is equality of value or of choice set, hence an equivalence |
| PlanningHistory.DuplicatesBreakTheComparison | backend/src/events/planning/event-planning.service.ts:650-654 | with duplicates the comparison is not symmetric |
| PlanningHistory.BookingDecision | backend/src/events/planning/event-planning.service.ts:368-410 | an accepted decision alters only its own entry and lowers the undecided count by one; the change closes exactly at zero, and Applied with the field set to the proposal exactly when every impacted booking was confirmed |
| PlanningHistory.UnfitScheduleNeverCloses | backend/src/events/planning/event-planning.service.ts:463-474 | a proposal whose merged schedule no longer fits cannot be applied, and the deciding booking decision is undone with it |
| PlanningHistory.WholeConfirmOverridesBookings | backend/src/events/planning/event-planning.service.ts:368-368 | a whole-change decision has the same result whatever single bookings decided; a confirmation is accepted exactly when the event is editable and the schedule fits, and then sets exactly its field |
| PlanningHistory.RejectionChangesNothing | backend/src/events/planning/event-planning.service.ts:452-485 | a rejection, whole or as the last booking's, changes no value of the event |
| PlanningEffects.HeldMeans | backend/src/events/planning/event-planning.service.ts:207-256 | a field is held exactly when some active booking objects (a window it leaves, a capacity it exceeds, a layout, an added facility) or live equipment meets new needs or a schedule that leaves the stored one |
| PlanningEffects.TimeModeIs | backend/src/events/planning/event-planning.service.ts:757-778 | a time is advertised with exactly the stretch its windows share, as needing review when there is none |
| PlanningEffects.OtherModesAre | backend/src/events/planning/event-planning.service.ts:779-808 | attendance is advertised with the least booked capacity, facilities as removal only, layout and equipment needs as needing review, each as free without what it affects |
| PlanningEffects.UpdateIsAccepted | backend/src/events/planning/event-planning.service.ts:181-224 | an update is accepted exactly on an approved or planned event, when the dates it moves stay ordered and no field it alters awaits review; which condition gives each refusal |
| PlanningEffects.UpdateTreatsEachField | backend/src/events/planning/event-planning.service.ts:235-300 | field by field: an altered and held one keeps its stored value and gets exactly one pending change from it to the proposal, with one undecided impact per booking in order; an altered one not held takes the value with exactly one applied entry; any other gets nothing |
| PlanningEffects.UpdateOnlyAdds | backend/src/events/planning/event-planning.service.ts:258-300 | stored entries and changes stay in place; what an update adds is numbered without a gap and follows the order of the fields |
| PlanningEffects.WholeChangeIsResolved | backend/src/events/planning/event-planning.service.ts:327-411 | a whole change is rejected always and confirmed exactly when the schedule still fits; it then leaves the list for the log, with its value written exactly when confirmed |
| PlanningEffects.BookingDecides | backend/src/events/planning/event-planning.service.ts:368-410 | an impacted booking decides once; the last decision closes the change, as applied exactly when it and all others confirm, and only then must the schedule fit |
| PlanningEffects.UnknownChangeIsRefused | backend/src/events/planning/event-planning.service.ts:351-367 | an identifier no pending change carries is resolved already exactly when the log has it, and unknown otherwise |
| PlanningEffects.UnaffectedBookingIsRefused | backend/src/events/planning/event-planning.service.ts:368-389 | a booking that the change does not mention has nothing to decide |
| PlanningEffects.ApprovalIsAccepted | backend/src/events/change-requests/review/change-request-review.service.ts:140-168 | a request is approved exactly while the event is not over and has not started, none of its fields awaits review and the dates stay ordered; which condition gives each refusal |
| PlanningEffects.ApprovalWritesTheRequest | backend/src/events/change-requests/review/change-request-review.service.ts:182-204 | every requested field is written, and exactly the altered ones get one applied entry each |
| PlanningEffects.ApprovalOnlyAdds | backend/src/events/change-requests/review/change-request-review.service.ts:182-226 | a Confirmed event goes back to Planning; pending changes stay and entries are added in order |
| PlanningEffects.StatusIsMoved | backend/src/events/status/status.service.ts:475-565 | a status change touches no value, pending change or log entry |
| PlanningEffects.RunTakesTheNextStep | backend/src/events/planning/event-planning.service.ts:189-351 | a run that goes on takes the next request, one transaction each, from where it stood |
| EventPlanning.EventPlanningService.ClassifyUpdate | backend/src/events/planning/dto/event-update-input.ts:237-249 | the loop splits the changed fields, in order, into those no arrangement objects to and those some arrangement does |
| EventPlanning.EventPlanningService.IsImpacting | backend/src/events/planning/event-planning.service.ts:233-256 | the assessments flag a field exactly when an active booking or the equipment is incompatible |
| EventPlanning.EventPlanningService.ApplyFields | backend/src/events/planning/event-planning.repository.ts:379-410 | the assignment loop writes exactly the given fields |
| EventPlanning.EventPlanningService.UpdateEvent | backend/src/events/planning/event-planning.service.ts:181-313 | the method equals its transition, treats each field as PlanningEffects.UpdateTreatsEachField says, and keeps the pending changes, the log and the schedule |
| EventPlanning.EventPlanningService.CloseChange | backend/src/events/planning/event-planning.service.ts:452-485 | the method equals its transition; a failed schedule check changes nothing |
| EventPlanning.EventPlanningService.CountDecisions | backend/src/events/planning/event-planning.service.ts:390-404 | counts the undecided impacted bookings and, when there are none, tells whether all confirmed |
| EventPlanning.EventPlanningService.ResolveChange | backend/src/events/planning/event-planning.service.ts:327-411 | the method equals its transition and keeps the pending changes and the log |
| ChangeRequests.RequestsAreAudited | backend/src/events/change-requests/change-request-audit.ts:27-57 | over every run at most one request is pending, every decided one has exactly one audited outcome and a pending one none, decided requests and audit rows never change, and the planning log still replays |
| ChangeRequests.FilingAsksForChanges | backend/src/events/change-requests/change-requests.service.ts:193-203 | a filed request holds only permitted fields and only values that differ in meaning from the stored ones |
| ChangeRequests.ApprovalAppliesTheRequest | backend/src/events/change-requests/review/change-request-review.service.ts:132-182 | an approval writes exactly the proposed values and no other field |
| ChangeRequests.CancellationClosesRequests | backend/src/events/change-requests/release/change-request.releaser.ts:13-35 | after a cancellation no request is pending and none can be filed |
| RequestEffects.FilingIsAccepted | backend/src/events/change-requests/change-requests.service.ts:163-235 | a request is filed exactly while the event is not over and has not started, its dates stay ordered, it asks for a change to some field but name and purpose, and none is pending |
| RequestEffects.FilingStoresTheRequest | backend/src/events/change-requests/change-requests.service.ts:193-250 | the one added request holds every such change and no other, with the value stored at that time and the proposed one |
| RequestEffects.FilingRefusals | backend/src/events/change-requests/change-requests.service.ts:163-235 | which condition gives each refusal of a filing |
| RequestEffects.WithdrawalEndsIt | backend/src/events/change-requests/change-requests.service.ts:300-330 | exactly a pending request is withdrawn, with the next audit row for it |
| RequestEffects.DenialEndsIt | backend/src/events/change-requests/review/change-request-review.service.ts:264-300 | exactly a pending request of an event neither cancelled nor completed is denied, with the next audit row for it |
| RequestEffects.ApprovalEndsIt | backend/src/events/change-requests/review/change-request-review.service.ts:140-247 | exactly when a request is approved; it then has the next audit row, and the planning side is what applying its values leaves |
| RequestEffects.CancellingClosesEachRequest | backend/src/events/change-requests/release/change-request.releaser.ts:13-35 | each pending request of an event that is not over becomes Closed with one audit row, and every other request stays |
| RequestEffects.StepsTakeTheirOperation | backend/src/events/change-requests/change-requests.service.ts:163-330 | a refused operation leaves requests, audit and planning as they were, and a planning step touches no request |
| ChangeRequests.ReorderedApprovalEscapesTheLog | backend/src/events/change-requests/review/change-request-review.service.ts:182-196 | a run that files [b, a], updates to [a, b] and approves: the stored list is [b, a] and the log replays to [a, b] |
| ChangeRequests.ChangeRequestsService.Create | backend/src/events/change-requests/change-requests.service.ts:163-250 | a filed request is pending, asks only for permitted fields and real changes, and is the only one pending; a refusal changes nothing; one pending request, the single audit of each decision and the replaying log are kept |
| ChangeRequests.ChangeRequestsService.WithdrawRow | backend/src/events/change-requests/change-requests.service.ts:300-330 | after a withdrawal no request is pending, the withdrawn one has its one audited outcome, and every decided request and audit row is as it was; the log still replays |
| ChangeRequests.ChangeRequestsService.ReleaseRequests | backend/src/events/change-requests/release/change-request.releaser.ts:15-35 | the loop closes and audits exactly the pending requests, leaves none pending and every decided one as it was, and keeps the single audit of each decision |
| Arrangements.RewritesSettleAlike | backend/src/venues/repository/venues.repository.ts:851-865 | whatever the expiry scheduler has stored so far, a reader at this instant settles the bookings to the same list |
| Readiness.EvaluateReadiness | backend/src/events/status/readiness.ts:205-254 | the loops return exactly the outstanding items, in order, and ready exactly when there is none |
| Readiness.ReadyMeans | backend/src/events/status/readiness.ts:205-254 | ready holds, at any time, exactly when every active booking is an available ordinary approval or a rejection with a covering replacement, bookings are not missing, equipment is all reserved or confirmed as none, and safety is approved |
| Readiness.ReleasedBookingsAskForNothing | backend/src/events/status/readiness.ts:212-227 | a non-empty list of released bookings leaves no venue outstanding |
| Readiness.ReadinessForgetsOrder | backend/src/events/status/readiness.ts:228-237 | the outstanding list does not depend on the order in which bookings and lines were read |
| Readiness.SchedulerIsInvisible | backend/src/events/venue-unavailable.ts:30-38 | with the safety record unchanged, storing expired for elapsed holds changes no outstanding item, now or later, wherever the row sits; SafetyGate.SchedulerIsInvisibleInEveryRun shows that the record is unchanged |
| Checklist.ChecklistAgreesWithConfirm | backend/src/events/status/checklist.ts:115-178 | venue and equipment are both absent from blocking exactly when readiness with safety approved is ready and the bookings are not all released |
| Checklist.VenueConfirmedMeans | backend/src/events/status/checklist.ts:122-148 | the venue section is confirmed exactly when some booking is active and every active one asks for nothing more |
| Checklist.RequestableMeansConfirmable | backend/src/events/status/checklist.ts:175-207 | a safety check can be requested only over arrangements that Confirm would accept, with at least one confirmed booking |
| Checklist.SchedulerIsInvisibleToChecklist | backend/src/events/status/checklist.ts:93-100 | storing expired for elapsed holds changes neither the listed requests, nor the venue status, nor what blocks |
| QueueIndicators.SchedulerIsInvisibleToQueue | backend/src/events/queue/queue-indicators.ts:115-146 | storing expired for elapsed holds changes neither the queue's holds nor its unavailable venues |
| QueueIndicators.HoldReadingsAgree | backend/src/events/queue/queue-indicators.ts:115-126 | the queue shows a hold as ended exactly when it occupies no venue, and exactly when Confirm does, but for a row stored as expired ahead of its expiry |
| QueueIndicators.OneEntryPerVenue | backend/src/events/queue/queue-indicators.ts:141-145 | the unavailable venues list each affected venue once and no other |
| ReadModels.SchedulerWrites | backend/src/venues/repository/venues.repository.ts:851-865 | the scheduler makes exactly the tentative approvals past their expiry Expired and changes no other column |
| ReadModels.VenueItemMeans | backend/src/events/status/readiness.ts:106-155 | an active booking is outstanding unless it is secured or replaced, under its venue's name and in exactly one state, each with its condition |
| ReadModels.OutstandingItemsAre | backend/src/events/status/readiness.ts:205-254 | exactly which items are outstanding: no venue, each active booking neither secured nor replaced, each live line not reserved, no equipment, a safety check not approved |
| ReadModels.VenueStatusMeans | backend/src/events/status/checklist.ts:93-100 | the checklist shows a booking confirmed exactly when it is secured and unavailable exactly when rejected, blocked or run out |
| ReadModels.LineStatusMeans | backend/src/events/status/checklist.ts:102-106 | the checklist shows a line confirmed exactly when it is reserved and unavailable exactly when it is Unavailable |
| ReadModels.VenueSectionMeans | backend/src/events/status/checklist.ts:122-148 | the venue section: not requested, unavailable or confirmed, each exactly when its requests are |
| ReadModels.EquipmentSectionMeans | backend/src/events/status/checklist.ts:150-165 | the equipment section: not requested, unavailable or confirmed, each exactly when its live lines are |
| ReadModels.RequestItemsAre | backend/src/events/status/checklist.ts:122-148 | each listed request is an active booking that is not replaced and shows that booking's own columns, status and hold |
| ReadModels.BlockingIs | backend/src/events/status/checklist.ts:162-177 | what blocks the safety check, each prerequisite with its condition, in their order |
| ReadModels.RequestableIs | backend/src/events/status/checklist.ts:162-207 | the check may be requested exactly when the venue section is confirmed, the equipment confirmed or confirmed as none, the registration dates complete and all feedback resolved |
| ReadModels.HoldsAre | backend/src/events/queue/queue-indicators.ts:115-126 | the queue lists exactly the pending or tentative bookings with an expiry, each with its venue, its expiry and whether that has come |
| ReadModels.UnavailableVenuesAre | backend/src/events/queue/queue-indicators.ts:136-146 | the queue's unavailable venues are exactly those of bookings that still occupy one, each under the label of its last such booking |
| ReadModels.LabelMeans | backend/src/events/queue/queue-indicators.ts:106-112 | a venue shows its location exactly when another booked venue shares its name |
| ReadModels.SafetyWordMeans | backend/src/events/queue/queue-indicators.ts:86-96 | the safety word of a card for each stored state, and none when the event is over |
| QueueIndicators.DeriveActions | backend/src/events/queue/queue-indicators.ts:148-162 | the pushes list exactly the applicable reasons, each once, in the fixed order |
| QueueIndicators.BuildQueueIndicators | backend/src/events/queue/queue-indicators.ts:164-173 | a card asks for action exactly when the stored facts of the event call for it, and an event that is over shows its status only |
| QueueIndicators.SplitJoins | backend/src/events/queue/queue-indicators.ts:183-185 | splitting a query value loses nothing: the parts hold no comma and join to the value again |
| QueueIndicators.TrimTakesTheEnds | backend/src/events/queue/queue-indicators.ts:184-184 | trimming leaves the stretch between the first and the last non-blank character |
| QueueIndicators.WantedAre | backend/src/events/queue/queue-indicators.ts:181-187 | a query asks for exactly the non-blank parts of its values: the trimmed stretches between commas, or a value that is no string itself |
| QueueIndicators.WantedInOrder | backend/src/events/queue/queue-indicators.ts:183-186 | the parts of several values follow one another in the order of the values |
| QueueIndicators.BlanksAre | backend/src/events/queue/queue-indicators.ts:184-184 | exactly which characters trimming takes: the white space and line terminators of ECMAScript |
| QueueIndicators.StatusOfIsTheName | backend/src/events/queue/queue-indicators.ts:190-190 | a filter part matches a status exactly when it is its name in any case, and at most one status |
| QueueIndicators.StatusWords | backend/src/events/queue/queue-indicators.ts:189-191 | each status is named by exactly its own word, in any case of its letters |
| QueueIndicators.ParseStatusFilter | backend/src/events/queue/queue-indicators.ts:181-196 | without a non-blank part there is no filter; the first unknown part refuses it; otherwise it is exactly the statuses named, each once |
| SafetyGate.ConfirmGate | backend/src/events/status/status.service.ts:475-525 | the only step into Confirmed is Confirm from Planning, with every active booking settled, one of them confirmed, equipment reserved or none needed, and an approval given for these very arrangements |
| SafetyGate.StandingCheckIsFresh | database/postgresql/init/003_functions_triggers.sql:14-111 | over every run, while a check is pending or approved the details, bookings and lines are those it was requested for |
| SafetyGate.HoldsStayOut | database/postgresql/init/003_functions_triggers.sql:52-80 | over every run, while a safety record exists no approved tentative hold does and feedback selects only ordinary bookings |
| SafetyGate.SchedulerIsInvisibleInEveryRun | backend/src/venues/repository/venues.repository.ts:851-865 | in every reachable state the expiry write, with the reset trigger it fires, changes no outstanding item, now or later |
| SafetyGate.NoConfirmWithoutFreshRequest | backend/src/events/status/status.service.ts:213-296 | after a rejection, a change request or a reset, no run without a new safety check request confirms the event |
| SafetyGate.FlaggedIsSettledBeforeConfirm | backend/src/events/status/status.service.ts:475-525 | from a response that flags a booking, any later accepted Confirm finds it absent, inactive or settled, with a new check requested in between and cleared for exactly the stored arrangements; SafetyEffects.ResponseDoesAsAsked says which bookings the request flags |
| SafetyGate.ResponseReturnsExactlyTheFlagged | backend/src/events/safety-officer/safety-officer.service.ts:205-243 | a response returns exactly the approved bookings and reserved lines of its stored feedback to review and changes no other row; SafetyEffects.ResponseDoesAsAsked says which those are from the request |
| SafetyGate.RejectionOpensEverything | backend/src/events/safety-officer/safety-officer.service.ts:175-180 | after a rejection no ordinary booking is approved, no line reserved, and no check requestable |
| SafetyGate.RequestIsOverRealBookings | backend/src/events/status/status.service.ts:233-251 | a check is requested only over an active booking and without any hold |
| SafetyGate.EachStatusHasItsDoor | backend/src/events/status/status.service.ts:475-581 | which step from which status leads into each status, and every change but the first decision writes its history row |
| SafetyGate.FirstConfirmationWins | backend/src/events/status/status.service.ts:165-207 | the first "no equipment needed" confirmation is never replaced, over any run |
| SafetyGate.HistoryIsAChain | backend/src/events/status/status.service.ts:494-505 | over every run each history row starts where the one before ended, the last ends at the stored status, rows are never rewritten, and Rejected, Completed and Cancelled are never left |
| SafetyEffects.ConfirmIsAccepted | backend/src/events/status/status.service.ts:475-525 | Confirm is accepted exactly in Planning with every active booking secured or replaced, one active or all released, equipment reserved or confirmed as none, and the check approved; the event is then Confirmed with one history row and nothing else changes |
| SafetyEffects.StatusChangesAre | backend/src/events/status/status.service.ts:531-565 | the first decision, the start of planning and the completion each go from one status into one, the last two with one history row |
| SafetyEffects.CheckIsRequested | backend/src/events/status/status.service.ts:213-296 | a check is granted exactly in Planning over arrangements that are fine with complete registration dates, when none is pending or approved and earlier feedback is resolved; it starts without feedback |
| SafetyEffects.RequestRefusals | backend/src/events/status/status.service.ts:213-270 | which condition gives each refusal of a check |
| SafetyEffects.ResponseIsAccepted | backend/src/events/safety-officer/safety-officer.service.ts:109-195 | a response is accepted exactly while a check is pending in Planning over arrangements still fine; each item of a change request selects something, and only approved ordinary bookings and reserved lines |
| SafetyEffects.ResponseRefusals | backend/src/events/safety-officer/safety-officer.service.ts:113-189 | which condition gives each refusal of a response, in the order of the checks |
| SafetyEffects.ResponseDoesAsAsked | backend/src/events/safety-officer/safety-officer.service.ts:175-243 | a change request stores every one of its items, open and in order, and returns exactly the bookings and lines some item selects; a rejection stores and returns every reviewable one; an approval stores nothing and changes no row |
| SafetyEffects.ItemIsMarked | backend/src/events/status/status.service.ts:368-404 | one item of a negative response is marked, and nothing else changes |
| SafetyEffects.NoneIsConfirmed | backend/src/events/status/status.service.ts:165-207 | "no equipment needed" is accepted exactly in Planning without a wish or a live line, and keeps the first instant |
| SafetyEffects.CancelReleasesTheRows | backend/src/events/cancel/cancel-event.service.ts:82-136 | pending and approved bookings and live lines become released, every other row and the safety record stay |
| SafetyEffects.ChangeReopensTheEvent | backend/src/events/change-requests/review/change-request-review.service.ts:182-226 | an approved request writes the details, ends the check exactly when they change, and reopens a Confirmed event with one history row |
| SafetyEffects.BookingIsRewritten | database/postgresql/init/003_functions_triggers.sql:52-80 | a booking write ends the check exactly when a column changes, unless the last response selected the booking or the write releases it |
| SafetyEffects.LineIsRewritten | database/postgresql/init/003_functions_triggers.sql:82-111 | a line write ends the check exactly when a column changes, unless the last response selected the line |
| SafetyEffects.ReleasesKeepTheCheck | database/postgresql/init/003_functions_triggers.sql:52-111 | releasing a booking or a line leaves the check and its feedback as they were |
| SafetyEffects.BookingsComeAndGo | database/postgresql/init/003_functions_triggers.sql:52-80 | a new or deleted booking always ends the check |
| SafetyEffects.LinesComeAndGo | database/postgresql/init/003_functions_triggers.sql:82-111 | a new or deleted line always ends the check |
| SafetyEffects.DetailsAreEdited | backend/src/events/planning/event-planning.repository.ts:379-461 | a direct edit ends the check exactly when the details change, and releases the reserved lines exactly when the window grew |
| EventLifecycle.EventRows.Confirm | backend/src/events/status/status.service.ts:475-525 | the method, through the readiness loops, equals its transition; the history stays a chain and a standing check fresh |
| EventLifecycle.EventRows.Complete | backend/src/events/status/status.service.ts:531-565 | the history stays a chain that only grows and ends at Completed exactly from a Confirmed event that has ended; a standing check stays fresh and no hold stands beside a safety record |
| EventLifecycle.EventRows.RequestSafetyCheck | backend/src/events/status/status.service.ts:213-296 | the method equals its transition, refused by open feedback; the check it raises is recorded for the very arrangements now stored, so a standing check is fresh |
| EventLifecycle.EventRows.Respond | backend/src/events/safety-officer/safety-officer.service.ts:109-253 | the method, row by row through the triggers, equals its transition and does as its request asked: its own row changes do not reset the check, which stays fresh, and no hold stands beside the record |
| EventLifecycle.EventRows.SendBookingsBack | database/postgresql/init/003_functions_triggers.sql:52-80 | the loop over flagged bookings never triggers a reset and changes exactly the flagged approved rows |
| EventLifecycle.EventRows.SendLinesBack | database/postgresql/init/003_functions_triggers.sql:82-111 | the loop over flagged lines never triggers a reset and changes exactly the flagged reserved rows |
| Cancellation.CancellationIsOneStep | backend/src/events/cancel/cancel-event.service.ts:82-136 | for any complete registry: exactly when it is refused; on success the event is Cancelled with one history row, every row of it is released as its status asks, no row of another event changed, and it cannot be cancelled again |
| Cancellation.CancellationReleasesEveryRow | backend/src/events/cancel/release.registry.ts:26-33 | row by row after an accepted cancellation: pending and approved bookings released; requested, reserved and unavailable lines released; Registered rows cancelled; waiting rows cancelled, or removed on a due list; pending requests closed; every other row as it was |
| Cancellation.CancelEventService.CancelEvent | backend/src/events/cancel/cancel-event.service.ts:51-62 | the whole request: accepted exactly from the coordinator of an event that is not over when no releaser fails, with every row of the event released and no other event touched |
| Cancellation.DefaultIsComplete | backend/src/events/cancel/release.registry.ts:26-33 | the registry lists every releaser once |
| Cancellation.CancelTells | backend/src/events/cancel/cancel-event.service.ts:113-131 | each recipient, and each attendee waiting on an open list, has exactly one notice, and nobody else got one |
| Cancellation.RecipientsAre | backend/src/events/cancel/cancel-event.service.ts:113-119 | the recipients are the organiser, the canceller and, if the registry has their releaser, the Registered attendees read before any release, without the organiser on an accepted request |
| Cancellation.RecipientsOnce | backend/src/events/cancel/cancel-event.service.ts:113-119 | nobody is a recipient twice |
| Cancellation.ReleasesFree | backend/src/events/cancel/release.registry.ts:26-33 | whatever the registered order, no table keeps a pending or approved booking, a requested, reserved or unavailable line, a Registered or waiting row or a pending request of the event |
| Cancellation.ReleasesTouchOnly | backend/src/events/cancel/release.registry.ts:13-20 | releasers touch only rows of their event, never move a row, and only append to the append-only tables |
| Cancellation.CancelEventService.CollectRecipients | backend/src/events/cancel/cancel-event.service.ts:113-119 | the collecting loop builds exactly the recipient set in insertion order |
| Cancellation.CancelEventService.WriteNotices | backend/src/events/cancel/cancel-event.service.ts:123-131 | the statement writes each missing notice once |
| Cancellation.CancelEventService.CancelInside | backend/src/events/cancel/cancel-event.service.ts:82-136 | the method equals its transition; a fault at any releaser leaves the tables as the transaction found them |
| CancellationRequests.ProtocolHolds | backend/src/events/cancellation-requests/cancellation-requests.service.ts:89-213 | under any interleaving an event has at most one pending and at most one accepted request, an accepted request means a Cancelled event, and decided requests never change |
| CancellationRequests.ClosedIsForever | backend/src/events/cancellation-requests/cancellation-request.status.ts:17-22 | a pending request on a Cancelled or Completed event is never decided in any run |
| CancellationRequests.DecisionIsOneStep | backend/src/events/cancellation-requests/cancellation-requests.service.ts:162-213 | a decision changes one pending request and, exactly when it accepts, the status of its event, and nothing else |
| CancellationRequests.FilingIsAccepted | backend/src/events/cancellation-requests/cancellation-requests.service.ts:89-123 | only the organiser of an event that is not over files, one request at a time; which condition gives each refusal |
| CancellationRequests.DecisionIsAccepted | backend/src/events/cancellation-requests/cancellation-requests.service.ts:162-213 | only the event's current coordinator decides, once, while the event is not over; which condition gives each refusal |
| CancellationRequests.DecisionWrites | backend/src/events/cancellation-requests/cancellation-requests.service.ts:186-213 | who decided what is recorded on that one row, and an acceptance cancels that one event with it |
| CancellationRequests.DirectCancellation | backend/src/events/cancel/cancel-event.service.ts:82-112 | a direct cancellation changes no request |
| CancellationRequests.UnknownRequestIsForbidden | backend/src/events/cancellation-requests/cancellation-requests.service.ts:165-180 | a decision about an unknown request is refused like one of a stranger |
| CancellationRequests.EventRowIsWritten | backend/src/events/status/status.service.ts:475-581 | other writers of an event keep its organiser and never leave a terminal status |
| CancellationRequests.RunTakesTheNextStep | backend/src/events/cancellation-requests/cancellation-requests.service.ts:93-165 | a run that goes on takes the next request, one transaction each, from where it stood |
| CancellationRequests.CancellationRequestsService.Create | backend/src/events/cancellation-requests/cancellation-requests.service.ts:89-123 | the method equals its transition and keeps the protocol |
| CancellationRequests.CancellationRequestsService.Decide | backend/src/events/cancellation-requests/cancellation-requests.service.ts:162-213 | the method equals its transition and keeps the protocol; a failing cancellation undoes the decision |
| Drafts.DraftsContinue | backend/src/event-drafts/drafts.service.ts:63-157 | over every run each draft yields at most one event, with the draft's fields at submission and the dates of the submit request, none of which ever changes; versions only rise, an unchanged version is an unchanged draft, and a submitted draft never changes |
| Drafts.AcceptedSaveSawTheLatest | backend/src/event-drafts/drafts.service.ts:88-99 | a save that changes a draft was edited from the version it replaces, raises it by exactly one and touches no other draft |
| Drafts.StaleSaveChangesNothing | backend/src/event-drafts/drafts.service.ts:88-91 | once the version passed the one a window opened, that window's save changes nothing, whatever happened in between |
| Drafts.RetryChangesNothing | backend/src/event-drafts/drafts.service.ts:83-87 | repeating an accepted save at once answers with the same draft and changes nothing |
| Drafts.SaveAppliesOnce | backend/src/event-drafts/drafts.service.ts:83-99 | an accepted save takes effect once: repeating it after any run changes nothing |
| Drafts.SubmitAppliesOnce | backend/src/event-drafts/drafts.service.ts:120-129 | repeating a submission, with any version and any dates, after any run creates no second event and changes nothing |
| Drafts.OneWindowWins | backend/src/event-drafts/drafts.service.ts:88-91 | of two saves of one version, each acceptable alone, whichever comes second is refused as changed elsewhere |
| Drafts.TwoEventsTwoDrafts | backend/src/event-drafts/drafts.service.ts:136-153 | two event requests never come from one draft |
| Drafts.FirstSaveStartsTheDraft | backend/src/event-drafts/drafts.service.ts:63-102 | a save of an unknown draft is accepted exactly for version 0 and stores it as version 1 of the caller |
| Drafts.SaveWritesTheFields | backend/src/event-drafts/drafts.service.ts:76-102 | exactly when a save is accepted, what it writes and which condition gives each refusal |
| Drafts.SubmissionCreatesTheEvent | backend/src/event-drafts/drafts.service.ts:130-157 | exactly when a draft is submitted; the event has the draft's fields and the dates of this request |
| Drafts.SubmissionIsRepeated | backend/src/event-drafts/drafts.service.ts:120-129 | a repeated submission answers with the submitted draft exactly while its event is undecided |
| Drafts.SubmissionNeedsADraft | backend/src/event-drafts/drafts.service.ts:103-119 | a submission without a version, or of a draft that is not the caller's, is refused as such |
| Drafts.DecidedEventOnly | backend/src/event-drafts/drafts.service.ts:120-129 | a decision about one event changes no draft and no other event |
| Drafts.EventDatesWereSubmitted | backend/src/event-drafts/drafts.service.ts:136-153 | every event a run adds has the dates of a submission of its own draft in that run |
| Drafts.RunTakesTheNextStep | backend/src/event-drafts/drafts.service.ts:67-113 | a run that goes on takes the next request, one transaction each, from where it stood |
| Drafts.DraftsService.SaveRow | backend/src/event-drafts/drafts.service.ts:63-102 | insert, retry and version branches equal the transition, a refusal takes back a started draft, and one event per draft is kept |
| Drafts.DraftsService.SubmitRow | backend/src/event-drafts/drafts.service.ts:103-157 | retry and version branches equal the transition, and one event per draft, with its fields and dates, is kept |
| LeadAssignment.NoticesFollowTheAssignment | backend/src/lead/lead-assignment.service.ts:145-320 | in every reachable state each unread notice of every kind a reassignment clears is addressed to the event's current coordinator, or, about a clarification, to its organiser; reassignments form a chain of distinct coordinators ending at the current one; and a pending request's coordinator was told |
| LeadAssignment.ReassignmentClearsExactly | backend/src/lead/lead-assignment.service.ts:279-290 | a reassignment marks read exactly the former coordinator's unread notices that follow this event |
| LeadAssignment.SafetyResponseStaysBehind | backend/src/lead/lead-assignment.service.ts:279-290 | an unread safety response stays with the former coordinator |
| LeadAssignment.AssignmentIs | backend/src/lead/lead-assignment.service.ts:145-194 | exactly when an assignment is accepted; the coordinator is then told of it and of each pending request, and nothing else changes |
| LeadAssignment.ReassignmentIsAccepted | backend/src/lead/lead-assignment.service.ts:227-247 | exactly when a reassignment is accepted, and which condition gives each refusal |
| LeadAssignment.ReassignmentWrites | backend/src/lead/lead-assignment.service.ts:249-309 | the move is recorded; the new coordinator hears of it and of each pending request, the former one of having lost it |
| LeadAssignment.ChangeRequestsAre | backend/src/events/change-requests/change-requests.service.ts:163-250 | a change request is filed once while the event is not over, and exactly the assigned coordinator is told |
| LeadAssignment.CancellationRequestsAre | backend/src/events/cancellation-requests/cancellation-requests.service.ts:89-123 | a cancellation request is filed once while the event is not over, and exactly the assigned coordinator is told |
| LeadAssignment.RequestRefusals | backend/src/events/change-requests/change-requests.service.ts:170-210 | which condition gives each refusal of either request |
| LeadAssignment.DecisionsAreTold | backend/src/equipment/requests/equipment-decision-notice.ts:32-47 | equipment and venue decisions and venue changes tell exactly the assigned coordinator |
| LeadAssignment.HoldsAndResponsesAreTold | backend/src/venues/review/hold-lifecycle-notice.ts:53-80 | safety responses and hold changes tell exactly the assigned coordinator, holds of a cancelled event nobody |
| LeadAssignment.FollowingKinds | backend/src/lead/lead-assignment.service.ts:279-290 | a reassignment clears every kind of notice but the one of having lost the event and the safety response |
| LeadAssignment.RowsAreWritten | backend/src/lead/lead-assignment.service.ts:145-194 | reading a notice, moving a status and submitting an event write that one row |
| LeadAssignment.ClarificationIsAnswered | backend/src/clarifications/clarifications.service.ts:98-207 | exactly who may answer or resolve a clarification and when, and that the other side is told |
| LeadAssignment.ClarificationIsOpened | backend/src/clarifications/clarifications.service.ts:52-96 | only the assigned coordinator opens a clarification, before the event is confirmed, and the organiser is told |
| LeadAssignment.ClarificationRefusals | backend/src/clarifications/clarifications.service.ts:52-207 | which condition gives each refusal of a clarification |
| LeadAssignment.LeadAssignmentService.AssignRow | backend/src/lead/lead-assignment.service.ts:145-194 | an assignment keeps every unread notice with its current addressee and the reassignment chain, and tells the new coordinator of each pending request |
| LeadAssignment.LeadAssignmentService.ReassignRow | backend/src/lead/lead-assignment.service.ts:227-320 | a reassignment moves the event with its notices: no unread notice that follows it stays with the former coordinator, the chain grows by one move, and the new coordinator is told of each pending request |
| CsvExport.ExportIsDecodable | backend/src/registrations/report/export.service.ts:38-59 | a reader written from section 2 of RFC 4180 recovers from the export, after the byte order mark, exactly the header and one six-field record per row, each field the neutralised cell |
| CsvExport.ValuesStandUnderTheirHeadings | backend/src/registrations/report/export.service.ts:28-59 | read back, each row's name, email, number, requirements, date and status word stand under their own headings, protected exactly where a spreadsheet would read a formula |
| CsvExport.OnlySpecialCellsAreQuoted | backend/src/registrations/report/export.service.ts:38-41 | a cell is written as it is unless it holds a quote, a comma or a line break |
| CsvExport.DocumentRoundTrip | backend/src/registrations/report/export.service.ts:44-59 | every document of non-empty records reads back as its neutralised records |
| CsvExport.CellRoundTrip | backend/src/registrations/report/export.service.ts:38-42 | one cell reads back as its neutralised value whatever quotes, commas and line breaks it holds |
| CsvExport.NoRecoveredCellIsAFormula | backend/src/registrations/helpers/sanitization.ts:19-22 | no recovered data cell starts with a formula trigger |
| CsvExport.NeutralizingMergesExactly | backend/src/registrations/helpers/sanitization.ts:19-22 | exactly which two different values export as the same cell |

## Left out

- HTTP controllers, sessions, role checks, the order of 403 and 404 answers, message texts and field validation.
- SQL locking: each transaction is one atomic step that commits wholly or not at all.
- The PDF report, file names and date formatting of the report; dates are given strings. Character encoding of the file.
- Contact details and timestamps of registration rows other than those that order the waiting list; promotion notices.
- Overlap and turnaround conflicts in event-impact.ts: they are reported only beside a window conflict, so they never
  decide whether a booking is impacted.
- Which booking and line statuses count as active for planning: the change engine is given the active ones.
- Textual forms of a date: planning compares and checks dates as instants, so values are instants.
- Attachments, venue search, recommendations, venue schedules and the approval rules of venue staff: venue and equipment
  staff may write any row within what those services write.
- Equipment records' audit trail and the listing reads of equipment.service.ts, except the availability read.
- Readiness and checklist texts, request dates and the review marks beside items.
- Lowering letters beyond ASCII: none of them lowers to a letter of a status name, so such a part names no status.
- The string form of a query value that is not a string is given; so are a caller's roles on a clarification thread.
- Notices other than those named; message texts; the change request's re-check list.
- Fault injection is modelled at the releasers; a fault in any other statement rolls the same transaction back.
