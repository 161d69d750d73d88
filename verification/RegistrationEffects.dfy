/**
 When each registration operation is accepted, why it is refused and what it writes, in terms of the stored columns and
 the instant alone (backend/src/registrations/registrations.service.ts, registration-window.ts and settings/).
 */
module RegistrationEffects {
  import opened Wrappers
  import opened EventTypes
  import opened Waitlist
  import opened Registrations

  // ------------------------------------------------------------------ the window

  /** From the opening instant, included, to the closing instant, excluded; a missing edge does not limit. */
  ghost predicate InsideWindow(event: EventRow, now: int) {
    && (event.settings.opensAt.Some? ==> event.settings.opensAt.value <= now)
    && (event.settings.closesAt.Some? ==> now < event.settings.closesAt.value)
  }

  ghost predicate IsOpen(event: EventRow, now: int) {
    event.status == EventStatus.Confirmed && event.settings.enabled && InsideWindow(event, now)
  }

  ghost predicate Visible(event: EventRow) {
    || event.status == EventStatus.Confirmed || event.status == EventStatus.Completed
    || event.status == EventStatus.Cancelled
  }

  /** The waiting list is to be removed: registration is off or past its close. */
  ghost predicate ListEnded(w: Settings, now: int) {
    !w.enabled || (w.closesAt.Some? && w.closesAt.value <= now)
  }

  ghost predicate Has(rows: Rows, u: UserId, status: RowStatus) {
    u in rows && rows[u].status == status
  }

  /** The attendees counted against the limit. */
  ghost function Counted(rows: Rows): (counted: set<UserId>)
    ensures counted == Holders(rows)
  {
    set u | u in rows && rows[u].status == Registered
  }

  ghost predicate IsFull(s: State) {
    |Counted(s.rows)| >= s.event.settings.limit
  }

  /** Why the window keeps an attendee of a visible event out. */
  ghost predicate WindowRefuses(event: EventRow, now: int, reason: Refusal) {
    && (reason == Closed <==>
          event.status != EventStatus.Confirmed
          || (event.settings.enabled && event.settings.closesAt.Some? && event.settings.closesAt.value <= now
              && !(event.settings.opensAt.Some? && now < event.settings.opensAt.value)))
    && (reason == Disabled <==> event.status == EventStatus.Confirmed && !event.settings.enabled)
    && (reason == NotOpen <==>
          && event.status == EventStatus.Confirmed && event.settings.enabled
          && event.settings.opensAt.Some? && now < event.settings.opensAt.value)
  }

  lemma WindowMeans(event: EventRow, now: int)
    ensures RegistrationWindowState(event, now) == Open <==> IsOpen(event, now)
    ensures !IsOpen(event, now) ==>
      WindowRefuses(event, now, WindowRefusal(RegistrationWindowState(event, now)))
  {
  }

  // ------------------------------------------------------------------ registering

  /** Accepted exactly on an open event with a free place, for someone without an active or cancelled row. */
  lemma RegisterIsAccepted(s: State, u: UserId, now: int)
    ensures RegisterAttendee(s, u, now).reply == Done <==>
      && IsOpen(s.event, now) && !IsFull(s)
      && !Has(s.rows, u, Registered) && !Has(s.rows, u, Waitlisted) && !Has(s.rows, u, RowStatus.Cancelled)
  {
  }

  /** The caller then holds a place, and nothing else changed; a refusal changes nothing. */
  lemma RegisterTakesOnePlace(s: State, u: UserId, now: int)
    ensures RegisterAttendee(s, u, now).reply == Done ==>
      var after := RegisterAttendee(s, u, now).state;
      && after == s.(rows := after.rows) && after.rows == s.rows[u := Row(Registered, None)]
      && u !in Holders(s.rows) && Holders(after.rows) == Holders(s.rows) + {u}
    ensures RegisterAttendee(s, u, now).reply != Done ==> RegisterAttendee(s, u, now).state == s
  {
    RowUpdateSets(s.rows, u, Row(Registered, None));
  }

  /** Each refusal of a registration, in the order the checks are made. */
  lemma RegisterRefusals(s: State, u: UserId, now: int, reason: Refusal)
    requires RegisterAttendee(s, u, now).reply == Refused(reason)
    ensures reason == EventNotFound <==> !Visible(s.event)
    ensures Visible(s.event) && !IsOpen(s.event, now) ==> WindowRefuses(s.event, now, reason)
    ensures IsOpen(s.event, now) ==>
      && (reason == AlreadyWaiting <==> Has(s.rows, u, Waitlisted))
      && (reason == Full <==> !Has(s.rows, u, Registered) && !Has(s.rows, u, Waitlisted) && IsFull(s))
      && (reason == AlreadyRegistered <==>
            Has(s.rows, u, Registered) || (Has(s.rows, u, RowStatus.Cancelled) && !IsFull(s)))
  {
  }

  // ------------------------------------------------------------------ joining the list

  lemma OpenListIsKept(s: State, now: int)
    ensures Settle(s.event.settings, s.rows, now) == s.rows <==
      (IsOpen(s.event, now) || !ListEnded(s.event.settings, now))
    ensures Holders(Settle(s.event.settings, s.rows, now)) == Holders(s.rows)
  {
    SettleSets(s.event.settings, s.rows, now);
  }

  /** Accepted exactly on an open and full event, for someone who is neither part of it nor running it. */
  lemma JoinIsAccepted(s: State, u: UserId, now: int)
    ensures JoinQueue(s, u, now).reply.JoinedAt? <==>
      && IsOpen(s.event, now) && IsFull(s)
      && u != s.event.organiser && s.event.coordinator != Some(u)
      && !Has(s.rows, u, Registered) && !Has(s.rows, u, Waitlisted)
  {
    OpenListIsKept(s, now);
    WindowMeans(s.event, now);
  }

  /** The caller then waits with this instant and the next ticket, and nothing else changed. */
  lemma JoinWritesOneRow(s: State, u: UserId, now: int)
    ensures JoinQueue(s, u, now).reply.JoinedAt? ==>
      JoinQueue(s, u, now).state
        == s.(rows := s.rows[u := Row(Waitlisted, Some(Place(now, s.lastTicket + 1)))], lastTicket := s.lastTicket + 1)
    ensures !JoinQueue(s, u, now).reply.JoinedAt? ==> JoinQueue(s, u, now).state == s
  {
    JoinEffect(s, u, now);
  }

  lemma JoinRefusals(s: State, u: UserId, now: int, reason: Refusal)
    requires JoinQueue(s, u, now).reply == Refused(reason)
    ensures reason == EventNotFound <==> !Visible(s.event)
    ensures reason == WaitlistNotPermitted <==>
      Visible(s.event) && (u == s.event.organiser || s.event.coordinator == Some(u))
    ensures Visible(s.event) && reason != WaitlistNotPermitted && !IsOpen(s.event, now) ==>
      WindowRefuses(s.event, now, reason)
    ensures IsOpen(s.event, now) && reason != WaitlistNotPermitted ==>
      && (reason == AlreadyRegistered <==> Has(s.rows, u, Registered))
      && (reason == AlreadyWaiting <==> Has(s.rows, u, Waitlisted))
      && (reason == WaitlistNotAvailable <==>
            !Has(s.rows, u, Registered) && !Has(s.rows, u, Waitlisted) && !IsFull(s))
  {
    OpenListIsKept(s, now);
    WindowMeans(s.event, now);
  }

  // ------------------------------------------------------------------ withdrawing

  /** The row still takes part: registered, or waiting on a list that has not ended. */
  ghost predicate TakesPart(s: State, u: UserId, now: int) {
    Has(s.rows, u, Registered) || (Has(s.rows, u, Waitlisted) && !ListEnded(s.event.settings, now))
  }

  lemma WithdrawIsAccepted(s: State, u: UserId, now: int)
    ensures WithdrawAttendee(s, u, now).reply == Done <==> TakesPart(s, u, now) && now < s.event.startsAt
    ensures var reply := WithdrawAttendee(s, u, now).reply;
      && (reply == Refused(RegistrationNotFound) <==> u !in s.rows)
      && (reply == Refused(AlreadyWithdrawn) <==> Has(s.rows, u, RowStatus.Withdrawn))
      && (reply == Refused(EventIsCancelled) <==>
            Has(s.rows, u, RowStatus.Cancelled) && s.event.status == EventStatus.Cancelled)
      && (reply == Refused(NotWithdrawable) <==>
            || (Has(s.rows, u, RowStatus.Cancelled) && s.event.status != EventStatus.Cancelled)
            || Has(s.rows, u, RowStatus.Removed)
            || (Has(s.rows, u, Waitlisted) && ListEnded(s.event.settings, now)))
      && (reply == Refused(EventAlreadyOccurred) <==> TakesPart(s, u, now) && s.event.startsAt <= now)
  {
  }

  /** Waiting rows of an ended list are Removed; every other row is as it was. */
  ghost predicate EndedListRemoved(rows: Rows, after: Rows, ended: bool) {
    && after.Keys == rows.Keys
    && forall v :: v in rows ==>
         && after[v].place == rows[v].place
         && after[v].status == if ended && rows[v].status == Waitlisted then RowStatus.Removed else rows[v].status
  }

  lemma ReadingSettles(s: State, now: int)
    ensures EndedListRemoved(s.rows, Settle(s.event.settings, s.rows, now), ListEnded(s.event.settings, now))
  {
  }

  /** Leaving the list, or being refused: only the caller's row and the rows of an ended list can differ. */
  lemma WithdrawFromTheList(s: State, u: UserId, now: int)
    requires u in s.rows && !Has(s.rows, u, Registered)
    ensures var after := WithdrawAttendee(s, u, now);
      && after.state == s.(rows := after.state.rows)
      && (after.reply == Done ==> after.state.rows == s.rows[u := Row(RowStatus.Withdrawn, s.rows[u].place)])
      && (after.reply != Done ==>
            EndedListRemoved(s.rows, after.state.rows,
                             Has(s.rows, u, Waitlisted) && ListEnded(s.event.settings, now)))
  {
    SettleSets(s.event.settings, s.rows, now);
  }

  /** Giving up a place: the first in line is promoted while the list is open, and an ended list is Removed. */
  lemma WithdrawFromAPlace(s: State, u: UserId, now: int)
    requires Invariant(s) && Has(s.rows, u, Registered) && WithdrawAttendee(s, u, now).reply == Done
    ensures var after := WithdrawAttendee(s, u, now).state;
      var promoted := if ListEnded(s.event.settings, now) then {} else Front(s.rows, 1);
      && after == s.(rows := after.rows) && after.rows.Keys == s.rows.Keys
      && forall v :: v in s.rows ==>
           && after.rows[v].place == s.rows[v].place
           && after.rows[v].status == (if v == u then RowStatus.Withdrawn
                                       else if v in promoted then Registered
                                       else if ListEnded(s.event.settings, now) && s.rows[v].status == Waitlisted
                                       then RowStatus.Removed else s.rows[v].status)
  {
    var w, left := s.event.settings, MarkedLeft(s.rows, u);
    LeavingSets(s.rows, u);
    SettleSets(w, left, now);
    if ListEnded(w, now) {
      assert Front(Settle(w, left, now), w.limit - |Holders(left)|) == {};
    } else {
      FreedPlaceReaches(s.rows, left, u, w.limit);
      assert Settle(w, left, now) == left;
    }
  }

  // ------------------------------------------------------------------ the settings

  /** The settings after the request: every field it carries replaces the saved one. */
  ghost predicate Replaces(saved: Settings, patch: SettingsPatch, next: Settings) {
    && next.enabled == (if patch.enabled.Some? then patch.enabled.value else saved.enabled)
    && next.opensAt == (if patch.opensAt.Some? then patch.opensAt else saved.opensAt)
    && next.closesAt == (if patch.closesAt.Some? then patch.closesAt else saved.closesAt)
    && next.limit == (if patch.limit.Some? then patch.limit.value else saved.limit)
  }

  /** A period is judged only when the request gives an edge: it closes after it opens, and by the event's start. */
  ghost predicate PeriodFits(patch: SettingsPatch, next: Settings, startsAt: int) {
    (patch.opensAt.Some? || patch.closesAt.Some?) && next.closesAt.Some? ==>
      && (next.opensAt.Some? ==> next.opensAt.value < next.closesAt.value)
      && next.closesAt.value <= startsAt
  }

  ghost predicate MayStore(s: State, patch: SettingsPatch, next: Settings) {
    && 1 <= next.limit <= 2147483647
    && PeriodFits(patch, next, s.event.startsAt)
    && (next.enabled ==> next.opensAt.Some? && next.closesAt.Some?)
    && |Counted(s.rows)| <= next.limit
  }

  ghost predicate Configures(s: State) {
    s.event.status == EventStatus.Approved || s.event.status == EventStatus.Planning
    || s.event.status == EventStatus.Confirmed
  }

  /** Accepted exactly for the current version, on a configurable event, when the merged settings are valid. */
  lemma SettingsAreAccepted(s: State, version: nat, patch: SettingsPatch, now: int, next: Settings)
    requires Replaces(s.event.settings, patch, next)
    ensures ApplySettings(s, version, patch, now).reply == Done <==>
      Configures(s) && version == s.event.version && MayStore(s, patch, next)
  {
    SettleSets(s.event.settings, s.rows, now);
    assert next == Merged(s.event.settings, patch);
  }

  /** Each refusal of new settings, in the order the checks are made. */
  lemma SettingsRefusals(s: State, version: nat, patch: SettingsPatch, now: int, next: Settings, reason: Refusal)
    requires Replaces(s.event.settings, patch, next) && ApplySettings(s, version, patch, now).reply == Refused(reason)
    ensures ApplySettings(s, version, patch, now).state == s
    ensures reason == NotConfigurable <==> !Configures(s)
    ensures reason == SettingsConflict <==> Configures(s) && version != s.event.version
    ensures Configures(s) && version == s.event.version ==>
      && (reason == InvalidCapacity <==> next.limit < 1)
      && (reason == CapacityTooLarge <==> next.limit > 2147483647)
      && (reason == InvalidPeriod <==> 1 <= next.limit <= 2147483647 && !PeriodFits(patch, next, s.event.startsAt))
      && (reason == Incomplete <==>
            && 1 <= next.limit <= 2147483647 && PeriodFits(patch, next, s.event.startsAt)
            && next.enabled && (next.opensAt.None? || next.closesAt.None?))
      && (reason == CapacityBelowConfirmed <==>
            && 1 <= next.limit <= 2147483647 && PeriodFits(patch, next, s.event.startsAt)
            && (next.enabled ==> next.opensAt.Some? && next.closesAt.Some?) && |Counted(s.rows)| > next.limit)
  {
    SettleSets(s.event.settings, s.rows, now);
    assert next == Merged(s.event.settings, patch);
  }

  /**
   Stored settings raise the version by one and leave every other column of the event. A list that the old or the new
   window ends is Removed; otherwise a raised limit promotes exactly the entries that the free places reach.
   */
  lemma SettingsAreStored(s: State, version: nat, patch: SettingsPatch, now: int, next: Settings)
    requires Replaces(s.event.settings, patch, next) && ApplySettings(s, version, patch, now).reply == Done
    ensures var after := ApplySettings(s, version, patch, now).state;
      var ended := ListEnded(s.event.settings, now) || ListEnded(next, now);
      var reached := if !ended && next.limit > s.event.settings.limit
                     then Front(s.rows, next.limit - |Counted(s.rows)|) else {};
      && after.event == s.event.(settings := next, version := s.event.version + 1) && after.lastTicket == s.lastTicket
      && after.rows.Keys == s.rows.Keys
      && forall v :: v in s.rows ==>
           && after.rows[v].place == s.rows[v].place
           && after.rows[v].status == (if v in reached then Registered
                                       else if ended && s.rows[v].status == Waitlisted then RowStatus.Removed
                                       else s.rows[v].status)
  {
    var saved := s.event.settings;
    assert next == Merged(saved, patch);
    var settled := Settle(saved, s.rows, now);
    var resettled := Settle(next, settled, now);
    SettleSets(saved, s.rows, now);
    SettleSets(next, settled, now);
    SettleSets(next, resettled, now);
    if ListEnded(saved, now) || ListEnded(next, now) {
      assert Waiting(resettled) == {};
      assert Front(Settle(next, resettled, now), next.limit - |Holders(resettled)|) == {};
    } else {
      assert resettled == s.rows;
    }
  }

  /** Cancelling: places are Cancelled, and waiting entries too unless their list has ended, which Removes them. */
  lemma CancelClosesTheRows(s: State, now: int)
    ensures CancelEvent(s, now).reply == Done <==>
      s.event.status != EventStatus.Rejected && s.event.status != EventStatus.Completed
      && s.event.status != EventStatus.Cancelled
    ensures CancelEvent(s, now).reply != Done ==> CancelEvent(s, now) == Result(s, Refused(NotCancellable))
    ensures CancelEvent(s, now).reply == Done ==>
      var after := CancelEvent(s, now).state;
      && after == s.(event := s.event.(status := EventStatus.Cancelled), rows := after.rows)
      && after.rows.Keys == s.rows.Keys
      && forall v :: v in s.rows ==>
           && after.rows[v].place == s.rows[v].place
           && after.rows[v].status == (if s.rows[v].status == Registered then RowStatus.Cancelled
                                       else if s.rows[v].status != Waitlisted then s.rows[v].status
                                       else if ListEnded(s.event.settings, now) then RowStatus.Removed
                                       else RowStatus.Cancelled)
  {
    CancellableUnlessOver(s.event.status);
  }

  /** The rest of the system: reading settles the list, other services move the event, the sequence only counts up. */
  lemma OtherStepsAre(s: State, now: int, status: EventStatus, coordinator: Option<UserId>, startsAt: int, count: nat)
    ensures Step(s, SettleOnRead(now)).reply == Done
    ensures var after := Step(s, SettleOnRead(now)).state;
      after == s.(rows := after.rows) && EndedListRemoved(s.rows, after.rows, ListEnded(s.event.settings, now))
    ensures Step(s, MoveEvent(status, coordinator, startsAt))
      == if status == EventStatus.Cancelled then Result(s, Refused(NotCancellable))
         else Result(s.(event := s.event.(status := status, coordinator := coordinator, startsAt := startsAt)), Done)
    ensures Step(s, DrawTickets(count)) == Result(s.(lastTicket := s.lastTicket + count), Done)
  {
    ReadingSettles(s, now);
  }
}
