/**
 * What the conversation flow promises, stated over the handler functions:
 * how each command and each reply prefix moves a phone's state, that replies
 * without a state only greet, that a confirmation always ends the
 * conversation, that the stored step never influences dispatch, and that the
 * handlers keep the store's indexes and the state keys intact.
 */
module HandlerProperties {
  import opened Domain
  import opened Text
  import opened Seqs
  import opened Dates
  import opened Repositories
  import opened Store
  import opened Booking
  import opened Conversations
  import opened Messaging
  import opened MessageHandling

  /** The world after the user lookup-or-create every handler starts with. */
  function AfterUserLookup(w: World, from: string, name: Option<string>): (r: World)
    ensures r.states == w.states && r.sent == w.sent && SameSetup(w.db, r.db)
  {
    w.(db := GetOrCreateUserSpec(w.db, from, name).0)
  }

  /** The worker list offers exactly the active workers. */
  lemma WorkerRowsOfferActiveWorkers(workers: seq<Worker>, id: int)
    ensures WorkerRow(id) in WorkerRows(ActiveWorkers(workers)) <==>
            exists k :: 0 <= k < |workers| && workers[k].id == id && workers[k].isActive
  {
    var active := ActiveWorkers(workers);
    var rows := WorkerRows(active);
    if WorkerRow(id) in rows {
      var i :| 0 <= i < |rows| && rows[i] == WorkerRow(id);
      assert active[i] in active;
      var k :| 0 <= k < |workers| && workers[k] == active[i];
    }
    if exists k :: 0 <= k < |workers| && workers[k].id == id && workers[k].isActive {
      var k :| 0 <= k < |workers| && workers[k].id == id && workers[k].isActive;
      assert workers[k] in active;
      var i :| 0 <= i < |active| && active[i] == workers[k];
      assert rows[i] == WorkerRow(id);
    }
  }

  /**
   * "/randevu..." or "randevu" restarts booking whatever the stored state: with
   * no active worker only a text is sent; otherwise the phone gets a fresh
   * AwaitingWorker state and one list row per active worker.
   */
  lemma BookingCommandRestarts(w: World, from: string, text: string, name: Option<string>, clock: Clock)
    requires IsBookingCommand(Command(text))
    ensures var r := IncomingMessage(w, from, text, name, clock);
            var workers := ActiveWorkers(w.db.workers);
            r.db == AfterUserLookup(w, from, name).db
            && (|workers| == 0 ==> r.states == w.states && r.sent == w.sent + [Text(from, NoWorkers)])
            && (|workers| > 0 ==>
                  Lookup(r.states, from) == Some(Fresh(from, AwaitingWorker, clock.stamp))
                  && (forall p :: p != from ==> Lookup(r.states, p) == Lookup(w.states, p))
                  && r.sent == w.sent + [List(from, WorkerList, WorkerRows(workers))])
  {
    var w1 := AfterUserLookup(w, from, name);
    assert ActiveWorkers(w1.db.workers) == ActiveWorkers(w.db.workers);
  }

  /** "/iptal..." lists the user's active appointments, or says there are none, and never stores a state. */
  lemma CancelCommandStoresNothing(w: World, from: string, text: string, name: Option<string>, clock: Clock)
    requires !IsBookingCommand(Command(text)) && IsCancelCommand(Command(text))
    ensures var r := IncomingMessage(w, from, text, name, clock);
            var user := GetOrCreateUserSpec(w.db, from, name).1;
            var appts := ActiveOfUser(r.db.appointments, user.id);
            r.states == w.states && r.db == AfterUserLookup(w, from, name).db
            && r.sent == w.sent + [if |appts| == 0 then Text(from, NoActiveAppointments)
                                   else List(from, CancelList, CancelRows(appts))]
  {
  }

  /** Text that is not a command gets the "choose an option" prompt when a state exists and the welcome otherwise, and changes no state. */
  lemma OtherTextPromptsOrWelcomes(w: World, from: string, text: string, name: Option<string>, clock: Clock)
    requires !IsBookingCommand(Command(text)) && !IsCancelCommand(Command(text)) && !IsHelpCommand(Command(text))
    ensures var r := IncomingMessage(w, from, text, name, clock);
            r.states == w.states && r.db == AfterUserLookup(w, from, name).db
            && r.sent == w.sent + [Text(from, if from in w.states then ChooseAnOption else Welcome)]
  {
  }

  /** An interactive reply from a phone without a state is answered with the welcome text only, whatever the reply id (cancel_ ids included). */
  lemma ReplyWithoutStateWelcomes(w: World, from: string, replyId: string, clock: Clock)
    requires ClockOk(clock)
    requires from !in w.states
    ensures InteractiveReply(w, from, replyId, clock) == (Sent(AfterUserLookup(w, from, None), Text(from, Welcome)), false)
  {
  }

  /** The prefixes the dispatcher tests are mutually exclusive. */
  lemma PrefixesExclusive(replyId: string)
    ensures StartsWith(replyId, DatePrefix) ==> !StartsWith(replyId, WorkerPrefix)
    ensures StartsWith(replyId, TimePrefix) ==> !StartsWith(replyId, WorkerPrefix) && !StartsWith(replyId, DatePrefix)
    ensures StartsWith(replyId, CancelPrefix) ==>
              !StartsWith(replyId, WorkerPrefix) && !StartsWith(replyId, DatePrefix) && !StartsWith(replyId, TimePrefix)
    ensures replyId == ConfirmYes || replyId == ConfirmNo ==>
              !StartsWith(replyId, WorkerPrefix) && !StartsWith(replyId, DatePrefix)
              && !StartsWith(replyId, TimePrefix) && !StartsWith(replyId, CancelPrefix)
  {
    if StartsWith(replyId, DatePrefix) {
      assert replyId[0] == DatePrefix[0];
    }
    if StartsWith(replyId, TimePrefix) {
      assert replyId[0] == TimePrefix[0];
    }
    if StartsWith(replyId, CancelPrefix) {
      assert replyId[0] == CancelPrefix[0];
    }
    if replyId == ConfirmYes || replyId == ConfirmNo {
      assert replyId[0] == 'c' && replyId[1] == 'o';
      assert |replyId| >= |CancelPrefix| ==> replyId[..|CancelPrefix|][1] == 'o';
    }
  }

  /**
   * A worker_ reply: an unparseable id or an unknown or inactive worker leaves
   * every state as it was; otherwise the phone's state records the worker and
   * moves to AwaitingDate, and the seven dates from today are offered.
   */
  lemma WorkerReplyOutcome(w: World, from: string, replyId: string, clock: Clock)
    requires ClockOk(clock) && StatesKeyed(w.states)
    requires from in w.states && StartsWith(replyId, WorkerPrefix)
    ensures var (r, fault) := InteractiveReply(w, from, replyId, clock);
            var st := w.states[from];
            var parsed := ParseInt32(RemoveAll(replyId, WorkerPrefix));
            !fault
            && (parsed.None? || ActiveWorkerById(w.db.workers, parsed.value).None? ==> r.states == w.states)
            && (parsed.Some? && ActiveWorkerById(w.db.workers, parsed.value).Some? ==>
                  Lookup(r.states, from) == Some(st.(selectedWorkerId := parsed,
                                                     selectedWorkerName := Some(ActiveWorkerById(w.db.workers, parsed.value).value.name),
                                                     currentStep := AwaitingDate, lastUpdated := clock.stamp))
                  && r.sent == w.sent + [List(from, DateList, DateRows(clock.today))])
  {
    var w1 := AfterUserLookup(w, from, None);
    assert w1.db.workers == w.db.workers;
  }

  /** Choosing a worker from the offered list selects exactly that worker. */
  lemma OfferedWorkerIsSelected(w: World, from: string, k: int, clock: Clock)
    requires ClockOk(clock) && StatesKeyed(w.states) && Valid(w.db)
    requires from in w.states
    requires 0 <= k < |w.db.workers| && w.db.workers[k].isActive && w.db.workers[k].id <= Int32Max
    ensures var (r, _) := InteractiveReply(w, from, RowIdText(WorkerRow(w.db.workers[k].id)), clock);
            Lookup(r.states, from).Some?
            && Lookup(r.states, from).value.selectedWorkerId == Some(w.db.workers[k].id)
            && Lookup(r.states, from).value.currentStep == AwaitingDate
  {
    var worker := w.db.workers[k];
    var replyId := RowIdText(WorkerRow(worker.id));
    RowIdRoundTrip(WorkerRow(worker.id));
    assert ParseInt32(RemoveAll(replyId, WorkerPrefix)) == Some(worker.id);
    FirstWhereUnique(w.db.workers, (x: Worker) => x.id == worker.id, k);
    assert ActiveWorkerById(w.db.workers, worker.id) == Some(worker);
    WorkerReplyOutcome(w, from, replyId, clock);
  }

  /**
   * A date_ reply: an unparseable date leaves every state as it was; without a
   * selected worker, or with no available slot, the phone's state is cleared;
   * when the slot query never returns, the date is recorded, nothing is sent
   * and the request ends there; otherwise the state records the date and moves
   * to AwaitingTime, and at most ten available times are offered.
   */
  lemma DateReplyOutcome(w: World, from: string, replyId: string, clock: Clock)
    requires ClockOk(clock) && StatesKeyed(w.states)
    requires from in w.states && StartsWith(replyId, DatePrefix)
    ensures var (r, fault) := InteractiveReply(w, from, replyId, clock);
            var st := w.states[from];
            var parsed := ParseExactDate(RemoveAll(replyId, DatePrefix));
            var recorded := Some(st.(selectedDate := parsed, currentStep := AwaitingTime, lastUpdated := clock.stamp));
            (parsed.None? ==> r.states == w.states && !fault)
            && (parsed.Some? && st.selectedWorkerId.None? ==> from !in r.states && !fault)
            && (parsed.Some? && st.selectedWorkerId.Some? ==>
                  var slots := AvailableSlots(w.db, st.selectedWorkerId.value, parsed.value, clock.today, clock.second);
                  (fault <==> slots.None?)
                  && (slots.None? ==> Lookup(r.states, from) == recorded && r.sent == w.sent)
                  && (slots == Some([]) ==> from !in r.states)
                  && (slots.Some? && slots.value != [] ==>
                        Lookup(r.states, from) == recorded
                        && r.sent == w.sent + [List(from, TimeList, TimeRows(Take(slots.value, MaxTimeRows)))]
                        && |Take(slots.value, MaxTimeRows)| <= MaxTimeRows))
  {
    PrefixesExclusive(replyId);
    var w1 := AfterUserLookup(w, from, None);
    assert w1.db.schedules == w.db.schedules && w1.db.configs == w.db.configs;
    var parsed := ParseExactDate(RemoveAll(replyId, DatePrefix));
    var st := w.states[from];
    if parsed.Some? && st.selectedWorkerId.Some? {
      AvailableSlotsIgnoreUsers(w.db, w1.db, st.selectedWorkerId.value, parsed.value, clock);
    }
  }

  /** The slot query reads schedules, configuration and appointments only. */
  lemma AvailableSlotsIgnoreUsers(a: DbState, b: DbState, workerId: int, date: Date, clock: Clock)
    requires a.schedules == b.schedules && a.configs == b.configs && a.appointments == b.appointments
    ensures AvailableSlots(a, workerId, date, clock.today, clock.second) == AvailableSlots(b, workerId, date, clock.today, clock.second)
  {
  }

  /**
   * A time_ reply with a readable time records it and moves to
   * ConfirmingAppointment (the handler then throws when no date was chosen);
   * an unreadable one leaves every state as it was.
   */
  lemma TimeReplyOutcome(w: World, from: string, replyId: string, clock: Clock)
    requires ClockOk(clock) && StatesKeyed(w.states)
    requires from in w.states && StartsWith(replyId, TimePrefix)
    ensures var (r, fault) := InteractiveReply(w, from, replyId, clock);
            var st := w.states[from];
            var parsed := ParseExactTime(RemoveAll(replyId, TimePrefix));
            (parsed.None? ==> r.states == w.states && !fault)
            && (parsed.Some? ==>
                  Lookup(r.states, from) == Some(st.(selectedTime := parsed, currentStep := ConfirmingAppointment,
                                                     lastUpdated := clock.stamp))
                  && fault == st.selectedDate.None?)
  {
    PrefixesExclusive(replyId);
  }

  /** After confirm_yes or confirm_no the phone has no state, whether or not a booking was made. */
  lemma ConfirmationEndsConversation(w: World, from: string, replyId: string, clock: Clock)
    requires ClockOk(clock)
    requires replyId == ConfirmYes || replyId == ConfirmNo
    ensures var (r, fault) := InteractiveReply(w, from, replyId, clock);
            from !in r.states && !fault
  {
    PrefixesExclusive(replyId);
  }

  /** A confirmed booking is made exactly when the booking engine accepts the selected worker, date and time. */
  lemma ConfirmYesBooks(w: World, from: string, clock: Clock)
    requires ClockOk(clock)
    requires from in w.states
    ensures var (r, _) := InteractiveReply(w, from, ConfirmYes, clock);
            var st := w.states[from];
            var (db1, user) := GetOrCreateUserSpec(w.db, from, None);
            (st.selectedDate.None? || st.selectedTime.None? || st.selectedWorkerId.None? ==>
               r.db == db1 && r.sent == w.sent + [Text(from, BookingError)])
            && (st.selectedDate.Some? && st.selectedTime.Some? && st.selectedWorkerId.Some? ==>
                  var saved := CreateAppointmentSpec(db1, user.id, st.selectedWorkerId.value, st.selectedDate.value,
                                                     st.selectedTime.value, st.serviceType, clock.today, clock.second);
                  r.db == saved.state
                  && r.sent == w.sent + [Text(from, if saved.result.Some? then BookingCreated(saved.result.value.id)
                                                    else SlotUnavailable)])
  {
    PrefixesExclusive(ConfirmYes);
  }

  /** A reply id with none of the known prefixes, other than the two confirmations, only records the user contact. */
  lemma UnknownReplyIgnored(w: World, from: string, replyId: string, clock: Clock)
    requires ClockOk(clock) && from in w.states
    requires !StartsWith(replyId, WorkerPrefix) && !StartsWith(replyId, DatePrefix)
    requires !StartsWith(replyId, TimePrefix) && !StartsWith(replyId, CancelPrefix)
    requires replyId != ConfirmYes && replyId != ConfirmNo
    ensures InteractiveReply(w, from, replyId, clock) == (AfterUserLookup(w, from, None), false)
  {
  }

  /** The phone's state with its CurrentStep replaced. */
  function WithStep(w: World, from: string, step: Step): World
    requires from in w.states
  {
    w.(states := w.states[from := w.states[from].(currentStep := step)])
  }

  /** Two worlds that agree on everything except, possibly, the CurrentStep of one phone's state. */
  ghost predicate SameUpToStep(a: World, b: World, from: string)
  {
    a.sent == b.sent && a.db == b.db
    && (from in a.states <==> from in b.states)
    && (from in a.states ==> b.states[from].(currentStep := a.states[from].currentStep) == a.states[from])
    && forall p :: p != from ==> Lookup(b.states, p) == Lookup(a.states, p)
  }

  lemma SentStoredClearedKeepSameUpToStep(a: World, b: World, from: string, m: Outbound, st: ConversationState, stamp: int)
    requires SameUpToStep(a, b, from)
    ensures SameUpToStep(Sent(a, m), Sent(b, m), from)
    ensures SameUpToStep(Stored(a, st, stamp), Stored(b, st, stamp), from)
    ensures SameUpToStep(Cleared(a, from), Cleared(b, from), from)
  {
  }

  lemma WorkerSelectionIgnoresStep(a: World, b: World, from: string, replyId: string, st: ConversationState, step: Step, clock: Clock)
    requires SameUpToStep(a, b, from) && ClockOk(clock)
    ensures SameUpToStep(WorkerSelection(a, from, replyId, st, clock),
                         WorkerSelection(b, from, replyId, st.(currentStep := step), clock), from)
  {
    match ParseInt32(RemoveAll(replyId, WorkerPrefix))
    case None =>
      SentStoredClearedKeepSameUpToStep(a, b, from, Text(from, InvalidSelection), st, clock.stamp);
    case Some(id) =>
      match ActiveWorkerById(a.db.workers, id)
      case None =>
        SentStoredClearedKeepSameUpToStep(a, b, from, Text(from, WorkerNotFound), st, clock.stamp);
      case Some(worker) =>
        var st1 := st.(selectedWorkerId := Some(id), selectedWorkerName := Some(worker.name), currentStep := AwaitingDate);
        assert st.(currentStep := step).(selectedWorkerId := Some(id), selectedWorkerName := Some(worker.name), currentStep := AwaitingDate) == st1;
        SentStoredClearedKeepSameUpToStep(a, b, from, Text(from, WorkerNotFound), st1, clock.stamp);
        SentStoredClearedKeepSameUpToStep(Stored(a, st1, clock.stamp), Stored(b, st1, clock.stamp), from,
                                          List(from, DateList, DateRows(clock.today)), st1, clock.stamp);
  }

  lemma DateSelectionIgnoresStep(a: World, b: World, from: string, replyId: string, st: ConversationState, step: Step, clock: Clock)
    requires SameUpToStep(a, b, from)
    ensures SameUpToStep(DateSelection(a, from, replyId, st, clock).0,
                         DateSelection(b, from, replyId, st.(currentStep := step), clock).0, from)
    ensures DateSelection(a, from, replyId, st, clock).1 == DateSelection(b, from, replyId, st.(currentStep := step), clock).1
  {
    match ParseExactDate(RemoveAll(replyId, DatePrefix))
    case None =>
      SentStoredClearedKeepSameUpToStep(a, b, from, Text(from, InvalidDate), st, clock.stamp);
    case Some(date) =>
      if st.selectedWorkerId.None? {
        SentStoredClearedKeepSameUpToStep(a, b, from, Text(from, SelectWorkerFirst), st, clock.stamp);
        SentStoredClearedKeepSameUpToStep(Sent(a, Text(from, SelectWorkerFirst)), Sent(b, Text(from, SelectWorkerFirst)),
                                          from, Text(from, SelectWorkerFirst), st, clock.stamp);
      } else {
        DateSelectionWithWorkerIgnoresStep(a, b, from, replyId, st, step, clock, date);
      }
  }

  /** The case of DateSelectionIgnoresStep where the date parses and a worker is selected. */
  lemma DateSelectionWithWorkerIgnoresStep(a: World, b: World, from: string, replyId: string, st: ConversationState,
                                           step: Step, clock: Clock, date: Date)
    requires SameUpToStep(a, b, from)
    requires ParseExactDate(RemoveAll(replyId, DatePrefix)) == Some(date) && st.selectedWorkerId.Some?
    ensures SameUpToStep(DateSelection(a, from, replyId, st, clock).0,
                         DateSelection(b, from, replyId, st.(currentStep := step), clock).0, from)
    ensures DateSelection(a, from, replyId, st, clock).1 == DateSelection(b, from, replyId, st.(currentStep := step), clock).1
  {
    var st1 := st.(selectedDate := Some(date), currentStep := AwaitingTime);
    assert st.(currentStep := step).(selectedDate := Some(date), currentStep := AwaitingTime) == st1;
    SentStoredClearedKeepSameUpToStep(a, b, from, Text(from, NoSlots), st1, clock.stamp);
    var a1 := Stored(a, st1, clock.stamp);
    var b1 := Stored(b, st1, clock.stamp);
    match AvailableSlots(a.db, st.selectedWorkerId.value, date, clock.today, clock.second)
    case None =>
    case Some(slots) =>
      SentStoredClearedKeepSameUpToStep(a1, b1, from, Text(from, NoSlots), st1, clock.stamp);
      SentStoredClearedKeepSameUpToStep(Sent(a1, Text(from, NoSlots)), Sent(b1, Text(from, NoSlots)), from,
                                        Text(from, NoSlots), st1, clock.stamp);
      SentStoredClearedKeepSameUpToStep(a1, b1, from, List(from, TimeList, TimeRows(Take(slots, MaxTimeRows))), st1, clock.stamp);
  }

  lemma TimeSelectionIgnoresStep(a: World, b: World, from: string, replyId: string, st: ConversationState, step: Step, clock: Clock)
    requires SameUpToStep(a, b, from)
    ensures SameUpToStep(TimeSelection(a, from, replyId, st, clock).0,
                         TimeSelection(b, from, replyId, st.(currentStep := step), clock).0, from)
    ensures TimeSelection(a, from, replyId, st, clock).1 == TimeSelection(b, from, replyId, st.(currentStep := step), clock).1
  {
    match ParseExactTime(RemoveAll(replyId, TimePrefix))
    case None =>
      SentStoredClearedKeepSameUpToStep(a, b, from, Text(from, InvalidTime), st, clock.stamp);
    case Some(time) =>
      var st1 := st.(selectedTime := Some(time), currentStep := ConfirmingAppointment);
      assert st.(currentStep := step).(selectedTime := Some(time), currentStep := ConfirmingAppointment) == st1;
      SentStoredClearedKeepSameUpToStep(a, b, from, Text(from, InvalidTime), st1, clock.stamp);
      SentStoredClearedKeepSameUpToStep(Stored(a, st1, clock.stamp), Stored(b, st1, clock.stamp), from,
                                        Buttons(from, [ConfirmYes, ConfirmNo]), st1, clock.stamp);
  }

  lemma ConfirmationIgnoresStep(a: World, b: World, from: string, st: ConversationState, step: Step, userId: int, clock: Clock)
    requires SameUpToStep(a, b, from)
    ensures SameUpToStep(Confirmation(a, from, st, userId, clock),
                         Confirmation(b, from, st.(currentStep := step), userId, clock), from)
  {
    if st.selectedDate.None? || st.selectedTime.None? || st.selectedWorkerId.None? {
      SentStoredClearedKeepSameUpToStep(a, b, from, Text(from, BookingError), st, clock.stamp);
      SentStoredClearedKeepSameUpToStep(Sent(a, Text(from, BookingError)), Sent(b, Text(from, BookingError)), from,
                                        Text(from, BookingError), st, clock.stamp);
    } else {
      var saved := CreateAppointmentSpec(a.db, userId, st.selectedWorkerId.value, st.selectedDate.value,
                                         st.selectedTime.value, st.serviceType, clock.today, clock.second);
      var a1 := a.(db := saved.state);
      var b1 := b.(db := saved.state);
      var m := if saved.result.Some? then Text(from, BookingCreated(saved.result.value.id)) else Text(from, SlotUnavailable);
      SentStoredClearedKeepSameUpToStep(a1, b1, from, m, st, clock.stamp);
      SentStoredClearedKeepSameUpToStep(Sent(a1, m), Sent(b1, m), from, m, st, clock.stamp);
    }
  }

  /**
   * Dispatch never reads CurrentStep: whatever step the phone's state records,
   * the same messages are sent, the store ends the same, the same fault is
   * raised, and the states end the same up to the phone's step.
   */
  lemma DispatchIgnoresStep(w: World, from: string, replyId: string, clock: Clock, step: Step)
    requires ClockOk(clock) && from in w.states
    ensures InteractiveReply(w, from, replyId, clock).1 == InteractiveReply(WithStep(w, from, step), from, replyId, clock).1
    ensures SameUpToStep(InteractiveReply(w, from, replyId, clock).0, InteractiveReply(WithStep(w, from, step), from, replyId, clock).0, from)
  {
    var w' := WithStep(w, from, step);
    var (db1, user) := GetOrCreateUserSpec(w.db, from, None);
    var a := w.(db := db1);
    var b := w'.(db := db1);
    var st := w.states[from];
    assert SameUpToStep(a, b, from);
    assert b.states[from] == st.(currentStep := step);
    if StartsWith(replyId, WorkerPrefix) {
      WorkerSelectionIgnoresStep(a, b, from, replyId, st, step, clock);
    } else if StartsWith(replyId, DatePrefix) {
      DateSelectionIgnoresStep(a, b, from, replyId, st, step, clock);
    } else if StartsWith(replyId, TimePrefix) {
      TimeSelectionIgnoresStep(a, b, from, replyId, st, step, clock);
    } else if StartsWith(replyId, CancelPrefix) {
      var m := AppointmentCancellation(a, from, replyId, user.id);
      assert SameUpToStep(m, AppointmentCancellation(b, from, replyId, user.id), from);
    } else if replyId == ConfirmYes {
      ConfirmationIgnoresStep(a, b, from, st, step, user.id, clock);
    } else if replyId == ConfirmNo {
      SentStoredClearedKeepSameUpToStep(a, b, from, Text(from, BookingAborted), st, clock.stamp);
      SentStoredClearedKeepSameUpToStep(Sent(a, Text(from, BookingAborted)), Sent(b, Text(from, BookingAborted)), from,
                                        Text(from, BookingAborted), st, clock.stamp);
    }
  }

  /** Storing or removing a state keeps every state under its own phone number. */
  lemma PutRemoveKeepKeyed(states: map<string, ConversationState>, st: ConversationState, stamp: int, phone: string)
    requires StatesKeyed(states)
    ensures StatesKeyed(Put(states, st, stamp)) && StatesKeyed(Remove(states, phone))
    ensures StatesKeyed(Remove(Put(states, st, stamp), phone))
  {
  }

  /** The store keeps its unique indexes and every state sits under its own phone number. */
  predicate WorldOk(w: World)
  {
    Valid(w.db) && StatesKeyed(w.states)
  }

  /** Sending, storing and clearing keep the world's invariants. */
  lemma SentStoredClearedKeepOk(w: World, m: Outbound, st: ConversationState, stamp: int, phone: string)
    requires WorldOk(w)
    ensures WorldOk(Sent(w, m)) && WorldOk(Stored(w, st, stamp)) && WorldOk(Cleared(w, phone))
    ensures WorldOk(Cleared(Sent(w, m), phone))
    ensures WorldOk(Sent(Stored(w, st, stamp), m)) && WorldOk(Cleared(Sent(Stored(w, st, stamp), m), phone))
  {
    PutRemoveKeepKeyed(w.states, st, stamp, phone);
    PutRemoveKeepKeyed(Put(w.states, st, stamp), st, stamp, phone);
  }

  /** A text message keeps the store's unique indexes and stores each state under its own phone number. */
  lemma IncomingKeepsInvariants(w: World, from: string, text: string, name: Option<string>, clock: Clock)
    requires WorldOk(w)
    ensures WorldOk(IncomingMessage(w, from, text, name, clock))
  {
    GetOrCreateUserStores(w.db, from, name);
    var (db1, user) := GetOrCreateUserSpec(w.db, from, name);
    var w1 := w.(db := db1);
    var command := Command(text);
    var r := IncomingMessage(w, from, text, name, clock);
    if IsBookingCommand(command) {
      assert r == StartBooking(w1, from, clock.stamp);
      var workers := ActiveWorkers(w1.db.workers);
      SentStoredClearedKeepOk(w1, List(from, WorkerList, WorkerRows(workers)), Fresh(from, AwaitingWorker, clock.stamp), clock.stamp, from);
    } else if IsCancelCommand(command) {
      assert r == StartCancellation(w1, from, user.id);
    } else if IsHelpCommand(command) {
      assert r == Sent(w1, Text(from, Help));
    } else if from in w1.states {
      assert r == Sent(w1, Text(from, ChooseAnOption));
    } else {
      assert r == Sent(w1, Text(from, Welcome));
    }
  }

  lemma WorkerSelectionKeepsOk(w: World, from: string, replyId: string, st: ConversationState, clock: Clock)
    requires WorldOk(w) && ClockOk(clock)
    ensures WorldOk(WorkerSelection(w, from, replyId, st, clock))
  {
    match ParseInt32(RemoveAll(replyId, WorkerPrefix))
    case None => SentStoredClearedKeepOk(w, Text(from, InvalidSelection), st, clock.stamp, from);
    case Some(id) =>
      match ActiveWorkerById(w.db.workers, id)
      case None => SentStoredClearedKeepOk(w, Text(from, WorkerNotFound), st, clock.stamp, from);
      case Some(worker) =>
        var st' := st.(selectedWorkerId := Some(id), selectedWorkerName := Some(worker.name), currentStep := AwaitingDate);
        SentStoredClearedKeepOk(w, List(from, DateList, DateRows(clock.today)), st', clock.stamp, from);
  }

  lemma DateSelectionKeepsOk(w: World, from: string, replyId: string, st: ConversationState, clock: Clock)
    requires WorldOk(w)
    ensures WorldOk(DateSelection(w, from, replyId, st, clock).0)
  {
    match ParseExactDate(RemoveAll(replyId, DatePrefix))
    case None => SentStoredClearedKeepOk(w, Text(from, InvalidDate), st, clock.stamp, from);
    case Some(date) =>
      if st.selectedWorkerId.None? {
        SentStoredClearedKeepOk(w, Text(from, SelectWorkerFirst), st, clock.stamp, from);
      } else {
        var st' := st.(selectedDate := Some(date), currentStep := AwaitingTime);
        SentStoredClearedKeepOk(w, Text(from, NoSlots), st', clock.stamp, from);
        match AvailableSlots(w.db, st.selectedWorkerId.value, date, clock.today, clock.second)
        case None =>
        case Some(slots) =>
          SentStoredClearedKeepOk(w, List(from, TimeList, TimeRows(Take(slots, MaxTimeRows))), st', clock.stamp, from);
      }
  }

  lemma TimeSelectionKeepsOk(w: World, from: string, replyId: string, st: ConversationState, clock: Clock)
    requires WorldOk(w)
    ensures WorldOk(TimeSelection(w, from, replyId, st, clock).0)
  {
    match ParseExactTime(RemoveAll(replyId, TimePrefix))
    case None => SentStoredClearedKeepOk(w, Text(from, InvalidTime), st, clock.stamp, from);
    case Some(time) =>
      var st' := st.(selectedTime := Some(time), currentStep := ConfirmingAppointment);
      SentStoredClearedKeepOk(w, Buttons(from, [ConfirmYes, ConfirmNo]), st', clock.stamp, from);
  }

  lemma CancellationKeepsOk(w: World, from: string, replyId: string, userId: int)
    requires WorldOk(w)
    ensures WorldOk(AppointmentCancellation(w, from, replyId, userId))
  {
    match ParseInt32(RemoveAll(replyId, CancelPrefix))
    case None =>
    case Some(id) => CancelAppointmentKeepsValid(w.db, userId, id);
  }

  lemma ConfirmationKeepsOk(w: World, from: string, st: ConversationState, userId: int, clock: Clock)
    requires WorldOk(w)
    ensures WorldOk(Confirmation(w, from, st, userId, clock))
  {
    if st.selectedDate.None? || st.selectedTime.None? || st.selectedWorkerId.None? {
      SentStoredClearedKeepOk(w, Text(from, BookingError), st, clock.stamp, from);
    } else {
      var saved := CreateAppointmentSpec(w.db, userId, st.selectedWorkerId.value, st.selectedDate.value,
                                         st.selectedTime.value, st.serviceType, clock.today, clock.second);
      CreateAppointmentKeepsValid(w.db, userId, st.selectedWorkerId.value, st.selectedDate.value,
                                  st.selectedTime.value, st.serviceType, clock.today, clock.second);
      var w1 := w.(db := saved.state);
      var m := if saved.result.None? then Text(from, SlotUnavailable) else Text(from, BookingCreated(saved.result.value.id));
      SentStoredClearedKeepOk(w1, m, st, clock.stamp, from);
    }
  }

  /** An interactive reply keeps the store's unique indexes and stores each state under its own phone number. */
  lemma ReplyKeepsInvariants(w: World, from: string, replyId: string, clock: Clock)
    requires WorldOk(w) && ClockOk(clock)
    ensures WorldOk(InteractiveReply(w, from, replyId, clock).0)
  {
    GetOrCreateUserStores(w.db, from, None);
    var (db1, user) := GetOrCreateUserSpec(w.db, from, None);
    var w1 := w.(db := db1);
    assert WorldOk(w1);
    if from in w.states {
      var st := w.states[from];
      if StartsWith(replyId, WorkerPrefix) {
        WorkerSelectionKeepsOk(w1, from, replyId, st, clock);
      } else if StartsWith(replyId, DatePrefix) {
        DateSelectionKeepsOk(w1, from, replyId, st, clock);
      } else if StartsWith(replyId, TimePrefix) {
        TimeSelectionKeepsOk(w1, from, replyId, st, clock);
      } else if StartsWith(replyId, CancelPrefix) {
        CancellationKeepsOk(w1, from, replyId, user.id);
      } else if replyId == ConfirmYes {
        ConfirmationKeepsOk(w1, from, st, user.id, clock);
      } else {
        SentStoredClearedKeepOk(w1, Text(from, BookingAborted), st, clock.stamp, from);
      }
    } else {
      SentStoredClearedKeepOk(w1, Text(from, Welcome), Fresh(from, AwaitingWorker, clock.stamp), clock.stamp, from);
    }
  }
}
