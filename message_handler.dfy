/**
 * The WhatsApp conversation flow (MessageHandler): text commands and
 * interactive replies move a per-phone ConversationState through worker, date,
 * time and confirmation, and every step answers with text, a list or buttons.
 * Interactive replies are dispatched on the prefix of the reply id alone; the
 * stored CurrentStep is written but never read.
 *
 * The observable world of the handler is the store, the conversation states and
 * the messages sent so far; each handler is specified by a function from the
 * world before to the world after.
 */
module MessageHandling {
  import opened Domain
  import opened Text
  import opened Seqs
  import opened Dates
  import opened Repositories
  import opened Store
  import opened Booking
  import opened Conversations
  import opened Messaging

  datatype World = World(db: DbState, states: map<string, ConversationState>, sent: seq<Outbound>)

  const ConfirmYes: string := "confirm_yes"
  const ConfirmNo: string := "confirm_no"
  const MaxTimeRows: int := 10
  const DaysOffered: int := 7

  /** The seven offered dates, today to today + 6, must be representable. */
  predicate ClockOk(c: Clock)
  {
    0 <= c.today && c.today + DaysOffered - 1 <= MaxDayNumber
  }

  /** The bot never edits workers, schedules, configuration or services. */
  predicate SameSetup(a: DbState, b: DbState)
  {
    a.workers == b.workers && a.schedules == b.schedules && a.configs == b.configs && a.services == b.services
  }

  /** Every state is stored under its own phone number. */
  predicate StatesKeyed(states: map<string, ConversationState>)
  {
    forall phone :: phone in states ==> states[phone].phoneNumber == phone
  }

  function Sent(w: World, m: Outbound): World
  {
    w.(sent := w.sent + [m])
  }

  function Stored(w: World, st: ConversationState, stamp: int): World
  {
    w.(states := Put(w.states, st, stamp))
  }

  function Cleared(w: World, phone: string): World
  {
    w.(states := Remove(w.states, phone))
  }

  function WorkerRows(workers: seq<Worker>): (rows: seq<RowId>)
    ensures |rows| == |workers|
    ensures forall i :: 0 <= i < |rows| ==> rows[i] == WorkerRow(workers[i].id)
  {
    seq(|workers|, i requires 0 <= i < |workers| => WorkerRow(workers[i].id))
  }

  function DateRows(today: Date): (rows: seq<RowId>)
    ensures |rows| == DaysOffered
    ensures forall i :: 0 <= i < |rows| ==> rows[i] == DateRow(today + i)
  {
    seq(DaysOffered, i requires 0 <= i < DaysOffered => DateRow(today + i))
  }

  function TimeRows(slots: seq<TimeOfDay>): (rows: seq<RowId>)
    ensures |rows| == |slots|
    ensures forall i :: 0 <= i < |rows| ==> rows[i] == TimeRow(slots[i])
  {
    seq(|slots|, i requires 0 <= i < |slots| => TimeRow(slots[i]))
  }

  function CancelRows(appts: seq<Appointment>): (rows: seq<RowId>)
    ensures |rows| == |appts|
    ensures forall i :: 0 <= i < |rows| ==> rows[i] == CancelRow(appts[i].id)
  {
    seq(|appts|, i requires 0 <= i < |appts| => CancelRow(appts[i].id))
  }

  /** Take(n) */
  function Take<T>(s: seq<T>, n: nat): (r: seq<T>)
    ensures |r| <= n && |r| <= |s|
    ensures |s| <= n ==> r == s
    ensures r == s[..|r|]
  {
    if |s| <= n then s else s[..n]
  }

  /** StartBookingFlowAsync: a fresh AwaitingWorker state and one row per active worker, or a "no workers" text. */
  function StartBooking(w: World, from: string, stamp: int): (r: World)
    ensures r.db == w.db
  {
    var workers := ActiveWorkers(w.db.workers);
    if |workers| == 0 then Sent(w, Text(from, NoWorkers))
    else Sent(Stored(w, Fresh(from, AwaitingWorker, stamp), stamp), List(from, WorkerList, WorkerRows(workers)))
  }

  /** StartCancellationFlowAsync: one row per active appointment of the user, or a "none" text; no state is stored. */
  function StartCancellation(w: World, from: string, userId: int): (r: World)
    ensures r.db == w.db && r.states == w.states
  {
    var appts := ActiveOfUser(w.db.appointments, userId);
    if |appts| == 0 then Sent(w, Text(from, NoActiveAppointments))
    else Sent(w, List(from, CancelList, CancelRows(appts)))
  }

  /** HandleWorkerSelectionAsync */
  function WorkerSelection(w: World, from: string, replyId: string, st: ConversationState, clock: Clock): (r: World)
    requires ClockOk(clock)
    ensures r.db == w.db
  {
    match ParseInt32(RemoveAll(replyId, WorkerPrefix))
    case None => Sent(w, Text(from, InvalidSelection))
    case Some(id) =>
      match ActiveWorkerById(w.db.workers, id)
      case None => Sent(w, Text(from, WorkerNotFound))
      case Some(worker) =>
        var st' := st.(selectedWorkerId := Some(id), selectedWorkerName := Some(worker.name), currentStep := AwaitingDate);
        Sent(Stored(w, st', clock.stamp), List(from, DateList, DateRows(clock.today)))
  }

  /**
   * HandleDateSelectionAsync. The second component is true when the slot query
   * never returns (its loop never ends, or it divides by zero): the state was
   * already stored, and nothing is sent.
   */
  function DateSelection(w: World, from: string, replyId: string, st: ConversationState, clock: Clock): (r: (World, bool))
    ensures r.0.db == w.db
  {
    match ParseExactDate(RemoveAll(replyId, DatePrefix))
    case None => (Sent(w, Text(from, InvalidDate)), false)
    case Some(date) =>
      if st.selectedWorkerId.None? then (Cleared(Sent(w, Text(from, SelectWorkerFirst)), from), false)
      else
        var st' := st.(selectedDate := Some(date), currentStep := AwaitingTime);
        var w1 := Stored(w, st', clock.stamp);
        match AvailableSlots(w.db, st.selectedWorkerId.value, date, clock.today, clock.second)
        case None => (w1, true)
        case Some(slots) =>
          if |slots| == 0 then (Cleared(Sent(w1, Text(from, NoSlots)), from), false)
          else (Sent(w1, List(from, TimeList, TimeRows(Take(slots, MaxTimeRows)))), false)
  }

  /**
   * HandleTimeSelectionAsync. The second component is true when the handler
   * throws: the state was already stored and SelectedDate is null, so
   * formatting it fails before the buttons are sent.
   */
  function TimeSelection(w: World, from: string, replyId: string, st: ConversationState, clock: Clock): (r: (World, bool))
    ensures r.0.db == w.db
  {
    match ParseExactTime(RemoveAll(replyId, TimePrefix))
    case None => (Sent(w, Text(from, InvalidTime)), false)
    case Some(time) =>
      var w1 := Stored(w, st.(selectedTime := Some(time), currentStep := ConfirmingAppointment), clock.stamp);
      if st.selectedDate.None? then (w1, true)
      else (Sent(w1, Buttons(from, [ConfirmYes, ConfirmNo])), false)
  }

  /** ConfirmAppointmentAsync: whatever happens, the state is cleared. */
  function Confirmation(w: World, from: string, st: ConversationState, userId: int, clock: Clock): (r: World)
    ensures SameSetup(w.db, r.db)
  {
    if st.selectedDate.None? || st.selectedTime.None? || st.selectedWorkerId.None? then
      Cleared(Sent(w, Text(from, BookingError)), from)
    else
      var saved := CreateAppointmentSpec(w.db, userId, st.selectedWorkerId.value, st.selectedDate.value,
                                         st.selectedTime.value, st.serviceType, clock.today, clock.second);
      var w1 := w.(db := saved.state);
      match saved.result
      case None => Cleared(Sent(w1, Text(from, SlotUnavailable)), from)
      case Some(a) => Cleared(Sent(w1, Text(from, BookingCreated(a.id))), from)
  }

  /** HandleAppointmentCancellationAsync */
  function AppointmentCancellation(w: World, from: string, replyId: string, userId: int): (r: World)
    ensures SameSetup(w.db, r.db) && r.states == w.states
  {
    match ParseInt32(RemoveAll(replyId, CancelPrefix))
    case None => Sent(w, Text(from, InvalidAppointment))
    case Some(id) =>
      var (db', ok) := CancelAppointmentSpec(w.db, userId, id);
      Sent(w.(db := db'), Text(from, if ok then AppointmentCancelled(id) else CancelFailed))
  }

  /** HandleInteractiveReplyAsync; the second component is true when the handler throws. */
  function InteractiveReply(w: World, from: string, replyId: string, clock: Clock): (r: (World, bool))
    requires ClockOk(clock)
    ensures SameSetup(w.db, r.0.db)
  {
    var (db1, user) := GetOrCreateUserSpec(w.db, from, None);
    var w1 := w.(db := db1);
    match Lookup(w1.states, from)
    case None => (Sent(w1, Text(from, Welcome)), false)
    case Some(st) =>
      if StartsWith(replyId, WorkerPrefix) then (WorkerSelection(w1, from, replyId, st, clock), false)
      else if StartsWith(replyId, DatePrefix) then DateSelection(w1, from, replyId, st, clock)
      else if StartsWith(replyId, TimePrefix) then TimeSelection(w1, from, replyId, st, clock)
      else if StartsWith(replyId, CancelPrefix) then (AppointmentCancellation(w1, from, replyId, user.id), false)
      else if replyId == ConfirmYes then (Confirmation(w1, from, st, user.id, clock), false)
      else if replyId == ConfirmNo then (Cleared(Sent(w1, Text(from, BookingAborted)), from), false)
      else (w1, false)
  }

  /** The normalised command text: Trim().ToLower(), which keeps no white space at either end. */
  function Command(text: string): (r: string)
    ensures |r| <= |text|
    ensures r != [] ==> !IsWhiteSpace(r[0]) && !IsWhiteSpace(r[|r| - 1])
  {
    var trimmed := Trim(text);
    var lowered := ToLower(trimmed);
    assert lowered != [] ==> lowered[0] == ToLowerChar(trimmed[0])
                             && lowered[|lowered| - 1] == ToLowerChar(trimmed[|trimmed| - 1]);
    lowered
  }

  /** The booking command; no text is both it and another command. */
  function IsBookingCommand(command: string): (b: bool)
    ensures b ==> !IsCancelCommand(command) && !IsHelpCommand(command)
  {
    assert StartsWith(command, "/randevu") ==> command[1] == "/randevu"[1];
    assert StartsWith(command, "/iptal") ==> command[1] == "/iptal"[1];
    StartsWith(command, "/randevu") || command == "randevu"
  }

  /** The cancel command: a slash command, never the help text. */
  function IsCancelCommand(command: string): (b: bool)
    ensures b ==> command != [] && command[0] == '/' && !IsHelpCommand(command)
  {
    assert StartsWith(command, "/iptal") ==> command[0] == '/' && command[1] == "/iptal"[1];
    StartsWith(command, "/iptal")
  }

  /** The help command: neither a booking nor a cancel slash command. */
  function IsHelpCommand(command: string): (b: bool)
    ensures b ==> !StartsWith(command, "/randevu") && !StartsWith(command, "/iptal")
  {
    assert StartsWith(command, "/randevu") ==> command[1] == "/randevu"[1];
    assert StartsWith(command, "/iptal") ==> command[1] == "/iptal"[1];
    command == "/yardim" || command == "yard\U{131}m"
  }

  /** HandleIncomingMessageAsync */
  function IncomingMessage(w: World, from: string, text: string, senderName: Option<string>, clock: Clock): (r: World)
    ensures SameSetup(w.db, r.db)
  {
    var (db1, user) := GetOrCreateUserSpec(w.db, from, senderName);
    var w1 := w.(db := db1);
    var command := Command(text);
    if IsBookingCommand(command) then StartBooking(w1, from, clock.stamp)
    else if IsCancelCommand(command) then StartCancellation(w1, from, user.id)
    else if IsHelpCommand(command) then Sent(w1, Text(from, Help))
    else if from in w1.states then Sent(w1, Text(from, ChooseAnOption))
    else Sent(w1, Text(from, Welcome))
  }

  class MessageHandler {
    const db: Database
    const booking: BookingService
    const conversations: ConversationStore
    const outbox: Outbox

    constructor (booking: BookingService, conversations: ConversationStore, outbox: Outbox)
      ensures this.db == booking.db && this.booking == booking
      ensures this.conversations == conversations && this.outbox == outbox
    {
      this.db := booking.db;
      this.booking := booking;
      this.conversations := conversations;
      this.outbox := outbox;
    }

    /** The booking service works on the handler's store. */
    predicate Wired()
    {
      booking.db == db
    }

    function Snapshot(): World
      reads db, conversations, outbox
    {
      World(db.State(), conversations.states, outbox.sent)
    }

    method HandleIncomingMessage(from: string, text: string, senderName: Option<string>, clock: Clock)
      requires Wired()
      modifies db, conversations, outbox
      ensures Snapshot() == IncomingMessage(old(Snapshot()), from, text, senderName, clock)
    {
      var user := booking.GetOrCreateUser(from, senderName);
      ghost var w1 := Snapshot();
      assert w1 == old(Snapshot()).(db := GetOrCreateUserSpec(old(db.State()), from, senderName).0);
      var state := conversations.GetState(from);
      var command := Command(text);
      if IsBookingCommand(command) {
        StartBookingFlow(from, clock);
        assert Snapshot() == StartBooking(w1, from, clock.stamp);
        return;
      }
      if IsCancelCommand(command) {
        StartCancellationFlow(from, user.id);
        assert Snapshot() == StartCancellation(w1, from, user.id);
        return;
      }
      if IsHelpCommand(command) {
        outbox.Send(Text(from, Help));
        assert Snapshot() == Sent(w1, Text(from, Help));
        return;
      }
      if state.Some? {
        outbox.Send(Text(from, ChooseAnOption));
        assert Snapshot() == Sent(w1, Text(from, ChooseAnOption));
      } else {
        outbox.Send(Text(from, Welcome));
        assert Snapshot() == Sent(w1, Text(from, Welcome));
      }
    }

    method HandleInteractiveReply(from: string, replyId: string, replyTitle: string, clock: Clock) returns (fault: bool)
      requires Wired() && ClockOk(clock)
      modifies db, conversations, outbox
      ensures (Snapshot(), fault) == InteractiveReply(old(Snapshot()), from, replyId, clock)
    {
      var user := booking.GetOrCreateUser(from, None);
      var state := conversations.GetState(from);
      fault := false;
      if state.None? {
        outbox.Send(Text(from, Welcome));
        return;
      }
      var st := state.value;
      if StartsWith(replyId, WorkerPrefix) {
        HandleWorkerSelection(from, replyId, st, clock);
      } else if StartsWith(replyId, DatePrefix) {
        fault := HandleDateSelection(from, replyId, st, clock);
      } else if StartsWith(replyId, TimePrefix) {
        fault := HandleTimeSelection(from, replyId, st, clock);
      } else if StartsWith(replyId, CancelPrefix) {
        HandleAppointmentCancellation(from, replyId, user.id);
      } else if replyId == ConfirmYes {
        ConfirmAppointment(from, st, user.id, clock);
      } else if replyId == ConfirmNo {
        conversations.ClearState(from);
        outbox.Send(Text(from, BookingAborted));
      }
    }

    method StartBookingFlow(from: string, clock: Clock)
      modifies conversations, outbox
      ensures Snapshot() == StartBooking(old(Snapshot()), from, clock.stamp)
    {
      var workers := ActiveWorkers(db.workers);
      if |workers| == 0 {
        outbox.Send(Text(from, NoWorkers));
        return;
      }
      var rows := WorkerRows(workers);
      conversations.UpdateState(Fresh(from, AwaitingWorker, clock.stamp), clock.stamp);
      outbox.Send(List(from, WorkerList, rows));
    }

    method HandleWorkerSelection(from: string, replyId: string, st: ConversationState, clock: Clock)
      requires ClockOk(clock)
      modifies conversations, outbox
      ensures Snapshot() == WorkerSelection(old(Snapshot()), from, replyId, st, clock)
    {
      var parsed := ParseInt32(RemoveAll(replyId, WorkerPrefix));
      if parsed.None? {
        outbox.Send(Text(from, InvalidSelection));
        return;
      }
      var worker := ActiveWorkerById(db.workers, parsed.value);
      if worker.None? {
        outbox.Send(Text(from, WorkerNotFound));
        return;
      }
      var updated := st.(selectedWorkerId := parsed, selectedWorkerName := Some(worker.value.name),
                         currentStep := AwaitingDate);
      conversations.UpdateState(updated, clock.stamp);
      var rows := AvailableDates(clock.today);
      outbox.Send(List(from, DateList, rows));
    }

    /** The date list loop: one row per day, today to today + 6. */
    method AvailableDates(today: Date) returns (rows: seq<RowId>)
      ensures rows == DateRows(today)
    {
      rows := [];
      for i := 0 to DaysOffered
        invariant |rows| == i
        invariant forall k :: 0 <= k < i ==> rows[k] == DateRow(today + k)
      {
        rows := rows + [DateRow(today + i)];
      }
    }

    method HandleDateSelection(from: string, replyId: string, st: ConversationState, clock: Clock) returns (fault: bool)
      requires Wired()
      modifies conversations, outbox
      ensures (Snapshot(), fault) == DateSelection(old(Snapshot()), from, replyId, st, clock)
    {
      var parsed := ParseExactDate(RemoveAll(replyId, DatePrefix));
      if parsed.None? {
        outbox.Send(Text(from, InvalidDate));
        return false;
      }
      if st.selectedWorkerId.None? {
        outbox.Send(Text(from, SelectWorkerFirst));
        conversations.ClearState(from);
        return false;
      }
      var date := parsed.value;
      conversations.UpdateState(st.(selectedDate := Some(date), currentStep := AwaitingTime), clock.stamp);
      if AvailableSlots(db.State(), st.selectedWorkerId.value, date, clock.today, clock.second).None? {
        // GetAvailableTimeSlotsForWorkerAsync never returns here.
        return true;
      }
      var slots := booking.GetAvailableTimeSlotsForWorker(st.selectedWorkerId.value, date, clock.today, clock.second);
      if |slots| == 0 {
        outbox.Send(Text(from, NoSlots));
        conversations.ClearState(from);
        return false;
      }
      outbox.Send(List(from, TimeList, TimeRows(Take(slots, MaxTimeRows))));
      fault := false;
    }

    method HandleTimeSelection(from: string, replyId: string, st: ConversationState, clock: Clock) returns (fault: bool)
      modifies conversations, outbox
      ensures (Snapshot(), fault) == TimeSelection(old(Snapshot()), from, replyId, st, clock)
    {
      var parsed := ParseExactTime(RemoveAll(replyId, TimePrefix));
      if parsed.None? {
        outbox.Send(Text(from, InvalidTime));
        return false;
      }
      conversations.UpdateState(st.(selectedTime := parsed, currentStep := ConfirmingAppointment), clock.stamp);
      if st.selectedDate.None? {
        return true;
      }
      outbox.Send(Buttons(from, [ConfirmYes, ConfirmNo]));
      fault := false;
    }

    method ConfirmAppointment(from: string, st: ConversationState, userId: int, clock: Clock)
      requires Wired()
      modifies db, conversations, outbox
      ensures Snapshot() == Confirmation(old(Snapshot()), from, st, userId, clock)
    {
      if st.selectedDate.None? || st.selectedTime.None? || st.selectedWorkerId.None? {
        outbox.Send(Text(from, BookingError));
        conversations.ClearState(from);
        return;
      }
      var created := booking.CreateAppointment(userId, st.selectedWorkerId.value, st.selectedDate.value,
                                               st.selectedTime.value, st.serviceType, clock.today, clock.second);
      if created.None? {
        outbox.Send(Text(from, SlotUnavailable));
        conversations.ClearState(from);
        return;
      }
      outbox.Send(Text(from, BookingCreated(created.value.id)));
      conversations.ClearState(from);
    }

    method StartCancellationFlow(from: string, userId: int)
      modifies outbox
      ensures Snapshot() == StartCancellation(old(Snapshot()), from, userId)
    {
      var appts := ActiveOfUser(db.appointments, userId);
      if |appts| == 0 {
        outbox.Send(Text(from, NoActiveAppointments));
        return;
      }
      outbox.Send(List(from, CancelList, CancelRows(appts)));
    }

    method HandleAppointmentCancellation(from: string, replyId: string, userId: int)
      requires Wired()
      modifies db, outbox
      ensures Snapshot() == AppointmentCancellation(old(Snapshot()), from, replyId, userId)
    {
      var parsed := ParseInt32(RemoveAll(replyId, CancelPrefix));
      if parsed.None? {
        outbox.Send(Text(from, InvalidAppointment));
        return;
      }
      var ok := booking.CancelAppointment(userId, parsed.value);
      if ok {
        outbox.Send(Text(from, AppointmentCancelled(parsed.value)));
      } else {
        outbox.Send(Text(from, CancelFailed));
      }
    }
  }
}
