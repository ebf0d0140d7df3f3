# Hairdresser booking bot — Dafny model

Hairdresser.Api is an ASP.NET service with two faces:

- a **WhatsApp bot**: Meta's webhook delivers messages; the webhook controller
  turns the payload into "mark as read" calls and handler events; the message
  handler runs a per-phone conversation (greeting → worker list → date list →
  time-slot list → confirmation, plus "my appointments" and cancellation) kept
  in an in-memory conversation store, and asks the booking service for free
  slots, to create appointments and to cancel them;
- an **admin panel**: appointment pages (create, edit, delete with slot
  conflict checks, date/time parsing and a status whitelist), a dashboard
  (42-day month calendar with per-day counts, monthly status tallies, day
  list, status and notes updates), worker management (active toggle, whole
  weekly schedule replacement, default 7-day form) and a user list
  de-duplicated by phone.

Both sit on an Entity Framework store. The model keeps its unique indexes, id
counters and foreign keys (every appointment's user, worker and service, and
every schedule row's worker, exist) as the invariant `Store.Valid`; a
save that would break an index or a foreign key fails and changes nothing, and
the cascading deletes are part of `Store.DeleteWorker`.

How the model is laid out:

- `domain.dfy` — the records (users, workers, schedules, appointments,
  services, business configuration, conversation states); dates are day
  numbers (day 0 is Monday 0001-01-01) and times of day are minutes since
  midnight.
- `dates.dfy`, `text.dfy`, `seqs.dfy` — the calendar, `yyyy-MM-dd`/`HH:mm`
  formatting and exact parsing, the string operations the source relies on
  (trim, lower-case, digit parsing) and sequence helpers.
- `store.dfy` — the database as a class with one sequence per table, the
  next-id counters and `SaveChanges`' failure on a unique-index clash or a
  foreign key without its row;
  `repositories.dfy` — the repository queries as filters with their orderings.
- `booking.dfy` — slot generation, the "today" cutoff, appointment creation
  and cancellation.
- `conversations.dfy`, `messaging.dfy`, `message_handler.dfy`,
  `handler_properties.dfy` — the conversation store, the outbound WhatsApp
  calls as a recorded list, the handler's transition and its properties.
- `webhook.dfy` — the payload datatype, token verification and the event list.
- `appointment_admin.dfy`, `appointments_controller.dfy`, `dashboard.dfy`,
  `users.dfy`, `worker_admin.dfy`, `workers_controller.dfy` — the admin
  services and controllers.

State-changing services are classes over the shared `Store.Database`; each
method is specified by a function on the store's state (`...Spec`) whose
properties are stated as lemmas. The clock is always a parameter.

## Model

| member | source | states |
|---|---|---|
| Booking.SlotDuration | Hairdresser.Api/Services/BookingService.cs:95-99 | the slot length is the configured `slot_duration_minutes` value when it parses as an Int32, 60 when the row is absent or unparseable |
| Booking.SlotDurationOfConfig | Hairdresser.Api/Services/BookingService.cs:95-99 | a first configuration row holding the decimal text of an Int32 n sets the slot length to exactly n |
| Booking.LoopSlotsMeaning | Hairdresser.Api/Services/BookingService.cs:101-109 | the `while` loop, whose `AddMinutes` wraps at midnight, never ends exactly when every time it visits (start + i·d modulo a day) lies before the end; when it ends it yields the visited times up to the first one at or past the end |
| Booking.ZeroLengthNeverEnds | Hairdresser.Api/Services/BookingService.cs:97-109 | a configured slot length of 0 makes the loop over a non-empty working row run forever |
| Booking.WrappingLoopNeverEnds | Hairdresser.Api/Services/BookingService.cs:101-109 | a 22:00–23:30 row with hour slots passes midnight at 23:00 + 60 and never reaches 23:30, so the loop never ends |
| Booking.LoopSlotsWithoutWrap | Hairdresser.Api/Services/BookingService.cs:101-109 | when the loop stays within the day it yields exactly start, start + d, … below the end |
| Booking.LoopBoundedExactly | Hairdresser.Api/Services/BookingService.cs:101-109 | for a positive slot length and start < end, the loop stays within the day exactly when start + ⌈(end − start)/d⌉·d < 1440 |
| Booking.CandidateSlots | Hairdresser.Api/Services/BookingService.cs:101-109 | for a loop that stays within the day, every slot it visits lies in [start, end) |
| Booking.CandidateSlotsCount | Hairdresser.Api/Services/BookingService.cs:101-109 | for a loop that stays within the day: no slot when start ≥ end, and otherwise n slots with (n−1)·d < end − start ≤ n·d |
| Booking.CandidateSlotsFewerThanMinutes | Hairdresser.Api/Services/BookingService.cs:101-109 | such a loop visits at most one slot per minute of the working row |
| Booking.CandidateSlotsStep | Hairdresser.Api/Services/BookingService.cs:105-109 | the i-th visited slot is start + i·d |
| Booking.NineToSixHourly | Hairdresser.Api/Services/BookingService.cs:101-109 | 09:00–18:00 with hour slots gives nine slots, 09:00 first and 17:00 last; 10:00–23:30 with 45-minute slots stays within the day and gives 18 slots |
| Booking.GenerateSlots | Hairdresser.Api/Services/BookingService.cs:101-109 | whenever the loop ends, the `while` loop with its wrap at midnight appends exactly the times LoopSlots predicts, in loop order |
| Booking.MinuteRemainder | Hairdresser.Api/Services/BookingService.cs:125 | C#'s `Minute % slotDuration` on a non-negative minute: the minute modulo the length's absolute value, always below it |
| Booking.CutoffAsWritten | Hairdresser.Api/Services/BookingService.cs:123-130 | the clock is kept as it is when its minute is already a multiple of d (seconds included, wrapping at midnight otherwise) |
| Booking.Cutoff | Hairdresser.Api/Services/BookingService.cs:121-134 | the corrected cutoff for a non-zero slot length: for a positive one, no earlier than the clock and less than one slot length after the next whole minute |
| Booking.CutoffRoundsToNextHour | Hairdresser.Api/Services/BookingService.cs:121-134 | 10:15 (with or without seconds) and hour slots keep only slots from 11:00 on |
| Booking.CutoffAsWrittenCounterexamples | Hairdresser.Api/Services/BookingService.cs:125-133 | as written, 10:15:30 drops the 11:00 slot, and 23:30 keeps the already past 09:00 slot |
| Booking.BookedTimes | Hairdresser.Api/Services/BookingService.cs:111-112 | a time is booked exactly when an active appointment of that worker on that date holds it |
| Booking.IsAvailable | Hairdresser.Api/Services/BookingService.cs:105-134 | an available time belongs to a worker with a working row that day whose slot loop ends, and no active appointment of that worker holds it |
| Booking.SelectAvailable | Hairdresser.Api/Services/BookingService.cs:114-146 | a time is returned exactly when it is a candidate, not booked, and not before the corrected cutoff on today; the result is sorted ascending; on today a slot length of 0 is excluded, where the source divides by zero |
| Booking.AvailableSlots | Hairdresser.Api/Services/BookingService.cs:79-147 | no answer (None) exactly when the working row's slot loop never ends or, on today, the slot length is 0; no working row for the day's DayOfWeek gives []; otherwise a time is returned exactly when it is available, sorted ascending |
| Booking.AvailableSlotsAreFree | Hairdresser.Api/Services/BookingService.cs:111-134 | no returned slot is held by an active appointment, and on today with a positive slot length no returned slot lies before the clock |
| Booking.GetOrCreateUserSpec | Hairdresser.Api/Services/BookingService.cs:35-65 | the user has the phone number; a new user gets the next id and the name; an existing user without a name takes a non-empty given name, otherwise it is returned as stored, and only its row changes; only the user table changes |
| Booking.GetOrCreateUserStores | Hairdresser.Api/Services/BookingService.cs:35-65 | afterwards the returned user is the one stored under that phone number, and the store stays valid |
| Booking.GetOrCreateUserIdempotent | Hairdresser.Api/Services/BookingService.cs:35-65 | a second call with the same arguments returns the same user and changes nothing |
| Booking.ActiveWorkerById | Hairdresser.Api/Services/BookingService.cs:73-77 | a returned worker has the id and is active; None when no active worker has the id |
| Booking.ActiveWorkerByIdNone | Hairdresser.Api/Services/BookingService.cs:73-77 | with unique worker ids, None exactly when the worker is unknown or inactive |
| Booking.CreateAppointmentSpec | Hairdresser.Api/Services/BookingService.cs:149-200 | a request not strictly after the clock, for a slot an active appointment holds, or of a user or worker without a row, gives null and changes nothing; a success is always in the future |
| Booking.InFuture | Hairdresser.Api/Services/BookingService.cs:158 | a request counts as future exactly when its start, in seconds from day 0, lies after the clock |
| Booking.NewBooking | Hairdresser.Api/Services/BookingService.cs:175-185 | the new appointment is active and carries the requested user, worker, date and time |
| Booking.CreateOverCancelledFails | Hairdresser.Api/Services/BookingService.cs:166-199 | a slot whose earlier appointment was cancelled still cannot be booked, because the unique index ignores status and the insert throws |
| Booking.CreateAppointmentSucceeds | Hairdresser.Api/Services/BookingService.cs:175-193 | a future request of an existing user for a slot of an existing worker that no row occupies adds the new pending appointment and keeps the store valid |
| Booking.BookingForDeletedWorkerFails | Hairdresser.Api/Services/BookingService.cs:175-199 | once the worker is deleted, a booking for that worker gives null and leaves the store as the delete made it |
| Booking.CreateAppointmentKeepsValid | Hairdresser.Api/Services/BookingService.cs:149-200 | every outcome keeps the store's unique indexes, id counters and foreign keys |
| Booking.CancelAppointmentSpec | Hairdresser.Api/Services/BookingService.cs:202-229 | false changes nothing; no appointment with that id and user gives false; only the appointment table changes |
| Booking.CancelAppointmentChangesOnlyThatRow | Hairdresser.Api/Services/BookingService.cs:206-222 | the user's own appointment becomes cancelled (even if it already was), the call returns true and every other row is unchanged |
| Booking.CancelAppointmentKeepsValid | Hairdresser.Api/Services/BookingService.cs:202-229 | cancelling keeps the store valid |
| Booking.BookingService.GetOrCreateUser | Hairdresser.Api/Services/BookingService.cs:35-65 | the new store and the returned user are those of GetOrCreateUserSpec |
| Booking.BookingService.GetAvailableTimeSlotsForWorker | Hairdresser.Api/Services/BookingService.cs:79-147 | when the slot query answers, the returned list is AvailableSlots of the store, which is left unchanged |
| Booking.BookingService.CreateAppointment | Hairdresser.Api/Services/BookingService.cs:149-200 | the new store and the result are those of CreateAppointmentSpec |
| Booking.BookingService.CancelAppointment | Hairdresser.Api/Services/BookingService.cs:202-229 | the new store and the result are those of CancelAppointmentSpec |
| Booking.BookingService.constructor | Hairdresser.Api/Services/BookingService.cs:6 | the service works on the given store |
| Conversations.Fresh | Hairdresser.Api/Services/MessageHandler.cs:150-155 | a new state has the phone number and the step and nothing selected |
| Conversations.Lookup | Hairdresser.Api/Services/ConversationService.cs:20-24 | Get returns the state stored under the phone number, or None exactly when there is none |
| Conversations.Put | Hairdresser.Api/Services/ConversationService.cs:26-32 | Update stores the state, stamped with the time of the call, under its own phone number; every other phone's entry is unchanged |
| Conversations.Remove | Hairdresser.Api/Services/ConversationService.cs:34-39 | Clear leaves no entry for the phone, every other entry unchanged, and an absent key changes nothing |
| Conversations.PutPut | Hairdresser.Api/Services/ConversationService.cs:29 | the latest Update of a key replaces every earlier one |
| Conversations.RemovePut | Hairdresser.Api/Services/ConversationService.cs:29-36 | Clear right after Update of a key that had no state restores the map, so Get then returns null |
| Conversations.ConversationStore.GetState | Hairdresser.Api/Services/ConversationService.cs:20-24 | returns Lookup of the dictionary, which is left unchanged |
| Conversations.ConversationStore.UpdateState | Hairdresser.Api/Services/ConversationService.cs:26-32 | the dictionary becomes Put of the old one |
| Conversations.ConversationStore.ClearState | Hairdresser.Api/Services/ConversationService.cs:34-39 | the dictionary becomes Remove of the old one |
| Messaging.NoUnderscoreInInt | Hairdresser.Api/Services/MessageHandler.cs:144-148 | the decimal text of a worker or appointment id never contains '_' |
| Messaging.NoUnderscoreInDate | Hairdresser.Api/Services/MessageHandler.cs:195-199 | a yyyy-MM-dd date id never contains '_' |
| Messaging.NoUnderscoreInTime | Hairdresser.Api/Services/MessageHandler.cs:240-244 | an HH:mm time id never contains '_' |
| Messaging.RowIdText | Hairdresser.Api/Services/MessageHandler.cs:144-338 | every row id starts with the prefix of its kind, whose final `_` is the only one in the id |
| Messaging.StripPrefix | Hairdresser.Api/Services/MessageHandler.cs:168 | Replace of the prefix on an id whose tail has no '_' leaves the tail |
| Messaging.RowIdRoundTrip | Hairdresser.Api/Services/MessageHandler.cs:166-266 | every row id the bot offers starts with its own prefix and, after the handler's Replace and parse, reads back as the worker, date, time or appointment it was built from |
| Messaging.Outbox.Send | Hairdresser.Api/Services/WhatsAppService.cs:28-181 | each call to the WhatsApp sender is appended to the record of calls |
| MessageHandling.WorkerRows | Hairdresser.Api/Services/MessageHandler.cs:144-148 | one `worker_<id>` row per worker, in order |
| MessageHandling.DateRows | Hairdresser.Api/Services/MessageHandler.cs:187-201 | seven `date_` rows, today to today+6 |
| MessageHandling.TimeRows | Hairdresser.Api/Services/MessageHandler.cs:240-244 | one `time_` row per slot, in order |
| MessageHandling.CancelRows | Hairdresser.Api/Services/MessageHandler.cs:334-338 | one `cancel_<id>` row per appointment, in order |
| MessageHandling.Take | Hairdresser.Api/Services/MessageHandler.cs:240 | Take(n) is the prefix of length min(n, count) |
| MessageHandling.Command | Hairdresser.Api/Services/MessageHandler.cs:33-45 | the normalised text is no longer than the message and has no white space at either end |
| MessageHandling.IsBookingCommand | Hairdresser.Api/Services/MessageHandler.cs:33 | no text is both the booking command and the cancel or help command |
| MessageHandling.IsCancelCommand | Hairdresser.Api/Services/MessageHandler.cs:39 | the cancel command is a slash command and never the help command |
| MessageHandling.IsHelpCommand | Hairdresser.Api/Services/MessageHandler.cs:45 | the help command is neither the booking nor the cancel slash command |
| MessageHandling.StartBooking | Hairdresser.Api/Services/MessageHandler.cs:134-164 | starting a booking never changes the store |
| MessageHandling.StartCancellation | Hairdresser.Api/Services/MessageHandler.cs:324-346 | `/iptal` changes neither the store nor any conversation state |
| MessageHandling.WorkerSelection | Hairdresser.Api/Services/MessageHandler.cs:166-209 | a worker_ reply never changes the store |
| MessageHandling.DateSelection | Hairdresser.Api/Services/MessageHandler.cs:211-253 | a date_ reply never changes the store; its flag is set when the slot query never answers |
| MessageHandling.TimeSelection | Hairdresser.Api/Services/MessageHandler.cs:255-280 | a time_ reply never changes the store |
| MessageHandling.Confirmation | Hairdresser.Api/Services/MessageHandler.cs:282-322 | confirming never changes workers, schedules, configuration or services |
| MessageHandling.AppointmentCancellation | Hairdresser.Api/Services/MessageHandler.cs:348-367 | a cancel_ reply changes no conversation state and no setup table |
| MessageHandling.InteractiveReply | Hairdresser.Api/Services/MessageHandler.cs:61-99 | a reply never changes workers, schedules, configuration or services |
| MessageHandling.IncomingMessage | Hairdresser.Api/Services/MessageHandler.cs:25-59 | a text never changes workers, schedules, configuration or services |
| MessageHandling.MessageHandler.HandleIncomingMessage | Hairdresser.Api/Services/MessageHandler.cs:25-59 | the store, the states and the sent messages become IncomingMessage of the old ones |
| MessageHandling.MessageHandler.HandleInteractiveReply | Hairdresser.Api/Services/MessageHandler.cs:61-99 | the new world and the fault flag are InteractiveReply of the old world |
| MessageHandling.MessageHandler.StartBookingFlow | Hairdresser.Api/Services/MessageHandler.cs:134-164 | the new world is StartBooking of the old one |
| MessageHandling.MessageHandler.HandleWorkerSelection | Hairdresser.Api/Services/MessageHandler.cs:166-209 | the new world is WorkerSelection of the old one |
| MessageHandling.MessageHandler.AvailableDates | Hairdresser.Api/Services/MessageHandler.cs:187-201 | the `for` loop builds exactly DateRows(today) |
| MessageHandling.MessageHandler.HandleDateSelection | Hairdresser.Api/Services/MessageHandler.cs:211-253 | the new world and the flag are DateSelection of the old world |
| MessageHandling.MessageHandler.HandleTimeSelection | Hairdresser.Api/Services/MessageHandler.cs:255-280 | the new world and the fault flag are TimeSelection of the old world |
| MessageHandling.MessageHandler.ConfirmAppointment | Hairdresser.Api/Services/MessageHandler.cs:282-322 | the new world is Confirmation of the old one |
| MessageHandling.MessageHandler.StartCancellationFlow | Hairdresser.Api/Services/MessageHandler.cs:324-346 | the new world is StartCancellation of the old one |
| MessageHandling.MessageHandler.HandleAppointmentCancellation | Hairdresser.Api/Services/MessageHandler.cs:348-367 | the new world is AppointmentCancellation of the old one |
| HandlerProperties.AfterUserLookup | Hairdresser.Api/Services/MessageHandler.cs:29 | the user lookup-or-create changes no conversation state, sends nothing and leaves the setup tables alone |
| HandlerProperties.WorkerRowsOfferActiveWorkers | Hairdresser.Api/Services/MessageHandler.cs:136-148 | a `worker_<id>` row is offered exactly when an active worker has that id |
| HandlerProperties.BookingCommandRestarts | Hairdresser.Api/Services/MessageHandler.cs:134-164 | `/randevu…` or `randevu` restarts booking whatever the state: with no active worker only a text is sent; otherwise a fresh AwaitingWorker state and one row per active worker |
| HandlerProperties.CancelCommandStoresNothing | Hairdresser.Api/Services/MessageHandler.cs:324-346 | `/iptal…` lists the user's active appointments or says there are none, and stores no state |
| HandlerProperties.OtherTextPromptsOrWelcomes | Hairdresser.Api/Services/MessageHandler.cs:51-58 | other text sends the prompt when a state exists and the welcome otherwise, and changes no state |
| HandlerProperties.ReplyWithoutStateWelcomes | Hairdresser.Api/Services/MessageHandler.cs:65-72 | a reply from a phone without a state sends only the welcome text, whatever the reply id |
| HandlerProperties.PrefixesExclusive | Hairdresser.Api/Services/MessageHandler.cs:74-98 | the prefixes the dispatcher tests are mutually exclusive, so the order of the tests does not matter |
| HandlerProperties.WorkerReplyOutcome | Hairdresser.Api/Services/MessageHandler.cs:166-209 | an unparseable id or an unknown or inactive worker leaves every state as it was; otherwise the state records the worker, moves to AwaitingDate and seven dates from today are offered |
| HandlerProperties.OfferedWorkerIsSelected | Hairdresser.Api/Services/MessageHandler.cs:144-185 | choosing an offered active worker's row selects exactly that worker |
| HandlerProperties.DateReplyOutcome | Hairdresser.Api/Services/MessageHandler.cs:211-253 | an unparseable date leaves states as they were; no selected worker, or no available slot, clears the state; a slot query that never answers leaves the date recorded, sends nothing and raises the flag; otherwise the date is recorded, the step is AwaitingTime and at most ten times are offered |
| HandlerProperties.AvailableSlotsIgnoreUsers | Hairdresser.Api/Services/BookingService.cs:79-147 | the slot query reads schedules, configuration and appointments only, so the user lookup before it does not change its answer |
| HandlerProperties.TimeReplyOutcome | Hairdresser.Api/Services/MessageHandler.cs:255-280 | a readable time is recorded with step ConfirmingAppointment; an unreadable one leaves states as they were |
| HandlerProperties.ConfirmationEndsConversation | Hairdresser.Api/Services/MessageHandler.cs:282-322 | after confirm_yes or confirm_no the phone has no state, whether or not a booking was made |
| HandlerProperties.ConfirmYesBooks | Hairdresser.Api/Services/MessageHandler.cs:282-322 | confirm_yes books exactly what CreateAppointmentAsync accepts for the selected worker, date and time |
| HandlerProperties.UnknownReplyIgnored | Hairdresser.Api/Services/MessageHandler.cs:74-98 | any other reply id only records the user contact |
| HandlerProperties.SentStoredClearedKeepSameUpToStep | Hairdresser.Api/Services/MessageHandler.cs:74-98 | sending, storing and clearing keep two worlds equal up to the phone's step |
| HandlerProperties.WorkerSelectionIgnoresStep | Hairdresser.Api/Services/MessageHandler.cs:166-209 | the worker step's result does not depend on CurrentStep |
| HandlerProperties.DateSelectionIgnoresStep | Hairdresser.Api/Services/MessageHandler.cs:211-253 | the date step's result and flag do not depend on CurrentStep |
| HandlerProperties.TimeSelectionIgnoresStep | Hairdresser.Api/Services/MessageHandler.cs:255-280 | the time step's result and fault do not depend on CurrentStep |
| HandlerProperties.ConfirmationIgnoresStep | Hairdresser.Api/Services/MessageHandler.cs:282-322 | the confirmation's result does not depend on CurrentStep |
| HandlerProperties.DispatchIgnoresStep | Hairdresser.Api/Services/MessageHandler.cs:74-98 | dispatch never reads CurrentStep: the same messages, store, fault and states up to the phone's step |
| HandlerProperties.PutRemoveKeepKeyed | Hairdresser.Api/Services/ConversationService.cs:26-39 | storing and removing keep every state under its own phone number |
| HandlerProperties.SentStoredClearedKeepOk | Hairdresser.Api/Services/MessageHandler.cs:25-99 | sending, storing and clearing keep the store valid and the states keyed |
| HandlerProperties.IncomingKeepsInvariants | Hairdresser.Api/Services/MessageHandler.cs:25-59 | a text keeps the store valid and each state under its own phone number |
| HandlerProperties.WorkerSelectionKeepsOk | Hairdresser.Api/Services/MessageHandler.cs:166-209 | the worker step keeps the invariants |
| HandlerProperties.DateSelectionKeepsOk | Hairdresser.Api/Services/MessageHandler.cs:211-253 | the date step keeps the invariants |
| HandlerProperties.TimeSelectionKeepsOk | Hairdresser.Api/Services/MessageHandler.cs:255-280 | the time step keeps the invariants |
| HandlerProperties.CancellationKeepsOk | Hairdresser.Api/Services/MessageHandler.cs:348-367 | a cancel_ reply keeps the invariants |
| HandlerProperties.ConfirmationKeepsOk | Hairdresser.Api/Services/MessageHandler.cs:282-322 | confirming keeps the invariants |
| HandlerProperties.ReplyKeepsInvariants | Hairdresser.Api/Services/MessageHandler.cs:61-99 | an interactive reply keeps the store valid and each state under its own phone number |
| Conversations.ConversationStore.constructor | Hairdresser.Api/Services/ConversationService.cs:12-18 | the dictionary starts empty |
| Messaging.Outbox.constructor | Hairdresser.Api/Services/WhatsAppService.cs:15-26 | no call has been made yet |
| MessageHandling.MessageHandler.constructor | Hairdresser.Api/Services/MessageHandler.cs:13-22 | the handler works through the given booking service, its store, the conversation store and the WhatsApp sender |
| AppointmentAdmin.HasSlotConflict | Hairdresser.Api/Services/AppointmentService.cs:195-205 | a conflict exists exactly when some non-cancelled appointment of that worker sits at that date and time, the excluded id not counting |
| AppointmentAdmin.SameDayConflict | Hairdresser.Api/Services/AppointmentService.cs:197-202 | searching the worker's active appointments of the day finds a conflict exactly when the whole table holds one |
| AppointmentAdmin.NoConflictWithItself | Hairdresser.Api/Services/AppointmentService.cs:199-202 | on a valid store, an appointment checked with its own id excluded never conflicts at its own slot |
| AppointmentAdmin.ConflictIsActiveAt | Hairdresser.Api/Services/AppointmentService.cs:195-205 | without an exclusion, a conflict is exactly an active appointment holding the slot, the same test the bot's booking uses |
| AppointmentAdmin.NormalizePhoneNumber | Hairdresser.Api/Services/AppointmentService.cs:207-212 | a blank number becomes "", any other keeps exactly its digits in order; the result is all digits |
| AppointmentAdmin.NormalizeIdempotent | Hairdresser.Api/Services/AppointmentService.cs:207-212 | normalising a normalised number changes nothing |
| AppointmentAdmin.StatusDisplay | Hairdresser.Api/Services/AppointmentService.cs:214-230 | a status is shown as its raw text, and with the grey badge, exactly when it is not one of pending, confirmed, cancelled, completed; the four labels are pairwise distinct |
| AppointmentAdmin.StatusText | Hairdresser.Api/Services/AppointmentService.cs:214-221 | the label is the raw status exactly when the status is not one of the four known ones |
| AppointmentAdmin.StatusBadgeClass | Hairdresser.Api/Services/AppointmentService.cs:223-230 | the grey badge exactly for a status that is not one of the four known ones |
| AppointmentAdmin.MatchesSearch | Hairdresser.Api/Services/AppointmentService.cs:35-42 | searching for a user's exact name or phone number, or an exact service type, finds the appointment |
| AppointmentAdmin.IndexFilter | Hairdresser.Api/Services/AppointmentService.cs:25-42 | with no worker, status or search filter every appointment passes |
| AppointmentAdmin.UserOf | Hairdresser.Api/Services/AppointmentService.cs:50-51 | the navigation user, when present, is a stored user with the appointment's user id |
| AppointmentAdmin.ByWorker | Hairdresser.Api/Services/AppointmentService.cs:25-28 | keeps exactly the appointments of the worker when a positive worker id is given, all of them otherwise |
| AppointmentAdmin.ByStatus | Hairdresser.Api/Services/AppointmentService.cs:30-33 | keeps exactly the appointments with the given status when it is not blank, all of them otherwise |
| AppointmentAdmin.BySearch | Hairdresser.Api/Services/AppointmentService.cs:35-42 | keeps exactly the appointments whose lower-cased user name or service type contains the trimmed lower-cased search, or whose phone contains the trimmed search, when the search is not blank |
| AppointmentAdmin.IndexAppointments | Hairdresser.Api/Services/AppointmentService.cs:18-45 | the listed appointments are sorted by time |
| AppointmentAdmin.IndexAppointmentsMembers | Hairdresser.Api/Services/AppointmentService.cs:18-45 | an appointment is listed exactly when it is stored, falls on the selected date and passes the worker, status and search filters |
| AppointmentAdmin.TimeKeyOrder | Hairdresser.Api/Services/AppointmentService.cs:45 | a sequence sorted by the time key has non-decreasing times |
| Seqs.SortByStable | Hairdresser.Api/Services/AppointmentService.cs:45 | OrderBy is stable: the elements with any one key come in the order they had before sorting |
| AppointmentAdmin.UnfilteredIndexListsTheDay | Hairdresser.Api/Services/AppointmentService.cs:18-45 | with no filter, the index lists every appointment of the day, cancelled ones included, and nothing else |
| AppointmentAdmin.Row | Hairdresser.Api/Services/AppointmentService.cs:46-58 | a row carries the appointment's id, time and status and the status label |
| AppointmentAdmin.Rows | Hairdresser.Api/Services/AppointmentService.cs:44-59 | one row per listed appointment, in the same order |
| AppointmentAdmin.RowsInTimeOrder | Hairdresser.Api/Services/AppointmentService.cs:44-59 | rows built from appointments in time order come in time order |
| AppointmentAdmin.IndexPageOf | Hairdresser.Api/Services/AppointmentService.cs:18-76 | the page has one row per listed appointment with its id, in non-decreasing time, beside the active workers as filter |
| AppointmentAdmin.AdminAppointment | Hairdresser.Api/Services/AppointmentService.cs:116-128 | the new appointment takes the given user, worker, date, time, duration and status, no service reference, and blank service type and notes dropped, the others trimmed |
| AppointmentAdmin.AdminUserSpec | Hairdresser.Api/Services/AppointmentService.cs:94-114 | the user returned has the normalised phone and a row in the new store, and only the users table and its id counter may change |
| AppointmentAdmin.AdminUserCreated | Hairdresser.Api/Services/AppointmentService.cs:97-108 | for an unknown phone, a new user with the next id and the trimmed name (or none) is stored and found by that phone, keeping the store valid |
| AppointmentAdmin.AdminUserFound | Hairdresser.Api/Services/AppointmentService.cs:109-114 | a known user without a name takes the trimmed name entered; otherwise the user and the store are unchanged; the store stays valid |
| AppointmentAdmin.AdminCreateSpec | Hairdresser.Api/Services/AppointmentService.cs:89-141 | the user step is saved first; the save of the appointment throws exactly when the slot is taken or the worker has no row, leaving the user step in place; otherwise the appointment with the next id is appended |
| AppointmentAdmin.AdminCreateKeepsValid | Hairdresser.Api/Services/AppointmentService.cs:89-141 | admin create keeps the store valid, and a created appointment belongs to the user stored under the normalised phone |
| AppointmentAdmin.AdminUpdateSpec | Hairdresser.Api/Services/AppointmentService.cs:143-172 | false and no change for an unknown id; true with worker, date, time, duration, status, trimmed service type and notes replaced in that row; for an existing row the save throws (None, no change) exactly when another row of any status holds the new slot or the new worker, user or service has no row |
| AppointmentAdmin.AdminUpdateAfterConflictCheck | Hairdresser.Api/Services/AppointmentService.cs:143-172 | on a valid store, an update of an existing row to an existing worker and to a slot no other row of any status occupies (or to its own slot) succeeds, keeps the store valid and changes that one row only |
| AppointmentAdmin.AdminDeleteSpec | Hairdresser.Api/Services/AppointmentService.cs:174-193 | false and no change for an unknown id; otherwise exactly the rows with that id are removed and nothing else changes |
| AppointmentAdmin.AppointmentService.constructor | Hairdresser.Api/Services/AppointmentService.cs:12-16 | the service works on the given store |
| AppointmentAdmin.AppointmentService.GetAppointmentsForIndex | Hairdresser.Api/Services/AppointmentService.cs:18-77 | returns the index page of the current store |
| AppointmentAdmin.AppointmentService.HasSlotConflictAsync | Hairdresser.Api/Services/AppointmentService.cs:195-205 | the loop over the worker's appointments of the day answers exactly HasSlotConflict on the whole table |
| AppointmentAdmin.AppointmentService.CreateAppointmentFromAdmin | Hairdresser.Api/Services/AppointmentService.cs:89-141 | the new store and result are those of AdminCreateSpec |
| AppointmentAdmin.AppointmentService.UpdateAppointment | Hairdresser.Api/Services/AppointmentService.cs:143-172 | the new store and result are those of AdminUpdateSpec |
| AppointmentAdmin.AppointmentService.DeleteAppointment | Hairdresser.Api/Services/AppointmentService.cs:174-193 | the new store and result are those of AdminDeleteSpec |
| AppointmentsPages.TryParseDateTime | Hairdresser.Api/Controllers/AppointmentsController.cs:229-234 | succeeds exactly when the date matches `yyyy-MM-dd` and the time matches `HH:mm`, and then yields both parsed values |
| AppointmentsPages.CreateAnnotationsHold | Hairdresser.Api/Models/ViewModels/AppointmentCrudViewModels.cs:8-38 | a Create form that passes its annotations, string lengths counted in UTF-16 units, has a phone number, a date, a time and a status |
| AppointmentsPages.EditAnnotationsHold | Hairdresser.Api/Models/ViewModels/AppointmentCrudViewModels.cs:61-82 | an Edit form that passes its annotations, string lengths counted in UTF-16 units, has a date, a time and a status |
| AppointmentsPages.ParseDateOrDefault | Hairdresser.Api/Controllers/AppointmentsController.cs:236-244 | the fallback for a missing, blank or non-matching date, the parsed date otherwise |
| AppointmentsPages.ParseTimeOrDefault | Hairdresser.Api/Controllers/AppointmentsController.cs:246-254 | the fallback for a missing, blank or non-matching time, the parsed time otherwise |
| AppointmentsPages.ParsesWhatItFormats | Hairdresser.Api/Controllers/AppointmentsController.cs:229-254 | a date and time the pages format are parsed back unchanged by all three parsers |
| AppointmentsPages.NewCreateForm | Hairdresser.Api/Controllers/AppointmentsController.cs:31-46 | the form's worker id is the given id when it is positive and 0 otherwise; its date and time are the parsed values, defaulting to today and 09:00 |
| AppointmentsPages.CreateErrors | Hairdresser.Api/Controllers/AppointmentsController.cs:54-77 | a Create post has no form error exactly when the annotations hold and date and time parse (the required phone, the positive worker and the status whitelist included) |
| AppointmentsPages.EditErrors | Hairdresser.Api/Controllers/AppointmentsController.cs:140-153 | an Edit post has no form error exactly when the annotations hold and date and time parse |
| AppointmentsPages.CreatePostSpec | Hairdresser.Api/Controllers/AppointmentsController.cs:50-106 | a form shown again or a NotFound leaves the store unchanged |
| AppointmentsPages.CreatePostBooksOnlyValidForms | Hairdresser.Api/Controllers/AppointmentsController.cs:54-105 | a Create post redirects only for a valid form, an existing worker and a slot with no active appointment, adds exactly one appointment and redirects to its day and worker; with no row in the slot such a form always books |
| AppointmentsPages.CreateOverCancelledSlotIsServerError | Hairdresser.Api/Controllers/AppointmentsController.cs:86-103 | a slot held only by a cancelled appointment passes the conflict check, and the insert then fails on the unique slot index |
| AppointmentsPages.EditPostSpec | Hairdresser.Api/Controllers/AppointmentsController.cs:136-178 | a form shown again or a NotFound leaves the store unchanged |
| AppointmentsPages.EditToMissingWorkerIsServerError | Hairdresser.Api/Controllers/AppointmentsController.cs:136-178 | Edit does not check the worker: on a valid store a valid form moving an existing appointment to a worker id without a row passes the conflict check and the save throws, changing nothing |
| AppointmentsPages.EditOverCancelledSlotIsServerError | Hairdresser.Api/Controllers/AppointmentsController.cs:155-171 | a slot whose other row is a cancelled appointment passes the Edit conflict check, and the save then throws on the unique slot index, changing nothing |
| AppointmentsPages.FirstWithIdAfterReplace | Hairdresser.Api/Controllers/AppointmentsController.cs:176-177 | after the update, reading the appointment back by its id yields the row just written |
| AppointmentsPages.EditPostOutcome | Hairdresser.Api/Controllers/AppointmentsController.cs:136-178 | the store changes only after a valid form and a clear slot; a valid form for an unknown id answers NotFound; a redirect goes to the new date and worker |
| AppointmentsPages.AppointmentsController.constructor | Hairdresser.Api/Controllers/AppointmentsController.cs:16-20 | the controller works through the given service |
| AppointmentsPages.AppointmentsController.Index | Hairdresser.Api/Controllers/AppointmentsController.cs:22-28 | shows the index page of the parsed date, today by default |
| AppointmentsPages.AppointmentsController.CreatePost | Hairdresser.Api/Controllers/AppointmentsController.cs:48-106 | the new store and answer are those of CreatePostSpec |
| AppointmentsPages.AppointmentsController.EditPost | Hairdresser.Api/Controllers/AppointmentsController.cs:134-178 | the new store and answer are those of EditPostSpec |
| AppointmentsPages.AppointmentsController.DeleteConfirmed | Hairdresser.Api/Controllers/AppointmentsController.cs:203-217 | an unknown id answers NotFound and changes nothing; otherwise the appointment is deleted and the answer redirects to its day and worker |
| Dashboard.GridStart | Hairdresser.Api/Services/DashboardService.cs:178-186 | the grid starts on a Monday at most six days before the 1st |
| Dashboard.GridStartIsLatestMonday | Hairdresser.Api/Services/DashboardService.cs:178-186 | no later Monday lies on or before the 1st: the grid starts in the week that holds the 1st |
| Dashboard.Tally | Hairdresser.Api/Services/DashboardService.cs:174-176 | the per-date dictionary holds only dates with at least one row |
| Dashboard.RangeCountsMeaning | Hairdresser.Api/Services/DashboardService.cs:163-176 | the count looked up for a date inside the query range is the number of non-cancelled appointments of that date (of the filtered worker); outside the range it is 0 |
| Dashboard.Cell | Hairdresser.Api/Services/DashboardService.cs:190-198 | the cell is the cell of the given date |
| Dashboard.CalendarOver | Hairdresser.Api/Services/DashboardService.cs:188-200 | 42 cells of consecutive dates from the grid's first day, each the cell of its own date |
| Dashboard.GridCountsMeaning | Hairdresser.Api/Services/DashboardService.cs:174-176 | counting over the grid's own 42 days gives each grid date its number of counted appointments and every other date 0 |
| Dashboard.CalendarAsWritten | Hairdresser.Api/Services/DashboardService.cs:156-203 | the calendar with the query range as written has 42 cells |
| Dashboard.CalendarAsWrittenCounts | Hairdresser.Api/Services/DashboardService.cs:163-176 | as written, a cell shows its date's count only when the date lies between 1st + 1 − dow(1st) and last + 7 − dow(last), and 0 otherwise |
| Dashboard.CalendarAsWrittenMissesSundayFirst | Hairdresser.Api/Services/DashboardService.cs:163 | for February 2026, whose 1st is a Sunday, the 1st is on the grid with one pending appointment but its cell shows 0 |
| Dashboard.CalendarAsWrittenMissesGridTail | Hairdresser.Api/Services/DashboardService.cs:164 | for June 2026 the as-written query ends on July 5, so July 6, the first cell of the grid's sixth row, shows 0 with one pending appointment, where the corrected calendar shows 1 |
| Dashboard.Calendar | Hairdresser.Api/Services/DashboardService.cs:156-203 | the calendar with the query range corrected to the grid has 42 cells |
| Dashboard.CalendarCounts | Hairdresser.Api/Services/DashboardService.cs:163-197 | in the corrected calendar every cell counts exactly the non-cancelled appointments of its own date, of the filtered worker when one is given |
| Dashboard.GridYmdIsDateOnly | Hairdresser.Api/Services/DashboardService.cs:193-194 | the year, month and day read off the grid agree with the calendar date of the day |
| Dashboard.CalendarGrid | Hairdresser.Api/Services/DashboardService.cs:178-200 | the cells are 42 consecutive days from the Monday on or before the 1st and cover the whole month; a cell is of the current month exactly when it lies between the 1st and the last, and then shows its day of the month |
| Dashboard.CalendarCellsAreDateOnly | Hairdresser.Api/Services/DashboardService.cs:192-194 | every cell shows its date's day, and is of the current month exactly when its date's month is the calendar's month |
| Dashboard.CalendarMarks | Hairdresser.Api/Services/DashboardService.cs:195-196 | a cell is marked selected, or today, exactly when its date is that date; the selected date is marked somewhere exactly when it lies within the 42 days |
| Dashboard.MonthlyAppointments | Hairdresser.Api/Services/DashboardService.cs:25-32 | exactly the appointments dated within the month, of any status, of the filtered worker when a positive id is given |
| Dashboard.StatusCountsSum | Hairdresser.Api/Services/DashboardService.cs:34-42 | the four per-status counts add up to the number of appointments with a known status |
| Dashboard.MonthlyStatsOf | Hairdresser.Api/Services/DashboardService.cs:34-51 | the total is the month's number of appointments, and the confirmed, pending and cancelled figures add up to at most it |
| Dashboard.MonthlyStatsAccount | Hairdresser.Api/Services/DashboardService.cs:34-51 | the shown confirmed (with completed), pending and cancelled figures add up to at most the total, and to exactly the total when every appointment of the month has a known status |
| Dashboard.ServiceOf | Hairdresser.Api/Services/DashboardService.cs:73-87 | the service found is one whose id is the appointment's service id, and none is found exactly when there is no service id or no service with it |
| Dashboard.DayRowOf | Hairdresser.Api/Services/DashboardService.cs:89-102 | the row carries the appointment's id, status, formatted time and notes; price 0 and no service name without a known service, the service's price with one |
| Dashboard.DayList | Hairdresser.Api/Services/DashboardService.cs:65-70 | exactly the appointments of the date, of any status, passing the worker filter, sorted by time |
| Dashboard.DayRows | Hairdresser.Api/Services/DashboardService.cs:83-104 | one row per listed appointment, in the same order |
| Dashboard.DayAppointments | Hairdresser.Api/Services/DashboardService.cs:61-105 | a day without appointments shows no row |
| Dashboard.DayAppointmentsListTheDay | Hairdresser.Api/Services/DashboardService.cs:61-105 | every appointment of the day passing the worker filter, cancelled or not, has its row |
| Dashboard.DayAppointmentsComeFromTheDay | Hairdresser.Api/Services/DashboardService.cs:61-105 | every row is that of an appointment of the day passing the worker filter |
| Dashboard.DayAppointmentsInTimeOrder | Hairdresser.Api/Services/DashboardService.cs:83-84 | the day's appointments are listed in non-decreasing time |
| Dashboard.SetStatusSpec | Hairdresser.Api/Services/DashboardService.cs:108-130 | false and no change for an unknown id; true with only that row's status replaced, unchecked; a throwing save changes nothing |
| Dashboard.SetNotesSpec | Hairdresser.Api/Services/DashboardService.cs:132-154 | false and no change for an unknown id; true with only that row's notes replaced; a throwing save changes nothing |
| Dashboard.OwnSlotFree | Hairdresser.Api/Services/DashboardService.cs:112-120 | on a valid store, a row that keeps its slot is the row found by its id and no other row holds its slot |
| Dashboard.SetStatusChangesOneRow | Hairdresser.Api/Services/DashboardService.cs:108-130 | on a valid store a status edit of an existing row always commits, changes that row's status only and keeps the store valid |
| Dashboard.SetNotesChangesOneRow | Hairdresser.Api/Services/DashboardService.cs:132-154 | on a valid store a notes edit of an existing row always commits, changes that row's notes only and keeps the store valid |
| Dashboard.CancelFromDashboardFreesSlot | Hairdresser.Api/Services/DashboardService.cs:108-130 | cancelling a row from the dashboard leaves no active appointment in its slot, so the bot offers the slot again |
| Dashboard.DashboardService.constructor | Hairdresser.Api/Services/DashboardService.cs:7 | the service works on the given store |
| Dashboard.DashboardService.BuildCalendarDays | Hairdresser.Api/Services/DashboardService.cs:156-203 | the 42-step loop builds exactly the corrected calendar |
| Dashboard.DashboardService.DayCell | Hairdresser.Api/Services/DashboardService.cs:190-198 | the loop body builds the cell of the current date |
| Dashboard.DashboardService.UpdateAppointmentStatus | Hairdresser.Api/Services/DashboardService.cs:108-130 | the new store and result are those of SetStatusSpec |
| Dashboard.DashboardService.UpdateAppointmentNotes | Hairdresser.Api/Services/DashboardService.cs:132-154 | the new store and result are those of SetNotesSpec |
| Domain.DayOfWeek | Hairdresser.Api/Services/DashboardService.cs:163-164 | the day of the week of a date lies in 0..6, and is Monday (1) exactly on the day numbers divisible by 7, day 0 being Monday 0001-01-01 |
| Dates.DaysInMonth | Hairdresser.Api/Services/DashboardService.cs:161 | a month has 28 to 31 days, and 29 exactly for February of a leap year |
| Dates.DayNumber | Hairdresser.Api/Services/DashboardService.cs:160 | the day number of a valid date falls within its year |
| Dates.ToYmd | Hairdresser.Api/Services/DashboardService.cs:193-194 | the year, month and day read off a valid day number are valid and rebuild that day number |
| Dates.DayNumberInjective | Hairdresser.Api/Services/DashboardService.cs:160 | two valid dates with the same day number are the same date |
| Dates.ToYmdOfDayNumber | Hairdresser.Api/Services/DashboardService.cs:193-194 | reading a valid date's day number back yields that year, month and day |
| Dates.MonthOf | Hairdresser.Api/Services/DashboardService.cs:194 | the month of a date lies in 1..12 |
| Dates.FirstOfMonth | Hairdresser.Api/Services/DashboardService.cs:160 | the 1st of an inner month leaves room for the grid's six days before and 41 days after |
| Dates.LastOfMonth | Hairdresser.Api/Services/DashboardService.cs:161 | the month's last day is its 1st plus the number of its days, less one |
| Dates.FormatDate | Hairdresser.Api/Controllers/AppointmentsController.cs:40 | the rendering is ten characters with dashes at positions 4 and 7 |
| Dates.ParseExactDate | Hairdresser.Api/Controllers/AppointmentsController.cs:231 | a parsed date is a valid date |
| Dates.ParseFormatDate | Hairdresser.Api/Controllers/AppointmentsController.cs:229-244 | every valid date formatted as `yyyy-MM-dd` parses back to itself |
| Dates.FormatParseDate | Hairdresser.Api/Controllers/AppointmentsController.cs:229-244 | a string parses as a date only when it is exactly the rendering of that date |
| Dates.FormatTime | Hairdresser.Api/Controllers/AppointmentsController.cs:41 | the rendering is five characters with a colon at position 2 |
| Dates.ParseFormatTime | Hairdresser.Api/Controllers/AppointmentsController.cs:229-254 | every time of day formatted as `HH:mm` parses back to itself |
| Dates.FormatParseTime | Hairdresser.Api/Controllers/AppointmentsController.cs:229-254 | a string parses as a time only when it is exactly the rendering of that time |
| Text.TrimStartWhere | Hairdresser.Api/Services/MessageHandler.cs:33 | the result is a suffix of the string, all dropped characters are white space and the first kept one is not |
| Text.TrimEndWhere | Hairdresser.Api/Services/MessageHandler.cs:33 | the result is a prefix of the string, all dropped characters are white space and the last kept one is not |
| Text.TrimBlank | Hairdresser.Api/Services/AppointmentService.cs:102 | trimming leaves nothing exactly for a blank string, and otherwise leaves no white space at either end |
| Text.NullIfBlankElseTrim | Hairdresser.Api/Services/AppointmentService.cs:124-125 | null exactly for a null or blank value; otherwise a non-empty value without white space at either end |
| Text.Utf16Length | Hairdresser.Api/Models/ViewModels/WorkerViewModel.cs:10-14 | the length StringLength compares is at least the character count and at most twice it |
| Text.Utf16LengthOfBmp | Hairdresser.Api/Models/ViewModels/WorkerViewModel.cs:10-14 | the UTF-16 length equals the character count exactly when no character lies above U+FFFF |
| Text.Trim | Hairdresser.Api/Services/MessageHandler.cs:33 | the trimmed string is no longer and has no white space at either end |
| Text.ToLower | Hairdresser.Api/Services/AppointmentService.cs:37 | the lower-cased string has the same length and maps each character by the simple lower-case mapping of Basic Latin, Latin-1 and Latin Extended-A (the Turkish Ç, Ğ, İ, Ö, Ş, Ü included); every other character is kept |
| Text.StartsWith | Hairdresser.Api/Services/MessageHandler.cs:33 | the string starts with the prefix exactly when the prefix is no longer and agrees with it character by character |
| Text.Contains | Hairdresser.Api/Services/AppointmentService.cs:37-41 | a contained part is never longer than the string, and a prefix is always contained |
| Text.RemoveAll | Hairdresser.Api/Services/MessageHandler.cs:168 | Replace with "" never makes the string longer and only removes characters |
| Text.RemoveAllAbsent | Hairdresser.Api/Services/MessageHandler.cs:168 | Replace with "" leaves alone a string that lacks a character of the pattern |
| Text.RemoveAllPrefix | Hairdresser.Api/Services/MessageHandler.cs:168 | Replace with "" removes a leading occurrence of the pattern |
| Text.NatToString | Hairdresser.Api/Services/MessageHandler.cs:145 | the decimal rendering is a non-empty string of digits |
| Text.IntToString | Hairdresser.Api/Services/MessageHandler.cs:145 | the rendering of an integer is non-empty, starts with a minus sign exactly when the integer is negative, and is digits after its first character |
| Text.ParseInt32 | Hairdresser.Api/Services/BookingService.cs:97 | a parsed number lies within the Int32 range |
| Text.ParseIntToString | Hairdresser.Api/Services/BookingService.cs:97 | every Int32 written in decimal parses back to itself |
| Text.TrimKeepsSolidEnds | Hairdresser.Api/Services/AppointmentService.cs:211 | a string whose two ends are not white space trims to itself |
| Repositories.ActiveOfUser | Hairdresser.Api/Repositories/AppointmentRepository.cs:10-18 | exactly the user's non-cancelled appointments, each at most as often as stored, ordered by date then time |
| Repositories.ActiveOfWorkerOn | Hairdresser.Api/Repositories/AppointmentRepository.cs:20-26 | exactly the non-cancelled appointments of that worker on that date, each at most as often as stored |
| Repositories.ActiveAt | Hairdresser.Api/Repositories/AppointmentRepository.cs:28-35 | a stored non-cancelled appointment matching worker, date and time, and None exactly when there is none |
| Repositories.InDateRange | Hairdresser.Api/Repositories/AppointmentRepository.cs:37-46 | exactly the appointments dated within both inclusive bounds, cancelled ones included, ordered by date then time |
| Repositories.AppointmentById | Hairdresser.Api/Repositories/AppointmentRepository.cs:48-54 | a stored appointment with that id, and None exactly when there is none |
| Repositories.WorkingScheduleFor | Hairdresser.Api/Repositories/WorkerScheduleRepository.cs:10-14 | a stored working row of that worker and day, and None exactly when there is no working row for them |
| Repositories.SchedulesOf | Hairdresser.Api/Repositories/WorkerScheduleRepository.cs:16-22 | exactly the worker's rows, working or not, ordered by day of week |
| Repositories.ActiveWorkers | Hairdresser.Api/Repositories/WorkerRepository.cs:13-19 | exactly the active workers, ordered by name |
| Repositories.WorkerById | Hairdresser.Api/Repositories/WorkerRepository.cs:21-26 | a stored worker with that id, active or not, and None exactly when there is none |
| Repositories.UserByPhone | Hairdresser.Api/Repositories/UserRepository.cs:13-16 | a stored user with exactly that phone number, and None exactly when there is none |
| Repositories.ConfigByKey | Hairdresser.Api/Repositories/BusinessConfigRepository.cs:13-16 | a stored configuration row with that key, and None exactly when there is none |
| Repositories.NonWorkingDayHasNoSchedule | Hairdresser.Api/Repositories/WorkerScheduleRepository.cs:13 | a day whose only row for the worker is a non-working row yields no schedule |
| Repositories.CancelledDoesNotHoldSlot | Hairdresser.Api/Repositories/AppointmentRepository.cs:28-35 | a slot held only by a cancelled appointment yields no active appointment |
| Store.InsertAppointment | Hairdresser.Api/Data/ApplicationDbContext.cs:53-74 | the save fails, changing nothing, exactly when a row of any status occupies the (worker, date, time) key or the user, worker or service it points at has no row; otherwise the row is appended with the next id |
| Store.InsertAppointmentValid | Hairdresser.Api/Data/ApplicationDbContext.cs:57-73 | an appointment insert keeps the unique slot index, the identities and the foreign keys valid |
| Store.ReplaceById | Hairdresser.Api/Data/ApplicationDbContext.cs:57 | the rows with the given id take the new value and every other row is kept, position by position |
| Store.UpdateAppointment | Hairdresser.Api/Data/ApplicationDbContext.cs:57-73 | the save fails, changing nothing, exactly when another row holds the new slot or the new user, worker or service has no row; otherwise the row with that id takes the new values |
| Store.UpdateAppointmentValid | Hairdresser.Api/Data/ApplicationDbContext.cs:57-59 | an appointment update keeps the store valid |
| Store.DeleteAppointment | Hairdresser.Api/Data/ApplicationDbContext.cs:54-57 | exactly the rows with that id disappear and nothing else changes |
| Store.DeleteAppointmentValid | Hairdresser.Api/Data/ApplicationDbContext.cs:53-74 | removing an appointment keeps the store valid |
| Store.InsertUser | Hairdresser.Api/Data/ApplicationDbContext.cs:23-27 | the save fails, changing nothing, exactly when the phone number is taken; otherwise the user is appended with the next id |
| Store.InsertUserValid | Hairdresser.Api/Data/ApplicationDbContext.cs:23-27 | a user insert keeps the unique phone index and the identities valid |
| Store.RenameUser | Hairdresser.Api/Data/ApplicationDbContext.cs:23-27 | only the name of the user with that id changes |
| Store.RenameUserValid | Hairdresser.Api/Data/ApplicationDbContext.cs:23-27 | renaming a user keeps the store valid |
| Store.InsertWorker | Hairdresser.Api/Data/ApplicationDbContext.cs:32-39 | the worker is appended with the next id and the id counter advances |
| Store.InsertWorkerValid | Hairdresser.Api/Data/ApplicationDbContext.cs:32-39 | a worker insert keeps the store valid |
| Store.ReplaceWorker | Hairdresser.Api/Data/ApplicationDbContext.cs:32-39 | the rows with the worker's id take its new values; every other row and table is unchanged |
| Store.ReplaceWorkerValid | Hairdresser.Api/Data/ApplicationDbContext.cs:32-39 | replacing a worker keeps the store valid |
| Store.DeleteWorker | Hairdresser.Api/Data/ApplicationDbContext.cs:48-51 | the worker disappears, and the cascading foreign keys remove exactly its schedule rows and its appointments (the appointment cascade is at lines 70-73) |
| Store.DeleteWorkerValid | Hairdresser.Api/Migrations/20260109235729_Initial.cs:98-114 | deleting a worker with its cascades keeps the store valid: no remaining appointment or schedule row points at the deleted worker |
| Store.Numbered | Hairdresser.Api/Data/ApplicationDbContext.cs:41-45 | each row takes the next consecutive id and the worker's id, its other fields kept |
| Store.InsertSchedules | Hairdresser.Api/Data/ApplicationDbContext.cs:41-51 | the save fails, changing nothing, exactly when two rows share a day, the worker already has a row for one of the days, or there are rows and the worker has none; otherwise the numbered rows are appended |
| Store.InsertSchedulesValid | Hairdresser.Api/Data/ApplicationDbContext.cs:41-45 | inserting schedule rows keeps the unique (worker, day) index valid |
| Store.ReplaceSchedules | Hairdresser.Api/Data/ApplicationDbContext.cs:41-51 | the save fails, changing nothing, exactly when two new rows share a day or there are new rows and the worker has none; otherwise the worker's rows become exactly the numbered new rows and other workers' rows stay |
| Store.FilterKeepsScheduleDaysUnique | Hairdresser.Api/Data/ApplicationDbContext.cs:45 | dropping schedule rows never creates a clash of (worker, day) keys |
| Store.KeptPlusOwnUnique | Hairdresser.Api/Data/ApplicationDbContext.cs:45 | other workers' rows plus one worker's rows on distinct days share no key |
| Store.ReplaceSchedulesValid | Hairdresser.Api/Data/ApplicationDbContext.cs:41-45 | replacing a worker's schedule keeps the store valid |
| Store.Database.constructor | Hairdresser.Api/Data/ApplicationDbContext.cs:8-17 | an empty store holding the given configuration and services is valid |
| Store.Database.AddAppointment | Hairdresser.Api/Data/ApplicationDbContext.cs:54-63 | the new state and result are those of InsertAppointment |
| Store.Database.SaveAppointment | Hairdresser.Api/Data/ApplicationDbContext.cs:54-63 | the new state and result are those of UpdateAppointment |
| Store.Database.RemoveAppointment | Hairdresser.Api/Data/ApplicationDbContext.cs:54-57 | the new state is that of DeleteAppointment |
| Store.Database.AddUser | Hairdresser.Api/Data/ApplicationDbContext.cs:23-27 | the new state and result are those of InsertUser |
| Store.Database.SetUserName | Hairdresser.Api/Data/ApplicationDbContext.cs:23-27 | the new state is that of RenameUser |
| Store.Database.AddWorker | Hairdresser.Api/Data/ApplicationDbContext.cs:32-39 | the new state and result are those of InsertWorker |
| Store.Database.SaveWorker | Hairdresser.Api/Data/ApplicationDbContext.cs:32-39 | the new state is that of ReplaceWorker |
| Store.Database.RemoveWorker | Hairdresser.Api/Data/ApplicationDbContext.cs:48-51 | the new state is that of DeleteWorker |
| Store.Database.AddSchedules | Hairdresser.Api/Data/ApplicationDbContext.cs:41-45 | the new state and result are those of InsertSchedules |
| Store.Database.SetSchedules | Hairdresser.Api/Data/ApplicationDbContext.cs:41-45 | the new state and result are those of ReplaceSchedules |
| Users.DistinctByPhone | Hairdresser.Api/Services/UserService.cs:15-18 | the de-duplicated list is no longer than the loaded users |
| Users.DistinctByPhoneOnePerNumber | Hairdresser.Api/Services/UserService.cs:15-18 | no phone number appears twice, every loaded number appears, each kept user is the first loaded user with its number, and the kept users come in the order their numbers first occur |
| Users.DistinctByPhoneKeepsUniqueList | Hairdresser.Api/Services/UserService.cs:15-18 | loaded users with pairwise distinct phone numbers, as the unique phone index guarantees, are kept as they are |
| Users.ConfirmCount | Hairdresser.Api/Services/UserService.cs:25 | the count is 0 exactly for a null collection or one without a confirmed or completed appointment |
| Users.CancelCount | Hairdresser.Api/Services/UserService.cs:26 | the count is 0 exactly for a null collection or one without a cancelled appointment |
| Users.CountsWithinAppointments | Hairdresser.Api/Services/UserService.cs:25-26 | the two counts together never exceed the user's number of appointments |
| Users.ListEntry | Hairdresser.Api/Services/UserService.cs:24-35 | the entry holds the user, with both counts 0 when no appointments were loaded and together never more than its appointments otherwise |
| Users.UserList | Hairdresser.Api/Services/UserService.cs:9-37 | one entry per de-duplicated user |
| Users.UserListCountsBounded | Hairdresser.Api/Services/UserService.cs:22-34 | the k-th entry holds the k-th de-duplicated user, and its counts never exceed that user's appointments |
| Users.GetAllUsers | Hairdresser.Api/Services/UserService.cs:9-37 | the loop appends exactly the entries of UserList, in order |
| Users.UserById | Hairdresser.Api/Services/UserService.cs:40-44 | a stored user with that id, and None exactly when there is none |
| Webhook.Verify | Hairdresser.Api/Controllers/WebhookController.cs:22-40 | the challenge is echoed, unchanged, exactly for a `subscribe` request carrying the configured verify token; anything else is refused |
| Webhook.ValueDeliveries | Hairdresser.Api/Controllers/WebhookController.cs:65-69 | no message for a null Messages list; otherwise each message of the value, in order, with the value's contacts |
| Webhook.ChangeDeliveries | Hairdresser.Api/Controllers/WebhookController.cs:60-63 | a change of another field than `messages` yields no message |
| Webhook.Deliveries | Hairdresser.Api/Controllers/WebhookController.cs:52-56 | a payload whose object is not `whatsapp_business_account` yields no message |
| Webhook.OtherFieldsAddNothing | Hairdresser.Api/Controllers/WebhookController.cs:58-63 | skipping the changes of other fields loses no message: an entry's messages are those of its `messages` changes |
| Webhook.SenderName | Hairdresser.Api/Controllers/WebhookController.cs:73-78 | no name without contacts or without a contact whose WaId is the sender; otherwise the profile name of the first such contact |
| Webhook.Dispatch | Hairdresser.Api/Controllers/WebhookController.cs:80-107 | at most one handler call, from the sender: a text message with a body goes to the text handler with the sender's name; an interactive one goes to the reply handler with its button reply, else its list reply, else nowhere; any other type is ignored |
| Webhook.DeliveryEvents | Hairdresser.Api/Controllers/WebhookController.cs:69-107 | one message leads to its read mark first, then at most one handler call |
| Webhook.PayloadEvents | Hairdresser.Api/Controllers/WebhookController.cs:46-122 | a payload of another object leads to no call |
| Webhook.PayloadEventsByMessage | Hairdresser.Api/Controllers/WebhookController.cs:58-109 | the nested walk makes exactly the calls of the delivered messages, one message after another |
| Webhook.MessageIds | Hairdresser.Api/Controllers/WebhookController.cs:71 | the ids of the delivered messages, in order |
| Webhook.MessageIdsSnoc | Hairdresser.Api/Controllers/WebhookController.cs:71 | one more message adds its id at the end |
| Webhook.ReadIdOfDelivery | Hairdresser.Api/Controllers/WebhookController.cs:71 | one message's calls hold exactly one read mark, for that message |
| Webhook.EveryMessageMarkedRead | Hairdresser.Api/Controllers/WebhookController.cs:69-71 | every delivered message is marked read exactly once, in delivery order, and nothing else is marked |
| Webhook.PayloadMessagesMarkedRead | Hairdresser.Api/Controllers/WebhookController.cs:58-109 | the read marks of a payload's walk are exactly its messages' ids, in payload order |
| Webhook.ReadBeforeDispatch | Hairdresser.Api/Controllers/WebhookController.cs:71-107 | every handler call directly follows a read mark |
| Webhook.PayloadMarkedBeforeHandled | Hairdresser.Api/Controllers/WebhookController.cs:58-109 | in a payload's walk every handler call directly follows the read mark of its message |
| Webhook.Perform | Hairdresser.Api/Controllers/WebhookController.cs:71-106 | one call leaves the store's setup (workers, schedules, configuration, services) as it was |
| Webhook.DeliveryKeepsInvariants | Hairdresser.Api/Controllers/WebhookController.cs:58-128 | the calls of a delivery, up to the first that throws, keep the store valid and every conversation state filed under its own number |
| Webhook.WebhookController.constructor | Hairdresser.Api/Controllers/WebhookController.cs:11-16 | the controller works through the given handler and verify token |
| Webhook.WebhookController.VerifyWebhook | Hairdresser.Api/Controllers/WebhookController.cs:22-40 | answers Verify with the configured token |
| Webhook.WebhookController.ProcessMessage | Hairdresser.Api/Controllers/WebhookController.cs:69-108 | marks the message read, then dispatches it: the new state and the thrown flag are those of its calls run in order |
| Webhook.WebhookController.DispatchMessage | Hairdresser.Api/Controllers/WebhookController.cs:73-107 | the new state and the thrown flag are those of the message's handler call, if any |
| Webhook.WebhookController.ProcessChange | Hairdresser.Api/Controllers/WebhookController.cs:60-109 | the loop over a change's messages stops at the first handler that throws; the new state and flag are those of the change's calls run in order |
| Webhook.WebhookController.ProcessEntry | Hairdresser.Api/Controllers/WebhookController.cs:58-119 | the loop over an entry's changes stops at the first throw; the new state and flag are those of the entry's calls run in order |
| Webhook.WebhookController.ReceiveWebhook | Hairdresser.Api/Controllers/WebhookController.cs:45-129 | always answers 200 OK, even after a throw; the new state is that of the payload's calls run in order up to the first that throws or never returns |
| WorkerAdmin.ShortDayName | Hairdresser.Api/Services/WorkerService.cs:168-181 | the name has three letters exactly for a day of week 0..6, and is empty for any other number |
| WorkerAdmin.ShortDayNamesDistinct | Hairdresser.Api/Services/WorkerService.cs:170-179 | different days of the week get different names |
| WorkerAdmin.Join | Hairdresser.Api/Services/WorkerService.cs:38 | joining nothing gives ""; otherwise the length is the parts' lengths plus one separator between each two parts |
| WorkerAdmin.DayKeyOrder | Hairdresser.Api/Services/WorkerService.cs:40 | rows sorted by the day key have non-decreasing days of week |
| WorkerAdmin.WorkingRows | Hairdresser.Api/Services/WorkerService.cs:39-40 | exactly the working rows, in non-decreasing day of week |
| WorkerAdmin.DayNames | Hairdresser.Api/Services/WorkerService.cs:41 | one short name per row, in the same order |
| WorkerAdmin.WorkingDays | Hairdresser.Api/Services/WorkerService.cs:38-41 | a worker without working days shows an empty WorkingDays text |
| WorkerAdmin.WorkingDaysLength | Hairdresser.Api/Services/WorkerService.cs:38-41 | the WorkingDays text of k working days of a real week is 5k − 2 characters long (three letters each, ", " between), and empty without working days |
| WorkerAdmin.ThreeLetterLengths | Hairdresser.Api/Services/WorkerService.cs:41 | k names of three letters have 3k letters in all |
| WorkerAdmin.RowsOfMembers | Hairdresser.Api/Services/WorkerService.cs:27 | the worker's rows are exactly the stored rows with its id |
| WorkerAdmin.TotalCount | Hairdresser.Api/Services/WorkerService.cs:36 | the count of non-cancelled appointments never exceeds the appointments, and is 0 exactly when all of them are cancelled |
| WorkerAdmin.TodayCount | Hairdresser.Api/Services/WorkerService.cs:36-37 | today's non-cancelled appointments never outnumber all non-cancelled ones |
| WorkerAdmin.ListEntry | Hairdresser.Api/Services/WorkerService.cs:30-42 | the entry carries the worker's id, name, specialty and active flag, and its count for today never exceeds its total |
| WorkerAdmin.WorkersByName | Hairdresser.Api/Services/WorkerService.cs:25 | the same workers, each as often, sorted by name |
| WorkerAdmin.AllWorkers | Hairdresser.Api/Services/WorkerService.cs:18-46 | one entry per stored worker |
| WorkerAdmin.AllWorkersListEveryWorker | Hairdresser.Api/Services/WorkerService.cs:18-46 | a worker, active or not, has an entry exactly when it is stored |
| WorkerAdmin.AllWorkersByName | Hairdresser.Api/Services/WorkerService.cs:25 | the entries come in name order, compared character by character by code point |
| WorkerAdmin.Owned | Hairdresser.Api/Services/WorkerService.cs:72-76 | each supplied row, in order, with the worker's id set |
| WorkerAdmin.OwnedNumbered | Hairdresser.Api/Services/WorkerService.cs:72-76 | setting the owner first changes neither the saved rows nor whether two rows share a day |
| WorkerAdmin.CreateWorkerSpec | Hairdresser.Api/Services/WorkerService.cs:64-88 | the new worker has the next id and the given name and active flag; users, appointments and configuration are untouched |
| WorkerAdmin.UpdateWorkerSpec | Hairdresser.Api/Services/WorkerService.cs:90-123 | an update never adds or removes a worker and leaves users, appointments and configuration untouched |
| WorkerAdmin.CreateWorkerOutcome | Hairdresser.Api/Services/WorkerService.cs:64-88 | the worker is saved with the next id and is found by it, the store stays valid; the second save throws exactly when two rows share a day, leaving the rows unchanged; otherwise the worker's rows are exactly the supplied ones, numbered |
| WorkerAdmin.UpdateWorkerOutcome | Hairdresser.Api/Services/WorkerService.cs:90-123 | false exactly for an unknown id; anything but true changes nothing; for a known id the save throws exactly when two rows share a day |
| WorkerAdmin.UpdateWorkerReplacesRows | Hairdresser.Api/Services/WorkerService.cs:94-113 | after a successful update the worker has the new name, specialty and active flag and exactly the supplied rows; other workers' rows, the appointments and the users are unchanged |
| WorkerAdmin.UpdateWorkerKeepsValid | Hairdresser.Api/Services/WorkerService.cs:90-123 | an update keeps the store valid |
| WorkerAdmin.ToggleSpec | Hairdresser.Api/Services/WorkerService.cs:125-145 | a toggle never adds or removes a worker and leaves users, appointments and schedules untouched |
| WorkerAdmin.ToggleFlips | Hairdresser.Api/Services/WorkerService.cs:125-145 | true exactly for a known id; then only that worker's active flag is negated, otherwise nothing changes |
| WorkerAdmin.ToggleTwiceRestores | Hairdresser.Api/Services/WorkerService.cs:125-145 | toggling twice restores the original state |
| WorkerAdmin.DeleteSpec | Hairdresser.Api/Services/WorkerService.cs:147-166 | a delete never adds a worker and leaves users, configuration and services untouched |
| WorkerAdmin.DeleteOutcome | Hairdresser.Api/Services/WorkerService.cs:147-166 | true exactly for a known id; then the worker, its schedule rows and its appointments are gone and every other worker stays; otherwise nothing changes |
| WorkerAdmin.WorkerService.constructor | Hairdresser.Api/Services/WorkerService.cs:12-16 | the service works on the given store |
| WorkerAdmin.WorkerService.GetAllWorkers | Hairdresser.Api/Services/WorkerService.cs:18-46 | the loop over the workers by name builds exactly AllWorkers |
| WorkerAdmin.WorkerService.GetActiveWorkers | Hairdresser.Api/Services/WorkerService.cs:48-52 | exactly the active workers, sorted by name |
| WorkerAdmin.WorkerService.GetWorkerById | Hairdresser.Api/Services/WorkerService.cs:54-57 | a stored worker with that id, and None exactly when there is none |
| WorkerAdmin.WorkerService.GetWorkerWithSchedules | Hairdresser.Api/Services/WorkerService.cs:59-62 | None exactly for an unknown id; otherwise the worker with exactly its stored schedule rows |
| WorkerAdmin.WorkerService.AssignWorker | Hairdresser.Api/Services/WorkerService.cs:72-76 | the loop sets the worker's id on every supplied row, in order |
| WorkerAdmin.WorkerService.CreateWorker | Hairdresser.Api/Services/WorkerService.cs:64-88 | the new store, worker and thrown flag are those of CreateWorkerSpec |
| WorkerAdmin.WorkerService.UpdateWorker | Hairdresser.Api/Services/WorkerService.cs:90-123 | the new store and result are those of UpdateWorkerSpec |
| WorkerAdmin.WorkerService.ToggleWorkerActiveStatus | Hairdresser.Api/Services/WorkerService.cs:125-145 | the new store and result are those of ToggleSpec |
| WorkerAdmin.WorkerService.DeleteWorker | Hairdresser.Api/Services/WorkerService.cs:147-166 | the new store and result are those of DeleteSpec |
| WorkersPages.FormDayName | Hairdresser.Api/Controllers/WorkersController.cs:180 | every day of the week has a non-empty Turkish name |
| WorkersPages.DefaultWeek | Hairdresser.Api/Controllers/WorkersController.cs:177-195 | seven days, Sunday first, each with id 0, its own number and name, 09:00 to 18:00, working exactly from Monday to Saturday |
| WorkersPages.DefaultSchedules | Hairdresser.Api/Controllers/WorkersController.cs:177-195 | the seven-step loop builds exactly the default week |
| WorkersPages.FormDay | Hairdresser.Api/Controllers/WorkersController.cs:204-213 | a day with no row of the worker is a day off from 09:00 to 18:00 with id 0; otherwise it takes the id, working flag and hours of the first row for that day |
| WorkersPages.WeekOf | Hairdresser.Api/Controllers/WorkersController.cs:197-217 | the Edit form always has seven days |
| WorkersPages.SchedulesForWorker | Hairdresser.Api/Controllers/WorkersController.cs:197-217 | the seven-step loop builds exactly the worker's week |
| WorkersPages.PostedRowsMembers | Hairdresser.Api/Controllers/WorkersController.cs:40-48 | exactly the working days of the form are posted, each as a working row with its day and hours, no id and no owner |
| WorkersPages.DefaultWeekPostsMondayToSaturday | Hairdresser.Api/Controllers/WorkersController.cs:40-48 | posting the Create form as shown gives six 09:00-18:00 rows, Monday to Saturday in order, no day twice |
| WorkersPages.SundayOffWeekPosts | Hairdresser.Api/Controllers/WorkersController.cs:40-48 | any week in which only Sunday is off and every day runs 09:00-18:00 posts those six rows |
| WorkersPages.EditFormRoundTrip | Hairdresser.Api/Controllers/WorkersController.cs:104-112 | saving a worker's Edit form unchanged posts back exactly its working rows with their days and hours; its days off are not posted |
| WorkersPages.CreatePostOutcome | Hairdresser.Api/Controllers/WorkersController.cs:27-58 | an invalid form changes nothing and is shown again with the default week; a valid one adds one worker and keeps the store valid, fails exactly when two working days share a day of week, and on success the worker's rows are exactly the posted working days |
| WorkersPages.EditPage | Hairdresser.Api/Controllers/WorkersController.cs:60-84 | the form is shown exactly for a given id of a stored worker; otherwise NotFound |
| WorkersPages.EditPostOutcome | Hairdresser.Api/Controllers/WorkersController.cs:86-126 | a route id that differs from the form's is NotFound; nothing changes unless the answer is a redirect, and then the worker has the posted fields and exactly the posted working days |
| WorkersPages.EditUnchangedKeepsWorkingDays | Hairdresser.Api/Controllers/WorkersController.cs:60-126 | saving a worker's Edit page unchanged succeeds, keeps each working day with its hours, and drops the rows of its days off |
| WorkersPages.PostedRowsDistinctDays | Hairdresser.Api/Controllers/WorkersController.cs:104-112 | a form whose days are distinct posts rows whose days are distinct |
| WorkersPages.CreatePostSpec | Hairdresser.Api/Controllers/WorkersController.cs:27-58 | a Create post never touches users or appointments, and a form shown again changes nothing |
| WorkersPages.EditPostSpec | Hairdresser.Api/Controllers/WorkersController.cs:86-126 | an Edit post never touches users or appointments, and a form shown again or NotFound changes nothing |
| WorkersPages.WorkersController.constructor | Hairdresser.Api/Controllers/WorkersController.cs:10 | the controller works through the given service |
| WorkersPages.WorkersController.Index | Hairdresser.Api/Controllers/WorkersController.cs:12-16 | shows the worker list of the current store |
| WorkersPages.WorkersController.Create | Hairdresser.Api/Controllers/WorkersController.cs:18-25 | shows an empty active worker with the default week |
| WorkersPages.WorkersController.CreatePost | Hairdresser.Api/Controllers/WorkersController.cs:27-58 | the new store and answer are those of CreatePostSpec |
| WorkersPages.WorkersController.Edit | Hairdresser.Api/Controllers/WorkersController.cs:60-84 | answers EditPage on the current store |
| WorkersPages.WorkersController.EditPost | Hairdresser.Api/Controllers/WorkersController.cs:86-126 | the new store and answer are those of EditPostSpec |
| WorkersPages.WorkersController.Delete | Hairdresser.Api/Controllers/WorkersController.cs:128-143 | NotFound without an id or for an unknown worker; otherwise the confirmation page of that worker |
| WorkersPages.WorkersController.DeleteConfirmed | Hairdresser.Api/Controllers/WorkersController.cs:145-158 | always redirects to the list; the new store is that of DeleteSpec |
| WorkersPages.WorkersController.ToggleActive | Hairdresser.Api/Controllers/WorkersController.cs:160-175 | NotFound exactly for an unknown worker, a redirect otherwise; the new store is that of ToggleSpec |

## Left out

- Logging and the admin pages' TempData messages are not modelled; they change no state.
- The webhook's status updates (WebhookController.cs:111-118) are only logged by the source and are not modelled.
- WhatsAppService's HTTP requests and JSON bodies are not modelled; each outbound call is a record appended to `Messaging.Outbox`.
- Message texts (Turkish, culture-formatted, with emoji) are reduced to the kind of message and the data it carries.
- The clock (`GetTurkeyTime`, `DateTime.Today`, `DateTime.UtcNow`) is a parameter; one clock reading is used per webhook delivery.
- Concurrency is not modelled: the conversation store's `ConcurrentDictionary` is a map, and every request runs alone.
- Entity Framework plumbing (the unit of work, the generic repository, change tracking, migrations) is reduced to the store's tables, its unique indexes, its foreign keys and its cascades.
- The handler's `DateOnly.TryParse`/`TimeOnly.TryParse` (MessageHandler.cs:214, 258) accept culture-dependent formats; the model accepts exactly `yyyy-MM-dd` and `HH:mm`, the forms the bot itself sends as reply ids.
- `GetAllUsersWithAppointmentsAsync` is not declared in the repository interfaces that are part of this model; the users with their appointments are the input of `Users.GetAllUsers`.
- `GetByUserIdForCancelAsync` is not part of this model; it is modelled as `GetByUserIdAsync` (the user's non-cancelled appointments in date and time order).
- The unit of work's service repository is not part of this model; services are a table of the store.
- The "help" reply text is not modelled beyond the message kind.
- Webhook.Perform: when the clock's week of offered dates runs past 9999-12-31, where `DateOnly.AddDays` throws, the model reports the call as throwing without looking at the event; such a clock is outside the representable calendar.
- Form-binding validation of nested objects is not modelled; only the data annotations the forms declare are.
- The Edit (GET) and Delete (GET) actions of AppointmentsController (AppointmentsController.cs:108-132, 180-201) only display data and are not modelled.
- The dashboard view model's month name and other display-only fields are not modelled; statistics, calendar and day list are.
- Booking.AvailableSlots: where the source's slot loop never ends (a slot length of 0, or a loop that `TimeOnly.AddMinutes` wraps past midnight before it reaches the end), or divides by zero on today, the model answers None instead of hanging or throwing; the date reply then raises the handler's flag like a thrown exception, and Booking.BookingService.GetAvailableTimeSlotsForWorker has no postcondition for that case.
- Booking.IsAvailable: a slot on today is measured against the corrected `Booking.Cutoff`, not the as-written one (see Findings).
- Booking.SelectAvailable: filters by the corrected `Booking.Cutoff`; `Booking.CutoffAsWritten` is the source's formula (see Findings).
- Booking.AvailableSlots: serves the slots of the corrected `Booking.Cutoff` (see Findings).
- Booking.BookingService.GetAvailableTimeSlotsForWorker: returns the slots of the corrected `Booking.Cutoff` (see Findings).
- MessageHandling.DateSelection: offers the slots of the corrected `Booking.Cutoff` (see Findings).
- MessageHandling.MessageHandler.HandleDateSelection: offers the slots of the corrected `Booking.Cutoff` (see Findings).
- Dashboard.DashboardService.BuildCalendarDays: counts over the corrected `Dashboard.Calendar` range, so a month whose 1st is a Sunday counts its 1st, and the grid's cells after the Sunday following the last day (the sixth row, unless the last day itself lies in it) show their real counts where the source shows 0 (see Findings).
- Text.ToLower: the culture-specific mappings (under tr-TR `I` becomes the dotless `ı`) and letters beyond U+017F are not modelled; such letters are kept as they are.
- AppointmentAdmin.BySearch: matches case-insensitively only as far as Text.ToLower lower-cases; a letter beyond U+017F must match in the case typed.
- AppointmentAdmin.MatchesSearch: the same limit of Text.ToLower.
- AppointmentAdmin.NormalizePhoneNumber: keeps the ASCII digits only, where `char.IsDigit` also keeps the other Unicode decimal digits (Arabic-Indic, fullwidth and so on).
- WorkerAdmin.WorkersByName: names are compared by code point, where LINQ's `OrderBy` on strings uses the current culture's comparer; names that differ only in case or in accented letters may come in another order.
- WorkerAdmin.AllWorkersByName: the same code-point order instead of the culture's comparer.
- Seqs.StringKey: turns a name into its code points, so every name order in the model is the ordinal one.
- Repositories.ActiveWorkers: the database orders by the column's collation, which the model replaces by code-point order.
- The timestamps `CreatedAt`, `LastContact` and `UpdatedAt` (BookingService.cs:45-46, 55, 183-184, 217) are not modelled; nothing in the core reads them.
- Webhook.WebhookController.ReceiveWebhook: when a call never returns, the source never answers the request; the model stops the walk at that call and answers 200 OK.
- Dates.InnerMonth: the dashboard's month and year come from the query string unchecked (DashboardController.cs:10-25), and the model takes only months 1..12 of years 2..9998. For a month outside 1..12 or a year outside 1..9999, `new DateOnly` throws and the page fails; that failure is not modelled. The 42-day grid around January of year 1 or December of year 9999 leaves the range `DateOnly` can represent, so those two whole years are excluded too.
- Text.StartsWith: compares ordinally, character by character. The one-argument `string.StartsWith` the handler calls (MessageHandler.cs:33, 39, 74-86) compares under the current culture, which ignores characters such as the soft hyphen; a reply id carrying such a character may match in the source and not in the model.
- Deleting users (and the cascade to their appointments) is not an operation of the core and is not modelled.
- Prices are decimals in the source and whole numbers in the model.

## Findings

| source | as written | input that shows it | evidently intended | confidence | as-written member | corrected member |
|---|---|---|---|---|---|---|
| Hairdresser.Api/Services/BookingService.cs:125-130 | the "today" cutoff adds the missing minutes to the current time with its seconds and wraps past midnight | at 10:15:30 with 60-minute slots the cutoff is 11:00:30, so the free 11:00 slot is dropped; at 23:30 the cutoff wraps to 00:00 and every already-passed slot of the day is offered | round up to the next slot boundary of the same day | not executed | `Booking.CutoffAsWritten`, `Booking.CutoffAsWrittenCounterexamples` | `Booking.Cutoff`, `Booking.CutoffRoundsToNextHour` |
| Hairdresser.Api/Services/DashboardService.cs:163-164 | the count query starts at the 1st minus its weekday plus one, which is the 2nd when the 1st is a Sunday, while the grid starts at the Monday before; it ends at the Sunday after the last day, while the grid runs on to 42 days | February 2026 (the 1st is a Sunday) with one pending appointment on the 1st: its calendar cell shows 0; June 2026 with one pending appointment on July 6, the first cell of the sixth row: that cell shows 0 | count over the grid's own 42 days | not executed | `Dashboard.CalendarAsWritten`, `Dashboard.CalendarAsWrittenMissesSundayFirst`, `Dashboard.CalendarAsWrittenMissesGridTail` | `Dashboard.Calendar`, `Dashboard.CalendarCounts` |
