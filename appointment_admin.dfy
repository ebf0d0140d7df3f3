/**
 * The admin side of appointments (AppointmentService): the slot-conflict test
 * the forms run before saving, phone number normalisation, the status labels,
 * the filtered day list of the index page, and create, update and delete of
 * single appointments.
 */
module AppointmentAdmin {
  import opened Domain
  import opened Text
  import opened Seqs
  import opened Repositories
  import opened Store

  /** HasSlotConflictAsync: an active appointment of the worker already sits at that date and time, not counting the excluded id. */
  function HasSlotConflict(appts: seq<Appointment>, workerId: int, date: Date, time: TimeOfDay, exclude: Option<int>): (r: bool)
    ensures r <==> exists i :: 0 <= i < |appts| && appts[i].workerId == workerId && appts[i].date == date
                               && appts[i].time == time && IsActive(appts[i])
                               && (exclude.None? || appts[i].id != exclude.value)
  {
    var sameDay := ActiveOfWorkerOn(appts, workerId, date);
    SameDayConflict(appts, sameDay, workerId, date, time, exclude);
    exists a | a in sameDay :: a.time == time && IsActive(a) && (exclude.None? || a.id != exclude.value)
  }

  lemma SameDayConflict(appts: seq<Appointment>, sameDay: seq<Appointment>, workerId: int, date: Date, time: TimeOfDay,
                        exclude: Option<int>)
    requires forall a :: a in sameDay <==> a in appts && a.workerId == workerId && a.date == date && IsActive(a)
    ensures (exists a | a in sameDay :: a.time == time && IsActive(a) && (exclude.None? || a.id != exclude.value))
            <==> exists i :: 0 <= i < |appts| && appts[i].workerId == workerId && appts[i].date == date
                             && appts[i].time == time && IsActive(appts[i])
                             && (exclude.None? || appts[i].id != exclude.value)
  {
    if exists a | a in sameDay :: a.time == time && IsActive(a) && (exclude.None? || a.id != exclude.value) {
      var a :| a in sameDay && a.time == time && IsActive(a) && (exclude.None? || a.id != exclude.value);
      var i :| 0 <= i < |appts| && appts[i] == a;
    }
  }

  /** Excluding an appointment's own id, the appointment never conflicts with itself: in a valid store nothing else holds its slot. */
  lemma NoConflictWithItself(s: DbState, k: int)
    requires Valid(s) && 0 <= k < |s.appointments|
    ensures var a := s.appointments[k];
            !HasSlotConflict(s.appointments, a.workerId, a.date, a.time, Some(a.id))
  {
    var appts := s.appointments;
    var a := appts[k];
    forall i | 0 <= i < |appts| && appts[i].id != a.id
      ensures !(appts[i].workerId == a.workerId && appts[i].date == a.date && appts[i].time == a.time)
    {
      if i < k {
        assert !SameSlot(appts[i], appts[k]);
      } else {
        assert !SameSlot(appts[k], appts[i]);
      }
    }
  }

  /** Without an exclusion, a conflict is exactly an active appointment holding the slot. */
  lemma ConflictIsActiveAt(appts: seq<Appointment>, workerId: int, date: Date, time: TimeOfDay)
    ensures HasSlotConflict(appts, workerId, date, time, None) <==> ActiveAt(appts, workerId, date, time).Some?
  {
  }

  /** A sequence whose every element satisfies p is its own filter. */
  lemma {:induction false} FilterKeepsAll<T>(s: seq<T>, p: T -> bool)
    requires forall i :: 0 <= i < |s| ==> p(s[i])
    ensures Filter(s, p) == s
  {
    if s != [] {
      FilterKeepsAll(s[1..], p);
      assert s == [s[0]] + s[1..];
    }
  }

  /** Trimming a string of digits changes nothing. */
  lemma TrimDigits(s: string)
    requires AllDigits(s)
    ensures Trim(s) == s
  {
    assert s != [] ==> !IsWhiteSpace(s[0]) && !IsWhiteSpace(s[|s| - 1]);
  }

  /**
   * NormalizePhoneNumber: "" for a blank number, otherwise the digits of the
   * number in their order (the final Trim has nothing left to remove).
   */
  function NormalizePhoneNumber(phone: string): (r: string)
    ensures IsBlank(phone) ==> r == []
    ensures !IsBlank(phone) ==> r == Filter(phone, IsAsciiDigit)
    ensures AllDigits(r)
  {
    if IsBlank(phone) then []
    else
      var digits := Filter(phone, IsAsciiDigit);
      TrimDigits(digits);
      Trim(digits)
  }

  /** Normalising a normalised number changes nothing. */
  lemma NormalizeIdempotent(phone: string)
    ensures NormalizePhoneNumber(NormalizePhoneNumber(phone)) == NormalizePhoneNumber(phone)
  {
    var r := NormalizePhoneNumber(phone);
    if r != [] {
      assert !IsWhiteSpace(r[0]);
      FilterKeepsAll(r, IsAsciiDigit);
    }
  }

  /** The four statuses the forms accept (IsValidStatus). */
  predicate IsKnownStatus(status: string)
  {
    status == Pending || status == Confirmed || status == Cancelled || status == Completed
  }

  /** GetStatusText: the Turkish label of a known status, any other status as it is. */
  function StatusText(status: string): (r: string)
    ensures r == status <==> !IsKnownStatus(status)
  {
    if status == Confirmed then "Onayland\U{131}"
    else if status == Pending then "Bekliyor"
    else if status == Cancelled then "\U{130}ptal"
    else if status == Completed then "Tamamland\U{131}"
    else status
  }

  /** GetStatusBadgeClass: a colour per known status, grey for anything else. */
  function StatusBadgeClass(status: string): (r: string)
    ensures r == "badge bg-secondary" <==> !IsKnownStatus(status)
  {
    if status == Confirmed then "badge bg-success"
    else if status == Pending then "badge bg-warning"
    else if status == Cancelled then "badge bg-danger"
    else if status == Completed then "badge bg-info"
    else "badge bg-secondary"
  }

  /**
   * A status is shown by its raw text and the grey badge exactly when it is not
   * one of the four known statuses, and the four labels tell the statuses apart.
   */
  lemma StatusDisplay(status: string, other: string)
    ensures StatusText(status) == status <==> !IsKnownStatus(status)
    ensures StatusBadgeClass(status) == "badge bg-secondary" <==> !IsKnownStatus(status)
    ensures IsKnownStatus(status) && IsKnownStatus(other) && StatusText(status) == StatusText(other) ==> status == other
  {
    if IsKnownStatus(status) {
      assert StatusText(status)[0] != status[0];
    }
  }

  /** A row of the index page. */
  datatype AppointmentRow = AppointmentRow(
    id: int,
    time: TimeOfDay,
    customerName: string,
    phoneNumber: string,
    workerName: string,
    status: string,
    statusText: string,
    statusBadgeClass: string,
    durationMinutes: int,
    serviceType: Option<string>)

  /** The appointment's user (navigation property a.User). */
  function UserOf(s: DbState, a: Appointment): (r: Option<User>)
    ensures r.Some? ==> r.value in s.users && r.value.id == a.userId
  {
    FirstWhere(s.users, (u: User) => u.id == a.userId)
  }

  /**
   * The search filter: case-insensitive on the user's name and the service
   * type, a plain substring on the phone number. Searching for the exact
   * name, phone number or service type always finds the appointment.
   */
  function MatchesSearch(s: DbState, a: Appointment, search: string): (b: bool)
    ensures UserOf(s, a).Some? && UserOf(s, a).value.name == Some(Trim(search)) ==> b
    ensures UserOf(s, a).Some? && UserOf(s, a).value.phoneNumber == Trim(search) ==> b
    ensures a.serviceType == Some(Trim(search)) ==> b
  {
    var needle := Trim(search);
    var lower := ToLower(needle);
    assert StartsWith(lower, lower) && StartsWith(needle, needle);
    var user := UserOf(s, a);
    (user.Some? && user.value.name.Some? && Contains(ToLower(user.value.name.value), lower))
    || (user.Some? && Contains(user.value.phoneNumber, needle))
    || (a.serviceType.Some? && Contains(ToLower(a.serviceType.value), lower))
  }

  /** The three optional filters of the index page. */
  function IndexFilter(s: DbState, a: Appointment, workerId: Option<int>, status: Option<string>, search: Option<string>): (b: bool)
    ensures workerId.None? && status.None? && search.None? ==> b
  {
    (workerId.Some? && workerId.value > 0 ==> a.workerId == workerId.value)
    && (!IsNullOrWhiteSpace(status) ==> a.status == status.value)
    && (!IsNullOrWhiteSpace(search) ==> MatchesSearch(s, a, search.value))
  }

  /** Where(WorkerId == workerId), applied only for a positive worker id. */
  function ByWorker(appts: seq<Appointment>, workerId: Option<int>): (r: seq<Appointment>)
    ensures forall a :: a in r <==> a in appts && (workerId.Some? && workerId.value > 0 ==> a.workerId == workerId.value)
  {
    if workerId.Some? && workerId.value > 0 then
      var w := workerId.value;
      FilterMembers(appts, (a: Appointment) => a.workerId == w);
      Filter(appts, (a: Appointment) => a.workerId == w)
    else appts
  }

  /** Where(Status == status), applied only for a non-blank status. */
  function ByStatus(appts: seq<Appointment>, status: Option<string>): (r: seq<Appointment>)
    ensures forall a :: a in r <==> a in appts && (!IsNullOrWhiteSpace(status) ==> a.status == status.value)
  {
    if !IsNullOrWhiteSpace(status) then
      var st := status.value;
      FilterMembers(appts, (a: Appointment) => a.status == st);
      Filter(appts, (a: Appointment) => a.status == st)
    else appts
  }

  /** The search Where, applied only for a non-blank search. */
  function BySearch(s: DbState, appts: seq<Appointment>, search: Option<string>): (r: seq<Appointment>)
    ensures forall a :: a in r <==> a in appts && (!IsNullOrWhiteSpace(search) ==> MatchesSearch(s, a, search.value))
  {
    if !IsNullOrWhiteSpace(search) then
      var q := search.value;
      FilterMembers(appts, (a: Appointment) => MatchesSearch(s, a, q));
      Filter(appts, (a: Appointment) => MatchesSearch(s, a, q))
    else appts
  }

  /**
   * The appointments GetAppointmentsForIndexAsync lists: those of the selected
   * date (cancelled ones included) passing the filters, by time.
   */
  function IndexAppointments(s: DbState, date: Date, workerId: Option<int>, status: Option<string>, search: Option<string>)
    : (r: seq<Appointment>)
    ensures SortedBy(r, TimeKey)
  {
    SortBy(BySearch(s, ByStatus(ByWorker(InDateRange(s.appointments, date, date), workerId), status), search), TimeKey)
  }

  /** The index lists exactly the appointments of the date that pass every filter. */
  lemma IndexAppointmentsMembers(s: DbState, date: Date, workerId: Option<int>, status: Option<string>, search: Option<string>, a: Appointment)
    ensures a in IndexAppointments(s, date, workerId, status, search)
        <==> a in s.appointments && a.date == date && IndexFilter(s, a, workerId, status, search)
  {
    var listed := BySearch(s, ByStatus(ByWorker(InDateRange(s.appointments, date, date), workerId), status), search);
    SortByMembers(listed, TimeKey);
  }

  /** Ascending keys [t] are ascending times. */
  lemma TimeKeyOrder(appts: seq<Appointment>)
    requires SortedBy(appts, TimeKey)
    ensures forall i, j :: 0 <= i < j < |appts| ==> appts[i].time <= appts[j].time
  {
    forall i, j | 0 <= i < j < |appts| ensures appts[i].time <= appts[j].time {
      assert LexLe(TimeKey(appts[i]), TimeKey(appts[j]));
    }
  }

  /** With no worker, status or search filter the index lists every appointment of the day. */
  lemma UnfilteredIndexListsTheDay(s: DbState, date: Date, a: Appointment)
    ensures a in IndexAppointments(s, date, None, None, None) <==> a in s.appointments && a.date == date
  {
    IndexAppointmentsMembers(s, date, None, None, None, a);
  }

  /** The displayed row of an appointment: "Misafir" without a user name, "Atanmam\U{131}\U{15F}" without a worker. */
  function Row(s: DbState, a: Appointment): (r: AppointmentRow)
    ensures r.id == a.id && r.time == a.time && r.status == a.status && r.statusText == StatusText(a.status)
  {
    var user := UserOf(s, a);
    var worker := WorkerById(s.workers, a.workerId);
    AppointmentRow(
      a.id, a.time,
      if user.Some? && user.value.name.Some? then user.value.name.value else "Misafir",
      if user.Some? then user.value.phoneNumber else "",
      if worker.Some? then worker.value.name else "Atanmam\U{131}\U{15F}",
      a.status, StatusText(a.status), StatusBadgeClass(a.status), a.durationMinutes, a.serviceType)
  }

  /** The page: its rows in time order and the active workers offered as filter. */
  datatype IndexPage = IndexPage(rows: seq<AppointmentRow>, workers: seq<Worker>)

  /** Select(row) over the listed appointments. */
  function Rows(s: DbState, listed: seq<Appointment>): (r: seq<AppointmentRow>)
    ensures |r| == |listed|
    ensures forall i :: 0 <= i < |r| ==> r[i] == Row(s, listed[i])
  {
    seq(|listed|, i requires 0 <= i < |listed| => Row(s, listed[i]))
  }

  /** GetAppointmentsForIndexAsync: one row per listed appointment, in time order, and the active workers for the filter. */
  function IndexPageOf(s: DbState, date: Date, workerId: Option<int>, status: Option<string>, search: Option<string>)
    : (r: IndexPage)
    ensures var listed := IndexAppointments(s, date, workerId, status, search);
            && |r.rows| == |listed| && (forall i :: 0 <= i < |r.rows| ==> r.rows[i].id == listed[i].id)
            && (forall i, j :: 0 <= i < j < |r.rows| ==> r.rows[i].time <= r.rows[j].time)
            && r.workers == ActiveWorkers(s.workers)
  {
    RowsInTimeOrder(s, IndexAppointments(s, date, workerId, status, search));
    IndexPage(Rows(s, IndexAppointments(s, date, workerId, status, search)), ActiveWorkers(s.workers))
  }

  /** Rows of appointments in time order come in time order. */
  lemma RowsInTimeOrder(s: DbState, listed: seq<Appointment>)
    requires SortedBy(listed, TimeKey)
    ensures var rows := Rows(s, listed);
            forall i, j :: 0 <= i < j < |rows| ==> rows[i].time <= rows[j].time
  {
    var rows := Rows(s, listed);
    TimeKeyOrder(listed);
    forall i, j | 0 <= i < j < |rows| ensures rows[i].time <= rows[j].time {
      assert rows[i].time == listed[i].time && rows[j].time == listed[j].time;
    }
  }

  /** The new appointment an admin enters: no id yet, no service reference, blank texts dropped and the others trimmed. */
  function AdminAppointment(userId: int, workerId: int, date: Date, time: TimeOfDay, duration: int, status: string,
                            serviceType: Option<string>, notes: Option<string>): (a: Appointment)
    ensures a.serviceType == NullIfBlankElseTrim(serviceType) && a.notes == NullIfBlankElseTrim(notes)
    ensures a.userId == userId && a.workerId == workerId && a.date == date && a.time == time
    ensures a.durationMinutes == duration && a.status == status && a.serviceId.None?
  {
    Appointment(0, userId, workerId, date, time, duration, status,
                NullIfBlankElseTrim(serviceType), NullIfBlankElseTrim(notes), None)
  }

  /**
   * The user step of CreateAppointmentFromAdminAsync: the user with the
   * normalised phone, created with the trimmed name (or none) when missing, or
   * given the trimmed name when it has none and one was entered.
   */
  function AdminUserSpec(s: DbState, phone: string, customerName: Option<string>): (r: (DbState, User))
    ensures r.1.phoneNumber == NormalizePhoneNumber(phone) && HasUser(r.0.users, r.1.id)
    ensures r.0 == s.(users := r.0.users, nextUserId := r.0.nextUserId)
  {
    var normalized := NormalizePhoneNumber(phone);
    match UserByPhone(s.users, normalized)
    case None =>
      var saved := InsertUser(s, normalized, NullIfBlankElseTrim(customerName));
      (saved.state, saved.result.value)
    case Some(user) =>
      if !IsNullOrWhiteSpace(customerName) && IsNullOrWhiteSpace(user.name) then
        (RenameUser(s, user.id, Some(Trim(customerName.value))), user.(name := Some(Trim(customerName.value))))
      else (s, user)
  }

  /** A phone number without a user gets a new user with the trimmed name, or none. */
  lemma AdminUserCreated(s: DbState, phone: string, customerName: Option<string>)
    requires Valid(s) && UserByPhone(s.users, NormalizePhoneNumber(phone)).None?
    ensures var (s', user) := AdminUserSpec(s, phone, customerName);
            Valid(s') && UserByPhone(s'.users, user.phoneNumber) == Some(user)
            && user.name == NullIfBlankElseTrim(customerName) && user.id == s.nextUserId
  {
    var normalized := NormalizePhoneNumber(phone);
    InsertUserValid(s, normalized, NullIfBlankElseTrim(customerName));
    var s' := AdminUserSpec(s, phone, customerName).0;
    FirstWhereUnique(s'.users, (u: User) => u.phoneNumber == normalized, |s.users|);
  }

  /** An existing user without a name takes the trimmed name entered in the form; any other existing user is left as it is. */
  lemma AdminUserFound(s: DbState, phone: string, customerName: Option<string>)
    requires Valid(s) && UserByPhone(s.users, NormalizePhoneNumber(phone)).Some?
    ensures var (s', user) := AdminUserSpec(s, phone, customerName);
            var found := UserByPhone(s.users, NormalizePhoneNumber(phone)).value;
            Valid(s') && UserByPhone(s'.users, user.phoneNumber) == Some(user)
            && (!IsNullOrWhiteSpace(customerName) && IsNullOrWhiteSpace(found.name) ==>
                  user == found.(name := NullIfBlankElseTrim(customerName)))
            && (IsNullOrWhiteSpace(customerName) || !IsNullOrWhiteSpace(found.name) ==> user == found && s' == s)
  {
    var normalized := NormalizePhoneNumber(phone);
    var user := UserByPhone(s.users, normalized).value;
    var k :| 0 <= k < |s.users| && s.users[k] == user;
    FirstWhereUnique(s.users, (u: User) => u.phoneNumber == normalized, k);
    if !IsNullOrWhiteSpace(customerName) && IsNullOrWhiteSpace(user.name) {
      var name := Some(Trim(customerName.value));
      RenameUserValid(s, user.id, name);
      var s' := RenameUser(s, user.id, name);
      assert s'.users[k] == user.(name := name);
      FirstWhereUnique(s'.users, (u: User) => u.phoneNumber == normalized, k);
      assert AdminUserSpec(s, phone, customerName) == (s', user.(name := name));
    } else {
      assert AdminUserSpec(s, phone, customerName) == (s, user);
    }
  }

  /**
   * CreateAppointmentFromAdminAsync: the user step is saved first; then the
   * appointment is inserted with the given status, or the save throws (None)
   * when a row already occupies the slot or the worker has no row, leaving the
   * user step in place.
   */
  function AdminCreateSpec(s: DbState, phone: string, customerName: Option<string>, workerId: int, date: Date,
                           time: TimeOfDay, duration: int, status: string, serviceType: Option<string>,
                           notes: Option<string>): (r: Saved<Appointment>)
    ensures var (s1, user) := AdminUserSpec(s, phone, customerName);
            (r.result.None? <==> SlotTaken(s.appointments, workerId, date, time) || !HasWorker(s.workers, workerId))
            && (r.result.None? ==> r.state == s1)
            && (r.result.Some? ==>
                  r.result.value == AdminAppointment(user.id, workerId, date, time, duration, status, serviceType, notes)
                                      .(id := s.nextAppointmentId)
                  && r.state == s1.(appointments := s.appointments + [r.result.value],
                                    nextAppointmentId := s.nextAppointmentId + 1))
  {
    var (s1, user) := AdminUserSpec(s, phone, customerName);
    InsertAppointment(s1, AdminAppointment(user.id, workerId, date, time, duration, status, serviceType, notes))
  }

  /** Admin create keeps the store valid, and a created appointment belongs to the user stored under the normalised phone. */
  lemma AdminCreateKeepsValid(s: DbState, phone: string, customerName: Option<string>, workerId: int, date: Date,
                              time: TimeOfDay, duration: int, status: string, serviceType: Option<string>,
                              notes: Option<string>)
    requires Valid(s)
    ensures var r := AdminCreateSpec(s, phone, customerName, workerId, date, time, duration, status, serviceType, notes);
            Valid(r.state)
            && (r.result.Some? ==> UserByPhone(r.state.users, NormalizePhoneNumber(phone)).Some?
                                   && UserByPhone(r.state.users, NormalizePhoneNumber(phone)).value.id == r.result.value.userId)
  {
    if UserByPhone(s.users, NormalizePhoneNumber(phone)).None? {
      AdminUserCreated(s, phone, customerName);
    } else {
      AdminUserFound(s, phone, customerName);
    }
    var (s1, user) := AdminUserSpec(s, phone, customerName);
    InsertAppointmentValid(s1, AdminAppointment(user.id, workerId, date, time, duration, status, serviceType, notes));
  }

  /**
   * UpdateAppointmentAsync: false and no change for an unknown id; otherwise
   * worker, date, time, duration, status, service type and notes are
   * overwritten and the result is true, unless another row holds the new slot
   * or the new worker has no row, and the save throws (None).
   */
  function AdminUpdateSpec(s: DbState, id: int, workerId: int, date: Date, time: TimeOfDay, duration: int,
                           status: string, serviceType: Option<string>, notes: Option<string>): (r: (DbState, Option<bool>))
    ensures AppointmentById(s.appointments, id).None? ==> r == (s, Some(false))
    ensures r.1 != Some(true) ==> r.0 == s
    ensures !HasWorker(s.workers, workerId) ==> r.1 != Some(true)
    ensures AppointmentById(s.appointments, id).Some? ==>
              var new_ := AppointmentById(s.appointments, id).value.(
                            workerId := workerId, date := date, time := time, durationMinutes := duration,
                            status := status, serviceType := NullIfBlankElseTrim(serviceType),
                            notes := NullIfBlankElseTrim(notes));
              (r.1.None? <==> SlotTakenByOther(s.appointments, id, new_) || !References(s, new_))
    ensures r.1 == Some(true) ==>
              var old_ := AppointmentById(s.appointments, id).value;
              var new_ := old_.(workerId := workerId, date := date, time := time, durationMinutes := duration,
                                status := status, serviceType := NullIfBlankElseTrim(serviceType),
                                notes := NullIfBlankElseTrim(notes));
              r.0 == s.(appointments := ReplaceById(s.appointments, new_))
  {
    match AppointmentById(s.appointments, id)
    case None => (s, Some(false))
    case Some(a) =>
      var a' := a.(workerId := workerId, date := date, time := time, durationMinutes := duration, status := status,
                   serviceType := NullIfBlankElseTrim(serviceType), notes := NullIfBlankElseTrim(notes));
      var saved := UpdateAppointment(s, a');
      if saved.result.Some? then (saved.state, Some(true)) else (s, None)
  }

  /**
   * On a valid store, an update of an existing row to an existing worker and to
   * a slot no other row occupies, of any status, succeeds and changes that one
   * row only.
   */
  lemma AdminUpdateAfterConflictCheck(s: DbState, k: int, workerId: int, date: Date, time: TimeOfDay, duration: int,
                                      status: string, serviceType: Option<string>, notes: Option<string>)
    requires Valid(s) && 0 <= k < |s.appointments| && HasWorker(s.workers, workerId)
    requires !SlotTaken(s.appointments, workerId, date, time) || (workerId == s.appointments[k].workerId
             && date == s.appointments[k].date && time == s.appointments[k].time)
    ensures var (s', ok) := AdminUpdateSpec(s, s.appointments[k].id, workerId, date, time, duration, status, serviceType, notes);
            ok == Some(true) && Valid(s') && |s'.appointments| == |s.appointments|
            && (forall i :: 0 <= i < |s.appointments| && i != k ==> s'.appointments[i] == s.appointments[i])
            && s'.appointments[k].workerId == workerId && s'.appointments[k].status == status
            && s'.appointments[k].date == date && s'.appointments[k].time == time
  {
    var a := s.appointments[k];
    FirstWhereUnique(s.appointments, (x: Appointment) => x.id == a.id, k);
    var a' := a.(workerId := workerId, date := date, time := time, durationMinutes := duration, status := status,
                 serviceType := NullIfBlankElseTrim(serviceType), notes := NullIfBlankElseTrim(notes));
    forall i | 0 <= i < |s.appointments| && s.appointments[i].id != a.id ensures !SameSlot(s.appointments[i], a') {
      if i < k {
        assert !SameSlot(s.appointments[i], s.appointments[k]);
      } else if i > k {
        assert !SameSlot(s.appointments[k], s.appointments[i]);
      }
    }
    UpdateAppointmentValid(s, a');
  }

  /** DeleteAppointmentAsync: false and no change for an unknown id; otherwise that row is removed. */
  function AdminDeleteSpec(s: DbState, id: int): (r: (DbState, bool))
    ensures !r.1 <==> AppointmentById(s.appointments, id).None?
    ensures !r.1 ==> r.0 == s
    ensures r.1 ==> forall a :: a in r.0.appointments <==> a in s.appointments && a.id != id
    ensures r.0 == s.(appointments := r.0.appointments)
  {
    match AppointmentById(s.appointments, id)
    case None => (s, false)
    case Some(_) => (DeleteAppointment(s, id), true)
  }

  class AppointmentService {
    const db: Database

    constructor (db: Database)
      ensures this.db == db
    {
      this.db := db;
    }

    /** GetAppointmentsForIndexAsync */
    method GetAppointmentsForIndex(date: Date, workerId: Option<int>, status: Option<string>, search: Option<string>)
      returns (page: IndexPage)
      ensures page == IndexPageOf(db.State(), date, workerId, status, search)
    {
      page := IndexPageOf(db.State(), date, workerId, status, search);
    }

    /** HasSlotConflictAsync */
    method HasSlotConflictAsync(workerId: int, date: Date, time: TimeOfDay, exclude: Option<int>) returns (conflict: bool)
      ensures conflict == HasSlotConflict(db.appointments, workerId, date, time, exclude)
    {
      var sameDay := ActiveOfWorkerOn(db.appointments, workerId, date);
      conflict := false;
      var i := 0;
      while i < |sameDay|
        invariant 0 <= i <= |sameDay|
        invariant conflict <==> exists j :: 0 <= j < i && sameDay[j].time == time && IsActive(sameDay[j])
                                            && (exclude.None? || sameDay[j].id != exclude.value)
      {
        var a := sameDay[i];
        if a.time == time && IsActive(a) && (exclude.None? || a.id != exclude.value) {
          conflict := true;
        }
        i := i + 1;
      }
      if conflict {
        var j :| 0 <= j < |sameDay| && sameDay[j].time == time && IsActive(sameDay[j])
                 && (exclude.None? || sameDay[j].id != exclude.value);
        assert sameDay[j] in sameDay;
      } else {
        forall k | 0 <= k < |db.appointments| && db.appointments[k].workerId == workerId && db.appointments[k].date == date
                   && IsActive(db.appointments[k])
          ensures !(db.appointments[k].time == time && (exclude.None? || db.appointments[k].id != exclude.value))
        {
          assert db.appointments[k] in sameDay;
        }
      }
    }

    /** CreateAppointmentFromAdminAsync; None when the save throws. */
    method CreateAppointmentFromAdmin(phone: string, customerName: Option<string>, workerId: int, date: Date,
                                      time: TimeOfDay, duration: int, status: string, serviceType: Option<string>,
                                      notes: Option<string>) returns (created: Option<Appointment>)
      modifies db
      ensures AdminCreateSpec(old(db.State()), phone, customerName, workerId, date, time, duration, status, serviceType, notes)
              == Saved(db.State(), created)
    {
      var normalized := NormalizePhoneNumber(phone);
      var user := UserByPhone(db.users, normalized);
      var userId: int;
      if user.None? {
        var added := db.AddUser(normalized, NullIfBlankElseTrim(customerName));
        userId := added.value.id;
      } else {
        userId := user.value.id;
        if !IsNullOrWhiteSpace(customerName) && IsNullOrWhiteSpace(user.value.name) {
          db.SetUserName(userId, Some(Trim(customerName.value)));
        }
      }
      created := db.AddAppointment(AdminAppointment(userId, workerId, date, time, duration, status, serviceType, notes));
    }

    /** UpdateAppointmentAsync; None when the save throws. */
    method UpdateAppointment(id: int, workerId: int, date: Date, time: TimeOfDay, duration: int, status: string,
                             serviceType: Option<string>, notes: Option<string>) returns (ok: Option<bool>)
      modifies db
      ensures AdminUpdateSpec(old(db.State()), id, workerId, date, time, duration, status, serviceType, notes) == (db.State(), ok)
    {
      var found := AppointmentById(db.appointments, id);
      if found.None? {
        return Some(false);
      }
      var a := found.value.(workerId := workerId, date := date, time := time, durationMinutes := duration,
                            status := status, serviceType := NullIfBlankElseTrim(serviceType),
                            notes := NullIfBlankElseTrim(notes));
      var saved := db.SaveAppointment(a);
      ok := if saved.Some? then Some(true) else None;
    }

    /** DeleteAppointmentAsync */
    method DeleteAppointment(id: int) returns (ok: bool)
      modifies db
      ensures AdminDeleteSpec(old(db.State()), id) == (db.State(), ok)
    {
      var found := AppointmentById(db.appointments, id);
      if found.None? {
        return false;
      }
      db.RemoveAppointment(id);
      ok := true;
    }
  }
}
