/**
 * The appointment pages of the admin panel (AppointmentsController): exact
 * yyyy-MM-dd / HH:mm parsing with fallbacks, and the order in which the Create
 * and Edit forms are validated before the service is asked to save anything.
 */
module AppointmentsPages {
  import opened Domain
  import opened Text
  import opened Dates
  import opened Repositories
  import opened Store
  import opened AppointmentAdmin

  /** TryParseDateTime: both parts must match their exact formats. */
  function TryParseDateTime(date: string, time: string): (r: Option<(Date, TimeOfDay)>)
    ensures r.Some? <==> ParseExactDate(date).Some? && ParseExactTime(time).Some?
    ensures r.Some? ==> r.value == (ParseExactDate(date).value, ParseExactTime(time).value)
  {
    match (ParseExactDate(date), ParseExactTime(time))
    case (Some(d), Some(t)) => Some((d, t))
    case _ => None
  }

  /** ParseDateOrDefault: the parsed date, or the fallback for a missing, blank or malformed value. */
  function ParseDateOrDefault(date: Option<string>, fallback: Date): (r: Date)
    ensures IsNullOrWhiteSpace(date) ==> r == fallback
    ensures !IsNullOrWhiteSpace(date) && ParseExactDate(date.value).None? ==> r == fallback
    ensures !IsNullOrWhiteSpace(date) && ParseExactDate(date.value).Some? ==> r == ParseExactDate(date.value).value
  {
    if !IsNullOrWhiteSpace(date) && ParseExactDate(date.value).Some? then ParseExactDate(date.value).value else fallback
  }

  /** ParseTimeOrDefault: the parsed time, or the fallback for a missing, blank or malformed value. */
  function ParseTimeOrDefault(time: Option<string>, fallback: TimeOfDay): (r: TimeOfDay)
    ensures IsNullOrWhiteSpace(time) ==> r == fallback
    ensures !IsNullOrWhiteSpace(time) && ParseExactTime(time.value).None? ==> r == fallback
    ensures !IsNullOrWhiteSpace(time) && ParseExactTime(time.value).Some? ==> r == ParseExactTime(time.value).value
  {
    if !IsNullOrWhiteSpace(time) && ParseExactTime(time.value).Some? then ParseExactTime(time.value).value else fallback
  }

  /** What the pages write into their links and forms, they read back unchanged. */
  lemma ParsesWhatItFormats(d: Date, t: TimeOfDay, fallbackDate: Date, fallbackTime: TimeOfDay)
    requires ValidDate(d)
    ensures TryParseDateTime(FormatDate(d), FormatTime(t)) == Some((d, t))
    ensures ParseDateOrDefault(Some(FormatDate(d)), fallbackDate) == d
    ensures ParseTimeOrDefault(Some(FormatTime(t)), fallbackTime) == t
  {
    ParseFormatDate(d);
    ParseFormatTime(t);
    var ds := FormatDate(d);
    var ts := FormatTime(t);
    assert !IsWhiteSpace(ds[4]) && !IsWhiteSpace(ts[2]);
  }

  /** The form of the Create page: the date, the time (09:00 by default) and the worker, 0 unless a positive id was given. */
  datatype CreateForm = CreateForm(date: Date, time: TimeOfDay, workerId: int)

  const DefaultFormTime: TimeOfDay := 540

  /** Create (GET) */
  function NewCreateForm(date: Option<string>, workerId: Option<int>, time: Option<string>, today: Date): (r: CreateForm)
    ensures r.workerId >= 0
    ensures r.workerId > 0 <==> workerId.Some? && workerId.value > 0
    ensures r.workerId > 0 ==> r.workerId == workerId.value
    ensures r.date == ParseDateOrDefault(date, today) && r.time == ParseTimeOrDefault(time, DefaultFormTime)
  {
    var w := if workerId.Some? then workerId.value else 0;
    CreateForm(ParseDateOrDefault(date, today), ParseTimeOrDefault(time, DefaultFormTime), if w > 0 then w else 0)
  }

  /** The posted Create form. */
  datatype CreateModel = CreateModel(
    phoneNumber: string,
    customerName: Option<string>,
    workerId: int,
    appointmentDate: string,
    appointmentTime: string,
    durationMinutes: int,
    status: string,
    serviceType: Option<string>,
    notes: Option<string>)

  /** The posted Edit form. */
  datatype EditModel = EditModel(
    id: int,
    workerId: int,
    appointmentDate: string,
    appointmentTime: string,
    durationMinutes: int,
    status: string,
    serviceType: Option<string>,
    notes: Option<string>)

  /** The reasons a form is shown again, in the order the checks run. */
  datatype FormError =
    | InvalidAnnotations   // a [Required], [Range] or [StringLength] annotation of the form failed during binding
    | InvalidDateTime
    | PhoneRequired
    | WorkerRequired
    | InvalidStatus
    | WorkerMissing
    | SlotConflict

  /** What a form post answers. */
  datatype PostResult =
    | FormShown(errors: seq<FormError>)
    | RedirectToIndex(date: Date, workerId: int)
    | NotFound
    | ServerError          // the service threw: the save broke the unique slot index or a foreign key

  /** The data annotations of the Create form; StringLength counts UTF-16 code units. */
  function CreateAnnotationsHold(m: CreateModel): (b: bool)
    ensures b ==> m.phoneNumber != [] && m.appointmentDate != [] && m.appointmentTime != [] && m.status != []
  {
    !IsBlank(m.phoneNumber) && Utf16Length(m.phoneNumber) <= 20
    && (m.customerName.None? || Utf16Length(m.customerName.value) <= 100)
    && !IsBlank(m.appointmentDate) && !IsBlank(m.appointmentTime)
    && 5 <= m.durationMinutes <= 600
    && !IsBlank(m.status) && Utf16Length(m.status) <= 20
    && (m.serviceType.None? || Utf16Length(m.serviceType.value) <= 100)
  }

  /** The data annotations of the Edit form; StringLength counts UTF-16 code units. */
  function EditAnnotationsHold(m: EditModel): (b: bool)
    ensures b ==> m.appointmentDate != [] && m.appointmentTime != [] && m.status != []
  {
    !IsBlank(m.appointmentDate) && !IsBlank(m.appointmentTime)
    && 5 <= m.durationMinutes <= 600
    && !IsBlank(m.status) && Utf16Length(m.status) <= 20
    && (m.serviceType.None? || Utf16Length(m.serviceType.value) <= 100)
  }

  /** The model-state errors of a Create post before the store is consulted. */
  function CreateErrors(m: CreateModel): (r: seq<FormError>)
    ensures r == [] <==> CreateAnnotationsHold(m) && TryParseDateTime(m.appointmentDate, m.appointmentTime).Some?
                         && !IsBlank(m.phoneNumber) && m.workerId > 0 && IsKnownStatus(m.status)
  {
    (if CreateAnnotationsHold(m) then [] else [InvalidAnnotations])
    + (if TryParseDateTime(m.appointmentDate, m.appointmentTime).Some? then [] else [InvalidDateTime])
    + (if !IsBlank(m.phoneNumber) then [] else [PhoneRequired])
    + (if m.workerId > 0 then [] else [WorkerRequired])
    + (if IsKnownStatus(m.status) then [] else [InvalidStatus])
  }

  /** The model-state errors of an Edit post before the store is consulted. */
  function EditErrors(m: EditModel): (r: seq<FormError>)
    ensures r == [] <==> EditAnnotationsHold(m) && TryParseDateTime(m.appointmentDate, m.appointmentTime).Some?
                         && IsKnownStatus(m.status)
  {
    (if EditAnnotationsHold(m) then [] else [InvalidAnnotations])
    + (if TryParseDateTime(m.appointmentDate, m.appointmentTime).Some? then [] else [InvalidDateTime])
    + (if IsKnownStatus(m.status) then [] else [InvalidStatus])
  }

  /**
   * Create (POST): the form errors; then the worker must exist (active or not);
   * then no active appointment may hold the slot; then the admin create, whose
   * insert can still throw on a cancelled row in the slot.
   */
  function CreatePostSpec(s: DbState, m: CreateModel): (r: (DbState, PostResult))
    ensures r.1.FormShown? || r.1.NotFound? ==> r.0 == s
  {
    var errors := CreateErrors(m);
    if errors != [] then (s, FormShown(errors))
    else
      var (date, time) := TryParseDateTime(m.appointmentDate, m.appointmentTime).value;
      if WorkerById(s.workers, m.workerId).None? then (s, FormShown([WorkerMissing]))
      else if HasSlotConflict(s.appointments, m.workerId, date, time, None) then (s, FormShown([SlotConflict]))
      else
        var saved := AdminCreateSpec(s, m.phoneNumber, m.customerName, m.workerId, date, time, m.durationMinutes,
                                     m.status, m.serviceType, m.notes);
        if saved.result.None? then (saved.state, ServerError)
        else (saved.state, RedirectToIndex(saved.result.value.date, saved.result.value.workerId))
  }

  /**
   * A Create post books only a valid form for an existing worker and a slot no
   * active appointment holds, and it then redirects to the booked day and
   * worker; on a valid store such a form for a slot no row occupies always books.
   */
  lemma CreatePostBooksOnlyValidForms(s: DbState, m: CreateModel)
    ensures var (s', result) := CreatePostSpec(s, m);
            var parsed := TryParseDateTime(m.appointmentDate, m.appointmentTime);
            result.RedirectToIndex? ==>
              CreateAnnotationsHold(m) && parsed.Some? && !IsBlank(m.phoneNumber) && m.workerId > 0
              && IsKnownStatus(m.status) && WorkerById(s.workers, m.workerId).Some?
              && !HasSlotConflict(s.appointments, m.workerId, parsed.value.0, parsed.value.1, None)
              && result == RedirectToIndex(parsed.value.0, m.workerId)
              && |s'.appointments| == |s.appointments| + 1
    ensures var (s', result) := CreatePostSpec(s, m);
            var parsed := TryParseDateTime(m.appointmentDate, m.appointmentTime);
            (CreateErrors(m) == [] && WorkerById(s.workers, m.workerId).Some?
             && !SlotTaken(s.appointments, m.workerId, parsed.value.0, parsed.value.1)) ==> result.RedirectToIndex?
  {
    if CreateErrors(m) == [] && WorkerById(s.workers, m.workerId).Some? {
      var (date, time) := TryParseDateTime(m.appointmentDate, m.appointmentTime).value;
      assert HasWorker(s.workers, m.workerId);
      var saved := AdminCreateSpec(s, m.phoneNumber, m.customerName, m.workerId, date, time, m.durationMinutes,
                                   m.status, m.serviceType, m.notes);
      if saved.result.Some? {
        assert !SlotTaken(s.appointments, m.workerId, date, time);
      }
    }
  }

  /** A slot whose only row is a cancelled appointment passes the form's conflict check, but the insert then breaks the unique index. */
  lemma CreateOverCancelledSlotIsServerError(s: DbState, m: CreateModel, k: int)
    requires CreateErrors(m) == [] && WorkerById(s.workers, m.workerId).Some?
    requires 0 <= k < |s.appointments| && s.appointments[k].status == Cancelled
    requires var parsed := TryParseDateTime(m.appointmentDate, m.appointmentTime).value;
             s.appointments[k].workerId == m.workerId && s.appointments[k].date == parsed.0
             && s.appointments[k].time == parsed.1
    requires forall i :: 0 <= i < |s.appointments| && i != k ==> !SameSlot(s.appointments[i], s.appointments[k])
    ensures CreatePostSpec(s, m).1 == ServerError
  {
    var (date, time) := TryParseDateTime(m.appointmentDate, m.appointmentTime).value;
    assert !HasSlotConflict(s.appointments, m.workerId, date, time, None);
    assert SlotTaken(s.appointments, m.workerId, date, time);
  }

  /**
   * Edit (POST): the form errors; then no other active appointment may hold
   * the slot; then the update, which reports an unknown id as NotFound and
   * throws (ServerError) when the slot or the worker key breaks; the redirect
   * reads the saved appointment back. Unlike Create, Edit does not check that
   * the worker exists.
   */
  function EditPostSpec(s: DbState, m: EditModel): (r: (DbState, PostResult))
    ensures r.1.FormShown? || r.1.NotFound? ==> r.0 == s
  {
    var errors := EditErrors(m);
    if errors != [] then (s, FormShown(errors))
    else
      var (date, time) := TryParseDateTime(m.appointmentDate, m.appointmentTime).value;
      if HasSlotConflict(s.appointments, m.workerId, date, time, Some(m.id)) then (s, FormShown([SlotConflict]))
      else
        var (s', ok) := AdminUpdateSpec(s, m.id, m.workerId, date, time, m.durationMinutes, m.status,
                                        m.serviceType, m.notes);
        if ok.None? then (s', ServerError)
        else if !ok.value then (s', NotFound)
        else
          match AppointmentById(s'.appointments, m.id)
          case None => (s', ServerError)
          case Some(a) => (s', RedirectToIndex(a.date, a.workerId))
  }

  /** The row ReplaceById wrote is the first row with its id. */
  lemma FirstWithIdAfterReplace(appts: seq<Appointment>, a: Appointment)
    requires exists i :: 0 <= i < |appts| && appts[i].id == a.id
    ensures AppointmentById(ReplaceById(appts, a), a.id) == Some(a)
  {
    var r := ReplaceById(appts, a);
    var k :| 0 <= k < |appts| && appts[k].id == a.id;
    assert r[k] == a;
  }

  /**
   * An Edit post changes the store only after a valid form and a clear slot;
   * an unknown id is NotFound; a successful save redirects to the new date and
   * worker. Moving an appointment of a valid store to a free slot, or keeping
   * its slot, succeeds.
   */
  lemma EditPostOutcome(s: DbState, m: EditModel)
    ensures var (s', result) := EditPostSpec(s, m);
            var parsed := TryParseDateTime(m.appointmentDate, m.appointmentTime);
            (s' != s ==> EditErrors(m) == []
                         && !HasSlotConflict(s.appointments, m.workerId, parsed.value.0, parsed.value.1, Some(m.id)))
            && (EditErrors(m) == [] && AppointmentById(s.appointments, m.id).None?
                && !HasSlotConflict(s.appointments, m.workerId, parsed.value.0, parsed.value.1, Some(m.id))
                ==> result == NotFound)
            && (result.RedirectToIndex? ==> result == RedirectToIndex(parsed.value.0, m.workerId))
  {
    var parsed := TryParseDateTime(m.appointmentDate, m.appointmentTime);
    if EditErrors(m) == [] && !HasSlotConflict(s.appointments, m.workerId, parsed.value.0, parsed.value.1, Some(m.id)) {
      var (date, time) := parsed.value;
      var (s', ok) := AdminUpdateSpec(s, m.id, m.workerId, date, time, m.durationMinutes, m.status, m.serviceType, m.notes);
      if ok == Some(true) {
        var old_ := AppointmentById(s.appointments, m.id).value;
        var new_ := old_.(workerId := m.workerId, date := date, time := time, durationMinutes := m.durationMinutes,
                          status := m.status, serviceType := NullIfBlankElseTrim(m.serviceType),
                          notes := NullIfBlankElseTrim(m.notes));
        var k :| 0 <= k < |s.appointments| && s.appointments[k] == old_;
        FirstWithIdAfterReplace(s.appointments, new_);
      }
    }
  }

  /**
   * Edit has no worker check: on a valid store, a valid form that moves an
   * existing appointment to a worker id with no row passes the conflict check
   * (no appointment can belong to that worker), and the save then breaks the
   * worker foreign key.
   */
  lemma EditToMissingWorkerIsServerError(s: DbState, m: EditModel)
    requires Valid(s) && EditErrors(m) == [] && AppointmentById(s.appointments, m.id).Some?
    requires !HasWorker(s.workers, m.workerId)
    ensures EditPostSpec(s, m) == (s, ServerError)
  {
    var (date, time) := TryParseDateTime(m.appointmentDate, m.appointmentTime).value;
    forall i | 0 <= i < |s.appointments| ensures s.appointments[i].workerId != m.workerId {
      assert s.appointments[i] in s.appointments;
    }
    assert !HasSlotConflict(s.appointments, m.workerId, date, time, Some(m.id));
  }

  /**
   * A slot whose other row is a cancelled appointment passes the Edit form's
   * conflict check, but moving an appointment there breaks the unique index.
   */
  lemma EditOverCancelledSlotIsServerError(s: DbState, m: EditModel, k: int)
    requires Valid(s) && EditErrors(m) == [] && AppointmentById(s.appointments, m.id).Some?
    requires HasWorker(s.workers, m.workerId)
    requires 0 <= k < |s.appointments| && s.appointments[k].status == Cancelled && s.appointments[k].id != m.id
    requires var parsed := TryParseDateTime(m.appointmentDate, m.appointmentTime).value;
             s.appointments[k].workerId == m.workerId && s.appointments[k].date == parsed.0
             && s.appointments[k].time == parsed.1
    ensures EditPostSpec(s, m) == (s, ServerError)
  {
    var (date, time) := TryParseDateTime(m.appointmentDate, m.appointmentTime).value;
    forall i | 0 <= i < |s.appointments| && i != k ensures !SameSlot(s.appointments[i], s.appointments[k]) {
      if i < k {
        assert !SameSlot(s.appointments[i], s.appointments[k]);
      } else {
        assert !SameSlot(s.appointments[k], s.appointments[i]);
      }
    }
    assert !HasSlotConflict(s.appointments, m.workerId, date, time, Some(m.id));
  }

  class AppointmentsController {
    const service: AppointmentService

    constructor (service: AppointmentService)
      ensures this.service == service
    {
      this.service := service;
    }

    /** Index (GET): the day given in the query, or today. */
    method Index(date: Option<string>, workerId: Option<int>, status: Option<string>, search: Option<string>, today: Date)
      returns (page: IndexPage)
      ensures page == IndexPageOf(service.db.State(), ParseDateOrDefault(date, today), workerId, status, search)
    {
      var selected := ParseDateOrDefault(date, today);
      page := service.GetAppointmentsForIndex(selected, workerId, status, search);
    }

    /** Create (POST), adding one model-state error per failed check in turn. */
    method CreatePost(m: CreateModel) returns (result: PostResult)
      modifies service.db
      ensures (service.db.State(), result) == CreatePostSpec(old(service.db.State()), m)
    {
      var errors: seq<FormError> := if CreateAnnotationsHold(m) then [] else [InvalidAnnotations];
      var parsed := TryParseDateTime(m.appointmentDate, m.appointmentTime);
      if parsed.None? {
        errors := errors + [InvalidDateTime];
      }
      if IsBlank(m.phoneNumber) {
        errors := errors + [PhoneRequired];
      }
      if m.workerId <= 0 {
        errors := errors + [WorkerRequired];
      }
      if !IsKnownStatus(m.status) {
        errors := errors + [InvalidStatus];
      }
      assert errors == CreateErrors(m);
      if errors != [] {
        return FormShown(errors);
      }
      var (date, time) := parsed.value;
      var worker := WorkerById(service.db.workers, m.workerId);
      if worker.None? {
        return FormShown([WorkerMissing]);
      }
      var conflict := service.HasSlotConflictAsync(m.workerId, date, time, None);
      if conflict {
        return FormShown([SlotConflict]);
      }
      var created := service.CreateAppointmentFromAdmin(m.phoneNumber, m.customerName, m.workerId, date, time,
                                                        m.durationMinutes, m.status, m.serviceType, m.notes);
      if created.None? {
        return ServerError;
      }
      result := RedirectToIndex(created.value.date, created.value.workerId);
    }

    /** Edit (POST) */
    method EditPost(m: EditModel) returns (result: PostResult)
      modifies service.db
      ensures (service.db.State(), result) == EditPostSpec(old(service.db.State()), m)
    {
      var errors: seq<FormError> := if EditAnnotationsHold(m) then [] else [InvalidAnnotations];
      var parsed := TryParseDateTime(m.appointmentDate, m.appointmentTime);
      if parsed.None? {
        errors := errors + [InvalidDateTime];
      }
      if !IsKnownStatus(m.status) {
        errors := errors + [InvalidStatus];
      }
      assert errors == EditErrors(m);
      if errors != [] {
        return FormShown(errors);
      }
      var (date, time) := parsed.value;
      var conflict := service.HasSlotConflictAsync(m.workerId, date, time, Some(m.id));
      if conflict {
        return FormShown([SlotConflict]);
      }
      var ok := service.UpdateAppointment(m.id, m.workerId, date, time, m.durationMinutes, m.status,
                                          m.serviceType, m.notes);
      if ok.None? {
        return ServerError;
      }
      if !ok.value {
        return NotFound;
      }
      var saved := AppointmentById(service.db.appointments, m.id);
      if saved.None? {
        return ServerError;
      }
      result := RedirectToIndex(saved.value.date, saved.value.workerId);
    }

    /** DeleteConfirmed (POST): NotFound for an unknown id, otherwise the delete and a redirect to the appointment's day and worker. */
    method DeleteConfirmed(id: int) returns (result: PostResult)
      modifies service.db
      ensures AppointmentById(old(service.db.appointments), id).None? ==>
                result == NotFound && service.db.State() == old(service.db.State())
      ensures AppointmentById(old(service.db.appointments), id).Some? ==>
                var a := AppointmentById(old(service.db.appointments), id).value;
                result == RedirectToIndex(a.date, a.workerId)
                && service.db.State() == AdminDeleteSpec(old(service.db.State()), id).0
    {
      var found := AppointmentById(service.db.appointments, id);
      if found.None? {
        return NotFound;
      }
      var _ := service.DeleteAppointment(id);
      result := RedirectToIndex(found.value.date, found.value.workerId);
    }
  }
}
