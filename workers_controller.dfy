/**
 * The worker pages of the admin panel (WorkersController): the seven-day
 * schedule forms it builds for Create and Edit, how a posted form becomes the
 * schedule rows handed to the worker service, and what each action answers.
 */
module WorkersPages {
  import opened Domain
  import opened Seqs
  import opened Text
  import opened Repositories
  import opened Store
  import opened WorkerAdmin

  /** WorkerScheduleViewModel: one day of the seven-day form. */
  datatype DayForm = DayForm(
    id: int,
    dayOfWeek: int,
    dayName: string,
    isWorking: bool,
    startTime: TimeOfDay,
    endTime: TimeOfDay)

  /** WorkerViewModel: the worker's fields and its week. */
  datatype WorkerForm = WorkerForm(
    id: int,
    name: string,
    specialty: Option<string>,
    isActive: bool,
    schedules: seq<DayForm>)

  /** The day names of the form (its dayNames array), Sunday first. */
  function FormDayName(day: int): (name: string)
    requires 0 <= day < 7
    ensures name != []
  {
    match day
    case 0 => "Pazar"
    case 1 => "Pazartesi"
    case 2 => "Sal\U{131}"
    case 3 => "\U{C7}ar\U{15F}amba"
    case 4 => "Per\U{15F}embe"
    case 5 => "Cuma"
    case 6 => "Cumartesi"
  }

  /** The hours a day of the form starts with: 09:00 to 18:00. */
  const FormStart: TimeOfDay := 540
  const FormEnd: TimeOfDay := 1080

  /** The week of the Create form (GetDefaultSchedules). */
  function DefaultWeek(): (r: seq<DayForm>)
    ensures |r| == 7
    ensures forall i :: 0 <= i < 7 ==> r[i].dayOfWeek == i && r[i].dayName == FormDayName(i) && r[i].id == 0
    ensures forall i :: 0 <= i < 7 ==> (r[i].isWorking <==> 1 <= i <= 6)
    ensures forall i :: 0 <= i < 7 ==> r[i].startTime == FormStart && r[i].endTime == FormEnd
  {
    seq(7, i requires 0 <= i < 7 => DayForm(0, i, FormDayName(i), 1 <= i <= 6, FormStart, FormEnd))
  }

  /** GetDefaultSchedules: the loop over the seven days. */
  method DefaultSchedules() returns (forms: seq<DayForm>)
    ensures forms == DefaultWeek()
  {
    forms := [];
    for i := 0 to 7
      invariant |forms| == i
      invariant forall k :: 0 <= k < i ==> forms[k] == DayForm(0, k, FormDayName(k), 1 <= k <= 6, FormStart, FormEnd)
    {
      forms := forms + [DayForm(0, i, FormDayName(i), 1 <= i && i <= 6, FormStart, FormEnd)];
    }
  }

  /** The predicate of FirstOrDefault(s => s.DayOfWeek == day). */
  function DayIs(day: int): WorkerSchedule -> bool
  {
    (x: WorkerSchedule) => x.dayOfWeek == day
  }

  /**
   * One day of the Edit form: the values of the worker's first row for that
   * day, or a day off from 09:00 to 18:00 with id 0 when there is none.
   */
  function FormDay(rows: seq<WorkerSchedule>, day: int): (f: DayForm)
    requires 0 <= day < 7
    ensures f.dayOfWeek == day && f.dayName == FormDayName(day)
    ensures (forall i :: 0 <= i < |rows| ==> rows[i].dayOfWeek != day) ==>
              f == DayForm(0, day, FormDayName(day), false, FormStart, FormEnd)
    ensures forall i :: 0 <= i < |rows| && rows[i].dayOfWeek == day && (forall j :: 0 <= j < i ==> rows[j].dayOfWeek != day) ==>
              f == DayForm(rows[i].id, day, FormDayName(day), rows[i].isWorking, rows[i].startTime, rows[i].endTime)
  {
    var k := FirstIndex(rows, DayIs(day));
    if k < |rows| then
      var x := rows[k];
      assert forall i :: 0 <= i < |rows| && rows[i].dayOfWeek == day && (forall j :: 0 <= j < i ==> rows[j].dayOfWeek != day) ==> i == k;
      DayForm(x.id, day, FormDayName(day), x.isWorking, x.startTime, x.endTime)
    else
      DayForm(0, day, FormDayName(day), false, FormStart, FormEnd)
  }

  /** The week of the Edit form for a worker's rows (GetSchedulesForWorker). */
  function WeekOf(rows: seq<WorkerSchedule>): (r: seq<DayForm>)
    ensures |r| == 7
  {
    seq(7, i requires 0 <= i < 7 => FormDay(rows, i))
  }

  /** GetSchedulesForWorker: the loop over the seven days, each looking up its first row. */
  method SchedulesForWorker(rows: seq<WorkerSchedule>) returns (forms: seq<DayForm>)
    ensures forms == WeekOf(rows)
  {
    forms := [];
    for i := 0 to 7
      invariant forms == WeekOf(rows)[..i]
    {
      var existing := FirstWhere(rows, DayIs(i));
      var day := if existing.Some? then
                   DayForm(existing.value.id, i, FormDayName(i), existing.value.isWorking,
                           existing.value.startTime, existing.value.endTime)
                 else DayForm(0, i, FormDayName(i), false, FormStart, FormEnd);
      assert day == WeekOf(rows)[i];
      forms := forms + [day];
    }
  }

  /** The row a posted day becomes: IsWorking forced to true, no id and no owner yet. */
  function Posted(f: DayForm): WorkerSchedule
  {
    WorkerSchedule(0, 0, f.dayOfWeek, f.startTime, f.endTime, true)
  }

  predicate IsWorkingDay(f: DayForm)
  {
    f.isWorking
  }

  /** Schedules.Where(s => s.IsWorking).Select(...) of the Create and Edit posts. */
  function PostedRows(forms: seq<DayForm>): (rows: seq<WorkerSchedule>)
  {
    var working := Filter(forms, IsWorkingDay);
    seq(|working|, i requires 0 <= i < |working| => Posted(working[i]))
  }

  /** Only the working days are posted, each as a working row with its day and hours. */
  lemma PostedRowsMembers(forms: seq<DayForm>)
    ensures forall x :: x in PostedRows(forms) <==> exists f :: f in forms && f.isWorking && x == Posted(f)
    ensures forall x :: x in PostedRows(forms) ==> x.isWorking && x.id == 0 && x.workerId == 0
  {
    var working := Filter(forms, IsWorkingDay);
    FilterMembers(forms, IsWorkingDay);
    forall x | x in PostedRows(forms) ensures exists f :: f in forms && f.isWorking && x == Posted(f) {
      var i :| 0 <= i < |working| && PostedRows(forms)[i] == x;
      assert working[i] in working;
    }
    forall f | f in forms && f.isWorking ensures Posted(f) in PostedRows(forms) {
      assert f in working;
      var i :| 0 <= i < |working| && working[i] == f;
      assert PostedRows(forms)[i] == Posted(f);
    }
  }

  /** Posting the Create form as shown gives one 09:00-18:00 row for each day from Monday to Saturday, in that order. */
  lemma DefaultWeekPostsMondayToSaturday()
    ensures var posted := PostedRows(DefaultWeek());
            && |posted| == 6
            && (forall i :: 0 <= i < 6 ==> posted[i] == WorkerSchedule(0, 0, i + 1, FormStart, FormEnd, true))
            && !RepeatsDay(posted)
  {
    SundayOffWeekPosts(DefaultWeek());
  }

  /** The posted rows of any seven-day week in which only Sunday is off and every day runs 09:00-18:00. */
  lemma SundayOffWeekPosts(week: seq<DayForm>)
    requires |week| == 7
    requires forall i :: 0 <= i < 7 ==> week[i].dayOfWeek == i && (week[i].isWorking <==> 1 <= i <= 6)
    requires forall i :: 0 <= i < 7 ==> week[i].startTime == FormStart && week[i].endTime == FormEnd
    ensures var posted := PostedRows(week);
            && |posted| == 6
            && (forall i :: 0 <= i < 6 ==> posted[i] == WorkerSchedule(0, 0, i + 1, FormStart, FormEnd, true))
            && !RepeatsDay(posted)
  {
    FilterAllButFirst(week, IsWorkingDay);
    var posted := PostedRows(week);
    assert forall i :: 0 <= i < 6 ==> posted[i] == Posted(week[i + 1]);
  }

  /** A filter that rejects the first element and keeps all others drops exactly the first. */
  lemma FilterAllButFirst<T>(s: seq<T>, p: T -> bool)
    requires s != [] && !p(s[0])
    requires forall i :: 1 <= i < |s| ==> p(s[i])
    ensures Filter(s, p) == s[1..]
  {
    FilterAll(s[1..], p);
  }

  /** A filter that keeps every element keeps the list. */
  lemma {:induction false} FilterAll<T>(s: seq<T>, p: T -> bool)
    requires forall i :: 0 <= i < |s| ==> p(s[i])
    ensures Filter(s, p) == s
  {
    if s != [] {
      FilterAll(s[1..], p);
      assert s == [s[0]] + s[1..];
    }
  }

  /** What the Edit form posts back for a stored row when the worker's week is saved unchanged. */
  function Resubmitted(x: WorkerSchedule): WorkerSchedule
  {
    WorkerSchedule(0, 0, x.dayOfWeek, x.startTime, x.endTime, true)
  }

  /**
   * Saving the Edit form unchanged posts back exactly the worker's working
   * rows with their days and hours; the rows of its days off are not posted.
   */
  lemma EditFormRoundTrip(rows: seq<WorkerSchedule>)
    requires !RepeatsDay(rows)
    requires forall i :: 0 <= i < |rows| ==> 0 <= rows[i].dayOfWeek < 7
    ensures forall x :: x in PostedRows(WeekOf(rows)) <==> exists y :: y in rows && y.isWorking && x == Resubmitted(y)
  {
    var week := WeekOf(rows);
    PostedRowsMembers(week);
    forall x | x in PostedRows(week) ensures exists y :: y in rows && y.isWorking && x == Resubmitted(y) {
      var f :| f in week && f.isWorking && x == Posted(f);
      var d :| 0 <= d < 7 && week[d] == f;
      var k := FirstIndex(rows, DayIs(d));
      assert k < |rows| && FormDay(rows, d) == f;
      assert x == Resubmitted(rows[k]);
    }
    forall y | y in rows && y.isWorking ensures Resubmitted(y) in PostedRows(week) {
      var k :| 0 <= k < |rows| && rows[k] == y;
      var d := y.dayOfWeek;
      assert forall j :: 0 <= j < k ==> rows[j].dayOfWeek != d;
      assert week[d] == FormDay(rows, d) == DayForm(y.id, d, FormDayName(d), true, y.startTime, y.endTime);
      assert Posted(week[d]) == Resubmitted(y);
    }
  }

  /** The data annotations of WorkerViewModel: a name that is not blank, at most 100 UTF-16 units for name and specialty. */
  predicate AnnotationsHold(m: WorkerForm)
  {
    !IsBlank(m.name) && Utf16Length(m.name) <= 100 && (m.specialty.None? || Utf16Length(m.specialty.value) <= 100)
  }

  /** The worker a posted form describes; its id is set by the service. */
  function FormWorker(m: WorkerForm): Worker
  {
    Worker(0, m.name, m.specialty, m.isActive)
  }

  /** What an action answers. */
  datatype PageResult =
    | ShowForm(form: WorkerForm)
    | ShowWorker(worker: Worker, rows: seq<WorkerSchedule>)
    | RedirectToIndex
    | NotFound
    | ServerError          // the service threw: a posted week repeated a day of week

  /** Create (POST): an invalid form is shown again with the default week; a valid one creates the worker with its working days. */
  function CreatePostSpec(s: DbState, m: WorkerForm): (r: (DbState, PageResult))
    ensures r.0.users == s.users && r.0.appointments == s.appointments
    ensures r.1.ShowForm? ==> r.0 == s
  {
    if !AnnotationsHold(m) then (s, ShowForm(m.(schedules := DefaultWeek())))
    else
      var (t, _, threw) := CreateWorkerSpec(s, FormWorker(m), PostedRows(m.schedules));
      (t, if threw then ServerError else RedirectToIndex)
  }

  /**
   * A valid Create post redirects unless two working days share a day of
   * week; the new worker's rows are then exactly the posted working days.
   */
  lemma CreatePostOutcome(s: DbState, m: WorkerForm)
    requires Valid(s) && RowsOwnedByKnownIds(s)
    ensures var (t, result) := CreatePostSpec(s, m);
            && (!AnnotationsHold(m) ==> t == s && result == ShowForm(m.(schedules := DefaultWeek())))
            && (AnnotationsHold(m) ==> Valid(t) && |t.workers| == |s.workers| + 1
                                       && (result == ServerError <==> RepeatsDay(PostedRows(m.schedules))))
            && (result == RedirectToIndex ==>
                  forall x :: x in t.schedules && x.workerId == s.nextWorkerId
                              <==> x in Numbered(PostedRows(m.schedules), s.nextWorkerId, s.nextScheduleId))
  {
    if AnnotationsHold(m) {
      CreateWorkerOutcome(s, FormWorker(m), PostedRows(m.schedules));
    }
  }

  /** Edit (GET): NotFound without an id or for an unknown one, otherwise the worker's fields and its week. */
  function EditPage(s: DbState, id: Option<int>): (r: PageResult)
    ensures r.ShowForm? <==> id.Some? && WorkerById(s.workers, id.value).Some?
  {
    if id.None? then NotFound
    else match WorkerById(s.workers, id.value)
      case None => NotFound
      case Some(w) => ShowForm(WorkerForm(w.id, w.name, w.specialty, w.isActive, WeekOf(RowsOf(s.schedules, w.id))))
  }

  /** Edit (POST): a route id that differs from the form's is NotFound, as is an unknown worker. */
  function EditPostSpec(s: DbState, id: int, m: WorkerForm): (r: (DbState, PageResult))
    ensures r.0.users == s.users && r.0.appointments == s.appointments
    ensures r.1.ShowForm? || r.1.NotFound? ==> r.0 == s
  {
    if id != m.id then (s, NotFound)
    else if !AnnotationsHold(m) then (s, ShowForm(m))
    else
      var (t, ok) := UpdateWorkerSpec(s, id, FormWorker(m), PostedRows(m.schedules));
      (t, match ok
          case None => ServerError
          case Some(false) => NotFound
          case Some(true) => RedirectToIndex)
  }

  /** The outcome of an Edit post: nothing changes unless it redirects, and then the worker's rows are the posted working days. */
  lemma EditPostOutcome(s: DbState, id: int, m: WorkerForm)
    ensures var (t, result) := EditPostSpec(s, id, m);
            && (id != m.id ==> result == NotFound)
            && (result != RedirectToIndex ==> t == s)
            && (result == RedirectToIndex ==>
                  WorkerById(t.workers, id) == Some(WorkerById(s.workers, id).value.(name := m.name, specialty := m.specialty, isActive := m.isActive))
                  && forall x :: x in t.schedules && x.workerId == id <==> x in Numbered(PostedRows(m.schedules), id, s.nextScheduleId))
  {
    if id == m.id && AnnotationsHold(m) {
      UpdateWorkerOutcome(s, id, FormWorker(m), PostedRows(m.schedules));
      if UpdateWorkerSpec(s, id, FormWorker(m), PostedRows(m.schedules)).1 == Some(true) {
        UpdateWorkerReplacesRows(s, id, FormWorker(m), PostedRows(m.schedules));
      }
    }
  }

  /**
   * Saving the Edit page of a worker unchanged keeps its working days with
   * their hours, renumbered, and drops the rows of its days off.
   */
  lemma EditUnchangedKeepsWorkingDays(s: DbState, id: int)
    requires Valid(s)
    requires EditPage(s, Some(id)).ShowForm? && AnnotationsHold(EditPage(s, Some(id)).form)
    requires forall x :: x in s.schedules && x.workerId == id ==> 0 <= x.dayOfWeek < 7
    ensures var (t, result) := EditPostSpec(s, id, EditPage(s, Some(id)).form);
            && result == RedirectToIndex
            && (forall x :: x in t.schedules && x.workerId == id ==>
                  x.isWorking && exists y :: y in s.schedules && y.workerId == id && y.isWorking && SameHours(x, y))
            && (forall y :: y in s.schedules && y.workerId == id && y.isWorking ==>
                  exists x :: x in t.schedules && x.workerId == id && SameHours(x, y))
  {
    var m := EditPage(s, Some(id)).form;
    var rows := RowsOf(s.schedules, id);
    assert m.schedules == WeekOf(rows);
    var posted := PostedRows(m.schedules);
    WorkerRowsFitTheForm(s, id);
    EditFormRoundTrip(rows);
    PostedRowsDistinctDays(m.schedules);
    EditPostOutcome(s, id, m);
    UpdateWorkerOutcome(s, id, FormWorker(m), posted);
    RenumberedKeepsHours(rows, posted, id, s.nextScheduleId);
    RowsOfMembers(s.schedules, id);
  }

  /** Two rows are for the same day of week with the same hours. */
  predicate SameHours(x: WorkerSchedule, y: WorkerSchedule)
  {
    x.dayOfWeek == y.dayOfWeek && x.startTime == y.startTime && x.endTime == y.endTime
  }

  /** A stored worker's rows never repeat a day, and here every day is a day of the week. */
  lemma WorkerRowsFitTheForm(s: DbState, id: int)
    requires Valid(s)
    requires forall x :: x in s.schedules && x.workerId == id ==> 0 <= x.dayOfWeek < 7
    ensures !RepeatsDay(RowsOf(s.schedules, id))
    ensures forall i :: 0 <= i < |RowsOf(s.schedules, id)| ==> 0 <= RowsOf(s.schedules, id)[i].dayOfWeek < 7
  {
    var rows := RowsOf(s.schedules, id);
    RowsOfMembers(s.schedules, id);
    FilterKeepsScheduleDaysUnique(s.schedules, (x: WorkerSchedule) => x.workerId == id);
    assert forall i :: 0 <= i < |rows| ==> rows[i] in rows && rows[i].workerId == id;
  }

  /** Numbering resubmitted working rows keeps each one's day and hours, both ways. */
  lemma RenumberedKeepsHours(rows: seq<WorkerSchedule>, posted: seq<WorkerSchedule>, id: int, next: int)
    requires forall x :: x in posted <==> exists y :: y in rows && y.isWorking && x == Resubmitted(y)
    ensures forall x :: x in Numbered(posted, id, next) ==>
              x.isWorking && exists y :: y in rows && y.isWorking && SameHours(x, y)
    ensures forall y :: y in rows && y.isWorking ==> exists x :: x in Numbered(posted, id, next) && SameHours(x, y)
  {
    var numbered := Numbered(posted, id, next);
    forall x | x in numbered ensures x.isWorking && exists y :: y in rows && y.isWorking && SameHours(x, y) {
      var i :| 0 <= i < |numbered| && numbered[i] == x;
      assert posted[i] in posted;
      var y :| y in rows && y.isWorking && posted[i] == Resubmitted(y);
      assert SameHours(x, y);
    }
    forall y | y in rows && y.isWorking ensures exists x :: x in numbered && SameHours(x, y) {
      assert Resubmitted(y) in posted;
      var i :| 0 <= i < |posted| && posted[i] == Resubmitted(y);
      assert numbered[i] in numbered && SameHours(numbered[i], y);
    }
  }

  /** No two elements of the list share a key. */
  predicate KeysDistinct<T>(s: seq<T>, key: T -> int)
  {
    forall i, j :: 0 <= i < j < |s| ==> key(s[i]) != key(s[j])
  }

  /** Keys that are distinct in a list stay distinct in any filtered part of it. */
  lemma {:induction false} FilterKeepsKeysDistinct<T>(s: seq<T>, p: T -> bool, key: T -> int)
    requires KeysDistinct(s, key)
    ensures KeysDistinct(Filter(s, p), key)
  {
    if s != [] {
      var rest := Filter(s[1..], p);
      FilterKeepsKeysDistinct(s[1..], p, key);
      assert Filter(s, p) == (if p(s[0]) then [s[0]] else []) + rest;
      if p(s[0]) {
        forall i | 0 <= i < |rest| ensures key(rest[i]) != key(s[0]) {
          var k :| 0 <= k < |s[1..]| && s[1..][k] == rest[i];
          assert s[k + 1] == rest[i];
        }
        ConsKeysDistinct(s[0], rest, key);
      }
    }
  }

  lemma ConsKeysDistinct<T>(x: T, s: seq<T>, key: T -> int)
    requires KeysDistinct(s, key)
    requires forall i :: 0 <= i < |s| ==> key(s[i]) != key(x)
    ensures KeysDistinct([x] + s, key)
  {
    var r := [x] + s;
    forall i, j | 0 <= i < j < |r| ensures key(r[i]) != key(r[j]) {
      assert r[j] == s[j - 1];
      if i > 0 {
        assert r[i] == s[i - 1];
      }
    }
  }

  function DayKeyOf(f: DayForm): int
  {
    f.dayOfWeek
  }

  /** A week whose days are distinct posts rows whose days are distinct. */
  lemma PostedRowsDistinctDays(forms: seq<DayForm>)
    requires forall i, j :: 0 <= i < j < |forms| ==> forms[i].dayOfWeek != forms[j].dayOfWeek
    ensures !RepeatsDay(PostedRows(forms))
  {
    FilterKeepsKeysDistinct(forms, IsWorkingDay, DayKeyOf);
    var working := Filter(forms, IsWorkingDay);
    var posted := PostedRows(forms);
    assert forall i, j :: 0 <= i < j < |posted| ==> posted[i].dayOfWeek != posted[j].dayOfWeek by {
      assert forall i :: 0 <= i < |posted| ==> posted[i].dayOfWeek == working[i].dayOfWeek;
    }
  }

  class WorkersController {
    const service: WorkerService

    constructor (service: WorkerService)
      ensures this.service == service
    {
      this.service := service;
    }

    /** Index (GET): the worker list. */
    method Index(today: Date) returns (entries: seq<WorkerListEntry>)
      ensures entries == AllWorkers(service.db.State(), today)
    {
      entries := service.GetAllWorkers(today);
    }

    /** Create (GET): an empty form with the default week. */
    method Create() returns (result: PageResult)
      ensures result == ShowForm(WorkerForm(0, "", None, true, DefaultWeek()))
    {
      var week := DefaultSchedules();
      result := ShowForm(WorkerForm(0, "", None, true, week));
    }

    /** Create (POST) */
    method CreatePost(m: WorkerForm) returns (result: PageResult)
      modifies service.db
      ensures (service.db.State(), result) == CreatePostSpec(old(service.db.State()), m)
    {
      if !AnnotationsHold(m) {
        var week := DefaultSchedules();
        return ShowForm(m.(schedules := week));
      }
      var worker := FormWorker(m);
      var rows := PostedRows(m.schedules);
      var _, threw := service.CreateWorker(worker, rows);
      result := if threw then ServerError else RedirectToIndex;
    }

    /** Edit (GET) */
    method Edit(id: Option<int>) returns (result: PageResult)
      ensures result == EditPage(service.db.State(), id)
    {
      if id.None? {
        return NotFound;
      }
      var found := service.GetWorkerWithSchedules(id.value);
      if found.None? {
        return NotFound;
      }
      var (w, rows) := found.value;
      var week := SchedulesForWorker(rows);
      result := ShowForm(WorkerForm(w.id, w.name, w.specialty, w.isActive, week));
    }

    /** Edit (POST) */
    method EditPost(id: int, m: WorkerForm) returns (result: PageResult)
      modifies service.db
      ensures (service.db.State(), result) == EditPostSpec(old(service.db.State()), id, m)
    {
      if id != m.id {
        return NotFound;
      }
      if !AnnotationsHold(m) {
        return ShowForm(m);
      }
      var ok := service.UpdateWorker(id, FormWorker(m), PostedRows(m.schedules));
      result := match ok
        case None => ServerError
        case Some(false) => NotFound
        case Some(true) => RedirectToIndex;
    }

    /** Delete (GET): the worker and its rows, or NotFound. */
    method Delete(id: Option<int>) returns (result: PageResult)
      ensures id.None? || WorkerById(service.db.workers, id.value).None? ==> result == NotFound
      ensures id.Some? && WorkerById(service.db.workers, id.value).Some? ==>
                result == ShowWorker(WorkerById(service.db.workers, id.value).value, RowsOf(service.db.schedules, id.value))
    {
      if id.None? {
        return NotFound;
      }
      var found := service.GetWorkerWithSchedules(id.value);
      if found.None? {
        return NotFound;
      }
      result := ShowWorker(found.value.0, found.value.1);
    }

    /** DeleteConfirmed (POST): deletes a known worker; always back to the list. */
    method DeleteConfirmed(id: int) returns (result: PageResult)
      modifies service.db
      ensures result == RedirectToIndex
      ensures service.db.State() == DeleteSpec(old(service.db.State()), id).0
    {
      var worker := service.GetWorkerById(id);
      if worker.Some? {
        var _ := service.DeleteWorker(id);
      }
      result := RedirectToIndex;
    }

    /** ToggleActive (POST): NotFound for an unknown worker, otherwise the toggle and back to the list. */
    method ToggleActive(id: int) returns (result: PageResult)
      modifies service.db
      ensures (result == NotFound) <==> WorkerById(old(service.db.workers), id).None?
      ensures result != NotFound ==> result == RedirectToIndex
      ensures service.db.State() == ToggleSpec(old(service.db.State()), id).0
    {
      var worker := service.GetWorkerById(id);
      if worker.None? {
        return NotFound;
      }
      var _ := service.ToggleWorkerActiveStatus(id);
      result := RedirectToIndex;
    }
  }
}
