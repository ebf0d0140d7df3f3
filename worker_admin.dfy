/**
 * The worker administration service (WorkerService): the worker list with its
 * appointment counts and working days, creating and updating a worker together
 * with its weekly schedule rows, the active toggle and deletion.
 */
module WorkerAdmin {
  import opened Domain
  import opened Seqs
  import opened Repositories
  import opened Store

  /** GetShortDayName: the Turkish three-letter name of a day of week, "" for any other number. */
  function ShortDayName(day: int): (name: string)
    ensures 0 <= day < 7 <==> |name| == 3
  {
    match day
    case 0 => "Paz"
    case 1 => "Pzt"
    case 2 => "Sal"
    case 3 => "\U{C7}ar"
    case 4 => "Per"
    case 5 => "Cum"
    case 6 => "Cmt"
    case _ => ""
  }

  /** Distinct days of the week get distinct names. */
  lemma ShortDayNamesDistinct(a: int, b: int)
    requires 0 <= a < 7 && 0 <= b < 7 && a != b
    ensures ShortDayName(a) != ShortDayName(b)
  {
    var x, y := ShortDayName(a), ShortDayName(b);
    assert x[0] != y[0] || x[1] != y[1] || x[2] != y[2];
  }

  /** string.Join(separator, parts) */
  function Join(separator: string, parts: seq<string>): (s: string)
    ensures parts == [] ==> s == ""
    ensures parts != [] ==> |s| == Lengths(parts) + |separator| * (|parts| - 1)
  {
    if parts == [] then ""
    else if |parts| == 1 then parts[0]
    else parts[0] + separator + Join(separator, parts[1..])
  }

  /** The summed lengths of the parts. */
  function Lengths(parts: seq<string>): nat
  {
    if parts == [] then 0 else |parts[0]| + Lengths(parts[1..])
  }

  /** Ascending day keys are ascending days of the week. */
  lemma DayKeyOrder(rows: seq<WorkerSchedule>)
    requires SortedBy(rows, DayKey)
    ensures forall i, j :: 0 <= i < j < |rows| ==> rows[i].dayOfWeek <= rows[j].dayOfWeek
  {
    forall i, j | 0 <= i < j < |rows| ensures rows[i].dayOfWeek <= rows[j].dayOfWeek {
      assert LexLe(DayKey(rows[i]), DayKey(rows[j]));
    }
  }

  /** Where(IsWorking).OrderBy(DayOfWeek) over a worker's rows. */
  function WorkingRows(rows: seq<WorkerSchedule>): (r: seq<WorkerSchedule>)
    ensures forall x :: x in r <==> x in rows && x.isWorking
    ensures forall i, j :: 0 <= i < j < |r| ==> r[i].dayOfWeek <= r[j].dayOfWeek
  {
    var p := (x: WorkerSchedule) => x.isWorking;
    var f := Filter(rows, p);
    FilterMembers(rows, p);
    SortByMembers(f, DayKey);
    var r := SortBy(f, DayKey);
    DayKeyOrder(r);
    r
  }

  /** Select(GetShortDayName(DayOfWeek)) */
  function DayNames(rows: seq<WorkerSchedule>): (names: seq<string>)
    ensures |names| == |rows|
    ensures forall i :: 0 <= i < |rows| ==> names[i] == ShortDayName(rows[i].dayOfWeek)
  {
    seq(|rows|, i requires 0 <= i < |rows| => ShortDayName(rows[i].dayOfWeek))
  }

  /** The WorkingDays column: the short names of the working days, in week order, joined by ", ". */
  function WorkingDays(rows: seq<WorkerSchedule>): (r: string)
    ensures WorkingRows(rows) == [] ==> r == []
  {
    Join(", ", DayNames(WorkingRows(rows)))
  }

  /** Each working day of a real week contributes its three letters and a separator: 5k - 2 characters for k days. */
  lemma {:induction false} WorkingDaysLength(rows: seq<WorkerSchedule>)
    requires forall i :: 0 <= i < |rows| ==> 0 <= rows[i].dayOfWeek < 7
    ensures var k := |WorkingRows(rows)|;
            |WorkingDays(rows)| == if k == 0 then 0 else 5 * k - 2
  {
    var working := WorkingRows(rows);
    var names := DayNames(working);
    forall i | 0 <= i < |names| ensures |names[i]| == 3 {
      assert working[i] in rows;
    }
    ThreeLetterLengths(names);
  }

  lemma {:induction false} ThreeLetterLengths(names: seq<string>)
    requires forall i :: 0 <= i < |names| ==> |names[i]| == 3
    ensures Lengths(names) == 3 * |names|
  {
    if names != [] {
      ThreeLetterLengths(names[1..]);
    }
  }

  /** One row of the worker list page (WorkerListViewModel). */
  datatype WorkerListEntry = WorkerListEntry(
    id: int,
    name: string,
    specialty: Option<string>,
    isActive: bool,
    totalAppointments: nat,
    todayAppointments: nat,
    workingDays: string)

  /**
   * The worker's own schedule rows, in table order (the Include(w => w.Schedules)
   * navigation). The list page reads them through GetByWorkerIdAsync, already by
   * day of week; WorkingRows orders them again, and the day names depend on
   * the days alone, so the order they start in does not show.
   */
  function RowsOf(schedules: seq<WorkerSchedule>, workerId: int): seq<WorkerSchedule>
  {
    Filter(schedules, (x: WorkerSchedule) => x.workerId == workerId)
  }

  lemma RowsOfMembers(schedules: seq<WorkerSchedule>, workerId: int)
    ensures forall x :: x in RowsOf(schedules, workerId) <==> x in schedules && x.workerId == workerId
  {
    FilterMembers(schedules, (x: WorkerSchedule) => x.workerId == workerId);
  }

  /** Appointments.FindAsync(a => a.WorkerId == id) */
  function OfWorker(appts: seq<Appointment>, workerId: int): seq<Appointment>
  {
    Filter(appts, (a: Appointment) => a.workerId == workerId)
  }

  predicate NotCancelled(a: Appointment)
  {
    a.status != Cancelled
  }

  predicate TodayNotCancelled(today: Date, a: Appointment)
  {
    a.date == today && a.status != Cancelled
  }

  /** TotalAppointments: the worker's appointments that are not cancelled; 0 exactly when all of them are cancelled. */
  function TotalCount(appts: seq<Appointment>): (n: nat)
    ensures n <= |appts|
    ensures n == 0 <==> forall i :: 0 <= i < |appts| ==> appts[i].status == Cancelled
  {
    Count(appts, NotCancelled)
  }

  /** TodayAppointments: those of them dated today, never more than the total. */
  function TodayCount(appts: seq<Appointment>, today: Date): (n: nat)
    ensures n <= TotalCount(appts)
  {
    CountImplies(appts, a => TodayNotCancelled(today, a), NotCancelled);
    Count(appts, a => TodayNotCancelled(today, a))
  }

  /** The list entry of one worker: its non-cancelled appointments, those of today, and its working days. */
  function ListEntry(s: DbState, w: Worker, today: Date): (e: WorkerListEntry)
    ensures e.id == w.id && e.name == w.name && e.specialty == w.specialty && e.isActive == w.isActive
    ensures e.todayAppointments <= e.totalAppointments
  {
    var appts := OfWorker(s.appointments, w.id);
    WorkerListEntry(w.id, w.name, w.specialty, w.isActive, TotalCount(appts), TodayCount(appts, today),
                    WorkingDays(RowsOf(s.schedules, w.id)))
  }

  /** The workers in the order of the list page: OrderBy(Name). */
  function WorkersByName(workers: seq<Worker>): (r: seq<Worker>)
    ensures multiset(r) == multiset(workers)
    ensures SortedBy(r, NameKey)
  {
    SortBy(workers, NameKey)
  }

  /** GetAllWorkersAsync: one entry per worker, by name. */
  function AllWorkers(s: DbState, today: Date): (r: seq<WorkerListEntry>)
    ensures |r| == |s.workers|
  {
    var sorted := WorkersByName(s.workers);
    seq(|sorted|, i requires 0 <= i < |sorted| => ListEntry(s, sorted[i], today))
  }

  /** Every worker, active or not, gets an entry, and every entry is some worker's. */
  lemma AllWorkersListEveryWorker(s: DbState, today: Date, w: Worker)
    ensures var r := AllWorkers(s, today);
            w in s.workers <==> exists i :: 0 <= i < |r| && r[i] == ListEntry(s, w, today)
  {
    var sorted := WorkersByName(s.workers);
    var r := AllWorkers(s, today);
    assert w in s.workers <==> w in multiset(sorted);
    if w in s.workers {
      var i :| 0 <= i < |sorted| && sorted[i] == w;
      assert r[i] == ListEntry(s, w, today);
    }
    if exists i :: 0 <= i < |r| && r[i] == ListEntry(s, w, today) {
      var i :| 0 <= i < |r| && r[i] == ListEntry(s, w, today);
      assert r[i] == ListEntry(s, sorted[i], today);
      assert sorted[i] == w by {
        assert ListEntry(s, sorted[i], today).id == sorted[i].id;
      }
      assert w in multiset(sorted);
    }
  }

  /** The entries come in ordinal name order. */
  lemma AllWorkersByName(s: DbState, today: Date)
    ensures var r := AllWorkers(s, today);
            forall i, j :: 0 <= i < j < |r| ==> LexLe(StringKey(r[i].name), StringKey(r[j].name))
  {
    var sorted := WorkersByName(s.workers);
    var r := AllWorkers(s, today);
    forall i, j | 0 <= i < j < |r| ensures LexLe(StringKey(r[i].name), StringKey(r[j].name)) {
      assert r[i].name == sorted[i].name && r[j].name == sorted[j].name;
      assert LexLe(NameKey(sorted[i]), NameKey(sorted[j]));
    }
  }


  /** The supplied rows, each with WorkerId set to the worker's id. */
  function Owned(rows: seq<WorkerSchedule>, workerId: int): (r: seq<WorkerSchedule>)
    ensures |r| == |rows|
    ensures forall i :: 0 <= i < |r| ==> r[i] == rows[i].(workerId := workerId)
  {
    seq(|rows|, i requires 0 <= i < |rows| => rows[i].(workerId := workerId))
  }

  /** Setting the owner first changes nothing the save would not set itself, and no day of week. */
  lemma OwnedNumbered(rows: seq<WorkerSchedule>, workerId: int, next: int)
    ensures Numbered(Owned(rows, workerId), workerId, next) == Numbered(rows, workerId, next)
    ensures RepeatsDay(Owned(rows, workerId)) <==> RepeatsDay(rows)
  {
    var o := Owned(rows, workerId);
    if RepeatsDay(rows) {
      var i, j :| 0 <= i < j < |rows| && rows[i].dayOfWeek == rows[j].dayOfWeek;
      assert o[i].dayOfWeek == o[j].dayOfWeek;
    }
    if RepeatsDay(o) {
      var i, j :| 0 <= i < j < |o| && o[i].dayOfWeek == o[j].dayOfWeek;
      assert rows[i].dayOfWeek == rows[j].dayOfWeek;
    }
  }

  /**
   * CreateWorkerAsync: the worker is saved first and gets the next id; the
   * rows, owned by it, are saved by a second SaveChanges. The third component
   * is true when that second save throws, which leaves the worker saved.
   */
  function CreateWorkerSpec(s: DbState, w: Worker, rows: seq<WorkerSchedule>): (r: (DbState, Worker, bool))
    ensures r.1.id == s.nextWorkerId && r.1.name == w.name && r.1.isActive == w.isActive
    ensures r.0.users == s.users && r.0.appointments == s.appointments && r.0.configs == s.configs
  {
    var ins := InsertWorker(s, w);
    var worker := ins.result.value;
    var added := InsertSchedules(ins.state, worker.id, Owned(rows, worker.id));
    (added.state, worker, added.result.None?)
  }

  /** No schedule row points at a worker id that was never handed out (the worker foreign key). */
  predicate RowsOwnedByKnownIds(s: DbState)
  {
    forall i :: 0 <= i < |s.schedules| ==> s.schedules[i].workerId < s.nextWorkerId
  }

  /**
   * A created worker gets the next id and can be found by it; its rows are
   * exactly the supplied ones, numbered and owned by it, unless two of them
   * share a day, in which case only the worker is saved.
   */
  lemma CreateWorkerOutcome(s: DbState, w: Worker, rows: seq<WorkerSchedule>)
    requires Valid(s) && RowsOwnedByKnownIds(s)
    ensures var (t, worker, threw) := CreateWorkerSpec(s, w, rows);
            && worker == w.(id := s.nextWorkerId)
            && WorkerById(t.workers, worker.id) == Some(worker)
            && Valid(t)
            && (threw <==> RepeatsDay(rows))
            && (threw ==> t.schedules == s.schedules)
            && (!threw ==> forall x :: x in t.schedules && x.workerId == worker.id
                                       <==> x in Numbered(rows, worker.id, s.nextScheduleId))
  {
    var ins := InsertWorker(s, w);
    var worker := ins.result.value;
    var s1 := ins.state;
    InsertWorkerValid(s, w);
    var owned := Owned(rows, worker.id);
    OwnedNumbered(rows, worker.id, s1.nextScheduleId);
    InsertSchedulesValid(s1, worker.id, owned);
    assert !HasDayOf(s1.schedules, worker.id, owned);
    var k := |s.workers|;
    assert s1.workers[k] == worker;
    FirstWhereUnique(s1.workers, (x: Worker) => x.id == worker.id, k);
    var added := InsertSchedules(s1, worker.id, owned);
    if added.result.Some? {
      forall x ensures x in added.state.schedules && x.workerId == worker.id
                       <==> x in Numbered(rows, worker.id, s.nextScheduleId)
      {
        if x in s.schedules {
          assert x.workerId < s.nextWorkerId;
        }
      }
    }
  }

  /**
   * UpdateWorkerAsync: false for an unknown id. Otherwise Name, Specialty and
   * IsActive are copied and the worker's rows are replaced by the supplied
   * ones, all in one SaveChanges; None when that save throws, and then
   * nothing is committed.
   */
  function UpdateWorkerSpec(s: DbState, id: int, w: Worker, rows: seq<WorkerSchedule>): (r: (DbState, Option<bool>))
    ensures r.0.users == s.users && r.0.appointments == s.appointments && r.0.configs == s.configs
    ensures |r.0.workers| == |s.workers|
  {
    match WorkerById(s.workers, id)
    case None => (s, Some(false))
    case Some(existing) =>
      var replaced := ReplaceSchedules(s, id, Owned(rows, id));
      if replaced.result.None? then (s, None)
      else (ReplaceWorker(replaced.state, existing.(name := w.name, specialty := w.specialty, isActive := w.isActive)),
            Some(true))
  }

  /** The outcome of an update, case by case. */
  lemma UpdateWorkerOutcome(s: DbState, id: int, w: Worker, rows: seq<WorkerSchedule>)
    ensures var (t, ok) := UpdateWorkerSpec(s, id, w, rows);
            && (ok == Some(false) <==> WorkerById(s.workers, id).None?)
            && (ok != Some(true) ==> t == s)
            && (WorkerById(s.workers, id).Some? ==> (ok.None? <==> RepeatsDay(rows)))
  {
    if WorkerById(s.workers, id).Some? {
      OwnedNumbered(rows, id, s.nextScheduleId);
    }
  }

  /** After a successful update the worker has the new fields and exactly the supplied rows; other workers keep theirs. */
  lemma UpdateWorkerReplacesRows(s: DbState, id: int, w: Worker, rows: seq<WorkerSchedule>)
    requires UpdateWorkerSpec(s, id, w, rows).1 == Some(true)
    ensures var t := UpdateWorkerSpec(s, id, w, rows).0;
            var existing := WorkerById(s.workers, id).value;
            && WorkerById(t.workers, id) == Some(existing.(name := w.name, specialty := w.specialty, isActive := w.isActive))
            && (forall x :: x in t.schedules && x.workerId == id <==> x in Numbered(rows, id, s.nextScheduleId))
            && (forall x: WorkerSchedule :: x.workerId != id ==> (x in t.schedules <==> x in s.schedules))
            && t.appointments == s.appointments && t.users == s.users
  {
    var existing := WorkerById(s.workers, id).value;
    var updated := existing.(name := w.name, specialty := w.specialty, isActive := w.isActive);
    OwnedNumbered(rows, id, s.nextScheduleId);
    var replaced := ReplaceSchedules(s, id, Owned(rows, id));
    var t := ReplaceWorker(replaced.state, updated);
    var k := FirstIndex(s.workers, (x: Worker) => x.id == id);
    assert t.workers[k] == updated;
    assert forall j :: 0 <= j < k ==> t.workers[j].id != id;
  }

  lemma UpdateWorkerKeepsValid(s: DbState, id: int, w: Worker, rows: seq<WorkerSchedule>)
    requires Valid(s)
    ensures Valid(UpdateWorkerSpec(s, id, w, rows).0)
  {
    if WorkerById(s.workers, id).Some? {
      var existing := WorkerById(s.workers, id).value;
      ReplaceSchedulesValid(s, id, Owned(rows, id));
      var replaced := ReplaceSchedules(s, id, Owned(rows, id));
      ReplaceWorkerValid(replaced.state, existing.(name := w.name, specialty := w.specialty, isActive := w.isActive));
    }
  }

  /** ToggleWorkerActiveStatusAsync: IsActive negated; false for an unknown id. */
  function ToggleSpec(s: DbState, id: int): (r: (DbState, bool))
    ensures r.0.users == s.users && r.0.appointments == s.appointments && r.0.schedules == s.schedules
    ensures |r.0.workers| == |s.workers|
  {
    match WorkerById(s.workers, id)
    case None => (s, false)
    case Some(w) => (ReplaceWorker(s, w.(isActive := !w.isActive)), true)
  }

  /** Toggling flips IsActive of that worker alone; an unknown id changes nothing. */
  lemma ToggleFlips(s: DbState, id: int)
    requires Valid(s)
    ensures var (t, ok) := ToggleSpec(s, id);
            && (ok <==> WorkerById(s.workers, id).Some?)
            && (!ok ==> t == s)
            && (ok ==> WorkerById(t.workers, id) == Some(WorkerById(s.workers, id).value.(isActive := !WorkerById(s.workers, id).value.isActive)))
            && |t.workers| == |s.workers|
            && (forall i :: 0 <= i < |s.workers| && s.workers[i].id != id ==> t.workers[i] == s.workers[i])
  {
    if WorkerById(s.workers, id).Some? {
      var w := WorkerById(s.workers, id).value;
      var k :| 0 <= k < |s.workers| && s.workers[k] == w;
      var t := ToggleSpec(s, id).0;
      assert t.workers[k] == w.(isActive := !w.isActive);
      FirstWhereUnique(t.workers, (x: Worker) => x.id == id, k);
    }
  }

  /** Two toggles restore the original state. */
  lemma ToggleTwiceRestores(s: DbState, id: int)
    requires Valid(s)
    ensures ToggleSpec(ToggleSpec(s, id).0, id).0 == s
  {
    ToggleFlips(s, id);
    var (t, ok) := ToggleSpec(s, id);
    if ok {
      var w := WorkerById(s.workers, id).value;
      var u := ToggleSpec(t, id).0;
      assert u == ReplaceWorker(t, w);
      assert u.workers == s.workers;
    }
  }

  /** DeleteWorkerAsync: false for an unknown id; otherwise the worker, its rows and its appointments go. */
  function DeleteSpec(s: DbState, id: int): (r: (DbState, bool))
    ensures r.0.users == s.users && r.0.configs == s.configs && r.0.services == s.services
    ensures |r.0.workers| <= |s.workers|
  {
    match WorkerById(s.workers, id)
    case None => (s, false)
    case Some(_) => (DeleteWorker(s, id), true)
  }

  lemma DeleteOutcome(s: DbState, id: int)
    ensures var (t, ok) := DeleteSpec(s, id);
            && (ok <==> WorkerById(s.workers, id).Some?)
            && (!ok ==> t == s)
            && (ok ==> WorkerById(t.workers, id).None?
                       && (forall x :: x in t.schedules ==> x.workerId != id)
                       && (forall a :: a in t.appointments ==> a.workerId != id)
                       && (forall v :: v in s.workers && v.id != id ==> v in t.workers))
  {
    var (t, ok) := DeleteSpec(s, id);
    if ok {
      forall i | 0 <= i < |t.workers| ensures t.workers[i].id != id {
        assert t.workers[i] in t.workers;
      }
    }
  }

  class WorkerService {
    const db: Database

    constructor (db: Database)
      ensures this.db == db
    {
      this.db := db;
    }

    /** GetAllWorkersAsync: the foreach over the workers by name, one entry each. */
    method GetAllWorkers(today: Date) returns (entries: seq<WorkerListEntry>)
      ensures entries == AllWorkers(db.State(), today)
    {
      var s := db.State();
      var sorted := WorkersByName(db.workers);
      ghost var all := AllWorkers(s, today);
      entries := [];
      for i := 0 to |sorted|
        invariant entries == all[..i]
      {
        var entry := ListEntry(s, sorted[i], today);
        assert all[i] == entry;
        entries := entries + [entry];
      }
    }

    /** GetActiveWorkersAsync */
    method GetActiveWorkers() returns (workers: seq<Worker>)
      ensures forall w :: w in workers <==> w in db.workers && w.isActive
      ensures SortedBy(workers, NameKey)
    {
      workers := ActiveWorkers(db.workers);
    }

    /** GetWorkerByIdAsync */
    method GetWorkerById(id: int) returns (worker: Option<Worker>)
      ensures worker.Some? ==> worker.value in db.workers && worker.value.id == id
      ensures worker.None? <==> forall i :: 0 <= i < |db.workers| ==> db.workers[i].id != id
    {
      worker := WorkerById(db.workers, id);
    }

    /** GetWorkerWithSchedulesAsync: the worker and its rows, or None. */
    method GetWorkerWithSchedules(id: int) returns (found: Option<(Worker, seq<WorkerSchedule>)>)
      ensures found.None? <==> WorkerById(db.workers, id).None?
      ensures found.Some? ==> found.value.0 == WorkerById(db.workers, id).value
                              && found.value.1 == RowsOf(db.schedules, id)
                              && forall x :: x in found.value.1 <==> x in db.schedules && x.workerId == id
    {
      var worker := WorkerById(db.workers, id);
      if worker.None? {
        return None;
      }
      RowsOfMembers(db.schedules, id);
      found := Some((worker.value, RowsOf(db.schedules, id)));
    }

    /** The foreach that sets WorkerId on every supplied row. */
    method AssignWorker(rows: seq<WorkerSchedule>, workerId: int) returns (owned: seq<WorkerSchedule>)
      ensures owned == Owned(rows, workerId)
    {
      owned := [];
      for i := 0 to |rows|
        invariant |owned| == i
        invariant forall k :: 0 <= k < i ==> owned[k] == rows[k].(workerId := workerId)
      {
        owned := owned + [rows[i].(workerId := workerId)];
      }
    }

    /** CreateWorkerAsync; threw is true when the second save throws. */
    method CreateWorker(w: Worker, rows: seq<WorkerSchedule>) returns (worker: Worker, threw: bool)
      modifies db
      ensures (db.State(), worker, threw) == CreateWorkerSpec(old(db.State()), w, rows)
    {
      worker := db.AddWorker(w);
      var owned := AssignWorker(rows, worker.id);
      var saved := db.AddSchedules(worker.id, owned);
      threw := saved.None?;
    }

    /** UpdateWorkerAsync; None when the save throws. */
    method UpdateWorker(id: int, w: Worker, rows: seq<WorkerSchedule>) returns (ok: Option<bool>)
      modifies db
      ensures (db.State(), ok) == UpdateWorkerSpec(old(db.State()), id, w, rows)
    {
      var existing := WorkerById(db.workers, id);
      if existing.None? {
        return Some(false);
      }
      var owned := AssignWorker(rows, id);
      // One SaveChanges commits the row replacement and the field copy together, or neither.
      var saved := db.SetSchedules(id, owned);
      if saved.None? {
        return None;
      }
      db.SaveWorker(existing.value.(name := w.name, specialty := w.specialty, isActive := w.isActive));
      ok := Some(true);
    }

    /** ToggleWorkerActiveStatusAsync */
    method ToggleWorkerActiveStatus(id: int) returns (ok: bool)
      modifies db
      ensures (db.State(), ok) == ToggleSpec(old(db.State()), id)
    {
      var worker := WorkerById(db.workers, id);
      if worker.None? {
        return false;
      }
      db.SaveWorker(worker.value.(isActive := !worker.value.isActive));
      ok := true;
    }

    /** DeleteWorkerAsync */
    method DeleteWorker(id: int) returns (ok: bool)
      modifies db
      ensures (db.State(), ok) == DeleteSpec(old(db.State()), id)
    {
      var worker := WorkerById(db.workers, id);
      if worker.None? {
        return false;
      }
      db.RemoveWorker(id);
      ok := true;
    }
  }
}
