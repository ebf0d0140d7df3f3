/**
 * The relational store behind the unit of work: one sequence of rows per table,
 * identity counters for the generated keys, and the unique indexes of the
 * schema (a (worker, date, time) slot holds at most one appointment, whatever
 * its status; a phone number names at most one user; a worker has at most one
 * schedule row per day of week) and its foreign keys (an appointment's user,
 * worker and service, a schedule row's worker). A save that would break an
 * index or a foreign key fails and leaves the store as it was.
 */
module Store {
  import opened Domain
  import opened Seqs

  datatype DbState = DbState(
    users: seq<User>,
    workers: seq<Worker>,
    schedules: seq<WorkerSchedule>,
    appointments: seq<Appointment>,
    configs: seq<BusinessConfig>,
    services: seq<ServiceEntity>,
    nextUserId: int,
    nextWorkerId: int,
    nextScheduleId: int,
    nextAppointmentId: int)

  /** Two appointments on the same (worker, date, time) index key. */
  predicate SameSlot(a: Appointment, b: Appointment)
  {
    a.workerId == b.workerId && a.date == b.date && a.time == b.time
  }

  /** Some appointment, cancelled or not, occupies the index key. */
  predicate SlotTaken(appts: seq<Appointment>, workerId: int, date: Date, time: TimeOfDay)
  {
    exists i :: 0 <= i < |appts| && appts[i].workerId == workerId && appts[i].date == date && appts[i].time == time
  }

  predicate SlotsUnique(appts: seq<Appointment>)
  {
    forall i, j :: 0 <= i < j < |appts| ==> !SameSlot(appts[i], appts[j])
  }

  predicate AppointmentIdsBelow(appts: seq<Appointment>, next: int)
  {
    1 <= next
    && (forall i :: 0 <= i < |appts| ==> 1 <= appts[i].id < next)
    && (forall i, j :: 0 <= i < j < |appts| ==> appts[i].id != appts[j].id)
  }

  predicate UserIdsBelow(users: seq<User>, next: int)
  {
    1 <= next
    && (forall i :: 0 <= i < |users| ==> 1 <= users[i].id < next)
    && (forall i, j :: 0 <= i < j < |users| ==> users[i].id != users[j].id)
  }

  predicate PhonesUnique(users: seq<User>)
  {
    forall i, j :: 0 <= i < j < |users| ==> users[i].phoneNumber != users[j].phoneNumber
  }

  predicate WorkerIdsBelow(workers: seq<Worker>, next: int)
  {
    1 <= next
    && (forall i :: 0 <= i < |workers| ==> 1 <= workers[i].id < next)
    && (forall i, j :: 0 <= i < j < |workers| ==> workers[i].id != workers[j].id)
  }

  /** No two schedule rows share a (worker, day of week) key. */
  predicate ScheduleDaysUnique(schedules: seq<WorkerSchedule>)
  {
    forall i, j :: 0 <= i < j < |schedules| ==>
      !(schedules[i].workerId == schedules[j].workerId && schedules[i].dayOfWeek == schedules[j].dayOfWeek)
  }

  predicate HasUser(users: seq<User>, id: int)
  {
    exists u :: u in users && u.id == id
  }

  predicate HasWorker(workers: seq<Worker>, id: int)
  {
    exists w :: w in workers && w.id == id
  }

  predicate HasService(services: seq<ServiceEntity>, id: int)
  {
    exists x :: x in services && x.id == id
  }

  /** The rows an appointment's foreign keys point at exist: its user, its worker and, when set, its service. */
  predicate References(s: DbState, a: Appointment)
  {
    HasUser(s.users, a.userId) && HasWorker(s.workers, a.workerId)
    && (a.serviceId.None? || HasService(s.services, a.serviceId.value))
  }

  /** Every appointment and every schedule row points at rows that exist. */
  predicate ForeignKeysHold(s: DbState)
  {
    (forall a :: a in s.appointments ==> References(s, a))
    && (forall x :: x in s.schedules ==> HasWorker(s.workers, x.workerId))
  }

  /** The state every committed save leaves behind. */
  predicate Valid(s: DbState)
  {
    SlotsUnique(s.appointments) && AppointmentIdsBelow(s.appointments, s.nextAppointmentId)
    && PhonesUnique(s.users) && UserIdsBelow(s.users, s.nextUserId)
    && WorkerIdsBelow(s.workers, s.nextWorkerId)
    && ScheduleDaysUnique(s.schedules)
    && ForeignKeysHold(s)
  }

  /** The result of a save: the new state, and whether the save committed. */
  datatype Saved<T> = Saved(state: DbState, result: Option<T>)

  /**
   * Add(appointment) + SaveChanges: the new row gets the next identity unless
   * its slot is already occupied or a row it points at does not exist.
   */
  function InsertAppointment(s: DbState, a: Appointment): (r: Saved<Appointment>)
    ensures r.result.None? <==> SlotTaken(s.appointments, a.workerId, a.date, a.time) || !References(s, a)
    ensures r.result.None? ==> r.state == s
    ensures r.result.Some? ==> r.result.value == a.(id := s.nextAppointmentId)
                               && r.state == s.(appointments := s.appointments + [r.result.value],
                                                nextAppointmentId := s.nextAppointmentId + 1)
  {
    if SlotTaken(s.appointments, a.workerId, a.date, a.time) || !References(s, a) then Saved(s, None)
    else
      var row := a.(id := s.nextAppointmentId);
      Saved(s.(appointments := s.appointments + [row], nextAppointmentId := s.nextAppointmentId + 1), Some(row))
  }

  /** A committed appointment insert keeps every index and identity invariant. */
  lemma InsertAppointmentValid(s: DbState, a: Appointment)
    requires Valid(s)
    ensures Valid(InsertAppointment(s, a).state)
  {
    var r := InsertAppointment(s, a);
    if r.result.Some? {
      var appts := r.state.appointments;
      forall i, j | 0 <= i < j < |appts| ensures !SameSlot(appts[i], appts[j]) {
        if j == |appts| - 1 {
          assert !(s.appointments[i].workerId == a.workerId && s.appointments[i].date == a.date
                   && s.appointments[i].time == a.time);
        }
      }
    }
  }

  /** Every row whose id is a.id replaced by a. */
  function ReplaceById(appts: seq<Appointment>, a: Appointment): (r: seq<Appointment>)
    ensures |r| == |appts|
    ensures forall i :: 0 <= i < |r| ==> r[i] == if appts[i].id == a.id then a else appts[i]
  {
    seq(|appts|, i requires 0 <= i < |appts| => if appts[i].id == a.id then a else appts[i])
  }

  /** Some row other than the one with id `id` occupies the slot of a. */
  predicate SlotTakenByOther(appts: seq<Appointment>, id: int, a: Appointment)
  {
    exists i :: 0 <= i < |appts| && appts[i].id != id && SameSlot(appts[i], a)
  }

  /**
   * Update(appointment) + SaveChanges: the row with a.id takes the values of a,
   * unless another row holds the new slot or a row it points at does not exist.
   */
  function UpdateAppointment(s: DbState, a: Appointment): (r: Saved<Appointment>)
    ensures r.result.None? <==> SlotTakenByOther(s.appointments, a.id, a) || !References(s, a)
    ensures r.result.None? ==> r.state == s
    ensures r.result.Some? ==> r.result.value == a && r.state == s.(appointments := ReplaceById(s.appointments, a))
  {
    if SlotTakenByOther(s.appointments, a.id, a) || !References(s, a) then Saved(s, None)
    else Saved(s.(appointments := ReplaceById(s.appointments, a)), Some(a))
  }

  lemma UpdateAppointmentValid(s: DbState, a: Appointment)
    requires Valid(s)
    ensures Valid(UpdateAppointment(s, a).state)
  {
    var r := UpdateAppointment(s, a);
    if r.result.Some? {
      var appts := r.state.appointments;
      forall i, j | 0 <= i < j < |appts| ensures !SameSlot(appts[i], appts[j]) {
        if s.appointments[i].id == a.id && s.appointments[j].id != a.id {
          assert !SameSlot(s.appointments[j], a);
        } else if s.appointments[j].id == a.id && s.appointments[i].id != a.id {
          assert !SameSlot(s.appointments[i], a);
        }
      }
      forall x | x in appts ensures References(s, x) {
        var i :| 0 <= i < |appts| && appts[i] == x;
        assert x == a || x == s.appointments[i];
      }
    }
  }

  /** Remove(appointment) + SaveChanges: the row with that id disappears. */
  function DeleteAppointment(s: DbState, id: int): (r: DbState)
    ensures forall a :: a in r.appointments <==> a in s.appointments && a.id != id
    ensures multiset(r.appointments) <= multiset(s.appointments)
    ensures r == s.(appointments := r.appointments)
  {
    var p := (a: Appointment) => a.id != id;
    FilterMembers(s.appointments, p);
    s.(appointments := Filter(s.appointments, p))
  }

  /** Dropping appointment rows keeps their slots and ids unique. */
  lemma FilterKeepsAppointmentKeys(appts: seq<Appointment>, p: Appointment -> bool, next: int)
    requires SlotsUnique(appts) && AppointmentIdsBelow(appts, next)
    ensures SlotsUnique(Filter(appts, p)) && AppointmentIdsBelow(Filter(appts, p), next)
  {
    var slot := (a: Appointment, b: Appointment) => !SameSlot(a, b);
    var ids := (a: Appointment, b: Appointment) => a.id != b.id;
    assert Pairwise(appts, slot) && Pairwise(appts, ids);
    FilterPairwise(appts, p, slot);
    FilterPairwise(appts, p, ids);
  }

  lemma DeleteAppointmentValid(s: DbState, id: int)
    requires Valid(s)
    ensures Valid(DeleteAppointment(s, id))
  {
    var p := (a: Appointment) => a.id != id;
    assert DeleteAppointment(s, id).appointments == Filter(s.appointments, p);
    FilterKeepsAppointmentKeys(s.appointments, p, s.nextAppointmentId);
  }

  /** Add(user) + SaveChanges: the new row gets the next identity unless its phone number is taken. */
  function InsertUser(s: DbState, phone: string, name: Option<string>): (r: Saved<User>)
    ensures r.result.None? <==> exists i :: 0 <= i < |s.users| && s.users[i].phoneNumber == phone
    ensures r.result.None? ==> r.state == s
    ensures r.result.Some? ==> r.result.value == User(s.nextUserId, phone, name)
                               && r.state == s.(users := s.users + [r.result.value], nextUserId := s.nextUserId + 1)
  {
    if exists i :: 0 <= i < |s.users| && s.users[i].phoneNumber == phone then Saved(s, None)
    else
      var u := User(s.nextUserId, phone, name);
      Saved(s.(users := s.users + [u], nextUserId := s.nextUserId + 1), Some(u))
  }

  lemma InsertUserValid(s: DbState, phone: string, name: Option<string>)
    requires Valid(s)
    ensures Valid(InsertUser(s, phone, name).state)
  {
  }

  /** The user row with u.id takes the name of u (phone numbers are never rewritten). */
  function RenameUser(s: DbState, id: int, name: Option<string>): (r: DbState)
    ensures |r.users| == |s.users|
    ensures forall i :: 0 <= i < |r.users| ==>
              r.users[i] == if s.users[i].id == id then s.users[i].(name := name) else s.users[i]
    ensures r == s.(users := r.users)
  {
    s.(users := seq(|s.users|, i requires 0 <= i < |s.users| =>
                     if s.users[i].id == id then s.users[i].(name := name) else s.users[i]))
  }

  lemma RenameUserValid(s: DbState, id: int, name: Option<string>)
    requires Valid(s)
    ensures Valid(RenameUser(s, id, name))
  {
  }

  /** Add(worker) + SaveChanges: the new row gets the next identity. */
  function InsertWorker(s: DbState, w: Worker): (r: Saved<Worker>)
    ensures r.result == Some(w.(id := s.nextWorkerId))
    ensures r.state == s.(workers := s.workers + [w.(id := s.nextWorkerId)], nextWorkerId := s.nextWorkerId + 1)
  {
    Saved(s.(workers := s.workers + [w.(id := s.nextWorkerId)], nextWorkerId := s.nextWorkerId + 1),
          Some(w.(id := s.nextWorkerId)))
  }

  lemma InsertWorkerValid(s: DbState, w: Worker)
    requires Valid(s)
    ensures Valid(InsertWorker(s, w).state)
  {
  }

  /** Every worker row with w.id replaced by w. */
  function ReplaceWorker(s: DbState, w: Worker): (r: DbState)
    ensures |r.workers| == |s.workers|
    ensures forall i :: 0 <= i < |r.workers| ==> r.workers[i] == if s.workers[i].id == w.id then w else s.workers[i]
    ensures r == s.(workers := r.workers)
  {
    s.(workers := seq(|s.workers|, i requires 0 <= i < |s.workers| =>
                       if s.workers[i].id == w.id then w else s.workers[i]))
  }

  lemma ReplaceWorkerValid(s: DbState, w: Worker)
    requires Valid(s)
    ensures Valid(ReplaceWorker(s, w))
  {
  }

  /** Remove(worker) + SaveChanges: the worker goes, and the cascading foreign keys take its schedule rows and appointments with it. */
  function DeleteWorker(s: DbState, id: int): (r: DbState)
    ensures forall w :: w in r.workers <==> w in s.workers && w.id != id
    ensures forall x :: x in r.schedules <==> x in s.schedules && x.workerId != id
    ensures forall a :: a in r.appointments <==> a in s.appointments && a.workerId != id
    ensures r == s.(workers := r.workers, schedules := r.schedules, appointments := r.appointments)
  {
    var pw := (w: Worker) => w.id != id;
    var ps := (x: WorkerSchedule) => x.workerId != id;
    var pa := (a: Appointment) => a.workerId != id;
    FilterMembers(s.workers, pw);
    FilterMembers(s.schedules, ps);
    FilterMembers(s.appointments, pa);
    s.(workers := Filter(s.workers, pw), schedules := Filter(s.schedules, ps),
       appointments := Filter(s.appointments, pa))
  }

  /** The cascade leaves no row pointing at the deleted worker, so every foreign key still resolves. */
  lemma DeleteWorkerValid(s: DbState, id: int)
    requires Valid(s)
    ensures Valid(DeleteWorker(s, id))
  {
    var r := DeleteWorker(s, id);
    var pw := (w: Worker) => w.id != id;
    var ps := (x: WorkerSchedule) => x.workerId != id;
    var pa := (a: Appointment) => a.workerId != id;
    assert r.appointments == Filter(s.appointments, pa);
    FilterKeepsAppointmentKeys(s.appointments, pa, s.nextAppointmentId);
    forall a | a in r.appointments ensures HasWorker(r.workers, a.workerId) {
      var w :| w in s.workers && w.id == a.workerId;
      assert w in r.workers;
    }
    forall x | x in r.schedules ensures HasWorker(r.workers, x.workerId) {
      var w :| w in s.workers && w.id == x.workerId;
      assert w in r.workers;
    }
    assert r.workers == Filter(s.workers, pw);
    var ids := (a: Worker, b: Worker) => a.id != b.id;
    assert Pairwise(s.workers, ids);
    FilterPairwise(s.workers, pw, ids);
    assert r.schedules == Filter(s.schedules, ps);
    FilterKeepsScheduleDaysUnique(s.schedules, ps);
  }

  /** Rows numbered from `next`, all belonging to worker `workerId`. */
  function Numbered(rows: seq<WorkerSchedule>, workerId: int, next: int): (r: seq<WorkerSchedule>)
    ensures |r| == |rows|
    ensures forall i :: 0 <= i < |r| ==> r[i] == rows[i].(id := next + i, workerId := workerId)
  {
    seq(|rows|, i requires 0 <= i < |rows| => rows[i].(id := next + i, workerId := workerId))
  }

  /** Two rows of a list share a day of week. */
  predicate RepeatsDay(rows: seq<WorkerSchedule>)
  {
    exists i, j :: 0 <= i < j < |rows| && rows[i].dayOfWeek == rows[j].dayOfWeek
  }

  /** The worker already has a row for the day of one of the rows. */
  predicate HasDayOf(schedules: seq<WorkerSchedule>, workerId: int, rows: seq<WorkerSchedule>)
  {
    exists i, j :: 0 <= i < |schedules| && 0 <= j < |rows|
                   && schedules[i].workerId == workerId && schedules[i].dayOfWeek == rows[j].dayOfWeek
  }

  /**
   * Add(schedule) for every row with WorkerId set, then SaveChanges; a repeated
   * day, or rows for a worker with no row, fail the whole save.
   */
  function InsertSchedules(s: DbState, workerId: int, rows: seq<WorkerSchedule>): (r: Saved<seq<WorkerSchedule>>)
    ensures r.result.None? <==> RepeatsDay(rows) || HasDayOf(s.schedules, workerId, rows) || (rows != [] && !HasWorker(s.workers, workerId))
    ensures r.result.None? ==> r.state == s
    ensures r.result.Some? ==> r.result.value == Numbered(rows, workerId, s.nextScheduleId)
    ensures r.result.Some? ==>
              r.state == s.(schedules := s.schedules + r.result.value, nextScheduleId := s.nextScheduleId + |rows|)
  {
    if RepeatsDay(rows) || HasDayOf(s.schedules, workerId, rows) || (rows != [] && !HasWorker(s.workers, workerId)) then Saved(s, None)
    else
      var added := Numbered(rows, workerId, s.nextScheduleId);
      Saved(s.(schedules := s.schedules + added, nextScheduleId := s.nextScheduleId + |rows|), Some(added))
  }

  lemma InsertSchedulesValid(s: DbState, workerId: int, rows: seq<WorkerSchedule>)
    requires Valid(s)
    ensures Valid(InsertSchedules(s, workerId, rows).state)
  {
    var r := InsertSchedules(s, workerId, rows);
    if r.result.Some? {
      var all := r.state.schedules;
      var n := |s.schedules|;
      forall i, j | 0 <= i < j < |all|
        ensures !(all[i].workerId == all[j].workerId && all[i].dayOfWeek == all[j].dayOfWeek)
      {
        if i >= n {
          assert all[i].dayOfWeek == rows[i - n].dayOfWeek && all[j].dayOfWeek == rows[j - n].dayOfWeek;
        } else if j >= n {
          assert all[j].workerId == workerId && all[j].dayOfWeek == rows[j - n].dayOfWeek;
        }
      }
    }
  }

  /**
   * RemoveRange(the worker's rows), Add(each new row), SaveChanges: the
   * worker's rows become exactly the new ones, unless they repeat a day or the
   * worker has no row.
   */
  function ReplaceSchedules(s: DbState, workerId: int, rows: seq<WorkerSchedule>): (r: Saved<seq<WorkerSchedule>>)
    ensures r.result.None? <==> RepeatsDay(rows) || (rows != [] && !HasWorker(s.workers, workerId))
    ensures r.result.None? ==> r.state == s
    ensures r.result.Some? ==> r.result.value == Numbered(rows, workerId, s.nextScheduleId)
    ensures r.result.Some? ==> forall x :: x in r.state.schedules <==>
              (x in s.schedules && x.workerId != workerId) || x in r.result.value
    ensures r.result.Some? ==> r.state == s.(schedules := r.state.schedules, nextScheduleId := s.nextScheduleId + |rows|)
  {
    if RepeatsDay(rows) || (rows != [] && !HasWorker(s.workers, workerId)) then Saved(s, None)
    else
      var p := (x: WorkerSchedule) => x.workerId != workerId;
      FilterMembers(s.schedules, p);
      var added := Numbered(rows, workerId, s.nextScheduleId);
      Saved(s.(schedules := Filter(s.schedules, p) + added, nextScheduleId := s.nextScheduleId + |rows|), Some(added))
  }

  /** Dropping rows never creates a clash of (worker, day of week) keys. */
  lemma {:induction false} FilterKeepsScheduleDaysUnique(schedules: seq<WorkerSchedule>, p: WorkerSchedule -> bool)
    requires ScheduleDaysUnique(schedules)
    ensures ScheduleDaysUnique(Filter(schedules, p))
  {
    if schedules != [] {
      var rest := schedules[1..];
      assert ScheduleDaysUnique(rest) by {
        forall i, j | 0 <= i < j < |rest|
          ensures !(rest[i].workerId == rest[j].workerId && rest[i].dayOfWeek == rest[j].dayOfWeek)
        {
          assert rest[i] == schedules[i + 1] && rest[j] == schedules[j + 1];
        }
      }
      FilterKeepsScheduleDaysUnique(rest, p);
      var t := Filter(rest, p);
      var r := Filter(schedules, p);
      if p(schedules[0]) {
        assert r == [schedules[0]] + t;
        forall j | 0 < j < |r|
          ensures !(r[0].workerId == r[j].workerId && r[0].dayOfWeek == r[j].dayOfWeek)
        {
          assert r[j] in rest;
          var k :| 0 <= k < |rest| && rest[k] == r[j];
          assert schedules[k + 1] == r[j];
        }
      } else {
        assert r == t;
      }
    }
  }

  /** Rows kept for other workers and one worker's rows on distinct days share no key. */
  lemma KeptPlusOwnUnique(kept: seq<WorkerSchedule>, rows: seq<WorkerSchedule>, workerId: int, next: int)
    requires ScheduleDaysUnique(kept) && !RepeatsDay(rows)
    requires forall i :: 0 <= i < |kept| ==> kept[i].workerId != workerId
    ensures ScheduleDaysUnique(kept + Numbered(rows, workerId, next))
  {
    var all := kept + Numbered(rows, workerId, next);
    var n := |kept|;
    forall i, j | 0 <= i < j < |all|
      ensures !(all[i].workerId == all[j].workerId && all[i].dayOfWeek == all[j].dayOfWeek)
    {
      if i >= n {
        assert all[i].dayOfWeek == rows[i - n].dayOfWeek && all[j].dayOfWeek == rows[j - n].dayOfWeek;
      } else if j >= n {
        assert all[i] == kept[i] && all[j].workerId == workerId;
      }
    }
  }

  lemma ReplaceSchedulesValid(s: DbState, workerId: int, rows: seq<WorkerSchedule>)
    requires Valid(s)
    ensures Valid(ReplaceSchedules(s, workerId, rows).state)
  {
    var r := ReplaceSchedules(s, workerId, rows);
    if r.result.Some? {
      var p := (x: WorkerSchedule) => x.workerId != workerId;
      var kept := Filter(s.schedules, p);
      assert r.state == s.(schedules := kept + Numbered(rows, workerId, s.nextScheduleId),
                           nextScheduleId := s.nextScheduleId + |rows|);
      FilterKeepsScheduleDaysUnique(s.schedules, p);
      KeptPlusOwnUnique(kept, rows, workerId, s.nextScheduleId);
    }
  }

  class Database {
    var users: seq<User>
    var workers: seq<Worker>
    var schedules: seq<WorkerSchedule>
    var appointments: seq<Appointment>
    var configs: seq<BusinessConfig>
    var services: seq<ServiceEntity>
    var nextUserId: int
    var nextWorkerId: int
    var nextScheduleId: int
    var nextAppointmentId: int

    /** The committed contents of every table. */
    function State(): DbState
      reads this
    {
      DbState(users, workers, schedules, appointments, configs, services,
              nextUserId, nextWorkerId, nextScheduleId, nextAppointmentId)
    }

    constructor (configs: seq<BusinessConfig>, services: seq<ServiceEntity>)
      ensures State() == DbState([], [], [], [], configs, services, 1, 1, 1, 1)
      ensures Valid(State())
    {
      this.users, this.workers, this.schedules, this.appointments := [], [], [], [];
      this.configs, this.services := configs, services;
      this.nextUserId, this.nextWorkerId, this.nextScheduleId, this.nextAppointmentId := 1, 1, 1, 1;
    }

    method AddAppointment(a: Appointment) returns (saved: Option<Appointment>)
      modifies this
      ensures InsertAppointment(old(State()), a) == Saved(State(), saved)
    {
      if SlotTaken(appointments, a.workerId, a.date, a.time) || !References(State(), a) {
        return None;
      }
      var row := a.(id := nextAppointmentId);
      appointments := appointments + [row];
      nextAppointmentId := nextAppointmentId + 1;
      saved := Some(row);
    }

    method SaveAppointment(a: Appointment) returns (saved: Option<Appointment>)
      modifies this
      ensures UpdateAppointment(old(State()), a) == Saved(State(), saved)
    {
      if SlotTakenByOther(appointments, a.id, a) || !References(State(), a) {
        return None;
      }
      appointments := ReplaceById(appointments, a);
      saved := Some(a);
    }

    method RemoveAppointment(id: int)
      modifies this
      ensures State() == DeleteAppointment(old(State()), id)
    {
      appointments := Filter(appointments, (a: Appointment) => a.id != id);
    }

    method AddUser(phone: string, name: Option<string>) returns (saved: Option<User>)
      modifies this
      ensures InsertUser(old(State()), phone, name) == Saved(State(), saved)
    {
      if exists i :: 0 <= i < |users| && users[i].phoneNumber == phone {
        return None;
      }
      var u := User(nextUserId, phone, name);
      users := users + [u];
      nextUserId := nextUserId + 1;
      saved := Some(u);
    }

    method SetUserName(id: int, name: Option<string>)
      modifies this
      ensures State() == RenameUser(old(State()), id, name)
    {
      users := RenameUser(State(), id, name).users;
    }

    method AddWorker(w: Worker) returns (saved: Worker)
      modifies this
      ensures InsertWorker(old(State()), w) == Saved(State(), Some(saved))
    {
      saved := w.(id := nextWorkerId);
      workers := workers + [saved];
      nextWorkerId := nextWorkerId + 1;
    }

    method SaveWorker(w: Worker)
      modifies this
      ensures State() == ReplaceWorker(old(State()), w)
    {
      workers := ReplaceWorker(State(), w).workers;
    }

    method RemoveWorker(id: int)
      modifies this
      ensures State() == DeleteWorker(old(State()), id)
    {
      var s := DeleteWorker(State(), id);
      workers, schedules, appointments := s.workers, s.schedules, s.appointments;
    }

    method AddSchedules(workerId: int, rows: seq<WorkerSchedule>) returns (saved: Option<seq<WorkerSchedule>>)
      modifies this
      ensures InsertSchedules(old(State()), workerId, rows) == Saved(State(), saved)
    {
      if RepeatsDay(rows) || HasDayOf(schedules, workerId, rows) || (rows != [] && !HasWorker(workers, workerId)) {
        return None;
      }
      var added := Numbered(rows, workerId, nextScheduleId);
      schedules := schedules + added;
      nextScheduleId := nextScheduleId + |rows|;
      saved := Some(added);
    }

    method SetSchedules(workerId: int, rows: seq<WorkerSchedule>) returns (saved: Option<seq<WorkerSchedule>>)
      modifies this
      ensures ReplaceSchedules(old(State()), workerId, rows) == Saved(State(), saved)
    {
      if RepeatsDay(rows) || (rows != [] && !HasWorker(workers, workerId)) {
        return None;
      }
      var added := Numbered(rows, workerId, nextScheduleId);
      schedules := Filter(schedules, (x: WorkerSchedule) => x.workerId != workerId) + added;
      nextScheduleId := nextScheduleId + |rows|;
      saved := Some(added);
    }
  }
}
