/**
 * The repository queries (the Repositories directory) as filters and orderings
 * over the rows of a table. "Active" is always status != "cancelled".
 */
module Repositories {
  import opened Domain
  import opened Seqs

  /** Ordering key of OrderBy(AppointmentDate).ThenBy(AppointmentTime). */
  function DateTimeKey(a: Appointment): seq<int>
  {
    [a.date, a.time]
  }

  /** Ordering key of OrderBy(AppointmentTime). */
  function TimeKey(a: Appointment): seq<int>
  {
    [a.time]
  }

  /** Ordering key of OrderBy(DayOfWeek). */
  function DayKey(s: WorkerSchedule): seq<int>
  {
    [s.dayOfWeek]
  }

  /** Ordering key of OrderBy(Name), ordinal. */
  function NameKey(w: Worker): seq<int>
  {
    StringKey(w.name)
  }

  /** AppointmentRepository.GetByUserIdAsync: the user's active appointments by date, then time. */
  function ActiveOfUser(appts: seq<Appointment>, userId: int): (r: seq<Appointment>)
    ensures forall a :: a in r <==> a in appts && a.userId == userId && IsActive(a)
    ensures multiset(r) <= multiset(appts)
    ensures SortedBy(r, DateTimeKey)
  {
    var p := (a: Appointment) => a.userId == userId && IsActive(a);
    var f := Filter(appts, p);
    FilterMembers(appts, p);
    SortByMembers(f, DateTimeKey);
    SortBy(f, DateTimeKey)
  }

  /** AppointmentRepository.GetByWorkerAndDateAsync: the active appointments of a worker on a date, in table order. */
  function ActiveOfWorkerOn(appts: seq<Appointment>, workerId: int, date: Date): (r: seq<Appointment>)
    ensures forall a :: a in r <==> a in appts && a.workerId == workerId && a.date == date && IsActive(a)
    ensures multiset(r) <= multiset(appts)
  {
    var p := (a: Appointment) => a.workerId == workerId && a.date == date && IsActive(a);
    FilterMembers(appts, p);
    Filter(appts, p)
  }

  /** AppointmentRepository.GetByWorkerDateAndTimeAsync: an active appointment holding the slot, or None. */
  function ActiveAt(appts: seq<Appointment>, workerId: int, date: Date, time: TimeOfDay): (r: Option<Appointment>)
    ensures r.Some? ==> r.value in appts && r.value.workerId == workerId && r.value.date == date
                        && r.value.time == time && IsActive(r.value)
    ensures r.None? <==> forall i :: 0 <= i < |appts| ==>
                          !(appts[i].workerId == workerId && appts[i].date == date && appts[i].time == time && IsActive(appts[i]))
  {
    FirstWhere(appts, (a: Appointment) => a.workerId == workerId && a.date == date && a.time == time && IsActive(a))
  }

  /** AppointmentRepository.GetByDateRangeAsync: every appointment dated within [start, end], cancelled ones included, by date then time. */
  function InDateRange(appts: seq<Appointment>, start: Date, end: Date): (r: seq<Appointment>)
    ensures forall a :: a in r <==> a in appts && start <= a.date <= end
    ensures multiset(r) <= multiset(appts)
    ensures SortedBy(r, DateTimeKey)
  {
    var p := (a: Appointment) => start <= a.date <= end;
    var f := Filter(appts, p);
    FilterMembers(appts, p);
    SortByMembers(f, DateTimeKey);
    SortBy(f, DateTimeKey)
  }

  /** AppointmentRepository.GetByIdWithDetailsAsync (and the generic GetByIdAsync): the appointment with that id, or None. */
  function AppointmentById(appts: seq<Appointment>, id: int): (r: Option<Appointment>)
    ensures r.Some? ==> r.value in appts && r.value.id == id
    ensures r.None? <==> forall i :: 0 <= i < |appts| ==> appts[i].id != id
  {
    FirstWhere(appts, (a: Appointment) => a.id == id)
  }

  /** WorkerScheduleRepository.GetByWorkerAndDayAsync: the worker's row for that day, only when it is a working day. */
  function WorkingScheduleFor(schedules: seq<WorkerSchedule>, workerId: int, day: int): (r: Option<WorkerSchedule>)
    ensures r.Some? ==> r.value in schedules && r.value.workerId == workerId && r.value.dayOfWeek == day && r.value.isWorking
    ensures r.None? <==> forall i :: 0 <= i < |schedules| ==>
                          !(schedules[i].workerId == workerId && schedules[i].dayOfWeek == day && schedules[i].isWorking)
  {
    FirstWhere(schedules, (s: WorkerSchedule) => s.workerId == workerId && s.dayOfWeek == day && s.isWorking)
  }

  /** WorkerScheduleRepository.GetByWorkerIdAsync: all of the worker's rows, working or not, by day of week. */
  function SchedulesOf(schedules: seq<WorkerSchedule>, workerId: int): (r: seq<WorkerSchedule>)
    ensures forall s :: s in r <==> s in schedules && s.workerId == workerId
    ensures multiset(r) <= multiset(schedules)
    ensures SortedBy(r, DayKey)
  {
    var p := (s: WorkerSchedule) => s.workerId == workerId;
    var f := Filter(schedules, p);
    FilterMembers(schedules, p);
    SortByMembers(f, DayKey);
    SortBy(f, DayKey)
  }

  /** WorkerRepository.GetActiveWorkersAsync: the active workers by name. */
  function ActiveWorkers(workers: seq<Worker>): (r: seq<Worker>)
    ensures forall w :: w in r <==> w in workers && w.isActive
    ensures multiset(r) <= multiset(workers)
    ensures SortedBy(r, NameKey)
  {
    var p := (w: Worker) => w.isActive;
    var f := Filter(workers, p);
    FilterMembers(workers, p);
    SortByMembers(f, NameKey);
    SortBy(f, NameKey)
  }

  /** WorkerRepository.GetWorkerWithSchedulesAsync (and GetByIdAsync): the worker with that id, active or not, or None. */
  function WorkerById(workers: seq<Worker>, id: int): (r: Option<Worker>)
    ensures r.Some? ==> r.value in workers && r.value.id == id
    ensures r.None? <==> forall i :: 0 <= i < |workers| ==> workers[i].id != id
  {
    FirstWhere(workers, (w: Worker) => w.id == id)
  }

  /** UserRepository.GetByPhoneNumberAsync: the user with exactly that phone number, or None. */
  function UserByPhone(users: seq<User>, phone: string): (r: Option<User>)
    ensures r.Some? ==> r.value in users && r.value.phoneNumber == phone
    ensures r.None? <==> forall i :: 0 <= i < |users| ==> users[i].phoneNumber != phone
  {
    FirstWhere(users, (u: User) => u.phoneNumber == phone)
  }

  /** BusinessConfigRepository.GetByKeyAsync: the configuration row with that key, or None. */
  function ConfigByKey(configs: seq<BusinessConfig>, key: string): (r: Option<BusinessConfig>)
    ensures r.Some? ==> r.value in configs && r.value.key == key
    ensures r.None? <==> forall i :: 0 <= i < |configs| ==> configs[i].key != key
  {
    FirstWhere(configs, (c: BusinessConfig) => c.key == key)
  }

  /** A day whose only row for the worker is not a working row yields no schedule. */
  lemma NonWorkingDayHasNoSchedule(schedules: seq<WorkerSchedule>, k: int)
    requires 0 <= k < |schedules| && !schedules[k].isWorking
    requires forall i :: 0 <= i < |schedules| && i != k ==>
               !(schedules[i].workerId == schedules[k].workerId && schedules[i].dayOfWeek == schedules[k].dayOfWeek)
    ensures WorkingScheduleFor(schedules, schedules[k].workerId, schedules[k].dayOfWeek).None?
  {
  }

  /** A cancelled appointment never blocks its slot in the active-slot query. */
  lemma CancelledDoesNotHoldSlot(appts: seq<Appointment>, k: int)
    requires 0 <= k < |appts| && appts[k].status == Cancelled
    requires forall i :: 0 <= i < |appts| && i != k ==>
               !(appts[i].workerId == appts[k].workerId && appts[i].date == appts[k].date && appts[i].time == appts[k].time)
    ensures ActiveAt(appts, appts[k].workerId, appts[k].date, appts[k].time).None?
  {
  }
}
