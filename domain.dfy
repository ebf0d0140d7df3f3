/**
 * The entities of the hairdresser booking system (the Models directory) and the
 * vocabulary every component shares: dates as day numbers, times of day as
 * minutes, appointment statuses and what "active" means.
 */
module Domain {

  /** A C# nullable value or reference: `null` is None. */
  datatype Option<+T> = None | Some(value: T)

  /** DateOnly, represented by its DayNumber: day 0 is 0001-01-01, a Monday. */
  type Date = int

  const MinutesPerDay: int := 1440
  const SecondsPerDay: int := 86400

  /** TimeOnly at minute precision (every stored time comes from an HH:mm value). */
  type TimeOfDay = m: int | 0 <= m < 1440

  /** A wall-clock reading within a day, in whole seconds since midnight. */
  type SecondOfDay = s: int | 0 <= s < 86400

  /**
   * The clock readings an operation depends on: today's date and the second of
   * the day in the business's time zone, and a UTC timestamp for the
   * bookkeeping fields.
   */
  datatype Clock = Clock(today: Date, second: SecondOfDay, stamp: int)

  /** System.DayOfWeek of a date: Sunday = 0, Monday = 1, ..., Saturday = 6. */
  function DayOfWeek(d: Date): (r: int)
    ensures 0 <= r < 7
    ensures r == 1 <==> d % 7 == 0
  {
    (d + 1) % 7
  }

  const Pending: string := "pending"
  const Confirmed: string := "confirmed"
  const Cancelled: string := "cancelled"
  const Completed: string := "completed"

  /** Models/Appointment.cs, without the CreatedAt/UpdatedAt timestamps. */
  datatype Appointment = Appointment(
    id: int,
    userId: int,
    workerId: int,
    date: Date,
    time: TimeOfDay,
    durationMinutes: int,
    status: string,
    serviceType: Option<string>,
    notes: Option<string>,
    serviceId: Option<int>)

  /** "Active" everywhere in the system means: not cancelled. */
  predicate IsActive(a: Appointment)
  {
    a.status != Cancelled
  }

  /** Models/Worker.cs */
  datatype Worker = Worker(id: int, name: string, specialty: Option<string>, isActive: bool)

  /** Models/WorkerSchedule.cs: one weekly row per (worker, day of week). */
  datatype WorkerSchedule = WorkerSchedule(
    id: int,
    workerId: int,
    dayOfWeek: int,
    startTime: TimeOfDay,
    endTime: TimeOfDay,
    isWorking: bool)

  /** Models/User.cs, without the CreatedAt/LastContact timestamps. */
  datatype User = User(id: int, phoneNumber: string, name: Option<string>)

  /** Models/BusinessConfig.cs: a key/value configuration row. */
  datatype BusinessConfig = BusinessConfig(key: string, value: string)

  /** Models/WorkerServiceEntity.cs; the decimal price is kept as an integer amount. */
  datatype ServiceEntity = ServiceEntity(id: int, serviceName: string, durationMinutes: int, price: int)
}
