/**
 * The admin dashboard (DashboardService): a Monday-first month calendar of 42
 * days with the number of active appointments per day, the month's status
 * tallies, the appointment list of the selected day, and the status and notes
 * edits made from that list.
 */
module Dashboard {
  import opened Domain
  import opened Seqs
  import opened Dates
  import opened Repositories
  import opened Store
  import opened AppointmentAdmin

  // ---------------------------------------------------------------------------
  // The calendar grid
  // ---------------------------------------------------------------------------

  /** The grid's first day: the Monday on or before the 1st. */
  function GridStart(first: Date): (g: Date)
    ensures DayOfWeek(g) == 1
    ensures first - 6 <= g <= first
  {
    if DayOfWeek(first) == 0 then first - 6 else first - (DayOfWeek(first) - 1)
  }

  /** No later Monday comes before the 1st: the grid starts in the week holding it. */
  lemma GridStartIsLatestMonday(first: Date, m: Date)
    requires DayOfWeek(m) == 1 && m <= first
    ensures m <= GridStart(first)
  {
    var g := GridStart(first);
    assert (g - m) % 7 == 0;
  }

  /** The appointments the calendar counts: not cancelled, and of the filtered worker when a positive id is given. */
  predicate Counted(a: Appointment, workerId: Option<int>)
  {
    IsActive(a) && (workerId.Some? && workerId.value > 0 ==> a.workerId == workerId.value)
  }

  /** The counted appointments dated d: the number a calendar cell should show. */
  function CountedOn(workerId: Option<int>, d: Date): Appointment -> bool
  {
    (a: Appointment) => a.date == d && Counted(a, workerId)
  }

  function ActiveOn(appts: seq<Appointment>, workerId: Option<int>, d: Date): nat
  {
    Count(appts, CountedOn(workerId, d))
  }

  /** The repository query of the calendar, with its two Where clauses: counted appointments dated in [lo, hi]. */
  function InQuery(lo: Date, hi: Date, workerId: Option<int>): Appointment -> bool
  {
    (a: Appointment) => lo <= a.date <= hi && Counted(a, workerId)
  }

  /** GroupBy(AppointmentDate).ToDictionary(Count): the number of rows per date. */
  function Tally(appts: seq<Appointment>): (m: map<Date, nat>)
    ensures forall d :: d in m ==> m[d] > 0
  {
    if appts == [] then map[]
    else
      var m := Tally(appts[1..]);
      var d := appts[0].date;
      m[d := (if d in m then m[d] else 0) + 1]
  }

  /** GetValueOrDefault(d, 0) */
  function CountOr(m: map<Date, nat>, d: Date): nat
  {
    if d in m then m[d] else 0
  }

  /** The per-date counts over a query range [lo, hi]. */
  function RangeCounts(appts: seq<Appointment>, lo: Date, hi: Date, workerId: Option<int>): map<Date, nat>
  {
    Tally(Filter(appts, InQuery(lo, hi, workerId)))
  }

  /** Count over a non-empty sequence: the head's contribution plus the count of the tail. */
  lemma CountCons<T>(s: seq<T>, p: T -> bool)
    requires s != []
    ensures Count(s, p) == (if p(s[0]) then 1 else 0) + Count(s[1..], p)
  {
  }

  /** The tally of a non-empty sequence: the head's date gains one. */
  lemma TallyCons(appts: seq<Appointment>, d: Date)
    requires appts != []
    ensures CountOr(Tally(appts), d) == (if appts[0].date == d then 1 else 0) + CountOr(Tally(appts[1..]), d)
  {
  }

  /** The tally over the range holds the number of counted appointments of a date inside the range, and nothing outside it. */
  lemma {:induction false} RangeCountsMeaning(appts: seq<Appointment>, lo: Date, hi: Date, workerId: Option<int>, d: Date)
    ensures CountOr(RangeCounts(appts, lo, hi, workerId), d) == if lo <= d <= hi then ActiveOn(appts, workerId, d) else 0
  {
    var q := InQuery(lo, hi, workerId);
    if appts != [] {
      RangeCountsMeaning(appts[1..], lo, hi, workerId, d);
      CountCons(appts, CountedOn(workerId, d));
      var rest := Filter(appts[1..], q);
      var f := Filter(appts, q);
      if q(appts[0]) {
        assert CountOr(Tally(f), d) == (if appts[0].date == d then 1 else 0) + CountOr(Tally(rest), d) by {
          assert f == [appts[0]] + rest;
          assert f[1..] == rest;
          TallyCons(f, d);
        }
      } else {
        assert f == rest;
      }
    } else {
      assert Filter(appts, q) == [];
    }
  }

  /** CalendarDayViewModel */
  datatype CalendarDay = CalendarDay(
    date: Date,
    day: int,
    isCurrentMonth: bool,
    isToday: bool,
    isSelected: bool,
    appointmentCount: nat)

  /**
   * The year, month and day of a grid day, read off its place around the
   * month that runs from `first` to `last`: days before the 1st count back
   * from the previous month's last day, days after the month's last count on
   * from the next month's 1st.
   */
  function GridYmd(year: int, month: int, first: Date, last: Date, d: Date): Ymd
  {
    if d < first then
      if 1 < month <= 12 then Ymd(year, month - 1, DaysInMonth(year, month - 1) - (first - d) + 1)
      else Ymd(year - 1, 12, 32 - (first - d))
    else if d <= last then Ymd(year, month, d - first + 1)
    else if month < 12 then Ymd(year, month + 1, d - last)
    else Ymd(year + 1, 1, d - last)
  }

  /** The cell of a date, read off the grid, with its count looked up in the per-date counts. */
  function Cell(year: int, month: int, first: Date, last: Date, d: Date, selected: Date, today: Date,
                counts: map<Date, nat>): (c: CalendarDay)
    ensures c.date == d
  {
    var t := GridYmd(year, month, first, last, d);
    CalendarDay(d, t.day, t.month == month, d == today, d == selected, CountOr(counts, d))
  }

  /** The 42 cells of consecutive dates from the grid's first day `start`. */
  function CalendarOver(year: int, month: int, first: Date, last: Date, start: Date, selected: Date, today: Date,
                        counts: map<Date, nat>): (days: seq<CalendarDay>)
    ensures |days| == 42
    ensures forall i :: 0 <= i < 42 ==> days[i].date == start + i
    ensures forall i :: 0 <= i < 42 ==> days[i] == Cell(year, month, first, last, days[i].date, selected, today, counts)
  {
    var days := seq(42, i requires 0 <= i < 42 => Cell(year, month, first, last, start + i, selected, today, counts));
    assert forall i :: 0 <= i < 42 ==> days[i] == Cell(year, month, first, last, start + i, selected, today, counts);
    days
  }

  /** The per-date counts over the grid's own 42 days from `start`. */
  function GridCounts(appts: seq<Appointment>, start: Date, workerId: Option<int>): map<Date, nat>
  {
    RangeCounts(appts, start, start + 41, workerId)
  }

  lemma GridCountsMeaning(appts: seq<Appointment>, start: Date, workerId: Option<int>, d: Date)
    ensures CountOr(GridCounts(appts, start, workerId), d) == if start <= d <= start + 41 then ActiveOn(appts, workerId, d) else 0
  {
    RangeCountsMeaning(appts, start, start + 41, workerId, d);
  }

  /** The query range as BuildCalendarDaysAsync computes it: from 1st + 1 - dow(1st) to last + 7 - dow(last). */
  function QueryStartAsWritten(year: int, month: int): Date
    requires InnerMonth(year, month)
  {
    var first := FirstOfMonth(year, month);
    first - DayOfWeek(first) + 1
  }

  function QueryEndAsWritten(year: int, month: int): Date
    requires InnerMonth(year, month)
  {
    var last := LastOfMonth(year, month);
    last + 7 - DayOfWeek(last)
  }

  /** The calendar exactly as written, counting over the as-written query range. */
  function CalendarAsWritten(appts: seq<Appointment>, year: int, month: int, selected: Date, today: Date,
                             workerId: Option<int>): (days: seq<CalendarDay>)
    requires InnerMonth(year, month)
    ensures |days| == 42
  {
    var first := FirstOfMonth(year, month);
    CalendarOver(year, month, first, LastOfMonth(year, month), GridStart(first), selected, today,
                 RangeCounts(appts, QueryStartAsWritten(year, month), QueryEndAsWritten(year, month), workerId))
  }

  /** As written, a cell counts its date's appointments only when the date lies in the as-written query range. */
  lemma CalendarAsWrittenCounts(appts: seq<Appointment>, year: int, month: int, selected: Date, today: Date,
                                workerId: Option<int>)
    requires InnerMonth(year, month)
    ensures var days := CalendarAsWritten(appts, year, month, selected, today, workerId);
            forall i :: 0 <= i < 42 ==>
              days[i].appointmentCount
                == if QueryStartAsWritten(year, month) <= days[i].date <= QueryEndAsWritten(year, month)
                   then ActiveOn(appts, workerId, days[i].date) else 0
  {
    var days := CalendarAsWritten(appts, year, month, selected, today, workerId);
    var lo, hi := QueryStartAsWritten(year, month), QueryEndAsWritten(year, month);
    forall i | 0 <= i < 42
      ensures days[i].appointmentCount == if lo <= days[i].date <= hi then ActiveOn(appts, workerId, days[i].date) else 0
    {
      RangeCountsMeaning(appts, lo, hi, workerId, days[i].date);
    }
  }

  /** The 1st of February 2026 is a Sunday. */
  const February2026: Date := 739647

  /**
   * A month that starts on a Sunday: the as-written query starts on the 2nd,
   * so the 1st, shown in the grid's first row, counts 0 even with an active
   * appointment on it.
   */
  lemma CalendarAsWrittenMissesSundayFirst()
    ensures InnerMonth(2026, 2) && FirstOfMonth(2026, 2) == February2026 && DayOfWeek(February2026) == 0
    ensures var appts := [Appointment(1, 1, 1, February2026, 600, 30, Pending, None, None, None)];
            var days := CalendarAsWritten(appts, 2026, 2, February2026, February2026, None);
            days[6].date == February2026 && ActiveOn(appts, None, February2026) == 1 && days[6].appointmentCount == 0
  {
    var appts := [Appointment(1, 1, 1, February2026, 600, 30, Pending, None, None, None)];
    CalendarAsWrittenCounts(appts, 2026, 2, February2026, February2026, None);
    assert QueryStartAsWritten(2026, 2) == February2026 + 1;
    assert Filter(appts, CountedOn(None, February2026)) == appts;
  }

  /** The 1st of June 2026 is a Monday. */
  const June2026: Date := 739767

  /**
   * The as-written query also ends early: it stops at the Sunday after the
   * last day, while the grid runs on to 42 days. In June 2026 the sixth row
   * (July 6 to 12) shows 0 even with an active appointment on July 6, which
   * the corrected calendar counts.
   */
  lemma CalendarAsWrittenMissesGridTail()
    ensures InnerMonth(2026, 6) && FirstOfMonth(2026, 6) == June2026 && DayOfWeek(June2026) == 1
    ensures var appts := [Appointment(1, 1, 1, June2026 + 35, 600, 30, Pending, None, None, None)];
            var written := CalendarAsWritten(appts, 2026, 6, June2026, June2026, None);
            var corrected := Calendar(appts, 2026, 6, June2026, June2026, None);
            written[35].date == corrected[35].date == June2026 + 35
            && ActiveOn(appts, None, June2026 + 35) == 1
            && written[35].appointmentCount == 0 && corrected[35].appointmentCount == 1
  {
    var appts := [Appointment(1, 1, 1, June2026 + 35, 600, 30, Pending, None, None, None)];
    CalendarAsWrittenCounts(appts, 2026, 6, June2026, June2026, None);
    CalendarCounts(appts, 2026, 6, June2026, June2026, None);
    assert QueryEndAsWritten(2026, 6) == June2026 + 34;
    assert Filter(appts, CountedOn(None, June2026 + 35)) == appts;
  }

  /** BuildCalendarDaysAsync with its query range corrected to the grid's own 42 days. */
  function Calendar(appts: seq<Appointment>, year: int, month: int, selected: Date, today: Date,
                    workerId: Option<int>): (days: seq<CalendarDay>)
    requires InnerMonth(year, month)
    ensures |days| == 42
  {
    var first := FirstOfMonth(year, month);
    var start := GridStart(first);
    CalendarOver(year, month, first, LastOfMonth(year, month), start, selected, today, GridCounts(appts, start, workerId))
  }

  /** Every cell of the corrected calendar counts exactly the counted appointments of its own date. */
  lemma CalendarCounts(appts: seq<Appointment>, year: int, month: int, selected: Date, today: Date, workerId: Option<int>)
    requires InnerMonth(year, month)
    ensures var days := Calendar(appts, year, month, selected, today, workerId);
            forall i :: 0 <= i < 42 ==> days[i].appointmentCount == ActiveOn(appts, workerId, days[i].date)
  {
    var days := Calendar(appts, year, month, selected, today, workerId);
    forall i | 0 <= i < 42 ensures days[i].appointmentCount == ActiveOn(appts, workerId, days[i].date) {
      GridCountsMeaning(appts, GridStart(FirstOfMonth(year, month)), workerId, days[i].date);
    }
  }

  /** The grid's own reading of a day is DateOnly's: its Year, Month and Day. */
  lemma GridYmdIsDateOnly(year: int, month: int, d: Date)
    requires InnerMonth(year, month)
    requires FirstOfMonth(year, month) - 6 <= d <= LastOfMonth(year, month) + 14
    ensures ValidDate(d) && ToYmd(d) == GridYmd(year, month, FirstOfMonth(year, month), LastOfMonth(year, month), d)
  {
    var first, last := FirstOfMonth(year, month), LastOfMonth(year, month);
    if d < first {
      if month > 1 {
        BeforeFirstDate(year, month, d);
      } else {
        BeforeNewYearDate(year, d);
      }
    } else if d > last {
      if month < 12 {
        AfterLastDate(year, month, d);
      } else {
        AfterYearEndDate(year, d);
      }
    } else {
      InMonthDate(year, month, d);
    }
  }

  /**
   * The grid: 42 consecutive days from the Monday on or before the 1st, which
   * take in the whole month; a day is of the current month exactly when it lies
   * between the 1st and the last, and then shows its day of the month.
   */
  lemma CalendarGrid(appts: seq<Appointment>, year: int, month: int, selected: Date, today: Date, workerId: Option<int>)
    requires InnerMonth(year, month)
    ensures var days := Calendar(appts, year, month, selected, today, workerId);
            var first, last := FirstOfMonth(year, month), LastOfMonth(year, month);
            && DayOfWeek(days[0].date) == 1 && first - 6 <= days[0].date <= first
            && (forall i :: 0 <= i < 41 ==> days[i + 1].date == days[i].date + 1)
            && last < days[0].date + 42
            && (forall i :: 0 <= i < 42 ==> (days[i].isCurrentMonth <==> first <= days[i].date <= last))
            && (forall i :: 0 <= i < 42 && days[i].isCurrentMonth ==> days[i].day == days[i].date - first + 1)
  {
  }

  /**
   * Every cell agrees with DateOnly: it shows its date's Day, and is of the
   * current month exactly when its date's Month is the calendar's month.
   */
  lemma CalendarCellsAreDateOnly(appts: seq<Appointment>, year: int, month: int, selected: Date, today: Date,
                                 workerId: Option<int>, i: int)
    requires InnerMonth(year, month) && 0 <= i < 42
    ensures var c := Calendar(appts, year, month, selected, today, workerId)[i];
            ValidDate(c.date) && c.day == ToYmd(c.date).day && (c.isCurrentMonth <==> MonthOf(c.date) == month)
  {
    var c := Calendar(appts, year, month, selected, today, workerId)[i];
    GridYmdIsDateOnly(year, month, c.date);
  }

  /** The selected date and today are marked on their own cell only, and are on the grid exactly when within its 42 days. */
  lemma CalendarMarks(appts: seq<Appointment>, year: int, month: int, selected: Date, today: Date, workerId: Option<int>)
    requires InnerMonth(year, month)
    ensures var days := Calendar(appts, year, month, selected, today, workerId);
            && (forall i :: 0 <= i < 42 ==>
                  (days[i].isSelected <==> days[i].date == selected) && (days[i].isToday <==> days[i].date == today))
            && ((exists i :: 0 <= i < 42 && days[i].isSelected) <==> days[0].date <= selected < days[0].date + 42)
  {
    var days := Calendar(appts, year, month, selected, today, workerId);
    if days[0].date <= selected < days[0].date + 42 {
      assert days[selected - days[0].date].isSelected;
    }
  }

  // ---------------------------------------------------------------------------
  // Monthly statistics
  // ---------------------------------------------------------------------------

  /** The four status counts of the dashboard header. */
  datatype MonthlyStats = MonthlyStats(total: nat, confirmed: nat, pending: nat, cancelled: nat)

  function HasStatus(status: string): Appointment -> bool
  {
    (a: Appointment) => a.status == status
  }

  predicate KnownStatus(a: Appointment)
  {
    a.status == Confirmed || a.status == Pending || a.status == Cancelled || a.status == Completed
  }

  /** The month's appointments of every status, of the filtered worker when a positive id is given. */
  function MonthlyAppointments(s: DbState, year: int, month: int, workerId: Option<int>): (r: seq<Appointment>)
    requires InnerMonth(year, month)
    ensures forall a :: a in r <==> a in s.appointments && FirstOfMonth(year, month) <= a.date <= LastOfMonth(year, month)
                                    && (workerId.Some? && workerId.value > 0 ==> a.workerId == workerId.value)
  {
    ByWorker(InDateRange(s.appointments, FirstOfMonth(year, month), LastOfMonth(year, month)), workerId)
  }

  /** The stats part of GetDashboardDataAsync: the status groups counted, confirmed and completed shown together. */
  function MonthlyStatsOf(s: DbState, year: int, month: int, workerId: Option<int>): (r: MonthlyStats)
    requires InnerMonth(year, month)
    ensures r.total == |MonthlyAppointments(s, year, month, workerId)|
    ensures r.confirmed + r.pending + r.cancelled <= r.total
  {
    var monthly := MonthlyAppointments(s, year, month, workerId);
    StatusCountsSum(monthly);
    MonthlyStats(|monthly|,
                 Count(monthly, HasStatus(Confirmed)) + Count(monthly, HasStatus(Completed)),
                 Count(monthly, HasStatus(Pending)),
                 Count(monthly, HasStatus(Cancelled)))
  }

  /** The four known statuses partition the rows that carry one. */
  lemma {:induction false} StatusCountsSum(appts: seq<Appointment>)
    ensures Count(appts, HasStatus(Confirmed)) + Count(appts, HasStatus(Completed))
            + Count(appts, HasStatus(Pending)) + Count(appts, HasStatus(Cancelled))
            == Count(appts, KnownStatus)
  {
    if appts != [] {
      StatusCountsSum(appts[1..]);
      CountCons(appts, HasStatus(Confirmed));
      CountCons(appts, HasStatus(Completed));
      CountCons(appts, HasStatus(Pending));
      CountCons(appts, HasStatus(Cancelled));
      CountCons(appts, KnownStatus);
    }
  }

  /** Count(p) reaches the length exactly when every element satisfies p. */
  lemma {:induction false} CountAll(appts: seq<Appointment>, p: Appointment -> bool)
    ensures Count(appts, p) == |appts| <==> forall i :: 0 <= i < |appts| ==> p(appts[i])
  {
    if appts != [] {
      CountAll(appts[1..], p);
      assert forall i :: 1 <= i < |appts| ==> appts[i] == appts[1..][i - 1];
    }
  }

  /**
   * The total counts every status, cancelled included: it is at least the sum
   * of the three shown figures, and equal to it exactly when every appointment
   * of the month has one of the four known statuses.
   */
  lemma MonthlyStatsAccount(s: DbState, year: int, month: int, workerId: Option<int>)
    requires InnerMonth(year, month)
    ensures var r := MonthlyStatsOf(s, year, month, workerId);
            var monthly := MonthlyAppointments(s, year, month, workerId);
            && r.confirmed + r.pending + r.cancelled <= r.total
            && (r.confirmed + r.pending + r.cancelled == r.total <==> forall i :: 0 <= i < |monthly| ==> KnownStatus(monthly[i]))
  {
    var monthly := MonthlyAppointments(s, year, month, workerId);
    StatusCountsSum(monthly);
    CountAll(monthly, KnownStatus);
  }

  // ---------------------------------------------------------------------------
  // The selected day's appointments
  // ---------------------------------------------------------------------------

  /** AppointmentViewModel as the dashboard fills it. */
  datatype DayRow = DayRow(
    id: int,
    time: string,
    customerName: string,
    phoneNumber: string,
    status: string,
    serviceType: Option<string>,
    notes: Option<string>,
    durationMinutes: int,
    workerId: int,
    workerName: string,
    price: int)

  /** The service an appointment refers to, if its ServiceId names one. */
  function ServiceOf(services: seq<ServiceEntity>, a: Appointment): (r: Option<ServiceEntity>)
    ensures r.Some? ==> r.value in services && a.serviceId == Some(r.value.id)
    ensures r.None? <==> a.serviceId.None? || forall i :: 0 <= i < |services| ==> services[i].id != a.serviceId.value
  {
    if a.serviceId.None? then None
    else FirstWhere(services, (x: ServiceEntity) => x.id == a.serviceId.value)
  }

  /** The row of an appointment: "Misafir" without a user name, no service name and price 0 without a known service. */
  function DayRowOf(s: DbState, a: Appointment): (r: DayRow)
    ensures r.id == a.id && r.status == a.status && r.time == FormatTime(a.time) && r.notes == a.notes
    ensures ServiceOf(s.services, a).None? ==> r.price == 0 && r.serviceType.None?
    ensures ServiceOf(s.services, a).Some? ==> r.price == ServiceOf(s.services, a).value.price
                                               && r.serviceType == Some(ServiceOf(s.services, a).value.serviceName)
  {
    var user := UserOf(s, a);
    var worker := WorkerById(s.workers, a.workerId);
    var service := ServiceOf(s.services, a);
    DayRow(a.id, FormatTime(a.time),
           if user.Some? && user.value.name.Some? then user.value.name.value else "Misafir",
           if user.Some? then user.value.phoneNumber else "",
           a.status,
           if service.Some? then Some(service.value.serviceName) else None,
           a.notes, a.durationMinutes, a.workerId,
           if worker.Some? then worker.value.name else "Atanmam\U{131}\U{15F}",
           if service.Some? then service.value.price else 0)
  }

  /** The appointments GetDayAppointmentsAsync lists: every one of the date, of any status, of the filtered worker, by time. */
  function DayList(s: DbState, date: Date, workerId: Option<int>): (r: seq<Appointment>)
    ensures forall a :: a in r <==> a in s.appointments && a.date == date
                                    && (workerId.Some? && workerId.value > 0 ==> a.workerId == workerId.value)
    ensures SortedBy(r, TimeKey)
  {
    var listed := ByWorker(InDateRange(s.appointments, date, date), workerId);
    SortByMembers(listed, TimeKey);
    SortBy(listed, TimeKey)
  }

  /** The Select of GetDayAppointmentsAsync: one row per listed appointment, in the same order. */
  function DayRows(s: DbState, listed: seq<Appointment>): (rows: seq<DayRow>)
    ensures |rows| == |listed| && forall i :: 0 <= i < |rows| ==> rows[i] == DayRowOf(s, listed[i])
  {
    seq(|listed|, i requires 0 <= i < |listed| => DayRowOf(s, listed[i]))
  }

  /** GetDayAppointmentsAsync: a day without appointments shows no row. */
  function DayAppointments(s: DbState, date: Date, workerId: Option<int>): (r: seq<DayRow>)
    ensures (forall a :: a in s.appointments ==> a.date != date) ==> r == []
  {
    var listed := DayList(s, date, workerId);
    assert listed != [] ==> listed[0] in listed;
    DayRows(s, listed)
  }

  /**
   * Every appointment of the day passing the worker filter, cancelled or not,
   * has its row, and every row is such an appointment's.
   */
  lemma DayAppointmentsListTheDay(s: DbState, date: Date, workerId: Option<int>, a: Appointment)
    requires a in s.appointments && a.date == date && (workerId.Some? && workerId.value > 0 ==> a.workerId == workerId.value)
    ensures exists i :: 0 <= i < |DayAppointments(s, date, workerId)| && DayAppointments(s, date, workerId)[i] == DayRowOf(s, a)
  {
    var listed := DayList(s, date, workerId);
    assert a in listed;
    var i :| 0 <= i < |listed| && listed[i] == a;
    var rows := DayRows(s, listed);
    assert rows[i] == DayRowOf(s, a);
    assert DayAppointments(s, date, workerId) == rows;
  }

  lemma DayAppointmentsComeFromTheDay(s: DbState, date: Date, workerId: Option<int>, i: int)
    requires 0 <= i < |DayAppointments(s, date, workerId)|
    ensures exists a :: a in s.appointments && a.date == date
                        && (workerId.Some? && workerId.value > 0 ==> a.workerId == workerId.value)
                        && DayAppointments(s, date, workerId)[i] == DayRowOf(s, a)
  {
    var listed := DayList(s, date, workerId);
    assert listed[i] in listed;
  }

  /** The rows come in time order. */
  lemma DayAppointmentsInTimeOrder(s: DbState, date: Date, workerId: Option<int>)
    ensures var listed := DayList(s, date, workerId);
            forall i, j :: 0 <= i < j < |listed| ==> listed[i].time <= listed[j].time
  {
    TimeKeyOrder(DayList(s, date, workerId));
  }

  // ---------------------------------------------------------------------------
  // Status and notes edits
  // ---------------------------------------------------------------------------

  /**
   * UpdateAppointmentStatusAsync: Some(false) and no change for an unknown id;
   * otherwise the row takes the new status, unchecked, and the answer is
   * Some(true), or None when the save throws.
   */
  function SetStatusSpec(s: DbState, id: int, status: string): (r: (DbState, Option<bool>))
    ensures AppointmentById(s.appointments, id).None? ==> r == (s, Some(false))
    ensures r.1 != Some(true) ==> r.0 == s
    ensures r.1 == Some(true) ==>
              r.0 == s.(appointments := ReplaceById(s.appointments, AppointmentById(s.appointments, id).value.(status := status)))
  {
    match AppointmentById(s.appointments, id)
    case None => (s, Some(false))
    case Some(a) =>
      var saved := UpdateAppointment(s, a.(status := status));
      if saved.result.Some? then (saved.state, Some(true)) else (s, None)
  }

  /** UpdateAppointmentNotesAsync: the same, for the notes. */
  function SetNotesSpec(s: DbState, id: int, notes: string): (r: (DbState, Option<bool>))
    ensures AppointmentById(s.appointments, id).None? ==> r == (s, Some(false))
    ensures r.1 != Some(true) ==> r.0 == s
    ensures r.1 == Some(true) ==>
              r.0 == s.(appointments := ReplaceById(s.appointments, AppointmentById(s.appointments, id).value.(notes := Some(notes))))
  {
    match AppointmentById(s.appointments, id)
    case None => (s, Some(false))
    case Some(a) =>
      var saved := UpdateAppointment(s, a.(notes := Some(notes)));
      if saved.result.Some? then (saved.state, Some(true)) else (s, None)
  }

  /** A row keeps its slot, so on a valid store no other row holds it. */
  lemma OwnSlotFree(s: DbState, k: int, a: Appointment)
    requires Valid(s) && 0 <= k < |s.appointments|
    requires a.id == s.appointments[k].id && SameSlot(a, s.appointments[k])
    ensures !SlotTakenByOther(s.appointments, a.id, a)
    ensures AppointmentById(s.appointments, a.id) == Some(s.appointments[k])
  {
    FirstWhereUnique(s.appointments, (x: Appointment) => x.id == a.id, k);
    forall i | 0 <= i < |s.appointments| && s.appointments[i].id != a.id ensures !SameSlot(s.appointments[i], a) {
      if i < k {
        assert !SameSlot(s.appointments[i], s.appointments[k]);
      } else if i > k {
        assert !SameSlot(s.appointments[k], s.appointments[i]);
      }
    }
  }

  /**
   * On a valid store a status edit of an existing row always commits, changes
   * that row's status only, and keeps the store valid.
   */
  lemma SetStatusChangesOneRow(s: DbState, k: int, status: string)
    requires Valid(s) && 0 <= k < |s.appointments|
    ensures var (s', ok) := SetStatusSpec(s, s.appointments[k].id, status);
            && ok == Some(true) && Valid(s') && |s'.appointments| == |s.appointments|
            && s'.appointments[k] == s.appointments[k].(status := status)
            && (forall i :: 0 <= i < |s.appointments| && i != k ==> s'.appointments[i] == s.appointments[i])
            && s' == s.(appointments := s'.appointments)
  {
    var a := s.appointments[k].(status := status);
    OwnSlotFree(s, k, a);
    UpdateAppointmentValid(s, a);
  }

  /** The same for a notes edit: only the notes of that row change. */
  lemma SetNotesChangesOneRow(s: DbState, k: int, notes: string)
    requires Valid(s) && 0 <= k < |s.appointments|
    ensures var (s', ok) := SetNotesSpec(s, s.appointments[k].id, notes);
            && ok == Some(true) && Valid(s') && |s'.appointments| == |s.appointments|
            && s'.appointments[k] == s.appointments[k].(notes := Some(notes))
            && (forall i :: 0 <= i < |s.appointments| && i != k ==> s'.appointments[i] == s.appointments[i])
            && s' == s.(appointments := s'.appointments)
  {
    var a := s.appointments[k].(notes := Some(notes));
    OwnSlotFree(s, k, a);
    UpdateAppointmentValid(s, a);
  }

  /**
   * Cancelling from the dashboard gives the slot back to the chat bot: on a
   * valid store no active appointment holds the cancelled row's slot any more.
   */
  lemma CancelFromDashboardFreesSlot(s: DbState, k: int)
    requires Valid(s) && 0 <= k < |s.appointments|
    ensures var a := s.appointments[k];
            ActiveAt(SetStatusSpec(s, a.id, Cancelled).0.appointments, a.workerId, a.date, a.time).None?
  {
    var a := s.appointments[k];
    SetStatusChangesOneRow(s, k, Cancelled);
    var appts := SetStatusSpec(s, a.id, Cancelled).0.appointments;
    forall i | 0 <= i < |appts| ensures !(appts[i].workerId == a.workerId && appts[i].date == a.date && appts[i].time == a.time && IsActive(appts[i])) {
      if i < k {
        assert !SameSlot(s.appointments[i], s.appointments[k]);
      } else if i > k {
        assert !SameSlot(s.appointments[k], s.appointments[i]);
      }
    }
  }

  // ---------------------------------------------------------------------------
  // The service
  // ---------------------------------------------------------------------------

  class DashboardService {
    const db: Database

    constructor (db: Database)
      ensures this.db == db
    {
      this.db := db;
    }

    /**
     * BuildCalendarDaysAsync: one cell per day for 42 days from the grid's
     * Monday, counted over the grid itself.
     */
    method BuildCalendarDays(year: int, month: int, selected: Date, workerId: Option<int>, today: Date)
      returns (days: seq<CalendarDay>)
      requires InnerMonth(year, month)
      ensures days == Calendar(db.appointments, year, month, selected, today, workerId)
    {
      var first, last := FirstOfMonth(year, month), LastOfMonth(year, month);
      var start := GridStart(first);
      var counts := GridCounts(db.appointments, start, workerId);
      var current;
      if DayOfWeek(first) == 0 {
        current := first - 6;
      } else {
        current := first - (DayOfWeek(first) - 1);
      }
      days := [];
      for i := 0 to 42
        invariant |days| == i && current == start + i
        invariant forall k :: 0 <= k < i ==> days[k].date == start + k
        invariant forall k :: 0 <= k < i ==> days[k] == Cell(year, month, first, last, days[k].date, selected, today, counts)
      {
        var cell := DayCell(year, month, current, selected, today, counts);
        days := days + [cell];
        current := current + 1;
      }
      assert days == CalendarOver(year, month, first, last, start, selected, today, counts);
    }

    /** The body of the calendar loop: one CalendarDayViewModel, read with DateOnly's Day and Month. */
    method DayCell(year: int, month: int, current: Date, selected: Date, today: Date, counts: map<Date, nat>)
      returns (cell: CalendarDay)
      requires InnerMonth(year, month)
      requires FirstOfMonth(year, month) - 6 <= current <= LastOfMonth(year, month) + 14
      ensures cell == Cell(year, month, FirstOfMonth(year, month), LastOfMonth(year, month), current, selected, today, counts)
    {
      GridYmdIsDateOnly(year, month, current);
      var ymd := ToYmd(current);
      cell := CalendarDay(current, ymd.day, ymd.month == month, current == today, current == selected,
                          if current in counts then counts[current] else 0);
    }

    /** UpdateAppointmentStatusAsync */
    method UpdateAppointmentStatus(id: int, status: string) returns (ok: Option<bool>)
      modifies db
      ensures SetStatusSpec(old(db.State()), id, status) == (db.State(), ok)
    {
      var found := AppointmentById(db.appointments, id);
      if found.None? {
        return Some(false);
      }
      var saved := db.SaveAppointment(found.value.(status := status));
      ok := if saved.Some? then Some(true) else None;
    }

    /** UpdateAppointmentNotesAsync */
    method UpdateAppointmentNotes(id: int, notes: string) returns (ok: Option<bool>)
      modifies db
      ensures SetNotesSpec(old(db.State()), id, notes) == (db.State(), ok)
    {
      var found := AppointmentById(db.appointments, id);
      if found.None? {
        return Some(false);
      }
      var saved := db.SaveAppointment(found.value.(notes := Some(notes)));
      ok := if saved.Some? then Some(true) else None;
    }
  }
}
