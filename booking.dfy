/**
 * The availability and booking engine of the WhatsApp bot (BookingService):
 * slot generation from a worker's weekly schedule row, removal of booked and
 * past slots, appointment creation with its "not in the past" and "slot free"
 * guards, cancellation by the owning user, and user lookup-or-create.
 * "Now" is passed in as a day number and a second of that day.
 */
module Booking {
  import opened Domain
  import opened Text
  import opened Seqs
  import opened Repositories
  import opened Store

  const SlotDurationKey: string := "slot_duration_minutes"
  const DefaultSlotDuration: int := 60

  /** The configured slot length: the value stored under slot_duration_minutes when int.TryParse accepts it, else 60. */
  function SlotDuration(configs: seq<BusinessConfig>): (d: int)
    ensures ConfigByKey(configs, SlotDurationKey).None? ==> d == DefaultSlotDuration
    ensures ConfigByKey(configs, SlotDurationKey).Some? ==>
              d == match ParseInt32(ConfigByKey(configs, SlotDurationKey).value.value)
                   case Some(n) => n
                   case None => DefaultSlotDuration
  {
    match ConfigByKey(configs, SlotDurationKey)
    case None => DefaultSlotDuration
    case Some(c) =>
      match ParseInt32(c.value)
      case Some(n) => n
      case None => DefaultSlotDuration
  }

  /** A configuration row holding the decimal text of an Int32 sets the slot length to that number. */
  lemma SlotDurationOfConfig(configs: seq<BusinessConfig>, k: int, n: int)
    requires 0 <= k < |configs| && configs[k] == BusinessConfig(SlotDurationKey, IntToString(n))
    requires forall i :: 0 <= i < k ==> configs[i].key != SlotDurationKey
    requires Int32Min <= n <= Int32Max
    ensures SlotDuration(configs) == n
  {
    FirstWhereUnique(configs[..k + 1], (c: BusinessConfig) => c.key == SlotDurationKey, k);
    assert ConfigByKey(configs, SlotDurationKey) == Some(configs[k]);
    ParseIntToString(n);
  }

  /** The time the slot loop holds after i steps: TimeOnly.AddMinutes(d) wraps modulo a day. */
  function Visit(start: TimeOfDay, d: int, i: nat): TimeOfDay
  {
    (start + i * d) % MinutesPerDay
  }

  /**
   * The slot loop run from `current` for at most `fuel` more steps: the times
   * appended until the current time is no longer below `end`, or None when the
   * loop is still running after those steps.
   */
  function Walk(current: TimeOfDay, end: TimeOfDay, d: int, fuel: nat): Option<seq<TimeOfDay>>
    decreases fuel
  {
    if current >= end then Some([])
    else if fuel == 0 then None
    else
      match Walk((current + d) % MinutesPerDay, end, d, fuel - 1)
      case None => None
      case Some(rest) => Some([current] + rest)
  }

  /** The slots the loop appends, or None when it never ends (LoopSlotsMeaning). */
  function LoopSlots(start: TimeOfDay, end: TimeOfDay, d: int): Option<seq<TimeOfDay>>
  {
    Walk(start, end, d, MinutesPerDay)
  }

  /** Adding whole days does not move a time of day. */
  lemma ModDays(x: int, q: int)
    ensures (x + q * MinutesPerDay) % MinutesPerDay == x % MinutesPerDay
  {
  }

  lemma VisitNext(start: TimeOfDay, d: int, i: nat)
    ensures Visit(start, d, 0) == start
    ensures Visit(start, d, i + 1) == (Visit(start, d, i) + d) % MinutesPerDay
  {
    var a := start + i * d;
    assert (i + 1) * d == i * d + d;
    ModDays(a % MinutesPerDay + d, a / MinutesPerDay);
  }

  /** The loop's time repeats every 1440 steps. */
  lemma VisitPeriodic(start: TimeOfDay, d: int, i: nat)
    ensures Visit(start, d, i) == Visit(start, d, i % MinutesPerDay)
  {
    var q := i / MinutesPerDay;
    var r := i % MinutesPerDay;
    assert i * d == r * d + (q * d) * MinutesPerDay by {
      assert i == q * MinutesPerDay + r;
      assert i * d == (q * MinutesPerDay) * d + r * d;
      assert (q * MinutesPerDay) * d == (q * d) * MinutesPerDay;
    }
  }

  /** A walk from the time after k steps: it is still running exactly when every time it visits is below end; when it ends, it appends the times it visited. */
  lemma {:induction false} WalkFrom(start: TimeOfDay, end: TimeOfDay, d: int, k: nat, fuel: nat)
    ensures Walk(Visit(start, d, k), end, d, fuel).None? <==>
            forall i :: k <= i <= k + fuel ==> Visit(start, d, i) < end
    ensures Walk(Visit(start, d, k), end, d, fuel).Some? ==>
              var r := Walk(Visit(start, d, k), end, d, fuel).value;
              (forall j :: 0 <= j < |r| ==> r[j] == Visit(start, d, k + j) && r[j] < end)
              && Visit(start, d, k + |r|) >= end
    decreases fuel
  {
    VisitNext(start, d, k);
    if Visit(start, d, k) < end && fuel > 0 {
      WalkFrom(start, end, d, k + 1, fuel - 1);
      var w := Walk(Visit(start, d, k + 1), end, d, fuel - 1);
      if w.Some? {
        var r := Walk(Visit(start, d, k), end, d, fuel).value;
        assert r == [Visit(start, d, k)] + w.value;
        forall j | 0 <= j < |r| ensures r[j] == Visit(start, d, k + j) && r[j] < end {
          if j > 0 {
            assert r[j] == w.value[j - 1];
          }
        }
        assert k + |r| == k + 1 + |w.value|;
      }
    }
  }

  /**
   * The loop ends exactly when some visited time is not below end, and then
   * the slots are the times visited before the first such one: start,
   * start + d, ... each wrapped at midnight. Otherwise it runs forever.
   */
  lemma LoopSlotsMeaning(start: TimeOfDay, end: TimeOfDay, d: int)
    ensures LoopSlots(start, end, d).None? <==> forall i: nat :: Visit(start, d, i) < end
    ensures LoopSlots(start, end, d).Some? ==>
              var r := LoopSlots(start, end, d).value;
              (forall j :: 0 <= j < |r| ==> r[j] == Visit(start, d, j) && r[j] < end)
              && Visit(start, d, |r|) >= end
  {
    VisitNext(start, d, 0);
    WalkFrom(start, end, d, 0, MinutesPerDay);
    if LoopSlots(start, end, d).None? {
      forall i: nat ensures Visit(start, d, i) < end {
        VisitPeriodic(start, d, i);
      }
    }
  }

  /** A zero slot length on a working row never leaves the loop. */
  lemma ZeroLengthNeverEnds(start: TimeOfDay, end: TimeOfDay)
    requires start < end
    ensures LoopSlots(start, end, 0).None?
  {
    LoopSlotsMeaning(start, end, 0);
  }

  /** A 22:00 to 23:30 row with hour-long slots wraps past midnight at every turn and never ends. */
  lemma WrappingLoopNeverEnds()
    ensures LoopSlots(1320, 1410, 60).None?
  {
    forall i: nat ensures Visit(1320, 60, i) < 1410 {
      var k := 22 + i;
      var r := 60 * (k % 24);
      assert k == 24 * (k / 24) + k % 24;
      assert 1320 + i * 60 == r + (k / 24) * MinutesPerDay;
      ModDays(r, k / 24);
      assert r % MinutesPerDay == r;
    }
    LoopSlotsMeaning(1320, 1410, 60);
  }

  /**
   * No step of the loop passes midnight: each time below end is followed by
   * a time still within the day. Then the loop ends without wrapping.
   */
  predicate LoopBounded(start: TimeOfDay, end: TimeOfDay, d: int)
    decreases end - start
  {
    start >= end || (d > 0 && start + d < MinutesPerDay && LoopBounded(start + d, end, d))
  }

  /** The slots of a loop that never wraps: start, start+d, start+2d, ... while below end. */
  function CandidateSlots(start: TimeOfDay, end: TimeOfDay, d: int): (r: seq<TimeOfDay>)
    requires LoopBounded(start, end, d)
    ensures forall i :: 0 <= i < |r| ==> start <= r[i] < end
    decreases end - start
  {
    if start >= end then [] else [start] + CandidateSlots(start + d, end, d)
  }

  /** There are ceil((end - start) / d) candidates: n of them with (n - 1) * d < end - start <= n * d. */
  lemma {:induction false} CandidateSlotsCount(start: TimeOfDay, end: TimeOfDay, d: int)
    requires LoopBounded(start, end, d)
    ensures start >= end ==> CandidateSlots(start, end, d) == []
    ensures start < end ==> (|CandidateSlots(start, end, d)| - 1) * d < end - start <= |CandidateSlots(start, end, d)| * d
    decreases end - start
  {
    if start < end {
      var n := |CandidateSlots(start + d, end, d)|;
      CandidateSlotsCount(start + d, end, d);
      assert (n + 1) * d == n * d + d;
    }
  }

  /** Each candidate is a distinct minute of [start, end), so there are at most end - start of them. */
  lemma {:induction false} CandidateSlotsFewerThanMinutes(start: TimeOfDay, end: TimeOfDay, d: int)
    requires LoopBounded(start, end, d)
    ensures |CandidateSlots(start, end, d)| <= if start < end then end - start else 0
    decreases end - start
  {
    if start < end {
      CandidateSlotsFewerThanMinutes(start + d, end, d);
    }
  }

  /** The i-th candidate is start + i*d. */
  lemma {:induction false} CandidateSlotsStep(start: TimeOfDay, end: TimeOfDay, d: int)
    requires LoopBounded(start, end, d)
    ensures forall i :: 0 <= i < |CandidateSlots(start, end, d)| ==> CandidateSlots(start, end, d)[i] == start + i * d
    decreases end - start
  {
    if start < end {
      var r := CandidateSlots(start, end, d);
      var t := CandidateSlots(start + d, end, d);
      CandidateSlotsStep(start + d, end, d);
      forall i | 0 <= i < |r| ensures r[i] == start + i * d {
        if i > 0 {
          assert r[i] == t[i - 1] == start + d + (i - 1) * d;
        }
      }
    }
  }

  /** A loop that never wraps runs to the candidate slots. */
  lemma {:induction false} WalkWithoutWrap(start: TimeOfDay, end: TimeOfDay, d: int, fuel: nat)
    requires LoopBounded(start, end, d) && fuel >= |CandidateSlots(start, end, d)|
    ensures Walk(start, end, d, fuel) == Some(CandidateSlots(start, end, d))
    decreases end - start
  {
    if start < end {
      WalkWithoutWrap(start + d, end, d, fuel - 1);
    }
  }

  lemma LoopSlotsWithoutWrap(start: TimeOfDay, end: TimeOfDay, d: int)
    requires LoopBounded(start, end, d)
    ensures LoopSlots(start, end, d) == Some(CandidateSlots(start, end, d))
  {
    CandidateSlotsFewerThanMinutes(start, end, d);
    WalkWithoutWrap(start, end, d, MinutesPerDay);
  }

  /** The loop never wraps exactly when the step after the last candidate, start + ceil((end - start) / d) * d, is still within the day. */
  lemma {:induction false} LoopBoundedExactly(start: TimeOfDay, end: TimeOfDay, d: int)
    requires start < end && d > 0
    ensures LoopBounded(start, end, d) <==> start + ((end - start + d - 1) / d) * d < MinutesPerDay
    decreases end - start
  {
    var n := (end - start + d - 1) / d;
    if start + d >= end {
      assert n == 1 by {
        DivisionBetween(end - start + d - 1, d, 1);
      }
    } else {
      LoopBoundedExactly(start + d, end, d);
      var m := (end - (start + d) + d - 1) / d;
      assert n == m + 1 by {
        DivisionBetween(end - start + d - 1, d, m + 1);
      }
      assert start + n * d == (start + d) + m * d;
    }
  }

  /** q is y / d when q * d <= y < (q + 1) * d. */
  lemma DivisionBetween(y: int, d: int, q: int)
    requires d > 0 && y - d < q * d <= y
    ensures y / d == q
  {
    var k := y / d;
    assert y == k * d + y % d;
    assert (k + 1) * d == k * d + d && (q + 1) * d == q * d + d;
    MulOrder(k, q + 1, d);
    MulOrder(q, k + 1, d);
  }

  lemma MulOrder(a: int, b: int, d: int)
    requires d > 0
    ensures a * d < b * d <==> a < b
  {
    assert b * d - a * d == (b - a) * d;
  }

  /** A 09:00 to 18:00 working day with hour-long slots offers nine slots, 09:00 to 17:00; 10:00 to 23:30 with 45-minute slots ends exactly at 23:30 without wrapping. */
  lemma NineToSixHourly()
    ensures |CandidateSlots(540, 1080, 60)| == 9
    ensures CandidateSlots(540, 1080, 60)[0] == 540 && CandidateSlots(540, 1080, 60)[8] == 1020
    ensures LoopSlots(540, 1080, 60) == Some(CandidateSlots(540, 1080, 60))
    ensures LoopBounded(600, 1410, 45) && |CandidateSlots(600, 1410, 45)| == 18
  {
    LoopBoundedExactly(540, 1080, 60);
    CandidateSlotsCount(540, 1080, 60);
    CandidateSlotsStep(540, 1080, 60);
    LoopSlotsWithoutWrap(540, 1080, 60);
    LoopBoundedExactly(600, 1410, 45);
    CandidateSlotsCount(600, 1410, 45);
  }

  /** The slot loop: appends the current time, then advances it with a wrapping AddMinutes. */
  method GenerateSlots(start: TimeOfDay, end: TimeOfDay, d: int) returns (slots: seq<TimeOfDay>)
    requires LoopSlots(start, end, d).Some?
    ensures slots == LoopSlots(start, end, d).value
  {
    slots := [];
    var current: TimeOfDay := start;
    ghost var fuel: nat := MinutesPerDay;
    while current < end
      invariant Walk(current, end, d, fuel).Some?
      invariant slots + Walk(current, end, d, fuel).value == LoopSlots(start, end, d).value
      decreases fuel
    {
      assert Walk(current, end, d, fuel).value == [current] + Walk((current + d) % MinutesPerDay, end, d, fuel - 1).value;
      slots := slots + [current];
      current := (current + d) % MinutesPerDay;
      fuel := fuel - 1;
    }
  }

  /**
   * The minute remainder C#'s `%` gives for a non-negative minute and a
   * non-zero length: it truncates toward zero, so the sign of the length does
   * not matter.
   */
  function MinuteRemainder(minute: nat, d: int): (r: nat)
    requires d != 0
    ensures r < (if d > 0 then d else -d)
  {
    minute % (if d > 0 then d else -d)
  }

  /**
   * The "today" cutoff exactly as the service computes it, in seconds since
   * midnight: the minute-of-hour remainder is added to the full clock reading,
   * seconds included, and the addition wraps at midnight. A zero length
   * divides by zero instead, so it is excluded here.
   */
  function CutoffAsWritten(nowSec: SecondOfDay, d: int): (c: SecondOfDay)
    requires d != 0
    ensures MinuteRemainder(nowSec / 60 % 60, d) == 0 ==> c == nowSec
  {
    var remainder := MinuteRemainder(nowSec / 60 % 60, d);
    if remainder != 0 then (nowSec + (d - remainder) * 60) % SecondsPerDay else nowSec
  }

  /** Whether the service as written keeps a free slot of today. */
  predicate KeptAsWritten(nowSec: SecondOfDay, d: int, slot: TimeOfDay)
    requires d != 0
  {
    slot * 60 >= CutoffAsWritten(nowSec, d)
  }

  /**
   * The cutoff the rounding is meant to produce, in minutes: the clock reading
   * rounded up to a whole minute, then moved by the same remainder rule to the
   * next minute-of-hour that is a multiple of d, without wrapping past
   * midnight. For a positive d it never lies before the clock and is less
   * than one slot after it; a negative d moves it backwards.
   */
  function Cutoff(nowSec: SecondOfDay, d: int): (c: int)
    requires d != 0
    ensures d > 0 ==> nowSec <= c * 60 && c < (nowSec + 59) / 60 + d
    ensures d < 0 ==> c <= (nowSec + 59) / 60
  {
    var nowMin := (nowSec + 59) / 60;
    var remainder := MinuteRemainder(nowMin % 60, d);
    if remainder != 0 then nowMin + (d - remainder) else nowMin
  }

  /** 10:15 with hour slots keeps only the slots from 11:00 on, whether or not the clock shows seconds. */
  lemma CutoffRoundsToNextHour()
    ensures Cutoff(36900, 60) == 660 && Cutoff(36930, 60) == 660
  {
  }

  /**
   * The cutoff as written drops a future boundary slot when the clock shows
   * seconds, and keeps already-passed slots when the rounding crosses midnight.
   */
  lemma CutoffAsWrittenCounterexamples()
    ensures 660 * 60 > 36930 && !KeptAsWritten(36930, 60, 660) && Cutoff(36930, 60) <= 660
    ensures 540 * 60 < 84600 && KeptAsWritten(84600, 60, 540) && Cutoff(84600, 60) > 540
  {
  }

  /** Ordering key of OrderBy(t => t) on times. */
  function SlotKey(t: TimeOfDay): seq<int>
  {
    [t]
  }

  /** An active appointment holds (worker, date, t). */
  predicate Booked(appts: seq<Appointment>, workerId: int, date: Date, t: TimeOfDay)
  {
    exists a :: a in appts && a.workerId == workerId && a.date == date && a.time == t && IsActive(a)
  }

  /** The times of the worker's active appointments on the date. */
  function BookedTimes(appts: seq<Appointment>, workerId: int, date: Date): (r: seq<TimeOfDay>)
    ensures forall t :: t in r <==> Booked(appts, workerId, date, t)
  {
    var f := ActiveOfWorkerOn(appts, workerId, date);
    var r := seq(|f|, i requires 0 <= i < |f| => f[i].time);
    assert forall t :: Booked(appts, workerId, date, t) ==> t in r by {
      forall t | Booked(appts, workerId, date, t) ensures t in r {
        var a :| a in appts && a.workerId == workerId && a.date == date && a.time == t && IsActive(a);
        assert a in f;
        var i :| 0 <= i < |f| && f[i] == a;
        assert r[i] == t;
      }
    }
    r
  }

  /**
   * A slot the bot may offer: a time the slot loop of the worker's working
   * row appends, not booked, and not before the cutoff when the date is today.
   */
  function IsAvailable(s: DbState, workerId: int, date: Date, today: Date, nowSec: SecondOfDay, t: TimeOfDay): (b: bool)
    ensures b ==> WorkingScheduleFor(s.schedules, workerId, DayOfWeek(date)).Some?
    ensures b ==> SlotsComputable(s, workerId, date, today) && !Booked(s.appointments, workerId, date, t)
  {
    var d := SlotDuration(s.configs);
    match WorkingScheduleFor(s.schedules, workerId, DayOfWeek(date))
    case None => false
    case Some(row) =>
      match LoopSlots(row.startTime, row.endTime, d)
      case None => false
      case Some(all) =>
        t in all && !Booked(s.appointments, workerId, date, t)
        && (date == today ==> d != 0 && t >= Cutoff(nowSec, d))
  }

  /**
   * GetAvailableTimeSlotsForWorkerAsync returns: the worker has no working row
   * for the day, or its slot loop ends and, on today, the slot length is not
   * zero (the remainder would divide by zero).
   */
  predicate SlotsComputable(s: DbState, workerId: int, date: Date, today: Date)
  {
    var d := SlotDuration(s.configs);
    match WorkingScheduleFor(s.schedules, workerId, DayOfWeek(date))
    case None => true
    case Some(row) => LoopSlots(row.startTime, row.endTime, d).Some? && (date == today ==> d != 0)
  }

  /** The filters and the ordering after the slot loop: drop booked times, drop past times on today, sort ascending. */
  function SelectAvailable(all: seq<TimeOfDay>, booked: seq<TimeOfDay>, date: Date, today: Date, nowSec: SecondOfDay, d: int): (r: seq<TimeOfDay>)
    requires date == today ==> d != 0
    ensures forall t :: t in r <==> t in all && t !in booked && (date == today ==> t >= Cutoff(nowSec, d))
    ensures SortedBy(r, SlotKey)
  {
    var free := (t: TimeOfDay) => t !in booked;
    var notPast := (t: TimeOfDay) => date != today || t >= Cutoff(nowSec, d);
    var available := Filter(all, free);
    FilterMembers(all, free);
    var kept := if date == today then Filter(available, notPast) else available;
    FilterMembers(available, notPast);
    SortByMembers(kept, SlotKey);
    SortBy(kept, SlotKey)
  }

  /**
   * GetAvailableTimeSlotsForWorkerAsync: None when the service never returns
   * (its slot loop never ends, or it divides by zero); nothing when the worker
   * has no working row for the date's day of week; otherwise exactly the
   * available slots, in ascending order.
   */
  function AvailableSlots(s: DbState, workerId: int, date: Date, today: Date, nowSec: SecondOfDay): (r: Option<seq<TimeOfDay>>)
    ensures r.Some? <==> SlotsComputable(s, workerId, date, today)
    ensures WorkingScheduleFor(s.schedules, workerId, DayOfWeek(date)).None? ==> r == Some([])
    ensures r.Some? ==> (forall t :: t in r.value <==> IsAvailable(s, workerId, date, today, nowSec, t))
                        && SortedBy(r.value, SlotKey)
  {
    match WorkingScheduleFor(s.schedules, workerId, DayOfWeek(date))
    case None => Some([])
    case Some(row) =>
      var d := SlotDuration(s.configs);
      match LoopSlots(row.startTime, row.endTime, d)
      case None => None
      case Some(all) =>
        if date == today && d == 0 then None
        else Some(SelectAvailable(all, BookedTimes(s.appointments, workerId, date), date, today, nowSec, d))
  }

  /**
   * No offered slot is held by an active appointment, and on today with a
   * positive slot length no offered slot lies before the clock.
   */
  lemma AvailableSlotsAreFree(s: DbState, workerId: int, date: Date, today: Date, nowSec: SecondOfDay, t: TimeOfDay)
    requires AvailableSlots(s, workerId, date, today, nowSec).Some?
    requires t in AvailableSlots(s, workerId, date, today, nowSec).value
    ensures ActiveAt(s.appointments, workerId, date, t).None?
    ensures date == today && SlotDuration(s.configs) > 0 ==> t * 60 >= nowSec
  {
    assert IsAvailable(s, workerId, date, today, nowSec, t);
    if ActiveAt(s.appointments, workerId, date, t).Some? {
      assert Booked(s.appointments, workerId, date, t);
    }
  }

  /** The user who owns a phone number, creating it when absent and filling in a missing name. */
  function GetOrCreateUserSpec(s: DbState, phone: string, name: Option<string>): (r: (DbState, User))
    ensures r.1.phoneNumber == phone
    ensures r.0 == s.(users := r.0.users, nextUserId := r.0.nextUserId)
    ensures UserByPhone(s.users, phone).None? ==> r.1 == User(s.nextUserId, phone, name)
                                                  && r.0 == s.(users := s.users + [r.1], nextUserId := s.nextUserId + 1)
    ensures UserByPhone(s.users, phone).Some? ==>
              var u := UserByPhone(s.users, phone).value;
              var fill := !IsNullOrEmpty(name) && IsNullOrEmpty(u.name);
              r.1 == (if fill then u.(name := name) else u)
              && r.0 == (if fill then RenameUser(s, u.id, name) else s)
  {
    match UserByPhone(s.users, phone)
    case None =>
      var saved := InsertUser(s, phone, name);
      (saved.state, saved.result.value)
    case Some(u) =>
      if !IsNullOrEmpty(name) && IsNullOrEmpty(u.name) then (RenameUser(s, u.id, name), u.(name := name))
      else (s, u)
  }

  /** Afterwards the returned user is the one stored under the phone number, and the store is still valid. */
  lemma GetOrCreateUserStores(s: DbState, phone: string, name: Option<string>)
    requires Valid(s)
    ensures Valid(GetOrCreateUserSpec(s, phone, name).0)
    ensures UserByPhone(GetOrCreateUserSpec(s, phone, name).0.users, phone) == Some(GetOrCreateUserSpec(s, phone, name).1)
  {
    var (s', u) := GetOrCreateUserSpec(s, phone, name);
    match UserByPhone(s.users, phone)
    case None =>
      InsertUserValid(s, phone, name);
      FirstWhereUnique(s'.users, (x: User) => x.phoneNumber == phone, |s.users|);
    case Some(old_u) =>
      var k :| 0 <= k < |s.users| && s.users[k] == old_u;
      if !IsNullOrEmpty(name) && IsNullOrEmpty(old_u.name) {
        RenameUserValid(s, old_u.id, name);
        assert s'.users[k] == u;
      }
      FirstWhereUnique(s'.users, (x: User) => x.phoneNumber == phone, k);
  }

  /** A second call with the same arguments returns the same user and changes nothing. */
  lemma GetOrCreateUserIdempotent(s: DbState, phone: string, name: Option<string>)
    requires Valid(s)
    ensures var (s1, u1) := GetOrCreateUserSpec(s, phone, name);
            GetOrCreateUserSpec(s1, phone, name) == (s1, u1)
  {
    GetOrCreateUserStores(s, phone, name);
  }

  /** The active worker with that id, or None when it is unknown or inactive. */
  function ActiveWorkerById(workers: seq<Worker>, id: int): (r: Option<Worker>)
    ensures r.Some? ==> r.value in workers && r.value.id == id && r.value.isActive
    ensures (forall i :: 0 <= i < |workers| ==> !(workers[i].id == id && workers[i].isActive)) ==> r.None?
  {
    match WorkerById(workers, id)
    case Some(w) => if w.isActive then Some(w) else None
    case None => None
  }

  /** With unique worker ids, an unknown or inactive worker is exactly when the lookup gives None. */
  lemma ActiveWorkerByIdNone(workers: seq<Worker>, id: int)
    requires forall i, j :: 0 <= i < j < |workers| ==> workers[i].id != workers[j].id
    ensures ActiveWorkerById(workers, id).None? <==> forall i :: 0 <= i < |workers| ==> !(workers[i].id == id && workers[i].isActive)
  {
    if ActiveWorkerById(workers, id).None? {
      forall i | 0 <= i < |workers| ensures !(workers[i].id == id && workers[i].isActive) {
        if workers[i].id == id {
          FirstWhereUnique(workers, (w: Worker) => w.id == id, i);
        }
      }
    }
  }

  /** The requested start lies strictly after the clock, counted in seconds from day 0. */
  function InFuture(date: Date, time: TimeOfDay, today: Date, nowSec: SecondOfDay): (b: bool)
    ensures b <==> today * 86400 + nowSec < date * 86400 + time * 60
  {
    date > today || (date == today && time * 60 > nowSec)
  }

  /** The appointment CreateAppointmentAsync builds: pending, 60 minutes, no notes and no service row. */
  function NewBooking(userId: int, workerId: int, date: Date, time: TimeOfDay, serviceType: Option<string>): (r: Appointment)
    ensures IsActive(r) && r.userId == userId && r.workerId == workerId && r.date == date && r.time == time
  {
    Appointment(0, userId, workerId, date, time, 60, Pending, serviceType, None, None)
  }

  /**
   * CreateAppointmentAsync: rejected (None, nothing added) for a past start or
   * a slot an active appointment holds; otherwise the insert, which the unique
   * index still rejects when a cancelled appointment occupies the slot, and the
   * foreign keys when the user or the worker has no row.
   */
  function CreateAppointmentSpec(s: DbState, userId: int, workerId: int, date: Date, time: TimeOfDay,
                                 serviceType: Option<string>, today: Date, nowSec: SecondOfDay): (r: Saved<Appointment>)
    ensures !InFuture(date, time, today, nowSec) ==> r == Saved(s, None)
    ensures ActiveAt(s.appointments, workerId, date, time).Some? ==> r == Saved(s, None)
    ensures !HasUser(s.users, userId) || !HasWorker(s.workers, workerId) ==> r == Saved(s, None)
    ensures r.result.None? ==> r.state == s
    ensures r.result.Some? ==> InFuture(date, time, today, nowSec)
                               && r.result.value == NewBooking(userId, workerId, date, time, serviceType).(id := s.nextAppointmentId)
                               && r.state.appointments == s.appointments + [r.result.value]
                               && r.state == s.(appointments := r.state.appointments, nextAppointmentId := s.nextAppointmentId + 1)
  {
    if !InFuture(date, time, today, nowSec) then Saved(s, None)
    else if ActiveAt(s.appointments, workerId, date, time).Some? then Saved(s, None)
    else InsertAppointment(s, NewBooking(userId, workerId, date, time, serviceType))
  }

  /** A free slot whose earlier appointment was cancelled still cannot be booked again: the index ignores the status. */
  lemma CreateOverCancelledFails(s: DbState, userId: int, workerId: int, date: Date, time: TimeOfDay,
                                 serviceType: Option<string>, today: Date, nowSec: SecondOfDay, k: int)
    requires 0 <= k < |s.appointments|
    requires s.appointments[k].workerId == workerId && s.appointments[k].date == date && s.appointments[k].time == time
    ensures CreateAppointmentSpec(s, userId, workerId, date, time, serviceType, today, nowSec).result.None?
  {
  }

  /**
   * A future request of an existing user for a slot of an existing worker that
   * no appointment occupies adds exactly the new pending appointment, and the
   * store stays valid.
   */
  lemma CreateAppointmentSucceeds(s: DbState, userId: int, workerId: int, date: Date, time: TimeOfDay,
                                  serviceType: Option<string>, today: Date, nowSec: SecondOfDay)
    requires Valid(s) && HasUser(s.users, userId) && HasWorker(s.workers, workerId)
    requires InFuture(date, time, today, nowSec) && !SlotTaken(s.appointments, workerId, date, time)
    ensures CreateAppointmentSpec(s, userId, workerId, date, time, serviceType, today, nowSec).result.Some?
    ensures Valid(CreateAppointmentSpec(s, userId, workerId, date, time, serviceType, today, nowSec).state)
  {
    InsertAppointmentValid(s, NewBooking(userId, workerId, date, time, serviceType));
  }

  /**
   * A worker deleted while a customer is still confirming: the booking for that
   * worker then fails on the worker foreign key and the store is left as the
   * delete made it.
   */
  lemma BookingForDeletedWorkerFails(s: DbState, userId: int, workerId: int, date: Date, time: TimeOfDay,
                                     serviceType: Option<string>, today: Date, nowSec: SecondOfDay)
    ensures var s' := DeleteWorker(s, workerId);
            CreateAppointmentSpec(s', userId, workerId, date, time, serviceType, today, nowSec) == Saved(s', None)
  {
    var s' := DeleteWorker(s, workerId);
    assert forall w :: w in s'.workers ==> w.id != workerId;
  }

  /** Whatever the outcome, creating an appointment keeps the store's unique indexes, id counters and foreign keys. */
  lemma CreateAppointmentKeepsValid(s: DbState, userId: int, workerId: int, date: Date, time: TimeOfDay,
                                    serviceType: Option<string>, today: Date, nowSec: SecondOfDay)
    requires Valid(s)
    ensures Valid(CreateAppointmentSpec(s, userId, workerId, date, time, serviceType, today, nowSec).state)
  {
    InsertAppointmentValid(s, NewBooking(userId, workerId, date, time, serviceType));
  }

  /** CancelAppointmentAsync: the appointment with that id belonging to that user becomes cancelled; false when there is none. */
  function CancelAppointmentSpec(s: DbState, userId: int, appointmentId: int): (r: (DbState, bool))
    ensures !r.1 ==> r.0 == s
    ensures (forall i :: 0 <= i < |s.appointments| ==>
               !(s.appointments[i].id == appointmentId && s.appointments[i].userId == userId)) ==> r == (s, false)
    ensures r.0 == s.(appointments := r.0.appointments)
  {
    match FirstWhere(s.appointments, (a: Appointment) => a.id == appointmentId && a.userId == userId)
    case None => (s, false)
    case Some(a) =>
      var saved := UpdateAppointment(s, a.(status := Cancelled));
      (saved.state, saved.result.Some?)
  }

  /**
   * On a valid store, cancelling an appointment of the user succeeds (also when
   * it is already cancelled): that row's status becomes "cancelled" and every
   * other row is unchanged.
   */
  lemma CancelAppointmentChangesOnlyThatRow(s: DbState, userId: int, k: int)
    requires Valid(s)
    requires 0 <= k < |s.appointments| && s.appointments[k].userId == userId
    ensures var (s', ok) := CancelAppointmentSpec(s, userId, s.appointments[k].id);
            ok && |s'.appointments| == |s.appointments|
            && s'.appointments[k] == s.appointments[k].(status := Cancelled)
            && forall i :: 0 <= i < |s.appointments| && i != k ==> s'.appointments[i] == s.appointments[i]
  {
    var a := s.appointments[k];
    FirstWhereUnique(s.appointments, (x: Appointment) => x.id == a.id && x.userId == userId, k);
  }

  /** Cancelling keeps the store's unique indexes, id counters and foreign keys. */
  lemma CancelAppointmentKeepsValid(s: DbState, userId: int, appointmentId: int)
    requires Valid(s)
    ensures Valid(CancelAppointmentSpec(s, userId, appointmentId).0)
  {
    var m := FirstWhere(s.appointments, (a: Appointment) => a.id == appointmentId && a.userId == userId);
    if m.Some? {
      UpdateAppointmentValid(s, m.value.(status := Cancelled));
    }
  }

  class BookingService {
    const db: Database

    constructor (db: Database)
      ensures this.db == db
    {
      this.db := db;
    }

    method GetOrCreateUser(phone: string, name: Option<string>) returns (user: User)
      modifies db
      ensures (db.State(), user) == GetOrCreateUserSpec(old(db.State()), phone, name)
    {
      var existing := UserByPhone(db.users, phone);
      if existing.None? {
        var saved := db.AddUser(phone, name);
        user := saved.value;
      } else {
        user := existing.value;
        if !IsNullOrEmpty(name) && IsNullOrEmpty(user.name) {
          user := user.(name := name);
          db.SetUserName(user.id, name);
        }
      }
    }

    method GetAvailableTimeSlotsForWorker(workerId: int, date: Date, today: Date, nowSec: SecondOfDay)
      returns (slots: seq<TimeOfDay>)
      requires AvailableSlots(db.State(), workerId, date, today, nowSec).Some?
      ensures slots == AvailableSlots(db.State(), workerId, date, today, nowSec).value
    {
      var schedule := WorkingScheduleFor(db.schedules, workerId, DayOfWeek(date));
      if schedule.None? {
        return [];
      }
      var d := SlotDuration(db.configs);
      var all := GenerateSlots(schedule.value.startTime, schedule.value.endTime, d);
      var booked := BookedTimes(db.appointments, workerId, date);
      slots := SelectAvailable(all, booked, date, today, nowSec, d);
    }

    method CreateAppointment(userId: int, workerId: int, date: Date, time: TimeOfDay, serviceType: Option<string>,
                             today: Date, nowSec: SecondOfDay) returns (created: Option<Appointment>)
      modifies db
      ensures CreateAppointmentSpec(old(db.State()), userId, workerId, date, time, serviceType, today, nowSec)
              == Saved(db.State(), created)
    {
      if date < today || (date == today && time * 60 <= nowSec) {
        return None;
      }
      var existing := ActiveAt(db.appointments, workerId, date, time);
      if existing.Some? {
        return None;
      }
      created := db.AddAppointment(NewBooking(userId, workerId, date, time, serviceType));
    }

    method CancelAppointment(userId: int, appointmentId: int) returns (ok: bool)
      modifies db
      ensures CancelAppointmentSpec(old(db.State()), userId, appointmentId) == (db.State(), ok)
    {
      var appointment := FirstWhere(db.appointments, (a: Appointment) => a.id == appointmentId && a.userId == userId);
      if appointment.None? {
        return false;
      }
      var saved := db.SaveAppointment(appointment.value.(status := Cancelled));
      ok := saved.Some?;
    }
  }
}
