/**
 * What the bot sends through the WhatsApp Cloud API, reduced to the kind of
 * each message, its recipient and the reply ids it offers. Message bodies,
 * titles and descriptions (Turkish, culture-formatted) are not modelled.
 */
module Messaging {
  import opened Domain
  import opened Text
  import opened Dates

  const WorkerPrefix: string := "worker_"
  const DatePrefix: string := "date_"
  const TimePrefix: string := "time_"
  const CancelPrefix: string := "cancel_"

  /** A row of an interactive list, by what it offers. */
  datatype RowId =
    | WorkerRow(workerId: int)
    | DateRow(date: Date)
    | TimeRow(time: TimeOfDay)
    | CancelRow(appointmentId: int)

  /** The id WhatsApp sends back when the row is chosen: worker_{Id}, date_{yyyy-MM-dd}, time_{HH:mm}, cancel_{Id}. */
  function RowIdText(row: RowId): (s: string)
    requires row.DateRow? ==> ValidDate(row.date)
    ensures StartsWith(s, PrefixOf(row))
    ensures forall i :: |PrefixOf(row)| <= i < |s| ==> s[i] != '_'
  {
    match row
    case WorkerRow(id) => NoUnderscoreInInt(id); WorkerPrefix + IntToString(id)
    case DateRow(date) => NoUnderscoreInDate(date); DatePrefix + FormatDate(date)
    case TimeRow(time) => NoUnderscoreInTime(time); TimePrefix + FormatTime(time)
    case CancelRow(id) => NoUnderscoreInInt(id); CancelPrefix + IntToString(id)
  }

  /** The prefix of each kind of row; each ends in the only '_' of the id. */
  function PrefixOf(row: RowId): string
  {
    match row
    case WorkerRow(_) => WorkerPrefix
    case DateRow(_) => DatePrefix
    case TimeRow(_) => TimePrefix
    case CancelRow(_) => CancelPrefix
  }

  /** Decimal renderings never contain '_'. */
  lemma NoUnderscoreInInt(n: int)
    ensures '_' !in IntToString(n)
  {
    var s := IntToString(n);
    var m: nat := if n < 0 then -n else n;
    var ds := NatToString(m);
    forall i | 0 <= i < |s| ensures s[i] != '_' {
      if n < 0 && i > 0 {
        assert s[i] == ds[i - 1];
      }
    }
  }

  /** yyyy-MM-dd renderings are digits and dashes only. */
  lemma NoUnderscoreInDate(d: Date)
    requires ValidDate(d)
    ensures '_' !in FormatDate(d)
  {
    var s := FormatDate(d);
    ParseFormatDate(d);
    forall i | 0 <= i < |s| ensures s[i] != '_' {
      if i < 4 {
        assert s[i] == s[..4][i];
      } else if 5 <= i < 7 {
        assert s[i] == s[5..7][i - 5];
      } else if 8 <= i {
        assert s[i] == s[8..][i - 8];
      }
    }
  }

  /** HH:mm renderings are digits and a colon only. */
  lemma NoUnderscoreInTime(t: TimeOfDay)
    ensures '_' !in FormatTime(t)
  {
    var s := FormatTime(t);
    ParseFormatTime(t);
    forall i | 0 <= i < |s| ensures s[i] != '_' {
      if i < 2 {
        assert s[i] == s[..2][i];
      } else if 3 <= i {
        assert s[i] == s[3..][i - 3];
      }
    }
  }

  /** Removing the prefix from an id whose tail has no '_' leaves the tail. */
  lemma StripPrefix(prefix: string, tail: string)
    requires prefix != [] && '_' in prefix && '_' !in tail
    ensures RemoveAll(prefix + tail, prefix) == tail
  {
    RemoveAllPrefix(prefix, tail);
    RemoveAllAbsent(tail, prefix, '_');
  }

  /**
   * Every row id the bot offers carries its own prefix and reads back, after the
   * handler's Replace and parse, as the value it was built from.
   */
  lemma RowIdRoundTrip(row: RowId)
    requires row.DateRow? ==> ValidDate(row.date)
    requires row.WorkerRow? ==> Int32Min <= row.workerId <= Int32Max
    requires row.CancelRow? ==> Int32Min <= row.appointmentId <= Int32Max
    ensures row.WorkerRow? ==> StartsWith(RowIdText(row), WorkerPrefix)
                               && ParseInt32(RemoveAll(RowIdText(row), WorkerPrefix)) == Some(row.workerId)
    ensures row.DateRow? ==> StartsWith(RowIdText(row), DatePrefix)
                             && ParseExactDate(RemoveAll(RowIdText(row), DatePrefix)) == Some(row.date)
    ensures row.TimeRow? ==> StartsWith(RowIdText(row), TimePrefix)
                             && ParseExactTime(RemoveAll(RowIdText(row), TimePrefix)) == Some(row.time)
    ensures row.CancelRow? ==> StartsWith(RowIdText(row), CancelPrefix)
                               && ParseInt32(RemoveAll(RowIdText(row), CancelPrefix)) == Some(row.appointmentId)
  {
    match row
    case WorkerRow(id) =>
      NoUnderscoreInInt(id);
      StripPrefix(WorkerPrefix, IntToString(id));
      ParseIntToString(id);
      assert (WorkerPrefix + IntToString(id))[..|WorkerPrefix|] == WorkerPrefix;
    case DateRow(date) =>
      NoUnderscoreInDate(date);
      StripPrefix(DatePrefix, FormatDate(date));
      ParseFormatDate(date);
      assert (DatePrefix + FormatDate(date))[..|DatePrefix|] == DatePrefix;
    case TimeRow(time) =>
      NoUnderscoreInTime(time);
      StripPrefix(TimePrefix, FormatTime(time));
      ParseFormatTime(time);
      assert (TimePrefix + FormatTime(time))[..|TimePrefix|] == TimePrefix;
    case CancelRow(id) =>
      NoUnderscoreInInt(id);
      StripPrefix(CancelPrefix, IntToString(id));
      ParseIntToString(id);
      assert (CancelPrefix + IntToString(id))[..|CancelPrefix|] == CancelPrefix;
  }

  /** The fixed text messages the handler sends, by purpose. */
  datatype TextKind =
    | Welcome
    | Help
    | NoWorkers
    | InvalidSelection
    | WorkerNotFound
    | InvalidDate
    | SelectWorkerFirst
    | NoSlots
    | InvalidTime
    | BookingError
    | SlotUnavailable
    | BookingCreated(appointmentId: int)
    | NoActiveAppointments
    | InvalidAppointment
    | AppointmentCancelled(appointmentId: int)
    | CancelFailed
    | BookingAborted
    | ChooseAnOption

  /** The interactive lists the handler sends. */
  datatype ListKind = WorkerList | DateList | TimeList | CancelList

  datatype Outbound =
    | Text(to: string, kind: TextKind)
    | List(to: string, list: ListKind, rows: seq<RowId>)
    | Buttons(to: string, buttonIds: seq<string>)
    | MarkRead(messageId: string)

  /** The WhatsApp sender, as the sequence of calls made to it. */
  class Outbox {
    var sent: seq<Outbound>

    constructor ()
      ensures sent == []
    {
      sent := [];
    }

    method Send(m: Outbound)
      modifies this
      ensures sent == old(sent) + [m]
    {
      sent := sent + [m];
    }
  }
}
