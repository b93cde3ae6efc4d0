/** The date and time set_schedule registers the periodic backup for. Days
    are whole numbers counted from a day whose weekday is 0, so a day's
    weekday is the day modulo 7; times are seconds, in the blog's time zone
    unless they are called server times. */
module Schedule {
  import opened Common

  const DaySeconds: int := 86400

  function Weekday(day: int): int
  {
    day % 7
  }

  /** strtotime("next $day"): the first day after `today` with the target
      weekday. */
  function NextWeekday(today: int, target: int): (d: int)
    requires 0 <= target < 7
    ensures today < d <= today + 7 && Weekday(d) == target
    ensures forall k :: today < k < d ==> Weekday(k) != target
  {
    var off := (target - Weekday(today)) % 7;
    var d := if off == 0 then today + 7 else today + off;
    assert Weekday(d) == target by {
      assert (today + off) % 7 == (today % 7 + off) % 7;
    }
    d
  }

  /** The day set_schedule picks: the next day with the target weekday when
      today has another weekday; today when the weekday matches and the
      target hour is still ahead; otherwise the same weekday a week later. */
  function RunDay(today: int, nowHour: int, target: int, targetHour: int): int
    requires 0 <= target < 7
  {
    if Weekday(today) != target then NextWeekday(today, target)
    else if targetHour <= nowHour then today + 7
    else today
  }

  /** The run day has the chosen weekday, lies within the coming week, is
      today exactly when the weekday matches and the hour is still ahead,
      and no earlier day from tomorrow on has the chosen weekday. */
  lemma RunDaySpec(today: int, nowHour: int, target: int, targetHour: int)
    requires 0 <= target < 7
    ensures var d := RunDay(today, nowHour, target, targetHour);
      && Weekday(d) == target
      && today <= d <= today + 7
      && (d == today <==> Weekday(today) == target && targetHour > nowHour)
      && (d == today + 7 <==> Weekday(today) == target && targetHour <= nowHour)
      && (forall k :: today < k < d ==> Weekday(k) != target)
  {
    var d := RunDay(today, nowHour, target, targetHour);
    if Weekday(today) == target && targetHour <= nowHour {
      forall k | today < k < d ensures Weekday(k) != target {
        assert (k - today) % 7 != 0;
        assert k % 7 == (today % 7 + (k - today) % 7) % 7;
      }
    }
  }

  /** The day set_schedule picks as written: the weekday and hour tests
      read the blog's calendar (`today`, `nowHour`), while "next $day" and
      "+7 days" count from `serverToday`, the server's calendar day of the
      same moment. */
  function RunDayAsWritten(today: int, serverToday: int, nowHour: int, target: int, targetHour: int): int
    requires 0 <= target < 7
  {
    if Weekday(today) != target then NextWeekday(serverToday, target)
    else if targetHour <= nowHour then serverToday + 7
    else today
  }

  /** With the two calendars at most a day apart, the day chosen as written
      is never in the past and at most eight days on; it is today exactly
      when the weekday matches and the hour is still ahead; the "next $day"
      branch keeps the chosen weekday; and when both calendars agree on the
      day it is the intended run day. */
  lemma RunDayAsWrittenSpec(today: int, serverToday: int, nowHour: int, target: int, targetHour: int)
    requires 0 <= target < 7
    requires today - 1 <= serverToday <= today + 1
    ensures var d := RunDayAsWritten(today, serverToday, nowHour, target, targetHour);
      && today <= d <= today + 8
      && (d == today <==> Weekday(today) == target && targetHour > nowHour)
      && (Weekday(today) != target ==> Weekday(d) == target)
      && (serverToday == today ==> d == RunDay(today, nowHour, target, targetHour))
  {
    if Weekday(today) != target {
      var d := NextWeekday(serverToday, target);
      assert d != today;
    }
  }

  /** A blog a day ahead of its server (Monday, day 8, on the server's
      Sunday, day 7) asking for Monday at 07:00 after 08:00: as written the
      run lands on the server's next Sunday, while the intended run day is a
      Monday. */
  lemma RunDayAsWrittenWrongWeekday()
    ensures RunDayAsWritten(8, 7, 8, 1, 7) == 14 && Weekday(14) != 1
    ensures RunDay(8, 8, 1, 7) == 15 && Weekday(15) == 1
  {
  }

  /** A blog a day behind its server (Monday, day 8, on the server's
      Tuesday, day 9) asking for Tuesday: as written the run comes eight
      days on, while the intended run day is tomorrow. */
  lemma RunDayAsWrittenSkipsWeek()
    ensures RunDayAsWritten(8, 9, 20, 2, 9) == 16
    ensures RunDay(8, 20, 2, 9) == 9
  {
  }

  /** strtotime("$date $time") for a time of day "H:M". */
  function ScheduledTime(day: int, hour: int, minute: int): int
  {
    day * DaySeconds + hour * 3600 + minute * 60
  }

  /** The server time registered with cron: the server clock plus the
      distance from the blog's current time to the scheduled time. */
  function ServerTime(serverNow: int, blogNow: int, scheduled: int): int
  {
    serverNow + (scheduled - blogNow)
  }

  /** When the blog clock lies within the current hour of today and the
      server's calendar day is at most a day from the blog's, the run
      set_schedule registers as written (any hour and minute of a valid day
      time) is in the future on both clocks. */
  lemma ScheduledInFuture(today: int, serverToday: int, nowHour: int, blogNow: int, serverNow: int,
                          target: int, targetHour: int, minute: int)
    requires 0 <= target < 7
    requires today - 1 <= serverToday <= today + 1
    requires 0 <= nowHour < 24 && 0 <= targetHour < 24 && 0 <= minute < 60
    requires ScheduledTime(today, nowHour, 0) <= blogNow < ScheduledTime(today, nowHour + 1, 0)
    ensures var s := ScheduledTime(RunDayAsWritten(today, serverToday, nowHour, target, targetHour), targetHour, minute);
      s > blogNow && ServerTime(serverNow, blogNow, s) > serverNow
  {
    RunDayAsWrittenSpec(today, serverToday, nowHour, target, targetHour);
  }

  /** What a call reads from the clocks: the server time, the blog's local
      time, the blog's calendar day and hour of that moment, and the
      server's calendar day of the same moment, which strtotime counts
      from. */
  datatype Clock = Clock(serverNow: int, blogNow: int, today: int, hour: int, serverToday: int)

  /** The periodic backup event registered with WordPress cron: its server
      time and the name of its recurrence. */
  datatype CronEvent = CronEvent(time: int, recurrence: string)

  /** A one-off cron event: its server time and the hook it runs. */
  datatype SingleEvent = SingleEvent(time: int, hook: string)

  /** WordPress cron as the plugin uses it: at most one periodic backup
      event and the one-off events queued by "backup now". */
  class Cron {
    var periodic: Option<CronEvent>
    var single: seq<SingleEvent>

    constructor(periodic: Option<CronEvent>)
      ensures this.periodic == periodic && single == []
    {
      this.periodic := periodic;
      single := [];
    }

    /** wp_unschedule_event for the periodic hook. */
    method Unschedule()
      modifies this
      ensures periodic == None && single == old(single)
    {
      periodic := None;
    }

    /** wp_schedule_event for the periodic hook. */
    method SchedulePeriodic(time: int, recurrence: string)
      modifies this
      ensures periodic == Some(CronEvent(time, recurrence)) && single == old(single)
    {
      periodic := Some(CronEvent(time, recurrence));
    }

    /** wp_schedule_single_event: one run of `hook` at the given server
        time. */
    method ScheduleSingle(time: int, hook: string)
      modifies this
      ensures periodic == old(periodic) && single == old(single) + [SingleEvent(time, hook)]
    {
      single := single + [SingleEvent(time, hook)];
    }
  }
}
