/** The schedule compiler of the service provider: the `schedule`
    configuration map becomes the scheduled events of the two maintenance
    commands, each a command name with the expression the scheduler ends up
    holding for it. */
module Schedule {
  import opened Text

  /** One entry of the `schedule` configuration map. A field is `None` when
      its key is absent or null, except `enabled`: it is `None` only when the
      key is absent, and otherwise holds the truthiness of the configured
      value (null reads as false). */
  datatype TaskConfig = TaskConfig(
    enabled: Option<bool>,
    frequency: Option<string>,
    time: Option<string>,
    day: Option<string>,
    cron: Option<string>)

  /** `config('maintenance-tools.schedule', [])`, keyed by task. */
  type ScheduleConfig = map<string, TaskConfig>

  /** The expression an event holds once the frequency switch is done. The
      helpers behind `monthlyOn`, `quarterlyOn` and `yearlyOn` and the
      scheduler's initial expression are not part of this model, so those
      cases are kept as the arguments they were called with. */
  datatype Expression =
    | SchedulerDefault
    | DailyAt(hour: int, minute: int)
    | WeeklyOn(dayOfWeek: nat, hour: int, minute: int)
    | MonthlyOn(dayOfMonth: nat, hour: int, minute: int)
    | QuarterlyOn(dayOfQuarter: nat, hour: int, minute: int)
    | YearlyOn(month: nat, dayOfMonth: nat, hour: int, minute: int)
    | Cron(expression: string)

  /** A scheduled event: the artisan command and its expression. */
  datatype Event = Event(command: string, expression: Expression)

  const CleanTempFilesKey := "clean_temp_files"
  const CleanOldLogsKey := "clean_old_logs"
  const CleanTempFilesCommand := "clean:tempfiles"
  const CleanOldLogsCommand := "logs:clean-old"

  const DefaultFrequency := "weekly"
  const DefaultTime := "00:00"
  const DefaultDay := "monday"

  /** The weekday table of `getDayNumber`: the name at index n has number n. */
  const DayNames: seq<string> :=
    ["sunday", "monday", "tuesday", "wednesday", "thursday", "friday", "saturday"]

  /** The lookup `$days[$d] ?? 1` over the weekday table, from index `k` on. */
  function LookupDay(d: string, k: nat): (n: nat)
    requires k <= |DayNames|
    ensures n < |DayNames|
    ensures (exists j :: k <= j < |DayNames| && DayNames[j] == d) ==> DayNames[n] == d
    ensures (forall j :: k <= j < |DayNames| ==> DayNames[j] != d) ==> n == 1
    decreases |DayNames| - k
  {
    if k == |DayNames| then 1
    else if DayNames[k] == d then k
    else LookupDay(d, k + 1)
  }

  /** `getDayNumber`: case-insensitive lookup in the weekday table; any
      other name is Monday. */
  function DayNumber(day: string): (n: nat)
    ensures n < |DayNames|
    ensures ToLower(day) in DayNames ==> DayNames[n] == ToLower(day)
    ensures ToLower(day) !in DayNames ==> n == 1
  {
    LookupDay(ToLower(day), 0)
  }

  /** No two weekdays share a name. */
  lemma DayNamesDistinct()
    ensures forall i, j :: 0 <= i < j < |DayNames| ==> DayNames[i] != DayNames[j]
  {
    assert DayNames[0][0] == 's' && DayNames[0][1] == 'u';
    assert DayNames[1][0] == 'm';
    assert DayNames[2][0] == 't' && DayNames[2][1] == 'u';
    assert DayNames[3][0] == 'w';
    assert DayNames[4][0] == 't' && DayNames[4][1] == 'h';
    assert DayNames[5][0] == 'f';
    assert DayNames[6][0] == 's' && DayNames[6][1] == 'a';
  }

  /** The weekday names are written in lower case. */
  lemma DayNamesAreLowerCase(n: nat)
    requires n < |DayNames|
    ensures ToLower(DayNames[n]) == DayNames[n]
  {
    var name := DayNames[n];
    forall i | 0 <= i < |name|
      ensures LowerChar(name[i]) == name[i]
    {
      assert 'a' <= name[i] <= 'z' by {
        if n == 0 { assert name == "sunday"; }
        else if n == 1 { assert name == "monday"; }
        else if n == 2 { assert name == "tuesday"; }
        else if n == 3 { assert name == "wednesday"; }
        else if n == 4 { assert name == "thursday"; }
        else if n == 5 { assert name == "friday"; }
        else { assert name == "saturday"; }
      }
    }
  }

  /** Case does not matter to the weekday lookup. */
  lemma DayNumberIgnoresCase(day: string)
    ensures DayNumber(day) == DayNumber(ToLower(day))
  {
    ToLowerIdempotent(day);
  }

  /** Every weekday name, in lower or upper case, resolves to its index. */
  lemma DayNumberOfName(n: nat)
    requires n < |DayNames|
    ensures DayNumber(DayNames[n]) == n
    ensures DayNumber(ToUpper(DayNames[n])) == n
  {
    var name := DayNames[n];
    DayNamesAreLowerCase(n);
    ToLowerToUpper(name);
    DayNamesDistinct();
    assert DayNames[DayNumber(name)] == name;
    assert DayNames[DayNumber(ToUpper(name))] == name;
  }

  /** An unknown name, such as "Funday", is Monday. */
  lemma UnknownDayIsMonday()
    ensures DayNumber("Funday") == 1
  {
    assert ToLower("Funday") == "funday";
  }

  /** `explode(':', $time)[0]`: the text before the first colon. */
  function BeforeColon(s: string): (t: string)
    ensures t <= s && ':' !in t
    ensures |t| < |s| ==> s[|t|] == ':'
  {
    if s == [] || s[0] == ':' then "" else [s[0]] + BeforeColon(s[1..])
  }

  /** The hour `dailyAt` reads: the first segment cast to int. */
  function Hour(time: string): int {
    IntCast(BeforeColon(time))
  }

  /** The minute `dailyAt` reads: the second segment cast to int, 0 when the
      time has no colon. */
  function Minute(time: string): int {
    var first := BeforeColon(time);
    if |first| < |time| then IntCast(BeforeColon(time[|first| + 1..])) else 0
  }

  /** `scheduleCommand`: the event is created before the frequency switch,
      so every call yields one event; the switch only rewrites its expression. */
  function ScheduleCommand(command: string, config: TaskConfig): (e: Event)
    ensures e.command == command
  {
    var frequency := config.frequency.GetOr(DefaultFrequency);
    var time := config.time.GetOr(DefaultTime);
    var expression :=
      if frequency == "daily" then DailyAt(Hour(time), Minute(time))
      else if frequency == "weekly" then WeeklyOn(DayNumber(config.day.GetOr(DefaultDay)), Hour(time), Minute(time))
      else if frequency == "monthly" then MonthlyOn(1, Hour(time), Minute(time))
      else if frequency == "quarterly" then QuarterlyOn(1, Hour(time), Minute(time))
      else if frequency == "yearly" then YearlyOn(1, 1, Hour(time), Minute(time))
      else if frequency == "custom" && config.cron.Some? then Cron(config.cron.value)
      else SchedulerDefault;
    Event(command, expression)
  }

  /** The cron text of an expression whose text the model fixes: `dailyAt`
      and `weeklyOn` write minute and hour as ints, `cron` keeps its string. */
  function CronText(e: Expression): Option<string> {
    match e
    case DailyAt(h, m) => Some(IntToString(m) + " " + IntToString(h) + " * * *")
    case WeeklyOn(d, h, m) => Some(IntToString(m) + " " + IntToString(h) + " * * " + NatToString(d))
    case Cron(s) => Some(s)
    case _ => None
  }

  /** The gate of `registerScheduledTasks` as written, when it evaluates:
      `&&` binds tighter than `??`, so the `?? true` never applies and only
      a truthy `enabled` opens it. */
  predicate IsScheduled(cfg: ScheduleConfig, key: string) {
    key in cfg && cfg[key].enabled == Some(true)
  }

  /** The entry is present but has no `enabled` key. The `??` guards only the
      whole `&&`, so reading `['enabled']` raises PHP's undefined-array-key
      warning, which Laravel's error handler turns into an `ErrorException`
      that escapes the booted callback. */
  predicate MissingEnabled(cfg: ScheduleConfig, key: string) {
    key in cfg && cfg[key].enabled.None?
  }

  /** The gate the `?? true` default evidently meant: a missing `enabled`
      counts as enabled. */
  predicate IsScheduledIntended(cfg: ScheduleConfig, key: string) {
    key in cfg && cfg[key].enabled.GetOr(true)
  }

  /** The events for the two tasks, temp files first, given which gates are open. */
  function Events(cfg: ScheduleConfig, tempFiles: bool, oldLogs: bool): seq<Event>
    requires tempFiles ==> CleanTempFilesKey in cfg
    requires oldLogs ==> CleanOldLogsKey in cfg
  {
    (if tempFiles then [ScheduleCommand(CleanTempFilesCommand, cfg[CleanTempFilesKey])] else [])
    + (if oldLogs then [ScheduleCommand(CleanOldLogsCommand, cfg[CleanOldLogsKey])] else [])
  }

  /** What `registerScheduledTasks` leaves: the events added to the
      scheduler, and whether an `ErrorException` ended the call. */
  datatype Registration = Registration(events: seq<Event>, raised: bool)

  /** `registerScheduledTasks`, as written: the temp-files gate is read
      first, and an exception there stops the call before the old-logs
      gate is read. */
  function RegisterScheduledTasks(cfg: ScheduleConfig): Registration {
    if MissingEnabled(cfg, CleanTempFilesKey) then
      Registration(Events(cfg, false, false), true)
    else if MissingEnabled(cfg, CleanOldLogsKey) then
      Registration(Events(cfg, IsScheduled(cfg, CleanTempFilesKey), false), true)
    else
      Registration(Events(cfg, IsScheduled(cfg, CleanTempFilesKey), IsScheduled(cfg, CleanOldLogsKey)), false)
  }

  /** `registerScheduledTasks` with the evidently intended gate. */
  function RegisterScheduledTasksIntended(cfg: ScheduleConfig): seq<Event> {
    Events(cfg, IsScheduledIntended(cfg, CleanTempFilesKey), IsScheduledIntended(cfg, CleanOldLogsKey))
  }

  predicate HasEvent(events: seq<Event>, command: string) {
    exists i :: 0 <= i < |events| && events[i].command == command
  }

  /** Only the two task keys produce events, temp files before old logs, at
      most one each. The call raises iff a present entry lacks `enabled`.
      Temp files are scheduled iff their entry has a truthy `enabled`; old
      logs iff theirs does and the temp-files gate did not raise first. */
  lemma RegisteredEvents(cfg: ScheduleConfig)
    ensures RegisterScheduledTasks(cfg).raised
      <==> MissingEnabled(cfg, CleanTempFilesKey) || MissingEnabled(cfg, CleanOldLogsKey)
    ensures var events := RegisterScheduledTasks(cfg).events;
      && |events| <= 2
      && (forall i :: 0 <= i < |events| ==>
            events[i].command == CleanTempFilesCommand || events[i].command == CleanOldLogsCommand)
      && (forall i, j :: 0 <= i < j < |events| ==>
            events[i].command == CleanTempFilesCommand && events[j].command == CleanOldLogsCommand)
      && (HasEvent(events, CleanTempFilesCommand) <==> CleanTempFilesKey in cfg && cfg[CleanTempFilesKey].enabled == Some(true))
      && (HasEvent(events, CleanOldLogsCommand) <==>
            !MissingEnabled(cfg, CleanTempFilesKey)
            && CleanOldLogsKey in cfg && cfg[CleanOldLogsKey].enabled == Some(true))
  {
    if MissingEnabled(cfg, CleanTempFilesKey) {
      EventsShape(cfg, false, false);
    } else if MissingEnabled(cfg, CleanOldLogsKey) {
      EventsShape(cfg, IsScheduled(cfg, CleanTempFilesKey), false);
    } else {
      EventsShape(cfg, IsScheduled(cfg, CleanTempFilesKey), IsScheduled(cfg, CleanOldLogsKey));
    }
  }

  /** The events for given gates: one per open gate, temp files first. */
  lemma EventsShape(cfg: ScheduleConfig, tempFiles: bool, oldLogs: bool)
    requires tempFiles ==> CleanTempFilesKey in cfg
    requires oldLogs ==> CleanOldLogsKey in cfg
    ensures var events := Events(cfg, tempFiles, oldLogs);
      && |events| <= 2
      && (forall i :: 0 <= i < |events| ==>
            events[i].command == CleanTempFilesCommand || events[i].command == CleanOldLogsCommand)
      && (forall i, j :: 0 <= i < j < |events| ==>
            events[i].command == CleanTempFilesCommand && events[j].command == CleanOldLogsCommand)
      && (HasEvent(events, CleanTempFilesCommand) <==> tempFiles)
      && (HasEvent(events, CleanOldLogsCommand) <==> oldLogs)
  {
    var events := Events(cfg, tempFiles, oldLogs);
    var a := if tempFiles then [ScheduleCommand(CleanTempFilesCommand, cfg[CleanTempFilesKey])] else [];
    var b := if oldLogs then [ScheduleCommand(CleanOldLogsCommand, cfg[CleanOldLogsKey])] else [];
    assert events == a + b;
    assert CleanTempFilesCommand != CleanOldLogsCommand by {
      assert CleanTempFilesCommand[0] == 'c' && CleanOldLogsCommand[0] == 'l';
    }
    assert forall i :: 0 <= i < |a| ==> a[i].command == CleanTempFilesCommand;
    assert forall i :: 0 <= i < |b| ==> b[i].command == CleanOldLogsCommand;
    HasEventAppend(a, b, CleanTempFilesCommand);
    HasEventAppend(a, b, CleanOldLogsCommand);
    if tempFiles {
      assert a[0].command == CleanTempFilesCommand;
    }
    if oldLogs {
      assert b[0].command == CleanOldLogsCommand;
    }
  }

  /** An event for `command` is in `a + b` iff it is in `a` or in `b`. */
  lemma HasEventAppend(a: seq<Event>, b: seq<Event>, command: string)
    ensures HasEvent(a + b, command) <==> HasEvent(a, command) || HasEvent(b, command)
  {
    if HasEvent(a + b, command) {
      var i :| 0 <= i < |a + b| && (a + b)[i].command == command;
      if i >= |a| {
        assert b[i - |a|].command == command;
      }
    }
    if HasEvent(a, command) {
      var i :| 0 <= i < |a| && a[i].command == command;
      assert (a + b)[i] == a[i];
    }
    if HasEvent(b, command) {
      var i :| 0 <= i < |b| && b[i].command == command;
      assert (a + b)[|a| + i] == b[i];
    }
  }

  /** Keys other than the two task keys are never read. */
  lemma OnlyTaskKeysAreRead(cfg1: ScheduleConfig, cfg2: ScheduleConfig)
    requires forall k :: k in {CleanTempFilesKey, CleanOldLogsKey} ==>
      (k in cfg1 <==> k in cfg2) && (k in cfg1 ==> cfg1[k] == cfg2[k])
    ensures RegisterScheduledTasks(cfg1) == RegisterScheduledTasks(cfg2)
  {
    assert CleanTempFilesKey in {CleanTempFilesKey, CleanOldLogsKey};
    assert CleanOldLogsKey in {CleanTempFilesKey, CleanOldLogsKey};
  }

  /** `enabled => false` schedules nothing for that task, and neither does an
      entry without an `enabled` key, which raises besides. */
  lemma DisabledIsNotScheduled(cfg: ScheduleConfig, key: string, command: string)
    requires (key == CleanTempFilesKey && command == CleanTempFilesCommand)
          || (key == CleanOldLogsKey && command == CleanOldLogsCommand)
    requires key in cfg && cfg[key].enabled != Some(true)
    ensures !HasEvent(RegisterScheduledTasks(cfg).events, command)
    ensures cfg[key].enabled.None? ==> RegisterScheduledTasks(cfg).raised
  {
    RegisteredEvents(cfg);
  }

  /** Missing frequency, time and day mean weekly on Monday at 00:00. */
  lemma MissingFieldsDefault(command: string, enabled: Option<bool>)
    ensures ScheduleCommand(command, TaskConfig(enabled, None, None, None, None)).expression
            == WeeklyOn(1, 0, 0)
  {
    WeeklyCase(command, TaskConfig(enabled, None, None, None, None));
    DefaultTimeIsMidnight(DefaultTime);
    DefaultDayIsMonday(DefaultDay);
  }

  lemma DefaultTimeIsMidnight(time: string)
    requires time == DefaultTime
    ensures Hour(time) == 0 && Minute(time) == 0
  {
    assert time == ['0', '0'] + ":" + ['0', '0'];
    TwoDigitTime('0', '0', '0', '0');
  }

  lemma DefaultDayIsMonday(day: string)
    requires day == DefaultDay
    ensures DayNumber(day) == 1
  {
    assert day == DayNames[1];
    DayNumberOfName(1);
  }

  /** A time written "ab:cd" in digits is hour ab and minute cd. */
  lemma TwoDigitTime(a: char, b: char, c: char, d: char)
    requires IsDigit(a) && IsDigit(b) && IsDigit(c) && IsDigit(d)
    ensures Hour([a, b] + ":" + [c, d]) == DigitValue(a) * 10 + DigitValue(b)
    ensures Minute([a, b] + ":" + [c, d]) == DigitValue(c) * 10 + DigitValue(d)
  {
    DigitsTime([a, b], [c, d]);
    TwoDigitsValue(a, b);
    TwoDigitsValue(c, d);
  }

  /** The shape of the event for a `daily` entry, whatever else it holds. */
  lemma DailyCase(command: string, config: TaskConfig)
    requires config.frequency == Some("daily")
    ensures var time := config.time.GetOr(DefaultTime);
      ScheduleCommand(command, config).expression == DailyAt(Hour(time), Minute(time))
  {
  }

  /** The shape of the event for a `weekly` entry, whatever else it holds. */
  lemma WeeklyCase(command: string, config: TaskConfig)
    requires config.frequency.GetOr(DefaultFrequency) == "weekly"
    ensures var time := config.time.GetOr(DefaultTime);
      ScheduleCommand(command, config).expression
      == WeeklyOn(DayNumber(config.day.GetOr(DefaultDay)), Hour(time), Minute(time))
  {
    assert "weekly" != "daily";
  }

  /** For a time made of two digit strings the hour and minute are their values. */
  lemma DigitsTime(hh: string, mm: string)
    requires IsDigits(hh) && IsDigits(mm)
    ensures Hour(hh + ":" + mm) == DigitsValue(hh)
    ensures Minute(hh + ":" + mm) == DigitsValue(mm)
  {
    var time := hh + ":" + mm;
    assert time == hh + (":" + mm);
    NoColonInDigits(hh);
    NoColonInDigits(mm);
    BeforeColonOf(hh, ":" + mm);
    assert BeforeColon(time) == hh;
    assert time[|hh| + 1..] == mm;
    BeforeColonOf(mm, "");
    assert mm + "" == mm;
    IntCastOfDigits(hh);
    IntCastOfDigits(mm);
  }

  lemma NoColonInDigits(s: string)
    requires IsDigits(s)
    ensures ':' !in s
  {
    forall i | 0 <= i < |s|
      ensures s[i] != ':'
    {
      assert IsDigit(s[i]);
    }
  }

  lemma {:induction false} BeforeColonOf(a: string, b: string)
    requires ':' !in a && (b == [] || b[0] == ':')
    ensures BeforeColon(a + b) == a
  {
    if a != [] {
      assert (a + b)[1..] == a[1..] + b;
      BeforeColonOf(a[1..], b);
    } else {
      assert a + b == b;
    }
  }

  /** `daily` at `HH:MM` gives "<MM> <HH> * * *" with the fields as ints. */
  lemma DailyExpression(command: string, config: TaskConfig, hh: string, mm: string)
    requires IsDigits(hh) && IsDigits(mm)
    requires config.frequency == Some("daily") && config.time == Some(hh + ":" + mm)
    ensures CronText(ScheduleCommand(command, config).expression)
            == Some(NatToString(DigitsValue(mm)) + " " + NatToString(DigitsValue(hh)) + " * * *")
  {
    DigitsTime(hh, mm);
  }

  /** `weekly` at `HH:MM` on a day gives "<MM> <HH> * * <day number>". */
  lemma WeeklyExpression(command: string, config: TaskConfig, hh: string, mm: string)
    requires IsDigits(hh) && IsDigits(mm)
    requires config.frequency.GetOr(DefaultFrequency) == "weekly" && config.time == Some(hh + ":" + mm)
    ensures CronText(ScheduleCommand(command, config).expression)
            == Some(NatToString(DigitsValue(mm)) + " " + NatToString(DigitsValue(hh)) + " * * "
                    + NatToString(DayNumber(config.day.GetOr(DefaultDay))))
  {
    DigitsTime(hh, mm);
  }

  /** `custom` with a `cron` value keeps that string verbatim. */
  lemma CustomKeepsCron(command: string, config: TaskConfig)
    requires config.frequency == Some("custom") && config.cron.Some?
    ensures CronText(ScheduleCommand(command, config).expression) == config.cron
  {
  }

  /** An unknown frequency, or `custom` without `cron`, still yields the
      command's event, with the expression left as the scheduler created it. */
  lemma FallThroughKeepsDefault(command: string, config: TaskConfig)
    requires var f := config.frequency.GetOr(DefaultFrequency);
      f !in {"daily", "weekly", "monthly", "quarterly", "yearly"}
      && (f == "custom" ==> config.cron.None?)
    ensures ScheduleCommand(command, config) == Event(command, SchedulerDefault)
  {
  }

  /** A time written with two-digit hour and minute fields. */
  lemma TimeFields(time: string, h: nat, m: nat)
    requires h < 100 && m < 100
    requires time == [DigitChar(h / 10), DigitChar(h % 10)] + ":" + [DigitChar(m / 10), DigitChar(m % 10)]
    ensures Hour(time) == h && Minute(time) == m
  {
    TwoDigitTime(DigitChar(h / 10), DigitChar(h % 10), DigitChar(m / 10), DigitChar(m % 10));
  }

  /** The shipped configuration schedules both commands weekly on Monday, at
      01:00 and 02:00. */
  lemma ShippedConfiguration(cfg: ScheduleConfig)
    requires cfg == map[
        CleanTempFilesKey := TaskConfig(Some(true), Some("weekly"), Some("01:00"), Some("monday"), None),
        CleanOldLogsKey := TaskConfig(Some(true), Some("weekly"), Some("02:00"), Some("monday"), None)]
    ensures !RegisterScheduledTasks(cfg).raised
    ensures var events := RegisterScheduledTasks(cfg).events;
      |events| == 2
      && events[0].command == CleanTempFilesCommand && CronText(events[0].expression) == Some("0 1 * * 1")
      && events[1].command == CleanOldLogsCommand && CronText(events[1].expression) == Some("0 2 * * 1")
  {
    var temp, logs := cfg[CleanTempFilesKey], cfg[CleanOldLogsKey];
    RegisteredEvents(cfg);
    var events := RegisterScheduledTasks(cfg).events;
    assert events[0] == ScheduleCommand(CleanTempFilesCommand, temp);
    assert events[1] == ScheduleCommand(CleanOldLogsCommand, logs);
    ShippedWeekly(CleanTempFilesCommand, temp, 1);
    ShippedWeekly(CleanOldLogsCommand, logs, 2);
    WeeklyAtHour(events[0].expression, 1);
    WeeklyAtHour(events[1].expression, 2);
  }

  lemma WeeklyAtHour(e: Expression, hour: nat)
    requires hour == 1 || hour == 2
    requires e == WeeklyOn(1, hour, 0)
    ensures hour == 1 ==> CronText(e) == Some("0 1 * * 1")
    ensures hour == 2 ==> CronText(e) == Some("0 2 * * 1")
  {
    SmallNumbers();
    if hour == 1 {
      CronTextParts(e, "0", "1", "1");
      CronLine("0", "1", "1");
    } else {
      CronTextParts(e, "0", "2", "1");
      CronLine("0", "2", "1");
    }
  }

  /** A shipped entry: weekly on Monday at 01:00 or 02:00. */
  lemma ShippedWeekly(command: string, config: TaskConfig, hour: nat)
    requires hour == 1 || hour == 2
    requires config == TaskConfig(Some(true), Some("weekly"), Some(if hour == 1 then "01:00" else "02:00"), Some("monday"), None)
    ensures ScheduleCommand(command, config).expression == WeeklyOn(1, hour, 0)
  {
    WeeklyCase(command, config);
    if hour == 1 {
      OClock(config.time.value, 1);
    } else {
      OClock(config.time.value, 2);
    }
    DefaultDayIsMonday(config.day.value);
  }

  lemma OClock(time: string, hour: nat)
    requires (hour == 1 && time == "01:00") || (hour == 2 && time == "02:00")
    ensures Hour(time) == hour && Minute(time) == 0
  {
    assert DigitChar(0) == '0' && DigitChar(1) == '1' && DigitChar(2) == '2';
    assert time == [DigitChar(hour / 10), DigitChar(hour % 10)] + ":" + [DigitChar(0 / 10), DigitChar(0 % 10)];
    TimeFields(time, hour, 0);
  }

  /** `daily` at 03:30 gives "30 3 * * *". */
  lemma DailyExample(config: TaskConfig)
    requires config == TaskConfig(Some(true), Some("daily"), Some("03:30"), None, None)
    ensures ScheduleCommand(CleanTempFilesCommand, config).expression == DailyAt(3, 30)
    ensures CronText(ScheduleCommand(CleanTempFilesCommand, config).expression) == Some("30 3 * * *")
  {
    DailyCase(CleanTempFilesCommand, config);
    HalfPastThree(config.time.value);
    DailyAtHalfPastThree(DailyAt(3, 30));
  }

  lemma HalfPastThree(time: string)
    requires time == "03:30"
    ensures Hour(time) == 3 && Minute(time) == 30
  {
    assert DigitChar(0) == '0' && DigitChar(3) == '3';
    assert time == [DigitChar(3 / 10), DigitChar(3 % 10)] + ":" + [DigitChar(30 / 10), DigitChar(30 % 10)];
    TimeFields(time, 3, 30);
  }

  lemma DailyAtHalfPastThree(e: Expression)
    requires e == DailyAt(3, 30)
    ensures CronText(e) == Some("30 3 * * *")
  {
    SmallNumbers();
    CronTextParts(e, "30", "3", "*");
    CronLine("30", "3", "*");
  }

  /** Joins the five cron fields of the three example expressions. */
  lemma CronLine(minute: string, hour: string, weekday: string)
    requires minute in {"0", "30"} && hour in {"1", "2", "3"} && weekday in {"1", "*"}
    ensures minute == "30" && hour == "3" && weekday == "*" ==> minute + " " + hour + " * * " + weekday == "30 3 * * *"
    ensures minute == "0" && hour == "1" && weekday == "1" ==> minute + " " + hour + " * * " + weekday == "0 1 * * 1"
    ensures minute == "0" && hour == "2" && weekday == "1" ==> minute + " " + hour + " * * " + weekday == "0 2 * * 1"
  {
  }

  /** The cron text of a daily or weekly expression, assembled from the
      rendered fields. */
  lemma CronTextParts(e: Expression, minute: string, hour: string, weekday: string)
    requires e.DailyAt? || e.WeeklyOn?
    requires IntToString(e.minute) == minute && IntToString(e.hour) == hour
    requires weekday == if e.DailyAt? then "*" else NatToString(e.dayOfWeek)
    ensures CronText(e) == Some(minute + " " + hour + " * * " + weekday)
  {
    if e.DailyAt? {
      assert " * * *" == " * * " + "*";
      assert minute + " " + hour + " * * *" == minute + " " + hour + " * * " + "*";
    }
  }

  lemma SmallNumbers()
    ensures IntToString(0) == "0" && IntToString(1) == "1" && IntToString(2) == "2"
    ensures IntToString(3) == "3" && IntToString(30) == "30" && NatToString(1) == "1"
  {
    assert NatToString(30) == NatToString(3) + [DigitChar(0)];
  }

  /** `custom` with cron "0 4 * * 1,4" keeps that string. */
  lemma CustomExample(config: TaskConfig)
    requires config == TaskConfig(Some(true), Some("custom"), None, None, Some("0 4 * * 1,4"))
    ensures CronText(ScheduleCommand(CleanOldLogsCommand, config).expression) == Some("0 4 * * 1,4")
  {
    CustomKeepsCron(CleanOldLogsCommand, config);
  }

  /** The precedence slip, shown on one input: as written, the temp-files
      entry without `enabled` raises before anything is scheduled, so the
      explicitly enabled old-logs task is lost too; the `?? true` meant both
      to be scheduled. */
  lemma MissingEnabledRaises()
    ensures var cfg := map[
        CleanTempFilesKey := TaskConfig(None, Some("daily"), None, None, None),
        CleanOldLogsKey := TaskConfig(Some(true), None, None, None, None)];
      RegisterScheduledTasks(cfg) == Registration([], true)
      && |RegisterScheduledTasksIntended(cfg)| == 2
  {
  }

  /** With the intended gate a missing `enabled` schedules the task, an
      explicit value decides, and the two readings agree whenever every
      present task entry states `enabled`. */
  lemma IntendedGate(cfg: ScheduleConfig)
    ensures forall k :: k in cfg && cfg[k].enabled.None? ==> IsScheduledIntended(cfg, k)
    ensures forall k :: k in cfg && cfg[k].enabled.Some? ==>
      (IsScheduledIntended(cfg, k) <==> cfg[k].enabled.value)
    ensures (forall k :: k in cfg && (k == CleanTempFilesKey || k == CleanOldLogsKey) ==> cfg[k].enabled.Some?)
      ==> RegisterScheduledTasks(cfg) == Registration(RegisterScheduledTasksIntended(cfg), false)
  {
  }
}
