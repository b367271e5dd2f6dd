/** The calendar events of `build_ics` (scrape_to_ics.py:72-101): one event
    per fixture, named after the opponent and the venue, timed when the
    fixture has a kick-off time and all-day otherwise, with one display
    alarm at the configured time on the Monday of the match week. */
module Events {
  import opened Wrappers
  import opened Text
  import opened Civil
  import opened Fixtures

  /** The settings `build_ics` reads: `TEAM_NAME`, `EVENT_DURATION_HOURS`
      and `ALARM_TIME`. */
  datatype Config = Config(team: string, durationHours: real, alarmTime: string)

  /** How an event sits in the calendar: a local start with a duration in
      hours, or a whole day. */
  datatype Start = Timed(begin: DateTime, hours: real) | AllDay(day: Date)

  /** A display alarm; `trigger` is in minutes relative to the event's
      start reference, negative before it. */
  datatype Alarm = Display(trigger: int)

  datatype Event = Event(name: string, start: Start, description: string, alarms: seq<Alarm>)

  /** `" – "`: an en dash between spaces. */
  const Separator: string := " – "
  const Home: string := "DOM"
  const Away: string := "WYJAZD"
  const TicketsNote: string := "Wyślij bilety do druku"
  const TravelNote: string := "Ustal transport, obiad po drodze, pizza po meczu"

  predicate StartsWith(s: string, prefix: string) {
    |prefix| <= |s| && s[..|prefix|] == prefix
  }

  predicate EndsWith(s: string, suffix: string) {
    |suffix| <= |s| && s[|s| - |suffix|..] == suffix
  }

  /** `f"{opponent} – {place}"`: the other side and the venue. */
  function Title(team: string, f: Fixture): string {
    if IsHome(team, f) then f.away + Separator + Home else f.home + Separator + Away
  }

  function Description(team: string, f: Fixture): string {
    if IsHome(team, f) then TicketsNote else TravelNote
  }

  /** The loop body of `build_ics` (scrape_to_ics.py:75-98) for one
      fixture; an error where `to_dt` or `monday_alarm_for` raises. */
  function BuildEvent(cfg: Config, f: Fixture): Result<Event, DateError> {
    var dt :- ToDt(f.date, f.time);
    var start := if HasTime(f.time) then Timed(dt, cfg.durationHours) else AllDay(dt.date);
    var alarmAt :- MondayAlarmFor(dt, cfg.alarmTime);
    var startRef := if HasTime(f.time) then dt else DateTime(dt.date, Clock(0, 0));
    Ok(Event(Title(cfg.team, f), start, Description(cfg.team, f),
             [Display(WallMinutes(alarmAt) - WallMinutes(startRef))]))
  }

  /** The outcome of building each fixture's event, in order. */
  function Attempts(cfg: Config, fs: seq<Fixture>): (rs: seq<Result<Event, DateError>>)
    ensures |rs| == |fs|
  {
    seq(|fs|, i requires 0 <= i < |fs| => BuildEvent(cfg, fs[i]))
  }

  /** The successful results in order, or the first error among them. */
  function Collect(rs: seq<Result<Event, DateError>>): Result<seq<Event>, DateError>
    decreases |rs|
  {
    if rs == [] then Ok([])
    else
      var events :- Collect(rs[..|rs| - 1]);
      var e :- rs[|rs| - 1];
      Ok(events + [e])
  }

  /** The events of the fixtures in order, or the error of the first
      fixture that fails. */
  function Calendar(cfg: Config, fs: seq<Fixture>): Result<seq<Event>, DateError> {
    Collect(Attempts(cfg, fs))
  }

  /** `build_ics(fixtures)`: the loop that adds one event per fixture and
      stops at the first fixture whose date or time does not parse. */
  method BuildIcs(cfg: Config, fixtures: seq<Fixture>) returns (cal: Result<seq<Event>, DateError>)
    ensures cal == Calendar(cfg, fixtures)
  {
    ghost var rs := Attempts(cfg, fixtures);
    var events: seq<Event> := [];
    var i := 0;
    assert rs[..0] == [];
    while i < |fixtures|
      invariant 0 <= i <= |fixtures|
      invariant Collect(rs[..i]) == Ok(events)
    {
      var ev := BuildEvent(cfg, fixtures[i]);
      assert rs[i] == ev;
      CollectStep(rs, i);
      if ev.Err? {
        CollectKeepsError(rs, i + 1);
        return Err(ev.error);
      }
      events := events + [ev.value];
      i := i + 1;
    }
    assert rs[..i] == rs;
    return Ok(events);
  }

  // ---------------------------------------------------------------------
  // Properties

  /** One more result either extends the collected events or is the error. */
  lemma CollectStep(rs: seq<Result<Event, DateError>>, i: nat)
    requires i < |rs| && Collect(rs[..i]).Ok?
    ensures Collect(rs[..i + 1])
         == if rs[i].Err? then Err(rs[i].error) else Ok(Collect(rs[..i]).value + [rs[i].value])
  {
    assert rs[..i + 1][..i] == rs[..i];
  }

  /** Once a prefix fails, every longer prefix fails with the same error. */
  lemma {:induction false} CollectKeepsError(rs: seq<Result<Event, DateError>>, n: nat)
    requires n <= |rs| && Collect(rs[..n]).Err?
    ensures Collect(rs) == Collect(rs[..n])
    decreases |rs| - n
  {
    if n < |rs| {
      assert rs[..n + 1][..n] == rs[..n];
      CollectKeepsError(rs, n + 1);
    } else {
      assert rs[..n] == rs;
    }
  }

  lemma {:induction false} CollectAllOk(rs: seq<Result<Event, DateError>>)
    ensures Collect(rs).Ok? <==> forall i :: 0 <= i < |rs| ==> rs[i].Ok?
    ensures Collect(rs).Ok? ==>
      |Collect(rs).value| == |rs| && forall i :: 0 <= i < |rs| ==> Collect(rs).value[i] == rs[i].value
    decreases |rs|
  {
    if rs != [] {
      var init := rs[..|rs| - 1];
      CollectAllOk(init);
      assert forall i :: 0 <= i < |init| ==> init[i] == rs[i];
    }
  }

  lemma {:induction false} CollectFirstError(rs: seq<Result<Event, DateError>>)
    requires Collect(rs).Err?
    ensures exists i :: 0 <= i < |rs| && rs[i] == Err(Collect(rs).error)
                        && forall k :: 0 <= k < i ==> rs[k].Ok?
    decreases |rs|
  {
    var n := |rs| - 1;
    var init := rs[..n];
    assert forall i :: 0 <= i < n ==> init[i] == rs[i];
    if Collect(init).Err? {
      CollectFirstError(init);
    } else {
      CollectAllOk(init);
    }
  }

  /** The calendar holds one event per fixture, in order, exactly when
      every fixture builds. */
  lemma CalendarEvents(cfg: Config, fs: seq<Fixture>)
    ensures Calendar(cfg, fs).Ok? <==> forall i :: 0 <= i < |fs| ==> BuildEvent(cfg, fs[i]).Ok?
    ensures Calendar(cfg, fs).Ok? ==>
      |Calendar(cfg, fs).value| == |fs|
      && forall i :: 0 <= i < |fs| ==> Calendar(cfg, fs).value[i] == BuildEvent(cfg, fs[i]).value
  {
    var rs := Attempts(cfg, fs);
    CollectAllOk(rs);
    assert forall i :: 0 <= i < |fs| ==> rs[i] == BuildEvent(cfg, fs[i]);
  }

  /** A failing calendar reports the error of the first fixture that does
      not build. */
  lemma CalendarFirstError(cfg: Config, fs: seq<Fixture>)
    requires Calendar(cfg, fs).Err?
    ensures exists i :: 0 <= i < |fs| && BuildEvent(cfg, fs[i]) == Err(Calendar(cfg, fs).error)
                        && forall k :: 0 <= k < i ==> BuildEvent(cfg, fs[k]).Ok?
  {
    var rs := Attempts(cfg, fs);
    CollectFirstError(rs);
    assert forall k :: 0 <= k < |fs| ==> rs[k] == BuildEvent(cfg, fs[k]);
    var i :| 0 <= i < |rs| && rs[i] == Err(Collect(rs).error) && forall k :: 0 <= k < i ==> rs[k].Ok?;
    assert BuildEvent(cfg, fs[i]) == Err(Calendar(cfg, fs).error);
  }

  /** The title of a home match ends in `" – DOM"` and of any other match
      in `" – WYJAZD"`, after the name of the other side; the description is
      the ticket note exactly for home matches. */
  lemma TitleNamesOpponent(team: string, f: Fixture)
    ensures StartsWith(Title(team, f), if IsHome(team, f) then f.away else f.home)
    ensures EndsWith(Title(team, f), Separator + Home) <==> IsHome(team, f)
    ensures EndsWith(Title(team, f), Separator + Away) <==> !IsHome(team, f)
    ensures Description(team, f) == TicketsNote <==> IsHome(team, f)
  {
    var t := Title(team, f);
    if IsHome(team, f) {
      assert t[|t| - 1] == 'M' != (Separator + Away)[|Separator + Away| - 1];
    } else {
      assert t[|t| - 1] == 'D' != (Separator + Home)[|Separator + Home| - 1];
      assert |TravelNote| != |TicketsNote|;
    }
  }

  /** A fixture with a kick-off time becomes a timed event that starts
      then and lasts the configured hours; one without becomes an all-day
      event on its date. */
  lemma EventTiming(cfg: Config, f: Fixture)
    requires BuildEvent(cfg, f).Ok?
    ensures var e := BuildEvent(cfg, f).value;
      && (e.start.Timed? <==> HasTime(f.time))
      && (e.start.Timed? ==> e.start == Timed(ToDt(f.date, f.time).value, cfg.durationHours)
                             && e.start.begin.time == ParseClock(f.time.value).value)
      && (e.start.AllDay? ==> e.start.day == ParseDate(f.date).value)
  {
  }

  /** The event has exactly one alarm, at the configured time on the Monday
      of the match week: its trigger is the alarm clock time less the start
      clock time (midnight for an all-day event), less a day for each day
      the match lies after that Monday. The alarm fires after the start
      only for a Monday match that starts before the alarm time. */
  lemma EventAlarm(cfg: Config, f: Fixture)
    requires BuildEvent(cfg, f).Ok?
    ensures ParseDate(f.date).Some? && ParseClock(cfg.alarmTime).Some?
            && (HasTime(f.time) ==> ParseClock(f.time.value).Some?)
    ensures var e := BuildEvent(cfg, f).value;
      var d := ParseDate(f.date).value;
      var alarm := ParseClock(cfg.alarmTime).value;
      var start := if HasTime(f.time) then ParseClock(f.time.value).value else Clock(0, 0);
      && ValidDate(d) && ValidClock(alarm) && ValidClock(start)
      && |e.alarms| == 1
      && e.alarms[0].trigger == MinuteOfDay(alarm) - MinuteOfDay(start) - Weekday(d) * MinutesPerDay
      && (e.alarms[0].trigger > 0 <==> Weekday(d) == 0 && MinuteOfDay(alarm) > MinuteOfDay(start))
      && -7 * MinutesPerDay < e.alarms[0].trigger < MinutesPerDay
  {
    var d := ParseDate(f.date).value;
    var alarm := ParseClock(cfg.alarmTime).value;
    var start := if HasTime(f.time) then ParseClock(f.time.value).value else Clock(0, 0);
    EventReminder(cfg, f);
    AlarmOffset(d, start, alarm);
  }

  /** The reminder of a built event lies between the Monday alarm and the
      start of the fixture, both read from the parsed strings. */
  lemma EventReminder(cfg: Config, f: Fixture)
    requires BuildEvent(cfg, f).Ok?
    ensures var d := ParseDate(f.date).value;
      var alarm := ParseClock(cfg.alarmTime).value;
      var start := if HasTime(f.time) then ParseClock(f.time.value).value else Clock(0, 0);
      && ValidDate(d) && ValidClock(alarm) && ValidClock(start)
      && |BuildEvent(cfg, f).value.alarms| == 1
      && BuildEvent(cfg, f).value.alarms[0].trigger
         == WallMinutes(DateTime(MondayOf(d), alarm))
            - WallMinutes(DateTime(d, start))
  {
    var dt := ToDt(f.date, f.time).value;
    var alarmAt := MondayAlarmFor(dt, cfg.alarmTime).value;
    EventTrigger(cfg, f, dt, alarmAt);
    var d := ParseDate(f.date).value;
    var alarm := ParseClock(cfg.alarmTime).value;
    var start := if HasTime(f.time) then ParseClock(f.time.value).value else Clock(0, 0);
    assert alarmAt == DateTime(MondayOf(d), alarm);
    assert (if HasTime(f.time) then dt else DateTime(dt.date, Clock(0, 0))) == DateTime(d, start);
  }

  /** The one alarm of the event built from a parsed start and alarm time
      counts the minutes from the start reference to the alarm. */
  lemma EventTrigger(cfg: Config, f: Fixture, dt: DateTime, alarmAt: DateTime)
    requires ToDt(f.date, f.time) == Ok(dt)
    requires MondayAlarmFor(dt, cfg.alarmTime) == Ok(alarmAt)
    ensures ValidDate(alarmAt.date) && ValidDate(dt.date)
    ensures BuildEvent(cfg, f).Ok? && |BuildEvent(cfg, f).value.alarms| == 1
    ensures BuildEvent(cfg, f).value.alarms[0].trigger
            == WallMinutes(alarmAt) - WallMinutes(if HasTime(f.time) then dt else DateTime(dt.date, Clock(0, 0)))
  {
  }

  /** Building an event fails exactly when the date or the time of the
      fixture does not parse, or the configured alarm time does not; a bad
      fixture is reported before a bad alarm time. */
  lemma EventErrors(cfg: Config, f: Fixture)
    ensures BuildEvent(cfg, f).Err? <==> ToDt(f.date, f.time).Err? || ParseClock(cfg.alarmTime).None?
    ensures ToDt(f.date, f.time).Err? ==> BuildEvent(cfg, f) == Err(ToDt(f.date, f.time).error)
    ensures ToDt(f.date, f.time).Ok? && ParseClock(cfg.alarmTime).None? ==> BuildEvent(cfg, f) == Err(BadAlarmTime)
  {
  }
}
