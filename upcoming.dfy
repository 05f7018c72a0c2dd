/** The Upcoming page (upcoming.tsx): the fetched tasks bucketed into an
    `Overdue` pseudo-section and one pseudo-section per day of the week
    around today, shown as a read-only collection. */
module Upcoming {
  import opened Common
  import opened Seqs
  import opened Days
  import TaskRouter

  const OverdueId: string := "Overdue"
  const UpcomingId: string := "Upcoming"

  // ----------------------------------------------------------------- window

  /** The first day shown: today on a Sunday, else the previous Sunday. */
  function WeekStart(today: Timestamp): Timestamp
  {
    if IsSunday(today) then today else PreviousSunday(today)
  }

  /** The days the page lists, as written: from the week start to
      `nextSaturday(today)`, which on a Saturday is a week later. */
  function WindowAsWritten(today: Timestamp): seq<Timestamp>
  {
    EachDayOfInterval(WeekStart(today), NextSaturday(today))
  }

  /** The Saturday ending the week of `today`: today itself on a Saturday. */
  function WeekEnd(today: Timestamp): Timestamp
  {
    if Weekday(today) == 6 then today else NextSaturday(today)
  }

  /** The days the page evidently means to list: Sunday to Saturday of the week of `today`. */
  function Window(today: Timestamp): (r: seq<Timestamp>)
    ensures |r| == 7
  {
    DaysAround(today, WeekEnd(today), 7);
    EachDayOfInterval(WeekStart(today), WeekEnd(today))
  }

  lemma WeekStartBack(today: Timestamp)
    ensures WeekStart(today) == AddDays(today, -Weekday(today))
  {
  }

  /** Listing the days from the week start to `end`, `n - 1 - weekday` days
      after today: `n` consecutive midnights, today's day at index `weekday`. */
  lemma {:induction false} DaysAround(today: Timestamp, end: Timestamp, n: nat)
    requires n >= Weekday(today) + 1 && end == AddDays(today, n - 1 - Weekday(today))
    ensures |EachDayOfInterval(WeekStart(today), end)| == n
    ensures forall k | 0 <= k < n ::
      EachDayOfInterval(WeekStart(today), end)[k] == AddDays(StartOfDay(today), k - Weekday(today))
  {
    var w := Weekday(today);
    WeekStartBack(today);
    WeekdayAddDays(today, -w);
    var s := AddDays(StartOfDay(today), -w);
    assert StartOfDay(WeekStart(today)) == s;
    assert s + (n - 1) * DayMs <= end < s + n * DayMs;
    DaysFromShape(s, end, n);
  }

  /** The window is one Sunday-to-Saturday week of midnights holding today. */
  lemma WindowIsWeek(today: Timestamp)
    ensures |Window(today)| == 7
    ensures forall k | 0 <= k < 7 :: Window(today)[k] == AddDays(StartOfDay(today), k - Weekday(today))
    ensures forall k | 0 <= k < 7 :: Window(today)[k] % DayMs == 0 && Weekday(Window(today)[k]) == k
    ensures Window(today)[Weekday(today)] == StartOfDay(today)
  {
    var w := Weekday(today);
    if w == 6 {
      assert WeekEnd(today) == AddDays(today, 0);
    }
    DaysAround(today, WeekEnd(today), 7);
    forall k | 0 <= k < 7 ensures Window(today)[k] % DayMs == 0 && Weekday(Window(today)[k]) == k {
      DivAddDays(StartOfDay(today), k - w);
      WeekdayAddDays(StartOfDay(today), k - w);
      WeekdayOfStartOfDay(today);
    }
  }

  /** As written, the window is that week except on a Saturday, when it runs
      on to the next Saturday: 14 days. */
  lemma WindowAsWrittenShape(today: Timestamp)
    ensures |WindowAsWritten(today)| == if Weekday(today) == 6 then 14 else 7
    ensures forall k | 0 <= k < |WindowAsWritten(today)| ::
      WindowAsWritten(today)[k] == AddDays(StartOfDay(today), k - Weekday(today))
    ensures Weekday(today) != 6 ==> WindowAsWritten(today) == Window(today)
  {
    DaysAround(today, NextSaturday(today), if Weekday(today) == 6 then 14 else 7);
  }

  /** 1970-01-03, a Saturday, shows fourteen days. */
  lemma SaturdayWindowSpansTwoWeeks()
    ensures Weekday(2 * DayMs) == 6
    ensures |WindowAsWritten(2 * DayMs)| == 14
    ensures |Window(2 * DayMs)| == 7
  {
    WindowAsWrittenShape(2 * DayMs);
    WindowIsWeek(2 * DayMs);
  }

  // ---------------------------------------------------------------- buckets

  /** A section title: a fixed text, or the formatted date of a day. */
  datatype Label = Title(text: string) | DayTitle(day: Timestamp)

  datatype ViewSection = ViewSection(id: string, name: Label, position: int, tasks: seq<Task>, count: nat)

  datatype View = View(id: string, name: string, sections: seq<ViewSection>, position: int)

  /** The fetched list; empty while the query has no data. */
  function Fetched(tasks: Option<seq<Task>>): seq<Task>
  {
    if tasks.Some? then tasks.value else []
  }

  /** Due before the start of the day of `now`. */
  predicate IsOverdue(t: Task, now: Timestamp)
  {
    t.dueDate.Some? && StartOfDay(now) > t.dueDate.value
  }

  /** Due on the day of `day`. */
  predicate DueOn(t: Task, day: Timestamp)
  {
    t.dueDate.Some? && StartOfDay(day) == StartOfDay(t.dueDate.value)
  }

  /** `overdueSection`; its `_count` is the length of the whole fetched list. */
  function OverdueSection(tasks: Option<seq<Task>>, now: Timestamp): (s: ViewSection)
    ensures s.id == OverdueId && s.position == 0
  {
    var ts := Fetched(tasks);
    ViewSection(OverdueId, Title(OverdueId), 0, Filter(ts, t => IsOverdue(t, now)), |ts|)
  }

  /** One entry of `daysAsSections`. */
  function DaySection(ts: seq<Task>, day: Timestamp): (s: ViewSection)
    ensures s.id == IntString(day) && s.position == day && s.name == DayTitle(day)
    ensures s.count == |s.tasks|
  {
    var dayTasks := Filter(ts, t => DueOn(t, day));
    ViewSection(IntString(day), DayTitle(day), day, dayTasks, |dayTasks|)
  }

  function DaySections(ts: seq<Task>, days: seq<Timestamp>): (r: seq<ViewSection>)
    ensures |r| == |days|
    ensures forall i | 0 <= i < |days| :: r[i] == DaySection(ts, days[i])
  {
    seq(|days|, i requires 0 <= i < |days| => DaySection(ts, days[i]))
  }

  /** Strictly increasing, as a window lists its days. */
  predicate Ascending(days: seq<Timestamp>)
  {
    forall i, j | 0 <= i < j < |days| :: days[i] < days[j]
  }

  /** Every entry is the start of a day. */
  predicate Midnights(days: seq<Timestamp>)
  {
    forall k | 0 <= k < |days| :: days[k] % DayMs == 0
  }

  /** Both windows, as written and corrected, list ascending midnights. */
  lemma WindowsAscend(today: Timestamp)
    ensures Ascending(Window(today)) && Midnights(Window(today))
    ensures Ascending(WindowAsWritten(today)) && Midnights(WindowAsWritten(today))
  {
    WindowIsWeek(today);
    WindowAsWrittenShape(today);
    var w := WindowAsWritten(today);
    forall k | 0 <= k < |w| ensures w[k] % DayMs == 0 {
      DivAddDays(StartOfDay(today), k - Weekday(today));
    }
  }

  /** The `upcoming` collection over a list of days: Overdue, then one section
      per day. `now` is the time of the current render. */
  function ViewOver(tasks: Option<seq<Task>>, days: seq<Timestamp>, now: Timestamp): (v: View)
    ensures |v.sections| == 1 + |days|
  {
    View(UpcomingId, UpcomingId, [OverdueSection(tasks, now)] + DaySections(Fetched(tasks), days), -1)
  }

  /** The page as written: the days of `WindowAsWritten`, so fifteen sections on a Saturday. */
  function UpcomingViewAsWritten(tasks: Option<seq<Task>>, today: Timestamp, now: Timestamp): (v: View)
    ensures |v.sections| == 1 + |WindowAsWritten(today)|
  {
    ViewOver(tasks, WindowAsWritten(today), now)
  }

  /** The page over the corrected week. `today` is the time the page was opened. */
  function UpcomingView(tasks: Option<seq<Task>>, today: Timestamp, now: Timestamp): (v: View)
    ensures |v.sections| == 8
  {
    ViewOver(tasks, Window(today), now)
  }

  /** Over ascending days: Overdue first, then each day's section in order and at increasing positions. */
  lemma ViewOverShape(tasks: Option<seq<Task>>, days: seq<Timestamp>, now: Timestamp)
    requires Ascending(days)
    ensures var v := ViewOver(tasks, days, now);
      && v.sections[0] == OverdueSection(tasks, now)
      && v.sections[1..] == DaySections(Fetched(tasks), days)
      && (forall i, j | 1 <= i < j < |v.sections| :: v.sections[i].position < v.sections[j].position)
  {
    var v := ViewOver(tasks, days, now);
    var ds := DaySections(Fetched(tasks), days);
    assert v.sections[1..] == ds;
    forall i, j | 1 <= i < j < |v.sections| ensures v.sections[i].position < v.sections[j].position {
      assert v.sections[i].position == ds[i - 1].position == days[i - 1];
      assert v.sections[j].position == ds[j - 1].position == days[j - 1];
    }
  }

  /** Over distinct midnights, no task is in two day sections. */
  lemma AtMostOneDayOver(tasks: Option<seq<Task>>, days: seq<Timestamp>, now: Timestamp, t: Task, i: int, j: int)
    requires Ascending(days) && Midnights(days) && 1 <= i < j <= |days|
    ensures var v := ViewOver(tasks, days, now);
      !(t in v.sections[i].tasks && t in v.sections[j].tasks)
  {
    ViewOverShape(tasks, days, now);
    DayMembers(Fetched(tasks), days[i - 1], t);
    DayMembers(Fetched(tasks), days[j - 1], t);
  }

  /** The ids of a view's sections: `Overdue`, then each day's timestamp as text. */
  lemma ViewOverIds(tasks: Option<seq<Task>>, days: seq<Timestamp>, now: Timestamp)
    ensures var v := ViewOver(tasks, days, now);
      && v.sections[0].id == OverdueId
      && forall k | 0 <= k < |days| :: v.sections[k + 1].id == IntString(days[k])
  {
    var v := ViewOver(tasks, days, now);
    var ds := DaySections(Fetched(tasks), days);
    assert v.sections == [OverdueSection(tasks, now)] + ds;
    forall k | 0 <= k < |days| ensures v.sections[k + 1].id == IntString(days[k]) {
      assert v.sections[k + 1] == ds[k];
    }
  }

  /** A day's id is its decimal timestamp, which never reads `Overdue`. */
  lemma DayIdNotOverdue(day: Timestamp)
    ensures IntString(day) != OverdueId
  {
    assert IntString(day)[0] != OverdueId[0];
  }

  /** `Overdue` followed by the ids of distinct days: no id repeats. */
  lemma IdsDistinct(secs: seq<ViewSection>, days: seq<Timestamp>)
    requires Ascending(days) && |secs| == 1 + |days| && secs[0].id == OverdueId
    requires forall k | 0 <= k < |days| :: secs[k + 1].id == IntString(days[k])
    ensures forall i, j | 0 <= i < j < |secs| :: secs[i].id != secs[j].id
  {
    forall i, j | 0 <= i < j < |secs| ensures secs[i].id != secs[j].id {
      var b := days[j - 1];
      assert secs[j].id == IntString(b);
      if i == 0 {
        DayIdNotOverdue(b);
      } else {
        var a := days[i - 1];
        assert secs[i].id == IntString(a);
        if IntString(a) == IntString(b) {
          IntStringInjective(a, b);
        }
      }
    }
  }

  /** Over distinct days, no two sections of the view share an id. */
  lemma SectionIdsDistinctOver(tasks: Option<seq<Task>>, days: seq<Timestamp>, now: Timestamp)
    requires Ascending(days)
    ensures var v := ViewOver(tasks, days, now);
      forall i, j | 0 <= i < j < |v.sections| :: v.sections[i].id != v.sections[j].id
  {
    ViewOverIds(tasks, days, now);
    IdsDistinct(ViewOver(tasks, days, now).sections, days);
  }

  /** The sections: Overdue first, then the days in order, each identified by
      its timestamp and placed at it. The corrected page has eight sections;
      as written, a Saturday shows fifteen. */
  lemma ViewShape(tasks: Option<seq<Task>>, today: Timestamp, now: Timestamp)
    ensures var v := UpcomingView(tasks, today, now);
      && |v.sections| == 8
      && v.sections[0] == OverdueSection(tasks, now)
      && v.sections[1..] == DaySections(Fetched(tasks), Window(today))
      && (forall i, j | 1 <= i < j < 8 :: v.sections[i].position < v.sections[j].position)
    ensures var w := UpcomingViewAsWritten(tasks, today, now);
      && |w.sections| == (if Weekday(today) == 6 then 15 else 8)
      && w.sections[0] == OverdueSection(tasks, now)
      && w.sections[1..] == DaySections(Fetched(tasks), WindowAsWritten(today))
      && (forall i, j | 1 <= i < j < |w.sections| :: w.sections[i].position < w.sections[j].position)
  {
    WindowsAscend(today);
    WindowAsWrittenShape(today);
    ViewOverShape(tasks, Window(today), now);
    ViewOverShape(tasks, WindowAsWritten(today), now);
  }

  /** Overdue holds exactly the fetched tasks due before today's start. */
  lemma OverdueMembers(tasks: Option<seq<Task>>, now: Timestamp, t: Task)
    ensures t in OverdueSection(tasks, now).tasks <==> t in Fetched(tasks) && IsOverdue(t, now)
  {
    FilterMembers(Fetched(tasks), t => IsOverdue(t, now), t);
  }

  /** Overdue's count is the length of the whole list, so it is larger than
      the bucket as soon as one fetched task is not overdue. */
  lemma OverdueCountCountsAll(tasks: Option<seq<Task>>, now: Timestamp)
    ensures OverdueSection(tasks, now).count == |Fetched(tasks)|
    ensures (exists i | 0 <= i < |Fetched(tasks)| :: !IsOverdue(Fetched(tasks)[i], now)) ==>
      |OverdueSection(tasks, now).tasks| < OverdueSection(tasks, now).count
  {
    CountAll(Fetched(tasks), t => IsOverdue(t, now));
  }

  /** A day's bucket holds exactly the fetched tasks due on that day; tasks
      with no due date are in no day's bucket. */
  lemma DayMembers(ts: seq<Task>, day: Timestamp, t: Task)
    requires day % DayMs == 0
    ensures t in DaySection(ts, day).tasks <==>
      t in ts && t.dueDate.Some? && StartOfDay(t.dueDate.value) == day
  {
    FilterMembers(ts, t => DueOn(t, day), t);
    StartOfDayOfMidnight(day);
  }

  /** The days of the window are different days, so a task is in at most one
      day bucket, in the corrected page and in the page as written. */
  lemma AtMostOneDay(tasks: Option<seq<Task>>, today: Timestamp, now: Timestamp, t: Task, i: int, j: int)
    requires 1 <= i < j
    ensures var v := UpcomingView(tasks, today, now);
      j < 8 ==> !(t in v.sections[i].tasks && t in v.sections[j].tasks)
    ensures var w := UpcomingViewAsWritten(tasks, today, now);
      j < |w.sections| ==> !(t in w.sections[i].tasks && t in w.sections[j].tasks)
  {
    WindowsAscend(today);
    if j < 8 {
      AtMostOneDayOver(tasks, Window(today), now, t, i, j);
    }
    if j <= |WindowAsWritten(today)| {
      AtMostOneDayOver(tasks, WindowAsWritten(today), now, t, i, j);
    }
  }

  /** A task due on a day of this week before today is listed twice: under
      Overdue and under its day. */
  lemma OverdueAndOnItsDay(tasks: Option<seq<Task>>, today: Timestamp, now: Timestamp, t: Task, k: int)
    requires 0 <= k < 7 && t in Fetched(tasks) && t.dueDate.Some?
    requires StartOfDay(t.dueDate.value) == Window(today)[k] < StartOfDay(now)
    ensures var v := UpcomingView(tasks, today, now);
      t in v.sections[0].tasks && t in v.sections[k + 1].tasks
  {
    ViewShape(tasks, today, now);
    WindowIsWeek(today);
    MultiplesApart(Window(today)[k], StartOfDay(now));
    OverdueMembers(tasks, now, t);
    DayMembers(Fetched(tasks), Window(today)[k], t);
  }

  /** No two sections share an id, in the corrected page and in the page as written. */
  lemma SectionIdsDistinct(tasks: Option<seq<Task>>, today: Timestamp, now: Timestamp)
    ensures var v := UpcomingView(tasks, today, now);
      forall i, j | 0 <= i < j < |v.sections| :: v.sections[i].id != v.sections[j].id
    ensures var w := UpcomingViewAsWritten(tasks, today, now);
      forall i, j | 0 <= i < j < |w.sections| :: w.sections[i].id != w.sections[j].id
  {
    WindowsAscend(today);
    SectionIdsDistinctOver(tasks, Window(today), now);
    SectionIdsDistinctOver(tasks, WindowAsWritten(today), now);
  }

  /** The page as written is fed by the `today` query. If the page is rendered
      on the day the query ran, Overdue is empty and only today's bucket can hold tasks. */
  lemma TodayFeedShowsOnlyToday(tasks: Option<seq<Task>>, today: Timestamp, now: Timestamp, queried: Timestamp)
    requires StartOfDay(queried) == StartOfDay(today) == StartOfDay(now)
    requires forall i | 0 <= i < |Fetched(tasks)| :: TaskRouter.DueToday(Fetched(tasks)[i], queried)
    ensures var v := UpcomingViewAsWritten(tasks, today, now);
      && v.sections[0].tasks == []
      && forall k | 1 <= k < |v.sections| && k != Weekday(today) + 1 :: v.sections[k].tasks == []
  {
    var v := UpcomingViewAsWritten(tasks, today, now);
    var ts := Fetched(tasks);
    var days := WindowAsWritten(today);
    WindowsAscend(today);
    WindowAsWrittenShape(today);
    ViewOverShape(tasks, days, now);
    FilterNone(ts, t => IsOverdue(t, now));
    forall k | 1 <= k < |v.sections| && k != Weekday(today) + 1 ensures v.sections[k].tasks == [] {
      var day := days[k - 1];
      assert day != StartOfDay(today);
      forall i | 0 <= i < |ts| ensures !DueOn(ts[i], day) {
        SameDayIff(ts[i].dueDate.value, StartOfDay(queried));
        StartOfDayOfMidnight(day);
      }
      FilterNone(ts, t => DueOn(t, day));
    }
  }

  /** Fed by the `upcoming` query, which lists every stored task, each day of
      the week shows every stored task due on it. */
  lemma UpcomingFeedShowsWeek(stored: map<Id, Task>, tasks: seq<Task>, today: Timestamp, now: Timestamp, t: Task, k: int)
    requires forall x :: x in tasks <==> x in stored.Values
    requires 0 <= k < 7 && t in stored.Values && t.dueDate.Some?
    requires StartOfDay(t.dueDate.value) == Window(today)[k]
    ensures t in UpcomingView(Some(tasks), today, now).sections[k + 1].tasks
  {
    ViewShape(Some(tasks), today, now);
    WindowIsWeek(today);
    DayMembers(tasks, Window(today)[k], t);
  }
}
