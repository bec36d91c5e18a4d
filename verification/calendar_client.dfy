/** The project calendar: events filtered by project, shown as a month grid, a day
    schedule or a month list, with arrows that move the shown month. "Now" (`new Date()`)
    is the parameter `today`. */
module CalendarClient {
  import opened Wrappers
  import opened Seqs
  import opened Decimal
  import opened CivilDate
  import opened CalendarGrid

  datatype Event = Event(date: Date, title: string, kind: string, projectId: string)

  function EventDate(e: Event): Date {
    e.date
  }

  /** The built-in sample events (November 2025). */
  const SampleEvents: seq<Event> := [
    Event(DateTime(2025, 10, 3, 10, 0), "Proje Başlangıç Toplantısı", "meeting", "1"),
    Event(DateTime(2025, 10, 5, 14, 0), "Tasarım Sunumu", "presentation", "2"),
    Event(DateTime(2025, 10, 10, 9, 0), "Hakediş Raporu Teslimi", "deadline", "1"),
    Event(DateTime(2025, 10, 10, 11, 0), "İç Değerlendirme", "meeting", "3"),
    Event(DateTime(2025, 10, 12, 15, 0), "Statik Analiz Raporu", "deadline", "2"),
    Event(DateTime(2025, 10, 17, 13, 0), "Müşteri Revizyon Toplantısı", "meeting", "1"),
    Event(DateTime(2025, 10, 25, 18, 0), "Faz 1 Teslimi", "deadline", "3")]

  datatype ViewMode = MonthView | WeekView | DayView | ListView

  datatype State = State(selected: Option<Date>, current: Date, view: ViewMode, project: string)

  /** The project selector's value for "every project". */
  const AllProjects := "all"

  /** 10 November 2025 selected, November 2025 shown as a month, every project. */
  const Initial := State(Some(DateTime(2025, 10, 10, 0, 0)), DateTime(2025, 10, 1, 0, 0), MonthView, AllProjects)

  function ForProject(project: string): Event -> bool {
    (e: Event) => e.projectId == project
  }

  /** `filteredEvents`: every event for "all", otherwise the project's events in order. */
  function FilteredEvents(events: seq<Event>, project: string): (r: seq<Event>)
    ensures project == AllProjects ==> r == events
    ensures project != AllProjects ==> r == Filter(events, ForProject(project))
    ensures forall e :: e in r <==> e in events && (project == AllProjects || e.projectId == project)
  {
    if project == AllProjects then events else Filter(events, ForProject(project))
  }

  // ------------------------------------------------------------------ transitions

  /** `handleDateSelect`: a picked date also shows its month; clearing the selection
      leaves the shown month alone. */
  function SelectDate(s: State, date: Option<Date>): (t: State)
    ensures t.selected == date && t.view == s.view && t.project == s.project
    ensures date.None? ==> t.current == s.current
    ensures date.Some? ==> t.current.year == date.value.year && t.current.month == date.value.month
    ensures date.Some? ==> t.current.day == 1 && t.current.hour == 0 && t.current.minute == 0
  {
    match date
    case None => s.(selected := date)
    case Some(d) => s.(selected := date, current := StartOfMonth(d))
  }

  /** `goToPrevious`: one month back in the month, week and day views; nothing in the
      list view. */
  function GoToPrevious(s: State): (t: State)
    ensures s.view == ListView ==> t == s
    ensures s.view != ListView ==> t == s.(current := t.current)
    ensures s.view != ListView ==> MonthIndex(t.current) == MonthIndex(s.current) - 1
  {
    if s.view == ListView then s else s.(current := AddMonths(s.current, -1))
  }

  /** `goToNext`: one month on in the month, week and day views; nothing in the list
      view. */
  function GoToNext(s: State): (t: State)
    ensures s.view == ListView ==> t == s
    ensures s.view != ListView ==> t == s.(current := t.current)
    ensures s.view != ListView ==> MonthIndex(t.current) == MonthIndex(s.current) + 1
  {
    if s.view == ListView then s else s.(current := AddMonths(s.current, 1))
  }

  /** Forward then back returns to the same state when the shown day exists in every
      month, as the first of the month (which `SelectDate` sets) does. */
  lemma NextThenPrevious(s: State)
    requires s.current.day <= 28
    ensures GoToPrevious(GoToNext(s)) == s
  {
    if s.view != ListView {
      AddMonthsRoundTrip(s.current, 1);
    }
  }

  // ---------------------------------------------------------------------- colours

  datatype Color = Red | Blue | Purple | Gray

  /** `getEventColor`. */
  function EventColor(kind: string): (c: Color)
    ensures c == Red <==> kind == "deadline"
    ensures c == Blue <==> kind == "meeting"
    ensures c == Purple <==> kind == "presentation"
    ensures c == Gray <==> kind != "deadline" && kind != "meeting" && kind != "presentation"
  {
    match kind
    case "deadline" => Red
    case "meeting" => Blue
    case "presentation" => Purple
    case _ => Gray
  }

  // ------------------------------------------------------------------------ views

  /** A two-digit hour or minute, as `format(_, 'HH')` writes it. */
  function TwoDigits(n: int): (s: string)
    requires 0 <= n < 100
    ensures |s| == 2 && IsDigit(s[0]) && IsDigit(s[1])
    ensures DigitsValue(s) == n
  {
    var s := [DigitChar(n / 10), DigitChar(n % 10)];
    assert s[..1] == [DigitChar(n / 10)] && s[..1][..0] == [];
    assert DigitsValue(s[..1]) == n / 10;
    s
  }

  /** The label of the day-view slot starting at `hour`, as written: the end is
      `addMonths(hour, 1)`, which keeps the time of day, so the slot ends when it starts. */
  function SlotLabelAsWritten(hour: int): (text: string)
    requires 0 <= hour < 24
    ensures |text| == 13
    ensures text[..5] == text[8..]
  {
    var text := TwoDigits(hour) + ":00 - " + TwoDigits(hour) + ":00";
    assert text[..5] == TwoDigits(hour) + ":00";
    assert text[8..] == TwoDigits(hour) + ":00";
    text
  }

  /** The 08:00 slot reads "08:00 - 08:00". */
  lemma SlotLabelAsWrittenIsEmpty()
    ensures SlotLabelAsWritten(8) == "08:00 - 08:00"
  {
  }

  /** The slot label as intended: from the slot's hour to the next hour. */
  function SlotLabel(hour: int): (text: string)
    requires 0 <= hour < 24
    ensures |text| == 13
    ensures text[..2] == TwoDigits(hour) && DigitsValue(text[..2]) == hour
    ensures text[8..10] == TwoDigits((hour + 1) % 24) && DigitsValue(text[8..10]) == (hour + 1) % 24
    ensures text[..5] != text[8..]
  {
    var text := TwoDigits(hour) + ":00 - " + TwoDigits((hour + 1) % 24) + ":00";
    assert text[8..10] == TwoDigits((hour + 1) % 24);
    assert text[..2] == TwoDigits(hour);
    assert text[..5][..2] == text[..2] && text[8..][..2] == text[8..10];
    text
  }

  /** One hour of the day view: its caption and the events in that hour. */
  datatype Slot = Slot(hour: int, caption: string, events: seq<Event>)

  function InHour(day: DateTime, hour: int): Event -> bool {
    (e: Event) => SameDay(e.date, day) && e.date.hour == hour
  }

  /** The slot of `hour` on `day`, as the day view renders it: its caption is the
      as-written label, which ends at the time it starts. */
  function SlotAt(events: seq<Event>, day: DateTime, hour: int): (s: Slot)
    requires 0 <= hour < 24
    ensures s.hour == hour && s.caption == SlotLabelAsWritten(hour)
    ensures s.caption[..5] == s.caption[8..]
    ensures forall e :: e in s.events <==> e in events && SameDay(e.date, day) && e.date.hour == hour
  {
    Slot(hour, SlotLabelAsWritten(hour), Filter(events, InHour(day, hour)))
  }

  /** The slot as intended: the same events under the corrected caption. */
  function CorrectedSlotAt(events: seq<Event>, day: DateTime, hour: int): (s: Slot)
    requires 0 <= hour < 24
    ensures s.hour == hour && s.caption == SlotLabel(hour)
    ensures s.caption[..5] != s.caption[8..]
    ensures forall e :: e in s.events <==> e in events && SameDay(e.date, day) && e.date.hour == hour
  {
    Slot(hour, SlotLabel(hour), Filter(events, InHour(day, hour)))
  }

  /** The correction changes the caption of every slot and nothing else. */
  lemma CorrectionOnlyChangesCaption(events: seq<Event>, day: DateTime, hour: int)
    requires 0 <= hour < 24
    ensures CorrectedSlotAt(events, day, hour) == SlotAt(events, day, hour).(caption := SlotLabel(hour))
    ensures CorrectedSlotAt(events, day, hour).caption != SlotAt(events, day, hour).caption
  {
  }

  /** The day view: one slot for every hour from 08:00 to 17:00 of the selected day (or
      today), each with the filtered events of that day and hour. */
  function DaySlots(events: seq<Event>, selected: Option<Date>, today: Date): (r: seq<Slot>)
    ensures |r| == 10
    ensures forall i :: 0 <= i < 10 ==> r[i] == SlotAt(events, selected.GetOr(today), 8 + i)
  {
    var day := selected.GetOr(today);
    seq(10, i requires 0 <= i < 10 => SlotAt(events, day, 8 + i))
  }

  /** Each event of the shown day before 18:00 and from 08:00 on appears in exactly the
      slot of its hour. */
  lemma EventInItsSlot(events: seq<Event>, selected: Option<Date>, today: Date, e: Event, i: int)
    requires e in events && SameDay(e.date, selected.GetOr(today)) && 0 <= i < 10
    ensures e in DaySlots(events, selected, today)[i].events <==> e.date.hour == 8 + i
  {
  }

  /** The day view's first slot reads "08:00 - 08:00". */
  lemma DayViewFirstCaption(events: seq<Event>, selected: Option<Date>, today: Date)
    ensures DaySlots(events, selected, today)[0].caption == "08:00 - 08:00"
  {
    SlotLabelAsWrittenIsEmpty();
  }

  /** What the main panel shows. The week view is not modelled. */
  datatype Body = Month(blanks: int, cells: seq<Cell<Event>>) | Week | Day(slots: seq<Slot>) | List(items: seq<Event>)

  function Render(s: State, events: seq<Event>, today: Date): (b: Body)
    ensures s.view == MonthView <==> b.Month?
    ensures s.view == DayView <==> b.Day?
    ensures s.view == ListView <==> b.List?
    ensures b.Month? ==> b.blanks == LeadingBlanks(s.current) &&
                         b.cells == MonthCells(FilteredEvents(events, s.project), EventDate, s.current, s.selected, today)
    ensures b.Day? ==> b.slots == DaySlots(FilteredEvents(events, s.project), s.selected, today)
    ensures b.List? ==> b.items == MonthList(FilteredEvents(events, s.project), EventDate, s.current)
  {
    var shown := FilteredEvents(events, s.project);
    match s.view
    case MonthView => Month(LeadingBlanks(s.current), MonthCells(shown, EventDate, s.current, s.selected, today))
    case WeekView => Week
    case DayView => Day(DaySlots(shown, s.selected, today))
    case ListView => List(MonthList(shown, EventDate, s.current))
  }

  /** The first screen: November 2025 starts on a Saturday, so the grid opens with five
      blank cells, and 10 November is highlighted. */
  lemma InitialScreen(events: seq<Event>, today: Date)
    ensures Render(Initial, events, today).Month?
    ensures Render(Initial, events, today).blanks == 5
    ensures Render(Initial, events, today).cells[9].highlighted
  {
    var current := Initial.current;
    assert StartOfMonth(current) == DateTime(2025, 10, 1, 0, 0);
    FirstOfNovember2025();
    assert LeadingBlanks(current) == 5;
    var cells := MonthCells(FilteredEvents(events, AllProjects), EventDate, current, Initial.selected, today);
    assert cells[9].date == MonthDays(current)[9];
  }
}
