/** The earlier calendar screen: a month grid and a month list over its own sample
    events, arrows that move the shown month, and placeholders for the week and day
    views. "Now" is the parameter `today`. */
module CalendarPage {
  import opened Wrappers
  import opened CivilDate
  import opened CalendarGrid

  datatype PageEvent = PageEvent(date: Date, title: string, kind: string)

  function PageEventDate(e: PageEvent): Date {
    e.date
  }

  const SampleEvents: seq<PageEvent> := [
    PageEvent(DateTime(2025, 10, 3, 10, 0), "Proje Başlangıç Toplantısı", "meeting"),
    PageEvent(DateTime(2025, 10, 5, 14, 0), "Tasarım Sunumu", "presentation"),
    PageEvent(DateTime(2025, 10, 10, 9, 0), "Hakediş Raporu Teslimi", "deadline"),
    PageEvent(DateTime(2025, 10, 10, 11, 0), "İç Değerlendirme", "meeting"),
    PageEvent(DateTime(2025, 10, 17, 13, 0), "Müşteri Revizyon Toplantısı", "meeting"),
    PageEvent(DateTime(2025, 10, 25, 18, 0), "Faz 1 Teslimi", "deadline")]

  datatype ViewMode = MonthView | WeekView | DayView | ListView

  datatype State = State(selected: Option<Date>, currentMonth: Date, view: ViewMode)

  const Initial := State(Some(DateTime(2025, 10, 10, 0, 0)), DateTime(2025, 10, 1, 0, 0), MonthView)

  /** `handleDateSelect`: a picked date also shows its month; clearing the selection
      leaves the shown month alone. */
  function SelectDate(s: State, date: Option<Date>): (t: State)
    ensures t.selected == date && t.view == s.view
    ensures date.None? ==> t.currentMonth == s.currentMonth
    ensures date.Some? ==> t.currentMonth.year == date.value.year && t.currentMonth.month == date.value.month
    ensures date.Some? ==> t.currentMonth.day == 1 && t.currentMonth.hour == 0 && t.currentMonth.minute == 0
  {
    match date
    case None => s.(selected := date)
    case Some(d) => s.(selected := date, currentMonth := StartOfMonth(d))
  }

  /** The left arrow: one month back, in every view. */
  function PreviousMonth(s: State): (t: State)
    ensures t == s.(currentMonth := t.currentMonth)
    ensures MonthIndex(t.currentMonth) == MonthIndex(s.currentMonth) - 1
  {
    s.(currentMonth := AddMonths(s.currentMonth, -1))
  }

  /** The right arrow: one month on, in every view. */
  function NextMonth(s: State): (t: State)
    ensures t == s.(currentMonth := t.currentMonth)
    ensures MonthIndex(t.currentMonth) == MonthIndex(s.currentMonth) + 1
  {
    s.(currentMonth := AddMonths(s.currentMonth, 1))
  }

  /** The arrows undo each other when the shown day exists in every month. */
  lemma ArrowsUndoEachOther(s: State)
    requires s.currentMonth.day <= 28
    ensures PreviousMonth(NextMonth(s)) == s
    ensures NextMonth(PreviousMonth(s)) == s
  {
    AddMonthsRoundTrip(s.currentMonth, 1);
    AddMonthsRoundTrip(s.currentMonth, -1);
  }

  datatype Color = Red | Blue

  /** Red for deadlines, blue for every other kind. */
  function EventColor(kind: string): (c: Color)
    ensures c == Red <==> kind == "deadline"
  {
    if kind == "deadline" then Red else Blue
  }

  /** `renderOtherViews(viewName)`: the "coming soon" text of a view not built yet. */
  function ComingSoon(viewName: string): string {
    viewName + " görünümü yakında eklenecektir."
  }

  /** The main panel: the month grid, a "coming soon" placeholder, or the month list.
      The page shows its own `SampleEvents`; they are the parameter `events` here. */
  datatype Body = Month(blanks: int, cells: seq<Cell<PageEvent>>) | Placeholder(text: string) | List(items: seq<PageEvent>)

  function Render(s: State, events: seq<PageEvent>, today: Date): (b: Body)
    ensures s.view == MonthView <==> b.Month?
    ensures s.view == WeekView ==> b == Placeholder(ComingSoon("Hafta"))
    ensures s.view == DayView ==> b == Placeholder(ComingSoon("Gün"))
    ensures s.view == ListView <==> b.List?
    ensures b.Month? ==> b.blanks == LeadingBlanks(s.currentMonth) &&
                         b.cells == MonthCells(events, PageEventDate, s.currentMonth, s.selected, today)
    ensures b.List? ==> b.items == MonthList(events, PageEventDate, s.currentMonth)
  {
    match s.view
    case MonthView =>
      Month(LeadingBlanks(s.currentMonth), MonthCells(events, PageEventDate, s.currentMonth, s.selected, today))
    case WeekView => Placeholder(ComingSoon("Hafta"))
    case DayView => Placeholder(ComingSoon("Gün"))
    case ListView => List(MonthList(events, PageEventDate, s.currentMonth))
  }
}
