/** The parts both calendar screens share: the Monday-first month grid, the events of a
    day, and the list of a month's events in time order. Events are of any type `E`
    with a date `dateOf(e)`. */
module CalendarGrid {
  import opened Wrappers
  import opened Seqs
  import opened Sorting
  import opened CivilDate

  /** A date that exists in the calendar. */
  type Date = d: DateTime | Valid(d) witness DateTime(2000, 0, 1, 0, 0)

  /** `(getDay(monthStart) + 6) % 7`: the blank cells before day 1 in a grid whose weeks
      start on Monday. */
  function LeadingBlanks(d: DateTime): (k: int)
    requires Valid(d)
    ensures 0 <= k < 7
    ensures k == 0 <==> Weekday(StartOfMonth(d)) == 1
    ensures k == 6 <==> Weekday(StartOfMonth(d)) == 0
  {
    var w := Weekday(StartOfMonth(d));
    BlankCount(w);
    (w + 6) % 7
  }

  /** Monday-first column of a Sunday-first weekday. */
  lemma BlankCount(w: int)
    requires 0 <= w < 7
    ensures 0 <= (w + 6) % 7 < 7
    ensures (w + 6) % 7 == 0 <==> w == 1
    ensures (w + 6) % 7 == 6 <==> w == 0
  {
  }

  /** `eachDayOfInterval` from the start to the end of the month: midnight of every day. */
  function MonthDays(d: DateTime): (r: seq<Date>)
    requires Valid(d)
    ensures |r| == DaysInMonth(d.year, d.month)
    ensures forall i :: 0 <= i < |r| ==> r[i] == DateTime(d.year, d.month, i + 1, 0, 0)
  {
    seq(DaysInMonth(d.year, d.month),
        i requires 0 <= i < DaysInMonth(d.year, d.month) => DateTime(d.year, d.month, i + 1, 0, 0))
  }

  /** After the blanks, day `i + 1` sits in the column of its weekday, Monday first. */
  lemma DaysInWeekdayColumns(d: DateTime, i: int)
    requires Valid(d) && 0 <= i < DaysInMonth(d.year, d.month)
    ensures (LeadingBlanks(d) + i) % 7 == (Weekday(MonthDays(d)[i]) + 6) % 7
  {
    DayColumn(d, i);
  }

  lemma DayColumn(d: DateTime, i: int)
    requires Valid(d) && 0 <= i < DaysInMonth(d.year, d.month)
    ensures (LeadingBlanks(d) + i) % 7 == (Weekday(DateTime(d.year, d.month, i + 1, 0, 0)) + 6) % 7
  {
    var n := DayNumber(StartOfMonth(d));
    var blanks, w := LeadingBlanks(d), Weekday(DateTime(d.year, d.month, i + 1, 0, 0));
    assert blanks == ((n + 6) % 7 + 6) % 7 by {
      assert Weekday(StartOfMonth(d)) == (n + 6) % 7;
    }
    assert w == (n + i + 6) % 7 by {
      DaysOfOneMonth(d.year, d.month, i);
    }
    ColumnShift(n, i, blanks, w);
  }

  /** Day `i + 1` of a month is `i` days after its first day. */
  lemma DaysOfOneMonth(y: int, m: int, i: int)
    requires 0 <= m < 12
    ensures DayNumber(DateTime(y, m, i + 1, 0, 0)) == DayNumber(DateTime(y, m, 1, 0, 0)) + i
  {
  }

  /** Moving `i` days on moves the Monday-first column `i` places on, modulo the week. */
  lemma ColumnShift(n: int, i: int, blanks: int, w: int)
    requires blanks == ((n + 6) % 7 + 6) % 7 && w == (n + i + 6) % 7
    ensures (blanks + i) % 7 == (w + 6) % 7
  {
    var q := (n + 6) / 7;
    assert n + 6 == 7 * q + (n + 6) % 7;
  }

  // ------------------------------------------------------------------- events

  function OnDay<E>(dateOf: E -> Date, day: DateTime): E -> bool {
    e => SameDay(dateOf(e), day)
  }

  /** One day of the month grid: its date, its events and whether it is highlighted. */
  datatype Cell<E> = Cell(date: Date, events: seq<E>, highlighted: bool)

  /** The cells of the month view. A day is highlighted when it is the selected day, or
      today when nothing is selected. */
  function MonthCells<E>(events: seq<E>, dateOf: E -> Date, current: DateTime, selected: Option<Date>,
                         today: Date): (r: seq<Cell<E>>)
    requires Valid(current)
    ensures |r| == DaysInMonth(current.year, current.month)
    ensures forall i :: 0 <= i < |r| ==> r[i].date == MonthDays(current)[i]
    ensures forall i :: 0 <= i < |r| ==> r[i].events == Filter(events, OnDay(dateOf, r[i].date))
    ensures forall i :: 0 <= i < |r| ==>
              (r[i].highlighted <==> SameDay(r[i].date, selected.GetOr(today)))
  {
    var days := MonthDays(current);
    seq(|days|, i requires 0 <= i < |days| =>
      Cell(days[i], Filter(events, OnDay(dateOf, days[i])), SameDay(days[i], selected.GetOr(today))))
  }

  /** A cell shows exactly the events of its calendar day. */
  lemma CellShowsItsDay<E>(events: seq<E>, dateOf: E -> Date, current: DateTime, selected: Option<Date>,
                           today: Date, i: int, e: E)
    requires Valid(current) && 0 <= i < DaysInMonth(current.year, current.month)
    ensures e in MonthCells(events, dateOf, current, selected, today)[i].events <==>
            e in events && dateOf(e).year == current.year && dateOf(e).month == current.month &&
            dateOf(e).day == i + 1
  {
  }

  // --------------------------------------------------------------------- list

  /** The comparator `a.date.getTime() - b.date.getTime()`, as "may come before". */
  function ByTime<E>(dateOf: E -> Date): (E, E) -> bool {
    (a, b) => Time(dateOf(a)) - Time(dateOf(b)) <= 0
  }

  lemma ByTimeTotalPreorder<E(!new)>(dateOf: E -> Date)
    ensures TotalPreorder(ByTime(dateOf))
  {
  }

  /** `e.date.getMonth() === current.getMonth()`: the month number alone, whatever the
      year. */
  function SameMonthNumber<E>(dateOf: E -> Date, current: DateTime): E -> bool {
    e => dateOf(e).month == current.month
  }

  /** The list view: the events whose month number is the current one, by time. */
  function MonthList<E>(events: seq<E>, dateOf: E -> Date, current: DateTime): (r: seq<E>)
    ensures multiset(r) == multiset(Filter(events, SameMonthNumber(dateOf, current)))
  {
    Sort(Filter(events, SameMonthNumber(dateOf, current)), ByTime(dateOf))
  }

  /** An event is listed exactly when its month number is the current one, in any year. */
  lemma MonthListMembers<E>(events: seq<E>, dateOf: E -> Date, current: DateTime, e: E)
    ensures e in MonthList(events, dateOf, current) <==> e in events && dateOf(e).month == current.month
  {
    assert e in MonthList(events, dateOf, current) <==> e in multiset(MonthList(events, dateOf, current));
  }

  /** The list runs forward in time, and events at the same moment keep their order. */
  lemma MonthListChronological<E(!new)>(events: seq<E>, dateOf: E -> Date, current: DateTime, i: int, j: int, k: E)
    requires 0 <= i < j < |MonthList(events, dateOf, current)|
    ensures var r := MonthList(events, dateOf, current);
            !Before(dateOf(r[j]), dateOf(r[i]))
    ensures Filter(MonthList(events, dateOf, current), EquivTo(ByTime(dateOf), k)) ==
            Filter(Filter(events, SameMonthNumber(dateOf, current)), EquivTo(ByTime(dateOf), k))
  {
    var r := MonthList(events, dateOf, current);
    var s := Filter(events, SameMonthNumber(dateOf, current));
    ByTimeTotalPreorder(dateOf);
    SortSorted(s, ByTime(dateOf));
    SortStable(s, ByTime(dateOf), k);
    assert ByTime(dateOf)(r[i], r[j]);
    TimeInOrder(dateOf(r[j]), dateOf(r[i]));
  }
}
