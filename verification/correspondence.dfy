/** The correspondence list: a search box filters the rows, a click on a column header
    sets or toggles the sort column, and the rows are sorted by that column. Dates are
    compared through `Time`, the parsed timestamp of a date string (a parameter of the
    model), and text through a locale comparison `Compare` (see `Collation`). */
module Correspondence {
  import opened Wrappers
  import opened Seqs
  import opened Sorting
  import opened Text
  import opened Api
  import opened Collation

  /** A communication together with the name and slug of its project. */
  datatype Row = Row(comm: Communication, projectName: string, projectSlug: string)

  datatype SortKey = Id | Title | Institution | Direction | Code | CommunicatedAt | ProjectName | ProjectSlug

  datatype Direction = Ascending | Descending

  datatype SortConfig = SortConfig(key: SortKey, direction: Direction)

  type Time = string -> int

  /** The sort state when the view opens: newest communication first. */
  const InitialSort: Option<SortConfig> := Some(SortConfig(CommunicatedAt, Descending))

  /** A click on the header of `key`: the column currently sorted ascending flips to
      descending, and anything else sorts by `key` ascending. */
  function HandleSort(current: Option<SortConfig>, key: SortKey): (next: SortConfig)
    ensures next.key == key
    ensures next.direction == Descending <==> current == Some(SortConfig(key, Ascending))
  {
    if current.Some? && current.value.key == key && current.value.direction == Ascending
    then SortConfig(key, Descending)
    else SortConfig(key, Ascending)
  }

  /** Clicking the same header again always reverses the direction. */
  lemma SecondClickReverses(current: Option<SortConfig>, key: SortKey)
    ensures HandleSort(Some(HandleSort(current, key)), key).direction != HandleSort(current, key).direction
  {
  }

  // ---------------------------------------------------------------------------------
  // Search

  /** The row matches the lowercased term in its title, project name, institution or code. */
  function Matches(term: string): Row -> bool {
    (r: Row) => Contains(Lower(r.comm.title), term) || Contains(Lower(r.projectName), term) ||
         Contains(Lower(r.comm.institution), term) || Contains(Lower(r.comm.code), term)
  }

  /** An empty search term keeps every row; otherwise exactly the matching rows stay, in
      order. */
  function Search(rows: seq<Row>, term: string): (r: seq<Row>)
    ensures term == "" ==> r == rows
    ensures term != "" ==> r == Filter(rows, Matches(Lower(term)))
    ensures forall x :: x in r <==> x in rows && (term == "" || Matches(Lower(term))(x))
  {
    if term == "" then rows else Filter(rows, Matches(Lower(term)))
  }

  // ---------------------------------------------------------------------------------
  // Sorting

  datatype Value = Number(n: int) | Text(s: string)

  /** The row's value in column `key`. */
  function ValueOf(r: Row, key: SortKey): Value {
    match key
    case Id => Number(r.comm.id)
    case Title => Text(r.comm.title)
    case Institution => Text(r.comm.institution)
    case Direction => Text(r.comm.direction)
    case Code => Text(r.comm.code)
    case CommunicatedAt => Text(r.comm.communicatedAt)
    case ProjectName => Text(r.projectName)
    case ProjectSlug => Text(r.projectSlug)
  }

  /** The six columns holding text other than a date: compared by the locale comparison. */
  predicate IsTextKey(key: SortKey) {
    key != Id && key != CommunicatedAt
  }

  /** -1, 1 or 0 for "before", "after", "either", turned round when descending. */
  function Signed(cfg: SortConfig, before: bool, after: bool): int {
    if before then (if cfg.direction == Ascending then -1 else 1)
    else if after then (if cfg.direction == Ascending then 1 else -1)
    else 0
  }

  /** The sort comparator: dates by timestamp, text by the locale comparison, and the
      numeric id not at all. */
  function CompareRows(cfg: SortConfig, time: Time, compare: Compare, a: Row, b: Row): (r: int)
    ensures -1 <= r <= 1
    ensures cfg.key == Id ==> r == 0
    ensures cfg.key == CommunicatedAt && cfg.direction == Ascending ==>
              (r < 0 <==> time(a.comm.communicatedAt) < time(b.comm.communicatedAt))
    ensures cfg.key == CommunicatedAt && cfg.direction == Descending ==>
              (r < 0 <==> time(a.comm.communicatedAt) > time(b.comm.communicatedAt))
    ensures cfg.key == CommunicatedAt ==>
              (r == 0 <==> time(a.comm.communicatedAt) == time(b.comm.communicatedAt))
    ensures IsTextKey(cfg.key) && cfg.direction == Ascending ==>
              (r < 0 <==> compare(ValueOf(a, cfg.key).s, ValueOf(b, cfg.key).s) < 0)
    ensures IsTextKey(cfg.key) && cfg.direction == Descending ==>
              (r < 0 <==> compare(ValueOf(a, cfg.key).s, ValueOf(b, cfg.key).s) > 0)
    ensures IsTextKey(cfg.key) ==>
              (r == 0 <==> compare(ValueOf(a, cfg.key).s, ValueOf(b, cfg.key).s) == 0)
  {
    if cfg.key == CommunicatedAt then
      var ta, tb := time(a.comm.communicatedAt), time(b.comm.communicatedAt);
      Signed(cfg, ta < tb, ta > tb)
    else
      match (ValueOf(a, cfg.key), ValueOf(b, cfg.key))
      case (Text(x), Text(y)) => Signed(cfg, compare(x, y) < 0, compare(x, y) > 0)
      case _ => 0
  }

  /** Descending is ascending turned round, pair by pair. */
  lemma DescendingFlipsSign(key: SortKey, time: Time, compare: Compare, a: Row, b: Row)
    ensures CompareRows(SortConfig(key, Descending), time, compare, a, b) ==
            -CompareRows(SortConfig(key, Ascending), time, compare, a, b)
  {
  }

  function RowLe(cfg: SortConfig, time: Time, compare: Compare): (Row, Row) -> bool {
    (a, b) => CompareRows(cfg, time, compare, a, b) <= 0
  }

  /** For a consistent locale comparison the comparator orders all rows, so the stable
      sort's result is determined. */
  lemma RowLeTotalPreorder(cfg: SortConfig, time: Time, compare: Compare)
    requires IsCollation(compare)
    ensures TotalPreorder(RowLe(cfg, time, compare))
  {
    var le := RowLe(cfg, time, compare);
    forall a, b ensures le(a, b) || le(b, a) {
      var x, y := ValueOf(a, cfg.key), ValueOf(b, cfg.key);
      if x.Text? && y.Text? {
        assert compare(x.s, y.s) < 0 <==> compare(y.s, x.s) > 0;
      }
    }
    forall a, b, c | le(a, b) && le(b, c) ensures le(a, c) {
      var x, y, z := ValueOf(a, cfg.key), ValueOf(b, cfg.key), ValueOf(c, cfg.key);
      if cfg.key != CommunicatedAt && x.Text? && y.Text? && z.Text? {
        if cfg.direction == Ascending {
          assert compare(x.s, y.s) <= 0 && compare(y.s, z.s) <= 0;
        } else {
          assert compare(y.s, x.s) <= 0 && compare(z.s, y.s) <= 0;
          assert compare(z.s, x.s) <= 0;
        }
      }
    }
  }

  /** `filteredAndSortedCommunications`: a fresh, searched copy of the rows, sorted when a
      sort column is set. */
  function Visible(rows: seq<Row>, term: string, cfg: Option<SortConfig>, time: Time, compare: Compare)
    : (r: seq<Row>)
    ensures multiset(r) == multiset(Search(rows, term))
    ensures cfg.None? ==> r == Search(rows, term)
  {
    var found := Search(rows, term);
    if cfg.None? then found else Sort(found, RowLe(cfg.value, time, compare))
  }

  /** The visible rows are ordered by the comparator, and rows it cannot tell apart keep
      their original relative order. */
  lemma VisibleSortedAndStable(rows: seq<Row>, term: string, cfg: SortConfig, time: Time,
                               compare: Compare, k: Row)
    requires IsCollation(compare)
    ensures Sorted(Visible(rows, term, Some(cfg), time, compare), RowLe(cfg, time, compare))
    ensures var le := RowLe(cfg, time, compare);
            Filter(Visible(rows, term, Some(cfg), time, compare), EquivTo(le, k)) ==
            Filter(Search(rows, term), EquivTo(le, k))
  {
    RowLeTotalPreorder(cfg, time, compare);
    SortSorted(Search(rows, term), RowLe(cfg, time, compare));
    SortStable(Search(rows, term), RowLe(cfg, time, compare), k);
  }

  /** `a` may stand before `b` in the locale order of the text column `cfg.key`, read
      backwards when descending. */
  predicate InTextOrder(cfg: SortConfig, compare: Compare, a: Row, b: Row)
    requires IsTextKey(cfg.key)
  {
    var x, y := ValueOf(a, cfg.key).s, ValueOf(b, cfg.key).s;
    (cfg.direction == Ascending ==> compare(x, y) <= 0) &&
    (cfg.direction == Descending ==> compare(y, x) <= 0)
  }

  /** On a text column the comparator's "not after" is the locale order. */
  lemma RowLeIsTextOrder(cfg: SortConfig, time: Time, compare: Compare, a: Row, b: Row)
    requires IsCollation(compare) && IsTextKey(cfg.key)
    ensures RowLe(cfg, time, compare)(a, b) <==> InTextOrder(cfg, compare, a, b)
  {
    var x, y := ValueOf(a, cfg.key).s, ValueOf(b, cfg.key).s;
    assert compare(x, y) > 0 <==> compare(y, x) < 0;
  }

  /** Sorted by a text column, the shown rows read in the locale order of that column:
      never decreasing when ascending, never increasing when descending. */
  lemma VisibleInTextOrder(rows: seq<Row>, term: string, cfg: SortConfig, time: Time,
                           compare: Compare, i: int, j: int)
    requires IsCollation(compare) && IsTextKey(cfg.key)
    ensures var v := Visible(rows, term, Some(cfg), time, compare);
            0 <= i < j < |v| ==> InTextOrder(cfg, compare, v[i], v[j])
  {
    var v := Visible(rows, term, Some(cfg), time, compare);
    if 0 <= i < j < |v| {
      var a, b := v[i], v[j];
      assert RowLe(cfg, time, compare)(a, b) by {
        VisibleSortedAndStable(rows, term, cfg, time, compare, a);
      }
      RowLeIsTextOrder(cfg, time, compare, a, b);
    }
  }

  /** Sorting by id leaves the rows as the search left them: the comparator answers 0. */
  lemma SortByIdKeepsOrder(rows: seq<Row>, term: string, dir: Direction, time: Time, compare: Compare)
    ensures Visible(rows, term, Some(SortConfig(Id, dir)), time, compare) == Search(rows, term)
  {
    SortKeepsEquivalent(Search(rows, term), RowLe(SortConfig(Id, dir), time, compare));
  }
}
