/**
 * The handover board: memos filtered by a date range (this week, this
 * month, last month or everything), twenty to a page, and a form that adds
 * a memo under a staff member's name. The database query and its results
 * are outside the model: a fetch is the row window it requests and the row
 * count it reports, and a submission is the row it would insert.
 */
module Handover {
  import opened Optional
  import opened Text
  import opened Calendar
  import Schedule

  // -------------------------------------------------------------- formatting

  /** `formatDate`: the year, then month and day padded to two digits, separated by `-`. */
  function FormatDate(d: Date): string {
    IntToString(d.year) + "-" + PadStart2(IntToString(d.month + 1)) + "-" + PadStart2(IntToString(d.day))
  }

  /**
   * For a year of four digits the text is `YYYY-MM-DD`: ten characters with
   * dashes at 4 and 7, and each part reads back as the year, the month
   * counted from 1 and the day.
   */
  lemma FormatDateShape(d: Date)
    requires Valid(d) && 1000 <= d.year <= 9999
    ensures |FormatDate(d)| == 10
    ensures FormatDate(d)[4] == '-' && FormatDate(d)[7] == '-'
    ensures ParseInt(FormatDate(d)[..4]) == Some(d.year)
    ensures ParseInt(FormatDate(d)[5..7]) == Some(d.month + 1)
    ensures ParseInt(FormatDate(d)[8..]) == Some(d.day)
  {
    var y, m, dd := IntToString(d.year), PadStart2(IntToString(d.month + 1)), PadStart2(IntToString(d.day));
    FourDigits(d.year);
    ShortDigits(d.month + 1);
    ShortDigits(d.day);
    DashedPieces(y, m, dd);
    var s := FormatDate(d);
    assert s == y + "-" + m + "-" + dd;
    assert s[..4] == y && s[5..7] == m && s[8..] == dd;
    ParseIntOfString(d.year);
    assert ParseInt(y) == Some(d.year);
    ParseIntOfPadded(d.month + 1);
    assert ParseInt(m) == Some(d.month + 1);
    ParseIntOfPadded(d.day);
    assert ParseInt(dd) == Some(d.day);
  }

  /** Where the pieces of a `YYYY-MM-DD` text lie. */
  lemma DashedPieces(y: string, m: string, dd: string)
    requires |y| == 4 && |m| == 2 && |dd| == 2
    ensures var s := y + "-" + m + "-" + dd;
      |s| == 10 && s[4] == '-' && s[7] == '-' && s[..4] == y && s[5..7] == m && s[8..] == dd
  {
    var s := y + "-" + m + "-" + dd;
    assert s[..4] == y;
    assert s[5..7] == m;
    assert s[8..] == dd;
  }

  /** Distinct dates with four-digit years are formatted differently. */
  lemma FormatDateInjective(a: Date, b: Date)
    requires Valid(a) && 1000 <= a.year <= 9999
    requires Valid(b) && 1000 <= b.year <= 9999
    requires FormatDate(a) == FormatDate(b)
    ensures a == b
  {
    FormatDateShape(a);
    FormatDateShape(b);
  }

  // ------------------------------------------------------------ date ranges

  /** A JavaScript `Date` object, reduced to its calendar date. */
  class JsDate {
    var date: Date

    ghost predicate Valid()
      reads this
    {
      Calendar.Valid(date)
    }

    /** `new Date(d)`: a copy of d. */
    constructor (d: Date)
      requires Calendar.Valid(d)
      ensures date == d && Valid()
    {
      date := d;
    }

    /** `setDate(n)`: day n of the current month, rolling over into the months around it. */
    method SetDate(n: int)
      requires Valid()
      modifies this
      ensures Valid()
      ensures DayNumber(date) == DayNumber(FirstOfMonth(old(date).year, old(date).month)) + n - 1
    {
      date := AddDays(FirstOfMonth(date.year, date.month), n - 1);
    }
  }

  /**
   * `new Date(y, m, d)`: the month is brought into 0..11 by carrying whole
   * years (floor division, so month -1 is December of the year before) and
   * the day rolls over from the first of that month.
   */
  function NewDate(y: int, m: int, d: int): (r: Date)
    ensures Valid(r)
    ensures DayNumber(r) == DayNumber(FirstOfMonth(y + m / 12, m % 12)) + d - 1
  {
    AddDays(FirstOfMonth(y + m / 12, m % 12), d - 1)
  }

  /** The filter buttons; every key other than the first three shows everything. */
  datatype Filter = Week | Month | LastMonth | All

  /** The first and the last date, as text, that a filter lets through. */
  datatype DateRange = DateRange(start: string, end: string)

  /** `diffToMon`: days from `now` back (or, never, forward) to the Monday of its week. */
  function DiffToMonday(now: Date): int
    requires Valid(now)
  {
    Schedule.MondayOffset(DayOfWeek(DayNumber(now)))
  }

  /** The Monday that starts the week of `now`; a Sunday belongs to the week before. */
  function WeekStart(now: Date): Date
    requires Valid(now)
  {
    AddDays(now, DiffToMonday(now))
  }

  /** The Sunday that ends the week of `now`. */
  function WeekEnd(now: Date): Date
    requires Valid(now)
  {
    AddDays(now, DiffToMonday(now) + 6)
  }

  /** `monday.setDate(now.getDate() + diffToMon)` lands on the start of the week. */
  lemma MondayIsWeekStart(now: Date, monday: Date)
    requires Valid(now) && Valid(monday)
    requires DayNumber(monday) == DayNumber(FirstOfMonth(now.year, now.month)) + now.day + DiffToMonday(now) - 1
    ensures monday == WeekStart(now)
  {
    DayNumberInjective(monday, WeekStart(now));
  }

  /** `sunday.setDate(monday.getDate() + 6)` lands on the end of the week. */
  lemma SundayIsWeekEnd(now: Date, monday: Date, sunday: Date)
    requires Valid(now) && Valid(sunday) && monday == WeekStart(now)
    requires DayNumber(sunday) == DayNumber(FirstOfMonth(monday.year, monday.month)) + monday.day + 6 - 1
    ensures sunday == WeekEnd(now)
  {
    DayNumberInjective(sunday, WeekEnd(now));
  }

  /**
   * `getDateRange`, with `new Date()` given as `now` and the week computed
   * on mutable dates: Monday to Sunday of the current week, the first to
   * the last day of the current month or of the month before, or no range.
   */
  method GetDateRange(filter: Filter, now: Date) returns (r: Option<DateRange>)
    requires Valid(now)
    ensures r.None? <==> filter == All
    ensures filter == Week ==> r == Some(DateRange(FormatDate(WeekStart(now)), FormatDate(WeekEnd(now))))
    ensures filter == Month ==>
      r == Some(DateRange(FormatDate(FirstOfMonth(now.year, now.month)), FormatDate(LastOfMonth(now.year, now.month))))
    ensures filter == LastMonth ==> var prev := Schedule.PrevMonth(now.year, now.month);
      r == Some(DateRange(FormatDate(FirstOfMonth(prev.0, prev.1)), FormatDate(LastOfMonth(prev.0, prev.1))))
  {
    if filter == Week {
      var day := DayOfWeek(DayNumber(now));
      var diffToMon := if day == 0 then -6 else 1 - day;
      var monday := new JsDate(now);
      monday.SetDate(now.day + diffToMon);
      var start := monday.date;
      MondayIsWeekStart(now, start);
      var sunday := new JsDate(start);
      sunday.SetDate(start.day + 6);
      SundayIsWeekEnd(now, start, sunday.date);
      return Some(DateRange(FormatDate(start), FormatDate(sunday.date)));
    }
    if filter == Month {
      var start := NewDate(now.year, now.month, 1);
      var end := NewDate(now.year, now.month + 1, 0);
      NewDateFirst(now.year, now.month);
      NewDateDayZero(now.year, now.month);
      return Some(DateRange(FormatDate(start), FormatDate(end)));
    }
    if filter == LastMonth {
      var start := NewDate(now.year, now.month - 1, 1);
      var end := NewDate(now.year, now.month, 0);
      LastMonthBounds(now);
      return Some(DateRange(FormatDate(start), FormatDate(end)));
    }
    return None;
  }

  /**
   * The week range starts on a Monday no later than `now`, a Sunday starts
   * six days back, and the range ends six days after its start, on a Sunday
   * no earlier than `now`.
   */
  lemma WeekRunsMondayToSunday(now: Date)
    requires Valid(now)
    ensures DayOfWeek(DayNumber(WeekStart(now))) == 1
    ensures DayOfWeek(DayNumber(WeekEnd(now))) == 0
    ensures DayNumber(WeekEnd(now)) == DayNumber(WeekStart(now)) + 6
    ensures DayNumber(WeekStart(now)) <= DayNumber(now) <= DayNumber(WeekEnd(now))
    ensures DayOfWeek(DayNumber(now)) == 0 ==> DayNumber(WeekStart(now)) == DayNumber(now) - 6
  {
    MondayToSunday(DayNumber(now), DayNumber(WeekStart(now)), DayNumber(WeekEnd(now)));
  }

  /** The same on day numbers: the week of n runs from its Monday m to m + 6, a Sunday. */
  lemma MondayToSunday(n: int, m: int, e: int)
    requires m == n + Schedule.MondayOffset(DayOfWeek(n)) && e == m + 6
    ensures DayOfWeek(m) == 1 && DayOfWeek(e) == 0
    ensures m <= n <= e
    ensures DayOfWeek(n) == 0 ==> m == n - 6
  {
    assert m == Schedule.MondayOf(n);
    DivisionOf(m + 4, 7, (m + 4) / 7, 1);
    DivisionOf(e + 4, 7, (m + 4) / 7 + 1, 0);
  }

  /** `new Date(y, m, 1)` is the first of month m. */
  lemma NewDateFirst(y: int, m: int)
    requires 0 <= m < 12
    ensures NewDate(y, m, 1) == FirstOfMonth(y, m)
  {
    DivisionOf(m, 12, 0, m);
  }

  /** `new Date(y, m + 1, 0)` is the last day of month m, in December too. */
  lemma NewDateDayZero(y: int, m: int)
    requires 0 <= m < 12
    ensures NewDate(y, m + 1, 0) == LastOfMonth(y, m)
  {
    var next := Schedule.NextMonth(y, m);
    if m < 11 {
      DivisionOf(m + 1, 12, 0, m + 1);
    } else {
      DivisionOf(m + 1, 12, 1, 0);
    }
    assert FirstOfMonth(y + (m + 1) / 12, (m + 1) % 12) == FirstOfMonth(next.0, next.1);
    DayBeforeFirst(y, m, NewDate(y, m + 1, 0));
  }

  /** The day before the first of the next month is the last of this one. */
  lemma DayBeforeFirst(y: int, m: int, x: Date)
    requires 0 <= m < 12
    requires Valid(x)
    requires var next := Schedule.NextMonth(y, m); DayNumber(x) == DayNumber(FirstOfMonth(next.0, next.1)) - 1
    ensures x == LastOfMonth(y, m)
  {
    var next := Schedule.NextMonth(y, m);
    var first, last := FirstOfMonth(next.0, next.1), LastOfMonth(y, m);
    MonthsAreContiguous(y, m);
    assert NextDay(last) == first;
    NextDayNumber(last);
    assert DayNumber(x) == DayNumber(first) - 1 == DayNumber(last);
    DayNumberInjective(x, last);
  }

  /** `new Date(y, m - 1, 1)` and `new Date(y, m, 0)` are the first and the last day of the month before, across January too. */
  lemma LastMonthBounds(now: Date)
    requires Valid(now)
    ensures var prev := Schedule.PrevMonth(now.year, now.month);
      NewDate(now.year, now.month - 1, 1) == FirstOfMonth(prev.0, prev.1) &&
      NewDate(now.year, now.month, 0) == LastOfMonth(prev.0, prev.1)
  {
    var prev := Schedule.PrevMonth(now.year, now.month);
    if now.month == 0 {
      DivisionOf(-1, 12, -1, 11);
      DivisionOf(0, 12, 0, 0);
      DivisionOf(12, 12, 1, 0);
      assert NewDate(now.year, now.month, 0) == NewDate(prev.0, prev.1 + 1, 0);
    } else {
      DivisionOf(now.month - 1, 12, 0, now.month - 1);
    }
    NewDateDayZero(prev.0, prev.1);
  }

  // ----------------------------------------------------------------- paging

  const PageSize: int := 20

  /** `.range(page * PAGE_SIZE, (page + 1) * PAGE_SIZE - 1)`: the first and the last row a page asks for. */
  function PageWindow(page: int): (r: (int, int)) {
    (page * PageSize, (page + 1) * PageSize - 1)
  }

  /** A page asks for exactly PageSize rows, and the next page starts right after it. */
  lemma PageWindowsTile(page: int)
    ensures PageWindow(page).1 - PageWindow(page).0 + 1 == PageSize
    ensures PageWindow(page + 1).0 == PageWindow(page).1 + 1
  {
  }

  /** Every row lies on exactly one page: the one numbered row / PageSize. */
  lemma RowOnOnePage(row: int, page: int)
    requires row >= 0
    ensures PageWindow(page).0 <= row <= PageWindow(page).1 <==> page == row / PageSize
  {
    DivisionOf(row, PageSize, row / PageSize, row % PageSize);
  }

  /** `Math.ceil(totalCount / PAGE_SIZE)`: the fewest pages that hold every row. */
  function TotalPages(count: nat): (r: nat)
    ensures count == 0 ==> r == 0
    ensures count > 0 ==> PageSize * (r - 1) < count <= PageSize * r
  {
    var q := (count + PageSize - 1) / PageSize;
    DivisionOf(count + PageSize - 1, PageSize, q, (count + PageSize - 1) % PageSize);
    q
  }

  /** The last page holds the last row. */
  lemma LastPageHoldsLastRow(count: nat)
    requires count > 0
    ensures PageWindow(TotalPages(count) - 1).0 <= count - 1 <= PageWindow(TotalPages(count) - 1).1
  {
  }

  // ------------------------------------------------------------------ board

  /** The row a submission inserts. */
  datatype Memo = Memo(title: string, content: string, author: string, date: string)

  /** Clicking a staff name: the selected name is cleared, any other is selected. */
  function ToggledAuthor(current: string, name: string): (r: string)
    ensures current == name ==> r == []
    ensures current != name ==> r == name
  {
    if current == name then [] else name
  }

  /** Clicking the same name twice restores the selection when it was empty or that name. */
  lemma ToggleAuthorTwice(current: string, name: string)
    requires current == [] || current == name
    ensures ToggledAuthor(ToggledAuthor(current, name), name) == current
  {
  }

  /**
   * The row `handleSubmit` inserts: none when the content or the author is
   * blank, otherwise the trimmed content and author under the title "-"
   * and the date `today` formatted as `YYYY-MM-DD`.
   */
  function NewMemo(content: string, author: string, today: Date): (r: Option<Memo>)
    ensures r.None? <==> IsBlank(content) || IsBlank(author)
    ensures r.Some? ==> r.value.title == "-" && r.value.date == FormatDate(today)
    ensures r.Some? ==> r.value.content == Trim(content) && r.value.author == Trim(author)
    ensures r.Some? ==> r.value.content != [] && !IsWhitespace(r.value.content[0])
  {
    if Trim(content) == [] || Trim(author) == [] then None
    else Some(Memo("-", Trim(content), Trim(author), FormatDate(today)))
  }

  /** The handover page's state: filter, page, row count and the memo form. */
  class Board {
    var activeFilter: Filter
    var page: int
    var totalCount: nat
    var content: string
    var author: string
    var showForm: bool

    /** The page number stays within the pages there are. */
    ghost predicate Valid()
      reads this
    {
      0 <= page && (page == 0 || page < TotalPages(totalCount))
    }

    /** The page opens on this week's memos, first page, empty form. */
    constructor ()
      ensures activeFilter == Week && page == 0 && totalCount == 0
      ensures content == [] && author == [] && !showForm
      ensures Valid()
    {
      activeFilter := Week;
      page := 0;
      totalCount := 0;
      content := [];
      author := [];
      showForm := false;
    }

    /** The rows a fetch asks for: the window of the current page. */
    function Window(): (r: (int, int))
      reads this
      ensures r.1 - r.0 + 1 == PageSize
      ensures Valid() ==> r.0 >= 0
    {
      PageWindow(page)
    }

    /** A fetch that succeeded reports the number of matching rows (`count || 0`). */
    method Fetched(count: nat)
      modifies this
      ensures totalCount == count
      ensures activeFilter == old(activeFilter) && page == old(page)
      ensures content == old(content) && author == old(author) && showForm == old(showForm)
    {
      totalCount := count;
    }

    /** `handleFilterChange`: switch the filter and go back to the first page. */
    method FilterChange(key: Filter)
      modifies this
      ensures activeFilter == key && page == 0
      ensures totalCount == old(totalCount)
      ensures content == old(content) && author == old(author) && showForm == old(showForm)
      ensures Valid()
    {
      activeFilter := key;
      page := 0;
    }

    /** The previous-page button, shown only while there is more than one page. */
    method PrevPage()
      requires TotalPages(totalCount) > 1
      modifies this
      ensures page == if old(page) > 0 then old(page) - 1 else 0
      ensures activeFilter == old(activeFilter) && totalCount == old(totalCount)
      ensures content == old(content) && author == old(author) && showForm == old(showForm)
      ensures old(Valid()) ==> Valid()
    {
      page := if page - 1 > 0 then page - 1 else 0;
    }

    /** The next-page button, shown only while there is more than one page. */
    method NextPage()
      requires TotalPages(totalCount) > 1
      modifies this
      ensures page == if old(page) + 1 < TotalPages(totalCount) then old(page) + 1 else TotalPages(totalCount) - 1
      ensures activeFilter == old(activeFilter) && totalCount == old(totalCount)
      ensures content == old(content) && author == old(author) && showForm == old(showForm)
      ensures old(Valid()) ==> Valid()
    {
      var last := TotalPages(totalCount) - 1;
      page := if last < page + 1 then last else page + 1;
    }

    /** A staff button of the form. */
    method ToggleAuthor(name: string)
      modifies this
      ensures author == ToggledAuthor(old(author), name)
      ensures activeFilter == old(activeFilter) && page == old(page) && totalCount == old(totalCount)
      ensures content == old(content) && showForm == old(showForm)
    {
      author := if author == name then [] else name;
    }

    /**
     * `handleSubmit` on the date `today`. With blank content or a blank
     * author nothing happens; otherwise the row NewMemo describes is inserted and,
     * unless the insert fails, the form is cleared and closed and the board
     * goes back to the first page.
     */
    method Submit(today: Date, insertFails: bool) returns (insert: Option<Memo>)
      requires Calendar.Valid(today)
      modifies this
      ensures insert == NewMemo(old(content), old(author), today)
      ensures insert.Some? && !insertFails ==> content == [] && !showForm && page == 0
      ensures insert.None? || insertFails ==> content == old(content) && showForm == old(showForm) && page == old(page)
      ensures author == old(author)
      ensures activeFilter == old(activeFilter)
      ensures totalCount == old(totalCount)
      ensures (insert.Some? && !insertFails) || old(Valid()) ==> Valid()
    {
      insert := NewMemo(content, author, today);
      if insert.Some? && !insertFails {
        CloseForm();
      }
    }

    /** After a successful insert: the form is emptied and closed and the board goes back to the first page. */
    method CloseForm()
      modifies this
      ensures content == [] && !showForm && page == 0
      ensures author == old(author) && activeFilter == old(activeFilter) && totalCount == old(totalCount)
      ensures Valid()
    {
      content := [];
      showForm := false;
      page := 0;
    }
  }
}
