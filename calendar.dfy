/** The clock widget of bar/module/datetime.js: the month calendar that
    drops out of the bar (class `Calandar` in the source, `Calendar` here)
    and the bar element that opens it (`DateTime`).

    The calendar is a column of rows: a legend of day letters, then one row
    of seven cells per week, each optionally followed by an ISO week label.
    The clock (`dayjs()`) is a parameter: `today` is the day of the month,
    and a `Month` carries the weekday of the 1st (0 = Sunday), the number
    of days and the ISO week number of the 1st. Element identifiers that
    `UI.createElement` hands out are parameters too. */
module Datetime {
  import opened Common

  /** What `dayjs()` reports about the current month. */
  datatype Month = Month(firstDayNumber: int, daysInMonth: nat, isoWeekNumber: int)

  /** `firstDay.day()` is a weekday, 0 to 6; any other value would keep
      the week loop from ever reaching the first day. */
  predicate WellFormed(m: Month) { 0 <= m.firstDayNumber < 7 }

  /** The colours of `config.clock.calendar`, and whether week labels are on. */
  datatype CalendarConfig = CalendarConfig(emptyCell: string, normalCell: string, todayCell: string,
                                           normalDay: string, todayDay: string, weekText: string,
                                           showISOWeek: bool)

  /** One day cell: its box colour, its text colour and its text. */
  datatype DayCell = DayCell(cellColour: string, textColour: string, text: string)

  /** A child of the calendar column. */
  datatype CalendarRow =
    | Legend(letters: seq<string>)
    | Days(cells: seq<DayCell>)
    | WeekLabel(colour: string, text: string)

  const DayLetters: seq<string> := ["S", "M", "T", "W", "T", "F", "S"]

  // ---------------------------------------------------------------------
  // The grid, cell by cell
  // ---------------------------------------------------------------------

  /** The value of the source's `dayCount` once cell i (counting from 0,
      seven to a row) has been laid: -1 before the first day of the month,
      then the day number, running on past the end of the month. */
  function DayCountAt(m: Month, i: int): (dayCount: int)
    ensures dayCount == -1 || dayCount >= 1
  {
    if i < m.firstDayNumber then -1 else i - m.firstDayNumber + 1
  }

  /** Whether a day count names a day of the month. */
  predicate InMonth(m: Month, dayCount: int) { 1 <= dayCount <= m.daysInMonth }

  /** The cell for a day count: the empty colour before the month begins,
      the today colours on today, the normal cell colour otherwise, and the
      empty cell colour again past the month's end (where the text colour
      is left alone). Only days of the month carry their number. */
  function CellFor(m: Month, today: int, cfg: CalendarConfig, dayCount: int): (c: DayCell)
    ensures dayCount == -1 || dayCount >= 1 ==> (c.text == "" <==> !InMonth(m, dayCount))
    ensures InMonth(m, dayCount) ==> c.text == NatToString(dayCount)
  {
    var cellColour :=
      if dayCount > m.daysInMonth then cfg.emptyCell
      else if today == dayCount then cfg.todayCell
      else if dayCount > -1 then cfg.normalCell
      else cfg.emptyCell;
    var textColour := if today == dayCount then cfg.todayDay else cfg.normalDay;
    DayCell(cellColour, textColour, if dayCount == -1 || dayCount > m.daysInMonth then "" else IntToString(dayCount))
  }

  function CellAt(m: Month, today: int, cfg: CalendarConfig, i: int): DayCell
  {
    CellFor(m, today, cfg, DayCountAt(m, i))
  }

  /** The number of week rows: the loop runs while the count has not passed
      the end of the month. */
  function WeekCount(m: Month): nat
    requires WellFormed(m)
  {
    (m.firstDayNumber + m.daysInMonth) / 7 + 1
  }

  function WeekCells(m: Month, today: int, cfg: CalendarConfig, w: nat): (cells: seq<DayCell>)
    ensures |cells| == 7
    ensures forall d :: 0 <= d < 7 ==> cells[d] == CellAt(m, today, cfg, 7 * w + d)
  {
    seq(7, d requires 0 <= d < 7 => CellAt(m, today, cfg, 7 * w + d))
  }

  function WeekText(m: Month, w: nat): string
  {
    "Wk " + IntToString(m.isoWeekNumber + w)
  }

  /** The rows week w adds: its cells, then its label when labels are on. */
  function WeekRows(m: Month, today: int, cfg: CalendarConfig, w: nat): (rows: seq<CalendarRow>)
  {
    [Days(WeekCells(m, today, cfg, w))] + (if cfg.showISOWeek then [WeekLabel(cfg.weekText, WeekText(m, w))] else [])
  }


  /** Row i of the week rows: week i's cells when labels are off; week
      i / 2's cells or label, alternately, when they are on. */
  function WeekRowAt(m: Month, today: int, cfg: CalendarConfig, i: nat): CalendarRow
  {
    if !cfg.showISOWeek then Days(WeekCells(m, today, cfg, i))
    else if i % 2 == 0 then Days(WeekCells(m, today, cfg, i / 2))
    else WeekLabel(cfg.weekText, WeekText(m, i / 2))
  }

  /** The rows of the first n weeks. */
  function Weeks(m: Month, today: int, cfg: CalendarConfig, n: nat): (rows: seq<CalendarRow>)
    ensures |rows| == if cfg.showISOWeek then 2 * n else n
  {
    seq(if cfg.showISOWeek then 2 * n else n, i requires i >= 0 => WeekRowAt(m, today, cfg, i))
  }

  /** One more week appends that week's rows. */
  lemma WeeksStep(m: Month, today: int, cfg: CalendarConfig, n: nat)
    ensures Weeks(m, today, cfg, n + 1) == Weeks(m, today, cfg, n) + WeekRows(m, today, cfg, n)
  {
    var a, b := Weeks(m, today, cfg, n + 1), Weeks(m, today, cfg, n) + WeekRows(m, today, cfg, n);
    if cfg.showISOWeek {
      assert (2 * n) % 2 == 0 && (2 * n) / 2 == n;
      assert (2 * n + 1) % 2 == 1 && (2 * n + 1) / 2 == n;
      assert a[2 * n] == b[2 * n];
    }
    assert forall i :: 0 <= i < |a| ==> a[i] == b[i];
  }

  /** The whole calendar column `buildCalendar` lays out. */
  function Grid(m: Month, today: int, cfg: CalendarConfig): seq<CalendarRow>
    requires WellFormed(m)
  {
    [Legend(DayLetters)] + Weeks(m, today, cfg, WeekCount(m))
  }

  /** The week rows end once the count of the last cell of a week has
      passed the end of the month: that first happens after WeekCount rows. */
  lemma WeekLoopBound(m: Month, w: nat)
    requires WellFormed(m) && w >= 1
    ensures 7 * w - m.firstDayNumber <= m.daysInMonth <==> w < WeekCount(m)
  {
  }

  /** The inner loop of `buildCalendar`: the seven cells of week w, with
      `dayCount` moving on once per cell after the first day of the month
      has been reached. */
  method LayWeek(m: Month, today: int, cfg: CalendarConfig, w: nat, dayCount0: int) returns (days: seq<DayCell>, dayCount: int)
    requires WellFormed(m) && dayCount0 == DayCountAt(m, 7 * w - 1)
    ensures days == WeekCells(m, today, cfg, w)
    ensures dayCount == DayCountAt(m, 7 * w + 6)
  {
    var f := m.firstDayNumber;
    dayCount := dayCount0;
    days := [];
    var d := 0;
    while d < 7
      invariant 0 <= d <= 7
      invariant dayCount == DayCountAt(m, 7 * w + d - 1)
      invariant |days| == d
      invariant forall j :: 0 <= j < d ==> days[j] == CellAt(m, today, cfg, 7 * w + j)
    {
      if dayCount == -1 && d == f {
        dayCount := 0;
      }
      if dayCount > -1 {
        dayCount := dayCount + 1;
      }
      assert dayCount == DayCountAt(m, 7 * w + d);
      var cellColour := cfg.emptyCell;
      var textColour := cfg.normalDay;
      if dayCount > -1 {
        cellColour := cfg.normalCell;
      }
      if today == dayCount {
        cellColour := cfg.todayCell;
        textColour := cfg.todayDay;
      }
      if dayCount > m.daysInMonth {
        cellColour := cfg.emptyCell;
      }
      var text := if dayCount == -1 || dayCount > m.daysInMonth then "" else IntToString(dayCount);
      days := days + [DayCell(cellColour, textColour, text)];
      d := d + 1;
    }
  }

  /** `buildCalendar`: the legend, then week rows while `dayCount` has not
      passed the end of the month, each followed by its label when labels
      are on. Also returns how many cell animations it registered, one per
      cell. */
  method BuildCalendar(m: Month, today: int, cfg: CalendarConfig) returns (rows: seq<CalendarRow>, animated: nat)
    requires WellFormed(m)
    ensures rows == Grid(m, today, cfg)
    ensures animated == 7 * WeekCount(m)
  {
    rows := [Legend(DayLetters)];
    animated := 0;
    var dayCount := -1;
    var w: nat := 0;
    while dayCount <= m.daysInMonth
      invariant w <= WeekCount(m)
      invariant dayCount == DayCountAt(m, 7 * w - 1)
      invariant w >= 1 ==> (dayCount <= m.daysInMonth <==> w < WeekCount(m))
      invariant rows == [Legend(DayLetters)] + Weeks(m, today, cfg, w)
      invariant animated == 7 * w
      decreases WeekCount(m) - w
    {
      var days;
      days, dayCount := LayWeek(m, today, cfg, w, dayCount);
      animated := animated + 7;
      rows := rows + [Days(days)];
      if cfg.showISOWeek {
        rows := rows + [WeekLabel(cfg.weekText, "Wk " + IntToString(m.isoWeekNumber + w))];
      }
      WeeksStep(m, today, cfg, w);
      w := w + 1;
      WeekLoopBound(m, w);
    }
    assert w == WeekCount(m);
  }

  // ---------------------------------------------------------------------
  // Properties of the grid
  // ---------------------------------------------------------------------

  /** Where week w's rows sit among the rows of n weeks. */
  lemma WeeksAt(m: Month, today: int, cfg: CalendarConfig, n: nat, w: nat)
    requires w < n
    ensures !cfg.showISOWeek ==> Weeks(m, today, cfg, n)[w] == Days(WeekCells(m, today, cfg, w))
    ensures cfg.showISOWeek ==> Weeks(m, today, cfg, n)[2 * w] == Days(WeekCells(m, today, cfg, w))
    ensures cfg.showISOWeek ==> Weeks(m, today, cfg, n)[2 * w + 1] == WeekLabel(cfg.weekText, WeekText(m, w))
  {
    assert (2 * w) % 2 == 0 && (2 * w) / 2 == w;
    assert (2 * w + 1) % 2 == 1 && (2 * w + 1) / 2 == w;
  }

  /** The layout of the column: the legend, then for each week its row of
      seven cells and, when labels are on, the label "Wk " followed by the
      ISO week number plus the week's index, counted on without wrapping
      at the end of the year. */
  lemma GridLayout(m: Month, today: int, cfg: CalendarConfig, w: nat)
    requires WellFormed(m) && w < WeekCount(m)
    ensures |Grid(m, today, cfg)| == 1 + if cfg.showISOWeek then 2 * WeekCount(m) else WeekCount(m)
    ensures Grid(m, today, cfg)[0] == Legend(["S", "M", "T", "W", "T", "F", "S"])
    ensures !cfg.showISOWeek ==> Grid(m, today, cfg)[1 + w] == Days(WeekCells(m, today, cfg, w))
    ensures cfg.showISOWeek ==> Grid(m, today, cfg)[1 + 2 * w] == Days(WeekCells(m, today, cfg, w))
    ensures cfg.showISOWeek ==>
      Grid(m, today, cfg)[2 + 2 * w] == WeekLabel(cfg.weekText, "Wk " + IntToString(m.isoWeekNumber + w))
  {
    WeeksAt(m, today, cfg, WeekCount(m), w);
  }

  /** The number of week rows, and the blank cells it implies: the rows
      cover the month's days, the last cell of the last week is always
      blank, and a whole blank week is laid when the month ends on a
      Saturday. */
  lemma WeekRowsCoverMonth(m: Month)
    requires WellFormed(m)
    ensures 7 * WeekCount(m) > m.firstDayNumber + m.daysInMonth
    ensures 7 * (WeekCount(m) - 1) <= m.firstDayNumber + m.daysInMonth
    ensures !InMonth(m, DayCountAt(m, 7 * WeekCount(m) - 1))
    ensures (m.firstDayNumber + m.daysInMonth) % 7 == 0 ==>
      forall i :: 7 * (WeekCount(m) - 1) <= i < 7 * WeekCount(m) ==> !InMonth(m, DayCountAt(m, i))
  {
    if (m.firstDayNumber + m.daysInMonth) % 7 == 0 {
      assert 7 * (WeekCount(m) - 1) == m.firstDayNumber + m.daysInMonth;
    }
  }

  /** Cell i of the grid shows day i - firstDayNumber + 1 when that is a
      day of the month, and nothing otherwise. */
  lemma CellText(m: Month, today: int, cfg: CalendarConfig, i: nat)
    requires WellFormed(m)
    ensures var day := i - m.firstDayNumber + 1;
      CellAt(m, today, cfg, i).text == if 1 <= day <= m.daysInMonth then NatToString(day) else ""
  {
  }

  /** Every day of the month is shown by exactly one cell, the one at
      firstDayNumber + day - 1, and the days run in increasing order. */
  lemma EachDayOnceInOrder(m: Month, today: int, cfg: CalendarConfig, day: nat, i: nat, j: nat)
    requires WellFormed(m) && 1 <= day <= m.daysInMonth
    requires i < j < 7 * WeekCount(m)
    ensures m.firstDayNumber + day - 1 < 7 * WeekCount(m)
    ensures CellAt(m, today, cfg, i).text == NatToString(day) <==> i == m.firstDayNumber + day - 1
    ensures CellAt(m, today, cfg, i).text != "" && CellAt(m, today, cfg, j).text != "" ==>
      DigitsValue(CellAt(m, today, cfg, i).text) < DigitsValue(CellAt(m, today, cfg, j).text)
  {
    var ci, cj := CellAt(m, today, cfg, i), CellAt(m, today, cfg, j);
    if ci.text == NatToString(day) {
      assert InMonth(m, DayCountAt(m, i));
      NatToStringInjective(DayCountAt(m, i), day);
    }
    if ci.text != "" && cj.text != "" {
      NatToStringRoundTrip(DayCountAt(m, i));
      NatToStringRoundTrip(DayCountAt(m, j));
    }
  }

  /** The colour rules, for a day of the month today: cells before the 1st
      and after the last day are empty, today's cell and text take the
      today colours, and the other days the normal colours. */
  lemma CellColours(m: Month, today: int, cfg: CalendarConfig, i: nat)
    requires WellFormed(m) && InMonth(m, today)
    ensures var c := CellAt(m, today, cfg, i);
      var day := DayCountAt(m, i);
      (!InMonth(m, day) ==> c.cellColour == cfg.emptyCell && c.textColour == cfg.normalDay) &&
      (day == today ==> c.cellColour == cfg.todayCell && c.textColour == cfg.todayDay) &&
      (InMonth(m, day) && day != today ==> c.cellColour == cfg.normalCell && c.textColour == cfg.normalDay)
  {
  }

  /** Exactly one cell of the grid is drawn in the today colours. */
  lemma TodayIsUnique(m: Month, today: int, cfg: CalendarConfig, i: nat)
    requires WellFormed(m) && InMonth(m, today) && cfg.todayDay != cfg.normalDay
    ensures CellAt(m, today, cfg, i).textColour == cfg.todayDay <==> i == m.firstDayNumber + today - 1
  {
  }

  // ---------------------------------------------------------------------
  // The calendar window
  // ---------------------------------------------------------------------

  /** A callback `show` stores and `hide` calls: the default no-op, or the
      one the bar element passes, which plays its own show animation. */
  datatype Callback = NoOp | ShowBarElement

  /** The element operations a rebuild issues; `Destroy(None)` is a
      destroy of `undefined`. */
  datatype UiOp = Detach(element: int) | Destroy(target: Option<int>) | Attach(child: int)

  /** The calendar's state. The element built by the constructor is kept
      in `calendarId`, while `checkCalendar` destroys, reassigns and
      attaches `calandarId`, a field no one sets before the first rebuild. */
  datatype CalendarState = CalendarState(
    visible: bool, hideCallback: Callback, calandarFor: int,
    calendarId: int, calandarId: Option<int>,
    rows: seq<CalendarRow>, animatedCells: nat,
    pointerEvents: bool, rendering: bool, clockRunning: bool)

  /** The state `checkCalendar` leaves: nothing changes when the calendar
      was built on the same day of the month; otherwise a new grid for
      today is built under the new identifier. */
  function Checked(s: CalendarState, today: int, m: Month, cfg: CalendarConfig, newId: int): (t: CalendarState)
    requires WellFormed(m)
  {
    if s.calandarFor == today then s
    else s.(calandarFor := today, calandarId := Some(newId), rows := Grid(m, today, cfg), animatedCells := 7 * WeekCount(m))
  }

  /** The element operations of `checkCalendar`. */
  function CheckOps(s: CalendarState, today: int, newId: int): (ops: seq<UiOp>)
  {
    if s.calandarFor == today then [] else [Detach(s.calendarId), Destroy(s.calandarId), Attach(newId)]
  }

  class Calendar {
    const cfg: CalendarConfig
    var visible: bool
    var hideCallback: Callback
    /** The day of the month the shown grid was built for. */
    var calandarFor: int
    /** The grid element the constructor built and attached. */
    var calendarId: int
    /** The grid element the last rebuild created; `undefined` before. */
    var calandarId: Option<int>
    /** The rows of the grid built last. */
    var rows: seq<CalendarRow>
    /** The length of `cellAnimation`: one entry per cell of the last grid. */
    var animatedCells: nat
    var pointerEvents: bool
    var rendering: bool
    var clockRunning: bool

    ghost function State(): CalendarState
      reads this
    {
      CalendarState(visible, hideCallback, calandarFor, calendarId, calandarId, rows, animatedCells,
                    pointerEvents, rendering, clockRunning)
    }

    /** The window starts hidden, with a grid built for today; it is
        created accepting pointer events, which only `hide` turns off. */
    constructor(cfg: CalendarConfig, m: Month, today: int, gridId: int)
      requires WellFormed(m)
      ensures this.cfg == cfg
      ensures State() == CalendarState(false, NoOp, today, gridId, None, Grid(m, today, cfg), 7 * WeekCount(m),
                                       true, false, false)
    {
      this.cfg := cfg;
      visible := false;
      hideCallback := NoOp;
      calandarFor := today;
      var built, count := BuildCalendar(m, today, cfg);
      rows := built;
      animatedCells := count;
      calendarId := gridId;
      calandarId := None;
      pointerEvents := true;
      rendering := false;
      clockRunning := false;
    }

    /** `checkCalendar()`: rebuild unless the grid is for today's day of
        the month. */
    method CheckCalendar(today: int, m: Month, newId: int) returns (ops: seq<UiOp>)
      requires WellFormed(m)
      modifies this
      ensures State() == Checked(old(State()), today, m, cfg, newId)
      ensures ops == CheckOps(old(State()), today, newId)
    {
      if calandarFor == today {
        return [];
      }
      ops := [Detach(calendarId), Destroy(calandarId)];
      calandarFor := today;
      var built, count := BuildCalendar(m, today, cfg);
      rows := built;
      animatedCells := count;
      calandarId := Some(newId);
      ops := ops + [Attach(newId)];
    }

    /** `preWarm()`: turn rendering on, then check the grid. */
    method PreWarm(today: int, m: Month, newId: int) returns (ops: seq<UiOp>)
      requires WellFormed(m)
      modifies this
      ensures State() == Checked(old(State()).(rendering := true), today, m, cfg, newId)
      ensures ops == CheckOps(old(State()), today, newId)
    {
      rendering := true;
      ops := CheckCalendar(today, m, newId);
    }

    /** `show(cb)`: accept the pointer, remember cb, become visible, start
        the clock; returns how many cell show animations start. */
    method Show(cb: Callback) returns (started: nat)
      modifies this
      ensures State() == old(State()).(pointerEvents := true, hideCallback := cb, visible := true, clockRunning := true)
      ensures started == animatedCells
    {
      pointerEvents := true;
      hideCallback := cb;
      visible := true;
      clockRunning := true;
      started := animatedCells;
    }

    /** `hide()` (also the window's mouse-exit handler): refuse the
        pointer, become invisible, call the stored callback, stop the
        clock. The callback stays stored. */
    method Hide() returns (called: Callback)
      modifies this
      ensures State() == old(State()).(pointerEvents := false, visible := false, clockRunning := false)
      ensures called == old(hideCallback)
    {
      pointerEvents := false;
      visible := false;
      called := hideCallback;
      clockRunning := false;
    }
  }

  // ---------------------------------------------------------------------
  // The bar element
  // ---------------------------------------------------------------------

  /** The bar element's animations. */
  datatype BarAnim = Focus | Blur | HideBar | ShowBar

  class DateTime {
    const calendar: Calendar
    /** Whether a click has registered the end-of-hide handler that opens
        the calendar. */
    var opening: bool

    constructor(calendar: Calendar)
      ensures this.calendar == calendar && !opening
    {
      this.calendar := calendar;
      opening := false;
    }

    /** Mouse enter: the focus animation, only while the calendar is closed. */
    method OnMouseEnter() returns (anim: Option<BarAnim>)
      ensures anim == if calendar.visible then None else Some(Focus)
    {
      anim := None;
      if !calendar.visible {
        anim := Some(Focus);
      }
    }

    /** Mouse exit: the blur animation, only while the calendar is closed. */
    method OnMouseExit() returns (anim: Option<BarAnim>)
      ensures anim == if calendar.visible then None else Some(Blur)
    {
      anim := None;
      if !calendar.visible {
        anim := Some(Blur);
      }
    }

    /** Click: hide the bar element, pre-warm the calendar and wait for
        the hide animation to end. */
    method OnMouseClick(today: int, m: Month, newId: int) returns (anim: BarAnim, ops: seq<UiOp>)
      requires WellFormed(m)
      modifies this, calendar
      ensures anim == HideBar && opening
      ensures calendar.State() == Checked(old(calendar.State()).(rendering := true), today, m, calendar.cfg, newId)
      ensures ops == CheckOps(old(calendar.State()), today, newId)
    {
      anim := HideBar;
      ops := calendar.PreWarm(today, m, newId);
      opening := true;
    }

    /** The end of the bar's hide animation: open the calendar with the
        callback that brings the bar element back. */
    method OnHideAnimationEnd() returns (started: nat)
      requires opening
      modifies calendar
      ensures calendar.State() == old(calendar.State()).(pointerEvents := true, hideCallback := ShowBarElement,
                                                        visible := true, clockRunning := true)
      ensures started == calendar.animatedCells
    {
      started := calendar.Show(ShowBarElement);
    }
  }

  // ---------------------------------------------------------------------
  // Properties of the calendar state
  // ---------------------------------------------------------------------

  /** The rebuild guard compares days of the month only: a check rebuilds
      exactly when the day differs, after which a second check on the same
      day, whatever month it reports, changes nothing. */
  lemma CheckIsOncePerDay(s: CalendarState, today: int, m: Month, m2: Month, cfg: CalendarConfig, id1: int, id2: int)
    requires WellFormed(m) && WellFormed(m2)
    ensures |CheckOps(s, today, id1)| > 0 <==> s.calandarFor != today
    ensures Checked(s, today, m, cfg, id1).calandarFor == today
    ensures Checked(Checked(s, today, m, cfg, id1), today, m2, cfg, id2) == Checked(s, today, m, cfg, id1)
    ensures CheckOps(Checked(s, today, m, cfg, id1), today, id2) == []
  {
  }

  /** Every rebuild detaches the element the constructor built, while the
      element it destroys is the previous rebuild's (`undefined` on the
      first): after two rebuilds the first rebuilt grid is destroyed
      without having been detached, and the constructor's grid is detached
      twice and never destroyed. */
  lemma RebuildTargets(s: CalendarState, d1: int, d2: int, m: Month, cfg: CalendarConfig, id1: int, id2: int)
    requires WellFormed(m)
    requires s.calandarId.None? && s.calandarFor != d1 && d1 != d2
    ensures var s1 := Checked(s, d1, m, cfg, id1);
      CheckOps(s, d1, id1) == [Detach(s.calendarId), Destroy(None), Attach(id1)] &&
      CheckOps(s1, d2, id2) == [Detach(s.calendarId), Destroy(Some(id1)), Attach(id2)] &&
      Checked(s1, d2, m, cfg, id2).calandarId == Some(id2) &&
      Checked(s1, d2, m, cfg, id2).calendarId == s.calendarId
  {
  }
}
