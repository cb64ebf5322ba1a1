/** The text of the top bar in top-bar.js: the clock (hours and minutes),
    the human date under it ("Mon 21st Oct") and the title of the active
    window. `new Date()` is a parameter: a `LocalTime` holds what its
    getters return. */
module TopBar {
  import opened Common

  /** `getDay()`, `getDate()`, `getMonth()`, `getHours()`, `getMinutes()`. */
  datatype LocalTime = LocalTime(weekday: nat, day: nat, month: nat, hours: nat, minutes: nat)

  /** The ranges the getters keep to. */
  predicate IsLocalTime(t: LocalTime)
  {
    t.weekday < 7 && 1 <= t.day <= 31 && t.month < 12 && t.hours < 24 && t.minutes < 60
  }

  const Weekdays: seq<string> := ["Sun", "Mon", "Tue", "Wed", "Thu", "Fri", "Sat"]
  const Months: seq<string> := ["Jan", "Feb", "Mar", "Apr", "May", "Jun",
                                "Jul", "Aug", "Sep", "Oct", "Nov", "Dec"]

  // ---------------------------------------------------------------------
  // The clock
  // ---------------------------------------------------------------------

  /** `String(n).padStart(2, '0')`. */
  function TwoDigits(n: nat): (r: string)
    ensures |r| >= 2 && AllDigits(r)
    ensures n < 100 ==> |r| == 2
    ensures n >= 10 ==> r == NatToString(n)
  {
    PadStart(NatToString(n), 2, '0')
  }

  /** `formatTimeHHMM(d)`: both fields padded to two digits, joined by ':'. */
  function FormatTimeHHMM(t: LocalTime): (r: string)
    ensures t.hours < 100 && t.minutes < 100 ==> |r| == 5 && r[2] == ':'
    ensures forall i :: 0 <= i < |r| ==> (r[i] == ':' || IsDigit(r[i]))
  {
    TwoDigits(t.hours) + ":" + TwoDigits(t.minutes)
  }

  /** A number below 100 pads to exactly two digits that read back as it. */
  lemma TwoDigitsReadBack(n: nat)
    requires n < 100
    ensures |TwoDigits(n)| == 2 && AllDigits(TwoDigits(n))
    ensures DigitsValue(TwoDigits(n)) == n
  {
    var s := NatToString(n);
    NatToStringRoundTrip(n);
    if n < 10 {
      var p := TwoDigits(n);
      assert p == ['0'] + s;
      assert p[..1] == "0";
      assert DigitsValue(p[..1]) == 0 by {
        assert p[..1][..0] == [];
      }
      assert s == [s[0]] && DigitsValue(s) == s[0] as int - '0' as int by {
        assert s[..0] == [];
      }
    }
  }

  /** The clock text is five characters, HH:MM, whose two fields read back
      as the hours and the minutes (for any hour and minute below 100). */
  lemma ClockReadsBack(t: LocalTime)
    requires t.hours < 100 && t.minutes < 100
    ensures var r := FormatTimeHHMM(t);
      |r| == 5 && r[2] == ':' && AllDigits(r[..2]) && AllDigits(r[3..]) &&
      DigitsValue(r[..2]) == t.hours && DigitsValue(r[3..]) == t.minutes
  {
    TwoDigitsReadBack(t.hours);
    TwoDigitsReadBack(t.minutes);
    var r := FormatTimeHHMM(t);
    assert r[..2] == TwoDigits(t.hours);
    assert r[3..] == TwoDigits(t.minutes);
  }

  /** Distinct times of day show distinct clock texts. */
  lemma ClockIsInjective(t: LocalTime, u: LocalTime)
    requires IsLocalTime(t) && IsLocalTime(u)
    requires FormatTimeHHMM(t) == FormatTimeHHMM(u)
    ensures t.hours == u.hours && t.minutes == u.minutes
  {
    ClockReadsBack(t);
    ClockReadsBack(u);
  }

  // ---------------------------------------------------------------------
  // The date
  // ---------------------------------------------------------------------

  /** `getOrdinalSuffix(day)`. */
  function OrdinalSuffix(day: nat): (r: string)
    ensures r in {"st", "nd", "rd", "th"}
    ensures 11 <= day <= 13 ==> r == "th"
    ensures day % 10 == 0 || day % 10 >= 4 ==> r == "th"
  {
    if 11 <= day <= 13 then "th"
    else if day % 10 == 1 then "st"
    else if day % 10 == 2 then "nd"
    else if day % 10 == 3 then "rd"
    else "th"
  }

  /** Over the days of a month the suffix is the English one: "st" on the
      1st, 21st and 31st, "nd" on the 2nd and 22nd, "rd" on the 3rd and
      23rd, "th" on every other day, the 11th to 13th included. */
  lemma OrdinalSuffixOfMonthDays(day: nat)
    requires 1 <= day <= 31
    ensures OrdinalSuffix(day) == "st" <==> day in {1, 21, 31}
    ensures OrdinalSuffix(day) == "nd" <==> day in {2, 22}
    ensures OrdinalSuffix(day) == "rd" <==> day in {3, 23}
    ensures OrdinalSuffix(day) == "th" <==> day !in {1, 21, 31, 2, 22, 3, 23}
    ensures |OrdinalSuffix(day)| == 2
  {
  }

  /** The day number with its suffix, as the second word of the date. */
  function DayWord(day: nat): string
  {
    NatToString(day) + OrdinalSuffix(day)
  }

  /** `formatDateHuman(date)`: weekday, day with its suffix, month, with
      single spaces between. */
  function FormatDateHuman(t: LocalTime): (r: string)
    requires t.weekday < 7 && t.month < 12
    ensures |r| >= 10
    ensures r[..4] == Weekdays[t.weekday] + " "
    ensures r[|r| - 4..] == " " + Months[t.month]
  {
    Weekdays[t.weekday] + " " + DayWord(t.day) + " " + Months[t.month]
  }

  /** Three words joined by single spaces split back into those words. */
  lemma SplitThreeWords(a: string, b: string, c: string)
    requires ' ' !in a && ' ' !in b && ' ' !in c
    ensures Split(a + " " + b + " " + c, ' ') == [a, b, c]
  {
    SplitTwoWords(b, c);
    SplitFirstField(a, ' ', b + [' '] + c);
    assert a + " " + b + " " + c == a + [' '] + (b + [' '] + c);
  }

  lemma SplitTwoWords(b: string, c: string)
    requires ' ' !in b && ' ' !in c
    ensures Split(b + [' '] + c, ' ') == [b, c]
  {
    SplitFirstField(b, ' ', c);
    SplitNoSeparator(c, ' ');
  }

  /** The names of the weekdays and months, each read back to its index. */
  const WeekdayNumber: map<string, nat> :=
    map["Sun" := 0, "Mon" := 1, "Tue" := 2, "Wed" := 3, "Thu" := 4, "Fri" := 5, "Sat" := 6]
  const MonthNumber: map<string, nat> :=
    map["Jan" := 0, "Feb" := 1, "Mar" := 2, "Apr" := 3, "May" := 4, "Jun" := 5,
        "Jul" := 6, "Aug" := 7, "Sep" := 8, "Oct" := 9, "Nov" := 10, "Dec" := 11]

  lemma WeekdayNameReadsBack(i: nat)
    requires i < 7
    ensures ' ' !in Weekdays[i]
    ensures Weekdays[i] in WeekdayNumber && WeekdayNumber[Weekdays[i]] == i
  {
    if i == 0 { } else if i == 1 { } else if i == 2 { } else if i == 3 { } else if i == 4 { } else if i == 5 { } else { }
  }

  lemma MonthNameReadsBack(i: nat)
    requires i < 12
    ensures ' ' !in Months[i]
    ensures Months[i] in MonthNumber && MonthNumber[Months[i]] == i
  {
    if i < 6 {
      if i == 0 { } else if i == 1 { } else if i == 2 { } else if i == 3 { } else if i == 4 { } else { }
    } else {
      if i == 6 { } else if i == 7 { } else if i == 8 { } else if i == 9 { } else if i == 10 { } else { }
    }
  }

  /** The day word reads back as the day: its digits are all but the last
      two characters, the suffix. */
  lemma DayWordReadsBack(day: nat)
    requires 1 <= day <= 31
    ensures ' ' !in DayWord(day)
    ensures |DayWord(day)| >= 3 && AllDigits(DayWord(day)[..|DayWord(day)| - 2])
    ensures DigitsValue(DayWord(day)[..|DayWord(day)| - 2]) == day
  {
    OrdinalSuffixOfMonthDays(day);
    var w := DayWord(day);
    assert w[..|w| - 2] == NatToString(day);
    NatToStringRoundTrip(day);
    assert forall i :: 0 <= i < |NatToString(day)| ==> IsDigit(w[i]);
  }

  /** The date text splits at its spaces into the three-letter weekday,
      the day number with its suffix, and the three-letter month. */
  lemma DateFields(t: LocalTime)
    requires IsLocalTime(t)
    ensures Split(FormatDateHuman(t), ' ') == [Weekdays[t.weekday], DayWord(t.day), Months[t.month]]
  {
    WeekdayNameReadsBack(t.weekday);
    MonthNameReadsBack(t.month);
    DayWordReadsBack(t.day);
    SplitThreeWords(Weekdays[t.weekday], DayWord(t.day), Months[t.month]);
  }

  /** Different days of the year show different date texts: the text
      determines the weekday, the day of the month and the month. */
  lemma DateIsInjective(t: LocalTime, u: LocalTime)
    requires IsLocalTime(t) && IsLocalTime(u)
    requires FormatDateHuman(t) == FormatDateHuman(u)
    ensures t.weekday == u.weekday && t.day == u.day && t.month == u.month
  {
    DateFields(t);
    DateFields(u);
    WeekdayNameReadsBack(t.weekday);
    WeekdayNameReadsBack(u.weekday);
    MonthNameReadsBack(t.month);
    MonthNameReadsBack(u.month);
    DayWordReadsBack(t.day);
    DayWordReadsBack(u.day);
  }

  // ---------------------------------------------------------------------
  // The window title
  // ---------------------------------------------------------------------

  /** The `activewindow` handler shows the second comma-separated field
      of the payload; `undefined` (None) when the payload has no comma. */
  function WindowTitle(payload: string): (r: Option<string>)
    ensures r.None? <==> ',' !in payload
    ensures r.Some? ==> ',' !in r.value
  {
    SplitField(payload, ',', 1)
  }

  /** The payload is "class,title": a title without commas is shown as it
      is, and a title with commas is cut at its first comma. */
  lemma TitleIsCutAtComma(windowClass: string, head: string, tail: string)
    requires ',' !in windowClass && ',' !in head
    ensures WindowTitle(windowClass + "," + head) == Some(head)
    ensures WindowTitle(windowClass + "," + head + "," + tail) == Some(head)
  {
    SplitNoSeparator(head, ',');
    TitleOfPayload(windowClass, head);
    TitleOfLongPayload(windowClass, head, tail);
  }

  lemma TitleOfLongPayload(windowClass: string, head: string, tail: string)
    requires ',' !in windowClass && ',' !in head
    ensures WindowTitle(windowClass + "," + head + "," + tail) == Some(head)
  {
    TitleOfPayload(windowClass, head + [','] + tail);
    SplitFirstField(head, ',', tail);
    assert windowClass + "," + head + "," + tail == windowClass + "," + (head + [','] + tail);
  }

  /** The title of "class,rest" is the first field of rest. */
  lemma TitleOfPayload(windowClass: string, rest: string)
    requires ',' !in windowClass
    ensures WindowTitle(windowClass + "," + rest) == Some(Split(rest, ',')[0])
  {
    SplitFirstField(windowClass, ',', rest);
    assert windowClass + "," + rest == windowClass + [','] + rest;
  }

  /** A payload without a comma leaves the title `undefined`. */
  lemma TitleNeedsComma(payload: string)
    requires ',' !in payload
    ensures WindowTitle(payload).None?
  {
    SplitNoSeparator(payload, ',');
  }
}
