/** Instants stored as sortable text, `2006-01-02T15:04:05.000Z`, in years 0 to 9999. */
module Timestamps {
  import opened Calls
  import Auth

  const DAY := 86_400_000
  const HOUR := 3_600_000
  const MINUTE := 60_000
  const SECOND := 1000

  // ---------------------------------------------------------------- the calendar

  predicate Leap(year: nat) { year % 4 == 0 && (year % 100 != 0 || year % 400 == 0) }

  function YearLength(year: nat): nat { if Leap(year) then 366 else 365 }

  function DaysBeforeYear(year: nat): nat {
    if year == 0 then 0 else DaysBeforeYear(year - 1) + YearLength(year - 1)
  }

  /** Days of a common year before each month, and in all. */
  const CUMULATIVE: seq<nat> := [0, 31, 59, 90, 120, 151, 181, 212, 243, 273, 304, 334, 365]

  function DaysBeforeMonth(year: nat, month: nat): nat
    requires 1 <= month <= 13
  {
    CUMULATIVE[month - 1] + (if month > 2 && Leap(year) then 1 else 0)
  }

  function MonthLength(year: nat, month: nat): (r: nat)
    requires 1 <= month <= 12
    ensures 28 <= r <= 31
  {
    DaysBeforeMonth(year, month + 1) - DaysBeforeMonth(year, month)
  }

  lemma {:induction false} EarlierYear(a: nat, b: nat)
    requires a < b
    ensures DaysBeforeYear(a) + YearLength(a) <= DaysBeforeYear(b)
  {
    if a + 1 < b {
      EarlierYear(a, b - 1);
    }
  }

  lemma {:induction false} EarlierMonth(year: nat, a: nat, b: nat)
    requires 1 <= a < b <= 13
    ensures DaysBeforeMonth(year, a) + MonthLength(year, a) <= DaysBeforeMonth(year, b)
  {
  }

  /** The Gregorian calendar: years of 365 days, a day more in every fourth, not in every hundredth,
      but in every four hundredth; and the twelve months of the rhyme. */
  lemma CalendarIsGregorian(year: nat, month: nat)
    requires 1 <= month <= 12
    ensures DaysBeforeYear(year) == 365 * year + (year + 3) / 4 - (year + 99) / 100 + (year + 399) / 400
    ensures MonthLength(year, month)
         == if month in {4, 6, 9, 11} then 30
            else if month != 2 then 31
            else if (year % 4 == 0 && year % 100 != 0) || year % 400 == 0 then 29 else 28
  {
    DaysInClosedForm(year);
    Multiples(year);
  }

  lemma {:induction false} DaysInClosedForm(year: nat)
    ensures DaysBeforeYear(year) == 365 * year + (year + 3) / 4 - (year + 99) / 100 + (year + 399) / 400
  {
    if year > 0 {
      DaysInClosedForm(year - 1);
      LeapDays(year - 1);
      OneYearMore(year - 1);
    }
  }

  /** A year's days and its leap day, in the closed form. */
  lemma OneYearMore(year: nat)
    ensures 365 * (year + 1) + (year + 4) / 4 - (year + 100) / 100 + (year + 400) / 400
         == 365 * year + (year + 3) / 4 - (year + 99) / 100 + (year + 399) / 400
            + 365 + (if year % 4 == 0 then 1 else 0) - (if year % 100 == 0 then 1 else 0)
            + (if year % 400 == 0 then 1 else 0)
  {
    OneMoreFourth(year);
    OneMoreHundredth(year);
    OneMoreFourHundredth(year);
  }

  lemma Multiples(n: nat)
    ensures n % 400 == 0 ==> n % 100 == 0
    ensures n % 100 == 0 ==> n % 4 == 0
  {
    HundredfoldDivides(n / 400 * 4);
    FourfoldDivides(n / 100 * 25);
  }

  lemma LeapDays(year: nat)
    ensures YearLength(year)
         == 365 + (if year % 4 == 0 then 1 else 0) - (if year % 100 == 0 then 1 else 0)
            + (if year % 400 == 0 then 1 else 0)
  {
    Multiples(year);
  }

  lemma HundredfoldDivides(k: nat)
    ensures k * 100 % 100 == 0
  {
  }

  lemma FourfoldDivides(k: nat)
    ensures k * 4 % 4 == 0
  {
  }

  // One multiple more below `n + 1` than below `n`, if `n` is one.

  lemma OneMoreFourth(n: nat)
    ensures (n + 4) / 4 == (n + 3) / 4 + (if n % 4 == 0 then 1 else 0)
  {
  }

  lemma OneMoreHundredth(n: nat)
    ensures (n + 100) / 100 == (n + 99) / 100 + (if n % 100 == 0 then 1 else 0)
  {
  }

  lemma OneMoreFourHundredth(n: nat)
    ensures (n + 400) / 400 == (n + 399) / 400 + (if n % 400 == 0 then 1 else 0)
  {
  }

  /** The year, at or after `year`, that the day falls in. */
  function YearAt(day: nat, year: nat): (r: nat)
    requires DaysBeforeYear(year) <= day
    ensures DaysBeforeYear(r) <= day < DaysBeforeYear(r + 1)
    decreases day - DaysBeforeYear(year)
  {
    if day < DaysBeforeYear(year + 1) then year else YearAt(day, year + 1)
  }

  lemma OneYear(day: nat, year: nat)
    requires DaysBeforeYear(year) <= day < DaysBeforeYear(year) + YearLength(year)
    ensures YearAt(day, 0) == year
  {
    var found := YearAt(day, 0);
    if found < year {
      EarlierYear(found, year);
    } else if year < found {
      EarlierYear(year, found);
    }
  }

  /** The month, at or after `month`, that the day of the year falls in. */
  function MonthAt(year: nat, dayOfYear: nat, month: nat): (r: nat)
    requires 1 <= month <= 12 && DaysBeforeMonth(year, month) <= dayOfYear < YearLength(year)
    ensures 1 <= r <= 12 && DaysBeforeMonth(year, r) <= dayOfYear < DaysBeforeMonth(year, r) + MonthLength(year, r)
    decreases 13 - month
  {
    if dayOfYear < DaysBeforeMonth(year, month + 1) then month else MonthAt(year, dayOfYear, month + 1)
  }

  // ---------------------------------------------------------------- instants and their fields

  /** Milliseconds since the start of year 0 of the proleptic Gregorian calendar. */
  predicate InRange(instant: int) { 0 <= instant && YearAt(instant / DAY, 0) < 10000 }

  /** Year, month, day, hour, minute, second and millisecond of an existing instant. */
  predicate Proper(f: seq<nat>) {
    && |f| == 7 && f[0] < 10000 && 1 <= f[1] <= 12 && 1 <= f[2] <= MonthLength(f[0], f[1])
    && f[3] < 24 && f[4] < 60 && f[5] < 60 && f[6] < 1000
  }

  function DayOf(f: seq<nat>): nat
    requires Proper(f)
  {
    DaysBeforeYear(f[0]) + DaysBeforeMonth(f[0], f[1]) + f[2] - 1
  }

  function TimeOfDay(f: seq<nat>): nat
    requires Proper(f)
  {
    f[3] * HOUR + f[4] * MINUTE + f[5] * SECOND + f[6]
  }

  lemma DayWithinYear(f: seq<nat>)
    requires Proper(f)
    ensures DaysBeforeYear(f[0]) <= DayOf(f) < DaysBeforeYear(f[0]) + YearLength(f[0])
    ensures YearAt(DayOf(f), 0) == f[0]
  {
    if f[1] < 12 {
      EarlierMonth(f[0], f[1], 13);
    }
    OneYear(DayOf(f), f[0]);
  }

  function InstantOf(f: seq<nat>): (instant: int)
    requires Proper(f)
    ensures InRange(instant)
  {
    DayWithinYear(f);
    assert (DayOf(f) * DAY + TimeOfDay(f)) / DAY == DayOf(f);
    DayOf(f) * DAY + TimeOfDay(f)
  }

  function DateOf(day: nat): (f: seq<nat>) {
    var year := YearAt(day, 0);
    var month := MonthAt(year, day - DaysBeforeYear(year), 1);
    [year, month, day - DaysBeforeYear(year) - DaysBeforeMonth(year, month) + 1]
  }

  function ClockOf(time: nat): (f: seq<nat>)
    requires time < DAY
    ensures |f| == 4 && f[0] < 24 && f[1] < 60 && f[2] < 60 && f[3] < 1000
    ensures f[0] * HOUR + f[1] * MINUTE + f[2] * SECOND + f[3] == time
  {
    var seconds := time / SECOND;
    var minutes := seconds / 60;
    [minutes / 60, minutes % 60, seconds % 60, time % SECOND]
  }

  function FieldsOf(instant: int): (f: seq<nat>)
    requires InRange(instant)
    ensures Proper(f) && InstantOf(f) == instant
  {
    DateOf(instant / DAY) + ClockOf(instant % DAY)
  }

  /** The first field that differs decides. */
  predicate FieldsBefore(f: seq<nat>, g: seq<nat>, k: nat)
    requires |f| == |g| == 7 && k <= 7
    decreases 7 - k
  {
    k < 7 && (f[k] < g[k] || (f[k] == g[k] && FieldsBefore(f, g, k + 1)))
  }

  lemma DatesInOrder(f: seq<nat>, g: seq<nat>)
    requires Proper(f) && Proper(g)
    requires f[0] < g[0] || (f[0] == g[0] && (f[1] < g[1] || (f[1] == g[1] && f[2] < g[2])))
    ensures DayOf(f) < DayOf(g)
  {
    DayWithinYear(f);
    DayWithinYear(g);
    if f[0] < g[0] {
      EarlierYear(f[0], g[0]);
    } else if f[1] < g[1] {
      EarlierMonth(f[0], f[1], g[1]);
    }
  }

  /** Instants are in the order of their fields. */
  lemma FieldsInOrder(f: seq<nat>, g: seq<nat>)
    requires Proper(f) && Proper(g) && FieldsBefore(f, g, 0)
    ensures InstantOf(f) < InstantOf(g)
  {
    assert FieldsBefore(f, g, 3) ==> TimeOfDay(f) < TimeOfDay(g) by {
      assert FieldsBefore(f, g, 5) ==> f[5] * SECOND + f[6] < g[5] * SECOND + g[6];
    }
    assert TimeOfDay(f) < DAY;
    assert FieldsBefore(f, g, 1)
      <==> f[1] < g[1] || (f[1] == g[1] && (f[2] < g[2] || (f[2] == g[2] && FieldsBefore(f, g, 3))));
    if f[0] != g[0] || f[1] != g[1] || f[2] != g[2] {
      DatesInOrder(f, g);
    }
  }

  lemma {:induction false} FieldsAreTotal(f: seq<nat>, g: seq<nat>, k: nat)
    requires |f| == |g| == 7 && k <= 7
    ensures f[k..] == g[k..] || FieldsBefore(f, g, k) || FieldsBefore(g, f, k)
    ensures FieldsBefore(f, g, k) ==> f[k..] != g[k..] && !FieldsBefore(g, f, k)
    decreases 7 - k
  {
    if k < 7 {
      FieldsAreTotal(f, g, k + 1);
      TakeFrom(f, k);
      TakeFrom(g, k);
    }
  }

  /** Existing instants have exactly one spelling in fields. */
  lemma FieldsOfInstantOf(f: seq<nat>)
    requires Proper(f)
    ensures FieldsOf(InstantOf(f)) == f
  {
    var g := FieldsOf(InstantOf(f));
    FieldsAreTotal(f, g, 0);
    if FieldsBefore(f, g, 0) { FieldsInOrder(f, g); }
    if FieldsBefore(g, f, 0) { FieldsInOrder(g, f); }
  }

  // ---------------------------------------------------------------- text

  const WIDTHS: seq<nat> := [4, 2, 2, 2, 2, 2, 3]
  const SEPARATORS := "--T::.Z"

  function PowerOfTen(n: nat): nat { if n == 0 then 1 else 10 * PowerOfTen(n - 1) }

  function Digit(d: nat): char
    requires d < 10
  {
    '0' + d as char
  }

  predicate IsDigit(c: char) { '0' <= c <= '9' }

  function ValueOf(c: char): nat
    requires IsDigit(c)
  {
    (c - '0') as nat
  }

  /** The last `width` decimal digits of `n`. */
  function Padded(n: nat, width: nat): (s: string)
    ensures |s| == width && forall i :: 0 <= i < width ==> IsDigit(s[i])
  {
    if width == 0 then "" else Padded(n / 10, width - 1) + [Digit(n % 10)]
  }

  function Number(s: string): nat
    requires forall i :: 0 <= i < |s| ==> IsDigit(s[i])
  {
    if s == "" then 0 else Number(s[..|s| - 1]) * 10 + ValueOf(s[|s| - 1])
  }

  /** Byte by byte, a proper prefix first. */
  predicate TextBefore(s: string, t: string) {
    t != "" && (s == "" || s[0] < t[0] || (s[0] == t[0] && TextBefore(s[1..], t[1..])))
  }

  function Spelled(f: seq<nat>, k: nat): (s: string)
    requires |f| == 7 && k <= 7
    decreases 7 - k
  {
    if k == 7 then "" else Padded(f[k], WIDTHS[k]) + [SEPARATORS[k]] + Spelled(f, k + 1)
  }

  function ReadFields(s: string, k: nat): Option<seq<nat>>
    requires k <= 7
    decreases 7 - k
  {
    if k == 7 then (if s == "" then Some([]) else None)
    else
      var width := WIDTHS[k];
      if |s| <= width || (exists i :: 0 <= i < width && !IsDigit(s[i])) || s[width] != SEPARATORS[k] then None
      else match ReadFields(s[width + 1..], k + 1)
        case None => None
        case Some(rest) => Some([Number(s[..width])] + rest)
  }

  function FormatTime(instant: int): string
    requires InRange(instant)
  {
    Spelled(FieldsOf(instant), 0)
  }

  /** Reads texts at full width; the time library reads a few others besides. */
  function ParseTime(s: string): Option<int> {
    match ReadFields(s, 0)
    case None => None
    case Some(f) => if Proper(f) then Some(InstantOf(f)) else None
  }

  // ---------------------------------------------------------------- round trips

  lemma {:induction false} NumberOfPadded(n: nat, width: nat)
    requires n < PowerOfTen(width)
    ensures Number(Padded(n, width)) == n
  {
    if width > 0 {
      NumberOfPadded(n / 10, width - 1);
      var s := Padded(n, width);
      assert s[..|s| - 1] == Padded(n / 10, width - 1);
    }
  }

  lemma {:induction false} PaddedOfNumber(s: string)
    requires forall i :: 0 <= i < |s| ==> IsDigit(s[i])
    ensures Number(s) < PowerOfTen(|s|) && Padded(Number(s), |s|) == s
  {
    if s != "" {
      PaddedOfNumber(s[..|s| - 1]);
      assert s == s[..|s| - 1] + [s[|s| - 1]];
    }
  }

  /** Every field fits into its width. */
  predicate Fits(f: seq<nat>) {
    |f| == 7 && forall k :: 0 <= k < 7 ==> f[k] < PowerOfTen(WIDTHS[k])
  }

  lemma ProperFits(f: seq<nat>)
    requires Proper(f)
    ensures Fits(f)
  {
  }

  lemma FieldParts(digits: string, separator: char, rest: string)
    ensures var s := digits + [separator] + rest;
            |s| > |digits| && s[..|digits|] == digits && s[|digits|] == separator && s[|digits| + 1..] == rest
    ensures forall i :: 0 <= i < |digits| ==> (digits + [separator] + rest)[i] == digits[i]
  {
  }

  lemma TakeFrom(f: seq<nat>, k: nat)
    requires k < |f|
    ensures f[k..] == [f[k]] + f[k + 1..]
  {
  }

  lemma {:induction false} ReadSpelled(f: seq<nat>, k: nat)
    requires Fits(f) && k <= 7
    ensures ReadFields(Spelled(f, k), k) == Some(f[k..])
    decreases 7 - k
  {
    if k < 7 {
      ReadSpelled(f, k + 1);
      NumberOfPadded(f[k], WIDTHS[k]);
      FieldParts(Padded(f[k], WIDTHS[k]), SEPARATORS[k], Spelled(f, k + 1));
      TakeFrom(f, k);
    }
  }

  lemma SplitAtField(s: string, width: nat)
    requires width < |s|
    ensures s == s[..width] + [s[width]] + s[width + 1..]
  {
  }

  lemma {:induction false} SpelledRead(s: string, k: nat, f: seq<nat>)
    requires k <= 7 && |f| == 7 && ReadFields(s, k) == Some(f[k..])
    ensures Spelled(f, k) == s
    decreases 7 - k
  {
    if k < 7 {
      var width := WIDTHS[k];
      FirstFieldRead(s, k, f);
      SpelledRead(s[width + 1..], k + 1, f);
      SplitAtField(s, width);
    }
  }

  lemma FirstFieldRead(s: string, k: nat, f: seq<nat>)
    requires k < 7 && |f| == 7 && ReadFields(s, k) == Some(f[k..])
    ensures var width := WIDTHS[k];
            && width < |s| && s[width] == SEPARATORS[k] && Padded(f[k], width) == s[..width]
            && ReadFields(s[width + 1..], k + 1) == Some(f[k + 1..])
  {
    var width := WIDTHS[k];
    var rest := ReadFields(s[width + 1..], k + 1).value;
    var n := Number(s[..width]);
    PaddedOfNumber(s[..width]);
    Cons(n, rest, f, k);
  }

  lemma Cons(n: nat, rest: seq<nat>, f: seq<nat>, k: nat)
    requires k < |f| && [n] + rest == f[k..]
    ensures n == f[k] && rest == f[k + 1..]
  {
  }

  lemma {:induction false} ReadLength(s: string, k: nat)
    requires k <= 7
    ensures ReadFields(s, k).Some? ==> |ReadFields(s, k).value| == 7 - k
    decreases 7 - k
  {
    if k < 7 && |s| > WIDTHS[k] {
      ReadLength(s[WIDTHS[k] + 1..], k + 1);
    }
  }

  /** Parsing undoes formatting. */
  lemma ParseFormat(instant: int)
    requires InRange(instant)
    ensures ParseTime(FormatTime(instant)) == Some(instant)
  {
    var f := FieldsOf(instant);
    ProperFits(f);
    ReadSpelled(f, 0);
    assert f[0..] == f;
  }

  /** The text has every field of the layout at its full width, as the formatter writes it. */
  predicate FullWidth(s: string) { ReadFields(s, 0).Some? }

  /** Of the texts at full width only the formatted one parses to an instant. */
  lemma OneFullWidthText(instant: int, s: string)
    requires InRange(instant) && FullWidth(s)
    ensures ParseTime(s) == Some(instant) <==> s == FormatTime(instant)
  {
    ParseFormat(instant);
    if ParseTime(s) == Some(instant) {
      var g := ReadFields(s, 0).value;
      assert g[0..] == g;
      SpelledRead(s, 0, g);
      FieldsOfInstantOf(g);
    }
  }

  lemma FieldText(f: seq<nat>, k: nat, digits: string, rest: string)
    requires |f| == 7 && k < 7 && Padded(f[k], WIDTHS[k]) == digits && Spelled(f, k + 1) == rest
    ensures Spelled(f, k) == digits + [SEPARATORS[k]] + rest
  {
  }

  lemma PaddedMore(n: nat, width: nat, front: string)
    requires Padded(n / 10, width) == front
    ensures Padded(n, width + 1) == front + [Digit(n % 10)]
  {
  }

  lemma ZeroDigits(zero: nat)
    requires zero == 0
    ensures Padded(zero, 1) == "0" && Padded(zero, 2) == "00" && Padded(zero, 3) == "000"
  {
    PaddedMore(zero, 0, "");
    PaddedMore(zero, 1, "0");
    PaddedMore(zero, 2, "00");
  }

  lemma OneDigits(one: nat)
    requires one == 1
    ensures Padded(one, 2) == "01"
  {
    ZeroDigits(one / 10);
    PaddedMore(one, 1, "0");
  }

  lemma YearDigits(year: nat)
    requires year == 1970
    ensures Padded(year, 4) == "1970"
  {
    PaddedMore(year / 1000, 0, "");
    PaddedMore(year / 100, 1, "1");
    PaddedMore(year / 10, 2, "19");
    PaddedMore(year, 3, "197");
  }

  /** The date and the time of day of the epoch, as fields. */
  predicate Epoch(f: seq<nat>) {
    |f| == 7 && f[0] == 1970 && f[1] == 1 && f[2] == 1 && f[3] == 0 && f[4] == 0 && f[5] == 0 && f[6] == 0
  }

  lemma EpochDigits(f: seq<nat>)
    requires Epoch(f)
    ensures Padded(f[0], 4) == "1970" && Padded(f[1], 2) == "01" && Padded(f[2], 2) == "01"
    ensures Padded(f[3], 2) == "00" && Padded(f[4], 2) == "00" && Padded(f[5], 2) == "00" && Padded(f[6], 3) == "000"
  {
    YearDigits(f[0]);
    OneDigits(f[1]);
    ZeroDigits(f[3]);
  }

  lemma EpochClock(f: seq<nat>)
    requires Epoch(f)
    ensures Spelled(f, 3) == "00:00:00.000Z"
  {
    EpochDigits(f);
    assert Spelled(f, 7) == "";
    FieldText(f, 6, "000", "");
    FieldText(f, 5, "00", "000Z");
    FieldText(f, 4, "00", "00.000Z");
    FieldText(f, 3, "00", "00:00.000Z");
  }

  lemma EpochDate(f: seq<nat>)
    requires Epoch(f)
    ensures Spelled(f, 0) == "1970-01-01T00:00:00.000Z"
  {
    EpochDigits(f);
    EpochMonth(f);
    FieldText(f, 0, "1970", "01-01T00:00:00.000Z");
    YearText();
  }

  lemma YearText()
    ensures "1970" + ['-'] + "01-01T00:00:00.000Z" == "1970-01-01T00:00:00.000Z"
  {
  }

  lemma MonthText()
    ensures "01" + ['T'] + "00:00:00.000Z" == "01T00:00:00.000Z"
    ensures "01" + ['-'] + "01T00:00:00.000Z" == "01-01T00:00:00.000Z"
  {
  }

  lemma EpochMonth(f: seq<nat>)
    requires Epoch(f)
    ensures Spelled(f, 1) == "01-01T00:00:00.000Z"
  {
    EpochDigits(f);
    EpochClock(f);
    MonthText();
    FieldText(f, 2, "01", "00:00:00.000Z");
    FieldText(f, 1, "01", "01T00:00:00.000Z");
  }

  lemma EpochDay(f: seq<nat>)
    requires Epoch(f)
    ensures Proper(f) && InstantOf(f) == 719528 * DAY
  {
    CalendarIsGregorian(f[0], f[1]);
    EpochYear(f[0]);
    FirstOfJanuary(f[0]);
    Midnight(f);
  }

  lemma EpochYear(year: nat)
    requires year == 1970
    ensures DaysBeforeYear(year) == 719528
  {
    DaysInClosedForm(year);
  }

  lemma Midnight(f: seq<nat>)
    requires Proper(f) && f[3] == 0 && f[4] == 0 && f[5] == 0 && f[6] == 0
    ensures InstantOf(f) == DayOf(f) * DAY
  {
  }

  lemma FirstOfJanuary(year: nat)
    ensures DaysBeforeMonth(year, 1) == 0
  {
  }

  /** The start of 1970 is day 719528, and this is how it is stored. */
  lemma EpochText()
    ensures InRange(719528 * DAY) && FormatTime(719528 * DAY) == "1970-01-01T00:00:00.000Z"
  {
    var f := [1970, 1, 1, 0, 0, 0, 0];
    EpochDay(f);
    FieldsOfInstantOf(f);
    EpochDate(f);
  }

  // ---------------------------------------------------------------- order

  lemma {:induction false} BeforeConcat(a: string, b: string, x: string, y: string)
    requires |a| == |b|
    ensures TextBefore(a + x, b + y) <==> TextBefore(a, b) || (a == b && TextBefore(x, y))
  {
    if a == "" {
      assert a + x == x && b + y == y;
    } else {
      BeforeConcat(a[1..], b[1..], x, y);
      assert (a + x)[1..] == a[1..] + x && (b + y)[1..] == b[1..] + y;
      assert a == [a[0]] + a[1..] && b == [b[0]] + b[1..];
    }
  }

  lemma {:induction false} PaddedInOrder(m: nat, n: nat, width: nat)
    requires m < PowerOfTen(width) && n < PowerOfTen(width)
    ensures TextBefore(Padded(m, width), Padded(n, width)) <==> m < n
    ensures Padded(m, width) == Padded(n, width) ==> m == n
  {
    if width > 0 {
      PaddedInOrder(m / 10, n / 10, width - 1);
      var d, e := [Digit(m % 10)], [Digit(n % 10)];
      BeforeConcat(Padded(m / 10, width - 1), Padded(n / 10, width - 1), d, e);
      assert TextBefore(d, e) <==> m % 10 < n % 10;
    }
    NumberOfPadded(m, width);
    NumberOfPadded(n, width);
  }

  lemma FirstFieldDecides(m: nat, n: nat, width: nat, separator: char, x: string, y: string)
    requires m < PowerOfTen(width) && n < PowerOfTen(width)
    ensures TextBefore(Padded(m, width) + [separator] + x, Padded(n, width) + [separator] + y)
       <==> m < n || (m == n && TextBefore(x, y))
  {
    PaddedInOrder(m, n, width);
    BeforeConcat([separator], [separator], x, y);
    BeforeConcat(Padded(m, width), Padded(n, width), [separator] + x, [separator] + y);
    assert Padded(m, width) + [separator] + x == Padded(m, width) + ([separator] + x);
    assert Padded(n, width) + [separator] + y == Padded(n, width) + ([separator] + y);
  }

  lemma {:induction false} SpelledInOrder(f: seq<nat>, g: seq<nat>, k: nat)
    requires Fits(f) && Fits(g) && k <= 7
    ensures TextBefore(Spelled(f, k), Spelled(g, k)) <==> FieldsBefore(f, g, k)
    decreases 7 - k
  {
    if k < 7 {
      SpelledInOrder(f, g, k + 1);
      FirstFieldDecides(f[k], g[k], WIDTHS[k], SEPARATORS[k], Spelled(f, k + 1), Spelled(g, k + 1));
    }
  }

  /** The byte order of the stored text is the order of time, and equal text means equal time. */
  lemma TextOrderIsTimeOrder(a: int, b: int)
    requires InRange(a) && InRange(b)
    ensures TextBefore(FormatTime(a), FormatTime(b)) <==> a < b
    ensures FormatTime(a) == FormatTime(b) <==> a == b
  {
    var f, g := FieldsOf(a), FieldsOf(b);
    ProperFits(f);
    ProperFits(g);
    SpelledInOrder(f, g, 0);
    FieldsAreTotal(f, g, 0);
    if FieldsBefore(f, g, 0) { FieldsInOrder(f, g); }
    if FieldsBefore(g, f, 0) { FieldsInOrder(g, f); }
    ParseFormat(a);
    ParseFormat(b);
  }

  // ---------------------------------------------------------------- what the queries rely on

  /** `WHERE expires_at <= now`, compared as text. */
  predicate SweptByText(expires: int, now: int)
    requires InRange(expires) && InRange(now)
  {
    !TextBefore(FormatTime(now), FormatTime(expires))
  }

  lemma SweptWhenExpired(expires: int, now: int)
    requires InRange(expires) && InRange(now)
    ensures SweptByText(expires, now) <==> !(now < expires)
  {
    TextOrderIsTimeOrder(now, expires);
  }

  /** The sweep over the stored text deletes exactly the sessions the service would reject. */
  lemma TextSweepIsExpiry(st: Auth.State, now: int, t: Auth.Id)
    requires InRange(now) && t in st.sessions && InRange(st.sessions[t].expires)
    ensures SweptByText(st.sessions[t].expires, now) <==> st.sessions[t].Expired(now)
    ensures SweptByText(st.sessions[t].expires, now) <==> t !in Auth.DropExpired(st, now).sessions
  {
    SweptWhenExpired(st.sessions[t].expires, now);
  }

  datatype Row = Row(created: int, id: string)

  predicate InTextOrder(a: Row, b: Row)
    requires InRange(a.created) && InRange(b.created)
  {
    || TextBefore(FormatTime(a.created), FormatTime(b.created))
    || (FormatTime(a.created) == FormatTime(b.created) && !TextBefore(b.id, a.id))
  }

  predicate InTimeOrder(a: Row, b: Row) {
    a.created < b.created || (a.created == b.created && !TextBefore(b.id, a.id))
  }

  /** `ORDER BY created_at, id` over text lists rows by instant, then id. */
  lemma ListedByTime(rows: seq<Row>)
    requires forall i :: 0 <= i < |rows| ==> InRange(rows[i].created)
    ensures (forall i, j :: 0 <= i < j < |rows| ==> InTextOrder(rows[i], rows[j]))
       <==> (forall i, j :: 0 <= i < j < |rows| ==> InTimeOrder(rows[i], rows[j]))
  {
    forall i, j | 0 <= i < j < |rows| ensures InTextOrder(rows[i], rows[j]) <==> InTimeOrder(rows[i], rows[j]) {
      TextOrderIsTimeOrder(rows[i].created, rows[j].created);
    }
  }
}
