/** Dates out of timestamps and back, in closed form, and the months counted from a date. */
module Calendar {
  const DAY_MS := 86_400_000
  /** Days from 0000-03-01 to 1970-01-01. */
  const SHIFT := 719_468

  datatype Date = Date(y: int, m: int, d: int)

  predicate Leap(year: int) {
    (year % 4 == 0 && year % 100 != 0) || year % 400 == 0
  }

  function DaysInMonth(year: int, month: int): (r: int)
    ensures 28 <= r <= 31
  {
    if month == 4 || month == 6 || month == 9 || month == 11 then 30
    else if month == 2 then (if Leap(year) then 29 else 28)
    else 31
  }

  predicate ValidDate(c: Date) {
    1 <= c.m <= 12 && 1 <= c.d <= DaysInMonth(c.y, c.m)
  }

  // ---- the closed forms, on days since 1970 --------------------------------------------

  /** The year of the 400-year era that day `doe` of it lies in. */
  function YearOfEra(doe: int): int {
    (doe - doe / 1460 + doe / 36_524 - doe / 146_096) / 365
  }

  /** The month, counted from March, that day `doy` of a year lies in. */
  function MonthOfYear(doy: int): int {
    (5 * doy + 2) / 153
  }

  function CivilFromDays(z: int): Date {
    var days := z + SHIFT;
    var era := days / 146_097;
    var doe := days % 146_097;
    var yoe := YearOfEra(doe);
    var y := yoe + era * 400;
    var doy := doe - (365 * yoe + yoe / 4 - yoe / 100);
    var mp := MonthOfYear(doy);
    var d := doy - MonthDays(mp) + 1;
    var m := if mp < 10 then mp + 3 else mp - 9;
    Date(y + (if m <= 2 then 1 else 0), m, d)
  }

  function DaysFromCivil(c: Date): int {
    var yy := if c.m <= 2 then c.y - 1 else c.y;
    var mm := if c.m <= 2 then c.m + 9 else c.m - 3;
    var era := yy / 400;
    var yoe := yy - era * 400;
    var doy := MonthDays(mm) + c.d - 1;
    var doe := yoe * 365 + yoe / 4 - yoe / 100 + doy;
    era * 146_097 + doe - SHIFT
  }

  /** Days before the March-based year `y`, counted leap day by leap day. */
  function YearDays(y: int): int {
    365 * y + y / 4 - y / 100 + y / 400
  }

  /** Days before the month `mp` of a year that begins in March. */
  function MonthDays(mp: int): int {
    (153 * mp + 2) / 5
  }

  lemma YearLength(y: int)
    ensures YearDays(y + 1) - YearDays(y) == if Leap(y + 1) then 366 else 365
  {
    assert (y + 1) / 4 - y / 4 == if (y + 1) % 4 == 0 then 1 else 0;
    assert (y + 1) / 100 - y / 100 == if (y + 1) % 100 == 0 then 1 else 0;
    assert (y + 1) / 400 - y / 400 == if (y + 1) % 400 == 0 then 1 else 0;
    assert (y + 1) % 400 == 0 ==> (y + 1) % 100 == 0;
    assert (y + 1) % 100 == 0 ==> (y + 1) % 4 == 0;
  }

  lemma {:induction false} YearDaysIncrease(a: int, b: int)
    requires a <= b
    ensures YearDays(a) + 365 * (b - a) <= YearDays(b)
    decreases b - a
  {
    if a < b {
      YearLength(b - 1);
      YearDaysIncrease(a, b - 1);
    }
  }

  lemma EraDays(era: int, yoe: int)
    requires 0 <= yoe < 400
    ensures era * 146_097 + (365 * yoe + yoe / 4 - yoe / 100) == YearDays(yoe + era * 400)
  {
    hide YearDays;
    Centuries(yoe, era);
    YearDaysAre(yoe + era * 400);
  }

  lemma YearDaysAre(y: int)
    ensures YearDays(y) == 365 * y + y / 4 - y / 100 + y / 400
  {
  }

  lemma Fours(yoe: int, era: int)
    ensures (yoe + era * 400) / 4 == yoe / 4 + 100 * era && (yoe + era * 400) % 4 == yoe % 4
  {
  }

  lemma Hundreds(yoe: int, era: int)
    ensures (yoe + era * 400) / 100 == yoe / 100 + 4 * era && (yoe + era * 400) % 100 == yoe % 100
  {
  }

  lemma FourHundreds(yoe: int, era: int)
    ensures (yoe + era * 400) / 400 == yoe / 400 + era && (yoe + era * 400) % 400 == yoe % 400
  {
  }

  lemma Centuries(yoe: int, era: int)
    requires 0 <= yoe < 400
    ensures (yoe + era * 400) / 4 == yoe / 4 + 100 * era
    ensures (yoe + era * 400) / 100 == yoe / 100 + 4 * era
    ensures (yoe + era * 400) / 400 == era
  {
    Fours(yoe, era);
    Hundreds(yoe, era);
    FourHundreds(yoe, era);
  }

  /** The year formula finds the year of the era a day lies in. */
  lemma YearOfEraFits(doe: int)
    requires 0 <= doe < 146_097
    ensures var yoe := YearOfEra(doe);
            0 <= yoe < 400 && YearDays(yoe) <= doe < YearDays(yoe + 1)
  {
    var c := doe / 36_524;
    if c < 4 {
      var r := doe - 36_524 * c;
      var f := r / 1461;
      YearInCentury(doe, c, f, r - 1461 * f);
    }
  }

  lemma YearInCentury(doe: int, c: int, f: int, r: int)
    requires 0 <= c < 4 && 0 <= f < 25 && 0 <= r < 1461
    requires doe == 36_524 * c + 1461 * f + r && 0 <= doe < 36_524 * (c + 1)
    ensures var yoe := YearOfEra(doe);
            0 <= yoe < 400 && YearDays(yoe) <= doe < YearDays(yoe + 1)
  {
    hide YearOfEra, YearDays;
    var y4 := if r < 1460 then r / 365 else 3;
    var t := if 24 * c + f + r >= 1460 then 1 else 0;
    assert 365 * y4 <= r && (r < 365 * y4 + 365 || r == 1460) && 0 <= y4 < 4;
    LeapsSoFar(doe, c, f, r, t);
    YearInFour(c, f, y4, r - t);
    YearSpan(c, f, y4);
  }

  lemma LeapsSoFar(doe: int, c: int, f: int, r: int, t: int)
    requires 0 <= c < 4 && 0 <= f < 25 && 0 <= r < 1461
    requires doe == 36_524 * c + 1461 * f + r && 0 <= doe < 36_524 * (c + 1)
    requires t == if 24 * c + f + r >= 1460 then 1 else 0
    ensures YearOfEra(doe) == (36_500 * c + 1460 * f + r - t) / 365
  {
    assert doe / 1460 == 25 * c + f + t;
    assert doe / 36_524 == c;
    assert doe / 146_096 == 0;
  }

  lemma YearInFour(c: int, f: int, y4: int, r: int)
    requires 365 * y4 <= r < 365 * y4 + 365
    ensures (36_500 * c + 1460 * f + r) / 365 == 100 * c + 4 * f + y4
  {
  }

  lemma YearSpan(c: int, f: int, y4: int)
    requires 0 <= c < 4 && 0 <= f < 25 && 0 <= y4 < 4
    ensures YearDays(100 * c + 4 * f + y4) == 36_524 * c + 1461 * f + 365 * y4
    ensures YearDays(100 * c + 4 * f + y4 + 1) ==
              36_524 * c + 1461 * f + 365 * y4 + if y4 == 3 && (f < 24 || c == 3) then 366 else 365
  {
    YearLength(100 * c + 4 * f + y4);
    YearsBegun(c, f, y4);
    LeapWithin(c, f, y4);
  }

  lemma YearsBegun(c: int, f: int, y4: int)
    requires 0 <= c < 4 && 0 <= f < 25 && 0 <= y4 < 4
    ensures YearDays(100 * c + 4 * f + y4) == 36_524 * c + 1461 * f + 365 * y4
  {
    var y := 100 * c + 4 * f + y4;
    assert y / 4 == 25 * c + f;
    assert y / 100 == c;
    assert y / 400 == 0;
  }

  lemma LeapWithin(c: int, f: int, y4: int)
    requires 0 <= c < 4 && 0 <= f < 25 && 0 <= y4 < 4
    ensures Leap(100 * c + 4 * f + y4 + 1) <==> y4 == 3 && (f < 24 || c == 3)
  {
    var y := 100 * c + 4 * f + y4 + 1;
    assert y % 4 == (y4 + 1) % 4;
    assert y % 100 == (4 * f + y4 + 1) % 100;
    if y4 == 3 && f == 24 {
      assert y == 100 * (c + 1);
    }
  }

  lemma YearOfEraUnique(doe: int, y: int)
    requires 0 <= y < 400 && YearDays(y) <= doe < YearDays(y + 1)
    ensures 0 <= doe < 146_097
    ensures YearOfEra(doe) == y
  {
    YearDaysIncrease(0, y);
    YearDaysIncrease(y + 1, 400);
    YearOfEraFits(doe);
    var yoe := YearOfEra(doe);
    if yoe < y { YearDaysIncrease(yoe + 1, y); }
    if y < yoe { YearDaysIncrease(y + 1, yoe); }
  }

  lemma MonthOfYearFits(doy: int)
    requires 0 <= doy <= 365
    ensures var mp := MonthOfYear(doy);
            0 <= mp <= 11 && MonthDays(mp) <= doy < MonthDays(mp + 1)
  {
  }

  lemma MonthOfYearUnique(doy: int, mp: int)
    requires 0 <= mp <= 11 && MonthDays(mp) <= doy < MonthDays(mp + 1)
    ensures MonthOfYear(doy) == mp
  {
  }

  /** The months from March on have the lengths the formula spaces them by; February is the rest. */
  lemma MonthLength(y: int, m: int)
    requires 1 <= m <= 12
    ensures var mm := if m <= 2 then m + 9 else m - 3;
            if m == 2 then MonthDays(mm) + DaysInMonth(y, m) == (if Leap(y) then 366 else 365) < MonthDays(mm + 1)
            else MonthDays(mm) + DaysInMonth(y, m) == MonthDays(mm + 1)
  {
  }

  /** A date is a place in a March-based year. */
  lemma DaysAreYearAndMonth(c: Date)
    ensures var yy := if c.m <= 2 then c.y - 1 else c.y;
            var mm := if c.m <= 2 then c.m + 9 else c.m - 3;
            DaysFromCivil(c) == YearDays(yy) + MonthDays(mm) + c.d - 1 - SHIFT
  {
    var yy := if c.m <= 2 then c.y - 1 else c.y;
    EraDays(yy / 400, yy - yy / 400 * 400);
  }

  lemma LeapInEra(yoe: int, era: int)
    ensures Leap(yoe + era * 400) == Leap(yoe)
  {
    Fours(yoe, era);
    Hundreds(yoe, era);
    FourHundreds(yoe, era);
  }

  /** Every day has a date that exists, and the date leads back to the day. */
  lemma DateOfDay(z: int)
    ensures ValidDate(CivilFromDays(z)) && DaysFromCivil(CivilFromDays(z)) == z
  {
    hide YearOfEra, MonthOfYear, YearDays, MonthDays, DaysInMonth, DaysFromCivil, Leap;
    var era, doe := (z + SHIFT) / 146_097, (z + SHIFT) % 146_097;
    var yoe := YearOfEra(doe);
    YearOfEraFits(doe);
    EraDays(0, yoe);
    YearLength(yoe);
    var doy := doe - YearDays(yoe);
    MonthOfYearFits(doy);
    var c := CivilFromDays(z);
    var mp := MonthOfYear(doy);
    assert c.d == doy - MonthDays(mp) + 1;
    MonthLength(c.y, c.m);
    LeapInEra(yoe + 1, era);
    EraDays(era, yoe);
    DaysAreYearAndMonth(c);
  }

  /** Every date that exists is the date of its own day. */
  lemma DayOfDate(c: Date)
    requires ValidDate(c)
    ensures CivilFromDays(DaysFromCivil(c)) == c
  {
    hide YearOfEra, MonthOfYear, YearDays, MonthDays, DaysInMonth, DaysFromCivil, Leap;
    var yy := if c.m <= 2 then c.y - 1 else c.y;
    var mm := if c.m <= 2 then c.m + 9 else c.m - 3;
    var era, yoe := yy / 400, yy % 400;
    MonthLength(c.y, c.m);
    var doy := MonthDays(mm) + c.d - 1;
    var doe := YearDays(yoe) + doy;
    DaysAreYearAndMonth(c);
    EraDays(era, yoe);
    EraDays(0, yoe);
    YearLength(yoe);
    LeapInEra(yoe + 1, era);
    YearFitsMonth(mm, c.d, DaysInMonth(c.y, c.m), Leap(yoe + 1));
    YearOfEraUnique(doe, yoe);
    DivideBack(DaysFromCivil(c) + SHIFT, era, doe);
    MonthOfYearUnique(doy, mm);
  }

  lemma DivideBack(days: int, era: int, doe: int)
    requires days == era * 146_097 + doe && 0 <= doe < 146_097
    ensures days / 146_097 == era && days % 146_097 == doe
  {
  }

  lemma YearFitsMonth(mm: int, d: int, len: int, leap: bool)
    requires 0 <= mm <= 11 && 1 <= d <= len
    requires mm == 11 ==> MonthDays(mm) + len == if leap then 366 else 365
    requires mm < 11 ==> MonthDays(mm) + len == MonthDays(mm + 1)
    ensures 0 <= MonthDays(mm) + d - 1 < (if leap then 366 else 365)
    ensures MonthDays(mm) + d - 1 < MonthDays(mm + 1)
  {
  }

  // ---- counting day by day ----------------------------------------------------------------

  function NextDay(c: Date): Date {
    if c.d < DaysInMonth(c.y, c.m) then Date(c.y, c.m, c.d + 1)
    else if c.m < 12 then Date(c.y, c.m + 1, 1)
    else Date(c.y + 1, 1, 1)
  }

  /** The date `n` days after the first of January 1970, one day at a time. */
  function CountDays(n: nat): Date {
    if n == 0 then Date(1970, 1, 1) else NextDay(CountDays(n - 1))
  }

  lemma NextDayIsOneMore(c: Date)
    requires ValidDate(c)
    ensures ValidDate(NextDay(c)) && DaysFromCivil(NextDay(c)) == DaysFromCivil(c) + 1
  {
    hide YearDays, MonthDays, DaysFromCivil, Leap;
    var n := NextDay(c);
    DaysAreYearAndMonth(c);
    DaysAreYearAndMonth(n);
    MonthLength(c.y, c.m);
    MonthLength(n.y, n.m);
    YearLength(c.y - 1);
    NewYear();
  }

  lemma NewYear()
    ensures MonthDays(0) == 0 && MonthDays(10) == 306
  {
  }

  // ---- on milliseconds -----------------------------------------------------------------------

  function CivilFromMs(ms: nat): Date {
    CivilFromDays(ms / DAY_MS)
  }

  function MsFromCivil(c: Date): nat {
    var days := DaysFromCivil(c);
    (if days < 0 then 0 else days) * DAY_MS
  }

  lemma FirstDate()
    ensures CivilFromDays(0) == Date(1970, 1, 1) && ValidDate(Date(1970, 1, 1))
  {
    hide CivilFromDays;
    EraDays(4, 369);
    DaysAreYearAndMonth(Date(1970, 1, 1));
    DayOfDate(Date(1970, 1, 1));
  }

  /** The closed form is the naive count, for every timestamp, and the date exists. */
  lemma {:induction false} CivilIsCounting(ms: nat)
    ensures CivilFromMs(ms) == CountDays(ms / DAY_MS) && ValidDate(CivilFromMs(ms))
    decreases ms / DAY_MS
  {
    hide CivilFromDays, DaysFromCivil, ValidDate, NextDay;
    var n := ms / DAY_MS;
    DateOfDay(n);
    if n == 0 {
      FirstDate();
    } else {
      CivilIsCounting((n - 1) * DAY_MS);
      assert (n - 1) * DAY_MS / DAY_MS == n - 1;
      DateOfDay(n - 1);
      var before := CivilFromDays(n - 1);
      NextDayIsOneMore(before);
      DayOfDate(NextDay(before));
    }
  }

  /** A timestamp's date leads back to the midnight before it. */
  lemma MidnightOf(ms: nat)
    ensures MsFromCivil(CivilFromMs(ms)) == ms - ms % DAY_MS
  {
    DateOfDay(ms / DAY_MS);
  }

  lemma DaysSinceEpoch(c: Date)
    requires ValidDate(c)
    ensures DaysFromCivil(c) >= 0 <==> c.y >= 1970
  {
    DaysAreYearAndMonth(c);
    MonthLength(c.y, c.m);
    var yy := if c.m <= 2 then c.y - 1 else c.y;
    if c.y >= 1970 { YearDaysIncrease(1969, yy); } else { YearDaysIncrease(yy, if c.m <= 2 then 1968 else 1969); }
  }

  /** A date that exists comes back from its timestamp exactly when it lies in 1970 or later:
      earlier ones are all taken for the first of January 1970. */
  lemma DateComesBack(c: Date)
    requires ValidDate(c)
    ensures CivilFromMs(MsFromCivil(c)) == c <==> c.y >= 1970
  {
    hide CivilFromDays, DaysFromCivil;
    DaysSinceEpoch(c);
    DayOfDate(c);
    FirstDate();
    if c.y >= 1970 {
      assert MsFromCivil(c) / DAY_MS == DaysFromCivil(c);
    }
  }

  // ---- months ------------------------------------------------------------------------------------

  /** Months since the year zero. */
  function MonthIndex(c: Date): int {
    c.y * 12 + c.m - 1
  }

  function MonthOf(idx: int, d: int): Date {
    Date(idx / 12, idx % 12 + 1, d)
  }

  function MonthDaysOf(idx: int): int {
    DaysInMonth(idx / 12, idx % 12 + 1)
  }

  function FirstDay(idx: int): int {
    DaysFromCivil(MonthOf(idx, 1))
  }

  lemma DayInMonth(idx: int, d: int)
    ensures DaysFromCivil(MonthOf(idx, d)) == FirstDay(idx) + d - 1
  {
  }

  lemma NextMonth(idx: int)
    ensures FirstDay(idx + 1) == FirstDay(idx) + MonthDaysOf(idx)
  {
    hide DaysFromCivil, DaysInMonth;
    var last := MonthOf(idx, MonthDaysOf(idx));
    NextDayIsOneMore(last);
    DayInMonth(idx, MonthDaysOf(idx));
    assert NextDay(last) == MonthOf(idx + 1, 1) by {
      if idx % 12 == 11 {
        assert (idx + 1) / 12 == idx / 12 + 1 && (idx + 1) % 12 == 0;
      } else {
        assert (idx + 1) / 12 == idx / 12 && (idx + 1) % 12 == idx % 12 + 1;
      }
    }
  }

  lemma {:induction false} FirstDaysIncrease(a: int, b: int)
    requires a <= b
    ensures FirstDay(a) + 28 * (b - a) <= FirstDay(b)
    decreases b - a
  {
    hide FirstDay;
    if a < b {
      NextMonth(b - 1);
      FirstDaysIncrease(a, b - 1);
    }
  }

  /** A day lies in month `idx` exactly when it is not before its first and before the next one's. */
  lemma MonthBounds(z: int, idx: int)
    ensures MonthIndex(CivilFromDays(z)) == idx <==> FirstDay(idx) <= z < FirstDay(idx + 1)
  {
    hide CivilFromDays, DaysFromCivil, FirstDay, DaysInMonth;
    var c := CivilFromDays(z);
    DateOfDay(z);
    var k := MonthIndex(c);
    assert c == MonthOf(k, c.d);
    DayInMonth(k, c.d);
    NextMonth(k);
    if idx < k { FirstDaysIncrease(idx + 1, k); }
    if k < idx { FirstDaysIncrease(k + 1, idx); }
  }

  /** `ms` moved on by whole calendar months, at the same time of day; a day the month does
      not have is its last one. */
  function AddMonths(ms: nat, months: nat): nat {
    var c := CivilFromMs(ms);
    var idx := c.y * 12 + (c.m - 1) + months;
    var ty, tm := idx / 12, idx % 12 + 1;
    var td := if c.d <= DaysInMonth(ty, tm) then c.d else DaysInMonth(ty, tm);
    MsFromCivil(Date(ty, tm, td)) + ms % DAY_MS
  }

  /** Where a moment lands: `months` months on, on the same day or the last one there is, at
      the same time of day. */
  lemma AddMonthsLands(ms: nat, months: nat)
    ensures var c, t := CivilFromMs(ms), CivilFromMs(AddMonths(ms, months));
            && MonthIndex(t) == MonthIndex(c) + months
            && t.d == (if c.d <= DaysInMonth(t.y, t.m) then c.d else DaysInMonth(t.y, t.m))
    ensures AddMonths(ms, months) % DAY_MS == ms % DAY_MS
  {
    hide CivilFromDays, DaysFromCivil, DaysInMonth;
    var c := CivilFromMs(ms);
    DateOfDay(ms / DAY_MS);
    DaysSinceEpoch(c);
    var idx := MonthIndex(c) + months;
    var td := if c.d <= MonthDaysOf(idx) then c.d else MonthDaysOf(idx);
    var t := MonthOf(idx, td);
    assert t.y >= 1970;
    DaysSinceEpoch(t);
    DayOfDate(t);
    assert AddMonths(ms, months) / DAY_MS == DaysFromCivil(t);
  }

  lemma NoMonths(ms: nat)
    ensures AddMonths(ms, 0) == ms
  {
    hide CivilFromDays, DaysFromCivil, DaysInMonth;
    DateOfDay(ms / DAY_MS);
    MidnightOf(ms);
    var c := CivilFromMs(ms);
    assert MonthOf(MonthIndex(c), c.d) == c;
  }

  /** Later months never begin earlier. */
  lemma MonthsKeepOrder(a: nat, b: nat)
    requires a <= b
    ensures MonthIndex(CivilFromMs(a)) <= MonthIndex(CivilFromMs(b))
  {
    hide CivilFromDays, FirstDay;
    var x, y := MonthIndex(CivilFromMs(a)), MonthIndex(CivilFromMs(b));
    MonthBounds(a / DAY_MS, x);
    MonthBounds(b / DAY_MS, y);
    if y < x {
      FirstDaysIncrease(y + 1, x);
    }
  }

  /** More months is strictly later. */
  lemma AddMonthsIncreases(ms: nat, j: nat, k: nat)
    requires j < k
    ensures AddMonths(ms, j) < AddMonths(ms, k)
  {
    hide CivilFromDays, AddMonths;
    AddMonthsLands(ms, j);
    AddMonthsLands(ms, k);
    if AddMonths(ms, k) <= AddMonths(ms, j) {
      MonthsKeepOrder(AddMonths(ms, k), AddMonths(ms, j));
    }
  }

  /** A moment's day, counted from the first of its month. */
  lemma DayOfMoment(ms: nat)
    ensures var c := CivilFromMs(ms);
            ms / DAY_MS == FirstDay(MonthIndex(c)) + c.d - 1 && 1 <= c.d <= MonthDaysOf(MonthIndex(c)) == DaysInMonth(c.y, c.m)
  {
    hide CivilFromDays, DaysFromCivil, DaysInMonth;
    var c := CivilFromMs(ms);
    DateOfDay(ms / DAY_MS);
    assert MonthOf(MonthIndex(c), c.d) == c;
    DayInMonth(MonthIndex(c), c.d);
  }

  /** Whether `a`, months on, is put behind `b`: they are in one month, the month they land in has no
      day after the one `a` is on, and `a` is later in its day. */
  predicate Overtakes(a: nat, b: nat, months: nat) {
    && MonthIndex(CivilFromMs(a)) == MonthIndex(CivilFromMs(b))
    && MonthDaysOf(MonthIndex(CivilFromMs(a)) + months) <= CivilFromMs(a).d
    && a % DAY_MS > b % DAY_MS
  }

  /** Where two moments of one month land. */
  lemma LandInOneMonth(a: nat, b: nat, months: nat)
    requires a < b && MonthIndex(CivilFromMs(a)) == MonthIndex(CivilFromMs(b))
    ensures AddMonths(a, months) > AddMonths(b, months) <==> Overtakes(a, b, months)
  {
    hide CivilFromDays, AddMonths, FirstDay, DaysInMonth;
    DayOfMoment(a);
    DayOfMoment(b);
    AddMonthsLands(a, months);
    AddMonthsLands(b, months);
    DayOfMoment(AddMonths(a, months));
    DayOfMoment(AddMonths(b, months));
    ByDayAndTime(a, b);
    ByDayAndTime(AddMonths(b, months), AddMonths(a, months));
  }

  lemma ByDayAndTime(a: nat, b: nat)
    ensures a < b <==> a / DAY_MS < b / DAY_MS || (a / DAY_MS == b / DAY_MS && a % DAY_MS < b % DAY_MS)
  {
  }

  /** A later moment stays later, months on, but for two of one month whose days are both clamped to
      the last one there is: those are put in the order of their times of day. */
  lemma AddMonthsReordersExactly(a: nat, b: nat, months: nat)
    requires a < b
    ensures AddMonths(a, months) > AddMonths(b, months) <==> Overtakes(a, b, months)
  {
    hide CivilFromDays, AddMonths, MonthDaysOf;
    MonthsKeepOrder(a, b);
    if MonthIndex(CivilFromMs(a)) == MonthIndex(CivilFromMs(b)) {
      LandInOneMonth(a, b, months);
    } else {
      AddMonthsLands(a, months);
      AddMonthsLands(b, months);
      if AddMonths(a, months) > AddMonths(b, months) {
        MonthsKeepOrder(AddMonths(b, months), AddMonths(a, months));
      }
    }
  }

  /** It happens: the 30th of January at noon and the 31st at midnight, one month on. */
  lemma AddMonthsMayReorder()
    ensures exists a: nat, b: nat :: a < b && AddMonths(a, 1) > AddMonths(b, 1)
  {
    hide CivilFromDays, DaysFromCivil, AddMonths;
    var a, b := MsFromCivil(Date(2026, 1, 30)) + 43_200_000, MsFromCivil(Date(2026, 1, 31));
    DateComesBack(Date(2026, 1, 30));
    DateComesBack(Date(2026, 1, 31));
    NextDayIsOneMore(Date(2026, 1, 30));
    DaysSinceEpoch(Date(2026, 1, 30));
    assert CivilFromMs(a) == Date(2026, 1, 30);
    AddMonthsReordersExactly(a, b, 1);
    assert AddMonths(a, 1) > AddMonths(b, 1);
  }
}
