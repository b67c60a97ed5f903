/** The months of the ledger are those of the Gregorian calendar. */
module Calendars {
  import opened Days

  /** January 1970, counted in months since year 0. */
  const EPOCH_MONTH: int := 23_640

  predicate Leap(year: int) {
    year % 4 == 0 && (year % 100 != 0 || year % 400 == 0)
  }

  /** How many days a month has; 0 is January. */
  function Length(month: int): int {
    match month % 12
    case 1 => if Leap(month / 12) then 29 else 28
    case 3 => 30
    case 5 => 30
    case 8 => 30
    case 10 => 30
    case _ => 31
  }

  /** The first day of a month, counted month by month from the epoch. */
  function FirstDay(month: int): int
    decreases if month >= EPOCH_MONTH then month - EPOCH_MONTH else EPOCH_MONTH - month
  {
    if month == EPOCH_MONTH then 0
    else if month > EPOCH_MONTH then FirstDay(month - 1) + Length(month - 1)
    else FirstDay(month + 1) - Length(month)
  }

  // ---------------------------------------------------------------- in closed form

  /** Days of a 400-year era before a year of it; years start in March. */
  function YearStart(y: int): int {
    365 * y + y / 4 - y / 100
  }

  /** Days of a year before one of its months; 0 is March. */
  function MonthStart(m: int): int {
    (153 * m + 2) / 5
  }

  /** The first day of the m-th month after March of year 400 * era + y. */
  function Closed(era: int, y: int, m: int): int {
    146_097 * era + YearStart(y) + MonthStart(m) - 719_468
  }

  /** The year of an era a day of it lies in. */
  function YearOf(doe: int): int {
    (doe - doe / 1_460 + doe / 36_524 - doe / 146_096) / 365
  }

  /** Within one century of an era the leap days fall every fourth year. */
  lemma YearInCentury(c: int, d: int)
    requires 0 <= c < 4 && 0 <= d <= 36_524 && (d == 36_524 ==> c == 3)
    ensures var y := (d - (24 * c + d) / 1_460) / 365;
            0 <= y < 100 && 365 * y + y / 4 <= d && (d < 365 * (y + 1) + (y + 1) / 4 || y == 99)
  {
    FourYears(c, d / 1_461, d % 1_461);
  }

  lemma FourYears(c: int, q: int, r: int)
    requires 0 <= c < 4 && 0 <= q < 25 && 0 <= r < 1_461 && 1_461 * q + r <= 36_524
    ensures var d := 1_461 * q + r;
            (24 * c + d) / 1_460 == q + (if 24 * c + q + r >= 1_460 then 1 else 0)
  {
  }

  lemma YearFound(doe: int)
    requires 0 <= doe < 146_097
    ensures var y := YearOf(doe);
            0 <= y < 400 && YearStart(y) <= doe && (doe < YearStart(y + 1) || y == 399)
  {
    hide YearOf, YearStart;
    var c, d := Century(doe);
    YearInCentury(c, d);
    YearOfCentury(c, d);
    var y := (d - (24 * c + d) / 1_460) / 365;
    YearStarts(c, y);
    YearStarts(c, y + 1);
    assert 100 * c + y + 1 == 100 * c + (y + 1);
  }

  lemma Century(doe: int) returns (c: int, d: int)
    requires 0 <= doe < 146_097
    ensures doe == 36_524 * c + d && 0 <= c < 4 && 0 <= d <= 36_524 && (d == 36_524 ==> c == 3)
  {
    c := if doe == 146_096 then 3 else doe / 36_524;
    d := doe - 36_524 * c;
  }

  lemma YearOfCentury(c: int, d: int)
    requires 0 <= c < 4 && 0 <= d <= 36_524 && (d == 36_524 ==> c == 3)
    ensures YearOf(36_524 * c + d) == 100 * c + (d - (24 * c + d) / 1_460) / 365
  {
    assert (36_524 * c + d) / 1_460 == 25 * c + (24 * c + d) / 1_460;
  }

  lemma YearStarts(c: int, y: int)
    requires 0 <= y <= 100
    ensures YearStart(100 * c + y) == 36_524 * c + 365 * y + y / 4 - (if y == 100 then 1 else 0)
  {
    Shifted4(25 * c, y);
    Shifted100(c, y);
  }

  /** A day is in month m after March of year 400 * era + y exactly when it is not before it nor past it. */
  lemma MonthFound(day: int)
    ensures var (era, doe) := ((day + 719_468) / 146_097, (day + 719_468) % 146_097);
            var y := YearOf(doe);
            var m := (5 * (doe - YearStart(y)) + 2) / 153;
            && 0 <= y < 400 && 0 <= m < 12 && MonthOf(day) == 12 * (400 * era + y) + m + 2
            && MonthStart(m) <= doe - YearStart(y) < MonthStart(m + 1)
  {
    YearFound((day + 719_468) % 146_097);
  }

  // ---------------------------------------------------------------- the calendar and the closed form

  /** The month index of the m-th month after March of year 400 * era + y, and the one before it. */
  function Named(era: int, y: int, m: int): int {
    12 * (400 * era + y) + m + 2
  }

  /** The first day of a month, in closed form. */
  function Starts(month: int): int {
    var n := month - 2;
    Closed(n / 4_800, n % 4_800 / 12, n % 12)
  }

  lemma Shifted4800(k: int, r: int)
    requires 0 <= r < 4_800
    ensures (4_800 * k + r) / 4_800 == k && (4_800 * k + r) % 4_800 == r
  {
  }

  lemma Shifted12(k: int, r: int)
    requires 0 <= r < 12
    ensures (12 * k + r) / 12 == k && (12 * k + r) % 12 == r
  {
  }

  lemma StartsOf(era: int, y: int, m: int)
    requires 0 <= y < 400 && 0 <= m < 12
    ensures Starts(Named(era, y, m)) == Closed(era, y, m)
  {
    hide Closed;
    Shifted4800(era, 12 * y + m);
    Shifted12(400 * era + y, m);
    Shifted12(y, m);
    assert Named(era, y, m) - 2 == 4_800 * era + (12 * y + m) == 12 * (400 * era + y) + m;
  }

  lemma Shifted4(k: int, n: int)
    ensures (4 * k + n) % 4 == n % 4 && (4 * k + n) / 4 == k + n / 4
  {
  }

  lemma Shifted100(k: int, n: int)
    ensures (100 * k + n) % 100 == n % 100 && (100 * k + n) / 100 == k + n / 100
  {
  }

  lemma Shifted400(k: int, n: int)
    ensures (400 * k + n) % 400 == n % 400
  {
  }

  lemma LeapInEra(era: int, n: int)
    ensures Leap(400 * era + n) <==> Leap(n)
  {
    Shifted4(100 * era, n);
    Shifted100(4 * era, n);
    Shifted400(era, n);
  }

  lemma YearLength(y: int)
    requires 0 <= y < 399
    ensures YearStart(y + 1) - YearStart(y) == if Leap(y + 1) then 366 else 365
  {
    assert (y + 1) / 4 - y / 4 == if (y + 1) % 4 == 0 then 1 else 0;
    assert (y + 1) / 100 - y / 100 == if (y + 1) % 100 == 0 then 1 else 0;
    assert (y + 1) % 100 == 0 ==> (y + 1) % 4 == 0;
  }

  lemma Februaries(year: int)
    ensures Length(12 * year + 1) == if Leap(year) then 29 else 28
  {
    hide Leap;
    assert (12 * year + 1) % 12 == 1 && (12 * year + 1) / 12 == year;
  }

  /** The year's last month is February; the leap day ends it. */
  lemma LeapDay(era: int, y: int)
    requires 0 <= y < 400
    ensures Length(Named(era, y, 11))
            == (if y == 399 then 146_097 else YearStart(y + 1)) - YearStart(y) - MonthStart(11)
  {
    hide Leap, Length;
    Februaries(400 * era + (y + 1));
    assert Named(era, y, 11) == 12 * (400 * era + (y + 1)) + 1;
    LeapInEra(era, y + 1);
    if y < 399 { YearLength(y); } else { LastYear(); }
  }

  lemma LastYear()
    ensures Leap(400) && YearStart(399) == 145_731
  {
  }

  lemma OtherMonths(era: int, y: int, m: int)
    requires 0 <= y < 400 && 0 <= m < 11
    ensures Length(Named(era, y, m)) == MonthStart(m + 1) - MonthStart(m)
  {
    var month := Named(era, y, m);
    assert month % 12 == if m < 10 then m + 2 else m - 10;
  }

  lemma StartsStep(month: int)
    ensures Starts(month + 1) == Starts(month) + Length(month)
  {
    hide Starts, Length, YearStart;
    var n := month - 2;
    var era, y, m := n / 4_800, n % 4_800 / 12, n % 12;
    SplitMonth(n);
    assert month == Named(era, y, m);
    StartsOf(era, y, m);
    if m < 11 {
      OtherMonths(era, y, m);
      StartsOf(era, y, m + 1);
    } else {
      LeapDay(era, y);
      if y < 399 { StartsOf(era, y + 1, 0); } else { StartsOf(era + 1, 0, 0); EraStart(); }
    }
  }

  lemma EraStart()
    ensures YearStart(0) == 0 && MonthStart(0) == 0
  {
  }

  lemma SplitMonth(n: int)
    ensures var (era, y, m) := (n / 4_800, n % 4_800 / 12, n % 12);
            n == 4_800 * era + 12 * y + m && 0 <= y < 400 && 0 <= m < 12
  {
  }

  lemma EpochStart()
    ensures Starts(EPOCH_MONTH) == 0
  {
    hide Starts;
    StartsOf(4, 369, 10);
  }

  /** The closed form is the calendar. */
  lemma {:induction false} StartsAreFirstDays(month: int)
    ensures Starts(month) == FirstDay(month)
    decreases if month >= EPOCH_MONTH then month - EPOCH_MONTH else EPOCH_MONTH - month
  {
    hide Length, Starts;
    EpochStart();
    if month > EPOCH_MONTH {
      StartsAreFirstDays(month - 1);
      StartsStep(month - 1);
    } else if month < EPOCH_MONTH {
      StartsAreFirstDays(month + 1);
      StartsStep(month);
    }
  }

  lemma FirstDaysGrow(a: int, b: int)
    requires a <= b
    ensures FirstDay(a) <= FirstDay(b)
    decreases b - a
  {
    hide FirstDay, Starts;
    if a < b {
      StartsAreFirstDays(a);
      StartsAreFirstDays(a + 1);
      StartsStep(a);
      FirstDaysGrow(a + 1, b);
    }
  }

  /** A day falls in a month exactly when the month has begun by then and the next one has not. */
  lemma MonthOfExactly(day: int, month: int)
    ensures MonthOf(day) == month <==> FirstDay(month) <= day < FirstDay(month + 1)
  {
    hide MonthOf, FirstDay;
    var found := MonthOf(day);
    MonthHolds(day);
    if month < found {
      FirstDaysGrow(month + 1, found);
    } else if month > found {
      FirstDaysGrow(found + 1, month);
    }
  }

  lemma MonthHolds(day: int)
    ensures FirstDay(MonthOf(day)) <= day < FirstDay(MonthOf(day) + 1)
  {
    hide MonthOf, FirstDay, Starts, YearOf;
    MonthFound(day);
    var (era, doe) := ((day + 719_468) / 146_097, (day + 719_468) % 146_097);
    var y := YearOf(doe);
    var m := (5 * (doe - YearStart(y)) + 2) / 153;
    assert MonthOf(day) == Named(era, y, m);
    StartsOf(era, y, m);
    StartsAreFirstDays(Named(era, y, m));
    StartsAreFirstDays(Named(era, y, m) + 1);
    StartsStep(Named(era, y, m));
    if m < 11 { OtherMonths(era, y, m); } else { LeapDay(era, y); YearEnds(doe); }
  }

  lemma YearEnds(doe: int)
    requires 0 <= doe < 146_097
    ensures doe < if YearOf(doe) == 399 then 146_097 else YearStart(YearOf(doe) + 1)
  {
    hide YearOf;
    YearFound(doe);
  }

  /** An instant lies in a minute of a day exactly when the minute has begun by then and not yet passed. */
  lemma PlacedExactly(at: int, day: int, minute: nat)
    requires minute < 1_440
    ensures DayOf(at) == day && MinuteOf(at) == minute
            <==> 86_400_000 * day + 60_000 * minute <= at < 86_400_000 * day + 60_000 * (minute + 1)
  {
    var ms := at % MS_A_DAY;
    assert at == MS_A_DAY * DayOf(at) + ms;
    assert 60_000 * MinuteOf(at) <= ms < 60_000 * (MinuteOf(at) + 1);
  }
}
