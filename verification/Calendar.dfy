/** Civil dates from day counts. */
module Calendar {
  import opened Digits

  datatype Date = Date(year: int, month: int, day: int)

  // ----- the proleptic Gregorian calendar ---------------------------------

  predicate LeapYear(y: int) {
    y % 4 == 0 && (y % 100 != 0 || y % 400 == 0)
  }

  function DaysInMonth(y: int, m: int): int {
    if m == 2 then (if LeapYear(y) then 29 else 28)
    else if m == 4 || m == 6 || m == 9 || m == 11 then 30
    else 31
  }

  predicate ValidDate(d: Date) {
    1 <= d.month <= 12 && 1 <= d.day <= DaysInMonth(d.year, d.month)
  }

  function NextDate(d: Date): Date {
    if d.day < DaysInMonth(d.year, d.month) then d.(day := d.day + 1)
    else if d.month < 12 then Date(d.year, d.month + 1, 1)
    else Date(d.year + 1, 1, 1)
  }

  /** The date `n` days after 1970-01-01. */
  function DateAfter(n: nat): Date {
    if n == 0 then Date(1970, 1, 1) else NextDate(DateAfter(n - 1))
  }

  // ----- the closed form ---------------------------------------------------

  function YearOfEra(doe: nat): int {
    (doe - doe / 1460 + doe / 36524 - doe / 146096) / 365
  }

  /** Days of the era before the March-based year `yoe`. */
  function YearStart(yoe: int): int {
    365 * yoe + yoe / 4 - yoe / 100
  }

  function MonthStart(mp: int): int {
    (153 * mp + 2) / 5
  }

  function CivilFromDays(days: nat): Date {
    var z := days + 719468;
    var era := z / 146097;
    var doe := z - era * 146097;
    var yoe := YearOfEra(doe);
    var doy := doe - YearStart(yoe);
    var mp := (5 * doy + 2) / 153;
    var day := doy - MonthStart(mp) + 1;
    var month := if mp < 10 then mp + 3 else mp - 9;
    Date(yoe + era * 400 + (if month <= 2 then 1 else 0), month, day)
  }

  // ----- the March-based year ----------------------------------------------

  /** Length of the March-based year `yoe`: it ends with the February of the next civil year. */
  function YearLength(yoe: int): int {
    if LeapYear(yoe + 1) then 366 else 365
  }

  /** The date of day `doy` of the March-based year `yoe` of an era. */
  function FromMarch(era: int, yoe: int, doy: int): Date {
    var mp := (5 * doy + 2) / 153;
    var month := if mp < 10 then mp + 3 else mp - 9;
    Date(yoe + era * 400 + (if month <= 2 then 1 else 0), month, doy - MonthStart(mp) + 1)
  }

  /** A year of the era in centuries, four-year cycles and years. */
  lemma YearStartOf(c: int, q: int, a: int)
    requires 0 <= c <= 3 && 0 <= q <= 24 && 0 <= a <= 3
    ensures YearStart(100 * c + 4 * q + a) == 36524 * c + 1461 * q + 365 * a
    ensures LeapYear(100 * c + 4 * q + a + 1) <==> a == 3 && (q != 24 || c == 3)
  {
    var y := 100 * c + 4 * q + a;
    assert y / 100 == c && y / 4 == 25 * c + q;
  }

  /** The quotients in the closed form, for day `r` of year `100c + 4q + a`. */
  lemma QuotientsOf(c: int, q: int, a: int, r: int)
    requires 0 <= c <= 3 && 0 <= q <= 24 && 0 <= a <= 3
    requires 0 <= r < 365 || (r == 365 && a == 3 && (q != 24 || c == 3))
    ensures
      var doe := 36524 * c + 1461 * q + 365 * a + r;
      && 0 <= doe <= 146096
      && YearOfEra(doe) == 100 * c + 4 * q + a
  {
    var doe := 36524 * c + 1461 * q + 365 * a + r;
    var t := 24 * c + q + 365 * a + r;
    var extra := if t >= 1460 then 1 else 0;
    assert doe == 1460 * (25 * c + q) + t;
    assert doe / 1460 == 25 * c + q + extra;
    var last := if doe == 146096 then 1 else 0;
    assert doe / 146096 == last;
    assert doe / 36524 == c + last;
    assert doe - doe / 1460 + doe / 36524 - doe / 146096 == 365 * (100 * c + 4 * q + a) + (r - extra);
    assert 0 <= r - extra < 365;
  }

  /** The closed form finds the year whose days contain the given day of the era. */
  lemma YearOfEraExact(y: int, r: int)
    requires 0 <= y <= 399 && 0 <= r < YearLength(y)
    ensures 0 <= YearStart(y) + r <= 146096 && YearOfEra(YearStart(y) + r) == y
  {
    var c, q, a := y / 100, y % 100 / 4, y % 4;
    assert y == 100 * c + 4 * q + a;
    YearStartOf(c, q, a);
    QuotientsOf(c, q, a, r);
  }

  lemma YearStartStep(y: int)
    requires 0 <= y <= 399
    ensures YearStart(y) + YearLength(y) == if y < 399 then YearStart(y + 1) else 146097
  {
    var c, q, a := y / 100, y % 100 / 4, y % 4;
    assert y == 100 * c + 4 * q + a;
    YearStartOf(c, q, a);
    if a < 3 {
      YearStartOf(c, q, a + 1);
    } else if q < 24 {
      YearStartOf(c, q + 1, 0);
    } else if c < 3 {
      YearStartOf(c + 1, 0, 0);
    }
  }

  lemma AtLeastOneMore(d: int, m: int)
    requires d >= 1 && m > 0
    ensures d * m >= m
  {
    assert d * m == (d - 1) * m + m;
  }

  /** Quotient and remainder are unique. */
  lemma ModUnique(x: int, q: int, m: int, r: int)
    requires m > 0 && 0 <= r < m && x == q * m + r
    ensures x / m == q && x % m == r
  {
    var q', r' := x / m, x % m;
    assert x == q' * m + r' && 0 <= r' < m;
    assert (q - q') * m == r' - r;
    if q > q' {
      AtLeastOneMore(q - q', m);
    } else if q < q' {
      assert (q' - q) * m == r - r';
      AtLeastOneMore(q' - q, m);
    }
  }

  lemma ModShift(x: int, k: int, m: int)
    requires m > 0
    ensures (x + k * m) % m == x % m
  {
    var q, r := x / m, x % m;
    assert x + k * m == (q + k) * m + r;
    ModUnique(x + k * m, q + k, m, r);
  }

  /** Adding whole eras changes no leap year. */
  lemma EraShift(era: int, y: int)
    ensures LeapYear(y + era * 400) == LeapYear(y)
  {
    ModShift(y, era, 400);
    ModShift(y, 4 * era, 100);
    ModShift(y, 100 * era, 4);
  }

  /** `mp` is the month of day `doy` exactly when the day lies between two month starts. */
  lemma MonthOf(doy: int, mp: int)
    requires 0 <= doy <= 365 && 0 <= mp <= 11
    ensures 0 <= (5 * doy + 2) / 153 <= 11
    ensures (5 * doy + 2) / 153 == mp <==> MonthStart(mp) <= doy < MonthStart(mp + 1)
  {
  }

  function MonthNumber(mp: int): int {
    if mp < 10 then mp + 3 else mp - 9
  }

  /** The month table: consecutive starts are a month's length apart, and the
      last month, February, ends with the year. */
  lemma MonthTable(era: int, yoe: int, mp: int)
    requires 0 <= mp <= 11
    ensures
      var year := yoe + era * 400 + (if MonthNumber(mp) <= 2 then 1 else 0);
      DaysInMonth(year, MonthNumber(mp)) == (if mp == 11 then YearLength(yoe) else MonthStart(mp + 1)) - MonthStart(mp)
  {
    EraShift(era, yoe + 1);
    assert mp == 0 || mp == 1 || mp == 2 || mp == 3 || mp == 4 || mp == 5 || mp == 6 || mp == 7 || mp == 8 || mp == 9
           || mp == 10 || mp == 11;
  }

  /** Inside a March-based year, consecutive days have consecutive dates. */
  lemma {:induction false} NextInYear(era: int, yoe: int, doy: int)
    requires 0 <= yoe <= 399 && 0 <= doy < YearLength(yoe)
    ensures ValidDate(FromMarch(era, yoe, doy))
    ensures NextDate(FromMarch(era, yoe, doy)) ==
            if doy + 1 < YearLength(yoe) then FromMarch(era, yoe, doy + 1) else FromMarch(era, yoe + 1, 0)
  {
    var mp := (5 * doy + 2) / 153;
    MonthOf(doy, 0);
    MonthOf(doy, mp);
    InMonth(era, yoe, doy, mp);
    MonthTable(era, yoe, mp);
    var end := if mp == 11 then YearLength(yoe) else MonthStart(mp + 1);
    assert doy < end <= YearLength(yoe);
    if doy + 1 < end {
      InMonth(era, yoe, doy + 1, mp);
    } else if mp < 11 {
      InMonth(era, yoe, doy + 1, mp + 1);
    }
  }

  /** The date of a day known to lie in month `mp` of its March-based year. */
  lemma InMonth(era: int, yoe: int, doy: int, mp: int)
    requires 0 <= doy <= 365 && 0 <= mp <= 11 && MonthStart(mp) <= doy < MonthStart(mp + 1)
    ensures FromMarch(era, yoe, doy) ==
      Date(yoe + era * 400 + (if MonthNumber(mp) <= 2 then 1 else 0), MonthNumber(mp), doy - MonthStart(mp) + 1)
  {
    MonthOf(doy, mp);
  }

  // ----- the inverse ---------------------------------------------------------

  lemma NextRepresentation(e: int, y: int, d: int) returns (era: int, yoe: int, doy: int)
    requires 0 <= y <= 399 && 0 <= d < YearLength(y) && e >= 0
    ensures 0 <= yoe <= 399 && 0 <= doy < YearLength(yoe) && era >= 0
    ensures 146097 * era + YearStart(yoe) + doy == 146097 * e + YearStart(y) + d + 1
    ensures FromMarch(era, yoe, doy) == NextDate(FromMarch(e, y, d))
  {
    NextInYear(e, y, d);
    YearStartStep(y);
    if d + 1 < YearLength(y) {
      era, yoe, doy := e, y, d + 1;
    } else if y < 399 {
      era, yoe, doy := e, y + 1, 0;
    } else {
      era, yoe, doy := e + 1, 0, 0;
      assert FromMarch(e, 400, 0) == FromMarch(e + 1, 0, 0);
    }
  }

  /** Every day count is some day of some March-based year, and that day is its date. */
  lemma {:induction false} Represent(n: nat) returns (era: int, yoe: int, doy: int)
    ensures 0 <= yoe <= 399 && 0 <= doy < YearLength(yoe) && era >= 0
    ensures n + 719468 == 146097 * era + YearStart(yoe) + doy
    ensures DateAfter(n) == FromMarch(era, yoe, doy)
  {
    if n == 0 {
      era, yoe, doy := 4, 369, 306;
    } else {
      var e, y, d := Represent(n - 1);
      era, yoe, doy := NextRepresentation(e, y, d);
    }
  }

  lemma CivilFromEra(n: nat, era: int, doe: nat, yoe: int, doy: int)
    requires n + 719468 == 146097 * era + doe && doe < 146097 && YearOfEra(doe) == yoe && doe - YearStart(yoe) == doy
    ensures CivilFromDays(n) == FromMarch(era, yoe, doy)
  {
    ModUnique(n + 719468, era, 146097, doe);
  }

  lemma {:induction false} CivilOf(n: nat, era: int, yoe: int, doy: int)
    requires 0 <= yoe <= 399 && 0 <= doy < YearLength(yoe) && n + 719468 == 146097 * era + YearStart(yoe) + doy
    ensures CivilFromDays(n) == FromMarch(era, yoe, doy)
  {
    YearOfEraExact(yoe, doy);
    CivilFromEra(n, era, YearStart(yoe) + doy, yoe, doy);
  }

  /** The closed form is the calendar: day zero is 1970-01-01 and each further
      day is the next date. */
  lemma CivilIsCalendar(n: nat)
    ensures CivilFromDays(n) == DateAfter(n) && ValidDate(CivilFromDays(n))
  {
    var era, yoe, doy := Represent(n);
    CivilOf(n, era, yoe, doy);
    NextInYear(era, yoe, doy);
  }

  // ----- day counts ----------------------------------------------------------

  function YearDays(y: int): int {
    if LeapYear(y) then 366 else 365
  }

  function DaysBeforeYear(y: int): int
    requires y >= 1970
  {
    if y == 1970 then 0 else DaysBeforeYear(y - 1) + YearDays(y - 1)
  }

  function DaysBeforeMonth(y: int, m: int): int
    requires 1 <= m <= 13
  {
    if m == 1 then 0 else DaysBeforeMonth(y, m - 1) + DaysInMonth(y, m - 1)
  }

  /** Days from 1970-01-01 to `d`, summed year by year and month by month. */
  function DayNumber(d: Date): int
    requires d.year >= 1970 && ValidDate(d)
  {
    DaysBeforeYear(d.year) + DaysBeforeMonth(d.year, d.month) + d.day - 1
  }

  lemma TwelveMonths(y: int)
    ensures DaysBeforeMonth(y, 13) == YearDays(y)
  {
    var leap := if LeapYear(y) then 1 else 0;
    assert DaysBeforeMonth(y, 2) == 31;
    assert DaysBeforeMonth(y, 3) == 59 + leap;
    assert DaysBeforeMonth(y, 5) == 120 + leap;
    assert DaysBeforeMonth(y, 7) == 181 + leap;
    assert DaysBeforeMonth(y, 9) == 243 + leap;
    assert DaysBeforeMonth(y, 11) == 304 + leap;
  }

  lemma {:induction false} MonthsIncrease(y: int, m: int, n: int)
    requires 1 <= m < n <= 13
    ensures DaysBeforeMonth(y, m) + DaysInMonth(y, m) <= DaysBeforeMonth(y, n)
  {
    if m + 1 < n {
      MonthsIncrease(y, m, n - 1);
    }
  }

  lemma {:induction false} YearsIncrease(y: int, z: int)
    requires 1970 <= y < z
    ensures DaysBeforeYear(y) + YearDays(y) <= DaysBeforeYear(z)
  {
    if y + 1 < z {
      YearsIncrease(y, z - 1);
    }
  }

  /** Different dates have different day numbers. */
  lemma DayNumberInjective(d: Date, e: Date)
    requires d.year >= 1970 && e.year >= 1970 && ValidDate(d) && ValidDate(e) && DayNumber(d) == DayNumber(e)
    ensures d == e
  {
    DayWithinYear(d);
    DayWithinYear(e);
    if d.year < e.year {
      YearsIncrease(d.year, e.year);
    } else if e.year < d.year {
      YearsIncrease(e.year, d.year);
    } else if d.month < e.month {
      MonthsIncrease(d.year, d.month, e.month);
    } else if e.month < d.month {
      MonthsIncrease(d.year, e.month, d.month);
    }
  }

  lemma DayWithinYear(d: Date)
    requires d.year >= 1970 && ValidDate(d)
    ensures DaysBeforeYear(d.year) <= DayNumber(d) < DaysBeforeYear(d.year) + YearDays(d.year)
  {
    TwelveMonths(d.year);
    MonthsIncrease(d.year, d.month, 13);
    if d.month > 1 {
      MonthsIncrease(d.year, 1, d.month);
    }
  }

  lemma NextDateCounts(d: Date)
    requires d.year >= 1970 && ValidDate(d)
    ensures ValidDate(NextDate(d)) && NextDate(d).year >= 1970 && DayNumber(NextDate(d)) == DayNumber(d) + 1
  {
    TwelveMonths(d.year);
    if d.day == DaysInMonth(d.year, d.month) {
      assert DaysBeforeMonth(d.year, d.month + 1) == DaysBeforeMonth(d.year, d.month) + DaysInMonth(d.year, d.month);
    }
  }

  lemma {:induction false} DateAfterCounts(n: nat)
    ensures ValidDate(DateAfter(n)) && DateAfter(n).year >= 1970 && DayNumber(DateAfter(n)) == n
  {
    if n > 0 {
      DateAfterCounts(n - 1);
      NextDateCounts(DateAfter(n - 1));
    }
  }

  /** `CivilFromDays` and the day count are inverse to each other on all days
      since 1970. */
  lemma CivilInverse(n: nat, d: Date)
    requires d.year >= 1970 && ValidDate(d)
    ensures CivilFromDays(n).year >= 1970 && ValidDate(CivilFromDays(n)) && DayNumber(CivilFromDays(n)) == n
    ensures DayNumber(d) >= 0 && CivilFromDays(DayNumber(d)) == d
  {
    CivilIsCalendar(n);
    DateAfterCounts(n);
    DayWithinYear(d);
    if d.year > 1970 {
      YearsIncrease(1970, d.year);
    }
    CivilIsCalendar(DayNumber(d));
    DateAfterCounts(DayNumber(d));
    DayNumberInjective(DateAfter(DayNumber(d)), d);
  }

  // ----- the printed stamp -----------------------------------------------------

  function LeapsUpTo(x: int): int {
    x / 4 - x / 100 + x / 400
  }

  lemma NextQuotients(x: int)
    ensures x / 4 == (x - 1) / 4 + if x % 4 == 0 then 1 else 0
    ensures x / 100 == (x - 1) / 100 + if x % 100 == 0 then 1 else 0
    ensures x / 400 == (x - 1) / 400 + if x % 400 == 0 then 1 else 0
  {
  }

  lemma MultiplesNest(x: int)
    ensures x % 400 == 0 ==> x % 100 == 0
    ensures x % 100 == 0 ==> x % 4 == 0
  {
    if x % 400 == 0 {
      ModUnique(x, 4 * (x / 400), 100, 0);
    }
    if x % 100 == 0 {
      ModUnique(x, 25 * (x / 100), 4, 0);
    }
  }

  lemma LeapsCount(x: int)
    ensures LeapsUpTo(x) == LeapsUpTo(x - 1) + if LeapYear(x) then 1 else 0
  {
    NextQuotients(x);
    MultiplesNest(x);
  }

  lemma {:induction false} DaysBeforeYearClosed(y: int)
    requires y >= 1970
    ensures DaysBeforeYear(y) == 365 * (y - 1970) + LeapsUpTo(y - 1) - 477
  {
    if y > 1970 {
      DaysBeforeYearClosed(y - 1);
      LeapsCount(y - 1);
    }
  }

  /** A year is reached exactly when that many days have passed. */
  lemma YearReached(n: nat, y: int)
    requires y >= 1970
    ensures DateAfter(n).year < y <==> n < DaysBeforeYear(y)
  {
    DateAfterCounts(n);
    var d := DateAfter(n);
    DayWithinYear(d);
    if d.year < y {
      YearsIncrease(d.year, y);
    } else if y < d.year {
      YearsIncrease(y, d.year);
    }
  }

  /** At least `width` digits, padded with zeros on the left. */
  function Padded(n: nat, width: nat): (s: string)
    ensures AllDigits(s) && NatOf(s) == n && |s| >= width
  {
    Pad(Decimal(n), width)
  }

  function Pad(s: string, width: nat): (r: string)
    requires AllDigits(s)
    ensures AllDigits(r) && NatOf(r) == NatOf(s) && |r| == if |s| < width then width else |s|
    decreases width - |s|
  {
    if |s| >= width then s
    else
      assert AllDigits("0") && NatOf("0") == 0 by {
        assert "0"[..0] == "";
      }
      NatOfAppend("0", s);
      Pad("0" + s, width)
  }

  predicate StampFields(d: Date, rest: int) {
    d.year >= 1970 && ValidDate(d) && 0 <= rest < 86400
  }

  function Stamp(y: string, mo: string, d: string, h: string, mi: string, sec: string): string {
    y + "-" + mo + "-" + d + "T" + h + ":" + mi + ":" + sec + "Z"
  }

  function FormatStamp(d: Date, rest: int): string
    requires StampFields(d, rest)
  {
    Stamp(Padded(d.year, 4), Padded(d.month, 2), Padded(d.day, 2),
          Padded(rest / 3600, 2), Padded(rest % 3600 / 60, 2), Padded(rest % 60, 2))
  }

  lemma CivilFields(days: nat)
    ensures ValidDate(CivilFromDays(days)) && CivilFromDays(days).year >= 1970
  {
    CivilIsCalendar(days);
    DateAfterCounts(days);
  }

  function FormatUnixMs(unixMs: nat): string {
    var seconds := unixMs / 1000;
    CivilFields(seconds / 86400);
    FormatStamp(CivilFromDays(seconds / 86400), seconds % 86400)
  }

  lemma PaddedTwo(n: nat)
    requires n < 100
    ensures |Padded(n, 2)| == 2
  {
    DecimalLength(n, 2);
    assert Pow10(2) == 100;
  }

  /** Reads the digits at the fixed places of a 20-character stamp. */
  function ReadStamp(s: string): int
    requires |s| == 20 && AllDigits(s[0..4]) && AllDigits(s[5..7]) && AllDigits(s[8..10])
    requires AllDigits(s[11..13]) && AllDigits(s[14..16]) && AllDigits(s[17..19])
  {
    var d := Date(NatOf(s[0..4]), NatOf(s[5..7]), NatOf(s[8..10]));
    var time := NatOf(s[11..13]) * 3600 + NatOf(s[14..16]) * 60 + NatOf(s[17..19]);
    if d.year >= 1970 && ValidDate(d) then DayNumber(d) * 86400 + time else 0
  }

  ghost predicate StampShape(s: string) {
    && |s| == 20 && s[4] == s[7] == '-' && s[10] == 'T' && s[13] == s[16] == ':' && s[19] == 'Z'
    && AllDigits(s[0..4]) && AllDigits(s[5..7]) && AllDigits(s[8..10])
    && AllDigits(s[11..13]) && AllDigits(s[14..16]) && AllDigits(s[17..19])
  }

  lemma StampSlices(y: string, mo: string, d: string, h: string, mi: string, sec: string)
    requires |y| == 4 && |mo| == |d| == |h| == |mi| == |sec| == 2
    ensures
      var s := Stamp(y, mo, d, h, mi, sec);
      && |s| == 20 && s[4] == s[7] == '-' && s[10] == 'T' && s[13] == s[16] == ':' && s[19] == 'Z'
      && s[0..4] == y && s[5..7] == mo && s[8..10] == d && s[11..13] == h && s[14..16] == mi && s[17..19] == sec
  {
  }

  lemma FieldWidths(d: Date, rest: int)
    requires StampFields(d, rest)
    ensures |Padded(d.year, 4)| == 4 <==> d.year < 10000
    ensures |Padded(d.month, 2)| == |Padded(d.day, 2)| == 2
    ensures |Padded(rest / 3600, 2)| == |Padded(rest % 3600 / 60, 2)| == |Padded(rest % 60, 2)| == 2
  {
    DecimalLength(d.year, 4);
    assert Pow10(2) == 100;
    assert Pow10(4) == 10000;
    PaddedTwo(d.month);
    PaddedTwo(d.day);
    PaddedTwo(rest / 3600);
    PaddedTwo(rest % 3600 / 60);
    PaddedTwo(rest % 60);
  }

  lemma TimeOfDay(rest: nat)
    ensures rest / 3600 * 3600 + rest % 3600 / 60 * 60 + rest % 60 == rest
  {
    assert rest % 3600 % 60 == rest % 60;
  }

  lemma StampText(d: Date, rest: int)
    requires StampFields(d, rest)
    ensures |FormatStamp(d, rest)| == 20 <==> d.year < 10000
    ensures d.year < 10000 ==> StampShape(FormatStamp(d, rest)) && ReadStamp(FormatStamp(d, rest)) == DayNumber(d) * 86400 + rest
  {
    FieldWidths(d, rest);
    if d.year < 10000 {
      StampSlices(Padded(d.year, 4), Padded(d.month, 2), Padded(d.day, 2),
                  Padded(rest / 3600, 2), Padded(rest % 3600 / 60, 2), Padded(rest % 60, 2));
      TimeOfDay(rest);
    }
  }

  lemma SecondsOf(unixMs: nat)
    ensures unixMs / 1000 / 86400 < 2932897 <==> unixMs < 253402300800000
    ensures unixMs / 1000 / 86400 * 86400 + unixMs / 1000 % 86400 == unixMs / 1000
  {
  }

  lemma YearTenThousand()
    ensures DaysBeforeYear(10000) == 2932897
  {
    DaysBeforeYearClosed(10000);
  }

  lemma CivilFacts(days: nat) returns (d: Date)
    ensures d == CivilFromDays(days) && d.year >= 1970 && ValidDate(d) && DayNumber(d) == days
    ensures d.year < 10000 <==> days < 2932897
  {
    d := DateAfter(days);
    CivilIsCalendar(days);
    DateAfterCounts(days);
    YearReached(days, 10000);
    YearTenThousand();
  }

  lemma StampMeaning(d: Date, unixMs: nat)
    requires d.year >= 1970 && ValidDate(d) && DayNumber(d) == unixMs / 1000 / 86400
    requires d.year < 10000 <==> unixMs / 1000 / 86400 < 2932897
    ensures
      var s := FormatStamp(d, unixMs / 1000 % 86400);
      && (|s| == 20 <==> unixMs < 253402300800000)
      && (unixMs < 253402300800000 ==> StampShape(s) && ReadStamp(s) == unixMs / 1000)
  {
    SecondsOf(unixMs);
    StampText(d, unixMs / 1000 % 86400);
  }

  /** The stamp has the fixed RFC 3339 shape exactly until the end of the year
      9999, and then reads back as the whole second it was made from. */
  lemma StampRoundTrip(unixMs: nat)
    ensures |FormatUnixMs(unixMs)| == 20 <==> unixMs < 253402300800000
    ensures unixMs < 253402300800000 ==>
      StampShape(FormatUnixMs(unixMs)) && ReadStamp(FormatUnixMs(unixMs)) == unixMs / 1000
  {
    var d := CivilFacts(unixMs / 1000 / 86400);
    StampMeaning(d, unixMs);
  }
}
