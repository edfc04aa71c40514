/** The proleptic Gregorian calendar, twice: day by day as a reference, and as the two closed forms (days to
    a date, a date to days since 1970-01-01) that the notary and the mock notary compute with. */
module Calendar {
  datatype Date = Date(y: int, m: int, d: int)

  predicate IsLeap(y: int) {
    (y % 4 == 0 && y % 100 != 0) || y % 400 == 0
  }

  function DaysInMonth(y: int, m: int): int {
    if m == 2 then (if IsLeap(y) then 29 else 28)
    else if m == 4 || m == 6 || m == 9 || m == 11 then 30
    else 31
  }

  predicate IsDate(t: Date) {
    1 <= t.m <= 12 && 1 <= t.d <= DaysInMonth(t.y, t.m)
  }

  // ---------- The reference ----------

  /** The day after `t`. */
  function NextDay(t: Date): (r: Date)
    requires IsDate(t)
    ensures IsDate(r)
  {
    if t.d < DaysInMonth(t.y, t.m) then Date(t.y, t.m, t.d + 1)
    else if t.m < 12 then Date(t.y, t.m + 1, 1)
    else Date(t.y + 1, 1, 1)
  }

  function PrevDay(t: Date): (r: Date)
    requires IsDate(t)
    ensures IsDate(r) && NextDay(r) == t
  {
    if 1 < t.d then Date(t.y, t.m, t.d - 1)
    else if 1 < t.m then Date(t.y, t.m - 1, DaysInMonth(t.y, t.m - 1))
    else Date(t.y - 1, 12, 31)
  }

  /** The date `n` days from 1970-01-01, counted one day at a time. */
  function DateOfDay(n: int): (t: Date)
    ensures IsDate(t)
    decreases if n < 0 then -n else n
  {
    if n == 0 then Date(1970, 1, 1)
    else if n > 0 then NextDay(DateOfDay(n - 1))
    else PrevDay(DateOfDay(n + 1))
  }

  // ---------- The closed forms ----------

  /** Days since 1970-01-01 to a date, by 400-year eras that start on 1 March. Dafny's `/` rounds down for a
      positive divisor, as the original's Euclidean division does. */
  function CivilFromDays(days: int): Date {
    var z := days + 719468;
    var era := z / 146097;
    CivilOfEra(era, z - era * 146097)
  }

  function CivilOfEra(era: int, doe: int): Date {
    var yoe := YearOfEra(doe);
    CivilOfYear(yoe + era * 400, doe - (365 * yoe + yoe / 4 - yoe / 100))
  }

  /** Year of the era, for the day `doe` of an era. */
  function YearOfEra(doe: int): int {
    (doe - doe / 1460 + doe / 36524 - doe / 146096) / 365
  }

  /** The date `doy` days after 1 March of year `y`. */
  function CivilOfYear(y: int, doy: int): Date {
    var mp := (5 * doy + 2) / 153;
    var d := doy - (153 * mp + 2) / 5 + 1;
    var m := if mp < 10 then mp + 3 else mp - 9;
    Date(y + (if m <= 2 then 1 else 0), m, d)
  }

  /** A date to days since 1970-01-01. */
  function DaysFromCivil(t: Date): int {
    var y := if t.m <= 2 then t.y - 1 else t.y;
    var era := y / 400;
    var yoe := y - era * 400;
    var mp := (t.m + 9) % 12;
    var doy := (153 * mp + 2) / 5 + t.d - 1;
    var doe := yoe * 365 + yoe / 4 - yoe / 100 + doy;
    era * 146097 + doe - 719468
  }

  /** Length of the year that starts on 1 March of `y`: it holds the 29 February of `y + 1`, if any. */
  function YearLength(y: int): int {
    if IsLeap(y + 1) then 366 else 365
  }

  /** Days from 1 March of year 0 to 1 March of year `y`, counted year by year. */
  function YearStart(y: int): int
    decreases if y < 0 then -y else y
  {
    if y == 0 then 0
    else if y > 0 then YearStart(y - 1) + YearLength(y - 1)
    else YearStart(y + 1) - YearLength(y)
  }

  lemma MulMonotone(b: int, x: int, y: int)
    requires 0 <= b && x <= y
    ensures b * x <= b * y
  {
  }

  lemma DivIs(a: int, b: int, q: int)
    requires 0 < b && b * q <= a < b * q + b
    ensures a / b == q
  {
    if a / b < q {
      MulMonotone(b, a / b + 1, q);
    } else if q < a / b {
      MulMonotone(b, q + 1, a / b);
    }
  }

  lemma DivStep(a: int, b: int)
    requires 1 < b
    ensures (a + 1) / b == a / b + (if (a + 1) % b == 0 then 1 else 0)
  {
    var q := (a + 1) / b;
    assert a + 1 == b * q + (a + 1) % b;
    if (a + 1) % b == 0 {
      MulMonotone(b, q - 1, q);
      assert b * (q - 1) == b * q - b;
      DivIs(a, b, q - 1);
    } else {
      DivIs(a, b, q);
    }
  }

  lemma YearStep(y: int)
    ensures YearStart(y + 1) == YearStart(y) + YearLength(y)
  {
  }

  function ClosedForm(y: int): int {
    365 * y + y / 4 - y / 100 + y / 400
  }

  lemma ClosedFormStep(y: int)
    ensures ClosedForm(y + 1) == ClosedForm(y) + YearLength(y)
  {
    DivStep(y, 4);
    DivStep(y, 100);
    DivStep(y, 400);
    LeapRule(y + 1);
  }

  lemma LeapRule(y: int)
    ensures y % 400 == 0 ==> y % 100 == 0
    ensures y % 100 == 0 ==> y % 4 == 0
  {
  }

  lemma {:induction false} YearStartClosed(y: int)
    ensures YearStart(y) == ClosedForm(y)
    decreases if y < 0 then -y else y
  {
    if y > 0 {
      YearStartClosed(y - 1);
      ClosedFormStep(y - 1);
    } else if y < 0 {
      YearStartClosed(y + 1);
      ClosedFormStep(y);
    }
  }

  lemma YearSplit(y: int) returns (c: int, q: int, r: int)
    requires 0 <= y < 400
    ensures y == 100 * c + 4 * q + r && 0 <= c < 4 && 0 <= q < 25 && 0 <= r < 4
    ensures YearStart(y) == 36524 * c + 1461 * q + 365 * r
    ensures YearLength(y) == if r == 3 && (q < 24 || c == 3) then 366 else 365
  {
    YearStartClosed(y);
    c, q, r := Digits(y);
  }

  lemma Digits(y: int) returns (c: int, q: int, r: int)
    requires 0 <= y < 400
    ensures y == 100 * c + 4 * q + r && 0 <= c < 4 && 0 <= q < 25 && 0 <= r < 4
    ensures ClosedForm(y) == 36524 * c + 1461 * q + 365 * r
    ensures YearLength(y) == if r == 3 && (q < 24 || c == 3) then 366 else 365
  {
    c := y / 100;
    q := (y - 100 * c) / 4;
    r := y - 100 * c - 4 * q;
    DivIs(y, 4, 25 * c + q);
    DivIs(y, 400, 0);
    DivStep(y, 4);
    DivStep(y, 100);
    DivStep(y, 400);
  }

  lemma YearFormula(doe: int, c: int, q: int, r: int, doy: int)
    requires 0 <= c < 4 && 0 <= q < 25 && 0 <= r < 4 && 0 <= doy <= 365
    requires doy == 365 ==> r == 3 && (q < 24 || c == 3)
    requires doe == 36524 * c + 1461 * q + 365 * r + doy
    ensures YearOfEra(doe) == 100 * c + 4 * q + r
  {
    var e := if 24 * c + q + 365 * r + doy < 1460 then 0 else 1;
    DivIs(doe, 1460, 25 * c + q + e);
    if doe == 146096 {
      DivIs(doe, 36524, 4);
      DivIs(doe, 146096, 1);
      DivIs(146096 - 100 + 4 - 1, 365, 399);
    } else {
      DivIs(doe, 36524, c);
      DivIs(doe, 146096, 0);
      DivIs(doe - (25 * c + q + e) + c, 365, 100 * c + 4 * q + r);
    }
  }

  lemma YearOfEraFinds(doe: int, yoe: int)
    requires 0 <= yoe < 400 && YearStart(yoe) <= doe < YearStart(yoe) + YearLength(yoe)
    ensures YearOfEra(doe) == yoe
  {
    var c, q, r := YearSplit(yoe);
    YearFormula(doe, c, q, r, doe - YearStart(yoe));
  }

  /** The shifted date: years from 1 March, months counted from March, days from 0. */
  datatype Shifted = Shifted(y: int, mp: int, d: int)

  function MonthStart(mp: int): int {
    (153 * mp + 2) / 5
  }

  function ShiftedDay(s: Shifted): int {
    YearStart(s.y) + MonthStart(s.mp) + s.d - 719468
  }

  function Shift(t: Date): Shifted {
    Shifted(if t.m <= 2 then t.y - 1 else t.y, (t.m + 9) % 12, t.d - 1)
  }

  lemma DaysFromCivilIsShiftedDay(t: Date)
    ensures DaysFromCivil(t) == ShiftedDay(Shift(t))
  {
    var era, yoe := EraOf(Shift(t).y);
  }

  lemma EraOf(y: int) returns (era: int, yoe: int)
    ensures era == y / 400 && yoe == y - era * 400 && 0 <= yoe < 400
    ensures YearStart(y) == 146097 * era + YearStart(yoe)
    ensures YearStart(yoe) == yoe * 365 + yoe / 4 - yoe / 100
    ensures YearLength(y) == YearLength(yoe)
  {
    era := y / 400;
    yoe := y - era * 400;
    EraShift(era, yoe);
    YearStartInEra(yoe);
  }

  lemma YearStartInEra(yoe: int)
    requires 0 <= yoe < 400
    ensures YearStart(yoe) == yoe * 365 + yoe / 4 - yoe / 100
  {
    YearStartClosed(yoe);
    DivIs(yoe, 400, 0);
  }

  lemma EraShift(era: int, yoe: int)
    requires 0 <= yoe < 400
    ensures ClosedForm(400 * era + yoe) == 146097 * era + yoe * 365 + yoe / 4 - yoe / 100
    ensures YearStart(400 * era + yoe) == 146097 * era + YearStart(yoe)
    ensures YearLength(400 * era + yoe) == YearLength(yoe)
  {
    var y := 400 * era + yoe;
    DivIs(y, 4, 100 * era + yoe / 4);
    DivIs(y, 100, 4 * era + yoe / 100);
    DivIs(y, 400, era);
    DivIs(yoe, 400, 0);
    YearStartClosed(y);
    YearStartClosed(yoe);
    SameRemainders(era, yoe + 1);
  }

  lemma SameRemainders(era: int, y: int)
    ensures IsLeap(400 * era + y) == IsLeap(y)
  {
    DivIs(400 * era + y, 4, 100 * era + y / 4);
    DivIs(400 * era + y, 100, 4 * era + y / 100);
    DivIs(400 * era + y, 400, era + y / 400);
  }

  lemma MonthStarts()
    ensures MonthStart(0) == 0 && MonthStart(1) == 31 && MonthStart(2) == 61 && MonthStart(3) == 92 && MonthStart(4) == 122
    ensures MonthStart(5) == 153 && MonthStart(6) == 184 && MonthStart(7) == 214 && MonthStart(8) == 245 && MonthStart(9) == 275
    ensures MonthStart(10) == 306 && MonthStart(11) == 337
  {
  }

  lemma MonthLength(y: int, m: int)
    requires 1 <= m <= 12 && m != 2
    ensures MonthStart((m + 10) % 12) == MonthStart((m + 9) % 12) + DaysInMonth(y, m)
  {
    hide IsLeap, MonthStart;
    MonthStarts();
    assert m == 1 || m == 3 || m == 4 || m == 5 || m == 6 || m == 7 || m == 8 || m == 9 || m == 10 || m == 11 || m == 12;
  }

  lemma NextDayShifted(t: Date)
    requires IsDate(t)
    ensures var s, u := Shift(t), Shift(NextDay(t));
      if t.m == 2 && t.d == DaysInMonth(t.y, 2) then u == Shifted(s.y + 1, 0, 0)
      else u.y == s.y && MonthStart(u.mp) + u.d == MonthStart(s.mp) + s.d + 1
  {
    if t.d == DaysInMonth(t.y, t.m) && t.m != 2 {
      MonthLength(t.y, t.m);
    }
  }

  /** One more day on the calendar is one more day in the count. */
  lemma NextDayCounts(t: Date)
    requires IsDate(t)
    ensures DaysFromCivil(NextDay(t)) == DaysFromCivil(t) + 1
  {
    DaysFromCivilIsShiftedDay(t);
    DaysFromCivilIsShiftedDay(NextDay(t));
    NextDayShifted(t);
    YearStep(t.y - 1);
  }

  lemma Epoch()
    ensures DaysFromCivil(Date(1970, 1, 1)) == 0
  {
  }

  /** Day count and reference calendar agree on every day, negative ones included. */
  lemma {:induction false} CountOfReference(n: int)
    ensures DaysFromCivil(DateOfDay(n)) == n
    decreases if n < 0 then -n else n
  {
    hide DaysFromCivil, NextDay, PrevDay;
    if n == 0 {
      Epoch();
    } else if n > 0 {
      CountOfReference(n - 1);
      NextDayCounts(DateOfDay(n - 1));
    } else {
      CountOfReference(n + 1);
      NextDayCounts(DateOfDay(n));
    }
  }

  lemma EraEnd(yoe: int)
    requires 0 <= yoe < 400
    ensures 0 <= YearStart(yoe) && YearStart(yoe) + YearLength(yoe) <= 146097
  {
    var c, q, r := YearSplit(yoe);
  }

  function Unshift(s: Shifted): Date {
    var m := if s.mp < 10 then s.mp + 3 else s.mp - 9;
    Date(s.y + (if m <= 2 then 1 else 0), m, s.d + 1)
  }

  lemma YearPart(s: Shifted)
    requires 0 <= s.mp < 12 && 0 <= s.d && MonthStart(s.mp) + s.d < MonthStart(s.mp + 1)
    ensures CivilOfYear(s.y, MonthStart(s.mp) + s.d) == Unshift(s)
  {
    DivIs(5 * (MonthStart(s.mp) + s.d) + 2, 153, s.mp);
  }

  lemma DayPart(era: int, doe: int)
    requires 0 <= doe < 146097
    ensures CivilFromDays(146097 * era + doe - 719468) == CivilOfEra(era, doe)
  {
    DivIs(146097 * era + doe, 146097, era);
  }

  lemma ShiftFits(t: Date)
    requires IsDate(t)
    ensures var s := Shift(t);
      && 0 <= s.mp < 12 && 0 <= s.d
      && 0 <= MonthStart(s.mp)
      && MonthStart(s.mp) + s.d < MonthStart(s.mp + 1)
      && MonthStart(s.mp) + s.d < YearLength(s.y)
  {
    if t.m != 2 { MonthLength(t.y, t.m); }
  }

  lemma EraPart(era: int, yoe: int, doy: int)
    requires YearOfEra(YearStart(yoe) + doy) == yoe && YearStart(yoe) == yoe * 365 + yoe / 4 - yoe / 100
    ensures CivilOfEra(era, YearStart(yoe) + doy) == CivilOfYear(yoe + era * 400, doy)
  {
    hide YearOfEra, YearStart, CivilOfYear;
  }

  lemma CivilOfShifted(s: Shifted)
    requires 0 <= s.mp < 12 && 0 <= s.d && MonthStart(s.mp) + s.d < MonthStart(s.mp + 1)
    requires 0 <= MonthStart(s.mp) && MonthStart(s.mp) + s.d < YearLength(s.y)
    ensures CivilFromDays(ShiftedDay(s)) == Unshift(s)
  {
    hide YearOfEra, YearStart, YearLength, CivilOfYear, CivilOfEra, CivilFromDays, MonthStart, Unshift;
    var doy := MonthStart(s.mp) + s.d;
    var era, yoe := EraOf(s.y);
    EraEnd(yoe);
    YearOfEraFinds(YearStart(yoe) + doy, yoe);
    DayPart(era, YearStart(yoe) + doy);
    EraPart(era, yoe, doy);
    YearPart(s);
  }

  lemma UnshiftInvertsShift(t: Date)
    requires IsDate(t)
    ensures Unshift(Shift(t)) == t
  {
  }

  /** Days to date inverts date to days. */
  lemma CivilInvertsCount(t: Date)
    requires IsDate(t)
    ensures CivilFromDays(DaysFromCivil(t)) == t
  {
    hide CivilFromDays, DaysFromCivil, ShiftedDay, MonthStart, YearLength;
    ShiftFits(t);
    DaysFromCivilIsShiftedDay(t);
    CivilOfShifted(Shift(t));
    UnshiftInvertsShift(t);
  }

  /** The fast form of days to date is the day-by-day calendar, for every day. */
  lemma CivilFromDaysIsReference(n: int)
    ensures CivilFromDays(n) == DateOfDay(n)
    ensures IsDate(CivilFromDays(n)) && DaysFromCivil(CivilFromDays(n)) == n
  {
    CountOfReference(n);
    CivilInvertsCount(DateOfDay(n));
  }

  /** The day after day `n` is the calendar successor of its date. */
  lemma SuccessorDay(n: int)
    ensures CivilFromDays(n) == DateOfDay(n)
    ensures CivilFromDays(n + 1) == NextDay(DateOfDay(n))
  {
    hide CivilFromDays, DaysFromCivil;
    CivilFromDaysIsReference(n);
    CivilFromDaysIsReference(n + 1);
  }
}
