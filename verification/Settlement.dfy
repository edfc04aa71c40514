/** The settlement date rule (phi_S), decided by two separate pieces of code: the policy verifier
    turns the engagement time into Y * 10000 + M * 100 + D, and the mock notary turns the record
    date into a day number. */
module Settlement {
  import opened Wrappers
  import opened Text
  import opened Calendar

  const SECS_PER_DAY := 86400
  const I64_MIN := -0x8000_0000_0000_0000
  const I64_MAX := 0x7fff_ffff_ffff_ffff

  newtype U64 = x: int | 0 <= x < 0x1_0000_0000_0000_0000
  newtype I64 = x: int | -0x8000_0000_0000_0000 <= x < 0x8000_0000_0000_0000

  datatype DateError =
    | YearOutOfRange
    | NotYmd
    | NotACalendarDate
    | ExpiryPrecedesLock
    | EngagementTimeOutOfRange
    | RecordDatePrecedesEngagement

  function YmdValue(t: Date): int {
    t.y * 10000 + t.m * 100 + t.d
  }

  /** `ymd_of_days`. */
  function YmdOfDays(days: int): Result<nat, DateError> {
    var t := CivilFromDays(days);
    if 0 <= t.y <= 9999 then
      CivilFromDaysIsReference(days);
      Ok(YmdValue(t))
    else
      Err(YearOutOfRange)
  }

  /** `engagement_day`: the local calendar day of `expiresAt - tauLock`. */
  function EngagementDay(expiresAt: U64, tauLock: U64, utcOffset: I64): Result<nat, DateError> {
    if expiresAt < tauLock then Err(ExpiryPrecedesLock)
    else
      var engaged := expiresAt as int - tauLock as int;
      var local := engaged + utcOffset as int;
      if I64_MAX < engaged || !(I64_MIN <= local <= I64_MAX) then Err(EngagementTimeOutOfRange)
      else YmdOfDays(local / SECS_PER_DAY)
  }

  /** `day_number`: a `YYYY-MM-DD` string to days since 1970-01-01. */
  function DayNumber(date: string): Result<int, DateError> {
    var parts := Split(date, "-");
    if |parts| != 3 then Err(NotYmd)
    else
      var y, m, d := parts[0], parts[1], parts[2];
      if !(|y| == 4 && |m| == 2 && |d| == 2 && AllDigits(y) && AllDigits(m) && AllDigits(d)) then Err(NotYmd)
      else
        var t := Date(Value(y), Value(m), Value(d));
        if IsDate(t) then Ok(DaysFromCivil(t)) else Err(NotACalendarDate)
  }

  /** `{:04}-{:02}-{:02}` of a Y * 10000 + M * 100 + D value. */
  function PrintYmd(ymd: nat): string {
    ZeroPad(Decimal(ymd / 10000), 4) + "-" + ZeroPad(Decimal(ymd / 100 % 100), 2) + "-" + ZeroPad(Decimal(ymd % 100), 2)
  }

  /** The record date as phi_S reads it: Y * 10000 + M * 100 + D of the three numerals. */
  function RecordDateValue(date: string): nat
    requires DayNumber(date).Ok?
  {
    var parts := Split(date, "-");
    Value(parts[0]) * 10000 + Value(parts[1]) * 100 + Value(parts[2])
  }

  function PrintDate(t: Date): string
    requires IsDate(t) && 0 <= t.y
  {
    ZeroPad(Decimal(t.y), 4) + "-" + ZeroPad(Decimal(t.m), 2) + "-" + ZeroPad(Decimal(t.d), 2)
  }

  lemma YmdDigits(t: Date)
    requires IsDate(t) && 0 <= t.y
    ensures YmdValue(t) / 10000 == t.y && YmdValue(t) / 100 % 100 == t.m && YmdValue(t) % 100 == t.d
    ensures PrintYmd(YmdValue(t)) == PrintDate(t)
  {
    DivIs(YmdValue(t), 10000, t.y);
    DivIs(YmdValue(t), 100, t.y * 100 + t.m);
  }

  lemma Field(n: nat, w: nat) returns (s: string)
    requires 0 < w && n < Pow10(w)
    ensures s == ZeroPad(Decimal(n), w)
    ensures |s| == w && AllDigits(s) && Value(s) == n && '-' !in s
  {
    s := ZeroPad(Decimal(n), w);
    DecimalFits(n, w);
    ZeroPadKeeps(Decimal(n), w);
  }

  /** A date that prints and parses comes back. */
  lemma ParsePrinted(t: Date)
    requires IsDate(t) && 0 <= t.y <= 9999
    ensures DayNumber(PrintDate(t)) == Ok(DaysFromCivil(t))
  {
    hide DaysFromCivil, ZeroPad, Decimal, Value, Split;
    assert Pow10(4) == 10000 && Pow10(2) == 100;
    var y := Field(t.y, 4);
    var m := Field(t.m, 2);
    var d := Field(t.d, 2);
    SplitThree(y, m, d, '-');
  }

  lemma Parsed(s: string) returns (t: Date)
    requires DayNumber(s).Ok?
    ensures IsDate(t) && 0 <= t.y <= 9999
    ensures DayNumber(s) == Ok(DaysFromCivil(t)) && RecordDateValue(s) == YmdValue(t) && s == PrintDate(t)
  {
    hide DaysFromCivil, ZeroPad, Decimal, Value, Split, Join;
    var parts := Split(s, "-");
    var y, m, d := parts[0], parts[1], parts[2];
    t := Date(Value(y), Value(m), Value(d));
    SplitPieces(s, '-');
    JoinThree(parts, '-');
    assert Pow10(4) == 10000 && Pow10(2) == 100;
    ValueBelow(y);
    var y' := Field(t.y, 4);
    var m' := Field(t.m, 2);
    var d' := Field(t.d, 2);
    ValueInjective(y, y');
    ValueInjective(m, m');
    ValueInjective(d, d');
  }

  /** Four digits, two and two, with hyphens between. */
  predicate IsYmd(s: string) {
    && |s| == 10 && s[4] == '-' && s[7] == '-'
    && forall i | 0 <= i < 10 && i != 4 && i != 7 :: '0' <= s[i] <= '9'
  }

  lemma YmdParts(s: string)
    requires IsYmd(s)
    ensures AllDigits(s[..4]) && AllDigits(s[5..7]) && AllDigits(s[8..])
    ensures '-' !in s[..4] && '-' !in s[5..7] && '-' !in s[8..]
    ensures s == s[..4] + "-" + s[5..7] + "-" + s[8..]
  {
  }

  lemma YmdJoined(y: string, m: string, d: string)
    requires |y| == 4 && |m| == 2 && |d| == 2 && AllDigits(y) && AllDigits(m) && AllDigits(d)
    ensures IsYmd(y + "-" + (m + "-" + d))
  {
    var s := y + "-" + (m + "-" + d);
    forall i | 0 <= i < 10 && i != 4 && i != 7
      ensures '0' <= s[i] <= '9'
    {
      var c := if i < 4 then y[i] else if i < 7 then m[i - 5] else d[i - 8];
      assert s[i] == c && (c in y || c in m || c in d);
    }
  }

  lemma AnswersYmd(s: string)
    requires DayNumber(s) != Err(NotYmd)
    ensures IsYmd(s)
  {
    hide DaysFromCivil, Value, Split, Join, AllDigits, IsYmd, IsDate;
    var parts := Split(s, "-");
    SplitPieces(s, '-');
    JoinThree(parts, '-');
    YmdJoined(parts[0], parts[1], parts[2]);
  }

  /** What each string is read as: its digits if it has the shape of a date and is one, and which error
      otherwise. */
  lemma DayNumberIff(s: string)
    ensures DayNumber(s) == Err(NotYmd) <==> !IsYmd(s)
    ensures IsYmd(s) ==>
      && AllDigits(s[..4]) && AllDigits(s[5..7]) && AllDigits(s[8..])
      && var t := Date(Value(s[..4]), Value(s[5..7]), Value(s[8..]));
      DayNumber(s) == if IsDate(t) then Ok(DaysFromCivil(t)) else Err(NotACalendarDate)
  {
    hide DaysFromCivil, Value, Split, AllDigits, IsYmd, IsDate;
    if DayNumber(s) != Err(NotYmd) {
      AnswersYmd(s);
    }
    if IsYmd(s) {
      YmdParts(s);
      YmdLengths(s);
      SplitThree(s[..4], s[5..7], s[8..], '-');
    }
  }

  lemma YmdLengths(s: string)
    requires IsYmd(s)
    ensures |s| == 10
  {
  }

  /** Printing the date of a day and parsing it back gives the day. */
  lemma PrintThenParse(n: int)
    requires YmdOfDays(n).Ok?
    ensures DayNumber(PrintYmd(YmdOfDays(n).value)) == Ok(n)
  {
    CivilFromDaysIsReference(n);
    YmdDigits(CivilFromDays(n));
    ParsePrinted(CivilFromDays(n));
  }

  /** Every accepted date string is the printed form of the day it denotes. */
  lemma ParseThenPrint(s: string)
    requires DayNumber(s).Ok?
    ensures var n := DayNumber(s).value;
      YmdOfDays(n) == Ok(RecordDateValue(s)) && PrintYmd(RecordDateValue(s)) == s
  {
    var t := Parsed(s);
    CivilInvertsCount(t);
    YmdDigits(t);
  }

  lemma SuccessorYmd(n: int)
    ensures YmdValue(CivilFromDays(n)) < YmdValue(CivilFromDays(n + 1))
  {
    hide CivilFromDays, DaysFromCivil;
    SuccessorDay(n);
  }

  /** Later days have larger Y * 10000 + M * 100 + D values. */
  lemma {:induction false} YmdIncreases(a: int, b: int)
    requires a < b
    ensures YmdValue(CivilFromDays(a)) < YmdValue(CivilFromDays(b))
    decreases b - a
  {
    hide CivilFromDays;
    SuccessorYmd(b - 1);
    if a + 1 < b {
      YmdIncreases(a, b - 1);
    }
  }

  const FIRST_DAY := -719528
  const LAST_DAY := 2932896

  lemma FirstDay()
    ensures DaysFromCivil(Date(0, 1, 1)) == -719528
  {
  }

  lemma LastDay()
    ensures DaysFromCivil(Date(9999, 12, 31)) == 2932896
  {
  }

  lemma Bounds()
    ensures CivilFromDays(FIRST_DAY) == Date(0, 1, 1) && CivilFromDays(LAST_DAY) == Date(9999, 12, 31)
    ensures DaysFromCivil(Date(0, 1, 1)) == FIRST_DAY && DaysFromCivil(Date(9999, 12, 31)) == LAST_DAY
  {
    hide CivilFromDays, DaysFromCivil;
    FirstDay();
    LastDay();
    CivilInvertsCount(Date(0, 1, 1));
    CivilInvertsCount(Date(9999, 12, 31));
  }

  /** `ymd_of_days` answers exactly on 0000-01-01 to 9999-12-31. */
  lemma YmdOfDaysDefined(n: int)
    ensures YmdOfDays(n).Ok? <==> FIRST_DAY <= n <= LAST_DAY
    ensures YmdOfDays(n).Ok? ==> YmdOfDays(n).value <= 99991231 < 0x800_0000
  {
    hide CivilFromDays, DaysFromCivil;
    Bounds();
    CivilFromDaysIsReference(n);
    if n < FIRST_DAY { YmdIncreases(n, FIRST_DAY); }
    if FIRST_DAY < n { YmdIncreases(FIRST_DAY, n); }
    if n < LAST_DAY { YmdIncreases(n, LAST_DAY); }
    if LAST_DAY < n { YmdIncreases(LAST_DAY, n); }
  }

  /** Two's complement: the signed 64-bit value congruent to `x`. */
  function WrapI64(x: int): (w: int)
    ensures I64_MIN <= w <= I64_MAX && (w - x) % 0x1_0000_0000_0000_0000 == 0
    ensures I64_MIN <= x <= I64_MAX ==> w == x
  {
    var m := x % 0x1_0000_0000_0000_0000;
    if m <= I64_MAX then m else m - 0x1_0000_0000_0000_0000
  }

  /** The local time the mock notary computes: the time since the lock is reinterpreted as signed, and the
      offset is added with wrap-around, as in the repository's release build. */
  function MockLocalTime(expiresAt: U64, tauLock: U64, utcOffset: I64): int
    requires tauLock <= expiresAt
  {
    WrapI64(WrapI64(expiresAt as int - tauLock as int) + utcOffset as int)
  }

  /** The mock notary's engagement day, as a day number. */
  function MockEngagementDay(expiresAt: U64, tauLock: U64, utcOffset: I64): Result<int, DateError> {
    if expiresAt < tauLock then Err(ExpiryPrecedesLock)
    else Ok(MockLocalTime(expiresAt, tauLock, utcOffset) / SECS_PER_DAY)
  }

  // ---------- The rule in days, hours, minutes and seconds ----------

  /** `local` is that many seconds after 1970-01-01 00:00:00, on day `day` at `h`:`mi`:`s`. */
  predicate IsTimeOfDay(local: int, day: int, h: int, mi: int, s: int) {
    && 0 <= h < 24 && 0 <= mi < 60 && 0 <= s < 60
    && local == ((day * 24 + h) * 60 + mi) * 60 + s
  }

  lemma DayOfTime(local: int, day: int, h: int, mi: int, s: int)
    requires IsTimeOfDay(local, day, h, mi, s)
    ensures local / SECS_PER_DAY == day
  {
    DivIs(local, SECS_PER_DAY, day);
  }

  lemma DateIsConvertible(t: Date)
    requires IsDate(t) && 0 <= t.y <= 9999
    ensures YmdOfDays(DaysFromCivil(t)) == Ok(YmdValue(t)) && FIRST_DAY <= DaysFromCivil(t) <= LAST_DAY
  {
    hide CivilFromDays, DaysFromCivil;
    CivilInvertsCount(t);
    YmdOfDaysDefined(DaysFromCivil(t));
  }

  /** The engagement day is the calendar date of the local engagement time, for both pieces of code. */
  lemma EngagementDate(expiresAt: U64, tauLock: U64, utcOffset: I64, t: Date, h: int, mi: int, s: int)
    requires IsDate(t) && 0 <= t.y <= 9999 && 0 <= h < 24 && 0 <= mi < 60 && 0 <= s < 60
    requires 0 <= expiresAt as int - tauLock as int < 0x8000_0000_0000_0000
    requires expiresAt as int - tauLock as int + utcOffset as int == ((DaysFromCivil(t) * 24 + h) * 60 + mi) * 60 + s
    ensures EngagementDay(expiresAt, tauLock, utcOffset) == Ok(t.y * 10000 + t.m * 100 + t.d)
    ensures MockEngagementDay(expiresAt, tauLock, utcOffset) == Ok(DaysFromCivil(t))
  {
    hide DaysFromCivil, YmdOfDays, IsDate;
    DateIsConvertible(t);
    DayOfTime(expiresAt as int - tauLock as int + utcOffset as int, DaysFromCivil(t), h, mi, s);
  }

  /** Every engagement day is that of some local date and time of day. */
  lemma EngagementHasDate(expiresAt: U64, tauLock: U64, utcOffset: I64) returns (t: Date, h: int, mi: int, s: int)
    requires EngagementDay(expiresAt, tauLock, utcOffset).Ok?
    ensures IsDate(t) && 0 <= t.y <= 9999
    ensures IsTimeOfDay(expiresAt as int - tauLock as int + utcOffset as int, DaysFromCivil(t), h, mi, s)
    ensures EngagementDay(expiresAt, tauLock, utcOffset) == Ok(t.y * 10000 + t.m * 100 + t.d)
  {
    hide CivilFromDays, DaysFromCivil, IsDate;
    var local := expiresAt as int - tauLock as int + utcOffset as int;
    CivilFromDaysIsReference(local / SECS_PER_DAY);
    t := CivilFromDays(local / SECS_PER_DAY);
    h, mi, s := TimeOfDay(local, local / SECS_PER_DAY);
  }

  lemma TimeOfDay(local: int, day: int) returns (h: int, mi: int, s: int)
    requires 0 <= local - day * 86400 < 86400
    ensures IsTimeOfDay(local, day, h, mi, s)
  {
    var rest := local - day * 86400;
    h := rest / 3600;
    mi := (rest - h * 3600) / 60;
    s := rest - h * 3600 - mi * 60;
  }

  /** The mock notary's day is that of the wrapped local time, whatever its year. */
  lemma MockEngagementDate(expiresAt: U64, tauLock: U64, utcOffset: I64, day: int, h: int, mi: int, s: int)
    requires tauLock <= expiresAt && IsTimeOfDay(MockLocalTime(expiresAt, tauLock, utcOffset), day, h, mi, s)
    ensures MockEngagementDay(expiresAt, tauLock, utcOffset) == Ok(day)
  {
    hide MockLocalTime;
    DayOfTime(MockLocalTime(expiresAt, tauLock, utcOffset), day, h, mi, s);
  }

  /** The engagement time of the repository's own sample, 2026-09-24 in local time. */
  lemma SampleEngagement()
    ensures EngagementDay(1791495000, 1209600, 0) == Ok(20260924)
  {
    EngagementDate(1791495000, 1209600, 0, Date(2026, 9, 24), 21, 30, 0);
  }

  /** The mock notary's date check of `sign_settle`. */
  function MockDateRule(date: string, expiresAt: U64, tauLock: U64, utcOffset: I64): Result<(), DateError> {
    var day :- MockEngagementDay(expiresAt, tauLock, utcOffset);
    var recorded :- DayNumber(date);
    if recorded >= day then Ok(()) else Err(RecordDatePrecedesEngagement)
  }

  /** The policy verifier's date check: its engagement day is a public input, which phi_S compares with
      the record date. */
  function VerifierDateRule(date: string, expiresAt: U64, tauLock: U64, utcOffset: I64): Result<(), DateError>
    requires DayNumber(date).Ok?
  {
    var day :- EngagementDay(expiresAt, tauLock, utcOffset);
    if RecordDateValue(date) >= day then Ok(()) else Err(RecordDatePrecedesEngagement)
  }

  lemma OrderOfDays(date: string, day: int)
    requires DayNumber(date).Ok? && YmdOfDays(day).Ok?
    ensures DayNumber(date).value >= day <==> RecordDateValue(date) >= YmdOfDays(day).value
  {
    hide CivilFromDays, DaysFromCivil, DayNumber, RecordDateValue;
    var n := DayNumber(date).value;
    ParseThenPrint(date);
    if n < day {
      YmdIncreases(n, day);
    } else if day < n {
      YmdIncreases(day, n);
    }
  }

  /** Whenever the engagement day exists, the two rules return the same answer for every record date. */
  lemma RulesAgree(date: string, expiresAt: U64, tauLock: U64, utcOffset: I64)
    requires DayNumber(date).Ok? && EngagementDay(expiresAt, tauLock, utcOffset).Ok?
    ensures MockDateRule(date, expiresAt, tauLock, utcOffset) == VerifierDateRule(date, expiresAt, tauLock, utcOffset)
  {
    OrderOfDays(date, (expiresAt as int - tauLock as int + utcOffset as int) / SECS_PER_DAY);
  }

  predicate Before(a: Date, b: Date) {
    a.y < b.y || (a.y == b.y && (a.m < b.m || (a.m == b.m && a.d < b.d)))
  }

  lemma YmdOrder(a: Date, b: Date)
    requires IsDate(a) && IsDate(b)
    ensures YmdValue(a) < YmdValue(b) <==> Before(a, b)
  {
  }

  /** A record date passes either rule exactly if it is not before the local date of the engagement. */
  lemma SettlesFromEngagement(date: string, r: Date, expiresAt: U64, tauLock: U64, utcOffset: I64, t: Date, h: int, mi: int, s: int)
    requires IsDate(r) && 0 <= r.y <= 9999 && date == PrintDate(r)
    requires IsDate(t) && 0 <= t.y <= 9999 && 0 <= h < 24 && 0 <= mi < 60 && 0 <= s < 60
    requires 0 <= expiresAt as int - tauLock as int < 0x8000_0000_0000_0000
    requires expiresAt as int - tauLock as int + utcOffset as int == ((DaysFromCivil(t) * 24 + h) * 60 + mi) * 60 + s
    ensures DayNumber(date).Ok?
    ensures VerifierDateRule(date, expiresAt, tauLock, utcOffset).Ok? <==> !Before(r, t)
    ensures MockDateRule(date, expiresAt, tauLock, utcOffset).Ok? <==> !Before(r, t)
  {
    hide CivilFromDays, DaysFromCivil, DayNumber, PrintDate, EngagementDay, MockEngagementDay, RecordDateValue, IsDate, MockDateRule, PrintYmd;
    ParsePrinted(r);
    ParseThenPrint(date);
    DateIsConvertible(r);
    EngagementDate(expiresAt, tauLock, utcOffset, t, h, mi, s);
    RulesAgree(date, expiresAt, tauLock, utcOffset);
    YmdOrder(r, t);
  }

  /** Both rules accept the same record dates. */
  ghost predicate AcceptAlike(expiresAt: U64, tauLock: U64, utcOffset: I64) {
    forall date :: DayNumber(date).Ok? ==>
      (MockDateRule(date, expiresAt, tauLock, utcOffset).Ok? <==> VerifierDateRule(date, expiresAt, tauLock, utcOffset).Ok?)
  }

  lemma LastDate()
    ensures DayNumber(PrintDate(Date(9999, 12, 31))) == Ok(LAST_DAY)
  {
    hide DaysFromCivil, DayNumber, PrintDate;
    LastDay();
    ParsePrinted(Date(9999, 12, 31));
  }

  lemma ParsedDays(date: string)
    requires DayNumber(date).Ok?
    ensures FIRST_DAY <= DayNumber(date).value <= LAST_DAY
  {
    hide DayNumber, CivilFromDays;
    ParseThenPrint(date);
    YmdOfDaysDefined(DayNumber(date).value);
  }

  /** Without an engagement day the policy verifier refuses every date, so the rules accept alike exactly if
      the mock notary's day lies past the last printable date. */
  lemma AlikeWithoutDay(expiresAt: U64, tauLock: U64, utcOffset: I64)
    requires tauLock <= expiresAt && EngagementDay(expiresAt, tauLock, utcOffset).Err?
    ensures AcceptAlike(expiresAt, tauLock, utcOffset)
      <==> LAST_DAY < MockLocalTime(expiresAt, tauLock, utcOffset) / SECS_PER_DAY
  {
    hide DayNumber, EngagementDay, MockLocalTime, PrintDate;
    forall date | DayNumber(date).Ok?
      ensures FIRST_DAY <= DayNumber(date).value <= LAST_DAY
    {
      ParsedDays(date);
    }
    LastDate();
  }

  /** When the engagement day exists, in terms of the local time. */
  lemma EngagementDayDefined(expiresAt: U64, tauLock: U64, utcOffset: I64)
    requires tauLock <= expiresAt
    ensures var engaged := expiresAt as int - tauLock as int;
      EngagementDay(expiresAt, tauLock, utcOffset).Ok? <==>
        engaged <= I64_MAX && engaged + utcOffset as int <= I64_MAX
        && FIRST_DAY <= MockLocalTime(expiresAt, tauLock, utcOffset) / SECS_PER_DAY <= LAST_DAY
  {
    hide YmdOfDays;
    YmdOfDaysDefined((expiresAt as int - tauLock as int + utcOffset as int) / SECS_PER_DAY);
  }

  /** Exactly when the two rules accept the same dates: the lock is longer than the expiry, or the mock
      notary's wrapped day lies past the last printable date, or nothing leaves the signed range and the
      day does not lie before the first one. Everywhere else the policy verifier refuses every date while
      the mock notary accepts at least 9999-12-31. */
  lemma AcceptAlikeIff(expiresAt: U64, tauLock: U64, utcOffset: I64)
    ensures AcceptAlike(expiresAt, tauLock, utcOffset) <==>
      || expiresAt < tauLock
      || (var day := MockLocalTime(expiresAt, tauLock, utcOffset) / SECS_PER_DAY;
          var engaged := expiresAt as int - tauLock as int;
          || LAST_DAY < day
          || (engaged <= I64_MAX && engaged + utcOffset as int <= I64_MAX && FIRST_DAY <= day))
  {
    hide DayNumber, MockLocalTime, EngagementDay, MockDateRule, VerifierDateRule;
    if tauLock <= expiresAt {
      EngagementDayDefined(expiresAt, tauLock, utcOffset);
      if EngagementDay(expiresAt, tauLock, utcOffset).Err? {
        AlikeWithoutDay(expiresAt, tauLock, utcOffset);
      } else {
        forall date | DayNumber(date).Ok?
          ensures MockDateRule(date, expiresAt, tauLock, utcOffset) == VerifierDateRule(date, expiresAt, tauLock, utcOffset)
        {
          RulesAgree(date, expiresAt, tauLock, utcOffset);
        }
      }
    } else {
      LockPastExpiry(expiresAt, tauLock, utcOffset);
    }
  }

  lemma LockPastExpiry(expiresAt: U64, tauLock: U64, utcOffset: I64)
    requires expiresAt < tauLock
    ensures AcceptAlike(expiresAt, tauLock, utcOffset)
  {
  }

  /** The policy verifier refuses the request, and the mock notary, on a day before the calendar's first,
      accepts any record date. */
  ghost predicate Disagree(expiresAt: U64, tauLock: U64, utcOffset: I64) {
    && EngagementDay(expiresAt, tauLock, utcOffset) == Err(EngagementTimeOutOfRange)
    && (forall date :: DayNumber(date).Ok? ==> MockDateRule(date, expiresAt, tauLock, utcOffset).Ok?)
    && !AcceptAlike(expiresAt, tauLock, utcOffset)
  }

  lemma DisagreeIf(expiresAt: U64, tauLock: U64, utcOffset: I64)
    requires tauLock <= expiresAt && EngagementDay(expiresAt, tauLock, utcOffset) == Err(EngagementTimeOutOfRange)
    requires MockLocalTime(expiresAt, tauLock, utcOffset) / SECS_PER_DAY < FIRST_DAY
    ensures Disagree(expiresAt, tauLock, utcOffset)
  {
    hide DayNumber, EngagementDay, MockLocalTime, AcceptAlike;
    AlikeWithoutDay(expiresAt, tauLock, utcOffset);
    forall date | DayNumber(date).Ok?
      ensures MockDateRule(date, expiresAt, tauLock, utcOffset).Ok?
    {
      ParsedDays(date);
    }
  }

  /** An engagement time past the signed 64-bit range wraps to a day long past. */
  lemma WrappedEngagement()
    ensures Disagree(0x8000_0000_0000_0000, 0, 0)
  {
    hide DayNumber, YmdOfDays, AcceptAlike, Disagree;
    assert MockLocalTime(0x8000_0000_0000_0000, 0, 0) == I64_MIN;
    DisagreeIf(0x8000_0000_0000_0000, 0, 0);
  }

  /** An engagement time inside the signed range that the offset of the registry's zone, three hours, pushes
      out of it wraps as well. */
  lemma WrappedOffset()
    ensures Disagree(0x7fff_ffff_ffff_ffff, 0, 10800)
  {
    hide DayNumber, YmdOfDays, AcceptAlike, Disagree;
    assert MockLocalTime(0x7fff_ffff_ffff_ffff, 0, 10800) == I64_MIN + 10799;
    DisagreeIf(0x7fff_ffff_ffff_ffff, 0, 10800);
  }

  predicate Fits64(values: seq<int>) {
    forall i | 0 <= i < |values| :: I64_MIN <= values[i] <= I64_MAX
  }

  /** The values that the conversion of `days` computes, in order: the era, ... */
  function EraSteps(days: int): (r: seq<int>)
    ensures |r| == 4
  {
    var z := days + 719468;
    [z, z / 146097, z / 146097 * 146097, z - z / 146097 * 146097]
  }

  /** ... the year and the day of the year, ... */
  function YearSteps(doe: int): (r: seq<int>)
    ensures |r| == 8
  {
    var a := doe - doe / 1460;
    var b := a + doe / 36524;
    var c := b - doe / 146096;
    var yoe := c / 365;
    var e := 365 * yoe + yoe / 4;
    var f := e - yoe / 100;
    [a, b, c, yoe, 365 * yoe, e, f, doe - f]
  }

  /** ... the month and the day, and the year they belong to. */
  function DaySteps(era: int, yoe: int, doy: int): (r: seq<int>)
    ensures |r| == 12
  {
    var mp := (5 * doy + 2) / 153;
    var g := (153 * mp + 2) / 5;
    var m := if mp < 10 then mp + 3 else mp - 9;
    var y := yoe + era * 400;
    [5 * doy, 5 * doy + 2, mp, 153 * mp, 153 * mp + 2, g, doy - g, doy - g + 1, m, era * 400, y, y + (if m <= 2 then 1 else 0)]
  }

  function ConversionSteps(days: int): (r: seq<int>)
    ensures |r| == 24
  {
    var first := EraSteps(days);
    var second := YearSteps(first[3]);
    first + second + DaySteps(first[1], second[3], second[7])
  }

  lemma EraStepsFit(days: int)
    requires -0x8000_0000_0000 <= days <= 0x8000_0000_0000
    ensures Fits64(EraSteps(days)) && 0 <= EraSteps(days)[3] < 146097 && -0x1_0000_0000 <= EraSteps(days)[1] <= 0x1_0000_0000
  {
  }

  lemma YearStepsFit(doe: int)
    requires 0 <= doe < 146097
    ensures Fits64(YearSteps(doe)) && -1 <= YearSteps(doe)[3] <= 401 && -300000 <= YearSteps(doe)[7] <= 300000
  {
  }

  lemma DayStepsFit(era: int, yoe: int, doy: int)
    requires -0x1_0000_0000 <= era <= 0x1_0000_0000 && -1 <= yoe <= 401 && -300000 <= doy <= 300000
    ensures Fits64(DaySteps(era, yoe, doy))
  {
  }

  lemma StepsOfDay(days: int)
    requires -0x8000_0000_0000 <= days <= 0x8000_0000_0000
    ensures Fits64(ConversionSteps(days))
  {
    hide EraSteps, YearSteps, DaySteps;
    EraStepsFit(days);
    var first := EraSteps(days);
    YearStepsFit(first[3]);
    var second := YearSteps(first[3]);
    DayStepsFit(first[1], second[3], second[7]);
  }

  lemma StepsReachYear(days: int)
    ensures ConversionSteps(days)[23] == CivilFromDays(days).y
  {
    var z := days + 719468;
    var era := z / 146097;
    var doe := z - era * 146097;
    assert EraSteps(days)[1] == era && EraSteps(days)[3] == doe;
    YearOfSteps(era, doe);
  }

  lemma YearOfSteps(era: int, doe: int)
    ensures DaySteps(era, YearSteps(doe)[3], YearSteps(doe)[7])[11] == CivilOfEra(era, doe).y
  {
    assert YearSteps(doe)[3] == YearOfEra(doe);
  }

  /** No arithmetic of `ymd_of_days` overflows on a day that `engagement_day` converts, and the digits of a
      year that passes the range check fit 32 bits. */
  lemma EngagementDayInRange(local: int)
    requires I64_MIN <= local <= I64_MAX
    ensures Fits64(ConversionSteps(local / SECS_PER_DAY))
    ensures ConversionSteps(local / SECS_PER_DAY)[23] == CivilFromDays(local / SECS_PER_DAY).y
    ensures YmdOfDays(local / SECS_PER_DAY).Ok? ==> YmdOfDays(local / SECS_PER_DAY).value < 0x1_0000_0000
  {
    hide Fits64, ConversionSteps, CivilFromDays, YmdOfDays;
    StepsOfDay(local / SECS_PER_DAY);
    StepsReachYear(local / SECS_PER_DAY);
    YmdOfDaysDefined(local / SECS_PER_DAY);
  }
}
