/**
Days since 1970-01-01 to a calendar date (`days_to_ymd` and `format_timestamp` in
crates/teodb-perf-suite/src/nested_gen.rs).
*/
module CivilDate {
  datatype Date = Date(year: int, month: int, day: int)

  // ----- The calendar -----

  predicate Leap(year: int) {
    year % 4 == 0 && (year % 100 != 0 || year % 400 == 0)
  }

  function DaysInMonth(year: int, month: int): int
    requires 1 <= month <= 12
  {
    if month == 2 then (if Leap(year) then 29 else 28)
    else if month == 4 || month == 6 || month == 9 || month == 11 then 30
    else 31
  }

  predicate Valid(date: Date) {
    1 <= date.month <= 12 && 1 <= date.day <= DaysInMonth(date.year, date.month)
  }

  function NextDay(date: Date): Date
    requires Valid(date)
  {
    if date.day < DaysInMonth(date.year, date.month) then date.(day := date.day + 1)
    else if date.month < 12 then Date(date.year, date.month + 1, 1)
    else Date(date.year + 1, 1, 1)
  }

  const EPOCH := Date(1970, 1, 1)

  // ----- The conversion -----

  /** Integer division of the source language: toward zero. */
  function TruncDiv(a: int, b: int): int
    requires b > 0
  {
    if a >= 0 then a / b else -((-a) / b)
  }

  function TruncMod(a: int, b: int): int
    requires b > 0
  {
    a - TruncDiv(a, b) * b
  }

  /** A cast to i32 keeps the low 32 bits. */
  function AsI32(y: int): int {
    (y + 0x8000_0000) % 0x1_0000_0000 - 0x8000_0000
  }

  predicate FitsI32(y: int) {
    -0x8000_0000 <= y < 0x8000_0000
  }

  function Era(z: int): int {
    TruncDiv(if z >= 0 then z else z - 146_096, 146_097)
  }

  /** The corrected day count that 365 divides into years, in unsigned arithmetic. */
  function Corrected(doe: nat): nat
    requires doe < 146_097
  {
    var a: nat := doe - doe / 1460;
    var b: nat := a + doe / 36_524;
    b - doe / 146_096
  }

  function YearOfEra(doe: nat): nat
    requires doe < 146_097
  {
    Corrected(doe) / 365
  }

  /** Days before year `k` of an era that starts on 1 March. */
  function YearStart(k: nat): int {
    365 * k + k / 4 - k / 100 + k / 400
  }

  /** Days before month `mp` of a year that starts on 1 March. */
  function MonthStart(mp: nat): int {
    (153 * mp + 2) / 5
  }

  function MonthOfYear(doy: nat): nat {
    (5 * doy + 2) / 153
  }

  function DayOfYear(doe: nat, yoe: nat): nat
    requires yoe < 400 && YearStart(yoe) <= doe
  {
    doe - (365 * yoe + yoe / 4 - yoe / 100)
  }

  function DayOfMonth(doy: nat, mp: nat): nat
    requires MonthStart(mp) <= doy
  {
    doy - (153 * mp + 2) / 5 + 1
  }

  /** The date of a day of an era, given by its number in the era. */
  function CivilFromEra(era: int, doe: nat): Date
    requires doe < 146_097
  {
    var yoe := YearOfEra(doe);
    YearOfEraBounds(doe);
    var doy := DayOfYear(doe, yoe);
    DayOfYearBounds(doe, yoe);
    var mp := MonthOfYear(doy);
    MonthOfYearBounds(doy);
    CalendarDate(yoe + era * 400, mp, DayOfMonth(doy, mp))
  }

  /** `days_to_ymd` before the year is cast to i32. */
  function CivilFromDays(days: int): Date {
    var z := days + 719_468;
    EraBounds(z);
    CivilFromEra(Era(z), z - Era(z) * 146_097)
  }

  /** From a year and month counted from March to the calendar's. */
  function CalendarDate(y: int, mp: nat, d: int): Date {
    var m := if mp < 10 then mp + 3 else mp - 9;
    Date(if m <= 2 then y + 1 else y, m, d)
  }

  function DaysToYmd(days: int): Date {
    var date := CivilFromDays(days);
    date.(year := AsI32(date.year))
  }

  // ----- No subtraction underflows, and every quotient is the right one -----

  lemma EraBounds(z: int)
    ensures 0 <= z - Era(z) * 146_097 < 146_097
  {
  }

  lemma CorrectedIsMonotone(a: nat, b: nat)
    requires a <= b < 146_097
    ensures Corrected(a) <= Corrected(b)
  {
    assert b / 1460 - a / 1460 <= b - a;
    assert b / 146_096 - a / 146_096 <= b / 36_524 - a / 36_524;
  }

  /** The first day of year `k` is corrected to at least `365 * k`. */
  lemma FirstDay(k: nat)
    requires k < 400
    ensures 0 <= YearStart(k) < 146_097 && Corrected(YearStart(k)) >= 365 * k
  {
    var c, j := k / 100, k % 100;
    var q, r := j / 4, j % 4;
    assert k == 100 * c + 4 * q + r && k / 4 == 25 * c + q && k / 400 == 0;
    var first := YearStart(k);
    assert first == 36_524 * c + 1461 * q + 365 * r;
    assert first / 36_524 == c && first / 146_096 == 0;
    assert first < 1460 * (25 * c + q + 1);
    assert first / 1460 <= 25 * c + q;
  }

  /** The last day before year `k` is corrected to less than `365 * k`. */
  lemma LastDayBefore(k: nat)
    requires 0 < k <= 400
    ensures 0 < YearStart(k) <= 146_097 && Corrected(YearStart(k) - 1) < 365 * k
  {
    if k == 400 {
      assert YearStart(400) == 146_097 && Corrected(146_096) == 145_999;
    } else {
      var c, j := k / 100, k % 100;
      var q, r := j / 4, j % 4;
      assert k == 100 * c + 4 * q + r && k / 4 == 25 * c + q && k / 400 == 0;
      var last := YearStart(k) - 1;
      assert last == 36_524 * c + 1461 * q + 365 * r - 1;
      assert last / 146_096 == 0;
      if j == 0 {
        assert last / 36_524 == c - 1;
        assert last >= 1460 * (25 * c - 1);
        assert last / 1460 >= 25 * c - 1;
      } else {
        assert last / 36_524 == c;
        assert last >= 1460 * (25 * c + q);
        assert last / 1460 >= 25 * c + q;
      }
    }
  }

  lemma YearOfEraBounds(doe: nat)
    requires doe < 146_097
    ensures YearOfEra(doe) < 400 && YearStart(YearOfEra(doe)) <= doe < YearStart(YearOfEra(doe) + 1)
  {
    var y := YearOfEra(doe);
    CorrectedIsMonotone(doe, 146_096);
    assert Corrected(146_096) == 145_999;
    if y > 0 {
      LastDayBefore(y);
      if doe < YearStart(y) {
        CorrectedIsMonotone(doe, YearStart(y) - 1);
        assert false;
      }
    }
    if y < 399 {
      FirstDay(y + 1);
      if doe >= YearStart(y + 1) {
        CorrectedIsMonotone(YearStart(y + 1), doe);
        assert false;
      }
    }
  }

  lemma DayOfYearBounds(doe: nat, yoe: nat)
    requires yoe < 400 && YearStart(yoe) <= doe < YearStart(yoe + 1)
    ensures DayOfYear(doe, yoe) == doe - YearStart(yoe) && DayOfYear(doe, yoe) < 366
  {
    assert yoe / 400 == 0;
  }

  lemma MonthOfYearBounds(doy: nat)
    requires doy < 366
    ensures MonthOfYear(doy) <= 11 && MonthStart(MonthOfYear(doy)) <= doy
    ensures doy < MonthStart(MonthOfYear(doy) + 1)
  {
  }

  /** Years do not overlap. */
  lemma YearsDisjoint(j: nat, k: nat, doe: int)
    requires YearStart(j) <= doe < YearStart(j + 1) && YearStart(k) <= doe < YearStart(k + 1)
    ensures j == k
  {
  }

  lemma MonthsDisjoint(j: nat, k: nat, doy: int)
    requires MonthStart(j) <= doy < MonthStart(j + 1) && MonthStart(k) <= doy < MonthStart(k + 1)
    ensures j == k
  {
  }

  // ----- The day count -----

  /** The year that starts on 1 March and contains the date. */
  function MarchYear(date: Date): int {
    if date.month <= 2 then date.year - 1 else date.year
  }

  function MarchMonth(date: Date): nat
    requires 1 <= date.month <= 12
  {
    if date.month <= 2 then date.month + 9 else date.month - 3
  }

  function DaysFromCivil(date: Date): int
    requires 1 <= date.month <= 12
  {
    MarchYear(date) / 400 * 146_097 + YearStart(MarchYear(date) % 400)
    + MonthStart(MarchMonth(date)) + date.day - 1 - 719_468
  }

  lemma LeapIsPeriodic(year: int)
    ensures Leap(year) <==> Leap(year % 400)
  {
    var q, r := year / 400, year % 400;
    SameRemainder(q, r, 4, 100);
    SameRemainder(q, r, 100, 4);
  }

  lemma SameRemainder(q: int, r: int, n: int, m: int)
    requires (n == 4 && m == 100) || (n == 100 && m == 4)
    ensures (400 * q + r) % n == r % n
  {
    Remainder(m * q + r / n, n, r % n);
    assert (m * q + r / n) * n + r % n == 400 * q + r;
  }

  /** A year that starts on 1 March is as long as the next February makes it. */
  lemma YearLength(y: int)
    ensures YearStart(y % 400 + 1) - YearStart(y % 400) == if Leap(y + 1) then 366 else 365
  {
    var k := y % 400;
    LeapIsPeriodic(y + 1);
    if k == 399 {
      assert (y + 1) % 400 == 0;
    } else {
      assert (y + 1) % 400 == k + 1;
      NextYear(k);
    }
  }

  lemma NextYear(k: nat)
    requires k < 399
    ensures YearStart(k + 1) - YearStart(k) == if Leap(k + 1) then 366 else 365
  {
    QuotientStep(k, 4);
    QuotientStep(k, 100);
    assert k / 400 == 0 && (k + 1) / 400 == 0 && (k + 1) % 400 != 0;
    assert (k + 1) % 100 == 0 ==> (k + 1) % 4 == 0;
  }

  lemma QuotientStep(k: nat, n: nat)
    requires n == 4 || n == 100
    ensures (k + 1) / n - k / n == if (k + 1) % n == 0 then 1 else 0
  {
  }

  /** Each month ends where the next one starts, February where the year does. */
  lemma MonthLength(date: Date)
    requires Valid(date)
    ensures MarchMonth(date) < 11 ==>
              DaysInMonth(date.year, date.month) == MonthStart(MarchMonth(date) + 1) - MonthStart(MarchMonth(date))
    ensures MarchMonth(date) == 11 ==> date.month == 2
    ensures MarchMonth(date) == 11 ==>
              DaysInMonth(date.year, date.month)
              == YearStart(MarchYear(date) % 400 + 1) - YearStart(MarchYear(date) % 400) - MonthStart(11)
  {
    if date.month == 2 {
      YearLength(MarchYear(date));
    }
  }

  /** The day count is 0 on 1970-01-01 and grows by one from each date to the next. */
  lemma DayCountOfEpoch()
    ensures Valid(EPOCH) && DaysFromCivil(EPOCH) == 0
  {
  }

  lemma DayCountOfNext(date: Date)
    requires Valid(date)
    ensures Valid(NextDay(date)) && DaysFromCivil(NextDay(date)) == DaysFromCivil(date) + 1
  {
    MonthLength(date);
    var next := NextDay(date);
    if date.day < DaysInMonth(date.year, date.month) {
      assert MarchYear(next) == MarchYear(date) && MarchMonth(next) == MarchMonth(date);
    } else if date.month == 2 {
      NextMarch(MarchYear(date));
      assert MarchYear(next) == MarchYear(date) + 1 && MarchMonth(next) == 0;
    } else {
      assert MarchYear(next) == MarchYear(date) && MarchMonth(next) == MarchMonth(date) + 1;
    }
  }

  lemma NextMarch(y: int)
    ensures (y + 1) / 400 * 146_097 + YearStart((y + 1) % 400) == y / 400 * 146_097 + YearStart(y % 400 + 1)
  {
    if y % 400 == 399 {
      assert (y + 1) / 400 == y / 400 + 1 && (y + 1) % 400 == 0;
    } else {
      assert (y + 1) / 400 == y / 400 && (y + 1) % 400 == y % 400 + 1;
    }
  }

  // ----- The conversion is the inverse of the day count -----

  lemma DayCountOfParts(era: int, yoe: nat, mp: nat, d: int)
    requires yoe < 400 && mp <= 11
    ensures var date := CalendarDate(yoe + era * 400, mp, d);
            && 1 <= date.month <= 12 && MarchYear(date) == yoe + era * 400 && MarchMonth(date) == mp
            && DaysFromCivil(date) == era * 146_097 + YearStart(yoe) + MonthStart(mp) + d - 1 - 719_468
  {
    RemainderOfYear(yoe, era);
  }

  /** The parts that the conversion computes. */
  lemma PartsOfEra(era: int, doe: nat) returns (yoe: nat, mp: nat, doy: nat)
    requires doe < 146_097
    ensures yoe < 400 && mp <= 11 && doe == YearStart(yoe) + doy
    ensures doy < YearStart(yoe + 1) - YearStart(yoe) && MonthStart(mp) <= doy < MonthStart(mp + 1)
    ensures CivilFromEra(era, doe) == CalendarDate(yoe + era * 400, mp, doy - MonthStart(mp) + 1)
  {
    yoe := YearOfEra(doe);
    YearOfEraBounds(doe);
    doy := DayOfYear(doe, yoe);
    DayOfYearBounds(doe, yoe);
    mp := MonthOfYear(doy);
    MonthOfYearBounds(doy);
  }

  lemma EraRoundTrip(era: int, doe: nat)
    requires doe < 146_097
    ensures var date := CivilFromEra(era, doe);
            Valid(date) && DaysFromCivil(date) == era * 146_097 + doe - 719_468
  {
    var yoe, mp, doy := PartsOfEra(era, doe);
    var date := CalendarDate(yoe + era * 400, mp, doy - MonthStart(mp) + 1);
    assert CivilFromEra(era, doe) == date;
    PartsRoundTrip(era, yoe, mp, doy);
  }

  lemma PartsRoundTrip(era: int, yoe: nat, mp: nat, doy: nat)
    requires yoe < 400 && mp <= 11
    requires doy < YearStart(yoe + 1) - YearStart(yoe) && MonthStart(mp) <= doy < MonthStart(mp + 1)
    ensures var date := CalendarDate(yoe + era * 400, mp, doy - MonthStart(mp) + 1);
            Valid(date) && DaysFromCivil(date) == era * 146_097 + YearStart(yoe) + doy - 719_468
  {
    var date := CalendarDate(yoe + era * 400, mp, doy - MonthStart(mp) + 1);
    DayCountOfParts(era, yoe, mp, doy - MonthStart(mp) + 1);
    RemainderOfYear(yoe, era);
    DateIsValid(date, yoe + era * 400, mp, doy);
  }

  lemma RemainderOfYear(yoe: nat, era: int)
    requires yoe < 400
    ensures (yoe + era * 400) % 400 == yoe && (yoe + era * 400) / 400 == era
  {
  }

  /** For every day number: a valid date, whose day count is that number. */
  lemma CivilRoundTrip(days: int)
    ensures Valid(CivilFromDays(days)) && DaysFromCivil(CivilFromDays(days)) == days
  {
    var z := days + 719_468;
    EraBounds(z);
    var era := Era(z);
    var doe := z - era * 146_097;
    assert CivilFromDays(days) == CivilFromEra(era, doe);
    EraRoundTrip(era, doe);
  }

  lemma DateIsValid(date: Date, y: int, mp: nat, doy: nat)
    requires 1 <= date.month <= 12 && MarchYear(date) == y && MarchMonth(date) == mp
    requires MonthStart(mp) <= doy < MonthStart(mp + 1) && date.day == doy - MonthStart(mp) + 1
    requires doy < YearStart(y % 400 + 1) - YearStart(y % 400)
    ensures Valid(date)
  {
    YearLength(y);
  }

  /** For every valid date: its day count converts back to it. */
  lemma DaysRoundTrip(date: Date, days: int)
    requires Valid(date) && DaysFromCivil(date) == days
    ensures CivilFromDays(days) == date
  {
    var back := CivilFromDays(days);
    CivilRoundTrip(days);
    DayCountIsInjective(date, back);
  }

  lemma PositionInEra(date: Date)
    requires Valid(date)
    ensures var k := MarchYear(date) % 400;
            var doy := MonthStart(MarchMonth(date)) + date.day - 1;
            && 0 <= doy < YearStart(k + 1) - YearStart(k)
            && MonthStart(MarchMonth(date)) <= doy < MonthStart(MarchMonth(date) + 1)
            && 0 <= YearStart(k) && YearStart(k + 1) <= 146_097
  {
    MonthLength(date);
    YearLength(MarchYear(date));
    LastDayBefore(MarchYear(date) % 400 + 1);
    FirstDay(MarchYear(date) % 400);
  }

  lemma DayCountIsInjective(a: Date, b: Date)
    requires Valid(a) && Valid(b) && DaysFromCivil(a) == DaysFromCivil(b)
    ensures a == b
  {
    PositionInEra(a);
    PositionInEra(b);
    var ka, kb := MarchYear(a) % 400, MarchYear(b) % 400;
    var da, db := MonthStart(MarchMonth(a)) + a.day - 1, MonthStart(MarchMonth(b)) + b.day - 1;
    var ea, eb := MarchYear(a) / 400, MarchYear(b) / 400;
    assert ea * 146_097 + (YearStart(ka) + da) == eb * 146_097 + (YearStart(kb) + db);
    assert ea == eb;
    YearsDisjoint(ka, kb, YearStart(ka) + da);
    MonthsDisjoint(MarchMonth(a), MarchMonth(b), da);
    assert MarchYear(a) == ea * 400 + ka && MarchYear(b) == eb * 400 + kb;
  }

  /** Consecutive day numbers give consecutive dates. */
  lemma ConsecutiveDays(days: int, next: int)
    requires next == days + 1
    ensures Valid(CivilFromDays(days)) && CivilFromDays(next) == NextDay(CivilFromDays(days))
  {
    var date := CivilFromDays(days);
    CivilRoundTrip(days);
    DayCountOfNext(date);
    DaysRoundTrip(NextDay(date), next);
  }

  /** The date `n` days after 1970-01-01, found by stepping from day to day. */
  ghost function DaysAfterEpoch(n: nat): (date: Date)
    ensures Valid(date)
  {
    if n == 0 then EPOCH
    else
      DayCountOfNext(DaysAfterEpoch(n - 1));
      NextDay(DaysAfterEpoch(n - 1))
  }

  lemma {:induction false} DayCountAfterEpoch(n: nat)
    ensures DaysFromCivil(DaysAfterEpoch(n)) == n
  {
    if n == 0 {
      DayCountOfEpoch();
    } else {
      DayCountAfterEpoch(n - 1);
      DayCountOfNext(DaysAfterEpoch(n - 1));
    }
  }

  lemma {:induction false} CountsFromEpoch(n: nat)
    ensures CivilFromDays(n) == DaysAfterEpoch(n)
  {
    DayCountAfterEpoch(n);
    DaysRoundTrip(DaysAfterEpoch(n), n);
  }

  /** The cast changes nothing if and only if the year fits. */
  lemma YearFits(days: int)
    ensures DaysToYmd(days) == CivilFromDays(days) <==> FitsI32(CivilFromDays(days).year)
  {
    CastFits(CivilFromDays(days).year);
  }

  lemma CastFits(y: int)
    ensures AsI32(y) == y <==> FitsI32(y)
  {
  }

  // ----- Overflow -----

  const I64_MAX := 0x7FFF_FFFF_FFFF_FFFF

  predicate FitsI64(n: int) {
    -I64_MAX - 1 <= n <= I64_MAX
  }

  /** Every value that `days_to_ymd` computes in 64-bit arithmetic. */
  function Intermediates(days: int): seq<int> {
    var z := days + 719_468;
    var era := Era(z);
    EraBounds(z);
    var yoe := YearOfEra(z - era * 146_097);
    [z, if z >= 0 then z else z - 146_096, era, era * 146_097, z - era * 146_097, era * 400, yoe + era * 400,
     CivilFromDays(days).year]
  }

  lemma FirstAddition(days: int)
    ensures |Intermediates(days)| == 8 && Intermediates(days)[0] == days + 719_468
  {
  }

  /** No step overflows if and only if the day number leaves room for the first
      addition. */
  lemma NoOverflow(days: int)
    requires FitsI64(days)
    ensures (forall v | v in Intermediates(days) :: FitsI64(v)) <==> days <= I64_MAX - 719_468
  {
    var values := Intermediates(days);
    FirstAddition(days);
    assert values[0] in values;
    if days <= I64_MAX - 719_468 {
      forall i | 0 <= i < |values|
        ensures FitsI64(values[i])
      {
        IntermediatesFit(days, i);
      }
    }
  }

  lemma IntermediatesFit(days: int, i: nat)
    requires FitsI64(days) && days <= I64_MAX - 719_468 && i < |Intermediates(days)|
    ensures FitsI64(Intermediates(days)[i])
  {
    var z := days + 719_468;
    EraBounds(z);
    var era := Era(z);
    YearOfEraBounds(z - era * 146_097);
    assert Intermediates(days)[7] == Intermediates(days)[6] || Intermediates(days)[7] == Intermediates(days)[6] + 1;
  }

  /** A timestamp in 64-bit seconds never overflows the conversion of its day. */
  lemma TimestampNeverOverflows(epochSeconds: int)
    requires FitsI64(epochSeconds)
    ensures forall v | v in Intermediates(TruncDiv(epochSeconds, 86_400)) :: FitsI64(v)
  {
    NoOverflow(TruncDiv(epochSeconds, 86_400));
  }

  // ----- Time of day -----

  datatype Timestamp = Timestamp(date: Date, hours: int, minutes: int, seconds: int)

  /** The time fields `format_timestamp` prints. */
  function TimeFields(date: Date, time: int): Timestamp {
    Timestamp(date, TruncDiv(time, 3600), TruncDiv(TruncMod(time, 3600), 60), TruncMod(time, 60))
  }

  function Fields(epochSeconds: int): Timestamp {
    TimeFields(DaysToYmd(TruncDiv(epochSeconds, 86_400)), TruncMod(epochSeconds, 86_400))
  }

  predicate ValidTime(t: Timestamp) {
    0 <= t.hours < 24 && 0 <= t.minutes < 60 && 0 <= t.seconds < 60
  }

  lemma TruncParts(a: int, b: int)
    requires b > 0
    ensures a >= 0 ==> TruncDiv(a, b) == a / b && TruncMod(a, b) == a % b
    ensures -b < TruncMod(a, b) < b
    ensures TruncMod(a, b) >= 0 <==> a >= 0 || a % b == 0
  {
    assert a == a / b * b + a % b;
    if a < 0 {
      var n := -a;
      assert n == n / b * b + n % b;
      NegatedModulus(a, b);
    }
  }

  lemma NegatedModulus(a: int, b: int)
    requires b > 0
    ensures (-a) % b == 0 <==> a % b == 0
  {
    var q, r := a / b, a % b;
    assert -a == -q * b - r;
    if r == 0 {
      Multiple(-q, b);
    } else {
      assert -a == (-q - 1) * b + (b - r);
      Remainder(-q - 1, b, b - r);
    }
  }

  lemma Multiple(q: int, b: int)
    requires b > 0
    ensures (q * b) % b == 0
  {
    Remainder(q, b, 0);
  }

  lemma Remainder(q: int, b: int, r: int)
    requires 0 <= r < b
    ensures (q * b + r) % b == r
  {
    var n := q * b + r;
    var q', r' := n / b, n % b;
    assert n == q' * b + r';
    assert (q - q') * b == r' - r;
    SmallMultiple(q - q', b);
  }

  lemma SmallMultiple(q: int, b: int)
    requires b > 0
    ensures -b < q * b < b ==> q == 0
  {
    if q >= 1 {
      assert q * b >= b;
    } else if q <= -1 {
      assert q * b <= -b;
    }
  }

  lemma TimeOfDay(date: Date, time: int)
    requires -86_400 < time < 86_400
    ensures ValidTime(TimeFields(date, time)) <==> time >= 0
    ensures time >= 0 ==>
              var t := TimeFields(date, time);
              time == t.hours * 3600 + t.minutes * 60 + t.seconds
  {
    if time < 0 {
      SecondsOfNegative(time);
    }
  }

  /** Toward zero, a negative time has no field above zero and one below. */
  lemma SecondsOfNegative(time: int)
    requires -86_400 < time < 0
    ensures TruncDiv(time, 3600) < 0 || TruncDiv(TruncMod(time, 3600), 60) < 0 || TruncMod(time, 60) < 0
  {
  }

  /** The printed time of day is a time of day exactly for the seconds that are not
      negative and for whole days before 1970, and then the fields name the second. */
  lemma TimestampIsExact(epochSeconds: int)
    ensures ValidTime(Fields(epochSeconds)) <==> epochSeconds >= 0 || epochSeconds % 86_400 == 0
    ensures ValidTime(Fields(epochSeconds)) && FitsI32(CivilFromDays(TruncDiv(epochSeconds, 86_400)).year) ==>
              var t := Fields(epochSeconds);
              Valid(t.date)
              && epochSeconds == DaysFromCivil(t.date) * 86_400 + t.hours * 3600 + t.minutes * 60 + t.seconds
  {
    var days := TruncDiv(epochSeconds, 86_400);
    TruncParts(epochSeconds, 86_400);
    TimeOfDay(DaysToYmd(days), TruncMod(epochSeconds, 86_400));
    CivilRoundTrip(days);
    YearFits(days);
  }

  /** One second before 1970 is printed as second -1 of 1970-01-01. */
  lemma SecondBeforeEpoch()
    ensures Fields(-1) == Timestamp(EPOCH, 0, 0, -1) && !ValidTime(Fields(-1))
  {
    CountsFromEpoch(0);
    YearFits(0);
    TimestampIsExact(-1);
  }
}
