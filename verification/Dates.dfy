/** Packed dates and date validation (internal/protocol/helpers.go, pkg/types/request.go). */
module Dates {
  import opened GoBytes

  // ---------- the Gregorian calendar ----------

  datatype Date = Date(year: nat, month: nat, day: nat)

  /** RFC 3339, appendix C. */
  predicate IsLeap(year: nat) {
    year % 4 == 0 && (year % 100 != 0 || year % 400 == 0)
  }

  /** RFC 3339, section 5.7. */
  function DaysIn(year: nat, month: nat): nat
    requires 1 <= month <= 12
  {
    if month == 2 then (if IsLeap(year) then 29 else 28)
    else if month == 4 || month == 6 || month == 9 || month == 11 then 30
    else 31
  }

  predicate Real(d: Date) {
    1 <= d.month <= 12 && 1 <= d.day <= DaysIn(d.year, d.month)
  }

  // ---------- time.Date ----------

  /** `time.Date` for a month and day of at least one: overflow is carried into the next month and year. */
  function Normalize(year: nat, month: nat, day: nat): Date
    requires month >= 1 && day >= 1
    decreases day, month
  {
    if month > 12 then Normalize(year + 1, month - 12, day)
    else if day > DaysIn(year, month) then Normalize(year, month + 1, day - DaysIn(year, month))
    else Date(year, month, day)
  }

  /** The days before a year, from year 0 on. */
  function DaysBeforeYear(year: nat): nat {
    365 * year + (year + 3) / 4 - (year + 99) / 100 + (year + 399) / 400
  }

  function DaysBeforeMonth(year: nat, month: nat): nat
    requires 1 <= month <= 13
  {
    if month == 1 then 0 else DaysBeforeMonth(year, month - 1) + DaysIn(year, month - 1)
  }

  /** The number of a day, where a month beyond December is that many months on. */
  function DayNumber(year: nat, month: nat, day: nat): nat
    requires month >= 1
    decreases month
  {
    if month > 12 then DayNumber(year + 1, month - 12, day)
    else DaysBeforeYear(year) + DaysBeforeMonth(year, month) + day
  }

  function Number(d: Date): nat
    requires Real(d)
  {
    DayNumber(d.year, d.month, d.day)
  }

  /** Where a month begins in its year, by the rule of 153 days to five months from March on. */
  function MonthStart(year: nat, month: nat): nat
    requires 1 <= month <= 13
  {
    if month <= 2 then 31 * (month - 1)
    else (153 * (month - 3) + 2) / 5 + 59 + if IsLeap(year) then 1 else 0
  }

  /** The lengths of the months, and so the numbers of the days, are those that this rule gives. */
  lemma {:induction false} MonthLengths(year: nat, month: nat)
    requires 1 <= month <= 13
    ensures DaysBeforeMonth(year, month) == MonthStart(year, month)
    ensures month <= 12 ==> DaysIn(year, month) == MonthStart(year, month + 1) - MonthStart(year, month)
  {
    if month > 1 {
      MonthLengths(year, month - 1);
    }
  }

  /** Which dates there are, and how their days are numbered. */
  lemma CalendarFormula(d: Date)
    ensures Real(d) <==> && 1 <= d.month <= 12
                         && 1 <= d.day <= MonthStart(d.year, d.month + 1) - MonthStart(d.year, d.month)
    ensures Real(d) ==> Number(d) == DaysBeforeYear(d.year) + MonthStart(d.year, d.month) + d.day
    ensures Number(Date(0, 1, 1)) == 1
  {
    if 1 <= d.month <= 12 {
      MonthLengths(d.year, d.month);
    }
  }

  lemma YearLength(year: nat)
    ensures DaysBeforeMonth(year, 13) == 365 + (if IsLeap(year) then 1 else 0)
    ensures DaysBeforeYear(year + 1) == DaysBeforeYear(year) + DaysBeforeMonth(year, 13)
  {
    TwoMonths(year, 1);
    TwoMonths(year, 3);
    TwoMonths(year, 5);
    TwoMonths(year, 7);
    TwoMonths(year, 9);
    TwoMonths(year, 11);
    LeapCount(year);
  }

  lemma TwoMonths(year: nat, month: nat)
    requires 1 <= month <= 11
    ensures DaysBeforeMonth(year, month + 2)
         == DaysBeforeMonth(year, month) + DaysIn(year, month) + DaysIn(year, month + 1)
  {
    assert DaysBeforeMonth(year, month + 1) == DaysBeforeMonth(year, month) + DaysIn(year, month);
  }

  lemma LeapCount(year: nat)
    ensures (year + 4) / 4 - (year + 100) / 100 + (year + 400) / 400
         == (year + 3) / 4 - (year + 99) / 100 + (year + 399) / 400 + (if IsLeap(year) then 1 else 0)
  {
    assert (year + 4) / 4 == (year + 3) / 4 + (if year % 4 == 0 then 1 else 0);
    assert (year + 100) / 100 == (year + 99) / 100 + (if year % 100 == 0 then 1 else 0);
    assert (year + 400) / 400 == (year + 399) / 400 + (if year % 400 == 0 then 1 else 0);
  }

  /** Carrying never changes the day that is meant, and ends at a date of the calendar. */
  lemma {:induction false} NormalizeKeepsDay(year: nat, month: nat, day: nat)
    requires month >= 1 && day >= 1
    ensures Real(Normalize(year, month, day))
    ensures Number(Normalize(year, month, day)) == DayNumber(year, month, day)
    decreases day, month
  {
    if month > 12 {
      NormalizeKeepsDay(year + 1, month - 12, day);
    } else if day > DaysIn(year, month) {
      NormalizeKeepsDay(year, month + 1, day - DaysIn(year, month));
      if month == 12 {
        YearLength(year);
      }
    }
  }

  predicate Before(a: Date, b: Date) {
    a.year < b.year || (a.year == b.year && (a.month < b.month || (a.month == b.month && a.day < b.day)))
  }

  lemma {:induction false} MonthsGrow(year: nat, m: nat, n: nat)
    requires 1 <= m <= n <= 13
    ensures DaysBeforeMonth(year, m) <= DaysBeforeMonth(year, n)
    ensures m < n ==> DaysBeforeMonth(year, m) + DaysIn(year, m) <= DaysBeforeMonth(year, n)
  {
    if m < n {
      MonthsGrow(year, m, n - 1);
    }
  }

  lemma {:induction false} YearsGrow(a: nat, b: nat)
    requires a < b
    ensures DaysBeforeYear(a) + DaysBeforeMonth(a, 13) <= DaysBeforeYear(b)
    decreases b
  {
    YearLength(b - 1);
    if a < b - 1 {
      YearsGrow(a, b - 1);
    } else {
      YearLength(a);
    }
  }

  /** Days are numbered in calendar order, so a day has one date only. */
  lemma NumberOrders(a: Date, b: Date)
    requires Real(a) && Real(b)
    ensures Before(a, b) <==> Number(a) < Number(b)
    ensures Number(a) == Number(b) <==> a == b
  {
    OrderedNumbers(a, b);
    OrderedNumbers(b, a);
  }

  lemma OrderedNumbers(a: Date, b: Date)
    requires Real(a) && Real(b)
    ensures Before(a, b) ==> Number(a) < Number(b)
  {
    if a.year < b.year {
      MonthsGrow(a.year, a.month, 13);
      YearsGrow(a.year, b.year);
    } else if a.year == b.year && a.month < b.month {
      MonthsGrow(a.year, a.month, b.month);
    }
  }

  // ---------- text ----------

  function Digit(n: nat): byte
    requires n < 10
  {
    48 + n as byte
  }

  function Digits(n: nat): bytes {
    if n < 10 then [Digit(n)] else Digits(n / 10) + [Digit(n % 10)]
  }

  /** A year in the layout `2006`: at least four digits. */
  function YearText(year: nat): bytes {
    if year < 10000 then
      [Digit(year / 1000), Digit(year / 100 % 10), Digit(year / 10 % 10), Digit(year % 10)]
    else Digits(year)
  }

  function TwoDigits(n: nat): (t: bytes)
    requires n < 100
    ensures |t| == 2
  {
    [Digit(n / 10), Digit(n % 10)]
  }

  /** `Format("2006-01-02")`. */
  function Text(d: Date): bytes
    requires d.month < 100 && d.day < 100
  {
    YearText(d.year) + [DASH] + TwoDigits(d.month) + [DASH] + TwoDigits(d.day)
  }

  predicate IsDigit(b: byte) {
    48 <= b <= 57
  }

  predicate AllDigits(t: bytes) {
    forall i | 0 <= i < |t| :: IsDigit(t[i])
  }

  function Value(t: bytes): nat
    requires AllDigits(t)
  {
    if t == [] then 0 else Value(t[..|t| - 1]) * 10 + (t[|t| - 1] as int - 48)
  }

  /** The regular expression `^\d{4}-\d{2}-\d{2}$`. */
  predicate Matches(s: bytes) {
    && |s| == 10 && s[4] == DASH && s[7] == DASH
    && AllDigits(s[..4]) && AllDigits(s[5..7]) && AllDigits(s[8..10])
  }

  /** The date a matching string spells, real or not. */
  function Spelled(s: bytes): Date
    requires Matches(s)
  {
    Date(Value(s[..4]), Value(s[5..7]), Value(s[8..10]))
  }

  lemma TwoDigitsValue(t: bytes)
    requires |t| == 2 && AllDigits(t)
    ensures Value(t) < 100 && TwoDigits(Value(t)) == t
  {
    assert t[..1][..0] == [] && t[..1] == [t[0]];
    assert Value(t[..1]) == t[0] as int - 48;
  }

  lemma YearTextValue(t: bytes)
    requires |t| == 4 && AllDigits(t)
    ensures Value(t) < 10000 && YearText(Value(t)) == t
  {
    hide YearText;
    assert t[..3][..2] == t[..2] && t[..2][..1] == t[..1] && t[..1][..0] == [];
    assert Value(t[..0]) == 0;
    assert Value(t[..1]) == t[0] as int - 48;
    assert Value(t[..2]) == Value(t[..1]) * 10 + (t[1] as int - 48);
    assert Value(t[..3]) == Value(t[..2]) * 10 + (t[2] as int - 48);
    FourDigits(t[0] as int - 48, t[1] as int - 48, t[2] as int - 48, t[3] as int - 48);
  }

  lemma FourDigits(a: nat, b: nat, c: nat, d: nat)
    requires a < 10 && b < 10 && c < 10 && d < 10
    ensures var n := ((a * 10 + b) * 10 + c) * 10 + d;
            n < 10000 && YearText(n) == [Digit(a), Digit(b), Digit(c), Digit(d)]
  {
    var n := ((a * 10 + b) * 10 + c) * 10 + d;
    assert n / 10 == (a * 10 + b) * 10 + c && n % 10 == d;
    assert n / 100 == n / 10 / 10 == a * 10 + b;
    assert n / 1000 == n / 100 / 10 == a;
  }

  /** Reading and writing a ten-byte date are inverse. */
  lemma TextOfSpelled(s: bytes)
    requires Matches(s)
    ensures Spelled(s).year < 10000 && Spelled(s).month < 100 && Spelled(s).day < 100 && Text(Spelled(s)) == s
  {
    YearTextValue(s[..4]);
    TwoDigitsValue(s[5..7]);
    TwoDigitsValue(s[8..10]);
    assert s == s[..4] + [DASH] + s[5..7] + [DASH] + s[8..10];
  }

  lemma TextParts(d: Date)
    requires d.year < 10000 && d.month < 100 && d.day < 100
    ensures |Text(d)| == 10 && Text(d)[..4] == YearText(d.year) && Text(d)[5..7] == TwoDigits(d.month)
    ensures Text(d)[8..10] == TwoDigits(d.day) && Text(d)[4] == DASH && Text(d)[7] == DASH
  {
    hide TwoDigits;
    var y := YearText(d.year);
    assert |y| == 4;
    hide YearText;
    var s := Text(d);
    assert s == y + [DASH] + TwoDigits(d.month) + [DASH] + TwoDigits(d.day);
    assert s[..4] == y;
    assert s[5..7] == TwoDigits(d.month);
    assert s[8..10] == TwoDigits(d.day);
  }

  /** The text of a year of any length reads as that year. */
  lemma YearTextReads(year: nat)
    ensures |YearText(year)| >= 4 && AllDigits(YearText(year)) && Value(YearText(year)) == year
  {
    DigitsRead(year);
    if year < 10000 {
      YearDigits(year);
      var t := YearText(year);
      assert t == [t[0], t[1], t[2], t[3]];
      YearTextValue(t);
      YearTextInjective(year, Value(t));
    } else {
      DigitsLong(year, 4);
    }
  }

  lemma {:induction false} DigitsRead(n: nat)
    ensures AllDigits(Digits(n)) && Value(Digits(n)) == n
  {
    var t := Digits(n);
    if n < 10 {
      assert t[..0] == [];
    } else {
      DigitsRead(n / 10);
      assert t[..|t| - 1] == Digits(n / 10);
    }
  }

  lemma {:induction false} DigitsLong(n: nat, k: nat)
    requires 1 <= k <= 4 && n >= (if k == 1 then 0 else if k == 2 then 10 else if k == 3 then 100 else 1000)
    ensures |Digits(n)| >= k
  {
    if k > 1 {
      DigitsLong(n / 10, k - 1);
    }
  }

  lemma TwoDigitsLess(m: nat, n: nat, pre: bytes, x: bytes, y: bytes)
    requires m < n < 100
    ensures Less(pre + TwoDigits(m) + x, pre + TwoDigits(n) + y)
  {
    var a, b := pre + TwoDigits(m) + x, pre + TwoDigits(n) + y;
    var i := |pre| + if m / 10 < n / 10 then 0 else 1;
    assert a[..|pre|] == pre && b[..|pre|] == pre;
    assert a[|pre|] == Digit(m / 10) && b[|pre|] == Digit(n / 10);
    assert a[|pre| + 1] == Digit(m % 10) && b[|pre| + 1] == Digit(n % 10);
    LessAt(a, b, i);
  }

  lemma YearTextLess(m: nat, n: nat, x: bytes, y: bytes)
    requires m < n < 10000
    ensures Less(YearText(m) + x, YearText(n) + y)
  {
    var a, b := YearText(m) + x, YearText(n) + y;
    YearDigits(m);
    YearDigits(n);
    var (p, q) := (YearText(m), YearText(n));
    var i := if p[0] != q[0] then 0 else if p[1] != q[1] then 1 else if p[2] != q[2] then 2 else 3;
    assert p[i] < q[i];
    assert a[i] == p[i] && b[i] == q[i] && a[..i] == p[..i] && b[..i] == q[..i];
    assert p[..i] == q[..i];
    LessAt(a, b, i);
  }

  /** A four-digit number is the sum of its digits' places. */
  lemma YearDigits(n: nat)
    requires n < 10000
    ensures var t := YearText(n);
            && |t| == 4 && IsDigit(t[0]) && IsDigit(t[1]) && IsDigit(t[2]) && IsDigit(t[3])
            && n == 1000 * (t[0] as int - 48) + 100 * (t[1] as int - 48) + 10 * (t[2] as int - 48) + (t[3] as int - 48)
  {
    assert n / 100 == n / 10 / 10 && n / 1000 == n / 100 / 10;
  }

  /** On four-digit years the order of the strings is the order of the dates. */
  lemma TextOrders(a: Date, b: Date)
    requires Real(a) && Real(b) && a.year < 10000 && b.year < 10000
    ensures Before(a, b) <==> Less(Text(a), Text(b))
  {
    BeforeLess(a, b);
    BeforeLess(b, a);
    if !Before(a, b) && !Before(b, a) {
      LessTotal(Text(a), Text(b));
    }
    LessIrreflexive(Text(a), Text(b));
  }

  lemma {:induction false} LessIrreflexive(a: bytes, b: bytes)
    ensures !(Less(a, b) && Less(b, a))
    ensures !Less(a, a)
    decreases |a|
  {
    if a != [] {
      LessIrreflexive(a[1..], if b == [] then [] else b[1..]);
    }
  }

  lemma BeforeLess(a: Date, b: Date)
    requires Real(a) && Real(b) && a.year < 10000 && b.year < 10000
    ensures Before(a, b) ==> Less(Text(a), Text(b))
  {
    var (ya, yb) := (YearText(a.year) + [DASH], YearText(b.year) + [DASH]);
    if a.year < b.year {
      var x := [DASH] + TwoDigits(a.month) + [DASH] + TwoDigits(a.day);
      var y := [DASH] + TwoDigits(b.month) + [DASH] + TwoDigits(b.day);
      YearTextLess(a.year, b.year, x, y);
      assert Text(a) == YearText(a.year) + x && Text(b) == YearText(b.year) + y;
    } else if a.year == b.year && a.month < b.month {
      var (x, y) := ([DASH] + TwoDigits(a.day), [DASH] + TwoDigits(b.day));
      TwoDigitsLess(a.month, b.month, ya, x, y);
      assert Text(a) == ya + TwoDigits(a.month) + x && Text(b) == yb + TwoDigits(b.month) + y;
    } else if a.year == b.year && a.month == b.month && a.day < b.day {
      var pre := ya + TwoDigits(a.month) + [DASH];
      TwoDigitsLess(a.day, b.day, pre, [], []);
      assert Text(a) == pre + TwoDigits(a.day) + [] && Text(b) == pre + TwoDigits(b.day) + [];
    }
  }

  // ---------- U16ToDate ----------

  /** The date a packed code stands for: three bits of year offset, four of month, five of day. */
  function Coded(baseYear: nat, packed: u16): Date {
    Date(baseYear + packed / 0x200 % 8, packed / 0x20 % 16 + 1, packed % 0x20 + 1)
  }

  datatype DateError = InvalidPackedDate

  function U16ToDate(baseYear: nat, packed: u16): Result<bytes, DateError> {
    var yearOffset := packed / 0x200 % 8;
    var month := packed / 0x20 % 16 + 1;
    var day := packed % 0x20 + 1;
    var t := Normalize(baseYear + yearOffset, month, day);
    if t.month != month || t.day != day then Err(InvalidPackedDate)
    else Ok(Text(t))
  }

  /** A code is accepted exactly when it stands for a date of the calendar, and yields that date. */
  lemma PackedDateExact(baseYear: nat, packed: u16)
    ensures U16ToDate(baseYear, packed).Ok? <==> Real(Coded(baseYear, packed))
    ensures Real(Coded(baseYear, packed)) ==> U16ToDate(baseYear, packed) == Ok(Text(Coded(baseYear, packed)))
    ensures U16ToDate(baseYear, packed).Ok? <==>
            var d := Coded(baseYear, packed);
            d.month <= 12 && d.day <= MonthStart(d.year, d.month + 1) - MonthStart(d.year, d.month)
  {
    hide Normalize, DayNumber, Text, MonthStart, DaysIn;
    var d := Coded(baseYear, packed);
    CarriedIff(d.year, d.month, d.day);
    CalendarFormula(d);
  }

  /** A month and a day that fit the packed code come out of the carry unchanged exactly when they form a date. */
  lemma CarriedIff(year: nat, month: nat, day: nat)
    requires 1 <= month <= 16 && 1 <= day <= 32
    ensures var t := Normalize(year, month, day);
            && Real(t)
            && (t.month == month && t.day == day <==> Real(Date(year, month, day)))
            && (Real(Date(year, month, day)) ==> t == Date(year, month, day))
  {
    hide DayNumber, IsLeap;
    NormalizeKeepsDay(year, month, day);
  }

  /** Accepted codes are ordered, by their low twelve bits, as the strings they yield. */
  lemma PackedDatesOrdered(baseYear: nat, p: u16, q: u16)
    requires baseYear + 7 < 10000
    ensures var (a, b) := (U16ToDate(baseYear, p), U16ToDate(baseYear, q));
            a.Ok? && b.Ok? ==>
              && (p % 0x1000 < q % 0x1000 <==> Less(a.value, b.value))
              && (p % 0x1000 == q % 0x1000 <==> a == b)
  {
    hide U16ToDate, Real, Text, Less;
    PackedDateExact(baseYear, p);
    PackedDateExact(baseYear, q);
    var (a, b) := (Coded(baseYear, p), Coded(baseYear, q));
    if Real(a) && Real(b) {
      CodesOrdered(baseYear, p, q);
      CodesOrdered(baseYear, q, p);
      TextOrders(a, b);
      TextOrders(b, a);
      LessIrreflexive(Text(a), Text(a));
    }
  }

  lemma CodesOrdered(baseYear: nat, p: u16, q: u16)
    ensures p % 0x1000 < q % 0x1000 <==> Before(Coded(baseYear, p), Coded(baseYear, q))
    ensures p % 0x1000 == q % 0x1000 <==> Coded(baseYear, p) == Coded(baseYear, q)
  {
    LowBits(p);
    LowBits(q);
  }

  lemma LowBits(p: u16)
    ensures p % 0x1000 == p / 0x200 % 8 * 0x200 + p / 0x20 % 16 * 0x20 + p % 0x20
  {
    assert p / 0x200 == p / 0x20 / 16;
    assert p / 0x1000 == p / 0x200 / 8;
  }

  // ---------- ValidateDate ----------

  datatype DateFault = BadFormat | NotADate | InThePast | BeyondOneYear

  /** A date of the calendar, spelled in full, from today to one year on. */
  predicate Accepted(date: bytes, today: Date)
    requires Real(today)
  {
    && Matches(date) && Real(Spelled(date))
    && !Before(Spelled(date), today)
    && !Before(Normalize(today.year + 1, today.month, today.day), Spelled(date))
  }

  /** On the scale of day numbers, where a date lies before today or beyond the limit; it never does both. */
  lemma FaultsExclude(d: Date, today: Date)
    requires Real(d) && Real(today)
    ensures var limit := Normalize(today.year + 1, today.month, today.day);
            && (Before(d, today) <==> Number(d) < Number(today))
            && (Before(limit, d) <==> DayNumber(today.year + 1, today.month, today.day) < Number(d))
            && Number(today) < DayNumber(today.year + 1, today.month, today.day)
  {
    NormalizeKeepsDay(today.year + 1, today.month, today.day);
    var limit := Normalize(today.year + 1, today.month, today.day);
    LimitInDays(today);
    hide Normalize, DayNumber, Real;
    NumberOrders(d, today);
    NumberOrders(limit, d);
  }

  /** The faults found in `date`, on the day `today` of a clock in UTC. */
  method ValidateDate(date: bytes, today: Date) returns (errs: seq<DateFault>)
    requires Real(today)
    ensures errs == [] <==> Accepted(date, today)
    ensures !Matches(date) ==> errs == [BadFormat]
    ensures Matches(date) && !Real(Spelled(date)) ==> errs == [NotADate]
    ensures Matches(date) && Real(Spelled(date)) ==>
              var (number, last) := (Number(Spelled(date)), DayNumber(today.year + 1, today.month, today.day));
              && (errs == [InThePast] <==> number < Number(today))
              && (errs == [BeyondOneYear] <==> number > last)
  {
    hide Matches, Normalize, DayNumber;
    errs := [];
    if !Matches(date) {
      errs := errs + [BadFormat];
    } else {
      var parsed := Spelled(date);
      if !Real(parsed) {
        errs := errs + [NotADate];
      } else {
        if Before(parsed, today) {
          errs := errs + [InThePast];
        }
        var oneYearFromNow := Normalize(today.year + 1, today.month, today.day);
        FaultsExclude(parsed, today);
        if Before(oneYearFromNow, parsed) {
          errs := errs + [BeyondOneYear];
        }
        assert errs != [] ==> errs[0] == if Before(parsed, today) then InThePast else BeyondOneYear;
      }
    }
  }

  /** The dates among `dates` that are not accepted, in order. */
  ghost function Rejected(dates: seq<bytes>, today: Date): seq<bytes>
    requires Real(today)
  {
    if dates == [] then [] else
    var (before, last) := (Rejected(dates[..|dates| - 1], today), dates[|dates| - 1]);
    if Accepted(last, today) then before else before + [last]
  }

  datatype DateReport = DateReport(date: bytes, faults: seq<DateFault>)

  /** Every date that is not accepted is reported with its faults, in order, and no other. */
  method ValidateDates(dates: seq<bytes>, today: Date) returns (errs: seq<DateReport>)
    requires Real(today)
    ensures |errs| == |Rejected(dates, today)|
    ensures forall i | 0 <= i < |errs| :: errs[i].date == Rejected(dates, today)[i] && errs[i].faults != []
  {
    errs := [];
    for i := 0 to |dates|
      invariant |errs| == |Rejected(dates[..i], today)|
      invariant forall j | 0 <= j < |errs| :: errs[j].date == Rejected(dates[..i], today)[j] && errs[j].faults != []
    {
      var faults := ValidateDate(dates[i], today);
      assert dates[..i + 1][..i] == dates[..i];
      if faults != [] {
        errs := errs + [DateReport(dates[i], faults)];
      }
    }
    assert dates[..|dates|] == dates;
  }

  lemma {:induction false} NoneRejected(dates: seq<bytes>, today: Date)
    requires Real(today)
    ensures Rejected(dates, today) == [] <==> forall i | 0 <= i < |dates| :: Accepted(dates[i], today)
  {
    if dates != [] {
      var before := dates[..|dates| - 1];
      NoneRejected(before, today);
      assert forall i | 0 <= i < |before| :: dates[i] == before[i];
    }
  }

  // ---------- the two together ----------

  /** The code of a date, which `Coded` undoes. */
  function Pack(baseYear: nat, d: Date): u16
    requires Real(d) && baseYear <= d.year < baseYear + 8
  {
    (d.year - baseYear) * 0x200 + (d.month - 1) * 0x20 + (d.day - 1)
  }

  lemma PackRoundTrip(baseYear: nat, d: Date)
    requires Real(d) && baseYear <= d.year < baseYear + 8
    ensures Pack(baseYear, d) < 0x1000 && Coded(baseYear, Pack(baseYear, d)) == d
    ensures U16ToDate(baseYear, Pack(baseYear, d)) == Ok(Text(d))
  {
    var p := Pack(baseYear, d);
    BitsOf(d.year - baseYear, d.month - 1, d.day - 1);
    PackedDateExact(baseYear, p);
  }

  lemma BitsOf(y: nat, m: nat, d: nat)
    requires y < 8 && m < 16 && d < 32
    ensures var p := y * 0x200 + m * 0x20 + d;
            p < 0x1000 && p / 0x200 % 8 == y && p / 0x20 % 16 == m && p % 0x20 == d
  {
  }

  /** One year on is the same day, except that 29 February becomes 1 March. */
  lemma OneYearOn(today: Date)
    requires Real(today)
    ensures Normalize(today.year + 1, today.month, today.day)
         == if today.month == 2 && today.day == 29 then Date(today.year + 1, 3, 1)
            else Date(today.year + 1, today.month, today.day)
  {
  }

  /** That is 366 days on, not 365, exactly when there is a 29 February from today up to the day before. */
  lemma LimitInDays(today: Date)
    requires Real(today)
    ensures Real(Normalize(today.year + 1, today.month, today.day))
    ensures var leapYear := if today.month <= 2 then today.year else today.year + 1;
            Number(Normalize(today.year + 1, today.month, today.day))
            == Number(today) + if IsLeap(leapYear) then 366 else 365
  {
    NormalizeKeepsDay(today.year + 1, today.month, today.day);
    YearLength(today.year);
    MonthsAlike(today.year, today.year + 1, today.month);
  }

  /** Two years' months differ by the leap day alone. */
  lemma {:induction false} MonthsAlike(a: nat, b: nat, month: nat)
    requires 1 <= month <= 13
    ensures var leaps := if month <= 2 then 0 else (if IsLeap(b) then 1 else 0) - (if IsLeap(a) then 1 else 0);
            DaysBeforeMonth(b, month) == DaysBeforeMonth(a, month) + leaps
  {
    if month > 1 {
      MonthsAlike(a, b, month - 1);
    }
  }

  /** Every accepted date is at most one year on, packs, and is unpacked to the very same string. */
  lemma AcceptedDatesPack(date: bytes, today: Date)
    requires Real(today) && Accepted(date, today)
    ensures var d := Spelled(date);
            && today.year <= d.year <= today.year + 1
            && U16ToDate(today.year, Pack(today.year, d)) == Ok(date)
  {
    OneYearOn(today);
    TextOfSpelled(date);
    PackRoundTrip(today.year, Spelled(date));
  }

  /** On 29 February the last accepted date is 1 March of the next year. */
  lemma LeapDayLimit(year: nat, date: bytes)
    requires IsLeap(year) && year < 9999
    ensures Accepted(Text(Date(year + 1, 3, 1)), Date(year, 2, 29))
    ensures Accepted(date, Date(year, 2, 29)) ==> AtMost(date, Text(Date(year + 1, 3, 1)))
  {
    var (today, limit) := (Date(year, 2, 29), Date(year + 1, 3, 1));
    OneYearOn(today);
    SpelledOfText(limit);
    if Accepted(date, today) {
      TextOfSpelled(date);
      TextOrders(limit, Spelled(date));
    }
  }

  lemma SpelledOfText(d: Date)
    requires d.year < 10000 && d.month < 100 && d.day < 100
    ensures Matches(Text(d)) && Spelled(Text(d)) == d
  {
    var s := Text(d);
    TextParts(d);
    assert Matches(s);
    TextOfSpelled(s);
    assert YearText(Value(s[..4])) == s[..4] by { YearTextValue(s[..4]); }
    assert TwoDigits(Value(s[5..7])) == s[5..7] by { TwoDigitsValue(s[5..7]); }
    assert TwoDigits(Value(s[8..10])) == s[8..10] by { TwoDigitsValue(s[8..10]); }
    YearTextInjective(d.year, Value(s[..4]));
  }

  lemma YearTextInjective(a: nat, b: nat)
    requires a < 10000 && b < 10000 && YearText(a) == YearText(b)
    ensures a == b
  {
    YearDigits(a);
    YearDigits(b);
  }
}
