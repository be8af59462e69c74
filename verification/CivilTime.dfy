/** Canonical UTC time stamps (verify-rs/src/lib.rs, verify-rs/src/action.rs): the strict grammar, the
    days-from-civil arithmetic, and the byte order of the normalised form. The two orders agree. */
module CivilTime {
  import opened Bytes

  // ----- decimal digits

  predicate AllDigits(b: Bytes) {
    forall i :: 0 <= i < |b| ==> 48 <= b[i] <= 57
  }

  /** The number a digit string spells. */
  function Number(b: Bytes): nat
    requires AllDigits(b)
  {
    if b == [] then 0 else 10 * Number(b[..|b| - 1]) + (b[|b| - 1] - 48)
  }

  function Power10(n: nat): (p: nat)
    ensures p > 0
  {
    if n == 0 then 1 else 10 * Power10(n - 1)
  }

  lemma {:induction false} NumberBound(b: Bytes)
    requires AllDigits(b)
    ensures Number(b) < Power10(|b|)
  {
    if b != [] {
      NumberBound(b[..|b| - 1]);
    }
  }

  /** Digit strings of one length are ordered, and distinguished, as the numbers they spell. */
  lemma {:induction false} NumberOrder(a: Bytes, b: Bytes)
    requires AllDigits(a) && AllDigits(b) && |a| == |b|
    ensures Less(a, b) <==> Number(a) < Number(b)
    ensures a == b <==> Number(a) == Number(b)
  {
    if a != [] {
      var n := |a| - 1;
      NumberOrder(a[..n], b[..n]);
      assert a == a[..n] + [a[n]] && b == b[..n] + [b[n]];
      if a[..n] == b[..n] {
        LessAfterPrefix(a[..n], [a[n]], [b[n]]);
      } else {
        LessIgnoresSuffix(a[..n], b[..n], [a[n]], [b[n]]);
      }
    }
  }

  function Decimal(b: Bytes): Option<nat> {
    if AllDigits(b) then Some(Number(b)) else None
  }

  // ----- the calendar

  predicate Leap(y: nat) {
    y % 4 == 0 && (y % 100 != 0 || y % 400 == 0)
  }

  function DaysIn(y: nat, m: nat): nat {
    if m == 2 then if Leap(y) then 29 else 28
    else if m in {4, 6, 9, 11} then 30
    else 31
  }

  datatype Date = Date(year: nat, month: nat, day: nat)
  {
    predicate Valid() {
      year > 0 && 1 <= month <= 12 && 0 < day <= DaysIn(year, month)
    }

    predicate Before(other: Date) {
      || year < other.year
      || (year == other.year && (month < other.month || (month == other.month && day < other.day)))
    }

    /** The next calendar day. */
    function Next(): (r: Date)
      requires Valid()
    {
      if day < DaysIn(year, month) then Date(year, month, day + 1)
      else if month < 12 then Date(year, month + 1, 1)
      else Date(year + 1, 1, 1)
    }
  }

  /** Days since 1970-01-01, by the era arithmetic of the source. */
  function DaysFromCivil(y: nat, m: nat, d: nat): int
    requires y > 0 && 1 <= m <= 12
  {
    var years: nat := if m <= 2 then y - 1 else y;
    var era := years / 400;
    var yoe := years - era * 400;
    var doy := (153 * (if m > 2 then m - 3 else m + 9) + 2) / 5 + d - 1;
    var doe := yoe * 365 + yoe / 4 - yoe / 100 + doy;
    era * 146097 + doe - 719468
  }

  /** Days before 1 January of year y, counted year by year from year 1. */
  function DaysBeforeYear(y: nat): nat
    requires y > 0
  {
    if y == 1 then 0 else DaysBeforeYear(y - 1) + if Leap(y - 1) then 366 else 365
  }

  function DaysBeforeMonth(y: nat, m: nat): nat
    requires m > 0
  {
    if m == 1 then 0 else DaysBeforeMonth(y, m - 1) + DaysIn(y, m - 1)
  }

  /** Days since 0001-01-01, counted on the calendar. */
  function DayNumber(date: Date): int
    requires date.year > 0 && date.month > 0
  {
    DaysBeforeYear(date.year) + DaysBeforeMonth(date.year, date.month) + date.day - 1
  }

  lemma {:induction false} YearsClosedForm(y: nat)
    requires y > 0
    ensures DaysBeforeYear(y) == 365 * (y - 1) + (y - 1) / 4 - (y - 1) / 100 + (y - 1) / 400
  {
    if y > 1 {
      YearsClosedForm(y - 1);
      LeapCounts(y - 1);
    }
  }

  lemma {:induction false} LeapCounts(y: nat)
    requires y > 0
    ensures y / 4 - (y - 1) / 4 == if y % 4 == 0 then 1 else 0
    ensures y / 100 - (y - 1) / 100 == if y % 100 == 0 then 1 else 0
    ensures y / 400 - (y - 1) / 400 == if y % 400 == 0 then 1 else 0
    ensures (y % 400 == 0 ==> y % 100 == 0) && (y % 100 == 0 ==> y % 4 == 0)
  {
  }

  lemma {:induction false} MonthTable(y: nat, m: nat)
    requires 1 <= m <= 12
    ensures var leap := if Leap(y) then 1 else 0;
            DaysBeforeMonth(y, m) == [0, 31, 59 + leap, 90 + leap, 120 + leap, 151 + leap, 181 + leap, 212 + leap,
                                      243 + leap, 273 + leap, 304 + leap, 334 + leap][m - 1]
  {
    if m > 1 {
      MonthTable(y, m - 1);
    }
  }

  /** Splitting a year count into eras loses nothing. */
  lemma {:induction false} EraDays(years: nat)
    ensures var era := years / 400;
            var yoe := years - era * 400;
            era * 146097 + yoe * 365 + yoe / 4 - yoe / 100 == years * 365 + years / 4 - years / 100 + years / 400
  {
    var era, yoe := years / 400, years % 400;
    assert years == 400 * era + yoe;
    assert years / 4 == 100 * era + yoe / 4;
    assert years / 100 == 4 * era + yoe / 100;
  }

  /** Days from 1 March to the first of a month, by the rounding rule of the source. */
  lemma {:induction false} MarchTable(m: nat)
    requires 1 <= m <= 12
    ensures (153 * (if m > 2 then m - 3 else m + 9) + 2) / 5 == [306, 337, 0, 31, 61, 92, 122, 153, 184, 214, 245, 275][m - 1]
  {
  }

  /** Counting months from March agrees with counting them from January. */
  lemma {:induction false} MarchYear(y: nat, m: nat)
    requires y > 0 && 1 <= m <= 12
    ensures var shifted := (153 * (if m > 2 then m - 3 else m + 9) + 2) / 5;
            DaysBeforeMonth(y, m) == if m <= 2 then shifted - 306 else shifted + 59 + if Leap(y) then 1 else 0
  {
    hide DaysBeforeMonth;
    MarchTable(m);
    MonthTable(y, m);
  }

  /** The era arithmetic counts calendar days. */
  lemma {:induction false} CivilIsCalendar(date: Date)
    requires date.year > 0 && 1 <= date.month <= 12
    ensures DaysFromCivil(date.year, date.month, date.day) == DayNumber(date) - 719162
  {
    hide DaysBeforeYear, DaysBeforeMonth;
    var Date(y, m, d) := date;
    EraDays(if m <= 2 then y - 1 else y);
    YearsClosedForm(y);
    MarchYear(y, m);
    LeapCounts(y);
  }

  lemma {:induction false} MonthsGrow(y: nat, m: nat, n: nat)
    requires 0 < m < n <= 13
    ensures DaysBeforeMonth(y, m) + DaysIn(y, m) <= DaysBeforeMonth(y, n)
  {
    if m + 1 < n {
      MonthsGrow(y, m, n - 1);
    }
  }

  lemma {:induction false} YearLength(y: nat)
    ensures DaysBeforeMonth(y, 12) + DaysIn(y, 12) == if Leap(y) then 366 else 365
  {
    MonthTable(y, 12);
  }

  lemma {:induction false} YearsGrow(y: nat, z: nat)
    requires 0 < y < z
    ensures DaysBeforeYear(y) + (if Leap(y) then 366 else 365) <= DaysBeforeYear(z)
  {
    if y + 1 < z {
      YearsGrow(y, z - 1);
    }
  }

  /** Each calendar day is exactly one later than the day before, across months, years and leap days. */
  lemma {:induction false} NextDayIsOneLater(date: Date)
    requires date.Valid()
    ensures date.Next().Valid() && DayNumber(date.Next()) == DayNumber(date) + 1
  {
    YearLength(date.year);
    if date.day == DaysIn(date.year, date.month) && date.month == 12 {
      assert DaysBeforeMonth(date.year + 1, 1) == 0;
    }
  }

  /** Calendar order is day order. */
  lemma {:induction false} DaysIncrease(a: Date, b: Date)
    requires a.Valid() && b.Valid() && a.Before(b)
    ensures DayNumber(a) < DayNumber(b)
  {
    if a.year < b.year {
      YearsGrow(a.year, b.year);
      YearLength(a.year);
      if a.month < 12 {
        MonthsGrow(a.year, a.month, 12);
      }
    } else if a.month < b.month {
      MonthsGrow(a.year, a.month, b.month);
    }
  }

  // ----- the grammar

  predicate Separated(b: Bytes)
    requires |b| >= 20
  {
    b[4] == 45 && b[7] == 45 && b[10] == 84 && b[13] == 58 && b[16] == 58 && b[|b| - 1] == 90
  }

  predicate CanonicalUtc(b: Bytes) {
    && (|b| == 20 || 22 <= |b| <= 27)
    && Separated(b)
    && (|b| > 20 ==> b[19] == 46 && Decimal(b[20..|b| - 1]).Some?)
    && AllDigits(b[..4]) && AllDigits(b[5..7]) && AllDigits(b[8..10])
    && AllDigits(b[11..13]) && AllDigits(b[14..16]) && AllDigits(b[17..19])
    && Date(Number(b[..4]), Number(b[5..7]), Number(b[8..10])).Valid()
    && Number(b[11..13]) < 24 && Number(b[14..16]) < 60 && Number(b[17..19]) < 60
  }

  function Zeros(n: nat): (r: Bytes)
    ensures |r| == n && AllDigits(r)
  {
    seq(n, _ => 48)
  }

  /** The fraction, padded on the right to six digits. */
  function Fraction(b: Bytes): (f: Bytes)
    requires CanonicalUtc(b)
    ensures |f| == 6 && AllDigits(f)
  {
    var digits := if |b| > 20 then b[20..|b| - 1] else [];
    digits + Zeros(6 - |digits|)
  }

  function DateOf(b: Bytes): (d: Date)
    requires CanonicalUtc(b)
    ensures d.Valid()
  {
    Date(Number(b[..4]), Number(b[5..7]), Number(b[8..10]))
  }

  function MicrosOfDay(b: Bytes): int
    requires CanonicalUtc(b)
  {
    (Number(b[11..13]) * 3600 + Number(b[14..16]) * 60 + Number(b[17..19])) * 1_000_000 + Number(Fraction(b))
  }

  /** Microseconds since the epoch, as the source computes them. */
  function UtcEpochMicros(b: Bytes): Option<int> {
    if !CanonicalUtc(b) then None
    else
      var d := DateOf(b);
      var seconds := DaysFromCivil(d.year, d.month, d.day) * 86_400
                     + Number(b[11..13]) * 3_600 + Number(b[14..16]) * 60 + Number(b[17..19]);
      Some(seconds * 1_000_000 + Number(Fraction(b)))
  }

  /** The normalised time stamp: the fraction always has six digits. */
  function Nts(b: Bytes): Option<Bytes> {
    if !CanonicalUtc(b) then None else Some(b[..19] + [46] + Fraction(b) + [90])
  }

  lemma {:induction false} Powers10()
    ensures Power10(2) == 100 && Power10(4) == 10_000 && Power10(6) == 1_000_000
  {
    assert Power10(1) == 10 * Power10(0);
    assert Power10(2) == 10 * Power10(1);
    assert Power10(3) == 10 * Power10(2);
    assert Power10(4) == 10 * Power10(3);
    assert Power10(5) == 10 * Power10(4);
    assert Power10(6) == 10 * Power10(5);
  }

  /** The time of day stays within the day, and the whole is days and time of day. */
  lemma {:induction false} EpochSplits(b: Bytes)
    requires CanonicalUtc(b)
    ensures 0 <= MicrosOfDay(b) < 86_400_000_000
    ensures UtcEpochMicros(b) == Some((DayNumber(DateOf(b)) - 719162) * 86_400_000_000 + MicrosOfDay(b))
  {
    hide Number, DayNumber, DaysFromCivil;
    Powers10();
    NumberBound(Fraction(b));
    CivilIsCalendar(DateOf(b));
  }

  /** The same time of day on the next calendar day is exactly 86,400 seconds later, and the count is zero
      at the start of 1970. */
  lemma {:induction false} OneDayApart(a: Bytes, b: Bytes)
    requires CanonicalUtc(a) && CanonicalUtc(b)
    requires DateOf(b) == DateOf(a).Next() && MicrosOfDay(b) == MicrosOfDay(a)
    ensures UtcEpochMicros(b).value == UtcEpochMicros(a).value + 86_400_000_000
    ensures DateOf(a) == Date(1970, 1, 1) ==> UtcEpochMicros(a).value == MicrosOfDay(a)
  {
    hide Number, UtcEpochMicros, MicrosOfDay, DayNumber, Fraction;
    EpochSplits(a);
    EpochSplits(b);
    NextDayIsOneLater(DateOf(a));
    CivilIsCalendar(Date(1970, 1, 1));
  }

  /** Every canonical time stamp fits a signed 64-bit integer. */
  lemma {:induction false} EpochFitsI64(b: Bytes)
    requires CanonicalUtc(b)
    ensures -0x8000_0000_0000_0000 <= UtcEpochMicros(b).value <= 0x7fff_ffff_ffff_ffff
  {
    hide DaysBeforeYear, DaysBeforeMonth, Number;
    EpochSplits(b);
    Powers10();
    NumberBound(b[..4]);
    var d := DateOf(b);
    YearsClosedForm(d.year);
    MonthTable(d.year, d.month);
    assert 0 <= DayNumber(d) < 4_000_000;
  }

  // ----- the two orders

  /** Between strings whose first parts have one length, those decide first. */
  lemma {:induction false} LessByParts(a: Bytes, b: Bytes, s: Bytes, t: Bytes)
    requires |a| == |b|
    ensures Less(a + s, b + t) <==> Less(a, b) || (a == b && Less(s, t))
  {
    if a == b {
      LessAfterPrefix(a, s, t);
      LessIrreflexive(a);
    } else {
      LessIgnoresSuffix(a, b, s, t);
    }
  }

  lemma {:induction false} LessByPartsMore(sep: byte, a: Bytes, b: Bytes, s: Bytes, t: Bytes)
    requires AllDigits(a) && AllDigits(b) && |a| == |b|
    ensures Less(a + [sep] + s, b + [sep] + t) <==> Number(a) < Number(b) || (Number(a) == Number(b) && Less(s, t))
    ensures a + [sep] + s == b + [sep] + t <==> Number(a) == Number(b) && s == t
  {
    hide Less, Number;
    assert a + [sep] + s == a + ([sep] + s) && b + [sep] + t == b + ([sep] + t);
    LessByParts(a, b, [sep] + s, [sep] + t);
    LessAfterPrefix([sep], s, t);
    NumberOrder(a, b);
    if a + [sep] + s == b + [sep] + t {
      assert (a + [sep] + s)[..|a|] == a && (b + [sep] + t)[..|a|] == b;
      assert (a + [sep] + s)[|a| + 1..] == s && (b + [sep] + t)[|a| + 1..] == t;
    }
  }

  /** The normalised form, cut at its separators. */
  function Clock(b: Bytes): Bytes
    requires CanonicalUtc(b)
  {
    b[11..13] + [58] + (b[14..16] + [58] + (b[17..19] + [46] + (Fraction(b) + [90] + [])))
  }

  lemma {:induction false} NtsParts(b: Bytes)
    requires CanonicalUtc(b)
    ensures Nts(b).value == b[..4] + [45] + (b[5..7] + [45] + (b[8..10] + [84] + Clock(b)))
  {
    hide Number, Less, Fraction;
    assert b[..19] == b[..4] + [b[4]] + (b[5..7] + [b[7]] + (b[8..10] + [b[10]]
                      + (b[11..13] + [b[13]] + (b[14..16] + [b[16]] + b[17..19]))));
  }

  lemma {:induction false} ClockOrder(a: Bytes, b: Bytes)
    requires CanonicalUtc(a) && CanonicalUtc(b)
    ensures Less(Clock(a), Clock(b)) <==> MicrosOfDay(a) < MicrosOfDay(b)
    ensures Clock(a) == Clock(b) <==> MicrosOfDay(a) == MicrosOfDay(b)
  {
    hide Number, Less, Fraction;
    var fa, fb := Fraction(a) + [90] + [], Fraction(b) + [90] + [];
    var sa, sb := a[17..19] + [46] + fa, b[17..19] + [46] + fb;
    var ma, mb := a[14..16] + [58] + sa, b[14..16] + [58] + sb;
    LessIrreflexive([]);
    LessByPartsMore(90, Fraction(a), Fraction(b), [], []);
    LessByPartsMore(46, a[17..19], b[17..19], fa, fb);
    LessByPartsMore(58, a[14..16], b[14..16], sa, sb);
    LessByPartsMore(58, a[11..13], b[11..13], ma, mb);
    Powers10();
    NumberBound(Fraction(a));
    NumberBound(Fraction(b));
  }

  /** Byte order of normalised time stamps is the order of the instants they name, and two canonical
      spellings normalise alike exactly when they name one instant. */
  lemma {:induction false} OrdersAgree(a: Bytes, b: Bytes)
    requires CanonicalUtc(a) && CanonicalUtc(b)
    ensures Less(Nts(a).value, Nts(b).value) <==> UtcEpochMicros(a).value < UtcEpochMicros(b).value
    ensures Nts(a) == Nts(b) <==> UtcEpochMicros(a) == UtcEpochMicros(b)
  {
    hide Number, Less, Fraction, Clock, DayNumber, UtcEpochMicros, MicrosOfDay;
    NtsParts(a);
    NtsParts(b);
    var da, db := a[8..10] + [84] + Clock(a), b[8..10] + [84] + Clock(b);
    var ma, mb := a[5..7] + [45] + da, b[5..7] + [45] + db;
    LessByPartsMore(84, a[8..10], b[8..10], Clock(a), Clock(b));
    LessByPartsMore(45, a[5..7], b[5..7], da, db);
    LessByPartsMore(45, a[..4], b[..4], ma, mb);
    ClockOrder(a, b);
    EpochSplits(a);
    EpochSplits(b);
    if DateOf(a).Before(DateOf(b)) {
      DaysIncrease(DateOf(a), DateOf(b));
    } else if DateOf(b).Before(DateOf(a)) {
      DaysIncrease(DateOf(b), DateOf(a));
    }
  }

  // ----- what the grammar admits

  /** The w lowest decimal digits of n. */
  function Pad(n: nat, w: nat): (b: Bytes)
    ensures |b| == w && AllDigits(b)
  {
    if w == 0 then [] else Pad(n / 10, w - 1) + [48 + n % 10]
  }

  lemma {:induction false} PadSpells(n: nat, w: nat)
    requires n < Power10(w)
    ensures Number(Pad(n, w)) == n
  {
    if w > 0 {
      PadSpells(n / 10, w - 1);
      assert Pad(n, w)[..w - 1] == Pad(n / 10, w - 1);
    }
  }

  lemma {:induction false} DigitsArePadded(b: Bytes)
    requires AllDigits(b)
    ensures Number(b) < Power10(|b|) && Pad(Number(b), |b|) == b
  {
    hide Number, Pad, Less;
    NumberBound(b);
    PadSpells(Number(b), |b|);
    NumberOrder(Pad(Number(b), |b|), b);
  }

  /** Three fields and their separator. */
  function Joined(a: Bytes, separator: byte, b: Bytes, c: Bytes): (r: Bytes)
    ensures |r| == |a| + |b| + |c| + 2
    ensures r[..|a|] == a && r[|a|] == separator && r[|a| + 1..|a| + 1 + |b|] == b && r[|a| + 1 + |b|] == separator && r[|a| + |b| + 2..] == c
  {
    a + [separator] + b + [separator] + c
  }

  /** A date, a time of day and the digits of a fraction of a second. */
  datatype Moment = Moment(date: Date, hour: nat, minute: nat, second: nat, fraction: Bytes)
  {
    predicate Valid() {
      date.Valid() && date.year <= 9999 && hour < 24 && minute < 60 && second < 60 && AllDigits(fraction) && |fraction| <= 6
    }

    /** Year, month, day, hour, minute, second, each followed by its separator but the last. */
    function Front(): (b: Bytes)
      ensures |b| == 19
    {
      Joined(Pad(date.year, 4), 45, Pad(date.month, 2), Pad(date.day, 2)) + [84] + Joined(Pad(hour, 2), 58, Pad(minute, 2), Pad(second, 2))
    }

    function Text(): Bytes {
      Front() + (if fraction == [] then [] else [46] + fraction) + [90]
    }

    /** Microseconds since the epoch, counted on the calendar. */
    function Micros(): int
      requires Valid()
    {
      (DayNumber(date) - 719162) * 86_400_000_000 + (hour * 3600 + minute * 60 + second) * 1_000_000
      + Number(fraction + Zeros(6 - |fraction|))
    }
  }

  lemma {:induction false} FrontParts(m: Moment)
    ensures var b := m.Front();
            && b[..4] == Pad(m.date.year, 4) && b[4] == 45 && b[5..7] == Pad(m.date.month, 2) && b[7] == 45
            && b[8..10] == Pad(m.date.day, 2) && b[10] == 84 && b[11..13] == Pad(m.hour, 2) && b[13] == 58
            && b[14..16] == Pad(m.minute, 2) && b[16] == 58 && b[17..19] == Pad(m.second, 2)
  {
    hide Pad, Joined;
    var b, date := m.Front(), Joined(Pad(m.date.year, 4), 45, Pad(m.date.month, 2), Pad(m.date.day, 2));
    var clock := Joined(Pad(m.hour, 2), 58, Pad(m.minute, 2), Pad(m.second, 2));
    assert b[..10] == date && b[11..] == clock;
    assert b[..4] == date[..4] && b[4] == date[4] && b[5..7] == date[5..7] && b[7] == date[7] && b[8..10] == date[8..];
    assert b[11..13] == clock[..2] && b[13] == clock[2] && b[14..16] == clock[3..5] && b[16] == clock[5] && b[17..19] == clock[6..];
  }

  /** The parts of a string that starts with 19 given bytes. */
  lemma {:induction false} SameParts(b: Bytes, front: Bytes)
    requires |front| == 19 && |b| >= 19 && b[..19] == front
    ensures b[..4] == front[..4] && b[5..7] == front[5..7] && b[8..10] == front[8..10]
    ensures b[11..13] == front[11..13] && b[14..16] == front[14..16] && b[17..19] == front[17..19]
    ensures b[4] == front[4] && b[7] == front[7] && b[10] == front[10] && b[13] == front[13] && b[16] == front[16]
  {
    assert b[4] == b[..19][4] && b[7] == b[..19][7] && b[10] == b[..19][10] && b[13] == b[..19][13] && b[16] == b[..19][16];
    assert b[5..7] == b[..19][5..7] && b[8..10] == b[..19][8..10] && b[11..13] == b[..19][11..13];
    assert b[14..16] == b[..19][14..16] && b[17..19] == b[..19][17..19] && b[..4] == b[..19][..4];
  }

  lemma {:induction false} TextParts(m: Moment)
    ensures var b := m.Text();
            && |b| == 20 + (if m.fraction == [] then 0 else 1 + |m.fraction|) && b[..19] == m.Front() && b[|b| - 1] == 90
            && (m.fraction != [] ==> b[19] == 46 && b[20..|b| - 1] == m.fraction)
  {
    hide Pad, Moment.Front;
  }

  lemma {:induction false} NumbersOf(m: Moment)
    requires m.Valid()
    ensures Number(Pad(m.date.year, 4)) == m.date.year && Number(Pad(m.date.month, 2)) == m.date.month && Number(Pad(m.date.day, 2)) == m.date.day
    ensures Number(Pad(m.hour, 2)) == m.hour && Number(Pad(m.minute, 2)) == m.minute && Number(Pad(m.second, 2)) == m.second
  {
    hide Pad, Number, Power10;
    Powers10();
    PadSpells(m.date.year, 4);
    PadSpells(m.date.month, 2);
    PadSpells(m.date.day, 2);
    PadSpells(m.hour, 2);
    PadSpells(m.minute, 2);
    PadSpells(m.second, 2);
  }

  /** Every valid moment spells a canonical stamp, and the source counts it as the calendar does. */
  lemma {:induction false} MomentsAreCanonical(m: Moment)
    requires m.Valid()
    ensures CanonicalUtc(m.Text()) && UtcEpochMicros(m.Text()) == Some(m.Micros())
  {
    hide Pad, Number, Moment.Text, Moment.Front, DayNumber, UtcEpochMicros;
    var b := m.Text();
    TextParts(m);
    FrontParts(m);
    SameParts(b, m.Front());
    NumbersOf(m);
    assert CanonicalUtc(b);
    EpochSplits(b);
    assert Fraction(b) == m.fraction + Zeros(6 - |m.fraction|);
  }

  /** Every canonical stamp spells a valid moment. */
  lemma {:induction false} CanonicalIsMoment(b: Bytes) returns (m: Moment)
    requires CanonicalUtc(b)
    ensures m.Valid() && b == m.Text()
  {
    hide Pad, Number;
    m := Moment(DateOf(b), Number(b[11..13]), Number(b[14..16]), Number(b[17..19]), if |b| > 20 then b[20..|b| - 1] else []);
    Powers10();
    DigitsArePadded(b[..4]);
    DigitsArePadded(b[5..7]);
    DigitsArePadded(b[8..10]);
    DigitsArePadded(b[11..13]);
    DigitsArePadded(b[14..16]);
    DigitsArePadded(b[17..19]);
    assert b[..10] == Joined(b[..4], 45, b[5..7], b[8..10]) && b[11..19] == Joined(b[11..13], 58, b[14..16], b[17..19]);
    assert b[..19] == b[..10] + [84] + b[11..19];
    assert b == b[..19] + (if m.fraction == [] then [] else [46] + m.fraction) + [90];
  }

  /** The canonical stamps are exactly the spellings of valid moments of the years 1 to 9999: two-digit fields,
      no leap second, and a fraction of one to six digits or none at all, never an empty one. */
  lemma {:induction false} CanonicalIff(b: Bytes)
    ensures CanonicalUtc(b) <==> exists m: Moment :: m.Valid() && b == m.Text()
  {
    hide CanonicalUtc, Moment.Text, Moment.Valid;
    if CanonicalUtc(b) {
      var m := CanonicalIsMoment(b);
    }
    forall m: Moment | m.Valid() && b == m.Text() ensures CanonicalUtc(b) {
      MomentsAreCanonical(m);
    }
  }
}
