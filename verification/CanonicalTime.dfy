/**
 * The 19-character datetimes of the rendezvous service and the one shift it applies to them
 * (packages/bootstrap-rendezvous-service/src/sweeper.ts, canonicalMinusMinutes).
 *
 * Times are compared as raw strings. The theorem is that on canonical datetimes this is the comparison
 * of instants, for the proleptic Gregorian calendar of section 21.4.1 of ECMA-262.
 */
module CanonicalTime {
  import opened Common
  import opened CodeUnits

  // ---------------------------------------------------------------- string order

  /** Fixed-width fields are compared one after the other. */
  lemma {:induction false} LessFields(a: Text, x: Text, b: Text, y: Text)
    requires |a| == |b|
    ensures Less(a + x, b + y) <==> Less(a, b) || (a == b && Less(x, y))
  {
    if a == [] {
      assert a + x == x && b + y == y;
    } else {
      assert (a + x)[1..] == a[1..] + x && (b + y)[1..] == b[1..] + y;
      LessFields(a[1..], x, b[1..], y);
      assert a == [a[0]] + a[1..] && b == [b[0]] + b[1..];
    }
  }

  // ---------------------------------------------------------------- the calendar

  predicate Leap(y: int) {
    y % 4 == 0 && (y % 100 != 0 || y % 400 == 0)
  }

  function DaysInYear(y: int): int {
    if Leap(y) then 366 else 365
  }

  /** Day number of the first day of year `y`, counted from 1 January 1970. */
  function DayFromYear(y: int): int {
    365 * (y - 1970) + (y - 1969) / 4 - (y - 1901) / 100 + (y - 1601) / 400
  }

  /** Days of the year before month `m`; month 13 stands for the end of the year. */
  function DaysBefore(m: int, leap: bool): int
    requires 1 <= m <= 13
  {
    var common := [0, 31, 59, 90, 120, 151, 181, 212, 243, 273, 304, 334, 365];
    common[m - 1] + if leap && m > 2 then 1 else 0
  }

  datatype Civil = Civil(year: int, month: int, day: int, hour: int, minute: int, second: int) {
    /**
     * A date that exists, in the years the 19-character form can write, and a time of day; 24:00:00 is the
     * midnight at the end of the day.
     */
    predicate Instant() {
      && 0 <= year <= 9999 && 1 <= month <= 12
      && 1 <= day <= DaysBefore(month + 1, Leap(year)) - DaysBefore(month, Leap(year))
      && 0 <= hour <= 24 && 0 <= minute < 60 && 0 <= second < 60
      && (hour == 24 ==> minute == 0 && second == 0)
    }

    /** The form every clock reading has: that midnight is written as the start of the next day. */
    predicate Real() {
      Instant() && hour < 24
    }

    function Day(): int
      requires Instant()
    {
      DayFromYear(year) + DaysBefore(month, Leap(year)) + day - 1
    }

    function SecondOfDay(): int {
      (hour * 60 + minute) * 60 + second
    }

    /** Seconds since 1970-01-01T00:00:00Z. */
    function Epoch(): int
      requires Instant()
    {
      Day() * 86400 + SecondOfDay()
    }
  }

  lemma Floor4(y: int)
    ensures (y - 1968) / 4 == (y - 1969) / 4 + if y % 4 == 0 then 1 else 0
  {}

  lemma Floor100(y: int)
    ensures (y - 1900) / 100 == (y - 1901) / 100 + if y % 100 == 0 then 1 else 0
  {}

  lemma Floor400(y: int)
    ensures (y - 1600) / 400 == (y - 1601) / 400 + if y % 400 == 0 then 1 else 0
  {}

  lemma YearLength(y: int)
    ensures DayFromYear(y + 1) - DayFromYear(y) == DaysInYear(y)
  {
    Floor4(y);
    Floor100(y);
    Floor400(y);
    LeapDivisors(y);
  }

  lemma LeapDivisors(y: int)
    ensures y % 400 == 0 ==> y % 100 == 0
    ensures y % 100 == 0 ==> y % 4 == 0
  {}

  lemma {:induction false} YearsMonotone(y: int, z: int)
    requires y <= z
    ensures DayFromYear(y) + 365 * (z - y) <= DayFromYear(z)
    decreases z - y
  {
    if y < z {
      YearLength(y);
      YearsMonotone(y + 1, z);
    }
  }

  lemma DaysBeforeMonotone(m: int, n: int, leap: bool)
    requires 1 <= m < n <= 13
    ensures DaysBefore(m, leap) < DaysBefore(m + 1, leap) <= DaysBefore(n, leap)
  {}

  /** The calendar, month by month: which days exist, and that each is the day after the one before. */
  lemma MonthsAre(y: int, m: int)
    requires 1 <= m <= 12
    ensures DaysBefore(1, Leap(y)) == 0
    ensures DaysBefore(m + 1, Leap(y)) - DaysBefore(m, Leap(y)) ==
      if m in {4, 6, 9, 11} then 30 else if m == 2 then (if Leap(y) then 29 else 28) else 31
    ensures DaysBefore(13, Leap(y)) == DayFromYear(y + 1) - DayFromYear(y)
  {
    hide Leap, DayFromYear;
    YearLength(y);
  }

  /** Every fourth year, but of the centuries only every fourth. */
  lemma LeapYearsAre(y: int)
    ensures Leap(y) <==> y % 400 == 0 || (y % 4 == 0 && y % 100 != 0)
  {
    LeapDivisors(y);
  }

  /** The next date is one day later: within a month, ... */
  lemma NextDay(c: Civil)
    requires c.Real() && c.(day := c.day + 1).Real()
    ensures c.(day := c.day + 1).Epoch() == c.Epoch() + 86400
  {
    hide DayFromYear, Leap, DaysBefore;
  }

  /** ... from the last of a month to the first of the next, ... */
  lemma NextMonth(c: Civil)
    requires c.Real() && !c.(day := c.day + 1).Real() && c.month < 12
    ensures var next := c.(month := c.month + 1, day := 1); next.Real() && next.Epoch() == c.Epoch() + 86400
  {
    MonthsAre(c.year, c.month + 1);
    hide DayFromYear, Leap, DaysBefore;
  }

  /** ... and from the last of December to the first of January. */
  lemma NextYear(c: Civil)
    requires c.Real() && !c.(day := c.day + 1).Real() && c.month == 12 && c.year < 9999
    ensures var next := c.(year := c.year + 1, month := 1, day := 1); next.Real() && next.Epoch() == c.Epoch() + 86400
  {
    MonthsAre(c.year, 12);
    MonthsAre(c.year + 1, 1);
    hide DayFromYear, Leap, DaysBefore;
  }

  /** The time of day counts in seconds, and the start of 1970 is zero. */
  lemma SecondsOfDay(c: Civil)
    requires c.Instant()
    ensures c.Epoch() == c.(hour := 0, minute := 0, second := 0).Epoch() + c.hour * 3600 + c.minute * 60 + c.second
    ensures Civil(1970, 1, 1, 0, 0, 0).Real() && Civil(1970, 1, 1, 0, 0, 0).Epoch() == 0
  {
    FirstDay();
    hide DayFromYear, Leap, DaysBefore;
  }

  lemma FirstDay()
    ensures DayFromYear(1970) == 0 && DaysBefore(1, false) == 0 && DaysBefore(2, false) == 31 && !Leap(1970)
  {}

  /** A real date lies in its year. */
  lemma DayInYear(c: Civil)
    requires c.Instant()
    ensures DayFromYear(c.year) <= c.Day() < DayFromYear(c.year + 1)
  {
    YearLength(c.year);
    DaysBeforeMonotone(c.month, 13, Leap(c.year));
  }

  predicate DateBefore(a: Civil, b: Civil) {
    a.year < b.year || (a.year == b.year && (a.month < b.month || (a.month == b.month && a.day < b.day)))
  }

  lemma DaysFollowDates(a: Civil, b: Civil)
    requires a.Instant() && b.Instant() && DateBefore(a, b)
    ensures a.Day() < b.Day()
  {
    if a.year < b.year {
      DayInYear(a);
      DayInYear(b);
      YearsMonotone(a.year + 1, b.year);
    } else if a.month < b.month {
      DaysBeforeMonotone(a.month, b.month, Leap(a.year));
    }
  }

  predicate Before(a: Civil, b: Civil) {
    || DateBefore(a, b)
    || (a.year == b.year && a.month == b.month && a.day == b.day && a.SecondOfDay() < b.SecondOfDay())
  }

  /**
   * The order of the fields is the order of the instants, in both directions, but for one instant written in two
   * ways: the end of a day comes before the start of the next.
   */
  lemma EpochOrder(a: Civil, b: Civil)
    requires a.Instant() && b.Instant()
    ensures Before(a, b) <==> a.Epoch() < b.Epoch() || (a.Epoch() == b.Epoch() && !a.Real() && b.Real())
    ensures a == b <==> a.Epoch() == b.Epoch() && (a.Real() <==> b.Real())
  {
    if DateBefore(a, b) {
      DaysFollowDates(a, b);
    } else if DateBefore(b, a) {
      DaysFollowDates(b, a);
    }
  }

  // ---------------------------------------------------------------- instants back to dates

  /** The last year that starts no later than `day`, looking upwards from `y`. */
  function YearFrom(y: int, day: int): (r: int)
    requires DayFromYear(y) <= day
    ensures y <= r && DayFromYear(r) <= day < DayFromYear(r + 1)
    decreases day - DayFromYear(y)
  {
    YearLength(y);
    if DayFromYear(y + 1) <= day then YearFrom(y + 1, day) else y
  }

  function MonthFrom(m: int, dayOfYear: int, leap: bool): (r: int)
    requires 1 <= m <= 12 && DaysBefore(m, leap) <= dayOfYear < DaysBefore(13, leap)
    ensures 1 <= r <= 12 && DaysBefore(r, leap) <= dayOfYear < DaysBefore(r + 1, leap)
    decreases 12 - m
  {
    if m < 12 && DaysBefore(m + 1, leap) <= dayOfYear then MonthFrom(m + 1, dayOfYear, leap) else m
  }

  const FIRST_EPOCH: int := DayFromYear(0) * 86400
  const END_EPOCH: int := DayFromYear(10000) * 86400

  /** Instants whose UTC date has a four-digit year. */
  predicate Writable(t: int) {
    FIRST_EPOCH <= t < END_EPOCH
  }

  function FromEpoch(t: int): (c: Civil)
    requires Writable(t)
    ensures c.Real() && c.Epoch() == t
  {
    var day, sec := t / 86400, t % 86400;
    var y := YearFrom(0, day);
    assert y <= 9999 by { if y >= 10000 { YearsMonotone(10000, y); } }
    YearLength(y);
    var m := MonthFrom(1, day - DayFromYear(y), Leap(y));
    var c := Civil(y, m, day - DayFromYear(y) - DaysBefore(m, Leap(y)) + 1, sec / 3600, sec / 60 % 60, sec % 60);
    SplitSeconds(sec);
    c
  }

  lemma SplitSeconds(sec: int)
    requires 0 <= sec < 86400
    ensures (sec / 3600 * 60 + sec / 60 % 60) * 60 + sec % 60 == sec && 0 <= sec / 3600 < 24
  {
    assert sec / 3600 == sec / 60 / 60;
  }

  lemma EpochWritable(c: Civil)
    requires c.Real()
    ensures Writable(c.Epoch())
  {
    DayInYear(c);
    YearsMonotone(0, c.year);
    YearsMonotone(c.year + 1, 10000);
  }

  /** Civil dates and writable instants correspond one to one; the other half is FromEpoch's contract. */
  lemma CivilRoundTrip(c: Civil)
    requires c.Real()
    ensures Writable(c.Epoch()) && FromEpoch(c.Epoch()) == c
  {
    EpochWritable(c);
    EpochOrder(FromEpoch(c.Epoch()), c);
  }

  // ---------------------------------------------------------------- the 19-character form

  const ZERO: Unit := '0' as int
  const DASH: Unit := '-' as int
  const COLON: Unit := ':' as int
  const TEE: Unit := 'T' as int

  function Digit(n: int): Unit
    requires 0 <= n < 10
  {
    ZERO + n
  }

  function Two(n: int): (s: Text)
    requires 0 <= n < 100
    ensures |s| == 2
  {
    [Digit(n / 10), Digit(n % 10)]
  }

  function Four(n: int): (s: Text)
    requires 0 <= n < 10000
    ensures |s| == 4
  {
    Two(n / 100) + Two(n % 100)
  }

  function FormatTime(c: Civil): Text
    requires c.Instant()
  {
    Two(c.hour) + ([COLON] + (Two(c.minute) + ([COLON] + Two(c.second))))
  }

  /** `YYYY-MM-DDTHH:MM:SS`, what `toISOString().slice(0, 19)` writes. */
  function Format(c: Civil): (s: Text)
    requires c.Instant()
    ensures |s| == 19
  {
    YearMonthDayBounds(c);
    Four(c.year) + ([DASH] + (Two(c.month) + ([DASH] + (Two(c.day) + ([TEE] + FormatTime(c))))))
  }

  lemma YearMonthDayBounds(c: Civil)
    requires c.Instant()
    ensures c.day <= 31
  {}

  predicate IsDigit(u: Unit) {
    ZERO <= u <= ZERO + 9
  }

  /** The pattern every datetime is checked against (packages/vote-engine/src/bootstrap/bootstrap-transport.ts). */
  predicate IsCanonical(s: Text) {
    && |s| == 19
    && (forall i :: i in [0, 1, 2, 3, 5, 6, 8, 9, 11, 12, 14, 15, 17, 18] ==> IsDigit(s[i]))
    && s[4] == DASH && s[7] == DASH && s[10] == TEE && s[13] == COLON && s[16] == COLON
  }

  function Value2(s: Text, i: nat): int
    requires i + 2 <= |s|
  {
    (s[i] - ZERO) * 10 + (s[i + 1] - ZERO)
  }

  function Parse(s: Text): Civil
    requires IsCanonical(s)
  {
    Civil(Value2(s, 0) * 100 + Value2(s, 2), Value2(s, 5), Value2(s, 8), Value2(s, 11), Value2(s, 14), Value2(s, 17))
  }

  /** A canonical datetime that names an instant. */
  predicate IsInstant(s: Text) {
    IsCanonical(s) && Parse(s).Instant()
  }

  /** One as a clock reading writes it. */
  predicate IsReal(s: Text) {
    IsCanonical(s) && Parse(s).Real()
  }

  lemma FormatPositions(c: Civil)
    requires c.Instant()
    ensures c.day <= 31
    ensures Format(c) == Two(c.year / 100) + Two(c.year % 100) + [DASH] + Two(c.month) + [DASH] + Two(c.day) + [TEE]
                       + Two(c.hour) + [COLON] + Two(c.minute) + [COLON] + Two(c.second)
  {}

  lemma FieldAt(s: Text, i: nat, n: int)
    requires i + 2 <= |s| && 0 <= n < 100 && s[i..i + 2] == Two(n)
    ensures Value2(s, i) == n && IsDigit(s[i]) && IsDigit(s[i + 1])
  {
    assert s[i] == Two(n)[0] && s[i + 1] == Two(n)[1];
  }

  /** Where the fields and separators of the text are. */
  lemma Pieces(a: Text, b: Text, c: Text, d: Text, e: Text, f: Text, g: Text, s: Text)
    requires |a| == |b| == |c| == |d| == |e| == |f| == |g| == 2
    requires s == a + b + [DASH] + c + [DASH] + d + [TEE] + e + [COLON] + f + [COLON] + g
    ensures |s| == 19 && s[4] == DASH && s[7] == DASH && s[10] == TEE && s[13] == COLON && s[16] == COLON
    ensures s[0..2] == a && s[2..4] == b && s[5..7] == c && s[8..10] == d
    ensures s[11..13] == e && s[14..16] == f && s[17..19] == g
  {
    assert s[5] == c[0] && s[6] == c[1] && s[8] == d[0] && s[9] == d[1] && s[11] == e[0] && s[12] == e[1];
    assert s[14] == f[0] && s[15] == f[1] && s[17] == g[0] && s[18] == g[1];
  }

  lemma ParseFormat(c: Civil)
    requires c.Instant()
    ensures IsCanonical(Format(c)) && Parse(Format(c)) == c
  {
    hide Format, Value2, IsDigit, Two;
    FormatPositions(c);
    var s := Format(c);
    Pieces(Two(c.year / 100), Two(c.year % 100), Two(c.month), Two(c.day), Two(c.hour), Two(c.minute), Two(c.second), s);
    FieldAt(s, 0, c.year / 100);
    FieldAt(s, 2, c.year % 100);
    FieldAt(s, 5, c.month);
    FieldAt(s, 8, c.day);
    FieldAt(s, 11, c.hour);
    FieldAt(s, 14, c.minute);
    FieldAt(s, 17, c.second);
  }

  lemma TwoValue(s: Text, i: nat)
    requires i + 2 <= |s| && IsDigit(s[i]) && IsDigit(s[i + 1])
    ensures 0 <= Value2(s, i) < 100 && Two(Value2(s, i)) == s[i..i + 2]
  {}

  lemma CanonicalPieces(s: Text)
    requires IsCanonical(s)
    ensures s == s[0..2] + s[2..4] + [DASH] + s[5..7] + [DASH] + s[8..10] + [TEE] + s[11..13] + [COLON] + s[14..16] + [COLON] + s[17..19]
  {}

  lemma ParseYear(s: Text)
    requires IsInstant(s)
    ensures Two(Parse(s).year / 100) == s[0..2] && Two(Parse(s).year % 100) == s[2..4]
  {
    hide Two, Value2;
    TwoValue(s, 0);
    TwoValue(s, 2);
  }

  lemma ParseFields(s: Text)
    requires IsInstant(s)
    ensures var c := Parse(s);
      && Two(c.year / 100) == s[0..2] && Two(c.year % 100) == s[2..4] && Two(c.month) == s[5..7]
      && Two(c.day) == s[8..10] && Two(c.hour) == s[11..13] && Two(c.minute) == s[14..16] && Two(c.second) == s[17..19]
  {
    hide Two, Value2;
    ParseYear(s);
    TwoValue(s, 5);
    TwoValue(s, 8);
    TwoValue(s, 11);
    TwoValue(s, 14);
    TwoValue(s, 17);
  }

  lemma FormatParse(s: Text)
    requires IsInstant(s)
    ensures Format(Parse(s)) == s
  {
    hide Format, Two, Parse;
    FormatPositions(Parse(s));
    ParseFields(s);
    hide *;
    CanonicalPieces(s);
  }

  // ---------------------------------------------------------------- string order is time order

  lemma TwoOrder(a: int, b: int)
    requires 0 <= a < 100 && 0 <= b < 100
    ensures Less(Two(a), Two(b)) <==> a < b
    ensures Two(a) == Two(b) <==> a == b
  {
    var x, y := Two(a), Two(b);
    assert x[1..] == [Digit(a % 10)] && y[1..] == [Digit(b % 10)];
    assert Less(x[1..], y[1..]) <==> a % 10 < b % 10;
    if x == y { assert x[0] == y[0] && x[1] == y[1]; }
  }

  lemma FourOrder(a: int, b: int)
    requires 0 <= a < 10000 && 0 <= b < 10000
    ensures Less(Four(a), Four(b)) <==> a < b
    ensures Four(a) == Four(b) <==> a == b
  {
    TwoOrder(a / 100, b / 100);
    TwoOrder(a % 100, b % 100);
    LessFields(Two(a / 100), Two(a % 100), Two(b / 100), Two(b % 100));
    if Four(a) == Four(b) {
      assert Two(a / 100) == Four(a)[..2] && Two(b / 100) == Four(b)[..2];
      assert Two(a % 100) == Four(a)[2..] && Two(b % 100) == Four(b)[2..];
    }
  }

  /** A field, a separator and the rest. */
  lemma FieldThen(a: int, sep: Text, x: Text, b: int, y: Text)
    requires 0 <= a < 100 && 0 <= b < 100 && |sep| == 1
    ensures Less(Two(a) + (sep + x), Two(b) + (sep + y)) <==> a < b || (a == b && Less(x, y))
  {
    TwoOrder(a, b);
    LessFields(Two(a), sep + x, Two(b), sep + y);
    LessFields(sep, x, sep, y);
    LessTotal(sep, sep);
  }

  lemma TimeOrder(a: Civil, b: Civil)
    requires a.Instant() && b.Instant()
    ensures Less(FormatTime(a), FormatTime(b)) <==> a.SecondOfDay() < b.SecondOfDay()
  {
    hide Less, Two;
    TwoOrder(a.second, b.second);
    FieldThen(a.minute, [COLON], Two(a.second), b.minute, Two(b.second));
    FieldThen(a.hour, [COLON], Two(a.minute) + ([COLON] + Two(a.second)), b.hour, Two(b.minute) + ([COLON] + Two(b.second)));
  }

  lemma FormatOrder(a: Civil, b: Civil)
    requires a.Instant() && b.Instant()
    ensures Less(Format(a), Format(b)) <==> Before(a, b)
  {
    hide Less, Two, Four, FormatTime;
    YearMonthDayBounds(a);
    YearMonthDayBounds(b);
    TimeOrder(a, b);
    FieldThen(a.day, [TEE], FormatTime(a), b.day, FormatTime(b));
    var x, y := Two(a.day) + ([TEE] + FormatTime(a)), Two(b.day) + ([TEE] + FormatTime(b));
    FieldThen(a.month, [DASH], x, b.month, y);
    var u, w := [DASH] + (Two(a.month) + ([DASH] + x)), [DASH] + (Two(b.month) + ([DASH] + y));
    LessFields([DASH], Two(a.month) + ([DASH] + x), [DASH], Two(b.month) + ([DASH] + y));
    LessTotal([DASH], [DASH]);
    FourOrder(a.year, b.year);
    LessFields(Four(a.year), u, Four(b.year), w);
  }

  /**
   * The raw string comparison is the comparison of instants, for every pair of canonical datetimes, but for one
   * instant written in two ways; against a clock reading `!(a > b)` is exact.
   */
  lemma StringsCompareInstants(a: Text, b: Text)
    requires IsInstant(a) && IsInstant(b)
    ensures Less(a, b) <==>
      Parse(a).Epoch() < Parse(b).Epoch() || (Parse(a).Epoch() == Parse(b).Epoch() && !IsReal(a) && IsReal(b))
    ensures IsReal(b) ==> (AtMost(a, b) <==> Parse(a).Epoch() <= Parse(b).Epoch())
    ensures AtMost(a, b) ==> Parse(a).Epoch() <= Parse(b).Epoch()
    ensures a == b <==> Parse(a).Epoch() == Parse(b).Epoch() && (IsReal(a) <==> IsReal(b))
  {
    FormatParse(a);
    FormatParse(b);
    FormatOrder(Parse(a), Parse(b));
    FormatOrder(Parse(b), Parse(a));
    EpochOrder(Parse(a), Parse(b));
    EpochOrder(Parse(b), Parse(a));
  }

  // ---------------------------------------------------------------- the shift

  const MAX_SAFE_INTEGER: int := 9007199254740991

  /**
   * `canonicalMinusMinutes`. A datetime that fails the pattern, a minute count that is not a non-negative safe
   * integer, and a result outside the years 0000 to 9999 (whose ISO form is longer than 19 characters) throw.
   */
  function CanonicalMinusMinutes(canonical: Text, minutes: int): (r: Result<Text, string>)
  {
    if !IsCanonical(canonical) then Err("canonical")
    else if minutes < 0 || minutes > MAX_SAFE_INTEGER then Err("minutes")
    else if !Parse(canonical).Instant() then Err("instant")
    else
      var t := Parse(canonical).Epoch() - minutes * 60;
      if !Writable(t) then Err("canonical") else Ok(Format(FromEpoch(t)))
  }

  /** The shift answers exactly when the result can be written, and then it is exact and a clock reading. */
  lemma ShiftIsExact(now: Text, minutes: int)
    ensures var r := CanonicalMinusMinutes(now, minutes);
      && (r.Ok? <==>
            IsInstant(now) && 0 <= minutes < 0x20_0000_0000_0000 && Writable(Parse(now).Epoch() - 60 * minutes))
      && (r.Ok? ==> IsReal(r.value) && Parse(r.value).Epoch() == Parse(now).Epoch() - 60 * minutes)
  {
    hide DayFromYear, Format, FromEpoch, DaysBefore, Parse, IsCanonical;
    if IsInstant(now) && Writable(Parse(now).Epoch() - minutes * 60) {
      ParseFormat(FromEpoch(Parse(now).Epoch() - minutes * 60));
    }
  }

  /** From a clock reading the shift fails only by reaching back before the year 0000. */
  lemma ShiftOfReading(now: Text, minutes: nat)
    requires IsReal(now) && minutes <= MAX_SAFE_INTEGER
    ensures CanonicalMinusMinutes(now, minutes).Ok? <==> FIRST_EPOCH <= Parse(now).Epoch() - 60 * minutes
  {
    hide CanonicalMinusMinutes, DayFromYear, DaysBefore;
    ShiftIsExact(now, minutes);
    EpochWritable(Parse(now));
  }

  /** The sweep's stage-2 test: `!(expiresAt > horizon)` iff the expiry is at least the grace window in the past. */
  lemma PastGraceMeansElapsed(expiresAt: Text, now: Text, grace: nat, horizon: Text)
    requires IsInstant(expiresAt) && IsInstant(now) && CanonicalMinusMinutes(now, grace) == Ok(horizon)
    ensures AtMost(expiresAt, horizon) <==> Parse(expiresAt).Epoch() + 60 * grace <= Parse(now).Epoch()
  {
    hide CanonicalMinusMinutes, Less;
    ShiftIsExact(now, grace);
    StringsCompareInstants(expiresAt, horizon);
  }

  /** A later sweep has a later horizon, and no horizon is after the reading it was computed from. */
  lemma HorizonMonotone(now: Text, later: Text, grace: nat, horizon: Text, laterHorizon: Text)
    requires IsInstant(now) && IsInstant(later) && AtMost(now, later)
    requires CanonicalMinusMinutes(now, grace) == Ok(horizon) && CanonicalMinusMinutes(later, grace) == Ok(laterHorizon)
    ensures AtMost(horizon, laterHorizon) && (IsReal(now) ==> AtMost(horizon, now))
  {
    hide CanonicalMinusMinutes, Less;
    ShiftIsExact(now, grace);
    ShiftIsExact(later, grace);
    StringsCompareInstants(now, later);
    StringsCompareInstants(horizon, laterHorizon);
    StringsCompareInstants(horizon, now);
  }

  /** The text of an instant, character by character. */
  lemma TextIs(s: Text)
    requires IsInstant(s)
    ensures |s| == 19 && s[4] == s[7] == '-' as int && s[10] == 'T' as int && s[13] == s[16] == ':' as int
    ensures var c, d := Parse(s), (i: int) => if 0 <= i < |s| then s[i] - '0' as int else 0;
      && c.year == d(0) * 1000 + d(1) * 100 + d(2) * 10 + d(3)
      && c.month == d(5) * 10 + d(6) && c.day == d(8) * 10 + d(9)
      && c.hour == d(11) * 10 + d(12) && c.minute == d(14) * 10 + d(15) && c.second == d(17) * 10 + d(18)
  {}

  /** A shift back over the end of February in a leap year. */
  lemma LeapDayShift(now: Text)
    requires IsCanonical(now) && Parse(now) == Civil(2024, 3, 1, 0, 5, 0)
    ensures var r := CanonicalMinusMinutes(now, 10);
      r.Ok? && IsReal(r.value) && Parse(r.value) == Civil(2024, 2, 29, 23, 55, 0)
  {
    hide CanonicalMinusMinutes, Parse, IsCanonical;
    var past := Civil(2024, 2, 29, 23, 55, 0);
    EpochWritable(past);
    ShiftIsExact(now, 10);
    assert Parse(now).Epoch() - 600 == past.Epoch();
    EpochOrder(Parse(CanonicalMinusMinutes(now, 10).value), past);
  }
}
