/** Stored timestamps (src/db/datetime.ts), in the calendar of ECMAScript dates. */
module DateTime {
  // Times to fixed-width text and back, in the proleptic Gregorian calendar.
  import opened Base

  const MS_PER_DAY: int := 86_400_000

  // ---------------------------------------------------------------------
  // Calendar
  // ---------------------------------------------------------------------

  predicate Leap(y: int) {
    y % 4 == 0 && (y % 100 != 0 || y % 400 == 0)
  }

  /** The day, counted from 1970-01-01, on which year y begins. */
  function DayFromYear(y: int): int {
    365 * (y - 1970) + (y - 1969) / 4 - (y - 1901) / 100 + (y - 1601) / 400
  }

  lemma YearLength(y: int)
    ensures DayFromYear(y + 1) == DayFromYear(y) + if Leap(y) then 366 else 365
  {
    EveryFourth(y);
    EveryHundredth(y);
    EveryFourHundredth(y);
  }

  lemma EveryFourth(y: int)
    ensures (y - 1968) / 4 - (y - 1969) / 4 == if y % 4 == 0 then 1 else 0
  {
  }

  lemma EveryHundredth(y: int)
    ensures (y - 1900) / 100 - (y - 1901) / 100 == if y % 100 == 0 then 1 else 0
    ensures y % 100 == 0 ==> y % 4 == 0
  {
  }

  lemma EveryFourHundredth(y: int)
    ensures (y - 1600) / 400 - (y - 1601) / 400 == if y % 400 == 0 then 1 else 0
    ensures y % 400 == 0 ==> y % 100 == 0
  {
  }

  function YearUp(day: int, y: int): (r: int)
    requires DayFromYear(y) <= day
    ensures DayFromYear(r) <= day < DayFromYear(r + 1)
    decreases day - DayFromYear(y)
  {
    YearLength(y);
    if day < DayFromYear(y + 1) then y else YearUp(day, y + 1)
  }

  function YearDown(day: int, y: int): (r: int)
    requires day < DayFromYear(y + 1)
    ensures DayFromYear(r) <= day < DayFromYear(r + 1)
    decreases DayFromYear(y + 1) - day
  {
    YearLength(y);
    if DayFromYear(y) <= day then y else YearDown(day, y - 1)
  }

  function YearOf(day: int): (r: int)
    ensures DayFromYear(r) <= day < DayFromYear(r + 1)
  {
    if day >= 0 then YearUp(day, 1970) else YearDown(day, 1969)
  }

  /** Days of the year before month m (1..12); 13 gives the whole year. */
  function MonthStart(leap: bool, m: int): int
    requires 1 <= m <= 13
  {
    [0, 31, 59, 90, 120, 151, 181, 212, 243, 273, 304, 334, 365][m - 1] + if leap && m > 2 then 1 else 0
  }

  function MonthOf(leap: bool, dayOfYear: int): (m: int)
    requires 0 <= dayOfYear < if leap then 366 else 365
    ensures 1 <= m <= 12 && MonthStart(leap, m) <= dayOfYear < MonthStart(leap, m + 1)
  {
    if dayOfYear < MonthStart(leap, 2) then 1
    else if dayOfYear < MonthStart(leap, 3) then 2
    else if dayOfYear < MonthStart(leap, 4) then 3
    else if dayOfYear < MonthStart(leap, 5) then 4
    else if dayOfYear < MonthStart(leap, 6) then 5
    else if dayOfYear < MonthStart(leap, 7) then 6
    else if dayOfYear < MonthStart(leap, 8) then 7
    else if dayOfYear < MonthStart(leap, 9) then 8
    else if dayOfYear < MonthStart(leap, 10) then 9
    else if dayOfYear < MonthStart(leap, 11) then 10
    else if dayOfYear < MonthStart(leap, 12) then 11
    else 12
  }

  datatype Fields = Fields(year: int, month: int, day: int, hour: int, minute: int, second: int, ms: int)

  predicate ValidFields(f: Fields) {
    && 1 <= f.month <= 12 && 1 <= f.day <= 31
    && 0 <= f.hour < 24 && 0 <= f.minute < 60 && 0 <= f.second < 60 && 0 <= f.ms < 1000
  }

  function DayNumber(f: Fields): int
    requires 1 <= f.month <= 12
  {
    DayFromYear(f.year) + MonthStart(Leap(f.year), f.month) + f.day - 1
  }

  function ClockMs(f: Fields): int {
    f.hour * 3_600_000 + f.minute * 60_000 + f.second * 1000 + f.ms
  }

  function MakeTime(f: Fields): int
    requires 1 <= f.month <= 12
  {
    DayNumber(f) * MS_PER_DAY + ClockMs(f)
  }

  lemma MonthLength(leap: bool, m: int)
    requires 1 <= m <= 12
    ensures 28 <= MonthStart(leap, m + 1) - MonthStart(leap, m) <= 31
  {
  }

  /** The triple is a calendar date with this day number. */
  predicate IsDate(day: int, r: (int, int, int)) {
    && 1 <= r.1 <= 12
    && 1 <= r.2 <= MonthStart(Leap(r.0), r.1 + 1) - MonthStart(Leap(r.0), r.1)
    && DayFromYear(r.0) + MonthStart(Leap(r.0), r.1) + r.2 - 1 == day
  }

  /** Year, month and day of the month of a day number. */
  function DateOf(day: int): (r: (int, int, int))
    ensures IsDate(day, r)
  {
    var y := YearOf(day);
    YearLength(y);
    var m := MonthOf(Leap(y), day - DayFromYear(y));
    (y, m, day - DayFromYear(y) - MonthStart(Leap(y), m) + 1)
  }

  /** The UTC fields of a time value in milliseconds. */
  function FieldsOf(t: int): (f: Fields)
    ensures ValidFields(f)
    ensures (f.year, f.month, f.day) == DateOf(t / MS_PER_DAY)
  {
    var (y, m, d) := DateOf(t / MS_PER_DAY);
    MonthLength(Leap(y), m);
    var rest := t % MS_PER_DAY;
    Fields(y, m, d, rest / 3_600_000, rest / 60_000 % 60, rest / 1000 % 60, rest % 1000)
  }

  lemma ClockParts(rest: int)
    requires 0 <= rest < MS_PER_DAY
    ensures rest / 3_600_000 * 3_600_000 + rest / 60_000 % 60 * 60_000 + rest / 1000 % 60 * 1000 + rest % 1000 == rest
  {
    var s := rest / 1000;
    var m := s / 60;
    assert rest / 60_000 == m && rest / 3_600_000 == m / 60;
  }

  /** The fields determine the time. */
  lemma FieldsAreExact(t: int)
    ensures MakeTime(FieldsOf(t)) == t
  {
    ClockParts(t % MS_PER_DAY);
  }

  // ---------------------------------------------------------------------
  // Text
  // ---------------------------------------------------------------------

  function Pow10(w: nat): (p: nat)
    ensures p > 0
  {
    if w == 0 then 1 else 10 * Pow10(w - 1)
  }

  function Digit(n: nat): char
    requires n < 10
  {
    '0' + n as char
  }

  /** The last w decimal digits of n. */
  function Pad(n: nat, w: nat): (r: string)
    ensures |r| == w
    ensures forall i | 0 <= i < |r| :: '0' <= r[i] <= '9'
  {
    if w == 0 then "" else Pad(n / 10, w - 1) + [Digit(n % 10)]
  }

  predicate InRange(t: int) {
    0 <= FieldsOf(t).year <= 9999
  }

  /** Years outside 0..9999 get a sign and six digits. */
  function YearText(y: int): string {
    if 0 <= y <= 9999 then Pad(y, 4) else if y < 0 then "-" + Pad(-y, 6) else "+" + Pad(y, 6)
  }

  function DateText(f: Fields): string
    requires ValidFields(f)
  {
    YearText(f.year) + ("-" + (Pad(f.month, 2) + ("-" + Pad(f.day, 2))))
  }

  function ClockText(f: Fields): (r: string)
    requires ValidFields(f)
    ensures |r| == 12
  {
    Pad(f.hour, 2) + (":" + (Pad(f.minute, 2) + (":" + (Pad(f.second, 2) + ("." + Pad(f.ms, 3))))))
  }

  /** `Date.toISOString`. */
  function ToIso(t: int): (iso: string)
    ensures |iso| >= 24
  {
    var f := FieldsOf(t);
    DateText(f) + "T" + ClockText(f) + "Z"
  }

  function ToDb(t: int): string {
    var iso := ToIso(t);
    iso[..10] + " " + iso[11..23] + "000"
  }

  /** What the slices leave, for a four-digit year. */
  lemma ToDbText(t: int)
    requires InRange(t)
    ensures ToDb(t) == DateText(FieldsOf(t)) + (" " + (ClockText(FieldsOf(t)) + "000"))
    ensures |DateText(FieldsOf(t))| == 10
  {
  }

  // ---------------------------------------------------------------------
  // Order
  // ---------------------------------------------------------------------

  /** The database's text order: by character code, a proper prefix first. */
  predicate TextLess(a: string, b: string)
  {
    if b == "" then false
    else if a == "" then true
    else a[0] < b[0] || (a[0] == b[0] && TextLess(a[1..], b[1..]))
  }

  lemma {:induction false} LessConcat(a: string, b: string, x: string, y: string)
    requires |a| == |b|
    ensures TextLess(a + x, b + y) <==> TextLess(a, b) || (a == b && TextLess(x, y))
  {
    if a == "" {
      assert a + x == x && b + y == y;
    } else {
      assert (a + x)[1..] == a[1..] + x && (b + y)[1..] == b[1..] + y;
      assert a == [a[0]] + a[1..] && b == [b[0]] + b[1..];
      LessConcat(a[1..], b[1..], x, y);
    }
  }

  lemma LessAfterSame(p: string, x: string, y: string)
    ensures TextLess(p + x, p + y) <==> TextLess(x, y)
  {
    LessConcat(p, p, x, y);
    NotLessItself(p);
  }

  lemma {:induction false} NotLessItself(p: string)
    ensures !TextLess(p, p)
  {
    if p != "" { NotLessItself(p[1..]); }
  }

  /** Zero-padded numbers of one width are ordered as numbers. */
  lemma {:induction false} PadOrder(a: nat, b: nat, w: nat)
    requires a < Pow10(w) && b < Pow10(w)
    ensures TextLess(Pad(a, w), Pad(b, w)) <==> a < b
    ensures Pad(a, w) == Pad(b, w) <==> a == b
  {
    if w > 0 {
      PadOrder(a / 10, b / 10, w - 1);
      var x, y := [Digit(a % 10)], [Digit(b % 10)];
      LessConcat(Pad(a / 10, w - 1), Pad(b / 10, w - 1), x, y);
      assert Pad(a, w)[..w - 1] == Pad(a / 10, w - 1) && Pad(b, w)[..w - 1] == Pad(b / 10, w - 1);
      assert Pad(a, w)[w - 1] == x[0] && Pad(b, w)[w - 1] == y[0];
      assert x[1..] == "" && y[1..] == "";
    }
  }

  /** One numeric field in front of equally long rests. */
  lemma FieldOrder(a: nat, b: nat, w: nat, x: string, y: string)
    requires a < Pow10(w) && b < Pow10(w)
    ensures TextLess(Pad(a, w) + x, Pad(b, w) + y) <==> a < b || (a == b && TextLess(x, y))
  {
    LessConcat(Pad(a, w), Pad(b, w), x, y);
    PadOrder(a, b, w);
  }

  predicate DateLess(f: Fields, g: Fields) {
    f.year < g.year || (f.year == g.year && (f.month < g.month || (f.month == g.month && f.day < g.day)))
  }

  predicate SameDate(f: Fields, g: Fields) {
    f.year == g.year && f.month == g.month && f.day == g.day
  }

  predicate ClockLess(f: Fields, g: Fields) {
    f.hour < g.hour || (f.hour == g.hour && (f.minute < g.minute || (f.minute == g.minute &&
      (f.second < g.second || (f.second == g.second && f.ms < g.ms)))))
  }

  lemma DateTextOrder(f: Fields, g: Fields)
    requires ValidFields(f) && ValidFields(g) && 0 <= f.year <= 9999 && 0 <= g.year <= 9999
    ensures TextLess(DateText(f), DateText(g)) <==> DateLess(f, g)
    ensures DateText(f) == DateText(g) <==> SameDate(f, g)
  {
    assert Pow10(4) == 10_000 && Pow10(2) == 100;
    var fd, gd := Pad(f.day, 2), Pad(g.day, 2);
    var fm, gm := Pad(f.month, 2) + ("-" + fd), Pad(g.month, 2) + ("-" + gd);
    FieldOrder(f.year, g.year, 4, "-" + fm, "-" + gm);
    LessAfterSame("-", fm, gm);
    FieldOrder(f.month, g.month, 2, "-" + fd, "-" + gd);
    LessAfterSame("-", fd, gd);
    PadOrder(f.day, g.day, 2);
    DateTextInjective(f, g);
  }

  lemma DateTextInjective(f: Fields, g: Fields)
    requires ValidFields(f) && ValidFields(g) && 0 <= f.year <= 9999 && 0 <= g.year <= 9999
    ensures DateText(f) == DateText(g) <==> SameDate(f, g)
  {
    assert Pow10(4) == 10_000 && Pow10(2) == 100;
    var a, b := DateText(f), DateText(g);
    assert a[..4] == Pad(f.year, 4) && a[5..7] == Pad(f.month, 2) && a[8..10] == Pad(f.day, 2);
    assert b[..4] == Pad(g.year, 4) && b[5..7] == Pad(g.month, 2) && b[8..10] == Pad(g.day, 2);
    PadOrder(f.year, g.year, 4);
    PadOrder(f.month, g.month, 2);
    PadOrder(f.day, g.day, 2);
  }

  lemma ClockTextOrder(f: Fields, g: Fields)
    requires ValidFields(f) && ValidFields(g)
    ensures TextLess(ClockText(f), ClockText(g)) <==> ClockLess(f, g)
  {
    assert Pow10(3) == 1000 && Pow10(2) == 100;
    var fx, gx := Pad(f.ms, 3), Pad(g.ms, 3);
    var fs, gs := Pad(f.second, 2) + ("." + fx), Pad(g.second, 2) + ("." + gx);
    var fm, gm := Pad(f.minute, 2) + (":" + fs), Pad(g.minute, 2) + (":" + gs);
    FieldOrder(f.hour, g.hour, 2, ":" + fm, ":" + gm);
    LessAfterSame(":", fm, gm);
    FieldOrder(f.minute, g.minute, 2, ":" + fs, ":" + gs);
    LessAfterSame(":", fs, gs);
    FieldOrder(f.second, g.second, 2, "." + fx, "." + gx);
    LessAfterSame(".", fx, gx);
    PadOrder(f.ms, g.ms, 3);
  }

  predicate TripleLess(a: (int, int, int), b: (int, int, int)) {
    a.0 < b.0 || (a.0 == b.0 && (a.1 < b.1 || (a.1 == b.1 && a.2 < b.2)))
  }

  lemma DatesAscend(a: int, x: (int, int, int), b: int, y: (int, int, int))
    requires IsDate(a, x) && IsDate(b, y) && a < b
    ensures TripleLess(x, y)
  {
    YearLength(y.0);
    if y.0 < x.0 {
    } else if x.0 == y.0 && y.1 < x.1 {
    }
  }

  /** Later days have later dates. */
  lemma DateOrder(t: int, u: int)
    ensures DateLess(FieldsOf(t), FieldsOf(u)) <==> t / MS_PER_DAY < u / MS_PER_DAY
    ensures SameDate(FieldsOf(t), FieldsOf(u)) <==> t / MS_PER_DAY == u / MS_PER_DAY
  {
    if t / MS_PER_DAY < u / MS_PER_DAY {
      DatesAscend(t / MS_PER_DAY, DateOf(t / MS_PER_DAY), u / MS_PER_DAY, DateOf(u / MS_PER_DAY));
    } else if u / MS_PER_DAY < t / MS_PER_DAY {
      DatesAscend(u / MS_PER_DAY, DateOf(u / MS_PER_DAY), t / MS_PER_DAY, DateOf(t / MS_PER_DAY));
    }
  }

  lemma ClockOrder(t: int, u: int)
    ensures ClockLess(FieldsOf(t), FieldsOf(u)) <==> t % MS_PER_DAY < u % MS_PER_DAY
  {
    ClockParts(t % MS_PER_DAY);
    ClockParts(u % MS_PER_DAY);
  }

  /** Text order of stored timestamps is time order, for years 0 to 9999. */
  lemma StoredOrderIsTimeOrder(t: int, u: int)
    requires InRange(t) && InRange(u)
    ensures TextLess(ToDb(t), ToDb(u)) <==> t < u
  {
    var f, g := FieldsOf(t), FieldsOf(u);
    ToDbText(t);
    ToDbText(u);
    var x, y := ClockText(f) + "000", ClockText(g) + "000";
    LessConcat(DateText(f), DateText(g), " " + x, " " + y);
    LessAfterSame(" ", x, y);
    LessConcat(ClockText(f), ClockText(g), "000", "000");
    NotLessItself("000");
    DateTextOrder(f, g);
    ClockTextOrder(f, g);
    DateOrder(t, u);
    ClockOrder(t, u);
  }

  // ---------------------------------------------------------------------
  // Order outside the four-digit years
  // ---------------------------------------------------------------------

  /** The times a Date can hold. */
  predicate IsTimeValue(t: int) {
    -8_640_000_000_000_000 <= t <= 8_640_000_000_000_000
  }

  lemma YearHasSixDigits(t: int)
    requires IsTimeValue(t)
    ensures -1_000_000 < FieldsOf(t).year < 1_000_000
  {
    var day := t / MS_PER_DAY;
    assert -100_000_000 <= day <= 100_000_000;
    YearNear(YearOf(day), day);
  }

  lemma YearNear(y: int, day: int)
    requires DayFromYear(y) <= day < DayFromYear(y + 1)
    ensures 365 * (y - 1970) - 366 <= day || y < 1970
    ensures day <= 364 * (y - 1970) + 366 || y >= 1970
    ensures -100_000_000 <= day <= 100_000_000 ==> -1_000_000 < y < 1_000_000
  {
  }

  /** The time with its milliseconds dropped. */
  function WholeSecond(t: int): int {
    t / 1000 * 1000
  }

  lemma SecondParts(rest: int)
    requires 0 <= rest < MS_PER_DAY
    ensures var whole := rest / 1000 * 1000;
            && whole / 3_600_000 == rest / 3_600_000 && whole / 60_000 == rest / 60_000
            && whole / 1000 == rest / 1000 && whole % 1000 == 0
  {
    var s := rest / 1000;
    assert rest / 60_000 == s / 60 && s * 1000 / 60_000 == s / 60;
    assert rest / 3_600_000 == s / 3600 && s * 1000 / 3_600_000 == s / 3600;
  }

  lemma WholeSecondOfDay(t: int)
    ensures WholeSecond(t) / MS_PER_DAY == t / MS_PER_DAY
    ensures WholeSecond(t) % MS_PER_DAY == t % MS_PER_DAY / 1000 * 1000
  {
    DayOfSecond(t);
    DayOfSecond(WholeSecond(t));
    assert WholeSecond(t) / 1000 == t / 1000;
  }

  lemma WholeSecondFields(t: int)
    ensures FieldsOf(WholeSecond(t)) == FieldsOf(t).(ms := 0)
  {
    WholeSecondOfDay(t);
    SecondParts(t % MS_PER_DAY);
  }

  /** What the slices leave of a longer text: the day moves behind the blank, and the milliseconds are lost. */
  function LongText(f: Fields): string
    requires ValidFields(f)
  {
    YearText(f.year) + ("-" + (Pad(f.month, 2) + (" " + (Pad(f.day, 2) + ("T" + ClockText(f.(ms := 0)))))))
  }

  lemma LongSlices(year: string, month: string, day: string, seconds: string, ms: string)
    requires |year| == 7 && |month| == 2 && |day| == 2 && |seconds| == 9 && |ms| == 3
    ensures var iso := year + ("-" + (month + ("-" + day))) + "T" + (seconds + ms) + "Z";
            iso[..10] + " " + iso[11..23] == year + ("-" + (month + (" " + (day + ("T" + seconds)))))
  {
    var iso := year + ("-" + (month + ("-" + day))) + "T" + (seconds + ms) + "Z";
    assert iso[..10] == year + ("-" + month);
    assert iso[11..23] == day + ("T" + seconds);
  }

  lemma ClockPieces(f: Fields)
    requires ValidFields(f)
    ensures var seconds := Pad(f.hour, 2) + (":" + (Pad(f.minute, 2) + (":" + (Pad(f.second, 2) + "."))));
            |seconds| == 9 && ClockText(f) == seconds + Pad(f.ms, 3)
  {
  }

  /** The stored text of an ISO text with a signed year, whatever its parts. */
  lemma LongFromIso(year: string, month: string, day: string, seconds: string, ms: string, iso: string)
    requires |year| == 7 && |month| == 2 && |day| == 2 && |seconds| == 9 && |ms| == 3
    requires iso == year + ("-" + (month + ("-" + day))) + "T" + (seconds + ms) + "Z"
    ensures iso[..10] + " " + iso[11..23] + "000"
            == year + ("-" + (month + (" " + (day + ("T" + (seconds + "000"))))))
  {
    LongSlices(year, month, day, seconds, ms);
    assert iso[..10] + " " + iso[11..23] + "000" == year + ("-" + (month + (" " + (day + ("T" + seconds))))) + "000";
  }

  lemma ToDbLong(t: int)
    requires !InRange(t)
    ensures ToDb(t) == LongText(FieldsOf(t))
  {
    var f := FieldsOf(t);
    var seconds := Pad(f.hour, 2) + (":" + (Pad(f.minute, 2) + (":" + (Pad(f.second, 2) + "."))));
    ClockPieces(f);
    ClockPieces(f.(ms := 0));
    assert Pad(0, 3) == "000";
    LongFromIso(YearText(f.year), Pad(f.month, 2), Pad(f.day, 2), seconds, Pad(f.ms, 3), ToIso(t));
  }

  lemma MonthDayOrder(m: nat, d: nat, x: string, n: nat, e: nat, y: string)
    requires m < 100 && n < 100 && d < 100 && e < 100
    ensures TextLess(Pad(m, 2) + (" " + (Pad(d, 2) + ("T" + x))), Pad(n, 2) + (" " + (Pad(e, 2) + ("T" + y))))
       <==> m < n || (m == n && (d < e || (d == e && TextLess(x, y))))
  {
    assert Pow10(2) == 100;
    var a, b := Pad(d, 2) + ("T" + x), Pad(e, 2) + ("T" + y);
    FieldOrder(m, n, 2, " " + a, " " + b);
    LessAfterSame(" ", a, b);
    FieldOrder(d, e, 2, "T" + x, "T" + y);
    LessAfterSame("T", x, y);
  }

  lemma LongTextOrder(f: Fields, g: Fields)
    requires ValidFields(f) && ValidFields(g) && |YearText(f.year)| == |YearText(g.year)|
    ensures TextLess(LongText(f), LongText(g)) <==>
              || TextLess(YearText(f.year), YearText(g.year))
              || (YearText(f.year) == YearText(g.year)
                  && DateClockLess(f.(year := 0, ms := 0), g.(year := 0, ms := 0)))
  {
    var fc, gc := ClockText(f.(ms := 0)), ClockText(g.(ms := 0));
    var fm := Pad(f.month, 2) + (" " + (Pad(f.day, 2) + ("T" + fc)));
    var gm := Pad(g.month, 2) + (" " + (Pad(g.day, 2) + ("T" + gc)));
    LessConcat(YearText(f.year), YearText(g.year), "-" + fm, "-" + gm);
    LessAfterSame("-", fm, gm);
    MonthDayOrder(f.month, f.day, fc, g.month, g.day, gc);
    ClockTextOrder(f.(ms := 0), g.(ms := 0));
  }

  predicate DateClockLess(f: Fields, g: Fields) {
    DateLess(f, g) || (SameDate(f, g) && ClockLess(f, g))
  }

  lemma DateClockOrder(t: int, u: int)
    ensures DateClockLess(FieldsOf(t), FieldsOf(u)) <==> t < u
  {
    DateOrder(t, u);
    ClockOrder(t, u);
  }

  /** Behind a sign, later years have greater texts after 9999 and smaller ones before 0. */
  lemma SignedYearOrder(y: int, z: int)
    requires -1_000_000 < y <= z < 1_000_000 && !(0 <= y <= 9999) && !(0 <= z <= 9999)
    ensures y > 9999 ==> (TextLess(YearText(y), YearText(z)) <==> y < z)
    ensures z < 0 ==> !TextLess(YearText(y), YearText(z))
    ensures y < 0 <= z ==> !TextLess(YearText(y), YearText(z))
    ensures YearText(y) == YearText(z) <==> y == z
  {
    assert Pow10(6) == 1_000_000;
    if y > 9999 {
      LessAfterSame("+", Pad(y, 6), Pad(z, 6));
      PadOrder(y, z, 6);
      assert YearText(y)[1..] == Pad(y, 6) && YearText(z)[1..] == Pad(z, 6);
    } else if z < 0 {
      LessAfterSame("-", Pad(-y, 6), Pad(-z, 6));
      PadOrder(-y, -z, 6);
      assert YearText(y)[1..] == Pad(-y, 6) && YearText(z)[1..] == Pad(-z, 6);
    } else {
      assert YearText(y)[0] == '-' && YearText(z)[0] == '+';
    }
  }

  lemma SecondsWithinYear(t: int, u: int)
    requires FieldsOf(t).year == FieldsOf(u).year
    ensures DateClockLess(FieldsOf(t).(year := 0, ms := 0), FieldsOf(u).(year := 0, ms := 0)) <==> t / 1000 < u / 1000
  {
    WholeSecondFields(t);
    WholeSecondFields(u);
    DateClockOrder(WholeSecond(t), WholeSecond(u));
    SameYearLess(FieldsOf(t).(ms := 0), FieldsOf(u).(ms := 0));
  }

  lemma SameYearLess(f: Fields, g: Fields)
    requires f.year == g.year
    ensures DateClockLess(f, g) <==> DateClockLess(f.(year := 0), g.(year := 0))
  {
  }

  /** A later time has no earlier year, and a later year comes with a later second. */
  lemma LaterIsLater(t: int, u: int)
    requires t < u
    ensures FieldsOf(t).year <= FieldsOf(u).year
    ensures FieldsOf(t).year < FieldsOf(u).year ==> t / 1000 < u / 1000
  {
    DateOrder(t, u);
    DayOfSecond(t);
    DayOfSecond(u);
    assert t / MS_PER_DAY <= u / MS_PER_DAY;
  }

  lemma DayOfSecond(t: int)
    ensures t / MS_PER_DAY == t / 1000 / 86_400
  {
    var second := t / 1000;
    var day := second / 86_400;
    assert day * MS_PER_DAY <= t < (day + 1) * MS_PER_DAY;
  }

  /** Two times outside the four-digit years. */
  lemma LongOrder(t: int, u: int)
    requires IsTimeValue(t) && IsTimeValue(u) && t < u && !InRange(t) && !InRange(u)
    ensures TextLess(ToDb(t), ToDb(u)) <==> OrderSurvives(t, u)
  {
    var f, g := FieldsOf(t), FieldsOf(u);
    ToDbLong(t);
    ToDbLong(u);
    YearHasSixDigits(t);
    YearHasSixDigits(u);
    LaterIsLater(t, u);
    SignedYearOrder(f.year, g.year);
    LongTextOrder(f, g);
    if f.year == g.year {
      SecondsWithinYear(t, u);
    }
  }

  /** A time with a sign against one without: the signs come before every digit. */
  lemma SignedIsLess(t: int, u: int)
    requires !InRange(t) && InRange(u)
    ensures TextLess(ToDb(t), ToDb(u)) && !TextLess(ToDb(u), ToDb(t))
  {
    FirstCharacter(t);
    FirstCharacter(u);
  }

  lemma FirstCharacter(t: int)
    ensures ToDb(t) != "" && if InRange(t) then '0' <= ToDb(t)[0] <= '9' else ToDb(t)[0] in {'+', '-'}
  {
    var year := YearText(FieldsOf(t).year);
    assert ToDb(t)[0] == ToIso(t)[0] == year[0];
  }

  /** The later time has a four-digit year; or they differ by more than milliseconds, after 9999 or within one year. */
  predicate OrderSurvives(t: int, u: int) {
    || InRange(u)
    || (t / 1000 < u / 1000 && (FieldsOf(t).year > 9999 || FieldsOf(t).year == FieldsOf(u).year))
  }

  /** For all times: text order is time order exactly on these pairs. */
  lemma OrderHoldsIff(t: int, u: int)
    requires IsTimeValue(t) && IsTimeValue(u) && t < u
    ensures TextLess(ToDb(t), ToDb(u)) <==> OrderSurvives(t, u)
  {
    DateOrder(t, u);
    if InRange(t) && InRange(u) {
      StoredOrderIsTimeOrder(t, u);
    } else if InRange(t) {
      SignedIsLess(u, t);
    } else if InRange(u) {
      SignedIsLess(t, u);
    } else {
      LongOrder(t, u);
    }
  }

  /** In particular, a four-digit time is ordered rightly against a later one if and only if that one's year has four digits. */
  lemma OrderHoldsIffFourDigits(t: int, u: int)
    requires InRange(t) && t < u
    ensures TextLess(ToDb(t), ToDb(u)) <==> InRange(u)
  {
    if InRange(u) {
      StoredOrderIsTimeOrder(t, u);
    } else {
      SignedIsLess(u, t);
    }
  }

  // ---------------------------------------------------------------------
  // Reading back
  // ---------------------------------------------------------------------

  predicate IsDigit(c: char) {
    '0' <= c <= '9'
  }

  predicate AllDigits(s: string) {
    forall i | 0 <= i < |s| :: IsDigit(s[i])
  }

  function NumberOf(s: string): nat
    requires AllDigits(s)
  {
    if s == "" then 0 else 10 * NumberOf(s[..|s| - 1]) + (s[|s| - 1] - '0') as nat
  }

  lemma {:induction false} NumberOfPad(n: nat, w: nat)
    requires n < Pow10(w)
    ensures AllDigits(Pad(n, w)) && NumberOf(Pad(n, w)) == n
  {
    if w > 0 {
      NumberOfPad(n / 10, w - 1);
      assert Pad(n, w)[..w - 1] == Pad(n / 10, w - 1);
    }
  }

  /** Milliseconds from the fraction digits: the first three, missing ones being zero. */
  function Millis(fraction: string): nat
    requires AllDigits(fraction)
  {
    if |fraction| == 0 then 0
    else if |fraction| == 1 then 100 * NumberOf(fraction)
    else if |fraction| == 2 then 10 * NumberOf(fraction)
    else NumberOf(fraction[..3])
  }

  predicate DateShape(d: string) {
    |d| == 10 && AllDigits(d[..4]) && d[4] == '-' && AllDigits(d[5..7]) && d[7] == '-' && AllDigits(d[8..10])
  }

  predicate ClockShape(c: string) {
    |c| == 8 && AllDigits(c[..2]) && c[2] == ':' && AllDigits(c[3..5]) && c[5] == ':' && AllDigits(c[6..8])
  }

  predicate FractionShape(f: string) {
    f == "" || (|f| > 1 && f[0] == '.' && AllDigits(f[1..]))
  }

  function ReadFields(d: string, c: string, f: string): Fields
    requires DateShape(d) && ClockShape(c) && FractionShape(f)
  {
    Fields(NumberOf(d[..4]), NumberOf(d[5..7]), NumberOf(d[8..10]),
           NumberOf(c[..2]), NumberOf(c[3..5]), NumberOf(c[6..8]),
           if f == "" then 0 else Millis(f[1..]))
  }

  /** `YYYY-MM-DDTHH:MM:SS[.f+]Z` with legal field values; anything else is an invalid date. */
  function ParseIso(s: string): Option<int> {
    if |s| < 20 || s[|s| - 1] != 'Z' || s[10] != 'T' then None
    else
      var date, clock, fraction := s[..10], s[11..19], s[19..|s| - 1];
      if !DateShape(date) || !ClockShape(clock) || !FractionShape(fraction) then None
      else
        var f := ReadFields(date, clock, fraction);
        if ValidFields(f) then Some(MakeTime(f)) else None
  }

  function ReplaceFirst(s: string, from: char, to: char): string {
    if s == "" then ""
    else if s[0] == from then [to] + s[1..]
    else [s[0]] + ReplaceFirst(s[1..], from, to)
  }

  function FromDb(value: string): Option<int> {
    ParseIso(if 'T' in value then value else ReplaceFirst(value, ' ', 'T') + "Z")
  }

  lemma {:induction false} ReplaceAfter(a: string, b: string, from: char, to: char)
    requires from !in a
    ensures ReplaceFirst(a + [from] + b, from, to) == a + [to] + b
  {
    var s := a + [from] + b;
    if a == "" {
      assert s == [from] + b;
    } else {
      assert s[1..] == a[1..] + [from] + b;
      ReplaceAfter(a[1..], b, from, to);
    }
  }

  predicate StampChar(c: char) {
    IsDigit(c) || c == '-' || c == ':' || c == '.'
  }

  predicate StampText(s: string) {
    forall i | 0 <= i < |s| :: StampChar(s[i])
  }

  lemma StampConcat(a: string, b: string)
    requires StampText(a) && StampText(b)
    ensures StampText(a + b)
  {
  }

  lemma PadIsStamp(n: nat, w: nat, c: char, rest: string)
    requires StampChar(c) && StampText(rest)
    ensures StampText(Pad(n, w) + ([c] + rest))
  {
    StampConcat([c], rest);
    StampConcat(Pad(n, w), [c] + rest);
  }

  lemma TextsAreStamps(f: Fields)
    requires ValidFields(f) && 0 <= f.year <= 9999
    ensures StampText(DateText(f)) && StampText(ClockText(f))
  {
    var date, seconds := Pad(f.day, 2), Pad(f.second, 2) + ("." + Pad(f.ms, 3));
    PadIsStamp(f.month, 2, '-', date);
    PadIsStamp(f.year, 4, '-', Pad(f.month, 2) + ("-" + date));
    PadIsStamp(f.second, 2, '.', Pad(f.ms, 3));
    PadIsStamp(f.minute, 2, ':', seconds);
    PadIsStamp(f.hour, 2, ':', Pad(f.minute, 2) + (":" + seconds));
  }

  lemma DateSlices(year: string, month: string, day: string)
    requires |year| == 4 && |month| == 2 && |day| == 2
    ensures var d := year + ("-" + (month + ("-" + day)));
            |d| == 10 && d[..4] == year && d[4] == '-' && d[5..7] == month && d[7] == '-' && d[8..10] == day
  {
  }

  lemma DatePartsRead(year: string, month: string, day: string)
    requires |year| == 4 && |month| == 2 && |day| == 2 && AllDigits(year) && AllDigits(month) && AllDigits(day)
    ensures var d := year + ("-" + (month + ("-" + day)));
            && DateShape(d)
            && NumberOf(d[..4]) == NumberOf(year) && NumberOf(d[5..7]) == NumberOf(month)
            && NumberOf(d[8..10]) == NumberOf(day)
  {
    DateSlices(year, month, day);
  }

  lemma DateReads(f: Fields)
    requires ValidFields(f) && 0 <= f.year <= 9999
    ensures DateShape(DateText(f))
    ensures var d := DateText(f);
            NumberOf(d[..4]) == f.year && NumberOf(d[5..7]) == f.month && NumberOf(d[8..10]) == f.day
  {
    FourDigitsRead(f.year);
    TwoDigitsRead(f.month);
    TwoDigitsRead(f.day);
    DatePartsRead(Pad(f.year, 4), Pad(f.month, 2), Pad(f.day, 2));
  }

  lemma FourDigitsRead(n: nat)
    requires n < 10_000
    ensures AllDigits(Pad(n, 4)) && NumberOf(Pad(n, 4)) == n
  {
    assert Pow10(4) == 10_000;
    NumberOfPad(n, 4);
  }

  lemma TwoDigitsRead(n: nat)
    requires n < 100
    ensures AllDigits(Pad(n, 2)) && NumberOf(Pad(n, 2)) == n
  {
    assert Pow10(2) == 100;
    NumberOfPad(n, 2);
  }

  lemma ClockReads(f: Fields)
    requires ValidFields(f)
    ensures ClockShape(ClockText(f)[..8])
    ensures var c := ClockText(f)[..8];
            NumberOf(c[..2]) == f.hour && NumberOf(c[3..5]) == f.minute && NumberOf(c[6..8]) == f.second
  {
    ClockSlices(Pad(f.hour, 2), Pad(f.minute, 2), Pad(f.second, 2), Pad(f.ms, 3));
    TwoDigitsRead(f.hour);
    TwoDigitsRead(f.minute);
    TwoDigitsRead(f.second);
  }

  lemma ClockSlices(hour: string, minute: string, second: string, ms: string)
    requires |hour| == 2 && |minute| == 2 && |second| == 2 && |ms| == 3
    ensures var c := (hour + (":" + (minute + (":" + (second + ("." + ms))))))[..8];
            c[..2] == hour && c[2] == ':' && c[3..5] == minute && c[5] == ':' && c[6..8] == second
  {
  }

  lemma FractionReads(f: Fields, zeros: string)
    requires ValidFields(f) && AllDigits(zeros)
    ensures var x := ClockText(f)[8..] + zeros; FractionShape(x) && x != "" && Millis(x[1..]) == f.ms
  {
    assert Pow10(3) == 1000;
    var x := ClockText(f)[8..] + zeros;
    assert ClockText(f)[8..] == "." + Pad(f.ms, 3);
    assert x[1..] == Pad(f.ms, 3) + zeros && x[1..][..3] == Pad(f.ms, 3);
    NumberOfPad(f.ms, 3);
  }

  /** Reading a date-clock text of this shape gives back its fields' time. */
  lemma ParseFields(f: Fields, zeros: string)
    requires ValidFields(f) && 0 <= f.year <= 9999 && AllDigits(zeros)
    ensures ParseIso(DateText(f) + "T" + (ClockText(f) + zeros) + "Z") == Some(MakeTime(f))
  {
    DateReads(f);
    ClockReads(f);
    FractionReads(f, zeros);
    Pieces(DateText(f), ClockText(f), zeros);
    var s := DateText(f) + "T" + (ClockText(f) + zeros) + "Z";
    assert ReadFields(s[..10], s[11..19], s[19..|s| - 1]) == f;
  }

  lemma Pieces(date: string, clock: string, zeros: string)
    requires |date| == 10 && |clock| == 12
    ensures var s := date + "T" + (clock + zeros) + "Z";
            && |s| >= 20 && s[|s| - 1] == 'Z' && s[10] == 'T'
            && s[..10] == date && s[11..19] == clock[..8] && s[19..|s| - 1] == clock[8..] + zeros
  {
  }

  /** Stored timestamps read back to the millisecond. */
  lemma StoredTimeReadsBack(t: int)
    requires InRange(t)
    ensures FromDb(ToDb(t)) == Some(t)
  {
    ToDbText(t);
    DbFieldsAreRead(FieldsOf(t));
    FieldsAreExact(t);
  }

  lemma DbFieldsAreRead(f: Fields)
    requires ValidFields(f) && 0 <= f.year <= 9999
    ensures FromDb(DateText(f) + (" " + (ClockText(f) + "000"))) == Some(MakeTime(f))
  {
    TextsAreStamps(f);
    DbTextIsRead(DateText(f), ClockText(f));
    ParseFields(f, "000");
  }

  /** A text in the stored form becomes the ISO form with six digits of fraction. */
  lemma DbTextIsRead(date: string, clock: string)
    requires StampText(date) && StampText(clock)
    ensures FromDb(date + (" " + (clock + "000"))) == ParseIso(date + "T" + (clock + "000") + "Z")
  {
    var rest := clock + "000";
    ReplaceAfter(date, rest, ' ', 'T');
    assert date + (" " + rest) == date + [' '] + rest;
    assert 'T' !in date + (" " + rest);
  }

  /** ISO texts are read as well. */
  lemma IsoReadsBack(t: int)
    requires InRange(t)
    ensures FromDb(ToIso(t)) == Some(t)
  {
    var f := FieldsOf(t);
    assert 'T' in ToIso(t) by {
      assert ToIso(t)[10] == 'T';
    }
    ParseFields(f, "");
    assert ClockText(f) + "" == ClockText(f);
    FieldsAreExact(t);
  }

  /** So a purge of rows whose text is below the cut-off's text takes exactly the rows older than the cut-off. */
  lemma CutOffIsByTime(t: int, cutoff: int)
    requires InRange(t) && InRange(cutoff)
    ensures FromDb(ToDb(t)).Some?
    ensures TextLess(ToDb(t), ToDb(cutoff)) <==> FromDb(ToDb(t)).value < cutoff
  {
    StoredTimeReadsBack(t);
    StoredOrderIsTimeOrder(t, cutoff);
  }
}
