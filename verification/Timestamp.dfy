/**
 The text of the build timestamp: printing, reading back and ordering
 `YYYY-MM-DDTHH:MM:SSZ` (the `date-time` of section 5.6 of RFC 3339).
 */
module Timestamp {
  import opened Wrappers
  import opened Calendar
  import opened Text

  const SECS_PER_DAY := 86_400
  /** 0000-01-01T00:00:00Z and 9999-12-31T23:59:59Z. */
  const FIRST_SECOND := -62_167_219_200
  const LAST_SECOND := 253_402_300_799

  // ----- Instants and their fields -----

  datatype Moment = Moment(date: Date, hour: int, minute: int, second: int)

  predicate ValidMoment(m: Moment) {
    ValidDate(m.date) && 0 <= m.hour < 24 && 0 <= m.minute < 60 && 0 <= m.second < 60
  }

  /** The fields `format_rfc3339_utc` computes; `div_euclid` and `rem_euclid` are Dafny's `/` and `%`. */
  function Fields(unixSecs: int): Moment {
    var secsOfDay := unixSecs % SECS_PER_DAY;
    Moment(CivilFromDays(unixSecs / SECS_PER_DAY), secsOfDay / 3_600, secsOfDay % 3_600 / 60, secsOfDay % 60)
  }

  /** Seconds since 1970-01-01T00:00:00Z, counted on the reference calendar. */
  function Seconds(m: Moment): int {
    DaysFromCivil(m.date) * SECS_PER_DAY + m.hour * 3_600 + m.minute * 60 + m.second
  }

  predicate Before(a: Moment, b: Moment) {
    || Earlier(a.date, b.date)
    || (a.date == b.date && (a.hour < b.hour || (a.hour == b.hour &&
       (a.minute < b.minute || (a.minute == b.minute && a.second < b.second)))))
  }

  predicate FourDigitYear(secs: int) {
    FIRST_SECOND <= secs <= LAST_SECOND
  }

  lemma ClockSplit(sod: int)
    requires 0 <= sod < SECS_PER_DAY
    ensures sod == sod / 3_600 * 3_600 + sod % 3_600 / 60 * 60 + sod % 60
    ensures sod / 3_600 < 24 && sod % 3_600 / 60 < 60
  {
    assert sod % 60 == sod % 3_600 % 60;
  }

  lemma ClockJoin(n: int, h: int, m: int, s: int)
    requires 0 <= h < 24 && 0 <= m < 60 && 0 <= s < 60
    ensures var secs := n * SECS_PER_DAY + h * 3_600 + m * 60 + s;
            var sod := secs % SECS_PER_DAY;
            secs / SECS_PER_DAY == n && sod / 3_600 == h && sod % 3_600 / 60 == m && sod % 60 == s
  {
    var sod := h * 3_600 + m * 60 + s;
    assert 0 <= sod < SECS_PER_DAY;
    assert (n * SECS_PER_DAY + sod) / SECS_PER_DAY == n && (n * SECS_PER_DAY + sod) % SECS_PER_DAY == sod;
  }

  lemma FieldsOfSeconds(secs: int)
    ensures ValidMoment(Fields(secs))
    ensures Seconds(Fields(secs)) == secs
  {
    CivilFromDaysIsDate(secs / SECS_PER_DAY);
    ClockSplit(secs % SECS_PER_DAY);
  }

  lemma FieldsAt(d: Date, n: int, h: int, m: int, s: int)
    requires ValidDate(d) && DaysFromCivil(d) == n
    requires 0 <= h < 24 && 0 <= m < 60 && 0 <= s < 60
    ensures Fields(n * SECS_PER_DAY + h * 3_600 + m * 60 + s) == Moment(d, h, m, s)
  {
    ClockJoin(n, h, m, s);
    CivilFromDaysInverts(d, n);
  }

  lemma SecondsOfFields(m: Moment, secs: int)
    requires ValidMoment(m) && secs == Seconds(m)
    ensures Fields(secs) == m
  {
    var n := DaysFromCivil(m.date);
    FieldsAt(m.date, n, m.hour, m.minute, m.second);
  }

  lemma SecondsAreOrdered(a: Moment, b: Moment)
    requires ValidMoment(a) && ValidMoment(b) && Before(a, b)
    ensures Seconds(a) < Seconds(b)
  {
    if Earlier(a.date, b.date) { DaysAreOrdered(a.date, b.date); }
  }

  lemma FirstDay(d: Date)
    requires d == Date(0, 1, 1)
    ensures DaysFromCivil(d) == -719_528
  {
    YearClosedForm(d.year);
    MonthTable(d.year, d.month);
  }

  lemma LastDay(d: Date)
    requires d == Date(9_999, 12, 31)
    ensures DaysFromCivil(d) == 2_932_896
  {
    YearClosedForm(d.year);
    MonthTable(d.year, d.month);
  }

  lemma YearRange(d: Date)
    requires ValidDate(d)
    ensures -719_528 <= DaysFromCivil(d) <= 2_932_896 <==> 0 <= d.year <= 9_999
  {
    var first, last := Date(0, 1, 1), Date(9_999, 12, 31);
    FirstDay(first);
    LastDay(last);
    if d.year < 0 {
      DaysAreOrdered(d, first);
    } else if d.year > 9_999 {
      DaysAreOrdered(last, d);
    } else {
      if d != first { DaysAreOrdered(first, d); }
      if d != last { DaysAreOrdered(d, last); }
    }
  }

  lemma MomentRange(m: Moment)
    requires ValidMoment(m)
    ensures FourDigitYear(Seconds(m)) <==> 0 <= m.date.year <= 9_999
  {
    YearRange(m.date);
  }

  // ----- Printing, as Rust's `{:02}` and `{:04}` do -----

  function Decimal(n: nat): string {
    if n < 10 then [Digit(n)] else Decimal(n / 10) + [Digit(n % 10)]
  }

  function Zeros(k: int): string
    decreases k
  {
    if k <= 0 then "" else "0" + Zeros(k - 1)
  }

  /** Zero padding to `width` columns; a minus sign takes one of them. */
  function ZeroPad(n: int, width: int): string {
    if n < 0 then "-" + Zeros(width - 1 - |Decimal(-n)|) + Decimal(-n)
    else Zeros(width - |Decimal(n)|) + Decimal(n)
  }

  function Columns(a: string, b: string, c: string, sep: string): string {
    a + sep + b + sep + c
  }

  function Print(m: Moment): string {
    Columns(ZeroPad(m.date.year, 4), ZeroPad(m.date.month, 2), ZeroPad(m.date.day, 2), "-")
    + "T" + Columns(ZeroPad(m.hour, 2), ZeroPad(m.minute, 2), ZeroPad(m.second, 2), ":") + "Z"
  }

  function Format(unixSecs: int): string {
    Print(Fields(unixSecs))
  }

  // ----- Reading back -----

  predicate DigitsAt(t: string, i: nat) {
    i + 2 <= |t| && '0' <= t[i] <= '9' && '0' <= t[i + 1] <= '9'
  }

  /** The two-digit number at `i`. */
  function TwoAt(t: string, i: nat): int
    requires i + 2 <= |t|
  {
    10 * (t[i] as int - '0' as int) + (t[i + 1] as int - '0' as int)
  }

  /** Twenty characters with digits and separators in their places. */
  predicate Shape(t: string) {
    && |t| == 20
    && DigitsAt(t, 0) && DigitsAt(t, 2) && t[4] == '-'
    && DigitsAt(t, 5) && t[7] == '-'
    && DigitsAt(t, 8) && t[10] == 'T'
    && DigitsAt(t, 11) && t[13] == ':'
    && DigitsAt(t, 14) && t[16] == ':'
    && DigitsAt(t, 17) && t[19] == 'Z'
  }

  function MomentOf(t: string): Moment
    requires Shape(t)
  {
    Moment(Date(100 * TwoAt(t, 0) + TwoAt(t, 2), TwoAt(t, 5), TwoAt(t, 8)), TwoAt(t, 11), TwoAt(t, 14), TwoAt(t, 17))
  }

  /** A date-time whose fields are in range; seconds end at 59, as leap seconds are never printed. */
  function Read(t: string): Option<Moment> {
    if Shape(t) && ValidMoment(MomentOf(t)) then Some(MomentOf(t)) else None
  }

  function Parse(t: string): Option<int> {
    match Read(t)
    case None => None
    case Some(m) => Some(Seconds(m))
  }

  // ----- Columns of digits -----

  lemma DecimalTwo(n: int)
    requires 0 <= n < 100
    ensures |Decimal(n)| == if n < 10 then 1 else 2
    ensures n >= 10 ==> Decimal(n) == [Digit(n / 10), Digit(n % 10)]
  {
    if n >= 10 { assert Decimal(n) == Decimal(n / 10) + [Digit(n % 10)]; }
  }

  lemma PadTwo(n: int)
    requires 0 <= n < 100
    ensures ZeroPad(n, 2) == [Digit(n / 10), Digit(n % 10)]
  {
    DecimalTwo(n);
    assert Zeros(1) == "0" + Zeros(0);
  }

  /** A negative year: the sign takes one of the four columns, and a long one is not cut. */
  lemma PadNegative(n: int)
    requires n > 0
    ensures n < 1_000 ==> ZeroPad(-n, 4) == ['-', Digit(n / 100), Digit(n / 10 % 10), Digit(n % 10)]
    ensures n >= 1_000 ==> ZeroPad(-n, 4) == ['-'] + Decimal(n) && |Decimal(n)| >= 4
  {
    if n < 100 {
      PadNegativeTwo(n);
    } else if n < 1_000 {
      PadNegativeThree(n);
    } else {
      PadNegativeLong(n);
    }
  }

  lemma PadNegativeThree(n: int)
    requires 100 <= n < 1_000
    ensures ZeroPad(-n, 4) == ['-', Digit(n / 100), Digit(n / 10 % 10), Digit(n % 10)]
  {
    DecimalThree(n);
    assert Zeros(0) == "";
  }

  lemma PadNegativeLong(n: int)
    requires n >= 1_000
    ensures ZeroPad(-n, 4) == ['-'] + Decimal(n) && |Decimal(n)| >= 4
  {
    DecimalHundreds(n);
    DecimalLength(n / 100);
    assert Zeros(3 - |Decimal(n)|) == "";
  }

  lemma PadNegativeTwo(n: int)
    requires 0 < n < 100
    ensures ZeroPad(-n, 4) == ['-', Digit(n / 100), Digit(n / 10 % 10), Digit(n % 10)]
  {
    assert n / 100 == 0 && n / 10 % 10 == n / 10;
    DecimalTwo(n);
    assert Zeros(1) == "0" + Zeros(0) && Zeros(2) == "0" + Zeros(1);
  }

  lemma TenTimesTen(n: int)
    ensures n / 10 / 10 == n / 100
  {
  }

  lemma DecimalThree(n: int)
    requires 100 <= n < 1_000
    ensures Decimal(n) == [Digit(n / 100), Digit(n / 10 % 10), Digit(n % 10)]
  {
    DecimalTwo(n / 10);
    TenTimesTen(n);
  }

  lemma DecimalLength(n: nat)
    requires n >= 10
    ensures |Decimal(n)| >= 2
  {
  }

  lemma DecimalHundreds(n: int)
    requires n >= 100
    ensures Decimal(n) == Decimal(n / 100) + [Digit(n % 100 / 10), Digit(n % 100 % 10)]
  {
    assert n / 10 / 10 == n / 100 && n / 10 % 10 == n % 100 / 10 && n % 10 == n % 100 % 10;
    assert Decimal(n) == Decimal(n / 10 / 10) + [Digit(n / 10 % 10)] + [Digit(n % 10)];
  }

  lemma PadFour(n: int)
    requires 0 <= n < 10_000
    ensures ZeroPad(n, 4) == ZeroPad(n / 100, 2) + ZeroPad(n % 100, 2)
  {
    PadTwo(n % 100);
    if n >= 100 {
      DecimalHundreds(n);
    } else {
      DecimalTwo(n);
      PadTwo(0);
      var k := 2 - |Decimal(n)|;
      assert Zeros(k + 2) == "0" + ("0" + Zeros(k));
    }
  }

  lemma TwoDigits(n: int)
    requires 0 <= n < 100
    ensures |ZeroPad(n, 2)| == 2 && DigitsAt(ZeroPad(n, 2), 0) && TwoAt(ZeroPad(n, 2), 0) == n
  {
    PadTwo(n);
  }

  lemma LongYear(n: int)
    requires n > 9_999
    ensures |ZeroPad(n, 4)| >= 5
  {
    DecimalHundreds(n);
    DecimalHundreds(n / 100);
  }

  /** Where the columns of a text of known column widths are. */
  lemma ColumnPlaces(a: string, b: string, c: string, sep: string)
    requires |b| == |c| == 2 && |sep| == 1
    ensures var t := Columns(a, b, c, sep);
            && |t| == |a| + 6 && t[..|a|] == a && t[|a|] == sep[0]
            && t[|a| + 1..|a| + 3] == b && t[|a| + 3] == sep[0] && t[|a| + 4..] == c
  {
  }

  lemma TwoInside(t: string, i: nat, n: int)
    requires 0 <= n < 100 && i + 2 <= |t| && t[i..i + 2] == ZeroPad(n, 2)
    ensures DigitsAt(t, i) && TwoAt(t, i) == n
  {
    TwoDigits(n);
    var p := t[i..i + 2];
    assert p[0] == t[i] && p[1] == t[i + 1];
  }

  lemma PrintPlaces(m: Moment)
    requires ValidMoment(m)
    ensures var t := Print(m);
            var y := |ZeroPad(m.date.year, 4)|;
            && |t| == y + 16 && t[..y] == ZeroPad(m.date.year, 4)
            && t[y] == '-' && t[y + 1..y + 3] == ZeroPad(m.date.month, 2)
            && t[y + 3] == '-' && t[y + 4..y + 6] == ZeroPad(m.date.day, 2) && t[y + 6] == 'T'
            && t[y + 7..y + 9] == ZeroPad(m.hour, 2)
            && t[y + 9] == ':' && t[y + 10..y + 12] == ZeroPad(m.minute, 2)
            && t[y + 12] == ':' && t[y + 13..y + 15] == ZeroPad(m.second, 2) && t[y + 15] == 'Z'
  {
    TwoDigits(m.date.month);
    TwoDigits(m.date.day);
    TwoDigits(m.hour);
    TwoDigits(m.minute);
    TwoDigits(m.second);
    var ya := ZeroPad(m.date.year, 4);
    var a := Columns(ya, ZeroPad(m.date.month, 2), ZeroPad(m.date.day, 2), "-");
    var b := Columns(ZeroPad(m.hour, 2), ZeroPad(m.minute, 2), ZeroPad(m.second, 2), ":");
    ColumnPlaces(ya, ZeroPad(m.date.month, 2), ZeroPad(m.date.day, 2), "-");
    ColumnPlaces(ZeroPad(m.hour, 2), ZeroPad(m.minute, 2), ZeroPad(m.second, 2), ":");
    TextPlaces(a, b, |ya|);
  }

  lemma TextPlaces(a: string, b: string, y: nat)
    requires |a| == y + 6 && |b| == 8
    ensures var t := a + "T" + b + "Z";
            && |t| == y + 16 && t[..y] == a[..y] && t[y] == a[y] && t[y + 1..y + 3] == a[y + 1..y + 3]
            && t[y + 3] == a[y + 3] && t[y + 4..y + 6] == a[y + 4..] && t[y + 6] == 'T'
            && t[y + 7..y + 9] == b[..2] && t[y + 9] == b[2] && t[y + 10..y + 12] == b[3..5]
            && t[y + 12] == b[5] && t[y + 13..y + 15] == b[6..] && t[y + 15] == 'Z'
  {
  }

  lemma YearInside(t: string, y: int)
    requires 0 <= y <= 9_999 && |t| >= 4 && t[..4] == ZeroPad(y, 4)
    ensures DigitsAt(t, 0) && DigitsAt(t, 2) && 100 * TwoAt(t, 0) + TwoAt(t, 2) == y
  {
    PadFour(y);
    TwoDigits(y / 100);
    TwoDigits(y % 100);
    var p, q := ZeroPad(y / 100, 2), ZeroPad(y % 100, 2);
    assert t[0..2] == t[..4][..2] == p && t[2..4] == t[..4][2..] == q;
    TwoInside(t, 0, y / 100);
    TwoInside(t, 2, y % 100);
  }

  lemma ReadPrintFourDigits(m: Moment, t: string)
    requires ValidMoment(m) && t == Print(m) && 0 <= m.date.year <= 9_999
    ensures Shape(t) && MomentOf(t) == m
  {
    PrintPlaces(m);
    YearWidth(m.date.year);
    YearInside(t, m.date.year);
    TwoInside(t, 5, m.date.month);
    TwoInside(t, 8, m.date.day);
    TwoInside(t, 11, m.hour);
    TwoInside(t, 14, m.minute);
    TwoInside(t, 17, m.second);
  }

  lemma YearWidth(y: int)
    requires 0 <= y <= 9_999
    ensures |ZeroPad(y, 4)| == 4
  {
    PadFour(y);
    TwoDigits(y / 100);
    TwoDigits(y % 100);
  }

  /** A year of more or fewer than four digits breaks the shape: too long, or a leading minus. */
  lemma BadYearText(m: Moment, t: string)
    requires ValidMoment(m) && t == Print(m) && !(0 <= m.date.year <= 9_999)
    ensures !Shape(t)
  {
    PrintPlaces(m);
    if m.date.year < 0 {
      assert t[..|ZeroPad(m.date.year, 4)|][0] == '-';
    } else {
      LongYear(m.date.year);
    }
  }

  /** Printing and reading back is the identity exactly when the year has four digits. */
  lemma ReadPrint(m: Moment)
    requires ValidMoment(m)
    ensures Read(Print(m)) == if 0 <= m.date.year <= 9_999 then Some(m) else None
  {
    if 0 <= m.date.year <= 9_999 {
      ReadPrintFourDigits(m, Print(m));
    } else {
      BadYearText(m, Print(m));
    }
  }

  lemma DigitsDetermine(a: string, b: string, i: nat)
    requires DigitsAt(a, i) && DigitsAt(b, i)
    requires TwoAt(a, i) == TwoAt(b, i)
    ensures a[i] == b[i] && a[i + 1] == b[i + 1]
  {
  }

  /** Two shaped texts with the same field values are the same text. */
  lemma FieldsDetermineText(a: string, b: string)
    requires Shape(a) && Shape(b)
    requires MomentOf(a) == MomentOf(b)
    ensures a == b
  {
    DigitsDetermine(a, b, 0);
    DigitsDetermine(a, b, 2);
    DigitsDetermine(a, b, 5);
    DigitsDetermine(a, b, 8);
    DigitsDetermine(a, b, 11);
    DigitsDetermine(a, b, 14);
    DigitsDetermine(a, b, 17);
  }

  lemma PrintRead(t: string, m: Moment)
    requires Read(t) == Some(m)
    ensures Print(m) == t
  {
    ReadPrint(m);
    FieldsDetermineText(t, Print(m));
  }

  // ----- The theorems on texts -----

  /**
   The text reads back as the instant it was printed from, negative instants included,
   exactly when the year has four digits; otherwise it does not have the shape of a date-time.
   */
  lemma RoundTrip(secs: int)
    ensures Parse(Format(secs)) == if FourDigitYear(secs) then Some(secs) else None
  {
    FieldsOfSeconds(secs);
    MomentRange(Fields(secs));
    ReadPrint(Fields(secs));
  }

  /**
   Every date-time in the printed form (upper-case `T` and `Z`, whole seconds up to 59) is the print of
   its instant.
   */
  lemma ParsedTextIsCanonical(t: string, secs: int)
    requires Parse(t) == Some(secs)
    ensures Format(secs) == t
  {
    var m := Read(t).value;
    SecondsOfFields(m, secs);
    PrintRead(t, m);
  }

  // ----- Order -----

  predicate LexLess(a: string, b: string) {
    if a == "" || b == "" then |a| < |b|
    else a[0] < b[0] || (a[0] == b[0] && LexLess(a[1..], b[1..]))
  }

  lemma {:induction false} LexAsymmetric(a: string, b: string)
    ensures !(LexLess(a, b) && LexLess(b, a))
    ensures a == b ==> !LexLess(a, b)
  {
    if a != "" && b != "" { LexAsymmetric(a[1..], b[1..]); }
  }

  /** A smaller head decides; an equal head leaves it to the rest. */
  lemma {:induction false} LexConcat(a: string, b: string, x: string, y: string)
    requires |a| == |b|
    requires LexLess(a, b) || (a == b && LexLess(x, y))
    ensures LexLess(a + x, b + y)
  {
    if a == "" {
      assert a + x == x && b + y == y;
    } else {
      assert (a + x)[1..] == a[1..] + x && (b + y)[1..] == b[1..] + y;
      if a[0] == b[0] { LexConcat(a[1..], b[1..], x, y); }
    }
  }

  lemma LexColumn(a: string, b: string, sep: string, x: string, y: string)
    requires |a| == |b|
    requires LexLess(a, b) || (a == b && LexLess(x, y))
    ensures LexLess(a + sep + x, b + sep + y)
  {
    if a == b && LexLess(x, y) { LexConcat(sep, sep, x, y); }
    LexConcat(a, b, sep + x, sep + y);
    assert a + sep + x == a + (sep + x) && b + sep + y == b + (sep + y);
  }

  /** Three columns of equal width, compared column by column. */
  lemma LexColumns(a1: string, a2: string, a3: string, b1: string, b2: string, b3: string, sep: string)
    requires |a1| == |b1| && |a2| == |b2| && |a3| == |b3|
    requires LexLess(a1, b1) || (a1 == b1 && (LexLess(a2, b2) || (a2 == b2 && LexLess(a3, b3))))
    ensures LexLess(Columns(a1, a2, a3, sep), Columns(b1, b2, b3, sep))
  {
    if LexLess(a1, b1) || LexLess(a2, b2) {
      LexColumn(a1, b1, sep, a2, b2);
    }
    LexColumn(a1 + sep + a2, b1 + sep + b2, sep, a3, b3);
  }

  /** Two-digit columns compare as numbers do. */
  lemma ColumnOrder(m: int, n: int)
    requires 0 <= m < 100 && 0 <= n < 100
    ensures |ZeroPad(m, 2)| == |ZeroPad(n, 2)| == 2
    ensures m < n ==> LexLess(ZeroPad(m, 2), ZeroPad(n, 2))
  {
    PadTwo(m);
    PadTwo(n);
    var a, b := ZeroPad(m, 2), ZeroPad(n, 2);
    if m < n && m / 10 == n / 10 {
      assert LexLess(a[1..], b[1..]);
    }
  }

  lemma PairOrder(m: int, m': int, n: int, n': int)
    requires 0 <= m <= n < 100 && 0 <= m' < 100 && 0 <= n' < 100
    requires m < n || m' < n'
    ensures LexLess(ZeroPad(m, 2) + ZeroPad(m', 2), ZeroPad(n, 2) + ZeroPad(n', 2))
  {
    ColumnOrder(m, n);
    ColumnOrder(m', n');
    LexConcat(ZeroPad(m, 2), ZeroPad(n, 2), ZeroPad(m', 2), ZeroPad(n', 2));
  }

  lemma YearOrder(m: int, n: int)
    requires 0 <= m < n < 10_000
    ensures LexLess(ZeroPad(m, 4), ZeroPad(n, 4))
  {
    PadFour(m);
    PadFour(n);
    PairOrder(m / 100, m % 100, n / 100, n % 100);
  }

  lemma DateOrder(a: Date, b: Date)
    requires ValidDate(a) && ValidDate(b) && 0 <= a.year <= 9_999 && 0 <= b.year <= 9_999
    ensures var x := Columns(ZeroPad(a.year, 4), ZeroPad(a.month, 2), ZeroPad(a.day, 2), "-");
            var y := Columns(ZeroPad(b.year, 4), ZeroPad(b.month, 2), ZeroPad(b.day, 2), "-");
            |x| == |y| && (Earlier(a, b) ==> LexLess(x, y))
  {
    YearWidth(a.year);
    YearWidth(b.year);
    if a.year < b.year { YearOrder(a.year, b.year); }
    ColumnOrder(a.month, b.month);
    ColumnOrder(a.day, b.day);
    if Earlier(a, b) {
      LexColumns(ZeroPad(a.year, 4), ZeroPad(a.month, 2), ZeroPad(a.day, 2),
                 ZeroPad(b.year, 4), ZeroPad(b.month, 2), ZeroPad(b.day, 2), "-");
    }
  }

  lemma ClockOrder(a: Moment, b: Moment)
    requires ValidMoment(a) && ValidMoment(b)
    requires a.date == b.date && Before(a, b)
    ensures LexLess(Columns(ZeroPad(a.hour, 2), ZeroPad(a.minute, 2), ZeroPad(a.second, 2), ":"),
                    Columns(ZeroPad(b.hour, 2), ZeroPad(b.minute, 2), ZeroPad(b.second, 2), ":"))
  {
    ColumnOrder(a.hour, b.hour);
    ColumnOrder(a.minute, b.minute);
    ColumnOrder(a.second, b.second);
    LexColumns(ZeroPad(a.hour, 2), ZeroPad(a.minute, 2), ZeroPad(a.second, 2),
               ZeroPad(b.hour, 2), ZeroPad(b.minute, 2), ZeroPad(b.second, 2), ":");
  }

  lemma LexStamp(a: string, b: string, x: string, y: string)
    requires |a| == |b| && |x| == |y|
    requires LexLess(a, b) || (a == b && LexLess(x, y))
    ensures LexLess(a + "T" + x + "Z", b + "T" + y + "Z")
  {
    LexColumn(a, b, "T", x, y);
    LexConcat(a + "T" + x, b + "T" + y, "Z", "Z");
  }

  lemma PrintOrder(a: Moment, b: Moment)
    requires ValidMoment(a) && ValidMoment(b) && 0 <= a.date.year <= 9_999 && 0 <= b.date.year <= 9_999
    requires Before(a, b)
    ensures LexLess(Print(a), Print(b))
  {
    DateOrder(a.date, b.date);
    if a.date == b.date { ClockOrder(a, b); }
    ColumnOrder(a.hour, b.hour);
    ColumnOrder(a.minute, b.minute);
    ColumnOrder(a.second, b.second);
    LexStamp(Columns(ZeroPad(a.date.year, 4), ZeroPad(a.date.month, 2), ZeroPad(a.date.day, 2), "-"),
             Columns(ZeroPad(b.date.year, 4), ZeroPad(b.date.month, 2), ZeroPad(b.date.day, 2), "-"),
             Columns(ZeroPad(a.hour, 2), ZeroPad(a.minute, 2), ZeroPad(a.second, 2), ":"),
             Columns(ZeroPad(b.hour, 2), ZeroPad(b.minute, 2), ZeroPad(b.second, 2), ":"));
  }

  lemma EarlierSortsFirst(a: Moment, b: Moment)
    requires ValidMoment(a) && ValidMoment(b)
    requires FourDigitYear(Seconds(a)) && FourDigitYear(Seconds(b))
    requires Seconds(a) < Seconds(b)
    ensures LexLess(Print(a), Print(b))
  {
    MomentRange(a);
    MomentRange(b);
    if Before(b, a) { SecondsAreOrdered(b, a); }
    PrintOrder(a, b);
  }

  /** Sorting the texts sorts the instants. */
  lemma TextOrderIsTimeOrder(s: int, t: int)
    requires FourDigitYear(s) && FourDigitYear(t)
    ensures LexLess(Format(s), Format(t)) <==> s < t
  {
    LexAsymmetric(Format(s), Format(t));
    FieldsOfSeconds(s);
    FieldsOfSeconds(t);
    if s < t {
      EarlierSortsFirst(Fields(s), Fields(t));
    } else if t < s {
      EarlierSortsFirst(Fields(t), Fields(s));
    }
  }
}
