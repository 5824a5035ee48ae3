/** The calendar of the years 0 to 9999 and its fixed-width text, 20060102T150405Z:
  the order of the texts as strings is the order of the instants.
 */
module Calendar {
  import opened Order
  import opened Common

  /** Nanoseconds since the start of the year 0. */
  type Time = nat

  datatype Fields = Fields(year: nat, month: nat, day: nat, hour: nat, minute: nat, second: nat)

  const LETTER_T: byte := 84
  const LETTER_Z: byte := 90

  predicate Leap(y: nat) {
    y % 4 == 0 && (y % 100 != 0 || y % 400 == 0)
  }

  function DaysIn(y: nat, m: nat): (n: nat)
    ensures 28 <= n <= 31
  {
    if m == 2 then if Leap(y) then 29 else 28
    else if m == 4 || m == 6 || m == 9 || m == 11 then 30
    else 31
  }

  predicate ValidFields(f: Fields) {
    && f.year <= 9999 && 1 <= f.month <= 12 && 1 <= f.day <= DaysIn(f.year, f.month)
    && f.hour < 24 && f.minute < 60 && f.second < 60
  }

  // ---- fields and instants ----

  /** The days of the year `y` before the month `m`; before month 13, all of them. */
  function DaysBeforeMonth(y: nat, m: nat): (n: nat)
    requires m >= 1
  {
    if m == 1 then 0 else DaysBeforeMonth(y, m - 1) + DaysIn(y, m - 1)
  }

  function YearLength(y: nat): (n: nat)
    ensures n >= 28
  {
    DaysBeforeMonth(y, 12) + DaysIn(y, 12)
  }

  function DaysBeforeYear(y: nat): (n: nat) {
    if y == 0 then 0 else DaysBeforeYear(y - 1) + YearLength(y - 1)
  }

  function DayNumber(f: Fields): (n: nat)
    requires ValidFields(f)
  {
    DaysBeforeYear(f.year) + DaysBeforeMonth(f.year, f.month) + f.day - 1
  }

  function ClockSeconds(f: Fields): (n: nat)
    requires ValidFields(f)
    ensures n < 86400
  {
    f.hour * 3600 + f.minute * 60 + f.second
  }

  /** Seconds since the start of the year 0. */
  function SecondsOf(f: Fields): (n: nat)
    requires ValidFields(f)
  {
    DayNumber(f) * 86400 + ClockSeconds(f)
  }

  // ---- the days in closed form ----

  /** The leap years before the year `y`, which are those that 4 divides, without those that
      100 divides, with those that 400 divides. */
  function LeapsBefore(y: nat): (n: int) {
    (y + 3) / 4 - (y + 99) / 100 + (y + 399) / 400
  }

  lemma {:induction false} NextMultiple(y: nat, d: nat)
    requires d > 1
    ensures (y + d) / d == (y + d - 1) / d + (if y % d == 0 then 1 else 0)
  {
    var q, r := y / d, y % d;
    assert (q + 1) * d == q * d + d;
    DivUnique(y + d, d, q + 1, r);
    if r == 0 {
      DivUnique(y + d - 1, d, q, d - 1);
    } else {
      DivUnique(y + d - 1, d, q + 1, r - 1);
    }
  }

  lemma {:induction false} Multiples(y: nat)
    ensures y % 400 == 0 ==> y % 100 == 0
    ensures y % 100 == 0 ==> y % 4 == 0
  {
    if y % 400 == 0 {
      assert y == 100 * (4 * (y / 400));
    }
    if y % 100 == 0 {
      assert y == 4 * (25 * (y / 100));
    }
  }

  lemma {:induction false} LeapStep(y: nat)
    ensures LeapsBefore(y + 1) == LeapsBefore(y) + (if Leap(y) then 1 else 0)
  {
    NextMultiple(y, 4);
    NextMultiple(y, 100);
    NextMultiple(y, 400);
    Multiples(y);
  }

  lemma {:induction false} YearIsLong(y: nat)
    ensures YearLength(y) == 365 + (if Leap(y) then 1 else 0)
  {
    MonthsInClosedForm(y, 12);
  }

  /** The sum of `f` over the years before `y`. */
  function Total(f: nat -> nat, y: nat): (n: nat) {
    if y == 0 then 0 else Total(f, y - 1) + f(y - 1)
  }

  lemma {:induction false} TotalShift(f: nat -> nat, g: nat -> nat, c: nat, y: nat)
    requires forall i: nat :: f(i) == c + g(i)
    ensures Total(f, y) == c * y + Total(g, y)
  {
    if y > 0 {
      TotalShift(f, g, c, y - 1);
      assert c * y == c * (y - 1) + c;
    }
  }

  lemma {:induction false} DaysAreTotal(y: nat)
    ensures DaysBeforeYear(y) == Total(YearLength, y)
  {
    if y > 0 {
      DaysAreTotal(y - 1);
    }
  }

  function LeapDay(y: nat): (n: nat) {
    if Leap(y) then 1 else 0
  }

  lemma {:induction false} YearsCounted(y: nat)
    ensures DaysBeforeYear(y) == 365 * y + Total(LeapDay, y)
  {
    forall i: nat ensures YearLength(i) == 365 + LeapDay(i) {
      YearIsLong(i);
    }
    DaysAreTotal(y);
    TotalShift(YearLength, LeapDay, 365, y);
  }

  lemma {:induction false} YearsInClosedForm(y: nat)
    ensures DaysBeforeYear(y) == 365 * y + LeapsBefore(y)
  {
    YearsCounted(y);
    LeapsCounted(y);
  }

  lemma {:induction false} LeapsCounted(y: nat)
    ensures Total(LeapDay, y) == LeapsBefore(y)
  {
    if y > 0 {
      LeapsCounted(y - 1);
      LeapStep(y - 1);
    }
  }

  /** Months of 30 and 31 days in their order, as one division does it. */
  lemma {:induction false} MonthsInClosedForm(y: nat, m: nat)
    requires 1 <= m <= 12
    ensures DaysBeforeMonth(y, m) == (367 * m - 362) / 12 - (if m <= 2 then 0 else if Leap(y) then 1 else 2)
  {
    if m > 1 {
      MonthsInClosedForm(y, m - 1);
    }
  }

  /** The number of a day, counted from the first of the year 0, is what the Gregorian
      rules give in closed form. */
  lemma {:induction false} DayNumberInClosedForm(f: Fields)
    requires ValidFields(f)
    ensures DayNumber(f) == 365 * f.year + LeapsBefore(f.year) + (367 * f.month - 362) / 12 + f.day - 1
                            - (if f.month <= 2 then 0 else if Leap(f.year) then 1 else 2)
  {
    YearsInClosedForm(f.year);
    MonthsInClosedForm(f.year, f.month);
  }

  predicate DateBefore(f: Fields, g: Fields) {
    f.year < g.year || (f.year == g.year && (f.month < g.month || (f.month == g.month && f.day < g.day)))
  }

  predicate SameDate(f: Fields, g: Fields) {
    f.year == g.year && f.month == g.month && f.day == g.day
  }

  predicate ClockBefore(f: Fields, g: Fields) {
    f.hour < g.hour || (f.hour == g.hour && (f.minute < g.minute || (f.minute == g.minute && f.second < g.second)))
  }

  predicate Before(f: Fields, g: Fields) {
    DateBefore(f, g) || (SameDate(f, g) && ClockBefore(f, g))
  }

  lemma {:induction false} MonthsGrow(y: nat, m: nat, n: nat)
    requires 1 <= m < n
    ensures DaysBeforeMonth(y, m) + DaysIn(y, m) <= DaysBeforeMonth(y, n)
    decreases n
  {
    if m < n - 1 {
      MonthsGrow(y, m, n - 1);
    }
  }

  lemma {:induction false} YearsGrow(y: nat, z: nat)
    requires y < z
    ensures DaysBeforeYear(y) + YearLength(y) <= DaysBeforeYear(z)
    decreases z
  {
    if y < z - 1 {
      YearsGrow(y, z - 1);
    }
  }

  lemma {:induction false} DayInYear(f: Fields)
    requires ValidFields(f)
    ensures DaysBeforeMonth(f.year, f.month) + f.day - 1 < YearLength(f.year)
  {
    if f.month < 12 {
      MonthsGrow(f.year, f.month, 12);
    }
  }

  lemma {:induction false} DatesGrow(f: Fields, g: Fields)
    requires ValidFields(f) && ValidFields(g) && DateBefore(f, g)
    ensures DayNumber(f) < DayNumber(g)
  {
    DayInYear(f);
    if f.year < g.year {
      YearsGrow(f.year, g.year);
    } else if f.month < g.month {
      MonthsGrow(f.year, f.month, g.month);
    }
  }

  /** Earlier fields are an earlier instant. */
  lemma {:induction false} InstantsGrow(f: Fields, g: Fields)
    requires ValidFields(f) && ValidFields(g) && Before(f, g)
    ensures SecondsOf(f) < SecondsOf(g)
  {
    if DateBefore(f, g) {
      DatesGrow(f, g);
    }
  }

  lemma {:induction false} FieldsCompare(f: Fields, g: Fields)
    ensures Before(f, g) || f == g || Before(g, f)
  {
  }

  // ---- the fields of an instant ----

  function FindYear(days: nat, y: nat): (r: nat)
    requires DaysBeforeYear(y) <= days
    ensures DaysBeforeYear(r) <= days < DaysBeforeYear(r) + YearLength(r)
    decreases days - DaysBeforeYear(y)
  {
    if days < DaysBeforeYear(y) + YearLength(y) then y else FindYear(days, y + 1)
  }

  function FindMonth(y: nat, days: nat, m: nat): (r: nat)
    requires 1 <= m <= 12 && DaysBeforeMonth(y, m) <= days < YearLength(y)
    ensures 1 <= r <= 12 && DaysBeforeMonth(y, r) <= days < DaysBeforeMonth(y, r) + DaysIn(y, r)
    decreases 12 - m
  {
    if m == 12 || days < DaysBeforeMonth(y, m) + DaysIn(y, m) then m else FindMonth(y, days, m + 1)
  }

  /** `at.UTC()`, field by field. */
  function FieldsOf(seconds: nat): (f: Fields)
    ensures f.year <= 9999 ==> ValidFields(f)
  {
    var days, clock := seconds / 86400, seconds % 86400;
    var y := FindYear(days, 0);
    var rest := days - DaysBeforeYear(y);
    var m := FindMonth(y, rest, 1);
    Fields(y, m, rest - DaysBeforeMonth(y, m) + 1, clock / 3600, clock / 60 % 60, clock % 60)
  }

  lemma {:induction false} ClockRoundTrip(clock: nat)
    requires clock < 86400
    ensures clock / 3600 < 24 && clock / 3600 * 3600 + clock / 60 % 60 * 60 + clock % 60 == clock
  {
    var minutes := clock / 60;
    assert clock == minutes * 60 + clock % 60;
    assert minutes == minutes / 60 * 60 + minutes % 60;
    assert clock / 3600 == minutes / 60;
  }

  lemma {:induction false} FieldsRoundTrip(seconds: nat)
    requires FieldsOf(seconds).year <= 9999
    ensures SecondsOf(FieldsOf(seconds)) == seconds
  {
    ClockRoundTrip(seconds % 86400);
  }

  lemma {:induction false} FieldsOfInstant(f: Fields)
    requires ValidFields(f)
    ensures FieldsOf(SecondsOf(f)) == f
  {
    var seconds := SecondsOf(f);
    assert seconds / 86400 == DayNumber(f);
    YearFound(DayNumber(f), 0, f);
    var g := FieldsOf(seconds);
    FieldsRoundTrip(seconds);
    FieldsCompare(f, g);
    if Before(f, g) {
      InstantsGrow(f, g);
    } else if Before(g, f) {
      InstantsGrow(g, f);
    }
  }

  lemma {:induction false} YearFound(days: nat, y: nat, f: Fields)
    requires ValidFields(f) && days == DayNumber(f) && DaysBeforeYear(y) <= days
    ensures FindYear(days, y) <= 9999
  {
    DayInYear(f);
    var r := FindYear(days, y);
    if f.year < r {
      YearsGrow(f.year, r);
    }
  }

  // ---- text ----

  function Power(w: nat): (n: nat)
    ensures n >= 1
  {
    if w == 0 then 1 else 10 * Power(w - 1)
  }

  /** A number in decimal, in `w` digits. */
  function Pad(w: nat, x: nat): (r: Bytes)
    ensures |r| == w
  {
    if w == 0 then [] else Pad(w - 1, x / 10) + [48 + x % 10]
  }

  predicate Digits(s: Bytes) {
    forall k :: 0 <= k < |s| ==> 48 <= s[k] <= 57
  }

  function Number(s: Bytes): (n: nat)
    requires Digits(s)
  {
    if s == [] then 0 else Number(s[..|s| - 1]) * 10 + (s[|s| - 1] - 48)
  }

  lemma {:induction false} PadIsDigits(w: nat, x: nat)
    ensures Digits(Pad(w, x))
  {
    if w > 0 {
      PadIsDigits(w - 1, x / 10);
    }
  }

  lemma {:induction false} NumberOfPad(w: nat, x: nat)
    requires x < Power(w)
    ensures Digits(Pad(w, x)) && Number(Pad(w, x)) == x
  {
    PadIsDigits(w, x);
    if w > 0 {
      NumberOfPad(w - 1, x / 10);
      var s := Pad(w, x);
      assert s[..|s| - 1] == Pad(w - 1, x / 10);
    }
  }

  lemma {:induction false} PadOfNumber(s: Bytes)
    requires Digits(s)
    ensures Pad(|s|, Number(s)) == s && Number(s) < Power(|s|)
  {
    if s != [] {
      var front, last := s[..|s| - 1], s[|s| - 1] - 48;
      PadOfNumber(front);
      assert Number(s) == Number(front) * 10 + last;
      assert Number(s) / 10 == Number(front) && Number(s) % 10 == last;
      assert s == front + [s[|s| - 1]];
    }
  }

  // ---- string order of joined pieces ----

  lemma {:induction false} LessPrefix(p: Bytes, a: Bytes, b: Bytes)
    ensures Less(p + a, p + b) <==> Less(a, b)
  {
    if p == [] {
      assert p + a == a && p + b == b;
    } else {
      assert (p + a)[1..] == p[1..] + a && (p + b)[1..] == p[1..] + b;
      LessPrefix(p[1..], a, b);
    }
  }

  lemma {:induction false} LessHead(x: Bytes, y: Bytes, a: Bytes, b: Bytes)
    requires |x| == |y| && Less(x, y)
    ensures Less(x + a, y + b)
  {
    assert (x + a)[1..] == x[1..] + a && (y + b)[1..] == y[1..] + b;
    if x[0] == y[0] {
      LessHead(x[1..], y[1..], a, b);
    }
  }

  lemma {:induction false} PadOrder(w: nat, x: nat, y: nat)
    requires x < y < Power(w)
    ensures Less(Pad(w, x), Pad(w, y))
  {
    if x / 10 < y / 10 {
      PadOrder(w - 1, x / 10, y / 10);
      LessHead(Pad(w - 1, x / 10), Pad(w - 1, y / 10), [48 + x % 10], [48 + y % 10]);
    } else {
      LessPrefix(Pad(w - 1, x / 10), [48 + x % 10], [48 + y % 10]);
    }
  }

  function DateText(f: Fields): (r: Bytes)
    ensures |r| == 8
  {
    Pad(4, f.year) + (Pad(2, f.month) + Pad(2, f.day))
  }

  function ClockText(f: Fields): (r: Bytes)
    ensures |r| == 6
  {
    Pad(2, f.hour) + (Pad(2, f.minute) + Pad(2, f.second))
  }

  /** `t.Format("20060102T150405Z")`. */
  function Text(f: Fields): (r: Bytes)
    ensures |r| == 16
  {
    DateText(f) + ([LETTER_T] + (ClockText(f) + [LETTER_Z]))
  }

  lemma {:induction false} Powers()
    ensures Power(2) == 100 && Power(4) == 10000
  {
    assert Power(1) == 10;
    assert Power(3) == 1000;
  }

  /** Three fixed-width numbers in a row are ordered like the triple. */
  lemma {:induction false} TripleOrder(w: nat, a: nat, b: nat, c: nat, x: nat, y: nat, z: nat)
    requires a < Power(w) && x < Power(w) && b < 100 && y < 100 && c < 100 && z < 100
    requires a < x || (a == x && (b < y || (b == y && c < z)))
    ensures Less(Pad(w, a) + (Pad(2, b) + Pad(2, c)), Pad(w, x) + (Pad(2, y) + Pad(2, z)))
  {
    Powers();
    if a < x {
      PadOrder(w, a, x);
      LessHead(Pad(w, a), Pad(w, x), Pad(2, b) + Pad(2, c), Pad(2, y) + Pad(2, z));
    } else {
      if b < y {
        PadOrder(2, b, y);
        LessHead(Pad(2, b), Pad(2, y), Pad(2, c), Pad(2, z));
      } else {
        PadOrder(2, c, z);
        LessPrefix(Pad(2, b), Pad(2, c), Pad(2, z));
      }
      LessPrefix(Pad(w, a), Pad(2, b) + Pad(2, c), Pad(2, y) + Pad(2, z));
    }
  }

  lemma {:induction false} DateOrder(f: Fields, g: Fields)
    requires ValidFields(f) && ValidFields(g) && DateBefore(f, g)
    ensures Less(DateText(f), DateText(g))
  {
    Powers();
    TripleOrder(4, f.year, f.month, f.day, g.year, g.month, g.day);
  }

  lemma {:induction false} ClockOrder(f: Fields, g: Fields)
    requires ValidFields(f) && ValidFields(g) && ClockBefore(f, g)
    ensures Less(ClockText(f), ClockText(g))
  {
    Powers();
    TripleOrder(2, f.hour, f.minute, f.second, g.hour, g.minute, g.second);
  }

  lemma {:induction false} TextOrder(f: Fields, g: Fields)
    requires ValidFields(f) && ValidFields(g) && Before(f, g)
    ensures Less(Text(f), Text(g))
  {
    var a, b := [LETTER_T] + (ClockText(f) + [LETTER_Z]), [LETTER_T] + (ClockText(g) + [LETTER_Z]);
    if DateBefore(f, g) {
      DateOrder(f, g);
      LessHead(DateText(f), DateText(g), a, b);
    } else {
      ClockOrder(f, g);
      LessHead(ClockText(f), ClockText(g), [LETTER_Z], [LETTER_Z]);
      LessPrefix([LETTER_T], ClockText(f) + [LETTER_Z], ClockText(g) + [LETTER_Z]);
      LessPrefix(DateText(f), a, b);
    }
  }

  /** The order of the texts, byte by byte, is the order of the instants. */
  lemma {:induction false} TextOrderIsTimeOrder(f: Fields, g: Fields)
    requires ValidFields(f) && ValidFields(g)
    ensures Less(Text(f), Text(g)) <==> SecondsOf(f) < SecondsOf(g)
    ensures Text(f) == Text(g) <==> f == g
  {
    FieldsCompare(f, g);
    LessTotal(Text(f), Text(g));
    if Before(f, g) {
      TextOrder(f, g);
      InstantsGrow(f, g);
    } else if Before(g, f) {
      TextOrder(g, f);
      InstantsGrow(g, f);
    }
  }

  // ---- reading the text ----

  /** `[0-9]{8}T[0-9]{6}Z`. */
  predicate Shaped(s: Bytes) {
    |s| == 16 && Digits(s[..8]) && s[8] == LETTER_T && Digits(s[9..15]) && s[15] == LETTER_Z
  }

  lemma {:induction false} PieceDigits(s: Bytes, i: nat, j: nat)
    requires Shaped(s) && (i <= j <= 8 || 9 <= i <= j <= 15)
    ensures Digits(s[i..j])
  {
    forall k | 0 <= k < j - i ensures 48 <= s[i..j][k] <= 57 {
      if j <= 8 {
        assert s[..8][i + k] == s[i + k];
      } else {
        assert s[9..15][i + k - 9] == s[i + k];
      }
    }
  }

  function Piece(s: Bytes, i: nat, j: nat): (n: nat)
    requires Shaped(s) && (i <= j <= 8 || 9 <= i <= j <= 15)
  {
    PieceDigits(s, i, j);
    Number(s[i..j])
  }

  function RawFields(s: Bytes): (f: Fields)
    requires Shaped(s)
  {
    Fields(Piece(s, 0, 4), Piece(s, 4, 6), Piece(s, 6, 8), Piece(s, 9, 11), Piece(s, 11, 13), Piece(s, 13, 15))
  }

  /** `time.Parse` of text of this shape. */
  function Parse(s: Bytes): (r: Option<Fields>)
    ensures r.Some? ==> ValidFields(r.value)
  {
    if Shaped(s) && ValidFields(RawFields(s)) then Some(RawFields(s)) else None
  }

  lemma {:induction false} DateOfParse(s: Bytes)
    requires Shaped(s)
    ensures DateText(RawFields(s)) == s[..8]
  {
    PieceText(s, 0, 4);
    PieceText(s, 4, 6);
    PieceText(s, 6, 8);
    assert s[..8] == s[0..4] + (s[4..6] + s[6..8]);
  }

  lemma {:induction false} ClockOfParse(s: Bytes)
    requires Shaped(s)
    ensures ClockText(RawFields(s)) == s[9..15]
  {
    PieceText(s, 9, 11);
    PieceText(s, 11, 13);
    PieceText(s, 13, 15);
    assert s[9..15] == s[9..11] + (s[11..13] + s[13..15]);
  }

  /** Writing what was read gives the text back. */
  lemma {:induction false} TextOfParse(s: Bytes)
    requires Shaped(s)
    ensures Text(RawFields(s)) == s
  {
    DateOfParse(s);
    ClockOfParse(s);
    assert s == s[..8] + ([s[8]] + (s[9..15] + [s[15]]));
  }

  lemma {:induction false} PieceText(s: Bytes, i: nat, j: nat)
    requires Shaped(s) && (i <= j <= 8 || 9 <= i <= j <= 15)
    ensures Pad(j - i, Piece(s, i, j)) == s[i..j]
  {
    PieceDigits(s, i, j);
    PadOfNumber(s[i..j]);
  }

  lemma {:induction false} DatePieces(f: Fields)
    ensures Text(f)[..8] == DateText(f) && Text(f)[8] == LETTER_T
    ensures Text(f)[0..4] == Pad(4, f.year) && Text(f)[4..6] == Pad(2, f.month) && Text(f)[6..8] == Pad(2, f.day)
  {
  }

  lemma {:induction false} ClockPieces(f: Fields)
    ensures Text(f)[9..15] == ClockText(f) && Text(f)[15] == LETTER_Z
    ensures Text(f)[9..11] == Pad(2, f.hour) && Text(f)[11..13] == Pad(2, f.minute)
    ensures Text(f)[13..15] == Pad(2, f.second)
  {
  }

  /** Reading what Format writes gives the fields back. */
  lemma {:induction false} ParseOfText(f: Fields)
    requires ValidFields(f)
    ensures Parse(Text(f)) == Some(f)
  {
    Powers();
    DateDigits(f);
    ClockDigits(f);
    DatePieces(f);
    ClockPieces(f);
    NumberOfPad(4, f.year);
    NumberOfPad(2, f.month);
    NumberOfPad(2, f.day);
    NumberOfPad(2, f.hour);
    NumberOfPad(2, f.minute);
    NumberOfPad(2, f.second);
  }

  lemma {:induction false} DateDigits(f: Fields)
    ensures Digits(DateText(f))
  {
    PadIsDigits(4, f.year);
    PadIsDigits(2, f.month);
    PadIsDigits(2, f.day);
  }

  lemma {:induction false} ClockDigits(f: Fields)
    ensures Digits(ClockText(f))
  {
    PadIsDigits(2, f.hour);
    PadIsDigits(2, f.minute);
    PadIsDigits(2, f.second);
  }
}
