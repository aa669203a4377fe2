/**
 Timestamps as text: the canonical UTC form every write path emits, and the normalisation of imported ones.

 A canonical text is `YYYY-MM-DDTHH:MM:SS+00:00`, with six fractional digits before the offset when they are
 not all zero.  An instant is a number of microseconds since the first of January of year 1.
 */
module Timestamps {
  import opened Wrappers

  // ---------------------------------------------------------------------------------------
  // The calendar
  // ---------------------------------------------------------------------------------------

  predicate IsLeap(year: nat)
  {
    year % 4 == 0 && (year % 100 != 0 || year % 400 == 0)
  }

  function DaysInMonth(year: nat, month: nat): (d: nat)
    ensures 28 <= d <= 31
  {
    if month == 2 then (if IsLeap(year) then 29 else 28)
    else if month == 4 || month == 6 || month == 9 || month == 11 then 30
    else 31
  }

  function DaysBeforeMonth(year: nat, month: nat): nat
  {
    if month <= 1 then 0 else DaysBeforeMonth(year, month - 1) + DaysInMonth(year, month - 1)
  }

  function DaysInYear(year: nat): nat
  {
    if IsLeap(year) then 366 else 365
  }

  lemma YearHasTwelveMonths(year: nat)
    ensures DaysBeforeMonth(year, 13) == DaysInYear(year)
  {
    assert DaysBeforeMonth(year, 1) == 0 && DaysBeforeMonth(year, 2) == 31;
    assert DaysBeforeMonth(year, 3) == DaysInYear(year) - 306;
    assert DaysBeforeMonth(year, 5) == DaysInYear(year) - 245;
    assert DaysBeforeMonth(year, 7) == DaysInYear(year) - 184;
    assert DaysBeforeMonth(year, 9) == DaysInYear(year) - 122;
    assert DaysBeforeMonth(year, 11) == DaysInYear(year) - 61;
  }

  function DaysBeforeYear(year: nat): nat
  {
    if year <= 1 then 0 else DaysBeforeYear(year - 1) + DaysInYear(year - 1)
  }

  const LAST_YEAR: nat := 9999

  datatype Date = Date(year: nat, month: nat, day: nat)

  predicate ValidDate(d: Date)
  {
    1 <= d.year <= LAST_YEAR && 1 <= d.month <= 12 && 1 <= d.day <= DaysInMonth(d.year, d.month)
  }

  function DayNumber(d: Date): nat
    requires d.day >= 1
  {
    DaysBeforeYear(d.year) + DaysBeforeMonth(d.year, d.month) + d.day - 1
  }

  /** The month and day `left` days after the first of `month`. */
  function MonthFrom(year: nat, month: nat, left: nat): (nat, nat)
    decreases left
  {
    if left < DaysInMonth(year, month) then (month, left + 1)
    else MonthFrom(year, month + 1, left - DaysInMonth(year, month))
  }

  lemma {:induction false} MonthFromFinds(year: nat, month: nat, left: nat)
    requires 1 <= month <= 12 && DaysBeforeMonth(year, month) + left < DaysBeforeMonth(year, 13)
    ensures var (m, d) := MonthFrom(year, month, left);
      1 <= m <= 12 && 1 <= d <= DaysInMonth(year, m)
        && DaysBeforeMonth(year, m) + d - 1 == DaysBeforeMonth(year, month) + left
    decreases left
  {
    hide DaysInMonth;
    if left >= DaysInMonth(year, month) {
      assert DaysBeforeMonth(year, month + 1) == DaysBeforeMonth(year, month) + DaysInMonth(year, month);
      MonthFromFinds(year, month + 1, left - DaysInMonth(year, month));
    }
  }

  /** The date `left` days after the first of January of `year`. */
  function DateFrom(year: nat, left: nat): Date
    decreases left
  {
    if left < DaysInYear(year) then
      var (month, day) := MonthFrom(year, 1, left);
      Date(year, month, day)
    else DateFrom(year + 1, left - DaysInYear(year))
  }

  /** The search finds the one date with that number. */
  lemma {:induction false} DateFromFinds(year: nat, left: nat)
    requires 1 <= year <= LAST_YEAR && DaysBeforeYear(year) + left < DaysBeforeYear(LAST_YEAR + 1)
    ensures ValidDate(DateFrom(year, left)) && DayNumber(DateFrom(year, left)) == DaysBeforeYear(year) + left
    decreases left
  {
    YearHasTwelveMonths(year);
    hide IsLeap, DaysInMonth, DaysInYear;
    if left < DaysInYear(year) {
      MonthFromFinds(year, 1, left);
    } else {
      YearIsNotEmpty(year);
      assert DaysBeforeYear(year + 1) == DaysBeforeYear(year) + DaysInYear(year);
      DateFromFinds(year + 1, left - DaysInYear(year));
    }
  }

  lemma YearIsNotEmpty(year: nat)
    ensures DaysInYear(year) > 0
  {
  }

  // ---------------------------------------------------------------------------------------
  // Instants
  // ---------------------------------------------------------------------------------------

  datatype Moment = Moment(date: Date, hour: nat, minute: nat, second: nat, micro: nat)

  predicate Valid(m: Moment)
  {
    ValidDate(m.date) && m.hour < 24 && m.minute < 60 && m.second < 60 && m.micro < 1000000
  }

  const DAY := 86400000000

  function MicrosOfDay(m: Moment): nat
  {
    ((m.hour * 60 + m.minute) * 60 + m.second) * 1000000 + m.micro
  }

  function Instant(m: Moment): nat
    requires Valid(m)
  {
    DayNumber(m.date) * DAY + MicrosOfDay(m)
  }

  /** One past the last representable instant. */
  function Limit(): nat
  {
    DaysBeforeYear(LAST_YEAR + 1) * DAY
  }

  function TimeOf(date: Date, micros: nat): Moment
  {
    var seconds := micros / 1000000;
    var minutes := seconds / 60;
    Moment(date, minutes / 60, minutes % 60, seconds % 60, micros % 1000000)
  }

  lemma TimeOfIs(date: Date, micros: nat)
    requires micros < DAY
    ensures var m := TimeOf(date, micros);
      m.hour < 24 && m.minute < 60 && m.second < 60 && m.micro < 1000000 && MicrosOfDay(m) == micros
  {
  }

  function MomentOf(t: nat): Moment
  {
    TimeOf(DateFrom(1, t / DAY), t % DAY)
  }

  lemma SplitDay(t: nat, days: nat)
    requires t < days * DAY
    ensures t / DAY < days && t % DAY < DAY && t / DAY * DAY + t % DAY == t
  {
  }

  /** The moment of an instant is a valid one with that instant. */
  lemma MomentOfIs(t: nat)
    requires t < Limit()
    ensures Valid(MomentOf(t)) && Instant(MomentOf(t)) == t
  {
    SplitDay(t, DaysBeforeYear(LAST_YEAR + 1));
    hide DaysBeforeMonth, IsLeap, DaysInMonth;
    DateFromFinds(1, t / DAY);
    TimeOfIs(DateFrom(1, t / DAY), t % DAY);
    hide DateFrom, ValidDate, DayNumber, DaysBeforeYear, MicrosOfDay;
  }

  lemma FoursGrow(n: nat)
    ensures (n + 1) / 4 == n / 4 + if (n + 1) % 4 == 0 then 1 else 0
  {
  }

  lemma CenturiesGrow(n: nat)
    ensures (n + 1) / 100 == n / 100 + if (n + 1) % 100 == 0 then 1 else 0
  {
  }

  lemma FullCenturiesGrow(n: nat)
    ensures (n + 1) / 400 == n / 400 + if (n + 1) % 400 == 0 then 1 else 0
  {
  }

  lemma CenturiesNest(n: nat)
    ensures n % 400 == 0 ==> n % 100 == 0
    ensures n % 100 == 0 ==> n % 4 == 0
  {
    assert n % 400 == 0 ==> n == n / 400 * 4 * 100;
    assert n % 100 == 0 ==> n == n / 100 * 25 * 4;
  }

  ghost function LeapDays(n: nat): int
  {
    n / 4 - n / 100 + n / 400
  }

  lemma LeapDaysGrow(n: nat)
    ensures LeapDays(n + 1) == LeapDays(n) + if IsLeap(n + 1) then 1 else 0
  {
    FoursGrow(n);
    CenturiesGrow(n);
    FullCenturiesGrow(n);
    CenturiesNest(n + 1);
  }

  lemma {:induction false} DaysBeforeYearIs(year: nat)
    requires year >= 1
    ensures DaysBeforeYear(year) == 365 * (year - 1) + LeapDays(year - 1)
  {
    if year == 1 {
      assert LeapDays(0) == 0;
    } else {
      DaysBeforeYearIs(year - 1);
      LeapDaysGrow(year - 2);
      hide LeapDays, IsLeap;
    }
  }

  // The days before each month of a year without a leap day.
  const BEFORE_MONTH: seq<nat> := [0, 31, 59, 90, 120, 151, 181, 212, 243, 273, 304, 334]

  lemma DaysBeforeMonthIs(year: nat, month: nat)
    requires 1 <= month <= 12
    ensures DaysBeforeMonth(year, month) ==
      BEFORE_MONTH[month - 1]
        + if month > 2 && year % 4 == 0 && (year % 100 != 0 || year % 400 == 0) then 1 else 0
  {
    assert DaysBeforeMonth(year, 1) == 0 && DaysBeforeMonth(year, 2) == 31;
    assert DaysBeforeMonth(year, 3) == if IsLeap(year) then 60 else 59;
    assert DaysBeforeMonth(year, 4) == DaysBeforeMonth(year, 3) + 31;
    assert DaysBeforeMonth(year, 5) == DaysBeforeMonth(year, 3) + 61;
    assert DaysBeforeMonth(year, 6) == DaysBeforeMonth(year, 3) + 92;
    assert DaysBeforeMonth(year, 7) == DaysBeforeMonth(year, 3) + 122;
    assert DaysBeforeMonth(year, 8) == DaysBeforeMonth(year, 3) + 153;
    assert DaysBeforeMonth(year, 9) == DaysBeforeMonth(year, 3) + 184;
    assert DaysBeforeMonth(year, 10) == DaysBeforeMonth(year, 3) + 214;
    assert DaysBeforeMonth(year, 11) == DaysBeforeMonth(year, 3) + 245;
    assert DaysBeforeMonth(year, 12) == DaysBeforeMonth(year, 3) + 275;
  }

  /** The calendar in closed form: every fourth year is a leap year, but of the full centuries only every fourth. */
  lemma InstantIs(m: Moment)
    requires Valid(m)
    ensures var (y, mo) := (m.date.year, m.date.month);
      var leap := y % 4 == 0 && (y % 100 != 0 || y % 400 == 0);
      var days := 365 * (y - 1) + (y - 1) / 4 - (y - 1) / 100 + (y - 1) / 400
        + BEFORE_MONTH[mo - 1] + (if mo > 2 && leap then 1 else 0) + m.date.day - 1;
      Instant(m) == (((days * 24 + m.hour) * 60 + m.minute) * 60 + m.second) * 1000000 + m.micro
  {
    DaysBeforeYearIs(m.date.year);
    DaysBeforeMonthIs(m.date.year, m.date.month);
    hide DaysBeforeYear, DaysBeforeMonth, DaysInMonth;
  }

  /** The last day of each month is the one before the first of the next. */
  lemma DaysInMonthIs(year: nat, month: nat)
    requires 1 <= month <= 12
    ensures DaysInMonth(year, month) ==
      if month == 12 then 31 else DaysBeforeMonth(year, month + 1) - DaysBeforeMonth(year, month)
  {
  }

  // ---------------------------------------------------------------------------------------
  // Text
  // ---------------------------------------------------------------------------------------

  function Pow10(w: nat): nat
  {
    if w == 0 then 1 else 10 * Pow10(w - 1)
  }

  function Digit(n: nat): (c: char)
    requires n < 10
    ensures '0' <= c <= '9' && (c - '0') as nat == n
  {
    '0' + n as char
  }

  /** `n` in exactly `w` digits. */
  function Digits(n: nat, w: nat): (s: string)
    ensures |s| == w
  {
    if w == 0 then "" else Digits(n / 10, w - 1) + [Digit(n % 10)]
  }

  function ParseDigits(s: string): Option<nat>
  {
    if s == "" then Some(0)
    else
      var c := s[|s| - 1];
      match ParseDigits(s[..|s| - 1])
      case None => None
      case Some(n) => if '0' <= c <= '9' then Some(10 * n + (c - '0') as nat) else None
  }

  /** `n` in `w` digits, followed by a separator and the rest of the text. */
  function Numeral(n: nat, w: nat, separator: string, rest: string): string
  {
    Digits(n, w) + separator + rest
  }

  function Fraction(micro: nat): string
  {
    if micro == 0 then "" else "." + Digits(micro, 6)
  }

  function Tail(micro: nat): string
  {
    Fraction(micro) + "+00:00"
  }

  function RenderTime(m: Moment): string
  {
    Numeral(m.hour, 2, ":", Numeral(m.minute, 2, ":", Numeral(m.second, 2, "", Tail(m.micro))))
  }

  /** `isoformat()` of a UTC moment. */
  function Render(m: Moment): string
  {
    Numeral(m.date.year, 4, "-", Numeral(m.date.month, 2, "-", Numeral(m.date.day, 2, "T", RenderTime(m))))
  }

  // ---------------------------------------------------------------------------------------
  // Reading
  // ---------------------------------------------------------------------------------------

  datatype Parsed = Parsed(moment: Moment, offset: int)

  /** `+HH:MM` or `-HH:MM` in microseconds; no offset means UTC. */
  function ParseOffset(s: string): Option<int>
  {
    if s == "" then Some(0)
    else if |s| != 6 || (s[0] != '+' && s[0] != '-') || s[3] != ':' then None
    else
      var (h, m) := (ParseDigits(s[1..3]), ParseDigits(s[4..6]));
      if h.None? || m.None? || h.value >= 24 || m.value >= 60 then None
      else
        var size: int := (h.value * 60 + m.value) * 60000000;
        Some(if s[0] == '+' then size else -size)
  }

  /** The fraction and the offset behind the seconds. */
  function ParseTail(s: string): Option<(nat, int)>
  {
    if |s| >= 7 && s[0] == '.' then
      match ParseDigits(s[1..7]) {
        case None => None
        case Some(micro) =>
          match ParseOffset(s[7..]) {
            case None => None
            case Some(offset) => Some((micro, offset))
          }
      }
    else
      match ParseOffset(s)
      case None => None
      case Some(offset) => Some((0, offset))
  }

  /** `YYYY-MM-DD`, any separator, `HH:MM:SS`, an optional six-digit fraction and an optional offset. */
  function Parse(s: string): (r: Option<Parsed>)
    ensures r.Some? ==> Valid(r.value.moment)
  {
    if |s| < 19 || s[4] != '-' || s[7] != '-' || s[13] != ':' || s[16] != ':' then None
    else
      var (y, mo, d) := (ParseDigits(s[0..4]), ParseDigits(s[5..7]), ParseDigits(s[8..10]));
      var (h, mi, sec) := (ParseDigits(s[11..13]), ParseDigits(s[14..16]), ParseDigits(s[17..19]));
      var tail := ParseTail(s[19..]);
      if y.None? || mo.None? || d.None? || h.None? || mi.None? || sec.None? || tail.None? then None
      else
        var m := Moment(Date(y.value, mo.value, d.value), h.value, mi.value, sec.value, tail.value.0);
        if Valid(m) then Some(Parsed(m, tail.value.1)) else None
  }

  datatype Error = Unparseable | OutOfRange

  function InstantOf(p: Parsed): int
    requires Valid(p.moment)
  {
    Instant(p.moment) - p.offset
  }

  /** A trailing `Z` stands for `+00:00`; every other `Z` of such a text would be replaced too, and no form read here
      has one. */
  function Unzulu(raw: string): string
  {
    if raw != "" && raw[|raw| - 1] == 'Z' then raw[..|raw| - 1] + "+00:00" else raw
  }

  function Normalize(raw: Option<string>): Result<Option<string>, Error>
  {
    if raw.None? || raw.value == "" then Ok(None)
    else
      match Parse(Unzulu(raw.value))
      case None => Err(Unparseable)
      case Some(p) =>
        var t := InstantOf(p);
        if t < 0 || t >= Limit() then Err(OutOfRange) else Ok(Some(Render(MomentOf(t))))
  }

  // ---------------------------------------------------------------------------------------
  // What is read
  // ---------------------------------------------------------------------------------------

  lemma {:induction false} DigitsReadBack(n: nat, w: nat)
    requires n < Pow10(w)
    ensures ParseDigits(Digits(n, w)) == Some(n)
  {
    if w > 0 {
      DigitsReadBack(n / 10, w - 1);
      assert Digits(n, w)[..w - 1] == Digits(n / 10, w - 1);
    }
  }

  lemma {:induction false} ReadDigits(s: string)
    requires ParseDigits(s).Some?
    ensures ParseDigits(s).value < Pow10(|s|) && s == Digits(ParseDigits(s).value, |s|)
  {
    if s != "" {
      var init, last := s[..|s| - 1], s[|s| - 1];
      ReadDigits(init);
      assert s == init + [last];
      var n, d := ParseDigits(init).value, (last - '0') as nat;
      assert ParseDigits(s).value == 10 * n + d && (10 * n + d) / 10 == n && (10 * n + d) % 10 == d;
      assert Digit(d) == last;
    }
  }

  /** A text of two digits. */
  ghost predicate Two(s: string, n: nat)
  {
    n < 100 && s == Digits(n, 2)
  }

  lemma TwoIff(s: string, n: nat)
    requires |s| == 2
    ensures ParseDigits(s) == Some(n) <==> Two(s, n)
  {
    assert Pow10(2) == 100;
    if n < 100 {
      DigitsReadBack(n, 2);
    }
    if ParseDigits(s).Some? {
      ReadDigits(s);
    }
  }

  /** An offset behind the time: none, or hours and minutes ahead of UTC or behind it, in microseconds. */
  ghost predicate Zone(s: string, offset: int)
  {
    (s == "" && offset == 0) || exists h: nat, m: nat | h < 24 && m < 60 :: ZoneOf(s, offset, h, m)
  }

  ghost predicate ZoneOf(s: string, offset: int, h: nat, m: nat)
  {
    || (s == "+" + Digits(h, 2) + ":" + Digits(m, 2) && offset == (h * 60 + m) * 60000000)
    || (s == "-" + Digits(h, 2) + ":" + Digits(m, 2) && offset == -((h * 60 + m) * 60000000))
  }

  lemma ParseOffsetReads(s: string, offset: int)
    requires ParseOffset(s) == Some(offset)
    ensures Zone(s, offset)
  {
    if s != "" {
      var h, m := ParseDigits(s[1..3]).value, ParseDigits(s[4..6]).value;
      TwoIff(s[1..3], h);
      TwoIff(s[4..6], m);
      hide ParseDigits, Digits;
      assert s == [s[0]] + s[1..3] + [s[3]] + s[4..6];
      assert ZoneOf(s, offset, h, m);
    }
  }

  lemma ParseOffsetFinds(s: string, offset: int)
    requires Zone(s, offset)
    ensures ParseOffset(s) == Some(offset)
  {
    if s != "" {
      var h: nat, m: nat :| h < 24 && m < 60 && ZoneOf(s, offset, h, m);
      hide Zone, ZoneOf, ParseDigits, Digits, ParseOffset;
      ZoneParts(s, offset, h, m);
      TwoIff(s[1..3], h);
      TwoIff(s[4..6], m);
      ParseOffsetIs(s, h, m);
    }
  }

  lemma ParseOffsetIs(s: string, h: nat, m: nat)
    requires |s| == 6 && s[3] == ':' && (s[0] == '+' || s[0] == '-') && h < 24 && m < 60
    requires ParseDigits(s[1..3]) == Some(h) && ParseDigits(s[4..6]) == Some(m)
    ensures ParseOffset(s) == Some(if s[0] == '+' then (h * 60 + m) * 60000000 else -((h * 60 + m) * 60000000))
  {
    hide ParseDigits;
  }

  lemma ZoneParts(s: string, offset: int, h: nat, m: nat)
    requires ZoneOf(s, offset, h, m)
    ensures |s| == 6 && s[1..3] == Digits(h, 2) && s[3] == ':' && s[4..6] == Digits(m, 2)
    ensures (s[0] == '+' && offset == (h * 60 + m) * 60000000) || (s[0] == '-' && offset == -((h * 60 + m) * 60000000))
  {
    hide Digits;
    ZonePlaced(s[0], Digits(h, 2), Digits(m, 2));
    assert s == [s[0]] + Digits(h, 2) + ":" + Digits(m, 2);
  }

  lemma ZonePlaced(sign: char, h: string, m: string)
    requires |h| == 2 && |m| == 2
    ensures var s := [sign] + h + ":" + m;
      |s| == 6 && s[0] == sign && s[1..3] == h && s[3] == ':' && s[4..6] == m
  {
  }

  /** What stands behind the seconds: a fraction of six digits, which may be left out when it is zero, and an offset. */
  ghost predicate Behind(t: string, micro: nat, point: bool, zone: string)
  {
    micro < 1000000 && (point || micro == 0) && t == (if point then "." + Digits(micro, 6) else "") + zone
  }

  lemma ParseTailReads(t: string, micro: nat, offset: int) returns (point: bool, zone: string)
    requires ParseTail(t) == Some((micro, offset))
    ensures Behind(t, micro, point, zone) && Zone(zone, offset)
  {
    point := |t| >= 7 && t[0] == '.';
    zone := if point then t[7..] else t;
    ParseOffsetReads(zone, offset);
    if point {
      assert Pow10(6) == 1000000;
      ReadDigits(t[1..7]);
      assert t == "." + t[1..7] + t[7..];
    } else {
      assert t == "" + t;
    }
  }

  lemma ParseTailFinds(t: string, micro: nat, offset: int, point: bool, zone: string)
    requires Behind(t, micro, point, zone) && Zone(zone, offset)
    ensures ParseTail(t) == Some((micro, offset))
  {
    ParseOffsetFinds(zone, offset);
    if point {
      assert Pow10(6) == 1000000;
      DigitsReadBack(micro, 6);
      assert t[1..7] == Digits(micro, 6) && t[7..] == zone;
    } else {
      assert t == zone;
    }
  }

  ghost predicate Placed(s: string, y: string, mo: string, d: string, sep: char, h: string, mi: string, sec: string,
      tail: string)
  {
    && |s| >= 19 && s[4] == '-' && s[7] == '-' && s[10] == sep && s[13] == ':' && s[16] == ':'
    && s[0..4] == y && s[5..7] == mo && s[8..10] == d
    && s[11..13] == h && s[14..16] == mi && s[17..19] == sec && s[19..] == tail
  }

  function Joined(y: string, mo: string, d: string, sep: char, h: string, mi: string, sec: string, tail: string): string
  {
    y + "-" + (mo + "-" + (d + [sep] + (h + ":" + (mi + ":" + (sec + "" + tail)))))
  }

  lemma FieldsPlaced(y: string, mo: string, d: string, sep: char, h: string, mi: string, sec: string, tail: string)
    requires |y| == 4 && |mo| == 2 && |d| == 2 && |h| == 2 && |mi| == 2 && |sec| == 2
    ensures Placed(Joined(y, mo, d, sep, h, mi, sec, tail), y, mo, d, sep, h, mi, sec, tail)
  {
    var time := h + ":" + (mi + ":" + (sec + "" + tail));
    assert time[0..2] == h && time[3..5] == mi && time[6..8] == sec && time[8..] == tail && time[2] == ':'
      && time[5] == ':';
    var s := y + "-" + (mo + "-" + (d + [sep] + time));
    assert s[0..4] == y && s[5..7] == mo && s[8..10] == d && s[11..] == time && s[10] == sep;
    assert s[11..13] == time[0..2] && s[14..16] == time[3..5] && s[17..19] == time[6..8] && s[19..] == time[8..];
    assert s[13] == time[2] && s[16] == time[5];
  }

  lemma PlacedJoins(s: string, y: string, mo: string, d: string, sep: char, h: string, mi: string, sec: string,
      tail: string)
    requires Placed(s, y, mo, d, sep, h, mi, sec, tail)
    ensures s == Joined(y, mo, d, sep, h, mi, sec, tail)
  {
    assert s[14..] == mi + ":" + (sec + "" + tail);
    assert s[11..] == h + ":" + s[14..];
    assert s[8..] == d + [sep] + s[11..];
    assert s[5..] == mo + "-" + s[8..];
    assert s == y + "-" + s[5..];
  }

  /** A text of the moment: any separator between date and time, the fraction written out or not, any offset. */
  ghost predicate Spells(s: string, m: Moment, sep: char, point: bool, zone: string)
  {
    exists tail :: Behind(tail, m.micro, point, zone) && s ==
      Joined(Digits(m.date.year, 4), Digits(m.date.month, 2), Digits(m.date.day, 2), sep,
             Digits(m.hour, 2), Digits(m.minute, 2), Digits(m.second, 2), tail)
  }

  lemma ParseReads(s: string, m: Moment, offset: int)
    requires Parse(s) == Some(Parsed(m, offset))
    ensures exists sep, point, zone :: Spells(s, m, sep, point, zone) && Zone(zone, offset)
  {
    var tail, sep := s[19..], s[10];
    ReadDigits(s[0..4]);
    ReadDigits(s[5..7]);
    ReadDigits(s[8..10]);
    ReadDigits(s[11..13]);
    ReadDigits(s[14..16]);
    ReadDigits(s[17..19]);
    var point, zone := ParseTailReads(tail, m.micro, offset);
    hide Digits, ParseDigits, ParseTail, Behind, Joined;
    PlacedJoins(s, s[0..4], s[5..7], s[8..10], sep, s[11..13], s[14..16], s[17..19], tail);
    assert Spells(s, m, sep, point, zone);
  }

  lemma ParseFinds(s: string, m: Moment, offset: int, sep: char, point: bool, zone: string)
    requires Valid(m) && Spells(s, m, sep, point, zone) && Zone(zone, offset)
    ensures Parse(s) == Some(Parsed(m, offset))
  {
    var tail :| Behind(tail, m.micro, point, zone) && s ==
      Joined(Digits(m.date.year, 4), Digits(m.date.month, 2), Digits(m.date.day, 2), sep,
             Digits(m.hour, 2), Digits(m.minute, 2), Digits(m.second, 2), tail);
    assert Pow10(2) == 100 && Pow10(4) == 10000;
    FieldsPlaced(Digits(m.date.year, 4), Digits(m.date.month, 2), Digits(m.date.day, 2), sep,
                 Digits(m.hour, 2), Digits(m.minute, 2), Digits(m.second, 2), tail);
    DigitsReadBack(m.date.year, 4);
    DigitsReadBack(m.date.month, 2);
    DigitsReadBack(m.date.day, 2);
    DigitsReadBack(m.hour, 2);
    DigitsReadBack(m.minute, 2);
    DigitsReadBack(m.second, 2);
    ParseTailFinds(tail, m.micro, offset, point, zone);
    hide Digits, ParseDigits, ParseTail, Behind, Joined, Pow10;
  }

  /** A text reads as a moment exactly when it spells it. */
  lemma ParseIff(s: string, m: Moment, offset: int)
    ensures Parse(s) == Some(Parsed(m, offset)) <==>
      Valid(m) && exists sep, point, zone :: Spells(s, m, sep, point, zone) && Zone(zone, offset)
  {
    hide Parse, Spells, Zone, Valid;
    if Parse(s) == Some(Parsed(m, offset)) {
      ParseReads(s, m, offset);
    } else if Valid(m) {
      forall sep, point, zone ensures !(Spells(s, m, sep, point, zone) && Zone(zone, offset)) {
        if Spells(s, m, sep, point, zone) && Zone(zone, offset) {
          ParseFinds(s, m, offset, sep, point, zone);
        }
      }
    }
  }

  // ---------------------------------------------------------------------------------------
  // Comparing texts
  // ---------------------------------------------------------------------------------------

  /** How SQLite orders TEXT: the first difference decides, and a prefix comes first. */
  predicate TextLess(a: string, b: string)
  {
    if b == "" then false
    else if a == "" then true
    else a[0] < b[0] || (a[0] == b[0] && TextLess(a[1..], b[1..]))
  }

  lemma {:induction false} TextLessConcat(a: string, b: string, x: string, y: string)
    requires |a| == |b|
    ensures TextLess(a + x, b + y) <==> TextLess(a, b) || (a == b && TextLess(x, y))
  {
    if a == "" {
      assert a + x == x && b + y == y;
    } else {
      assert (a + x)[1..] == a[1..] + x && (b + y)[1..] == b[1..] + y;
      TextLessConcat(a[1..], b[1..], x, y);
      assert a == [a[0]] + a[1..] && b == [b[0]] + b[1..];
    }
  }

  /** Fixed-width numbers compare as texts exactly as they do as numbers. */
  lemma {:induction false} DigitsOrder(m: nat, n: nat, w: nat)
    requires m < Pow10(w) && n < Pow10(w)
    ensures TextLess(Digits(m, w), Digits(n, w)) <==> m < n
    ensures Digits(m, w) == Digits(n, w) <==> m == n
  {
    if w > 0 {
      DigitsOrder(m / 10, n / 10, w - 1);
      var a, b := Digits(m / 10, w - 1), Digits(n / 10, w - 1);
      var c, d := Digit(m % 10), Digit(n % 10);
      TextLessConcat(a, b, [c], [d]);
      assert TextLess([c], [d]) <==> c < d;
      assert (a + [c])[..w - 1] == a && (b + [d])[..w - 1] == b;
      assert (a + [c])[w - 1] == c && (b + [d])[w - 1] == d;
    }
  }

  lemma {:induction false} TextLessSame(s: string)
    ensures !TextLess(s, s)
  {
    if s != "" {
      TextLessSame(s[1..]);
    }
  }

  /** A leading fixed-width number decides, and otherwise what follows it. */
  lemma NumeralOrder(m: nat, n: nat, w: nat, separator: string, x: string, y: string)
    requires m < Pow10(w) && n < Pow10(w)
    ensures TextLess(Numeral(m, w, separator, x), Numeral(n, w, separator, y)) <==> m < n || (m == n && TextLess(x, y))
  {
    var a, b := Digits(m, w), Digits(n, w);
    DigitsOrder(m, n, w);
    assert Numeral(m, w, separator, x) == a + (separator + x) && Numeral(n, w, separator, y) == b + (separator + y);
    TextLessConcat(a, b, separator + x, separator + y);
    TextLessConcat(separator, separator, x, y);
    TextLessSame(separator);
  }

  /** A missing fraction comes first, since '+' sorts before '.'. */
  lemma TailOrder(m: nat, n: nat)
    requires m < 1000000 && n < 1000000
    ensures TextLess(Tail(m), Tail(n)) <==> m < n
  {
    if m == 0 && n == 0 {
      TextLessSame(Tail(0));
    } else if m == 0 {
      assert Tail(n)[0] == '.' && Tail(m)[0] == '+';
    } else if n == 0 {
      assert Tail(m)[0] == '.' && Tail(n)[0] == '+';
    } else {
      assert Pow10(6) == 1000000;
      assert Tail(m) == "." + Numeral(m, 6, "", "+00:00") && Tail(n) == "." + Numeral(n, 6, "", "+00:00");
      TextLessConcat(".", ".", Numeral(m, 6, "", "+00:00"), Numeral(n, 6, "", "+00:00"));
      TextLessSame(".");
      NumeralOrder(m, n, 6, "", "+00:00", "+00:00");
      TextLessSame("+00:00");
    }
  }

  // ---------------------------------------------------------------------------------------
  // Comparing instants
  // ---------------------------------------------------------------------------------------

  lemma {:induction false} MonthsGrow(year: nat, a: nat, b: nat)
    requires 1 <= a < b
    ensures DaysBeforeMonth(year, a) + DaysInMonth(year, a) <= DaysBeforeMonth(year, b)
    decreases b
  {
    hide DaysInMonth;
    if a + 1 < b {
      MonthsGrow(year, a, b - 1);
    }
  }

  lemma {:induction false} YearsGrow(a: nat, b: nat)
    requires 1 <= a < b
    ensures DaysBeforeYear(a) + DaysInYear(a) <= DaysBeforeYear(b)
    decreases b
  {
    hide DaysInYear;
    if a + 1 < b {
      YearsGrow(a, b - 1);
    }
  }

  predicate DateLess(a: Date, b: Date)
  {
    a.year < b.year || (a.year == b.year && (a.month < b.month || (a.month == b.month && a.day < b.day)))
  }

  lemma DateBefore(a: Date, b: Date)
    requires ValidDate(a) && ValidDate(b) && DateLess(a, b)
    ensures DayNumber(a) < DayNumber(b)
  {
    YearHasTwelveMonths(a.year);
    hide IsLeap, DaysInMonth, DaysInYear;
    if a.year < b.year {
      YearsGrow(a.year, b.year);
      MonthsGrow(a.year, a.month, 13);
    } else if a.month < b.month {
      MonthsGrow(a.year, a.month, b.month);
    }
  }

  lemma DayInRange(d: Date)
    requires ValidDate(d)
    ensures DayNumber(d) < DaysBeforeYear(LAST_YEAR + 1)
  {
    YearHasTwelveMonths(d.year);
    hide IsLeap, DaysInMonth, DaysBeforeMonth, DaysInYear;
    YearsGrow(d.year, LAST_YEAR + 1);
    MonthsGrow(d.year, d.month, 13);
  }

  predicate MomentLess(a: Moment, b: Moment)
  {
    DateLess(a.date, b.date) || (a.date == b.date && MicrosOfDay(a) < MicrosOfDay(b))
  }

  lemma MomentBefore(a: Moment, b: Moment)
    requires Valid(a) && Valid(b)
    ensures Instant(a) < Instant(b) <==> MomentLess(a, b)
    ensures Instant(a) == Instant(b) <==> a == b
  {
    assert MicrosOfDay(a) < DAY && MicrosOfDay(b) < DAY;
    if DateLess(a.date, b.date) {
      DateBefore(a.date, b.date);
    } else if DateLess(b.date, a.date) {
      DateBefore(b.date, a.date);
    } else {
      assert a.date == b.date;
    }
  }

  lemma TimeOrder(a: Moment, b: Moment)
    requires Valid(a) && Valid(b)
    ensures TextLess(RenderTime(a), RenderTime(b)) <==> MicrosOfDay(a) < MicrosOfDay(b)
  {
    assert Pow10(2) == 100;
    var sa, sb := Numeral(a.second, 2, "", Tail(a.micro)), Numeral(b.second, 2, "", Tail(b.micro));
    var ma, mb := Numeral(a.minute, 2, ":", sa), Numeral(b.minute, 2, ":", sb);
    TailOrder(a.micro, b.micro);
    NumeralOrder(a.second, b.second, 2, "", Tail(a.micro), Tail(b.micro));
    NumeralOrder(a.minute, b.minute, 2, ":", sa, sb);
    NumeralOrder(a.hour, b.hour, 2, ":", ma, mb);
    hide TextLess, Numeral, Tail;
  }

  /** Canonical texts, with six fractional digits or none, compare exactly as their instants do. */
  lemma CanonicalTextOrdersAsInstants(a: Moment, b: Moment)
    requires Valid(a) && Valid(b)
    ensures TextLess(Render(a), Render(b)) <==> Instant(a) < Instant(b)
  {
    assert Pow10(2) == 100 && Pow10(4) == 10000;
    var da, db := Numeral(a.date.day, 2, "T", RenderTime(a)), Numeral(b.date.day, 2, "T", RenderTime(b));
    var ma, mb := Numeral(a.date.month, 2, "-", da), Numeral(b.date.month, 2, "-", db);
    TimeOrder(a, b);
    NumeralOrder(a.date.day, b.date.day, 2, "T", RenderTime(a), RenderTime(b));
    NumeralOrder(a.date.month, b.date.month, 2, "-", da, db);
    NumeralOrder(a.date.year, b.date.year, 4, "-", ma, mb);
    MomentBefore(a, b);
    hide TextLess, Numeral, RenderTime, Instant, MicrosOfDay;
  }

  // ---------------------------------------------------------------------------------------
  // Round trips
  // ---------------------------------------------------------------------------------------

  lemma OffsetReadsBack()
    ensures ParseOffset("+00:00") == Some(0)
  {
    assert "+00:00"[1..3] == "00" && "+00:00"[4..6] == "00";
    assert "00"[..1] == "0" && "0"[..0] == "";
    assert ParseDigits("0") == Some(0);
    assert ParseDigits("00") == Some(0);
  }

  lemma TailReadsBack(micro: nat)
    requires micro < 1000000
    ensures ParseTail(Tail(micro)) == Some((micro, 0))
  {
    OffsetReadsBack();
    var s := Tail(micro);
    if micro != 0 {
      assert Pow10(6) == 1000000;
      DigitsReadBack(micro, 6);
      assert s[1..7] == Digits(micro, 6) && s[7..] == "+00:00";
    } else {
      assert s == "+00:00";
    }
  }

  /** A rendered moment reads back as itself, in UTC. */
  lemma RenderReadsBack(m: Moment)
    requires Valid(m)
    ensures Parse(Render(m)) == Some(Parsed(m, 0))
  {
    assert Pow10(2) == 100 && Pow10(4) == 10000;
    FieldsPlaced(Digits(m.date.year, 4), Digits(m.date.month, 2), Digits(m.date.day, 2), 'T',
                 Digits(m.hour, 2), Digits(m.minute, 2), Digits(m.second, 2), Tail(m.micro));
    DigitsReadBack(m.date.year, 4);
    DigitsReadBack(m.date.month, 2);
    DigitsReadBack(m.date.day, 2);
    DigitsReadBack(m.hour, 2);
    DigitsReadBack(m.minute, 2);
    DigitsReadBack(m.second, 2);
    TailReadsBack(m.micro);
    hide Digits, ParseDigits, ParseTail, Tail, Pow10;
  }

  lemma RenderIsNotZulu(m: Moment)
    ensures Unzulu(Render(m)) == Render(m) && Render(m) != ""
  {
    var s := Render(m);
    assert s[|s| - 1] == '0';
  }

  lemma InstantInRange(m: Moment)
    requires Valid(m)
    ensures Instant(m) < Limit()
  {
    DayInRange(m.date);
    MicrosInDay(m);
    hide DayNumber, DaysBeforeYear, ValidDate, MicrosOfDay;
    Scale(DayNumber(m.date), DaysBeforeYear(LAST_YEAR + 1), MicrosOfDay(m));
  }

  lemma MicrosInDay(m: Moment)
    requires Valid(m)
    ensures MicrosOfDay(m) < DAY
  {
    hide ValidDate;
  }

  lemma Scale(n: nat, limit: nat, rest: nat)
    requires n < limit && rest < DAY
    ensures n * DAY + rest < limit * DAY
  {
  }

  lemma MomentComesBack(m: Moment)
    requires Valid(m)
    ensures Instant(m) < Limit() && MomentOf(Instant(m)) == m
  {
    InstantInRange(m);
    MomentOfIs(Instant(m));
    hide Valid, Instant, MomentOf, Limit;
    MomentBefore(MomentOf(Instant(m)), m);
  }

  lemma NormalizeUtc(text: string, m: Moment)
    requires text != "" && Unzulu(text) == text && Valid(m) && Parse(text) == Some(Parsed(m, 0))
    requires Instant(m) < Limit() && MomentOf(Instant(m)) == m
    ensures Normalize(Some(text)) == Ok(Some(Render(m)))
  {
    hide Render, Parse, Instant, Limit, Unzulu, MomentOf, Valid;
  }

  /** A canonical text is its own normal form. */
  lemma CanonicalIsFixed(m: Moment)
    requires Valid(m)
    ensures Normalize(Some(Render(m))) == Ok(Some(Render(m)))
  {
    hide Render, Parse, Instant, Limit, Unzulu, MomentOf, Valid, Normalize;
    RenderIsNotZulu(m);
    RenderReadsBack(m);
    MomentComesBack(m);
    NormalizeUtc(Render(m), m);
  }

  /** What normalising answers: nothing for nothing; a text that cannot be read and an instant outside the years 1 to
      9999 are refused; and otherwise it is the canonical text of the same instant in UTC. */
  lemma NormalizeMeans(raw: Option<string>)
    ensures Normalize(raw) == Ok(None) <==> raw == None || raw == Some("")
    ensures raw.Some? && raw.value != "" ==>
      var z := |raw.value| > 0 && raw.value[|raw.value| - 1] == 'Z';
      var p := Parse(if z then raw.value[..|raw.value| - 1] + "+00:00" else raw.value);
      && (Normalize(raw) == Err(Unparseable) <==> p == None)
      && (Normalize(raw) == Err(OutOfRange) <==>
            p.Some? && !(0 <= Instant(p.value.moment) - p.value.offset < Limit()))
      && (Normalize(raw).Ok? ==>
            && Normalize(raw).value.Some? && p.Some?
            && exists m ::
                 && Valid(m) && Instant(m) == Instant(p.value.moment) - p.value.offset
                 && Normalize(raw).value.value == Render(m)
                 && Parse(Normalize(raw).value.value) == Some(Parsed(m, 0)))
  {
    hide Parse, Render, Limit, Instant, MomentOf, Valid;
    if Normalize(raw).Ok? && Normalize(raw).value.Some? {
      var m := MomentOf(InstantOf(Parse(Unzulu(raw.value)).value));
      MomentOfIs(InstantOf(Parse(Unzulu(raw.value)).value));
      RenderReadsBack(m);
    }
  }

  /** Normalising is idempotent. */
  lemma NormalizeIsIdempotent(raw: Option<string>)
    requires Normalize(raw).Ok?
    ensures Normalize(Normalize(raw).value) == Normalize(raw)
  {
    hide Parse, Render, Limit, Instant, Unzulu, MomentOf, Valid;
    if Normalize(raw).value.Some? {
      MomentOfIs(InstantOf(Parse(Unzulu(raw.value)).value));
      CanonicalIsFixed(MomentOf(InstantOf(Parse(Unzulu(raw.value)).value)));
    }
  }

  /** Normalised texts compare exactly as the instants they were read from. */
  lemma NormalizedTextOrdersAsInstants(a: string, b: string)
    requires a != "" && b != "" && Normalize(Some(a)).Ok? && Normalize(Some(b)).Ok?
    ensures Parse(Unzulu(a)).Some? && Parse(Unzulu(b)).Some?
    ensures TextLess(Normalize(Some(a)).value.value, Normalize(Some(b)).value.value)
      <==> InstantOf(Parse(Unzulu(a)).value) < InstantOf(Parse(Unzulu(b)).value)
  {
    hide Parse, Render, Limit, Unzulu, MomentOf, Valid;
    MomentOfIs(InstantOf(Parse(Unzulu(a)).value));
    MomentOfIs(InstantOf(Parse(Unzulu(b)).value));
    CanonicalTextOrdersAsInstants(MomentOf(InstantOf(Parse(Unzulu(a)).value)),
      MomentOf(InstantOf(Parse(Unzulu(b)).value)));
  }

  /** Texts that are not canonical miscompare: an hour after midnight at +02:00 is before midnight in UTC. */
  lemma OffsetTextMiscompares(m: Moment)
    requires Valid(m) && m.hour == 0 && m.micro == 0
    ensures var late := Numeral(m.date.year, 4, "-", Numeral(m.date.month, 2, "-", Numeral(m.date.day, 2, "T",
                          Numeral(1, 2, ":", Numeral(m.minute, 2, ":", Numeral(m.second, 2, "", "+02:00"))))));
      TextLess(Render(m), late) && Instant(m.(hour := 1)) - 2 * 3600000000 < Instant(m)
  {
    assert Pow10(2) == 100 && Pow10(4) == 10000;
    var sa, sb := Numeral(m.second, 2, "", Tail(0)), Numeral(m.second, 2, "", "+02:00");
    var ma, mb := Numeral(m.minute, 2, ":", sa), Numeral(m.minute, 2, ":", sb);
    var ha, hb := Numeral(0, 2, ":", ma), Numeral(1, 2, ":", mb);
    var da, db := Numeral(m.date.day, 2, "T", ha), Numeral(m.date.day, 2, "T", hb);
    NumeralOrder(0, 1, 2, ":", ma, mb);
    NumeralOrder(m.date.day, m.date.day, 2, "T", ha, hb);
    NumeralOrder(m.date.month, m.date.month, 2, "-", da, db);
    NumeralOrder(m.date.year, m.date.year, 4, "-", Numeral(m.date.month, 2, "-", da),
      Numeral(m.date.month, 2, "-", db));
    hide TextLess, Numeral, Tail, DayNumber, ValidDate;
  }
}
