/**
 Timestamps as seconds: `_utc_seconds` of scripts/testimony_validate.py, against a count of civil days
 one year and one month at a time. Timestamps are those of section 5.6 of RFC 3339, with ASCII digits.

 The source counts days by a closed form over years of any size, corrected by one in the first two
 months of a leap year. The count it is compared with adds up whole years and whole months, and knows
 of leap years only how long a February is.

 Fractions are read as decimals and offsets as a shift of the whole; a leap second is second 60 of
 its minute and counts as the next one.
 */
module Calendar {
  import opened Wrappers

  datatype Zone = Zulu | Offset(ahead: bool, hours: nat, minutes: nat)

  datatype Stamp = Stamp(y: nat, mo: nat, d: nat, h: nat, mi: nat, s: nat, fraction: string, zone: Zone)

  // ---------------------------------------------------------------- the pattern

  predicate Digit(c: char) {
    '0' <= c <= '9'
  }

  predicate AllDigits(t: string) {
    forall i :: 0 <= i < |t| ==> Digit(t[i])
  }

  function Number(t: string): nat
    requires AllDigits(t)
  {
    if t == "" then 0 else 10 * Number(t[..|t| - 1]) + (t[|t| - 1] as int - '0' as int)
  }

  function LeadingDigits(t: string): (n: nat)
    ensures n <= |t| && AllDigits(t[..n]) && (n < |t| ==> !Digit(t[n]))
  {
    if t == "" || !Digit(t[0]) then 0
    else
      var n := LeadingDigits(t[1..]);
      assert t[1..][..n] == t[1..n + 1];
      n + 1
  }

  /** Digits where the pattern wants them, and the given marks between. */
  predicate Shaped(t: string) {
    && |t| >= 19
    && AllDigits(t[..4]) && t[4] == '-' && AllDigits(t[5..7]) && t[7] == '-' && AllDigits(t[8..10])
    && (t[10] == 'T' || t[10] == 't')
    && AllDigits(t[11..13]) && t[13] == ':' && AllDigits(t[14..16]) && t[16] == ':' && AllDigits(t[17..19])
  }

  /** `$` also matches before a newline that ends the text. */
  function Ended(t: string): string {
    if t != "" && t[|t| - 1] == '\n' then t[..|t| - 1] else t
  }

  function ReadZone(t: string): Option<Zone> {
    if t == "Z" || t == "z" then Some(Zulu)
    else if |t| == 6 && (t[0] == '+' || t[0] == '-') && AllDigits(t[1..3]) && t[3] == ':' && AllDigits(t[4..6]) then
      Some(Offset(t[0] == '+', Number(t[1..3]), Number(t[4..6])))
    else None
  }

  function ReadRest(t: string): Option<(string, Zone)> {
    if t != "" && t[0] == '.' then
      var n := LeadingDigits(t[1..]);
      if n == 0 then None
      else
        match ReadZone(Ended(t[n + 1..]))
        case None => None
        case Some(zone) => Some((t[1..n + 1], zone))
    else
      match ReadZone(Ended(t))
      case None => None
      case Some(zone) => Some(("", zone))
  }

  function Read(t: string): Option<Stamp> {
    if !Shaped(t) then None
    else
      match ReadRest(t[19..])
      case None => None
      case Some((fraction, zone)) =>
        Some(Stamp(Number(t[..4]), Number(t[5..7]), Number(t[8..10]), Number(t[11..13]), Number(t[14..16]), Number(t[17..19]),
                   fraction, zone))
  }

  // ---------------------------------------------------------------- the arithmetic

  const BEFORE_MONTH := [0, 31, 59, 90, 120, 151, 181, 212, 243, 273, 304, 334]

  predicate Leap(y: nat) {
    y % 4 == 0 && (y % 100 != 0 || y % 400 == 0)
  }

  /** Index -1 is the last, as in Python. */
  function BeforeMonth(mo: nat): nat
    requires mo <= 12
  {
    if mo == 0 then BEFORE_MONTH[11] else BEFORE_MONTH[mo - 1]
  }

  function Days(y: nat, mo: nat, d: nat): int
    requires mo <= 12
  {
    y * 365 + y / 4 - y / 100 + y / 400 + BeforeMonth(mo) + d - (if mo <= 2 && Leap(y) then 1 else 0)
  }

  function Fraction(t: string): real
  {
    if t == "" || !AllDigits(t) then 0.0 else Number(t) as real / Power(|t|) as real
  }

  function Power(n: nat): (p: nat)
    ensures p > 0
  {
    if n == 0 then 1 else 10 * Power(n - 1)
  }

  function Ahead(zone: Zone): int {
    match zone
    case Zulu => 0
    case Offset(ahead, hours, minutes) => if ahead then hours * 3600 + minutes * 60 else -(hours * 3600 + minutes * 60)
  }

  datatype Reading = NotATimestamp | Raises | Seconds(t: real)

  function UtcSeconds(text: string): Reading {
    match Read(text)
    case None => NotATimestamp
    case Some(x) =>
      if x.mo > 12 then Raises
      else
        Seconds((Days(x.y, x.mo, x.d) * 86400 + x.h * 3600 + x.mi * 60 + x.s - Ahead(x.zone)) as real + Fraction(x.fraction))
  }

  // ---------------------------------------------------------------- civil days, one at a time

  function YearLength(y: nat): nat {
    if Leap(y) then 366 else 365
  }

  function MonthLength(y: nat, mo: nat): nat {
    if mo == 2 then if Leap(y) then 29 else 28
    else if mo in {4, 6, 9, 11} then 30
    else 31
  }

  predicate ValidDate(y: nat, mo: nat, d: nat) {
    1 <= mo <= 12 && 1 <= d <= MonthLength(y, mo)
  }

  /** Days in the years before `y`. */
  function BeforeYear(y: nat): nat {
    if y == 0 then 0 else BeforeYear(y - 1) + YearLength(y - 1)
  }

  /** Days in the months of `y` before `mo`. */
  function MonthsBefore(y: nat, mo: nat): nat {
    if mo <= 1 then 0 else MonthsBefore(y, mo - 1) + MonthLength(y, mo - 1)
  }

  /** Whole days since the first of January of year zero. */
  function Elapsed(y: nat, mo: nat, d: nat): int {
    BeforeYear(y) + MonthsBefore(y, mo) + d - 1
  }

  function NextDay(y: nat, mo: nat, d: nat): (nat, nat, nat) {
    if d < MonthLength(y, mo) then (y, mo, d + 1)
    else if mo < 12 then (y, mo + 1, 1)
    else (y + 1, 1, 1)
  }

  lemma {:induction false} YearsClosed(y: nat)
    ensures BeforeYear(y) == y * 365 + y / 4 - y / 100 + y / 400 + (if Leap(y) then 0 else 1)
  {
    if y > 0 {
      YearsClosed(y - 1);
      LeapStep(y);
    }
  }

  /** What the quotients gain from one year to the next. */
  lemma LeapStep(y: nat)
    requires y > 0
    ensures y / 4 - y / 100 + y / 400 == (y - 1) / 4 - (y - 1) / 100 + (y - 1) / 400 + if Leap(y) then 1 else 0
  {
    QuotientStep(y, 4);
    QuotientStep(y, 100);
    QuotientStep(y, 400);
    Multiples(y);
  }

  lemma QuotientStep(y: nat, k: nat)
    requires y > 0 && k > 0
    ensures y / k == (y - 1) / k + if y % k == 0 then 1 else 0
  {
    var q, r := y / k, y % k;
    assert y == q * k + r;
    if r == 0 {
      Quotient(y - 1, k, q - 1, k - 1);
    } else {
      Quotient(y - 1, k, q, r - 1);
    }
  }

  lemma Multiple(a: int, k: int)
    requires k > 0
    ensures a >= 1 ==> a * k >= k
    ensures a <= -1 ==> a * k <= -k
  {
    if a >= 1 {
      assert (a - 1) * k >= 0;
    } else if a <= -1 {
      assert (-a - 1) * k >= 0;
    }
  }

  lemma Quotient(x: int, k: int, q: int, r: int)
    requires k > 0 && x == q * k + r && 0 <= r < k
    ensures x / k == q && x % k == r
  {
    var q', r' := x / k, x % k;
    Same(q, r, q', r', k);
  }

  lemma Same(q: int, r: int, q': int, r': int, k: int)
    requires k > 0 && q * k + r == q' * k + r' && 0 <= r < k && 0 <= r' < k
    ensures q == q' && r == r'
  {
    Multiple(q - q', k);
    assert (q - q') * k == r' - r;
  }

  lemma Multiples(y: nat)
    ensures y % 400 == 0 ==> y % 100 == 0
    ensures y % 100 == 0 ==> y % 4 == 0
  {
    if y % 400 == 0 {
      Quotient(y, 100, 4 * (y / 400), 0);
    }
    if y % 100 == 0 {
      Quotient(y, 4, 25 * (y / 100), 0);
    }
  }

  lemma MonthsClosed(y: nat, mo: nat)
    requires 1 <= mo <= 12
    ensures MonthsBefore(y, mo) == BeforeMonth(mo) + if mo > 2 && Leap(y) then 1 else 0
    decreases mo
  {
    if mo > 1 {
      MonthsClosed(y, mo - 1);
    }
  }

  /** The closed form counts the days. */
  lemma DaysAreElapsed(y: nat, mo: nat, d: nat)
    requires 1 <= mo <= 12
    ensures Days(y, mo, d) == Elapsed(y, mo, d)
  {
    YearsClosed(y);
    MonthsClosed(y, mo);
    hide Leap, BeforeYear, MonthsBefore, BeforeMonth;
  }

  lemma MonthsFillTheYear(y: nat)
    ensures MonthsBefore(y, 12) + MonthLength(y, 12) == YearLength(y)
  {
    MonthsClosed(y, 12);
  }

  /** From one civil day to the next is one day: month ends, leap days, centuries and year ends alike. */
  lemma NextDayIsOneMore(y: nat, mo: nat, d: nat)
    requires ValidDate(y, mo, d)
    ensures var (y', mo', d') := NextDay(y, mo, d); ValidDate(y', mo', d') && Days(y', mo', d') == Days(y, mo, d) + 1
  {
    var (y', mo', d') := NextDay(y, mo, d);
    DaysAreElapsed(y, mo, d);
    DaysAreElapsed(y', mo', d');
    MonthsFillTheYear(y);
    hide Days, Leap, MonthLength;
    MonthsAreLong(y', mo');
  }

  lemma MonthsAreLong(y: nat, mo: nat)
    ensures 28 <= MonthLength(y, mo) <= 31
  {
    hide Leap;
  }

  // ---------------------------------------------------------------- order of dates

  /** Year first, then month, then day. */
  predicate Earlier(y: nat, mo: nat, d: nat, y': nat, mo': nat, d': nat) {
    y < y' || (y == y' && (mo < mo' || (mo == mo' && d < d')))
  }

  lemma {:induction false} YearsGrow(y: nat, y': nat)
    requires y < y'
    ensures BeforeYear(y) + YearLength(y) <= BeforeYear(y')
  {
    hide Leap;
    if y + 1 < y' {
      YearsGrow(y, y' - 1);
    }
  }

  lemma {:induction false} MonthsGrow(y: nat, mo: nat, mo': nat)
    requires 1 <= mo < mo'
    ensures MonthsBefore(y, mo) + MonthLength(y, mo) <= MonthsBefore(y, mo')
  {
    hide MonthLength;
    if mo + 1 < mo' {
      MonthsGrow(y, mo, mo' - 1);
    }
  }

  lemma WithinYear(y: nat, mo: nat, d: nat)
    requires ValidDate(y, mo, d)
    ensures 0 <= MonthsBefore(y, mo) + d - 1 < YearLength(y)
  {
    MonthsFillTheYear(y);
    hide Leap, MonthLength, YearLength;
    if mo < 12 {
      MonthsGrow(y, mo, 12);
      MonthsAreLong(y, 12);
    }
  }

  lemma EarlierHasFewer(y: nat, mo: nat, d: nat, y': nat, mo': nat, d': nat)
    requires ValidDate(y, mo, d) && ValidDate(y', mo', d') && Earlier(y, mo, d, y', mo', d')
    ensures Days(y, mo, d) < Days(y', mo', d')
  {
    DaysAreElapsed(y, mo, d);
    DaysAreElapsed(y', mo', d');
    WithinYear(y, mo, d);
    WithinYear(y', mo', d');
    hide Days, Leap, MonthLength, YearLength, BeforeYear, MonthsBefore;
    if y < y' {
      YearsGrow(y, y');
    } else if mo < mo' {
      MonthsGrow(y, mo, mo');
    }
  }

  /** The count tells two valid dates apart, and orders them as the calendar does. */
  lemma DaysOrderDates(y: nat, mo: nat, d: nat, y': nat, mo': nat, d': nat)
    requires ValidDate(y, mo, d) && ValidDate(y', mo', d')
    ensures Days(y, mo, d) < Days(y', mo', d') <==> Earlier(y, mo, d, y', mo', d')
    ensures Days(y, mo, d) == Days(y', mo', d') <==> y == y' && mo == mo' && d == d'
  {
    hide Days, ValidDate;
    if Earlier(y, mo, d, y', mo', d') {
      EarlierHasFewer(y, mo, d, y', mo', d');
    } else if Earlier(y', mo', d', y, mo, d) {
      EarlierHasFewer(y', mo', d', y, mo, d);
    }
  }

  // ---------------------------------------------------------------- instants

  predicate ValidZone(zone: Zone) {
    zone.Offset? ==> zone.hours < 24 && zone.minutes < 60
  }

  /** A timestamp of section 5.6 of RFC 3339; 60 is a leap second. */
  predicate Valid(x: Stamp) {
    && x.y < 10000 && ValidDate(x.y, x.mo, x.d)
    && x.h < 24 && x.mi < 60 && x.s <= 60 && AllDigits(x.fraction) && ValidZone(x.zone)
  }

  /** The instant denoted, in seconds of UTC since the first of January of year zero. */
  function Instant(x: Stamp): real {
    var local := Elapsed(x.y, x.mo, x.d) * 86400 + x.h * 3600 + x.mi * 60 + x.s;
    (local - Ahead(x.zone)) as real + Fraction(x.fraction)
  }

  // ---------------------------------------------------------------- timestamps as text

  function Padded(n: nat, width: nat): (t: string)
    ensures |t| == width && AllDigits(t)
  {
    if width == 0 then "" else Padded(n / 10, width - 1) + [(n % 10 + '0' as int) as char]
  }

  /** How a writer spells what the pattern leaves open: the letters, and a newline at the end. */
  datatype Style = Style(sep: string, zed: string, end: string)

  predicate Allowed(st: Style) {
    st.sep in {"T", "t"} && st.zed in {"Z", "z"} && st.end in {"", "\n"}
  }

  const PLAIN := Style("T", "Z", "")

  function PrintZone(zone: Zone, st: Style): string {
    (match zone
     case Zulu => st.zed
     case Offset(ahead, hours, minutes) => (if ahead then "+" else "-") + Padded(hours, 2) + ":" + Padded(minutes, 2))
    + st.end
  }

  /** The tail of a printed timestamp. */
  function PrintRest(x: Stamp, st: Style): string {
    (if x.fraction == "" then "" else "." + x.fraction) + PrintZone(x.zone, st)
  }

  function PrintAs(x: Stamp, st: Style): string {
    Padded(x.y, 4) + "-" + Padded(x.mo, 2) + "-" + Padded(x.d, 2) + st.sep
    + (Padded(x.h, 2) + ":" + Padded(x.mi, 2) + ":" + Padded(x.s, 2) + PrintRest(x, st))
  }

  function Print(x: Stamp): string {
    PrintAs(x, PLAIN)
  }

  lemma {:induction false} NumberPadded(n: nat, width: nat)
    requires n < Power(width)
    ensures Number(Padded(n, width)) == n
  {
    if width > 0 {
      NumberPadded(n / 10, width - 1);
    }
  }

  lemma {:induction false} DigitsThen(t: string, rest: string)
    requires AllDigits(t) && (rest != "" ==> !Digit(rest[0]))
    ensures LeadingDigits(t + rest) == |t|
  {
    if t == "" {
      assert t + rest == rest;
    } else {
      assert (t + rest)[1..] == t[1..] + rest;
      assert forall i :: 0 <= i < |t| - 1 ==> t[1..][i] == t[i + 1];
      DigitsThen(t[1..], rest);
    }
  }

  lemma DateLayout(a: string, b: string, c: string, sep: string, rest: string)
    requires |a| == 4 && |b| == 2 && |c| == 2 && |sep| == 1
    ensures var t := a + "-" + b + "-" + c + sep + rest;
            |t| == 11 + |rest| && t[..4] == a && t[4] == '-' && t[5..7] == b && t[7] == '-' && t[8..10] == c && t[10] == sep[0] && t[11..] == rest
  {
  }

  lemma TimeLayout(a: string, b: string, c: string, rest: string)
    requires |a| == 2 && |b| == 2 && |c| == 2
    ensures var t := a + ":" + b + ":" + c + rest;
            |t| == 8 + |rest| && t[..2] == a && t[2] == ':' && t[3..5] == b && t[5] == ':' && t[6..8] == c && t[8..] == rest
  {
  }

  lemma ShiftSlices(t: string, u: string)
    requires |t| >= 19 && t[11..] == u
    ensures |u| >= 8 && t[11..13] == u[..2] && t[13] == u[2] && t[14..16] == u[3..5] && t[16] == u[5] && t[17..19] == u[6..8] && t[19..] == u[8..]
  {
    assert forall i :: 0 <= i < |u| ==> u[i] == t[i + 11];
  }

  lemma ZoneReads(zone: Zone, st: Style)
    requires TwoDigits(zone) && Allowed(st)
    ensures ReadZone(Ended(PrintZone(zone, st))) == Some(zone)
    ensures PrintZone(zone, st) != "" && PrintZone(zone, st)[0] != '.' && !Digit(PrintZone(zone, st)[0])
  {
    var t := PrintZone(zone, st);
    match zone
    case Zulu =>
      assert t == st.zed + st.end && Ended(t) == st.zed;
    case Offset(ahead, hours, minutes) =>
      NumberPadded(hours, 2);
      NumberPadded(minutes, 2);
      ZoneLayout(if ahead then "+" else "-", Padded(hours, 2), Padded(minutes, 2));
      var u := (if ahead then "+" else "-") + Padded(hours, 2) + ":" + Padded(minutes, 2);
      assert t == u + st.end && u[5] == Padded(minutes, 2)[1];
      assert Ended(t) == u;
  }

  lemma ZoneLayout(sign: string, a: string, b: string)
    requires |sign| == 1 && |a| == 2 && |b| == 2
    ensures var t := sign + a + ":" + b; |t| == 6 && t[0] == sign[0] && t[1..3] == a && t[3] == ':' && t[4..6] == b && t[5] == b[1]
  {
  }

  lemma PointLayout(f: string, z: string)
    ensures var t := "." + f + z;
            t != "" && t[0] == '.' && t[1..] == f + z && t[1..|f| + 1] == f && t[|f| + 1..] == z
  {
  }

  lemma FractionReads(f: string, z: string, zone: Zone)
    requires f != "" && AllDigits(f) && z != "" && !Digit(z[0]) && ReadZone(Ended(z)) == Some(zone)
    ensures ReadRest("." + f + z) == Some((f, zone))
  {
    hide AllDigits, ReadZone, Ended;
    PointLayout(f, z);
    DigitsThen(f, z);
  }

  lemma RestReads(x: Stamp, st: Style)
    requires AllDigits(x.fraction) && TwoDigits(x.zone) && Allowed(st)
    ensures ReadRest(PrintRest(x, st)) == Some((x.fraction, x.zone))
  {
    var z := PrintZone(x.zone, st);
    ZoneReads(x.zone, st);
    hide PrintZone, ReadZone, Ended, AllDigits, Allowed, TwoDigits;
    if x.fraction == "" {
      assert PrintRest(x, st) == z;
    } else {
      FractionReads(x.fraction, z, x.zone);
    }
  }

  predicate TwoDigits(zone: Zone) {
    zone.Offset? ==> zone.hours < 100 && zone.minutes < 100
  }

  /** Every field within its digits, whether or not the calendar knows it. */
  predicate Fits(x: Stamp) {
    && x.y < 10000 && x.mo < 100 && x.d < 100 && x.h < 100 && x.mi < 100 && x.s < 100
    && AllDigits(x.fraction) && TwoDigits(x.zone)
  }

  lemma FieldsRead(x: Stamp)
    requires Fits(x)
    ensures Number(Padded(x.y, 4)) == x.y && Number(Padded(x.mo, 2)) == x.mo && Number(Padded(x.d, 2)) == x.d
    ensures Number(Padded(x.h, 2)) == x.h && Number(Padded(x.mi, 2)) == x.mi && Number(Padded(x.s, 2)) == x.s
  {
    hide Number, Padded, AllDigits;
    Powers();
    NumberPadded(x.y, 4);
    NumberPadded(x.mo, 2);
    NumberPadded(x.d, 2);
    NumberPadded(x.h, 2);
    NumberPadded(x.mi, 2);
    NumberPadded(x.s, 2);
  }

  lemma Powers()
    ensures Power(2) == 100 && Power(4) == 10000
  {
    assert Power(1) == 10 && Power(3) == 1000;
  }

  /** What is printed, in whatever style, is read as what was printed. */
  lemma SpelledReads(x: Stamp, st: Style)
    requires Fits(x) && Allowed(st)
    ensures Read(PrintAs(x, st)) == Some(x)
  {
    var t := PrintAs(x, st);
    var u := Padded(x.h, 2) + ":" + Padded(x.mi, 2) + ":" + Padded(x.s, 2) + PrintRest(x, st);
    FieldsRead(x);
    RestReads(x, st);
    hide PrintRest, Padded, Number, ReadRest;
    DateLayout(Padded(x.y, 4), Padded(x.mo, 2), Padded(x.d, 2), st.sep, u);
    TimeLayout(Padded(x.h, 2), Padded(x.mi, 2), Padded(x.s, 2), PrintRest(x, st));
    ShiftSlices(t, u);
  }

  /** A printed timestamp reads back as what was printed. */
  lemma PrintedReads(x: Stamp)
    requires Valid(x)
    ensures Read(Print(x)) == Some(x)
  {
    MonthsAreLong(x.y, x.mo);
    hide PrintAs, Read, AllDigits;
    SpelledReads(x, PLAIN);
  }

  // ---------------------------------------------------------------- nothing else is read

  lemma {:induction false} PaddedNumber(t: string)
    requires AllDigits(t)
    ensures Padded(Number(t), |t|) == t && Number(t) < Power(|t|)
  {
    if t != "" {
      PaddedNumber(t[..|t| - 1]);
    }
  }

  lemma TwoPadded(t: string)
    requires |t| == 2 && AllDigits(t)
    ensures Padded(Number(t), 2) == t && Number(t) < 100
  {
    Powers();
    PaddedNumber(t);
  }

  lemma OffsetSpelled(u: string)
    requires |u| == 6 && (u[0] == '+' || u[0] == '-') && AllDigits(u[1..3]) && u[3] == ':' && AllDigits(u[4..6])
    ensures Number(u[1..3]) < 100 && Number(u[4..6]) < 100
    ensures u == (if u[0] == '+' then "+" else "-") + Padded(Number(u[1..3]), 2) + ":" + Padded(Number(u[4..6]), 2)
  {
    TwoPadded(u[1..3]);
    TwoPadded(u[4..6]);
    hide AllDigits, Padded, Number;
    assert u == [u[0]] + u[1..3] + ":" + u[4..6];
  }

  lemma EndedOr(t: string) returns (end: string)
    ensures t == Ended(t) + end && end in {"", "\n"}
  {
    end := t[|Ended(t)|..];
    assert |Ended(t)| < |t| ==> end == [t[|t| - 1]];
  }

  /** How a zone was spelled, and whether a newline follows. */
  lemma ZoneSpelled(t: string, zone: Zone) returns (st: Style)
    requires ReadZone(Ended(t)) == Some(zone)
    ensures Allowed(st) && TwoDigits(zone) && PrintZone(zone, st.(sep := "T")) == t
  {
    hide AllDigits, Padded, Number, Ended;
    var u := Ended(t);
    var end := EndedOr(t);
    if zone.Zulu? {
      st := Style("T", u, end);
    } else {
      st := Style("T", "Z", end);
      OffsetSpelled(u);
    }
  }

  lemma FractionCut(t: string, n: nat)
    requires t != "" && t[0] == '.' && n == LeadingDigits(t[1..])
    ensures n < |t| && AllDigits(t[1..n + 1]) && t == "." + t[1..n + 1] + t[n + 1..]
  {
    assert t[1..][..n] == t[1..n + 1];
    hide AllDigits, LeadingDigits;
  }

  lemma RestSpelled(t: string, x: Stamp) returns (st: Style)
    requires ReadRest(t) == Some((x.fraction, x.zone))
    ensures Allowed(st) && AllDigits(x.fraction) && TwoDigits(x.zone) && PrintRest(x, st.(sep := "T")) == t
  {
    hide AllDigits, LeadingDigits, ReadZone, Ended, PrintZone, TwoDigits, Allowed;
    if t != "" && t[0] == '.' {
      var n := LeadingDigits(t[1..]);
      FractionCut(t, n);
      st := ZoneSpelled(t[n + 1..], x.zone);
    } else {
      NoDigits();
      st := ZoneSpelled(t, x.zone);
    }
  }

  lemma NoDigits()
    ensures AllDigits("")
  {
  }

  lemma Cut(t: string)
    requires |t| >= 19 && t[4] == '-' && t[7] == '-' && t[13] == ':' && t[16] == ':'
    ensures t == t[..4] + "-" + t[5..7] + "-" + t[8..10] + [t[10]] + (t[11..13] + ":" + t[14..16] + ":" + t[17..19] + t[19..])
  {
    assert t[..10] == t[..4] + "-" + t[5..7] + "-" + t[8..10];
    var u := t[11..];
    assert u == t[11..13] + ":" + t[14..16] + ":" + t[17..19] + t[19..];
    assert t == t[..10] + [t[10]] + u;
  }

  lemma ReadFrom(t: string, x: Stamp)
    requires Read(t) == Some(x)
    ensures |t| >= 19 && t[4] == '-' && t[7] == '-' && [t[10]] in {"T", "t"} && t[13] == ':' && t[16] == ':'
    ensures ReadRest(t[19..]) == Some((x.fraction, x.zone))
    ensures Padded(x.y, 4) == t[..4] && x.y < 10000 && Padded(x.mo, 2) == t[5..7] && x.mo < 100 && Padded(x.d, 2) == t[8..10] && x.d < 100
    ensures Padded(x.h, 2) == t[11..13] && x.h < 100 && Padded(x.mi, 2) == t[14..16] && x.mi < 100 && Padded(x.s, 2) == t[17..19] && x.s < 100
  {
    hide Padded, Number, ReadRest, AllDigits;
    Powers();
    PaddedNumber(t[..4]);
    TwoPadded(t[5..7]);
    TwoPadded(t[8..10]);
    TwoPadded(t[11..13]);
    TwoPadded(t[14..16]);
    TwoPadded(t[17..19]);
  }

  lemma Spelled(t: string, x: Stamp) returns (st: Style)
    requires Read(t) == Some(x)
    ensures Fits(x) && Allowed(st) && t == PrintAs(x, st)
  {
    ReadFrom(t, x);
    var rest := RestSpelled(t[19..], x);
    st := rest.(sep := [t[10]]);
    assert PrintRest(x, st) == PrintRest(x, rest.(sep := "T"));
    hide Read, Padded, PrintRest, ReadRest, AllDigits, TwoDigits;
    Cut(t);
  }

  /** A text is read as a timestamp exactly when it is one, in one of the styles the pattern leaves open. */
  lemma ReadsIff(t: string, x: Stamp)
    ensures Read(t) == Some(x) <==> Fits(x) && exists st :: Allowed(st) && t == PrintAs(x, st)
  {
    hide Read, PrintAs, Fits, Allowed;
    if Read(t) == Some(x) {
      var st := Spelled(t, x);
    }
    forall st | Fits(x) && Allowed(st)
      ensures Read(PrintAs(x, st)) == Some(x)
    {
      SpelledReads(x, st);
    }
  }

  // ---------------------------------------------------------------- what is read

  /** A fraction is read digit by digit, each worth a tenth of the one before. */
  lemma {:induction false} FractionIsDecimal(c: char, t: string)
    requires Digit(c) && AllDigits(t)
    ensures Fraction("") == 0.0 && Fraction([c] + t) == ((c as int - '0' as int) as real + Fraction(t)) / 10.0
  {
    var d, n := c as int - '0' as int, |t|;
    LeadingDigit(c, t);
    assert AllDigits([c] + t) && |[c] + t| == n + 1 && Power(n + 1) == 10 * Power(n);
    assert t == "" ==> Number(t) == 0;
    hide Number, Power;
    Tenth(d, Number(t), Power(n));
  }

  lemma {:induction false} LeadingDigit(c: char, t: string)
    requires Digit(c) && AllDigits(t)
    ensures AllDigits([c] + t) && Number([c] + t) == (c as int - '0' as int) * Power(|t|) + Number(t)
  {
    if t == "" {
      assert [c] + t == [c] && [c][..0] == "";
    } else {
      var u, k := t[..|t| - 1], t[|t| - 1] as int - '0' as int;
      LeadingDigit(c, u);
      assert ([c] + t)[..|t|] == [c] + u;
      hide Power, AllDigits;
      Shift(c as int - '0' as int, Power(|u|), Number(u), k);
    }
  }

  lemma Shift(d: int, p: int, n: int, k: int)
    ensures 10 * (d * p + n) + k == d * (10 * p) + (10 * n + k)
  {
  }

  lemma Tenth(d: int, n: int, p: int)
    requires p > 0
    ensures (d * p + n) as real / (10 * p) as real == (d as real + n as real / p as real) / 10.0
  {
    var q := p as real;
    assert (10 * p) as real == 10.0 * q && (d * p + n) as real == d as real * q + n as real;
    assert (d as real * q + n as real) / q == d as real + n as real / q;
    assert (d as real * q + n as real) / (10.0 * q) == (d as real * q + n as real) / q / 10.0;
  }

  /** A timestamp is read as the instant it denotes. */
  lemma SecondsAreTheInstant(text: string, x: Stamp)
    requires Read(text) == Some(x) && ValidDate(x.y, x.mo, x.d)
    ensures UtcSeconds(text) == Seconds(Instant(x))
  {
    hide Read, Days, Elapsed, Fraction;
    DaysAreElapsed(x.y, x.mo, x.d);
  }

  /** So two timestamps compare as instants, whatever their offsets. */
  lemma ComparesAsInstants(x: Stamp, x': Stamp)
    requires Valid(x) && Valid(x')
    ensures var a, b := UtcSeconds(Print(x)), UtcSeconds(Print(x'));
            a.Seconds? && b.Seconds? && (a.t < b.t <==> Instant(x) < Instant(x')) && (a.t == b.t <==> Instant(x) == Instant(x'))
  {
    hide Instant, Print, UtcSeconds;
    PrintedReads(x);
    PrintedReads(x');
    SecondsAreTheInstant(Print(x), x);
    SecondsAreTheInstant(Print(x'), x');
  }

  /** Whole minutes since the first of January of year zero, as the clock on the wall has it. */
  function WallMinutes(x: Stamp): int {
    Elapsed(x.y, x.mo, x.d) * 1440 + x.h * 60 + x.mi
  }

  /** A clock ahead of UTC by an offset reads that many minutes more at the same instant, and one behind as many less. */
  lemma OffsetIsAShift(text: string, text': string, x: Stamp, x': Stamp)
    requires Read(text) == Some(x) && Read(text') == Some(x') && ValidDate(x.y, x.mo, x.d) && ValidDate(x'.y, x'.mo, x'.d)
    requires x.zone.Offset? && x'.zone.Zulu? && x.s == x'.s && x.fraction == x'.fraction
    ensures var shift := x.zone.hours * 60 + x.zone.minutes;
            UtcSeconds(text) == UtcSeconds(text') <==>
            WallMinutes(x) == WallMinutes(x') + if x.zone.ahead then shift else -shift
  {
    hide Read, Days, Elapsed, Fraction, ValidDate;
    SecondsAreTheInstant(text, x);
    SecondsAreTheInstant(text', x');
  }

  /** The same time on the next civil day is exactly 86400 seconds later. */
  lemma NextDaySameTime(x: Stamp)
    requires Valid(x)
    ensures var (y, mo, d) := NextDay(x.y, x.mo, x.d);
            ValidDate(y, mo, d) && Instant(x.(y := y, mo := mo, d := d)) == Instant(x) + 86400.0
  {
    var (y, mo, d) := NextDay(x.y, x.mo, x.d);
    NextDayIsOneMore(x.y, x.mo, x.d);
    DaysAreElapsed(x.y, x.mo, x.d);
    DaysAreElapsed(y, mo, d);
    hide Elapsed, Days, NextDay, ValidDate, Fraction, Ahead;
  }

  /** A month past December is not refused but raises; month zero reads as December, a day early in leap years. */
  lemma UncheckedMonths(text: string, x: Stamp)
    requires Read(text) == Some(x)
    ensures UtcSeconds(text) == Raises <==> x.mo > 12
    ensures x.mo == 0 && !Leap(x.y) ==> UtcSeconds(text) == Seconds(Instant(x.(mo := 12)))
    ensures x.mo == 0 && Leap(x.y) ==> UtcSeconds(text) == Seconds(Instant(x.(mo := 12)) - 86400.0)
  {
    hide Read, Elapsed, Fraction;
    DaysAreElapsed(x.y, 12, x.d);
  }
}
