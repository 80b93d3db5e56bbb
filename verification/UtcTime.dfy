/** How the exporter prints a time: `_rfc3339` of scripts/export_testimony.py. */
module UtcTime {
  import opened Calendar
  import opened CanonicalForm
  import opened TestimonyRecord

  /** The civil date `n` days after the first of January 1970. */
  function DateAfter(n: nat): (nat, nat, nat) {
    if n == 0 then (1970, 1, 1)
    else
      var (y, mo, d) := DateAfter(n - 1);
      NextDay(y, mo, d)
  }

  function StampAt(ts: nat): Stamp {
    var (y, mo, d) := DateAfter(ts / 86400);
    var s := ts % 86400;
    Stamp(y, mo, d, s / 3600, s / 60 % 60, s % 60, "", Zulu)
  }

  /** Seconds since 1970, printed as UTC. Earlier times are not modelled. */
  function Utc(ts: int): string {
    if ts < 0 then "" else Print(StampAt(ts))
  }

  const DAYS_TO_1970 := 719528
  const DAYS_TO_10000 := 3652425

  /** The times from 1970 that fall in a year of four digits. */
  predicate FourDigits(ts: int) {
    0 <= ts < (DAYS_TO_10000 - DAYS_TO_1970) * 86400
  }

  type Clock = int -> string

  /** The clock prints a timestamp at each of the times, and a later one no earlier. */
  ghost predicate Prints(clock: Clock, times: set<int>) {
    && (forall t :: t in times ==> Read(clock(t)).Some?)
    && (forall a, b :: a in times && b in times && a <= b ==> AtOrBefore(clock(a), clock(b)))
  }

  // ---------------------------------------------------------------- what is printed is the time given

  lemma {:induction false} DateIsReached(n: nat)
    ensures var (y, mo, d) := DateAfter(n); ValidDate(y, mo, d) && Days(y, mo, d) == DAYS_TO_1970 + n
  {
    if n == 0 {
    } else {
      DateIsReached(n - 1);
      var (y, mo, d) := DateAfter(n - 1);
      NextDayIsOneMore(y, mo, d);
      hide Days, ValidDate, NextDay;
    }
  }

  lemma YearIsShort(y: nat, mo: nat, d: nat)
    requires ValidDate(y, mo, d) && Days(y, mo, d) < DAYS_TO_10000
    ensures y < 10000
  {
    DaysOrderDates(y, mo, d, 10000, 1, 1);
    assert Days(10000, 1, 1) == DAYS_TO_10000;
    hide Days, ValidDate;
  }

  lemma TimeOfDay(s: nat)
    requires s < 86400
    ensures s / 3600 < 24 && s / 60 % 60 < 60 && s % 60 < 60
    ensures s == s / 3600 * 3600 + s / 60 % 60 * 60 + s % 60
  {
    var m := s / 60;
    assert s == m * 60 + s % 60 && m == m / 60 * 60 + m % 60;
    Quotient(s, 3600, m / 60, m % 60 * 60 + s % 60);
  }

  /** The stamp printed is a valid one and denotes the time given. */
  lemma StampIsTheTime(ts: int)
    requires FourDigits(ts)
    ensures Valid(StampAt(ts)) && Instant(StampAt(ts)) == (ts + DAYS_TO_1970 * 86400) as real
  {
    var n, s := ts / 86400, ts % 86400;
    var (y, mo, d) := DateAfter(n);
    DateIsReached(n);
    TimeOfDay(s);
    hide DateAfter, Days, ValidDate, Elapsed;
    YearIsShort(y, mo, d);
    DatePart(y, mo, d);
  }

  lemma DatePart(y: nat, mo: nat, d: nat)
    requires ValidDate(y, mo, d)
    ensures 1 <= mo <= 12 && Days(y, mo, d) == Elapsed(y, mo, d)
  {
    DaysAreElapsed(y, mo, d);
  }

  /** So the text reads back as the time it was printed from. */
  lemma UtcReads(ts: int)
    requires FourDigits(ts)
    ensures Read(Utc(ts)).Some? && UtcSeconds(Utc(ts)) == Seconds((ts + DAYS_TO_1970 * 86400) as real)
  {
    var x := StampAt(ts);
    StampIsTheTime(ts);
    hide StampAt, Print, Instant, UtcSeconds, Elapsed, Leap;
    PrintedReads(x);
    SecondsAreTheInstant(Print(x), x);
  }

  // ---------------------------------------------------------------- later times print later

  lemma {:induction false} SameStart(p: string, a: string, b: string)
    requires AtOrBefore(a, b)
    ensures AtOrBefore(p + a, p + b)
  {
    if p == "" {
      assert p + a == a && p + b == b;
    } else {
      SameStart(p[1..], a, b);
      assert (p + a)[1..] == p[1..] + a && (p + b)[1..] == p[1..] + b;
    }
  }

  lemma {:induction false} SmallerNumberFirst(m: nat, n: nat, width: nat, a: string, b: string)
    requires m < n < Power(width)
    ensures AtOrBefore(Padded(m, width) + a, Padded(n, width) + b)
  {
    if width > 0 {
      var x, y := [(m % 10 + '0' as int) as char], [(n % 10 + '0' as int) as char];
      assert Padded(m, width) + a == Padded(m / 10, width - 1) + (x + a);
      assert Padded(n, width) + b == Padded(n / 10, width - 1) + (y + b);
      if m / 10 < n / 10 {
        SmallerNumberFirst(m / 10, n / 10, width - 1, x + a, y + b);
      } else {
        SameStart(Padded(m / 10, width - 1), x + a, y + b);
      }
    }
  }

  /** One field decides, or the fields after it do. */
  lemma FieldFirst(m: nat, n: nat, width: nat, a: string, b: string)
    requires m < n < Power(width) || (m == n && AtOrBefore(a, b))
    ensures AtOrBefore(Padded(m, width) + a, Padded(n, width) + b)
  {
    if m == n {
      SameStart(Padded(m, width), a, b);
    } else {
      SmallerNumberFirst(m, n, width, a, b);
    }
  }

  function TimeText(h: nat, mi: nat, s: nat): string {
    Padded(h, 2) + (":" + (Padded(mi, 2) + (":" + (Padded(s, 2) + "Z"))))
  }

  function DateText(y: nat, mo: nat, d: nat, rest: string): string {
    Padded(y, 4) + ("-" + (Padded(mo, 2) + ("-" + (Padded(d, 2) + ("T" + rest)))))
  }

  lemma PrintedInParts(x: Stamp)
    requires x.fraction == "" && x.zone == Zulu
    ensures Print(x) == DateText(x.y, x.mo, x.d, TimeText(x.h, x.mi, x.s))
  {
    hide Padded;
  }

  lemma Powers()
    ensures Power(2) == 100 && Power(4) == 10000
  {
    assert Power(1) == 10 && Power(3) == 1000;
  }

  lemma MinutesPrintInOrder(mi: nat, s: nat, mi': nat, s': nat)
    requires mi < 60 && s < 60 && mi' < 60 && s' < 60 && (mi < mi' || (mi == mi' && s <= s'))
    ensures AtOrBefore(Padded(mi, 2) + (":" + (Padded(s, 2) + "Z")), Padded(mi', 2) + (":" + (Padded(s', 2) + "Z")))
  {
    hide Padded, Power, AtOrBefore;
    Powers();
    if mi == mi' {
      SameAsItself("Z");
      FieldFirst(s, s', 2, "Z", "Z");
      SameStart(":", Padded(s, 2) + "Z", Padded(s', 2) + "Z");
    }
    FieldFirst(mi, mi', 2, ":" + (Padded(s, 2) + "Z"), ":" + (Padded(s', 2) + "Z"));
  }

  lemma SameAsItself(t: string)
    ensures AtOrBefore(t, t)
  {
    BeforeIsStrict(t, t);
  }

  lemma TimesPrintInOrder(h: nat, mi: nat, s: nat, h': nat, mi': nat, s': nat)
    requires h < 24 && mi < 60 && s < 60 && h' < 24 && mi' < 60 && s' < 60
    requires h * 3600 + mi * 60 + s <= h' * 3600 + mi' * 60 + s'
    ensures AtOrBefore(TimeText(h, mi, s), TimeText(h', mi', s'))
  {
    hide Padded, Power, AtOrBefore;
    Powers();
    var a, b := Padded(mi, 2) + (":" + (Padded(s, 2) + "Z")), Padded(mi', 2) + (":" + (Padded(s', 2) + "Z"));
    if h == h' {
      MinutesPrintInOrder(mi, s, mi', s');
      SameStart(":", a, b);
    }
    FieldFirst(h, h', 2, ":" + a, ":" + b);
  }

  lemma DatesPrintInOrder(y: nat, mo: nat, d: nat, rest: string, y': nat, mo': nat, d': nat, rest': string)
    requires y < 10000 && mo < 100 && d < 100 && y' < 10000 && mo' < 100 && d' < 100
    requires Earlier(y, mo, d, y', mo', d') || (y == y' && mo == mo' && d == d' && AtOrBefore(rest, rest'))
    ensures AtOrBefore(DateText(y, mo, d, rest), DateText(y', mo', d', rest'))
  {
    hide Padded, Power, AtOrBefore;
    Powers();
    var t, t' := "T" + rest, "T" + rest';
    var a, a' := Padded(d, 2) + t, Padded(d', 2) + t';
    var b, b' := Padded(mo, 2) + ("-" + a), Padded(mo', 2) + ("-" + a');
    if y == y' && mo == mo' {
      if d == d' {
        SameStart("T", rest, rest');
      }
      FieldFirst(d, d', 2, t, t');
      SameStart("-", a, a');
    }
    if y == y' {
      FieldFirst(mo, mo', 2, "-" + a, "-" + a');
      SameStart("-", b, b');
    }
    FieldFirst(y, y', 4, "-" + b, "-" + b');
  }

  lemma DatesInOrder(m: nat, n: nat)
    requires m <= n
    ensures var (y, mo, d) := DateAfter(m);
            var (y', mo', d') := DateAfter(n);
            if m == n then y == y' && mo == mo' && d == d' else Earlier(y, mo, d, y', mo', d')
  {
    DateIsReached(m);
    DateIsReached(n);
    var (y, mo, d) := DateAfter(m);
    var (y', mo', d') := DateAfter(n);
    hide Days, ValidDate, DateAfter, Earlier;
    DaysOrderDates(y, mo, d, y', mo', d');
  }

  lemma DateIsNarrow(y: nat, mo: nat, d: nat)
    requires ValidDate(y, mo, d)
    ensures mo < 100 && d < 100
  {
    hide Leap;
  }

  lemma ValidIsNarrow(x: Stamp)
    requires Valid(x)
    ensures x.y < 10000 && x.mo < 100 && x.d < 100
  {
    hide ValidDate, ValidZone, AllDigits;
    DateIsNarrow(x.y, x.mo, x.d);
  }

  lemma SplitTime(a: int, b: int)
    requires 0 <= a <= b
    ensures a / 86400 < b / 86400 || (a / 86400 == b / 86400 && a % 86400 <= b % 86400)
  {
    var p, q := a / 86400, b / 86400;
    assert a == p * 86400 + a % 86400 && b == q * 86400 + b % 86400;
  }

  lemma Parts(ts: nat)
    ensures var x := StampAt(ts);
            && (x.y, x.mo, x.d) == DateAfter(ts / 86400) && x.fraction == "" && x.zone == Zulu
            && x.h < 24 && x.mi < 60 && x.s < 60 && x.h * 3600 + x.mi * 60 + x.s == ts % 86400
  {
    hide DateAfter;
    TimeOfDay(ts % 86400);
  }

  /** Of two such times the later never prints before the earlier. */
  lemma UtcInOrder(a: int, b: int)
    requires FourDigits(a) && FourDigits(b) && a <= b
    ensures AtOrBefore(Utc(a), Utc(b))
  {
    var x, x' := StampAt(a), StampAt(b);
    StampIsTheTime(a);
    StampIsTheTime(b);
    Parts(a);
    Parts(b);
    SplitTime(a, b);
    hide StampAt, Print, TimeText, DateText, DateAfter, Earlier, AtOrBefore, Valid, Instant;
    ValidIsNarrow(x);
    ValidIsNarrow(x');
    DatesInOrder(a / 86400, b / 86400);
    PrintedInParts(x);
    PrintedInParts(x');
    if a / 86400 == b / 86400 {
      TimesPrintInOrder(x.h, x.mi, x.s, x'.h, x'.mi, x'.s);
    }
    DatesPrintInOrder(x.y, x.mo, x.d, TimeText(x.h, x.mi, x.s), x'.y, x'.mo, x'.d, TimeText(x'.h, x'.mi, x'.s));
  }

  /** So the exporter's own clock prints any such times in order. */
  lemma UtcPrints(times: set<int>)
    requires forall t :: t in times ==> FourDigits(t)
    ensures Prints(Utc, times)
  {
    hide Utc, Read, AtOrBefore, FourDigits;
    forall t | t in times {
      UtcReads(t);
    }
    forall a, b | a in times && b in times && a <= b {
      UtcInOrder(a, b);
    }
  }
}
