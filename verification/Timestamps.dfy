/** The timestamp text of `now_iso` in `src/observability.rs`. */
module Timestamps {
  import opened Strings
  import opened Calendar

  function Zeros(n: nat): string {
    if n == 0 then "" else "0" + Zeros(n - 1)
  }

  /** Rust's `{n:0width}`: at least `width` characters, the sign counted. */
  function Padded(n: int, width: nat): string {
    if n < 0 then "-" + Filled(Decimal(-n), if width == 0 then 0 else width - 1) else Filled(Decimal(n), width)
  }

  function Filled(digits: string, width: nat): string {
    if |digits| >= width then digits else Zeros(width - |digits|) + digits
  }

  /** The moment `seconds` after the epoch, as `YYYY-MM-DDThh:mm:ss+00:00`. */
  function Iso(seconds: int): string {
    var date := CivilFromDays(seconds / 86_400);
    var remainder := seconds % 86_400;
    Padded(date.year, 4) + ("-" + (Padded(date.month, 2) + ("-" + (Padded(date.day, 2) + ("T" +
    (Padded(remainder / 3600, 2) + (":" + (Padded(remainder % 3600 / 60, 2) + (":" +
    (Padded(remainder % 60, 2) + "+00:00"))))))))))
  }

  // ---- fixed width ----

  /** The last `k` digits of `n`. */
  function Digits(n: nat, k: nat): (s: string)
    ensures |s| == k
  {
    if k == 0 then "" else Digits(n / 10, k - 1) + [Digit(n % 10)]
  }

  lemma {:induction false} ZeroDigits(k: nat)
    ensures Digits(0, k) == Zeros(k)
  {
    if k > 0 {
      ZeroDigits(k - 1);
      ZerosEnd(k);
    }
  }

  lemma {:induction false} ZerosEnd(k: nat)
    requires k > 0
    ensures Zeros(k) == Zeros(k - 1) + "0"
  {
    if k > 1 {
      ZerosEnd(k - 1);
      assert "0" + (Zeros(k - 2) + "0") == ("0" + Zeros(k - 2)) + "0";
    } else {
      assert Zeros(0) == "" && "" + "0" == "0" + "";
    }
  }

  /** Padding a number that fits gives exactly its digits. */
  lemma {:induction false} FilledIsDigits(n: nat, k: nat)
    requires k > 0 && n < Pow10(k)
    ensures Filled(Decimal(n), k) == Digits(n, k)
  {
    if n < 10 {
      FilledDigit(n, k);
    } else {
      OneDigit(k);
      FilledIsDigits(n / 10, k - 1);
      FilledSnoc(Decimal(n / 10), Digit(n % 10), k);
    }
  }

  lemma FilledDigit(n: nat, k: nat)
    requires k > 0 && n < 10
    ensures Filled(Decimal(n), k) == Digits(n, k)
  {
    ZeroDigits(k - 1);
    assert Decimal(n) == [Digit(n)] && Digits(n, k) == Zeros(k - 1) + [Digit(n)];
    if k == 1 { assert "" + [Digit(n)] == [Digit(n)]; }
  }

  lemma FilledSnoc(digits: string, c: char, width: nat)
    requires width > 0
    ensures Filled(digits + [c], width) == Filled(digits, width - 1) + [c]
  {
    if |digits| < width - 1 {
      var zeros := Zeros(width - 1 - |digits|);
      assert zeros + (digits + [c]) == (zeros + digits) + [c];
    }
  }

  lemma OneDigit(k: nat)
    ensures k == 1 ==> Pow10(k) == 10
  {
    if k == 1 { assert Pow10(0) == 1; }
  }

  lemma {:induction false} DigitsAscend(m: nat, n: nat, k: nat)
    requires m < n < Pow10(k)
    ensures Less(Digits(m, k), Digits(n, k))
  {
    if m / 10 == n / 10 {
      assert Less([Digit(m % 10)], [Digit(n % 10)]);
      LessAfterPrefix(Digits(m / 10, k - 1), [Digit(m % 10)], [Digit(n % 10)]);
    } else {
      DigitsAscend(m / 10, n / 10, k - 1);
      LessBeforeSuffix(Digits(m / 10, k - 1), Digits(n / 10, k - 1), [Digit(m % 10)], [Digit(n % 10)]);
    }
  }

  /** Padded fields compare like their numbers, whatever follows them. */
  lemma FieldDecides(m: int, n: int, width: nat, s: string, t: string)
    requires 0 <= m < n < Pow10(width) && width > 0
    ensures Less(Padded(m, width) + s, Padded(n, width) + t)
  {
    FilledIsDigits(m, width);
    FilledIsDigits(n, width);
    DigitsAscend(m, n, width);
    LessBeforeSuffix(Digits(m, width), Digits(n, width), s, t);
  }

  // ---- moments ----

  datatype Moment = Moment(year: int, month: int, day: int, hour: int, minute: int, second: int)

  function MomentOf(seconds: int): Moment {
    var date := CivilFromDays(seconds / 86_400);
    var remainder := seconds % 86_400;
    Moment(date.year, date.month, date.day, remainder / 3600, remainder % 3600 / 60, remainder % 60)
  }

  predicate Printable(m: Moment) {
    0 <= m.year <= 9999 && 1 <= m.month <= 12 && 1 <= m.day <= 31 && 0 <= m.hour < 24 && 0 <= m.minute < 60
      && 0 <= m.second < 60
  }

  function Clock(m: Moment): string {
    Padded(m.hour, 2) + (":" + (Padded(m.minute, 2) + (":" + (Padded(m.second, 2) + "+00:00"))))
  }

  function MonthText(m: Moment): string {
    Padded(m.month, 2) + ("-" + DayText(m))
  }

  function DayText(m: Moment): string {
    Padded(m.day, 2) + ("T" + Clock(m))
  }

  function MomentText(m: Moment): string {
    Padded(m.year, 4) + ("-" + MonthText(m))
  }

  lemma IsoIs(seconds: int)
    ensures Iso(seconds) == MomentText(MomentOf(seconds))
  {}

  predicate ClockBefore(a: Moment, b: Moment) {
    a.hour < b.hour || (a.hour == b.hour && (a.minute < b.minute || (a.minute == b.minute && a.second < b.second)))
  }

  predicate Earlier(a: Moment, b: Moment) {
    var d, e := Date(a.year, a.month, a.day), Date(b.year, b.month, b.day);
    Before(d, e) || (d == e && ClockBefore(a, b))
  }

  lemma ClockAscends(a: Moment, b: Moment)
    requires Printable(a) && Printable(b) && ClockBefore(a, b)
    ensures Less(Clock(a), Clock(b))
  {
    TwoDigits();
    var x, y := Padded(a.second, 2) + "+00:00", Padded(b.second, 2) + "+00:00";
    if a.hour != b.hour {
      FieldDecides(a.hour, b.hour, 2, ":" + (Padded(a.minute, 2) + (":" + x)), ":" + (Padded(b.minute, 2) + (":" + y)));
    } else {
      if a.minute != b.minute {
        FieldDecides(a.minute, b.minute, 2, ":" + x, ":" + y);
      } else {
        FieldDecides(a.second, b.second, 2, "+00:00", "+00:00");
        Behind(Padded(a.minute, 2), ':', x, y);
      }
      Behind(Padded(a.hour, 2), ':', Padded(a.minute, 2) + (":" + x), Padded(b.minute, 2) + (":" + y));
    }
  }

  lemma TwoDigits()
    ensures Pow10(2) == 100 && Pow10(4) == 10_000
  {
    assert Pow10(1) == 10;
    assert Pow10(3) == 1000;
  }

  lemma Behind(field: string, sep: char, s: string, t: string)
    ensures Less(field + ([sep] + s), field + ([sep] + t)) == Less(s, t)
  {
    LessAfterPrefix(field, [sep] + s, [sep] + t);
    LessAfterPrefix([sep], s, t);
  }

  /** Text order is time order for printable moments. */
  lemma TextAscends(a: Moment, b: Moment)
    requires Printable(a) && Printable(b) && Earlier(a, b)
    ensures Less(MomentText(a), MomentText(b))
  {
    TwoDigits();
    if a.year != b.year {
      FieldDecides(a.year, b.year, 4, "-" + MonthText(a), "-" + MonthText(b));
    } else {
      if a.month != b.month {
        FieldDecides(a.month, b.month, 2, "-" + DayText(a), "-" + DayText(b));
      } else {
        if a.day != b.day {
          FieldDecides(a.day, b.day, 2, "T" + Clock(a), "T" + Clock(b));
        } else {
          ClockAscends(a, b);
          Behind(Padded(a.day, 2), 'T', Clock(a), Clock(b));
        }
        Behind(Padded(a.month, 2), '-', DayText(a), DayText(b));
      }
      Behind(Padded(a.year, 4), '-', MonthText(a), MonthText(b));
    }
  }

  lemma MomentPrintable(seconds: int)
    requires 0 <= CivilFromDays(seconds / 86_400).year <= 9999
    ensures Printable(MomentOf(seconds))
  {
    CivilIsValid(seconds / 86_400);
  }

  lemma SameDay(s: int, t: int)
    requires s < t && s / 86_400 == t / 86_400
    ensures var a, b := s % 86_400, t % 86_400;
      && a < b
      && (a / 3600 < b / 3600
          || (a / 3600 == b / 3600
              && (a % 3600 / 60 < b % 3600 / 60 || (a % 3600 / 60 == b % 3600 / 60 && a % 60 < b % 60))))
  {
    var a, b := s % 86_400, t % 86_400;
    assert a < b;
    assert a == 3600 * (a / 3600) + 60 * (a % 3600 / 60) + a % 60;
    assert b == 3600 * (b / 3600) + 60 * (b % 3600 / 60) + b % 60;
  }

  lemma MomentsAscend(s: int, t: int)
    requires s < t
    ensures Earlier(MomentOf(s), MomentOf(t))
  {
    if s / 86_400 < t / 86_400 {
      CivilIsMonotone(s / 86_400, t / 86_400);
    } else {
      SameDay(s, t);
    }
  }

  /** For years 0 to 9999 the order of timestamps as text is their order in time. */
  lemma TimestampsSortAsText(s: int, t: int)
    requires 0 <= CivilFromDays(s / 86_400).year <= 9999
    requires 0 <= CivilFromDays(t / 86_400).year <= 9999
    ensures Less(Iso(s), Iso(t)) <==> s < t
    ensures Iso(s) == Iso(t) <==> s == t
  {
    IsoIs(s);
    IsoIs(t);
    MomentPrintable(s);
    MomentPrintable(t);
    LessIrreflexive(Iso(s));
    if s < t {
      MomentsAscend(s, t);
      TextAscends(MomentOf(s), MomentOf(t));
    } else if t < s {
      MomentsAscend(t, s);
      TextAscends(MomentOf(t), MomentOf(s));
      LessAsymmetric(Iso(t), Iso(s));
    }
  }

  // ---- reading it back ----

  lemma {:induction false} DigitsValue(n: nat, k: nat)
    requires n < Pow10(k)
    ensures FromDecimal(Digits(n, k)) == n
  {
    if k > 0 {
      DigitsValue(n / 10, k - 1);
      assert Digits(n, k)[..k - 1] == Digits(n / 10, k - 1);
    }
  }

  lemma FieldReads(n: int, width: nat)
    requires width > 0 && 0 <= n < Pow10(width)
    ensures |Padded(n, width)| == width && FromDecimal(Padded(n, width)) == n
  {
    FilledIsDigits(n, width);
    DigitsValue(n, width);
  }

  /** Where the fields of a text stand. */
  lemma FieldsStand(
    t: string, year: string, month: string, day: string, hour: string, minute: string, second: string)
    requires |year| == 4 && |month| == |day| == |hour| == |minute| == |second| == 2
    requires t ==
      year + ("-" + (month + ("-" + (day + ("T" + (hour + (":" + (minute + (":" + (second + "+00:00"))))))))))
    ensures |t| == 25 && t[4] == t[7] == '-' && t[10] == 'T' && t[13] == t[16] == ':' && t[19..] == "+00:00"
    ensures t[..4] == year && t[5..7] == month && t[8..10] == day
    ensures t[11..13] == hour && t[14..16] == minute && t[17..19] == second
  {
    var clock := hour + (":" + (minute + (":" + (second + "+00:00"))));
    var days := day + ("T" + clock);
    assert t[0..] == t;
    Layered(t, 0, year, '-', month + ("-" + days));
    Layered(t, 5, month, '-', days);
    Layered(t, 8, day, 'T', clock);
    Layered(t, 11, hour, ':', minute + (":" + (second + "+00:00")));
    Layered(t, 14, minute, ':', second + "+00:00");
    assert t[17..][..2] == second && t[17..][2..] == "+00:00";
  }

  lemma TimeOfDay(remainder: int)
    requires 0 <= remainder
    ensures remainder / 3600 * 3600 + remainder % 3600 / 60 * 60 + remainder % 60 == remainder
  {
    assert remainder % 3600 % 60 == remainder % 60;
  }

  /** A timestamp of a four-digit year has 25 characters, tells year, month, day and time at fixed places,
      and is in UTC. */
  lemma TimestampReads(seconds: int)
    requires 0 <= CivilFromDays(seconds / 86_400).year <= 9999
    ensures var t := Iso(seconds); var date := CivilFromDays(seconds / 86_400);
      && |t| == 25
      && FromDecimal(t[..4]) == date.year && FromDecimal(t[5..7]) == date.month && FromDecimal(t[8..10]) == date.day
      && FromDecimal(t[11..13]) * 3600 + FromDecimal(t[14..16]) * 60 + FromDecimal(t[17..19]) == seconds % 86_400
      && t[4] == t[7] == '-' && t[10] == 'T' && t[13] == t[16] == ':' && t[19..] == "+00:00"
  {
    var m := MomentOf(seconds);
    MomentPrintable(seconds);
    TimeOfDay(seconds % 86_400);
    FieldsRead(m);
    IsoIs(seconds);
    FieldsStand(Iso(seconds), Padded(m.year, 4), Padded(m.month, 2), Padded(m.day, 2), Padded(m.hour, 2),
      Padded(m.minute, 2), Padded(m.second, 2));
  }

  lemma FieldsRead(m: Moment)
    requires Printable(m)
    ensures |Padded(m.year, 4)| == 4 && FromDecimal(Padded(m.year, 4)) == m.year
    ensures forall n :: n in {m.month, m.day, m.hour, m.minute, m.second} ==>
      |Padded(n, 2)| == 2 && FromDecimal(Padded(n, 2)) == n
  {
    TwoDigits();
    FieldReads(m.year, 4);
    forall n | n in {m.month, m.day, m.hour, m.minute, m.second}
      ensures |Padded(n, 2)| == 2 && FromDecimal(Padded(n, 2)) == n
    {
      FieldReads(n, 2);
    }
  }

  /** A field and its separator at a place of a text. */
  lemma Layered(t: string, i: nat, field: string, sep: char, rest: string)
    requires i <= |t| && t[i..] == field + ([sep] + rest)
    ensures var n := |field|;
      i + n < |t| && t[i..i + n] == field && t[i + n] == sep && t[i + n + 1..] == rest
  {
    var n := |field|;
    assert t[i..][..n] == field && t[i..][n] == sep && t[i..][n + 1..] == rest;
  }
}
