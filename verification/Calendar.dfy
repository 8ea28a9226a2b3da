/** Civil dates and timestamps of `src/observability.rs`. */
module Calendar {
  import opened Strings

  datatype Date = Date(year: int, month: int, day: int)

  /** Rust's integer division. */
  function TruncDiv(a: int, b: int): int
    requires b > 0
  {
    if a >= 0 then a / b else -((-a) / b)
  }

  function EraOf(z: int): int {
    TruncDiv(if z >= 0 then z else z - 146_096, 146_097)
  }

  function YearOfEra(dayOfEra: int): int {
    TruncDiv(dayOfEra - TruncDiv(dayOfEra, 1460) + TruncDiv(dayOfEra, 36_524) - TruncDiv(dayOfEra, 146_096), 365)
  }

  /** The civil date of a day of a year that begins in March. */
  function DateOf(year: int, dayOfYear: int): Date {
    var pivot := TruncDiv(5 * dayOfYear + 2, 153);
    var day := dayOfYear - TruncDiv(153 * pivot + 2, 5) + 1;
    var month := if pivot < 10 then pivot + 3 else pivot - 9;
    Date(if month <= 2 then year + 1 else year, month, day)
  }

  function DateInEra(era: int, dayOfEra: int, yearOfEra: int): Date {
    DateOf(yearOfEra + era * 400, dayOfEra - (365 * yearOfEra + TruncDiv(yearOfEra, 4) - TruncDiv(yearOfEra, 100)))
  }

  /** `civil_from_days`: the date `days` days after 1970-01-01. */
  function CivilFromDays(days: int): Date {
    var z := days + 719_468;
    var era := EraOf(z);
    var dayOfEra := z - era * 146_097;
    DateInEra(era, dayOfEra, YearOfEra(dayOfEra))
  }

  // ---- the proleptic Gregorian calendar ----

  predicate Leap(year: int) {
    year % 4 == 0 && (year % 100 != 0 || year % 400 == 0)
  }

  function DaysIn(year: int, month: int): int {
    if month == 2 then (if Leap(year) then 29 else 28)
    else if month in {4, 6, 9, 11} then 30
    else 31
  }

  predicate ValidDate(d: Date) {
    1 <= d.month <= 12 && 1 <= d.day <= DaysIn(d.year, d.month)
  }

  function NextDay(d: Date): Date {
    if d.day < DaysIn(d.year, d.month) then d.(day := d.day + 1)
    else if d.month < 12 then Date(d.year, d.month + 1, 1)
    else Date(d.year + 1, 1, 1)
  }

  // ---- where a day stands in its era ----

  /** Days before year `y` of an era of 400 years that begins on a 1 March. */
  function DaysBefore(y: int): int {
    365 * y + y / 4 - y / 100
  }

  function YearLength(y: int): int {
    if Leap(y + 1) then 366 else 365
  }

  predicate Stands(dayOfEra: int, y: int, dayOfYear: int) {
    0 <= y < 400 && 0 <= dayOfYear < YearLength(y) && dayOfEra == DaysBefore(y) + dayOfYear
  }

  /** The year as century, four-year cycle and year of the cycle. */
  lemma PartsOf(c: int, q: int, r: int)
    requires 0 <= c < 4 && 0 <= q < 25 && 0 <= r < 4
    ensures var y := 100 * c + 4 * q + r;
      && 0 <= y < 400
      && DaysBefore(y) == 36_524 * c + 1461 * q + 365 * r
      && (Leap(y + 1) <==> r == 3 && (q < 24 || c == 3))
  {
    var y := 100 * c + 4 * q + r;
    assert y / 4 == 25 * c + q && y / 100 == c;
    assert (y + 1) % 4 == 0 <==> r == 3;
    assert (y + 1) % 100 == 0 <==> r == 3 && q == 24;
    assert (y + 1) % 400 == 0 <==> r == 3 && q == 24 && c == 3;
  }

  lemma Parts(y: int) returns (c: int, q: int, r: int)
    requires 0 <= y < 400
    ensures 0 <= c < 4 && 0 <= q < 25 && 0 <= r < 4 && y == 100 * c + 4 * q + r
    ensures DaysBefore(y) == 36_524 * c + 1461 * q + 365 * r
    ensures Leap(y + 1) <==> r == 3 && (q < 24 || c == 3)
  {
    c := y / 100;
    q := y % 100 / 4;
    r := y % 4;
    PartsOf(c, q, r);
  }

  /** The source's closed form finds the year. */
  lemma YearFound(dayOfEra: int, y: int, dayOfYear: int)
    requires Stands(dayOfEra, y, dayOfYear)
    ensures 0 <= dayOfEra < 146_097 && YearOfEra(dayOfEra) == y
  {
    var c, q, r := Parts(y);
    var spare := 24 * c + q + 365 * r + dayOfYear;
    assert dayOfEra == 1460 * (25 * c + q) + spare;
    var e := if spare >= 1460 then 1 else 0;
    assert dayOfEra / 1460 == 25 * c + q + e;
    var g := if dayOfEra == 146_096 then 1 else 0;
    assert 1461 * q + 365 * r + dayOfYear <= 36_524;
    assert dayOfEra / 36_524 == c + g;
    assert dayOfEra / 146_096 == g;
    assert dayOfEra - dayOfEra / 1460 + dayOfEra / 36_524 - dayOfEra / 146_096 == 365 * y + (dayOfYear - e);
  }

  lemma Cycle(a: int) returns (q: int, r: int, dayOfYear: int)
    requires 0 <= a <= 36_524
    ensures 0 <= q < 25 && 0 <= r < 4 && a == 1461 * q + 365 * r + dayOfYear && 0 <= dayOfYear < 366
    ensures dayOfYear == 365 ==> r == 3 && (q < 24 || a == 36_524)
  {
    q := if a == 36_524 then 24 else a / 1461;
    var b := a - 1461 * q;
    r := if b == 1460 then 3 else b / 365;
    dayOfYear := b - 365 * r;
  }

  lemma Standing(dayOfEra: int) returns (y: int, dayOfYear: int)
    requires 0 <= dayOfEra < 146_097
    ensures Stands(dayOfEra, y, dayOfYear)
  {
    var c := if dayOfEra == 146_096 then 3 else dayOfEra / 36_524;
    var q, r;
    q, r, dayOfYear := Cycle(dayOfEra - 36_524 * c);
    y := 100 * c + 4 * q + r;
    PartsOf(c, q, r);
  }

  ghost predicate Places(z: int, era: int, y: int, dayOfYear: int) {
    Stands(z - 146_097 * era, y, dayOfYear)
  }

  lemma Placing(z: int) returns (era: int, y: int, dayOfYear: int)
    ensures Places(z, era, y, dayOfYear)
  {
    era := z / 146_097;
    y, dayOfYear := Standing(z - 146_097 * era);
  }

  lemma EraFound(z: int, era: int)
    requires 0 <= z - 146_097 * era < 146_097
    ensures EraOf(z) == era
  {}

  lemma DateOfStanding(era: int, dayOfEra: int, y: int, dayOfYear: int)
    requires Stands(dayOfEra, y, dayOfYear)
    ensures DateInEra(era, dayOfEra, y) == DateOf(y + era * 400, dayOfYear)
  {}

  /** A day's place determines its date. */
  lemma PlaceIsDate(z: int, era: int, y: int, dayOfYear: int)
    requires Places(z, era, y, dayOfYear)
    ensures CivilFromDays(z - 719_468) == DateOf(y + era * 400, dayOfYear)
  {
    YearFound(z - 146_097 * era, y, dayOfYear);
    EraFound(z, era);
    DateOfStanding(era, z - 146_097 * era, y, dayOfYear);
  }

  // ---- the months of a year that begins in March ----

  function MonthStart(pivot: int): int {
    (153 * pivot + 2) / 5
  }

  lemma MonthFound(dayOfYear: int) returns (pivot: int)
    requires 0 <= dayOfYear < 366
    ensures 0 <= pivot < 12 && MonthStart(pivot) <= dayOfYear < MonthStart(pivot + 1)
    ensures TruncDiv(5 * dayOfYear + 2, 153) == pivot
  {
    pivot := (5 * dayOfYear + 2) / 153;
  }

  lemma MonthLengths(pivot: int)
    requires 0 <= pivot < 12
    ensures MonthStart(pivot + 1) - MonthStart(pivot) == if pivot in {1, 3, 6, 8, 11} then 30 else 31
    ensures pivot == 11 ==> MonthStart(pivot) == 337
  {}

  lemma ModShifts(y: int, k: int)
    ensures (y + 400 * k) % 400 == y % 400 && (y + 400 * k) % 100 == y % 100 && (y + 400 * k) % 4 == y % 4
  {
    assert (y + 400 * k) / 400 == y / 400 + k;
    assert (y + 100 * (4 * k)) / 100 == y / 100 + 4 * k;
    assert (y + 4 * (100 * k)) / 4 == y / 4 + 100 * k;
  }

  lemma LeapShifts(y: int, era: int)
    ensures Leap(y + era * 400) == Leap(y)
  {
    ModShifts(y, era);
  }

  /** Every date is valid, and the next day of the same year is the next date. */
  lemma WithinYear(y: int, dayOfYear: int)
    requires 0 <= dayOfYear < YearLength(y)
    ensures ValidDate(DateOf(y, dayOfYear))
    ensures dayOfYear + 1 < YearLength(y) ==> DateOf(y, dayOfYear + 1) == NextDay(DateOf(y, dayOfYear))
    ensures dayOfYear + 1 == YearLength(y) ==> DateOf(y + 1, 0) == NextDay(DateOf(y, dayOfYear))
  {
    var pivot := MonthFound(dayOfYear);
    MonthLengths(pivot);
    if dayOfYear + 1 < YearLength(y) {
      var next := MonthFound(dayOfYear + 1);
      NextMonth(dayOfYear, pivot, next);
    }
  }

  lemma NextMonth(dayOfYear: int, pivot: int, next: int)
    requires 0 <= pivot < 12 && MonthStart(pivot) <= dayOfYear < MonthStart(pivot + 1)
    requires 0 <= next < 12 && MonthStart(next) <= dayOfYear + 1 < MonthStart(next + 1)
    ensures if dayOfYear + 1 < MonthStart(pivot + 1) then next == pivot else next == pivot + 1
  {}

  // ---- main results ----

  lemma Epoch()
    ensures CivilFromDays(0) == Date(1970, 1, 1)
  {
    assert EraOf(719_468) == 4;
    assert YearOfEra(135_080) == 369;
    assert DateInEra(4, 135_080, 369) == DateOf(1969, 306);
  }

  /** Every day number names a date that exists. */
  lemma CivilIsValid(days: int)
    ensures ValidDate(CivilFromDays(days))
  {
    var era, y, dayOfYear := Placing(days + 719_468);
    PlaceIsDate(days + 719_468, era, y, dayOfYear);
    LeapShifts(y + 1, era);
    WithinYear(y + era * 400, dayOfYear);
  }

  /** The day after a place is at a place, whose date is the next one. */
  lemma PlaceSteps(z: int, era: int, y: int, dayOfYear: int) returns (era': int, y': int, dayOfYear': int)
    requires Places(z, era, y, dayOfYear)
    ensures Places(z + 1, era', y', dayOfYear')
    ensures DateOf(y' + era' * 400, dayOfYear') == NextDay(DateOf(y + era * 400, dayOfYear))
  {
    LeapShifts(y + 1, era);
    WithinYear(y + era * 400, dayOfYear);
    if dayOfYear + 1 < YearLength(y) {
      era', y', dayOfYear' := era, y, dayOfYear + 1;
    } else {
      era', y', dayOfYear' := YearEnds(z, era, y, dayOfYear);
    }
  }

  lemma YearEnds(z: int, era: int, y: int, dayOfYear: int) returns (era': int, y': int, dayOfYear': int)
    requires Places(z, era, y, dayOfYear) && dayOfYear + 1 == YearLength(y)
    ensures Places(z + 1, era', y', dayOfYear') && dayOfYear' == 0 && y' + era' * 400 == y + era * 400 + 1
  {
    dayOfYear' := 0;
    if y < 399 {
      era', y' := era, y + 1;
      YearStarts(y);
    } else {
      era', y' := era + 1, 0;
      var c, q, r := Parts(y);
    }
  }

  lemma YearStarts(y: int)
    requires 0 <= y < 399
    ensures DaysBefore(y + 1) == DaysBefore(y) + YearLength(y)
  {
    var c, q, r := Parts(y);
    var c', q', r' := Parts(y + 1);
  }

  /** The next day number names the next day, for all days. */
  lemma CivilSteps(days: int)
    ensures CivilFromDays(days + 1) == NextDay(CivilFromDays(days))
  {
    var z := days + 719_468;
    var era, y, dayOfYear := Placing(z);
    var era', y', dayOfYear' := PlaceSteps(z, era, y, dayOfYear);
    PlaceIsDate(z, era, y, dayOfYear);
    PlaceIsDate(z + 1, era', y', dayOfYear');
    assert z + 1 - 719_468 == days + 1;
  }

  predicate Before(a: Date, b: Date) {
    a.year < b.year || (a.year == b.year && (a.month < b.month || (a.month == b.month && a.day < b.day)))
  }

  lemma NextIsLater(d: Date, e: Date)
    requires ValidDate(d) && e == NextDay(d)
    ensures Before(d, e)
  {}

  lemma BeforeTransitive(a: Date, b: Date, c: Date)
    requires Before(a, b) && Before(b, c)
    ensures Before(a, c)
  {}

  /** Later day numbers name later dates: the numbering is one to one. */
  lemma {:induction false} CivilIsMonotone(d: int, e: int)
    requires d < e
    ensures Before(CivilFromDays(d), CivilFromDays(e))
    decreases e - d
  {
    CivilSteps(d);
    CivilIsValid(d);
    NextIsLater(CivilFromDays(d), CivilFromDays(d + 1));
    if d + 1 < e {
      CivilIsMonotone(d + 1, e);
      BeforeTransitive(CivilFromDays(d), CivilFromDays(d + 1), CivilFromDays(e));
    }
  }
}
