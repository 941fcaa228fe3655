/**
 * Civil time in a zone that is one or two hours ahead of UTC and changes only at 01:00 UTC.
 * An instant is a number of microseconds; midnight UTC of day ordinal n is instant n * DAY.
 */
module CivilTime {
  import opened Calendar

  const HOUR: int := 3_600_000_000
  const QUARTER: int := 900_000_000
  const DAY: int := 86_400_000_000

  /**
   * `summer` says whether summer time holds from 01:00 UTC of a day to 01:00 UTC of the next, for any sequence of
   * changes; `months` are the month boundaries of the calendar the dates are read in.
   */
  datatype Zone = Zone(summer: int -> bool, months: Months)

  /** The UTC day, counted from 01:00, in which the offset is constant. */
  function Block(ts: int): int {
    (ts - HOUR) / DAY
  }

  function BlockOffset(z: Zone, block: int): int {
    if z.summer(block) then 2 * HOUR else HOUR
  }

  /** The wall-clock reading of an instant. */
  function Wall(z: Zone, ts: int): int {
    ts + BlockOffset(z, Block(ts))
  }

  function CivilDate(z: Zone, ts: int): int {
    Wall(z, ts) / DAY
  }

  /**
   * The instant of a wall-clock reading without a fold. A change takes effect on the wall clock at 03:00, the
   * later of its two readings, so a skipped or repeated reading keeps the offset before the change (PEP 495).
   */
  function WallToInstant(z: Zone, wall: int): int {
    wall - BlockOffset(z, (wall - 3 * HOUR) / DAY)
  }

  function PeriodStart(z: Zone, day: int): int {
    WallToInstant(z, day * DAY)
  }

  function PeriodEndExclusive(z: Zone, day: int): int {
    PeriodStart(z, day + 1)
  }

  lemma MidnightOffset(z: Zone, day: int)
    ensures PeriodStart(z, day) == day * DAY - BlockOffset(z, day - 1)
    ensures Wall(z, PeriodStart(z, day)) == day * DAY
    ensures CivilDate(z, PeriodStart(z, day)) == day
  {
    assert (day * DAY - 3 * HOUR) / DAY == day - 1;
    assert Block(day * DAY - HOUR) == day - 1 && Block(day * DAY - 2 * HOUR) == day - 1;
  }

  /** A day is exactly the half-open interval between its local midnight and the next. */
  lemma CivilDateIff(z: Zone, ts: int, day: int)
    ensures CivilDate(z, ts) == day <==> PeriodStart(z, day) <= ts < PeriodEndExclusive(z, day)
  {
    MidnightOffset(z, day);
    MidnightOffset(z, day + 1);
    var b := Block(ts);
    assert b * DAY + HOUR <= ts < (b + 1) * DAY + HOUR;
    if b < day - 1 {
      assert Wall(z, ts) < day * DAY;
    } else if b > day {
      assert Wall(z, ts) >= (day + 1) * DAY;
    }
  }

  lemma {:induction false} PeriodStartsGrow(z: Zone, a: int, b: int)
    requires a < b
    ensures PeriodStart(z, a) + 23 * HOUR * (b - a) <= PeriodStart(z, b)
    decreases b - a
  {
    DayLength(z, b - 1);
    if a < b - 1 {
      PeriodStartsGrow(z, a, b - 1);
    }
  }

  lemma PeriodStartsOrdered(z: Zone, a: int, b: int)
    requires a <= b
    ensures PeriodStart(z, a) <= PeriodStart(z, b)
  {
    if a < b { PeriodStartsGrow(z, a, b); }
  }

  /** A civil day is 23, 24 or 25 hours long: it loses an hour when summer time starts on it and gains one when it ends. */
  lemma DayLength(z: Zone, day: int)
    ensures PeriodEndExclusive(z, day) - PeriodStart(z, day) ==
            if !z.summer(day - 1) && z.summer(day) then 23 * HOUR
            else if z.summer(day - 1) && !z.summer(day) then 25 * HOUR
            else 24 * HOUR
  {
    MidnightOffset(z, day);
    MidnightOffset(z, day + 1);
  }

  /** Every instant lies in exactly one day's interval. */
  lemma DaysTile(z: Zone, ts: int)
    ensures PeriodStart(z, CivilDate(z, ts)) <= ts < PeriodEndExclusive(z, CivilDate(z, ts))
    ensures forall d :: PeriodStart(z, d) <= ts < PeriodEndExclusive(z, d) ==> d == CivilDate(z, ts)
  {
    CivilDateIff(z, ts, CivilDate(z, ts));
    forall d | PeriodStart(z, d) <= ts < PeriodEndExclusive(z, d) ensures d == CivilDate(z, ts) {
      CivilDateIff(z, ts, d);
    }
  }

  /** The civil date never goes back, although the wall clock does. */
  lemma CivilDateMonotone(z: Zone, a: int, b: int)
    requires a <= b
    ensures CivilDate(z, a) <= CivilDate(z, b)
  {
    DaysTile(z, a);
    DaysTile(z, b);
    var d, e := CivilDate(z, a), CivilDate(z, b);
    if e < d {
      PeriodStartsOrdered(z, e + 1, d);
      assert false;
    }
  }

  /** Two instants show the same wall clock exactly in the repeated hour: one hour apart around an autumn change. */
  lemma WallRepeatsIff(z: Zone, a: int, b: int)
    requires a < b
    ensures Wall(z, a) == Wall(z, b) <==> b == a + HOUR && z.summer(Block(a)) && !z.summer(Block(b))
  {
  }

  /** Reading the wall clock and converting back gives the instant, except in the second pass of a repeated hour. */
  lemma WallRoundTrip(z: Zone, ts: int)
    ensures WallToInstant(z, Wall(z, ts)) == ts <==>
            !(z.summer(Block(ts) - 1) && !z.summer(Block(ts)) && ts < Block(ts) * DAY + 2 * HOUR)
  {
    var b := Block(ts);
    var w := Wall(z, ts);
    assert b * DAY + HOUR <= ts < (b + 1) * DAY + HOUR;
    assert (w - 3 * HOUR) / DAY == if w < b * DAY + 3 * HOUR then b - 1 else b;
  }

  // ---- Buckets ----

  datatype Granularity = Quarter | Hour | Day | Week | Month | Year

  /** An instant or a wall clock cut down to its hour or quarter of an hour. */
  function Cut(x: int, g: Granularity): (r: int)
    ensures r <= x
  {
    if g == Hour then x - x % HOUR else x - x % QUARTER
  }

  /** First day of the bucket a day falls in, for the granularities that follow the civil date. */
  function StartDay(z: Zone, g: Granularity, day: int): int
    requires day >= 1
  {
    match g
    case Week => WeekStart(day)
    case Month => MonthStart(z.months, day)
    case Year => YearStart(z.months, day)
    case _ => day
  }

  /** The start of the bucket an instant falls in. Dates before year 1 do not exist. */
  function BucketStart(z: Zone, ts: int, g: Granularity): int
    requires CivilDate(z, ts) >= 1
  {
    match g
    case Quarter => Cut(ts, g)
    case Hour => Cut(ts, g)
    case _ => PeriodStart(z, StartDay(z, g, CivilDate(z, ts)))
  }

  /**
   * What a bucket is as a dictionary key. Two aware datetimes of one zone compare by their wall clock alone, so
   * the key of a bucket is its wall-clock reading, not its instant.
   */
  function BucketKey(z: Zone, ts: int, g: Granularity): int
    requires CivilDate(z, ts) >= 1
  {
    Wall(z, BucketStart(z, ts, g))
  }

  /** The bucket a wall-clock reading belongs to. */
  function TruncateWall(z: Zone, wall: int, g: Granularity): int
    requires wall / DAY >= 1
  {
    match g
    case Quarter => Cut(wall, g)
    case Hour => Cut(wall, g)
    case _ => StartDay(z, g, wall / DAY) * DAY
  }

  predicate Refines(fine: Granularity, coarse: Granularity) {
    || fine == coarse
    || fine == Quarter
    || (fine == Hour && coarse != Quarter)
    || (fine == Day && (coarse == Week || coarse == Month || coarse == Year))
    || (fine == Month && coarse == Year)
  }

  lemma StartDayBounds(z: Zone, g: Granularity, day: int)
    requires day >= 1
    ensures 1 <= StartDay(z, g, day) <= day
  {
    MonthStartBounds(z.months, day);
  }

  lemma StartDayMonotone(z: Zone, g: Granularity, a: int, b: int)
    requires 1 <= a <= b
    ensures StartDay(z, g, a) <= StartDay(z, g, b)
  {
    MonthStartMonotone(z.months, a, b);
  }

  lemma StartDayFactors(z: Zone, fine: Granularity, coarse: Granularity, day: int)
    requires day >= 1 && Refines(fine, coarse)
    ensures StartDay(z, fine, day) >= 1
    ensures StartDay(z, coarse, StartDay(z, fine, day)) == StartDay(z, coarse, day)
  {
    StartDayBounds(z, fine, day);
    MonthStartFactors(z.months, day);
  }

  /** Cutting an instant stays on the same day and in the same offset, and cuts its wall clock. */
  lemma SubDayStart(z: Zone, ts: int, g: Granularity)
    ensures Block(Cut(ts, g)) == Block(ts)
    ensures Wall(z, Cut(ts, g)) == Cut(Wall(z, ts), g)
    ensures CivilDate(z, Cut(ts, g)) == CivilDate(z, ts)
  {
    var w := Wall(z, ts);
    CutKeepsQuotient(ts - HOUR, g);
    CutShifts(ts, -HOUR, g);
    CutShifts(ts, w - ts, g);
    CutKeepsQuotient(w, g);
  }

  lemma CutKeepsQuotient(x: int, g: Granularity)
    ensures Cut(x, g) / DAY == x / DAY
  {
    var q := x / DAY;
    CutDay(q, g);
    CutAbove(x, q * DAY, g);
    assert q * DAY <= Cut(x, g) < q * DAY + DAY;
  }

  lemma CutDay(q: int, g: Granularity)
    ensures Cut(q * DAY, g) == q * DAY
  {
    assert q * DAY == (24 * q) * HOUR == (96 * q) * QUARTER;
  }

  lemma CutShifts(x: int, shift: int, g: Granularity)
    requires shift == -HOUR || shift == HOUR || shift == 2 * HOUR
    ensures Cut(x + shift, g) == Cut(x, g) + shift
  {
    var h := shift / HOUR;
    if g == Hour {
      var a := x / HOUR;
      assert (x + shift) / HOUR == a + h;
    } else {
      var a := x / QUARTER;
      assert (x + shift) / QUARTER == a + 4 * h;
    }
  }

  lemma CutAbove(x: int, floor: int, g: Granularity)
    requires floor <= x && Cut(floor, g) == floor
    ensures floor <= Cut(x, g)
  {
    if g == Hour {
      assert floor == floor / HOUR * HOUR;
      assert floor / HOUR <= x / HOUR;
    } else {
      assert floor == floor / QUARTER * QUARTER;
      assert floor / QUARTER <= x / QUARTER;
    }
  }

  lemma BucketKeepsDate(z: Zone, ts: int, g: Granularity)
    requires CivilDate(z, ts) >= 1
    ensures BucketStart(z, ts, g) <= ts
    ensures CivilDate(z, BucketStart(z, ts, g)) == StartDay(z, g, CivilDate(z, ts)) >= 1
  {
    var d := CivilDate(z, ts);
    StartDayBounds(z, g, d);
    match g
    case Quarter => SubDayStart(z, ts, g);
    case Hour => SubDayStart(z, ts, g);
    case _ =>
      MidnightOffset(z, StartDay(z, g, d));
      DaysTile(z, ts);
      PeriodStartsOrdered(z, StartDay(z, g, d), d);
  }

  /** The key of an instant's bucket is the truncation of its wall clock, so it depends on the wall clock alone. */
  lemma KeyIsTruncation(z: Zone, ts: int, g: Granularity)
    requires CivilDate(z, ts) >= 1
    ensures BucketKey(z, ts, g) == TruncateWall(z, Wall(z, ts), g)
  {
    match g
    case Quarter => SubDayStart(z, ts, g);
    case Hour => SubDayStart(z, ts, g);
    case _ => MidnightOffset(z, StartDay(z, g, CivilDate(z, ts)));
  }

  /** Coarser buckets factor through finer ones: the coarse bucket of a fine bucket's start is the coarse bucket. */
  lemma BucketsFactor(z: Zone, ts: int, fine: Granularity, coarse: Granularity)
    requires CivilDate(z, ts) >= 1 && Refines(fine, coarse)
    ensures CivilDate(z, BucketStart(z, ts, fine)) >= 1
    ensures BucketStart(z, BucketStart(z, ts, fine), coarse) == BucketStart(z, ts, coarse)
  {
    BucketKeepsDate(z, ts, fine);
    StartDayFactors(z, fine, coarse, CivilDate(z, ts));
    if coarse == Quarter || coarse == Hour {
      NestedFloor(ts);
    }
  }

  lemma NestedFloor(ts: int)
    ensures Cut(Cut(ts, Quarter), Hour) == Cut(ts, Hour)
    ensures Cut(Cut(ts, Quarter), Quarter) == Cut(ts, Quarter)
    ensures Cut(Cut(ts, Hour), Hour) == Cut(ts, Hour)
  {
    CutTwice(ts, Hour);
    CutTwice(ts, Quarter);
    var h := ts / HOUR;
    CutHour(h);
    CutAbove(ts, h * HOUR, Quarter);
    WithinHour(Cut(ts, Quarter), h);
    WithinHour(ts, h);
  }

  lemma CutHour(h: int)
    ensures Cut(h * HOUR, Quarter) == h * HOUR
  {
    assert h * HOUR == (4 * h) * QUARTER;
  }

  lemma WithinHour(x: int, h: int)
    requires h * HOUR <= x < h * HOUR + HOUR
    ensures Cut(x, Hour) == h * HOUR
  {
    assert x / HOUR == h;
  }

  lemma CutTwice(x: int, g: Granularity)
    ensures Cut(Cut(x, g), g) == Cut(x, g)
  {
    if g == Hour {
      assert Cut(x, g) == x / HOUR * HOUR;
    } else {
      assert Cut(x, g) == x / QUARTER * QUARTER;
    }
  }

  /** Buckets are idempotent, never after their argument, and keep the order of instants. */
  lemma BucketsAreFloors(z: Zone, a: int, b: int, g: Granularity)
    requires CivilDate(z, a) >= 1 && a <= b
    ensures CivilDate(z, b) >= 1
    ensures BucketStart(z, a, g) <= a
    ensures CivilDate(z, BucketStart(z, a, g)) >= 1
    ensures BucketStart(z, BucketStart(z, a, g), g) == BucketStart(z, a, g)
    ensures BucketStart(z, a, g) <= BucketStart(z, b, g)
  {
    CivilDateMonotone(z, a, b);
    BucketKeepsDate(z, a, g);
    BucketsFactor(z, a, g, g);
    match g
    case Quarter => CutTwice(a, g); CutAbove(b, Cut(a, g), g);
    case Hour => CutTwice(a, g); CutAbove(b, Cut(a, g), g);
    case _ =>
      var d, e := StartDay(z, g, CivilDate(z, a)), StartDay(z, g, CivilDate(z, b));
      StartDayMonotone(z, g, CivilDate(z, a), CivilDate(z, b));
      PeriodStartsOrdered(z, d, e);
  }

  /** The same factoring on keys, which is what regrouping a finished series uses. */
  lemma KeysFactor(z: Zone, ts: int, fine: Granularity, coarse: Granularity)
    requires CivilDate(z, ts) >= 1 && Refines(fine, coarse)
    ensures BucketKey(z, ts, fine) / DAY >= 1
    ensures TruncateWall(z, BucketKey(z, ts, fine), coarse) == BucketKey(z, ts, coarse)
  {
    BucketKeepsDate(z, ts, fine);
    KeyIsTruncation(z, BucketStart(z, ts, fine), coarse);
    BucketsFactor(z, ts, fine, coarse);
  }

  /**
   * Two different buckets share a key exactly in the repeated hour of an autumn change, and only below day
   * granularity: there the two 02:00 hours are accumulated into one row.
   */
  lemma KeysMergeIff(z: Zone, a: int, b: int, g: Granularity)
    requires CivilDate(z, a) >= 1 && CivilDate(z, b) >= 1
    requires BucketStart(z, a, g) < BucketStart(z, b, g)
    ensures BucketKey(z, a, g) == BucketKey(z, b, g) <==>
            && (g == Quarter || g == Hour)
            && BucketStart(z, b, g) == BucketStart(z, a, g) + HOUR
            && z.summer(Block(a)) && !z.summer(Block(b))
  {
    WallRepeatsIff(z, BucketStart(z, a, g), BucketStart(z, b, g));
    match g
    case Quarter => SubDayStart(z, a, g); SubDayStart(z, b, g);
    case Hour => SubDayStart(z, a, g); SubDayStart(z, b, g);
    case _ =>
      MidnightOffset(z, StartDay(z, g, CivilDate(z, a)));
      MidnightOffset(z, StartDay(z, g, CivilDate(z, b)));
  }

  /** In every autumn change, 00:30 and 01:30 UTC fall in different hours that share one key. */
  lemma AutumnHoursMerge(z: Zone, day: int)
    requires day >= 2 && z.summer(day - 1) && !z.summer(day)
    ensures
      var first, second := day * DAY + HOUR / 2, day * DAY + HOUR + HOUR / 2;
      && CivilDate(z, first) == day == CivilDate(z, second)
      && BucketStart(z, first, Hour) != BucketStart(z, second, Hour)
      && BucketKey(z, first, Hour) == BucketKey(z, second, Hour)
  {
    var first, second := day * DAY + HOUR / 2, day * DAY + HOUR + HOUR / 2;
    assert Block(first) == day - 1 && Block(second) == day;
    SubDayStart(z, first, Hour);
    SubDayStart(z, second, Hour);
    assert Cut(first, Hour) == day * DAY && Cut(second, Hour) == day * DAY + HOUR by {
      assert first / HOUR == 24 * day && second / HOUR == 24 * day + 1;
    }
  }

  // ---- Which instants share a bucket ----

  /** The same quarter of an hour, hour, day, week from Monday, month or year. */
  predicate SamePeriod(z: Zone, a: int, b: int, g: Granularity)
    requires CivilDate(z, a) >= 1 && CivilDate(z, b) >= 1
  {
    match g
    case Quarter => a / QUARTER == b / QUARTER
    case Hour => a / HOUR == b / HOUR
    case Day => CivilDate(z, a) == CivilDate(z, b)
    case Week => (CivilDate(z, a) - 1) / 7 == (CivilDate(z, b) - 1) / 7
    case Month => MonthOf(z.months, CivilDate(z, a)) == MonthOf(z.months, CivilDate(z, b))
    case Year => MonthOf(z.months, CivilDate(z, a)) / 12 == MonthOf(z.months, CivilDate(z, b)) / 12
  }

  lemma CutIff(a: int, b: int)
    ensures Cut(a, Hour) == Cut(b, Hour) <==> a / HOUR == b / HOUR
    ensures Cut(a, Quarter) == Cut(b, Quarter) <==> a / QUARTER == b / QUARTER
  {
    assert Cut(a, Hour) == a / HOUR * HOUR && Cut(b, Hour) == b / HOUR * HOUR;
    assert Cut(a, Quarter) == a / QUARTER * QUARTER && Cut(b, Quarter) == b / QUARTER * QUARTER;
  }

  lemma BeginIff(begin: Months, m: nat, n: nat)
    ensures begin(m) == begin(n) <==> m == n
  {
    if m < n { BeginMonotone(begin, m, n); }
    if n < m { BeginMonotone(begin, n, m); }
  }

  lemma WeekIff(d: nat, e: nat)
    requires d >= 1 && e >= 1
    ensures WeekStart(d) == WeekStart(e) <==> (d - 1) / 7 == (e - 1) / 7
  {
    assert WeekStart(d) == 7 * ((d - 1) / 7) + 1 && WeekStart(e) == 7 * ((e - 1) / 7) + 1;
  }

  lemma StartDayIff(z: Zone, g: Granularity, d: int, e: int)
    requires d >= 1 && e >= 1
    ensures StartDay(z, g, d) == StartDay(z, g, e) <==>
            match g
            case Week => (d - 1) / 7 == (e - 1) / 7
            case Month => MonthOf(z.months, d) == MonthOf(z.months, e)
            case Year => MonthOf(z.months, d) / 12 == MonthOf(z.months, e) / 12
            case _ => d == e
  {
    WeekIff(d, e);
    BeginIff(z.months, MonthOf(z.months, d), MonthOf(z.months, e));
    BeginIff(z.months, 12 * (MonthOf(z.months, d) / 12), 12 * (MonthOf(z.months, e) / 12));
  }

  /** Two instants are in one bucket exactly when they are in one period of its granularity. */
  lemma SameBucketIff(z: Zone, a: int, b: int, g: Granularity)
    requires CivilDate(z, a) >= 1 && CivilDate(z, b) >= 1
    ensures BucketStart(z, a, g) == BucketStart(z, b, g) <==> SamePeriod(z, a, b, g)
  {
    var d, e := StartDay(z, g, CivilDate(z, a)), StartDay(z, g, CivilDate(z, b));
    CutIff(a, b);
    StartDayIff(z, g, CivilDate(z, a), CivilDate(z, b));
    MidnightOffset(z, d);
    MidnightOffset(z, e);
  }
}
