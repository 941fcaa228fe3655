/** The splits with every arithmetic operation rounded, as the 28-digit decimal context does. */
module SplitRounding {
  import opened Split

  /** The relative error of one operation in a 28-digit context: half a unit in the last place. */
  const U: real := 0.0000000000000000000000000005

  function Abs(x: real): real {
    if x < 0.0 then -x else x
  }

  ghost predicate RelativeError(fl: real -> real, u: real) {
    0.0 <= u < 1.0 && forall x :: Abs(fl(x) - x) <= u * Abs(x)
  }

  /** SplitConsumption on accepted input, each operation rounded by `fl`. */
  ghost function RoundedConsumption(fl: real -> real, draw: real, consumption: real, production: real): ConsumptionSplit
    requires 0.0 <= draw <= consumption && 0.0 <= production
  {
    var pool := Min(production, consumption);
    var local :=
      if consumption > 0.0 && pool > 0.0 then fl(Times(pool, fl(draw / consumption))) else 0.0;
    ConsumptionSplit(local, fl(draw - local))
  }

  /** SplitProduction on accepted input, each operation rounded by `fl`. */
  ghost function RoundedProduction(fl: real -> real, produced: real, production: real, consumption: real)
    : ProductionSplit
    requires 0.0 <= produced <= production && 0.0 <= consumption
  {
    if production <= 0.0 then ProductionSplit(0.0, 0.0)
    else
      var share := fl(produced / production);
      var exportPool := Max(fl(production - consumption), 0.0);
      ProductionSplit(fl(Times(Min(production, consumption), share)), fl(Times(exportPool, share)))
  }

  // ---- Two roundings in a row ----

  /** `a` is the non-negative `x` with a relative error of at most `e`. */
  ghost predicate Near(a: real, x: real, e: real) {
    x >= 0.0 && x - Times(e, x) <= a <= x + Times(e, x)
  }

  lemma FlNear(fl: real -> real, u: real, x: real)
    requires RelativeError(fl, u) && x >= 0.0
    ensures Near(fl(x), x, u) && fl(x) >= 0.0
  {
    assert Abs(fl(x) - x) <= u * Abs(x);
    RoundKeepsSign(u, x, fl(x));
  }

  lemma RoundKeepsSign(u: real, x: real, r: real)
    requires 0.0 <= u < 1.0 && x >= 0.0 && r >= x - u * x
    ensures r >= 0.0
  {
    TimesMonotone(x, 0.0, 1.0 - u);
    assert Times(x, 1.0 - u) == x - u * x;
  }

  /** What two roundings cost: 2u + u^2. */
  function Twice(u: real): (e: real)
    ensures 0.0 <= u ==> e >= 0.0
  {
    u + u + Times(u, u)
  }

  /** What three roundings cost: 3u + 3u^2 + u^3. */
  function Thrice(u: real): real {
    u + Twice(u) + Times(u, Twice(u))
  }

  lemma TimesSwap(k: real, e: real, x: real)
    ensures Times(k, Times(e, x)) == Times(e, Times(k, x))
  {
  }

  lemma TimesTogether(d: real, e: real, x: real)
    ensures Times(d + e + Times(d, e), x) == Times(d, x) + Times(e, x) + Times(d, Times(e, x))
  {
  }

  /** Scaling keeps a relative error. */
  lemma NearScaled(pool: real, s: real, share: real, u: real)
    requires pool >= 0.0 && Near(s, share, u)
    ensures Near(Times(pool, s), Times(pool, share), u)
  {
    TimesMonotone(pool, share - Times(u, share), s);
    TimesMonotone(pool, s, share + Times(u, share));
    TimesSum(pool, share, Times(u, share));
    TimesSwap(pool, u, share);
  }

  /** Two relative errors in a row. */
  lemma NearTogether(a: real, b: real, x: real, d: real, e: real)
    requires 0.0 <= d && 0.0 <= e && Near(a, b, d) && Near(b, x, e)
    ensures Near(a, x, d + e + Times(d, e))
  {
    TimesMonotone(d, b, x + Times(e, x));
    TimesSum(d, x, Times(e, x));
    TimesTogether(d, e, x);
  }

  /** A rounded share times a pool, rounded again, is within 2u + u^2 of the exact slice. */
  lemma TwoRoundings(fl: real -> real, u: real, pool: real, share: real)
    requires RelativeError(fl, u) && pool >= 0.0 && share >= 0.0
    ensures Near(fl(Times(pool, fl(share))), Times(pool, share), Twice(u))
  {
    FlNear(fl, u, share);
    NearScaled(pool, fl(share), share, u);
    TimesMonotone(pool, 0.0, fl(share));
    FlNear(fl, u, Times(pool, fl(share)));
    NearTogether(fl(Times(pool, fl(share))), Times(pool, fl(share)), Times(pool, share), u, u);
  }

  /** The exact local part, in the form the rounded code gives it. */
  lemma LocalIsSlice(draw: real, consumption: real, production: real)
    requires 0.0 <= draw <= consumption && 0.0 <= production
    ensures
      var x := SplitConsumption(draw, consumption, production).value;
      var pool := Min(production, consumption);
      && 0.0 <= x.local <= draw && x.grid == draw - x.local
      && (consumption > 0.0 ==> draw / consumption >= 0.0)
      && x.local == if consumption > 0.0 && pool > 0.0 then Times(pool, draw / consumption) else 0.0
  {
    ConsumptionIsLinear(draw, consumption, production);
    if consumption > 0.0 {
      DivTimes(draw, consumption);
    }
  }

  lemma LocalError(fl: real -> real, u: real, draw: real, consumption: real, production: real)
    requires RelativeError(fl, u) && 0.0 <= draw <= consumption && 0.0 <= production
    ensures Near(
      RoundedConsumption(fl, draw, consumption, production).local,
      SplitConsumption(draw, consumption, production).value.local,
      Twice(u))
  {
    LocalIsSlice(draw, consumption, production);
    if consumption > 0.0 && Min(production, consumption) > 0.0 {
      TwoRoundings(fl, u, Min(production, consumption), draw / consumption);
    }
  }

  /** Each local share is within 2u + u^2 of its exact value, and the grid part is negative by at most that much. */
  lemma ConsumptionError(fl: real -> real, u: real, draw: real, consumption: real, production: real)
    requires RelativeError(fl, u) && 0.0 <= draw <= consumption && 0.0 <= production
    ensures
      var r := RoundedConsumption(fl, draw, consumption, production);
      && Near(r.local, SplitConsumption(draw, consumption, production).value.local, Twice(u))
      && r.grid >= -Times(1.0 + u, Times(Twice(u), draw))
  {
    LocalError(fl, u, draw, consumption, production);
    LocalIsSlice(draw, consumption, production);
    var local := RoundedConsumption(fl, draw, consumption, production).local;
    var exact := SplitConsumption(draw, consumption, production).value.local;
    TimesMonotone(Twice(u), exact, draw);
    GridFloor(fl, u, draw - local, Times(Twice(u), draw));
  }

  lemma GridFloor(fl: real -> real, u: real, g: real, b: real)
    requires RelativeError(fl, u) && g >= -b && b >= 0.0
    ensures fl(g) >= -Times(1.0 + u, b)
  {
    assert Abs(fl(g) - g) <= u * Abs(g);
    TimesMonotone(1.0 + u, 0.0, b);
    if g >= 0.0 {
      RoundKeepsSign(u, g, fl(g));
    } else {
      TimesMonotone(1.0 + u, -g, b);
    }
  }

  /** Where the pool leaves room for both roundings, the rounded grid part is never negative. */
  lemma GridNonNegative(fl: real -> real, u: real, draw: real, consumption: real, production: real)
    requires RelativeError(fl, u) && 0.0 <= draw <= consumption && 0.0 <= production
    requires Min(production, consumption) + Times(Twice(u), Min(production, consumption)) <= consumption
    ensures RoundedConsumption(fl, draw, consumption, production).grid >= 0.0
  {
    var local := RoundedConsumption(fl, draw, consumption, production).local;
    LocalError(fl, u, draw, consumption, production);
    RoomForRounding(Twice(u), draw, consumption, production);
    FlNear(fl, u, draw - local);
  }

  lemma RoomForRounding(e: real, draw: real, consumption: real, production: real)
    requires 0.0 <= draw <= consumption && 0.0 <= production
    requires Min(production, consumption) + Times(e, Min(production, consumption)) <= consumption
    ensures
      var exact := SplitConsumption(draw, consumption, production).value.local;
      exact + Times(e, exact) <= draw
  {
    LocalIsSlice(draw, consumption, production);
    var pool := Min(production, consumption);
    if consumption > 0.0 && pool > 0.0 {
      var share := draw / consumption;
      DivTimes(draw, consumption);
      TimesMonotone(share, pool + Times(e, pool), consumption);
      TimesSum(share, pool, Times(e, pool));
      TimesSwap(share, e, pool);
      assert Times(share, pool) == Times(pool, share);
      assert Times(share, consumption) == draw;
    }
  }

  // ---- Sums ----

  ghost function RoundedLocals(fl: real -> real, draws: seq<real>, consumption: real, production: real): seq<real>
    requires Within(draws, consumption) && production >= 0.0
  {
    if draws == [] then []
    else
      [RoundedConsumption(fl, draws[0], consumption, production).local]
      + RoundedLocals(fl, draws[1..], consumption, production)
  }

  /** Relative errors of non-negative numbers add up to the same relative error. */
  lemma NearSum(a: real, b: real, x: real, y: real, e: real)
    requires Near(a, x, e) && Near(b, y, e)
    ensures Near(a + b, x + y, e)
  {
    TimesSum(e, x, y);
  }

  lemma {:induction false} LocalsDrift(fl: real -> real, u: real, draws: seq<real>, consumption: real, production: real)
    requires RelativeError(fl, u) && consumption >= 0.0 && Within(draws, consumption) && production >= 0.0
    ensures Near(
      Sum(RoundedLocals(fl, draws, consumption, production)),
      SumLocal(ConsumerSplits(draws, consumption, production)),
      Twice(u))
  {
    if draws != [] {
      LocalsDrift(fl, u, draws[1..], consumption, production);
      LocalError(fl, u, draws[0], consumption, production);
      NearSum(
        RoundedConsumption(fl, draws[0], consumption, production).local,
        Sum(RoundedLocals(fl, draws[1..], consumption, production)),
        SplitConsumption(draws[0], consumption, production).value.local,
        SumLocal(ConsumerSplits(draws[1..], consumption, production)),
        Twice(u));
    }
  }

  /** However many consumers there are, their rounded local shares miss the pool by at most a 2u + u^2 fraction of it. */
  lemma PoolDrift(fl: real -> real, u: real, draws: seq<real>, c: real, p: real)
    requires RelativeError(fl, u) && NonNegative(draws) && c == Sum(draws) && p >= 0.0
    ensures c >= 0.0 && Within(draws, c)
    ensures Near(Sum(RoundedLocals(fl, draws, c, p)), Min(p, c), Twice(u))
  {
    SumBounds(draws);
    LocalsDrift(fl, u, draws, c, p);
    ConsumersShareThePool(draws, c, p);
  }

  lemma ProductionSlices(produced: real, production: real, consumption: real)
    requires 0.0 <= produced <= production && 0.0 < production && 0.0 <= consumption
    ensures produced / production >= 0.0
    ensures
      var share := produced / production;
      Times(Min(production, consumption), share) + Times(Max(production - consumption, 0.0), share) == produced
  {
    ProductionIsLinear(produced, production, consumption);
    DivTimes(produced, production);
  }

  /** A producer's two rounded parts miss its output by at most 2u + u^2 of it, if the surplus itself is a decimal. */
  lemma ProductionError(fl: real -> real, u: real, produced: real, production: real, consumption: real)
    requires RelativeError(fl, u) && 0.0 <= produced <= production && 0.0 <= consumption
    requires fl(production - consumption) == production - consumption
    ensures
      var r := RoundedProduction(fl, produced, production, consumption);
      Near(r.localSold + r.exported, produced, Twice(u))
  {
    if production > 0.0 {
      var localPool, exportPool := Min(production, consumption), Max(production - consumption, 0.0);
      ProductionSlices(produced, production, consumption);
      TwoRoundings(fl, u, localPool, produced / production);
      TwoRoundings(fl, u, exportPool, produced / production);
      NearSum(
        fl(Times(localPool, fl(produced / production))), fl(Times(exportPool, fl(produced / production))),
        Times(localPool, produced / production), Times(exportPool, produced / production), Twice(u));
    } else {
      assert Times(Twice(u), 0.0) == 0.0;
    }
  }

  /** A rounded pool times a rounded share, rounded again, is within 3u + 3u^2 + u^3 of the exact slice. */
  lemma ThreeRoundings(fl: real -> real, u: real, pool: real, share: real)
    requires RelativeError(fl, u) && pool >= 0.0 && share >= 0.0
    ensures Near(fl(Times(fl(pool), fl(share))), Times(pool, share), Thrice(u))
  {
    FlNear(fl, u, pool);
    FlNear(fl, u, share);
    NearScaled(fl(pool), fl(share), share, u);
    NearScaled(share, fl(pool), pool, u);
    assert Times(share, fl(pool)) == Times(fl(pool), share) && Times(share, pool) == Times(pool, share);
    NearTogether(Times(fl(pool), fl(share)), Times(fl(pool), share), Times(pool, share), u, u);
    TimesMonotone(fl(pool), 0.0, fl(share));
    FlNear(fl, u, Times(fl(pool), fl(share)));
    NearTogether(fl(Times(fl(pool), fl(share))), Times(fl(pool), fl(share)), Times(pool, share), u, Twice(u));
  }

  lemma NearWeaker(a: real, x: real, d: real, e: real)
    requires Near(a, x, d) && d <= e
    ensures Near(a, x, e)
  {
    TimesMonotone(x, d, e);
    assert Times(x, d) == Times(d, x) && Times(x, e) == Times(e, x);
  }

  /** Without that, the surplus is rounded too and the two parts are off by at most three roundings. */
  lemma ProductionErrorAny(fl: real -> real, u: real, produced: real, production: real, consumption: real)
    requires RelativeError(fl, u) && 0.0 <= produced <= production && 0.0 <= consumption
    ensures
      var r := RoundedProduction(fl, produced, production, consumption);
      Near(r.localSold + r.exported, produced, Thrice(u))
  {
    if production > consumption {
      var localPool, exportPool := Min(production, consumption), production - consumption;
      ProductionSlices(produced, production, consumption);
      TwoRoundings(fl, u, localPool, produced / production);
      TimesMonotone(u, 0.0, Twice(u));
      NearWeaker(
        fl(Times(localPool, fl(produced / production))), Times(localPool, produced / production), Twice(u), Thrice(u));
      ThreeRoundings(fl, u, exportPool, produced / production);
      FlNear(fl, u, exportPool);
      NearSum(
        fl(Times(localPool, fl(produced / production))), fl(Times(fl(exportPool), fl(produced / production))),
        Times(localPool, produced / production), Times(exportPool, produced / production), Thrice(u));
    } else {
      NoSurplus(fl, u, production - consumption);
      ProductionErrorNoSurplus(fl, u, produced, production, consumption);
    }
  }

  lemma NoSurplus(fl: real -> real, u: real, x: real)
    requires RelativeError(fl, u) && x <= 0.0
    ensures fl(x) <= 0.0
  {
    assert Abs(fl(x) - x) <= u * Abs(x);
    RoundKeepsSign(u, -x, -fl(x));
  }

  lemma ProductionErrorNoSurplus(fl: real -> real, u: real, produced: real, production: real, consumption: real)
    requires RelativeError(fl, u) && 0.0 <= produced <= production <= consumption
    requires fl(production - consumption) <= 0.0
    ensures
      var r := RoundedProduction(fl, produced, production, consumption);
      Near(r.localSold + r.exported, produced, Thrice(u))
  {
    TimesMonotone(u, 0.0, Twice(u));
    if production > 0.0 {
      ProductionSlices(produced, production, consumption);
      TwoRoundings(fl, u, production, produced / production);
      FlNear(fl, u, 0.0);
      assert Times(0.0, fl(produced / production)) == 0.0 && Times(u, 0.0) == 0.0;
      NearWeaker(fl(Times(production, fl(produced / production))), produced, Twice(u), Thrice(u));
    } else {
      assert Times(Thrice(u), 0.0) == 0.0;
    }
  }

  // ---- The 28-digit context itself ----

  ghost function Pow10(e: int): (p: real)
    ensures p > 0.0
    decreases if e < 0 then -e else e
  {
    if e == 0 then 1.0 else if e > 0 then 10.0 * Pow10(e - 1) else Pow10(e + 1) / 10.0
  }

  /** `y` is a nearest 28-digit decimal to `x`: an integer coefficient of 28 digits times a power of ten. */
  ghost predicate Rounds28(x: real, y: real) {
    (x == 0.0 && y == 0.0) || exists m: int, e: int :: NearestAt(x, y, m, e)
  }

  ghost predicate NearestAt(x: real, y: real, m: int, e: int) {
    && y == (m as real) * Pow10(e)
    && 1000000000000000000000000000.0 * Pow10(e) <= Abs(x) < 10000000000000000000000000000.0 * Pow10(e)
    && Abs(y - x) <= 0.5 * Pow10(e)
  }

  ghost predicate IsContext28(fl: real -> real) {
    forall x :: Rounds28(x, fl(x))
  }

  /** Rounding to 28 digits has relative error U, so every bound above holds of the decimal context. */
  lemma Context28Error(fl: real -> real)
    requires IsContext28(fl)
    ensures RelativeError(fl, U)
  {
    forall x ensures Abs(fl(x) - x) <= U * Abs(x) {
      assert Rounds28(x, fl(x));
      if x != 0.0 {
        var m, e :| NearestAt(x, fl(x), m, e);
        assert U * (1000000000000000000000000000.0 * Pow10(e)) == 0.5 * Pow10(e);
      }
    }
  }

  lemma {:induction false} Pow10Monotone(a: int, b: int)
    requires a <= b
    ensures Pow10(a) <= Pow10(b)
    decreases b - a
  {
    if a < b {
      Pow10Monotone(a, b - 1);
      Pow10Step(b - 1);
    }
  }

  lemma Pow10Step(e: int)
    ensures Pow10(e + 1) == 10.0 * Pow10(e)
  {
  }

  /** A number between two powers of ten has one possible exponent. */
  lemma ExponentOf(x: real, y: real, m: int, e: int, k: int)
    requires NearestAt(x, y, m, e)
    requires 1000000000000000000000000000.0 * Pow10(k) <= Abs(x) < 10000000000000000000000000000.0 * Pow10(k)
    ensures e == k
  {
    Pow10Step(e);
    Pow10Step(k);
    if e < k {
      Pow10Monotone(e + 1, k);
      assert false;
    } else if e > k {
      Pow10Monotone(k + 1, e);
      assert false;
    }
  }

  lemma SmallPowers()
    ensures Pow10(-28) == 0.0000000000000000000000000001
    ensures Pow10(-27) == 0.000000000000000000000000001
  {
    assert Pow10(-7) == 0.0000001;
    assert Pow10(-14) == 0.00000000000001;
    assert Pow10(-21) == 0.000000000000000000001;
  }

  lemma RoundedShare(fl: real -> real)
    requires IsContext28(fl)
    ensures fl(9.0 / 83.0) == 0.1084337349397590361445783133
  {
    SmallPowers();
    var x := 9.0 / 83.0;
    assert Rounds28(x, fl(x));
    var m, e :| NearestAt(x, fl(x), m, e);
    ExponentOf(x, fl(x), m, e, -28);
    assert m == 1084337349397590361445783133;
  }

  lemma RoundedSlice(fl: real -> real)
    requires IsContext28(fl)
    ensures fl(9.0000000000000000000000000039) == 9.000000000000000000000000004
  {
    SmallPowers();
    var y := 9.0000000000000000000000000039;
    assert Rounds28(y, fl(y));
    var n, k :| NearestAt(y, fl(y), n, k);
    ExponentOf(y, fl(y), n, k, -27);
    assert n == 9000000000000000000000000004;
  }

  /**
   * The slice of a draw can exceed the draw once the context rounds: 9 kWh of a community total of 83 with
   * surplus solar is given more than 9 kWh of local energy, and a negative grid part.
   */
  lemma RoundedSliceExceedsDraw(fl: real -> real, production: real)
    requires IsContext28(fl) && production >= 83.0
    ensures RoundedConsumption(fl, 9.0, 83.0, production).local == 9.000000000000000000000000004
    ensures RoundedConsumption(fl, 9.0, 83.0, production).grid < 0.0
  {
    RoundedShare(fl);
    assert Times(83.0, 0.1084337349397590361445783133) == 9.0000000000000000000000000039;
    RoundedSlice(fl);
    var g := -0.000000000000000000000000004;
    Context28Error(fl);
    assert Abs(fl(g) - g) <= U * Abs(g);
  }
}
