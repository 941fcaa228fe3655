/** The local-pool arithmetic of one timestamp, over exact reals. */
module Split {
  import opened Outcomes

  datatype AllocationError = NegativeInput | ExceedsTotal

  datatype ConsumptionSplit = ConsumptionSplit(local: real, grid: real)

  datatype ProductionSplit = ProductionSplit(localSold: real, exported: real)

  function Min(a: real, b: real): real {
    if a <= b then a else b
  }

  function Max(a: real, b: real): real {
    if a >= b then a else b
  }

  /** Multiplication as a named function, so that equal factors give equal products without arithmetic. */
  function Times(a: real, b: real): real {
    a * b
  }

  lemma TimesSum(k: real, a: real, b: real)
    ensures Times(k, a + b) == Times(k, a) + Times(k, b)
    ensures Times(k, a - b) == Times(k, a) - Times(k, b)
  {
  }

  lemma TimesMonotone(k: real, a: real, b: real)
    requires 0.0 <= k && a <= b
    ensures Times(k, a) <= Times(k, b)
  {
  }

  /** Divide one consumer's draw into a solar part and a grid part. */
  function SplitConsumption(draw: real, consumption: real, production: real)
    : (r: Result<ConsumptionSplit, AllocationError>)
    ensures r.Ok? <==> 0.0 <= draw <= consumption && 0.0 <= production
    ensures r.Ok? ==> r.value.local + r.value.grid == draw
  {
    if draw < 0.0 || consumption < 0.0 || production < 0.0 then Err(NegativeInput)
    else if draw > consumption then Err(ExceedsTotal)
    else
      var pool := Min(production, consumption);
      var local := if consumption > 0.0 && pool > 0.0 then pool * (draw / consumption) else 0.0;
      Ok(ConsumptionSplit(local, draw - local))
  }

  /** Divide one producer's output into what the community used and what was exported. */
  function SplitProduction(produced: real, production: real, consumption: real)
    : (r: Result<ProductionSplit, AllocationError>)
    ensures r.Ok? <==> 0.0 <= produced <= production && 0.0 <= consumption
  {
    if produced < 0.0 || production < 0.0 || consumption < 0.0 then Err(NegativeInput)
    else if produced > production then Err(ExceedsTotal)
    else if production <= 0.0 then Ok(ProductionSplit(0.0, 0.0))
    else
      var localPool := Min(production, consumption);
      var exportPool := Max(production - consumption, 0.0);
      var share := produced / production;
      Ok(ProductionSplit(localPool * share, exportPool * share))
  }

  /** The fraction of every draw (or output) that the pool covers at this timestamp. */
  function LocalFactor(total: real, other: real): (f: real)
    requires total >= 0.0 && other >= 0.0
    ensures 0.0 <= f <= 1.0
    ensures Times(f, total) == Min(total, other)
  {
    if total > 0.0 then DivTimes(Min(total, other), total); Min(total, other) / total else 0.0
  }

  lemma DivTimes(a: real, b: real)
    requires b > 0.0
    ensures (a / b) * b == a
    ensures 0.0 <= a ==> 0.0 <= a / b
    ensures a <= b ==> a / b <= 1.0
  {
  }

  lemma SwapFactor(pool: real, draw: real, total: real)
    requires total > 0.0
    ensures pool * (draw / total) == Times(pool / total, draw)
  {
    DivTimes(draw, total);
    DivTimes(pool, total);
    var x, y := draw / total, pool / total;
    assert pool * x == (y * total) * x == y * (x * total) == y * draw;
  }

  /** Every accepted draw is split by the same factor, so both parts lie between zero and the draw. */
  lemma ConsumptionIsLinear(draw: real, consumption: real, production: real)
    requires 0.0 <= draw <= consumption && 0.0 <= production
    ensures
      var s := SplitConsumption(draw, consumption, production).value;
      var f := LocalFactor(consumption, production);
      && s.local == Times(f, draw) && s.grid == draw - Times(f, draw)
      && 0.0 <= s.local <= draw && 0.0 <= s.grid <= draw
  {
    var f := LocalFactor(consumption, production);
    if consumption > 0.0 {
      SwapFactor(Min(production, consumption), draw, consumption);
      assert Min(production, consumption) == 0.0 ==> f == 0.0;
    }
    Scaled(f, draw);
  }

  /** The same for an output: both pools are shared on the producer's contribution. */
  lemma ProductionIsLinear(produced: real, production: real, consumption: real)
    requires 0.0 <= produced <= production && 0.0 <= consumption
    ensures
      var s := SplitProduction(produced, production, consumption).value;
      var f := LocalFactor(production, consumption);
      && s.localSold == Times(f, produced) && s.exported == produced - Times(f, produced)
      && 0.0 <= s.localSold <= produced && 0.0 <= s.exported <= produced
      && s.localSold + s.exported == produced
  {
    var f := LocalFactor(production, consumption);
    if production > 0.0 {
      var localPool, exportPool := Min(production, consumption), Max(production - consumption, 0.0);
      SwapFactor(localPool, produced, production);
      SwapFactor(exportPool, produced, production);
      Complement(localPool, exportPool, production, produced);
    }
    Scaled(f, produced);
  }

  lemma Complement(a: real, b: real, total: real, x: real)
    requires total > 0.0 && a + b == total
    ensures Times(b / total, x) == x - Times(a / total, x)
  {
    assert b / total == (total - a) / total == total / total - a / total;
    assert (1.0 - a / total) * x == x - (a / total) * x;
  }

  lemma Scaled(f: real, x: real)
    requires 0.0 <= f <= 1.0 && x >= 0.0
    ensures 0.0 <= Times(f, x) <= x
  {
    TimesMonotone(x, 0.0, f);
    TimesMonotone(x, f, 1.0);
    assert Times(x, f) == Times(f, x);
  }

  function Sum(xs: seq<real>): real {
    if xs == [] then 0.0 else xs[0] + Sum(xs[1..])
  }

  ghost predicate NonNegative(xs: seq<real>) {
    forall i | 0 <= i < |xs| :: xs[i] >= 0.0
  }

  lemma {:induction false} SumBounds(xs: seq<real>)
    requires NonNegative(xs)
    ensures Sum(xs) >= 0.0
    ensures forall i | 0 <= i < |xs| :: xs[i] <= Sum(xs)
  {
    if xs != [] {
      SumBounds(xs[1..]);
      forall i | 0 <= i < |xs| ensures xs[i] <= Sum(xs) {
        if i > 0 { assert xs[i] == xs[1..][i - 1]; }
      }
    }
  }

  ghost predicate Within(xs: seq<real>, total: real) {
    forall i | 0 <= i < |xs| :: 0.0 <= xs[i] <= total
  }

  /** The splits of all consumers of a community at one timestamp, against the same totals. */
  function ConsumerSplits(draws: seq<real>, consumption: real, production: real): (s: seq<ConsumptionSplit>)
    requires Within(draws, consumption) && production >= 0.0
    ensures |s| == |draws|
    ensures forall i | 0 <= i < |s| :: SplitConsumption(draws[i], consumption, production) == Ok(s[i])
  {
    if draws == [] then []
    else
      [SplitConsumption(draws[0], consumption, production).value]
      + ConsumerSplits(draws[1..], consumption, production)
  }

  function ProducerSplits(outputs: seq<real>, production: real, consumption: real): (s: seq<ProductionSplit>)
    requires Within(outputs, production) && consumption >= 0.0
    ensures |s| == |outputs|
    ensures forall i | 0 <= i < |s| :: SplitProduction(outputs[i], production, consumption) == Ok(s[i])
  {
    if outputs == [] then []
    else
      [SplitProduction(outputs[0], production, consumption).value]
      + ProducerSplits(outputs[1..], production, consumption)
  }

  function SumLocal(s: seq<ConsumptionSplit>): real {
    if s == [] then 0.0 else s[0].local + SumLocal(s[1..])
  }

  function SumGrid(s: seq<ConsumptionSplit>): real {
    if s == [] then 0.0 else s[0].grid + SumGrid(s[1..])
  }

  function SumSold(s: seq<ProductionSplit>): real {
    if s == [] then 0.0 else s[0].localSold + SumSold(s[1..])
  }

  function SumExported(s: seq<ProductionSplit>): real {
    if s == [] then 0.0 else s[0].exported + SumExported(s[1..])
  }

  lemma {:induction false} ConsumersAreLinear(draws: seq<real>, consumption: real, production: real)
    requires consumption >= 0.0 && Within(draws, consumption) && production >= 0.0
    ensures
      var f, s := LocalFactor(consumption, production), ConsumerSplits(draws, consumption, production);
      SumLocal(s) == Times(f, Sum(draws)) && SumGrid(s) == Sum(draws) - Times(f, Sum(draws))
  {
    if draws != [] {
      ConsumersAreLinear(draws[1..], consumption, production);
      ConsumptionIsLinear(draws[0], consumption, production);
      TimesSum(LocalFactor(consumption, production), draws[0], Sum(draws[1..]));
    }
  }

  lemma {:induction false} ProducersAreLinear(outputs: seq<real>, production: real, consumption: real)
    requires production >= 0.0 && Within(outputs, production) && consumption >= 0.0
    ensures
      var f, s := LocalFactor(production, consumption), ProducerSplits(outputs, production, consumption);
      SumSold(s) == Times(f, Sum(outputs)) && SumExported(s) == Sum(outputs) - Times(f, Sum(outputs))
  {
    if outputs != [] {
      ProducersAreLinear(outputs[1..], production, consumption);
      ProductionIsLinear(outputs[0], production, consumption);
      TimesSum(LocalFactor(production, consumption), outputs[0], Sum(outputs[1..]));
    }
  }

  /** Readings that make up the totals are never refused by a split. */
  lemma NoSplitRaises(draws: seq<real>, outputs: seq<real>)
    requires NonNegative(draws) && NonNegative(outputs)
    ensures forall i | 0 <= i < |draws| :: SplitConsumption(draws[i], Sum(draws), Sum(outputs)).Ok?
    ensures forall i | 0 <= i < |outputs| :: SplitProduction(outputs[i], Sum(outputs), Sum(draws)).Ok?
  {
    SumBounds(draws);
    SumBounds(outputs);
  }

  lemma ConsumersShareThePool(draws: seq<real>, c: real, p: real)
    requires c == Sum(draws) >= 0.0 && Within(draws, c) && p >= 0.0
    ensures SumLocal(ConsumerSplits(draws, c, p)) == Min(p, c)
    ensures SumGrid(ConsumerSplits(draws, c, p)) == Max(c - p, 0.0)
  {
    ConsumersAreLinear(draws, c, p);
  }

  lemma ProducersShareTheSales(outputs: seq<real>, p: real, c: real)
    requires p == Sum(outputs) >= 0.0 && Within(outputs, p) && c >= 0.0
    ensures SumSold(ProducerSplits(outputs, p, c)) == Min(p, c)
    ensures SumExported(ProducerSplits(outputs, p, c)) == Max(p - c, 0.0)
  {
    ProducersAreLinear(outputs, p, c);
  }

  /** What consumers take locally is what producers sell locally: the pool, whatever the number of members. */
  lemma CommunityBalance(draws: seq<real>, outputs: seq<real>, c: real, p: real)
    requires NonNegative(draws) && NonNegative(outputs) && c == Sum(draws) && p == Sum(outputs)
    ensures c >= 0.0 && p >= 0.0 && Within(draws, c) && Within(outputs, p)
    ensures
      var cs, ps := ConsumerSplits(draws, c, p), ProducerSplits(outputs, p, c);
      && SumLocal(cs) == SumSold(ps) == Min(p, c)
      && SumGrid(cs) == Max(c - p, 0.0)
      && SumExported(ps) == Max(p - c, 0.0)
  {
    SumBounds(draws);
    SumBounds(outputs);
    ConsumersShareThePool(draws, c, p);
    ProducersShareTheSales(outputs, p, c);
  }
}
