/** What the two series have in common: conservation, scoping and regrouping. */
module SeriesLaws {
  import opened Outcomes
  import opened Split
  import opened Windows
  import opened ReadModel
  import opened Ledger
  import opened Series

  // ---- Shares of a reading add up to the reading ----

  function AttSum(ats: seq<Attribution>): real {
    if ats == [] then 0.0 else AttSum(ats[..|ats| - 1]) + ats[|ats| - 1].share
  }

  lemma {:induction false} FromSharesSum(shares: seq<Share>)
    ensures AttSum(FromShares(shares)) == ShareSum(shares)
  {
    if shares != [] {
      var n := |shares| - 1;
      FromSharesSum(shares[..n]);
      assert FromShares(shares)[..n] == FromShares(shares[..n]);
    }
  }

  ghost predicate WholeShares(shares: seq<Share>) {
    shares == [] || ShareSum(shares) == 1.0
  }

  /** A reading is always attributed in full: to its holder, to the day's participants together, or to nobody. */
  lemma AttributedInFull(a: Allocated, dayShares: seq<Share>)
    requires WholeShares(dayShares)
    ensures AttSum(Attribute(a, dayShares)) == 1.0
  {
    FromSharesSum(dayShares);
    OneAttribution(Attribution(None, 1.0, false));
    OneAttribution(Attribution(None, 1.0, true));
    if a.resolution.Some? {
      OneAttribution(Attribution(Some(a.resolution.value.participant), 1.0, false));
    }
  }

  lemma OneAttribution(at: Attribution)
    ensures AttSum([at]) == at.share
  {
    assert [at][..0] == [];
  }

  lemma ScaleSum(c: Cell, s: real, t: real)
    ensures Scale(c, s + t) == Add(Scale(c, s), Scale(c, t))
    ensures Scale(c, 1.0) == c
    ensures Scale(c, 0.0) == ZERO
  {
    TimesSum(c.total, s, t);
    TimesSum(c.local, s, t);
    TimesSum(c.other, s, t);
  }

  lemma PostingsToSnoc(
    q: Query, v: Visibility, bucket: int, d: Direction, a: Allocated, ats: seq<Attribution>, sel: RowKey -> bool)
    requires ats != []
    ensures
      var at := ats[|ats| - 1];
      Total(PostingsTo(q, v, bucket, d, a, ats), sel) ==
      Add(
        Total(PostingsTo(q, v, bucket, d, a, ats[..|ats| - 1]), sel),
        if Passes(q, v, at) && sel(KeyFor(q, v, bucket, d, a.meter, at)) then Scale(CellOf(a), at.share) else ZERO)
  {
    var n := |ats| - 1;
    var init := PostingsTo(q, v, bucket, d, a, ats[..n]);
    if Passes(q, v, ats[n]) {
      TotalSnoc(init, Posting(KeyFor(q, v, bucket, d, a.meter, ats[n]), Scale(CellOf(a), ats[n].share)), sel);
    } else {
      assert init + [] == init;
    }
  }

  lemma {:induction false} PostingsToTotal(
    q: Query, v: Visibility, bucket: int, d: Direction, a: Allocated, ats: seq<Attribution>, sel: RowKey -> bool, hit: bool)
    requires forall at | at in ats :: Passes(q, v, at) && sel(KeyFor(q, v, bucket, d, a.meter, at)) == hit
    ensures Total(PostingsTo(q, v, bucket, d, a, ats), sel) == if hit then Scale(CellOf(a), AttSum(ats)) else ZERO
  {
    if ats == [] {
      ScaleSum(CellOf(a), 0.0, 0.0);
    } else {
      var n := |ats| - 1;
      assert ats[n] in ats;
      PostingsToTotal(q, v, bucket, d, a, ats[..n], sel, hit);
      PostingsToSnoc(q, v, bucket, d, a, ats, sel);
      ScaleSum(CellOf(a), AttSum(ats[..n]), ats[n].share);
    }
  }

  // ---- Conservation ----

  ghost function RowIs(b: int, d: Direction): RowKey -> bool {
    (k: RowKey) => k.bucket == b && k.direction == d
  }

  ghost function BucketIs(ctx: Context, b: int): int -> bool {
    (t: int) => ctx.bucketOf(t) == b
  }

  ghost predicate Unfiltered(q: Query, v: Visibility) {
    v.full && q.participant.None? && q.meter.None?
  }

  /** The readings of a stream, posted under their timestamp. */
  function InstantPostings(readings: seq<Allocated>): (r: seq<Posting<int>>)
    ensures |r| == |readings|
    ensures forall i | 0 <= i < |r| :: r[i] == Posting(readings[i].ts, CellOf(readings[i]))
  {
    if readings == [] then []
    else
      var n := |readings| - 1;
      InstantPostings(readings[..n]) + [Posting(readings[n].ts, CellOf(readings[n]))]
  }

  lemma ReadingTotal(ctx: Context, q: Query, v: Visibility, d: Direction, a: Allocated, b: int, e: Direction)
    requires Unfiltered(q, v) && WholeShares(ctx.sharesOn(ctx.dateOf(a.ts)))
    ensures Total(PostingsOf(ctx, q, v, d, a), RowIs(b, e)) ==
            if d == e && BucketIs(ctx, b)(a.ts) then CellOf(a) else ZERO
  {
    var ats := Attribute(a, ctx.sharesOn(ctx.dateOf(a.ts)));
    AttributedInFull(a, ctx.sharesOn(ctx.dateOf(a.ts)));
    PostingsToTotal(q, v, ctx.bucketOf(a.ts), d, a, ats, RowIs(b, e), d == e && ctx.bucketOf(a.ts) == b);
    ScaleSum(CellOf(a), 0.0, 0.0);
  }

  lemma {:induction false} StreamTotal(
    ctx: Context, q: Query, v: Visibility, d: Direction, readings: seq<Allocated>, b: int, e: Direction)
    requires Unfiltered(q, v) && forall day :: WholeShares(ctx.sharesOn(day))
    ensures Total(PostingsOfAll(ctx, q, v, d, readings), RowIs(b, e)) ==
            if d == e then Total(InstantPostings(readings), BucketIs(ctx, b)) else ZERO
  {
    if readings != [] {
      var n := |readings| - 1;
      StreamTotal(ctx, q, v, d, readings[..n], b, e);
      ReadingTotal(ctx, q, v, d, readings[n], b, e);
      TotalSplit(PostingsOfAll(ctx, q, v, d, readings[..n]), PostingsOf(ctx, q, v, d, readings[n]), RowIs(b, e));
      var ips := InstantPostings(readings);
      assert ips[..n] == InstantPostings(readings[..n]);
    }
  }

  /** A total and its local and other part under a factor. */
  function Part(f: real, kwh: real): Cell {
    Cell(kwh, Times(f, kwh), kwh - Times(f, kwh))
  }

  lemma PartSum(f: real, x: real, y: real)
    ensures Part(f, x + y) == Add(Part(f, x), Part(f, y))
    ensures Part(f, 0.0) == ZERO
  {
    TimesSum(f, x, y);
  }

  /** Every group is split by its timestamp's factor. */
  lemma AllocatedIsPart(
    resolution: Option<Window>, d: Direction, c: real, p: real, g: Group, a: Allocated)
    requires c >= 0.0 && p >= 0.0 && AllocateTo(resolution, d, c, p, g) == Ok(a)
    ensures a.ts == g.ts
    ensures CellOf(a) == Part(if d == In then LocalFactor(c, p) else LocalFactor(p, c), g.kwh)
  {
    if d == In {
      ConsumptionIsLinear(g.kwh, c, p);
    } else {
      ProductionIsLinear(g.kwh, p, c);
    }
  }

  ghost predicate PartsOf(factor: int -> real, gs: seq<Group>, readings: seq<Allocated>) {
    && |gs| == |readings|
    && forall i | 0 <= i < |gs| :: readings[i].ts == gs[i].ts && CellOf(readings[i]) == Part(factor(gs[i].ts), gs[i].kwh)
  }

  lemma InstantPostingsSnoc(readings: seq<Allocated>, sel: int -> bool)
    requires readings != []
    ensures
      var a := readings[|readings| - 1];
      Total(InstantPostings(readings), sel) ==
      Add(Total(InstantPostings(readings[..|readings| - 1]), sel), if sel(a.ts) then CellOf(a) else ZERO)
  {
    var n := |readings| - 1;
    TotalSnoc(InstantPostings(readings[..n]), Posting(readings[n].ts, CellOf(readings[n])), sel);
  }

  lemma {:induction false} InstantTotal(factor: int -> real, gs: seq<Group>, readings: seq<Allocated>, ts: int)
    requires PartsOf(factor, gs, readings)
    ensures Total(InstantPostings(readings), Only(ts)) == Part(factor(ts), GroupTotal(gs, ts))
  {
    if gs == [] {
      PartSum(factor(ts), 0.0, 0.0);
    } else {
      var n := |gs| - 1;
      InstantTotal(factor, gs[..n], readings[..n], ts);
      InstantPostingsSnoc(readings, Only(ts));
      PartSum(factor(ts), GroupTotal(gs[..n], ts), gs[n].kwh);
    }
  }

  ghost predicate NonNegativeReadings(zev: Zev) {
    forall r | r in zev.readings :: r.kwh >= 0.0
  }

  /** The share of a timestamp's energy that the pool covers, in one direction. */
  ghost function FactorAt(ctx: Context, d: Direction, ts: int): real {
    if ctx.kwhAt(d, ts) >= 0.0 && ctx.kwhAt(Opposite(d), ts) >= 0.0
    then LocalFactor(ctx.kwhAt(d, ts), ctx.kwhAt(Opposite(d), ts)) else 0.0
  }

  lemma KwhNonNegative(zev: Zev, q: Query, d: Direction, ts: int)
    requires NonNegativeReadings(zev)
    ensures KwhAt(Totals(zev, q, d), ts) >= 0.0
    ensures KwhAt(Totals(zev, q, d), ts) == TotalAt(CountedReadings(zev, q, d), ts)
  {
    var rs := CountedReadings(zev, q, d);
    TotalsNonNegative(rs, ts);
    KwhAtIsTotal(rs, ts);
  }

  lemma StreamParts(zev: Zev, q: Query, d: Direction, readings: seq<Allocated>)
    requires NonNegativeReadings(zev) && Stream(zev, q, d) == Ok(readings)
    ensures PartsOf(ts => FactorAt(ContextOf(zev, q), d, ts), Groups(CountedReadings(zev, q, d)), readings)
  {
    var gs := Groups(CountedReadings(zev, q, d));
    var rows := FetchedAssignments(zev, q);
    forall i | 0 <= i < |gs|
      ensures readings[i].ts == gs[i].ts
      ensures CellOf(readings[i]) == Part(FactorAt(ContextOf(zev, q), d, gs[i].ts), gs[i].kwh)
    {
      var g := gs[i];
      KwhNonNegative(zev, q, In, g.ts);
      KwhNonNegative(zev, q, Out, g.ts);
      assert Allocate(zev.zone, rows, d, Totals(zev, q, In), Totals(zev, q, Out), g) == Ok(readings[i]);
      AllocatedIsPart(
        AssignmentAt(zev.zone, rows, g.meter, g.ts), d,
        KwhAt(Totals(zev, q, In), g.ts), KwhAt(Totals(zev, q, Out), g.ts), g, readings[i]);
    }
  }

  /** The whole of a timestamp's energy, split by its factor, is the ZEV-wide cell. */
  lemma FactorCell(ctx: Context, d: Direction, ts: int)
    requires ctx.kwhAt(d, ts) >= 0.0 && ctx.kwhAt(Opposite(d), ts) >= 0.0
    ensures Part(FactorAt(ctx, d, ts), ctx.kwhAt(d, ts)) == ZevCell(ctx, d, ts)
  {
    var total, other := ctx.kwhAt(d, ts), ctx.kwhAt(Opposite(d), ts);
    assert Times(LocalFactor(total, other), total) == Min(total, other);
    PartSum(FactorAt(ctx, d, ts), 0.0, 0.0);
  }

  /** At every timestamp, the split readings of a stream add up to the ZEV-wide cell. */
  lemma InstantBalance(zev: Zev, q: Query, d: Direction, readings: seq<Allocated>, ts: int)
    requires NonNegativeReadings(zev) && Stream(zev, q, d) == Ok(readings)
    ensures Total(InstantPostings(readings), Only(ts)) == ZevCell(ContextOf(zev, q), d, ts)
  {
    var ctx := ContextOf(zev, q);
    var gs := Groups(CountedReadings(zev, q, d));
    StreamParts(zev, q, d, readings);
    InstantTotal(t => FactorAt(ctx, d, t), gs, readings, ts);
    GroupsKeepTotals(CountedReadings(zev, q, d), ts);
    KwhNonNegative(zev, q, d, ts);
    KwhNonNegative(zev, q, Opposite(d), ts);
    FactorCell(ctx, d, ts);
  }

  ghost predicate SameInstants(gs: seq<Group>, readings: seq<Allocated>) {
    |gs| == |readings| && forall i | 0 <= i < |gs| :: readings[i].ts == gs[i].ts
  }

  /** The readings of a stream carry timestamps of counted readings. */
  lemma GroupInstants(rs: seq<Reading>, readings: seq<Allocated>, ts: int)
    requires forall r | r in rs :: r.kwh >= 0.0
    requires SameInstants(Groups(rs), readings) && ts in PostAll(InstantPostings(readings))
    ensures ts in Instants(rs)
  {
    assert rs[..|rs|] == rs;
    GroupsOfReadings(rs, |rs|);
    PostAllKeys(InstantPostings(readings), ts);
    var i :| 0 <= i < |readings| && InstantPostings(readings)[i].key == ts;
    assert Groups(rs)[i] in Groups(rs);
  }

  lemma StreamInstants(zev: Zev, q: Query, d: Direction, readings: seq<Allocated>, ts: int)
    requires NonNegativeReadings(zev) && Stream(zev, q, d) == Ok(readings) && ts in PostAll(InstantPostings(readings))
    ensures ts in AllInstants(zev, q)
  {
    StreamParts(zev, q, d, readings);
    GroupInstants(CountedReadings(zev, q, d), readings, ts);
  }

  /** Readings that balance at every timestamp balance in every bucket. */
  lemma InstantsToBuckets(ctx: Context, d: Direction, readings: seq<Allocated>, instants: set<int>, b: int)
    requires forall t :: Total(InstantPostings(readings), Only(t)) == ZevCell(ctx, d, t)
    requires forall t | t in PostAll(InstantPostings(readings)) :: t in instants
    ensures Total(InstantPostings(readings), BucketIs(ctx, b)) == ZevTotal(ctx, instants, b, d)
  {
    var ips := InstantPostings(readings);
    var acc := PostAll(ips);
    var g := (t: int) => ZevCell(ctx, d, t);
    forall t: int ensures Cells(acc)(t) == g(t) {
      PostAllCell(ips, t);
    }
    PostAllTotal(ips, BucketIs(ctx, b));
    var s, t := Selected(acc, BucketIs(ctx, b)), InBucket(ctx, instants, b);
    SumSetSame(s, Cells(acc), g);
    forall k | k in t && k !in s ensures g(k) == ZERO {
      assert Cells(acc)(k) == ZERO;
    }
    SumSetZeros(s, t, g);
  }

  /** The readings of a bucket add up to the ZEV-wide cells of its timestamps. */
  lemma BucketBalance(zev: Zev, q: Query, d: Direction, readings: seq<Allocated>, b: int)
    requires NonNegativeReadings(zev) && Stream(zev, q, d) == Ok(readings)
    ensures Total(InstantPostings(readings), BucketIs(ContextOf(zev, q), b)) ==
            ZevTotal(ContextOf(zev, q), AllInstants(zev, q), b, d)
  {
    forall t ensures Total(InstantPostings(readings), Only(t)) == ZevCell(ContextOf(zev, q), d, t) {
      InstantBalance(zev, q, d, readings, t);
    }
    forall t | t in PostAll(InstantPostings(readings)) ensures t in AllInstants(zev, q) {
      StreamInstants(zev, q, d, readings, t);
    }
    InstantsToBuckets(ContextOf(zev, q), d, readings, AllInstants(zev, q), b);
  }

  lemma ContextShares(zev: Zev, q: Query)
    requires forall p | p in zev.participants :: p.weight > 0.0
    ensures forall day :: WholeShares(ContextOf(zev, q).sharesOn(day))
  {
    forall day ensures WholeShares(ContextOf(zev, q).sharesOn(day)) {
      SharesSumToOne(zev.participants, day);
    }
  }

  /**
   * Conservation: in every bucket and requested direction, the fully visible, unfiltered attributed cells summed over
   * meters and participants equal the ZEV-wide cell, in total, local and grid or feed-in energy.
   */
  lemma SeriesAgree(zev: Zev, q: Query, v: Visibility, acc: map<ZevKey, Cell>, b: int, d: Direction)
    requires NonNegativeReadings(zev) && forall p | p in zev.participants :: p.weight > 0.0
    requires Computable(zev, q) && Unfiltered(q, v) && d in q.directions
    requires IsZevSeries(ContextOf(zev, q), q.directions, AllInstants(zev, q), acc)
    ensures MapTotal(AttributedSeries(zev, q, v), RowIs(b, d)) == Get(acc, ZevKey(b, d))
  {
    DirectionTotal(zev, q, v, In, b, d);
    DirectionTotal(zev, q, v, Out, b, d);
    TwoDirections(
      DirectionPostings(ContextOf(zev, q), q, v, In, Stream(zev, q, In)),
      DirectionPostings(ContextOf(zev, q), q, v, Out, Stream(zev, q, Out)),
      RowIs(b, d), d, ZevTotal(ContextOf(zev, q), AllInstants(zev, q), b, d));
  }

  lemma TwoDirections(
    first: seq<Posting<RowKey>>, second: seq<Posting<RowKey>>, sel: RowKey -> bool, d: Direction, total: Cell)
    requires Total(first, sel) == if d == In then total else ZERO
    requires Total(second, sel) == if d == Out then total else ZERO
    ensures MapTotal(PostAll(first + second), sel) == total
  {
    PostAllTotal(first + second, sel);
    TotalSplit(first, second, sel);
    AddSwap(total, ZERO, ZERO);
  }

  lemma DirectionTotal(zev: Zev, q: Query, v: Visibility, d: Direction, b: int, e: Direction)
    requires NonNegativeReadings(zev) && forall p | p in zev.participants :: p.weight > 0.0
    requires Unfiltered(q, v) && (d in q.directions ==> Stream(zev, q, d).Ok?) && e in q.directions
    ensures Total(DirectionPostings(ContextOf(zev, q), q, v, d, Stream(zev, q, d)), RowIs(b, e)) ==
            if d == e then ZevTotal(ContextOf(zev, q), AllInstants(zev, q), b, e) else ZERO
  {
    if d in q.directions {
      var readings := Stream(zev, q, d).value;
      ContextShares(zev, q);
      StreamTotal(ContextOf(zev, q), q, v, d, readings, b, e);
      BucketBalance(zev, q, d, readings, b);
    }
  }

  /** Non-negative readings, positive weights and accepted assignments are never refused. */
  lemma SoundDataIsComputable(zev: Zev, q: Query)
    requires NonNegativeReadings(zev) && forall p | p in zev.participants :: p.weight > 0.0
    requires Accepts(FetchedAssignments(zev, q))
    ensures Computable(zev, q)
  {
    forall day | q.start <= day <= q.end && Eligible(zev.participants, day) != []
      ensures WeightSum(Eligible(zev.participants, day)) != 0.0
    {
      WeightsPositive(Eligible(zev.participants, day));
    }
    StreamIsOk(zev, q, In);
    StreamIsOk(zev, q, Out);
  }

  /** A group never exceeds the total it is part of, so its split is accepted. */
  lemma GroupIsAccepted(rs: seq<Reading>, g: Group, resolution: Option<Window>, d: Direction, c: real, p: real)
    requires (forall r | r in rs :: r.kwh >= 0.0) && g in Groups(rs) && c >= 0.0 && p >= 0.0
    requires TotalAt(rs, g.ts) == if d == In then c else p
    ensures AllocateTo(resolution, d, c, p, g).Ok?
  {
    GroupsOfReadings(rs, |rs|);
    assert rs[..|rs|] == rs;
    var i :| 0 <= i < |Groups(rs)| && Groups(rs)[i] == g;
    GroupWithinTotal(Groups(rs), i);
    GroupsKeepTotals(rs, g.ts);
  }

  lemma StreamIsOk(zev: Zev, q: Query, d: Direction)
    requires NonNegativeReadings(zev)
    ensures Stream(zev, q, d).Ok?
  {
    var gs := Groups(CountedReadings(zev, q, d));
    var rows := FetchedAssignments(zev, q);
    var cons, prod := Totals(zev, q, In), Totals(zev, q, Out);
    var f := (g: Group) => Allocate(zev.zone, rows, d, cons, prod, g);
    forall g | g in gs ensures f(g).Ok? {
      KwhNonNegative(zev, q, In, g.ts);
      KwhNonNegative(zev, q, Out, g.ts);
      GroupIsAccepted(
        CountedReadings(zev, q, d), g, AssignmentAt(zev.zone, rows, g.meter, g.ts), d, KwhAt(cons, g.ts), KwhAt(prod, g.ts));
    }
    AllAccepted(f, gs);
  }
}
