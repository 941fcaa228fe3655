/** Who gets which energy: every cell of the attributed series, from the columns of readings, assignments and participants. */
module SeriesShares {
  import opened Outcomes
  import opened Split
  import opened CivilTime
  import opened Windows
  import opened ReadModel
  import opened Ledger
  import opened Series
  import opened SeriesLaws

  // ---- Columns ----

  /** A dated row is valid on a day: inclusive at both ends, open without an end. */
  predicate OnDay(from: int, until: Option<int>, day: int) {
    from <= day && (until.Some? ==> day <= until.value)
  }

  /** The weights of the participants valid on a day, added up. */
  function ActiveWeight(ps: seq<Participant>, day: int): real {
    if ps == [] then 0.0
    else
      var n := |ps| - 1;
      ActiveWeight(ps[..n], day) + if OnDay(ps[n].from, ps[n].until, day) then ps[n].weight else 0.0
  }

  /** The weight of one participant on a day. */
  function WeightOf(ps: seq<Participant>, day: int, id: Id): real {
    if ps == [] then 0.0
    else
      var n := |ps| - 1;
      WeightOf(ps[..n], day, id) + if ps[n].id == id && OnDay(ps[n].from, ps[n].until, day) then ps[n].weight else 0.0
  }

  ghost predicate AnyoneActive(ps: seq<Participant>, day: int) {
    exists p :: p in ps && OnDay(p.from, p.until, day)
  }

  /** A meter is assigned by a window on a day. */
  ghost predicate HeldBy(zev: Zev, meter: Id, day: int, w: Window) {
    Row(meter, w) in zev.assignments && OnDay(w.from, w.until, day)
  }

  ghost function Holder(zev: Zev, meter: Id, day: int): Option<Window> {
    if exists w :: HeldBy(zev, meter, day, w) then
      var w :| HeldBy(zev, meter, day, w);
      Some(w)
    else None
  }

  function Alone(hit: bool): real {
    if hit then 1.0 else 0.0
  }

  /**
   * The part of a meter's energy on a day that falls to a participant, or to nobody. A personal meter's is its holder's. A
   * community meter's is shared by weight among those active that day, nobody's if there are none. A meter in an assignment
   * gap is nobody's.
   */
  ghost function Portion(holder: Option<Window>, ps: seq<Participant>, day: int, p: Option<Id>): real {
    if holder.None? then Alone(p.None?)
    else if holder.value.mode == Personal then Alone(p == Some(holder.value.participant))
    else if !AnyoneActive(ps, day) then Alone(p.None?)
    else if p.None? || ActiveWeight(ps, day) == 0.0 then 0.0
    else WeightOf(ps, day, p.value) / ActiveWeight(ps, day)
  }

  predicate Shared(holder: Option<Window>) {
    holder.Some? && holder.value.mode == Community
  }

  /** The readings a direction counts: of a meter that measures it, taken on a day of the range. */
  predicate CountsFor(zev: Zev, q: Query, d: Direction, r: Reading) {
    && r.direction == d && q.start <= CivilDate(zev.zone, r.ts) <= q.end && r.meter in zev.meters
    && match zev.meters[r.meter]
       case BidirectionalMeter => true
       case ConsumptionMeter => d == In
       case ProductionMeter => d == Out
  }

  /** A row shows energy of a meter: the caller may see its participant, it passes the filters, and it names the meter or not. */
  predicate Shown(q: Query, v: Visibility, meter: Id, shared: bool, k: RowKey) {
    && (q.meter.Some? ==> meter == q.meter.value)
    && (q.participant.Some? ==> k.participant == q.participant)
    && (!v.full ==> k.participant.Some? && k.participant.value in v.participants && !(shared && q.meter.Some?))
    && k.meter == if q.byMeter && (v.full || !shared) then Some(meter) else None
  }

  // ---- Weights ----

  lemma {:induction false} EligibleWeights(ps: seq<Participant>, day: int)
    ensures WeightSum(Eligible(ps, day)) == ActiveWeight(ps, day)
    ensures Eligible(ps, day) != [] <==> AnyoneActive(ps, day)
  {
    if ps != [] {
      var n := |ps| - 1;
      EligibleWeights(ps[..n], day);
      var init := Eligible(ps[..n], day);
      assert ps == ps[..n] + [ps[n]];
      assert (init + [ps[n]])[..|init|] == init;
      assert init + [] == init;
      if AnyoneActive(ps, day) && !OnDay(ps[n].from, ps[n].until, day) {
        var p :| p in ps && OnDay(p.from, p.until, day);
        assert p in ps[..n];
      }
    }
  }

  function IdWeight(es: seq<Participant>, id: Id): real {
    if es == [] then 0.0 else IdWeight(es[..|es| - 1], id) + if es[|es| - 1].id == id then es[|es| - 1].weight else 0.0
  }

  lemma {:induction false} EligibleWeightOf(ps: seq<Participant>, day: int, id: Id)
    ensures IdWeight(Eligible(ps, day), id) == WeightOf(ps, day, id)
  {
    if ps != [] {
      var n := |ps| - 1;
      EligibleWeightOf(ps[..n], day, id);
      var init := Eligible(ps[..n], day);
      if OnDay(ps[n].from, ps[n].until, day) {
        assert Eligible(ps, day) == init + [ps[n]];
        IdWeightSnoc(init, ps[n], id);
      } else {
        assert Eligible(ps, day) == init;
      }
    }
  }

  lemma IdWeightSnoc(es: seq<Participant>, p: Participant, id: Id)
    ensures IdWeight(es + [p], id) == IdWeight(es, id) + if p.id == id then p.weight else 0.0
  {
    assert (es + [p])[..|es|] == es;
  }

  /** The part of a list of attributions that goes to one participant, or to nobody. */
  function SumFor(ats: seq<Attribution>, p: Option<Id>): real {
    if ats == [] then 0.0
    else SumFor(ats[..|ats| - 1], p) + if ats[|ats| - 1].participant == p then ats[|ats| - 1].share else 0.0
  }

  lemma OneFor(at: Attribution, p: Option<Id>)
    ensures SumFor([at], p) == if at.participant == p then at.share else 0.0
  {
    assert [at][..0] == [];
  }

  lemma DivideSum(x: real, y: real, t: real)
    requires t != 0.0
    ensures (x + y) / t == x / t + y / t
    ensures 0.0 / t == 0.0
  {
  }

  lemma {:induction false} SharesFor(es: seq<Participant>, total: real, p: Option<Id>)
    requires total != 0.0
    ensures SumFor(FromShares(Normalised(es, total)), p) == if p.Some? then IdWeight(es, p.value) / total else 0.0
  {
    DivideSum(0.0, 0.0, total);
    if es != [] {
      var n := |es| - 1;
      SharesFor(es[..n], total, p);
      assert Normalised(es, total)[..n] == Normalised(es[..n], total);
      assert FromShares(Normalised(es, total))[..n] == FromShares(Normalised(es, total)[..n]);
      if p.Some? { DivideSum(IdWeight(es[..n], p.value), es[n].weight, total); }
    }
  }

  /** What `Attribute` gives a participant is the participant's portion. */
  lemma AttributedPortion(a: Allocated, ps: seq<Participant>, day: int, p: Option<Id>)
    requires Eligible(ps, day) != [] ==> WeightSum(Eligible(ps, day)) != 0.0
    ensures SumFor(Attribute(a, DayShares(ps, day)), p) == Portion(a.resolution, ps, day, p)
    ensures forall at | at in Attribute(a, DayShares(ps, day)) :: at.community == Shared(a.resolution)
  {
    EligibleWeights(ps, day);
    OneFor(Attribution(None, 1.0, false), p);
    OneFor(Attribution(None, 1.0, true), p);
    if a.resolution.Some? { OneFor(Attribution(Some(a.resolution.value.participant), 1.0, false), p); }
    if Eligible(ps, day) != [] {
      SharesFor(Eligible(ps, day), WeightSum(Eligible(ps, day)), p);
      if p.Some? { EligibleWeightOf(ps, day, p.value); }
    }
  }

  // ---- One split reading ----

  ghost predicate Taken(q: Query, v: Visibility, bucket: int, d: Direction, meter: Id, sel: RowKey -> bool, at: Attribution) {
    Passes(q, v, at) && sel(KeyFor(q, v, bucket, d, meter, at))
  }

  /** Postings that are selected exactly when they are one participant's add up to that participant's part. */
  lemma {:induction false} PostingsFor(
    q: Query, v: Visibility, bucket: int, d: Direction, a: Allocated, ats: seq<Attribution>, sel: RowKey -> bool,
    p: Option<Id>, hit: bool)
    requires forall at | at in ats :: Taken(q, v, bucket, d, a.meter, sel, at) <==> at.participant == p && hit
    ensures Total(PostingsTo(q, v, bucket, d, a, ats), sel) == if hit then Scale(CellOf(a), SumFor(ats, p)) else ZERO
  {
    if ats == [] {
      ScaleSum(CellOf(a), 0.0, 0.0);
    } else {
      var n := |ats| - 1;
      assert Taken(q, v, bucket, d, a.meter, sel, ats[n]) <==> ats[n].participant == p && hit by { assert ats[n] in ats; }
      PostingsFor(q, v, bucket, d, a, ats[..n], sel, p, hit);
      PostingsToSnoc(q, v, bucket, d, a, ats, sel);
      ScaleStep(CellOf(a), SumFor(ats[..n], p), ats[n].share, ats[n].participant == p);
      AddSwap(ZERO, ZERO, ZERO);
    }
  }

  lemma ScaleStep(c: Cell, s: real, share: real, take: bool)
    ensures Add(Scale(c, s), if take then Scale(c, share) else ZERO) == Scale(c, s + if take then share else 0.0)
  {
    ScaleSum(c, s, share);
    AddSwap(Scale(c, s), ZERO, ZERO);
    assert s + 0.0 == s;
  }

  /** What a split reading adds to a row. */
  ghost function PartAt(ctx: Context, q: Query, v: Visibility, ps: seq<Participant>, d: Direction, k: RowKey, a: Allocated): Cell {
    if d == k.direction && ctx.bucketOf(a.ts) == k.bucket && Shown(q, v, a.meter, Shared(a.resolution), k)
    then Scale(CellOf(a), Portion(a.resolution, ps, ctx.dateOf(a.ts), k.participant))
    else ZERO
  }

  lemma TakenAt(q: Query, v: Visibility, bucket: int, d: Direction, meter: Id, shared: bool, k: RowKey, at: Attribution)
    requires at.community == shared && !(q.meter.Some? && meter != q.meter.value)
    ensures Taken(q, v, bucket, d, meter, Only(k), at) <==>
            at.participant == k.participant && d == k.direction && bucket == k.bucket && Shown(q, v, meter, shared, k)
  {
  }

  lemma ReadingPart(
    ctx: Context, q: Query, v: Visibility, ps: seq<Participant>, d: Direction, a: Allocated, k: RowKey)
    requires
      var day := ctx.dateOf(a.ts);
      ctx.sharesOn(day) == DayShares(ps, day) && (Eligible(ps, day) != [] ==> WeightSum(Eligible(ps, day)) != 0.0)
    ensures Total(PostingsOf(ctx, q, v, d, a), Only(k)) == PartAt(ctx, q, v, ps, d, k, a)
  {
    var day := ctx.dateOf(a.ts);
    var ats := Attribute(a, DayShares(ps, day));
    AttributedPortion(a, ps, day, k.participant);
    if !(q.meter.Some? && a.meter != q.meter.value) {
      var hit := d == k.direction && ctx.bucketOf(a.ts) == k.bucket && Shown(q, v, a.meter, Shared(a.resolution), k);
      forall at | at in ats
        ensures Taken(q, v, ctx.bucketOf(a.ts), d, a.meter, Only(k), at) <==> at.participant == k.participant && hit
      {
        TakenAt(q, v, ctx.bucketOf(a.ts), d, a.meter, Shared(a.resolution), k, at);
      }
      PostingsFor(q, v, ctx.bucketOf(a.ts), d, a, ats, Only(k), k.participant, hit);
    }
  }

  // ---- Sums over readings ----

  /** What an amount of a meter's energy at a timestamp adds to a row. */
  type Adds = (Id, int, real) -> Cell

  ghost predicate AdditiveAt(h: Adds, m: Id, ts: int, x: real, y: real) {
    h(m, ts, x + y) == Add(h(m, ts, x), h(m, ts, y))
  }

  ghost predicate Additive(h: Adds) {
    forall m, ts, x, y :: AdditiveAt(h, m, ts, x, y)
  }

  ghost function SumGroups(gs: seq<Group>, h: Adds): Cell {
    if gs == [] then ZERO
    else
      var g := gs[|gs| - 1];
      Add(SumGroups(gs[..|gs| - 1], h), h(g.meter, g.ts, g.kwh))
  }

  /** The sum over the readings that are kept. */
  ghost function SumReadings(rs: seq<Reading>, keep: Reading -> bool, h: Adds): Cell {
    if rs == [] then ZERO
    else
      var r := rs[|rs| - 1];
      Add(SumReadings(rs[..|rs| - 1], keep, h), if keep(r) then h(r.meter, r.ts, r.kwh) else ZERO)
  }

  lemma SumGroupsSnoc(gs: seq<Group>, g: Group, h: Adds)
    ensures SumGroups(gs + [g], h) == Add(SumGroups(gs, h), h(g.meter, g.ts, g.kwh))
  {
    assert (gs + [g])[..|gs|] == gs;
  }

  lemma {:induction false} AddReadingSum(gs: seq<Group>, r: Reading, h: Adds)
    requires Additive(h)
    ensures SumGroups(AddReading(gs, r), h) == Add(SumGroups(gs, h), h(r.meter, r.ts, r.kwh))
  {
    if gs == [] {
      SumGroupsSnoc([], Group(r.meter, r.ts, r.kwh), h);
      assert [] + [Group(r.meter, r.ts, r.kwh)] == [Group(r.meter, r.ts, r.kwh)];
    } else {
      var n := |gs| - 1;
      var g, init := gs[n], SumGroups(gs[..n], h);
      if g.meter == r.meter && g.ts == r.ts {
        SumGroupsSnoc(gs[..n], g.(kwh := g.kwh + r.kwh), h);
        assert AdditiveAt(h, g.meter, g.ts, g.kwh, r.kwh);
        AddSwap(init, h(g.meter, g.ts, g.kwh), h(r.meter, r.ts, r.kwh));
      } else {
        AddReadingSum(gs[..n], r, h);
        SumGroupsSnoc(AddReading(gs[..n], r), g, h);
        AddLast(init, h(r.meter, r.ts, r.kwh), h(g.meter, g.ts, g.kwh));
      }
    }
  }

  lemma AddLast(a: Cell, b: Cell, c: Cell)
    ensures Add(Add(a, b), c) == Add(Add(a, c), b)
  {
  }

  lemma {:induction false} GroupsKeepSums(zev: Zev, d: Direction, lo: int, hi: int, rs: seq<Reading>, h: Adds)
    requires Additive(h)
    ensures SumGroups(Groups(Select(zev, d, lo, hi, rs)), h) == SumReadings(rs, r => Counted(zev, d, lo, hi, r), h)
  {
    if rs != [] {
      var n := |rs| - 1;
      var init := Select(zev, d, lo, hi, rs[..n]);
      GroupsKeepSums(zev, d, lo, hi, rs[..n], h);
      SameKept(rs[..n], r => Counted(zev, d, lo, hi, r), r => Counted(zev, d, lo, hi, r), h);
      if Counted(zev, d, lo, hi, rs[n]) {
        assert (init + [rs[n]])[..|init|] == init;
        AddReadingSum(Groups(init), rs[n], h);
      } else {
        assert init + [] == init;
        AddSwap(SumGroups(Groups(init), h), ZERO, ZERO);
      }
    }
  }

  lemma {:induction false} SameKept(rs: seq<Reading>, keep: Reading -> bool, keep': Reading -> bool, h: Adds)
    requires forall r :: keep(r) == keep'(r)
    ensures SumReadings(rs, keep, h) == SumReadings(rs, keep', h)
  {
    if rs != [] { SameKept(rs[..|rs| - 1], keep, keep', h); }
  }

  /** The readings of a query are those taken on its days. */
  lemma CountedIff(zev: Zev, q: Query, d: Direction, r: Reading)
    ensures Counted(zev, d, PeriodStart(zev.zone, q.start), PeriodEndExclusive(zev.zone, q.end), r) <==> CountsFor(zev, q, d, r)
  {
    var day := CivilDate(zev.zone, r.ts);
    CivilDateIff(zev.zone, r.ts, day);
    if day < q.start { PeriodStartsOrdered(zev.zone, day + 1, q.start); } else { PeriodStartsOrdered(zev.zone, q.start, day); }
    if day <= q.end { PeriodStartsOrdered(zev.zone, day + 1, q.end + 1); } else { PeriodStartsOrdered(zev.zone, q.end + 1, day); }
  }

  // ---- Holders ----

  /** On a day of the range, the assignment found is the one valid that day. */
  lemma FoundIsHolder(zev: Zev, q: Query, meter: Id, day: int)
    requires Accepts(FetchedAssignments(zev, q)) && q.start <= day <= q.end
    ensures Lookup(FetchedAssignments(zev, q), meter, day) == Holder(zev, meter, day)
  {
    var rows := FetchedAssignments(zev, q);
    var found, holder := Lookup(rows, meter, day), Holder(zev, meter, day);
    forall w ensures HeldBy(zev, meter, day, w) <==> found == Some(w) {
      LookupIsTheCoveringRow(rows, meter, day, w);
    }
    assert found.Some? ==> HeldBy(zev, meter, day, found.value);
    assert holder.Some? ==> HeldBy(zev, meter, day, holder.value);
  }

  // ---- The whole series ----

  /** A portion of an amount that a row shows, split by a factor. */
  function Portioned(shown: bool, factor: real, portion: real, kwh: real): Cell {
    if shown then Scale(Part(factor, kwh), portion) else ZERO
  }

  ghost predicate ShownAt(zev: Zev, q: Query, v: Visibility, k: RowKey, m: Id, ts: int) {
    Bucket(zev, q, ts) == k.bucket && Shown(q, v, m, Shared(Holder(zev, m, CivilDate(zev.zone, ts))), k)
  }

  ghost function PortionAt(zev: Zev, m: Id, ts: int, p: Option<Id>): real {
    var day := CivilDate(zev.zone, ts);
    Portion(Holder(zev, m, day), zev.participants, day, p)
  }

  /** What an amount of a meter's energy at a timestamp adds to a row of the series. */
  ghost function PartFor(zev: Zev, q: Query, v: Visibility, k: RowKey): Adds {
    PartBy(
      (m: Id, ts: int) => ShownAt(zev, q, v, k, m, ts), ts => FactorAt(ContextOf(zev, q), k.direction, ts),
      (m: Id, ts: int) => PortionAt(zev, m, ts, k.participant))
  }

  ghost function PartBy(shown: (Id, int) -> bool, factor: int -> real, portion: (Id, int) -> real): Adds {
    (m: Id, ts: int, kwh: real) => Portioned(shown(m, ts), factor(ts), portion(m, ts), kwh)
  }

  lemma ScaleAdd(a: Cell, b: Cell, s: real)
    ensures Scale(Add(a, b), s) == Add(Scale(a, s), Scale(b, s))
  {
    TimesSum(s, a.total, b.total);
    TimesSum(s, a.local, b.local);
    TimesSum(s, a.other, b.other);
  }

  lemma PortionedAdds(shown: bool, factor: real, portion: real, x: real, y: real)
    ensures Portioned(shown, factor, portion, x + y) ==
            Add(Portioned(shown, factor, portion, x), Portioned(shown, factor, portion, y))
  {
    PartSum(factor, x, y);
    ScaleAdd(Part(factor, x), Part(factor, y), portion);
  }

  lemma PartByIsAdditive(shown: (Id, int) -> bool, factor: int -> real, portion: (Id, int) -> real)
    ensures Additive(PartBy(shown, factor, portion))
  {
    forall m: Id, ts: int, x: real, y: real ensures AdditiveAt(PartBy(shown, factor, portion), m, ts, x, y) {
      PartByAdds(shown, factor, portion, m, ts, x, y);
    }
  }

  lemma PartByAdds(shown: (Id, int) -> bool, factor: int -> real, portion: (Id, int) -> real, m: Id, ts: int, x: real, y: real)
    ensures AdditiveAt(PartBy(shown, factor, portion), m, ts, x, y)
  {
    var s, f, p := shown(m, ts), factor(ts), portion(m, ts);
    PortionedAdds(s, f, p, x, y);
    SameSum(
      PartBy(shown, factor, portion)(m, ts, x + y), PartBy(shown, factor, portion)(m, ts, x), PartBy(shown, factor, portion)(m, ts, y),
      Portioned(s, f, p, x + y), Portioned(s, f, p, x), Portioned(s, f, p, y));
  }

  lemma SameSum(a: Cell, b: Cell, c: Cell, a': Cell, b': Cell, c': Cell)
    requires a == a' && b == b' && c == c' && a' == Add(b', c')
    ensures a == Add(b, c)
  {
  }

  lemma PartForIs(zev: Zev, q: Query, v: Visibility, k: RowKey, m: Id, ts: int, kwh: real)
    ensures PartFor(zev, q, v, k)(m, ts, kwh) ==
            Portioned(
              ShownAt(zev, q, v, k, m, ts), FactorAt(ContextOf(zev, q), k.direction, ts), PortionAt(zev, m, ts, k.participant), kwh)
  {
  }

  /** What a split reading adds to a row, from the group it was split from. */
  lemma PartAtIs(zev: Zev, q: Query, v: Visibility, d: Direction, k: RowKey, g: Group, a: Allocated)
    requires a.meter == g.meter && a.ts == g.ts && a.resolution == Holder(zev, g.meter, CivilDate(zev.zone, g.ts))
    requires CellOf(a) == Part(FactorAt(ContextOf(zev, q), d, g.ts), g.kwh)
    ensures PartAt(ContextOf(zev, q), q, v, zev.participants, d, k, a) ==
            if d == k.direction then
              Portioned(
                ShownAt(zev, q, v, k, g.meter, g.ts), FactorAt(ContextOf(zev, q), k.direction, g.ts),
                PortionAt(zev, g.meter, g.ts, k.participant), g.kwh)
            else ZERO
  {
  }

  lemma PartForIsAdditive(zev: Zev, q: Query, v: Visibility, k: RowKey)
    ensures Additive(PartFor(zev, q, v, k))
  {
    PartByIsAdditive(
      (m: Id, ts: int) => ShownAt(zev, q, v, k, m, ts), ts => FactorAt(ContextOf(zev, q), k.direction, ts),
      (m: Id, ts: int) => PortionAt(zev, m, ts, k.participant));
  }

  /** The groups of a query are taken on its days. */
  lemma GroupOnDay(zev: Zev, q: Query, d: Direction, i: nat)
    requires NonNegativeReadings(zev) && i < |Groups(CountedReadings(zev, q, d))|
    ensures q.start <= CivilDate(zev.zone, Groups(CountedReadings(zev, q, d))[i].ts) <= q.end
  {
    var rs := CountedReadings(zev, q, d);
    var g := Groups(rs)[i];
    GroupsOfReadings(rs, |rs|);
    assert rs[..|rs|] == rs;
    assert g in Groups(rs);
    var r :| r in rs && r.ts == g.ts;
    CountedIff(zev, q, d, r);
  }

  /** A split reading is its group's, split by the timestamp's factor and resolved to the day's holder. */
  lemma SplitReadingIs(zev: Zev, q: Query, d: Direction, readings: seq<Allocated>, i: nat)
    requires NonNegativeReadings(zev) && Accepts(FetchedAssignments(zev, q)) && Stream(zev, q, d) == Ok(readings) && i < |readings|
    ensures |readings| == |Groups(CountedReadings(zev, q, d))|
    ensures
      var g, a := Groups(CountedReadings(zev, q, d))[i], readings[i];
      && a.meter == g.meter && a.ts == g.ts && a.resolution == Holder(zev, g.meter, CivilDate(zev.zone, g.ts))
      && CellOf(a) == Part(FactorAt(ContextOf(zev, q), d, g.ts), g.kwh)
  {
    StreamParts(zev, q, d, readings);
    GroupOnDay(zev, q, d, i);
    SplitReadingOf(zev, q, d, readings, i);
    FoundIsHolder(zev, q, readings[i].meter, CivilDate(zev.zone, readings[i].ts));
  }

  lemma SplitReadingOf(zev: Zev, q: Query, d: Direction, readings: seq<Allocated>, i: nat)
    requires Stream(zev, q, d) == Ok(readings) && i < |readings|
    ensures |readings| == |Groups(CountedReadings(zev, q, d))|
    ensures
      var g, a := Groups(CountedReadings(zev, q, d))[i], readings[i];
      && a.meter == g.meter && a.ts == g.ts
      && a.resolution == Lookup(FetchedAssignments(zev, q), g.meter, CivilDate(zev.zone, g.ts))
  {
    var g := Groups(CountedReadings(zev, q, d))[i];
    assert Allocate(zev.zone, FetchedAssignments(zev, q), d, Totals(zev, q, In), Totals(zev, q, Out), g) == Ok(readings[i]);
  }

  lemma UsableOnDay(zev: Zev, q: Query, ts: int)
    requires WeightsUsable(zev.participants, q.start, q.end) && q.start <= CivilDate(zev.zone, ts) <= q.end
    ensures
      var ctx, ps := ContextOf(zev, q), zev.participants;
      var day := ctx.dateOf(ts);
      ctx.sharesOn(day) == DayShares(ps, day) && (Eligible(ps, day) != [] ==> WeightSum(Eligible(ps, day)) != 0.0)
  {
  }

  /** A split reading adds to a row what the group it was split from does. */
  lemma SplitReadingAdds(zev: Zev, q: Query, v: Visibility, d: Direction, readings: seq<Allocated>, i: nat, k: RowKey)
    requires NonNegativeReadings(zev) && Computable(zev, q) && Stream(zev, q, d) == Ok(readings) && i < |readings|
    ensures |readings| == |Groups(CountedReadings(zev, q, d))|
    ensures
      var g := Groups(CountedReadings(zev, q, d))[i];
      Total(PostingsOf(ContextOf(zev, q), q, v, d, readings[i]), Only(k)) ==
      if d == k.direction then PartFor(zev, q, v, k)(g.meter, g.ts, g.kwh) else ZERO
  {
    SplitReadingIs(zev, q, d, readings, i);
    GroupOnDay(zev, q, d, i);
    UsableOnDay(zev, q, readings[i].ts);
    ReadingPart(ContextOf(zev, q), q, v, zev.participants, d, readings[i], k);
    var g := Groups(CountedReadings(zev, q, d))[i];
    PartAtIs(zev, q, v, d, k, g, readings[i]);
    PartForIs(zev, q, v, k, g.meter, g.ts, g.kwh);
  }

  /** Allocated readings that each add to the selected rows what their group does add up to what the groups do. */
  lemma {:induction false} StreamAdds(
    ctx: Context, q: Query, v: Visibility, d: Direction, gs: seq<Group>, readings: seq<Allocated>, h: Adds, sel: RowKey -> bool)
    requires |gs| == |readings|
    requires forall i | 0 <= i < |gs| :: Total(PostingsOf(ctx, q, v, d, readings[i]), sel) == h(gs[i].meter, gs[i].ts, gs[i].kwh)
    ensures Total(PostingsOfAll(ctx, q, v, d, readings), sel) == SumGroups(gs, h)
  {
    if gs != [] {
      var n := |gs| - 1;
      StreamAdds(ctx, q, v, d, gs[..n], readings[..n], h, sel);
      TotalSplit(PostingsOfAll(ctx, q, v, d, readings[..n]), PostingsOf(ctx, q, v, d, readings[n]), sel);
    }
  }

  ghost predicate AddsNothing(ctx: Context, q: Query, v: Visibility, d: Direction, a: Allocated, sel: RowKey -> bool) {
    Total(PostingsOf(ctx, q, v, d, a), sel) == ZERO
  }

  lemma {:induction false} StreamAddsNothing(
    ctx: Context, q: Query, v: Visibility, d: Direction, readings: seq<Allocated>, sel: RowKey -> bool)
    requires forall a | a in readings :: AddsNothing(ctx, q, v, d, a, sel)
    ensures Total(PostingsOfAll(ctx, q, v, d, readings), sel) == ZERO
  {
    if readings != [] {
      var n := |readings| - 1;
      StreamAddsNothing(ctx, q, v, d, readings[..n], sel);
      assert AddsNothing(ctx, q, v, d, readings[n], sel);
      TotalSplit(PostingsOfAll(ctx, q, v, d, readings[..n]), PostingsOf(ctx, q, v, d, readings[n]), sel);
    }
  }

  /** The sum over the readings that count for a row. */
  ghost function CellSum(zev: Zev, q: Query, v: Visibility, k: RowKey): Cell {
    SumReadings(zev.readings, r => CountsFor(zev, q, k.direction, r), PartFor(zev, q, v, k))
  }

  /** What a cell of the series should hold. */
  ghost function SeriesCell(zev: Zev, q: Query, v: Visibility, k: RowKey): Cell {
    if k.direction in q.directions then CellSum(zev, q, v, k) else ZERO
  }

  lemma StreamCell(zev: Zev, q: Query, v: Visibility, d: Direction, readings: seq<Allocated>, k: RowKey)
    requires NonNegativeReadings(zev) && Computable(zev, q) && Stream(zev, q, d) == Ok(readings)
    ensures Total(PostingsOfAll(ContextOf(zev, q), q, v, d, readings), Only(k)) ==
            if d == k.direction then CellSum(zev, q, v, k) else ZERO
  {
    var ctx, gs, h := ContextOf(zev, q), Groups(CountedReadings(zev, q, d)), PartFor(zev, q, v, k);
    forall i | 0 <= i < |readings|
      ensures |readings| == |gs|
      ensures Total(PostingsOf(ctx, q, v, d, readings[i]), Only(k)) ==
              if d == k.direction then h(gs[i].meter, gs[i].ts, gs[i].kwh) else ZERO
    {
      SplitReadingAdds(zev, q, v, d, readings, i, k);
    }
    if d == k.direction {
      StreamAdds(ctx, q, v, d, gs, readings, h, Only(k));
      GroupSums(zev, q, v, k);
    } else {
      assert forall a | a in readings :: AddsNothing(ctx, q, v, d, a, Only(k));
      StreamAddsNothing(ctx, q, v, d, readings, Only(k));
    }
  }

  lemma DirectionCell(zev: Zev, q: Query, v: Visibility, d: Direction, k: RowKey)
    requires NonNegativeReadings(zev) && Computable(zev, q)
    ensures Total(DirectionPostings(ContextOf(zev, q), q, v, d, Stream(zev, q, d)), Only(k)) ==
            if d == k.direction then SeriesCell(zev, q, v, k) else ZERO
  {
    if d in q.directions { StreamCell(zev, q, v, d, Stream(zev, q, d).value, k); }
  }

  lemma GroupSums(zev: Zev, q: Query, v: Visibility, k: RowKey)
    ensures SumGroups(Groups(CountedReadings(zev, q, k.direction)), PartFor(zev, q, v, k)) == CellSum(zev, q, v, k)
  {
    PartForIsAdditive(zev, q, v, k);
    CountedSums(zev, q, k.direction, PartFor(zev, q, v, k));
  }

  lemma CountedSums(zev: Zev, q: Query, d: Direction, h: Adds)
    requires Additive(h)
    ensures SumGroups(Groups(CountedReadings(zev, q, d)), h) == SumReadings(zev.readings, r => CountsFor(zev, q, d, r), h)
  {
    var lo, hi := PeriodStart(zev.zone, q.start), PeriodEndExclusive(zev.zone, q.end);
    GroupsKeepSums(zev, d, lo, hi, zev.readings, h);
    forall r ensures Counted(zev, d, lo, hi, r) == CountsFor(zev, q, d, r) { CountedIff(zev, q, d, r); }
    SameKept(zev.readings, r => Counted(zev, d, lo, hi, r), r => CountsFor(zev, q, d, r), h);
  }

  /**
   * Every cell of the attributed series, for every query and caller, is the sum over the readings that count for its
   * direction and bucket: each split by its timestamp's factor, and of it the portion of the row's participant.
   */
  lemma CellIsSumOfPortions(zev: Zev, q: Query, v: Visibility, k: RowKey)
    requires NonNegativeReadings(zev) && Computable(zev, q)
    ensures Get(AttributedSeries(zev, q, v), k) == SeriesCell(zev, q, v, k)
  {
    DirectionCell(zev, q, v, In, k);
    DirectionCell(zev, q, v, Out, k);
    CellOfTwo(
      DirectionPostings(ContextOf(zev, q), q, v, In, Stream(zev, q, In)),
      DirectionPostings(ContextOf(zev, q), q, v, Out, Stream(zev, q, Out)), k, SeriesCell(zev, q, v, k));
  }

  lemma CellOfTwo(first: seq<Posting<RowKey>>, second: seq<Posting<RowKey>>, k: RowKey, cell: Cell)
    requires Total(first, Only(k)) == if k.direction == In then cell else ZERO
    requires Total(second, Only(k)) == if k.direction == Out then cell else ZERO
    ensures Get(PostAll(first + second), k) == cell
  {
    PostAllCell(first + second, k);
    AddTotals(first, second, Only(k), Total(first, Only(k)), Total(second, Only(k)));
    AddSwap(cell, ZERO, ZERO);
  }

  lemma AddTotals(i: seq<Posting<RowKey>>, o: seq<Posting<RowKey>>, sel: RowKey -> bool, x: Cell, y: Cell)
    requires Total(i, sel) == x && Total(o, sel) == y
    ensures Total(i + o, sel) == Add(x, y)
  {
    TotalSplit(i, o, sel);
  }

  // ---- A participant's energy, over all meters ----

  ghost function OfParticipant(b: int, p: Option<Id>, d: Direction): RowKey -> bool {
    (k: RowKey) => k.bucket == b && k.participant == p && k.direction == d
  }

  lemma TakenOf(
    q: Query, v: Visibility, bucket: int, d: Direction, meter: Id, b: int, p: Option<Id>, e: Direction, at: Attribution)
    requires Unfiltered(q, v)
    ensures Taken(q, v, bucket, d, meter, OfParticipant(b, p, e), at) <==> at.participant == p && d == e && bucket == b
  {
  }

  lemma ReadingPartOf(
    ctx: Context, q: Query, v: Visibility, ps: seq<Participant>, d: Direction, a: Allocated, b: int, p: Option<Id>, e: Direction)
    requires Unfiltered(q, v)
    requires
      var day := ctx.dateOf(a.ts);
      ctx.sharesOn(day) == DayShares(ps, day) && (Eligible(ps, day) != [] ==> WeightSum(Eligible(ps, day)) != 0.0)
    ensures Total(PostingsOf(ctx, q, v, d, a), OfParticipant(b, p, e)) ==
            if d == e && ctx.bucketOf(a.ts) == b then Scale(CellOf(a), Portion(a.resolution, ps, ctx.dateOf(a.ts), p)) else ZERO
  {
    var day := ctx.dateOf(a.ts);
    AttributedPortion(a, ps, day, p);
    forall at | at in Attribute(a, DayShares(ps, day))
      ensures Taken(q, v, ctx.bucketOf(a.ts), d, a.meter, OfParticipant(b, p, e), at) <==>
              at.participant == p && d == e && ctx.bucketOf(a.ts) == b
    {
      TakenOf(q, v, ctx.bucketOf(a.ts), d, a.meter, b, p, e, at);
    }
    PostingsFor(
      q, v, ctx.bucketOf(a.ts), d, a, Attribute(a, DayShares(ps, day)), OfParticipant(b, p, e), p,
      d == e && ctx.bucketOf(a.ts) == b);
  }

  /** What an amount of a meter's energy at a timestamp adds to a participant's energy in a bucket. */
  ghost function PartOf(zev: Zev, q: Query, b: int, p: Option<Id>, d: Direction): Adds {
    PartBy(
      (m: Id, ts: int) => Bucket(zev, q, ts) == b, ts => FactorAt(ContextOf(zev, q), d, ts),
      (m: Id, ts: int) => PortionAt(zev, m, ts, p))
  }

  lemma PartOfIs(zev: Zev, q: Query, b: int, p: Option<Id>, d: Direction, m: Id, ts: int, kwh: real)
    ensures PartOf(zev, q, b, p, d)(m, ts, kwh) ==
            Portioned(Bucket(zev, q, ts) == b, FactorAt(ContextOf(zev, q), d, ts), PortionAt(zev, m, ts, p), kwh)
  {
  }

  lemma SplitReadingAddsTo(
    zev: Zev, q: Query, v: Visibility, d: Direction, readings: seq<Allocated>, i: nat, b: int, p: Option<Id>, e: Direction)
    requires NonNegativeReadings(zev) && Computable(zev, q) && Unfiltered(q, v)
    requires Stream(zev, q, d) == Ok(readings) && i < |readings|
    ensures |readings| == |Groups(CountedReadings(zev, q, d))|
    ensures
      var g := Groups(CountedReadings(zev, q, d))[i];
      Total(PostingsOf(ContextOf(zev, q), q, v, d, readings[i]), OfParticipant(b, p, e)) ==
      if d == e then PartOf(zev, q, b, p, e)(g.meter, g.ts, g.kwh) else ZERO
  {
    SplitReadingIs(zev, q, d, readings, i);
    GroupOnDay(zev, q, d, i);
    UsableOnDay(zev, q, readings[i].ts);
    ReadingPartOf(ContextOf(zev, q), q, v, zev.participants, d, readings[i], b, p, e);
    var g := Groups(CountedReadings(zev, q, d))[i];
    PartOfIs(zev, q, b, p, e, g.meter, g.ts, g.kwh);
  }

  ghost function ParticipantSum(zev: Zev, q: Query, b: int, p: Option<Id>, d: Direction): Cell {
    SumReadings(zev.readings, r => CountsFor(zev, q, d, r), PartOf(zev, q, b, p, d))
  }

  lemma StreamOf(zev: Zev, q: Query, v: Visibility, d: Direction, readings: seq<Allocated>, b: int, p: Option<Id>, e: Direction)
    requires NonNegativeReadings(zev) && Computable(zev, q) && Unfiltered(q, v) && Stream(zev, q, d) == Ok(readings)
    ensures Total(PostingsOfAll(ContextOf(zev, q), q, v, d, readings), OfParticipant(b, p, e)) ==
            if d == e then ParticipantSum(zev, q, b, p, e) else ZERO
  {
    var ctx, gs, h, sel := ContextOf(zev, q), Groups(CountedReadings(zev, q, d)), PartOf(zev, q, b, p, e), OfParticipant(b, p, e);
    forall i | 0 <= i < |readings|
      ensures |readings| == |gs|
      ensures Total(PostingsOf(ctx, q, v, d, readings[i]), sel) == if d == e then h(gs[i].meter, gs[i].ts, gs[i].kwh) else ZERO
    {
      SplitReadingAddsTo(zev, q, v, d, readings, i, b, p, e);
    }
    if d == e {
      StreamAdds(ctx, q, v, d, gs, readings, h, sel);
      PartByIsAdditive(
        (m: Id, ts: int) => Bucket(zev, q, ts) == b, ts => FactorAt(ContextOf(zev, q), e, ts),
        (m: Id, ts: int) => PortionAt(zev, m, ts, p));
      CountedSums(zev, q, e, h);
    } else {
      assert forall a | a in readings :: AddsNothing(ctx, q, v, d, a, sel);
      StreamAddsNothing(ctx, q, v, d, readings, sel);
    }
  }

  lemma DirectionOf(zev: Zev, q: Query, v: Visibility, d: Direction, b: int, p: Option<Id>, e: Direction)
    requires NonNegativeReadings(zev) && Computable(zev, q) && Unfiltered(q, v) && e in q.directions
    ensures Total(DirectionPostings(ContextOf(zev, q), q, v, d, Stream(zev, q, d)), OfParticipant(b, p, e)) ==
            if d == e then ParticipantSum(zev, q, b, p, e) else ZERO
  {
    if d in q.directions { StreamOf(zev, q, v, d, Stream(zev, q, d).value, b, p, e); }
  }

  /**
   * With full visibility and no filter, a participant's cells of a bucket and direction, or nobody's, summed over meters are
   * the sum over the readings counted there of the participant's portion of each.
   */
  lemma ParticipantTotal(zev: Zev, q: Query, v: Visibility, b: int, p: Option<Id>, d: Direction)
    requires NonNegativeReadings(zev) && Computable(zev, q) && Unfiltered(q, v) && d in q.directions
    ensures MapTotal(AttributedSeries(zev, q, v), OfParticipant(b, p, d)) == ParticipantSum(zev, q, b, p, d)
  {
    DirectionOf(zev, q, v, In, b, p, d);
    DirectionOf(zev, q, v, Out, b, p, d);
    TwoDirections(
      DirectionPostings(ContextOf(zev, q), q, v, In, Stream(zev, q, In)),
      DirectionPostings(ContextOf(zev, q), q, v, Out, Stream(zev, q, Out)),
      OfParticipant(b, p, d), d, ParticipantSum(zev, q, b, p, d));
  }

  // ---- Enough participants ----

  /** How many participants are valid on a day. */
  function ActiveCount(ps: seq<Participant>, day: int): nat {
    if ps == [] then 0
    else
      var n := |ps| - 1;
      ActiveCount(ps[..n], day) + if OnDay(ps[n].from, ps[n].until, day) then 1 else 0
  }

  lemma {:induction false} EligibleCount(ps: seq<Participant>, day: int)
    ensures |Eligible(ps, day)| == ActiveCount(ps, day)
  {
    if ps != [] {
      EligibleCount(ps[..|ps| - 1], day);
    }
  }

  ghost predicate ActiveDay(zev: Zev, q: Query, day: int) {
    q.start <= day <= q.end && ActiveCount(zev.participants, day) > 0
  }

  /** The rule by which ZEV-wide totals are withheld, on the participants' columns. */
  lemma EnoughIff(zev: Zev, q: Query, minimum: nat)
    ensures EnoughParticipants(zev, q, minimum) <==>
            || minimum == 0
            || ((exists day :: ActiveDay(zev, q, day)) &&
                forall day | ActiveDay(zev, q, day) :: ActiveCount(zev.participants, day) >= minimum)
  {
    forall day
      ensures |Eligible(zev.participants, day)| == ActiveCount(zev.participants, day)
      ensures Peopled(zev, q, day) <==> ActiveDay(zev, q, day)
    {
      EligibleCount(zev.participants, day);
    }
    assert (exists day :: Peopled(zev, q, day)) <==> exists day :: ActiveDay(zev, q, day);
  }
}
