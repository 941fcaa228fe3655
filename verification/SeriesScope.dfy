/** What a participant-scoped series shows of the full one, and what coarser buckets make of finer ones. */
module SeriesScope {
  import opened Outcomes
  import opened CivilTime
  import opened Windows
  import opened ReadModel
  import opened Ledger
  import opened Series
  import opened SeriesLaws

  // ---- A scoped series is the full series restricted to the visible participants ----

  ghost function PersonIs(b: int, p: Option<Id>, d: Direction): RowKey -> bool {
    (k: RowKey) => k.bucket == b && k.participant == p && k.direction == d
  }

  /** What a restricted caller gets of a total of the full series. */
  ghost function IfSeen(v: Visibility, p: Option<Id>, c: Cell): Cell {
    if Sees(v, p) then c else ZERO
  }

  lemma {:induction false} ScopedShares(
    q: Query, v: Visibility, full: Visibility, bucket: int, d: Direction, a: Allocated, ats: seq<Attribution>,
    b: int, p: Option<Id>, e: Direction)
    requires full.full && q.meter.None?
    ensures Total(PostingsTo(q, v, bucket, d, a, ats), PersonIs(b, p, e)) ==
            IfSeen(v, p, Total(PostingsTo(q, full, bucket, d, a, ats), PersonIs(b, p, e)))
  {
    if ats != [] {
      ScopedShares(q, v, full, bucket, d, a, ats[..|ats| - 1], b, p, e);
      PostingsToSnoc(q, v, bucket, d, a, ats, PersonIs(b, p, e));
      PostingsToSnoc(q, full, bucket, d, a, ats, PersonIs(b, p, e));
    }
  }

  lemma IfSeenSum(v: Visibility, p: Option<Id>, c: Cell, e: Cell)
    ensures IfSeen(v, p, Add(c, e)) == Add(IfSeen(v, p, c), IfSeen(v, p, e))
  {
  }

  lemma ScopedReading(
    ctx: Context, q: Query, v: Visibility, full: Visibility, d: Direction, a: Allocated, b: int, p: Option<Id>, e: Direction)
    requires full.full && q.meter.None?
    ensures Total(PostingsOf(ctx, q, v, d, a), PersonIs(b, p, e)) ==
            IfSeen(v, p, Total(PostingsOf(ctx, q, full, d, a), PersonIs(b, p, e)))
  {
    ScopedShares(q, v, full, ctx.bucketOf(a.ts), d, a, Attribute(a, ctx.sharesOn(ctx.dateOf(a.ts))), b, p, e);
  }

  lemma {:induction false} ScopedStream(
    ctx: Context, q: Query, v: Visibility, full: Visibility, d: Direction, readings: seq<Allocated>,
    b: int, p: Option<Id>, e: Direction)
    requires full.full && q.meter.None?
    ensures Total(PostingsOfAll(ctx, q, v, d, readings), PersonIs(b, p, e)) ==
            IfSeen(v, p, Total(PostingsOfAll(ctx, q, full, d, readings), PersonIs(b, p, e)))
  {
    if readings != [] {
      var n := |readings| - 1;
      ScopedStream(ctx, q, v, full, d, readings[..n], b, p, e);
      ScopedReading(ctx, q, v, full, d, readings[n], b, p, e);
      var init, last := PostingsOfAll(ctx, q, full, d, readings[..n]), PostingsOf(ctx, q, full, d, readings[n]);
      TotalSplit(PostingsOfAll(ctx, q, v, d, readings[..n]), PostingsOf(ctx, q, v, d, readings[n]), PersonIs(b, p, e));
      TotalSplit(init, last, PersonIs(b, p, e));
      IfSeenSum(v, p, Total(init, PersonIs(b, p, e)), Total(last, PersonIs(b, p, e)));
    }
  }

  lemma ScopedDirection(
    ctx: Context, q: Query, v: Visibility, full: Visibility, d: Direction,
    stream: Result<seq<Allocated>, Split.AllocationError>, b: int, p: Option<Id>, e: Direction)
    requires full.full && q.meter.None?
    ensures Total(DirectionPostings(ctx, q, v, d, stream), PersonIs(b, p, e)) ==
            IfSeen(v, p, Total(DirectionPostings(ctx, q, full, d, stream), PersonIs(b, p, e)))
  {
    if stream.Ok? {
      ScopedStream(ctx, q, v, full, d, stream.value, b, p, e);
    }
  }

  /**
   * Without a meter filter, a caller's series summed over meters is, participant by participant, the full series
   * summed over meters for everyone the caller may see, and nothing for anyone else.
   */
  lemma ScopedSeriesIsRestriction(
    zev: Zev, q: Query, v: Visibility, full: Visibility, b: int, p: Option<Id>, e: Direction)
    requires full.full && q.meter.None?
    ensures MapTotal(AttributedSeries(zev, q, v), PersonIs(b, p, e)) ==
            IfSeen(v, p, MapTotal(AttributedSeries(zev, q, full), PersonIs(b, p, e)))
  {
    var ctx := ContextOf(zev, q);
    var i, o := Stream(zev, q, In), Stream(zev, q, Out);
    PostAllTotal(AllPostings(zev, q, v), PersonIs(b, p, e));
    PostAllTotal(AllPostings(zev, q, full), PersonIs(b, p, e));
    TotalSplit(DirectionPostings(ctx, q, v, In, i), DirectionPostings(ctx, q, v, Out, o), PersonIs(b, p, e));
    TotalSplit(DirectionPostings(ctx, q, full, In, i), DirectionPostings(ctx, q, full, Out, o), PersonIs(b, p, e));
    ScopedDirection(ctx, q, v, full, In, i, b, p, e);
    ScopedDirection(ctx, q, v, full, Out, o, b, p, e);
  }

  // ---- A meter is named only to the participant who held it ----

  /** A reading held personally by the participant of a row, at the row's meter, in the row's bucket. */
  ghost predicate HeldPersonally(ctx: Context, v: Visibility, k: RowKey, a: Allocated) {
    && k.bucket == ctx.bucketOf(a.ts)
    && k.meter == Some(a.meter)
    && a.resolution.Some? && a.resolution.value.mode == Personal
    && k.participant == Some(a.resolution.value.participant)
    && a.resolution.value.participant in v.participants
  }

  lemma {:induction false} NamedShare(
    q: Query, v: Visibility, bucket: int, d: Direction, a: Allocated, ats: seq<Attribution>, k: RowKey)
    requires !v.full && k.meter.Some?
    requires exists p :: p in PostingsTo(q, v, bucket, d, a, ats) && p.key == k
    ensures exists at :: at in ats && Passes(q, v, at) && !at.community && k == KeyFor(q, v, bucket, d, a.meter, at)
  {
    var n := |ats| - 1;
    var p :| p in PostingsTo(q, v, bucket, d, a, ats) && p.key == k;
    if p in PostingsTo(q, v, bucket, d, a, ats[..n]) {
      NamedShare(q, v, bucket, d, a, ats[..n], k);
    } else {
      assert k == KeyFor(q, v, bucket, d, a.meter, ats[n]) && Passes(q, v, ats[n]);
      assert ats[n] in ats;
    }
  }

  lemma NamedReading(ctx: Context, q: Query, v: Visibility, d: Direction, a: Allocated, p: Posting<RowKey>)
    requires !v.full && p.key.meter.Some? && p in PostingsOf(ctx, q, v, d, a)
    ensures HeldPersonally(ctx, v, p.key, a)
  {
    var ats := Attribute(a, ctx.sharesOn(ctx.dateOf(a.ts)));
    NamedShare(q, v, ctx.bucketOf(a.ts), d, a, ats, p.key);
    var at :| at in ats && Passes(q, v, at) && !at.community && p.key == KeyFor(q, v, ctx.bucketOf(a.ts), d, a.meter, at);
    assert a.resolution.Some?;
  }

  lemma {:induction false} NamedInStream(
    ctx: Context, q: Query, v: Visibility, d: Direction, readings: seq<Allocated>, p: Posting<RowKey>)
    requires !v.full && p.key.meter.Some? && p in PostingsOfAll(ctx, q, v, d, readings)
    ensures exists a :: a in readings && HeldPersonally(ctx, v, p.key, a)
  {
    var n := |readings| - 1;
    if p in PostingsOfAll(ctx, q, v, d, readings[..n]) {
      NamedInStream(ctx, q, v, d, readings[..n], p);
      var a :| a in readings[..n] && HeldPersonally(ctx, v, p.key, a);
      assert a in readings;
    } else {
      NamedReading(ctx, q, v, d, readings[n], p);
      assert readings[n] in readings;
    }
  }

  /**
   * A row of a participant-scoped series names a meter only when that participant, visible to the caller, held the
   * meter personally at some reading of the row's bucket: a shared community meter is never named.
   */
  lemma MeterNamedOnlyToItsHolder(zev: Zev, q: Query, v: Visibility, k: RowKey) returns (d: Direction, a: Allocated)
    requires !v.full && k in AttributedSeries(zev, q, v) && k.meter.Some?
    ensures Stream(zev, q, d).Ok? && a in Stream(zev, q, d).value
    ensures HeldPersonally(ContextOf(zev, q), v, k, a)
  {
    var ctx := ContextOf(zev, q);
    var ps := AllPostings(zev, q, v);
    PostAllKeys(ps, k);
    var i :| 0 <= i < |ps| && ps[i].key == k;
    d := if ps[i] in DirectionPostings(ctx, q, v, In, Stream(zev, q, In)) then In else Out;
    assert ps[i] in DirectionPostings(ctx, q, v, d, Stream(zev, q, d));
    NamedInStream(ctx, q, v, d, Stream(zev, q, d).value, ps[i]);
    a :| a in Stream(zev, q, d).value && HeldPersonally(ctx, v, k, a);
  }

  // ---- Regrouping ----

  /** The coarse bucket of a fine bucket's key. */
  function CoarseKey(zone: Zone, coarse: Granularity, bucket: int): int {
    if bucket / DAY >= 1 then TruncateWall(zone, bucket, coarse) else 0
  }

  lemma CoarseBucket(zev: Zev, q: Query, coarse: Granularity, ts: int)
    requires Refines(q.granularity, coarse)
    ensures Bucket(zev, q.(granularity := coarse), ts) == CoarseKey(zev.zone, coarse, Bucket(zev, q, ts))
  {
    if CivilDate(zev.zone, ts) >= 1 {
      KeysFactor(zev.zone, ts, q.granularity, coarse);
    }
  }

  ghost function Regrouped(coarsen: int -> int, k: RowKey): RowKey -> bool {
    (x: RowKey) => x.(bucket := coarsen(x.bucket)) == k
  }

  lemma RegroupedKey(
    q: Query, q': Query, v: Visibility, coarsen: int -> int, bucket: int, d: Direction, meter: Id, at: Attribution, k: RowKey)
    requires q' == q.(granularity := q'.granularity)
    ensures Passes(q', v, at) == Passes(q, v, at)
    ensures Only(k)(KeyFor(q', v, coarsen(bucket), d, meter, at)) ==
            Regrouped(coarsen, k)(KeyFor(q, v, bucket, d, meter, at))
  {
  }

  lemma {:induction false} RegroupedShares(
    q: Query, q': Query, v: Visibility, coarsen: int -> int, bucket: int, d: Direction, a: Allocated,
    ats: seq<Attribution>, k: RowKey)
    requires q' == q.(granularity := q'.granularity)
    ensures Total(PostingsTo(q', v, coarsen(bucket), d, a, ats), Only(k)) ==
            Total(PostingsTo(q, v, bucket, d, a, ats), Regrouped(coarsen, k))
  {
    if ats != [] {
      RegroupedShares(q, q', v, coarsen, bucket, d, a, ats[..|ats| - 1], k);
      PostingsToSnoc(q', v, coarsen(bucket), d, a, ats, Only(k));
      PostingsToSnoc(q, v, bucket, d, a, ats, Regrouped(coarsen, k));
      RegroupedKey(q, q', v, coarsen, bucket, d, a.meter, ats[|ats| - 1], k);
    }
  }

  ghost predicate Coarsens(ctx: Context, ctx': Context, coarsen: int -> int) {
    && (forall ts :: ctx'.bucketOf(ts) == coarsen(ctx.bucketOf(ts)))
    && (forall ts :: ctx'.dateOf(ts) == ctx.dateOf(ts))
    && (forall day :: ctx'.sharesOn(day) == ctx.sharesOn(day))
  }

  lemma {:induction false} RegroupedStream(
    ctx: Context, ctx': Context, q: Query, q': Query, v: Visibility, coarsen: int -> int, d: Direction,
    readings: seq<Allocated>, k: RowKey)
    requires Coarsens(ctx, ctx', coarsen) && q' == q.(granularity := q'.granularity)
    ensures Total(PostingsOfAll(ctx', q', v, d, readings), Only(k)) ==
            Total(PostingsOfAll(ctx, q, v, d, readings), Regrouped(coarsen, k))
  {
    if readings != [] {
      var n := |readings| - 1;
      var a := readings[n];
      RegroupedStream(ctx, ctx', q, q', v, coarsen, d, readings[..n], k);
      assert ctx'.bucketOf(a.ts) == coarsen(ctx.bucketOf(a.ts));
      assert ctx'.sharesOn(ctx'.dateOf(a.ts)) == ctx.sharesOn(ctx.dateOf(a.ts));
      RegroupedShares(
        q, q', v, coarsen, ctx.bucketOf(a.ts), d, a, Attribute(a, ctx.sharesOn(ctx.dateOf(a.ts))), k);
      TotalSplit(PostingsOfAll(ctx', q', v, d, readings[..n]), PostingsOf(ctx', q', v, d, a), Only(k));
      TotalSplit(PostingsOfAll(ctx, q, v, d, readings[..n]), PostingsOf(ctx, q, v, d, a), Regrouped(coarsen, k));
    }
  }

  lemma RegroupedDirection(
    ctx: Context, ctx': Context, q: Query, q': Query, v: Visibility, coarsen: int -> int, d: Direction,
    stream: Result<seq<Allocated>, Split.AllocationError>, k: RowKey)
    requires Coarsens(ctx, ctx', coarsen) && q' == q.(granularity := q'.granularity)
    ensures Total(DirectionPostings(ctx', q', v, d, stream), Only(k)) ==
            Total(DirectionPostings(ctx, q, v, d, stream), Regrouped(coarsen, k))
  {
    if stream.Ok? {
      RegroupedStream(ctx, ctx', q, q', v, coarsen, d, stream.value, k);
    }
  }

  lemma RegroupedContext(zev: Zev, q: Query, coarse: Granularity)
    requires Refines(q.granularity, coarse)
    ensures Coarsens(ContextOf(zev, q), ContextOf(zev, q.(granularity := coarse)), b => CoarseKey(zev.zone, coarse, b))
  {
    forall ts
      ensures Bucket(zev, q.(granularity := coarse), ts) == CoarseKey(zev.zone, coarse, Bucket(zev, q, ts))
    {
      CoarseBucket(zev, q, coarse, ts);
    }
  }

  /**
   * Re-aggregating a fine series gives the coarse series exactly: every coarse cell is the sum of the fine cells whose
   * bucket falls in it, across clock changes too.
   */
  lemma CoarseSeriesIsRegroupedFine(zev: Zev, q: Query, v: Visibility, coarse: Granularity, k: RowKey)
    requires Refines(q.granularity, coarse)
    ensures Get(AttributedSeries(zev, q.(granularity := coarse), v), k) ==
            MapTotal(AttributedSeries(zev, q, v), Regrouped(b => CoarseKey(zev.zone, coarse, b), k))
  {
    var q' := q.(granularity := coarse);
    var coarsen := (b: int) => CoarseKey(zev.zone, coarse, b);
    var ctx, ctx' := ContextOf(zev, q), ContextOf(zev, q');
    var i, o := Stream(zev, q, In), Stream(zev, q, Out);
    assert Stream(zev, q', In) == i && Stream(zev, q', Out) == o;
    RegroupedContext(zev, q, coarse);
    PostAllCell(AllPostings(zev, q', v), k);
    PostAllTotal(AllPostings(zev, q, v), Regrouped(coarsen, k));
    TotalSplit(DirectionPostings(ctx', q', v, In, i), DirectionPostings(ctx', q', v, Out, o), Only(k));
    TotalSplit(DirectionPostings(ctx, q, v, In, i), DirectionPostings(ctx, q, v, Out, o), Regrouped(coarsen, k));
    RegroupedDirection(ctx, ctx', q, q', v, coarsen, In, i, k);
    RegroupedDirection(ctx, ctx', q, q', v, coarsen, Out, o, k);
  }

  // ---- Regrouping the ZEV-wide series ----

  ghost function RegroupedZev(coarsen: int -> int, k: ZevKey): ZevKey -> bool {
    (x: ZevKey) => x.(bucket := coarsen(x.bucket)) == k
  }

  ghost function FineKeys(ctx: Context, instants: set<int>, d: Direction): set<ZevKey> {
    set t | t in instants :: ZevKey(ctx.bucketOf(t), d)
  }

  ghost function CellAt(ctx: Context, d: Direction): int -> Cell {
    t => ZevCell(ctx, d, t)
  }

  ghost function KeyAt(ctx: Context, d: Direction): int -> ZevKey {
    t => ZevKey(ctx.bucketOf(t), d)
  }

  ghost function BucketTotals(ctx: Context, instants: set<int>, d: Direction): ZevKey -> Cell {
    (k: ZevKey) => ZevTotal(ctx, instants, k.bucket, d)
  }

  lemma ZevTotalIs(ctx: Context, instants: set<int>, b: int, d: Direction, f: int -> Cell)
    requires forall t :: f(t) == ZevCell(ctx, d, t)
    ensures ZevTotal(ctx, instants, b, d) == SumSet(InBucket(ctx, instants, b), f)
  {
    SumSetSame(InBucket(ctx, instants, b), t => ZevCell(ctx, d, t), f);
  }

  lemma FibreIsBucket(ctx: Context, ctx': Context, coarsen: int -> int, instants: set<int>, b: int, d: Direction, k: ZevKey)
    requires Coarsens(ctx, ctx', coarsen) && RegroupedZev(coarsen, ZevKey(b, d))(k)
    ensures Fibre(InBucket(ctx', instants, b), KeyAt(ctx, d), k) == InBucket(ctx, instants, k.bucket)
  {
    forall t ensures t in Fibre(InBucket(ctx', instants, b), KeyAt(ctx, d), k) <==> t in InBucket(ctx, instants, k.bucket) {
      assert ctx'.bucketOf(t) == coarsen(ctx.bucketOf(t));
    }
  }

  lemma FibreTotal(ctx: Context, ctx': Context, coarsen: int -> int, instants: set<int>, b: int, d: Direction, k: ZevKey)
    requires Coarsens(ctx, ctx', coarsen) && RegroupedZev(coarsen, ZevKey(b, d))(k)
    ensures SumSet(Fibre(InBucket(ctx', instants, b), KeyAt(ctx, d), k), CellAt(ctx, d)) == BucketTotals(ctx, instants, d)(k)
  {
    FibreIsBucket(ctx, ctx', coarsen, instants, b, d, k);
    ZevTotalIs(ctx, instants, k.bucket, d, CellAt(ctx, d));
  }

  lemma CellsByKeys(
    ctx: Context, ctx': Context, coarsen: int -> int, instants: set<int>, b: int, d: Direction, keys: set<ZevKey>)
    requires Coarsens(ctx, ctx', coarsen) && forall k | k in keys :: RegroupedZev(coarsen, ZevKey(b, d))(k)
    requires FallsIn(InBucket(ctx', instants, b), KeyAt(ctx, d), keys)
    ensures SumSet(InBucket(ctx', instants, b), CellAt(ctx, d)) == SumSet(keys, BucketTotals(ctx, instants, d))
  {
    forall k | k in keys
      ensures SumSet(Fibre(InBucket(ctx', instants, b), KeyAt(ctx, d), k), CellAt(ctx, d)) == BucketTotals(ctx, instants, d)(k)
    {
      FibreTotal(ctx, ctx', coarsen, instants, b, d, k);
    }
    SumByKeys(InBucket(ctx', instants, b), CellAt(ctx, d), KeyAt(ctx, d), keys, BucketTotals(ctx, instants, d));
  }

  /** The cells of a direction over the timestamps, grouped by any keys that cover them. */
  lemma ZevTotalByKeys(
    ctx: Context, ctx': Context, coarsen: int -> int, instants: set<int>, b: int, d: Direction, keys: set<ZevKey>)
    requires Coarsens(ctx, ctx', coarsen) && forall t :: ZevCell(ctx', d, t) == ZevCell(ctx, d, t)
    requires forall k | k in keys :: RegroupedZev(coarsen, ZevKey(b, d))(k)
    requires FallsIn(InBucket(ctx', instants, b), KeyAt(ctx, d), keys)
    ensures ZevTotal(ctx', instants, b, d) == SumSet(keys, BucketTotals(ctx, instants, d))
  {
    CellsByKeys(ctx, ctx', coarsen, instants, b, d, keys);
    ZevTotalIs(ctx', instants, b, d, CellAt(ctx, d));
  }

  /** The fine keys of a coarse one: those in the series, and those of its timestamps. */
  ghost function KeysUnder(
    ctx: Context, coarsen: int -> int, instants: set<int>, acc: map<ZevKey, Cell>, b: int, d: Direction): set<ZevKey>
  {
    var sel := RegroupedZev(coarsen, ZevKey(b, d));
    Selected(acc, sel) + set k | k in FineKeys(ctx, instants, d) && sel(k)
  }

  lemma KeysUnderCover(
    ctx: Context, ctx': Context, coarsen: int -> int, instants: set<int>, acc: map<ZevKey, Cell>, b: int, d: Direction, t: int)
    requires Coarsens(ctx, ctx', coarsen) && t in InBucket(ctx', instants, b)
    ensures KeyAt(ctx, d)(t) in KeysUnder(ctx, coarsen, instants, acc, b, d)
  {
    assert ZevKey(ctx.bucketOf(t), d) in FineKeys(ctx, instants, d);
  }

  lemma SelectedCells(
    ctx: Context, coarsen: int -> int, directions: set<Direction>, instants: set<int>, acc: map<ZevKey, Cell>, b: int, d: Direction)
    requires IsZevSeries(ctx, directions, instants, acc)
    ensures MapTotal(acc, RegroupedZev(coarsen, ZevKey(b, d))) ==
            if d in directions then SumSet(KeysUnder(ctx, coarsen, instants, acc, b, d), BucketTotals(ctx, instants, d)) else ZERO
  {
    var chosen, keys := Selected(acc, RegroupedZev(coarsen, ZevKey(b, d))), KeysUnder(ctx, coarsen, instants, acc, b, d);
    forall k | k in keys ensures Cells(acc)(k) == if d in directions then BucketTotals(ctx, instants, d)(k) else ZERO {
      assert k == ZevKey(k.bucket, d);
    }
    if d in directions {
      SumSetZeros(chosen, keys, Cells(acc));
      SumSetSame(keys, Cells(acc), BucketTotals(ctx, instants, d));
    } else {
      SumSetZeros({}, chosen, Cells(acc));
    }
  }

  lemma RegroupedZevSeries(
    ctx: Context, ctx': Context, coarsen: int -> int, directions: set<Direction>, instants: set<int>,
    acc: map<ZevKey, Cell>, acc': map<ZevKey, Cell>, b: int, d: Direction)
    requires Coarsens(ctx, ctx', coarsen) && forall t :: ZevCell(ctx', d, t) == ZevCell(ctx, d, t)
    requires IsZevSeries(ctx, directions, instants, acc) && IsZevSeries(ctx', directions, instants, acc')
    ensures Get(acc', ZevKey(b, d)) == MapTotal(acc, RegroupedZev(coarsen, ZevKey(b, d)))
  {
    var keys := KeysUnder(ctx, coarsen, instants, acc, b, d);
    forall t | t in InBucket(ctx', instants, b) ensures KeyAt(ctx, d)(t) in keys {
      KeysUnderCover(ctx, ctx', coarsen, instants, acc, b, d, t);
    }
    ZevTotalByKeys(ctx, ctx', coarsen, instants, b, d, keys);
    SelectedCells(ctx, coarsen, directions, instants, acc, b, d);
  }

  /** The same for the ZEV-wide series: every coarse cell is the sum of the fine cells whose bucket falls in it. */
  lemma CoarseZevSeriesIsRegroupedFine(
    zev: Zev, q: Query, coarse: Granularity, acc: map<ZevKey, Cell>, acc': map<ZevKey, Cell>, b: int, d: Direction)
    requires Refines(q.granularity, coarse)
    requires IsZevSeries(ContextOf(zev, q), q.directions, AllInstants(zev, q), acc)
    requires
      var q' := q.(granularity := coarse);
      IsZevSeries(ContextOf(zev, q'), q'.directions, AllInstants(zev, q'), acc')
    ensures Get(acc', ZevKey(b, d)) == MapTotal(acc, RegroupedZev(x => CoarseKey(zev.zone, coarse, x), ZevKey(b, d)))
  {
    var q' := q.(granularity := coarse);
    var coarsen := (x: int) => CoarseKey(zev.zone, coarse, x);
    RegroupedContext(zev, q, coarse);
    assert Totals(zev, q', In) == Totals(zev, q, In) && Totals(zev, q', Out) == Totals(zev, q, Out);
    RegroupedZevSeries(
      ContextOf(zev, q), ContextOf(zev, q'), coarsen, q.directions, AllInstants(zev, q), acc, acc', b, d);
  }
}
