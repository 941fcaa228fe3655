/** The analytics series: ZEV-wide rows and rows attributed to meters and participants. */
module Series {
  import opened Outcomes
  import opened Split
  import opened CivilTime
  import opened Windows
  import opened ReadModel
  import opened Ledger

  /** `start` and `end` are inclusive day ordinals; `byMeter` is grouping by metering point rather than participant. */
  datatype Query = Query(
    start: int, end: int, granularity: Granularity, byMeter: bool, directions: set<Direction>,
    participant: Option<Id>, meter: Option<Id>)

  datatype Visibility = Visibility(full: bool, participants: set<Id>)

  datatype RowKey = RowKey(bucket: int, meter: Option<Id>, participant: Option<Id>, direction: Direction)

  datatype ZevKey = ZevKey(bucket: int, direction: Direction)

  datatype SeriesError = Inconsistent(error: AllocationError) | Overlaps(meter: Id) | ZeroWeights(day: int) | Suppressed

  /** The readings without a participant are seen only with full visibility. */
  predicate Sees(v: Visibility, participant: Option<Id>) {
    v.full || (participant.Some? && participant.value in v.participants)
  }

  function Opposite(d: Direction): Direction {
    if d == In then Out else In
  }

  // ---- What a query reads ----

  function CountedReadings(zev: Zev, q: Query, d: Direction): seq<Reading> {
    Select(zev, d, PeriodStart(zev.zone, q.start), PeriodEndExclusive(zev.zone, q.end), zev.readings)
  }

  function Totals(zev: Zev, q: Query, d: Direction): map<int, real> {
    TotalsByTimestamp(CountedReadings(zev, q, d))
  }

  function AllInstants(zev: Zev, q: Query): set<int> {
    Totals(zev, q, In).Keys + Totals(zev, q, Out).Keys
  }

  /** The key of the bucket an instant falls in; an instant before year 1 has no date and never reaches this. */
  function Bucket(zev: Zev, q: Query, ts: int): int {
    if CivilDate(zev.zone, ts) >= 1 then BucketKey(zev.zone, ts, q.granularity) else 0
  }

  /** The shares the series uses for a day: those of the period's participants, on days of the period. */
  function SharesOn(zev: Zev, q: Query, day: int): seq<Share> {
    if q.start <= day <= q.end then DayShares(zev.participants, day) else []
  }

  /** What the timestamps of a query mean: their bucket, their date, the shares of a date, the physical totals. */
  datatype Context = Context(
    bucketOf: int -> int, dateOf: int -> int, sharesOn: int -> seq<Share>, kwhAt: (Direction, int) -> real)

  function ContextOf(zev: Zev, q: Query): Context {
    Context(
      ts => Bucket(zev, q, ts), ts => CivilDate(zev.zone, ts), day => SharesOn(zev, q, day),
      (d: Direction, ts) => KwhAt(Totals(zev, q, d), ts))
  }

  // ---- ZEV-wide rows ----

  /** What a timestamp adds to the row of a direction. */
  function ZevCell(ctx: Context, d: Direction, ts: int): Cell {
    var total, other := ctx.kwhAt(d, ts), ctx.kwhAt(Opposite(d), ts);
    if total == 0.0 then ZERO else Cell(total, Min(total, other), total - Min(total, other))
  }

  ghost function InBucket(ctx: Context, instants: set<int>, bucket: int): set<int> {
    set t | t in instants && ctx.bucketOf(t) == bucket
  }

  /** The ZEV-wide figures of a bucket and direction over a set of timestamps. */
  ghost function ZevTotal(ctx: Context, instants: set<int>, bucket: int, d: Direction): Cell {
    SumSet(InBucket(ctx, instants, bucket), t => ZevCell(ctx, d, t))
  }

  /** A finished ZEV-wide series: each requested cell is the sum over the timestamps of its bucket. */
  ghost predicate IsZevSeries(ctx: Context, directions: set<Direction>, instants: set<int>, acc: map<ZevKey, Cell>) {
    forall b, d :: Get(acc, ZevKey(b, d)) == if d in directions then ZevTotal(ctx, instants, b, d) else ZERO
  }

  /** The fewest eligible participants on any day that had one; zero when no day had. */
  method MinParticipants(shares: map<int, seq<Share>>) returns (n: nat)
    ensures forall d | d in shares :: n <= |shares[d]|
    ensures shares.Keys != {} ==> exists d :: d in shares && n == |shares[d]|
    ensures shares.Keys == {} ==> n == 0
  {
    n := 0;
    var todo := shares.Keys;
    var seen := false;
    while todo != {}
      invariant todo <= shares.Keys && seen == (todo != shares.Keys)
      invariant forall d | d in shares && d !in todo :: n <= |shares[d]|
      invariant seen ==> exists d :: d in shares && n == |shares[d]|
      invariant !seen ==> n == 0
      decreases todo
    {
      AnyMember(todo);
      var d :| d in todo;
      if !seen || |shares[d]| < n {
        n := |shares[d]|;
      }
      seen := true;
      todo := todo - {d};
    }
  }

  /** A day of the range with somebody to share with. */
  ghost predicate Peopled(zev: Zev, q: Query, day: int) {
    q.start <= day <= q.end && Eligible(zev.participants, day) != []
  }

  /** Enough participants on every day that has any; a range without such a day counts as having none. */
  ghost predicate EnoughParticipants(zev: Zev, q: Query, minimum: nat) {
    || minimum == 0
    || ((exists day :: Peopled(zev, q, day)) && forall day | Peopled(zev, q, day) :: |Eligible(zev.participants, day)| >= minimum)
  }

  lemma FewestDecides(zev: Zev, q: Query, shares: map<int, seq<Share>>, fewest: nat, minimum: nat)
    requires forall day :: day in shares <==> Peopled(zev, q, day)
    requires forall day | day in shares :: |shares[day]| == |Eligible(zev.participants, day)|
    requires forall d | d in shares :: fewest <= |shares[d]|
    requires if shares.Keys != {} then exists d :: d in shares && fewest == |shares[d]| else fewest == 0
    ensures fewest >= minimum <==> EnoughParticipants(zev, q, minimum)
  {
    if shares.Keys != {} {
      var d :| d in shares && fewest == |shares[d]|;
      assert Peopled(zev, q, d);
    }
  }

  /**
   * ZEV-wide physical totals per bucket and direction. A caller without full visibility is refused exactly when the
   * weights of some day cannot be used or some day of the range has fewer eligible participants than `minimum`.
   */
  method ZevRows(zev: Zev, q: Query, v: Visibility, minimum: nat) returns (r: Result<map<ZevKey, Cell>, SeriesError>)
    ensures r.Ok? ==> IsZevSeries(ContextOf(zev, q), q.directions, AllInstants(zev, q), r.value)
    ensures r.Err? ==> r.error == Suppressed || r.error.ZeroWeights?
    ensures r.Err? && r.error.ZeroWeights? <==> !v.full && !WeightsUsable(zev.participants, q.start, q.end)
    ensures r == Err(Suppressed) <==>
            !v.full && WeightsUsable(zev.participants, q.start, q.end) && !EnoughParticipants(zev, q, minimum)
  {
    if !v.full {
      var shares := FetchShares(zev, q);
      if shares.Err? {
        return Err(ZeroWeights(shares.error.day));
      }
      var fewest := MinParticipants(shares.value);
      forall day | day in shares.value ensures |shares.value[day]| == |Eligible(zev.participants, day)| {
        assert SharesAt(shares.value, day) == SharesOn(zev, q, day);
      }
      FewestDecides(zev, q, shares.value, fewest, minimum);
      if fewest < minimum {
        return Err(Suppressed);
      }
    }
    var acc := ZevAccumulate(ContextOf(zev, q), q.directions, AllInstants(zev, q));
    return Ok(acc);
  }

  function PostIf(acc: map<ZevKey, Cell>, wanted: bool, key: ZevKey, cell: Cell): map<ZevKey, Cell> {
    if wanted then Post(acc, Posting(key, cell)) else acc
  }

  /** One pass of the loop over timestamps: a cell per requested direction with any energy. */
  function PostInstant(acc: map<ZevKey, Cell>, directions: set<Direction>, bucket: int, consumed: real, produced: real)
    : map<ZevKey, Cell>
  {
    var local := Min(consumed, produced);
    var acc' := PostIf(acc, In in directions && consumed != 0.0, ZevKey(bucket, In), Cell(consumed, local, consumed - local));
    PostIf(acc', Out in directions && produced != 0.0, ZevKey(bucket, Out), Cell(produced, local, produced - local))
  }

  lemma OneMorePosting(
    ctx: Context, directions: set<Direction>, acc: map<ZevKey, Cell>, ts: int, b: int, d: Direction)
    ensures Get(PostInstant(acc, directions, ctx.bucketOf(ts), ctx.kwhAt(In, ts), ctx.kwhAt(Out, ts)), ZevKey(b, d)) ==
            if b == ctx.bucketOf(ts) && d in directions then Add(Get(acc, ZevKey(b, d)), ZevCell(ctx, d, ts))
            else Get(acc, ZevKey(b, d))
  {
  }

  method ZevAccumulate(ctx: Context, directions: set<Direction>, instants: set<int>) returns (acc: map<ZevKey, Cell>)
    ensures IsZevSeries(ctx, directions, instants, acc)
  {
    acc := map[];
    var todo := instants;
    ghost var done: set<int> := {};
    assert forall b :: InBucket(ctx, {}, b) == {};
    while todo != {}
      invariant todo + done == instants && todo !! done
      invariant IsZevSeries(ctx, directions, done, acc)
      decreases todo
    {
      AnyMember(todo);
      var ts :| ts in todo;
      var consumed, produced := ctx.kwhAt(In, ts), ctx.kwhAt(Out, ts);
      var bucket := ctx.bucketOf(ts);
      ghost var before := acc;
      acc := PostInstant(acc, directions, bucket, consumed, produced);
      forall b, d
        ensures Get(acc, ZevKey(b, d)) == if d in directions then ZevTotal(ctx, done + {ts}, b, d) else ZERO
      {
        OneMorePosting(ctx, directions, before, ts, b, d);
        OneMoreInstant(ctx, done, ts, b, d);
      }
      todo, done := todo - {ts}, done + {ts};
    }
    assert done == instants;
  }

  lemma OneMoreInstant(ctx: Context, done: set<int>, ts: int, b: int, d: Direction)
    requires ts !in done
    ensures ZevTotal(ctx, done + {ts}, b, d) ==
            if ctx.bucketOf(ts) == b then Add(ZevTotal(ctx, done, b, d), ZevCell(ctx, d, ts)) else ZevTotal(ctx, done, b, d)
  {
    var before := InBucket(ctx, done, b);
    if ctx.bucketOf(ts) == b {
      assert InBucket(ctx, done + {ts}, b) == before + {ts};
      SumSetAdd(before, t => ZevCell(ctx, d, t), ts);
      AddSwap(ZevCell(ctx, d, ts), ZevTotal(ctx, done, b, d), ZERO);
    } else {
      assert InBucket(ctx, done + {ts}, b) == before;
    }
  }

  // ---- Attributed rows ----

  datatype Attribution = Attribution(participant: Option<Id>, share: real, community: bool)

  function FromShares(shares: seq<Share>): (r: seq<Attribution>)
    ensures |r| == |shares|
    ensures forall i | 0 <= i < |r| :: r[i] == Attribution(Some(shares[i].participant), shares[i].share, true)
  {
    if shares == [] then []
    else
      var n := |shares| - 1;
      FromShares(shares[..n]) + [Attribution(Some(shares[n].participant), shares[n].share, true)]
  }

  /** Whom a reading is attributed to: its holder, the day's eligible participants by weight, or nobody. */
  function Attribute(a: Allocated, dayShares: seq<Share>): seq<Attribution> {
    match a.resolution
    case None => [Attribution(None, 1.0, false)]
    case Some(w) =>
      if w.mode == Community then
        if dayShares == [] then [Attribution(None, 1.0, true)] else FromShares(dayShares)
      else [Attribution(Some(w.participant), 1.0, false)]
  }

  /** Whether an attribution passes the visibility and the filters of the query. */
  predicate Passes(q: Query, v: Visibility, at: Attribution) {
    && Sees(v, at.participant)
    && (q.participant.None? || at.participant == q.participant)
    && !(!v.full && at.community && q.meter.Some?)
  }

  /** A community share is never tied to its meter for a participant. */
  function KeyFor(q: Query, v: Visibility, bucket: int, d: Direction, meter: Id, at: Attribution): RowKey {
    RowKey(bucket, if q.byMeter && (v.full || !at.community) then Some(meter) else None, at.participant, d)
  }

  function Scale(c: Cell, share: real): Cell {
    Cell(Times(c.total, share), Times(c.local, share), Times(c.other, share))
  }

  function CellOf(a: Allocated): Cell {
    Cell(a.kwh, a.local, a.other)
  }

  function PostingsTo(q: Query, v: Visibility, bucket: int, d: Direction, a: Allocated, ats: seq<Attribution>)
    : seq<Posting<RowKey>>
  {
    if ats == [] then []
    else
      var n := |ats| - 1;
      PostingsTo(q, v, bucket, d, a, ats[..n])
      + if Passes(q, v, ats[n])
        then [Posting(KeyFor(q, v, bucket, d, a.meter, ats[n]), Scale(CellOf(a), ats[n].share))]
        else []
  }

  function PostingsOf(ctx: Context, q: Query, v: Visibility, d: Direction, a: Allocated): seq<Posting<RowKey>> {
    if q.meter.Some? && a.meter != q.meter.value then []
    else PostingsTo(q, v, ctx.bucketOf(a.ts), d, a, Attribute(a, ctx.sharesOn(ctx.dateOf(a.ts))))
  }

  function PostingsOfAll(ctx: Context, q: Query, v: Visibility, d: Direction, readings: seq<Allocated>)
    : seq<Posting<RowKey>>
  {
    if readings == [] then []
    else
      var n := |readings| - 1;
      PostingsOfAll(ctx, q, v, d, readings[..n]) + PostingsOf(ctx, q, v, d, readings[n])
  }

  function FetchedAssignments(zev: Zev, q: Query): seq<Row> {
    Overlapping(zev.assignments, q.start, q.end)
  }

  /** The allocated readings of a direction, or the refusal of the first split that fails. */
  function Stream(zev: Zev, q: Query, d: Direction): Result<seq<Allocated>, AllocationError> {
    AllocateAll(
      zev.zone, FetchedAssignments(zev, q), d, Totals(zev, q, In), Totals(zev, q, Out), Groups(CountedReadings(zev, q, d)))
  }

  ghost predicate WeightsUsable(ps: seq<Participant>, start: int, end: int) {
    forall day | start <= day <= end :: Eligible(ps, day) != [] ==> WeightSum(Eligible(ps, day)) != 0.0
  }

  /** The data of the query can be allocated: no overlapping windows, no zero weights, no refused split. */
  ghost predicate Computable(zev: Zev, q: Query) {
    && Accepts(FetchedAssignments(zev, q))
    && WeightsUsable(zev.participants, q.start, q.end)
    && (In in q.directions ==> Stream(zev, q, In).Ok?)
    && (Out in q.directions ==> Stream(zev, q, Out).Ok?)
  }

  function DirectionPostings(
    ctx: Context, q: Query, v: Visibility, d: Direction, stream: Result<seq<Allocated>, AllocationError>)
    : seq<Posting<RowKey>>
  {
    if d in q.directions && stream.Ok? then PostingsOfAll(ctx, q, v, d, stream.value) else []
  }

  /** Every posting of the consumption stream, then of the production stream. */
  function AllPostings(zev: Zev, q: Query, v: Visibility): seq<Posting<RowKey>> {
    DirectionPostings(ContextOf(zev, q), q, v, In, Stream(zev, q, In))
    + DirectionPostings(ContextOf(zev, q), q, v, Out, Stream(zev, q, Out))
  }

  /** The attributed series. */
  function AttributedSeries(zev: Zev, q: Query, v: Visibility): map<RowKey, Cell> {
    PostAll(AllPostings(zev, q, v))
  }

  lemma PostAllSnoc<K>(ps: seq<Posting<K>>, p: Posting<K>)
    ensures PostAll(ps + [p]) == Post(PostAll(ps), p)
  {
    assert (ps + [p])[..|ps|] == ps;
  }

  /** Post one reading's shares to the dictionary. */
  method AccumulateShares(
    q: Query, v: Visibility, d: Direction, a: Allocated, bucket: int, ats: seq<Attribution>,
    acc0: map<RowKey, Cell>, ghost ps: seq<Posting<RowKey>>)
    returns (acc: map<RowKey, Cell>)
    requires acc0 == PostAll(ps)
    ensures acc == PostAll(ps + PostingsTo(q, v, bucket, d, a, ats))
  {
    acc := acc0;
    assert ps + [] == ps;
    ghost var sofar: seq<Posting<RowKey>> := [];
    for i := 0 to |ats|
      invariant sofar == PostingsTo(q, v, bucket, d, a, ats[..i])
      invariant acc == PostAll(ps + sofar)
    {
      assert ats[..i + 1][..i] == ats[..i];
      if Passes(q, v, ats[i]) {
        var p := Posting(KeyFor(q, v, bucket, d, a.meter, ats[i]), Scale(CellOf(a), ats[i].share));
        PostAllSnoc(ps + sofar, p);
        assert ps + (sofar + [p]) == ps + sofar + [p];
        sofar := sofar + [p];
        acc := Post(acc, p);
      }
    }
    assert ats[..|ats|] == ats;
  }

  function SharesAt(shares: map<int, seq<Share>>, day: int): seq<Share> {
    if day in shares then shares[day] else []
  }

  ghost predicate CacheAnswers(ctx: Context, cache: map<int, int>) {
    forall t | t in cache :: cache[t] == ctx.bucketOf(t)
  }

  /** One pass of the reading loop: filter by meter, take the bucket from the cache, post the attributions. */
  method AccumulateReading(
    ctx: Context, q: Query, v: Visibility, d: Direction, a: Allocated, shares: map<int, seq<Share>>,
    cache0: map<int, int>, acc0: map<RowKey, Cell>, ghost ps: seq<Posting<RowKey>>)
    returns (acc: map<RowKey, Cell>, cache: map<int, int>)
    requires acc0 == PostAll(ps) && CacheAnswers(ctx, cache0)
    requires forall day :: SharesAt(shares, day) == ctx.sharesOn(day)
    ensures acc == PostAll(ps + PostingsOf(ctx, q, v, d, a))
    ensures CacheAnswers(ctx, cache)
  {
    acc, cache := acc0, cache0;
    if q.meter.Some? && a.meter != q.meter.value {
      assert ps + [] == ps;
      return;
    }
    if a.ts !in cache {
      cache := cache[a.ts := ctx.bucketOf(a.ts)];
    }
    var day := ctx.dateOf(a.ts);
    assert SharesAt(shares, day) == ctx.sharesOn(day);
    acc := AccumulateShares(q, v, d, a, cache[a.ts], Attribute(a, SharesAt(shares, day)), acc, ps);
  }

  /** Accumulate the readings of one direction. */
  method AccumulateDirection(
    ctx: Context, q: Query, v: Visibility, d: Direction, readings: seq<Allocated>, shares: map<int, seq<Share>>,
    cache0: map<int, int>, acc0: map<RowKey, Cell>, ghost ps: seq<Posting<RowKey>>)
    returns (acc: map<RowKey, Cell>, cache: map<int, int>)
    requires acc0 == PostAll(ps) && CacheAnswers(ctx, cache0)
    requires forall day :: SharesAt(shares, day) == ctx.sharesOn(day)
    ensures acc == PostAll(ps + PostingsOfAll(ctx, q, v, d, readings))
    ensures CacheAnswers(ctx, cache)
  {
    acc, cache := acc0, cache0;
    ghost var cur := ps;
    for i := 0 to |readings|
      invariant cur == ps + PostingsOfAll(ctx, q, v, d, readings[..i])
      invariant acc == PostAll(cur) && CacheAnswers(ctx, cache)
    {
      acc, cache := AccumulateReading(ctx, q, v, d, readings[i], shares, cache, acc, cur);
      PostingsSnoc(ctx, q, v, d, readings, i, ps);
      cur := cur + PostingsOf(ctx, q, v, d, readings[i]);
    }
    assert readings[..|readings|] == readings;
  }

  lemma PostingsSnoc(
    ctx: Context, q: Query, v: Visibility, d: Direction, readings: seq<Allocated>, i: nat, ps: seq<Posting<RowKey>>)
    requires i < |readings|
    ensures ps + PostingsOfAll(ctx, q, v, d, readings[..i + 1]) ==
            ps + PostingsOfAll(ctx, q, v, d, readings[..i]) + PostingsOf(ctx, q, v, d, readings[i])
  {
    assert readings[..i + 1][..i] == readings[..i];
  }

  /** The per-day shares of the participants fetched for the period. */
  method FetchShares(zev: Zev, q: Query) returns (r: Result<map<int, seq<Share>>, DivisionByZero>)
    ensures r.Ok? ==> forall day :: SharesAt(r.value, day) == SharesOn(zev, q, day)
    ensures r.Ok? ==> forall day :: day in r.value <==> q.start <= day <= q.end && Eligible(zev.participants, day) != []
    ensures r.Ok? <==> WeightsUsable(zev.participants, q.start, q.end)
  {
    var ps := ActiveDuring(zev.participants, q.start, q.end);
    r := EligibleParticipantShares(ps, q.start, q.end);
    forall day | q.start <= day <= q.end ensures Eligible(ps, day) == Eligible(zev.participants, day) {
      ActiveDuringIsEnough(zev.participants, q.start, q.end, day);
    }
    if r.Ok? {
      forall day ensures SharesAt(r.value, day) == SharesOn(zev, q, day) {
        if q.start <= day <= q.end && day !in r.value {
          assert Eligible(zev.participants, day) == [];
        }
      }
    }
  }

  /** One direction of the attributed series: allocate its groups, then accumulate them. */
  method AttributeDirection(
    zev: Zev, q: Query, v: Visibility, d: Direction, index: Index, shares: map<int, seq<Share>>,
    cache0: map<int, int>, acc0: map<RowKey, Cell>, ghost ps: seq<Posting<RowKey>>)
    returns (r: Result<map<RowKey, Cell>, SeriesError>, cache: map<int, int>)
    requires acc0 == PostAll(ps) && CacheAnswers(ContextOf(zev, q), cache0)
    requires forall m :: At(index, m) == Sort(WindowsOf(FetchedAssignments(zev, q), m))
    requires forall day :: SharesAt(shares, day) == SharesOn(zev, q, day)
    ensures r.Ok? <==> d in q.directions ==> Stream(zev, q, d).Ok?
    ensures r.Ok? ==> r.value == PostAll(ps + DirectionPostings(ContextOf(zev, q), q, v, d, Stream(zev, q, d)))
    ensures CacheAnswers(ContextOf(zev, q), cache)
  {
    cache := cache0;
    if d !in q.directions {
      assert ps + [] == ps;
      return Ok(acc0), cache;
    }
    ghost var rows := FetchedAssignments(zev, q);
    var cons, prod := Totals(zev, q, In), Totals(zev, q, Out);
    var readings := IterAllocatedReadings(zev.zone, index, rows, d, cons, prod, Groups(CountedReadings(zev, q, d)));
    if readings.Err? {
      return Err(Inconsistent(readings.error)), cache;
    }
    var ctx := ContextOf(zev, q);
    var acc;
    acc, cache := AccumulateDirection(ctx, q, v, d, readings.value, shares, cache, acc0, ps);
    return Ok(acc), cache;
  }

  /** The rows attributed to meters and participants, before quantisation and sorting. */
  method AttributedRows(zev: Zev, q: Query, v: Visibility) returns (r: Result<map<RowKey, Cell>, SeriesError>)
    ensures r.Ok? <==> Computable(zev, q)
    ensures r.Ok? ==> r.value == AttributedSeries(zev, q, v)
  {
    var index := Build(FetchedAssignments(zev, q));
    if index.Err? {
      return Err(Overlaps(index.error.meter));
    }
    var shares := FetchShares(zev, q);
    if shares.Err? {
      return Err(ZeroWeights(shares.error.day));
    }
    var cache;
    r, cache := AttributeDirection(zev, q, v, In, index.value, shares.value, map[], map[], []);
    if r.Err? {
      return r;
    }
    ghost var first := DirectionPostings(ContextOf(zev, q), q, v, In, Stream(zev, q, In));
    assert [] + first == first;
    r, cache := AttributeDirection(zev, q, v, Out, index.value, shares.value, cache, r.value, first);
  }
}
