/** Community totals, the weight shares of each day, and the stream of readings resolved to a holder and split. */
module ReadModel {
  import opened Outcomes
  import opened Split
  import opened CivilTime
  import opened Windows

  datatype MeterType = ConsumptionMeter | ProductionMeter | BidirectionalMeter

  /** `In` readings are consumption, `Out` readings production. */
  datatype Direction = In | Out

  datatype Reading = Reading(meter: Id, ts: int, direction: Direction, kwh: real)

  datatype Participant = Participant(id: Id, from: int, until: Option<int>, weight: real)

  /** One community: its meters, readings, dated assignments and participants, in a civil zone. */
  datatype Zev = Zev(
    zone: Zone, meters: map<Id, MeterType>, readings: seq<Reading>, assignments: seq<Row>, participants: seq<Participant>)

  // ---- Physical totals ----

  /** The readings a direction counts: meters of a fitting type, the half-open instant range, the direction. */
  predicate Counted(zev: Zev, d: Direction, lo: int, hi: int, r: Reading) {
    && r.meter in zev.meters
    && zev.meters[r.meter] != (if d == In then ProductionMeter else ConsumptionMeter)
    && lo <= r.ts < hi
    && r.direction == d
  }

  function Select(zev: Zev, d: Direction, lo: int, hi: int, rs: seq<Reading>): (r: seq<Reading>)
    ensures forall x :: x in r <==> x in rs && Counted(zev, d, lo, hi, x)
  {
    if rs == [] then []
    else
      var n := |rs| - 1;
      assert rs == rs[..n] + [rs[n]];
      Select(zev, d, lo, hi, rs[..n]) + if Counted(zev, d, lo, hi, rs[n]) then [rs[n]] else []
  }

  function TotalAt(rs: seq<Reading>, ts: int): real {
    if rs == [] then 0.0
    else
      var n := |rs| - 1;
      TotalAt(rs[..n], ts) + if rs[n].ts == ts then rs[n].kwh else 0.0
  }

  function Instants(rs: seq<Reading>): set<int> {
    set r | r in rs :: r.ts
  }

  /** The physical kWh per timestamp: every counted meter, whether or not it is assigned. */
  function TotalsByTimestamp(rs: seq<Reading>): map<int, real> {
    map t | t in Instants(rs) :: TotalAt(rs, t)
  }

  function KwhAt(totals: map<int, real>, ts: int): real {
    if ts in totals then totals[ts] else 0.0
  }

  lemma {:induction false} NoReadingNoTotal(rs: seq<Reading>, ts: int)
    requires forall r | r in rs :: r.ts != ts
    ensures TotalAt(rs, ts) == 0.0
  {
    if rs != [] {
      NoReadingNoTotal(rs[..|rs| - 1], ts);
    }
  }

  lemma KwhAtIsTotal(rs: seq<Reading>, ts: int)
    ensures KwhAt(TotalsByTimestamp(rs), ts) == TotalAt(rs, ts)
  {
    if ts !in Instants(rs) {
      NoReadingNoTotal(rs, ts);
    }
  }

  lemma {:induction false} TotalsNonNegative(rs: seq<Reading>, ts: int)
    requires forall r | r in rs :: r.kwh >= 0.0
    ensures TotalAt(rs, ts) >= 0.0
  {
    if rs != [] {
      TotalsNonNegative(rs[..|rs| - 1], ts);
    }
  }

  // ---- Groups per metering point and timestamp ----

  datatype Group = Group(meter: Id, ts: int, kwh: real)

  function AddReading(gs: seq<Group>, r: Reading): seq<Group> {
    if gs == [] then [Group(r.meter, r.ts, r.kwh)]
    else
      var n := |gs| - 1;
      if gs[n].meter == r.meter && gs[n].ts == r.ts then gs[..n] + [gs[n].(kwh := gs[n].kwh + r.kwh)]
      else AddReading(gs[..n], r) + [gs[n]]
  }

  /** One row per metering point and timestamp with the summed energy. */
  function Groups(rs: seq<Reading>): seq<Group> {
    if rs == [] then [] else AddReading(Groups(rs[..|rs| - 1]), rs[|rs| - 1])
  }

  function GroupTotal(gs: seq<Group>, ts: int): real {
    if gs == [] then 0.0
    else
      var n := |gs| - 1;
      GroupTotal(gs[..n], ts) + if gs[n].ts == ts then gs[n].kwh else 0.0
  }

  lemma GroupTotalSnoc(gs: seq<Group>, g: Group, ts: int)
    ensures GroupTotal(gs + [g], ts) == GroupTotal(gs, ts) + if g.ts == ts then g.kwh else 0.0
  {
    assert (gs + [g])[..|gs|] == gs;
  }

  lemma {:induction false} AddReadingTotal(gs: seq<Group>, r: Reading, ts: int)
    ensures GroupTotal(AddReading(gs, r), ts) == GroupTotal(gs, ts) + if r.ts == ts then r.kwh else 0.0
  {
    if gs == [] {
      GroupTotalSnoc([], Group(r.meter, r.ts, r.kwh), ts);
      assert [] + [Group(r.meter, r.ts, r.kwh)] == [Group(r.meter, r.ts, r.kwh)];
    } else {
      var n := |gs| - 1;
      if gs[n].meter == r.meter && gs[n].ts == r.ts {
        GroupTotalSnoc(gs[..n], gs[n].(kwh := gs[n].kwh + r.kwh), ts);
      } else {
        AddReadingTotal(gs[..n], r, ts);
        GroupTotalSnoc(AddReading(gs[..n], r), gs[n], ts);
      }
    }
  }

  /** Grouping loses no energy: the groups of a timestamp add up to its physical total. */
  lemma {:induction false} GroupsKeepTotals(rs: seq<Reading>, ts: int)
    ensures GroupTotal(Groups(rs), ts) == TotalAt(rs, ts)
  {
    if rs != [] {
      var n := |rs| - 1;
      GroupsKeepTotals(rs[..n], ts);
      AddReadingTotal(Groups(rs[..n]), rs[n], ts);
    }
  }

  ghost predicate GroupsFit(gs: seq<Group>, rs: seq<Reading>) {
    forall g | g in gs :: g.kwh >= 0.0 && g.ts in Instants(rs)
  }

  lemma {:induction false} AddReadingFits(gs: seq<Group>, r: Reading, rs: seq<Reading>)
    requires GroupsFit(gs, rs) && r.kwh >= 0.0 && r in rs
    ensures GroupsFit(AddReading(gs, r), rs)
  {
    assert r.ts in Instants(rs);
    if gs != [] {
      var n := |gs| - 1;
      assert gs == gs[..n] + [gs[n]];
      AddReadingFits(gs[..n], r, rs);
    }
  }

  lemma {:induction false} GroupsOfReadings(rs: seq<Reading>, n: nat)
    requires n <= |rs| && forall r | r in rs :: r.kwh >= 0.0
    ensures GroupsFit(Groups(rs[..n]), rs)
  {
    if n > 0 {
      GroupsOfReadings(rs, n - 1);
      assert rs[..n][..n - 1] == rs[..n - 1];
      AddReadingFits(Groups(rs[..n - 1]), rs[n - 1], rs);
    }
  }

  lemma {:induction false} GroupWithinTotal(gs: seq<Group>, i: nat)
    requires i < |gs| && forall g | g in gs :: g.kwh >= 0.0
    ensures gs[i].kwh <= GroupTotal(gs, gs[i].ts)
    ensures GroupTotal(gs, gs[i].ts) >= 0.0
  {
    var n := |gs| - 1;
    if i < n {
      GroupWithinTotal(gs[..n], i);
    } else {
      GroupTotalNonNegative(gs[..n], gs[n].ts);
    }
  }

  lemma {:induction false} GroupTotalNonNegative(gs: seq<Group>, ts: int)
    requires forall g | g in gs :: g.kwh >= 0.0
    ensures GroupTotal(gs, ts) >= 0.0
  {
    if gs != [] {
      GroupTotalNonNegative(gs[..|gs| - 1], ts);
    }
  }

  // ---- Allocated readings ----

  /** One group, resolved to its holder at the timestamp and split; no holder in an assignment gap. */
  datatype Allocated = Allocated(meter: Id, ts: int, resolution: Option<Window>, kwh: real, local: real, other: real)

  function AllocateTo(resolution: Option<Window>, d: Direction, c: real, p: real, g: Group)
    : Result<Allocated, AllocationError>
  {
    if d == In then
      match SplitConsumption(g.kwh, c, p)
      case Ok(s) => Ok(Allocated(g.meter, g.ts, resolution, g.kwh, s.local, s.grid))
      case Err(e) => Err(e)
    else
      match SplitProduction(g.kwh, p, c)
      case Ok(s) => Ok(Allocated(g.meter, g.ts, resolution, g.kwh, s.localSold, s.exported))
      case Err(e) => Err(e)
  }

  /** A group against the physical totals of its timestamp, resolved by the assignment on its civil date. */
  function Allocate(zone: Zone, rows: seq<Row>, d: Direction, cons: map<int, real>, prod: map<int, real>, g: Group)
    : Result<Allocated, AllocationError>
  {
    AllocateTo(AssignmentAt(zone, rows, g.meter, g.ts), d, KwhAt(cons, g.ts), KwhAt(prod, g.ts), g)
  }

  /** Apply `f` to every group in order, up to the first refusal. */
  function TryAll(f: Group -> Result<Allocated, AllocationError>, gs: seq<Group>)
    : (r: Result<seq<Allocated>, AllocationError>)
    ensures r.Ok? ==> |r.value| == |gs|
    ensures r.Ok? ==> forall i | 0 <= i < |gs| :: f(gs[i]) == Ok(r.value[i])
  {
    if gs == [] then Ok([])
    else
      var n := |gs| - 1;
      match TryAll(f, gs[..n])
      case Err(e) => Err(e)
      case Ok(init) =>
        match f(gs[n])
        case Err(e) => Err(e)
        case Ok(a) => Ok(init + [a])
  }

  /** The stream of a direction: every group resolved and split, or the first refusal. */
  function AllocateAll(
    zone: Zone, rows: seq<Row>, d: Direction, cons: map<int, real>, prod: map<int, real>, gs: seq<Group>)
    : (r: Result<seq<Allocated>, AllocationError>)
    ensures r.Ok? ==> |r.value| == |gs|
    ensures r.Ok? ==> forall i | 0 <= i < |gs| :: Allocate(zone, rows, d, cons, prod, gs[i]) == Ok(r.value[i])
  {
    TryAll(g => Allocate(zone, rows, d, cons, prod, g), gs)
  }

  lemma {:induction false} FirstRefusalStands(f: Group -> Result<Allocated, AllocationError>, gs: seq<Group>, n: nat)
    requires n <= |gs| && TryAll(f, gs[..n]).Err?
    ensures TryAll(f, gs) == TryAll(f, gs[..n])
  {
    if n == |gs| {
      assert gs[..n] == gs;
    } else {
      var m := |gs| - 1;
      assert gs[..m][..n] == gs[..n];
      FirstRefusalStands(f, gs[..m], n);
    }
  }

  lemma {:induction false} AllAccepted(f: Group -> Result<Allocated, AllocationError>, gs: seq<Group>)
    requires forall g | g in gs :: f(g).Ok?
    ensures TryAll(f, gs).Ok?
  {
    if gs != [] {
      AllAccepted(f, gs[..|gs| - 1]);
    }
  }

  lemma {:induction false} TryAllSame(
    f: Group -> Result<Allocated, AllocationError>, h: Group -> Result<Allocated, AllocationError>, gs: seq<Group>)
    requires forall g | g in gs :: f(g) == h(g)
    ensures TryAll(f, gs) == TryAll(h, gs)
  {
    if gs != [] {
      TryAllSame(f, h, gs[..|gs| - 1]);
    }
  }

  /** Resolve and split every group in order, looking holders up in the index built from `rows`. */
  method IterAllocatedReadings(
    zone: Zone, index: Index, ghost rows: seq<Row>, d: Direction, cons: map<int, real>, prod: map<int, real>, gs: seq<Group>)
    returns (r: Result<seq<Allocated>, AllocationError>)
    requires forall m :: At(index, m) == Sort(WindowsOf(rows, m))
    ensures r == AllocateAll(zone, rows, d, cons, prod, gs)
  {
    var f := (g: Group) =>
      AllocateTo(
        FirstCovering(At(index, g.meter), CivilDate(zone, g.ts)), d, KwhAt(cons, g.ts), KwhAt(prod, g.ts), g);
    r := CollectAll(f, gs);
    TryAllSame(f, g => Allocate(zone, rows, d, cons, prod, g), gs);
  }

  method CollectAll(f: Group -> Result<Allocated, AllocationError>, gs: seq<Group>)
    returns (r: Result<seq<Allocated>, AllocationError>)
    ensures r == TryAll(f, gs)
  {
    var out: seq<Allocated> := [];
    for i := 0 to |gs|
      invariant TryAll(f, gs[..i]) == Ok(out)
    {
      assert gs[..i + 1][..i] == gs[..i];
      var a := f(gs[i]);
      if a.Err? {
        FirstRefusalStands(f, gs, i + 1);
        return Err(a.error);
      }
      out := out + [a.value];
    }
    assert gs[..|gs|] == gs;
    return Ok(out);
  }

  // ---- Weight shares ----

  datatype Share = Share(participant: Id, share: real)

  datatype DivisionByZero = DivisionByZero(day: int)

  predicate ActiveOn(p: Participant, day: int) {
    p.from <= day && (p.until.None? || p.until.value >= day)
  }

  function Eligible(ps: seq<Participant>, day: int): (r: seq<Participant>)
    ensures forall p | p in r :: p in ps && ActiveOn(p, day)
  {
    if ps == [] then []
    else
      var n := |ps| - 1;
      assert ps == ps[..n] + [ps[n]];
      Eligible(ps[..n], day) + if ActiveOn(ps[n], day) then [ps[n]] else []
  }

  /** The participants the query fetches for a period. */
  function ActiveDuring(ps: seq<Participant>, start: int, end: int): (r: seq<Participant>)
    ensures forall p | p in r :: p in ps
  {
    if ps == [] then []
    else
      var n := |ps| - 1;
      assert ps == ps[..n] + [ps[n]];
      ActiveDuring(ps[..n], start, end)
      + if ps[n].from <= end && (ps[n].until.None? || ps[n].until.value >= start) then [ps[n]] else []
  }

  /** Fetching only participants active in the period changes nobody's eligibility inside it. */
  lemma {:induction false} ActiveDuringIsEnough(ps: seq<Participant>, start: int, end: int, day: int)
    requires start <= day <= end
    ensures Eligible(ActiveDuring(ps, start, end), day) == Eligible(ps, day)
  {
    if ps != [] {
      var n := |ps| - 1;
      ActiveDuringIsEnough(ps[..n], start, end, day);
      var init := ActiveDuring(ps[..n], start, end);
      assert (init + [ps[n]])[..|init|] == init;
      assert init + [] == init;
    }
  }

  function WeightSum(ps: seq<Participant>): real {
    if ps == [] then 0.0 else WeightSum(ps[..|ps| - 1]) + ps[|ps| - 1].weight
  }

  function ShareSum(ss: seq<Share>): real {
    if ss == [] then 0.0 else ShareSum(ss[..|ss| - 1]) + ss[|ss| - 1].share
  }

  /** Each participant's weight over a total. */
  function Normalised(ps: seq<Participant>, total: real): (r: seq<Share>)
    requires total != 0.0
    ensures |r| == |ps|
    ensures forall i | 0 <= i < |ps| :: r[i] == Share(ps[i].id, ps[i].weight / total)
  {
    if ps == [] then []
    else
      var n := |ps| - 1;
      Normalised(ps[..n], total) + [Share(ps[n].id, ps[n].weight / total)]
  }

  function DayShares(ps: seq<Participant>, day: int): seq<Share> {
    var eligible := Eligible(ps, day);
    var total := WeightSum(eligible);
    if total == 0.0 then [] else Normalised(eligible, total)
  }

  /** Day by day, the normalised weight of every eligible participant; days with nobody eligible are absent. */
  method EligibleParticipantShares(ps: seq<Participant>, start: int, end: int)
    returns (r: Result<map<int, seq<Share>>, DivisionByZero>)
    ensures r.Ok? ==> forall d :: d in r.value <==> start <= d <= end && Eligible(ps, d) != []
    ensures r.Ok? ==> forall d | d in r.value :: r.value[d] == DayShares(ps, d) && WeightSum(Eligible(ps, d)) != 0.0
    ensures r.Err? ==>
      start <= r.error.day <= end && Eligible(ps, r.error.day) != [] && WeightSum(Eligible(ps, r.error.day)) == 0.0
  {
    var shares: map<int, seq<Share>> := map[];
    var cursor := start;
    while cursor <= end
      invariant start <= cursor
      invariant cursor == start || cursor <= end + 1
      invariant forall d :: d in shares <==> start <= d < cursor && Eligible(ps, d) != []
      invariant forall d | d in shares :: shares[d] == DayShares(ps, d) && WeightSum(Eligible(ps, d)) != 0.0
      decreases end - cursor
    {
      var eligible := Eligible(ps, cursor);
      if eligible != [] {
        var total := WeightSum(eligible);
        if total == 0.0 {
          return Err(DivisionByZero(cursor));
        }
        shares := shares[cursor := Normalised(eligible, total)];
      }
      cursor := cursor + 1;
    }
    return Ok(shares);
  }

  lemma {:induction false} WeightsPositive(ps: seq<Participant>)
    requires forall p | p in ps :: p.weight > 0.0
    ensures WeightSum(ps) >= 0.0
    ensures ps != [] ==> WeightSum(ps) > 0.0
  {
    if ps != [] {
      var n := |ps| - 1;
      assert ps == ps[..n] + [ps[n]];
      WeightsPositive(ps[..n]);
    }
  }

  lemma {:induction false} NormalisedSum(ps: seq<Participant>, total: real)
    requires total > 0.0
    ensures ShareSum(Normalised(ps, total)) == WeightSum(ps) / total
  {
    if ps != [] {
      var n := |ps| - 1;
      NormalisedSum(ps[..n], total);
      var r := Normalised(ps, total);
      assert r[..n] == Normalised(ps[..n], total);
    }
  }

  /** With positive weights the shares of a day with anyone eligible are positive and add up to exactly one. */
  lemma SharesSumToOne(ps: seq<Participant>, day: int)
    requires forall p | p in ps :: p.weight > 0.0
    ensures Eligible(ps, day) == [] ==> DayShares(ps, day) == []
    ensures Eligible(ps, day) != [] ==> DayShares(ps, day) != [] && ShareSum(DayShares(ps, day)) == 1.0
    ensures forall s | s in DayShares(ps, day) :: s.share > 0.0
  {
    var eligible := Eligible(ps, day);
    WeightsPositive(eligible);
    if eligible != [] {
      NormalisedSum(eligible, WeightSum(eligible));
      Quotient(WeightSum(eligible), WeightSum(eligible));
      var shares := DayShares(ps, day);
      assert |shares| == |eligible|;
      forall i | 0 <= i < |shares| ensures shares[i].share > 0.0 {
        assert eligible[i] in eligible;
        Quotient(eligible[i].weight, WeightSum(eligible));
      }
    }
  }

  lemma Quotient(a: real, b: real)
    requires a > 0.0 && b > 0.0
    ensures a / b > 0.0
    ensures a == b ==> a / b == 1.0
  {
  }
}
