/** What is left after a sweep, after a second one, and after any run of completions and sweeps. */
module RetentionLaws {
  import opened Outcomes
  import opened Retention

  ghost predicate Sound(jobs: seq<Backup>) {
    DistinctPks(jobs) && OnlySafetyExpires(jobs)
  }

  ghost predicate NoTiesAnywhere(jobs: seq<Backup>) {
    forall d :: NoTies(Select(jobs, d))
  }

  // ---- Expiry does not touch routine backups ----

  lemma MarkKeepsSound(jobs: seq<Backup>, pks: set<Id>)
    requires Sound(jobs)
    ensures Sound(MarkDeleted(jobs, pks))
  {
    var r := MarkDeleted(jobs, pks);
    forall b | b in r ensures b.expires.Some? ==> b.safety {
      var i :| 0 <= i < |r| && r[i] == b;
      assert jobs[i] in jobs;
    }
  }

  lemma ExpiryTouchesSafetyOnly(jobs: seq<Backup>, now: int, inUse: set<Id>, failing: set<Id>, i: nat)
    requires Sound(jobs) && i < |jobs| && !jobs[i].safety
    ensures AfterExpiry(jobs, now, inUse, failing)[i] == jobs[i]
  {
    if jobs[i].pk in ExpiredPks(jobs, now, inUse) {
      var b :| b in jobs && b.pk == jobs[i].pk && IsExpired(b, now, inUse);
      SamePkSameBackup(jobs, b, jobs[i]);
      assert false;
    }
  }

  lemma {:induction false} SelectSame(a: seq<Backup>, b: seq<Backup>, d: Id)
    requires |a| == |b|
    requires forall i | 0 <= i < |a| :: a[i] == b[i] || (!IsCandidate(a[i], d) && !IsCandidate(b[i], d))
    ensures Select(a, d) == Select(b, d)
  {
    if a != [] {
      SelectSame(a[1..], b[1..], d);
    }
  }

  lemma ExpiryKeepsCandidates(jobs: seq<Backup>, now: int, inUse: set<Id>, failing: set<Id>, d: Id)
    requires Sound(jobs)
    ensures Select(AfterExpiry(jobs, now, inUse, failing), d) == Select(jobs, d)
  {
    var left := AfterExpiry(jobs, now, inUse, failing);
    forall i | 0 <= i < |jobs| ensures left[i] == jobs[i] || (!IsCandidate(left[i], d) && !IsCandidate(jobs[i], d)) {
      if !jobs[i].safety { ExpiryTouchesSafetyOnly(jobs, now, inUse, failing, i); }
    }
    SelectSame(left, jobs, d);
  }

  lemma DoomedIsCandidate(jobs: seq<Backup>, destinations: Destinations, inUse: set<Id>, d: Id, pk: Id) returns (b: Backup)
    requires DoomedAtDestination(jobs, destinations, inUse, d, pk)
    ensures b in jobs && b.pk == pk && IsCandidate(b, d)
  {
    var s := Candidates(jobs, d);
    var k: nat :| k < |s| && s[k].pk == pk && DoomedAt(s, destinations[d], inUse, k);
    b := s[k];
    assert b in s;
  }

  lemma RoutineIsNotExpired(jobs: seq<Backup>, now: int, inUse: set<Id>, failing: set<Id>, b: Backup)
    requires Sound(jobs) && b in AfterExpiry(jobs, now, inUse, failing) && !b.safety
    ensures b.pk !in ExpiredPks(jobs, now, inUse)
  {
    var left := AfterExpiry(jobs, now, inUse, failing);
    var i :| 0 <= i < |left| && left[i] == b;
    forall x | x in jobs && x.pk == b.pk ensures !IsExpired(x, now, inUse) {
      SamePkSameBackup(jobs, x, jobs[i]);
    }
  }

  /** No backup is deleted both by date and by count: only safety backups expire, only routine ones are counted. */
  lemma ExpiryAndRetentionDisjoint(
    jobs: seq<Backup>, destinations: Destinations, now: int, inUse: set<Id>, failing: set<Id>, pk: Id)
    requires Sound(jobs) && pk in ExpiredPks(jobs, now, inUse)
    ensures !BeyondRetention(AfterExpiry(jobs, now, inUse, failing), destinations, inUse, pk)
  {
    var left := AfterExpiry(jobs, now, inUse, failing);
    if BeyondRetention(left, destinations, inUse, pk) {
      var d :| DoomedAtDestination(left, destinations, inUse, d, pk);
      var b := DoomedIsCandidate(left, destinations, inUse, d, pk);
      RoutineIsNotExpired(jobs, now, inUse, failing, b);
      assert false;
    }
  }

  // ---- The survivors of a sweep ----

  /**
   * After a sweep, a routine backup is gone exactly when its destination keeps N of a kind, at least N newer ones of its
   * kind existed there, it was not in the protected snapshot, and its file could be reached.
   */
  lemma SweepSurvivors(jobs: seq<Backup>, destinations: Destinations, now: int, inUse: set<Id>, failing: set<Id>, d: Id, i: nat)
    requires Sound(jobs) && NoTies(Select(jobs, d)) && i < |jobs| && IsCandidate(jobs[i], d)
    ensures Swept(jobs, destinations, now, inUse, failing)[i].deleted <==>
            && d in destinations && destinations[d] > 0
            && NewerCount(Select(jobs, d), jobs[i]) >= destinations[d] && jobs[i].pk !in inUse && jobs[i].pk !in failing
  {
    var left := AfterExpiry(jobs, now, inUse, failing);
    MarkKeepsSound(jobs, Reached(ExpiredPks(jobs, now, inUse), failing));
    ExpiryTouchesSafetyOnly(jobs, now, inUse, failing, i);
    ExpiryKeepsCandidates(jobs, now, inUse, failing, d);
    assert left[i] in left;
    BeyondRetentionIff(left, destinations, inUse, d, left[i]);
  }

  /** With ties: gone if N newer ones of its kind existed, and only if N did that were not older. */
  lemma SweepBounds(jobs: seq<Backup>, destinations: Destinations, now: int, inUse: set<Id>, failing: set<Id>, d: Id, i: nat)
    requires Sound(jobs) && i < |jobs| && IsCandidate(jobs[i], d)
    ensures
      var limited := d in destinations && destinations[d] > 0 && jobs[i].pk !in inUse && jobs[i].pk !in failing;
      var deleted := Swept(jobs, destinations, now, inUse, failing)[i].deleted;
      && (limited && NewerCount(Select(jobs, d), jobs[i]) >= destinations[d] ==> deleted)
      && (deleted ==> limited && NotOlderCount(Select(jobs, d), jobs[i]) >= destinations[d])
  {
    var left := AfterExpiry(jobs, now, inUse, failing);
    MarkKeepsSound(jobs, Reached(ExpiredPks(jobs, now, inUse), failing));
    ExpiryTouchesSafetyOnly(jobs, now, inUse, failing, i);
    ExpiryKeepsCandidates(jobs, now, inUse, failing, d);
    assert left[i] in left;
    BeyondRetentionBounds(left, destinations, inUse, d, left[i]);
  }

  /** Safety backups are deleted exactly when they have expired, nothing reads them and the file can be reached. */
  lemma SweepExpires(jobs: seq<Backup>, destinations: Destinations, now: int, inUse: set<Id>, failing: set<Id>, i: nat)
    requires Sound(jobs) && i < |jobs| && jobs[i].safety && !jobs[i].deleted
    ensures Swept(jobs, destinations, now, inUse, failing)[i].deleted <==> IsExpired(jobs[i], now, inUse) && jobs[i].pk !in failing
  {
    var left := AfterExpiry(jobs, now, inUse, failing);
    assert jobs[i] in jobs;
    if jobs[i].pk in ExpiredPks(jobs, now, inUse) {
      var b :| b in jobs && b.pk == jobs[i].pk && IsExpired(b, now, inUse);
      SamePkSameBackup(jobs, b, jobs[i]);
    }
    MarkKeepsSound(jobs, Reached(ExpiredPks(jobs, now, inUse), failing));
    if BeyondRetention(left, destinations, inUse, left[i].pk) {
      var d :| DoomedAtDestination(left, destinations, inUse, d, left[i].pk);
      var x := DoomedIsCandidate(left, destinations, inUse, d, left[i].pk);
      assert left[i] in left;
      SamePkSameBackup(left, x, left[i]);
      assert false;
    }
  }

  // ---- A second sweep ----

  lemma {:induction false} FewerNewer(before: seq<Backup>, after: seq<Backup>, d: Id, b: Backup)
    requires |before| == |after|
    requires forall i | 0 <= i < |before| :: after[i] == before[i] || after[i] == before[i].(deleted := true)
    ensures NewerCount(Select(after, d), b) <= NewerCount(Select(before, d), b)
  {
    if before != [] {
      FewerNewer(before[1..], after[1..], d, b);
      assert after[0] == before[0] || after[0] == before[0].(deleted := true);
      SelectHead(before, d, b);
      SelectHead(after, d, b);
    }
  }

  lemma SelectHead(jobs: seq<Backup>, d: Id, b: Backup)
    requires jobs != []
    ensures NewerCount(Select(jobs, d), b) ==
            NewerCount(Select(jobs[1..], d), b)
            + if IsCandidate(jobs[0], d) && jobs[0].kind == b.kind && Newer(jobs[0], b) then 1 else 0
  {
    var rest := Select(jobs[1..], d);
    assert ([jobs[0]] + rest)[1..] == rest;
    assert [] + rest == rest;
  }

  lemma SweptRows(jobs: seq<Backup>, destinations: Destinations, now: int, inUse: set<Id>, failing: set<Id>)
    ensures
      var r := Swept(jobs, destinations, now, inUse, failing);
      |r| == |jobs| && forall i | 0 <= i < |jobs| :: r[i] == jobs[i] || r[i] == jobs[i].(deleted := true)
  {
  }

  lemma SweptSound(jobs: seq<Backup>, destinations: Destinations, now: int, inUse: set<Id>, failing: set<Id>)
    requires Sound(jobs)
    ensures Sound(Swept(jobs, destinations, now, inUse, failing))
  {
    var left := AfterExpiry(jobs, now, inUse, failing);
    MarkKeepsSound(jobs, Reached(ExpiredPks(jobs, now, inUse), failing));
    MarkKeepsSound(left, DoomedSet(left, destinations, inUse, failing));
  }

  lemma SweptNoTies(jobs: seq<Backup>, destinations: Destinations, now: int, inUse: set<Id>, failing: set<Id>, d: Id)
    requires NoTies(Select(jobs, d))
    ensures NoTies(Select(Swept(jobs, destinations, now, inUse, failing), d))
  {
    var r := Swept(jobs, destinations, now, inUse, failing);
    SweptRows(jobs, destinations, now, inUse, failing);
    forall a | a in Select(r, d) ensures a in Select(jobs, d) {
      var i :| 0 <= i < |r| && r[i] == a;
      assert jobs[i] in jobs;
    }
  }

  lemma NothingLeftToExpire(
    jobs: seq<Backup>, destinations: Destinations, now: int, inUse: set<Id>, failing: set<Id>, i: nat)
    requires Sound(jobs) && i < |jobs|
    ensures IsExpired(Swept(jobs, destinations, now, inUse, failing)[i], now, inUse) ==> jobs[i].pk in failing
  {
    SweptRows(jobs, destinations, now, inUse, failing);
    assert jobs[i] in jobs;
    if IsExpired(jobs[i], now, inUse) {
      SweepExpires(jobs, destinations, now, inUse, failing, i);
    }
  }

  lemma NothingLeftBeyondRetention(
    jobs: seq<Backup>, destinations: Destinations, now: int, inUse: set<Id>, failing: set<Id>, d: Id, i: nat)
    requires Sound(jobs) && NoTiesAnywhere(jobs) && i < |jobs| && jobs[i].pk !in failing
    ensures !DoomedAtDestination(Swept(jobs, destinations, now, inUse, failing), destinations, inUse, d, jobs[i].pk)
  {
    var r := Swept(jobs, destinations, now, inUse, failing);
    SweptRows(jobs, destinations, now, inUse, failing);
    SweptSound(jobs, destinations, now, inUse, failing);
    if DoomedAtDestination(r, destinations, inUse, d, jobs[i].pk) {
      var b := DoomedIsCandidate(r, destinations, inUse, d, jobs[i].pk);
      assert r[i] in r;
      SamePkSameBackup(r, b, r[i]);
      assert NoTies(Select(jobs, d));
      SweptNoTies(jobs, destinations, now, inUse, failing, d);
      assert BeyondRetention(r, destinations, inUse, b.pk);
      BeyondRetentionIff(r, destinations, inUse, d, b);
      FewerNewer(jobs, r, d, b);
      SweepSurvivors(jobs, destinations, now, inUse, failing, d, i);
      assert false;
    }
  }

  /** A second sweep under the same snapshot, with no new expiry and the same files out of reach, deletes nothing. */
  lemma SecondSweepDeletesNothing(jobs: seq<Backup>, destinations: Destinations, now: int, inUse: set<Id>, failing: set<Id>)
    requires Sound(jobs) && NoTiesAnywhere(jobs)
    ensures
      var r := Swept(jobs, destinations, now, inUse, failing);
      Swept(r, destinations, now, inUse, failing) == r
  {
    var r := Swept(jobs, destinations, now, inUse, failing);
    SweptRows(jobs, destinations, now, inUse, failing);
    forall b | b in r && IsExpired(b, now, inUse) ensures b.pk in failing {
      var i :| 0 <= i < |r| && r[i] == b;
      NothingLeftToExpire(jobs, destinations, now, inUse, failing, i);
    }
    assert AfterExpiry(r, now, inUse, failing) == r;
    forall b | b in r && b.pk !in failing ensures !BeyondRetention(r, destinations, inUse, b.pk) {
      var i :| 0 <= i < |r| && r[i] == b;
      forall d ensures !DoomedAtDestination(r, destinations, inUse, d, b.pk) {
        NothingLeftBeyondRetention(jobs, destinations, now, inUse, failing, d, i);
      }
    }
    assert DoomedSet(r, destinations, inUse, failing) == {};
  }

  // ---- By the clock ----

  /** A finished backup of a kind at a destination, not a safety backup, that still has its file. */
  predicate Routine(b: Backup, d: Id, kind: Kind) {
    b.destination == Some(d) && b.kind == kind && b.status == Completed && !b.safety && !b.deleted
  }

  /** How many of its kind at the destination were completed later. */
  function Later(jobs: seq<Backup>, d: Id, b: Backup): nat {
    if jobs == [] then 0
    else Later(jobs[1..], d, b) + if Routine(jobs[0], d, b.kind) && jobs[0].completedAt > b.completedAt then 1 else 0
  }

  /** How many others of its kind at the destination were completed no earlier. */
  function NoEarlier(jobs: seq<Backup>, d: Id, b: Backup): nat {
    if jobs == [] then 0
    else
      NoEarlier(jobs[1..], d, b)
      + if Routine(jobs[0], d, b.kind) && jobs[0].pk != b.pk && jobs[0].completedAt >= b.completedAt then 1 else 0
  }

  /** How many of its kind at the destination were completed later, or at the same time and created later. */
  function Ahead(jobs: seq<Backup>, d: Id, b: Backup): nat {
    if jobs == [] then 0
    else
      Ahead(jobs[1..], d, b)
      + if Routine(jobs[0], d, b.kind) &&
           (jobs[0].completedAt > b.completedAt || (jobs[0].completedAt == b.completedAt && jobs[0].createdAt > b.createdAt))
        then 1 else 0
  }

  lemma SelectHeadNotOlder(jobs: seq<Backup>, d: Id, b: Backup)
    requires jobs != []
    ensures NotOlderCount(Select(jobs, d), b) ==
            NotOlderCount(Select(jobs[1..], d), b)
            + if IsCandidate(jobs[0], d) && jobs[0].kind == b.kind && jobs[0].pk != b.pk && !Newer(b, jobs[0]) then 1 else 0
  {
    var rest := Select(jobs[1..], d);
    assert ([jobs[0]] + rest)[1..] == rest;
    assert [] + rest == rest;
  }

  lemma {:induction false} CountsByTime(jobs: seq<Backup>, d: Id, b: Backup)
    ensures Later(jobs, d, b) <= NewerCount(Select(jobs, d), b) == Ahead(jobs, d, b)
    ensures NotOlderCount(Select(jobs, d), b) <= NoEarlier(jobs, d, b)
  {
    if jobs != [] {
      CountsByTime(jobs[1..], d, b);
      SelectHead(jobs, d, b);
      SelectHeadNotOlder(jobs, d, b);
    }
  }

  lemma {:induction false} NoneNoEarlier(jobs: seq<Backup>, d: Id, b: Backup)
    requires forall x | x in jobs && Routine(x, d, b.kind) && x.pk != b.pk :: x.completedAt < b.completedAt
    ensures NoEarlier(jobs, d, b) == 0
  {
    if jobs != [] {
      assert jobs == [jobs[0]] + jobs[1..];
      NoneNoEarlier(jobs[1..], d, b);
    }
  }

  /** It may be deleted: its destination has a limit, nothing reads it and its file can be reached. */
  ghost predicate Deletable(b: Backup, destinations: Destinations, d: Id, inUse: set<Id>, failing: set<Id>) {
    d in destinations && destinations[d] > 0 && b.pk !in inUse && b.pk !in failing
  }

  /**
   * What a sweep does to a routine backup, by completion and creation times. It deletes one only if as many others of its
   * kind there as are kept were completed no earlier, so never the one completed last; it spares a deletable one only if
   * fewer were completed later. Where no other shares both times, it deletes exactly if enough are ahead.
   */
  lemma SweepByTime(
      jobs: seq<Backup>, destinations: Destinations, now: int, inUse: set<Id>, failing: set<Id>, d: Id, i: nat)
    requires Sound(jobs) && i < |jobs| && Routine(jobs[i], d, jobs[i].kind)
    ensures
      var deleted, deletable := Swept(jobs, destinations, now, inUse, failing)[i].deleted, Deletable(jobs[i], destinations, d, inUse, failing);
      && (deleted ==> deletable && NoEarlier(jobs, d, jobs[i]) >= destinations[d])
      && (deletable && !deleted ==> Later(jobs, d, jobs[i]) < destinations[d])
    ensures (forall x | x in jobs && Routine(x, d, jobs[i].kind) && x.pk != jobs[i].pk :: x.completedAt < jobs[i].completedAt) ==>
              !Swept(jobs, destinations, now, inUse, failing)[i].deleted
  {
    CountsByTime(jobs, d, jobs[i]);
    SweepBounds(jobs, destinations, now, inUse, failing, d, i);
    if forall x | x in jobs && Routine(x, d, jobs[i].kind) && x.pk != jobs[i].pk :: x.completedAt < jobs[i].completedAt {
      NoneNoEarlier(jobs, d, jobs[i]);
    }
  }

  /** No two routine backups of a kind at the destination share both times. */
  ghost predicate TimesDiffer(jobs: seq<Backup>, d: Id) {
    forall a, b | a in jobs && b in jobs && a.pk != b.pk && Routine(a, d, a.kind) && Routine(b, d, a.kind) ::
      a.completedAt != b.completedAt || a.createdAt != b.createdAt
  }

  lemma SweepByTimeIff(
      jobs: seq<Backup>, destinations: Destinations, now: int, inUse: set<Id>, failing: set<Id>, d: Id, i: nat)
    requires Sound(jobs) && i < |jobs| && Routine(jobs[i], d, jobs[i].kind) && TimesDiffer(jobs, d)
    ensures Swept(jobs, destinations, now, inUse, failing)[i].deleted <==>
            Deletable(jobs[i], destinations, d, inUse, failing) && Ahead(jobs, d, jobs[i]) >= destinations[d]
  {
    CountsByTime(jobs, d, jobs[i]);
    SweepSurvivors(jobs, destinations, now, inUse, failing, d, i);
  }

  /** A safety backup, by its columns: gone after a sweep exactly when its date has come. */
  lemma SweepExpiresByDate(
      jobs: seq<Backup>, destinations: Destinations, now: int, inUse: set<Id>, failing: set<Id>, i: nat)
    requires Sound(jobs) && i < |jobs| && jobs[i].safety && !jobs[i].deleted
    ensures Swept(jobs, destinations, now, inUse, failing)[i].deleted <==>
            && jobs[i].status == Completed && jobs[i].destination.Some? && jobs[i].expires.Some?
            && jobs[i].expires.value <= now && jobs[i].pk !in inUse && jobs[i].pk !in failing
  {
    ExpiredIff(jobs[i], now, inUse);
    SweepExpires(jobs, destinations, now, inUse, failing, i);
  }

  lemma ExpiredIff(b: Backup, now: int, inUse: set<Id>)
    ensures IsExpired(b, now, inUse) <==>
            && b.status == Completed && !b.deleted && b.destination.Some? && b.expires.Some? && b.expires.value <= now
            && b.pk !in inUse
  {
  }

  // ---- Runs ----

  /** A backup completes (with the expiry its trigger gives it), or a sweep runs under any settings and snapshot. */
  datatype Step =
    | Complete(backup: Backup, days: int, now: int)
    | Sweep(destinations: Destinations, at: int, inUse: set<Id>, failing: set<Id>)

  predicate FreshPk(jobs: seq<Backup>, pk: Id) {
    forall b | b in jobs :: b.pk != pk
  }

  function Completion(b: Backup, days: int, now: int): Backup {
    b.(status := Completed, deleted := false, completedAt := now, expires := ExpiryFor(b.safety, b.destination, days, now))
  }

  ghost function Next(jobs: seq<Backup>, step: Step): seq<Backup> {
    match step
    case Complete(b, days, now) => if FreshPk(jobs, b.pk) then jobs + [Completion(b, days, now)] else jobs
    case Sweep(destinations, at, inUse, failing) => Swept(jobs, destinations, at, inUse, failing)
  }

  ghost function Run(jobs: seq<Backup>, steps: seq<Step>): seq<Backup> {
    if steps == [] then jobs else Next(Run(jobs, steps[..|steps| - 1]), steps[|steps| - 1])
  }

  /** A safety backup at a saved destination lasts as many days as are configured when it completes, or for ever without. */
  lemma SafetyBackupLasts(
      jobs: seq<Backup>, b: Backup, days: int, completed: int, destinations: Destinations, now: int, inUse: set<Id>,
      failing: set<Id>, i: nat)
    requires Sound(jobs) && i < |jobs| && jobs[i] == Completion(b, days, completed) && b.safety
    requires b.pk !in inUse && b.pk !in failing
    ensures Swept(jobs, destinations, now, inUse, failing)[i].deleted <==>
            b.destination.Some? && days > 0 && completed + days <= now
  {
    SweepExpiresByDate(jobs, destinations, now, inUse, failing, i);
  }

  /** A destination holds a routine backup of a kind. */
  ghost predicate Holds(jobs: seq<Backup>, d: Id, kind: Kind) {
    exists b :: b in jobs && IsCandidate(b, d) && b.kind == kind
  }

  lemma NextSound(jobs: seq<Backup>, step: Step)
    requires Sound(jobs)
    ensures Sound(Next(jobs, step))
  {
    match step
    case Complete(b, days, now) =>
      if FreshPk(jobs, b.pk) {
        assert forall i | 0 <= i < |jobs| :: jobs[i] in jobs;
      }
    case Sweep(destinations, at, inUse, failing) => SweptSound(jobs, destinations, at, inUse, failing);
  }

  lemma {:induction false} NoneBefore(s: seq<Backup>, n: nat, kind: Kind)
    requires n <= |s| && forall i | 0 <= i < n :: s[i].kind != kind
    ensures KindCount(s[..n], kind) == 0
  {
    if n > 0 {
      NoneBefore(s, n - 1, kind);
      assert s[..n][..n - 1] == s[..n - 1];
    }
  }

  lemma FirstOfKind(s: seq<Backup>, kind: Kind, x: Backup) returns (i: nat)
    requires x in s && x.kind == kind
    ensures i < |s| && s[i].kind == kind && forall j | 0 <= j < i :: s[j].kind != kind
  {
    var k :| 0 <= k < |s| && s[k] == x;
    i := 0;
    while s[i].kind != kind
      invariant 0 <= i <= k && forall j | 0 <= j < i :: s[j].kind != kind
      decreases k - i
    {
      i := i + 1;
    }
  }

  /** The newest routine backup of a kind is never beyond retention. */
  lemma NewestSurvives(jobs: seq<Backup>, destinations: Destinations, inUse: set<Id>, d: Id, kind: Kind)
    returns (b: Backup)
    requires DistinctPks(jobs) && Holds(jobs, d, kind)
    ensures b in jobs && IsCandidate(b, d) && b.kind == kind
    ensures !BeyondRetention(jobs, destinations, inUse, b.pk)
  {
    var s := Candidates(jobs, d);
    var x :| x in jobs && IsCandidate(x, d) && x.kind == kind;
    var i := FirstOfKind(s, kind, x);
    b := s[i];
    assert b in s;
    NoneBefore(s, i, kind);
    forall e ensures !DoomedAtDestination(jobs, destinations, inUse, e, b.pk) {
      NotDoomed(jobs, destinations, inUse, d, e, b, i);
    }
  }

  lemma NotDoomed(jobs: seq<Backup>, destinations: Destinations, inUse: set<Id>, d: Id, e: Id, b: Backup, i: nat)
    requires DistinctPks(jobs) && i < |Candidates(jobs, d)| && Candidates(jobs, d)[i] == b
    requires KindCount(Candidates(jobs, d)[..i], b.kind) == 0
    ensures !DoomedAtDestination(jobs, destinations, inUse, e, b.pk)
  {
    var s := Candidates(jobs, d);
    assert b in s;
    if DoomedAtDestination(jobs, destinations, inUse, e, b.pk) {
      var x := DoomedIsCandidate(jobs, destinations, inUse, e, b.pk);
      SamePkSameBackup(jobs, x, b);
      assert e == d;
      var k: nat :| k < |s| && s[k].pk == b.pk && DoomedAt(s, destinations[d], inUse, k);
      SelectDistinct(jobs, d);
      SortDistinct(Select(jobs, d));
      assert false;
    }
  }

  lemma StepKeepsOne(jobs: seq<Backup>, step: Step, d: Id, kind: Kind)
    requires Sound(jobs) && Holds(jobs, d, kind)
    ensures Holds(Next(jobs, step), d, kind)
  {
    match step
    case Complete(b, days, now) =>
      var x :| x in jobs && IsCandidate(x, d) && x.kind == kind;
      assert x in Next(jobs, step);
    case Sweep(destinations, at, inUse, failing) =>
      var left := AfterExpiry(jobs, at, inUse, failing);
      MarkKeepsSound(jobs, Reached(ExpiredPks(jobs, at, inUse), failing));
      ExpiryKeepsCandidates(jobs, at, inUse, failing, d);
      var x :| x in jobs && IsCandidate(x, d) && x.kind == kind;
      assert x in Select(left, d);
      var b := NewestSurvives(left, destinations, inUse, d, kind);
      var i :| 0 <= i < |left| && left[i] == b;
      assert Swept(jobs, destinations, at, inUse, failing)[i] == b;
  }

  /**
   * Over any run of completions and sweeps, under any retention settings and snapshots and with any files unreachable,
   * a destination that once held a routine backup of a kind always holds one.
   */
  lemma {:induction false} AlwaysKeepsOne(first: seq<Step>, rest: seq<Step>, d: Id, kind: Kind)
    requires Holds(Run([], first), d, kind)
    ensures Holds(Run([], first + rest), d, kind)
  {
    if rest == [] {
      assert first + rest == first;
    } else {
      var n := |rest| - 1;
      AlwaysKeepsOne(first, rest[..n], d, kind);
      RunSound(first + rest[..n]);
      StepKeepsOne(Run([], first + rest[..n]), rest[n], d, kind);
      RunStep(first, rest);
    }
  }

  lemma RunStep(first: seq<Step>, rest: seq<Step>)
    requires rest != []
    ensures Run([], first + rest) == Next(Run([], first + rest[..|rest| - 1]), rest[|rest| - 1])
  {
    InitOfConcat(first, rest);
  }

  lemma InitOfConcat<T>(a: seq<T>, b: seq<T>)
    requires b != []
    ensures (a + b)[..|a + b| - 1] == a + b[..|b| - 1] && (a + b)[|a + b| - 1] == b[|b| - 1]
  {
  }

  lemma {:induction false} RunSound(steps: seq<Step>)
    ensures Sound(Run([], steps))
  {
    if steps != [] {
      RunSound(steps[..|steps| - 1]);
      NextSound(Run([], steps[..|steps| - 1]), steps[|steps| - 1]);
    }
  }
}
