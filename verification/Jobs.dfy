/** The backup and restore job protocol: guarded updates of job rows by many workers, a sweeper and the web layer. */
module Jobs {
  import opened Outcomes

  type Id = nat

  datatype Status = Queued | Running | Completed | Failed

  predicate Terminal(status: Status) {
    status == Completed || status == Failed
  }

  /** A job row. `artifact` is what publication stores: the archive of a backup, the plan of a restore. */
  datatype Row<A> = Row(
    status: Status, artifact: Option<A>, artifactDeleted: bool, verifyStarted: Option<int>, verificationOk: Option<bool>)

  type Rows<A> = map<Id, Row<A>>

  // ---- The guarded updates ----

  function Create<A>(rows: Rows<A>, id: Id): Rows<A> {
    if id in rows then rows else rows[id := Row(Queued, None, false, None, None)]
  }

  predicate Is<A>(rows: Rows<A>, id: Id, status: Status) {
    id in rows && rows[id].status == status
  }

  /** Duplicate delivery claims once: only a queued row starts running. */
  function Claim<A>(rows: Rows<A>, id: Id): Rows<A> {
    if Is(rows, id, Queued) then rows[id := rows[id].(status := Running)] else rows
  }

  /** A late completion cannot overwrite a row somebody else already failed. */
  function Publish<A>(rows: Rows<A>, id: Id, artifact: A): Rows<A> {
    if Is(rows, id, Running) then rows[id := rows[id].(status := Completed, artifact := Some(artifact))] else rows
  }

  /** Move a row to failed only from the given status. */
  function FailFrom<A>(rows: Rows<A>, id: Id, status: Status): Rows<A> {
    if Is(rows, id, status) then rows[id := rows[id].(status := Failed)] else rows
  }

  /** The web layer's answer to a broker that did not accept the job: not guarded on the status. */
  function FailAlways<A>(rows: Rows<A>, id: Id): Rows<A> {
    if id in rows then rows[id := rows[id].(status := Failed)] else rows
  }

  predicate Verifiable<A>(rows: Rows<A>, id: Id) {
    Is(rows, id, Completed) && !rows[id].artifactDeleted && rows[id].verifyStarted.None?
  }

  function ClaimVerification<A>(rows: Rows<A>, id: Id, now: int): Rows<A> {
    if Verifiable(rows, id) then rows[id := rows[id].(verifyStarted := Some(now))] else rows
  }

  predicate HoldsClaim<A>(rows: Rows<A>, id: Id, claim: int) {
    id in rows && rows[id].verifyStarted == Some(claim)
  }

  function PublishVerification<A>(rows: Rows<A>, id: Id, claim: int, ok: bool): Rows<A> {
    if HoldsClaim(rows, id, claim)
    then rows[id := rows[id].(verifyStarted := None, verificationOk := Some(ok))] else rows
  }

  predicate Claimed<A>(rows: Rows<A>, id: Id) {
    id in rows && rows[id].verifyStarted.Some?
  }

  /** The sweep gives up a dead verification claim and records the check as failed. */
  function SweepClaim<A>(rows: Rows<A>, id: Id): Rows<A> {
    if Claimed(rows, id) then rows[id := rows[id].(verifyStarted := None, verificationOk := Some(false))] else rows
  }

  /** The web layer drops the claim of a verification that could not be queued. */
  function DropClaim<A>(rows: Rows<A>, id: Id): Rows<A> {
    if id in rows then rows[id := rows[id].(verifyStarted := None)] else rows
  }

  function DeleteArtifact<A>(rows: Rows<A>, id: Id): Rows<A> {
    if id in rows then rows[id := rows[id].(artifactDeleted := true)] else rows
  }

  /** What the sweep does with the stalled rows it read: each is failed unless its status moved on meanwhile. */
  function FailSeen<A>(rows: Rows<A>, seen: seq<(Id, Status)>): Rows<A> {
    if seen == [] then rows else FailFrom(FailSeen(rows, seen[..|seen| - 1]), seen[|seen| - 1].0, seen[|seen| - 1].1)
  }

  /** The job table, updated one guarded statement at a time; each answers whether a row matched. */
  class JobTable<A> {
    var rows: Rows<A>

    constructor ()
      ensures rows == map[]
    {
      rows := map[];
    }

    method ClaimJob(id: Id) returns (claimed: bool)
      modifies this
      ensures claimed == Is(old(rows), id, Queued) && rows == Claim(old(rows), id)
      ensures claimed ==> rows == old(rows)[id := old(rows)[id].(status := Running)]
      ensures !claimed ==> rows == old(rows)
    {
      claimed := id in rows && rows[id].status == Queued;
      if claimed {
        rows := rows[id := rows[id].(status := Running)];
      }
    }

    method PublishJob(id: Id, artifact: A) returns (published: bool)
      modifies this
      ensures published == Is(old(rows), id, Running) && rows == Publish(old(rows), id, artifact)
      ensures published ==> rows == old(rows)[id := old(rows)[id].(status := Completed, artifact := Some(artifact))]
      ensures !published ==> rows == old(rows)
    {
      published := id in rows && rows[id].status == Running;
      if published {
        rows := rows[id := rows[id].(status := Completed, artifact := Some(artifact))];
      }
    }

    method MarkFailed(id: Id, status: Status) returns (changed: bool)
      modifies this
      ensures changed == Is(old(rows), id, status) && rows == FailFrom(old(rows), id, status)
      ensures changed ==> rows == old(rows)[id := old(rows)[id].(status := Failed)]
      ensures !changed ==> rows == old(rows)
    {
      changed := id in rows && rows[id].status == status;
      if changed {
        rows := rows[id := rows[id].(status := Failed)];
      }
    }

    /** Fail the stalled jobs in the order they were read; the report counts the rows that really changed. */
    method FailStalled(seen: seq<(Id, Status)>) returns (stalled: nat)
      requires forall x | x in seen :: !Terminal(x.1)
      modifies this
      ensures rows == FailSeen(old(rows), seen)
      ensures stalled == |Changed(old(rows), rows)|
      ensures rows.Keys == old(rows).Keys
      ensures forall id | id in old(rows) ::
                rows[id] == if (id, old(rows)[id].status) in seen then old(rows)[id].(status := Failed) else old(rows)[id]
    {
      stalled := 0;
      assert seen[..|seen|] == seen;
      assert Changed(rows, rows) == {};
      for i := 0 to |seen|
        invariant rows == FailSeen(old(rows), seen[..i]) && rows.Keys == old(rows).Keys
        invariant forall id | id in rows :: FailedIfSeen(old(rows)[id], rows[id], id, seen[..i])
        invariant stalled == |Changed(old(rows), rows)|
      {
        assert seen[..i + 1][..i] == seen[..i] && seen[..i + 1] == seen[..i] + [seen[i]] && seen[i] in seen;
        ghost var before := rows;
        var changed := MarkFailed(seen[i].0, seen[i].1);
        if changed {
          ChangedOneMore(old(rows), before, seen[i].0, seen[i].1);
          stalled := stalled + 1;
        }
      }
    }
  }

  /** A row is failed exactly if it was seen in the status it had. */
  ghost predicate FailedIfSeen<A>(before: Row<A>, after: Row<A>, id: Id, seen: seq<(Id, Status)>) {
    after == if (id, before.status) in seen then before.(status := Failed) else before
  }

  /** The rows whose status differs. */
  ghost function Changed<A>(rows: Rows<A>, after: Rows<A>): set<Id> {
    set id | id in rows && id in after && after[id].status != rows[id].status
  }

  lemma ChangedOneMore<A>(rows: Rows<A>, before: Rows<A>, id: Id, status: Status)
    requires rows.Keys == before.Keys && Is(before, id, status) && status != Failed
    requires before[id] == rows[id] || before[id].status == Failed
    ensures |Changed(rows, FailFrom(before, id, status))| == |Changed(rows, before)| + 1
  {
    assert id !in Changed(rows, before);
    assert Changed(rows, FailFrom(before, id, status)) == Changed(rows, before) + {id};
  }

  // ---- The protocol ----

  type WorkerId = nat

  datatype Worker<A> =
    | Idle
    | Building(job: Id)
    | Stored(job: Id, archive: A)
    | Sweeping(seen: seq<(Id, Status)>)
    | Verifying(job: Id, claim: int)

  /** What happened, in order: the guarded updates that matched, and the archives workers stored. */
  datatype Event<A> =
    | JobClaimed(job: Id, worker: WorkerId)
    | ArchiveStored(job: Id, worker: WorkerId, archive: A)
    | JobPublished(job: Id, worker: WorkerId, archive: A)
    | VerifyClaimed(job: Id, claim: int)
    | VerifyStarted(job: Id, worker: WorkerId, claim: int)
    | VerifyPublished(job: Id, worker: WorkerId, claim: int, ok: bool)
    | VerifyGivenUp(job: Id)
    | VerifyDropped(job: Id)

  datatype State<A> = State(rows: Rows<A>, workers: map<WorkerId, Worker<A>>, log: seq<Event<A>>)

  /** Every atomic step anybody can take; steps that do not apply leave the state unchanged. */
  datatype Step<A> =
    | CreateJob(job: Id)
    | Deliver(worker: WorkerId, job: Id)
    | Store(worker: WorkerId, archive: A)
    | PublishStored(worker: WorkerId)
    | FailOwn(worker: WorkerId)
    | Crash(worker: WorkerId)
    | EnqueueFailed(job: Id)
    | ViewEnqueueFailed(job: Id)
    | SweepRead(worker: WorkerId, jobs: seq<Id>)
    | SweepWrite(worker: WorkerId)
    | TakeVerification(job: Id, now: int)
    | StartVerification(worker: WorkerId, job: Id)
    | FinishVerification(worker: WorkerId, ok: bool)
    | SweepDeadClaim(job: Id)
    | VerifyEnqueueFailed(job: Id)
    | Delete(job: Id)

  function WorkerOf<A>(s: State<A>, w: WorkerId): Worker<A> {
    if w in s.workers then s.workers[w] else Idle
  }

  function SetWorker<A>(s: State<A>, w: WorkerId, x: Worker<A>): State<A> {
    s.(workers := s.workers[w := x])
  }

  /** The rows of the listed jobs that are queued or running now. */
  function Stalled<A>(rows: Rows<A>, jobs: seq<Id>): (r: seq<(Id, Status)>)
    ensures forall x | x in r :: !Terminal(x.1)
  {
    if jobs == [] then []
    else
      (if Is(rows, jobs[0], Queued) || Is(rows, jobs[0], Running) then [(jobs[0], rows[jobs[0]].status)] else [])
      + Stalled(rows, jobs[1..])
  }

  function Next<A>(s: State<A>, step: Step<A>): State<A> {
    match step
    case CreateJob(job) => s.(rows := Create(s.rows, job))
    case Deliver(w, job) =>
      if WorkerOf(s, w) == Idle && Is(s.rows, job, Queued)
      then SetWorker(s, w, Building(job)).(rows := Claim(s.rows, job), log := s.log + [JobClaimed(job, w)])
      else s
    case Store(w, archive) =>
      if WorkerOf(s, w).Building?
      then
        var job := WorkerOf(s, w).job;
        SetWorker(s, w, Stored(job, archive)).(log := s.log + [ArchiveStored(job, w, archive)])
      else s
    case PublishStored(w) =>
      if WorkerOf(s, w).Stored?
      then
        var x := WorkerOf(s, w);
        SetWorker(s, w, Idle).(
          rows := Publish(s.rows, x.job, x.archive),
          log := if Is(s.rows, x.job, Running) then s.log + [JobPublished(x.job, w, x.archive)] else s.log)
      else s
    case FailOwn(w) =>
      if WorkerOf(s, w).Building? || WorkerOf(s, w).Stored?
      then SetWorker(s, w, Idle).(rows := FailFrom(s.rows, WorkerOf(s, w).job, Running)) else s
    case Crash(w) => SetWorker(s, w, Idle)
    case EnqueueFailed(job) => s.(rows := FailFrom(s.rows, job, Queued))
    case ViewEnqueueFailed(job) => s.(rows := FailAlways(s.rows, job))
    case SweepRead(w, jobs) =>
      if WorkerOf(s, w) == Idle then SetWorker(s, w, Sweeping(Stalled(s.rows, jobs))) else s
    case SweepWrite(w) =>
      if WorkerOf(s, w).Sweeping? && WorkerOf(s, w).seen != []
      then
        var seen := WorkerOf(s, w).seen;
        SetWorker(s, w, Sweeping(seen[1..])).(rows := FailFrom(s.rows, seen[0].0, seen[0].1))
      else s
    case TakeVerification(job, now) =>
      s.(rows := ClaimVerification(s.rows, job, now),
         log := if Verifiable(s.rows, job) then s.log + [VerifyClaimed(job, now)] else s.log)
    case StartVerification(w, job) =>
      if WorkerOf(s, w) == Idle && Claimed(s.rows, job)
      then
        var claim := s.rows[job].verifyStarted.value;
        SetWorker(s, w, Verifying(job, claim)).(log := s.log + [VerifyStarted(job, w, claim)])
      else s
    case FinishVerification(w, ok) =>
      if WorkerOf(s, w).Verifying?
      then
        var x := WorkerOf(s, w);
        SetWorker(s, w, Idle).(
          rows := PublishVerification(s.rows, x.job, x.claim, ok),
          log := if HoldsClaim(s.rows, x.job, x.claim) then s.log + [VerifyPublished(x.job, w, x.claim, ok)] else s.log)
      else s
    case SweepDeadClaim(job) =>
      s.(rows := SweepClaim(s.rows, job), log := if Claimed(s.rows, job) then s.log + [VerifyGivenUp(job)] else s.log)
    case VerifyEnqueueFailed(job) =>
      s.(rows := DropClaim(s.rows, job), log := if Claimed(s.rows, job) then s.log + [VerifyDropped(job)] else s.log)
    case Delete(job) => s.(rows := DeleteArtifact(s.rows, job))
  }

  function Run<A>(s: State<A>, steps: seq<Step<A>>): State<A> {
    if steps == [] then s else Next(Run(s, steps[..|steps| - 1]), steps[|steps| - 1])
  }

  function Init<A>(): State<A> {
    State(map[], map[], [])
  }

  // ---- What every run keeps ----

  function Count<A>(log: seq<Event<A>>, hit: Event<A> -> bool): nat {
    if log == [] then 0 else Count(log[..|log| - 1], hit) + if hit(log[|log| - 1]) then 1 else 0
  }

  lemma CountSnoc<A>(log: seq<Event<A>>, e: Event<A>, hit: Event<A> -> bool)
    ensures Count(log + [e], hit) == Count(log, hit) + if hit(e) then 1 else 0
  {
    assert (log + [e])[..|log|] == log;
  }

  function Claims<A>(job: Id): Event<A> -> bool {
    (e: Event<A>) => e.JobClaimed? && e.job == job
  }

  function Stores<A>(job: Id): Event<A> -> bool {
    (e: Event<A>) => e.ArchiveStored? && e.job == job
  }

  function VerifyClaims<A>(job: Id): Event<A> -> bool {
    (e: Event<A>) => e.VerifyClaimed? && e.job == job
  }

  function VerifyEnds<A>(job: Id): Event<A> -> bool {
    (e: Event<A>) => (e.VerifyPublished? || e.VerifyGivenUp? || e.VerifyDropped?) && e.job == job
  }

  function VerifyResults<A>(job: Id): Event<A> -> bool {
    (e: Event<A>) => e.VerifyPublished? && e.job == job
  }

  /** A job is claimed at most once, and not at all while it does not exist or is still queued. */
  ghost predicate ClaimedOnce<A>(s: State<A>, job: Id) {
    Count(s.log, Claims(job)) <= if job in s.rows && s.rows[job].status != Queued then 1 else 0
  }

  /** An archive is stored at most once per claim of its job, and not while the job is still being built. */
  ghost predicate StoredOnce<A(!new)>(s: State<A>, job: Id) {
    && Count(s.log, Stores(job)) <= Count(s.log, Claims(job))
    && forall w :: WorkerOf(s, w) == Building(job) ==> Count(s.log, Stores(job)) == 0
  }

  /**
   * A worker that holds a job claimed it, the archive it holds is one it stored, and a sweeper has read only jobs that
   * were not finished.
   */
  ghost predicate HolderClaimed<A>(s: State<A>, w: WorkerId) {
    match WorkerOf(s, w)
    case Building(job) => JobClaimed(job, w) in s.log
    case Stored(job, a) => JobClaimed(job, w) in s.log && ArchiveStored(job, w, a) in s.log
    case Sweeping(seen) => forall x | x in seen :: !Terminal(x.1)
    case _ => true
  }

  /** The artifact of a row is one that the worker who claimed the job stored. */
  ghost predicate ArtifactClaimed<A(!new)>(s: State<A>, job: Id) {
    && (job in s.rows && s.rows[job].status == Completed ==> s.rows[job].artifact.Some?)
    && (job in s.rows && s.rows[job].artifact.Some? ==>
          exists w :: JobClaimed(job, w) in s.log && ArchiveStored(job, w, s.rows[job].artifact.value) in s.log)
  }

  /** Every verification claim is either still held or was ended exactly once. */
  ghost predicate ClaimsBalance<A>(s: State<A>, job: Id) {
    Count(s.log, VerifyClaims(job)) == Count(s.log, VerifyEnds(job)) + if Claimed(s.rows, job) then 1 else 0
  }

  /** A step appends at most one event. */
  function Logged<A>(s: State<A>, step: Step<A>): Option<Event<A>> {
    match step
    case Deliver(w, job) =>
      if WorkerOf(s, w) == Idle && Is(s.rows, job, Queued) then Some(JobClaimed(job, w)) else None
    case Store(w, a) =>
      if WorkerOf(s, w).Building? then Some(ArchiveStored(WorkerOf(s, w).job, w, a)) else None
    case PublishStored(w) =>
      if WorkerOf(s, w).Stored? && Is(s.rows, WorkerOf(s, w).job, Running)
      then Some(JobPublished(WorkerOf(s, w).job, w, WorkerOf(s, w).archive)) else None
    case TakeVerification(job, now) => if Verifiable(s.rows, job) then Some(VerifyClaimed(job, now)) else None
    case StartVerification(w, job) =>
      if WorkerOf(s, w) == Idle && Claimed(s.rows, job)
      then Some(VerifyStarted(job, w, s.rows[job].verifyStarted.value)) else None
    case FinishVerification(w, ok) =>
      if WorkerOf(s, w).Verifying? && HoldsClaim(s.rows, WorkerOf(s, w).job, WorkerOf(s, w).claim)
      then Some(VerifyPublished(WorkerOf(s, w).job, w, WorkerOf(s, w).claim, ok)) else None
    case SweepDeadClaim(job) => if Claimed(s.rows, job) then Some(VerifyGivenUp(job)) else None
    case VerifyEnqueueFailed(job) => if Claimed(s.rows, job) then Some(VerifyDropped(job)) else None
    case _ => None
  }

  lemma LogStep<A>(s: State<A>, step: Step<A>, hit: Event<A> -> bool)
    ensures
      var e := Logged(s, step);
      && Next(s, step).log == (if e.Some? then s.log + [e.value] else s.log)
      && Count(Next(s, step).log, hit) == Count(s.log, hit) + if e.Some? && hit(e.value) then 1 else 0
  {
    var e := Logged(s, step);
    if e.Some? { CountSnoc(s.log, e.value, hit); }
  }

  lemma StepClaimedOnce<A>(s: State<A>, step: Step<A>, job: Id)
    requires ClaimedOnce(s, job)
    ensures ClaimedOnce(Next(s, step), job)
  {
    LogStep(s, step, Claims(job));
  }

  /** A worker is building a job after a step if it was and did not store, or if the step claimed it. */
  lemma BuildingAfter<A(!new)>(s: State<A>, step: Step<A>, w: WorkerId, job: Id)
    requires WorkerOf(Next(s, step), w) == Building(job)
    ensures
      || (WorkerOf(s, w) == Building(job) && !(step.Store? && step.worker == w))
      || (Logged(s, step) == Some(JobClaimed(job, w)) && Is(s.rows, job, Queued))
  {
  }

  /** An archive is stored by a step exactly when a worker building the job stores. */
  lemma StoredBy<A(!new)>(s: State<A>, step: Step<A>, job: Id)
    ensures Logged(s, step).Some? && Stores(job)(Logged(s, step).value) <==>
            step.Store? && WorkerOf(s, step.worker) == Building(job)
    ensures Logged(s, step).Some? && Stores(job)(Logged(s, step).value) ==> !Claims(job)(Logged(s, step).value)
  {
  }

  lemma OneBuilder<A(!new)>(s: State<A>, job: Id, w: WorkerId, x: WorkerId)
    requires ClaimedOnce(s, job) && HolderClaimed(s, w) && HolderClaimed(s, x)
    requires WorkerOf(s, w) == Building(job) && WorkerOf(s, x) == Building(job)
    ensures w == x && Count(s.log, Claims(job)) == 1
  {
    EventCounts(s.log, JobClaimed(job, w), Claims(job));
    OnlyHit(s.log, JobClaimed(job, w), JobClaimed(job, x), Claims(job));
  }

  lemma StepStoredOnce<A(!new)>(s: State<A>, step: Step<A>, job: Id)
    requires StoredOnce(s, job) && ClaimedOnce(s, job) && forall w :: HolderClaimed(s, w)
    ensures StoredOnce(Next(s, step), job)
  {
    LogStep(s, step, Claims(job));
    LogStep(s, step, Stores(job));
    StoredBy(s, step, job);
    if step.Store? && WorkerOf(s, step.worker) == Building(job) {
      assert HolderClaimed(s, step.worker);
      OneBuilder(s, job, step.worker, step.worker);
    }
    forall x | WorkerOf(Next(s, step), x) == Building(job) ensures Count(Next(s, step).log, Stores(job)) == 0 {
      StillNoArchive(s, step, job, x);
    }
  }

  lemma StillNoArchive<A(!new)>(s: State<A>, step: Step<A>, job: Id, x: WorkerId)
    requires StoredOnce(s, job) && ClaimedOnce(s, job) && (forall w :: HolderClaimed(s, w))
    requires WorkerOf(Next(s, step), x) == Building(job)
    ensures Count(Next(s, step).log, Stores(job)) == 0
  {
    LogStep(s, step, Stores(job));
    StoredBy(s, step, job);
    BuildingAfter(s, step, x, job);
    if step.Store? && WorkerOf(s, step.worker) == Building(job) && WorkerOf(s, x) == Building(job) {
      assert HolderClaimed(s, step.worker) && HolderClaimed(s, x);
      OneBuilder(s, job, step.worker, x);
    }
  }

  lemma LogKeeps<A(!new)>(s: State<A>, step: Step<A>, e: Event<A>)
    requires e in s.log
    ensures e in Next(s, step).log
  {
    LogStep(s, step, Claims(0));
  }

  /** Only a worker's own step changes what it holds. */
  lemma WorkerKeeps<A(!new)>(s: State<A>, step: Step<A>, w: WorkerId)
    ensures WorkerOf(Next(s, step), w) == WorkerOf(s, w) || (HasWorker(step) && step.worker == w)
  {
  }

  predicate HasWorker<A>(step: Step<A>) {
    || step.Deliver? || step.Store? || step.PublishStored? || step.FailOwn? || step.Crash?
    || step.SweepRead? || step.SweepWrite? || step.StartVerification? || step.FinishVerification?
  }

  lemma StepHolder<A(!new)>(s: State<A>, step: Step<A>, w: WorkerId)
    requires HolderClaimed(s, w)
    ensures HolderClaimed(Next(s, step), w)
  {
    var x := WorkerOf(s, w);
    if x.Building? { LogKeeps(s, step, JobClaimed(x.job, w)); }
    if x.Stored? {
      LogKeeps(s, step, JobClaimed(x.job, w));
      LogKeeps(s, step, ArchiveStored(x.job, w, x.archive));
    }
    WorkerKeeps(s, step, w);
  }

  /** Only publication changes an artifact. */
  lemma ArtifactKeeps<A(!new)>(s: State<A>, step: Step<A>, job: Id)
    requires job in Next(s, step).rows && Next(s, step).rows[job].artifact.Some?
    ensures
      var a := Next(s, step).rows[job].artifact;
      || (job in s.rows && s.rows[job].artifact == a)
      || (step.PublishStored? && WorkerOf(s, step.worker) == Stored(job, a.value))
  {
  }

  lemma StepArtifact<A(!new)>(s: State<A>, step: Step<A>, job: Id)
    requires ArtifactClaimed(s, job) && forall w :: HolderClaimed(s, w)
    ensures ArtifactClaimed(Next(s, step), job)
  {
    var t := Next(s, step);
    if job in t.rows && t.rows[job].artifact.Some? {
      var a := t.rows[job].artifact.value;
      ArtifactKeeps(s, step, job);
      var w: WorkerId;
      if job in s.rows && s.rows[job].artifact == Some(a) {
        w :| JobClaimed(job, w) in s.log && ArchiveStored(job, w, a) in s.log;
      } else {
        w := step.worker;
        assert HolderClaimed(s, w);
      }
      LogKeeps(s, step, JobClaimed(job, w));
      LogKeeps(s, step, ArchiveStored(job, w, a));
    }
  }

  /** A job is claimed for verification after a step exactly when it was and the step ended nothing, or the step claimed it. */
  lemma ClaimedAfter<A>(s: State<A>, step: Step<A>, job: Id)
    ensures
      var e := Logged(s, step);
      && (e.Some? && VerifyClaims(job)(e.value) ==> !Claimed(s.rows, job) && Claimed(Next(s, step).rows, job))
      && (e.Some? && VerifyEnds(job)(e.value) ==> Claimed(s.rows, job) && !Claimed(Next(s, step).rows, job))
      && ((e.None? || (!VerifyClaims(job)(e.value) && !VerifyEnds(job)(e.value))) ==>
            (Claimed(Next(s, step).rows, job) <==> Claimed(s.rows, job)))
  {
  }

  lemma StepBalance<A>(s: State<A>, step: Step<A>, job: Id)
    requires ClaimsBalance(s, job)
    ensures ClaimsBalance(Next(s, step), job)
  {
    ClaimedAfter(s, step, job);
    LogStep(s, step, VerifyClaims(job));
    LogStep(s, step, VerifyEnds(job));
  }

  lemma {:induction false} RunKeeps<A(!new)>(steps: seq<Step<A>>, job: Id, w: WorkerId)
    ensures
      var s := Run(Init<A>(), steps);
      && ClaimedOnce(s, job) && HolderClaimed(s, w) && StoredOnce(s, job) && ArtifactClaimed(s, job) && ClaimsBalance(s, job)
  {
    if steps != [] {
      var n := |steps| - 1;
      var s := Run(Init<A>(), steps[..n]);
      RunKeeps(steps[..n], job, w);
      forall x ensures HolderClaimed(s, x) {
        RunKeeps(steps[..n], job, x);
      }
      StepClaimedOnce(s, steps[n], job);
      StepStoredOnce(s, steps[n], job);
      StepHolder(s, steps[n], w);
      StepArtifact(s, steps[n], job);
      StepBalance(s, steps[n], job);
    }
  }

  // ---- Claims ----

  lemma {:induction false} EventCounts<A>(log: seq<Event<A>>, e: Event<A>, hit: Event<A> -> bool)
    requires e in log && hit(e)
    ensures Count(log, hit) >= 1
  {
    var n := |log| - 1;
    assert log == log[..n] + [log[n]];
    if log[n] != e {
      EventCounts(log[..n], e, hit);
    }
  }

  /** Two different hits in a log are two. */
  lemma {:induction false} OnlyHit<A>(log: seq<Event<A>>, e: Event<A>, f: Event<A>, hit: Event<A> -> bool)
    requires e in log && f in log && hit(e) && hit(f) && Count(log, hit) <= 1
    ensures e == f
  {
    var n := |log| - 1;
    assert log == log[..n] + [log[n]];
    if log[n] != e && log[n] != f {
      OnlyHit(log[..n], e, f, hit);
    } else if e != f {
      var other := if log[n] == e then f else e;
      assert other in log[..n];
      EventCounts(log[..n], other, hit);
      assert false;
    }
  }

  /**
   * In every interleaving of deliveries, crashes, enqueue failures and sweeps, a job is claimed by at most one worker,
   * and so at most one worker ever works on it.
   */
  lemma OneClaimant<A(!new)>(steps: seq<Step<A>>, job: Id, w: WorkerId, x: WorkerId)
    ensures
      var s := Run(Init<A>(), steps);
      && Count(s.log, Claims(job)) <= 1
      && (JobClaimed(job, w) in s.log && JobClaimed(job, x) in s.log ==> w == x)
      && (WorksOn(s, w, job) && WorksOn(s, x, job) ==> w == x)
  {
    var s := Run(Init<A>(), steps);
    RunKeeps(steps, job, w);
    RunKeeps(steps, job, x);
    if JobClaimed(job, w) in s.log && JobClaimed(job, x) in s.log {
      OnlyHit(s.log, JobClaimed(job, w), JobClaimed(job, x), Claims(job));
    }
  }

  predicate WorksOn<A>(s: State<A>, w: WorkerId, job: Id) {
    var x := WorkerOf(s, w);
    (x.Building? || x.Stored?) && x.job == job
  }

  /** In every run at most one archive is stored for a job. */
  lemma OneArchive<A(!new)>(steps: seq<Step<A>>, job: Id, w: WorkerId, a: A, x: WorkerId, b: A)
    ensures
      var log := Run(Init<A>(), steps).log;
      && Count(log, Stores(job)) <= 1
      && (ArchiveStored(job, w, a) in log && ArchiveStored(job, x, b) in log ==> w == x && a == b)
  {
    var log := Run(Init<A>(), steps).log;
    RunKeeps(steps, job, w);
    if ArchiveStored(job, w, a) in log && ArchiveStored(job, x, b) in log {
      OnlyHit(log, ArchiveStored(job, w, a), ArchiveStored(job, x, b), Stores(job));
    }
  }

  /** A completed row carries the one archive that was stored for it, by its one claimant. */
  lemma CompletedCarriesItsArchive<A(!new)>(steps: seq<Step<A>>, job: Id)
    ensures
      var s := Run(Init<A>(), steps);
      Is(s.rows, job, Completed) ==>
        && s.rows[job].artifact.Some? && Count(s.log, Stores(job)) == 1 && Count(s.log, Claims(job)) == 1
        && exists w :: JobClaimed(job, w) in s.log && ArchiveStored(job, w, s.rows[job].artifact.value) in s.log
  {
    var s := Run(Init<A>(), steps);
    RunKeeps(steps, job, 0);
    if Is(s.rows, job, Completed) {
      var a := s.rows[job].artifact.value;
      var w :| JobClaimed(job, w) in s.log && ArchiveStored(job, w, a) in s.log;
      EventCounts(s.log, ArchiveStored(job, w, a), Stores(job));
    }
  }

  // ---- Terminal states ----

  /**
   * A step changes the status or artifact of a finished row in exactly one case: the web layer's unguarded enqueue
   * failure hitting a completed job.
   */
  lemma TerminalChangesIff<A(!new)>(s: State<A>, step: Step<A>, job: Id)
    requires job in s.rows && Terminal(s.rows[job].status) && forall w :: HolderClaimed(s, w)
    ensures job in Next(s, step).rows
    ensures
      var row, after := s.rows[job], Next(s, step).rows[job];
      (after.status != row.status || after.artifact != row.artifact) <==>
      (step == ViewEnqueueFailed(job) && row.status == Completed)
  {
    if step.SweepWrite? {
      assert HolderClaimed(s, step.worker);
    }
  }

  lemma {:induction false} RunSplit<A(!new)>(s: State<A>, first: seq<Step<A>>, rest: seq<Step<A>>)
    ensures Run(s, first + rest) == Run(Run(s, first), rest)
  {
    if rest == [] {
      assert first + rest == first;
    } else {
      var n := |rest| - 1;
      assert (first + rest)[..|first| + n] == first + rest[..n];
      RunSplit(s, first, rest[..n]);
    }
  }

  ghost predicate SameResult<A>(rows: Rows<A>, after: Rows<A>, job: Id)
    requires job in rows
  {
    job in after && after[job].status == rows[job].status && after[job].artifact == rows[job].artifact
  }

  lemma TerminalStep<A(!new)>(steps: seq<Step<A>>, step: Step<A>, job: Id)
    requires
      var s := Run(Init<A>(), steps);
      job in s.rows && Terminal(s.rows[job].status) && step != ViewEnqueueFailed(job)
    ensures SameResult(Run(Init<A>(), steps).rows, Next(Run(Init<A>(), steps), step).rows, job)
  {
    forall w ensures HolderClaimed(Run(Init<A>(), steps), w) {
      RunKeeps(steps, job, w);
    }
    TerminalChangesIff(Run(Init<A>(), steps), step, job);
  }

  /** So once a row is finished it keeps its status and artifact through every run without that failure. */
  lemma {:induction false} TerminalStays<A(!new)>(first: seq<Step<A>>, rest: seq<Step<A>>, job: Id)
    requires job in Run(Init<A>(), first).rows && Terminal(Run(Init<A>(), first).rows[job].status)
    requires ViewEnqueueFailed(job) !in rest
    ensures SameResult(Run(Init<A>(), first).rows, Run(Init<A>(), first + rest).rows, job)
  {
    if rest == [] {
      assert first + rest == first;
    } else {
      var n := |rest| - 1;
      assert (first + rest)[..|first| + n] == first + rest[..n];
      TerminalStays(first, rest[..n], job);
      TerminalStep(first + rest[..n], rest[n], job);
    }
  }

  lemma FinishedRun<A(!new)>(archive: A) returns (s: State<A>)
    ensures s == Run(Init<A>(), [CreateJob(1), Deliver(7, 1), Store(7, archive), PublishStored(7)])
    ensures Is(s.rows, 1, Completed)
  {
    var steps := [CreateJob(1), Deliver(7, 1), Store(7, archive), PublishStored(7)];
    RunIs(Init<A>(), steps, 1);
    RunIs(Init<A>(), steps, 2);
    RunIs(Init<A>(), steps, 3);
    RunIs(Init<A>(), steps, 4);
    var s1 := Next(Init<A>(), CreateJob(1));
    var s2 := Next(s1, Deliver(7, 1));
    assert WorkerOf(s2, 7) == Building(1) && Is(s2.rows, 1, Running);
    var s3 := Next(s2, Store(7, archive));
    assert WorkerOf(s3, 7) == Stored(1, archive) && s3.rows == s2.rows;
    s := Next(s3, PublishStored(7));
    assert steps[..4] == steps;
  }

  /** A delivery that the broker accepted before it reported a failure: the finished backup ends up failed. */
  lemma UnguardedFailureOverwrites<A(!new)>(archive: A)
    ensures
      var done := [CreateJob(1), Deliver(7, 1), Store(7, archive), PublishStored(7)];
      && Is(Run(Init<A>(), done).rows, 1, Completed)
      && Is(Run(Init<A>(), done + [ViewEnqueueFailed(1)]).rows, 1, Failed)
  {
    var done := [CreateJob(1), Deliver(7, 1), Store(7, archive), PublishStored(7)];
    var s := FinishedRun(archive);
    RunSplit(Init<A>(), done, [ViewEnqueueFailed(1)]);
    RunIs(s, [ViewEnqueueFailed(1)], 1);
  }

  lemma RunIs<A>(s: State<A>, steps: seq<Step<A>>, n: nat)
    requires 0 < n <= |steps|
    ensures Run(s, steps[..n]) == Next(Run(s, steps[..n - 1]), steps[n - 1])
  {
    assert steps[..n][..n - 1] == steps[..n - 1];
  }

  // ---- Verification ----

  lemma {:induction false} CountLe<A(!new)>(log: seq<Event<A>>, f: Event<A> -> bool, g: Event<A> -> bool)
    requires forall e :: f(e) ==> g(e)
    ensures Count(log, f) <= Count(log, g)
  {
    if log != [] {
      CountLe(log[..|log| - 1], f, g);
    }
  }

  /** Every verification claim is still held or was ended once, so no more results are published than claims taken. */
  lemma OneResultPerClaim<A(!new)>(steps: seq<Step<A>>, job: Id)
    ensures
      var s := Run(Init<A>(), steps);
      && Count(s.log, VerifyClaims(job)) == Count(s.log, VerifyEnds(job)) + (if Claimed(s.rows, job) then 1 else 0)
      && Count(s.log, VerifyResults(job)) <= Count(s.log, VerifyClaims(job))
  {
    RunKeeps(steps, job, 0);
    CountLe(Run(Init<A>(), steps).log, VerifyResults(job), VerifyEnds(job));
  }

  // ---- Which claim a result ends ----

  ghost predicate Unended<A>(log: seq<Event<A>>, job: Id, from: nat, to: nat)
    requires to <= |log|
  {
    forall k | from < k < to :: !VerifyEnds(job)(log[k])
  }

  /** The claim taken at position i is still open. */
  ghost predicate OpenSince<A>(log: seq<Event<A>>, job: Id, claim: int, i: nat) {
    i < |log| && log[i] == VerifyClaimed(job, claim) && Unended(log, job, i, |log|)
  }

  /** The verifier started at position j while the claim taken at position i was open. */
  ghost predicate StartedUnder<A>(log: seq<Event<A>>, job: Id, w: WorkerId, claim: int, i: nat, j: nat) {
    i < j < |log| && log[i] == VerifyClaimed(job, claim) && log[j] == VerifyStarted(job, w, claim) && Unended(log, job, i, j)
  }

  ghost predicate ClaimLogged<A>(s: State<A>, job: Id) {
    Claimed(s.rows, job) ==> exists i: nat :: OpenSince(s.log, job, s.rows[job].verifyStarted.value, i)
  }

  ghost predicate VerifierStarted<A>(s: State<A>, w: WorkerId) {
    var x := WorkerOf(s, w);
    x.Verifying? ==> exists i: nat, j: nat :: StartedUnder(s.log, x.job, w, x.claim, i, j)
  }

  /** A claim that a step leaves in place was not ended by it; a new one is logged. */
  lemma ClaimStep<A(!new)>(s: State<A>, step: Step<A>, job: Id)
    requires Claimed(Next(s, step).rows, job)
    ensures
      var e, claim := Logged(s, step), Next(s, step).rows[job].verifyStarted.value;
      || e == Some(VerifyClaimed(job, claim))
      || (HoldsClaim(s.rows, job, claim) && (e.Some? ==> !VerifyEnds(job)(e.value)))
  {
  }

  lemma StepClaimLogged<A(!new)>(s: State<A>, step: Step<A>, job: Id)
    requires ClaimLogged(s, job)
    ensures ClaimLogged(Next(s, step), job)
  {
    var t := Next(s, step);
    LogStep(s, step, Claims(job));
    if Claimed(t.rows, job) {
      var claim := t.rows[job].verifyStarted.value;
      ClaimStep(s, step, job);
      if Logged(s, step) == Some(VerifyClaimed(job, claim)) {
        assert OpenSince(t.log, job, claim, |s.log|);
      } else {
        var i: nat :| OpenSince(s.log, job, claim, i);
        assert OpenSince(t.log, job, claim, i);
      }
    }
  }

  lemma StartedStays<A(!new)>(log: seq<Event<A>>, more: seq<Event<A>>, job: Id, w: WorkerId, claim: int, i: nat, j: nat)
    requires StartedUnder(log, job, w, claim, i, j)
    ensures StartedUnder(log + more, job, w, claim, i, j)
  {
  }

  /** A verifier is new only when it starts, under the claim it finds. */
  lemma VerifierStep<A(!new)>(s: State<A>, step: Step<A>, w: WorkerId)
    requires WorkerOf(Next(s, step), w).Verifying?
    ensures
      var x := WorkerOf(Next(s, step), w);
      || WorkerOf(s, w) == x
      || (HoldsClaim(s.rows, x.job, x.claim) && Logged(s, step) == Some(VerifyStarted(x.job, w, x.claim)))
  {
  }

  lemma StartedNow<A(!new)>(log: seq<Event<A>>, job: Id, w: WorkerId, claim: int, i: nat)
    requires OpenSince(log, job, claim, i)
    ensures StartedUnder(log + [VerifyStarted(job, w, claim)], job, w, claim, i, |log|)
  {
  }

  lemma StepVerifierStarted<A(!new)>(s: State<A>, step: Step<A>, w: WorkerId)
    requires VerifierStarted(s, w) && forall job :: ClaimLogged(s, job)
    ensures VerifierStarted(Next(s, step), w)
  {
    var x, e := WorkerOf(Next(s, step), w), Logged(s, step);
    if x.Verifying? {
      VerifierStep(s, step, w);
      LogStep(s, step, Claims(0));
      if WorkerOf(s, w) == x {
        var i: nat, j: nat :| StartedUnder(s.log, x.job, w, x.claim, i, j);
        if e.Some? { StartedStays(s.log, [e.value], x.job, w, x.claim, i, j); }
      } else {
        assert ClaimLogged(s, x.job);
        var i: nat :| OpenSince(s.log, x.job, x.claim, i);
        StartedNow(s.log, x.job, w, x.claim, i);
      }
    }
  }

  lemma {:induction false} RunVerifies<A(!new)>(steps: seq<Step<A>>, job: Id, w: WorkerId)
    ensures ClaimLogged(Run(Init<A>(), steps), job) && VerifierStarted(Run(Init<A>(), steps), w)
  {
    if steps != [] {
      var n := |steps| - 1;
      var s := Run(Init<A>(), steps[..n]);
      RunVerifies(steps[..n], job, w);
      forall x ensures ClaimLogged(s, x) {
        RunVerifies(steps[..n], x, w);
      }
      StepClaimLogged(s, steps[n], job);
      StepVerifierStarted(s, steps[n], w);
    }
  }

  /** The result at position p was published by a verifier that started under the claim it ends. */
  ghost predicate EndsItsClaim<A>(log: seq<Event<A>>, p: nat)
    requires p < |log| && log[p].VerifyPublished?
  {
    HasStart(log, log[p].job, log[p].worker, log[p].claim, p)
  }

  ghost predicate HasStart<A>(log: seq<Event<A>>, job: Id, w: WorkerId, claim: int, p: nat)
    requires p <= |log|
  {
    exists i: nat, j: nat :: j < p && StartedUnder(log, job, w, claim, i, j) && Unended(log, job, i, p)
  }

  /** No two claims of the job were taken at this time. */
  ghost predicate ClaimedAtOnce<A>(log: seq<Event<A>>, job: Id, claim: int) {
    forall i, k | 0 <= i < |log| && 0 <= k < |log| && log[i] == VerifyClaimed(job, claim) && log[k] == VerifyClaimed(job, claim) ::
      i == k
  }

  lemma EndsStays<A(!new)>(log: seq<Event<A>>, more: seq<Event<A>>, p: nat)
    requires p < |log| && log[p].VerifyPublished? && EndsItsClaim(log, p)
    ensures EndsItsClaim(log + more, p)
  {
    var e := log[p];
    var i: nat, j: nat :| j < p && StartedUnder(log, e.job, e.worker, e.claim, i, j) && Unended(log, e.job, i, p);
    StartedStays(log, more, e.job, e.worker, e.claim, i, j);
    assert Unended(log + more, e.job, i, p);
    assert HasStart(log + more, e.job, e.worker, e.claim, p);
    assert (log + more)[p] == e;
  }

  lemma PublishedUnder<A(!new)>(log: seq<Event<A>>, e: Event<A>, i: nat, j: nat, k: nat)
    requires e.VerifyPublished? && ClaimedAtOnce(log + [e], e.job, e.claim)
    requires StartedUnder(log, e.job, e.worker, e.claim, i, j) && OpenSince(log, e.job, e.claim, k)
    ensures EndsItsClaim(log + [e], |log|)
  {
    assert (log + [e])[i] == (log + [e])[k];
    StartedStays(log, [e], e.job, e.worker, e.claim, i, j);
    assert Unended(log + [e], e.job, i, |log|);
    assert HasStart(log + [e], e.job, e.worker, e.claim, |log|);
  }

  /** The step that publishes a result. */
  lemma PublishedNow<A(!new)>(s: State<A>, step: Step<A>, e: Event<A>)
    requires Logged(s, step) == Some(e) && e.VerifyPublished? && ClaimedAtOnce(s.log + [e], e.job, e.claim)
    requires ClaimLogged(s, e.job) && VerifierStarted(s, e.worker)
    ensures EndsItsClaim(s.log + [e], |s.log|)
  {
    assert WorkerOf(s, e.worker) == Verifying(e.job, e.claim) && HoldsClaim(s.rows, e.job, e.claim);
    var i: nat, j: nat :| StartedUnder(s.log, e.job, e.worker, e.claim, i, j);
    var k: nat :| OpenSince(s.log, e.job, e.claim, k);
    PublishedUnder(s.log, e, i, j, k);
  }

  lemma ClaimedAtOnceBefore<A(!new)>(log: seq<Event<A>>, more: seq<Event<A>>, job: Id, claim: int)
    requires ClaimedAtOnce(log + more, job, claim)
    ensures ClaimedAtOnce(log, job, claim)
  {
    forall i, k | 0 <= i < |log| && 0 <= k < |log| && log[i] == VerifyClaimed(job, claim) && log[k] == VerifyClaimed(job, claim)
      ensures i == k
    {
      assert (log + more)[i] == log[i] && (log + more)[k] == log[k];
    }
  }

  /** A result the log shows after one more step. */
  ghost predicate SoundResult<A>(log: seq<Event<A>>, p: nat) {
    p < |log| && log[p].VerifyPublished? && ClaimedAtOnce(log, log[p].job, log[p].claim) ==> EndsItsClaim(log, p)
  }

  lemma StepSoundResult<A(!new)>(s: State<A>, step: Step<A>, p: nat)
    requires SoundResult(s.log, p) && (forall job :: ClaimLogged(s, job)) && forall w :: VerifierStarted(s, w)
    ensures SoundResult(Next(s, step).log, p)
  {
    var e := Logged(s, step);
    LogStep(s, step, Claims(0));
    if e.Some? {
      var log := s.log + [e.value];
      if p < |s.log| && log[p].VerifyPublished? && ClaimedAtOnce(log, log[p].job, log[p].claim) {
        ClaimedAtOnceBefore(s.log, [e.value], log[p].job, log[p].claim);
        EndsStays(s.log, [e.value], p);
      }
      if p == |s.log| && e.value.VerifyPublished? && ClaimedAtOnce(log, e.value.job, e.value.claim) {
        assert ClaimLogged(s, e.value.job) && VerifierStarted(s, e.value.worker);
        PublishedNow(s, step, e.value);
      }
    }
  }

  /**
   * In every run, a published verification result ends the very claim its verifier started under, provided no other claim
   * of the job was taken at the same time.
   */
  lemma {:induction false} ResultEndsItsClaim<A(!new)>(steps: seq<Step<A>>, p: nat)
    ensures SoundResult(Run(Init<A>(), steps).log, p)
  {
    if steps != [] {
      var n := |steps| - 1;
      var s := Run(Init<A>(), steps[..n]);
      ResultEndsItsClaim(steps[..n], p);
      forall job ensures ClaimLogged(s, job) {
        RunVerifies(steps[..n], job, 0);
      }
      forall w ensures VerifierStarted(s, w) {
        RunVerifies(steps[..n], 0, w);
      }
      StepSoundResult(s, steps[n], p);
    }
  }

  lemma Taken<A(!new)>(s: State<A>, job: Id, claim: int)
    requires Verifiable(s.rows, job)
    ensures
      var t := Next(s, TakeVerification(job, claim));
      && t.log == s.log + [VerifyClaimed(job, claim)] && t.workers == s.workers && HoldsClaim(t.rows, job, claim)
      && Verifiable(SweepClaim(t.rows, job), job)
  {
  }

  lemma StartedThenSwept<A(!new)>(s: State<A>, job: Id, w: WorkerId, claim: int)
    requires HoldsClaim(s.rows, job, claim) && WorkerOf(s, w) == Idle && Verifiable(SweepClaim(s.rows, job), job)
    ensures
      var t := Next(Next(s, StartVerification(w, job)), SweepDeadClaim(job));
      && t.log == s.log + [VerifyStarted(job, w, claim)] + [VerifyGivenUp(job)]
      && WorkerOf(t, w) == Verifying(job, claim) && Verifiable(t.rows, job)
  {
  }

  lemma OneStep<A>(s: State<A>, a: Step<A>)
    ensures Run(s, [a]) == Next(s, a)
  {
    assert [a][..0] == [];
  }

  lemma TwoSteps<A>(s: State<A>, a: Step<A>, b: Step<A>)
    ensures Run(s, [a, b]) == Next(Next(s, a), b)
  {
    OneStep(s, a);
    assert [a, b][..1] == [a];
  }

  lemma FiveSteps<A(!new)>(s: State<A>, a: Step<A>, b: Step<A>, c: Step<A>, d: Step<A>, e: Step<A>)
    ensures Run(s, [a, b, c, d, e]) == Next(Next(Next(Next(Next(s, a), b), c), d), e)
  {
    var steps := [a, b, c, d, e];
    RunSplit(s, [a, b, c], [d, e]);
    RunSplit(s, [a], [b, c]);
    assert steps == [a, b, c] + [d, e] && [a, b, c] == [a] + [b, c];
    OneStep(s, a);
    TwoSteps(Next(s, a), b, c);
    TwoSteps(Next(Next(Next(s, a), b), c), d, e);
  }

  function Stale<A>(job: Id, w: WorkerId, claim: int): seq<Event<A>> {
    [VerifyClaimed(job, claim)] + [VerifyStarted(job, w, claim)] + [VerifyGivenUp(job)] + [VerifyClaimed(job, claim)]
    + [VerifyPublished(job, w, claim, true)]
  }

  lemma StaleIsMixed<A(!new)>(log: seq<Event<A>>, all: seq<Event<A>>, job: Id, w: WorkerId, claim: int)
    requires all == log + Stale(job, w, claim)
    ensures |all| == |log| + 5 && all[|log| + 4] == VerifyPublished(job, w, claim, true) && !EndsItsClaim(all, |log| + 4)
  {
    forall i: nat, j: nat | j < |log| + 4 && StartedUnder(all, job, w, claim, i, j) ensures !Unended(all, job, i, |log| + 4) {
      assert all[|log| + 2] == VerifyGivenUp(job) && all[|log| + 3] == VerifyClaimed(job, claim);
      assert VerifyEnds(job)(all[|log| + 2]);
    }
  }

  /** The log of a verifier that outlives its claim. */
  lemma StaleRun<A(!new)>(s: State<A>, job: Id, w: WorkerId, claim: int)
    requires Verifiable(s.rows, job) && WorkerOf(s, w) == Idle
    ensures
      var take := TakeVerification(job, claim);
      var s3 := Next(Next(Next(s, take), StartVerification(w, job)), SweepDeadClaim(job));
      Next(Next(s3, take), FinishVerification(w, true)).log == s.log + Stale(job, w, claim)
  {
    var s1 := Next(s, TakeVerification(job, claim));
    Taken(s, job, claim);
    StartedThenSwept(s1, job, w, claim);
    var s3 := Next(Next(s1, StartVerification(w, job)), SweepDeadClaim(job));
    Taken(s3, job, claim);
    Finished(Next(s3, TakeVerification(job, claim)), job, w, claim);
  }

  lemma Finished<A(!new)>(s: State<A>, job: Id, w: WorkerId, claim: int)
    requires HoldsClaim(s.rows, job, claim) && WorkerOf(s, w) == Verifying(job, claim)
    ensures Next(s, FinishVerification(w, true)).log == s.log + [VerifyPublished(job, w, claim, true)]
  {
  }

  /**
   * Claims are told apart by their time alone: wherever a backup can be verified and two claims are taken at one time, the
   * verifier of the first, given up meanwhile, ends the second.
   */
  lemma EqualTimesMix<A(!new)>(s: State<A>, job: Id, w: WorkerId, claim: int)
    requires Verifiable(s.rows, job) && WorkerOf(s, w) == Idle
    ensures
      var log := Run(s, [
        TakeVerification(job, claim), StartVerification(w, job), SweepDeadClaim(job), TakeVerification(job, claim),
        FinishVerification(w, true)]).log;
      |log| == |s.log| + 5 && log[|s.log| + 4] == VerifyPublished(job, w, claim, true) && !EndsItsClaim(log, |s.log| + 4)
  {
    var take := TakeVerification(job, claim);
    FiveSteps(s, take, StartVerification(w, job), SweepDeadClaim(job), take, FinishVerification(w, true));
    StaleRun(s, job, w, claim);
    StaleIsMixed(
      s.log, Run(s, [take, StartVerification(w, job), SweepDeadClaim(job), take, FinishVerification(w, true)]).log, job, w, claim);
  }

  // ---- Exactly when a result ends its claim ----

  ghost predicate ClaimOf<A>(log: seq<Event<A>>, job: Id, i: nat) {
    i < |log| && log[i].VerifyClaimed? && log[i].job == job
  }

  /** A claim that the log leaves open is the one the row holds. */
  ghost predicate OpenIsHeld<A>(s: State<A>, job: Id) {
    forall i: nat | ClaimOf(s.log, job, i) && Unended(s.log, job, i, |s.log|) :: HoldsClaim(s.rows, job, s.log[i].claim)
  }

  /** A job is claimed again only after its claim was ended. */
  ghost predicate Alternating<A>(log: seq<Event<A>>, job: Id) {
    forall i: nat, c: nat | ClaimOf(log, job, i) && ClaimOf(log, job, c) && i < c :: !Unended(log, job, i, c)
  }

  lemma StepOpenIsHeld<A(!new)>(s: State<A>, step: Step<A>, job: Id)
    requires OpenIsHeld(s, job)
    ensures OpenIsHeld(Next(s, step), job)
  {
    var t, e := Next(s, step), Logged(s, step);
    LogStep(s, step, Claims(job));
    ClaimedAfter(s, step, job);
    if Claimed(t.rows, job) { ClaimStep(s, step, job); }
    forall i: nat | ClaimOf(t.log, job, i) && Unended(t.log, job, i, |t.log|) ensures HoldsClaim(t.rows, job, t.log[i].claim) {
      if i < |s.log| {
        StillOpen(s.log, t.log, e, job, i);
        assert HoldsClaim(s.rows, job, s.log[i].claim);
      }
    }
  }

  lemma StillOpen<A(!new)>(log: seq<Event<A>>, longer: seq<Event<A>>, e: Option<Event<A>>, job: Id, i: nat)
    requires longer == (if e.Some? then log + [e.value] else log) && i < |log| && Unended(longer, job, i, |longer|)
    ensures Unended(log, job, i, |log|) && longer[i] == log[i] && (e.Some? ==> !VerifyEnds(job)(e.value))
  {
    forall k | i < k < |log| ensures !VerifyEnds(job)(log[k]) {
      assert longer[k] == log[k];
    }
    if e.Some? { assert longer[|log|] == e.value; }
  }

  lemma StepAlternating<A(!new)>(s: State<A>, step: Step<A>, job: Id)
    requires Alternating(s.log, job) && OpenIsHeld(s, job)
    ensures Alternating(Next(s, step).log, job)
  {
    var t, e := Next(s, step), Logged(s, step);
    LogStep(s, step, Claims(job));
    ClaimedAfter(s, step, job);
    forall i: nat, c: nat | ClaimOf(t.log, job, i) && ClaimOf(t.log, job, c) && i < c ensures !Unended(t.log, job, i, c) {
      UnendedBefore(s.log, t.log, e, job, i, c);
      assert ClaimOf(s.log, job, i);
    }
  }

  lemma UnendedBefore<A(!new)>(log: seq<Event<A>>, longer: seq<Event<A>>, e: Option<Event<A>>, job: Id, i: nat, c: nat)
    requires longer == (if e.Some? then log + [e.value] else log) && i < c <= |log|
    ensures Unended(longer, job, i, c) <==> Unended(log, job, i, c)
    ensures longer[i] == log[i]
  {
    forall k | i < k < c ensures longer[k] == log[k] {}
  }

  lemma {:induction false} RunAlternates<A(!new)>(steps: seq<Step<A>>, job: Id)
    ensures OpenIsHeld(Run(Init<A>(), steps), job) && Alternating(Run(Init<A>(), steps).log, job)
  {
    if steps != [] {
      var n := |steps| - 1;
      RunAlternates(steps[..n], job);
      StepOpenIsHeld(Run(Init<A>(), steps[..n]), steps[n], job);
      StepAlternating(Run(Init<A>(), steps[..n]), steps[n], job);
    }
  }

  /** After the last start of its verifier, the job was claimed again at the same time. */
  ghost predicate Reclaimed<A>(log: seq<Event<A>>, p: nat)
    requires p < |log| && log[p].VerifyPublished?
  {
    exists c: nat ::
      c < p && log[c] == VerifyClaimed(log[p].job, log[p].claim) &&
      NoStart(log, log[p].job, log[p].worker, log[p].claim, c, p)
  }

  ghost predicate NoStart<A>(log: seq<Event<A>>, job: Id, w: WorkerId, claim: int, from: nat, to: nat)
    requires to <= |log|
  {
    forall j | from < j < to :: log[j] != VerifyStarted(job, w, claim)
  }

  /** The claim open when a result is published, and the verifier's last start. */
  lemma PublishedIff<A(!new)>(log: seq<Event<A>>, e: Event<A>, k: nat)
    requires e.VerifyPublished? && OpenSince(log, e.job, e.claim, k) && Alternating(log, e.job)
    ensures EndsItsClaim(log + [e], |log|) <==> !Reclaimed(log + [e], |log|)
  {
    var all, p := log + [e], |log|;
    assert all[p] == e && all[k] == log[k];
    if !Reclaimed(all, p) {
      assert !NoStart(all, e.job, e.worker, e.claim, k, p);
      var j: nat :| k < j < p && all[j] == VerifyStarted(e.job, e.worker, e.claim);
      OpenStays(log, e, k);
      assert StartedUnder(all, e.job, e.worker, e.claim, k, j);
      assert HasStart(all, e.job, e.worker, e.claim, p);
    }
    if EndsItsClaim(all, p) {
      var i: nat, j: nat :| j < p && StartedUnder(all, e.job, e.worker, e.claim, i, j) && Unended(all, e.job, i, p);
      forall c: nat | c < p && all[c] == VerifyClaimed(e.job, e.claim) ensures !NoStart(all, e.job, e.worker, e.claim, c, p) {
        NoneBetween(log, e, i, c);
        assert c < j && all[j] == VerifyStarted(e.job, e.worker, e.claim);
      }
    }
  }

  lemma OpenStays<A(!new)>(log: seq<Event<A>>, e: Event<A>, k: nat)
    requires e.VerifyPublished? && OpenSince(log, e.job, e.claim, k)
    ensures Unended(log + [e], e.job, k, |log|)
  {
    forall j | k < j < |log| ensures (log + [e])[j] == log[j] {}
  }

  lemma NoneBetween<A(!new)>(log: seq<Event<A>>, e: Event<A>, i: nat, c: nat)
    requires e.VerifyPublished? && Alternating(log, e.job) && i < |log| && c < |log|
    requires (log + [e])[i] == VerifyClaimed(e.job, e.claim) && (log + [e])[c] == VerifyClaimed(e.job, e.claim)
    requires Unended(log + [e], e.job, i, |log|)
    ensures c <= i
  {
    if i < c {
      assert ClaimOf(log, e.job, i) && ClaimOf(log, e.job, c);
      forall k | i < k < c ensures !VerifyEnds(e.job)(log[k]) {
        assert (log + [e])[k] == log[k];
      }
      assert false;
    }
  }

  ghost predicate ExactResult<A>(log: seq<Event<A>>, p: nat) {
    p < |log| && log[p].VerifyPublished? ==> (EndsItsClaim(log, p) <==> !Reclaimed(log, p))
  }

  /** Both sides speak of the log up to the result only. */
  lemma ExactStays<A(!new)>(log: seq<Event<A>>, e: Event<A>, p: nat)
    requires p < |log| && log[p].VerifyPublished? && ExactResult(log, p)
    ensures ExactResult(log + [e], p)
  {
    var all, x := log + [e], log[p];
    assert all[p] == x;
    forall i: nat, j: nat | j < p
      ensures (StartedUnder(all, x.job, x.worker, x.claim, i, j) && Unended(all, x.job, i, p)) <==>
              (StartedUnder(log, x.job, x.worker, x.claim, i, j) && Unended(log, x.job, i, p))
    {
      if i < j {
        UnendedBefore(log, all, Some(e), x.job, i, j);
        UnendedBefore(log, all, Some(e), x.job, i, p);
      }
    }
    assert EndsItsClaim(all, p) <==> EndsItsClaim(log, p);
    SameReclaimed(log, e, p);
  }

  lemma SameReclaimed<A(!new)>(log: seq<Event<A>>, e: Event<A>, p: nat)
    requires p < |log| && log[p].VerifyPublished?
    ensures (log + [e])[p] == log[p] && (Reclaimed(log + [e], p) <==> Reclaimed(log, p))
  {
    var all, x := log + [e], log[p];
    forall c: nat | c < p
      ensures all[c] == log[c]
      ensures NoStart(all, x.job, x.worker, x.claim, c, p) <==> NoStart(log, x.job, x.worker, x.claim, c, p)
    {
      forall j | c < j < p ensures all[j] == log[j] {}
    }
  }

  lemma StepExactResult<A(!new)>(s: State<A>, step: Step<A>, p: nat)
    requires ExactResult(s.log, p) && (forall job :: ClaimLogged(s, job)) && forall job :: Alternating(s.log, job)
    ensures ExactResult(Next(s, step).log, p)
  {
    var e := Logged(s, step);
    LogStep(s, step, Claims(0));
    if e.Some? && p < |s.log| && s.log[p].VerifyPublished? {
      ExactStays(s.log, e.value, p);
    } else if e.Some? && p == |s.log| && e.value.VerifyPublished? {
      assert ClaimLogged(s, e.value.job) && Alternating(s.log, e.value.job) && HoldsClaim(s.rows, e.value.job, e.value.claim);
      var k: nat :| OpenSince(s.log, e.value.job, e.value.claim, k);
      PublishedIff(s.log, e.value, k);
    }
  }

  /**
   * In every run, a published verification result ends the claim its verifier started under if and only if the job was not
   * claimed again at the same time after the verifier's last start.
   */
  lemma {:induction false} ResultEndsItsClaimIff<A(!new)>(steps: seq<Step<A>>, p: nat)
    ensures ExactResult(Run(Init<A>(), steps).log, p)
  {
    if steps != [] {
      var n := |steps| - 1;
      var s := Run(Init<A>(), steps[..n]);
      ResultEndsItsClaimIff(steps[..n], p);
      forall job ensures ClaimLogged(s, job) && Alternating(s.log, job) {
        RunVerifies(steps[..n], job, 0);
        RunAlternates(steps[..n], job);
      }
      StepExactResult(s, steps[n], p);
    }
  }

  // ---- The verdict shown ----

  /** The verdict of the last verification of a job that ended with one. */
  function Verdict<A>(log: seq<Event<A>>, job: Id): Option<bool> {
    if log == [] then None
    else
      var e := log[|log| - 1];
      if e.VerifyPublished? && e.job == job then Some(e.ok)
      else if e.VerifyGivenUp? && e.job == job then Some(false)
      else Verdict(log[..|log| - 1], job)
  }

  lemma VerdictSnoc<A>(log: seq<Event<A>>, e: Event<A>, job: Id)
    ensures Verdict(log + [e], job) ==
            if e.VerifyPublished? && e.job == job then Some(e.ok)
            else if e.VerifyGivenUp? && e.job == job then Some(false) else Verdict(log, job)
  {
    assert (log + [e])[..|log|] == log;
  }

  ghost predicate ShowsVerdict<A>(s: State<A>, job: Id) {
    && (job in s.rows ==> s.rows[job].verificationOk == Verdict(s.log, job))
    && (job !in s.rows ==> Verdict(s.log, job).None?)
  }

  lemma StepShowsVerdict<A(!new)>(s: State<A>, step: Step<A>, job: Id)
    requires ShowsVerdict(s, job)
    ensures ShowsVerdict(Next(s, step), job)
  {
    var e := Logged(s, step);
    LogStep(s, step, Claims(job));
    VerdictAfter(s, step, job);
    if e.Some? { VerdictSnoc(s.log, e.value, job); }
  }

  /** A row's verdict changes only with a result or a claim given up; a new row has none. */
  lemma VerdictAfter<A(!new)>(s: State<A>, step: Step<A>, job: Id)
    ensures
      var e, after := Logged(s, step), Next(s, step).rows;
      && (job in s.rows ==> job in after)
      && (job !in s.rows && job in after ==> after[job].verificationOk.None?)
      && (e.Some? && (e.value.VerifyPublished? || e.value.VerifyGivenUp?) && e.value.job == job ==>
            job in s.rows && after[job].verificationOk == Some(e.value.VerifyPublished? && e.value.ok))
      && (job in s.rows && !(e.Some? && (e.value.VerifyPublished? || e.value.VerifyGivenUp?) && e.value.job == job) ==>
            after[job].verificationOk == s.rows[job].verificationOk)
  {
  }

  /** In every run a job shows the verdict of the last verification that ended with one; one given up by the sweep counts as failed. */
  lemma {:induction false} VerdictIsTheLast<A(!new)>(steps: seq<Step<A>>, job: Id)
    ensures ShowsVerdict(Run(Init<A>(), steps), job)
  {
    if steps != [] {
      VerdictIsTheLast(steps[..|steps| - 1], job);
      StepShowsVerdict(Run(Init<A>(), steps[..|steps| - 1]), steps[|steps| - 1], job);
    }
  }

  /** A verification is claimed exactly for a completed backup that still has its file and is not being verified. */
  lemma ClaimedForVerificationIff<A(!new)>(s: State<A>, step: Step<A>, job: Id, now: int)
    ensures Logged(s, step) == Some(VerifyClaimed(job, now)) <==>
            && step == TakeVerification(job, now) && job in s.rows && s.rows[job].status == Completed
            && !s.rows[job].artifactDeleted && s.rows[job].verifyStarted.None?
  {
  }

  /** A sweep reads exactly the listed jobs that are queued or running, in the status they have. */
  lemma {:induction false} StalledIff<A>(rows: Rows<A>, jobs: seq<Id>, id: Id, status: Status)
    ensures (id, status) in Stalled(rows, jobs) <==>
            id in jobs && id in rows && rows[id].status == status && (status == Queued || status == Running)
  {
    if jobs != [] {
      assert jobs == [jobs[0]] + jobs[1..];
      StalledIff(rows, jobs[1..], id, status);
    }
  }

  lemma DeletedStep<A(!new)>(s: State<A>, step: Step<A>, job: Id)
    requires job in s.rows && s.rows[job].artifactDeleted
    ensures job in Next(s, step).rows && Next(s, step).rows[job].artifactDeleted
  {
  }

  /** A backup whose file was deleted is never claimed for verification again. */
  lemma {:induction false} DeletedIsNeverVerified<A(!new)>(s: State<A>, rest: seq<Step<A>>, job: Id, step: Step<A>, now: int)
    requires job in s.rows
    ensures
      var t := Run(Next(s, Delete(job)), rest);
      job in t.rows && t.rows[job].artifactDeleted && Logged(t, step) != Some(VerifyClaimed(job, now))
  {
    if rest != [] {
      DeletedIsNeverVerified(s, rest[..|rest| - 1], job, step, now);
      DeletedStep(Run(Next(s, Delete(job)), rest[..|rest| - 1]), rest[|rest| - 1], job);
    }
    ClaimedForVerificationIff(Run(Next(s, Delete(job)), rest), step, job, now);
  }
}
