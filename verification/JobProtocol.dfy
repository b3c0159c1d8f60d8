/**
 * The job queue as a protocol: requests, workers, the janitor and edits interleave, one SQL statement at a time.
 * A run is a sequence of events; nothing is assumed about their order beyond what each statement can see.
 */
module JobProtocol {
  import opened Options
  import opened JobTable

  /** A claimed job in the hands of a live worker: its row as ClaimJob returned it. */
  datatype Hold = Hold(id: nat, job: Job)

  /** A request that has passed the quota statement of EnqueueJob and has not inserted yet. */
  datatype Request = Request(owner: int, coverage: Option<int>, kind: string, input: string)

  datatype Sys = Sys(jobs: Table, nextId: nat, now: int, holds: map<nat, Hold>, permits: map<nat, Request>)

  datatype Event =
    | Tick(to: int)
    | Check(r: nat, request: Request)
    | Enqueue(r: nat)
    | Abandon(r: nat)
    | ClaimBy(w: nat, name: string, coverage: bool, id: nat)
    | Complete(w: nat, result: string, ms: int)
    | CompleteCoverage(w: nat, ms: int)
    | FailBy(w: nat, msg: string)
    | RequeueBy(w: nat)
    | Vanish(w: nat)  // a crash, a lost write, or a coverage that is gone
    | Clean(age: int)
    | Replace(c: int)
    | Edit(c: int)
    | DropC(c: int)
    | DropO(o: int)

  /** What RunJob computes from a kind and an input; None when it fails. */
  type Compute = (string, string) -> Option<string>

  predicate IsHeld(s: Sys, w: nat) {
    w in s.holds
  }

  predicate GivesUp(h: Hold) {
    h.job.attempts >= MAX_ATTEMPTS
  }

  ghost predicate Enabled(s: Sys, e: Event, compute: Compute) {
    match e
    case Tick(to) => s.now <= to
    case Check(r, q) => r !in s.permits && OneLine(q.kind) && Admits(s.jobs, q.owner, q.kind)
    case Enqueue(r) => r in s.permits
    case Abandon(r) => r in s.permits
    case ClaimBy(w, _, coverage, id) => w !in s.holds && ClaimTarget(s.jobs, id, coverage, StaleAfter(coverage), s.now)
    case Complete(w, result, _) =>
      w in s.holds && !GivesUp(s.holds[w]) && !IsCoverage(s.holds[w].job.kind)
      && compute(s.holds[w].job.kind, s.holds[w].job.input) == Some(result)
    case CompleteCoverage(w, _) => w in s.holds && !GivesUp(s.holds[w]) && IsCoverage(s.holds[w].job.kind)
    case FailBy(w, _) => w in s.holds
    case RequeueBy(w) => w in s.holds && !GivesUp(s.holds[w])
    case Vanish(w) => w in s.holds
    case _ => true
  }

  /** The row the upsert conflicts with, if any. */
  predicate Conflicts(t: Table, q: Request) {
    exists id :: id in t && HasHash(t, id, q.owner, HashText(q.kind, q.input))
  }

  ghost function ConflictId(t: Table, q: Request): (id: nat)
    requires Conflicts(t, q)
    ensures HasHash(t, id, q.owner, HashText(q.kind, q.input))
  {
    var id :| id in t && HasHash(t, id, q.owner, HashText(q.kind, q.input));
    id
  }

  ghost function Upsert(t: Table, next: nat, q: Request, now: int): Table {
    if Conflicts(t, q) then Reset(t, ConflictId(t, q), now)
    else Insert(t, next, q.owner, q.coverage, q.kind, q.input, now)
  }

  ghost function Apply(s: Sys, e: Event): Sys {
    match e
    case Tick(to) => s.(now := to)
    case Check(r, q) => s.(permits := s.permits[r := q])
    case Enqueue(r) =>
      if r in s.permits then
        s.(jobs := Upsert(s.jobs, s.nextId, s.permits[r], s.now), nextId := s.nextId + 1, permits := s.permits - {r})
      else s
    case Abandon(r) => s.(permits := s.permits - {r})
    case ClaimBy(w, name, _, id) =>
      if id in s.jobs then
        var t := Claim(s.jobs, id, name, s.now);
        s.(jobs := t, holds := s.holds[w := Hold(id, t[id])])
      else s
    case Complete(w, result, ms) =>
      if IsHeld(s, w) then s.(jobs := Finish(s.jobs, s.holds[w].id, result, ms, s.now), holds := s.holds - {w}) else s
    case CompleteCoverage(w, ms) =>
      if IsHeld(s, w) then s.(jobs := FinishCoverage(s.jobs, s.holds[w].id, ms, s.now), holds := s.holds - {w}) else s
    case FailBy(w, msg) =>
      if IsHeld(s, w) then s.(jobs := Fail(s.jobs, s.holds[w].id, msg, s.now), holds := s.holds - {w}) else s
    case RequeueBy(w) =>
      if IsHeld(s, w) then s.(jobs := Requeue(s.jobs, s.holds[w].id), holds := s.holds - {w}) else s
    case Vanish(w) => s.(holds := s.holds - {w})
    case Clean(age) => s.(jobs := DeleteFinished(s.jobs, age, s.now))
    case Replace(c) => s.(jobs := ReplaceCoverage(s.jobs, c))
    case Edit(c) => s.(jobs := EditCoverage(s.jobs, c))
    case DropC(c) => s.(jobs := DropCoverage(s.jobs, c))
    case DropO(o) => s.(jobs := DropOwner(s.jobs, o))
  }

  /** Every event of the run is enabled when its turn comes. */
  ghost predicate Runs(s: Sys, es: seq<Event>, compute: Compute)
    decreases |es|
  {
    es == [] || (Enabled(s, es[0], compute) && Runs(Apply(s, es[0]), es[1..], compute))
  }

  ghost function After(s: Sys, es: seq<Event>): Sys
    decreases |es|
  {
    if es == [] then s else After(Apply(s, es[0]), es[1..])
  }

  ghost predicate Initial(s: Sys) {
    s.jobs == map[] && s.holds == map[] && s.permits == map[]
  }

  // ---- what every interleaving keeps ----

  /** Rows and holds agree on what a job is; ids are below the sequence. */
  ghost predicate Sound(s: Sys) {
    && WellFormed(s.jobs) && SoundRows(s)
    && (forall r :: r in s.permits ==> OneLine(s.permits[r].kind))
    && (forall w :: w in s.holds ==> SoundHold(s, s.holds[w]))
  }

  ghost predicate SoundRows(s: Sys) {
    forall id :: id in s.jobs ==> SoundRow(s, id, s.jobs[id])
  }

  ghost predicate SoundHold(s: Sys, h: Hold) {
    && h.id < s.nextId && h.job.startedAt.Some? && h.job.startedAt.value <= s.now && h.job.attempts >= 1
    && (h.id in s.jobs ==> SameJob(s.jobs[h.id], h.job))
  }

  /** Every result in the table is the computed one, and every finished short job has it. */
  ghost predicate Cached(t: Table, compute: Compute) {
    forall id :: id in t ==> CachedRow(t[id], compute)
  }

  lemma UpsertSound(t: Table, next: nat, q: Request, now: int)
    requires WellFormed(t) && OneLine(q.kind) && forall id :: id in t ==> id < next
    ensures WellFormed(Upsert(t, next, q, now))
  {
  }

  lemma InitialSound(s: Sys, compute: Compute)
    requires Initial(s)
    ensures Sound(s) && Cached(s.jobs, compute)
  {
  }

  /** Apart from inserting, no statement makes a row or changes what a row is. */
  ghost predicate Keeps(t: Table, t': Table) {
    t'.Keys <= t.Keys && forall id :: id in t' ==> SameJob(t[id], t'[id])
  }

  lemma StepKeeps(s: Sys, e: Event)
    requires !e.Enqueue?
    ensures Keeps(s.jobs, Apply(s, e).jobs)
  {
  }

  lemma KeepsWellFormed(t: Table, t': Table)
    requires WellFormed(t) && Keeps(t, t')
    ensures WellFormed(t')
  {
  }

  lemma StepWellFormed(s: Sys, e: Event, compute: Compute)
    requires Sound(s) && Enabled(s, e, compute)
    ensures WellFormed(Apply(s, e).jobs)
  {
    if e.Enqueue? {
      UpsertSound(s.jobs, s.nextId, s.permits[e.r], s.now);
    } else {
      StepKeeps(s, e);
      KeepsWellFormed(s.jobs, Apply(s, e).jobs);
    }
  }

  ghost predicate SoundRow(s: Sys, id: nat, j: Job) {
    id < s.nextId && j.queuedAt <= s.now && (j.state == Running ==> j.startedAt.Some? && j.startedAt.value <= s.now)
  }

  lemma StepRows(s: Sys, e: Event, compute: Compute)
    requires Sound(s) && Enabled(s, e, compute)
    ensures SoundRows(Apply(s, e))
  {
    hide WellFormed, ClaimTarget, Admits, SoundHold;
    var s' := Apply(s, e);
    forall id | id in s'.jobs ensures SoundRow(s', id, s'.jobs[id]) {
      if e.Enqueue? {
        assert id in s.jobs ==> SoundRow(s, id, s.jobs[id]);
      } else if Ends(s, e) == Some(id) || (e.ClaimBy? && e.id == id) {
        assert SoundRow(s, id, s.jobs[id]);
      } else {
        RowUntouched(s, e, id);
        assert SoundRow(s, id, s.jobs[id]);
      }
    }
  }

  lemma StepHolds(s: Sys, e: Event, compute: Compute)
    requires Sound(s) && Enabled(s, e, compute)
    ensures forall w :: w in Apply(s, e).holds ==> SoundHold(Apply(s, e), Apply(s, e).holds[w])
  {
    hide WellFormed, Admits;
    var s' := Apply(s, e);
    forall w | w in s'.holds ensures SoundHold(s', s'.holds[w]) {
      if e.ClaimBy? && w == e.w {
      } else {
        assert SoundHold(s, s.holds[w]);
        if !e.Enqueue? {
          StepKeeps(s, e);
        }
      }
    }
  }

  lemma StepSound(s: Sys, e: Event, compute: Compute)
    requires Sound(s) && Enabled(s, e, compute)
    ensures Sound(Apply(s, e))
  {
    StepWellFormed(s, e, compute);
    StepRows(s, e, compute);
    StepHolds(s, e, compute);
    hide WellFormed, SoundRows, SoundHold;
  }

  /** The job whose hold the event ends. */
  function Ends(s: Sys, e: Event): Option<nat> {
    match e
    case Complete(w, _, _) => if w in s.holds then Some(s.holds[w].id) else None
    case CompleteCoverage(w, _) => if w in s.holds then Some(s.holds[w].id) else None
    case FailBy(w, _) => if w in s.holds then Some(s.holds[w].id) else None
    case RequeueBy(w) => if w in s.holds then Some(s.holds[w].id) else None
    case _ => None
  }

  /** A row that is neither claimed, nor written by its holder, nor queued again stays as it is or goes. */
  lemma RowUntouched(s: Sys, e: Event, id: nat)
    requires e.ClaimBy? ==> e.id != id
    requires Ends(s, e) != Some(id)
    requires e.Enqueue? ==> id in s.jobs && s.jobs[id].state != Failed && id != s.nextId
    ensures id in Apply(s, e).jobs ==> id in s.jobs && Apply(s, e).jobs[id] == s.jobs[id]
  {
  }

  ghost predicate CachedRow(j: Job, compute: Compute) {
    && (j.result.Some? ==> !IsCoverage(j.kind) && compute(j.kind, j.input) == j.result)
    && (j.state == Done && !IsCoverage(j.kind) ==> j.result.Some?)
  }

  lemma EnqueueCached(s: Sys, e: Event, compute: Compute, id: nat)
    requires e.Enqueue? && e.r in s.permits && Cached(s.jobs, compute) && id in Apply(s, e).jobs
    ensures CachedRow(Apply(s, e).jobs[id], compute)
  {
    assert id in s.jobs ==> CachedRow(s.jobs[id], compute);
  }

  lemma WriteCached(s: Sys, e: Event, compute: Compute, id: nat)
    requires Enabled(s, e, compute) && Ends(s, e) == Some(id) && Cached(s.jobs, compute) && id in Apply(s, e).jobs
    requires forall w :: w in s.holds ==> SoundHold(s, s.holds[w])
    ensures CachedRow(Apply(s, e).jobs[id], compute)
  {
    assert CachedRow(s.jobs[id], compute);
    assert forall w :: w in s.holds && s.holds[w].id == id ==> SameJob(s.jobs[id], s.holds[w].job);
  }

  lemma StepCached(s: Sys, e: Event, compute: Compute)
    requires Sound(s) && Enabled(s, e, compute) && Cached(s.jobs, compute)
    ensures Cached(Apply(s, e).jobs, compute)
  {
    var t' := Apply(s, e).jobs;
    forall id | id in t' ensures CachedRow(t'[id], compute) {
      if e.Enqueue? {
        EnqueueCached(s, e, compute, id);
      } else if Ends(s, e) == Some(id) {
        WriteCached(s, e, compute, id);
      } else if e.ClaimBy? && e.id == id {
        assert CachedRow(s.jobs[id], compute);
      } else {
        RowUntouched(s, e, id);
        assert CachedRow(s.jobs[id], compute);
      }
    }
  }

  /**
   * The jobs table is a cache that agrees with direct computation: after any run, whatever took over, finished late,
   * was deleted or was queued again, a finished short job carries exactly what its own kind and input compute to.
   */
  lemma {:induction false} CacheIsExact(s: Sys, es: seq<Event>, compute: Compute)
    requires Sound(s) && Cached(s.jobs, compute) && Runs(s, es, compute)
    ensures Sound(After(s, es)) && Cached(After(s, es).jobs, compute)
    decreases |es|
  {
    if es != [] {
      StepSound(s, es[0], compute);
      StepCached(s, es[0], compute);
      CacheIsExact(Apply(s, es[0]), es[1..], compute);
    }
  }

  /** In every reachable table, then. */
  lemma {:induction false} CacheFromStart(s: Sys, es: seq<Event>, compute: Compute, id: nat)
    requires Initial(s) && Runs(s, es, compute)
    ensures var t := After(s, es).jobs;
      id in t && t[id].state == Done && !IsCoverage(t[id].kind) ==>
        t[id].result.Some? && t[id].result == compute(t[id].kind, t[id].input)
  {
    InitialSound(s, compute);
    CacheIsExact(s, es, compute);
    hide Sound, Runs, Initial;
    var t := After(s, es).jobs;
    assert id in t ==> CachedRow(t[id], compute);
  }
}
