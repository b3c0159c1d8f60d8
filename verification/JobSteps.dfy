/** What the statements on the jobs table leave behind, for those who come next. */
module JobSteps {
  import opened Options
  import opened JobTable
  import opened JobProtocol
  import opened JobRuns

  /** Some worker of the class may take the job, at any time and however soon jobs count as stale. */
  ghost predicate Waiting(t: Table, id: nat) {
    id in t && forall stale: int, now: int :: Claimable(t, id, IsCoverage(t[id].kind), stale, now)
  }

  /** No worker may ever take the job again. */
  ghost predicate Settled(t: Table, id: nat) {
    forall coverage, stale: int, now: int :: !Claimable(t, id, coverage, stale, now)
  }

  /** Every row but that of the job is as it was. */
  ghost predicate OnlyJob(t: Table, t': Table, id: nat) {
    forall k :: k != id ==> (k in t <==> k in t') && (k in t ==> t'[k] == t[k])
  }

  // ---- queueing ----

  /**
   * A request that meets no live job of its own leaves one waiting that has not been tried, knows nothing of an earlier
   * try, and is behind every other job.
   */
  lemma EnqueuedLast(s: Sys, r: nat, compute: Compute) returns (id: nat)
    requires Sound(s) && Enabled(s, Enqueue(r), compute)
    requires forall k :: HasHash(s.jobs, k, s.permits[r].owner, HashText(s.permits[r].kind, s.permits[r].input)) ==> s.jobs[k].state == Failed
    ensures var q, t := s.permits[r], Apply(s, Enqueue(r)).jobs;
      && Waiting(t, id) && t[id].owner == q.owner && t[id].kind == q.kind && t[id].input == q.input
      && t[id].attempts == 0 && t[id].result.None? && t[id].error.None? && t[id].worker.None?
      && t[id].startedAt.None? && t[id].finishedAt.None? && t[id].computeMs.None?
      && (forall k :: k in t ==> t[k].queuedAt <= t[id].queuedAt) && OnlyJob(s.jobs, t, id)
  {
    var q := s.permits[r];
    forall k | k in s.jobs ensures s.jobs[k].queuedAt <= s.now {
      assert SoundRow(s, k, s.jobs[k]);
    }
    if Conflicts(s.jobs, q) {
      id := ConflictId(s.jobs, q);
      assert HasHash(s.jobs, id, q.owner, HashText(q.kind, q.input));
      HashIdentifies(s.jobs[id].kind, s.jobs[id].input, q.kind, q.input);
    } else {
      id := s.nextId;
    }
    hide WellFormed;
  }

  /** A request that meets a live job of its own changes nothing in the table. */
  lemma EnqueuedTwice(s: Sys, r: nat, compute: Compute, id: nat)
    requires Sound(s) && Enabled(s, Enqueue(r), compute)
    requires HasHash(s.jobs, id, s.permits[r].owner, HashText(s.permits[r].kind, s.permits[r].input)) && s.jobs[id].state != Failed
    ensures Apply(s, Enqueue(r)).jobs == s.jobs
  {
    assert Conflicts(s.jobs, s.permits[r]);
    assert ConflictId(s.jobs, s.permits[r]) == id;
  }

  // ---- the work of a worker ----

  /** A claimed job is in the hands of its worker until it is stale, and not a moment longer. */
  lemma ClaimedUntilStale(s: Sys, w: nat, name: string, coverage: bool, id: nat, compute: Compute)
    requires Enabled(s, ClaimBy(w, name, coverage, id), compute)
    ensures var t := Apply(s, ClaimBy(w, name, coverage, id)).jobs;
      && id in t && t[id].worker == Some(name) && t[id].attempts == s.jobs[id].attempts + 1
      && t[id].queuedAt == s.jobs[id].queuedAt && OnlyJob(s.jobs, t, id)
      && forall stale: int, now: int :: Claimable(t, id, coverage, stale, now) <==> now > s.now + stale
  {
  }

  /** A job put back is waiting again at its old place in the queue, its attempts counted. */
  lemma RequeuedWaits(s: Sys, w: nat, compute: Compute)
    requires Enabled(s, RequeueBy(w), compute) && s.holds[w].id in s.jobs
    ensures var id, t := s.holds[w].id, Apply(s, RequeueBy(w)).jobs;
      && OnlyJob(s.jobs, t, id) && id in t
      && (s.jobs[id].state == Running ==>
            && Waiting(t, id) && t[id].worker.None?
            && t[id].attempts == s.jobs[id].attempts && t[id].queuedAt == s.jobs[id].queuedAt)
      && (s.jobs[id].state != Running ==> t[id] == s.jobs[id])
  {
  }

  /** A worker that hands its claim back leaves the job to the next one: over both events only the attempt is counted. */
  lemma ClaimedAndRequeued(s: Sys, w: nat, name: string, coverage: bool, id: nat, compute: Compute)
    requires Enabled(s, ClaimBy(w, name, coverage, id), compute) && s.jobs[id].attempts + 1 < MAX_ATTEMPTS
    ensures var s' := Apply(s, ClaimBy(w, name, coverage, id));
      && Enabled(s', RequeueBy(w), compute) && s'.holds[w].id == id
      && var t := Apply(s', RequeueBy(w)).jobs;
         Waiting(t, id) && t[id].attempts == s.jobs[id].attempts + 1 && t[id].queuedAt == s.jobs[id].queuedAt
  {
  }

  /** A completed job is settled with its result, and a later cleaning removes it exactly when it is older than the age. */
  lemma CompletedUntilOld(s: Sys, w: nat, result: string, ms: int, compute: Compute, to: int, age: int)
    requires Enabled(s, Complete(w, result, ms), compute) && s.holds[w].id in s.jobs
    ensures var id, s' := s.holds[w].id, Apply(s, Complete(w, result, ms)); var t := s'.jobs;
      && id in t && Settled(t, id) && t[id].state == Done && t[id].result == Some(result) && t[id].error.None?
      && t[id].computeMs == Some(ms) && OnlyJob(s.jobs, t, id)
      && (!IsCoverage(t[id].kind) ==>
            (id in Apply(Apply(s', Tick(to)), Clean(age)).jobs <==> to - s.now <= age))
  {
  }

  /** A failed job is settled too, with its message, until it is cleaned away or asked for again. */
  lemma FailedUntilAsked(s: Sys, w: nat, msg: string, compute: Compute, to: int, age: int)
    requires Enabled(s, FailBy(w, msg), compute) && s.holds[w].id in s.jobs
    ensures var id, s' := s.holds[w].id, Apply(s, FailBy(w, msg)); var t := s'.jobs;
      && id in t && Settled(t, id) && t[id].state == Failed && t[id].error == Some(msg) && OnlyJob(s.jobs, t, id)
      && (!IsCoverage(t[id].kind) ==>
            (id in Apply(Apply(s', Tick(to)), Clean(age)).jobs <==> to - s.now <= age))
  {
  }

  /** A completed coverage job is settled, and no age cleans it away. */
  lemma CoverageCompleted(s: Sys, w: nat, ms: int, compute: Compute, to: int, age: int)
    requires Sound(s) && Enabled(s, CompleteCoverage(w, ms), compute) && s.holds[w].id in s.jobs
    ensures var id, s' := s.holds[w].id, Apply(s, CompleteCoverage(w, ms)); var t := s'.jobs;
      && id in t && Settled(t, id) && t[id].state == Done && t[id].error.None? && t[id].computeMs == Some(ms)
      && t[id].finishedAt == Some(s.now) && OnlyJob(s.jobs, t, id)
      && id in Apply(Apply(s', Tick(to)), Clean(age)).jobs
  {
    assert SoundHold(s, s.holds[w]);
  }

  // ---- cleaning and editing ----

  /** A table is left with some of its rows, and those as they were. */
  ghost predicate Thins(t: Table, t': Table) {
    forall k :: k in t' ==> k in t && t'[k] == t[k]
  }

  /** Cleaning takes no job that is waiting or worked on, and no coverage job. */
  lemma CleaningSpares(s: Sys, age: int, id: nat)
    requires id in s.jobs && (Active(s.jobs[id]) || IsCoverage(s.jobs[id].kind))
    ensures var t := Apply(s, Clean(age)).jobs; Thins(s.jobs, t) && id in t
  {
  }

  /**
   * Before a coverage is queued its finished and failed jobs go and all other jobs stay, so that the request meets no
   * job of the coverage or one that is waiting or worked on.
   */
  lemma ReplacedExactly(s: Sys, c: int, id: nat)
    requires id in s.jobs
    ensures var t := Apply(s, Replace(c)).jobs;
      && Thins(s.jobs, t)
      && (s.jobs[id].coverage == Some(c) ==> (id in t <==> s.jobs[id].state == Queued || s.jobs[id].state == Running))
      && (s.jobs[id].coverage != Some(c) ==> id in t)
  {
  }

  /** An edited coverage keeps at most a job that is being worked on; other jobs stay. */
  lemma EditedExactly(s: Sys, c: int, id: nat)
    requires id in s.jobs
    ensures var t := Apply(s, Edit(c)).jobs;
      && Thins(s.jobs, t)
      && (s.jobs[id].coverage == Some(c) ==> (id in t <==> s.jobs[id].state == Running))
      && (s.jobs[id].coverage != Some(c) ==> id in t)
  {
  }

  /** A job outlives the deletion of a coverage or a user exactly when it belongs to another. */
  lemma DroppedExactly(s: Sys, x: int, id: nat)
    requires id in s.jobs
    ensures Thins(s.jobs, Apply(s, DropC(x)).jobs) && Thins(s.jobs, Apply(s, DropO(x)).jobs)
    ensures id in Apply(s, DropC(x)).jobs <==> s.jobs[id].coverage != Some(x)
    ensures id in Apply(s, DropO(x)).jobs <==> s.jobs[id].owner != x
  {
  }
}
