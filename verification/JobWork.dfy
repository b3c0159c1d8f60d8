/** How often a job is computed, how long it can be overtaken, and how many jobs an owner can have active. */
module JobWork {
  import opened Options
  import opened JobTable
  import opened JobProtocol

  // ---- bounded work ----

  /** The claim hands out a job to be computed, not given up. */
  predicate StartsWork(s: Sys, e: Event) {
    e.ClaimBy? && e.id in s.jobs && s.jobs[e.id].attempts + 1 < MAX_ATTEMPTS
  }

  /** The event queues job id, anew or again. */
  ghost predicate Queues(s: Sys, e: Event, id: nat) {
    e.Enqueue? && id in Apply(s, e).jobs && (id in s.jobs ==> Apply(s, e).jobs[id] != s.jobs[id])
  }

  ghost predicate NotQueuedAgain(s: Sys, es: seq<Event>, id: nat)
    decreases |es|
  {
    es == [] || (!Queues(s, es[0], id) && NotQueuedAgain(Apply(s, es[0]), es[1..], id))
  }

  ghost function Computations(s: Sys, es: seq<Event>, id: nat): nat
    decreases |es|
  {
    if es == [] then 0
    else (if StartsWork(s, es[0]) && es[0].id == id then 1 else 0) + Computations(Apply(s, es[0]), es[1..], id)
  }

  /** The computations a job has left before it is given up; a job that is not there has none. */
  function Left(t: Table, id: nat): nat {
    if id in t && t[id].attempts < MAX_ATTEMPTS - 1 then MAX_ATTEMPTS - 1 - t[id].attempts else 0
  }

  lemma StepLeft(s: Sys, e: Event, id: nat)
    requires !Queues(s, e, id)
    ensures Left(Apply(s, e).jobs, id) + (if StartsWork(s, e) && e.id == id then 1 else 0) <= Left(s.jobs, id)
  {
  }

  /** Until it is queued again a job is computed at most as often as its attempts leave, however its workers fail. */
  lemma {:induction false} BoundedWork(s: Sys, es: seq<Event>, id: nat)
    requires NotQueuedAgain(s, es, id)
    ensures Computations(s, es, id) <= Left(s.jobs, id) <= MAX_ATTEMPTS - 1
    decreases |es|
  {
    if es != [] {
      StepLeft(s, es[0], id);
      BoundedWork(Apply(s, es[0]), es[1..], id);
    }
  }

  // ---- bounded overtaking ----

  /** k is an active job of the same class that was queued no later than j. */
  predicate Ahead(t: Table, j: nat, k: nat) {
    && j in t && k in t && k != j && Active(t[k])
    && IsCoverage(t[k].kind) == IsCoverage(t[j].kind) && t[k].queuedAt <= t[j].queuedAt
  }

  function Claims(t: Table, j: nat, cap: nat, k: nat): nat {
    if Ahead(t, j, k) && t[k].attempts < cap then cap - t[k].attempts else 0
  }

  /** The claims up to attempt cap that the jobs below n ahead of j have left. */
  function ClaimsAhead(t: Table, j: nat, cap: nat, n: nat): nat {
    if n == 0 then 0 else ClaimsAhead(t, j, cap, n - 1) + Claims(t, j, cap, n - 1)
  }

  lemma {:induction false} ClaimsAheadDrop(t: Table, t': Table, j: nat, cap: nat, n: nat, k: nat)
    requires forall i :: 0 <= i < n ==> Claims(t', j, cap, i) <= Claims(t, j, cap, i)
    ensures ClaimsAhead(t', j, cap, n) <= ClaimsAhead(t, j, cap, n)
    ensures k < n && Claims(t', j, cap, k) < Claims(t, j, cap, k) ==> ClaimsAhead(t', j, cap, n) < ClaimsAhead(t, j, cap, n)
  {
    hide Claims;
    if n > 0 {
      ClaimsAheadDrop(t, t', j, cap, n - 1, k);
    }
  }

  /** j is waiting, and some time has passed since it was queued. */
  predicate Waiting(s: Sys, j: nat) {
    j in s.jobs && s.jobs[j].state == Queued && s.jobs[j].queuedAt < s.now
  }

  ghost predicate StaysQueued(s: Sys, es: seq<Event>, j: nat)
    decreases |es|
  {
    Waiting(s, j) && (es == [] || StaysQueued(Apply(s, es[0]), es[1..], j))
  }

  /** A claim of another job of j's class. */
  predicate Overtakes(s: Sys, e: Event, j: nat) {
    e.ClaimBy? && j in s.jobs && e.coverage == IsCoverage(s.jobs[j].kind) && e.id != j
  }

  lemma OvertakerIsAhead(s: Sys, e: Event, compute: Compute, j: nat)
    requires Waiting(s, j) && Enabled(s, e, compute) && Overtakes(s, e, j)
    ensures Ahead(s.jobs, j, e.id)
  {
    assert Claimable(s.jobs, j, e.coverage, StaleAfter(e.coverage), s.now);
  }

  lemma StepClaims(s: Sys, e: Event, compute: Compute, j: nat, cap: nat, k: nat)
    requires Sound(s) && Enabled(s, e, compute) && Waiting(s, j) && Waiting(Apply(s, e), j)
    ensures Claims(Apply(s, e).jobs, j, cap, k) <= Claims(s.jobs, j, cap, k)
    ensures Overtakes(s, e, j) && e.id == k && s.jobs[k].attempts < cap ==> Claims(Apply(s, e).jobs, j, cap, k) < Claims(s.jobs, j, cap, k)
  {
    if e.Enqueue? {
      EnqueueClaims(s, e, compute, j, cap, k);
    } else {
      hide Sound, Enabled;
      StepKeeps(s, e);
      WaitingKept(s, e, j);
      if e.ClaimBy? && e.id == k {
        if Overtakes(s, e, j) {
          OvertakerIsAhead(s, e, compute, j);
        }
        ClaimedJob(s, e, compute, j, k);
      } else if Ends(s, e) != Some(k) {
        RowUntouched(s, e, k);
      } else {
        EndedJob(s, e, k);
      }
    }
  }

  lemma WaitingKept(s: Sys, e: Event, j: nat)
    requires !e.Enqueue? && Waiting(s, j) && Waiting(Apply(s, e), j)
    ensures Apply(s, e).jobs[j].queuedAt == s.jobs[j].queuedAt && Apply(s, e).jobs[j].kind == s.jobs[j].kind
  {
  }

  lemma ClaimedJob(s: Sys, e: Event, compute: Compute, j: nat, k: nat)
    requires e.ClaimBy? && e.id == k && Enabled(s, e, compute) && Waiting(s, j) && Waiting(Apply(s, e), j)
    ensures k in s.jobs && Active(s.jobs[k]) && Apply(s, e).jobs[k].attempts == s.jobs[k].attempts + 1
    ensures Apply(s, e).jobs[k].queuedAt == s.jobs[k].queuedAt
  {
  }

  lemma EndedJob(s: Sys, e: Event, k: nat)
    requires Ends(s, e) == Some(k)
    ensures k in Apply(s, e).jobs ==> k in s.jobs && Apply(s, e).jobs[k].attempts == s.jobs[k].attempts
    ensures k in Apply(s, e).jobs && Active(Apply(s, e).jobs[k]) ==> Active(s.jobs[k])
    ensures k in Apply(s, e).jobs ==> Apply(s, e).jobs[k].queuedAt == s.jobs[k].queuedAt
  {
  }

  lemma EnqueueClaims(s: Sys, e: Event, compute: Compute, j: nat, cap: nat, k: nat)
    requires Sound(s) && Enabled(s, e, compute) && Waiting(s, j) && Waiting(Apply(s, e), j) && e.Enqueue?
    ensures Claims(Apply(s, e).jobs, j, cap, k) <= Claims(s.jobs, j, cap, k)
  {
  }

  lemma {:induction false} StepClaimsAhead(s: Sys, e: Event, compute: Compute, j: nat, cap: nat)
    requires Sound(s) && Enabled(s, e, compute) && Waiting(s, j) && Waiting(Apply(s, e), j)
    ensures ClaimsAhead(Apply(s, e).jobs, j, cap, Apply(s, e).nextId) <= ClaimsAhead(s.jobs, j, cap, s.nextId)
    ensures Overtakes(s, e, j) && s.jobs[e.id].attempts < cap ==>
              ClaimsAhead(Apply(s, e).jobs, j, cap, Apply(s, e).nextId) < ClaimsAhead(s.jobs, j, cap, s.nextId)
  {
    hide Claims, Enabled;
    var s' := Apply(s, e);
    forall k | 0 <= k < s.nextId ensures Claims(s'.jobs, j, cap, k) <= Claims(s.jobs, j, cap, k) {
      StepClaims(s, e, compute, j, cap, k);
    }
    var k := if e.ClaimBy? then e.id else 0;
    StepClaims(s, e, compute, j, cap, k);
    ClaimsAheadDrop(s.jobs, s'.jobs, j, cap, s.nextId, k);
    if e.Enqueue? {
      StepClaims(s, e, compute, j, cap, s.nextId);
      NoClaims(s, j, cap);
    } else {
      SameSequence(s, e);
    }
  }

  lemma NoClaims(s: Sys, j: nat, cap: nat)
    requires Sound(s)
    ensures Claims(s.jobs, j, cap, s.nextId) == 0
  {
    assert s.nextId in s.jobs ==> SoundRow(s, s.nextId, s.jobs[s.nextId]);
  }

  lemma SameSequence(s: Sys, e: Event)
    ensures Apply(s, e).nextId == if e.Enqueue? && e.r in s.permits then s.nextId + 1 else s.nextId
  {
  }

  ghost function OvertakingWork(s: Sys, es: seq<Event>, j: nat): nat
    decreases |es|
  {
    if es == [] then 0
    else (if Overtakes(s, es[0], j) && StartsWork(s, es[0]) then 1 else 0) + OvertakingWork(Apply(s, es[0]), es[1..], j)
  }

  /** While j waits, no more computations of its class start than the jobs ahead of it have left, whatever happens. */
  lemma {:induction false} BoundedOvertaking(s: Sys, es: seq<Event>, compute: Compute, j: nat)
    requires Sound(s) && Runs(s, es, compute) && StaysQueued(s, es, j)
    ensures OvertakingWork(s, es, j) <= ClaimsAhead(s.jobs, j, MAX_ATTEMPTS - 1, s.nextId)
    decreases |es|
  {
    if es != [] {
      hide Enabled, Apply, Sound;
      assert Waiting(Apply(s, es[0]), j);
      StepSound(s, es[0], compute);
      StepClaimsAhead(s, es[0], compute, j, MAX_ATTEMPTS - 1);
      BoundedOvertaking(Apply(s, es[0]), es[1..], compute, j);
    }
  }

  // ---- with claim and give-up in one step ----

  /** No job past its last attempt is queued or running. */
  ghost predicate Fresh(t: Table) {
    forall id :: id in t && Active(t[id]) ==> t[id].attempts < MAX_ATTEMPTS
  }

  /** The claim takes the job to its last attempt, at which the worker gives it up. */
  predicate LastClaim(s: Sys, e: Event) {
    e.ClaimBy? && e.id in s.jobs && s.jobs[e.id].attempts + 1 >= MAX_ATTEMPTS
  }

  /** A worker that claims a job for the last time marks it failed before anything else happens. */
  ghost predicate GivesUpAtOnce(s: Sys, es: seq<Event>)
    decreases |es|
  {
    if es == [] then true
    else if LastClaim(s, es[0]) then
      |es| >= 2 && es[1].FailBy? && es[1].w == es[0].w && GivesUpAtOnce(Apply(Apply(s, es[0]), es[1]), es[2..])
    else GivesUpAtOnce(Apply(s, es[0]), es[1..])
  }

  ghost function Overtakings(s: Sys, es: seq<Event>, j: nat): nat
    decreases |es|
  {
    if es == [] then 0
    else (if Overtakes(s, es[0], j) then 1 else 0) + Overtakings(Apply(s, es[0]), es[1..], j)
  }

  lemma StepFresh(s: Sys, e: Event)
    requires Fresh(s.jobs) && !LastClaim(s, e)
    ensures Fresh(Apply(s, e).jobs)
  {
  }

  lemma GiveUpFresh(s: Sys, e: Event, f: Event)
    requires Fresh(s.jobs) && LastClaim(s, e) && f.FailBy? && f.w == e.w
    ensures Fresh(Apply(Apply(s, e), f).jobs)
  {
    var t := Apply(s, e).jobs;
    assert forall id :: id in t && id != e.id ==> t[id] == s.jobs[id];
  }

  /** An event takes from the claims ahead of j what it overtakes. */
  lemma {:induction false} StepOvertakes(s: Sys, e: Event, compute: Compute, j: nat)
    requires Sound(s) && Enabled(s, e, compute) && Waiting(s, j) && Waiting(Apply(s, e), j) && Fresh(s.jobs)
    ensures ClaimsAhead(Apply(s, e).jobs, j, MAX_ATTEMPTS, Apply(s, e).nextId) + (if Overtakes(s, e, j) then 1 else 0)
            <= ClaimsAhead(s.jobs, j, MAX_ATTEMPTS, s.nextId)
  {
    if Overtakes(s, e, j) {
      OvertakerIsAhead(s, e, compute, j);
    }
    hide Apply, Sound, Enabled;
    StepClaimsAhead(s, e, compute, j, MAX_ATTEMPTS);
  }

  /** Then a waiting job is claimed after at most as many claims as the jobs ahead of it have left. */
  lemma {:induction false} BoundedOvertakings(s: Sys, es: seq<Event>, compute: Compute, j: nat)
    requires Sound(s) && Runs(s, es, compute) && StaysQueued(s, es, j)
    requires Fresh(s.jobs) && GivesUpAtOnce(s, es)
    ensures Overtakings(s, es, j) <= ClaimsAhead(s.jobs, j, MAX_ATTEMPTS, s.nextId)
    decreases |es|
  {
    if es != [] {
      hide Sound, Enabled, Fresh, Waiting, Ahead, Apply, Overtakes, LastClaim, ClaimsAhead;
      var e, s1 := es[0], Apply(s, es[0]);
      StepSound(s, e, compute);
      assert Waiting(s1, j);
      StepOvertakes(s, e, compute, j);
      if LastClaim(s, e) {
        var f, rest := es[1], es[2..];
        assert es[1..][0] == f && es[1..][1..] == rest;
        GiveUpFresh(s, e, f);
        StepSound(s1, f, compute);
        assert Waiting(Apply(s1, f), j);
        StepClaimsAhead(s1, f, compute, j, MAX_ATTEMPTS);
        BoundedOvertakings(Apply(s1, f), rest, compute, j);
        assert Overtakings(s1, es[1..], j) == Overtakings(Apply(s1, f), rest, j) by { FailNeverOvertakes(s1, f, j); }
      } else {
        StepFresh(s, e);
        BoundedOvertakings(s1, es[1..], compute, j);
      }
    }
  }

  lemma FailNeverOvertakes(s: Sys, f: Event, j: nat)
    requires f.FailBy?
    ensures !Overtakes(s, f, j)
  {
  }

  // ---- quotas ----

  /** The requests of the owner and class between the quota statement and the insert. */
  function InFlight(s: Sys, owner: int, coverage: bool): set<nat> {
    set r | r in s.permits && s.permits[r].owner == owner && IsCoverage(s.permits[r].kind) == coverage
  }

  ghost predicate AtMostInFlight(s: Sys, es: seq<Event>, owner: int, coverage: bool, c: nat)
    decreases |es|
  {
    |InFlight(s, owner, coverage)| <= c && (es == [] || AtMostInFlight(Apply(s, es[0]), es[1..], owner, coverage, c))
  }

  /** The requests let through are counted before they insert. */
  ghost predicate WithinQuota(s: Sys, owner: int, coverage: bool, c: nat) {
    |ActiveIds(s.jobs, owner, coverage)| + |InFlight(s, owner, coverage)| <= Limit(coverage) - 1 + c
  }

  lemma SubsetSize<T>(a: set<T>, b: set<T>)
    requires a <= b
    ensures |a| <= |b|
  {
    assert b == a + (b - a);
  }

  lemma OtherActive(s: Sys, e: Event, compute: Compute, owner: int, coverage: bool)
    requires !e.Enqueue? && Enabled(s, e, compute)
    ensures ActiveIds(Apply(s, e).jobs, owner, coverage) <= ActiveIds(s.jobs, owner, coverage)
  {
  }

  lemma OtherInFlight(s: Sys, e: Event, owner: int, coverage: bool)
    requires !e.Check?
    ensures InFlight(Apply(s, e), owner, coverage) <= InFlight(s, owner, coverage)
  {
  }

  /** The insert of a permitted request makes at most its own job active. */
  lemma EnqueueActive(s: Sys, e: Event, owner: int, coverage: bool)
    requires Sound(s) && e.Enqueue? && e.r in s.permits
    ensures var q, t := s.permits[e.r], Apply(s, e).jobs;
            if q.owner == owner && IsCoverage(q.kind) == coverage then
              exists id :: ActiveIds(t, owner, coverage) <= ActiveIds(s.jobs, owner, coverage) + {id}
            else ActiveIds(t, owner, coverage) <= ActiveIds(s.jobs, owner, coverage)
  {
    var q, t := s.permits[e.r], Apply(s, e).jobs;
    if Conflicts(s.jobs, q) {
      var id := ConflictId(s.jobs, q);
      HashIdentifies(s.jobs[id].kind, s.jobs[id].input, q.kind, q.input);
      assert ActiveIds(t, owner, coverage) <= ActiveIds(s.jobs, owner, coverage) + {id};
    } else {
      assert ActiveIds(t, owner, coverage) <= ActiveIds(s.jobs, owner, coverage) + {s.nextId};
    }
  }

  lemma CheckQuota(s: Sys, e: Event, compute: Compute, owner: int, coverage: bool, c: nat)
    requires e.Check? && Enabled(s, e, compute) && WithinQuota(s, owner, coverage, c)
    requires |InFlight(Apply(s, e), owner, coverage)| <= c
    ensures WithinQuota(Apply(s, e), owner, coverage, c)
  {
    if e.request.owner == owner && IsCoverage(e.request.kind) == coverage {
      assert |ActiveIds(s.jobs, owner, coverage)| <= Limit(coverage) - 1;
    } else {
      assert InFlight(Apply(s, e), owner, coverage) == InFlight(s, owner, coverage);
    }
  }

  lemma EnqueueInFlight(s: Sys, e: Event, owner: int, coverage: bool)
    requires e.Enqueue? && e.r in s.permits
    ensures var q := s.permits[e.r];
            |InFlight(Apply(s, e), owner, coverage)|
            == |InFlight(s, owner, coverage)| - if q.owner == owner && IsCoverage(q.kind) == coverage then 1 else 0
  {
    var q := s.permits[e.r];
    assert Apply(s, e).permits == s.permits - {e.r};
    hide Upsert, Apply;
    if q.owner == owner && IsCoverage(q.kind) == coverage {
      assert e.r in InFlight(s, owner, coverage);
      assert InFlight(Apply(s, e), owner, coverage) == InFlight(s, owner, coverage) - {e.r};
    } else {
      assert InFlight(Apply(s, e), owner, coverage) == InFlight(s, owner, coverage);
    }
  }

  lemma EnqueueQuota(s: Sys, e: Event, owner: int, coverage: bool, c: nat)
    requires Sound(s) && e.Enqueue? && e.r in s.permits && WithinQuota(s, owner, coverage, c)
    ensures WithinQuota(Apply(s, e), owner, coverage, c)
  {
    hide *;
    var q := s.permits[e.r];
    var a, a' := ActiveIds(s.jobs, owner, coverage), ActiveIds(Apply(s, e).jobs, owner, coverage);
    EnqueueActive(s, e, owner, coverage);
    EnqueueInFlight(s, e, owner, coverage);
    if q.owner == owner && IsCoverage(q.kind) == coverage {
      var id :| a' <= a + {id};
      SubsetSize(a', a + {id});
      assert |a + {id}| <= |a| + 1;
    } else {
      SubsetSize(a', a);
    }
    QuotaSums(s, Apply(s, e), owner, coverage, c);
  }

  lemma QuotaSums(s: Sys, s': Sys, owner: int, coverage: bool, c: nat)
    requires WithinQuota(s, owner, coverage, c)
    requires |ActiveIds(s'.jobs, owner, coverage)| + |InFlight(s', owner, coverage)|
             <= |ActiveIds(s.jobs, owner, coverage)| + |InFlight(s, owner, coverage)|
    ensures WithinQuota(s', owner, coverage, c)
  {
  }

  lemma StepQuota(s: Sys, e: Event, compute: Compute, owner: int, coverage: bool, c: nat)
    requires Sound(s) && Enabled(s, e, compute) && WithinQuota(s, owner, coverage, c)
    requires |InFlight(Apply(s, e), owner, coverage)| <= c
    ensures WithinQuota(Apply(s, e), owner, coverage, c)
  {
    if e.Check? {
      CheckQuota(s, e, compute, owner, coverage, c);
    } else if e.Enqueue? {
      EnqueueQuota(s, e, owner, coverage, c);
    } else {
      OtherActive(s, e, compute, owner, coverage);
      OtherInFlight(s, e, owner, coverage);
      hide *;
      SubsetSize(ActiveIds(Apply(s, e).jobs, owner, coverage), ActiveIds(s.jobs, owner, coverage));
      SubsetSize(InFlight(Apply(s, e), owner, coverage), InFlight(s, owner, coverage));
      QuotaSums(s, Apply(s, e), owner, coverage, c);
    }
  }

  /**
   * With at most c requests of an owner and class between check and insert at any time, the owner never has more than
   * limit + c - 1 jobs of the class active.
   */
  lemma {:induction false} QuotaHolds(s: Sys, es: seq<Event>, compute: Compute, owner: int, coverage: bool, c: nat)
    requires Sound(s) && WithinQuota(s, owner, coverage, c) && Runs(s, es, compute) && AtMostInFlight(s, es, owner, coverage, c)
    ensures |ActiveIds(After(s, es).jobs, owner, coverage)| <= Limit(coverage) + c - 1
    decreases |es|
  {
    if es != [] {
      hide Sound, Enabled, WithinQuota;
      StepSound(s, es[0], compute);
      StepQuota(s, es[0], compute, owner, coverage, c);
      QuotaHolds(Apply(s, es[0]), es[1..], compute, owner, coverage, c);
    }
  }
}
