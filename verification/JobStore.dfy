/**
 * The store, the worker and the waiting request of internal/store/jobs.go, internal/worker/worker.go and
 * internal/web/jobs.go. Each method of Store that is one SQL statement is atomic and is one event of the protocol in its
 * log; Interfere stands for everything other processes do to the table between two statements.
 */
module JobStore {
  import opened Options
  import opened JobTable
  import opened JobProtocol
  import opened JobRuns
  import JobWaits

  datatype StoreError = ErrNotFound | ErrQuota | ErrBusy | ErrTimeout | ErrCancelled

  /** A job with its id, or an error. */
  datatype Reply = Ok(id: nat, job: Job) | Err(error: StoreError)

  /** j was read as job id, and that is what the row still is, if it is there. */
  ghost predicate Names(t: Table, next: nat, id: nat, j: Job) {
    id < next && OneLine(j.kind) && j.hash == HashText(j.kind, j.input) && (id in t ==> SameJob(t[id], j))
  }

  /** The owner has a job with that hash that did not fail. */
  ghost predicate HasLive(t: Table, owner: int, hash: string) {
    exists id :: id in t && HasHash(t, id, owner, hash) && t[id].state != Failed
  }

  const INTERRUPTED: string := "The calculation was interrupted repeatedly."

  /** The answer of the quota statement when it refuses. */
  function Refusal(t: Table, owner: int, kind: string): (r: Option<StoreError>)
    ensures r.None? <==> Admits(t, owner, kind)
    ensures r == Some(ErrQuota) <==> |ActiveIds(t, owner, IsCoverage(kind))| >= Limit(IsCoverage(kind))
    ensures r == Some(ErrBusy) ==> |QueuedIds(t)| >= MAX_QUEUED_JOBS
  {
    if |ActiveIds(t, owner, IsCoverage(kind))| >= Limit(IsCoverage(kind)) then Some(ErrQuota)
    else if |QueuedIds(t)| >= MAX_QUEUED_JOBS then Some(ErrBusy)
    else None
  }

  /** The event that ends the work of worker w on a claimed job. */
  ghost predicate EndsWork(e: Event, w: nat, job: Job, compute: Compute) {
    if job.attempts >= MAX_ATTEMPTS then e == FailBy(w, INTERRUPTED)
    else e == RequeueBy(w) || (e.FailBy? && e.w == w) || (e.Complete? && e.w == w && compute(job.kind, job.input) == Some(e.result))
  }

  /** Claims and the ends of their work, in turns. */
  ghost predicate InTurns(es: seq<Event>, w: nat) {
    es == [] || (|es| >= 2 && es[0].ClaimBy? && es[0].w == w && !es[1].ClaimBy? && By(es[1], Actor(None, Some(w)))
                 && InTurns(es[2..], w))
  }

  class Store {
    var jobs: Table
    var nextId: nat
    var now: int
    /** What the processes remember: the jobs live workers hold, and the requests between quota statement and insert. */
    var holds: map<nat, Hold>
    var permits: map<nat, Request>
    const compute: Compute
    ghost const start: Sys
    /** Every statement that changed anything, whoever ran it. */
    ghost var log: seq<Event>

    function State(): Sys
      reads this
    {
      Sys(jobs, nextId, now, holds, permits)
    }

    /** The log is a run of the protocol that leads to the table. */
    ghost predicate Valid()
      reads this
    {
      Reaches(start, log, State(), compute)
    }

    constructor (compute: Compute)
      ensures Valid() && log == [] && jobs == map[] && this.compute == compute
    {
      this.compute := compute;
      jobs, nextId, now, holds, permits, log := map[], 1, 0, map[], map[], [];
      start := Sys(map[], 1, 0, map[], map[]);
    }

    /** The table after the first k events of the log. */
    ghost function TableAt(k: nat): Table
      requires k <= |log|
      reads this
    {
      After(start, log[..k]).jobs
    }

    /** Puts the event just carried out into the log. */
    ghost method Record(e: Event, s: Sys)
      requires Reaches(start, log, s, compute) && Enabled(s, e, compute) && State() == Apply(s, e)
      modifies this`log
      ensures Valid() && log == old(log) + [e]
    {
      ReachesMore(start, log, s, e, compute);
      log := log + [e];
    }

    // ---- statements ----

    method Existing(owner: int, hash: string) returns (r: Reply)
      ensures r.Ok? ==> HasHash(jobs, r.id, owner, hash) && r.job == jobs[r.id]
      ensures r.Err? ==> r.error == ErrNotFound && forall id :: !HasHash(jobs, id, owner, hash)
    {
      if id :| id in jobs && HasHash(jobs, id, owner, hash) {
        r := Ok(id, jobs[id]);
      } else {
        r := Err(ErrNotFound);
      }
    }

    /** The quota statement, which lets the request with that ticket through or refuses it. */
    method CheckQuota(ticket: nat, q: Request) returns (refusal: Option<StoreError>)
      requires Valid() && OneLine(q.kind) && ticket !in permits
      modifies this`permits, this`log
      ensures Valid() && refusal == Refusal(jobs, q.owner, q.kind)
      ensures refusal.Some? ==> log == old(log) && permits == old(permits)
      ensures refusal.None? ==> log == old(log) + [Check(ticket, q)] && permits == old(permits)[ticket := q]
    {
      ghost var s := State();
      refusal := Refusal(jobs, q.owner, q.kind);
      if refusal.None? {
        permits := permits[ticket := q];
        hide Reaches;
        Record(Check(ticket, q), s);
      }
    }

    /** INSERT with its ON CONFLICT clause; no row comes back when a live one is in the way. */
    method Upsert(ticket: nat) returns (r: Reply)
      requires Valid() && ticket in permits
      modifies this
      ensures Valid() && log == old(log) + [Enqueue(ticket)]
      ensures var q := old(permits)[ticket]; r.Err? <==> HasLive(old(jobs), q.owner, HashText(q.kind, q.input))
      ensures r.Err? ==> r.error == ErrNotFound && jobs == old(jobs)
      ensures var q := old(permits)[ticket];
        r.Ok? ==> && HasHash(jobs, r.id, q.owner, HashText(q.kind, q.input)) && r.job == jobs[r.id]
                  && r.job.state == Queued && r.job.attempts == 0
      ensures permits == old(permits) - {ticket} && holds == old(holds) && now == old(now)
    {
      ghost var s := State();
      var q := permits[ticket];
      var hash := HashText(q.kind, q.input);
      ReachesSound(start, log, s, compute);
      assert WellFormed(jobs);
      hide Reaches, Sound, Cached, WellFormed;
      if id :| id in jobs && HasHash(jobs, id, q.owner, hash) {
        OnlyConflict(jobs, q, id);
        if jobs[id].state == Failed {
          jobs := Reset(jobs, id, now);
          r := Ok(id, jobs[id]);
        } else {
          r := Err(ErrNotFound);
        }
      } else {
        NoConflict(jobs, q);
        jobs := Insert(jobs, nextId, q.owner, q.coverage, q.kind, q.input, now);
        r := Ok(nextId, jobs[nextId]);
      }
      nextId := nextId + 1;
      permits := permits - {ticket};
      Record(Enqueue(ticket), s);
    }

    method GetJob(id: nat) returns (r: Reply)
      ensures r == if id in jobs then Ok(id, jobs[id]) else Err(ErrNotFound)
    {
      r := if id in jobs then Ok(id, jobs[id]) else Err(ErrNotFound);
    }

    method ClaimJob(w: nat, worker: string, coverage: bool, stale: int) returns (r: Reply)
      requires Valid() && w !in holds && stale == StaleAfter(coverage)
      modifies this`jobs, this`holds, this`log
      ensures Valid()
      ensures r.Err? ==> && r.error == ErrNotFound && log == old(log) && State() == old(State())
                         && forall id :: !Claimable(jobs, id, coverage, stale, now)
      ensures r.Ok? ==> && log == old(log) + [ClaimBy(w, worker, coverage, r.id)]
                        && ClaimTarget(old(jobs), r.id, coverage, stale, now)
                        && jobs == Claim(old(jobs), r.id, worker, now) && r.job == jobs[r.id]
                        && holds == old(holds)[w := Hold(r.id, r.job)]
    {
      ghost var s := State();
      var ids := set id | id in jobs && Claimable(jobs, id, coverage, stale, now);
      if ids == {} {
        NoneClaimable(jobs, ids, coverage, stale, now);
        return Err(ErrNotFound);
      }
      TargetExists(jobs, ids, coverage, stale, now);
      hide Claimable, ClaimTarget, Reaches;
      var id :| id in jobs && ClaimTarget(jobs, id, coverage, stale, now);
      jobs := Claim(jobs, id, worker, now);
      holds := holds[w := Hold(id, jobs[id])];
      r := Ok(id, jobs[id]);
      Record(ClaimBy(w, worker, coverage, id), s);
    }

    method FinishJob(w: nat, id: nat, result: string, ms: int)
      requires Valid() && w in holds && holds[w].id == id && !GivesUp(holds[w]) && !IsCoverage(holds[w].job.kind)
      requires compute(holds[w].job.kind, holds[w].job.input) == Some(result)
      modifies this`jobs, this`holds, this`log
      ensures Valid() && log == old(log) + [Complete(w, result, ms)]
      ensures jobs == Finish(old(jobs), id, result, ms, now) && holds == old(holds) - {w}
    {
      ghost var s := State();
      if id in jobs {
        jobs := jobs[id := jobs[id].(state := Done, result := Some(result), finishedAt := Some(now), computeMs := Some(ms), error := None)];
      }
      holds := holds - {w};
      hide Reaches;
      Record(Complete(w, result, ms), s);
    }

    method FailJob(w: nat, id: nat, msg: string)
      requires Valid() && w in holds && holds[w].id == id
      modifies this`jobs, this`holds, this`log
      ensures Valid() && log == old(log) + [FailBy(w, msg)]
      ensures jobs == Fail(old(jobs), id, msg, now) && holds == old(holds) - {w}
    {
      ghost var s := State();
      if id in jobs {
        jobs := jobs[id := jobs[id].(state := Failed, error := Some(msg), finishedAt := Some(now))];
      }
      holds := holds - {w};
      hide Reaches;
      Record(FailBy(w, msg), s);
    }

    method RequeueJob(w: nat, id: nat)
      requires Valid() && w in holds && holds[w].id == id && !GivesUp(holds[w])
      modifies this`jobs, this`holds, this`log
      ensures Valid() && log == old(log) + [RequeueBy(w)]
      ensures jobs == Requeue(old(jobs), id) && holds == old(holds) - {w}
    {
      ghost var s := State();
      if id in jobs && jobs[id].state == Running {
        jobs := jobs[id := jobs[id].(state := Queued, worker := None)];
      }
      holds := holds - {w};
      hide Reaches;
      Record(RequeueBy(w), s);
    }

    /** found says whether the coverage is still there; without it the transaction is rolled back. */
    method FinishCoverageJob(w: nat, id: nat, found: bool, ms: int) returns (ok: bool)
      requires Valid() && w in holds && holds[w].id == id && !GivesUp(holds[w]) && IsCoverage(holds[w].job.kind)
      modifies this`jobs, this`holds, this`log
      ensures Valid() && ok == found && holds == old(holds) - {w}
      ensures log == old(log) + [if found then CompleteCoverage(w, ms) else Vanish(w)]
      ensures jobs == if found then FinishCoverage(old(jobs), id, ms, now) else old(jobs)
    {
      ghost var s := State();
      if found && id in jobs {
        jobs := jobs[id := jobs[id].(state := Done, finishedAt := Some(now), computeMs := Some(ms), error := None)];
      }
      holds := holds - {w};
      ok := found;
      hide Reaches;
      Record(if found then CompleteCoverage(w, ms) else Vanish(w), s);
    }

    method DeleteFinishedJobs(age: int)
      requires Valid()
      modifies this`jobs, this`log
      ensures Valid() && log == old(log) + [Clean(age)] && jobs == DeleteFinished(old(jobs), age, now)
    {
      ghost var s := State();
      jobs := map id | id in jobs && (IsCoverage(jobs[id].kind) || Active(jobs[id]) || jobs[id].finishedAt.None?
                                      || jobs[id].finishedAt.value >= now - age) :: jobs[id];
      hide Reaches;
      Record(Clean(age), s);
    }

    /** EnqueueCoverage drops the finished job of the coverage. */
    method DropFinished(id: int)
      requires Valid()
      modifies this`jobs, this`log
      ensures Valid() && log == old(log) + [Replace(id)] && jobs == ReplaceCoverage(old(jobs), id)
    {
      ghost var s := State();
      jobs := ReplaceCoverage(jobs, id);
      hide Reaches;
      Record(Replace(id), s);
    }

    // ---- other processes ----

    /** Other processes run statements of this table, and time passes; the actor's own request and worker wait. */
    method Interfere(a: Actor)
      requires Valid()
      modifies this
      ensures Valid() && Grows(old(log), log, a, []) && Waits(old(State()), State(), a)
      ensures Evolves(old(jobs), old(nextId), jobs, nextId)
    {
      var n: nat := *;
      ghost var l, s := log, State();
      GrowsNot(log, a);
      hide Reaches, Grows, Waits, Evolves;
      while n > 0
        invariant Valid() && Grows(l, log, a, [])
      {
        ghost var l1 := log;
        ghost var e := AnyStatement(a);
        if log != l1 {
          GrowsOne(l1, e, a);
          GrowsChain(l, l1, log, a, [], []);
        }
        n := n - 1;
      }
      LogGrew(l, s, a);
    }

    lemma LogGrew(l: seq<Event>, s: Sys, a: Actor)
      requires Valid() && Reaches(start, l, s, compute) && Grows(l, log, a, [])
      ensures Waits(s, State(), a) && Evolves(s.jobs, s.nextId, jobs, nextId)
    {
      LogWaits(start, l, s, log, State(), a, compute);
      LogEvolves(start, l, s, log, State(), compute);
    }

    /** One event of others, or none. */
    method AnyStatement(a: Actor) returns (ghost e: Event)
      requires Valid()
      modifies this
      ensures Valid() && !By(e, a) && (log == old(log) || log == old(log) + [e])
    {
      if
      case true => e := AnyOther();
      case true => e := AnyRequest(a);
      case true => e := AnyWorker(a);
    }

    method AnyOther() returns (ghost e: Event)
      requires Valid()
      modifies this`jobs, this`now, this`log
      ensures Valid() && (forall a :: !By(e, a)) && log == old(log) + [e]
    {
      var c: int := *;
      ghost var s := State();
      if
      case now <= c =>
        e := Tick(c);
        now := c;
        hide Reaches;
        Record(e, s);
      case true =>
        e := Clean(c);
        DeleteFinishedJobs(c);
      case true =>
        e := Replace(c);
        DropFinished(c);
      case true =>
        e := Edit(c);
        jobs := EditCoverage(jobs, c);
        hide Reaches;
        Record(e, s);
      case true =>
        e := DropC(c);
        jobs := DropCoverage(jobs, c);
        hide Reaches;
        Record(e, s);
      case true =>
        e := DropO(c);
        jobs := DropOwner(jobs, c);
        hide Reaches;
        Record(e, s);
    }

    method AnyRequest(a: Actor) returns (ghost e: Event)
      requires Valid()
      modifies this
      ensures Valid() && !By(e, a) && (log == old(log) || log == old(log) + [e])
    {
      var ticket: nat, owner: int, coverage: int, kind: string, input: string := *, *, *, *, *;
      var q := Request(owner, if coverage == 0 then None else Some(coverage), kind, input);
      e := Tick(now);
      if
      case true => return;
      case a.ticket != Some(ticket) && ticket !in permits && OneLine(kind) =>
        e := Check(ticket, q);
        var _ := CheckQuota(ticket, q);
      case a.ticket != Some(ticket) && ticket in permits =>
        e := Enqueue(ticket);
        var _ := Upsert(ticket);
      case a.ticket != Some(ticket) && ticket in permits =>
        e := Abandon(ticket);
        ghost var s := State();
        permits := permits - {ticket};
        hide Reaches;
        Record(e, s);
    }

    method AnyWorker(a: Actor) returns (ghost e: Event)
      requires Valid()
      modifies this`jobs, this`holds, this`log
      ensures Valid() && !By(e, a) && (log == old(log) || log == old(log) + [e])
    {
      var w: nat, coverage: bool, text: string, ms: int := *, *, *, *;
      e := Tick(now);
      if
      case true => return;
      case a.worker != Some(w) && w !in holds =>
        var r := ClaimJob(w, text, coverage, StaleAfter(coverage));
        if r.Ok? {
          e := ClaimBy(w, text, coverage, r.id);
        }
      case a.worker != Some(w) && w in holds => e := AnyEnd(w, text, ms);
    }

    method AnyEnd(w: nat, text: string, ms: int) returns (ghost e: Event)
      requires Valid() && w in holds
      modifies this`jobs, this`holds, this`log
      ensures Valid() && (forall a: Actor :: a.worker != Some(w) ==> !By(e, a)) && log == old(log) + [e]
    {
      var h := holds[w];
      var result := compute(h.job.kind, h.job.input);
      if
      case true =>
        e := FailBy(w, text);
        FailJob(w, h.id, text);
      case true =>
        e := Vanish(w);
        ghost var s := State();
        holds := holds - {w};
        hide Reaches;
        Record(e, s);
      case !GivesUp(h) =>
        e := RequeueBy(w);
        RequeueJob(w, h.id);
      case !GivesUp(h) && IsCoverage(h.job.kind) =>
        e := CompleteCoverage(w, ms);
        var _ := FinishCoverageJob(w, h.id, true, ms);
      case !GivesUp(h) && !IsCoverage(h.job.kind) && result.Some? =>
        e := Complete(w, result.value, ms);
        FinishJob(w, h.id, result.value, ms);
    }

    // ---- queueing ----

    /** r answers with the row of the caller's own job as it now is. */
    ghost predicate Answers(r: Reply, owner: int, kind: string, input: string)
      requires r.Ok?
      reads this
    {
      && Names(jobs, nextId, r.id, r.job) && r.id in jobs && r.job == jobs[r.id]
      && r.job.owner == owner && r.job.kind == kind && r.job.input == input
      && (r.job.result.Some? ==> compute(kind, input) == r.job.result)
      && (r.job.state == Done && !IsCoverage(kind) ==> r.job.result.Some?)
    }

    /** A row found by the hash is the caller's own job. */
    lemma ReadsOwn(r: Reply, owner: int, kind: string, input: string)
      requires Valid() && OneLine(kind)
      requires r.Ok? ==> HasHash(jobs, r.id, owner, HashText(kind, input)) && r.job == jobs[r.id]
      ensures r.Ok? ==> Answers(r, owner, kind, input)
    {
      if r.Ok? {
        ReachesSound(start, log, State(), compute);
        HashIdentifies(r.job.kind, r.job.input, kind, input);
        assert CachedRow(jobs[r.id], compute) && SoundRow(State(), r.id, jobs[r.id]);
      }
    }

    /** The quota statement refuses the request on the table as it now is. */
    ghost predicate Refused(r: Reply, q: Request)
      reads this
    {
      Refusal(jobs, q.owner, q.kind).Some? && r == Err(Refusal(jobs, q.owner, q.kind).value)
    }

    /**
     * Event k of the log is the insert of the ticket. Where a live job was in its way, r is what the table now has for the
     * hash; otherwise nothing has happened since, and r is the job queued.
     */
    ghost predicate Inserted(r: Reply, q: Request, ticket: nat, k: nat)
      reads this
    {
      var hash := HashText(q.kind, q.input);
      && k < |log| && log[k] == Enqueue(ticket)
      && if HasLive(TableAt(k), q.owner, hash) then
           r.Err? ==> r.error == ErrNotFound && forall id :: !HasHash(jobs, id, q.owner, hash)
         else k == |log| - 1 && r.Ok? && r.job.state == Queued && r.job.attempts == 0
    }

    /**
     * Between its statements anything may happen to the table. Its own statements are none, when it finds a job that did
     * not fail at once or is refused, or the quota statement and the insert.
     */
    method EnqueueJob(ticket: nat, owner: int, coverage: Option<int>, kind: string, input: string)
      returns (r: Reply, ghost own: seq<Event>, ghost k: nat)
      requires Valid() && OneLine(kind) && ticket !in permits
      modifies this
      ensures Valid() && ticket !in permits && Grows(old(log), log, Actor(Some(ticket), None), own)
      ensures r.Ok? ==> Answers(r, owner, kind, input)
      ensures var q := Request(owner, coverage, kind, input);
        if own == [] then (log == old(log) && r.Ok? && r.job.state != Failed) || Refused(r, q)
        else own == [Check(ticket, q), Enqueue(ticket)] && |old(log)| <= k && Inserted(r, q, ticket, k)
    {
      hide Reaches, Grows, Waits, Evolves, HasLive, OneLine, HashText;
      var a := Actor(Some(ticket), None);
      ghost var l := log;
      own, k := [], |log|;
      GrowsNot(log, a);
      r := Existing(owner, HashText(kind, input));
      if r.Ok? && r.job.state != Failed {
        ReadsOwn(r, owner, kind, input);
        return;
      }
      Interfere(a);
      WaitedFor(old(State()), State(), ticket);
      ghost var l1 := log;
      var q := Request(owner, coverage, kind, input);
      var refusal := CheckQuota(ticket, q);
      if refusal.Some? {
        r := Err(refusal.value);
        return;
      }
      r, k := InsertJob(ticket, q);
      GrowsOne(l1, Check(ticket, q), a);
      GrowsChain(l, l1, l1 + [Check(ticket, q)], a, [], [Check(ticket, q)]);
      GrowsChain(l, l1 + [Check(ticket, q)], log, a, [Check(ticket, q)], [Enqueue(ticket)]);
      own := [Check(ticket, q), Enqueue(ticket)];
      assert [] + [Check(ticket, q)] == [Check(ticket, q)] && own == [Check(ticket, q)] + [Enqueue(ticket)];
      GrowsLonger(l, l1 + [Check(ticket, q)], a, [Check(ticket, q)]);
    }

    /** From the quota statement on. */
    method InsertJob(ticket: nat, q: Request) returns (r: Reply, ghost k: nat)
      requires Valid() && OneLine(q.kind) && ticket in permits && permits[ticket] == q
      modifies this
      ensures Valid() && ticket !in permits && Grows(old(log), log, Actor(Some(ticket), None), [Enqueue(ticket)])
      ensures r.Ok? ==> Answers(r, q.owner, q.kind, q.input)
      ensures |old(log)| <= k && Inserted(r, q, ticket, k)
    {
      hide Reaches, Grows, Waits, Evolves, HasLive, OneLine, HashText, Answers;
      var a := Actor(Some(ticket), None);
      ghost var l := log;
      Interfere(a);
      WaitedFor(old(State()), State(), ticket);
      ghost var l1, before := log, jobs;
      k := |log|;
      GrowsLonger(l, l1, a, []);
      LogTable();
      r := Upsert(ticket);
      assert ticket !in permits;
      GrowsOne(l1, Enqueue(ticket), a);
      GrowsChain(l, l1, log, a, [], [Enqueue(ticket)]);
      assert [] + [Enqueue(ticket)] == [Enqueue(ticket)];
      if r.Err? {
        ghost var l2, s2 := log, State();
        Interfere(a);
        WaitedFor(s2, State(), ticket);
        GrowsLonger(l2, log, a, []);
        GrowsChain(l, l2, log, a, [Enqueue(ticket)], []);
        assert [Enqueue(ticket)] + [] == [Enqueue(ticket)];
        r := Existing(q.owner, HashText(q.kind, q.input));
      }
      assert log[..k] == l1 && log[k] == Enqueue(ticket) && TableAt(k) == before;
      ReadsOwn(r, q.owner, q.kind, q.input);
    }

    /** The table is the one after the whole log. */
    lemma LogTable()
      requires Valid()
      ensures TableAt(|log|) == jobs && After(start, log).jobs == jobs
    {
      assert log[..|log|] == log;
    }

    /**
     * owned is the answer of the first statement, whether the coverage exists and is the owner's. Then event cut drops
     * the finished job of the coverage, and EnqueueJob goes on from there.
     */
    method EnqueueCoverage(ticket: nat, owner: int, id: int, owned: bool)
      returns (r: Option<StoreError>, ghost reply: Reply, ghost own: seq<Event>, ghost cut: nat, ghost k: nat)
      requires Valid() && ticket !in permits
      modifies this
      ensures Valid() && ticket !in permits && Grows(old(log), log, Actor(Some(ticket), None), own)
      ensures !owned ==> r == Some(ErrNotFound) && log == old(log)
      ensures owned ==> && r == (if reply.Ok? then None else Some(reply.error))
                        && (reply.Ok? ==> Answers(reply, owner, KIND_COVERAGE, CoverageInput(id)))
                        && |old(log)| <= cut < |log| && log[cut] == Replace(id)
      ensures var q := Request(owner, Some(id), KIND_COVERAGE, CoverageInput(id));
        owned ==>
          if own == [] then (cut == |log| - 1 && reply.Ok? && reply.job.state != Failed) || Refused(reply, q)
          else own == [Check(ticket, q), Enqueue(ticket)] && cut < k && Inserted(reply, q, ticket, k)
    {
      hide Reaches, Grows, Waits, Evolves, HasLive, HashText, Answers, Inserted, Refused;
      var a := Actor(Some(ticket), None);
      ghost var l := log;
      GrowsNot(log, a);
      reply, own, cut, k := Err(ErrNotFound), [], 0, 0;
      if !owned {
        r := Some(ErrNotFound);
        return;
      }
      ghost var s := State();
      Interfere(a);
      WaitedFor(s, State(), ticket);
      ghost var l1 := log;
      GrowsLonger(l, l1, a, []);
      cut := |log|;
      DropFinished(id);
      ghost var l2 := log;
      GrowsOne(l1, Replace(id), a);
      GrowsChain(l, l1, l2, a, [], []);
      var answer;
      answer, own, k := EnqueueJob(ticket, owner, Some(id), KIND_COVERAGE, CoverageInput(id));
      GrowsLonger(l2, log, a, own);
      GrowsChain(l, l2, log, a, [], own);
      assert [] + own == own;
      reply := answer;
      r := if answer.Ok? then None else Some(answer.error);
    }

    // ---- a worker of the short jobs ----

    /**
     * cancelled and timedOut say how the computation ended. Its one write comes after whatever others did meanwhile: a
     * shutdown puts the job back, a failure fails it, and a result is the one computed from the job as it was claimed.
     */
    method RunShort(w: nat, cancelled: bool, timedOut: bool) returns (ghost last: Event)
      requires Valid() && w in holds && !GivesUp(holds[w]) && !IsCoverage(holds[w].job.kind)
      modifies this
      ensures Valid() && w !in holds && Grows(old(log), log, Actor(None, Some(w)), [last]) && log[|log| - 1..] == [last]
      ensures var result := compute(old(holds)[w].job.kind, old(holds)[w].job.input);
        if cancelled then last == RequeueBy(w)
        else if timedOut || result.None? then last.FailBy? && last.w == w
        else last.Complete? && last.w == w && last.result == result.value
    {
      var h := holds[w];
      var result := compute(h.job.kind, h.job.input);
      var reason, ms := if timedOut then "The calculation took longer than 2m0s." else "Calculation failed.", *;
      var a := Actor(None, Some(w));
      ghost var l := log;
      hide Reaches, Grows, Waits, Evolves;
      Interfere(a);
      WaitedWith(old(State()), State(), w);
      ghost var l1 := log;
      if cancelled {
        last := RequeueBy(w);
        RequeueJob(w, h.id);
      } else if timedOut || result.None? {
        last := FailBy(w, reason);
        FailJob(w, h.id, reason);
      } else {
        last := Complete(w, result.value, ms);
        FinishJob(w, h.id, result.value, ms);
      }
      GrowsOne(l1, last, a);
      GrowsChain(l, l1, log, a, [], [last]);
    }

    /** A job at its last attempt is marked failed; the write may come late. */
    method GiveUp(w: nat)
      requires Valid() && w in holds
      modifies this
      ensures Valid() && w !in holds && Grows(old(log), log, Actor(None, Some(w)), [FailBy(w, INTERRUPTED)])
      ensures log[|log| - 1..] == [FailBy(w, INTERRUPTED)]
    {
      var h := holds[w];
      var a := Actor(None, Some(w));
      ghost var l := log;
      hide Reaches, Grows, Waits, Evolves;
      Interfere(a);
      WaitedWith(old(State()), State(), w);
      ghost var l1 := log;
      FailJob(w, h.id, INTERRUPTED);
      GrowsOne(l1, FailBy(w, INTERRUPTED), a);
      GrowsChain(l, l1, log, a, [], [FailBy(w, INTERRUPTED)]);
    }

    /**
     * One round of a worker of the short jobs: nothing is claimable, or the oldest job is claimed and worked on as it was
     * claimed, and the work is ended with one write.
     */
    method WorkerRound(w: nat, name: string) returns (r: Reply, ghost own: seq<Event>)
      requires Valid() && w !in holds
      modifies this
      ensures Valid() && w !in holds && Grows(old(log), log, Actor(None, Some(w)), own)
      ensures r.Err? ==> own == [] && forall id :: !Claimable(jobs, id, false, StaleAfter(false), now)
      ensures r.Ok? ==> && |own| == 2 && own[0] == ClaimBy(w, name, false, r.id) && EndsWork(own[1], w, r.job, compute)
                        && log[|log| - 1..] == own[1..]
    {
      hide Reaches, Grows, Waits, Evolves, ClaimTarget, Claimable, Claim;
      var a := Actor(None, Some(w));
      ghost var l := log;
      Interfere(a);
      WaitedWithout(old(State()), State(), w);
      own := [];
      ghost var l1, s1 := log, State();
      r := ClaimJob(w, name, false, StaleAfter(false));
      if r.Ok? {
        ClaimedShort(s1.jobs, r.id, name, now);
        ghost var l2, claim := log, ClaimBy(w, name, false, r.id);
        GrowsOne(l1, claim, a);
        GrowsChain(l, l1, l2, a, [], [claim]);
        ghost var last := FailBy(w, INTERRUPTED);
        if r.job.attempts >= MAX_ATTEMPTS {
          GiveUp(w);
        } else {
          var cancelled: bool, timedOut: bool := *, *;
          last := RunShort(w, cancelled, timedOut);
        }
        GrowsChain(l, l2, log, a, [claim], [last]);
        own := [claim, last];
        assert own == [claim] + [last] && own[1..] == [last];
      }
    }

    /** The loop of the worker, for the given number of rounds until its context ends: claims, each with one end. */
    method RunWorker(w: nat, name: string, rounds: nat) returns (ghost own: seq<Event>)
      requires Valid() && w !in holds
      modifies this
      ensures Valid() && w !in holds && Grows(old(log), log, Actor(None, Some(w)), own) && InTurns(own, w)
    {
      hide Reaches, Grows;
      own := [];
      var a := Actor(None, Some(w));
      ghost var l := log;
      GrowsNot(log, a);
      for round := 0 to rounds
        invariant Valid() && w !in holds && Grows(l, log, a, own) && InTurns(own, w)
      {
        ghost var l1 := log;
        ghost var more;
        var r;
        r, more := WorkerRound(w, name);
        GrowsChain(l, l1, log, a, own, more);
        TurnsJoin(own, more, w);
        own := own + more;
      }
    }

    // ---- a request waiting for its job ----

    /**
     * polls is how often the request is woken before its deadline or its context ends it, the latter when gone.
     * Whatever other processes do, an answer without error is the caller's own job, finished, and a result in it is
     * what its kind and input compute to. Its only statements that change anything are those of EnqueueJob.
     */
    method RunJob(waits: JobWaits.Waits, ticket: nat, owner: int, kind: string, input: string, polls: nat, gone: bool)
      returns (r: Reply, ghost own: seq<Event>)
      requires Valid() && waits.Valid() && OneLine(kind) && !IsCoverage(kind) && ticket !in permits
      modifies this, waits
      ensures Valid() && waits.Valid() && ticket !in permits && Grows(old(log), log, Actor(Some(ticket), None), own)
      ensures own == [] || own == [Check(ticket, Request(owner, None, kind, input)), Enqueue(ticket)]
      ensures r.Ok? ==> && r.job.owner == owner && r.job.kind == kind && r.job.input == input
                        && (r.job.state == Done || r.job.state == Failed)
                        && (r.job.state == Done ==> r.job.result.Some? && r.job.result == compute(kind, input))
    {
      hide Reaches, Grows, HashText, OneLine, Inserted, Refused, Names, JobWaits.Sound;
      ghost var l, k := log, 0;
      r, own, k := EnqueueJob(ticket, owner, None, kind, input);
      if r.Err? {
        return;
      }
      var left := polls;
      while Active(r.job)
        invariant Valid() && waits.Valid() && ticket !in permits && Grows(l, log, Actor(Some(ticket), None), own)
        invariant r.Ok? && Names(jobs, nextId, r.id, r.job)
        invariant r.job.owner == owner && r.job.kind == kind && r.job.input == input
        invariant r.job.state == Done ==> r.job.result.Some? && r.job.result == compute(kind, input)
        decreases left
      {
        var ch := waits.Wait(r.id);
        if left == 0 {
          waits.Forget(r.id);
          return Err(if gone then ErrCancelled else ErrTimeout), own;
        }
        left := left - 1;
        ghost var l1 := log;
        r := Poll(ticket, r.id, r.job);
        GrowsChain(l, l1, log, Actor(Some(ticket), None), own, []);
        assert own + [] == own;
        if r.Err? {
          return;
        }
      }
    }

    /** Time passes, and the job is read again. */
    method Poll(ticket: nat, id: nat, ghost job: Job) returns (r: Reply)
      requires Valid() && Names(jobs, nextId, id, job) && ticket !in permits
      modifies this
      ensures Valid() && ticket !in permits && Grows(old(log), log, Actor(Some(ticket), None), [])
      ensures r.Ok? ==> && r.id == id && Names(jobs, nextId, id, r.job)
                        && r.job.owner == job.owner && r.job.kind == job.kind && r.job.input == job.input
      ensures r.Ok? && r.job.state == Done && !IsCoverage(job.kind) ==>
                r.job.result.Some? && r.job.result == compute(job.kind, job.input)
    {
      hide Reaches, Grows, Waits, Evolves, HashText, OneLine;
      ghost var s := State();
      Interfere(Actor(Some(ticket), None));
      WaitedFor(s, State(), ticket);
      NamesKept(s.jobs, s.nextId, jobs, nextId, id, job);
      r := GetJob(id);
      if r.Ok? {
        ReadsDone(r);
      }
    }

    lemma ReadsDone(r: Reply)
      requires Valid() && r.Ok? && r.id in jobs && r.job == jobs[r.id]
      ensures r.job.state == Done && !IsCoverage(r.job.kind) ==>
        r.job.result.Some? && r.job.result == compute(r.job.kind, r.job.input)
    {
      ReachesSound(start, log, State(), compute);
      assert CachedRow(jobs[r.id], compute);
    }
  }

  lemma GrowsLonger(l: seq<Event>, l': seq<Event>, a: Actor, own: seq<Event>)
    requires Grows(l, l', a, own)
    ensures |l| <= |l'| && l <= l'
  {
  }

  lemma WaitedFor(s: Sys, s': Sys, ticket: nat)
    requires Waits(s, s', Actor(Some(ticket), None))
    ensures ticket in s.permits <==> ticket in s'.permits
    ensures ticket in s.permits ==> s'.permits[ticket] == s.permits[ticket]
  {
  }

  lemma WaitedWith(s: Sys, s': Sys, w: nat)
    requires Waits(s, s', Actor(None, Some(w))) && w in s.holds
    ensures w in s'.holds && s'.holds[w] == s.holds[w]
  {
  }

  lemma WaitedWithout(s: Sys, s': Sys, w: nat)
    requires Waits(s, s', Actor(None, Some(w))) && w !in s.holds
    ensures w !in s'.holds
  {
  }

  lemma ClaimedShort(t: Table, id: nat, name: string, now: int)
    requires ClaimTarget(t, id, false, StaleAfter(false), now)
    ensures id in t && !IsCoverage(Claim(t, id, name, now)[id].kind)
  {
  }

  lemma {:induction false} TurnsJoin(es: seq<Event>, fs: seq<Event>, w: nat)
    requires InTurns(es, w) && InTurns(fs, w)
    ensures InTurns(es + fs, w)
    decreases |es|
  {
    if es == [] {
      assert es + fs == fs;
    } else {
      assert (es + fs)[2..] == es[2..] + fs;
      TurnsJoin(es[2..], fs, w);
    }
  }

  lemma NamesKept(t: Table, n: nat, t': Table, n': nat, id: nat, j: Job)
    requires Names(t, n, id, j) && Evolves(t, n, t', n')
    ensures Names(t', n', id, j)
  {
  }

  lemma OnlyConflict(t: Table, q: Request, id: nat)
    requires WellFormed(t) && HasHash(t, id, q.owner, HashText(q.kind, q.input))
    ensures Conflicts(t, q) && ConflictId(t, q) == id
    ensures HasLive(t, q.owner, HashText(q.kind, q.input)) <==> t[id].state != Failed
  {
  }

  lemma NoConflict(t: Table, q: Request)
    requires forall id :: !HasHash(t, id, q.owner, HashText(q.kind, q.input))
    ensures !Conflicts(t, q) && !HasLive(t, q.owner, HashText(q.kind, q.input))
  {
  }

  lemma NoneClaimable(t: Table, ids: set<nat>, coverage: bool, stale: int, now: int)
    requires ids == {} == set id | id in t && Claimable(t, id, coverage, stale, now)
    ensures forall id :: !Claimable(t, id, coverage, stale, now)
  {
    forall id ensures !Claimable(t, id, coverage, stale, now) {
      assert id in t && Claimable(t, id, coverage, stale, now) ==> id in ids;
    }
  }

  lemma TargetExists(t: Table, ids: set<nat>, coverage: bool, stale: int, now: int)
    requires ids == (set id | id in t && Claimable(t, id, coverage, stale, now)) && ids != {}
    ensures exists id :: id in t && ClaimTarget(t, id, coverage, stale, now)
  {
    hide Claimable;
    var id := OldestExists(t, ids);
    forall k | k in t && Claimable(t, k, coverage, stale, now) ensures t[id].queuedAt <= t[k].queuedAt {
      assert k in ids;
    }
    assert ClaimTarget(t, id, coverage, stale, now);
  }
}
