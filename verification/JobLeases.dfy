/** Leases: what holds when every live worker meets its deadline, which is shorter than the time to staleness. */
module JobLeases {
  import opened Options
  import opened JobTable
  import opened JobProtocol
  import opened JobRuns

  /** A live worker ends its hold, by writing or by dying, within its timeout and the budget of the last write. */
  function HoldLimit(coverage: bool): int {
    Timeout(coverage) + DB_BUDGET
  }

  ghost predicate InTime(h: Hold, now: int) {
    h.job.startedAt.Some? && now <= h.job.startedAt.value + HoldLimit(IsCoverage(h.job.kind))
  }

  /** The clock does not pass the deadline of a live hold. */
  ghost predicate Timely(s: Sys, e: Event) {
    e.Tick? ==> forall w :: w in s.holds ==> InTime(s.holds[w], e.to)
  }

  ghost predicate TimelyRun(s: Sys, es: seq<Event>)
    decreases |es|
  {
    es == [] || (Timely(s, es[0]) && TimelyRun(Apply(s, es[0]), es[1..]))
  }

  /** The row of a held job is gone, or running exactly as its holder claimed it. */
  ghost predicate Intact(t: Table, h: Hold) {
    h.id in t ==> t[h.id] == h.job && h.job.state == Running
  }

  ghost predicate Leased(s: Sys) {
    && (forall w :: w in s.holds ==> InTime(s.holds[w], s.now) && Intact(s.jobs, s.holds[w]))
    && (forall v, w :: v in s.holds && w in s.holds && s.holds[v].id == s.holds[w].id ==> v == w)
  }

  /** A claim never hits a job in the hands of a live worker. */
  lemma ClaimMissesHolds(s: Sys, coverage: bool, id: nat)
    requires Leased(s) && ClaimTarget(s.jobs, id, coverage, StaleAfter(coverage), s.now)
    ensures forall w :: w in s.holds ==> s.holds[w].id != id
  {
    forall w | w in s.holds ensures s.holds[w].id != id {
      assert InTime(s.holds[w], s.now) && Intact(s.jobs, s.holds[w]);
    }
  }

  /** A hold that survives the event is untouched, and the event does not end a hold on the same job. */
  lemma HoldSurvives(s: Sys, e: Event, compute: Compute, w: nat)
    requires Leased(s) && Enabled(s, e, compute) && w in s.holds && w in Apply(s, e).holds
    ensures Apply(s, e).holds[w] == s.holds[w] && Ends(s, e) != Some(s.holds[w].id)
  {
    hide ClaimTarget, Admits, Upsert, Intact, InTime;
  }

  lemma StepIntact(s: Sys, e: Event, compute: Compute, w: nat)
    requires Sound(s) && Leased(s) && Enabled(s, e, compute) && w in s.holds && w in Apply(s, e).holds
    ensures Apply(s, e).holds[w] == s.holds[w] && Intact(Apply(s, e).jobs, s.holds[w])
  {
    hide WellFormed, SoundRows, ClaimTarget, Apply, Ends;
    var h := s.holds[w];
    assert Intact(s.jobs, h) && SoundHold(s, h);
    HoldSurvives(s, e, compute, w);
    if e.ClaimBy? {
      ClaimMissesHolds(s, e.coverage, e.id);
    }
    if h.id in s.jobs {
      RowUntouched(s, e, h.id);
    } else {
      StaysGone(s, e, h.id);
    }
  }

  /** Ids are not used again. */
  lemma StaysGone(s: Sys, e: Event, id: nat)
    requires id !in s.jobs && id < s.nextId
    ensures id !in Apply(s, e).jobs
  {
  }

  lemma StepLeased(s: Sys, e: Event, compute: Compute)
    requires Sound(s) && Leased(s) && Enabled(s, e, compute) && Timely(s, e)
    ensures Leased(Apply(s, e))
  {
    var s' := Apply(s, e);
    forall w | w in s'.holds ensures InTime(s'.holds[w], s'.now) && Intact(s'.jobs, s'.holds[w]) {
      if w in s.holds {
        assert InTime(s.holds[w], s.now);
        StepIntact(s, e, compute, w);
      }
    }
    if e.ClaimBy? {
      ClaimMissesHolds(s, e.coverage, e.id);
    }
  }

  /**
   * In every reachable state at most one live worker holds a job, and while it does the row is gone or still running
   * as it claimed it, under its name and start time.
   */
  lemma {:induction false} LeaseExclusion(s: Sys, es: seq<Event>, compute: Compute)
    requires Sound(s) && Leased(s) && Runs(s, es, compute) && TimelyRun(s, es)
    ensures Sound(After(s, es)) && Leased(After(s, es))
    decreases |es|
  {
    if es != [] {
      StepSound(s, es[0], compute);
      StepLeased(s, es[0], compute);
      LeaseExclusion(Apply(s, es[0]), es[1..], compute);
    }
  }

  /** In every state reached from an empty table in time, then, two live workers never hold one job. */
  lemma {:induction false} OneHolder(s: Sys, es: seq<Event>, compute: Compute, v: nat, w: nat)
    requires Initial(s) && Runs(s, es, compute) && TimelyRun(s, es)
    ensures var s' := After(s, es);
      v in s'.holds && w in s'.holds && v != w ==> s'.holds[v].id != s'.holds[w].id
    ensures var s' := After(s, es);
      w in s'.holds && s'.holds[w].id in s'.jobs ==>
        var j, h := s'.jobs[s'.holds[w].id], s'.holds[w].job;
        j.state == Running && j.worker == h.worker && j.startedAt == h.startedAt
  {
    InitialSound(s, compute);
    LeaseExclusion(s, es, compute);
    hide Sound, Runs, TimelyRun, Initial;
    var s' := After(s, es);
    assert w in s'.holds ==> Intact(s'.jobs, s'.holds[w]);
  }

  /** No live worker holds the job. */
  ghost predicate Unheld(s: Sys, id: nat) {
    forall w :: w in s.holds ==> s.holds[w].id != id
  }

  /** The event leaves the row as it is, or removes it. */
  ghost predicate Spares(s: Sys, e: Event, id: nat)
    requires id in s.jobs
  {
    id in Apply(s, e).jobs ==> Apply(s, e).jobs[id] == s.jobs[id]
  }

  lemma UnheldSpared(s: Sys, e: Event, compute: Compute, id: nat)
    requires Sound(s) && Enabled(s, e, compute) && id in s.jobs && s.jobs[id].state == Done && Unheld(s, id)
    ensures Spares(s, e, id) && Unheld(Apply(s, e), id)
  {
    hide Admits, WellFormed;
    assert SoundRow(s, id, s.jobs[id]);
    RowUntouched(s, e, id);
  }

  /** A finished job is safe from every statement exactly when no live worker holds it; deadlines or not. */
  lemma FinalExactly(s: Sys, compute: Compute, id: nat)
    requires Sound(s) && id in s.jobs && s.jobs[id].state == Done
    ensures (forall e :: Enabled(s, e, compute) ==> Spares(s, e, id)) <==> Unheld(s, id)
  {
    if Unheld(s, id) {
      forall e | Enabled(s, e, compute) ensures Spares(s, e, id) {
        UnheldSpared(s, e, compute, id);
      }
    } else {
      var w :| w in s.holds && s.holds[w].id == id;
      var e := FailBy(w, "");
      assert Enabled(s, e, compute) && Apply(s, e).jobs[id].state == Failed;
    }
  }

  /** And then it stays so for good: over any run the row is as it is, or gone. */
  lemma {:induction false} DoneForGood(s: Sys, es: seq<Event>, compute: Compute, id: nat)
    requires Sound(s) && Runs(s, es, compute) && id in s.jobs && s.jobs[id].state == Done && Unheld(s, id)
    ensures id in After(s, es).jobs ==> After(s, es).jobs[id] == s.jobs[id]
    decreases |es|
  {
    if es != [] {
      hide Enabled, Apply, Sound, Unheld;
      StepSound(s, es[0], compute);
      UnheldSpared(s, es[0], compute, id);
      if id in Apply(s, es[0]).jobs {
        DoneForGood(Apply(s, es[0]), es[1..], compute, id);
      } else {
        SoundId(s, id);
        NextGrows(s, es[0]);
        GoneForGood(Apply(s, es[0]), es[1..], id);
      }
    }
  }

  lemma SoundId(s: Sys, id: nat)
    requires Sound(s) && id in s.jobs
    ensures id < s.nextId
  {
    assert SoundRow(s, id, s.jobs[id]);
  }

  lemma NextGrows(s: Sys, e: Event)
    ensures Apply(s, e).nextId >= s.nextId
  {
  }

  lemma {:induction false} GoneForGood(s: Sys, es: seq<Event>, id: nat)
    requires id !in s.jobs && id < s.nextId
    ensures id !in After(s, es).jobs
    decreases |es|
  {
    if es != [] {
      StaysGone(s, es[0], id);
      NextGrows(s, es[0]);
      hide Apply;
      GoneForGood(Apply(s, es[0]), es[1..], id);
    }
  }

  /** While deadlines are met no live worker holds a finished job, so that finished jobs are final. */
  lemma DoneIsFinal(s: Sys, e: Event, compute: Compute, id: nat)
    requires Sound(s) && Leased(s) && Enabled(s, e, compute)
    requires id in s.jobs && s.jobs[id].state == Done
    ensures Unheld(s, id) && Spares(s, e, id)
  {
    hide Apply, Admits, InTime, WellFormed;
    forall w | w in s.holds ensures s.holds[w].id != id {
      assert Intact(s.jobs, s.holds[w]);
    }
    FinalExactly(s, compute, id);
  }

  /** A worker that delivers in time either finds its job gone or turns it from running to done itself. */
  lemma DeliveryCounts(s: Sys, w: nat, result: string, ms: int, compute: Compute)
    requires Sound(s) && Leased(s) && Enabled(s, Complete(w, result, ms), compute)
    ensures var id, t := s.holds[w].id, Apply(s, Complete(w, result, ms)).jobs;
            id in s.jobs ==> s.jobs[id].worker == s.holds[w].job.worker && s.jobs[id].state == Running
                             && id in t && t[id].state == Done && t[id].result == Some(result)
  {
    assert Intact(s.jobs, s.holds[w]);
  }

  // ---- the deadlines are needed ----

  const LINK: Request := Request(1, None, "link-analysis", "{}")
  const LATE := 5 * MINUTE + 1

  function Claimed(attempts: nat, worker: string, started: int): Job {
    NewJob(1, None, LINK.kind, LINK.input, 0).(state := Running, attempts := attempts, worker := Some(worker), startedAt := Some(started))
  }

  /** Worker 1 claims a job and overruns; worker 2 takes it over. */
  lemma FirstClaim(compute: Compute) returns (es: seq<Event>, s: Sys)
    ensures var s0 := Sys(map[], 0, 0, map[], map[]); Initial(s0) && Runs(s0, es, compute) && After(s0, es) == s
    ensures s == Sys(map[0 := Claimed(1, "a", 0)], 1, 0, map[1 := Hold(0, Claimed(1, "a", 0))], map[])
  {
    hide Upsert, Admits, ClaimTarget;
    var s0 := Sys(map[], 0, 0, map[], map[]);
    var queued := NewJob(1, None, LINK.kind, LINK.input, 0);
    EmptyAdmits();
    EmptyUpsert();
    var s1 := Sys(map[], 0, 0, map[], map[0 := LINK]);
    assert Apply(s0, Check(0, LINK)) == s1;
    var s2 := Sys(map[0 := queued], 1, 0, map[], map[]);
    assert Apply(s1, Enqueue(0)) == s2;
    LinkClaimable(s2.jobs, 0);
    s := Sys(map[0 := Claimed(1, "a", 0)], 1, 0, map[1 := Hold(0, Claimed(1, "a", 0))], map[]);
    assert Apply(s2, ClaimBy(1, "a", false, 0)) == s;
    RunsCons(s2, ClaimBy(1, "a", false, 0), [], compute);
    RunsCons(s1, Enqueue(0), [ClaimBy(1, "a", false, 0)], compute);
    RunsCons(s0, Check(0, LINK), [Enqueue(0)] + [ClaimBy(1, "a", false, 0)], compute);
    es := [Check(0, LINK)] + ([Enqueue(0)] + [ClaimBy(1, "a", false, 0)]);
  }

  lemma SecondClaim(s: Sys, result: string, compute: Compute) returns (es: seq<Event>, s': Sys)
    requires s == Sys(map[0 := Claimed(1, "a", 0)], 1, 0, map[1 := Hold(0, Claimed(1, "a", 0))], map[])
    requires compute(LINK.kind, LINK.input) == Some(result)
    ensures Runs(s, es, compute) && After(s, es) == s'
    ensures 0 in s'.jobs && s'.jobs[0].state == Done && s'.holds == s.holds
  {
    hide Upsert, Admits, ClaimTarget;
    var s1 := s.(now := LATE);
    assert Apply(s, Tick(LATE)) == s1;
    LinkClaimable(s1.jobs, LATE);
    var mine := Claimed(2, "b", LATE);
    var s2 := Sys(map[0 := mine], 1, LATE, s.holds[2 := Hold(0, mine)], map[]);
    assert Apply(s1, ClaimBy(2, "b", false, 0)) == s2;
    s' := Apply(s2, Complete(2, result, 1));
    assert s'.holds == s.holds;
    RunsCons(s2, Complete(2, result, 1), [], compute);
    RunsCons(s1, ClaimBy(2, "b", false, 0), [Complete(2, result, 1)], compute);
    RunsCons(s, Tick(LATE), [ClaimBy(2, "b", false, 0)] + [Complete(2, result, 1)], compute);
    es := [Tick(LATE)] + ([ClaimBy(2, "b", false, 0)] + [Complete(2, result, 1)]);
  }

  /** Without deadlines a worker that overran can turn a finished job into a failed one. */
  lemma LateWriterUndoes(result: string, compute: Compute) returns (s: Sys, es: seq<Event>, e: Event)
    requires compute(LINK.kind, LINK.input) == Some(result)
    ensures Initial(s) && Runs(s, es, compute) && Enabled(After(s, es), e, compute)
    ensures 0 in After(s, es).jobs && After(s, es).jobs[0].state == Done
    ensures 0 in Apply(After(s, es), e).jobs && Apply(After(s, es), e).jobs[0].state == Failed
  {
    s := Sys(map[], 0, 0, map[], map[]);
    var es1, s1 := FirstClaim(compute);
    var es2, s2 := SecondClaim(s1, result, compute);
    RunsJoin(s, es1, es2, compute);
    es, e := es1 + es2, FailBy(1, "late");
  }

  lemma EmptyAdmits()
    ensures Admits(map[], LINK.owner, LINK.kind) && OneLine(LINK.kind)
  {
  }

  lemma EmptyUpsert()
    ensures Upsert(map[], 0, LINK, 0) == map[0 := NewJob(1, None, LINK.kind, LINK.input, 0)]
  {
  }

  lemma LinkClaimable(t: Table, now: int)
    requires t.Keys == {0} && !IsCoverage(t[0].kind)
    requires t[0].state == Queued || (t[0].state == Running && t[0].startedAt.Some? && t[0].startedAt.value < now - StaleAfter(false))
    ensures ClaimTarget(t, 0, false, StaleAfter(false), now)
  {
  }
}
