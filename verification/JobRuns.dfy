/** Runs put together and taken apart, and whose events are in them. */
module JobRuns {
  import opened Options
  import opened JobTable
  import opened JobProtocol

  // ---- joining and splitting ----

  lemma {:induction false} RunsCons(s: Sys, e: Event, es: seq<Event>, compute: Compute)
    requires Enabled(s, e, compute) && Runs(Apply(s, e), es, compute)
    ensures Runs(s, [e] + es, compute) && After(s, [e] + es) == After(Apply(s, e), es)
  {
    hide Enabled, Apply;
    assert ([e] + es)[1..] == es;
  }

  lemma {:induction false} RunsJoin(s: Sys, es: seq<Event>, fs: seq<Event>, compute: Compute)
    requires Runs(s, es, compute) && Runs(After(s, es), fs, compute)
    ensures Runs(s, es + fs, compute) && After(s, es + fs) == After(After(s, es), fs)
    decreases |es|
  {
    if es == [] {
      assert es + fs == fs;
    } else {
      hide Enabled, Apply;
      RunsJoin(Apply(s, es[0]), es[1..], fs, compute);
      RunsCons(s, es[0], es[1..] + fs, compute);
      assert [es[0]] + (es[1..] + fs) == es + fs;
    }
  }

  lemma {:induction false} RunsSplit(s: Sys, es: seq<Event>, fs: seq<Event>, compute: Compute)
    requires Runs(s, es + fs, compute)
    ensures Runs(s, es, compute) && Runs(After(s, es), fs, compute) && After(s, es + fs) == After(After(s, es), fs)
    decreases |es|
  {
    if es == [] {
      assert es + fs == fs;
    } else {
      hide Enabled, Apply;
      assert (es + fs)[1..] == es[1..] + fs;
      RunsSplit(Apply(s, es[0]), es[1..], fs, compute);
    }
  }

  lemma {:induction false} RunsAppend(s: Sys, es: seq<Event>, e: Event, compute: Compute)
    requires Runs(s, es, compute) && Enabled(After(s, es), e, compute)
    ensures Runs(s, es + [e], compute) && After(s, es + [e]) == Apply(After(s, es), e)
  {
    hide Enabled, Apply;
    assert [e][1..] == [];
    RunsJoin(s, es, [e], compute);
  }

  /** What the table may become: rows go, and those that stay are still the same jobs; ids are not used again. */
  ghost predicate Evolves(t: Table, next: nat, t': Table, next': nat) {
    next <= next' && forall id :: id in t' && id < next ==> id in t && SameJob(t[id], t'[id])
  }

  lemma StepEvolves(s: Sys, e: Event, compute: Compute)
    requires Sound(s) && Enabled(s, e, compute)
    ensures Evolves(s.jobs, s.nextId, Apply(s, e).jobs, Apply(s, e).nextId)
  {
    if !e.Enqueue? {
      StepKeeps(s, e);
    }
  }

  lemma {:induction false} RunEvolves(s: Sys, es: seq<Event>, compute: Compute)
    requires Sound(s) && Runs(s, es, compute)
    ensures Evolves(s.jobs, s.nextId, After(s, es).jobs, After(s, es).nextId)
    decreases |es|
  {
    if es != [] {
      hide Enabled, Apply, Sound;
      StepEvolves(s, es[0], compute);
      StepSound(s, es[0], compute);
      RunEvolves(Apply(s, es[0]), es[1..], compute);
    }
  }

  // ---- whose events ----

  /** A request by its ticket, a worker by its number. */
  datatype Actor = Actor(ticket: Option<nat>, worker: Option<nat>)

  predicate By(e: Event, a: Actor) {
    match e
    case Check(r, _) => a.ticket == Some(r)
    case Enqueue(r) => a.ticket == Some(r)
    case Abandon(r) => a.ticket == Some(r)
    case ClaimBy(w, _, _, _) => a.worker == Some(w)
    case Complete(w, _, _) => a.worker == Some(w)
    case CompleteCoverage(w, _) => a.worker == Some(w)
    case FailBy(w, _) => a.worker == Some(w)
    case RequeueBy(w) => a.worker == Some(w)
    case Vanish(w) => a.worker == Some(w)
    case _ => false
  }

  /** The events of the actor, in order. */
  function Own(es: seq<Event>, a: Actor): seq<Event> {
    if es == [] then [] else (if By(es[0], a) then [es[0]] else []) + Own(es[1..], a)
  }

  lemma {:induction false} OwnJoins(es: seq<Event>, fs: seq<Event>, a: Actor)
    ensures Own(es + fs, a) == Own(es, a) + Own(fs, a)
  {
    if es == [] {
      assert es + fs == fs;
    } else {
      assert (es + fs)[1..] == es[1..] + fs;
      OwnJoins(es[1..], fs, a);
    }
  }

  /** The log has grown, by the actor's own events and any others. */
  ghost predicate Grows(l: seq<Event>, l': seq<Event>, a: Actor, own: seq<Event>) {
    l <= l' && Own(l'[|l|..], a) == own
  }

  lemma GrowsNot(l: seq<Event>, a: Actor)
    ensures Grows(l, l, a, [])
  {
  }

  lemma GrowsOne(l: seq<Event>, e: Event, a: Actor)
    ensures Grows(l, l + [e], a, if By(e, a) then [e] else [])
  {
    assert (l + [e])[|l|..] == [e] && [e][1..] == [];
  }

  lemma GrowsChain(l: seq<Event>, l1: seq<Event>, l2: seq<Event>, a: Actor, own1: seq<Event>, own2: seq<Event>)
    requires Grows(l, l1, a, own1) && Grows(l1, l2, a, own2)
    ensures Grows(l, l2, a, own1 + own2)
  {
    OwnJoins(l1[|l|..], l2[|l1|..], a);
    assert l2[|l|..] == l1[|l|..] + l2[|l1|..];
  }

  // ---- a log ----

  /** The log is a run of the protocol from an empty table, and ends in state s. */
  ghost predicate Reaches(start: Sys, log: seq<Event>, s: Sys, compute: Compute) {
    Initial(start) && Runs(start, log, compute) && After(start, log) == s
  }

  lemma ReachesSound(start: Sys, log: seq<Event>, s: Sys, compute: Compute)
    requires Reaches(start, log, s, compute)
    ensures Sound(s) && Cached(s.jobs, compute)
  {
    InitialSound(start, compute);
    CacheIsExact(start, log, compute);
    hide *;
  }

  lemma ReachesMore(start: Sys, log: seq<Event>, s: Sys, e: Event, compute: Compute)
    requires Reaches(start, log, s, compute) && Enabled(s, e, compute)
    ensures Reaches(start, log + [e], Apply(s, e), compute)
  {
    hide Enabled, Apply;
    RunsAppend(start, log, e, compute);
  }

  lemma LogEvolves(start: Sys, l: seq<Event>, s: Sys, l': seq<Event>, s': Sys, compute: Compute)
    requires Reaches(start, l, s, compute) && Reaches(start, l', s', compute) && l <= l'
    ensures Evolves(s.jobs, s.nextId, s'.jobs, s'.nextId)
  {
    var es := l'[|l|..];
    assert l' == l + es;
    ReachesSound(start, l, s, compute);
    hide Sound, Cached, Evolves;
    RunsSplit(start, l, es, compute);
    RunEvolves(s, es, compute);
  }

  /** The hold and the permit of an actor are as it left them. */
  ghost predicate Waits(s: Sys, s': Sys, a: Actor) {
    && (a.ticket.Some? ==> (a.ticket.value in s.permits <==> a.ticket.value in s'.permits)
                           && (a.ticket.value in s.permits ==> s'.permits[a.ticket.value] == s.permits[a.ticket.value]))
    && (a.worker.Some? ==> (a.worker.value in s.holds <==> a.worker.value in s'.holds)
                           && (a.worker.value in s.holds ==> s'.holds[a.worker.value] == s.holds[a.worker.value]))
  }

  lemma StepWaits(s: Sys, e: Event, a: Actor)
    requires !By(e, a)
    ensures Waits(s, Apply(s, e), a)
  {
    hide Upsert;
  }

  lemma {:induction false} RunWaits(s: Sys, es: seq<Event>, a: Actor)
    requires Own(es, a) == []
    ensures Waits(s, After(s, es), a)
    decreases |es|
  {
    if es != [] {
      StepWaits(s, es[0], a);
      hide Apply, By;
      RunWaits(Apply(s, es[0]), es[1..], a);
    }
  }

  lemma LogWaits(start: Sys, l: seq<Event>, s: Sys, l': seq<Event>, s': Sys, a: Actor, compute: Compute)
    requires Reaches(start, l, s, compute) && Reaches(start, l', s', compute) && Grows(l, l', a, [])
    ensures Waits(s, s', a)
  {
    var es := l'[|l|..];
    assert l' == l + es;
    hide Waits;
    RunsSplit(start, l, es, compute);
    RunWaits(s, es, a);
  }
}
