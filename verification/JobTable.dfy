/**
 * The jobs table of internal/store/jobs.go: its rows and the effect of each SQL statement on them. Times are in
 * microseconds, as the database keeps them. The hash of a job stands for its preimage, that is, SHA-256 is taken to be
 * free of collisions.
 */
module JobTable {
  import opened Options
  import opened Decimals

  datatype State = Queued | Running | Done | Failed

  datatype Job = Job(owner: int, coverage: Option<int>, kind: string, input: string, hash: string,
                     state: State, attempts: nat, error: Option<string>, worker: Option<string>, result: Option<string>,
                     queuedAt: int, startedAt: Option<int>, finishedAt: Option<int>, computeMs: Option<int>)

  type Table = map<nat, Job>

  const KIND_COVERAGE: string := "coverage"
  const MAX_JOBS_PER_USER := 2
  const MAX_SHORT_JOBS_PER_USER := 20
  const MAX_QUEUED_JOBS := 500
  const MAX_ATTEMPTS: nat := 3

  const MINUTE := 60_000_000
  const DB_BUDGET := 10_000_000

  /** How long a worker may compute, and when its job counts as stale. */
  function Timeout(coverage: bool): int {
    if coverage then 10 * MINUTE else 2 * MINUTE
  }

  function StaleAfter(coverage: bool): int {
    if coverage then 15 * MINUTE else 5 * MINUTE
  }

  predicate IsCoverage(kind: string) {
    kind == KIND_COVERAGE
  }

  function Limit(coverage: bool): nat {
    if coverage then MAX_JOBS_PER_USER else MAX_SHORT_JOBS_PER_USER
  }

  /** The text that is hashed. */
  function HashText(kind: string, input: string): string {
    kind + "\n" + input
  }

  /** Every kind of the source is one word. */
  predicate OneLine(kind: string) {
    forall k :: 0 <= k < |kind| ==> kind[k] != '\n'
  }

  lemma HashIdentifies(kind: string, input: string, kind': string, input': string)
    requires OneLine(kind) && OneLine(kind') && HashText(kind, input) == HashText(kind', input')
    ensures kind == kind' && input == input'
  {
    FirstNewline(kind, input);
    FirstNewline(kind', input');
    var h := HashText(kind, input);
    assert kind == h[..|kind|] && kind' == h[..|kind|];
    assert input == h[|kind| + 1..] && input' == h[|kind| + 1..];
  }

  lemma FirstNewline(kind: string, input: string)
    requires OneLine(kind)
    ensures var h := HashText(kind, input); h[|kind|] == '\n' && forall k :: 0 <= k < |kind| ==> h[k] != '\n'
  {
  }

  /** The input of the job of a coverage. */
  function CoverageInput(coverage: int): string {
    "{\"coverage_id\":" + Signed(coverage) + "}"
  }

  /** Coverages do not share a job. */
  lemma CoverageInputIdentifies(c: int, d: int)
    requires CoverageInput(c) == CoverageInput(d)
    ensures c == d
  {
    var start := "{\"coverage_id\":";
    assert CoverageInput(c)[|start|..|CoverageInput(c)| - 1] == Signed(c);
    assert CoverageInput(d)[|start|..|CoverageInput(d)| - 1] == Signed(d);
    SignedIdentifies(c, d);
  }

  predicate Active(j: Job) {
    j.state == Queued || j.state == Running
  }

  function ActiveIds(t: Table, owner: int, coverage: bool): set<nat> {
    set id | id in t && t[id].owner == owner && Active(t[id]) && IsCoverage(t[id].kind) == coverage
  }

  function QueuedIds(t: Table): set<nat> {
    set id | id in t && t[id].state == Queued
  }

  /** The second statement of EnqueueJob lets the request through. */
  predicate Admits(t: Table, owner: int, kind: string) {
    |ActiveIds(t, owner, IsCoverage(kind))| < Limit(IsCoverage(kind)) && |QueuedIds(t)| < MAX_QUEUED_JOBS
  }

  predicate HasHash(t: Table, id: nat, owner: int, hash: string) {
    id in t && t[id].owner == owner && t[id].hash == hash
  }

  function NewJob(owner: int, coverage: Option<int>, kind: string, input: string, now: int): Job {
    Job(owner, coverage, kind, input, HashText(kind, input), Queued, 0, None, None, None, now, None, None, None)
  }

  /** INSERT without a conflict. */
  function Insert(t: Table, id: nat, owner: int, coverage: Option<int>, kind: string, input: string, now: int): Table {
    t[id := NewJob(owner, coverage, kind, input, now)]
  }

  /** ON CONFLICT DO UPDATE ... WHERE state = failed. */
  function Reset(t: Table, id: nat, now: int): Table {
    if id in t && t[id].state == Failed then
      t[id := t[id].(state := Queued, attempts := 0, error := None, worker := None, result := None, queuedAt := now,
                     startedAt := None, finishedAt := None, computeMs := None)]
    else t
  }

  predicate Claimable(t: Table, id: nat, coverage: bool, stale: int, now: int) {
    && id in t && IsCoverage(t[id].kind) == coverage
    && (t[id].state == Queued || (t[id].state == Running && t[id].startedAt.Some? && t[id].startedAt.value < now - stale))
  }

  /** id is one of the rows the subquery of ClaimJob may return: claimable, and none queued earlier is. */
  predicate ClaimTarget(t: Table, id: nat, coverage: bool, stale: int, now: int) {
    && Claimable(t, id, coverage, stale, now)
    && forall k :: k in t && Claimable(t, k, coverage, stale, now) ==> t[id].queuedAt <= t[k].queuedAt
  }

  function Claim(t: Table, id: nat, worker: string, now: int): Table {
    if id in t then
      t[id := t[id].(state := Running, startedAt := Some(now), worker := Some(worker), attempts := t[id].attempts + 1)]
    else t
  }

  function Finish(t: Table, id: nat, result: string, ms: int, now: int): Table {
    if id in t then
      t[id := t[id].(state := Done, result := Some(result), finishedAt := Some(now), computeMs := Some(ms), error := None)]
    else t
  }

  /** The jobs half of FinishCoverageJob. */
  function FinishCoverage(t: Table, id: nat, ms: int, now: int): Table {
    if id in t then t[id := t[id].(state := Done, finishedAt := Some(now), computeMs := Some(ms), error := None)] else t
  }

  function Fail(t: Table, id: nat, msg: string, now: int): Table {
    if id in t then t[id := t[id].(state := Failed, error := Some(msg), finishedAt := Some(now))] else t
  }

  function Requeue(t: Table, id: nat): Table {
    if id in t && t[id].state == Running then t[id := t[id].(state := Queued, worker := None)] else t
  }

  /** The janitor's DELETE. */
  function DeleteFinished(t: Table, age: int, now: int): Table {
    map id | id in t && !(!IsCoverage(t[id].kind) && !Active(t[id]) && t[id].finishedAt.Some? && t[id].finishedAt.value < now - age) :: t[id]
  }

  /** EnqueueCoverage drops the finished job of the coverage. */
  function ReplaceCoverage(t: Table, coverage: int): Table {
    map id | id in t && !(t[id].coverage == Some(coverage) && !Active(t[id])) :: t[id]
  }

  /** UpdateCoverage drops the job of the coverage unless it is running. */
  function EditCoverage(t: Table, coverage: int): Table {
    map id | id in t && !(t[id].coverage == Some(coverage) && t[id].state != Running) :: t[id]
  }

  /** The rows of a deleted coverage and of a deleted user go with them. */
  function DropCoverage(t: Table, coverage: int): Table {
    map id | id in t && t[id].coverage != Some(coverage) :: t[id]
  }

  function DropOwner(t: Table, owner: int): Table {
    map id | id in t && t[id].owner != owner :: t[id]
  }

  /** At most one row per owner and hash, and every hash is that of its row. */
  ghost predicate WellFormed(t: Table) {
    && (forall id :: id in t ==> OneLine(t[id].kind) && t[id].hash == HashText(t[id].kind, t[id].input))
    && (forall i, j :: i in t && j in t && t[i].owner == t[j].owner && t[i].hash == t[j].hash ==> i == j)
  }

  /** What a job is never changes while its row lives. */
  ghost predicate SameJob(j: Job, k: Job) {
    j.owner == k.owner && j.coverage == k.coverage && j.kind == k.kind && j.input == k.input && j.hash == k.hash
  }

  ghost predicate Oldest(t: Table, ids: set<nat>, id: nat)
    requires forall k :: k in ids ==> k in t
  {
    id in ids && forall k :: k in ids ==> t[id].queuedAt <= t[k].queuedAt
  }

  /** A non-empty set of rows has an oldest one. */
  lemma {:induction false} OldestExists(t: Table, ids: set<nat>) returns (id: nat)
    requires ids != {} && forall k :: k in ids ==> k in t
    ensures Oldest(t, ids, id)
  {
    var i :| i in ids;
    if ids == {i} {
      id := i;
    } else {
      var rest := ids - {i};
      assert rest != {} by { assert ids == {i} + rest; }
      var m := OldestExists(t, rest);
      id := if t[i].queuedAt <= t[m].queuedAt then i else m;
      assert forall k :: k in ids ==> k == i || k in rest;
    }
  }
}
