/** Login sessions with a sliding expiry (internal/store/users.go). Every statement is atomic and reads the clock once. */
module Sessions {
  import opened Options
  import opened Timeline

  /** Times are in microseconds. */
  datatype Session = Session(user: int, created: int, expires: int)

  type Table = map<string, Session>

  const HOUR: int := 3_600_000_000

  /** For how long a session lives without use, and for how long at most. */
  datatype Policy = Policy(idle: int, maxAge: int)

  function Earlier(a: int, b: int): int {
    if a <= b then a else b
  }

  function Target(s: Session, p: Policy, now: int): int {
    Earlier(now + p.idle, s.created + p.maxAge)
  }

  /** The expiry is left alone within an hour of the target. */
  predicate NearTarget(s: Session, p: Policy, now: int) {
    Target(s, p, now) - HOUR <= s.expires <= Target(s, p, now)
  }

  function Touched(s: Session, p: Policy, now: int): Session {
    if s.expires > now && !NearTarget(s, p, now) then s.(expires := Target(s, p, now)) else s
  }

  datatype Event =
    | Create(id: string, user: int, expires: int, now: int)
    | Use(id: string, now: int)
    | Delete(id: string, now: int)
    | DeleteOthers(user: int, keep: string, now: int)
    | DeleteAll(now: int)
    | DeleteExpired(now: int)

  const AT: Event -> int := (e: Event) => e.now

  function Step(t: Table, e: Event, p: Policy): Table {
    match e
    case Create(id, user, expires, now) => if id in t then t else t[id := Session(user, now, expires)]
    case Use(id, now) => if id in t then t[id := Touched(t[id], p, now)] else t
    case Delete(id, _) => t - {id}
    case DeleteOthers(user, keep, _) => map k | k in t && !(t[k].user == user && k != keep) :: t[k]
    case DeleteAll(_) => map[]
    case DeleteExpired(now) => map k | k in t && t[k].expires > now :: t[k]
  }

  function UserOf(t: Table, id: string, now: int): Option<int> {
    if id in t && t[id].expires > now then Some(t[id].user) else None
  }

  class SessionStore {
    const policy: Policy
    var rows: Table

    constructor (policy: Policy)
      ensures rows == map[] && this.policy == policy
    {
      this.policy := policy;
      rows := map[];
    }

    /** An id that exists is refused. */
    method CreateSession(id: string, user: int, expires: int, now: int) returns (ok: bool)
      modifies this
      ensures rows == Step(old(rows), Create(id, user, expires, now), policy)
      ensures ok <==> id !in old(rows)
    {
      ok := id !in rows;
      if ok {
        rows := rows[id := Session(user, now, expires)];
      }
    }

    method SessionUser(id: string, now: int) returns (user: Option<int>)
      modifies this
      ensures rows == Step(old(rows), Use(id, now), policy)
      ensures user == UserOf(old(rows), id, now)
    {
      user := if id in rows && rows[id].expires > now then Some(rows[id].user) else None;
      if user.Some? {
        var s := rows[id];
        var target := Earlier(now + policy.idle, s.created + policy.maxAge);
        if s.expires < target - HOUR || s.expires > target {
          rows := rows[id := s.(expires := target)];
        }
      }
    }

    method DeleteSession(id: string, ghost now: int)
      modifies this
      ensures rows == Step(old(rows), Delete(id, now), policy)
    {
      rows := rows - {id};
    }

    method DeleteOtherSessions(user: int, keep: string, ghost now: int) returns (n: nat)
      modifies this
      ensures rows == Step(old(rows), DeleteOthers(user, keep, now), policy)
      ensures n == |old(rows)| - |rows|
    {
      var others := set k | k in rows && rows[k].user == user && k != keep;
      Removed(rows, others);
      n := |others|;
      rows := rows - others;
    }

    method DeleteAllSessions(ghost now: int) returns (n: nat)
      modifies this
      ensures rows == Step(old(rows), DeleteAll(now), policy) && n == |old(rows)|
    {
      n := |rows|;
      rows := map[];
    }

    method DeleteExpiredSessions(now: int) returns (n: nat)
      modifies this
      ensures rows == Step(old(rows), DeleteExpired(now), policy)
      ensures n == |old(rows)| - |rows|
    {
      var expired := set k | k in rows && rows[k].expires <= now;
      Removed(rows, expired);
      n := |expired|;
      rows := rows - expired;
    }
  }

  lemma Removed(t: Table, s: set<string>)
    requires s <= t.Keys
    ensures |t - s| == |t| - |s|
  {
    assert (t - s).Keys == t.Keys - s;
    assert |t.Keys| == |t| && |(t - s).Keys| == |t - s|;
  }

  // ---- runs ----

  function Run(t: Table, es: seq<Event>, p: Policy): Table
    decreases |es|
  {
    if es == [] then t else Run(Step(t, es[0], p), es[1..], p)
  }

  /** What the uses of a session are answered. */
  function Answers(t: Table, es: seq<Event>, id: string, p: Policy): seq<Option<int>>
    decreases |es|
  {
    if es == [] then []
    else (if es[0].Use? && es[0].id == id then [UserOf(t, id, es[0].now)] else []) + Answers(Step(t, es[0], p), es[1..], id, p)
  }

  ghost predicate NoneCreated(es: seq<Event>, id: string) {
    forall e <- es :: e.Create? ==> e.id != id
  }

  // ---- the maximum age ----

  ghost predicate Capped(t: Table, p: Policy) {
    forall id <- t :: t[id].expires <= t[id].created + p.maxAge
  }

  ghost predicate CreatedCapped(es: seq<Event>, p: Policy) {
    forall e <- es :: e.Create? ==> e.expires <= e.now + p.maxAge
  }

  lemma {:induction false} AgeCapped(t: Table, es: seq<Event>, p: Policy)
    requires Capped(t, p) && CreatedCapped(es, p)
    ensures Capped(Run(t, es, p), p)
    decreases |es|
  {
    if es != [] {
      StepCapped(t, es[0], p);
      assert CreatedCapped(es[1..], p) by {
        forall e | e in es[1..] ensures e in es {}
      }
      AgeCapped(Step(t, es[0], p), es[1..], p);
    }
  }

  lemma StepCapped(t: Table, e: Event, p: Policy)
    requires Capped(t, p) && (e.Create? ==> e.expires <= e.now + p.maxAge)
    ensures Capped(Step(t, e, p), p)
  {
  }

  /** A session never answers at or after its maximum age, whatever was done in between. */
  lemma {:induction false} NoneAfterMaxAge(es: seq<Event>, p: Policy, id: string, now: int)
    requires CreatedCapped(es, p)
    ensures var t := Run(map[], es, p);
      id in t && now >= t[id].created + p.maxAge ==> UserOf(t, id, now) == None
  {
    AgeCapped(map[], es, p);
  }

  // ---- expired sessions ----

  ghost predicate AllNone(answers: seq<Option<int>>) {
    forall i :: 0 <= i < |answers| ==> answers[i] == None
  }

  /** A session that has expired never answers again. */
  lemma {:induction false} ExpiredForGood(t: Table, es: seq<Event>, id: string, p: Policy, from: int)
    requires Timed(es, AT, from) && (id in t ==> t[id].expires <= from)
    requires NoneCreated(es, id)
    ensures AllNone(Answers(t, es, id, p))
    decreases |es|
  {
    if es != [] {
      var e, rest := es[0], es[1..];
      assert NoneCreated(rest, id) by {
        forall x | x in rest ensures x in es {}
      }
      ExpiredForGood(Step(t, e, p), rest, id, p, e.now);
    }
  }

  // ---- sessions in use ----

  /** The event leaves a session of that user alone, as far as its expiry allows. */
  predicate Spares(e: Event, id: string, user: int) {
    match e
    case Delete(other, _) => other != id
    case DeleteOthers(u, keep, _) => u != user || keep == id
    case DeleteAll(_) => false
    case _ => true
  }

  function LastUse(e: Event, id: string, last: int): int {
    if e.Use? && e.id == id then e.now else last
  }

  /** Nothing deletes the session, and each next event comes less than idle minus an hour after its last use. */
  ghost predicate InUse(es: seq<Event>, id: string, user: int, p: Policy, last: int) {
    es == [] || (Spares(es[0], id, user) && es[0].now < last + p.idle - HOUR
                 && InUse(es[1..], id, user, p, LastUse(es[0], id, last)))
  }

  ghost predicate Before(es: seq<Event>, limit: int) {
    forall e <- es :: e.now < limit
  }

  ghost predicate AllUser(answers: seq<Option<int>>, user: int) {
    forall i :: 0 <= i < |answers| ==> answers[i] == Some(user)
  }

  /** The expiry is at most an hour behind what the last use could make it. */
  ghost predicate Extended(s: Session, p: Policy, last: int) {
    s.expires >= Earlier(last + p.idle, s.created + p.maxAge) - HOUR
  }

  lemma StepExtended(t: Table, e: Event, id: string, p: Policy, last: int)
    requires id in t && Extended(t[id], p, last) && Spares(e, id, t[id].user)
    requires e.now < last + p.idle - HOUR && e.now < t[id].created + p.maxAge - HOUR
    ensures UserOf(t, id, e.now) == Some(t[id].user)
    ensures var u := Step(t, e, p);
      id in u && u[id].user == t[id].user && u[id].created == t[id].created && Extended(u[id], p, LastUse(e, id, last))
  {
  }

  lemma {:induction false} LivesInUse(t: Table, es: seq<Event>, id: string, p: Policy, last: int)
    requires id in t && Extended(t[id], p, last)
    requires InUse(es, id, t[id].user, p, last) && Before(es, t[id].created + p.maxAge - HOUR)
    ensures AllUser(Answers(t, es, id, p), t[id].user)
    ensures id in Run(t, es, p)
    decreases |es|
  {
    if es != [] {
      var e, rest := es[0], es[1..];
      StepExtended(t, e, id, p, last);
      assert Before(rest, t[id].created + p.maxAge - HOUR) by {
        forall x | x in rest ensures x in es {}
      }
      LivesInUse(Step(t, e, p), rest, id, p, LastUse(e, id, last));
    }
  }

  /**
   * A session created to live for idle, and used at gaps shorter than idle minus an hour, answers every use up to an hour
   * before its maximum age.
   */
  lemma {:induction false} SessionLives(t: Table, id: string, user: int, now: int, es: seq<Event>, p: Policy)
    requires id !in t && InUse(es, id, user, p, now) && Before(es, now + p.maxAge - HOUR)
    ensures var u := Step(t, Create(id, user, now + p.idle, now), p); AllUser(Answers(u, es, id, p), user)
  {
    LivesInUse(Step(t, Create(id, user, now + p.idle, now), p), es, id, p, now);
  }

  /** A gap of idle minus an hour is too long: the expiry may have been left alone at the use before it. */
  lemma {:induction false} GapTooLong(id: string, user: int, p: Policy)
    requires p.idle > HOUR && p.maxAge >= p.idle + HOUR
    ensures var t := Step(map[], Create(id, user, p.idle, 0), p);
      Answers(t, [Use(id, HOUR), Use(id, HOUR + (p.idle - HOUR))], id, p) == [Some(user), None]
  {
    var t := Step(map[], Create(id, user, p.idle, 0), p);
    var first, second := Use(id, HOUR), Use(id, HOUR + (p.idle - HOUR));
    var es := [first, second];
    assert NearTarget(t[id], p, HOUR);
    assert Step(t, first, p)[id] == t[id];
    assert es[1..] == [second] && [second][1..] == [];
    assert Answers(Step(t, first, p), [second], id, p) == [None] + Answers(Step(Step(t, first, p), second, p), [], id, p);
  }
}
