/** The wait channels of internal/web/jobs.go: a registry, its runs, and the program that keeps it. */
module JobWaits {

  // ---- runs ----

  datatype Event = Wait(id: int) | Done(id: int) | Forget(id: int)

  /** Channels are numbered as they are made. */
  datatype Registry = Registry(channels: map<int, nat>, closed: set<nat>, next: nat)

  ghost predicate Sound(s: Registry) {
    && (forall id :: id in s.channels ==> s.channels[id] < s.next && s.channels[id] !in s.closed)
    && (forall i, j :: i in s.channels && j in s.channels && s.channels[i] == s.channels[j] ==> i == j)
    && (forall c :: c in s.closed ==> c < s.next)
  }

  function Step(s: Registry, e: Event): Registry {
    match e
    case Wait(id) => if id in s.channels then s else s.(channels := s.channels[id := s.next], next := s.next + 1)
    case Done(id) =>
      if id in s.channels then s.(channels := s.channels - {id}, closed := s.closed + {s.channels[id]}) else s
    case Forget(id) => s.(channels := s.channels - {id})
  }

  function Run(s: Registry, es: seq<Event>): Registry
    decreases |es|
  {
    if es == [] then s else Run(Step(s, es[0]), es[1..])
  }

  /** The channels that the run closes, in order. */
  function Closings(s: Registry, es: seq<Event>): seq<nat>
    decreases |es|
  {
    if es == [] then []
    else (if es[0].Done? && es[0].id in s.channels then [s.channels[es[0].id]] else []) + Closings(Step(s, es[0]), es[1..])
  }

  lemma StepSound(s: Registry, e: Event)
    requires Sound(s)
    ensures Sound(Step(s, e))
  {
  }

  /** Over any run every channel is closed at most once, and none that was closed or is not made by then. */
  lemma {:induction false} ClosedOnce(s: Registry, es: seq<Event>)
    requires Sound(s)
    ensures Sound(Run(s, es))
    ensures forall c :: c in Closings(s, es) ==> c !in s.closed
    ensures forall i, j :: 0 <= i < j < |Closings(s, es)| ==> Closings(s, es)[i] != Closings(s, es)[j]
    ensures forall c :: c in Run(s, es).closed <==> c in s.closed || c in Closings(s, es)
    decreases |es|
  {
    if es != [] {
      StepSound(s, es[0]);
      ClosedOnce(Step(s, es[0]), es[1..]);
    }
  }

  /** A notification for the job comes before anyone drops its channel. */
  ghost predicate DoneFirst(es: seq<Event>, id: int) {
    es != [] && (es[0] == Done(id) || (es[0] != Forget(id) && DoneFirst(es[1..], id)))
  }

  ghost predicate DoneAt(es: seq<Event>, id: int, k: int) {
    0 <= k < |es| && es[k] == Done(id) && forall j :: 0 <= j < k ==> es[j] != Forget(id)
  }

  lemma {:induction false} DoneFirstIs(es: seq<Event>, id: int)
    ensures DoneFirst(es, id) <==> exists k :: DoneAt(es, id, k)
  {
    if es != [] {
      DoneFirstIs(es[1..], id);
      if es[0] == Done(id) {
        assert DoneAt(es, id, 0);
      } else if es[0] != Forget(id) {
        if k :| DoneAt(es[1..], id, k) {
          assert DoneAt(es, id, k + 1);
        }
        if k :| DoneAt(es, id, k) {
          assert DoneAt(es[1..], id, k - 1);
        }
      }
    }
  }

  /** A channel that is not registered is never closed any more. */
  lemma {:induction false} DroppedNotClosed(s: Registry, es: seq<Event>, c: nat)
    requires Sound(s) && c < s.next && c !in s.closed && forall i :: i in s.channels ==> s.channels[i] != c
    ensures c !in Run(s, es).closed
    decreases |es|
  {
    if es != [] {
      StepSound(s, es[0]);
      DroppedNotClosed(Step(s, es[0]), es[1..], c);
    }
  }

  lemma {:induction false} ClosedStays(s: Registry, es: seq<Event>, c: nat)
    requires c in s.closed
    ensures c in Run(s, es).closed
    decreases |es|
  {
    if es != [] {
      ClosedStays(Step(s, es[0]), es[1..], c);
    }
  }

  /**
   * When a waiter is woken, over any run: the channel of a job is closed exactly when a notification for the job comes
   * before any of its waiters gives up.
   */
  lemma {:induction false} WokenExactly(s: Registry, es: seq<Event>, id: int)
    requires Sound(s) && id in s.channels
    ensures s.channels[id] in Run(s, es).closed <==> exists k :: DoneAt(es, id, k)
    decreases |es|
  {
    DoneFirstIs(es, id);
    if es != [] {
      var e, rest, t := es[0], es[1..], Step(s, es[0]);
      StepSound(s, e);
      if e == Done(id) {
        ClosedStays(t, rest, s.channels[id]);
      } else if e == Forget(id) {
        DroppedNotClosed(t, rest, s.channels[id]);
      } else {
        WokenExactly(t, rest, id);
        DoneFirstIs(rest, id);
      }
    }
  }

  // ---- the program ----

  class Channel {
    ghost const number: nat
    var closed: bool

    constructor (ghost number: nat)
      ensures !closed && this.number == number
    {
      this.number := number;
      closed := false;
    }

    /** Closing a closed channel panics. */
    method Close()
      requires !closed
      modifies this
      ensures closed
    {
      closed := true;
    }
  }

  class Waits {
    var m: map<int, Channel>
    /** Every channel ever made, by number. */
    ghost var made: seq<Channel>

    ghost function State(): Registry
      reads this, made
    {
      Registry(map id | id in m :: m[id].number, set n | 0 <= n < |made| && made[n].closed, |made|)
    }

    /** Registered channels are open, and each belongs to one job. */
    ghost predicate Valid()
      reads this, made
    {
      && (forall n :: 0 <= n < |made| ==> made[n].number == n)
      && (forall id :: id in m ==> m[id].number < |made| && made[m[id].number] == m[id])
      && Sound(State())
    }

    constructor ()
      ensures Valid() && State() == Registry(map[], {}, 0)
    {
      m, made := map[], [];
    }

    /** The channel that Done(id) will close; all waiters of one job share it. */
    method Wait(id: int) returns (ch: Channel)
      requires Valid()
      modifies this
      ensures Valid() && State() == Step(old(State()), Event.Wait(id))
      ensures id in m && m[id] == ch && !ch.closed && (if id in old(m) then ch == old(m)[id] else fresh(ch))
    {
      ghost var s := State();
      if id in m {
        ch := m[id];
        assert s.channels[id] == ch.number;
      } else {
        ch := new Channel(|made|);
        m := m[id := ch];
        made := made + [ch];
        assert State().channels == s.channels[id := s.next];
        assert State().closed == s.closed;
      }
      StepSound(s, Event.Wait(id));
    }

    /** Closes the channel of the job, which is open, and no other. */
    method Done(id: int)
      requires Valid()
      modifies this`m, if id in m then {m[id]} else {}
      ensures Valid() && State() == Step(old(State()), Event.Done(id))
    {
      ghost var s := State();
      if id in m {
        assert s.channels[id] == m[id].number;
        m[id].Close();
        assert State().closed == s.closed + {s.channels[id]};
        m := m - {id};
        assert State().channels == s.channels - {id};
      }
      StepSound(s, Event.Done(id));
    }

    /** Drops the channel, whoever else may wait on it. */
    method Forget(id: int)
      requires Valid()
      modifies this`m
      ensures Valid() && State() == Step(old(State()), Event.Forget(id))
    {
      ghost var s := State();
      m := m - {id};
      assert State().channels == s.channels - {id};
      StepSound(s, Event.Forget(id));
    }
  }
}
