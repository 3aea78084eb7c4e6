/** The sliding-window login limiter (`limited` in src/unraid_updater/web.py). Instants are seconds on a
    monotonic clock. */
module LoginLimiter {

  const WINDOW := 300.0
  const LIMIT := 8

  /** The queue without the instants that have left the window. */
  function Recent(queue: seq<real>, now: real): seq<real> {
    if queue != [] && now - queue[0] > WINDOW then Recent(queue[1..], now) else queue
  }

  function QueueOf(attempts: map<string, seq<real>>, remote: string): seq<real> {
    if remote in attempts then attempts[remote] else []
  }

  predicate IsLimited(queue: seq<real>, now: real) {
    |Recent(queue, now)| >= LIMIT
  }

  function Next(queue: seq<real>, now: real): seq<real> {
    if IsLimited(queue, now) then Recent(queue, now) else Recent(queue, now) + [now]
  }

  class Limiter {
    var attempts: map<string, seq<real>>

    constructor ()
      ensures attempts == map[]
    {
      attempts := map[];
    }

    method Limited(remote: string, now: real) returns (limited: bool)
      modifies this
      ensures limited == IsLimited(QueueOf(old(attempts), remote), now)
      ensures attempts == old(attempts)[remote := Next(QueueOf(old(attempts), remote), now)]
    {
      var queue := if remote in attempts then attempts[remote] else [];
      while queue != [] && now - queue[0] > WINDOW
        invariant Recent(queue, now) == Recent(QueueOf(old(attempts), remote), now)
        decreases |queue|
      {
        queue := queue[1..];
      }
      assert queue == Recent(QueueOf(old(attempts), remote), now);
      if |queue| >= LIMIT {
        attempts := attempts[remote := queue];
        return true;
      }
      attempts := attempts[remote := queue + [now]];
      return false;
    }
  }

  // ---------------------------------------------------------------- whole histories

  datatype Attempt = Attempt(remote: string, at: real)

  ghost predicate Ordered(events: seq<Attempt>) {
    forall i, j :: 0 <= i < j < |events| ==> events[i].at <= events[j].at
  }

  /** The limiter's queues after a history, from the empty start. */
  function Queues(events: seq<Attempt>): map<string, seq<real>> {
    if events == [] then map[]
    else
      var before, e := Queues(events[..|events| - 1]), events[|events| - 1];
      before[e.remote := Next(QueueOf(before, e.remote), e.at)]
  }

  /** The accepted instants of one remote, over the whole history. */
  function Accepted(events: seq<Attempt>, remote: string): seq<real> {
    if events == [] then []
    else
      var rest, e := events[..|events| - 1], events[|events| - 1];
      Accepted(rest, remote)
      + if e.remote == remote && !IsLimited(QueueOf(Queues(rest), remote), e.at) then [e.at] else []
  }

  ghost predicate Sorted(s: seq<real>) {
    forall i, j :: 0 <= i < j < |s| ==> s[i] <= s[j]
  }

  /** How many instants of a history lie within the closed window that ends at `now`. */
  function CountSince(s: seq<real>, start: real): nat {
    if s == [] then 0 else CountSince(s[..|s| - 1], start) + if s[|s| - 1] >= start then 1 else 0
  }

  lemma {:induction false} CountAll(s: seq<real>, start: real)
    requires forall i :: 0 <= i < |s| ==> s[i] >= start
    ensures CountSince(s, start) == |s|
  {
    if s != [] {
      CountAll(s[..|s| - 1], start);
    }
  }

  lemma {:induction false} CountSplits(a: seq<real>, b: seq<real>, start: real)
    requires forall i :: 0 <= i < |a| ==> a[i] < start
    ensures CountSince(a + b, start) == CountSince(b, start)
    decreases |a| + |b|
  {
    if b == [] {
      assert a + b == a;
      if a != [] {
        CountSplits(a[..|a| - 1], [], start);
        assert a[..|a| - 1] + [] == a[..|a| - 1];
      }
    } else {
      CountSplits(a, b[..|b| - 1], start);
      assert (a + b)[..|a + b| - 1] == a + b[..|b| - 1];
    }
  }

  lemma {:induction false} RecentIsSuffix(queue: seq<real>, now: real)
    requires Sorted(queue)
    ensures var r := Recent(queue, now);
            && |r| <= |queue| && r == queue[|queue| - |r|..]
            && (forall i :: 0 <= i < |queue| - |r| ==> now - queue[i] > WINDOW)
            && (forall i :: 0 <= i < |r| ==> now - r[i] <= WINDOW)
  {
    if queue != [] && now - queue[0] > WINDOW {
      RecentIsSuffix(queue[1..], now);
    } else if queue != [] {
      assert forall i :: 0 <= i < |queue| ==> queue[0] <= queue[i];
    }
  }

  lemma {:induction false} LastSeen(events: seq<Attempt>, remote: string)
    requires Ordered(events)
    ensures Sorted(Accepted(events, remote))
    ensures events == [] ==> Accepted(events, remote) == []
    ensures events != [] ==> forall i :: 0 <= i < |Accepted(events, remote)| ==>
            Accepted(events, remote)[i] <= events[|events| - 1].at
  {
    if events != [] {
      var rest := events[..|events| - 1];
      LastSeen(rest, remote);
      assert rest != [] ==> rest[|rest| - 1].at <= events[|events| - 1].at;
    }
  }

  /** A queue that has kept the end of the history and lost only what left the window. */
  ghost predicate KeepsRecent(all: seq<real>, queue: seq<real>, at: real) {
    && |queue| <= |all| && queue == all[|all| - |queue|..]
    && forall i :: 0 <= i < |all| - |queue| ==> at - all[i] > WINDOW
  }

  lemma ShorterKeepsRecent(all: seq<real>, queue: seq<real>, before: real, at: real)
    requires Sorted(all) && KeepsRecent(all, queue, before) && before <= at
    ensures KeepsRecent(all, Recent(queue, at), at)
    ensures forall i :: 0 <= i < |Recent(queue, at)| ==> at - Recent(queue, at)[i] <= WINDOW
  {
    assert Sorted(queue);
    RecentIsSuffix(queue, at);
    var r := Recent(queue, at);
    assert r == all[|all| - |r|..];
    forall i | 0 <= i < |all| - |r| ensures at - all[i] > WINDOW {
      if i >= |all| - |queue| {
        assert all[i] == queue[i - (|all| - |queue|)];
      }
    }
  }

  lemma LongerKeepsRecent(all: seq<real>, queue: seq<real>, at: real)
    requires KeepsRecent(all, queue, at)
    ensures KeepsRecent(all + [at], queue + [at], at)
  {
  }

  lemma LaterKeepsRecent(all: seq<real>, queue: seq<real>, before: real, at: real)
    requires KeepsRecent(all, queue, before) && before <= at
    ensures KeepsRecent(all, queue, at)
  {
  }

  lemma NothingForgotten(at: real)
    ensures KeepsRecent([], [], at)
  {
  }

  lemma EarlierEvents(events: seq<Attempt>)
    requires Ordered(events) && events != []
    ensures Ordered(events[..|events| - 1])
    ensures |events| > 1 ==> events[|events| - 2].at <= events[|events| - 1].at
  {
  }

  /** The queue is the recent part of the accepted history: it has forgotten only instants that no
      later window can contain. */
  lemma {:induction false} QueueIsRecentHistory(events: seq<Attempt>, remote: string)
    requires Ordered(events)
    ensures events == [] ==> QueueOf(Queues(events), remote) == [] == Accepted(events, remote)
    ensures events != [] ==> KeepsRecent(Accepted(events, remote), QueueOf(Queues(events), remote),
            events[|events| - 1].at)
  {
    hide Recent, IsLimited, Ordered, Sorted, KeepsRecent;
    if events != [] {
      var rest, e := events[..|events| - 1], events[|events| - 1];
      EarlierEvents(events);
      NothingForgotten(e.at);
      QueueIsRecentHistory(rest, remote);
      LastSeen(rest, remote);
      var all, queue := Accepted(rest, remote), QueueOf(Queues(rest), remote);
      var before := if rest == [] then e.at else rest[|rest| - 1].at;
      assert KeepsRecent(all, queue, before) && before <= e.at;
      LaterKeepsRecent(all, queue, before, e.at);
      ShorterKeepsRecent(all, queue, before, e.at);
      LongerKeepsRecent(all, Recent(queue, e.at), e.at);
      assert all + [] == all;
    }
  }

  /** The queue's answer is the count over the full history: an attempt is refused exactly when eight
      attempts of its remote were accepted in the closed window of 300 seconds that ends with it. */
  lemma RefusedExactlyWhenFull(events: seq<Attempt>, remote: string, now: real)
    requires Ordered(events) && (events != [] ==> events[|events| - 1].at <= now)
    ensures IsLimited(QueueOf(Queues(events), remote), now) <==>
            CountSince(Accepted(events, remote), now - 300.0) >= 8
  {
    hide Recent, CountSince;
    QueueIsRecentHistory(events, remote);
    LastSeen(events, remote);
    var all, queue := Accepted(events, remote), QueueOf(Queues(events), remote);
    ShorterKeepsRecent(all, queue, if events == [] then now else events[|events| - 1].at, now);
    var r := Recent(queue, now);
    var dropped := all[..|all| - |r|];
    assert all == dropped + r;
    CountSplits(dropped, r, now - WINDOW);
    CountAll(r, now - WINDOW);
  }

  /** No closed window of 300 seconds ever holds more than eight accepted attempts of one remote: the
      ninth after any accepted attempt comes more than 300 seconds later. */
  lemma {:induction false} AtMostEightPerWindow(events: seq<Attempt>, remote: string, i: nat)
    requires Ordered(events) && i + 8 < |Accepted(events, remote)|
    ensures Accepted(events, remote)[i + 8] - Accepted(events, remote)[i] > 300.0
  {
    var rest, e := events[..|events| - 1], events[|events| - 1];
    if i + 8 < |Accepted(rest, remote)| {
      AtMostEightPerWindow(rest, remote, i);
    } else {
      var all, queue := Accepted(rest, remote), QueueOf(Queues(rest), remote);
      QueueIsRecentHistory(rest, remote);
      LastSeen(rest, remote);
      ShorterKeepsRecent(all, queue, if rest == [] then e.at else rest[|rest| - 1].at, e.at);
      assert i == |all| - LIMIT && |Recent(queue, e.at)| < LIMIT;
    }
  }
}
