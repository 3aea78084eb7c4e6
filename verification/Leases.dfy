/** Per-container execution leases and operation records shared by many workers
    (src/unraid_updater/execution_gate.py). Every `BEGIN IMMEDIATE` block is one atomic step; instants
    are microseconds (module `IsoTime` shows that the stored texts compare the same way). */
module Leases {
  import opened Strings

  datatype Lease = Lease(container: string, owner: string, acquired: int, expires: int)

  datatype OperationStatus = Leased | Running | Succeeded | Failed | Cancelled

  datatype Operation = Operation(container: string, status: OperationStatus, result: string, error: string)

  /** The two tables, keyed by operation id. */
  datatype Tables = Tables(leases: map<string, Lease>, operations: map<string, Operation>)

  const NO_ROWS := Tables(map[], map[])

  const SECOND := 1_000_000

  // ---------------------------------------------------------------- specification

  function Unexpired(leases: map<string, Lease>, now: int): map<string, Lease> {
    map op | op in leases && leases[op].expires > now :: leases[op]
  }

  predicate Occupied(leases: map<string, Lease>, container: string) {
    exists op :: op in leases && leases[op].container == container
  }

  predicate CanAcquire(t: Tables, op: string, container: string, owner: string, ttl: int, now: int) {
    && op != "" && container != "" && owner != "" && ttl > 0
    && !Occupied(Unexpired(t.leases, now), container)
    && op !in Unexpired(t.leases, now)
  }

  /** A rejected acquisition rolls back its sweep of expired leases as well. */
  function Acquire(t: Tables, op: string, container: string, owner: string, ttl: int, now: int): Tables {
    if CanAcquire(t, op, container, owner, ttl, now) then
      Tables(Unexpired(t.leases, now)[op := Lease(container, owner, now, now + ttl * SECOND)],
             if op in t.operations then t.operations else t.operations[op := Operation(container, Leased, "{}", "")])
    else t
  }

  predicate CanRelease(t: Tables, op: string, owner: Option<string>) {
    op in t.leases && (owner.None? || owner.value == t.leases[op].owner)
  }

  function Release(t: Tables, op: string, owner: Option<string>): Tables {
    if CanRelease(t, op, owner) then t.(leases := t.leases - {op}) else t
  }

  function Record(t: Tables, op: string, status: OperationStatus, result: string, error: string): Tables {
    if op != "" && op in t.operations
    then t.(operations := t.operations[op := t.operations[op].(status := status, result := result, error := error)])
    else t
  }

  // ---------------------------------------------------------------- the store

  class LeaseStore {
    var leases: map<string, Lease>
    var operations: map<string, Operation>

    function Rows(): Tables
      reads this
    {
      Tables(leases, operations)
    }

    constructor ()
      ensures Rows() == NO_ROWS
    {
      leases, operations := map[], map[];
    }

    method AcquireLease(op: string, container: string, owner: string, ttl: int, now: int) returns (ok: bool)
      modifies this
      ensures ok == CanAcquire(old(Rows()), op, container, owner, ttl, now)
      ensures Rows() == Acquire(old(Rows()), op, container, owner, ttl, now)
    {
      if op == "" || container == "" || owner == "" || ttl <= 0 {
        return false;
      }
      var before := leases;
      leases := map k | k in leases && leases[k].expires > now :: leases[k];
      if exists k :: k in leases && leases[k].container == container {
        leases := before;
        return false;
      }
      if op in leases {
        leases := before;
        return false;
      }
      leases := leases[op := Lease(container, owner, now, now + ttl * SECOND)];
      if op !in operations {
        operations := operations[op := Operation(container, Leased, "{}", "")];
      }
      return true;
    }

    method ReleaseLease(op: string, owner: Option<string>) returns (ok: bool)
      modifies this
      ensures ok == CanRelease(old(Rows()), op, owner)
      ensures Rows() == Release(old(Rows()), op, owner)
    {
      ok := op in leases && (owner.None? || leases[op].owner == owner.value);
      if ok {
        leases := leases - {op};
      }
    }

    method RecordOperation(op: string, status: OperationStatus, result: string, error: string) returns (ok: bool)
      modifies this
      ensures ok == (op != "" && op in old(operations))
      ensures Rows() == Record(old(Rows()), op, status, result, error)
    {
      ok := op != "" && op in operations;
      if ok {
        operations := operations[op := operations[op].(status := status, result := result, error := error)];
      }
    }

    method GetOperation(op: string) returns (found: Option<Operation>)
      ensures found == if op in operations then Some(operations[op]) else None
    {
      found := if op in operations then Some(operations[op]) else None;
    }
  }

  // ---------------------------------------------------------------- interleaved workers

  /** One committed step of some worker. */
  datatype Event =
    | DoAcquire(op: string, container: string, owner: string, ttl: int, now: int)
    | DoRelease(op: string, onlyOwner: Option<string>)
    | DoRecord(op: string, status: OperationStatus, result: string, error: string)
    | Elsewhere   // a step that touches neither table

  function Apply(t: Tables, e: Event): Tables {
    match e
    case DoAcquire(op, container, owner, ttl, now) => Acquire(t, op, container, owner, ttl, now)
    case DoRelease(op, owner) => Release(t, op, owner)
    case DoRecord(op, status, result, error) => Record(t, op, status, result, error)
    case Elsewhere => t
  }

  /** The tables after the first `n` steps. */
  function After(events: seq<Event>, n: nat): Tables
    requires n <= |events|
  {
    if n == 0 then NO_ROWS else Apply(After(events, n - 1), events[n - 1])
  }

  /** Acquisition stamps do not decrease in commit order. */
  ghost predicate StampsAscend(events: seq<Event>) {
    forall i, j :: 0 <= i < j < |events| && events[i].DoAcquire? && events[j].DoAcquire? ==>
      events[i].now <= events[j].now
  }

  ghost predicate Acquires(events: seq<Event>, i: nat) {
    && i < |events| && events[i].DoAcquire?
    && CanAcquire(After(events, i), events[i].op, events[i].container, events[i].owner, events[i].ttl, events[i].now)
  }

  ghost predicate Releases(events: seq<Event>, k: nat, op: string) {
    && k < |events| && events[k].DoRelease? && events[k].op == op
    && CanRelease(After(events, k), op, events[k].onlyOwner)
  }

  function LeaseOf(e: Event): Lease
    requires e.DoAcquire?
  {
    Lease(e.container, e.owner, e.now, e.now + e.ttl * 1_000_000)
  }

  /** No container is leased twice. */
  ghost predicate OneLeaseEach(t: Tables) {
    forall a, b :: a in t.leases && b in t.leases && t.leases[a].container == t.leases[b].container ==> a == b
  }

  lemma {:induction false} AlwaysOneLeaseEach(events: seq<Event>, n: nat)
    requires n <= |events|
    ensures OneLeaseEach(After(events, n))
  {
    if n > 0 {
      AlwaysOneLeaseEach(events, n - 1);
    }
  }

  /** What may have become of the lease acquired at step `i` by step `n`. */
  ghost predicate HeldOrEnded(events: seq<Event>, i: nat, n: nat)
    requires i < n <= |events| && events[i].DoAcquire?
  {
    || (events[i].op in After(events, n).leases && After(events, n).leases[events[i].op] == LeaseOf(events[i]))
    || (exists k :: i < k < n && Releases(events, k, events[i].op))
    || (exists k :: i < k < n && Acquires(events, k) && events[k].now >= LeaseOf(events[i]).expires)
  }

  lemma {:induction false} LeaseLasts(events: seq<Event>, i: nat, n: nat)
    requires Acquires(events, i) && i < n <= |events|
    ensures HeldOrEnded(events, i, n)
  {
    var op := events[i].op;
    if n == i + 1 {
      assert After(events, n) == Apply(After(events, i), events[i]);
    } else {
      LeaseLasts(events, i, n - 1);
      var t, e := After(events, n - 1), events[n - 1];
      if op in t.leases && t.leases[op] == LeaseOf(events[i]) {
        if Acquires(events, n - 1) && e.now >= LeaseOf(events[i]).expires {
        } else if e.DoRelease? && e.op == op && CanRelease(t, op, e.onlyOwner) {
          assert Releases(events, n - 1, op);
        } else {
          assert op in Apply(t, e).leases && Apply(t, e).leases[op] == t.leases[op];
        }
      } else if exists k :: i < k < n - 1 && Releases(events, k, op) {
        var k :| i < k < n - 1 && Releases(events, k, op);
        assert i < k < n;
      } else {
        var k :| i < k < n - 1 && Acquires(events, k) && events[k].now >= LeaseOf(events[i]).expires;
        assert i < k < n;
      }
    }
  }

  /** Mutual exclusion: whatever the interleaving, when a container is acquired twice, the first lease
      had expired or its operation had been released before the second began. */
  lemma LeasesExclude(events: seq<Event>, i: nat, j: nat)
    requires StampsAscend(events) && i < j && Acquires(events, i) && Acquires(events, j)
    requires events[i].container == events[j].container
    ensures || LeaseOf(events[i]).expires <= events[j].now
            || exists k :: i < k < j && Releases(events, k, events[i].op)
  {
    LeaseLasts(events, i, j);
    var t := After(events, j);
    var live := Unexpired(t.leases, events[j].now);
    assert forall op :: op in t.leases && t.leases[op].expires > events[j].now ==>
           op in live && live[op] == t.leases[op];
    assert !Occupied(live, events[j].container);
  }

  /** Releasing, recording, and being refused touch no other operation's lease. */
  lemma OtherLeasesStand(t: Tables, e: Event, op: string)
    requires (!e.Elsewhere? ==> e.op != op) && op in t.leases
    ensures e.DoAcquire? && !CanAcquire(t, e.op, e.container, e.owner, e.ttl, e.now) ==> Apply(t, e) == t
    ensures op !in Apply(t, e).leases ==>
              && e.DoAcquire? && CanAcquire(t, e.op, e.container, e.owner, e.ttl, e.now)
              && t.leases[op].expires <= e.now
    ensures op in Apply(t, e).leases ==> Apply(t, e).leases[op] == t.leases[op]
  {
  }

  /** The step that wrote the lease row of an operation, if there is a row after `n` steps: steps are
      told apart even when they wrote equal rows. */
  ghost function Holder(events: seq<Event>, n: nat, op: string): Option<nat>
    requires n <= |events|
  {
    if n == 0 || op !in After(events, n).leases then None
    else if Acquires(events, n - 1) && events[n - 1].op == op then Some(n - 1)
    else Holder(events, n - 1, op)
  }

  ghost predicate TakenBetween(events: seq<Event>, i: nat, n: nat, op: string) {
    exists j: nat :: i < j < n && Acquires(events, j) && events[j].op == op
  }

  /** A lease row is always the one of the latest acquisition under its operation id. */
  lemma {:induction false} HolderIsTheLatest(events: seq<Event>, n: nat, op: string)
    requires n <= |events| && op in After(events, n).leases
    ensures Holder(events, n, op).Some?
    ensures var j := Holder(events, n, op).value;
            && j < n && Acquires(events, j) && events[j].op == op && !TakenBetween(events, j, n, op)
            && After(events, n).leases[op] == LeaseOf(events[j])
  {
    hide CanAcquire, Apply;
    if n > 0 {
      var t, e := After(events, n - 1), events[n - 1];
      if Acquires(events, n - 1) && e.op == op {
        AcquiredRow(t, e);
      } else {
        KeptRow(t, e, op);
        HolderIsTheLatest(events, n - 1, op);
      }
    }
  }

  /** Step `k` ends the lease taken at step `i`: a release of its operation, or an acquisition at or
      after its expiry, which sweeps it. */
  ghost predicate Ends(events: seq<Event>, i: nat, k: nat)
    requires i < |events| && events[i].DoAcquire?
  {
    Releases(events, k, events[i].op) || (Acquires(events, k) && events[k].now >= LeaseOf(events[i]).expires)
  }

  /** A lease row is still the one of its acquisition exactly while nothing has ended it. */
  lemma {:induction false} HolderStaysExactly(events: seq<Event>, i: nat, n: nat)
    requires Acquires(events, i) && i < n <= |events|
    ensures Holder(events, n, events[i].op) == Some(i) <==> forall k: nat :: i < k < n ==> !Ends(events, i, k)
    decreases n
  {
    hide Apply, CanAcquire, CanRelease, Ends;
    var op := events[i].op;
    var t, e := After(events, n - 1), events[n - 1];
    if n == i + 1 {
      AcquiredRow(t, e);
    } else {
      HolderStaysExactly(events, i, n - 1);
      if Holder(events, n - 1, op) == Some(i) {
        HolderIsTheLatest(events, n - 1, op);
        RowEndsExactly(events, i, n - 1);
      }
    }
  }

  lemma RowEndsExactly(events: seq<Event>, i: nat, k: nat)
    requires i < k < |events| && events[i].DoAcquire?
    requires var op, t := events[i].op, After(events, k); op in t.leases && t.leases[op] == LeaseOf(events[i])
    ensures Ends(events, i, k) <==>
            events[i].op !in After(events, k + 1).leases || (Acquires(events, k) && events[k].op == events[i].op)
  {
    hide Occupied;
    assert After(events, k + 1) == Apply(After(events, k), events[k]);
  }

  lemma LatestComesLast(events: seq<Event>, j: nat, i: nat, n: nat, op: string)
    requires !TakenBetween(events, j, n, op) && i < n && Acquires(events, i) && events[i].op == op
    ensures i <= j
  {
  }

  /** What a release frees. It frees the lease of the worker that acquired at step `i` exactly when
      nobody has acquired the operation since; otherwise it frees the lease of the latest acquisition,
      which has the owner the release names, and which came only after the first lease was released
      or had expired. */
  lemma ReleaseFreesOwnExactly(events: seq<Event>, i: nat, n: nat)
    requires Acquires(events, i) && i < n && Releases(events, n, events[i].op)
    ensures var op := events[i].op;
            && Holder(events, n, op).Some? && Holder(events, n + 1, op).None?
            && (Holder(events, n, op) == Some(i) <==> !TakenBetween(events, i, n, op))
            && var j := Holder(events, n, op).value;
               && i <= j < n && Acquires(events, j) && After(events, n).leases[op] == LeaseOf(events[j])
               && (events[n].onlyOwner.Some? ==> events[j].owner == events[n].onlyOwner.value)
               && (StampsAscend(events) && j != i ==>
                     || events[j].now >= LeaseOf(events[i]).expires
                     || exists k :: i < k < j && Releases(events, k, op))
  {
    hide CanAcquire;
    var op := events[i].op;
    HolderIsTheLatest(events, n, op);
    var j := Holder(events, n, op).value;
    LatestComesLast(events, j, i, n, op);
    if StampsAscend(events) && j != i {
      TakeoverWaits(events, i, j);
    }
  }

  /** An operation is taken over only once its lease was released or has expired. */
  lemma TakeoverWaits(events: seq<Event>, i: nat, j: nat)
    requires StampsAscend(events) && i < j && Acquires(events, i) && Acquires(events, j) && events[i].op == events[j].op
    ensures || LeaseOf(events[i]).expires <= events[j].now
            || exists k :: i < k < j && Releases(events, k, events[i].op)
  {
    LeaseLasts(events, i, j);
    assert events[i].op !in Unexpired(After(events, j).leases, events[j].now);
  }

  lemma AcquiredRow(t: Tables, e: Event)
    requires e.DoAcquire? && CanAcquire(t, e.op, e.container, e.owner, e.ttl, e.now)
    ensures e.op in Apply(t, e).leases && Apply(t, e).leases[e.op] == LeaseOf(e)
  {
  }

  lemma KeptRow(t: Tables, e: Event, op: string)
    requires op in Apply(t, e).leases
    requires !(e.DoAcquire? && e.op == op && CanAcquire(t, op, e.container, e.owner, e.ttl, e.now))
    ensures op in t.leases && t.leases[op] == Apply(t, e).leases[op]
  {
  }

  /** A release frees whatever lease stands under its operation id: a worker that outlived its lease
      frees the lease of the worker that took the same operation over. */
  lemma LateReleaseFreesSuccessor(op: string, container: string, actor: string)
    requires op != "" && container != "" && actor != ""
    ensures var events := [DoAcquire(op, container, actor, 1, 0),            // first worker
                           DoAcquire(op, container, actor, 900, 2 * SECOND), // second worker, after expiry
                           DoRelease(op, Some(actor))];                      // first worker finishes
            && Acquires(events, 0) && Acquires(events, 1)
            && LeaseOf(events[1]).expires > 2 * SECOND
            && After(events, 3).leases == map[]
  {
    var events := [DoAcquire(op, container, actor, 1, 0),
                   DoAcquire(op, container, actor, 900, 2 * SECOND),
                   DoRelease(op, Some(actor))];
    var one := After(events, 1);
    assert Unexpired(NO_ROWS.leases, 0) == map[];
    assert After(events, 0) == NO_ROWS;
    assert one == Apply(NO_ROWS, events[0]);
    assert one.leases == map[op := Lease(container, actor, 0, SECOND)];
    assert Unexpired(one.leases, 2 * SECOND) == map[];
    var two := After(events, 2);
    assert two == Apply(one, events[1]);
    assert two.leases == map[op := Lease(container, actor, 2 * SECOND, 902 * SECOND)];
    assert After(events, 3) == Apply(two, events[2]);
  }
}
