/** Approvals, the execution gate and the execute operation around the runtime update
    (src/unraid_updater/service.py, src/unraid_updater/db.py, `check_gate` of
    src/unraid_updater/execution_gate.py). */
module Service {
  import opened Strings
  import opened Candidates
  import Discovery
  import VnextPolicy
  import Leases

  // ---------------------------------------------------------------- decisions and approvals

  datatype Decision = Approved | Deferred | Revoked

  /** `revoked` is the column `revoked_at`, which no statement ever sets. */
  datatype Approval = Approval(candidate: nat, revision: Revision, decision: Decision, expires: int, revoked: bool)

  predicate CanDecide(rows: seq<Row>, id: nat, revision: Revision, decision: Decision) {
    && id < |rows| && rows[id].revision == revision
    && (decision.Approved? ==> rows[id].status.ApprovalReady?)
  }

  function Decided(approvals: seq<Approval>, id: nat, revision: Revision, decision: Decision, now: int): seq<Approval> {
    approvals + [Approval(id, revision, decision, if decision.Approved? then now + VnextPolicy.DAY else 0, false)]
  }

  predicate IsCurrent(a: Approval, id: nat, revision: Revision, now: int) {
    a.candidate == id && a.revision == revision && a.decision.Approved? && !a.revoked && a.expires > now
  }

  /** The newest approval in force, as a position in the table. */
  function ActiveApproval(approvals: seq<Approval>, id: nat, revision: Revision, now: int): (r: Option<nat>)
    ensures r.Some? ==> r.value < |approvals| && IsCurrent(approvals[r.value], id, revision, now)
    ensures r.None? ==> forall i :: 0 <= i < |approvals| ==> !IsCurrent(approvals[i], id, revision, now)
  {
    if approvals == [] then None
    else if IsCurrent(approvals[|approvals| - 1], id, revision, now) then Some(|approvals| - 1)
    else ActiveApproval(approvals[..|approvals| - 1], id, revision, now)
  }

  /** A later deferral or revocation does not end an approval: only its expiry does. */
  lemma {:induction false} LaterDecisionsDoNotRevoke(approvals: seq<Approval>, later: seq<Approval>, id: nat,
                                                     revision: Revision, now: int)
    requires forall i :: 0 <= i < |later| ==> !later[i].decision.Approved?
    ensures ActiveApproval(approvals + later, id, revision, now) == ActiveApproval(approvals, id, revision, now)
    decreases |later|
  {
    if later == [] {
      assert approvals + later == approvals;
    } else {
      var all := approvals + later;
      assert all[..|all| - 1] == approvals + later[..|later| - 1];
      LaterDecisionsDoNotRevoke(approvals, later[..|later| - 1], id, revision, now);
    }
  }

  // ---------------------------------------------------------------- the gate

  datatype Reason =
    | MissingApproval | StaleRevision | NotRunning | UnresolvedTarget | ActiveHold | PausedContainer | SelfUpdate

  datatype GateRequest = GateRequest(
    approval: Option<nat>, approvalRevision: Option<Revision>, revision: Option<Revision>, live: string,
    target: string, running: bool, hold: bool, paused: bool, selfUpdate: bool)

  function When(b: bool, r: Reason): seq<Reason> {
    if b then [r] else []
  }

  /** The reasons in order, each kept at its first occurrence. */
  function FirstOccurrences(rs: seq<Reason>): seq<Reason> {
    if rs == [] then []
    else
      var front := FirstOccurrences(rs[..|rs| - 1]);
      if rs[|rs| - 1] in front then front else front + [rs[|rs| - 1]]
  }

  function RawReasons(q: GateRequest): seq<Reason> {
    When(q.approval.None?, MissingApproval)
    + When(q.revision.None? || q.approvalRevision != q.revision, StaleRevision)
    + When(!q.running, NotRunning) + When(q.target == "", UnresolvedTarget) + When(q.hold, ActiveHold)
    + When(q.paused, PausedContainer) + When(q.selfUpdate, SelfUpdate) + When(q.live == "", StaleRevision)
  }

  function GateReasons(q: GateRequest): seq<Reason> {
    FirstOccurrences(RawReasons(q))
  }

  lemma {:induction false} FirstOccurrencesFacts(rs: seq<Reason>)
    ensures forall r :: r in FirstOccurrences(rs) <==> r in rs
    ensures FirstOccurrences(rs) == [] <==> rs == []
    ensures forall i, j :: 0 <= i < j < |FirstOccurrences(rs)| ==> FirstOccurrences(rs)[i] != FirstOccurrences(rs)[j]
  {
    if rs != [] {
      FirstOccurrencesFacts(rs[..|rs| - 1]);
      assert rs == rs[..|rs| - 1] + [rs[|rs| - 1]];
    }
  }

  /** Where a reason stands among the others; a missing live revision is noticed last. */
  function Place(q: GateRequest, r: Reason): nat {
    match r
    case MissingApproval => 0
    case StaleRevision => if q.revision.None? || q.approvalRevision != q.revision then 1 else 7
    case NotRunning => 2
    case UnresolvedTarget => 3
    case ActiveHold => 4
    case PausedContainer => 5
    case SelfUpdate => 6
  }

  ghost predicate InOrder(q: GateRequest, rs: seq<Reason>, below: nat) {
    && (forall i :: 0 <= i < |rs| ==> Place(q, rs[i]) < below)
    && (forall i, j :: 0 <= i < j < |rs| ==> Place(q, rs[i]) < Place(q, rs[j]))
  }

  lemma OneMore(q: GateRequest, rs: seq<Reason>, at: nat, b: bool, r: Reason)
    requires InOrder(q, rs, at) && (b ==> Place(q, r) == at)
    ensures InOrder(q, rs + When(b, r), at + 1)
  {
  }

  lemma {:induction false} OrderedOccurOnce(q: GateRequest, rs: seq<Reason>, below: nat)
    requires InOrder(q, rs, below)
    ensures FirstOccurrences(rs) == rs
  {
    if rs != [] {
      OrderedOccurOnce(q, rs[..|rs| - 1], below);
    }
  }

  /** The violated preconditions are named in one order. */
  lemma ReasonsAreOrdered(q: GateRequest)
    ensures forall i, j :: 0 <= i < j < |GateReasons(q)| ==> Place(q, GateReasons(q)[i]) < Place(q, GateReasons(q)[j])
  {
    hide InOrder, When, FirstOccurrences, Place;
    WhenHolds();
    PlacesFollow(q);
    var stale := q.revision.None? || q.approvalRevision != q.revision;
    StartsInOrder(q);
    var one := [] + When(q.approval.None?, MissingApproval);
    OneMore(q, [], 0, q.approval.None?, MissingApproval);
    var two := one + When(stale, StaleRevision);
    OneMore(q, one, 1, stale, StaleRevision);
    var three := two + When(!q.running, NotRunning);
    OneMore(q, two, 2, !q.running, NotRunning);
    var four := three + When(q.target == "", UnresolvedTarget);
    OneMore(q, three, 3, q.target == "", UnresolvedTarget);
    var five := four + When(q.hold, ActiveHold);
    OneMore(q, four, 4, q.hold, ActiveHold);
    var six := five + When(q.paused, PausedContainer);
    OneMore(q, five, 5, q.paused, PausedContainer);
    var seven := six + When(q.selfUpdate, SelfUpdate);
    OneMore(q, six, 6, q.selfUpdate, SelfUpdate);
    assert [] + When(q.approval.None?, MissingApproval) == When(q.approval.None?, MissingApproval);
    assert RawReasons(q) == seven + When(q.live == "", StaleRevision);
    NoLiveLast(q, seven, stale);
  }

  lemma PlacesFollow(q: GateRequest)
    ensures Place(q, MissingApproval) == 0 && Place(q, NotRunning) == 2 && Place(q, UnresolvedTarget) == 3
    ensures Place(q, ActiveHold) == 4 && Place(q, PausedContainer) == 5 && Place(q, SelfUpdate) == 6
    ensures q.revision.None? || q.approvalRevision != q.revision ==> Place(q, StaleRevision) == 1
  {
  }

  lemma StartsInOrder(q: GateRequest)
    ensures InOrder(q, [], 0)
  {
  }

  lemma NoLiveLast(q: GateRequest, seven: seq<Reason>, stale: bool)
    requires InOrder(q, seven, 7) && RawReasons(q) == seven + When(q.live == "", StaleRevision)
    requires stale == (q.revision.None? || q.approvalRevision != q.revision)
    requires stale ==> StaleRevision in seven
    ensures forall i, j :: 0 <= i < j < |GateReasons(q)| ==> Place(q, GateReasons(q)[i]) < Place(q, GateReasons(q)[j])
  {
    hide RawReasons;
    OrderedOccurOnce(q, seven, 7);
    var raw := RawReasons(q);
    if q.live == "" {
      assert raw[..|raw| - 1] == seven && raw[|raw| - 1] == StaleRevision;
    } else {
      assert raw == seven;
    }
  }

  /** The gate opens exactly when every precondition holds, and names exactly the violated ones, each
      once. */
  lemma GateOpensExactlyWhen(q: GateRequest)
    ensures GateReasons(q) == [] <==>
            && q.approval.Some? && q.revision.Some? && q.approvalRevision == q.revision
            && q.running && q.target != "" && !q.hold && !q.paused && !q.selfUpdate && q.live != ""
    ensures forall i, j :: 0 <= i < j < |GateReasons(q)| ==> GateReasons(q)[i] != GateReasons(q)[j]
    ensures MissingApproval in GateReasons(q) <==> q.approval.None?
    ensures StaleRevision in GateReasons(q) <==>
            q.revision.None? || q.approvalRevision.None? || q.approvalRevision != q.revision || q.live == ""
    ensures NotRunning in GateReasons(q) <==> !q.running
    ensures UnresolvedTarget in GateReasons(q) <==> q.target == ""
    ensures ActiveHold in GateReasons(q) <==> q.hold
    ensures PausedContainer in GateReasons(q) <==> q.paused
    ensures SelfUpdate in GateReasons(q) <==> q.selfUpdate
  {
    hide FirstOccurrences, RawReasons;
    FirstOccurrencesFacts(RawReasons(q));
    RawReasonsExactly(q);
    var raw := RawReasons(q);
    if raw != [] {
      assert raw[0] in raw;
    } else {
      assert MissingApproval !in raw && StaleRevision !in raw && NotRunning !in raw && UnresolvedTarget !in raw
             && ActiveHold !in raw && PausedContainer !in raw && SelfUpdate !in raw;
    }
  }

  lemma RawReasonsExactly(q: GateRequest)
    ensures forall r :: r in RawReasons(q) <==>
              || (r == MissingApproval && q.approval.None?)
              || (r == StaleRevision && (q.revision.None? || q.approvalRevision != q.revision || q.live == ""))
              || (r == NotRunning && !q.running)
              || (r == UnresolvedTarget && q.target == "")
              || (r == ActiveHold && q.hold)
              || (r == PausedContainer && q.paused)
              || (r == SelfUpdate && q.selfUpdate)
  {
    hide When;
    WhenHolds();
  }

  lemma WhenHolds()
    ensures forall b, r, x :: x in When(b, r) <==> b && x == r
  {
  }

  // ---------------------------------------------------------------- one execution

  datatype Request = Request(
    candidate: nat, revision: Revision, live: string, actor: string, selfName: string,
    leaseSeconds: int, operation: string, configured: bool)

  /** What an execution is bound to once it has passed every check. */
  datatype Ticket = Ticket(candidate: nat, revision: Revision, container: string, target: string, approval: nat)

  /** What `execute` reads first: the candidate, if it still has the requested revision. */
  function Fetched(rows: seq<Row>, q: Request): Option<Row> {
    if q.configured && q.candidate < |rows| && rows[q.candidate].revision == q.revision then Some(rows[q.candidate])
    else None
  }

  /** The checks on what was read. */
  function Granted(q: Request, row: Row, approval: nat, approved: Revision, paused: bool): Option<Ticket> {
    if !row.status.ApprovalReady? || row.target == "" then None
    else
      var gate := GateRequest(Some(approval), Some(approved), Some(q.revision), q.live, row.target,
                              row.state == "running", false, paused, row.container == q.selfName);
      if GateReasons(gate) != [] then None
      else Some(Ticket(q.candidate, q.revision, row.container, row.target, approval))
  }

  /** The checks of `execute` before any lease is taken, with nothing happening in between. */
  function Admit(rows: seq<Row>, approvals: seq<Approval>, paused: set<string>, q: Request, now: int): Option<Ticket> {
    var row := Fetched(rows, q);
    var approval := ActiveApproval(approvals, q.candidate, q.revision, now);
    if row.None? || approval.None? then None
    else Granted(q, row.value, approval.value, approvals[approval.value].revision, row.value.container in paused)
  }

  datatype ExecutionStatus = Running | Succeeded | Failed

  datatype Execution = Execution(candidate: nat, approval: nat, status: ExecutionStatus, result: string, error: string)

  /** One call of the runtime update, and whether it returned. */
  datatype RuntimeCall = RuntimeCall(operation: string, container: string, target: string, ok: bool)

  datatype State = State(
    rows: seq<Row>, approvals: seq<Approval>, paused: set<string>,
    tables: Leases.Tables, executions: seq<Execution>, calls: seq<RuntimeCall>)

  /** What the runtime update does when called: it returns a result or raises. */
  datatype Outcome = Updated(result: string) | Raised(message: string)

  datatype Answer = Result(value: string) | Error

  predicate ExecutionRunning(executions: seq<Execution>, candidate: nat) {
    exists i :: 0 <= i < |executions| && executions[i].candidate == candidate && executions[i].status.Running?
  }

  /** Record the outcome of an operation and give its lease back. */
  function Closed(t: Leases.Tables, q: Request, status: Leases.OperationStatus, result: string): Leases.Tables {
    Leases.Release(Leases.Record(t, q.operation, status, result, ""), q.operation, Some(q.actor))
  }

  function Execute(s: State, q: Request, now: int, outcome: Outcome): (State, Answer) {
    var admitted := Admit(s.rows, s.approvals, s.paused, q, now);
    var operations := s.tables.operations;
    if admitted.None? then (s, Error)
    else if q.operation in operations && operations[q.operation].status.Succeeded? then
      (s, Result(operations[q.operation].result))
    else if q.operation in operations && operations[q.operation].status.Running? then (s, Error)
    else if !Leases.CanAcquire(s.tables, q.operation, admitted.value.container, q.actor, q.leaseSeconds, now)
    then (s, Error)
    else
      var t := admitted.value;
      var leased := Leases.Acquire(s.tables, q.operation, t.container, q.actor, q.leaseSeconds, now);
      if ExecutionRunning(s.executions, t.candidate) then
        (s.(tables := Closed(leased, q, Leases.Failed, "already running")), Error)
      else
        var calls := s.calls + [RuntimeCall(q.operation, t.container, t.target, outcome.Updated?)];
        match outcome
        case Updated(result) =>
          (s.(tables := Closed(leased, q, Leases.Succeeded, result), calls := calls,
              executions := s.executions
                + [Execution(t.candidate, t.approval, ExecutionStatus.Succeeded, result, "")]), Result(result))
        case Raised(message) =>
          (s.(tables := Closed(leased, q, Leases.Failed, message), calls := calls,
              executions := s.executions + [Execution(t.candidate, t.approval, Failed, "{}", message)]), Error)
  }

  lemma RefusedLeavesRows(t: Leases.Tables, q: Request, container: string, now: int)
    requires !Leases.CanAcquire(t, q.operation, container, q.actor, q.leaseSeconds, now)
    ensures Leases.Acquire(t, q.operation, container, q.actor, q.leaseSeconds, now) == t
  {
  }

  class UpdaterService {
    var rows: seq<Row>
    var approvals: seq<Approval>
    var paused: set<string>
    const store: Leases.LeaseStore
    var executions: seq<Execution>
    var calls: seq<RuntimeCall>

    constructor (store: Leases.LeaseStore)
      ensures this.store == store && rows == [] && approvals == [] && paused == {} && executions == [] && calls == []
    {
      this.store := store;
      rows, approvals, paused, executions, calls := [], [], {}, [], [];
    }

    function Now(): State
      reads this, store
    {
      State(rows, approvals, paused, store.Rows(), executions, calls)
    }

    method Decide(id: nat, revision: Revision, decision: Decision, now: int) returns (ok: bool)
      modifies this
      ensures ok == CanDecide(old(rows), id, revision, decision)
      ensures approvals == if ok then Decided(old(approvals), id, revision, decision, now) else old(approvals)
      ensures Now() == old(Now()).(approvals := approvals)
    {
      if id >= |rows| || rows[id].revision != revision {
        return false;
      }
      if decision.Approved? && !rows[id].status.ApprovalReady? {
        return false;
      }
      approvals := approvals
        + [Approval(id, revision, decision, if decision.Approved? then now + VnextPolicy.DAY else 0, false)];
      return true;
    }

    method StartExecution(t: Ticket) returns (id: Option<nat>)
      modifies this`executions
      ensures id.None? <==> ExecutionRunning(old(executions), t.candidate)
      ensures id.None? ==> executions == old(executions)
      ensures id.Some? ==> id.value == |old(executions)|
                           && executions == old(executions) + [Execution(t.candidate, t.approval, Running, "{}", "")]
    {
      if exists i :: 0 <= i < |executions| && executions[i].candidate == t.candidate && executions[i].status.Running? {
        return None;
      }
      executions := executions + [Execution(t.candidate, t.approval, Running, "{}", "")];
      return Some(|executions| - 1);
    }

    method FinishExecution(id: nat, status: ExecutionStatus, result: string, error: string)
      requires id < |executions|
      modifies this`executions
      ensures executions == old(executions)[id :=
              old(executions)[id].(status := status, result := result, error := error)]
    {
      executions := executions[id := executions[id].(status := status, result := result, error := error)];
    }

    /** `execute`: the lookup comes before the lease, and the lease is given back on every way out. */
    method ExecuteRequest(q: Request, now: int, outcome: Outcome) returns (answer: Answer)
      modifies this, store
      ensures (Now(), answer) == Execute(old(Now()), q, now, outcome)
    {
      hide Admit, Leases.Acquire, Leases.CanAcquire, Leases.Record, Leases.Release, Leases.CanRelease, ExecutionRunning;
      var admitted := Admit(rows, approvals, paused, q, now);
      if admitted.None? {
        return Error;
      }
      var t := admitted.value;
      var existing := store.GetOperation(q.operation);
      if existing.Some? {
        if existing.value.status.Succeeded? {
          return Result(existing.value.result);
        }
        if existing.value.status.Running? {
          return Error;
        }
      }
      var acquired := store.AcquireLease(q.operation, t.container, q.actor, q.leaseSeconds, now);
      if !acquired {
        assert store.Rows() == old(store.Rows()) by {
          RefusedLeavesRows(old(store.Rows()), q, t.container, now);
        }
        return Error;
      }
      var id := StartExecution(t);
      if id.None? {
        var r := store.RecordOperation(q.operation, Leases.Failed, "already running", "");
        var released := store.ReleaseLease(q.operation, Some(q.actor));
        return Error;
      }
      calls := calls + [RuntimeCall(q.operation, t.container, t.target, outcome.Updated?)];
      match outcome {
        case Updated(result) =>
          FinishExecution(id.value, ExecutionStatus.Succeeded, result, "");
          assert executions == old(executions)
                 + [Execution(t.candidate, t.approval, ExecutionStatus.Succeeded, result, "")];
          var r := store.RecordOperation(q.operation, Leases.Succeeded, result, "");
          answer := Result(result);
        case Raised(message) =>
          FinishExecution(id.value, Failed, "{}", message);
          assert executions == old(executions) + [Execution(t.candidate, t.approval, Failed, "{}", message)];
          var r := store.RecordOperation(q.operation, Leases.Failed, message, "");
          answer := Error;
      }
      var released := store.ReleaseLease(q.operation, Some(q.actor));
    }
  }

  // ---------------------------------------------------------------- what one execution comes to

  /** Approval `i` is the newest one in force for this candidate and revision. */
  ghost predicate InForce(approvals: seq<Approval>, i: nat, id: nat, revision: Revision, now: int) {
    && i < |approvals| && Approves(approvals[i], id, revision, now)
    && forall j :: i < j < |approvals| ==> !Approves(approvals[j], id, revision, now)
  }

  predicate Approves(a: Approval, id: nat, revision: Revision, now: int) {
    a == Approval(id, revision, Approved, a.expires, false) && now < a.expires
  }

  lemma {:induction false} ActiveIsInForce(approvals: seq<Approval>, id: nat, revision: Revision, now: int)
    ensures var r := ActiveApproval(approvals, id, revision, now);
            && (r.Some? ==> InForce(approvals, r.value, id, revision, now))
            && (r.None? ==> forall i :: !InForce(approvals, i, id, revision, now))
  {
    if approvals != [] {
      ActiveIsInForce(approvals[..|approvals| - 1], id, revision, now);
    }
  }

  lemma OneInForce(approvals: seq<Approval>, i: nat, j: nat, id: nat, revision: Revision, now: int)
    requires InForce(approvals, i, id, revision, now) && InForce(approvals, j, id, revision, now)
    ensures i == j
  {
  }

  /** When an execution is admitted, and to what: exactly when its candidate still has the requested
      revision and is ready, running, unpaused, with a target, and not the updater itself, and an
      approval of that candidate and revision is in force. */
  lemma AdmittedExactly(rows: seq<Row>, approvals: seq<Approval>, paused: set<string>, q: Request, now: int,
                        t: Ticket)
    ensures Admit(rows, approvals, paused, q, now) == Some(t) <==>
            && q.configured && q.live != ""
            && q.candidate < |rows|
            && var row := rows[q.candidate];
               && row.revision == q.revision && row.status == ApprovalReady && row.state == "running"
               && row.target != "" && row.container !in paused && row.container != q.selfName
               && t == Ticket(q.candidate, q.revision, row.container, row.target, t.approval)
               && InForce(approvals, t.approval, q.candidate, q.revision, now)
  {
    hide GateReasons, InForce;
    ActiveIsInForce(approvals, q.candidate, q.revision, now);
    var active := ActiveApproval(approvals, q.candidate, q.revision, now);
    if active.Some? && q.candidate < |rows| {
      var row := rows[q.candidate];
      GateOpensExactlyWhen(GateRequest(Some(active.value), Some(approvals[active.value].revision), Some(q.revision),
        q.live, row.target, row.state == "running", false, row.container in paused, row.container == q.selfName));
      if InForce(approvals, t.approval, q.candidate, q.revision, now) {
        OneInForce(approvals, t.approval, active.value, q.candidate, q.revision, now);
      }
    }
  }

  /** A candidate that a scan found ready can be executed, exactly under these conditions: after the scan
      its row is admitted for the container and the image that discovery found if and only if the request
      is for it, its approval is in force, and it is neither paused nor the updater itself. */
  lemma ScannedReadyIsAdmittedExactly(rows: seq<Row>, snapshot: seq<Discovery.Raw>, cx: Discovery.Context, k: nat,
                                      approvals: seq<Approval>, paused: set<string>, q: Request, now: int)
    requires WellKept(rows) && k < |Items(snapshot, cx)| && Items(snapshot, cx)[k].ready
    requires forall j :: k < j < |Items(snapshot, cx)| ==>
               Items(snapshot, cx)[j].container != Items(snapshot, cx)[k].container
    requires q.candidate == Position(Reconciled(rows, Items(snapshot, cx)), RevisionOf(Items(snapshot, cx)[k]))
    ensures var item := Items(snapshot, cx)[k];
            var admitted := Admit(Reconciled(rows, Items(snapshot, cx)), approvals, paused, q, now);
            && (admitted.Some? <==>
                && q.configured && q.live != "" && q.revision == RevisionOf(item)
                && item.container !in paused && item.container != q.selfName
                && exists i :: 0 <= i < |approvals| && Approves(approvals[i], q.candidate, q.revision, now))
            && (admitted.Some? ==>
                  admitted.value.container == item.container && admitted.value.target == item.candidate)
  {
    hide Items, Reconciled, Admit, RevisionOf, Position, Discovery.Normalize, LiveRevisions, Discovered, InForce,
         Approves, LastOfRevision, WellKept;
    var items := Items(snapshot, cx);
    var item, later := items[k], Reconciled(rows, items);
    ReadyRow(rows, snapshot, cx, k);
    ActiveIsInForce(approvals, q.candidate, q.revision, now);
    var active := ActiveApproval(approvals, q.candidate, q.revision, now);
    var i := if active.Some? then active.value else 0;
    NoneInForce(approvals, q.candidate, q.revision, now);
    AdmittedExactly(later, approvals, paused, q, now,
      Ticket(q.candidate, q.revision, item.container, item.candidate, i));
    var admitted := Admit(later, approvals, paused, q, now);
    if admitted.Some? {
      AdmittedExactly(later, approvals, paused, q, now, admitted.value);
    }
  }

  lemma NoneInForce(approvals: seq<Approval>, id: nat, revision: Revision, now: int)
    ensures ActiveApproval(approvals, id, revision, now).Some? <==>
            exists i :: 0 <= i < |approvals| && Approves(approvals[i], id, revision, now)
    ensures forall i :: InForce(approvals, i, id, revision, now) ==>
              exists i :: 0 <= i < |approvals| && Approves(approvals[i], id, revision, now)
  {
    ActiveIsInForce(approvals, id, revision, now);
    forall i | 0 <= i < |approvals| && Approves(approvals[i], id, revision, now)
      ensures IsCurrent(approvals[i], id, revision, now)
    {
    }
  }

  /** The row of a ready item after the scan that found it. */
  lemma ReadyRow(rows: seq<Row>, snapshot: seq<Discovery.Raw>, cx: Discovery.Context, k: nat)
    requires WellKept(rows) && k < |Items(snapshot, cx)| && Items(snapshot, cx)[k].ready
    requires forall j :: k < j < |Items(snapshot, cx)| ==>
               Items(snapshot, cx)[j].container != Items(snapshot, cx)[k].container
    ensures var item, later := Items(snapshot, cx)[k], Reconciled(rows, Items(snapshot, cx));
            var p := Position(later, RevisionOf(item));
            && p < |later| && later[p].revision == RevisionOf(item) && later[p].status == ApprovalReady
            && later[p].state == "running" && later[p].target == item.candidate != ""
            && later[p].container == item.container
  {
    hide Items, Reconciled, Position, Discovery.Normalize, LiveRevisions, Discovered, LastOfRevision, WellKept,
         FinalStatus;
    var items := Items(snapshot, cx);
    ItemsAreDiscovered(snapshot, cx);
    var i := ItemsAreNormalized(snapshot, cx, k);
    Discovery.ReadyIsConservative(snapshot[i], cx);
    LastItemIsLive(items, k);
    ColumnsAreTheLastItems(rows, items);
    ReconcileReaches(rows, items);
    var later := Reconciled(rows, items);
    var p := Position(later, RevisionOf(items[k]));
    var before := if p < |rows| then rows[p].status else Superseded;
    FinalIsActive(RevisionOf(items[k]), before, items);
    LiveIsReady(RevisionOf(items[k]), before, items);
  }

  lemma LiveIsReady(r: Revision, before: Status, items: seq<Discovery.Item>)
    requires Discovered(items) && r.ready && r in LiveRevisions(items, r.container)
    ensures FinalStatus(r, before, items) == ApprovalReady
  {
    hide Discovered, LiveRevisions, ImportedStatus;
    FinalIsActive(r, before, items);
    SeenStatus(r, before, items);
    SomeRevision(items);
  }

  /** A decision puts an approval in force for that candidate and revision alone, for 24 hours, and only
      if it approves. */
  lemma ApprovalLastsADay(approvals: seq<Approval>, id: nat, revision: Revision, decision: Decision, made: int,
                          other: nat, asked: Revision, now: int)
    requires ActiveApproval(approvals, other, asked, now).None?
    ensures ActiveApproval(Decided(approvals, id, revision, decision, made), other, asked, now).Some? <==>
            other == id && asked == revision && decision == Approved && now - made < 24 * 60 * 60 * 1_000_000
  {
    var later := Decided(approvals, id, revision, decision, made);
    assert later[..|later| - 1] == approvals;
    assert later[|later| - 1].expires == if decision.Approved? then made + 24 * 60 * 60 * 1_000_000 else 0;
  }

  /** A lease on the container or on the operation that has not run out. */
  ghost predicate Taken(t: Leases.Tables, op: string, container: string, now: int) {
    exists k :: k in t.leases && t.leases[k].expires > now && (k == op || t.leases[k].container == container)
  }

  /** The runtime update is called at most once, and exactly when the execution is admitted, its operation
      is neither finished nor running, no lease stands in the way and none of its candidate's executions
      runs; what it is called with is what was admitted. */
  lemma RuntimeIsReachedExactly(s: State, q: Request, now: int, outcome: Outcome)
    ensures var later, admitted := Execute(s, q, now, outcome).0, Admit(s.rows, s.approvals, s.paused, q, now);
            && (later.calls != s.calls <==>
                && admitted.Some?
                && (q.operation in s.tables.operations ==>
                      s.tables.operations[q.operation].status in {Leases.Leased, Leases.Failed, Leases.Cancelled})
                && q.operation != "" && admitted.value.container != "" && q.actor != "" && q.leaseSeconds > 0
                && !Taken(s.tables, q.operation, admitted.value.container, now)
                && (forall i :: 0 <= i < |s.executions| && s.executions[i].candidate == admitted.value.candidate ==>
                      s.executions[i].status != Running))
            && (later.calls != s.calls ==>
                  later.calls == s.calls
                    + [RuntimeCall(q.operation, admitted.value.container, admitted.value.target, outcome.Updated?)])
  {
    hide Admit;
    var admitted := Admit(s.rows, s.approvals, s.paused, q, now);
    if admitted.Some? {
      LeaseIsFreeExactly(s.tables, q, admitted.value.container, now);
    }
    assert forall c: RuntimeCall :: |s.calls + [c]| == |s.calls| + 1;
  }

  lemma LeaseIsFreeExactly(t: Leases.Tables, q: Request, container: string, now: int)
    ensures Leases.CanAcquire(t, q.operation, container, q.actor, q.leaseSeconds, now) <==>
            && q.operation != "" && container != "" && q.actor != "" && q.leaseSeconds > 0
            && !Taken(t, q.operation, container, now)
  {
    var rest := Leases.Unexpired(t.leases, now);
    assert forall k :: k in rest <==> k in t.leases && t.leases[k].expires > now;
    if Leases.Occupied(rest, container) {
      var k :| k in rest && rest[k].container == container;
      assert k in t.leases;
    }
  }

  /** What an execution that reached the runtime leaves behind, in each of the two outcomes: one more
      execution row, the operation's row and the answer; candidates, approvals and pauses stay. */
  lemma OutcomeIsRecorded(s: State, q: Request, now: int, outcome: Outcome)
    requires Execute(s, q, now, outcome).0.calls != s.calls
    ensures Admit(s.rows, s.approvals, s.paused, q, now).Some?
    ensures var (later, answer) := Execute(s, q, now, outcome);
            var t := Admit(s.rows, s.approvals, s.paused, q, now).value;
            && |later.executions| == |s.executions| + 1 && later.executions[..|s.executions|] == s.executions
            && later.rows == s.rows && later.approvals == s.approvals && later.paused == s.paused
            && q.operation in later.tables.operations && q.operation !in later.tables.leases
            && var row, e := later.tables.operations[q.operation], later.executions[|s.executions|];
               && e.candidate == t.candidate && e.approval == t.approval
               && match outcome
                  case Updated(result) =>
                    && answer == Result(result)
                    && e.status == ExecutionStatus.Succeeded && e.result == result && e.error == ""
                    && row.status == Leases.Succeeded && row.result == result
                  case Raised(message) =>
                    && answer == Error
                    && e.status == Failed && e.error == message
                    && row.status == Leases.Failed && row.result == message
  {
    hide Admit, Leases.CanAcquire, ExecutionRunning;
    var t := Admit(s.rows, s.approvals, s.paused, q, now).value;
    ClosedRow(s.tables, q, t.container, now);
  }

  lemma ClosedRow(t: Leases.Tables, q: Request, container: string, now: int)
    requires Leases.CanAcquire(t, q.operation, container, q.actor, q.leaseSeconds, now)
    ensures forall status, result ::
              var closed := Closed(Leases.Acquire(t, q.operation, container, q.actor, q.leaseSeconds, now), q, status,
                                   result);
              && q.operation in closed.operations && q.operation !in closed.leases
              && closed.operations[q.operation].status == status && closed.operations[q.operation].result == result
  {
  }

  /** An execution that does not reach the runtime changes no execution row and finishes no operation. */
  lemma RefusalFinishesNothing(s: State, q: Request, now: int, outcome: Outcome)
    requires Execute(s, q, now, outcome).0.calls == s.calls
    ensures var later := Execute(s, q, now, outcome).0;
            && later.executions == s.executions
            && later.rows == s.rows && later.approvals == s.approvals && later.paused == s.paused
            && forall op :: op in later.tables.operations && later.tables.operations[op].status.Succeeded? ==>
                 op in s.tables.operations && s.tables.operations[op] == later.tables.operations[op]
  {
    hide Admit, ExecutionRunning, Leases.CanAcquire;
    var admitted := Admit(s.rows, s.approvals, s.paused, q, now);
    assert forall c: RuntimeCall :: |s.calls + [c]| == |s.calls| + 1;
    if admitted.Some? && Leases.CanAcquire(s.tables, q.operation, admitted.value.container, q.actor, q.leaseSeconds,
      now) {
      ClosedRow(s.tables, q, admitted.value.container, now);
    }
  }

  /** The caller is answered with a result exactly when it was admitted and that result is the one the
      operation's row holds as its success, stored before the call or by the runtime update it made. */
  lemma AnswerIsRecordedExactly(s: State, q: Request, now: int, outcome: Outcome, value: string)
    ensures var (later, answer) := Execute(s, q, now, outcome);
            var before, after := s.tables.operations, later.tables.operations;
            answer == Result(value) <==>
              && Admit(s.rows, s.approvals, s.paused, q, now).Some?
              && q.operation in after && after[q.operation].status.Succeeded? && after[q.operation].result == value
              && (|| (q.operation in before && before[q.operation].status.Succeeded?)
                  || (|later.calls| == |s.calls| + 1 && later.calls[|s.calls|].ok))
  {
    hide Admit, ExecutionRunning, Leases.CanAcquire;
    if Execute(s, q, now, outcome).0.calls == s.calls {
      RefusalFinishesNothing(s, q, now, outcome);
    } else {
      OutcomeIsRecorded(s, q, now, outcome);
      RuntimeIsReachedExactly(s, q, now, outcome);
    }
  }

  // ---------------------------------------------------------------- non-overlapping executions

  /** One thing that happens: an execute call from start to end, or any change to candidates,
      approvals and pauses. */
  datatype Work =
    | Serve(q: Request, now: int, outcome: Outcome)
    | Adjust(rows: seq<Row>, approvals: seq<Approval>, paused: set<string>)

  function Do(s: State, w: Work): State {
    match w
    case Serve(q, now, outcome) => Execute(s, q, now, outcome).0
    case Adjust(rows, approvals, paused) => s.(rows := rows, approvals := approvals, paused := paused)
  }

  const EMPTY := State([], [], {}, Leases.NO_ROWS, [], [])

  function Served(works: seq<Work>): State {
    if works == [] then EMPTY else Do(Served(works[..|works| - 1]), works[|works| - 1])
  }

  /** No lease is held and no execution is marked running. */
  ghost predicate Quiet(s: State) {
    && s.tables.leases == map[]
    && forall i :: 0 <= i < |s.executions| ==> !s.executions[i].status.Running?
  }

  ghost predicate CallsAreFinal(s: State) {
    && (forall i :: 0 <= i < |s.calls| && s.calls[i].ok ==>
          s.calls[i].operation in s.tables.operations && s.tables.operations[s.calls[i].operation].status.Succeeded?)
    && (forall i, j :: 0 <= i < j < |s.calls| && s.calls[i].operation == s.calls[j].operation ==> !s.calls[i].ok)
  }

  /** What a call leaves behind besides candidates and approvals. */
  lemma ExecuteStep(s: State, q: Request, now: int, outcome: Outcome)
    requires Quiet(s) && CallsAreFinal(s)
    ensures var (later, answer) := Execute(s, q, now, outcome);
            && Quiet(later) && CallsAreFinal(later)
            && (forall op :: op in s.tables.operations && s.tables.operations[op].status.Succeeded? ==>
                  op in later.tables.operations && later.tables.operations[op] == s.tables.operations[op])
            && (q.operation in s.tables.operations && s.tables.operations[q.operation].status.Succeeded? ==>
                  later == s && answer in {Error, Result(s.tables.operations[q.operation].result)})
            && (outcome.Updated? && later.calls != s.calls ==>
                  answer == Result(outcome.result)
                  && q.operation in later.tables.operations && later.tables.operations[q.operation].status.Succeeded?
                  && later.tables.operations[q.operation].result == outcome.result)
  {
    hide Admit;
    var (later, answer) := Execute(s, q, now, outcome);
    if later != s {
      var t := Admit(s.rows, s.approvals, s.paused, q, now).value;
      LeasedAndClosed(s.tables, q, t.container, now);
    }
  }

  lemma LeasedAndClosed(t: Leases.Tables, q: Request, container: string, now: int)
    requires t.leases == map[] && Leases.CanAcquire(t, q.operation, container, q.actor, q.leaseSeconds, now)
    ensures forall status, result ::
              var leased := Leases.Acquire(t, q.operation, container, q.actor, q.leaseSeconds, now);
              var closed := Closed(leased, q, status, result);
              && closed.leases == map[]
              && q.operation in closed.operations
              && closed.operations[q.operation].status == status && closed.operations[q.operation].result == result
              && (forall op :: op in t.operations && op != q.operation ==>
                    op in closed.operations && closed.operations[op] == t.operations[op])
  {
  }

  lemma {:induction false} AlwaysQuiet(works: seq<Work>)
    ensures Quiet(Served(works)) && CallsAreFinal(Served(works))
  {
    hide Execute;
    if works != [] {
      AlwaysQuiet(works[..|works| - 1]);
      var w := works[|works| - 1];
      if w.Serve? {
        ExecuteStep(Served(works[..|works| - 1]), w.q, w.now, w.outcome);
      }
    }
  }

  /** Idempotence of operations that do not overlap: once a call succeeded, the same operation never
      reaches the runtime again; every call after any history leaves no lease and no running
      execution, and one for a finished operation returns the stored result or an error and changes
      nothing. */
  lemma OperationsRunOnce(works: seq<Work>, q: Request, now: int, outcome: Outcome)
    ensures var s := Served(works);
            var (later, answer) := Execute(s, q, now, outcome);
            && Quiet(later)
            && (forall i, j :: 0 <= i < j < |later.calls| && later.calls[i].operation == later.calls[j].operation ==>
                !later.calls[i].ok)
            && ((exists i :: 0 <= i < |s.calls| && s.calls[i].operation == q.operation && s.calls[i].ok) ==>
                  && q.operation in s.tables.operations
                  && later == s && answer in {Error, Result(s.tables.operations[q.operation].result)})
  {
    hide Execute;
    AlwaysQuiet(works);
    ExecuteStep(Served(works), q, now, outcome);
  }

  /** The result stored for a finished operation is the one its successful call returned, and no later
      work changes it. */
  lemma {:induction false} StoredResultStays(works: seq<Work>, later: seq<Work>, op: string)
    requires op in Served(works).tables.operations && Served(works).tables.operations[op].status.Succeeded?
    ensures op in Served(works + later).tables.operations
    ensures Served(works + later).tables.operations[op] == Served(works).tables.operations[op]
    decreases |later|
  {
    hide Execute;
    if later == [] {
      assert works + later == works;
    } else {
      var all := works + later;
      assert all[..|all| - 1] == works + later[..|later| - 1];
      StoredResultStays(works, later[..|later| - 1], op);
      AlwaysQuiet(works + later[..|later| - 1]);
      var w := all[|all| - 1];
      if w.Serve? {
        ExecuteStep(Served(works + later[..|later| - 1]), w.q, w.now, w.outcome);
      }
    }
  }
}
