/** `execute` as several workers run it at the same time: each call is a chain of steps, and the steps
    of different workers interleave in any order (src/unraid_updater/service.py). */
module Workers {
  import opened Strings
  import opened Leases
  import Service

  type Worker = nat

  /** What one call of `execute` was admitted to do. Every worker stands for one call. */
  datatype Job = Job(op: string, container: string, candidate: nat, owner: string, ttl: int)

  /** How far a call has come; a call that ended, on whatever way, is over. */
  datatype Phase =
    | Ready | HasLooked | HasLease | StartRefused | HasChecked | HasStarted | Updating
    | Updated(ok: bool, text: string) | Finished(ok: bool, text: string) | HasRecorded | Over

  datatype System = System(tables: Tables, phases: map<Worker, Phase>)

  /** The next step of a worker: the clock it reads, and how its runtime update ends. */
  datatype Step = Step(worker: Worker, now: int, ok: bool, text: string)

  const START := System(NO_ROWS, map[])

  function PhaseOf(s: System, v: Worker): Phase {
    if v in s.phases then s.phases[v] else Ready
  }

  /** Between taking a lease and giving it back. */
  predicate Holding(p: Phase) {
    !p.Ready? && !p.HasLooked? && !p.Over?
  }

  /** The time during which the execution row says "running". */
  predicate InExecution(p: Phase) {
    p.HasStarted? || p.Updating? || p.Updated?
  }

  predicate Busy(plan: Worker -> Job, s: System, candidate: nat) {
    exists v :: v in s.phases && InExecution(s.phases[v]) && plan(v).candidate == candidate
  }

  /** What the next step of a worker does to the lease and operation tables. */
  function Effect(plan: Worker -> Job, s: System, e: Step): Event {
    var job := plan(e.worker);
    match PhaseOf(s, e.worker)
    case HasLooked => DoAcquire(job.op, job.container, job.owner, job.ttl, e.now)
    case StartRefused => DoRecord(job.op, Failed, "already running", "")
    case Finished(ok, text) => DoRecord(job.op, if ok then Succeeded else Failed, text, "")
    case HasRecorded => DoRelease(job.op, Some(job.owner))
    case _ => Elsewhere
  }

  function NextPhase(plan: Worker -> Job, s: System, e: Step): Phase {
    var job := plan(e.worker);
    var found := s.tables.operations;
    match PhaseOf(s, e.worker)
    case Ready => if job.op in found && (found[job.op].status.Succeeded? || found[job.op].status.Running?) then Over
      else HasLooked
    case HasLooked => if CanAcquire(s.tables, job.op, job.container, job.owner, job.ttl, e.now) then HasLease else Over
    case HasLease => if Busy(plan, s, job.candidate) then StartRefused else HasChecked
    case StartRefused => HasRecorded
    case HasChecked => HasStarted
    case HasStarted => Updating
    case Updating => Updated(e.ok, e.text)
    case Updated(ok, text) => Finished(ok, text)
    case Finished(_, _) => HasRecorded
    case HasRecorded => Over
    case Over => Over
  }

  function Next(plan: Worker -> Job, s: System, e: Step): System {
    System(Apply(s.tables, Effect(plan, s, e)), s.phases[e.worker := NextPhase(plan, s, e)])
  }

  /** The system after the first `n` steps. */
  function At(plan: Worker -> Job, steps: seq<Step>, n: nat): System
    requires n <= |steps|
  {
    if n == 0 then START else Next(plan, At(plan, steps, n - 1), steps[n - 1])
  }

  function PhaseAt(plan: Worker -> Job, steps: seq<Step>, n: nat, v: Worker): Phase
    requires n <= |steps|
  {
    PhaseOf(At(plan, steps, n), v)
  }

  /** The same run as the tables see it. */
  function Effects(plan: Worker -> Job, steps: seq<Step>): seq<Event> {
    seq(|steps|, i requires 0 <= i < |steps| => Effect(plan, At(plan, steps, i), steps[i]))
  }

  lemma {:induction false} TablesAgree(plan: Worker -> Job, steps: seq<Step>, n: nat)
    requires n <= |steps|
    ensures After(Effects(plan, steps), n) == At(plan, steps, n).tables
  {
    hide Apply, Effect, NextPhase;
    if n > 0 {
      TablesAgree(plan, steps, n - 1);
      assert Effects(plan, steps)[n - 1] == Effect(plan, At(plan, steps, n - 1), steps[n - 1]);
    }
  }

  // ---------------------------------------------------------------- one call by itself

  function Alone(plan: Worker -> Job, s: System, e: Step, n: nat): System
    decreases n
  {
    if n == 0 then s else Alone(plan, Next(plan, s, e), e, n - 1)
  }

  lemma {:induction false} OverStays(plan: Worker -> Job, s: System, e: Step, n: nat)
    requires PhaseOf(s, e.worker).Over?
    ensures Alone(plan, s, e, n).tables == s.tables && PhaseOf(Alone(plan, s, e, n), e.worker).Over?
    decreases n
  {
    if n > 0 {
      OverStays(plan, Next(plan, s, e), e, n - 1);
    }
  }

  /** From the end of the runtime update, or from a refused start, to the end. */
  lemma AloneToTheEnd(plan: Worker -> Job, s: System, e: Step, n: nat)
    requires n >= 2 && (PhaseOf(s, e.worker).Finished? || PhaseOf(s, e.worker).StartRefused?)
    ensures var record := Effect(plan, s, e);
            && Alone(plan, s, e, n).tables
               == Release(Apply(s.tables, record), plan(e.worker).op, Some(plan(e.worker).owner))
            && PhaseOf(Alone(plan, s, e, n), e.worker).Over?
  {
    hide Record, Release;
    var recorded := Next(plan, s, e);
    var over := Next(plan, recorded, e);
    assert Alone(plan, s, e, n) == Alone(plan, recorded, e, n - 1) == Alone(plan, over, e, n - 2);
    OverStays(plan, over, e, n - 2);
  }

  lemma AloneFromCheck(plan: Worker -> Job, s: System, e: Step, n: nat)
    requires n >= 6 && PhaseOf(s, e.worker).HasChecked?
    ensures var job := plan(e.worker);
            && Alone(plan, s, e, n).tables
               == Release(Record(s.tables, job.op, if e.ok then Succeeded else Failed, e.text, ""), job.op,
                  Some(job.owner))
            && PhaseOf(Alone(plan, s, e, n), e.worker).Over?
  {
    hide Record, Release;
    var started := Next(plan, s, e);
    var updating := Next(plan, started, e);
    var updated := Next(plan, updating, e);
    var finished := Next(plan, updated, e);
    assert Alone(plan, s, e, n) == Alone(plan, started, e, n - 1) == Alone(plan, updating, e, n - 2);
    assert Alone(plan, updating, e, n - 2) == Alone(plan, updated, e, n - 3) == Alone(plan, finished, e, n - 4);
    AloneToTheEnd(plan, finished, e, n - 4);
  }

  lemma AloneFromLease(plan: Worker -> Job, s: System, e: Step, n: nat)
    requires n >= 7 && PhaseOf(s, e.worker).HasLease?
    ensures var job := plan(e.worker);
            var busy := Busy(plan, s, job.candidate);
            var status, text := if !busy && e.ok then Succeeded else Failed, if busy then "already running" else e.text;
            && Alone(plan, s, e, n).tables
               == Release(Record(s.tables, job.op, status, text, ""), job.op, Some(job.owner))
            && PhaseOf(Alone(plan, s, e, n), e.worker).Over?
  {
    hide Record, Release, Busy;
    var next := Next(plan, s, e);
    assert Alone(plan, s, e, n) == Alone(plan, next, e, n - 1);
    if Busy(plan, s, plan(e.worker).candidate) {
      AloneToTheEnd(plan, next, e, n - 1);
    } else {
      AloneFromCheck(plan, next, e, n - 1);
    }
  }

  /** A call that nobody interrupts is `execute` as one step: after nine steps of its worker the
      tables are as `Service.Execute` leaves them. */
  lemma AloneIsExecute(plan: Worker -> Job, s: System, e: Step, whole: Service.State, q: Service.Request)
    requires PhaseOf(s, e.worker).Ready? && whole.tables == s.tables
    requires var admitted := Service.Admit(whole.rows, whole.approvals, whole.paused, q, e.now);
             && admitted.Some?
             && plan(e.worker) == Job(q.operation, admitted.value.container, admitted.value.candidate, q.actor,
                q.leaseSeconds)
             && (Service.ExecutionRunning(whole.executions, admitted.value.candidate) <==>
                 Busy(plan, s, admitted.value.candidate))
    ensures var outcome := if e.ok then Service.Updated(e.text) else Service.Raised(e.text);
            && Alone(plan, s, e, 9).tables == Service.Execute(whole, q, e.now, outcome).0.tables
            && PhaseOf(Alone(plan, s, e, 9), e.worker).Over?
  {
    hide Service.Admit, Service.ExecutionRunning, CanAcquire, Acquire, Record, Release, Busy, Alone;
    var looked := Next(plan, s, e);
    var leased := Next(plan, looked, e);
    TwoSteps(plan, s, e, 9);
    if PhaseOf(leased, e.worker).HasLease? {
      StillBusy(plan, s, leased, e.worker, plan(e.worker).candidate);
      AloneFromLease(plan, leased, e, 7);
    } else {
      NoLeaseNoChange(plan, s, e);
      OverStays(plan, leased, e, 7);
    }
  }

  lemma TwoSteps(plan: Worker -> Job, s: System, e: Step, n: nat)
    requires n >= 2
    ensures Alone(plan, s, e, n) == Alone(plan, Next(plan, Next(plan, s, e), e), e, n - 2)
  {
    hide Next;
    assert Alone(plan, s, e, n) == Alone(plan, Next(plan, s, e), e, n - 1);
  }

  lemma NoLeaseNoChange(plan: Worker -> Job, s: System, e: Step)
    requires PhaseOf(s, e.worker).Ready? && !PhaseOf(Next(plan, Next(plan, s, e), e), e.worker).HasLease?
    ensures Next(plan, Next(plan, s, e), e).tables == s.tables
    ensures PhaseOf(Next(plan, Next(plan, s, e), e), e.worker).Over?
  {
    hide CanAcquire, Busy;
  }

  lemma StillBusy(plan: Worker -> Job, s: System, later: System, v: Worker, candidate: nat)
    requires forall u :: u != v ==> PhaseOf(s, u) == PhaseOf(later, u)
    requires !InExecution(PhaseOf(s, v)) && !InExecution(PhaseOf(later, v))
    ensures Busy(plan, s, candidate) <==> Busy(plan, later, candidate)
  {
    forall u | InExecution(PhaseOf(s, u)) || InExecution(PhaseOf(later, u))
      ensures u in s.phases && u in later.phases && s.phases[u] == later.phases[u]
    {
      assert PhaseOf(s, u) == PhaseOf(later, u);
    }
  }

  // ---------------------------------------------------------------- how calls advance

  function Rank(p: Phase): nat {
    match p
    case Ready => 0
    case HasLooked => 1
    case HasLease => 2
    case HasChecked => 3
    case HasStarted => 4
    case Updating => 5
    case Updated(_, _) => 6
    case Finished(_, _) => 7
    case StartRefused => 7
    case HasRecorded => 8
    case Over => 9
  }

  lemma PhaseStep(plan: Worker -> Job, steps: seq<Step>, n: nat, v: Worker)
    requires n < |steps|
    ensures steps[n].worker != v ==> PhaseAt(plan, steps, n + 1, v) == PhaseAt(plan, steps, n, v)
    ensures steps[n].worker == v ==> PhaseAt(plan, steps, n + 1, v) == NextPhase(plan, At(plan, steps, n), steps[n])
  {
    hide NextPhase, Effect, Apply;
  }

  lemma {:induction false} RanksRise(plan: Worker -> Job, steps: seq<Step>, m: nat, n: nat, v: Worker)
    requires m <= n <= |steps|
    ensures Rank(PhaseAt(plan, steps, m, v)) <= Rank(PhaseAt(plan, steps, n, v))
    ensures m < n && steps[m].worker == v && !PhaseAt(plan, steps, m, v).Over? ==>
              Rank(PhaseAt(plan, steps, m, v)) < Rank(PhaseAt(plan, steps, n, v))
    decreases n
  {
    hide PhaseAt, CanAcquire, Busy;
    if m < n {
      RanksRise(plan, steps, m, n - 1, v);
      PhaseStep(plan, steps, n - 1, v);
      PhaseIs(plan, steps, n - 1, v);
    }
  }

  lemma PhaseIs(plan: Worker -> Job, steps: seq<Step>, n: nat, v: Worker)
    requires n <= |steps|
    ensures PhaseAt(plan, steps, n, v) == PhaseOf(At(plan, steps, n), v)
  {
  }

  /** Step `n` is the lookup of `v`, and `v` goes on. */
  ghost predicate Looks(plan: Worker -> Job, steps: seq<Step>, n: nat, v: Worker) {
    n < |steps| && steps[n].worker == v && PhaseAt(plan, steps, n, v).Ready?
      && PhaseAt(plan, steps, n + 1, v).HasLooked?
  }

  /** Step `n` gives `v` its lease. */
  ghost predicate Takes(plan: Worker -> Job, steps: seq<Step>, n: nat, v: Worker) {
    n < |steps| && steps[n].worker == v && PhaseAt(plan, steps, n, v).HasLooked?
      && PhaseAt(plan, steps, n + 1, v).HasLease?
  }

  /** Step `n` is where `v` reaches the runtime. */
  ghost predicate Begins(plan: Worker -> Job, steps: seq<Step>, n: nat, v: Worker) {
    n < |steps| && steps[n].worker == v && PhaseAt(plan, steps, n, v).HasStarted?
  }

  /** Step `n` is where `v` writes its outcome. */
  ghost predicate Records(plan: Worker -> Job, steps: seq<Step>, n: nat, v: Worker) {
    && n < |steps| && steps[n].worker == v
    && (PhaseAt(plan, steps, n, v).Finished? || PhaseAt(plan, steps, n, v).StartRefused?)
  }

  /** A call on its way has looked, and one that holds a lease has taken it after that. */
  lemma {:induction false} LookOf(plan: Worker -> Job, steps: seq<Step>, n: nat, v: Worker) returns (l: nat)
    requires n <= |steps| && 1 <= Rank(PhaseAt(plan, steps, n, v)) <= 8
    ensures l < n && Looks(plan, steps, l, v)
  {
    hide PhaseAt, CanAcquire, Busy;
    PhaseIs(plan, steps, n, v);
    NobodyAtStart(plan, steps, v);
    PhaseStep(plan, steps, n - 1, v);
    PhaseIs(plan, steps, n - 1, v);
    if steps[n - 1].worker == v && PhaseAt(plan, steps, n - 1, v).Ready? {
      l := n - 1;
    } else {
      l := LookOf(plan, steps, n - 1, v);
    }
  }

  lemma NobodyAtStart(plan: Worker -> Job, steps: seq<Step>, v: Worker)
    ensures PhaseAt(plan, steps, 0, v).Ready?
  {
  }

  lemma {:induction false} TakeOf(plan: Worker -> Job, steps: seq<Step>, n: nat, v: Worker) returns (a: nat)
    requires n <= |steps| && Holding(PhaseAt(plan, steps, n, v))
    ensures a < n && Takes(plan, steps, a, v)
  {
    hide PhaseAt, CanAcquire, Busy;
    PhaseIs(plan, steps, n, v);
    NobodyAtStart(plan, steps, v);
    PhaseStep(plan, steps, n - 1, v);
    PhaseIs(plan, steps, n - 1, v);
    if steps[n - 1].worker == v && PhaseAt(plan, steps, n - 1, v).HasLooked? {
      a := n - 1;
    } else {
      a := TakeOf(plan, steps, n - 1, v);
    }
  }

  /** A call that held a lease, had not recorded, and is over has recorded in between. */
  lemma {:induction false} RecordOf(plan: Worker -> Job, steps: seq<Step>, m: nat, n: nat, v: Worker) returns (k: nat)
    requires m <= n <= |steps| && 2 <= Rank(PhaseAt(plan, steps, m, v)) <= 7 && PhaseAt(plan, steps, n, v).Over?
    ensures m <= k < n && Records(plan, steps, k, v)
    decreases n - m
  {
    hide PhaseAt, CanAcquire, Busy;
    PhaseIs(plan, steps, m, v);
    PhaseStep(plan, steps, m, v);
    if Records(plan, steps, m, v) {
      k := m;
    } else {
      k := RecordOf(plan, steps, m + 1, n, v);
    }
  }

  // ---------------------------------------------------------------- operation rows

  lemma OperationStep(plan: Worker -> Job, steps: seq<Step>, n: nat, op: string)
    requires n < |steps| && op in At(plan, steps, n).tables.operations
    ensures op in At(plan, steps, n + 1).tables.operations
    ensures var v := steps[n].worker;
            && (!(Records(plan, steps, n, v) && plan(v).op == op) ==>
                  At(plan, steps, n + 1).tables.operations[op] == At(plan, steps, n).tables.operations[op])
            && (PhaseAt(plan, steps, n, v).Finished? && PhaseAt(plan, steps, n, v).ok && plan(v).op == op
                && op != "" ==>
                  && At(plan, steps, n + 1).tables.operations[op].status.Succeeded?
                  && At(plan, steps, n + 1).tables.operations[op].result == PhaseAt(plan, steps, n, v).text)
  {
    hide CanAcquire, CanRelease, NextPhase, Unexpired;
  }

  lemma {:induction false} OperationStays(plan: Worker -> Job, steps: seq<Step>, m: nat, n: nat, op: string)
    requires m <= n <= |steps| && op in At(plan, steps, m).tables.operations
    requires forall k, v :: m <= k < n && Records(plan, steps, k, v) ==> plan(v).op != op
    ensures op in At(plan, steps, n).tables.operations
    ensures At(plan, steps, n).tables.operations[op] == At(plan, steps, m).tables.operations[op]
    decreases n
  {
    hide At, Records, PhaseAt;
    if m < n {
      OperationStays(plan, steps, m, n - 1, op);
      OperationStep(plan, steps, n - 1, op);
    }
  }

  lemma TakenHasRow(plan: Worker -> Job, steps: seq<Step>, n: nat, v: Worker)
    requires Takes(plan, steps, n, v)
    ensures plan(v).op != "" && plan(v).op in At(plan, steps, n + 1).tables.operations
  {
    hide Busy, Unexpired, Occupied;
  }

  lemma {:induction false} HolderHasRow(plan: Worker -> Job, steps: seq<Step>, n: nat, v: Worker)
    requires n <= |steps| && Holding(PhaseAt(plan, steps, n, v))
    ensures plan(v).op != "" && plan(v).op in At(plan, steps, n).tables.operations
  {
    hide At, PhaseAt, Takes, Holding;
    var a := TakeOf(plan, steps, n, v);
    TakenHasRow(plan, steps, a, v);
    RowsGrow(plan, steps, a + 1, n, plan(v).op);
  }

  lemma {:induction false} RowsGrow(plan: Worker -> Job, steps: seq<Step>, m: nat, n: nat, op: string)
    requires m <= n <= |steps| && op in At(plan, steps, m).tables.operations
    ensures op in At(plan, steps, n).tables.operations
    decreases n
  {
    hide At;
    if m < n {
      RowsGrow(plan, steps, m, n - 1, op);
      OperationStep(plan, steps, n - 1, op);
    }
  }

  // ---------------------------------------------------------------- when a recorded success is disturbed

  /** Step `s` is where `u` records that its runtime update succeeded. */
  ghost predicate RecordsSuccess(plan: Worker -> Job, steps: seq<Step>, s: nat, u: Worker) {
    s < |steps| && steps[s].worker == u && PhaseAt(plan, steps, s, u).Finished? && PhaseAt(plan, steps, s, u).ok
  }

  /** Step `n` takes the operation of `v` to the runtime or writes over its recorded outcome. */
  ghost predicate Disturbs(plan: Worker -> Job, steps: seq<Step>, n: nat, v: Worker) {
    Begins(plan, steps, n, v) || Records(plan, steps, n, v)
  }

  ghost predicate Disturbed(plan: Worker -> Job, steps: seq<Step>, s: nat, u: Worker) {
    exists n: nat, v: Worker :: n > s && v != u && plan(v).op == plan(u).op && Disturbs(plan, steps, n, v)
  }

  /** `v` looked before step `s`, has not recorded by then, and gets a lease sooner or later. */
  ghost predicate Pending(plan: Worker -> Job, steps: seq<Step>, s: nat, v: Worker)
    requires s <= |steps|
  {
    && (exists l: nat :: l < s && Looks(plan, steps, l, v))
    && (exists a: nat :: Takes(plan, steps, a, v))
    && Rank(PhaseAt(plan, steps, s, v)) <= 7
  }

  /** Every call that began has ended. */
  ghost predicate AllOver(plan: Worker -> Job, steps: seq<Step>) {
    forall v :: PhaseAt(plan, steps, |steps|, v).Ready? || PhaseAt(plan, steps, |steps|, v).Over?
  }

  /** A success once recorded stays while nobody disturbs it. */
  lemma UndisturbedSuccessStays(plan: Worker -> Job, steps: seq<Step>, s: nat, u: Worker, n: nat)
    requires RecordsSuccess(plan, steps, s, u) && s < n <= |steps|
    requires forall k, v :: s < k < n && v != u && plan(v).op == plan(u).op ==> !Disturbs(plan, steps, k, v)
    ensures plan(u).op in At(plan, steps, n).tables.operations
    ensures var row := At(plan, steps, n).tables.operations[plan(u).op];
            row.status.Succeeded? && row.result == PhaseAt(plan, steps, s, u).text
  {
    hide At, PhaseAt, Begins;
    HolderHasRow(plan, steps, s, u);
    OperationStep(plan, steps, s, plan(u).op);
    forall k, v | s + 1 <= k < n && Records(plan, steps, k, v) ensures plan(v).op != plan(u).op {
      if v == u {
        RanksRise(plan, steps, s, k, u);
      } else {
        assert Disturbs(plan, steps, k, v) || plan(v).op != plan(u).op;
      }
    }
    OperationStays(plan, steps, s + 1, n, plan(u).op);
  }

  /** The exact condition: after a success was recorded, its operation reaches the runtime again or
      its record is written over if and only if some other call of that operation had looked before
      the record, had not recorded itself, and gets a lease. */
  lemma SuccessIsDisturbedExactly(plan: Worker -> Job, steps: seq<Step>, s: nat, u: Worker)
    requires RecordsSuccess(plan, steps, s, u) && AllOver(plan, steps)
    ensures Disturbed(plan, steps, s, u) <==>
            exists v: Worker :: v != u && plan(v).op == plan(u).op && Pending(plan, steps, s, v)
  {
    hide Pending, PhaseAt, At;
    if Disturbed(plan, steps, s, u) {
      var n: nat, v: Worker :| n > s && v != u && plan(v).op == plan(u).op && Disturbs(plan, steps, n, v);
      var w := FirstDisturberPends(plan, steps, s, u, n, v);
    }
    if exists v: Worker :: v != u && plan(v).op == plan(u).op && Pending(plan, steps, s, v) {
      var v: Worker :| v != u && plan(v).op == plan(u).op && Pending(plan, steps, s, v);
      var n := PendingDisturbs(plan, steps, s, u, v);
      assert Disturbs(plan, steps, n, v);
    }
  }

  lemma {:induction false} FirstDisturberPends(plan: Worker -> Job, steps: seq<Step>, s: nat, u: Worker, n: nat,
                                               v: Worker)
    returns (w: Worker)
    requires RecordsSuccess(plan, steps, s, u)
    requires n > s && v != u && plan(v).op == plan(u).op && Disturbs(plan, steps, n, v)
    ensures w != u && plan(w).op == plan(u).op && Pending(plan, steps, s, w)
    decreases n
  {
    hide At, PhaseAt, Holding, Pending;
    if exists m: nat, x: Worker :: s < m < n && x != u && plan(x).op == plan(u).op && Disturbs(plan, steps, m, x) {
      var m: nat, x: Worker :| s < m < n && x != u && plan(x).op == plan(u).op && Disturbs(plan, steps, m, x);
      w := FirstDisturberPends(plan, steps, s, u, m, x);
    } else {
      w := v;
      assert Holding(PhaseAt(plan, steps, n, v)) by { DisturberHolds(plan, steps, n, v); }
      var a := TakeOf(plan, steps, n, v);
      var l := LookOf(plan, steps, n, v);
      RanksRise(plan, steps, s, n, v);
      if l > s {
        UndisturbedSuccessStays(plan, steps, s, u, l);
        LookSeesNoSuccess(plan, steps, l, v);
        assert false;
      }
      Pends(plan, steps, s, v, l, a);
    }
  }

  lemma DisturberHolds(plan: Worker -> Job, steps: seq<Step>, n: nat, v: Worker)
    requires Disturbs(plan, steps, n, v)
    ensures Holding(PhaseAt(plan, steps, n, v)) && Rank(PhaseAt(plan, steps, n, v)) <= 7
  {
  }

  lemma Pends(plan: Worker -> Job, steps: seq<Step>, s: nat, v: Worker, l: nat, a: nat)
    requires l < s <= |steps| && Looks(plan, steps, l, v) && Takes(plan, steps, a, v)
             && Rank(PhaseAt(plan, steps, s, v)) <= 7
    ensures Pending(plan, steps, s, v)
  {
  }

  lemma LookSeesNoSuccess(plan: Worker -> Job, steps: seq<Step>, l: nat, v: Worker)
    requires Looks(plan, steps, l, v)
    ensures var found := At(plan, steps, l).tables.operations;
            plan(v).op in found ==> !found[plan(v).op].status.Succeeded?
  {
    hide At;
    PhaseStep(plan, steps, l, v);
  }

  lemma PendingDisturbs(plan: Worker -> Job, steps: seq<Step>, s: nat, u: Worker, v: Worker) returns (n: nat)
    requires RecordsSuccess(plan, steps, s, u) && AllOver(plan, steps) && v != u && Pending(plan, steps, s, v)
    ensures n > s && Records(plan, steps, n, v)
  {
    hide At, PhaseAt;
    var a: nat :| Takes(plan, steps, a, v);
    RanksRise(plan, steps, a + 1, |steps|, v);
    var m := if a < s then s else a + 1;
    RanksRise(plan, steps, a + 1, m, v);
    n := RecordOf(plan, steps, m, |steps|, v);
  }

  // ---------------------------------------------------------------- timely workers exclude each other

  /** No lease is taken at or after the expiry of another before that one's worker is over. */
  ghost predicate Timely(plan: Worker -> Job, steps: seq<Step>) {
    forall a: nat, b: nat, v, w ::
      (Takes(plan, steps, a, v) && Takes(plan, steps, b, w) && a < b
       && steps[b].now >= steps[a].now + plan(v).ttl * SECOND)
      ==> PhaseAt(plan, steps, b, v).Over?
  }

  ghost predicate HasOwnRow(plan: Worker -> Job, steps: seq<Step>, n: nat, v: Worker)
    requires n <= |steps|
  {
    exists a: nat :: a < n && OwnRow(plan, steps, n, v, a)
  }

  ghost predicate OwnRow(plan: Worker -> Job, steps: seq<Step>, n: nat, v: Worker, a: nat)
    requires n <= |steps|
  {
    var job, leases := plan(v), At(plan, steps, n).tables.leases;
    && Takes(plan, steps, a, v)
    && job.op in leases
    && leases[job.op] == Lease(job.container, job.owner, steps[a].now, steps[a].now + job.ttl * SECOND)
  }

  /** Among workers that give their leases back in time, no two ever hold leases for one operation or
      one container; in particular their runtime updates never overlap. */
  lemma {:induction false} TimelyWorkersExclude(plan: Worker -> Job, steps: seq<Step>, n: nat)
    requires Timely(plan, steps) && n <= |steps|
    ensures forall v :: Holding(PhaseAt(plan, steps, n, v)) ==> HasOwnRow(plan, steps, n, v)
    ensures forall v, w :: v != w && Holding(PhaseAt(plan, steps, n, v)) && Holding(PhaseAt(plan, steps, n, w)) ==>
              plan(v).op != plan(w).op && plan(v).container != plan(w).container
  {
    hide Timely, HasOwnRow, Holding, At, PhaseAt;
    if n == 0 {
      forall v ensures !Holding(PhaseAt(plan, steps, 0, v)) {
        NobodyAtStart(plan, steps, v);
        ReadyHoldsNothing(PhaseAt(plan, steps, 0, v));
      }
    } else {
      TimelyWorkersExclude(plan, steps, n - 1);
      forall v | Holding(PhaseAt(plan, steps, n, v)) ensures HasOwnRow(plan, steps, n, v) {
        OwnRowStep(plan, steps, n - 1, v);
      }
      forall v, w | v != w && Holding(PhaseAt(plan, steps, n, v)) && Holding(PhaseAt(plan, steps, n, w))
        ensures plan(v).op != plan(w).op && plan(v).container != plan(w).container
      {
        ApartStep(plan, steps, n - 1, v, w);
      }
    }
  }

  lemma ReadyHoldsNothing(p: Phase)
    requires p.Ready?
    ensures !Holding(p)
  {
  }

  /** A step after which `v` holds: it held before and kept its row, or it has just taken its lease. */
  lemma OwnRowStep(plan: Worker -> Job, steps: seq<Step>, n: nat, v: Worker)
    requires Timely(plan, steps) && n < |steps| && Holding(PhaseAt(plan, steps, n + 1, v))
    requires Holding(PhaseAt(plan, steps, n, v)) ==> HasOwnRow(plan, steps, n, v)
    requires forall w :: w != v && Holding(PhaseAt(plan, steps, n, v)) && Holding(PhaseAt(plan, steps, n, w)) ==>
             plan(v).op != plan(w).op
    ensures HasOwnRow(plan, steps, n + 1, v)
  {
    hide Timely, At, PhaseAt, Busy, Holding, Takes;
    if Holding(PhaseAt(plan, steps, n, v)) {
      var a: nat :| a < n && OwnRow(plan, steps, n, v, a);
      RowKept(plan, steps, n, v, a);
      assert OwnRow(plan, steps, n + 1, v, a);
    } else {
      NewHolderTakes(plan, steps, n, v);
      TakerHasRow(plan, steps, n, v);
      assert OwnRow(plan, steps, n + 1, v, n);
    }
  }

  lemma NewHolderTakes(plan: Worker -> Job, steps: seq<Step>, n: nat, v: Worker)
    requires n < |steps| && Holding(PhaseAt(plan, steps, n + 1, v)) && !Holding(PhaseAt(plan, steps, n, v))
    ensures Takes(plan, steps, n, v)
  {
    hide At, CanAcquire, Busy;
    PhaseStep(plan, steps, n, v);
  }

  /** What a successful acquisition found, and what it wrote. */
  lemma TakerHasRow(plan: Worker -> Job, steps: seq<Step>, n: nat, v: Worker)
    requires Takes(plan, steps, n, v)
    ensures var job, before, after := plan(v), At(plan, steps, n).tables, At(plan, steps, n + 1).tables;
            && CanAcquire(before, job.op, job.container, job.owner, job.ttl, steps[n].now)
            && after == Acquire(before, job.op, job.container, job.owner, job.ttl, steps[n].now)
            && job.op in after.leases
            && after.leases[job.op] == Lease(job.container, job.owner, steps[n].now, steps[n].now + job.ttl * SECOND)
  {
    hide CanAcquire, Busy, Unexpired;
  }

  lemma RowKept(plan: Worker -> Job, steps: seq<Step>, n: nat, v: Worker, a: nat)
    requires Timely(plan, steps) && n < |steps| && a < n && OwnRow(plan, steps, n, v, a)
    requires Holding(PhaseAt(plan, steps, n, v)) && Holding(PhaseAt(plan, steps, n + 1, v))
    requires forall w :: w != v && Holding(PhaseAt(plan, steps, n, w)) ==> plan(v).op != plan(w).op
    ensures OwnRow(plan, steps, n + 1, v, a)
  {
    hide Timely, Holding, Busy, At, Takes, PhaseAt;
    var w := steps[n].worker;
    TableStep(plan, steps, n);
    if Takes(plan, steps, n, w) {
      TakerHasRow(plan, steps, n, w);
      StillUnexpired(plan, steps, a, n, v, w);
      var live := Unexpired(At(plan, steps, n).tables.leases, steps[n].now);
      assert plan(v).op in live && live[plan(v).op] == At(plan, steps, n).tables.leases[plan(v).op];
      assert plan(w).op !in live;
    } else if PhaseAt(plan, steps, n, w).HasRecorded? {
      RecordedHoldsButLeaves(plan, steps, n, w);
      assert plan(v).op != plan(w).op;
      assert plan(v).op in At(plan, steps, n + 1).tables.leases;
    }
  }

  lemma StillUnexpired(plan: Worker -> Job, steps: seq<Step>, a: nat, n: nat, v: Worker, w: Worker)
    requires Timely(plan, steps) && a < n && Takes(plan, steps, a, v) && Takes(plan, steps, n, w)
    requires Holding(PhaseAt(plan, steps, n, v))
    ensures steps[n].now < steps[a].now + plan(v).ttl * SECOND
  {
    hide Takes, PhaseAt;
  }

  lemma RecordedHoldsButLeaves(plan: Worker -> Job, steps: seq<Step>, n: nat, w: Worker)
    requires n < |steps| && steps[n].worker == w && PhaseAt(plan, steps, n, w).HasRecorded?
    ensures Holding(PhaseAt(plan, steps, n, w)) && !Holding(PhaseAt(plan, steps, n + 1, w))
  {
    hide At;
    PhaseStep(plan, steps, n, w);
  }

  /** Which steps touch the lease table. */
  lemma TableStep(plan: Worker -> Job, steps: seq<Step>, n: nat)
    requires n < |steps|
    ensures var w, before, after := steps[n].worker, At(plan, steps, n).tables, At(plan, steps, n + 1).tables;
            && (PhaseAt(plan, steps, n, w).HasRecorded? ==>
                  forall op :: op in before.leases && op != plan(w).op ==>
                    op in after.leases && after.leases[op] == before.leases[op])
            && (!PhaseAt(plan, steps, n, w).HasRecorded? && !Takes(plan, steps, n, w) ==> after.leases == before.leases)
  {
    hide CanAcquire, Busy, Unexpired, CanRelease;
  }

  lemma ApartStep(plan: Worker -> Job, steps: seq<Step>, n: nat, v: Worker, w: Worker)
    requires Timely(plan, steps) && n < |steps| && v != w
    requires Holding(PhaseAt(plan, steps, n + 1, v)) && Holding(PhaseAt(plan, steps, n + 1, w))
    requires forall x :: Holding(PhaseAt(plan, steps, n, x)) ==> HasOwnRow(plan, steps, n, x)
    requires Holding(PhaseAt(plan, steps, n, v)) && Holding(PhaseAt(plan, steps, n, w)) ==>
               plan(v).op != plan(w).op && plan(v).container != plan(w).container
    ensures plan(v).op != plan(w).op && plan(v).container != plan(w).container
  {
    hide Timely, At, PhaseAt, Holding, HasOwnRow, Takes;
    if !Holding(PhaseAt(plan, steps, n, v)) {
      NewHolderTakes(plan, steps, n, v);
      TakerIsApart(plan, steps, n, v, w);
    } else if !Holding(PhaseAt(plan, steps, n, w)) {
      NewHolderTakes(plan, steps, n, w);
      TakerIsApart(plan, steps, n, w, v);
    }
  }

  lemma TakerIsApart(plan: Worker -> Job, steps: seq<Step>, n: nat, taker: Worker, holder: Worker)
    requires Timely(plan, steps) && Takes(plan, steps, n, taker) && taker != holder
    requires Holding(PhaseAt(plan, steps, n + 1, holder))
    requires Holding(PhaseAt(plan, steps, n, holder)) ==> HasOwnRow(plan, steps, n, holder)
    ensures plan(taker).op != plan(holder).op && plan(taker).container != plan(holder).container
  {
    hide Timely, At, Holding;
    PhaseStep(plan, steps, n, holder);
    var a: nat :| a < n && OwnRow(plan, steps, n, holder, a);
    TakerHasRow(plan, steps, n, taker);
    StillUnexpired(plan, steps, a, n, holder, taker);
    assert plan(holder).op in Unexpired(At(plan, steps, n).tables.leases, steps[n].now);
  }

  /** `v` looks at step `l` and takes its lease at step `a`. */
  ghost predicate Straddles(plan: Worker -> Job, steps: seq<Step>, l: nat, a: nat, v: Worker) {
    Looks(plan, steps, l, v) && Takes(plan, steps, a, v)
  }

  /** Among timely workers the condition is the plain one: a recorded success is disturbed if and only
      if another call of its operation looked before the record and takes its lease after it. */
  lemma TimelySuccessIsDisturbedExactly(plan: Worker -> Job, steps: seq<Step>, s: nat, u: Worker)
    requires RecordsSuccess(plan, steps, s, u) && AllOver(plan, steps) && Timely(plan, steps)
    ensures Disturbed(plan, steps, s, u) <==>
            exists v: Worker, l: nat, a: nat :: v != u && plan(v).op == plan(u).op && l < s < a
              && Straddles(plan, steps, l, a, v)
  {
    hide Timely, At, PhaseAt, AllOver, Disturbed, Looks, Takes;
    SuccessIsDisturbedExactly(plan, steps, s, u);
    if v: Worker :| v != u && plan(v).op == plan(u).op && Pending(plan, steps, s, v) {
      var l: nat :| l < s && Looks(plan, steps, l, v);
      var a: nat :| Takes(plan, steps, a, v);
      PendingTakesLater(plan, steps, s, u, v, a);
      assert Straddles(plan, steps, l, a, v);
    }
    if v: Worker, l: nat, a: nat :| v != u && plan(v).op == plan(u).op && l < s < a && Straddles(plan, steps, l, a, v) {
      LaterTakerPends(plan, steps, s, v, a);
    }
  }

  lemma PendingTakesLater(plan: Worker -> Job, steps: seq<Step>, s: nat, u: Worker, v: Worker, a: nat)
    requires RecordsSuccess(plan, steps, s, u) && Timely(plan, steps) && v != u && plan(v).op == plan(u).op
    requires Takes(plan, steps, a, v) && Rank(PhaseAt(plan, steps, s, v)) <= 7
    ensures a > s
  {
    hide Timely, At, PhaseAt;
    TimelyWorkersExclude(plan, steps, s);
    if a < s {
      RanksRise(plan, steps, a + 1, s, v);
    }
  }

  lemma LaterTakerPends(plan: Worker -> Job, steps: seq<Step>, s: nat, v: Worker, a: nat)
    requires s < a && Takes(plan, steps, a, v)
    ensures Rank(PhaseAt(plan, steps, s, v)) <= 7
  {
    hide At, PhaseAt;
    RanksRise(plan, steps, s, a, v);
  }

  // ---------------------------------------------------------------- when updates of one container overlap

  /** If a worker takes a container while another, which took it before, is still on its way, then
      the first lease had expired, or a third worker of the first one's operation had released it:
      one that had taken the same operation before or after and outlived its own lease. */
  lemma OverlapNeedsExpiry(plan: Worker -> Job, steps: seq<Step>, a: nat, b: nat, n: nat, v: Worker, w: Worker)
    requires StampsAscend(Effects(plan, steps)) && a < b < n <= |steps|
    requires Takes(plan, steps, a, v) && Takes(plan, steps, b, w) && plan(v).container == plan(w).container
    requires Holding(PhaseAt(plan, steps, n, v))
    ensures || steps[b].now >= steps[a].now + plan(v).ttl * SECOND
            || exists k: nat :: a < k < b && FreedByOther(plan, steps, k, v)
    ensures !Timely(plan, steps)
  {
    hide Timely, At, Holding, Takes, StampsAscend;
    var events := Effects(plan, steps);
    TakeIsAcquisition(plan, steps, a, v);
    TakeIsAcquisition(plan, steps, b, w);
    LeasesExclude(events, a, b);
    if k: nat :| a < k < b && Releases(events, k, plan(v).op) {
      ReleaseIsByOther(plan, steps, k, n, v);
    }
    NotTimely(plan, steps, a, b, n, v, w);
  }

  /** Another worker's release of the operation of `v`. */
  ghost predicate FreedByOther(plan: Worker -> Job, steps: seq<Step>, k: nat, v: Worker) {
    && k < |steps| && steps[k].worker != v && plan(steps[k].worker).op == plan(v).op
    && PhaseAt(plan, steps, k, steps[k].worker).HasRecorded?
  }

  lemma TakeIsAcquisition(plan: Worker -> Job, steps: seq<Step>, n: nat, v: Worker)
    requires Takes(plan, steps, n, v)
    ensures var events, job := Effects(plan, steps), plan(v);
            && |events| == |steps| && Acquires(events, n)
            && events[n] == DoAcquire(job.op, job.container, job.owner, job.ttl, steps[n].now)
  {
    hide At, CanAcquire;
    TakerHasRow(plan, steps, n, v);
    TablesAgree(plan, steps, n);
  }

  lemma ReleaseIsByOther(plan: Worker -> Job, steps: seq<Step>, k: nat, n: nat, v: Worker)
    requires k < n <= |steps| && Releases(Effects(plan, steps), k, plan(v).op) && Holding(PhaseAt(plan, steps, n, v))
    ensures FreedByOther(plan, steps, k, v)
  {
    hide At, CanRelease;
    var w := steps[k].worker;
    assert Effects(plan, steps)[k] == Effect(plan, At(plan, steps, k), steps[k]);
    RecordedHoldsButLeaves(plan, steps, k, w);
    PhaseStep(plan, steps, k, w);
    RanksRise(plan, steps, k + 1, n, w);
  }

  /** At a step where another worker asks for a lease, the row of a worker on its way still stands and
      is unexpired exactly when its time has not run out by that clock and nobody has released its
      operation in between; such a release is another call's. */
  lemma RowStandsExactly(plan: Worker -> Job, steps: seq<Step>, a: nat, b: nat, v: Worker)
    requires StampsAscend(Effects(plan, steps)) && a < b < |steps| && Takes(plan, steps, a, v)
    requires PhaseAt(plan, steps, b, steps[b].worker).HasLooked? && Holding(PhaseAt(plan, steps, b, v))
    ensures var events, expires := Effects(plan, steps), steps[a].now + plan(v).ttl * SECOND;
            && (Holder(events, b, plan(v).op) == Some(a) && steps[b].now < expires <==>
                steps[b].now < expires && forall k: nat :: a < k < b ==> !Releases(events, k, plan(v).op))
            && (forall k: nat :: a < k < b && Releases(events, k, plan(v).op) ==> FreedByOther(plan, steps, k, v))
  {
    hide At, Holding, Takes, Releases, Acquires;
    var events := Effects(plan, steps);
    TakeIsAcquisition(plan, steps, a, v);
    HolderStaysExactly(events, a, b);
    assert events[b] == Effect(plan, At(plan, steps, b), steps[b]);
    forall k: nat | a < k < b && Releases(events, k, plan(v).op) ensures FreedByOther(plan, steps, k, v) {
      ReleaseIsByOther(plan, steps, k, b, v);
    }
    if steps[b].now < steps[a].now + plan(v).ttl * SECOND {
      forall k: nat | a < k < b ensures Ends(events, a, k) <==> Releases(events, k, plan(v).op) {
        NoSweepYet(events, a, k, b);
      }
    }
  }

  lemma NoSweepYet(events: seq<Event>, a: nat, k: nat, b: nat)
    requires StampsAscend(events) && a < k < b < |events| && events[a].DoAcquire? && events[b].DoAcquire?
    requires events[b].now < LeaseOf(events[a]).expires
    ensures Ends(events, a, k) <==> Releases(events, k, events[a].op)
  {
    hide After, CanAcquire, CanRelease;
  }

  lemma NotTimely(plan: Worker -> Job, steps: seq<Step>, a: nat, b: nat, n: nat, v: Worker, w: Worker)
    requires a < b < n <= |steps|
    requires Takes(plan, steps, a, v) && Takes(plan, steps, b, w) && plan(v).container == plan(w).container
    requires Holding(PhaseAt(plan, steps, n, v))
    ensures !Timely(plan, steps)
  {
    hide Timely, At;
    if Timely(plan, steps) {
      TimelyWorkersExclude(plan, steps, b + 1);
      RanksRise(plan, steps, a + 1, b + 1, v);
      RanksRise(plan, steps, b + 1, n, v);
      RanksRise(plan, steps, a, b, v);
    }
  }

  // ---------------------------------------------------------------- two executions of one candidate

  /** Step `n` is where `v` finds no execution of its candidate running. */
  ghost predicate Checks(plan: Worker -> Job, steps: seq<Step>, n: nat, v: Worker) {
    && n < |steps| && steps[n].worker == v
    && PhaseAt(plan, steps, n, v).HasLease? && PhaseAt(plan, steps, n + 1, v).HasChecked?
  }

  /** Step `n` is where `v` inserts its own execution. */
  ghost predicate Inserts(plan: Worker -> Job, steps: seq<Step>, n: nat, v: Worker) {
    n < |steps| && steps[n].worker == v && PhaseAt(plan, steps, n, v).HasChecked?
  }

  /** Step `n` is where `v` closes its execution. */
  ghost predicate Closes(plan: Worker -> Job, steps: seq<Step>, n: nat, v: Worker) {
    n < |steps| && steps[n].worker == v && PhaseAt(plan, steps, n, v).Updated?
  }

  ghost predicate ClosedBy(plan: Worker -> Job, steps: seq<Step>, n: nat, v: Worker) {
    exists k: nat :: k < n && Closes(plan, steps, k, v)
  }

  /** Where a running execution comes from: its check, then its insertion, and no closing yet. */
  lemma {:induction false} RunningOf(plan: Worker -> Job, steps: seq<Step>, n: nat, v: Worker)
    returns (c: nat, i: nat)
    requires n <= |steps| && InExecution(PhaseAt(plan, steps, n, v))
    ensures c < i < n && Checks(plan, steps, c, v) && Inserts(plan, steps, i, v) && !ClosedBy(plan, steps, n, v)
  {
    hide At, CanAcquire, Busy;
    NobodyAtStart(plan, steps, v);
    PhaseStep(plan, steps, n - 1, v);
    if InExecution(PhaseAt(plan, steps, n - 1, v)) {
      c, i := RunningOf(plan, steps, n - 1, v);
    } else {
      i := n - 1;
      c := CheckOf(plan, steps, n - 1, v);
    }
    NotClosed(plan, steps, n, v);
  }

  lemma {:induction false} CheckOf(plan: Worker -> Job, steps: seq<Step>, n: nat, v: Worker) returns (c: nat)
    requires n <= |steps| && PhaseAt(plan, steps, n, v).HasChecked?
    ensures c < n && Checks(plan, steps, c, v)
  {
    hide At, CanAcquire, Busy;
    NobodyAtStart(plan, steps, v);
    PhaseStep(plan, steps, n - 1, v);
    if PhaseAt(plan, steps, n - 1, v).HasChecked? {
      c := CheckOf(plan, steps, n - 1, v);
    } else {
      c := n - 1;
    }
  }

  lemma NotClosed(plan: Worker -> Job, steps: seq<Step>, n: nat, v: Worker)
    requires n <= |steps| && InExecution(PhaseAt(plan, steps, n, v))
    ensures !ClosedBy(plan, steps, n, v)
  {
    hide At, PhaseAt;
    forall k: nat | k < n ensures !Closes(plan, steps, k, v) {
      RanksRise(plan, steps, k, n, v);
    }
  }

  /** An inserted execution runs until it is closed. */
  lemma {:induction false} RunsUntilClosed(plan: Worker -> Job, steps: seq<Step>, i: nat, n: nat, v: Worker)
    requires i < n <= |steps| && Inserts(plan, steps, i, v) && !ClosedBy(plan, steps, n, v)
    ensures InExecution(PhaseAt(plan, steps, n, v))
    decreases n
  {
    hide At, CanAcquire, Busy;
    PhaseStep(plan, steps, n - 1, v);
    assert !Closes(plan, steps, n - 1, v);
    if i < n - 1 {
      RunsUntilClosed(plan, steps, i, n - 1, v);
    }
  }

  lemma CheckSeesNobody(plan: Worker -> Job, steps: seq<Step>, c: nat, v: Worker, w: Worker)
    requires Checks(plan, steps, c, v) && plan(v).candidate == plan(w).candidate
    ensures !InExecution(PhaseAt(plan, steps, c, w))
  {
    hide At, CanAcquire, Busy;
    PhaseStep(plan, steps, c, v);
    if InExecution(PhaseAt(plan, steps, c, w)) {
      BusyWith(plan, At(plan, steps, c), w);
    }
  }

  /** Each of the two had checked before the other inserted. */
  ghost predicate Crossed(plan: Worker -> Job, steps: seq<Step>, v: Worker, w: Worker, n: nat) {
    exists c: nat, i: nat, d: nat, j: nat ::
      && c < i < n && d < j < n && c < j && d < i
      && CheckedAndInserted(plan, steps, c, i, v) && CheckedAndInserted(plan, steps, d, j, w)
  }

  ghost predicate CheckedAndInserted(plan: Worker -> Job, steps: seq<Step>, c: nat, i: nat, v: Worker) {
    Checks(plan, steps, c, v) && Inserts(plan, steps, i, v)
  }

  /** Looking for a running execution and inserting one are two statements, with no transaction around
      them: two executions of one candidate run at the same time exactly when each call checked before
      the other inserted and neither has closed its execution. */
  lemma SameCandidateRunsTwiceExactly(plan: Worker -> Job, steps: seq<Step>, n: nat, v: Worker, w: Worker)
    requires n <= |steps| && v != w && plan(v).candidate == plan(w).candidate
    ensures InExecution(PhaseAt(plan, steps, n, v)) && InExecution(PhaseAt(plan, steps, n, w)) <==>
            Crossed(plan, steps, v, w, n) && !ClosedBy(plan, steps, n, v) && !ClosedBy(plan, steps, n, w)
  {
    hide At, PhaseAt, ClosedBy, Checks, Inserts, InExecution, Rank;
    if InExecution(PhaseAt(plan, steps, n, v)) && InExecution(PhaseAt(plan, steps, n, w)) {
      var c, i := RunningOf(plan, steps, n, v);
      var d, j := RunningOf(plan, steps, n, w);
      CheckPrecedesInsert(plan, steps, c, j, n, v, w);
      CheckPrecedesInsert(plan, steps, d, i, n, w, v);
      assert CheckedAndInserted(plan, steps, c, i, v) && CheckedAndInserted(plan, steps, d, j, w);
    }
    if Crossed(plan, steps, v, w, n) && !ClosedBy(plan, steps, n, v) && !ClosedBy(plan, steps, n, w) {
      var c: nat, i: nat, d: nat, j: nat :|
        && c < i < n && d < j < n && c < j && d < i
        && CheckedAndInserted(plan, steps, c, i, v) && CheckedAndInserted(plan, steps, d, j, w);
      RunsUntilClosed(plan, steps, i, n, v);
      RunsUntilClosed(plan, steps, j, n, w);
    }
  }

  /** A check that comes after an insertion finds that execution, unless it was closed. */
  lemma CheckPrecedesInsert(plan: Worker -> Job, steps: seq<Step>, c: nat, j: nat, n: nat, v: Worker, w: Worker)
    requires c < n <= |steps| && j < n && v != w && plan(v).candidate == plan(w).candidate
    requires Checks(plan, steps, c, v) && Inserts(plan, steps, j, w) && !ClosedBy(plan, steps, n, w)
    ensures c < j
  {
    hide At, PhaseAt;
    StepIsOneWorkers(plan, steps, c, j, v, w);
    if j < c {
      assert !ClosedBy(plan, steps, c, w);
      RunsUntilClosed(plan, steps, j, c, w);
      CheckSeesNobody(plan, steps, c, v, w);
    }
  }

  lemma StepIsOneWorkers(plan: Worker -> Job, steps: seq<Step>, c: nat, j: nat, v: Worker, w: Worker)
    requires v != w && Checks(plan, steps, c, v) && Inserts(plan, steps, j, w)
    ensures c != j
  {
  }

  /** Workers that give their leases back in time never run two executions of one candidate, which is
      a row for one container, at the same time. */
  lemma TimelyCandidatesDiffer(plan: Worker -> Job, steps: seq<Step>, n: nat, v: Worker, w: Worker)
    requires Timely(plan, steps) && n <= |steps| && v != w
    requires plan(v).candidate == plan(w).candidate ==> plan(v).container == plan(w).container
    requires InExecution(PhaseAt(plan, steps, n, v)) && InExecution(PhaseAt(plan, steps, n, w))
    ensures plan(v).candidate != plan(w).candidate
  {
    hide Timely, At, PhaseAt;
    TimelyWorkersExclude(plan, steps, n);
  }

  lemma BusyWith(plan: Worker -> Job, s: System, v: Worker)
    requires InExecution(PhaseOf(s, v))
    ensures Busy(plan, s, plan(v).candidate)
  {
    assert v in s.phases;
  }

  // ---------------------------------------------------------------- three kinds of run

  ghost predicate SoloFrom(steps: seq<Step>, n: nat, count: nat, e: Step) {
    n + count <= |steps| && forall i :: n <= i < n + count ==> steps[i] == e
  }

  lemma LookStep(plan: Worker -> Job, steps: seq<Step>, n: nat, s: System)
    requires n < |steps| && At(plan, steps, n) == s && PhaseOf(s, steps[n].worker).Ready?
    requires var op := plan(steps[n].worker).op;
             op in s.tables.operations ==>
               !s.tables.operations[op].status.Succeeded? && !s.tables.operations[op].status.Running?
    ensures At(plan, steps, n + 1) == s.(phases := s.phases[steps[n].worker := HasLooked])
  {
    hide CanAcquire, Busy;
  }

  /** Four steps in a row bring a call from its lookup into its runtime update. */
  lemma SoloTake(plan: Worker -> Job, steps: seq<Step>, n: nat, e: Step, s: System)
    requires SoloFrom(steps, n, 4, e) && At(plan, steps, n) == s && PhaseOf(s, e.worker).HasLooked?
    requires var job := plan(e.worker);
             && CanAcquire(s.tables, job.op, job.container, job.owner, job.ttl, e.now)
             && forall u :: u in s.phases && InExecution(s.phases[u]) ==> plan(u).candidate != job.candidate
    ensures var job := plan(e.worker);
            && At(plan, steps, n + 4) == System(Acquire(s.tables, job.op, job.container, job.owner, job.ttl, e.now),
                                                s.phases[e.worker := Updating])
            && Takes(plan, steps, n, e.worker) && Begins(plan, steps, n + 3, e.worker)
  {
    hide CanAcquire, Acquire, Busy;
    var job := plan(e.worker);
    var t := Acquire(s.tables, job.op, job.container, job.owner, job.ttl, e.now);
    assert steps[n] == steps[n + 1] == steps[n + 2] == steps[n + 3] == e;
    assert At(plan, steps, n + 1) == System(t, s.phases[e.worker := HasLease]);
    NotBusy(plan, At(plan, steps, n + 1), job.candidate);
    assert At(plan, steps, n + 2) == System(t, s.phases[e.worker := HasChecked]);
    assert At(plan, steps, n + 3) == System(t, s.phases[e.worker := HasStarted]);
  }

  lemma NotBusy(plan: Worker -> Job, s: System, candidate: nat)
    requires forall u :: u in s.phases && InExecution(s.phases[u]) ==> plan(u).candidate != candidate
    ensures !Busy(plan, s, candidate)
  {
  }

  /** Two more steps end the update. */
  lemma SoloUpdate(plan: Worker -> Job, steps: seq<Step>, n: nat, e: Step, s: System)
    requires SoloFrom(steps, n, 2, e) && At(plan, steps, n) == s && PhaseOf(s, e.worker).Updating?
    ensures At(plan, steps, n + 2) == s.(phases := s.phases[e.worker := Finished(e.ok, e.text)])
  {
    assert steps[n] == steps[n + 1] == e;
    assert At(plan, steps, n + 1) == s.(phases := s.phases[e.worker := Updated(e.ok, e.text)]);
  }

  /** And two more record it and give the lease back. */
  lemma SoloClose(plan: Worker -> Job, steps: seq<Step>, n: nat, e: Step, s: System)
    requires SoloFrom(steps, n, 2, e) && At(plan, steps, n) == s && PhaseOf(s, e.worker) == Finished(e.ok, e.text)
    ensures var job := plan(e.worker);
            At(plan, steps, n + 2)
            == System(Release(Record(s.tables, job.op, if e.ok then Succeeded else Failed, e.text, ""), job.op,
               Some(job.owner)),
                      s.phases[e.worker := Over])
  {
    hide Record, Release;
    var job := plan(e.worker);
    assert steps[n] == steps[n + 1] == e;
    assert At(plan, steps, n + 1) == System(Record(s.tables, job.op, if e.ok then Succeeded else Failed, e.text, ""),
                                            s.phases[e.worker := HasRecorded]);
  }

  predicate ValidJob(job: Job) {
    job.op != "" && job.container != "" && job.owner != "" && job.ttl > 0
  }

  function OperationRows(t: Tables, job: Job): map<string, Operation> {
    if job.op in t.operations then t.operations
    else t.operations[job.op := Operation(job.container, Leased, "{}", "")]
  }

  /** Every lease in the table has expired, if there is any. */
  lemma FreeAcquire(t: Tables, job: Job, now: int)
    requires ValidJob(job) && forall op :: op in t.leases ==> t.leases[op].expires <= now
    ensures CanAcquire(t, job.op, job.container, job.owner, job.ttl, now)
    ensures Acquire(t, job.op, job.container, job.owner, job.ttl, now)
            == Tables(map[job.op := Lease(job.container, job.owner, now, now + job.ttl * SECOND)],
               OperationRows(t, job))
  {
    assert Unexpired(t.leases, now) == map[];
  }

  lemma ClosedTables(t: Tables, job: Job, status: OperationStatus, text: string)
    requires job.op != "" && job.op in t.operations && job.op in t.leases && t.leases[job.op].owner == job.owner
    ensures Release(Record(t, job.op, status, text, ""), job.op, Some(job.owner))
            == Tables(t.leases - {job.op},
               t.operations[job.op := t.operations[job.op].(status := status, result := text, error := "")])
  {
  }

  /** Two workers for one job: both look, then one after the other runs its update to the end. */
  ghost predicate LookLookRunRun(steps: seq<Step>, first: Step, second: Step) {
    && |steps| == 18 && first.worker != second.worker
    && steps[0] == first && steps[1] == second && SoloFrom(steps, 2, 8, first) && SoloFrom(steps, 10, 8, second)
  }

  /** Eight steps in a row take a call from its lookup to its end. */
  lemma SoloRun(plan: Worker -> Job, steps: seq<Step>, n: nat, e: Step, s: System)
    requires SoloFrom(steps, n, 8, e) && At(plan, steps, n) == s && PhaseOf(s, e.worker).HasLooked?
    requires s.tables.leases == map[] && ValidJob(plan(e.worker))
    requires forall u :: u in s.phases ==> !InExecution(s.phases[u])
    ensures var job, rows := plan(e.worker), OperationRows(s.tables, plan(e.worker));
            && At(plan, steps, n + 8)
               == System(Tables(map[],
                  rows[job.op := rows[job.op].(status := if e.ok then Succeeded
                    else Failed, result := e.text, error := "")]),
                         s.phases[e.worker := Over])
            && Begins(plan, steps, n + 3, e.worker) && PhaseAt(plan, steps, n + 6, e.worker) == Finished(e.ok, e.text)
  {
    hide At, CanAcquire, Acquire, Record, Release, Takes, InExecution, Begins;
    var job := plan(e.worker);
    var t := Tables(map[job.op := Lease(job.container, job.owner, e.now, e.now + job.ttl * SECOND)],
      OperationRows(s.tables, job));
    FreeAcquire(s.tables, job, e.now);
    SoloTake(plan, steps, n, e, s);
    var updating := System(t, s.phases[e.worker := Updating]);
    SoloUpdate(plan, steps, n + 4, e, updating);
    var finished := System(t, s.phases[e.worker := Finished(e.ok, e.text)]);
    assert updating.phases[e.worker := Finished(e.ok, e.text)] == finished.phases;
    SoloClose(plan, steps, n + 6, e, finished);
    assert finished.phases[e.worker := Over] == s.phases[e.worker := Over];
    ClosedTables(t, job, if e.ok then Succeeded else Failed, e.text);
  }

  /** The condition is met in practice: in every such run the second worker reaches the runtime after
      the first has recorded its success, and its failure is written over that success. */
  lemma SecondLookerLosesSuccess(job: Job, steps: seq<Step>, first: Step, second: Step)
    requires ValidJob(job) && LookLookRunRun(steps, first, second) && first.ok && !second.ok
    ensures var plan := (v: Worker) => job;
            && RecordsSuccess(plan, steps, 8, first.worker) && Begins(plan, steps, 13, second.worker)
            && At(plan, steps, 18).tables
               == Tables(map[], map[job.op := Operation(job.container, Failed, second.text, "")])
  {
    hide At, Begins;
    var plan := (v: Worker) => job;
    StartsEmpty(plan, steps);
    LookStep(plan, steps, 0, START);
    var one := System(NO_ROWS, map[first.worker := HasLooked]);
    LookStep(plan, steps, 1, one);
    var two := System(NO_ROWS, map[first.worker := HasLooked, second.worker := HasLooked]);
    SoloRun(plan, steps, 2, first, two);
    var good := System(Tables(map[], map[job.op := Operation(job.container, Succeeded, first.text, "")]),
                       two.phases[first.worker := Over]);
    SoloRun(plan, steps, 10, second, good);
  }

  lemma StartsEmpty(plan: Worker -> Job, steps: seq<Step>)
    ensures At(plan, steps, 0) == START
  {
  }

  /** Three calls for one container. The first outlives its lease and is slow to record; the second
      takes the same operation over; the third has another operation and another candidate. */
  ghost predicate LateRelease(plan: Worker -> Job, slow: Step, heir: Step, third: Step) {
    var a, b, c := plan(slow.worker), plan(heir.worker), plan(third.worker);
    && slow.worker != heir.worker && heir.worker != third.worker && slow.worker != third.worker
    && ValidJob(a) && ValidJob(b) && ValidJob(c)
    && b.op == a.op && b.container == a.container && b.owner == a.owner && b.candidate == a.candidate
    && c.op != a.op && c.container == a.container && c.candidate != a.candidate
    && slow.now + a.ttl * SECOND <= heir.now <= third.now < heir.now + b.ttl * SECOND
  }

  ghost predicate LateReleaseRun(steps: seq<Step>, slow: Step, heir: Step, third: Step) {
    && |steps| == 19
    && steps[0] == slow && SoloFrom(steps, 1, 4, slow) && SoloFrom(steps, 5, 2, slow)
    && steps[7] == heir && SoloFrom(steps, 8, 4, heir)
    && SoloFrom(steps, 12, 2, slow)
    && steps[14] == third && SoloFrom(steps, 15, 4, third)
  }

  /** In every such run two runtime updates of one container overlap although the lease of the first
      has not expired: the slow worker's release frees its heir's lease. */
  lemma LateReleaseLetsUpdatesOverlap(plan: Worker -> Job, steps: seq<Step>, slow: Step, heir: Step, third: Step)
    requires LateRelease(plan, slow, heir, third) && LateReleaseRun(steps, slow, heir, third)
    ensures Takes(plan, steps, 8, heir.worker) && Takes(plan, steps, 15, third.worker)
    ensures steps[15].now < steps[8].now + plan(heir.worker).ttl * SECOND
    ensures PhaseAt(plan, steps, 19, heir.worker).Updating? && PhaseAt(plan, steps, 19, third.worker).Updating?
    ensures plan(heir.worker).container == plan(third.worker).container
  {
    hide At, Takes, Begins, CanAcquire, Acquire, OperationRows;
    var c := plan(third.worker);
    var ended := Finished(slow.ok, slow.text);
    SlowUpdates(plan, steps, slow, heir, third);
    HeirUpdates(plan, steps, slow, heir, third);
    SlowReleases(plan, steps, slow, heir, third);
    var late := System(At(plan, steps, 14).tables, map[slow.worker := Over, heir.worker := Updating]);
    LookStep(plan, steps, 14, late);
    FreeAcquire(late.tables, c, third.now);
    SoloTake(plan, steps, 15, third, late.(phases := late.phases[third.worker := HasLooked]));
  }

  lemma SlowUpdates(plan: Worker -> Job, steps: seq<Step>, slow: Step, heir: Step, third: Step)
    requires LateRelease(plan, slow, heir, third) && LateReleaseRun(steps, slow, heir, third)
    ensures var a := plan(slow.worker);
            At(plan, steps, 7) == System(Tables(map[a.op :=
              Lease(a.container, a.owner, slow.now, slow.now + a.ttl * SECOND)],
                                                map[a.op := Operation(a.container, Leased, "{}", "")]),
                                         map[slow.worker := Finished(slow.ok, slow.text)])
  {
    hide At, Takes, Begins, CanAcquire, Acquire;
    var a := plan(slow.worker);
    StartsEmpty(plan, steps);
    LookStep(plan, steps, 0, START);
    FreeAcquire(NO_ROWS, a, slow.now);
    var t := Tables(map[a.op := Lease(a.container, a.owner, slow.now, slow.now + a.ttl * SECOND)],
                    map[a.op := Operation(a.container, Leased, "{}", "")]);
    SoloTake(plan, steps, 1, slow, System(NO_ROWS, map[slow.worker := HasLooked]));
    SoloUpdate(plan, steps, 5, slow, System(t, map[slow.worker := HasLooked][slow.worker := Updating]));
  }

  lemma HeirUpdates(plan: Worker -> Job, steps: seq<Step>, slow: Step, heir: Step, third: Step)
    requires LateRelease(plan, slow, heir, third) && LateReleaseRun(steps, slow, heir, third)
    requires var a := plan(slow.worker);
             At(plan, steps, 7) == System(Tables(map[a.op :=
               Lease(a.container, a.owner, slow.now, slow.now + a.ttl * SECOND)],
                                                 map[a.op := Operation(a.container, Leased, "{}", "")]),
                                          map[slow.worker := Finished(slow.ok, slow.text)])
    ensures var b := plan(heir.worker);
            At(plan, steps, 12) == System(Tables(map[b.op :=
              Lease(b.container, b.owner, heir.now, heir.now + b.ttl * SECOND)],
                                                 map[b.op := Operation(b.container, Leased, "{}", "")]),
                                          map[slow.worker := Finished(slow.ok, slow.text), heir.worker := Updating])
    ensures Takes(plan, steps, 8, heir.worker)
  {
    hide At, Takes, Begins, CanAcquire, Acquire;
    var s := At(plan, steps, 7);
    LookStep(plan, steps, 7, s);
    var looked := s.(phases := s.phases[heir.worker := HasLooked]);
    FreeAcquire(s.tables, plan(heir.worker), heir.now);
    SoloTake(plan, steps, 8, heir, looked);
  }

  lemma SlowReleases(plan: Worker -> Job, steps: seq<Step>, slow: Step, heir: Step, third: Step)
    requires LateRelease(plan, slow, heir, third) && LateReleaseRun(steps, slow, heir, third)
    requires var b := plan(heir.worker);
             At(plan, steps, 12) == System(Tables(map[b.op :=
               Lease(b.container, b.owner, heir.now, heir.now + b.ttl * SECOND)],
                                                  map[b.op := Operation(b.container, Leased, "{}", "")]),
                                           map[slow.worker := Finished(slow.ok, slow.text), heir.worker := Updating])
    ensures At(plan, steps, 14).phases == map[slow.worker := Over, heir.worker := Updating]
    ensures At(plan, steps, 14).tables.leases == map[]
            && plan(third.worker).op !in At(plan, steps, 14).tables.operations
  {
    hide At, Record, Release;
    var s, a := At(plan, steps, 12), plan(slow.worker);
    SoloClose(plan, steps, 12, slow, s);
    ClosedTables(s.tables, a, if slow.ok then Succeeded else Failed, slow.text);
  }

  /** Two calls for one candidate: the first checks, loses its lease by time to the second, which checks
      as well; then both insert. */
  ghost predicate Race(plan: Worker -> Job, steps: seq<Step>, first: Step, second: Step) {
    var a, b := plan(first.worker), plan(second.worker);
    && first.worker != second.worker && ValidJob(a) && ValidJob(b)
    && a.candidate == b.candidate && a.container == b.container && first.now + a.ttl * SECOND <= second.now
    && |steps| == 8
    && SoloFrom(steps, 0, 3, first) && SoloFrom(steps, 3, 3, second) && steps[6] == first && steps[7] == second
  }

  /** Two more steps take a call from its lookup through its lease and its check. */
  lemma SoloCheck(plan: Worker -> Job, steps: seq<Step>, n: nat, e: Step, s: System)
    requires SoloFrom(steps, n, 2, e) && At(plan, steps, n) == s && PhaseOf(s, e.worker).HasLooked?
    requires var job := plan(e.worker);
             && CanAcquire(s.tables, job.op, job.container, job.owner, job.ttl, e.now)
             && forall u :: u in s.phases && InExecution(s.phases[u]) ==> plan(u).candidate != job.candidate
    ensures var job := plan(e.worker);
            && At(plan, steps, n + 2) == System(Acquire(s.tables, job.op, job.container, job.owner, job.ttl, e.now),
                                                s.phases[e.worker := HasChecked])
            && Checks(plan, steps, n + 1, e.worker)
  {
    hide CanAcquire, Acquire, Busy;
    var job := plan(e.worker);
    var t := Acquire(s.tables, job.op, job.container, job.owner, job.ttl, e.now);
    assert steps[n] == steps[n + 1] == e;
    assert At(plan, steps, n + 1) == System(t, s.phases[e.worker := HasLease]);
    NotBusy(plan, At(plan, steps, n + 1), job.candidate);
  }

  lemma InsertStep(plan: Worker -> Job, steps: seq<Step>, n: nat, s: System)
    requires n < |steps| && At(plan, steps, n) == s && PhaseOf(s, steps[n].worker).HasChecked?
    ensures At(plan, steps, n + 1) == s.(phases := s.phases[steps[n].worker := HasStarted])
  {
    hide CanAcquire, Busy;
  }

  /** In every such run two executions of one candidate run at the same time. */
  lemma RacingChecksStartTwice(plan: Worker -> Job, steps: seq<Step>, first: Step, second: Step)
    requires Race(plan, steps, first, second)
    ensures InExecution(PhaseAt(plan, steps, 8, first.worker)) && InExecution(PhaseAt(plan, steps, 8, second.worker))
    ensures plan(first.worker).candidate == plan(second.worker).candidate
    ensures Checks(plan, steps, 2, first.worker) && Checks(plan, steps, 5, second.worker)
  {
    hide At, CanAcquire, Acquire, Checks;
    var a, b := plan(first.worker), plan(second.worker);
    StartsEmpty(plan, steps);
    LookStep(plan, steps, 0, START);
    FreeAcquire(NO_ROWS, a, first.now);
    SoloCheck(plan, steps, 1, first, System(NO_ROWS, map[first.worker := HasLooked]));
    var s := At(plan, steps, 3);
    assert s.phases == map[first.worker := HasChecked];
    assert s.tables == Tables(map[a.op := Lease(a.container, a.owner, first.now, first.now + a.ttl * SECOND)],
                              map[a.op := Operation(a.container, Leased, "{}", "")]);
    LookStep(plan, steps, 3, s);
    FreeAcquire(s.tables, b, second.now);
    SoloCheck(plan, steps, 4, second, s.(phases := s.phases[second.worker := HasLooked]));
    var t := At(plan, steps, 6);
    assert t.phases == map[first.worker := HasChecked, second.worker := HasChecked];
    InsertStep(plan, steps, 6, t);
    InsertStep(plan, steps, 7, t.(phases := t.phases[first.worker := HasStarted]));
  }
}
