/** Admission and leases together: what the runtime is called with, by any of several interleaved
    workers, is what was approved (src/unraid_updater/service.py). */
module Executions {
  import opened Strings
  import Candidates
  import Service
  import History
  import Workers

  type Plan = Workers.Worker -> Workers.Job

  /** One step of the system: a database statement around an execution, or a step of an execution after
      its checks. */
  datatype Event = Statement(e: History.Event) | Work(s: Workers.Step)

  function Statements(run: seq<Event>): seq<History.Event> {
    if run == [] then []
    else Statements(run[..|run| - 1]) + if run[|run| - 1].Statement? then [run[|run| - 1].e] else []
  }

  function Steps(run: seq<Event>): seq<Workers.Step> {
    if run == [] then []
    else Steps(run[..|run| - 1]) + if run[|run| - 1].Work? then [run[|run| - 1].s] else []
  }

  /** What the tables hold, and how far every call has come, after a run. */
  function Tables(run: seq<Event>): History.World {
    History.After(Statements(run), |Statements(run)|)
  }

  function PhaseIn(plan: Plan, run: seq<Event>, v: Workers.Worker): Workers.Phase {
    Workers.PhaseAt(plan, Steps(run), |Steps(run)|, v)
  }

  /** The call `v` has been admitted, and works on what it was admitted to. */
  predicate Admitted(plan: Plan, w: History.World, v: Workers.Worker) {
    && v in w.progress && w.progress[v].HasTicket?
    && var t := w.progress[v].ticket;
       plan(v).container == t.container && plan(v).candidate == t.candidate
  }

  /** The worker a statement belongs to, when it is one of an execution. */
  function ByWorker(e: History.Event): Option<Workers.Worker> {
    match e
    case Fetch(v, _) => Some(v)
    case Find(v, _) => Some(v)
    case Check(v, _) => Some(v)
    case Mutate(v) => Some(v)
    case _ => None
  }

  /** Each worker does first its checks and then its work; the runtime update is part of its work. */
  ghost predicate InOrder(plan: Plan, run: seq<Event>) {
    run == [] ||
    (var front, last := run[..|run| - 1], run[|run| - 1];
     && InOrder(plan, front)
     && match last
        case Statement(e) =>
          !e.Mutate? && (ByWorker(e).Some? ==> PhaseIn(plan, front, ByWorker(e).value).Ready?)
        case Work(s) => PhaseIn(plan, front, s.worker).Ready? ==> Admitted(plan, Tables(front), s.worker))
  }

  lemma OthersProgress(w: History.World, e: History.Event, v: Workers.Worker)
    requires ByWorker(e) != Some(v) && v in w.progress
    ensures v in History.Apply(w, e).progress && History.Apply(w, e).progress[v] == w.progress[v]
  {
    hide Candidates.Upserted, Candidates.SupersededRows, Candidates.ResolvedRows, Service.CanDecide, Service.Decided,
         Service.Fetched, Service.Granted;
  }

  lemma StatementStep(run: seq<Event>)
    requires run != [] && run[|run| - 1].Statement?
    ensures Tables(run) == History.Apply(Tables(run[..|run| - 1]), run[|run| - 1].e)
    ensures Steps(run) == Steps(run[..|run| - 1])
  {
    hide History.Apply;
    var front := run[..|run| - 1];
    PrefixAfter(Statements(front), Statements(run), |Statements(front)|);
  }

  lemma WorkStep(run: seq<Event>)
    requires run != [] && run[|run| - 1].Work?
    ensures Tables(run) == Tables(run[..|run| - 1])
    ensures Steps(run) == Steps(run[..|run| - 1]) + [run[|run| - 1].s]
  {
    hide History.Apply, History.After;
    assert Statements(run) == Statements(run[..|run| - 1]);
  }

  lemma {:induction false} PrefixAfter(a: seq<History.Event>, b: seq<History.Event>, n: nat)
    requires n <= |a| <= |b| && a == b[..|a|]
    ensures History.After(a, n) == History.After(b, n)
  {
    hide History.Apply;
    if n > 0 {
      PrefixAfter(a, b, n - 1);
    }
  }

  lemma {:induction false} PrefixPhases(plan: Plan, a: seq<Workers.Step>, b: seq<Workers.Step>, n: nat)
    requires n <= |a| <= |b| && a == b[..|a|]
    ensures Workers.At(plan, a, n) == Workers.At(plan, b, n)
  {
    hide Workers.Next;
    if n > 0 {
      PrefixPhases(plan, a, b, n - 1);
    }
  }

  lemma PhaseAfterWork(plan: Plan, run: seq<Event>, v: Workers.Worker)
    requires run != [] && run[|run| - 1].Work? && run[|run| - 1].s.worker != v
    ensures PhaseIn(plan, run, v) == PhaseIn(plan, run[..|run| - 1], v)
  {
    WorkStep(run);
    var a, b := Steps(run[..|run| - 1]), Steps(run);
    PrefixPhases(plan, a, b, |a|);
    Workers.PhaseStep(plan, b, |a|, v);
    hide Workers.At;
  }

  /** Whoever works has been admitted, and its ticket is still there. */
  lemma {:induction false} WorkersAreAdmitted(plan: Plan, run: seq<Event>, v: Workers.Worker)
    requires InOrder(plan, run) && !PhaseIn(plan, run, v).Ready?
    ensures Admitted(plan, Tables(run), v)
  {
    hide PhaseIn, Tables, History.Apply;
    if run == [] {
      NobodyWorks(plan, v);
    } else {
      var front, last := run[..|run| - 1], run[|run| - 1];
      if last.Statement? {
        StatementStep(run);
        SamePhase(plan, front, run, v);
        WorkersAreAdmitted(plan, front, v);
        OthersProgress(Tables(front), last.e, v);
      } else {
        WorkStep(run);
        if last.s.worker != v {
          PhaseAfterWork(plan, run, v);
        }
        if !PhaseIn(plan, front, v).Ready? {
          WorkersAreAdmitted(plan, front, v);
        }
      }
    }
  }

  lemma NobodyWorks(plan: Plan, v: Workers.Worker)
    ensures PhaseIn(plan, [], v).Ready?
  {
  }

  lemma SamePhase(plan: Plan, a: seq<Event>, b: seq<Event>, v: Workers.Worker)
    requires Steps(a) == Steps(b)
    ensures PhaseIn(plan, a, v) == PhaseIn(plan, b, v)
  {
  }

  /** Calls admitted for one candidate work on one container. */
  lemma OneCandidateOneContainer(plan: Plan, run: seq<Event>, v: Workers.Worker, w: Workers.Worker)
    requires InOrder(plan, run) && !PhaseIn(plan, run, v).Ready? && !PhaseIn(plan, run, w).Ready?
    ensures plan(v).candidate == plan(w).candidate ==> plan(v).container == plan(w).container
  {
    hide PhaseIn, History.Apply, History.After;
    WorkersAreAdmitted(plan, run, v);
    WorkersAreAdmitted(plan, run, w);
    History.TicketMatchesRow(Statements(run), |Statements(run)|, v);
    History.TicketMatchesRow(Statements(run), |Statements(run)|, w);
  }

  /** If leases are given back in time, no candidate ever has two running executions, although the check
      for one and its insertion are apart. */
  lemma TimelyRunsCandidatesOnce(plan: Plan, run: seq<Event>, v: Workers.Worker, w: Workers.Worker)
    requires InOrder(plan, run) && Workers.Timely(plan, Steps(run)) && v != w
    requires Workers.InExecution(PhaseIn(plan, run, v)) && Workers.InExecution(PhaseIn(plan, run, w))
    ensures plan(v).candidate != plan(w).candidate
  {
    hide Workers.Timely, Workers.At;
    OneCandidateOneContainer(plan, run, v, w);
    Workers.TimelyCandidatesDiffer(plan, Steps(run), |Steps(run)|, v, w);
  }

  /** The statements of a run, and the runtime update of `v` as their last one. */
  function WithMutation(run: seq<Event>, v: Workers.Worker): seq<History.Event> {
    Statements(run) + [History.Mutate(v)]
  }

  /** What the runtime is called with: over any interleaving of scans, decisions, checks and leases,
      a worker that reaches the runtime update holds a ticket for the container and candidate it works
      on, the update it then makes is justified by an approval of exactly that candidate and revision,
      and it took its lease before; if leases are given back in time, no other worker holds one for
      that container. */
  lemma RuntimeGetsWhatWasApproved(plan: Plan, run: seq<Event>, v: Workers.Worker)
    requires InOrder(plan, run) && PhaseIn(plan, run, v).HasStarted?
    ensures Admitted(plan, Tables(run), v)
    ensures var events, n := WithMutation(run, v), |Statements(run)|;
            && v in History.After(events, n).progress && History.After(events, n).progress[v].HasTicket?
            && History.After(events, n).progress[v] == Tables(run).progress[v]
            && exists h: nat, i: nat, f: nat, k: nat :: History.Justified(events, n, h, i, f, k)
    ensures exists a: nat :: a < |Steps(run)| && Workers.Takes(plan, Steps(run), a, v)
    ensures Workers.Timely(plan, Steps(run)) ==>
              forall w :: w != v && Workers.Holding(PhaseIn(plan, run, w)) ==> plan(w).container != plan(v).container
  {
    hide History.Apply, History.Justified, Workers.Timely, Workers.Takes, Workers.At;
    WorkersAreAdmitted(plan, run, v);
    var events, n := WithMutation(run, v), |Statements(run)|;
    PrefixAfter(Statements(run), events, n);
    History.MutationsWereApproved(events, n);
    var a := Workers.TakeOf(plan, Steps(run), |Steps(run)|, v);
    if Workers.Timely(plan, Steps(run)) {
      Workers.TimelyWorkersExclude(plan, Steps(run), |Steps(run)|);
    }
  }
}
