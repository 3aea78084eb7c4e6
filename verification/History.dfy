/** Whole histories of scans, decisions, admissions and mutations, interleaved statement by statement:
    what was approved is what is mutated (src/unraid_updater/service.py, src/unraid_updater/db.py).

    Every event is one database statement, or one look at the database; whatever lies between two
    statements of one call may be filled with the statements of others. */
module History {
  import opened Strings
  import VnextPolicy
  import opened Discovery
  import opened Candidates
  import opened Service

  /** One call of `execute`. */
  type Worker = nat

  datatype Event =
    // a scan: for each row an upsert and a supersede, and a resolve at the end
    | Upsert(raw: Raw, cx: Context)
    | Supersede(container: string, newest: Revision)
    | Resolve(seen: set<Revision>)
    // a decision: its checks, and its insertion
    | Review(actor: string, id: nat, revision: Revision, decision: Decision)
    | Insert(actor: string, now: int)
    // an execution: the candidate, the approval, the remaining checks, the update
    | Fetch(worker: Worker, q: Request)
    | Find(worker: Worker, now: int)
    | Check(worker: Worker, paused: bool)
    | Mutate(worker: Worker)

  /** A decision that has passed its checks. */
  datatype Choice = Choice(id: nat, revision: Revision, decision: Decision)

  /** What one execution has read and been granted so far. */
  datatype Progress =
    | HasRow(q: Request, row: Row)
    | HasApproval(q: Request, row: Row, approval: nat, found: Approval, at: int)
    | HasTicket(q: Request, row: Row, approval: nat, found: Approval, at: int, ticket: Ticket)

  datatype World = World(
    rows: seq<Row>, approvals: seq<Approval>, choices: map<string, Choice>, progress: map<Worker, Progress>)

  const START := World([], [], map[], map[])

  function Apply(w: World, e: Event): World {
    match e
    case Upsert(raw, cx) => w.(rows := Upserted(w.rows, Normalize(raw, cx)))
    case Supersede(container, newest) => w.(rows := SupersededRows(w.rows, container, newest))
    case Resolve(seen) => w.(rows := ResolvedRows(w.rows, seen))
    case Review(actor, id, revision, decision) =>
      if CanDecide(w.rows, id, revision, decision)
      then w.(choices := w.choices[actor := Choice(id, revision, decision)]) else w.(choices := w.choices - {actor})
    case Insert(actor, now) =>
      if actor !in w.choices then w
      else
        var c := w.choices[actor];
        w.(approvals := Decided(w.approvals, c.id, c.revision, c.decision, now), choices := w.choices - {actor})
    case Fetch(worker, q) =>
      var row := Fetched(w.rows, q);
      if row.Some? then w.(progress := w.progress[worker := HasRow(q, row.value)])
      else w.(progress := w.progress - {worker})
    case Find(worker, now) =>
      if worker !in w.progress || !w.progress[worker].HasRow? then w
      else
        var p := w.progress[worker];
        var found := ActiveApproval(w.approvals, p.q.candidate, p.q.revision, now);
        if found.None? then w.(progress := w.progress - {worker})
        else w.(progress := w.progress[worker := HasApproval(p.q, p.row, found.value, w.approvals[found.value], now)])
    case Check(worker, paused) =>
      if worker !in w.progress || !w.progress[worker].HasApproval? then w
      else
        var p := w.progress[worker];
        var ticket := Granted(p.q, p.row, p.approval, p.found.revision, paused);
        if ticket.None? then w.(progress := w.progress - {worker})
        else w.(progress := w.progress[worker := HasTicket(p.q, p.row, p.approval, p.found, p.at, ticket.value)])
    case Mutate(worker) => w.(progress := w.progress - {worker})
  }

  function After(events: seq<Event>, n: nat): World
    requires n <= |events|
  {
    if n == 0 then START else Apply(After(events, n - 1), events[n - 1])
  }

  // ---------------------------------------------------------------- a scan without interruptions

  function Run(w: World, events: seq<Event>): World {
    if events == [] then w else Apply(Run(w, events[..|events| - 1]), events[|events| - 1])
  }

  lemma {:induction false} RunJoins(w: World, a: seq<Event>, b: seq<Event>)
    ensures Run(w, a + b) == Run(Run(w, a), b)
    decreases |b|
  {
    hide Apply;
    if b == [] {
      assert a + b == a;
    } else {
      assert (a + b)[..|a + b| - 1] == a + b[..|b| - 1];
      RunJoins(w, a, b[..|b| - 1]);
    }
  }

  /** The statements of one reconciling scan, before its resolve. */
  function ScanStatements(snapshot: seq<Raw>, cx: Context): seq<Event> {
    if snapshot == [] then []
    else
      var last := snapshot[|snapshot| - 1];
      ScanStatements(snapshot[..|snapshot| - 1], cx)
      + if last.available then [Upsert(last, cx), Supersede(last.name, RevisionOf(Normalize(last, cx)))] else []
  }

  lemma {:induction false} ScanImports(w: World, snapshot: seq<Raw>, cx: Context)
    ensures Run(w, ScanStatements(snapshot, cx)) == w.(rows := Imported(w.rows, Items(snapshot, cx)))
  {
    hide Normalize, Upserted, SupersededRows, RevisionOf;
    if snapshot != [] {
      var rest, last := snapshot[..|snapshot| - 1], snapshot[|snapshot| - 1];
      ScanImports(w, rest, cx);
      var front := ScanStatements(rest, cx);
      if last.available {
        var item := Normalize(last, cx);
        var pair := [Upsert(last, cx), Supersede(last.name, RevisionOf(item))];
        RunJoins(w, front, pair);
        var mid := Run(w, front);
        assert pair[..1] == [pair[0]] && [pair[0]][..0] == [];
        assert Run(mid, [pair[0]]) == Apply(Run(mid, [pair[0]][..0]), pair[0]);
        assert Run(mid, pair) == Apply(Apply(mid, pair[0]), pair[1]);
        NameIsKept(last, cx);
        var items := Items(rest, cx) + [item];
        assert items[..|items| - 1] == Items(rest, cx);
      } else {
        assert ScanStatements(snapshot, cx) == front;
        assert Items(snapshot, cx) == Items(rest, cx);
      }
    }
  }

  lemma NameIsKept(raw: Raw, cx: Context)
    ensures Normalize(raw, cx).name == raw.name
  {
    hide VnextPolicy.FromLabels, TargetImage, EffectiveGate, VnextPolicy.ChangeClass, EffectiveLabels, LabelOr, StateOf,
         ContainerName;
  }

  /** The events of a scan that nothing interrupts are the reconciliation. */
  lemma ScanIsReconciliation(w: World, snapshot: seq<Raw>, cx: Context)
    ensures Run(w, ScanStatements(snapshot, cx) + [Resolve(Revisions(Items(snapshot, cx)))])
            == w.(rows := Reconciled(w.rows, Items(snapshot, cx)))
  {
    hide ScanStatements, Items, Imported, Revisions;
    var front, last := ScanStatements(snapshot, cx), Resolve(Revisions(Items(snapshot, cx)));
    ScanImports(w, snapshot, cx);
    assert (front + [last])[..|front + [last]| - 1] == front;
  }

  // ---------------------------------------------------------------- what the tables keep

  /** Ready revisions carry low risk. */
  ghost predicate LowRiskWhenReady(rows: seq<Row>) {
    forall i :: 0 <= i < |rows| && rows[i].revision.ready ==> rows[i].revision.risk == "low"
  }

  lemma UpsertKeepsLowRisk(rows: seq<Row>, item: Item)
    requires LowRiskWhenReady(rows) && (item.ready ==> item.risk == "low")
    ensures LowRiskWhenReady(Upserted(rows, item))
  {
  }

  lemma SupersedeKeepsLowRisk(rows: seq<Row>, container: string, newest: Revision)
    requires LowRiskWhenReady(rows)
    ensures LowRiskWhenReady(SupersededRows(rows, container, newest))
  {
  }

  lemma ResolveKeepsLowRisk(rows: seq<Row>, seen: set<Revision>)
    requires LowRiskWhenReady(rows)
    ensures LowRiskWhenReady(ResolvedRows(rows, seen))
  {
  }

  /** One statement keeps the table well kept, keeps every row's id and revision, and makes a revision
      ready only at low risk. */
  lemma StatementKeeps(w: World, e: Event)
    requires WellKept(w.rows) && LowRiskWhenReady(w.rows)
    ensures var later := Apply(w, e).rows;
            WellKept(later) && LowRiskWhenReady(later) && Extends(w.rows, later)
  {
    hide WellKept, LowRiskWhenReady, Upserted, SupersededRows, ResolvedRows, Normalize, CanDecide, Decided, Fetched,
         Granted;
    match e {
      case Upsert(raw, cx) =>
        var item := Normalize(raw, cx);
        if item.ready {
          ReadyIsConservative(raw, cx);
        }
        UpsertKeeps(w.rows, item);
        UpsertKeepsLowRisk(w.rows, item);
      case Supersede(container, newest) =>
        SupersedeKeeps(w.rows, container, newest);
        SupersedeKeepsLowRisk(w.rows, container, newest);
      case Resolve(seen) =>
        ResolveKeeps(w.rows, seen);
        ResolveKeepsLowRisk(w.rows, seen);
      case _ =>
    }
  }

  lemma {:induction false} TablesStayGood(events: seq<Event>, n: nat)
    requires n <= |events|
    ensures WellKept(After(events, n).rows) && LowRiskWhenReady(After(events, n).rows)
  {
    hide WellKept, LowRiskWhenReady, Apply;
    if n == 0 {
      EmptyIsGood();
    } else {
      TablesStayGood(events, n - 1);
      StatementKeeps(After(events, n - 1), events[n - 1]);
    }
  }

  lemma EmptyIsGood()
    ensures WellKept([]) && LowRiskWhenReady([])
  {
  }

  /** Rows keep their id and revision for ever. */
  lemma {:induction false} RowsStay(events: seq<Event>, m: nat, n: nat)
    requires m <= n <= |events|
    ensures Extends(After(events, m).rows, After(events, n).rows)
    decreases n
  {
    hide WellKept, LowRiskWhenReady, Apply;
    if m < n {
      RowsStay(events, m, n - 1);
      TablesStayGood(events, n - 1);
      StatementKeeps(After(events, n - 1), events[n - 1]);
    }
  }

  // ---------------------------------------------------------------- where approvals and tickets come from

  /** Step `h` checked an approval of this revision, against a candidate that was ready. */
  ghost predicate ReviewedAt(events: seq<Event>, h: nat, actor: string, c: Choice) {
    && h < |events| && events[h] == Review(actor, c.id, c.revision, c.decision)
    && c.id < |After(events, h).rows| && After(events, h).rows[c.id].revision == c.revision
    && (c.decision == Approved ==> After(events, h).rows[c.id].status == ApprovalReady)
  }

  /** Step `i` stored this approval, after the same actor's checks at step `h`. */
  ghost predicate ApprovedAt(events: seq<Event>, h: nat, i: nat, id: nat, revision: Revision, expires: int) {
    && h < i < |events| && events[i].Insert? && events[i].now + VnextPolicy.DAY == expires
    && ReviewedAt(events, h, events[i].actor, Choice(id, revision, Approved))
  }

  lemma {:induction false} ChoicesWereReviewed(events: seq<Event>, n: nat, actor: string) returns (h: nat)
    requires n <= |events| && actor in After(events, n).choices
    ensures h < n && ReviewedAt(events, h, actor, After(events, n).choices[actor])
  {
    hide Upserted, SupersededRows, ResolvedRows, Normalize, Decided, Fetched, Granted;
    var e := events[n - 1];
    if e.Review? && e.actor == actor {
      h := n - 1;
    } else {
      h := ChoicesWereReviewed(events, n - 1, actor);
    }
  }

  /** Every stored approval was checked against a ready candidate and then inserted. */
  lemma {:induction false} ApprovalsWereRecorded(events: seq<Event>, n: nat, a: nat) returns (h: nat, i: nat)
    requires n <= |events| && a < |After(events, n).approvals| && After(events, n).approvals[a].decision.Approved?
    ensures var x := After(events, n).approvals[a];
            i < n && ApprovedAt(events, h, i, x.candidate, x.revision, x.expires)
  {
    hide Upserted, SupersededRows, ResolvedRows, Normalize, CanDecide, Fetched, Granted;
    var e, w := events[n - 1], After(events, n - 1);
    if a < |w.approvals| {
      h, i := ApprovalsWereRecorded(events, n - 1, a);
    } else {
      h := ChoicesWereReviewed(events, n - 1, e.actor);
      i := n - 1;
    }
  }

  /** Step `f` read the candidate's row. */
  ghost predicate FetchedAt(events: seq<Event>, f: nat, q: Request, row: Row) {
    f < |events| && Fetched(After(events, f).rows, q) == Some(row)
  }

  /** Step `k` found this approval in force. */
  ghost predicate FoundAt(events: seq<Event>, k: nat, worker: Worker, q: Request, approval: nat, found: Approval,
                          at: int) {
    && k < |events| && events[k] == Find(worker, at)
    && approval < |After(events, k).approvals| && After(events, k).approvals[approval] == found
    && IsCurrent(found, q.candidate, q.revision, at)
  }

  /** The candidate an execution goes by was read at some step, and its approval found at a later one. */
  lemma {:induction false} ProgressWasMade(events: seq<Event>, n: nat, worker: Worker) returns (f: nat, k: nat)
    requires n <= |events| && worker in After(events, n).progress
    ensures var p := After(events, n).progress[worker];
            && f < n && FetchedAt(events, f, p.q, p.row)
            && (!p.HasRow? ==> f < k < n && FoundAt(events, k, worker, p.q, p.approval, p.found, p.at))
  {
    hide Upserted, SupersededRows, ResolvedRows, Normalize, CanDecide, Decided, Fetched, Granted, IsCurrent;
    var e, w := events[n - 1], After(events, n - 1);
    if e.Fetch? && e.worker == worker {
      f := n - 1;
      k := 0;
    } else {
      f, k := ProgressWasMade(events, n - 1, worker);
      if e.Find? && e.worker == worker && w.progress[worker].HasRow? {
        k := n - 1;
      }
    }
  }

  lemma {:induction false} TicketsWereGranted(events: seq<Event>, n: nat, worker: Worker)
    requires n <= |events| && worker in After(events, n).progress && After(events, n).progress[worker].HasTicket?
    ensures var p := After(events, n).progress[worker];
            exists paused :: Granted(p.q, p.row, p.approval, p.found.revision, paused) == Some(p.ticket)
  {
    hide Upserted, SupersededRows, ResolvedRows, Normalize, CanDecide, Decided, Fetched, Granted;
    var e, w := events[n - 1], After(events, n - 1);
    if !(e.Check? && e.worker == worker && w.progress[worker].HasApproval?) {
      TicketsWereGranted(events, n - 1, worker);
    }
  }

  lemma GrantFacts(q: Request, row: Row, approval: nat, approved: Revision, paused: bool, t: Ticket)
    requires Granted(q, row, approval, approved, paused) == Some(t)
    ensures row.status.ApprovalReady? && row.state == "running" && !paused && row.container != q.selfName
    ensures t == Ticket(q.candidate, q.revision, row.container, row.target, approval) && row.target != ""
  {
    hide RawReasons;
    GateOpensExactlyWhen(GateRequest(Some(approval), Some(approved), Some(q.revision), q.live, row.target,
                                     row.state == "running", false, paused, row.container == q.selfName));
  }

  predicate SameColumns(a: Row, b: Row) {
    && a.container == b.container && a.image == b.image && a.target == b.target
    && a.policy == b.policy && a.risk == b.risk && a.revision == b.revision
  }

  /** The mutation at step `n` goes by a row read at step `f` and an approval found at step `k`, before
      it expired; that approval was inserted at step `i` after checks at step `h`; and the row mutated
      agrees with the row that was approved. */
  ghost predicate Justified(events: seq<Event>, n: nat, h: nat, i: nat, f: nat, k: nat)
    requires n < |events| && events[n].Mutate? && events[n].worker in After(events, n).progress
    requires After(events, n).progress[events[n].worker].HasTicket?
  {
    var p := After(events, n).progress[events[n].worker];
    var t := p.ticket;
    && h < i < k < n && f < k
    && ApprovedAt(events, h, i, t.candidate, t.revision, p.found.expires)
    && FetchedAt(events, f, p.q, p.row) && p.q.candidate == t.candidate && p.q.revision == t.revision
    && FoundAt(events, k, events[n].worker, p.q, p.approval, p.found, p.at) && p.at < p.found.expires
    && t.candidate < |After(events, h).rows| && t.candidate < |After(events, n).rows|
    && var approved, mutated := After(events, h).rows[t.candidate], After(events, n).rows[t.candidate];
       && SameColumns(approved, mutated)
       && mutated.container == t.container && mutated.target == t.target && mutated.risk == "low"
  }

  /** A ticket is for the container of its candidate's row. */
  lemma TicketMatchesRow(events: seq<Event>, n: nat, worker: Worker)
    requires n <= |events| && worker in After(events, n).progress && After(events, n).progress[worker].HasTicket?
    ensures var t, rows := After(events, n).progress[worker].ticket, After(events, n).rows;
            t.candidate < |rows| && t.container == rows[t.candidate].container
  {
    hide After, Granted, WellKept, LowRiskWhenReady, Pinned;
    var p := After(events, n).progress[worker];
    var f, k := ProgressWasMade(events, n, worker);
    TicketsWereGranted(events, n, worker);
    var paused :| Granted(p.q, p.row, p.approval, p.found.revision, paused) == Some(p.ticket);
    GrantFacts(p.q, p.row, p.approval, p.found.revision, paused, p.ticket);
    RowsStay(events, f, n);
    TablesStayGood(events, f);
    TablesStayGood(events, n);
    RowFacts(After(events, f).rows, p.q.candidate);
    RowFacts(After(events, n).rows, p.q.candidate);
    SameRevisionSameColumns(p.row, After(events, n).rows[p.q.candidate]);
  }

  /** Everything a mutation does was approved: in any interleaving of the statements of scans (with any
      gate settings), decisions and executions, whoever mutates goes by an approval of exactly that
      candidate and revision that had not expired when it was found; container, target, image, policy
      and risk are the same when approved and when mutated; the risk is low. */
  lemma MutationsWereApproved(events: seq<Event>, n: nat)
    requires n < |events| && events[n].Mutate? && events[n].worker in After(events, n).progress
    requires After(events, n).progress[events[n].worker].HasTicket?
    ensures exists h: nat, i: nat, f: nat, k: nat :: Justified(events, n, h, i, f, k)
  {
    hide After, Fetched, Granted, CanDecide, IsCurrent, Justified;
    var worker := events[n].worker;
    var p := After(events, n).progress[worker];
    var f, k := ProgressWasMade(events, n, worker);
    TicketsWereGranted(events, n, worker);
    var paused :| Granted(p.q, p.row, p.approval, p.found.revision, paused) == Some(p.ticket);
    GrantFacts(p.q, p.row, p.approval, p.found.revision, paused, p.ticket);
    CurrentFacts(p.found, p.q.candidate, p.q.revision, p.at);
    var h, i := ApprovalsWereRecorded(events, k, p.approval);
    Justify(events, n, h, i, f, k);
  }

  lemma CurrentFacts(a: Approval, id: nat, revision: Revision, now: int)
    requires IsCurrent(a, id, revision, now)
    ensures a.candidate == id && a.revision == revision && a.decision.Approved? && now < a.expires
  {
  }

  lemma Justify(events: seq<Event>, n: nat, h: nat, i: nat, f: nat, k: nat)
    requires n < |events| && events[n].Mutate? && events[n].worker in After(events, n).progress
    requires After(events, n).progress[events[n].worker].HasTicket?
    requires var p := After(events, n).progress[events[n].worker];
             && h < i < k < n && f < k
             && ApprovedAt(events, h, i, p.q.candidate, p.q.revision, p.found.expires)
             && FetchedAt(events, f, p.q, p.row) && FoundAt(events, k, events[n].worker, p.q, p.approval, p.found, p.at)
             && p.at < p.found.expires && p.row.status.ApprovalReady?
             && p.ticket == Ticket(p.q.candidate, p.q.revision, p.row.container, p.row.target, p.approval)
    ensures Justified(events, n, h, i, f, k)
  {
    hide After, ApprovedAt, FoundAt, WellKept, LowRiskWhenReady, StatusOf, IsCurrent, Pinned;
    var p := After(events, n).progress[events[n].worker];
    ApprovedFacts(events, h, i, p.q.candidate, p.q.revision, p.found.expires);
    RowsStay(events, h, n);
    RowsStay(events, f, n);
    TablesStayGood(events, h);
    TablesStayGood(events, f);
    TablesStayGood(events, n);
    RowFacts(After(events, h).rows, p.q.candidate);
    RowFacts(After(events, f).rows, p.q.candidate);
    RowFacts(After(events, n).rows, p.q.candidate);
    SameRevisionSameColumns(After(events, h).rows[p.q.candidate], After(events, n).rows[p.q.candidate]);
    SameRevisionSameColumns(p.row, After(events, n).rows[p.q.candidate]);
  }

  lemma SameRevisionSameColumns(a: Row, b: Row)
    requires Pinned(a) && Pinned(b) && a.revision == b.revision
    ensures SameColumns(a, b)
  {
  }

  lemma ApprovedFacts(events: seq<Event>, h: nat, i: nat, id: nat, revision: Revision, expires: int)
    requires ApprovedAt(events, h, i, id, revision, expires)
    ensures id < |After(events, h).rows| && After(events, h).rows[id].revision == revision
  {
    hide After;
  }

  lemma RowFacts(rows: seq<Row>, i: nat)
    requires WellKept(rows) && LowRiskWhenReady(rows) && i < |rows|
    ensures Pinned(rows[i])
    ensures rows[i].status.ApprovalReady? ==> rows[i].revision.ready
    ensures rows[i].revision.ready ==> rows[i].risk == "low"
  {
  }
}
