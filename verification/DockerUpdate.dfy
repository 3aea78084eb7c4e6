/** The guarded update transaction `execute_update` and its rollback
    (src/unraid_updater/docker_runtime.py). */
module DockerUpdate {
  import opened Strings
  import opened VnextPolicy
  import opened DockerWorld

  // ---------------------------------------------------------------- specification

  /** The checks before any mutation: the container to update, or `None` when execution is blocked. */
  ghost function Preflight(w: World, q: Request, o: Oracle): Option<Id> {
    if !ValidName(q.name) || !ValidName(q.selfName) || q.name == q.selfName then None
    else if q.target == "" || exists c :: c in q.target && c in "\r\n<>" then None
    else if {Inspect, GetOriginal, Backup} !! o.faults && o.templateFound && w.Find(q.name).Some? then
      var id := w.Find(q.name).value;
      var c := w.containers[id];
      if && RepositoryOf(w.template) == Some(c.image)
         && c.status.Running?
         && Revision(c, w.template, o.hash) == q.expectedRevision
         && q.target != c.image
         && {LABEL_VERSION, LABEL_POLICY, LABEL_RESEARCH} <= w.template.labels.Keys
         && LabelsMatch(w.template.labels, c.labels)
      then Some(id) else None
    else None
  }

  /** Pull the target, stop the original and move it aside, point the template at the target. */
  ghost function MoveAside(r: Run, q: Request, o: Oracle, orig: Id): Step {
    var pulled :- Ask(r, o, Pull);
    var found :- Ask(pulled, o, GetImage);
    var newer :- Guard(orig in found.world.containers
      && o.targetId != found.world.containers[orig].imageId, found, SameImage);
    var stopped :- Alter(newer, o, StopOriginal, orig, Stopped);
    var renamed :- Rename(stopped, o, RenameAway, orig, q.RollbackName());
    Rewrite(renamed, o, q.target)
  }

  /** Create the replacement `id`, check its labels, start it and wait until it is healthy. */
  ghost function Replace(r: Run, q: Request, o: Oracle, id: Id, desired: Labels): Step {
    var made :- CreateContainer(r, o, q.name, q.target);
    var bound :- Bind(made, o, id);
    var loaded :- Ask(bound, o, ReloadCreated);
    var matched :- Guard(id in loaded.world.containers && LabelsMatch(desired, loaded.world.containers[id].labels),
                         loaded, LabelsDiffer);
    var started :- Alter(matched, o, StartCreated, id, Started);
    var healthy :- PollHealth(started, o, id, 0);
    Guard(id in healthy.world.containers && healthy.world.containers[id].imageId == o.targetId, healthy, WrongImage)
  }

  /** The body of the `try` statement. */
  ghost function TryBlock(w: World, q: Request, o: Oracle, orig: Id): Step {
    var aside :- MoveAside(Run(w, None, [w]), q, o, orig);
    var replaced :- Replace(aside, q, o, w.nextId, w.template.labels);
    Remove(replaced, o, RemoveOriginal, orig)
  }

  /** Start the original and insist on finding it healthy. */
  function Restart(r: Run, o: Oracle, orig: Id): Step {
    var started :- Alter(r, o, StartOriginal, orig, Started);
    var seen :- Alter(started, o, ReloadStarted, orig, (c: Container) => c.Observed(o.original));
    Guard(orig in seen.world.containers && seen.world.containers[orig].Healthy(), seen, OriginalUnhealthy)
  }

  /** The first step of the exception path: a bound replacement is removed, an unbound one stays. */
  function Cleared(r: Run, o: Oracle): Step {
    if r.created.Some? then Remove(r, o, RemoveCreated, r.created.value) else Done(r)
  }

  /** The exception path. */
  ghost function Rollback(r: Run, q: Request, o: Oracle, orig: Id, backup: Template): Step {
    var cleared :- Cleared(r, o);
    var restored :- Restore(cleared, o, backup);
    var loaded :- Ask(restored, o, ReloadOriginal);
    var renamed :- Rename(loaded, o, RenameBack, orig, q.name);
    Restart(renamed, o, orig)
  }

  /** How the transaction ends: a refusal, a normal return, or an exception after an exception path
      that ran to its end or raised as well. */
  datatype Outcome =
    | Blocked | Returned(run: Run) | RolledBack(run: Run) | RollbackFailed(run: Run, error: Error)
  {
    /** Whether the caller's exception ends in "rollback=succeeded": the source decides by the text of
        the exception path's own exception, and takes an empty text for success. */
    predicate ReportsRollback() {
      RolledBack? || (RollbackFailed? && error.Text() == "")
    }
  }

  ghost function ExecuteUpdate(w: World, q: Request, o: Oracle): Outcome {
    match Preflight(w, q, o)
    case None => Blocked
    case Some(orig) =>
      match TryBlock(w, q, o, orig)
      case Done(r) => Returned(r)
      case Raised(r, _) =>
        match Rollback(r, q, o, orig, w.template)
        case Done(back) => RolledBack(back)
        case Raised(back, error) => RollbackFailed(back, error)
  }

  // ---------------------------------------------------------------- what every instant keeps

  /** The replacement as it must be before the original may be removed. */
  predicate Verified(c: Container, q: Request, o: Oracle, desired: Labels) {
    && c.name == q.name && c.image == q.target && c.imageId == o.targetId
    && LabelsMatch(desired, c.labels) && c.Fit()
  }

  /** The containers no update of `orig` has any business with are as they were. */
  ghost predicate OthersUntouched(w0: World, orig: Id, w: World) {
    && w.containers.Keys <= w0.containers.Keys + {w0.nextId}
    && forall id :: id in w0.containers && id != orig ==> id in w.containers && w.containers[id] == w0.containers[id]
  }

  predicate SameApartFromState(c0: Container, c: Container) {
    c == c0.(name := c.name, status := c.status, health := c.health)
  }

  /** Safety of one instant of the update of `orig`, started in `w0`. */
  ghost predicate Safe(w0: World, q: Request, o: Oracle, orig: Id, w: World) {
    var repl := w0.nextId;
    && w.UniqueNames()
    && OthersUntouched(w0, orig, w)
    && !(orig in w.containers && w.containers[orig].Working() && repl in w.containers && w.containers[repl].Working())
    && orig in w0.containers
    && (orig in w.containers ==>
          && SameApartFromState(w0.containers[orig], w.containers[orig])
          && w.containers[orig].name in {q.name, q.RollbackName()})
    && (orig !in w.containers ==>
          && repl in w.containers && Verified(w.containers[repl], q, o, w0.template.labels)
          && w.template.repositories == [q.target])
    && (w.template == w0.template || (w.template.repositories == [q.target] && w.template.labels == w0.template.labels))
  }

  /** Every host state of a run is safe, and the last of them is the current one. */
  ghost predicate AllSafe(w0: World, q: Request, o: Oracle, orig: Id, r: Run) {
    && r.trace != [] && r.trace[|r.trace| - 1] == r.world
    && forall i :: 0 <= i < |r.trace| ==> Safe(w0, q, o, orig, r.trace[i])
  }

  /** The host before the replacement exists: only the original may have changed. */
  ghost predicate BeforeCreate(w0: World, q: Request, orig: Id, w: World) {
    && orig in w0.containers && orig in w.containers && w.nextId == w0.nextId
    && w.containers == w0.containers[orig := w.containers[orig]] && w.UniqueNames()
    && SameApartFromState(w0.containers[orig], w.containers[orig])
    && w.containers[orig].name in {q.name, q.RollbackName()}
    && (w.template == w0.template || (w.template.repositories == [q.target] && w.template.labels == w0.template.labels))
  }

  /** The original stopped under its rollback name, with the template rewritten. */
  ghost predicate MovedAside(w0: World, q: Request, orig: Id, w: World) {
    && BeforeCreate(w0, q, orig, w)
    && w.containers[orig] == w0.containers[orig].(status := Exited, name := w.containers[orig].name)
    && (w.containers[orig].name == q.RollbackName())
    && w.template.repositories == [q.target] && w.template.labels == w0.template.labels
  }

  /** What the exception path relies on: the original is there, a bound replacement is the new
      container, and an unbound one was never started. */
  ghost predicate Recoverable(w0: World, orig: Id, r: Run) {
    var repl := w0.nextId;
    && orig in r.world.containers
    && (r.created.Some? ==> r.created == Some(repl) && repl in r.world.containers)
    && (r.created.None? && repl in r.world.containers ==> !r.world.containers[repl].Live())
  }

  ghost predicate Starts(w0: World, q: Request, orig: Id) {
    w0.Valid() && orig in w0.containers && w0.containers[orig].name == q.name
  }

  lemma CommitKeepsSafe(w0: World, q: Request, o: Oracle, orig: Id, r: Run, w: World)
    requires AllSafe(w0, q, o, orig, r) && Safe(w0, q, o, orig, w)
    ensures AllSafe(w0, q, o, orig, r.Commit(w))
  {
    hide Safe;
  }

  lemma BeforeCreateIsSafe(w0: World, q: Request, o: Oracle, orig: Id, w: World)
    requires Starts(w0, q, orig) && BeforeCreate(w0, q, orig, w)
    ensures Safe(w0, q, o, orig, w)
  {
    hide Verified;
  }

  /** The run up to the creation of the replacement. */
  ghost predicate Preparing(w0: World, q: Request, o: Oracle, orig: Id, r: Run) {
    r.created.None? && AllSafe(w0, q, o, orig, r) && BeforeCreate(w0, q, orig, r.world)
  }

  lemma StillPreparing(w0: World, q: Request, o: Oracle, orig: Id, r: Run, w: World)
    requires Starts(w0, q, orig) && Preparing(w0, q, o, orig, r) && BeforeCreate(w0, q, orig, w)
    ensures Preparing(w0, q, o, orig, r.Commit(w))
  {
    hide BeforeCreate, Safe, AllSafe, Starts;
    BeforeCreateIsSafe(w0, q, o, orig, w);
    CommitKeepsSafe(w0, q, o, orig, r, w);
  }

  lemma StopStep(w0: World, q: Request, o: Oracle, orig: Id, r: Run)
    requires Starts(w0, q, orig) && Preparing(w0, q, o, orig, r) && r.world == w0
    ensures var s := Alter(r, o, StopOriginal, orig, Stopped);
            Preparing(w0, q, o, orig, s.run) && (s.Done? ==> s.run.world == w0.Put(orig, Stopped(w0.containers[orig])))
  {
    hide Safe, AllSafe, Request.RollbackName;
    var s := Alter(r, o, StopOriginal, orig, Stopped);
    if s.Done? {
      StillPreparing(w0, q, o, orig, r, s.run.world);
    }
  }

  lemma RollbackNameDiffers(q: Request)
    ensures q.RollbackName() != q.name
  {
    assert |q.RollbackName()| > |q.name|;
  }

  lemma AwayIsBeforeCreate(w0: World, q: Request, orig: Id, c: Container)
    requires Starts(w0, q, orig) && SameApartFromState(w0.containers[orig], c) && c.name == q.RollbackName()
    requires !w0.Put(orig, Stopped(w0.containers[orig])).NameTaken(c.name)
    ensures BeforeCreate(w0, q, orig, w0.Put(orig, c))
  {
    hide Request.RollbackName;
    var w, stopped := w0.Put(orig, c), w0.Put(orig, Stopped(w0.containers[orig]));
    forall id | id in w0.containers && id != orig ensures w0.containers[id].name != c.name {
      assert stopped.containers[id] == w0.containers[id];
    }
  }

  lemma PutTwice(w: World, id: Id, c: Container, d: Container)
    ensures w.Put(id, c).Put(id, d) == w.Put(id, d)
  {
  }

  lemma AwayStep(w0: World, q: Request, o: Oracle, orig: Id, r: Run)
    requires Starts(w0, q, orig) && Preparing(w0, q, o, orig, r)
    requires r.world == w0.Put(orig, Stopped(w0.containers[orig]))
    ensures var s := Rename(r, o, RenameAway, orig, q.RollbackName());
            && Preparing(w0, q, o, orig, s.run)
            && (s.Done? ==> s.run.world == w0.Put(orig, Stopped(w0.containers[orig]).(name := q.RollbackName())))
  {
    hide Preparing, Request.RollbackName, World.NameTaken, World.UniqueNames;
    RollbackNameDiffers(q);
    var s := Rename(r, o, RenameAway, orig, q.RollbackName());
    if s.Done? {
      var c := Stopped(w0.containers[orig]).(name := q.RollbackName());
      PutTwice(w0, orig, Stopped(w0.containers[orig]), c);
      AwayIsBeforeCreate(w0, q, orig, c);
      StillPreparing(w0, q, o, orig, r, s.run.world);
    }
  }

  lemma RewriteStep(w0: World, q: Request, o: Oracle, orig: Id, r: Run)
    requires Starts(w0, q, orig) && Preparing(w0, q, o, orig, r)
    requires r.world == w0.Put(orig, Stopped(w0.containers[orig]).(name := q.RollbackName()))
    ensures var s := Rewrite(r, o, q.target);
            Preparing(w0, q, o, orig, s.run) && (s.Done? ==> MovedAside(w0, q, orig, s.run.world))
  {
    hide Safe, AllSafe, Request.RollbackName;
    var s := Rewrite(r, o, q.target);
    if s.Done? {
      StillPreparing(w0, q, o, orig, r, s.run.world);
    }
  }

  lemma StartIsPreparing(w0: World, q: Request, o: Oracle, orig: Id)
    requires Starts(w0, q, orig)
    ensures Preparing(w0, q, o, orig, Run(w0, None, [w0]))
  {
    hide Safe;
    BeforeCreateIsSafe(w0, q, o, orig, w0);
  }

  lemma MoveAsideIsSafe(w0: World, q: Request, o: Oracle, orig: Id)
    requires Starts(w0, q, orig)
    ensures var s := MoveAside(Run(w0, None, [w0]), q, o, orig);
            && Preparing(w0, q, o, orig, s.run)
            && (s.Done? ==> MovedAside(w0, q, orig, s.run.world))
  {
    hide Starts, Preparing, MovedAside, Alter, Rename, Rewrite, Request.RollbackName, World.Put;
    StartIsPreparing(w0, q, o, orig);
    var r := Run(w0, None, [w0]);
    StopStep(w0, q, o, orig, r);
    var stopped := Alter(r, o, StopOriginal, orig, Stopped);
    if stopped.Done? {
      AwayStep(w0, q, o, orig, stopped.run);
      var renamed := Rename(stopped.run, o, RenameAway, orig, q.RollbackName());
      if renamed.Done? {
        RewriteStep(w0, q, o, orig, renamed.run);
      }
    }
  }

  /** `m`, the host with the original moved aside, plus the replacement in some state. */
  ghost predicate WithReplacement(w0: World, q: Request, o: Oracle, m: World, w: World) {
    var repl := w0.nextId;
    && repl in w.containers
    && w == m.(containers := m.containers[repl := w.containers[repl]], nextId := repl + 1)
    && w.containers[repl].name == q.name && w.containers[repl].image == q.target
    && w.containers[repl].imageId == o.createdImageId && w.containers[repl].labels == o.createdLabels
  }

  /** The run while the original is aside and the replacement exists. */
  ghost predicate Replacing(w0: World, q: Request, o: Oracle, orig: Id, m: World, r: Run) {
    && Starts(w0, q, orig) && MovedAside(w0, q, orig, m) && !m.NameTaken(q.name)
    && AllSafe(w0, q, o, orig, r) && Recoverable(w0, orig, r)
    && WithReplacement(w0, q, o, m, r.world)
  }

  lemma WithReplacementIsSafe(w0: World, q: Request, o: Oracle, orig: Id, m: World, w: World)
    requires Starts(w0, q, orig) && MovedAside(w0, q, orig, m) && !m.NameTaken(q.name)
    requires WithReplacement(w0, q, o, m, w)
    ensures Safe(w0, q, o, orig, w)
    ensures orig in w.containers && w.containers[orig] == m.containers[orig]
  {
    hide LabelsMatch, Request.RollbackName;
    forall id | id in m.containers ensures m.containers[id].name != q.name && w.containers[id] == m.containers[id] {
    }
  }

  lemma StillReplacing(w0: World, q: Request, o: Oracle, orig: Id, m: World, r: Run, w: World)
    requires Replacing(w0, q, o, orig, m, r) && WithReplacement(w0, q, o, m, w)
    requires r.created.Some? || !w.containers[w0.nextId].Live()
    ensures Replacing(w0, q, o, orig, m, r.Commit(w))
  {
    hide Safe, AllSafe, MovedAside, Starts, World.NameTaken;
    WithReplacementIsSafe(w0, q, o, orig, m, w);
    CommitKeepsSafe(w0, q, o, orig, r, w);
  }

  lemma CreateStep(w0: World, q: Request, o: Oracle, orig: Id, r: Run)
    requires Starts(w0, q, orig) && Preparing(w0, q, o, orig, r) && MovedAside(w0, q, orig, r.world)
    ensures var s := CreateContainer(r, o, q.name, q.target);
            && (s.Raised? ==> s.run == r)
            && (s.Done? ==> Replacing(w0, q, o, orig, r.world, s.run))
  {
    hide Safe, AllSafe, SameApartFromState, Request.RollbackName;
    var s := CreateContainer(r, o, q.name, q.target);
    if s.Done? {
      WithReplacementIsSafe(w0, q, o, orig, r.world, s.run.world);
      CommitKeepsSafe(w0, q, o, orig, r, s.run.world);
    }
  }

  lemma AlterReplacement(w0: World, q: Request, o: Oracle, orig: Id, m: World, r: Run, call: Call,
                         f: Container -> Container)
    requires Replacing(w0, q, o, orig, m, r) && r.created == Some(w0.nextId)
    requires forall c: Container :: f(c) == c.(status := f(c).status, health := f(c).health)
    ensures var s := Alter(r, o, call, w0.nextId, f);
            && Replacing(w0, q, o, orig, m, s.run) && s.run.created == r.created
            && w0.nextId in s.run.world.containers
            && (s.Done? ==> s.run.world.containers[w0.nextId] == f(r.world.containers[w0.nextId]))
  {
    hide Safe, AllSafe, MovedAside, Starts, World.NameTaken;
    var s := Alter(r, o, call, w0.nextId, f);
    if s.Done? {
      StillReplacing(w0, q, o, orig, m, r, s.run.world);
    }
  }

  lemma {:induction false} PollIsSafe(w0: World, q: Request, o: Oracle, orig: Id, m: World, r: Run, turn: nat)
    requires Replacing(w0, q, o, orig, m, r) && r.created == Some(w0.nextId)
    ensures var s := PollHealth(r, o, w0.nextId, turn);
            && Replacing(w0, q, o, orig, m, s.run) && s.run.created == r.created
            && (s.Done? ==> s.run.world.containers[w0.nextId].Fit())
    decreases MAX_POLLS - turn
  {
    hide Replacing, Alter;
    if turn < MAX_POLLS {
      var look := (c: Container) => c.Observed(o.polls(turn));
      AlterReplacement(w0, q, o, orig, m, r, Poll(turn), look);
      var seen := Alter(r, o, Poll(turn), w0.nextId, look);
      if seen.Done? && !seen.run.world.containers[w0.nextId].Healthy() {
        PollIsSafe(w0, q, o, orig, m, seen.run, turn + 1);
      }
    }
  }

  lemma ReplaceIsSafe(w0: World, q: Request, o: Oracle, orig: Id, r: Run)
    requires Starts(w0, q, orig) && Preparing(w0, q, o, orig, r) && MovedAside(w0, q, orig, r.world)
    ensures var s := Replace(r, q, o, w0.nextId, w0.template.labels);
            && (s.run == r || Replacing(w0, q, o, orig, r.world, s.run))
            && (s.Done? ==>
                  && Replacing(w0, q, o, orig, r.world, s.run)
                  && s.run.created == Some(w0.nextId)
                  && Verified(s.run.world.containers[w0.nextId], q, o, w0.template.labels))
  {
    hide Preparing, Replacing, MovedAside, Starts, Alter, PollHealth, CreateContainer, LabelsMatch, World.NameTaken,
         AllSafe,
         Verified, Started;
    CreateStep(w0, q, o, orig, r);
    var made := CreateContainer(r, o, q.name, q.target);
    if made.Done? && GetCreated !in o.faults {
      var bound := made.run.(created := Some(w0.nextId));
      BoundIsReplacing(w0, q, o, orig, r.world, made.run);
      if ReloadCreated !in o.faults && LabelsMatch(w0.template.labels, o.createdLabels) {
        StartKeepsRest();
        AlterReplacement(w0, q, o, orig, r.world, bound, StartCreated, Started);
        var started := Alter(bound, o, StartCreated, w0.nextId, Started);
        if started.Done? {
          PollIsSafe(w0, q, o, orig, r.world, started.run, 0);
          HealthyIsVerified(w0, q, o, orig, r.world, PollHealth(started.run, o, w0.nextId, 0).run);
        }
      }
    }
  }

  lemma StartKeepsRest()
    ensures forall c: Container :: Started(c) == c.(status := Started(c).status, health := Started(c).health)
  {
  }

  lemma BoundIsReplacing(w0: World, q: Request, o: Oracle, orig: Id, m: World, r: Run)
    requires Replacing(w0, q, o, orig, m, r)
    ensures Replacing(w0, q, o, orig, m, r.(created := Some(w0.nextId)))
    ensures w0.nextId in r.world.containers && r.world.containers[w0.nextId].labels == o.createdLabels
  {
    hide Safe, AllSafe, Starts, MovedAside, World.NameTaken, Container.Live;
    BindKeepsSafe(w0, q, o, orig, r, Some(w0.nextId));
  }

  lemma HealthyIsVerified(w0: World, q: Request, o: Oracle, orig: Id, m: World, r: Run)
    requires Replacing(w0, q, o, orig, m, r) && LabelsMatch(w0.template.labels, o.createdLabels)
    ensures w0.nextId in r.world.containers
    ensures var c := r.world.containers[w0.nextId];
            c.Fit() && c.imageId == o.targetId ==> Verified(c, q, o, w0.template.labels)
  {
    hide Safe, AllSafe, Starts, MovedAside, World.NameTaken, LabelsMatch, Container.Healthy;
  }

  lemma BindKeepsSafe(w0: World, q: Request, o: Oracle, orig: Id, r: Run, created: Option<Id>)
    requires AllSafe(w0, q, o, orig, r)
    ensures AllSafe(w0, q, o, orig, r.(created := created))
  {
    hide Safe;
  }

  /** The run when the `try` statement raises. */
  ghost predicate Raising(w0: World, q: Request, o: Oracle, orig: Id, r: Run) {
    || Preparing(w0, q, o, orig, r)
    || exists m :: Replacing(w0, q, o, orig, m, r)
  }

  /** The state after a normal return: the replacement alone, verified, with the template pointing at it. */
  ghost predicate Replaced(w0: World, q: Request, o: Oracle, orig: Id, w: World) {
    var repl := w0.nextId;
    && repl in w.containers && orig !in w.containers
    && Verified(w.containers[repl], q, o, w0.template.labels)
    && w.containers == w0.containers - {orig} + map[repl := w.containers[repl]]
    && w.template.repositories == [q.target] && w.template.labels == w0.template.labels
    && w.UniqueNames()
  }

  lemma SwapContainers(m: map<Id, Container>, orig: Id, repl: Id, a: Container, b: Container)
    requires orig != repl
    ensures m[orig := a][repl := b] - {orig} == m - {orig} + map[repl := b]
  {
  }

  lemma FewerNames(w: World, gone: set<Id>)
    requires w.UniqueNames()
    ensures w.(containers := w.containers - gone).UniqueNames()
  {
  }

  lemma RemovedIsReplaced(w0: World, q: Request, o: Oracle, orig: Id, m: World, w: World)
    requires Starts(w0, q, orig) && MovedAside(w0, q, orig, m)
    requires WithReplacement(w0, q, o, m, w)
    requires Verified(w.containers[w0.nextId], q, o, w0.template.labels) && w.UniqueNames()
    ensures Replaced(w0, q, o, orig, w.(containers := w.containers - {orig}))
  {
    hide Verified, Request.RollbackName, SameApartFromState, World.UniqueNames;
    SwapContainers(w0.containers, orig, w0.nextId, m.containers[orig], w.containers[w0.nextId]);
    FewerNames(w, {orig});
  }

  lemma ReplacedIsSafe(w0: World, q: Request, o: Oracle, orig: Id, w: World)
    requires Starts(w0, q, orig) && Replaced(w0, q, o, orig, w)
    ensures Safe(w0, q, o, orig, w)
  {
    hide LabelsMatch, Request.RollbackName, Container.Healthy;
  }

  lemma RemovalStep(w0: World, q: Request, o: Oracle, orig: Id, m: World, r: Run)
    requires Replacing(w0, q, o, orig, m, r)
    requires Verified(r.world.containers[w0.nextId], q, o, w0.template.labels)
    ensures var s := Remove(r, o, RemoveOriginal, orig);
            && (s.Raised? ==> s.run == r)
            && (s.Done? ==> AllSafe(w0, q, o, orig, s.run) && Replaced(w0, q, o, orig, s.run.world))
  {
    hide Starts, MovedAside, WithReplacement, Verified, Replaced, AllSafe, Recoverable, World.NameTaken;
    var s := Remove(r, o, RemoveOriginal, orig);
    if s.Done? {
      WithReplacementIsSafe(w0, q, o, orig, m, r.world);
      RemovedIsReplaced(w0, q, o, orig, m, r.world);
      ReplacedIsSafe(w0, q, o, orig, s.run.world);
      CommitKeepsSafe(w0, q, o, orig, r, s.run.world);
    }
  }

  lemma TryBlockIsSafe(w0: World, q: Request, o: Oracle, orig: Id)
    requires Starts(w0, q, orig)
    ensures var s := TryBlock(w0, q, o, orig);
            && AllSafe(w0, q, o, orig, s.run)
            && (s.Raised? ==> Raising(w0, q, o, orig, s.run))
            && (s.Done? ==> Replaced(w0, q, o, orig, s.run.world))
  {
    hide Preparing, Replacing, MovedAside, Starts, MoveAside, Replace, Remove, Verified, Replaced;
    MoveAsideIsSafe(w0, q, o, orig);
    var aside := MoveAside(Run(w0, None, [w0]), q, o, orig);
    PreparingIsSafe(w0, q, o, orig, aside.run);
    if aside.Done? {
      ReplaceIsSafe(w0, q, o, orig, aside.run);
      var replaced := Replace(aside.run, q, o, w0.nextId, w0.template.labels);
      if replaced.run != aside.run {
        ReplacingIsSafe(w0, q, o, orig, aside.run.world, replaced.run);
      }
      if replaced.Done? {
        ReplacingIsSafe(w0, q, o, orig, aside.run.world, replaced.run);
        RemovalStep(w0, q, o, orig, aside.run.world, replaced.run);
      }
    }
  }

  lemma PreparingIsSafe(w0: World, q: Request, o: Oracle, orig: Id, r: Run)
    requires Preparing(w0, q, o, orig, r)
    ensures AllSafe(w0, q, o, orig, r)
  {
  }

  lemma ReplacingIsSafe(w0: World, q: Request, o: Oracle, orig: Id, m: World, r: Run)
    requires Replacing(w0, q, o, orig, m, r)
    ensures AllSafe(w0, q, o, orig, r)
  {
  }

  // ---------------------------------------------------------------- the exception path

  /** The host while the exception path puts the original back. */
  ghost predicate Recovering(w0: World, q: Request, orig: Id, w: World) {
    var repl := w0.nextId;
    && orig in w0.containers && orig in w.containers && w.UniqueNames() && OthersUntouched(w0, orig, w)
    && SameApartFromState(w0.containers[orig], w.containers[orig])
    && w.containers[orig].name in {q.name, q.RollbackName()}
    && (repl in w.containers ==> !w.containers[repl].Live() && w.containers[repl].name == q.name)
    && (w.template == w0.template || (w.template.repositories == [q.target] && w.template.labels == w0.template.labels))
  }

  ghost predicate RecoveringRun(w0: World, q: Request, o: Oracle, orig: Id, r: Run) {
    Starts(w0, q, orig) && AllSafe(w0, q, o, orig, r) && Recovering(w0, q, orig, r.world)
  }

  lemma StillRecovering(w0: World, q: Request, o: Oracle, orig: Id, r: Run, w: World)
    requires Starts(w0, q, orig) && AllSafe(w0, q, o, orig, r) && Recovering(w0, q, orig, w)
    ensures RecoveringRun(w0, q, o, orig, r.Commit(w))
  {
    assert Safe(w0, q, o, orig, w) by {
      hide Verified;
    }
    hide Safe, Recovering;
    CommitKeepsSafe(w0, q, o, orig, r, w);
  }

  lemma PreparingRecovers(w0: World, q: Request, o: Oracle, orig: Id, r: Run)
    requires Starts(w0, q, orig) && Preparing(w0, q, o, orig, r)
    ensures RecoveringRun(w0, q, o, orig, r) && r.created.None?
    ensures w0.nextId !in r.world.containers
  {
    hide AllSafe, Request.RollbackName;
  }

  lemma ReplacingRecovers(w0: World, q: Request, o: Oracle, orig: Id, m: World, r: Run)
    requires Replacing(w0, q, o, orig, m, r)
    ensures r.created.None? ==> RecoveringRun(w0, q, o, orig, r) && w0.nextId in r.world.containers
    ensures r.created.Some? ==>
              && r.created == Some(w0.nextId) && w0.nextId in r.world.containers
              && Recovering(w0, q, orig, r.world.(containers := r.world.containers - {w0.nextId}))
    ensures r.world.containers[orig].name == q.RollbackName()
  {
    hide AllSafe, Request.RollbackName, LabelsMatch;
    WithReplacementIsSafe(w0, q, o, orig, m, r.world);
    FewerNames(r.world, {w0.nextId});
  }

  lemma ClearStep(w0: World, q: Request, o: Oracle, orig: Id, r: Run)
    requires Starts(w0, q, orig) && Raising(w0, q, o, orig, r)
    ensures orig in r.world.containers
    ensures var s := Cleared(r, o);
            && AllSafe(w0, q, o, orig, s.run)
            && (s.Done? <==> (r.created.Some? ==> RemoveCreated !in o.faults))
            && (s.Done? ==>
                  && RecoveringRun(w0, q, o, orig, s.run)
                  && s.run.world.containers[orig] == r.world.containers[orig]
                  && (w0.nextId in s.run.world.containers <==> r.created.None? && w0.nextId in r.world.containers))
  {
    hide Safe, Recovering, AllSafe, Preparing, Replacing, Starts;
    var s := Cleared(r, o);
    if Preparing(w0, q, o, orig, r) {
      PreparingIsSafe(w0, q, o, orig, r);
      PreparingRecovers(w0, q, o, orig, r);
      RecoveringHasOriginal(w0, q, orig, r.world);
    } else {
      var m :| Replacing(w0, q, o, orig, m, r);
      ReplacingIsSafe(w0, q, o, orig, m, r);
      ReplacingRecovers(w0, q, o, orig, m, r);
      ReplacingHasOriginal(w0, q, o, orig, m, r);
      if r.created.Some? && s.Done? {
        StillRecovering(w0, q, o, orig, r, s.run.world);
      }
    }
  }

  lemma RecoveringHasOriginal(w0: World, q: Request, orig: Id, w: World)
    requires Recovering(w0, q, orig, w)
    ensures orig in w.containers
  {
  }

  lemma ReplacingHasOriginal(w0: World, q: Request, o: Oracle, orig: Id, m: World, r: Run)
    requires Replacing(w0, q, o, orig, m, r)
    ensures orig in r.world.containers && orig != w0.nextId
  {
  }

  lemma RenameBackStep(w0: World, q: Request, o: Oracle, orig: Id, r: Run)
    requires RecoveringRun(w0, q, o, orig, r)
    ensures var s := Rename(r, o, RenameBack, orig, q.name);
            && AllSafe(w0, q, o, orig, s.run)
            && (s.Done? <==>
                  && RenameBack !in o.faults && w0.nextId !in r.world.containers
                  && (r.world.containers[orig].name == q.name ==> o.sameNameAccepted))
            && (s.Done? ==>
                  && RecoveringRun(w0, q, o, orig, s.run) && s.run.world.template == r.world.template
                  && w0.nextId !in s.run.world.containers
                  && orig in s.run.world.containers && s.run.world.containers[orig].name == q.name)
  {
    hide Safe, AllSafe, Recovering, Starts, World.UniqueNames, World.NameTaken;
    RecoveringHasOriginal(w0, q, orig, r.world);
    NameWhileRecovering(w0, q, orig, r.world);
    var s := Rename(r, o, RenameBack, orig, q.name);
    if s.Done? && s.run != r {
      StartsBelowNext(w0, q, orig);
      RenamedIsRecovering(w0, q, orig, r.world);
      StillRecovering(w0, q, o, orig, r, s.run.world);
    }
  }

  /** The name is free for the original exactly when no unbound replacement was left behind. */
  lemma NameWhileRecovering(w0: World, q: Request, orig: Id, w: World)
    requires Starts(w0, q, orig) && Recovering(w0, q, orig, w)
    ensures w.containers[orig].name == q.name ==> w0.nextId !in w.containers
    ensures w.containers[orig].name != q.name ==> (w.NameTaken(q.name) <==> w0.nextId in w.containers)
  {
    hide Request.RollbackName, Container.Live, World.NameTaken;
    OthersNamedElse(w0, q, orig, w);
    if w.NameTaken(q.name) {
      TakenBySomeone(w, q.name);
    }
    if w0.nextId in w.containers {
      TakenBy(w, w0.nextId);
    }
  }

  lemma RenamedIsRecovering(w0: World, q: Request, orig: Id, w: World)
    requires Recovering(w0, q, orig, w) && orig != w0.nextId && orig in w.containers && !w.NameTaken(q.name)
    ensures var back := w.Put(orig, w.containers[orig].(name := q.name));
            Recovering(w0, q, orig, back) && (w0.nextId in back.containers <==> w0.nextId in w.containers)
  {
    hide Request.RollbackName, Container.Live, World.NameTaken, World.UniqueNames;
    FreeForAll(w, q.name);
    FreeNameStaysUnique(w, orig, w.containers[orig].(name := q.name));
  }

  lemma StartsBelowNext(w0: World, q: Request, orig: Id)
    requires Starts(w0, q, orig)
    ensures orig != w0.nextId
  {
  }

  lemma OthersNamedElse(w0: World, q: Request, orig: Id, w: World)
    requires Starts(w0, q, orig) && OthersUntouched(w0, orig, w)
    ensures forall id :: id in w.containers && id != orig && id != w0.nextId ==> w.containers[id].name != q.name
  {
  }

  lemma TakenBy(w: World, id: Id)
    requires id in w.containers
    ensures w.NameTaken(w.containers[id].name)
  {
  }

  lemma TakenBySomeone(w: World, name: string)
    requires w.NameTaken(name)
    ensures exists id :: id in w.containers && w.containers[id].name == name
  {
  }

  lemma FreeForAll(w: World, name: string)
    requires !w.NameTaken(name)
    ensures forall id :: id in w.containers ==> w.containers[id].name != name
  {
  }

  lemma FreeNameStaysUnique(w: World, id: Id, c: Container)
    requires w.UniqueNames() && id in w.containers && forall other :: other in w.containers ==>
             w.containers[other].name != c.name
    ensures w.Put(id, c).UniqueNames()
  {
  }

  lemma SameNameStaysUnique(w: World, id: Id, c: Container)
    requires w.UniqueNames() && id in w.containers && c.name == w.containers[id].name
    ensures w.Put(id, c).UniqueNames()
  {
  }

  lemma AlteredIsRecovering(w0: World, q: Request, orig: Id, w: World, c: Container)
    requires Starts(w0, q, orig) && Recovering(w0, q, orig, w) && w0.nextId !in w.containers
    requires c == w.containers[orig].(status := c.status, health := c.health)
    ensures Recovering(w0, q, orig, w.Put(orig, c)) && w0.nextId !in w.Put(orig, c).containers
  {
    hide World.UniqueNames, Request.RollbackName;
    SameNameStaysUnique(w, orig, c);
  }

  lemma AlterOriginal(w0: World, q: Request, o: Oracle, orig: Id, r: Run, call: Call, f: Container -> Container)
    requires RecoveringRun(w0, q, o, orig, r) && w0.nextId !in r.world.containers && orig in r.world.containers
    requires var c := r.world.containers[orig]; f(c) == c.(status := f(c).status, health := f(c).health)
    ensures var s := Alter(r, o, call, orig, f);
            && AllSafe(w0, q, o, orig, s.run)
            && (s.Done? <==> call !in o.faults)
            && (s.Done? ==>
                  && RecoveringRun(w0, q, o, orig, s.run) && s.run.world.template == r.world.template
                  && w0.nextId !in s.run.world.containers
                  && orig in s.run.world.containers && s.run.world.containers[orig] == f(r.world.containers[orig]))
  {
    hide Safe, AllSafe, Recovering, Starts, World.UniqueNames;
    RecoveringHasOriginal(w0, q, orig, r.world);
    var s := Alter(r, o, call, orig, f);
    if s.Done? {
      AlteredIsRecovering(w0, q, orig, r.world, f(r.world.containers[orig]));
      StillRecovering(w0, q, o, orig, r, s.run.world);
    }
  }

  /** The host exactly as before the update, but for the health of the restarted original. */
  ghost predicate PutBack(w0: World, orig: Id, w: World) {
    && orig in w0.containers && orig in w.containers && w.containers[orig].Fit()
    && w.containers == w0.containers[orig :=
       w0.containers[orig].(status := Running, health := w.containers[orig].health)]
    && w.template == w0.template
  }

  lemma PutBackWhole(w0: World, q: Request, orig: Id, w: World)
    requires Starts(w0, q, orig) && Recovering(w0, q, orig, w) && w0.nextId !in w.containers
    requires w.containers[orig].name == q.name && w.containers[orig].Fit() && w.template == w0.template
    ensures PutBack(w0, orig, w)
  {
    hide World.UniqueNames, Request.RollbackName;
  }

  /** When the exception path succeeds: nothing it calls raises, the original answers to its rollback
      name (or the daemon accepts a rename to the own name), no unbound replacement holds the name,
      and the original comes back healthy. */
  ghost predicate CanRollBack(w0: World, q: Request, o: Oracle, orig: Id, r: Run)
    requires orig in r.world.containers
  {
    && (r.created.Some? ==> RemoveCreated !in o.faults)
    && {RestoreTemplate, ReloadOriginal, RenameBack, StartOriginal, ReloadStarted} !! o.faults
    && (r.world.containers[orig].name == q.name ==> o.sameNameAccepted)
    && !(r.created.None? && w0.nextId in r.world.containers)
    && o.original.Fit()
  }

  lemma RollbackIsSafe(w0: World, q: Request, o: Oracle, orig: Id, r: Run)
    requires Starts(w0, q, orig) && Raising(w0, q, o, orig, r)
    ensures orig in r.world.containers
    ensures var s := Rollback(r, q, o, orig, w0.template);
            && AllSafe(w0, q, o, orig, s.run)
            && (s.Done? <==> CanRollBack(w0, q, o, orig, r))
            && (s.Done? ==> PutBack(w0, orig, s.run.world))
  {
    hide AllSafe, Safe, Raising, Recovering, Starts, Rename, PutBack, Restart, Cleared;
    ClearStep(w0, q, o, orig, r);
    var cleared := Cleared(r, o);
    if cleared.Done? && RestoreTemplate !in o.faults {
      var restored := Restore(cleared.run, o, w0.template);
      RestoreStep(w0, q, o, orig, cleared.run);
      if ReloadOriginal !in o.faults {
        RenameBackStep(w0, q, o, orig, restored.run);
        var renamed := Rename(restored.run, o, RenameBack, orig, q.name);
        if renamed.Done? {
          RestartIsSafe(w0, q, o, orig, renamed.run);
        }
      }
    }
  }

  lemma RecoveringOpens(w0: World, q: Request, o: Oracle, orig: Id)
    ensures forall r {:trigger RecoveringRun(w0, q, o, orig, r)} :: RecoveringRun(w0, q, o, orig, r) ==>
              Starts(w0, q, orig) && Recovering(w0, q, orig, r.world)
  {
  }

  lemma RestartIsSafe(w0: World, q: Request, o: Oracle, orig: Id, r: Run)
    requires RecoveringRun(w0, q, o, orig, r) && w0.nextId !in r.world.containers
    requires r.world.template == w0.template && orig in r.world.containers && r.world.containers[orig].name == q.name
    ensures var s := Restart(r, o, orig);
            && AllSafe(w0, q, o, orig, s.run)
            && (s.Done? <==>
                  && {StartOriginal, ReloadStarted} !! o.faults
                  && o.original.Fit())
            && (s.Done? ==> PutBack(w0, orig, s.run.world))
  {
    hide AllSafe, Safe, Recovering, RecoveringRun, Starts, Alter, PutBack;
    RecoveringOpens(w0, q, o, orig);
    AlterOriginal(w0, q, o, orig, r, StartOriginal, Started);
    var started := Alter(r, o, StartOriginal, orig, Started);
    if started.Done? {
      var look := (c: Container) => c.Observed(o.original);
      AlterOriginal(w0, q, o, orig, started.run, ReloadStarted, look);
      var seen := Alter(started.run, o, ReloadStarted, orig, look);
      if seen.Done? && seen.run.world.containers[orig].Healthy() {
        PutBackWhole(w0, q, orig, seen.run.world);
      }
    }
  }

  lemma RestoreStep(w0: World, q: Request, o: Oracle, orig: Id, r: Run)
    requires RecoveringRun(w0, q, o, orig, r) && RestoreTemplate !in o.faults
    ensures var s := Restore(r, o, w0.template);
            && RecoveringRun(w0, q, o, orig, s.run)
            && s.run.world == r.world.(template := w0.template)
            && orig in s.run.world.containers
  {
    hide Safe, AllSafe, Request.RollbackName;
    StillRecovering(w0, q, o, orig, r, r.world.(template := w0.template));
  }
}
