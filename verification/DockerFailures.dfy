/** How a guarded update ends when it does not return: where its rollback stops, what the caller is
    told, and what is left on the host, for every fault schedule. */
module DockerFailures {
  import opened Strings
  import opened DockerWorld
  import opened DockerUpdate
  import opened DockerTheorems

  // ---------------------------------------------------------------- where the transaction raises

  /** How far the `try` body had come. */
  datatype Stage =
    | Untouched        // nothing changed yet
    | StoppedInPlace   // the original is stopped, under its own name
    | MovedAway        // the original is stopped under its rollback name, without a replacement
    | Orphan           // the replacement exists but was never bound
    | Bound            // the replacement is bound

  ghost function StageOf(w: World, q: Request, o: Oracle, orig: Id): Stage
    requires orig in w.containers
  {
    if Pull in o.faults || GetImage in o.faults || o.targetId == w.containers[orig].imageId || StopOriginal in o.faults
    then Untouched
    else if RenameAway in o.faults || w.NameTaken(q.RollbackName()) then StoppedInPlace
    else if WriteTemplate in o.faults || |w.template.repositories| != 1 || Create in o.faults then MovedAway
    else if GetCreated in o.faults then Orphan
    else Bound
  }

  /** Some poll from `turn` on finds the replacement dead, before which it stayed live without getting
      healthy and no poll raised. */
  ghost predicate DiesInPolls(o: Oracle, turn: nat) {
    exists i :: turn <= i < 12 && !o.polls(i).Working() && Waits(o, turn, i)
  }

  ghost predicate Waits(o: Oracle, turn: nat, i: nat) {
    && (forall j :: turn <= j <= i ==> Poll(j) !in o.faults)
    && (forall j :: turn <= j < i ==> o.polls(j).Working() && !o.polls(j).Fit())
  }

  /** The bound replacement is live when the `try` body raises. */
  ghost predicate ReplacementRuns(w: World, o: Oracle) {
    && ReloadCreated !in o.faults && LabelsMatch(w.template.labels, o.createdLabels)
    && StartCreated !in o.faults && !DiesInPolls(o, 0)
  }

  /** What the host looks like when the `try` body raises at a stage. */
  ghost predicate LeftAt(w0: World, q: Request, o: Oracle, orig: Id, stage: Stage, r: Run) {
    && orig in w0.containers && orig in r.world.containers
    && (r.created.Some? <==> stage.Bound?)
    && (w0.nextId in r.world.containers <==> stage.Orphan? || stage.Bound?)
    && (stage.Untouched? ==> r.world == w0)
    && (!stage.Untouched? ==> r.world.containers[orig].status == Exited)
    && r.world.containers[orig].health == w0.containers[orig].health
    && (r.world.containers[orig].name == q.name <==> stage.Untouched? || stage.StoppedInPlace?)
    && (stage.Orphan? ==> !r.world.containers[w0.nextId].Live())
    && (stage.Bound? ==> (r.world.containers[w0.nextId].Live() <==> ReplacementRuns(w0, o)))
  }

  lemma DiesStep(o: Oracle, turn: nat)
    ensures DiesInPolls(o, turn) <==>
            && turn < MAX_POLLS && Poll(turn) !in o.faults
            && (!o.polls(turn).Working() || (!o.polls(turn).Fit() && DiesInPolls(o, turn + 1)))
  {
    if turn < MAX_POLLS && Poll(turn) !in o.faults && !o.polls(turn).Live() {
      assert Waits(o, turn, turn);
    }
    if i :| turn <= i < 12 && !o.polls(i).Working() && Waits(o, turn, i) {
      if i != turn {
        assert Waits(o, turn + 1, i);
      }
    }
    if turn < MAX_POLLS && Poll(turn) !in o.faults && !o.polls(turn).Fit() && o.polls(turn).Live() {
      if i :| turn + 1 <= i < 12 && !o.polls(i).Working() && Waits(o, turn + 1, i) {
        assert Waits(o, turn, i);
      }
    }
  }

  /** Polling a live replacement leaves it live unless some poll found it dead. */
  lemma {:induction false} PollLeaves(r: Run, o: Oracle, id: Id, turn: nat)
    requires id in r.world.containers
    ensures var s := PollHealth(r, o, id, turn);
            && id in s.run.world.containers
            && s.run.created == r.created && s.run.world == r.world.Put(id, s.run.world.containers[id])
            && (!r.world.containers[id].Live() ==> !s.run.world.containers[id].Live())
            && (r.world.containers[id].Live() ==> (s.run.world.containers[id].Live() <==> !DiesInPolls(o, turn)))
    decreases MAX_POLLS - turn
  {
    hide DiesInPolls;
    DiesStep(o, turn);
    if turn < MAX_POLLS {
      var seen := Alter(r, o, Poll(turn), id, (c: Container) => c.Observed(o.polls(turn)));
      if seen.Done? && !seen.run.world.containers[id].Healthy() {
        PollLeaves(seen.run, o, id, turn + 1);
      }
    }
  }

  lemma MoveAsideLeaves(w: World, q: Request, o: Oracle, orig: Id)
    requires Starts(w, q, orig) && q.target != "" && '<' !in q.target && '>' !in q.target
    requires MoveAside(Run(w, None, [w]), q, o, orig).Raised?
    ensures LeftAt(w, q, o, orig, StageOf(w, q, o, orig), MoveAside(Run(w, None, [w]), q, o, orig).run)
    ensures StageOf(w, q, o, orig) in {Untouched, StoppedInPlace, MovedAway}
  {
    hide Request.RollbackName, World.UniqueNames, ReplacementRuns;
    RollbackNameDiffers(q);
    StoppingKeepsNames(w, orig, q.RollbackName());
  }

  /** What the second half of the `try` body leaves when it raises. */
  lemma ReplaceLeaves(w: World, q: Request, o: Oracle, orig: Id, r: Run)
    requires orig in r.world.containers && r.created.None? && r.world.nextId == w.nextId && orig != w.nextId
    requires !r.world.NameTaken(q.name) && w.nextId !in r.world.containers
    ensures var s := Replace(r, q, o, w.nextId, w.template.labels);
            && (Create in o.faults ==> s.Raised? && s.run == r)
            && (Create !in o.faults ==>
                  && orig in s.run.world.containers && s.run.world.containers[orig] == r.world.containers[orig]
                  && w.nextId in s.run.world.containers
                  && (GetCreated in o.faults ==>
                      s.Raised? && s.run.created.None? && !s.run.world.containers[w.nextId].Live())
                  && (GetCreated !in o.faults ==>
                        && s.run.created == Some(w.nextId)
                        && (s.run.world.containers[w.nextId].Live() <==> ReplacementRuns(w, o))))
  {
    hide DiesInPolls, LabelsMatch, World.NameTaken;
    var made := CreateContainer(r, o, q.name, q.target);
    if made.Done? && GetCreated !in o.faults {
      var bound := Bind(made.run, o, w.nextId);
      var started := Alter(bound.run, o, StartCreated, w.nextId, Started);
      if started.Done? {
        PollLeaves(started.run, o, w.nextId, 0);
      }
    }
  }

  lemma TryLeaves(w: World, q: Request, o: Oracle, orig: Id)
    requires Starts(w, q, orig) && q.target != "" && '<' !in q.target && '>' !in q.target
    requires TryBlock(w, q, o, orig).Raised?
    ensures LeftAt(w, q, o, orig, StageOf(w, q, o, orig), TryBlock(w, q, o, orig).run)
  {
    hide MoveAside, Replace, MovedAside, Starts, Preparing, Replacing, Request.RollbackName, World.NameTaken,
         ReplacementRuns, LabelsMatch;
    StartsHasOriginal(w, q, orig);
    var aside := MoveAside(Run(w, None, [w]), q, o, orig);
    if aside.Raised? {
      MoveAsideLeaves(w, q, o, orig);
    } else {
      MoveAsideDoneIff(w, q, o, orig);
      MoveAsideIsSafe(w, q, o, orig);
      PreparingIsUnbound(w, q, o, orig, aside.run);
      MovedAsideFreesName(w, q, orig, aside.run.world);
      MovedAsideOpens(w, q, orig, aside.run.world);
      RollbackNameDiffers(q);
      ReplaceLeaves(w, q, o, orig, aside.run);
    }
  }

  lemma PreparingIsUnbound(w: World, q: Request, o: Oracle, orig: Id, r: Run)
    requires Preparing(w, q, o, orig, r)
    ensures r.created.None?
  {
  }

  lemma MovedAsideOpens(w: World, q: Request, orig: Id, m: World)
    requires Starts(w, q, orig) && MovedAside(w, q, orig, m)
    ensures orig in m.containers && m.containers[orig].name == q.RollbackName() && m.containers[orig].status == Exited
    ensures orig in w.containers && m.containers[orig].health == w.containers[orig].health
    ensures m.nextId == w.nextId && w.nextId != orig && w.nextId !in m.containers
  {
    hide Request.RollbackName;
  }

  // ---------------------------------------------------------------- where the rollback stops

  /** The first call of the exception path that raises. */
  function FirstStop(o: Oracle, stage: Stage): Option<Call> {
    if stage.Bound? && RemoveCreated in o.faults then Some(RemoveCreated)
    else if RestoreTemplate in o.faults then Some(RestoreTemplate)
    else if ReloadOriginal in o.faults then Some(ReloadOriginal)
    else if RenameBack in o.faults || stage.Orphan?
      || ((stage.Untouched? || stage.StoppedInPlace?) && !o.sameNameAccepted)
    then Some(RenameBack)
    else if StartOriginal in o.faults then Some(StartOriginal)
    else if ReloadStarted in o.faults then Some(ReloadStarted)
    else None
  }

  /** The original `c` as the exception path leaves it once it has started it: one that still ran is
      left alone. */
  function Resumed(c: Container, stage: Stage, o: Oracle): Container {
    var started := Started(if stage.Untouched? then c else Stopped(c));
    if ReloadStarted in o.faults then started else started.Observed(o.original)
  }

  ghost predicate RestoredBut(w0: World, orig: Id, c: Container, w: World)
    requires orig in w0.containers
  {
    w.containers == w0.containers[orig := c] && w.template == w0.template
  }

  lemma WholeAgain(w0: World, q: Request, orig: Id, w: World)
    requires Starts(w0, q, orig) && Recovering(w0, q, orig, w) && w0.nextId !in w.containers
    requires w.containers[orig].name == q.name && w.template == w0.template
    ensures RestoredBut(w0, orig,
            w0.containers[orig].(status := w.containers[orig].status, health := w.containers[orig].health), w)
  {
    hide World.UniqueNames, Request.RollbackName;
  }

  /** What the exception path raises and what it leaves. */
  ghost predicate RollbackLeft(w0: World, o: Oracle, orig: Id, stage: Stage, s: Step)
    requires orig in w0.containers
  {
    var stop, repl := FirstStop(o, stage), w0.nextId;
    && (s.Done? <==> stop.None? && o.original.Fit())
    && (s.Raised? ==> s.error == if stop.Some? then o.Failure(stop.value) else OriginalUnhealthy)
    && orig in s.run.world.containers
    && (stop.Some? && stop != Some(ReloadStarted) ==>
          && (stage.Untouched? ==> SameHost(w0, s.run.world))
          && (!stage.Untouched? ==> !s.run.world.containers[orig].Live()))
    && (stop.None? || stop == Some(ReloadStarted) ==>
        RestoredBut(w0, orig, Resumed(w0.containers[orig], stage, o), s.run.world))
    && (repl in s.run.world.containers && s.run.world.containers[repl].Live() <==>
          stage.Bound? && stop == Some(RemoveCreated) && ReplacementRuns(w0, o))
  }

  predicate SameHost(w: World, v: World) {
    w.containers == v.containers && w.template == v.template
  }

  lemma RestartLeaves(w0: World, q: Request, o: Oracle, orig: Id, stage: Stage, r: Run)
    requires RecoveringRun(w0, q, o, orig, r) && w0.nextId !in r.world.containers && orig in w0.containers
    requires r.world.template == w0.template && orig in r.world.containers && r.world.containers[orig].name == q.name
    requires var c := w0.containers[orig];
             && r.world.containers[orig].status == (if stage.Untouched? then c.status else Exited)
             && r.world.containers[orig].health == c.health
    ensures var s := Restart(r, o, orig);
            && (StartOriginal in o.faults ==> s == Raised(r, o.Failure(StartOriginal)))
            && (StartOriginal !in o.faults ==>
                  && RestoredBut(w0, orig, Resumed(w0.containers[orig], stage, o), s.run.world)
                  && w0.nextId !in s.run.world.containers
                  && (s.Done? <==> ReloadStarted !in o.faults && o.original.Fit())
                  && (s.Raised? ==> s.error == if ReloadStarted in o.faults then o.Failure(ReloadStarted)
                      else OriginalUnhealthy))
  {
    hide AllSafe, Safe, Recovering, RecoveringRun, Starts, RestoredBut;
    RecoveringOpens(w0, q, o, orig);
    if StartOriginal !in o.faults {
      AlterOriginal(w0, q, o, orig, r, StartOriginal, Started);
      var started := Alter(r, o, StartOriginal, orig, Started);
      WholeAgain(w0, q, orig, started.run.world);
      if ReloadStarted !in o.faults {
        var look := (c: Container) => c.Observed(o.original);
        AlterOriginal(w0, q, o, orig, started.run, ReloadStarted, look);
        var seen := Alter(started.run, o, ReloadStarted, orig, look);
        WholeAgain(w0, q, orig, seen.run.world);
      }
    }
  }

  /** From the restored template to the renamed original. */
  lemma RenameLeaves(w0: World, q: Request, o: Oracle, orig: Id, stage: Stage, r: Run)
    requires RecoveringRun(w0, q, o, orig, r) && orig in r.world.containers && orig in w0.containers
    requires r.world.containers[orig].name == q.name <==> stage.Untouched? || stage.StoppedInPlace?
    requires w0.nextId in r.world.containers <==> stage.Orphan?
    ensures var s := Rename(r, o, RenameBack, orig, q.name);
            && orig in s.run.world.containers && s.run.world.containers[orig].status == r.world.containers[orig].status
            && s.run.world.containers[orig].health == r.world.containers[orig].health
            && (stage.Untouched? ==> s.run == r)
            && (s.Raised? ==> s == Raised(r, o.Failure(RenameBack)))
            && (s.Raised? <==> RenameBack in o.faults || stage.Orphan?
                                || ((stage.Untouched? || stage.StoppedInPlace?) && !o.sameNameAccepted))
            && (s.Done? ==> RecoveringRun(w0, q, o, orig, s.run) && s.run.world.template == r.world.template
                            && w0.nextId !in s.run.world.containers && s.run.world.containers[orig].name == q.name)
  {
    hide Safe, AllSafe, RecoveringRun, World.NameTaken, World.UniqueNames, Request.RollbackName;
    RenameBackStep(w0, q, o, orig, r);
  }

  lemma ClearLeaves(w0: World, q: Request, o: Oracle, orig: Id, stage: Stage, r: Run)
    requires Starts(w0, q, orig) && Raising(w0, q, o, orig, r) && LeftAt(w0, q, o, orig, stage, r)
    requires !(stage.Bound? && RemoveCreated in o.faults)
    ensures var s := Cleared(r, o);
            && s.Done? && RecoveringRun(w0, q, o, orig, s.run)
            && orig in s.run.world.containers && s.run.world.containers[orig] == r.world.containers[orig]
            && (w0.nextId in s.run.world.containers <==> stage.Orphan?)
            && (!stage.Bound? ==> s.run == r)
  {
    hide Safe, AllSafe, RecoveringRun, Raising, Starts, ReplacementRuns;
    ClearStep(w0, q, o, orig, r);
    RecoveringOpens(w0, q, o, orig);
    RecoveringHasOriginal(w0, q, orig, Cleared(r, o).run.world);
  }

  lemma RollbackLeaves(w0: World, q: Request, o: Oracle, orig: Id, stage: Stage, r: Run)
    requires Starts(w0, q, orig) && Raising(w0, q, o, orig, r) && LeftAt(w0, q, o, orig, stage, r)
    ensures orig in w0.containers && RollbackLeft(w0, o, orig, stage, Rollback(r, q, o, orig, w0.template))
  {
    hide Safe, AllSafe, RecoveringRun, Raising, Starts, ReplacementRuns, Rename, Restart;
    if stage.Bound? && RemoveCreated in o.faults {
      assert Rollback(r, q, o, orig, w0.template) == Raised(r, o.Failure(RemoveCreated));
    } else {
      ClearLeaves(w0, q, o, orig, stage, r);
      var cleared := Cleared(r, o);
      if RestoreTemplate !in o.faults {
        RestoreStep(w0, q, o, orig, cleared.run);
        var restored := Restore(cleared.run, o, w0.template);
        if ReloadOriginal !in o.faults {
          RenameLeaves(w0, q, o, orig, stage, restored.run);
          var renamed := Rename(restored.run, o, RenameBack, orig, q.name);
          if renamed.Done? {
            RestartLeaves(w0, q, o, orig, stage, renamed.run);
          }
        }
      }
    }
  }

  // ---------------------------------------------------------------- how the update ends

  lemma OutcomeAfterTry(w: World, q: Request, o: Oracle)
    requires Preflight(w, q, o).Some?
    ensures var s := TryBlock(w, q, o, Preflight(w, q, o).value);
            s.Raised? ==>
              var back := Rollback(s.run, q, o, Preflight(w, q, o).value, w.template);
              ExecuteUpdate(w, q, o) == if back.Done? then RolledBack(back.run)
                else RollbackFailed(back.run, back.error)
    ensures ExecuteUpdate(w, q, o).Returned? <==> TryBlock(w, q, o, Preflight(w, q, o).value).Done?
  {
    hide Preflight, TryBlock, Rollback;
  }

  /** An update that passed its checks and does not return ends in an exception path of which
      everything is known. */
  lemma HowItEnds(w: World, q: Request, o: Oracle)
    requires w.Valid() && Preflight(w, q, o).Some?
    ensures var orig := Preflight(w, q, o).value;
            && orig in w.containers && w.containers[orig].status.Running?
            && (CanReturn(w, q, o, orig) <==> ExecuteUpdate(w, q, o).Returned?)
            && (!CanReturn(w, q, o, orig) ==>
                  var back := Rollback(TryBlock(w, q, o, orig).run, q, o, orig, w.template);
                  && ExecuteUpdate(w, q, o)
                     == (if back.Done? then RolledBack(back.run) else RollbackFailed(back.run, back.error))
                  && RollbackLeft(w, o, orig, StageOf(w, q, o, orig), back))
  {
    hide Preflight, TryBlock, Rollback, AllSafe, Raising, Starts, CanReturn, ExecuteUpdate, LeftAt, RollbackLeft,
         Revision, LabelsMatch;
    PreflightStarts(w, q, o);
    var orig := Preflight(w, q, o).value;
    StartsHasOriginal(w, q, orig);
    ReturnsExactlyWhen(w, q, o);
    OutcomeAfterTry(w, q, o);
    var s := TryBlock(w, q, o, orig);
    if s.Raised? {
      TryBlockIsSafe(w, q, o, orig);
      TryLeaves(w, q, o, orig);
      RollbackLeaves(w, q, o, orig, StageOf(w, q, o, orig), s.run);
    }
  }

  /** Over all fault schedules: which updates roll back, and of which the caller is told so. */
  lemma RollbackEndsExactly(w: World, q: Request, o: Oracle)
    requires w.Valid() && Preflight(w, q, o).Some?
    ensures var orig, out := Preflight(w, q, o).value, ExecuteUpdate(w, q, o);
            && orig in w.containers
            && var stop := FirstStop(o, StageOf(w, q, o, orig));
               && (out.RolledBack? <==> !CanReturn(w, q, o, orig) && stop.None? && o.original.Fit())
               && (out.ReportsRollback() <==>
                     && !CanReturn(w, q, o, orig)
                     && if stop.Some? then o.errorText(stop.value) == "" else o.original.Fit())
  {
    hide Preflight, TryBlock, Rollback, ExecuteUpdate, CanReturn, StageOf, FirstStop, SameHost, RestoredBut, Resumed,
         ReplacementRuns;
    HowItEnds(w, q, o);
    assert OriginalUnhealthy.Text() != "";
  }

  /** When "rollback=succeeded" is true of the host: exactly when it is not the empty message of a
      raising call, unless nothing had been changed on a healthy host, or the call was the last look at
      a restarted original that has no health check. */
  lemma ReportIsHonestExactly(w: World, q: Request, o: Oracle)
    requires w.Valid() && Preflight(w, q, o).Some?
    ensures var orig, out := Preflight(w, q, o).value, ExecuteUpdate(w, q, o);
            && orig in w.containers
            && var stage := StageOf(w, q, o, orig);
               var stop := FirstStop(o, stage);
               !CanReturn(w, q, o, orig) ==>
                 ((out.ReportsRollback() ==> PutBack(w, orig, out.run.world)) <==>
                  (stop.Some? && o.errorText(stop.value) == "" ==> IsBack(w.containers[orig], stage, stop.value)))
  {
    hide Preflight, TryBlock, Rollback, ExecuteUpdate, CanReturn, StageOf, FirstStop, RollbackLeft, PutBack,
         ReplacementRuns;
    HowItEnds(w, q, o);
    RollbackEndsExactly(w, q, o);
    var orig := Preflight(w, q, o).value;
    if !CanReturn(w, q, o, orig) {
      PutBackExactly(w, o, orig, StageOf(w, q, o, orig), Rollback(TryBlock(w, q, o, orig).run, q, o, orig, w.template));
    }
  }

  /** The host is put back although the exception path stopped at this call. */
  predicate IsBack(c: Container, stage: Stage, stop: Call) {
    (stage.Untouched? && c.Fit()) || (stop == ReloadStarted && c.health.NoCheck?)
  }

  lemma PutBackExactly(w: World, o: Oracle, orig: Id, stage: Stage, s: Step)
    requires orig in w.containers && w.containers[orig].status.Running? && RollbackLeft(w, o, orig, stage, s)
    ensures var stop := FirstStop(o, stage);
            PutBack(w, orig, s.run.world) <==>
            if stop.Some? then IsBack(w.containers[orig], stage, stop.value) else o.original.Fit()
  {
    hide ReplacementRuns;
    var c := w.containers[orig];
    assert w.containers == w.containers[orig := c];
    ReloadIsLast(o, stage);
  }

  lemma ReloadIsLast(o: Oracle, stage: Stage)
    ensures FirstStop(o, stage) == Some(ReloadStarted) ==> ReloadStarted in o.faults
    ensures FirstStop(o, stage).None? ==> ReloadStarted !in o.faults
  {
  }

  /** A failed rollback on a host that is as before: exactly when the exception path stops before it
      restarts an original that nothing had touched, cannot look at a restarted original that shows
      the health it had, or finds the original just as unfit as it was. */
  lemma FailsUnchangedExactly(w: World, q: Request, o: Oracle)
    requires w.Valid() && Preflight(w, q, o).Some?
    ensures var orig, out := Preflight(w, q, o).value, ExecuteUpdate(w, q, o);
            && orig in w.containers
            && var c, stage := w.containers[orig], StageOf(w, q, o, orig);
               var stop := FirstStop(o, stage);
               out.RollbackFailed? && SameHost(w, out.run.world) <==>
               && !CanReturn(w, q, o, orig)
               && if stop.None? then !o.original.Fit() && o.original == Observation(Running, c.health)
                  else if stop.value == ReloadStarted then stage.Untouched? || c.health.Starting? || c.health.NoCheck?
                  else stage.Untouched?
  {
    hide Preflight, TryBlock, Rollback, ExecuteUpdate, CanReturn, StageOf, FirstStop, RollbackLeft, ReplacementRuns,
         SameHost;
    HowItEnds(w, q, o);
    var orig := Preflight(w, q, o).value;
    if !CanReturn(w, q, o, orig) {
      var s := Rollback(TryBlock(w, q, o, orig).run, q, o, orig, w.template);
      SameHostExactly(w, o, orig, StageOf(w, q, o, orig), s);
    }
  }

  lemma SameHostExactly(w: World, o: Oracle, orig: Id, stage: Stage, s: Step)
    requires orig in w.containers && w.containers[orig].status.Running? && RollbackLeft(w, o, orig, stage, s)
    ensures var c, stop := w.containers[orig], FirstStop(o, stage);
            s.Raised? && SameHost(w, s.run.world) <==>
            if stop.None? then !o.original.Fit() && o.original == Observation(Running, c.health)
            else if stop.value == ReloadStarted then stage.Untouched? || c.health.Starting? || c.health.NoCheck?
            else stage.Untouched?
  {
    hide ReplacementRuns;
    var c := w.containers[orig];
    assert w.containers == w.containers[orig := c];
    ReloadIsLast(o, stage);
    if FirstStop(o, stage).None? || FirstStop(o, stage) == Some(ReloadStarted) {
      assert s.run.world.containers[orig] == Resumed(c, stage, o);
      assert s.run.world.containers == w.containers <==> Resumed(c, stage, o) == c;
    }
  }

  predicate LiveIn(w: World, id: Id) {
    id in w.containers && w.containers[id].Working()
  }

  /** The outage: after the transaction neither the original nor a replacement is live. This is so
      exactly when the update does not return, the original was stopped and not started again or was
      found dead when looked at, and no running replacement was left behind. */
  lemma NothingRunsExactly(w: World, q: Request, o: Oracle)
    requires w.Valid() && Preflight(w, q, o).Some?
    ensures var orig, out := Preflight(w, q, o).value, ExecuteUpdate(w, q, o);
            && orig in w.containers && !out.Blocked?
            && var stage := StageOf(w, q, o, orig);
               var stop := FirstStop(o, stage);
               !LiveIn(out.run.world, orig) && !LiveIn(out.run.world, w.nextId) <==>
               && !CanReturn(w, q, o, orig)
               && (if stop.None? then !o.original.Working() else stop.value != ReloadStarted && !stage.Untouched?)
               && !(stage.Bound? && stop == Some(RemoveCreated) && ReplacementRuns(w, o))
  {
    hide Preflight, TryBlock, Rollback, ExecuteUpdate, CanReturn, StageOf, FirstStop, RollbackLeft, ReplacementRuns;
    HowItEnds(w, q, o);
    var orig := Preflight(w, q, o).value;
    if CanReturn(w, q, o, orig) {
      ReturnedRuns(w, q, o);
    } else {
      LiveExactly(w, o, orig, StageOf(w, q, o, orig), Rollback(TryBlock(w, q, o, orig).run, q, o, orig, w.template));
    }
  }

  lemma LiveExactly(w: World, o: Oracle, orig: Id, stage: Stage, s: Step)
    requires orig in w.containers && w.containers[orig].status.Running? && RollbackLeft(w, o, orig, stage, s)
    ensures var stop := FirstStop(o, stage);
            && (LiveIn(s.run.world, orig) <==>
                  if stop.None? then o.original.Working() else stop.value == ReloadStarted || stage.Untouched?)
            && (LiveIn(s.run.world, w.nextId) <==> stage.Bound? && stop == Some(RemoveCreated) && ReplacementRuns(w, o))
  {
    hide ReplacementRuns;
    ReloadIsLast(o, stage);
  }

  lemma ReturnedRuns(w: World, q: Request, o: Oracle)
    requires w.Valid() && Preflight(w, q, o).Some? && ExecuteUpdate(w, q, o).Returned?
    ensures LiveIn(ExecuteUpdate(w, q, o).run.world, w.nextId)
  {
    hide Preflight, TryBlock, Rollback, AllSafe, Raising, Starts, LabelsMatch, World.UniqueNames, Revision;
    PreflightStarts(w, q, o);
    TryBlockIsSafe(w, q, o, Preflight(w, q, o).value);
  }

  // ---------------------------------------------------------------- instances

  /** An update that raises before it stops the original is reported as a failed rollback of an
      unchanged host when a rename to the present name is refused: so is every pull of the image that
      already runs, with no fault at all. */
  lemma EarlyRaiseReportsFailedRollback(w: World, q: Request, o: Oracle)
    requires w.Valid() && Preflight(w, q, o).Some? && !o.sameNameAccepted && o.errorText(RenameBack) != ""
    requires {RestoreTemplate, ReloadOriginal} !! o.faults
    requires var orig := Preflight(w, q, o).value;
             orig in w.containers && (!({Pull, GetImage, StopOriginal} !! o.faults)
               || o.targetId == w.containers[orig].imageId)
    ensures var out := ExecuteUpdate(w, q, o);
            out.RollbackFailed? && !out.ReportsRollback() && SameHost(w, out.run.world)
  {
    hide Preflight, TryBlock, Rollback, ExecuteUpdate, GetsHealthy, LabelsMatch, World.NameTaken, SameHost,
         Request.RollbackName;
    FailsUnchangedExactly(w, q, o);
    RollbackEndsExactly(w, q, o);
  }

  /** A refused first rename stops the service: the original stays stopped under its own name, because
      the exception path can not rename it to the name it has. */
  lemma RefusedRenameIsOutage(w: World, q: Request, o: Oracle)
    requires w.Valid() && Preflight(w, q, o).Some? && !o.sameNameAccepted
    requires var orig := Preflight(w, q, o).value;
             && orig in w.containers && o.targetId != w.containers[orig].imageId
             && {Pull, GetImage, StopOriginal} !! o.faults && (RenameAway in o.faults || w.NameTaken(q.RollbackName()))
    ensures var out := ExecuteUpdate(w, q, o);
            && out.RollbackFailed?
            && !LiveIn(out.run.world, Preflight(w, q, o).value) && !LiveIn(out.run.world, w.nextId)
  {
    hide Preflight, TryBlock, Rollback, ExecuteUpdate, GetsHealthy, LabelsMatch, World.NameTaken, Request.RollbackName;
    NothingRunsExactly(w, q, o);
    RollbackEndsExactly(w, q, o);
    HowItEnds(w, q, o);
  }

  /** If the refusal has an empty text, the caller is even told that the rollback succeeded. */
  lemma BlankMessageHidesOutage(w: World, q: Request, o: Oracle)
    requires w.Valid() && Preflight(w, q, o).Some? && !o.sameNameAccepted && o.errorText(RenameBack) == ""
    requires {RestoreTemplate, ReloadOriginal} !! o.faults
    requires var orig := Preflight(w, q, o).value;
             && orig in w.containers && o.targetId != w.containers[orig].imageId
             && {Pull, GetImage, StopOriginal} !! o.faults && (RenameAway in o.faults || w.NameTaken(q.RollbackName()))
    ensures var out := ExecuteUpdate(w, q, o);
            && out.ReportsRollback()
            && !LiveIn(out.run.world, Preflight(w, q, o).value) && !LiveIn(out.run.world, w.nextId)
  {
    hide Preflight, TryBlock, Rollback, ExecuteUpdate, GetsHealthy, LabelsMatch, World.NameTaken, Request.RollbackName,
         LiveIn;
    RefusedRenameIsOutage(w, q, o);
    RollbackEndsExactly(w, q, o);
  }

  // ---------------------------------------------------------------- the orphan

  /** The orphan: when fetching the container just created fails, the replacement was never bound, so
      the exception path leaves it holding the name and cannot rename the original back, even though
      nothing else fails. Nothing is left running. */
  lemma OrphanBlocksRollback(w: World, q: Request, o: Oracle)
    requires w.Valid() && Preflight(w, q, o).Some? && o.faults == {GetCreated}
    requires var orig := Preflight(w, q, o).value;
             orig in w.containers && CanReturn(w, q, o.(faults := {}), orig)
    ensures var out := ExecuteUpdate(w, q, o);
            var orig := Preflight(w, q, o).value;
            && out.RollbackFailed? && (out.ReportsRollback() <==> o.errorText(RenameBack) == "")
            && Orphaned(w, q, orig, out.run.world)
            && out.run.world.template == w.template
  {
    hide Preflight, ExecuteUpdate, TryBlock, Rollback, Orphaned, CanReturn, Starts, Revision, LabelsMatch;
    OutcomeAfterTry(w, q, o);
    PreflightStarts(w, q, o);
    var orig := Preflight(w, q, o).value;
    OrphanMade(w, q, o, orig);
    OrphanStays(w, q, o, orig, TryBlock(w, q, o, orig).run);
  }

  /** The original stopped under its rollback name beside a replacement that was never started. */
  ghost predicate Orphaned(w0: World, q: Request, orig: Id, w: World) {
    && orig in w.containers && !w.containers[orig].Live()
    && w.containers[orig].name == q.name + ".updater-rollback-" + q.stamp
    && w0.nextId in w.containers && !w.containers[w0.nextId].Live() && w.containers[w0.nextId].name == q.name
  }

  lemma RollbackNames(q: Request)
    ensures q.RollbackName() == q.name + ".updater-rollback-" + q.stamp
  {
  }

  lemma OrphanMade(w: World, q: Request, o: Oracle, orig: Id)
    requires Starts(w, q, orig) && q.target != "" && '<' !in q.target && '>' !in q.target
    requires orig in w.containers && o.faults == {GetCreated} && CanReturn(w, q, o.(faults := {}), orig)
    ensures var s := TryBlock(w, q, o, orig);
            s.Raised? && s.run.created.None? && Orphaned(w, q, orig, s.run.world)
  {
    hide LabelsMatch, GetsHealthy, Starts, MoveAside, MovedAside, Request.RollbackName, World.NameTaken;
    RollbackNames(q);
    MoveAsideDoneIff(w, q, o, orig);
    MoveAsideIsSafe(w, q, o, orig);
    var aside := MoveAside(Run(w, None, [w]), q, o, orig);
    assert aside.run.created.None? by { PreparingIsUnbound(w, q, o, orig, aside.run); }
    MovedAsideFreesName(w, q, orig, aside.run.world);
    MovedAsideOpens(w, q, orig, aside.run.world);
  }

  lemma OrphanStays(w: World, q: Request, o: Oracle, orig: Id, r: Run)
    requires o.faults == {GetCreated} && r.created.None? && Orphaned(w, q, orig, r.world)
    ensures var s := Rollback(r, q, o, orig, w.template);
            && s.Raised? && s.error == o.Failure(RenameBack)
            && s.run.world == r.world.(template := w.template)
            && Orphaned(w, q, orig, s.run.world)
  {
    hide Request.RollbackName, World.NameTaken, Restart;
    RollbackNameDiffers(q);
    OrphanHoldsName(w, q, orig, r.world.(template := w.template));
  }

  lemma OrphanHoldsName(w0: World, q: Request, orig: Id, w: World)
    requires Orphaned(w0, q, orig, w)
    ensures w.NameTaken(q.name)
  {
    assert w.containers[w0.nextId].name == q.name;
  }

  /** The messages the transaction writes itself are never empty, so that only a library's exception can
      make a failed rollback read like a succeeded one. */
  lemma OwnMessagesHaveTexts(e: Error)
    ensures e.Text() == "" ==> e == FromCall("")
  {
  }
}
