/** A harsher daemon than the one of `DockerWorld`: a call may take effect and raise all the same, as
    when its response is lost (src/unraid_updater/docker_runtime.py). The claim that one of the two
    containers always exists depends on this not happening to one call. */
module LostResponses {
  import opened Strings
  import opened VnextPolicy
  import opened DockerWorld
  import opened DockerUpdate
  import opened DockerTheorems

  /** A step whose effect stands although its response is lost. */
  function Lossy(s: Step, o: Oracle, lost: set<Call>, call: Call): Step {
    if s.Done? && call in lost then Raised(s.run, o.Failure(call)) else s
  }

  ghost function LossyMoveAside(r: Run, q: Request, o: Oracle, lost: set<Call>, orig: Id): Step {
    var pulled :- Ask(r, o, Pull);
    var found :- Ask(pulled, o, GetImage);
    var newer :- Guard(orig in found.world.containers
      && o.targetId != found.world.containers[orig].imageId, found, SameImage);
    var stopped :- Lossy(Alter(newer, o, StopOriginal, orig, Stopped), o, lost, StopOriginal);
    var renamed :- Lossy(Rename(stopped, o, RenameAway, orig, q.RollbackName()), o, lost, RenameAway);
    Rewrite(renamed, o, q.target)
  }

  ghost function LossyReplace(r: Run, q: Request, o: Oracle, lost: set<Call>, id: Id, desired: Labels): Step {
    var made :- Lossy(CreateContainer(r, o, q.name, q.target), o, lost, Create);
    var bound :- Bind(made, o, id);
    var loaded :- Ask(bound, o, ReloadCreated);
    var matched :- Guard(id in loaded.world.containers && LabelsMatch(desired, loaded.world.containers[id].labels),
                         loaded, LabelsDiffer);
    var started :- Lossy(Alter(matched, o, StartCreated, id, Started), o, lost, StartCreated);
    var healthy :- PollHealth(started, o, id, 0);
    Guard(id in healthy.world.containers && healthy.world.containers[id].imageId == o.targetId, healthy, WrongImage)
  }

  ghost function LossyTry(w: World, q: Request, o: Oracle, lost: set<Call>, orig: Id): Step {
    var aside :- LossyMoveAside(Run(w, None, [w]), q, o, lost, orig);
    var replaced :- LossyReplace(aside, q, o, lost, w.nextId, w.template.labels);
    Lossy(Remove(replaced, o, RemoveOriginal, orig), o, lost, RemoveOriginal)
  }

  ghost function LossyRollback(r: Run, q: Request, o: Oracle, lost: set<Call>, orig: Id, backup: Template): Step {
    var cleared :- Lossy(Cleared(r, o), o, if r.created.Some? then lost else {}, RemoveCreated);
    var restored :- Restore(cleared, o, backup);
    var loaded :- Ask(restored, o, ReloadOriginal);
    var present :- Guard(orig in loaded.world.containers, loaded, o.Failure(ReloadOriginal));
    var renamed :- Lossy(Rename(present, o, RenameBack, orig, q.name), o, lost, RenameBack);
    var started :- Lossy(Alter(renamed, o, StartOriginal, orig, Started), o, lost, StartOriginal);
    var seen :- Alter(started, o, ReloadStarted, orig, (c: Container) => c.Observed(o.original));
    Guard(orig in seen.world.containers && seen.world.containers[orig].Healthy(), seen, OriginalUnhealthy)
  }

  /** The host after the transaction. */
  ghost function LossyEnd(w: World, q: Request, o: Oracle, lost: set<Call>, orig: Id): World {
    var s := LossyTry(w, q, o, lost, orig);
    if s.Done? then s.run.world else LossyRollback(s.run, q, o, lost, orig, w.template).run.world
  }

  // ---------------------------------------------------------------- without lost responses

  lemma MoveAsideLosesNothing(r: Run, q: Request, o: Oracle, lost: set<Call>, orig: Id)
    ensures var s := LossyMoveAside(r, q, o, lost, orig);
            && (s.Done? <==> MoveAside(r, q, o, orig).Done? && {StopOriginal, RenameAway} !! lost)
            && ({StopOriginal, RenameAway} !! lost ==> s == MoveAside(r, q, o, orig))
  {
    hide Alter, Rename, Request.RollbackName;
  }

  lemma ReplaceLosesNothing(r: Run, q: Request, o: Oracle, lost: set<Call>, id: Id, desired: Labels)
    ensures var s := LossyReplace(r, q, o, lost, id, desired);
            && (s.Done? <==> Replace(r, q, o, id, desired).Done? && {Create, StartCreated} !! lost)
            && ({Create, StartCreated} !! lost ==> s == Replace(r, q, o, id, desired))
  {
    hide Alter, CreateContainer, PollHealth, LabelsMatch;
  }

  /** With every response arriving, this is the transaction of `DockerUpdate`. */
  lemma NothingLost(w: World, q: Request, o: Oracle, orig: Id)
    ensures LossyTry(w, q, o, {}, orig) == TryBlock(w, q, o, orig)
    ensures forall r: Run :: orig in r.world.containers && r.created != Some(orig) ==>
              LossyRollback(r, q, o, {}, orig, w.template) == Rollback(r, q, o, orig, w.template)
  {
    hide MoveAside, LossyMoveAside, Replace, LossyReplace, Remove;
    MoveAsideLosesNothing(Run(w, None, [w]), q, o, {}, orig);
    var aside := MoveAside(Run(w, None, [w]), q, o, orig);
    if aside.Done? {
      ReplaceLosesNothing(aside.run, q, o, {}, w.nextId, w.template.labels);
    }
    forall r: Run | orig in r.world.containers && r.created != Some(orig)
      ensures LossyRollback(r, q, o, {}, orig, w.template) == Rollback(r, q, o, orig, w.template)
    {
      SameRollback(r, q, o, orig, w.template);
    }
  }

  lemma SameRollback(r: Run, q: Request, o: Oracle, orig: Id, backup: Template)
    requires orig in r.world.containers && r.created != Some(orig)
    ensures LossyRollback(r, q, o, {}, orig, backup) == Rollback(r, q, o, orig, backup)
  {
    hide Rename, Alter;
  }

  // ---------------------------------------------------------------- which containers exist

  /** Moving aside neither removes nor makes a container. */
  lemma MoveAsideKeeps(r: Run, q: Request, o: Oracle, lost: set<Call>, orig: Id)
    ensures var s := LossyMoveAside(r, q, o, lost, orig);
            && s.run.created == r.created && s.run.world.nextId == r.world.nextId
            && s.run.world.containers.Keys == r.world.containers.Keys
  {
    hide World.NameTaken, Request.RollbackName;
  }

  /** Replacing removes no container, and binds only the one it made. */
  lemma ReplaceKeeps(r: Run, q: Request, o: Oracle, lost: set<Call>, desired: Labels)
    requires r.created.None?
    ensures var id, s := r.world.nextId, LossyReplace(r, q, o, lost, r.world.nextId, desired);
            && r.world.containers.Keys <= s.run.world.containers.Keys
            && (s.run.created.Some? ==> s.run.created == Some(id) && id in s.run.world.containers)
            && (s.Done? ==> s.run.created.Some?)
  {
    hide LabelsMatch, World.NameTaken, PollHealth, Alter;
    var id := r.world.nextId;
    AlterKeepsKeys(o, StartCreated, id, Started);
    PollKeeps(o, id);
  }

  lemma AlterKeepsKeys(o: Oracle, call: Call, id: Id, f: Container -> Container)
    ensures forall r: Run :: Alter(r, o, call, id, f).run.created == r.created
                             && Alter(r, o, call, id, f).run.world.containers.Keys == r.world.containers.Keys
  {
    forall r: Run ensures Alter(r, o, call, id, f).run.created == r.created
                          && Alter(r, o, call, id, f).run.world.containers.Keys == r.world.containers.Keys
    {
      if id in r.world.containers {
        assert r.world.containers[id := f(r.world.containers[id])].Keys == r.world.containers.Keys;
      }
    }
  }

  lemma PollKeeps(o: Oracle, id: Id)
    ensures forall r: Run :: PollHealth(r, o, id, 0).run.created == r.created
                             && PollHealth(r, o, id, 0).run.world.containers.Keys == r.world.containers.Keys
  {
    forall r: Run ensures PollHealth(r, o, id, 0).run.created == r.created
                          && PollHealth(r, o, id, 0).run.world.containers.Keys == r.world.containers.Keys
    {
      PollKeepsKeys(r, o, id, 0);
    }
  }

  lemma {:induction false} PollKeepsKeys(r: Run, o: Oracle, id: Id, turn: nat)
    ensures PollHealth(r, o, id, turn).run.created == r.created
    ensures PollHealth(r, o, id, turn).run.world.containers.Keys == r.world.containers.Keys
    decreases MAX_POLLS - turn
  {
    if turn < MAX_POLLS {
      var seen := Alter(r, o, Poll(turn), id, (c: Container) => c.Observed(o.polls(turn)));
      if seen.Done? && !seen.run.world.containers[id].Healthy() {
        PollKeepsKeys(seen.run, o, id, turn + 1);
      }
    }
  }

  /** The exception path removes the bound replacement, unless that call fails, and nothing else. */
  lemma RollbackRemoves(r: Run, q: Request, o: Oracle, lost: set<Call>, orig: Id, backup: Template)
    requires r.created.Some? ==> r.created.value in r.world.containers
    ensures var v := LossyRollback(r, q, o, lost, orig, backup).run.world;
            v.containers.Keys == r.world.containers.Keys
                                 - if r.created.Some? && RemoveCreated !in o.faults then {r.created.value} else {}
    ensures orig !in r.world.containers ==> LossyRollback(r, q, o, lost, orig, backup).Raised?
  {
    hide World.NameTaken, Alter;
    AlterKeepsKeys(o, StartOriginal, orig, Started);
    AlterKeepsKeys(o, ReloadStarted, orig, (c: Container) => c.Observed(o.original));
    RenameKeepsKeys(o, RenameBack, orig, q.name);
  }

  lemma RenameKeepsKeys(o: Oracle, call: Call, id: Id, name: string)
    ensures forall r: Run :: Rename(r, o, call, id, name).run.created == r.created
                             && Rename(r, o, call, id, name).run.world.containers.Keys == r.world.containers.Keys
  {
    hide World.NameTaken;
    forall r: Run ensures Rename(r, o, call, id, name).run.created == r.created
                          && Rename(r, o, call, id, name).run.world.containers.Keys == r.world.containers.Keys
    {
      if id in r.world.containers {
        assert r.world.containers[id := r.world.containers[id].(name := name)].Keys == r.world.containers.Keys;
      }
    }
  }

  /** Neither the original nor a replacement exists any more exactly when everything else worked, the
      removal of the original took effect but raised, and the replacement was then removed. */
  lemma NeitherExistsExactly(w: World, q: Request, o: Oracle, lost: set<Call>)
    requires w.Valid() && Preflight(w, q, o).Some?
    ensures var orig := Preflight(w, q, o).value;
            && orig in w.containers
            && var v := LossyEnd(w, q, o, lost, orig);
               orig !in v.containers && w.nextId !in v.containers <==>
               && CanReturn(w, q, o, orig) && {StopOriginal, RenameAway, Create, StartCreated} !! lost
               && RemoveOriginal in lost && RemoveCreated !in o.faults
  {
    hide Preflight, CanReturn, MoveAside, Replace, LossyMoveAside, LossyReplace, LossyRollback, Starts;
    PreflightStarts(w, q, o);
    var orig := Preflight(w, q, o).value;
    StartsHasOriginal(w, q, orig);
    StartsBelowNext(w, q, orig);
    ReturnsExactlyWhen(w, q, o);
    var start := Run(w, None, [w]);
    MoveAsideLosesNothing(start, q, o, lost, orig);
    MoveAsideKeeps(start, q, o, lost, orig);
    var s := LossyTry(w, q, o, lost, orig);
    var aside := LossyMoveAside(start, q, o, lost, orig);
    if aside.Done? {
      ReplaceLosesNothing(aside.run, q, o, lost, w.nextId, w.template.labels);
      ReplaceKeeps(aside.run, q, o, lost, w.template.labels);
    }
    if s.Raised? {
      RollbackRemoves(s.run, q, o, lost, orig, w.template);
    }
  }

  // ---------------------------------------------------------------- never both at once

  /** The container is gone or does not run. */
  predicate Quiet(id: Id, w: World) {
    id in w.containers ==> !w.containers[id].Working()
  }

  /** At no instant so far were both containers live. */
  ghost predicate NeverBoth(a: Id, b: Id, r: Run) {
    && (Quiet(a, r.world) || Quiet(b, r.world))
    && forall i :: 0 <= i < |r.trace| ==> Quiet(a, r.trace[i]) || Quiet(b, r.trace[i])
  }

  /** What the try body keeps: the replacement can be live only while `created` names it and the
      original does not run. */
  ghost predicate OneAtATime(orig: Id, repl: Id, r: Run) {
    && orig != repl && NeverBoth(orig, repl, r)
    && (r.created.None? || r.created == Some(repl))
    && (r.created.None? ==> Quiet(repl, r.world))
  }

  lemma CommitNeverBoth(a: Id, b: Id, r: Run, w: World)
    requires NeverBoth(a, b, r) && (Quiet(a, w) || Quiet(b, w))
    ensures NeverBoth(a, b, r.Commit(w))
  {
  }

  lemma AlterNeverBoth(a: Id, b: Id, r: Run, o: Oracle, call: Call, id: Id, f: Container -> Container)
    requires NeverBoth(a, b, r) && a != b
    requires (id == b && Quiet(a, r.world)) || (id == a && Quiet(b, r.world))
    ensures var s := Alter(r, o, call, id, f);
            && NeverBoth(a, b, s.run) && s.run.created == r.created
            && (if id == b then Quiet(a, s.run.world) else Quiet(b, s.run.world))
            && s.run.world.containers.Keys == r.world.containers.Keys
  {
    hide NeverBoth, Container.Live;
    AlterKeepsKeys(o, call, id, f);
    var s := Alter(r, o, call, id, f);
    if s.Done? {
      CommitNeverBoth(a, b, r, s.run.world);
    }
  }

  lemma RenameNeverBoth(a: Id, b: Id, r: Run, o: Oracle, call: Call, id: Id, name: string)
    requires NeverBoth(a, b, r)
    ensures var s := Rename(r, o, call, id, name);
            && NeverBoth(a, b, s.run) && s.run.created == r.created
            && (Quiet(a, r.world) ==> Quiet(a, s.run.world)) && (Quiet(b, r.world) ==> Quiet(b, s.run.world))
  {
    hide World.NameTaken;
    var s := Rename(r, o, call, id, name);
    if s.run != r {
      CommitNeverBoth(a, b, r, s.run.world);
    }
  }

  lemma TemplateNeverBoth(a: Id, b: Id, r: Run, t: Template)
    requires NeverBoth(a, b, r)
    ensures NeverBoth(a, b, r.Commit(r.world.(template := t)))
  {
    CommitNeverBoth(a, b, r, r.world.(template := t));
  }

  lemma MoveAsideOneAtATime(r: Run, q: Request, o: Oracle, lost: set<Call>, orig: Id, repl: Id)
    requires OneAtATime(orig, repl, r) && r.created.None?
    ensures var s := LossyMoveAside(r, q, o, lost, orig);
            OneAtATime(orig, repl, s.run) && (s.Done? ==> Quiet(orig, s.run.world))
  {
    hide NeverBoth, Rename, Request.RollbackName;
    if {Pull, GetImage} !! o.faults && orig in r.world.containers && o.targetId != r.world.containers[orig].imageId {
      AlterNeverBoth(orig, repl, r, o, StopOriginal, orig, Stopped);
      var stopped := Alter(r, o, StopOriginal, orig, Stopped);
      if stopped.Done? && StopOriginal !in lost {
        RenameNeverBoth(orig, repl, stopped.run, o, RenameAway, orig, q.RollbackName());
        var renamed := Rename(stopped.run, o, RenameAway, orig, q.RollbackName()).run;
        TemplateNeverBoth(orig, repl, renamed,
          renamed.world.template.(repositories := [q.target], layout := o.layout));
      }
    }
  }

  lemma {:induction false} PollNeverBoth(orig: Id, repl: Id, r: Run, o: Oracle, turn: nat)
    requires orig != repl && NeverBoth(orig, repl, r) && Quiet(orig, r.world)
    ensures var s := PollHealth(r, o, repl, turn);
            NeverBoth(orig, repl, s.run) && Quiet(orig, s.run.world) && s.run.created == r.created
    decreases MAX_POLLS - turn
  {
    hide NeverBoth, Quiet;
    if turn < MAX_POLLS {
      var look := (c: Container) => c.Observed(o.polls(turn));
      AlterNeverBoth(orig, repl, r, o, Poll(turn), repl, look);
      var seen := Alter(r, o, Poll(turn), repl, look);
      if seen.Done? && !seen.run.world.containers[repl].Healthy() {
        PollNeverBoth(orig, repl, seen.run, o, turn + 1);
      }
    }
  }

  lemma CreateNeverBoth(orig: Id, r: Run, q: Request, o: Oracle)
    requires var repl := r.world.nextId; orig != repl && NeverBoth(orig, repl, r) && Quiet(repl, r.world)
    requires Quiet(orig, r.world)
    ensures var repl, s := r.world.nextId, CreateContainer(r, o, q.name, q.target);
            && NeverBoth(orig, repl, s.run) && s.run.created == r.created
            && Quiet(repl, s.run.world) && Quiet(orig, s.run.world)
  {
    hide NeverBoth, World.NameTaken;
    var s := CreateContainer(r, o, q.name, q.target);
    if s.Done? {
      CommitNeverBoth(orig, r.world.nextId, r, s.run.world);
    }
  }

  lemma BindNeverBoth(orig: Id, repl: Id, r: Run)
    requires NeverBoth(orig, repl, r)
    ensures NeverBoth(orig, repl, r.(created := Some(repl)))
  {
  }

  lemma ReplaceOneAtATime(r: Run, q: Request, o: Oracle, lost: set<Call>, orig: Id, desired: Labels)
    requires OneAtATime(orig, r.world.nextId, r) && r.created.None? && Quiet(orig, r.world)
    ensures var s := LossyReplace(r, q, o, lost, r.world.nextId, desired);
            OneAtATime(orig, r.world.nextId, s.run) && Quiet(orig, s.run.world)
  {
    hide NeverBoth, Quiet, CreateContainer, LabelsMatch, Alter, PollHealth;
    var repl := r.world.nextId;
    CreateNeverBoth(orig, r, q, o);
    var made := CreateContainer(r, o, q.name, q.target);
    if made.Done? && Create !in lost && GetCreated !in o.faults {
      BindNeverBoth(orig, repl, made.run);
      var bound := made.run.(created := Some(repl));
      AlterNeverBoth(orig, repl, bound, o, StartCreated, repl, Started);
      var started := Alter(bound, o, StartCreated, repl, Started);
      PollNeverBoth(orig, repl, started.run, o, 0);
    }
  }

  lemma RemoveNeverBoth(a: Id, b: Id, r: Run, o: Oracle, call: Call, id: Id)
    requires NeverBoth(a, b, r)
    ensures var s := Remove(r, o, call, id);
            && NeverBoth(a, b, s.run) && s.run.created == r.created
            && (Quiet(a, r.world) ==> Quiet(a, s.run.world)) && (Quiet(b, r.world) ==> Quiet(b, s.run.world))
            && (s.Done? ==> Quiet(id, s.run.world))
  {
    hide Container.Live;
    var s := Remove(r, o, call, id);
    if s.Done? {
      CommitNeverBoth(a, b, r, s.run.world);
    }
  }

  lemma StartNeverBoth(orig: Id, w: World)
    requires w.nextId !in w.containers
    ensures NeverBoth(orig, w.nextId, Run(w, None, [w])) && Quiet(w.nextId, w)
  {
  }

  lemma TryOneAtATime(w: World, q: Request, o: Oracle, lost: set<Call>, orig: Id)
    requires orig != w.nextId && w.nextId !in w.containers
    ensures OneAtATime(orig, w.nextId, LossyTry(w, q, o, lost, orig).run)
  {
    hide NeverBoth, LossyMoveAside, LossyReplace, Remove;
    var start := Run(w, None, [w]);
    StartNeverBoth(orig, w);
    MoveAsideOneAtATime(start, q, o, lost, orig, w.nextId);
    MoveAsideKeeps(start, q, o, lost, orig);
    var aside := LossyMoveAside(start, q, o, lost, orig);
    if aside.Done? {
      ReplaceOneAtATime(aside.run, q, o, lost, orig, w.template.labels);
      var replaced := LossyReplace(aside.run, q, o, lost, w.nextId, w.template.labels);
      RemoveNeverBoth(orig, w.nextId, replaced.run, o, RemoveOriginal, orig);
    }
  }

  lemma RollbackNeverBoth(
    r: Run, q: Request, o: Oracle, lost: set<Call>, orig: Id, repl: Id, backup: Template)
    requires OneAtATime(orig, repl, r)
    ensures NeverBoth(orig, repl, LossyRollback(r, q, o, lost, orig, backup).run)
  {
    hide NeverBoth, Quiet, Rename, Alter, Remove;
    if r.created.Some? {
      RemoveNeverBoth(orig, repl, r, o, RemoveCreated, repl);
    }
    var cleared := Lossy(Cleared(r, o), o, if r.created.Some? then lost else {}, RemoveCreated);
    if cleared.Done? {
      TemplateNeverBoth(orig, repl, cleared.run, backup);
      var restored := Restore(cleared.run, o, backup).run;
      TemplateKeepsContainers(orig, repl, cleared.run, o, backup);
      RenameNeverBoth(orig, repl, restored, o, RenameBack, orig, q.name);
      var renamed := Rename(restored, o, RenameBack, orig, q.name).run;
      AlterNeverBoth(orig, repl, renamed, o, StartOriginal, orig, Started);
      var started := Alter(renamed, o, StartOriginal, orig, Started).run;
      AlterNeverBoth(orig, repl, started, o, ReloadStarted, orig, (c: Container) => c.Observed(o.original));
    }
  }

  lemma TemplateKeepsContainers(orig: Id, repl: Id, r: Run, o: Oracle, backup: Template)
    requires Quiet(repl, r.world)
    ensures Quiet(repl, Restore(r, o, backup).run.world)
  {
  }

  /** Whatever calls raise, with or without their effect: at no instant of the transaction are the
      original and its replacement both live. */
  lemma NeverBothLive(w: World, q: Request, o: Oracle, lost: set<Call>)
    requires w.Valid() && Preflight(w, q, o).Some?
    ensures var orig := Preflight(w, q, o).value;
            var s := LossyTry(w, q, o, lost, orig);
            && NeverBoth(orig, w.nextId, s.run)
            && NeverBoth(orig, w.nextId, LossyRollback(s.run, q, o, lost, orig, w.template).run)
  {
    hide Preflight, LossyTry, LossyRollback, NeverBoth;
    PreflightStarts(w, q, o);
    var orig := Preflight(w, q, o).value;
    StartsBelowNext(w, q, orig);
    TryOneAtATime(w, q, o, lost, orig);
    RollbackNeverBoth(LossyTry(w, q, o, lost, orig).run, q, o, lost, orig, w.nextId, w.template);
  }
}
