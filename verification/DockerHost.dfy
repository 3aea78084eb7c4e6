/** `execute_update` as it runs: each call changes the host in place, a raising call ends the `try`
    body, and the exception path runs on whatever is left. Its specification is
    `DockerUpdate.ExecuteUpdate`. */
module DockerHost {
  import opened Strings
  import opened VnextPolicy
  import opened DockerWorld
  import opened DockerUpdate
  import opened DockerTheorems
  import DockerFailures

  /** How a call ended. */
  datatype Signal = Fine | Exception(error: Error)
  {
    predicate IsFailure() { Exception? }
    function PropagateFailure(): Signal requires Exception? { this }
  }

  function SignalOf(s: Step): Signal {
    if s.Done? then Fine else Exception(s.error)
  }

  datatype Ending = Refused | Succeeded | RollbackSucceeded | RollbackUnsuccessful

  function EndingOf(out: Outcome): Ending {
    match out
    case Blocked => Refused
    case Returned(_) => Succeeded
    case RolledBack(_) => RollbackSucceeded
    case RollbackFailed(_, _) => if out.ReportsRollback() then RollbackSucceeded else RollbackUnsuccessful
  }

  /** What the caller of the transaction may rely on, in terms of the host before and after it. */
  ghost predicate Kept(w0: World, q: Request, o: Oracle, ending: Ending, w: World, trace: seq<World>) {
    match Preflight(w0, q, o)
    case None => ending.Refused? && w == w0
    case Some(orig) =>
      && !ending.Refused?
      && (forall i :: 0 <= i < |trace| ==> Safe(w0, q, o, orig, trace[i])) && trace != [] && trace[|trace| - 1] == w
      && (ending.Succeeded? ==> Replaced(w0, q, o, orig, w))
      && (ending.Succeeded? && PlainDigests(w0, o) && PlainHash(o.hash) ==>
            w0.nextId in w.containers && Revision(w.containers[w0.nextId], w.template, o.hash) != q.expectedRevision)
      && (ending.RollbackSucceeded? && (forall call :: o.errorText(call) != "") ==>
            && PutBack(w0, orig, w)
            && Revision(w.containers[orig], w.template, o.hash) == q.expectedRevision)
  }

  lemma SpecificationKeeps(w: World, q: Request, o: Oracle)
    requires w.Valid()
    ensures var out := ExecuteUpdate(w, q, o);
            if out.Blocked? then Kept(w, q, o, Refused, w, [w])
            else Kept(w, q, o, EndingOf(out), out.run.world, out.run.trace)
  {
    hide Preflight, TryBlock, Rollback, Revision, Safe, PutBack, Raising, Starts;
    var out := ExecuteUpdate(w, q, o);
    if !out.Blocked? {
      EveryInstantIsSafe(w, q, o);
      if out.Returned? {
        PreflightStarts(w, q, o);
        TryBlockIsSafe(w, q, o, Preflight(w, q, o).value);
        if PlainDigests(w, o) && PlainHash(o.hash) {
          ReturnIsHonest(w, q, o);
        }
      } else if out.RolledBack? {
        RolledBackIsHonest(w, q, o);
      } else if forall call :: o.errorText(call) != "" {
        SpokenErrorIsNoSuccess(w, q, o);
      }
    }
  }

  lemma SpokenErrorIsNoSuccess(w: World, q: Request, o: Oracle)
    requires w.Valid() && ExecuteUpdate(w, q, o).RollbackFailed? && forall call :: o.errorText(call) != ""
    ensures !ExecuteUpdate(w, q, o).ReportsRollback()
  {
    hide ExecuteUpdate, Preflight, CanReturn, DockerFailures.StageOf, DockerFailures.FirstStop;
    FailedPassedChecks(w, q, o);
    DockerFailures.RollbackEndsExactly(w, q, o);
  }

  lemma FailedPassedChecks(w: World, q: Request, o: Oracle)
    requires ExecuteUpdate(w, q, o).RollbackFailed?
    ensures Preflight(w, q, o).Some?
  {
    hide Preflight, TryBlock, Rollback;
  }

  class Host {
    var containers: map<Id, Container>
    var template: Template
    var nextId: Id
    ghost var trace: seq<World>   // every state the host has been in

    ghost function State(): World
      reads this
    {
      World(containers, template, nextId)
    }

    /** The run so far, given the local variable `created` of the transaction. */
    ghost function Now(created: Option<Id>): Run
      reads this
    {
      Run(State(), created, trace)
    }

    method Call(o: Oracle, call: Call, ghost created: Option<Id>) returns (s: Signal)
      ensures s == SignalOf(Ask(Now(created), o, call))
    {
      s := if call in o.faults then Exception(o.Failure(call)) else Fine;
    }

    method AlterContainer(o: Oracle, call: Call, id: Id, f: Container -> Container, ghost created: Option<Id>)
      returns (s: Signal)
      modifies this
      ensures s == SignalOf(Alter(old(Now(created)), o, call, id, f))
      ensures Now(created) == Alter(old(Now(created)), o, call, id, f).run
    {
      if call in o.faults || id !in containers {
        return Exception(o.Failure(call));
      }
      containers := containers[id := f(containers[id])];
      trace := trace + [State()];
      return Fine;
    }

    method RenameContainer(o: Oracle, call: Call, id: Id, name: string, ghost created: Option<Id>) returns (s: Signal)
      modifies this
      ensures s == SignalOf(Rename(old(Now(created)), o, call, id, name))
      ensures Now(created) == Rename(old(Now(created)), o, call, id, name).run
    {
      if call in o.faults || id !in containers {
        return Exception(o.Failure(call));
      }
      if containers[id].name == name {
        return if o.sameNameAccepted then Fine else Exception(o.Failure(call));
      }
      if exists other :: other in containers && containers[other].name == name {
        return Exception(o.Failure(call));
      }
      containers := containers[id := containers[id].(name := name)];
      trace := trace + [State()];
      return Fine;
    }

    method RemoveContainer(o: Oracle, call: Call, id: Id, ghost created: Option<Id>) returns (s: Signal)
      modifies this
      ensures s == SignalOf(Remove(old(Now(created)), o, call, id))
      ensures Now(created) == Remove(old(Now(created)), o, call, id).run
    {
      if call in o.faults || id !in containers {
        return Exception(o.Failure(call));
      }
      containers := containers - {id};
      trace := trace + [State()];
      return Fine;
    }

    method ReplaceTemplateRepository(o: Oracle, repository: string, ghost created: Option<Id>) returns (s: Signal)
      modifies this
      ensures s == SignalOf(Rewrite(old(Now(created)), o, repository))
      ensures Now(created) == Rewrite(old(Now(created)), o, repository).run
    {
      if WriteTemplate in o.faults || |template.repositories| != 1 || repository == "" || '<' in repository
        || '>' in repository {
        return Exception(o.Failure(WriteTemplate));
      }
      template := template.(repositories := [repository], layout := o.layout);
      trace := trace + [State()];
      return Fine;
    }

    method RestoreTemplateFile(o: Oracle, backup: Template, ghost created: Option<Id>) returns (s: Signal)
      modifies this
      ensures s == SignalOf(Restore(old(Now(created)), o, backup))
      ensures Now(created) == Restore(old(Now(created)), o, backup).run
    {
      if RestoreTemplate in o.faults {
        return Exception(o.Failure(RestoreTemplate));
      }
      template := backup;
      trace := trace + [State()];
      return Fine;
    }

    method CreateFromConfig(o: Oracle, name: string, image: string, ghost created: Option<Id>) returns (s: Signal)
      modifies this
      ensures s == SignalOf(CreateContainer(old(Now(created)), o, name, image))
      ensures Now(created) == CreateContainer(old(Now(created)), o, name, image).run
    {
      if Create in o.faults || exists other :: other in containers && containers[other].name == name {
        return Exception(o.Failure(Create));
      }
      containers := containers[nextId :=
        Container(name, image, o.createdImageId, o.createdLabels, Created, o.createdHealth)];
      nextId := nextId + 1;
      trace := trace + [State()];
      return Fine;
    }

    /** The bounded health poll. */
    method AwaitHealthy(o: Oracle, id: Id, ghost created: Option<Id>) returns (s: Signal)
      modifies this
      ensures s == SignalOf(PollHealth(old(Now(created)), o, id, 0))
      ensures Now(created) == PollHealth(old(Now(created)), o, id, 0).run
    {
      var turn := 0;
      while turn < MAX_POLLS
        invariant 0 <= turn <= MAX_POLLS
        invariant PollHealth(old(Now(created)), o, id, 0) == PollHealth(Now(created), o, id, turn)
      {
        :- AlterContainer(o, Poll(turn), id, (c: Container) => c.Observed(o.polls(turn)), created);
        if containers[id].Healthy() {
          return Fine;
        }
        turn := turn + 1;
      }
      return Exception(NeverHealthy);
    }

    /** The `try` body up to the rewritten template. */
    method Prepare(q: Request, o: Oracle, orig: Id) returns (s: Signal)
      modifies this
      ensures s == SignalOf(MoveAside(old(Now(None)), q, o, orig))
      ensures Now(None) == MoveAside(old(Now(None)), q, o, orig).run
    {
      hide Alter, Rename, Rewrite, Request.RollbackName;
      :- Call(o, Pull, None);
      :- Call(o, GetImage, None);
      if orig !in containers || o.targetId == containers[orig].imageId {
        return Exception(SameImage);
      }
      :- AlterContainer(o, StopOriginal, orig, Stopped, None);
      :- RenameContainer(o, RenameAway, orig, q.RollbackName(), None);
      s := ReplaceTemplateRepository(o, q.target, None);
    }

    /** The `try` body from the creation of the replacement to its verification. */
    method Deploy(q: Request, o: Oracle, id: Id, desired: Labels) returns (s: Signal, created: Option<Id>)
      modifies this
      ensures s == SignalOf(Replace(old(Now(None)), q, o, id, desired))
      ensures Now(created) == Replace(old(Now(None)), q, o, id, desired).run
    {
      hide Alter, CreateContainer, PollHealth, LabelsMatch;
      created := None;
      :- CreateFromConfig(o, q.name, q.target, None);
      :- Call(o, GetCreated, None);
      created := Some(id);
      :- Call(o, ReloadCreated, created);
      if id !in containers || !LabelsMatch(desired, containers[id].labels) {
        return Exception(LabelsDiffer), created;
      }
      :- AlterContainer(o, StartCreated, id, Started, created);
      :- AwaitHealthy(o, id, created);
      s := if id in containers && containers[id].imageId == o.targetId then Fine else Exception(WrongImage);
    }

    method RunRollback(q: Request, o: Oracle, orig: Id, backup: Template, created: Option<Id>) returns (s: Signal)
      modifies this
      ensures s == SignalOf(Rollback(old(Now(created)), q, o, orig, backup))
      ensures Now(created) == Rollback(old(Now(created)), q, o, orig, backup).run
    {
      hide Alter, Rename, Remove, Restore;
      if created.Some? {
        :- RemoveContainer(o, RemoveCreated, created.value, created);
      }
      :- RestoreTemplateFile(o, backup, created);
      :- Call(o, ReloadOriginal, created);
      :- RenameContainer(o, RenameBack, orig, q.name, created);
      :- AlterContainer(o, StartOriginal, orig, Started, created);
      :- AlterContainer(o, ReloadStarted, orig, (c: Container) => c.Observed(o.original), created);
      s := if orig in containers && containers[orig].Healthy() then Fine else Exception(OriginalUnhealthy);
    }

    /** The checks before any mutation. */
    method Check(q: Request, o: Oracle) returns (orig: Option<Id>)
      requires State().Valid()
      ensures orig == Preflight(State(), q, o)
    {
      hide Revision, LabelsMatch, RepositoryOf, ValidName;
      if !ValidName(q.name) || !ValidName(q.selfName) || q.name == q.selfName {
        return None;
      }
      if q.target == "" || exists c :: c in q.target && c in "\r\n<>" {
        return None;
      }
      if Inspect in o.faults || !o.templateFound || !(exists id :: id in containers && containers[id].name == q.name) {
        return None;
      }
      var id :| id in containers && containers[id].name == q.name;
      assert State().Find(q.name) == Some(id);
      var c := containers[id];
      if RepositoryOf(template) != Some(c.image) || !c.status.Running?
        || Revision(c, template, o.hash) != q.expectedRevision {
        return None;
      }
      if q.target == c.image || !({LABEL_VERSION, LABEL_POLICY, LABEL_RESEARCH} <= template.labels.Keys) {
        return None;
      }
      if GetOriginal in o.faults || !LabelsMatch(template.labels, c.labels) || Backup in o.faults {
        return None;
      }
      return Some(id);
    }

    method Update(q: Request, o: Oracle) returns (ending: Ending)
      requires State().Valid() && trace == [State()]
      modifies this
      ensures var out := ExecuteUpdate(old(State()), q, o);
              && ending == EndingOf(out)
              && (out.Blocked? ==> State() == old(State()) && trace == old(trace))
              && (!out.Blocked? ==> State() == out.run.world && trace == out.run.trace)
      ensures Kept(old(State()), q, o, ending, State(), trace)
    {
      hide Preflight, MoveAside, Replace, Rollback, Remove, Kept;
      ghost var w := State();
      SpecificationKeeps(w, q, o);
      var found := Check(q, o);
      if found.None? {
        return Refused;
      }
      var orig, backup, id := found.value, template, nextId;
      var created: Option<Id> := None;
      var signal := Prepare(q, o, orig);
      if signal.Fine? {
        signal, created := Deploy(q, o, id, backup.labels);
        if signal.Fine? {
          signal := RemoveContainer(o, RemoveOriginal, orig, created);
          if signal.Fine? {
            return Succeeded;
          }
        }
      }
      assert TryBlock(w, q, o, orig) == Raised(Now(created), signal.error);
      signal := RunRollback(q, o, orig, backup, created);
      if signal.Fine? || signal.error.Text() == "" {
        return RollbackSucceeded;
      }
      return RollbackUnsuccessful;
    }
  }
}
