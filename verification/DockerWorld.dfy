/** The Docker host and dockerMan template as the guarded update sees them, and the runtime calls it
    makes (src/unraid_updater/docker_runtime.py). A call either takes effect or raises and changes
    nothing; which calls raise is the fault schedule of an `Oracle`. */
module DockerWorld {
  import opened Strings
  import opened VnextPolicy

  type Id = nat

  datatype Status = Created | Running | Paused | Restarting | Removing | Exited | Dead

  datatype Health = NoCheck | Starting | Passing | Unhealthy

  /** What an inspection of a container shows. */
  datatype Observation = Observation(status: Status, health: Health)
  {
    /** Its processes may be running. */
    predicate Live() {
      !status.Created? && !status.Exited? && !status.Dead?
    }

    /** What must never hold of the original and its replacement at once: processes that run or can run
        on by themselves. */
    predicate Working() {
      status in {Running, Paused, Restarting, Removing}
    }

    /** `_healthy`. */
    predicate Healthy() {
      status.Running? && !health.Starting? && !health.Unhealthy?
    }

    /** What the update promises of a container it leaves in charge: it runs, and its health check, if
        it has one, has passed. */
    predicate Fit() {
      this in {Observation(Running, NoCheck), Observation(Running, Passing)}
    }
  }

  datatype Container = Container(
    name: string, image: string, imageId: string, labels: Labels, status: Status, health: Health)
  {
    predicate Live() {
      Observation(status, health).Live()
    }

    predicate Working() {
      Observation(status, health).Working()
    }

    predicate Healthy() {
      Observation(status, health).Healthy()
    }

    predicate Fit() {
      Observation(status, health).Fit()
    }

    /** What a reload shows: a live container may have moved on by itself, a stopped one has not. */
    function Observed(seen: Observation): Container {
      if Live() then this.(status := seen.status, health := seen.health) else this
    }
  }

  /** A dockerMan template file: the texts of its `Repository` elements, its labels, and the layout
      of all its remaining bytes. */
  datatype Template = Template(repositories: seq<string>, labels: Labels, layout: string)

  datatype World = World(containers: map<Id, Container>, template: Template, nextId: Id)
  {
    ghost predicate UniqueNames() {
      forall a, b :: a in containers && b in containers && containers[a].name == containers[b].name ==> a == b
    }

    ghost predicate Valid() {
      UniqueNames() && forall id :: id in containers ==> id < nextId
    }

    ghost predicate NameTaken(name: string) {
      exists id :: id in containers && containers[id].name == name
    }

    ghost function Find(name: string): Option<Id> {
      if NameTaken(name) then
        var id :| id in containers && containers[id].name == name;
        Some(id)
      else None
    }

    function Put(id: Id, c: Container): World {
      this.(containers := containers[id := c])
    }
  }

  datatype Call =
    | Inspect | GetOriginal | Backup
    | Pull | GetImage | StopOriginal | RenameAway | WriteTemplate | Create | GetCreated | ReloadCreated
    | StartCreated | Poll(turn: nat) | RemoveOriginal
    | RemoveCreated | RestoreTemplate | ReloadOriginal | RenameBack | StartOriginal | ReloadStarted

  /** Everything the environment decides during one update. */
  datatype Oracle = Oracle(
    faults: set<Call>,
    templateFound: bool,              // exactly one template names the container
    hash: Template -> string,         // digest of the template's bytes
    targetId: string,                 // image id the pulled reference resolves to
    createdImageId: string,
    createdLabels: Labels,
    createdHealth: Health,            // of the replacement before it starts: whether it has a health check
    layout: string,                   // bytes around the rewritten Repository
    polls: nat -> Observation,        // what each health poll of the replacement finds
    original: Observation,            // what the final reload of the restarted original finds
    sameNameAccepted: bool,           // whether renaming a container to its own name is accepted
    errorText: Call -> string)        // message of the exception a call raises
  {
    function Failure(call: Call): Error {
      FromCall(errorText(call))
    }
  }

  /** An exception: raised by a call, with whatever message that has, or by the transaction itself. */
  datatype Error =
    | FromCall(text: string) | SameImage | LabelsDiffer | NeverHealthy | WrongImage | OriginalUnhealthy
  {
    function Text(): string {
      match this
      case FromCall(text) => text
      case SameImage => "registry target resolves to the already-running image"
      case LabelsDiffer => "recreated container policy labels do not match template"
      case NeverHealthy => "replacement did not become running/healthy within 60 seconds"
      case WrongImage => "replacement image identity does not match pulled target"
      case OriginalUnhealthy => "retained original did not return running/healthy"
    }
  }

  datatype Request = Request(name: string, target: string, expectedRevision: string, selfName: string, stamp: string)
  {
    function RollbackName(): string {
      name + ".updater-rollback-" + stamp
    }
  }

  /** The state of a run: the host, the local variable `created`, and every host state so far. */
  datatype Run = Run(world: World, created: Option<Id>, trace: seq<World>)
  {
    function Commit(w: World): Run {
      Run(w, created, trace + [w])
    }
  }

  /** A call that returned, or one that raised. */
  datatype Step = Done(run: Run) | Raised(run: Run, error: Error)
  {
    predicate IsFailure() { Raised? }
    function PropagateFailure(): Step requires Raised? { this }
    function Extract(): Run requires Done? { run }
  }

  function Guard(holds: bool, r: Run, error: Error): Step {
    if holds then Done(r) else Raised(r, error)
  }

  /** A call that only reads. */
  function Ask(r: Run, o: Oracle, call: Call): Step {
    Guard(call !in o.faults, r, o.Failure(call))
  }

  /** A call that changes one container, which it fails to find if it is gone. */
  function Alter(r: Run, o: Oracle, call: Call, id: Id, f: Container -> Container): Step {
    if call in o.faults || id !in r.world.containers then Raised(r, o.Failure(call))
    else Done(r.Commit(r.world.Put(id, f(r.world.containers[id]))))
  }

  function Stopped(c: Container): Container {
    c.(status := Exited)
  }

  /** Starting a live container changes nothing. A stopped one runs again; if it has a health check,
      that starts over. */
  function Started(c: Container): Container {
    if c.Live() then c
    else c.(status := Running, health := if c.health.NoCheck? then NoCheck else Starting)
  }

  /** Names are unique; renaming a container to its own name is up to the daemon. */
  ghost function Rename(r: Run, o: Oracle, call: Call, id: Id, name: string): Step {
    if call in o.faults || id !in r.world.containers then Raised(r, o.Failure(call))
    else if r.world.containers[id].name == name then Guard(o.sameNameAccepted, r, o.Failure(call))
    else if r.world.NameTaken(name) then Raised(r, o.Failure(call))
    else Done(r.Commit(r.world.Put(id, r.world.containers[id].(name := name))))
  }

  function Remove(r: Run, o: Oracle, call: Call, id: Id): Step {
    if call in o.faults || id !in r.world.containers then Raised(r, o.Failure(call))
    else Done(r.Commit(r.world.(containers := r.world.containers - {id})))
  }

  /** `replace_template_repository`. */
  function Rewrite(r: Run, o: Oracle, repository: string): Step {
    var t := r.world.template;
    if WriteTemplate in o.faults || |t.repositories| != 1 || repository == "" || '<' in repository || '>' in repository
    then Raised(r, o.Failure(WriteTemplate))
    else Done(r.Commit(r.world.(template := t.(repositories := [repository], layout := o.layout))))
  }

  function Restore(r: Run, o: Oracle, backup: Template): Step {
    if RestoreTemplate in o.faults then Raised(r, o.Failure(RestoreTemplate))
    else Done(r.Commit(r.world.(template := backup)))
  }

  /** `create_container_from_config`, under the given name. */
  ghost function CreateContainer(r: Run, o: Oracle, name: string, image: string): Step {
    if Create in o.faults || r.world.NameTaken(name) then Raised(r, o.Failure(Create))
    else
      var c := Container(name, image, o.createdImageId, o.createdLabels, Created, o.createdHealth);
      Done(r.Commit(r.world.Put(r.world.nextId, c).(nextId := r.world.nextId + 1)))
  }

  /** Fetching the container just created binds the local variable `created`. */
  function Bind(r: Run, o: Oracle, id: Id): Step {
    if GetCreated in o.faults then Raised(r, o.Failure(GetCreated)) else Done(r.(created := Some(id)))
  }

  const MAX_POLLS := 12

  /** Poll the replacement until it is healthy, at most twelve times. */
  function PollHealth(r: Run, o: Oracle, id: Id, turn: nat): Step
    decreases MAX_POLLS - turn
  {
    if turn >= MAX_POLLS then Raised(r, NeverHealthy)
    else
      var seen :- Alter(r, o, Poll(turn), id, (c: Container) => c.Observed(o.polls(turn)));
      if seen.world.containers[id].Healthy() then Done(seen) else PollHealth(seen, o, id, turn + 1)
  }

  // ---------------------------------------------------------------- evidence

  function StatusText(s: Status): string {
    match s
    case Created => "created" case Running => "running" case Paused => "paused" case Restarting => "restarting"
    case Removing => "removing" case Exited => "exited" case Dead => "dead"
  }

  /** The text whose digest is the live revision; the digest is taken as collision-free. */
  function Basis(name: string, state: string, image: string, imageId: string, templateHash: string): string {
    (name + "|" + state + "|" + image) + "|" + imageId + "|" + templateHash
  }

  function Revision(c: Container, t: Template, hash: Template -> string): string {
    Basis(c.name, StatusText(c.status), c.image, c.imageId, hash(t))
  }

  lemma LastFieldsAgree(p: string, s: string, p': string, s': string)
    requires p + "|" + s == p' + "|" + s' && '|' !in s && '|' !in s'
    ensures p == p' && s == s'
  {
    var t := p + "|" + s;
    assert t[|p|] == '|' && t[|p'|] == '|';
    forall j | |p| < j < |t| ensures t[j] != '|' {
      assert t[j] == s[j - |p| - 1];
    }
    forall j | |p'| < j < |t| ensures t[j] != '|' {
      assert t[j] == s'[j - |p'| - 1];
    }
    assert p == t[..|p|] && p' == t[..|p'|];
    assert s == t[|p| + 1..] && s' == t[|p'| + 1..];
  }

  /** Equal revisions mean equal image ids and equal templates' digests, whatever the image text. */
  lemma RevisionPinsImage(c: Container, t: Template, c': Container, t': Template, hash: Template -> string)
    requires Revision(c, t, hash) == Revision(c', t', hash)
    requires '|' !in c.imageId && '|' !in c'.imageId && '|' !in hash(t) && '|' !in hash(t')
    ensures c.imageId == c'.imageId && hash(t) == hash(t')
  {
    var front := c.name + "|" + StatusText(c.status) + "|" + c.image;
    var front' := c'.name + "|" + StatusText(c'.status) + "|" + c'.image;
    LastFieldsAgree(front + "|" + c.imageId, hash(t), front' + "|" + c'.imageId, hash(t'));
    LastFieldsAgree(front, c.imageId, front', c'.imageId);
  }

  /** The one non-blank `Repository` text, stripped: `template_repository`. */
  function RepositoryOf(t: Template): Option<string> {
    var named := NonBlank(t.repositories);
    if |named| == 1 then Some(named[0]) else None
  }

  function NonBlank(texts: seq<string>): seq<string> {
    if texts == [] then []
    else (if Strip(texts[0]) == "" then [] else [Strip(texts[0])]) + NonBlank(texts[1..])
  }

  /** `runtime_labels_match`: every owned label of the template is on the container. */
  predicate LabelsMatch(desired: Labels, runtime: Labels) {
    var expected := PolicyLabels(desired);
    expected != map[] && forall k :: k in expected ==> k in runtime && runtime[k] == expected[k]
  }

  predicate ValidName(name: string) {
    1 <= |name| <= 128 && IsAlnum(name[0]) && forall i :: 0 <= i < |name| ==> IsAlnum(name[i]) || name[i] in "_.-"
  }
}
