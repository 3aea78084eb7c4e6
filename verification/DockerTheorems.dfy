/** What a caller of the guarded update may rely on, for every host, request and fault schedule. */
module DockerTheorems {
  import opened Strings
  import opened VnextPolicy
  import opened DockerWorld
  import opened DockerUpdate
  import Discovery

  lemma PreflightStarts(w: World, q: Request, o: Oracle)
    requires w.Valid() && Preflight(w, q, o).Some?
    ensures var orig := Preflight(w, q, o).value;
            && Starts(w, q, orig) && w.containers[orig].status.Running?
            && Revision(w.containers[orig], w.template, o.hash) == q.expectedRevision
            && LabelsMatch(w.template.labels, w.containers[orig].labels)
            && q.target != w.containers[orig].image && q.target != ""
            && '<' !in q.target && '>' !in q.target
  {
    hide Revision, LabelsMatch, ValidName, RepositoryOf;
    var bad := "\r\n<>";
    assert bad[2] == '<' && bad[3] == '>';
  }

  /** No instant of any run, whichever calls fail: the original and its replacement are never live
      together, the original is gone only while a verified replacement holds its name, names stay
      unique, and no other container changes. */
  lemma EveryInstantIsSafe(w: World, q: Request, o: Oracle)
    requires w.Valid() && !ExecuteUpdate(w, q, o).Blocked?
    ensures Preflight(w, q, o).Some?
    ensures AllSafe(w, q, o, Preflight(w, q, o).value, ExecuteUpdate(w, q, o).run)
  {
    hide Preflight, TryBlock, Rollback, AllSafe, Raising, Starts;
    PreflightStarts(w, q, o);
    var orig := Preflight(w, q, o).value;
    TryBlockIsSafe(w, q, o, orig);
    var s := TryBlock(w, q, o, orig);
    if s.Raised? {
      RollbackIsSafe(w, q, o, orig, s.run);
    }
  }

  predicate PlainDigests(w: World, o: Oracle) {
    && '|' !in o.targetId
    && (forall id :: id in w.containers ==> '|' !in w.containers[id].imageId)
  }

  ghost predicate PlainHash(hash: Template -> string) {
    forall t :: '|' !in hash(t)
  }

  /** A normal return leaves only the verified replacement, the template's repository is its image, and
      the live revision has changed: the request that led here can not be executed again. */
  lemma ReturnIsHonest(w: World, q: Request, o: Oracle)
    requires w.Valid() && ExecuteUpdate(w, q, o).Returned? && PlainDigests(w, o) && PlainHash(o.hash)
    ensures var r := ExecuteUpdate(w, q, o).run;
            var orig := Preflight(w, q, o).value;
            && Replaced(w, q, o, orig, r.world)
            && RepositoryTexts(r.world) == [r.world.containers[w.nextId].image]
            && Revision(r.world.containers[w.nextId], r.world.template, o.hash) != q.expectedRevision
  {
    hide Preflight, TryBlock, Rollback, AllSafe, Raising, Revision, LabelsMatch, World.UniqueNames, Container.Healthy;
    PreflightStarts(w, q, o);
    var orig := Preflight(w, q, o).value;
    TryBlockIsSafe(w, q, o, orig);
    NewImageOnReturn(w, q, o, orig);
    var r := ExecuteUpdate(w, q, o).run;
    var before, after := w.containers[orig], r.world.containers[w.nextId];
    assert '|' !in o.hash(w.template) && '|' !in o.hash(r.world.template);
    if Revision(after, r.world.template, o.hash) == Revision(before, w.template, o.hash) {
      RevisionPinsImage(after, r.world.template, before, w.template, o.hash);
    }
  }

  function RepositoryTexts(w: World): seq<string> {
    w.template.repositories
  }

  lemma NewImageOnReturn(w: World, q: Request, o: Oracle, orig: Id)
    requires Starts(w, q, orig) && TryBlock(w, q, o, orig).Done?
    ensures o.targetId != w.containers[orig].imageId
  {
    hide Alter, Rename, Rewrite, Replace, Remove;
  }

  /** "rollback=succeeded" means what it says: every container, name and template byte is back, the
      original runs and is healthy, and the live revision is the one the request was made for. */
  lemma RolledBackIsHonest(w: World, q: Request, o: Oracle)
    requires w.Valid() && ExecuteUpdate(w, q, o).RolledBack?
    ensures var r := ExecuteUpdate(w, q, o).run;
            var orig := Preflight(w, q, o).value;
            && PutBack(w, orig, r.world)
            && Revision(r.world.containers[orig], r.world.template, o.hash) == q.expectedRevision
  {
    hide Preflight, TryBlock, Rollback, AllSafe, Raising, Starts, LabelsMatch;
    PreflightStarts(w, q, o);
    var orig := Preflight(w, q, o).value;
    TryBlockIsSafe(w, q, o, orig);
    RollbackIsSafe(w, q, o, orig, TryBlock(w, q, o, orig).run);
    assert orig in w.containers by { StartsHasOriginal(w, q, orig); }
  }

  lemma StartsHasOriginal(w: World, q: Request, orig: Id)
    requires Starts(w, q, orig)
    ensures orig in w.containers
  {
  }

  /** The update rolls back successfully exactly when `CanRollBack` holds of the state in which the
      `try` statement raised. */
  lemma RollsBackExactlyWhen(w: World, q: Request, o: Oracle)
    requires w.Valid() && Preflight(w, q, o).Some?
    requires TryBlock(w, q, o, Preflight(w, q, o).value).Raised?
    ensures var orig := Preflight(w, q, o).value;
            var r := TryBlock(w, q, o, orig).run;
            && orig in r.world.containers
            && (ExecuteUpdate(w, q, o).RolledBack? <==> CanRollBack(w, q, o, orig, r))
            && (ExecuteUpdate(w, q, o).RollbackFailed? <==> !CanRollBack(w, q, o, orig, r))
  {
    hide Preflight, TryBlock, Rollback, AllSafe, Raising, Starts, CanRollBack;
    PreflightStarts(w, q, o);
    var orig := Preflight(w, q, o).value;
    TryBlockIsSafe(w, q, o, orig);
    RollbackIsSafe(w, q, o, orig, TryBlock(w, q, o, orig).run);
  }

  // ---------------------------------------------------------------- when the update returns

  /** Some poll from `turn` on finds the replacement healthy, before which it stayed live and no poll
      raised. */
  ghost predicate GetsHealthy(o: Oracle, turn: nat) {
    exists i :: turn <= i < 12 && o.polls(i).Fit() && UpTo(o, turn, i)
  }

  ghost predicate UpTo(o: Oracle, turn: nat, i: nat) {
    && (forall j :: turn <= j <= i ==> Poll(j) !in o.faults)
    && (forall j :: turn <= j < i ==> o.polls(j).Working())
  }

  lemma {:induction false} StaysUnhealthy(r: Run, o: Oracle, id: Id, turn: nat)
    requires id in r.world.containers && !r.world.containers[id].Live()
    ensures PollHealth(r, o, id, turn).Raised?
    decreases MAX_POLLS - turn
  {
    if turn < MAX_POLLS {
      var seen := Alter(r, o, Poll(turn), id, (c: Container) => c.Observed(o.polls(turn)));
      if seen.Done? {
        StaysUnhealthy(seen.run, o, id, turn + 1);
      }
    }
  }

  lemma GetsHealthyStep(o: Oracle, turn: nat)
    ensures GetsHealthy(o, turn) <==>
            turn < MAX_POLLS && Poll(turn) !in o.faults
              && (o.polls(turn).Fit() || (o.polls(turn).Working() && GetsHealthy(o, turn + 1)))
  {
    if turn < MAX_POLLS && Poll(turn) !in o.faults && o.polls(turn).Fit() {
      assert UpTo(o, turn, turn);
    }
    if GetsHealthy(o, turn) {
      var i :| turn <= i < 12 && o.polls(i).Fit() && UpTo(o, turn, i);
      if i != turn {
        assert UpTo(o, turn + 1, i);
      }
    }
    if turn < MAX_POLLS && Poll(turn) !in o.faults && o.polls(turn).Live() && GetsHealthy(o, turn + 1) {
      var i :| turn + 1 <= i < 12 && o.polls(i).Fit() && UpTo(o, turn + 1, i);
      assert UpTo(o, turn, i);
    }
  }

  lemma {:induction false} PollDoneIff(r: Run, o: Oracle, id: Id, turn: nat)
    requires id in r.world.containers && r.world.containers[id].Live()
    ensures var s := PollHealth(r, o, id, turn);
            && (s.Done? <==> GetsHealthy(o, turn))
            && (s.Done? ==>
                  && id in s.run.world.containers
                  && s.run.world.containers[id].imageId == r.world.containers[id].imageId
                  && s.run.world.containers.Keys == r.world.containers.Keys)
    decreases MAX_POLLS - turn
  {
    hide GetsHealthy;
    GetsHealthyStep(o, turn);
    if turn < MAX_POLLS {
      var seen := Alter(r, o, Poll(turn), id, (c: Container) => c.Observed(o.polls(turn)));
      if seen.Done? && !seen.run.world.containers[id].Healthy() {
        if seen.run.world.containers[id].Live() {
          PollDoneIff(seen.run, o, id, turn + 1);
        } else {
          StaysUnhealthy(seen.run, o, id, turn + 1);
        }
      }
    }
  }

  /** Everything a successful update needs, once the checks before mutation have passed. */
  ghost predicate CanReturn(w: World, q: Request, o: Oracle, orig: Id)
    requires orig in w.containers
  {
    && {Pull, GetImage, StopOriginal, RenameAway, WriteTemplate, Create, GetCreated, ReloadCreated,
        StartCreated, RemoveOriginal} !! o.faults
    && o.targetId != w.containers[orig].imageId
    && !w.NameTaken(q.RollbackName())
    && |w.template.repositories| == 1
    && LabelsMatch(w.template.labels, o.createdLabels)
    && o.createdImageId == o.targetId
    && GetsHealthy(o, 0)
  }

  lemma MoveAsideDoneIff(w: World, q: Request, o: Oracle, orig: Id)
    requires Starts(w, q, orig) && q.target != "" && '<' !in q.target && '>' !in q.target
    ensures MoveAside(Run(w, None, [w]), q, o, orig).Done? <==>
            && {Pull, GetImage, StopOriginal, RenameAway, WriteTemplate} !! o.faults
            && o.targetId != w.containers[orig].imageId
            && !w.NameTaken(q.RollbackName()) && |w.template.repositories| == 1
  {
    hide Request.RollbackName, World.UniqueNames;
    RollbackNameDiffers(q);
    var stopped := w.Put(orig, Stopped(w.containers[orig]));
    assert stopped.NameTaken(q.RollbackName()) <==> w.NameTaken(q.RollbackName()) by {
      StoppingKeepsNames(w, orig, q.RollbackName());
    }
  }

  lemma StoppingKeepsNames(w: World, orig: Id, name: string)
    requires orig in w.containers
    ensures w.Put(orig, Stopped(w.containers[orig])).NameTaken(name) <==> w.NameTaken(name)
  {
    var s := w.Put(orig, Stopped(w.containers[orig]));
    if w.NameTaken(name) {
      var id :| id in w.containers && w.containers[id].name == name;
      assert s.containers[id].name == name;
    }
    if s.NameTaken(name) {
      var id :| id in s.containers && s.containers[id].name == name;
      assert w.containers[id].name == name;
    }
  }

  lemma ReplaceDoneIff(w: World, q: Request, o: Oracle, r: Run)
    requires !r.world.NameTaken(q.name) && r.world.nextId == w.nextId
    ensures Replace(r, q, o, w.nextId, w.template.labels).Done? <==>
            && {Create, GetCreated, ReloadCreated, StartCreated} !! o.faults
            && LabelsMatch(w.template.labels, o.createdLabels)
            && GetsHealthy(o, 0) && o.createdImageId == o.targetId
  {
    hide GetsHealthy, LabelsMatch, World.NameTaken;
    var made := CreateContainer(r, o, q.name, q.target);
    if made.Done? && GetCreated !in o.faults {
      var bound := Bind(made.run, o, w.nextId);
      var started := Alter(bound.run, o, StartCreated, w.nextId, Started);
      if started.Done? {
        PollDoneIff(started.run, o, w.nextId, 0);
      }
    }
  }

  lemma MovedAsideFreesName(w: World, q: Request, orig: Id, m: World)
    requires Starts(w, q, orig) && MovedAside(w, q, orig, m)
    ensures !m.NameTaken(q.name)
  {
    RollbackNameDiffers(q);
    hide Request.RollbackName;
  }

  /** An update that passed its checks returns normally exactly when nothing in its way fails, the
      pulled image is new, the rollback name is free, the template has a single Repository element,
      and the replacement has the labels and the pulled image id and becomes healthy in time. */
  lemma ReturnsExactlyWhen(w: World, q: Request, o: Oracle)
    requires w.Valid() && Preflight(w, q, o).Some?
    ensures Preflight(w, q, o).value in w.containers
    ensures ExecuteUpdate(w, q, o).Returned? <==> CanReturn(w, q, o, Preflight(w, q, o).value)
  {
    hide Preflight, Rollback, AllSafe, LabelsMatch, GetsHealthy, World.NameTaken, Starts, MoveAside, Replace, Replacing,
         Preparing, MovedAside;
    PreflightStarts(w, q, o);
    var orig := Preflight(w, q, o).value;
    StartsHasOriginal(w, q, orig);
    MoveAsideDoneIff(w, q, o, orig);
    MoveAsideIsSafe(w, q, o, orig);
    var aside := MoveAside(Run(w, None, [w]), q, o, orig);
    if aside.Done? {
      MovedAsideFreesName(w, q, orig, aside.run.world);
      MovedAsideKeepsNext(w, q, orig, aside.run.world);
      ReplaceDoneIff(w, q, o, aside.run);
      ReplaceIsSafe(w, q, o, orig, aside.run);
      var replaced := Replace(aside.run, q, o, w.nextId, w.template.labels);
      if replaced.Done? {
        ReplacingHasOriginal(w, q, o, orig, aside.run.world, replaced.run);
      }
    }
  }

  lemma MovedAsideKeepsNext(w: World, q: Request, orig: Id, m: World)
    requires MovedAside(w, q, orig, m)
    ensures m.nextId == w.nextId
  {
  }

  // ---------------------------------------------------------------- the template and discovery

  /** A rewrite is refused for a failing write, a template without exactly one Repository element, and a
      text that is empty or has angle brackets; otherwise the template's repository reads back as the one
      written exactly when that has no whitespace around it, and the labels are as before. */
  lemma RewrittenRepositoryReadsBack(r: Run, o: Oracle, repository: string)
    ensures Rewrite(r, o, repository).Raised? <==>
            || WriteTemplate in o.faults || |r.world.template.repositories| == 0 || |r.world.template.repositories| > 1
            || repository == "" || '<' in repository || '>' in repository
    ensures Rewrite(r, o, repository).Done? ==>
              var t := Rewrite(r, o, repository).run.world.template;
              && t.labels == r.world.template.labels
              && (RepositoryOf(t) == Some(repository) <==> Trimmed(repository))
  {
    hide Trimmed;
    if Rewrite(r, o, repository).Done? {
      var t := Rewrite(r, o, repository).run.world.template;
      assert t.repositories == [repository] && [repository][1..] == [];
      assert NonBlank([repository]) == if Strip(repository) == "" then [] else [Strip(repository)];
    }
  }

  /** What discovery finds ready, the update refuses. The live inventory shows every label of the
      container's template; a ready row has no version or research label there; and the checks before
      mutation demand both of the template. */
  lemma ReadyUpdatesAreRefused(raw: Discovery.Raw, cx: Discovery.Context, w: World, q: Request, o: Oracle)
    requires Discovery.Normalize(raw, cx).ready && Discovery.ContainerName(raw) in cx.live
    requires w.template.labels.Keys <= cx.live[Discovery.ContainerName(raw)].labels.Keys
    ensures Preflight(w, q, o).None? && ExecuteUpdate(w, q, o).Blocked?
  {
    hide ExecuteUpdate, Discovery.Normalize, ValidName, Revision, LabelsMatch, RepositoryOf, LABEL_VERSION,
         LABEL_POLICY, LABEL_RESEARCH;
    Discovery.ReadyIsConservative(raw, cx);
    RefusedIsBlocked(w, q, o);
  }

  lemma RefusedIsBlocked(w: World, q: Request, o: Oracle)
    ensures Preflight(w, q, o).None? ==> ExecuteUpdate(w, q, o).Blocked?
  {
    hide Preflight;
  }

  // ---------------------------------------------------------------- an update nothing disturbs

  /** A host with one container that runs from `image`, whose template agrees with it. */
  function PlainWorld(name: string, image: string, imageId: string, labels: Labels): World {
    World(map[0 := Container(name, image, imageId, labels, Running, NoCheck)], Template([image], labels, ""), 1)
  }

  /** An environment in which every call succeeds and the replacement is as it should be. */
  function PlainOracle(targetId: string, labels: Labels, hash: Template -> string): Oracle {
    Oracle({}, true, hash, targetId, targetId, labels, NoCheck, "",
           n => Observation(Running, Passing), Observation(Running, NoCheck), false, c => "failed")
  }

  /** A request made for what the host shows. */
  function PlainRequest(name: string, target: string, self: string, stamp: string, w: World, o: Oracle): Request
    requires 0 in w.containers
  {
    Request(name, target, Revision(w.containers[0], w.template, o.hash), self, stamp)
  }

  /** The theorems above have such updates: whatever the names, images, labels and digests, an update
      that nothing disturbs passes its checks and returns. */
  lemma UndisturbedUpdateReturns(name: string, self: string, image: string, target: string, stamp: string,
                                 imageId: string, targetId: string, labels: Labels, hash: Template -> string)
    requires ValidName(name) && ValidName(self) && name != self
    requires image != "" && Trimmed(image) && target != image
    requires target != "" && forall c :: c in target ==> c !in "\r\n<>"
    requires {LABEL_VERSION, LABEL_POLICY, LABEL_RESEARCH} <= labels.Keys && PolicyLabels(labels) != map[]
    requires imageId != targetId
    ensures var w, o := PlainWorld(name, image, imageId, labels), PlainOracle(targetId, labels, hash);
            var q := PlainRequest(name, target, self, stamp, w, o);
            w.Valid() && Preflight(w, q, o) == Some(0) && ExecuteUpdate(w, q, o).Returned?
  {
    hide ExecuteUpdate, PolicyLabels, ValidName, Revision, Preflight, CanReturn;
    hide LABEL_VERSION, LABEL_POLICY, LABEL_RESEARCH;
    var w, o := PlainWorld(name, image, imageId, labels), PlainOracle(targetId, labels, hash);
    var q := PlainRequest(name, target, self, stamp, w, o);
    PlainPreflight(q, image, imageId, w, o, labels);
    PlainReturns(q, image, imageId, targetId, labels, hash);
    ReturnsExactlyWhen(w, q, o);
  }

  lemma PlainPreflight(q: Request, image: string, imageId: string, w: World, o: Oracle, labels: Labels)
    requires w == PlainWorld(q.name, image, imageId, labels) && o.faults == {} && o.templateFound
    requires q.name != q.selfName && ValidName(q.name) && ValidName(q.selfName)
    requires image != "" && Trimmed(image) && q.target != image
    requires q.target != "" && forall c :: c in q.target ==> c !in "\r\n<>"
    requires {LABEL_VERSION, LABEL_POLICY, LABEL_RESEARCH} <= labels.Keys && PolicyLabels(labels) != map[]
    requires q.expectedRevision == Revision(w.containers[0], w.template, o.hash)
    ensures w.Valid() && Preflight(w, q, o) == Some(0)
  {
    hide PolicyLabels, ValidName, Revision;
    hide LABEL_VERSION, LABEL_POLICY, LABEL_RESEARCH;
    assert w.containers[0].name == q.name;
    assert w.Find(q.name) == Some(0);
    OneRepository(image);
    OwnLabelsMatch(labels);
  }

  lemma PlainReturns(q: Request, image: string, imageId: string, targetId: string, labels: Labels,
                     hash: Template -> string)
    requires PolicyLabels(labels) != map[] && imageId != targetId
    ensures CanReturn(PlainWorld(q.name, image, imageId, labels), q, PlainOracle(targetId, labels, hash), 0)
  {
    hide PolicyLabels, Request.RollbackName;
    var o := PlainOracle(targetId, labels, hash);
    RollbackNameDiffers(q);
    OwnLabelsMatch(labels);
    assert UpTo(o, 0, 0) && o.polls(0).Fit();
  }

  lemma OneRepository(image: string)
    requires image != "" && Trimmed(image)
    ensures NonBlank([image]) == [image]
  {
    hide Strip;
    assert Strip(image) == image;
    assert NonBlank([image][1..]) == [];
  }

  lemma OwnLabelsMatch(labels: Labels)
    requires PolicyLabels(labels) != map[]
    ensures LabelsMatch(labels, labels)
  {
    hide OWNED_KEYS;
  }

  // ---------------------------------------------------------------- health, and what is refused

  /** An inspection that must not be taken for a working container. */
  predicate Broken(seen: Observation) {
    seen.status != Running || seen.health == Starting || seen.health == Unhealthy
  }

  /** A normal return leaves a replacement that runs and is neither starting nor unhealthy; if none of
      the twelve polls finds it so, the update does not return; and a completed exception path leaves
      an original that runs and is neither starting nor unhealthy. */
  lemma OnlyWorkingContainersStay(w: World, q: Request, o: Oracle)
    requires w.Valid()
    ensures ExecuteUpdate(w, q, o).Returned? ==>
              var c := ExecuteUpdate(w, q, o).run.world.containers;
              w.nextId in c && !Broken(Observation(c[w.nextId].status, c[w.nextId].health))
    ensures (forall turn :: 0 <= turn < 12 ==> Broken(o.polls(turn))) ==> !ExecuteUpdate(w, q, o).Returned?
    ensures ExecuteUpdate(w, q, o).RolledBack? ==>
              var orig, c := Preflight(w, q, o).value, ExecuteUpdate(w, q, o).run.world.containers;
              orig in c && !Broken(Observation(c[orig].status, c[orig].health))
  {
    hide Preflight, TryBlock, Rollback, LabelsMatch, World.UniqueNames, Revision, Raising, AllSafe, World.Valid, Starts;
    if ExecuteUpdate(w, q, o).Returned? {
      PreflightStarts(w, q, o);
      TryBlockIsSafe(w, q, o, Preflight(w, q, o).value);
      ReturnsExactlyWhen(w, q, o);
    }
    if ExecuteUpdate(w, q, o).RolledBack? {
      RolledBackIsHonest(w, q, o);
    }
  }

  predicate PlainName(name: string) {
    && name != "" && |name| <= 128 && name[0] !in "_.-"
    && forall c :: c in name ==> '0' <= c <= '9' || 'a' <= c <= 'z' || 'A' <= c <= 'Z' || c in "_.-"
  }

  /** The container to update as the checks demand it: running, from the one image that the template
      names, under the requested live revision, with every owned label of the template. */
  ghost predicate Startable(w: World, q: Request, o: Oracle, id: Id) {
    && id in w.containers
    && var c, labels := w.containers[id], w.template.labels;
       && c.name == q.name && c.status == Running && c.image != "" && c.image != q.target
       && OnlyText(w.template.repositories, c.image)
       && Revision(c, w.template, o.hash) == q.expectedRevision
       && "io.jmengit.upgrade.version" in labels && "io.jmengit.upgrade.policy" in labels
       && "io.jmengit.upgrade.research" in labels
       && (exists k :: k in OWNED_KEYS && k in labels && labels[k] != "")
       && (forall k :: k in OWNED_KEYS && k in labels && labels[k] != "" ==> k in c.labels && c.labels[k] == labels[k])
  }

  /** Apart from blank ones there is a single text, which is `text` with whitespace around it. */
  ghost predicate OnlyText(texts: seq<string>, text: string) {
    exists i :: 0 <= i < |texts| && Strip(texts[i]) == text
                && forall j :: 0 <= j < |texts| && j != i ==> Strip(texts[j]) == ""
  }

  lemma {:induction false} NoTextIsBlank(texts: seq<string>)
    ensures NonBlank(texts) == [] <==> forall i :: 0 <= i < |texts| ==> Strip(texts[i]) == ""
  {
    hide Strip;
    if texts != [] {
      NoTextIsBlank(texts[1..]);
      assert forall i :: 1 <= i < |texts| ==> texts[i] == texts[1..][i - 1];
    }
  }

  lemma {:induction false} OnlyTextExactly(texts: seq<string>, text: string)
    requires text != ""
    ensures NonBlank(texts) == [text] <==> OnlyText(texts, text)
  {
    hide Strip;
    if texts != [] {
      var rest := texts[1..];
      assert forall i :: 1 <= i < |texts| ==> texts[i] == rest[i - 1];
      NoTextIsBlank(rest);
      if Strip(texts[0]) == "" {
        OnlyTextExactly(rest, text);
        if OnlyText(rest, text) {
          var i :| 0 <= i < |rest| && Strip(rest[i]) == text
                   && forall j :: 0 <= j < |rest| && j != i ==> Strip(rest[j]) == "";
          assert texts[i + 1] == rest[i];
          assert forall j :: 0 <= j < |texts| && j != i + 1 ==> Strip(texts[j]) == "";
        }
        if OnlyText(texts, text) {
          var i :| 0 <= i < |texts| && Strip(texts[i]) == text
                   && forall j :: 0 <= j < |texts| && j != i ==> Strip(texts[j]) == "";
          assert rest[i - 1] == texts[i];
          assert forall j :: 0 <= j < |rest| && j != i - 1 ==> Strip(rest[j]) == Strip(texts[j + 1]);
        }
      } else {
        assert NonBlank(texts) == [Strip(texts[0])] + NonBlank(rest);
        SingleOnly(Strip(texts[0]), NonBlank(rest), text);
      }
    }
  }

  lemma SingleOnly(first: string, rest: seq<string>, text: string)
    ensures [first] + rest == [text] <==> first == text && rest == []
  {
    assert ([first] + rest)[0] == first && ([first] + rest)[1..] == rest;
  }

  lemma PlainNames(name: string)
    ensures ValidName(name) <==> PlainName(name)
  {
    if PlainName(name) {
      assert name[0] in name;
      forall i | 0 <= i < |name| ensures IsAlnum(name[i]) || name[i] in "_.-" {
        assert name[i] in name;
      }
    }
    if ValidName(name) {
      assert "_.-"[0] == '_' && "_.-"[1] == '.' && "_.-"[2] == '-';
    }
  }

  /** What an update is refused for before any mutation, and that it is refused for nothing else: a
      malformed name, the updater's own container, a missing or malformed target, a call that fails, or
      a container that is not as the request and the template have it. */
  lemma UpdateStartsExactly(w: World, q: Request, o: Oracle)
    requires w.Valid()
    ensures !ExecuteUpdate(w, q, o).Blocked? <==>
            && PlainName(q.name) && PlainName(q.selfName) && q.name != q.selfName
            && q.target != "" && '\r' !in q.target && '\n' !in q.target && '<' !in q.target && '>' !in q.target
            && {Inspect, GetOriginal, Backup} !! o.faults && o.templateFound
            && exists id :: Startable(w, q, o, id)
  {
    hide ExecuteUpdate, ValidName, PlainName, RepositoryOf, Revision, LabelsMatch, OWNED_KEYS, OnlyText;
    StartedIsNotBlocked(w, q, o);
    PlainNames(q.name);
    PlainNames(q.selfName);
    assert (exists c :: c in q.target && c in "\r\n<>") <==>
           '\r' in q.target || '\n' in q.target || '<' in q.target || '>' in q.target by {
      ForbiddenChars(q.target);
    }
    forall id | id in w.containers && w.containers[id].name == q.name
      ensures w.Find(q.name) == Some(id)
      ensures CheckedOut(w, q, o, id) <==> Startable(w, q, o, id)
    {
      CheckedOutExactly(w, q, o, id);
    }
  }

  lemma ForbiddenChars(target: string)
    ensures (exists c :: c in target && c in "\r\n<>") <==>
            '\r' in target || '\n' in target || '<' in target || '>' in target
  {
    var bad := "\r\n<>";
    assert bad[0] == '\r' && bad[1] == '\n' && bad[2] == '<' && bad[3] == '>';
    assert forall c :: c in bad <==> c == '\r' || c == '\n' || c == '<' || c == '>';
  }

  lemma StartedIsNotBlocked(w: World, q: Request, o: Oracle)
    ensures ExecuteUpdate(w, q, o).Blocked? <==> Preflight(w, q, o).None?
  {
    hide Preflight;
  }

  /** The checks on the container found under the requested name. */
  ghost predicate CheckedOut(w: World, q: Request, o: Oracle, id: Id)
    requires id in w.containers
  {
    var c := w.containers[id];
    && RepositoryOf(w.template) == Some(c.image) && c.status.Running?
    && Revision(c, w.template, o.hash) == q.expectedRevision && q.target != c.image
    && {LABEL_VERSION, LABEL_POLICY, LABEL_RESEARCH} <= w.template.labels.Keys
    && LabelsMatch(w.template.labels, c.labels)
  }

  lemma CheckedOutExactly(w: World, q: Request, o: Oracle, id: Id)
    requires id in w.containers && w.containers[id].name == q.name
    ensures CheckedOut(w, q, o, id) <==> Startable(w, q, o, id)
  {
    hide Revision, NonBlank, OnlyText, OWNED_KEYS;
    var c, labels := w.containers[id], w.template.labels;
    if c.image != "" {
      OnlyTextExactly(w.template.repositories, c.image);
    }
    NonBlankTexts(w.template.repositories);
    assert LABEL_VERSION == "io.jmengit.upgrade.version" && LABEL_POLICY == "io.jmengit.upgrade.policy"
           && LABEL_RESEARCH == "io.jmengit.upgrade.research";
    LabelsMatchExactly(labels, c.labels);
  }

  lemma {:induction false} NonBlankTexts(texts: seq<string>)
    ensures "" !in NonBlank(texts)
  {
    hide Strip;
    if texts != [] {
      NonBlankTexts(texts[1..]);
    }
  }

  lemma LabelsMatchExactly(desired: Labels, runtime: Labels)
    ensures LabelsMatch(desired, runtime) <==>
            && (exists k :: k in OWNED_KEYS && k in desired && desired[k] != "")
            && (forall k :: k in OWNED_KEYS && k in desired && desired[k] != "" ==>
                  k in runtime && runtime[k] == desired[k])
  {
    hide OWNED_KEYS;
    var expected := PolicyLabels(desired);
    if k :| k in OWNED_KEYS && k in desired && desired[k] != "" {
      assert k in expected;
    }
    if expected != map[] {
      var k :| k in expected;
    }
  }

  /** Two live revisions agree exactly when name, state, image, image id and template digest do, for
      texts without the separator. */
  lemma RevisionsAgreeExactly(c: Container, t: Template, c': Container, t': Template, hash: Template -> string)
    requires forall s :: s in {c.name, c.image, c.imageId, hash(t), c'.name, c'.image, c'.imageId, hash(t')} ==>
               '|' !in s
    ensures Revision(c, t, hash) == Revision(c', t', hash) <==>
            && c.name == c'.name && c.status == c'.status && c.image == c'.image && c.imageId == c'.imageId
            && hash(t) == hash(t')
  {
    StatusTextsDiffer(c.status, c'.status);
    if Revision(c, t, hash) == Revision(c', t', hash) {
      RevisionPinsImage(c, t, c', t', hash);
      var two, two' := c.name + "|" + StatusText(c.status), c'.name + "|" + StatusText(c'.status);
      var three, three' := two + "|" + c.image, two' + "|" + c'.image;
      LastFieldsAgree(three + "|" + c.imageId, hash(t), three' + "|" + c'.imageId, hash(t'));
      LastFieldsAgree(three, c.imageId, three', c'.imageId);
      LastFieldsAgree(two, c.image, two', c'.image);
      LastFieldsAgree(c.name, StatusText(c.status), c'.name, StatusText(c'.status));
    }
  }

  lemma StatusTextsDiffer(s: Status, t: Status)
    ensures StatusText(s) == StatusText(t) <==> s == t
    ensures '|' !in StatusText(s) && '|' !in StatusText(t)
  {
    var a, b := StatusText(s), StatusText(t);
    assert a == b ==> |a| == |b| && a[0] == b[0];
  }
}
