/** Turning one discovered container into a candidate row: gate ceilings, target image and
    eligibility (src/unraid_updater/wud.py and src/unraid_updater/policy_config.py). */
module Discovery {
  import opened Strings
  import opened VnextPolicy

  // ---------------------------------------------------------------- risk gates

  const RISKS := ["low", "medium", "high", "critical"]
  const CHANGES := ["patch", "minor", "major", "digest", "unknown"]

  /** One row of the stored gate settings; a missing entry falls back to the default. */
  datatype StoredGate = StoredGate(allowed: Option<seq<string>>, research: Option<bool>, manual: Option<bool>)

  datatype Gate = Gate(allowed: seq<string>, research: bool, manual: bool)

  function DefaultGate(risk: string): Gate {
    if risk == "low" then Gate(["patch", "minor"], false, false) else Gate([], true, true)
  }

  function KnownChanges(xs: seq<string>): seq<string> {
    if xs == [] then [] else (if xs[0] in CHANGES then [xs[0]] else []) + KnownChanges(xs[1..])
  }

  function Or<T>(given: Option<T>, default: T): T {
    if given.Some? then given.value else default
  }

  /** The gate in force for a known risk: whatever is stored, only low risk can allow anything. */
  function GateFor(stored: map<string, StoredGate>, risk: string): Gate {
    var default := DefaultGate(risk);
    var row := if risk in stored then stored[risk] else StoredGate(None, None, None);
    Gate(if risk == "low" then KnownChanges(Or(row.allowed, default.allowed)) else [],
         Or(row.research, default.research),
         risk != "low" || Or(row.manual, default.manual))
  }

  method NormalizedGates(stored: map<string, StoredGate>) returns (gates: map<string, Gate>)
    ensures gates.Keys == {"low", "medium", "high", "critical"}
    ensures forall r :: r in gates ==> gates[r] == GateFor(stored, r)
  {
    hide KnownChanges;
    gates := map[];
    var i := 0;
    while i < |RISKS|
      invariant 0 <= i <= |RISKS|
      invariant gates.Keys == set r | r in RISKS[..i]
      invariant forall r :: r in gates ==> gates[r] == GateFor(stored, r)
    {
      var risk := RISKS[i];
      var default := DefaultGate(risk);
      var row := if risk in stored then stored[risk] else StoredGate(None, None, None);
      var allowed := KnownChanges(Or(row.allowed, default.allowed));
      var manual := Or(row.manual, default.manual);
      if risk != "low" {
        allowed, manual := [], true;
      }
      gates := gates[risk := Gate(allowed, Or(row.research, default.research), manual)];
      assert RISKS[..i + 1] == RISKS[..i] + [risk];
      i := i + 1;
    }
    assert RISKS[..i] == RISKS;
    RisksListed();
  }

  lemma RisksListed()
    ensures (set r | r in RISKS) == {"low", "medium", "high", "critical"}
  {
    var known := RISKS;
    assert known[0] == "low" && known[1] == "medium" && known[2] == "high" && known[3] == "critical";
  }

  /** What a gate lets through: nothing at any risk but low, where it is the stored changes as far as they
      are known ones, or else patches and minor updates; research and manual review are waived only at low
      risk by default, the former elsewhere if stored so, the latter never. */
  lemma GateExactly(stored: map<string, StoredGate>, risk: string, change: string)
    ensures var gate, given := GateFor(stored, risk), risk in stored;
            && (change in gate.allowed <==>
                && risk == "low"
                && (if given && stored[risk].allowed.Some?
                    then change in stored[risk].allowed.value
                         && change in ["patch", "minor", "major", "digest", "unknown"]
                    else change in ["patch", "minor"]))
            && (gate.research <==> if given && stored[risk].research.Some? then stored[risk].research.value
                                   else risk != "low")
            && (gate.manual <==> risk != "low" || (given && stored[risk].manual == Some(true)))
  {
    hide KnownChanges;
    KnownChangesFilter(["patch", "minor"], change);
    if risk in stored && stored[risk].allowed.Some? {
      KnownChangesFilter(stored[risk].allowed.value, change);
    }
    var known := CHANGES;
    assert known[0] == "patch" && known[1] == "minor";
    var two := ["patch", "minor"];
    assert change in two ==> change in known;
  }

  /** An unknown risk is treated as critical. */
  function EffectiveGate(stored: map<string, StoredGate>, risk: string): Gate {
    GateFor(stored, if risk in RISKS then risk else "critical")
  }

  /** The ceiling: a gate that lets a change through without manual review is the low-risk gate. */
  lemma OnlyLowRiskOpens(stored: map<string, StoredGate>, risk: string, change: string)
    requires var g := EffectiveGate(stored, risk); change in g.allowed || !g.manual
    ensures risk == "low"
  {
    hide KnownChanges;
    assert "critical" != "low" by { assert |"critical"| != |"low"|; }
  }

  // ---------------------------------------------------------------- target images

  /** The image reference without its digest. */
  function WithoutDigest(image: string): string {
    if LastIndex(image, '@') >= 0 then image[..LastIndex(image, '@')] else image
  }

  /** The reference without digest and tag. */
  function Repository(image: string): string {
    var repository := WithoutDigest(image);
    var colon := LastIndex(repository, ':');
    if colon > LastIndex(repository, '/') then repository[..colon] else repository
  }

  /** Replace the tag of an image reference, dropping a digest. */
  function TargetImage(image: string, tag: string): string {
    if tag == "" then "" else Repository(image) + [':'] + tag
  }

  lemma TargetHasColon(image: string, tag: string)
    requires tag != ""
    ensures ':' in TargetImage(image, tag)
  {
    hide Repository;
    assert TargetImage(image, tag)[|Repository(image)|] == ':';
  }

  lemma {:induction false} LastIndexOfSum(a: string, b: string, d: char)
    ensures LastIndex(a + b, d) == if d in b then |a| + LastIndex(b, d) else LastIndex(a, d)
  {
    hide LastIndex;
    var s := a + b;
    var i := LastIndex(s, d);
    assert forall j :: 0 <= j < |a| ==> s[j] == a[j];
    assert forall j :: 0 <= j < |b| ==> s[|a| + j] == b[j];
    if d in b {
      var k :| 0 <= k < |b| && b[k] == d;
      assert s[|a| + LastIndex(b, d)] == d;
    }
  }

  /** Reading the repository of a joined reference gives it back exactly when the tag, up to its last
      `@`, has neither colon nor slash, and no `@` is left to be cut from the repository. */
  lemma RepositoryOfTarget(base: string, tag: string)
    ensures Repository(base + [':'] + tag) == base <==>
            && ':' !in WithoutDigest(tag) && '/' !in WithoutDigest(tag) && ('@' in tag || '@' !in base)
  {
    var target := base + [':'] + tag;
    var stem := WithoutDigest(tag);
    LastIndexOfSum(base + [':'], tag, '@');
    LastIndexOfSum(base, [':'], '@');
    if '@' in tag || '@' !in base {
      assert WithoutDigest(target) == base + [':'] + stem;
      RepositoryOfJoined(base, stem);
    } else {
      var at := LastIndex(base, '@');
      assert WithoutDigest(target) == base[..at];
      assert |Repository(target)| <= at < |base|;
    }
  }

  lemma RepositoryOfJoined(base: string, stem: string)
    ensures var joined := base + [':'] + stem;
            var colon := LastIndex(joined, ':');
            (if colon > LastIndex(joined, '/') then joined[..colon] else joined) == base <==>
             ':' !in stem && '/' !in stem
  {
    hide LastIndex;
    var joined := base + [':'] + stem;
    LastIndexOfSum(base + [':'], stem, ':');
    LastIndexOfSum(base + [':'], stem, '/');
    LastIndexOfSum(base, [':'], ':');
    LastIndexOfSum(base, [':'], '/');
    assert joined[..|base|] == base;
    assert LastIndex([':'], ':') == 0;
  }

  /** Only the tag changes: retargeting a reference that was already retargeted gives the same as
      retargeting the first one, so that registry, port and repository survive any number of updates.
      This holds exactly when the first tag, up to its last `@`, has neither colon nor slash, and the
      repository has no `@` or the tag has one. */
  lemma RetargetingKeepsRepository(image: string, tag: string, later: string)
    requires tag != "" && later != ""
    ensures TargetImage(TargetImage(image, tag), later) == TargetImage(image, later) <==>
            && ':' !in WithoutDigest(tag) && '/' !in WithoutDigest(tag) && ('@' in tag || '@' !in Repository(image))
  {
    hide Repository, WithoutDigest;
    RepositoryOfTarget(Repository(image), tag);
    SameTail(Repository(TargetImage(image, tag)), Repository(image), [':'] + later);
    assert Repository(image) + ([':'] + later) == Repository(image) + [':'] + later;
    var again := Repository(TargetImage(image, tag));
    assert again + ([':'] + later) == again + [':'] + later;
  }

  lemma SameTail(a: string, b: string, tail: string)
    ensures a + tail == b + tail <==> a == b
  {
    if a + tail == b + tail {
      assert |a| == |b|;
      assert a == (a + tail)[..|a|] && b == (b + tail)[..|b|];
    }
  }

  /** When a reference has no repository at all. */
  lemma RepositoryIsEmptyExactly(image: string)
    ensures Repository(image) == "" <==>
            var r := WithoutDigest(image);
            r == "" || (r[0] == ':' && forall k :: 0 < k < |r| ==> r[k] != ':' && r[k] != '/')
  {
    hide LastIndex;
  }

  // ---------------------------------------------------------------- normalization

  /** A discovery row; `name` is the name, else the display name, else empty. */
  datatype Raw = Raw(
    name: string, status: Option<string>, available: bool, labels: Labels,
    kind: string, semverDiff: string, remoteValue: string, tag: string, digest: string)

  /** The live inventory row of a container. */
  datatype Live = Live(state: string, image: string, labels: Labels)

  datatype Override = Override(policy: string, risk: string)

  /** Everything besides the row itself that normalization consults. */
  datatype Context = Context(
    live: map<string, Live>, paused: set<string>, overrides: map<string, Override>, gates: map<string, StoredGate>)

  datatype Item = Item(
    name: string, container: string, state: string, image: string, candidate: string,
    change: string, policy: string, risk: string, ready: bool)

  function ChangeText(c: Change): string {
    match c
    case NoChange => "none"
    case PatchChange => "patch"
    case MinorChange => "minor"
    case MajorChange => "major"
    case Unknown => "unknown"
  }

  function VersionSeverity(v: UpdateVersion): nat {
    match v case PatchOnly => 1 case UpToMinor => 2 case UpToMajor => 3
  }

  function FirstNonEmpty(a: string, b: string): string {
    if a != "" then a else b
  }

  function LabelOr(labels: Labels, key: string, default: string): string {
    if key in labels then labels[key] else default
  }

  predicate HasVnextLabels(labels: Labels) {
    LABEL_VERSION in labels || LABEL_RESEARCH in labels
  }

  predicate SmallChange(change: string) {
    change == "patch" || change == "minor"
  }

  function ContainerName(raw: Raw): string {
    if raw.name == "" then "unknown" else raw.name
  }

  /** The labels that count: the template's win over the ones discovery reports. */
  function EffectiveLabels(raw: Raw, cx: Context): Labels {
    raw.labels + if ContainerName(raw) in cx.live then cx.live[ContainerName(raw)].labels else map[]
  }

  function StateOf(raw: Raw, cx: Context): string {
    if raw.status.Some? then raw.status.value
    else if ContainerName(raw) in cx.live then cx.live[ContainerName(raw)].state else "unknown"
  }

  /** The image the container runs, as far as the inventory knows it. */
  function ImageOf(raw: Raw, cx: Context): string {
    if ContainerName(raw) in cx.live then cx.live[ContainerName(raw)].image else ""
  }

  function OverrideOf(raw: Raw, cx: Context): Override {
    if raw.name in cx.overrides then cx.overrides[raw.name] else Override("", "")
  }

  /** The risk given by override, else by label. */
  function RiskOf(raw: Raw, cx: Context): string {
    FirstNonEmpty(OverrideOf(raw, cx).risk, LabelOr(EffectiveLabels(raw, cx), LABEL_RISK, "medium"))
  }

  /** The policy given by override, else by label. */
  function PolicyOf(raw: Raw, cx: Context): string {
    FirstNonEmpty(OverrideOf(raw, cx).policy, LabelOr(EffectiveLabels(raw, cx), LABEL_POLICY, "manual"))
  }

  function Normalize(raw: Raw, cx: Context): Item {
    var image := ImageOf(raw, cx);
    var labels := EffectiveLabels(raw, cx);
    var paused := raw.name in cx.paused;
    var vnext := FromLabels(labels);
    var policy := if vnext.Some? then PolicyText(vnext.value.policy)
                  else PolicyOf(raw, cx);
    var risk := RiskOf(raw, cx);
    var gate := EffectiveGate(cx.gates, risk);
    var state := StateOf(raw, cx);
    var running := state == "running";
    var target := TargetImage(image, if raw.kind == "tag" then raw.tag else "");
    var candidate := FirstNonEmpty(target, FirstNonEmpty(raw.tag, FirstNonEmpty(raw.digest, raw.remoteValue)));
    var discovered := FirstNonEmpty(raw.semverDiff, FirstNonEmpty(raw.kind, "unknown"));
    var container := ContainerName(raw);
    if vnext.Some? then
      var change := ChangeClass(image, target);
      var ready := raw.available && running && Classified(change)
        && Severity(change) <= VersionSeverity(vnext.value.version)
                   && target != "" && !paused && vnext.value.policy.Auto?;
      Item(raw.name, container, state, image, candidate, ChangeText(change), policy, risk, ready)
    else if HasVnextLabels(labels) then
      Item(raw.name, container, state, image, candidate, discovered, "invalid", "critical", false)
    else
      var ready := raw.available && running && SmallChange(discovered) && SmallChange(policy)
                   && discovered in gate.allowed && !gate.manual && !gate.research && target != "" && !paused;
      Item(raw.name, container, state, image, candidate, discovered, policy, risk, ready)
  }

  /** A row becomes ready for approval only at low risk, whatever gates are stored, only for a small
      change of a running, unpaused container, never under vNext labels, and only with the repository
      it runs, retagged, as its candidate. */
  lemma ReadyIsConservative(raw: Raw, cx: Context)
    requires Normalize(raw, cx).ready
    ensures var item := Normalize(raw, cx);
            && item.risk == "low" && SmallChange(item.change) && SmallChange(item.policy)
            && item.state == "running" && raw.name !in cx.paused && raw.available
            && item.candidate == Repository(ImageOf(raw, cx)) + [':'] + raw.tag && raw.tag != ""
            && !HasVnextLabels(EffectiveLabels(raw, cx))
  {
    hide FromLabels, ChangeClass, EffectiveGate, RiskOf, PolicyOf, SmallChange, Owned, Repository, EffectiveLabels;
    var image := ImageOf(raw, cx);
    var tag := if raw.kind == "tag" then raw.tag else "";
    if FromLabels(EffectiveLabels(raw, cx)).Some? {
      VnextIsNeverReady(raw, cx);
    } else {
      OnlyLowRiskOpens(cx.gates, Normalize(raw, cx).risk, Normalize(raw, cx).change);
    }
  }

  /** The candidate of a ready row names a repository exactly when the inventory has an image with one
      for the container: a container missing there gets a bare tag. */
  lemma ReadyNamesRepositoryExactly(raw: Raw, cx: Context)
    requires Normalize(raw, cx).ready
    ensures Normalize(raw, cx).candidate != [':'] + raw.tag <==>
            var r := WithoutDigest(ImageOf(raw, cx));
            r != "" && (r[0] == ':' ==> exists k :: 0 < k < |r| && (r[k] == ':' || r[k] == '/'))
  {
    hide Normalize, ImageOf, WithoutDigest, Repository;
    ReadyIsConservative(raw, cx);
    var base := Repository(ImageOf(raw, cx));
    RepositoryIsEmptyExactly(ImageOf(raw, cx));
    assert [] + [':'] + raw.tag == [':'] + raw.tag;
    if base != "" {
      assert |base + [':'] + raw.tag| > |[':'] + raw.tag|;
    }
  }

  /** Such rows exist: a small update of a container that the inventory leaves out, as it does with the
      updater's own, is ready with a candidate that is only a tag. */
  lemma MissingContainerGetsBareTag(raw: Raw, cx: Context)
    requires ContainerName(raw) !in cx.live && raw.name !in cx.overrides && raw.name !in cx.paused && "low" !in cx.gates
    requires raw.available && raw.status == Some("running")
    requires raw.kind == "tag" && raw.tag != "" && raw.semverDiff == "patch"
    requires raw.labels == map[LABEL_RISK := "low", LABEL_POLICY := "patch"]
    ensures Normalize(raw, cx).ready && Normalize(raw, cx).candidate == [':'] + raw.tag
  {
    hide Normalize, Repository, WithoutDigest, LABEL_VERSION, LABEL_RESEARCH, LABEL_RISK, LABEL_POLICY;
    RiskIsNotPolicy();
    assert EffectiveLabels(raw, cx) == raw.labels;
    assert "patch" != "" && "low" != "";
    ReadyOnParts(raw, cx);
    ReadyIsConservative(raw, cx);
    EmptyHasNoRepository();
    assert [] + [':'] + raw.tag == [':'] + raw.tag;
  }

  lemma RiskIsNotPolicy()
    ensures LABEL_RISK !in {LABEL_VERSION, LABEL_POLICY, LABEL_RESEARCH}
    ensures LABEL_POLICY !in {LABEL_VERSION, LABEL_RESEARCH}
  {
    KeysDiffer();
    assert |LABEL_RISK| == 23 && |LABEL_VERSION| == 26 && |LABEL_POLICY| == 25 && |LABEL_RESEARCH| == 27;
  }

  lemma EmptyHasNoRepository()
    ensures Repository("") == ""
  {
  }

  lemma NoTagNoTarget(image: string)
    ensures TargetImage(image, "") == ""
  {
  }

  lemma TargetIsUnclassified(image: string, target: string)
    requires ':' in target
    ensures ChangeClass(image, target) == Unknown
  {
    ColonIsNoVersion(target);
    hide Semver;
  }

  /** The vNext branch classifies whole image references, of which none is a version: a container
      with a valid vNext policy is never ready, even under `policy=auto`. */
  lemma VnextIsNeverReady(raw: Raw, cx: Context)
    requires FromLabels(EffectiveLabels(raw, cx)).Some?
    ensures !Normalize(raw, cx).ready && Normalize(raw, cx).change == "unknown"
  {
    hide FromLabels, ChangeClass, TargetImage, EffectiveGate, RiskOf, PolicyOf, Owned;
    var image := ImageOf(raw, cx);
    var tag := if raw.kind == "tag" then raw.tag else "";
    NoTagNoTarget(image);
    if tag != "" {
      TargetHasColon(image, tag);
      TargetIsUnclassified(image, TargetImage(image, tag));
    } else {
      NothingIsUnclassified(image);
    }
  }

  lemma NothingIsUnclassified(image: string)
    ensures ChangeClass(image, "") == Unknown
  {
    assert Strip("") == "";
    assert MatchVersion("").None?;
  }

  lemma {:induction false} KnownChangesFilter(xs: seq<string>, x: string)
    ensures x in KnownChanges(xs) <==> x in xs && x in CHANGES
  {
    if xs != [] {
      KnownChangesFilter(xs[1..], x);
      assert xs == [xs[0]] + xs[1..];
    }
  }

  lemma SmallChangesAreKnown(change: string)
    requires SmallChange(change)
    ensures change in CHANGES
  {
    assert CHANGES[0] == "patch" && CHANGES[1] == "minor";
  }

  lemma ReadyOnParts(raw: Raw, cx: Context)
    ensures var low := if "low" in cx.gates then cx.gates["low"] else StoredGate(None, None, None);
            Normalize(raw, cx).ready <==>
              && !HasVnextLabels(EffectiveLabels(raw, cx))
              && raw.available && StateOf(raw, cx) == "running" && raw.name !in cx.paused
              && raw.kind == "tag" && raw.tag != ""
              && RiskOf(raw, cx) == "low" && SmallChange(raw.semverDiff) && SmallChange(PolicyOf(raw, cx))
              && raw.semverDiff in Or(low.allowed, ["patch", "minor"])
              && !Or(low.research, false) && !Or(low.manual, false)
  {
    hide FromLabels, ChangeClass, TargetImage, KnownChanges, RiskOf, PolicyOf, StateOf, EffectiveLabels, Owned;
    var image := ImageOf(raw, cx);
    var tag := if raw.kind == "tag" then raw.tag else "";
    var low := if "low" in cx.gates then cx.gates["low"] else StoredGate(None, None, None);
    NoTagNoTarget(image);
    if tag != "" {
      TargetHasColon(image, tag);
    }
    if FromLabels(EffectiveLabels(raw, cx)).Some? {
      VnextIsNeverReady(raw, cx);
      VnextHasLabels(EffectiveLabels(raw, cx));
    }
    KnownChangesFilter(Or(low.allowed, ["patch", "minor"]), raw.semverDiff);
    if SmallChange(raw.semverDiff) {
      SmallChangesAreKnown(raw.semverDiff);
    }
    KindIsNoSmallChange();
    assert RISKS[0] == "low";
    assert "critical" != "low" by { assert |"critical"| != |"low"|; }
  }

  lemma KindIsNoSmallChange()
    ensures !SmallChange("tag") && !SmallChange("")
  {
    assert |"tag"| != |"patch"| && |"tag"| != |"minor"|;
  }

  lemma VnextHasLabels(labels: Labels)
    requires FromLabels(labels).Some?
    ensures HasVnextLabels(labels)
  {
    hide Strip, Lower, IsGithubRepository, ParseHold;
  }

  // ---------------------------------------------------------------- where the columns of a row come from

  /** What decides a row's risk or policy: what the operator stored for the container, else the label of
      its template, else the label that discovery reports, else the default. */
  predicate DecidedBy(value: string, stored: Option<string>, live: Option<Live>, reported: Labels, key: string,
                      default: string)
  {
    if stored.Some? && stored.value != "" then value == stored.value
    else if live.Some? && key in live.value.labels then value == live.value.labels[key]
    else if key in reported then value == reported[key]
    else value == default
  }

  predicate Labelled(raw: Raw, live: Option<Live>, key: string) {
    key in raw.labels || (live.Some? && key in live.value.labels)
  }

  /** Risk and policy of a row without vNext labels, and the risk of every row whose vNext labels are
      valid; a row with incomplete vNext labels is critical; and an operator's risk other than "low"
      keeps any row from becoming ready. */
  lemma OperatorDecidesFirst(raw: Raw, cx: Context)
    ensures var item := Normalize(raw, cx);
            var name := if raw.name == "" then "unknown" else raw.name;
            var live := if name in cx.live then Some(cx.live[name]) else None;
            var stored := if raw.name in cx.overrides then Some(cx.overrides[raw.name]) else None;
            var risk := if stored.Some? then Some(stored.value.risk) else None;
            var policy := if stored.Some? then Some(stored.value.policy) else None;
            var vnext := Labelled(raw, live, "io.jmengit.upgrade.version")
                         || Labelled(raw, live, "io.jmengit.upgrade.research");
            && (!vnext ==>
                  && DecidedBy(item.policy, policy, live, raw.labels, "io.jmengit.upgrade.policy", "manual")
                  && DecidedBy(item.risk, risk, live, raw.labels, "io.jmengit.upgrade.risk", "medium"))
            && (vnext && item.risk != "critical" ==>
                  DecidedBy(item.risk, risk, live, raw.labels, "io.jmengit.upgrade.risk", "medium"))
            && (vnext ==> !item.ready && item.policy in {"manual", "auto", "invalid"})
            && (risk.Some? && risk.value != "" && risk.value != "low" ==> !item.ready)
  {
    hide FromLabels, EffectiveGate, ChangeClass, TargetImage;
    hide LABEL_VERSION, LABEL_POLICY, LABEL_RESEARCH, LABEL_RISK, RiskOf, PolicyOf;
    LabelKeys();
    VnextHasLabelsIfAny(raw, cx);
    TagsAreDecided(raw, cx);
    if Normalize(raw, cx).ready {
      ReadyIsConservative(raw, cx);
    }
  }

  lemma TagsAreDecided(raw: Raw, cx: Context)
    ensures var name := if raw.name == "" then "unknown" else raw.name;
            var live := if name in cx.live then Some(cx.live[name]) else None;
            var stored := if raw.name in cx.overrides then Some(cx.overrides[raw.name]) else None;
            && DecidedBy(PolicyOf(raw, cx), if stored.Some? then Some(stored.value.policy) else None, live, raw.labels,
                         LABEL_POLICY, "manual")
            && DecidedBy(RiskOf(raw, cx), if stored.Some? then Some(stored.value.risk) else None, live, raw.labels,
                         LABEL_RISK, "medium")
  {
    hide LABEL_POLICY, LABEL_RISK;
  }

  lemma VnextHasLabelsIfAny(raw: Raw, cx: Context)
    ensures FromLabels(EffectiveLabels(raw, cx)).Some? ==> HasVnextLabels(EffectiveLabels(raw, cx))
  {
    if FromLabels(EffectiveLabels(raw, cx)).Some? {
      VnextHasLabels(EffectiveLabels(raw, cx));
    }
  }

  /** When a row is ready for approval: exactly when it has no vNext labels, offers an update by tag
      for a running, unpaused container, has a small difference under a small-change policy at low
      risk, and the stored low-risk gate (or its default) lets that difference through without review
      or research. */
  lemma ReadyExactlyWhen(raw: Raw, cx: Context)
    ensures var name := if raw.name == "" then "unknown" else raw.name;
            var live := if name in cx.live then Some(cx.live[name]) else None;
            var stored := if raw.name in cx.overrides then Some(cx.overrides[raw.name]) else None;
            var risk := if stored.Some? then Some(stored.value.risk) else None;
            var policy := if stored.Some? then Some(stored.value.policy) else None;
            Normalize(raw, cx).ready <==>
              && !Labelled(raw, live, "io.jmengit.upgrade.version")
              && !Labelled(raw, live, "io.jmengit.upgrade.research")
              && raw.available && raw.name !in cx.paused && raw.kind == "tag" && raw.tag != ""
              && (raw.status == Some("running") || (raw.status.None? && live.Some? && live.value.state == "running"))
              && DecidedBy("low", risk, live, raw.labels, "io.jmengit.upgrade.risk", "medium")
              && (|| DecidedBy("patch", policy, live, raw.labels, "io.jmengit.upgrade.policy", "manual")
                  || DecidedBy("minor", policy, live, raw.labels, "io.jmengit.upgrade.policy", "manual"))
              && raw.semverDiff in {"patch", "minor"}
              && ("low" in cx.gates ==>
                    && (cx.gates["low"].allowed.Some? ==> raw.semverDiff in cx.gates["low"].allowed.value)
                    && cx.gates["low"].research != Some(true) && cx.gates["low"].manual != Some(true))
  {
    hide Normalize, RiskOf, PolicyOf, LABEL_VERSION, LABEL_POLICY, LABEL_RESEARCH, LABEL_RISK, DecidedBy;
    LabelKeys();
    TagsAreDecided(raw, cx);
    ReadyOnParts(raw, cx);
    var name := if raw.name == "" then "unknown" else raw.name;
    var live := if name in cx.live then Some(cx.live[name]) else None;
    var stored := if raw.name in cx.overrides then Some(cx.overrides[raw.name]) else None;
    var risk := if stored.Some? then Some(stored.value.risk) else None;
    var policy := if stored.Some? then Some(stored.value.policy) else None;
    OneDecision("low", RiskOf(raw, cx), risk, live, raw.labels, LABEL_RISK, "medium");
    OneDecision("patch", PolicyOf(raw, cx), policy, live, raw.labels, LABEL_POLICY, "manual");
    OneDecision("minor", PolicyOf(raw, cx), policy, live, raw.labels, LABEL_POLICY, "manual");
    assert "unknown" != "running" by { assert "unknown"[0] != "running"[0]; }
    assert ["patch", "minor"][0] == "patch" && ["patch", "minor"][1] == "minor";
  }

  lemma OneDecision(a: string, b: string, stored: Option<string>, live: Option<Live>, reported: Labels, key: string,
                    default: string)
    requires DecidedBy(b, stored, live, reported, key, default)
    ensures DecidedBy(a, stored, live, reported, key, default) <==> a == b
  {
  }

  /** State, image, candidate and change of a row: discovery's state wins over the inventory's; the image
      is the inventory's; the candidate is the tag put on the image's repository if a tag is offered,
      and else the first of tag, digest and remote value that is given; the change of a row without
      vNext labels is the difference of the versions, else the kind of the update. */
  lemma ColumnsAreDiscovered(raw: Raw, cx: Context)
    ensures var item := Normalize(raw, cx);
            var name := if raw.name == "" then "unknown" else raw.name;
            && item.name == raw.name && item.container == name
            && (raw.status.Some? ==> item.state == raw.status.value)
            && (raw.status.None? && name in cx.live ==> item.state == cx.live[name].state)
            && (raw.status.None? && name !in cx.live ==> item.state == "unknown")
            && (name in cx.live ==> item.image == cx.live[name].image)
            && (name !in cx.live ==> item.image == "")
            && (raw.kind == "tag" && raw.tag != "" ==> Retags(item.candidate, item.image, raw.tag))
            && (raw.kind != "tag" && raw.tag != "" ==> item.candidate == raw.tag)
            && (raw.tag == "" && raw.digest != "" ==> item.candidate == raw.digest)
            && (raw.tag == "" && raw.digest == "" ==> item.candidate == raw.remoteValue)
            && (!HasVnextLabels(EffectiveLabels(raw, cx)) ==>
                  && (raw.semverDiff != "" ==> item.change == raw.semverDiff)
                  && (raw.semverDiff == "" && raw.kind != "" ==> item.change == raw.kind)
                  && (raw.semverDiff == "" && raw.kind == "" ==> item.change == "unknown"))
  {
    hide FromLabels, EffectiveGate, ChangeClass, TargetImage, RiskOf, PolicyOf, EffectiveLabels, HasVnextLabels;
    VnextHasLabelsIfAny(raw, cx);
    var image := ImageOf(raw, cx);
    NoTagNoTarget(image);
    if raw.kind == "tag" && raw.tag != "" {
      TargetHasColon(image, raw.tag);
      TargetRetags(image, raw.tag);
    }
  }

  /** A reference with another tag: what follows the last `@` is cut off, then what follows the last
      colon unless a slash comes after it, and the new tag is put behind a colon. */
  ghost predicate Retags(target: string, image: string, tag: string) {
    exists named, base :: Undigested(named, image) && Untagged(base, named) && target == base + ":" + tag
  }

  ghost predicate Undigested(named: string, image: string) {
    || (named == image && '@' !in image)
    || (exists digest :: image == named + "@" + digest && '@' !in digest)
  }

  ghost predicate Untagged(base: string, named: string) {
    || (exists tag :: named == base + ":" + tag && ':' !in tag && '/' !in tag)
    || (named == base && forall i :: 0 <= i < |named| && named[i] == ':' ==> '/' in named[i..])
  }

  lemma CutAt(s: string, i: nat)
    requires i < |s|
    ensures s == s[..i] + [s[i]] + s[i + 1..]
  {
  }

  lemma DigestIsCut(image: string)
    ensures Undigested(WithoutDigest(image), image)
  {
    hide LastIndex;
    var at := LastIndex(image, '@');
    if at >= 0 {
      CutAt(image, at);
      var digest := image[at + 1..];
      assert image == WithoutDigest(image) + "@" + digest && '@' !in digest;
    } else {
      assert '@' !in image;
    }
  }

  lemma TagIsCut(image: string)
    ensures Untagged(Repository(image), WithoutDigest(image))
  {
    hide LastIndex, WithoutDigest;
    var named := WithoutDigest(image);
    var colon, slash := LastIndex(named, ':'), LastIndex(named, '/');
    if colon > slash {
      CutAt(named, colon);
      var tag := named[colon + 1..];
      assert named == Repository(image) + ":" + tag && ':' !in tag && '/' !in tag;
    } else {
      forall i | 0 <= i < |named| && named[i] == ':' ensures '/' in named[i..] {
        assert i <= slash && named[i..][slash - i] == '/';
      }
    }
  }

  lemma TargetRetags(image: string, tag: string)
    requires tag != ""
    ensures Retags(TargetImage(image, tag), image, tag)
  {
    hide Undigested, Untagged, WithoutDigest, Repository;
    DigestIsCut(image);
    TagIsCut(image);
    assert Undigested(WithoutDigest(image), image) && Untagged(Repository(image), WithoutDigest(image));
    assert Repository(image) + [':'] + tag == Repository(image) + ":" + tag;
  }
}
