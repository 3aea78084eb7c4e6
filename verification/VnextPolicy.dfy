/** Label-owned upgrade policy, tag versions and release holds
    (src/unraid_updater/vnext_policy.py, and `policy_labels` of src/unraid_updater/label_edit.py). */
module VnextPolicy {
  import opened Strings

  type Labels = map<string, string>

  const LABEL_PREFIX := "io.jmengit.upgrade."
  const LABEL_VERSION := LABEL_PREFIX + "version"
  const LABEL_POLICY := LABEL_PREFIX + "policy"
  const LABEL_RESEARCH := LABEL_PREFIX + "research"
  const LABEL_CHANGELOG_SUMMARY := LABEL_PREFIX + "changelog-summary"
  const LABEL_SOURCE := LABEL_PREFIX + "source"
  const LABEL_HOLD_DAYS := LABEL_PREFIX + "hold-days"
  const LABEL_RISK := LABEL_PREFIX + "risk"

  const OWNED_KEYS := {LABEL_VERSION, LABEL_POLICY, LABEL_RESEARCH,
                       LABEL_CHANGELOG_SUMMARY, LABEL_SOURCE, LABEL_HOLD_DAYS}

  lemma LabelKeys()
    ensures LABEL_VERSION == "io.jmengit.upgrade.version" && LABEL_POLICY == "io.jmengit.upgrade.policy"
    ensures LABEL_RESEARCH == "io.jmengit.upgrade.research" && LABEL_SOURCE == "io.jmengit.upgrade.source"
    ensures LABEL_CHANGELOG_SUMMARY == "io.jmengit.upgrade.changelog-summary"
    ensures LABEL_HOLD_DAYS == "io.jmengit.upgrade.hold-days" && LABEL_RISK == "io.jmengit.upgrade.risk"
  {
  }

  predicate Owned(key: string) {
    LABEL_PREFIX <= key
  }

  // ---------------------------------------------------------------- label policy

  datatype UpdateVersion = PatchOnly | UpToMinor | UpToMajor
  datatype ExecutionPolicy = Manual | Auto
  datatype ResearchMode = NoResearch | Notes | Issues

  datatype LabelPolicy = LabelPolicy(
    version: UpdateVersion, policy: ExecutionPolicy, research: ResearchMode,
    changelogSummary: bool, source: Option<string>, holdDays: Option<nat>)

  function VersionText(v: UpdateVersion): string {
    match v case PatchOnly => "patch" case UpToMinor => "minor" case UpToMajor => "major"
  }

  function PolicyText(p: ExecutionPolicy): string {
    match p case Manual => "manual" case Auto => "auto"
  }

  function ResearchText(r: ResearchMode): string {
    match r case NoResearch => "none" case Notes => "notes" case Issues => "issues"
  }

  function ParseVersion(s: string): Option<UpdateVersion> {
    if s == "patch" then Some(PatchOnly) else if s == "minor" then Some(UpToMinor)
    else if s == "major" then Some(UpToMajor) else None
  }

  function ParsePolicy(s: string): Option<ExecutionPolicy> {
    if s == "manual" then Some(Manual) else if s == "auto" then Some(Auto) else None
  }

  function ParseResearch(s: string): Option<ResearchMode> {
    if s == "none" then Some(NoResearch) else if s == "notes" then Some(Notes)
    else if s == "issues" then Some(Issues) else None
  }

  /** A label that must be present; the empty text fails to parse, as the source's `required` does. */
  function Word(labels: Labels, key: string): string {
    if key in labels then Lower(Strip(labels[key])) else ""
  }

  predicate RepositoryChar(c: char) {
    IsAlnum(c) || c == '_' || c == '.' || c == '-'
  }

  /** `owner/repository`. */
  predicate IsRepositoryPath(path: string) {
    var slash := IndexFrom(path, '/', 0);
    && 0 < slash < |path| - 1
    && forall i :: 0 <= i < |path| && i != slash ==> RepositoryChar(path[i])
  }

  /** `https://github.com/owner/repository` with an optional final slash. */
  predicate IsGithubRepository(s: string) {
    var site := "https://github.com/";
    && site <= s
    && var path := s[|site|..];
       IsRepositoryPath(if path != [] && path[|path| - 1] == '/' then path[..|path| - 1] else path)
  }

  function ParseHold(s: string): Option<nat> {
    if 1 <= |s| <= 3 && AllDigits(s) && (s[0] != '0' || |s| == 1) && Decimal(s) <= 365
    then Some(Decimal(s)) else None
  }

  /** `LabelPolicy.from_labels`; `None` stands for its ValueError. */
  function FromLabels(labels: Labels): Option<LabelPolicy> {
    var version := ParseVersion(Word(labels, LABEL_VERSION));
    var policy := ParsePolicy(Word(labels, LABEL_POLICY));
    var research := ParseResearch(Word(labels, LABEL_RESEARCH));
    var summary := if LABEL_CHANGELOG_SUMMARY in labels then Word(labels, LABEL_CHANGELOG_SUMMARY) else "false";
    var source := if LABEL_SOURCE in labels && labels[LABEL_SOURCE] != ""
                  then Some(Strip(labels[LABEL_SOURCE])) else None;
    var holdGiven := LABEL_HOLD_DAYS in labels && labels[LABEL_HOLD_DAYS] != "";
    var hold := if holdGiven then ParseHold(Strip(labels[LABEL_HOLD_DAYS])) else None;
    if version.None? || policy.None? || research.None? then None
    else if summary != "true" && summary != "false" then None
    else if source.Some? && source.value != "" && !IsGithubRepository(source.value) then None
    else if holdGiven && hold.None? then None
    else Some(LabelPolicy(version.value, policy.value, research.value, summary == "true", source, hold))
  }

  function AsLabels(p: LabelPolicy): Labels {
    var required := map[
      LABEL_VERSION := VersionText(p.version),
      LABEL_POLICY := PolicyText(p.policy),
      LABEL_RESEARCH := ResearchText(p.research),
      LABEL_CHANGELOG_SUMMARY := if p.changelogSummary then "true" else "false"];
    var withSource := if p.source.Some? && p.source.value != ""
                      then required[LABEL_SOURCE := p.source.value] else required;
    if p.holdDays.Some? then withSource[LABEL_HOLD_DAYS := DecimalText(p.holdDays.value)] else withSource
  }

  /** The six owned labels that carry a value. */
  function PolicyLabels(labels: Labels): Labels {
    map key | key in labels.Keys * OWNED_KEYS && labels[key] != "" :: labels[key]
  }

  datatype Edit = Edit(before: Option<string>, after: Option<string>)

  function ValueAt(labels: Labels, key: string): Option<string> {
    if key in labels then Some(labels[key]) else None
  }

  /** `policy_diff`: the owned labels that differ, with the texts on both sides. */
  function PolicyDiff(before: Labels, after: Labels): map<string, Edit> {
    map key | key in PolicyLabels(before).Keys + PolicyLabels(after).Keys && ValueAt(before, key) != ValueAt(after, key)
      :: Edit(ValueAt(before, key), ValueAt(after, key))
  }

  /** `before` with every difference carried over. */
  function Patched(before: Labels, diff: map<string, Edit>): Labels {
    map key | key in before.Keys + diff.Keys && (key in diff ==> diff[key].after.Some?)
      :: if key in diff then diff[key].after.value else before[key]
  }

  lemma DiffAt(before: Labels, after: Labels, key: string)
    ensures key in PolicyDiff(before, after) <==>
            ValueAt(PolicyLabels(before), key) != ValueAt(PolicyLabels(after), key)
    ensures key in PolicyDiff(before, after) ==>
            key in OWNED_KEYS && PolicyDiff(before, after)[key].after == ValueAt(after, key)
  {
    hide OWNED_KEYS;
  }

  /** The difference is empty exactly when both sides carry the same policy labels, and it is all that
      is needed to turn one side's policy labels into the other's. */
  lemma DiffIsExact(before: Labels, after: Labels)
    ensures PolicyDiff(before, after) == map[] <==> PolicyLabels(before) == PolicyLabels(after)
    ensures PolicyLabels(Patched(before, PolicyDiff(before, after))) == PolicyLabels(after)
  {
    hide OWNED_KEYS, PolicyDiff;
    var diff := PolicyDiff(before, after);
    forall key ensures key in diff <==> ValueAt(PolicyLabels(before), key) != ValueAt(PolicyLabels(after), key) {
      DiffAt(before, after, key);
    }
    assert PolicyLabels(before) == PolicyLabels(after) <==> diff == map[] by {
      SameLookups(PolicyLabels(before), PolicyLabels(after));
    }
    var patched := PolicyLabels(Patched(before, diff));
    forall key ensures ValueAt(patched, key) == ValueAt(PolicyLabels(after), key) {
      DiffAt(before, after, key);
    }
    SameLookups(patched, PolicyLabels(after));
  }

  lemma SameLookups(a: Labels, b: Labels)
    ensures a == b <==> forall key :: ValueAt(a, key) == ValueAt(b, key)
  {
    if forall key :: ValueAt(a, key) == ValueAt(b, key) {
      forall key ensures key in a <==> key in b {
        assert ValueAt(a, key) == ValueAt(b, key);
      }
      forall key | key in a ensures a[key] == b[key] {
        assert ValueAt(a, key) == ValueAt(b, key);
      }
    }
  }

  /** Every policy that parsing accepts is printed as labels that parse to the same policy, except
      one whose source label was nothing but whitespace: it is kept as an empty source and then
      dropped in print. */
  lemma PrintedPolicyParsesBack(labels: Labels)
    requires FromLabels(labels).Some?
    ensures var p := FromLabels(labels).value;
            FromLabels(AsLabels(p)) == Some(p) <==> p.source != Some("")
  {
    ParsedIsWellFormed(labels);
    WellFormedParsesBack(FromLabels(labels).value);
  }

  /** What parsing guarantees about a policy's optional parts. */
  predicate WellFormed(p: LabelPolicy) {
    && (p.source.Some? ==> Trimmed(p.source.value) && (p.source.value == "" || IsGithubRepository(p.source.value)))
    && (p.holdDays.Some? ==> p.holdDays.value <= 365)
  }

  lemma ParsedIsWellFormed(labels: Labels)
    requires FromLabels(labels).Some?
    ensures WellFormed(FromLabels(labels).value)
  {
    hide IsGithubRepository, Word, Decimal, AllDigits;
  }

  lemma WellFormedParsesBack(p: LabelPolicy)
    requires WellFormed(p)
    ensures FromLabels(AsLabels(p)) == Some(p) <==> p.source != Some("")
  {
    hide IsGithubRepository, AsLabels, Word, ParseHold, Strip, DecimalText;
    hide LABEL_VERSION, LABEL_POLICY, LABEL_RESEARCH, LABEL_CHANGELOG_SUMMARY, LABEL_SOURCE, LABEL_HOLD_DAYS;
    var printed := AsLabels(p);
    WordsOf(printed, p);
    OptionalOf(p);
    if p.holdDays.Some? {
      DecimalTextIsShort(p.holdDays.value);
    }
  }

  lemma KeysDiffer()
    ensures LABEL_VERSION !in {LABEL_POLICY, LABEL_RESEARCH, LABEL_CHANGELOG_SUMMARY, LABEL_SOURCE, LABEL_HOLD_DAYS}
    ensures LABEL_POLICY !in {LABEL_RESEARCH, LABEL_CHANGELOG_SUMMARY, LABEL_SOURCE, LABEL_HOLD_DAYS}
    ensures LABEL_RESEARCH !in {LABEL_CHANGELOG_SUMMARY, LABEL_SOURCE, LABEL_HOLD_DAYS}
    ensures LABEL_CHANGELOG_SUMMARY !in {LABEL_SOURCE, LABEL_HOLD_DAYS}
    ensures LABEL_SOURCE != LABEL_HOLD_DAYS
    ensures forall k :: k in OWNED_KEYS ==> Owned(k)
  {
    assert |LABEL_VERSION| == 26 && |LABEL_POLICY| == 25 && |LABEL_RESEARCH| == 27;
    assert |LABEL_CHANGELOG_SUMMARY| == 36 && |LABEL_SOURCE| == 25 && |LABEL_HOLD_DAYS| == 28;
    assert LABEL_POLICY[19] == 'p' && LABEL_SOURCE[19] == 's';
  }

  lemma WordsOf(printed: Labels, p: LabelPolicy)
    requires printed == AsLabels(p)
    ensures Word(printed, LABEL_VERSION) == VersionText(p.version)
    ensures Word(printed, LABEL_POLICY) == PolicyText(p.policy)
    ensures Word(printed, LABEL_RESEARCH) == ResearchText(p.research)
    ensures LABEL_CHANGELOG_SUMMARY in printed
    ensures Word(printed, LABEL_CHANGELOG_SUMMARY) == if p.changelogSummary then "true" else "false"
  {
    hide AsLabels, Strip, Lower, VersionText, PolicyText, ResearchText, OWNED_KEYS;
    hide LABEL_VERSION, LABEL_POLICY, LABEL_RESEARCH, LABEL_CHANGELOG_SUMMARY;
    RequiredOf(p);
    PlainWords(p);
  }

  lemma RequiredOf(p: LabelPolicy)
    ensures var printed := AsLabels(p);
            && LABEL_VERSION in printed && printed[LABEL_VERSION] == VersionText(p.version)
            && LABEL_POLICY in printed && printed[LABEL_POLICY] == PolicyText(p.policy)
            && LABEL_RESEARCH in printed && printed[LABEL_RESEARCH] == ResearchText(p.research)
            && LABEL_CHANGELOG_SUMMARY in printed
            && printed[LABEL_CHANGELOG_SUMMARY] == if p.changelogSummary then "true" else "false"
  {
    hide VersionText, PolicyText, ResearchText, DecimalText, LABEL_PREFIX, OWNED_KEYS;
    hide LABEL_VERSION, LABEL_POLICY, LABEL_RESEARCH, LABEL_CHANGELOG_SUMMARY, LABEL_SOURCE, LABEL_HOLD_DAYS;
    KeysDiffer();
  }

  lemma OptionalOf(p: LabelPolicy)
    ensures var printed := AsLabels(p);
            && (LABEL_SOURCE in printed <==> p.source.Some? && p.source.value != "")
            && (LABEL_SOURCE in printed ==> printed[LABEL_SOURCE] == p.source.value)
            && (LABEL_HOLD_DAYS in printed <==> p.holdDays.Some?)
            && (LABEL_HOLD_DAYS in printed ==> printed[LABEL_HOLD_DAYS] == DecimalText(p.holdDays.value))
  {
    hide VersionText, PolicyText, ResearchText, DecimalText, LABEL_PREFIX, OWNED_KEYS;
    hide LABEL_VERSION, LABEL_POLICY, LABEL_RESEARCH, LABEL_CHANGELOG_SUMMARY, LABEL_SOURCE, LABEL_HOLD_DAYS;
    KeysDiffer();
  }

  lemma PlainWords(p: LabelPolicy)
    ensures Lower(Strip(VersionText(p.version))) == VersionText(p.version)
    ensures Lower(Strip(PolicyText(p.policy))) == PolicyText(p.policy)
    ensures Lower(Strip(ResearchText(p.research))) == ResearchText(p.research)
    ensures Lower(Strip("true")) == "true" && Lower(Strip("false")) == "false"
  {
    hide Strip, Lower;
    LowerWord(VersionText(p.version));
    LowerWord(PolicyText(p.policy));
    LowerWord(ResearchText(p.research));
    LowerWord("true");
    LowerWord("false");
  }

  lemma LowerWord(s: string)
    requires forall i :: 0 <= i < |s| ==> 'a' <= s[i] <= 'z'
    ensures Lower(Strip(s)) == s
  {
    assert Trimmed(s);
  }

  lemma DecimalTextIsShort(n: nat)
    requires n <= 365
    ensures ParseHold(DecimalText(n)) == Some(n)
    ensures Strip(DecimalText(n)) == DecimalText(n)
  {
    hide Strip, DecimalText, Decimal;
    DigitsOf(n);
    assert n == 0 ==> |DecimalText(n)| == 1;
    assert Trimmed(DecimalText(n));
  }

  lemma DigitsOf(n: nat)
    ensures n < 10 ==> |DecimalText(n)| == 1
    ensures n >= 10 ==> |DecimalText(n)| == |DecimalText(n / 10)| + 1
    ensures n < 1000 ==> |DecimalText(n)| <= 3
  {
  }

  /** A source of whitespace only is accepted and then lost. */
  lemma WhitespaceSourceIsLost(labels: Labels)
    requires FromLabels(labels).Some?
    requires LABEL_SOURCE in labels && labels[LABEL_SOURCE] != "" && forall c :: c in labels[LABEL_SOURCE] ==>
             IsSpace(c)
    ensures FromLabels(AsLabels(FromLabels(labels).value)) != FromLabels(labels)
  {
    hide FromLabels, AsLabels, Strip, IsSpace;
    PrintedPolicyParsesBack(labels);
    SourceIsStripped(labels);
    BlankStrips(labels[LABEL_SOURCE]);
  }

  lemma SourceIsStripped(labels: Labels)
    requires FromLabels(labels).Some?
    requires LABEL_SOURCE in labels && labels[LABEL_SOURCE] != ""
    ensures FromLabels(labels).value.source == Some(Strip(labels[LABEL_SOURCE]))
  {
    hide Strip, Word, ParseHold, IsGithubRepository;
  }

  lemma {:induction false} BlankStrips(s: string)
    requires forall c :: c in s ==> IsSpace(c)
    ensures Strip(s) == ""
  {
    hide IsSpace;
    if s != [] {
      assert s[0] in s;
      BlankStrips(s[1..]);
    }
  }

  // ---------------------------------------------------------------- versions

  datatype Version = Version(major: nat, minor: nat, patch: nat)

  predicate AtMost(a: Version, b: Version) {
    || a.major < b.major
    || (a.major == b.major && a.minor < b.minor)
    || (a.major == b.major && a.minor == b.minor && a.patch <= b.patch)
  }

  predicate SuffixChar(c: char) {
    IsAlnum(c) || c == '.' || c == '-'
  }

  /** What may follow the numbers: nothing, or `-` or `+` and at least one identifier character. */
  predicate IsSuffix(s: string) {
    s == [] || ((s[0] == '-' || s[0] == '+') && |s| > 1 && forall i :: 1 <= i < |s| ==> SuffixChar(s[i]))
  }

  /** The anchored pattern of `semver`, on text without surrounding whitespace. */
  function MatchVersion(t: string): Option<Version> {
    var start := if t != [] && (t[0] == 'v' || t[0] == 'V') then 1 else 0;
    var a := DigitsEnd(t, start);
    if a == start || a == |t| || t[a] != '.' then None
    else
      var b := DigitsEnd(t, a + 1);
      if b == a + 1 then None
      else
        var c := if b < |t| && t[b] == '.' then DigitsEnd(t, b + 1) else b;
        var third := c > b + 1;
        if !IsSuffix(t[if third then c else b..]) then None
        else Some(Version(Decimal(t[start..a]), Decimal(t[a + 1..b]), if third then Decimal(t[b + 1..c]) else 0))
  }

  function Semver(value: string): Option<Version> {
    MatchVersion(Strip(value))
  }

  /** No text with a colon, and so no image reference with a tag, is a version. */
  lemma ColonIsNoVersion(value: string)
    requires ':' in value
    ensures Semver(value) == None
  {
    hide MatchVersion, Strip;
    StripKeeps(value, ':');
    if Semver(value).Some? {
      VersionHasNoColon(Strip(value));
    }
  }

  lemma VersionHasNoColon(t: string)
    requires MatchVersion(t).Some?
    ensures ':' !in t
  {
    hide Decimal, IsSuffix;
    var start := if t != [] && (t[0] == 'v' || t[0] == 'V') then 1 else 0;
    var a := DigitsEnd(t, start);
    var b := DigitsEnd(t, a + 1);
    var c := if b < |t| && t[b] == '.' then DigitsEnd(t, b + 1) else b;
    var rest := if c > b + 1 then c else b;
    SuffixHasNoColon(t[rest..]);
    forall i | 0 <= i < |t| ensures t[i] != ':' {
      if i >= rest {
        assert t[i] == t[rest..][i - rest];
      }
    }
  }

  lemma SuffixHasNoColon(s: string)
    ensures IsSuffix(s) ==> ':' !in s
  {
  }

  // ---------------------------------------------------------------- change classes

  datatype Change = NoChange | PatchChange | MinorChange | MajorChange | Unknown

  function ClassBetween(current: Version, final: Version): Change {
    if final.major != current.major then MajorChange
    else if final.minor != current.minor then MinorChange
    else if final.patch != current.patch then PatchChange
    else NoChange
  }

  function ChangeClass(installed: string, target: string): Change {
    var current, final := Semver(installed), Semver(target);
    if current.None? || final.None? then Unknown else ClassBetween(current.value, final.value)
  }

  predicate Classified(c: Change) {
    c.PatchChange? || c.MinorChange? || c.MajorChange?
  }

  /** The severity order none < patch < minor < major. */
  function Severity(c: Change): nat {
    match c
    case NoChange => 0
    case PatchChange => 1
    case MinorChange => 2
    case MajorChange => 3
    case Unknown => 4
  }

  function Worse(a: Change, b: Change): Change {
    if Severity(a) >= Severity(b) then a else b
  }

  ghost predicate Ascending(vs: seq<Version>) {
    forall i :: 0 < i < |vs| ==> AtMost(vs[i - 1], vs[i])
  }

  /** The worst class over the single steps of a chain. */
  function WorstStep(vs: seq<Version>): Change
    requires |vs| > 0
  {
    if |vs| == 1 then NoChange else Worse(ClassBetween(vs[0], vs[1]), WorstStep(vs[1..]))
  }

  lemma {:induction false} AscendingEnds(vs: seq<Version>)
    requires |vs| > 0 && Ascending(vs)
    ensures AtMost(vs[0], vs[|vs| - 1])
  {
    if |vs| > 1 {
      var tail := vs[1..];
      assert forall i :: 0 < i < |tail| ==> tail[i - 1] == vs[i] && tail[i] == vs[i + 1];
      AscendingEnds(tail);
      assert AtMost(vs[0], vs[1]) && tail[0] == vs[1] && tail[|tail| - 1] == vs[|vs| - 1];
    }
  }

  /** The class from installed to final is the worst class among the releases between them: no
      chain of releases hides a major or minor step behind later small ones. */
  lemma {:induction false} ChainClassIsWorstStep(vs: seq<Version>)
    requires |vs| > 0 && Ascending(vs)
    ensures ClassBetween(vs[0], vs[|vs| - 1]) == WorstStep(vs)
  {
    if |vs| > 1 {
      var tail := vs[1..];
      assert forall i :: 0 < i < |tail| ==> tail[i - 1] == vs[i] && tail[i] == vs[i + 1];
      ChainClassIsWorstStep(tail);
      AscendingEnds(tail);
      assert AtMost(vs[0], vs[1]) && tail[0] == vs[1] && tail[|tail| - 1] == vs[|vs| - 1];
    }
  }

  lemma {:induction false} WorstStepBounds(vs: seq<Version>, i: nat)
    requires i + 1 < |vs|
    ensures Severity(ClassBetween(vs[i], vs[i + 1])) <= Severity(WorstStep(vs))
  {
    if i > 0 {
      WorstStepBounds(vs[1..], i - 1);
    }
  }

  // ---------------------------------------------------------------- holds

  const DAY := 86_400_000_000

  datatype Holds = Holds(patch: int, minor: int, major: int)

  function DaysFor(holds: Holds, c: Change): int
    requires Classified(c)
  {
    match c case PatchChange => holds.patch case MinorChange => holds.minor case MajorChange => holds.major
  }

  datatype HoldDecision = HoldDecision(
    kind: Change, eligibleAt: Option<int>, lineEligibleAt: Option<int>, exactEligibleAt: Option<int>)
  {
    predicate Eligible(now: int) {
      eligibleAt.None? || now >= eligibleAt.value
    }
  }

  function After(release: Option<int>, days: int): Option<int> {
    if release.Some? then Some(release.value + days * DAY) else None
  }

  function Later(a: Option<int>, b: Option<int>): Option<int> {
    if a.None? then b else if b.None? then a else if a.value >= b.value then a else b
  }

  /** `hold_decision`, with instants in microseconds; `None` is the ValueError for days out of range. */
  function DecideHold(installed: string, target: string, line: Option<int>, exact: Option<int>,
                      holds: Holds, override: Option<int>): Option<HoldDecision>
  {
    var kind := ChangeClass(installed, target);
    if !Classified(kind) then Some(HoldDecision(kind, None, None, None))
    else
      var days := if override.Some? then override.value else DaysFor(holds, kind);
      if !(0 <= days <= 365) then None
      else Some(HoldDecision(kind, Later(After(line, days), After(exact, days)), After(line, days), After(exact, days)))
  }

  ghost predicate Parsed(tags: seq<string>, vs: seq<Version>) {
    && |tags| == |vs|
    && forall i :: 0 <= i < |tags| ==> Semver(tags[i]) == Some(vs[i])
  }

  /** Collision safety: whatever releases lie between the installed and the target tag, the decision
      holds the target for at least the hold of every single step, counted from the line release and
      from the exact release. */
  lemma ChainCannotShortenHold(tags: seq<string>, vs: seq<Version>, i: nat, line: Option<int>, exact: Option<int>,
                               holds: Holds, override: Option<int>)
    requires Parsed(tags, vs) && Ascending(vs) && i + 1 < |tags|
    requires holds.patch <= holds.minor <= holds.major
    requires Classified(ChangeClass(tags[i], tags[i + 1]))
    ensures var decision := DecideHold(tags[0], tags[|tags| - 1], line, exact, holds, override);
            var step := if override.Some? then override.value else DaysFor(holds, ChangeClass(tags[i], tags[i + 1]));
            decision.Some? ==>
              && Classified(decision.value.kind)
              && (line.Some? || exact.Some? ==> decision.value.eligibleAt.Some?)
              && (line.Some? ==> decision.value.eligibleAt.value >= line.value + step * DAY)
              && (exact.Some? ==> decision.value.eligibleAt.value >= exact.value + step * DAY)
  {
    hide Semver;
    ChainClassIsWorstStep(vs);
    WorstStepBounds(vs, i);
    assert Semver(tags[0]) == Some(vs[0]) && Semver(tags[|tags| - 1]) == Some(vs[|vs| - 1]);
    assert Semver(tags[i]) == Some(vs[i]) && Semver(tags[i + 1]) == Some(vs[i + 1]);
  }

  /** A decision is never eligible before its hold, and is eligible once every known hold passed;
      an unclassified change carries no hold at all. */
  lemma EligibleExactlyAfterHolds(installed: string, target: string, line: Option<int>, exact: Option<int>,
                                  holds: Holds, override: Option<int>, now: int)
    requires DecideHold(installed, target, line, exact, holds, override).Some?
    ensures var kind := ChangeClass(installed, target);
            DecideHold(installed, target, line, exact, holds, override).value.Eligible(now) <==>
            (Classified(kind) ==>
               var days := if override.Some? then override.value else DaysFor(holds, kind);
               && (line.Some? ==> now - line.value >= days * DAY)
               && (exact.Some? ==> now - exact.value >= days * DAY))
  {
    hide ChangeClass;
  }
}
