/** What the texts of versions, labels and holds look like, written out form by form, and that the parsers
    of `VnextPolicy` accept these forms and nothing else (src/unraid_updater/vnext_policy.py). */
module PolicyTexts {
  import opened Strings
  import opened VnextPolicy

  // ---------------------------------------------------------------- versions

  predicate Plain(c: char) {
    '0' <= c <= '9' || 'a' <= c <= 'z' || 'A' <= c <= 'Z'
  }

  /** A number as it may be written: at least one digit, leading zeros allowed. */
  predicate Numeral(s: string, n: nat) {
    s != "" && AllDigits(s) && Decimal(s) == n
  }

  /** A build or prerelease identifier behind the numbers. */
  predicate Identifier(s: string) {
    || s == ""
    || (|s| > 1 && (s[0] == '-' || s[0] == '+')
        && forall i :: 1 <= i < |s| ==> Plain(s[i]) || s[i] == '.' || s[i] == '-')
  }

  /** The text falls into an optional `v`, three numbers with dots between them, and an identifier, cut
      at `i`, `j`, `k` and `l`. */
  ghost predicate CutInThree(t: string, v: Version, i: nat, j: nat, k: nat, l: nat) {
    && i < j < k - 1 && k < l - 1 && l <= |t| && t[j] == '.' && t[k] == '.'
    && t[..i] in {"", "v", "V"} && Numeral(t[i..j], v.major) && Numeral(t[j + 1..k], v.minor)
    && Numeral(t[k + 1..l], v.patch) && Identifier(t[l..])
  }

  ghost predicate ThreeNumbers(t: string, v: Version) {
    exists i: nat, j: nat, k: nat, l: nat :: CutInThree(t, v, i, j, k, l)
  }

  /** Likewise with two numbers; the third one counts as zero. */
  ghost predicate CutInTwo(t: string, v: Version, i: nat, j: nat, k: nat) {
    && i < j < k - 1 && k <= |t| && t[j] == '.'
    && t[..i] in {"", "v", "V"} && Numeral(t[i..j], v.major) && Numeral(t[j + 1..k], v.minor)
    && v.patch == 0 && Identifier(t[k..])
  }

  ghost predicate TwoNumbers(t: string, v: Version) {
    exists i: nat, j: nat, k: nat :: CutInTwo(t, v, i, j, k)
  }

  lemma IdentifierExactly(s: string)
    ensures IsSuffix(s) <==> Identifier(s)
    ensures Identifier(s) && s != "" ==> !IsDigit(s[0]) && s[0] != '.'
  {
  }

  lemma DigitsUpTo(t: string, from: nat, to: nat)
    requires from <= to <= |t| && AllDigits(t[from..to]) && (to < |t| ==> !IsDigit(t[to]))
    ensures DigitsEnd(t, from) == to
  {
    assert forall i :: from <= i < to ==> t[i] == t[from..to][i - from];
  }

  lemma LeadingV(t: string, i: nat, j: nat)
    requires i < j <= |t| && t[..i] in {"", "v", "V"} && AllDigits(t[i..j])
    ensures i == if t[0] == 'v' || t[0] == 'V' then 1 else 0
  {
    if i == 0 {
      assert t[0] == t[i..j][0];
    } else {
      assert t[0] == t[..i][0];
    }
  }

  /** A text is read as a version exactly if it is one of the two forms. */
  lemma VersionFormsExactly(value: string, v: Version)
    ensures Semver(value) == Some(v) <==> ThreeNumbers(Strip(value), v) || TwoNumbers(Strip(value), v)
  {
    hide Strip, MatchVersion, ThreeNumbers, TwoNumbers;
    var t := Strip(value);
    if ThreeNumbers(t, v) {
      ThreeAreRead(t, v);
    }
    if TwoNumbers(t, v) {
      TwoAreRead(t, v);
    }
    if MatchVersion(t) == Some(v) {
      ReadAreForms(t, v);
    }
  }

  lemma ThreeAreRead(t: string, v: Version)
    requires ThreeNumbers(t, v)
    ensures MatchVersion(t) == Some(v)
  {
    hide MatchVersion, Decimal, AllDigits, Identifier;
    var i: nat, j: nat, k: nat, l: nat :| CutInThree(t, v, i, j, k, l);
    ThreeAreReadAt(t, i, j, k, l);
  }

  lemma ThreeAreReadAt(t: string, i: nat, j: nat, k: nat, l: nat)
    requires i < j < k < l <= |t| && j < k - 1 && k < l - 1 && t[j] == '.' && t[k] == '.'
    requires t[..i] in {"", "v", "V"} && AllDigits(t[i..j]) && AllDigits(t[j + 1..k])
    requires AllDigits(t[k + 1..l]) && Identifier(t[l..])
    ensures MatchVersion(t) == Some(Version(Decimal(t[i..j]), Decimal(t[j + 1..k]), Decimal(t[k + 1..l])))
  {
    hide MatchVersion, Decimal, IsSuffix, Identifier, AllDigits, DigitsEnd;
    LeadingV(t, i, j);
    IdentifierExactly(t[l..]);
    assert l < |t| ==> t[l] == t[l..][0];
    DigitsUpTo(t, i, j);
    DigitsUpTo(t, j + 1, k);
    DigitsUpTo(t, k + 1, l);
    MatchThree(t, i, j, k, l);
  }

  lemma MatchThree(t: string, i: nat, j: nat, k: nat, l: nat)
    requires i < j < k < l <= |t| && i == if t[0] == 'v' || t[0] == 'V' then 1 else 0
    requires DigitsEnd(t, i) == j && t[j] == '.' && j < k - 1 && DigitsEnd(t, j + 1) == k
    requires t[k] == '.' && k < l - 1 && DigitsEnd(t, k + 1) == l && IsSuffix(t[l..])
    ensures MatchVersion(t) == Some(Version(Decimal(t[i..j]), Decimal(t[j + 1..k]), Decimal(t[k + 1..l])))
  {
    hide IsSuffix, Decimal;
  }

  lemma TwoAreRead(t: string, v: Version)
    requires TwoNumbers(t, v)
    ensures MatchVersion(t) == Some(v)
  {
    hide Decimal, IsSuffix, Identifier, AllDigits;
    var i: nat, j: nat, k: nat :| CutInTwo(t, v, i, j, k);
    LeadingV(t, i, j);
    IdentifierExactly(t[k..]);
    assert k < |t| ==> t[k] == t[k..][0];
    DigitsUpTo(t, i, j);
    DigitsUpTo(t, j + 1, k);
  }

  lemma ReadAreForms(t: string, v: Version)
    requires MatchVersion(t) == Some(v)
    ensures ThreeNumbers(t, v) || TwoNumbers(t, v)
  {
    hide Decimal, IsSuffix, Identifier, Numeral;
    var i := if t != [] && (t[0] == 'v' || t[0] == 'V') then 1 else 0;
    var j := DigitsEnd(t, i);
    var k := DigitsEnd(t, j + 1);
    var l := if k < |t| && t[k] == '.' then DigitsEnd(t, k + 1) else k;
    NumeralAt(t, i, j);
    NumeralAt(t, j + 1, k);
    assert t[..i] == "" || t[..i] == "v" || t[..i] == "V";
    if l > k + 1 {
      NumeralAt(t, k + 1, l);
      IdentifierExactly(t[l..]);
      assert CutInThree(t, v, i, j, k, l);
    } else {
      IdentifierExactly(t[k..]);
      assert CutInTwo(t, v, i, j, k);
    }
  }

  lemma NumeralAt(t: string, from: nat, to: nat)
    requires from < to <= |t| && forall i :: from <= i < to ==> IsDigit(t[i])
    ensures AllDigits(t[from..to]) && Numeral(t[from..to], Decimal(t[from..to]))
  {
  }

  /** A version printed in decimal, with or without `v` and an identifier, is read back number by
      number. */
  lemma PrintedVersionIsRead(value: string, p: string, v: Version, rest: string)
    requires p in {"", "v", "V"} && Identifier(rest)
    requires Strip(value) == p + DecimalText(v.major) + "." + DecimalText(v.minor) + "." + DecimalText(v.patch) + rest
    ensures Semver(value) == Some(v)
  {
    hide Strip, Semver, Identifier, DecimalText, Decimal, AllDigits, ThreeNumbers, TwoNumbers;
    ThreeInARow(p, DecimalText(v.major), DecimalText(v.minor), DecimalText(v.patch), rest, v);
    VersionFormsExactly(value, v);
  }

  lemma Middle(t: string, u: string, w: string, rest: string)
    requires t == u + w + rest
    ensures t[..|u|] == u && t[|u|..|u| + |w|] == w && t[|u| + |w|..] == rest
  {
  }

  lemma Within(t: string, u: string, from: nat, to: nat)
    requires from <= to <= |u| && u <= t
    ensures t[from..to] == u[from..to]
  {
    assert u == t[..|u|];
  }

  lemma ThreeInARow(p: string, x: string, y: string, z: string, rest: string, v: Version)
    requires p in {"", "v", "V"} && Identifier(rest) && x != "" && y != "" && z != ""
    requires Numeral(x, v.major) && Numeral(y, v.minor) && Numeral(z, v.patch)
    ensures ThreeNumbers(p + x + "." + y + "." + z + rest, v)
  {
    hide Numeral, Identifier;
    var one := p + x + ".";
    var two := one + y + ".";
    var t := two + z + rest;
    var i := |p|;
    var j := i + |x|;
    var k := j + 1 + |y|;
    var l := k + 1 + |z|;
    Middle(one, p, x, ".");
    Middle(two, one, y, ".");
    Middle(t, two, z, rest);
    Within(t, two, 0, i);
    Within(two, one, 0, i);
    Within(t, two, i, j);
    Within(two, one, i, j);
    Within(t, two, j + 1, k);
    assert t[j] == two[j] == one[j] && t[k] == two[k];
    assert CutInThree(t, v, i, j, k, l);
  }

  // ---------------------------------------------------------------- holds

  /** How long a change from one version to another is held: by the first of the three numbers that
      differs, whichever way, and not at all if none does; an override replaces the number of days, which
      must lie between 0 and 365. The target becomes eligible once that many days have passed since every
      release that is known. */
  lemma HoldFollowsNumbers(installed: string, target: string, a: Version, b: Version, line: Option<int>,
                           exact: Option<int>, holds: Holds, override: Option<int>, now: int)
    requires Semver(installed) == Some(a) && Semver(target) == Some(b)
    ensures var decision := DecideHold(installed, target, line, exact, holds, override);
            var days :=
              if override.Some? then override.value
              else if a.major != b.major then holds.major
              else if a.minor != b.minor then holds.minor
              else holds.patch;
            if a == b then
              decision == Some(HoldDecision(NoChange, None, None, None))
            else
              && (decision.None? <==> days < 0 || days > 365)
              && (decision.Some? ==>
                    && decision.value.kind == (if a.major != b.major then MajorChange
                                               else if a.minor != b.minor then MinorChange else PatchChange)
                    && (decision.value.eligibleAt.None? <==> line.None? && exact.None?)
                    && (decision.value.lineEligibleAt.Some? <==> line.Some?)
                    && (line.Some? ==>
                          decision.value.lineEligibleAt.value - line.value == days * 24 * 60 * 60 * 1_000_000)
                    && (decision.value.exactEligibleAt.Some? <==> exact.Some?)
                    && (exact.Some? ==>
                          decision.value.exactEligibleAt.value - exact.value == days * 24 * 60 * 60 * 1_000_000)
                    && ((decision.value.eligibleAt.Some? ==> now >= decision.value.eligibleAt.value) <==>
                        && (line.Some? ==> now - line.value >= days * 24 * 60 * 60 * 1_000_000)
                        && (exact.Some? ==> now - exact.value >= days * 24 * 60 * 60 * 1_000_000)))
  {
    hide Semver;
  }

  /** A change of which one side is no version is not classified, and not held. */
  lemma UnreadableIsNotHeld(installed: string, target: string, line: Option<int>, exact: Option<int>, holds: Holds,
                            override: Option<int>)
    requires Semver(installed).None? || Semver(target).None?
    ensures DecideHold(installed, target, line, exact, holds, override) == Some(HoldDecision(Unknown, None, None, None))
  {
    hide Semver;
  }

  // ---------------------------------------------------------------- the policy labels

  /** The label is there and says `word`, in whatever case and with whitespace around it. */
  predicate Says(labels: Labels, key: string, word: string) {
    key in labels && Lower(Strip(labels[key])) == word
  }

  predicate Given(labels: Labels, key: string) {
    key in labels && labels[key] != ""
  }

  /** The address of a repository on GitHub: two names with a slash between them, and perhaps one behind
      them, where `slash` and `end` say. */
  ghost predicate GithubAddress(s: string) {
    exists slash: nat, end: nat :: AddressCut(s, slash, end)
  }

  ghost predicate AddressCut(s: string, slash: nat, end: nat) {
    && "https://github.com/" <= s && |"https://github.com/"| == 19
    && 19 < slash < end - 1 && end <= |s| && s[slash] == '/'
    && (end == |s| || (end == |s| - 1 && s[end] == '/'))
    && forall i :: 19 <= i < end && i != slash ==> Plain(s[i]) || s[i] == '_' || s[i] == '.' || s[i] == '-'
  }

  lemma GithubExactly(s: string)
    ensures IsGithubRepository(s) <==> GithubAddress(s)
  {
    hide RepositoryChar, IsGithubRepository;
    if IsGithubRepository(s) {
      AddressOfBody(s);
    }
    if GithubAddress(s) {
      var slash: nat, end: nat :| AddressCut(s, slash, end);
      BodyOfAddress(s, slash, end);
    }
  }

  lemma RepositoryChars()
    ensures forall c: char :: RepositoryChar(c) <==> Plain(c) || c == '_' || c == '.' || c == '-'
    ensures !RepositoryChar('/')
  {
  }

  lemma AddressOfBody(s: string)
    requires IsGithubRepository(s)
    ensures GithubAddress(s)
  {
    hide RepositoryChar, Plain;
    RepositoryChars();
    var site := "https://github.com/";
    assert |site| == 19;
    var path := s[|site|..];
    var body := if path != [] && path[|path| - 1] == '/' then path[..|path| - 1] else path;
    var slash := IndexFrom(body, '/', 0);
    var at, end := 19 + slash, 19 + |body|;
    forall i | 19 <= i < end && i != at ensures Plain(s[i]) || s[i] == '_' || s[i] == '.' || s[i] == '-' {
      assert s[i] == body[i - 19] && RepositoryChar(body[i - 19]);
    }
    assert s[at] == body[slash];
    assert end < |s| ==> s[end] == path[|path| - 1];
    assert AddressCut(s, at, end);
  }

  lemma BodyOfAddress(s: string, slash: nat, end: nat)
    requires "https://github.com/" <= s
    requires 19 < slash < end - 1 && end <= |s| && s[slash] == '/'
    requires end == |s| || (end == |s| - 1 && s[end] == '/')
    requires forall i :: 19 <= i < end && i != slash ==> Plain(s[i]) || s[i] == '_' || s[i] == '.' || s[i] == '-'
    ensures IsGithubRepository(s)
  {
    hide RepositoryChar, Plain;
    RepositoryChars();
    var path := s[19..];
    assert forall i :: 19 <= i < end && i != slash ==> RepositoryChar(s[i]);
    assert path[|path| - 1] == s[|s| - 1] && RepositoryChar(s[end - 1]);
    var body := if path != [] && path[|path| - 1] == '/' then path[..|path| - 1] else path;
    assert |body| == end - 19;
    forall i | 0 <= i < |body| && i != slash - 19 ensures RepositoryChar(body[i]) {
      assert body[i] == s[19 + i];
    }
    assert body[slash - 19] == '/';
    assert IndexFrom(body, '/', 0) == slash - 19;
  }

  lemma {:induction false} OnlyDecimalText(s: string)
    requires s != "" && AllDigits(s) && (s[0] != '0' || |s| == 1)
    ensures s == DecimalText(Decimal(s))
  {
    hide Decimal, DecimalText;
    var rest, d := s[..|s| - 1], s[|s| - 1] as int - '0' as int;
    DecimalStep(s);
    DecimalTextStep(Decimal(s));
    if |s| > 1 {
      OnlyDecimalText(rest);
      DecimalGrows(rest);
      assert (10 * Decimal(rest) + d) / 10 == Decimal(rest) && (10 * Decimal(rest) + d) % 10 == d;
      assert s == rest + [s[|s| - 1]];
    }
  }

  lemma DecimalStep(s: string)
    requires s != "" && AllDigits(s)
    ensures Decimal(s) == (if |s| == 1 then 0 else 10 * Decimal(s[..|s| - 1])) + (s[|s| - 1] as int - '0' as int)
  {
    assert |s| == 1 ==> s[..0] == "";
  }

  lemma DecimalTextStep(n: nat)
    ensures DecimalText(n) == (if n < 10 then [] else DecimalText(n / 10)) + [DigitChar(n % 10)]
  {
  }

  lemma {:induction false} DecimalGrows(s: string)
    requires s != "" && AllDigits(s) && s[0] != '0'
    ensures Decimal(s) > 0
  {
    if |s| == 1 {
      assert s[..0] == "";
    } else {
      DecimalGrows(s[..|s| - 1]);
    }
  }

  /** Days of a hold are read exactly from the decimal texts of 0 to 365. */
  lemma HoldDaysExactly(s: string, n: nat)
    ensures ParseHold(s) == Some(n) <==> n <= 365 && s == DecimalText(n)
  {
    hide Strip, DecimalText, Decimal;
    if n <= 365 {
      DecimalTextIsShort(n);
    }
    if ParseHold(s).Some? {
      OnlyDecimalText(s);
    }
  }

  /** Which label maps are a policy, and which policy: the three required labels each say one of their
      words; a changelog summary, if there is one, says true or false; a source that is given is blank
      or a repository on GitHub; and days that are given are 0 to 365. */
  lemma PolicyLabelsExactly(labels: Labels, p: LabelPolicy)
    ensures FromLabels(labels) == Some(p) <==>
            && Says(labels, "io.jmengit.upgrade.version",
                    match p.version case PatchOnly => "patch" case UpToMinor => "minor" case UpToMajor => "major")
            && Says(labels, "io.jmengit.upgrade.policy", match p.policy case Manual => "manual" case Auto => "auto")
            && Says(labels, "io.jmengit.upgrade.research",
                    match p.research case NoResearch => "none" case Notes => "notes" case Issues => "issues")
            && (if "io.jmengit.upgrade.changelog-summary" in labels
                then Says(labels, "io.jmengit.upgrade.changelog-summary", if p.changelogSummary then "true"
                  else "false")
                else !p.changelogSummary)
            && (if Given(labels, "io.jmengit.upgrade.source")
                then p.source == Some(Strip(labels["io.jmengit.upgrade.source"]))
                     && (p.source.value == "" || GithubAddress(p.source.value))
                else p.source == None)
            && (if Given(labels, "io.jmengit.upgrade.hold-days")
                then p.holdDays.Some? && p.holdDays.value <= 365
                     && Strip(labels["io.jmengit.upgrade.hold-days"]) == DecimalText(p.holdDays.value)
                else p.holdDays == None)
  {
    hide Strip, Lower, ParseHold, IsGithubRepository, GithubAddress, DecimalText, Word, Says;
    hide ParseVersion, ParsePolicy, ParseResearch;
    hide LABEL_VERSION, LABEL_POLICY, LABEL_RESEARCH, LABEL_CHANGELOG_SUMMARY, LABEL_SOURCE, LABEL_HOLD_DAYS;
    LabelKeys();
    WordsAreSaid(labels, p);
    SummaryIsSaid(labels, p);
    if Given(labels, LABEL_SOURCE) {
      GithubExactly(Strip(labels[LABEL_SOURCE]));
    }
    if Given(labels, LABEL_HOLD_DAYS) {
      var text := Strip(labels[LABEL_HOLD_DAYS]);
      if p.holdDays.Some? {
        HoldDaysExactly(text, p.holdDays.value);
      }
      if ParseHold(text).Some? {
        HoldDaysExactly(text, ParseHold(text).value);
      }
    }
  }

  lemma WordsAreSaid(labels: Labels, p: LabelPolicy)
    ensures ParseVersion(Word(labels, LABEL_VERSION)) == Some(p.version) <==>
            Says(labels, LABEL_VERSION,
                 match p.version case PatchOnly => "patch" case UpToMinor => "minor" case UpToMajor => "major")
    ensures ParsePolicy(Word(labels, LABEL_POLICY)) == Some(p.policy) <==>
            Says(labels, LABEL_POLICY, match p.policy case Manual => "manual" case Auto => "auto")
    ensures ParseResearch(Word(labels, LABEL_RESEARCH)) == Some(p.research) <==>
            Says(labels, LABEL_RESEARCH,
                 match p.research case NoResearch => "none" case Notes => "notes" case Issues => "issues")
  {
    hide Strip, Lower, LABEL_VERSION, LABEL_POLICY, LABEL_RESEARCH;
    WordsDiffer();
  }

  lemma SummaryIsSaid(labels: Labels, p: LabelPolicy)
    ensures LABEL_CHANGELOG_SUMMARY in labels ==>
              var word := Word(labels, LABEL_CHANGELOG_SUMMARY);
              (word == "true" || word == "false") && p.changelogSummary == (word == "true") <==>
              Says(labels, LABEL_CHANGELOG_SUMMARY, if p.changelogSummary then "true" else "false")
    ensures "true" != "false"
  {
    hide Strip, Lower, LABEL_CHANGELOG_SUMMARY;
    WordsDiffer();
  }

  /** The words of the labels, told apart by their length or their first letter. */
  lemma WordsDiffer()
    ensures "patch" != "minor" && "patch" != "major" && "minor" != "major" && "manual" != "auto"
    ensures "none" != "notes" && "none" != "issues" && "notes" != "issues" && "true" != "false"
    ensures "" !in {"patch", "minor", "major", "manual", "auto", "none", "notes", "issues", "true", "false"}
  {
    assert "patch"[0] != "minor"[0] && "minor"[1] != "major"[1];
  }
}
