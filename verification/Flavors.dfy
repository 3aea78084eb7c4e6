/** Choosing the newest tag without changing flavour (src/unraid_updater/domain/policy.py). */
module Flavors {
  import opened Strings
  import opened VnextPolicy

  // ---------------------------------------------------------------- versions and flavours of tags

  /** Two or three dotted numbers starting exactly at `i`, and where they end. */
  function NumbersAt(s: string, i: nat): Option<(Version, nat)>
    requires i <= |s|
  {
    var a := DigitsEnd(s, i);
    if a == i || a == |s| || s[a] != '.' then None
    else
      var b := DigitsEnd(s, a + 1);
      if b == a + 1 then None
      else
        var c := if b < |s| && s[b] == '.' then DigitsEnd(s, b + 1) else b;
        if c > b + 1 then Some((Version(Decimal(s[i..a]), Decimal(s[a + 1..b]), Decimal(s[b + 1..c])), c))
        else Some((Version(Decimal(s[i..a]), Decimal(s[a + 1..b]), 0), b))
  }

  /** The first numbers that do not continue a run of digits. */
  function SearchVersion(s: string, i: nat): Option<Version>
    requires i <= |s|
    decreases |s| - i
  {
    if (i == 0 || !IsDigit(s[i - 1])) && NumbersAt(s, i).Some? then Some(NumbersAt(s, i).value.0)
    else if i == |s| then None
    else SearchVersion(s, i + 1)
  }

  function VersionTuple(tag: string): Option<Version> {
    SearchVersion(tag, 0)
  }

  function SearchSuffix(s: string, i: nat): string
    requires i <= |s|
    decreases |s| - i
  {
    if NumbersAt(s, i).Some? && NumbersAt(s, i).value.1 <= |s| then s[NumbersAt(s, i).value.1..]
    else if i == |s| then ""
    else SearchSuffix(s, i + 1)
  }

  predicate IsBuildSuffix(s: string) {
    "-ls" <= s && |s| > 3 && AllDigits(s[3..])
  }

  /** What follows the version in the tag, in lower case; numbered `-ls` builds are one family. */
  function Flavor(reference: string): string {
    var at := LastIndex(reference, '@');
    var named := if at >= 0 then reference[..at] else reference;
    var suffix := Lower(SearchSuffix(named[LastIndex(named, ':') + 1..], 0));
    if IsBuildSuffix(suffix) then "-ls" else suffix
  }

  // ---------------------------------------------------------------- the choice

  predicate Newer(a: Version, b: Version) {
    !AtMost(a, b)
  }

  predicate Eligible(tag: string, current: string) {
    && VersionTuple(current).Some? && VersionTuple(tag).Some?
    && Flavor(tag) == Flavor(current) && Newer(VersionTuple(tag).value, VersionTuple(current).value)
  }

  /** The tags newer than `current` in its own flavour, in order. */
  function Choices(tags: seq<string>, current: string): seq<string> {
    if tags == [] then []
    else Choices(tags[..|tags| - 1], current) + if Eligible(tags[|tags| - 1], current) then [tags[|tags| - 1]] else []
  }

  /** Python's `max` by version: the first maximal element. */
  function FirstMaximal(tags: seq<string>): string
    requires tags != [] && forall t :: t in tags ==> VersionTuple(t).Some?
  {
    if |tags| == 1 then tags[0]
    else
      var best, last := FirstMaximal(tags[..|tags| - 1]), tags[|tags| - 1];
      if VersionTuple(best).Some? && Newer(VersionTuple(last).value, VersionTuple(best).value) then last else best
  }

  lemma {:induction false} ChoicesAreEligible(tags: seq<string>, current: string)
    ensures forall t :: t in Choices(tags, current) <==> t in tags && Eligible(t, current)
  {
    hide Eligible;
    if tags != [] {
      ChoicesAreEligible(tags[..|tags| - 1], current);
      assert tags == tags[..|tags| - 1] + [tags[|tags| - 1]];
    }
  }

  function BestFlavoredTag(tags: seq<string>, current: string): Option<string> {
    ChoicesAreEligible(tags, current);
    if Choices(tags, current) == [] then None else Some(FirstMaximal(Choices(tags, current)))
  }

  lemma {:induction false} FirstMaximalIsMaximal(tags: seq<string>)
    requires tags != [] && forall t :: t in tags ==> VersionTuple(t).Some?
    ensures FirstMaximal(tags) in tags
    ensures forall t :: t in tags ==> AtMost(VersionTuple(t).value, VersionTuple(FirstMaximal(tags)).value)
  {
    hide VersionTuple;
    if |tags| > 1 {
      var rest, last := tags[..|tags| - 1], tags[|tags| - 1];
      assert forall t :: t in tags <==> t in rest || t == last;
      FirstMaximalIsMaximal(rest);
    }
  }

  lemma {:induction false} FirstMaximalFacts(tags: seq<string>)
    requires tags != [] && forall t :: t in tags ==> VersionTuple(t).Some?
    ensures var best := FirstMaximal(tags);
            && best in tags
            && (forall t :: t in tags ==> AtMost(VersionTuple(t).value, VersionTuple(best).value))
            && exists i: nat :: i < |tags| && tags[i] == best
                 && forall j :: 0 <= j < i ==> Newer(VersionTuple(best).value, VersionTuple(tags[j]).value)
  {
    hide VersionTuple, AtMost;
    FirstMaximalIsMaximal(tags);
    if |tags| > 1 {
      var rest, last := tags[..|tags| - 1], tags[|tags| - 1];
      FirstMaximalFacts(rest);
      var best := FirstMaximal(rest);
      if Newer(VersionTuple(last).value, VersionTuple(best).value) {
        forall j | 0 <= j < |tags| - 1 ensures Newer(VersionTuple(last).value, VersionTuple(tags[j]).value) {
          assert rest[j] == tags[j];
          StillNewer(VersionTuple(last).value, VersionTuple(best).value, VersionTuple(tags[j]).value);
        }
      } else {
        var i :| 0 <= i < |rest| && rest[i] == best
                 && forall j :: 0 <= j < i ==> Newer(VersionTuple(best).value, VersionTuple(rest[j]).value);
        assert tags[i] == best;
        assert forall j :: 0 <= j < i ==> tags[j] == rest[j];
      }
    }
  }

  lemma StillNewer(a: Version, b: Version, c: Version)
    requires Newer(a, b) && AtMost(c, b)
    ensures Newer(a, c)
  {
  }

  /** The chosen tag is the newest newer tag of the installed flavour; there is none exactly when the
      list has no newer tag of that flavour. */
  lemma BestIsNewest(tags: seq<string>, current: string)
    ensures BestFlavoredTag(tags, current).None? <==> forall t :: t in tags ==> !Eligible(t, current)
    ensures BestFlavoredTag(tags, current).Some? ==>
              var best := BestFlavoredTag(tags, current).value;
              && best in tags && Eligible(best, current)
              && forall t :: t in tags && Eligible(t, current) ==>
                 AtMost(VersionTuple(t).value, VersionTuple(best).value)
  {
    hide VersionTuple, Flavor;
    ChoicesAreEligible(tags, current);
    if Choices(tags, current) == [] {
      forall t | t in tags ensures !Eligible(t, current) {
        assert t !in Choices(tags, current);
      }
    } else {
      FirstMaximalFacts(Choices(tags, current));
      assert Choices(tags, current)[0] in Choices(tags, current);
    }
  }

  ghost predicate FirstAt(tags: seq<string>, current: string, best: string, i: nat)
    requires VersionTuple(best).Some?
  {
    && i < |tags| && tags[i] == best
    && forall j :: 0 <= j < i && Eligible(tags[j], current) ==>
       Newer(VersionTuple(best).value, VersionTuple(tags[j]).value)
  }

  /** The choices keep the order of the list. */
  lemma {:induction false} ChoiceInList(tags: seq<string>, current: string, p: nat) returns (i: nat)
    requires p < |Choices(tags, current)|
    ensures i < |tags| && tags[i] == Choices(tags, current)[p]
    ensures forall j :: 0 <= j < i && Eligible(tags[j], current) ==> tags[j] in Choices(tags, current)[..p]
  {
    hide Eligible;
    var rest := tags[..|tags| - 1];
    if p < |Choices(rest, current)| {
      i := ChoiceInList(rest, current, p);
      assert Choices(tags, current)[..p] == Choices(rest, current)[..p];
    } else {
      i := |tags| - 1;
      ChoicesAreEligible(rest, current);
      assert Choices(tags, current)[..p] == Choices(rest, current);
      forall j | 0 <= j < i && Eligible(tags[j], current) ensures tags[j] in Choices(rest, current) {
        assert tags[j] == rest[j] && rest[j] in rest;
      }
    }
  }

  /** Among equally new tags the choice is the one that comes first in the published list. */
  lemma BestComesFirst(tags: seq<string>, current: string)
    requires BestFlavoredTag(tags, current).Some?
    ensures VersionTuple(BestFlavoredTag(tags, current).value).Some?
    ensures exists i: nat :: FirstAt(tags, current, BestFlavoredTag(tags, current).value, i)
  {
    hide VersionTuple, Flavor;
    ChoicesAreEligible(tags, current);
    var choices, best := Choices(tags, current), BestFlavoredTag(tags, current).value;
    FirstMaximalFacts(choices);
    var p: nat :| p < |choices| && choices[p] == best
      && forall j :: 0 <= j < p ==> Newer(VersionTuple(best).value, VersionTuple(choices[j]).value);
    var i := ChoiceInList(tags, current, p);
    assert FirstAt(tags, current, best, i);
  }

  /** One upgrade exhausts a tag list. */
  lemma ListIsExhausted(tags: seq<string>, current: string)
    requires BestFlavoredTag(tags, current).Some?
    ensures BestFlavoredTag(tags, BestFlavoredTag(tags, current).value).None?
  {
    hide VersionTuple, Flavor, BestFlavoredTag;
    var best := BestFlavoredTag(tags, current).value;
    BestIsNewest(tags, current);
    BestIsNewest(tags, best);
    forall t | t in tags && Eligible(t, best) ensures Eligible(t, current) {
    }
  }

  /** A run of upgrades, each against the tag list published at its time. */
  ghost predicate UpgradeRun(installed: seq<string>, lists: seq<seq<string>>) {
    && |installed| == |lists| + 1
    && forall i :: 0 <= i < |lists| ==> BestFlavoredTag(lists[i], installed[i]) == Some(installed[i + 1])
  }

  /** Over any run the flavour never changes and every installed tag is newer than all before it. */
  lemma {:induction false} UpgradesKeepFlavour(installed: seq<string>, lists: seq<seq<string>>, i: nat, j: nat)
    requires UpgradeRun(installed, lists) && i < j < |installed|
    ensures Flavor(installed[j]) == Flavor(installed[i])
    ensures VersionTuple(installed[i]).Some? && VersionTuple(installed[j]).Some?
    ensures Newer(VersionTuple(installed[j]).value, VersionTuple(installed[i]).value)
    decreases j
  {
    hide VersionTuple, Flavor, BestFlavoredTag;
    assert BestFlavoredTag(lists[j - 1], installed[j - 1]) == Some(installed[j]);
    BestIsNewest(lists[j - 1], installed[j - 1]);
    if i < j - 1 {
      UpgradesKeepFlavour(installed, lists, i, j - 1);
    }
  }

  // ---------------------------------------------------------------- what a tag says

  /** Numbers stand from `i` to `l` in the tag: two with a dot at `j`, and a third one behind a dot at `k`
      if a digit follows one there. */
  ghost predicate NumbersStand(tag: string, v: Version, i: nat, j: nat, k: nat, l: nat) {
    && i < j < k - 1 && k <= l <= |tag| && tag[j] == '.'
    && AllDigits(tag[i..j]) && Decimal(tag[i..j]) == v.major
    && AllDigits(tag[j + 1..k]) && Decimal(tag[j + 1..k]) == v.minor
    && (k < |tag| ==> !IsDigit(tag[k])) && (l < |tag| ==> !IsDigit(tag[l]))
    && (if k + 1 < |tag| && tag[k] == '.' && IsDigit(tag[k + 1])
        then k + 1 < l && AllDigits(tag[k + 1..l]) && Decimal(tag[k + 1..l]) == v.patch
        else l == k && v.patch == 0)
  }

  lemma DigitRun(s: string, from: nat, to: nat)
    requires from <= to <= |s| && AllDigits(s[from..to]) && (to < |s| ==> !IsDigit(s[to]))
    ensures DigitsEnd(s, from) == to
  {
    assert forall i :: from <= i < to ==> s[i] == s[from..to][i - from];
  }

  lemma NumbersAreRead(tag: string, v: Version, i: nat, j: nat, k: nat, l: nat)
    requires NumbersStand(tag, v, i, j, k, l)
    ensures NumbersAt(tag, i) == Some((v, l))
  {
    hide Decimal, AllDigits, DigitsEnd;
    DigitRun(tag, i, j);
    DigitRun(tag, j + 1, k);
    if k + 1 < |tag| && tag[k] == '.' && IsDigit(tag[k + 1]) {
      DigitRun(tag, k + 1, l);
    } else if k < |tag| && tag[k] == '.' {
      NoDigitRun(tag, k + 1);
    }
  }

  lemma NoDigitRun(s: string, from: nat)
    requires from <= |s| && (from < |s| ==> !IsDigit(s[from]))
    ensures DigitsEnd(s, from) == from
  {
  }

  lemma {:induction false} FoundAt(tag: string, v: Version, h: nat, i: nat, j: nat, k: nat, l: nat)
    requires NumbersStand(tag, v, i, j, k, l) && h <= i && forall m :: 0 <= m < i ==> !IsDigit(tag[m])
    ensures SearchVersion(tag, h) == Some(v) && SearchSuffix(tag, h) == tag[l..]
    decreases i - h
  {
    hide NumbersStand;
    NumbersAreRead(tag, v, i, j, k, l);
    if h < i {
      NumbersNeedDigit(tag, h);
      FoundAt(tag, v, h + 1, i, j, k, l);
    }
  }

  lemma NumbersNeedDigit(tag: string, i: nat)
    requires i < |tag| && !IsDigit(tag[i])
    ensures NumbersAt(tag, i).None?
  {
  }

  /** `tag` is what the reference says behind its last colon, once a digest is cut off. */
  ghost predicate Tagged(reference: string, tag: string) {
    exists named, head :: ':' !in tag && Undigested(named, reference) && named == head + tag
                          && (head == "" || head[|head| - 1] == ':')
  }

  ghost predicate Undigested(named: string, reference: string) {
    (named == reference && '@' !in reference) || exists digest :: '@' !in digest && reference == named + "@" + digest
  }

  /** A suffix `-ls` with a number behind it. */
  predicate NumberedBuild(suffix: string) {
    |suffix| > 3 && suffix[..3] == "-ls" && forall i :: 3 <= i < |suffix| ==> '0' <= suffix[i] <= '9'
  }

  /** Version and flavour of a reference whose tag has its first digits in front: the numbers in their
      order, and what follows them in lower case, all numbered builds being one flavour. */
  lemma TagIsRead(reference: string, tag: string, v: Version, i: nat, j: nat, k: nat, l: nat)
    requires Tagged(reference, tag) && NumbersStand(tag, v, i, j, k, l) && forall m :: 0 <= m < i ==> !IsDigit(tag[m])
    ensures VersionTuple(tag) == Some(v)
    ensures l <= |tag| && Flavor(reference) == if NumberedBuild(Lower(tag[l..])) then "-ls" else Lower(tag[l..])
  {
    hide NumbersStand, SearchVersion, SearchSuffix, LastIndex;
    FoundAt(tag, v, 0, i, j, k, l);
    TagOfReference(reference, tag);
    Ends(tag, v, i, j, k, l);
    BuildsExactly(Lower(tag[l..]));
  }

  lemma Ends(tag: string, v: Version, i: nat, j: nat, k: nat, l: nat)
    requires NumbersStand(tag, v, i, j, k, l)
    ensures l <= |tag|
  {
  }

  lemma BuildsExactly(suffix: string)
    ensures IsBuildSuffix(suffix) <==> NumberedBuild(suffix)
  {
    if "-ls" <= suffix {
      assert forall i :: 0 <= i < |suffix| - 3 ==> suffix[3..][i] == suffix[i + 3];
      assert forall i :: 3 <= i < |suffix| ==> suffix[i] == suffix[3..][i - 3];
    }
  }

  lemma TagOfReference(reference: string, tag: string)
    requires Tagged(reference, tag)
    ensures var at := LastIndex(reference, '@');
            var named := if at >= 0 then reference[..at] else reference;
            named[LastIndex(named, ':') + 1..] == tag
  {
    hide LastIndex;
    var named, head :| ':' !in tag && Undigested(named, reference) && named == head + tag
                       && (head == "" || head[|head| - 1] == ':');
    NamedOfReference(named, reference);
    var colon := LastIndex(named, ':');
    forall m | |head| <= m < |named| ensures named[m] != ':' {
      assert named[m] == tag[m - |head|];
    }
    assert head != "" ==> named[|head| - 1] == ':';
    assert colon == |head| - 1;
  }

  lemma NamedOfReference(named: string, reference: string)
    requires Undigested(named, reference)
    ensures named == if LastIndex(reference, '@') >= 0 then reference[..LastIndex(reference, '@')] else reference
  {
    hide LastIndex;
    if !(named == reference && '@' !in reference) {
      var digest :| '@' !in digest && reference == named + "@" + digest;
      forall m | |named| < m < |reference| ensures reference[m] != '@' {
        assert reference[m] == digest[m - |named| - 1];
      }
      assert reference[|named|] == '@';
    }
  }

  /** Two suffixes are one flavour exactly when they agree apart from case or both are `-ls` builds. */
  lemma FlavoursAgreeExactly(a: string, b: string)
    ensures (if NumberedBuild(a) then "-ls" else a) == (if NumberedBuild(b) then "-ls" else b) <==>
            a == b || ((NumberedBuild(a) || a == "-ls") && (NumberedBuild(b) || b == "-ls"))
  {
  }

  /** A tag has a version exactly when somewhere in it a dot stands between two digits. */
  lemma VersionExistsExactly(tag: string)
    ensures VersionTuple(tag).Some? <==>
            exists d :: 0 < d < |tag| - 1 && tag[d] == '.' && IsDigit(tag[d - 1]) && IsDigit(tag[d + 1])
  {
    hide SearchVersion, IsDigit;
    if VersionTuple(tag).Some? {
      var d := DotOf(tag, 0);
    }
    if d :| 0 < d < |tag| - 1 && tag[d] == '.' && IsDigit(tag[d - 1]) && IsDigit(tag[d + 1]) {
      var i := RunStart(tag, d - 1);
      SearchReaches(tag, 0, i, d);
    }
  }

  lemma {:induction false} DotOf(tag: string, h: nat) returns (d: nat)
    requires h <= |tag| && SearchVersion(tag, h).Some?
    ensures 0 < d < |tag| - 1 && tag[d] == '.' && IsDigit(tag[d - 1]) && IsDigit(tag[d + 1])
    decreases |tag| - h
  {
    if NumbersAt(tag, h).Some? {
      d := DigitsEnd(tag, h);
    } else {
      d := DotOf(tag, h + 1);
    }
  }

  lemma {:induction false} RunStart(tag: string, e: nat) returns (i: nat)
    requires e < |tag| && IsDigit(tag[e])
    ensures i <= e && (i == 0 || !IsDigit(tag[i - 1])) && forall m :: i <= m <= e ==> IsDigit(tag[m])
  {
    if e == 0 || !IsDigit(tag[e - 1]) {
      i := e;
    } else {
      i := RunStart(tag, e - 1);
    }
  }

  lemma {:induction false} SearchReaches(tag: string, h: nat, i: nat, d: nat)
    requires h <= i < d < |tag| - 1 && (i == 0 || !IsDigit(tag[i - 1])) && forall m :: i <= m < d ==> IsDigit(tag[m])
    requires tag[d] == '.' && IsDigit(tag[d + 1])
    ensures SearchVersion(tag, h).Some?
    decreases i - h
  {
    hide Decimal;
    if h == i {
      assert DigitsEnd(tag, i) == d && DigitsEnd(tag, d + 1) > d + 1;
    } else {
      SearchReaches(tag, h + 1, i, d);
    }
  }
}
