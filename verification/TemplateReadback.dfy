/** What a rewritten template reads back as: exactly the labels applied, with everything the updater
    does not own left as it was. */
module TemplateReadback {
  import opened Strings
  import opened VnextPolicy
  import opened TemplateLabels
  import opened TemplateEdit

  function OwnedPart(labels: Labels): Labels {
    map k | k in labels && Owned(k) :: labels[k]
  }

  function UnownedPart(labels: Labels): Labels {
    map k | k in labels && !Owned(k) :: labels[k]
  }

  // ---------------------------------------------------------------- reading argument lists

  lemma {:induction false} UnownedArgsAddNothingOwned(args: seq<Arg>, labels: Labels)
    requires forall a :: a in args ==> !OwnedArg(a)
    ensures OwnedPart(ReadArgs(args, labels, false)) == OwnedPart(labels)
  {
    hide Owned, KeyOf, Strip, IsInline;
    if args != [] {
      assert !OwnedArg(args[0]);
      UnownedArgsAddNothingOwned(args[1..], Put(labels, args[0], false));
    }
  }

  /** Dropping owned arguments does not change what is read under other keys. */
  lemma {:induction false} DroppingOwnedKeepsUnowned(args: seq<Arg>, labels: Labels, other: Labels)
    requires UnownedPart(labels) == UnownedPart(other)
    ensures UnownedPart(ReadArgs(args, labels, false)) == UnownedPart(ReadArgs(Unowned(args), other, false))
  {
    hide Owned, KeyOf, Strip;
    if args != [] {
      var next := Put(labels, args[0], false);
      if OwnedArg(args[0]) {
        assert UnownedPart(next) == UnownedPart(labels);
        DroppingOwnedKeepsUnowned(args[1..], next, other);
      } else {
        var next' := Put(other, args[0], false);
        PutAlike(labels, other, args[0]);
        DroppingOwnedKeepsUnowned(args[1..], next, next');
        assert ([args[0]] + Unowned(args[1..]))[1..] == Unowned(args[1..]);
      }
    }
  }

  lemma PutAlike(labels: Labels, other: Labels, a: Arg)
    requires UnownedPart(labels) == UnownedPart(other)
    ensures UnownedPart(Put(labels, a, false)) == UnownedPart(Put(other, a, false))
  {
    hide Owned, KeyOf, Strip, ValueOf;
    var p, q := Put(labels, a, false), Put(other, a, false);
    forall k | !Owned(k)
      ensures k in p <==> k in q
      ensures k in p ==> p[k] == q[k]
    {
      assert k in labels <==> k in UnownedPart(labels);
      assert k in other <==> k in UnownedPart(other);
    }
  }

  lemma KeyOfJoined(key: string, value: string)
    requires '=' !in key
    ensures '=' in key + "=" + value
    ensures KeyOf(key + "=" + value) == key && ValueOf(key + "=" + value) == value
  {
    var text := key + "=" + value;
    var i := IndexFrom(text, '=', 0);
    assert text[|key|] == '=';
    forall j | 0 <= j < |key| ensures text[j] != '=' {
      assert text[j] == key[j];
    }
  }

  function Restrict(wanted: Labels, keys: seq<string>): Labels {
    map k | k in wanted && k in keys :: wanted[k]
  }

  lemma RestrictStep(wanted: Labels, keys: seq<string>, labels: Labels)
    requires keys != []
    ensures labels + Restrict(wanted, keys) ==
            (if keys[0] in wanted then labels[keys[0] := wanted[keys[0]]] else labels) + Restrict(wanted, keys[1..])
  {
    assert forall j :: j in keys <==> j == keys[0] || j in keys[1..];
  }

  lemma PutJoined(key: string, value: string, labels: Labels, strip: bool)
    requires '=' !in key && Trimmed(key)
    ensures Put(labels, Pair(key + "=" + value), strip) == labels[key := value]
  {
    hide KeyOf, ValueOf, Trimmed;
    KeyOfJoined(key, value);
  }

  lemma {:induction false} ReadingOwnedArgs(wanted: Labels, keys: seq<string>, labels: Labels, strip: bool)
    requires forall k :: k in keys ==> '=' !in k && Trimmed(k)
    ensures ReadArgs(OwnedArgs(wanted, keys), labels, strip) == labels + Restrict(wanted, keys)
  {
    hide Put, Restrict, Trimmed;
    if keys == [] {
      assert Restrict(wanted, keys) == map[] by { RestrictNone(wanted); }
    } else {
      var rest := OwnedArgs(wanted, keys[1..]);
      RestrictStep(wanted, keys, labels);
      if keys[0] in wanted {
        PutJoined(keys[0], wanted[keys[0]], labels, strip);
        var arg := Pair(keys[0] + "=" + wanted[keys[0]]);
        assert ([arg] + rest)[1..] == rest;
        ReadingOwnedArgs(wanted, keys[1..], labels[keys[0] := wanted[keys[0]]], strip);
      } else {
        assert [] + rest == rest;
        ReadingOwnedArgs(wanted, keys[1..], labels, strip);
      }
    }
  }

  lemma RestrictNone(wanted: Labels)
    ensures Restrict(wanted, []) == map[]
  {
  }

  lemma KeyOrderFacts()
    ensures forall k :: k in OWNED_KEYS <==> k in KEY_ORDER
    ensures forall k :: k in KEY_ORDER ==> '=' !in k && Trimmed(k) && Owned(k)
  {
    KeysDiffer();
    forall k | k in KEY_ORDER ensures '=' !in k && Trimmed(k) {
      assert k in OWNED_KEYS;
    }
  }

  lemma ReadingWanted(desired: Labels, labels: Labels, strip: bool)
    ensures ReadArgs(OwnedArgs(PolicyLabels(desired), KEY_ORDER), labels, strip) == labels + PolicyLabels(desired)
  {
    hide Owned, Trimmed, OwnedArgs, ReadArgs, KEY_ORDER, OWNED_KEYS;
    var wanted := PolicyLabels(desired);
    KeyOrderFacts();
    ReadingOwnedArgs(wanted, KEY_ORDER, labels, strip);
    assert Restrict(wanted, KEY_ORDER) == wanted;
  }

  lemma {:induction false} OwnedArgsAreOwnedPairs(wanted: Labels, keys: seq<string>)
    requires forall k :: k in keys ==> '=' !in k && Owned(k)
    ensures forall a :: a in OwnedArgs(wanted, keys) ==> a.Pair? && OwnedArg(a)
    ensures Unowned(OwnedArgs(wanted, keys)) == []
  {
    hide KeyOf, Owned;
    if keys != [] {
      OwnedArgsAreOwnedPairs(wanted, keys[1..]);
      var rest := OwnedArgs(wanted, keys[1..]);
      if keys[0] in wanted {
        KeyOfJoined(keys[0], wanted[keys[0]]);
        assert ([Pair(keys[0] + "=" + wanted[keys[0]])] + rest)[1..] == rest;
      } else {
        assert [] + rest == rest;
      }
    }
  }

  /** The words written are scanned back as the kept arguments followed by the new ones. */
  lemma ScanOfNewWords(words: seq<string>, desired: Labels)
    requires Dangling !in Scan(words)
    ensures Scan(NewWords(words, desired)) ==
            Unowned(Scan(words)) + OwnedArgs(PolicyLabels(desired), KEY_ORDER)
    ensures Dangling !in Scan(NewWords(words, desired))
    ensures Unowned(Scan(NewWords(words, desired))) == Unowned(Scan(words))
  {
    hide Owned, KeyOf, PolicyLabels, Words, IsInline, FLAG;
    var kept, added := Unowned(Scan(words)), OwnedArgs(PolicyLabels(desired), KEY_ORDER);
    ScanIsComplete(words);
    KeyOrderFacts();
    OwnedArgsAreOwnedPairs(PolicyLabels(desired), KEY_ORDER);
    assert AllComplete(kept + added);
    ScanOfFlatten(kept + added, []);
    assert Flatten(kept + added) + [] == Flatten(kept + added);
    UnownedJoins(kept, added);
    UnownedStays(kept);
  }

  /** The words that set the policy labels among `keys` that are wanted. */
  function Settings(desired: Labels, keys: seq<string>): seq<string> {
    if keys == [] then []
    else (if keys[0] in desired && desired[keys[0]] != "" then ["--label", keys[0] + "=" + desired[keys[0]]] else [])
         + Settings(desired, keys[1..])
  }

  /** What `ExtraParams` is left with: the kept words, and behind them the settings of the six policy
      labels in alphabetical order. */
  lemma NewWordsExactly(words: seq<string>, desired: Labels)
    ensures NewWords(words, desired) == Flatten(Unowned(Scan(words))) + Settings(desired,
              ["io.jmengit.upgrade.changelog-summary", "io.jmengit.upgrade.hold-days", "io.jmengit.upgrade.policy",
               "io.jmengit.upgrade.research", "io.jmengit.upgrade.source", "io.jmengit.upgrade.version"])
  {
    hide Unowned, Scan, PolicyLabels, OwnedArgs, OWNED_KEYS, Settings, Flatten;
    FlattenJoins(Unowned(Scan(words)), OwnedArgs(PolicyLabels(desired), KEY_ORDER));
    KeyOrderFacts();
    SettingsAreWords(desired, KEY_ORDER);
    KeyOrderWritten();
  }

  lemma KeyOrderWritten()
    ensures KEY_ORDER ==
              ["io.jmengit.upgrade.changelog-summary", "io.jmengit.upgrade.hold-days", "io.jmengit.upgrade.policy",
               "io.jmengit.upgrade.research", "io.jmengit.upgrade.source", "io.jmengit.upgrade.version"]
  {
    hide LABEL_VERSION, LABEL_POLICY, LABEL_RESEARCH, LABEL_SOURCE, LABEL_CHANGELOG_SUMMARY, LABEL_HOLD_DAYS;
    LabelKeys();
  }

  lemma {:induction false} SettingsAreWords(desired: Labels, keys: seq<string>)
    requires forall k :: k in keys ==> k in OWNED_KEYS
    ensures Flatten(OwnedArgs(PolicyLabels(desired), keys)) == Settings(desired, keys)
  {
    hide PolicyLabels, OWNED_KEYS;
    if keys != [] {
      SettingsAreWords(desired, keys[1..]);
      WantedExactly(desired, keys[0]);
      var rest := OwnedArgs(PolicyLabels(desired), keys[1..]);
      if keys[0] in PolicyLabels(desired) {
        assert ([Pair(keys[0] + "=" + desired[keys[0]])] + rest)[1..] == rest;
      } else {
        assert [] + rest == rest;
      }
    }
  }

  // ---------------------------------------------------------------- legacy labels

  predicate OwnedText(t: string) {
    Owned(Strip(KeyOf(t)))
  }

  lemma {:induction false} UnownedTextsAddNothingOwned(texts: seq<string>, labels: Labels, stripValues: bool)
    requires forall t :: t in texts && '=' in t ==> !OwnedText(t)
    ensures OwnedPart(Legacy(texts, labels, stripValues)) == OwnedPart(labels)
  {
    hide Owned, KeyOf, Strip, ValueOf;
    if texts != [] {
      var t := texts[0];
      assert t in texts;
      var put := if '=' in t then labels[Strip(KeyOf(t)) := if stripValues then Strip(ValueOf(t)) else ValueOf(t)]
        else labels;
      assert OwnedPart(put) == OwnedPart(labels);
      UnownedTextsAddNothingOwned(texts[1..], put, stripValues);
    }
  }

  function UnownedTexts(texts: seq<string>): seq<string> {
    if texts == [] then []
    else if OwnedText(texts[0]) then UnownedTexts(texts[1..])
    else [texts[0]] + UnownedTexts(texts[1..])
  }

  lemma {:induction false} UnownedTextsJoin(a: seq<string>, b: seq<string>)
    ensures UnownedTexts(a + b) == UnownedTexts(a) + UnownedTexts(b)
  {
    hide OwnedText;
    if a == [] {
      assert a + b == b;
    } else {
      UnownedTextsJoin(a[1..], b);
      assert (a + b)[0] == a[0] && (a + b)[1..] == a[1..] + b;
      var u, v := UnownedTexts(a[1..]), UnownedTexts(b);
      assert ([a[0]] + u) + v == [a[0]] + (u + v);
    }
  }

  lemma {:induction false} DroppingTextsKeepsUnowned(texts: seq<string>, labels: Labels, other: Labels)
    requires UnownedPart(labels) == UnownedPart(other)
    ensures UnownedPart(Legacy(texts, labels, true)) == UnownedPart(Legacy(UnownedTexts(texts), other, true))
  {
    hide Owned, KeyOf, Strip, ValueOf;
    if texts != [] {
      var t := texts[0];
      var key, value := Strip(KeyOf(t)), if '=' in t then Strip(ValueOf(t)) else "";
      var put := if '=' in t then labels[key := value] else labels;
      var rest := UnownedTexts(texts[1..]);
      if OwnedText(t) {
        assert [] + rest == rest;
        assert UnownedPart(put) == UnownedPart(labels);
        DroppingTextsKeepsUnowned(texts[1..], put, other);
      } else {
        var put' := if '=' in t then other[key := value] else other;
        SetAlike(labels, other, key, value);
        DroppingTextsKeepsUnowned(texts[1..], put, put');
        assert ([t] + rest)[0] == t && ([t] + rest)[1..] == rest;
      }
    }
  }

  lemma SetAlike(labels: Labels, other: Labels, key: string, value: string)
    requires UnownedPart(labels) == UnownedPart(other)
    ensures UnownedPart(labels[key := value]) == UnownedPart(other[key := value])
  {
    hide Owned;
    forall k | !Owned(k)
      ensures k in labels <==> k in other
      ensures k in labels ==> labels[k] == other[k]
    {
      assert k in labels <==> k in UnownedPart(labels);
      assert k in other <==> k in UnownedPart(other);
    }
  }

  /** No `Label` that the updater does not own lies inside one that it owns. */
  predicate NothingUnownedInside(xs: seq<Xml>)
    decreases xs
  {
    || xs == []
    || (&& (if OwnedLabel(xs[0]) then UnownedTexts(LabelTextsIn(xs[0].children)) == []
        else NothingUnownedInside(xs[0].children))
        && NothingUnownedInside(xs[1..]))
  }

  /** Pruning keeps the label texts that are not owned exactly when none of them lies inside an owned
      label; otherwise it leaves fewer. */
  lemma {:induction false} PruningKeepsTextsExactly(xs: seq<Xml>)
    ensures var kept, all := UnownedTexts(LabelTextsIn(PruneIn(xs))), UnownedTexts(LabelTextsIn(xs));
            && |kept| <= |all|
            && (NothingUnownedInside(xs) ==> kept == all)
            && (!NothingUnownedInside(xs) ==> |kept| < |all|)
    decreases xs
  {
    hide Owned, Strip, KeyOf;
    if xs != [] {
      var x := xs[0];
      var own := if x.tag == "Label" then [x.text] else [];
      PruningKeepsTextsExactly(xs[1..]);
      UnownedTextsJoin(own, LabelTextsIn(x.children));
      UnownedTextsJoin(LabelTexts(x), LabelTextsIn(xs[1..]));
      assert UnownedTexts(own) == if OwnedLabel(x) then [] else own by { OneText(own); }
      if !OwnedLabel(x) {
        PruningKeepsTextsExactly(x.children);
        assert PruneIn(xs) == [Prune(x)] + PruneIn(xs[1..]);
        assert PruneIn(xs)[1..] == PruneIn(xs[1..]);
        assert LabelTexts(Prune(x)) == own + LabelTextsIn(PruneIn(x.children));
        UnownedTextsJoin(own, LabelTextsIn(PruneIn(x.children)));
        UnownedTextsJoin(LabelTexts(Prune(x)), LabelTextsIn(PruneIn(xs[1..])));
      }
    }
  }

  lemma OneText(own: seq<string>)
    requires |own| <= 1
    ensures UnownedTexts(own) == if own != [] && OwnedText(own[0]) then [] else own
  {
    hide OwnedText;
    if own != [] {
      assert own[1..] == [];
    }
  }

  // ---------------------------------------------------------------- main results

  /** The rewritten template, for a template the editor accepts. */
  function Rewritten(x: Xml, desired: Labels): Xml
    requires Accepted(x)
  {
    Rewrite(x, desired).value
  }

  /** Shape of a rewritten template whose `ExtraParams` survives. */
  lemma RewrittenShape(x: Xml, desired: Labels)
    requires Accepted(x) && Survives(x)
    ensures Params(Rewritten(x, desired)) == Some(Some(NewWords(WordsOrNone(x).value, desired)))
    ensures LabelTexts(Rewritten(x, desired)) ==
            (if x.tag == "Label" then [x.text] else [])
             + LabelTextsIn(PruneIn(SetParams(WithParams(x), NewWords(WordsOrNone(x).value, desired)).children))
  {
    hide Scan, NewWords, Legacy, ReadArgs, Survives, OwnedLabel;
    var words := NewWords(WordsOrNone(x).value, desired);
    WithParamsFacts(x);
    SetParamsFacts(WithParams(x), words);
    PruneKeepsParams(SetParams(WithParams(x), words), words);
  }

  /** Applying `desired` and reading the template back at run time yields, among the updater's
      labels, exactly the ones applied. */
  ghost predicate ReadsBack(x: Xml, desired: Labels)
    requires Accepted(x)
  {
    var back := ReadRuntime(Rewritten(x, desired));
    back.Some? && OwnedPart(back.value) == PolicyLabels(desired)
  }

  ghost predicate EditorReadsBack(x: Xml, desired: Labels)
    requires Accepted(x)
  {
    var back := ReadEditor(Rewritten(x, desired));
    back.Some? && OwnedPart(back.value) == PolicyLabels(desired)
  }

  lemma RuntimeReading(x: Xml, desired: Labels)
    requires Accepted(x) && Survives(x)
    ensures var y := Rewritten(x, desired);
            var kept := Unowned(Scan(WordsOrNone(x).value));
            ReadRuntime(y) == Some(ReadArgs(kept, Legacy(LabelTexts(y), map[], true), false) + PolicyLabels(desired))
  {
    hide Rewritten, Legacy, LabelTexts, Scan, NewWords, PolicyLabels, OwnedArgs, ReadArgs, Survives, Unowned;
    var y := Rewritten(x, desired);
    var legacy := Legacy(LabelTexts(y), map[], true);
    var kept := Unowned(Scan(WordsOrNone(x).value));
    RewrittenShape(x, desired);
    ScanOfNewWords(WordsOrNone(x).value, desired);
    ReadJoins(kept, OwnedArgs(PolicyLabels(desired), KEY_ORDER), legacy, false);
    ReadingWanted(desired, ReadArgs(kept, legacy, false), false);
  }

  lemma EditorReading(x: Xml, desired: Labels)
    requires Accepted(x) && Survives(x)
    ensures var y := Rewritten(x, desired);
            var kept := Unowned(Scan(WordsOrNone(x).value));
            ReadEditor(y) == Some(Legacy(LabelTexts(y), map[], false)
              + (ReadArgs(kept, map[], true) + PolicyLabels(desired)))
  {
    hide Rewritten, Legacy, LabelTexts, Scan, NewWords, PolicyLabels, OwnedArgs, ReadArgs, Survives, Unowned;
    var kept := Unowned(Scan(WordsOrNone(x).value));
    RewrittenShape(x, desired);
    ScanOfNewWords(WordsOrNone(x).value, desired);
    ReadJoins(kept, OwnedArgs(PolicyLabels(desired), KEY_ORDER), map[], true);
    ReadingWanted(desired, ReadArgs(kept, map[], true), true);
  }

  /** The legacy labels left in a rewritten template hold an updater label only under a stray root. */
  lemma LegacyAfterRewrite(x: Xml, desired: Labels, stripValues: bool)
    requires Accepted(x) && Survives(x)
    ensures var legacy := Legacy(LabelTexts(Rewritten(x, desired)), map[], stripValues);
            OwnedPart(legacy) == map[] <==> !StrayRoot(x)
  {
    hide Rewritten, KeyOf, ValueOf, Strip, Owned, NewWords, Survives, Scan, ReadArgs, SetParams, LabelTexts;
    var y := Rewritten(x, desired);
    RewrittenShape(x, desired);
    var children := SetParams(WithParams(x), NewWords(WordsOrNone(x).value, desired)).children;
    var below := LabelTextsIn(PruneIn(children));
    PrunedTexts(children);
    if x.tag == "Label" {
      assert LabelTexts(y) == [x.text] + below;
      assert LabelTexts(y)[1..] == below;
      var root: Labels := if '=' in x.text
        then map[Strip(KeyOf(x.text)) := if stripValues then Strip(ValueOf(x.text)) else ValueOf(x.text)] else map[];
      assert Legacy(LabelTexts(y), map[], stripValues) == Legacy(below, root, stripValues);
      UnownedTextsAddNothingOwned(below, root, stripValues);
      if StrayRoot(x) {
        assert Strip(KeyOf(x.text)) in OwnedPart(root);
      } else {
        assert OwnedPart(root) == map[];
      }
    } else {
      assert LabelTexts(y) == [] + below;
      UnownedTextsAddNothingOwned(LabelTexts(y), map[], stripValues);
      assert OwnedPart(map[]) == map[];
    }
  }

  lemma OwnedPartJoins(a: Labels, b: Labels)
    ensures OwnedPart(a + b) == OwnedPart(a) + OwnedPart(b)
  {
    hide Owned;
  }

  lemma PolicyLabelsAreOwned(desired: Labels)
    ensures OwnedPart(PolicyLabels(desired)) == PolicyLabels(desired)
  {
    KeysDiffer();
    hide Owned;
  }

  const ONE_LABEL: Labels := map[LABEL_VERSION := "patch"]

  lemma OneLabelIsWanted()
    ensures PolicyLabels(map[]) == map[] && PolicyLabels(ONE_LABEL) == ONE_LABEL
    ensures LABEL_VERSION in ONE_LABEL
  {
  }

  /** When pruning takes the `ExtraParams` away, the edit is nothing but the pruning, whatever the
      labels. */
  lemma LostWrite(x: Xml, desired: Labels)
    requires Accepted(x) && !Survives(x)
    ensures Rewritten(x, desired) == Prune(x)
  {
    hide Scan, NewWords, Legacy, ReadArgs, OwnedLabel, Survives, Prune, SetParams;
    WithParamsFacts(x);
    PruneDropsParams(x, NewWords(WordsOrNone(x).value, desired));
  }

  /** Read-back at run time is exact for every label map exactly when the first `ExtraParams` is not
      inside an owned `Label` and the root is not itself one. */
  lemma RuntimeReadBackExact(x: Xml)
    requires Accepted(x)
    ensures (forall d :: ReadsBack(x, d)) <==> Survives(x) && !StrayRoot(x)
  {
    hide Rewritten, ReadRuntime, PolicyLabels, OwnedPart, Survives, StrayRoot, Scan, ReadArgs, Legacy, LabelTexts,
         Params;
    if Survives(x) {
      forall d ensures ReadsBack(x, d) <==>
        OwnedPart(Legacy(LabelTexts(Rewritten(x, d)), map[], true)) + PolicyLabels(d) == PolicyLabels(d) {
        RuntimeReading(x, d);
        var kept := Unowned(Scan(WordsOrNone(x).value));
        var legacy := Legacy(LabelTexts(Rewritten(x, d)), map[], true);
        UnownedArgsAddNothingOwned(kept, legacy);
        OwnedPartJoins(ReadArgs(kept, legacy, false), PolicyLabels(d));
        PolicyLabelsAreOwned(d);
      }
      if StrayRoot(x) {
        LegacyAfterRewrite(x, map[], true);
        OneLabelIsWanted();
        assert !ReadsBack(x, map[]);
      } else {
        forall d ensures ReadsBack(x, d) {
          LegacyAfterRewrite(x, d, true);
        }
      }
    } else {
      LostWrite(x, map[]);
      LostWrite(x, ONE_LABEL);
      OneLabelIsWanted();
      assert !(ReadsBack(x, map[]) && ReadsBack(x, ONE_LABEL));
    }
  }

  /** An unowned argument whose key becomes an owned one when its padding is stripped. */
  predicate PaddedKey(args: seq<Arg>) {
    exists a :: a in args && LabelText(a).Some? && '=' in LabelText(a).value && Owned(Strip(KeyOf(LabelText(a).value)))
  }

  lemma {:induction false} StrippedReading(args: seq<Arg>, labels: Labels)
    ensures OwnedPart(labels).Keys <= OwnedPart(ReadArgs(args, labels, true)).Keys
    ensures !PaddedKey(args) ==> OwnedPart(ReadArgs(args, labels, true)) == OwnedPart(labels)
    ensures PaddedKey(args) ==> OwnedPart(ReadArgs(args, labels, true)) != map[]
  {
    hide Owned, KeyOf, Strip, ValueOf, LabelText;
    if args != [] {
      var next := Put(labels, args[0], true);
      StrippedReading(args[1..], next);
      assert PaddedKey(args) <==> PaddedKey([args[0]]) || PaddedKey(args[1..]) by {
        assert forall a :: a in args <==> a in [args[0]] || a in args[1..];
      }
      if PaddedKey([args[0]]) {
        assert Strip(KeyOf(LabelText(args[0]).value)) in OwnedPart(next).Keys;
      } else {
        assert args[0] in [args[0]];
        assert OwnedPart(next) == OwnedPart(labels);
      }
    }
  }

  /** The editor's own reader strips keys, so it needs one condition more than the runtime: no padded
      look-alike of an updater key among the arguments that were kept. */
  lemma EditorReadBackExact(x: Xml)
    requires Accepted(x)
    ensures (forall d :: EditorReadsBack(x, d)) <==>
            Survives(x) && !StrayRoot(x) && !PaddedKey(Unowned(Scan(WordsOrNone(x).value)))
  {
    hide Rewritten, PolicyLabels, OwnedPart, Survives, StrayRoot, PaddedKey, Scan, ReadArgs, Legacy, LabelTexts, Params;
    var kept := Unowned(Scan(WordsOrNone(x).value));
    var read := ReadArgs(kept, map[], true);
    StrippedReading(kept, map[]);
    NothingOwned();
    if Survives(x) {
      forall d ensures EditorReadsBack(x, d) <==>
                       OwnedPart(Legacy(LabelTexts(Rewritten(x, d)), map[], false))
                         + (OwnedPart(read) + PolicyLabels(d)) == PolicyLabels(d)
      {
        EditorReading(x, d);
        var legacy := Legacy(LabelTexts(Rewritten(x, d)), map[], false);
        OwnedPartJoins(legacy, read + PolicyLabels(d));
        OwnedPartJoins(read, PolicyLabels(d));
        PolicyLabelsAreOwned(d);
      }
      LegacyAfterRewrite(x, map[], false);
      OneLabelIsWanted();
      if StrayRoot(x) || PaddedKey(kept) {
        var legacy := OwnedPart(Legacy(LabelTexts(Rewritten(x, map[])), map[], false));
        EmptySum(legacy, OwnedPart(read));
        assert OwnedPart(read) + map[] == OwnedPart(read);
        assert !EditorReadsBack(x, map[]);
      } else {
        forall d ensures EditorReadsBack(x, d) {
          LegacyAfterRewrite(x, d, false);
        }
      }
    } else {
      LostWrite(x, map[]);
      LostWrite(x, ONE_LABEL);
      OneLabelIsWanted();
      assert !(EditorReadsBack(x, map[]) && EditorReadsBack(x, ONE_LABEL));
    }
  }

  lemma NothingOwned()
    ensures OwnedPart(map[]) == map[]
  {
  }

  lemma EmptySum(a: Labels, b: Labels)
    ensures a + b == map[] ==> a == map[] && b == map[]
  {
    assert (a + b).Keys == a.Keys + b.Keys;
  }

  /** Every argument the updater does not own is kept, in order and with the same pairing, wherever
      the edit itself survives. */
  lemma UnownedArgsKept(x: Xml, desired: Labels)
    requires Accepted(x) && Survives(x)
    ensures ReadRuntime(Rewritten(x, desired)).Some? && WordsOrNone(Rewritten(x, desired)).Some?
    ensures Unowned(Scan(WordsOrNone(Rewritten(x, desired)).value)) == Unowned(Scan(WordsOrNone(x).value))
  {
    hide Rewritten, PolicyLabels, Survives, LabelTexts, Scan, Params, NewWords, ReadArgs, Legacy;
    RewrittenShape(x, desired);
    ScanOfNewWords(WordsOrNone(x).value, desired);
    RuntimeReading(x, desired);
  }

  /** The words of the first `ExtraParams` outside owned labels; none stands for an empty one. */
  function OuterWords(x: Xml): Option<seq<string>> {
    if OuterParams(x).Some? then OuterParams(x).value else Some([])
  }

  /** The arguments the updater does not own read as before exactly when the edit survives, or when
      the `ExtraParams` that pruning leaves first happens to hold the same ones. */
  lemma UnownedArgsKeptExactly(x: Xml, desired: Labels)
    requires Accepted(x)
    ensures var before, after := WordsOrNone(x).value, WordsOrNone(Rewritten(x, desired));
            && (after.Some? && Unowned(Scan(after.value)) == Unowned(Scan(before)) <==>
                || Survives(x)
                || (OuterWords(x).Some? && Unowned(Scan(OuterWords(x).value)) == Unowned(Scan(before))))
  {
    hide Rewritten, Survives, Scan, Unowned, Params, OuterParams, Prune, ReadRuntime, ReadArgs, Legacy;
    if Survives(x) {
      UnownedArgsKept(x, desired);
    } else {
      LostWrite(x, desired);
      PrunedParams(x);
    }
  }

  /** The `Label` elements the updater does not own keep their texts exactly when none of them lies
      inside one that it owns. */
  lemma UnownedTextsKeptExactly(x: Xml, desired: Labels)
    requires Accepted(x)
    ensures UnownedTexts(LabelTexts(Rewritten(x, desired))) == UnownedTexts(LabelTexts(x)) <==>
            NothingUnownedInside(x.children)
  {
    hide NewWords, OwnedText, NothingUnownedInside, OwnedLabel, Scan, ReadArgs, Legacy, UnownedTexts;
    var words := NewWords(WordsOrNone(x).value, desired);
    WithParamsFacts(x);
    var z := SetParams(WithParams(x), words);
    SetParamsFacts(WithParams(x), words);
    InsideStays(x, words);
    PruningKeepsTextsExactly(z.children);
    var own := if x.tag == "Label" then [x.text] else [];
    assert LabelTexts(Rewritten(x, desired)) == own + LabelTextsIn(PruneIn(z.children));
    assert LabelTexts(x) == own + LabelTextsIn(z.children);
    UnownedTextsJoin(own, LabelTextsIn(z.children));
    UnownedTextsJoin(own, LabelTextsIn(PruneIn(z.children)));
  }

  /** Every label the updater does not own then reads back as before. */
  lemma UnownedLabelsKept(x: Xml, desired: Labels)
    requires Accepted(x) && Survives(x) && NothingUnownedInside(x.children)
    ensures ReadRuntime(Rewritten(x, desired)).Some?
    ensures UnownedPart(ReadRuntime(Rewritten(x, desired)).value) == UnownedPart(ReadRuntime(x).value)
  {
    hide Rewritten, PolicyLabels, UnownedPart, NothingUnownedInside, Survives, LabelTexts, Scan, Params, NewWords,
         ReadArgs, Legacy;
    var y := Rewritten(x, desired);
    var words := WordsOrNone(x).value;
    RuntimeReading(x, desired);
    var before, after := Legacy(LabelTexts(x), map[], true), Legacy(LabelTexts(y), map[], true);
    UnownedTextsKeptExactly(x, desired);
    SameUnownedLegacy(LabelTexts(x), LabelTexts(y));
    DroppingOwnedKeepsUnowned(Scan(words), before, after);
    PolicyLabelsAddNothingUnowned(ReadArgs(Unowned(Scan(words)), after, false), desired);
  }

  /** An edit key by key: the template then reads what was applied under the six policy keys, nothing under
      any other key of the updater, and under every other key what it read before. */
  lemma EditKeyByKey(x: Xml, desired: Labels, key: string)
    requires Accepted(x) && Survives(x) && !StrayRoot(x) && NothingUnownedInside(x.children)
    ensures ReadRuntime(x).Some? && ReadRuntime(Rewritten(x, desired)).Some?
    ensures var before, after := ReadRuntime(x).value, ReadRuntime(Rewritten(x, desired)).value;
            if "io.jmengit.upgrade." <= key then
              key in after <==>
                && key in ["io.jmengit.upgrade.version", "io.jmengit.upgrade.policy", "io.jmengit.upgrade.research",
                           "io.jmengit.upgrade.changelog-summary", "io.jmengit.upgrade.source",
                           "io.jmengit.upgrade.hold-days"]
                && key in desired && desired[key] != ""
            else
              key in after <==> key in before
    ensures var before, after := ReadRuntime(x).value, ReadRuntime(Rewritten(x, desired)).value;
            key in after ==> after[key] == if "io.jmengit.upgrade." <= key then desired[key] else before[key]
  {
    hide Rewritten, ReadRuntime, Survives, StrayRoot, NothingUnownedInside, PolicyLabels, OWNED_KEYS;
    EditedReading(x, desired);
    var before, after := ReadRuntime(x).value, ReadRuntime(Rewritten(x, desired)).value;
    var wanted := PolicyLabels(desired);
    OwnedKeysListed(key);
    WantedExactly(desired, key);
    assert key in OwnedPart(after) <==> key in after && Owned(key);
    assert key in UnownedPart(after) <==> key in after && !Owned(key);
    assert key in UnownedPart(before) <==> key in before && !Owned(key);
  }

  lemma EditedReading(x: Xml, desired: Labels)
    requires Accepted(x) && Survives(x) && !StrayRoot(x) && NothingUnownedInside(x.children)
    ensures ReadRuntime(x).Some? && ReadRuntime(Rewritten(x, desired)).Some?
    ensures OwnedPart(ReadRuntime(Rewritten(x, desired)).value) == PolicyLabels(desired)
    ensures UnownedPart(ReadRuntime(Rewritten(x, desired)).value) == UnownedPart(ReadRuntime(x).value)
  {
    hide Rewritten, Survives, StrayRoot, NothingUnownedInside, PolicyLabels, OwnedPart, UnownedPart, Scan, ReadArgs,
         Legacy, LabelTexts;
    RuntimeReadBackExact(x);
    assert ReadsBack(x, desired);
    UnownedLabelsKept(x, desired);
  }

  lemma WantedExactly(desired: Labels, key: string)
    ensures key in PolicyLabels(desired) <==> key in OWNED_KEYS && key in desired && desired[key] != ""
    ensures key in PolicyLabels(desired) ==> PolicyLabels(desired)[key] == desired[key]
  {
    hide OWNED_KEYS;
  }

  lemma OwnedKeysListed(key: string)
    ensures key in OWNED_KEYS <==>
            key in ["io.jmengit.upgrade.version", "io.jmengit.upgrade.policy", "io.jmengit.upgrade.research",
                    "io.jmengit.upgrade.changelog-summary", "io.jmengit.upgrade.source", "io.jmengit.upgrade.hold-days"]
    ensures Owned(key) <==> "io.jmengit.upgrade." <= key
  {
    hide Owned, LABEL_VERSION, LABEL_POLICY, LABEL_RESEARCH, LABEL_SOURCE, LABEL_CHANGELOG_SUMMARY, LABEL_HOLD_DAYS;
    LabelKeys();
    PrefixWritten(key);
  }

  lemma PrefixWritten(key: string)
    ensures Owned(key) <==> "io.jmengit.upgrade." <= key
  {
  }

  /** The value of the last `Label` text for a key. */
  function LastValue(texts: seq<string>, key: string): Option<string> {
    if texts == [] then None
    else
      var last := texts[|texts| - 1];
      if '=' in last && Strip(KeyOf(last)) == key then Some(Strip(ValueOf(last)))
      else LastValue(texts[..|texts| - 1], key)
  }

  /** The `Label` texts outside the owned labels below the root. */
  function TextsOutside(x: Xml): seq<string> {
    (if x.tag == "Label" then [x.text] else []) + LabelTextsIn(PruneIn(x.children))
  }

  lemma {:induction false} LegacyJoins(a: seq<string>, b: seq<string>, labels: Labels)
    ensures Legacy(a + b, labels, true) == Legacy(b, Legacy(a, labels, true), true)
  {
    hide Strip, KeyOf, ValueOf;
    if a == [] {
      assert a + b == b;
    } else {
      var t := a[0];
      var put := if '=' in t then labels[Strip(KeyOf(t)) := Strip(ValueOf(t))] else labels;
      LegacyJoins(a[1..], b, put);
      assert (a + b)[0] == t && (a + b)[1..] == a[1..] + b;
    }
  }

  lemma {:induction false} LegacyIsLastValue(texts: seq<string>, key: string)
    ensures ValueAt(Legacy(texts, map[], true), key) == LastValue(texts, key)
  {
    hide Strip, KeyOf, ValueOf;
    if texts != [] {
      var front, last := texts[..|texts| - 1], texts[|texts| - 1];
      LegacyIsLastValue(front, key);
      LegacyJoins(front, [last], map[]);
      assert front + [last] == texts && [last][1..] == [];
    }
  }

  lemma PutOverlay(a: Labels, b: Labels, arg: Arg)
    ensures Put(a + b, arg, false) == a + Put(b, arg, false)
  {
    hide KeyOf, ValueOf, LabelText;
  }

  /** Arguments override what was read before them. */
  lemma {:induction false} ReadingOverlays(args: seq<Arg>, a: Labels, b: Labels)
    ensures ReadArgs(args, a + b, false) == a + ReadArgs(args, b, false)
  {
    hide Put;
    if args != [] {
      PutOverlay(a, b, args[0]);
      ReadingOverlays(args[1..], a, Put(b, args[0], false));
    }
  }

  lemma {:induction false} PrunedTextsOfSet(xs: seq<Xml>, words: seq<string>)
    requires ParamsIn(xs).Some?
    ensures LabelTextsIn(PruneIn(SetParamsIn(xs, words))) == LabelTextsIn(PruneIn(xs))
    decreases xs
  {
    hide OwnedLabel;
    var ys := SetParamsIn(xs, words);
    assert ys[1..] == if Params(xs[0]).Some? then xs[1..] else SetParamsIn(xs[1..], words);
    SameOwner(xs[0], words);
    if Params(xs[0]).None? {
      PrunedTextsOfSet(xs[1..], words);
      PrunedHead(xs);
      PrunedHead(ys);
    } else {
      if xs[0].tag != "ExtraParams" {
        PrunedTextsOfSet(xs[0].children, words);
      }
      PrunedHead(xs);
      PrunedHead(ys);
    }
  }

  lemma PrunedHead(xs: seq<Xml>)
    requires xs != []
    ensures LabelTextsIn(PruneIn(xs))
            == (if OwnedLabel(xs[0]) then [] else TextsOutside(xs[0])) + LabelTextsIn(PruneIn(xs[1..]))
  {
    hide OwnedLabel;
    if !OwnedLabel(xs[0]) {
      assert PruneIn(xs) == [Prune(xs[0])] + PruneIn(xs[1..]) && PruneIn(xs)[1..] == PruneIn(xs[1..]);
    }
  }

  lemma {:induction false} PrunedTextsOfAppended(xs: seq<Xml>)
    ensures LabelTextsIn(PruneIn(xs + [Elem("ExtraParams", "", Some([]), [])])) == LabelTextsIn(PruneIn(xs))
  {
    hide Owned, Strip, KeyOf;
    var extra := Elem("ExtraParams", "", Some([]), []);
    var ys := xs + [extra];
    if xs == [] {
      assert ys == [extra] && ys[1..] == [];
      PrunedHead(ys);
      assert TextsOutside(extra) == [] + LabelTextsIn([]);
    } else {
      assert ys[1..] == xs[1..] + [extra];
      PrunedTextsOfAppended(xs[1..]);
      PrunedHead(xs);
      PrunedHead(ys);
    }
  }

  lemma TextsOfRewritten(x: Xml, desired: Labels)
    requires Accepted(x)
    ensures LabelTexts(Rewritten(x, desired)) == TextsOutside(x)
  {
    hide NewWords, OwnedLabel, Scan, ReadArgs, Legacy;
    var words := NewWords(WordsOrNone(x).value, desired);
    WithParamsFacts(x);
    if Params(x).None? {
      PrunedTextsOfAppended(x.children);
    }
    if x.tag != "ExtraParams" {
      PrunedTextsOfSet(WithParams(x).children, words);
    }
  }

  lemma UnownedLookups(a: Labels, b: Labels)
    ensures UnownedPart(a) == UnownedPart(b) <==> forall key :: !Owned(key) ==> ValueAt(a, key) == ValueAt(b, key)
  {
    hide Owned;
    if UnownedPart(a) == UnownedPart(b) {
      forall key | !Owned(key) ensures ValueAt(a, key) == ValueAt(b, key) {
        assert ValueAt(a, key) == ValueAt(UnownedPart(a), key) && ValueAt(b, key) == ValueAt(UnownedPart(b), key);
      }
    }
    if forall key :: !Owned(key) ==> ValueAt(a, key) == ValueAt(b, key) {
      forall key ensures ValueAt(UnownedPart(a), key) == ValueAt(UnownedPart(b), key) {
        assert Owned(key) || ValueAt(a, key) == ValueAt(b, key);
      }
      SameLookups(UnownedPart(a), UnownedPart(b));
    }
  }

  lemma OverlayLookup(a: Labels, b: Labels, key: string)
    ensures ValueAt(a + b, key) == if key in b then Some(b[key]) else ValueAt(a, key)
  {
  }

  /** Every label the updater does not own reads back as before exactly when, for each that no argument
      gives, the last `Label` element for it has the value of the last one outside owned labels. */
  lemma UnownedLabelsKeptExactly(x: Xml, desired: Labels)
    requires Accepted(x) && Survives(x)
    ensures ReadRuntime(Rewritten(x, desired)).Some? && ReadRuntime(x).Some?
    ensures UnownedPart(ReadRuntime(Rewritten(x, desired)).value) == UnownedPart(ReadRuntime(x).value) <==>
            var given := ReadArgs(Unowned(Scan(WordsOrNone(x).value)), map[], false);
            forall key :: !Owned(key) && key !in given ==>
              LastValue(TextsOutside(x), key) == LastValue(LabelTexts(x), key)
  {
    hide Rewritten, PolicyLabels, UnownedPart, Survives, LabelTexts, Scan, Params, NewWords, ReadArgs, Legacy,
         Owned, TextsOutside, LastValue, ValueAt;
    var words := WordsOrNone(x).value;
    var kept := Unowned(Scan(words));
    var given := ReadArgs(kept, map[], false);
    var before, after := Legacy(LabelTexts(x), map[], true), Legacy(TextsOutside(x), map[], true);
    RuntimeReading(x, desired);
    TextsOfRewritten(x, desired);
    assert before + map[] == before && after + map[] == after;
    ReadingOverlays(kept, before, map[]);
    ReadingOverlays(kept, after, map[]);
    DroppingOwnedKeepsUnowned(Scan(words), before, before);
    PolicyLabelsAddNothingUnowned(after + given, desired);
    UnownedLookups(after + given, before + given);
    forall key ensures ValueAt(after + given, key) == ValueAt(before + given, key) <==>
                       (key in given || LastValue(TextsOutside(x), key) == LastValue(LabelTexts(x), key))
    {
      OverlayLookup(after, given, key);
      OverlayLookup(before, given, key);
      LegacyIsLastValue(LabelTexts(x), key);
      LegacyIsLastValue(TextsOutside(x), key);
    }
  }

  lemma SameUnownedLegacy(a: seq<string>, b: seq<string>)
    requires UnownedTexts(a) == UnownedTexts(b)
    ensures UnownedPart(Legacy(a, map[], true)) == UnownedPart(Legacy(b, map[], true))
  {
    hide OwnedText, Legacy, UnownedTexts;
    DroppingTextsKeepsUnowned(a, map[], map[]);
    DroppingTextsKeepsUnowned(b, map[], map[]);
  }

  lemma PolicyLabelsAddNothingUnowned(labels: Labels, desired: Labels)
    ensures UnownedPart(labels + PolicyLabels(desired)) == UnownedPart(labels)
  {
    KeysDiffer();
    hide Owned;
  }

  lemma InsideStays(x: Xml, words: seq<string>)
    ensures NothingUnownedInside(SetParams(WithParams(x), words).children) <==> NothingUnownedInside(x.children)
  {
    hide OwnedLabel, UnownedTexts;
    if Params(x).None? {
      InsideOfAppended(x.children);
    }
    if WithParams(x).tag != "ExtraParams" {
      WithParamsFacts(x);
      InsideOfSet(WithParams(x).children, words);
    }
  }

  lemma {:induction false} InsideOfAppended(xs: seq<Xml>)
    ensures NothingUnownedInside(xs + [Elem("ExtraParams", "", Some([]), [])]) <==> NothingUnownedInside(xs)
  {
    hide Owned, Strip, KeyOf, UnownedTexts;
    var ys := xs + [Elem("ExtraParams", "", Some([]), [])];
    if xs == [] {
      assert ys[1..] == [];
    } else {
      InsideOfAppended(xs[1..]);
      assert ys[1..] == xs[1..] + [Elem("ExtraParams", "", Some([]), [])];
    }
  }

  lemma {:induction false} InsideOfSet(xs: seq<Xml>, words: seq<string>)
    requires ParamsIn(xs).Some?
    ensures NothingUnownedInside(SetParamsIn(xs, words)) <==> NothingUnownedInside(xs)
    decreases xs
  {
    hide Owned, Strip, KeyOf, UnownedTexts;
    var ys := SetParamsIn(xs, words);
    assert ys[1..] == if Params(xs[0]).Some? then xs[1..] else SetParamsIn(xs[1..], words);
    if Params(xs[0]).None? {
      InsideOfSet(xs[1..], words);
    } else if xs[0].tag != "ExtraParams" {
      SetParamsInFacts(xs[0].children, words);
      InsideOfSet(xs[0].children, words);
    }
  }

  /** Last writer wins: a second label map replaces the first completely, and applying the same map
      twice changes nothing. */
  lemma LastWriterWins(x: Xml, first: Labels, second: Labels)
    requires Accepted(x) && Survives(x)
    ensures Accepted(Rewritten(x, first))
    ensures Rewritten(Rewritten(x, first), second) == Rewritten(x, second)
  {
    hide NewWords, Legacy, LabelTexts, ReadArgs, Scan, Survives, Params, SetParams, Prune, OwnedArgs;
    var words := WordsOrNone(x).value;
    var v, w := NewWords(words, first), NewWords(words, second);
    var z := WithParams(x);
    ScanOfNewWords(words, first);
    WithParamsFacts(x);
    RewrittenShape(x, first);
    assert NewWords(v, second) == w by { NewWordsAgain(words, first, second); }
    SetParamsFacts(z, v);
    PruneKeepsParams(SetParams(z, v), w);
    PruneTwice(SetParams(z, w));
  }

  lemma {:induction false} PrunedSurvives(xs: seq<Xml>)
    ensures SurvivesIn(PruneIn(xs))
    decreases xs
  {
    hide OwnedText, Owned, KeyOf, Strip;
    if xs != [] {
      PrunedSurvives(xs[0].children);
      PrunedSurvives(xs[1..]);
    }
  }

  const OTHER_LABEL: Labels := map[LABEL_VERSION := "minor"]

  lemma RewritesDiffer(y: Xml)
    requires Accepted(y) && Survives(y)
    ensures Rewritten(y, ONE_LABEL) != Rewritten(y, OTHER_LABEL)
  {
    hide Rewritten, ReadRuntime, Legacy, LabelTexts, Scan, ReadArgs, Survives, PolicyLabels, Params;
    RuntimeReading(y, ONE_LABEL);
    RuntimeReading(y, OTHER_LABEL);
    TwoLabels();
    var kept := Unowned(Scan(WordsOrNone(y).value));
    SumsDiffer(ReadArgs(kept, Legacy(LabelTexts(Rewritten(y, ONE_LABEL)), map[], true), false),
               ReadArgs(kept, Legacy(LabelTexts(Rewritten(y, OTHER_LABEL)), map[], true), false));
  }

  lemma SumsDiffer(a: Labels, b: Labels)
    ensures a + ONE_LABEL != b + OTHER_LABEL
  {
    hide LABEL_VERSION;
    TwoLabels();
    assert (a + ONE_LABEL)[LABEL_VERSION] != (b + OTHER_LABEL)[LABEL_VERSION];
  }

  lemma TwoLabels()
    ensures PolicyLabels(ONE_LABEL) == ONE_LABEL && PolicyLabels(OTHER_LABEL) == OTHER_LABEL
    ensures LABEL_VERSION in ONE_LABEL && LABEL_VERSION in OTHER_LABEL
    ensures ONE_LABEL[LABEL_VERSION] != OTHER_LABEL[LABEL_VERSION]
  {
    assert "patch"[0] != "minor"[0];
  }

  /** The exact condition: every second label map replaces every first one precisely in the templates
      whose first `ExtraParams` is not inside an owned label. */
  lemma LastWriterWinsExactly(x: Xml)
    requires Accepted(x)
    ensures (forall first, second :: LaterWins(x, first, second)) <==> Survives(x)
  {
    hide Rewritten, LaterWins, Survives, Params, Scan, LabelTexts;
    if Survives(x) {
      forall first, second ensures LaterWins(x, first, second) {
        LastWriterWins(x, first, second);
        LaterWinsHolds(x, first, second);
      }
    } else {
      LostWrite(x, ONE_LABEL);
      LostWrite(x, OTHER_LABEL);
      if LaterWins(x, ONE_LABEL, ONE_LABEL) && LaterWins(x, ONE_LABEL, OTHER_LABEL) {
        LaterWinsFails(x);
      }
    }
  }

  ghost predicate LaterWins(x: Xml, first: Labels, second: Labels)
    requires Accepted(x)
  {
    Accepted(Rewritten(x, first)) && Rewritten(Rewritten(x, first), second) == Rewritten(x, second)
  }

  lemma LaterWinsHolds(x: Xml, first: Labels, second: Labels)
    requires Accepted(x) && Accepted(Rewritten(x, first))
             && Rewritten(Rewritten(x, first), second) == Rewritten(x, second)
    ensures LaterWins(x, first, second)
  {
    hide Rewritten, Accepted;
  }

  lemma LaterWinsFails(x: Xml)
    requires Accepted(x) && Rewritten(x, ONE_LABEL) == Rewritten(x, OTHER_LABEL)
    ensures !(LaterWins(x, ONE_LABEL, ONE_LABEL) && LaterWins(x, ONE_LABEL, OTHER_LABEL))
  {
    hide Rewritten, Accepted, Survives;
    var y := Rewritten(x, ONE_LABEL);
    RewrittenSurvives(x, ONE_LABEL);
    if Accepted(y) {
      RewritesDiffer(y);
    }
  }

  lemma RewrittenSurvives(x: Xml, desired: Labels)
    requires Accepted(x)
    ensures Survives(Rewritten(x, desired))
  {
    hide NewWords, Scan, ReadArgs, Legacy, LabelTexts, SetParams, PruneIn, SurvivesIn;
    PrunedSurvives(SetParams(WithParams(x), NewWords(WordsOrNone(x).value, desired)).children);
  }

  lemma NewWordsAgain(words: seq<string>, first: Labels, second: Labels)
    requires Dangling !in Scan(words)
    ensures NewWords(NewWords(words, first), second) == NewWords(words, second)
  {
    hide Scan, Unowned, OwnedArgs;
    ScanOfNewWords(words, first);
  }

  // ---------------------------------------------------------------- the policy that comes back

  /** A changelog-summary label that is present but empty. */
  predicate BlankSummary(labels: Labels) {
    LABEL_CHANGELOG_SUMMARY in labels && labels[LABEL_CHANGELOG_SUMMARY] == ""
  }

  /** The policy parsed from the applied labels is the policy parsed from the labels asked for, unless
      an empty changelog-summary is the only thing wrong with these: it is refused by the parser but
      dropped by the writer. */
  lemma PolicyReadsBack(x: Xml, desired: Labels)
    requires Accepted(x) && ReadsBack(x, desired)
    ensures FromLabels(ReadRuntime(Rewritten(x, desired)).value) == FromLabels(desired) <==>
            !(BlankSummary(desired) && FromLabels(desired - {LABEL_CHANGELOG_SUMMARY}).Some?)
  {
    hide Rewritten, ReadRuntime, Accepted;
    var back := ReadRuntime(Rewritten(x, desired)).value;
    PolicyOfOwned(back);
    PolicyOfOwned(PolicyLabels(desired));
    PolicyLabelsAreOwned(desired);
    assert FromLabels(back) == FromLabels(PolicyLabels(desired));
    PolicyOfWanted(desired);
  }

  lemma PolicyOfOwned(labels: Labels)
    ensures FromLabels(OwnedPart(labels)) == FromLabels(labels)
  {
    hide Owned, Strip, Lower, ParseHold, IsGithubRepository, LABEL_PREFIX, ParseVersion, ParsePolicy, ParseResearch;
    hide LABEL_VERSION, LABEL_POLICY, LABEL_RESEARCH, LABEL_CHANGELOG_SUMMARY, LABEL_SOURCE, LABEL_HOLD_DAYS;
    KeysDiffer();
  }

  /** Parsing looks at an owned key only through these: a blank text reads like an absent one, except
      for the changelog summary. */
  ghost predicate ReadsAlike(a: Labels, b: Labels) {
    && Word(a, LABEL_VERSION) == Word(b, LABEL_VERSION)
    && Word(a, LABEL_POLICY) == Word(b, LABEL_POLICY)
    && Word(a, LABEL_RESEARCH) == Word(b, LABEL_RESEARCH)
    && (LABEL_CHANGELOG_SUMMARY in a <==> LABEL_CHANGELOG_SUMMARY in b)
    && Word(a, LABEL_CHANGELOG_SUMMARY) == Word(b, LABEL_CHANGELOG_SUMMARY)
    && ((LABEL_SOURCE in a && a[LABEL_SOURCE] != "") <==> (LABEL_SOURCE in b && b[LABEL_SOURCE] != ""))
    && (LABEL_SOURCE in a && a[LABEL_SOURCE] != "" ==> a[LABEL_SOURCE] == b[LABEL_SOURCE])
    && ((LABEL_HOLD_DAYS in a && a[LABEL_HOLD_DAYS] != "") <==> (LABEL_HOLD_DAYS in b && b[LABEL_HOLD_DAYS] != ""))
    && (LABEL_HOLD_DAYS in a && a[LABEL_HOLD_DAYS] != "" ==> a[LABEL_HOLD_DAYS] == b[LABEL_HOLD_DAYS])
  }

  lemma AlikeParseAlike(a: Labels, b: Labels)
    requires ReadsAlike(a, b)
    ensures FromLabels(a) == FromLabels(b)
  {
    hide Word, Strip, ParseHold, IsGithubRepository, ParseVersion, ParsePolicy, ParseResearch;
    hide LABEL_VERSION, LABEL_POLICY, LABEL_RESEARCH, LABEL_CHANGELOG_SUMMARY, LABEL_SOURCE, LABEL_HOLD_DAYS;
  }

  lemma EmptyWord()
    ensures Lower(Strip("")) == ""
  {
    hide Lower;
    TrimmedStaysPut("");
  }

  lemma PolicyOfWanted(desired: Labels)
    ensures BlankSummary(desired) ==> FromLabels(desired) == None
    ensures FromLabels(PolicyLabels(desired)) ==
            FromLabels(if BlankSummary(desired) then desired - {LABEL_CHANGELOG_SUMMARY} else desired)
  {
    hide FromLabels, Strip, Lower, LABEL_PREFIX;
    hide LABEL_VERSION, LABEL_POLICY, LABEL_RESEARCH, LABEL_CHANGELOG_SUMMARY, LABEL_SOURCE, LABEL_HOLD_DAYS;
    var meant := if BlankSummary(desired) then desired - {LABEL_CHANGELOG_SUMMARY} else desired;
    KeysDiffer();
    EmptyWord();
    assert ReadsAlike(PolicyLabels(desired), meant);
    AlikeParseAlike(PolicyLabels(desired), meant);
    BlankIsRefused(desired);
  }

  lemma BlankIsRefused(desired: Labels)
    ensures BlankSummary(desired) ==> FromLabels(desired) == None
  {
    hide Strip, ParseHold, IsGithubRepository, ParseVersion, ParsePolicy, ParseResearch;
    hide LABEL_VERSION, LABEL_POLICY, LABEL_RESEARCH, LABEL_CHANGELOG_SUMMARY, LABEL_SOURCE, LABEL_HOLD_DAYS;
    EmptyWord();
  }

  /** For every label map the parser accepts, the template's policy after the edit is that map's. */
  lemma AcceptedPolicyReadsBack(x: Xml, desired: Labels)
    requires Accepted(x) && Survives(x) && !StrayRoot(x) && FromLabels(desired).Some?
    ensures ReadsBack(x, desired)
    ensures FromLabels(ReadRuntime(Rewritten(x, desired)).value) == FromLabels(desired)
  {
    hide Rewritten, ReadRuntime, Survives, StrayRoot, FromLabels, Scan, Legacy, ReadArgs, Params, LabelTexts;
    RuntimeReadBackExact(x);
    PolicyOfWanted(desired);
    PolicyReadsBack(x, desired);
  }

  const INNER := Elem("ExtraParams", "", Some([]), [])
  const OUTER := Elem("Label", LABEL_POLICY + "=" + "auto", None, [INNER])

  /** A template whose only `ExtraParams` sits inside an owned label loses what is written to it. */
  lemma NestedParamsLoseTheEdit()
    ensures var nested := Elem("Container", "", None, [OUTER]);
            Accepted(nested) && !(forall d :: ReadsBack(nested, d))
  {
    hide Rewritten, ReadRuntime, ReadArgs, Legacy, LabelTexts, OwnedLabel;
    OuterIsOwned();
    var nested := Elem("Container", "", None, [OUTER]);
    assert Params(INNER) == Some(Some([]));
    assert ParamsIn([INNER]) == Params(INNER);
    assert Params(OUTER) == ParamsIn([INNER]);
    assert ParamsIn([OUTER]) == Params(OUTER);
    assert !SurvivesIn([OUTER]);
    RuntimeReadBackExact(nested);
  }

  lemma OuterIsOwned()
    ensures OwnedLabel(OUTER)
  {
    hide KeyOf, Strip, Owned;
    KeyOrderFacts();
    assert LABEL_POLICY in KEY_ORDER;
    KeyOfJoined(LABEL_POLICY, "auto");
    TrimmedStaysPut(LABEL_POLICY);
  }

  lemma TrimmedStaysPut(s: string)
    requires Trimmed(s)
    ensures Strip(s) == s
  {
  }
}
