/** Applying policy labels to a dockerMan template tree and reading them back
    (`apply_policy_labels` and `parse_template_labels` of src/unraid_updater/label_edit.py,
    `template_labels` of src/unraid_updater/docker_runtime.py). */
module TemplateEdit {
  import opened Strings
  import opened VnextPolicy
  import opened TemplateLabels

  /** An XML element. `words` is the shell reading of its text, `None` when that text has an
      unterminated quotation; only `ExtraParams` elements are read that way. */
  datatype Xml = Elem(tag: string, text: string, words: Option<seq<string>>, children: seq<Xml>)

  // ---------------------------------------------------------------- reading the tree

  function LabelTexts(x: Xml): seq<string>
    decreases x, 1
  {
    (if x.tag == "Label" then [x.text] else []) + LabelTextsIn(x.children)
  }

  function LabelTextsIn(xs: seq<Xml>): seq<string>
    decreases xs, 0
  {
    if xs == [] then [] else LabelTexts(xs[0]) + LabelTextsIn(xs[1..])
  }

  /** The words of the first `ExtraParams` in document order, if there is one. */
  function Params(x: Xml): Option<Option<seq<string>>>
    decreases x, 1
  {
    if x.tag == "ExtraParams" then Some(x.words) else ParamsIn(x.children)
  }

  function ParamsIn(xs: seq<Xml>): Option<Option<seq<string>>>
    decreases xs, 0
  {
    if xs == [] then None
    else if Params(xs[0]).Some? then Params(xs[0])
    else ParamsIn(xs[1..])
  }

  /** Legacy `Label` elements as a dictionary; only the runtime's reader strips the values. */
  function Legacy(texts: seq<string>, labels: Labels, stripValues: bool): Labels {
    if texts == [] then labels
    else
      var t := texts[0];
      var put := if '=' in t then labels[Strip(KeyOf(t)) := if stripValues then Strip(ValueOf(t)) else ValueOf(t)]
        else labels;
      Legacy(texts[1..], put, stripValues)
  }

  function WordsOrNone(x: Xml): Option<seq<string>> {
    if Params(x).Some? then Params(x).value else Some([])
  }

  /** `template_labels`; `None` is the error for unreadable `ExtraParams`. */
  function ReadRuntime(x: Xml): Option<Labels> {
    if WordsOrNone(x).None? then None
    else Some(ReadArgs(Scan(WordsOrNone(x).value), Legacy(LabelTexts(x), map[], true), false))
  }

  /** `parse_template_labels`; `None` is the error for unreadable `ExtraParams` or a dangling flag. */
  function ReadEditor(x: Xml): Option<Labels> {
    if WordsOrNone(x).None? || Dangling in Scan(WordsOrNone(x).value) then None
    else Some(Legacy(LabelTexts(x), map[], false) + ReadArgs(Scan(WordsOrNone(x).value), map[], true))
  }

  // ---------------------------------------------------------------- editing the tree

  predicate OwnedLabel(x: Xml) {
    x.tag == "Label" && Owned(Strip(KeyOf(x.text)))
  }

  function Prune(x: Xml): Xml
    decreases x, 1
  {
    Elem(x.tag, x.text, x.words, PruneIn(x.children))
  }

  function PruneIn(xs: seq<Xml>): seq<Xml>
    decreases xs, 0
  {
    if xs == [] then []
    else if OwnedLabel(xs[0]) then PruneIn(xs[1..])
    else [Prune(xs[0])] + PruneIn(xs[1..])
  }

  function SetParams(x: Xml, words: seq<string>): Xml
    decreases x, 1
  {
    if x.tag == "ExtraParams" then Elem(x.tag, x.text, Some(words), x.children)
    else Elem(x.tag, x.text, x.words, SetParamsIn(x.children, words))
  }

  function SetParamsIn(xs: seq<Xml>, words: seq<string>): seq<Xml>
    decreases xs, 0
  {
    if xs == [] then []
    else if Params(xs[0]).Some? then [SetParams(xs[0], words)] + xs[1..]
    else [xs[0]] + SetParamsIn(xs[1..], words)
  }

  function WithParams(x: Xml): Xml {
    if Params(x).Some? then x
    else Elem(x.tag, x.text, x.words, x.children + [Elem("ExtraParams", "", Some([]), [])])
  }

  const KEY_ORDER := [LABEL_CHANGELOG_SUMMARY, LABEL_HOLD_DAYS, LABEL_POLICY, LABEL_RESEARCH, LABEL_SOURCE,
    LABEL_VERSION]

  /** The label arguments for `wanted`, in the order of `keys`. */
  function OwnedArgs(wanted: Labels, keys: seq<string>): seq<Arg> {
    if keys == [] then []
    else (if keys[0] in wanted then [Pair(keys[0] + "=" + wanted[keys[0]])] else []) + OwnedArgs(wanted, keys[1..])
  }

  /** The words `ExtraParams` is left with. */
  function NewWords(words: seq<string>, desired: Labels): seq<string> {
    Flatten(Unowned(Scan(words)) + OwnedArgs(PolicyLabels(desired), KEY_ORDER))
  }

  /** `apply_policy_labels` on the parsed tree; `None` is its refusal. */
  function Rewrite(x: Xml, desired: Labels): Option<Xml> {
    if ReadEditor(x).None? then None
    else Some(Prune(SetParams(WithParams(x), NewWords(WordsOrNone(x).value, desired))))
  }

  predicate Accepted(x: Xml) {
    ReadEditor(x).Some?
  }

  method ApplyPolicyLabels(root: Xml, desired: Labels) returns (r: Option<Xml>)
    ensures r == Rewrite(root, desired)
  {
    hide Scan, Params, Legacy, ReadArgs, LabelTexts, SetParams, Prune, WithParams, PolicyLabels, OwnedArgs;
    var split := WordsOrNone(root);
    if split.None? {
      return None;
    }
    var before := EditorLabels(split.value);
    if before.None? {
      return None;
    }
    var extra := WithParams(root);
    var kept := WithoutOwnedLabels(split.value);
    var added := Flatten(OwnedArgs(PolicyLabels(desired), KEY_ORDER));
    FlattenJoins(Unowned(Scan(split.value)), OwnedArgs(PolicyLabels(desired), KEY_ORDER));
    r := Some(Prune(SetParams(extra, kept.value + added)));
  }

  // ---------------------------------------------------------------- where the edit lands

  /** The first `ExtraParams` is not inside an owned `Label`, so that pruning leaves it in place. */
  predicate Survives(x: Xml)
    decreases x, 1
  {
    x.tag == "ExtraParams" || SurvivesIn(x.children)
  }

  predicate SurvivesIn(xs: seq<Xml>)
    decreases xs, 0
  {
    || xs == []
    || (if Params(xs[0]).Some? then !OwnedLabel(xs[0]) && Survives(xs[0]) else SurvivesIn(xs[1..]))
  }

  /** A root that is itself an owned `Label`: pruning only ever removes children. */
  predicate StrayRoot(x: Xml) {
    OwnedLabel(x) && '=' in x.text
  }

  lemma {:induction false} SetParamsFacts(x: Xml, words: seq<string>)
    requires Params(x).Some?
    ensures Params(SetParams(x, words)) == Some(Some(words))
    ensures LabelTexts(SetParams(x, words)) == LabelTexts(x)
    ensures Survives(SetParams(x, words)) <==> Survives(x)
    ensures forall w :: SetParams(SetParams(x, words), w) == SetParams(x, w)
    decreases x, 1
  {
    hide OwnedLabel;
    if x.tag != "ExtraParams" {
      SetParamsInFacts(x.children, words);
    }
  }

  lemma SameOwner(x: Xml, words: seq<string>)
    ensures OwnedLabel(SetParams(x, words)) <==> OwnedLabel(x)
  {
  }

  lemma {:induction false} SetParamsInFacts(xs: seq<Xml>, words: seq<string>)
    requires ParamsIn(xs).Some?
    ensures ParamsIn(SetParamsIn(xs, words)) == Some(Some(words))
    ensures LabelTextsIn(SetParamsIn(xs, words)) == LabelTextsIn(xs)
    ensures SurvivesIn(SetParamsIn(xs, words)) <==> SurvivesIn(xs)
    ensures forall w :: SetParamsIn(SetParamsIn(xs, words), w) == SetParamsIn(xs, w)
    decreases xs, 0
  {
    hide OwnedLabel;
    var ys := SetParamsIn(xs, words);
    assert ys[1..] == if Params(xs[0]).Some? then xs[1..] else SetParamsIn(xs[1..], words);
    SameOwner(xs[0], words);
    if Params(xs[0]).Some? {
      SetParamsFacts(xs[0], words);
    } else {
      SetParamsInFacts(xs[1..], words);
    }
  }

  /** Pruning leaves a surviving `ExtraParams` where it is, and commutes with writing it. */
  lemma {:induction false} PruneKeepsParams(x: Xml, words: seq<string>)
    requires Params(x).Some? && Survives(x)
    ensures Params(Prune(x)) == Params(x)
    ensures SetParams(Prune(x), words) == Prune(SetParams(x, words))
    decreases x, 1
  {
    if x.tag != "ExtraParams" {
      PruneInKeepsParams(x.children, words);
    }
  }

  lemma {:induction false} PruneInKeepsParams(xs: seq<Xml>, words: seq<string>)
    requires ParamsIn(xs).Some? && SurvivesIn(xs)
    ensures ParamsIn(PruneIn(xs)) == ParamsIn(xs)
    ensures SetParamsIn(PruneIn(xs), words) == PruneIn(SetParamsIn(xs, words))
    decreases xs, 0
  {
    hide OwnedLabel;
    var ys := SetParamsIn(xs, words);
    assert ys[1..] == if Params(xs[0]).Some? then xs[1..] else SetParamsIn(xs[1..], words);
    SameOwner(xs[0], words);
    if Params(xs[0]).Some? {
      PruneKeepsParams(xs[0], words);
    } else {
      PruneInKeepsParams(xs[1..], words);
      PruneAddsNoParams(xs[0]);
    }
  }

  lemma {:induction false} PruneAddsNoParams(x: Xml)
    requires Params(x).None?
    ensures Params(Prune(x)).None?
    decreases x, 1
  {
    PruneInAddsNoParams(x.children);
  }

  lemma {:induction false} PruneInAddsNoParams(xs: seq<Xml>)
    requires ParamsIn(xs).None?
    ensures ParamsIn(PruneIn(xs)).None?
    decreases xs, 0
  {
    hide OwnedLabel;
    if xs != [] {
      PruneAddsNoParams(xs[0]);
      PruneInAddsNoParams(xs[1..]);
    }
  }

  /** Words written into an `ExtraParams` that pruning removes leave no trace. */
  lemma {:induction false} PruneDropsParams(x: Xml, words: seq<string>)
    requires Params(x).Some? && !Survives(x)
    ensures Prune(SetParams(x, words)) == Prune(x)
    decreases x, 1
  {
    PruneInDropsParams(x.children, words);
  }

  lemma {:induction false} PruneInDropsParams(xs: seq<Xml>, words: seq<string>)
    requires ParamsIn(xs).Some? && !SurvivesIn(xs)
    ensures PruneIn(SetParamsIn(xs, words)) == PruneIn(xs)
    decreases xs, 0
  {
    hide OwnedLabel;
    var ys := SetParamsIn(xs, words);
    assert ys[1..] == if Params(xs[0]).Some? then xs[1..] else SetParamsIn(xs[1..], words);
    SameOwner(xs[0], words);
    if Params(xs[0]).None? {
      PruneInDropsParams(xs[1..], words);
    } else if !OwnedLabel(xs[0]) {
      PruneDropsParams(xs[0], words);
    }
  }

  /** The words of the first `ExtraParams` that is not inside an owned `Label`, if there is one. */
  function OuterParams(x: Xml): Option<Option<seq<string>>>
    decreases x, 1
  {
    if x.tag == "ExtraParams" then Some(x.words) else OuterParamsIn(x.children)
  }

  function OuterParamsIn(xs: seq<Xml>): Option<Option<seq<string>>>
    decreases xs, 0
  {
    if xs == [] then None
    else if !OwnedLabel(xs[0]) && OuterParams(xs[0]).Some? then OuterParams(xs[0])
    else OuterParamsIn(xs[1..])
  }

  lemma {:induction false} PrunedParams(x: Xml)
    ensures Params(Prune(x)) == OuterParams(x)
    decreases x, 1
  {
    PrunedParamsIn(x.children);
  }

  lemma {:induction false} PrunedParamsIn(xs: seq<Xml>)
    ensures ParamsIn(PruneIn(xs)) == OuterParamsIn(xs)
    decreases xs, 0
  {
    hide OwnedLabel;
    if xs != [] {
      PrunedParamsIn(xs[1..]);
      if !OwnedLabel(xs[0]) {
        PrunedParams(xs[0]);
        assert PruneIn(xs)[1..] == PruneIn(xs[1..]);
      }
    }
  }

  lemma {:induction false} PruneTwice(x: Xml)
    ensures Prune(Prune(x)) == Prune(x)
    decreases x, 1
  {
    PruneInTwice(x.children);
  }

  lemma {:induction false} PruneInTwice(xs: seq<Xml>)
    ensures PruneIn(PruneIn(xs)) == PruneIn(xs)
    decreases xs, 0
  {
    hide KeyOf, Strip, Owned;
    if xs != [] {
      PruneTwice(xs[0]);
      PruneInTwice(xs[1..]);
    }
  }

  lemma {:induction false} PrunedTexts(xs: seq<Xml>)
    ensures forall t :: t in LabelTextsIn(PruneIn(xs)) ==> !Owned(Strip(KeyOf(t)))
    decreases xs
  {
    hide KeyOf, Strip, Owned;
    if xs != [] {
      PrunedTexts(xs[1..]);
      PrunedTexts(xs[0].children);
    }
  }

  lemma WithParamsFacts(x: Xml)
    ensures Params(WithParams(x)) == Some(WordsOrNone(x))
    ensures LabelTexts(WithParams(x)) == LabelTexts(x)
    ensures Survives(WithParams(x)) <==> Survives(x)
    ensures StrayRoot(WithParams(x)) <==> StrayRoot(x)
    ensures Params(x).None? ==> Survives(x)
  {
    hide KeyOf, Strip, Owned;
    if Params(x).None? {
      AppendedParams(x.children);
    }
  }

  lemma {:induction false} AppendedParams(xs: seq<Xml>)
    requires ParamsIn(xs).None?
    ensures var ys := xs + [Elem("ExtraParams", "", Some([]), [])];
            ParamsIn(ys) == Some(Some([])) && LabelTextsIn(ys) == LabelTextsIn(xs) && SurvivesIn(ys)
    ensures SurvivesIn(xs)
  {
    hide KeyOf, Strip, Owned;
    var extra := Elem("ExtraParams", "", Some([]), []);
    var ys := xs + [extra];
    if xs == [] {
      assert ys == [extra] && ys[1..] == [];
      assert LabelTexts(extra) == [] + LabelTextsIn([]);
    } else {
      AppendedParams(xs[1..]);
      assert ys[1..] == xs[1..] + [extra];
    }
  }
}
