/** Merging a shipped template with the installed one: the children of the live tree are replaced one
    by one while it is being walked (scripts/merge_unraid_template.py). */
module TemplateMerge {
  import opened Strings

  /** The content of an element: tag, `Target` attribute if present, and everything else. */
  datatype Content = Content(tag: string, target: Option<string>, body: string)

  /** An element; elements are told apart by identity, not by content. */
  class Node {
    const content: Content

    constructor (content: Content)
      ensures this.content == content
    {
      this.content := content;
    }
  }

  function Contents(nodes: seq<Node>): seq<Content> {
    seq(|nodes|, i requires 0 <= i < |nodes| => nodes[i].content)
  }

  function TargetOf(c: Content): string {
    if c.target.Some? then c.target.value else ""
  }

  /** The last installed `Config` with this non-empty target. */
  function Installed(entries: seq<Content>, target: string): (r: Option<Content>)
    ensures r.Some? ==> r.value in entries && r.value.tag == "Config" && TargetOf(r.value) == target && target != ""
    ensures r.None? && target != "" ==> forall c :: c in entries ==> c.tag != "Config" || TargetOf(c) != target
  {
    if entries == [] then None
    else
      var last := entries[|entries| - 1];
      if last.tag == "Config" && target != "" && TargetOf(last) == target then Some(last)
      else Installed(entries[..|entries| - 1], target)
  }

  /** What becomes of one shipped child. */
  function MergedChild(c: Content, installed: seq<Content>): Content {
    if c.tag == "Config" && Installed(installed, TargetOf(c)).Some? then Installed(installed, TargetOf(c)).value else c
  }

  function Merged(shipped: seq<Content>, installed: seq<Content>): seq<Content> {
    seq(|shipped|, i requires 0 <= i < |shipped| => MergedChild(shipped[i], installed))
  }

  predicate Distinct(nodes: seq<Node>) {
    forall i, j :: 0 <= i < j < |nodes| ==> nodes[i] != nodes[j]
  }

  /** The root element of a parsed template. */
  class Tree {
    var children: seq<Node>

    constructor (children: seq<Node>)
      ensures this.children == children
    {
      this.children := children;
    }

    /** `Element.remove`: drop the first child that is this node. */
    method Remove(node: Node, ghost at: nat)
      requires at < |children| && children[at] == node && forall i :: 0 <= i < at ==> children[i] != node
      modifies this
      ensures children == old(children)[..at] + old(children)[at + 1..]
    {
      var i := 0;
      while children[i] != node
        invariant 0 <= i <= at
        decreases at - i
      {
        i := i + 1;
      }
      children := children[..i] + children[i + 1..];
    }

    method Insert(index: nat, node: Node)
      requires index <= |children|
      modifies this
      ensures children == old(children)[..index] + [node] + old(children)[index..]
    {
      children := children[..index] + [node] + children[index..];
    }

    /** Replace, in place, every shipped `Config` that the installed template knows. */
    method Merge(installed: seq<Node>)
      requires Distinct(children)
      modifies this
      ensures Contents(children) == Merged(Contents(old(children)), Contents(installed))
    {
      var snapshot := children;
      var known := Contents(installed);
      var index := 0;
      while index < |snapshot|
        invariant 0 <= index <= |snapshot| == |children|
        invariant forall j :: index <= j < |snapshot| ==> children[j] == snapshot[j]
        invariant forall j :: 0 <= j < index ==> children[j].content == MergedChild(snapshot[j].content, known)
        invariant forall j, k :: 0 <= j < index <= k < |snapshot| ==> children[j] != snapshot[k]
      {
        var node := snapshot[index];
        if node.content.tag == "Config" {
          var prior := Installed(known, TargetOf(node.content));
          if prior.Some? {
            var copy := new Node(prior.value);
            ghost var before := children;
            Remove(node, index);
            Insert(index, copy);
            assert children == before[..index] + [copy] + before[index + 1..];
          }
        }
        index := index + 1;
      }
    }
  }

  /** Merging the output with the same installed template again changes nothing. */
  lemma MergeTwice(shipped: seq<Content>, installed: seq<Content>)
    ensures Merged(Merged(shipped, installed), installed) == Merged(shipped, installed)
  {
  }

  /** Installed values win: a shipped `Config` whose target is installed becomes an installed one with
      that target, the last; every other child, in its place, is untouched. */
  lemma InstalledValuesWin(shipped: seq<Content>, installed: seq<Content>, i: nat, k: nat, target: string)
    requires i < |shipped|
    ensures |Merged(shipped, installed)| == |shipped|
    ensures (forall t :: !ConfigFor(shipped[i], t)) ==> Merged(shipped, installed)[i] == shipped[i]
    ensures k < |installed| && ConfigFor(shipped[i], target) && ConfigFor(installed[k], target)
            && (forall j :: k < j < |installed| ==> !ConfigFor(installed[j], target)) ==>
              Merged(shipped, installed)[i] == installed[k]
    ensures ConfigFor(shipped[i], target) && (forall j :: 0 <= j < |installed| ==> !ConfigFor(installed[j], target)) ==>
              Merged(shipped, installed)[i] == shipped[i]
  {
    assert ConfigFor(shipped[i], TargetOf(shipped[i])) || forall t :: !ConfigFor(shipped[i], t);
    LastInstalled(installed, TargetOf(shipped[i]), k);
    NoneInstalled(installed, TargetOf(shipped[i]));
  }

  /** A setting with a target of its own. */
  predicate ConfigFor(c: Content, target: string) {
    c.tag == "Config" && c.target == Some(target) && target != ""
  }

  lemma NoneInstalled(installed: seq<Content>, target: string)
    ensures Installed(installed, target).Some? ==> ConfigFor(Installed(installed, target).value, target)
  {
  }

  lemma {:induction false} LastInstalled(installed: seq<Content>, target: string, k: nat)
    ensures k < |installed| && installed[k].tag == "Config" && target != "" && TargetOf(installed[k]) == target
            && (forall j :: k < j < |installed| ==> installed[j].tag != "Config" || TargetOf(installed[j]) != target)
            ==> Installed(installed, target) == Some(installed[k])
  {
    if installed != [] && k < |installed| - 1 {
      LastInstalled(installed[..|installed| - 1], target, k);
    }
  }
}
