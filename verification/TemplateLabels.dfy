/** Rewriting updater labels in dockerMan templates and the two readers of the result
    (src/unraid_updater/label_edit.py and `template_labels` of src/unraid_updater/docker_runtime.py).

    `ExtraParams` is a sequence of words: `shlex.split` and `shlex.join` are taken as inverse. */
module TemplateLabels {
  import opened Strings
  import opened VnextPolicy

  // ---------------------------------------------------------------- command-line words

  const FLAG := "--label"

  predicate IsInline(word: string) {
    "--label=" <= word
  }

  lemma FlagIsNotInline()
    ensures !IsInline(FLAG)
  {
    assert |FLAG| == 7;
  }

  /** One argument of the container's command line, as every scan of the words groups them. */
  datatype Arg =
    | Pair(value: string)     // --label value
    | Inline(word: string)    // --label=value
    | Other(word: string)
    | Dangling                // a final --label without a value

  function Scan(words: seq<string>): seq<Arg> {
    if words == [] then []
    else if words[0] == FLAG then
      if |words| == 1 then [Dangling] else [Pair(words[1])] + Scan(words[2..])
    else if IsInline(words[0]) then [Inline(words[0])] + Scan(words[1..])
    else [Other(words[0])] + Scan(words[1..])
  }

  function Words(a: Arg): seq<string> {
    match a
    case Pair(v) => [FLAG, v]
    case Inline(w) => [w]
    case Other(w) => [w]
    case Dangling => [FLAG]
  }

  function Flatten(args: seq<Arg>): seq<string> {
    if args == [] then [] else Words(args[0]) + Flatten(args[1..])
  }

  /** A complete argument that a scan yields. */
  predicate Complete(a: Arg) {
    match a
    case Pair(_) => true
    case Inline(w) => IsInline(w)
    case Other(w) => w != FLAG && !IsInline(w)
    case Dangling => false
  }

  predicate AllComplete(args: seq<Arg>) {
    forall a :: a in args ==> Complete(a)
  }

  lemma {:induction false} FlattenJoins(a: seq<Arg>, b: seq<Arg>)
    ensures Flatten(a + b) == Flatten(a) + Flatten(b)
  {
    hide Words;
    if a == [] {
      assert a + b == b;
    } else {
      FlattenJoins(a[1..], b);
      assert (a + b)[1..] == a[1..] + b;
    }
  }

  lemma ScanHead(a: Arg, tail: seq<string>)
    requires Complete(a)
    ensures Scan(Words(a) + tail) == [a] + Scan(tail)
  {
    hide FLAG, IsInline;
    FlagIsNotInline();
    var words := Words(a) + tail;
    assert words[|Words(a)|..] == tail;
  }

  /** Words written from complete arguments are scanned back with the same pairing, whatever words
      follow them. */
  lemma {:induction false} ScanOfFlatten(args: seq<Arg>, rest: seq<string>)
    requires AllComplete(args)
    ensures Scan(Flatten(args) + rest) == args + Scan(rest)
  {
    hide Words, Complete, Scan;
    if args == [] {
      assert Flatten(args) + rest == rest;
    } else {
      assert AllComplete(args[1..]);
      ScanOfFlatten(args[1..], rest);
      ScanHead(args[0], Flatten(args[1..]) + rest);
      assert Flatten(args) + rest == Words(args[0]) + (Flatten(args[1..]) + rest);
    }
  }

  lemma {:induction false} ScanIsComplete(words: seq<string>)
    ensures Flatten(Scan(words)) == words
    ensures Dangling !in Scan(words) ==> AllComplete(Scan(words))
  {
    hide FLAG, IsInline;
    if words != [] {
      if words[0] == FLAG {
        if |words| > 1 {
          ScanIsComplete(words[2..]);
          assert words == [words[0], words[1]] + words[2..];
        }
      } else {
        ScanIsComplete(words[1..]);
        assert words == [words[0]] + words[1..];
      }
    }
  }

  // ---------------------------------------------------------------- labels of arguments

  function KeyOf(text: string): string {
    text[..IndexFrom(text, '=', 0)]
  }

  function ValueOf(text: string): string
    requires '=' in text
  {
    text[IndexFrom(text, '=', 0) + 1..]
  }

  /** The label text an argument carries, if any. */
  function LabelText(a: Arg): Option<string> {
    match a
    case Pair(v) => Some(v)
    case Inline(w) => if |w| >= 8 then Some(w[8..]) else None
    case Other(_) => None
    case Dangling => None
  }

  predicate OwnedArg(a: Arg) {
    LabelText(a).Some? && Owned(KeyOf(LabelText(a).value))
  }

  function Unowned(args: seq<Arg>): (r: seq<Arg>)
    ensures forall a :: a in r ==> a in args && !OwnedArg(a)
  {
    if args == [] then []
    else if OwnedArg(args[0]) then Unowned(args[1..])
    else [args[0]] + Unowned(args[1..])
  }

  lemma {:induction false} UnownedJoins(a: seq<Arg>, b: seq<Arg>)
    ensures Unowned(a + b) == Unowned(a) + Unowned(b)
  {
    hide OwnedArg;
    if a == [] {
      assert a + b == b;
    } else {
      UnownedJoins(a[1..], b);
      assert (a + b)[0] == a[0] && (a + b)[1..] == a[1..] + b;
      var u, v := Unowned(a[1..]), Unowned(b);
      assert ([a[0]] + u) + v == [a[0]] + (u + v);
    }
  }

  lemma {:induction false} UnownedStays(args: seq<Arg>)
    requires forall a :: a in args ==> !OwnedArg(a)
    ensures Unowned(args) == args
  {
    if args != [] {
      UnownedStays(args[1..]);
    }
  }

  /** Reading one argument into a label dictionary; `padded` keys are stripped by the label editor's
      reader and kept as they are by the runtime's. */
  function Put(labels: Labels, a: Arg, strip: bool): Labels {
    match LabelText(a)
    case None => labels
    case Some(text) =>
      if '=' in text
      then labels[(if strip then Strip(KeyOf(text)) else KeyOf(text)) := ValueOf(text)]
      else labels
  }

  function ReadArgs(args: seq<Arg>, labels: Labels, strip: bool): Labels {
    if args == [] then labels else ReadArgs(args[1..], Put(labels, args[0], strip), strip)
  }

  lemma {:induction false} ReadJoins(a: seq<Arg>, b: seq<Arg>, labels: Labels, strip: bool)
    ensures ReadArgs(a + b, labels, strip) == ReadArgs(b, ReadArgs(a, labels, strip), strip)
  {
    if a == [] {
      assert a + b == b;
    } else {
      ReadJoins(a[1..], b, Put(labels, a[0], strip), strip);
      assert (a + b)[1..] == a[1..] + b;
    }
  }

  // ---------------------------------------------------------------- the scanning loops

  /** The words without updater-owned label arguments; `None` is the error for a dangling flag. */
  function WithoutOwned(words: seq<string>): Option<seq<string>> {
    if Dangling in Scan(words) then None else Some(Flatten(Unowned(Scan(words))))
  }

  /** One turn of a scanning loop: the argument at `index` joins those already done. */
  lemma ScanStep(parts: seq<string>, index: nat, done: seq<Arg>)
    requires index < |parts| && Scan(parts) == done + Scan(parts[index..])
    ensures parts[index] == FLAG && index + 1 == |parts| ==> Dangling in Scan(parts)
    ensures parts[index] == FLAG && index + 1 < |parts| ==>
              Scan(parts) == (done + [Pair(parts[index + 1])]) + Scan(parts[index + 2..])
    ensures parts[index] != FLAG ==>
              var arg := if IsInline(parts[index]) then Inline(parts[index]) else Other(parts[index]);
              Scan(parts) == (done + [arg]) + Scan(parts[index + 1..])
  {
    hide FLAG, IsInline;
    var rest := parts[index..];
    assert rest[0] == parts[index] && rest[1..] == parts[index + 1..];
    if rest[0] == FLAG {
      if |rest| == 1 {
        assert Scan(parts)[|done|] == Dangling;
      } else {
        assert rest[1] == parts[index + 1] && rest[2..] == parts[index + 2..];
      }
    }
  }

  lemma KeepStep(done: seq<Arg>, a: Arg)
    ensures Flatten(Unowned(done + [a])) == Flatten(Unowned(done)) + if OwnedArg(a) then [] else Words(a)
  {
    hide Words, OwnedArg;
    UnownedJoins(done, [a]);
    FlattenJoins(Unowned(done), Unowned([a]));
    assert Flatten([a]) == Words(a) + Flatten([]);
  }

  method WithoutOwnedLabels(parts: seq<string>) returns (r: Option<seq<string>>)
    ensures r == WithoutOwned(parts)
  {
    hide Owned, KeyOf;
    var kept: seq<string> := [];
    var index := 0;
    ghost var done: seq<Arg> := [];
    while index < |parts|
      invariant 0 <= index <= |parts|
      invariant Scan(parts) == done + Scan(parts[index..])
      invariant Dangling !in done
      invariant kept == Flatten(Unowned(done))
    {
      var token := parts[index];
      ScanStep(parts, index, done);
      if token == FLAG {
        if index + 1 >= |parts| {
          return None;
        }
        var value := parts[index + 1];
        KeepStep(done, Pair(value));
        done := done + [Pair(value)];
        if !Owned(KeyOf(value)) {
          kept := kept + [token, value];
        }
        index := index + 2;
        continue;
      }
      if IsInline(token) {
        var value := token[8..];
        KeepStep(done, Inline(token));
        done := done + [Inline(token)];
        if Owned(KeyOf(value)) {
          index := index + 1;
          continue;
        }
      } else {
        KeepStep(done, Other(token));
        done := done + [Other(token)];
      }
      kept := kept + [token];
      index := index + 1;
    }
    assert parts[index..] == [] && Scan(parts) == done;
    r := Some(kept);
  }

  /** The runtime's reading loop over `ExtraParams`: a dangling flag is ignored. */
  method RuntimeLabels(parts: seq<string>, legacy: Labels) returns (labels: Labels)
    ensures labels == ReadArgs(Scan(parts), legacy, false)
  {
    labels := legacy;
    var index := 0;
    while index < |parts|
      invariant 0 <= index <= |parts|
      invariant ReadArgs(Scan(parts), legacy, false) == ReadArgs(Scan(parts[index..]), labels, false)
    {
      ghost var rest := parts[index..];
      assert rest[1..] == parts[index + 1..];
      assert |rest| > 1 ==> rest[2..] == parts[index + 2..];
      var value := "";
      if parts[index] == FLAG && index + 1 < |parts| {
        value := parts[index + 1];
        index := index + 2;
      } else if IsInline(parts[index]) {
        value := parts[index][8..];
        index := index + 1;
      } else {
        index := index + 1;
      }
      if '=' in value {
        labels := labels[KeyOf(value) := ValueOf(value)];
      }
    }
    assert parts[index..] == [];
  }

  /** The label editor's reading loop: keys are stripped, a dangling flag is an error. */
  method EditorLabels(parts: seq<string>) returns (r: Option<Labels>)
    ensures r == if Dangling in Scan(parts) then None else Some(ReadArgs(Scan(parts), map[], true))
  {
    hide KeyOf, Strip;
    var labels: Labels := map[];
    var index := 0;
    ghost var done: seq<Arg> := [];
    while index < |parts|
      invariant 0 <= index <= |parts|
      invariant Scan(parts) == done + Scan(parts[index..])
      invariant Dangling !in done
      invariant labels == ReadArgs(done, map[], true)
    {
      var text := "";
      ghost var arg: Arg;
      ScanStep(parts, index, done);
      if parts[index] == FLAG {
        if index + 1 >= |parts| {
          return None;
        }
        text := parts[index + 1];
        arg := Pair(text);
        index := index + 2;
      } else if IsInline(parts[index]) {
        text := parts[index][8..];
        arg := Inline(parts[index]);
        index := index + 1;
      } else {
        arg := Other(parts[index]);
        index := index + 1;
      }
      ReadJoins(done, [arg], map[], true);
      assert ReadArgs([arg], labels, true) == ReadArgs([], Put(labels, arg, true), true);
      done := done + [arg];
      if '=' in text {
        labels := labels[Strip(KeyOf(text)) := ValueOf(text)];
      }
    }
    assert parts[index..] == [] && Scan(parts) == done;
    r := Some(labels);
  }
}
