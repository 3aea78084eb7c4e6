/** The candidate table and its reconciliation with an authoritative scan
    (src/unraid_updater/db.py, `reconcile_rows` of src/unraid_updater/service.py). */
module Candidates {
  import opened Strings
  import opened VnextPolicy
  import opened Discovery

  /** The content a revision hash covers; the hash is taken as collision-free, so that it is
      represented by that content. */
  datatype Revision = Revision(
    container: string, image: string, candidate: string, policy: string, risk: string, ready: bool)

  datatype Status = ManualReview | ApprovalReady | Superseded | Resolved | Succeeded

  /** A row of the candidates table; its id is its position. Rows are never deleted. */
  datatype Row = Row(
    container: string, state: string, image: string, target: string, change: string,
    policy: string, risk: string, status: Status, revision: Revision)

  function RevisionOf(item: Item): Revision {
    Revision(item.container, item.image, item.candidate, item.policy, item.risk, item.ready)
  }

  function StatusOf(r: Revision): Status {
    if r.ready then ApprovalReady else ManualReview
  }

  predicate Active(s: Status) {
    !s.Superseded? && !s.Resolved?
  }

  // ---------------------------------------------------------------- specification of the table operations

  /** The position of a revision, or the number of rows when it is new. */
  function Position(rows: seq<Row>, r: Revision): (i: nat)
    ensures i <= |rows|
    ensures i < |rows| ==> rows[i].revision == r
    ensures forall j :: 0 <= j < i ==> rows[j].revision != r
  {
    if rows == [] then 0
    else
      var i := Position(rows[..|rows| - 1], r);
      if i < |rows| - 1 || rows[|rows| - 1].revision == r then i else |rows|
  }

  function Fresh(item: Item): Row {
    var r := RevisionOf(item);
    Row(item.container, item.state, item.image, item.candidate, item.change, item.policy, item.risk, StatusOf(r), r)
  }

  /** Insert, or refresh every column but the container and the revision. */
  function Upserted(rows: seq<Row>, item: Item): seq<Row> {
    var i := Position(rows, RevisionOf(item));
    if i == |rows| then rows + [Fresh(item)]
    else rows[i := Fresh(item).(container := rows[i].container)]
  }

  function SupersedeRow(row: Row, container: string, newest: Revision): Row {
    if row.container == container && row.revision != newest && Active(row.status) && !row.status.Succeeded?
    then row.(status := Superseded) else row
  }

  function SupersededRows(rows: seq<Row>, container: string, newest: Revision): seq<Row> {
    seq(|rows|, i requires 0 <= i < |rows| => SupersedeRow(rows[i], container, newest))
  }

  function ResolveRow(row: Row, seen: set<Revision>): Row {
    if seen == {} then row.(status := Resolved)
    else if Active(row.status) && row.revision !in seen then row.(status := Resolved)
    else row
  }

  function ResolvedRows(rows: seq<Row>, seen: set<Revision>): seq<Row> {
    seq(|rows|, i requires 0 <= i < |rows| => ResolveRow(rows[i], seen))
  }

  // ---------------------------------------------------------------- the store

  class CandidateStore {
    var rows: seq<Row>

    method UpsertCandidate(item: Item) returns (id: nat)
      modifies this
      ensures rows == Upserted(old(rows), item)
      ensures id < |rows| && rows[id].revision == RevisionOf(item)
    {
      id := Position(rows, RevisionOf(item));
      if id == |rows| {
        rows := rows + [Fresh(item)];
      } else {
        rows := rows[id := Fresh(item).(container := rows[id].container)];
      }
    }

    method SupersedeOlderCandidates(container: string, newest: Revision)
      modifies this
      ensures rows == SupersededRows(old(rows), container, newest)
      ensures |rows| == |old(rows)| && forall i :: 0 <= i < |rows| ==> rows[i] == old(rows)[i].(status :=
                if old(rows)[i].container == container && old(rows)[i].revision != newest
                  && old(rows)[i].status !in {Resolved, Superseded, Succeeded}
                then Superseded else old(rows)[i].status)
    {
      var i := 0;
      while i < |rows|
        invariant 0 <= i <= |rows| == |old(rows)|
        invariant forall j :: 0 <= j < i ==> rows[j] == SupersedeRow(old(rows)[j], container, newest)
        invariant forall j :: i <= j < |rows| ==> rows[j] == old(rows)[j]
      {
        if rows[i].container == container && rows[i].revision != newest
           && rows[i].status !in {Resolved, Superseded, Succeeded}
        {
          rows := rows[i := rows[i].(status := Superseded)];
        }
        i := i + 1;
      }
    }

    method ResolveMissingCandidates(seen: set<Revision>)
      modifies this
      ensures rows == ResolvedRows(old(rows), seen)
      ensures |rows| == |old(rows)| && forall i :: 0 <= i < |rows| ==> rows[i] == old(rows)[i].(status :=
                if seen == {} || (old(rows)[i].status !in {Resolved, Superseded} && old(rows)[i].revision !in seen)
                then Resolved else old(rows)[i].status)
    {
      var i := 0;
      while i < |rows|
        invariant 0 <= i <= |rows| == |old(rows)|
        invariant forall j :: 0 <= j < i ==> rows[j] == ResolveRow(old(rows)[j], seen)
        invariant forall j :: i <= j < |rows| ==> rows[j] == old(rows)[j]
      {
        if (if seen != {} then Active(rows[i].status) && rows[i].revision !in seen else !rows[i].status.Resolved?) {
          rows := rows[i := rows[i].(status := Resolved)];
        }
        i := i + 1;
      }
    }

    /** Reconcile the table with a complete snapshot. */
    method ReconcileRows(snapshot: seq<Raw>, cx: Context)
      modifies this
      ensures rows == Reconciled(old(rows), Items(snapshot, cx))
    {
      hide Normalize, Upserted, SupersededRows;
      var seen: set<Revision> := {};
      var i := 0;
      while i < |snapshot|
        invariant 0 <= i <= |snapshot|
        invariant rows == Imported(old(rows), Items(snapshot[..i], cx))
        invariant seen == Revisions(Items(snapshot[..i], cx))
      {
        var raw := snapshot[i];
        ItemsStep(snapshot, cx, i);
        ghost var before := Items(snapshot[..i], cx);
        i := i + 1;
        if !raw.available {
          continue;
        }
        var item := Normalize(raw, cx);
        RevisionsGrow(before, item);
        assert (before + [item])[..|before|] == before;
        var id := UpsertCandidate(item);
        var revision := rows[id].revision;
        seen := seen + {revision};
        SupersedeOlderCandidates(item.name, revision);
      }
      assert snapshot[..i] == snapshot;
      ResolveMissingCandidates(seen);
    }
  }

  // ---------------------------------------------------------------- one scan

  /** The candidates of a snapshot: its rows with an available update, normalized. */
  function Items(snapshot: seq<Raw>, cx: Context): seq<Item> {
    if snapshot == [] then []
    else
      var last := snapshot[|snapshot| - 1];
      Items(snapshot[..|snapshot| - 1], cx) + if last.available then [Normalize(last, cx)] else []
  }

  lemma ItemsStep(snapshot: seq<Raw>, cx: Context, i: nat)
    requires i < |snapshot|
    ensures Items(snapshot[..i + 1], cx) ==
            Items(snapshot[..i], cx) + if snapshot[i].available then [Normalize(snapshot[i], cx)] else []
    ensures !snapshot[i].available ==> Items(snapshot[..i + 1], cx) == Items(snapshot[..i], cx)
  {
    hide Normalize;
    assert snapshot[..i + 1][..i] == snapshot[..i];
  }

  function Revisions(items: seq<Item>): set<Revision> {
    set i | 0 <= i < |items| :: RevisionOf(items[i])
  }

  lemma RevisionsGrow(items: seq<Item>, item: Item)
    ensures Revisions(items + [item]) == Revisions(items) + {RevisionOf(item)}
  {
    var grown := items + [item];
    forall r | r in Revisions(items) + {RevisionOf(item)} ensures r in Revisions(grown) {
      if r == RevisionOf(item) {
        assert grown[|items|] == item;
      } else {
        var i :| 0 <= i < |items| && RevisionOf(items[i]) == r;
        assert grown[i] == items[i];
      }
    }
  }

  function Step(rows: seq<Row>, item: Item): seq<Row> {
    SupersededRows(Upserted(rows, item), item.name, RevisionOf(item))
  }

  function Imported(rows: seq<Row>, items: seq<Item>): seq<Row> {
    if items == [] then rows else Step(Imported(rows, items[..|items| - 1]), items[|items| - 1])
  }

  function Reconciled(rows: seq<Row>, items: seq<Item>): seq<Row> {
    ResolvedRows(Imported(rows, items), Revisions(items))
  }

  // ---------------------------------------------------------------- what the table keeps

  /** The columns a revision determines. */
  predicate Pinned(row: Row) {
    && row.container == row.revision.container && row.image == row.revision.image
    && row.target == row.revision.candidate && row.policy == row.revision.policy && row.risk == row.revision.risk
    && row.status in {StatusOf(row.revision), Superseded, Resolved}
  }

  /** A table that scans alone have written. */
  ghost predicate WellKept(rows: seq<Row>) {
    && (forall i :: 0 <= i < |rows| ==> Pinned(rows[i]))
    && (forall i, j :: 0 <= i < j < |rows| ==> rows[i].revision != rows[j].revision)
  }

  /** No row is lost or changes its identity. */
  ghost predicate Extends(rows: seq<Row>, later: seq<Row>) {
    |rows| <= |later| && forall i :: 0 <= i < |rows| ==> later[i].revision == rows[i].revision
  }

  lemma UpsertKeeps(rows: seq<Row>, item: Item)
    requires WellKept(rows)
    ensures WellKept(Upserted(rows, item)) && Extends(rows, Upserted(rows, item))
  {
  }

  lemma SupersedeKeeps(rows: seq<Row>, container: string, newest: Revision)
    requires WellKept(rows)
    ensures WellKept(SupersededRows(rows, container, newest)) && Extends(rows, SupersededRows(rows, container, newest))
  {
  }

  lemma ResolveKeeps(rows: seq<Row>, seen: set<Revision>)
    requires WellKept(rows)
    ensures WellKept(ResolvedRows(rows, seen)) && Extends(rows, ResolvedRows(rows, seen))
  {
  }

  lemma {:induction false} ImportKeeps(rows: seq<Row>, items: seq<Item>)
    requires WellKept(rows)
    ensures WellKept(Imported(rows, items)) && Extends(rows, Imported(rows, items))
  {
    hide Pinned, Upserted, SupersededRows;
    if items != [] {
      ImportKeeps(rows, items[..|items| - 1]);
      var before := Imported(rows, items[..|items| - 1]);
      UpsertKeeps(before, items[|items| - 1]);
      SupersedeKeeps(Upserted(before, items[|items| - 1]), items[|items| - 1].name, RevisionOf(items[|items| - 1]));
    }
  }

  // ---------------------------------------------------------------- the outcome of a reconciliation

  /** Items as discovery makes them: a row without a name is filed under "unknown". */
  ghost predicate Discovered(items: seq<Item>) {
    forall i :: 0 <= i < |items| ==> items[i].container == if items[i].name == "" then "unknown" else items[i].name
  }

  lemma {:induction false} ItemsAreDiscovered(snapshot: seq<Raw>, cx: Context)
    ensures Discovered(Items(snapshot, cx))
  {
    hide FromLabels, TargetImage, EffectiveGate, ChangeClass, EffectiveLabels, LabelOr, StateOf;
    if snapshot != [] {
      ItemsAreDiscovered(snapshot[..|snapshot| - 1], cx);
    }
  }

  /** The revisions of a container's items from its last named one onwards. */
  function LiveRevisions(items: seq<Item>, container: string): (s: set<Revision>)
    ensures forall r :: r in s ==> r.container == container
  {
    if items == [] then {}
    else
      var rest, last := items[..|items| - 1], items[|items| - 1];
      if last.container != container then LiveRevisions(rest, container)
      else if last.name != "" then {RevisionOf(last)}
      else LiveRevisions(rest, container) + {RevisionOf(last)}
  }

  function SteppedStatus(r: Revision, before: Status, item: Item): Status {
    if r == RevisionOf(item) then StatusOf(r)
    else if r.container == item.name && Active(before) then Superseded
    else before
  }

  /** The status a row ends an import with, from the status it had before. */
  function ImportedStatus(r: Revision, before: Status, items: seq<Item>): Status {
    if items == [] then before
    else SteppedStatus(r, ImportedStatus(r, before, items[..|items| - 1]), items[|items| - 1])
  }

  ghost predicate ImportOutcome(rows: seq<Row>, items: seq<Item>, later: seq<Row>) {
    && Extends(rows, later) && WellKept(later)
    && (forall r :: r in Revisions(items) ==> Position(later, r) < |later|)
    && (forall i :: |rows| <= i < |later| ==> later[i].revision in Revisions(items))
    && (forall i :: 0 <= i < |later| ==>
          later[i].status == ImportedStatus(later[i].revision, if i < |rows| then rows[i].status
            else Superseded, items))
  }

  /** Where one import step takes each row. */
  lemma StepRows(rows: seq<Row>, item: Item)
    requires WellKept(rows)
    ensures var later := Step(rows, item);
            && WellKept(later) && Extends(rows, later)
            && Position(later, RevisionOf(item)) < |later|
            && (forall i :: |rows| <= i < |later| ==> later[i].revision == RevisionOf(item))
            && (forall i :: 0 <= i < |later| ==>
                  later[i].status == SteppedStatus(later[i].revision, if i < |rows| then rows[i].status
                    else Superseded, item))
  {
    UpsertKeeps(rows, item);
    SupersedeKeeps(Upserted(rows, item), item.name, RevisionOf(item));
    var r := RevisionOf(item);
    var p := Position(rows, r);
    var later := Step(rows, item);
    assert later[p].revision == r;
  }

  lemma {:induction false} UnseenKeepsInactive(r: Revision, before: Status, items: seq<Item>)
    ensures r !in Revisions(items) && !Active(before) ==> ImportedStatus(r, before, items) == before
    ensures r !in Revisions(items) && Active(before) ==> ImportedStatus(r, before, items) in {before, Superseded}
  {
    hide RevisionOf;
    if items != [] {
      var rest := items[..|items| - 1];
      UnseenKeepsInactive(r, before, rest);
      RevisionsGrow(rest, items[|items| - 1]);
      assert rest + [items[|items| - 1]] == items;
    }
  }

  /** A seen revision ends an import active exactly when it is among the live ones. */
  lemma {:induction false} SeenStatus(r: Revision, before: Status, items: seq<Item>)
    requires Discovered(items)
    ensures LiveRevisions(items, r.container) <= Revisions(items)
    ensures r in Revisions(items) ==>
              && r.container != ""
              && ImportedStatus(r, before, items) == if r in LiveRevisions(items, r.container) then StatusOf(r)
                 else Superseded
  {
    hide StatusOf;
    if items != [] {
      var rest, last := items[..|items| - 1], items[|items| - 1];
      assert rest + [last] == items;
      SeenStatus(r, before, rest);
      RevisionsGrow(rest, last);
      StatusesAreActive(r);
    }
  }

  lemma StatusesAreActive(r: Revision)
    ensures Active(StatusOf(r))
  {
  }

  lemma {:induction false} ImportReaches(rows: seq<Row>, items: seq<Item>)
    requires WellKept(rows)
    ensures ImportOutcome(rows, items, Imported(rows, items))
  {
    hide Step, Pinned, StatusOf, RevisionOf;
    if items != [] {
      var rest, item := items[..|items| - 1], items[|items| - 1];
      assert rest + [item] == items;
      ImportReaches(rows, rest);
      var mid, later := Imported(rows, rest), Imported(rows, items);
      StepRows(mid, item);
      RevisionsGrow(rest, item);
      forall r | r in Revisions(items) ensures Position(later, r) < |later| {
        if r != RevisionOf(item) {
          assert later[Position(mid, r)].revision == r;
        }
      }
    }
  }

  /** The status each row ends a reconciliation with. */
  function FinalStatus(r: Revision, before: Status, items: seq<Item>): Status {
    if items == [] then Resolved
    else
      var s := ImportedStatus(r, before, items);
      if Active(s) && r !in Revisions(items) then Resolved else s
  }

  ghost predicate Outcome(rows: seq<Row>, items: seq<Item>, later: seq<Row>) {
    && Extends(rows, later) && WellKept(later)
    && (forall r :: r in Revisions(items) ==> Position(later, r) < |later|)
    && (forall i :: |rows| <= i < |later| ==> later[i].revision in Revisions(items))
    && (forall i :: 0 <= i < |later| ==>
          later[i].status == FinalStatus(later[i].revision, if i < |rows| then rows[i].status else Superseded, items))
  }

  lemma SomeRevision(items: seq<Item>)
    ensures Revisions(items) == {} <==> items == []
  {
    hide RevisionOf;
    if items != [] {
      assert RevisionOf(items[0]) in Revisions(items);
    }
  }

  lemma ReconcileReaches(rows: seq<Row>, items: seq<Item>)
    requires WellKept(rows)
    ensures Outcome(rows, items, Reconciled(rows, items))
  {
    hide ImportedStatus, WellKept, Imported, Revisions;
    ImportReaches(rows, items);
    var mid, later := Imported(rows, items), Reconciled(rows, items);
    ResolveKeeps(mid, Revisions(items));
    SomeRevision(items);
    forall r | r in Revisions(items) ensures Position(later, r) < |later| {
      assert later[Position(mid, r)].revision == r;
    }
  }

  lemma FinalIsActive(r: Revision, before: Status, items: seq<Item>)
    requires Discovered(items)
    ensures Active(FinalStatus(r, before, items)) <==> r in LiveRevisions(items, r.container)
    ensures r in LiveRevisions(items, r.container) ==> r in Revisions(items)
  {
    hide ImportedStatus, Discovered;
    SeenStatus(r, before, items);
    StatusesAreActive(r);
    SomeRevision(items);
  }

  ghost predicate ActiveFor(rows: seq<Row>, i: nat, container: string) {
    i < |rows| && rows[i].container == container && Active(rows[i].status)
  }

  ghost predicate ExactlyOneActive(rows: seq<Row>, container: string) {
    exists i: nat :: ActiveFor(rows, i, container) && forall j: nat :: ActiveFor(rows, j, container) ==> j == i
  }

  /** After a reconciliation the active candidates of a container are those of its items from the last
      named one onwards, whatever the table held before; there is exactly one if and only if these
      items have one revision. No row is lost. */
  lemma ActiveExactlyLive(rows: seq<Row>, items: seq<Item>, container: string)
    requires WellKept(rows) && Discovered(items)
    ensures var later := Reconciled(rows, items);
            && Extends(rows, later) && WellKept(later)
            && (forall i: nat :: ActiveFor(later, i, container) <==>
                  i < |later| && later[i].revision in LiveRevisions(items, container))
            && (ExactlyOneActive(later, container) <==> exists r :: LiveRevisions(items, container) == {r})
  {
    hide Reconciled, RevisionOf, FinalStatus, Discovered, LiveRevisions;
    ReconcileReaches(rows, items);
    var later, live := Reconciled(rows, items), LiveRevisions(items, container);
    forall i: nat | i < |later|
      ensures ActiveFor(later, i, container) <==> later[i].revision in live
    {
      assert Pinned(later[i]);
      FinalIsActive(later[i].revision, if i < |rows| then rows[i].status else Superseded, items);
    }
    forall r | r in live ensures ActiveFor(later, Position(later, r), container) {
      FinalIsActive(r, Superseded, items);
    }
    assert Mirrors(later, live, container);
    OneForOne(later, live, container);
  }

  ghost predicate Mirrors(rows: seq<Row>, live: set<Revision>, container: string) {
    && WellKept(rows)
    && (forall i: nat :: ActiveFor(rows, i, container) <==> i < |rows| && rows[i].revision in live)
    && (forall r :: r in live ==> ActiveFor(rows, Position(rows, r), container))
  }

  lemma OneForOne(rows: seq<Row>, live: set<Revision>, container: string)
    requires Mirrors(rows, live, container)
    ensures ExactlyOneActive(rows, container) <==> exists r :: live == {r}
  {
    hide ActiveFor, Mirrors;
    if i: nat :| ActiveFor(rows, i, container) && forall j: nat :: ActiveFor(rows, j, container) ==> j == i {
      OneActiveOneLive(rows, live, container, i);
    }
    if r :| live == {r} {
      OneLiveOneActive(rows, live, container, r);
    }
  }

  lemma OneActiveOneLive(rows: seq<Row>, live: set<Revision>, container: string, i: nat)
    requires Mirrors(rows, live, container)
    requires ActiveFor(rows, i, container) && forall j: nat :: ActiveFor(rows, j, container) ==> j == i
    ensures i < |rows| && live == {rows[i].revision}
  {
    hide ActiveFor, WellKept;
    forall r | r in live ensures r == rows[i].revision {
      assert ActiveFor(rows, Position(rows, r), container);
    }
  }

  lemma OneLiveOneActive(rows: seq<Row>, live: set<Revision>, container: string, r: Revision)
    requires Mirrors(rows, live, container) && live == {r}
    ensures ExactlyOneActive(rows, container)
  {
    hide ActiveFor, WellKept;
    assert r in live;
    var i := Position(rows, r);
    assert ActiveFor(rows, i, container);
    forall j: nat | ActiveFor(rows, j, container) ensures j == i {
      PositionIsUnique(rows, j);
    }
  }

  /** The last item for a container, if any. */
  function Newest(items: seq<Item>, container: string): Option<Revision> {
    if items == [] then None
    else if items[|items| - 1].container == container then Some(RevisionOf(items[|items| - 1]))
    else Newest(items[..|items| - 1], container)
  }

  lemma {:induction false} NamedContainerHasOneLive(items: seq<Item>, container: string)
    requires Discovered(items) && container != "unknown"
    ensures LiveRevisions(items, container) == if Newest(items, container).Some? then {Newest(items, container).value}
            else {}
  {
    hide RevisionOf;
    if items != [] {
      NamedContainerHasOneLive(items[..|items| - 1], container);
    }
  }

  /** For every container but "unknown", under which nameless rows are filed, the active candidate is
      that of its last row with an update: exactly one if there is such a row, none otherwise. */
  lemma OneActiveCandidate(rows: seq<Row>, snapshot: seq<Raw>, cx: Context, container: string)
    requires WellKept(rows) && container != "unknown"
    ensures var later, newest := Reconciled(rows, Items(snapshot, cx)), Newest(Items(snapshot, cx), container);
            && (forall i: nat :: ActiveFor(later, i, container) <==> i < |later| && newest == Some(later[i].revision))
            && (newest.Some? <==> ExactlyOneActive(later, container))
            && (newest.None? <==> forall i: nat :: !ActiveFor(later, i, container))
  {
    hide Reconciled, RevisionOf, Discovered, LiveRevisions, WellKept, Newest, Items, ActiveFor;
    ItemsAreDiscovered(snapshot, cx);
    ActiveExactlyLive(rows, Items(snapshot, cx), container);
    NamedContainerHasOneLive(Items(snapshot, cx), container);
  }

  /** Two nameless discovery rows with different digests both stay active, whatever the table held. */
  lemma NamelessRowsStayActive(rows: seq<Row>, a: Raw, b: Raw, cx: Context)
    requires WellKept(rows) && a.name == "" == b.name && a.available && b.available
    requires a.kind == "digest" == b.kind && a.tag == "" == b.tag
    requires a.digest != "" && b.digest != "" && a.digest != b.digest
    ensures var later := Reconciled(rows, Items([a, b], cx));
            && !ExactlyOneActive(later, "unknown")
            && exists i: nat, j: nat :: i < j && ActiveFor(later, i, "unknown") && ActiveFor(later, j, "unknown")
  {
    hide Reconciled, WellKept, Normalize, ActiveFor, LiveRevisions, ExactlyOneActive;
    var items := Items([a, b], cx);
    ItemsAreDiscovered([a, b], cx);
    ActiveExactlyLive(rows, items, "unknown");
    NamelessItem(a, cx);
    NamelessItem(b, cx);
    TwoItems(a, b, cx);
    TwoLive(Normalize(a, cx), Normalize(b, cx));
    var later := Reconciled(rows, items);
    var p, q := Position(later, RevisionOf(Normalize(a, cx))), Position(later, RevisionOf(Normalize(b, cx)));
    ReconcileReaches(rows, items);
    SeenPair(Normalize(a, cx), Normalize(b, cx));
    assert ActiveFor(later, p, "unknown") && ActiveFor(later, q, "unknown") && p != q;
    if p < q {
    } else {
      assert q < p;
    }
  }

  lemma NamelessItem(a: Raw, cx: Context)
    requires a.name == "" && a.kind == "digest" && a.tag == "" && a.digest != ""
    ensures var item := Normalize(a, cx); item.name == "" && item.container == "unknown" && item.candidate == a.digest
  {
    hide FromLabels, EffectiveGate, ChangeClass, EffectiveLabels, LabelOr, StateOf;
    assert "digest" != "tag" by { assert |"digest"| != |"tag"|; }
  }

  lemma TwoItems(a: Raw, b: Raw, cx: Context)
    requires a.available && b.available
    ensures Items([a, b], cx) == [Normalize(a, cx), Normalize(b, cx)]
  {
    hide Normalize;
    assert [a, b][..1] == [a] && [a][..0] == [];
    assert Items([a], cx) == Items([a][..0], cx) + [Normalize(a, cx)];
  }

  lemma TwoLive(a: Item, b: Item)
    requires a.name == "" == b.name && a.container == "unknown" == b.container
    ensures LiveRevisions([a, b], "unknown") == {RevisionOf(a), RevisionOf(b)}
  {
    hide RevisionOf;
    assert [a, b][..1] == [a] && [a][..0] == [];
    assert LiveRevisions([a], "unknown") == LiveRevisions([a][..0], "unknown") + {RevisionOf(a)};
  }

  lemma SeenPair(a: Item, b: Item)
    ensures RevisionOf(a) in Revisions([a, b]) && RevisionOf(b) in Revisions([a, b])
  {
    hide RevisionOf;
    assert [a, b][0] == a && [a, b][1] == b;
  }

  lemma PositionIsUnique(rows: seq<Row>, i: nat)
    requires WellKept(rows) && i < |rows|
    ensures Position(rows, rows[i].revision) == i
  {
  }

  /** Reconciling with the same snapshot again changes no status and adds no row. */
  lemma RepeatedScanIsStable(rows: seq<Row>, items: seq<Item>)
    requires WellKept(rows) && Discovered(items)
    ensures var once, twice := Reconciled(rows, items), Reconciled(Reconciled(rows, items), items);
            && |twice| == |once|
            && forall i :: 0 <= i < |once| ==>
               twice[i].revision == once[i].revision && twice[i].status == once[i].status
  {
    hide Reconciled, RevisionOf, FinalStatus, Discovered;
    ReconcileReaches(rows, items);
    var once := Reconciled(rows, items);
    ReconcileReaches(once, items);
    var twice := Reconciled(once, items);
    forall r | r in Revisions(items) ensures Position(twice, r) < |once| {
      assert twice[Position(once, r)].revision == r;
    }
    if |twice| > |once| {
      PositionIsUnique(twice, |once|);
    }
    forall i | 0 <= i < |once| ensures twice[i].status == once[i].status {
      FinalTwice(once[i].revision, if i < |rows| then rows[i].status else Superseded, items);
    }
  }

  lemma FinalTwice(r: Revision, before: Status, items: seq<Item>)
    requires Discovered(items)
    ensures FinalStatus(r, FinalStatus(r, before, items), items) == FinalStatus(r, before, items)
  {
    hide ImportedStatus, Discovered, LiveRevisions;
    if r in Revisions(items) {
      SeenStatus(r, before, items);
      SeenStatus(r, FinalStatus(r, before, items), items);
    } else {
      UnseenKeepsInactive(r, before, items);
      UnseenKeepsInactive(r, FinalStatus(r, before, items), items);
    }
  }

  // ---------------------------------------------------------------- the columns a scan leaves behind

  /** The row shows what discovery found. */
  predicate Shows(row: Row, item: Item) {
    && row.container == item.container && row.state == item.state && row.image == item.image
    && row.target == item.candidate && row.change == item.change && row.policy == item.policy && row.risk == item.risk
  }

  /** Item `k` is the last one with its revision. */
  ghost predicate LastOfRevision(items: seq<Item>, k: nat) {
    k < |items| && forall j :: k < j < |items| ==> RevisionOf(items[j]) != RevisionOf(items[k])
  }

  ghost predicate Unseen(r: Revision, items: seq<Item>) {
    forall j :: 0 <= j < |items| ==> RevisionOf(items[j]) != r
  }

  lemma StepColumns(rows: seq<Row>, item: Item)
    requires WellKept(rows)
    ensures var later, p := Step(rows, item), Position(rows, RevisionOf(item));
            && p < |later| && Shows(later[p], item) && later[p].revision == RevisionOf(item)
            && |rows| <= |later|
            && (forall i :: 0 <= i < |rows| && i != p ==> later[i] == rows[i].(status := later[i].status))
  {
  }

  lemma {:induction false} ImportedColumns(rows: seq<Row>, items: seq<Item>, k: nat)
    requires WellKept(rows) && LastOfRevision(items, k)
    ensures var later, p := Imported(rows, items), Position(Imported(rows, items), RevisionOf(items[k]));
            p < |later| && Shows(later[p], items[k])
  {
    hide Step, RevisionOf, Shows;
    var rest, last := items[..|items| - 1], items[|items| - 1];
    var mid, later := Imported(rows, rest), Imported(rows, items);
    ImportKeeps(rows, rest);
    ImportKeeps(rows, items);
    StepColumns(mid, last);
    if k == |items| - 1 {
      PositionIsUnique(later, Position(mid, RevisionOf(last)));
    } else {
      ImportedColumns(rows, rest, k);
      var p := Position(mid, RevisionOf(items[k]));
      assert later[p] == mid[p].(status := later[p].status);
      SameShown(mid[p], later[p], items[k]);
      PositionIsUnique(later, p);
    }
  }

  lemma SameShown(a: Row, b: Row, item: Item)
    requires b == a.(status := b.status) && Shows(a, item)
    ensures Shows(b, item)
  {
  }

  lemma {:induction false} UnseenColumns(rows: seq<Row>, items: seq<Item>, i: nat)
    requires WellKept(rows) && i < |rows| && forall j :: 0 <= j < |items| ==> RevisionOf(items[j]) != rows[i].revision
    ensures var later := Imported(rows, items); i < |later| && later[i] == rows[i].(status := later[i].status)
  {
    hide Step, RevisionOf;
    if items != [] {
      var rest := items[..|items| - 1];
      UnseenColumns(rows, rest, i);
      ImportKeeps(rows, rest);
      StepColumns(Imported(rows, rest), items[|items| - 1]);
    }
  }

  /** What a reconciliation writes besides the status: the row of every revision it saw shows the last
      item with that revision, column by column, and every other row keeps its columns. */
  lemma ColumnsAreTheLastItems(rows: seq<Row>, items: seq<Item>)
    requires WellKept(rows)
    ensures var later := Reconciled(rows, items);
            && (forall k: nat :: LastOfRevision(items, k) ==>
                  var p := Position(later, RevisionOf(items[k])); p < |later| && Shows(later[p], items[k]))
            && |rows| <= |later|
            && (forall i :: 0 <= i < |rows| && Unseen(rows[i].revision, items) ==>
                  later[i] == rows[i].(status := later[i].status))
  {
    hide RevisionOf, Shows, Imported, LastOfRevision;
    var mid, later := Imported(rows, items), Reconciled(rows, items);
    ImportKeeps(rows, items);
    ResolveKeeps(mid, Revisions(items));
    forall k: nat | LastOfRevision(items, k)
      ensures k < |items|
      ensures var p := Position(later, RevisionOf(items[k])); p < |later| && Shows(later[p], items[k])
    {
      LastIsThere(items, k);
      ImportedColumns(rows, items, k);
      var p := Position(mid, RevisionOf(items[k]));
      SameShown(mid[p], later[p], items[k]);
      PositionIsUnique(later, p);
    }
    forall i | 0 <= i < |rows| && Unseen(rows[i].revision, items)
      ensures later[i] == rows[i].(status := later[i].status)
    {
      UnseenColumns(rows, items, i);
    }
  }

  lemma LastIsThere(items: seq<Item>, k: nat)
    requires LastOfRevision(items, k)
    ensures k < |items|
  {
  }

  lemma {:induction false} ItemsAreNormalized(snapshot: seq<Raw>, cx: Context, k: nat) returns (i: nat)
    requires k < |Items(snapshot, cx)|
    ensures i < |snapshot| && snapshot[i].available && Items(snapshot, cx)[k] == Normalize(snapshot[i], cx)
  {
    hide Normalize;
    var rest := snapshot[..|snapshot| - 1];
    if k < |Items(rest, cx)| {
      i := ItemsAreNormalized(rest, cx, k);
    } else {
      i := |snapshot| - 1;
    }
  }

  /** The last item of a container leaves its row live. */
  lemma {:induction false} LastItemIsLive(items: seq<Item>, k: nat)
    requires k < |items| && forall j :: k < j < |items| ==> items[j].container != items[k].container
    ensures RevisionOf(items[k]) in LiveRevisions(items, items[k].container)
    ensures LastOfRevision(items, k)
  {
    if k < |items| - 1 {
      LastItemIsLive(items[..|items| - 1], k);
    }
  }
}
