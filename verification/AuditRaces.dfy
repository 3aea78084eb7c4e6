/** Several processes appending to one audit log: `append_audit` of src/unraid_updater/evidence.py reads
    the last hash and then writes its line, and nothing keeps others out in between. */
module AuditRaces {
  import opened Strings
  import opened Evidence

  type Writer = nat

  /** The two accesses to the file: reading the last hash for a record, and writing that record. */
  datatype Event = Look(writer: Writer, value: Record) | Write(writer: Writer)

  datatype Draft = Draft(value: Record, previous: string)

  datatype State = State(log: seq<Record>, drafts: map<Writer, Draft>)

  function Apply(c: Codec, s: State, e: Event): State {
    match e
    case Look(w, value) => s.(drafts := s.drafts[w := Draft(value, FinalHash(c, s.log))])
    case Write(w) =>
      if w !in s.drafts then s
      else State(s.log + [RedactRecord(NewRecord(c, s.drafts[w].previous, s.drafts[w].value))], s.drafts - {w})
  }

  /** The file and the drafts after the first `n` events. */
  function After(c: Codec, log: seq<Record>, run: seq<Event>, n: nat): State
    requires n <= |run|
  {
    if n == 0 then State(log, map[]) else Apply(c, After(c, log, run, n - 1), run[n - 1])
  }

  /** Where the record that `w` would write after `n` events was prepared. */
  function LookOf(run: seq<Event>, n: nat, w: Writer): (m: Option<nat>)
    requires n <= |run|
    ensures m.Some? ==> m.value < n && run[m.value].Look? && run[m.value].writer == w
  {
    if n == 0 then None
    else if run[n - 1].writer == w then if run[n - 1].Look? then Some(n - 1) else None
    else LookOf(run, n - 1, w)
  }

  /** Event `n` adds a line to the file. */
  predicate Lands(run: seq<Event>, n: nat) {
    n < |run| && run[n].Write? && LookOf(run, n, run[n].writer).Some?
  }

  /** Line `n` is written with no other line since its last hash was read, and its record brings no
      `event_hash` of its own. */
  predicate LandsWell(run: seq<Event>, n: nat)
    requires Lands(run, n)
  {
    var m := LookOf(run, n, run[n].writer).value;
    EVENT_HASH !in run[m].value && forall k :: m < k < n ==> !Lands(run, k)
  }

  /** An append that nobody interrupts is the one of `Evidence`. */
  lemma AloneIsAppended(c: Codec, log: seq<Record>, w: Writer, value: Record)
    ensures After(c, log, [Look(w, value), Write(w)], 2).log == Appended(c, log, value)
  {
    hide NewRecord, RedactRecord, FinalHash;
    var run := [Look(w, value), Write(w)];
    assert After(c, log, run, 0).log == log;
    assert After(c, log, run, 1) == State(log, map[w := Draft(value, FinalHash(c, log))]);
  }

  /** A draft holds the last hash of the file as it was when the draft was prepared. */
  lemma {:induction false} DraftsAreLooks(c: Codec, log: seq<Record>, run: seq<Event>, n: nat, w: Writer)
    requires n <= |run|
    ensures var s, m := After(c, log, run, n), LookOf(run, n, w);
            && (w in s.drafts <==> m.Some?)
            && (m.Some? ==> s.drafts[w] == Draft(run[m.value].value, FinalHash(c, After(c, log, run, m.value).log)))
  {
    hide NewRecord, RedactRecord, FinalHash;
    if n > 0 {
      DraftsAreLooks(c, log, run, n - 1, w);
    }
  }

  /** The file only grows, and by a line exactly where one lands. */
  lemma {:induction false} FileGrows(c: Codec, log: seq<Record>, run: seq<Event>, m: nat, n: nat)
    requires m <= n <= |run|
    ensures After(c, log, run, m).log <= After(c, log, run, n).log
    ensures After(c, log, run, m).log == After(c, log, run, n).log <==> forall k :: m <= k < n ==> !Lands(run, k)
  {
    hide NewRecord, RedactRecord, FinalHash, LookOf;
    if m < n {
      FileGrows(c, log, run, m, n - 1);
      DraftsAreLooks(c, log, run, n - 1, run[n - 1].writer);
      var last, now := After(c, log, run, n - 1).log, After(c, log, run, n).log;
      assert if Lands(run, n - 1) then |now| == |last| + 1 && last <= now else now == last;
    }
  }

  /** A record written after the file has changed breaks the chain. */
  lemma LateRecord(c: Codec, log: seq<Record>, previous: string, value: Record)
    requires CollisionFree(c) && Verifies(c, log)
    ensures Verifies(c, log + [RedactRecord(NewRecord(c, previous, value))]) <==>
            previous == FinalHash(c, log) && EVENT_HASH !in value
  {
    hide CollisionFree, RedactRecord, FinalHash;
    AppendVerifiesExactlyWhen(c, log, value);
    var r := RedactRecord(NewRecord(c, previous, value));
    var after := log + [r];
    assert after[..|after| - 1] == log && after[|after| - 1] == r;
    PreviousIsKept(c, previous, value);
  }

  lemma PreviousIsKept(c: Codec, previous: string, value: Record)
    ensures var r := RedactRecord(NewRecord(c, previous, value));
            PREV_HASH in r && r[PREV_HASH] == Text(previous)
  {
    hide RedactRecord, IsSecret;
    LinkKeysArePublic();
    assert EVENT_HASH != PREV_HASH by { assert |EVENT_HASH| != |PREV_HASH|; }
    RedactedTextStays(NewRecord(c, previous, value), PREV_HASH, previous);
  }

  /** Over all interleavings: a log that verified still verifies if and only if every line was written
      with no other line since its last hash was read, and no record brought its own `event_hash`. */
  lemma {:induction false} VerifiesExactlyWhen(c: Codec, log: seq<Record>, run: seq<Event>, n: nat)
    requires CollisionFree(c) && Verifies(c, log) && n <= |run|
    ensures Verifies(c, After(c, log, run, n).log) <==>
            forall k :: 0 <= k < n && Lands(run, k) ==> LandsWell(run, k)
  {
    hide CollisionFree, Verifies, LookOf, NewRecord, RedactRecord, FinalHash;
    if n > 0 {
      VerifiesExactlyWhen(c, log, run, n - 1);
      LineVerifiesExactlyWhen(c, log, run, n - 1);
    }
  }

  lemma LineVerifiesExactlyWhen(c: Codec, log: seq<Record>, run: seq<Event>, n: nat)
    requires CollisionFree(c) && n < |run|
    ensures Verifies(c, After(c, log, run, n + 1).log) <==>
            Verifies(c, After(c, log, run, n).log) && (Lands(run, n) ==> LandsWell(run, n))
  {
    hide CollisionFree, NewRecord, RedactRecord, FinalHash, LookOf;
    var w := run[n].writer;
    DraftsAreLooks(c, log, run, n, w);
    if Lands(run, n) {
      var m := LookOf(run, n, w).value;
      var earlier, now := After(c, log, run, m).log, After(c, log, run, n).log;
      var r := RedactRecord(NewRecord(c, FinalHash(c, earlier), run[m].value));
      assert After(c, log, run, n + 1).log == now + [r];
      assert (now + [r])[..|now + [r]| - 1] == now;
      FileGrows(c, log, run, m, n);
      if Verifies(c, now) {
        LateRecord(c, now, FinalHash(c, earlier), run[m].value);
        PrefixVerifies(c, now, |earlier|);
        assert now[..|earlier|] == earlier;
        if FinalHash(c, earlier) == FinalHash(c, now) {
          SameHashSameLog(c, earlier, now);
          SameLength(earlier, now);
        }
      }
    }
  }

  lemma SameLength(a: seq<Record>, b: seq<Record>)
    requires a <= b && SameRedactions(a, b)
    ensures a == b
  {
  }
}
