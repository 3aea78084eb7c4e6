/** The lifecycle tables for candidates and executions
    (src/unraid_updater/domain/state_machine.py). */
module Lifecycle {
  import opened Strings

  datatype ExecutionState =
    | Queued | Claimed | Preflight | BackupPrepared | MutationStarted | Verifying | Succeeded
    | RollbackStarted | RolledBack | Blocked | Failed | NeedsAttention

  datatype CandidateStatus =
    | Discovered | Soaking | ApprovalReady | Approved | CandidateQueued | PreflightBlocked | Deferred
    | ManualReview | Pinned | Unresolved | Unclassified | Superseded | Revoked | Expired

  function ExecutionTargets(s: ExecutionState): set<ExecutionState> {
    match s
    case Queued => {Claimed, Blocked}
    case Claimed => {Preflight, Blocked, Failed}
    case Preflight => {BackupPrepared, Blocked, Failed}
    case BackupPrepared => {MutationStarted, Failed}
    case MutationStarted => {Verifying, RollbackStarted, Failed}
    case Verifying => {Succeeded, RollbackStarted, Failed}
    case RollbackStarted => {RolledBack, NeedsAttention}
    case _ => {}
  }

  function CandidateTargets(s: CandidateStatus): set<CandidateStatus> {
    match s
    case Discovered => {Soaking, ApprovalReady, ManualReview, Pinned, Unresolved, Unclassified}
    case Soaking => {ApprovalReady, ManualReview, Superseded}
    case ApprovalReady => {Approved, Deferred, ManualReview, Superseded}
    case Approved => {CandidateQueued, Revoked, Expired, PreflightBlocked, Superseded}
    case Deferred => {ApprovalReady, Superseded}
    case _ => {}
  }

  predicate Terminal(s: ExecutionState) {
    s in {Succeeded, RolledBack, Blocked, Failed, NeedsAttention}
  }

  /** `transition`: the target, or `None` for an invalid transition. */
  function Transition<T>(target: T, allowed: set<T>): Option<T> {
    if target in allowed then Some(target) else None
  }

  // ---------------------------------------------------------------- execution runs

  ghost predicate ExecutionRun(run: seq<ExecutionState>) {
    forall i :: 0 < i < |run| ==> Transition(run[i], ExecutionTargets(run[i - 1])) == Some(run[i])
  }

  ghost predicate CandidateRun(run: seq<CandidateStatus>) {
    forall i :: 0 < i < |run| ==> Transition(run[i], CandidateTargets(run[i - 1])) == Some(run[i])
  }

  function Rank(s: ExecutionState): nat {
    match s
    case Queued => 7
    case Claimed => 6
    case Preflight => 5
    case BackupPrepared => 4
    case MutationStarted => 3
    case Verifying => 2
    case RollbackStarted => 1
    case _ => 0
  }

  lemma {:induction false} RanksFall(run: seq<ExecutionState>, i: nat, j: nat)
    requires ExecutionRun(run) && i <= j < |run|
    ensures Rank(run[j]) + (j - i) <= Rank(run[i])
    decreases j
  {
    if i < j {
      RanksFall(run, i, j - 1);
    }
  }

  /** What must have come before the state at position `j`: the backup before any mutation, the
      mutation before verification and rollback, verification before success. */
  ghost predicate Reached(run: seq<ExecutionState>, j: nat)
    requires j < |run|
  {
    && (run[j] == MutationStarted ==> exists i :: 0 <= i < j && run[i] == BackupPrepared)
    && (run[j] == Succeeded ==> exists i :: 0 <= i < j && run[i] == Verifying)
    && (run[j] in {Verifying, RollbackStarted, RolledBack, Succeeded} ==>
        exists i :: 0 <= i < j && run[i] == MutationStarted)
  }

  /** Every execution run makes at most seven transitions, never repeats a state, stops exactly at
      terminal states, prepares the backup before any mutation, and verifies before it succeeds. */
  lemma ExecutionsAreOrderly(run: seq<ExecutionState>)
    requires ExecutionRun(run) && |run| > 0 && run[0] == Queued
    ensures |run| <= 8
    ensures forall i, j :: 0 <= i < j < |run| ==> run[i] != run[j]
    ensures forall i :: 0 <= i < |run| ==> (Terminal(run[i]) <==> ExecutionTargets(run[i]) == {})
    ensures forall j :: 0 <= j < |run| ==> Reached(run, j)
  {
    RanksFall(run, 0, |run| - 1);
    forall i, j | 0 <= i < j < |run| ensures run[i] != run[j] {
      RanksFall(run, i, j);
    }
    forall j | 0 <= j < |run| ensures Reached(run, j) {
      PathTo(run, j);
    }
  }

  lemma {:induction false} PathTo(run: seq<ExecutionState>, j: nat)
    requires ExecutionRun(run) && j < |run| && run[0] == Queued
    ensures Reached(run, j)
  {
    if j > 0 {
      PathTo(run, j - 1);
      assert run[j] in ExecutionTargets(run[j - 1]);
      assert run[j - 1] == MutationStarted || Reached(run, j - 1);
      if run[j - 1] in {Verifying, RollbackStarted} {
        var i :| 0 <= i < j - 1 && run[i] == MutationStarted;
        assert 0 <= i < j;
      }
    }
  }

  // ---------------------------------------------------------------- candidate runs

  /** Nothing follows an approved candidate's outcome. */
  lemma {:induction false} AfterApproval(run: seq<CandidateStatus>, i: nat, j: nat)
    requires CandidateRun(run) && i < j < |run| && run[i] == Approved
    ensures j == i + 1 && CandidateTargets(run[j]) == {}
    decreases j
  {
    assert Transition(run[j], CandidateTargets(run[j - 1])) == Some(run[j]);
    if j > i + 1 {
      AfterApproval(run, i, j - 1);
    }
  }

  /** A candidate run, however long it cycles, enters `approved` at most once, only from
      `approval_ready`, and takes at most one step afterwards. */
  lemma ApprovedOnce(run: seq<CandidateStatus>, j: nat)
    requires CandidateRun(run) && j < |run| && run[j] == Approved
    ensures j > 0 ==> run[j - 1] == ApprovalReady
    ensures |run| <= j + 2
    ensures forall i :: 0 <= i < |run| && run[i] == Approved ==> i == j
  {
    if |run| > j + 1 {
      AfterApproval(run, j, |run| - 1);
    }
    forall i | 0 <= i < |run| && run[i] == Approved ensures i == j {
      if i < j {
        AfterApproval(run, i, j);
      } else if j < i {
        AfterApproval(run, j, i);
      }
    }
  }

  // ---------------------------------------------------------------- decisions

  datatype Decision = Approve | Defer | Revoke | Review

  /** The last approve or defer after the last revoke, found by searching from the end. */
  function ActiveDecision(ds: seq<Decision>): Option<Decision> {
    if ds == [] then None
    else
      match ds[|ds| - 1]
      case Revoke => None
      case Review => ActiveDecision(ds[..|ds| - 1])
      case d => Some(d)
  }

  method ActiveApprovalDecision(ds: seq<Decision>) returns (latest: Option<Decision>)
    ensures latest == ActiveDecision(ds)
  {
    latest := None;
    for i := 0 to |ds|
      invariant latest == ActiveDecision(ds[..i])
    {
      assert ds[..i + 1][..i] == ds[..i];
      if ds[i] == Revoke {
        latest := None;
      } else if ds[i] in {Approve, Defer} {
        latest := Some(ds[i]);
      }
    }
    assert ds[..|ds|] == ds;
  }

  /** The active decision is one that was made and neither revoked nor replaced since. */
  lemma {:induction false} ActiveDecisionStands(ds: seq<Decision>, d: Decision)
    ensures ActiveDecision(ds) == Some(d) <==>
            d in {Approve, Defer} && exists i :: 0 <= i < |ds| && ds[i] == d && forall j :: i < j < |ds| ==>
              ds[j] == Review
  {
    if ds != [] {
      var rest := ds[..|ds| - 1];
      ActiveDecisionStands(rest, d);
      if ds[|ds| - 1] == Review {
        if ActiveDecision(rest) == Some(d) {
          var i :| 0 <= i < |rest| && rest[i] == d && forall j :: i < j < |rest| ==> rest[j] == Review;
          assert ds[i] == d && forall j :: i < j < |ds| ==> ds[j] == Review;
        }
        if d in {Approve, Defer} && exists i :: 0 <= i < |ds| && ds[i] == d && forall j :: i < j < |ds| ==>
          ds[j] == Review {
          var i :| 0 <= i < |ds| && ds[i] == d && forall j :: i < j < |ds| ==> ds[j] == Review;
          assert rest[i] == d && forall j :: i < j < |rest| ==> rest[j] == Review;
        }
      } else if ds[|ds| - 1] == d && d != Revoke {
        assert ds[|ds| - 1] == d;
      }
    }
  }

  // ---------------------------------------------------------------- from where a state is reached

  /** The states of an execution by their predecessors: nothing is blocked once a backup is prepared, only
      what has mutated is rolled back, only what has verified succeeds, and only a rollback ends rolled back
      or in need of attention. */
  lemma ExecutionReachedFrom(s: ExecutionState, t: ExecutionState)
    ensures Transition(t, ExecutionTargets(s)) == Some(t) <==>
            match t
            case Queued => false
            case Claimed => s == Queued
            case Preflight => s == Claimed
            case BackupPrepared => s == Preflight
            case MutationStarted => s == BackupPrepared
            case Verifying => s == MutationStarted
            case Succeeded => s == Verifying
            case RollbackStarted => s in {MutationStarted, Verifying}
            case RolledBack => s == RollbackStarted
            case NeedsAttention => s == RollbackStarted
            case Blocked => s in {Queued, Claimed, Preflight}
            case Failed => s in {Claimed, Preflight, BackupPrepared, MutationStarted, Verifying}
  {
  }

  /** The states of a candidate by their predecessors. */
  lemma CandidateReachedFrom(s: CandidateStatus, t: CandidateStatus)
    ensures Transition(t, CandidateTargets(s)) == Some(t) <==>
            match t
            case Discovered => false
            case Soaking => s == Discovered
            case ApprovalReady => s in {Discovered, Soaking, Deferred}
            case Approved => s == ApprovalReady
            case CandidateQueued => s == Approved
            case PreflightBlocked => s == Approved
            case Deferred => s == ApprovalReady
            case ManualReview => s in {Discovered, Soaking, ApprovalReady}
            case Superseded => s in {Soaking, ApprovalReady, Approved, Deferred}
            case Revoked => s == Approved
            case Expired => s == Approved
            case _ => s == Discovered
  {
  }
}
