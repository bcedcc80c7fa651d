/**
  What holds over whole runs of the scan protocol however late its processes are: the dispatch
  only moves forward, and a holder whose claim was taken over never gets it back.
 */
module ScanHistory {
  import opened Options
  import opened ScanRows
  import opened ScanProtocol
  import opened ScanInvariant

  // ----- one step, seen from one row -----

  datatype Change =
    | Untouched | Leasing(lease: Option<Lease>) | Claiming(w: Worker) | Renewing(w: Worker) | Opening(version: nat)
    | Committing(version: nat, found: nat) | Ending(outcome: Outcome) | Closing(w: Worker, outcome: Outcome)
    | Cancelling | Reconciling

  function Changed(cfg: Config, now: int, row: Row, c: Change): Row {
    match c
    case Untouched => row
    case Leasing(lease) => row.(lease := lease)
    case Claiming(w) => if Claimable(row.dispatch, now) then ClaimRow(row, w, now, Ttl(cfg)).value else row
    case Renewing(w) =>
      if HoldsLease(row.lease, w, now) && HoldsClaim(row.dispatch, w, now) then RenewRow(row, w, now, Ttl(cfg)).value else row
    case Opening(version) => OpenStore(row, version)
    case Committing(version, found) => CommitStore(row, version, found)
    case Ending(outcome) => FinishRow(row, outcome)
    case Closing(w, outcome) => FinalizeRow(row, w, outcome)
    case Cancelling => CancelRow(row, now)
    case Reconciling => ReconcileRow(row, now, cfg.timeout)
  }

  /** The process whose step this is, if the step belongs to one that has a job. */
  function Actor(step: Step): Option<Worker> {
    match step
    case Acquire(w) => Some(w)
    case Claim(w) => Some(w)
    case Renew(w) => Some(w)
    case Open(w) => Some(w)
    case Commit(w, _) => Some(w)
    case Finish(w) => Some(w)
    case Finalize(w) => Some(w)
    case Release(w) => Some(w)
    case _ => None
  }

  function Concerns(s: State, step: Step, j: nat): bool {
    match Actor(step)
    case Some(w) => w in s.procs && s.procs[w].job == j
    case None => true
  }

  function ChangeOf(cfg: Config, s: State, step: Step, j: nat): Change
    requires Enabled(cfg, s, step) && j in s.table
  {
    if !Concerns(s, step, j) then Untouched
    else
      match step
      case Acquire(w) => (match AcquireRow(s.table[j], w, s.clock, Ttl(cfg), cfg.evicts)
                          case None => Leasing(ReleaseRow(s.table[j], w).lease)
                          case Some(row) => Leasing(row.lease))
      case Claim(w) => if Claimable(s.table[j].dispatch, s.clock) then Claiming(w) else Leasing(ReleaseRow(s.table[j], w).lease)
      case Renew(w) => Renewing(w)
      case Open(w) => Opening(s.procs[w].version)
      case Commit(w, found) => Committing(s.procs[w].version, found)
      case Finish(w) => Ending(s.procs[w].phase.outcome)
      case Finalize(w) => Closing(w, s.procs[w].phase.outcome)
      case Release(w) => Leasing(ReleaseRow(s.table[j], w).lease)
      case Cancel(job, _) => if job == j then Cancelling else Untouched
      case Reconcile => Reconciling
      case ExpireLeases(cutoff) => Leasing(ExpireRow(s.table[j], cutoff).lease)
      case _ => Untouched
  }

  /** Every step changes every row by at most one of the transactions. */
  lemma StepChanges(cfg: Config, s: State, step: Step, j: nat)
    requires j < s.nextJob && Enabled(cfg, s, step) && j in s.table
    ensures j in Apply(cfg, s, step).table
    ensures Apply(cfg, s, step).table[j] == Changed(cfg, s.clock, s.table[j], ChangeOf(cfg, s, step, j))
  {
    hide ChangeOf, Apply, Enabled, Changed;
    if Actor(step).Some? { ActorChanges(cfg, s, step, j); } else { OtherChanges(cfg, s, step, j); }
  }

  lemma WhichStep(cfg: Config, s: State, step: Step, j: nat)
    requires Enabled(cfg, s, step) && j in s.table
    ensures ChangeOf(cfg, s, step, j).Committing? <==> Concerns(s, step, j) && step.Commit?
    ensures ChangeOf(cfg, s, step, j).Claiming? <==> Concerns(s, step, j) && step.Claim? && Claimable(s.table[j].dispatch, s.clock)
  {
    hide Occupied, Claimable, AcquireRow, ReleaseRow, ExpireRow;
  }

  lemma ActorChanges(cfg: Config, s: State, step: Step, j: nat)
    requires Enabled(cfg, s, step) && j in s.table && Actor(step).Some?
    ensures j in Apply(cfg, s, step).table
    ensures Apply(cfg, s, step).table[j] == Changed(cfg, s.clock, s.table[j], ChangeOf(cfg, s, step, j))
  {
    hide Occupied, Claimable, HoldsLease, HoldsClaim, FinalizeRow, FinishRow, CommitStore;
  }

  lemma OtherChanges(cfg: Config, s: State, step: Step, j: nat)
    requires j < s.nextJob && Enabled(cfg, s, step) && j in s.table && Actor(step).None?
    ensures j in Apply(cfg, s, step).table
    ensures Apply(cfg, s, step).table[j] == Changed(cfg, s.clock, s.table[j], ChangeOf(cfg, s, step, j))
  {
    hide Occupied, CancelRow, ReconcileRow;
  }

  // ----- forward only -----

  function Rank(state: DispatchState): nat {
    match state
    case Waiting => 0
    case Claimed => 1
    case CancelRequested => 2
    case Closed(_) => 3
  }

  /** A job cancelled before anyone claimed it. */
  predicate Withdrawn(row: Row) { row.dispatch.state.Closed? && row.claimants == [] }

  /** row' is a later version of row. */
  ghost predicate Onward(row: Row, row': Row) {
    && Rank(row.dispatch.state) <= Rank(row'.dispatch.state)
    && (row.dispatch.state.Closed? ==> row'.dispatch == row.dispatch)
    && row.claimants <= row'.claimants
    && (Withdrawn(row) ==> Withdrawn(row') && row'.job == row.job && row'.assets == row.assets)
    && row.assets <= row'.assets && row.stores <= row'.stores && row.job.resultVersion <= row'.job.resultVersion
  }

  /** A result is stored by somebody who claimed the dispatch, at its only version. */
  ghost predicate Grounded(row: Row, c: Change) {
    c.Committing? ==> c.version == 1 && row.claimants != []
  }

  lemma ChangeGrounded(cfg: Config, s: State, step: Step, j: nat)
    requires Inv(cfg, s) && Enabled(cfg, s, step) && j in s.table
    ensures Grounded(s.table[j], ChangeOf(cfg, s, step, j))
  {
    hide RowOk, NoRepeats, Occupied;
  }

  lemma ChangeOnward(cfg: Config, clock: int, nextWorker: Worker, row: Row, c: Change)
    requires RowOk(cfg, clock, nextWorker, row) && Grounded(row, c)
    ensures Onward(row, Changed(cfg, clock, row, c))
  {
    hide NoRepeats;
  }

  lemma StepOnward(cfg: Config, s: State, step: Step, j: nat)
    requires Inv(cfg, s) && Enabled(cfg, s, step) && j in s.table
    ensures j in Apply(cfg, s, step).table && Onward(s.table[j], Apply(cfg, s, step).table[j])
  {
    StepChanges(cfg, s, step, j);
    ChangeGrounded(cfg, s, step, j);
    ChangeOnward(cfg, s.clock, s.nextWorker, s.table[j], ChangeOf(cfg, s, step, j));
  }

  /**
    On every run the dispatch state only moves forward; a closed dispatch never changes again, and
    a job withdrawn while queued keeps its terminal status for ever.
   */
  lemma {:induction false} OnlyForward(cfg: Config, run: seq<State>, steps: seq<Step>, i: nat, k: nat, j: nat)
    requires ValidConfig(cfg) && IsRun(cfg, run, steps) && i <= k < |run| && j in run[i].table
    ensures j in run[k].table && Onward(run[i].table[j], run[k].table[j])
    decreases k
  {
    hide Inv;
    if i < k {
      OnlyForward(cfg, run, steps, i, k - 1, j);
      RunKeeps(cfg, run, steps, k - 1);
      assert Follows(cfg, run[k - 1], steps[k - 1], run[k - 1 + 1]);
      StepOnward(cfg, run[k - 1], steps[k - 1], j);
    }
  }

  /** A closed dispatch has no owner and its job has ended, now and in every later state. */
  lemma ClosedForGood(cfg: Config, run: seq<State>, steps: seq<Step>, i: nat, k: nat, j: nat)
    requires ValidConfig(cfg) && IsRun(cfg, run, steps) && i <= k < |run|
    requires j in run[i].table && run[i].table[j].dispatch.state.Closed?
    ensures j in run[k].table && run[k].table[j].dispatch == run[i].table[j].dispatch
    ensures run[k].table[j].dispatch.claimedBy.None? && run[k].table[j].job.status.Ended?
  {
    OnlyForward(cfg, run, steps, i, k, j);
    RunKeeps(cfg, run, steps, k);
  }

  /** Cancelled while queued: never running, never completed, no assets. */
  lemma WithdrawnForGood(cfg: Config, run: seq<State>, steps: seq<Step>, i: nat, k: nat, j: nat)
    requires ValidConfig(cfg) && IsRun(cfg, run, steps) && i < k < |run|
    requires j in run[i].table && Dispatchable(run[i].table[j].job.status)
    requires exists replica :: steps[i] == Cancel(j, replica)
    ensures j in run[k].table && run[k].table[j].job.status == Ended(Cancelled) && run[k].table[j].assets == 0
  {
    RunKeeps(cfg, run, steps, i);
    assert Follows(cfg, run[i], steps[i], run[i + 1]);
    var row := run[i].table[j];
    assert RowOk(cfg, run[i].clock, run[i].nextWorker, row);
    assert run[i + 1].table[j] == CancelRow(row, run[i].clock);
    OnlyForward(cfg, run, steps, i + 1, k, j);
  }

  // ----- losing a claim -----

  /** w claimed the dispatch once and does not own it any more. */
  predicate Superseded(row: Row, w: Worker) {
    w in row.claimants && row.dispatch.claimedBy != Some(w)
  }

  lemma SupersededChange(cfg: Config, now: int, row: Row, c: Change, w: Worker)
    requires Superseded(row, w) && c != Claiming(w)
    ensures Superseded(Changed(cfg, now, row, c), w)
  {
  }

  /** Nobody claims the same dispatch twice. */
  lemma ClaimsOnce(cfg: Config, s: State, step: Step, j: nat, w: Worker)
    requires Inv(cfg, s) && Enabled(cfg, s, step) && j in s.table && w in s.table[j].claimants
    ensures ChangeOf(cfg, s, step, j) != Claiming(w)
  {
    hide RowOk, NoRepeats, Occupied;
  }

  lemma StepSuperseded(cfg: Config, s: State, step: Step, j: nat, w: Worker)
    requires Inv(cfg, s) && Enabled(cfg, s, step) && j in s.table && Superseded(s.table[j], w)
    ensures j in Apply(cfg, s, step).table && Superseded(Apply(cfg, s, step).table[j], w)
  {
    StepChanges(cfg, s, step, j);
    ClaimsOnce(cfg, s, step, j, w);
    SupersededChange(cfg, s.clock, s.table[j], ChangeOf(cfg, s, step, j), w);
  }

  /** Once superseded, a worker's renewals fail and its finalising changes nothing, for ever. */
  lemma {:induction false} SupersededForGood(cfg: Config, run: seq<State>, steps: seq<Step>, i: nat, k: nat, j: nat, w: Worker)
    requires ValidConfig(cfg) && IsRun(cfg, run, steps) && i <= k < |run|
    requires j in run[i].table && Superseded(run[i].table[j], w)
    ensures j in run[k].table && Superseded(run[k].table[j], w)
    ensures forall now, ttl :: RenewRow(run[k].table[j], w, now, ttl).None?
    ensures forall outcome :: FinalizeRow(run[k].table[j], w, outcome) == run[k].table[j]
    decreases k
  {
    hide Inv, Apply;
    if i < k {
      SupersededForGood(cfg, run, steps, i, k - 1, j, w);
      RunKeeps(cfg, run, steps, k - 1);
      assert Follows(cfg, run[k - 1], steps[k - 1], run[k - 1 + 1]);
      StepSuperseded(cfg, run[k - 1], steps[k - 1], j, w);
    }
  }

  /**
    A dispatch changes hands only strictly after the last expiry granted to its holder, which is
    the time to live counted from the holder's last heartbeat; from then on it is superseded.
   */
  lemma TakeoverIsLate(cfg: Config, s: State, w: Worker)
    requires Inv(cfg, s) && Enabled(cfg, s, Claim(w))
    requires RowOf(s, w).claimants != [] && Claimable(RowOf(s, w).dispatch, s.clock)
    ensures var row := RowOf(s, w);
      var holder := row.claimants[|row.claimants| - 1];
      && holder != w && row.dispatch.claimedBy == Some(holder)
      && row.dispatch.claimExpiresAt.value == row.dispatch.heartbeatAt.value + Ttl(cfg) < s.clock
      && (holder in s.procs && s.procs[holder].job == s.procs[w].job ==> s.procs[holder].beat + Ttl(cfg) < s.clock)
      && Superseded(RowOf(Apply(cfg, s, Claim(w)), w), holder)
  {
    hide NoRepeats;
    var row := RowOf(s, w);
    var holder := row.claimants[|row.claimants| - 1];
    assert holder in row.claimants;
    assert RowOk(cfg, s.clock, s.nextWorker, row);
  }

  /** One replica works on one scan at a time. */
  lemma OneScanPerReplica(cfg: Config, run: seq<State>, steps: seq<Step>, i: nat, w: Worker, x: Worker)
    requires ValidConfig(cfg) && IsRun(cfg, run, steps) && i < |run|
    requires w in run[i].procs && x in run[i].procs && run[i].procs[w].replica == run[i].procs[x].replica
    requires HoldsSlot(run[i].procs[w].phase) && HoldsSlot(run[i].procs[x].phase)
    ensures w == x
  {
    RunKeeps(cfg, run, steps, i);
  }

  /** No job is completed without a stored result, and once there is one the version guard refuses the next. */
  lemma CompletedHasResult(cfg: Config, run: seq<State>, steps: seq<Step>, i: nat, j: nat)
    requires ValidConfig(cfg) && IsRun(cfg, run, steps) && i < |run| && j in run[i].table
    ensures run[i].table[j].job.status == Ended(Completed) ==> run[i].table[j].stores >= 1
    ensures run[i].table[j].stores >= 1 <==> StoreGuard(run[i].table[j], 1).AlreadyStored?
  {
    RunKeeps(cfg, run, steps, i);
    assert RowOk(cfg, run[i].clock, run[i].nextWorker, run[i].table[j]);
  }
}
