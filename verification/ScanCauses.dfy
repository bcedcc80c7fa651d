/**
  What a request to cancel leads to, and why a scan ends as it does: on every run each outcome has
  its own cause, and no step gives a scan an outcome that it has no cause for.
 */
module ScanCauses {
  import opened Options
  import opened ScanRows
  import opened ScanProtocol
  import opened ScanInvariant
  import opened ScanHistory

  // ----- requests to cancel -----

  /** The time stamp of the first request stays. */
  lemma StampKept(cfg: Config, s: State, step: Step, j: nat)
    requires Inv(cfg, s) && Enabled(cfg, s, step) && j in s.table && s.table[j].dispatch.cancelRequestedAt.Some?
    ensures j in Apply(cfg, s, step).table
    ensures Apply(cfg, s, step).table[j].dispatch.cancelRequestedAt == s.table[j].dispatch.cancelRequestedAt
  {
    hide Inv, Enabled, Apply, ChangeOf;
    assert j < s.nextJob && RowOk(cfg, s.clock, s.nextWorker, s.table[j]) by { AtRow(cfg, s, j); }
    StepChanges(cfg, s, step, j);
  }

  lemma AtRow(cfg: Config, s: State, j: nat)
    requires Inv(cfg, s) && j in s.table
    ensures j < s.nextJob && RowOk(cfg, s.clock, s.nextWorker, s.table[j])
  {
  }

  lemma {:induction false} StampStays(cfg: Config, run: seq<State>, steps: seq<Step>, i: nat, k: nat, j: nat)
    requires ValidConfig(cfg) && IsRun(cfg, run, steps) && i <= k < |run|
    requires j in run[i].table && run[i].table[j].dispatch.cancelRequestedAt.Some?
    ensures j in run[k].table && run[k].table[j].dispatch.cancelRequestedAt == run[i].table[j].dispatch.cancelRequestedAt
  {
    if i < k {
      StampStays(cfg, run, steps, i, k - 1, j);
      RunKeeps(cfg, run, steps, k - 1);
      StepOfRun(cfg, run, steps, k);
      StampKept(cfg, run[k - 1], steps[k - 1], j);
    }
  }

  /**
    A request to cancel a scan that is not closed yet is recorded with the time of the first one, whichever
    replica it reaches, and the record stays.  From then on nobody can claim the scan, every supervisor of
    it that is setting up or polling can see the request, wherever it runs, and if it does it decides to
    end the scan as cancelled; and if the scan is abandoned instead, reconciliation ends it as cancelled.
   */
  lemma {:induction false} CancelIsSeen(cfg: Config, run: seq<State>, steps: seq<Step>, i: nat, k: nat, j: nat, replica: nat)
    requires ValidConfig(cfg) && IsRun(cfg, run, steps) && i < k < |run| && steps[i] == Cancel(j, replica)
    requires j in run[i].table && !run[i].table[j].dispatch.state.Closed?
    ensures j in run[k].table
    ensures run[k].table[j].dispatch.cancelRequestedAt
         == if run[i].table[j].dispatch.cancelRequestedAt.Some? then run[i].table[j].dispatch.cancelRequestedAt else Some(run[i].clock)
    ensures forall t :: !Claimable(run[k].table[j].dispatch, t)
    ensures forall w :: w in run[k].procs && run[k].procs[w].job == j && (run[k].procs[w].phase == Starting || run[k].procs[w].phase == Polling) ==>
      Enabled(cfg, run[k], SeeCancel(w)) && Apply(cfg, run[k], SeeCancel(w)).procs[w].phase == Finishing(Cancelled)
    ensures Silent(run[k].table[j], run[k].clock) ==>
      && Apply(cfg, run[k], Reconcile).table[j].job.status == Ended(Cancelled)
      && Apply(cfg, run[k], Reconcile).table[j].dispatch.state == Closed(Cancelled)
  {
    StepOfRun(cfg, run, steps, i + 1);
    assert run[i + 1].table[j] == CancelRow(run[i].table[j], run[i].clock);
    StampStays(cfg, run, steps, i + 1, k, j);
    RunKeeps(cfg, run, steps, k);
    StampClosesClaims(cfg, run[k], j);
    StampIsSeen(cfg, run[k], j);
  }

  lemma StampIsSeen(cfg: Config, s: State, j: nat)
    requires j in s.table && s.table[j].dispatch.cancelRequestedAt.Some?
    ensures forall w :: w in s.procs && s.procs[w].job == j && (s.procs[w].phase == Starting || s.procs[w].phase == Polling) ==>
      Enabled(cfg, s, SeeCancel(w)) && Apply(cfg, s, SeeCancel(w)).procs[w].phase == Finishing(Cancelled)
    ensures Silent(s.table[j], s.clock) ==>
      && Apply(cfg, s, Reconcile).table[j].job.status == Ended(Cancelled)
      && Apply(cfg, s, Reconcile).table[j].dispatch.state == Closed(Cancelled)
  {
  }

  lemma StampClosesClaims(cfg: Config, s: State, j: nat)
    requires Inv(cfg, s) && j in s.table && s.table[j].dispatch.cancelRequestedAt.Some?
    ensures forall t :: !Claimable(s.table[j].dispatch, t)
  {
    AtRow(cfg, s, j);
  }

  /** A request signals the supervisor that occupies its own replica, whatever the state of the dispatch, and no other process. */
  lemma CancelSignals(cfg: Config, s: State, j: nat, replica: nat, w: Worker)
    requires Enabled(cfg, s, Cancel(j, replica)) && w in s.procs
    ensures var s' := Apply(cfg, s, Cancel(j, replica));
      && w in s'.procs && s'.procs[w] == s.procs[w].(signalled := s'.procs[w].signalled)
      && (replica in s.slots && s.slots[replica] == w && s.procs[w].job == j ==>
            s'.procs[w].signalled && (s.procs[w].phase == Starting || s.procs[w].phase == Polling ==> Enabled(cfg, s', SeeCancel(w))))
      && (!(replica in s.slots && s.slots[replica] == w && s.procs[w].job == j) ==> s'.procs[w] == s.procs[w])
  {
  }

  /** A claim, and each renewal, lasts the time limit of the scan and a minute from the heartbeat on. */
  lemma {:induction false} ClaimsLast(cfg: Config, run: seq<State>, steps: seq<Step>, k: nat, j: nat)
    requires ValidConfig(cfg) && IsRun(cfg, run, steps) && k < |run| && j in run[k].table && run[k].table[j].dispatch.state == Claimed
    ensures var d := run[k].table[j].dispatch;
      d.heartbeatAt.Some? && d.heartbeatAt.value <= run[k].clock && d.claimExpiresAt == Some(d.heartbeatAt.value + cfg.timeout + 60_000_000)
  {
    RunKeeps(cfg, run, steps, k);
    AtRow(cfg, run[k], j);
  }

  // ----- causes of outcomes -----

  /** The heartbeat of a running scan is missing or older than the grace period. */
  predicate Silent(row: Row, now: int) {
    row.job.status == Running && (row.dispatch.heartbeatAt.None? || row.dispatch.heartbeatAt.value < now - 45_000_000)
  }

  predicate By(s: State, w: Worker, j: nat) { w in s.procs && s.procs[w].job == j }

  /** What may end scan j with the outcome: a step that asks for it, or one that finds the scan in that condition. */
  predicate Cause(cfg: Config, s: State, step: Step, j: nat, outcome: Outcome) {
    match outcome
    case Completed => step.Commit? && By(s, step.w, j)
    case Cancelled => step.Cancel? && step.job == j
    case TimedOut =>
      || (step.Expire? && By(s, step.w, j) && s.clock - s.procs[step.w].started >= cfg.timeout)
      || (step.Reconcile? && j in s.table && Silent(s.table[j], s.clock) && s.table[j].dispatch.cancelRequestedAt.None?
          && s.clock - s.table[j].job.startedAt >= cfg.timeout + 45_000_000)
    case Failed =>
      || ((step.Break? || step.Unconfirmed?) && By(s, step.w, j))
      || (step.Renew? && By(s, step.w, j) && j in s.table
          && !(HoldsLease(s.table[j].lease, step.w, s.clock) && HoldsClaim(s.table[j].dispatch, step.w, s.clock)))
      || (step.Open? && By(s, step.w, j) && j in s.table && s.table[j].job.status.Ended? && s.table[j].job.resultVersion < s.procs[step.w].version)
      || (step.Reconcile? && j in s.table && Silent(s.table[j], s.clock) && s.table[j].dispatch.cancelRequestedAt.None?
          && s.clock - s.table[j].job.startedAt < cfg.timeout + 45_000_000)
  }

  /** Process p has decided on the outcome, or has been told to stop. */
  predicate Carries(p: Proc, outcome: Outcome) {
    p.phase == Finishing(outcome) || p.phase == Finalizing(outcome) || (outcome == Cancelled && p.signalled)
  }

  /** The row shows the outcome. */
  predicate Shows(row: Row, outcome: Outcome) {
    || row.job.status == Ended(outcome) || row.dispatch.state == Closed(outcome)
    || (outcome == Cancelled && row.dispatch.cancelRequestedAt.Some?)
    || (outcome == Completed && row.stores >= 1)
  }

  ghost predicate Bears(s: State, j: nat, outcome: Outcome) {
    || (j in s.table && Shows(s.table[j], outcome))
    || exists w :: w in s.procs && s.procs[w].job == j && Carries(s.procs[w], outcome)
  }

  /** A row that shows an outcome showed it before, or was given it by a process that carried it, or by a cause. */
  lemma RowHasCause(cfg: Config, s: State, step: Step, j: nat, outcome: Outcome)
    requires Inv(cfg, s) && Enabled(cfg, s, step) && j in Apply(cfg, s, step).table && Shows(Apply(cfg, s, step).table[j], outcome)
    ensures Bears(s, j, outcome) || Cause(cfg, s, step, j, outcome)
  {
    hide Inv;
    if j in s.table && !Shows(s.table[j], outcome) {
      AtRow(cfg, s, j);
      RowChangeHasCause(cfg, s, step, j, outcome);
    }
  }

  /** The transactions that give a row an outcome. */
  predicate Gives(cfg: Config, now: int, row: Row, c: Change, outcome: Outcome) {
    match c
    case Committing(_, _) => outcome == Completed
    case Ending(o) => outcome == o
    case Closing(_, o) => outcome == o
    case Cancelling => outcome == Cancelled
    case Reconciling => Silent(row, now) && outcome == AbandonedOutcome(row, now, cfg.timeout)
    case _ => false
  }

  lemma ChangeGives(cfg: Config, now: int, row: Row, c: Change, outcome: Outcome)
    requires !Shows(row, outcome) && Shows(Changed(cfg, now, row, c), outcome)
    ensures Gives(cfg, now, row, c, outcome)
  {
  }

  lemma RowChangeHasCause(cfg: Config, s: State, step: Step, j: nat, outcome: Outcome)
    requires j < s.nextJob && Enabled(cfg, s, step) && j in s.table && j in Apply(cfg, s, step).table
    requires !Shows(s.table[j], outcome) && Shows(Apply(cfg, s, step).table[j], outcome)
    ensures Bears(s, j, outcome) || Cause(cfg, s, step, j, outcome)
  {
    hide Apply, Changed, AcquireRow, ReleaseRow, ExpireRow;
    StepChanges(cfg, s, step, j);
    ChangeGives(cfg, s.clock, s.table[j], ChangeOf(cfg, s, step, j), outcome);
    if step.Finish? || step.Finalize? {
      assert Carries(s.procs[step.w], outcome);
    }
  }

  /** A process that has just started carries nothing; the others keep their job. */
  lemma CarriesAnew(cfg: Config, s: State, step: Step, w: Worker, outcome: Outcome)
    requires Enabled(cfg, s, step) && w in Apply(cfg, s, step).procs && s.nextWorker !in s.procs
    ensures w in s.procs ==> Apply(cfg, s, step).procs[w].job == s.procs[w].job
    ensures w !in s.procs ==> !Carries(Apply(cfg, s, step).procs[w], outcome)
  {
    hide Occupied, AcquireRow, ReleaseRow, ExpireRow, CancelRow, FinalizeRow, FinishRow, CommitStore, ReconcileRow, RenewRow, ClaimRow, OpenStore, StoreGuard;
  }

  /** A process that carries an outcome carried it before, or was given it by its row, or by a cause. */
  lemma ProcHasCause(cfg: Config, s: State, step: Step, w: Worker, outcome: Outcome)
    requires Inv(cfg, s) && Enabled(cfg, s, step) && w in Apply(cfg, s, step).procs
    requires Carries(Apply(cfg, s, step).procs[w], outcome)
    ensures var j := Apply(cfg, s, step).procs[w].job; Bears(s, j, outcome) || Cause(cfg, s, step, j, outcome)
  {
    assert s.nextWorker !in s.procs;
    hide Inv, Enabled, Apply, Cause;
    CarriesAnew(cfg, s, step, w, outcome);
    if !Carries(s.procs[w], outcome) {
      AtProc(cfg, s, w);
      AtRow(cfg, s, s.procs[w].job);
      NewlyCarried(cfg, s, step, w, outcome);
    }
  }

  lemma NewlyCarried(cfg: Config, s: State, step: Step, w: Worker, outcome: Outcome)
    requires Enabled(cfg, s, step) && w in Apply(cfg, s, step).procs && w in s.procs && s.procs[w].job in s.table
    requires s.nextWorker !in s.procs
    requires ProcOk(s.clock, w, s.procs[w], RowOf(s, w)) && RowOk(cfg, s.clock, s.nextWorker, RowOf(s, w))
    requires !Carries(s.procs[w], outcome) && Carries(Apply(cfg, s, step).procs[w], outcome)
    ensures Bears(s, s.procs[w].job, outcome) || Cause(cfg, s, step, s.procs[w].job, outcome)
  {
    hide RowOk, ProcOk;
    if step.Renew? || step.Open? {
      NewlyCarriedByRow(cfg, s, step, w, outcome);
    } else if step.SeeCancel? && step.w == w {
      assert Shows(RowOf(s, w), Cancelled);
    } else {
      NewlyCarriedByStep(cfg, s, step, w, outcome);
    }
  }

  lemma NewlyCarriedByStep(cfg: Config, s: State, step: Step, w: Worker, outcome: Outcome)
    requires Enabled(cfg, s, step) && w in Apply(cfg, s, step).procs && w in s.procs && s.procs[w].job in s.table
    requires s.nextWorker !in s.procs
    requires !step.Renew? && !step.Open? && !(step.SeeCancel? && step.w == w)
    requires !Carries(s.procs[w], outcome) && Carries(Apply(cfg, s, step).procs[w], outcome)
    ensures Cause(cfg, s, step, s.procs[w].job, outcome)
  {
    hide Occupied, AcquireRow, ReleaseRow, ExpireRow, CancelRow, FinalizeRow, FinishRow, CommitStore, ReconcileRow, ClaimRow, Silent;
  }

  lemma NewlyCarriedByRow(cfg: Config, s: State, step: Step, w: Worker, outcome: Outcome)
    requires Enabled(cfg, s, step) && w in Apply(cfg, s, step).procs && w in s.procs && s.procs[w].job in s.table
    requires step.Renew? || step.Open?
    requires ProcOk(s.clock, w, s.procs[w], RowOf(s, w)) && RowOk(cfg, s.clock, s.nextWorker, RowOf(s, w))
    requires !Carries(s.procs[w], outcome) && Carries(Apply(cfg, s, step).procs[w], outcome)
    ensures Bears(s, s.procs[w].job, outcome) || Cause(cfg, s, step, s.procs[w].job, outcome)
  {
    hide Occupied, NoRepeats;
  }

  lemma AtProc(cfg: Config, s: State, w: Worker)
    requires Inv(cfg, s) && w in s.procs
    ensures s.procs[w].job in s.table && ProcOk(s.clock, w, s.procs[w], s.table[s.procs[w].job])
  {
  }

  lemma StepHasCause(cfg: Config, s: State, step: Step, j: nat, outcome: Outcome)
    requires Inv(cfg, s) && Enabled(cfg, s, step) && Bears(Apply(cfg, s, step), j, outcome)
    ensures Bears(s, j, outcome) || Cause(cfg, s, step, j, outcome)
  {
    hide Inv, Enabled, Apply, Cause, Shows, Carries;
    var s' := Apply(cfg, s, step);
    if j in s'.table && Shows(s'.table[j], outcome) {
      RowHasCause(cfg, s, step, j, outcome);
    } else {
      var w :| w in s'.procs && s'.procs[w].job == j && Carries(s'.procs[w], outcome);
      ProcHasCause(cfg, s, step, w, outcome);
    }
  }

  /** Every outcome that a run brings about has its cause in an earlier step. */
  lemma {:induction false} OutcomeHasCause(cfg: Config, run: seq<State>, steps: seq<Step>, k: nat, j: nat, outcome: Outcome)
    requires ValidConfig(cfg) && IsRun(cfg, run, steps) && k < |run| && Bears(run[k], j, outcome)
    ensures exists i :: 0 <= i < k && Cause(cfg, run[i], steps[i], j, outcome)
  {
    assert k > 0;
    RunKeeps(cfg, run, steps, k - 1);
    StepOfRun(cfg, run, steps, k);
    StepHasCause(cfg, run[k - 1], steps[k - 1], j, outcome);
    if Bears(run[k - 1], j, outcome) {
      OutcomeHasCause(cfg, run, steps, k - 1, j, outcome);
    }
  }

  /**
    A scan is completed only if a result was stored, cancelled only if somebody asked for it, timed out
    only if its supervisor or reconciliation found it over its time, and failed only if something went wrong.
   */
  lemma {:induction false} EndedForCause(cfg: Config, run: seq<State>, steps: seq<Step>, k: nat, j: nat, outcome: Outcome)
    requires ValidConfig(cfg) && IsRun(cfg, run, steps) && k < |run| && j in run[k].table
    requires run[k].table[j].job.status == Ended(outcome) || run[k].table[j].dispatch.state == Closed(outcome)
    ensures exists i :: 0 <= i < k && Cause(cfg, run[i], steps[i], j, outcome)
  {
    OutcomeHasCause(cfg, run, steps, k, j, outcome);
  }

  /** What reconciliation finds decides how an abandoned scan ends; others are left as they are. */
  lemma ReconciledOutcome(cfg: Config, s: State, j: nat)
    requires j in s.table
    ensures var row, row' := s.table[j], Apply(cfg, s, Reconcile).table[j];
      && (!Silent(row, s.clock) ==> row' == row)
      && (Silent(row, s.clock) ==>
            && row'.job.status == Ended(if row.dispatch.cancelRequestedAt.Some? then Cancelled
                                        else if s.clock - row.job.startedAt >= cfg.timeout + 45_000_000 then TimedOut else Failed)
            && row'.dispatch.state == Closed(row'.job.status.outcome)
            && row'.dispatch.claimedBy.None? && row'.dispatch.claimExpiresAt.None?
            && (forall x, t :: !HoldsLease(row'.lease, x, t)) && (row'.lease.Some? <==> row.lease.Some?)
            && (row'.lease != row.lease ==> row'.lease == Some(Lease(None, row.lease.value.expiresAt, true))))
  {
  }

  // ----- expired leases -----

  /** From the cutoff on everybody holds what they held, and nobody holds a lease that ended before it. */
  lemma ExpiredLeasesOnly(cfg: Config, s: State, cutoff: int, j: nat)
    requires cutoff <= s.clock && j in s.table
    ensures var row, row' := s.table[j], Apply(cfg, s, ExpireLeases(cutoff)).table[j];
      && row' == row.(lease := row'.lease)
      && (forall x, t :: t >= cutoff ==> (HoldsLease(row'.lease, x, t) <==> HoldsLease(row.lease, x, t)))
      && (row.lease.Some? && row.lease.value.expiresAt >= cutoff ==> row'.lease == row.lease)
      && (row.lease.Some? <==> row'.lease.Some?)
      && (row'.lease.Some? && !row'.lease.value.released ==> row'.lease.value.expiresAt >= cutoff)
      && (row'.lease != row.lease ==> row'.lease == Some(Lease(None, row.lease.value.expiresAt, true)))
  {
  }

  /** A dispatcher that leaves, at the end or before, gives back its own lease and nobody else's. */
  lemma LeavingReleases(s: State, w: Worker, j: nat)
    requires Has(s, w) && j in s.table
    ensures var row, row' := s.table[j], Leave(s, w).table[j];
      && row' == row.(lease := row'.lease) && (row.lease.Some? <==> row'.lease.Some?)
      && (j == s.procs[w].job ==> forall t :: !HoldsLease(row'.lease, w, t))
      && (row'.lease != row.lease ==> row'.lease == Some(Lease(None, row.lease.value.expiresAt, true)))
      && (forall x, t :: x != w || j != s.procs[w].job ==> (HoldsLease(row'.lease, x, t) <==> HoldsLease(row.lease, x, t)))
    ensures w !in Leave(s, w).procs && forall x :: x != w ==> (x in Leave(s, w).procs <==> x in s.procs)
    ensures forall r :: r in Leave(s, w).slots <==> r in s.slots && !(r == s.procs[w].replica && s.slots[r] == w)
  {
  }
}
