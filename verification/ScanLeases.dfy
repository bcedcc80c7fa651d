/**
  What lease rows do when they always stand in the way, as they do in sessions that do not flush the
  deletion of an expired one: one process ever gets past the lease of a job, however late, and a job
  whose process is lost at that point is never claimed.
 */
module ScanLeases {
  import opened Options
  import opened ScanRows
  import opened ScanProtocol
  import opened ScanInvariant
  import opened ScanHistory

  /** The process has acquired the lease of its job. */
  predicate Past(phase: Phase) { !phase.Checked? && !phase.Admitted? }

  /** No dispatcher that holds the lease finds a claim to take over. */
  ghost predicate NoTakeovers(s: State) {
    forall w :: At(s, w, Leased) && RowOf(s, w).claimants != [] ==> !Claimable(RowOf(s, w).dispatch, s.clock)
  }

  ghost predicate NoTakeoverRun(run: seq<State>) {
    forall i :: 0 <= i < |run| ==> NoTakeovers(run[i])
  }

  /** Of each job at most one process is past the lease, and claims come after the only one. */
  ghost predicate Sole(s: State) {
    && (forall j :: j in s.table && s.table[j].lease.None? ==> s.table[j].claimants == [])
    && (forall w :: w in s.procs && s.procs[w].job in s.table && Past(s.procs[w].phase) ==> RowOf(s, w).lease.Some?)
    && (forall w, x ::
          w in s.procs && x in s.procs && Past(s.procs[w].phase) && Past(s.procs[x].phase) && s.procs[w].job == s.procs[x].job ==>
          w == x)
    && forall w :: At(s, w, Leased) ==> RowOf(s, w).claimants == []
  }

  lemma LeaseStays(cfg: Config, s: State, step: Step, j: nat)
    requires Inv(cfg, s) && Enabled(cfg, s, step) && j in s.table && s.table[j].lease.Some?
    ensures j in Apply(cfg, s, step).table && Apply(cfg, s, step).table[j].lease.Some?
  {
    assert j < s.nextJob;
    hide Inv, Apply, Enabled, Changed, ChangeOf;
    StepChanges(cfg, s, step, j);
    LeasesGiven(cfg, s, step, j);
    ChangeKeepsLease(cfg, s.clock, s.table[j], ChangeOf(cfg, s, step, j));
  }

  lemma LeasesGiven(cfg: Config, s: State, step: Step, j: nat)
    requires Enabled(cfg, s, step) && j in s.table && s.table[j].lease.Some?
    ensures ChangeOf(cfg, s, step, j).Leasing? ==> ChangeOf(cfg, s, step, j).lease.Some?
  {
    hide Occupied, Claimable;
  }

  lemma ChangeKeepsLease(cfg: Config, now: int, row: Row, c: Change)
    requires row.lease.Some? && (c.Leasing? ==> c.lease.Some?)
    ensures Changed(cfg, now, row, c).lease.Some?
  {
  }

  /** A process is past the lease only because it was, or because it has just acquired it. */
  lemma PastBefore(cfg: Config, s: State, step: Step, x: Worker)
    requires Enabled(cfg, s, step) && x in Apply(cfg, s, step).procs && Past(Apply(cfg, s, step).procs[x].phase)
    ensures x in s.procs && s.procs[x].job == Apply(cfg, s, step).procs[x].job
    ensures Past(s.procs[x].phase)
      || (step == Acquire(x) && AcquireRow(RowOf(s, x), x, s.clock, Ttl(cfg), cfg.evicts).Some?)
  {
    hide Occupied, AcquireRow, ReleaseRow, ExpireRow, ClaimRow, RenewRow, OpenStore, CommitStore,
         FinishRow, FinalizeRow, CancelRow, ReconcileRow, StoreGuard;
  }

  /** Only a process at the lease adds a claim. */
  lemma ClaimFromLeased(cfg: Config, s: State, step: Step, j: nat)
    requires Inv(cfg, s) && Enabled(cfg, s, step) && j in s.table
    ensures j in Apply(cfg, s, step).table
    ensures Apply(cfg, s, step).table[j].claimants == s.table[j].claimants
      || (step.Claim? && At(s, step.w, Leased) && s.procs[step.w].job == j)
  {
    assert j < s.nextJob;
    hide Inv, Apply, Occupied, Claimable, HoldsClaim, HoldsLease, Changed, AcquireRow, ReleaseRow, ExpireRow;
    StepChanges(cfg, s, step, j);
    var c := ChangeOf(cfg, s, step, j);
    if !c.Claiming? { ChangeKeepsClaimants(cfg, s.clock, s.table[j], c); }
  }

  lemma ChangeKeepsClaimants(cfg: Config, now: int, row: Row, c: Change)
    requires !c.Claiming?
    ensures Changed(cfg, now, row, c).claimants == row.claimants
  {
  }

  /** A process stands between lease and claim only because it did, or because it has just acquired the lease. */
  lemma LeasedBefore(cfg: Config, s: State, step: Step, x: Worker)
    requires Enabled(cfg, s, step) && x in Apply(cfg, s, step).procs && Apply(cfg, s, step).procs[x].phase == Leased
    ensures x in s.procs && s.procs[x].job == Apply(cfg, s, step).procs[x].job && step != Claim(x)
    ensures s.procs[x].phase == Leased
      || (step == Acquire(x) && AcquireRow(RowOf(s, x), x, s.clock, Ttl(cfg), cfg.evicts).Some?)
  {
    hide Occupied, AcquireRow, ReleaseRow, ExpireRow, ClaimRow, RenewRow, OpenStore, CommitStore,
         FinishRow, FinalizeRow, CancelRow, ReconcileRow, StoreGuard;
  }

  lemma NewJobsAreFree(cfg: Config, s: State, step: Step, j: nat)
    requires Enabled(cfg, s, step) && j in Apply(cfg, s, step).table && j !in s.table
    ensures Apply(cfg, s, step).table[j].claimants == []
  {
    hide Occupied;
  }

  lemma AcquiredAlone(cfg: Config, s: State, step: Step, w: Worker, x: Worker)
    requires Inv(cfg, s) && Sole(s) && Enabled(cfg, s, step) && !cfg.evicts
    requires w in Apply(cfg, s, step).procs && x in Apply(cfg, s, step).procs
    requires Past(Apply(cfg, s, step).procs[w].phase) && Past(Apply(cfg, s, step).procs[x].phase)
    requires Apply(cfg, s, step).procs[w].job == Apply(cfg, s, step).procs[x].job
    ensures w == x
  {
    hide Apply, Enabled, RowOk, ProcOk;
    PastBefore(cfg, s, step, w);
    PastBefore(cfg, s, step, x);
  }

  lemma SoleKeeps(cfg: Config, s: State, step: Step)
    requires Inv(cfg, s) && Sole(s) && Enabled(cfg, s, step) && !cfg.evicts
    ensures Sole(Apply(cfg, s, step))
  {
    hide RowOk, ProcOk, Apply, Enabled, Past;
    var s' := Apply(cfg, s, step);
    forall j | j in s'.table && s'.table[j].lease.None? ensures s'.table[j].claimants == [] {
      FreeKeeps(cfg, s, step, j);
    }
    forall w | w in s'.procs && s'.procs[w].job in s'.table && Past(s'.procs[w].phase) ensures RowOf(s', w).lease.Some? {
      PastKeeps(cfg, s, step, w);
    }
    forall w, x | w in s'.procs && x in s'.procs && Past(s'.procs[w].phase) && Past(s'.procs[x].phase)
                  && s'.procs[w].job == s'.procs[x].job
      ensures w == x
    {
      AcquiredAlone(cfg, s, step, w, x);
    }
    forall w | At(s', w, Leased) ensures RowOf(s', w).claimants == [] {
      LeasedKeeps(cfg, s, step, w);
    }
  }

  lemma FreeKeeps(cfg: Config, s: State, step: Step, j: nat)
    requires Inv(cfg, s) && Sole(s) && Enabled(cfg, s, step)
    requires j in Apply(cfg, s, step).table && Apply(cfg, s, step).table[j].lease.None?
    ensures Apply(cfg, s, step).table[j].claimants == []
  {
    hide RowOk, ProcOk, Apply, Enabled;
    if j in s.table {
      if s.table[j].lease.Some? { LeaseStays(cfg, s, step, j); }
      ClaimFromLeased(cfg, s, step, j);
    } else {
      NewJobsAreFree(cfg, s, step, j);
    }
  }

  lemma PastKeeps(cfg: Config, s: State, step: Step, w: Worker)
    requires Inv(cfg, s) && Sole(s) && Enabled(cfg, s, step)
    requires w in Apply(cfg, s, step).procs && Apply(cfg, s, step).procs[w].job in Apply(cfg, s, step).table
    requires Past(Apply(cfg, s, step).procs[w].phase)
    ensures RowOf(Apply(cfg, s, step), w).lease.Some?
  {
    PastBefore(cfg, s, step, w);
    if Past(s.procs[w].phase) {
      hide RowOk, ProcOk, Apply, Enabled;
      LeaseStays(cfg, s, step, s.procs[w].job);
    } else {
      hide RowOk, ProcOk, Inv, Sole;
    }
  }

  lemma LeasedKeeps(cfg: Config, s: State, step: Step, w: Worker)
    requires Inv(cfg, s) && Sole(s) && Enabled(cfg, s, step) && !cfg.evicts
    requires At(Apply(cfg, s, step), w, Leased)
    ensures RowOf(Apply(cfg, s, step), w).claimants == []
  {
    hide RowOk, ProcOk, Apply, Enabled;
    LeasedBefore(cfg, s, step, w);
    var j := s.procs[w].job;
    ClaimFromLeased(cfg, s, step, j);
    assert s.procs[w].phase == Leased ==> At(s, w, Leased);
  }

  lemma {:induction false} StandingLeases(cfg: Config, run: seq<State>, steps: seq<Step>, i: nat)
    requires ValidConfig(cfg) && IsRun(cfg, run, steps) && !cfg.evicts && i < |run|
    ensures Sole(run[i])
  {
    if i > 0 {
      hide *;
      StandingLeases(cfg, run, steps, i - 1);
      RunKeeps(cfg, run, steps, i - 1);
      StepOfRun(cfg, run, steps, i);
      SoleKeeps(cfg, run[i - 1], steps[i - 1]);
    }
  }

  /** When lease rows stand, of all processes ever at most one claims a job: whatever anybody's timing, no claim changes hands. */
  lemma StandingLeasesTakeNothing(cfg: Config, run: seq<State>, steps: seq<Step>)
    requires ValidConfig(cfg) && IsRun(cfg, run, steps) && !cfg.evicts
    ensures NoTakeoverRun(run)
  {
    hide IsRun;
    forall i: nat | i < |run| ensures NoTakeovers(run[i]) {
      StandingLeases(cfg, run, steps, i);
    }
  }

  /** The job has a lease row, nobody has claimed it, and nobody who could is left. */
  ghost predicate Stranded(s: State, j: nat) {
    && j in s.table && s.table[j].lease.Some? && s.table[j].claimants == []
    && forall w :: w in s.procs && s.procs[w].job == j ==> !Past(s.procs[w].phase)
  }

  lemma StrandedKeeps(cfg: Config, s: State, step: Step, j: nat)
    requires Inv(cfg, s) && Enabled(cfg, s, step) && !cfg.evicts && Stranded(s, j)
    ensures Stranded(Apply(cfg, s, step), j)
  {
    hide RowOk, ProcOk, Apply, Enabled;
    var s' := Apply(cfg, s, step);
    LeaseStays(cfg, s, step, j);
    ClaimFromLeased(cfg, s, step, j);
    forall w | w in s'.procs && s'.procs[w].job == j ensures !Past(s'.procs[w].phase) {
      if Past(s'.procs[w].phase) { PastBefore(cfg, s, step, w); }
    }
  }

  /**
    When lease rows stand, a job whose process is lost between its lease and its claim is never
    claimed, whatever the time to live of the lease.  Within the protocol it waits or ends cancelled;
    outside of it the recovery of stale jobs, when it runs, fails a job queued for three hours.
   */
  lemma {:induction false} StrandedForGood(cfg: Config, run: seq<State>, steps: seq<Step>, i: nat, k: nat, j: nat)
    requires ValidConfig(cfg) && IsRun(cfg, run, steps) && !cfg.evicts && i <= k < |run| && Stranded(run[i], j)
    ensures Stranded(run[k], j) && (Dispatchable(run[k].table[j].job.status) || run[k].table[j].job.status.Ended?)
    ensures run[k].table[j].assets == 0
    decreases k
  {
    hide Apply, Enabled, Inv;
    if i < k {
      StrandedForGood(cfg, run, steps, i, k - 1, j);
      RunKeeps(cfg, run, steps, k - 1);
      assert Follows(cfg, run[k - 1], steps[k - 1], run[k - 1 + 1]);
      StrandedKeeps(cfg, run[k - 1], steps[k - 1], j);
    }
    UnclaimedWaits(cfg, run, steps, k, j);
  }

  lemma UnclaimedWaits(cfg: Config, run: seq<State>, steps: seq<Step>, k: nat, j: nat)
    requires ValidConfig(cfg) && IsRun(cfg, run, steps) && k < |run| && j in run[k].table && run[k].table[j].claimants == []
    ensures Dispatchable(run[k].table[j].job.status) || run[k].table[j].job.status.Ended?
    ensures run[k].table[j].assets == 0
  {
    RunKeeps(cfg, run, steps, k);
    assert RowOk(cfg, run[k].clock, run[k].nextWorker, run[k].table[j]);
  }
}
