/**
  As long as nobody takes a claim over, each job has at most one supervisor and its results are
  stored at most once.  Nobody does when every dispatcher gets from its status check to its claim
  within the time to live of a claim, and nobody can when a lease row always stands in the way.
 */
module ScanSafety {
  import opened ScanRows
  import opened ScanProtocol
  import opened ScanInvariant
  import opened ScanHistory
  import opened ScanLeases

  ghost predicate Prompt(cfg: Config, s: State) {
    forall w :: w in s.procs && BeforeClaim(s.procs[w].phase) ==> s.clock <= s.procs[w].checkedAt + Ttl(cfg)
  }

  ghost predicate PromptRun(cfg: Config, run: seq<State>) {
    forall i :: 0 <= i < |run| ==> Prompt(cfg, run[i])
  }

  /** The supervisor still has its result to store. */
  predicate BeforeStore(phase: Phase) {
    phase.Starting? || phase.Polling? || phase.Rearming? || phase.Exited? || phase.Storing?
  }

  ghost predicate RowSingle(row: Row) { |row.claimants| <= 1 && row.stores <= 1 }

  /** Every job has one supervisor at most, and none with its result still to store if one is stored. */
  ghost predicate Single(s: State) {
    && (forall j :: j in s.table ==> RowSingle(s.table[j]))
    && (forall w :: w in s.procs && s.procs[w].job in s.table && BeforeStore(s.procs[w].phase) ==>
          s.table[s.procs[w].job].stores == 0)
  }

  /** A claim that somebody holds has not expired when a prompt dispatcher gets there. */
  lemma PromptTakesNothing(cfg: Config, s: State)
    requires Inv(cfg, s) && Prompt(cfg, s)
    ensures NoTakeovers(s)
  {
    hide NoRepeats;
    forall w | At(s, w, Leased) && RowOf(s, w).claimants != [] ensures !Claimable(RowOf(s, w).dispatch, s.clock) {
      assert RowOk(cfg, s.clock, s.nextWorker, RowOf(s, w));
      assert ProcOk(s.clock, w, s.procs[w], RowOf(s, w));
    }
  }

  /** Between claim and store a process only comes from there, or from claiming just now. */
  lemma PhaseBefore(cfg: Config, s: State, step: Step, x: Worker)
    requires Enabled(cfg, s, step) && x in Apply(cfg, s, step).procs && BeforeStore(Apply(cfg, s, step).procs[x].phase)
    ensures x in s.procs && s.procs[x].job == Apply(cfg, s, step).procs[x].job
    ensures BeforeStore(s.procs[x].phase) || (step == Claim(x) && Claimable(RowOf(s, x).dispatch, s.clock))
    ensures !step.Commit? || step.w != x
  {
    hide Occupied, Claimable, HoldsLease, HoldsClaim;
  }

  /** The only claim of a job is on an untouched row, and the only store on a row without results. */
  lemma FirstOnly(cfg: Config, s: State, step: Step, j: nat)
    requires Inv(cfg, s) && NoTakeovers(s) && Single(s) && Enabled(cfg, s, step) && j in s.table
    ensures var c := ChangeOf(cfg, s, step, j);
      && (c.Claiming? && Claimable(s.table[j].dispatch, s.clock) ==> s.table[j].claimants == [] && s.table[j].stores == 0)
      && (c.Committing? ==> s.table[j].stores == 0)
  {
    assert RowOk(cfg, s.clock, s.nextWorker, s.table[j]);
    hide Inv, ProcOk, ChangeOf, Claimable, NoRepeats;
    WhichStep(cfg, s, step, j);
  }

  lemma RowSingleKeeps(cfg: Config, now: int, row: Row, c: Change)
    requires RowSingle(row)
    requires c.Claiming? && Claimable(row.dispatch, now) ==> row.claimants == []
    requires c.Committing? ==> row.stores == 0
    ensures RowSingle(Changed(cfg, now, row, c))
    ensures !c.Committing? ==> Changed(cfg, now, row, c).stores == row.stores
  {
  }

  /** Two supervisors of the same job are the same. */
  lemma OneSupervisor(cfg: Config, s: State, w: Worker, x: Worker)
    requires Inv(cfg, s) && Single(s) && w in s.procs && x in s.procs && s.procs[w].job == s.procs[x].job
    requires !BeforeClaim(s.procs[w].phase) && !BeforeClaim(s.procs[x].phase)
    ensures w == x
  {
    var row := RowOf(s, w);
    assert ProcOk(s.clock, w, s.procs[w], row) && ProcOk(s.clock, x, s.procs[x], row);
    assert w in row.claimants && x in row.claimants && |row.claimants| <= 1;
  }

  lemma StoresStay(cfg: Config, s: State, step: Step, x: Worker)
    requires Inv(cfg, s) && NoTakeovers(s) && Single(s) && Enabled(cfg, s, step)
    requires x in Apply(cfg, s, step).procs && BeforeStore(Apply(cfg, s, step).procs[x].phase)
    ensures Has(Apply(cfg, s, step), x) && RowOf(Apply(cfg, s, step), x).stores == 0
  {
    hide Apply, RowOk, ProcOk, Changed;
    PhaseBefore(cfg, s, step, x);
    var j := s.procs[x].job;
    StepChanges(cfg, s, step, j);
    FirstOnly(cfg, s, step, j);
    if ChangeOf(cfg, s, step, j).Committing? {
      OneSupervisor(cfg, s, step.w, x);
    }
    RowSingleKeeps(cfg, s.clock, s.table[j], ChangeOf(cfg, s, step, j));
  }

  lemma SingleKeeps(cfg: Config, s: State, step: Step)
    requires Inv(cfg, s) && NoTakeovers(s) && Single(s) && Enabled(cfg, s, step)
    ensures Single(Apply(cfg, s, step))
  {
    hide RowOk, ProcOk, Changed, ChangeOf, Apply;
    var s' := Apply(cfg, s, step);
    forall j | j in s'.table ensures RowSingle(s'.table[j]) {
      if j in s.table {
        StepChanges(cfg, s, step, j);
        FirstOnly(cfg, s, step, j);
        RowSingleKeeps(cfg, s.clock, s.table[j], ChangeOf(cfg, s, step, j));
      } else {
        NewRows(cfg, s, step, j);
      }
    }
    forall w | w in s'.procs && s'.procs[w].job in s'.table && BeforeStore(s'.procs[w].phase)
      ensures s'.table[s'.procs[w].job].stores == 0
    {
      StoresStay(cfg, s, step, w);
    }
  }

  lemma NewRows(cfg: Config, s: State, step: Step, j: nat)
    requires Enabled(cfg, s, step) && j in Apply(cfg, s, step).table && j !in s.table
    ensures step.Enqueue? && j == s.nextJob && Apply(cfg, s, step).table[j] == NewRow(step.repo, s.clock)
  {
    hide Occupied, NewRow;
  }

  lemma {:induction false} RunIsSingle(cfg: Config, run: seq<State>, steps: seq<Step>, i: nat)
    requires ValidConfig(cfg) && IsRun(cfg, run, steps) && NoTakeoverRun(run) && i < |run|
    ensures Inv(cfg, run[i]) && Single(run[i])
  {
    hide Apply, Enabled;
    RunKeeps(cfg, run, steps, i);
    if i > 0 {
      RunIsSingle(cfg, run, steps, i - 1);
      assert Follows(cfg, run[i - 1], steps[i - 1], run[i - 1 + 1]);
      SingleKeeps(cfg, run[i - 1], steps[i - 1]);
    }
  }

  lemma PromptRunTakesNothing(cfg: Config, run: seq<State>, steps: seq<Step>)
    requires ValidConfig(cfg) && IsRun(cfg, run, steps) && PromptRun(cfg, run)
    ensures NoTakeoverRun(run)
  {
    hide Inv, Prompt, NoTakeovers, IsRun;
    forall i: nat | i < |run| ensures NoTakeovers(run[i]) {
      RunKeeps(cfg, run, steps, i);
      PromptTakesNothing(cfg, run[i]);
    }
  }

  /** Every dispatcher is prompt, or lease rows stand in the way. */
  ghost predicate Orderly(cfg: Config, run: seq<State>) { !cfg.evicts || PromptRun(cfg, run) }

  lemma OrderlyTakesNothing(cfg: Config, run: seq<State>, steps: seq<Step>)
    requires ValidConfig(cfg) && IsRun(cfg, run, steps) && Orderly(cfg, run)
    ensures NoTakeoverRun(run)
  {
    hide IsRun, PromptRun, NoTakeoverRun;
    if cfg.evicts { PromptRunTakesNothing(cfg, run, steps); } else { StandingLeasesTakeNothing(cfg, run, steps); }
  }

  // ----- what it gives -----

  /** Each job is claimed at most once: the branch that takes over an expired claim is never taken. */
  lemma ClaimedAtMostOnce(cfg: Config, run: seq<State>, steps: seq<Step>, i: nat, j: nat)
    requires ValidConfig(cfg) && IsRun(cfg, run, steps) && Orderly(cfg, run) && i < |run| && j in run[i].table
    ensures run[i].table[j].dispatch.attempts == |run[i].table[j].claimants| <= 1
    ensures forall w :: At(run[i], w, Leased) && run[i].procs[w].job == j && Claimable(run[i].table[j].dispatch, run[i].clock) ==>
      run[i].table[j].dispatch.state == Waiting
  {
    hide Orderly, NoRepeats, ProcOk;
    OrderlyTakesNothing(cfg, run, steps);
    RunIsSingle(cfg, run, steps, i);
    assert RowOk(cfg, run[i].clock, run[i].nextWorker, run[i].table[j]);
    assert NoTakeovers(run[i]);
  }

  /** No two processes supervise the same job at the same time. */
  lemma SupervisorsAreUnique(cfg: Config, run: seq<State>, steps: seq<Step>, i: nat, w: Worker, x: Worker)
    requires ValidConfig(cfg) && IsRun(cfg, run, steps) && Orderly(cfg, run) && i < |run|
    requires w in run[i].procs && x in run[i].procs && run[i].procs[w].job == run[i].procs[x].job
    requires !BeforeClaim(run[i].procs[w].phase) && !BeforeClaim(run[i].procs[x].phase)
    ensures w == x
  {
    OrderlyTakesNothing(cfg, run, steps);
    RunIsSingle(cfg, run, steps, i);
    OneSupervisor(cfg, run[i], w, x);
  }

  /** The asset rows are those of one result at most: exactly those counted, and a completed job has them. */
  ghost predicate StoredOnce(row: Row) {
    && row.stores == row.job.resultVersion <= 1
    && row.assets == (if row.stores == 1 then row.job.assetsFound else 0)
    && (row.job.status == Ended(Completed) ==> row.stores == 1)
  }

  lemma StoredAtMostOnce(cfg: Config, run: seq<State>, steps: seq<Step>, i: nat, j: nat)
    requires ValidConfig(cfg) && IsRun(cfg, run, steps) && Orderly(cfg, run) && i < |run| && j in run[i].table
    ensures StoredOnce(run[i].table[j])
  {
    OrderlyTakesNothing(cfg, run, steps);
    RunIsSingle(cfg, run, steps, i);
    assert RowOk(cfg, run[i].clock, run[i].nextWorker, run[i].table[j]);
  }

  /**
    Asset rows appear only in the commit that also completes the job and counts them; every other
    step, a failing one included, leaves them as they were.
   */
  lemma StoreIsAllOrNothing(cfg: Config, s: State, step: Step, j: nat)
    requires Inv(cfg, s) && Enabled(cfg, s, step) && j in s.table
    ensures j in Apply(cfg, s, step).table
    ensures var row, row' := s.table[j], Apply(cfg, s, step).table[j];
      row'.assets != row.assets || row'.job.assetsFound != row.job.assetsFound || row'.job.resultVersion != row.job.resultVersion ==>
        && step.Commit? && s.procs[step.w].job == j
        && row'.assets == row.assets + step.found && row'.job.assetsFound == step.found
        && row'.job.status == Ended(Completed) && row'.job.resultVersion == s.procs[step.w].version
  {
    hide RowOk, ProcOk, Occupied, Apply;
    StepChanges(cfg, s, step, j);
  }

  // ----- one active job a repository -----

  ghost predicate OneActive(s: State) {
    forall j, k, repo :: Busy(s, j, repo) && Busy(s, k, repo) ==> j == k
  }

  lemma EndedStaysEnded(cfg: Config, s: State, step: Step, j: nat)
    requires Inv(cfg, s) && NoTakeovers(s) && Single(s) && Enabled(cfg, s, step) && j in s.table
    ensures forall repo :: Busy(Apply(cfg, s, step), j, repo) ==> Busy(s, j, repo)
  {
    hide ProcOk, Occupied, Apply, ChangeOf;
    StepChanges(cfg, s, step, j);
    FirstOnly(cfg, s, step, j);
    assert RowOk(cfg, s.clock, s.nextWorker, s.table[j]);
  }

  lemma OneActiveKeeps(cfg: Config, s: State, step: Step)
    requires Inv(cfg, s) && NoTakeovers(s) && Single(s) && Enabled(cfg, s, step) && OneActive(s)
    ensures OneActive(Apply(cfg, s, step))
  {
    var s' := Apply(cfg, s, step);
    forall j, repo | Busy(s', j, repo)
      ensures Busy(s, j, repo) || (step == Enqueue(repo) && j == s.nextJob)
    {
      hide Apply, Inv, Single, NoTakeovers;
      if j in s.table { EndedStaysEnded(cfg, s, step, j); } else { NewRows(cfg, s, step, j); }
    }
    hide Apply, Inv, Single, NoTakeovers, Busy;
    forall j, k, repo | Busy(s', j, repo) && Busy(s', k, repo) ensures j == k {
      if step == Enqueue(repo) { NotBusy(cfg, s, repo); }
    }
  }

  lemma NotBusy(cfg: Config, s: State, repo: string)
    requires Enabled(cfg, s, Enqueue(repo))
    ensures forall j :: !Busy(s, j, repo)
  {
  }

  /** Two jobs that have not ended are on different repositories. */
  lemma OneActivePerRepository(cfg: Config, run: seq<State>, steps: seq<Step>, i: nat)
    requires ValidConfig(cfg) && IsRun(cfg, run, steps) && Orderly(cfg, run) && i < |run|
    ensures OneActive(run[i])
  {
    hide IsRun, Orderly;
    OrderlyTakesNothing(cfg, run, steps);
    OneActiveSoFar(cfg, run, steps, i);
  }

  lemma {:induction false} OneActiveSoFar(cfg: Config, run: seq<State>, steps: seq<Step>, i: nat)
    requires ValidConfig(cfg) && IsRun(cfg, run, steps) && NoTakeoverRun(run) && i < |run|
    ensures OneActive(run[i])
  {
    hide Apply, Enabled, Inv, Single, NoTakeovers;
    if i > 0 {
      OneActiveSoFar(cfg, run, steps, i - 1);
      RunIsSingle(cfg, run, steps, i - 1);
      assert Follows(cfg, run[i - 1], steps[i - 1], run[i - 1 + 1]);
      OneActiveKeeps(cfg, run[i - 1], steps[i - 1]);
    }
  }
}
