/**
  When the longest gap between two heartbeats fits into the grace period, no supervisor that is alive
  is taken for abandoned, whoever else is late; results are stored once, and, unless claims change
  hands, a terminal status is written once.
 */
module ScanTiming {
  import opened Options
  import opened ScanRows
  import opened ScanProtocol
  import opened ScanInvariant
  import opened ScanHistory
  import opened ScanLeases
  import opened ScanSafety

  /** The time that a process may spend in its phase once the phase or turn has begun. */
  function Allowance(cfg: Config, phase: Phase): Option<int> {
    match phase
    case Starting => Some(cfg.setup)
    case Polling => Some(cfg.turn)
    case Rearming => Some(cfg.renewal)
    case Exited => Some(cfg.final)
    case Storing => Some(cfg.final)
    case Finishing(_) => Some(cfg.final)
    case _ => None
  }

  ghost predicate Punctual(cfg: Config, s: State) {
    forall w :: w in s.procs && Allowance(cfg, s.procs[w].phase).Some? ==>
      s.clock <= s.procs[w].since + Allowance(cfg, s.procs[w].phase).value
  }

  ghost predicate PunctualRun(cfg: Config, run: seq<State>) {
    forall i :: 0 <= i < |run| ==> Punctual(cfg, run[i])
  }

  /** The longest time from a heartbeat to the last moment of the turn, or of the final persist, that follows. */
  function LongestGap(cfg: Config): int {
    Larger(cfg.setup, cfg.renewal) + cfg.interval - 1 + cfg.turn + cfg.final
  }

  predicate InTime(cfg: Config) { LongestGap(cfg) <= GRACE }

  /** The outcome of the job is still in the hands of this process. */
  predicate Supervising(phase: Phase) { BeforeStore(phase) || phase.Finishing? }

  /** How far the phase may have begun after the last heartbeat. */
  ghost predicate OnSchedule(cfg: Config, p: Proc) {
    match p.phase
    case Starting => p.since == p.beat
    case Rearming => p.since == p.beat
    case Polling => p.since < p.due <= p.beat + Larger(cfg.setup, cfg.renewal) + cfg.interval
    case Exited => p.since <= p.beat + LongestGap(cfg) - cfg.final
    case Storing => p.since <= p.beat + LongestGap(cfg) - cfg.final
    case Finishing(_) => p.since <= p.beat + LongestGap(cfg) - cfg.final
    case _ => true
  }

  /** The supervisor owns the dispatch, and its job runs or has just been completed by it. */
  ghost predicate InCharge(row: Row, w: Worker, phase: Phase) {
    && row.dispatch.claimedBy == Some(w)
    && (row.job.status == Running || (phase.Finishing? && row.job.status == Ended(Completed)))
  }

  ghost predicate Alive(cfg: Config, s: State, w: Worker) {
    Has(s, w) && OnSchedule(cfg, s.procs[w]) && InCharge(RowOf(s, w), w, s.procs[w].phase)
  }

  ghost predicate AllAlive(cfg: Config, s: State) {
    forall w :: w in s.procs && Supervising(s.procs[w].phase) ==> Alive(cfg, s, w)
  }

  /** No result is stored twice, and whoever is about to store one is the first. */
  ghost predicate Fresh(s: State) {
    && (forall j :: j in s.table ==> s.table[j].stores <= 1)
    && forall w :: At(s, w, Storing) ==> RowOf(s, w).stores == 0
  }

  /** The state is one of a run on which every supervisor has been in time so far. */
  ghost predicate Sound(cfg: Config, s: State) {
    ValidConfig(cfg) && InTime(cfg) && Inv(cfg, s) && Punctual(cfg, s) && AllAlive(cfg, s) && Fresh(s)
  }

  /** The bound: the gap since the last heartbeat stays within the grace period. */
  lemma BeatIsRecent(cfg: Config, s: State, w: Worker)
    requires Sound(cfg, s) && w in s.procs && Supervising(s.procs[w].phase)
    ensures s.clock <= s.procs[w].beat + GRACE && Has(s, w)
    ensures RowOf(s, w).dispatch.heartbeatAt == Some(s.procs[w].beat)
    ensures !Abandoned(RowOf(s, w), s.clock) && !Claimable(RowOf(s, w).dispatch, s.clock)
  {
    hide NoRepeats, Fresh;
    assert Alive(cfg, s, w);
    assert ProcOk(s.clock, w, s.procs[w], RowOf(s, w));
    assert s.clock <= s.procs[w].since + Allowance(cfg, s.procs[w].phase).value;
    assert RowOk(cfg, s.clock, s.nextWorker, RowOf(s, w));
  }

  /** Two supervisors of one job are the same: each of them owns its dispatch. */
  lemma NoRivals(cfg: Config, s: State, w: Worker, x: Worker)
    requires AllAlive(cfg, s) && w in s.procs && x in s.procs && s.procs[w].job == s.procs[x].job
    requires Supervising(s.procs[w].phase) && Supervising(s.procs[x].phase)
    ensures w == x
  {
    assert Alive(cfg, s, w) && Alive(cfg, s, x);
  }

  // ----- steps of other processes -----

  function Mover(step: Step): Option<Worker> {
    match step
    case Reserve(w) => Some(w)
    case Begin(w) => Some(w)
    case Turn(w) => Some(w)
    case SeeCancel(w) => Some(w)
    case Rearm(w) => Some(w)
    case Expire(w) => Some(w)
    case WorkerExit(w) => Some(w)
    case Break(w) => Some(w)
    case Unconfirmed(w) => Some(w)
    case _ => Actor(step)
  }

  lemma OthersKeepPlace(cfg: Config, s: State, step: Step, x: Worker)
    requires Enabled(cfg, s, step) && Mover(step) != Some(x) && x in Apply(cfg, s, step).procs
    requires !Apply(cfg, s, step).procs[x].phase.Checked?
    ensures x in s.procs && Apply(cfg, s, step).procs[x] == s.procs[x].(signalled := Apply(cfg, s, step).procs[x].signalled)
  {
    hide Occupied, Claimable, HoldsLease, HoldsClaim, StoreGuard;
  }

  lemma OthersHarmless(cfg: Config, s: State, step: Step, x: Worker)
    requires Sound(cfg, s) && Enabled(cfg, s, step) && Mover(step) != Some(x)
    requires x in s.procs && Supervising(s.procs[x].phase)
    ensures var j := s.procs[x].job;
      j in Apply(cfg, s, step).table && InCharge(Apply(cfg, s, step).table[j], x, s.procs[x].phase)
  {
    hide Apply, RowOk, NoRepeats, Occupied, OnSchedule, Punctual, Fresh, ClaimRow, RenewRow, OpenStore, CommitStore, FinishRow;
    var j := s.procs[x].job;
    BeatIsRecent(cfg, s, x);
    StepChanges(cfg, s, step, j);
    assert Alive(cfg, s, x);
    var c := ChangeOf(cfg, s, step, j);
    if c.Renewing? || c.Opening? || c.Committing? || c.Ending? {
      NoRivals(cfg, s, step.w, x);
      assert false;
    }
  }

  // ----- the supervisor's own steps -----

  lemma LocalStepOnSchedule(cfg: Config, s: State, step: Step, x: Worker)
    requires Sound(cfg, s) && Enabled(cfg, s, step) && Mover(step) == Some(x) && Actor(step).None?
    requires x in Apply(cfg, s, step).procs && Supervising(Apply(cfg, s, step).procs[x].phase)
    ensures OnSchedule(cfg, Apply(cfg, s, step).procs[x])
  {
    hide Inv, Fresh, Occupied, HoldsLease, HoldsClaim, Claimable, InCharge;
  }

  lemma LocalStepInCharge(cfg: Config, s: State, step: Step, x: Worker)
    requires Sound(cfg, s) && Enabled(cfg, s, step) && Mover(step) == Some(x) && Actor(step).None?
    requires x in Apply(cfg, s, step).procs && Supervising(Apply(cfg, s, step).procs[x].phase)
    ensures Has(Apply(cfg, s, step), x) && InCharge(RowOf(Apply(cfg, s, step), x), x, Apply(cfg, s, step).procs[x].phase)
  {
    hide Inv, Fresh, Occupied, HoldsLease, HoldsClaim, Claimable, Punctual, OnSchedule;
  }

  lemma OwnStepOnSchedule(cfg: Config, s: State, step: Step, x: Worker)
    requires Sound(cfg, s) && Enabled(cfg, s, step) && Actor(step) == Some(x)
    requires x in Apply(cfg, s, step).procs && Supervising(Apply(cfg, s, step).procs[x].phase)
    ensures OnSchedule(cfg, Apply(cfg, s, step).procs[x])
  {
    hide Inv, Fresh, Occupied, HoldsLease, HoldsClaim, Claimable, InCharge, StoreGuard;
  }

  lemma OwnStepInCharge(cfg: Config, s: State, step: Step, x: Worker)
    requires Sound(cfg, s) && Enabled(cfg, s, step) && Actor(step) == Some(x)
    requires x in Apply(cfg, s, step).procs && Supervising(Apply(cfg, s, step).procs[x].phase)
    ensures Has(Apply(cfg, s, step), x) && InCharge(RowOf(Apply(cfg, s, step), x), x, Apply(cfg, s, step).procs[x].phase)
  {
    hide Inv, Fresh, Occupied, HoldsLease, HoldsClaim, Claimable, Punctual, OnSchedule;
  }

  lemma AliveKeeps(cfg: Config, s: State, step: Step)
    requires Sound(cfg, s) && Enabled(cfg, s, step)
    ensures AllAlive(cfg, Apply(cfg, s, step))
  {
    hide Apply, Inv, Fresh, Punctual, InCharge;
    var s' := Apply(cfg, s, step);
    forall x | x in s'.procs && Supervising(s'.procs[x].phase) ensures Alive(cfg, s', x) {
      if Actor(step) == Some(x) {
        OwnStepOnSchedule(cfg, s, step, x);
        OwnStepInCharge(cfg, s, step, x);
      } else if Mover(step) == Some(x) {
        LocalStepOnSchedule(cfg, s, step, x);
        LocalStepInCharge(cfg, s, step, x);
      } else {
        OthersKeepPlace(cfg, s, step, x);
        OthersHarmless(cfg, s, step, x);
      }
    }
  }

  lemma FreshKeeps(cfg: Config, s: State, step: Step)
    requires Sound(cfg, s) && Enabled(cfg, s, step)
    ensures Fresh(Apply(cfg, s, step))
  {
    hide Apply, RowOk, ProcOk, Punctual, AllAlive;
    var s' := Apply(cfg, s, step);
    forall j | j in s'.table ensures s'.table[j].stores <= 1 { StoresBounded(cfg, s, step, j); }
    forall w | At(s', w, Storing) ensures RowOf(s', w).stores == 0 { StoringIsFirst(cfg, s, step, w); }
  }

  /** Only a commit stores a result. */
  lemma StoresChange(cfg: Config, s: State, step: Step, j: nat)
    requires Inv(cfg, s) && Enabled(cfg, s, step) && j in s.table
    ensures j in Apply(cfg, s, step).table
    ensures Apply(cfg, s, step).table[j].stores
         == s.table[j].stores + if step.Commit? && s.procs[step.w].job == j then 1 else 0
  {
    assert j < s.nextJob;
    hide Inv, Apply, Occupied, Claimable, HoldsLease, HoldsClaim, AcquireRow, ReleaseRow, ExpireRow, Changed;
    StepChanges(cfg, s, step, j);
    ChangeStores(cfg, s.clock, s.table[j], ChangeOf(cfg, s, step, j));
  }

  lemma ChangeStores(cfg: Config, now: int, row: Row, c: Change)
    ensures Changed(cfg, now, row, c).stores == row.stores + if c.Committing? then 1 else 0
  {
  }

  lemma StoresBounded(cfg: Config, s: State, step: Step, j: nat)
    requires Sound(cfg, s) && Enabled(cfg, s, step) && j in Apply(cfg, s, step).table
    ensures Apply(cfg, s, step).table[j].stores <= 1
  {
    hide Inv, Apply, Punctual, AllAlive, Occupied;
    if j in s.table { StoresChange(cfg, s, step, j); } else { NewRows(cfg, s, step, j); }
  }

  /** A process is about to store because it was, or because the guard has just let it proceed. */
  lemma StoringBefore(cfg: Config, s: State, step: Step, w: Worker)
    requires Enabled(cfg, s, step) && At(Apply(cfg, s, step), w, Storing)
    ensures w in s.procs && s.procs[w].job == Apply(cfg, s, step).procs[w].job
    ensures s.procs[w].phase == Storing || (step == Open(w) && StoreGuard(RowOf(s, w), s.procs[w].version).Proceed?)
    ensures !step.Commit? || step.w != w
  {
    hide Occupied, AcquireRow, ReleaseRow, ExpireRow, ClaimRow, RenewRow, OpenStore, CommitStore,
         FinishRow, FinalizeRow, CancelRow, ReconcileRow;
  }

  lemma StoringIsFirst(cfg: Config, s: State, step: Step, w: Worker)
    requires Sound(cfg, s) && Enabled(cfg, s, step) && At(Apply(cfg, s, step), w, Storing)
    ensures RowOf(Apply(cfg, s, step), w).stores == 0
  {
    hide Apply, Occupied, Punctual, Alive, NoRepeats;
    StoringBefore(cfg, s, step, w);
    StoresChange(cfg, s, step, s.procs[w].job);
    if s.procs[w].phase == Storing {
      assert At(s, w, Storing);
      if step.Commit? && s.procs[step.w].job == s.procs[w].job {
        NoRivals(cfg, s, step.w, w);
        assert false;
      }
    } else {
      assert RowOk(cfg, s.clock, s.nextWorker, RowOf(s, w)) && ProcOk(s.clock, w, s.procs[w], RowOf(s, w));
    }
  }

  lemma {:induction false} PunctualRunIsSound(cfg: Config, run: seq<State>, steps: seq<Step>, i: nat)
    requires ValidConfig(cfg) && InTime(cfg) && IsRun(cfg, run, steps) && PunctualRun(cfg, run) && i < |run|
    ensures Sound(cfg, run[i])
  {
    hide Apply, Enabled, Inv;
    RunKeeps(cfg, run, steps, i);
    if i > 0 {
      PunctualRunIsSound(cfg, run, steps, i - 1);
      assert Follows(cfg, run[i - 1], steps[i - 1], run[i - 1 + 1]);
      AliveKeeps(cfg, run[i - 1], steps[i - 1]);
      FreshKeeps(cfg, run[i - 1], steps[i - 1]);
    }
  }

  // ----- what punctuality gives -----

  /** Reconciliation leaves every job alone whose supervisor is alive; the supervisor owns its dispatch. */
  lemma LiveJobsAreLeftAlone(cfg: Config, run: seq<State>, steps: seq<Step>, i: nat, w: Worker)
    requires ValidConfig(cfg) && InTime(cfg) && IsRun(cfg, run, steps) && PunctualRun(cfg, run) && i < |run|
    requires w in run[i].procs && Supervising(run[i].procs[w].phase)
    ensures Has(run[i], w) && InCharge(RowOf(run[i], w), w, run[i].procs[w].phase)
    ensures ReconcileRow(RowOf(run[i], w), run[i].clock, cfg.timeout) == RowOf(run[i], w)
  {
    PunctualRunIsSound(cfg, run, steps, i);
    BeatIsRecent(cfg, run[i], w);
  }

  /** Punctual supervisors store results at most once, even when dispatchers are late and claims change hands. */
  lemma StoredOnceInTime(cfg: Config, run: seq<State>, steps: seq<Step>, i: nat, j: nat)
    requires ValidConfig(cfg) && InTime(cfg) && IsRun(cfg, run, steps) && PunctualRun(cfg, run) && i < |run|
    requires j in run[i].table
    ensures StoredOnce(run[i].table[j])
  {
    PunctualRunIsSound(cfg, run, steps, i);
    assert RowOk(cfg, run[i].clock, run[i].nextWorker, run[i].table[j]);
  }

  /**
    In any reachable state, timely or not, a terminal status is overwritten by two steps only: a
    late commit of a result, and a claim that takes over after the job has ended.
   */
  lemma OverwrittenExactlyBy(cfg: Config, s: State, step: Step, j: nat)
    requires Inv(cfg, s) && Enabled(cfg, s, step) && j in s.table && s.table[j].job.status.Ended?
    ensures j in Apply(cfg, s, step).table
    ensures Apply(cfg, s, step).table[j].job.status != s.table[j].job.status <==>
      Concerns(s, step, j) && ((step.Commit? && s.table[j].job.status != Ended(Completed))
                               || (step.Claim? && Claimable(s.table[j].dispatch, s.clock)))
  {
    assert j < s.nextJob;
    hide Inv, Apply, Enabled, Claimable, Changed, ChangeOf, Concerns;
    StepChanges(cfg, s, step, j);
    ChangeOverwrites(cfg, s.clock, s.table[j], ChangeOf(cfg, s, step, j));
    WhichStep(cfg, s, step, j);
  }

  lemma ChangeOverwrites(cfg: Config, now: int, row: Row, c: Change)
    requires row.job.status.Ended?
    ensures Changed(cfg, now, row, c).job.status != row.job.status <==>
      || (c.Committing? && row.job.status != Ended(Completed))
      || (c.Claiming? && Claimable(row.dispatch, now))
  {
  }

  lemma CommitIsInTime(cfg: Config, s: State, w: Worker, found: nat)
    requires Sound(cfg, s) && Enabled(cfg, s, Commit(w, found))
    ensures RowOf(s, w).job.status == Running
  {
    assert Alive(cfg, s, w);
  }

  lemma StatusKept(cfg: Config, s: State, step: Step, j: nat)
    requires Sound(cfg, s) && NoTakeovers(s) && Enabled(cfg, s, step) && j in s.table && s.table[j].job.status.Ended?
    ensures j in Apply(cfg, s, step).table && Apply(cfg, s, step).table[j].job.status == s.table[j].job.status
  {
    hide Apply, ProcOk, NoRepeats, Occupied, AllAlive, Punctual;
    OverwrittenExactlyBy(cfg, s, step, j);
    if step.Commit? { CommitIsInTime(cfg, s, step.w, step.found); }
    assert RowOk(cfg, s.clock, s.nextWorker, s.table[j]);
  }

  /** When supervisors are punctual and no claim changes hands, the terminal status of a job is written exactly once. */
  lemma StatusWrittenOnce(cfg: Config, run: seq<State>, steps: seq<Step>, i: nat, k: nat, j: nat)
    requires ValidConfig(cfg) && InTime(cfg) && IsRun(cfg, run, steps) && PunctualRun(cfg, run) && Orderly(cfg, run)
    requires i <= k < |run| && j in run[i].table && run[i].table[j].job.status.Ended?
    ensures j in run[k].table && run[k].table[j].job.status == run[i].table[j].job.status
  {
    OrderlyTakesNothing(cfg, run, steps);
    StatusKeptSince(cfg, run, steps, i, k, j);
  }

  lemma {:induction false} StatusKeptSince(cfg: Config, run: seq<State>, steps: seq<Step>, i: nat, k: nat, j: nat)
    requires ValidConfig(cfg) && InTime(cfg) && IsRun(cfg, run, steps) && PunctualRun(cfg, run) && NoTakeoverRun(run)
    requires i <= k < |run| && j in run[i].table && run[i].table[j].job.status.Ended?
    ensures j in run[k].table && run[k].table[j].job.status == run[i].table[j].job.status
    decreases k
  {
    hide Sound, Apply, Enabled, NoTakeovers;
    if i < k {
      StatusKeptSince(cfg, run, steps, i, k - 1, j);
      PunctualRunIsSound(cfg, run, steps, k - 1);
      assert Follows(cfg, run[k - 1], steps[k - 1], run[k - 1 + 1]);
      StatusKept(cfg, run[k - 1], steps[k - 1], j);
    }
  }
}
