/**
  What every step of the scan protocol keeps, without any assumption on timing.
 */
module ScanInvariant {
  import opened Options
  import opened ScanRows
  import opened ScanProtocol

  ghost predicate NoRepeats(claimants: seq<Worker>) {
    forall i, j :: 0 <= i < j < |claimants| ==> claimants[i] != claimants[j]
  }

  /** Job, dispatch and assets of one scan agree. */
  ghost predicate RowOk(cfg: Config, clock: int, nextWorker: Worker, row: Row) {
    var job, d := row.job, row.dispatch;
    && d.version == 1 && d.attempts == |row.claimants|
    && NoRepeats(row.claimants) && (forall w :: w in row.claimants ==> w < nextWorker)
    // a job that is still queued has an untouched dispatch, and conversely
    && (Dispatchable(job.status) <==> d.state == Waiting)
    && (d.state == Waiting ==> row.claimants == [] && row.stores == 0)
    // a closed dispatch has no owner and its job has ended
    && (d.state.Closed? ==> d.claimedBy.None? && job.status.Ended?)
    && (d.state == Claimed || d.state == CancelRequested ==>
          && row.claimants != [] && d.claimedBy == Some(row.claimants[|row.claimants| - 1])
          && d.heartbeatAt.Some? && job.startedAt <= d.heartbeatAt.value <= clock
          && d.claimExpiresAt == Some(d.heartbeatAt.value + Ttl(cfg)))
    && (d.state == Waiting ==> d.claimedBy.None? && d.heartbeatAt.None?)
    && (d.state == Waiting || d.state.Closed? ==> d.claimExpiresAt.None?)
    // a cancellation is recorded with its time, and only then
    && (d.state == CancelRequested ==> d.cancelRequestedAt.Some?)
    && (d.state == Waiting || d.state == Claimed ==> d.cancelRequestedAt.None?)
    && job.startedAt <= clock
    // results
    && (row.claimants == [] ==> row.stores == 0)
    && job.resultVersion == (if row.stores == 0 then 0 else 1)
    && (row.stores == 0 ==> row.assets == 0)
    && (row.stores == 1 ==> row.assets == job.assetsFound)
    && (job.status == Ended(Completed) ==> row.stores >= 1)
  }

  /** A process agrees with the row of its job. */
  ghost predicate ProcOk(clock: int, w: Worker, p: Proc, row: Row) {
    && p.checkedAt <= clock && p.since <= clock
    && (BeforeClaim(p.phase) ==> w !in row.claimants && (row.claimants != [] ==> p.checkedAt <= row.job.startedAt))
    && (!BeforeClaim(p.phase) ==>
          && w in row.claimants && p.version == 1 && p.beat <= clock
          && (row.dispatch.claimedBy == Some(w) ==> row.dispatch.heartbeatAt == Some(p.beat)))
    && (p.phase == Finishing(Completed) || p.phase == Finalizing(Completed) ==> row.stores >= 1)
    && (p.phase.Finalizing? && row.dispatch.claimedBy == Some(w) ==> row.job.status.Ended?)
    && (p.phase.Releasing? ==> row.dispatch.claimedBy != Some(w))
  }

  ghost predicate HoldsSlot(phase: Phase) { !phase.Checked? }

  ghost predicate Inv(cfg: Config, s: State) {
    && (forall j :: j in s.table ==> j < s.nextJob && RowOk(cfg, s.clock, s.nextWorker, s.table[j]))
    && (forall w :: w in s.procs ==>
          w < s.nextWorker && s.procs[w].job in s.table && ProcOk(s.clock, w, s.procs[w], s.table[s.procs[w].job]))
    && forall w :: w in s.procs && HoldsSlot(s.procs[w].phase) ==>
         s.procs[w].replica in s.slots && s.slots[s.procs[w].replica] == w
  }

  /** A change of a row that the processes other than w can live with. */
  ghost predicate Tolerated(row: Row, row': Row, w: Option<Worker>) {
    && (forall x :: x in row.claimants ==> x in row'.claimants)
    && (forall x :: x in row'.claimants && x !in row.claimants ==> w == Some(x))
    && row.job.startedAt <= row'.job.startedAt
    && (row.claimants == [] ==> row'.claimants == [] || w.Some?)
    && row.stores <= row'.stores
    && (row'.dispatch.claimedBy.Some? ==>
          row'.dispatch.claimedBy == w
          || (row'.dispatch.claimedBy == row.dispatch.claimedBy && row'.dispatch.heartbeatAt == row.dispatch.heartbeatAt))
    && (row'.dispatch.claimedBy == row.dispatch.claimedBy && row.job.status.Ended? ==> row'.job.status.Ended?)
  }

  /** When a first claim starts the job, everyone still before a claim checked it earlier. */
  lemma OthersStayOk(clock: int, x: Worker, p: Proc, row: Row, row': Row, w: Option<Worker>)
    requires ProcOk(clock, x, p, row) && Tolerated(row, row', w) && w != Some(x)
    requires row.claimants == [] && row'.claimants != [] ==> row'.job.startedAt == clock
    ensures ProcOk(clock, x, p, row')
  {
  }

  /** One step of process w on its row; its own part of the invariant is shown separately. */
  lemma StepKeeps(cfg: Config, s: State, s': State, w: Worker, row': Row, p': Proc)
    requires Inv(cfg, s) && Has(s, w)
    requires s' == s.(table := s.table[s.procs[w].job := row'], procs := s.procs[w := p'], slots := s'.slots)
    requires p'.job == s.procs[w].job && p'.replica == s.procs[w].replica
    requires RowOk(cfg, s.clock, s.nextWorker, row') && ProcOk(s.clock, w, p', row')
    requires Tolerated(RowOf(s, w), row', Some(w))
    requires RowOf(s, w).claimants == [] && row'.claimants != [] ==> row'.job.startedAt == s.clock
    requires forall x :: x in s.procs && HoldsSlot(s'.procs[x].phase) ==>
      s.procs[x].replica in s'.slots && s'.slots[s.procs[x].replica] == x
    ensures Inv(cfg, s')
  {
    hide RowOk, ProcOk, Tolerated, NoRepeats;
    var j := s.procs[w].job;
    forall x | x in s'.procs
      ensures ProcOk(s'.clock, x, s'.procs[x], s'.table[s'.procs[x].job])
    {
      if x != w && s.procs[x].job == j {
        OthersStayOk(s.clock, x, s.procs[x], s.table[j], row', Some(w));
      }
    }
  }

  /** Removing processes and freeing slots keeps everything else. */
  lemma FewerProcsKeep(cfg: Config, s: State, s': State)
    requires Inv(cfg, s)
    requires s' == s.(procs := s'.procs, slots := s'.slots)
    requires forall w :: w in s'.procs ==> w in s.procs && s'.procs[w] == s.procs[w]
    requires forall w :: w in s'.procs && HoldsSlot(s.procs[w].phase) ==>
      s.procs[w].replica in s'.slots && s'.slots[s.procs[w].replica] == w
    ensures Inv(cfg, s')
  {
  }

  /** Changing rows only, in a way that every process tolerates. */
  lemma RowsKeep(cfg: Config, s: State, s': State)
    requires Inv(cfg, s)
    requires s' == s.(table := s'.table) && s'.table.Keys == s.table.Keys
    requires forall j :: j in s.table ==>
      RowOk(cfg, s.clock, s.nextWorker, s'.table[j]) && Tolerated(s.table[j], s'.table[j], None)
    ensures Inv(cfg, s')
  {
    hide RowOk, ProcOk, NoRepeats;
    forall w | w in s'.procs ensures ProcOk(s'.clock, w, s'.procs[w], s'.table[s'.procs[w].job]) {
      var j := s.procs[w].job;
      OthersStayOk(s.clock, w, s.procs[w], s.table[j], s'.table[j], None);
    }
  }

  // ----- what each transaction does to a row -----

  lemma LeaseOnly(cfg: Config, clock: int, nextWorker: Worker, row: Row, row': Row)
    requires RowOk(cfg, clock, nextWorker, row) && row' == row.(lease := row'.lease)
    ensures RowOk(cfg, clock, nextWorker, row') && Tolerated(row, row', None)
  {
  }

  lemma ClaimOk(cfg: Config, clock: int, nextWorker: Worker, row: Row, w: Worker, p: Proc)
    requires RowOk(cfg, clock, nextWorker, row) && ProcOk(clock, w, p, row) && w < nextWorker
    requires BeforeClaim(p.phase) && Claimable(row.dispatch, clock)
    ensures var row' := ClaimRow(row, w, clock, Ttl(cfg)).value;
      && RowOk(cfg, clock, nextWorker, row') && Tolerated(row, row', Some(w))
      && ProcOk(clock, w, p.(phase := Starting, since := clock, beat := clock, version := row'.dispatch.version), row')
  {
    var claimants := row.claimants + [w];
    assert claimants[|claimants| - 1] == w;
    forall x | x in claimants ensures x < nextWorker { }
  }

  lemma RenewOk(cfg: Config, clock: int, nextWorker: Worker, row: Row, w: Worker, p: Proc)
    requires RowOk(cfg, clock, nextWorker, row) && ProcOk(clock, w, p, row)
    requires p.phase.Polling? && RenewRow(row, w, clock, Ttl(cfg)).Some?
    ensures var row' := RenewRow(row, w, clock, Ttl(cfg)).value;
      && RowOk(cfg, clock, nextWorker, row') && Tolerated(row, row', Some(w))
      && ProcOk(clock, w, p.(phase := Rearming, since := clock, beat := clock), row')
  {
  }

  lemma FinishOk(cfg: Config, clock: int, nextWorker: Worker, row: Row, w: Worker, p: Proc)
    requires RowOk(cfg, clock, nextWorker, row) && ProcOk(clock, w, p, row) && p.phase.Finishing?
    ensures var row' := FinishRow(row, p.phase.outcome);
      && RowOk(cfg, clock, nextWorker, row') && Tolerated(row, row', Some(w))
      && ProcOk(clock, w, p.(phase := Finalizing(p.phase.outcome)), row')
  {
  }

  lemma FinalizeOk(cfg: Config, clock: int, nextWorker: Worker, row: Row, w: Worker, p: Proc)
    requires RowOk(cfg, clock, nextWorker, row) && ProcOk(clock, w, p, row) && p.phase.Finalizing?
    ensures var row' := FinalizeRow(row, w, p.phase.outcome);
      && RowOk(cfg, clock, nextWorker, row') && Tolerated(row, row', Some(w))
      && ProcOk(clock, w, p.(phase := Releasing), row')
  {
  }

  lemma OpenOk(cfg: Config, clock: int, nextWorker: Worker, row: Row, w: Worker, p: Proc)
    requires RowOk(cfg, clock, nextWorker, row) && ProcOk(clock, w, p, row) && p.phase.Exited?
    ensures StoreGuard(row, p.version).Proceed? ==> OpenStore(row, p.version) == row
    ensures StoreGuard(row, p.version).AlreadyStored? ==> row.stores >= 1
  {
  }

  lemma CommitOk(cfg: Config, clock: int, nextWorker: Worker, row: Row, w: Worker, p: Proc, found: nat)
    requires RowOk(cfg, clock, nextWorker, row) && ProcOk(clock, w, p, row) && p.phase.Storing?
    ensures var row' := CommitStore(row, p.version, found);
      && RowOk(cfg, clock, nextWorker, row') && Tolerated(row, row', Some(w))
      && ProcOk(clock, w, p.(phase := Finishing(Completed)), row')
  {
  }

  lemma CancelOk(cfg: Config, clock: int, nextWorker: Worker, row: Row)
    requires RowOk(cfg, clock, nextWorker, row)
    ensures RowOk(cfg, clock, nextWorker, CancelRow(row, clock)) && Tolerated(row, CancelRow(row, clock), None)
  {
  }

  lemma ReconcileOk(cfg: Config, clock: int, nextWorker: Worker, row: Row)
    requires RowOk(cfg, clock, nextWorker, row)
    ensures RowOk(cfg, clock, nextWorker, ReconcileRow(row, clock, cfg.timeout))
    ensures Tolerated(row, ReconcileRow(row, clock, cfg.timeout), None)
  {
  }

  // ----- every step -----

  lemma TickKeeps(cfg: Config, s: State, to: int)
    requires Inv(cfg, s) && s.clock <= to
    ensures Inv(cfg, s.(clock := to))
  {
  }

  lemma EnqueueKeeps(cfg: Config, s: State, repo: string)
    requires Inv(cfg, s) && ValidConfig(cfg)
    ensures Inv(cfg, s.(table := s.table[s.nextJob := NewRow(repo, s.clock)], nextJob := s.nextJob + 1))
  {
  }

  lemma CheckKeeps(cfg: Config, s: State, job: nat, replica: nat)
    requires Inv(cfg, s) && job in s.table && Dispatchable(s.table[job].job.status)
    ensures Inv(cfg, Apply(cfg, s, Check(job, replica)))
  {
  }

  lemma LeaveKeeps(cfg: Config, s: State, w: Worker)
    requires Inv(cfg, s) && Has(s, w)
    ensures Inv(cfg, Leave(s, w))
  {
    var j := s.procs[w].job;
    var released := s.(table := s.table[j := ReleaseRow(s.table[j], w)]);
    hide RowOk, ProcOk, Tolerated;
    forall k | k in s.table ensures RowOk(cfg, s.clock, s.nextWorker, released.table[k]) && Tolerated(s.table[k], released.table[k], None) {
      LeaseOnly(cfg, s.clock, s.nextWorker, s.table[k], released.table[k]);
    }
    RowsKeep(cfg, s, released);
    FewerProcsKeep(cfg, released, Leave(s, w));
  }

  lemma ReserveKeeps(cfg: Config, s: State, w: Worker)
    requires Inv(cfg, s) && Enabled(cfg, s, Reserve(w))
    ensures Inv(cfg, Apply(cfg, s, Reserve(w)))
  {
    var p := s.procs[w];
    if p.replica in s.slots {
      FewerProcsKeep(cfg, s, s.(procs := s.procs - {w}));
    } else {
      StepKeeps(cfg, s, Apply(cfg, s, Reserve(w)), w, RowOf(s, w), p.(phase := Admitted));
    }
  }

  lemma AcquireKeeps(cfg: Config, s: State, w: Worker)
    requires Inv(cfg, s) && Enabled(cfg, s, Acquire(w))
    ensures Inv(cfg, Apply(cfg, s, Acquire(w)))
  {
    match AcquireRow(RowOf(s, w), w, s.clock, Ttl(cfg), cfg.evicts) {
      case None => LeaveKeeps(cfg, s, w);
      case Some(row) =>
        LeaseOnly(cfg, s.clock, s.nextWorker, RowOf(s, w), row);
        StepKeeps(cfg, s, Apply(cfg, s, Acquire(w)), w, row, s.procs[w].(phase := Leased));
    }
  }

  lemma ClaimKeeps(cfg: Config, s: State, w: Worker)
    requires Inv(cfg, s) && Enabled(cfg, s, Claim(w))
    ensures Inv(cfg, Apply(cfg, s, Claim(w)))
  {
    var row := RowOf(s, w);
    if Claimable(row.dispatch, s.clock) {
      ClaimOk(cfg, s.clock, s.nextWorker, row, w, s.procs[w]);
      var row' := ClaimRow(row, w, s.clock, Ttl(cfg)).value;
      var p' := s.procs[w].(phase := Starting, since := s.clock, beat := s.clock, version := row'.dispatch.version);
      StepKeeps(cfg, s, Apply(cfg, s, Claim(w)), w, row', p');
    } else {
      LeaveKeeps(cfg, s, w);
    }
  }

  lemma RenewKeeps(cfg: Config, s: State, w: Worker)
    requires Inv(cfg, s) && Enabled(cfg, s, Renew(w))
    ensures Inv(cfg, Apply(cfg, s, Renew(w)))
  {
    var row, p := RowOf(s, w), s.procs[w];
    match RenewRow(row, w, s.clock, Ttl(cfg)) {
      case None => StepKeeps(cfg, s, Apply(cfg, s, Renew(w)), w, row, p.(phase := Finishing(Failed), since := s.clock));
      case Some(row') =>
        RenewOk(cfg, s.clock, s.nextWorker, row, w, p);
        StepKeeps(cfg, s, Apply(cfg, s, Renew(w)), w, row', p.(phase := Rearming, since := s.clock, beat := s.clock));
    }
  }

  /** Steps of a supervisor that write no row. */
  lemma LocalKeeps(cfg: Config, s: State, w: Worker, p': Proc)
    requires Inv(cfg, s) && Has(s, w) && !BeforeClaim(s.procs[w].phase)
    requires p' == s.procs[w].(phase := p'.phase, since := p'.since, due := p'.due, started := p'.started)
    requires !BeforeClaim(p'.phase) && !p'.phase.Finalizing? && !p'.phase.Releasing? && p'.since <= s.clock
    requires p'.phase == Finishing(Completed) ==> RowOf(s, w).stores >= 1
    ensures Inv(cfg, s.(procs := s.procs[w := p']))
  {
    var s' := s.(procs := s.procs[w := p']);
    assert s'.table == s.table[s.procs[w].job := RowOf(s, w)];
    StepKeeps(cfg, s, s', w, RowOf(s, w), p');
  }

  lemma OpenKeeps(cfg: Config, s: State, w: Worker)
    requires Inv(cfg, s) && Enabled(cfg, s, Open(w))
    ensures Inv(cfg, Apply(cfg, s, Open(w)))
  {
    var row, p := RowOf(s, w), s.procs[w];
    OpenOk(cfg, s.clock, s.nextWorker, row, w, p);
    match StoreGuard(row, p.version) {
      case AlreadyStored => LocalKeeps(cfg, s, w, p.(phase := Finishing(Completed)));
      case NotActive => LocalKeeps(cfg, s, w, p.(phase := Finishing(Failed)));
      case Proceed =>
        LocalKeeps(cfg, s, w, p.(phase := Storing));
        assert Apply(cfg, s, Open(w)) == s.(procs := s.procs[w := p.(phase := Storing)]);
    }
  }

  lemma CommitKeeps(cfg: Config, s: State, w: Worker, found: nat)
    requires Inv(cfg, s) && Enabled(cfg, s, Commit(w, found))
    ensures Inv(cfg, Apply(cfg, s, Commit(w, found)))
  {
    CommitOk(cfg, s.clock, s.nextWorker, RowOf(s, w), w, s.procs[w], found);
    StepKeeps(cfg, s, Apply(cfg, s, Commit(w, found)), w, CommitStore(RowOf(s, w), s.procs[w].version, found),
              s.procs[w].(phase := Finishing(Completed)));
  }

  lemma FinishKeeps(cfg: Config, s: State, w: Worker)
    requires Inv(cfg, s) && Enabled(cfg, s, Finish(w))
    ensures Inv(cfg, Apply(cfg, s, Finish(w)))
  {
    var outcome := s.procs[w].phase.outcome;
    FinishOk(cfg, s.clock, s.nextWorker, RowOf(s, w), w, s.procs[w]);
    StepKeeps(cfg, s, Apply(cfg, s, Finish(w)), w, FinishRow(RowOf(s, w), outcome), s.procs[w].(phase := Finalizing(outcome)));
  }

  lemma FinalizeKeeps(cfg: Config, s: State, w: Worker)
    requires Inv(cfg, s) && Enabled(cfg, s, Finalize(w))
    ensures Inv(cfg, Apply(cfg, s, Finalize(w)))
  {
    FinalizeOk(cfg, s.clock, s.nextWorker, RowOf(s, w), w, s.procs[w]);
    StepKeeps(cfg, s, Apply(cfg, s, Finalize(w)), w, FinalizeRow(RowOf(s, w), w, s.procs[w].phase.outcome),
              s.procs[w].(phase := Releasing));
  }

  lemma SignalKeeps(cfg: Config, s: State, job: nat, replica: nat)
    requires Inv(cfg, s)
    ensures Inv(cfg, s.(procs := Signal(s, job, replica)))
  {
  }

  lemma CancelKeeps(cfg: Config, s: State, job: nat, replica: nat)
    requires Inv(cfg, s) && job in s.table
    ensures Inv(cfg, Apply(cfg, s, Cancel(job, replica)))
  {
    SignalKeeps(cfg, s, job, replica);
    var signalled := s.(procs := Signal(s, job, replica));
    var s' := Apply(cfg, s, Cancel(job, replica));
    CancelOk(cfg, s.clock, s.nextWorker, s.table[job]);
    forall j | j in s.table ensures RowOk(cfg, s.clock, s.nextWorker, s'.table[j]) && Tolerated(s.table[j], s'.table[j], None) {
      LeaseOnly(cfg, s.clock, s.nextWorker, s.table[j], s.table[j]);
    }
    RowsKeep(cfg, signalled, s');
  }

  lemma ReconcileKeeps(cfg: Config, s: State)
    requires Inv(cfg, s)
    ensures Inv(cfg, Apply(cfg, s, Reconcile))
  {
    forall j | j in s.table { ReconcileOk(cfg, s.clock, s.nextWorker, s.table[j]); }
    RowsKeep(cfg, s, Apply(cfg, s, Reconcile));
  }

  lemma ExpireLeasesKeeps(cfg: Config, s: State, cutoff: int)
    requires Inv(cfg, s) && cutoff <= s.clock
    ensures Inv(cfg, Apply(cfg, s, ExpireLeases(cutoff)))
  {
    forall j | j in s.table { LeaseOnly(cfg, s.clock, s.nextWorker, s.table[j], ExpireRow(s.table[j], cutoff)); }
    RowsKeep(cfg, s, Apply(cfg, s, ExpireLeases(cutoff)));
  }

  /** The invariant holds after every step, whichever process takes it and however late. */
  lemma ApplyKeeps(cfg: Config, s: State, step: Step)
    requires Inv(cfg, s) && ValidConfig(cfg) && Enabled(cfg, s, step)
    ensures Inv(cfg, Apply(cfg, s, step))
  {
    hide Inv;
    match step
    case Tick(to) => TickKeeps(cfg, s, to);
    case Enqueue(repo) => EnqueueKeeps(cfg, s, repo);
    case Check(job, replica) => CheckKeeps(cfg, s, job, replica);
    case Reserve(w) => ReserveKeeps(cfg, s, w);
    case Acquire(w) => AcquireKeeps(cfg, s, w);
    case Claim(w) => ClaimKeeps(cfg, s, w);
    case Begin(w) =>
      LocalKeeps(cfg, s, w, s.procs[w].(phase := Polling, since := s.clock, started := s.clock, due := s.clock + cfg.interval));
    case Turn(w) => LocalKeeps(cfg, s, w, s.procs[w].(since := s.clock));
    case SeeCancel(w) => LocalKeeps(cfg, s, w, s.procs[w].(phase := Finishing(Cancelled), since := s.clock));
    case Renew(w) => RenewKeeps(cfg, s, w);
    case Rearm(w) => LocalKeeps(cfg, s, w, s.procs[w].(phase := Polling, since := s.clock, due := s.clock + cfg.interval));
    case Expire(w) => LocalKeeps(cfg, s, w, s.procs[w].(phase := Finishing(TimedOut), since := s.clock));
    case WorkerExit(w) => LocalKeeps(cfg, s, w, s.procs[w].(phase := Exited, since := s.clock));
    case Break(w) => BreakKeeps(cfg, s, w);
    case Open(w) => OpenKeeps(cfg, s, w);
    case Commit(w, found) => CommitKeeps(cfg, s, w, found);
    case Unconfirmed(w) => UnconfirmedKeeps(cfg, s, w);
    case Finish(w) => FinishKeeps(cfg, s, w);
    case Finalize(w) => FinalizeKeeps(cfg, s, w);
    case Release(w) => LeaveKeeps(cfg, s, w);
    case Cancel(job, replica) => CancelKeeps(cfg, s, job, replica);
    case Reconcile => ReconcileKeeps(cfg, s);
    case ExpireLeases(cutoff) => ExpireLeasesKeeps(cfg, s, cutoff);
    case Crash(replica) => CrashKeeps(cfg, s, replica);
  }

  lemma BreakKeeps(cfg: Config, s: State, w: Worker)
    requires Inv(cfg, s) && Enabled(cfg, s, Break(w))
    ensures Inv(cfg, Apply(cfg, s, Break(w)))
  {
    var p := s.procs[w];
    LocalKeeps(cfg, s, w, p.(phase := Finishing(Failed), since := if InPersist(p.phase) then p.since else s.clock));
  }

  lemma UnconfirmedKeeps(cfg: Config, s: State, w: Worker)
    requires Inv(cfg, s) && Enabled(cfg, s, Unconfirmed(w))
    ensures Inv(cfg, Apply(cfg, s, Unconfirmed(w)))
  {
    LocalKeeps(cfg, s, w, s.procs[w].(phase := Finishing(Failed)));
  }

  lemma CrashKeeps(cfg: Config, s: State, replica: nat)
    requires Inv(cfg, s)
    ensures Inv(cfg, Apply(cfg, s, Crash(replica)))
  {
    FewerProcsKeep(cfg, s, Apply(cfg, s, Crash(replica)));
  }

  lemma {:induction false} RunKeeps(cfg: Config, run: seq<State>, steps: seq<Step>, i: nat)
    requires ValidConfig(cfg) && IsRun(cfg, run, steps) && i < |run|
    ensures Inv(cfg, run[i])
  {
    if i > 0 {
      RunKeeps(cfg, run, steps, i - 1);
      assert Follows(cfg, run[i - 1], steps[i - 1], run[i - 1 + 1]);
      ApplyKeeps(cfg, run[i - 1], steps[i - 1]);
    }
  }
}
