/**
  Runs that are too late: why the hypotheses of the safety results are needed.
 */
module ScanLate {
  import opened Options
  import opened ScanRows
  import opened ScanProtocol
  import opened ScanInvariant
  import opened ScanHistory
  import opened ScanLeases
  import opened ScanSafety
  import opened ScanTiming

  /** Some run ends in s; on it every dispatcher is prompt and every supervisor punctual, if that is asked for. */
  ghost predicate Reaches(cfg: Config, s: State, promptly: bool, punctually: bool) {
    exists run: seq<State>, steps: seq<Step> ::
      IsRun(cfg, run, steps) && (promptly ==> PromptRun(cfg, run)) && (punctually ==> PunctualRun(cfg, run)) && run[|run| - 1] == s
  }

  lemma ReachesInit(cfg: Config)
    ensures Reaches(cfg, Init(0), true, true)
  {
    var run: seq<State>, steps: seq<Step> := [Init(0)], [];
    assert IsRun(cfg, run, steps) && PromptRun(cfg, run) && PunctualRun(cfg, run);
  }

  lemma ReachesNext(cfg: Config, s: State, step: Step, s': State, promptly: bool, punctually: bool)
    requires Reaches(cfg, s, promptly, punctually) && Follows(cfg, s, step, s')
    requires (promptly ==> Prompt(cfg, s')) && (punctually ==> Punctual(cfg, s'))
    ensures Reaches(cfg, s', promptly, punctually)
  {
    hide Follows, Prompt, Punctual;
    var run: seq<State>, steps: seq<Step> :|
      IsRun(cfg, run, steps) && (promptly ==> PromptRun(cfg, run)) && (punctually ==> PunctualRun(cfg, run)) && run[|run| - 1] == s;
    var run', steps' := run + [s'], steps + [step];
    forall i | 0 <= i < |steps'| ensures Follows(cfg, run'[i], steps'[i], run'[i + 1]) {
      if i < |steps| { assert Follows(cfg, run[i], steps[i], run[i + 1]); }
    }
    assert IsRun(cfg, run', steps');
  }

  lemma Relax(cfg: Config, s: State, promptly: bool, punctually: bool)
    requires Reaches(cfg, s, true, true)
    ensures Reaches(cfg, s, promptly, punctually)
  {
  }

  // ----- one job, two dispatchers on two replicas -----

  function Two(clock: int, row: Row, p: Proc, q: Proc, slots: map<nat, Worker>): State {
    State(clock, map[0 := row], map[0 := p, 1 := q], slots, 1, 2)
  }

  function Waiter(phase: Phase): Proc { Proc(1, 0, phase, 0, 0, 0, 0, 0, 0, false) }

  function Runner(phase: Phase, due: int, version: nat): Proc { Proc(0, 0, phase, 0, 0, 0, due, 0, version, false) }

  function LeasedRow(cfg: Config): Row { NewRow("repo", 0).(lease := Some(Lease(Some(0), Ttl(cfg), false))) }

  function RunningRow(cfg: Config): Row {
    Row(Job("repo", Running, 0, 0, 0),
        Dispatch(1, Claimed, 0, Some(0), Some(Ttl(cfg)), Some(0), None, 1),
        Some(Lease(Some(0), Ttl(cfg), false)), 0, [0], 0)
  }

  lemma UpToChecked(cfg: Config)
    requires ValidConfig(cfg)
    ensures Reaches(cfg, State(0, map[0 := NewRow("repo", 0)], map[0 := Runner(Checked, 0, 0)], map[], 1, 1), true, true)
  {
    hide Reaches;
    ReachesInit(cfg);
    var row := NewRow("repo", 0);
    var s1 := State(0, map[0 := row], map[], map[], 1, 0);
    ReachesNext(cfg, Init(0), Enqueue("repo"), s1, true, true);
    var s2 := State(0, map[0 := row], map[0 := Runner(Checked, 0, 0)], map[], 1, 1);
    ReachesNext(cfg, s1, Check(0, 0), s2, true, true);
  }

  lemma UpToClaim(cfg: Config)
    requires ValidConfig(cfg)
    ensures Reaches(cfg, Two(0, LeasedRow(cfg), Runner(Leased, 0, 0), Waiter(Checked), map[0 := 0]), true, true)
  {
    hide Reaches, Occupied;
    UpToChecked(cfg);
    var row := NewRow("repo", 0);
    var s2 := State(0, map[0 := row], map[0 := Runner(Checked, 0, 0)], map[], 1, 1);
    var s3 := Two(0, row, Runner(Checked, 0, 0), Waiter(Checked), map[]);
    ReachesNext(cfg, s2, Check(0, 1), s3, true, true);
    var s4 := Two(0, row, Runner(Admitted, 0, 0), Waiter(Checked), map[0 := 0]);
    ReachesNext(cfg, s3, Reserve(0), s4, true, true);
    var s5 := Two(0, LeasedRow(cfg), Runner(Leased, 0, 0), Waiter(Checked), map[0 := 0]);
    ReachesNext(cfg, s4, Acquire(0), s5, true, true);
  }

  lemma UpToStarting(cfg: Config)
    requires ValidConfig(cfg)
    ensures Reaches(cfg, Two(0, RunningRow(cfg), Runner(Starting, 0, 1), Waiter(Checked), map[0 := 0]), true, true)
  {
    hide Reaches, Occupied;
    UpToClaim(cfg);
    var s5 := Two(0, LeasedRow(cfg), Runner(Leased, 0, 0), Waiter(Checked), map[0 := 0]);
    var s6 := Two(0, RunningRow(cfg), Runner(Starting, 0, 1), Waiter(Checked), map[0 := 0]);
    var claimants: seq<Worker> := [];
    assert claimants + [0] == [0];
    assert ClaimRow(LeasedRow(cfg), 0, 0, Ttl(cfg)) == Some(RunningRow(cfg));
    assert Apply(cfg, s5, Claim(0)) == s6;
    ReachesNext(cfg, s5, Claim(0), s6, true, true);
  }

  lemma UpToExited(cfg: Config)
    requires ValidConfig(cfg)
    ensures Reaches(cfg, Two(0, RunningRow(cfg), Runner(Exited, cfg.interval, 1), Waiter(Checked), map[0 := 0]), true, true)
  {
    hide Reaches, Occupied;
    UpToStarting(cfg);
    var s6 := Two(0, RunningRow(cfg), Runner(Starting, 0, 1), Waiter(Checked), map[0 := 0]);
    var s7 := Two(0, RunningRow(cfg), Runner(Polling, cfg.interval, 1), Waiter(Checked), map[0 := 0]);
    ReachesNext(cfg, s6, Begin(0), s7, true, true);
    var s8 := Two(0, RunningRow(cfg), Runner(Exited, cfg.interval, 1), Waiter(Checked), map[0 := 0]);
    ReachesNext(cfg, s7, WorkerExit(0), s8, true, true);
  }

  lemma UpToStoring(cfg: Config)
    requires ValidConfig(cfg)
    ensures Reaches(cfg, Two(0, RunningRow(cfg), Runner(Storing, cfg.interval, 1), Waiter(Checked), map[0 := 0]), true, true)
  {
    hide Reaches, Occupied;
    UpToExited(cfg);
    var s8 := Two(0, RunningRow(cfg), Runner(Exited, cfg.interval, 1), Waiter(Checked), map[0 := 0]);
    var s9 := Two(0, RunningRow(cfg), Runner(Storing, cfg.interval, 1), Waiter(Checked), map[0 := 0]);
    ReachesNext(cfg, s8, Open(0), s9, true, true);
  }

  /**
    Without punctual supervisors a terminal status can be overwritten: the final persist is between
    its two commits for longer than the grace period, the job is closed as failed, and the second
    commit completes it all the same.
   */
  lemma LateCommitOverwrites(cfg: Config) returns (s: State, step: Step)
    requires ValidConfig(cfg)
    ensures Reaches(cfg, s, true, false) && Enabled(cfg, s, step) && 0 in s.table && 0 in Apply(cfg, s, step).table
    ensures s.table[0].job.status == Ended(Failed)
    ensures Apply(cfg, s, step).table[0].job.status == Ended(Completed)
  {
    hide Reaches, Occupied;
    UpToStoring(cfg);
    var late := GRACE + 1;
    var p := Runner(Storing, cfg.interval, 1);
    var s9 := Two(0, RunningRow(cfg), p, Waiter(Checked), map[0 := 0]);
    Relax(cfg, s9, true, false);
    var s10 := Two(late, RunningRow(cfg), p, Waiter(Checked), map[0 := 0]);
    ReachesNext(cfg, s9, Tick(late), s10, true, false);
    s := Two(late, ReconcileRow(RunningRow(cfg), late, cfg.timeout), p, Waiter(Checked), map[0 := 0]);
    ReachesNext(cfg, s10, Reconcile, s, true, false);
    step := Commit(0, 3);
  }

  /**
    If expired leases are replaced, then with late dispatchers and late supervisors a job can have two
    supervisors and its results be stored twice: the second dispatcher saw the job queued, and claims
    it after the first claim has expired.
   */
  lemma LateClaimStoresTwice(cfg: Config) returns (s: State)
    requires ValidConfig(cfg) && cfg.evicts
    ensures Reaches(cfg, s, false, false) && 0 in s.table
    ensures s.table[0].dispatch.attempts == 2 && s.table[0].stores == 2
    ensures s.table[0].assets == 6 && s.table[0].job.assetsFound == 3
  {
    hide Reaches, Occupied;
    UpToStoring(cfg);
    var t := Ttl(cfg) + 1;
    var p := Runner(Storing, cfg.interval, 1);
    var slots := map[0 := 0, 1 := 1];
    var s9 := Two(0, RunningRow(cfg), p, Waiter(Checked), map[0 := 0]);
    Relax(cfg, s9, false, false);
    var s10 := Two(t, RunningRow(cfg), p, Waiter(Checked), map[0 := 0]);
    ReachesNext(cfg, s9, Tick(t), s10, false, false);
    var s11 := Two(t, RunningRow(cfg), p, Waiter(Admitted), slots);
    ReachesNext(cfg, s10, Reserve(1), s11, false, false);
    var leased := RunningRow(cfg).(lease := Some(Lease(Some(1), t + Ttl(cfg), false)));
    var s12 := Two(t, leased, p, Waiter(Leased), slots);
    ReachesNext(cfg, s11, Acquire(1), s12, false, false);
    s := TakenOver(cfg, s12);
  }

  /** The second supervisor, seen from the moment it holds the lease. */
  function Taker(phase: Phase, t: int, due: int, version: nat): Proc { Proc(1, 0, phase, 0, t, t, due, t, version, false) }

  function TakenRow(cfg: Config): Row {
    var t := Ttl(cfg) + 1;
    Row(Job("repo", Running, t, 0, 0),
        Dispatch(1, Claimed, 0, Some(1), Some(t + Ttl(cfg)), Some(t), None, 2),
        Some(Lease(Some(1), t + Ttl(cfg), false)), 0, [0, 1], 0)
  }

  lemma TakenOver(cfg: Config, s12: State) returns (s: State)
    requires ValidConfig(cfg) && Reaches(cfg, s12, false, false)
    requires s12 == Two(Ttl(cfg) + 1, RunningRow(cfg).(lease := Some(Lease(Some(1), Ttl(cfg) + 1 + Ttl(cfg), false))),
                        Runner(Storing, cfg.interval, 1), Waiter(Leased), map[0 := 0, 1 := 1])
    ensures Reaches(cfg, s, false, false) && 0 in s.table
    ensures s.table[0].dispatch.attempts == 2 && s.table[0].stores == 2
    ensures s.table[0].assets == 6 && s.table[0].job.assetsFound == 3
  {
    hide Reaches, Occupied;
    var t := Ttl(cfg) + 1;
    var p := Runner(Storing, cfg.interval, 1);
    var slots := map[0 := 0, 1 := 1];
    assert [0] + [1] == [0, 1];
    assert ClaimRow(s12.table[0], 1, t, Ttl(cfg)) == Some(TakenRow(cfg));
    var s13 := Two(t, TakenRow(cfg), p, Waiter(Starting).(since := t, beat := t, version := 1), slots);
    ReachesNext(cfg, s12, Claim(1), s13, false, false);
    var s14 := Two(t, TakenRow(cfg), p, Taker(Polling, t, t + cfg.interval, 1), slots);
    ReachesNext(cfg, s13, Begin(1), s14, false, false);
    var s15 := Two(t, TakenRow(cfg), p, Taker(Exited, t, t + cfg.interval, 1), slots);
    ReachesNext(cfg, s14, WorkerExit(1), s15, false, false);
    s := BothStore(cfg, s15);
  }

  lemma BothStore(cfg: Config, s15: State) returns (s: State)
    requires ValidConfig(cfg) && Reaches(cfg, s15, false, false)
    requires s15 == Two(Ttl(cfg) + 1, TakenRow(cfg), Runner(Storing, cfg.interval, 1),
                        Taker(Exited, Ttl(cfg) + 1, Ttl(cfg) + 1 + cfg.interval, 1), map[0 := 0, 1 := 1])
    ensures Reaches(cfg, s, false, false) && 0 in s.table
    ensures s.table[0].dispatch.attempts == 2 && s.table[0].stores == 2
    ensures s.table[0].assets == 6 && s.table[0].job.assetsFound == 3
  {
    hide Reaches, Occupied;
    var t := Ttl(cfg) + 1;
    var p, q, slots := s15.procs[0], s15.procs[1].(phase := Storing), s15.slots;
    var s16 := Two(t, TakenRow(cfg), p, q, slots);
    ReachesNext(cfg, s15, Open(1), s16, false, false);
    Stores(cfg, t, TakenRow(cfg), p, q, slots);
    var done := p.(phase := Finishing(Completed));
    var row := CommitStore(TakenRow(cfg), 1, 3);
    StoresToo(cfg, t, row, done, q, slots);
    s := Two(t, CommitStore(row, 1, 3), done, q.(phase := Finishing(Completed)), slots);
  }

  lemma Stores(cfg: Config, t: int, row: Row, p: Proc, q: Proc, slots: map<nat, Worker>)
    requires Reaches(cfg, Two(t, row, p, q, slots), false, false) && p.phase.Storing? && p.job == 0 && p.version == 1
    ensures Reaches(cfg, Two(t, CommitStore(row, 1, 3), p.(phase := Finishing(Completed)), q, slots), false, false)
  {
    hide Reaches, Occupied;
    ReachesNext(cfg, Two(t, row, p, q, slots), Commit(0, 3),
                Two(t, CommitStore(row, 1, 3), p.(phase := Finishing(Completed)), q, slots), false, false);
  }

  lemma StoresToo(cfg: Config, t: int, row: Row, p: Proc, q: Proc, slots: map<nat, Worker>)
    requires Reaches(cfg, Two(t, row, p, q, slots), false, false) && q.phase.Storing? && q.job == 0 && q.version == 1
    ensures Reaches(cfg, Two(t, CommitStore(row, 1, 3), p, q.(phase := Finishing(Completed)), slots), false, false)
  {
    hide Reaches, Occupied;
    ReachesNext(cfg, Two(t, row, p, q, slots), Commit(1, 3),
                Two(t, CommitStore(row, 1, 3), p, q.(phase := Finishing(Completed)), slots), false, false);
  }

  // ----- late dispatchers, punctual supervisors -----

  /** The row after the first supervisor has stored its result. */
  function StoredRow(cfg: Config): Row { CommitStore(RunningRow(cfg), 1, 3) }

  lemma UpToStored(cfg: Config)
    requires ValidConfig(cfg)
    ensures Reaches(cfg, State(0, map[0 := StoredRow(cfg)], map[1 := Waiter(Checked)], map[], 1, 2), true, true)
  {
    hide Reaches, Occupied;
    UpToStoring(cfg);
    var s9 := Two(0, RunningRow(cfg), Runner(Storing, cfg.interval, 1), Waiter(Checked), map[0 := 0]);
    var s10 := Two(0, StoredRow(cfg), Runner(Finishing(Completed), cfg.interval, 1), Waiter(Checked), map[0 := 0]);
    ReachesNext(cfg, s9, Commit(0, 3), s10, true, true);
    var s11 := State(0, map[0 := StoredRow(cfg)], map[1 := Waiter(Checked)], map[], 1, 2);
    ReachesNext(cfg, s10, Crash(0), s11, true, true);
  }

  /**
    If expired leases are replaced, late dispatchers alone are enough to overwrite a terminal status:
    the supervisor is lost after storing its result, before it closes the dispatch, and the claim that
    takes over makes a completed job run.
   */
  lemma LateClaimOverwrites(cfg: Config) returns (s: State, step: Step)
    requires ValidConfig(cfg) && cfg.evicts
    ensures Reaches(cfg, s, false, true) && Enabled(cfg, s, step) && 0 in s.table && 0 in Apply(cfg, s, step).table
    ensures s.table[0].job.status == Ended(Completed) && Apply(cfg, s, step).table[0].job.status == Running
  {
    hide Reaches, Occupied;
    UpToStored(cfg);
    var t := Ttl(cfg) + 1;
    var s11 := State(0, map[0 := StoredRow(cfg)], map[1 := Waiter(Checked)], map[], 1, 2);
    Relax(cfg, s11, false, true);
    var s12 := State(t, map[0 := StoredRow(cfg)], map[1 := Waiter(Checked)], map[], 1, 2);
    ReachesNext(cfg, s11, Tick(t), s12, false, true);
    var s13 := State(t, map[0 := StoredRow(cfg)], map[1 := Waiter(Admitted)], map[1 := 1], 1, 2);
    ReachesNext(cfg, s12, Reserve(1), s13, false, true);
    var leased := StoredRow(cfg).(lease := Some(Lease(Some(1), t + Ttl(cfg), false)));
    s := State(t, map[0 := leased], map[1 := Waiter(Leased)], map[1 := 1], 1, 2);
    ReachesNext(cfg, s13, Acquire(1), s, false, true);
    step := Claim(1);
  }

  /** A dispatcher lost between lease and claim strands its job, when lease rows stand, at once. */
  lemma LostDispatcherStrands(cfg: Config) returns (s: State)
    requires ValidConfig(cfg)
    ensures Reaches(cfg, s, true, true) && Stranded(s, 0)
  {
    hide Reaches, Occupied;
    UpToClaim(cfg);
    var s5 := Two(0, LeasedRow(cfg), Runner(Leased, 0, 0), Waiter(Checked), map[0 := 0]);
    s := State(0, map[0 := LeasedRow(cfg)], map[1 := Waiter(Checked)], map[], 1, 2);
    ReachesNext(cfg, s5, Crash(0), s, true, true);
  }

  // ----- the exact bound -----

  /** One supervisor alone. */
  function Alone(clock: int, row: Row, p: Proc): State { State(clock, map[0 := row], map[0 := p], map[0 := 0], 1, 1) }

  lemma AloneUpToStarting(cfg: Config)
    requires ValidConfig(cfg)
    ensures Reaches(cfg, Alone(0, RunningRow(cfg), Runner(Starting, 0, 1)), true, true)
  {
    hide Reaches, Occupied;
    UpToChecked(cfg);
    var row := NewRow("repo", 0);
    var s2 := State(0, map[0 := row], map[0 := Runner(Checked, 0, 0)], map[], 1, 1);
    ReachesNext(cfg, s2, Reserve(0), Alone(0, row, Runner(Admitted, 0, 0)), true, true);
    ReachesNext(cfg, Alone(0, row, Runner(Admitted, 0, 0)), Acquire(0), Alone(0, LeasedRow(cfg), Runner(Leased, 0, 0)), true, true);
    AloneClaims(cfg);
  }

  lemma AloneClaims(cfg: Config)
    requires ValidConfig(cfg) && Reaches(cfg, Alone(0, LeasedRow(cfg), Runner(Leased, 0, 0)), true, true)
    ensures Reaches(cfg, Alone(0, RunningRow(cfg), Runner(Starting, 0, 1)), true, true)
  {
    hide Reaches;
    var s, s' := Alone(0, LeasedRow(cfg), Runner(Leased, 0, 0)), Alone(0, RunningRow(cfg), Runner(Starting, 0, 1));
    var claimants: seq<Worker> := [];
    assert claimants + [0] == [0];
    assert ClaimRow(LeasedRow(cfg), 0, 0, Ttl(cfg)) == Some(RunningRow(cfg));
    ReachesNext(cfg, s, Claim(0), s', true, true);
  }

  /** Poll turns, each no longer than allowed, until any moment before the next heartbeat is due. */
  lemma {:induction false} PollUntil(cfg: Config, row: Row, p: Proc, t: int)
    requires ValidConfig(cfg) && p.phase.Polling? && p.job == 0 && p.replica == 0
    requires Reaches(cfg, Alone(p.since, row, p), true, true) && p.since <= t < p.due
    ensures Reaches(cfg, Alone(t, row, p.(since := t)), true, true)
    decreases t - p.since
  {
    hide Reaches;
    if p.since < t {
      var next := if p.since + cfg.turn < t then p.since + cfg.turn else t;
      ReachesNext(cfg, Alone(p.since, row, p), Tick(next), Alone(next, row, p), true, true);
      ReachesNext(cfg, Alone(next, row, p), Turn(0), Alone(next, row, p.(since := next)), true, true);
      PollUntil(cfg, row, p.(since := next), t);
    }
  }

  /** From the last poll turn before a heartbeat is due, the longest way to the second commit. */
  lemma LongWay(cfg: Config, row: Row, p: Proc)
    requires ValidConfig(cfg) && p.phase.Polling? && p.job == 0 && p.replica == 0 && p.since < p.due && p.version == 1
    requires Reaches(cfg, Alone(p.since, row, p), true, true) && row.job.status == Running && row.job.resultVersion == 0
    ensures var t := p.due - 1 + cfg.turn;
      Reaches(cfg, Alone(t + cfg.final, row, p.(phase := Storing, since := t)), true, true)
  {
    hide Reaches;
    PollUntil(cfg, row, p, p.due - 1);
    var t, q := p.due - 1 + cfg.turn, p.(since := p.due - 1);
    ReachesNext(cfg, Alone(p.due - 1, row, q), Tick(t), Alone(t, row, q), true, true);
    ReachesNext(cfg, Alone(t, row, q), WorkerExit(0), Alone(t, row, p.(phase := Exited, since := t)), true, true);
    LongPersist(cfg, row, p.(phase := Exited, since := t));
  }

  lemma LongPersist(cfg: Config, row: Row, p: Proc)
    requires ValidConfig(cfg) && p.phase.Exited? && p.job == 0 && p.replica == 0 && p.version == 1
    requires Reaches(cfg, Alone(p.since, row, p), true, true) && row.job.status == Running && row.job.resultVersion == 0
    ensures Reaches(cfg, Alone(p.since + cfg.final, row, p.(phase := Storing)), true, true)
  {
    hide Reaches;
    var t, storing := p.since, p.(phase := Storing);
    assert OpenStore(row, 1) == row;
    ReachesNext(cfg, Alone(t, row, p), Open(0), Alone(t, row, storing), true, true);
    ReachesNext(cfg, Alone(t, row, storing), Tick(t + cfg.final), Alone(t + cfg.final, row, storing), true, true);
  }

  /** The row after the claim has been renewed. */
  function RenewedRow(cfg: Config, now: int): Row {
    RunningRow(cfg).(lease := Some(Lease(Some(0), now + Ttl(cfg), false)),
                     dispatch := RunningRow(cfg).dispatch.(claimExpiresAt := Some(now + Ttl(cfg)), heartbeatAt := Some(now)))
  }

  /** A prompt and punctual run leads to the last moment before the second commit. */
  ghost predicate AtCommit(cfg: Config, row: Row, p: Proc) {
    && Reaches(cfg, Alone(p.since + cfg.final, row, p), true, true)
    && p.phase == Storing && p.job == 0 && row.job.status == Running
  }

  /** By setup: the first heartbeat is the claim. */
  lemma LongSetup(cfg: Config) returns (row: Row, p: Proc)
    requires ValidConfig(cfg)
    ensures AtCommit(cfg, row, p)
    ensures row.dispatch.heartbeatAt == Some(p.since - cfg.setup - cfg.interval + 1 - cfg.turn)
  {
    hide Reaches;
    AloneUpToStarting(cfg);
    row, p := RunningRow(cfg), Runner(Starting, 0, 1);
    ReachesNext(cfg, Alone(0, row, p), Tick(cfg.setup), Alone(cfg.setup, row, p), true, true);
    var q := p.(phase := Polling, since := cfg.setup, started := cfg.setup, due := cfg.setup + cfg.interval);
    ReachesNext(cfg, Alone(cfg.setup, row, p), Begin(0), Alone(cfg.setup, row, q), true, true);
    LongWay(cfg, row, q);
    p := q.(phase := Storing, since := q.due - 1 + cfg.turn);
  }

  lemma UpToRearming(cfg: Config)
    requires ValidConfig(cfg)
    ensures Reaches(cfg, Alone(cfg.interval, RenewedRow(cfg, cfg.interval),
                               Proc(0, 0, Rearming, 0, cfg.interval, cfg.interval, cfg.interval, 0, 1, false)), true, true)
  {
    hide Reaches;
    AloneUpToStarting(cfg);
    var row, p := RunningRow(cfg), Runner(Starting, 0, 1);
    var q := p.(phase := Polling, due := cfg.interval);
    ReachesNext(cfg, Alone(0, row, p), Begin(0), Alone(0, row, q), true, true);
    PollUntil(cfg, row, q, cfg.interval - 1);
    var r := q.(since := cfg.interval - 1);
    ReachesNext(cfg, Alone(cfg.interval - 1, row, r), Tick(cfg.interval), Alone(cfg.interval, row, r), true, true);
    ReachesNext(cfg, Alone(cfg.interval, row, r), Renew(0),
                Alone(cfg.interval, RenewedRow(cfg, cfg.interval),
                      Proc(0, 0, Rearming, 0, cfg.interval, cfg.interval, cfg.interval, 0, 1, false)), true, true);
  }

  /** By a renewal: the first heartbeat is renewed when it is due. */
  lemma LongRenewal(cfg: Config) returns (row: Row, p: Proc)
    requires ValidConfig(cfg)
    ensures AtCommit(cfg, row, p)
    ensures row.dispatch.heartbeatAt == Some(p.since - cfg.renewal - cfg.interval + 1 - cfg.turn)
  {
    hide Reaches;
    UpToRearming(cfg);
    row, p := RenewedRow(cfg, cfg.interval), Proc(0, 0, Rearming, 0, cfg.interval, cfg.interval, cfg.interval, 0, 1, false);
    var c := cfg.interval + cfg.renewal;
    ReachesNext(cfg, Alone(cfg.interval, row, p), Tick(c), Alone(c, row, p), true, true);
    var q := p.(phase := Polling, since := c, due := c + cfg.interval);
    ReachesNext(cfg, Alone(c, row, p), Rearm(0), Alone(c, row, q), true, true);
    LongWay(cfg, row, q);
    p := q.(phase := Storing, since := q.due - 1 + cfg.turn);
  }

  /** A longer gap than the grace period: prompt and punctual, and yet taken for abandoned. */
  lemma TooLongIsAbandoned(cfg: Config) returns (row: Row, p: Proc)
    requires ValidConfig(cfg) && !InTime(cfg)
    ensures AtCommit(cfg, row, p) && Abandoned(row, p.since + cfg.final)
  {
    hide AtCommit;
    if cfg.setup >= cfg.renewal { row, p := LongSetup(cfg); } else { row, p := LongRenewal(cfg); }
    assert row.job.status == Running by { AtCommitRuns(cfg, row, p); }
  }

  lemma AtCommitRuns(cfg: Config, row: Row, p: Proc)
    requires AtCommit(cfg, row, p)
    ensures row.job.status == Running
  {
  }

  /** On no punctual run a supervisor that is alive is taken for abandoned. */
  ghost predicate NeverAbandoned(cfg: Config) {
    forall run: seq<State>, steps: seq<Step>, i: nat, w: Worker ::
      IsRun(cfg, run, steps) && PunctualRun(cfg, run) && i < |run| && w in run[i].procs && Supervising(run[i].procs[w].phase) ==>
      Has(run[i], w) && !Abandoned(RowOf(run[i], w), run[i].clock)
  }

  /** Reconciliation spares the supervisors that are alive exactly when the longest gap fits into the grace period. */
  lemma InTimeIsExact(cfg: Config)
    requires ValidConfig(cfg)
    ensures NeverAbandoned(cfg) <==> InTime(cfg)
  {
    if InTime(cfg) {
      hide IsRun, PunctualRun, Abandoned;
      forall run: seq<State>, steps: seq<Step>, i: nat, w: Worker
        | IsRun(cfg, run, steps) && PunctualRun(cfg, run) && i < |run| && w in run[i].procs && Supervising(run[i].procs[w].phase)
        ensures Has(run[i], w) && !Abandoned(RowOf(run[i], w), run[i].clock)
      {
        PunctualRunIsSound(cfg, run, steps, i);
        BeatIsRecent(cfg, run[i], w);
      }
    } else {
      var row, p := TooLongIsAbandoned(cfg);
      var s := Alone(p.since + cfg.final, row, p);
      hide IsRun, PunctualRun, Abandoned, PromptRun;
      var run: seq<State>, steps: seq<Step> :| IsRun(cfg, run, steps) && PunctualRun(cfg, run) && run[|run| - 1] == s;
      RunNotEmpty(cfg, run, steps);
      var i: nat := |run| - 1;
      assert run[i] == s && s.procs[0] == p && RowOf(s, 0) == row;
    }
  }

  lemma RunNotEmpty(cfg: Config, run: seq<State>, steps: seq<Step>)
    requires IsRun(cfg, run, steps)
    ensures |run| > 0
  {
  }

  /** And then the second commit completes the job that was closed as failed, although everybody is prompt and punctual. */
  lemma TooLongOverwrites(cfg: Config) returns (s: State, step: Step)
    requires ValidConfig(cfg) && !InTime(cfg)
    ensures Reaches(cfg, s, true, true) && Enabled(cfg, s, step) && 0 in s.table && 0 in Apply(cfg, s, step).table
    ensures s.table[0].job.status.Ended? && s.table[0].job.status != Ended(Completed)
    ensures Apply(cfg, s, step).table[0].job.status == Ended(Completed)
  {
    var row, p := TooLongIsAbandoned(cfg);
    hide Reaches;
    var c := p.since + cfg.final;
    s := Alone(c, ReconcileRow(row, c, cfg.timeout), p);
    ReachesNext(cfg, Alone(c, row, p), Reconcile, s, true, true);
    step := Commit(0, 3);
  }
}
