/**
  Dispatchers, supervisors, the watchdog and cancelling clients over the shared rows.  Every
  committed transaction is one step; a process that fails leaves its rows as they are.
 */
module ScanProtocol {
  import opened Options
  import opened ScanRows

  /**
    Where a dispatcher or its supervisor stands.  Checked, Admitted and Leased come before the
    claim; Exited and Storing are the final persist; Finishing carries the outcome decided.
   */
  datatype Phase =
    | Checked | Admitted | Leased
    | Starting | Polling | Rearming | Exited | Storing
    | Finishing(outcome: Outcome) | Finalizing(outcome: Outcome) | Releasing

  /**
    checkedAt: when the job was seen dispatchable.  since: when the current turn or phase began.
    beat: the last heartbeat written.  due: when the next one is to be written.
   */
  datatype Proc = Proc(replica: nat, job: nat, phase: Phase, checkedAt: int, since: int, beat: int, due: int,
                       started: int, version: nat, signalled: bool)

  /**
    The limits in force, and how long setup, a poll turn, a renewal and the final persist may take.
    evicts: an expired lease is replaced by the next acquisition.  The documentation of leases says
    so; the sessions in use do not flush the deletion first, so that any lease row stands in the way.
   */
  datatype Config = Config(timeout: int, interval: int, setup: int, turn: int, renewal: int, final: int, evicts: bool)

  function Larger(x: int, y: int): int { if x >= y then x else y }

  predicate ValidConfig(cfg: Config) {
    && SECOND <= cfg.timeout && SECOND <= cfg.interval <= 10 * SECOND
    && 0 <= cfg.setup && 1 <= cfg.turn && 0 <= cfg.renewal && 0 <= cfg.final
  }

  function Ttl(cfg: Config): int { cfg.timeout + 60 * SECOND }

  /** slots holds the control that occupies each API replica. */
  datatype State = State(clock: int, table: map<nat, Row>, procs: map<Worker, Proc>, slots: map<nat, Worker>,
                         nextJob: nat, nextWorker: Worker)

  datatype Step =
    | Tick(to: int)
    | Enqueue(repo: string)
    | Check(job: nat, replica: nat)
    | Reserve(w: Worker)
    | Acquire(w: Worker)
    | Claim(w: Worker)
    | Begin(w: Worker)
    | Turn(w: Worker)
    | SeeCancel(w: Worker)
    | Renew(w: Worker)
    | Rearm(w: Worker)
    | Expire(w: Worker)
    | WorkerExit(w: Worker)
    | Break(w: Worker)
    | Open(w: Worker)
    | Commit(w: Worker, found: nat)
    | Unconfirmed(w: Worker)
    | Finish(w: Worker)
    | Finalize(w: Worker)
    | Release(w: Worker)
    | Cancel(job: nat, replica: nat)
    | Reconcile
    | ExpireLeases(cutoff: int)
    | Crash(replica: nat)

  function Init(now: int): State {
    State(now, map[], map[], map[], 0, 0)
  }

  predicate BeforeClaim(phase: Phase) { phase.Checked? || phase.Admitted? || phase.Leased? }

  predicate InPersist(phase: Phase) { phase.Exited? || phase.Storing? || phase.Finishing? }

  predicate Has(s: State, w: Worker) { w in s.procs && s.procs[w].job in s.table }

  predicate At(s: State, w: Worker, phase: Phase) { Has(s, w) && s.procs[w].phase == phase }

  function RowOf(s: State, w: Worker): Row
    requires Has(s, w)
  {
    s.table[s.procs[w].job]
  }

  /** Same rows, the process moved to another phase that begins now. */
  function MoveTo(s: State, w: Worker, phase: Phase): State
    requires Has(s, w)
  {
    s.(procs := s.procs[w := s.procs[w].(phase := phase, since := s.clock)])
  }

  /** Same rows, the process moved on without a fresh start of its time allowance. */
  function Advance(s: State, w: Worker, phase: Phase): State
    requires Has(s, w)
  {
    s.(procs := s.procs[w := s.procs[w].(phase := phase)])
  }

  function Write(s: State, w: Worker, row: Row): State
    requires Has(s, w)
  {
    s.(table := s.table[s.procs[w].job := row])
  }

  /** The dispatcher gives up: its slot is free again and its lease, if it has one, is released. */
  function Leave(s: State, w: Worker): State
    requires Has(s, w)
  {
    var p := s.procs[w];
    s.(procs := s.procs - {w}, slots := FreeSlot(s.slots, p.replica, w),
       table := s.table[p.job := ReleaseRow(s.table[p.job], w)])
  }

  function FreeSlot(slots: map<nat, Worker>, replica: nat, w: Worker): map<nat, Worker> {
    if replica in slots && slots[replica] == w then slots - {replica} else slots
  }

  /** Job j is on the repository and has not ended. */
  predicate Busy(s: State, j: nat, repo: string) {
    j in s.table && s.table[j].job.repo == repo && Active(s.table[j].job.status)
  }

  predicate Occupied(s: State, repo: string) {
    exists j :: j in s.table && Busy(s, j, repo)
  }

  predicate Enabled(cfg: Config, s: State, step: Step) {
    match step
    case Tick(to) => s.clock <= to
    case Enqueue(repo) => !Occupied(s, repo)
    case Check(job, replica) => job in s.table && Dispatchable(s.table[job].job.status)
    case Reserve(w) => At(s, w, Checked)
    case Acquire(w) => At(s, w, Admitted)
    case Claim(w) => At(s, w, Leased)
    case Begin(w) => At(s, w, Starting)
    case Turn(w) => At(s, w, Polling) && s.clock < s.procs[w].due
    case SeeCancel(w) =>
      (At(s, w, Starting) || At(s, w, Polling))
      && (s.procs[w].signalled || RowOf(s, w).dispatch.cancelRequestedAt.Some?)
    case Renew(w) => At(s, w, Polling) && s.clock >= s.procs[w].due
    case Rearm(w) => At(s, w, Rearming)
    case Expire(w) => At(s, w, Polling) && s.clock - s.procs[w].started >= cfg.timeout
    case WorkerExit(w) => At(s, w, Polling)
    case Break(w) => Has(s, w) && (var f := s.procs[w].phase; f.Starting? || f.Polling? || f.Rearming? || f.Exited? || f.Storing?)
    case Open(w) => At(s, w, Exited)
    case Commit(w, found) => At(s, w, Storing)
    case Unconfirmed(w) => Has(s, w) && s.procs[w].phase.Finishing?
    case Finish(w) => Has(s, w) && s.procs[w].phase.Finishing?
    case Finalize(w) => Has(s, w) && s.procs[w].phase.Finalizing?
    case Release(w) => At(s, w, Releasing)
    case Cancel(job, replica) => job in s.table
    case Reconcile => true
    case ExpireLeases(cutoff) => cutoff <= s.clock
    case Crash(replica) => true
  }

  function Apply(cfg: Config, s: State, step: Step): State
    requires Enabled(cfg, s, step)
  {
    match step
    case Tick(to) => s.(clock := to)
    case Enqueue(repo) =>
      s.(table := s.table[s.nextJob := NewRow(repo, s.clock)], nextJob := s.nextJob + 1)
    case Check(job, replica) =>
      var p := Proc(replica, job, Checked, s.clock, s.clock, s.clock, s.clock, s.clock, 0, false);
      s.(procs := s.procs[s.nextWorker := p], nextWorker := s.nextWorker + 1)
    case Reserve(w) =>
      if s.procs[w].replica in s.slots then s.(procs := s.procs - {w})
      else Advance(s.(slots := s.slots[s.procs[w].replica := w]), w, Admitted)
    case Acquire(w) =>
      (match AcquireRow(RowOf(s, w), w, s.clock, Ttl(cfg), cfg.evicts)
       case None => Leave(s, w)
       case Some(row) => Advance(Write(s, w, row), w, Leased))
    case Claim(w) =>
      (match ClaimRow(RowOf(s, w), w, s.clock, Ttl(cfg))
       case None => Leave(s, w)
       case Some(row) =>
         var p := s.procs[w].(phase := Starting, since := s.clock, beat := s.clock, version := row.dispatch.version);
         Write(s.(procs := s.procs[w := p]), w, row))
    case Begin(w) =>
      var p := s.procs[w].(phase := Polling, since := s.clock, started := s.clock, due := s.clock + cfg.interval);
      s.(procs := s.procs[w := p])
    case Turn(w) => MoveTo(s, w, Polling)
    case SeeCancel(w) => MoveTo(s, w, Finishing(Cancelled))
    case Renew(w) =>
      (match RenewRow(RowOf(s, w), w, s.clock, Ttl(cfg))
       case None => MoveTo(s, w, Finishing(Failed))
       case Some(row) =>
         Write(s.(procs := s.procs[w := s.procs[w].(phase := Rearming, since := s.clock, beat := s.clock)]), w, row))
    case Rearm(w) =>
      s.(procs := s.procs[w := s.procs[w].(phase := Polling, since := s.clock, due := s.clock + cfg.interval)])
    case Expire(w) => MoveTo(s, w, Finishing(TimedOut))
    case WorkerExit(w) => MoveTo(s, w, Exited)
    case Break(w) => if InPersist(s.procs[w].phase) then Advance(s, w, Finishing(Failed)) else MoveTo(s, w, Finishing(Failed))
    case Open(w) =>
      (match StoreGuard(RowOf(s, w), s.procs[w].version)
       case AlreadyStored => Advance(s, w, Finishing(Completed))
       case NotActive => Advance(s, w, Finishing(Failed))
       case Proceed => Advance(Write(s, w, OpenStore(RowOf(s, w), s.procs[w].version)), w, Storing))
    case Commit(w, found) =>
      Advance(Write(s, w, CommitStore(RowOf(s, w), s.procs[w].version, found)), w, Finishing(Completed))
    case Unconfirmed(w) => Advance(s, w, Finishing(Failed))
    case Finish(w) =>
      var outcome := s.procs[w].phase.outcome;
      Advance(Write(s, w, FinishRow(RowOf(s, w), outcome)), w, Finalizing(outcome))
    case Finalize(w) =>
      Advance(Write(s, w, FinalizeRow(RowOf(s, w), w, s.procs[w].phase.outcome)), w, Releasing)
    case Release(w) => Leave(s, w)
    case Cancel(job, replica) =>
      var signalled := Signal(s, job, replica);
      s.(table := s.table[job := CancelRow(s.table[job], s.clock)], procs := signalled)
    case Reconcile => s.(table := map j | j in s.table :: ReconcileRow(s.table[j], s.clock, cfg.timeout))
    case ExpireLeases(cutoff) => s.(table := map j | j in s.table :: ExpireRow(s.table[j], cutoff))
    case Crash(replica) =>
      s.(procs := map w | w in s.procs && s.procs[w].replica != replica :: s.procs[w], slots := s.slots - {replica})
  }

  /** A cancelling request signals the supervisor that occupies its own replica, if it runs that job. */
  function Signal(s: State, job: nat, replica: nat): map<Worker, Proc> {
    if replica in s.slots && s.slots[replica] in s.procs && s.procs[s.slots[replica]].job == job then
      s.procs[s.slots[replica] := s.procs[s.slots[replica]].(signalled := true)]
    else s.procs
  }

  /** A run: every state follows from the one before by the step between them. */
  ghost predicate IsRun(cfg: Config, run: seq<State>, steps: seq<Step>) {
    && |run| == |steps| + 1 && run[0] == Init(run[0].clock)
    && forall i :: 0 <= i < |steps| ==> Follows(cfg, run[i], steps[i], run[i + 1])
  }

  lemma StepOfRun(cfg: Config, run: seq<State>, steps: seq<Step>, i: nat)
    requires IsRun(cfg, run, steps) && 0 < i < |run|
    ensures i <= |steps| && Enabled(cfg, run[i - 1], steps[i - 1]) && run[i] == Apply(cfg, run[i - 1], steps[i - 1])
  {
    assert Follows(cfg, run[i - 1], steps[i - 1], run[i - 1 + 1]);
  }

  ghost predicate Follows(cfg: Config, s: State, step: Step, s': State) {
    Enabled(cfg, s, step) && s' == Apply(cfg, s, step)
  }
}
