/**
  Which waiting jobs can still be claimed: all of them, unless a lease row that nobody is past stands
  in the way; and what a job that cannot does to its repository.
 */
module ScanWaiting {
  import opened Options
  import opened ScanRows
  import opened ScanProtocol
  import opened ScanInvariant
  import opened ScanHistory
  import opened ScanLeases

  // ----- continuations -----

  ghost predicate IsPath(cfg: Config, path: seq<State>, steps: seq<Step>) {
    |path| == |steps| + 1 && forall i :: 0 <= i < |steps| ==> Follows(cfg, path[i], steps[i], path[i + 1])
  }

  /** Some steps lead from s to t. */
  ghost predicate Leads(cfg: Config, s: State, t: State) {
    exists path: seq<State>, steps: seq<Step> :: IsPath(cfg, path, steps) && path[0] == s && path[|path| - 1] == t
  }

  lemma LeadsNowhere(cfg: Config, s: State)
    ensures Leads(cfg, s, s)
  {
    var path: seq<State>, steps: seq<Step> := [s], [];
    assert IsPath(cfg, path, steps);
  }

  lemma LeadsOn(cfg: Config, s: State, t: State, step: Step)
    requires Leads(cfg, s, t) && Enabled(cfg, t, step)
    ensures Leads(cfg, s, Apply(cfg, t, step))
  {
    hide Enabled, Apply;
    var path: seq<State>, steps: seq<Step> :| IsPath(cfg, path, steps) && path[0] == s && path[|path| - 1] == t;
    var path', steps' := path + [Apply(cfg, t, step)], steps + [step];
    forall i | 0 <= i < |steps'| ensures Follows(cfg, path'[i], steps'[i], path'[i + 1]) {
      if i < |steps| { assert Follows(cfg, path[i], steps[i], path[i + 1]); }
    }
    assert IsPath(cfg, path', steps');
  }

  /** Somebody claims the job on some continuation. */
  ghost predicate CanBeClaimed(cfg: Config, s: State, j: nat) {
    exists t :: Leads(cfg, s, t) && j in t.table && t.table[j].claimants != []
  }

  // ----- a stranded job is never claimed -----

  lemma {:induction false} StrandedOnPath(cfg: Config, path: seq<State>, steps: seq<Step>, k: nat, j: nat)
    requires ValidConfig(cfg) && !cfg.evicts && IsPath(cfg, path, steps) && k < |path|
    requires Inv(cfg, path[0]) && Stranded(path[0], j)
    ensures Inv(cfg, path[k]) && Stranded(path[k], j)
  {
    hide Enabled, Apply, Inv, Stranded;
    if k > 0 {
      StrandedOnPath(cfg, path, steps, k - 1, j);
      assert Follows(cfg, path[k - 1], steps[k - 1], path[k - 1 + 1]);
      ApplyKeeps(cfg, path[k - 1], steps[k - 1]);
      StrandedKeeps(cfg, path[k - 1], steps[k - 1], j);
    }
  }

  lemma StrandedIsLost(cfg: Config, s: State, j: nat)
    requires ValidConfig(cfg) && !cfg.evicts && Inv(cfg, s) && Stranded(s, j)
    ensures !CanBeClaimed(cfg, s, j)
  {
    hide Inv;
    forall t | Leads(cfg, s, t) ensures Stranded(t, j) {
      var path: seq<State>, steps: seq<Step> :| IsPath(cfg, path, steps) && path[0] == s && path[|path| - 1] == t;
      StrandedOnPath(cfg, path, steps, |path| - 1, j);
    }
  }

  lemma PathNotEmpty(cfg: Config, path: seq<State>, steps: seq<Step>)
    requires IsPath(cfg, path, steps)
    ensures |path| > 0
  {
  }

  // ----- every other waiting job can be claimed -----

  /** The row of a waiting job: untouched, and nobody past the lease but dispatchers that have still to claim it. */
  lemma WaitingRow(cfg: Config, s: State, j: nat)
    requires Inv(cfg, s) && j in s.table && Dispatchable(s.table[j].job.status)
    ensures s.table[j].dispatch.state == Waiting && s.table[j].claimants == []
    ensures forall w :: w in s.procs && s.procs[w].job == j && Past(s.procs[w].phase) ==> At(s, w, Leased)
  {
    hide NoRepeats;
    assert RowOk(cfg, s.clock, s.nextWorker, s.table[j]);
    forall w | w in s.procs && s.procs[w].job == j && Past(s.procs[w].phase) ensures At(s, w, Leased) {
      assert ProcOk(s.clock, w, s.procs[w], s.table[j]);
    }
  }

  /** A dispatcher that holds the lease claims it once it is available. */
  lemma HolderClaims(cfg: Config, s: State, w: Worker, j: nat)
    requires At(s, w, Leased) && s.procs[w].job == j && s.table[j].dispatch.state == Waiting
    ensures CanBeClaimed(cfg, s, j)
  {
    hide Leads, Occupied;
    LeadsNowhere(cfg, s);
    var t := s.(clock := Larger(s.clock, s.table[j].dispatch.availableAt));
    LeadsOn(cfg, s, s, Tick(t.clock));
    LeadsOn(cfg, s, t, Claim(w));
    assert Apply(cfg, t, Claim(w)).table[j].claimants == s.table[j].claimants + [w];
  }

  lemma FreeReplica(slots: map<nat, Worker>) returns (replica: nat)
    ensures replica !in slots
  {
    replica := FreeNumber(slots.Keys);
  }

  lemma {:induction false} FreeNumber(taken: set<nat>) returns (n: nat)
    ensures forall k :: k in taken ==> k < n
    decreases taken
  {
    n := 0;
    if taken != {} {
      var k :| k in taken;
      var m := FreeNumber(taken - {k});
      n := if k < m then m else k + 1;
      assert forall i :: i in taken ==> i == k || i in taken - {k};
    }
  }

  /** When the new lease meets no other, a new dispatcher on a free replica gets to the claim. */
  lemma NewcomerClaims(cfg: Config, s: State, j: nat)
    requires Inv(cfg, s) && j in s.table && Dispatchable(s.table[j].job.status) && s.table[j].dispatch.state == Waiting
    requires s.table[j].lease.None? || (cfg.evicts && s.table[j].lease.value.expiresAt < s.clock)
    ensures exists t, w :: Leads(cfg, s, t) && At(t, w, Leased) && t.procs[w].job == j && t.table[j].dispatch.state == Waiting
  {
    var replica := FreeReplica(s.slots);
    var w := s.nextWorker;
    assert w !in s.procs;
    hide Inv, Leads, Occupied;
    LeadsNowhere(cfg, s);
    LeadsOn(cfg, s, s, Check(j, replica));
    var s1 := Apply(cfg, s, Check(j, replica));
    LeadsOn(cfg, s, s1, Reserve(w));
    var s2 := Apply(cfg, s1, Reserve(w));
    LeadsOn(cfg, s, s2, Acquire(w));
    var t := Apply(cfg, s2, Acquire(w));
    assert At(t, w, Leased);
  }

  lemma {:induction false} LeadsTogether(cfg: Config, s: State, t: State, path: seq<State>, steps: seq<Step>, k: nat)
    requires Leads(cfg, s, t) && IsPath(cfg, path, steps) && path[0] == t && k < |path|
    ensures Leads(cfg, s, path[k])
  {
    hide Leads, Enabled, Apply;
    if k > 0 {
      LeadsTogether(cfg, s, t, path, steps, k - 1);
      assert Follows(cfg, path[k - 1], steps[k - 1], path[k - 1 + 1]);
      LeadsOn(cfg, s, path[k - 1], steps[k - 1]);
    }
  }

  lemma ClaimedLater(cfg: Config, s: State, t: State, j: nat)
    requires Leads(cfg, s, t) && CanBeClaimed(cfg, t, j)
    ensures CanBeClaimed(cfg, s, j)
  {
    var u :| Leads(cfg, t, u) && j in u.table && u.table[j].claimants != [];
    var path: seq<State>, steps: seq<Step> :| IsPath(cfg, path, steps) && path[0] == t && path[|path| - 1] == u;
    PathNotEmpty(cfg, path, steps);
    hide IsPath, Leads;
    LeadsTogether(cfg, s, t, path, steps, |path| - 1);
  }

  lemma NewcomerIsEnough(cfg: Config, s: State, j: nat)
    requires Inv(cfg, s) && j in s.table && Dispatchable(s.table[j].job.status) && s.table[j].dispatch.state == Waiting
    requires s.table[j].lease.None? || (cfg.evicts && s.table[j].lease.value.expiresAt < s.clock)
    ensures CanBeClaimed(cfg, s, j)
  {
    hide Inv, Leads, CanBeClaimed;
    NewcomerClaims(cfg, s, j);
    var t, w :| Leads(cfg, s, t) && At(t, w, Leased) && t.procs[w].job == j && t.table[j].dispatch.state == Waiting;
    HolderClaims(cfg, t, w, j);
    ClaimedLater(cfg, s, t, j);
  }

  lemma WaitingIsClaimable(cfg: Config, s: State, j: nat)
    requires ValidConfig(cfg) && Inv(cfg, s) && j in s.table && Dispatchable(s.table[j].job.status)
    requires cfg.evicts || !Stranded(s, j)
    ensures CanBeClaimed(cfg, s, j)
  {
    hide RowOk, ProcOk, Leads, CanBeClaimed;
    WaitingRow(cfg, s, j);
    if s.table[j].lease.None? {
      NewcomerIsEnough(cfg, s, j);
    } else if cfg.evicts {
      var to := Larger(s.clock, s.table[j].lease.value.expiresAt + 1);
      LeadsNowhere(cfg, s);
      LeadsOn(cfg, s, s, Tick(to));
      TickKeeps(cfg, s, to);
      NewcomerIsEnough(cfg, s.(clock := to), j);
      ClaimedLater(cfg, s, s.(clock := to), j);
    } else {
      var w :| w in s.procs && s.procs[w].job == j && Past(s.procs[w].phase);
      HolderClaims(cfg, s, w, j);
    }
  }

  /**
    On every run a waiting job can still be claimed, on some continuation, exactly when expired leases
    are replaced or it is not stranded: losing its dispatcher between lease and claim is the only way
    to lose a job.
   */
  lemma WaitingJobsAreClaimable(cfg: Config, run: seq<State>, steps: seq<Step>, i: nat, j: nat)
    requires ValidConfig(cfg) && IsRun(cfg, run, steps) && i < |run|
    requires j in run[i].table && Dispatchable(run[i].table[j].job.status)
    ensures CanBeClaimed(cfg, run[i], j) <==> cfg.evicts || !Stranded(run[i], j)
  {
    hide IsRun, Inv, CanBeClaimed, Stranded;
    RunKeeps(cfg, run, steps, i);
    if cfg.evicts || !Stranded(run[i], j) {
      WaitingIsClaimable(cfg, run[i], j);
    } else {
      StrandedIsLost(cfg, run[i], j);
    }
  }

  // ----- what a stranded job does -----

  lemma StrandedStaysQueued(cfg: Config, s: State, step: Step, j: nat)
    requires Inv(cfg, s) && Enabled(cfg, s, step) && Stranded(s, j) && Dispatchable(s.table[j].job.status)
    requires !step.Cancel? || step.job != j
    ensures j in Apply(cfg, s, step).table && Apply(cfg, s, step).table[j].job == s.table[j].job
  {
    assert j < s.nextJob;
    hide Inv, Apply, Occupied, Claimable, HoldsLease, HoldsClaim, AcquireRow, ReleaseRow, ExpireRow;
    StepChanges(cfg, s, step, j);
  }

  /**
    A stranded job that nobody cancels stays queued, and as long as it does no other scan of its
    repository can be enqueued.
   */
  lemma {:induction false} StrandedBlocksRepository(cfg: Config, run: seq<State>, steps: seq<Step>, i: nat, k: nat, j: nat)
    requires ValidConfig(cfg) && IsRun(cfg, run, steps) && !cfg.evicts && i <= k < |run|
    requires Stranded(run[i], j) && Dispatchable(run[i].table[j].job.status)
    requires forall l, replica :: i <= l < k ==> steps[l] != Cancel(j, replica)
    ensures Stranded(run[k], j) && run[k].table[j].job == run[i].table[j].job
    ensures !Enabled(cfg, run[k], Enqueue(run[i].table[j].job.repo))
    decreases k
  {
    if i < k {
      hide Inv, Apply, Enabled, Stranded;
      StrandedBlocksRepository(cfg, run, steps, i, k - 1, j);
      RunKeeps(cfg, run, steps, k - 1);
      StepOfRun(cfg, run, steps, k);
      assert steps[k - 1].Cancel? ==> steps[k - 1] == Cancel(steps[k - 1].job, steps[k - 1].replica);
      assert j in run[k - 1].table by { StrandedIsThere(run[k - 1], j); }
      StrandedKeeps(cfg, run[k - 1], steps[k - 1], j);
      StrandedStaysQueued(cfg, run[k - 1], steps[k - 1], j);
    }
    QueuedOccupies(cfg, run[k], j);
  }

  lemma StrandedIsThere(s: State, j: nat)
    requires Stranded(s, j)
    ensures j in s.table
  {
  }

  lemma QueuedOccupies(cfg: Config, s: State, j: nat)
    requires Stranded(s, j) && Dispatchable(s.table[j].job.status)
    ensures !Enabled(cfg, s, Enqueue(s.table[j].job.repo))
  {
    assert Busy(s, j, s.table[j].job.repo);
  }
}
