/**
  The rows of the scan protocol, changed in place.  Every method of a record is one committed
  transaction: its contract says what the transaction gives its caller and what it keeps, and that it
  is the function on rows that the protocol's steps use.
 */
module ScanStore {
  import opened Options
  import opened ScanRows
  import opened ScanProtocol
  import opened ScanInvariant
  import opened ScanHistory

  /** A consistent row stays consistent, and its dispatch only moves forward. */
  ghost predicate KeptConsistent(clock: int, row: Row, row': Row) {
    forall cfg: Config, next: Worker :: RowOk(cfg, clock, next, row) ==> RowOk(cfg, clock, next, row') && Onward(row, row')
  }

  /** A finding of the worker's result; a malformed one makes storing the result fail. */
  datatype Finding = WellFormed(algorithm: string) | Malformed

  ghost predicate AllWellFormed(findings: seq<Finding>) {
    forall k :: 0 <= k < |findings| ==> findings[k].WellFormed?
  }

  /** The job, dispatch and lease of one scan, and its asset rows. */
  class ScanRecord {
    var job: Job
    var dispatch: Dispatch
    var lease: Option<Lease>
    var assets: seq<string>
    ghost var claimants: seq<Worker>
    ghost var stores: nat

    ghost function Row(): Row
      reads this
    {
      ScanRows.Row.Row(job, dispatch, lease, |assets|, claimants, stores)
    }

    constructor (repo: string, now: int)
      ensures Row() == NewRow(repo, now)
    {
      job := Job(repo, Queued, now, 0, 0);
      dispatch := Dispatch(1, Waiting, now, None, None, None, None, 0);
      lease, assets, claimants, stores := None, [], [], 0;
    }

    method ClaimDispatch(w: Worker, now: int, ttl: int) returns (ok: bool)
      modifies `dispatch
      ensures ok ==> (forall x :: !HoldsClaim(old(dispatch), x, now)) && forall t :: t <= now + ttl ==> HoldsClaim(dispatch, w, t)
      ensures ok ==> old(dispatch).state.Waiting? || old(dispatch).state.Claimed?
      ensures !ok ==> dispatch == old(dispatch)
      ensures ok <==> ClaimRow(old(Row()), w, now, ttl).Some?
      ensures dispatch == if ok then ClaimRow(old(Row()), w, now, ttl).value.dispatch else old(dispatch)
    {
      ok := (dispatch.state == Waiting && dispatch.availableAt <= now)
            || (dispatch.state == Claimed && dispatch.claimExpiresAt.Some? && dispatch.claimExpiresAt.value < now);
      if ok {
        dispatch := dispatch.(state := Claimed, claimedBy := Some(w), claimExpiresAt := Some(now + ttl),
                              heartbeatAt := Some(now), attempts := dispatch.attempts + 1);
      }
    }

    /** A dispatcher's transaction: claim, then mark the job as running.  A newcomer's claim keeps the row consistent. */
    method Start(w: Worker, now: int, ttl: int) returns (version: Option<nat>)
      modifies this
      ensures version.Some? <==> ClaimRow(old(Row()), w, now, ttl).Some?
      ensures version.None? ==> Row() == old(Row())
      ensures version.Some? ==> version.value == old(dispatch).version && Row() == ClaimRow(old(Row()), w, now, ttl).value
      ensures forall cfg: Config, next: Worker ::
        RowOk(cfg, now, next, old(Row())) && ttl == Ttl(cfg) && w < next && w !in old(claimants) ==>
        RowOk(cfg, now, next, Row()) && Onward(old(Row()), Row())
    {
      ghost var was := Row();
      var ok := ClaimDispatch(w, now, ttl);
      if !ok { return None; }
      version := Some(dispatch.version);
      job := job.(status := Running, startedAt := now);
      claimants := claimants + [w];
      ClaimIsKept(was, w, now, ttl);
    }

    method HeartbeatLease(w: Worker, now: int, ttl: int) returns (ok: bool)
      modifies `lease
      ensures ok == HoldsLease(old(lease), w, now)
      ensures lease == if ok then Some(old(lease).value.(expiresAt := now + ttl)) else old(lease)
    {
      ok := lease.Some? && lease.value.worker == Some(w) && !lease.value.released && lease.value.expiresAt >= now;
      if ok { lease := Some(lease.value.(expiresAt := now + ttl)); }
    }

    method HeartbeatDispatch(w: Worker, now: int, ttl: int) returns (ok: bool)
      modifies `dispatch
      ensures ok == HoldsClaim(old(dispatch), w, now)
      ensures dispatch == if ok then old(dispatch).(claimExpiresAt := Some(now + ttl), heartbeatAt := Some(now)) else old(dispatch)
    {
      ok := dispatch.state == Claimed && dispatch.claimedBy == Some(w)
            && dispatch.claimExpiresAt.Some? && dispatch.claimExpiresAt.value >= now;
      if ok { dispatch := dispatch.(claimExpiresAt := Some(now + ttl), heartbeatAt := Some(now)); }
    }

    /** Both ownership records are renewed, or the transaction is rolled back. */
    method RenewClaim(w: Worker, now: int, ttl: int) returns (ok: bool)
      modifies this
      ensures ok <==> RenewRow(old(Row()), w, now, ttl).Some?
      ensures Row() == if ok then RenewRow(old(Row()), w, now, ttl).value else old(Row())
    {
      var leaseBefore, dispatchBefore := lease, dispatch;
      var leaseOk := HeartbeatLease(w, now, ttl);
      var dispatchOk := HeartbeatDispatch(w, now, ttl);
      ok := leaseOk && dispatchOk;
      if !ok { lease, dispatch := leaseBefore, dispatchBefore; }
    }

    /** Afterwards the worker owns nothing: it cannot renew, and finalising again changes nothing. */
    method FinalizeDispatch(w: Worker, outcome: Outcome)
      modifies this
      ensures forall t, ttl :: RenewRow(Row(), w, t, ttl).None?
      ensures forall other :: FinalizeRow(Row(), w, other) == Row()
      ensures dispatch.state != old(dispatch).state ==> old(dispatch).claimedBy == Some(w) && dispatch.state == Closed(outcome)
      ensures job == old(job) && lease == old(lease) && assets == old(assets)
      ensures old(job).status.Ended? ==> forall clock :: KeptConsistent(clock, old(Row()), Row())
      ensures Row() == FinalizeRow(old(Row()), w, outcome)
    {
      if dispatch.claimedBy == Some(w) {
        dispatch := dispatch.(state := Closed(outcome), claimedBy := None, claimExpiresAt := None);
      }
    }

    /** Afterwards the job has ended, and the first outcome stays. */
    method FinishIfActive(outcome: Outcome)
      modifies this
      ensures job.status.Ended? && forall other :: FinishRow(Row(), other) == Row()
      ensures old(job).status.Ended? ==> Row() == old(Row())
      ensures !old(dispatch).state.Waiting? && (outcome == Completed ==> old(job).resultVersion > 0) ==>
        forall clock :: KeptConsistent(clock, old(Row()), Row())
      ensures Row() == FinishRow(old(Row()), outcome)
    {
      if Active(job.status) { job := job.(status := Ended(outcome)); }
    }

    /** Afterwards nobody can claim the dispatch, and asking again changes nothing. */
    method RequestCancel(now: int)
      modifies this
      ensures forall t :: !Claimable(dispatch, t)
      ensures forall later :: CancelRow(Row(), later) == Row()
      ensures old(dispatch).state.Closed? ==> Row() == old(Row())
      ensures !old(dispatch).state.Closed? ==>
        dispatch.cancelRequestedAt == (if old(dispatch).cancelRequestedAt.Some? then old(dispatch).cancelRequestedAt else Some(now))
      ensures job.status == (if !old(dispatch).state.Closed? && (old(job).status.Pending? || old(job).status.Queued?) then Ended(Cancelled) else old(job).status)
      ensures KeptConsistent(now, old(Row()), Row())
      ensures Row() == CancelRow(old(Row()), now)
    {
      if dispatch.state.Closed? { return; }
      dispatch := dispatch.(state := CancelRequested);
      if dispatch.cancelRequestedAt.None? { dispatch := dispatch.(cancelRequestedAt := Some(now)); }
      if Dispatchable(job.status) {
        job := job.(status := Ended(Cancelled));
        dispatch := dispatch.(state := Closed(Cancelled));
      }
    }

    method CloseIfAbandoned(now: int, timeout: int) returns (closed: bool)
      modifies this
      ensures closed == Abandoned(old(Row()), now) && Row() == ReconcileRow(old(Row()), now, timeout)
    {
      var overdue := now - job.startedAt >= timeout + GRACE;
      closed := job.status == Running && (dispatch.heartbeatAt.None? || dispatch.heartbeatAt.value < now - GRACE);
      if closed {
        var outcome := if dispatch.cancelRequestedAt.Some? then Cancelled else if overdue then TimedOut else Failed;
        job := job.(status := Ended(outcome));
        dispatch := dispatch.(state := Closed(outcome), claimedBy := None, claimExpiresAt := None);
        if lease.Some? && !lease.value.released {
          lease := Some(lease.value.(released := true, worker := None));
        }
      }
    }

    /**
      An expired lease is marked for deletion first; any other lease that is not released is found and
      stands in the way; the new lease must not meet another one, released or not.  If the deletion does
      not reach the table before the other two steps, nothing but a job without a lease row passes.
     */
    method AcquireLease(w: Worker, now: int, ttl: int, evicts: bool) returns (ok: bool)
      modifies this
      ensures ok ==> (forall x :: !HoldsLease(old(lease), x, now)) && forall t :: t <= now + ttl ==> HoldsLease(lease, w, t)
      ensures !evicts ==> (ok <==> old(lease).None?)
      ensures ok <==> AcquireRow(old(Row()), w, now, ttl, evicts).Some?
      ensures Row() == if ok then AcquireRow(old(Row()), w, now, ttl, evicts).value else old(Row())
    {
      if lease.Some? && lease.value.expiresAt < now && evicts { lease := None; }
      var held := lease.Some? && !lease.value.released;
      if held { return false; }
      ok := lease.None?;
      if ok { lease := Some(Lease(Some(w), now + ttl, false)); }
    }

    /** Afterwards the worker holds no lease, and everybody else holds what they held. */
    method ReleaseLease(w: Worker)
      modifies this
      ensures forall t :: !HoldsLease(lease, w, t)
      ensures forall x, t :: x != w ==> (HoldsLease(lease, x, t) <==> HoldsLease(old(lease), x, t))
      ensures (lease.Some? <==> old(lease).Some?) && forall clock :: KeptConsistent(clock, old(Row()), Row())
      ensures Row() == ReleaseRow(old(Row()), w)
    {
      if lease.Some? && !lease.value.released && lease.value.worker == Some(w) {
        lease := Some(lease.value.(released := true, worker := None));
      }
    }

    method ExpireLease(cutoff: int) returns (expired: bool)
      modifies this
      ensures expired == Lapsed(old(Row()), cutoff) && Row() == ExpireRow(old(Row()), cutoff)
    {
      expired := lease.Some? && !lease.value.released && lease.value.expiresAt < cutoff;
      if expired { lease := Some(lease.value.(released := true, worker := None)); }
    }

    /**
      The first transaction of storing a result.  Only one that proceeds can write, and once a result of
      this version is stored the guard does not let another one proceed; for a dispatch that has been
      claimed the write makes no difference.
     */
    method OpenResult(version: nat) returns (guard: Guard)
      modifies this
      ensures guard != Proceed ==> Row() == old(Row())
      ensures guard == Proceed ==> forall found: nat, v: nat :: v <= version ==> StoreGuard(CommitStore(Row(), version, found), v) == AlreadyStored
      ensures forall cfg: Config, clock: int, next: Worker ::
        RowOk(cfg, clock, next, old(Row())) && !old(dispatch).state.Waiting? ==> Row() == old(Row())
      ensures guard == StoreGuard(old(Row()), version) && Row() == OpenStore(old(Row()), version)
    {
      if job.resultVersion >= version { return AlreadyStored; }
      if !Active(job.status) { return NotActive; }
      job := job.(status := Running);
      return Proceed;
    }

    /** The second: one asset row a finding, then the counters; a malformed finding rolls it all back. */
    method CommitResult(version: nat, findings: seq<Finding>) returns (stored: bool)
      modifies this
      ensures stored <==> AllWellFormed(findings)
      ensures stored ==> Row() == CommitStore(old(Row()), version, |findings|)
      ensures stored ==> |assets| == |old(assets)| + |findings| && old(assets) <= assets
      ensures stored ==> forall k :: 0 <= k < |findings| ==> assets[|old(assets)| + k] == findings[k].algorithm
      ensures !stored ==> Row() == old(Row()) && assets == old(assets)
    {
      var before := assets;
      var persisted := 0;
      while persisted < |findings|
        modifies `assets
        invariant 0 <= persisted <= |findings|
        invariant forall k :: 0 <= k < persisted ==> findings[k].WellFormed?
        invariant |assets| == |before| + persisted && before <= assets
        invariant forall k :: 0 <= k < persisted ==> assets[|before| + k] == findings[k].algorithm
      {
        if findings[persisted].Malformed? {
          assets := before;
          return false;
        }
        assets := assets + [findings[persisted].algorithm];
        persisted := persisted + 1;
      }
      job := job.(status := Ended(Completed), resultVersion := version, assetsFound := persisted);
      stores := stores + 1;
      stored := true;
    }
  }

  lemma ClaimIsKept(row: Row, w: Worker, now: int, ttl: int)
    requires Claimable(row.dispatch, now)
    ensures forall cfg: Config, next: Worker ::
      RowOk(cfg, now, next, row) && ttl == Ttl(cfg) && w < next && w !in row.claimants ==>
      RowOk(cfg, now, next, ClaimRow(row, w, now, ttl).value) && Onward(row, ClaimRow(row, w, now, ttl).value)
  {
    forall cfg: Config, next: Worker | RowOk(cfg, now, next, row) && ttl == Ttl(cfg) && w < next && w !in row.claimants
      ensures RowOk(cfg, now, next, ClaimRow(row, w, now, ttl).value) && Onward(row, ClaimRow(row, w, now, ttl).value)
    {
      var claimants := row.claimants + [w];
      assert claimants[|claimants| - 1] == w;
    }
  }

  predicate Lapsed(row: Row, cutoff: int) {
    row.lease.Some? && !row.lease.value.released && row.lease.value.expiresAt < cutoff
  }

  ghost predicate BusyOn(row: Row, repo: string) { row.job.repo == repo && Active(row.job.status) }

  function AbandonedCount(rows: seq<Row>, now: int): nat {
    if rows == [] then 0
    else AbandonedCount(rows[..|rows| - 1], now) + if Abandoned(rows[|rows| - 1], now) then 1 else 0
  }

  lemma {:induction false} CountNext(rows: seq<Row>, n: nat, now: int)
    requires n < |rows|
    ensures AbandonedCount(rows[..n + 1], now) == AbandonedCount(rows[..n], now) + if Abandoned(rows[n], now) then 1 else 0
  {
    assert rows[..n + 1][..n] == rows[..n];
  }

  lemma {:induction false} CountNone(now: int)
    ensures AbandonedCount([], now) == 0
  {
  }

  function LapsedCount(rows: seq<Row>, cutoff: int): nat {
    if rows == [] then 0
    else LapsedCount(rows[..|rows| - 1], cutoff) + if Lapsed(rows[|rows| - 1], cutoff) then 1 else 0
  }

  ghost function ChangedRows(before: seq<Row>, after: seq<Row>): nat {
    |set k | 0 <= k < |before| && k < |after| && before[k] != after[k]|
  }

  lemma OneMoreRow(before: seq<Row>, after: seq<Row>, n: nat)
    requires n < |before| == |after|
    ensures ChangedRows(before[..n + 1], after[..n + 1])
         == ChangedRows(before[..n], after[..n]) + if before[n] != after[n] then 1 else 0
  {
    var b, a := before[..n], after[..n];
    var b', a' := before[..n + 1], after[..n + 1];
    var here := set k | 0 <= k < |b| && k < |a| && b[k] != a[k];
    var there := set k | 0 <= k < |b'| && k < |a'| && b'[k] != a'[k];
    assert there == here + if before[n] != after[n] then {n} else {};
  }

  /** Closing an abandoned row changes it. */
  lemma {:induction false} AbandonedChange(rows: seq<Row>, closed: seq<Row>, now: int, timeout: int)
    requires |rows| == |closed| && forall k :: 0 <= k < |rows| ==> closed[k] == ReconcileRow(rows[k], now, timeout)
    ensures AbandonedCount(rows, now) == ChangedRows(rows, closed)
  {
    var n := |rows|;
    if n > 0 {
      AbandonedChange(rows[..n - 1], closed[..n - 1], now, timeout);
      OneMoreRow(rows, closed, n - 1);
      assert rows[..n] == rows && closed[..n] == closed;
      assert closed[n - 1] != rows[n - 1] <==> Abandoned(rows[n - 1], now);
    }
  }

  /** Releasing a lapsed lease changes the row. */
  lemma {:induction false} LapsedChange(rows: seq<Row>, expired: seq<Row>, cutoff: int)
    requires |rows| == |expired| && forall k :: 0 <= k < |rows| ==> expired[k] == ExpireRow(rows[k], cutoff)
    ensures LapsedCount(rows, cutoff) == ChangedRows(rows, expired)
  {
    var n := |rows|;
    if n > 0 {
      LapsedChange(rows[..n - 1], expired[..n - 1], cutoff);
      OneMoreRow(rows, expired, n - 1);
      assert rows[..n] == rows && expired[..n] == expired;
      assert expired[n - 1] != rows[n - 1] <==> Lapsed(rows[n - 1], cutoff);
    }
  }

  /** All scans; a job's number is its position. */
  class ScanTables {
    var records: seq<ScanRecord>

    ghost predicate Valid()
      reads this
    {
      forall i, k :: 0 <= i < k < |records| ==> records[i] != records[k]
    }

    ghost function Rows(): (rows: seq<Row>)
      reads this, records
      ensures |rows| == |records| && forall k :: 0 <= k < |rows| ==> rows[k] == records[k].Row()
    {
      seq(|records|, k reads this, records requires 0 <= k < |records| => records[k].Row())
    }

    /** The latest active job on the repository if there is one; otherwise a new queued job. */
    method EnqueueScan(repo: string, now: int) returns (id: nat)
      requires Valid()
      modifies this
      ensures Valid() && id < |records| && old(records) <= records
      ensures (forall row :: row in old(Rows()) ==> !BusyOn(row, repo)) ==>
        id == |old(records)| && Rows() == old(Rows()) + [NewRow(repo, now)]
      ensures (exists row :: row in old(Rows()) && BusyOn(row, repo)) ==>
        records == old(records) && BusyOn(Rows()[id], repo)
        && Rows() == old(Rows()) && forall k :: id < k < |records| ==> !BusyOn(Rows()[k], repo)
    {
      var k := |records|;
      while k > 0
        invariant 0 <= k <= |records|
        invariant forall i :: k <= i < |records| ==> !BusyOn(Rows()[i], repo)
      {
        k := k - 1;
        if records[k].job.repo == repo && Active(records[k].job.status) {
          assert Rows()[k] in Rows();
          return k;
        }
      }
      ghost var rows := Rows();
      var record := new ScanRecord(repo, now);
      id := |records|;
      records := records + [record];
      assert Rows() == rows + [NewRow(repo, now)];
    }

    /** Close every running job whose heartbeat is too old, and count them. */
    method ReconcileAbandoned(now: int, timeout: int) returns (count: nat)
      requires Valid()
      modifies records
      ensures |Rows()| == |old(Rows())| && forall k :: 0 <= k < |records| ==> Rows()[k] == ReconcileRow(old(Rows())[k], now, timeout)
      ensures count == ChangedRows(old(Rows()), Rows())
    {
      hide ReconcileRow, Abandoned, AbandonedCount, ChangedRows;
      CountNone(now);
      ghost var was := Rows();
      count := 0;
      for id := 0 to |records|
        invariant forall k :: 0 <= k < |records| ==> records[k].Row() == if k < id then ReconcileRow(was[k], now, timeout) else was[k]
        invariant count == AbandonedCount(was[..id], now)
      {
        CountNext(was, id, now);
        assert records[id].Row() == was[id];
        var closed := records[id].CloseIfAbandoned(now, timeout);
        assert records[id].Row() == ReconcileRow(was[id], now, timeout);
        if closed { count := count + 1; }
      }
      assert was[..|records|] == was;
      AbandonedChange(was, Rows(), now, timeout);
    }

    /** Release every lease that expired before the cutoff, and count them. */
    method ReconcileExpiredLeases(cutoff: int) returns (count: nat)
      requires Valid()
      modifies records
      ensures |Rows()| == |old(Rows())| && forall k :: 0 <= k < |records| ==> Rows()[k] == ExpireRow(old(Rows())[k], cutoff)
      ensures count == ChangedRows(old(Rows()), Rows())
    {
      hide ExpireRow, Lapsed;
      ghost var was := Rows();
      count := 0;
      for id := 0 to |records|
        invariant forall k :: 0 <= k < |records| ==> records[k].Row() == if k < id then ExpireRow(was[k], cutoff) else was[k]
        invariant count == LapsedCount(was[..id], cutoff)
      {
        assert was[..id + 1][..id] == was[..id];
        assert records[id].Row() == was[id];
        var expired := records[id].ExpireLease(cutoff);
        assert records[id].Row() == ExpireRow(was[id], cutoff);
        if expired { count := count + 1; }
      }
      assert was[..|records|] == was;
      hide LapsedCount, ChangedRows;
      LapsedChange(was, Rows(), cutoff);
    }
  }
}
