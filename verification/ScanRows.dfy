/**
  The rows of one scan job in the job, dispatch, lease and asset tables, and what each committed
  transaction does to them.  Times are in microseconds.
 */
module ScanRows {
  import opened Options

  type Worker = nat

  const SECOND := 1_000_000

  /** A running job whose heartbeat is older than this counts as abandoned. */
  const GRACE := 45 * SECOND

  datatype Outcome = Completed | Failed | Cancelled | TimedOut

  datatype JobStatus = Pending | Queued | Running | Ended(outcome: Outcome)

  datatype Job = Job(repo: string, status: JobStatus, startedAt: int, resultVersion: nat, assetsFound: nat)

  datatype DispatchState = Waiting | Claimed | CancelRequested | Closed(outcome: Outcome)

  datatype Dispatch = Dispatch(version: nat, state: DispatchState, availableAt: int, claimedBy: Option<Worker>,
                               claimExpiresAt: Option<int>, heartbeatAt: Option<int>, cancelRequestedAt: Option<int>,
                               attempts: nat)

  datatype Lease = Lease(worker: Option<Worker>, expiresAt: int, released: bool)

  /**
    assets is the number of asset rows of the job.  claimants and stores are history: who claimed
    the dispatch, in order, and how many results were stored.
   */
  datatype Row = Row(job: Job, dispatch: Dispatch, lease: Option<Lease>, assets: nat, claimants: seq<Worker>, stores: nat)

  predicate Active(status: JobStatus) { status.Pending? || status.Queued? || status.Running? }

  predicate Dispatchable(status: JobStatus) { status.Pending? || status.Queued? }

  function NewRow(repo: string, now: int): Row {
    Row(Job(repo, Queued, now, 0, 0), Dispatch(1, Waiting, now, None, None, None, None, 0), None, 0, [], 0)
  }

  // ----- claims -----

  predicate Claimable(d: Dispatch, now: int) {
    || (d.state == Waiting && d.availableAt <= now)
    || (d.state == Claimed && d.claimExpiresAt.Some? && d.claimExpiresAt.value < now)
  }

  /** Claim the dispatch and mark the job as running, in one commit. */
  function ClaimRow(row: Row, w: Worker, now: int, ttl: int): Option<Row> {
    if Claimable(row.dispatch, now) then
      Some(row.(dispatch := row.dispatch.(state := Claimed, claimedBy := Some(w), claimExpiresAt := Some(now + ttl),
                                          heartbeatAt := Some(now), attempts := row.dispatch.attempts + 1),
                job := row.job.(status := Running, startedAt := now),
                claimants := row.claimants + [w]))
    else None
  }

  predicate HoldsClaim(d: Dispatch, w: Worker, now: int) {
    d.state == Claimed && d.claimedBy == Some(w) && d.claimExpiresAt.Some? && d.claimExpiresAt.value >= now
  }

  predicate HoldsLease(lease: Option<Lease>, w: Worker, now: int) {
    lease.Some? && lease.value.worker == Some(w) && !lease.value.released && lease.value.expiresAt >= now
  }

  /** Renew lease and claim together, or neither. */
  function RenewRow(row: Row, w: Worker, now: int, ttl: int): Option<Row> {
    if HoldsLease(row.lease, w, now) && HoldsClaim(row.dispatch, w, now) then
      Some(row.(lease := Some(row.lease.value.(expiresAt := now + ttl)),
                dispatch := row.dispatch.(claimExpiresAt := Some(now + ttl), heartbeatAt := Some(now))))
    else None
  }

  /** Close the dispatch for its owner; anyone else changes nothing. */
  function FinalizeRow(row: Row, w: Worker, outcome: Outcome): Row {
    if row.dispatch.claimedBy == Some(w) then
      row.(dispatch := row.dispatch.(state := Closed(outcome), claimedBy := None, claimExpiresAt := None))
    else row
  }

  /** End the job unless it has ended already. */
  function FinishRow(row: Row, outcome: Outcome): Row {
    if Active(row.job.status) then row.(job := row.job.(status := Ended(outcome))) else row
  }

  /** Record a cancellation; a job that has not started ends at once. */
  function CancelRow(row: Row, now: int): Row {
    var d := row.dispatch;
    if d.state.Closed? then row
    else
      var asked := d.(state := CancelRequested,
                      cancelRequestedAt := if d.cancelRequestedAt.Some? then d.cancelRequestedAt else Some(now));
      if Dispatchable(row.job.status) then
        row.(job := row.job.(status := Ended(Cancelled)), dispatch := asked.(state := Closed(Cancelled)))
      else row.(dispatch := asked)
  }

  // ----- reconciliation -----

  predicate Abandoned(row: Row, now: int) {
    && row.job.status == Running
    && (row.dispatch.heartbeatAt.None? || row.dispatch.heartbeatAt.value < now - GRACE)
  }

  function AbandonedOutcome(row: Row, now: int, timeout: int): Outcome {
    if row.dispatch.cancelRequestedAt.Some? then Cancelled
    else if now - row.job.startedAt >= timeout + GRACE then TimedOut
    else Failed
  }

  /** Job, dispatch and lease are closed together. */
  function CloseRow(row: Row, outcome: Outcome): Row {
    row.(job := row.job.(status := Ended(outcome)),
         dispatch := row.dispatch.(state := Closed(outcome), claimedBy := None, claimExpiresAt := None),
         lease := if row.lease.Some? && !row.lease.value.released
                  then Some(row.lease.value.(released := true, worker := None)) else row.lease)
  }

  function ReconcileRow(row: Row, now: int, timeout: int): Row {
    if Abandoned(row, now) then CloseRow(row, AbandonedOutcome(row, now, timeout)) else row
  }

  // ----- leases -----

  /**
    A lease row stands in the way.  When deletions reach the table at once (evicts), an expired one
    does not.
   */
  function AcquireRow(row: Row, w: Worker, now: int, ttl: int, evicts: bool): Option<Row> {
    if row.lease.Some? && !(evicts && row.lease.value.expiresAt < now) then None
    else Some(row.(lease := Some(Lease(Some(w), now + ttl, false))))
  }

  function ReleaseRow(row: Row, w: Worker): Row {
    if row.lease.Some? && !row.lease.value.released && row.lease.value.worker == Some(w) then
      row.(lease := Some(row.lease.value.(released := true, worker := None)))
    else row
  }

  function ExpireRow(row: Row, cutoff: int): Row {
    if row.lease.Some? && !row.lease.value.released && row.lease.value.expiresAt < cutoff then
      row.(lease := Some(row.lease.value.(released := true, worker := None)))
    else row
  }

  // ----- storing a result: two commits -----

  datatype Guard = AlreadyStored | NotActive | Proceed

  function StoreGuard(row: Row, version: nat): Guard {
    if row.job.resultVersion >= version then AlreadyStored
    else if !Active(row.job.status) then NotActive
    else Proceed
  }

  /** The first commit. */
  function OpenStore(row: Row, version: nat): Row {
    if StoreGuard(row, version) == Proceed then row.(job := row.job.(status := Running)) else row
  }

  /** The second commit: asset rows, counters and the terminal status together. */
  function CommitStore(row: Row, version: nat, found: nat): Row {
    row.(job := row.job.(status := Ended(Completed), resultVersion := version, assetsFound := found),
         assets := row.assets + found, stores := row.stores + 1)
  }
}
