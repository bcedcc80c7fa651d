# Verified model of the scan control plane, the matchers and the correlators

This project models the parts of ECDAT whose correctness is hardest to see by reading one function,
and proves what they promise. `dafny verify dfyconfig.toml` checks all of it.

**Optimal matching** (`Pairings`, `Hungarian`, `HungarianProof`, `HungarianInPlace`, `Matching`,
`HungarianDiagonal`, `Operations`, `OperationCounts`, `Evaluation`, `MetadataTies`, `KnownKeys`,
`TieChoices`, `TwoRows`, `TieOrders`, `MatchOperations`, `Rearranging`, `Totals`, `JointPairing`, `Compare`,
`CompareOptimal`, `CompareWitness`).
The rectangular Hungarian algorithm is written twice: as functions that mirror its three nested
loops, and as methods that update the arrays `u`, `v`, `p`, `way`, `minimum` and `used` in place and
are proved equal to the functions. Optimality is linear-programming duality: the search loop keeps
feasible potentials, tight edges and a search tree, the walk back augments, and the final potentials
certify the pairing. Both users of the algorithm are built on it. For the v2 evaluator an exchange
argument shows that true positives and `usage_correct` are the common components and the common
(component, usage) combinations, for lists of any length, so the weight 100 always suffices; all
counters but two are therefore independent of list order and ties.

The two exceptions are `metadata_pair_correct` and `known_key_size_correct`. `TieOrders` runs the
algorithm on two orders of the same lists, for any operation, and gets different counts. `TieChoices`
says what order can do at all: every optimal pairing is the one the algorithm chooses for some order of
the lists (put its pairs in ascending order of their columns' potentials, and no row inserted later
disturbs an earlier one), so the counts over all orders are exactly those of the optimal pairings. Hence
`metadata_pair_correct` is independent of order exactly when no optimal pairing has *tied* pairs, and
`known_key_size_correct` exactly when all optimal pairings agree on it. Conditions on the lists alone
that are enough: lists that are not *entangled* (lists without a repeated key size within a component are
not), where the count is the number of common (component, usage, key size) triples; and no component with
unknown key sizes on both sides and a known one in common. The benchmark pairing is the lexicographic
optimum, identity by identity and in the totals that `compare` reports. Everything `compare` reports,
counters and leftovers, is the report of one one-to-one matching of the whole lists (`CompareWitness`); it
conserves its counts and ignores the order of its inputs.

**Durable scan dispatch** (`ScanRows`, `ScanProtocol`, `ScanInvariant`, `ScanHistory`, `ScanLeases`,
`ScanWaiting`, `ScanSafety`, `ScanTiming`, `ScanLate`, `ScanCauses`, `ScanStore`). One step is one committed transaction;
dispatchers and supervisors have program counters, crash at any point, and share a monotone clock. What
holds however late everybody is (forward-only dispatch state, withdrawn jobs, superseded owners) is
separated from what needs a hypothesis. `ScanCauses` says what a request to cancel leads to and why a scan
ends as it does: each outcome has its own cause in an earlier step of the run.

Acquiring a lease is modelled in two ways, chosen by a parameter of the configuration. The
documentation of `acquire_lease` says that an expired lease is replaced. The sessions in use
(`autoflush=False`, `backend/db.py:23`, with one lease row a job, `backend/models/scan_lease.py:16`) do
not send the deletion before the query and the insertion that follow, so that any lease row stands in
the way. In this second reading a job is claimed, and its results stored, at most once whatever
anybody's timing; but a job whose dispatcher is lost between lease and claim is never claimed, although
the module promises that the lease expires. That is the only way to lose a job: every other waiting job
can still be claimed (`ScanWaiting.WaitingJobsAreClaimable`). While it is queued its repository gets no
new scan. Within the protocol only a cancellation ends it; outside of it the recovery of stale jobs
(`backend/services/stale_job_recovery.py:35-64`), which is not modelled and runs when a server starts, if
it is switched on (`backend/main.py:278-282`), fails jobs that have been queued for three hours. In the
first reading the same safety needs *prompt* dispatchers, which reach their claim within its time to
live after checking the job; `ScanLate.LateClaimStoresTwice` and `ScanLate.LateClaimOverwrites` are runs
of the documented behaviour, not of the sessions in use. *Punctual* supervisors keep to the time allowed for
setup, poll turn, renewal and final persist. Reconciliation spares all of them that are alive exactly
when max(setup, renewal) + interval + turn + final persist is at most the grace period of 45 s (give or
take the one microsecond by which a poll turn must begin before the heartbeat is due); with the longest
interval of 10 s that leaves 35 s. `ScanStore` is the same set of transactions as methods that change
row objects in place; their contracts also say what each gives its caller.

**Rate limiter** (`RateLimit`, `RateLimitStore`). As long as times do not decrease, the pruned store
decides as the full log of hits would. Two threads can read the clock in one order and enter the store in
the other: then windows still stay within their thresholds, but more hits than the threshold can be
accepted in one window (`RateLimitStore.LateRequestExceeds`). A retry at exactly now + `Retry-After` is still denied precisely when the wait is a whole
number of seconds, because the window is closed at its old end; `RateLimit.ComingBackOnTheDot` is an
input for every window.

**Calibration** (`Calibration`, `CalibrationTables`), over the reals: ECE against the Brier score and
the difference of the means, and the two binning routines, which agree exactly on predictions in the
unit interval (outside of it ECE drops a sample that the reliability table still puts into a bin, or
rejects with an index error).

**Correlators** (`Sorting`, `Ordering`, `ComparisonSort`, `Grouping`, `Evidence`, `CorrelatorV2`,
`CorrelatorV3`, `FindingFields`). Grouping is a partition, links and ambiguity are symmetric, and the output depends on the
multiset of records; `FindingFields` says all of it on the fields of the records. The v3 promise that every record ends up in a finding is false for some inputs: `sorted(grouped.items())`
compares a missing line (or column) with a number and raises `TypeError` as soon as two records of one
file and algorithm differ in that way. The model proves that the sort fails exactly then, for any
correct sort by comparisons (`ComparisonSort`: one that never compares two neighbours cannot be right).
Of the collectors in the repository those for dependencies and certificates report no lines
(`scanner/collectors/dep_collector.py:184`, `scanner/collectors/cert_collector.py:191`) and the others
do, so the error takes a file and an algorithm that both kinds report.

**Source text** (`Masking`, `Statements`, `Literals`) and **names** (`Scopes`, `ScopeTraces`, `ScopeVisitor`).
`Literals` says where comments and literals are in terms of the characters alone, by backslashes before a
quote and first occurrences. Masking keeps every position. The docstring also promises line numbers, which `splitlines` counts by more separators than
the mask spares: they survive, whatever calls select literals, exactly when no vertical tab, form feed,
file separator, next line, line or paragraph separator is inside a comment or literal. The visitor's
bindings are a dictionary object that is copied on entering a scope and put back on leaving it, proved
equal to a function on syntax trees; and that function to reading a trace of events, in which a name means
its last binding in a scope that is still open (`ScopeTraces`).

Sorting keys that come from JSON text are abstract total orders, regular expressions over long
contexts (`selector`) are abstract predicates, times are in microseconds in the protocol and real in
the limiter.

## Model

| member | source | states |
|---|---|---|
| HungarianProof.TurnKeeps | backend/services/evaluation.py:220-241 | one turn of the search marks a fresh column and keeps feasibility, tightness, the search tree and the slacks; the first delta may be negative, later ones are not |
| HungarianProof.SearchSucceeds | backend/services/evaluation.py:220-243 | the search reaches a free column within one turn for each column |
| HungarianProof.WalkAugments | backend/services/evaluation.py:244-249 | walking back along `way` ends within one step for each marked column, keeps every earlier row paired, pairs the new one and keeps pairs tight |
| HungarianProof.InsertRowKeeps | backend/services/evaluation.py:215-249 | inserting a row keeps potentials feasible, pairs tight, `v <= 0`, `v = 0` on free columns, and holds one row more |
| HungarianProof.AssignCertified | backend/services/evaluation.py:209-260 | the final potentials certify the returned pairing for every rectangular integer matrix |
| HungarianProof.AssignOptimal | backend/services/evaluation.py:209-260 | all rows are paired one to one, and no such pairing costs less |
| Pairings.WeakDuality | backend/services/evaluation.py:209-249 | feasible potentials bound the cost of every full pairing from below |
| Pairings.CertifiedIsOptimal | backend/services/evaluation.py:209-249 | a certified pairing is optimal |
| HungarianInPlace.ScanColumns | backend/services/evaluation.py:223-234 | the scan in place computes the slacks, predecessors, delta and next column of the specification |
| HungarianInPlace.RelaxColumns | backend/services/evaluation.py:235-240 | the shift of potentials in place |
| HungarianInPlace.WalkBack | backend/services/evaluation.py:244-249 | the walk back in place terminates and equals the specified walk |
| HungarianInPlace.SearchInPlace | backend/services/evaluation.py:217-243 | the search loop in place reaches a free column and equals the specified search |
| HungarianInPlace.InsertRowInPlace | backend/services/evaluation.py:215-249 | the body of the outer loop updates the four arrays as specified |
| HungarianInPlace.AssignInPlace | backend/services/evaluation.py:209-260 | the whole algorithm on arrays returns the certified pairing |
| Matching.HungarianMatch | backend/services/evaluation.py:195-266 | the pairs, and exactly the unpaired positions of both lists |
| Matching.MatchIsOptimal | backend/services/evaluation.py:185-266 | for every score, no pairing of full size has a larger total in the orientation the function uses |
| Matching.MatchMaximisesScore | backend/services/evaluation.py:185-194 | the documented promise: maximum total score, for every symmetric score |
| Matching.ShorterMaximisesScore | backend/services/evaluation.py:199-207 | the same for every score, symmetric or not, when the expected list is not the longer one |
| Matching.SymmetryIsNeeded | backend/services/evaluation.py:199-207 | with exchanged lists an asymmetric score is maximised in the wrong orientation |
| Operations.NoLabelOpenTwice | backend/services/evaluation.py:273-321 | in every optimal pairing no two unmatched operations share a component (or, for usage, component and usage) |
| OperationCounts.AgreeingCount | backend/services/evaluation.py:291-336 | agreeing pairs are, label by label, the smaller of the two sides |
| OperationCounts.AcceptedIsBest | backend/services/evaluation.py:273-336 | among matchings within components the accepted one is largest, and then has the largest 101 * usage + key size |
| Evaluation.MissedExactly | backend/services/evaluation.py:309-322 | a position is missed exactly when no chosen pair joins it to an operation of its component |
| Evaluation.UnexpectedExactly | backend/services/evaluation.py:309-323 | the same for unexpected operations |
| Evaluation.EvaluateAccounts | backend/services/evaluation.py:304-350 | matched + missed = expected, matched + unexpected = actual, every known expected key size is counted once |
| Evaluation.CountersMean | backend/services/evaluation.py:312-350 | closed forms of true positives and `usage_correct` |
| Evaluation.KeySizeCorrectIsBest | backend/services/evaluation.py:273-332 | `key_size_correct` is the most an equally good matching attains |
| Evaluation.OrderDoesNotMatter | backend/services/evaluation.py:291-350 | all counts but the two of the next rows are independent of the order of either list, for all lists |
| MetadataTies.PairCorrectMeans | backend/services/evaluation.py:331-332 | `metadata_pair_correct` is at most the number of common (component, usage, key size) triples, and equal to it unless the lists are entangled |
| MetadataTies.DistinctIsUnentangled | backend/services/evaluation.py:331-332 | lists in which no component repeats a key size are not entangled |
| MetadataTies.TiesDecide | backend/services/evaluation.py:273-288 | every optimal pairing pairs all common triples exactly when none of them has tied pairs |
| MetadataTies.AllTriplesPaired | backend/services/evaluation.py:273-288 | from any optimal pairing, exchanges of equal score lead to one that pairs all common triples |
| KnownKeys.KnownCorrectAtMost | backend/services/evaluation.py:333-336 | `known_key_size_correct` is at most the number of common (component, known key size) combinations |
| KnownKeys.KnownCorrectMeans | backend/services/evaluation.py:333-336 | where no component has unknown key sizes on both sides and a known one in common, every equally good matching has the same known key-size matches |
| HungarianDiagonal.OptimalIsCertified | backend/services/evaluation.py:209-249 | potentials that certify one optimal pairing certify every other |
| HungarianDiagonal.LadderIsAssigned | backend/services/evaluation.py:209-260 | the algorithm returns the diagonal whenever potentials certify it that do not decrease along the columns, ties included |
| TieChoices.EveryOptimumIsChosen | backend/services/evaluation.py:185-266 | every optimal pairing is the one chosen for some order of the lists |
| TieChoices.ReportedExactly | backend/services/evaluation.py:291-350 | a count is reported for some order of the lists exactly when some optimal pairing has it |
| TieChoices.PairCorrectOrder | backend/services/evaluation.py:331-332 | `metadata_pair_correct` is independent of order exactly when no optimal pairing has tied pairs |
| TieChoices.KnownCorrectOrder | backend/services/evaluation.py:333-336 | `known_key_size_correct` is independent of order exactly when all optimal pairings agree on it |
| TieOrders.ScoresKept | backend/services/evaluation.py:343-350 | for lists that are not entangled and keep known and unknown key sizes apart all metadata scores are independent of order |
| TwoRows.TwoRowsAssigned | backend/services/evaluation.py:215-260 | what the algorithm returns for two rows and three columns when the first column is cheapest for both |
| TieOrders.MetadataPairDependsOnOrder | backend/services/evaluation.py:331-332 | for any operation, lists on which the evaluator reports `metadata_pair_correct` 1 or 0 depending on their order |
| TieOrders.KnownKeySizeDependsOnOrder | backend/services/evaluation.py:333-336 | the same for `known_key_size_correct` |
| MatchOperations.KeepPairs | backend/services/evaluation.py:315-336 | the loop marks exactly the accepted operations in place and counts them |
| MatchOperations.Match | backend/services/evaluation.py:291-350 | matched, missed and unexpected operations and scores are those of the specification; only matched operations are marked |
| JointPairing.JointPairsOf | scripts/benchmark_external.py:26-91 | the joint pairing of the lists as given, with exactly the unpaired positions |
| JointPairing.JointIsPairing | scripts/benchmark_external.py:81-91 | sorted one-to-one pairs of full size, with original positions restored |
| JointPairing.JointLexicographic | scripts/benchmark_external.py:36-41 | most metadata matches, and among those most usage matches, for lists of any length |
| JointPairing.SortedAlready | scripts/benchmark_external.py:27-33 | lists that come sorted, as from `compare`, are paired as they stand |
| Compare.CompareAccounts | scripts/benchmark_external.py:94-124 | tp + fn = expected, tp + fp = actual, tp is the multiset intersection of identities, known keys are the expected ones |
| Compare.ComparePermuted | scripts/benchmark_external.py:94-140 | nothing reported changes when either input is permuted |
| Compare.CompareItems | scripts/benchmark_external.py:94-123 | the loops compute the specified counts and lists |
| CompareOptimal.CompareIsBest | scripts/benchmark_external.py:94-124 | no one-to-one matching within identities has more usage plus key-size matches than `compare` reports, and of those with as many none has more usage matches |
| CompareWitness.ComparedBy | scripts/benchmark_external.py:94-124 | there is a one-to-one matching at equal file, line and algorithm whose pairs are the true positives, whose pairs with equal usage, equal key size, both, and equal known key size are the four counters, and whose leftovers are the lists; no two leftovers could be paired |
| CompareWitness.MetadataBounds | scripts/benchmark_external.py:114-120 | joint agreement is at most either agreement and at least their sum less the pairs; it is at most the common items, and known agreement at most the common places with known key sizes |
| CompareWitness.LeftoversInOrder | scripts/benchmark_external.py:104-123 | missed and unexpected items are listed by identity and within it by the items' order |
| ScanInvariant.ApplyKeeps | backend/services/scan_control.py:55-415 | every transaction, by whomever and however late, keeps job, dispatch, assets and process states consistent |
| ScanInvariant.RunKeeps | backend/services/scan_control.py:55-415 | the invariant on every state of every run |
| ScanHistory.StepChanges | backend/services/scan_control.py:55-415 | a step changes a row by at most one of the transactions |
| ScanHistory.OnlyForward | backend/services/scan_control.py:76-174 | on every run the dispatch state only moves forward, claimants, assets and versions only grow |
| ScanHistory.ClosedForGood | backend/services/scan_control.py:154-174 | a closed dispatch never changes again, has no owner, and its job has ended |
| ScanHistory.WithdrawnForGood | backend/services/scan_control.py:277-306 | a job cancelled while queued stays cancelled, without assets |
| ScanHistory.TakeoverIsLate | backend/services/scan_control.py:83-106 | a claim changes hands only strictly after its holder's last heartbeat plus the time to live |
| ScanHistory.SupersededForGood | backend/services/scan_control.py:134-174 | from then on the holder's renewals fail and its finalising changes nothing |
| ScanHistory.OneScanPerReplica | backend/services/scan_control.py:216-274 | one replica works on one scan at a time |
| ScanHistory.CompletedHasResult | backend/services/scanner_runner.py:149-159 | a completed job has a stored result, after which the version guard refuses another |
| ScanLeases.StandingLeasesTakeNothing | backend/services/scan_lease.py:49-71 | when any lease row stands in the way, no claim is ever taken over, whatever the timing |
| ScanWaiting.WaitingJobsAreClaimable | backend/services/scan_lease.py:1-8 | on every run a waiting job can still be claimed on some continuation exactly when expired leases are replaced or it is not stranded by the loss of its dispatcher |
| ScanWaiting.StrandedBlocksRepository | backend/services/scan_control.py:55-73 | a stranded job that nobody cancels stays queued, and no other scan of its repository can be enqueued |
| ScanSafety.ClaimedAtMostOnce | backend/services/scan_control.py:76-106 | with prompt dispatchers, or with lease rows that stand, a job is claimed at most once; the expired-claim branch is never taken |
| ScanSafety.SupervisorsAreUnique | backend/services/scan_control.py:177-213 | under the same hypothesis a job has at most one supervisor |
| ScanSafety.StoredAtMostOnce | backend/services/scanner_runner.py:149-262 | under the same hypothesis results are stored at most once, `assets_found` is the number of rows, and completed jobs have theirs |
| ScanSafety.StoreIsAllOrNothing | backend/services/scanner_runner.py:163-273 | assets, counter and version change only in the commit that completes the job |
| ScanSafety.OneActivePerRepository | backend/services/scan_control.py:55-73 | under the same hypothesis two jobs that have not ended are on different repositories |
| ScanTiming.LiveJobsAreLeftAlone | backend/services/scan_control.py:364-415 | with punctual supervisors, and dispatchers however late, reconciliation never touches a job whose supervisor is alive, and that supervisor owns the dispatch |
| ScanTiming.StoredOnceInTime | backend/services/scanner_runner.py:149-262 | with punctual supervisors results are stored at most once, even when claims are taken over |
| ScanTiming.StatusWrittenOnce | backend/services/scan_control.py:334-415 | with punctual supervisors, and prompt dispatchers or lease rows that stand, a terminal status is never overwritten |
| ScanTiming.OverwrittenExactlyBy | backend/services/scan_control.py:76-106 | in any state, exactly a late commit of a result or a takeover overwrites a terminal status |
| ScanLate.InTimeIsExact | backend/services/scan_control.py:369-391 | reconciliation spares every live punctual supervisor exactly when the longest gap between heartbeats fits into the grace period |
| ScanLate.TooLongOverwrites | backend/services/scan_control.py:542-599 | otherwise there is a run, everybody prompt and punctual, on which a job closed as abandoned is completed |
| ScanLate.LateCommitOverwrites | backend/services/scanner_runner.py:160-262 | for any configuration, a run with a late supervisor on which the second commit completes a job already closed as failed |
| ScanLate.LateClaimStoresTwice | backend/services/scan_lease.py:46-59 | if expired leases are replaced as documented, a run on which a late dispatcher takes over and results are stored twice |
| ScanLate.LateClaimOverwrites | backend/services/scan_control.py:91-106 | if expired leases are replaced as documented, a run with punctual supervisors on which a takeover makes a completed job run |
| ScanLate.LostDispatcherStrands | backend/services/scan_control.py:224-234 | a run to a job with a lease row, unclaimed, and without anybody who could claim it |
| ScanCauses.CancelIsSeen | backend/services/scan_control.py:284-306 | on every run, a request to cancel a scan that is not closed leaves its time stamp, that of the first one, for good; nobody can claim the scan any more, every supervisor of it that sets up or polls, on whatever replica, can end it as cancelled, and reconciliation does if it is abandoned |
| ScanCauses.CancelSignals | backend/services/scan_control.py:277-283 | a request signals the supervisor on its own replica, whatever the state of the dispatch, and nobody else |
| ScanCauses.ClaimsLast | backend/services/scan_control.py:91-151 | on every run a claim lasts the time limit and a minute from its last heartbeat on |
| ScanCauses.EndedForCause | backend/services/scan_control.py:334-415 | on every run each outcome of a job or dispatch has its own cause in an earlier step: a stored result, a request to cancel, a limit that was exceeded, or a failure |
| ScanCauses.ReconciledOutcome | backend/services/scan_control.py:373-413 | an abandoned scan ends as cancelled if that was asked for, else as timed out if it is overdue, else as failed, without claim or lease; others stay as they are |
| ScanCauses.ExpiredLeasesOnly | backend/services/scan_lease.py:131-157 | from the cutoff on everybody holds the leases they held, and no lease that expired before is left unreleased |
| ScanCauses.LeavingReleases | backend/services/scan_lease.py:111-123 | a process that leaves gives back its own lease and slot and nobody else's |
| ScanStore.ScanRecord.ClaimDispatch | backend/services/scan_control.py:76-106 | a claim succeeds only while nobody holds a live one, is held until its time to live has passed, and failing changes nothing |
| ScanStore.ScanRecord.Start | backend/services/scan_control.py:190-211 | claim and start of the job in one transaction, or neither; a newcomer's claim keeps the row consistent and moves it forward |
| ScanStore.ScanRecord.RenewClaim | backend/services/scan_control.py:134-151 | lease and claim are renewed together, or rolled back |
| ScanStore.ScanRecord.FinalizeDispatch | backend/services/scan_control.py:154-174 | afterwards the worker cannot renew and finalising again changes nothing; only the owner closes the dispatch; a row whose job has ended stays consistent |
| ScanStore.ScanRecord.FinishIfActive | backend/services/scan_control.py:334-347 | afterwards the job has ended and every further outcome is ignored; the row of a claimed dispatch stays consistent |
| ScanStore.ScanRecord.RequestCancel | backend/services/scan_control.py:284-306 | afterwards nobody can claim the dispatch, the time of the first request is recorded, a job that has not started has ended, and asking again changes nothing; the row stays consistent and moves forward |
| ScanStore.ScanRecord.AcquireLease | backend/services/scan_lease.py:37-76 | both readings: a lease is acquired only while nobody holds one, and, if the deletion is not flushed, only without any lease row |
| ScanStore.ScanRecord.ReleaseLease | backend/services/scan_lease.py:111-123 | afterwards the worker holds no lease, everybody else holds what they held, and the lease row stays |
| ScanStore.ScanRecord.OpenResult | backend/services/scanner_runner.py:141-161 | nothing is written unless it proceeds; once a result of this version is stored the guard refuses the next; on a claimed dispatch the write makes no difference |
| ScanStore.ScanRecord.CommitResult | backend/services/scanner_runner.py:163-262 | one asset row a finding in order, counted; a malformed finding leaves nothing |
| ScanStore.ScanTables.EnqueueScan | backend/services/scan_control.py:55-73 | the latest active job of the repository, or a new queued one |
| ScanStore.ScanTables.ReconcileAbandoned | backend/services/scan_control.py:364-415 | closes exactly the abandoned jobs, with their leases, and counts them |
| ScanStore.ScanTables.ReconcileExpiredLeases | backend/services/scan_lease.py:131-157 | releases exactly the expired leases and counts them |
| RateLimit.NeverOverThreshold | backend/middleware/rate_limit.py:68-79 | on every run, at most threshold recorded hits of a key in any closed interval of length window |
| RateLimit.RecordsPrefix | backend/middleware/rate_limit.py:99-109 | a request is accepted exactly when every distinct key is below its threshold; a denied one is recorded for the keys before the first full one only |
| RateLimit.RetryInWindow | backend/middleware/rate_limit.py:82-93 | Retry-After lies between 1 and the window and covers every full key |
| RateLimit.RetryIsLeast | backend/middleware/rate_limit.py:82-93 | no smaller number of whole seconds covers every full key; without a full key it is the window |
| RateLimit.RetryIsAccepted | backend/middleware/rate_limit.py:82-109 | a retry strictly later than that is accepted |
| RateLimit.RetryOnTheDot | backend/middleware/rate_limit.py:57-61 | a retry exactly then is denied precisely when the longest wait is a whole number of seconds |
| RateLimit.ComingBackOnTheDot | backend/middleware/rate_limit.py:57-61 | an input: with a limit of one, a second request is told to wait the whole window and denied again exactly then |
| RateLimitStore.InMemoryStore.Prune | backend/middleware/rate_limit.py:56-65 | keeps exactly the hits inside the window, of one rule key or of all, and no empty windows |
| RateLimitStore.InMemoryStore.Allow | backend/middleware/rate_limit.py:68-79 | at any time what the stored windows say; decides and records as any full log it is in step with, and leaves other rule keys alone |
| RateLimitStore.InMemoryStore.RetryIn | backend/middleware/rate_limit.py:82-93 | the longest wait over the full stored windows; that of the full log when they are current |
| RateLimitStore.InMemoryStore.Check | backend/middleware/rate_limit.py:99-109 | at any time windows stay within their thresholds and other rule keys are untouched; while times do not decrease the decisions are those of the full log and Retry-After lies within the window |
| RateLimitStore.CheckMirrors | backend/middleware/rate_limit.py:99-109 | pruned store and full log decide alike and stay in step when time has not decreased |
| RateLimitStore.CheckKeepsBounded | backend/middleware/rate_limit.py:56-79 | whatever the time, stored windows stay sorted and no longer than their thresholds |
| RateLimitStore.LateRequestExceeds | backend/middleware/rate_limit.py:56-65 | an input, for every window and delay: a late time lets a limit of one accept two hits in one closed window |
| RateLimitStore.InsertSorts | backend/middleware/rate_limit.py:77-78 | the stored timestamps stay sorted |
| Calibration.BinningsAgree | backend/services/calibration.py:165-171 | a prediction is in some bin exactly when it lies in the unit interval, and then in the one the reliability table uses |
| Calibration.BrierAdds | backend/services/calibration.py:147-152 | the Brier score times the number of samples adds up the squared errors |
| Calibration.SlotExactly | backend/services/calibration.py:214-217 | the slot of any prediction, the last one for large ones and counted from the end for those below zero |
| Calibration.BinsPartition | backend/services/calibration.py:165-183 | the bins partition the samples |
| Calibration.CauchySchwarz | backend/services/calibration.py:147-152 | the inequality between the sum of absolute errors and the sum of squares |
| Calibration.EceBelowBrier | backend/services/calibration.py:147-190 | the squared ECE is at most the Brier score, whatever the predictions |
| Calibration.EceBetween | backend/services/calibration.py:155-190 | ECE lies between the difference of the means and 1 |
| CalibrationTables.ComputeEce | backend/services/calibration.py:155-190 | bin means weighted by counts add up to the ECE; error cases |
| CalibrationTables.ReliabilityData | backend/services/calibration.py:193-238 | edges, means and counts of each slot; empty slots, unequal lists, index and division errors |
| CalibrationTables.TableShowsEce | backend/services/calibration.py:193-238 | for predictions in the unit interval the table determines the ECE |
| Grouping.GroupsPartition | backend/services/correlator_v3.py:188-196 | each record is in the group of its own key, as often as it occurs, and in no other |
| Grouping.GroupRecords | backend/services/correlator_v3.py:188-196 | the dictionary of groups, with keys in order of first appearance |
| Ordering.SortByIs | backend/services/correlator_v3.py:377-377 | sorting tuples with missing numbers by insertion fails exactly when two of them first differ in a missing and a present number |
| ComparisonSort.AdjacentAreCompared | backend/services/correlator_v3.py:377-377 | a sort by comparisons that is right for every order compares all entries with nothing between them |
| ComparisonSort.EveryCorrectSort | backend/services/correlator_v3.py:377-377 | so every such sort of distinct tuples fails on the same inputs, and sorts all others |
| ComparisonSort.InsertionIsCorrect | backend/services/correlator_v3.py:377-377 | insertion sort is such a sort, for any number of entries |
| Evidence.EvidenceSummary | backend/services/correlator_v3.py:270-288 | sources in order, their best confidences, and each record once |
| Evidence.BestIsMaximum | backend/services/correlator_v3.py:281-283 | the confidence of a source is the maximum of its records, zero at least |
| CorrelatorV3.CrossKindLinks | backend/services/correlator_v3.py:199-218 | links are the other kinds at the same place |
| CorrelatorV3.LinksSymmetric | backend/services/correlator_v3.py:199-218 | findings at one place link to each other's kinds, and each linked kind is that of such a finding |
| CorrelatorV3.AmbiguousMatches | backend/services/correlator_v3.py:238-267 | the record-against-record loops store the specified matches |
| CorrelatorV3.AmbiguityCount | backend/services/correlator_v3.py:114-133 | a group stores its size times the records of the groups that clash with it |
| CorrelatorV3.AmbiguitySymmetric | backend/services/correlator_v3.py:238-267 | two groups store equally many matches about each other: the product of their sizes, or none |
| CorrelatorV3.Correlate | backend/services/correlator_v3.py:370-381 | one finding a group in key order, or a type error exactly when the groups of two records are incomparable |
| CorrelatorV3.UnlocatedEvidenceFails | backend/services/correlator_v3.py:377-377 | any evidence with a located and an unlocated record of one file and algorithm raises the type error |
| CorrelatorV3.FailureKept | backend/services/correlator_v3.py:168-177 | whether the type error is raised depends on the multiset of records only |
| CorrelatorV3.EverySortFails | backend/services/correlator_v3.py:377-377 | any correct sort by comparisons raises it on the keys of the same evidence |
| CorrelatorV3.EveryRecordOnce | backend/services/correlator_v3.py:188-196 | every record is evidence of exactly one finding |
| CorrelatorV3.OrderOfArrival | backend/services/correlator_v3.py:168-177 | the findings depend on the multiset of records only |
| FindingFields.SharedV3 | backend/services/correlator_v3.py:80-88 | two records are evidence of one finding exactly when file, algorithm, line, column, kind and anchor agree, a missing anchor counting as an empty one |
| FindingFields.EvidenceV3 | backend/services/correlator_v3.py:270-288 | the evidence of a finding is that with its six fields; sources and best confidences are those of the evidence |
| FindingFields.LinksV3 | backend/services/correlator_v3.py:199-218 | a finding links to the other kinds of evidence with its file, algorithm, line, column and anchor |
| FindingFields.MatchV3 | backend/services/correlator_v3.py:114-133 | merged when near and of one kind, ambiguous, and alone uncertain, when neither |
| FindingFields.AmbiguousV3 | backend/services/correlator_v3.py:238-267 | which matches a finding stores, and how many: one for each of its records and each piece of evidence of another kind in its file, for its algorithm, not within five lines |
| FindingFields.ListedV3 | backend/services/correlator_v3.py:377-380 | findings are in the order of file, algorithm, line, column, anchor and kind |
| CorrelatorV2.DroppedExactly | backend/services/correlator.py:89-105 | exactly which dependency records are dropped |
| CorrelatorV2.KeptSafely | backend/services/correlator.py:96-106 | direct evidence, and components without any, lose nothing |
| CorrelatorV2.DroppingIsFinal | backend/services/correlator.py:89-105 | a second pass over the kept records drops nothing |
| CorrelatorV2.KeptRecordsOnce | backend/services/correlator.py:96-123 | a record is evidence of exactly one finding unless it is dropped |
| CorrelatorV2.ConflictIsPlural | backend/services/correlator.py:124-127 | an operation conflicts exactly when two direct records of one category disagree |
| CorrelatorV2.Correlate | backend/services/correlator.py:76-158 | grouping, conflicts, sources, confidences and de-duplication of every finding |
| CorrelatorV2.OrderOfArrival | backend/services/correlator.py:78-79 | the findings depend on the multiset of records only |
| FindingFields.SharedV2 | backend/services/correlator.py:96-106 | two records are evidence of one finding exactly when component, algorithm, usage, kind, file and operation agree and neither is contradicted |
| FindingFields.EvidenceV2 | backend/services/correlator.py:96-123 | the evidence of a finding is that with its six fields which is not contradicted |
| FindingFields.SourcesV2 | backend/services/correlator.py:112-123 | sources and best confidences are those of the evidence |
| FindingFields.ConflictV2 | backend/services/correlator.py:124-127 | a finding conflicts exactly when two direct records with its file and operation agree in category and differ in algorithm |
| FindingFields.ListedV2 | backend/services/correlator.py:108-109 | findings are in the order of component, algorithm, usage, kind, file and operation |
| Masking.TokensAreAll | scanner/collectors/rule_collector.py:41-45 | the matches are the leftmost ones and no token starts outside of them |
| Literals.QuotedEndIs | scanner/collectors/rule_collector.py:41-41 | a quoted literal ends right after the first quote that an even number of backslashes precedes, unless a line feed is escaped before it |
| Literals.TokensExactly | scanner/collectors/rule_collector.py:41-45 | the tokens are exactly the leftmost comments and literals, these described by first occurrences and parity of backslashes |
| Literals.KeptOrBlank | scanner/collectors/rule_collector.py:49-55 | character by character: a literal in single or double quotes after 160 characters that select it is kept, everything else in a token but line feeds and carriage returns is blank |
| Masking.StripComments | scanner/collectors/rule_collector.py:39-59 | the loop's window is always the last 160 characters of output; result as specified |
| Masking.TokensAreMasked | scanner/collectors/rule_collector.py:49-55 | a token is kept when it is a plain literal that is selected, and blanked otherwise |
| Masking.MaskingKeepsPositions | scanner/collectors/rule_collector.py:39-59 | length, carriage returns, line feeds and everything outside tokens are kept |
| Statements.LineNumbersKept | scanner/collectors/rule_collector.py:39-40 | line numbers of all positions are kept, whatever is selected, exactly when no comment or literal holds a rare separator |
| Statements.LineNumbersKeptBy | scanner/collectors/rule_collector.py:39-59 | for one selector they are kept exactly when every token that holds a rare separator is a selected plain literal |
| Statements.FormFeedInComment | scanner/collectors/rule_collector.py:54-76 | an input on which a line is lost |
| Statements.JoiningGivesTheLine | scanner/collectors/rule_collector.py:74-82 | joining a line's pieces with semicolons gives back the line |
| Statements.SemicolonsSplitUnlessQuoted | scanner/collectors/rule_collector.py:78-81 | a semicolon stays inside a piece exactly when a quoted literal holds it |
| Literals.SemicolonsSplitOutsideStrings | scanner/collectors/rule_collector.py:78-81 | the same said of the characters: strings open where no earlier one is open and end at the next quote that is not escaped |
| Literals.LinesAre | scanner/collectors/rule_collector.py:76-76 | lines hold no separator, given by code points, and exactly one stands between two lines |
| Literals.LineOfPosition | scanner/collectors/rule_collector.py:76-76 | every position of a line, its separator included, has the number of that line |
| Statements.StatementsAreInPlace | scanner/collectors/rule_collector.py:74-82 | every statement is the text at its reported line and column |
| Statements.AllStatements | scanner/collectors/rule_collector.py:74-82 | the loops yield the specified statements |
| Scopes.EnclosingNamesKept | scanner/collectors/ast_collector.py:98-192 | a visit changes only names that the node binds in its own scope; nested scopes leak nothing |
| Scopes.BoundIsUnresolved | scanner/collectors/ast_collector.py:98-114 | a name bound but not imported in the scope is unresolved afterwards |
| Scopes.NeverImportedNeverResolved | scanner/collectors/ast_collector.py:90-192 | a name without a meaning that nothing inside imports resolves to nothing throughout, nested scopes included |
| Scopes.FunctionLeavesItsName | scanner/collectors/ast_collector.py:116-150 | a function whose decorators and defaults bind nothing leaves only its own name, unresolved |
| Scopes.LambdaLeavesNothing | scanner/collectors/ast_collector.py:155-165 | a lambda whose defaults bind nothing leaves the bindings as they were |
| ScopeTraces.EveryCallIsSeen | scanner/collectors/ast_collector.py:98-192 | a visit meets exactly the calls of the tree in order, those inside functions, lambdas, comprehensions and classes included |
| ScopeTraces.CallsReachBindings | scanner/collectors/ast_collector.py:85-192 | every call is resolved to the last binding of its root in a scope that is still open, followed by its attributes; the imports recorded and the bindings left are those of the trace |
| ScopeTraces.ShadowedInFunction | scanner/collectors/ast_collector.py:123-150 | parameters and locals that the body never imports resolve to nothing in the calls of the body |
| ScopeTraces.ShadowedInLambda | scanner/collectors/ast_collector.py:155-165 | the same for the parameters of a lambda |
| ScopeTraces.LocalsAreBound | scanner/collectors/ast_collector.py:130-147 | the local declarations are what the body binds in its own scope, but for attributes, decorators and defaults |
| ScopeTraces.ResolvesDotted | scanner/collectors/ast_collector.py:90-96 | an attribute chain resolves to the meaning of its root followed by its attributes |
| ScopeTraces.ImportLeaves | scanner/collectors/ast_collector.py:240-245 | an import leaves its alias standing for the module, or the first component for itself, and is recorded |
| ScopeTraces.FromLeaves | scanner/collectors/ast_collector.py:226-238 | an import from a module leaves its name standing for the member, a relative one for nothing |
| ScopeVisitor.CryptoVisitor.VisitImportFrom | scanner/collectors/ast_collector.py:226-238 | absolute imports bind and are recorded, relative ones shadow |
| ScopeVisitor.CryptoVisitor.VisitImport | scanner/collectors/ast_collector.py:240-245 | bound names and recorded imports |
| ScopeVisitor.CryptoVisitor.VisitNode | scanner/collectors/ast_collector.py:98-192 | copying the dictionary on entering a scope and putting it back does what the function on trees does, and the same dictionary object is current again |

## Left out

- ScanSafety.ClaimedAtMostOnce: if leases are replaced as documented, is stated for prompt dispatchers, because without that hypothesis `ScanLate.LateClaimStoresTwice` is a counterexample.
- ScanTiming.StatusWrittenOnce: is stated for punctual supervisors and against takeovers, because otherwise `ScanLate.LateCommitOverwrites` and `ScanLate.LateClaimOverwrites` are counterexamples.
- RateLimit.NeverOverThreshold: is stated for times that do not decrease, because otherwise `RateLimitStore.LateRequestExceeds` is a counterexample.
- Masking.StripComments: the regular expression that recognises selecting calls is an abstract predicate on the last 160 characters.
- CorrelatorV3.CrossKindLinks: links are sets, since the source lists the entries of a Python set, whose order is not fixed for three kinds or more.
- Evaluation.OrderDoesNotMatter: leaves out the identity of the matched operations and two counters, which ties can change (`TieOrders`).
- KnownKeys.KnownCorrectMeans: its condition on the lists is sufficient; the exact one, `TieChoices.KnownCorrectOrder`, speaks of the optimal pairings.
- MetadataTies.PairCorrectMeans: lists that are entangled can still have the equality; the exact condition, `MetadataTies.TiesDecide`, speaks of the optimal pairings.
- Worker identities: host name and thread number are assumed distinct for each dispatch attempt.
- Clocks: all replicas read one monotone clock, and a transaction commits at the time it was stamped with.
- Leases: the time to live of a new lease is computed from the same timeout as that of a claim; both read the same setting.
- Enqueueing is atomic, as its docstring says; an unflushed deletion or a violated unique constraint is a failing acquisition.
- Process handling of `supervise`: spawning, the one retry of a crashed worker (another stretch of polling), heartbeat and cancel files, progress copies and termination.
- `run_scan` and stale-job recovery write the job status without the dispatch row and are outside the protocol.
- Scoring of findings, risk fields and failures stored beside the assets.
- Rounding of reported figures and floating-point arithmetic.
- Building operations from assets, alias maps, v1 evaluation, certificates and per-source figures.
- Hashes, JSON texts as such, and categories, libraries, protocols and key sizes of correlated findings.
- Records that already carry bookkeeping fields, and line or column numbers given as text.
- Syntax-tree nodes that bind names without a name node (exception handlers, patterns, global declarations), and the table that maps calls and imports to algorithms.
- Detection patterns, Java predicates and usage guesses of the rule collector.
