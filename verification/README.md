# Verification of redlock-toolkit

A Dafny model of the distributed locking core of redlock-toolkit: the Lua scripts as atomic steps
of a Redis node, the client code that drives them over a quorum of nodes, and the client-side
state machines around it. `dafny verify dfyconfig.toml` checks the whole project.

## What is modelled

- `Keyspace`, `LockScripts`, `OptimisticScripts`: one node's expiring keyspace and the acquire,
  extend, release and versioned scripts. Each script is a function on the keyspace; a method runs
  the script's loops in place on a `RedisNode` and is proved to compute that function.
- `Consensus`, `Toolkit`: the consensus loop for every settlement order, the consensus with
  cleanup, the acquire retry loop and the release verdict with the lock registry.
- `InternalRedlock`: the Redlock client as a class that changes its nodes in place. Which commands
  arrive, and which answers come back, are parameters.
- `RedlockProtocol`, `RedlockInvariant`, `RedlockSafety`, `RedlockExclusion`, `Refinement`: all of
  this interleaved, what every step keeps, mutual exclusion and exactly when it holds, and the
  proof that the in-place client takes steps of this protocol. Any number of clients acquire,
  retry, extend and release on any number of nodes; commands are delayed, acknowledgements lost,
  clocks drift.
- `Semaphore`, `Latch`: one node's script as a step, invariants over all runs of a node, and a
  double count that lifts them to N nodes.
- `OptimisticRedlock`, `OptimisticProtocol`: majority read, version-guarded write and rollback,
  in place on the replicas, and then as concurrent write calls.
- `CircuitBreaker`, `AutoExtension`, `Lock`: the client-side state machines. `execute` is split
  where it awaits its operation, so operations in flight overlap state changes.
- `Quorum`, `Timing`, `Wrappers`: majority arithmetic, drift arithmetic, shared datatypes.

## What the locking theorems assume

- Identifiers of clients are distinct; nodes do not lose data; nobody force-releases keys.
- One client's commands reach a node in issue order, or not at all. Retries of one acquire share
  one identifier, so a delayed cleanup must not overtake the next attempt.
- Clients read real time. A node's clock never goes backwards and runs at most (1 + rate) times
  as fast as real time, and the drift factor used is at least that rate. That an entry outlives
  `ttl - drift` is then proved, not assumed.
- A ttl is positive (Redis refuses any other), and a client's margin is at least the drift.
- Lock keys do not end in `:data`, `:version` or `:value`.
- A key is live while the clock has not passed its deadline, as in Redis and in
  tests/setup.ts:141.
- A client holds its lock while it has not called release and now < expiration. The `_released`
  flag is set later than that, only when the release has returned.

## Where the code does less than one would expect

Each of these is a theorem: a concrete input on which the property fails, and the exact condition
under which it holds.

- Extensions may ask for less than the lock already has (`extend(ttl)` takes any ttl). Let
  acquires and extensions draw their leases from any two sets of positive ttls and their margins.
  On any number of nodes mutual exclusion then holds over all runs if and only if no acquire can
  be granted at all, or the ttl of every extension, on the fastest clock, is at least the validity
  that any acquire or any extension promises (`RedlockExclusion.ExclusiveIff`).
- The repository's README.md:10 promises N-permit access control. Over a quorum, `maxPermits` is
  enforced if and only if maxPermits * (N - Q) < Q (`Semaphore.LimitEnforcedIff`); with three
  nodes that means one permit.
- A semaphore's key expires as a whole, at twice the ttl of the last acquire or extension. With
  fresh identifiers the key outlives its permits over all runs if and only if a node holds at most
  one permit, or no ttl in use is more than twice another (`Semaphore.AlwaysCoveredIff`). So a
  short extension of one permit can take another one away (`Semaphore.ShortExtensionLosesPermit`).
- Acquiring a permit again under the same identifier renews its score but not the key's deadline,
  so the permit can vanish early too (`Semaphore.ReacquiredPermitIsLost`). The retries of one
  acquire share an identifier, so this also happens when a cleanup is lost. With identifiers used
  again the key outlives its permits over all runs if and only if nothing is granted or every ttl is 1
  (`Semaphore.EverCoveredIff`; `Semaphore.AcquireCoversIff` for one call).
- The comment at src/algorithms/optimistic-redlock.ts:545-546 says a version written by another
  client is left untouched by a rollback. The script compares version numbers only, so a loser's
  rollback can delete a winner's committed write and a second writer of the same version can then
  win. Writes are exclusive over all runs if and only if there is at most one node
  (`OptimisticProtocol.ExclusiveIff`); in a single run it is enough that no rollback hits a
  standing write (`OptimisticProtocol.WriteExclusive`).
- A failed write restores every version if and only if nothing was executed, or an acknowledgement
  arrived, the rollback reached every node that executed the write and none that was at the next
  version already (`OptimisticRedlock.FailedWriteRestoresVersionsIff`). It never restores values:
  a failed and rolled-back write is what the next read returns if and only if a quorum had
  executed it (`OptimisticRedlock.FailedWriteIsReadIff`). A failed write with a ttl makes a lasting
  record expire (`OptimisticRedlock.FailedWriteMakesItExpire`).
- An event counted in a latch's last millisecond outlives the latch, and the next latch of that
  name refuses it (`Latch.CountDownKeepsCleanIff`, `Latch.LastInstantEventIsRefused`).
- A check that comes too late finds the lock invalid and is dropped: the cycle stalls and the
  signal is not aborted, so the routine is not told (`AutoExtension.StallsIff`,
  `AutoExtension.LateCheckIsSilent`). The branch that aborts on an expired lock needs a manager
  whose expiration differs from the lock's.
- Extensions answered out of order move a lock's expiration back. It never falls over a run if
  and only if the granted answers arrive in ascending order (`Lock.ExpirationNeverFallsIff`).
- Releasing a lock on `a` deletes a foreign lock on a resource called `a:data`
  (`LockScripts.ReleaseDestroysForeignKey`).
- Automatic extension keeps a lock valid on every schedule if and only if the timing is fast
  enough and every manual extension that may come in between leaves more time than the check it
  comes across still needs; a manual extension moves the expiration but not the timer
  (`AutoExtension.ContinuouslyValidIff`).

## Model

The main theorems come first, then the members that run in place and the results they rest on.

| member | source | states |
|---|---|---|
| RedlockSafety.MutualExclusion | src/algorithms/redlock.ts:251-406 | at no point of any run do two clients that share a resource both hold their locks, provided no extension's deadline can pass before an expiration already asked for |
| RedlockExclusion.ExclusiveIff | src/core/lock.ts:117-139 | on any number of nodes, with acquires and extensions drawn from any sets of leases, mutual exclusion holds over all runs if and only if no acquire can be granted, or every extension's ttl is at least (1 + rate) * (ttl - drift) of every acquire and extension in use |
| RedlockSafety.ReleasedLeavesNothing | src/algorithms/redlock.ts:390-403 | in every run, a node that has executed a client's last release holds none of its keys under its identifier |
| Refinement.NodeStepsAgree | src/algorithms/redlock.ts:251-406 | what the Redlock client does at a node is a step of the interleaved protocol: same keyspace, same vote |
| Refinement.WinsAgree | src/algorithms/redlock.ts:375-388 | the client returns a lock exactly when the protocol lets the attempt win, with the claim the protocol then holds |
| Refinement.ExtensionsAgree | src/algorithms/redlock.ts:270-283 | the same for extensions |
| Consensus.Execute | src/utils/consensus-manager.ts:20-138 | for every settlement order success depends only on the outcomes: a quorum of good ones, or one under 'any'; a failure leaves nothing pending, and is rethrown exactly when nothing was good and nothing is retryable; success under 'quorum' has exactly quorumSize votes |
| Toolkit.CollectRelease | src/index.ts:630-662 | release reports success exactly when a quorum deleted something, success:false exactly when a quorum answered 0, and throws otherwise, for every settlement order |
| InternalRedlock.FailedAttemptLeavesNothing | src/algorithms/redlock.ts:390-405 | after a lost attempt no node that executed the cleanup owns any requested key under the value, even if its acquire answer was lost, and no foreign lock key changed |
| InternalRedlock.FailedExtensionLeavesNothing | src/algorithms/redlock.ts:285-290 | after a failed extension no node the release reached owns any of the keys under the value, and no foreign lock key changed |
| InternalRedlock.AttemptWonIff | src/algorithms/redlock.ts:361-388 | an attempt yields the lock exactly when a majority of the nodes answers and is free for all keys and time is left after the elapsed time and the drift; the lock then carries the keys, the value, the ttl and that validity |
| InternalRedlock.ExtensionGrantedIff | src/algorithms/redlock.ts:255-283 | an extension is granted exactly when a majority answers and owns all keys and time is left |
| Semaphore.LimitEnforcedIff | src/strategies/semaphore-strategy.ts:41-62 | over all deployments and all arrivals of commands, at most maxPermits identifiers are ever held by quorums if and only if maxPermits * (N - Q) < Q; counting only identifiers whose acquire was granted gives the same condition |
| Semaphore.AlwaysCoveredIff | src/utils/scripts.ts:423-494 | with fresh identifiers and ttls drawn from a set, the whole-set expiry is never earlier than any member's score, after every run, if and only if maxPermits is at most 1 or no ttl is more than twice another |
| Semaphore.EverCoveredIff | src/utils/scripts.ts:423-494 | when identifiers may be acquired again while held, the whole-set expiry covers every score after every run if and only if nothing is ever granted or every ttl is 1 |
| Semaphore.PermitSurvives | src/utils/scripts.ts:423-495 | under that condition, in any run, a permit nobody extends or releases any more stays on the node, with its score, until that score |
| Semaphore.PermitWorthItsTtl | src/utils/scripts.ts:415-494 | in any such run a granted acquire or extension at T makes the permit live at every instant before T + ttl and at none from then on, until somebody touches it |
| Latch.LifetimeAccount | src/utils/scripts.ts:558-593 | remaining plus distinct counted events is the target; the recorded events are these and the ones the latch found; status 2 was returned once if the latch is complete and never otherwise |
| Latch.QuorumProgress | src/strategies/countdown-latch-strategy.ts:84-108 | E events accepted by quorums force some node to zero once E * Q > N * (T - 1) plus the number of times a latch had found one of them recorded, which is 0 for fresh latches |
| Latch.LastInstantEventIsRefused | src/utils/scripts.ts:567-582 | an event sent in a last millisecond is refused by the next latch, whenever that is created and whatever happens until then |
| Latch.AwaitLatch | src/strategies/countdown-latch-strategy.ts:147-192 | polling or listening for a message, a wait returns true at the first completed status read, and then at least the target number of distinct events was counted on the node read; it reports a missing latch only on a status that says so, and times out only after the deadline or after the checks that follow a message |
| OptimisticProtocol.WriteExclusive | src/algorithms/optimistic-redlock.ts:337-375 | in any run of interleaved writes at most one call that expects a version wins, provided no rollback erases a standing write |
| OptimisticProtocol.ExclusiveIff | src/algorithms/optimistic-redlock.ts:337-375 | with rollbacks as issued, writes are exclusive in all runs if and only if there is at most one node |
| OptimisticRedlock.MajorityRead | src/algorithms/optimistic-redlock.ts:294-331 | the read returns a pair if and only if a quorum of all nodes answered that pair |
| OptimisticRedlock.FailedWriteRestoresVersionsIff | src/algorithms/optimistic-redlock.ts:367-374 | a write that misses quorum leaves every version as it was if and only if no node executed it, or an acknowledgement arrived and the rollback reached every node that executed it and none at the next version already |
| OptimisticRedlock.FailedWriteIsReadIff | src/algorithms/optimistic-redlock.ts:295-374 | a majority read after a failed, fully rolled-back write returns the failed value under the old version if and only if a quorum had executed it |
| OptimisticRedlock.FailedWriteMakesItExpire | src/algorithms/optimistic-redlock.ts:47-59 | a failed, rolled-back write with a ttl leaves that ttl on a record that may have had none: its version is restored and then the record is gone |
| OptimisticRedlock.WriteWonIff | src/algorithms/optimistic-redlock.ts:337-375 | a write returns the next version exactly when a majority of the nodes answers and is at the expected version |
| OptimisticRedlock.WonWriteIsRead | src/algorithms/optimistic-redlock.ts:271-375 | what a won write stored, under the version it returned, is what a majority read returns until its ttl runs out |
| CircuitBreaker.ProbesAreExact | src/patterns/circuit-breaker.ts:75-84 | outside half-open the probe counter is 0; in half-open it is the number of operations in flight that this phase admitted, within max(1, maxRetries) |
| CircuitBreaker.FullGateHasAnExit | src/patterns/circuit-breaker.ts:75-96 | a full half-open gate always has such an operation in flight, and its settlement leaves half-open |
| CircuitBreaker.TripsExactly | src/patterns/circuit-breaker.ts:152-168 | a closed breaker opens on exactly the failed settlement that brings the trailing run of failures to the threshold |
| CircuitBreaker.OpenUntilTimeout | src/patterns/circuit-breaker.ts:135-216 | over a whole run without manual reset: opened by a failure at time t, the breaker stays open until some call or query comes with now - t >= resetTimeout, whatever settles meanwhile |
| CircuitBreaker.AdmittedIff | src/patterns/circuit-breaker.ts:61-86 | an operation is admitted exactly when the breaker is closed, or open with resetTimeout over, or half-open with fewer than max(1, maxRetries) of this phase in flight |
| CircuitBreaker.NothingEntersUntilTimeout | src/patterns/circuit-breaker.ts:61-70 | from the failure that trips the breaker until the timeout, over any run without manual reset, no operation goes through |
| AutoExtension.ContinuouslyValidIff | src/utils/auto-extension-manager.ts:153-224 | so validity on every schedule is equivalent to that condition |
| AutoExtension.FailureAborts | src/utils/auto-extension-manager.ts:178-212 | a refused or thrown extension, or a timer that finds the expiration reached, aborts the signal of a running cycle, and it stays aborted with nothing pending until the stop |
| AutoExtension.RunningNeverStalls | src/utils/auto-extension-manager.ts:104-216 | on a lock that stays valid a running cycle always has a timer or an extension pending |
| Lock.OneRoundTrip | src/core/lock.ts:170-188 | however many callers release at once, one round trip is under way at a time and at most one ever succeeds |
| Lock.ReleasedForGood | src/core/lock.ts:117-189 | after a successful release no later call goes to the nodes again, and no late grant makes the lock valid again |
| Lock.ExpirationNeverFallsIff | src/core/lock.ts:117-148 | over any interleaving the expiration the lock shows never falls if and only if the granted answers arrive in ascending order |
| LockScripts.AcquireAllOrNothing | src/utils/scripts.ts:22-41 | acquire takes every key, with the caller's value and deadline, exactly when no key is held by another identifier; otherwise it changes nothing; other keys never change |
| LockScripts.ExtendAllOrNothing | src/utils/scripts.ts:56-75 | extend moves the deadline of every key exactly when all are owned, else of none; it never makes a key owned that was not |
| LockScripts.ForeignLocksUntouched | src/utils/scripts.ts:22-104 | no lock script alters a live lock key that another identifier owns |
| LockScripts.ReleaseDestroysForeignKey | src/utils/scripts.ts:91-96 | a live key of another owner is destroyed by a release if and only if it is named like the data key of a lock being released |
| OptimisticScripts.OptimisticAcquireEffect | src/utils/scripts.ts:273-339 | on success every key is owned at one common version above every version it had, other keys and foreign locks are unchanged; on conflict nothing changes |
| OptimisticScripts.OptimisticUpdateEffect | src/utils/scripts.ts:362-401 | an update is granted exactly when every key is owned at the expected version or has none, with the same effect |
| OptimisticScripts.OptimisticAcquireStores | src/utils/scripts.ts:273-339 | the same for a versioned acquire, whose version is one above the expected one, or 1 |
| OptimisticScripts.OptimisticUpdateStores | src/utils/scripts.ts:362-401 | an update is granted exactly when all keys are owned at the expected version or without one, and then stores the identifier, version expected + 1 and the new value for exactly the ttl, and nothing else; otherwise it changes nothing |
| LockScripts.RunAcquire | src/utils/scripts.ts:22-41 | run in place, the script's two loops leave exactly the keyspace and reply of `Acquire`: no write before every key was checked |
| LockScripts.RunExtend | src/utils/scripts.ts:56-75 | run in place, the extend script leaves exactly the keyspace and reply of `Extend`, data keys included |
| LockScripts.RunRelease | src/utils/scripts.ts:86-103 | run in place, the release script leaves exactly the keyspace and count of `Release` |
| LockScripts.DataFollowsLock | src/utils/scripts.ts:31-73 | stored data expires together with its lock, when stored and after every extension that still finds it; an extension never revives expired data |
| LockScripts.ReleaseCounts | src/utils/scripts.ts:91-103 | the release count is the number of distinct requested keys that were owned |
| LockScripts.ReleaseDomain | src/utils/scripts.ts:86-98 | a release deletes exactly the requested keys it owns and the data keys named after them |
| LockScripts.LockLivesExactly | src/utils/scripts.ts:31-75 | a granted acquire or extend holds the key for exactly its ttl |
| LockScripts.NonPositiveTtlChangesNothing | src/utils/scripts.ts:31-75 | a ttl that is not positive changes nothing and is an error exactly where a positive one would be granted |
| OptimisticScripts.RunOptimisticAcquire | src/utils/scripts.ts:267-339 | run in place, the versioned acquire reports the first conflict in key order and writes nothing before all checks passed |
| OptimisticScripts.RunOptimisticUpdate | src/utils/scripts.ts:357-401 | the same for the versioned update |
| OptimisticScripts.AcquireReportsFirst | src/utils/scripts.ts:273-321 | a refused versioned acquire reports the first key that clashes, its reason and its version; a version that was required is reported only when no key clashes |
| OptimisticScripts.UpdateReportsFirst | src/utils/scripts.ts:362-381 | a refused update reports the first key not owned, or owned at another version |
| Consensus.NextSettlement | src/utils/consensus-manager.ts:48-68 | whichever pending client settles next, it is filed once, on the side its outcome says, and votes for, votes against and pending stay a partition |
| Toolkit.CountNotHeld | src/index.ts:641-644 | the counter bumped while answers are consumed equals the number of distinct nodes that answered 0 |
| Toolkit.ExecuteWithConsensus | src/index.ts:379-422 | the cleanup command goes to every node exactly when the consensus was missed, a cleanup was given and the error was not a rethrown one; otherwise to none |
| Toolkit.ExtendLock | src/index.ts:546-613 | an extension is granted exactly on a quorum, and the new expiration is dated from before the round trip whatever it took |
| Toolkit.Registry.ReleaseLockInternal | src/index.ts:618-689 | a release that reaches a verdict, either way, forgets the lock and no other; an error keeps it registered |
| Toolkit.AcquireLock | src/strategies/pessimistic-strategy.ts:15-101 | no attempt follows a won or a hopeless one; at most retryCount + 1 are made; the lock is dated from the start of the attempt that won and is never returned already expired; a failure is a timeout after several attempts, else the error of the last one |
| Timing.MarginCoversSkew | src/algorithms/redlock.ts:359 | with drift = round(rate * ttl) + 2, ttl - drift of real time fits into ttl on a clock that is at most (1 + rate) times too fast |
| Timing.DriftIsRounded | src/strategies/pessimistic-strategy.ts:74 | the drift is the rounded share of the ttl and two more |
| InternalRedlock.InternalRedlock.AcquireOnAll | src/algorithms/redlock.ts:361-373 | every node holds what its script made of its old store, and votes only when it took all keys and its answer arrived |
| InternalRedlock.InternalRedlock.ReleaseOnAll | src/algorithms/redlock.ts:296-310 | every node a release reaches is released, the others are unchanged |
| InternalRedlock.InternalRedlock.AttemptLock | src/algorithms/redlock.ts:353-406 | a quorum with validity left yields the lock and leaves the acquired stores; anything else releases on every node |
| InternalRedlock.QuorumStands | src/algorithms/redlock.ts:375-388 | after a won attempt a quorum of nodes stores every key under the value with the deadline the attempt gave it, and the lock expires at start + ttl - elapsed - drift |
| InternalRedlock.InternalRedlock.ExtendLock | src/algorithms/redlock.ts:251-291 | an extension without quorum or validity releases the caller's own hold on every node; with both, it stands with the new expiration |
| InternalRedlock.ExtensionStands | src/algorithms/redlock.ts:270-283 | after a granted extension a quorum of nodes stores every key with the new deadline |
| InternalRedlock.InternalRedlock.AcquireLock | src/algorithms/redlock.ts:210-246 | the retry loop returns the lock of exactly the first round that can be won, each round finding what the failed ones before it left; the lock stands on a quorum with its deadlines; after a failure nothing is left where the last cleanup arrived |
| InternalRedlock.InternalRedlock.PlayRound | src/algorithms/redlock.ts:223-239 | one turn of the retry loop wins exactly when it can be won, and else leaves the nodes cleaned up and, after the delay, as the next turn finds them |
| RedlockSafety.HeldIsBacked | src/algorithms/redlock.ts:375-388 | a client that holds its lock has a quorum of nodes owning all its keys with deadlines no clock passes before the lock's expiration |
| RedlockInvariant.StepKeepsInv | src/index.ts:546-578 | every step of every client, node or clock keeps the invariant, except an extension that shortens |
| RedlockExclusion.ShortExtensionOverlaps | src/index.ts:546-578 | otherwise there is a run, on any number of nodes, in which two clients hold one key: a lock or its acknowledged extension promises more than a later extension sets, whose answers are lost, and the key lapses |
| Refinement.ToolkitWinsAgree | src/strategies/pessimistic-strategy.ts:74-79 | the toolkit wins in the protocol exactly on a majority and before the expiration dated from the start |
| Refinement.ToolkitGrantsIff | src/utils/consensus-manager.ts:33-35 | a node votes for the toolkit exactly when at least one key was asked for and all are free, or owned for an extension |
| Semaphore.SemaphoreNode.RunAcquire | src/utils/scripts.ts:419-442 | run in place, the acquire script leaves exactly the permits and reply of `Acquire` |
| Semaphore.SemaphoreNode.RunRelease | src/utils/scripts.ts:453-463 | the same for release |
| Semaphore.SemaphoreNode.RunExtend | src/utils/scripts.ts:475-494 | the same for extend |
| Semaphore.CapacityKept | src/utils/scripts.ts:415-442 | in every run of a node the stored permits never exceed the callers' common limit |
| Semaphore.QuorumHoldersBound | src/strategies/semaphore-strategy.ts:41-62 | k identifiers held by quorums of N reachable nodes satisfy k * Q <= N * maxPermits |
| Semaphore.QuorumHoldersBelowTwice | src/strategies/semaphore-strategy.ts:41-62 | hence k <= 2 * maxPermits - 1, and k <= maxPermits with one permit or at most two nodes |
| Semaphore.LimitBroken | src/strategies/semaphore-strategy.ts:41-62 | where maxPermits * (N - Q) >= Q, maxPermits + 1 acquire calls, each sent to all nodes with some commands lost and each granted by the consensus, hold their permits on quorums at once |
| Semaphore.AcquireCoversIff | src/utils/scripts.ts:426-440 | one granted acquire keeps the set covered if and only if a re-acquired score fits under the old deadline, or twice the new ttl reaches every other score |
| Semaphore.ExtendCoversIff | src/utils/scripts.ts:482-494 | one granted extension keeps the set covered if and only if twice its ttl reaches every other score |
| Semaphore.AcquireGrantedIff | src/utils/scripts.ts:423-442 | an acquire is granted exactly when the identifier holds a live permit or fewer than maxPermits are live; expired permits take no place; the reply counts the live ones |
| Latch.LatchNode.RunCreate | src/utils/scripts.ts:533-545 | run in place, the create script leaves exactly the keys and reply of `Create` |
| Latch.LatchNode.RunCountDown | src/utils/scripts.ts:558-593 | the same for the countdown, with the events key's own expiry |
| Latch.ReachableOk | src/utils/scripts.ts:533-593 | after any run over any number of lifetimes, last milliseconds included, the keys of a live latch belong together and agree with the replies given |
| Latch.NewLatchIsFresh | src/utils/scripts.ts:533-582 | it finds none if no countdown came in a last millisecond before |
| Latch.CountDownReports | src/utils/scripts.ts:558-593 | a countdown answers how many events are still to come after it, -2 for an event counted or found before, -1 at zero, and 0 for a missing latch |
| Latch.LatchStandsForItsTtl | src/utils/scripts.ts:533-593 | a latch stands for exactly its ttl, however it is counted down |
| OptimisticRedlock.CountAnswers | src/algorithms/optimistic-redlock.ts:294-307 | the tally map holds exactly the pairs answered, with how many nodes answered each |
| OptimisticRedlock.OptimisticClient.OptimisticRead | src/algorithms/optimistic-redlock.ts:271-332 | the same, of what the replicas store and whose answers arrive |
| OptimisticRedlock.OptimisticClient.OptimisticWrite | src/algorithms/optimistic-redlock.ts:337-375 | with or without a ttl and with time passing before the rollback: a quorum of acknowledgements leaves the write in place; some but too few roll back wherever the rollback arrives; none leaves the nodes as the write did |
| OptimisticRedlock.Replica.RunWrite | src/algorithms/optimistic-redlock.ts:79-107 | run in place, the write script leaves exactly the keys, expiry and reply of `WriteTo` |
| OptimisticRedlock.Replica.RunRollBack | src/algorithms/optimistic-redlock.ts:47-59 | run in place, the rollback script leaves exactly the keys and expiry of `RollBackOn` |
| OptimisticProtocol.WonWriteStands | src/algorithms/optimistic-redlock.ts:359-365 | a won write's version stays reached on the quorum that acknowledged it |
| OptimisticProtocol.VersionsNeverDecrease | src/algorithms/optimistic-redlock.ts:79-107 | without rollbacks no node's version ever decreases |
| OptimisticProtocol.RollBackKeepsInvIff | src/algorithms/optimistic-redlock.ts:47-59 | a rollback keeps the record of standing writes if and only if it does not hit one as the node's newest version |
| OptimisticProtocol.LargerDeploymentClashes | src/algorithms/optimistic-redlock.ts:548-566 | on any two or more nodes there is a run, rollbacks included, in which two writes that expect one version both win |
| CircuitBreaker.CircuitBreaker.Admit | src/patterns/circuit-breaker.ts:61-86 | the part of `execute` before the operation leaves exactly the breaker and verdict of `Admission` |
| CircuitBreaker.CircuitBreaker.OnSuccess | src/patterns/circuit-breaker.ts:135-147 | a success leaves exactly `Succeeded`: a half-open breaker is reset, a closed one starts a new failure window |
| CircuitBreaker.CircuitBreaker.OnFailure | src/patterns/circuit-breaker.ts:152-168 | a failure leaves exactly `Failed`, opening at the threshold or from half-open |
| CircuitBreaker.ProbeDecides | src/patterns/circuit-breaker.ts:135-168 | the next settlement in half-open decides: a success closes the breaker, a failure opens it again from that moment |
| CircuitBreaker.MetricsCount | src/patterns/circuit-breaker.ts:86-196 | totals, counts and times agree with what was admitted and settled since the last reset |
| AutoExtension.AutoExtensionManager.Start | src/utils/auto-extension-manager.ts:104-117 | a second start changes nothing; a first one clears a stop and schedules the check |
| AutoExtension.AutoExtensionManager.Fire | src/utils/auto-extension-manager.ts:159-187 | the timer starts an extension only on a running, valid, unexpired lock, and aborts the signal when it comes too late |
| AutoExtension.AutoExtensionManager.Settle | src/utils/auto-extension-manager.ts:187-215 | the result of an extension is ignored after a stop; a grant reschedules, anything else aborts |
| AutoExtension.AutoExtensionManager.Stop | src/utils/auto-extension-manager.ts:122-148 | a stop cancels the timer, and clears the signal once no extension is in flight |
| AutoExtension.OneThingAtATime | src/utils/auto-extension-manager.ts:104-224 | over any sequence of starts, stops, timers, results and manual extensions: never a timer and an extension at once, no timer after a stop or an abort, nothing in flight on an aborted signal |
| AutoExtension.StopIsFinal | src/utils/auto-extension-manager.ts:122-148 | after a stop nothing is scheduled or started again, the expiration is not changed, and the signal is cleared once the last extension settles |
| AutoExtension.StallsIff | src/utils/auto-extension-manager.ts:159-165 | a timer makes a running cycle stall, its signal not aborted, exactly when it finds the lock invalid |
| Lock.Lock.Extend | src/core/lock.ts:117-132 | the part of `extend` before the round trip refuses a released or expired lock |
| Lock.Lock.ExtendAnswered | src/core/lock.ts:134-147 | the part after it moves the expiration and counts one extension exactly on a grant |
| Lock.Lock.Release | src/core/lock.ts:153-189 | a release joins the round trip under way, or starts one, or does nothing once released |
| Lock.ExtendGoesOutIff | src/core/lock.ts:117-132 | over any interleaving a call of extend goes out exactly when no release has succeeded and the last granted expiration is not reached |
| Lock.ReleaseCallIff | src/core/lock.ts:153-189 | a call of release gets the old success, the round trip under way or one of its own, by what was started, failed and succeeded before |

## Left out

- RedlockSafety.MutualExclusion: its condition on extensions is about a single run and goes one way; `RedlockExclusion.ExclusiveIff` is the equivalence over all runs, for any sets of leases.
- OptimisticProtocol.WriteExclusive: its condition on rollbacks goes one way for a run; `RollBackKeepsInvIff` is the equivalence for a step and `ExclusiveIff` for a deployment.
- Toolkit.AcquireLock: sleeping between attempts and waiting for a release notification only decide when the next attempt starts, so attempts come with arbitrary start times.
- Consensus.Execute: an operation that rejects with a falsy error is not modelled (the code would evaluate it as an answer); clients are distinct objects.
- InternalRedlock.InternalRedlock.AcquireLock: other clients do not act between the commands of one call here; `RedlockProtocol` models those interleavings. Exceptions other than a failed command are not modelled.
- Semaphore.QuorumHoldersBound: speaks of permits on the nodes; the strategy computes the caller's own expiration after the consensus, which can outlive the nodes' scores.
- Semaphore.PermitSurvives: every ttl is positive, as the strategy's acquire demands; an extension with a ttl that is not positive is outside.
- CircuitBreaker.CircuitBreaker.OnFailure: the operation timeout is a failed settlement.
- Lock.Lock.Extend: the extensions that the manager of `using` asks for are those of `AutoExtension`; the argument checks of `using` and the routine it calls are left out.
- Latch.AwaitLatch: whether a published message arrives in time is a parameter.
- AutoExtension.ContinuouslyValid: a promise that resolves without awaiting anything stays recorded until the next stop; the model clears it at once, which delays no step.
- OptimisticRedlock.OptimisticClient.OptimisticWrite: versions that are not decimal numbers are not modelled. The theorems on failed writes are about calls during which no key expires, and `OptimisticProtocol` about writes without ttl.
- ioredis transport, EVALSHA fallback, script loading and hashes, logging, events, pub/sub: I/O plumbing.
- `forceRelease`, `cleanup`, the compatibility methods, `acquireWithWait`: outside the ownership assumptions.
- Hybrid locks: their expiration is taken after the consensus and without drift (src/index.ts:523).
- `compareAndSwap`, `optimisticDelete`, `transaction`: further version moves the exclusivity argument does not cover.
- Semaphore retries and latch creation by consensus: the retry loop and the consensus are those of `Toolkit` and `Consensus`.
- Metrics, histograms, Prometheus text, the cache and the error classes: they would only add easy members; whether an error is retryable is a parameter.
- Crashes with data loss, Redis Cluster slots, random identifiers and jitter.
- Floating-point rounding: drift is computed in exact arithmetic.
