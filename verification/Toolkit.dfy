/** The toolkit's client side of a pessimistic lock: acquire with retries, and release. */
module Toolkit {
  import opened Wrappers
  import opened Consensus
  import opened Timing
  import Quorum

  // ---- Release -----------------------------------------------------------------------

  /** What the release script answered: a number of deleted keys, or something else. */
  datatype Answer = Deleted(n: int) | Unexpected

  datatype ReleaseReport = ReleaseReport(success: bool, releasedCount: nat)

  /** Only a positive count is a vote for; an answer that is no number is taken on trust. */
  function ReleaseRules<E>(refusal: Answer -> E, retryable: E -> bool): Rules<Answer, E> {
    Rules((a: Answer) => a.Unexpected? || a.n > 0, refusal, retryable)
  }

  predicate SaysNotHeld<E>(o: Outcome<Answer, E>) {
    o.Answered? && o.result == Deleted(0)
  }

  /** The nodes on which something was deleted. */
  function ReleasedOn<E>(outcomes: seq<Outcome<Answer, E>>): (s: set<int>)
    ensures forall i :: i in s <==> 0 <= i < |outcomes| && outcomes[i].Answered?
                                    && (outcomes[i].result.Unexpected? || outcomes[i].result.n > 0)
  {
    set i | 0 <= i < |outcomes| && outcomes[i].Answered? && (outcomes[i].result.Unexpected? || outcomes[i].result.n > 0)
  }

  /** The nodes that answered that nothing was held. */
  function NotHeldOn<E>(outcomes: seq<Outcome<Answer, E>>): (s: set<int>)
    ensures forall i :: i in s <==> 0 <= i < |outcomes| && outcomes[i] == Answered(Deleted(0))
  {
    set i | 0 <= i < |outcomes| && SaysNotHeld(outcomes[i])
  }

  /** No answer pattern can be both a success and a "not held". */
  lemma ReleaseVerdictsExclusive<E>(outcomes: seq<Outcome<Answer, E>>)
    ensures |ReleasedOn(outcomes)| + |NotHeldOn(outcomes)| <= |outcomes|
  {
    var a, b := ReleasedOn(outcomes), NotHeldOn(outcomes);
    assert a !! b;
    assert |a + b| == |a| + |b|;
    Quorum.SubsetSize(a + b, Quorum.Nodes(|outcomes|));
  }

  lemma RefusalsAreWorthRetrying<E>(outcomes: seq<Outcome<Answer, E>>, refusal: Answer -> E, retryable: E -> bool)
    requires NotHeldOn(outcomes) != {} && forall a :: retryable(refusal(a))
    ensures !Hopeless(ReleaseRules(refusal, retryable), outcomes)
  {
    var i := Quorum.SomeMember(NotHeldOn(outcomes));
    var rules := ReleaseRules(refusal, retryable);
    assert rules.retryable(ErrorOf(rules, outcomes[i]));
  }

  /** The counter that `evaluateResult` bumps, once per consumed answer. */
  method CountNotHeld<E>(outcomes: seq<Outcome<Answer, E>>, consumed: seq<int>) returns (votes: nat)
    requires forall i :: i in consumed ==> 0 <= i < |outcomes|
    requires forall k, m :: 0 <= k < m < |consumed| ==> consumed[k] != consumed[m]
    ensures votes == |set i | i in consumed && 0 <= i < |outcomes| && SaysNotHeld(outcomes[i])|
  {
    votes := 0;
    ghost var seen := {};
    for k := 0 to |consumed|
      invariant forall i :: i in seen <==> i in consumed[..k] && 0 <= i < |outcomes| && SaysNotHeld(outcomes[i])
      invariant votes == |seen|
    {
      assert consumed[k] in consumed && consumed[k] !in consumed[..k];
      assert consumed[..k + 1] == consumed[..k] + [consumed[k]];
      if SaysNotHeld(outcomes[consumed[k]]) {
        votes := votes + 1;
        seen := seen + {consumed[k]};
      }
    }
    assert consumed[..|consumed|] == consumed;
    assert seen == (set i | i in consumed && 0 <= i < |outcomes| && SaysNotHeld(outcomes[i]));
  }

  /** The verdict of a release, for every settlement order: success exactly when a quorum
      of nodes deleted something, "not held" exactly when a quorum answered 0, and an error
      otherwise. `retryable(refusal(a))`: a refused answer becomes a plain Error, and plain
      errors are retryable. */
  method CollectRelease<E>(outcomes: seq<Outcome<Answer, E>>, refusal: Answer -> E, retryable: E -> bool)
    returns (r: Result<ReleaseReport, Failure<E>>)
    requires outcomes != [] && forall a :: retryable(refusal(a))
    ensures r.Ok? && r.value.success <==> |ReleasedOn(outcomes)| >= Quorum.Size(|outcomes|)
    ensures r.Ok? && !r.value.success <==> |NotHeldOn(outcomes)| >= Quorum.Size(|outcomes|)
    ensures r.Ok? ==> r.value.releasedCount == if r.value.success then Quorum.Size(|outcomes|) else 0
  {
    var rules := ReleaseRules(refusal, retryable);
    var tally, result := Execute(rules, MajorityPolicy, outcomes);
    assert GoodSet(rules, outcomes) == ReleasedOn(outcomes);
    ReleaseVerdictsExclusive(outcomes);
    if result.Ok? {
      return Ok(ReleaseReport(true, result.value));
    }
    var notHeldVotes := CountNotHeld(outcomes, tally.consumed);
    ghost var zeros := NotHeldOn(outcomes);
    assert zeros == (set i | i in tally.consumed && 0 <= i < |outcomes| && SaysNotHeld(outcomes[i])) by {
      assert forall i :: 0 <= i < |outcomes| ==> i in tally.consumed;
    }
    if zeros != {} {
      RefusalsAreWorthRetrying(outcomes, refusal, retryable);
    }
    if result.error.ConsensusError? && notHeldVotes >= Quorum.Size(|outcomes|) {
      return Ok(ReleaseReport(false, 0));
    }
    return Err(result.error);
  }

  // ---- Consensus with cleanup ----------------------------------------------------------

  /** The conclusion of a consensus: success, a rethrown error or a missed quorum, whatever
      the settlement order. */
  method Conclude<R, E>(rules: Rules<R, E>, policy: Policy, outcomes: seq<Outcome<R, E>>)
    returns (result: Result<nat, Failure<E>>)
    requires outcomes != []
    ensures result.Ok? <==> Decided(rules, policy, outcomes)
    ensures result.Err? ==> !result.error.ConfigurationError?
    ensures result.Err? ==> (result.error.Rethrown? <==> Hopeless(rules, outcomes))
    ensures result.Err? && !result.error.Rethrown? ==>
              result.error == ConsensusError(|GoodSet(rules, outcomes)|, Quorum.Size(|outcomes|))
    ensures result.Ok? && policy.MajorityPolicy? ==> result.value == Quorum.Size(|outcomes|)
  {
    hide Decided, Hopeless, Sound;
    var tally;
    tally, result := Execute(rules, policy, outcomes);
  }

  /** `executeWithConsensus`: when the consensus fails for want of votes and a cleanup
      command was given, that command goes to every node. A rethrown error cleans nothing
      up, so what a hopeless operation left on a node stays there. */
  method ExecuteWithConsensus<R, E>(rules: Rules<R, E>, policy: Policy, outcomes: seq<Outcome<R, E>>, hasCleanup: bool)
    returns (result: Result<nat, Failure<E>>, cleaned: set<int>)
    requires outcomes != []
    ensures result.Ok? <==> Decided(rules, policy, outcomes)
    ensures result.Err? && result.error.Rethrown? <==> !Decided(rules, policy, outcomes) && Hopeless(rules, outcomes)
    ensures cleaned == if hasCleanup && !Decided(rules, policy, outcomes) && !Hopeless(rules, outcomes)
                       then Quorum.Nodes(|outcomes|) else {}
  {
    hide Decided, Hopeless;
    result := Conclude(rules, policy, outcomes);
    cleaned := {};
    if result.Err? && result.error.ConsensusError? && hasCleanup {
      for j := 0 to |outcomes|
        invariant cleaned == Quorum.Nodes(j)
      {
        cleaned := cleaned + {j};
      }
    }
  }

  /** `extendLock`: the new expiration is dated from before the round trip, whatever the
      round trip took, and a failed extension is not cleaned up. */
  method ExtendLock<E>(rules: Rules<int, E>, outcomes: seq<Outcome<int, E>>, start: int, ttl: int, driftFactor: real)
    returns (r: Result<int, Failure<E>>)
    requires outcomes != []
    ensures r.Ok? <==> Decided(rules, MajorityPolicy, outcomes)
    ensures r.Ok? ==> r.value == start + ttl - Drift(driftFactor, ttl)
    ensures r.Err? && r.error.Rethrown? <==> !Decided(rules, MajorityPolicy, outcomes) && Hopeless(rules, outcomes)
  {
    var result, cleaned := ExecuteWithConsensus(rules, MajorityPolicy, outcomes, false);
    if result.Err? {
      return Err(result.error);
    }
    var drift := Drift(driftFactor, ttl);
    return Ok(start + ttl - drift);
  }

  /** The registry of locks the toolkit believes it holds, by identifier. */
  class Registry {
    var activeLocks: set<string>

    constructor ()
      ensures activeLocks == {}
    {
      activeLocks := {};
    }

    /** A release that reaches a verdict, either way, forgets the lock; an error keeps it. */
    method ReleaseLockInternal<E>(identifier: string, outcomes: seq<Outcome<Answer, E>>, refusal: Answer -> E,
                                  retryable: E -> bool) returns (r: Result<ReleaseReport, Failure<E>>)
      requires outcomes != [] && forall a :: retryable(refusal(a))
      modifies this
      ensures r.Ok? && r.value.success <==> |ReleasedOn(outcomes)| >= Quorum.Size(|outcomes|)
      ensures r.Ok? && !r.value.success <==> |NotHeldOn(outcomes)| >= Quorum.Size(|outcomes|)
      ensures activeLocks == if r.Ok? then old(activeLocks) - {identifier} else old(activeLocks)
    {
      r := CollectRelease(outcomes, refusal, retryable);
      if r.Ok? {
        activeLocks := activeLocks - {identifier};
      }
    }
  }

  // ---- Acquire -----------------------------------------------------------------------

  /** One attempt as the environment plays it: when it starts and how each client settles. */
  datatype Attempt<+E> = Attempt(start: int, outcomes: seq<Outcome<int, E>>)

  datatype LockOptions = LockOptions(ttl: int, retryCount: int, driftFactor: real)

  datatype Acquisition<+E> =
    | Acquired(expiration: int)
    | LockTimeout
    | Threw(failure: Failure<E>)
    | StillTrying  // the attempts played so far decide nothing yet

  function Expiration(options: LockOptions, start: int): int {
    start + options.ttl - Drift(options.driftFactor, options.ttl)
  }

  predicate Bounded(options: LockOptions) { options.retryCount != -1 }

  predicate AttemptsLeft(options: LockOptions, attempts: nat) {
    Bounded(options) ==> attempts < options.retryCount + 1
  }

  /** What one attempt comes to: won, not worth retrying, or neither. */
  datatype Verdict = Won | GaveUp | Inconclusive

  function VerdictOf<E>(rules: Rules<int, E>, a: Attempt<E>): Verdict {
    if Decided(rules, MajorityPolicy, a.outcomes) then Won
    else if Hopeless(rules, a.outcomes) then GaveUp
    else Inconclusive
  }

  /** The error of an attempt that missed its quorum: the good votes of all, and the quorum. */
  function MissedQuorum<E>(rules: Rules<int, E>, a: Attempt<E>): Failure<E> {
    ConsensusError(|GoodSet(rules, a.outcomes)|, |a.outcomes| / 2 + 1)
  }

  /** One round of consensus; a rethrown error is exactly a hopeless attempt. */
  method PlayAttempt<E>(rules: Rules<int, E>, a: Attempt<E>) returns (result: Result<nat, Failure<E>>)
    requires a.outcomes != []
    ensures result.Ok? <==> VerdictOf(rules, a).Won?
    ensures result.Err? ==> !result.error.ConfigurationError?
    ensures result.Err? ==> (result.error.Rethrown? <==> VerdictOf(rules, a).GaveUp?)
    ensures result.Err? && !result.error.Rethrown? ==> result.error == MissedQuorum(rules, a)
  {
    result := Conclude(rules, MajorityPolicy, a.outcomes);
  }

  /** How a failed acquisition is reported, from the number of attempts made and the last
      failure. */
  function FailureReport<E>(options: LockOptions, attempts: nat, last: Option<Failure<E>>): Acquisition<E> {
    if Bounded(options) && attempts >= options.retryCount + 1 && options.retryCount + 1 > 1 then LockTimeout
    else if last.None? then LockTimeout
    else Threw(last.value)
  }

  /** The retry loop. `attempts` counts the attempts that were started; every one before the
      last was inconclusive, so a rethrown error is never retried. The lock is dated from
      the start of the attempt that won, and a lock already expired is not returned. */
  method AcquireLock<E>(options: LockOptions, rules: Rules<int, E>, script: seq<Attempt<E>>, now: int)
    returns (r: Acquisition<E>, attempts: nat)
    requires forall k :: 0 <= k < |script| ==> script[k].outcomes != []
    ensures attempts <= |script| && (options.retryCount != -1 && attempts > 0 ==> attempts <= options.retryCount + 1)
    ensures forall k :: 0 <= k < attempts - 1 ==> VerdictOf(rules, script[k]).Inconclusive?
    ensures attempts > 0 && VerdictOf(rules, script[attempts - 1]).Won? ==>
              var expiration := script[attempts - 1].start + options.ttl - Drift(options.driftFactor, options.ttl);
              r == if expiration <= now then LockTimeout else Acquired(expiration)
    ensures r.Acquired? ==> attempts > 0 && VerdictOf(rules, script[attempts - 1]).Won?
    ensures r.StillTrying? <==> attempts == |script| && (options.retryCount == -1 || attempts <= options.retryCount)
                                && (attempts > 0 ==> VerdictOf(rules, script[attempts - 1]).Inconclusive?)
    ensures attempts == 0 && !r.StillTrying? ==> r.LockTimeout?
    ensures attempts > 0 && !VerdictOf(rules, script[attempts - 1]).Won? && !r.StillTrying? ==>
              if options.retryCount > 0 && attempts == options.retryCount + 1 then r.LockTimeout?
              else
                && r.Threw?
                && (r.failure.Rethrown? <==> VerdictOf(rules, script[attempts - 1]).GaveUp?)
                && (r.failure.Rethrown? || r.failure == MissedQuorum(rules, script[attempts - 1]))
  {
    hide VerdictOf, MissedQuorum;
    attempts := 0;
    var acquired, stop := false, false;
    var lastAttemptStart := 0;
    var lastError: Option<Failure<E>> := None;
    while AttemptsLeft(options, attempts) && !acquired && !stop && attempts < |script|
      invariant attempts <= |script| && (Bounded(options) && attempts > 0 ==> attempts <= options.retryCount + 1)
      invariant attempts == 0 ==> !acquired && !stop && lastError.None?
      invariant forall k :: 0 <= k < attempts - 1 ==> VerdictOf(rules, script[k]).Inconclusive?
      invariant attempts > 0 ==>
                  && (acquired <==> VerdictOf(rules, script[attempts - 1]).Won?)
                  && (stop <==> VerdictOf(rules, script[attempts - 1]).GaveUp?)
                  && lastAttemptStart == script[attempts - 1].start
      invariant attempts > 0 && !acquired ==> lastError.Some? && (lastError.value.Rethrown? <==> stop)
      invariant attempts > 0 && !acquired && !stop ==> lastError.value == MissedQuorum(rules, script[attempts - 1])
      decreases |script| - attempts
    {
      lastAttemptStart := script[attempts].start;
      var result := PlayAttempt(rules, script[attempts]);
      attempts := attempts + 1;
      if result.Ok? {
        acquired := true;
      } else {
        lastError := Some(result.error);
        stop := result.error.Rethrown?;
      }
    }
    if !acquired {
      if !stop && AttemptsLeft(options, attempts) {
        return StillTrying, attempts;
      }
      return FailureReport(options, attempts, lastError), attempts;
    }
    var expiration := Expiration(options, lastAttemptStart);
    if expiration <= now {
      return LockTimeout, attempts;
    }
    return Acquired(expiration), attempts;
  }
}
