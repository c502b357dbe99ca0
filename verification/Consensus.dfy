/** The consensus loop: run one operation per client, race the settlements, stop as soon
    as the outcome is decided, and drain the rest when it failed.
    The choice of the next settlement is left open, so every contract below holds for
    every settlement order. Clients are distinct and are named by their index. */
module Consensus {
  import opened Wrappers
  import Quorum

  /** What the operation on one client settles with. */
  datatype Outcome<+R, +E> = Answered(result: R) | Failed(error: E)

  datatype Policy = MajorityPolicy | AnyPolicy

  /** How `execute` reads an answer: does it count as a vote, which error does a refusal
      become, and which errors may be retried. */
  datatype Rules<!R, !E> = Rules(evaluate: R -> bool, refusal: R -> E, retryable: E -> bool)

  datatype Failure<+E> =
    | ConfigurationError
    | ConsensusError(votes: nat, quorum: nat)
    | Rethrown(error: E)

  /** The bookkeeping `execute` ends with. `consumed` lists the clients in the order they
      were consumed, which is also the insertion order of the JavaScript Map
      `votesAgainst`. */
  datatype Tally<+E> = Tally(votesFor: set<int>, votesAgainst: map<int, E>, pending: set<int>, consumed: seq<int>)

  // ---- What the outcomes alone decide ------------------------------------------------

  predicate IsGood<R, E>(rules: Rules<R, E>, o: Outcome<R, E>) {
    o.Answered? && rules.evaluate(o.result)
  }

  /** The error a bad outcome is filed under. */
  function ErrorOf<R, E>(rules: Rules<R, E>, o: Outcome<R, E>): E
    requires !IsGood(rules, o)
  {
    if o.Failed? then o.error else rules.refusal(o.result)
  }

  function GoodSet<R, E>(rules: Rules<R, E>, outcomes: seq<Outcome<R, E>>): (s: set<int>)
    ensures forall i :: i in s <==> 0 <= i < |outcomes| && IsGood(rules, outcomes[i])
    ensures s <= Quorum.Nodes(|outcomes|)
  {
    set i | 0 <= i < |outcomes| && IsGood(rules, outcomes[i])
  }

  predicate Decided<R, E>(rules: Rules<R, E>, policy: Policy, outcomes: seq<Outcome<R, E>>) {
    if policy.AnyPolicy? then GoodSet(rules, outcomes) != {}
    else |GoodSet(rules, outcomes)| >= Quorum.Size(|outcomes|)
  }

  /** Nobody voted for, and no error may be retried. */
  predicate Hopeless<R, E>(rules: Rules<R, E>, outcomes: seq<Outcome<R, E>>) {
    forall i :: 0 <= i < |outcomes| ==>
      !IsGood(rules, outcomes[i]) && !rules.retryable(ErrorOf(rules, outcomes[i]))
  }

  // ---- Bookkeeping -------------------------------------------------------------------

  ghost predicate ConsumedOnce<E>(t: Tally<E>) {
    && (forall i :: i in t.consumed <==> i in t.votesFor || i in t.votesAgainst)
    && (forall k, m :: 0 <= k < m < |t.consumed| ==> t.consumed[k] != t.consumed[m])
  }

  /** votesFor, votesAgainst and pending partition the clients, and each consumed client
      is filed exactly once, on the side its outcome says. */
  ghost predicate Sound<R, E>(rules: Rules<R, E>, outcomes: seq<Outcome<R, E>>, t: Tally<E>) {
    && (forall i :: i in t.votesFor || i in t.votesAgainst || i in t.pending <==> 0 <= i < |outcomes|)
    && (forall i :: i in t.pending ==> i !in t.votesFor && i !in t.votesAgainst)
    && (forall i :: i in t.votesFor ==> 0 <= i < |outcomes| && IsGood(rules, outcomes[i]))
    && (forall i :: i in t.votesAgainst ==>
          0 <= i < |outcomes| && !IsGood(rules, outcomes[i]) && t.votesAgainst[i] == ErrorOf(rules, outcomes[i]))
    && ConsumedOnce(t)
  }

  function Consume<R, E>(rules: Rules<R, E>, outcomes: seq<Outcome<R, E>>, t: Tally<E>, i: int): Tally<E>
    requires 0 <= i < |outcomes|
  {
    if IsGood(rules, outcomes[i])
    then Tally(t.votesFor + {i}, t.votesAgainst, t.pending - {i}, t.consumed + [i])
    else Tally(t.votesFor, t.votesAgainst[i := ErrorOf(rules, outcomes[i])], t.pending - {i}, t.consumed + [i])
  }

  lemma ConsumeSound<R, E>(rules: Rules<R, E>, outcomes: seq<Outcome<R, E>>, t: Tally<E>, i: int)
    requires Sound(rules, outcomes, t) && i in t.pending && 0 <= i < |outcomes|
    ensures Sound(rules, outcomes, Consume(rules, outcomes, t, i))
  {
    var u := Consume(rules, outcomes, t, i);
    assert i !in t.consumed;
    assert ConsumedOnce(u);
  }

  /** One settlement: any pending client may be the next to settle. */
  method NextSettlement<R, E>(rules: Rules<R, E>, outcomes: seq<Outcome<R, E>>, t: Tally<E>)
    returns (u: Tally<E>, i: int)
    requires Sound(rules, outcomes, t) && t.pending != {}
    ensures Sound(rules, outcomes, u)
    ensures i in t.pending && 0 <= i < |outcomes| && u == Consume(rules, outcomes, t, i)
    ensures |u.pending| + 1 == |t.pending| && |u.votesFor| <= |t.votesFor| + 1
  {
    i := Quorum.AnyOf(t.pending);
    ConsumeSound(rules, outcomes, t, i);
    u := Consume(rules, outcomes, t, i);
  }

  /** What the loop knows of the final count before draining: the votes in hand, and at
      most one more per pending client. */
  lemma GoodBounds<R, E>(rules: Rules<R, E>, outcomes: seq<Outcome<R, E>>, t: Tally<E>)
    requires Sound(rules, outcomes, t)
    ensures t.votesFor <= GoodSet(rules, outcomes) <= t.votesFor + t.pending
    ensures |t.votesFor| <= |GoodSet(rules, outcomes)| <= |t.votesFor| + |t.pending|
    ensures t.pending == {} ==> t.votesFor == GoodSet(rules, outcomes)
  {
    var good := GoodSet(rules, outcomes);
    Quorum.SubsetSize(t.votesFor, good);
    Quorum.SubsetSize(good, t.votesFor + t.pending);
  }

  lemma HopelessFromTally<R, E>(rules: Rules<R, E>, outcomes: seq<Outcome<R, E>>, t: Tally<E>)
    requires Sound(rules, outcomes, t) && t.pending == {} && t.votesFor == {} && |outcomes| > 0
    ensures |t.consumed| > 0 && |t.votesAgainst| > 0 && t.consumed[0] in t.votesAgainst
    ensures (forall i :: i in t.votesAgainst ==> !rules.retryable(t.votesAgainst[i])) <==> Hopeless(rules, outcomes)
  {
    assert 0 in t.votesAgainst && 0 in t.consumed;
    assert t.consumed[0] in t.consumed;
  }

  /** The loop itself. Whether it succeeds, and whether a failure is rethrown or wrapped,
      depends on the outcomes alone, although the loop may stop before seeing them all. */
  method Execute<R, E>(rules: Rules<R, E>, policy: Policy, outcomes: seq<Outcome<R, E>>)
    returns (tally: Tally<E>, result: Result<nat, Failure<E>>)
    ensures |outcomes| == 0 ==> result == Err(ConfigurationError)
    ensures |outcomes| > 0 ==> Sound(rules, outcomes, tally)
    ensures |outcomes| > 0 ==> (result.Ok? <==> Decided(rules, policy, outcomes))
    ensures result.Ok? ==> result.value == |tally.votesFor|
    ensures result.Ok? && policy.MajorityPolicy? ==> |tally.votesFor| == Quorum.Size(|outcomes|)
    ensures |outcomes| > 0 && result.Err? ==> tally.pending == {} && tally.votesFor == GoodSet(rules, outcomes)
    ensures |outcomes| > 0 && result.Err? ==>
              if Hopeless(rules, outcomes)
              then |tally.consumed| > 0 && tally.consumed[0] in tally.votesAgainst
                   && result.error == Rethrown(tally.votesAgainst[tally.consumed[0]])
              else result.error == ConsensusError(|GoodSet(rules, outcomes)|, Quorum.Size(|outcomes|))
  {
    if |outcomes| == 0 {
      return Tally({}, map[], {}, []), Err(ConfigurationError);
    }
    var quorum := Quorum.Size(|outcomes|);
    tally := Tally({}, map[], Quorum.Nodes(|outcomes|), []);
    while tally.pending != {}
      invariant Sound(rules, outcomes, tally)
      invariant |tally.votesFor| < quorum
      decreases |tally.pending|
    {
      var i;
      tally, i := NextSettlement(rules, outcomes, tally);
      if |tally.votesFor| >= quorum { break; }
      if |tally.votesFor| + |tally.pending| < quorum { break; }
    }
    GoodBounds(rules, outcomes, tally);
    var failed := if policy.AnyPolicy? then |tally.votesFor| == 0 else |tally.votesFor| < quorum;
    if failed {
      while tally.pending != {}
        invariant Sound(rules, outcomes, tally)
        decreases |tally.pending|
      {
        var i;
        tally, i := NextSettlement(rules, outcomes, tally);
      }
      GoodBounds(rules, outcomes, tally);
    }
    var succeeded := if policy.AnyPolicy? then |tally.votesFor| > 0 else |tally.votesFor| >= quorum;
    if succeeded {
      return tally, Ok(|tally.votesFor|);
    }
    if |tally.votesFor| == 0 {
      HopelessFromTally(rules, outcomes, tally);
      var allNonRetryable := forall i | i in tally.votesAgainst :: !rules.retryable(tally.votesAgainst[i]);
      if allNonRetryable && |tally.votesAgainst| > 0 {
        return tally, Err(Rethrown(tally.votesAgainst[tally.consumed[0]]));
      }
    }
    return tally, Err(ConsensusError(|tally.votesFor|, quorum));
  }
}
