/** The internal Redlock client, calling the lock scripts on its nodes in place.
    The network is a parameter: for each call, whether the command reaches the node and
    whether its answer comes back, and how far each node's clock moves meanwhile. */
module InternalRedlock {
  import opened Wrappers
  import opened Keyspace
  import opened LockScripts
  import opened Timing
  import Quorum

  /** What becomes of one command to one node. */
  datatype Fate = Delivered | AckLost | Undelivered

  datatype Resource = Resource(resources: seq<string>, value: string, ttl: int, validity: int)

  /** One round of `attemptLock`: the fates of the acquire and of the cleanup commands, how
      far each node's clock moves before the cleanup and during the delay before a retry, and
      the caller's own timing. */
  datatype Round = Round(fates: seq<Fate>, cleanup: seq<Fate>, waits: seq<nat>, delays: seq<nat>, start: int, elapsed: nat)

  predicate RoundFor(n: nat, r: Round) {
    |r.fates| == n && |r.cleanup| == n && |r.waits| == n && |r.delays| == n
  }

  // ---- What one call does at one node --------------------------------------------------

  function AcquiredAt(s: Store, now: int, keys: seq<string>, id: string, ttl: int, fate: Fate): Store {
    if fate.Undelivered? then s else Acquire(s, now, keys, id, ttl, "").0
  }

  predicate VotedAt(s: Store, now: int, keys: seq<string>, id: string, ttl: int, fate: Fate) {
    fate.Delivered? && Acquire(s, now, keys, id, ttl, "").1 == Replied(|keys|)
  }

  /** The votes of one acquire over all nodes. */
  function AcquireVotes(stores: seq<Store>, clocks: seq<int>, keys: seq<string>, id: string, ttl: int, fates: seq<Fate>)
    : (votes: seq<bool>)
    requires |stores| == |clocks| == |fates|
    ensures |votes| == |stores|
    ensures forall i :: 0 <= i < |stores| ==> votes[i] == VotedAt(stores[i], clocks[i], keys, id, ttl, fates[i])
  {
    seq(|stores|, i requires 0 <= i < |stores| => VotedAt(stores[i], clocks[i], keys, id, ttl, fates[i]))
  }

  function ExtendedAt(s: Store, now: int, keys: seq<string>, id: string, ttl: int, fate: Fate): Store {
    if fate.Undelivered? then s else Extend(s, now, keys, id, ttl).0
  }

  predicate ExtendVoteAt(s: Store, now: int, keys: seq<string>, id: string, ttl: int, fate: Fate) {
    fate.Delivered? && Extend(s, now, keys, id, ttl).1 == Replied(|keys|)
  }

  /** The votes of one extend over all nodes. */
  function ExtendVotes(stores: seq<Store>, clocks: seq<int>, keys: seq<string>, id: string, ttl: int, fates: seq<Fate>)
    : (votes: seq<bool>)
    requires |stores| == |clocks| == |fates|
    ensures |votes| == |stores|
    ensures forall i :: 0 <= i < |stores| ==> votes[i] == ExtendVoteAt(stores[i], clocks[i], keys, id, ttl, fates[i])
  {
    seq(|stores|, i requires 0 <= i < |stores| => ExtendVoteAt(stores[i], clocks[i], keys, id, ttl, fates[i]))
  }

  function ReleasedAt(s: Store, now: int, keys: seq<string>, id: string, fate: Fate): Store {
    if fate.Undelivered? then s else Release(s, now, keys, id).0
  }

  /** The lock's validity, or nothing when the quorum or the remaining time is missing. */
  function Outcome(driftFactor: real, keys: seq<string>, id: string, ttl: int, votes: nat, n: nat, start: int, elapsed: nat)
    : Option<Resource>
  {
    var validity := ttl - elapsed - Drift(driftFactor, ttl);
    if votes >= Quorum.Size(n) && validity > 0 then Some(Resource(keys, id, ttl, start + validity)) else None
  }

  /** A failed attempt that is cleaned up leaves nothing of its own behind at a node, even
      when the node had granted it and the answer was lost, and it leaves every lock key
      that another identifier held as it was. */
  lemma CleanupUndoesAcquire(s: Store, now: int, later: int, keys: seq<string>, id: string, ttl: int, fate: Fate, k: string)
    requires AllPlain(keys) && Plain(k) && now <= later
    ensures var t := Release(AcquiredAt(s, now, keys, id, ttl, fate), later, keys, id).0;
            && (k in keys ==> !Owns(t, later, k, id))
            && (HeldByOther(s, now, k, id) ==> k in t && t[k] == s[k])
            && (k !in keys ==> (k in t <==> k in s) && (k in s ==> t[k] == s[k]))
  {
    var mid := AcquiredAt(s, now, keys, id, ttl, fate);
    LockKeysAt(s, keys, id, now + ttl, "", k);
    ReleaseAt(mid, later, keys, id, k);
  }

  /** The same for a failed extension. */
  lemma CleanupUndoesExtend(s: Store, now: int, later: int, keys: seq<string>, id: string, ttl: int, fate: Fate, k: string)
    requires AllPlain(keys) && Plain(k) && now <= later
    ensures var t := Release(ExtendedAt(s, now, keys, id, ttl, fate), later, keys, id).0;
            && (k in keys ==> !Owns(t, later, k, id))
            && (HeldByOther(s, now, k, id) ==> k in t && t[k] == s[k])
            && (k !in keys ==> (k in t <==> k in s) && (k in s ==> t[k] == s[k]))
  {
    var mid := ExtendedAt(s, now, keys, id, ttl, fate);
    ExtendKeysAt(s, now, keys, id, now + ttl, k);
    ReleaseAt(mid, later, keys, id, k);
  }

  /** Some quorum of nodes stores every key under this value, with the deadline that a command
      executed at these node clocks sets. */
  ghost predicate Stands(stores: seq<Store>, clocks: seq<int>, keys: seq<string>, value: string, ttl: int) {
    exists nodes: set<int> ::
      && nodes <= Quorum.Nodes(|stores|) && |nodes| >= Quorum.Size(|stores|)
      && forall i, k :: i in nodes && 0 <= i < |stores| && i < |clocks| && k in keys ==>
           k in stores[i] && stores[i][k] == Entry(Text(value), clocks[i] + ttl)
  }

  /** The node clocks before the client waited, where it did. */
  function Earlier(clocks: seq<int>, waits: seq<nat>): (r: seq<int>)
    ensures |r| == |clocks|
    ensures forall i :: 0 <= i < |clocks| && i < |waits| ==> r[i] == clocks[i] - waits[i]
  {
    seq(|clocks|, i requires 0 <= i < |clocks| => if i < |waits| then clocks[i] - waits[i] else clocks[i])
  }

  /** What one attempt, with result r, does to the nodes. */
  ghost predicate AttemptDone(before: seq<Store>, clocks: seq<int>, after: seq<Store>, later: seq<int>, keys: seq<string>,
                              value: string, ttl: int, round: Round, driftFactor: real, r: Option<Resource>)
  {
    && |before| == |clocks| == |after| == |later| && RoundFor(|before|, round)
    && r == Outcome(driftFactor, keys, value, ttl,
                    Quorum.Count(AcquireVotes(before, clocks, keys, value, ttl, round.fates)), |before|,
                    round.start, round.elapsed)
    && (forall i :: 0 <= i < |before| ==>
          && later[i] == clocks[i] + round.waits[i]
          && (var mid := AcquiredAt(before[i], clocks[i], keys, value, ttl, round.fates[i]);
              after[i] == if r.Some? then mid else ReleasedAt(mid, later[i], keys, value, round.cleanup[i])))
  }

  /** What one extension, with result r, does to the nodes. */
  ghost predicate ExtensionDone(before: seq<Store>, clocks: seq<int>, after: seq<Store>, later: seq<int>, keys: seq<string>,
                                value: string, ttl: int, round: Round, driftFactor: real, r: Option<Resource>)
  {
    && |before| == |clocks| == |after| == |later| && RoundFor(|before|, round)
    && r == Outcome(driftFactor, keys, value, ttl,
                    Quorum.Count(ExtendVotes(before, clocks, keys, value, ttl, round.fates)), |before|,
                    round.start, round.elapsed)
    && (forall i :: 0 <= i < |before| ==>
          && later[i] == clocks[i] + round.waits[i]
          && (var mid := ExtendedAt(before[i], clocks[i], keys, value, ttl, round.fates[i]);
              after[i] == if r.Some? then mid else ReleasedAt(mid, later[i], keys, value, round.cleanup[i])))
  }

  lemma PackExtension(before: seq<Store>, clocks: seq<int>, mid: seq<Store>, after: seq<Store>, later: seq<int>,
                      keys: seq<string>, value: string, ttl: int, round: Round, driftFactor: real, votes: seq<bool>,
                      r: Option<Resource>)
    requires |before| == |clocks| == |mid| == |after| == |later| == |votes| && RoundFor(|before|, round)
    requires forall i :: 0 <= i < |before| ==>
               && votes[i] == ExtendVoteAt(before[i], clocks[i], keys, value, ttl, round.fates[i])
               && mid[i] == ExtendedAt(before[i], clocks[i], keys, value, ttl, round.fates[i])
               && later[i] == clocks[i] + round.waits[i]
               && after[i] == if r.Some? then mid[i] else ReleasedAt(mid[i], later[i], keys, value, round.cleanup[i])
    requires r == Outcome(driftFactor, keys, value, ttl, Quorum.Count(votes), |before|, round.start, round.elapsed)
    ensures ExtensionDone(before, clocks, after, later, keys, value, ttl, round, driftFactor, r)
  {
    hide ExtendedAt, ExtendVoteAt, ReleasedAt, Outcome, ExtendVotes;
    assert votes == ExtendVotes(before, clocks, keys, value, ttl, round.fates);
  }

  lemma PackAttempt(before: seq<Store>, clocks: seq<int>, mid: seq<Store>, after: seq<Store>, later: seq<int>,
                    keys: seq<string>, value: string, ttl: int, round: Round, driftFactor: real, votes: seq<bool>,
                    r: Option<Resource>)
    requires |before| == |clocks| == |mid| == |after| == |later| == |votes| && RoundFor(|before|, round)
    requires forall i :: 0 <= i < |before| ==>
               && votes[i] == VotedAt(before[i], clocks[i], keys, value, ttl, round.fates[i])
               && mid[i] == AcquiredAt(before[i], clocks[i], keys, value, ttl, round.fates[i])
               && later[i] == clocks[i] + round.waits[i]
               && after[i] == if r.Some? then mid[i] else ReleasedAt(mid[i], later[i], keys, value, round.cleanup[i])
    requires r == Outcome(driftFactor, keys, value, ttl, Quorum.Count(votes), |before|, round.start, round.elapsed)
    ensures AttemptDone(before, clocks, after, later, keys, value, ttl, round, driftFactor, r)
  {
    hide AcquiredAt, VotedAt, ReleasedAt, Outcome, AcquireVotes;
    assert votes == AcquireVotes(before, clocks, keys, value, ttl, round.fates);
  }

  /** No node that executed its cleanup command owns any of the keys under this value. */
  predicate CleanWhereReleased(stores: seq<Store>, clocks: seq<int>, keys: seq<string>, value: string, cleanup: seq<Fate>) {
    forall i, k :: 0 <= i < |stores| && i < |clocks| && i < |cleanup| && !cleanup[i].Undelivered? && k in keys ==>
      !Owns(stores[i], clocks[i], k, value)
  }

  lemma VoteStores(s: Store, now: int, keys: seq<string>, value: string, ttl: int, fate: Fate, k: string)
    requires AllPlain(keys) && ttl > 0 && k in keys
    ensures VotedAt(s, now, keys, value, ttl, fate) ==>
              var t := AcquiredAt(s, now, keys, value, ttl, fate); k in t && t[k] == Entry(Text(value), now + ttl)
    ensures ExtendVoteAt(s, now, keys, value, ttl, fate) ==>
              var t := ExtendedAt(s, now, keys, value, ttl, fate); k in t && t[k] == Entry(Text(value), now + ttl)
  {
    hide Acquire, Extend, AllPlain;
    AcquireAllOrNothing(s, now, keys, value, ttl, "");
    ExtendAllOrNothing(s, now, keys, value, ttl);
  }

  lemma VotersStand(clocks: seq<int>, after: seq<Store>, keys: seq<string>, value: string, ttl: int, votes: seq<bool>)
    requires |clocks| == |after| == |votes| && Quorum.Count(votes) >= Quorum.Size(|after|)
    requires forall i, k :: 0 <= i < |after| && votes[i] && k in keys ==>
               k in after[i] && after[i][k] == Entry(Text(value), clocks[i] + ttl)
    ensures Stands(after, clocks, keys, value, ttl)
  {
    var nodes := Quorum.Voters(votes);
    Quorum.CountIsVoters(votes);
    hide Quorum.Count, Quorum.Nodes, Quorum.Voters;
    forall i, k | i in nodes && 0 <= i < |after| && i < |clocks| && k in keys
      ensures k in after[i] && after[i][k] == Entry(Text(value), clocks[i] + ttl)
    {
      assert votes[i];
    }
  }

  /** The votes behind an attempt that succeeded are nodes that now store the keys, with the
      deadline the attempt gave them. */
  lemma QuorumStands(before: seq<Store>, clocks: seq<int>, after: seq<Store>, later: seq<int>, keys: seq<string>,
                     value: string, ttl: int, round: Round, driftFactor: real, r: Option<Resource>)
    requires r.Some? && AttemptDone(before, clocks, after, later, keys, value, ttl, round, driftFactor, r)
    ensures AllPlain(keys) && ttl > 0 ==> Stands(after, clocks, keys, value, ttl) && Earlier(later, round.waits) == clocks
    ensures r.value == Resource(keys, value, ttl, round.start + (ttl - round.elapsed - Drift(driftFactor, ttl)))
    ensures r.value.validity > round.start
  {
    hide Drift, Acquire, AllPlain, VotedAt, AcquiredAt, AcquireVotes, Stands;
    var votes := AcquireVotes(before, clocks, keys, value, ttl, round.fates);
    if AllPlain(keys) && ttl > 0 {
      forall i, k | 0 <= i < |after| && votes[i] && k in keys
        ensures k in after[i] && after[i][k] == Entry(Text(value), clocks[i] + ttl)
      {
        VoteStores(before[i], clocks[i], keys, value, ttl, round.fates[i], k);
      }
      VotersStand(clocks, after, keys, value, ttl, votes);
    }
  }

  /** The same for an extension that succeeded: the quorum's deadlines have moved. */
  lemma ExtensionStands(before: seq<Store>, clocks: seq<int>, after: seq<Store>, later: seq<int>, keys: seq<string>,
                        value: string, ttl: int, round: Round, driftFactor: real, r: Option<Resource>)
    requires r.Some? && ExtensionDone(before, clocks, after, later, keys, value, ttl, round, driftFactor, r)
    requires AllPlain(keys) && ttl > 0
    ensures Stands(after, clocks, keys, value, ttl)
    ensures round.start < r.value.validity == round.start + (ttl - round.elapsed - Drift(driftFactor, ttl))
  {
    hide Drift, Extend, AllPlain, ExtendVoteAt, ExtendedAt, ExtendVotes, Stands;
    var votes := ExtendVotes(before, clocks, keys, value, ttl, round.fates);
    forall i, k | 0 <= i < |after| && votes[i] && k in keys
      ensures k in after[i] && after[i][k] == Entry(Text(value), clocks[i] + ttl)
    {
      VoteStores(before[i], clocks[i], keys, value, ttl, round.fates[i], k);
    }
    VotersStand(clocks, after, keys, value, ttl, votes);
  }

  lemma AcquireSpares(s: Store, now: int, keys: seq<string>, id: string, ttl: int, fate: Fate, k: string)
    requires AllPlain(keys) && Plain(k) && HeldByOther(s, now, k, id)
    ensures var t := AcquiredAt(s, now, keys, id, ttl, fate); k in t && t[k] == s[k]
  {
    ForeignLocksUntouched(s, now, keys, id, ttl, "", k);
  }

  /** A failed attempt leaves nothing at any node that executed the cleanup, and changes no
      lock key that another identifier holds. */
  lemma FailedAttemptLeavesNothing(before: seq<Store>, clocks: seq<int>, after: seq<Store>, later: seq<int>,
                                   keys: seq<string>, value: string, ttl: int, round: Round, driftFactor: real)
    requires AllPlain(keys)
    requires AttemptDone(before, clocks, after, later, keys, value, ttl, round, driftFactor, None)
    ensures CleanWhereReleased(after, later, keys, value, round.cleanup)
    ensures forall i, k :: 0 <= i < |before| && Plain(k) && HeldByOther(before[i], clocks[i], k, value) ==>
              k in after[i] && after[i][k] == before[i][k]
  {
    hide Acquire, Release, Drift;
    forall i, k | 0 <= i < |before| && k in keys && !round.cleanup[i].Undelivered?
      ensures !Owns(after[i], later[i], k, value)
    {
      CleanupUndoesAcquire(before[i], clocks[i], later[i], keys, value, ttl, round.fates[i], k);
    }
    forall i, k | 0 <= i < |before| && Plain(k) && HeldByOther(before[i], clocks[i], k, value)
      ensures k in after[i] && after[i][k] == before[i][k]
    {
      CleanupUndoesAcquire(before[i], clocks[i], later[i], keys, value, ttl, round.fates[i], k);
      AcquireSpares(before[i], clocks[i], keys, value, ttl, round.fates[i], k);
    }
  }

  /** The same for an extension that failed: the caller's hold is gone wherever the release
      arrived, and no other owner lost anything. */
  lemma FailedExtensionLeavesNothing(before: seq<Store>, clocks: seq<int>, after: seq<Store>, later: seq<int>,
                                     keys: seq<string>, value: string, ttl: int, round: Round, driftFactor: real)
    requires AllPlain(keys)
    requires ExtensionDone(before, clocks, after, later, keys, value, ttl, round, driftFactor, None)
    ensures CleanWhereReleased(after, later, keys, value, round.cleanup)
    ensures forall i, k :: 0 <= i < |before| && Plain(k) && HeldByOther(before[i], clocks[i], k, value) ==>
              k in after[i] && after[i][k] == before[i][k]
  {
    hide Extend, Release, Drift, ExtendVotes;
    forall i, k | 0 <= i < |before| && k in keys && !round.cleanup[i].Undelivered?
      ensures !Owns(after[i], later[i], k, value)
    {
      CleanupUndoesExtend(before[i], clocks[i], later[i], keys, value, ttl, round.fates[i], k);
    }
    forall i, k | 0 <= i < |before| && Plain(k) && HeldByOther(before[i], clocks[i], k, value)
      ensures k in after[i] && after[i][k] == before[i][k]
    {
      CleanupUndoesExtend(before[i], clocks[i], later[i], keys, value, ttl, round.fates[i], k);
      ForeignLocksUntouched(before[i], clocks[i], keys, value, ttl, "", k);
    }
  }

  /** Time passing brings nothing back. */
  lemma StaysClean(stores: seq<Store>, clocks: seq<int>, later: seq<int>, keys: seq<string>, value: string,
                   cleanup: seq<Fate>)
    requires CleanWhereReleased(stores, clocks, keys, value, cleanup)
    requires |clocks| == |later| && forall i :: 0 <= i < |clocks| ==> clocks[i] <= later[i]
    ensures CleanWhereReleased(stores, later, keys, value, cleanup)
  {
  }

  // ---- Exactly when a round is won -------------------------------------------------------

  /** The nodes whose answer arrives and on which no requested key is held by another
      identifier. */
  function FreeNodes(stores: seq<Store>, clocks: seq<int>, keys: seq<string>, value: string, fates: seq<Fate>): (r: set<int>)
    requires |stores| == |clocks| == |fates|
    ensures forall j :: j in r <==>
              0 <= j < |stores| && fates[j].Delivered?
              && forall k :: k in keys ==> !HeldByOther(stores[j], clocks[j], k, value)
  {
    set j | 0 <= j < |stores| && fates[j].Delivered?
            && forall k :: k in keys ==> !HeldByOther(stores[j], clocks[j], k, value)
  }

  /** The nodes whose answer arrives and on which the caller owns every key. */
  function OwnNodes(stores: seq<Store>, clocks: seq<int>, keys: seq<string>, value: string, fates: seq<Fate>): (r: set<int>)
    requires |stores| == |clocks| == |fates|
    ensures forall j :: j in r <==>
              0 <= j < |stores| && fates[j].Delivered? && forall k :: k in keys ==> Owns(stores[j], clocks[j], k, value)
  {
    set j | 0 <= j < |stores| && fates[j].Delivered? && forall k :: k in keys ==> Owns(stores[j], clocks[j], k, value)
  }

  lemma VoteIff(s: Store, now: int, keys: seq<string>, value: string, ttl: int, fate: Fate)
    requires ttl > 0
    ensures VotedAt(s, now, keys, value, ttl, fate) <==>
              fate.Delivered? && forall k :: k in keys ==> !HeldByOther(s, now, k, value)
    ensures ExtendVoteAt(s, now, keys, value, ttl, fate) <==>
              fate.Delivered? && forall k :: k in keys ==> Owns(s, now, k, value)
  {
    hide HeldByOther, Owns, LockKeys, ExtendKeys;
  }

  lemma MajorityIff(votes: seq<bool>, voters: set<int>)
    requires forall j :: j in voters <==> 0 <= j < |votes| && votes[j]
    ensures Quorum.Count(votes) >= Quorum.Size(|votes|) <==> 2 * |voters| > |votes|
  {
    Quorum.CountIsVoters(votes);
    Quorum.SameMembers(Quorum.Voters(votes), voters);
  }

  /** An attempt is won exactly when a majority of the nodes answers and is free for all keys,
      and time is left after the elapsed time and the drift. */
  lemma AttemptWonIff(before: seq<Store>, clocks: seq<int>, after: seq<Store>, later: seq<int>, keys: seq<string>,
                      value: string, ttl: int, round: Round, driftFactor: real, r: Option<Resource>)
    requires AttemptDone(before, clocks, after, later, keys, value, ttl, round, driftFactor, r) && ttl > 0
    ensures r.Some? <==> 2 * |FreeNodes(before, clocks, keys, value, round.fates)| > |before|
                         && ttl - round.elapsed - Drift(driftFactor, ttl) > 0
    ensures r.Some? ==> r.value == Resource(keys, value, ttl, round.start + (ttl - round.elapsed - Drift(driftFactor, ttl)))
  {
    hide Drift, VotedAt, HeldByOther, AcquiredAt, ReleasedAt, Quorum.Size, Quorum.Count;
    var votes := AcquireVotes(before, clocks, keys, value, ttl, round.fates);
    var free := FreeNodes(before, clocks, keys, value, round.fates);
    forall j ensures j in free <==> 0 <= j < |votes| && votes[j] {
      if 0 <= j < |votes| { VoteIff(before[j], clocks[j], keys, value, ttl, round.fates[j]); }
    }
    MajorityIff(votes, free);
  }

  /** An extension is granted exactly when a majority answers and owns all keys, and time is
      left. */
  lemma ExtensionGrantedIff(before: seq<Store>, clocks: seq<int>, after: seq<Store>, later: seq<int>, keys: seq<string>,
                            value: string, ttl: int, round: Round, driftFactor: real, r: Option<Resource>)
    requires ExtensionDone(before, clocks, after, later, keys, value, ttl, round, driftFactor, r) && ttl > 0
    ensures r.Some? <==> 2 * |OwnNodes(before, clocks, keys, value, round.fates)| > |before|
                         && ttl - round.elapsed - Drift(driftFactor, ttl) > 0
    ensures r.Some? ==> r.value == Resource(keys, value, ttl, round.start + (ttl - round.elapsed - Drift(driftFactor, ttl)))
  {
    hide Drift, ExtendVoteAt, Owns, ExtendedAt, ReleasedAt, Quorum.Size, Quorum.Count;
    var votes := ExtendVotes(before, clocks, keys, value, ttl, round.fates);
    var own := OwnNodes(before, clocks, keys, value, round.fates);
    forall j ensures j in own <==> 0 <= j < |votes| && votes[j] {
      if 0 <= j < |votes| { VoteIff(before[j], clocks[j], keys, value, ttl, round.fates[j]); }
    }
    MajorityIff(votes, own);
  }

  // ---- What a run of failed rounds leaves to the next one ------------------------------------

  datatype Cluster = Cluster(stores: seq<Store>, clocks: seq<int>)

  /** The nodes after a failed attempt and the delay that follows it. */
  function AfterFailure(c: Cluster, keys: seq<string>, value: string, ttl: int, round: Round): (r: Cluster)
    requires |c.stores| == |c.clocks| && RoundFor(|c.stores|, round)
    ensures |r.stores| == |r.clocks| == |c.stores|
  {
    Cluster(
      seq(|c.stores|, i requires 0 <= i < |c.stores| =>
        ReleasedAt(AcquiredAt(c.stores[i], c.clocks[i], keys, value, ttl, round.fates[i]), c.clocks[i] + round.waits[i],
                   keys, value, round.cleanup[i])),
      seq(|c.clocks|, i requires 0 <= i < |c.clocks| => c.clocks[i] + round.waits[i] + round.delays[i]))
  }

  predicate RoundsFor(n: nat, rounds: seq<Round>) {
    forall k :: 0 <= k < |rounds| ==> RoundFor(n, rounds[k])
  }

  /** The nodes as round k finds them, when all rounds before it failed. */
  function BeforeRound(c: Cluster, keys: seq<string>, value: string, ttl: int, rounds: seq<Round>, k: nat): (r: Cluster)
    requires |c.stores| == |c.clocks| && RoundsFor(|c.stores|, rounds) && k <= |rounds|
    ensures |r.stores| == |r.clocks| == |c.stores|
  {
    if k == 0 then c else AfterFailure(BeforeRound(c, keys, value, ttl, rounds, k - 1), keys, value, ttl, rounds[k - 1])
  }

  /** A majority answers and is free, and time is left. */
  predicate Winnable(driftFactor: real, c: Cluster, keys: seq<string>, value: string, ttl: int, round: Round)
    requires |c.stores| == |c.clocks| && RoundFor(|c.stores|, round)
  {
    && 2 * |FreeNodes(c.stores, c.clocks, keys, value, round.fates)| > |c.stores|
    && ttl - round.elapsed - Drift(driftFactor, ttl) > 0
  }

  predicate WinnableRound(driftFactor: real, c: Cluster, keys: seq<string>, value: string, ttl: int, rounds: seq<Round>,
                          k: nat)
    requires |c.stores| == |c.clocks| && RoundsFor(|c.stores|, rounds) && k < |rounds|
  {
    Winnable(driftFactor, BeforeRound(c, keys, value, ttl, rounds, k), keys, value, ttl, rounds[k])
  }

  /** What a caller that is given the lock has: the resource dated from the round's start, and
      a quorum that stores it. */
  ghost predicate Granted(lock: Resource, stores: seq<Store>, clocks: seq<int>, keys: seq<string>, value: string, ttl: int,
                          round: Round, driftFactor: real)
  {
    && lock == Resource(keys, value, ttl, round.start + (ttl - round.elapsed - Drift(driftFactor, ttl)))
    && lock.validity > round.start
    && (AllPlain(keys) && ttl > 0 ==> Stands(stores, Earlier(clocks, round.waits), keys, value, ttl))
  }

  lemma RoundGranted(c: Cluster, after: seq<Store>, later: seq<int>, keys: seq<string>, value: string, ttl: int,
                     round: Round, driftFactor: real, r: Option<Resource>)
    requires AttemptDone(c.stores, c.clocks, after, later, keys, value, ttl, round, driftFactor, r) && r.Some?
    ensures Granted(r.value, after, later, keys, value, ttl, round, driftFactor)
  {
    hide AttemptDone, Drift, Stands;
    QuorumStands(c.stores, c.clocks, after, later, keys, value, ttl, round, driftFactor, r);
  }

  lemma RoundWonIff(c: Cluster, after: seq<Store>, later: seq<int>, keys: seq<string>, value: string, ttl: int,
                    round: Round, driftFactor: real, r: Option<Resource>)
    requires AttemptDone(c.stores, c.clocks, after, later, keys, value, ttl, round, driftFactor, r) && ttl > 0
    ensures r.Some? <==> Winnable(driftFactor, c, keys, value, ttl, round)
  {
    hide Drift;
    AttemptWonIff(c.stores, c.clocks, after, later, keys, value, ttl, round, driftFactor, r);
  }

  lemma WellSized(c: Cluster, after: Cluster, keys: seq<string>, value: string, ttl: int, round: Round,
                  driftFactor: real, r: Option<Resource>)
    requires AttemptDone(c.stores, c.clocks, after.stores, after.clocks, keys, value, ttl, round, driftFactor, r)
    ensures |c.stores| == |c.clocks| && RoundFor(|c.stores|, round)
  {
  }

  /** What one attempt comes to. */
  lemma RoundDone(c: Cluster, after: Cluster, keys: seq<string>, value: string, ttl: int, round: Round,
                  driftFactor: real, r: Option<Resource>)
    requires AttemptDone(c.stores, c.clocks, after.stores, after.clocks, keys, value, ttl, round, driftFactor, r)
    ensures ttl > 0 ==> (r.Some? <==> Winnable(driftFactor, c, keys, value, ttl, round))
    ensures r.Some? ==> Granted(r.value, after.stores, after.clocks, keys, value, ttl, round, driftFactor)
    ensures r.None? && AllPlain(keys) ==> CleanWhereReleased(after.stores, after.clocks, keys, value, round.cleanup)
  {
    WellSized(c, after, keys, value, ttl, round, driftFactor, r);
    hide *;
    if ttl > 0 { RoundWonIff(c, after.stores, after.clocks, keys, value, ttl, round, driftFactor, r); }
    if r.Some? {
      RoundGranted(c, after.stores, after.clocks, keys, value, ttl, round, driftFactor, r);
    } else if AllPlain(keys) {
      FailedAttemptLeavesNothing(c.stores, c.clocks, after.stores, after.clocks, keys, value, ttl, round, driftFactor);
    }
  }

  /** What a failed attempt and the delay after it leave. */
  lemma FailureLeaves(c: Cluster, after: Cluster, later: seq<int>, keys: seq<string>, value: string, ttl: int,
                      round: Round, driftFactor: real)
    requires AttemptDone(c.stores, c.clocks, after.stores, after.clocks, keys, value, ttl, round, driftFactor, None)
    requires |later| == |after.clocks| && forall i :: 0 <= i < |later| && i < |round.delays| ==>
               later[i] == after.clocks[i] + round.delays[i]
    ensures Cluster(after.stores, later) == AfterFailure(c, keys, value, ttl, round)
    ensures AllPlain(keys) ==> CleanWhereReleased(after.stores, later, keys, value, round.cleanup)
  {
    var expected := AfterFailure(c, keys, value, ttl, round);
    assert after.stores == expected.stores && later == expected.clocks;
    RoundDone(c, after, keys, value, ttl, round, driftFactor, None);
    hide AcquiredAt, ReleasedAt, Outcome, CleanWhereReleased, AfterFailure;
    if AllPlain(keys) {
      StaysClean(after.stores, after.clocks, later, keys, value, round.cleanup);
    }
  }

  class InternalRedlock {
    const clients: seq<RedisNode>
    const driftFactor: real

    ghost predicate Valid() {
      && |clients| > 0
      && forall i, j :: 0 <= i < j < |clients| ==> clients[i] != clients[j]
    }

    ghost function Stores(): (s: seq<Store>)
      reads set c | c in clients
      ensures |s| == |clients| && forall i :: 0 <= i < |clients| ==> s[i] == clients[i].store
    {
      seq(|clients|, i requires 0 <= i < |clients| reads set c | c in clients => clients[i].store)
    }

    ghost function Clocks(): (s: seq<int>)
      reads set c | c in clients
      ensures |s| == |clients| && forall i :: 0 <= i < |clients| ==> s[i] == clients[i].clock
    {
      seq(|clients|, i requires 0 <= i < |clients| reads set c | c in clients => clients[i].clock)
    }

    constructor (clients: seq<RedisNode>, driftFactor: real)
      requires |clients| > 0 && forall i, j :: 0 <= i < j < |clients| ==> clients[i] != clients[j]
      ensures Valid() && this.clients == clients && this.driftFactor == driftFactor
    {
      this.clients := clients;
      this.driftFactor := driftFactor;
    }

    /** Acquire on every node; a node votes when it took all keys and its answer arrives. */
    method AcquireOnAll(keys: seq<string>, value: string, ttl: int, fates: seq<Fate>) returns (votes: seq<bool>)
      requires Valid() && |fates| == |clients|
      modifies (set c | c in clients)`store
      ensures |votes| == |clients|
      ensures forall i :: 0 <= i < |clients| ==>
                && clients[i].store == AcquiredAt(old(clients[i].store), clients[i].clock, keys, value, ttl, fates[i])
                && votes[i] == VotedAt(old(clients[i].store), clients[i].clock, keys, value, ttl, fates[i])
    {
      votes := [];
      for i := 0 to |clients|
        invariant |votes| == i
        invariant forall j :: i <= j < |clients| ==> clients[j].store == old(clients[j].store)
        invariant forall j :: 0 <= j < i ==>
                    && clients[j].store == AcquiredAt(old(clients[j].store), clients[j].clock, keys, value, ttl, fates[j])
                    && votes[j] == VotedAt(old(clients[j].store), clients[j].clock, keys, value, ttl, fates[j])
      {
        var result := false;
        if !fates[i].Undelivered? {
          var reply := RunAcquire(clients[i], keys, value, ttl, "");
          result := fates[i].Delivered? && reply == Replied(|keys|);
        }
        votes := votes + [result];
      }
    }

    method ExtendOnAll(keys: seq<string>, value: string, ttl: int, fates: seq<Fate>) returns (votes: seq<bool>)
      requires Valid() && |fates| == |clients|
      modifies (set c | c in clients)`store
      ensures |votes| == |clients|
      ensures forall i :: 0 <= i < |clients| ==>
                && clients[i].store == ExtendedAt(old(clients[i].store), clients[i].clock, keys, value, ttl, fates[i])
                && votes[i] == ExtendVoteAt(old(clients[i].store), clients[i].clock, keys, value, ttl, fates[i])
    {
      votes := [];
      for i := 0 to |clients|
        invariant |votes| == i
        invariant forall j :: i <= j < |clients| ==> clients[j].store == old(clients[j].store)
        invariant forall j :: 0 <= j < i ==>
                    && clients[j].store == ExtendedAt(old(clients[j].store), clients[j].clock, keys, value, ttl, fates[j])
                    && votes[j] == ExtendVoteAt(old(clients[j].store), clients[j].clock, keys, value, ttl, fates[j])
      {
        var result := false;
        if !fates[i].Undelivered? {
          var reply := RunExtend(clients[i], keys, value, ttl);
          result := fates[i].Delivered? && reply == Replied(|keys|);
        }
        votes := votes + [result];
      }
    }

    /** Release on every node; answers do not matter. */
    method ReleaseOnAll(keys: seq<string>, value: string, fates: seq<Fate>)
      requires Valid() && |fates| == |clients|
      modifies (set c | c in clients)`store
      ensures forall i :: 0 <= i < |clients| ==>
                clients[i].store == ReleasedAt(old(clients[i].store), clients[i].clock, keys, value, fates[i])
    {
      for i := 0 to |clients|
        invariant forall j :: i <= j < |clients| ==> clients[j].store == old(clients[j].store)
        invariant forall j :: 0 <= j < i ==>
                    clients[j].store == ReleasedAt(old(clients[j].store), clients[j].clock, keys, value, fates[j])
      {
        if !fates[i].Undelivered? {
          var released := RunRelease(clients[i], keys, value);
        }
      }
    }

    /** Time passes on the nodes' clocks while the client waits. */
    method Wait(waits: seq<nat>)
      requires Valid() && |waits| == |clients|
      modifies (set c | c in clients)`clock
      ensures forall i :: 0 <= i < |clients| ==> clients[i].clock == old(clients[i].clock) + waits[i]
    {
      for i := 0 to |clients|
        invariant forall j :: i <= j < |clients| ==> clients[j].clock == old(clients[j].clock)
        invariant forall j :: 0 <= j < i ==> clients[j].clock == old(clients[j].clock) + waits[j]
      {
        clients[i].clock := clients[i].clock + waits[i];
      }
    }

    /** One attempt: acquire everywhere; on a quorum with time left the lock stands, else
        every node is told to release. */
    method AttemptLock(keys: seq<string>, value: string, ttl: int, round: Round) returns (r: Option<Resource>)
      requires Valid() && RoundFor(|clients|, round)
      modifies set c | c in clients
      ensures AttemptDone(old(Stores()), old(Clocks()), Stores(), Clocks(), keys, value, ttl, round, driftFactor, r)
    {
      hide AcquiredAt, VotedAt, ReleasedAt, Outcome, AttemptDone;
      ghost var before, clocks := Stores(), Clocks();
      var votes := AcquireOnAll(keys, value, ttl, round.fates);
      ghost var mid := Stores();
      var successCount := Quorum.Count(votes);
      Wait(round.waits);
      assert Stores() == mid;
      r := Outcome(driftFactor, keys, value, ttl, successCount, |clients|, round.start, round.elapsed);
      if r.None? {
        ReleaseOnAll(keys, value, round.cleanup);
      }
      PackAttempt(before, clocks, mid, Stores(), Clocks(), keys, value, ttl, round, driftFactor, votes, r);
    }

    /** Extend on every node; a failed extension releases the lock it could not extend. */
    method ExtendLock(lock: Resource, ttl: int, round: Round) returns (r: Option<Resource>)
      requires Valid() && RoundFor(|clients|, round)
      modifies set c | c in clients
      ensures ExtensionDone(old(Stores()), old(Clocks()), Stores(), Clocks(), lock.resources, lock.value, ttl, round,
                            driftFactor, r)
    {
      hide ExtendedAt, ExtendVoteAt, ReleasedAt, Outcome, ExtensionDone;
      ghost var before, clocks := Stores(), Clocks();
      var votes := ExtendOnAll(lock.resources, lock.value, ttl, round.fates);
      ghost var mid := Stores();
      var successCount := Quorum.Count(votes);
      Wait(round.waits);
      assert Stores() == mid;
      r := Outcome(driftFactor, lock.resources, lock.value, ttl, successCount, |clients|, round.start, round.elapsed);
      if r.None? {
        ReleaseOnAll(lock.resources, lock.value, round.cleanup);
      }
      PackExtension(before, clocks, mid, Stores(), Clocks(), lock.resources, lock.value, ttl, round, driftFactor, votes, r);
    }

    /** One turn of the retry loop: an attempt, and the delay unless it was the last. */
    method PlayRound(keys: seq<string>, value: string, ttl: int, round: Round, last: bool) returns (r: Option<Resource>)
      requires Valid() && RoundFor(|clients|, round)
      modifies set c | c in clients
      ensures ttl > 0 ==>
                (r.Some? <==> Winnable(driftFactor, Cluster(old(Stores()), old(Clocks())), keys, value, ttl, round))
      ensures r.Some? ==> Granted(r.value, Stores(), Clocks(), keys, value, ttl, round, driftFactor)
      ensures r.None? && AllPlain(keys) ==> CleanWhereReleased(Stores(), Clocks(), keys, value, round.cleanup)
      ensures r.None? && !last ==>
                Cluster(Stores(), Clocks()) == AfterFailure(Cluster(old(Stores()), old(Clocks())), keys, value, ttl, round)
    {
      hide AttemptDone, CleanWhereReleased, Granted, Drift, Winnable, AfterFailure;
      ghost var before := Cluster(Stores(), Clocks());
      r := AttemptLock(keys, value, ttl, round);
      ghost var after := Cluster(Stores(), Clocks());
      RoundDone(before, after, keys, value, ttl, round, driftFactor, r);
      if r.None? && !last {
        Wait(round.delays);
        assert Stores() == after.stores;
        FailureLeaves(before, after, Clocks(), keys, value, ttl, round, driftFactor);
      }
    }

    /** The retry loop: at most retryCount + 1 attempts under one value. It returns the lock of
        the first round that can be won, each round finding the nodes as the failed ones before
        it and their cleanups left them. */
    method AcquireLock(keys: seq<string>, value: string, ttl: int, retryCount: int, rounds: seq<Round>)
      returns (r: Option<Resource>, attempts: nat)
      requires Valid()
      requires |rounds| == (if retryCount < 0 then 0 else retryCount + 1)
      requires RoundsFor(|clients|, rounds)
      modifies set c | c in clients
      ensures attempts <= |rounds| && (r.None? ==> attempts == |rounds|) && (r.Some? ==> attempts > 0)
      ensures ttl > 0 ==>
                forall k :: 0 <= k < attempts ==>
                  (WinnableRound(driftFactor, Cluster(old(Stores()), old(Clocks())), keys, value, ttl, rounds, k)
                   <==> r.Some? && k == attempts - 1)
      ensures r.Some? ==> Granted(r.value, Stores(), Clocks(), keys, value, ttl, rounds[attempts - 1], driftFactor)
      ensures AllPlain(keys) && r.None? && attempts > 0 ==>
                CleanWhereReleased(Stores(), Clocks(), keys, value, rounds[attempts - 1].cleanup)
    {
      hide CleanWhereReleased, Granted, Drift, Winnable, AfterFailure;
      ghost var start := Cluster(Stores(), Clocks());
      attempts := 0;
      r := None;
      while attempts < retryCount + 1 && r.None?
        invariant attempts <= |rounds| && (r.Some? ==> attempts > 0)
        invariant r.None? && attempts < |rounds| ==>
                    Cluster(Stores(), Clocks()) == BeforeRound(start, keys, value, ttl, rounds, attempts)
        invariant ttl > 0 ==>
                    forall k :: 0 <= k < attempts ==>
                      (WinnableRound(driftFactor, start, keys, value, ttl, rounds, k) <==> r.Some? && k == attempts - 1)
        invariant r.Some? ==> Granted(r.value, Stores(), Clocks(), keys, value, ttl, rounds[attempts - 1], driftFactor)
        invariant AllPlain(keys) && r.None? && attempts > 0 ==>
                    CleanWhereReleased(Stores(), Clocks(), keys, value, rounds[attempts - 1].cleanup)
        decreases |rounds| - attempts
      {
        r := PlayRound(keys, value, ttl, rounds[attempts], attempts + 1 >= retryCount + 1);
        attempts := attempts + 1;
      }
    }
  }
}
