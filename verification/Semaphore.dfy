/** The quorum semaphore: a sorted set of permits per node, scored by their expiry, whose
    key as a whole expires too. Identifiers are numbered. */
module Semaphore {
  import opened Wrappers
  import Consensus
  import Quorum

  type Id = int

  /** The sorted set and the deadline of its key; an empty set means there is no key. */
  datatype Permits = Permits(scores: map<Id, int>, deadline: int)

  const NONE := Permits(map[], 0)

  datatype Reply = Reply(granted: bool, count: nat)

  // ---- What the scripts compute --------------------------------------------------------

  /** The set as a script finds it: gone altogether once the key has expired. */
  function Present(p: Permits, now: int): Permits {
    if now <= p.deadline then p else NONE
  }

  /** ZREMRANGEBYSCORE key -inf now */
  function Purged(p: Permits, now: int): Permits {
    var q := Present(p, now);
    q.(scores := map id | id in q.scores && q.scores[id] > now :: q.scores[id])
  }

  function Acquire(p: Permits, now: int, id: Id, ttl: int, max: nat): (Permits, Reply) {
    var q := Purged(p, now);
    if id in q.scores then
      // an identifier that is already there gets a new score, but the key no new deadline
      (q.(scores := q.scores[id := now + ttl]), Reply(true, |q.scores|))
    else if |q.scores| < max then
      (Permits(q.scores[id := now + ttl], now + ttl * 2), Reply(true, |q.scores| + 1))
    else (q, Reply(false, |q.scores|))
  }

  function Release(p: Permits, now: int, id: Id): (Permits, Reply) {
    var q := Purged(p, now);
    var r := q.(scores := q.scores - {id});
    (r, Reply(id in q.scores, |r.scores|))
  }

  function Extend(p: Permits, now: int, id: Id, ttl: int): (Permits, bool) {
    var q := Present(p, now);
    if id !in q.scores then (q, false)
    else if q.scores[id] < now then (q.(scores := q.scores - {id}), false)
    else (Permits(q.scores[id := now + ttl], now + ttl * 2), true)
  }

  // ---- The scripts, run in place on a node ---------------------------------------------

  class SemaphoreNode {
    var scores: map<Id, int>
    var deadline: int
    var clock: int

    function Value(): Permits
      reads this
    {
      Permits(scores, deadline)
    }

    constructor (clock: int)
      ensures Value() == NONE && this.clock == clock
    {
      scores, deadline := map[], 0;
      this.clock := clock;
    }

    /** The key expires on its own; a script never sees an expired one. */
    method ExpireKey()
      modifies this`scores, this`deadline
      ensures Value() == Present(old(Value()), clock)
    {
      if clock > deadline {
        scores, deadline := map[], 0;
      }
    }

    method RunAcquire(id: Id, ttl: int, maxPermits: nat) returns (reply: Reply)
      modifies this`scores, this`deadline
      ensures (Value(), reply) == Acquire(old(Value()), clock, id, ttl, maxPermits)
    {
      ExpireKey();
      scores := map x | x in scores && scores[x] > clock :: scores[x];
      if id in scores {
        var count := |scores|;
        assert scores.Keys + {id} == scores.Keys;
        scores := scores[id := clock + ttl];
        return Reply(true, count);
      }
      var currentCount := |scores|;
      if currentCount < maxPermits {
        scores := scores[id := clock + ttl];
        deadline := clock + ttl * 2;
        return Reply(true, currentCount + 1);
      }
      return Reply(false, currentCount);
    }

    method RunRelease(id: Id) returns (reply: Reply)
      modifies this`scores, this`deadline
      ensures (Value(), reply) == Release(old(Value()), clock, id)
    {
      ExpireKey();
      scores := map x | x in scores && scores[x] > clock :: scores[x];
      var removed := id in scores;
      scores := scores - {id};
      return Reply(removed, |scores|);
    }

    method RunExtend(id: Id, ttl: int) returns (granted: bool)
      modifies this`scores, this`deadline
      ensures (Value(), granted) == Extend(old(Value()), clock, id, ttl)
    {
      ExpireKey();
      if id !in scores {
        return false;
      }
      if scores[id] < clock {
        scores := scores - {id};
        return false;
      }
      scores := scores[id := clock + ttl];
      deadline := clock + ttl * 2;
      return true;
    }
  }

  // ---- Runs of one node ----------------------------------------------------------------

  datatype State = State(permits: Permits, now: int)

  datatype Op =
    | DoAcquire(id: Id, ttl: int)
    | DoRelease(id: Id)
    | DoExtend(id: Id, ttl: int)
    | Advance(d: nat)

  function Apply(s: State, op: Op, max: nat): State {
    match op
    case DoAcquire(id, ttl) => s.(permits := Acquire(s.permits, s.now, id, ttl, max).0)
    case DoRelease(id) => s.(permits := Release(s.permits, s.now, id).0)
    case DoExtend(id, ttl) => s.(permits := Extend(s.permits, s.now, id, ttl).0)
    case Advance(d) => s.(now := s.now + d)
  }

  /** The state after a run in which every caller asks for the same number of permits. */
  function After(s: State, ops: seq<Op>, max: nat): State {
    if ops == [] then s else Apply(After(s, ops[..|ops| - 1], max), ops[|ops| - 1], max)
  }

  lemma PurgedNoLarger(p: Permits, now: int)
    ensures |Purged(p, now).scores| <= |Present(p, now).scores| <= |p.scores|
  {
    Quorum.SubsetSize(Purged(p, now).scores.Keys, Present(p, now).scores.Keys);
  }

  lemma UpdateSize(m: map<Id, int>, id: Id, score: int)
    ensures |m[id := score]| == if id in m then |m| else |m| + 1
    ensures |m - {id}| <= |m|
  {
    assert m[id := score].Keys == m.Keys + {id};
    Quorum.SubsetSize((m - {id}).Keys, m.Keys);
  }

  /** A node never stores more permits than the callers' common limit. */
  lemma {:induction false} CapacityKept(s: State, ops: seq<Op>, max: nat)
    requires |s.permits.scores| <= max
    ensures |After(s, ops, max).permits.scores| <= max
  {
    if ops != [] {
      var k := |ops| - 1;
      CapacityKept(s, ops[..k], max);
      var t := After(s, ops[..k], max);
      PurgedNoLarger(t.permits, t.now);
      if !ops[k].Advance? {
        UpdateSize(Purged(t.permits, t.now).scores, ops[k].id, t.now);
        UpdateSize(Present(t.permits, t.now).scores, ops[k].id, t.now);
      }
      match ops[k]
      case DoAcquire(id, ttl) => UpdateSize(Purged(t.permits, t.now).scores, id, t.now + ttl);
      case DoExtend(id, ttl) => UpdateSize(Present(t.permits, t.now).scores, id, t.now + ttl);
      case _ =>
    }
  }

  /** Releasing right after a granted acquire of a fresh identifier restores the permits. */
  lemma ReleaseUndoesAcquire(p: Permits, now: int, id: Id, ttl: int, max: nat)
    requires ttl > 0 && id !in Purged(p, now).scores
    ensures var (q, reply) := Acquire(p, now, id, ttl, max); var (r, back) := Release(q, now, id);
            && r.scores == Purged(p, now).scores && back == Reply(reply.granted, |r.scores|)
            && reply.count == |r.scores| + if reply.granted then 1 else 0
  {
    var before := Purged(p, now).scores;
    var q := Acquire(p, now, id, ttl, max).0;
    var r := Release(q, now, id).0.scores;
    if id in q.scores {
      assert forall x: Id :: x in before ==> before[x] > now;
      forall x: Id ensures x in r <==> x in before {
      }
      Quorum.SameMap(r, before);
    } else {
      Quorum.SameMap(r, before);
    }
  }

  /** A permit at exactly its score is purged by an acquire or a release, but an extension
      that comes first revives it; past its score nothing does, and an extension removes it.
      No other permit is touched. */
  lemma ExtendRevivesExactlyAtTheScore(p: Permits, now: int, id: Id, ttl: int)
    requires now <= p.deadline && id in p.scores
    ensures Extend(p, now, id, ttl).1 && id !in Purged(p, now).scores <==> p.scores[id] == now
    ensures Extend(p, now, id, ttl).1 <==> p.scores[id] >= now
    ensures var q := Extend(p, now, id, ttl).0.scores;
            && (id in q <==> p.scores[id] >= now)
            && forall x :: x != id ==> (x in q <==> x in p.scores) && (x in q ==> q[x] == p.scores[x])
  {
  }

  // ---- How many permits a quorum can grant ---------------------------------------------

  /** The identifiers whose permit is live on a node. */
  function LiveAt(s: State): set<Id> {
    Purged(s.permits, s.now).scores.Keys
  }

  function LiveSets(nodes: seq<State>): (r: seq<set<Id>>)
    ensures |r| == |nodes| && forall j :: 0 <= j < |nodes| ==> r[j] == LiveAt(nodes[j])
  {
    seq(|nodes|, j requires 0 <= j < |nodes| => LiveAt(nodes[j]))
  }

  /** The permit is live on a quorum of the nodes. */
  predicate QuorumHeld(nodes: seq<State>, id: Id) {
    Quorum.Holders(LiveSets(nodes), id) >= Quorum.Size(|nodes|)
  }

  ghost predicate ReachableNode(s: State, max: nat) {
    exists start: int, ops: seq<Op> :: s == After(State(NONE, start), ops, max)
  }

  /** Each node has played some run of its own from an empty semaphore. */
  ghost predicate ReachableNodes(nodes: seq<State>, max: nat) {
    forall j :: 0 <= j < |nodes| ==> ReachableNode(nodes[j], max)
  }

  /** In any reachable state the permits held by quorums satisfy k * Q <= N * M. */
  lemma QuorumHoldersBound(nodes: seq<State>, max: nat, holders: set<Id>)
    requires ReachableNodes(nodes, max)
    requires forall id :: id in holders ==> QuorumHeld(nodes, id)
    ensures |holders| * Quorum.Size(|nodes|) <= |nodes| * max
  {
    var live := LiveSets(nodes);
    forall j | 0 <= j < |nodes| ensures |live[j]| <= max {
      assert ReachableNode(nodes[j], max);
      var start: int, ops: seq<Op> :| nodes[j] == After(State(NONE, start), ops, max);
      CapacityKept(State(NONE, start), ops, max);
      PurgedNoLarger(nodes[j].permits, nodes[j].now);
    }
    Quorum.PairsBound(live, max);
    forall id | id in holders ensures Quorum.Holders(live, id) >= Quorum.Size(|nodes|) {
      assert QuorumHeld(nodes, id);
    }
    Quorum.DoubleCount(live, holders, Quorum.Size(|nodes|));
  }

  lemma MulMonotone(a: int, b: int, c: int)
    requires a <= b && c >= 0
    ensures a * c <= b * c
  {
    assert (b - a) * c >= 0;
  }

  lemma CancelLess(a: int, b: int, c: int)
    requires c > 0 && a * c < b * c
    ensures a < b
  {
    if a >= b {
      MulMonotone(b, a, c);
    }
  }

  lemma Doubling(k: nat, n: nat, q: nat, max: nat)
    requires k * q <= n * max && 2 * q > n && max > 0
    ensures k < 2 * max
  {
    assert 2 * max * q == max * (2 * q) && (n + 1) * max == n * max + max;
    MulMonotone(n + 1, 2 * q, max);
    CancelLess(k, 2 * max, q);
  }

  /** The limit is exceeded by less than a factor of two, and not at all with one permit or
      at most two nodes. */
  lemma QuorumHoldersBelowTwice(nodes: seq<State>, max: nat, holders: set<Id>)
    requires ReachableNodes(nodes, max) && max > 0
    requires forall id :: id in holders ==> QuorumHeld(nodes, id)
    ensures |nodes| > 0 ==> |holders| <= 2 * max - 1
    ensures |nodes| > 0 && (max == 1 || |nodes| <= 2) ==> |holders| <= max
  {
    if |nodes| > 0 {
      QuorumHoldersBound(nodes, max, holders);
      var k, n, q := |holders|, |nodes|, Quorum.Size(|nodes|);
      Doubling(k, n, q, max);
      if n <= 2 {
        CancelLess(k, max + 1, n);
      }
    }
  }

  // ---- Exactly when the limit is enforced ------------------------------------------------

  /** The condition on the configuration alone. */
  predicate LimitEnforced(n: nat, max: nat) {
    max * (n - Quorum.Size(n)) < Quorum.Size(n)
  }

  lemma EnforcedLimitHolds(nodes: seq<State>, max: nat, holders: set<Id>)
    requires |nodes| > 0 && LimitEnforced(|nodes|, max) && ReachableNodes(nodes, max)
    requires forall id :: id in holders ==> QuorumHeld(nodes, id)
    ensures |holders| <= max
  {
    QuorumHoldersBound(nodes, max, holders);
    var n, q := |nodes|, Quorum.Size(|nodes|);
    assert max * (n - q) == n * max - max * q;
    CancelLess(|holders|, max + 1, q);
  }

  /** How many steps around the ring of n nodes lead from start to j. */
  function Gap(n: nat, start: int, j: int): (g: nat)
    requires n > 0
    ensures g < n
  {
    (j - start) % n
  }

  /** Identifier i is granted by the q nodes that follow node i*q around the ring. */
  predicate OnRing(n: nat, q: nat, i: int, j: int)
    requires n > 0
  {
    Gap(n, i * q, j) < q
  }

  /** The identifiers below k that the ring gives to node j, in rising order. */
  function RingIds(n: nat, q: nat, k: nat, j: int): (ids: seq<Id>)
    requires n > 0
    ensures forall i :: i in ids <==> 0 <= i < k && OnRing(n, q, i, j)
    ensures forall a :: 0 <= a < |ids| ==> 0 <= ids[a] < k
    ensures forall a, b :: 0 <= a < b < |ids| ==> ids[a] < ids[b]
  {
    if k == 0 then []
    else RingIds(n, q, k - 1, j) + if OnRing(n, q, k - 1, j) then [k - 1] else []
  }

  function AcquireEach(ids: seq<Id>, ttl: int): (ops: seq<Op>)
    ensures |ops| == |ids|
  {
    seq(|ids|, i requires 0 <= i < |ids| => DoAcquire(ids[i], ttl))
  }

  /** The place of identifier i's slot on node j in the unrolled ring. */
  function Slot(n: nat, q: nat, i: int, j: int): int
    requires n > 0
  {
    i * q + Gap(n, i * q, j)
  }

  /** The round of the ring that serves identifier i on node j. */
  function Round(n: nat, q: nat, i: int, j: int): int
    requires n > 0
  {
    Slot(n, q, i, j) / n
  }

  lemma DivModByParts(n: nat, m: int, j: nat)
    requires j < n
    ensures (j + n * m) / n == m && (j + n * m) % n == j
  {
    var x := j + n * m;
    var e := x / n - m;
    assert n * e == j - x % n by {
      assert x == n * (x / n) + x % n;
      assert n * e == n * (x / n) - n * m;
    }
    if e >= 1 { MulMonotone(1, e, n); }
    if e <= -1 { MulMonotone(e, -1, n); }
  }

  /** A slot is on its node, in some round of the ring. */
  lemma SlotIsOnNode(n: nat, q: nat, i: int, j: nat)
    requires n > 0 && j < n
    ensures Slot(n, q, i, j) == n * Round(n, q, i, j) + j
  {
    var d := j - i * q;
    assert d == n * (d / n) + d % n;
    assert Slot(n, q, i, j) == j + n * (-(d / n));
    DivModByParts(n, -(d / n), j);
  }

  lemma SlotAtLeast(n: nat, q: nat, i: int, j: int)
    requires n > 0
    ensures i * q <= Slot(n, q, i, j)
  {
  }

  lemma SlotBelow(n: nat, q: nat, i: int, j: int)
    requires n > 0 && OnRing(n, q, i, j)
    ensures i * q <= Slot(n, q, i, j) < (i + 1) * q
  {
  }

  /** No identifier is served before round 0. */
  lemma RoundNonNegative(n: nat, q: nat, i: nat, j: nat)
    requires n > 0 && j < n
    ensures Round(n, q, i, j) >= 0
  {
    hide *;
    SlotIsOnNode(n, q, i, j);
    SlotAtLeast(n, q, i, j);
    MulMonotone(0, i, q);
    CancelLess(-1, Round(n, q, i, j), n);
  }

  /** On one node a later identifier is served in a later round. */
  lemma LaterRound(n: nat, q: nat, i: nat, k: nat, j: nat)
    requires n > 0 && j < n
    requires i < k && OnRing(n, q, i, j)
    ensures Round(n, q, i, j) < Round(n, q, k, j)
  {
    hide *;
    SlotIsOnNode(n, q, i, j);
    SlotIsOnNode(n, q, k, j);
    SlotBelow(n, q, i, j);
    SlotAtLeast(n, q, k, j);
    MulMonotone(i + 1, k, q);
    CancelLess(Round(n, q, i, j), Round(n, q, k, j), n);
  }

  lemma RingIdsStart(n: nat, q: nat, j: nat)
    requires n > 0
    ensures RingIds(n, q, 0, j) == []
  {
  }

  lemma RingIdsStep(n: nat, q: nat, i: nat, j: nat)
    requires n > 0
    ensures RingIds(n, q, i + 1, j) == if OnRing(n, q, i, j) then RingIds(n, q, i, j) + [i] else RingIds(n, q, i, j)
  {
    hide OnRing;
  }

  /** So an identifier comes after as many rounds as there are earlier identifiers. */
  lemma {:induction false} RingRounds(n: nat, q: nat, k: nat, i: nat, j: nat)
    requires n > 0 && j < n && k <= i
    ensures Round(n, q, i, j) >= |RingIds(n, q, k, j)|
  {
    hide *;
    if k == 0 {
      RingIdsStart(n, q, j);
      RoundNonNegative(n, q, i, j);
    } else {
      RingIdsStep(n, q, k - 1, j);
      if OnRing(n, q, k - 1, j) {
        RingRounds(n, q, k - 1, k - 1, j);
        LaterRound(n, q, k - 1, i, j);
      } else {
        RingRounds(n, q, k - 1, i, j);
      }
    }
  }

  lemma RoundBelow(n: nat, q: nat, i: nat, j: nat, max: nat)
    requires n > 0 && j < n && OnRing(n, q, i, j) && (i + 1) * q <= n * max
    ensures Round(n, q, i, j) < max
  {
    hide *;
    SlotIsOnNode(n, q, i, j);
    SlotBelow(n, q, i, j);
    CancelLess(Round(n, q, i, j), max, n);
  }

  lemma {:induction false} RingLoad(n: nat, q: nat, k: nat, j: nat, max: nat)
    requires n > 0 && j < n && k * q <= n * max
    ensures |RingIds(n, q, k, j)| <= max
  {
    if k > 0 {
      hide *;
      var i := k - 1;
      RingIdsStep(n, q, i, j);
      if OnRing(n, q, i, j) {
        RingRounds(n, q, i, i, j);
        RoundBelow(n, q, i, j, max);
      } else {
        MulMonotone(i, k, q);
        RingLoad(n, q, i, j, max);
      }
    }
  }

  /** The q nodes that follow `start` around the ring. */
  function Window(n: nat, start: int, q: nat): set<int>
    requires n > 0
  {
    if q == 0 then {} else Window(n, start, q - 1) + {(start + q - 1) % n}
  }

  lemma WindowEnd(n: nat, start: int, q: nat)
    requires 0 < q <= n
    ensures Gap(n, start, (start + q - 1) % n) == q - 1
  {
    var x := start + q - 1;
    assert x == n * (x / n) + x % n;
    DivModByParts(n, -(x / n), q - 1);
    assert x % n - start == (q - 1) + n * (-(x / n));
  }

  lemma {:induction false} WindowSize(n: nat, start: int, q: nat)
    requires 0 < n && q <= n
    ensures |Window(n, start, q)| == q
    ensures forall j :: j in Window(n, start, q) ==> 0 <= j < n && Gap(n, start, j) < q
  {
    if q > 0 {
      WindowSize(n, start, q - 1);
      WindowEnd(n, start, q);
      hide Gap;
    }
  }

  /** A node that holds exactly these permits, all of one age. */
  ghost predicate Filled(s: State, ids: seq<Id>, ttl: int) {
    && s.now == 0 && s.permits.deadline >= 0 && |s.permits.scores| == |ids|
    && (forall id :: id in s.permits.scores <==> id in ids)
    && (forall id :: id in s.permits.scores ==> s.permits.scores[id] == ttl)
  }

  lemma AcquireOneMore(s: State, id: Id, ttl: int, max: nat)
    requires ttl > 0 && s.now == 0 && s.permits.deadline >= 0 && |s.permits.scores| < max && id !in s.permits.scores
    requires forall x :: x in s.permits.scores ==> s.permits.scores[x] == ttl
    ensures Acquire(s.permits, 0, id, ttl, max).1.granted
    ensures var t := Apply(s, DoAcquire(id, ttl), max);
            && t.now == 0 && t.permits.deadline == ttl * 2 && t.permits.scores == s.permits.scores[id := ttl]
            && |t.permits.scores| == |s.permits.scores| + 1
  {
    var purged := Purged(s.permits, 0).scores;
    forall x: Id ensures x in purged <==> x in s.permits.scores {
      assert x in s.permits.scores ==> s.permits.scores[x] == ttl;
    }
    Quorum.SameMap(purged, s.permits.scores);
    UpdateSize(s.permits.scores, id, ttl);
  }

  lemma FillsOneMore(s: State, ids: seq<Id>, id: Id, ttl: int, max: nat)
    requires ttl > 0 && Filled(s, ids, ttl) && |ids| < max && id !in ids
    ensures Filled(Apply(s, DoAcquire(id, ttl), max), ids + [id], ttl)
  {
    AcquireOneMore(s, id, ttl, max);
    hide Apply;
  }

  /** Acquiring distinct identifiers one after the other grants them all, up to the limit. */
  lemma {:induction false} AcquireEachFills(ids: seq<Id>, ttl: int, max: nat)
    requires ttl > 0 && |ids| <= max && forall a, b :: 0 <= a < b < |ids| ==> ids[a] < ids[b]
    ensures Filled(After(State(NONE, 0), AcquireEach(ids, ttl), max), ids, ttl)
  {
    if ids != [] {
      var k := |ids| - 1;
      AcquireEachFills(ids[..k], ttl, max);
      assert AcquireEach(ids, ttl)[..k] == AcquireEach(ids[..k], ttl);
      assert ids == ids[..k] + [ids[k]];
      var s := After(State(NONE, 0), AcquireEach(ids[..k], ttl), max);
      assert ids[k] !in ids[..k];
      assert After(State(NONE, 0), AcquireEach(ids, ttl), max) == Apply(s, DoAcquire(ids[k], ttl), max);
      hide After, AcquireEach;
      FillsOneMore(s, ids[..k], ids[k], ttl, max);
    }
  }

  lemma AllLive(s: State)
    requires s.now <= s.permits.deadline
    requires forall id :: id in s.permits.scores ==> s.permits.scores[id] > s.now
    ensures forall id :: id in LiveAt(s) <==> id in s.permits.scores
  {
  }

  /** The q nodes of identifier i's window all hold it. */
  lemma WindowHolds(nodes: seq<State>, q: nat, i: int)
    requires |nodes| > 0 && q <= |nodes|
    requires forall j :: 0 <= j < |nodes| && OnRing(|nodes|, q, i, j) ==> i in LiveAt(nodes[j])
    ensures Quorum.Holders(LiveSets(nodes), i) >= q
  {
    hide LiveAt, Gap;
    WindowSize(|nodes|, i * q, q);
    Quorum.HoldersAtLeast(LiveSets(nodes), i, Window(|nodes|, i * q, q));
  }

  lemma RoomForOneMore(n: nat, max: nat)
    requires n > 0 && !LimitEnforced(n, max)
    ensures (max + 1) * Quorum.Size(n) <= n * max
  {
    var q := Quorum.Size(n);
    assert max * (n - q) == n * max - max * q;
  }

  // ---- Whole deployments -----------------------------------------------------------------

  /** Commands of one client call reach the nodes in `reached` and no others, or time passes
      there. A call whose commands arrive at different times is several moves. */
  datatype Move = Move(op: Op, reached: set<int>)

  function Empty(n: nat): (nodes: seq<State>)
    ensures |nodes| == n && forall j :: 0 <= j < n ==> nodes[j] == State(NONE, 0)
  {
    seq(n, _ => State(NONE, 0))
  }

  function Moved(nodes: seq<State>, m: Move, max: nat): (r: seq<State>)
    ensures |r| == |nodes|
    ensures forall j :: 0 <= j < |nodes| ==> r[j] == if j in m.reached then Apply(nodes[j], m.op, max) else nodes[j]
  {
    seq(|nodes|, j requires 0 <= j < |nodes| => if j in m.reached then Apply(nodes[j], m.op, max) else nodes[j])
  }

  function Played(nodes: seq<State>, moves: seq<Move>, max: nat): (r: seq<State>)
    ensures |r| == |nodes|
  {
    if moves == [] then nodes else Moved(Played(nodes, moves[..|moves| - 1], max), moves[|moves| - 1], max)
  }

  /** What one acquire call hears from the nodes: the first element of each reply, or a lost
      command. */
  function Replies(nodes: seq<State>, m: Move, max: nat): (r: seq<Consensus.Outcome<int, ()>>)
    requires m.op.DoAcquire?
    ensures |r| == |nodes|
    ensures forall j :: 0 <= j < |nodes| ==>
              r[j] == if j !in m.reached then Consensus.Failed(())
                      else Consensus.Answered(if Acquire(nodes[j].permits, nodes[j].now, m.op.id, m.op.ttl, max).1.granted
                                              then 1 else 0)
  {
    seq(|nodes|, j requires 0 <= j < |nodes| =>
          if j !in m.reached then Consensus.Failed(())
          else Consensus.Answered(if Acquire(nodes[j].permits, nodes[j].now, m.op.id, m.op.ttl, max).1.granted
                                  then 1 else 0))
  }

  function PermitRules(): Consensus.Rules<int, ()> {
    Consensus.Rules((r: int) => r > 0, (_: int) => (), (_: ()) => true)
  }

  /** The acquire call is granted: the consensus over these replies succeeds. */
  ghost predicate Wins(nodes: seq<State>, m: Move, max: nat) {
    m.op.DoAcquire? && Consensus.Decided(PermitRules(), Consensus.MajorityPolicy, Replies(nodes, m, max))
  }

  /** Some acquire call under this identifier was granted, and a quorum still holds it. */
  ghost predicate HoldsPermit(nodes: seq<State>, moves: seq<Move>, max: nat, id: Id) {
    && QuorumHeld(Played(nodes, moves, max), id)
    && exists i :: 0 <= i < |moves| && Wins(Played(nodes, moves[..i], max), moves[i], max) && moves[i].op.id == id
  }

  function OpsAt(moves: seq<Move>, j: int): seq<Op> {
    if moves == [] then []
    else OpsAt(moves[..|moves| - 1], j)
         + if j in moves[|moves| - 1].reached then [moves[|moves| - 1].op] else []
  }

  /** Every node of a deployment has played a run of its own. */
  lemma {:induction false} PlayedAt(nodes: seq<State>, moves: seq<Move>, max: nat, j: nat)
    requires j < |nodes|
    ensures Played(nodes, moves, max)[j] == After(nodes[j], OpsAt(moves, j), max)
  {
    hide Apply;
    if moves != [] {
      var front, m := moves[..|moves| - 1], moves[|moves| - 1];
      PlayedAt(nodes, front, max, j);
      if j in m.reached {
        var ops := OpsAt(front, j);
        assert OpsAt(moves, j) == ops + [m.op] && (ops + [m.op])[..|ops|] == ops;
      } else {
        assert OpsAt(moves, j) == OpsAt(front, j) + [] == OpsAt(front, j);
      }
    }
  }

  lemma PlayedReachable(n: nat, moves: seq<Move>, max: nat)
    ensures ReachableNodes(Played(Empty(n), moves, max), max)
  {
    var nodes := Played(Empty(n), moves, max);
    forall j | 0 <= j < n ensures ReachableNode(nodes[j], max) {
      PlayedAt(Empty(n), moves, max, j);
    }
  }

  function RingSet(n: nat, q: nat, i: int): (r: set<int>)
    requires n > 0
    ensures forall j :: j in r <==> 0 <= j < n && OnRing(n, q, i, j)
  {
    set j | 0 <= j < n && OnRing(n, q, i, j)
  }

  /** Identifier after identifier, each reaching its own q nodes. */
  function RingMoves(n: nat, q: nat, k: nat, ttl: int): (moves: seq<Move>)
    requires n > 0
    ensures |moves| == k
    ensures forall i :: 0 <= i < k ==> moves[i] == Move(DoAcquire(i, ttl), RingSet(n, q, i))
  {
    seq(k, i requires 0 <= i < k => Move(DoAcquire(i, ttl), RingSet(n, q, i)))
  }

  lemma AcquireOneAfter(ids: seq<Id>, id: Id, ttl: int, max: nat)
    ensures var s := State(NONE, 0);
            After(s, AcquireEach(ids + [id], ttl), max)
              == Apply(After(s, AcquireEach(ids, ttl), max), DoAcquire(id, ttl), max)
  {
    var ops := AcquireEach(ids + [id], ttl);
    assert ops[..|ids|] == AcquireEach(ids, ttl) && ops[|ids|] == DoAcquire(id, ttl);
  }

  lemma RingUnplayed(n: nat, q: nat, ttl: int, max: nat, j: nat)
    requires n > 0 && j < n
    ensures Played(Empty(n), RingMoves(n, q, 0, ttl), max)[j]
         == After(State(NONE, 0), AcquireEach(RingIds(n, q, 0, j), ttl), max)
  {
    hide Apply, OnRing, Moved;
    RingIdsStart(n, q, j);
    assert RingMoves(n, q, 0, ttl) == [] && AcquireEach([], ttl) == [];
  }

  lemma {:induction false} RingPlayed(n: nat, q: nat, k: nat, ttl: int, max: nat, j: nat)
    requires n > 0 && j < n
    ensures Played(Empty(n), RingMoves(n, q, k, ttl), max)[j]
         == After(State(NONE, 0), AcquireEach(RingIds(n, q, k, j), ttl), max)
  {
    if k == 0 {
      RingUnplayed(n, q, ttl, max, j);
    } else {
      hide RingIds, RingMoves, Apply, OnRing, Moved, AcquireEach, After, Empty;
      var i := k - 1;
      RingPlayed(n, q, i, ttl, max, j);
      var moves, ids := RingMoves(n, q, k, ttl), RingIds(n, q, i, j);
      assert moves[..i] == RingMoves(n, q, i, ttl);
      var before := Played(Empty(n), moves[..i], max);
      assert Played(Empty(n), moves, max) == Moved(before, moves[i], max);
      assert moves[i].op == DoAcquire(i, ttl) && (j in moves[i].reached <==> OnRing(n, q, i, j));
      hide *;
      RingIdsStep(n, q, i, j);
      AcquireOneAfter(ids, i, ttl, max);
    }
  }

  /** The node holds what the ring gives it, up to identifier k. */
  lemma RingFilled(n: nat, q: nat, k: nat, ttl: int, max: nat, j: nat)
    requires n > 0 && j < n && ttl > 0 && k * q <= n * max
    ensures Filled(Played(Empty(n), RingMoves(n, q, k, ttl), max)[j], RingIds(n, q, k, j), ttl)
  {
    hide *;
    RingPlayed(n, q, k, ttl, max, j);
    RingLoad(n, q, k, j, max);
    AcquireEachFills(RingIds(n, q, k, j), ttl, max);
  }

  lemma WindowInRing(n: nat, q: nat, i: int)
    requires 0 < n && q <= n
    ensures |RingSet(n, q, i)| >= q
  {
    WindowSize(n, i * q, q);
    Quorum.SubsetSize(Window(n, i * q, q), RingSet(n, q, i));
  }

  /** Each of these acquire calls is granted by its q nodes. */
  lemma RingWins(n: nat, k: nat, ttl: int, max: nat)
    requires n > 0 && ttl > 0 && (k + 1) * Quorum.Size(n) <= n * max
    ensures var q := Quorum.Size(n);
            Wins(Played(Empty(n), RingMoves(n, q, k, ttl), max), Move(DoAcquire(k, ttl), RingSet(n, q, k)), max)
  {
    hide OnRing, Gap, Played, RingMoves, Acquire;
    var q := Quorum.Size(n);
    var nodes, m := Played(Empty(n), RingMoves(n, q, k, ttl), max), Move(DoAcquire(k, ttl), RingSet(n, q, k));
    var replies := Replies(nodes, m, max);
    forall j | 0 <= j < n && OnRing(n, q, k, j) ensures Consensus.IsGood(PermitRules(), replies[j]) {
      MulMonotone(k, k + 1, q);
      RingFilled(n, q, k, ttl, max, j);
      RingLoad(n, q, k + 1, j, max);
      AcquireOneMore(nodes[j], k, ttl, max);
    }
    WindowInRing(n, q, k);
    Quorum.SubsetSize(RingSet(n, q, k), Consensus.GoodSet(PermitRules(), replies));
  }

  /** All these identifiers are held by quorums, however their acquire commands arrived. */
  ghost predicate AllHeld(n: nat, moves: seq<Move>, max: nat, holders: set<Id>) {
    forall id :: id in holders ==> QuorumHeld(Played(Empty(n), moves, max), id)
  }

  /** And each was granted to its caller by one acquire call. */
  ghost predicate AllGranted(n: nat, moves: seq<Move>, max: nat, holders: set<Id>) {
    forall id :: id in holders ==> HoldsPermit(Empty(n), moves, max, id)
  }

  lemma HeldByQuorums(n: nat, moves: seq<Move>, max: nat, holders: set<Id>)
    requires AllHeld(n, moves, max, holders)
    ensures forall id :: id in holders ==> QuorumHeld(Played(Empty(n), moves, max), id)
  {
  }

  lemma RingHolds(n: nat, max: nat, ttl: int, i: nat)
    requires n > 0 && ttl > 0 && (max + 1) * Quorum.Size(n) <= n * max && i <= max
    ensures QuorumHeld(Played(Empty(n), RingMoves(n, Quorum.Size(n), max + 1, ttl), max), i)
  {
    hide OnRing, LiveAt, Played, RingMoves;
    var q := Quorum.Size(n);
    var nodes := Played(Empty(n), RingMoves(n, q, max + 1, ttl), max);
    forall j | 0 <= j < n && OnRing(n, q, i, j) ensures i in LiveAt(nodes[j]) {
      RingFilled(n, q, max + 1, ttl, max, j);
      AllLive(nodes[j]);
    }
    WindowHolds(nodes, q, i);
  }

  function Below(k: nat): (s: set<Id>)
    ensures |s| == k && forall i :: i in s <==> 0 <= i < k
  {
    if k == 0 then {} else Below(k - 1) + {k - 1}
  }

  /** Where the limit is not enforced, max + 1 acquire calls, each sent to all nodes and each
      granted by a quorum, can hold their permits at once. */
  lemma LimitBroken(n: nat, max: nat, ttl: int) returns (moves: seq<Move>, holders: set<Id>)
    requires n > 0 && ttl > 0 && !LimitEnforced(n, max)
    ensures |moves| == max + 1 && forall i :: 0 <= i < |moves| ==> moves[i].op == DoAcquire(i, ttl)
    ensures |holders| == max + 1 && AllHeld(n, moves, max, holders) && AllGranted(n, moves, max, holders)
  {
    hide LiveAt, OnRing, LimitEnforced, Played, Filled, Wins, QuorumHeld;
    var q := Quorum.Size(n);
    RoomForOneMore(n, max);
    moves := RingMoves(n, q, max + 1, ttl);
    holders := Below(max + 1);
    forall i | i in holders ensures HoldsPermit(Empty(n), moves, max, i) {
      assert moves[..i] == RingMoves(n, q, i, ttl);
      MulMonotone(i + 1, max + 1, q);
      RingWins(n, i, ttl, max);
      RingHolds(n, max, ttl, i);
    }
  }

  /** Over all deployments of n nodes, whatever commands arrive where and when, at most
      `maxPermits` identifiers are ever held by quorums exactly when max * (N - Q) < Q; for
      three nodes that is max = 1 only. Counting only the identifiers whose caller was granted
      the permit changes nothing. */
  lemma LimitEnforcedIff(n: nat, max: nat)
    requires n > 0
    ensures LimitEnforced(n, max) <==>
              forall moves: seq<Move>, holders: set<Id> :: AllHeld(n, moves, max, holders) ==> |holders| <= max
    ensures LimitEnforced(n, max) <==>
              forall moves: seq<Move>, holders: set<Id> ::
                AllHeld(n, moves, max, holders) && AllGranted(n, moves, max, holders) ==> |holders| <= max
  {
    hide AllHeld, AllGranted;
    if LimitEnforced(n, max) {
      forall moves: seq<Move>, holders: set<Id> | AllHeld(n, moves, max, holders) ensures |holders| <= max {
        PlayedReachable(n, moves, max);
        HeldByQuorums(n, moves, max, holders);
        EnforcedLimitHolds(Played(Empty(n), moves, max), max, holders);
      }
    } else {
      var moves, holders := LimitBroken(n, max, 1);
    }
  }

  // ---- Permits survive until their score -------------------------------------------------

  /** The key does not expire before any of its members. */
  ghost predicate Covered(p: Permits) {
    forall id :: id in p.scores ==> p.scores[id] <= p.deadline
  }

  /** Every caller takes its ttl from `ttls`, and an acquire only ever uses a fresh identifier. */
  ghost predicate Fresh(s: State, op: Op, ttls: iset<int>) {
    match op
    case DoAcquire(id, t) => t in ttls && id !in Purged(s.permits, s.now).scores
    case DoExtend(_, t) => t in ttls
    case _ => true
  }

  ghost predicate FreshRun(s: State, ops: seq<Op>, max: nat, ttls: iset<int>) {
    forall i :: 0 <= i < |ops| ==> Fresh(After(s, ops[..i], max), ops[i], ttls)
  }

  /** No ttl in use is more than twice another. */
  ghost predicate WithinTwice(ttls: iset<int>) {
    forall a, b :: a in ttls && b in ttls ==> a <= 2 * b
  }

  ghost predicate Ahead(ttls: iset<int>, score: int, now: int) {
    exists a :: a in ttls && score <= now + a
  }

  /** The key outlives its members, and no score lies further ahead than some ttl in use. */
  ghost predicate CoveredWithin(s: State, ttls: iset<int>) {
    Covered(s.permits) && forall id :: id in s.permits.scores ==> Ahead(ttls, s.permits.scores[id], s.now)
  }

  lemma AheadReached(ttls: iset<int>, score: int, now: int, b: int)
    requires WithinTwice(ttls) && Ahead(ttls, score, now) && b in ttls
    ensures score <= now + b * 2
  {
  }

  lemma AheadLater(ttls: iset<int>, score: int, now: int, later: int)
    requires Ahead(ttls, score, now) && now <= later
    ensures Ahead(ttls, score, later)
  {
    var a :| a in ttls && score <= now + a;
    assert score <= later + a;
  }

  lemma AheadNow(ttls: iset<int>, now: int, a: int)
    requires a in ttls
    ensures Ahead(ttls, now + a, now)
  {
  }

  lemma CoveredStep(s: State, op: Op, max: nat, ttls: iset<int>)
    requires (forall a :: a in ttls ==> a > 0) && WithinTwice(ttls)
    requires CoveredWithin(s, ttls) && Fresh(s, op, ttls)
    ensures CoveredWithin(Apply(s, op, max), ttls)
  {
    hide WithinTwice, Ahead;
    var t := Apply(s, op, max);
    forall id | id in t.permits.scores
      ensures t.permits.scores[id] <= t.permits.deadline && Ahead(ttls, t.permits.scores[id], t.now)
    {
      if op.Advance? {
        AheadLater(ttls, s.permits.scores[id], s.now, t.now);
      } else if !op.DoRelease? {
        assert op.ttl in ttls && s.now + op.ttl <= s.now + op.ttl * 2;
        if id in s.permits.scores && t.permits.scores[id] == s.permits.scores[id] {
          AheadReached(ttls, s.permits.scores[id], s.now, op.ttl);
        } else {
          AheadNow(ttls, s.now, op.ttl);
        }
      }
    }
  }

  lemma FreshPrefix(s: State, ops: seq<Op>, max: nat, ttls: iset<int>)
    requires |ops| > 0 && FreshRun(s, ops, max, ttls)
    ensures FreshRun(s, ops[..|ops| - 1], max, ttls)
    ensures Fresh(After(s, ops[..|ops| - 1], max), ops[|ops| - 1], ttls)
  {
    hide Fresh, After;
    var k := |ops| - 1;
    forall i | 0 <= i < k ensures Fresh(After(s, ops[..k][..i], max), ops[..k][i], ttls) {
      assert ops[..k][..i] == ops[..i];
      assert Fresh(After(s, ops[..i], max), ops[i], ttls);
    }
  }

  lemma {:induction false} CoveredKept(s: State, ops: seq<Op>, max: nat, ttls: iset<int>)
    requires (forall a :: a in ttls ==> a > 0) && WithinTwice(ttls)
    requires FreshRun(s, ops, max, ttls) && CoveredWithin(s, ttls)
    ensures CoveredWithin(After(s, ops, max), ttls)
  {
    hide CoveredWithin, WithinTwice, Fresh, FreshRun, Apply;
    if ops != [] {
      var k := |ops| - 1;
      FreshPrefix(s, ops, max, ttls);
      CoveredKept(s, ops[..k], max, ttls);
      CoveredStep(After(s, ops[..k], max), ops[k], max, ttls);
    }
  }

  lemma OnlyMember(m: map<Id, int>, id: Id)
    requires |m| <= 1 && id in m
    ensures forall x :: x in m ==> x == id
  {
    forall x | x in m ensures x == id {
      if x != id { Quorum.SubsetSize({x, id}, m.Keys); }
    }
  }

  lemma SinglePermitStep(s: State, op: Op, max: nat, ttls: iset<int>)
    requires (forall a :: a in ttls ==> a > 0) && max <= 1 && Fresh(s, op, ttls)
    requires |s.permits.scores| <= max && Covered(s.permits)
    ensures Covered(Apply(s, op, max).permits)
  {
    PurgedNoLarger(s.permits, s.now);
    var p, q := Present(s.permits, s.now), Purged(s.permits, s.now);
    if op.DoExtend? && op.id in p.scores {
      OnlyMember(p.scores, op.id);
    }
    if op.DoAcquire? && |q.scores| < max {
      assert q.scores == map[];
    }
  }

  /** With at most one permit per node there is no other member to outlive. */
  lemma {:induction false} SinglePermitCovered(start: int, ops: seq<Op>, max: nat, ttls: iset<int>)
    requires (forall a :: a in ttls ==> a > 0) && max <= 1 && FreshRun(State(NONE, start), ops, max, ttls)
    ensures Covered(After(State(NONE, start), ops, max).permits)
  {
    hide Fresh, FreshRun;
    if ops != [] {
      var k := |ops| - 1;
      FreshPrefix(State(NONE, start), ops, max, ttls);
      SinglePermitCovered(start, ops[..k], max, ttls);
      CapacityKept(State(NONE, start), ops[..k], max);
      SinglePermitStep(After(State(NONE, start), ops[..k], max), ops[k], max, ttls);
    }
  }

  ghost predicate AlwaysCovered(max: nat, ttls: iset<int>) {
    forall start: int, ops: seq<Op> ::
      FreshRun(State(NONE, start), ops, max, ttls) ==> Covered(After(State(NONE, start), ops, max).permits)
  }

  /** Two permits, the second for less than half as long as the first. */
  lemma ShortTtlUncovers(max: nat, ttls: iset<int>, a: int, b: int)
    requires max >= 2 && a in ttls && b in ttls && b > 0 && a > 2 * b
    ensures !AlwaysCovered(max, ttls)
  {
    var s0, ops := State(NONE, 0), [DoAcquire(1, a), DoAcquire(2, b)];
    var s1 := Apply(s0, ops[0], max);
    assert ops[..1] == [DoAcquire(1, a)] && ops[..0] == [] && ops[..1][..0] == [];
    assert After(s0, [], max) == s0 && After(s0, ops[..1], max) == s1;
    assert |Purged(NONE, 0).scores| == 0;
    assert s1.permits == Permits(map[1 := a], 2 * a);
    Quorum.SameMap(Purged(s1.permits, 0).scores, s1.permits.scores);
    var s2 := Apply(s1, ops[1], max);
    assert After(s0, ops, max) == s2;
    assert 1 in s2.permits.scores && s2.permits.scores[1] == a && s2.permits.deadline == 2 * b;
    assert forall i :: 0 <= i < |ops| ==> Fresh(After(s0, ops[..i], max), ops[i], ttls);
  }

  lemma NothingIsCovered(start: int, ttls: iset<int>)
    ensures CoveredWithin(State(NONE, start), ttls)
  {
  }

  /** With fresh identifiers and ttls drawn from `ttls`, the key outlives its members after
      every run exactly when a node holds at most one permit or no ttl is more than twice
      another, be it an acquire's or an extension's. */
  lemma AlwaysCoveredIff(max: nat, ttls: iset<int>)
    requires forall a :: a in ttls ==> a > 0
    ensures AlwaysCovered(max, ttls) <==> (max <= 1 || WithinTwice(ttls))
  {
    hide FreshRun, Covered;
    if max <= 1 {
      forall start: int, ops: seq<Op> | FreshRun(State(NONE, start), ops, max, ttls)
        ensures Covered(After(State(NONE, start), ops, max).permits)
      {
        SinglePermitCovered(start, ops, max, ttls);
      }
    } else if WithinTwice(ttls) {
      forall start: int, ops: seq<Op> | FreshRun(State(NONE, start), ops, max, ttls)
        ensures Covered(After(State(NONE, start), ops, max).permits)
      {
        NothingIsCovered(start, ttls);
        CoveredKept(State(NONE, start), ops, max, ttls);
        assert CoveredWithin(After(State(NONE, start), ops, max), ttls);
      }
    } else {
      var a, b :| a in ttls && b in ttls && a > 2 * b;
      ShortTtlUncovers(max, ttls, a, b);
    }
  }

  predicate Touches(op: Op, id: Id) {
    !op.Advance? && op.id == id
  }

  lemma UntouchedStep(s: State, op: Op, max: nat, id: Id)
    requires id in LiveAt(s) && !Touches(op, id)
    ensures var t := Apply(s, op, max); id in t.permits.scores && t.permits.scores[id] == s.permits.scores[id]
  {
  }

  lemma CoveredAfter(start: int, ops: seq<Op>, max: nat, ttls: iset<int>)
    requires AlwaysCovered(max, ttls) && FreshRun(State(NONE, start), ops, max, ttls)
    ensures Covered(After(State(NONE, start), ops, max).permits)
  {
  }

  /** In any run with fresh identifiers, a permit that nobody extends or releases from some
      point on is still there, with its score, at every moment before that score: neither
      purging nor the key's own expiry takes it. */
  lemma {:induction false} PermitSurvives(start: int, ops: seq<Op>, k: nat, max: nat, ttls: iset<int>, id: Id)
    requires (forall a :: a in ttls ==> a > 0) && (max <= 1 || WithinTwice(ttls))
    requires FreshRun(State(NONE, start), ops, max, ttls) && k <= |ops|
    requires id in After(State(NONE, start), ops[..k], max).permits.scores
    requires forall i :: k <= i < |ops| ==> !Touches(ops[i], id)
    requires After(State(NONE, start), ops, max).now
               < After(State(NONE, start), ops[..k], max).permits.scores[id]
    ensures var t := After(State(NONE, start), ops, max);
            id in LiveAt(t) && t.permits.scores[id] == After(State(NONE, start), ops[..k], max).permits.scores[id]
    decreases |ops|
  {
    hide Fresh, FreshRun, WithinTwice, AlwaysCovered, Acquire, Release, Extend;
    var s0, t := State(NONE, start), After(State(NONE, start), ops, max);
    AlwaysCoveredIff(max, ttls);
    CoveredAfter(start, ops, max, ttls);
    if k == |ops| {
      assert ops[..k] == ops;
      hide After;
    } else {
      var last := |ops| - 1;
      assert ops[..last][..k] == ops[..k];
      FreshPrefix(s0, ops, max, ttls);
      var before := After(s0, ops[..last], max);
      assert t == Apply(before, ops[last], max) && before.now <= t.now;
      hide After;
      PermitSurvives(start, ops[..last], k, max, ttls, id);
      UntouchedStep(before, ops[last], max, id);
    }
  }

  // ---- And with identifiers that are used again ---------------------------------------------

  ghost predicate Drawn(ops: seq<Op>, ttls: iset<int>) {
    forall i :: 0 <= i < |ops| && (ops[i].DoAcquire? || ops[i].DoExtend?) ==> ops[i].ttl in ttls
  }

  ghost predicate EverCovered(max: nat, ttls: iset<int>) {
    forall start: int, ops: seq<Op> :: Drawn(ops, ttls) ==> Covered(After(State(NONE, start), ops, max).permits)
  }

  lemma ShortestTtlStep(s: State, op: Op, max: nat)
    requires Covered(s.permits) && forall id :: id in s.permits.scores ==> s.permits.scores[id] <= s.now + 1
    requires op.DoAcquire? || op.DoExtend? ==> op.ttl == 1
    ensures var t := Apply(s, op, max);
            Covered(t.permits) && forall id :: id in t.permits.scores ==> t.permits.scores[id] <= t.now + 1
  {
    match op
    case DoAcquire(id, _) =>
    case DoRelease(_) =>
    case DoExtend(_, _) =>
    case Advance(_) =>
  }

  /** With no ttl but 1 a permit can only be acquired again in its own millisecond. */
  lemma {:induction false} ShortestTtlCovered(start: int, ops: seq<Op>, max: nat, ttls: iset<int>)
    requires Drawn(ops, ttls) && forall a :: a in ttls ==> a == 1
    ensures var t := After(State(NONE, start), ops, max);
            Covered(t.permits) && forall id :: id in t.permits.scores ==> t.permits.scores[id] <= t.now + 1
  {
    if ops != [] {
      var k := |ops| - 1;
      ShortestTtlCovered(start, ops[..k], max, ttls);
      ShortestTtlStep(After(State(NONE, start), ops[..k], max), ops[k], max);
    }
  }

  function OnePermit(score: int, deadline: int, now: int): State {
    State(Permits(map[7 := score], deadline), now)
  }

  lemma AcquireAgain(score: int, deadline: int, now: int, ttl: int, max: nat)
    requires now < score && now <= deadline
    ensures Apply(OnePermit(score, deadline, now), DoAcquire(7, ttl), max) == OnePermit(now + ttl, deadline, now)
  {
    var p := OnePermit(score, deadline, now).permits;
    Quorum.SameMap(Purged(p, now).scores, map[7 := score]);
    assert p.scores[7 := now + ttl] == map[7 := now + ttl];
  }

  lemma AfterSnoc(s: State, ops: seq<Op>, op: Op, max: nat)
    ensures After(s, ops + [op], max) == Apply(After(s, ops, max), op, max)
  {
    assert (ops + [op])[..|ops|] == ops;
  }

  /** The holder waits for d and acquires again. */
  lemma WaitAndAcquire(ops: seq<Op>, ttls: iset<int>, max: nat, score: int, deadline: int, now: int, d: nat, a: int)
    returns (more: seq<Op>)
    requires Drawn(ops, ttls) && a in ttls && now + d < score && now + d <= deadline
    requires After(State(NONE, 0), ops, max) == OnePermit(score, deadline, now)
    ensures Drawn(more, ttls) && After(State(NONE, 0), more, max) == OnePermit(now + d + a, deadline, now + d)
  {
    var waited := ops + [Advance(d)];
    more := waited + [DoAcquire(7, a)];
    assert Drawn(more, ttls);
    hide After, Drawn, Acquire;
    AfterSnoc(State(NONE, 0), ops, Advance(d), max);
    AfterSnoc(State(NONE, 0), waited, DoAcquire(7, a), max);
    AcquireAgain(score, deadline, now + d, a, max);
  }

  lemma FirstPermit(a: int, ttls: iset<int>, max: nat)
    requires max > 0 && a in ttls
    ensures After(State(NONE, 0), [DoAcquire(7, a)], max) == OnePermit(a, 2 * a, 0) && Drawn([DoAcquire(7, a)], ttls)
  {
    var s0 := State(NONE, 0);
    assert After(s0, [], max) == s0 && [] + [DoAcquire(7, a)] == [DoAcquire(7, a)];
    AfterSnoc(s0, [], DoAcquire(7, a), max);
    hide After;
    assert Purged(NONE, 0).scores == map[];
  }

  /** One permit acquired three times more, as late as it takes to pass the first deadline. */
  lemma AcquiringAgainUncovers(max: nat, ttls: iset<int>, a: int)
    requires max > 0 && a in ttls && a >= 2
    ensures !EverCovered(max, ttls)
  {
    hide After, Drawn;
    var ops := [DoAcquire(7, a)];
    FirstPermit(a, ttls, max);
    ops := WaitAndAcquire(ops, ttls, max, a, 2 * a, 0, a - 1, a);
    ops := WaitAndAcquire(ops, ttls, max, 2 * a - 1, 2 * a, a - 1, 1, a);
    ops := WaitAndAcquire(ops, ttls, max, 2 * a, 2 * a, a, 1, a);
    assert 7 in After(State(NONE, 0), ops, max).permits.scores;
  }

  /** When identifiers may be acquired again while they are held, by the retries of one acquire
      whose cleanup is lost or by the caller's own choice, the key outlives its members after
      every run only where no permit is ever granted or none lasts longer than 1. */
  lemma EverCoveredIff(max: nat, ttls: iset<int>)
    requires forall a :: a in ttls ==> a > 0
    ensures EverCovered(max, ttls) <==> (max == 0 || forall a :: a in ttls ==> a == 1)
  {
    if max == 0 {
      forall start: int, ops: seq<Op> | Drawn(ops, ttls) ensures Covered(After(State(NONE, start), ops, max).permits) {
        CapacityKept(State(NONE, start), ops, max);
      }
    } else if forall a :: a in ttls ==> a == 1 {
      forall start: int, ops: seq<Op> | Drawn(ops, ttls) ensures Covered(After(State(NONE, start), ops, max).permits) {
        ShortestTtlCovered(start, ops, max, ttls);
      }
    } else {
      var a :| a in ttls && a != 1;
      AcquiringAgainUncovers(max, ttls, a);
    }
  }

  /** One granted acquire keeps the key covering its members exactly when it uses a fresh
      identifier and twice its ttl reaches every other score, or its new score fits under
      the deadline the key already has. */
  lemma AcquireCoversIff(p: Permits, now: int, id: Id, ttl: int, max: nat)
    requires ttl > 0 && Covered(p) && Acquire(p, now, id, ttl, max).1.granted
    ensures Covered(Acquire(p, now, id, ttl, max).0) <==>
              var q := Purged(p, now);
              if id in q.scores then now + ttl <= q.deadline
              else forall x :: x in q.scores ==> q.scores[x] <= now + ttl * 2
  {
    var q := Purged(p, now);
    var r := Acquire(p, now, id, ttl, max).0;
    assert r.scores[id] == now + ttl;
    if id !in q.scores {
      assert forall x :: x in q.scores ==> x in r.scores && r.scores[x] == q.scores[x];
    }
  }

  /** One granted extension keeps the key covering its members exactly when twice its ttl
      reaches every other score. */
  lemma ExtendCoversIff(p: Permits, now: int, id: Id, ttl: int)
    requires ttl > 0 && Covered(p) && Extend(p, now, id, ttl).1
    ensures Covered(Extend(p, now, id, ttl).0) <==>
              forall x :: x in Present(p, now).scores && x != id ==> Present(p, now).scores[x] <= now + ttl * 2
  {
    var q, r := Present(p, now).scores, Extend(p, now, id, ttl).0.scores;
    assert forall x :: x in q && x != id ==> x in r && r[x] == q[x];
  }

  /** A short extension of one permit takes the other one with it: two permits for 1000, one
      of them then extended by 10, and at 21 the other is gone. */
  lemma ShortExtensionLosesPermit()
    ensures var s := After(State(NONE, 0), [DoAcquire(1, 1000), DoAcquire(2, 1000), DoExtend(2, 10)], 2);
            && 1 in LiveAt(s) && s.permits.scores[1] == 1000 && s.now == 0
            && 1 !in LiveAt(Apply(s, Advance(21), 2))
  {
    var a, b, c := DoAcquire(1, 1000), DoAcquire(2, 1000), DoExtend(2, 10);
    var s0 := State(NONE, 0);
    assert [a, b, c][..2] == [a, b] && [a, b][..1] == [a] && [a][..0] == [];
    var s1 := Apply(s0, a, 2);
    var s2 := Apply(s1, b, 2);
    assert After(s0, [], 2) == s0;
    assert After(s0, [a], 2) == s1;
    assert After(s0, [a, b], 2) == s2;
    assert |Purged(NONE, 0).scores| == 0;
    assert s1.permits == Permits(map[1 := 1000], 2000);
    Quorum.SameMap(Purged(s1.permits, 0).scores, s1.permits.scores);
    assert 2 in s2.permits.scores && 1 in s2.permits.scores && s2.permits.scores[1] == 1000 && s2.now == 0;
  }

  /** Acquiring again under the same identifier twice, late in each ttl, is granted; yet
      the permit is gone 79 time units before its score. */
  lemma ReacquiredPermitIsLost()
    ensures var ops := [DoAcquire(7, 100), Advance(90), DoAcquire(7, 100), Advance(90), DoAcquire(7, 100)];
            var s := After(State(NONE, 0), ops, 1);
            && 7 in LiveAt(s) && s.permits.scores[7] == 280 && s.now == 180
            && 7 !in LiveAt(Apply(s, Advance(21), 1))
  {
    var a, b := DoAcquire(7, 100), Advance(90);
    var s0 := State(NONE, 0);
    assert [a, b, a, b, a][..4] == [a, b, a, b] && [a, b, a, b][..3] == [a, b, a];
    assert [a, b, a][..2] == [a, b] && [a, b][..1] == [a] && [a][..0] == [];
    var s1 := Apply(s0, a, 1);
    var s2 := Apply(s1, b, 1);
    var s3 := Apply(s2, a, 1);
    var s4 := Apply(s3, b, 1);
    assert After(s0, [], 1) == s0;
    assert After(s0, [a], 1) == s1;
    assert After(s0, [a, b], 1) == s2;
    assert After(s0, [a, b, a], 1) == s3;
    assert After(s0, [a, b, a, b], 1) == s4;
    assert |Purged(NONE, 0).scores| == 0;
    assert s1.now == 0 && s1.permits.deadline == 200 && 7 in s1.permits.scores && s1.permits.scores[7] == 100;
    assert s3.now == 90 && s3.permits.deadline == 200 && 7 in s3.permits.scores && s3.permits.scores[7] == 190;
  }

  // ---- What a command is worth ---------------------------------------------------------------

  /** An acquire is granted exactly when the identifier holds a live permit already or fewer
      than `max` others do; a permit past its score, or one whose key is gone, takes no place.
      The reply counts the live permits. */
  lemma AcquireGrantedIff(p: Permits, now: int, id: Id, ttl: int, max: nat)
    requires ttl > 0
    ensures var live := set x | x in p.scores && p.scores[x] > now && now <= p.deadline;
            var (q, reply) := Acquire(p, now, id, ttl, max);
            && (reply.granted <==> id in live || |live| < max)
            && (forall x :: x in q.scores <==> x in live || (reply.granted && x == id))
            && reply.count == |live + if reply.granted then {id} else {}|
  {
    var live := set x | x in p.scores && p.scores[x] > now && now <= p.deadline;
    Quorum.SameMembers(Purged(p, now).scores.Keys, live);
    if id in live {
      assert live + {id} == live;
    }
  }

  lemma UntouchedScoreStep(s: State, op: Op, max: nat, id: Id)
    requires !Touches(op, id)
    ensures var t := Apply(s, op, max);
            id in t.permits.scores ==> id in s.permits.scores && t.permits.scores[id] == s.permits.scores[id]
    ensures Apply(s, op, max).now >= s.now
  {
  }

  /** An untouched permit keeps its score or goes, and does not come back. */
  lemma {:induction false} UntouchedScore(s: State, ops: seq<Op>, max: nat, id: Id)
    requires forall i :: 0 <= i < |ops| ==> !Touches(ops[i], id)
    ensures var t := After(s, ops, max);
            id in t.permits.scores ==> id in s.permits.scores && t.permits.scores[id] == s.permits.scores[id]
    ensures After(s, ops, max).now >= s.now
  {
    if ops != [] {
      var last := |ops| - 1;
      UntouchedScore(s, ops[..last], max, id);
      UntouchedScoreStep(After(s, ops[..last], max), ops[last], max, id);
      hide Apply;
    }
  }

  lemma {:induction false} AfterConcat(s: State, a: seq<Op>, b: seq<Op>, max: nat)
    ensures After(s, a + b, max) == After(After(s, a, max), b, max)
  {
    hide Apply;
    if b == [] {
      assert a + b == a;
    } else {
      var front, op := b[..|b| - 1], b[|b| - 1];
      AfterConcat(s, a, front, max);
      AfterSnoc(s, a + front, op, max);
      AfterSnoc(After(s, a, max), front, op, max);
      assert a + front + [op] == a + b && front + [op] == b;
      hide After;
    }
  }

  /** The command was granted in state s. */
  predicate GrantedIn(s: State, op: Op, max: nat)
    ensures GrantedIn(s, op, max) ==> op.DoAcquire? || op.DoExtend?
  {
    match op
    case DoAcquire(id, ttl) => Acquire(s.permits, s.now, id, ttl, max).1.granted
    case DoExtend(id, ttl) => Extend(s.permits, s.now, id, ttl).1
    case _ => false
  }

  lemma GrantSetsScore(s: State, op: Op, max: nat)
    requires GrantedIn(s, op, max)
    ensures var t := Apply(s, op, max); op.id in t.permits.scores && t.permits.scores[op.id] == s.now + op.ttl
  {
  }

  lemma LiveHasScore(s: State, id: Id)
    ensures id in LiveAt(s) ==> id in s.permits.scores && s.permits.scores[id] > s.now
  {
  }

  /** A granted acquire or extension is worth exactly its ttl: in any run with fresh
      identifiers, and ttls under which the key outlives its members, the permit is live at
      every instant before T + ttl, where T is when the command came, and at none from then
      on, as long as nobody touches it again. */
  lemma PermitWorthItsTtl(start: int, before: seq<Op>, op: Op, more: seq<Op>, max: nat, ttls: iset<int>)
    requires (forall a :: a in ttls ==> a > 0) && (max <= 1 || WithinTwice(ttls))
    requires FreshRun(State(NONE, start), before + [op] + more, max, ttls)
    requires GrantedIn(After(State(NONE, start), before, max), op, max)
    requires forall i :: 0 <= i < |more| ==> !Touches(more[i], op.id)
    ensures var asked, t := After(State(NONE, start), before, max), After(State(NONE, start), before + [op] + more, max);
            op.id in LiveAt(t) <==> t.now < asked.now + op.ttl
  {
    hide Fresh, FreshRun, WithinTwice, After, Apply, GrantedIn, LiveAt;
    var s0 := State(NONE, start);
    var ops, k := before + [op] + more, |before| + 1;
    assert ops[..k] == before + [op];
    AfterSnoc(s0, before, op, max);
    GrantSetsScore(After(s0, before, max), op, max);
    AfterConcat(s0, before + [op], more, max);
    UntouchedScore(After(s0, ops[..k], max), more, max, op.id);
    var t, score := After(s0, ops, max), After(s0, ops[..k], max).permits.scores[op.id];
    if t.now < score {
      assert forall i :: k <= i < |ops| ==> ops[i] == more[i - k];
      PermitSurvives(start, ops, k, max, ttls, op.id);
    } else {
      LiveHasScore(t, op.id);
    }
  }

  /** A release takes exactly the permit it names, and says whether it was live. */
  lemma ReleaseTakesOne(p: Permits, now: int, id: Id)
    ensures var live := set x | x in p.scores && p.scores[x] > now && now <= p.deadline;
            var (q, reply) := Release(p, now, id);
            && (forall x :: x in q.scores <==> x in live && x != id)
            && (forall x :: x in q.scores ==> q.scores[x] == p.scores[x])
            && (reply.granted <==> id in live) && reply.count == |live - {id}|
  {
    var live := set x | x in p.scores && p.scores[x] > now && now <= p.deadline;
    var q := Release(p, now, id).0;
    Quorum.SameMembers(q.scores.Keys, live - {id});
  }
}
