/** Exactly when the protocol excludes: for any leases that acquires and extensions may ask for,
    on any number of nodes, over all runs. */
module RedlockExclusion {
  import opened Wrappers
  import opened Keyspace
  import opened Timing
  import opened RedlockProtocol
  import opened RedlockInvariant
  import opened RedlockSafety
  import Scripts = LockScripts
  import Quorum

  /** The leases that acquires and extensions may ask for, finitely many or not. */
  datatype Policy = Policy(acquires: iset<Lease>, extensions: iset<Lease>)

  ghost predicate Admissible(rate: real, p: Policy) {
    forall x :: x in p.acquires + p.extensions ==> x.ttl > 0 && x.drift >= Drift(rate, x.ttl)
  }

  lemma AdmissibleLease(rate: real, p: Policy, x: Lease)
    requires Admissible(rate, p) && (x in p.acquires || x in p.extensions)
    ensures x.ttl > 0 && x.drift >= Drift(rate, x.ttl)
  {
    assert x in p.acquires + p.extensions;
  }

  ghost predicate Asks(act: Action, p: Policy) {
    && (act.Attempt? ==> Lease(act.ttl, act.drift) in p.acquires)
    && (act.ExtendLock? ==> Lease(act.ttl, act.drift) in p.extensions)
  }

  /** Each call asks for any lease the policy allows it. */
  ghost predicate Uses(steps: seq<Step>, p: Policy) {
    forall i :: 0 <= i < |steps| && steps[i].Client? ==> Asks(steps[i].act, p)
  }

  /** Two clients hold the same resource. */
  ghost predicate Overlap(s: State) {
    exists a, b, k :: a != b && Holds(s, a) && Holds(s, b) && k in s.handles[a].keys && k in s.handles[b].keys
  }

  /** No run on n nodes ever overlaps. */
  ghost predicate Exclusive(rate: real, n: nat, p: Policy) {
    forall run: seq<State>, steps: seq<Step>, i: int ::
      IsRun(rate, run, steps) && Uses(steps, p) && |run[0].nodes| == n && 0 <= i < |run| ==> !Overlap(run[i])
  }

  /** Some acquire can be granted at all. */
  ghost predicate Grantable(p: Policy) {
    exists a :: a in p.acquires && Life(a) > 0
  }

  /** The ttl of x outlasts, even on the fastest clock, what a lease y promises. */
  predicate Outlasts(rate: real, x: Lease, y: Lease) {
    (1.0 + rate) * (Life(y) as real) <= x.ttl as real
  }

  /** Every extension outlasts whatever any call, acquire or extension, may have promised. */
  ghost predicate ExtensionsOutlast(rate: real, p: Policy) {
    forall e, x :: e in p.extensions && x in p.acquires + p.extensions ==> Outlasts(rate, e, x)
  }

  // Extensions that outlast everything never shorten.

  /** Some lease of the policy, asked for by now, promises as much. */
  ghost predicate Within(p: Policy, promised: int, ms: int) {
    exists x :: x in p.acquires + p.extensions && promised <= ms + Life(x)
  }

  ghost predicate PromisedWithin(s: State, p: Policy) {
    forall id :: id in s.handles ==> s.handles[id].phase.Idle? || Within(p, s.handles[id].promised, s.now.Floor)
  }

  lemma PromisedAct(rate: real, n: nat, ms: int, h: Handle, act: Action, p: Policy)
    requires CanAct(rate, n, ms, h, act) && Asks(act, p)
    requires h.phase.Idle? || Within(p, h.promised, ms)
    ensures var g := Act(rate, n, ms, h, act); g.phase.Idle? || Within(p, g.promised, ms)
  {
    hide Drift;
    if act.Attempt? || act.ExtendLock? {
      var x := Lease(act.ttl, act.drift);
      assert x in p.acquires + p.extensions;
      assert Within(p, ms + Life(x), ms);
    }
  }

  lemma WithinLater(p: Policy, promised: int, ms: int, later: int)
    requires Within(p, promised, ms) && ms <= later
    ensures Within(p, promised, later)
  {
    var x :| x in p.acquires + p.extensions && promised <= ms + Life(x);
    assert promised <= later + Life(x);
  }

  lemma PromisedStep(rate: real, s: State, step: Step, p: Policy)
    requires rate >= 0.0 && Enabled(rate, s, step) && (step.Client? ==> Asks(step.act, p)) && PromisedWithin(s, p)
    ensures PromisedWithin(Apply(rate, s, step), p)
  {
    hide Drift, Run, Within, CanAct, Act, Asks;
    match step
    case Start(_, _, _) =>
    case Client(id, act) => PromisedAct(rate, |s.nodes|, s.now.Floor, s.handles[id], act, p);
    case Execute(_, _, _) =>
    case Tick(d, _) =>
      forall id | id in s.handles && !s.handles[id].phase.Idle?
        ensures Within(p, s.handles[id].promised, (s.now + d).Floor)
      {
        WithinLater(p, s.handles[id].promised, s.now.Floor, (s.now + d).Floor);
      }
  }

  lemma {:induction false} RunPromises(rate: real, run: seq<State>, steps: seq<Step>, i: nat, p: Policy)
    requires IsRun(rate, run, steps) && Uses(steps, p) && i < |run|
    ensures PromisedWithin(run[i], p)
  {
    hide Enabled, Apply, Asks, Within;
    if i > 0 {
      RunPromises(rate, run, steps, i - 1, p);
      assert run[i - 1 + 1] == Apply(rate, run[i - 1], steps[i - 1]);
      PromisedStep(rate, run[i - 1], steps[i - 1], p);
    }
  }

  lemma PromisedIsReached(rate: real, p: Policy, promised: int, ms: int, e: Lease)
    requires rate >= 0.0 && ExtensionsOutlast(rate, p) && e in p.extensions && Within(p, promised, ms)
    ensures Reaches(rate, Extend(ms, e.ttl, e.drift), promised)
  {
    var x :| x in p.acquires + p.extensions && promised <= ms + Life(x);
    assert Outlasts(rate, e, x);
    Scale(1.0 + rate, (promised - ms) as real, Life(x) as real);
  }

  lemma OutlastingNeverShortens(rate: real, run: seq<State>, steps: seq<Step>, p: Policy)
    requires IsRun(rate, run, steps) && Uses(steps, p) && ExtensionsOutlast(rate, p)
    ensures NeverShortens(rate, run, steps)
  {
    hide Apply, Drift;
    forall i | 0 <= i < |steps| && i < |run| ensures !Shortens(rate, run[i], steps[i]) {
      var s, step := run[i], steps[i];
      if step.Client? && step.act.ExtendLock? && step.id in s.handles {
        RunPromises(rate, run, steps, i, p);
        assert Enabled(rate, s, step) && Asks(step.act, p);
        PromisedIsReached(rate, p, s.handles[step.id].promised, s.now.Floor, Lease(step.act.ttl, step.act.drift));
      }
    }
  }

  lemma NoOverlap(rate: real, run: seq<State>, steps: seq<Step>, i: nat)
    requires IsRun(rate, run, steps) && NeverShortens(rate, run, steps) && i < |run|
    ensures !Overlap(run[i])
  {
    var s := run[i];
    if a, b, k :| a != b && Holds(s, a) && Holds(s, b) && k in s.handles[a].keys && k in s.handles[b].keys {
      MutualExclusion(rate, run, steps, i, a, b, k);
    }
  }

  // Where no acquire promises anything, nobody ever holds.

  ghost predicate NothingPromised(s: State) {
    forall id :: id in s.handles ==>
      var h := s.handles[id];
      && !h.phase.Held? && !h.phase.Released?
      && forall q :: 0 <= q < |h.log| && h.log[q].Acquire? ==> h.log[q].ttl <= h.log[q].drift
  }

  lemma NothingPromisedStep(rate: real, s: State, step: Step, p: Policy)
    requires rate >= 0.0 && Enabled(rate, s, step) && (step.Client? ==> Asks(step.act, p)) && !Grantable(p)
    requires AllTidy(rate, s) && NothingPromised(s)
    ensures NothingPromised(Apply(rate, s, step))
  {
    hide Drift, Run, PhaseOk, SweptClean;
    if step.Client? {
      var h := s.handles[step.id];
      assert WellFormed(rate, |s.nodes|, s.now, h) by { assert Tidy(rate, s, step.id, h); }
      if step.act.Attempt? {
        assert Life(Lease(step.act.ttl, step.act.drift)) <= 0;
      }
    }
  }

  lemma {:induction false} RunPromisesNothing(rate: real, run: seq<State>, steps: seq<Step>, i: nat, p: Policy)
    requires IsRun(rate, run, steps) && Uses(steps, p) && !Grantable(p) && i < |run|
    ensures NothingPromised(run[i])
  {
    hide Enabled, Apply, Asks, Grantable;
    if i > 0 {
      RunPromisesNothing(rate, run, steps, i - 1, p);
      RunKeepsInv(rate, run, steps, i - 1);
      assert run[i - 1 + 1] == Apply(rate, run[i - 1], steps[i - 1]);
      NothingPromisedStep(rate, run[i - 1], steps[i - 1], p);
    }
  }

  // Without nodes nobody ever holds.

  lemma {:induction false} RunKeepsNodes(rate: real, run: seq<State>, steps: seq<Step>, i: nat)
    requires IsRun(rate, run, steps) && i < |run|
    ensures |run[i].nodes| == |run[0].nodes|
  {
    hide Act, Run, CanAct;
    if i > 0 {
      RunKeepsNodes(rate, run, steps, i - 1);
      assert run[i - 1 + 1] == Apply(rate, run[i - 1], steps[i - 1]);
    }
  }

  lemma NoNodesNoAcks(rate: real, now: real, h: Handle)
    requires WellFormed(rate, 0, now, h)
    ensures forall p :: 0 <= p < |h.log| ==> |h.acked[p]| == 0
  {
    forall p | 0 <= p < |h.log| ensures |h.acked[p]| == 0 {
      assert forall j :: j !in h.granted[p];
      Quorum.SameMembers(h.granted[p], {});
      Quorum.SubsetSize(h.acked[p], h.granted[p]);
    }
  }

  lemma NoNodesNoLock(rate: real, run: seq<State>, steps: seq<Step>, i: nat, id: string)
    requires IsRun(rate, run, steps) && i < |run| && |run[0].nodes| == 0
    ensures !Holds(run[i], id)
  {
    RunKeepsNodes(rate, run, steps, i);
    RunKeepsInv(rate, run, steps, i);
    var s := run[i];
    if id in s.handles {
      assert Tidy(rate, s, id, s.handles[id]);
      NoNodesNoAcks(rate, s.now, s.handles[id]);
    }
  }

  // A run that overlaps, where an extension does not outlast an earlier promise. It is played
  // on all n nodes alike.

  lemma RunOneKey(s: Store, now: int, h: Handle, id: string, c: Command)
    requires h.keys == ["k"] && h.flavour.ToolkitLock? && !c.Release? && c.ttl > 0
    ensures c.Acquire? && !Scripts.HeldByOther(s, now, "k", id) ==>
              Run(s, now, h, id, c) == (s["k" := Entry(Text(id), now + c.ttl)], true)
    ensures c.Extend? && Scripts.Owns(s, now, "k", id) && "k:data" !in s ==>
              Run(s, now, h, id, c) == (s["k" := Entry(Text(id), now + c.ttl)], true)
  {
    var keys := ["k"];
    assert "k" in keys && keys[..0] == [] && "k" + DATA == "k:data";
    assert Scripts.LockKeys(s, [], id, now + c.ttl, "") == s;
    assert Scripts.ExtendKeys(s, now, [], id, now + c.ttl) == s;
    assert forall k :: k in keys ==> k == "k";
  }

  /** k times x, then y up to n. */
  function Mixed<T>(n: nat, k: nat, x: T, y: T): (r: seq<T>)
    ensures |r| == n && forall j :: 0 <= j < n ==> r[j] == if j < k then x else y
  {
    seq(n, j => if j < k then x else y)
  }

  function All<T>(n: nat, x: T): (r: seq<T>)
    ensures |r| == n && forall j :: 0 <= j < n ==> r[j] == x
  {
    seq(n, _ => x)
  }

  lemma MixedStep<T>(n: nat, k: nat, x: T, y: T)
    requires k < n
    ensures Mixed(n, k, x, y)[k := x] == Mixed(n, k + 1, x, y)
    ensures Mixed(n, 0, x, y) == All(n, y) && Mixed(n, n, x, y) == All(n, x)
  {
  }

  ghost predicate Playing(rate: real, run: seq<State>, steps: seq<Step>, n: nat, p: Policy, s: State) {
    IsRun(rate, run, steps) && Uses(steps, p) && |run[0].nodes| == n && run[|run| - 1] == s
  }

  lemma Play(rate: real, run: seq<State>, steps: seq<Step>, n: nat, p: Policy, s: State, step: Step)
    returns (r: seq<State>, u: seq<Step>)
    requires Playing(rate, run, steps, n, p, s) && Enabled(rate, s, step) && (step.Client? ==> Asks(step.act, p))
    ensures Playing(rate, r, u, n, p, Apply(rate, s, step))
  {
    hide Enabled, Apply, Asks;
    r, u := run + [Apply(rate, s, step)], steps + [step];
  }

  lemma PlayAct(rate: real, run: seq<State>, steps: seq<Step>, n: nat, p: Policy, s: State, id: string, act: Action)
    returns (r: seq<State>, u: seq<Step>)
    requires Playing(rate, run, steps, n, p, s) && id in s.handles && Asks(act, p)
    requires CanAct(rate, |s.nodes|, s.now.Floor, s.handles[id], act)
    ensures Playing(rate, r, u, n, p,
                    s.(handles := s.handles[id := Act(rate, |s.nodes|, s.now.Floor, s.handles[id], act)]))
  {
    hide Playing, CanAct, Act, Asks;
    r, u := Play(rate, run, steps, n, p, s, Client(id, act));
  }

  lemma TickAll(rate: real, run: seq<State>, steps: seq<Step>, n: nat, p: Policy, s: State, node: Node, d: real,
                advance: real)
    returns (r: seq<State>, u: seq<Step>)
    requires Playing(rate, run, steps, n, p, s) && s.nodes == All(n, node)
    requires d > 0.0 && 0.0 <= advance <= (1.0 + rate) * d
    ensures Playing(rate, r, u, n, p, State(s.now + d, All(n, node.(clock := node.clock + advance)), s.handles))
  {
    hide Playing;
    assert Ticked(s.nodes, All(n, advance)) == All(n, node.(clock := node.clock + advance));
    r, u := Play(rate, run, steps, n, p, s, Tick(d, All(n, advance)));
  }

  /** The node after a granted command for "k". */
  function Took(node: Node, id: string, ttl: int): Node {
    node.(store := node.store["k" := Entry(Text(id), node.clock.Floor + ttl)])
  }

  /** Command c is the next one for every node, and every node will grant it. */
  ghost predicate NextForAll(n: nat, node: Node, id: string, h: Handle, c: nat) {
    && h.keys == ["k"] && h.flavour.ToolkitLock? && Lined(h) && c < |h.log| && h.next == All<nat>(n, c) && h.granted[c] == {}
    && !h.log[c].Release? && h.log[c].ttl > 0
    && (h.log[c].Acquire? ==> !Scripts.HeldByOther(node.store, node.clock.Floor, "k", id))
    && (h.log[c].Extend? ==> Scripts.Owns(node.store, node.clock.Floor, "k", id) && "k:data" !in node.store)
  }

  /** The first k nodes have executed it. */
  function Executed(h: Handle, n: nat, k: nat, c: nat): Handle
    requires Lined(h) && c < |h.log|
  {
    h.(next := Mixed<nat>(n, k, c + 1, c), granted := h.granted[c := Quorum.Nodes(k)])
  }

  lemma ExecutedStep(h: Handle, n: nat, k: nat, c: nat)
    requires Lined(h) && c < |h.log| && k < n
    ensures var g := Executed(h, n, k, c); g.next[k] == c && Advance(g, k, true) == Executed(h, n, k + 1, c)
  {
    MixedStep<nat>(n, k, c + 1, c);
    assert Quorum.Nodes(k) + {k} == Quorum.Nodes(k + 1);
  }

  lemma ExecutedNone(h: Handle, n: nat, c: nat)
    requires Lined(h) && c < |h.log| && h.next == All<nat>(n, c) && h.granted[c] == {}
    ensures Executed(h, n, 0, c) == h
  {
    assert Mixed<nat>(n, 0, c + 1, c) == All<nat>(n, c);
    assert h.granted[c := {}] == h.granted;
  }

  lemma MixedNone<T>(n: nat, x: T, y: T)
    ensures Mixed(n, 0, x, y) == All(n, y)
  {
  }

  lemma ExecuteAt(rate: real, run: seq<State>, steps: seq<Step>, n: nat, p: Policy, s: State, node: Node, id: string,
                  h: Handle, c: nat, k: nat)
    returns (r: seq<State>, u: seq<Step>)
    requires Playing(rate, run, steps, n, p, s) && k < n == |s.nodes| && s.nodes[k] == node && NextForAll(n, node, id, h, c)
    requires id in s.handles && s.handles[id] == Executed(h, n, k, c)
    ensures Playing(rate, r, u, n, p, State(s.now, s.nodes[k := Took(node, id, h.log[c].ttl)],
                                            s.handles[id := Executed(h, n, k + 1, c)]))
  {
    hide Playing, Run;
    var g := s.handles[id];
    ExecutedStep(h, n, k, c);
    RunOneKey(node.store, node.clock.Floor, g, id, h.log[c]);
    r, u := Play(rate, run, steps, n, p, s, Execute(id, k, true));
  }

  lemma UpdateTwice(m: map<string, Handle>, id: string, x: Handle, y: Handle)
    ensures m[id := x][id := y] == m[id := y]
    ensures id in m && m[id] == x ==> m[id := x] == m
  {
  }

  lemma IsNext(n: nat, node: Node, id: string, h: Handle, c: nat)
    requires NextForAll(n, node, id, h, c)
    ensures Lined(h) && c < |h.log| && h.next == All<nat>(n, c) && h.granted[c] == {} && !h.log[c].Release?
  {
  }

  lemma {:induction false} ExecuteUpTo(rate: real, run: seq<State>, steps: seq<Step>, n: nat, p: Policy, s: State,
                                       node: Node, id: string, h: Handle, c: nat, k: nat)
    returns (r: seq<State>, u: seq<Step>)
    requires Playing(rate, run, steps, n, p, s) && s.nodes == All(n, node) && k <= n
    requires id in s.handles && s.handles[id] == h && NextForAll(n, node, id, h, c)
    ensures Playing(rate, r, u, n, p, State(s.now, Mixed(n, k, Took(node, id, h.log[c].ttl), node),
                                            s.handles[id := Executed(h, n, k, c)]))
  {
    IsNext(n, node, id, h, c);
    hide *;
    var done := Took(node, id, h.log[c].ttl);
    if k == 0 {
      ExecutedNone(h, n, c);
      MixedNone(n, done, node);
      UpdateTwice(s.handles, id, h, h);
      r, u := run, steps;
    } else {
      r, u := ExecuteUpTo(rate, run, steps, n, p, s, node, id, h, c, k - 1);
      var t := State(s.now, Mixed(n, k - 1, done, node), s.handles[id := Executed(h, n, k - 1, c)]);
      r, u := ExecuteAt(rate, r, u, n, p, t, node, id, h, c, k - 1);
      MixedStep(n, k - 1, done, node);
      UpdateTwice(s.handles, id, Executed(h, n, k - 1, c), Executed(h, n, k, c));
    }
  }

  /** Every node executes the next command of a client of "k", and grants it. */
  lemma ExecuteAll(rate: real, run: seq<State>, steps: seq<Step>, n: nat, p: Policy, s: State, node: Node, id: string,
                   c: nat)
    returns (r: seq<State>, u: seq<Step>)
    requires Playing(rate, run, steps, n, p, s) && s.nodes == All(n, node) && id in s.handles && n > 0
    requires NextForAll(n, node, id, s.handles[id], c)
    ensures var h := s.handles[id];
            Playing(rate, r, u, n, p,
                    State(s.now, All(n, Took(node, id, h.log[c].ttl)),
                          s.handles[id := h.(next := All<nat>(n, c + 1), granted := h.granted[c := Quorum.Nodes(n)])]))
  {
    hide Playing;
    r, u := ExecuteUpTo(rate, run, steps, n, p, s, node, id, s.handles[id], c, n);
    MixedStep(n, 0, Took(node, id, s.handles[id].log[c].ttl), node);
    MixedStep<nat>(n, 0, c + 1, c);
  }

  /** The first k nodes' success with command q is learned. */
  function Learned(h: Handle, q: nat, k: nat): Handle
    requires Lined(h) && q < |h.log|
  {
    h.(acked := h.acked[q := Quorum.Nodes(k)])
  }

  lemma LearnedStep(rate: real, n: nat, ms: int, h: Handle, q: nat, k: nat)
    requires Lined(h) && q < |h.log| && h.granted[q] == Quorum.Nodes(n) && k < n
    ensures var g := Learned(h, q, k);
            CanAct(rate, n, ms, g, Ack(q, k)) && Act(rate, n, ms, g, Ack(q, k)) == Learned(h, q, k + 1)
  {
    assert Quorum.Nodes(k) + {k} == Quorum.Nodes(k + 1);
  }

  lemma LearnedNone(h: Handle, q: nat)
    requires Lined(h) && q < |h.log| && h.acked[q] == {}
    ensures Learned(h, q, 0) == h
  {
    assert h.acked[q := {}] == h.acked;
  }

  lemma AcksAreFree(q: nat, k: int, p: Policy)
    ensures Asks(Ack(q, k), p)
  {
  }

  lemma AckAt(rate: real, run: seq<State>, steps: seq<Step>, n: nat, p: Policy, s: State, id: string, h: Handle,
              q: nat, k: nat)
    returns (r: seq<State>, u: seq<Step>)
    requires Playing(rate, run, steps, n, p, s) && |s.nodes| == n && k < n
    requires Lined(h) && q < |h.log| && h.granted[q] == Quorum.Nodes(n)
    requires id in s.handles && s.handles[id] == Learned(h, q, k)
    ensures Playing(rate, r, u, n, p, s.(handles := s.handles[id := Learned(h, q, k + 1)]))
  {
    LearnedStep(rate, n, s.now.Floor, h, q, k);
    hide *;
    AcksAreFree(q, k, p);
    r, u := PlayAct(rate, run, steps, n, p, s, id, Ack(q, k));
  }

  /** Every node's success is learned. */
  lemma {:induction false} AckUpTo(rate: real, run: seq<State>, steps: seq<Step>, n: nat, p: Policy, s: State, id: string,
                                   h: Handle, q: nat, k: nat)
    returns (r: seq<State>, u: seq<Step>)
    requires Playing(rate, run, steps, n, p, s) && |s.nodes| == n && k <= n
    requires id in s.handles && s.handles[id] == h
    requires Lined(h) && q < |h.log| && h.granted[q] == Quorum.Nodes(n) && h.acked[q] == {}
    ensures Playing(rate, r, u, n, p, s.(handles := s.handles[id := Learned(h, q, k)]))
  {
    hide Playing, Learned, Quorum.Nodes;
    if k == 0 {
      LearnedNone(h, q);
      UpdateTwice(s.handles, id, h, h);
      r, u := run, steps;
    } else {
      r, u := AckUpTo(rate, run, steps, n, p, s, id, h, q, k - 1);
      var t := s.(handles := s.handles[id := Learned(h, q, k - 1)]);
      r, u := AckAt(rate, r, u, n, p, t, id, h, q, k - 1);
      UpdateTwice(s.handles, id, Learned(h, q, k - 1), Learned(h, q, k));
    }
  }

  function IdleOn(n: nat): Handle {
    Handle(["k"], ToolkitLock, [], All<nat>(n, 0), [], [], Idle, 0, 0)
  }

  /** The handle of a client that has acquired "k" on all nodes. */
  function Acquired(n: nat, ms: int, lease: Lease): Handle {
    Handle(["k"], ToolkitLock, [Acquire(ms, lease.ttl, lease.drift)], All<nat>(n, 1), [Quorum.Nodes(n)], [Quorum.Nodes(n)],
           Held(ms + Life(lease), 0), 0, ms + Life(lease))
  }

  /** The handle of a client that has sent its acquire to all nodes. */
  function Sent(n: nat, ms: int, lease: Lease): Handle {
    Handle(["k"], ToolkitLock, [Acquire(ms, lease.ttl, lease.drift)], All<nat>(n, 0), [{}], [{}],
           Acquiring, 0, ms + Life(lease))
  }

  lemma SendsFirst(rate: real, n: nat, ms: int, lease: Lease)
    requires lease.ttl > 0 && lease.drift >= Drift(rate, lease.ttl)
    ensures CanAct(rate, n, ms, IdleOn(n), Attempt(lease.ttl, lease.drift))
    ensures Act(rate, n, ms, IdleOn(n), Attempt(lease.ttl, lease.drift)) == Sent(n, ms, lease)
  {
    assert Issue(IdleOn(n), Acquire(ms, lease.ttl, lease.drift)).log == [Acquire(ms, lease.ttl, lease.drift)];
  }

  lemma WinsFirst(rate: real, n: nat, ms: int, lease: Lease, h: Handle)
    requires n > 0 && Life(lease) > 0
    requires h == Sent(n, ms, lease).(next := All<nat>(n, 1), granted := [Quorum.Nodes(n)], acked := [Quorum.Nodes(n)])
    ensures CanAct(rate, n, ms, h, Win) && Act(rate, n, ms, h, Win) == Acquired(n, ms, lease)
  {
    hide All;
    assert |h.acked[0]| == n >= Quorum.Size(n);
  }

  /** From a state where id is idle and its key is free on all nodes: id acquires. */
  lemma AcquireAll(rate: real, run: seq<State>, steps: seq<Step>, n: nat, p: Policy, s: State, node: Node, id: string,
                   lease: Lease)
    returns (r: seq<State>, u: seq<Step>)
    requires Playing(rate, run, steps, n, p, s) && Admissible(rate, p) && lease in p.acquires && Life(lease) > 0
    requires s.nodes == All(n, node) && n > 0 && id in s.handles && s.handles[id] == IdleOn(n)
    requires !Scripts.HeldByOther(node.store, node.clock.Floor, "k", id)
    ensures Playing(rate, r, u, n, p, State(s.now, All(n, Took(node, id, lease.ttl)),
                                            s.handles[id := Acquired(n, s.now.Floor, lease)]))
  {
    hide Playing, Drift, Admissible, CanAct, Act;
    AdmissibleLease(rate, p, lease);
    var ms, h := s.now.Floor, Sent(n, s.now.Floor, lease);
    SendsFirst(rate, n, ms, lease);
    r, u := PlayAct(rate, run, steps, n, p, s, id, Attempt(lease.ttl, lease.drift));
    var s1 := State(s.now, s.nodes, s.handles[id := h]);
    r, u := ExecuteAll(rate, r, u, n, p, s1, node, id, 0);
    var h2 := h.(next := All<nat>(n, 1), granted := [Quorum.Nodes(n)]);
    assert h.granted[0 := Quorum.Nodes(n)] == [Quorum.Nodes(n)];
    var s2 := State(s.now, All(n, Took(node, id, lease.ttl)), s.handles[id := h2]);
    assert s1.handles[id := h2] == s2.handles;
    r, u := AckUpTo(rate, r, u, n, p, s2, id, h2, 0, n);
    var h3 := h2.(acked := [Quorum.Nodes(n)]);
    assert h2.acked[0 := Quorum.Nodes(n)] == [Quorum.Nodes(n)];
    var s3 := State(s.now, s2.nodes, s.handles[id := h3]);
    assert s2.handles[id := h3] == s3.handles;
    WinsFirst(rate, n, ms, lease, h3);
    r, u := PlayAct(rate, r, u, n, p, s3, id, Win);
    assert s3.handles[id := Acquired(n, ms, lease)] == s.handles[id := Acquired(n, ms, lease)];
  }

  function Keeping(clock: real, ttl: int): Node {
    Node(map["k" := Entry(Text("a"), ttl)], clock)
  }

  /** At time 0 "a" holds "k" until `claim`, every node keeps it for `ttl`, and "b" idles. */
  function HeldByA(n: nat, clock: real, ttl: int, h: Handle): State {
    State(0.0, All(n, Keeping(clock, ttl)), map["a" := h, "b" := IdleOn(n)])
  }

  ghost predicate UpToDate(n: nat, h: Handle, claim: int) {
    && h.keys == ["k"] && h.flavour.ToolkitLock? && Lined(h) && h.next == All<nat>(n, |h.log|)
    && h.phase.Held? && h.phase.claim == claim && h.session == 0 && |h.log| > 0
  }

  lemma TwoClients(rate: real, n: nat, p: Policy, clock: real) returns (run: seq<State>, steps: seq<Step>)
    requires rate >= 0.0
    ensures Playing(rate, run, steps, n, p,
                    State(0.0, All(n, Node(map[], clock)), map["a" := IdleOn(n), "b" := IdleOn(n)]))
  {
    var s0 := State(0.0, All(n, Node(map[], clock)), map[]);
    assert Playing(rate, [s0], [], n, p, s0);
    hide Playing;
    assert !EndsWith("k", DATA) && !EndsWith("k", VERSION) && !EndsWith("k", VALUE);
    assert seq(n, _ => 0) == All<nat>(n, 0);
    run, steps := Play(rate, [s0], [], n, p, s0, Start("a", ["k"], ToolkitLock));
    var s1 := State(0.0, s0.nodes, map["a" := IdleOn(n)]);
    run, steps := Play(rate, run, steps, n, p, s1, Start("b", ["k"], ToolkitLock));
    assert s1.handles["b" := IdleOn(n)] == map["a" := IdleOn(n), "b" := IdleOn(n)];
  }

  lemma AcquiresFirst(rate: real, n: nat, p: Policy, clock: real, lease: Lease)
    returns (run: seq<State>, steps: seq<Step>, h: Handle)
    requires rate >= 0.0 && Admissible(rate, p) && lease in p.acquires && Life(lease) > 0 && 0.0 <= clock < 1.0 && n > 0
    ensures Playing(rate, run, steps, n, p, HeldByA(n, clock, lease.ttl, h)) && UpToDate(n, h, Life(lease))
  {
    hide Playing, Drift, Admissible, All;
    assert clock.Floor == 0;
    run, steps := TwoClients(rate, n, p, clock);
    var node := Node(map[], clock);
    var s := State(0.0, All(n, node), map["a" := IdleOn(n), "b" := IdleOn(n)]);
    run, steps := AcquireAll(rate, run, steps, n, p, s, node, "a", lease);
    h := Acquired(n, 0, lease);
    assert s.handles["a" := h] == HeldByA(n, clock, lease.ttl, h).handles;
    assert Took(node, "a", lease.ttl) == Keeping(clock, lease.ttl);
  }

  /** The handle after asking for an extension at time 0. */
  function Asked(h: Handle, lease: Lease): Handle {
    Issue(h, Extend(0, lease.ttl, lease.drift)).(promised := Max(h.promised, Life(lease)))
  }

  lemma AsksToExtend(rate: real, n: nat, h: Handle, claim: int, lease: Lease)
    requires UpToDate(n, h, claim) && claim > 0 && lease.ttl > 0 && lease.drift >= Drift(rate, lease.ttl)
    ensures CanAct(rate, n, 0, h, ExtendLock(lease.ttl, lease.drift))
    ensures Act(rate, n, 0, h, ExtendLock(lease.ttl, lease.drift)) == Asked(h, lease)
  {
  }

  /** "a" asks for an extension; all nodes grant it, and their answers are not there yet. */
  lemma ExtendsAll(rate: real, run: seq<State>, steps: seq<Step>, n: nat, p: Policy, clock: real, ttl: int, h: Handle,
                   claim: int, lease: Lease)
    returns (r: seq<State>, u: seq<Step>, g: Handle)
    requires rate >= 0.0 && Admissible(rate, p) && lease in p.extensions && 0.0 <= clock < 1.0 && ttl > 0 && claim > 0
    requires n > 0 && Playing(rate, run, steps, n, p, HeldByA(n, clock, ttl, h)) && UpToDate(n, h, claim)
    ensures Playing(rate, r, u, n, p, HeldByA(n, clock, lease.ttl, g)) && UpToDate(n, g, claim)
    ensures g.log == h.log + [Extend(0, lease.ttl, lease.drift)]
    ensures g.granted[|h.log|] == Quorum.Nodes(n) && g.acked[|h.log|] == {}
  {
    hide Playing, Drift, Admissible, All;
    AdmissibleLease(rate, p, lease);
    assert clock.Floor == 0;
    var s, node := HeldByA(n, clock, ttl, h), Keeping(clock, ttl);
    var h1 := Asked(h, lease);
    AsksToExtend(rate, n, h, claim, lease);
    hide CanAct, Act;
    r, u := PlayAct(rate, run, steps, n, p, s, "a", ExtendLock(lease.ttl, lease.drift));
    var s1 := s.(handles := s.handles["a" := h1]);
    r, u := ExecuteAll(rate, r, u, n, p, s1, node, "a", |h.log|);
    g := h1.(next := All<nat>(n, |h.log| + 1), granted := h1.granted[|h.log| := Quorum.Nodes(n)]);
    assert s1.handles["a" := g] == map["a" := g, "b" := IdleOn(n)];
    assert Took(node, "a", lease.ttl) == Keeping(clock, lease.ttl) by {
      assert node.store["k" := Entry(Text("a"), lease.ttl)] == map["k" := Entry(Text("a"), lease.ttl)];
    }
  }

  lemma ExtendedMoves(rate: real, n: nat, h: Handle, q: nat, lease: Lease, claim: int)
    requires Lined(h) && 0 < q < |h.log| && h.log[q] == Extend(0, lease.ttl, lease.drift) && h.flavour.ToolkitLock?
    requires h.phase.Held? && h.phase.claim == claim < Life(lease) && h.session == 0 && |h.acked[q]| >= Quorum.Size(n)
    ensures CanAct(rate, n, 0, h, Extended(q))
    ensures Act(rate, n, 0, h, Extended(q)) == h.(phase := Held(Life(lease), q))
  {
  }

  lemma HeldByAShape(n: nat, clock: real, ttl: int, h: Handle, g: Handle)
    ensures var s := HeldByA(n, clock, ttl, h);
            && s.now == 0.0 && |s.nodes| == n && "a" in s.handles && s.handles["a"] == h
            && s.(handles := s.handles["a" := g]) == HeldByA(n, clock, ttl, g)
  {
    assert HeldByA(n, clock, ttl, h).handles["a" := g] == HeldByA(n, clock, ttl, g).handles;
  }

  /** The answers arrive, and move the claim later. */
  lemma LearnsAll(rate: real, run: seq<State>, steps: seq<Step>, n: nat, p: Policy, clock: real, h: Handle, claim: int,
                  lease: Lease)
    returns (r: seq<State>, u: seq<Step>, g: Handle)
    requires n > 0 && Playing(rate, run, steps, n, p, HeldByA(n, clock, lease.ttl, h)) && UpToDate(n, h, claim)
    requires claim < Life(lease)
    requires var q := |h.log| - 1;
             q > 0 && h.log[q] == Extend(0, lease.ttl, lease.drift) && h.granted[q] == Quorum.Nodes(n) && h.acked[q] == {}
    ensures Playing(rate, r, u, n, p, HeldByA(n, clock, lease.ttl, g)) && UpToDate(n, g, Life(lease))
  {
    hide Playing, All, HeldByA;
    var q, s := |h.log| - 1, HeldByA(n, clock, lease.ttl, h);
    HeldByAShape(n, clock, lease.ttl, h, Learned(h, q, n));
    r, u := AckUpTo(rate, run, steps, n, p, s, "a", h, q, n);
    var h1 := Learned(h, q, n);
    var s1 := HeldByA(n, clock, lease.ttl, h1);
    assert |h1.acked[q]| == n >= Quorum.Size(n);
    g := h1.(phase := Held(Life(lease), q));
    ExtendedMoves(rate, n, h1, q, lease, claim);
    HeldByAShape(n, clock, lease.ttl, h1, g);
    hide CanAct, Act;
    r, u := PlayAct(rate, r, u, n, p, s1, "a", Extended(q));
  }

  lemma AtLeastOne(n: nat, h: Handle, claim: int)
    requires UpToDate(n, h, claim)
    ensures |h.log| > 0
  {
  }

  /** "a" comes to hold "k" for as long as x promises: by an acquire, or by an extension whose
      answers arrive. */
  lemma HoldsFor(rate: real, n: nat, p: Policy, clock: real, a: Lease, x: Lease)
    returns (run: seq<State>, steps: seq<Step>, h: Handle)
    requires rate >= 0.0 && Admissible(rate, p) && 0.0 <= clock < 1.0 && n > 0
    requires a in p.acquires && Life(a) > 0 && (x == a || (x in p.extensions && Life(x) > Life(a)))
    ensures Playing(rate, run, steps, n, p, HeldByA(n, clock, x.ttl, h)) && UpToDate(n, h, Life(x))
  {
    hide Playing, Admissible, Drift, UpToDate;
    AdmissibleLease(rate, p, a);
    run, steps, h := AcquiresFirst(rate, n, p, clock, a);
    if x != a {
      var log := h.log;
      AtLeastOne(n, h, Life(a));
      run, steps, h := ExtendsAll(rate, run, steps, n, p, clock, a.ttl, h, Life(a), x);
      assert |h.log| - 1 == |log|;
      run, steps, h := LearnsAll(rate, run, steps, n, p, clock, h, Life(a), x);
    }
  }

  /** A time before the lock expires at which a fast enough clock has passed ttl. */
  lemma EarlyLapse(rate: real, claim: int, ttl: int) returns (d: real, clock: real)
    requires rate >= 0.0 && ttl > 0 && (1.0 + rate) * (claim as real) > ttl as real
    ensures 0.0 < d < claim as real && 0.0 <= clock < 1.0
    ensures clock + (1.0 + rate) * d >= (ttl + 1) as real
  {
    var r := 1.0 + rate;
    var lapse := ttl as real / r;
    assert r * lapse == ttl as real;
    if lapse >= claim as real { Scale(r, claim as real, lapse); }
    d := (lapse + claim as real) / 2.0;
    var excess := r * (d - lapse);
    assert excess > 0.0;
    assert r * d == ttl as real + excess;
    clock := if excess >= 1.0 then 0.0 else 1.0 - excess;
  }

  /** After an extension e whose answers are lost the key lapses before the lock does, and "b"
      takes it. */
  lemma LapseOverlaps(rate: real, n: nat, p: Policy, a: Lease, x: Lease, e: Lease)
    requires rate >= 0.0 && Admissible(rate, p) && e in p.extensions && !Outlasts(rate, e, x) && n > 0
    requires a in p.acquires && Life(a) > 0 && (x == a || (x in p.extensions && Life(x) > Life(a)))
    ensures !Exclusive(rate, n, p)
  {
    hide Drift, Admissible, All;
    AdmissibleLease(rate, p, e);
    AdmissibleLease(rate, p, x);
    var d, clock := EarlyLapse(rate, Life(x), e.ttl);
    var run, steps, h := HoldsFor(rate, n, p, clock, a, x);
    run, steps, h := ExtendsAll(rate, run, steps, n, p, clock, x.ttl, h, Life(x), e);
    var s, node := HeldByA(n, clock, e.ttl, h), Keeping(clock, e.ttl);
    var advance := (1.0 + rate) * d;
    var later := node.(clock := clock + advance);
    var t := State(d, All(n, later), s.handles);
    run, steps := TickAll(rate, run, steps, n, p, s, node, d, advance);
    run, steps := AcquireAll(rate, run, steps, n, p, t, later, "b", a);
    var u := run[|run| - 1];
    assert Holds(u, "a") && Holds(u, "b") && "k" in u.handles["a"].keys && "k" in u.handles["b"].keys;
    assert Overlap(run[|run| - 1]);
  }

  /** Where an extension e does not outlast some lease x in use, and an acquire a can be granted
      at all, two clients can hold one key. */
  lemma ShortExtensionOverlaps(rate: real, n: nat, p: Policy, a: Lease, x: Lease, e: Lease)
    requires rate >= 0.0 && Admissible(rate, p) && n > 0
    requires a in p.acquires && Life(a) > 0 && e in p.extensions && (x in p.acquires || x in p.extensions)
    requires !Outlasts(rate, e, x)
    ensures !Exclusive(rate, n, p)
  {
    hide Exclusive, Admissible;
    AdmissibleLease(rate, p, e);
    if Life(x) <= Life(a) {
      Scale(1.0 + rate, Life(x) as real, Life(a) as real);
      LapseOverlaps(rate, n, p, a, a, e);
    } else if x in p.acquires {
      LapseOverlaps(rate, n, p, x, x, e);
    } else {
      LapseOverlaps(rate, n, p, a, x, e);
    }
  }

  /** On any number n > 0 of nodes, and whatever leases acquires and extensions draw from,
      mutual exclusion holds over all runs exactly when no acquire can be granted at all, or
      the ttl of every extension, measured on the fastest clock, is at least the validity that
      any acquire or extension promises. The code accepts any extension. */
  lemma ExclusiveIff(rate: real, n: nat, p: Policy)
    requires rate >= 0.0 && Admissible(rate, p)
    ensures Exclusive(rate, n, p) <==> (n > 0 && Grantable(p) ==> ExtensionsOutlast(rate, p))
  {
    if n > 0 && Grantable(p) && !ExtensionsOutlast(rate, p) {
      var a :| a in p.acquires && Life(a) > 0;
      var e, x :| e in p.extensions && x in p.acquires + p.extensions && !Outlasts(rate, e, x);
      ShortExtensionOverlaps(rate, n, p, a, x, e);
    } else {
      forall run: seq<State>, steps: seq<Step>, i: int
        | IsRun(rate, run, steps) && Uses(steps, p) && |run[0].nodes| == n && 0 <= i < |run|
        ensures !Overlap(run[i])
      {
        if !Grantable(p) {
          RunPromisesNothing(rate, run, steps, i, p);
        } else if n == 0 {
          forall id ensures !Holds(run[i], id) {
            NoNodesNoLock(rate, run, steps, i, id);
          }
        } else {
          OutlastingNeverShortens(rate, run, steps, p);
          NoOverlap(rate, run, steps, i);
        }
      }
    }
  }
}
