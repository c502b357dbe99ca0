/** Safety of the protocol over whole runs: mutual exclusion, and what a release leaves. */
module RedlockSafety {
  import opened Wrappers
  import opened Keyspace
  import opened Timing
  import opened RedlockProtocol
  import opened RedlockInvariant
  import Scripts = LockScripts
  import Quorum

  // ---- Mutual exclusion from the invariant --------------------------------------------

  /** A client that holds its lock has a quorum of nodes that back it. */
  lemma HeldIsBacked(rate: real, s: State, id: string) returns (nodes: set<int>)
    requires Inv(rate, s) && Holds(s, id) && rate >= 0.0
    ensures nodes <= Quorum.Nodes(|s.nodes|) && |nodes| >= Quorum.Size(|s.nodes|)
    ensures forall j :: j in nodes ==>
              Backs(rate, s.now, s.nodes[j], s.handles[id].keys, id, s.handles[id].phase.claim)
  {
    var h := s.handles[id];
    var b := h.phase.basis;
    nodes := h.acked[b];
    assert Tidy(rate, s, id, h) && Backed(rate, s, id, h);
    forall j | j in nodes
      ensures 0 <= j < |s.nodes|
      ensures Backs(rate, s.now, s.nodes[j], h.keys, id, h.phase.claim)
    {
      assert WellFormed(rate, |s.nodes|, s.now, h);
      assert h.acked[b] <= h.granted[b];
      assert j in h.granted[b];
      assert NoRelease(h.log, b, h.next[j]);
      assert s.now < (s.now.Floor + 1) as real;
      assert Backs(rate, s.now, s.nodes[j], h.keys, id, Target(h.log[b])) by {
        assert GrantsBacked(rate, s.now, s.nodes[j], j, id, h);
      }
      BacksEarlier(rate, s.now, s.nodes[j], h.keys, id, h.phase.claim, Target(h.log[b]));
    }
  }

  // ---- Whole runs ----------------------------------------------------------------------

  lemma {:induction false} RunKeepsInv(rate: real, run: seq<State>, steps: seq<Step>, i: nat)
    requires IsRun(rate, run, steps) && i < |run|
    ensures AllTidy(rate, run[i])
    ensures NeverShortens(rate, run, steps) ==> AllBacked(rate, run[i])
  {
    if i > 0 {
      RunKeepsInv(rate, run, steps, i - 1);
      assert run[i - 1 + 1] == Apply(rate, run[i - 1], steps[i - 1]);
      StepKeepsInv(rate, run[i - 1], steps[i - 1]);
    }
  }

  /** Mutual exclusion: at no point of any run do two distinct clients that share a
      resource both hold their locks, provided no extension moves an expiry earlier. */
  lemma MutualExclusion(rate: real, run: seq<State>, steps: seq<Step>, i: nat, a: string, b: string, k: string)
    requires IsRun(rate, run, steps) && NeverShortens(rate, run, steps) && i < |run|
    requires Holds(run[i], a) && Holds(run[i], b)
    requires k in run[i].handles[a].keys && k in run[i].handles[b].keys
    ensures a == b
  {
    RunKeepsInv(rate, run, steps, i);
    var s := run[i];
    var qa := HeldIsBacked(rate, s, a);
    var qb := HeldIsBacked(rate, s, b);
    var j := Quorum.Intersect(|s.nodes|, qa, qb);
    assert s.nodes[j].store[k].value == Text(a);
    assert s.nodes[j].store[k].value == Text(b);
  }

  /** A client's commands at node j up to its last release have all been executed there. */
  predicate ReleasedAt(h: Handle, j: int) {
    && |h.log| > 0 && Last(h).Release? && |h.granted| == |h.log|
    && j in h.granted[|h.log| - 1]
  }

  /** Once a node has executed the release that ends a failed attempt, and nothing was
      issued since, it holds none of the client's keys under its identifier, even if it had
      executed an acquire whose acknowledgement was lost. */
  lemma ReleasedLeavesNothing(rate: real, run: seq<State>, steps: seq<Step>, i: nat, id: string, j: int, k: string)
    requires IsRun(rate, run, steps) && i < |run| && id in run[i].handles
    requires 0 <= j < |run[i].nodes| && ReleasedAt(run[i].handles[id], j) && k in run[i].handles[id].keys
    ensures !Scripts.Owns(run[i].nodes[j].store, run[i].nodes[j].clock.Floor, k, id)
  {
    RunKeepsInv(rate, run, steps, i);
    var s := run[i];
    var h := s.handles[id];
    assert Tidy(rate, s, id, h);
    var p := |h.log| - 1;
    assert j in h.granted[p];
    assert h.next[j] == p + 1;
    assert SweptClean(s.nodes[j], j, id, h);
  }
}
