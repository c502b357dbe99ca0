/** Concurrent optimistic writes of one resource: any number of write calls whose commands
    reach the nodes at any time, in any order, or never. */
module OptimisticProtocol {
  import opened Wrappers
  import opened OptimisticRedlock
  import Quorum

  datatype Phase = Open | Won | Lost

  /** One call of `optimisticWrite`: the nodes its command has not reached yet, those that
      accepted it, those whose acceptance it has learned, and those its rollback has not
      reached yet. */
  datatype Call = Call(expected: int, value: string, pending: set<int>, granted: set<int>, acked: set<int>,
                       phase: Phase, rolling: set<int>)

  /** `authors[v]` is the call that moved the node from version v to v + 1. */
  datatype Node = Node(cell: Cell, authors: seq<int>)

  datatype State = State(nodes: seq<Node>, calls: map<int, Call>)

  datatype Step =
    | Begin(w: int, expected: int, value: string)
    | Execute(w: int, j: int, delivered: bool)
    | Ack(w: int, j: int)
    | Decide(w: int)
    | RollBackAt(w: int, j: int)

  function VersionOf(c: Cell): int {
    if c.version.Some? then c.version.value else 0
  }

  predicate Enabled(s: State, step: Step) {
    match step
    case Begin(w, _, _) => w !in s.calls
    case Execute(w, j, _) => w in s.calls && 0 <= j < |s.nodes| && j in s.calls[w].pending
    case Ack(w, j) => w in s.calls && s.calls[w].phase.Open? && j in s.calls[w].granted
    case Decide(w) => w in s.calls && s.calls[w].phase.Open?
    case RollBackAt(w, j) => w in s.calls && s.calls[w].phase.Lost? && 0 <= j < |s.nodes| && j in s.calls[w].rolling
  }

  function Apply(s: State, step: Step): State
    requires Enabled(s, step)
  {
    match step
    case Begin(w, expected, value) =>
      s.(calls := s.calls[w := Call(expected, value, Quorum.Nodes(|s.nodes|), {}, {}, Open, {})])
    case Execute(w, j, delivered) =>
      var call := s.calls[w].(pending := s.calls[w].pending - {j});
      var node := s.nodes[j];
      var (cell, reply) := Write(node.cell, call.value, call.expected);
      if delivered && reply.Some? then
        State(s.nodes[j := Node(cell, node.authors + [w])], s.calls[w := call.(granted := call.granted + {j})])
      else s.(calls := s.calls[w := call])
    case Ack(w, j) => s.(calls := s.calls[w := s.calls[w].(acked := s.calls[w].acked + {j})])
    case Decide(w) =>
      var won := |s.calls[w].acked| >= Quorum.Size(|s.nodes|);
      var rolling := if won || s.calls[w].acked == {} then {} else Quorum.Nodes(|s.nodes|);
      s.(calls := s.calls[w := s.calls[w].(phase := if won then Won else Lost, rolling := rolling)])
    case RollBackAt(w, j) =>
      var node := s.nodes[j];
      var expected := s.calls[w].expected;
      var acts := node.cell.version == Some(expected + 1) && node.authors != [];
      State(s.nodes[j := Node(RollBack(node.cell, expected),
                              if acts then node.authors[..|node.authors| - 1] else node.authors)],
            s.calls[w := s.calls[w].(rolling := s.calls[w].rolling - {j})])
  }

  predicate Explained(n: Node) {
    && |n.authors| == VersionOf(n.cell)
    && (n.cell.version.Some? ==> n.cell.version.value >= 1)
  }

  /** A run from any replicas whose version numbers are explained by earlier calls. */
  ghost predicate IsRun(run: seq<State>, steps: seq<Step>) {
    && |run| == |steps| + 1
    && run[0].calls == map[]
    && (forall j :: 0 <= j < |run[0].nodes| ==> Explained(run[0].nodes[j]))
    && forall i :: 0 <= i < |steps| ==> Enabled(run[i], steps[i]) && run[i + 1] == Apply(run[i], steps[i])
  }

  /** The rollback finds, as the newest write on the node, one of a call that has not lost.
      The script compares version numbers only and cannot tell. */
  predicate ErasesStandingWrite(s: State, w: int, j: int) {
    && w in s.calls && 0 <= j < |s.nodes| && s.nodes[j].authors != []
    && s.nodes[j].cell.version == Some(s.calls[w].expected + 1)
    && (var x := s.nodes[j].authors[|s.nodes[j].authors| - 1];
        && x in s.calls && !s.calls[x].phase.Lost? && j in s.calls[x].granted
        && s.calls[x].expected == |s.nodes[j].authors| - 1)
  }

  predicate Erases(s: State, step: Step) {
    step.RollBackAt? && ErasesStandingWrite(s, step.w, step.j)
  }

  predicate NeverErases(run: seq<State>, steps: seq<Step>) {
    forall i :: 0 <= i < |steps| && i < |run| ==> !Erases(run[i], steps[i])
  }

  // ---- Invariant -----------------------------------------------------------------------

  /** Where the call was granted it is still on record as the author of its version,
      unless it has lost. */
  ghost predicate CallOk(s: State, w: int) {
    w in s.calls &&
    var call := s.calls[w];
    && call.acked <= call.granted
    && (forall j :: j in call.granted ==> 0 <= j < |s.nodes| && j !in call.pending)
    && (call.phase.Won? ==> |call.acked| >= Quorum.Size(|s.nodes|))
    && (!call.phase.Lost? ==> forall j :: j in call.granted && 0 <= j < |s.nodes| ==>
          0 <= call.expected < |s.nodes[j].authors| && s.nodes[j].authors[call.expected] == w)
  }

  ghost predicate Inv(s: State) {
    && (forall j :: 0 <= j < |s.nodes| ==> Explained(s.nodes[j]))
    && (forall w :: w in s.calls ==> CallOk(s, w))
  }

  /** Of two calls that expect the same version at most one wins. */
  lemma InvExclusive(s: State, a: int, b: int)
    requires Inv(s) && a in s.calls && b in s.calls
    requires s.calls[a].phase.Won? && s.calls[b].phase.Won? && s.calls[a].expected == s.calls[b].expected
    ensures a == b
  {
    assert CallOk(s, a) && CallOk(s, b);
    assert s.calls[a].acked <= Quorum.Nodes(|s.nodes|) && s.calls[b].acked <= Quorum.Nodes(|s.nodes|);
    var j := Quorum.Intersect(|s.nodes|, s.calls[a].acked, s.calls[b].acked);
    assert s.nodes[j].authors[s.calls[a].expected] == a;
    assert s.nodes[j].authors[s.calls[b].expected] == b;
  }

  lemma ExecuteKeepsInv(s: State, w: int, j: int, delivered: bool)
    requires Inv(s) && Enabled(s, Execute(w, j, delivered))
    ensures Inv(Apply(s, Execute(w, j, delivered)))
  {
    var t := Apply(s, Execute(w, j, delivered));
    assert CallOk(s, w);
    forall x | x in t.calls ensures CallOk(t, x) {
      assert CallOk(s, x);
    }
  }

  /** A rollback keeps the record straight exactly when it does not hit such a write. */
  lemma RollBackKeepsInvIff(s: State, w: int, j: int)
    requires Inv(s) && Enabled(s, RollBackAt(w, j))
    ensures Inv(Apply(s, RollBackAt(w, j))) <==> !ErasesStandingWrite(s, w, j)
  {
    var t := Apply(s, RollBackAt(w, j));
    assert Explained(s.nodes[j]);
    if ErasesStandingWrite(s, w, j) {
      var x := s.nodes[j].authors[|s.nodes[j].authors| - 1];
      assert !CallOk(t, x);
    } else {
      forall x | x in t.calls ensures CallOk(t, x) {
        assert CallOk(s, x);
      }
    }
  }

  lemma StepKeepsInv(s: State, step: Step)
    requires Inv(s) && Enabled(s, step) && !Erases(s, step)
    ensures Inv(Apply(s, step))
  {
    match step
    case Execute(w, j, delivered) => ExecuteKeepsInv(s, w, j, delivered);
    case RollBackAt(w, j) => RollBackKeepsInvIff(s, w, j);
    case _ =>
      var t := Apply(s, step);
      forall x | x in t.calls ensures CallOk(t, x) {
        assert x in s.calls ==> CallOk(s, x);
      }
  }

  lemma InitialInv(s: State)
    requires s.calls == map[] && forall j :: 0 <= j < |s.nodes| ==> Explained(s.nodes[j])
    ensures Inv(s)
  {
  }

  lemma {:induction false} RunKeepsInv(run: seq<State>, steps: seq<Step>, i: nat)
    requires IsRun(run, steps) && NeverErases(run, steps) && i < |run|
    ensures Inv(run[i])
  {
    hide Inv, Apply, Enabled;
    if i == 0 {
      InitialInv(run[0]);
    } else {
      RunKeepsInv(run, steps, i - 1);
      assert run[i - 1 + 1] == Apply(run[i - 1], steps[i - 1]);
      StepKeepsInv(run[i - 1], steps[i - 1]);
    }
  }

  // ---- Whole runs ----------------------------------------------------------------------

  /** Write exclusivity: for each version v at most one call that expects v ever succeeds,
      however the calls interleave, provided no rollback erases a standing write. */
  lemma WriteExclusive(run: seq<State>, steps: seq<Step>, i: nat, a: int, b: int)
    requires IsRun(run, steps) && NeverErases(run, steps) && i < |run|
    requires a in run[i].calls && b in run[i].calls && run[i].calls[a].phase.Won? && run[i].calls[b].phase.Won?
    requires run[i].calls[a].expected == run[i].calls[b].expected
    ensures a == b
  {
    RunKeepsInv(run, steps, i);
    InvExclusive(run[i], a, b);
  }

  /** A won write is on a quorum for good: its version stays reached there. */
  lemma WonWriteStands(run: seq<State>, steps: seq<Step>, i: nat, w: int, j: int)
    requires IsRun(run, steps) && NeverErases(run, steps) && i < |run|
    requires w in run[i].calls && run[i].calls[w].phase.Won? && j in run[i].calls[w].acked
    ensures |run[i].calls[w].acked| >= Quorum.Size(|run[i].nodes|)
    ensures 0 <= j < |run[i].nodes| && VersionOf(run[i].nodes[j].cell) >= run[i].calls[w].expected + 1
  {
    RunKeepsInv(run, steps, i);
    assert CallOk(run[i], w);
    assert j in run[i].calls[w].granted;
  }

  lemma StepKeepsVersions(s: State, step: Step, j: int)
    requires Enabled(s, step) && !step.RollBackAt? && Inv(s) && 0 <= j < |s.nodes|
    ensures |Apply(s, step).nodes| == |s.nodes|
    ensures VersionOf(Apply(s, step).nodes[j].cell) >= VersionOf(s.nodes[j].cell)
  {
    assert Explained(s.nodes[j]);
  }

  /** Without rollbacks a node's version never decreases along a run. */
  lemma {:induction false} VersionsNeverDecrease(run: seq<State>, steps: seq<Step>, i: nat, k: nat, j: int)
    requires IsRun(run, steps) && i <= k < |run|
    requires forall m :: 0 <= m < |steps| ==> !steps[m].RollBackAt?
    requires 0 <= j < |run[i].nodes|
    ensures |run[k].nodes| == |run[i].nodes| && VersionOf(run[i].nodes[j].cell) <= VersionOf(run[k].nodes[j].cell)
  {
    hide Inv, Apply, Enabled, Explained;
    if i < k {
      VersionsNeverDecrease(run, steps, i, k - 1, j);
      assert run[k - 1 + 1] == Apply(run[k - 1], steps[k - 1]);
      RunKeepsInv(run, steps, k - 1);
      StepKeepsVersions(run[k - 1], steps[k - 1], j);
    }
  }

  // ---- Exactly when writes are exclusive ---------------------------------------------------

  /** Two calls that expected the same version have both won. */
  ghost predicate Clash(s: State) {
    exists a, b :: a in s.calls && b in s.calls && a != b && s.calls[a].phase.Won? && s.calls[b].phase.Won?
                   && s.calls[a].expected == s.calls[b].expected
  }

  /** No run on n nodes, rollbacks included, ever clashes. */
  ghost predicate Exclusive(n: nat) {
    forall run: seq<State>, steps: seq<Step>, i: int ::
      IsRun(run, steps) && |run[0].nodes| == n && 0 <= i < |run| ==> !Clash(run[i])
  }

  /** On a single node one acknowledgement is a quorum, so nothing is ever rolled back. */
  lemma {:induction false} SingleNodeRollsNothingBack(run: seq<State>, steps: seq<Step>, i: nat)
    requires IsRun(run, steps) && |run[0].nodes| <= 1 && i < |run|
    ensures |run[i].nodes| <= 1 && forall w :: w in run[i].calls ==> run[i].calls[w].rolling == {}
  {
    if i > 0 {
      SingleNodeRollsNothingBack(run, steps, i - 1);
      assert run[i - 1 + 1] == Apply(run[i - 1], steps[i - 1]);
      if steps[i - 1].Decide? {
        var acked := run[i - 1].calls[steps[i - 1].w].acked;
        assert acked != {} ==> |acked| >= 1;
      }
    }
  }

  lemma SingleNodeExclusive(run: seq<State>, steps: seq<Step>, i: nat)
    requires IsRun(run, steps) && |run[0].nodes| <= 1 && i < |run|
    ensures !Clash(run[i])
  {
    hide Apply, Explained;
    forall k | 0 <= k < |steps| && k < |run| ensures !Erases(run[k], steps[k]) {
      SingleNodeRollsNothingBack(run, steps, k);
      assert Enabled(run[k], steps[k]);
    }
    if a, b :| a in run[i].calls && b in run[i].calls && a != b && run[i].calls[a].phase.Won?
               && run[i].calls[b].phase.Won? && run[i].calls[a].expected == run[i].calls[b].expected {
      WriteExclusive(run, steps, i, a, b);
    }
  }

  // A run that clashes, on any larger deployment: two calls are accepted by one node each,
  // lose, and roll back there; a third wins everywhere; the rest of the losers' rollbacks
  // then deletes its committed first write, and a fourth call wins too.

  ghost predicate Playing(run: seq<State>, steps: seq<Step>, n: nat, s: State) {
    IsRun(run, steps) && |run[0].nodes| == n && run[|run| - 1] == s
  }

  lemma Play(run: seq<State>, steps: seq<Step>, n: nat, s: State, step: Step) returns (r: seq<State>, u: seq<Step>)
    requires Playing(run, steps, n, s) && Enabled(s, step)
    ensures Playing(r, u, n, Apply(s, step))
  {
    hide Enabled, Apply;
    r, u := run + [Apply(s, step)], steps + [step];
  }

  const BLANK := Node(Cell(None, None), [])

  function Written(w: int, value: string): Node { Node(Cell(Some(value), Some(1)), [w]) }

  /** The first k nodes are `done`, the others `todo`. */
  function Split(n: nat, k: nat, done: Node, todo: Node): (r: seq<Node>)
    ensures |r| == n && forall j :: 0 <= j < n ==> r[j] == if j < k then done else todo
  {
    seq(n, j => if j < k then done else todo)
  }

  /** A first write that the first k nodes have accepted and acknowledged. */
  function Progress(n: nat, value: string, k: nat): Call {
    Call(0, value, Quorum.Nodes(n) - Quorum.Nodes(k), Quorum.Nodes(k), Quorum.Nodes(k), Open, {})
  }

  /** The call after node j has accepted and acknowledged it. */
  function Accepted(c: Call, j: int): Call {
    c.(pending := c.pending - {j}, granted := c.granted + {j}, acked := c.acked + {j})
  }

  lemma MinusOneMore(all: set<int>, some: set<int>, j: int)
    ensures all - some - {j} == all - (some + {j})
  {
  }

  lemma ProgressStep(n: nat, value: string, k: nat)
    requires k < n
    ensures Accepted(Progress(n, value, k), k) == Progress(n, value, k + 1) && k in Progress(n, value, k).pending
  {
    assert Quorum.Nodes(k) + {k} == Quorum.Nodes(k + 1);
    MinusOneMore(Quorum.Nodes(n), Quorum.Nodes(k), k);
    hide Quorum.Nodes;
  }

  /** A blank node accepts a first write and acknowledges it. */
  lemma AcceptAt(run: seq<State>, steps: seq<Step>, n: nat, s: State, w: int, j: nat) returns (r: seq<State>, u: seq<Step>)
    requires Playing(run, steps, n, s) && j < |s.nodes| && s.nodes[j] == BLANK && w in s.calls
    requires s.calls[w].expected == 0 && s.calls[w].phase.Open? && j in s.calls[w].pending
    ensures Playing(r, u, n, State(s.nodes[j := Written(w, s.calls[w].value)], s.calls[w := Accepted(s.calls[w], j)]))
  {
    hide Playing;
    var c := s.calls[w];
    assert [] + [w] == [w];
    r, u := Play(run, steps, n, s, Execute(w, j, true));
    var t := State(s.nodes[j := Written(w, c.value)],
                   s.calls[w := c.(pending := c.pending - {j}, granted := c.granted + {j})]);
    assert t == Apply(s, Execute(w, j, true));
    r, u := Play(r, u, n, t, Ack(w, j));
    assert t.calls[w := Accepted(c, j)] == s.calls[w := Accepted(c, j)];
  }

  lemma ProgressIsOpen(n: nat, value: string, k: nat)
    ensures var c := Progress(n, value, k); c.expected == 0 && c.value == value && c.phase.Open?
  {
  }

  lemma {:induction false} WriteUpTo(run: seq<State>, steps: seq<Step>, n: nat, s: State, w: int, value: string, k: nat)
    returns (r: seq<State>, u: seq<Step>)
    requires Playing(run, steps, n, s) && k <= n
    requires s.nodes == Split(n, 0, BLANK, BLANK) && w in s.calls && s.calls[w] == Progress(n, value, 0)
    ensures Playing(r, u, n, State(Split(n, k, Written(w, value), BLANK), s.calls[w := Progress(n, value, k)]))
  {
    hide Playing, Progress;
    if k == 0 {
      assert s.calls[w := Progress(n, value, 0)] == s.calls;
      assert Split(n, 0, Written(w, value), BLANK) == s.nodes;
      r, u := run, steps;
    } else {
      r, u := WriteUpTo(run, steps, n, s, w, value, k - 1);
      var t := State(Split(n, k - 1, Written(w, value), BLANK), s.calls[w := Progress(n, value, k - 1)]);
      ProgressStep(n, value, k - 1);
      ProgressIsOpen(n, value, k - 1);
      r, u := AcceptAt(r, u, n, t, w, k - 1);
      hide Accepted, Split, Written;
      assert t.calls[w := Progress(n, value, k)] == s.calls[w := Progress(n, value, k)];
      assert t.nodes[k - 1 := Written(w, value)] == Split(n, k, Written(w, value), BLANK);
    }
  }

  /** From blank nodes a fresh call can win everywhere. */
  lemma WinsEverywhere(run: seq<State>, steps: seq<Step>, n: nat, s: State, w: int, value: string)
    returns (r: seq<State>, u: seq<Step>)
    requires Playing(run, steps, n, s) && n > 0
    requires s.nodes == Split(n, 0, BLANK, BLANK) && w in s.calls && s.calls[w] == Progress(n, value, 0)
    ensures Playing(r, u, n, State(Split(n, 0, BLANK, Written(w, value)),
                                   s.calls[w := Progress(n, value, n).(phase := Won)]))
  {
    hide Playing;
    r, u := WriteUpTo(run, steps, n, s, w, value, n);
    var t := State(Split(n, n, Written(w, value), BLANK), s.calls[w := Progress(n, value, n)]);
    r, u := Play(r, u, n, t, Decide(w));
    assert t.nodes == Split(n, 0, BLANK, Written(w, value));
    assert t.calls[w := Progress(n, value, n).(phase := Won)] == s.calls[w := Progress(n, value, n).(phase := Won)];
  }

  /** A call that lost on node j, and has rolled back there but nowhere else yet. */
  function Loser(n: nat, value: string, j: nat): Call {
    Accepted(Progress(n, value, 0), j).(phase := Lost, rolling := Quorum.Nodes(n) - {j})
  }

  /** A lost first write is rolled back on a node whose only write is x's. */
  lemma RollsBackAt(run: seq<State>, steps: seq<Step>, n: nat, s: State, w: int, j: nat)
    returns (r: seq<State>, u: seq<Step>)
    requires Playing(run, steps, n, s) && j < |s.nodes| && w in s.calls
    requires exists x, value :: s.nodes[j] == Written(x, value)
    requires s.calls[w].expected == 0 && s.calls[w].phase.Lost? && j in s.calls[w].rolling
    ensures Playing(r, u, n, State(s.nodes[j := BLANK],
                                   s.calls[w := s.calls[w].(rolling := s.calls[w].rolling - {j})]))
  {
    hide Playing;
    var authors := s.nodes[j].authors;
    assert authors[..|authors| - 1] == [];
    r, u := Play(run, steps, n, s, RollBackAt(w, j));
  }

  lemma LosesAt(run: seq<State>, steps: seq<Step>, n: nat, s: State, w: int, value: string, j: nat)
    returns (r: seq<State>, u: seq<Step>)
    requires Playing(run, steps, n, s) && n >= 2 && j < n == |s.nodes|
    requires s.nodes[j] == BLANK && w in s.calls && s.calls[w] == Progress(n, value, 0)
    ensures Playing(r, u, n, State(s.nodes, s.calls[w := Loser(n, value, j)]))
  {
    hide Playing;
    var c := Accepted(Progress(n, value, 0), j);
    r, u := AcceptAt(run, steps, n, s, w, j);
    var t1 := State(s.nodes[j := Written(w, value)], s.calls[w := c]);
    assert c.acked == {j} && |{j}| == 1;
    r, u := Play(r, u, n, t1, Decide(w));
    var t2 := t1.(calls := s.calls[w := c.(phase := Lost, rolling := Quorum.Nodes(n))]);
    assert t1.calls[w := t2.calls[w]] == t2.calls;
    r, u := RollsBackAt(r, u, n, t2, w, j);
    assert t2.calls[w := Loser(n, value, j)] == s.calls[w := Loser(n, value, j)];
    assert t2.nodes[j := BLANK] == s.nodes;
  }

  /** Calls 1 and 2 have lost; call 3 has won; call 4 has not started to write. */
  ghost predicate Undoing(s: State, n: nat, k: nat) {
    && {1, 2, 3, 4} <= s.calls.Keys
    && s.nodes == Split(n, k, BLANK, Written(3, "x"))
    && (forall w :: w in {1, 2} ==> s.calls[w].phase.Lost? && s.calls[w].expected == 0)
    && (forall j :: k <= j < n ==> (j == 0 && j in s.calls[2].rolling) || (j > 0 && j in s.calls[1].rolling))
    && s.calls[3].phase.Won? && s.calls[3].expected == 0 && s.calls[4] == Progress(n, "y", 0)
  }

  /** The losers' remaining rollbacks delete the committed write, node after node. */
  lemma {:induction false} UndoUpTo(run: seq<State>, steps: seq<Step>, n: nat, s: State, k: nat)
    returns (r: seq<State>, u: seq<Step>, t: State)
    requires Playing(run, steps, n, s) && Undoing(s, n, 0) && k <= n
    ensures Playing(r, u, n, t) && Undoing(t, n, k)
  {
    if k == 0 {
      r, u, t := run, steps, s;
    } else {
      var before;
      r, u, before := UndoUpTo(run, steps, n, s, k - 1);
      var w := if k == 1 then 2 else 1;
      assert before.nodes[k - 1] == Written(3, "x");
      r, u := RollsBackAt(r, u, n, before, w, k - 1);
      hide Playing, Written, Progress;
      t := State(before.nodes[k - 1 := BLANK],
                 before.calls[w := before.calls[w].(rolling := before.calls[w].rolling - {k - 1})]);
      assert t.nodes == Split(n, k, BLANK, Written(3, "x"));
    }
  }

  lemma FourCalls(n: nat) returns (run: seq<State>, steps: seq<Step>, s: State)
    ensures Playing(run, steps, n, s) && s.nodes == Split(n, 0, BLANK, BLANK) && s.calls.Keys == {1, 2, 3, 4}
    ensures s.calls[1] == s.calls[2] == Progress(n, "z", 0)
    ensures s.calls[3] == Progress(n, "x", 0) && s.calls[4] == Progress(n, "y", 0)
  {
    var s0 := State(Split(n, 0, BLANK, BLANK), map[]);
    assert Playing([s0], [], n, s0);
    hide Playing;
    assert Quorum.Nodes(n) - Quorum.Nodes(0) == Quorum.Nodes(n);
    run, steps := Play([s0], [], n, s0, Begin(1, 0, "z"));
    var s1 := Apply(s0, Begin(1, 0, "z"));
    run, steps := Play(run, steps, n, s1, Begin(2, 0, "z"));
    var s2 := Apply(s1, Begin(2, 0, "z"));
    run, steps := Play(run, steps, n, s2, Begin(3, 0, "x"));
    var s3 := Apply(s2, Begin(3, 0, "x"));
    run, steps := Play(run, steps, n, s3, Begin(4, 0, "y"));
    s := Apply(s3, Begin(4, 0, "y"));
  }

  lemma LastOf(run: seq<State>, steps: seq<Step>, n: nat, s: State)
    requires Playing(run, steps, n, s) && Clash(s)
    ensures !Exclusive(n)
  {
    hide Clash;
    assert Clash(run[|run| - 1]);
  }

  lemma LargerDeploymentClashes(n: nat)
    requires n >= 2
    ensures !Exclusive(n)
  {
    hide Apply, Enabled, Playing;
    var run, steps, s := FourCalls(n);
    run, steps := LosesAt(run, steps, n, s, 1, "z", 0);
    s := s.(calls := s.calls[1 := Loser(n, "z", 0)]);
    run, steps := LosesAt(run, steps, n, s, 2, "z", 1);
    s := s.(calls := s.calls[2 := Loser(n, "z", 1)]);
    run, steps := WinsEverywhere(run, steps, n, s, 3, "x");
    s := State(Split(n, 0, BLANK, Written(3, "x")), s.calls[3 := Progress(n, "x", n).(phase := Won)]);
    run, steps, s := UndoUpTo(run, steps, n, s, n);
    assert s.nodes == Split(n, 0, BLANK, BLANK);
    run, steps := WinsEverywhere(run, steps, n, s, 4, "y");
    s := State(Split(n, 0, BLANK, Written(4, "y")), s.calls[4 := Progress(n, "y", n).(phase := Won)]);
    assert 3 in s.calls && 4 in s.calls && s.calls[3].phase.Won? && s.calls[4].phase.Won?;
    assert Clash(s);
    LastOf(run, steps, n, s);
  }

  /** With rollbacks as the code issues them, at most one write per version wins in every
      run exactly when there is a single node. */
  lemma ExclusiveIff(n: nat)
    ensures Exclusive(n) <==> n <= 1
  {
    if n <= 1 {
      forall run: seq<State>, steps: seq<Step>, i: int | IsRun(run, steps) && |run[0].nodes| == n && 0 <= i < |run|
        ensures !Clash(run[i])
      {
        SingleNodeExclusive(run, steps, i);
      }
    } else {
      LargerDeploymentClashes(n);
    }
  }
}
