/** Redlock as a state machine: any number of clients, retries, extensions and releases
    interleave on any number of nodes, each with its own clock.

    Commands of one client to one node take effect in issue order, at any later time or
    never; an acknowledgement may be lost. A node runs the lock scripts on its own clock,
    which never goes backwards and runs at most (1 + rate) times as fast as real time. */
module RedlockProtocol {
  import opened Wrappers
  import opened Keyspace
  import opened Timing
  import Scripts = LockScripts
  import Quorum

  /** The two client libraries: the toolkit dates a lock from the attempt's start, the
      internal Redlock also subtracts the elapsed time. */
  datatype Flavour = ToolkitLock | InternalLock

  /** `drift` is the margin the caller computes from its drift factor. */
  datatype Command =
    | Acquire(start: int, ttl: int, drift: int)
    | Extend(start: int, ttl: int, drift: int)
    | Release

  /** The expiration a granted command is good for. */
  function Target(c: Command): int
    requires !c.Release?
  {
    c.start + c.ttl - c.drift
  }

  function Max(a: int, b: int): int { if a < b then b else a }

  /** Setting a key as c asks, at any time from its start on, keeps it live until `target`
      on a clock that runs at most (1 + rate) times as fast as real time. */
  predicate Reaches(rate: real, c: Command, target: int)
    requires !c.Release?
  {
    (1.0 + rate) * ((target - c.start) as real) <= c.ttl as real
  }

  /** `claim` is the latest expiration any lock object of this client shows; `basis` is the
      command whose grants it rests on. */
  datatype Phase = Idle | Acquiring | Held(claim: int, basis: nat) | Released | Abandoned

  /** `log` lists the commands issued so far, the same list to every node. Node j has
      handled the first `next[j]` of them; `granted[p]` are the nodes that executed command
      p with success, `acked[p]` those whose success the client has learned. `session` is
      the last acquire and `promised` the latest expiration asked for since then. */
  datatype Handle = Handle(keys: seq<string>, flavour: Flavour, log: seq<Command>, next: seq<nat>,
                           granted: seq<set<int>>, acked: seq<set<int>>,
                           phase: Phase, session: nat, promised: int)

  datatype Node = Node(store: Store, clock: real)

  datatype State = State(now: real, nodes: seq<Node>, handles: map<string, Handle>)

  /** What a client does by itself; `Ack` is an acknowledgement of command p from node j. */
  datatype Action =
    | Attempt(ttl: int, drift: int)
    | Ack(p: nat, j: int)
    | Win
    | Fail
    | GiveUp
    | ExtendLock(ttl: int, drift: int)
    | Extended(p: nat)
    | ReleaseLock

  datatype Step =
    | Start(id: string, keys: seq<string>, flavour: Flavour)
    | Client(id: string, act: Action)
    | Execute(id: string, j: int, delivered: bool)
    | Tick(d: real, advance: seq<real>)

  // ---- Steps -------------------------------------------------------------------------

  function Issue(h: Handle, c: Command): Handle {
    h.(log := h.log + [c], granted := h.granted + [{}], acked := h.acked + [{}])
  }

  /** Which script replies a client counts as a vote. */
  predicate Vote(flavour: Flavour, reply: Scripts.Reply, keys: seq<string>) {
    if flavour.InternalLock? then reply == Scripts.Replied(|keys|) else reply.Replied? && reply.n > 0
  }

  /** One command executed on one node's keyspace, and whether the node granted it. */
  function Run(s: Store, now: int, h: Handle, id: string, c: Command): (Store, bool) {
    match c
    case Acquire(_, ttl, _) =>
      var (t, reply) := Scripts.Acquire(s, now, h.keys, id, ttl, "");
      (t, Vote(h.flavour, reply, h.keys))
    case Extend(_, ttl, _) =>
      var (t, reply) := Scripts.Extend(s, now, h.keys, id, ttl);
      (t, Vote(h.flavour, reply, h.keys))
    case Release => (Scripts.Release(s, now, h.keys, id).0, true)
  }

  /** The expiration a lock object shows when command c wins at time `ms`. */
  function Shown(flavour: Flavour, c: Command, ms: int): int
    requires !c.Release?
  {
    if flavour.ToolkitLock? then c.start + c.ttl - c.drift
    else c.start + (c.ttl - (ms - c.start) - c.drift)
  }

  predicate Lined(h: Handle) {
    |h.granted| == |h.log| && |h.acked| == |h.log|
  }

  function Last(h: Handle): Command
    requires |h.log| > 0
  {
    h.log[|h.log| - 1]
  }

  ghost predicate CanAct(rate: real, n: nat, ms: int, h: Handle, act: Action) {
    Lined(h) &&
    match act
    case Attempt(ttl, drift) => h.phase.Idle? && ttl > 0 && drift >= Drift(rate, ttl)
    case Ack(p, j) => p < |h.log| && j in h.granted[p]
    case Win =>
      && h.phase.Acquiring? && |h.log| > 0 && Last(h).Acquire?
      && |h.acked[|h.log| - 1]| >= Quorum.Size(n)
      && Shown(h.flavour, Last(h), ms) > (if h.flavour.ToolkitLock? then ms else Last(h).start)
    case Fail => h.phase.Acquiring?
    case GiveUp => h.phase.Acquiring?
    case ExtendLock(ttl, drift) =>
      && (h.phase.Released? || (h.phase.Held? && ms < h.phase.claim))
      && ttl > 0 && drift >= Drift(rate, ttl)
    case Extended(p) =>
      && h.phase.Held? && h.session < p < |h.log| && h.log[p].Extend?
      && |h.acked[p]| >= Quorum.Size(n)
      && (h.flavour.InternalLock? ==> Shown(h.flavour, h.log[p], ms) > h.log[p].start)
    case ReleaseLock => h.phase.Held? || h.phase.Released?
  }

  ghost function Act(rate: real, n: nat, ms: int, h: Handle, act: Action): Handle
    requires CanAct(rate, n, ms, h, act)
  {
    match act
    case Attempt(ttl, drift) =>
      var c := Acquire(ms, ttl, drift);
      Issue(h, c).(phase := Acquiring, session := |h.log|, promised := Target(c))
    case Ack(p, j) => h.(acked := h.acked[p := h.acked[p] + {j}])
    case Win => h.(phase := Held(Shown(h.flavour, Last(h), ms), |h.log| - 1))
    // a failed attempt releases on every node and may then be retried
    case Fail => Issue(h, Release).(phase := Idle)
    // a rethrown error, or a lock that would be expired: nothing is cleaned up
    case GiveUp => h.(phase := Abandoned)
    case ExtendLock(ttl, drift) =>
      var c := Extend(ms, ttl, drift);
      Issue(h, c).(promised := Max(h.promised, Target(c)))
    case Extended(p) =>
      var shown := Shown(h.flavour, h.log[p], ms);
      if shown > h.phase.claim then h.(phase := Held(shown, p)) else h
    case ReleaseLock => Issue(h, Release).(phase := Released)
  }

  /** Node j has handled one more command of the client. */
  function Advance(h: Handle, j: int, granted: bool): Handle
    requires Lined(h) && 0 <= j < |h.next| && h.next[j] < |h.log|
  {
    var c := h.next[j];
    h.(next := h.next[j := c + 1],
       granted := if granted then h.granted[c := h.granted[c] + {j}] else h.granted)
  }

  ghost predicate Enabled(rate: real, s: State, step: Step) {
    match step
    case Start(id, keys, _) => id !in s.handles && AllPlain(keys)
    case Client(id, act) => id in s.handles && CanAct(rate, |s.nodes|, s.now.Floor, s.handles[id], act)
    case Execute(id, j, _) =>
      && id in s.handles && Lined(s.handles[id])
      && 0 <= j < |s.nodes| && j < |s.handles[id].next| && s.handles[id].next[j] < |s.handles[id].log|
    case Tick(d, advance) =>
      && d > 0.0 && |advance| == |s.nodes|
      && forall j :: 0 <= j < |advance| ==> 0.0 <= advance[j] <= (1.0 + rate) * d
  }

  function Ticked(nodes: seq<Node>, advance: seq<real>): (r: seq<Node>)
    requires |nodes| == |advance|
    ensures |r| == |nodes|
    ensures forall j :: 0 <= j < |r| ==> r[j] == nodes[j].(clock := nodes[j].clock + advance[j])
  {
    if nodes == [] then []
    else
      var k := |nodes| - 1;
      Ticked(nodes[..k], advance[..k]) + [nodes[k].(clock := nodes[k].clock + advance[k])]
  }

  ghost function Apply(rate: real, s: State, step: Step): State
    requires Enabled(rate, s, step)
  {
    match step
    case Start(id, keys, flavour) =>
      s.(handles := s.handles[id := Handle(keys, flavour, [], seq(|s.nodes|, _ => 0), [], [], Idle, 0, 0)])
    case Client(id, act) =>
      s.(handles := s.handles[id := Act(rate, |s.nodes|, s.now.Floor, s.handles[id], act)])
    case Execute(id, j, delivered) =>
      var h := s.handles[id];
      if !delivered then s.(handles := s.handles[id := Advance(h, j, false)])
      else
        var node := s.nodes[j];
        var (t, granted) := Run(node.store, node.clock.Floor, h, id, h.log[h.next[j]]);
        s.(nodes := s.nodes[j := node.(store := t)], handles := s.handles[id := Advance(h, j, granted)])
    case Tick(d, advance) => s.(now := s.now + d, nodes := Ticked(s.nodes, advance))
  }

  /** An extension whose deadline may pass before an expiration the client already asked
      for. The code does not refuse it. */
  predicate Shortens(rate: real, s: State, step: Step) {
    && step.Client? && step.act.ExtendLock? && step.id in s.handles
    && !Reaches(rate, Extend(s.now.Floor, step.act.ttl, step.act.drift), s.handles[step.id].promised)
  }

  /** A run: any initial keyspaces and clocks, no clients yet, and one step after another. */
  ghost predicate IsRun(rate: real, run: seq<State>, steps: seq<Step>) {
    && rate >= 0.0 && |run| == |steps| + 1
    && run[0].handles == map[]
    && forall i :: 0 <= i < |steps| ==> Enabled(rate, run[i], steps[i]) && run[i + 1] == Apply(rate, run[i], steps[i])
  }

  predicate NeverShortens(rate: real, run: seq<State>, steps: seq<Step>) {
    forall i :: 0 <= i < |steps| && i < |run| ==> !Shortens(rate, run[i], steps[i])
  }

  /** The client believes it holds its lock: not released, and not past its expiration. */
  predicate Holds(s: State, id: string) {
    id in s.handles && s.handles[id].phase.Held? && s.now.Floor < s.handles[id].phase.claim
  }
}
