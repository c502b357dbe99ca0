/** What every step of the protocol keeps: each node that granted a command still backs it, and
    a node that executed a release is clean. */
module RedlockInvariant {
  import opened Wrappers
  import opened Keyspace
  import opened Timing
  import opened RedlockProtocol
  import Scripts = LockScripts
  import Quorum

  // ---- Invariant ---------------------------------------------------------------------

  predicate NoRelease(log: seq<Command>, from: int, to: int) {
    forall m :: 0 <= from <= m < to && m < |log| ==> !log[m].Release?
  }

  ghost predicate WellFormed(rate: real, n: nat, now: real, h: Handle) {
    && AllPlain(h.keys)
    && |h.next| == n && |h.granted| == |h.log| && |h.acked| == |h.log|
    && (forall j :: 0 <= j < n ==> h.next[j] <= |h.log|)
    && (forall p, j {:trigger j in h.granted[p]} :: 0 <= p < |h.log| && j in h.granted[p] ==> 0 <= j < n && p < h.next[j])
    && (forall p :: 0 <= p < |h.log| ==> h.acked[p] <= h.granted[p])
    && (forall p :: 0 <= p < |h.log| && !h.log[p].Release? ==>
          h.log[p].start as real <= now && h.log[p].ttl > 0 && h.log[p].drift >= Drift(rate, h.log[p].ttl))
  }

  /** Between two releases, later commands reach the expirations that earlier ones asked for. */
  ghost predicate Rising(rate: real, h: Handle) {
    && (forall p, q :: 0 <= p < q < |h.log| && NoRelease(h.log, p, q + 1) ==> Reaches(rate, h.log[q], Target(h.log[p])))
    && (forall p :: 0 <= p < |h.log| && NoRelease(h.log, p, |h.log|) ==> Target(h.log[p]) <= h.promised)
  }

  ghost predicate PhaseOk(n: nat, h: Handle) {
    && |h.acked| == |h.log|
    && match h.phase
       case Idle => h.log == [] || h.log[|h.log| - 1].Release?
       case Acquiring => |h.log| > 0 && h.session == |h.log| - 1 && h.log[|h.log| - 1].Acquire?
       case Held(claim, basis) =>
         h.session <= basis < |h.log| && NoRelease(h.log, h.session, |h.log|)
         && |h.acked[basis]| >= Quorum.Size(n) && claim <= Target(h.log[basis])
       case _ => true
  }

  /** How far the node's clock can have advanced by the instant `target`. */
  function Reach(rate: real, now: real, clock: real, target: int): real {
    clock + (1.0 + rate) * (target as real - now)
  }

  /** The node stores every key under id, with a deadline its clock cannot pass before
      `target`; the clock shows whole milliseconds. */
  ghost predicate Backs(rate: real, now: real, node: Node, keys: seq<string>, id: string, target: int) {
    forall k :: k in keys ==>
      && k in node.store && node.store[k].value == Text(id)
      && Reach(rate, now, node.clock, target) < (node.store[k].deadline + 1) as real
  }

  /** Each node that granted a command still backs it, unless the client has since
      released there or the command's time is over. */
  ghost predicate GrantsBacked(rate: real, now: real, node: Node, j: int, id: string, h: Handle) {
    forall p :: 0 <= p < |h.log| && p < |h.granted| && 0 <= j < |h.next|
                && j in h.granted[p] && NoRelease(h.log, p, h.next[j]) && p < h.next[j] && now < Target(h.log[p]) as real ==>
      Backs(rate, now, node, h.keys, id, Target(h.log[p]))
  }

  /** Right after a node executed a release, it stores none of the client's keys. */
  ghost predicate SweptClean(node: Node, j: int, id: string, h: Handle) {
    forall p, k :: 0 <= p < |h.log| && p < |h.granted| && 0 <= j < |h.next|
                   && h.log[p].Release? && j in h.granted[p] && h.next[j] == p + 1 && k in h.keys ==>
      !Scripts.Owns(node.store, node.clock.Floor, k, id)
  }

  /** What every step keeps. */
  ghost predicate Tidy(rate: real, s: State, id: string, h: Handle) {
    && WellFormed(rate, |s.nodes|, s.now, h) && PhaseOk(|s.nodes|, h)
    && forall j :: 0 <= j < |s.nodes| ==> SweptClean(s.nodes[j], j, id, h)
  }

  /** What every step keeps that does not shorten. */
  ghost predicate Backed(rate: real, s: State, id: string, h: Handle) {
    && Rising(rate, h)
    && forall j :: 0 <= j < |s.nodes| ==> GrantsBacked(rate, s.now, s.nodes[j], j, id, h)
  }

  ghost predicate AllTidy(rate: real, s: State) {
    forall id :: id in s.handles ==> Tidy(rate, s, id, s.handles[id])
  }

  ghost predicate AllBacked(rate: real, s: State) {
    forall id :: id in s.handles ==> Backed(rate, s, id, s.handles[id])
  }

  ghost predicate Inv(rate: real, s: State) {
    AllTidy(rate, s) && AllBacked(rate, s)
  }

  // ---- Backing -----------------------------------------------------------------------

  lemma BacksEarlier(rate: real, now: real, node: Node, keys: seq<string>, id: string, early: int, late: int)
    requires rate >= 0.0 && early <= late && Backs(rate, now, node, keys, id, late)
    ensures Backs(rate, now, node, keys, id, early)
  {
    Scale(1.0 + rate, early as real - now, late as real - now);
    assert Reach(rate, now, node.clock, early) <= Reach(rate, now, node.clock, late);
    hide Reach;
  }

  /** A key that backs an instant still to come is live. */
  lemma BackedIsLive(rate: real, now: real, node: Node, keys: seq<string>, id: string, target: int, k: string)
    requires rate >= 0.0 && now < target as real && Backs(rate, now, node, keys, id, target) && k in keys
    ensures Scripts.Owns(node.store, node.clock.Floor, k, id)
  {
    assert (1.0 + rate) * (target as real - now) >= 0.0;
    assert node.clock < (node.store[k].deadline + 1) as real;
  }

  lemma TickKeepsBacks(rate: real, now: real, d: real, node: Node, advance: real, keys: seq<string>, id: string, target: int)
    requires rate >= 0.0 && advance <= (1.0 + rate) * d && Backs(rate, now, node, keys, id, target)
    ensures Backs(rate, now + d, node.(clock := node.clock + advance), keys, id, target)
  {
    var r, x := 1.0 + rate, target as real - now;
    assert r * (x - d) == r * x - r * d;
    assert target as real - (now + d) == x - d;
    assert Reach(rate, now + d, node.clock + advance, target) <= Reach(rate, now, node.clock, target);
    hide Reach;
  }

  /** Setting every key with ttl backs whatever the command reaches. */
  lemma SetBacks(rate: real, now: real, node: Node, store: Store, keys: seq<string>, id: string, c: Command, target: int)
    requires rate >= 0.0 && !c.Release? && c.start as real <= now && Reaches(rate, c, target)
    requires forall k :: k in keys ==> k in store && store[k] == Entry(Text(id), node.clock.Floor + c.ttl)
    ensures Backs(rate, now, node.(store := store), keys, id, target)
  {
    var ahead := target as real - now;
    Scale(1.0 + rate, ahead, (target - c.start) as real);
    assert Reach(rate, now, node.clock, target) <= node.clock + c.ttl as real;
  }

  lemma ReachesEarlier(rate: real, c: Command, early: int, late: int)
    requires rate >= 0.0 && !c.Release? && early <= late && Reaches(rate, c, late)
    ensures Reaches(rate, c, early)
  {
    Scale(1.0 + rate, (early - c.start) as real, (late - c.start) as real);
  }

  /** A command reaches the expiration it asks for itself. */
  lemma ReachesOwnTarget(rate: real, c: Command)
    requires rate >= 0.0 && !c.Release? && c.ttl > 0 && c.drift >= Drift(rate, c.ttl)
    ensures Reaches(rate, c, Target(c))
  {
    MarginCoversSkew(rate, c.ttl, c.drift);
  }

  // ---- One command on one node ---------------------------------------------------------

  /** What the issuing client gains: a vote means every key was set; no vote means nothing
      changed. */
  lemma RunOwn(s: Store, now: int, h: Handle, id: string, c: Command)
    requires AllPlain(h.keys) && !c.Release? && c.ttl > 0
    ensures var (t, granted) := Run(s, now, h, id, c);
            || (forall k :: k in h.keys ==> k in t && t[k] == Entry(Text(id), now + c.ttl))
            || (t == s && !granted)
  {
    if c.Acquire? {
      Scripts.AcquireAllOrNothing(s, now, h.keys, id, c.ttl, "");
    } else {
      Scripts.ExtendAllOrNothing(s, now, h.keys, id, c.ttl);
    }
    if h.keys != [] {
      assert h.keys[0] in h.keys;
    }
  }

  /** What other clients keep: their live keys are untouched, and none becomes theirs. */
  lemma RunForeign(s: Store, now: int, h: Handle, id: string, c: Command, other: string, k: string)
    requires AllPlain(h.keys) && Plain(k) && other != id
    ensures var t := Run(s, now, h, id, c).0;
            && (Scripts.Owns(s, now, k, other) ==> k in t && t[k] == s[k])
            && (Scripts.Owns(t, now, k, other) ==> Scripts.Owns(s, now, k, other))
  {
    var ttl := if c.Release? then 1 else c.ttl;
    if Scripts.Owns(s, now, k, other) {
      Scripts.ForeignLocksUntouched(s, now, h.keys, id, ttl, "", k);
    }
    Scripts.LockKeysAt(s, h.keys, id, now + ttl, "", k);
    Scripts.ExtendKeysAt(s, now, h.keys, id, now + ttl, k);
    Scripts.ReleaseAt(s, now, h.keys, id, k);
  }

  lemma RunRelease(s: Store, now: int, h: Handle, id: string, k: string)
    requires AllPlain(h.keys) && k in h.keys
    ensures !Scripts.Owns(Run(s, now, h, id, Release).0, now, k, id)
  {
    Scripts.ReleaseAt(s, now, h.keys, id, k);
  }

  // ---- Every step keeps the invariant --------------------------------------------------

  lemma SuffixNoRelease(log: seq<Command>, c: Command, from: int, to: int)
    requires 0 <= from && to <= |log|
    ensures NoRelease(log + [c], from, to) <==> NoRelease(log, from, to)
  {
    assert forall m :: 0 <= m < |log| ==> (log + [c])[m] == log[m];
  }

  lemma IssueWellFormed(rate: real, n: nat, now: real, h: Handle, c: Command)
    requires WellFormed(rate, n, now, h)
    requires !c.Release? ==> c.start as real <= now && c.ttl > 0 && c.drift >= Drift(rate, c.ttl)
    ensures WellFormed(rate, n, now, Issue(h, c))
  {
  }

  /** Issuing keeps this when the command is a release, opens a session after a release, or
      reaches what was promised. */
  lemma IssueRising(rate: real, h: Handle, c: Command, promised: int)
    requires rate >= 0.0 && Rising(rate, h)
    requires !c.Release? ==> Target(c) <= promised
    requires !c.Release? ==> h.log == [] || Last(h).Release? || (h.promised <= promised && Reaches(rate, c, h.promised))
    ensures Rising(rate, Issue(h, c).(promised := promised))
  {
    var g := Issue(h, c).(promised := promised);
    var n := |h.log|;
    forall p, q | 0 <= p < q < |g.log| && NoRelease(g.log, p, q + 1)
      ensures Reaches(rate, g.log[q], Target(g.log[p]))
    {
      assert !g.log[p].Release? && !g.log[q].Release?;
      SuffixNoRelease(h.log, c, p, if q < n then q + 1 else n);
      if q == n {
        assert g.log[n - 1] == h.log[n - 1];
        ReachesEarlier(rate, c, Target(h.log[p]), h.promised);
      }
    }
    forall p | 0 <= p < |g.log| && NoRelease(g.log, p, |g.log|)
      ensures Target(g.log[p]) <= g.promised
    {
      assert !g.log[p].Release? && !g.log[n].Release?;
      SuffixNoRelease(h.log, c, p, n);
      assert n > 0 ==> g.log[n - 1] == h.log[n - 1];
    }
  }

  lemma IssueNode(rate: real, n: nat, now: real, node: Node, j: int, id: string, h: Handle, c: Command)
    requires WellFormed(rate, n, now, h) && 0 <= j < n
    ensures SweptClean(node, j, id, h) ==> SweptClean(node, j, id, Issue(h, c))
    ensures GrantsBacked(rate, now, node, j, id, h) ==> GrantsBacked(rate, now, node, j, id, Issue(h, c))
  {
    var g := Issue(h, c);
    forall p | GrantsBacked(rate, now, node, j, id, h)
               && 0 <= p < |g.log| && j in g.granted[p] && NoRelease(g.log, p, g.next[j]) && p < g.next[j]
               && now < Target(g.log[p]) as real
      ensures Backs(rate, now, node, g.keys, id, Target(g.log[p]))
    {
      assert p < |h.log| && g.log[p] == h.log[p];
      SuffixNoRelease(h.log, c, p, h.next[j]);
    }
  }

  lemma RisingAlike(rate: real, h: Handle, g: Handle)
    requires g.log == h.log && g.promised == h.promised && Rising(rate, h)
    ensures Rising(rate, g)
  {
  }

  lemma IssueNodes(rate: real, s: State, id: string, h: Handle, c: Command, g: Handle)
    requires WellFormed(rate, |s.nodes|, s.now, h)
    requires g.keys == h.keys && g.log == h.log + [c] && g.next == h.next && g.granted == h.granted + [{}]
    ensures forall j :: 0 <= j < |s.nodes| && SweptClean(s.nodes[j], j, id, h) ==> SweptClean(s.nodes[j], j, id, g)
    ensures forall j :: 0 <= j < |s.nodes| && GrantsBacked(rate, s.now, s.nodes[j], j, id, h) ==>
              GrantsBacked(rate, s.now, s.nodes[j], j, id, g)
  {
    forall j | 0 <= j < |s.nodes|
      ensures SweptClean(s.nodes[j], j, id, h) ==> SweptClean(s.nodes[j], j, id, g)
      ensures GrantsBacked(rate, s.now, s.nodes[j], j, id, h) ==> GrantsBacked(rate, s.now, s.nodes[j], j, id, g)
    {
      IssueNode(rate, |s.nodes|, s.now, s.nodes[j], j, id, h, c);
    }
  }

  /** Issuing a command, with whatever it does to phase, session and promise. */
  lemma IssueKeepsHandle(rate: real, s: State, id: string, h: Handle, c: Command, g: Handle)
    requires rate >= 0.0 && Tidy(rate, s, id, h)
    requires !c.Release? ==>
               c.start as real <= s.now && c.ttl > 0 && c.drift >= Drift(rate, c.ttl) && Target(c) <= g.promised
    requires c.Release? ==> g.promised == h.promised
    requires g == Issue(h, c).(phase := g.phase, session := g.session, promised := g.promised)
    requires PhaseOk(|s.nodes|, g)
    ensures Tidy(rate, s, id, g)
    ensures Backed(rate, s, id, h)
            && (!c.Release? ==> h.log == [] || Last(h).Release?
                                || (h.promised <= g.promised && Reaches(rate, c, h.promised)))
            ==> Backed(rate, s, id, g)
  {
    hide GrantsBacked, SweptClean, Drift, PhaseOk, NoRelease, Rising, Reaches;
    IssueWellFormed(rate, |s.nodes|, s.now, h, c);
    IssueNodes(rate, s, id, h, c, g);
    if && Backed(rate, s, id, h)
       && (!c.Release? ==> h.log == [] || Last(h).Release? || (h.promised <= g.promised && Reaches(rate, c, h.promised)))
    {
      IssueRising(rate, h, c, g.promised);
      RisingAlike(rate, Issue(h, c).(promised := g.promised), g);
    }
  }

  /** The facts about nodes do not depend on acknowledgements, phase or promise. */
  lemma SameNodes(rate: real, s: State, id: string, h: Handle, g: Handle)
    requires g.keys == h.keys && g.log == h.log && g.next == h.next && g.granted == h.granted
    ensures forall j :: 0 <= j < |s.nodes| && SweptClean(s.nodes[j], j, id, h) ==> SweptClean(s.nodes[j], j, id, g)
    ensures forall j :: 0 <= j < |s.nodes| && GrantsBacked(rate, s.now, s.nodes[j], j, id, h) ==>
              GrantsBacked(rate, s.now, s.nodes[j], j, id, g)
  {
  }

  lemma AckKeepsHandle(rate: real, s: State, id: string, h: Handle, p: nat, j: int)
    requires Tidy(rate, s, id, h) && p < |h.log| && j in h.granted[p]
    ensures var g := h.(acked := h.acked[p := h.acked[p] + {j}]);
            Tidy(rate, s, id, g) && (Backed(rate, s, id, h) ==> Backed(rate, s, id, g))
  {
    hide GrantsBacked, SweptClean, Drift, NoRelease, Rising;
    var g := h.(acked := h.acked[p := h.acked[p] + {j}]);
    if Rising(rate, h) { RisingAlike(rate, h, g); }
    SameNodes(rate, s, id, h, g);
    Quorum.SubsetSize(h.acked[p], g.acked[p]);
  }

  /** A change of phase alone. */
  lemma PhaseKeepsHandle(rate: real, s: State, id: string, h: Handle, phase: Phase)
    requires Tidy(rate, s, id, h) && PhaseOk(|s.nodes|, h.(phase := phase))
    ensures var g := h.(phase := phase); Tidy(rate, s, id, g) && (Backed(rate, s, id, h) ==> Backed(rate, s, id, g))
  {
    hide GrantsBacked, SweptClean, Drift, NoRelease, PhaseOk, Rising;
    if Rising(rate, h) { RisingAlike(rate, h, h.(phase := phase)); }
    SameNodes(rate, s, id, h, h.(phase := phase));
  }

  lemma ShownAtMostTarget(rate: real, n: nat, now: real, h: Handle, p: nat)
    requires WellFormed(rate, n, now, h) && p < |h.log| && !h.log[p].Release?
    ensures Shown(h.flavour, h.log[p], now.Floor) <= Target(h.log[p])
  {
    assert h.log[p].start <= now.Floor;
  }

  lemma ActKeepsHandle(rate: real, s: State, id: string, h: Handle, act: Action)
    requires rate >= 0.0 && Tidy(rate, s, id, h) && CanAct(rate, |s.nodes|, s.now.Floor, h, act)
    ensures var g := Act(rate, |s.nodes|, s.now.Floor, h, act);
            && Tidy(rate, s, id, g)
            && (Backed(rate, s, id, h)
                && (act.ExtendLock? ==> Reaches(rate, Extend(s.now.Floor, act.ttl, act.drift), h.promised))
                ==> Backed(rate, s, id, g))
  {
    hide GrantsBacked, SweptClean, Drift, WellFormed, Rising, Reaches, Backed;
    var ms, n := s.now.Floor, |s.nodes|;
    var g := Act(rate, n, ms, h, act);
    assert ms as real <= s.now;
    match act
    case Attempt(ttl, drift) =>
      IssueKeepsHandle(rate, s, id, h, Acquire(ms, ttl, drift), g);
    case Fail =>
      IssueKeepsHandle(rate, s, id, h, Release, g);
    case ExtendLock(ttl, drift) =>
      SuffixNoRelease(h.log, Extend(ms, ttl, drift), h.session, |h.log|);
      IssueKeepsHandle(rate, s, id, h, Extend(ms, ttl, drift), g);
    case ReleaseLock =>
      IssueKeepsHandle(rate, s, id, h, Release, g);
    case Ack(p, j) =>
      AckKeepsHandle(rate, s, id, h, p, j);
    case Extended(p) =>
      ShownAtMostTarget(rate, n, s.now, h, p);
      PhaseKeepsHandle(rate, s, id, h, g.phase);
    case Win =>
      ShownAtMostTarget(rate, n, s.now, h, |h.log| - 1);
      PhaseKeepsHandle(rate, s, id, h, g.phase);
    case GiveUp =>
      PhaseKeepsHandle(rate, s, id, h, Abandoned);
  }

  lemma TickKeepsNode(rate: real, now: real, d: real, node: Node, advance: real, j: int, id: string, h: Handle)
    requires rate >= 0.0 && d > 0.0 && 0.0 <= advance <= (1.0 + rate) * d
    ensures var later := node.(clock := node.clock + advance);
            && (SweptClean(node, j, id, h) ==> SweptClean(later, j, id, h))
            && (GrantsBacked(rate, now, node, j, id, h) ==> GrantsBacked(rate, now + d, later, j, id, h))
  {
    hide Backs, Drift;
    var later := node.(clock := node.clock + advance);
    forall p | GrantsBacked(rate, now, node, j, id, h)
               && 0 <= p < |h.log| && p < |h.granted| && 0 <= j < |h.next|
               && j in h.granted[p] && NoRelease(h.log, p, h.next[j]) && p < h.next[j]
               && now + d < Target(h.log[p]) as real
      ensures Backs(rate, now + d, later, h.keys, id, Target(h.log[p]))
    {
      TickKeepsBacks(rate, now, d, node, advance, h.keys, id, Target(h.log[p]));
    }
    assert later.clock.Floor >= node.clock.Floor;
  }

  lemma TickKeepsHandle(rate: real, s: State, d: real, advance: seq<real>, id: string, h: Handle)
    requires rate >= 0.0 && Tidy(rate, s, id, h) && Enabled(rate, s, Tick(d, advance))
    ensures var t := Apply(rate, s, Tick(d, advance));
            Tidy(rate, t, id, h) && (Backed(rate, s, id, h) ==> Backed(rate, t, id, h))
  {
    hide GrantsBacked, SweptClean, Drift, Rising, PhaseOk;
    forall j | 0 <= j < |s.nodes|
      ensures var later := Ticked(s.nodes, advance)[j];
              && SweptClean(later, j, id, h)
              && (GrantsBacked(rate, s.now, s.nodes[j], j, id, h) ==> GrantsBacked(rate, s.now + d, later, j, id, h))
    {
      TickKeepsNode(rate, s.now, d, s.nodes[j], advance[j], j, id, h);
    }
  }

  // ---- A node executes a command -------------------------------------------------------

  lemma AdvanceWellFormed(rate: real, n: nat, now: real, h: Handle, j: int, granted: bool)
    requires WellFormed(rate, n, now, h) && 0 <= j < n && h.next[j] < |h.log|
    ensures WellFormed(rate, n, now, Advance(h, j, granted))
    ensures Rising(rate, h) ==> Rising(rate, Advance(h, j, granted))
    ensures PhaseOk(n, h) ==> PhaseOk(n, Advance(h, j, granted))
  {
    hide Drift, NoRelease;
    var g := Advance(h, j, granted);
    forall p | 0 <= p < |g.log| ensures g.acked[p] <= g.granted[p] {
      assert h.acked[p] <= h.granted[p] <= g.granted[p];
    }
  }

  /** The executing node, seen by the client whose command it was. */
  lemma OwnNode(rate: real, n: nat, now: real, node: Node, j: int, id: string, h: Handle, delivered: bool)
    requires rate >= 0.0 && WellFormed(rate, n, now, h) && Rising(rate, h) && 0 <= j < n && h.next[j] < |h.log|
    requires GrantsBacked(rate, now, node, j, id, h)
    ensures var (t, granted) := Run(node.store, node.clock.Floor, h, id, h.log[h.next[j]]);
            if delivered then GrantsBacked(rate, now, node.(store := t), j, id, Advance(h, j, granted))
            else GrantsBacked(rate, now, node, j, id, Advance(h, j, false))
  {
    hide Backs, Drift, Run, Reaches;
    var c := h.next[j];
    var cmd := h.log[c];
    var (t, voted) := Run(node.store, node.clock.Floor, h, id, cmd);
    var granted := delivered && voted;
    var g := Advance(h, j, granted);
    var after := if delivered then node.(store := t) else node;
    forall p | 0 <= p < |g.log| && j in g.granted[p] && NoRelease(g.log, p, g.next[j]) && p < g.next[j]
               && now < Target(g.log[p]) as real
      ensures Backs(rate, now, after, g.keys, id, Target(g.log[p]))
    {
      assert !g.log[p].Release? && !cmd.Release?;
      if p < c {
        assert j in h.granted[p] && NoRelease(h.log, p, c);
        assert Backs(rate, now, node, h.keys, id, Target(h.log[p]));
        assert Reaches(rate, cmd, Target(h.log[p]));
      } else {
        assert p == c;
        assert j !in h.granted[c];
        assert granted;
        ReachesOwnTarget(rate, cmd);
      }
      if delivered {
        RunOwn(node.store, node.clock.Floor, h, id, cmd);
        if forall k :: k in h.keys ==> k in t && t[k] == Entry(Text(id), node.clock.Floor + cmd.ttl) {
          SetBacks(rate, now, node, t, h.keys, id, cmd, Target(h.log[p]));
        }
      }
    }
  }

  lemma OwnSwept(rate: real, n: nat, now: real, node: Node, j: int, id: string, h: Handle, delivered: bool)
    requires WellFormed(rate, n, now, h) && 0 <= j < n && h.next[j] < |h.log|
    ensures var (t, granted) := Run(node.store, node.clock.Floor, h, id, h.log[h.next[j]]);
            if delivered then SweptClean(node.(store := t), j, id, Advance(h, j, granted))
            else SweptClean(node, j, id, Advance(h, j, false))
  {
    hide Drift;
    var c := h.next[j];
    assert j !in h.granted[c];
    if delivered && h.log[c].Release? {
      forall k | k in h.keys
        ensures !Scripts.Owns(Run(node.store, node.clock.Floor, h, id, Release).0, node.clock.Floor, k, id)
      {
        RunRelease(node.store, node.clock.Floor, h, id, k);
      }
    }
  }

  /** The executing node, seen by any other client. */
  lemma ForeignNode(rate: real, now: real, node: Node, j: int, id: string, h: Handle, c: Command, other: string, o: Handle)
    requires rate >= 0.0 && AllPlain(h.keys) && AllPlain(o.keys) && other != id
    ensures var after := node.(store := Run(node.store, node.clock.Floor, h, id, c).0);
            && (SweptClean(node, j, other, o) ==> SweptClean(after, j, other, o))
            && (GrantsBacked(rate, now, node, j, other, o) ==> GrantsBacked(rate, now, after, j, other, o))
  {
    hide Run, Drift;
    var after := node.(store := Run(node.store, node.clock.Floor, h, id, c).0);
    forall k | k in o.keys
      ensures Scripts.Owns(node.store, node.clock.Floor, k, other) ==> k in after.store && after.store[k] == node.store[k]
      ensures Scripts.Owns(after.store, node.clock.Floor, k, other) ==> Scripts.Owns(node.store, node.clock.Floor, k, other)
    {
      RunForeign(node.store, node.clock.Floor, h, id, c, other, k);
    }
    forall p | GrantsBacked(rate, now, node, j, other, o)
               && 0 <= p < |o.log| && p < |o.granted| && 0 <= j < |o.next|
               && j in o.granted[p] && NoRelease(o.log, p, o.next[j]) && p < o.next[j]
               && now < Target(o.log[p]) as real
      ensures Backs(rate, now, after, o.keys, other, Target(o.log[p]))
    {
      forall k | k in o.keys ensures k in after.store && after.store[k] == node.store[k] {
        BackedIsLive(rate, now, node, o.keys, other, Target(o.log[p]), k);
      }
    }
  }

  /** A node that executed nothing is seen as before. */
  lemma OtherNode(rate: real, now: real, node: Node, i: int, id: string, h: Handle, j: int, granted: bool)
    requires Lined(h) && 0 <= j < |h.next| && h.next[j] < |h.log| && i != j
    ensures var g := Advance(h, j, granted);
            && (SweptClean(node, i, id, h) ==> SweptClean(node, i, id, g))
            && (GrantsBacked(rate, now, node, i, id, h) ==> GrantsBacked(rate, now, node, i, id, g))
  {
    hide Backs, Drift;
  }

  lemma ExecuteKeepsOwn(rate: real, s: State, id: string, j: int, delivered: bool)
    requires rate >= 0.0 && AllTidy(rate, s) && Enabled(rate, s, Execute(id, j, delivered))
    ensures var t := Apply(rate, s, Execute(id, j, delivered));
            && Tidy(rate, t, id, t.handles[id])
            && (Backed(rate, s, id, s.handles[id]) ==> Backed(rate, t, id, t.handles[id]))
  {
    hide GrantsBacked, SweptClean, Drift, Run, Rising, PhaseOk;
    var t := Apply(rate, s, Execute(id, j, delivered));
    var h, g := s.handles[id], t.handles[id];
    var voted := Run(s.nodes[j].store, s.nodes[j].clock.Floor, h, id, h.log[h.next[j]]).1;
    AdvanceWellFormed(rate, |s.nodes|, s.now, h, j, delivered && voted);
    if Backed(rate, s, id, h) {
      OwnNode(rate, |s.nodes|, s.now, s.nodes[j], j, id, h, delivered);
    }
    OwnSwept(rate, |s.nodes|, s.now, s.nodes[j], j, id, h, delivered);
    forall i | 0 <= i < |t.nodes|
      ensures SweptClean(t.nodes[i], i, id, g)
      ensures Backed(rate, s, id, h) ==> GrantsBacked(rate, t.now, t.nodes[i], i, id, g)
    {
      if i != j {
        OtherNode(rate, s.now, s.nodes[i], i, id, h, j, delivered && voted);
      }
    }
  }

  lemma ExecuteKeepsOthers(rate: real, s: State, id: string, j: int, delivered: bool, other: string)
    requires rate >= 0.0 && AllTidy(rate, s) && Enabled(rate, s, Execute(id, j, delivered))
    requires other in s.handles && other != id
    ensures var t := Apply(rate, s, Execute(id, j, delivered)); var o := s.handles[other];
            Tidy(rate, t, other, o) && (Backed(rate, s, other, o) ==> Backed(rate, t, other, o))
  {
    hide GrantsBacked, SweptClean, Drift, Run, Rising;
    var h, o := s.handles[id], s.handles[other];
    assert Tidy(rate, s, id, h) && Tidy(rate, s, other, o);
    ForeignNode(rate, s.now, s.nodes[j], j, id, h, h.log[h.next[j]], other, o);
  }

  lemma FreshHandle(rate: real, s: State, step: Step)
    requires step.Start? && Enabled(rate, s, step)
    ensures var t := Apply(rate, s, step); var h := t.handles[step.id];
            Tidy(rate, t, step.id, h) && Backed(rate, t, step.id, h)
  {
  }

  /** Both depend on the nodes and the time only. */
  lemma SameState(rate: real, s: State, t: State, id: string, h: Handle)
    requires s.now == t.now && s.nodes == t.nodes
    ensures Tidy(rate, s, id, h) <==> Tidy(rate, t, id, h)
    ensures Backed(rate, s, id, h) <==> Backed(rate, t, id, h)
  {
  }

  /** Every step keeps every client tidy, and backed unless the step shortens. */
  lemma StepKeepsInv(rate: real, s: State, step: Step)
    requires rate >= 0.0 && AllTidy(rate, s) && Enabled(rate, s, step)
    ensures AllTidy(rate, Apply(rate, s, step))
    ensures AllBacked(rate, s) && !Shortens(rate, s, step) ==> AllBacked(rate, Apply(rate, s, step))
  {
    hide Tidy, Backed, Act, Run, Reaches;
    var t := Apply(rate, s, step);
    forall id | id in t.handles
      ensures Tidy(rate, t, id, t.handles[id])
      ensures AllBacked(rate, s) && !Shortens(rate, s, step) ==> Backed(rate, t, id, t.handles[id])
    {
      match step
      case Start(newcomer, keys, _) =>
        if id == newcomer { FreshHandle(rate, s, step); }
        else { SameState(rate, s, t, id, t.handles[id]); }
      case Client(who, act) =>
        SameState(rate, s, t, id, t.handles[id]);
        if id == who { ActKeepsHandle(rate, s, id, s.handles[id], act); }
      case Execute(who, j, delivered) =>
        if id == who { ExecuteKeepsOwn(rate, s, id, j, delivered); }
        else { ExecuteKeepsOthers(rate, s, who, j, delivered, id); }
      case Tick(d, advance) =>
        TickKeepsHandle(rate, s, d, advance, id, s.handles[id]);
    }
  }
}
