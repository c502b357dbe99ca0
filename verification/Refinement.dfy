/** The interleaved protocol and the code that runs in place are one: what the Redlock client does
    at a node is a step of the protocol, and what it returns is what the protocol lets it claim. */
module Refinement {
  import opened Wrappers
  import opened Keyspace
  import opened Timing
  import Quorum
  import Scripts = LockScripts
  import Client = InternalRedlock
  import Protocol = RedlockProtocol

  /** A client of the protocol that behaves like the internal Redlock. */
  predicate IsInternal(h: Protocol.Handle, keys: seq<string>) {
    h.keys == keys && h.flavour.InternalLock?
  }

  /** At every node an acquire, extend or release of the client leaves the keyspace that the
      protocol's step leaves, and votes when the step is granted and its answer arrives. */
  lemma NodeStepsAgree(s: Store, now: int, h: Protocol.Handle, keys: seq<string>, id: string, start: int, ttl: int,
                       drift: int, fate: Client.Fate)
    requires IsInternal(h, keys) && !fate.Undelivered?
    ensures var (t, granted) := Protocol.Run(s, now, h, id, Protocol.Acquire(start, ttl, drift));
            && Client.AcquiredAt(s, now, keys, id, ttl, fate) == t
            && (Client.VotedAt(s, now, keys, id, ttl, fate) <==> granted && fate.Delivered?)
    ensures var (t, granted) := Protocol.Run(s, now, h, id, Protocol.Extend(start, ttl, drift));
            && Client.ExtendedAt(s, now, keys, id, ttl, fate) == t
            && (Client.ExtendVoteAt(s, now, keys, id, ttl, fate) <==> granted && fate.Delivered?)
    ensures Client.ReleasedAt(s, now, keys, id, fate) == Protocol.Run(s, now, h, id, Protocol.Release).0
  {
    hide Scripts.Acquire, Scripts.Extend, Scripts.Release;
  }

  /** The client returns a lock exactly when the protocol lets the attempt win, and the lock
      shows the claim the protocol then holds. */
  lemma WinsAgree(rate: real, factor: real, n: nat, h: Protocol.Handle, keys: seq<string>, id: string, ttl: int,
                  start: int, elapsed: nat)
    requires IsInternal(h, keys) && Protocol.Lined(h) && |h.log| > 0 && h.phase.Acquiring?
    requires Protocol.Last(h) == Protocol.Acquire(start, ttl, Drift(factor, ttl))
    ensures var r := Client.Outcome(factor, keys, id, ttl, |h.acked[|h.log| - 1]|, n, start, elapsed);
            var ms := start + elapsed;
            && (r.Some? <==> Protocol.CanAct(rate, n, ms, h, Protocol.Win))
            && (r.Some? ==> Protocol.Act(rate, n, ms, h, Protocol.Win).phase
                              == Protocol.Held(r.value.validity, |h.log| - 1))
  {
    hide Drift;
  }

  /** An extension that the client reports as granted moves the protocol's claim to the
      expiration of the lock it returns, unless the claim was later already. */
  lemma ExtensionsAgree(rate: real, factor: real, n: nat, h: Protocol.Handle, keys: seq<string>, id: string, ttl: int,
                        start: int, elapsed: nat, p: nat)
    requires IsInternal(h, keys) && Protocol.Lined(h) && h.phase.Held? && h.session < p < |h.log|
    requires h.log[p] == Protocol.Extend(start, ttl, Drift(factor, ttl))
    ensures var r := Client.Outcome(factor, keys, id, ttl, |h.acked[p]|, n, start, elapsed);
            var ms := start + elapsed;
            && (r.Some? <==> Protocol.CanAct(rate, n, ms, h, Protocol.Extended(p)))
            && (r.Some? ==> Protocol.Act(rate, n, ms, h, Protocol.Extended(p)).phase.claim
                              == Protocol.Max(r.value.validity, h.phase.claim))
  {
    hide Drift;
  }

  /** The same for the toolkit: a positive reply is a vote, the expiration is dated from the
      attempt's start, and a lock already expired is not returned. */
  lemma ToolkitWinsAgree(rate: real, n: nat, ms: int, h: Protocol.Handle, ttl: int, drift: int, start: int)
    requires h.flavour.ToolkitLock? && Protocol.Lined(h) && |h.log| > 0 && h.phase.Acquiring?
    requires Protocol.Last(h) == Protocol.Acquire(start, ttl, drift)
    ensures Protocol.CanAct(rate, n, ms, h, Protocol.Win) <==>
              2 * |h.acked[|h.log| - 1]| > n && start + ttl - drift > ms
    ensures Protocol.CanAct(rate, n, ms, h, Protocol.Win) ==>
              Protocol.Act(rate, n, ms, h, Protocol.Win).phase == Protocol.Held(start + ttl - drift, |h.log| - 1)
  {
  }

  /** When a node grants the toolkit: at least one key was asked for, and none is held by
      another (acquire) or all are owned (extend). */
  lemma ToolkitGrantsIff(s: Store, now: int, h: Protocol.Handle, id: string, start: int, ttl: int, drift: int)
    requires h.flavour.ToolkitLock? && ttl > 0
    ensures Protocol.Run(s, now, h, id, Protocol.Acquire(start, ttl, drift)).1 <==>
              h.keys != [] && forall k :: k in h.keys ==> !Scripts.HeldByOther(s, now, k, id)
    ensures Protocol.Run(s, now, h, id, Protocol.Extend(start, ttl, drift)).1 <==>
              h.keys != [] && forall k :: k in h.keys ==> Scripts.Owns(s, now, k, id)
  {
    hide Scripts.HeldByOther, Scripts.Owns, Scripts.LockKeys, Scripts.ExtendKeys;
  }
}
