/** The quorum countdown latch: per node a count, a target and the set of events already
    counted, under three keys with their own deadlines. Event identifiers are numbered. */
module Latch {
  import opened Wrappers
  import Quorum

  type Event = int

  datatype Timed = Timed(value: int, deadline: int)

  /** `expiry` is None for a key that was never given one. */
  datatype Events = Events(ids: set<Event>, expiry: Option<int>)

  datatype Keys = Keys(count: Option<Timed>, target: Option<Timed>, events: Option<Events>)

  const NO_KEYS := Keys(None, None, None)

  /** `status`: 1 counted, 2 counted and complete, -2 counted before, -1 complete before,
      0 no such latch. */
  datatype Reply = Reply(remaining: int, status: int)

  datatype LatchStatus = LatchStatus(present: bool, remaining: int, target: int, completed: bool)

  // ---- What the scripts compute --------------------------------------------------------

  function TimedAt(t: Option<Timed>, now: int): Option<Timed> {
    if t.Some? && now <= t.value.deadline then t else None
  }

  function EventsAt(e: Option<Events>, now: int): Option<Events> {
    if e.Some? && (e.value.expiry.None? || now <= e.value.expiry.value) then e else None
  }

  /** The keys as a script finds them. */
  function Present(k: Keys, now: int): Keys {
    Keys(TimedAt(k.count, now), TimedAt(k.target, now), EventsAt(k.events, now))
  }

  function Counted(k: Keys): set<Event> {
    if k.events.Some? then k.events.value.ids else {}
  }

  function Create(k: Keys, now: int, count: int, ttl: int): (Keys, int) {
    var p := Present(k, now);
    if p.count.Some? then (p, 0)
    else (p.(count := Some(Timed(count, now + ttl)), target := Some(Timed(count, now + ttl))), 1)
  }

  function CountDown(k: Keys, now: int, e: Event): (Keys, Reply) {
    var p := Present(k, now);
    if p.count.None? then (p, Reply(-1, 0))
    else
      var current := p.count.value.value;
      if current <= 0 then (p, Reply(0, -1))
      else if e in Counted(p) then (p, Reply(current, -2))
      else
        var ttl := p.count.value.deadline - now;
        var expiry := if ttl > 0 then Some(now + ttl)
                      else if p.events.Some? then p.events.value.expiry else None;
        (p.(count := Some(p.count.value.(value := current - 1)), events := Some(Events(Counted(p) + {e}, expiry))),
         if current - 1 <= 0 then Reply(0, 2) else Reply(current - 1, 1))
  }

  function Status(k: Keys, now: int): LatchStatus {
    var p := Present(k, now);
    if p.count.None? then LatchStatus(false, 0, 0, false)
    else LatchStatus(true, p.count.value.value, if p.target.Some? then p.target.value.value else 0,
                     p.count.value.value <= 0)
  }

  // ---- The scripts, run in place on a node ---------------------------------------------

  class LatchNode {
    var keys: Keys
    var clock: int

    constructor (clock: int)
      ensures keys == NO_KEYS && this.clock == clock
    {
      keys := NO_KEYS;
      this.clock := clock;
    }

    method RunCreate(count: int, ttl: int) returns (reply: int)
      modifies this`keys
      ensures (keys, reply) == Create(old(keys), clock, count, ttl)
    {
      keys := Present(keys, clock);
      if keys.count.Some? {
        return 0;
      }
      keys := keys.(count := Some(Timed(count, clock + ttl)));
      keys := keys.(target := Some(Timed(count, clock + ttl)));
      return 1;
    }

    method RunCountDown(e: Event) returns (reply: Reply)
      modifies this`keys
      ensures (keys, reply) == CountDown(old(keys), clock, e)
    {
      keys := Present(keys, clock);
      if keys.count.None? {
        return Reply(-1, 0);
      }
      var currentCount := keys.count.value.value;
      if currentCount <= 0 {
        return Reply(0, -1);
      }
      if keys.events.Some? && e in keys.events.value.ids {
        return Reply(currentCount, -2);
      }
      var newCount := currentCount - 1;
      keys := keys.(count := Some(keys.count.value.(value := newCount)));
      if keys.events.Some? {
        keys := keys.(events := Some(keys.events.value.(ids := keys.events.value.ids + {e})));
      } else {
        assert {} + {e} == {e};
        keys := keys.(events := Some(Events({e}, None)));
      }
      var ttl := keys.count.value.deadline - clock;
      if ttl > 0 {
        keys := keys.(events := Some(keys.events.value.(expiry := Some(clock + ttl))));
      }
      if newCount <= 0 {
        return Reply(0, 2);
      }
      return Reply(newCount, 1);
    }
  }

  // ---- Runs over any number of lifetimes -------------------------------------------------

  /** `replies` are the countdown calls since the latch was last created, with the status
      each got; `stale` are the events that were recorded already when it was created. */
  datatype State = State(keys: Keys, now: int, replies: seq<(Event, int)>, stale: set<Event>)

  datatype Op =
    | DoCreate(count: int, ttl: int)
    | DoCountDown(e: Event)
    | Advance(d: nat)

  function Apply(s: State, op: Op): State {
    match op
    case DoCreate(count, ttl) =>
      var (k, r) := Create(s.keys, s.now, count, ttl);
      if r == 1 then State(k, s.now, [], Counted(k)) else s.(keys := k)
    case DoCountDown(e) =>
      var (k, r) := CountDown(s.keys, s.now, e);
      s.(keys := k, replies := s.replies + [(e, r.status)])
    case Advance(d) => s.(now := s.now + d)
  }

  function After(s: State, ops: seq<Op>): State {
    if ops == [] then s else Apply(After(s, ops[..|ops| - 1]), ops[|ops| - 1])
  }

  /** The strategy creates latches with a positive count and ttl only. */
  predicate Allowed(op: Op) {
    op.DoCreate? ==> op.count > 0 && op.ttl > 0
  }

  function WithStatus(replies: seq<(Event, int)>, status: int): nat {
    if replies == [] then 0
    else WithStatus(replies[..|replies| - 1], status) + if replies[|replies| - 1].1 == status then 1 else 0
  }

  predicate Counts(status: int) { status == 1 || status == 2 }

  /** The events that a reply says were counted. */
  function CountedBy(replies: seq<(Event, int)>): (s: set<Event>)
    ensures forall e :: e in s <==> exists i :: 0 <= i < |replies| && replies[i].0 == e && Counts(replies[i].1)
  {
    set i | 0 <= i < |replies| && Counts(replies[i].1) :: replies[i].0
  }

  /** A live latch: its keys belong together, and the recorded events are those it found and
      those it counted. A latch that is gone leaves events behind only without an expiry. */
  ghost predicate KeysOk(s: State) {
    var p := Present(s.keys, s.now);
    && (p.events.Some? && p.events.value.expiry.Some? ==>
          p.count.Some? && p.events.value.expiry.value == p.count.value.deadline)
    && (p.count.Some? ==>
          && p.target.Some? && p.target.value.deadline == p.count.value.deadline
          && p.target.value.value >= 1 && p.count.value.value >= 0
          && Counted(p) == s.stale + CountedBy(s.replies) && s.stale !! CountedBy(s.replies))
  }

  /** An event is refused or counted only once recorded, and -1 is only said at zero. */
  predicate ReplyOk(reply: (Event, int), recorded: set<Event>, count: int) {
    ((Counts(reply.1) || reply.1 == -2) && reply.0 in recorded) || (reply.1 == -1 && count == 0)
  }

  /** What the replies of the current lifetime say about a live latch. */
  ghost predicate RepliesMatch(s: State) {
    var p := Present(s.keys, s.now);
    p.count.Some? && p.target.Some? ==>
      && p.count.value.value + |CountedBy(s.replies)| == p.target.value.value
      && WithStatus(s.replies, 2) == (if p.count.value.value == 0 then 1 else 0)
      && WithStatus(s.replies, 1) + WithStatus(s.replies, 2) == |CountedBy(s.replies)|
      && (forall i :: 0 <= i < |s.replies| ==> ReplyOk(s.replies[i], Counted(p), p.count.value.value))
  }

  ghost predicate Inv(s: State) { KeysOk(s) && RepliesMatch(s) }

  /** What a countdown of a live latch does, as the next script sees it. */
  lemma CountDownPresent(s: State, e: Event)
    requires KeysOk(s) && Present(s.keys, s.now).count.Some?
    ensures var p := Present(s.keys, s.now); var (next, r) := CountDown(s.keys, s.now, e); var q := Present(next, s.now);
            var c := p.count.value.value;
            && q.count.Some? && q.count.value.deadline == p.count.value.deadline && q.target == p.target
            && (q.events.Some? && q.events.value.expiry.Some? ==>
                  q.events.value.expiry.value == p.count.value.deadline)
            && (if c > 0 && e !in Counted(p)
                then q.count.value.value == c - 1 && Counted(q) == Counted(p) + {e} && r.status == if c == 1 then 2 else 1
                else q.count.value.value == c && Counted(q) == Counted(p) && r.status == if c == 0 then -1 else -2)
  {
  }

  lemma StatusSnoc(replies: seq<(Event, int)>, e: Event, status: int)
    ensures forall s :: WithStatus(replies + [(e, status)], s) == WithStatus(replies, s) + if s == status then 1 else 0
  {
    assert (replies + [(e, status)])[..|replies|] == replies;
  }

  lemma CountedBySnoc(replies: seq<(Event, int)>, e: Event, status: int)
    ensures CountedBy(replies + [(e, status)]) == if Counts(status) then CountedBy(replies) + {e} else CountedBy(replies)
  {
    var r := replies + [(e, status)];
    assert forall i :: 0 <= i < |replies| ==> r[i] == replies[i];
    assert r[|replies|] == (e, status);
  }

  /** One more event, neither found nor counted before. */
  lemma OneMore(recorded: set<Event>, stale: set<Event>, counted: set<Event>, e: Event)
    requires recorded == stale + counted && stale !! counted && e !in recorded
    ensures recorded + {e} == stale + (counted + {e}) && stale !! counted + {e} && |counted + {e}| == |counted| + 1
  {
  }

  lemma CountDownKeepsKeys(s: State, e: Event)
    requires Inv(s) && Present(s.keys, s.now).count.Some?
    ensures KeysOk(Apply(s, DoCountDown(e)))
  {
    var p, r := Present(s.keys, s.now), CountDown(s.keys, s.now, e).1;
    CountDownPresent(s, e);
    CountedBySnoc(s.replies, e, r.status);
    hide CountDown, Present, CountedBy, Counted, RepliesMatch;
    if e !in Counted(p) {
      OneMore(Counted(p), s.stale, CountedBy(s.replies), e);
    }
  }

  /** A reply stays right when more is recorded and the count falls. */
  lemma ReplyStaysOk(reply: (Event, int), before: set<Event>, after: set<Event>, c: int, d: int)
    requires ReplyOk(reply, before, c) && before <= after && (c == 0 ==> d == 0)
    ensures ReplyOk(reply, after, d)
  {
  }

  lemma RepliesStayOk(s: State, e: Event)
    requires Inv(s) && Present(s.keys, s.now).count.Some?
    ensures var q := Present(CountDown(s.keys, s.now, e).0, s.now);
            forall i :: 0 <= i < |s.replies| ==> ReplyOk(s.replies[i], Counted(q), q.count.value.value)
    ensures var q := Present(CountDown(s.keys, s.now, e).0, s.now);
            ReplyOk((e, CountDown(s.keys, s.now, e).1.status), Counted(q), q.count.value.value)
  {
    CountDownPresent(s, e);
    var p, q := Present(s.keys, s.now), Present(CountDown(s.keys, s.now, e).0, s.now);
    hide CountDown, Present, CountedBy, Counted, WithStatus;
    forall i | 0 <= i < |s.replies| ensures ReplyOk(s.replies[i], Counted(q), q.count.value.value) {
      assert ReplyOk(s.replies[i], Counted(p), p.count.value.value);
      hide ReplyOk;
      ReplyStaysOk(s.replies[i], Counted(p), Counted(q), p.count.value.value, q.count.value.value);
    }
  }

  /** One countdown changes the three counts by the same. */
  lemma CountsMove(s: State, e: Event)
    requires Inv(s) && Present(s.keys, s.now).count.Some?
    ensures var p, status := Present(s.keys, s.now), CountDown(s.keys, s.now, e).1.status;
            var replies, q := s.replies + [(e, status)], Present(CountDown(s.keys, s.now, e).0, s.now);
            var d := p.count.value.value - (if q.count.Some? then q.count.value.value else 0);
            && q.count.Some? && q.target == p.target && 0 <= d <= p.count.value.value
            && |CountedBy(replies)| == |CountedBy(s.replies)| + d
            && WithStatus(replies, 1) + WithStatus(replies, 2) == WithStatus(s.replies, 1) + WithStatus(s.replies, 2) + d
            && WithStatus(replies, 2) == WithStatus(s.replies, 2) + (if d > 0 && q.count.value.value == 0 then 1 else 0)
  {
    var p, r := Present(s.keys, s.now), CountDown(s.keys, s.now, e).1;
    CountDownPresent(s, e);
    CountedBySnoc(s.replies, e, r.status);
    StatusSnoc(s.replies, e, r.status);
    hide CountDown, Present, CountedBy, Counted, WithStatus, RepliesMatch;
    if e !in Counted(p) {
      OneMore(Counted(p), s.stale, CountedBy(s.replies), e);
    }
  }

  lemma CountDownKeepsReplies(s: State, e: Event)
    requires Inv(s) && Present(s.keys, s.now).count.Some?
    ensures RepliesMatch(Apply(s, DoCountDown(e)))
  {
    CountsMove(s, e);
    RepliesStayOk(s, e);
    hide CountDown, Present, CountedBy, Counted, WithStatus, ReplyOk, KeysOk;
  }

  lemma BothKept(s: State)
    requires KeysOk(s) && RepliesMatch(s)
    ensures Inv(s)
  {
  }

  lemma CountDownKeepsInv(s: State, e: Event)
    requires Inv(s)
    ensures Inv(Apply(s, DoCountDown(e)))
  {
    if Present(s.keys, s.now).count.Some? {
      hide Inv, KeysOk, RepliesMatch, Apply;
      CountDownKeepsKeys(s, e);
      CountDownKeepsReplies(s, e);
      BothKept(Apply(s, DoCountDown(e)));
    }
  }

  lemma CreateKeepsInv(s: State, count: int, ttl: int)
    requires Inv(s) && count > 0 && ttl > 0
    ensures Inv(Apply(s, DoCreate(count, ttl)))
  {
    assert CountedBy([]) == {};
  }

  lemma TimeKeepsInv(s: State, d: nat)
    requires Inv(s)
    ensures Inv(Apply(s, Advance(d)))
  {
  }

  lemma {:induction false} RunKeepsInv(s: State, ops: seq<Op>)
    requires Inv(s) && forall i :: 0 <= i < |ops| ==> Allowed(ops[i])
    ensures Inv(After(s, ops))
  {
    hide Inv, Apply;
    if ops != [] {
      var k := |ops| - 1;
      RunKeepsInv(s, ops[..k]);
      var t := After(s, ops[..k]);
      match ops[k]
      case DoCreate(count, ttl) => CreateKeepsInv(t, count, ttl);
      case DoCountDown(e) => CountDownKeepsInv(t, e);
      case Advance(d) => TimeKeepsInv(t, d);
    }
  }

  predicate AllAllowed(ops: seq<Op>) {
    forall i :: 0 <= i < |ops| ==> Allowed(ops[i])
  }

  /** Any run of creations, countdowns and time on one node. */
  ghost predicate Reachable(s: State) {
    exists start: int, ops: seq<Op> :: AllAllowed(ops) && s == After(State(NO_KEYS, start, [], {}), ops)
  }

  lemma ReachableOk(s: State)
    requires Reachable(s)
    ensures Inv(s)
  {
    var start: int, ops: seq<Op> :| AllAllowed(ops) && s == After(State(NO_KEYS, start, [], {}), ops);
    RunKeepsInv(State(NO_KEYS, start, [], {}), ops);
  }

  /** In any reachable state of a live latch with target T and c to go: exactly T - c
      distinct events were counted in this lifetime, they and the ones the latch found are
      the recorded ones, and status 2 was returned once if c = 0 and never otherwise. */
  lemma LifetimeAccount(s: State)
    requires Reachable(s)
    ensures var st := Status(s.keys, s.now);
            st.present ==>
            && 0 <= st.remaining <= st.target && st.remaining + |CountedBy(s.replies)| == st.target
            && WithStatus(s.replies, 2) == (if st.remaining == 0 then 1 else 0)
            && WithStatus(s.replies, 1) + WithStatus(s.replies, 2) == |CountedBy(s.replies)|
            && Counted(Present(s.keys, s.now)) == s.stale + CountedBy(s.replies) && s.stale !! CountedBy(s.replies)
  {
    ReachableOk(s);
  }

  /** What a countdown answers: of a missing latch nothing, with status 0; of a live one how
      many events are still to come, after this one. */
  lemma CountDownReports(s: State, e: Event)
    requires Reachable(s)
    ensures var before, (k, reply) := Status(s.keys, s.now), CountDown(s.keys, s.now, e);
            var t := Apply(s, DoCountDown(e));
            if !before.present then reply == Reply(-1, 0) && !Status(t.keys, t.now).present
            else
              && reply.remaining == Status(t.keys, t.now).remaining
              && Status(t.keys, t.now) == before.(remaining := reply.remaining, completed := reply.remaining == 0)
              && before.remaining - reply.remaining == (if Counts(reply.status) then 1 else 0)
              && (reply.status == -1 <==> before.remaining == 0)
              && (reply.status == -2 <==> before.remaining > 0 && (e in CountedBy(s.replies) || e in s.stale))
              && (reply.status == 2 <==> before.remaining == 1 && reply.remaining == 0)
  {
    ReachableOk(s);
    if Present(s.keys, s.now).count.Some? {
      CountDownPresent(s, e);
    }
  }

  /** A latch created at T stands until T + ttl and no longer, however it is counted down. */
  lemma {:induction false} LatchStandsForItsTtl(s: State, count: int, ttl: int, ops: seq<Op>)
    requires Create(s.keys, s.now, count, ttl).1 == 1 && forall i :: 0 <= i < |ops| ==> !ops[i].DoCreate?
    ensures var t := After(Apply(s, DoCreate(count, ttl)), ops);
            && (t.keys.count.Some? ==>
                  t.keys.count.value.deadline == s.now + ttl && t.keys.target == Some(Timed(count, s.now + ttl)))
            && t.now >= s.now
            && (ttl >= 0 ==> (Status(t.keys, t.now).present <==> t.now <= s.now + ttl))
  {
    if ops != [] {
      LatchStandsForItsTtl(s, count, ttl, ops[..|ops| - 1]);
    }
  }

  // ---- What a new latch inherits ----------------------------------------------------------

  /** A new latch starts at its own count, and refuses exactly the events it finds recorded. */
  lemma NewLatchRefusesIff(s: State, count: int, ttl: int, e: Event)
    requires Reachable(s) && Create(s.keys, s.now, count, ttl).1 == 1 && count > 0 && ttl > 0
    ensures var t := Apply(s, DoCreate(count, ttl));
            && Status(t.keys, t.now) == LatchStatus(true, count, count, false)
            && t.replies == [] && t.stale == Counted(Present(s.keys, s.now))
            && CountDown(t.keys, t.now, e).1.status == (if e in t.stale then -2 else if count == 1 then 2 else 1)
  {
    ReachableOk(s);
  }

  /** The very last millisecond of a latch, when PTTL is 0, and its events key has no expiry:
      it was given none, or there is no such key yet. */
  predicate AtTheLastInstant(k: Keys, now: int) {
    var p := Present(k, now);
    && p.count.Some? && p.count.value.value > 0 && now == p.count.value.deadline
    && (p.events.None? || p.events.value.expiry.None?)
  }

  /** No event is recorded that would outlive the latch. */
  ghost predicate Clean(s: State) {
    var p := Present(s.keys, s.now);
    (p.events.Some? ==> p.events.value.expiry.Some?) && (p.count.Some? ==> s.stale == {})
  }

  /** Counting down leaves an event behind exactly at the last instant. */
  lemma CountDownKeepsCleanIff(s: State, e: Event)
    requires Inv(s) && Clean(s)
    ensures Clean(Apply(s, DoCountDown(e))) <==> !AtTheLastInstant(s.keys, s.now)
  {
  }

  predicate AvoidsLastInstants(start: int, ops: seq<Op>) {
    forall i :: 0 <= i < |ops| && ops[i].DoCountDown? ==>
      var s := After(State(NO_KEYS, start, [], {}), ops[..i]); !AtTheLastInstant(s.keys, s.now)
  }

  lemma CleanStep(s: State, op: Op)
    requires Inv(s) && Clean(s) && Allowed(op) && (op.DoCountDown? ==> !AtTheLastInstant(s.keys, s.now))
    ensures Clean(Apply(s, op))
  {
    if op.DoCountDown? {
      CountDownKeepsCleanIff(s, op.e);
    }
  }

  lemma {:induction false} CleanUntilLastInstant(start: int, ops: seq<Op>)
    requires AllAllowed(ops) && AvoidsLastInstants(start, ops)
    ensures Clean(After(State(NO_KEYS, start, [], {}), ops))
  {
    if ops != [] {
      var k := |ops| - 1;
      var s0 := State(NO_KEYS, start, [], {});
      forall i | 0 <= i < k && ops[..k][i].DoCountDown?
        ensures var s := After(s0, ops[..k][..i]); !AtTheLastInstant(s.keys, s.now)
      {
        assert ops[..k][..i] == ops[..i] && ops[..k][i] == ops[i];
      }
      CleanUntilLastInstant(start, ops[..k]);
      RunKeepsInv(s0, ops[..k]);
      CleanStep(After(s0, ops[..k]), ops[k]);
    }
  }

  /** So a latch inherits nothing unless an event was counted at a last instant before. */
  lemma NewLatchIsFresh(start: int, ops: seq<Op>, count: int, ttl: int)
    requires AllAllowed(ops) && AvoidsLastInstants(start, ops)
    ensures var s := After(State(NO_KEYS, start, [], {}), ops);
            Create(s.keys, s.now, count, ttl).1 == 1 ==> Apply(s, DoCreate(count, ttl)).stale == {}
  {
    CleanUntilLastInstant(start, ops);
    RunKeepsInv(State(NO_KEYS, start, [], {}), ops);
  }

  /** The event is recorded for good: its key has no expiry, and any latch still there is in
      its last millisecond or past it. */
  ghost predicate Left(s: State, e: Event) {
    && s.keys.events.Some? && s.keys.events.value.expiry.None? && e in s.keys.events.value.ids
    && (s.keys.count.Some? ==> s.keys.count.value.deadline <= s.now)
  }

  lemma {:induction false} LeftStays(s: State, ops: seq<Op>, e: Event)
    requires Left(s, e) && forall i :: 0 <= i < |ops| ==> !ops[i].DoCreate?
    ensures Left(After(s, ops), e)
  {
    if ops != [] {
      LeftStays(s, ops[..|ops| - 1], e);
    }
  }

  /** And conversely: an event counted at the last instant is refused as counted before by
      the next latch of that name, whenever that is created and whatever is counted until then. */
  lemma LastInstantEventIsRefused(s: State, e: Event, ops: seq<Op>, count: int, ttl: int)
    requires Inv(s) && AtTheLastInstant(s.keys, s.now) && count > 0 && ttl > 0
    requires forall i :: 0 <= i < |ops| ==> !ops[i].DoCreate?
    ensures Counts(CountDown(s.keys, s.now, e).1.status) <==> e !in Counted(Present(s.keys, s.now))
    ensures var t := After(Apply(s, DoCountDown(e)), ops);
            Create(t.keys, t.now, count, ttl).1 == 1 ==>
              var u := Apply(t, DoCreate(count, ttl)); CountDown(u.keys, u.now, e).1.status == -2
  {
    LeftStays(Apply(s, DoCountDown(e)), ops, e);
  }

  /** One such run: two to count, one counted in the last millisecond, and the latch made
      again a millisecond later. */
  lemma LastInstantEventLeaks(e: Event)
    ensures var ops := [DoCreate(2, 10), Advance(10), DoCountDown(e), Advance(1), DoCreate(2, 10)];
            var s := After(State(NO_KEYS, 0, [], {}), ops);
            && s.replies == [] && Status(s.keys, s.now).remaining == 2
            && CountDown(s.keys, s.now, e).1.status == -2
  {
    var a, b, c, d := DoCreate(2, 10), Advance(10), DoCountDown(e), Advance(1);
    var s0 := State(NO_KEYS, 0, [], {});
    assert [a, b, c, d, a][..4] == [a, b, c, d] && [a, b, c, d][..3] == [a, b, c];
    assert [a, b, c][..2] == [a, b] && [a, b][..1] == [a] && [a][..0] == [];
    assert After(s0, []) == s0;
    var s1 := Apply(s0, a);
    assert After(s0, [a]) == s1;
    var s2 := Apply(s1, b);
    assert After(s0, [a, b]) == s2;
    var s3 := Apply(s2, c);
    assert After(s0, [a, b, c]) == s3;
    assert s3.keys.events == Some(Events({} + {e}, None));
    var s4 := Apply(s3, d);
    assert After(s0, [a, b, c, d]) == s4;
  }

  // ---- Waiting for a latch ----------------------------------------------------------------

  /** A status that says "completed" means that as many distinct events as the target were
      counted in this lifetime. */
  lemma CompletedMeansCounted(s: State)
    requires Reachable(s)
    ensures Status(s.keys, s.now).completed ==> |CountedBy(s.replies)| == Status(s.keys, s.now).target >= 1
  {
    ReachableOk(s);
  }

  datatype AwaitResult = Completed | NotFound | TimedOut

  function Polled(s: State): LatchStatus { Status(s.keys, s.now) }

  lemma Vouched(s: State)
    requires Polled(s).completed
    ensures Reachable(s) ==> |CountedBy(s.replies)| == Polled(s).target >= 1
  {
    hide Reachable, CountedBy;
    if Reachable(s) {
      CompletedMeansCounted(s);
    }
  }

  /** How a wait goes on after the first look: polling, or listening for a message that comes
      in time or does not. */
  datatype Waiting = Polling | Listening(message: bool)

  /** `nodes[k]` is the node that the k-th status read asks, as it is then, and `clock[k]` the
      time checked after that read. The environment supplies enough of both for the deadline
      to pass, or for the three reads of a listener. A wait ends well only if at least as many
      distinct events as the latch's target were counted; a message alone is not enough. */
  method AwaitLatch(nodes: seq<State>, clock: seq<int>, deadline: int, waiting: Waiting)
    returns (r: AwaitResult, seen: nat)
    requires |clock| > 0 && |nodes| == |clock| + 1 && clock[|clock| - 1] >= deadline
    requires waiting.Listening? ==> |nodes| >= 3
    ensures 0 < seen <= |nodes|
    ensures r.Completed? <==> Polled(nodes[seen - 1]).completed
    ensures r.Completed? && Reachable(nodes[seen - 1]) ==>
              |CountedBy(nodes[seen - 1].replies)| == Polled(nodes[seen - 1]).target >= 1
    ensures forall k :: 0 <= k < seen - 1 ==> !Polled(nodes[k]).completed
    ensures r.NotFound? ==> !Polled(nodes[seen - 1]).present && (waiting.Polling? || seen == 1)
    ensures r.TimedOut? && waiting.Polling? ==> seen >= 2 && clock[seen - 2] >= deadline
    ensures r.TimedOut? && waiting.Listening? ==>
              seen == if clock[0] >= deadline then 1 else if waiting.message then 3 else 2
  {
    hide Status, Reachable;
    r, seen := TimedOut, 1;
    var status := Polled(nodes[0]);
    if !status.completed && !status.present { return NotFound, seen; }
    if status.completed {
      Vouched(nodes[0]);
      return Completed, seen;
    }
    if waiting.Listening? {
      if clock[0] >= deadline { return TimedOut, seen; }
      if waiting.message {
        status, seen := Polled(nodes[1]), 2;
      }
      if !status.completed {
        status, seen := Polled(nodes[seen]), seen + 1;
      }
    } else {
      var checks := 0;
      while clock[checks] < deadline
        invariant checks < |clock| && seen == checks + 1
        invariant forall k :: 0 <= k < seen ==> !Polled(nodes[k]).completed
        decreases |clock| - checks
      {
        status, seen := Polled(nodes[seen]), seen + 1;
        checks := checks + 1;
        if status.completed {
          Vouched(nodes[seen - 1]);
          return Completed, seen;
        }
        if !status.present { return NotFound, seen; }
      }
      status, seen := Polled(nodes[seen]), seen + 1;
    }
    if status.completed {
      Vouched(nodes[seen - 1]);
      r := Completed;
    }
  }

  // ---- Progress over a quorum --------------------------------------------------------------

  /** The node answered a countdown of e in this lifetime with a status other than 0. */
  predicate Accepted(s: State, e: Event) {
    exists i :: 0 <= i < |s.replies| && s.replies[i].0 == e && s.replies[i].1 != 0
  }

  function AcceptedOn(nodes: seq<State>, e: Event): (r: set<int>)
    ensures forall j :: j in r <==> 0 <= j < |nodes| && Accepted(nodes[j], e)
  {
    set j | 0 <= j < |nodes| && Accepted(nodes[j], e)
  }

  predicate LiveWithTarget(s: State, target: int) {
    Status(s.keys, s.now).present && Status(s.keys, s.now).target == target
  }

  /** While a node is not finished, an event it accepted was counted in this lifetime or is
      one the latch found recorded. */
  lemma AcceptedIsRecorded(s: State, e: Event)
    requires Reachable(s) && Status(s.keys, s.now).present && !Status(s.keys, s.now).completed && Accepted(s, e)
    ensures e in CountedBy(s.replies) || e in s.stale
  {
    ReachableOk(s);
    var i :| 0 <= i < |s.replies| && s.replies[i].0 == e && s.replies[i].1 != 0;
    assert Counts(s.replies[i].1) || s.replies[i].1 == -2;
  }

  /** Per node, the events of `done` it found recorded. */
  function Inherited(nodes: seq<State>, done: set<Event>): (r: seq<set<Event>>)
    ensures |r| == |nodes| && forall j :: 0 <= j < |nodes| ==> r[j] == nodes[j].stale * done
  {
    seq(|nodes|, j requires 0 <= j < |nodes| => nodes[j].stale * done)
  }

  /** Per node, those and the events it counted. */
  function Recorded(nodes: seq<State>, done: set<Event>): (r: seq<set<Event>>)
    ensures |r| == |nodes|
    ensures forall j :: 0 <= j < |nodes| ==> r[j] == CountedBy(nodes[j].replies) + nodes[j].stale * done
  {
    seq(|nodes|, j requires 0 <= j < |nodes| => CountedBy(nodes[j].replies) + nodes[j].stale * done)
  }

  lemma UnfinishedNode(s: State, target: int, inherited: set<Event>)
    requires Reachable(s) && LiveWithTarget(s, target) && !Status(s.keys, s.now).completed
    ensures |CountedBy(s.replies) + inherited| <= |inherited| + (target - 1) && target >= 1
  {
    hide Reachable;
    LifetimeAccount(s);
    var counted := CountedBy(s.replies);
    assert |counted + inherited| <= |counted| + |inherited|;
  }

  /** Unfinished nodes have counted fewer events than the target. */
  lemma UnfinishedBound(nodes: seq<State>, target: int, done: set<Event>)
    requires forall j :: 0 <= j < |nodes| ==>
               Reachable(nodes[j]) && LiveWithTarget(nodes[j], target) && !Status(nodes[j].keys, nodes[j].now).completed
    ensures Quorum.Pairs(Recorded(nodes, done)) <= Quorum.Pairs(Inherited(nodes, done)) + |nodes| * (target - 1)
  {
    hide Reachable, LiveWithTarget, Status, CountedBy, Quorum.Pairs;
    if |nodes| > 0 {
      var recorded, inherited := Recorded(nodes, done), Inherited(nodes, done);
      forall j | 0 <= j < |nodes| ensures |recorded[j]| <= |inherited[j]| + (target - 1) && target >= 1 {
        UnfinishedNode(nodes[j], target, nodes[j].stale * done);
      }
      assert |recorded[0]| <= |inherited[0]| + (target - 1);
      Quorum.PairsExceed(recorded, inherited, target - 1);
    }
  }

  /** Each event accepted by a quorum is recorded on a quorum, unless a node is finished. */
  lemma EveryEventRecorded(nodes: seq<State>, target: int, done: set<Event>, e: Event)
    requires forall j :: 0 <= j < |nodes| ==>
               Reachable(nodes[j]) && LiveWithTarget(nodes[j], target) && !Status(nodes[j].keys, nodes[j].now).completed
    requires e in done
    ensures Quorum.Holders(Recorded(nodes, done), e) >= |AcceptedOn(nodes, e)|
  {
    hide Reachable, Status, Accepted, CountedBy;
    forall j | j in AcceptedOn(nodes, e) ensures 0 <= j < |nodes| && e in Recorded(nodes, done)[j] {
      AcceptedIsRecorded(nodes[j], e);
    }
    Quorum.HoldersAtLeast(Recorded(nodes, done), e, AcceptedOn(nodes, e));
  }

  /** If the latch stands with target T on all N nodes and each event in `done` was accepted
      by a quorum Q, then some node has finished as soon as |done| * Q exceeds N * (T - 1)
      and the number of pairs of a node and an event of `done` it had found recorded; in
      particular as soon as it exceeds N * (T - 1), when no latch inherited any. */
  lemma QuorumProgress(nodes: seq<State>, target: int, done: set<Event>)
    requires forall j :: 0 <= j < |nodes| ==> Reachable(nodes[j]) && LiveWithTarget(nodes[j], target)
    requires forall e :: e in done ==> |AcceptedOn(nodes, e)| >= Quorum.Size(|nodes|)
    requires |done| * Quorum.Size(|nodes|) > |nodes| * (target - 1) + Quorum.Pairs(Inherited(nodes, done))
    ensures exists j :: 0 <= j < |nodes| && Status(nodes[j].keys, nodes[j].now).completed
  {
    if forall j :: 0 <= j < |nodes| ==> !Status(nodes[j].keys, nodes[j].now).completed {
      hide Reachable, LiveWithTarget, Status, AcceptedOn, Recorded, Inherited;
      var q := Quorum.Size(|nodes|);
      forall e | e in done ensures Quorum.Holders(Recorded(nodes, done), e) >= q {
        EveryEventRecorded(nodes, target, done, e);
      }
      Quorum.DoubleCount(Recorded(nodes, done), done, q);
      UnfinishedBound(nodes, target, done);
    }
  }
}
