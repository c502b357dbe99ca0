/** The circuit breaker. `execute` is split where it awaits the operation: an admission
    step, and later a settlement step, so operations in flight overlap state changes. */
module CircuitBreaker {
  import opened Wrappers
  import Quorum

  datatype CircuitState = Closed | Open | HalfOpen

  datatype Options = Options(failureThreshold: int, resetTimeout: int, maxRetries: int)

  predicate ValidOptions(o: Options) {
    o.failureThreshold > 0 && o.resetTimeout > 0 && o.maxRetries >= 0
  }

  datatype Breaker = Breaker(state: CircuitState, failureCount: int, consecutiveFailures: int, halfOpenProbes: int,
                             lastFailureTime: Option<int>, lastOpenTime: Option<int>, successCount: int,
                             totalOperations: int)

  const CLOSED := Breaker(Closed, 0, 0, 0, None, None, 0, 0)

  function ProbeLimit(o: Options): int {
    if o.maxRetries > 1 then o.maxRetries else 1
  }

  // ---- What the methods compute ---------------------------------------------------------

  /** A missing or zero open time never elapses. */
  predicate ResetDue(o: Options, b: Breaker, now: int) {
    b.lastOpenTime.Some? && b.lastOpenTime.value != 0 && now - b.lastOpenTime.value >= o.resetTimeout
  }

  function Checked(o: Options, b: Breaker, now: int): Breaker {
    if b.state.Open? && ResetDue(o, b, now) then b.(state := HalfOpen) else b
  }

  /** The part of `execute` before the operation starts. */
  function Admission(o: Options, b: Breaker, now: int): (Breaker, bool) {
    var c := Checked(o, b, now);
    if c.state.Open? then (c, false)
    else if c.state.HalfOpen? && c.halfOpenProbes >= ProbeLimit(o) then (c, false)
    else
      var d := if c.state.HalfOpen? then c.(halfOpenProbes := c.halfOpenProbes + 1) else c;
      (d.(totalOperations := d.totalOperations + 1), true)
  }

  function Opened(b: Breaker, now: int): Breaker {
    b.(state := Open, lastOpenTime := Some(now), halfOpenProbes := 0)
  }

  function Succeeded(b: Breaker): Breaker {
    if b.state.HalfOpen? then CLOSED
    else if b.state.Closed? then b.(successCount := b.successCount + 1, consecutiveFailures := 0)
    else b.(successCount := b.successCount + 1)
  }

  function Failed(o: Options, b: Breaker, now: int): Breaker {
    var c := b.(failureCount := b.failureCount + 1, consecutiveFailures := b.consecutiveFailures + 1,
                lastFailureTime := Some(now));
    if (c.state.Closed? && c.consecutiveFailures >= o.failureThreshold) || c.state.HalfOpen? then Opened(c, now) else c
  }

  // ---- The class ------------------------------------------------------------------------

  class CircuitBreaker {
    const options: Options
    var state: CircuitState
    var failureCount: int
    var consecutiveFailures: int
    var halfOpenProbes: int
    var lastFailureTime: Option<int>
    var lastOpenTime: Option<int>
    var successCount: int
    var totalOperations: int

    function Value(): Breaker
      reads this
    {
      Breaker(state, failureCount, consecutiveFailures, halfOpenProbes, lastFailureTime, lastOpenTime, successCount,
              totalOperations)
    }

    constructor (options: Options)
      requires ValidOptions(options)
      ensures this.options == options && Value() == CLOSED
    {
      this.options := options;
      state := Closed;
      failureCount, consecutiveFailures, halfOpenProbes := 0, 0, 0;
      lastFailureTime, lastOpenTime := None, None;
      successCount, totalOperations := 0, 0;
    }

    method CheckCircuitState(now: int)
      modifies this
      ensures Value() == Checked(options, old(Value()), now)
    {
      if state == Open && lastOpenTime.Some? && lastOpenTime.value != 0
         && now - lastOpenTime.value >= options.resetTimeout {
        state := HalfOpen;
      }
    }

    /** `execute` up to the start of the operation. */
    method Admit(now: int) returns (admitted: bool)
      modifies this
      ensures (Value(), admitted) == Admission(options, old(Value()), now)
    {
      CheckCircuitState(now);
      if state == Open {
        return false;
      }
      if state == HalfOpen {
        var limit := if options.maxRetries > 1 then options.maxRetries else 1;
        if halfOpenProbes >= limit {
          return false;
        }
        halfOpenProbes := halfOpenProbes + 1;
      }
      totalOperations := totalOperations + 1;
      return true;
    }

    method OpenCircuit(now: int)
      modifies this
      ensures Value() == Opened(old(Value()), now)
    {
      state := Open;
      lastOpenTime := Some(now);
      halfOpenProbes := 0;
    }

    method Reset()
      modifies this
      ensures Value() == CLOSED
    {
      state := Closed;
      failureCount := 0;
      consecutiveFailures := 0;
      halfOpenProbes := 0;
      successCount := 0;
      totalOperations := 0;
      lastFailureTime := None;
      lastOpenTime := None;
    }

    method OnSuccess()
      modifies this
      ensures Value() == Succeeded(old(Value()))
    {
      successCount := successCount + 1;
      if state == HalfOpen {
        Reset();
      } else if state == Closed {
        consecutiveFailures := 0;
      }
    }

    method OnFailure(now: int)
      modifies this
      ensures Value() == Failed(options, old(Value()), now)
    {
      failureCount := failureCount + 1;
      consecutiveFailures := consecutiveFailures + 1;
      lastFailureTime := Some(now);
      if state == Closed && consecutiveFailures >= options.failureThreshold {
        OpenCircuit(now);
      } else if state == HalfOpen {
        OpenCircuit(now);
      }
    }

    method IsOperationAllowed(now: int) returns (allowed: bool)
      modifies this
      ensures Value() == Checked(options, old(Value()), now) && allowed == !Value().state.Open?
    {
      CheckCircuitState(now);
      return state != Open;
    }
  }

  // ---- The breaker with its operations in flight -------------------------------------------

  /** `probe` is the half-open phase an operation was admitted in, if it was one. */
  datatype InFlight = InFlight(probe: Option<nat>)

  /** `phase` counts the half-open phases so far; `trail` lists how operations settled since
      the breaker last became closed, while it was. Since its last reset `calls` operations
      were admitted, `settled` lists how any of them ended, and the last failure was at
      `failedAt` and the last opening at `openedAt`. */
  datatype System = System(breaker: Breaker, inFlight: map<int, InFlight>, phase: nat, trail: seq<bool>,
                           calls: nat, settled: seq<bool>, failedAt: Option<int>, openedAt: Option<int>)

  datatype Event =
    | Call(op: int, now: int)
    | Settle(op: int, ok: bool, now: int)
    | Query(now: int)
    | ManualReset

  const INITIAL := System(CLOSED, map[], 0, [], 0, [], None, None)

  function WasReset(s: System): System {
    s.(trail := [], calls := 0, settled := [], failedAt := None, openedAt := None)
  }

  /** Bookkeeping when the breaker moves from s.breaker to b. */
  function Moved(s: System, b: Breaker): System {
    var t := s.(breaker := b, phase := if b.state.HalfOpen? && !s.breaker.state.HalfOpen? then s.phase + 1 else s.phase);
    if b.state.Closed? && !s.breaker.state.Closed? then WasReset(t) else t
  }

  /** An operation has one name for life; a settlement of an unknown one changes nothing. */
  function Apply(o: Options, s: System, e: Event): System {
    match e
    case Call(op, now) =>
      if op in s.inFlight then s
      else
        var (b, admitted) := Admission(o, s.breaker, now);
        var t := Moved(s, b);
        if admitted then t.(calls := t.calls + 1,
                            inFlight := t.inFlight[op := InFlight(if b.state.HalfOpen? then Some(t.phase) else None)])
        else t
    case Settle(op, ok, now) =>
      if op !in s.inFlight then s
      else
        var b := if ok then Succeeded(s.breaker) else Failed(o, s.breaker, now);
        var t := Moved(s.(trail := if s.breaker.state.Closed? then s.trail + [ok] else s.trail,
                          settled := s.settled + [ok], failedAt := if ok then s.failedAt else Some(now),
                          openedAt := if b.state.Open? && !s.breaker.state.Open? then Some(now) else s.openedAt), b);
        t.(inFlight := t.inFlight - {op})
    case Query(now) => Moved(s, Checked(o, s.breaker, now))
    case ManualReset => WasReset(Moved(s, CLOSED))
  }

  function After(o: Options, events: seq<Event>): System {
    if events == [] then INITIAL else Apply(o, After(o, events[..|events| - 1]), events[|events| - 1])
  }

  /** The run of failures that the trail ends with. */
  function TrailingFailures(trail: seq<bool>): nat {
    if trail == [] || trail[|trail| - 1] then 0 else TrailingFailures(trail[..|trail| - 1]) + 1
  }

  /** The operations in flight that were admitted in the current half-open phase. */
  function Probes(s: System): set<int> {
    set op | op in s.inFlight && s.inFlight[op].probe == Some(s.phase)
  }

  ghost predicate Inv(o: Options, s: System) {
    && (forall op :: op in s.inFlight && s.inFlight[op].probe.Some? ==> s.inFlight[op].probe.value <= s.phase)
    && match s.breaker.state
       case Closed =>
         s.breaker.halfOpenProbes == 0
         && s.breaker.consecutiveFailures == TrailingFailures(s.trail) < o.failureThreshold
       case Open => s.breaker.halfOpenProbes == 0 && s.breaker.lastOpenTime.Some?
       case HalfOpen => s.breaker.halfOpenProbes == |Probes(s)| <= ProbeLimit(o)
  }

  lemma TrailSnoc(trail: seq<bool>, ok: bool)
    ensures TrailingFailures(trail + [ok]) == if ok then 0 else TrailingFailures(trail) + 1
  {
    assert (trail + [ok])[..|trail|] == trail;
  }

  /** A phase that has not begun admitted nothing yet. */
  lemma NoOldProbes(s: System, phase: nat)
    requires forall op :: op in s.inFlight && s.inFlight[op].probe.Some? ==> s.inFlight[op].probe.value <= s.phase
    requires phase > s.phase
    ensures forall op :: op in s.inFlight ==> s.inFlight[op].probe != Some(phase)
  {
  }

  lemma CallKeepsInv(o: Options, s: System, op: int, now: int)
    requires ValidOptions(o) && Inv(o, s)
    ensures Inv(o, Apply(o, s, Call(op, now)))
  {
    hide TrailingFailures;
    var t := Apply(o, s, Call(op, now));
    if op !in s.inFlight && t.breaker.state.HalfOpen? {
      if op !in t.inFlight {
        assert Probes(t) == Probes(s);
      } else if s.breaker.state.HalfOpen? {
        assert Probes(t) == Probes(s) + {op};
      } else {
        NoOldProbes(s, t.phase);
        Quorum.SameMembers(Probes(t), {op});
      }
    }
  }

  lemma SettleKeepsInv(o: Options, s: System, op: int, ok: bool, now: int)
    requires ValidOptions(o) && Inv(o, s)
    ensures Inv(o, Apply(o, s, Settle(op, ok, now)))
    ensures op in s.inFlight ==> !Apply(o, s, Settle(op, ok, now)).breaker.state.HalfOpen?
  {
    hide Probes;
    TrailSnoc(s.trail, ok);
  }

  lemma QueryKeepsInv(o: Options, s: System, now: int)
    requires ValidOptions(o) && Inv(o, s)
    ensures Inv(o, Apply(o, s, Query(now)))
  {
    var t := Apply(o, s, Query(now));
    if t.breaker.state.HalfOpen? {
      if s.breaker.state.HalfOpen? {
        assert Probes(t) == Probes(s);
      } else {
        NoOldProbes(s, t.phase);
        Quorum.SameMembers(Probes(t), {});
      }
    }
  }

  lemma StepKeepsInv(o: Options, s: System, e: Event)
    requires ValidOptions(o) && Inv(o, s)
    ensures Inv(o, Apply(o, s, e))
  {
    match e
    case Call(op, now) => CallKeepsInv(o, s, op, now);
    case Settle(op, ok, now) => SettleKeepsInv(o, s, op, ok, now);
    case Query(now) => QueryKeepsInv(o, s, now);
    case ManualReset =>
  }

  lemma InitialInv(o: Options)
    requires ValidOptions(o)
    ensures Inv(o, INITIAL)
  {
  }

  lemma {:induction false} RunKeepsInv(o: Options, events: seq<Event>)
    requires ValidOptions(o)
    ensures Inv(o, After(o, events))
  {
    hide Inv, Apply;
    if events == [] {
      assert Inv(o, INITIAL) by { InitialInv(o); }
    } else {
      RunKeepsInv(o, events[..|events| - 1]);
      StepKeepsInv(o, After(o, events[..|events| - 1]), events[|events| - 1]);
    }
  }

  // ---- Theorems ---------------------------------------------------------------------------

  /** The probe counter is exact: outside half-open it is zero; in half-open it is the
      number of operations still in flight that this phase admitted, within the limit. */
  lemma ProbesAreExact(o: Options, events: seq<Event>)
    requires ValidOptions(o)
    ensures var s := After(o, events);
            if s.breaker.state.HalfOpen? then s.breaker.halfOpenProbes == |Probes(s)| <= ProbeLimit(o)
            else s.breaker.halfOpenProbes == 0
  {
    RunKeepsInv(o, events);
  }

  /** The breaker never wedges: when the half-open gate is full, some operation admitted in
      this phase is still in flight, and its settlement, like any other, ends the phase. */
  lemma FullGateHasAnExit(o: Options, events: seq<Event>, now: int) returns (op: int)
    requires ValidOptions(o) && After(o, events).breaker.state.HalfOpen?
    requires After(o, events).breaker.halfOpenProbes >= ProbeLimit(o)
    ensures op in Probes(After(o, events))
    ensures forall ok :: !After(o, events + [Settle(op, ok, now)]).breaker.state.HalfOpen?
  {
    RunKeepsInv(o, events);
    var s := After(o, events);
    op := Quorum.SomeMember(Probes(s));
    forall ok ensures !After(o, events + [Settle(op, ok, now)]).breaker.state.HalfOpen? {
      assert (events + [Settle(op, ok, now)])[..|events|] == events;
    }
  }

  /** The breaker trips exactly: a closed breaker opens on an event if and only if that
      event is a failed settlement that brings the trailing run of failures since the last
      success or closing to the threshold. */
  lemma TripsExactly(o: Options, events: seq<Event>, e: Event)
    requires ValidOptions(o) && After(o, events).breaker.state.Closed?
    ensures var s := After(o, events);
            !After(o, events + [e]).breaker.state.Closed? <==>
              e.Settle? && e.op in s.inFlight && !e.ok && TrailingFailures(s.trail) + 1 == o.failureThreshold
    ensures !After(o, events + [e]).breaker.state.HalfOpen?
  {
    RunKeepsInv(o, events);
    assert (events + [e])[..|events|] == events;
  }

  /** An open breaker stays open through every settlement, stale or not: only a manual reset
      closes it, and only a call or query after the reset timeout makes it half-open. */
  lemma OpenIsLeftOnlyInTime(o: Options, events: seq<Event>, e: Event)
    requires ValidOptions(o) && After(o, events).breaker.state.Open?
    ensures After(o, events).breaker.lastOpenTime.Some?
    ensures var s, t := After(o, events), After(o, events + [e]);
            && (t.breaker.state.Closed? <==> e.ManualReset?)
            && (t.breaker.state.HalfOpen? <==>
                  ((e.Call? && e.op !in s.inFlight) || e.Query?) && s.breaker.lastOpenTime.value != 0
                  && e.now - s.breaker.lastOpenTime.value >= o.resetTimeout)
            && (t.breaker.state.Open? ==> t.breaker.lastOpenTime == s.breaker.lastOpenTime)
  {
    RunKeepsInv(o, events);
    assert (events + [e])[..|events|] == events;
  }

  /** An event that finds the breaker's reset timeout over since time `tripped`. */
  predicate TimeoutOver(o: Options, e: Event, tripped: int) {
    (e.Call? || e.Query?) && e.now - tripped >= o.resetTimeout
  }

  /** Over a whole run: once the failure `trip` has opened the breaker, and nobody
      resets it by hand, it stays open until some call or query comes with the reset timeout
      over, however many stale operations succeed or fail meanwhile. */
  lemma {:induction false} OpenUntilTimeout(o: Options, events: seq<Event>, trip: Event, more: seq<Event>)
    requires ValidOptions(o)
    requires !After(o, events).breaker.state.Open? && After(o, events + [trip]).breaker.state.Open?
    requires forall i :: 0 <= i < |more| ==> !more[i].ManualReset?
    ensures trip.Settle? && !trip.ok
    ensures var b := After(o, events + [trip] + more).breaker;
            || (b.state.Open? && b.lastOpenTime == Some(trip.now))
            || (trip.now != 0 && exists i :: 0 <= i < |more| && TimeoutOver(o, more[i], trip.now))
  {
    assert (events + [trip])[..|events|] == events;
    if more == [] {
      assert events + [trip] + more == events + [trip];
    } else {
      var k := |more| - 1;
      var front := events + [trip] + more[..k];
      OpenUntilTimeout(o, events, trip, more[..k]);
      if i :| 0 <= i < k && TimeoutOver(o, more[..k][i], trip.now) {
        assert more[i] == more[..k][i];
      }
      assert events + [trip] + more == front + [more[k]];
      if After(o, front).breaker.state.Open? {
        OpenIsLeftOnlyInTime(o, front, more[k]);
      }
    }
  }

  /** An operation is admitted exactly when the breaker is closed, or open with its timeout over,
      or half-open with fewer than max(1, maxRetries) of this phase's operations in flight. An
      operation admitted when not closed is a probe of the phase. */
  lemma AdmittedIff(o: Options, events: seq<Event>, op: int, now: int)
    requires ValidOptions(o) && op !in After(o, events).inFlight
    ensures var s, t := After(o, events), After(o, events + [Call(op, now)]);
            && (op in t.inFlight <==>
                  match s.breaker.state
                  case Closed => true
                  case Open => s.breaker.lastOpenTime.Some? && s.breaker.lastOpenTime.value != 0
                               && now - s.breaker.lastOpenTime.value >= o.resetTimeout
                  case HalfOpen => |Probes(s)| < (if o.maxRetries >= 1 then o.maxRetries else 1))
            && (op in t.inFlight && !s.breaker.state.Closed? ==> t.breaker.state.HalfOpen? && op in Probes(t))
            && (s.breaker.state.Closed? ==> t.breaker.state.Closed?)
            && t.inFlight.Keys <= s.inFlight.Keys + {op} && s.inFlight.Keys <= t.inFlight.Keys
  {
    RunKeepsInv(o, events);
    assert (events + [Call(op, now)])[..|events|] == events;
  }

  /** In half-open the next settlement decides: a success closes the breaker, a failure opens it
      again from that moment. */
  lemma ProbeDecides(o: Options, events: seq<Event>, op: int, ok: bool, now: int)
    requires ValidOptions(o) && op in After(o, events).inFlight && After(o, events).breaker.state.HalfOpen?
    ensures var b := After(o, events + [Settle(op, ok, now)]).breaker;
            if ok then b.state.Closed? else b.state.Open? && b.lastOpenTime == Some(now)
  {
    assert (events + [Settle(op, ok, now)])[..|events|] == events;
  }

  lemma RefusesUntilTimeout(o: Options, events: seq<Event>, e: Event)
    requires ValidOptions(o) && After(o, events).breaker.state.Open? && !e.ManualReset?
    requires After(o, events).breaker.lastOpenTime.Some? && !TimeoutOver(o, e, After(o, events).breaker.lastOpenTime.value)
    ensures After(o, events + [e]).inFlight.Keys <= After(o, events).inFlight.Keys
  {
    assert (events + [e])[..|events|] == events;
    hide TrailingFailures, Probes;
    if e.Call? && e.op !in After(o, events).inFlight {
      AdmittedIff(o, events, e.op, e.now);
    }
  }

  /** From the failure that trips the breaker until the timeout is over nothing goes through to
      the protected client. */
  lemma {:induction false} NothingEntersUntilTimeout(o: Options, events: seq<Event>, trip: Event, more: seq<Event>)
    requires ValidOptions(o)
    requires !After(o, events).breaker.state.Open? && After(o, events + [trip]).breaker.state.Open?
    requires forall i :: 0 <= i < |more| ==> !more[i].ManualReset? && !TimeoutOver(o, more[i], trip.now)
    ensures After(o, events + [trip] + more).inFlight.Keys <= After(o, events + [trip]).inFlight.Keys
  {
    hide Apply, TimeoutOver, Probes;
    if more == [] {
      assert events + [trip] + more == events + [trip];
    } else {
      var k := |more| - 1;
      var front := events + [trip] + more[..k];
      assert forall i :: 0 <= i < k ==> more[..k][i] == more[i];
      NothingEntersUntilTimeout(o, events, trip, more[..k]);
      OpenUntilTimeout(o, events, trip, more[..k]);
      assert events + [trip] + more == front + [more[k]];
      assert (front + [more[k]])[..|front|] == front;
      assert !TimeoutOver(o, more[k], trip.now);
      RefusesUntilTimeout(o, front, more[k]);
    }
  }

  function Occurrences(settled: seq<bool>, ok: bool): nat {
    if settled == [] then 0
    else Occurrences(settled[..|settled| - 1], ok) + if settled[|settled| - 1] == ok then 1 else 0
  }

  ghost predicate MetricsMatch(s: System) {
    && s.breaker.totalOperations == s.calls
    && s.breaker.successCount == Occurrences(s.settled, true)
    && s.breaker.failureCount == Occurrences(s.settled, false)
    && s.breaker.lastFailureTime == s.failedAt && s.breaker.lastOpenTime == s.openedAt
  }

  lemma NothingHappened()
    ensures MetricsMatch(INITIAL)
  {
  }

  lemma OneMoreOccurrence(settled: seq<bool>, ok: bool)
    ensures forall b :: Occurrences(settled + [ok], b) == Occurrences(settled, b) + if b == ok then 1 else 0
  {
    assert (settled + [ok])[..|settled|] == settled;
  }

  lemma NoOccurrences()
    ensures Occurrences([], true) == 0 && Occurrences([], false) == 0
  {
  }

  lemma SettleMetrics(o: Options, s: System, op: int, ok: bool, now: int)
    requires MetricsMatch(s)
    ensures MetricsMatch(Apply(o, s, Settle(op, ok, now)))
  {
    NoOccurrences();
    OneMoreOccurrence(s.settled, ok);
    hide Occurrences;
  }

  lemma CallMetrics(o: Options, s: System, op: int, now: int)
    requires MetricsMatch(s)
    ensures MetricsMatch(Apply(o, s, Call(op, now)))
  {
    NoOccurrences();
    hide Occurrences;
  }

  lemma MetricsStep(o: Options, s: System, e: Event)
    requires MetricsMatch(s)
    ensures MetricsMatch(Apply(o, s, e))
  {
    match e
    case Settle(op, ok, now) => SettleMetrics(o, s, op, ok, now);
    case Call(op, now) => CallMetrics(o, s, op, now);
    case _ =>
      NoOccurrences();
      hide Occurrences;
  }

  /** The metrics count what happened since the last reset, whatever state it happened in. */
  lemma {:induction false} MetricsCount(o: Options, events: seq<Event>)
    ensures MetricsMatch(After(o, events))
  {
    hide MetricsMatch, Apply;
    if events == [] {
      assert MetricsMatch(INITIAL) by { NothingHappened(); }
    } else {
      MetricsCount(o, events[..|events| - 1]);
      MetricsStep(o, After(o, events[..|events| - 1]), events[|events| - 1]);
    }
  }
}
