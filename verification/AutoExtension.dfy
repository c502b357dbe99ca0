/** Automatic extension of a held lock: a timer, one extension in flight, and a stop.
    Times are whole milliseconds. */
module AutoExtension {
  import opened Wrappers
  import opened Timing

  /** `timer` is the due time of the scheduled check, `inFlight` the start of the extension
      being awaited, `signal` whether the started cycle has been aborted. */
  datatype Manager = Manager(timer: Option<int>, inFlight: Option<int>, signal: Option<bool>, expiration: int,
                             extensions: nat, stopped: bool)

  datatype Outcome = Granted(expiration: int) | Refused | Threw

  // ---- What the methods compute ---------------------------------------------------------

  function Max0(x: int): int { if x > 0 then x else 0 }

  function Scheduled(m: Manager, threshold: int, now: int): Manager {
    if m.stopped then m else m.(timer := Some(now + Max0(Max0(m.expiration - now) - threshold)))
  }

  /** `start`; nothing when a cycle is already running. */
  function Started(m: Manager, threshold: int, now: int): Option<Manager> {
    if m.signal.Some? then None
    else
      var n := m.(stopped := false, signal := Some(false));
      Some(if threshold > 0 then Scheduled(n, threshold, now) else n)
  }

  predicate Running(m: Manager) {
    !m.stopped && m.signal == Some(false)
  }

  /** The timer callback, and the extension up to the point where it awaits. */
  function Fired(m: Manager, now: int, lockValid: bool): Manager {
    var n := m.(timer := None);
    if !Running(n) || !lockValid then n
    else if n.expiration <= now then n.(signal := Some(true))
    else n.(inFlight := Some(now))
  }

  /** The rest of the extension; a pending stop then clears the signal. */
  function Settled(m: Manager, threshold: int, now: int, outcome: Outcome, lockValid: bool): Manager {
    var n := m.(inFlight := None);
    if n.stopped then n.(signal := None)
    else if !outcome.Granted? then n.(signal := if n.signal.Some? then Some(true) else None)
    else
      var g := n.(expiration := outcome.expiration, extensions := n.extensions + 1);
      if Running(g) && lockValid then Scheduled(g, threshold, now) else g
  }

  function StopRequested(m: Manager): Manager {
    var n := m.(stopped := true, timer := None);
    if n.inFlight.None? then n.(signal := None) else n
  }

  function ManuallyExtended(m: Manager, expiration: int): Manager {
    m.(expiration := expiration, extensions := m.extensions + 1)
  }

  // ---- The class ------------------------------------------------------------------------

  class AutoExtensionManager {
    const autoExtendThreshold: int
    var extensionTimer: Option<int>
    var extensionPromise: Option<int>
    var signal: Option<bool>
    var expiration: int
    var extensions: nat
    var stopped: bool

    function Value(): Manager
      reads this
    {
      Manager(extensionTimer, extensionPromise, signal, expiration, extensions, stopped)
    }

    constructor (autoExtendThreshold: int, expiration: int)
      ensures Value() == Manager(None, None, None, expiration, 0, false)
      ensures this.autoExtendThreshold == autoExtendThreshold
    {
      this.autoExtendThreshold := autoExtendThreshold;
      extensionTimer, extensionPromise, signal := None, None, None;
      this.expiration := expiration;
      extensions, stopped := 0, false;
    }

    method ScheduleNextExtension(now: int)
      modifies this`extensionTimer
      ensures Value() == Scheduled(old(Value()), autoExtendThreshold, now)
    {
      if stopped {
        return;
      }
      var timeUntilExtension := Max0(expiration - now) - autoExtendThreshold;
      extensionTimer := Some(now + Max0(timeUntilExtension));
    }

    /** Throws when already started, and then changes nothing. */
    method Start(now: int) returns (started: bool)
      modifies this
      ensures var next := Started(old(Value()), autoExtendThreshold, now);
              started == next.Some? && Value() == if next.Some? then next.value else old(Value())
    {
      if signal.Some? {
        return false;
      }
      stopped := false;
      signal := Some(false);
      if autoExtendThreshold > 0 {
        ScheduleNextExtension(now);
      }
      return true;
    }

    method Fire(now: int, lockValid: bool)
      modifies this
      ensures Value() == Fired(old(Value()), now, lockValid)
    {
      extensionTimer := None;
      if stopped || !lockValid {
        return;
      }
      if signal.None? || signal.value {
        return;
      }
      if expiration - now <= 0 {
        signal := Some(true);
        return;
      }
      extensionPromise := Some(now);
    }

    method Settle(now: int, outcome: Outcome, lockValid: bool)
      modifies this
      ensures Value() == Settled(old(Value()), autoExtendThreshold, now, outcome, lockValid)
    {
      extensionPromise := None;
      if stopped {
        signal := None;
        return;
      }
      if !outcome.Granted? {
        if signal.Some? {
          signal := Some(true);
        }
        return;
      }
      expiration := outcome.expiration;
      extensions := extensions + 1;
      if signal == Some(false) && lockValid {
        ScheduleNextExtension(now);
      }
    }

    method Stop()
      modifies this
      ensures Value() == StopRequested(old(Value()))
    {
      stopped := true;
      extensionTimer := None;
      if extensionPromise.None? {
        signal := None;
      }
    }

    method UpdateExpiration(expiration: int)
      modifies this
      ensures Value() == ManuallyExtended(old(Value()), expiration)
    {
      this.expiration := expiration;
      extensions := extensions + 1;
    }
  }

  // ---- A lock kept alive by the manager ---------------------------------------------------

  /** What the manager and manual calls of `extend` may ask for, how late a timer may fire, and
      how long an automatic and a manual extension may take. */
  datatype Config = Config(auto: Lease, threshold: int, lateness: nat, roundTrip: nat,
                           byHand: iset<Lease>, handTrip: nat)

  datatype State = State(manager: Manager, lockExpiration: int, now: int)

  datatype Event =
    | Tick
    | TimerFires
    | ExtensionGranted
    | ExtendedByHand(start: int, lease: Lease)

  predicate Valid(s: State) { s.now < s.lockExpiration }

  /** Time may pass only while no timer is overdue beyond the lateness and no extension
      beyond the round trip; every extension is granted, dated from its start. A manual
      extension may be answered at any time within its round trip, which may have begun
      before the cycle did, and may move the expiration either way. */
  ghost predicate Enabled(c: Config, s: State, e: Event) {
    match e
    case Tick =>
      && (s.manager.timer.Some? ==> s.now < s.manager.timer.value + c.lateness)
      && (s.manager.inFlight.Some? ==> s.now < s.manager.inFlight.value + c.roundTrip)
    case TimerFires => s.manager.timer.Some? && s.manager.timer.value <= s.now
    case ExtensionGranted => s.manager.inFlight.Some?
    case ExtendedByHand(start, lease) => lease in c.byHand && start <= s.now <= start + c.handTrip
  }

  function Apply(c: Config, s: State, e: Event): State {
    match e
    case Tick => s.(now := s.now + 1)
    case TimerFires => s.(manager := Fired(s.manager, s.now, Valid(s)))
    case ExtensionGranted =>
      if s.manager.inFlight.None? then s
      else
        var expiration := s.manager.inFlight.value + Life(c.auto);
        var t := s.(lockExpiration := expiration);
        t.(manager := Settled(s.manager, c.threshold, s.now, Granted(expiration), Valid(t)))
    case ExtendedByHand(start, lease) =>
      var expiration := start + Life(lease);
      s.(lockExpiration := expiration, manager := ManuallyExtended(s.manager, expiration))
  }

  function After(c: Config, s: State, events: seq<Event>): State {
    if events == [] then s else Apply(c, After(c, s, events[..|events| - 1]), events[|events| - 1])
  }

  ghost predicate EnabledRun(c: Config, s: State, events: seq<Event>) {
    events == []
    || (EnabledRun(c, s, events[..|events| - 1])
        && Enabled(c, After(c, s, events[..|events| - 1]), events[|events| - 1]))
  }

  /** The state right after `using` has started the manager on a lock. */
  function Begin(c: Config, now: int, expiration: int): State {
    State(Scheduled(Manager(None, None, Some(false), expiration, 0, false), c.threshold, now), expiration, now)
  }

  /** How far ahead a check is scheduled for a lock with `remaining` time left. */
  function Delay(c: Config, remaining: int): int {
    Max0(Max0(remaining) - c.threshold)
  }

  /** A manual extension answered at `now` leaves more time than a check due after `delay`
      and the extension that follows it may need. */
  predicate Outlives(c: Config, lease: Lease, delay: int) {
    delay + c.lateness + c.roundTrip + c.handTrip < Life(lease)
  }

  /** The timing requirement: lateness plus round trip stays below the threshold, below the
      time the lock has left at the start, and below what an automatic extension leaves; and
      every manual extension outlives the latest check it can come across, the first one or
      one scheduled by an extension answered at once. */
  ghost predicate FastEnough(c: Config, now: int, expiration: int) {
    var slack := c.lateness + c.roundTrip;
    && slack < c.threshold && slack < expiration - now && slack < Life(c.auto) - c.roundTrip
    && forall lease :: lease in c.byHand ==>
         Outlives(c, lease, Delay(c, expiration - now)) && Outlives(c, lease, Delay(c, Life(c.auto)))
  }

  /** Either the timer or an extension is pending, and leads to a grant before expiry; and no
      check is further ahead than the first one or one after an extension. */
  ghost predicate OnTime(c: Config, s: State, delay: int) {
    && delay >= 0 && Delay(c, Life(c.auto)) <= delay
    && (s.manager.timer.Some? ==> s.manager.timer.value <= s.now + delay)
    && Running(s.manager) && Valid(s) && s.manager.expiration == s.lockExpiration
    && match (s.manager.timer, s.manager.inFlight)
       case (Some(due), None) => s.now <= due + c.lateness && due + c.lateness + c.roundTrip < s.lockExpiration
       case (None, Some(start)) => start <= s.now <= start + c.roundTrip && start + c.roundTrip < s.lockExpiration
       case _ => false
  }

  lemma ScheduleOnTime(c: Config, now: int, expiration: int)
    requires c.lateness + c.roundTrip < c.threshold && c.lateness + c.roundTrip < expiration - now
    ensures var due := now + Max0(Max0(expiration - now) - c.threshold);
            now <= due && due + c.lateness + c.roundTrip < expiration
  {
  }

  lemma StepOnTime(c: Config, s: State, e: Event, now0: int, expiration0: int, delay: int)
    requires FastEnough(c, now0, expiration0) && OnTime(c, s, delay) && Enabled(c, s, e)
    requires forall lease :: lease in c.byHand ==> Outlives(c, lease, delay)
    ensures OnTime(c, Apply(c, s, e), delay)
  {
    if e.ExtensionGranted? {
      ScheduleOnTime(c, s.now, s.manager.inFlight.value + Life(c.auto));
    }
    if e.ExtendedByHand? {
      assert Outlives(c, e.lease, delay);
    }
  }

  /** The furthest ahead that any check of the cycle can be. */
  function LongestDelay(c: Config, now: int, expiration: int): int {
    var first, later := Delay(c, expiration - now), Delay(c, Life(c.auto));
    if first < later then later else first
  }

  lemma BeginOnTime(c: Config, now: int, expiration: int)
    requires FastEnough(c, now, expiration)
    ensures OnTime(c, Begin(c, now, expiration), LongestDelay(c, now, expiration))
  {
    ScheduleOnTime(c, now, expiration);
  }

  lemma {:induction false} RunOnTime(c: Config, now: int, expiration: int, events: seq<Event>)
    requires FastEnough(c, now, expiration) && EnabledRun(c, Begin(c, now, expiration), events)
    ensures OnTime(c, After(c, Begin(c, now, expiration), events), LongestDelay(c, now, expiration))
  {
    hide OnTime, Enabled, Apply;
    var s, delay := Begin(c, now, expiration), LongestDelay(c, now, expiration);
    if events == [] {
      assert OnTime(c, s, delay) by { BeginOnTime(c, now, expiration); }
    } else {
      RunOnTime(c, now, expiration, events[..|events| - 1]);
      StepOnTime(c, After(c, s, events[..|events| - 1]), events[|events| - 1], now, expiration, delay);
    }
  }

  /** Continuous validity: with timing that is fast enough the lock is unexpired at every
      instant from the start on, over any number of extensions. */
  lemma ContinuouslyValid(c: Config, now: int, expiration: int, events: seq<Event>)
    requires FastEnough(c, now, expiration) && EnabledRun(c, Begin(c, now, expiration), events)
    ensures Valid(After(c, Begin(c, now, expiration), events))
  {
    RunOnTime(c, now, expiration, events);
  }

  // ---- And only then ----------------------------------------------------------------------

  lemma RunSnoc(c: Config, s: State, events: seq<Event>, e: Event)
    requires EnabledRun(c, s, events) && Enabled(c, After(c, s, events), e)
    ensures EnabledRun(c, s, events + [e]) && After(c, s, events + [e]) == Apply(c, After(c, s, events), e)
  {
    assert (events + [e])[..|events|] == events;
  }

  /** Time can be spent up to an instant that neither the timer nor the extension forbids. */
  lemma {:induction false} Wait(c: Config, s: State, events: seq<Event>, until: int) returns (r: seq<Event>)
    requires EnabledRun(c, s, events) && After(c, s, events).now <= until
    requires var m := After(c, s, events).manager;
             && (m.timer.Some? ==> until <= m.timer.value + c.lateness)
             && (m.inFlight.Some? ==> until <= m.inFlight.value + c.roundTrip)
    ensures EnabledRun(c, s, r) && After(c, s, r) == After(c, s, events).(now := until)
    decreases until - After(c, s, events).now
  {
    r := events;
    if After(c, s, events).now < until {
      RunSnoc(c, s, events, Tick);
      r := Wait(c, s, events + [Tick], until);
    }
  }

  /** A scheduled check that can be late enough lets the lock expire. */
  lemma LateCheckExpires(c: Config, s: State, events: seq<Event>) returns (r: seq<Event>)
    requires EnabledRun(c, s, events)
    requires var t := After(c, s, events);
             && Running(t.manager) && Valid(t) && t.manager.expiration == t.lockExpiration && t.manager.inFlight.None?
             && t.manager.timer.Some? && t.now <= t.manager.timer.value
             && t.manager.timer.value + c.lateness + c.roundTrip >= t.lockExpiration
    ensures EnabledRun(c, s, r) && !Valid(After(c, s, r))
  {
    var t := After(c, s, events);
    var fires := t.manager.timer.value + c.lateness;
    if fires >= t.lockExpiration {
      r := Wait(c, s, events, t.lockExpiration);
    } else {
      r := Wait(c, s, events, fires);
      RunSnoc(c, s, r, TimerFires);
      r := r + [TimerFires];
      r := Wait(c, s, r, t.lockExpiration);
    }
  }

  lemma EmptyRun(c: Config, s: State)
    ensures EnabledRun(c, s, []) && After(c, s, []) == s
  {
  }

  /** A first round in which the timer is `late` and the extension takes `trip`. */
  lemma FirstRound(c: Config, now: int, expiration: int, late: nat, trip: nat) returns (r: seq<Event>)
    requires late <= c.lateness && trip <= c.roundTrip
    requires now < expiration && late < c.threshold && late < expiration - now
    ensures var s := Begin(c, now, expiration);
            && EnabledRun(c, s, r)
            && (var start := s.manager.timer.value + late;
                var renewed := start + Life(c.auto);
                var at := start + trip;
                var m := Manager(None, None, Some(false), renewed, 1, false);
                After(c, s, r) == State(if at < renewed then Scheduled(m, c.threshold, at) else m, renewed, at))
  {
    hide EnabledRun, After;
    var s := Begin(c, now, expiration);
    var start := s.manager.timer.value + late;
    EmptyRun(c, s);
    r := Wait(c, s, [], start);
    RunSnoc(c, s, r, TimerFires);
    r := r + [TimerFires];
    assert After(c, s, r).manager == Manager(None, Some(start), Some(false), expiration, 0, false);
    r := Wait(c, s, r, start + trip);
    RunSnoc(c, s, r, ExtensionGranted);
    r := r + [ExtensionGranted];
  }

  /** A manual extension that does not outlive the pending check lets the lock expire. */
  lemma ShortHandExpires(c: Config, s: State, events: seq<Event>, lease: Lease) returns (r: seq<Event>)
    requires EnabledRun(c, s, events) && lease in c.byHand
    requires var t := After(c, s, events);
             && Running(t.manager) && t.manager.inFlight.None? && t.manager.timer.Some? && t.now <= t.manager.timer.value
             && !Outlives(c, lease, t.manager.timer.value - t.now)
    ensures EnabledRun(c, s, r) && !Valid(After(c, s, r))
  {
    hide EnabledRun, After;
    var t := After(c, s, events);
    var e := ExtendedByHand(t.now - c.handTrip, lease);
    RunSnoc(c, s, events, e);
    r := events + [e];
    if Valid(After(c, s, r)) {
      r := LateCheckExpires(c, s, r);
    }
  }

  /** With any less time to spare there is a schedule on which the lock expires although
      every extension is granted. */
  lemma TooSlowExpires(c: Config, now: int, expiration: int) returns (r: seq<Event>)
    requires now < expiration && c.threshold > 0 && !FastEnough(c, now, expiration)
    ensures EnabledRun(c, Begin(c, now, expiration), r) && !Valid(After(c, Begin(c, now, expiration), r))
  {
    hide EnabledRun, After, Outlives;
    var s := Begin(c, now, expiration);
    EmptyRun(c, s);
    var slack := c.lateness + c.roundTrip;
    if slack >= c.threshold || slack >= expiration - now {
      r := LateCheckExpires(c, s, []);
    } else if slack >= Life(c.auto) - c.roundTrip {
      r := FirstRound(c, now, expiration, c.lateness, c.roundTrip);
      if Valid(After(c, s, r)) {
        r := LateCheckExpires(c, s, r);
      }
    } else {
      var lease :| lease in c.byHand
                   && !(Outlives(c, lease, Delay(c, expiration - now)) && Outlives(c, lease, Delay(c, Life(c.auto))));
      if !Outlives(c, lease, Delay(c, expiration - now)) {
        r := ShortHandExpires(c, s, [], lease);
      } else {
        r := FirstRound(c, now, expiration, 0, 0);
        r := ShortHandExpires(c, s, r, lease);
      }
    }
  }

  /** The lock is valid throughout on every schedule exactly when the timing is fast
      enough. */
  lemma ContinuouslyValidIff(c: Config, now: int, expiration: int)
    requires now < expiration && c.threshold > 0
    ensures FastEnough(c, now, expiration) <==>
              forall events :: EnabledRun(c, Begin(c, now, expiration), events) ==>
                Valid(After(c, Begin(c, now, expiration), events))
  {
    if FastEnough(c, now, expiration) {
      forall events | EnabledRun(c, Begin(c, now, expiration), events)
        ensures Valid(After(c, Begin(c, now, expiration), events))
      {
        ContinuouslyValid(c, now, expiration, events);
      }
    } else {
      var r := TooSlowExpires(c, now, expiration);
    }
  }

  // ---- Any interleaving of calls, timers and results ---------------------------------------

  datatype Call = CallStart | CallStop | CallFire(lockValid: bool) | CallSettle(outcome: Outcome, lockValid: bool)
                | CallUpdate(expiration: int)

  /** Timers and results only come when one is pending. */
  function Next(m: Manager, threshold: int, now: int, e: Call): Manager {
    match e
    case CallStart => var n := Started(m, threshold, now); if n.Some? then n.value else m
    case CallStop => StopRequested(m)
    case CallFire(valid) => if m.timer.Some? then Fired(m, now, valid) else m
    case CallSettle(outcome, valid) => if m.inFlight.Some? then Settled(m, threshold, now, outcome, valid) else m
    case CallUpdate(expiration) => ManuallyExtended(m, expiration)
  }

  function Managed(expiration: int, threshold: int, events: seq<(int, Call)>): Manager {
    if events == [] then Manager(None, None, None, expiration, 0, false)
    else
      var (now, e) := events[|events| - 1];
      Next(Managed(expiration, threshold, events[..|events| - 1]), threshold, now, e)
  }

  /** Whatever is called, refused or fails, in any order and any number of cycles: never a
      timer and an extension at once, never a timer after a stop or an abort, never an
      extension in flight on an aborted signal, and a timer only with a threshold. */
  lemma {:induction false} OneThingAtATime(expiration: int, threshold: int, events: seq<(int, Call)>)
    ensures var m := Managed(expiration, threshold, events);
            && (m.timer.Some? ==> m.inFlight.None? && Running(m) && threshold > 0)
            && (m.inFlight.Some? ==> m.signal == Some(false) && threshold > 0)
  {
    if events != [] {
      OneThingAtATime(expiration, threshold, events[..|events| - 1]);
    }
  }

  lemma {:induction false} StoppedHasNoTimer(expiration: int, threshold: int, events: seq<(int, Call)>)
    ensures var m := Managed(expiration, threshold, events); m.signal.None? ==> m.timer.None? && m.inFlight.None?
  {
    if events != [] {
      StoppedHasNoTimer(expiration, threshold, events[..|events| - 1]);
      OneThingAtATime(expiration, threshold, events[..|events| - 1]);
    }
  }

  /** The lock was valid whenever a timer or a result asked. */
  predicate AlwaysValid(events: seq<(int, Call)>) {
    forall i :: 0 <= i < |events| ==>
      (events[i].1.CallFire? ==> events[i].1.lockValid) && (events[i].1.CallSettle? ==> events[i].1.lockValid)
  }

  predicate Pending(m: Manager) { m.timer.Some? || m.inFlight.Some? }

  /** On a lock that stays valid a running cycle never stalls: a timer or an extension is
      pending until the cycle is stopped or aborted. */
  lemma {:induction false} RunningNeverStalls(expiration: int, threshold: int, events: seq<(int, Call)>)
    requires threshold > 0 && AlwaysValid(events)
    ensures var m := Managed(expiration, threshold, events); Running(m) ==> Pending(m)
  {
    if events != [] {
      RunningNeverStalls(expiration, threshold, events[..|events| - 1]);
    }
  }

  /** The events on which an extension has failed: it was refused, it threw, or its timer came
      when the manager's expiration had been reached. */
  predicate Fails(m: Manager, now: int, e: Call) {
    || (e.CallSettle? && m.inFlight.Some? && !e.outcome.Granted?)
    || (e.CallFire? && m.timer.Some? && e.lockValid && m.expiration <= now)
  }

  /** A failed extension aborts the signal of a running cycle, and it stays aborted, with
      nothing pending any more, whatever happens until the stop. */
  lemma {:induction false} FailureAborts(expiration: int, threshold: int, events: seq<(int, Call)>, now: int, e: Call,
                                         more: seq<(int, Call)>)
    requires var m := Managed(expiration, threshold, events); Running(m) && Fails(m, now, e)
    requires forall i :: 0 <= i < |more| ==> !more[i].1.CallStop?
    ensures var m := Managed(expiration, threshold, events + [(now, e)] + more); m.signal == Some(true) && !Pending(m)
  {
    var all := events + [(now, e)] + more;
    OneThingAtATime(expiration, threshold, events);
    if more == [] {
      assert all[..|all| - 1] == events && all[|all| - 1] == (now, e);
    } else {
      FailureAborts(expiration, threshold, events, now, e, more[..|more| - 1]);
      assert all[..|all| - 1] == events + [(now, e)] + more[..|more| - 1] && all[|all| - 1] == more[|more| - 1];
    }
  }

  /** A timer that finds the lock invalid is dropped: the running cycle stalls, its signal not
      aborted, exactly then. So a check that comes too late on a lock whose own expiration is
      the manager's ends the cycle without telling the routine. */
  lemma StallsIff(m: Manager, now: int, lockValid: bool)
    requires Running(m) && m.timer.Some? && m.inFlight.None?
    ensures var n := Fired(m, now, lockValid); Running(n) && !Pending(n) <==> !lockValid
  {
  }

  lemma LateCheckIsSilent(c: Config, s: State)
    requires Running(s.manager) && s.manager.timer.Some? && s.manager.inFlight.None?
    requires s.manager.expiration == s.lockExpiration
    ensures var t := Apply(c, s, TimerFires);
            if s.now < s.lockExpiration then t.manager.inFlight == Some(s.now)
            else t.manager.signal == Some(false) && !Pending(t.manager)
  {
  }

  /** A cycle is started once: until its signal is cleared another start changes nothing. The
      check is due when the threshold is what is left, or at once. */
  lemma StartsOnce(expiration: int, threshold: int, events: seq<(int, Call)>, now: int)
    ensures var m, n := Managed(expiration, threshold, events), Managed(expiration, threshold, events + [(now, CallStart)]);
            if m.signal.Some? then n == m
            else
              && Running(n) && n.inFlight.None?
              && n.timer == (if threshold <= 0 then None
                             else if m.expiration - now > threshold then Some(m.expiration - threshold) else Some(now))
  {
    assert (events + [(now, CallStart)])[..|events|] == events;
    OneThingAtATime(expiration, threshold, events);
    StoppedHasNoTimer(expiration, threshold, events);
  }

  /** How often the manager took a new expiration, and the last one. */
  function Renewed(expiration: int, threshold: int, events: seq<(int, Call)>): (int, nat) {
    if events == [] then (expiration, 0)
    else
      var front, e := events[..|events| - 1], events[|events| - 1].1;
      var m, (last, count) := Managed(expiration, threshold, front), Renewed(expiration, threshold, front);
      match e
      case CallUpdate(x) => (x, count + 1)
      case CallSettle(Granted(x), _) => if m.inFlight.Some? && !m.stopped then (x, count + 1) else (last, count)
      case _ => (last, count)
  }

  /** The manager shows the last expiration granted to it, automatically or by hand, and
      counts them; an answer that comes after a stop is not among them. */
  lemma {:induction false} ShowsLastRenewal(expiration: int, threshold: int, events: seq<(int, Call)>)
    ensures var m := Managed(expiration, threshold, events);
            (m.expiration, m.extensions) == Renewed(expiration, threshold, events)
  {
    if events != [] {
      ShowsLastRenewal(expiration, threshold, events[..|events| - 1]);
    }
  }

  // ---- Stopping -----------------------------------------------------------------------------

  /** What may still happen to a manager whose stop was requested. */
  datatype Late = LateFire(now: int, valid: bool) | LateSettle(now: int, outcome: Outcome, valid: bool) | StopAgain

  function AfterStop(m: Manager, threshold: int, events: seq<Late>): Manager {
    if events == [] then StopRequested(m)
    else
      var n := AfterStop(m, threshold, events[..|events| - 1]);
      match events[|events| - 1]
      case LateFire(now, valid) => if n.timer.Some? then Fired(n, now, valid) else n
      case LateSettle(now, outcome, valid) => if n.inFlight.Some? then Settled(n, threshold, now, outcome, valid) else n
      case StopAgain => StopRequested(n)
  }

  /** Once a stop is requested nothing is ever scheduled or started again: the only
      extension that can still be in flight is the one that already was, its result is
      ignored, and when it has settled the signal is cleared. */
  lemma {:induction false} StopIsFinal(m: Manager, threshold: int, events: seq<Late>)
    ensures var n := AfterStop(m, threshold, events);
            && n.stopped && n.timer.None?
            && (n.inFlight.Some? ==> n.inFlight == m.inFlight)
            && (n.inFlight.None? ==> n.signal.None?)
            && n.expiration == m.expiration && n.extensions == m.extensions
  {
    if events != [] {
      StopIsFinal(m, threshold, events[..|events| - 1]);
    }
  }
}
