/** The lock object: extensions that are answered after other things have happened, and
    concurrent release calls that share one round trip. */
module Lock {
  import opened Wrappers

  datatype LockState = LockState(expiration: int, extensions: nat, released: bool, releasing: bool)

  /** What a call of `release` does. */
  datatype ReleaseCall = AlreadyReleased | Joined | StartedRoundTrip

  datatype ExtendError = LockReleaseError | LockExpiredError | LockExtensionError

  predicate IsExpired(l: LockState, now: int) { now >= l.expiration }

  predicate IsValid(l: LockState, now: int) { !l.released && !IsExpired(l, now) }

  /** The part of `extend` before the lock manager is asked: an error, or the call goes out. */
  function ExtendRefusal(l: LockState, now: int): Option<ExtendError> {
    if l.released then Some(LockReleaseError)
    else if IsExpired(l, now) then Some(LockExpiredError)
    else None
  }

  /** The part after: `granted` is the expiration the lock manager returns, if it grants. */
  function ExtendedWith(l: LockState, granted: Option<int>): LockState {
    if granted.Some? then l.(expiration := granted.value, extensions := l.extensions + 1) else l
  }

  function Called(l: LockState): (LockState, ReleaseCall) {
    if l.released then (l, AlreadyReleased)
    else if l.releasing then (l, Joined)
    else (l.(releasing := true), StartedRoundTrip)
  }

  /** The shared round trip ends; only a failed one may be followed by another. */
  function Answered(l: LockState, ok: bool): LockState {
    if ok then l.(released := true, releasing := false) else l.(releasing := false)
  }

  class Lock {
    var expiration: int
    var extensions: nat
    var released: bool
    var releasing: bool

    function Value(): LockState
      reads this
    {
      LockState(expiration, extensions, released, releasing)
    }

    constructor (expiration: int)
      ensures Value() == LockState(expiration, 0, false, false)
    {
      this.expiration := expiration;
      extensions, released, releasing := 0, false, false;
    }

    method Extend(now: int) returns (refusal: Option<ExtendError>)
      ensures refusal == ExtendRefusal(Value(), now)
    {
      if released {
        return Some(LockReleaseError);
      }
      if now >= expiration {
        return Some(LockExpiredError);
      }
      return None;
    }

    method ExtendAnswered(granted: Option<int>) returns (r: Result<int, ExtendError>)
      modifies this`expiration, this`extensions
      ensures r == if granted.Some? then Ok(granted.value) else Err(LockExtensionError)
      ensures Value() == ExtendedWith(old(Value()), granted)
    {
      if granted.None? {
        return Err(LockExtensionError);
      }
      expiration := granted.value;
      extensions := extensions + 1;
      return Ok(expiration);
    }

    method Release() returns (call: ReleaseCall)
      modifies this
      ensures (Value(), call) == Called(old(Value()))
    {
      if released {
        return AlreadyReleased;
      }
      if releasing {
        return Joined;
      }
      releasing := true;
      return StartedRoundTrip;
    }

    method ReleaseAnswered(ok: bool)
      modifies this
      ensures Value() == Answered(old(Value()), ok)
    {
      if ok {
        released := true;
      }
      releasing := false;
    }
  }

  // ---- Any interleaving of calls and answers --------------------------------------------

  datatype Event =
    | ReleaseCalled
    | ReleaseAnswer(ok: bool)
    | ExtendCalled(now: int)
    | ExtendAnswer(granted: Option<int>)

  /** The lock; how many release round trips were started, failed and succeeded; how many
      extensions are under way; and the expirations granted, in the order of the answers. */
  datatype History = History(lock: LockState, started: nat, failed: nat, succeeded: nat, extending: nat, grants: seq<int>)

  function Apply(h: History, e: Event): History {
    match e
    case ReleaseCalled =>
      var (l, call) := Called(h.lock);
      h.(lock := l, started := if call.StartedRoundTrip? then h.started + 1 else h.started)
    case ReleaseAnswer(ok) =>
      if !h.lock.releasing then h
      else h.(lock := Answered(h.lock, ok), failed := if ok then h.failed else h.failed + 1,
              succeeded := if ok then h.succeeded + 1 else h.succeeded)
    case ExtendCalled(now) =>
      if ExtendRefusal(h.lock, now).None? then h.(extending := h.extending + 1) else h
    case ExtendAnswer(granted) =>
      if h.extending == 0 then h
      else h.(lock := ExtendedWith(h.lock, granted), extending := h.extending - 1,
              grants := if granted.Some? then h.grants + [granted.value] else h.grants)
  }

  function After(expiration: int, events: seq<Event>): History {
    if events == [] then History(LockState(expiration, 0, false, false), 0, 0, 0, 0, [])
    else Apply(After(expiration, events[..|events| - 1]), events[|events| - 1])
  }

  /** However many callers release at once, at most one round trip is under way, at most
      one ever succeeds, and every started one is accounted for: it failed, or succeeded
      and released the lock, or is the one under way. */
  lemma {:induction false} OneRoundTrip(expiration: int, events: seq<Event>)
    ensures var h := After(expiration, events);
            && h.started == h.failed + h.succeeded + (if h.lock.releasing then 1 else 0)
            && h.succeeded == (if h.lock.released then 1 else 0)
            && !(h.lock.released && h.lock.releasing)
  {
    if events != [] {
      OneRoundTrip(expiration, events[..|events| - 1]);
    }
  }

  /** The lock counts exactly the granted answers and shows the last one to arrive, whatever
      was released, refused or answered out of order meanwhile. */
  lemma {:induction false} ExtensionsAreGrants(expiration: int, events: seq<Event>)
    ensures var h := After(expiration, events);
            && h.lock.extensions == |h.grants|
            && h.lock.expiration == if h.grants == [] then expiration else h.grants[|h.grants| - 1]
  {
    if events != [] {
      ExtensionsAreGrants(expiration, events[..|events| - 1]);
    }
  }

  /** Once a release has succeeded no later call goes to the nodes again, and nothing makes
      the lock valid: new extensions are refused, and a grant that arrives late does not
      bring it back. */
  lemma {:induction false} ReleasedForGood(expiration: int, events: seq<Event>, more: seq<Event>)
    requires After(expiration, events).lock.released
    ensures var h, later := After(expiration, events), After(expiration, events + more);
            && later.started == h.started && later.extending <= h.extending
            && later.lock.released && forall now :: !IsValid(later.lock, now)
  {
    if more == [] {
      assert events + more == events;
    } else {
      var k := |more| - 1;
      ReleasedForGood(expiration, events, more[..k]);
      OneRoundTrip(expiration, events + more[..k]);
      assert (events + more)[..|events| + k] == events + more[..k];
    }
  }

  /** The expiration the lock shows after the first i events. */
  function ShownAfter(expiration: int, events: seq<Event>, i: nat): int
    requires i <= |events|
  {
    After(expiration, events[..i]).lock.expiration
  }

  ghost predicate NeverFalls(expiration: int, events: seq<Event>) {
    forall i :: 0 <= i < |events| ==> ShownAfter(expiration, events, i) <= ShownAfter(expiration, events, i + 1)
  }

  lemma FallsSnoc(expiration: int, events: seq<Event>)
    requires events != []
    ensures var front := events[..|events| - 1];
            NeverFalls(expiration, events) <==>
              NeverFalls(expiration, front)
              && After(expiration, front).lock.expiration <= After(expiration, events).lock.expiration
  {
    hide After;
    var k := |events| - 1;
    var front := events[..k];
    assert events[..k + 1] == events && events[..k] == front;
    forall i | 0 <= i <= k ensures ShownAfter(expiration, front, i) == ShownAfter(expiration, events, i) {
      assert front[..i] == events[..i];
    }
    hide ShownAfter;
    assert NeverFalls(expiration, events) ==>
             ShownAfter(expiration, events, k) <= ShownAfter(expiration, events, k + 1);
    forall i | 0 <= i < k
      ensures ShownAfter(expiration, front, i) <= ShownAfter(expiration, front, i + 1) <==>
                ShownAfter(expiration, events, i) <= ShownAfter(expiration, events, i + 1)
    {
    }
  }

  /** The grants arrive in ascending order, none before the expiration the lock was made with. */
  predicate Ascending(expiration: int, grants: seq<int>) {
    grants == []
    || (Ascending(expiration, grants[..|grants| - 1])
        && (if |grants| == 1 then expiration else grants[|grants| - 2]) <= grants[|grants| - 1])
  }

  lemma AscendingSnoc(expiration: int, grants: seq<int>, g: int)
    ensures Ascending(expiration, grants + [g]) <==>
              Ascending(expiration, grants) && (if grants == [] then expiration else grants[|grants| - 1]) <= g
  {
    assert (grants + [g])[..|grants|] == grants;
  }

  /** Only a granted answer moves the expiration, and then to what it grants. */
  lemma StepMovesToGrant(h: History, e: Event)
    ensures var t := Apply(h, e);
            || (t.grants == h.grants && t.lock.expiration == h.lock.expiration)
            || t.grants == h.grants + [t.lock.expiration]
  {
  }

  lemma {:induction false} GrantsAscendIff(expiration: int, events: seq<Event>)
    ensures NeverFalls(expiration, events) <==> Ascending(expiration, After(expiration, events).grants)
  {
    if events != [] {
      var k := |events| - 1;
      var front, h := events[..k], After(expiration, events[..k]);
      var t := After(expiration, events);
      assert t == Apply(h, events[k]);
      GrantsAscendIff(expiration, front);
      ExtensionsAreGrants(expiration, front);
      FallsSnoc(expiration, events);
      StepMovesToGrant(h, events[k]);
      hide *;
      if t.grants != h.grants {
        AscendingSnoc(expiration, h.grants, t.lock.expiration);
      }
    }
  }

  lemma {:induction false} Climbs(expiration: int, events: seq<Event>, i: nat, j: nat)
    requires NeverFalls(expiration, events) && i <= j <= |events|
    ensures ShownAfter(expiration, events, i) <= ShownAfter(expiration, events, j)
    decreases j - i
  {
    hide ShownAfter;
    if i < j {
      Climbs(expiration, events, i, j - 1);
      assert ShownAfter(expiration, events, j - 1) <= ShownAfter(expiration, events, j - 1 + 1);
    }
  }

  /** Over a whole run the shown expiration never falls exactly when the granted answers
      arrive in ascending order, whatever is called, refused or released meanwhile. */
  lemma ExpirationNeverFallsIff(expiration: int, events: seq<Event>)
    ensures (forall i, j :: 0 <= i <= j <= |events| ==>
               ShownAfter(expiration, events, i) <= ShownAfter(expiration, events, j)) <==>
            Ascending(expiration, After(expiration, events).grants)
  {
    hide After, Ascending;
    GrantsAscendIff(expiration, events);
    if NeverFalls(expiration, events) {
      forall i, j | 0 <= i <= j <= |events|
        ensures ShownAfter(expiration, events, i) <= ShownAfter(expiration, events, j)
      {
        Climbs(expiration, events, i, j);
      }
    }
  }

  /** Answers out of order move the expiration back: the later call's answer first. */
  lemma LateAnswerLowersExpiration()
    ensures var events := [ExtendCalled(0), ExtendCalled(5), ExtendAnswer(Some(105))];
            && After(10, events).lock.expiration == 105
            && After(10, events + [ExtendAnswer(Some(100))]).lock.expiration == 100
  {
    var a, b, c, d := ExtendCalled(0), ExtendCalled(5), ExtendAnswer(Some(105)), ExtendAnswer(Some(100));
    assert [a, b, c] + [d] == [a, b, c, d] && [a, b, c, d][..3] == [a, b, c];
    assert [a, b, c][..2] == [a, b] && [a, b][..1] == [a] && [a][..0] == [];
    assert After(10, [a]).extending == 1;
    assert After(10, [a, b]).extending == 2;
    assert After(10, [a, b, c]).extending == 1;
  }

  /** A call of `extend` goes out exactly when no release has succeeded and the last granted
      expiration has not been reached; otherwise it is refused, as released first. */
  lemma ExtendGoesOutIff(expiration: int, events: seq<Event>, now: int)
    ensures var h, t := After(expiration, events), After(expiration, events + [ExtendCalled(now)]);
            var shown := if h.grants == [] then expiration else h.grants[|h.grants| - 1];
            && t.extending == h.extending + (if h.succeeded == 0 && now < shown then 1 else 0)
            && ExtendRefusal(h.lock, now) == (if h.succeeded > 0 then Some(LockReleaseError)
                                              else if now >= shown then Some(LockExpiredError) else None)
  {
    OneRoundTrip(expiration, events);
    ExtensionsAreGrants(expiration, events);
    assert (events + [ExtendCalled(now)])[..|events|] == events;
  }

  /** What a call of `release` gets: the old success once there is one, else the answer of the
      round trip under way, else a round trip of its own. */
  lemma ReleaseCallIff(expiration: int, events: seq<Event>)
    ensures var h := After(expiration, events); var call := Called(h.lock).1;
            && (call.AlreadyReleased? <==> h.succeeded > 0)
            && (call.Joined? <==> h.succeeded == 0 && h.started == h.failed + 1)
            && (call.StartedRoundTrip? <==> h.succeeded == 0 && h.started == h.failed)
            && (After(expiration, events + [ReleaseCalled]).started > h.started <==> call.StartedRoundTrip?)
  {
    OneRoundTrip(expiration, events);
    assert (events + [ReleaseCalled])[..|events|] == events;
  }
}
