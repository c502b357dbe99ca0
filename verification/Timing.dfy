/** Clock-drift arithmetic, in exact arithmetic instead of floating point. */
module Timing {

  /** `Math.round` */
  function Round(x: real): int { (x + 0.5).Floor }

  /** `Math.round(driftFactor * ttl) + 2` */
  function Drift(factor: real, ttl: int): int { Round(factor * (ttl as real)) + 2 }

  lemma Scale(r: real, x: real, y: real)
    requires r >= 0.0 && x <= y
    ensures r * x <= r * y
  {
    assert r * (y - x) >= 0.0;
  }

  /** The margin suffices: while the clock that measures ttl runs at most (1 + rate) times
      as fast as real time, ttl - drift of real time fits into it. */
  lemma MarginCoversSkew(rate: real, ttl: int, drift: int)
    requires rate >= 0.0 && ttl > 0 && drift >= Drift(rate, ttl)
    ensures (1.0 + rate) * ((ttl - drift) as real) <= ttl as real
  {
    var t := ttl as real;
    var bound := t - rate * t - 1.5;
    Scale(1.0 + rate, (ttl - drift) as real, bound);
    assert (1.0 + rate) * bound == t - rate * (rate * t) - 1.5 - 1.5 * rate;
    assert rate * t >= 0.0;
    assert rate * (rate * t) >= 0.0;
  }

  /** What one acquire or extension asks for. */
  datatype Lease = Lease(ttl: int, drift: int)

  /** The validity it promises, from the moment it is asked for. */
  function Life(lease: Lease): int { lease.ttl - lease.drift }

  /** The margin is the rounded share of the ttl and two more, no more. */
  lemma DriftIsRounded(factor: real, ttl: int)
    ensures -0.5 < Drift(factor, ttl) as real - (factor * (ttl as real) + 2.0) <= 0.5
  {
  }
}
