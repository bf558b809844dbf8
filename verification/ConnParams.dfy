/** Connection-parameter arithmetic (conn.go). */
module ConnParams {
  import opened Bytes
  import opened Wrappers

  /** time.Duration: nanoseconds in an int64. */
  type Duration = d: int | -0x8000_0000_0000_0000 <= d < 0x8000_0000_0000_0000

  const CONN_INTERVAL_UNIT: Duration := 1_250_000
  const SUPERVISION_TIMEOUT_UNIT: Duration := 10_000_000

  const CONN_INTERVAL_MIN_UNITS := 6
  const CONN_INTERVAL_MAX_UNITS := 3200
  const CONN_LATENCY_MAX := 499
  const SUPERVISION_MIN_UNITS := 10
  const SUPERVISION_MAX_UNITS := 3200

  /** Addition on int64 wraps around. */
  function Add(a: Duration, b: Duration): Duration {
    var s := a + b;
    if s >= 0x8000_0000_0000_0000 then s - 0x1_0000_0000_0000_0000
    else if s < -0x8000_0000_0000_0000 then s + 0x1_0000_0000_0000_0000
    else s
  }

  /** Division on int64 truncates toward zero. */
  function Quotient(a: Duration, b: Duration): int
    requires b > 0
  {
    if a >= 0 then a / b else -((-(a as int)) / b)
  }

  function DurUnits(d: Duration, unit: Duration): int
    requires unit > 0
  {
    if d < 0 then -1 else Quotient(Add(d, Quotient(unit, 2)), unit)
  }

  datatype Params = Params(intervalMin: Duration, intervalMax: Duration, latency: int, timeout: Duration)

  datatype Encoded = Encoded(intervalMin: U16, intervalMax: U16, latency: U16, timeout: U16)

  /** Encode; None is ErrInvalidConnParams. */
  function Encode(p: Params): Option<Encoded> {
    var imin := DurUnits(p.intervalMin, CONN_INTERVAL_UNIT);
    var imax := DurUnits(p.intervalMax, CONN_INTERVAL_UNIT);
    var tmo := DurUnits(p.timeout, SUPERVISION_TIMEOUT_UNIT);
    if imin < CONN_INTERVAL_MIN_UNITS || imin > CONN_INTERVAL_MAX_UNITS then None
    else if imax < CONN_INTERVAL_MIN_UNITS || imax > CONN_INTERVAL_MAX_UNITS then None
    else if imin > imax then None
    else if p.latency < 0 || p.latency > CONN_LATENCY_MAX then None
    else if tmo < SUPERVISION_MIN_UNITS || tmo > SUPERVISION_MAX_UNITS then None
    else if tmo * 4 <= (1 + p.latency) * imax then None
    else Some(Encoded(Wrap(imin), Wrap(imax), Wrap(p.latency), Wrap(tmo)))
  }

  // ---- What the units mean ----

  /** u is the whole number of steps nearest to d; a tie goes up. */
  predicate Nearest(d: int, unit: int, u: int) {
    -unit <= 2 * (d - u * unit) < unit
  }

  /** Away from the top half step of the int64 range, a duration is rounded to the nearest step; there, where the
      sum wraps around, the result is negative. */
  lemma DurUnitsRounds(d: Duration, unit: Duration)
    requires unit > 0 && unit % 2 == 0
    ensures d < 0 ==> DurUnits(d, unit) == -1
    ensures 0 <= d && d + unit / 2 < 0x8000_0000_0000_0000 ==>
              DurUnits(d, unit) >= 0 && Nearest(d, unit, DurUnits(d, unit))
    ensures d + unit / 2 >= 0x8000_0000_0000_0000 ==> DurUnits(d, unit) <= 0
  {
    if 0 <= d && d + unit / 2 < 0x8000_0000_0000_0000 {
      var s := d + unit / 2;
      QuotientRemainder(s, unit);
    } else if d >= 0 {
      var s := Add(d, unit / 2);
      assert s < 0;
      QuotientRemainder(-(s as int), unit);
    }
  }

  lemma QuotientRemainder(a: int, b: int)
    requires a >= 0 && b > 0
    ensures a / b >= 0 && 0 <= a - a / b * b < b
  {
    assert a == a / b * b + a % b;
  }

  /** The permitted encodings, in milliseconds. */
  predicate Permitted(q: Encoded) {
    var imin, imax, tmo := q.intervalMin as real * 1.25, q.intervalMax as real * 1.25, q.timeout as real * 10.0;
    && 7.5 <= imin <= imax <= 4000.0
    && q.latency <= 499
    && 100.0 <= tmo <= 32000.0
    && tmo > (1 + q.latency) as real * imax * 2.0
  }

  /** The reduced integer test is the timeout rule in real time. */
  lemma ReducedTestIsTheRule(tmo: int, latency: int, imax: int)
    ensures tmo * 4 > (1 + latency) * imax
       <==> tmo as real * 10.0 > (1 + latency) as real * (imax as real * 1.25) * 2.0
  {
    var n := (1 + latency) * imax;
    assert (1 + latency) as real * imax as real == n as real;
    assert (1 + latency) as real * (imax as real * 1.25) * 2.0 == n as real * 2.5;
  }

  /** The encoding of p: latency as given, each duration as its nearest number of steps. */
  predicate Encodes(p: Params, q: Encoded) {
    && Nearest(p.intervalMin, CONN_INTERVAL_UNIT, q.intervalMin)
    && Nearest(p.intervalMax, CONN_INTERVAL_UNIT, q.intervalMax)
    && p.latency == q.latency
    && Nearest(p.timeout, SUPERVISION_TIMEOUT_UNIT, q.timeout)
  }

  lemma NearestIsUnique(d: int, unit: int, u: int, v: int)
    requires unit == CONN_INTERVAL_UNIT || unit == SUPERVISION_TIMEOUT_UNIT
    requires Nearest(d, unit, u) && Nearest(d, unit, v)
    ensures u == v
  {
    if unit == CONN_INTERVAL_UNIT {
      assert u * unit == u * 1_250_000 && v * unit == v * 1_250_000;
    } else {
      assert u * unit == u * 10_000_000 && v * unit == v * 10_000_000;
    }
  }

  /** Within the range the encodings can have, the units are the nearest ones and nothing else. */
  lemma UnitsInRange(d: Duration, unit: Duration, u: int)
    requires unit == CONN_INTERVAL_UNIT || unit == SUPERVISION_TIMEOUT_UNIT
    requires 1 <= u <= 3200
    ensures DurUnits(d, unit) == u <==> Nearest(d, unit, u)
  {
    DurUnitsRounds(d, unit);
    if Nearest(d, unit, u) {
      assert u * unit <= 3200 * unit;
      NearestIsUnique(d, unit, u, DurUnits(d, unit));
    }
  }

  /** The permitted encodings in the controller's units. */
  lemma PermittedUnits(q: Encoded)
    ensures Permitted(q) <==>
              && CONN_INTERVAL_MIN_UNITS <= q.intervalMin <= q.intervalMax <= CONN_INTERVAL_MAX_UNITS
              && q.latency <= CONN_LATENCY_MAX
              && SUPERVISION_MIN_UNITS <= q.timeout <= SUPERVISION_MAX_UNITS
              && q.timeout * 4 > (1 + q.latency) * q.intervalMax
  {
    ReducedTestIsTheRule(q.timeout, q.latency, q.intervalMax);
  }

  /** The encoding in units is the encoding in nearest steps, within the range of the encodings. */
  lemma NearestSteps(p: Params, q: Encoded)
    requires 1 <= q.intervalMin <= 3200 && 1 <= q.intervalMax <= 3200 && 1 <= q.timeout <= 3200
    ensures Encodes(p, q) <==>
              && q.intervalMin == DurUnits(p.intervalMin, CONN_INTERVAL_UNIT)
              && q.intervalMax == DurUnits(p.intervalMax, CONN_INTERVAL_UNIT)
              && q.timeout == DurUnits(p.timeout, SUPERVISION_TIMEOUT_UNIT) && q.latency == p.latency
  {
    hide Nearest, DurUnits;
    UnitsInRange(p.intervalMin, CONN_INTERVAL_UNIT, q.intervalMin);
    UnitsInRange(p.intervalMax, CONN_INTERVAL_UNIT, q.intervalMax);
    UnitsInRange(p.timeout, SUPERVISION_TIMEOUT_UNIT, q.timeout);
  }

  /** Encode yields q exactly when q is p in nearest steps and q is permitted: nothing permitted is
      refused, and nothing else is let through, for every duration an int64 can hold. */
  lemma EncodeIsExact(p: Params, q: Encoded)
    ensures Encode(p) == Some(q) <==> Encodes(p, q) && Permitted(q)
  {
    hide Permitted, Encodes, DurUnits;
    PermittedUnits(q);
    if Encode(p) == Some(q) || Permitted(q) {
      NearestSteps(p, q);
    }
  }

  /** Permitted units, turned into durations, are encoded as themselves. */
  lemma UnitsRoundTrip(q: Encoded)
    requires Permitted(q)
    ensures q.intervalMin <= 3200 && q.intervalMax <= 3200 && q.timeout <= 3200
    ensures Encode(Params(q.intervalMin * 1_250_000, q.intervalMax * 1_250_000, q.latency, q.timeout * 10_000_000))
         == Some(q)
  {
    PermittedUnits(q);
    EncodeIsExact(Params(q.intervalMin * 1_250_000, q.intervalMax * 1_250_000, q.latency, q.timeout * 10_000_000), q);
  }
}
