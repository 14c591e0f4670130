/** The liveness probe's startup budget on Azure (buildProbes in provider/defangazure/azure/containerapp.go). */
module Probe {
  import opened Options

  const MAX_DELAY := 60
  const MAX_THRESHOLD := 10
  const DEFAULT_PERIOD := 10
  const DEFAULT_THRESHOLD := 3

  datatype HealthCheck = HealthCheck(interval: nat, retries: nat, startPeriod: nat)

  /** Absent fields fall to the platform's defaults. */
  datatype Probe = Probe(period: Option<int>, failureThreshold: Option<int>, initialDelay: Option<int>, warned: bool)

  function Period(h: HealthCheck): int {
    if h.interval == 0 then DEFAULT_PERIOD else h.interval
  }

  function Threshold(h: HealthCheck): int {
    if h.retries == 0 then DEFAULT_THRESHOLD else h.retries
  }

  /** How long a container may take before it is declared unhealthy. */
  function Budget(delay: int, threshold: int, period: int): int {
    delay + threshold * period
  }

  function Requested(h: HealthCheck): int {
    Budget(h.startPeriod, Threshold(h), Period(h))
  }

  /** want is the least number of failures after a full delay that keeps the requested budget. */
  ghost predicate IsLeastThreshold(h: HealthCheck, want: int) {
    && Budget(MAX_DELAY, want, Period(h)) >= Requested(h)
    && forall k :: Budget(MAX_DELAY, k, Period(h)) >= Requested(h) ==> want <= k
  }

  /** In seconds: the delay is a minute, one failure less would not do, and the warning says that ten do not. */
  ghost predicate KeepsBudget(h: HealthCheck, p: Probe) {
    var period: int := if h.interval == 0 then 10 else h.interval;
    var asked := h.startPeriod + (if h.retries == 0 then 3 else h.retries) * period;
    && p.initialDelay == Some(60) && p.failureThreshold.Some?
    && var failures := p.failureThreshold.value;
    && failures <= 10 && (p.warned <==> 60 + failures * period < asked)
    && if p.warned then failures == 10 else 60 + (failures - 1) * period < asked
  }

  lemma OneLessIsTooFew(h: HealthCheck, want: int)
    requires IsLeastThreshold(h, want)
    ensures Budget(MAX_DELAY, want - 1, Period(h)) < Requested(h)
  {
  }

  lemma CeilingDivision(lost: int, period: int)
    requires lost > 0 && period > 0
    ensures var q := (lost + period - 1) / period; lost <= q * period < lost + period
  {
    var x := lost + period - 1;
    assert x == x / period * period + x % period;
  }

  lemma TimesMonotone(a: int, b: int, period: int)
    requires period > 0
    ensures a <= b ==> a * period <= b * period
  {
  }

  lemma LeastThreshold(h: HealthCheck)
    requires h.startPeriod > MAX_DELAY
    ensures var lost, period := h.startPeriod - MAX_DELAY, Period(h);
      var want := Threshold(h) + (lost + period - 1) / period;
      IsLeastThreshold(h, want) && Budget(MAX_DELAY, want, period) < Requested(h) + period
  {
    var lost, period, threshold := h.startPeriod - MAX_DELAY, Period(h), Threshold(h);
    var q := (lost + period - 1) / period;
    CeilingDivision(lost, period);
    assert (threshold + q) * period == threshold * period + q * period;
    forall k | Budget(MAX_DELAY, k, period) >= Requested(h) ensures threshold + q <= k {
      TimesMonotone(k, threshold + q - 1, period);
      assert (threshold + q - 1) * period == threshold * period + q * period - period;
    }
  }

  lemma CapLoses(h: HealthCheck, want: int)
    requires IsLeastThreshold(h, want) && want > MAX_THRESHOLD
    ensures Budget(MAX_DELAY, MAX_THRESHOLD, Period(h)) < Requested(h)
  {
  }

  /**
   * A start period above the maximum is cut, and the threshold raised to the least one that keeps the
   * budget, or to its own maximum; the shortfall is reported exactly when that loses budget.
   */
  method BuildProbe(h: HealthCheck) returns (p: Probe)
    ensures p.period == if h.interval == 0 then None else Some(h.interval)
    ensures h.startPeriod == 0 ==> p.initialDelay.None?
    ensures 0 < h.startPeriod <= MAX_DELAY ==> p.initialDelay == Some(h.startPeriod)
    ensures h.startPeriod <= MAX_DELAY ==>
      p.failureThreshold == (if h.retries == 0 then None else Some(h.retries)) && !p.warned
    ensures h.startPeriod > MAX_DELAY ==>
      p.initialDelay == Some(MAX_DELAY) && p.failureThreshold.Some? && p.failureThreshold.value <= MAX_THRESHOLD
    ensures h.startPeriod > MAX_DELAY && !p.warned ==>
      IsLeastThreshold(h, p.failureThreshold.value)
      && Budget(MAX_DELAY, p.failureThreshold.value, Period(h)) < Requested(h) + Period(h)
    ensures h.startPeriod > MAX_DELAY ==>
      (p.warned <==> Budget(MAX_DELAY, p.failureThreshold.value, Period(h)) < Requested(h))
    ensures p.warned ==> p.failureThreshold == Some(MAX_THRESHOLD)
    ensures h.startPeriod > 60 ==> KeepsBudget(h, p)
  {
    p := Probe(None, None, None, false);
    if h.interval != 0 {
      p := p.(period := Some(h.interval));
    }
    if h.retries != 0 {
      p := p.(failureThreshold := Some(h.retries));
    }
    if h.startPeriod != 0 {
      var delay: int := h.startPeriod;
      if delay > MAX_DELAY {
        var period := h.interval;
        if period <= 0 {
          period := DEFAULT_PERIOD;
        }
        var threshold := h.retries;
        if threshold <= 0 {
          threshold := DEFAULT_THRESHOLD;
        }
        var lost := delay - MAX_DELAY;
        LeastThreshold(h);
        var want := threshold + (lost + period - 1) / period;
        OneLessIsTooFew(h, want);
        if want > MAX_THRESHOLD {
          CapLoses(h, want);
          want := MAX_THRESHOLD;
        }
        var budget := MAX_DELAY + want * period;
        p := p.(warned := budget < delay + threshold * period, failureThreshold := Some(want));
        delay := MAX_DELAY;
      }
      p := p.(initialDelay := Some(delay));
    }
  }
}
