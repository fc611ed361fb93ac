/** Weights, constraints and device health shared by the scheduler and the inference catalogue:
    src/aries/scheduler/router.py lines 24-84. */
module Scoring {
  import opened Wrappers

  datatype Locality = LocalOnly | Household | Anywhere

  datatype Constraints = Constraints(
    capability: string, locality: Locality, vendorPreference: seq<string>, vendorExclude: seq<string>,
    minContextWindow: int, maxCostClass: string, tags: seq<string>)

  datatype Weights = Weights(privacy: real, capability: real, latency: real, cost: real, health: real) {

    function Total(): real { privacy + capability + latency + cost + health }

    /** No weight is negative, and some weight counts. */
    predicate Sensible() {
      privacy >= 0.0 && capability >= 0.0 && latency >= 0.0 && cost >= 0.0 && health >= 0.0 && Total() > 0.0
    }
  }

  const DEFAULT_WEIGHTS := Weights(3.0, 2.0, 1.5, 1.0, 1.0)

  /** The five partial scores of one candidate. */
  datatype Scores = Scores(privacy: real, capability: real, latency: real, cost: real, health: real)

  function Weigh(weight: real, score: real): real { weight * score }

  function WeightedSum(w: Weights, s: Scores): real {
    Weigh(w.privacy, s.privacy) + Weigh(w.capability, s.capability) + Weigh(w.latency, s.latency) +
    Weigh(w.cost, s.cost) + Weigh(w.health, s.health)
  }

  function WeightedScore(w: Weights, s: Scores): real {
    if w.Total() == 0.0 then 0.0 else WeightedSum(w, s) / w.Total()
  }

  lemma DivideByPositive(a: real, b: real, d: real)
    requires a < b && d > 0.0
    ensures a / d < b / d
  {
  }

  function Min(a: real, b: real): real { if b < a then b else a }

  function Max(a: real, b: real): real { if b > a then b else a }

  // ---------------------------------------------------------------- device health

  datatype Thermal = Nominal | Warm | Throttled

  datatype Health = Health(cpuPercent: real, batteryPct: Option<real>, charging: bool, thermal: Thermal)

  function CpuFactor(h: Health): real { if h.cpuPercent > 80.0 then 0.5 else if h.cpuPercent > 50.0 then 0.8 else 1.0 }

  function BatteryFactor(h: Health): real {
    if h.batteryPct.None? then 1.0
    else if h.batteryPct.value < 10.0 && !h.charging then 0.1
    else if h.batteryPct.value < 30.0 then 0.5
    else if h.batteryPct.value < 50.0 then 0.8
    else 1.0
  }

  function ThermalFactor(h: Health): real { if h.thermal.Throttled? then 0.3 else if h.thermal.Warm? then 0.7 else 1.0 }

  /** The product that health_score accumulates. */
  function HealthScore(h: Health): real { CpuFactor(h) * BatteryFactor(h) * ThermalFactor(h) }

  /** DeviceHealth.health_score */
  method ComputeHealthScore(h: Health) returns (score: real)
    ensures score == HealthScore(h)
  {
    score := 1.0;
    if h.cpuPercent > 80.0 { score := score * 0.5; } else if h.cpuPercent > 50.0 { score := score * 0.8; }
    if h.batteryPct.Some? {
      if h.batteryPct.value < 10.0 && !h.charging {
        score := score * 0.1;
      } else if h.batteryPct.value < 30.0 {
        score := score * 0.5;
      } else if h.batteryPct.value < 50.0 {
        score := score * 0.8;
      }
    }
    if h.thermal.Throttled? { score := score * 0.3; } else if h.thermal.Warm? { score := score * 0.7; }
  }

  /** At least as well off: cooler, less loaded, and with more battery or on mains. */
  predicate NoWorse(a: Health, b: Health) {
    a.cpuPercent <= b.cpuPercent &&
    (a.batteryPct.None? || (b.batteryPct.Some? && a.batteryPct.value >= b.batteryPct.value)) &&
    (b.charging ==> a.charging) &&
    (a.thermal.Nominal? || a.thermal == b.thermal || b.thermal.Throttled?)
  }

  lemma MultiplyMonotone(a: real, b: real, c: real, d: real)
    requires 0.0 <= a <= b && 0.0 <= c <= d
    ensures 0.0 <= a * c <= b * d
  {
    assert a * c <= b * c <= b * d;
  }

  /** Health lies between 0.015 and 1, and a device that is no worse in every respect never scores lower. */
  lemma HealthMonotone(a: Health, b: Health)
    ensures 0.015 <= HealthScore(a) <= 1.0
    ensures NoWorse(a, b) ==> HealthScore(a) >= HealthScore(b)
  {
    MultiplyMonotone(0.5, CpuFactor(a), 0.1, BatteryFactor(a));
    MultiplyMonotone(CpuFactor(a), 1.0, BatteryFactor(a), 1.0);
    var p := CpuFactor(a) * BatteryFactor(a);
    MultiplyMonotone(0.05, p, 0.3, ThermalFactor(a));
    MultiplyMonotone(p, 1.0, ThermalFactor(a), 1.0);
    if NoWorse(a, b) {
      MultiplyMonotone(CpuFactor(b), CpuFactor(a), BatteryFactor(b), BatteryFactor(a));
      MultiplyMonotone(CpuFactor(b) * BatteryFactor(b), p, ThermalFactor(b), ThermalFactor(a));
    }
  }
}
