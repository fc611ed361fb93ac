/** The scheduler, from filter to selection: src/aries/scheduler/router.py lines 87-237. */
module Scheduling {
  import opened Wrappers
  import opened Scoring

  datatype Agent = Agent(did: string, vendor: string, capabilities: seq<string>, contextWindow: int, locality: string, costClass: string)

  /** A mandate's time window: absent, not of the form HH:MM-HH:MM, or minutes of the day. */
  datatype Window = NoWindow | Malformed | Between(start: int, end: int)

  datatype Mandate = Mandate(
    whenTags: seq<string>, whenTime: Window, isDefault: bool, enforceLocality: string, enforceCostClass: string,
    overrides: Option<Weights>)

  datatype Error = UnknownCostClass(string)

  const COST_ORDER := ["free", "metered", "paid"]

  /** list.index on COST_ORDER */
  function CostIndex(c: string): Option<nat> {
    if c == COST_ORDER[0] then Some(0) else if c == COST_ORDER[1] then Some(1) else if c == COST_ORDER[2] then Some(2) else None
  }

  function CostRank(c: string): real { if c == "free" then 1.0 else if c == "metered" then 0.5 else 0.2 }

  function LocalityRank(l: string): real { if l == "local" then 1.0 else if l == "cloud-routed" then 0.2 else 0.5 }

  // ---------------------------------------------------------------- mandates

  /** _is_within_time_window: a window whose start is after its end runs over midnight. */
  predicate WithinWindow(w: Window, minute: int) {
    w.Between? && if w.start <= w.end then w.start <= minute <= w.end else minute >= w.start || minute <= w.end
  }

  /** _mandate_applies */
  predicate Applies(m: Mandate, c: Constraints, minute: int) {
    m.isDefault || (exists t :: t in m.whenTags && t in c.tags) || WithinWindow(m.whenTime, minute)
  }

  function LocalityOf(name: string): Option<Locality> {
    if name == "local" then Some(LocalOnly) else if name == "household" then Some(Household)
    else if name == "any" then Some(Anywhere) else None
  }

  /** The effective constraints and the weights after the first mandates have been considered. */
  function Mandated(mandates: seq<Mandate>, c: Constraints, w: Weights, minute: int): (Constraints, Weights) {
    if mandates == [] then (c, w)
    else
      var (d, v) := Mandated(mandates[..|mandates| - 1], c, w, minute);
      var m := mandates[|mandates| - 1];
      if !Applies(m, c, minute) then (d, v)
      else
        (d.(locality := if LocalityOf(m.enforceLocality).Some? then LocalityOf(m.enforceLocality).value else d.locality,
            maxCostClass := if m.enforceCostClass != "" then m.enforceCostClass else d.maxCostClass),
         if m.overrides.Some? then m.overrides.value else v)
  }

  ghost predicate Enforces(mandates: seq<Mandate>, c: Constraints, minute: int, i: nat, l: Locality) {
    i < |mandates| && Applies(mandates[i], c, minute) && LocalityOf(mandates[i].enforceLocality) == Some(l)
  }

  /** The locality is that of the last applicable mandate that names a known one, and else that of the constraints. */
  lemma {:induction false} LastMandateDecides(mandates: seq<Mandate>, c: Constraints, w: Weights, minute: int, i: nat, l: Locality)
    requires Enforces(mandates, c, minute, i, l)
    requires forall j, k :: i < j < |mandates| ==> !Enforces(mandates, c, minute, j, k)
    ensures Mandated(mandates, c, w, minute).0.locality == l
  {
    var last := |mandates| - 1;
    if i < last {
      var rest := mandates[..last];
      forall j, k | i < j < last ensures !Enforces(rest, c, minute, j, k) {
        assert !Enforces(mandates, c, minute, j, k);
      }
      LastMandateDecides(rest, c, w, minute, i, l);
      if LocalityOf(mandates[last].enforceLocality).Some? {
        assert !Enforces(mandates, c, minute, last, LocalityOf(mandates[last].enforceLocality).value);
      }
    }
  }

  /** A window within the day holds the minutes that are met going forward from its start no later than its end. */
  lemma WindowExactly(start: int, end: int, minute: int)
    requires 0 <= start < 1440 && 0 <= end < 1440 && 0 <= minute < 1440
    ensures WithinWindow(Between(start, end), minute) <==> (minute - start) % 1440 <= (end - start) % 1440
  {
    assert (minute - start) % 1440 == if minute >= start then minute - start else minute - start + 1440;
    assert (end - start) % 1440 == if end >= start then end - start else end - start + 1440;
  }

  /** A mandate applies by default, by a tag that the task carries, or within its window; the locality names. */
  lemma AppliesExactly(m: Mandate, c: Constraints, minute: int, name: string)
    ensures Applies(m, c, minute) <==>
            m.isDefault || (exists t :: t in m.whenTags && t in c.tags) || WithinWindow(m.whenTime, minute)
    ensures !WithinWindow(NoWindow, minute) && !WithinWindow(Malformed, minute)
    ensures LocalityOf(name) ==
            if name == "local" then Some(LocalOnly) else if name == "household" then Some(Household)
            else if name == "any" then Some(Anywhere) else None
  {
  }

  /** The maximal cost class is that of the last applicable mandate that names one. */
  lemma {:induction false} LastCostClassDecides(mandates: seq<Mandate>, c: Constraints, w: Weights, minute: int, i: nat)
    requires i < |mandates| && Applies(mandates[i], c, minute) && mandates[i].enforceCostClass != ""
    requires forall j :: i < j < |mandates| && Applies(mandates[j], c, minute) ==> mandates[j].enforceCostClass == ""
    ensures Mandated(mandates, c, w, minute).0.maxCostClass == mandates[i].enforceCostClass
  {
    if i < |mandates| - 1 { LastCostClassDecides(mandates[..|mandates| - 1], c, w, minute, i); }
  }

  /** The weights are those of the last applicable mandate that overrides them. */
  lemma {:induction false} LastOverrideDecides(mandates: seq<Mandate>, c: Constraints, w: Weights, minute: int, i: nat)
    requires i < |mandates| && Applies(mandates[i], c, minute) && mandates[i].overrides.Some?
    requires forall j :: i < j < |mandates| && Applies(mandates[j], c, minute) ==> mandates[j].overrides.None?
    ensures Mandated(mandates, c, w, minute).1 == mandates[i].overrides.value
  {
    if i < |mandates| - 1 { LastOverrideDecides(mandates[..|mandates| - 1], c, w, minute, i); }
  }

  /** Mandates change nothing of the constraints but the locality and the maximal cost class. */
  lemma {:induction false} OtherConstraintsStay(mandates: seq<Mandate>, c: Constraints, w: Weights, minute: int)
    ensures var d := Mandated(mandates, c, w, minute).0;
            d.capability == c.capability && d.vendorPreference == c.vendorPreference && d.vendorExclude == c.vendorExclude &&
            d.minContextWindow == c.minContextWindow && d.tags == c.tags
  {
    if mandates != [] { OtherConstraintsStay(mandates[..|mandates| - 1], c, w, minute); }
  }

  lemma {:induction false} NoMandateDecides(mandates: seq<Mandate>, c: Constraints, w: Weights, minute: int)
    requires forall m :: m in mandates && Applies(m, c, minute) ==>
               LocalityOf(m.enforceLocality).None? && m.enforceCostClass == "" && m.overrides.None?
    ensures Mandated(mandates, c, w, minute) == (c, w)
  {
    if mandates != [] { NoMandateDecides(mandates[..|mandates| - 1], c, w, minute); }
  }

  /** Only overriding weights of an applicable mandate change the weights. */
  lemma {:induction false} WeightsStay(mandates: seq<Mandate>, c: Constraints, w: Weights, minute: int)
    requires forall m :: m in mandates && Applies(m, c, minute) ==> m.overrides.None?
    ensures Mandated(mandates, c, w, minute).1 == w
  {
    if mandates != [] { WeightsStay(mandates[..|mandates| - 1], c, w, minute); }
  }

  // ---------------------------------------------------------------- filtering

  /** What _filter asks of an agent. */
  predicate Eligible(a: Agent, c: Constraints)
    requires CostIndex(c.maxCostClass).Some?
  {
    c.capability in a.capabilities &&
    (c.locality.LocalOnly? ==> a.locality == "local") &&
    (c.vendorPreference != [] ==> a.vendor in c.vendorPreference) &&
    a.vendor !in c.vendorExclude &&
    a.contextWindow >= c.minContextWindow &&
    CostIndex(a.costClass).Some? && CostIndex(a.costClass).value <= CostIndex(c.maxCostClass).value
  }

  /** Each test of the filter, with the order of the cost classes spelled out. */
  lemma EligibleExactly(a: Agent, c: Constraints)
    ensures CostIndex(c.maxCostClass).Some? <==> c.maxCostClass == "free" || c.maxCostClass == "metered" || c.maxCostClass == "paid"
    ensures CostIndex(c.maxCostClass).Some? ==>
              (Eligible(a, c) <==>
                c.capability in a.capabilities && (c.locality == LocalOnly ==> a.locality == "local") &&
                (c.vendorPreference == [] || a.vendor in c.vendorPreference) && a.vendor !in c.vendorExclude &&
                a.contextWindow >= c.minContextWindow &&
                (a.costClass == "free" || (a.costClass == "metered" && c.maxCostClass != "free") ||
                 (a.costClass == "paid" && c.maxCostClass == "paid")))
  {
  }

  function AllEligible(agents: seq<Agent>, c: Constraints): (r: seq<Agent>)
    requires CostIndex(c.maxCostClass).Some?
    ensures forall a :: a in r <==> a in agents && Eligible(a, c)
  {
    if agents == [] then []
    else
      assert agents == agents[..|agents| - 1] + [agents[|agents| - 1]];
      AllEligible(agents[..|agents| - 1], c) + if Eligible(agents[|agents| - 1], c) then [agents[|agents| - 1]] else []
  }

  // ---------------------------------------------------------------- scoring

  function CapabilityOf(a: Agent, c: Constraints): real {
    var base := if a.contextWindow != 0 then Min(a.contextWindow as real / 200000.0, 1.0) else 0.3;
    if c.vendorPreference != [] && a.vendor in c.vendorPreference then Min(base + 0.1, 1.0) else base
  }

  function ScoresOf(a: Agent, c: Constraints, health: Option<Health>): Scores {
    Scores(LocalityRank(a.locality), CapabilityOf(a, c), if a.locality == "local" then 1.0 else 0.5, CostRank(a.costClass),
           HealthValue(health))
  }

  function HealthValue(health: Option<Health>): real { if health.Some? then HealthScore(health.value) else 0.7 }

  /** _score */
  function ScoreOf(w: Weights, a: Agent, c: Constraints, health: Option<Health>): real { WeightedScore(w, ScoresOf(a, c, health)) }

  /** The health used for an agent: that of the device it is mapped to, if known. */
  function HealthOf(a: Agent, devices: map<string, string>, healths: map<string, Health>): Option<Health> {
    if a.did in devices && devices[a.did] != "" && devices[a.did] in healths then Some(healths[devices[a.did]]) else None
  }

  /** Four of the five partial scores of an agent. */
  lemma ScoresExactly(a: Agent, c: Constraints, health: Option<Health>)
    ensures var s := ScoresOf(a, c, health);
            s.privacy == (if a.locality == "local" then 1.0 else if a.locality == "cloud-routed" then 0.2 else 0.5) &&
            s.latency == (if a.locality == "local" then 1.0 else 0.5) &&
            s.cost == (if a.costClass == "free" then 1.0 else if a.costClass == "metered" then 0.5 else 0.2) &&
            s.health == if health.Some? then HealthScore(health.value) else 0.7
  {
  }

  /** The fifth: the context window against 200000, 0.3 if it is not known, and a bonus for a preferred vendor. */
  lemma CapabilityExactly(a: Agent, c: Constraints, health: Option<Health>)
    ensures var base := if a.contextWindow == 0 then 0.3
                        else if a.contextWindow > 200000 then 1.0 else a.contextWindow as real / 200000.0;
            var preferred := c.vendorPreference != [] && a.vendor in c.vendorPreference;
            ScoresOf(a, c, health).capability ==
              if !preferred then base else if base + 0.1 > 1.0 then 1.0 else base + 0.1
  {
  }

  /** An agent's score is the weighted mean of its partial scores. */
  lemma ScoreExactly(w: Weights, a: Agent, c: Constraints, health: Option<Health>)
    ensures var total, s := w.privacy + w.capability + w.latency + w.cost + w.health, ScoresOf(a, c, health);
            if total == 0.0 then ScoreOf(w, a, c, health) == 0.0
            else ScoreOf(w, a, c, health) ==
                 (w.privacy * s.privacy + w.capability * s.capability + w.latency * s.latency + w.cost * s.cost + w.health * s.health) / total
  {
    hide ScoresOf;
  }

  /** The health of an agent is the one known of the device it is mapped to, if there is one. */
  lemma HealthOfExactly(a: Agent, devices: map<string, string>, healths: map<string, Health>)
    ensures a.did in devices && devices[a.did] != "" && devices[a.did] in healths ==>
              HealthOf(a, devices, healths) == Some(healths[devices[a.did]])
    ensures !(a.did in devices && devices[a.did] != "" && devices[a.did] in healths) ==> HealthOf(a, devices, healths) == None
  {
  }

  /** Both agents pass the filter; local is local and cloud is routed to the cloud. */
  predicate Rivals(local: Agent, cloud: Agent, c: Constraints) {
    CostIndex(c.maxCostClass).Some? && Eligible(local, c) && Eligible(cloud, c) &&
    local.locality == "local" && cloud.locality == "cloud-routed" && local.contextWindow >= 0
  }

  /** A local agent beats a cloud-routed one under the default weights, as long as the cloud-routed agent's device is
      not healthier by more than 0.35. */
  lemma LocalBeatsCloud(local: Agent, cloud: Agent, c: Constraints, lh: Option<Health>, ch: Option<Health>)
    requires Rivals(local, cloud, c) && HealthValue(ch) <= HealthValue(lh) + 0.35
    ensures ScoreOf(DEFAULT_WEIGHTS, cloud, c, ch) < ScoreOf(DEFAULT_WEIGHTS, local, c, lh)
  {
    var s, t := ScoresOf(local, c, lh), ScoresOf(cloud, c, ch);
    CapabilityGap(local, cloud, c);
    assert t.cost <= s.cost + 0.8;
    assert WeightedSum(DEFAULT_WEIGHTS, t) < WeightedSum(DEFAULT_WEIGHTS, s) by { DefaultGap(s, t); }
    DivideByPositive(WeightedSum(DEFAULT_WEIGHTS, t), WeightedSum(DEFAULT_WEIGHTS, s), DEFAULT_WEIGHTS.Total());
  }

  lemma CapabilityGap(local: Agent, cloud: Agent, c: Constraints)
    requires local.contextWindow >= 0
    ensures 0.0 < CapabilityOf(local, c) && CapabilityOf(cloud, c) <= 1.0
  {
  }

  lemma DefaultGap(s: Scores, t: Scores)
    requires s.privacy == 1.0 && t.privacy == 0.2 && s.latency == 1.0 && t.latency == 0.5
    requires t.capability < s.capability + 1.0 && t.cost <= s.cost + 0.8 && t.health <= s.health + 0.35
    ensures WeightedSum(DEFAULT_WEIGHTS, t) < WeightedSum(DEFAULT_WEIGHTS, s)
  {
  }

  /** Health scores are whole thousandths. */
  function Thousandths(h: Option<Health>): int {
    if h.None? then 700
    else
      var cpu := if h.value.cpuPercent > 80.0 then 5 else if h.value.cpuPercent > 50.0 then 8 else 10;
      var battery :=
        if h.value.batteryPct.None? then 10
        else if h.value.batteryPct.value < 10.0 && !h.value.charging then 1
        else if h.value.batteryPct.value < 30.0 then 5
        else if h.value.batteryPct.value < 50.0 then 8
        else 10;
      cpu * battery * (if h.value.thermal.Throttled? then 3 else if h.value.thermal.Warm? then 7 else 10)
  }

  lemma HealthInThousandths(h: Option<Health>)
    ensures HealthValue(h) == Thousandths(h) as real / 1000.0
  {
    if h.Some? {
      ProductOfTenths(CpuFactor(h.value), BatteryFactor(h.value), ThermalFactor(h.value));
    }
  }

  lemma ProductOfTenths(x: real, y: real, z: real)
    requires x == 0.5 || x == 0.8 || x == 1.0
    requires y == 0.1 || y == 0.5 || y == 0.8 || y == 1.0
    ensures z * 10.0 * (y * 10.0) * (x * 10.0) == x * y * z * 1000.0
  {
  }

  lemma NextHealthGap(lh: Option<Health>, ch: Option<Health>)
    requires HealthValue(ch) > HealthValue(lh) + 0.35
    ensures HealthValue(ch) >= HealthValue(lh) + 0.351
  {
    HealthInThousandths(lh);
    HealthInThousandths(ch);
  }

  /** With any greater gap the local agent loses to some rival: a paid one with the smallest context window against
      a free one with a full one. */
  lemma LocalCanLose(lh: Option<Health>, ch: Option<Health>) returns (local: Agent, cloud: Agent, c: Constraints)
    requires HealthValue(ch) > HealthValue(lh) + 0.35
    ensures Rivals(local, cloud, c) && ScoreOf(DEFAULT_WEIGHTS, local, c, lh) < ScoreOf(DEFAULT_WEIGHTS, cloud, c, ch)
  {
    NextHealthGap(lh, ch);
    local := Agent("", "", ["text"], 1, "local", "paid");
    cloud := Agent("", "", ["text"], 200000, "cloud-routed", "free");
    c := Constraints("text", Anywhere, [], [], 0, "paid", []);
    var s, t := ScoresOf(local, c, lh), ScoresOf(cloud, c, ch);
    assert s.capability == 1.0 / 200000.0 && t.capability == 1.0;
    LosingGap(s, t);
    DivideByPositive(WeightedSum(DEFAULT_WEIGHTS, s), WeightedSum(DEFAULT_WEIGHTS, t), DEFAULT_WEIGHTS.Total());
  }

  lemma LosingGap(s: Scores, t: Scores)
    requires s.privacy == 1.0 && t.privacy == 0.2 && s.latency == 1.0 && t.latency == 0.5
    requires s.capability == 1.0 / 200000.0 && t.capability == 1.0 && s.cost == 0.2 && t.cost == 1.0
    requires t.health >= s.health + 0.351
    ensures WeightedSum(DEFAULT_WEIGHTS, s) < WeightedSum(DEFAULT_WEIGHTS, t)
  {
  }

  /** Between devices of given healths local agents always win if and only if the cloud-routed agent's device is
      healthier by at most 0.35. */
  lemma LocalWinsExactly(lh: Option<Health>, ch: Option<Health>)
    ensures (forall local, cloud, c :: Rivals(local, cloud, c) ==>
              ScoreOf(DEFAULT_WEIGHTS, cloud, c, ch) < ScoreOf(DEFAULT_WEIGHTS, local, c, lh)) <==>
            HealthValue(ch) <= HealthValue(lh) + 0.35
  {
    if HealthValue(ch) <= HealthValue(lh) + 0.35 {
      forall local, cloud, c | Rivals(local, cloud, c)
        ensures ScoreOf(DEFAULT_WEIGHTS, cloud, c, ch) < ScoreOf(DEFAULT_WEIGHTS, local, c, lh)
      {
        LocalBeatsCloud(local, cloud, c, lh, ch);
      }
    } else {
      var local, cloud, c := LocalCanLose(lh, ch);
    }
  }

  // ---------------------------------------------------------------- selection

  type Scored = (Agent, real)

  function Insert(x: Scored, sorted: seq<Scored>): (r: seq<Scored>)
    ensures |r| == |sorted| + 1
  {
    if sorted == [] || x.1 >= sorted[0].1 then [x] + sorted else [sorted[0]] + Insert(x, sorted[1..])
  }

  /** list.sort by descending score; equal scores keep their order. */
  function SortedByScore(s: seq<Scored>): (r: seq<Scored>)
    ensures |r| == |s|
  {
    if s == [] then [] else Insert(s[0], SortedByScore(s[1..]))
  }

  /** s[i] is the first of the highest scores. */
  ghost predicate FirstMaximal(s: seq<Scored>, i: nat) {
    i < |s| && (forall j :: 0 <= j < |s| ==> s[j].1 <= s[i].1) && forall j :: 0 <= j < i ==> s[j].1 < s[i].1
  }

  lemma {:induction false} SortedHeadIsFirstMaximal(s: seq<Scored>) returns (i: nat)
    requires s != []
    ensures FirstMaximal(s, i) && SortedByScore(s)[0] == s[i]
  {
    if |s| == 1 {
      i := 0;
    } else {
      var rest := s[1..];
      var k := SortedHeadIsFirstMaximal(rest);
      assert rest[k] == s[k + 1];
      forall j | 0 < j < |s| ensures s[j].1 <= rest[k].1 && (j < k + 1 ==> s[j].1 < rest[k].1) {
        assert s[j] == rest[j - 1];
      }
      i := if s[0].1 >= rest[k].1 then 0 else k + 1;
    }
  }

  function ScoredAgents(agents: seq<Agent>, w: Weights, c: Constraints, devices: map<string, string>, healths: map<string, Health>): (r: seq<Scored>)
    ensures |r| == |agents|
    ensures forall i :: 0 <= i < |r| ==> r[i] == (agents[i], ScoreOf(w, agents[i], c, HealthOf(agents[i], devices, healths)))
  {
    seq(|agents|, i requires 0 <= i < |agents| => (agents[i], ScoreOf(w, agents[i], c, HealthOf(agents[i], devices, healths))))
  }

  ghost function AgentScore(a: Agent, w: Weights, c: Constraints, devices: map<string, string>, healths: map<string, Health>): real {
    ScoreOf(w, a, c, HealthOf(a, devices, healths))
  }

  /** Agent i passes the filter and scores at least as much as every other that does, and more than every earlier one. */
  ghost predicate FirstBest(agents: seq<Agent>, w: Weights, c: Constraints, devices: map<string, string>, healths: map<string, Health>, i: nat)
    requires CostIndex(c.maxCostClass).Some?
  {
    i < |agents| && Eligible(agents[i], c) &&
    forall j :: 0 <= j < |agents| && Eligible(agents[j], c) ==>
      AgentScore(agents[j], w, c, devices, healths) <= AgentScore(agents[i], w, c, devices, healths) &&
      (j < i ==> AgentScore(agents[j], w, c, devices, healths) < AgentScore(agents[i], w, c, devices, healths))
  }

  /** The selected agent is the earliest of the best-scoring eligible agents; none is selected if none is eligible. */
  ghost predicate Selects(agents: seq<Agent>, w: Weights, c: Constraints, devices: map<string, string>, healths: map<string, Health>,
                          r: Option<Scored>)
    requires CostIndex(c.maxCostClass).Some?
  {
    match r
    case None => forall a :: a in agents ==> !Eligible(a, c)
    case Some(best) =>
      exists i: nat :: FirstBest(agents, w, c, devices, healths, i) &&
        best == (agents[i], AgentScore(agents[i], w, c, devices, healths))
  }

  lemma EligibleLast(agents: seq<Agent>, c: Constraints)
    requires CostIndex(c.maxCostClass).Some? && agents != []
    ensures var rest, last := agents[..|agents| - 1], agents[|agents| - 1];
            AllEligible(agents, c) == AllEligible(rest, c) + (if Eligible(last, c) then [last] else [])
  {
  }

  /** The agent at k is the first of the best in a list of eligible agents. */
  ghost predicate FirstOf(list: seq<Agent>, w: Weights, c: Constraints, devices: map<string, string>, healths: map<string, Health>, k: nat) {
    k < |list| && forall j :: 0 <= j < |list| ==>
      AgentScore(list[j], w, c, devices, healths) <= AgentScore(list[k], w, c, devices, healths) &&
      (j < k ==> AgentScore(list[j], w, c, devices, healths) < AgentScore(list[k], w, c, devices, healths))
  }

  /** The first of the best in the filtered list is the earliest best eligible agent of the whole list. */
  lemma {:induction false} FirstOfIsFirstBest(agents: seq<Agent>, w: Weights, c: Constraints, devices: map<string, string>,
                                              healths: map<string, Health>, k: nat) returns (i: nat)
    requires CostIndex(c.maxCostClass).Some? && FirstOf(AllEligible(agents, c), w, c, devices, healths, k)
    ensures FirstBest(agents, w, c, devices, healths, i) && AllEligible(agents, c)[k] == agents[i]
  {
    assert agents != [];
    hide Eligible, AllEligible, CostIndex, AgentScore, FirstBest;
    EligibleLast(agents, c);
    var rest, before, all := agents[..|agents| - 1], AllEligible(agents[..|agents| - 1], c), AllEligible(agents, c);
    if k < |before| {
      FirstOfPrefix(all, w, c, devices, healths, |before|, k);
      assert before == all[..|before|] && all[k] == before[k];
      hide FirstOf;
      i := FirstOfIsFirstBest(rest, w, c, devices, healths, k);
      StaysBest(agents, w, c, devices, healths, k, i);
    } else {
      i := |agents| - 1;
      LastIsBest(agents, w, c, devices, healths, k);
    }
  }

  lemma FirstOfPrefix(list: seq<Agent>, w: Weights, c: Constraints, devices: map<string, string>, healths: map<string, Health>, n: nat, k: nat)
    requires FirstOf(list, w, c, devices, healths, k) && k < n <= |list|
    ensures FirstOf(list[..n], w, c, devices, healths, k)
  {
    hide AgentScore;
  }

  lemma StaysBest(agents: seq<Agent>, w: Weights, c: Constraints, devices: map<string, string>, healths: map<string, Health>, k: nat, i: nat)
    requires CostIndex(c.maxCostClass).Some? && agents != [] && FirstOf(AllEligible(agents, c), w, c, devices, healths, k)
    requires FirstBest(agents[..|agents| - 1], w, c, devices, healths, i) && AllEligible(agents, c)[k] == agents[i]
    ensures FirstBest(agents, w, c, devices, healths, i)
  {
    hide Eligible, AllEligible, CostIndex, AgentScore;
    var rest, last := agents[..|agents| - 1], agents[|agents| - 1];
    assert forall j :: 0 <= j < |rest| ==> agents[j] == rest[j];
    if Eligible(last, c) {
      assert last in AllEligible(agents, c);
    }
  }

  lemma LastIsBest(agents: seq<Agent>, w: Weights, c: Constraints, devices: map<string, string>, healths: map<string, Health>, k: nat)
    requires CostIndex(c.maxCostClass).Some? && agents != [] && FirstOf(AllEligible(agents, c), w, c, devices, healths, k)
    requires k == |AllEligible(agents[..|agents| - 1], c)|
    ensures FirstBest(agents, w, c, devices, healths, |agents| - 1) && AllEligible(agents, c)[k] == agents[|agents| - 1]
  {
    hide Eligible, AllEligible, CostIndex, AgentScore;
    EligibleLast(agents, c);
    var rest, last := agents[..|agents| - 1], agents[|agents| - 1];
    var before, all := AllEligible(rest, c), AllEligible(agents, c);
    assert all == before + [last];
    forall j | 0 <= j < |rest| && Eligible(agents[j], c)
      ensures AgentScore(agents[j], w, c, devices, healths) < AgentScore(last, w, c, devices, healths)
    {
      assert rest[j] in rest && agents[j] in before;
      var l :| 0 <= l < |before| && before[l] == agents[j];
      assert all[l] == before[l];
    }
  }

  lemma FirstMaximalIsFirstBest(agents: seq<Agent>, w: Weights, c: Constraints, devices: map<string, string>,
                                healths: map<string, Health>, k: nat) returns (i: nat)
    requires CostIndex(c.maxCostClass).Some?
    requires FirstMaximal(ScoredAgents(AllEligible(agents, c), w, c, devices, healths), k)
    ensures FirstBest(agents, w, c, devices, healths, i) && AllEligible(agents, c)[k] == agents[i]
  {
    hide Eligible, AllEligible, ScoredAgents, CostIndex, AgentScore, FirstBest;
    ScoresOfAll(AllEligible(agents, c), w, c, devices, healths);
    i := FirstOfIsFirstBest(agents, w, c, devices, healths, k);
  }

  lemma ScoresOfAll(agents: seq<Agent>, w: Weights, c: Constraints, devices: map<string, string>, healths: map<string, Health>)
    ensures forall i :: 0 <= i < |agents| ==>
              ScoredAgents(agents, w, c, devices, healths)[i] == (agents[i], AgentScore(agents[i], w, c, devices, healths))
  {
  }

  /** All else equal the healthier device wins: no eligible agent with the same partial scores but health is on a
      device that is strictly healthier than that of the selected one. */
  lemma HealthierDeviceWins(agents: seq<Agent>, w: Weights, c: Constraints, devices: map<string, string>, healths: map<string, Health>,
                            best: Scored, other: Agent)
    requires CostIndex(c.maxCostClass).Some? && Selects(agents, w, c, devices, healths, Some(best))
    requires w.Sensible() && w.health > 0.0 && other in agents && Eligible(other, c)
    requires other == best.0.(did := other.did) || ScoresOf(other, c, None) == ScoresOf(best.0, c, None)
    requires best.0.did in devices && devices[best.0.did] != "" && devices[best.0.did] in healths
    requires other.did in devices && devices[other.did] != "" && devices[other.did] in healths
    ensures HealthScore(healths[devices[other.did]]) <= HealthScore(healths[devices[best.0.did]])
  {
    var i: nat :| FirstBest(agents, w, c, devices, healths, i) &&
                  best == (agents[i], AgentScore(agents[i], w, c, devices, healths));
    var j :| 0 <= j < |agents| && agents[j] == other;
    HealthOfExactly(best.0, devices, healths);
    HealthOfExactly(other, devices, healths);
    hide Eligible, HealthOf, CostIndex, HealthScore;
    HealthDecides(w, ScoresOf(best.0, c, HealthOf(best.0, devices, healths)), ScoresOf(other, c, HealthOf(other, devices, healths)));
  }

  lemma HealthDecides(w: Weights, s: Scores, t: Scores)
    requires w.Sensible() && w.health > 0.0 && t == s.(health := t.health)
    ensures WeightedScore(w, t) <= WeightedScore(w, s) ==> t.health <= s.health
  {
    if t.health > s.health {
      MoreWeighs(w.health, s.health, t.health);
      hide Weigh;
      DivideByPositive(WeightedSum(w, s), WeightedSum(w, t), w.Total());
    }
  }

  lemma MoreWeighs(weight: real, low: real, high: real)
    requires weight > 0.0 && low < high
    ensures Weigh(weight, low) < Weigh(weight, high)
  {
    assert weight * high - weight * low == weight * (high - low);
  }

  /** Local wins by default: where a cloud-routed agent is selected, no local agent passes the filter, unless the
      selected agent's device is healthier than the local one's by more than 0.35. On one device it never is. */
  lemma LocalWins(agents: seq<Agent>, c: Constraints, devices: map<string, string>, healths: map<string, Health>, best: Scored, local: Agent)
    requires CostIndex(c.maxCostClass).Some? && Selects(agents, DEFAULT_WEIGHTS, c, devices, healths, Some(best))
    requires best.0.locality == "cloud-routed"
    requires local in agents && local.locality == "local" && local.contextWindow >= 0
    ensures HealthValue(HealthOf(best.0, devices, healths)) <= HealthValue(HealthOf(local, devices, healths)) + 0.35 ==>
            !Eligible(local, c)
  {
    hide Eligible, ScoreOf, ScoresOf, HealthOf, CostIndex, HealthValue;
    NotBeatenNotEligible(local, best.0, c, HealthOf(local, devices, healths), HealthOf(best.0, devices, healths));
  }

  lemma NotBeatenNotEligible(local: Agent, cloud: Agent, c: Constraints, lh: Option<Health>, ch: Option<Health>)
    requires CostIndex(c.maxCostClass).Some? && Eligible(cloud, c)
    requires local.locality == "local" && cloud.locality == "cloud-routed" && local.contextWindow >= 0
    ensures ScoreOf(DEFAULT_WEIGHTS, local, c, lh) <= ScoreOf(DEFAULT_WEIGHTS, cloud, c, ch) ==>
              HealthValue(ch) <= HealthValue(lh) + 0.35 ==> !Eligible(local, c)
  {
    if HealthValue(ch) <= HealthValue(lh) + 0.35 && Eligible(local, c) { LocalBeatsCloud(local, cloud, c, lh, ch); }
  }

  /** No local agent that could replace a selected cloud-routed one passes the filter. */
  ghost predicate LocalFirst(agents: seq<Agent>, c: Constraints, devices: map<string, string>, healths: map<string, Health>, best: Scored)
    requires CostIndex(c.maxCostClass).Some?
  {
    best.0.locality == "cloud-routed" ==>
      forall local :: local in agents && local.locality == "local" && local.contextWindow >= 0 &&
                      HealthValue(HealthOf(best.0, devices, healths)) <= HealthValue(HealthOf(local, devices, healths)) + 0.35 ==>
                      !Eligible(local, c)
  }

  lemma SelectedLocalFirst(agents: seq<Agent>, c: Constraints, devices: map<string, string>, healths: map<string, Health>, best: Scored)
    requires CostIndex(c.maxCostClass).Some? && Selects(agents, DEFAULT_WEIGHTS, c, devices, healths, Some(best))
    ensures LocalFirst(agents, c, devices, healths, best)
  {
    hide Selects, HealthValue, HealthOf, Eligible, CostIndex;
    forall local | best.0.locality == "cloud-routed" && local in agents && local.locality == "local" && local.contextWindow >= 0
      ensures HealthValue(HealthOf(best.0, devices, healths)) <= HealthValue(HealthOf(local, devices, healths)) + 0.35 ==> !Eligible(local, c)
    {
      LocalWins(agents, c, devices, healths, best, local);
    }
  }

  /** The same of a whole selection, from the constraints as requested: without overriding weights, a selected agent
      is routed to the cloud only if no local agent on an equally healthy device passes the mandated filter. */
  lemma MandatedLocalFirst(mandates: seq<Mandate>, constraints: Constraints, minute: int, agents: seq<Agent>,
                           devices: map<string, string>, healths: map<string, Health>, best: Scored)
    requires forall m :: m in mandates && Applies(m, constraints, minute) ==> m.overrides.None?
    requires var (c, w) := Mandated(mandates, constraints, DEFAULT_WEIGHTS, minute);
             CostIndex(c.maxCostClass).Some? && Selects(agents, w, c, devices, healths, Some(best))
    ensures LocalFirst(agents, Mandated(mandates, constraints, DEFAULT_WEIGHTS, minute).0, devices, healths, best)
  {
    hide Selects, LocalFirst, CostIndex;
    WeightsStay(mandates, constraints, DEFAULT_WEIGHTS, minute);
    SelectedLocalFirst(agents, Mandated(mandates, constraints, DEFAULT_WEIGHTS, minute).0, devices, healths, best);
  }

  class Scheduler {
    var weights: Weights
    const mandates: seq<Mandate>
    var deviceHealth: map<string, Health>

    constructor (weights: Option<Weights>, mandates: seq<Mandate>)
      ensures this.weights == (if weights.Some? then weights.value else DEFAULT_WEIGHTS)
      ensures this.mandates == mandates && deviceHealth == map[]
    {
      this.weights := if weights.Some? then weights.value else DEFAULT_WEIGHTS;
      this.mandates := mandates;
      deviceHealth := map[];
    }

    /** update_device_health */
    method UpdateDeviceHealth(did: string, h: Health)
      modifies this`deviceHealth
      ensures deviceHealth == old(deviceHealth)[did := h]
    {
      deviceHealth := deviceHealth[did := h];
    }

    /** _apply_mandates; overriding weights stay in force for later tasks. */
    method ApplyMandates(c: Constraints, minute: int) returns (effective: Constraints)
      modifies this`weights
      ensures (effective, weights) == Mandated(mandates, c, old(weights), minute)
    {
      effective := c;
      var i := 0;
      while i < |mandates|
        invariant 0 <= i <= |mandates| && (effective, weights) == Mandated(mandates[..i], c, old(weights), minute)
      {
        var m := mandates[i];
        assert mandates[..i + 1][..i] == mandates[..i];
        if Applies(m, c, minute) {
          if m.enforceLocality == "local" {
            effective := effective.(locality := LocalOnly);
          } else if m.enforceLocality == "household" {
            effective := effective.(locality := Household);
          } else if m.enforceLocality == "any" {
            effective := effective.(locality := Anywhere);
          }
          if m.enforceCostClass != "" { effective := effective.(maxCostClass := m.enforceCostClass); }
          if m.overrides.Some? { weights := m.overrides.value; }
        }
        i := i + 1;
      }
      assert mandates[..i] == mandates;
    }

    /** _filter: ValueError for a maximal cost class outside COST_ORDER. */
    method Filter(agents: seq<Agent>, c: Constraints) returns (r: Result<seq<Agent>, Error>)
      ensures r.Err? <==> c.maxCostClass !in COST_ORDER
      ensures r.Ok? ==> CostIndex(c.maxCostClass).Some? && r.value == AllEligible(agents, c)
    {
      if CostIndex(c.maxCostClass).None? { return Err(UnknownCostClass(c.maxCostClass)); }
      var out := [];
      var i := 0;
      while i < |agents|
        invariant 0 <= i <= |agents| && out == AllEligible(agents[..i], c)
      {
        assert agents[..i + 1][..i] == agents[..i];
        if Eligible(agents[i], c) { out := out + [agents[i]]; }
        i := i + 1;
      }
      assert agents[..i] == agents;
      r := Ok(out);
    }

    /** select_agent */
    method SelectAgent(agents: seq<Agent>, constraints: Constraints, devices: map<string, string>, minute: int)
      returns (r: Result<Option<Scored>, Error>)
      modifies this`weights
      ensures var (effective, w) := Mandated(mandates, constraints, old(weights), minute);
              weights == w &&
              (r.Err? <==> effective.maxCostClass !in COST_ORDER) &&
              (r.Ok? ==> CostIndex(effective.maxCostClass).Some? &&
                         Selects(agents, w, effective, devices, deviceHealth, r.value) &&
                         (r.value.Some? && old(weights) == DEFAULT_WEIGHTS &&
                          (forall m :: m in mandates && Applies(m, constraints, minute) ==> m.overrides.None?) ==>
                            LocalFirst(agents, effective, devices, deviceHealth, r.value.value)))
    {
      hide LocalFirst, FirstBest, Eligible, Applies, AllEligible, Mandated, ScoreOf, HealthOf, SortedByScore, FirstMaximal, CostIndex, ScoredAgents;
      var effective := ApplyMandates(constraints, minute);
      var filtered := Filter(agents, effective);
      if filtered.Err? { return Err(filtered.error); }
      var candidates := filtered.value;
      if candidates == [] {
        assert forall a :: a in agents ==> !Eligible(a, effective);
        return Ok(None);
      }
      var scored: seq<Scored> := [];
      ghost var all := ScoredAgents(candidates, weights, effective, devices, deviceHealth);
      var i := 0;
      while i < |candidates|
        invariant 0 <= i <= |candidates| && scored == all[..i]
      {
        var health := HealthOf(candidates[i], devices, deviceHealth);
        scored := scored + [(candidates[i], ScoreOf(weights, candidates[i], effective, health))];
        i := i + 1;
      }
      assert scored == all;
      ghost var first := SortedHeadIsFirstMaximal(all);
      ghost var best := FirstMaximalIsFirstBest(agents, weights, effective, devices, deviceHealth, first);
      scored := SortedByScore(scored);
      r := Ok(Some(scored[0]));
      if old(weights) == DEFAULT_WEIGHTS && forall m :: m in mandates && Applies(m, constraints, minute) ==> m.overrides.None? {
        MandatedLocalFirst(mandates, constraints, minute, agents, devices, deviceHealth, scored[0]);
      }
    }
  }
}
