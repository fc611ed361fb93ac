/** The mutable catalogue: src/aries/inference/registry.py lines 166-280. */
module Registry {
  import opened Wrappers
  import opened Tables
  import opened Scoring
  import opened Catalogue

  // ---------------------------------------------------------------- choosing

  predicate Permitted(c: Config, locality: Locality) { !(locality.LocalOnly? && c.kind.Cloud?) }

  /** The configurations that a locality permits, in order. */
  function AllPermitted(configs: seq<Config>, locality: Locality): seq<Config> {
    if configs == [] then []
    else
      var last := configs[|configs| - 1];
      AllPermitted(configs[..|configs| - 1], locality) + if Permitted(last, locality) then [last] else []
  }

  lemma {:induction false} PermittedMembers(configs: seq<Config>, locality: Locality)
    ensures forall c :: c in AllPermitted(configs, locality) <==> c in configs && !(locality == LocalOnly && c.kind == Cloud)
  {
    if configs != [] {
      var rest, last := configs[..|configs| - 1], configs[|configs| - 1];
      assert configs == rest + [last];
      PermittedMembers(rest, locality);
    }
  }

  /** The first of the highest scores. */
  ghost predicate IsBest(w: Weights, configs: seq<Config>, healths: map<string, Health>, i: nat) {
    i < |configs| &&
    (forall j :: 0 <= j < |configs| ==> LiveScore(w, configs[j], healths) <= LiveScore(w, configs[i], healths)) &&
    (forall j :: 0 <= j < i ==> LiveScore(w, configs[j], healths) < LiveScore(w, configs[i], healths))
  }

  lemma {:induction false} NoCloudAllPermitted(configs: seq<Config>, locality: Locality)
    requires forall c :: c in configs ==> !c.kind.Cloud?
    ensures AllPermitted(configs, locality) == configs
  {
    if configs != [] { NoCloudAllPermitted(configs[..|configs| - 1], locality); }
  }

  /** Sizes and reported latencies are not negative. */
  ghost predicate Plausible(devices: Devices, models: seq<Model>) {
    (forall m :: m in models ==> m.sizeGb >= 0.0) &&
    forall e, k :: e in devices && k in e.1.peerLatencyMs ==> e.1.peerLatencyMs[k] >= 0.0
  }

  /** Latency weighs at most three times as much as privacy, as by default. */
  predicate PrivacyCounts(w: Weights) { w.Sensible() && w.privacy > 0.0 && w.latency <= 3.0 * w.privacy }

  /** The configuration is one of a registered model that its host's usable memory cannot hold. */
  ghost predicate TooLargeForHost(devices: Devices, models: seq<Model>, r: Config) {
    exists c: Choice :: c.model in models && Buildable(devices, c) && r == Build(devices, c) &&
      var h := Get(devices, c.model.device).value;
      c.model.sizeGb > if h.hasGpu && h.vramAvailableGb > 0.0 then h.vramAvailableGb else h.ramAvailableGb
  }

  ghost predicate IsCatalogue(devices: Devices, models: seq<Model>, configs: seq<Config>) {
    var choices := Choices(devices, models);
    AllBuildable(devices, choices) && configs == BuildAll(devices, choices)
  }

  lemma PlausibleLatency(devices: Devices, models: seq<Model>, did: string, peer: string)
    requires Plausible(devices, models) && Get(devices, did).Some?
    ensures Lookup(Get(devices, did).value.peerLatencyMs, peer, 50.0) >= 0.0
  {
    var e := (did, Get(devices, did).value);
    assert e in devices;
  }

  /** The best configuration shares a model with a worker only if the model does not fit on its host alone. */
  lemma BestSharesOnlyIfNeeded(w: Weights, devices: Devices, models: seq<Model>, configs: seq<Config>,
                               healths: map<string, Health>, i: nat)
    requires Distinct(devices) && IsCatalogue(devices, models, configs) && Plausible(devices, models)
    requires PrivacyCounts(w)
    requires IsBest(w, configs, healths, i)
    ensures !configs[i].kind.Cloud? && (configs[i].kind.Distributed? ==> TooLargeForHost(devices, models, configs[i]))
  {
    var choices := Choices(devices, models);
    var c := choices[i];
    assert c in choices;
    BuildKinds(devices, c);
    SharingIsBeaten(w, devices, models, configs, healths, i);
  }

  lemma {:induction false} SharingIsBeaten(w: Weights, devices: Devices, models: seq<Model>, configs: seq<Config>, healths: map<string, Health>, i: nat)
    requires Distinct(devices) && IsCatalogue(devices, models, configs) && Plausible(devices, models)
    requires PrivacyCounts(w) && i < |configs|
    ensures var c := Choices(devices, models)[i];
            Buildable(devices, c) && c.model in models &&
            (c.worker.Some? && Fits(Get(devices, c.model.device).value, c.model) ==>
             exists j :: 0 <= j < |configs| && LiveScore(w, configs[i], healths) < LiveScore(w, configs[j], healths))
  {
    var choices := Choices(devices, models);
    var c := choices[i];
    assert c in choices;
    ChoicesExactly(devices, models);
    if c.worker.Some? && Fits(Get(devices, c.model.device).value, c.model) {
      AloneScoresHigher(w, devices, models, c, healths);
      hide Feasible, LiveScore;
      var alone := Choice(c.model, None);
      assert alone in choices;
      var j :| 0 <= j < |choices| && choices[j] == alone;
      assert configs[j] == Build(devices, alone);
    }
  }

  lemma AloneScoresHigher(w: Weights, devices: Devices, models: seq<Model>, c: Choice, healths: map<string, Health>)
    requires PrivacyCounts(w)
    requires Plausible(devices, models) && c.model in models && Buildable(devices, c) && c.worker.Some?
    requires Fits(Get(devices, c.model.device).value, c.model)
    ensures Buildable(devices, Choice(c.model, None))
    ensures LiveScore(w, Build(devices, c), healths) < LiveScore(w, Build(devices, Choice(c.model, None)), healths)
  {
    var host, worker := Get(devices, c.model.device).value, Get(devices, c.worker.value).value;
    PlausibleLatency(devices, models, c.model.device, worker.did);
    LocalBeatsDistributed(w, host, worker, c.model, healths);
  }

  lemma BuildKinds(devices: Devices, c: Choice)
    requires Buildable(devices, c)
    ensures Build(devices, c).kind == if c.worker.None? then Local else Distributed
  {
  }

  /** With models registered in order, the catalogue has exactly one entry for each registered model that fits on
      its host and for each registered model, host and other device whose memory suffices together. */
  lemma {:induction false} CatalogueExactly(devices: Devices, models: Models, configs: seq<Config>)
    requires Distinct(devices) && ModelsOk(models) && IsCatalogue(devices, AllModels(models), configs)
    ensures var choices := Choices(devices, AllModels(models));
            NoRepeats(choices) && |configs| == |choices| &&
            (forall i :: 0 <= i < |configs| ==> configs[i] == Build(devices, choices[i])) &&
            (forall c: Choice :: c in choices <==> c.model in ListOf(models, c.model.name) && Feasible(devices, c)) &&
            (forall m: Model :: Choice(m, None) in choices <==>
              m in ListOf(models, m.name) && Get(devices, m.device).Some? &&
              var h := Get(devices, m.device).value;
              m.sizeGb <= if h.hasGpu && h.vramAvailableGb > 0.0 then h.vramAvailableGb else h.ramAvailableGb)
  {
    AllModelsOk(models);
    ChoicesExactly(devices, AllModels(models));
    forall m: Model ensures Feasible(devices, Choice(m, None)) <==>
      Get(devices, m.device).Some? &&
      var h := Get(devices, m.device).value;
      m.sizeGb <= if h.hasGpu && h.vramAvailableGb > 0.0 then h.vramAvailableGb else h.ramAvailableGb
    {
      FeasibleExactly(devices, m, "");
    }
    hide Feasible, Build, Buildable;
    forall m: Model ensures m in AllModels(models) <==> m in ListOf(models, m.name) {
      InOwnList(models, m);
    }
  }

  /** Updating a new device that reports its own models and then removing it restores the catalogue itself, whether
      or not the update raised, and the removal does not raise. */
  lemma CatalogueRestored(devices: Devices, models: Models, did: string, d: Device, before: seq<Config>, after: seq<Config>)
    requires ModelsOk(models) && IsCatalogue(devices, AllModels(models), before)
    requires Get(devices, did).None? && (forall m :: m in AllModels(models) ==> m.device != did)
    requires forall m :: m in d.models ==> m.device == did
    ensures var left, purged := Drop(Put(devices, did, d), did), Purged(RegisteredAll(models, d.models), did);
            AllBuildable(left, Choices(left, AllModels(purged))) &&
            (IsCatalogue(left, AllModels(purged), after) <==> after == before)
  {
    UpdateThenRemove(models, devices, did, d);
  }

  /** A catalogue holds no cloud configuration, so no locality removes anything from it. */
  lemma CatalogueAllPermitted(devices: Devices, models: seq<Model>, configs: seq<Config>, locality: Locality)
    requires IsCatalogue(devices, models, configs)
    ensures AllPermitted(configs, locality) == configs
  {
    forall c | c in configs ensures !c.kind.Cloud? {
      var i :| 0 <= i < |configs| && configs[i] == c;
      assert Choices(devices, models)[i] in Choices(devices, models);
      BuildKinds(devices, Choices(devices, models)[i]);
    }
    NoCloudAllPermitted(configs, locality);
  }

  // ---------------------------------------------------------------- tables updated in the middle of a loop

  lemma {:induction false} PutMiddle<V>(a: Table<V>, e: (string, V), b: Table<V>, v: V)
    requires !Has(a, e.0)
    ensures Put(a + [e] + b, e.0, v) == a + [(e.0, v)] + b
  {
    var t := a + [e] + b;
    if a == [] {
      assert t == [e] + b;
    } else {
      NotHasTail(a, e.0);
      PutMiddle(a[1..], e, b, v);
      assert t[1..] == a[1..] + [e] + b;
    }
  }

  lemma {:induction false} DropMiddle<V>(a: Table<V>, e: (string, V), b: Table<V>)
    requires !Has(a, e.0)
    ensures Drop(a + [e] + b, e.0) == a + b
  {
    var t := a + [e] + b;
    if a == [] {
      assert t == [e] + b;
    } else {
      NotHasTail(a, e.0);
      DropMiddle(a[1..], e, b);
      assert t[1..] == a[1..] + [e] + b;
    }
  }

  lemma NotHasTail<V>(a: Table<V>, k: string)
    requires a != [] && !Has(a, k)
    ensures a[0].0 != k && !Has(a[1..], k)
  {
    forall i | 0 <= i < |a| - 1 ensures a[1..][i].0 != k {
      assert a[1..][i] == a[i + 1];
    }
  }

  lemma {:induction false} PurgedAppend(a: Models, e: (string, seq<Model>), did: string)
    ensures Purged(a + [e], did) == Purged(a, did) + (if Without(e.1, did) == [] then [] else [(e.0, Without(e.1, did))])
    ensures !Has(a, e.0) ==> !Has(Purged(a, did), e.0)
  {
    if a == [] {
      assert a + [e] == [e];
    } else {
      assert (a + [e])[1..] == a[1..] + [e];
      PurgedAppend(a[1..], e, did);
      if !Has(a, e.0) {
        NotHasTail(a, e.0);
        var left := Without(a[0].1, did);
        if left != [] {
          var rest := Purged(a[1..], did);
          var p := [(a[0].0, left)] + rest;
          assert forall i :: 0 < i < |p| ==> p[i] == rest[i - 1];
        }
      }
    }
  }

  // ---------------------------------------------------------------- the registry

  class InferenceRegistry {
    var models: Models
    var devices: Devices
    var configs: seq<Config>
    const weights: Weights

    ghost predicate Valid()
      reads this
    {
      ModelsOk(models) && Distinct(devices)
    }

    /** The catalogue is what recomputing it would give. */
    ghost predicate Current()
      reads this
    {
      IsCatalogue(devices, AllModels(models), configs)
    }

    /** Recomputing raises nothing. */
    ghost predicate Computable()
      reads this
    {
      AllBuildable(devices, Choices(devices, AllModels(models)))
    }

    constructor (weights: Option<Weights>)
      ensures Valid() && Current() && models == [] && devices == []
      ensures this.weights == if weights.Some? then weights.value else DEFAULT_WEIGHTS
      ensures weights.None? ==> PrivacyCounts(this.weights) && this.weights == Weights(3.0, 2.0, 1.5, 1.0, 1.0)
    {
      models := [];
      devices := [];
      configs := [];
      this.weights := if weights.Some? then weights.value else DEFAULT_WEIGHTS;
    }

    /** _register_model_no_recompute */
    method RegisterModelNoRecompute(m: Model)
      requires Valid()
      modifies this`models
      ensures Valid() && models == Registered(old(models), m)
    {
      RegisteredOk(models, m);
      var list := ListOf(models, m.name);
      models := Put(models, m.name, Without(list, m.device) + [m]);
    }

    /** register_model */
    method RegisterModel(m: Model) returns (raised: bool)
      requires Valid()
      modifies this
      ensures Valid() && models == Registered(old(models), m) && devices == old(devices)
      ensures forall x :: x in AllModels(models) <==>
                x == m || (x in old(AllModels(models)) && !(x.name == m.name && x.device == m.device))
      ensures raised <==> !Computable()
      ensures if raised then configs == old(configs) else Current()
    {
      RegisteredModels(models, m);
      RegisterModelNoRecompute(m);
      raised := ComputeConfigs();
    }

    /** update_device */
    method UpdateDevice(did: string, d: Device) returns (raised: bool)
      requires Valid()
      modifies this
      ensures Valid() && models == RegisteredAll(old(models), d.models) && devices == Put(old(devices), did, d)
      ensures forall k :: Get(devices, k) == if k == did then Some(d) else Get(old(devices), k)
      ensures raised <==> !Computable()
      ensures if raised then configs == old(configs) else Current()
    {
      PutDistinct(devices, did, d);
      forall k ensures Get(Put(devices, did, d), k) == if k == did then Some(d) else Get(devices, k) { GetPut(devices, did, d, k); }
      hide ModelsOk, Distinct, Put, RegisteredAll, AllBuildable, IsCatalogue;
      devices := Put(devices, did, d);
      RegisteredNone(models, d.models);
      var i := 0;
      while i < |d.models|
        invariant 0 <= i <= |d.models| && Valid()
        invariant models == RegisteredAll(old(models), d.models[..i])
        invariant devices == Put(old(devices), did, d) && configs == old(configs)
      {
        RegisteredNext(old(models), d.models, i);
        RegisterModelNoRecompute(d.models[i]);
        i := i + 1;
      }
      assert d.models[..i] == d.models;
      raised := ComputeConfigs();
    }

    /** remove_device */
    method RemoveDevice(did: string) returns (raised: bool)
      requires Valid()
      modifies this
      ensures Valid() && models == Purged(old(models), did) && devices == Drop(old(devices), did)
      ensures forall k :: Get(devices, k) == if k == did then None else Get(old(devices), k)
      ensures forall x :: x in AllModels(models) <==> x in old(AllModels(models)) && x.device != did
      ensures raised <==> !Computable()
      ensures if raised then configs == old(configs) else Current()
    {
      hide ModelsOk, Purged, Put, Drop, Without, Distinct, IsCatalogue, AllBuildable, Choices, AllModels;
      RemovalOk(models, devices, did);
      PurgedModels(models, did);
      forall k ensures Get(Drop(devices, did), k) == if k == did then None else Get(devices, k) { GetDrop(devices, did, k); }
      devices := Drop(devices, did);
      var snapshot := models;
      var i := 0;
      while i < |snapshot|
        invariant 0 <= i <= |snapshot|
        invariant models == Purged(snapshot[..i], did) + snapshot[i..]
        invariant devices == Drop(old(devices), did) && configs == old(configs)
      {
        var (name, list) := snapshot[i];
        var left := Without(list, did);
        MiddleOfPurge(snapshot, i, did);
        models := Put(models, name, left);
        if left == [] { models := Drop(models, name); }
        i := i + 1;
      }
      assert snapshot[..i] == snapshot && snapshot[i..] == [];
      assert models == Purged(snapshot, did);
      raised := ComputeConfigs();
    }

    /** _compute_configs: raises ZeroDivisionError, and then keeps the previous catalogue, exactly when some
        feasible configuration cannot be built. */
    method ComputeConfigs() returns (raised: bool)
      requires Valid()
      modifies this`configs
      ensures Valid() && (raised <==> !Computable())
      ensures if raised then configs == old(configs) else Current()
    {
      hide BuildAll, AllModels, Choices, ChoicesOf, ModelsOk, Distinct, Buildable;
      var computed: seq<Config> := [];
      ghost var done: seq<Choice> := [];
      NoneBuilt(devices);
      var i := 0;
      while i < |models|
        invariant 0 <= i <= |models| && configs == old(configs)
        invariant done == Choices(devices, AllModels(models[..i]))
        invariant AllBuildable(devices, done) && computed == BuildAll(devices, done)
      {
        var list := models[i].1;
        ghost var earlier := AllModels(models[..i]);
        assert list[..0] == [] && earlier + [] == earlier;
        var j := 0;
        while j < |list|
          invariant 0 <= j <= |list| && configs == old(configs)
          invariant done == Choices(devices, earlier + list[..j])
          invariant AllBuildable(devices, done) && computed == BuildAll(devices, done)
        {
          var raises, some := ConfigsOf(list[j]);
          ghost var more := ChoicesOf(devices, list[j]);
          NextModel(devices, models, i, j);
          if raises {
            StillUnbuildable(devices, done, more, Choices(devices, AllModels(models)));
            return true;
          }
          BuildAllConcat(devices, done, more);
          done := done + more;
          computed := computed + some;
          j := j + 1;
        }
        assert list[..j] == list;
        NextList(models, i);
        i := i + 1;
      }
      assert models[..i] == models;
      configs := computed;
      raised := false;
    }

    /** The two inner steps of _compute_configs, for one model. */
    method ConfigsOf(m: Model) returns (raises: bool, some: seq<Config>)
      requires Valid()
      ensures raises <==> !AllBuildable(devices, ChoicesOf(devices, m))
      ensures !raises ==> some == BuildAll(devices, ChoicesOf(devices, m))
    {
      hide Get, Distinct, ModelsOk, LocalConfig, DistributedConfig, Divides, FitsWith, BuildAll, WorkerChoices, LocalChoices,
           Feasible, Buildable, Build;
      some := [];
      var host := Get(devices, m.device);
      if host.None? {
        NoHostNoChoices(devices, m, devices);
        NoneBuilt(devices);
        return false, [];
      }
      if Fits(host.value, m) { some := [LocalConfig(host.value, m)]; }
      ghost var done := LocalChoices(devices, m);
      LocalBuilt(devices, m);
      NoWorkers(devices, m);
      var k := 0;
      while k < |devices|
        invariant 0 <= k <= |devices|
        invariant done == LocalChoices(devices, m) + WorkerChoices(devices, m, devices[..k])
        invariant AllBuildable(devices, done) && some == BuildAll(devices, done)
      {
        var did := devices[k].0;
        var worker := devices[k].1;
        WorkerFeasible(devices, m, k);
        NextWorker(devices, m, k);
        if did != m.device && FitsWith(host.value, worker, m) {
          ghost var c := Choice(m, Some(did));
          if !Divides(host.value, worker, m) { return true, []; }
          BuildOne(devices, c);
          BuildAllConcat(devices, done, [c]);
          some := some + [DistributedConfig(host.value, worker, m)];
          done := done + [c];
        }
        k := k + 1;
      }
      assert devices[..k] == devices;
      raises := false;
    }

    /** get_configs */
    method GetConfigs() returns (r: seq<Config>)
      ensures r == configs
      ensures Current() ==> Computable() && r == BuildAll(devices, Choices(devices, AllModels(models)))
    {
      r := configs;
    }

    /** _live_score */
    method ComputeLiveScore(c: Config, healths: map<string, Health>) returns (score: real)
      ensures score == LiveScore(weights, c, healths)
    {
      var health := c.scores.health;
      var i := 0;
      while i < |c.devices|
        invariant 0 <= i <= |c.devices| && health == LiveHealth(c.scores.health, c.devices[..i], healths)
      {
        assert c.devices[..i + 1][..i] == c.devices[..i];
        var did := c.devices[i].device;
        if did in healths {
          var live := ComputeHealthScore(healths[did]);
          health := Min(health, live);
        }
        i := i + 1;
      }
      assert c.devices[..i] == c.devices;
      score := WeightedScore(weights, c.scores.(health := health));
    }

    /** _filter_by_constraints */
    method FilterByConstraints(constraints: Constraints) returns (out: seq<Config>)
      ensures out == AllPermitted(configs, constraints.locality)
      ensures forall c :: c in out <==> c in configs && !(constraints.locality == LocalOnly && c.kind == Cloud)
    {
      out := [];
      var i := 0;
      while i < |configs|
        invariant 0 <= i <= |configs| && out == AllPermitted(configs[..i], constraints.locality)
      {
        assert configs[..i + 1][..i] == configs[..i];
        if Permitted(configs[i], constraints.locality) { out := out + [configs[i]]; }
        i := i + 1;
      }
      assert configs[..i] == configs;
      PermittedMembers(configs, constraints.locality);
    }

    /** get_best_config */
    method GetBestConfig(constraints: Constraints, healths: map<string, Health>) returns (r: Option<Config>)
      requires Valid()
      ensures var candidates := AllPermitted(configs, constraints.locality);
              (r.None? <==> candidates == []) &&
              (r.Some? ==> exists i: nat :: IsBest(weights, candidates, healths, i) && r.value == candidates[i])
      ensures r.Some? && r.value.kind.Distributed? && Current() && Plausible(devices, AllModels(models)) && PrivacyCounts(weights) ==>
              TooLargeForHost(devices, AllModels(models), r.value)
    {
      hide IsCatalogue, Plausible, LiveScore, AllPermitted, ModelsOk, Distinct, PrivacyCounts, TooLargeForHost, AllModels, IsBest;
      var candidates := FilterByConstraints(constraints);
      if candidates == [] { return None; }
      var best := 0;
      var score := ComputeLiveScore(candidates[0], healths);
      FirstBest(weights, candidates, healths);
      var i := 1;
      while i < |candidates|
        invariant 0 <= best < i <= |candidates| && score == LiveScore(weights, candidates[best], healths)
        invariant IsBest(weights, candidates[..i], healths, best)
      {
        var next := ComputeLiveScore(candidates[i], healths);
        NextBest(weights, candidates, healths, best, i);
        if next > score { best, score := i, next; }
        i := i + 1;
      }
      assert candidates[..i] == candidates;
      BestInRange(weights, candidates, healths, best);
      r := Some(candidates[best]);
      BestIsNeeded(constraints, healths, best);
    }

    lemma BestIsNeeded(constraints: Constraints, healths: map<string, Health>, i: nat)
      requires Valid() && IsBest(weights, AllPermitted(configs, constraints.locality), healths, i)
      ensures var r := AllPermitted(configs, constraints.locality)[i];
              r.kind.Distributed? && Current() && Plausible(devices, AllModels(models)) && PrivacyCounts(weights) ==>
              TooLargeForHost(devices, AllModels(models), r)
    {
      if Current() && Plausible(devices, AllModels(models)) && PrivacyCounts(weights) {
        CatalogueAllPermitted(devices, AllModels(models), configs, constraints.locality);
        BestSharesOnlyIfNeeded(weights, devices, AllModels(models), configs, healths, i);
      }
    }
  }

  lemma FirstBest(w: Weights, configs: seq<Config>, healths: map<string, Health>)
    requires configs != []
    ensures IsBest(w, configs[..1], healths, 0)
  {
  }

  lemma BestInRange(w: Weights, configs: seq<Config>, healths: map<string, Health>, best: nat)
    requires IsBest(w, configs, healths, best)
    ensures best < |configs|
  {
  }

  lemma NextBest(w: Weights, configs: seq<Config>, healths: map<string, Health>, best: nat, i: nat)
    requires best < i < |configs| && IsBest(w, configs[..i], healths, best)
    ensures IsBest(w, configs[..i + 1], healths,
                   if LiveScore(w, configs[i], healths) > LiveScore(w, configs[best], healths) then i else best)
  {
    hide LiveScore;
    assert configs[..i + 1][..i] == configs[..i] && configs[..i + 1][i] == configs[i];
    assert forall j :: 0 <= j < i ==> configs[..i + 1][j] == configs[..i][j];
  }

  lemma NoWorkers(devices: Devices, m: Model)
    ensures WorkerChoices(devices, m, devices[..0]) == []
  {
  }

  lemma LocalBuilt(devices: Devices, m: Model)
    requires Get(devices, m.device).Some?
    ensures var host := Get(devices, m.device).value;
            AllBuildable(devices, LocalChoices(devices, m)) &&
            BuildAll(devices, LocalChoices(devices, m)) == if Fits(host, m) then [LocalConfig(host, m)] else []
  {
  }

  lemma WorkerFeasible(devices: Devices, m: Model, k: nat)
    requires Distinct(devices) && k < |devices| && Get(devices, m.device).Some?
    ensures var host, c := Get(devices, m.device).value, Choice(m, Some(devices[k].0));
            (Feasible(devices, c) <==> devices[k].0 != m.device && FitsWith(host, devices[k].1, m)) &&
            (Buildable(devices, c) <==> Feasible(devices, c) && Divides(host, devices[k].1, m)) &&
            (Buildable(devices, c) ==> Build(devices, c) == DistributedConfig(host, devices[k].1, m))
  {
    GetAt(devices, k);
    hide Get, Divides, FitsWith;
  }

  lemma {:induction false} NextWorker(devices: Devices, m: Model, k: nat)
    requires k < |devices|
    ensures var c := Choice(m, Some(devices[k].0));
            WorkerChoices(devices, m, devices[..k + 1]) ==
              WorkerChoices(devices, m, devices[..k]) + (if Feasible(devices, c) then [c] else []) &&
            (Feasible(devices, c) ==> c in ChoicesOf(devices, m))
  {
    hide Feasible;
    var upTo := devices[..k + 1];
    assert upTo != [] && upTo[..|upTo| - 1] == devices[..k] && upTo[|upTo| - 1] == devices[k];
    WorkerChoicesPrefix(devices, m, devices, k + 1);
    var c := Choice(m, Some(devices[k].0));
    if Feasible(devices, c) {
      var ws, all := WorkerChoices(devices, m, upTo), WorkerChoices(devices, m, devices);
      hide WorkerChoices;
      assert ws[|ws| - 1] == c && all[|ws| - 1] == c;
    }
  }

  lemma BuildOne(devices: Devices, c: Choice)
    requires Buildable(devices, c)
    ensures AllBuildable(devices, [c]) && BuildAll(devices, [c]) == [Build(devices, c)]
  {
  }

  lemma RegisteredNone(models: Models, added: seq<Model>)
    ensures RegisteredAll(models, added[..0]) == models
  {
  }

  lemma RegisteredNext(models: Models, added: seq<Model>, i: nat)
    requires i < |added|
    ensures RegisteredAll(models, added[..i + 1]) == Registered(RegisteredAll(models, added[..i]), added[i])
  {
    assert added[..i + 1][..i] == added[..i];
  }

  lemma RemovalOk(models: Models, devices: Devices, did: string)
    requires ModelsOk(models) && Distinct(devices)
    ensures ModelsOk(Purged(models, did)) && Distinct(Drop(devices, did)) && Distinct(models)
    ensures Purged(models[..0], did) + models[0..] == models
  {
    DropEntries(devices, did);
    PurgedOk(models, did);
  }

  lemma NoneBuilt(devices: Devices)
    ensures AllModels([]) == [] && Choices(devices, []) == [] && BuildAll(devices, []) == []
  {
  }

  lemma NextList(models: Models, i: nat)
    requires i < |models|
    ensures AllModels(models[..i + 1]) == AllModels(models[..i]) + models[i].1
  {
    assert models[..i + 1][..i] == models[..i] && models[..i + 1][i] == models[i];
  }

  lemma NextModel(devices: Devices, models: Models, i: nat, j: nat)
    requires i < |models| && j < |models[i].1|
    ensures var earlier, list := AllModels(models[..i]), models[i].1;
            Choices(devices, earlier + list[..j + 1]) == Choices(devices, earlier + list[..j]) + ChoicesOf(devices, list[j]) &&
            Choices(devices, earlier + list[..j + 1]) <= Choices(devices, AllModels(models))
  {
    var earlier, list := AllModels(models[..i]), models[i].1;
    var upTo := earlier + list[..j + 1];
    assert upTo[..|upTo| - 1] == earlier + list[..j] && upTo[|upTo| - 1] == list[j];
    AllModelsPrefix(models, i, j);
    ChoicesPrefix(devices, upTo, AllModels(models));
  }

  lemma StillUnbuildable(devices: Devices, done: seq<Choice>, more: seq<Choice>, all: seq<Choice>)
    requires done + more <= all && !AllBuildable(devices, more)
    ensures !AllBuildable(devices, all)
  {
    var c :| c in more && !Buildable(devices, c);
    assert c in done + more;
  }

  lemma MiddleOfPurge(snapshot: Models, i: nat, did: string)
    requires Distinct(snapshot) && i < |snapshot|
    ensures var (name, list) := snapshot[i];
            var models, left := Purged(snapshot[..i], did) + snapshot[i..], Without(list, did);
            (left == [] ==> Drop(Put(models, name, left), name) == Purged(snapshot[..i + 1], did) + snapshot[i + 1..]) &&
            (left != [] ==> Put(models, name, left) == Purged(snapshot[..i + 1], did) + snapshot[i + 1..])
  {
    var e, a, b := snapshot[i], snapshot[..i], snapshot[i + 1..];
    var left := Without(e.1, did);
    assert snapshot[..i + 1] == a + [e] && snapshot[i..] == [e] + b;
    PurgedAppend(a, e, did);
    var p := Purged(a, did);
    assert p + snapshot[i..] == p + [e] + b;
    PutMiddle(p, e, b, left);
    DropMiddle(p, (e.0, left), b);
  }

  lemma {:induction false} NoHostNoChoices(devices: Devices, m: Model, workers: Devices)
    requires Get(devices, m.device).None?
    ensures LocalChoices(devices, m) == [] && WorkerChoices(devices, m, workers) == []
  {
    if workers != [] { NoHostNoChoices(devices, m, workers[..|workers| - 1]); }
  }

  lemma {:induction false} WorkerChoicesPrefix(devices: Devices, m: Model, workers: Devices, k: nat)
    requires k <= |workers|
    ensures WorkerChoices(devices, m, workers[..k]) <= WorkerChoices(devices, m, workers)
  {
    if k < |workers| {
      var shorter := workers[..|workers| - 1];
      WorkerChoicesPrefix(devices, m, shorter, k);
      assert shorter[..k] == workers[..k];
    } else {
      assert workers[..k] == workers;
    }
  }

  lemma {:induction false} ChoicesPrefix(devices: Devices, some: seq<Model>, models: seq<Model>)
    requires some <= models
    ensures Choices(devices, some) <= Choices(devices, models)
    decreases |models|
  {
    if |some| < |models| {
      ChoicesPrefix(devices, some, models[..|models| - 1]);
    } else {
      assert some == models;
    }
  }

  lemma {:induction false} AllModelsPrefix(models: Models, i: nat, j: nat)
    requires i < |models| && j < |models[i].1|
    ensures AllModels(models[..i]) + models[i].1[..j + 1] <= AllModels(models)
    decreases |models|
  {
    var n := |models| - 1;
    if i < n {
      AllModelsPrefix(models[..n], i, j);
      assert models[..n][..i] == models[..i];
    } else {
      assert models[i].1[..j + 1] <= models[i].1;
    }
  }

  lemma BuildAllConcat(devices: Devices, a: seq<Choice>, b: seq<Choice>)
    requires AllBuildable(devices, a) && AllBuildable(devices, b)
    ensures AllBuildable(devices, a + b) && BuildAll(devices, a + b) == BuildAll(devices, a) + BuildAll(devices, b)
  {
  }
}
