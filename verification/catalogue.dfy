/** Which configurations the inference catalogue lists, and how each is built and scored:
    src/aries/inference/registry.py lines 24-435. */
module Catalogue {
  import opened Wrappers
  import opened Tables
  import opened Scoring

  datatype Model = Model(name: string, filename: string, sizeGb: real, path: string, device: string, contextWindow: int)

  datatype Device = Device(
    did: string, ramAvailableGb: real, hasGpu: bool, vramTotalGb: real, vramAvailableGb: real, backend: string,
    diskReadMbps: real, models: seq<Model>, peerLatencyMs: map<string, real>, peerBandwidthMbps: map<string, real>)

  datatype Role = Role(device: string, isHost: bool, memoryGb: real, hasGpu: bool, vramGb: real, backend: string)

  datatype Kind = Local | Distributed | Cloud

  datatype Config = Config(
    id: string, modelName: string, modelSizeGb: real, kind: Kind, devices: seq<Role>, tokensPerSecond: real,
    firstTokenSeconds: real, scores: Scores, trustedDevice: string, rpcEndpoints: seq<string>, tensorSplit: seq<real>)

  // ---------------------------------------------------------------- estimates

  /** _usable_memory */
  function UsableMemory(d: Device): real { if d.hasGpu && d.vramAvailableGb > 0.0 then d.vramAvailableGb else d.ramAvailableGb }

  /** _estimate_local_tok_s */
  function LocalTokens(d: Device, m: Model): real {
    var headroom := UsableMemory(d) / Max(m.sizeGb, 1.0);
    if d.hasGpu && d.vramAvailableGb > 0.0 then Min(20.0 * headroom, 60.0) else Min(5.0 * headroom, 20.0)
  }

  /** _estimate_ttft */
  function FirstToken(d: Device, m: Model): real { m.sizeGb / Max(Max(d.diskReadMbps, 50.0) / 1000.0, 0.1) }

  /** _capability_score */
  function CapabilityScore(m: Model): real {
    0.7 * Min(m.sizeGb / 35.0, 1.0) +
    0.3 * (if m.contextWindow != 0 then Min(m.contextWindow as real / 128000.0, 1.0) else 0.3)
  }

  function Lookup(m: map<string, real>, k: string, default: real): real { if k in m then m[k] else default }

  /** Seconds per token lost to two transfers and serialization. */
  function Overhead(host: Device, worker: Device): real {
    Lookup(host.peerLatencyMs, worker.did, 50.0) / 1000.0 * 2.0 + 1.0 / Max(Lookup(host.peerBandwidthMbps, worker.did, 100.0), 1.0)
  }

  function SecondsPerToken(host: Device, worker: Device, m: Model): real {
    1.0 / Max(LocalTokens(host, m), 1.0) + Overhead(host, worker)
  }

  function TotalMemory(host: Device, worker: Device): real { UsableMemory(host) + UsableMemory(worker) }

  /** Neither of the two divisions by a computed quantity raises ZeroDivisionError. */
  predicate Divides(host: Device, worker: Device, m: Model) {
    TotalMemory(host, worker) != 0.0 && SecondsPerToken(host, worker, m) != 0.0
  }

  predicate FitsWith(host: Device, worker: Device, m: Model) { TotalMemory(host, worker) >= m.sizeGb }

  // ---------------------------------------------------------------- building configurations

  function Prefix8(did: string): string { if |did| <= 8 then did else did[..8] }

  /** _build_local_config */
  function LocalConfig(host: Device, m: Model): Config {
    var tokens := LocalTokens(host, m);
    Config("local-" + m.name + "-" + Prefix8(host.did), m.name, m.sizeGb, Local,
           [Role(host.did, true, m.sizeGb, host.hasGpu, host.vramTotalGb, host.backend)],
           tokens, FirstToken(host, m),
           Scores(1.0, CapabilityScore(m), Min(tokens / 30.0, 1.0), 1.0, 0.8),
           host.did, [], [])
  }

  function Portion(size: real, share: real): real { size * share }

  /** _build_distributed_config */
  function DistributedConfig(host: Device, worker: Device, m: Model): Config
    requires Divides(host, worker, m)
  {
    var total := TotalMemory(host, worker);
    var split := [UsableMemory(host) / total, UsableMemory(worker) / total];
    var tokens := 1.0 / SecondsPerToken(host, worker, m);
    Config("dist-" + m.name + "-" + Prefix8(host.did) + "-" + Prefix8(worker.did), m.name, m.sizeGb, Distributed,
           [Role(host.did, true, Portion(m.sizeGb, split[0]), host.hasGpu, host.vramTotalGb, host.backend),
            Role(worker.did, false, Portion(m.sizeGb, split[1]), worker.hasGpu, worker.vramTotalGb, worker.backend)],
           tokens, FirstToken(host, m),
           Scores(0.9, CapabilityScore(m), Min(tokens / 30.0, 1.0), 1.0, Min(0.8, 0.8)),
           host.did, [worker.did + ":50052"], split)
  }

  lemma ShareOf(x: real, size: real, total: real)
    requires total > 0.0 && size <= total
    ensures size * (x / total) <= x <==> x >= 0.0 || size == total
  {
    var share := x / total;
    assert x == share * total;
    assert size * share == x - (total - size) * share;
    if x < 0.0 {
      assert share < 0.0;
      if size < total { assert (total - size) * share < 0.0; }
    } else {
      assert (total - size) * share >= 0.0;
    }
  }

  /** The two shares add up to one, the two allocations to the model size, and they fit the two memories exactly
      when neither memory is negative or the model fills both. */
  predicate Allocates(hostGb: real, workerGb: real, sizeGb: real, shares: seq<real>, allocations: seq<real>) {
    |shares| == |allocations| == 2 &&
    shares[0] + shares[1] == 1.0 && allocations[0] + allocations[1] == sizeGb &&
    (hostGb + workerGb > 0.0 ==>
      (allocations[0] <= hostGb && allocations[1] <= workerGb <==>
       (hostGb >= 0.0 && workerGb >= 0.0) || sizeGb == hostGb + workerGb))
  }

  lemma {:induction false} AllocationsFit(host: Device, worker: Device, m: Model)
    requires Divides(host, worker, m) && FitsWith(host, worker, m)
    ensures var c := DistributedConfig(host, worker, m);
            |c.devices| == 2 &&
            Allocates(UsableMemory(host), UsableMemory(worker), m.sizeGb, c.tensorSplit, [c.devices[0].memoryGb, c.devices[1].memoryGb])
  {
    hide UsableMemory, Portion, Allocates, SecondsPerToken, CapabilityScore, FirstToken;
    var h, w, c := UsableMemory(host), UsableMemory(worker), DistributedConfig(host, worker, m);
    SharesFit(h, w, m.sizeGb);
    assert c.tensorSplit == [h / (h + w), w / (h + w)];
    assert [c.devices[0].memoryGb, c.devices[1].memoryGb] == [Portion(m.sizeGb, h / (h + w)), Portion(m.sizeGb, w / (h + w))];
  }

  lemma SharesFit(h: real, w: real, size: real)
    requires h + w != 0.0 && size <= h + w
    ensures Allocates(h, w, size, [h / (h + w), w / (h + w)], [Portion(size, h / (h + w)), Portion(size, w / (h + w))])
  {
    SharesAddUp(h, w, size);
    if h + w > 0.0 {
      ShareOf(h, size, h + w);
      ShareOf(w, size, h + w);
    }
  }

  lemma SharesAddUp(h: real, w: real, size: real)
    requires h + w != 0.0
    ensures h / (h + w) + w / (h + w) == 1.0
    ensures size * (h / (h + w)) + size * (w / (h + w)) == size
  {
    var t := h + w;
    var p, q := h / t, w / t;
    assert p + q == (h + w) / t == 1.0;
    assert size * p + size * q == size * (p + q);
  }

  // ---------------------------------------------------------------- which configurations there are

  /** A model on its host device, alone or with one worker. */
  datatype Choice = Choice(model: Model, worker: Option<string>)

  type Devices = Table<Device>

  predicate Fits(host: Device, m: Model) { UsableMemory(host) >= m.sizeGb }

  /** The host is known, a worker is another known device, and the memory suffices. */
  predicate Feasible(devices: Devices, c: Choice) {
    var host := Get(devices, c.model.device);
    host.Some? &&
    match c.worker
    case None => Fits(host.value, c.model)
    case Some(w) => w != c.model.device && Get(devices, w).Some? && FitsWith(host.value, Get(devices, w).value, c.model)
  }

  /** Building the configuration raises nothing. */
  predicate Buildable(devices: Devices, c: Choice) {
    Feasible(devices, c) &&
    (c.worker.Some? ==> Divides(Get(devices, c.model.device).value, Get(devices, c.worker.value).value, c.model))
  }

  function Build(devices: Devices, c: Choice): Config
    requires Buildable(devices, c)
  {
    var host := Get(devices, c.model.device).value;
    if c.worker.None? then LocalConfig(host, c.model)
    else DistributedConfig(host, Get(devices, c.worker.value).value, c.model)
  }

  predicate AllBuildable(devices: Devices, choices: seq<Choice>) { forall c :: c in choices ==> Buildable(devices, c) }

  function BuildAll(devices: Devices, choices: seq<Choice>): (r: seq<Config>)
    requires AllBuildable(devices, choices)
  {
    seq(|choices|, i requires 0 <= i < |choices| => Build(devices, choices[i]))
  }

  /** The workers among the first entries, in table order. */
  function WorkerChoices(devices: Devices, m: Model, workers: Devices): seq<Choice> {
    if workers == [] then []
    else
      var c := Choice(m, Some(workers[|workers| - 1].0));
      WorkerChoices(devices, m, workers[..|workers| - 1]) + (if Feasible(devices, c) then [c] else [])
  }

  function LocalChoices(devices: Devices, m: Model): seq<Choice> {
    if Feasible(devices, Choice(m, None)) then [Choice(m, None)] else []
  }

  function ChoicesOf(devices: Devices, m: Model): seq<Choice> {
    LocalChoices(devices, m) + WorkerChoices(devices, m, devices)
  }

  function Choices(devices: Devices, models: seq<Model>): seq<Choice> {
    if models == [] then [] else Choices(devices, models[..|models| - 1]) + ChoicesOf(devices, models[|models| - 1])
  }

  /** All registered models, list after list. */
  function AllModels(models: Table<seq<Model>>): seq<Model> {
    if models == [] then [] else AllModels(models[..|models| - 1]) + models[|models| - 1].1
  }

  /** Feasible in the fields of the devices: the free video memory of a device with a graphics card that has some, and
      else the free main memory, holds the model, of the host alone or of the host and another known device together. */
  lemma FeasibleExactly(devices: Devices, m: Model, w: string)
    ensures Feasible(devices, Choice(m, None)) <==>
            Get(devices, m.device).Some? &&
            var h := Get(devices, m.device).value;
            m.sizeGb <= if h.hasGpu && h.vramAvailableGb > 0.0 then h.vramAvailableGb else h.ramAvailableGb
    ensures Feasible(devices, Choice(m, Some(w))) <==>
            w != m.device && Get(devices, m.device).Some? && Get(devices, w).Some? &&
            var h, k := Get(devices, m.device).value, Get(devices, w).value;
            m.sizeGb <= (if h.hasGpu && h.vramAvailableGb > 0.0 then h.vramAvailableGb else h.ramAvailableGb) +
                        (if k.hasGpu && k.vramAvailableGb > 0.0 then k.vramAvailableGb else k.ramAvailableGb)
  {
  }

  /** The estimates: tokens per second are limited by the headroom and by a ceiling, working with a peer costs two
      latencies and one transfer a token, and the first token waits for the weights to be read. */
  lemma EstimatesExactly(host: Device, worker: Device, m: Model)
    ensures var gpu := host.hasGpu && host.vramAvailableGb > 0.0;
            var size := if m.sizeGb < 1.0 then 1.0 else m.sizeGb;
            var scaled := (if gpu then 20.0 else 5.0) * ((if gpu then host.vramAvailableGb else host.ramAvailableGb) / size);
            var ceiling := if gpu then 60.0 else 20.0;
            LocalTokens(host, m) == if scaled > ceiling then ceiling else scaled
    ensures var latency := if worker.did in host.peerLatencyMs then host.peerLatencyMs[worker.did] else 50.0;
            var bandwidth := if worker.did in host.peerBandwidthMbps then host.peerBandwidthMbps[worker.did] else 100.0;
            Overhead(host, worker) == latency / 1000.0 * 2.0 + 1.0 / (if bandwidth < 1.0 then 1.0 else bandwidth)
    ensures var rate := (if host.diskReadMbps < 50.0 then 50.0 else host.diskReadMbps) / 1000.0;
            FirstToken(host, m) == m.sizeGb / if rate < 0.1 then 0.1 else rate
    ensures var size := if m.sizeGb / 35.0 > 1.0 then 1.0 else m.sizeGb / 35.0;
            var window := if m.contextWindow == 0 then 0.3
                          else if m.contextWindow as real / 128000.0 > 1.0 then 1.0 else m.contextWindow as real / 128000.0;
            CapabilityScore(m) == 0.7 * size + 0.3 * window
  {
  }

  /** What a configuration tells: who takes part in which role, with how much memory, who is trusted, where to call. */
  lemma ConfigsExactly(host: Device, worker: Device, m: Model)
    ensures var c := LocalConfig(host, m);
            c.modelName == m.name && c.modelSizeGb == m.sizeGb && c.kind == Local && c.trustedDevice == host.did &&
            c.devices == [Role(host.did, true, m.sizeGb, host.hasGpu, host.vramTotalGb, host.backend)] &&
            c.rpcEndpoints == [] && c.tensorSplit == [] &&
            c.tokensPerSecond == LocalTokens(host, m) && c.firstTokenSeconds == FirstToken(host, m) &&
            c.scores == Scores(1.0, CapabilityScore(m), if c.tokensPerSecond / 30.0 > 1.0 then 1.0 else c.tokensPerSecond / 30.0, 1.0, 0.8)
    ensures Divides(host, worker, m) ==>
            var c := DistributedConfig(host, worker, m);
            c.modelName == m.name && c.modelSizeGb == m.sizeGb && c.kind == Distributed && c.trustedDevice == host.did &&
            |c.devices| == 2 && c.devices[0].device == host.did && c.devices[0].isHost &&
            c.devices[1].device == worker.did && !c.devices[1].isHost &&
            c.rpcEndpoints == [worker.did + ":50052"] && |c.tensorSplit| == 2 &&
            c.tokensPerSecond == 1.0 / (1.0 / (if LocalTokens(host, m) < 1.0 then 1.0 else LocalTokens(host, m)) + Overhead(host, worker)) &&
            c.firstTokenSeconds == FirstToken(host, m) &&
            c.scores == Scores(0.9, CapabilityScore(m), if c.tokensPerSecond / 30.0 > 1.0 then 1.0 else c.tokensPerSecond / 30.0, 1.0, 0.8)
  {
  }

  // ---------------------------------------------------------------- the catalogue is complete and has no repeats

  ghost predicate NoRepeats<T>(s: seq<T>) { forall i, j :: 0 <= i < j < |s| ==> s[i] != s[j] }

  lemma NoRepeatsConcat<T>(a: seq<T>, b: seq<T>)
    requires NoRepeats(a) && NoRepeats(b) && forall x :: x in a ==> x !in b
    ensures NoRepeats(a + b)
  {
    var s := a + b;
    forall i, j | 0 <= i < j < |s| ensures s[i] != s[j] {
      if i < |a| <= j { assert a[i] in a && b[j - |a|] in b; }
    }
  }

  lemma {:induction false} WorkerChoicesExactly(devices: Devices, m: Model, workers: Devices)
    requires Distinct(workers)
    ensures forall c :: c in WorkerChoices(devices, m, workers) <==>
              c.model == m && c.worker.Some? && Feasible(devices, c) && Has(workers, c.worker.value)
    ensures NoRepeats(WorkerChoices(devices, m, workers))
  {
    if workers != [] {
      hide Feasible, Distinct;
      var rest, last := workers[..|workers| - 1], workers[|workers| - 1];
      WorkerChoicesExactly(devices, m, rest);
      var c := Choice(m, Some(last.0));
      assert workers == rest + [last];
      forall w ensures Has(workers, w) <==> Has(rest, w) || w == last.0 { HasAppend(rest, last, w); }
      HasAppend(rest, last, last.0);
      hide Has;
      NoRepeatsConcat(WorkerChoices(devices, m, rest), if Feasible(devices, c) then [c] else []);
    }
  }

  lemma ChoicesOfExactly(devices: Devices, m: Model)
    requires Distinct(devices)
    ensures forall c :: c in ChoicesOf(devices, m) <==> c.model == m && Feasible(devices, c)
    ensures NoRepeats(ChoicesOf(devices, m))
  {
    WorkerChoicesExactly(devices, m, devices);
    NoRepeatsConcat(LocalChoices(devices, m), WorkerChoices(devices, m, devices));
    forall c: Choice | c.model == m && Feasible(devices, c) ensures c in ChoicesOf(devices, m) {
      if c.worker.Some? { assert Get(devices, c.worker.value).Some?; } else { assert c == Choice(m, None); }
    }
  }

  /** Every feasible choice for a registered model is listed, nothing else is, and nothing twice. */
  lemma {:induction false} ChoicesExactly(devices: Devices, models: seq<Model>)
    requires Distinct(devices)
    ensures forall c :: c in Choices(devices, models) <==> c.model in models && Feasible(devices, c)
    ensures NoRepeats(models) ==> NoRepeats(Choices(devices, models))
  {
    if models != [] {
      var rest, m := models[..|models| - 1], models[|models| - 1];
      assert models == rest + [m];
      ChoicesExactly(devices, rest);
      ChoicesOfExactly(devices, m);
      hide Feasible;
      if NoRepeats(models) {
        assert forall i, j :: 0 <= i < j < |rest| ==> models[i] != models[j];
        assert m !in rest;
        NoRepeatsConcat(Choices(devices, rest), ChoicesOf(devices, m));
      }
    }
  }

  // ---------------------------------------------------------------- registration

  type Models = Table<seq<Model>>

  /** The list without the models of one device. */
  function Without(models: seq<Model>, did: string): seq<Model> {
    if models == [] then []
    else (if models[0].device == did then [] else [models[0]]) + Without(models[1..], did)
  }

  function ListOf(models: Models, name: string): seq<Model> { if Get(models, name).Some? then Get(models, name).value else [] }

  /** _register_model_no_recompute */
  function Registered(models: Models, m: Model): Models {
    Put(models, m.name, Without(ListOf(models, m.name), m.device) + [m])
  }

  function RegisteredAll(models: Models, added: seq<Model>): Models {
    if added == [] then models else Registered(RegisteredAll(models, added[..|added| - 1]), added[|added| - 1])
  }

  /** remove_device on the models: emptied lists disappear. */
  function Purged(models: Models, did: string): Models {
    if models == [] then []
    else
      var left := Without(models[0].1, did);
      (if left == [] then [] else [(models[0].0, left)]) + Purged(models[1..], did)
  }

  /** Registering a model puts it in, in place of the one of the same name and device only. */
  lemma RegisteredModels(models: Models, m: Model)
    requires ModelsOk(models)
    ensures forall x :: x in AllModels(Registered(models, m)) <==>
              x == m || (x in AllModels(models) && !(x.name == m.name && x.device == m.device))
    ensures var list := ListOf(Registered(models, m), m.name); list != [] && list[|list| - 1] == m
  {
    RegisteredOk(models, m);
    GetPut(models, m.name, Without(ListOf(models, m.name), m.device) + [m], m.name);
    forall x ensures x in AllModels(Registered(models, m)) <==>
                     x == m || (x in AllModels(models) && !(x.name == m.name && x.device == m.device))
    {
      InOwnList(models, x);
      InOwnList(Registered(models, m), x);
      WithoutEntries(ListOf(models, m.name), m.device);
      GetPut(models, m.name, Without(ListOf(models, m.name), m.device) + [m], x.name);
      hide ModelsOk;
    }
  }

  lemma {:induction false} InOwnList(models: Models, m: Model)
    requires ModelsOk(models)
    ensures m in AllModels(models) <==> m in ListOf(models, m.name)
  {
    AllModelsOk(models);
    if m in AllModels(models) {
      var e :| e in models && m in e.1;
      assert ListOk(e.0, e.1);
      var i :| 0 <= i < |models| && models[i] == e;
      GetAt(models, i);
    }
  }

  ghost predicate SamePlace(x: Model, m: Model) { x.name == m.name && x.device == m.device }

  lemma {:induction false} RegisteredAllOk(models: Models, added: seq<Model>)
    requires ModelsOk(models)
    ensures ModelsOk(RegisteredAll(models, added))
  {
    if added != [] {
      RegisteredAllOk(models, added[..|added| - 1]);
      RegisteredOk(RegisteredAll(models, added[..|added| - 1]), added[|added| - 1]);
    }
  }

  ghost predicate Reported(added: seq<Model>, x: Model) { exists m :: m in added && SamePlace(x, m) }

  ghost predicate EachPlaceOnce(added: seq<Model>) { forall i, j :: 0 <= i < j < |added| ==> !SamePlace(added[i], added[j]) }

  lemma ReportedLast(rest: seq<Model>, last: Model, x: Model)
    ensures Reported(rest + [last], x) <==> Reported(rest, x) || SamePlace(x, last)
    ensures EachPlaceOnce(rest + [last]) ==> EachPlaceOnce(rest) && (x in rest ==> !SamePlace(x, last))
  {
    var added := rest + [last];
    assert added[|rest|] == last && last in added;
    if EachPlaceOnce(added) {
      forall i, j | 0 <= i < j < |rest| ensures !SamePlace(rest[i], rest[j]) {
        assert added[i] == rest[i] && added[j] == rest[j];
      }
      if x in rest {
        var i :| 0 <= i < |rest| && rest[i] == x;
        assert added[i] == x;
      }
    }
  }

  /** A report registers all its models, in place of those of the same names and devices only. */
  lemma {:induction false} RegisteredAllModels(models: Models, added: seq<Model>, x: Model)
    requires ModelsOk(models) && EachPlaceOnce(added)
    ensures x in AllModels(RegisteredAll(models, added)) <==> x in added || (x in AllModels(models) && !Reported(added, x))
  {
    if added != [] {
      var rest, last := added[..|added| - 1], added[|added| - 1];
      assert added == rest + [last];
      ReportedLast(rest, last, x);
      RegisteredAllOk(models, rest);
      RegisteredModels(RegisteredAll(models, rest), last);
      hide ModelsOk, Registered, AllModels, EachPlaceOnce, Reported;
      RegisteredAllModels(models, rest, x);
    }
  }

  /** Purging a device takes out its models and no others. */
  lemma PurgedModels(models: Models, did: string)
    requires ModelsOk(models)
    ensures forall x :: x in AllModels(Purged(models, did)) <==> x in AllModels(models) && x.device != did
  {
    PurgedOk(models, did);
    AllModelsOk(models);
    AllModelsOk(Purged(models, did));
    forall x ensures x in AllModels(Purged(models, did)) <==> x in AllModels(models) && x.device != did {
      PurgedMember(models, did, x);
    }
  }

  ghost predicate InSome(models: Models, x: Model) { exists e :: e in models && x in e.1 }

  lemma {:induction false} PurgedMember(models: Models, did: string, x: Model)
    ensures InSome(Purged(models, did), x) <==> InSome(models, x) && x.device != did
  {
    if models != [] {
      var head, rest := models[0], models[1..];
      PurgedMember(rest, did, x);
      WithoutEntries(head.1, did);
      var left := Without(head.1, did);
      InSomeCons(head, rest, x);
      InSomeCons((head.0, left), Purged(rest, did), x);
      assert models == [head] + rest;
      if left == [] { assert Purged(models, did) == Purged(rest, did); }
    }
  }

  lemma InSomeCons(head: (string, seq<Model>), rest: Models, x: Model)
    ensures InSome([head] + rest, x) <==> x in head.1 || InSome(rest, x)
  {
    assert head in [head] + rest;
  }

  ghost predicate ListOk(name: string, list: seq<Model>) {
    list != [] && (forall m :: m in list ==> m.name == name) && OnePerDevice(list)
  }

  /** Non-empty lists under distinct names, with at most one model per name and device. */
  ghost predicate ModelsOk(models: Models) { Distinct(models) && forall e :: e in models ==> ListOk(e.0, e.1) }

  ghost predicate OnePerDevice(models: seq<Model>) {
    forall i, j :: 0 <= i < j < |models| ==> models[i].device != models[j].device
  }

  lemma OnePerDeviceCons(head: Model, rest: seq<Model>)
    ensures OnePerDevice([head] + rest) <==> OnePerDevice(rest) && forall m :: m in rest ==> m.device != head.device
  {
    var s := [head] + rest;
    if OnePerDevice(s) {
      forall i, j | 0 <= i < j < |rest| ensures rest[i].device != rest[j].device {
        assert s[i + 1] == rest[i] && s[j + 1] == rest[j];
      }
      forall m | m in rest ensures m.device != head.device {
        var i :| 0 <= i < |rest| && rest[i] == m;
        assert s[i + 1] == m && s[0] == head;
      }
    }
  }

  lemma {:induction false} WithoutEntries(models: seq<Model>, did: string)
    ensures forall m :: m in Without(models, did) <==> m in models && m.device != did
    ensures OnePerDevice(models) ==> OnePerDevice(Without(models, did))
  {
    if models != [] {
      var head, rest := models[0], models[1..];
      assert models == [head] + rest;
      WithoutEntries(rest, did);
      OnePerDeviceCons(head, rest);
      OnePerDeviceCons(head, Without(rest, did));
      hide OnePerDevice;
    }
  }

  lemma RegisteredListOk(name: string, list: seq<Model>, m: Model)
    requires list == [] || ListOk(name, list)
    requires m.name == name
    ensures ListOk(name, Without(list, m.device) + [m])
  {
    WithoutEntries(list, m.device);
    var kept := Without(list, m.device);
    var r := kept + [m];
    forall i, j | 0 <= i < j < |r| ensures r[i].device != r[j].device {
      assert r[i] == kept[i] && kept[i] in kept;
    }
  }

  lemma RegisteredOk(models: Models, m: Model)
    requires ModelsOk(models)
    ensures ModelsOk(Registered(models, m))
  {
    var list := ListOf(models, m.name);
    RegisteredListOk(m.name, list, m);
    PutDistinct(models, m.name, Without(list, m.device) + [m]);
  }

  lemma {:induction false} PurgedOk(models: Models, did: string)
    requires ModelsOk(models)
    ensures ModelsOk(Purged(models, did))
    ensures forall e :: e in Purged(models, did) ==> exists f :: f in models && f.0 == e.0
  {
    if models != [] {
      var head, rest := models[0], models[1..];
      assert models == [head] + rest;
      DistinctCons(head, rest);
      PurgedOk(rest, did);
      WithoutEntries(head.1, did);
      assert head in models;
      var left := Without(head.1, did);
      DistinctCons((head.0, left), Purged(rest, did));
    }
  }

  /** Models of different entries differ in name, and within an entry in device: no model is listed twice. */
  lemma {:induction false} AllModelsOk(models: Models)
    requires ModelsOk(models)
    ensures NoRepeats(AllModels(models))
    ensures forall m :: m in AllModels(models) <==> exists e :: e in models && m in e.1
    ensures forall m :: m in AllModels(models) ==> Has(models, m.name)
  {
    if models != [] {
      var rest, last := models[..|models| - 1], models[|models| - 1];
      assert models == rest + [last];
      assert forall e :: e in rest ==> e in models;
      assert last in models;
      AllModelsOk(rest);
      assert forall m :: m in last.1 ==> m.name == last.0;
      forall m | m in AllModels(rest) ensures m !in last.1 && Has(models, m.name) {
        HasAppend(rest, last, m.name);
      }
      HasAppend(rest, last, last.0);
      NoRepeatsConcat(AllModels(rest), last.1);
    }
  }

  // ---------------------------------------------------------------- update, then remove

  lemma WithoutTwice(models: seq<Model>, did: string, m: Model)
    requires m.device == did
    ensures Without(Without(models, did) + [m], did) == Without(models, did)
  {
    WithoutEntries(models, did);
    WithoutAdded(Without(models, did), m);
  }

  lemma {:induction false} WithoutAdded(kept: seq<Model>, m: Model)
    requires forall k :: k in kept ==> k.device != m.device
    ensures Without(kept + [m], m.device) == kept
  {
    var s := kept + [m];
    if kept != [] {
      WithoutAdded(kept[1..], m);
      assert s[1..] == kept[1..] + [m];
    }
  }

  lemma {:induction false} WithoutNothing(models: seq<Model>, did: string)
    requires forall m :: m in models ==> m.device != did
    ensures Without(models, did) == models
  {
    if models != [] { WithoutNothing(models[1..], did); }
  }

  lemma {:induction false} PurgedPut(models: Models, name: string, m: Model)
    requires m.name == name
    ensures Purged(Put(models, name, Without(ListOf(models, name), m.device) + [m]), m.device) == Purged(models, m.device)
  {
    var did := m.device;
    var list := Without(ListOf(models, name), did) + [m];
    WithoutTwice(ListOf(models, name), did, m);
    if models == [] {
      assert Put(models, name, list)[1..] == [];
    } else if models[0].0 == name {
      assert Put(models, name, list)[1..] == models[1..];
    } else {
      PurgedPut(models[1..], name, m);
      assert Put(models, name, list)[1..] == Put(models[1..], name, list);
    }
  }

  lemma {:induction false} PurgedAll(models: Models, added: seq<Model>, did: string)
    requires forall m :: m in added ==> m.device == did
    ensures Purged(RegisteredAll(models, added), did) == Purged(models, did)
  {
    if added != [] {
      var m := added[|added| - 1];
      assert m in added;
      PurgedAll(models, added[..|added| - 1], did);
      PurgedPut(RegisteredAll(models, added[..|added| - 1]), m.name, m);
    }
  }

  lemma {:induction false} PurgedNothing(models: Models, did: string)
    requires forall e :: e in models ==> e.1 != [] && forall m :: m in e.1 ==> m.device != did
    ensures Purged(models, did) == models
  {
    if models != [] {
      assert models[0] in models;
      WithoutNothing(models[0].1, did);
      PurgedNothing(models[1..], did);
    }
  }

  /** Updating a device that reports its own models and then removing it leaves what removing it alone leaves;
      for a device not known before, that is the original state, order included. */
  lemma UpdateThenRemove(models: Models, devices: Devices, did: string, d: Device)
    requires ModelsOk(models) && forall m :: m in d.models ==> m.device == did
    ensures Purged(RegisteredAll(models, d.models), did) == Purged(models, did)
    ensures Drop(Put(devices, did, d), did) == Drop(devices, did)
    ensures Get(devices, did).None? && (forall m :: m in AllModels(models) ==> m.device != did) ==>
            Purged(models, did) == models && Drop(devices, did) == devices
  {
    PurgedAll(models, d.models, did);
    PutThenDrop(devices, did, d);
    AllModelsOk(models);
    if forall m :: m in AllModels(models) ==> m.device != did {
      forall e | e in models ensures e.1 != [] && forall m :: m in e.1 ==> m.device != did {
        assert ListOk(e.0, e.1);
      }
      PurgedNothing(models, did);
    }
  }

  // ---------------------------------------------------------------- live scores

  /** The reported health of the worst live device, at most start. */
  function LiveHealth(start: real, roles: seq<Role>, healths: map<string, Health>): real {
    if roles == [] then start
    else
      var before := LiveHealth(start, roles[..|roles| - 1], healths);
      var did := roles[|roles| - 1].device;
      if did in healths then Min(before, HealthScore(healths[did])) else before
  }

  /** _live_score */
  function LiveScore(w: Weights, c: Config, healths: map<string, Health>): real {
    WeightedScore(w, c.scores.(health := LiveHealth(c.scores.health, c.devices, healths)))
  }

  /** The live health is the least of the stored one and those reported for the devices that take part. */
  lemma {:induction false} LiveHealthIsLeast(start: real, roles: seq<Role>, healths: map<string, Health>)
    ensures var m := LiveHealth(start, roles, healths);
            m <= start && (forall r :: r in roles && r.device in healths ==> m <= HealthScore(healths[r.device])) &&
            (m == start || exists r :: r in roles && r.device in healths && m == HealthScore(healths[r.device]))
  {
    if roles != [] {
      var rest, last := roles[..|roles| - 1], roles[|roles| - 1];
      assert roles == rest + [last];
      LiveHealthIsLeast(start, rest, healths);
      hide HealthScore;
    }
  }

  /** The live score is the weighted mean of the five partial scores, with the live health for the stored one. */
  lemma LiveScoreExactly(w: Weights, c: Config, healths: map<string, Health>)
    ensures var total := w.privacy + w.capability + w.latency + w.cost + w.health;
            var s := c.scores;
            if total == 0.0 then LiveScore(w, c, healths) == 0.0
            else LiveScore(w, c, healths) ==
                 (w.privacy * s.privacy + w.capability * s.capability + w.latency * s.latency + w.cost * s.cost +
                  w.health * LiveHealth(s.health, c.devices, healths)) / total
  {
  }

  lemma Reciprocal(p: real, o: real)
    requires p > 0.0 && o > 0.0
    ensures 1.0 / p + o > 0.0 && 0.0 < 1.0 / (1.0 / p + o) < p
  {
    var q := 1.0 / p;
    assert q * p == 1.0 && q > 0.0;
    var s := q + o;
    var r := 1.0 / s;
    assert r * s == 1.0 && r > 0.0;
    if r >= p {
      assert r * s >= p * s;
      assert p * s == p * q + p * o;
      assert p * o > 0.0;
    }
  }

  /** Working with a peer gains less than one token per second over working alone. */
  lemma DistributedTokens(host: Device, worker: Device, m: Model)
    requires LocalTokens(host, m) >= 0.0 && Lookup(host.peerLatencyMs, worker.did, 50.0) >= 0.0
    ensures SecondsPerToken(host, worker, m) > 0.0
    ensures 1.0 / SecondsPerToken(host, worker, m) < LocalTokens(host, m) + 1.0
  {
    var b := Max(Lookup(host.peerBandwidthMbps, worker.did, 100.0), 1.0);
    assert 1.0 / b > 0.0;
    Reciprocal(Max(LocalTokens(host, m), 1.0), Overhead(host, worker));
  }

  lemma HealthOfPair(start: real, host: Role, other: Role, worker: Role, healths: map<string, Health>)
    requires host.device == other.device
    ensures LiveHealth(start, [host, worker], healths) <= LiveHealth(start, [other], healths)
  {
    assert [host, worker][..1] == [host] && [host][..0] == [] && [other][..0] == [];
  }

  lemma PositiveMemory(host: Device, m: Model)
    requires Fits(host, m) && (m.sizeGb >= 0.0 || UsableMemory(host) >= 0.0)
    ensures LocalTokens(host, m) >= 0.0
  {
    assert UsableMemory(host) / Max(m.sizeGb, 1.0) >= 0.0;
  }

  /** Where a model fits on its host alone, running it there scores strictly higher than sharing it with any
      worker, under any live healths, as long as latency weighs at most three times as much as privacy. */
  lemma LocalBeatsDistributed(w: Weights, host: Device, worker: Device, m: Model, healths: map<string, Health>)
    requires w.Sensible() && w.privacy > 0.0 && w.latency <= 3.0 * w.privacy
    requires Fits(host, m) && (m.sizeGb >= 0.0 || UsableMemory(host) >= 0.0)
    requires Divides(host, worker, m) && Lookup(host.peerLatencyMs, worker.did, 50.0) >= 0.0
    ensures LiveScore(w, DistributedConfig(host, worker, m), healths) < LiveScore(w, LocalConfig(host, m), healths)
  {
    PositiveMemory(host, m);
    DistributedTokens(host, worker, m);
    var l, d := LocalConfig(host, m), DistributedConfig(host, worker, m);
    HealthOfPair(0.8, d.devices[0], l.devices[0], d.devices[1], healths);
    var hl, hd := LiveHealth(0.8, l.devices, healths), LiveHealth(0.8, d.devices, healths);
    assert hd <= hl;
    assert d.scores.latency < l.scores.latency + 1.0 / 30.0;
    SumGap(w, l.scores.(health := hl), d.scores.(health := hd));
    DivideByPositive(WeightedSum(w, d.scores.(health := hd)), WeightedSum(w, l.scores.(health := hl)), w.Total());
  }

  lemma SumGap(w: Weights, l: Scores, d: Scores)
    requires w.Sensible() && w.privacy > 0.0 && w.latency <= 3.0 * w.privacy
    requires l.privacy == 1.0 && d.privacy == 0.9 && l.capability == d.capability && l.cost == d.cost
    requires d.latency < l.latency + 1.0 / 30.0 && d.health <= l.health
    ensures WeightedSum(w, d) < WeightedSum(w, l)
  {
    hide Weigh;
    PrivacyAgainstLatency(w.privacy, w.latency, l.latency, d.latency);
    NoLess(w.health, l.health, d.health);
  }

  lemma NoLess(w: real, l: real, d: real)
    requires w >= 0.0 && d <= l
    ensures Weigh(w, d) <= Weigh(w, l)
  {
    MultiplyMonotone(w, w, 0.0, l - d);
    assert w * (l - d) == w * l - w * d;
  }

  lemma PrivacyAgainstLatency(privacy: real, latency: real, l: real, d: real)
    requires privacy > 0.0 && 0.0 <= latency <= 3.0 * privacy && d < l + 1.0 / 30.0
    ensures Weigh(privacy, 0.9) + Weigh(latency, d) < Weigh(privacy, 1.0) + Weigh(latency, l)
  {
    LatencyGap(privacy, latency, l, d);
  }

  lemma LatencyGap(privacy: real, latency: real, l: real, d: real)
    requires privacy > 0.0 && 0.0 <= latency <= 3.0 * privacy && d < l + 1.0 / 30.0
    ensures privacy * 0.1 + latency * l - latency * d > 0.0
  {
    var gap := d - l;
    var x := latency * gap;
    assert x == latency * d - latency * l;
    if gap >= 0.0 {
      var tripled := 3.0 * privacy;
      var y := tripled * gap;
      MultiplyMonotone(latency, tripled, gap, gap);
      assert x <= y;
      var k := 1.0 / 30.0;
      assert 3.0 * k == 0.1;
      var z := tripled * (k - gap);
      MultiplyPositive(tripled, k - gap);
      assert z > 0.0;
      assert z == tripled * k - y;
      assert tripled * k == privacy * 0.1;
      assert x < privacy * 0.1;
    } else {
      MultiplyMonotone(latency, latency, 0.0, -gap);
      assert latency * -gap == -(latency * gap);
    }
  }

  lemma MultiplyPositive(a: real, b: real)
    requires a > 0.0 && b > 0.0
    ensures a * b > 0.0
  {
  }
}
