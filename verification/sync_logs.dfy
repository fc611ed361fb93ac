/** Append logs over whole runs: record identities never clash, so merging is set union. */
module SyncLogs {
  import opened Entries
  import opened AppendLogs
  import opened Store
  import opened Exchange
  import opened Sync

  ghost predicate LogsOk(logs: map<string, seq<Record>>, logged: set<Logged>) {
    forall k :: k in logs ==>
      NormalizeKey(k) == k && NoRepeats(logs[k]) && forall x :: x in logs[k] ==> Logged(k, x) in logged
  }

  /** Devices never number a record at or above the length of their own log. */
  ghost predicate LoggedBehind(s: System) {
    forall l :: l in s.logged ==>
      NormalizeKey(l.key) == l.key && l.record.device in s.replicas &&
      0 <= l.record.seqNo < |LogOf(s.replicas[l.record.device].stored.mem, l.key)|
  }

  /** Per key, (_device, _seq) names at most one record. */
  ghost predicate IdentitiesUnique(logged: set<Logged>) {
    forall l, m :: l in logged && m in logged && l.key == m.key && l.record.Id() == m.record.Id() ==> l == m
  }

  ghost predicate LogItemsOk(items: seq<(string, seq<Record>)>, logged: set<Logged>) {
    forall i :: 0 <= i < |items| ==>
      NormalizeKey(items[i].0) == items[i].0 && forall x :: x in items[i].1 ==> Logged(items[i].0, x) in logged
  }

  ghost predicate NetworkLogged(s: System) {
    forall m :: m in s.network ==> LogItemsOk(m.diff.logs, s.logged)
  }

  ghost predicate ReplicaLogs(s: System) {
    forall d :: d in s.replicas ==> LogsOk(s.replicas[d].stored.mem.logs, s.logged)
  }

  ghost predicate LogInv(s: System) {
    ReplicaLogs(s) && LoggedBehind(s) && IdentitiesUnique(s.logged) && NetworkLogged(s)
  }

  lemma MergeLogOk(p: State, key: string, remote: seq<Record>, logged: set<Logged>)
    requires LogsOk(p.logs, logged) && NormalizeKey(key) == key && forall x :: x in remote ==> Logged(key, x) in logged
    ensures LogsOk(MergeLogState(p, key, remote).logs, logged)
    ensures forall k :: |LogOf(MergeLogState(p, key, remote), k)| >= |LogOf(p, k)|
  {
    hide MergeLog;
    var log := LogOf(p, key);
    MergeIsUnion(log, remote);
    MergeKeepsIdentities(log, remote);
    MergeGrows(log, remote);
    forall x | x in MergeLog(log, remote) ensures Logged(key, x) in logged {
      assert x in Contents(MergeLog(log, remote));
    }
  }

  lemma MergeGrows(a: seq<Record>, b: seq<Record>)
    ensures |MergeLog(a, b)| >= |a|
  {
  }

  lemma {:induction false} ApplyLogsOk(p: Stored, items: seq<(string, seq<Record>)>, logged: set<Logged>)
    requires LogsOk(p.mem.logs, logged) && LogItemsOk(items, logged)
    ensures LogsOk(ApplyLogs(p, items).mem.logs, logged)
    ensures forall k :: |LogOf(ApplyLogs(p, items).mem, k)| >= |LogOf(p.mem, k)|
    decreases |items|
  {
    hide LogsOk, MergeLogState, LogOf;
    if items != [] {
      var n := |items| - 1;
      ApplyLogsOk(p, items[..n], logged);
      MergeLogOk(ApplyLogs(p, items[..n]).mem, items[n].0, items[n].1, logged);
    }
  }

  lemma DiffLogsOk(s: State, d: Diff, remote: SyncState, now: int, logged: set<Logged>)
    requires LogsOk(s.logs, logged) && IsDiff(d, s, remote, now)
    ensures LogItemsOk(d.logs, logged)
  {
    var m := LogDiff(s, remote.logs);
    forall i | 0 <= i < |d.logs|
      ensures NormalizeKey(d.logs[i].0) == d.logs[i].0
      ensures forall x :: x in d.logs[i].1 ==> Logged(d.logs[i].0, x) in logged
    {
      assert d.logs[i].0 in m;
    }
  }

  /** One device's logs only grew, within the records that exist. */
  lemma LogsMoved(s: System, t: System, d: string, q: Replica)
    requires LogInv(s) && d in s.replicas && t.replicas == s.replicas[d := q] && t.logged == s.logged
    requires LogsOk(q.stored.mem.logs, s.logged)
    requires forall k :: |LogOf(q.stored.mem, k)| >= |LogOf(s.replicas[d].stored.mem, k)|
    ensures ReplicaLogs(t) && LoggedBehind(t) && IdentitiesUnique(t.logged)
  {
    hide LogsOk, LogOf;
  }

  lemma LogDeliver(hash: string -> string, s: System, step: Step, t: System)
    requires RegisterInv(s) && LogInv(s) && Next(hash, s, step, t) && step.DeliverStep?
    ensures LogInv(t)
  {
    hide LogsOk, LogItemsOk, RegisterInv, LogOf;
    var d, m, r := step.device, step.message, s.replicas[step.device];
    var q := MergeDiff(r, m.diff);
    var p := ApplyRegisters(r.stored, m.diff.registers);
    RegistersKeepLogs(r.stored, m.diff.registers);
    ApplyLogsOk(p, m.diff.logs, s.logged);
    assert q.stored == ApplyDiff(r.stored, m.diff);
    SameLogsSameLogOf(p.mem, r.stored.mem);
    LogsMoved(s, t, d, q);
    if m.Request? {
      DiffLogsOk(r.stored.mem, step.reply.value.diff, m.state, step.now, s.logged);
    } else if step.reply.Some? {
      DiffLogsOk(q.stored.mem, step.reply.value.diff, m.state, step.now, s.logged);
    }
  }

  lemma SameLogsSameLogOf(p: State, q: State)
    requires p.logs == q.logs
    ensures forall k :: LogOf(p, k) == LogOf(q, k)
  {
  }

  lemma {:induction false} RegistersKeepLogs(p: Stored, items: seq<(string, Entry)>)
    ensures ApplyRegisters(p, items).mem.logs == p.mem.logs
    decreases |items|
  {
    if items != [] { RegistersKeepLogs(p, items[..|items| - 1]); }
  }

  lemma LogAppendPreserves(hash: string -> string, s: System, step: Step, t: System)
    requires RegisterInv(s) && LogInv(s) && Next(hash, s, step, t) && step.AppendStep?
    ensures LogInv(t)
  {
    hide RegisterInv;
    var d, r := step.device, s.replicas[step.device];
    var p := AppendStored(r.stored, d, step.key, step.payload, step.now);
    if NamespaceOf(NormalizeKey(step.key)).None? {
      LogsMoved(s, t, d, t.replicas[d]);
    } else {
      var k := NormalizeKey(step.key);
      NormalizeIdempotent(step.key);
      var log := LogOf(r.stored.mem, step.key);
      var x := Record(d, |log|, step.now, step.payload);
      AppendOk(s, r, k, log, x);
      RecordIssued(s, t, d, k, x);
    }
  }

  lemma AppendOk(s: System, r: Replica, k: string, log: seq<Record>, x: Record)
    requires LogInv(s) && x.device in s.replicas && s.replicas[x.device] == r && NormalizeKey(k) == k
    requires log == LogOf(r.stored.mem, k) && x.seqNo == |log|
    ensures LogsOk(r.stored.mem.logs[k := log + [x]], s.logged + {Logged(k, x)})
    ensures forall l :: l in s.logged && l.key == k ==> l.record.Id() != x.Id()
  {
    forall y | y in log ensures y.Id() != x.Id() && Logged(k, y) in s.logged {
      assert k in r.stored.mem.logs;
    }
  }

  lemma RecordIssued(s: System, t: System, d: string, k: string, x: Record)
    requires LogInv(s) && d in s.replicas && t.replicas.Keys == s.replicas.Keys && NormalizeKey(k) == k
    requires t.logged == s.logged + {Logged(k, x)} && t.network == s.network && x.device == d
    requires forall c :: c in s.replicas && c != d ==> t.replicas[c] == s.replicas[c]
    requires LogsOk(t.replicas[d].stored.mem.logs, t.logged)
    requires forall j :: |LogOf(t.replicas[d].stored.mem, j)| >= |LogOf(s.replicas[d].stored.mem, j)|
    requires 0 <= x.seqNo < |LogOf(t.replicas[d].stored.mem, k)|
    requires forall l :: l in s.logged && l.key == k ==> l.record.Id() != x.Id()
    ensures LogInv(t)
  {
    hide LogOf, LogItemsOk;
    forall c | c in t.replicas ensures LogsOk(t.replicas[c].stored.mem.logs, t.logged) {
      if c != d { assert LogsOk(s.replicas[c].stored.mem.logs, s.logged); }
    }
    forall m | m in t.network ensures LogItemsOk(m.diff.logs, t.logged) {
      MoreLogged(m.diff.logs, s.logged, t.logged);
    }
  }

  lemma MoreLogged(items: seq<(string, seq<Record>)>, logged: set<Logged>, more: set<Logged>)
    requires LogItemsOk(items, logged) && logged <= more
    ensures LogItemsOk(items, more)
  {
  }

  lemma LogNextPreserves(hash: string -> string, s: System, step: Step, t: System)
    requires RegisterInv(s) && LogInv(s) && Next(hash, s, step, t)
    ensures LogInv(t)
  {
    hide LogsOk, LogOf;
    match step
    case SetStep(_, _, _, _, _) =>
      SetInv(s.replicas[step.device], hash, step);
      SameLogsSameLogOf(t.replicas[step.device].stored.mem, s.replicas[step.device].stored.mem);
      LogsMoved(s, t, step.device, t.replicas[step.device]);
    case AppendStep(_, _, _, _) => LogAppendPreserves(hash, s, step, t);
    case GetStep(_, _, _) =>
      SameLogsSameLogOf(t.replicas[step.device].stored.mem, s.replicas[step.device].stored.mem);
      LogsMoved(s, t, step.device, t.replicas[step.device]);
    case SendStep(_, _) =>
    case DeliverStep(_, _, _, _) => LogDeliver(hash, s, step, t);
    case CrashStep(_) =>
      SameLogsSameLogOf(t.replicas[step.device].stored.mem, s.replicas[step.device].stored.mem);
      LogsMoved(s, t, step.device, t.replicas[step.device]);
  }

  lemma {:induction false} RunLogs(hash: string -> string, states: seq<System>, steps: seq<Step>, n: nat)
    requires Run(hash, states, steps) && n < |states|
    ensures RegisterInv(states[n]) && LogInv(states[n])
  {
    hide RegisterInv;
    RunInv(hash, states, steps, n);
    if n > 0 {
      RunLogs(hash, states, steps, n - 1);
      LogNextPreserves(hash, states[n - 1], steps[n - 1], states[n]);
    }
  }

  /** In every run, merging any log in flight for k into any device's log for k is exactly set union. */
  lemma MergeInRunsIsUnion(hash: string -> string, states: seq<System>, steps: seq<Step>, n: nat, d: string, m: Message, i: nat)
    requires Run(hash, states, steps) && n < |states| && d in states[n].replicas
    requires m in states[n].network && i < |m.diff.logs|
    ensures var log, remote := LogOf(states[n].replicas[d].stored.mem, m.diff.logs[i].0), m.diff.logs[i].1;
            Coherent(Contents(log) + Contents(remote)) && NoRepeats(log) &&
            Contents(MergeLog(log, remote)) == Contents(log) + Contents(remote) &&
            Sorted(MergeLog(log, remote)) && NoRepeats(MergeLog(log, remote))
  {
    RunLogs(hash, states, steps, n);
    var s, k := states[n], m.diff.logs[i].0;
    var log, remote := LogOf(s.replicas[d].stored.mem, k), m.diff.logs[i].1;
    assert LogItemsOk(m.diff.logs, s.logged) && LogsOk(s.replicas[d].stored.mem.logs, s.logged);
    LogsCoherent(s, k, Contents(log) + Contents(remote));
    MergeIsUnion(log, remote);
    MergeKeepsIdentities(log, remote);
  }

  lemma LogsCoherent(s: System, k: string, c: set<Record>)
    requires LogInv(s) && forall x :: x in c ==> Logged(k, x) in s.logged
    ensures Coherent(c)
  {
    forall x, y | x in c && y in c && x.Id() == y.Id() ensures x == y {
      assert Logged(k, x) in s.logged && Logged(k, y) in s.logged;
    }
  }

  /** In every run the logs of any devices for one key are coherent, so MergeLaws and
      MergeOrderIrrelevant apply to them. */
  lemma LogsCoherentInRuns(hash: string -> string, states: seq<System>, steps: seq<Step>, n: nat, d: string, c: string, b: string, key: string)
    requires Run(hash, states, steps) && n < |states|
    requires d in states[n].replicas && c in states[n].replicas && b in states[n].replicas
    ensures var x, y, z := LogOf(states[n].replicas[d].stored.mem, key), LogOf(states[n].replicas[c].stored.mem, key),
                           LogOf(states[n].replicas[b].stored.mem, key);
            Coherent(Contents(x) + Contents(y) + Contents(z)) && NoRepeats(x) && NoRepeats(y) && NoRepeats(z)
  {
    RunLogs(hash, states, steps, n);
    var s, k := states[n], NormalizeKey(key);
    var x, y, z := LogOf(s.replicas[d].stored.mem, key), LogOf(s.replicas[c].stored.mem, key), LogOf(s.replicas[b].stored.mem, key);
    assert LogsOk(s.replicas[d].stored.mem.logs, s.logged) && LogsOk(s.replicas[c].stored.mem.logs, s.logged);
    assert LogsOk(s.replicas[b].stored.mem.logs, s.logged);
    LogsCoherent(s, k, Contents(x) + Contents(y) + Contents(z));
  }
}
