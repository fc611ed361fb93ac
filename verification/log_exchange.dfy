/** What the count-based log diffs of src/aries/memory/store.py lines 372-385 transfer, and when they suffice. */
module LogExchange {
  import opened Wrappers
  import opened Entries
  import opened AppendLogs
  import opened Store
  import opened Exchange
  import opened Sync
  import opened SyncLogs

  function Shorter<T>(a: seq<T>, b: seq<T>): nat { if |a| < |b| then |a| else |b| }

  /** The log a after the diff of the log b against it: b's records from a's length on are merged in. */
  ghost function Taken(a: seq<Record>, b: seq<Record>): seq<Record> { if |b| > |a| then MergeLog(a, b[|a|..]) else a }

  // ---------------------------------------------------------------- one direction

  lemma {:induction false} FreshLength(seen: set<(string, int)>, remote: seq<Record>)
    ensures |Fresh(seen, remote)| <= |remote|
    decreases |remote|
  {
    if remote != [] {
      FreshLength(seen, remote[1..]);
      FreshLength(seen + {remote[0].Id()}, remote[1..]);
    }
  }

  lemma MergeLength(a: seq<Record>, b: seq<Record>)
    ensures |a| <= |MergeLog(a, b)| <= |a| + |b|
  {
    FreshLength(Ids(a), b);
  }

  lemma SplitContents(s: seq<Record>, n: nat)
    requires n <= |s|
    ensures Contents(s) == Contents(s[..n]) + Contents(s[n..])
    ensures NoRepeats(s) ==> Contents(s[..n]) !! Contents(s[n..]) && NoRepeats(s[..n]) && NoRepeats(s[n..])
  {
    assert s == s[..n] + s[n..];
    if NoRepeats(s) {
      forall x | x in s[..n] ensures x !in s[n..] {
        var i :| 0 <= i < n && s[i] == x;
        assert forall j :: n <= j < |s| ==> s[i].Id() != s[j].Id();
      }
    }
  }

  /** The diff brings the tail of b and nothing else, and a then has all of b exactly when it had the records that b
      holds below the shorter of the two lengths. */
  lemma TakenExactly(a: seq<Record>, b: seq<Record>)
    requires Coherent(Contents(a) + Contents(b)) && NoRepeats(a) && NoRepeats(b)
    ensures var n := Shorter(a, b);
            Contents(Taken(a, b)) == Contents(a) + Contents(b[n..]) &&
            (Contents(b) <= Contents(Taken(a, b)) <==> Contents(b[..n]) <= Contents(a))
    ensures NoRepeats(Taken(a, b)) && (|b| > |a| ==> |Taken(a, b)| <= |b|)
  {
    hide MergeLog, Contents, NoRepeats;
    var n := Shorter(a, b);
    SplitContents(b, n);
    if |b| > |a| {
      assert Coherent(Contents(a) + Contents(b[n..]));
      MergeIsUnion(a, b[n..]);
      MergeKeepsIdentities(a, b[n..]);
      MergeLength(a, b[n..]);
    } else {
      assert b[n..] == [];
      NoContents();
    }
  }

  lemma NoContents()
    ensures Contents([]) == {}
  {
  }

  // ---------------------------------------------------------------- both directions

  lemma {:induction false} ContentsSize(s: seq<Record>)
    requires NoRepeats(s)
    ensures |Contents(s)| == |s|
  {
    if s == [] {
      NoContents();
    } else {
      var k := |s| - 1;
      SplitContents(s, k);
      ContentsSize(s[..k]);
      assert Contents(s[k..]) == {s[k]};
    }
  }

  lemma SameSizeSubset(s: set<Record>, t: set<Record>)
    requires s <= t && |s| == |t|
    ensures s == t
  {
    if s != t {
      var x :| x in t && x !in s;
      assert |s + {x}| == |s| + 1;
      SizeOfSubset(s + {x}, t);
    }
  }

  lemma {:induction false} SizeOfSubset(s: set<Record>, t: set<Record>)
    requires s <= t
    ensures |s| <= |t|
    decreases t
  {
    if t != {} {
      var x :| x in t;
      SizeOfSubset(s - {x}, t - {x});
    }
  }

  /** After a diff each way, the second one computed after the first arrived, the logs hold the same records if and
      only if below the shorter length they already did; they then hold the union. */
  lemma BothTakenExactly(a: seq<Record>, b: seq<Record>)
    requires Coherent(Contents(a) + Contents(b)) && NoRepeats(a) && NoRepeats(b)
    ensures var n, a' := Shorter(a, b), Taken(a, b);
            var b' := Taken(b, a');
            (Contents(a') == Contents(b') <==> Contents(a[..n]) == Contents(b[..n])) &&
            (Contents(a') == Contents(b') ==> Contents(a') == Contents(a) + Contents(b))
  {
    hide MergeLog, Contents, NoRepeats, Coherent;
    var n, a' := Shorter(a, b), Taken(a, b);
    TakenExactly(a, b);
    SplitContents(a, n);
    SplitContents(b, n);
    ContentsSize(a[..n]);
    ContentsSize(b[..n]);
    if |b| > |a| {
      assert a[..n] == a && Taken(b, a') == b;
      if Contents(b[..n]) <= Contents(a) { SameSizeSubset(Contents(b[..n]), Contents(a)); }
    } else {
      assert a' == a && b[..n] == b;
      assert Contents(b) + Contents(a) == Contents(a) + Contents(b);
      TakenExactly(b, a);
      if Contents(a[..n]) <= Contents(b) { SameSizeSubset(Contents(a[..n]), Contents(b)); }
    }
  }

  // ---------------------------------------------------------------- diffs of whole stores

  ghost predicate NormalLogs(s: State) { forall k :: k in s.logs ==> NormalizeKey(k) == k }

  lemma {:induction false} LogsAbsent(p: Stored, items: seq<(string, seq<Record>)>, k: string)
    requires NormalizeKey(k) == k && forall i :: 0 <= i < |items| ==> NormalizeKey(items[i].0) != k
    ensures LogOf(ApplyLogs(p, items).mem, k) == LogOf(p.mem, k)
    decreases |items|
  {
    if items != [] { LogsAbsent(p, items[..|items| - 1], k); }
  }

  lemma {:induction false} LogsPresent(p: Stored, items: seq<(string, seq<Record>)>, j: nat)
    requires j < |items|
    requires forall i :: 0 <= i < |items| ==> NormalizeKey(items[i].0) == items[i].0
    requires forall i :: 0 <= i < |items| && i != j ==> items[i].0 != items[j].0
    ensures LogOf(ApplyLogs(p, items).mem, items[j].0) == MergeLog(LogOf(p.mem, items[j].0), items[j].1)
    decreases |items|
  {
    hide MergeLog;
    var n := |items| - 1;
    if j == n {
      LogsAbsent(p, items[..n], items[j].0);
    } else {
      LogsPresent(p, items[..n], j);
    }
  }

  lemma {:induction false} LogsStayNormal(p: Stored, items: seq<(string, seq<Record>)>)
    requires NormalLogs(p.mem)
    ensures NormalLogs(ApplyLogs(p, items).mem)
    decreases |items|
  {
    if items != [] {
      var n := |items| - 1;
      LogsStayNormal(p, items[..n]);
      NormalizeIdempotent(items[n].0);
    }
  }

  /** What a diff does to the log at k, in whatever order the dictionary is walked. */
  lemma ApplyLogsAt(p: Stored, d: Diff, m: map<string, seq<Record>>, k: string)
    requires Enumerates(d.logs, m) && (forall x :: x in m ==> NormalizeKey(x) == x) && NormalizeKey(k) == k
    ensures LogOf(ApplyDiff(p, d).mem, k) == if k in m then MergeLog(LogOf(p.mem, k), m[k]) else LogOf(p.mem, k)
  {
    hide MergeLog;
    var q := ApplyRegisters(p, d.registers);
    RegistersKeepLogs(p, d.registers);
    SameLogsSameLogOf(q.mem, p.mem);
    if k in m {
      var j :| 0 <= j < |d.logs| && d.logs[j].0 == k;
      forall i | 0 <= i < |d.logs| && i != j ensures d.logs[i].0 != d.logs[j].0 {
        assert i < j || j < i;
      }
      LogsPresent(q, d.logs, j);
    } else {
      LogsAbsent(q, d.logs, k);
    }
  }

  /** Applying the diff of b against the state of a takes exactly the tail at every key. */
  lemma LogTaken(a: Stored, b: State, nowA: int, nowB: int, d: Diff, key: string)
    requires NormalLogs(b) && IsDiff(d, b, SyncStateOf(a.mem, nowA), nowB)
    ensures LogOf(ApplyDiff(a, d).mem, key) == Taken(LogOf(a.mem, key), LogOf(b, key))
  {
    NormalizeIdempotent(key);
    hide MergeLog, NormalizeKey;
    var k := NormalizeKey(key);
    var m := LogDiff(b, SyncStateOf(a.mem, nowA).logs);
    ApplyLogsAt(a, d, m, k);
    assert RemoteLength(SyncStateOf(a.mem, nowA).logs, k) == |LogOf(a.mem, k)|;
  }

  /** The logs of both stores after an exchange. */
  lemma ExchangeTakes(a: Stored, b: Stored, nowA: int, nowB: int, nowA': int, nowB': int,
                      a': Stored, b': Stored, response: Message, update: Option<Message>, k: string)
    requires NormalLogs(a.mem) && NormalLogs(b.mem)
    ensures Exchanged(a, b, nowA, nowB, nowA', nowB', a', b', response, update) ==>
              LogOf(a'.mem, k) == Taken(LogOf(a.mem, k), LogOf(b.mem, k)) &&
              LogOf(b'.mem, k) == Taken(LogOf(b.mem, k), LogOf(a'.mem, k))
  {
    hide IsDiff, Taken, LogOf;
    if Exchanged(a, b, nowA, nowB, nowA', nowB', a', b', response, update) {
      LogTaken(a, b.mem, nowA, nowB, response.diff, k);
      RegistersKeepLogs(a, response.diff.registers);
      LogsStayNormal(ApplyRegisters(a, response.diff.registers), response.diff.logs);
      var d := if update.Some? then update.value.diff else NOTHING;
      assert b' == ApplyDiff(b, d);
      LogTaken(b, a'.mem, nowB, nowA', d, k);
    }
  }

  /** In every run an exchange leaves two devices with the same records under k if and only if, below the length of
      the shorter log, they had the same records before. */
  lemma ExchangeJoinsLogsExactly(hash: string -> string, states: seq<System>, steps: seq<Step>, n: nat, d: string, c: string,
                                 nowA: int, nowB: int, nowA': int, nowB': int,
                                 a': Stored, b': Stored, response: Message, update: Option<Message>, k: string)
    requires Run(hash, states, steps) && n < |states| && d in states[n].replicas && c in states[n].replicas
    ensures var p, q := states[n].replicas[d].stored, states[n].replicas[c].stored;
            var x, y, x', y' := LogOf(p.mem, k), LogOf(q.mem, k), LogOf(a'.mem, k), LogOf(b'.mem, k);
            var m := Shorter(x, y);
            Exchanged(p, q, nowA, nowB, nowA', nowB', a', b', response, update) ==>
              (Contents(x') == Contents(y') <==> Contents(x[..m]) == Contents(y[..m])) &&
              (Contents(x') == Contents(y') ==> Contents(x') == Contents(x) + Contents(y))
  {
    hide Exchanged, RegisterInv, LogOf, Contents, NoRepeats, Coherent, Taken;
    var p, q := states[n].replicas[d].stored, states[n].replicas[c].stored;
    RunLogs(hash, states, steps, n);
    LoggedNormal(states[n], d);
    LoggedNormal(states[n], c);
    LogsCoherentInRuns(hash, states, steps, n, d, c, c, k);
    var x, y := LogOf(p.mem, k), LogOf(q.mem, k);
    assert Contents(x) + Contents(y) + Contents(y) == Contents(x) + Contents(y);
    BothTakenExactly(x, y);
    if Exchanged(p, q, nowA, nowB, nowA', nowB', a', b', response, update) {
      ExchangeTakes(p, q, nowA, nowB, nowA', nowB', a', b', response, update, k);
    }
  }

  lemma LoggedNormal(s: System, d: string)
    requires LogInv(s) && d in s.replicas
    ensures NormalLogs(s.replicas[d].stored.mem)
  {
    assert LogsOk(s.replicas[d].stored.mem.logs, s.logged);
  }

  // ---------------------------------------------------------------- a run that fails to converge

  /** A device after its first write to the log k. */
  function Logging(device: string, k: string, payload: string, now: int): Replica {
    var s := EMPTY.(logs := map[k := [Record(device, 0, now, payload)]]);
    Replica(Stored(s, s), {}, {}, {})
  }

  lemma FirstAppend(hash: string -> string, s: System, device: string, key: string, payload: string, now: int, t: System)
    requires device in s.replicas && s.replicas[device] == Replica(Stored(EMPTY, EMPTY), {}, {}, {})
    requires NamespaceOf(NormalizeKey(key)).Some?
    requires var k := NormalizeKey(key);
             t == s.(replicas := s.replicas[device := Logging(device, k, payload, now)],
                     logged := s.logged + {Logged(k, Record(device, 0, now, payload))})
    ensures Next(hash, s, AppendStep(device, key, payload, now), t)
  {
    var p := AppendStored(Stored(EMPTY, EMPTY), device, key, payload, now);
    var x := Record(device, 0, now, payload);
    assert LogOf(EMPTY, key) == [] && AppendTo([], device, now, payload) == [] + [x] == [x];
    assert EMPTY.logs[NormalizeKey(key) := [x]] == map[NormalizeKey(key) := [x]];
    assert p.mem == EMPTY.(logs := map[NormalizeKey(key) := [Record(device, 0, now, payload)]]);
  }

  /** Two stores with one record each under the same key have nothing to tell each other. */
  lemma NothingToSend(a: State, b: State, k: string, x: Record, y: Record, nowA: int, nowB: int)
    requires a == EMPTY.(logs := map[k := [x]]) && b == EMPTY.(logs := map[k := [y]])
    ensures IsDiff(NOTHING, b, SyncStateOf(a, nowA), nowB)
  {
    var remote := SyncStateOf(a, nowA);
    assert RegisterDiff(b, remote.registers, nowB) == map[];
    assert RemoteLength(remote.logs, k) == 1;
    assert LogDiff(b, remote.logs) == map[];
  }

  /** Two devices each append one record under one key and complete an exchange: each still holds its own record only. */
  lemma LogsFailToMeet(hash: string -> string, d: string, c: string, key: string, x: string, y: string, now: int)
    returns (states: seq<System>, steps: seq<Step>)
    requires d != c && NamespaceOf(NormalizeKey(key)).Some?
    ensures Run(hash, states, steps) && |steps| == 5 && states[5].replicas.Keys == {d, c}
    ensures steps[0] == AppendStep(d, key, x, now) && steps[1] == AppendStep(c, key, y, now)
    ensures steps[2] == SendStep(d, now) && steps[3].DeliverStep? && steps[3].device == c && steps[3].message.Request?
    ensures steps[4].DeliverStep? && steps[4].device == d && Some(steps[4].message) == steps[3].reply && steps[4].reply.None?
    ensures LogOf(states[5].replicas[d].stored.mem, key) == [Record(d, 0, now, x)]
    ensures LogOf(states[5].replicas[c].stored.mem, key) == [Record(c, 0, now, y)]
  {
    hide Next, NormalizeKey, NamespaceOf, IsDiff, SyncStateOf, LogOf;
    var k := NormalizeKey(key);
    var empty := Replica(Stored(EMPTY, EMPTY), {}, {}, {});
    var s0 := System(map[d := empty, c := empty], {}, {}, {});
    var p, q := Logging(d, k, x, now), Logging(c, k, y, now);
    var l, m := Logged(k, Record(d, 0, now, x)), Logged(k, Record(c, 0, now, y));
    var s1 := s0.(replicas := s0.replicas[d := p], logged := {l});
    var s2 := s1.(replicas := s1.replicas[c := q], logged := {l} + {m});
    FirstAppend(hash, s0, d, key, x, now, s1);
    FirstAppend(hash, s1, c, key, y, now, s2);
    var request := RequestOf(p.stored.mem, now);
    var s3 := s2.(network := {request});
    var response := Response(NOTHING, SyncStateOf(q.stored.mem, now));
    var s4 := s3.(network := {request} + {response});
    steps := [AppendStep(d, key, x, now), AppendStep(c, key, y, now), SendStep(d, now),
              DeliverStep(c, request, now, Some(response)), DeliverStep(d, response, now, None)];
    states := [s0, s1, s2, s3, s4, s4];
    RequestSent(hash, s2, d, now, s3);
    NothingAnswered(hash, s3, d, c, k, x, y, now, s4);
    NothingTaken(hash, s4, d, c, k, x, y, now);
    OneRecord(p.stored.mem, key, l.record);
    OneRecord(q.stored.mem, key, m.record);
  }

  lemma OneRecord(s: State, key: string, x: Record)
    requires s.logs == map[NormalizeKey(key) := [x]]
    ensures LogOf(s, key) == [x]
  {
  }

  lemma RequestSent(hash: string -> string, s: System, d: string, now: int, t: System)
    requires d in s.replicas && s.network == {} && t == s.(network := {RequestOf(s.replicas[d].stored.mem, now)})
    ensures Next(hash, s, SendStep(d, now), t)
  {
  }

  lemma NothingAnswered(hash: string -> string, s: System, d: string, c: string, k: string, x: string, y: string, now: int, t: System)
    requires c in s.replicas && s.replicas[c] == Logging(c, k, y, now)
    requires s.network == {RequestOf(Logging(d, k, x, now).stored.mem, now)}
    requires t == s.(network := s.network + {Response(NOTHING, SyncStateOf(Logging(c, k, y, now).stored.mem, now))})
    ensures Next(hash, s, DeliverStep(c, RequestOf(Logging(d, k, x, now).stored.mem, now), now,
                                      Some(Response(NOTHING, SyncStateOf(Logging(c, k, y, now).stored.mem, now)))), t)
  {
    var p, q := Logging(d, k, x, now), Logging(c, k, y, now);
    NothingToSend(p.stored.mem, q.stored.mem, k, Record(d, 0, now, x), Record(c, 0, now, y), now, now);
    hide IsDiff, SyncStateOf;
    assert MergeDiff(q, NOTHING) == q && s.replicas[c := q] == s.replicas;
  }

  lemma NothingTaken(hash: string -> string, s: System, d: string, c: string, k: string, x: string, y: string, now: int)
    requires d in s.replicas && s.replicas[d] == Logging(d, k, x, now)
    requires Response(NOTHING, SyncStateOf(Logging(c, k, y, now).stored.mem, now)) in s.network
    ensures Next(hash, s, DeliverStep(d, Response(NOTHING, SyncStateOf(Logging(c, k, y, now).stored.mem, now)), now, None), s)
  {
    var p, q := Logging(d, k, x, now), Logging(c, k, y, now);
    NothingToSend(q.stored.mem, p.stored.mem, k, Record(c, 0, now, y), Record(d, 0, now, x), now, now);
    hide IsDiff, SyncStateOf;
    assert MergeDiff(p, NOTHING) == p && s.replicas[d := p] == s.replicas;
  }
}
