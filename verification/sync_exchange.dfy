/** Exchanges whose three messages are separated by any other steps: src/aries/memory/sync.py lines 105-139. */
module SyncExchange {
  import opened Wrappers
  import opened Entries
  import opened Store
  import opened Exchange
  import opened Sync

  // ---------------------------------------------------------------- what a run never takes back

  lemma {:induction false} MergeAllTakes(r: Replica, items: seq<(string, Entry)>)
    ensures r.ever <= MergeAll(r, items).ever
    ensures forall i :: 0 <= i < |items| ==> Write(NormalizeKey(items[i].0), items[i].1) in MergeAll(r, items).ever
    decreases |items|
  {
    if items != [] {
      var n := |items| - 1;
      var rest := items[..n];
      MergeAllTakes(r, rest);
      assert forall i :: 0 <= i < n ==> rest[i] == items[i];
      var before := MergeAll(r, rest);
      assert MergeAll(r, items) == MergeOne(before, items[n].0, items[n].1);
      hide MergeAll, NormalizeKey;
      assert MergeOne(before, items[n].0, items[n].1).ever == before.ever + {Write(NormalizeKey(items[n].0), items[n].1)};
    }
  }

  lemma HistoryGrows(hash: string -> string, s: System, step: Step, t: System)
    requires Next(hash, s, step, t)
    ensures t.replicas.Keys == s.replicas.Keys && s.issued <= t.issued
    ensures forall d :: d in s.replicas ==> s.replicas[d].ever <= t.replicas[d].ever
  {
    hide Handles;
    if step.DeliverStep? {
      MergeAllTakes(s.replicas[step.device], step.message.diff.registers);
    }
  }

  lemma RunStep(hash: string -> string, states: seq<System>, steps: seq<Step>, n: nat)
    requires Run(hash, states, steps) && n + 1 < |states|
    ensures |states| == |steps| + 1 && Next(hash, states[n], steps[n], states[n + 1])
  {
    hide Next;
  }

  lemma {:induction false} HistoryKept(hash: string -> string, states: seq<System>, steps: seq<Step>, n: nat, m: nat)
    requires Run(hash, states, steps) && n <= m < |states|
    ensures states[m].replicas.Keys == states[n].replicas.Keys && states[n].issued <= states[m].issued
    ensures forall d :: d in states[n].replicas ==> states[n].replicas[d].ever <= states[m].replicas[d].ever
  {
    hide Next, Run;
    if n < m {
      RunStep(hash, states, steps, m - 1);
      HistoryKept(hash, states, steps, n, m - 1);
      HistoryGrows(hash, states[m - 1], steps[m - 1], states[m]);
    }
  }

  function Registers(s: System, d: string): map<string, Entry>
    requires d in s.replicas
  {
    s.replicas[d].stored.mem.registers
  }

  /** A device that once received e under a lasting key holds e or something that supersedes it ever after. */
  lemma ReceivedStays(hash: string -> string, states: seq<System>, steps: seq<Step>, n: nat, m: nat, d: string, k: string, e: Entry)
    requires Run(hash, states, steps) && n <= m < |states| && d in states[n].replicas
    requires Write(k, e) in states[n].replicas[d].ever && Lasting(states[m].issued, k)
    ensures d in states[m].replicas && k in Registers(states[m], d)
    ensures Registers(states[m], d)[k] == e || Registers(states[m], d)[k].Supersedes(e)
  {
    hide Run;
    HistoryKept(hash, states, steps, n, m);
    RegisterIsLastWriter(hash, states, steps, m, d, k);
    SupersedesExactly(Registers(states[m], d)[k], e);
  }

  lemma HeldWasReceived(hash: string -> string, states: seq<System>, steps: seq<Step>, n: nat, d: string, k: string)
    requires Run(hash, states, steps) && n < |states| && d in states[n].replicas && k in Registers(states[n], d)
    ensures Write(k, Registers(states[n], d)[k]) in states[n].replicas[d].ever && NormalizeKey(k) == k
    ensures Write(k, Registers(states[n], d)[k]) in states[n].issued
  {
    hide Run;
    RunInv(hash, states, steps, n);
    RegisterIsLastWriter(hash, states, steps, n, d, k);
  }

  // ---------------------------------------------------------------- one diff

  /** later is no older than e; if e would still supersede it, then because a register of e's time and content was
      already there when the diff was asked for. */
  ghost predicate NoOlder(later: map<string, Entry>, k: string, e: Entry, asked: map<string, Entry>) {
    k in later && later[k].timestamp >= e.timestamp &&
    (e.Supersedes(later[k]) ==> k in asked && SameContent(asked[k], e))
  }

  /** The state known of device d is that of step n0; a diff against it, computed from what c held at step j, is
      applied by d in step i: at any later time m the register of d is no older than that of c was. */
  lemma DiffArrives(hash: string -> string, states: seq<System>, steps: seq<Step>, n0: nat, i: nat, m: nat, d: string,
                    known: int, j: nat, c: string, computed: int, diff: Diff, k: string)
    requires Run(hash, states, steps) && n0 <= i < m < |states| && d in states[n0].replicas
    requires j <= m && c in states[j].replicas && k in Registers(states[j], c) && Lasting(states[m].issued, k)
    requires steps[i].DeliverStep? && steps[i].device == d && steps[i].message.diff == diff
    requires IsDiff(diff, states[j].replicas[c].stored.mem, SyncStateOf(states[n0].replicas[d].stored.mem, known), computed)
    ensures d in states[m].replicas && NoOlder(Registers(states[m], d), k, Registers(states[j], c)[k], Registers(states[n0], d))
  {
    var source := states[j].replicas[c].stored.mem;
    var e, remote := source.registers[k], SyncStateOf(states[n0].replicas[d].stored.mem, known).registers;
    HeldLasts(hash, states, steps, j, m, c, k);
    HistoryKept(hash, states, steps, n0, i);
    HistoryKept(hash, states, steps, i, m);
    assert Next(hash, states[i], steps[i], states[i + 1]);
    if Included(e, remote, k) {
      DiffTakesIn(states[i].replicas[d], source, diff, remote, computed, k);
      hide Run, Next, IsDiff, SyncStateOf, Included, Lasting;
      ReceivedStays(hash, states, steps, i + 1, m, d, k, e);
      SupersedesTotal(Registers(states[m], d)[k], e);
    } else {
      NotIncluded(e, states[n0].replicas[d].stored.mem, known, k);
      hide Run, Next, IsDiff, SyncStateOf, Included, Lasting;
      HeldWasReceived(hash, states, steps, n0, d, k);
      ReceivedStays(hash, states, steps, n0, m, d, k, Registers(states[n0], d)[k]);
    }
  }

  /** What the diff left out was there already. */
  lemma NotIncluded(e: Entry, asked: State, known: int, k: string)
    requires !Included(e, SyncStateOf(asked, known).registers, k)
    ensures k in asked.registers && asked.registers[k].timestamp >= e.timestamp
    ensures asked.registers[k].timestamp == e.timestamp ==> SameContent(asked.registers[k], e)
  {
  }

  lemma DiffTakesIn(r: Replica, source: State, diff: Diff, remote: map<string, Stamp>, computed: int, k: string)
    requires Enumerates(diff.registers, RegisterDiff(source, remote, computed))
    requires k in source.registers && NormalizeKey(k) == k && source.registers[k].ttl.None? && Included(source.registers[k], remote, k)
    ensures Write(k, source.registers[k]) in MergeDiff(r, diff).ever
  {
    hide Included;
    assert k in RegisterDiff(source, remote, computed);
    var j :| 0 <= j < |diff.registers| && diff.registers[j].0 == k;
    assert diff.registers[j].1 == source.registers[k];
    MergeAllTakes(r, diff.registers);
  }

  // ---------------------------------------------------------------- the whole exchange

  /** Step i delivers message to device and answers with reply. */
  ghost predicate Delivers(steps: seq<Step>, i: nat, device: string, message: Message, reply: Option<Message>) {
    i < |steps| && steps[i].DeliverStep? && steps[i].device == device && steps[i].message == message && steps[i].reply == reply
  }

  /** Device d's request of step n0 is answered by c in step n1, the response reaches d in step n2, and its update, if
      any, reaches c in step n3; anything may happen in between. For a key without time-to-live, from then on d's
      register is no older than c's was when it answered, and c's is no older than d's was after the response. */
  lemma InterleavedExchange(hash: string -> string, states: seq<System>, steps: seq<Step>, n0: nat, n1: nat, n2: nat, n3: nat, m: nat,
                            d: string, c: string, known: int, response: Message, update: Option<Message>, k: string)
    requires Run(hash, states, steps) && n0 <= n1 < n2 <= n3 < m < |states| && d in states[n0].replicas
    requires Delivers(steps, n1, c, RequestOf(states[n0].replicas[d].stored.mem, known), Some(response))
    requires Delivers(steps, n2, d, response, update)
    requires update.Some? ==> Delivers(steps, n3, c, update.value, None)
    requires Lasting(states[m].issued, k)
    ensures d in states[m].replicas && c in states[m].replicas && c in states[n1].replicas && d in states[n2 + 1].replicas
    ensures k in Registers(states[n1], c) ==>
              NoOlder(Registers(states[m], d), k, Registers(states[n1], c)[k], Registers(states[n0], d))
    ensures k in Registers(states[n2 + 1], d) ==>
              NoOlder(Registers(states[m], c), k, Registers(states[n2 + 1], d)[k], Registers(states[n1], c))
  {
    assert Next(hash, states[n1], steps[n1], states[n1 + 1]) && Next(hash, states[n2], steps[n2], states[n2 + 1]);
    HistoryKept(hash, states, steps, n0, n1);
    HistoryKept(hash, states, steps, n1, n2 + 1);
    HistoryKept(hash, states, steps, n2 + 1, m);
    hide Run, IsDiff, SyncStateOf, NoOlder, Lasting, ApplyDiff, MergeDiff;
    assert ApplyDiff(states[n1].replicas[c].stored, NOTHING) == states[n1].replicas[c].stored by { NothingApplied(states[n1].replicas[c].stored); }
    if k in Registers(states[n1], c) {
      hide Next;
      DiffArrives(hash, states, steps, n0, n2, m, d, known, n1, c, steps[n1].now, response.diff, k);
    }
    if k in Registers(states[n2 + 1], d) {
      hide Next;
      if update.Some? {
        DiffArrives(hash, states, steps, n1, n3, m, c, steps[n1].now, n2 + 1, d, steps[n2].now, update.value.diff, k);
      } else {
        HeldLasts(hash, states, steps, n2 + 1, m, d, k);
        NothingToUpdate(hash, states, steps, n1, m, c, steps[n1].now, states[n2 + 1].replicas[d].stored.mem, steps[n2].now, k);
      }
    }
  }

  lemma NothingApplied(p: Stored)
    ensures ApplyDiff(p, NOTHING) == p
  {
  }

  lemma HeldLasts(hash: string -> string, states: seq<System>, steps: seq<Step>, n: nat, m: nat, d: string, k: string)
    requires Run(hash, states, steps) && n <= m < |states| && d in states[n].replicas && k in Registers(states[n], d)
    requires Lasting(states[m].issued, k)
    ensures NormalizeKey(k) == k && Registers(states[n], d)[k].ttl.None?
  {
    hide Run;
    HeldWasReceived(hash, states, steps, n, d, k);
    HistoryKept(hash, states, steps, n, m);
  }

  /** Without an update everything was there already. */
  lemma NothingToUpdate(hash: string -> string, states: seq<System>, steps: seq<Step>, n: nat, m: nat, c: string, known: int,
                        source: State, computed: int, k: string)
    requires Run(hash, states, steps) && n <= m < |states| && c in states[n].replicas
    requires IsDiff(NOTHING, source, SyncStateOf(states[n].replicas[c].stored.mem, known), computed)
    requires k in source.registers && source.registers[k].ttl.None? && Lasting(states[m].issued, k)
    ensures c in states[m].replicas && NoOlder(Registers(states[m], c), k, source.registers[k], Registers(states[n], c))
  {
    var e, remote := source.registers[k], SyncStateOf(states[n].replicas[c].stored.mem, known).registers;
    assert k !in RegisterDiff(source, remote, computed);
    NotIncluded(e, states[n].replicas[c].stored.mem, known, k);
    hide Run, IsDiff, SyncStateOf, Included, Lasting;
    HeldWasReceived(hash, states, steps, n, c, k);
    ReceivedStays(hash, states, steps, n, m, c, k, Registers(states[n], c)[k]);
  }
}
