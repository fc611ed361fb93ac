/** Any number of stores exchanging messages that may be lost, repeated, reordered or stale, and
    devices that crash and reload: src/aries/memory/store.py and src/aries/memory/sync.py. */
module Sync {
  import opened Wrappers
  import opened Entries
  import opened AppendLogs
  import opened Store
  import opened Exchange

  /** A register write under its normalized key. */
  datatype Write = Write(key: string, entry: Entry)

  /** A log record under its normalized key. */
  datatype Logged = Logged(key: string, record: Record)

  /** One device. The three sets are history: what was set at or merged into the store since an expired
      register was last dropped (seen; saved is the same for the file), and at any time (ever). */
  datatype Replica = Replica(stored: Stored, seen: set<Write>, saved: set<Write>, ever: set<Write>)

  /** All devices, every message ever sent, and history: all writes and records ever made. */
  datatype System = System(replicas: map<string, Replica>, network: set<Message>, issued: set<Write>, logged: set<Logged>)

  // ---------------------------------------------------------------- steps of one device

  function KeepWrite(r: Replica, p: Stored, w: Write, accepted: bool): Replica {
    Replica(p, r.seen + {w}, if accepted then r.seen + {w} else r.saved + {w}, r.ever + {w})
  }

  /** merge_entry */
  function MergeOne(r: Replica, key: string, e: Entry): Replica {
    KeepWrite(r, MergeStored(r.stored, key, e), Write(NormalizeKey(key), e), Accepts(r.stored.mem, key, e))
  }

  ghost function MergeAll(r: Replica, items: seq<(string, Entry)>): Replica
    decreases |items|
  {
    if items == [] then r
    else
      var n := |items| - 1;
      MergeOne(MergeAll(r, items[..n]), items[n].0, items[n].1)
  }

  ghost function MergeDiff(r: Replica, d: Diff): Replica {
    var t := MergeAll(r, d.registers);
    t.(stored := ApplyLogs(t.stored, d.logs), saved := if d.logs == [] then t.saved else t.seen)
  }

  ghost function Forget(seen: set<Write>, key: string): set<Write> { set w | w in seen && w.key != key }

  /** get: an expired register is dropped, and with it the history of its key. */
  ghost function ReadKey(r: Replica, key: string, now: int): Replica {
    var k := NormalizeKey(key);
    var p := GetStored(r.stored, key, now);
    r.(stored := p, seen := if p == r.stored then r.seen else Forget(r.seen, k))
  }

  /** A crash: memory is what the file holds. */
  function Restart(r: Replica): Replica { r.(stored := Stored(r.stored.file, r.stored.file), seen := r.saved) }

  // ---------------------------------------------------------------- steps of the system

  datatype Step =
    | SetStep(device: string, key: string, value: string, ttl: Option<int>, now: int)
    | AppendStep(device: string, key: string, payload: string, now: int)
    | GetStep(device: string, key: string, now: int)
    | SendStep(device: string, now: int)
    | DeliverStep(device: string, message: Message, now: int, reply: Option<Message>)
    | CrashStep(device: string)

  ghost function WrittenBy(s: System, hash: string -> string, step: Step): set<Write>
    requires step.SetStep? && step.device in s.replicas
  {
    var (p, e) := SetStored(s.replicas[step.device].stored, hash, step.device, step.key, step.value, step.ttl, step.now);
    if e.Some? then {Write(NormalizeKey(step.key), e.value)} else {}
  }

  ghost function SetReplica(r: Replica, hash: string -> string, step: Step): Replica
    requires step.SetStep?
  {
    var (p, e) := SetStored(r.stored, hash, step.device, step.key, step.value, step.ttl, step.now);
    if e.None? then r
    else
      var w := Write(NormalizeKey(step.key), e.value);
      KeepWrite(r, p, w, p.mem.registers != r.stored.mem.registers)
  }

  /** A step of device step.device in s leads to t; the other devices stay as they are. */
  ghost predicate Next(hash: string -> string, s: System, step: Step, t: System) {
    var d := step.device;
    d in s.replicas &&
    var r := s.replicas[d];
    match step
    case SetStep(_, key, value, ttl, now) =>
      t == s.(replicas := s.replicas[d := SetReplica(r, hash, step)], issued := s.issued + WrittenBy(s, hash, step))
    case AppendStep(_, key, payload, now) =>
      var p := AppendStored(r.stored, d, key, payload, now);
      t == s.(replicas := s.replicas[d := r.(stored := p, saved := if p == r.stored then r.saved else r.seen)],
              logged := s.logged + AppendedBy(s, step))
    case GetStep(_, key, now) => t == s.(replicas := s.replicas[d := ReadKey(r, key, now)])
    case SendStep(_, now) => t == s.(network := s.network + {RequestOf(r.stored.mem, now)})
    case DeliverStep(_, m, now, reply) =>
      var q := MergeDiff(r, m.diff);
      m in s.network && Handles(r.stored, m, now, q.stored, reply) &&
      t == s.(replicas := s.replicas[d := q], network := if reply.Some? then s.network + {reply.value} else s.network)
    case CrashStep(_) => t == s.(replicas := s.replicas[d := Restart(r)])
  }

  /** The record that log_append makes. */
  ghost function AppendedBy(s: System, step: Step): set<Logged>
    requires step.AppendStep? && step.device in s.replicas
  {
    var k := NormalizeKey(step.key);
    if NamespaceOf(k).None? then {}
    else {Logged(k, Record(step.device, |LogOf(s.replicas[step.device].stored.mem, step.key)|, step.now, step.payload))}
  }

  // ---------------------------------------------------------------- what every device keeps

  /** Each register is the last writer among the writes, and there is one for every key written. */
  ghost predicate LastWriters(regs: map<string, Entry>, writes: set<Write>) {
    (forall k :: k in regs ==> Write(k, regs[k]) in writes) &&
    (forall w :: w in writes ==> w.key in regs && !w.entry.Supersedes(regs[w.key]))
  }

  ghost predicate IsPart(m: map<string, Entry>, n: map<string, Entry>) {
    forall k :: k in m ==> k in n && n[k] == m[k]
  }

  ghost predicate StampsUpTo(writes: set<Write>, clock: nat) {
    forall w :: w in writes ==> w.entry.timestamp <= clock
  }

  ghost predicate ReplicaInv(r: Replica) {
    var mem, file := r.stored.mem, r.stored.file;
    LastWriters(mem.registers, r.seen) && LastWriters(file.registers, r.saved) &&
    IsPart(mem.registers, file.registers) &&
    r.seen <= r.saved <= r.ever &&
    StampsUpTo(r.ever, file.clock) && file.clock <= mem.clock &&
    mem.logs == file.logs
  }

  lemma LastWritersMerge(regs: map<string, Entry>, writes: set<Write>, k: string, e: Entry)
    requires LastWriters(regs, writes)
    ensures k in regs && !e.Supersedes(regs[k]) ==> LastWriters(regs, writes + {Write(k, e)})
    ensures (k in regs ==> e.Supersedes(regs[k])) ==> LastWriters(regs[k := e], writes + {Write(k, e)})
  {
    SupersedesTotal(e, e);
    if k in regs && e.Supersedes(regs[k]) {
      forall w | w in writes && w.key == k ensures !w.entry.Supersedes(e) {
        if w.entry.Supersedes(e) { SupersedesTransitive(w.entry, e, regs[k]); }
      }
    }
  }

  lemma MergeOneInv(r: Replica, k: string, e: Entry)
    requires ReplicaInv(r) && NormalizeKey(k) == k
    ensures ReplicaInv(MergeOne(r, k, e))
    ensures MergeOne(r, k, e).stored.file.clock >= r.stored.file.clock
  {
    hide LastWriters;
    var regs, file := r.stored.mem.registers, r.stored.file.registers;
    LastWritersMerge(regs, r.seen, k, e);
    if !Accepts(r.stored.mem, k, e) {
      LastWritersMerge(file, r.saved, k, e);
      RejectedIsOld(regs, r.seen, k, e, r.stored.file.clock);
    }
  }

  lemma RejectedIsOld(regs: map<string, Entry>, writes: set<Write>, k: string, e: Entry, clock: nat)
    requires LastWriters(regs, writes) && StampsUpTo(writes, clock)
    requires k in regs && !e.Supersedes(regs[k])
    ensures e.timestamp <= clock
  {
    assert Write(k, regs[k]) in writes;
  }

  lemma SetInv(r: Replica, hash: string -> string, step: Step)
    requires ReplicaInv(r) && step.SetStep?
    ensures ReplicaInv(SetReplica(r, hash, step))
    ensures SetReplica(r, hash, step).stored.file.clock >= r.stored.file.clock
    ensures SetReplica(r, hash, step).stored.mem.logs == r.stored.mem.logs
  {
    hide LastWriters;
    var k := NormalizeKey(step.key);
    if NamespaceOf(k).Some? {
      var e := NewEntry(r.stored.mem, hash, step.device, NamespaceOf(k).value, step.value, step.ttl, step.now);
      SetAccepted(r, e, k);
      LastWritersMerge(r.stored.mem.registers, r.seen, k, e);
    }
  }

  /** An entry stamped just above the clock supersedes whatever is stored. */
  lemma SetAccepted(r: Replica, e: Entry, k: string)
    requires ReplicaInv(r) && e.timestamp == r.stored.mem.clock + 1
    ensures k in r.stored.mem.registers ==> e.Supersedes(r.stored.mem.registers[k])
    ensures r.stored.mem.registers[k := e] != r.stored.mem.registers
  {
    var regs := r.stored.mem.registers;
    if k in regs {
      assert Write(k, regs[k]) in r.seen;
    }
    assert regs[k := e][k] == e;
  }

  lemma ReadInv(r: Replica, key: string, now: int)
    requires ReplicaInv(r)
    ensures ReplicaInv(ReadKey(r, key, now))
  {
  }

  lemma {:induction false} MergeAllInv(r: Replica, items: seq<(string, Entry)>)
    requires ReplicaInv(r) && forall i :: 0 <= i < |items| ==> NormalizeKey(items[i].0) == items[i].0
    ensures ReplicaInv(MergeAll(r, items))
    ensures MergeAll(r, items).stored == ApplyRegisters(r.stored, items)
    ensures MergeAll(r, items).stored.file.clock >= r.stored.file.clock
    ensures MergeAll(r, items).stored.mem.logs == r.stored.mem.logs
    decreases |items|
  {
    if items != [] {
      var n := |items| - 1;
      MergeAllInv(r, items[..n]);
      MergeOneInv(MergeAll(r, items[..n]), items[n].0, items[n].1);
    }
  }

  lemma {:induction false} ApplyLogsFile(p: Stored, items: seq<(string, seq<Record>)>)
    ensures ApplyLogs(p, items).mem.registers == p.mem.registers && ApplyLogs(p, items).mem.clock == p.mem.clock
    ensures ApplyLogs(p, items).file == if items == [] then p.file else ApplyLogs(p, items).mem
    decreases |items|
  {
    if items != [] { ApplyLogsFile(p, items[..|items| - 1]); }
  }

  lemma MergeDiffInv(r: Replica, d: Diff)
    requires ReplicaInv(r) && forall i :: 0 <= i < |d.registers| ==> NormalizeKey(d.registers[i].0) == d.registers[i].0
    ensures ReplicaInv(MergeDiff(r, d))
    ensures MergeDiff(r, d).stored == ApplyDiff(r.stored, d)
    ensures MergeDiff(r, d).stored.file.clock >= r.stored.file.clock
  {
    hide LastWriters;
    MergeAllInv(r, d.registers);
    ApplyLogsFile(MergeAll(r, d.registers).stored, d.logs);
  }

  // ---------------------------------------------------------------- what the system keeps

  ghost predicate ReplicasInv(s: System) {
    forall d :: d in s.replicas ==> ReplicaInv(s.replicas[d]) && s.replicas[d].ever <= s.issued
  }

  /** Every write names a device that has it behind its stored clock. */
  ghost predicate IssuedBehind(s: System) {
    forall w :: w in s.issued ==>
      NormalizeKey(w.key) == w.key && w.entry.device in s.replicas &&
      w.entry.timestamp <= s.replicas[w.entry.device].stored.file.clock
  }

  /** No (timestamp, device) pair is issued twice. */
  ghost predicate StampsUnique(issued: set<Write>) {
    forall v, w :: v in issued && w in issued && v.entry.SameStamp(w.entry) ==> v == w
  }

  ghost predicate DiffIssued(d: Diff, issued: set<Write>) {
    forall i :: 0 <= i < |d.registers| ==> Write(d.registers[i].0, d.registers[i].1) in issued
  }

  ghost predicate NetworkIssued(s: System) {
    forall m :: m in s.network ==> DiffIssued(m.diff, s.issued)
  }

  /** No write under the key has a time-to-live. */
  ghost predicate Lasting(issued: set<Write>, key: string) { forall w :: w in issued && w.key == key ==> w.entry.ttl.None? }

  /** What a device received under a lasting key is never forgotten. */
  ghost predicate Remembers(r: Replica, issued: set<Write>) {
    forall w :: w in r.ever && Lasting(issued, w.key) ==> w in r.seen
  }

  ghost predicate NothingForgotten(s: System) { forall d :: d in s.replicas ==> Remembers(s.replicas[d], s.issued) }

  ghost predicate RegisterInv(s: System) {
    ReplicasInv(s) && IssuedBehind(s) && StampsUnique(s.issued) && NetworkIssued(s) && NothingForgotten(s)
  }

  ghost predicate Start(s: System) {
    (forall d :: d in s.replicas ==> s.replicas[d] == Replica(Stored(EMPTY, EMPTY), {}, {}, {})) &&
    s.network == {} && s.issued == {} && s.logged == {}
  }

  lemma StartInv(s: System)
    requires Start(s)
    ensures RegisterInv(s)
  {
  }

  /** One device moved from r to q: its file clock did not go back, and its writes are issued ones. */
  lemma ReplicaMoved(s: System, t: System, d: string, q: Replica)
    requires RegisterInv(s) && d in s.replicas && t.replicas == s.replicas[d := q] && t.issued == s.issued
    requires ReplicaInv(q) && q.ever <= s.issued && q.stored.file.clock >= s.replicas[d].stored.file.clock
    requires Remembers(q, s.issued)
    ensures ReplicasInv(t) && IssuedBehind(t) && StampsUnique(t.issued) && NothingForgotten(t)
  {
    hide ReplicaInv, Remembers;
  }

  lemma {:induction false} MergeAllHistory(r: Replica, items: seq<(string, Entry)>, issued: set<Write>)
    requires r.ever <= issued && forall i :: 0 <= i < |items| ==> Write(NormalizeKey(items[i].0), items[i].1) in issued
    ensures MergeAll(r, items).ever <= issued
    ensures Remembers(r, issued) ==> Remembers(MergeAll(r, items), issued)
    decreases |items|
  {
    if items != [] { MergeAllHistory(r, items[..|items| - 1], issued); }
  }

  lemma DiffFromIssued(s: State, d: Diff, remote: SyncState, now: int, seen: set<Write>, issued: set<Write>)
    requires IsDiff(d, s, remote, now) && LastWriters(s.registers, seen) && seen <= issued
    ensures DiffIssued(d, issued)
  {
    var m := RegisterDiff(s, remote.registers, now);
    forall i | 0 <= i < |d.registers| ensures Write(d.registers[i].0, d.registers[i].1) in issued {
      assert d.registers[i].0 in m;
    }
  }

  lemma DeliverPreserves(hash: string -> string, s: System, step: Step, t: System)
    requires RegisterInv(s) && Next(hash, s, step, t) && step.DeliverStep?
    ensures RegisterInv(t)
  {
    hide ReplicaInv, DiffIssued, LastWriters, MergeDiff, IsDiff, ApplyDiff, RequestOf, StampsUnique;
    var d, m, r := step.device, step.message, s.replicas[step.device];
    var q := MergeDiff(r, m.diff);
    DiffNormal(s, m.diff);
    MergeDiffInv(r, m.diff);
    MergeDiffHistory(r, m.diff, s.issued);
    ReplicaMoved(s, t, d, q);
    if m.Request? {
      ReplySound(r, step.reply.value.diff, m.state, step.now, s.issued);
    } else if step.reply.Some? {
      ReplySound(q, step.reply.value.diff, m.state, step.now, s.issued);
    }
  }

  lemma ReplySound(r: Replica, d: Diff, remote: SyncState, now: int, issued: set<Write>)
    requires ReplicaInv(r) && r.ever <= issued && IsDiff(d, r.stored.mem, remote, now)
    ensures DiffIssued(d, issued)
  {
    DiffFromIssued(r.stored.mem, d, remote, now, r.seen, issued);
  }

  lemma MergeDiffHistory(r: Replica, d: Diff, issued: set<Write>)
    requires r.ever <= issued && DiffIssued(d, issued)
    requires forall i :: 0 <= i < |d.registers| ==> NormalizeKey(d.registers[i].0) == d.registers[i].0
    ensures MergeDiff(r, d).ever <= issued
    ensures Remembers(r, issued) ==> Remembers(MergeDiff(r, d), issued)
  {
    MergeAllHistory(r, d.registers, issued);
  }

  lemma DiffNormal(s: System, d: Diff)
    requires IssuedBehind(s) && DiffIssued(d, s.issued)
    ensures forall i :: 0 <= i < |d.registers| ==> NormalizeKey(d.registers[i].0) == d.registers[i].0
  {
    forall i | 0 <= i < |d.registers| ensures NormalizeKey(d.registers[i].0) == d.registers[i].0 {
      assert Write(d.registers[i].0, d.registers[i].1) in s.issued;
    }
  }

  lemma SetPreserves(hash: string -> string, s: System, step: Step, t: System)
    requires RegisterInv(s) && Next(hash, s, step, t) && step.SetStep?
    ensures RegisterInv(t)
  {
    hide ReplicaInv;
    var r := s.replicas[step.device];
    SetInv(r, hash, step);
    if NamespaceOf(NormalizeKey(step.key)).None? {
      ReplicaMoved(s, t, step.device, r);
    } else {
      NormalizeIdempotent(step.key);
      SetIsFresh(hash, s, step);
      var q, k := SetReplica(r, hash, step), NormalizeKey(step.key);
      WriteIssued(s, t, step.device, q, Write(k, q.stored.mem.registers[k]));
    }
  }

  /** A device issued one write, and took it in. */
  lemma WriteIssued(s: System, t: System, d: string, q: Replica, w: Write)
    requires RegisterInv(s) && d in s.replicas
    requires t == s.(replicas := s.replicas[d := q], issued := s.issued + {w})
    requires ReplicaInv(q) && q.stored.file.clock >= s.replicas[d].stored.file.clock
    requires q.ever == s.replicas[d].ever + {w} && q.seen == s.replicas[d].seen + {w} && q.saved == q.seen
    requires NormalizeKey(w.key) == w.key && w.entry.device == d && w.entry.timestamp <= q.stored.file.clock
    requires forall v :: v in s.issued ==> !v.entry.SameStamp(w.entry)
    ensures RegisterInv(t)
  {
    hide ReplicaInv;
    forall m | m in t.network ensures DiffIssued(m.diff, t.issued) {
      assert DiffIssued(m.diff, s.issued);
    }
    forall c | c in t.replicas ensures Remembers(t.replicas[c], t.issued) {
      assert Remembers(s.replicas[c], s.issued);
      assert forall k :: Lasting(t.issued, k) ==> Lasting(s.issued, k);
    }
  }

  /** set installs its entry: stamped above everything the device has ever set or merged, with a
      stamp no write has used. */
  lemma SetIsFresh(hash: string -> string, s: System, step: Step)
    requires RegisterInv(s) && step.SetStep? && step.device in s.replicas
    requires NamespaceOf(NormalizeKey(step.key)).Some?
    ensures var q, k := SetReplica(s.replicas[step.device], hash, step), NormalizeKey(step.key);
            k in q.stored.mem.registers && q.stored.file == q.stored.mem &&
            WrittenBy(s, hash, step) == {Write(k, q.stored.mem.registers[k])} &&
            q.stored.mem.registers[k].value == step.value && q.stored.mem.registers[k].device == step.device &&
            q.stored.mem.registers[k].hash == hash(step.value) &&
            q.stored.mem.registers[k].ttl == TtlOf(NamespaceOf(k).value, step.ttl) &&
            q.stored.mem.registers[k].timestamp == q.stored.mem.clock &&
            q.ever == s.replicas[step.device].ever + WrittenBy(s, hash, step) &&
            q.seen == s.replicas[step.device].seen + WrittenBy(s, hash, step) && q.saved == q.seen &&
            (forall w :: w in s.replicas[step.device].ever ==> w.entry.timestamp < q.stored.mem.clock) &&
            (forall w :: w in s.issued ==> !w.entry.SameStamp(q.stored.mem.registers[k]))
  {
    hide LastWriters;
    var r, k := s.replicas[step.device], NormalizeKey(step.key);
    var e := NewEntry(r.stored.mem, hash, step.device, NamespaceOf(k).value, step.value, step.ttl, step.now);
    SetAccepted(r, e, k);
  }

  lemma GetPreserves(hash: string -> string, s: System, step: Step, t: System)
    requires RegisterInv(s) && Next(hash, s, step, t) && step.GetStep?
    ensures RegisterInv(t)
  {
    hide ReplicaInv;
    var r := s.replicas[step.device];
    var q := ReadKey(r, step.key, step.now);
    ReadInv(r, step.key, step.now);
    ReadHistory(r, step.key, step.now, s.issued);
    ReplicaMoved(s, t, step.device, q);
  }

  lemma ReadHistory(r: Replica, key: string, now: int, issued: set<Write>)
    requires ReplicaInv(r) && r.ever <= issued
    ensures var q := ReadKey(r, key, now); q.ever == r.ever && q.saved == r.saved && q.stored.file == r.stored.file
    ensures Remembers(r, issued) ==> Remembers(ReadKey(r, key, now), issued)
  {
    var k := NormalizeKey(key);
    if Lasting(issued, k) && k in r.stored.mem.registers {
      assert Write(k, r.stored.mem.registers[k]) in issued;
    }
  }

  lemma CrashPreserves(hash: string -> string, s: System, step: Step, t: System)
    requires RegisterInv(s) && Next(hash, s, step, t) && step.CrashStep?
    ensures RegisterInv(t)
  {
    hide LastWriters;
    ReplicaMoved(s, t, step.device, Restart(s.replicas[step.device]));
  }

  lemma SendPreserves(hash: string -> string, s: System, step: Step, t: System)
    requires RegisterInv(s) && Next(hash, s, step, t) && step.SendStep?
    ensures RegisterInv(t)
  {
  }

  lemma AppendPreserves(hash: string -> string, s: System, step: Step, t: System)
    requires RegisterInv(s) && Next(hash, s, step, t) && step.AppendStep?
    ensures RegisterInv(t)
  {
    var d, r := step.device, s.replicas[step.device];
    var p := AppendStored(r.stored, d, step.key, step.payload, step.now);
    var q := r.(stored := p, saved := if p == r.stored then r.saved else r.seen);
    ReplicaMoved(s, t, d, q);
  }

  lemma NextPreserves(hash: string -> string, s: System, step: Step, t: System)
    requires RegisterInv(s) && Next(hash, s, step, t)
    ensures RegisterInv(t)
  {
    match step
    case SetStep(_, _, _, _, _) => SetPreserves(hash, s, step, t);
    case AppendStep(_, _, _, _) => AppendPreserves(hash, s, step, t);
    case GetStep(_, _, _) => GetPreserves(hash, s, step, t);
    case SendStep(_, _) => SendPreserves(hash, s, step, t);
    case DeliverStep(_, _, _, _) => DeliverPreserves(hash, s, step, t);
    case CrashStep(_) => CrashPreserves(hash, s, step, t);
  }

  // ---------------------------------------------------------------- runs

  ghost predicate Run(hash: string -> string, states: seq<System>, steps: seq<Step>) {
    |states| == |steps| + 1 && Start(states[0]) &&
    forall i :: 0 <= i < |steps| ==> Next(hash, states[i], steps[i], states[i + 1])
  }

  lemma {:induction false} RunInv(hash: string -> string, states: seq<System>, steps: seq<Step>, n: nat)
    requires Run(hash, states, steps) && n < |states|
    ensures RegisterInv(states[n])
  {
    if n == 0 {
      StartInv(states[0]);
    } else {
      RunInv(hash, states, steps, n - 1);
      NextPreserves(hash, states[n - 1], steps[n - 1], states[n]);
    }
  }

  /** The register for k is the write under k of the greatest timestamp and, among those, of the last DID, and there is
      one if k was written. */
  ghost predicate IsLastWriter(regs: map<string, Entry>, writes: set<Write>, k: string) {
    (k in regs <==> exists e :: Write(k, e) in writes) &&
    (k in regs ==>
      Write(k, regs[k]) in writes &&
      forall e :: Write(k, e) in writes && e != regs[k] ==>
        regs[k].timestamp > e.timestamp || (regs[k].timestamp == e.timestamp && Precedes(e.device, regs[k].device)))
  }

  /** In every run a device's register for k is the last writer among all writes set at or merged into it since it
      last dropped an expired entry of k, and among all it ever received if no write under k has a time-to-live. */
  lemma RegisterIsLastWriter(hash: string -> string, states: seq<System>, steps: seq<Step>, n: nat, d: string, k: string)
    requires Run(hash, states, steps) && n < |states| && d in states[n].replicas
    ensures var r := states[n].replicas[d];
            IsLastWriter(r.stored.mem.registers, r.seen, k) && r.seen <= r.ever <= states[n].issued &&
            (Lasting(states[n].issued, k) ==> IsLastWriter(r.stored.mem.registers, r.ever, k))
  {
    RunInv(hash, states, steps, n);
    var s := states[n];
    var r := s.replicas[d];
    var regs := r.stored.mem.registers;
    forall e | Write(k, e) in r.seen
      ensures k in regs && (e != regs[k] ==>
        regs[k].timestamp > e.timestamp || (regs[k].timestamp == e.timestamp && Precedes(e.device, regs[k].device)))
    {
      assert Write(k, e).key in regs;
      assert Write(k, regs[k]) in s.issued && Write(k, e) in s.issued;
      SupersedesTotal(e, regs[k]);
      SupersedesExactly(regs[k], e);
    }
    if Lasting(s.issued, k) {
      assert Remembers(r, s.issued);
      assert forall e :: Write(k, e) in r.ever <==> Write(k, e) in r.seen;
    }
  }

  /** Devices that received the same writes for k, without time-to-live or since they last dropped an expired entry,
      hold the same register for k. */
  lemma SameWritesSameRegister(hash: string -> string, states: seq<System>, steps: seq<Step>, n: nat, d: string, c: string, k: string)
    requires Run(hash, states, steps) && n < |states| && d in states[n].replicas && c in states[n].replicas
    requires (Lasting(states[n].issued, k) &&
              forall e :: Write(k, e) in states[n].replicas[d].ever <==> Write(k, e) in states[n].replicas[c].ever) ||
             (forall e :: Write(k, e) in states[n].replicas[d].seen <==> Write(k, e) in states[n].replicas[c].seen)
    ensures var regsD, regsC := states[n].replicas[d].stored.mem.registers, states[n].replicas[c].stored.mem.registers;
            (k in regsD <==> k in regsC) && (k in regsD ==> regsD[k] == regsC[k])
  {
    RegisterIsLastWriter(hash, states, steps, n, d, k);
    RegisterIsLastWriter(hash, states, steps, n, c, k);
    var regsD, regsC := states[n].replicas[d].stored.mem.registers, states[n].replicas[c].stored.mem.registers;
    if k in regsD && k in regsC {
      SupersedesExactly(regsD[k], regsC[k]);
      SupersedesExactly(regsC[k], regsD[k]);
      SupersedesTotal(regsD[k], regsC[k]);
    }
  }

  /** A key of the memory namespace that is only ever set with the default time-to-live is lasting. */
  lemma MemoryKeysLast(hash: string -> string, states: seq<System>, steps: seq<Step>, n: nat, k: string)
    requires Run(hash, states, steps) && n < |states| && NamespaceOf(k) == Some(Memory)
    requires forall i :: 0 <= i < n && steps[i].SetStep? && NormalizeKey(steps[i].key) == k ==> steps[i].ttl.None?
    ensures Lasting(states[n].issued, k)
  {
    forall w | w in states[n].issued && w.key == k ensures w.entry.ttl.None? {
      var i := IssuedBySet(hash, states, steps, n, w);
    }
  }

  /** So under such keys devices that ever received the same writes hold the same register, whatever expires elsewhere. */
  lemma MemoryKeysConverge(hash: string -> string, states: seq<System>, steps: seq<Step>, n: nat, d: string, c: string, k: string)
    requires Run(hash, states, steps) && n < |states| && d in states[n].replicas && c in states[n].replicas
    requires NamespaceOf(k) == Some(Memory)
    requires forall i :: 0 <= i < n && steps[i].SetStep? && NormalizeKey(steps[i].key) == k ==> steps[i].ttl.None?
    requires forall e :: Write(k, e) in states[n].replicas[d].ever <==> Write(k, e) in states[n].replicas[c].ever
    ensures var regsD, regsC := states[n].replicas[d].stored.mem.registers, states[n].replicas[c].stored.mem.registers;
            (k in regsD <==> k in regsC) && (k in regsD ==> regsD[k] == regsC[k]) &&
            IsLastWriter(regsD, states[n].replicas[d].ever, k)
  {
    MemoryKeysLast(hash, states, steps, n, k);
    RegisterIsLastWriter(hash, states, steps, n, d, k);
    SameWritesSameRegister(hash, states, steps, n, d, c, k);
  }

  /** Every write was made by a set of that value, on the device it names. */
  lemma {:induction false} IssuedBySet(hash: string -> string, states: seq<System>, steps: seq<Step>, n: nat, w: Write)
    returns (i: nat)
    requires Run(hash, states, steps) && n < |states| && w in states[n].issued
    ensures i < n && steps[i].SetStep? && steps[i].device == w.entry.device && steps[i].value == w.entry.value &&
            NormalizeKey(steps[i].key) == w.key && w in states[i + 1].replicas[w.entry.device].ever &&
            w.entry.hash == hash(w.entry.value) && NamespaceOf(w.key).Some? &&
            w.entry.ttl == TtlOf(NamespaceOf(w.key).value, steps[i].ttl)
  {
    var m := n - 1;
    if w in states[m].issued {
      i := IssuedBySet(hash, states, steps, m, w);
    } else {
      i := m;
      RunInv(hash, states, steps, m);
      SetIsFresh(hash, states[m], steps[m]);
    }
  }

  /** In every run a set stamps its entry above everything its device has ever set or merged, with a
      stamp never used before, and the store takes it. */
  lemma StampsAlwaysFresh(hash: string -> string, states: seq<System>, steps: seq<Step>, n: nat)
    requires Run(hash, states, steps) && n < |steps| && steps[n].SetStep? && NamespaceOf(NormalizeKey(steps[n].key)).Some?
    ensures var d, k := steps[n].device, NormalizeKey(steps[n].key);
            var regs := states[n + 1].replicas[d].stored.mem.registers;
            k in regs && regs[k].value == steps[n].value && Write(k, regs[k]) in states[n + 1].issued &&
            (forall w :: w in states[n].replicas[d].ever ==> w.entry.timestamp < regs[k].timestamp) &&
            (forall w :: w in states[n].issued ==> !w.entry.SameStamp(regs[k]))
  {
    RunInv(hash, states, steps, n);
    assert Next(hash, states[n], steps[n], states[n + 1]);
    SetIsFresh(hash, states[n], steps[n]);
  }

  /** In every run, two devices that complete an exchange while nothing expires hold equal values and
      stamp times at every key, those of the last writer. */
  lemma ExchangeAgreesInRuns(hash: string -> string, states: seq<System>, steps: seq<Step>, n: nat, d: string, c: string,
                             nowA: int, nowB: int, nowA': int, nowB': int,
                             a': Stored, b': Stored, response: Message, update: Option<Message>, k: string)
    requires Run(hash, states, steps) && n < |states| && d in states[n].replicas && c in states[n].replicas
    requires forall u, v :: hash(u) == hash(v) ==> u == v
    requires Lively(states[n].replicas[d].stored.mem, nowA) && Lively(states[n].replicas[d].stored.mem, nowA')
    requires Lively(states[n].replicas[c].stored.mem, nowB) && Lively(states[n].replicas[c].stored.mem, nowA')
    ensures var p, q := states[n].replicas[d].stored, states[n].replicas[c].stored;
            var a, b := p.mem, q.mem;
            Exchanged(p, q, nowA, nowB, nowA', nowB', a', b', response, update) ==>
            (k in a'.mem.registers <==> k in a.registers || k in b.registers) &&
            (k in b'.mem.registers <==> k in a.registers || k in b.registers) &&
            (k in a'.mem.registers ==>
              a'.mem.registers[k].value == b'.mem.registers[k].value == Winner(a, b, k).value &&
              a'.mem.registers[k].timestamp == b'.mem.registers[k].timestamp == Winner(a, b, k).timestamp)
  {
    hide Exchanged, Handles, RegisterInv, Lively, NormalKeys, Winner, NormalizeKey;
    RunInv(hash, states, steps, n);
    var p, q := states[n].replicas[d].stored, states[n].replicas[c].stored;
    StoredNormal(states[n], d);
    StoredNormal(states[n], c);
    ExchangeJoins(p, q, nowA, nowB, nowA', nowB', a', b', response, update, k);
    if Exchanged(p, q, nowA, nowB, nowA', nowB', a', b', response, update) && k in a'.mem.registers {
      NoConflict(states[n], d, c, k);
      StoredHashed(hash, states, steps, n, d, k);
      StoredHashed(hash, states, steps, n, c, k);
      WinnerStored(p.mem, q.mem, k);
    }
  }

  lemma StoredNormal(s: System, d: string)
    requires RegisterInv(s) && d in s.replicas
    ensures NormalKeys(s.replicas[d].stored.mem)
  {
    var r := s.replicas[d];
    forall k | k in r.stored.mem.registers ensures NormalizeKey(k) == k {
      assert Write(k, r.stored.mem.registers[k]) in s.issued;
    }
  }

  lemma StoredHashed(hash: string -> string, states: seq<System>, steps: seq<Step>, n: nat, d: string, k: string)
    requires Run(hash, states, steps) && n < |states| && d in states[n].replicas
    ensures var regs := states[n].replicas[d].stored.mem.registers; k in regs ==> regs[k].hash == hash(regs[k].value)
  {
    RunInv(hash, states, steps, n);
    var regs := states[n].replicas[d].stored.mem.registers;
    if k in regs {
      assert Write(k, regs[k]) in states[n].issued;
      var i := IssuedBySet(hash, states, steps, n, Write(k, regs[k]));
    }
  }

  lemma WinnerStored(a: State, b: State, k: string)
    requires k in a.registers || k in b.registers
    ensures Winner(a, b, k) in EntriesAt(a, b, k)
  {
  }

  lemma NoConflict(s: System, d: string, c: string, k: string)
    requires RegisterInv(s) && d in s.replicas && c in s.replicas
    ensures !ConflictAt(s.replicas[d].stored.mem, s.replicas[c].stored.mem, k)
  {
    var a, b := s.replicas[d].stored.mem.registers, s.replicas[c].stored.mem.registers;
    if k in a && k in b {
      assert Write(k, a[k]) in s.issued && Write(k, b[k]) in s.issued;
    }
  }
}
