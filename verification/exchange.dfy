/** The sync protocol between two stores: src/aries/memory/sync.py. */
module Exchange {
  import opened Wrappers
  import opened Entries
  import opened AppendLogs
  import opened Store

  /** The bodies of MEMORY_SYNC (phases "request" and "response") and MEMORY_UPDATE messages. */
  datatype Message = Request(diff: Diff, state: SyncState) | Response(diff: Diff, state: SyncState) | Update(diff: Diff)

  const NOTHING := Diff([], [])

  /** sync_with_peer, _push_to_peers: the requests they send carry no diff. */
  function RequestOf(s: State, now: int): Message { Request(NOTHING, SyncStateOf(s, now)) }

  /** _handle_sync and _handle_update: the store goes from p to q and the reply is out. */
  ghost predicate Handles(p: Stored, m: Message, now: int, q: Stored, out: Option<Message>) {
    match m
    case Request(diff, state) =>
      q == ApplyDiff(p, diff) && out.Some? && out.value.Response? &&
      IsDiff(out.value.diff, p.mem, state, now) && out.value.state == SyncStateOf(q.mem, now)
    case Response(diff, state) =>
      q == ApplyDiff(p, diff) &&
      (out.None? ==> IsDiff(NOTHING, q.mem, state, now)) &&
      (out.Some? ==> out.value.Update? && out.value.diff != NOTHING && IsDiff(out.value.diff, q.mem, state, now))
    case Update(diff) =>
      q == ApplyDiff(p, diff) && out.None?
  }

  class MemorySyncService {
    const store: MemoryStore

    constructor (store: MemoryStore)
      ensures this.store == store
    {
      this.store := store;
    }

    method SyncWithPeer(now: int) returns (m: Message)
      ensures m == RequestOf(store.Now(), now)
      ensures m.Request? && m.diff.registers == [] && m.diff.logs == [] && m.state == SyncStateOf(store.Now(), now)
    {
      var state := store.GetSyncState(now);
      m := Request(NOTHING, state);
    }

    method Handle(m: Message, now: int) returns (out: Option<Message>)
      modifies store
      ensures Handles(old(store.Contents()), m, now, store.Contents(), out)
      ensures store.Contents() == ApplyDiff(old(store.Contents()), m.diff)
      ensures m.Request? ==> out.Some? && out.value.Response? && out.value.state == SyncStateOf(store.Now(), now) &&
                             IsDiff(out.value.diff, old(store.Now()), m.state, now)
      ensures m.Response? && out.Some? ==> out.value.Update? && (out.value.diff.registers != [] || out.value.diff.logs != []) &&
                                           IsDiff(out.value.diff, store.Now(), m.state, now)
      ensures m.Response? && out.None? ==> IsDiff(Diff([], []), store.Now(), m.state, now)
      ensures m.Update? ==> out.None?
    {
      match m
      case Request(theirs, state) =>
        var diff := store.ComputeDiff(state, now);
        store.Apply(theirs);
        var ours := store.GetSyncState(now);
        out := Some(Response(diff, ours));
      case Response(diff, state) =>
        store.Apply(diff);
        var ours := store.ComputeDiff(state, now);
        out := if ours.registers == [] && ours.logs == [] then None else Some(Update(ours));
      case Update(diff) =>
        store.Apply(diff);
        out := None;
    }
  }

  // ---------------------------------------------------------------- applying a diff, key by key

  ghost predicate NormalKeys(s: State) { forall k :: k in s.registers ==> NormalizeKey(k) == k }

  /** The register left by merging e into the registers at key k. */
  ghost function MergedAt(regs: map<string, Entry>, k: string, e: Entry): Entry {
    if k in regs && !e.Supersedes(regs[k]) then regs[k] else e
  }

  lemma {:induction false} ApplyLogsKeepsRegisters(p: Stored, items: seq<(string, seq<Record>)>)
    ensures ApplyLogs(p, items).mem.registers == p.mem.registers
    decreases |items|
  {
    if items != [] { ApplyLogsKeepsRegisters(p, items[..|items| - 1]); }
  }

  lemma {:induction false} ApplyAbsent(p: Stored, items: seq<(string, Entry)>, k: string)
    requires forall i :: 0 <= i < |items| ==> NormalizeKey(items[i].0) != k
    ensures var regs := ApplyRegisters(p, items).mem.registers;
            (k in regs <==> k in p.mem.registers) && (k in regs ==> regs[k] == p.mem.registers[k])
    decreases |items|
  {
    if items != [] { ApplyAbsent(p, items[..|items| - 1], k); }
  }

  lemma {:induction false} ApplyPresent(p: Stored, items: seq<(string, Entry)>, j: nat)
    requires j < |items|
    requires forall i :: 0 <= i < |items| ==> NormalizeKey(items[i].0) == items[i].0
    requires forall i :: 0 <= i < |items| && i != j ==> items[i].0 != items[j].0
    ensures var regs := ApplyRegisters(p, items).mem.registers;
            items[j].0 in regs && regs[items[j].0] == MergedAt(p.mem.registers, items[j].0, items[j].1)
    decreases |items|
  {
    var n := |items| - 1;
    if j == n {
      ApplyAbsent(p, items[..n], items[j].0);
    } else {
      ApplyPresent(p, items[..n], j);
    }
  }

  /** What a diff does to the register at k, in whatever order the dictionary is walked. */
  lemma ApplyDiffAt(p: Stored, d: Diff, m: map<string, Entry>, k: string)
    requires Enumerates(d.registers, m) && forall x :: x in m ==> NormalizeKey(x) == x
    ensures var regs := ApplyDiff(p, d).mem.registers;
            if k in m then k in regs && regs[k] == MergedAt(p.mem.registers, k, m[k])
            else (k in regs <==> k in p.mem.registers) && (k in regs ==> regs[k] == p.mem.registers[k])
  {
    ApplyLogsKeepsRegisters(ApplyRegisters(p, d.registers), d.logs);
    if k in m {
      var j :| 0 <= j < |d.registers| && d.registers[j].0 == k;
      forall i | 0 <= i < |d.registers| && i != j ensures d.registers[i].0 != d.registers[j].0 {
        assert i < j || j < i;
      }
      ApplyPresent(p, d.registers, j);
    } else {
      ApplyAbsent(p, d.registers, k);
    }
  }

  // ---------------------------------------------------------------- the three-message exchange

  ghost predicate Lively(s: State, now: int) { forall k :: k in s.registers ==> !s.registers[k].Expired(now) }

  /** The entry that last-writer-wins picks at k; a wins ties of equal stamp. */
  ghost function Winner(a: State, b: State, k: string): Entry
    requires k in a.registers || k in b.registers
  {
    if k !in a.registers then b.registers[k]
    else if k in b.registers && b.registers[k].Supersedes(a.registers[k]) then b.registers[k]
    else a.registers[k]
  }

  ghost function EntriesAt(a: State, b: State, k: string): set<Entry> {
    (if k in a.registers then {a.registers[k]} else {}) + if k in b.registers then {b.registers[k]} else {}
  }

  /** Two writes at k with the same stamp but different contents. */
  ghost predicate ConflictAt(a: State, b: State, k: string) {
    k in a.registers && k in b.registers && a.registers[k].SameStamp(b.registers[k]) &&
    a.registers[k].hash != b.registers[k].hash
  }

  ghost predicate SameContent(e: Entry, f: Entry) { e.timestamp == f.timestamp && e.hash == f.hash }

  /** request, response and update (sent only when non-empty) between stores a and b, with nothing in between */
  ghost predicate Exchanged(a: Stored, b: Stored, nowA: int, nowB: int, nowA': int, nowB': int,
                            a': Stored, b': Stored, response: Message, update: Option<Message>) {
    Handles(b, RequestOf(a.mem, nowA), nowB, b, Some(response)) &&
    Handles(a, response, nowA', a', update) &&
    if update.Some? then Handles(b, update.value, nowB', b', None) else b' == b
  }

  /** The registers at k of two stores a and b afterwards, a' and b': present where either was, equal in time and content
      to the winner except exactly at a conflict, and always one of the two entries. */
  ghost predicate JoinedAt(a: State, b: State, a': State, b': State, k: string) {
    (k in a'.registers <==> k in a.registers || k in b.registers) &&
    (k in b'.registers <==> k in a.registers || k in b.registers) &&
    (k in a'.registers ==>
      (!ConflictAt(a, b, k) ==>
        SameContent(a'.registers[k], Winner(a, b, k)) && SameContent(b'.registers[k], Winner(a, b, k))) &&
      (SameContent(a'.registers[k], b'.registers[k]) <==> !ConflictAt(a, b, k)) &&
      a'.registers[k] in EntriesAt(a, b, k) && b'.registers[k] in EntriesAt(a, b, k))
  }

  /** After an exchange without expiry both stores hold the last-writer-wins winner (same stamp time
      and content hash) at every key, except exactly where two writes carry one stamp but differ. */
  lemma ExchangeJoins(a: Stored, b: Stored, nowA: int, nowB: int, nowA': int, nowB': int,
                      a': Stored, b': Stored, response: Message, update: Option<Message>, k: string)
    requires Lively(a.mem, nowA) && Lively(b.mem, nowB) && Lively(a.mem, nowA') && Lively(b.mem, nowA')
    requires NormalKeys(a.mem) && NormalKeys(b.mem)
    ensures Exchanged(a, b, nowA, nowB, nowA', nowB', a', b', response, update) ==> JoinedAt(a.mem, b.mem, a'.mem, b'.mem, k)
  {
    hide SameContent, Winner, ConflictAt, Lively, NormalKeys, EntriesAt;
    if Exchanged(a, b, nowA, nowB, nowA', nowB', a', b', response, update) {
      ResponseAt(a, b.mem, nowA, nowB, nowA', response.diff, k);
      UpdateAt(a', b, nowB, nowA', nowB', b', update, k);
      Settle(a.mem, b.mem, a'.mem, b'.mem, k);
    }
  }

  /** The entry at k after the responder's diff reached a store holding a. */
  ghost predicate TookAt(a: State, b: State, c: State, k: string) {
    (k in c.registers <==> k in a.registers || k in b.registers) &&
    (k in c.registers ==>
      c.registers[k] ==
        if k !in a.registers then b.registers[k]
        else if k in b.registers && b.registers[k].Supersedes(a.registers[k]) && !SameContent(b.registers[k], a.registers[k])
        then b.registers[k]
        else a.registers[k])
  }

  lemma IncludedAt(a: State, b: State, k: string, now: int)
    requires k in b.registers && Lively(a, now)
    ensures Included(b.registers[k], SyncStateOf(a, now).registers, k) <==>
            k !in a.registers || b.registers[k].timestamp > a.registers[k].timestamp ||
            (b.registers[k].timestamp == a.registers[k].timestamp && b.registers[k].hash != a.registers[k].hash)
  {
  }

  /** Applying the diff of b against the state of a. */
  lemma DiffTaken(a: Stored, b: State, nowA: int, nowB: int, d: Diff, k: string)
    requires Lively(a.mem, nowA) && Lively(b, nowB) && NormalKeys(b)
    requires IsDiff(d, b, SyncStateOf(a.mem, nowA), nowB)
    ensures TookAt(a.mem, b, ApplyDiff(a, d).mem, k)
  {
    ApplyDiffAt(a, d, RegisterDiff(b, SyncStateOf(a.mem, nowA).registers, nowB), k);
    if k in b.registers { IncludedAt(a.mem, b, k, nowA); }
  }

  lemma ResponseAt(a: Stored, b: State, nowA: int, nowB: int, nowA': int, d: Diff, k: string)
    requires Lively(a.mem, nowA) && Lively(b, nowB) && Lively(a.mem, nowA') && Lively(b, nowA') && NormalKeys(a.mem) && NormalKeys(b)
    requires IsDiff(d, b, SyncStateOf(a.mem, nowA), nowB)
    ensures TookAt(a.mem, b, ApplyDiff(a, d).mem, k)
    ensures NormalKeys(ApplyDiff(a, d).mem) && Lively(ApplyDiff(a, d).mem, nowA')
  {
    var a' := ApplyDiff(a, d);
    DiffTaken(a, b, nowA, nowB, d, k);
    forall x | x in a'.mem.registers
      ensures NormalizeKey(x) == x && !a'.mem.registers[x].Expired(nowA')
    {
      DiffTaken(a, b, nowA, nowB, d, x);
    }
  }

  lemma UpdateAt(a': Stored, b: Stored, nowB: int, nowA': int, nowB': int, b': Stored,
                 update: Option<Message>, k: string)
    requires update.None? ==> IsDiff(NOTHING, a'.mem, SyncStateOf(b.mem, nowB), nowA')
    requires update.Some? ==> update.value.Update? && IsDiff(update.value.diff, a'.mem, SyncStateOf(b.mem, nowB), nowA')
    requires if update.Some? then Handles(b, update.value, nowB', b', None) else b' == b
    requires Lively(b.mem, nowB) && NormalKeys(a'.mem) && Lively(a'.mem, nowA')
    ensures TookAt(b.mem, a'.mem, b'.mem, k)
  {
    var d := if update.Some? then update.value.diff else NOTHING;
    DiffTaken(b, a'.mem, nowB, nowA', d, k);
  }

  /** Both stores took the other's entry where it was newer: they now agree on the winner. */
  lemma Settle(a: State, b: State, a': State, b': State, k: string)
    requires TookAt(a, b, a', k) && TookAt(b, a', b', k)
    ensures JoinedAt(a, b, a', b', k)
  {
    if k in a.registers && k in b.registers {
      SupersedesTotal(a.registers[k], b.registers[k]);
      SupersedesTotal(b.registers[k], a.registers[k]);
    }
  }

  lemma SomeKey<V>(items: seq<(string, V)>, m: map<string, V>)
    requires Enumerates(items, m)
    ensures items != [] ==> exists k :: k in m
  {
    if items != [] {
      assert items[0].0 in m;
    }
  }

  /** Log diffs compare lengths only: no record is sent if and only if no log of the sender is longer than the
      receiver reported, whatever the records are. */
  lemma NoLogsSentExactly(s: State, logs: seq<(string, seq<Record>)>, remote: map<string, nat>)
    requires Enumerates(logs, LogDiff(s, remote))
    ensures logs == [] <==> forall k :: k in s.logs ==> |s.logs[k]| <= RemoteLength(remote, k)
  {
    var m := LogDiff(s, remote);
    SomeKey(logs, m);
    if logs == [] {
      forall k | k in s.logs ensures |s.logs[k]| <= RemoteLength(remote, k) {
        assert k !in m;
      }
    }
  }
}
