/** The replicated key-value store: src/aries/memory/store.py. */
module Store {
  import opened Wrappers
  import opened Entries
  import opened AppendLogs
  import opened Capabilities

  // ---------------------------------------------------------------- keys

  datatype Namespace = Context | Memory | Cache

  const CONTEXT_PREFIX := "aries:context://"
  const MEMORY_PREFIX := "aries:memory://"
  const CACHE_PREFIX := "aries:cache://"
  const LEGACY_CONTEXT := "context://"
  const LEGACY_MEMORY := "memory://"
  const LEGACY_CACHE := "cache://"

  /** from_key on a normalized key; None where it raises ValueError */
  function NamespaceOf(key: string): Option<Namespace> {
    if CONTEXT_PREFIX <= key then Some(Context)
    else if MEMORY_PREFIX <= key then Some(Memory)
    else if CACHE_PREFIX <= key then Some(Cache)
    else None
  }

  /** normalize_key */
  function NormalizeKey(key: string): string {
    if NamespaceOf(key).Some? then key
    else if LEGACY_CONTEXT <= key then CONTEXT_PREFIX + key[|LEGACY_CONTEXT|..]
    else if LEGACY_MEMORY <= key then MEMORY_PREFIX + key[|LEGACY_MEMORY|..]
    else if LEGACY_CACHE <= key then CACHE_PREFIX + key[|LEGACY_CACHE|..]
    else key
  }

  /** Normalizing again changes nothing, and every key of a known namespace ends up in canonical form. */
  lemma NormalizeIdempotent(key: string)
    ensures NormalizeKey(NormalizeKey(key)) == NormalizeKey(key)
    ensures NamespaceOf(NormalizeKey(key)).Some? <==>
            NamespaceOf(key).Some? || LEGACY_CONTEXT <= key || LEGACY_MEMORY <= key || LEGACY_CACHE <= key
  {
    var n := NormalizeKey(key);
    if NamespaceOf(key).None? && n != key {
      assert CONTEXT_PREFIX <= n || MEMORY_PREFIX <= n || CACHE_PREFIX <= n;
    }
  }

  /** from_key: namespace and path, by canonical or legacy prefix; None where it raises ValueError */
  function FromKey(key: string): Option<(Namespace, string)> {
    if CONTEXT_PREFIX <= key then Some((Context, key[|CONTEXT_PREFIX|..]))
    else if MEMORY_PREFIX <= key then Some((Memory, key[|MEMORY_PREFIX|..]))
    else if CACHE_PREFIX <= key then Some((Cache, key[|CACHE_PREFIX|..]))
    else if LEGACY_CONTEXT <= key then Some((Context, key[|LEGACY_CONTEXT|..]))
    else if LEGACY_MEMORY <= key then Some((Memory, key[|LEGACY_MEMORY|..]))
    else if LEGACY_CACHE <= key then Some((Cache, key[|LEGACY_CACHE|..]))
    else None
  }

  /** Normalizing keeps the namespace and the path of every key, and two keys that mean the same become one. */
  lemma NormalizeKeepsMeaning(key: string, other: string)
    ensures FromKey(NormalizeKey(key)) == FromKey(key)
    ensures FromKey(key).Some? ==> NamespaceOf(NormalizeKey(key)) == Some(FromKey(key).value.0)
    ensures FromKey(key).Some? ==> (FromKey(key) == FromKey(other) <==> NormalizeKey(key) == NormalizeKey(other))
  {
    CanonicalForm(key);
    CanonicalForm(other);
    NamespaceFirst(key);
    NamespaceFirst(other);
    hide FromKey, NormalizeKey, NamespaceOf;
  }

  /** The prefixes and default times to live, spelled out. */
  lemma PrefixesSpelledOut(key: string, path: string)
    ensures NormalizeKey("context://" + path) == "aries:context://" + path
    ensures NormalizeKey("memory://" + path) == "aries:memory://" + path
    ensures NormalizeKey("cache://" + path) == "aries:cache://" + path
    ensures NamespaceOf(key).Some? <==> "aries:context://" <= key || "aries:memory://" <= key || "aries:cache://" <= key
    ensures "aries:context://" <= key ==> NamespaceOf(key).Some? && DefaultTtl(NamespaceOf(key).value) == Some(86400)
    ensures "aries:memory://" <= key ==> NamespaceOf(key).Some? && DefaultTtl(NamespaceOf(key).value) == None
    ensures "aries:cache://" <= key ==> NamespaceOf(key).Some? && DefaultTtl(NamespaceOf(key).value) == Some(3600)
  {
    LegacyContext(path);
    LegacyMemory(path);
    LegacyCache(path);
    hide NormalizeKey;
    assert "aries:context://"[6] == 'c' && "aries:memory://"[6] == 'm' && "aries:cache://"[6] == 'c';
    assert "aries:context://"[7] == 'o' && "aries:cache://"[7] == 'a';
  }

  lemma LegacyContext(path: string)
    ensures NormalizeKey("context://" + path) == "aries:context://" + path
  {
    var x := "context://" + path;
    assert x[0] == 'c' && "aries:context://"[0] == "aries:memory://"[0] == "aries:cache://"[0] == 'a';
    assert x[..10] == "context://" && x[10..] == path;
  }

  lemma LegacyMemory(path: string)
    ensures NormalizeKey("memory://" + path) == "aries:memory://" + path
  {
    var x := "memory://" + path;
    assert x[0] == 'm' && "aries:context://"[0] == "aries:memory://"[0] == "aries:cache://"[0] == 'a' && "context://"[0] == 'c';
    assert x[..9] == "memory://" && x[9..] == path;
  }

  lemma LegacyCache(path: string)
    ensures NormalizeKey("cache://" + path) == "aries:cache://" + path
  {
    var x := "cache://" + path;
    assert x[0] == 'c' && x[1] == 'a' && "aries:context://"[0] == "aries:memory://"[0] == "aries:cache://"[0] == 'a';
    assert "context://"[1] == 'o' && "memory://"[0] == 'm';
    assert x[..8] == "cache://" && x[8..] == path;
  }

  function PrefixOf(ns: Namespace): string {
    match ns case Context => CONTEXT_PREFIX case Memory => MEMORY_PREFIX case Cache => CACHE_PREFIX
  }

  /** A key with a namespace becomes canonical_key of its namespace and path, any other stays as it is. */
  lemma CanonicalForm(key: string)
    ensures NormalizeKey(key) == if FromKey(key).Some? then PrefixOf(FromKey(key).value.0) + FromKey(key).value.1 else key
  {
    hide CONTEXT_PREFIX, MEMORY_PREFIX, CACHE_PREFIX, LEGACY_CONTEXT, LEGACY_MEMORY, LEGACY_CACHE;
  }

  lemma NamespaceFirst(key: string)
    ensures FromKey(key).Some? ==>
              FromKey(PrefixOf(FromKey(key).value.0) + FromKey(key).value.1) == FromKey(key) &&
              NamespaceOf(PrefixOf(FromKey(key).value.0) + FromKey(key).value.1) == Some(FromKey(key).value.0)
  {
    if FromKey(key).Some? { CanonicalKeyRead(FromKey(key).value.0, FromKey(key).value.1); }
  }

  /** from_key reads back what canonical_key builds. */
  lemma CanonicalKeyRead(ns: Namespace, path: string)
    ensures FromKey(PrefixOf(ns) + path) == Some((ns, path)) && NamespaceOf(PrefixOf(ns) + path) == Some(ns)
  {
    var key := PrefixOf(ns) + path;
    assert key[..|PrefixOf(ns)|] == PrefixOf(ns) && key[|PrefixOf(ns)|..] == path;
    assert key[6] == match ns case Context => 'c' case Memory => 'm' case Cache => 'c';
    assert key[7] == match ns case Context => 'o' case Memory => 'e' case Cache => 'a';
    assert CONTEXT_PREFIX[6] == 'c' && CONTEXT_PREFIX[7] == 'o' && MEMORY_PREFIX[6] == 'm';
  }

  /** DEFAULT_TTLS, in seconds */
  function DefaultTtl(ns: Namespace): Option<int> {
    match ns
    case Context => Some(86400)
    case Memory => None
    case Cache => Some(3600)
  }

  // ---------------------------------------------------------------- states and messages

  datatype State = State(clock: nat, registers: map<string, Entry>, logs: map<string, seq<Record>>)

  const EMPTY := State(0, map[], map[])

  /** What get_sync_state tells about one register. */
  datatype Stamp = Stamp(ts: nat, hash: string, device: string)

  datatype SyncState = SyncState(registers: map<string, Stamp>, logs: map<string, nat>, clock: nat)

  /** A diff: dictionaries in the order in which they are iterated. */
  datatype Diff = Diff(registers: seq<(string, Entry)>, logs: seq<(string, seq<Record>)>)

  /** items lists the dictionary m in some order. */
  ghost predicate Enumerates<V>(items: seq<(string, V)>, m: map<string, V>) {
    (forall i :: 0 <= i < |items| ==> items[i].0 in m && m[items[i].0] == items[i].1) &&
    (forall k :: k in m ==> exists i :: 0 <= i < |items| && items[i].0 == k) &&
    (forall i, j :: 0 <= i < j < |items| ==> items[i].0 != items[j].0)
  }

  // ---------------------------------------------------------------- operations as functions

  function TtlOf(ns: Namespace, ttl: Option<int>): Option<int> { if ttl.None? then DefaultTtl(ns) else ttl }

  function NewEntry(s: State, hash: string -> string, device: string, ns: Namespace, value: string, ttl: Option<int>, now: int): Entry {
    Entry(value, s.clock + 1, device, now, hash(value), TtlOf(ns, ttl))
  }

  /** set: the new state and the returned entry; None where the key has no namespace. */
  function SetState(s: State, hash: string -> string, device: string, key: string, value: string, ttl: Option<int>, now: int)
    : (State, Option<Entry>)
  {
    var k := NormalizeKey(key);
    if NamespaceOf(k).None? then (s, None)
    else
      var e := NewEntry(s, hash, device, NamespaceOf(k).value, value, ttl, now);
      if k in s.registers && !e.Supersedes(s.registers[k]) then (s.(clock := s.clock + 1), Some(s.registers[k]))
      else (s.(clock := s.clock + 1, registers := s.registers[k := e]), Some(e))
  }

  /** merge_entry keeps the existing register unless the remote entry supersedes it. */
  predicate Accepts(s: State, key: string, e: Entry) {
    var k := NormalizeKey(key);
    k in s.registers ==> e.Supersedes(s.registers[k])
  }

  function Max(a: nat, b: nat): nat { if a < b then b else a }

  /** merge_entry */
  function MergeState(s: State, key: string, e: Entry): State {
    var t := s.(clock := Max(s.clock, e.timestamp) + 1);
    if Accepts(s, key, e) then t.(registers := s.registers[NormalizeKey(key) := e]) else t
  }

  /** get and get_entry drop a register that has expired. */
  function GetState(s: State, key: string, now: int): State {
    var k := NormalizeKey(key);
    if k in s.registers && s.registers[k].Expired(now) then s.(registers := s.registers - {k}) else s
  }

  function LogOf(s: State, key: string): seq<Record> {
    var k := NormalizeKey(key);
    if k in s.logs then s.logs[k] else []
  }

  /** log_append */
  function AppendState(s: State, device: string, key: string, payload: string, now: int): State {
    var k := NormalizeKey(key);
    if NamespaceOf(k).None? then s
    else s.(logs := s.logs[k := AppendTo(LogOf(s, key), device, now, payload)])
  }

  /** merge_log */
  ghost function MergeLogState(s: State, key: string, remote: seq<Record>): State {
    s.(logs := s.logs[NormalizeKey(key) := MergeLog(LogOf(s, key), remote)])
  }

  function StampOf(e: Entry): Stamp { Stamp(e.timestamp, e.hash, e.device) }

  /** get_sync_state */
  function SyncStateOf(s: State, now: int): SyncState {
    SyncState(map k | k in s.registers && !s.registers[k].Expired(now) :: StampOf(s.registers[k]),
              map k | k in s.logs :: |s.logs[k]|,
              s.clock)
  }

  /** The test of compute_diff for one register. */
  predicate Included(e: Entry, remote: map<string, Stamp>, key: string) {
    key !in remote || e.timestamp > remote[key].ts || (e.timestamp == remote[key].ts && e.hash != remote[key].hash)
  }

  function RegisterDiff(s: State, remote: map<string, Stamp>, now: int): map<string, Entry> {
    map k | k in s.registers && !s.registers[k].Expired(now) && Included(s.registers[k], remote, k) :: s.registers[k]
  }

  function RemoteLength(remote: map<string, nat>, key: string): nat { if key in remote then remote[key] else 0 }

  function LogDiff(s: State, remote: map<string, nat>): map<string, seq<Record>> {
    map k | k in s.logs && |s.logs[k]| > RemoteLength(remote, k) :: s.logs[k][RemoteLength(remote, k)..]
  }

  /** compute_diff */
  ghost predicate IsDiff(d: Diff, s: State, remote: SyncState, now: int) {
    Enumerates(d.registers, RegisterDiff(s, remote.registers, now)) && Enumerates(d.logs, LogDiff(s, remote.logs))
  }

  // ---------------------------------------------------------------- memory and file together

  /** The store in memory and the contents of memory.json. */
  datatype Stored = Stored(mem: State, file: State)

  /** set writes the file only when it installed its entry. */
  function SetStored(p: Stored, hash: string -> string, device: string, key: string, value: string, ttl: Option<int>, now: int)
    : (Stored, Option<Entry>)
  {
    var (t, r) := SetState(p.mem, hash, device, key, value, ttl, now);
    (Stored(t, if t.registers == p.mem.registers then p.file else t), r)
  }

  /** merge_entry writes the file only when it accepted the entry. */
  function MergeStored(p: Stored, key: string, e: Entry): Stored {
    var t := MergeState(p.mem, key, e);
    Stored(t, if Accepts(p.mem, key, e) then t else p.file)
  }

  /** Reading an expired register drops it from memory only. */
  function GetStored(p: Stored, key: string, now: int): Stored { p.(mem := GetState(p.mem, key, now)) }

  function AppendStored(p: Stored, device: string, key: string, payload: string, now: int): Stored {
    var t := AppendState(p.mem, device, key, payload, now);
    if NamespaceOf(NormalizeKey(key)).None? then p else Stored(t, t)
  }

  ghost function MergeLogStored(p: Stored, key: string, remote: seq<Record>): Stored {
    var t := MergeLogState(p.mem, key, remote);
    Stored(t, t)
  }

  ghost function ApplyRegisters(p: Stored, items: seq<(string, Entry)>): Stored
    decreases |items|
  {
    if items == [] then p
    else
      var n := |items| - 1;
      MergeStored(ApplyRegisters(p, items[..n]), items[n].0, items[n].1)
  }

  ghost function ApplyLogs(p: Stored, items: seq<(string, seq<Record>)>): Stored
    decreases |items|
  {
    if items == [] then p
    else
      var n := |items| - 1;
      MergeLogStored(ApplyLogs(p, items[..n]), items[n].0, items[n].1)
  }

  /** apply_diff */
  ghost function ApplyDiff(p: Stored, d: Diff): Stored { ApplyLogs(ApplyRegisters(p, d.registers), d.logs) }

  // ---------------------------------------------------------------- diffs and states, entry by entry

  /** A diff carries exactly the registers that have not outlived their time to live and are absent, older, or of the
      same time with another hash on the remote side, and exactly the tails of the longer logs, each key once. */
  lemma DiffExactly(d: Diff, s: State, remote: SyncState, now: int)
    requires IsDiff(d, s, remote, now)
    ensures forall k, e :: (k, e) in d.registers <==>
              k in s.registers && s.registers[k] == e && !(e.ttl.Some? && now > e.wallClock + e.ttl.value) &&
              (k !in remote.registers || e.timestamp > remote.registers[k].ts ||
               (e.timestamp == remote.registers[k].ts && e.hash != remote.registers[k].hash))
    ensures forall k, l :: (k, l) in d.logs <==>
              k in s.logs && var n := if k in remote.logs then remote.logs[k] else 0; |s.logs[k]| > n && l == s.logs[k][n..]
    ensures forall i, j :: 0 <= i < j < |d.registers| ==> d.registers[i].0 != d.registers[j].0
    ensures forall i, j :: 0 <= i < j < |d.logs| ==> d.logs[i].0 != d.logs[j].0
  {
    EnumeratesExactly(d.registers, RegisterDiff(s, remote.registers, now));
    EnumeratesExactly(d.logs, LogDiff(s, remote.logs));
    hide Enumerates;
  }

  lemma EnumeratesExactly<V>(items: seq<(string, V)>, m: map<string, V>)
    requires Enumerates(items, m)
    ensures forall k, v :: (k, v) in items <==> k in m && m[k] == v
    ensures forall i, j :: 0 <= i < j < |items| ==> items[i].0 != items[j].0
  {
    forall k, v | k in m && m[k] == v ensures (k, v) in items {
      var i :| 0 <= i < |items| && items[i].0 == k;
      assert items[i] == (k, v);
    }
    forall k, v | (k, v) in items ensures k in m && m[k] == v {
      var i :| 0 <= i < |items| && items[i] == (k, v);
      assert items[i].0 in m;
    }
  }

  // ---------------------------------------------------------------- write permission

  const WRITE_ABILITY := "aries/context.write"

  datatype Error = MissingNamespace | NotPermitted

  /** A capability with its resource in canonical form. */
  function Canonical(c: Capability): Capability { c.(resource := NormalizeKey(c.resource)) }

  /** What _check_write_permission looks for among the capabilities of a token. */
  predicate PermitsWrite(held: seq<Capability>, key: string) {
    exists i :: 0 <= i < |held| && held[i].ability == WRITE_ABILITY && Covers(NormalizeKey(held[i].resource), NormalizeKey(key))
  }

  /** No token needs no permission; a token that cannot be read (Some(None)) gives none. */
  predicate Permitted(token: Option<Option<seq<Capability>>>, key: string) {
    token.None? || (token.value.Some? && PermitsWrite(token.value.value, key))
  }

  lemma PermittedNormalized(token: Option<Option<seq<Capability>>>, key: string)
    ensures NormalizeKey(NormalizeKey(key)) == NormalizeKey(key)
    ensures Permitted(token, NormalizeKey(key)) <==> Permitted(token, key)
  {
    NormalizeIdempotent(key);
    hide NormalizeKey, Covers;
  }

  function AllCanonical(held: seq<Capability>): seq<Capability> {
    seq(|held|, i requires 0 <= i < |held| => Canonical(held[i]))
  }

  /** Permission to write follows the delegation order: a token permits a key exactly when its canonical capabilities
      grant the write ability on it, so one whose canonical capabilities another absorbs permits no more keys. */
  lemma PermissionIsGrant(held: seq<Capability>, others: seq<Capability>, key: string)
    ensures PermitsWrite(held, key) <==> Grants(AllCanonical(held), Capability(NormalizeKey(key), "aries/context.write"))
    ensures (forall t :: t in AllCanonical(others) ==> Absorbs(AllCanonical(held), t)) && PermitsWrite(others, key) ==>
              PermitsWrite(held, key)
  {
    assert WRITE_ABILITY == "aries/context.write";
    hide NormalizeKey, Covers, WRITE_ABILITY, Absorbs;
    PermissionAsGrant(held, key);
    PermissionAsGrant(others, key);
    AbsorbsExactly(AllCanonical(held), AllCanonical(others));
    hide Grants, PermitsWrite, AllCanonical;
  }

  lemma PermissionAsGrant(held: seq<Capability>, key: string)
    ensures PermitsWrite(held, key) <==> Grants(AllCanonical(held), Capability(NormalizeKey(key), WRITE_ABILITY))
  {
    hide NormalizeKey, Covers, WRITE_ABILITY;
    var c, canonical := Capability(NormalizeKey(key), WRITE_ABILITY), AllCanonical(held);
    assert forall i :: 0 <= i < |held| ==>
      (c.IsAttenuatedBy(canonical[i]) <==> held[i].ability == WRITE_ABILITY && Covers(NormalizeKey(held[i].resource), NormalizeKey(key)));
  }

  // ---------------------------------------------------------------- the class

  class MemoryStore {
    const device: string
    const hash: string -> string
    var clock: nat
    var registers: map<string, Entry>
    var logs: map<string, seq<Record>>
    /** The contents of memory.json. */
    var file: State

    ghost function Now(): State
      reads this
    {
      State(clock, registers, logs)
    }

    ghost function Contents(): Stored
      reads this
    {
      Stored(Now(), file)
    }

    /** __init__ with an existing (or empty) file: _load */
    constructor (device: string, hash: string -> string, file: State)
      ensures this.device == device && this.hash == hash && Contents() == Stored(file, file)
    {
      this.device, this.hash, this.file := device, hash, file;
      clock, registers, logs := file.clock, file.registers, file.logs;
    }

    /** _save */
    method Save()
      modifies `file
      ensures file == Now()
    {
      file := State(clock, registers, logs);
    }

    /** get_entry (get returns its value) */
    method GetEntry(key: string, now: int) returns (r: Option<Entry>)
      modifies `registers
      ensures Contents() == GetStored(old(Contents()), key, now)
      ensures r == if NormalizeKey(key) in registers then Some(registers[NormalizeKey(key)]) else None
      ensures var k, before := NormalizeKey(key), old(registers);
              var dead := k in before && before[k].ttl.Some? && now > before[k].wallClock + before[k].ttl.value;
              registers == (if dead then before - {k} else before) &&
              r == if k in before && !dead then Some(before[k]) else None
    {
      var k := NormalizeKey(key);
      if k !in registers {
        return None;
      }
      var entry := registers[k];
      if entry.Expired(now) {
        registers := registers - {k};
        return None;
      }
      r := Some(entry);
    }

    /** _check_write_permission, of a token read already */
    method CheckWritePermission(key: string, held: seq<Capability>) returns (permitted: bool)
      ensures permitted == PermitsWrite(held, key)
    {
      hide NormalizeKey, Covers, WRITE_ABILITY;
      var i := 0;
      while i < |held|
        invariant 0 <= i <= |held|
        invariant forall j :: 0 <= j < i ==>
          !(held[j].ability == WRITE_ABILITY && Covers(NormalizeKey(held[j].resource), NormalizeKey(key)))
      {
        if held[i].ability == WRITE_ABILITY && Covers(NormalizeKey(held[i].resource), NormalizeKey(key)) { return true; }
        i := i + 1;
      }
      permitted := false;
    }

    /** The permission check of set and log_append, for a normalized key. */
    method CheckToken(key: string, token: Option<Option<seq<Capability>>>) returns (permitted: bool)
      requires NormalizeKey(key) == key
      ensures permitted == Permitted(token, key)
      ensures permitted <==> token.None? ||
                             (token.value.Some? && Grants(AllCanonical(token.value.value), Capability(key, "aries/context.write")))
    {
      if token.None? { return true; }
      if token.value.None? { return false; }
      permitted := CheckWritePermission(key, token.value.value);
      PermissionIsGrant(token.value.value, [], key);
    }

    /** set; an unknown namespace raises before a missing permission does, and both leave the store as it is. */
    method Set(key: string, value: string, ttl: Option<int>, token: Option<Option<seq<Capability>>>, now: int)
      returns (r: Result<Entry, Error>)
      modifies `clock, `registers, `file
      ensures NamespaceOf(NormalizeKey(key)).None? ==> r == Err(MissingNamespace)
      ensures NamespaceOf(NormalizeKey(key)).Some? ==> if Permitted(token, key) then r.Ok? else r == Err(NotPermitted)
      ensures r.Ok? ==> (Contents(), Some(r.value)) == SetStored(old(Contents()), hash, device, key, value, ttl, now)
      ensures r.Ok? ==>
                var k, before := NormalizeKey(key), old(registers);
                var lasts := if ttl.Some? then ttl else DefaultTtl(NamespaceOf(k).value);
                var made := Entry(value, old(clock) + 1, device, now, hash(value), lasts);
                clock == old(clock) + 1 &&
                if k in before && !made.Supersedes(before[k])
                then r.value == before[k] && registers == before && file == old(file)
                else r.value == made && registers == before[k := made] && file == State(clock, registers, logs)
      ensures r.Err? ==> Contents() == old(Contents())
    {
      hide NamespaceOf, PermitsWrite;
      var k := NormalizeKey(key);
      var ns := NamespaceOf(k);
      if ns.None? {
        return Err(MissingNamespace);
      }
      PermittedNormalized(token, key);
      hide NormalizeKey;
      var permitted := CheckToken(k, token);
      if !permitted {
        return Err(NotPermitted);
      }
      var t := if ttl.None? then DefaultTtl(ns.value) else ttl;
      clock := clock + 1;
      var entry := Entry(value, clock, device, now, hash(value), t);
      if k in registers && !entry.Supersedes(registers[k]) {
        return Ok(registers[k]);
      }
      SupersedesTotal(entry, entry);
      registers := registers[k := entry];
      Save();
      r := Ok(entry);
    }

    /** merge_entry */
    method MergeEntry(key: string, remote: Entry) returns (accepted: bool)
      modifies `clock, `registers, `file
      ensures Contents() == MergeStored(old(Contents()), key, remote)
      ensures clock == (if old(clock) < remote.timestamp then remote.timestamp else old(clock)) + 1
      ensures var k, before := NormalizeKey(key), old(registers);
              (accepted <==>
                k in before ==>
                  remote.timestamp > before[k].timestamp ||
                  (remote.timestamp == before[k].timestamp && Precedes(before[k].device, remote.device))) &&
              registers == if accepted then before[k := remote] else before
      ensures file == if accepted then State(clock, registers, logs) else old(file)
    {
      var k := NormalizeKey(key);
      if k in registers { SupersedesExactly(remote, registers[k]); }
      clock := Max(clock, remote.timestamp) + 1;
      if k in registers && !remote.Supersedes(registers[k]) {
        return false;
      }
      registers := registers[k := remote];
      Save();
      accepted := true;
    }

    /** log_append, with the same errors as set */
    method LogAppend(key: string, payload: string, token: Option<Option<seq<Capability>>>, now: int) returns (r: Result<nat, Error>)
      modifies `logs, `file
      ensures NamespaceOf(NormalizeKey(key)).None? ==> r == Err(MissingNamespace)
      ensures NamespaceOf(NormalizeKey(key)).Some? ==> if Permitted(token, key) then r.Ok? else r == Err(NotPermitted)
      ensures r.Ok? ==> r.value == |LogOf(old(Now()), key)| &&
                        Contents() == AppendStored(old(Contents()), device, key, payload, now)
      ensures r.Ok? ==>
                var k, before := NormalizeKey(key), old(logs);
                var log := if k in before then before[k] else [];
                r.value == |log| && logs == before[k := log + [Record(device, |log|, now, payload)]] &&
                file == State(clock, registers, logs)
      ensures r.Err? ==> Contents() == old(Contents())
    {
      var k := NormalizeKey(key);
      if NamespaceOf(k).None? {
        return Err(MissingNamespace);
      }
      PermittedNormalized(token, key);
      hide NormalizeKey, PermitsWrite;
      var permitted := CheckToken(k, token);
      if !permitted {
        return Err(NotPermitted);
      }
      var log := new AppendLog();
      log.entries := if k in logs then logs[k] else [];
      var n := log.Append(payload, device, now);
      logs := logs[k := log.entries];
      Save();
      r := Ok(n);
    }

    /** merge_log */
    method MergeRemoteLog(key: string, remote: seq<Record>)
      modifies `logs, `file
      ensures Contents() == MergeLogStored(old(Contents()), key, remote)
    {
      var k := NormalizeKey(key);
      var log := new AppendLog();
      log.entries := if k in logs then logs[k] else [];
      log.Merge(remote);
      logs := logs[k := log.entries];
      Save();
    }

    /** get_sync_state */
    method GetSyncState(now: int) returns (r: SyncState)
      ensures r == SyncStateOf(Now(), now)
      ensures forall k :: k in r.registers <==>
                k in registers && !(registers[k].ttl.Some? && now > registers[k].wallClock + registers[k].ttl.value)
      ensures forall k :: k in r.registers ==>
                r.registers[k] == Stamp(registers[k].timestamp, registers[k].hash, registers[k].device)
      ensures r.logs.Keys == logs.Keys && (forall k :: k in logs ==> r.logs[k] == |logs[k]|) && r.clock == clock
    {
      var stamps := map k | k in registers && !registers[k].Expired(now) :: StampOf(registers[k]);
      r := SyncState(stamps, map k | k in logs :: |logs[k]|, clock);
    }

    /** compute_diff */
    method ComputeDiff(remote: SyncState, now: int) returns (d: Diff)
      ensures IsDiff(d, Now(), remote, now)
      ensures forall k, e :: (k, e) in d.registers ==> !(e.ttl.Some? && now > e.wallClock + e.ttl.value)
    {
      var regs := DiffRegisters(remote.registers, now);
      var ls := DiffLogs(remote.logs);
      d := Diff(regs, ls);
      DiffExactly(d, Now(), remote, now);
    }

    method DiffRegisters(remote: map<string, Stamp>, now: int) returns (items: seq<(string, Entry)>)
      ensures Enumerates(items, RegisterDiff(Now(), remote, now))
    {
      items := [];
      var todo := registers.Keys;
      ghost var m := RegisterDiff(Now(), remote, now);
      while todo != {}
        invariant todo <= registers.Keys
        invariant Enumerates(items, m - todo)
        decreases |todo|
      {
        var key :| key in todo;
        var entry := registers[key];
        if !entry.Expired(now) && Included(entry, remote, key) {
          EnumerateMore(items, m, todo, key);
          items := items + [(key, entry)];
        } else {
          assert m - (todo - {key}) == m - todo;
        }
        todo := todo - {key};
      }
      assert m - {} == m;
    }

    method DiffLogs(remote: map<string, nat>) returns (items: seq<(string, seq<Record>)>)
      ensures Enumerates(items, LogDiff(Now(), remote))
    {
      items := [];
      var todo := logs.Keys;
      ghost var m := LogDiff(Now(), remote);
      while todo != {}
        invariant todo <= logs.Keys
        invariant Enumerates(items, m - todo)
        decreases |todo|
      {
        var key :| key in todo;
        var local := logs[key];
        if |local| > RemoteLength(remote, key) {
          EnumerateMore(items, m, todo, key);
          items := items + [(key, local[RemoteLength(remote, key)..])];
        } else {
          assert m - (todo - {key}) == m - todo;
        }
        todo := todo - {key};
      }
      assert m - {} == m;
    }

    /** apply_diff */
    method Apply(d: Diff)
      modifies `clock, `registers, `logs, `file
      ensures Contents() == ApplyDiff(old(Contents()), d)
    {
      hide MergeStored, MergeLogStored, MergeState, MergeLogState, Accepts;
      ghost var start := Contents();
      var i := 0;
      while i < |d.registers|
        invariant 0 <= i <= |d.registers|
        invariant Contents() == ApplyRegisters(start, d.registers[..i])
      {
        assert d.registers[..i + 1][..i] == d.registers[..i];
        var accepted := MergeEntry(d.registers[i].0, d.registers[i].1);
        i := i + 1;
      }
      assert d.registers[..i] == d.registers;
      ghost var middle := Contents();
      i := 0;
      while i < |d.logs|
        invariant 0 <= i <= |d.logs|
        invariant Contents() == ApplyLogs(middle, d.logs[..i])
      {
        assert d.logs[..i + 1][..i] == d.logs[..i];
        MergeRemoteLog(d.logs[i].0, d.logs[i].1);
        i := i + 1;
      }
      assert d.logs[..i] == d.logs;
    }
  }

  lemma EnumerateMore<V>(items: seq<(string, V)>, m: map<string, V>, todo: set<string>, key: string)
    requires Enumerates(items, m - todo) && key in todo && key in m
    ensures Enumerates(items + [(key, m[key])], m - (todo - {key}))
  {
    var more := items + [(key, m[key])];
    assert more[|items|].0 == key;
    forall k | k in m - (todo - {key})
      ensures exists i :: 0 <= i < |more| && more[i].0 == k
    {
      if k != key {
        assert k in m - todo;
        var i :| 0 <= i < |items| && items[i].0 == k;
        assert more[i].0 == k;
      }
    }
  }

  // ---------------------------------------------------------------- one-store facts

  /** While the clock is not behind the registers, set never refuses: it installs its entry with a
      stamp above everything stored, and the clock stays ahead. */
  ghost predicate ClockAhead(s: State) { forall k :: k in s.registers ==> s.registers[k].timestamp <= s.clock }

  lemma SetInstalls(s: State, hash: string -> string, device: string, key: string, value: string, ttl: Option<int>, now: int)
    requires ClockAhead(s)
    ensures var (t, r) := SetState(s, hash, device, key, value, ttl, now);
            ClockAhead(t) &&
            (r.Some? ==> NormalizeKey(key) in t.registers && t.registers[NormalizeKey(key)] == r.value &&
                         r.value.value == value && r.value.device == device && r.value.timestamp == t.clock > s.clock)
  {
  }
}
