/** Append-only logs: src/aries/memory/store.py lines 152-181. */
module AppendLogs {

  /** A log record: the identity (_device, _seq), the wall-clock stamp _ts, and the rest. */
  datatype Record = Record(device: string, seqNo: int, ts: int, payload: string) {
    function Id(): (string, int) { (device, seqNo) }
  }

  // ---------------------------------------------------------------- list.sort(key=_ts)

  ghost predicate Sorted(s: seq<Record>) { forall i, j :: 0 <= i < j < |s| ==> s[i].ts <= s[j].ts }

  /** The records of s stamped t, in order. */
  ghost function Stamped(s: seq<Record>, t: int): seq<Record> {
    if s == [] then []
    else if s[|s| - 1].ts == t then Stamped(s[..|s| - 1], t) + [s[|s| - 1]]
    else Stamped(s[..|s| - 1], t)
  }

  /** Puts x behind every record that is not later. */
  function Insert(s: seq<Record>, x: Record): (r: seq<Record>)
    ensures |r| == |s| + 1
  {
    if s == [] || s[|s| - 1].ts <= x.ts then s + [x] else Insert(s[..|s| - 1], x) + [s[|s| - 1]]
  }

  /** The stable sort by _ts. */
  function StableSort(s: seq<Record>): (r: seq<Record>)
    ensures |r| == |s|
  {
    if s == [] then [] else Insert(StableSort(s[..|s| - 1]), s[|s| - 1])
  }

  lemma {:induction false} InsertMembers(s: seq<Record>, x: Record)
    ensures multiset(Insert(s, x)) == multiset(s) + multiset{x}
  {
    if s != [] && s[|s| - 1].ts > x.ts {
      InsertMembers(s[..|s| - 1], x);
      assert s == s[..|s| - 1] + [s[|s| - 1]];
    }
  }

  lemma {:induction false} InsertBounded(s: seq<Record>, x: Record, bound: int)
    requires x.ts <= bound && forall i :: 0 <= i < |s| ==> s[i].ts <= bound
    ensures forall i :: 0 <= i <= |s| ==> Insert(s, x)[i].ts <= bound
  {
    if s != [] && s[|s| - 1].ts > x.ts {
      InsertBounded(s[..|s| - 1], x, bound);
    }
  }

  lemma {:induction false} InsertSorted(s: seq<Record>, x: Record)
    requires Sorted(s)
    ensures Sorted(Insert(s, x))
  {
    if s != [] && s[|s| - 1].ts > x.ts {
      InsertSorted(s[..|s| - 1], x);
      InsertBounded(s[..|s| - 1], x, s[|s| - 1].ts);
    }
  }

  lemma {:induction false} InsertStable(s: seq<Record>, x: Record, t: int)
    requires Sorted(s)
    ensures Stamped(Insert(s, x), t) == Stamped(s, t) + if x.ts == t then [x] else []
  {
    if s == [] || s[|s| - 1].ts <= x.ts {
      assert (s + [x])[..|s|] == s;
    } else {
      var init, last := s[..|s| - 1], s[|s| - 1];
      InsertStable(init, x, t);
      var r := Insert(init, x);
      assert (r + [last])[..|r|] == r;
    }
  }

  /** The sort is sorted, a permutation, and keeps the order of equal stamps. */
  lemma {:induction false} StableSortCorrect(s: seq<Record>)
    ensures Sorted(StableSort(s)) && multiset(StableSort(s)) == multiset(s)
  {
    if s != [] {
      var init, last := s[..|s| - 1], s[|s| - 1];
      assert s == init + [last];
      StableSortCorrect(init);
      InsertMembers(StableSort(init), last);
      InsertSorted(StableSort(init), last);
    }
  }

  lemma {:induction false} StableSortStable(s: seq<Record>, t: int)
    ensures Stamped(StableSort(s), t) == Stamped(s, t)
  {
    if s != [] {
      StableSortStable(s[..|s| - 1], t);
      StableSortCorrect(s[..|s| - 1]);
      InsertStable(StableSort(s[..|s| - 1]), s[|s| - 1], t);
    }
  }

  lemma {:induction false} StampedMembers(s: seq<Record>, t: int)
    ensures forall r :: r in Stamped(s, t) <==> r in s && r.ts == t
  {
    if s != [] {
      StampedMembers(s[..|s| - 1], t);
      assert s == s[..|s| - 1] + [s[|s| - 1]];
    }
  }

  lemma SnocCancel(p: seq<Record>, q: seq<Record>, x: Record)
    ensures p + [x] == q + [x] ==> p == q
  {
    if p + [x] == q + [x] {
      assert (p + [x])[..|p|] == p && (q + [x])[..|q|] == q;
    }
  }

  /** A sorted list is determined by its sublists of equal stamps. */
  lemma {:induction false} SortedDetermined(r: seq<Record>, s: seq<Record>)
    requires Sorted(r) && Sorted(s) && forall t :: Stamped(r, t) == Stamped(s, t)
    ensures r == s
    decreases |r| + |s|
  {
    if r != [] {
      var a := r[|r| - 1];
      StampedMembers(r, a.ts);
      StampedMembers(s, a.ts);
      assert a in Stamped(s, a.ts);
      var b := s[|s| - 1];
      StampedMembers(r, b.ts);
      StampedMembers(s, b.ts);
      assert b in Stamped(r, b.ts);
      LastStamped(r);
      LastStamped(s);
      assert a == b;
      var r', s' := r[..|r| - 1], s[..|s| - 1];
      forall t ensures Stamped(r', t) == Stamped(s', t) {
        assert Stamped(r, t) == Stamped(r', t) + if a.ts == t then [a] else [];
        assert Stamped(s, t) == Stamped(s', t) + if a.ts == t then [a] else [];
        SnocCancel(Stamped(r', t), Stamped(s', t), a);
      }
      SortedDetermined(r', s');
      assert r == r' + [a] && s == s' + [b];
    }
  }

  lemma LastStamped(s: seq<Record>)
    requires s != []
    ensures var q := Stamped(s, s[|s| - 1].ts); q != [] && q[|q| - 1] == s[|s| - 1]
    ensures Sorted(s) ==> forall x :: x in s ==> x.ts <= s[|s| - 1].ts
  {
  }

  // ---------------------------------------------------------------- append, merge, since

  function Ids(s: seq<Record>): (ids: set<(string, int)>)
    ensures forall r :: r in s ==> r.Id() in ids
    ensures forall i :: i in ids ==> exists r :: r in s && r.Id() == i
  {
    set r | r in s :: r.Id()
  }

  ghost function Contents(s: seq<Record>): set<Record> { set r | r in s }

  /** The records of remote whose identity has not been seen, each identity once. */
  ghost function Fresh(seen: set<(string, int)>, remote: seq<Record>): seq<Record>
    decreases |remote|
  {
    if remote == [] then []
    else if remote[0].Id() in seen then Fresh(seen, remote[1..])
    else [remote[0]] + Fresh(seen + {remote[0].Id()}, remote[1..])
  }

  ghost function MergeLog(entries: seq<Record>, remote: seq<Record>): seq<Record> {
    StableSort(entries + Fresh(Ids(entries), remote))
  }

  function AppendTo(entries: seq<Record>, device: string, now: int, payload: string): seq<Record> {
    entries + [Record(device, |entries|, now, payload)]
  }

  class AppendLog {
    var entries: seq<Record>

    constructor ()
      ensures entries == []
    {
      entries := [];
    }

    method Append(payload: string, device: string, now: int) returns (idx: nat)
      modifies this
      ensures idx == old(|entries|) && entries == AppendTo(old(entries), device, now, payload)
      ensures entries == old(entries) + [Record(device, idx, now, payload)]
    {
      idx := |entries|;
      entries := entries + [Record(device, idx, now, payload)];
    }

    method Merge(remote: seq<Record>)
      modifies this
      ensures entries == MergeLog(old(entries), remote)
    {
      var seen := Ids(entries);
      ghost var before, seen0 := entries, seen;
      var i := 0;
      while i < |remote|
        invariant 0 <= i <= |remote|
        invariant before + Fresh(seen0, remote) == entries + Fresh(seen, remote[i..])
      {
        ghost var rest := remote[i..];
        assert rest[0] == remote[i] && rest[1..] == remote[i + 1..];
        var key := remote[i].Id();
        if key !in seen {
          assert entries + Fresh(seen, rest) == (entries + [remote[i]]) + Fresh(seen + {key}, rest[1..]);
          seen := seen + {key};
          entries := entries + [remote[i]];
        }
        i := i + 1;
      }
      assert entries + Fresh(seen, remote[i..]) == entries;
      entries := StableSort(entries);
    }

    method Since(index: int) returns (r: seq<Record>)
      ensures r == SinceOf(entries, index)
      ensures index < 0 ==> r == entries
      ensures 0 <= index <= |entries| ==> r == entries[index..]
      ensures index > |entries| ==> r == []
    {
      r := if index < 0 then entries else if index <= |entries| then entries[index..] else [];
    }
  }

  /** Python's entries[index:], with negative indices meaning the whole list. */
  ghost function SinceOf(entries: seq<Record>, index: int): seq<Record> {
    if index < 0 then entries else if index <= |entries| then entries[index..] else []
  }

  // ---------------------------------------------------------------- merge as set union

  /** Equal identities mean equal records. */
  ghost predicate Coherent(c: set<Record>) {
    forall r, s :: r in c && s in c && r.Id() == s.Id() ==> r == s
  }

  /** No identity occurs at two places. */
  ghost predicate NoRepeats(s: seq<Record>) {
    forall i, j :: 0 <= i < j < |s| ==> s[i].Id() != s[j].Id()
  }

  ghost predicate DistinctStamps(c: set<Record>) {
    forall r, s :: r in c && s in c && r.ts == s.ts ==> r == s
  }

  lemma {:induction false} FreshMembers(seen: set<(string, int)>, remote: seq<Record>)
    ensures forall r :: r in Fresh(seen, remote) ==> r in remote && r.Id() !in seen
    ensures NoRepeats(Fresh(seen, remote))
    decreases |remote|
  {
    if remote != [] {
      var x, rest := remote[0], remote[1..];
      if x.Id() in seen {
        FreshMembers(seen, rest);
      } else {
        var f, tail := Fresh(seen, remote), Fresh(seen + {x.Id()}, rest);
        FreshMembers(seen + {x.Id()}, rest);
        assert f == [x] + tail;
        forall i, j | 0 <= i < j < |f| ensures f[i].Id() != f[j].Id() {
          assert f[j] == tail[j - 1] && f[j] in tail;
        }
      }
    }
  }

  lemma {:induction false} FreshComplete(seen: set<(string, int)>, remote: seq<Record>, r: Record)
    requires r in remote && r.Id() !in seen
    ensures exists s :: s in Fresh(seen, remote) && s.Id() == r.Id()
    decreases |remote|
  {
    var x, rest := remote[0], remote[1..];
    var f := Fresh(seen, remote);
    if x.Id() in seen {
      FreshComplete(seen, rest, r);
    } else if x.Id() == r.Id() {
      assert f[0] == x && x in f;
    } else {
      var tail := Fresh(seen + {x.Id()}, rest);
      FreshComplete(seen + {x.Id()}, rest, r);
      var y :| y in tail && y.Id() == r.Id();
      assert f == [x] + tail && y in f;
    }
  }

  lemma MergeMembers(a: seq<Record>, b: seq<Record>, r: Record)
    ensures r in MergeLog(a, b) <==> r in a || r in Fresh(Ids(a), b)
  {
    var u := a + Fresh(Ids(a), b);
    StableSortCorrect(u);
    assert r in StableSort(u) <==> r in multiset(StableSort(u));
    assert r in u <==> r in multiset(u);
  }

  /** Merging keeps every local record and brings in every remote identity; when identities are
      coherent the result holds exactly the union. */
  lemma MergeIsUnion(a: seq<Record>, b: seq<Record>)
    ensures Contents(a) <= Contents(MergeLog(a, b)) <= Contents(a) + Contents(b)
    ensures Coherent(Contents(a) + Contents(b)) ==> Contents(MergeLog(a, b)) == Contents(a) + Contents(b)
  {
    hide MergeLog;
    var f, m := Fresh(Ids(a), b), MergeLog(a, b);
    FreshMembers(Ids(a), b);
    forall r ensures r in m <==> r in a || r in f { MergeMembers(a, b, r); }
    if Coherent(Contents(a) + Contents(b)) {
      forall r | r in b ensures r in m { MergeCoherent(a, b, r); }
    }
  }

  lemma MergeCoherent(a: seq<Record>, b: seq<Record>, r: Record)
    requires Coherent(Contents(a) + Contents(b)) && r in b
    ensures r in MergeLog(a, b)
  {
    hide MergeLog;
    var both := Contents(a) + Contents(b);
    MergeMembers(a, b, r);
    if r.Id() in Ids(a) {
      var x :| x in a && x.Id() == r.Id();
      assert x in both && r in both;
    } else {
      FreshComplete(Ids(a), b, r);
      FreshMembers(Ids(a), b);
      var x :| x in Fresh(Ids(a), b) && x.Id() == r.Id();
      assert x in both && r in both;
    }
  }

  /** Every identity of either log survives, once, and the result is sorted by stamp. */
  lemma MergeKeepsIdentities(a: seq<Record>, b: seq<Record>)
    ensures Sorted(MergeLog(a, b))
    ensures forall r :: r in a || r in b ==> r.Id() in Ids(MergeLog(a, b))
    ensures NoRepeats(a) ==> NoRepeats(MergeLog(a, b))
  {
    var f := Fresh(Ids(a), b);
    var u := a + f;
    StableSortCorrect(u);
    FreshMembers(Ids(a), b);
    forall r | r in a || r in b ensures r.Id() in Ids(MergeLog(a, b)) {
      var x: Record := r;
      if r.Id() in Ids(a) {
        x :| x in a && x.Id() == r.Id();
      } else {
        FreshComplete(Ids(a), b, r);
        x :| x in f && x.Id() == r.Id();
      }
      MergeMembers(a, b, x);
    }
    if NoRepeats(a) {
      JoinNoRepeats(a, f);
      PermutationNoRepeats(u, MergeLog(a, b));
    }
  }

  lemma JoinNoRepeats(a: seq<Record>, f: seq<Record>)
    requires NoRepeats(a) && NoRepeats(f) && forall r :: r in f ==> r.Id() !in Ids(a)
    ensures NoRepeats(a + f)
  {
    var u := a + f;
    forall i, j | 0 <= i < j < |u| ensures u[i].Id() != u[j].Id() {
      if i < |a| <= j { assert u[i] in a && u[j] in f; }
    }
  }

  lemma {:induction false} CountOne(s: seq<Record>, x: Record, i: nat, j: nat)
    requires i < j < |s| && s[i] == x && s[j] == x
    ensures multiset(s)[x] >= 2
  {
    assert s == s[..i + 1] + s[i + 1..];
    assert s[..i + 1][i] == x && s[i + 1..][j - i - 1] == x;
    assert x in multiset(s[..i + 1]) && x in multiset(s[i + 1..]);
  }

  lemma {:induction false} NoRepeatsCount(s: seq<Record>, x: Record)
    requires NoRepeats(s)
    ensures multiset(s)[x] <= 1
  {
    if s != [] {
      var init := s[..|s| - 1];
      assert s == init + [s[|s| - 1]];
      NoRepeatsCount(init, x);
    }
  }

  lemma PermutationNoRepeats(s: seq<Record>, t: seq<Record>)
    requires NoRepeats(s) && multiset(s) == multiset(t)
    ensures NoRepeats(t)
  {
    forall i, j | 0 <= i < j < |t| ensures t[i].Id() != t[j].Id() {
      assert t[i] in multiset(t) && t[j] in multiset(t);
      assert t[i] in s && t[j] in s;
      if t[i].Id() == t[j].Id() {
        var p :| 0 <= p < |s| && s[p] == t[i];
        var q :| 0 <= q < |s| && s[q] == t[j];
        assert p == q;
        CountOne(t, t[i], i, j);
        NoRepeatsCount(s, t[i]);
      }
    }
  }

  /** A sorted list without repeats and with distinct stamps is determined by its contents. */
  lemma SameContentsSameList(r: seq<Record>, s: seq<Record>)
    requires Sorted(r) && Sorted(s) && NoRepeats(r) && NoRepeats(s)
    requires Contents(r) == Contents(s) && DistinctStamps(Contents(r))
    ensures r == s
  {
    forall t ensures Stamped(r, t) == Stamped(s, t) {
      AtMostOneStamped(r, t);
      AtMostOneStamped(s, t);
      StampedMembers(r, t);
      StampedMembers(s, t);
      assert forall x :: x in r <==> x in Contents(r);
      assert forall x :: x in s <==> x in Contents(s);
      var p, q := Stamped(r, t), Stamped(s, t);
      if |p| == 1 { assert p[0] in q; }
      if |q| == 1 { assert q[0] in p; }
    }
    SortedDetermined(r, s);
  }

  lemma {:induction false} AtMostOneStamped(s: seq<Record>, t: int)
    requires NoRepeats(s) && DistinctStamps(Contents(s))
    ensures |Stamped(s, t)| <= 1
  {
    if s != [] {
      var init, last := s[..|s| - 1], s[|s| - 1];
      assert forall x :: x in Contents(init) ==> x in Contents(s);
      AtMostOneStamped(init, t);
      StampedMembers(init, t);
      forall x | x in init ensures x.Id() != last.Id() {
        var i :| 0 <= i < |init| && init[i] == x;
        assert s[i] == x;
      }
      assert forall x :: x in Stamped(init, t) ==> x in Contents(s);
      assert last in Contents(s);
      var q := Stamped(init, t);
      assert q != [] ==> q[0] in q;
    }
  }

  /** Over coherent logs merging is idempotent, commutative and associative on contents. */
  lemma MergeLaws(a: seq<Record>, b: seq<Record>, c: seq<Record>)
    requires Coherent(Contents(a) + Contents(b) + Contents(c))
    ensures Contents(MergeLog(a, a)) == Contents(a)
    ensures Contents(MergeLog(a, b)) == Contents(MergeLog(b, a))
    ensures Contents(MergeLog(MergeLog(a, b), c)) == Contents(MergeLog(a, MergeLog(b, c)))
  {
    hide MergeLog, Contents;
    MergeIsUnion(a, a);
    MergeIsUnion(a, b);
    MergeIsUnion(b, a);
    MergeIsUnion(b, c);
    MergeIsUnion(MergeLog(a, b), c);
    MergeIsUnion(a, MergeLog(b, c));
  }

  /** What is merged decides the list, not how it is split. */
  lemma SameUnionSameMerge(a: seq<Record>, b: seq<Record>, c: seq<Record>, d: seq<Record>)
    requires Contents(a) + Contents(b) == Contents(c) + Contents(d)
    requires Coherent(Contents(a) + Contents(b)) && DistinctStamps(Contents(a) + Contents(b))
    requires NoRepeats(a) && NoRepeats(c)
    ensures MergeLog(a, b) == MergeLog(c, d)
  {
    hide MergeLog;
    MergeIsUnion(a, b);
    MergeIsUnion(c, d);
    MergeKeepsIdentities(a, b);
    MergeKeepsIdentities(c, d);
    SameContentsSameList(MergeLog(a, b), MergeLog(c, d));
  }

  /** With distinct stamps the very same list results in any order of merging. */
  lemma {:induction false} MergeOrderIrrelevant(a: seq<Record>, b: seq<Record>, c: seq<Record>)
    requires Coherent(Contents(a) + Contents(b) + Contents(c))
    requires NoRepeats(a) && NoRepeats(b) && DistinctStamps(Contents(a) + Contents(b) + Contents(c))
    ensures MergeLog(a, b) == MergeLog(b, a)
    ensures MergeLog(MergeLog(a, b), c) == MergeLog(a, MergeLog(b, c))
  {
    hide MergeLog, Contents, NoRepeats;
    SameUnionSameMerge(a, b, b, a);
    MergeIsUnion(a, b);
    MergeIsUnion(b, c);
    MergeKeepsIdentities(a, b);
    assert Contents(MergeLog(a, b)) + Contents(c) == Contents(a) + Contents(MergeLog(b, c));
    SameUnionSameMerge(MergeLog(a, b), c, a, MergeLog(b, c));
  }
}
