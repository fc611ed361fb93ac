/** Dictionaries whose iteration order matters: pairs in insertion order. */
module Tables {
  import opened Wrappers

  type Table<V> = seq<(string, V)>

  ghost predicate Has<V>(t: Table<V>, k: string) { exists i :: 0 <= i < |t| && t[i].0 == k }

  ghost predicate Distinct<V>(t: Table<V>) { forall i, j :: 0 <= i < j < |t| ==> t[i].0 != t[j].0 }

  function Get<V>(t: Table<V>, k: string): (r: Option<V>)
    ensures r.Some? <==> Has(t, k)
    ensures r.Some? ==> (k, r.value) in t
  {
    if t == [] then None
    else if t[0].0 == k then Some(t[0].1)
    else
      assert forall i :: 0 <= i < |t| - 1 ==> t[1..][i] == t[i + 1];
      assert forall i :: 0 <= i < |t| && t[i].0 == k ==> t[1..][i - 1].0 == k;
      Get(t[1..], k)
  }

  lemma HasAppend<V>(t: Table<V>, e: (string, V), k: string)
    ensures Has(t + [e], k) <==> Has(t, k) || k == e.0
    ensures Distinct(t + [e]) ==> Distinct(t) && !Has(t, e.0)
  {
    var u := t + [e];
    assert u[|t|] == e;
    assert forall i :: 0 <= i < |t| ==> u[i] == t[i];
  }

  /** d[k] = v: a new key goes to the end, a known key keeps its place. */
  function Put<V>(t: Table<V>, k: string, v: V): Table<V> {
    if t == [] then [(k, v)] else if t[0].0 == k then [(k, v)] + t[1..] else [t[0]] + Put(t[1..], k, v)
  }

  /** d.pop(k, None) */
  function Drop<V>(t: Table<V>, k: string): Table<V> {
    if t == [] then [] else if t[0].0 == k then t[1..] else [t[0]] + Drop(t[1..], k)
  }

  lemma {:induction false} GetAt<V>(t: Table<V>, i: nat)
    requires Distinct(t) && i < |t|
    ensures Get(t, t[i].0) == Some(t[i].1)
  {
    if i > 0 {
      assert t[1..][i - 1] == t[i];
      GetAt(t[1..], i - 1);
    }
  }

  ghost predicate Lacks<V>(t: Table<V>, k: string) { forall e :: e in t ==> e.0 != k }

  lemma DistinctCons<V>(e: (string, V), rest: Table<V>)
    ensures Distinct([e] + rest) <==> Distinct(rest) && Lacks(rest, e.0)
  {
    var t := [e] + rest;
    if Distinct(t) {
      forall i, j | 0 <= i < j < |rest| ensures rest[i].0 != rest[j].0 {
        assert t[i + 1] == rest[i] && t[j + 1] == rest[j];
      }
      forall x | x in rest ensures x.0 != e.0 {
        var i :| 0 <= i < |rest| && rest[i] == x;
        assert t[i + 1] == x && t[0] == e;
      }
    }
  }

  lemma {:induction false} PutDistinct<V>(t: Table<V>, k: string, v: V)
    requires Distinct(t)
    ensures Distinct(Put(t, k, v))
    ensures forall e :: e in Put(t, k, v) ==> e == (k, v) || (e in t && e.0 != k)
    decreases |t|
  {
    if t == [] {
      DistinctCons((k, v), []);
    } else {
      var head, rest := t[0], t[1..];
      assert t == [head] + rest;
      DistinctCons(head, rest);
      hide Distinct;
      if head.0 == k {
        DistinctCons((k, v), rest);
        assert Put(t, k, v) == [(k, v)] + rest;
      } else {
        PutDistinct(rest, k, v);
        assert Put(t, k, v) == [head] + Put(rest, k, v);
        DistinctCons(head, Put(rest, k, v));
      }
    }
  }

  lemma {:induction false} DropEntries<V>(t: Table<V>, k: string)
    requires Distinct(t)
    ensures Distinct(Drop(t, k)) && forall e :: e in Drop(t, k) <==> e in t && e.0 != k
    decreases |t|
  {
    if t != [] {
      var head, rest := t[0], t[1..];
      assert t == [head] + rest;
      DistinctCons(head, rest);
      hide Distinct;
      if head.0 == k {
        assert Drop(t, k) == rest;
      } else {
        DropEntries(rest, k);
        var dropped := Drop(rest, k);
        assert Lacks(dropped, head.0);
        assert Drop(t, k) == [head] + dropped;
        DistinctCons(head, dropped);
      }
    }
  }

  /** d[k] afterwards, and every other key as before. */
  lemma {:induction false} GetPut<V>(t: Table<V>, k: string, v: V, j: string)
    ensures Get(Put(t, k, v), j) == if j == k then Some(v) else Get(t, j)
  {
    if t != [] && t[0].0 != k {
      GetPut(t[1..], k, v, j);
      assert Put(t, k, v)[1..] == Put(t[1..], k, v);
    } else if t != [] {
      assert Put(t, k, v)[1..] == t[1..];
    }
  }

  /** The key is gone, and every other key is as before. */
  lemma {:induction false} GetDrop<V>(t: Table<V>, k: string, j: string)
    requires Distinct(t)
    ensures Get(Drop(t, k), j) == if j == k then None else Get(t, j)
  {
    if t != [] {
      var head, rest := t[0], t[1..];
      assert t == [head] + rest;
      DistinctCons(head, rest);
      GetDrop(rest, k, j);
      hide Distinct;
      if head.0 == k {
        assert Drop(t, k) == rest;
        if j == k { NotGet(rest, k); }
      } else {
        assert Drop(t, k) == [head] + Drop(rest, k) && Drop(t, k)[1..] == Drop(rest, k);
      }
    }
  }

  lemma NotGet<V>(t: Table<V>, k: string)
    requires Lacks(t, k)
    ensures Get(t, k) == None
  {
  }

  /** Adding or overwriting a key and then removing it leaves what removing it alone leaves. */
  lemma {:induction false} PutThenDrop<V>(t: Table<V>, k: string, v: V)
    ensures Drop(Put(t, k, v), k) == Drop(t, k)
    ensures Get(t, k).None? ==> Drop(t, k) == t
  {
    if t != [] && t[0].0 != k {
      PutThenDrop(t[1..], k, v);
      assert Put(t, k, v)[1..] == Put(t[1..], k, v);
      assert t == [t[0]] + t[1..];
    } else if t != [] {
      assert Put(t, k, v)[1..] == t[1..];
    }
  }
}
