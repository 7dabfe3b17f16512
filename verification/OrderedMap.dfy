/**
 A JavaScript `Map` with string keys, as the sequence of its entries in iteration order. Property
 assignment on a plain object follows the same rule: a known key keeps its place, a new key goes last.
 */
module OrderedMap {

  datatype Option<+T> = None | Some(value: T)

  ghost predicate Distinct<V>(m: seq<(string, V)>) {
    forall i, j :: 0 <= i < j < |m| ==> m[i].0 != m[j].0
  }

  predicate Has<V>(m: seq<(string, V)>, k: string) {
    exists i :: 0 <= i < |m| && m[i].0 == k
  }

  function KeysOf<V>(m: seq<(string, V)>): (ks: seq<string>)
    ensures |ks| == |m| && forall i :: 0 <= i < |m| ==> ks[i] == m[i].0
  {
    seq(|m|, i requires 0 <= i < |m| => m[i].0)
  }

  function Get<V>(m: seq<(string, V)>, k: string): (r: Option<V>)
    ensures r.Some? <==> Has(m, k)
  {
    if m == [] then None
    else if m[0].0 == k then Some(m[0].1)
    else
      assert Has(m, k) ==> Has(m[1..], k);
      Get(m[1..], k)
  }

  function Put<V>(m: seq<(string, V)>, k: string, v: V): seq<(string, V)> {
    if m == [] then [(k, v)]
    else if m[0].0 == k then [(k, v)] + m[1..]
    else [m[0]] + Put(m[1..], k, v)
  }

  ghost function IndexOf<V>(m: seq<(string, V)>, k: string): (i: nat)
    requires Has(m, k)
    ensures i < |m| && m[i].0 == k && Get(m, k) == Some(m[i].1)
    ensures forall j :: 0 <= j < i ==> m[j].0 != k
  {
    if m[0].0 == k then 0
    else
      var rest := m[1..];
      assert Has(rest, k) by {
        var i :| 0 <= i < |m| && m[i].0 == k;
        assert rest[i - 1] == m[i];
      }
      var j := IndexOf(rest, k);
      assert forall l :: 0 <= l < j ==> m[l + 1] == rest[l];
      j + 1
  }

  /** The entry found is the first one with the key. */
  lemma {:induction false} GetFirst<V>(m: seq<(string, V)>, i: nat)
    requires i < |m|
    requires forall j :: 0 <= j < i ==> m[j].0 != m[i].0
    ensures Get(m, m[i].0) == Some(m[i].1)
  {
    if i > 0 {
      assert m[0].0 != m[i].0;
      GetFirst(m[1..], i - 1);
    }
  }

  lemma {:induction false} GetAppend<V>(m: seq<(string, V)>, n: seq<(string, V)>, k: string)
    ensures Get(m + n, k) == if Has(m, k) then Get(m, k) else Get(n, k)
  {
    if m == [] {
      assert m + n == n;
    } else {
      assert (m + n)[1..] == m[1..] + n;
      GetAppend(m[1..], n, k);
      assert forall i :: 0 <= i < |m[1..]| ==> m[1..][i] == m[i + 1];
    }
  }

  lemma {:induction false} PutNew<V>(m: seq<(string, V)>, k: string, v: V)
    requires !Has(m, k)
    ensures Put(m, k, v) == m + [(k, v)]
  {
    if m != [] {
      assert m[0].0 != k;
      assert forall i :: 0 <= i < |m[1..]| ==> m[1..][i] == m[i + 1];
      PutNew(m[1..], k, v);
    }
  }

  /** Storing under a key changes that key's value, no other key, and no place. */
  lemma {:induction false} PutOld<V>(m: seq<(string, V)>, k: string, v: V)
    requires Has(m, k)
    ensures |Put(m, k, v)| == |m|
    ensures forall i :: 0 <= i < |m| ==> Put(m, k, v)[i].0 == m[i].0
    ensures forall i :: 0 <= i < |m| && m[i].0 != k ==> Put(m, k, v)[i] == m[i]
  {
    if m[0].0 != k {
      assert Has(m[1..], k) by {
        var i :| 0 <= i < |m| && m[i].0 == k;
        assert m[1..][i - 1].0 == k;
      }
      PutOld(m[1..], k, v);
    }
  }

  lemma {:induction false} PutGet<V>(m: seq<(string, V)>, k: string, v: V, q: string)
    ensures Get(Put(m, k, v), q) == if q == k then Some(v) else Get(m, q)
  {
    if m != [] && m[0].0 != k {
      PutGet(m[1..], k, v, q);
      assert Put(m, k, v)[1..] == Put(m[1..], k, v);
    } else if m != [] {
      assert Put(m, k, v)[1..] == m[1..];
    }
  }

  lemma {:induction false} PutDistinct<V>(m: seq<(string, V)>, k: string, v: V)
    requires Distinct(m)
    ensures Distinct(Put(m, k, v))
    ensures |Put(m, k, v)| == if Has(m, k) then |m| else |m| + 1
  {
    if Has(m, k) {
      PutOld(m, k, v);
    } else {
      PutNew(m, k, v);
    }
  }

  lemma {:induction false} PutHolds<V>(m: seq<(string, V)>, k: string, v: V)
    ensures forall p :: p in Put(m, k, v) ==> p in m || p == (k, v)
  {
    if m != [] && m[0].0 != k {
      PutHolds(m[1..], k, v);
    }
  }
}
