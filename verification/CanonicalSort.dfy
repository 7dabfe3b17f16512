/** `sortObject`: the key order of canonical JSON. */
module CanonicalSort {
  import opened OrderedMap
  import opened JsTree

  // ---------- the order of Array.prototype.sort on strings ----------

  /** Where a character stands among the others when strings are compared by UTF-16 code units:
      the supplementary planes, written with surrogates D800-DFFF, come before U+E000-U+FFFF. */
  function Rank(c: char): nat {
    if 0xE000 <= c as int <= 0xFFFF then c as int + 0x11_0000 else c as int
  }

  predicate Less(a: string, b: string) {
    if b == [] then false
    else if a == [] then true
    else if a[0] == b[0] then Less(a[1..], b[1..])
    else Rank(a[0]) < Rank(b[0])
  }

  /** The UTF-16 code units of a string. */
  function Units(s: string): seq<nat> {
    if s == [] then [] else UnitsOf(s[0]) + Units(s[1..])
  }

  function UnitsOf(c: char): seq<nat> {
    var n := c as int;
    if n < 0x1_0000 then [n]
    else [0xD800 + (n - 0x1_0000) / 0x400, 0xDC00 + (n - 0x1_0000) % 0x400]
  }

  predicate LessUnits(a: seq<nat>, b: seq<nat>) {
    if b == [] then false
    else if a == [] then true
    else if a[0] == b[0] then LessUnits(a[1..], b[1..])
    else a[0] < b[0]
  }

  lemma {:induction false} LessUnitsCommon(p: seq<nat>, a: seq<nat>, b: seq<nat>)
    ensures LessUnits(p + a, p + b) <==> LessUnits(a, b)
  {
    if p == [] {
      assert p + a == a && p + b == b;
    } else {
      assert (p + a)[1..] == p[1..] + a && (p + b)[1..] == p[1..] + b;
      LessUnitsCommon(p[1..], a, b);
    }
  }

  /** `Less` is the comparison of UTF-16 code units that JavaScript sorts by. */
  lemma {:induction false} LessIsCodeUnitOrder(a: string, b: string)
    ensures Less(a, b) <==> LessUnits(Units(a), Units(b))
  {
    if a != [] && b != [] {
      if a[0] == b[0] {
        LessIsCodeUnitOrder(a[1..], b[1..]);
        LessUnitsCommon(UnitsOf(a[0]), Units(a[1..]), Units(b[1..]));
      } else {
        var u, v := Units(a), Units(b);
        assert u[0] == UnitsOf(a[0])[0] && v[0] == UnitsOf(b[0])[0];
        if u[0] == v[0] {
          assert u[1] == UnitsOf(a[0])[1] && v[1] == UnitsOf(b[0])[1];
        }
      }
    }
  }

  /** It is not code point order: a character of a supplementary plane comes before U+E000. */
  lemma NotCodePointOrder()
    ensures Less("\U{1F600}", "\U{E000}") && "\U{E000}"[0] < "\U{1F600}"[0]
  {
    assert Rank('\U{1F600}') < Rank('\U{E000}');
  }

  lemma {:induction false} LessTotal(a: string, b: string)
    ensures Less(a, b) || a == b || Less(b, a)
    ensures Less(a, b) ==> a != b && !Less(b, a)
  {
    if a != [] && b != [] {
      if a[0] == b[0] {
        LessTotal(a[1..], b[1..]);
        assert a == [a[0]] + a[1..] && b == [b[0]] + b[1..];
      } else {
        assert Rank(a[0]) != Rank(b[0]);
      }
    }
  }

  lemma {:induction false} LessTransitive(a: string, b: string, c: string)
    requires Less(a, b) && Less(b, c)
    ensures Less(a, c)
  {
    if a != [] && a[0] == b[0] == c[0] {
      LessTransitive(a[1..], b[1..], c[1..]);
    }
  }

  ghost predicate Ascending(ks: seq<string>) {
    forall i, j :: 0 <= i < j < |ks| ==> Less(ks[i], ks[j])
  }

  // ---------- Object.keys(obj).sort() ----------

  function InsertKey(k: string, ks: seq<string>): seq<string> {
    if ks == [] then [k]
    else if Less(ks[0], k) then [ks[0]] + InsertKey(k, ks[1..])
    else [k] + ks
  }

  function SortKeys(ks: seq<string>): seq<string> {
    if ks == [] then [] else InsertKey(ks[0], SortKeys(ks[1..]))
  }

  lemma {:induction false} InsertKeyAscends(k: string, ks: seq<string>)
    requires Ascending(ks) && k !in ks
    ensures Ascending(InsertKey(k, ks))
    ensures forall q :: q in InsertKey(k, ks) <==> q == k || q in ks
  {
    if ks != [] {
      LessTotal(ks[0], k);
      if Less(ks[0], k) {
        InsertKeyAscends(k, ks[1..]);
        var r := InsertKey(k, ks[1..]);
        forall j | 0 <= j < |r| ensures Less(ks[0], r[j]) {
          assert r[j] in r;
        }
        assert ks == [ks[0]] + ks[1..];
      } else {
        forall j | 0 <= j < |ks| ensures Less(k, ks[j]) {
          if j > 0 { LessTransitive(k, ks[0], ks[j]); }
        }
      }
    }
  }

  lemma {:induction false} SortKeysAscends(ks: seq<string>)
    requires forall i, j :: 0 <= i < j < |ks| ==> ks[i] != ks[j]
    ensures Ascending(SortKeys(ks))
    ensures forall q :: q in SortKeys(ks) <==> q in ks
  {
    if ks != [] {
      SortKeysAscends(ks[1..]);
      assert ks == [ks[0]] + ks[1..];
      assert ks[0] !in ks[1..];
      InsertKeyAscends(ks[0], SortKeys(ks[1..]));
    }
  }

  // ---------- sortObject ----------

  /** The object built by assigning, in the order of ks, the values m holds. */
  function Collect<V>(ks: seq<string>, m: seq<(string, V)>): seq<(string, V)>
    requires forall k :: k in ks ==> Has(m, k)
  {
    if ks == [] then []
    else
      var k := ks[|ks| - 1];
      Assign(Collect(ks[..|ks| - 1], m), k, Get(m, k).value)
  }

  function SortFields<V>(m: seq<(string, V)>): seq<(string, V)> {
    var ks := SortKeys(KeysOf(m));
    SortKeysSubset(KeysOf(m));
    Collect(ks, m)
  }

  function SortObject<L>(t: Tree<L>): Tree<L> {
    match t
    case Leaf(_) => t
    case Arr(xs) => Arr(seq(|xs|, i requires 0 <= i < |xs| => SortObject(xs[i])))
    case Obj(fs) =>
      Obj(SortFields(seq(|fs|, i requires 0 <= i < |fs| => (fs[i].0, SortObject(fs[i].1)))))
  }

  ghost function SortValues<L>(fs: seq<(string, Tree<L>)>): (m: seq<(string, Tree<L>)>)
    ensures |m| == |fs|
    ensures forall i :: 0 <= i < |fs| ==> m[i] == (fs[i].0, SortObject(fs[i].1))
  {
    seq(|fs|, i requires 0 <= i < |fs| => (fs[i].0, SortObject(fs[i].1)))
  }

  lemma {:induction false} InsertKeySubset(k: string, ks: seq<string>)
    ensures forall q :: q in InsertKey(k, ks) ==> q == k || q in ks
  {
    if ks != [] && Less(ks[0], k) {
      InsertKeySubset(k, ks[1..]);
    }
  }

  lemma {:induction false} SortKeysSubset(ks: seq<string>)
    ensures forall q :: q in SortKeys(ks) ==> q in ks
  {
    if ks != [] {
      SortKeysSubset(ks[1..]);
      InsertKeySubset(ks[0], SortKeys(ks[1..]));
    }
  }

  method SortTree<L>(t: Tree<L>) returns (r: Tree<L>)
    ensures r == SortObject(t)
    decreases t, 1
  {
    match t
    case Leaf(_) =>
      r := t;
    case Arr(xs) =>
      var items := [];
      for i := 0 to |xs|
        invariant |items| == i
        invariant forall j :: 0 <= j < i ==> items[j] == SortObject(xs[j])
      {
        var x := SortTree(xs[i]);
        items := items + [x];
      }
      r := Arr(items);
    case Obj(fs) =>
      r := SortProperties(t, fs);
  }

  /** The loop of `sortObject`. */
  method SortProperties<L>(ghost owner: Tree<L>, fs: seq<(string, Tree<L>)>) returns (r: Tree<L>)
    requires owner == Obj(fs)
    ensures r == SortObject(owner)
    decreases owner, 0
  {
    var keys := SortKeys(KeysOf(fs));
    ghost var m := SortValues(fs);
    SortedKeys(fs);
    var sorted := [];
    for i := 0 to |keys|
      invariant sorted == Collect(keys[..i], m)
    {
      var key := keys[i];
      assert key in keys;
      GetSorted(fs, key);
      FieldSmaller(fs, key);
      var v := SortTree(Get(fs, key).value);
      CollectNext(keys, m, i);
      sorted := Assign(sorted, key, v);
    }
    assert keys[..|keys|] == keys;
    assert SortValues(fs) == seq(|fs|, i requires 0 <= i < |fs| => (fs[i].0, SortObject(fs[i].1)));
    r := Obj(sorted);
  }

  lemma SortedKeys<L>(fs: seq<(string, Tree<L>)>)
    ensures KeysOf(SortValues(fs)) == KeysOf(fs)
    ensures forall k :: k in SortKeys(KeysOf(fs)) ==> Has(fs, k) && Has(SortValues(fs), k)
  {
    var m := SortValues(fs);
    assert KeysOf(m) == KeysOf(fs);
    SortKeysSubset(KeysOf(fs));
    forall k | k in KeysOf(fs) ensures Has(fs, k) && Has(m, k) {
      var i :| 0 <= i < |fs| && KeysOf(fs)[i] == k;
      assert fs[i].0 == k && m[i].0 == k;
    }
  }

  lemma CollectNext<V>(ks: seq<string>, m: seq<(string, V)>, i: nat)
    requires i < |ks| && forall k :: k in ks ==> Has(m, k)
    ensures Collect(ks[..i + 1], m) == Assign(Collect(ks[..i], m), ks[i], Get(m, ks[i]).value)
  {
    assert ks[..i + 1][..i] == ks[..i];
  }

  lemma FieldSmaller<L>(fs: seq<(string, Tree<L>)>, k: string)
    requires Has(fs, k)
    ensures Get(fs, k).value < Obj(fs)
  {
    var i := IndexOf(fs, k);
    assert fs[i].1 < Obj(fs);
  }

  lemma GetSorted<L>(fs: seq<(string, Tree<L>)>, k: string)
    ensures Has(SortValues(fs), k) <==> Has(fs, k)
    ensures Has(fs, k) ==> Get(SortValues(fs), k).value == SortObject(Get(fs, k).value)
  {
    var m := SortValues(fs);
    if Has(fs, k) {
      var i := IndexOf(fs, k);
      assert m[i].0 == k;
      GetFirst(m, i);
    }
  }

  // ---------- what the sorted fields hold ----------

  lemma {:induction false} CollectHolds<V>(ks: seq<string>, m: seq<(string, V)>)
    requires forall k :: k in ks ==> Has(m, k)
    ensures forall q :: Get(Collect(ks, m), q) == if q in ks && q != PROTO then Get(m, q) else None
  {
    if ks != [] {
      var n := |ks| - 1;
      var r := Collect(ks[..n], m);
      CollectHolds(ks[..n], m);
      assert ks == ks[..n] + [ks[n]];
      forall q ensures Get(Collect(ks, m), q) == if q in ks && q != PROTO then Get(m, q) else None {
        PutGet(r, ks[n], Get(m, ks[n]).value, q);
      }
    }
  }

  lemma {:induction false} CollectAscends<V>(ks: seq<string>, m: seq<(string, V)>)
    requires forall k :: k in ks ==> Has(m, k)
    requires Ascending(ks)
    ensures Ascending(KeysOf(Collect(ks, m)))
    ensures forall k :: k in KeysOf(Collect(ks, m)) ==> k in ks
  {
    if ks != [] {
      var n := |ks| - 1;
      var r := Collect(ks[..n], m);
      CollectAscends(ks[..n], m);
      LessTotal(ks[n], ks[n]);
      forall i | 0 <= i < |r| ensures Less(r[i].0, ks[n]) {
        assert r[i].0 in KeysOf(r);
      }
      PutNew(r, ks[n], Get(m, ks[n]).value);
      assert ks == ks[..n] + [ks[n]];
      assert ks[n] != PROTO ==> KeysOf(Collect(ks, m)) == KeysOf(r) + [ks[n]];
    }
  }

  /** `SortFields` keeps every property but `__proto__`, and lists them in ascending key order. */
  lemma SortFieldsHolds<V>(m: seq<(string, V)>)
    requires Distinct(m)
    ensures Ascending(KeysOf(SortFields(m)))
    ensures forall q :: Get(SortFields(m), q) == if q == PROTO then None else Get(m, q)
  {
    var ks := SortKeys(KeysOf(m));
    SortKeysSubset(KeysOf(m));
    SortKeysAscends(KeysOf(m));
    CollectHolds(ks, m);
    CollectAscends(ks, m);
    forall q ensures q in ks <==> Has(m, q) {
      assert q in KeysOf(m) <==> Has(m, q);
    }
  }

  /** A list of entries in ascending key order is determined by its lookups. */
  lemma {:induction false} AscendingUnique<V>(m: seq<(string, V)>, n: seq<(string, V)>)
    requires Ascending(KeysOf(m)) && Ascending(KeysOf(n))
    requires forall q :: Get(m, q) == Get(n, q)
    ensures m == n
  {
    assert n != [] ==> Get(n, n[0].0).Some? && Get(m, n[0].0).Some?;
    assert m != [] ==> Get(m, m[0].0).Some? && Get(n, m[0].0).Some?;
    if m != [] {
      var i := IndexOf(n, m[0].0);
      assert Get(m, m[0].0) == Get(n, m[0].0);
      var j := IndexOf(m, n[0].0);
      if i > 0 && j > 0 {
        assert Less(KeysOf(n)[0], KeysOf(n)[i]) && Less(KeysOf(m)[0], KeysOf(m)[j]);
        LessTotal(m[0].0, n[0].0);
        assert false;
      }
      assert m[0] == n[0];
      AscendingTail(m);
      AscendingTail(n);
      forall q ensures Get(m[1..], q) == Get(n[1..], q) {
        assert Get(m, q) == Get(n, q);
      }
      AscendingUnique(m[1..], n[1..]);
    }
  }

  lemma AscendingTail<V>(m: seq<(string, V)>)
    requires m != [] && Ascending(KeysOf(m))
    ensures Ascending(KeysOf(m[1..]))
    ensures Get(m[1..], m[0].0) == None
  {
    assert KeysOf(m[1..]) == KeysOf(m)[1..];
    forall i | 0 <= i < |m[1..]| ensures m[1..][i].0 != m[0].0 {
      assert Less(KeysOf(m)[0], KeysOf(m)[i + 1]);
      LessTotal(m[0].0, m[i + 1].0);
    }
  }

  // ---------- canonical form ----------

  /** Equal as trees whose keys have no order, `__proto__` properties aside. */
  ghost predicate SameData<L>(a: Tree<L>, b: Tree<L>) {
    match (a, b)
    case (Leaf(x), Leaf(y)) => x == y
    case (Arr(xs), Arr(ys)) => |xs| == |ys| && forall i :: 0 <= i < |xs| ==> SameData(xs[i], ys[i])
    case (Obj(fs), Obj(gs)) =>
      && (forall k :: k != PROTO ==> (Has(fs, k) <==> Has(gs, k)))
      && (forall i, j :: 0 <= i < |fs| && 0 <= j < |gs| && fs[i].0 == gs[j].0 != PROTO ==> SameData(fs[i].1, gs[j].1))
    case _ => false
  }

  /** Objects that list the same keys in the same order hold the same data when their values do. */
  lemma SameDataAligned<L>(fs: seq<(string, Tree<L>)>, gs: seq<(string, Tree<L>)>)
    requires |fs| == |gs| && Distinct(fs)
    requires forall i :: 0 <= i < |fs| ==> fs[i].0 == gs[i].0 != PROTO
    ensures SameData(Obj(fs), Obj(gs)) <==> forall i :: 0 <= i < |fs| ==> SameData(fs[i].1, gs[i].1)
  {
    forall k ensures Has(fs, k) <==> Has(gs, k) {
      if Has(fs, k) { assert gs[IndexOf(fs, k)].0 == k; }
      if Has(gs, k) { assert fs[IndexOf(gs, k)].0 == k; }
    }
    if SameData(Obj(fs), Obj(gs)) {
      forall i | 0 <= i < |fs| ensures SameData(fs[i].1, gs[i].1) {
        assert fs[i].0 == gs[i].0 != PROTO;
      }
    }
    if forall i :: 0 <= i < |fs| ==> SameData(fs[i].1, gs[i].1) {
      forall i, j | 0 <= i < |fs| && 0 <= j < |gs| && fs[i].0 == gs[j].0 != PROTO
        ensures SameData(fs[i].1, gs[j].1)
      {
        assert fs[i].0 == fs[j].0;
      }
    }
  }

  lemma GetDistinct<V>(m: seq<(string, V)>, i: nat)
    requires Distinct(m) && i < |m|
    ensures Get(m, m[i].0) == Some(m[i].1)
  {
    GetFirst(m, i);
  }

  /** Two trees sort to the same tree exactly when they hold the same data. */
  lemma {:induction false} SortObjectCanonical<L>(a: Tree<L>, b: Tree<L>)
    requires WellFormed(a) && WellFormed(b)
    ensures SortObject(a) == SortObject(b) <==> SameData(a, b)
  {
    match (a, b) {
      case (Arr(xs), Arr(ys)) =>
        forall i | 0 <= i < |xs| == |ys| ensures SortObject(xs[i]) == SortObject(ys[i]) <==> SameData(xs[i], ys[i]) {
          SortObjectCanonical(xs[i], ys[i]);
        }
        if SortObject(a) == SortObject(b) {
          assert SortObject(a).items == SortObject(b).items;
          forall i | 0 <= i < |xs| ensures SameData(xs[i], ys[i]) {
            assert SortObject(a).items[i] == SortObject(b).items[i];
          }
        }
      case (Obj(fs), Obj(gs)) =>
        forall i, j | 0 <= i < |fs| && 0 <= j < |gs|
          ensures SortObject(fs[i].1) == SortObject(gs[j].1) <==> SameData(fs[i].1, gs[j].1)
        {
          SortObjectCanonical(fs[i].1, gs[j].1);
        }
        SortObjectCanonicalFields(fs, gs);
      case _ =>
    }
  }

  lemma SortedFields<L>(fs: seq<(string, Tree<L>)>)
    requires Distinct(fs)
    ensures SortObject(Obj(fs)) == Obj(SortFields(SortValues(fs)))
    ensures Ascending(KeysOf(SortFields(SortValues(fs))))
    ensures forall q :: Get(SortFields(SortValues(fs)), q) ==
                        if q == PROTO || !Has(fs, q) then None else Some(SortObject(Get(fs, q).value))
  {
    var m := SortValues(fs);
    assert m == seq(|fs|, i requires 0 <= i < |fs| => (fs[i].0, SortObject(fs[i].1)));
    SortFieldsHolds(m);
    forall q ensures Get(SortFields(m), q) ==
                     if q == PROTO || !Has(fs, q) then None else Some(SortObject(Get(fs, q).value)) {
      GetSorted(fs, q);
    }
  }

  lemma SortObjectCanonicalFields<L>(fs: seq<(string, Tree<L>)>, gs: seq<(string, Tree<L>)>)
    requires Distinct(fs) && Distinct(gs)
    requires forall i, j :: 0 <= i < |fs| && 0 <= j < |gs| ==>
                              (SortObject(fs[i].1) == SortObject(gs[j].1) <==> SameData(fs[i].1, gs[j].1))
    ensures SortObject(Obj(fs)) == SortObject(Obj(gs)) <==> SameData(Obj(fs), Obj(gs))
  {
    SortedFields(fs);
    SortedFields(gs);
    var m, n := SortFields(SortValues(fs)), SortFields(SortValues(gs));
    if m == n {
      forall k | k != PROTO ensures Has(fs, k) <==> Has(gs, k) {
        assert Get(m, k) == Get(n, k);
      }
      forall i, j | 0 <= i < |fs| && 0 <= j < |gs| && fs[i].0 == gs[j].0 != PROTO
        ensures SameData(fs[i].1, gs[j].1)
      {
        GetDistinct(fs, i);
        GetDistinct(gs, j);
        assert Get(m, fs[i].0) == Get(n, gs[j].0);
      }
    }
    if SameData(Obj(fs), Obj(gs)) {
      forall q ensures Get(m, q) == Get(n, q) {
        if q != PROTO && Has(fs, q) {
          var i, j := IndexOf(fs, q), IndexOf(gs, q);
          assert SameData(fs[i].1, gs[j].1);
        }
      }
      AscendingUnique(m, n);
    }
  }

  /** Keys ascend at every depth and no property is called `__proto__`. */
  ghost predicate SortedDeep<L>(t: Tree<L>) {
    match t
    case Leaf(_) => true
    case Arr(xs) => forall i :: 0 <= i < |xs| ==> SortedDeep(xs[i])
    case Obj(fs) =>
      && Ascending(KeysOf(fs))
      && forall i :: 0 <= i < |fs| ==> fs[i].0 != PROTO && SortedDeep(fs[i].1)
  }

  /** Sorting orders the keys at every depth and loses no data. */
  lemma {:induction false} SortObjectSorts<L>(t: Tree<L>)
    requires WellFormed(t)
    ensures SortedDeep(SortObject(t)) && SameData(SortObject(t), t)
  {
    match t
    case Leaf(_) =>
    case Arr(xs) =>
      forall i | 0 <= i < |xs| ensures SortedDeep(SortObject(xs[i])) && SameData(SortObject(xs[i]), xs[i]) {
        SortObjectSorts(xs[i]);
      }
    case Obj(fs) =>
      SortedFields(fs);
      var m := SortFields(SortValues(fs));
      AscendingDistinct(m);
      forall i | 0 <= i < |m|
        ensures m[i].0 != PROTO && SortedDeep(m[i].1)
        ensures forall j :: 0 <= j < |fs| && fs[j].0 == m[i].0 ==> SameData(m[i].1, fs[j].1)
      {
        GetDistinct(m, i);
        var j := IndexOf(fs, m[i].0);
        SortObjectSorts(fs[j].1);
      }
      forall k | k != PROTO ensures Has(m, k) <==> Has(fs, k) {
        assert Get(m, k).Some? <==> Has(fs, k);
      }
  }

  lemma AscendingDistinct<V>(m: seq<(string, V)>)
    requires Ascending(KeysOf(m))
    ensures Distinct(m)
  {
    forall i, j | 0 <= i < j < |m| ensures m[i].0 != m[j].0 {
      assert Less(KeysOf(m)[i], KeysOf(m)[j]);
      LessTotal(m[i].0, m[j].0);
    }
  }

  lemma {:induction false} SortedIsWellFormed<L>(t: Tree<L>)
    requires SortedDeep(t)
    ensures WellFormed(t)
  {
    match t
    case Leaf(_) =>
    case Arr(xs) =>
      forall i | 0 <= i < |xs| ensures WellFormed(xs[i]) { SortedIsWellFormed(xs[i]); }
    case Obj(fs) =>
      AscendingDistinct(fs);
      forall i | 0 <= i < |fs| ensures WellFormed(fs[i].1) { SortedIsWellFormed(fs[i].1); }
  }

  /** The sorted trees are exactly the fixed points, so sorting again changes nothing. */
  lemma {:induction false} SortObjectFixedPoints<L>(t: Tree<L>)
    requires WellFormed(t)
    ensures SortObject(t) == t <==> SortedDeep(t)
    ensures SortObject(SortObject(t)) == SortObject(t)
  {
    SortObjectSorts(t);
    SortedIsWellFormed(SortObject(t));
    SortObjectCanonical(SortObject(t), t);
    if SortedDeep(t) {
      SortedUnique(SortObject(t), t);
    }
  }

  /** Data fixes the sorted tree. */
  lemma {:induction false} SortedUnique<L>(a: Tree<L>, b: Tree<L>)
    requires SortedDeep(a) && SortedDeep(b) && SameData(a, b)
    ensures a == b
  {
    match (a, b) {
      case (Leaf(_), Leaf(_)) =>
      case (Arr(xs), Arr(ys)) =>
        forall i | 0 <= i < |xs| ensures xs[i] == ys[i] { SortedUnique(xs[i], ys[i]); }
      case (Obj(fs), Obj(gs)) =>
        AscendingDistinct(fs);
        AscendingDistinct(gs);
        forall q ensures Get(fs, q) == Get(gs, q) {
          if Has(fs, q) {
            var i := IndexOf(fs, q);
            var j := IndexOf(gs, q);
            SortedUnique(fs[i].1, gs[j].1);
          } else if Has(gs, q) {
            var j := IndexOf(gs, q);
          }
        }
        AscendingUnique(fs, gs);
    }
  }

  /** Equal as trees whose keys have no order, nothing aside. */
  ghost predicate SameTree<L>(a: Tree<L>, b: Tree<L>) {
    match (a, b)
    case (Leaf(x), Leaf(y)) => x == y
    case (Arr(xs), Arr(ys)) => |xs| == |ys| && forall i :: 0 <= i < |xs| ==> SameTree(xs[i], ys[i])
    case (Obj(fs), Obj(gs)) =>
      && (forall k :: Has(fs, k) <==> Has(gs, k))
      && (forall i, j :: 0 <= i < |fs| && 0 <= j < |gs| && fs[i].0 == gs[j].0 ==> SameTree(fs[i].1, gs[j].1))
    case _ => false
  }

  /** Some property, at some depth, is called `__proto__`. */
  ghost predicate HasProtoKey<L>(t: Tree<L>) {
    match t
    case Leaf(_) => false
    case Arr(xs) => exists i :: 0 <= i < |xs| && HasProtoKey(xs[i])
    case Obj(fs) => exists i :: 0 <= i < |fs| && (fs[i].0 == PROTO || HasProtoKey(fs[i].1))
  }

  lemma ProtoKeyIn<L>(fs: seq<(string, Tree<L>)>)
    requires Has(fs, PROTO)
    ensures HasProtoKey(Obj(fs))
  {
    var i :| 0 <= i < |fs| && fs[i].0 == PROTO;
  }

  /** Without such properties, the same data is the same tree. */
  lemma {:induction false} SameDataIsSameTree<L>(a: Tree<L>, b: Tree<L>)
    requires !HasProtoKey(a) && !HasProtoKey(b)
    ensures SameData(a, b) <==> SameTree(a, b)
  {
    match (a, b) {
      case (Arr(xs), Arr(ys)) =>
        forall i | 0 <= i < |xs| == |ys| ensures SameData(xs[i], ys[i]) <==> SameTree(xs[i], ys[i]) {
          SameDataIsSameTree(xs[i], ys[i]);
        }
      case (Obj(fs), Obj(gs)) =>
        assert !Has(fs, PROTO) by { if Has(fs, PROTO) { ProtoKeyIn(fs); } }
        assert !Has(gs, PROTO) by { if Has(gs, PROTO) { ProtoKeyIn(gs); } }
        forall i, j | 0 <= i < |fs| && 0 <= j < |gs| ensures SameData(fs[i].1, gs[j].1) <==> SameTree(fs[i].1, gs[j].1) {
          SameDataIsSameTree(fs[i].1, gs[j].1);
        }
      case _ =>
    }
  }

  /** Equal trees have such properties both or neither. */
  lemma {:induction false} SameTreeSameProto<L>(a: Tree<L>, b: Tree<L>)
    requires SameTree(a, b) && HasProtoKey(b)
    ensures HasProtoKey(a)
  {
    match (a, b) {
      case (Arr(xs), Arr(ys)) =>
        var i :| 0 <= i < |ys| && HasProtoKey(ys[i]);
        SameTreeSameProto(xs[i], ys[i]);
      case (Obj(fs), Obj(gs)) =>
        var j :| 0 <= j < |gs| && (gs[j].0 == PROTO || HasProtoKey(gs[j].1));
        assert Has(gs, gs[j].0);
        var i :| 0 <= i < |fs| && fs[i].0 == gs[j].0;
        if gs[j].0 != PROTO {
          SameTreeSameProto(fs[i].1, gs[j].1);
        }
    }
  }

  lemma {:induction false} SortedHasNoProto<L>(t: Tree<L>)
    requires SortedDeep(t)
    ensures !HasProtoKey(t)
  {
    match t
    case Leaf(_) =>
    case Arr(xs) => forall i | 0 <= i < |xs| ensures !HasProtoKey(xs[i]) { SortedHasNoProto(xs[i]); }
    case Obj(fs) => forall i | 0 <= i < |fs| ensures !HasProtoKey(fs[i].1) { SortedHasNoProto(fs[i].1); }
  }

  /** Sorting keeps everything exactly when no property, at any depth, is called `__proto__`. */
  lemma SortKeepsExactly<L>(t: Tree<L>)
    requires WellFormed(t)
    ensures SameTree(SortObject(t), t) <==> !HasProtoKey(t)
  {
    SortObjectSorts(t);
    SortedHasNoProto(SortObject(t));
    if HasProtoKey(t) {
      if SameTree(SortObject(t), t) {
        SameTreeSameProto(SortObject(t), t);
      }
    } else {
      SameDataIsSameTree(SortObject(t), t);
    }
  }

  /** Where an own `__proto__` property is present the sorted tree does not show it: two different
      documents get the same canonical form. */
  lemma ProtoIsLost()
    ensures SortObject(Obj([(PROTO, Leaf(1)), ("a", Leaf(2))])) == SortObject(Obj([("a", Leaf(2))]))
  {
    var a, b := Obj([(PROTO, Leaf(1)), ("a", Leaf(2))]), Obj([("a", Leaf(2))]);
    assert Distinct(a.fields) && Distinct(b.fields) by { assert PROTO[0] != "a"[0]; }
    assert a.fields[0].0 == PROTO && a.fields[1].0 == "a";
    forall k | k != PROTO ensures Has(a.fields, k) <==> Has(b.fields, k) {
      assert Has(a.fields, "a") by { assert a.fields[1].0 == "a"; }
      assert Has(b.fields, "a") by { assert b.fields[0].0 == "a"; }
    }
    SortObjectCanonical(a, b);
  }
}
