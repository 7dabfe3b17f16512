/** Plain JavaScript data: arrays and objects over some kind of leaf. */
module JsTree {
  import opened OrderedMap

  /** An object is the sequence of its own enumerable properties in enumeration order. */
  datatype Tree<L> =
    | Leaf(leaf: L)
    | Arr(items: seq<Tree<L>>)
    | Obj(fields: seq<(string, Tree<L>)>)

  /** No object, at any depth, has two properties of the same name. */
  ghost predicate WellFormed<L>(t: Tree<L>) {
    match t
    case Leaf(_) => true
    case Arr(xs) => forall i :: 0 <= i < |xs| ==> WellFormed(xs[i])
    case Obj(fs) => Distinct(fs) && forall i :: 0 <= i < |fs| ==> WellFormed(fs[i].1)
  }

  /** The name whose assignment sets the prototype instead of creating a property. */
  const PROTO := "__proto__"

  /** `result[k] = v` on a plain object. */
  function Assign<V>(m: seq<(string, V)>, k: string, v: V): seq<(string, V)> {
    if k == PROTO then m else Put(m, k, v)
  }

  /** These assignments in order, on an empty object. */
  function AssignAll<V>(ps: seq<(string, V)>): seq<(string, V)> {
    if ps == [] then []
    else Assign(AssignAll(ps[..|ps| - 1]), ps[|ps| - 1].0, ps[|ps| - 1].1)
  }

  lemma AssignAllNext<V>(ps: seq<(string, V)>, i: nat)
    requires i < |ps|
    ensures AssignAll(ps[..i + 1]) == Assign(AssignAll(ps[..i]), ps[i].0, ps[i].1)
  {
    assert ps[..i + 1][..i] == ps[..i];
  }

  /** The properties but `__proto__`. */
  function WithoutProto<V>(ps: seq<(string, V)>): seq<(string, V)> {
    if ps == [] then []
    else
      var rest, last := WithoutProto(ps[..|ps| - 1]), ps[|ps| - 1];
      if last.0 == PROTO then rest else rest + [last]
  }

  lemma {:induction false} WithoutProtoHolds<V>(ps: seq<(string, V)>)
    ensures |WithoutProto(ps)| <= |ps|
    ensures forall k :: Has(WithoutProto(ps), k) ==> Has(ps, k)
    ensures WithoutProto(ps) == ps <==> !Has(ps, PROTO)
    ensures Has(ps, PROTO) ==> |WithoutProto(ps)| < |ps|
  {
    if ps != [] {
      var front, last := ps[..|ps| - 1], ps[|ps| - 1];
      assert ps == front + [last];
      WithoutProtoHolds(front);
      HasSnoc(front, last);
      HasSnoc(WithoutProto(front), last);
    }
  }

  /** What is assigned under different names is all there, in order, but for what `__proto__` takes. */
  lemma {:induction false} AssignAllHolds<V>(ps: seq<(string, V)>)
    requires Distinct(ps)
    ensures AssignAll(ps) == WithoutProto(ps)
  {
    if ps != [] {
      var front, last := ps[..|ps| - 1], ps[|ps| - 1];
      AssignAllHolds(front);
      WithoutProtoHolds(front);
      assert !Has(front, last.0);
      PutNew(AssignAll(front), last.0, last.1);
    }
  }

  lemma HasSnoc<V>(m: seq<(string, V)>, p: (string, V))
    ensures forall k :: Has(m + [p], k) <==> Has(m, k) || k == p.0
  {
    forall k ensures Has(m + [p], k) <==> Has(m, k) || k == p.0 {
      if Has(m, k) {
        var i :| 0 <= i < |m| && m[i].0 == k;
        assert (m + [p])[i].0 == k;
      }
      assert (m + [p])[|m|].0 == p.0;
    }
  }
}
