/** Conversion of plain objects to Amino JSON and back. */
module Amino {
  import opened CaseConversion
  import opened Decimal
  import opened JsTree
  import opened OrderedMap

  /** A leaf value. A number, a Date and a byte array are held as the text that `toString()`,
      `toISOString()` and base64 give for them. */
  datatype Scalar =
    | Undefined
    | Null
    | Bool(b: bool)
    | Str(s: string)
    | Num(text: string)
    | BigInt(n: int)
    | Date(iso: string)
    | Bytes(base64: string)

  type Value = Tree<Scalar>
  type Fields = seq<(string, Value)>

  const UNDEFINED: Value := Leaf(Undefined)

  // ---------- valueToAmino, objectToAmino ----------

  function ScalarToAmino(x: Scalar): Scalar {
    match x
    case Undefined => Undefined
    case Null => Undefined
    case Bool(_) => x
    case Str(_) => x
    case Num(text) => Str(text)
    case BigInt(n) => Str(IntText(n))
    case Date(iso) => Str(iso)
    case Bytes(base64) => Str(base64)
  }

  function ValueToAmino(lower: string -> string, v: Value, includeEmpty: bool): Value {
    match v
    case Leaf(x) => Leaf(ScalarToAmino(x))
    case Arr(xs) =>
      if xs == [] then (if includeEmpty then Arr([]) else Leaf(Null))
      else Arr(seq(|xs|, i requires 0 <= i < |xs| => ValueToAmino(lower, xs[i], includeEmpty)))
    case Obj(fs) =>
      Obj(AminoFields(lower, seq(|fs|, i requires 0 <= i < |fs| => (fs[i].0, ValueToAmino(lower, fs[i].1, includeEmpty)))))
  }

  /** `key.startsWith('$') || key.startsWith('_')` */
  predicate IsInternal(key: string) {
    key != [] && (key[0] == '$' || key[0] == '_')
  }

  /** The fields after the loop of `objectToAmino`, given each value in its Amino form. */
  function AminoFields(lower: string -> string, m: Fields): Fields {
    if m == [] then []
    else
      var rest, (key, value) := AminoFields(lower, m[..|m| - 1]), m[|m| - 1];
      if IsInternal(key) || value == UNDEFINED then rest else Put(rest, CamelToSnake(lower, key), value)
  }

  ghost function AminoValues(lower: string -> string, fs: Fields, includeEmpty: bool): (m: Fields)
    ensures |m| == |fs| && forall i :: 0 <= i < |fs| ==> m[i] == (fs[i].0, ValueToAmino(lower, fs[i].1, includeEmpty))
  {
    seq(|fs|, i requires 0 <= i < |fs| => (fs[i].0, ValueToAmino(lower, fs[i].1, includeEmpty)))
  }

  ghost function ObjectToAmino(lower: string -> string, fs: Fields, includeEmpty: bool): Fields {
    AminoFields(lower, AminoValues(lower, fs, includeEmpty))
  }

  method ConvertValue(lower: string -> string, v: Value, includeEmpty: bool) returns (r: Value)
    ensures r == ValueToAmino(lower, v, includeEmpty)
    decreases v, 1
  {
    match v
    case Leaf(x) =>
      r := Leaf(ScalarToAmino(x));
    case Arr(xs) =>
      if xs == [] {
        return if includeEmpty then Arr([]) else Leaf(Null);
      }
      var items := [];
      for i := 0 to |xs|
        invariant |items| == i
        invariant forall j :: 0 <= j < i ==> items[j] == ValueToAmino(lower, xs[j], includeEmpty)
      {
        var x := ConvertValue(lower, xs[i], includeEmpty);
        items := items + [x];
      }
      r := Arr(items);
    case Obj(fs) =>
      var result := ConvertObject(lower, v, fs, includeEmpty);
      assert AminoValues(lower, fs, includeEmpty) ==
             seq(|fs|, i requires 0 <= i < |fs| => (fs[i].0, ValueToAmino(lower, fs[i].1, includeEmpty)));
      r := Obj(result);
  }

  /** The loop of `objectToAmino`. */
  method ConvertObject(lower: string -> string, ghost owner: Value, fs: Fields, includeEmpty: bool) returns (result: Fields)
    requires owner == Obj(fs)
    ensures result == ObjectToAmino(lower, fs, includeEmpty)
    decreases owner, 0
  {
    ghost var m := AminoValues(lower, fs, includeEmpty);
    result := [];
    for i := 0 to |fs|
      invariant result == AminoFields(lower, m[..i])
    {
      var (key, value) := fs[i];
      assert m[..i + 1][..i] == m[..i];
      assert value < owner by { assert value == owner.fields[i].1; }
      if !IsInternal(key) {
        var aminoValue := ConvertValue(lower, value, includeEmpty);
        if aminoValue != UNDEFINED {
          result := Put(result, CamelToSnake(lower, key), aminoValue);
        }
      }
    }
    assert m[..|fs|] == m;
  }

  // ---------- snakeToCamelObject ----------

  /** What JSON can hold, with the `undefined` an array may carry. */
  ghost predicate IsJson(v: Value) {
    match v
    case Leaf(x) => x.Undefined? || x.Null? || x.Bool? || x.Str? || x.Num?
    case Arr(xs) => forall i :: 0 <= i < |xs| ==> IsJson(xs[i])
    case Obj(fs) => forall i :: 0 <= i < |fs| ==> IsJson(fs[i].1)
  }

  /** `aminoValueToProto` */
  function LeafToProto(x: Scalar): Value {
    if x == Null then Arr([]) else Leaf(x)
  }

  /** A field value on the way back; only objects and the elements of arrays are descended into. */
  function FieldToProto(v: Value): Value {
    match v
    case Leaf(x) => LeafToProto(x)
    case Arr(xs) => Arr(seq(|xs|, i requires 0 <= i < |xs| => ElementToProto(xs[i])))
    case Obj(fs) => Obj(ProtoFields(seq(|fs|, i requires 0 <= i < |fs| => (fs[i].0, FieldToProto(fs[i].1)))))
  }

  /** An array element on the way back. An array inside an array is read as an object whose keys
      are its indices, because only `typeof v === 'object'` is asked. */
  function ElementToProto(v: Value): Value {
    match v
    case Leaf(x) => LeafToProto(x)
    case Arr(xs) => Obj(ProtoFields(seq(|xs|, i requires 0 <= i < |xs| => (NatText(i), FieldToProto(xs[i])))))
    case Obj(fs) => Obj(ProtoFields(seq(|fs|, i requires 0 <= i < |fs| => (fs[i].0, FieldToProto(fs[i].1)))))
  }

  /** The fields after the loop of `snakeToCamelObject`, given each value converted. */
  function ProtoFields(m: Fields): Fields {
    if m == [] then []
    else
      var rest, (key, value) := ProtoFields(m[..|m| - 1]), m[|m| - 1];
      Assign(rest, SnakeToCamel(key), value)
  }

  ghost function ProtoValues(fs: Fields): (m: Fields)
    ensures |m| == |fs| && forall i :: 0 <= i < |fs| ==> m[i] == (fs[i].0, FieldToProto(fs[i].1))
  {
    seq(|fs|, i requires 0 <= i < |fs| => (fs[i].0, FieldToProto(fs[i].1)))
  }

  ghost function SnakeToCamelObject(fs: Fields): Fields {
    ProtoFields(ProtoValues(fs))
  }

  method ConvertBackField(v: Value) returns (r: Value)
    requires IsJson(v)
    ensures r == FieldToProto(v)
    decreases v, 2
  {
    match v
    case Leaf(x) =>
      r := LeafToProto(x);
    case Arr(xs) =>
      var items := [];
      for i := 0 to |xs|
        invariant |items| == i
        invariant forall j :: 0 <= j < i ==> items[j] == ElementToProto(xs[j])
      {
        var x := ConvertBackElement(xs[i]);
        items := items + [x];
      }
      r := Arr(items);
    case Obj(fs) =>
      var result := ConvertBackObject(v, fs);
      assert ProtoValues(fs) == seq(|fs|, i requires 0 <= i < |fs| => (fs[i].0, FieldToProto(fs[i].1)));
      r := Obj(result);
  }

  method ConvertBackElement(v: Value) returns (r: Value)
    requires IsJson(v)
    ensures r == ElementToProto(v)
    decreases v, 1
  {
    match v
    case Leaf(x) =>
      r := LeafToProto(x);
    case Arr(xs) =>
      ghost var m: Fields := seq(|xs|, i requires 0 <= i < |xs| => (NatText(i), FieldToProto(xs[i])));
      var result := [];
      for i := 0 to |xs|
        invariant result == ProtoFields(m[..i])
      {
        var value := ConvertBackField(xs[i]);
        assert m[..i + 1][..i] == m[..i];
        result := Assign(result, SnakeToCamel(NatText(i)), value);
      }
      assert m[..|xs|] == m;
      r := Obj(result);
    case Obj(fs) =>
      var result := ConvertBackObject(v, fs);
      assert ProtoValues(fs) == seq(|fs|, i requires 0 <= i < |fs| => (fs[i].0, FieldToProto(fs[i].1)));
      r := Obj(result);
  }

  /** The loop of `snakeToCamelObject`. */
  method ConvertBackObject(ghost owner: Value, fs: Fields) returns (result: Fields)
    requires owner == Obj(fs) && IsJson(owner)
    ensures result == SnakeToCamelObject(fs)
    decreases owner, 0
  {
    ghost var m := ProtoValues(fs);
    result := [];
    for i := 0 to |fs|
      invariant result == ProtoFields(m[..i])
    {
      var (key, value) := fs[i];
      assert m[..i + 1][..i] == m[..i];
      assert value < owner by { assert value == owner.fields[i].1; }
      var camelValue := ConvertBackField(value);
      result := Assign(result, SnakeToCamel(key), camelValue);
    }
    assert m[..|fs|] == m;
  }

  /** Amino values are JSON, so they may be converted back. */
  lemma {:induction false} AminoIsJson(lower: string -> string, v: Value, includeEmpty: bool)
    ensures IsJson(ValueToAmino(lower, v, includeEmpty))
  {
    match v
    case Leaf(_) =>
    case Arr(xs) =>
      forall i | 0 <= i < |xs| ensures IsJson(ValueToAmino(lower, xs[i], includeEmpty)) {
        AminoIsJson(lower, xs[i], includeEmpty);
      }
    case Obj(fs) =>
      var m := AminoValues(lower, fs, includeEmpty);
      assert m == seq(|fs|, i requires 0 <= i < |fs| => (fs[i].0, ValueToAmino(lower, fs[i].1, includeEmpty)));
      forall i | 0 <= i < |fs| ensures IsJson(m[i].1) {
        AminoIsJson(lower, fs[i].1, includeEmpty);
      }
      AminoFieldsAreJson(lower, m);
  }

  lemma {:induction false} AminoFieldsAreJson(lower: string -> string, m: Fields)
    requires forall i :: 0 <= i < |m| ==> IsJson(m[i].1)
    ensures forall i :: 0 <= i < |AminoFields(lower, m)| ==> IsJson(AminoFields(lower, m)[i].1)
  {
    if m != [] {
      var rest, last := AminoFields(lower, m[..|m| - 1]), m[|m| - 1];
      AminoFieldsAreJson(lower, m[..|m| - 1]);
      PutHolds(rest, CamelToSnake(lower, last.0), last.1);
      forall i | 0 <= i < |AminoFields(lower, m)| ensures IsJson(AminoFields(lower, m)[i].1) {
        assert AminoFields(lower, m)[i] in AminoFields(lower, m);
      }
    }
  }

  // ---------- the round trip ----------

  /** The values that come back unchanged as a property. */
  ghost predicate Reversible(lower: string -> string, v: Value, includeEmpty: bool) {
    match v
    case Leaf(x) => x.Bool? || x.Str?
    case Arr(xs) => forall i :: 0 <= i < |xs| ==> ReversibleElement(lower, xs[i], includeEmpty)
    case Obj(fs) => forall i :: 0 <= i < |fs| ==> ReversibleKey(lower, fs[i].0) && Reversible(lower, fs[i].1, includeEmpty)
  }

  /** The values that come back unchanged as an array element: an inner array only when empty. */
  ghost predicate ReversibleElement(lower: string -> string, v: Value, includeEmpty: bool) {
    match v
    case Leaf(x) => x.Bool? || x.Str? || x.Undefined?
    case Arr(xs) => xs == [] && !includeEmpty
    case Obj(fs) => forall i :: 0 <= i < |fs| ==> ReversibleKey(lower, fs[i].0) && Reversible(lower, fs[i].1, includeEmpty)
  }

  ghost predicate ReversibleKey(lower: string -> string, k: string) {
    !IsInternal(k) && CamelName(lower, k)
  }

  /** As many properties out as in means that none was dropped or merged: each is where it was. */
  ghost predicate Kept(out: Fields, m: Fields, name: string -> string, keep: ((string, Value)) -> bool) {
    && |out| <= |m|
    && (|out| == |m| ==> forall i :: 0 <= i < |m| ==> keep(m[i]) && out[i] == (name(m[i].0), m[i].1))
  }

  lemma KeptNext(out: Fields, m: Fields, name: string -> string, keep: ((string, Value)) -> bool, last: (string, Value))
    requires Kept(out, m, name, keep)
    ensures Kept(out, m + [last], name, keep)
    ensures keep(last) ==> Kept(Put(out, name(last.0), last.1), m + [last], name, keep)
  {
    var k := name(last.0);
    if Has(out, k) {
      PutOld(out, k, last.1);
    } else {
      PutNew(out, k, last.1);
    }
  }

  ghost function SnakeNames(lower: string -> string): string -> string {
    k => CamelToSnake(lower, k)
  }

  /** What `objectToAmino` does not skip. */
  predicate Survives(p: (string, Value)) {
    !IsInternal(p.0) && p.1 != UNDEFINED
  }

  lemma {:induction false} AminoFieldsKept(lower: string -> string, m: Fields)
    ensures Kept(AminoFields(lower, m), m, SnakeNames(lower), Survives)
  {
    if m != [] {
      var front, last := m[..|m| - 1], m[|m| - 1];
      AminoFieldsKept(lower, front);
      KeptNext(AminoFields(lower, front), front, SnakeNames(lower), Survives, last);
      assert m == front + [last];
    }
  }

  lemma {:induction false} AminoFieldsAll(lower: string -> string, m: Fields)
    requires forall i :: 0 <= i < |m| ==> !IsInternal(m[i].0) && m[i].1 != UNDEFINED
    requires forall i, j :: 0 <= i < j < |m| ==> CamelToSnake(lower, m[i].0) != CamelToSnake(lower, m[j].0)
    ensures |AminoFields(lower, m)| == |m|
  {
    if m != [] {
      var front, last := m[..|m| - 1], m[|m| - 1];
      AminoFieldsAll(lower, front);
      AminoFieldsKept(lower, front);
      PutNew(AminoFields(lower, front), CamelToSnake(lower, last.0), last.1);
    }
  }

  lemma {:induction false} ProtoFieldsKept(m: Fields)
    ensures Kept(ProtoFields(m), m, SnakeToCamel, p => true)
  {
    if m != [] {
      var front, last := m[..|m| - 1], m[|m| - 1];
      ProtoFieldsKept(front);
      KeptNext(ProtoFields(front), front, SnakeToCamel, p => true, last);
      assert m == front + [last];
    }
  }

  lemma {:induction false} ProtoFieldsAll(m: Fields, names: seq<string>)
    requires |names| == |m|
    requires forall i :: 0 <= i < |m| ==> SnakeToCamel(m[i].0) == names[i] != PROTO
    requires forall i, j :: 0 <= i < j < |m| ==> names[i] != names[j]
    ensures |ProtoFields(m)| == |m|
  {
    if m != [] {
      var n := |m| - 1;
      ProtoFieldsAll(m[..n], names[..n]);
      ProtoFieldsKept(m[..n]);
      var rest := ProtoFields(m[..n]);
      assert forall i :: 0 <= i < n ==> rest[i].0 == names[i];
      PutNew(rest, names[n], m[n].1);
    }
  }

  /** A property whose name and value both come back. */
  ghost predicate FieldReturns(lower: string -> string, k: string, v: Value, includeEmpty: bool) {
    && ReversibleKey(lower, k)
    && ValueToAmino(lower, v, includeEmpty) != UNDEFINED
    && FieldToProto(ValueToAmino(lower, v, includeEmpty)) == v
  }

  lemma FieldsRoundTripOnly(lower: string -> string, fs: Fields, includeEmpty: bool)
    requires LowersCase(lower) && SnakeToCamelObject(ObjectToAmino(lower, fs, includeEmpty)) == fs
    ensures forall i :: 0 <= i < |fs| ==> FieldReturns(lower, fs[i].0, fs[i].1, includeEmpty)
  {
    var a := AminoValues(lower, fs, includeEmpty);
    var o := AminoFields(lower, a);
    var p := ProtoValues(o);
    AminoFieldsKept(lower, a);
    ProtoFieldsKept(p);
    forall i | 0 <= i < |fs| ensures FieldReturns(lower, fs[i].0, fs[i].1, includeEmpty) {
      assert o[i] == (CamelToSnake(lower, a[i].0), a[i].1);
      assert ProtoFields(p)[i] == (SnakeToCamel(p[i].0), p[i].1);
      CamelRoundTrip(lower, fs[i].0);
    }
  }

  lemma FieldsRoundTripIf(lower: string -> string, fs: Fields, includeEmpty: bool)
    requires LowersCase(lower) && Distinct(fs)
    requires forall i :: 0 <= i < |fs| ==> FieldReturns(lower, fs[i].0, fs[i].1, includeEmpty)
    ensures SnakeToCamelObject(ObjectToAmino(lower, fs, includeEmpty)) == fs
  {
    var a := AminoValues(lower, fs, includeEmpty);
    var o := AminoFields(lower, a);
    var p := ProtoValues(o);
    forall i | 0 <= i < |fs| ensures SnakeToCamel(CamelToSnake(lower, a[i].0)) == fs[i].0 != PROTO {
      assert FieldReturns(lower, fs[i].0, fs[i].1, includeEmpty);
      CamelRoundTrip(lower, fs[i].0);
    }
    AminoFieldsAll(lower, a);
    AminoFieldsKept(lower, a);
    ProtoFieldsAll(p, KeysOf(fs));
    ProtoFieldsKept(p);
    forall i | 0 <= i < |fs| ensures ProtoFields(p)[i] == fs[i] {
      assert FieldReturns(lower, fs[i].0, fs[i].1, includeEmpty);
    }
  }

  /** The round trip of the properties of one object, given that of their values. */
  lemma FieldsRoundTrip(lower: string -> string, fs: Fields, includeEmpty: bool)
    requires LowersCase(lower) && Distinct(fs)
    ensures SnakeToCamelObject(ObjectToAmino(lower, fs, includeEmpty)) == fs <==>
            forall i :: 0 <= i < |fs| ==> FieldReturns(lower, fs[i].0, fs[i].1, includeEmpty)
  {
    if SnakeToCamelObject(ObjectToAmino(lower, fs, includeEmpty)) == fs {
      FieldsRoundTripOnly(lower, fs, includeEmpty);
    } else if forall i :: 0 <= i < |fs| ==> FieldReturns(lower, fs[i].0, fs[i].1, includeEmpty) {
      FieldsRoundTripIf(lower, fs, includeEmpty);
    }
  }

  ghost predicate ElementReturns(lower: string -> string, v: Value, includeEmpty: bool) {
    ElementToProto(ValueToAmino(lower, v, includeEmpty)) == v
  }

  lemma ArrayRoundTrip(lower: string -> string, xs: seq<Value>, includeEmpty: bool)
    ensures FieldToProto(ValueToAmino(lower, Arr(xs), includeEmpty)) == Arr(xs) <==>
            forall i :: 0 <= i < |xs| ==> ElementReturns(lower, xs[i], includeEmpty)
  {
    if xs != [] {
      var r := FieldToProto(ValueToAmino(lower, Arr(xs), includeEmpty));
      assert r.Arr? && |r.items| == |xs|;
      assert forall i :: 0 <= i < |xs| ==> r.items[i] == ElementToProto(ValueToAmino(lower, xs[i], includeEmpty));
      assert (forall i :: 0 <= i < |xs| ==> r.items[i] == xs[i]) ==> r.items == xs;
    }
  }

  lemma InnerArrayRoundTrip(lower: string -> string, xs: seq<Value>, includeEmpty: bool)
    ensures ElementReturns(lower, Arr(xs), includeEmpty) <==> xs == [] && !includeEmpty
  {
  }

  /** The conversions of an object value are those of its properties, in both places. */
  lemma ObjectValueRoundTrip(lower: string -> string, fs: Fields, includeEmpty: bool)
    ensures var a := ValueToAmino(lower, Obj(fs), includeEmpty);
            && a == Obj(ObjectToAmino(lower, fs, includeEmpty))
            && FieldToProto(a) == ElementToProto(a) == Obj(SnakeToCamelObject(ObjectToAmino(lower, fs, includeEmpty)))
  {
    var m := AminoValues(lower, fs, includeEmpty);
    assert m == seq(|fs|, i requires 0 <= i < |fs| => (fs[i].0, ValueToAmino(lower, fs[i].1, includeEmpty)));
    var o := AminoFields(lower, m);
    assert ProtoValues(o) == seq(|o|, i requires 0 <= i < |o| => (o[i].0, FieldToProto(o[i].1)));
  }

  lemma ObjectCase(lower: string -> string, fs: Fields, includeEmpty: bool)
    requires LowersCase(lower) && Distinct(fs)
    requires forall i :: 0 <= i < |fs| ==>
               (FieldReturns(lower, fs[i].0, fs[i].1, includeEmpty) <==>
                ReversibleKey(lower, fs[i].0) && Reversible(lower, fs[i].1, includeEmpty))
    ensures var v := Obj(fs);
            && (FieldToProto(ValueToAmino(lower, v, includeEmpty)) == v <==> Reversible(lower, v, includeEmpty))
            && (ElementToProto(ValueToAmino(lower, v, includeEmpty)) == v <==> ReversibleElement(lower, v, includeEmpty))
            && ValueToAmino(lower, v, includeEmpty) != UNDEFINED
  {
    FieldsRoundTrip(lower, fs, includeEmpty);
    ObjectValueRoundTrip(lower, fs, includeEmpty);
  }

  lemma ArrayCase(lower: string -> string, xs: seq<Value>, includeEmpty: bool)
    requires forall i :: 0 <= i < |xs| ==>
               (ElementReturns(lower, xs[i], includeEmpty) <==> ReversibleElement(lower, xs[i], includeEmpty))
    ensures var v := Arr(xs);
            && (FieldToProto(ValueToAmino(lower, v, includeEmpty)) == v <==> Reversible(lower, v, includeEmpty))
            && (ElementToProto(ValueToAmino(lower, v, includeEmpty)) == v <==> ReversibleElement(lower, v, includeEmpty))
            && ValueToAmino(lower, v, includeEmpty) != UNDEFINED
  {
    ArrayRoundTrip(lower, xs, includeEmpty);
    InnerArrayRoundTrip(lower, xs, includeEmpty);
  }

  lemma {:induction false} ValueRoundTrip(lower: string -> string, v: Value, includeEmpty: bool)
    requires LowersCase(lower) && WellFormed(v)
    ensures ValueToAmino(lower, v, includeEmpty) != UNDEFINED && FieldToProto(ValueToAmino(lower, v, includeEmpty)) == v <==>
            Reversible(lower, v, includeEmpty)
    ensures ElementToProto(ValueToAmino(lower, v, includeEmpty)) == v <==> ReversibleElement(lower, v, includeEmpty)
  {
    match v
    case Leaf(_) =>
    case Arr(xs) =>
      forall i | 0 <= i < |xs| ensures ElementReturns(lower, xs[i], includeEmpty) <==> ReversibleElement(lower, xs[i], includeEmpty) {
        ValueRoundTrip(lower, xs[i], includeEmpty);
      }
      ArrayCase(lower, xs, includeEmpty);
    case Obj(fs) =>
      forall i | 0 <= i < |fs|
        ensures FieldReturns(lower, fs[i].0, fs[i].1, includeEmpty) <==>
                ReversibleKey(lower, fs[i].0) && Reversible(lower, fs[i].1, includeEmpty)
      {
        ValueRoundTrip(lower, fs[i].1, includeEmpty);
      }
      ObjectCase(lower, fs, includeEmpty);
  }

  /** Converting an object to Amino JSON and back is the identity on exactly the reversible objects. */
  lemma ObjectRoundTrip(lower: string -> string, fs: Fields, includeEmpty: bool)
    requires LowersCase(lower) && WellFormed(Obj(fs))
    ensures SnakeToCamelObject(ObjectToAmino(lower, fs, includeEmpty)) == fs <==> Reversible(lower, Obj(fs), includeEmpty)
  {
    forall i | 0 <= i < |fs|
      ensures FieldReturns(lower, fs[i].0, fs[i].1, includeEmpty) <==>
              ReversibleKey(lower, fs[i].0) && Reversible(lower, fs[i].1, includeEmpty)
    {
      ValueRoundTrip(lower, fs[i].1, includeEmpty);
    }
    FieldsRoundTrip(lower, fs, includeEmpty);
  }
}
