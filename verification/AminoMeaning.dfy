/** What Amino conversion makes of every value, reversible or not. */
module AminoMeaning {
  import opened Amino
  import opened CaseConversion
  import opened Collections
  import opened Decimal
  import opened JsTree
  import opened OrderedMap

  // ---------- properties stored one after another under new names ----------

  /** The properties kept, in order, each under its new name. */
  function Renamed(m: Fields, name: string -> string, keep: ((string, Value)) -> bool): Fields {
    if m == [] then []
    else
      var last := m[|m| - 1];
      Renamed(m[..|m| - 1], name, keep) + (if keep(last) then [(name(last.0), last.1)] else [])
  }

  /** The value of the last property kept that has this new name. */
  function LastNamed(m: Fields, name: string -> string, keep: ((string, Value)) -> bool, q: string): Option<Value> {
    if m == [] then None
    else
      var last := m[|m| - 1];
      if keep(last) && name(last.0) == q then Some(last.1) else LastNamed(m[..|m| - 1], name, keep, q)
  }

  /** Each new name holds the value of the last property kept that has it; if no two share one, the
      properties kept are all there, in order. */
  ghost predicate Stored(out: Fields, m: Fields, name: string -> string, keep: ((string, Value)) -> bool) {
    && Distinct(out)
    && (forall q :: Get(out, q) == LastNamed(m, name, keep, q))
    && (Distinct(Renamed(m, name, keep)) ==> out == Renamed(m, name, keep))
  }

  lemma RenamedSnoc(m: Fields, name: string -> string, keep: ((string, Value)) -> bool, last: (string, Value))
    ensures Renamed(m + [last], name, keep) ==
            Renamed(m, name, keep) + (if keep(last) then [(name(last.0), last.1)] else [])
    ensures forall q :: LastNamed(m + [last], name, keep, q) ==
                        if keep(last) && name(last.0) == q then Some(last.1) else LastNamed(m, name, keep, q)
  {
    assert (m + [last])[..|m|] == m;
  }

  lemma DistinctFront<V>(m: seq<(string, V)>, n: seq<(string, V)>)
    requires Distinct(m + n)
    ensures Distinct(m)
  {
    assert forall i :: 0 <= i < |m| ==> (m + n)[i] == m[i];
  }

  lemma StoredSkip(out: Fields, m: Fields, name: string -> string, keep: ((string, Value)) -> bool, last: (string, Value))
    requires Stored(out, m, name, keep) && !keep(last)
    ensures Stored(out, m + [last], name, keep)
  {
    RenamedSnoc(m, name, keep, last);
    assert Renamed(m, name, keep) + [] == Renamed(m, name, keep);
  }

  lemma StoredNext(out: Fields, m: Fields, name: string -> string, keep: ((string, Value)) -> bool, last: (string, Value))
    requires Stored(out, m, name, keep) && keep(last)
    ensures Stored(Put(out, name(last.0), last.1), m + [last], name, keep)
  {
    var k := name(last.0);
    var renamed := Renamed(m, name, keep);
    RenamedSnoc(m, name, keep, last);
    PutDistinct(out, k, last.1);
    forall q ensures Get(Put(out, k, last.1), q) == LastNamed(m + [last], name, keep, q) {
      PutGet(out, k, last.1, q);
    }
    if Distinct(renamed + [(k, last.1)]) {
      DistinctFront(renamed, [(k, last.1)]);
      LastIsNew(renamed, k, last.1);
      PutNew(out, k, last.1);
    }
  }

  lemma LastIsNew<V>(m: seq<(string, V)>, k: string, v: V)
    requires Distinct(m + [(k, v)])
    ensures !Has(m, k)
  {
    var all := m + [(k, v)];
    assert all[|m|].0 == k;
    forall i | 0 <= i < |m| ensures m[i].0 != k {
      assert all[i] == m[i];
    }
  }

  // ---------- leaves and arrays to Amino ----------

  /** What a leaf becomes: null and undefined nothing, a bigint the text that reads as it, a number, a
      date or bytes their text, and a boolean or a string itself. */
  ghost predicate LeafBecomes(x: Scalar, a: Value) {
    match x
    case Undefined => a == UNDEFINED
    case Null => a == UNDEFINED
    case Bool(_) => a == Leaf(x)
    case Str(_) => a == Leaf(x)
    case Num(text) => a == Leaf(Str(text))
    case Date(iso) => a == Leaf(Str(iso))
    case Bytes(base64) => a == Leaf(Str(base64))
    case BigInt(n) => a.Leaf? && a.leaf.Str? && ReadInt(a.leaf.s) == Some(n)
  }

  lemma LeafToAmino(lower: string -> string, x: Scalar, includeEmpty: bool)
    ensures LeafBecomes(x, ValueToAmino(lower, Leaf(x), includeEmpty))
  {
    if x.BigInt? {
      IntTextReads(x.n);
    }
  }

  /** An array becomes the array of its elements converted, in order; an empty one null, unless empty
      values are to be included. */
  lemma ArrayToAmino(lower: string -> string, xs: seq<Value>, includeEmpty: bool)
    ensures var a := ValueToAmino(lower, Arr(xs), includeEmpty);
            if xs == [] && !includeEmpty then a == Leaf(Null)
            else
              && a.Arr? && |a.items| == |xs|
              && forall i :: 0 <= i < |xs| ==> a.items[i] == ValueToAmino(lower, xs[i], includeEmpty)
  {
  }

  // ---------- objects to Amino ----------

  predicate IsNullish(v: Value) {
    v == Leaf(Null) || v == Leaf(Undefined)
  }

  /** The properties that appear: not internal, and neither null nor undefined. */
  predicate Appears(p: (string, Value)) {
    !(p.0 != [] && (p.0[0] == '$' || p.0[0] == '_')) && !IsNullish(p.1)
  }

  lemma {:induction false} AminoFieldsStored(lower: string -> string, m: Fields)
    ensures Stored(AminoFields(lower, m), m, SnakeNames(lower), Survives)
  {
    if m != [] {
      var front, last := m[..|m| - 1], m[|m| - 1];
      AminoFieldsStored(lower, front);
      assert m == front + [last];
      if Survives(last) {
        StoredNext(AminoFields(lower, front), front, SnakeNames(lower), Survives, last);
      } else {
        StoredSkip(AminoFields(lower, front), front, SnakeNames(lower), Survives, last);
      }
    }
  }

  /** Only null and undefined become undefined. */
  lemma OnlyNullishVanish(lower: string -> string, v: Value, includeEmpty: bool)
    ensures ValueToAmino(lower, v, includeEmpty) == UNDEFINED <==> IsNullish(v)
  {
    if v.Leaf? {
      LeafToAmino(lower, v.leaf, includeEmpty);
    }
  }

  /** The properties that appear, under their snake names, with their values converted. */
  ghost function AminoForm(lower: string -> string, fs: Fields, includeEmpty: bool): (m: Fields)
    ensures |m| == |Filter(fs, Appears)|
    ensures forall i :: 0 <= i < |m| ==>
              m[i] == (CamelToSnake(lower, Filter(fs, Appears)[i].0), ValueToAmino(lower, Filter(fs, Appears)[i].1, includeEmpty))
  {
    var kept := Filter(fs, Appears);
    seq(|kept|, i requires 0 <= i < |kept| => (CamelToSnake(lower, kept[i].0), ValueToAmino(lower, kept[i].1, includeEmpty)))
  }

  lemma AminoFormSnoc(lower: string -> string, front: Fields, last: (string, Value), includeEmpty: bool)
    ensures AminoForm(lower, front + [last], includeEmpty) ==
            AminoForm(lower, front, includeEmpty) +
            (if Appears(last) then [(CamelToSnake(lower, last.0), ValueToAmino(lower, last.1, includeEmpty))] else [])
  {
    assert (front + [last])[..|front|] == front;
  }

  lemma {:induction false} RenamedIsAminoForm(lower: string -> string, fs: Fields, includeEmpty: bool)
    ensures Renamed(AminoValues(lower, fs, includeEmpty), SnakeNames(lower), Survives) == AminoForm(lower, fs, includeEmpty)
  {
    var m := AminoValues(lower, fs, includeEmpty);
    if fs != [] {
      var front, last := fs[..|fs| - 1], fs[|fs| - 1];
      assert fs == front + [last];
      assert m[..|m| - 1] == AminoValues(lower, front, includeEmpty);
      RenamedIsAminoForm(lower, front, includeEmpty);
      OnlyNullishVanish(lower, last.1, includeEmpty);
      AminoFormSnoc(lower, front, last, includeEmpty);
    }
  }

  /** Whatever the object, where no two of the properties that appear share a snake name, the Amino
      object has exactly these, in order, each the Amino form of its own value. */
  lemma ObjectBecomes(lower: string -> string, fs: Fields, includeEmpty: bool)
    requires Distinct(AminoForm(lower, fs, includeEmpty))
    ensures ObjectToAmino(lower, fs, includeEmpty) == AminoForm(lower, fs, includeEmpty)
  {
    AminoFieldsStored(lower, AminoValues(lower, fs, includeEmpty));
    RenamedIsAminoForm(lower, fs, includeEmpty);
  }

  /** The last of the properties that appear and have this snake name. */
  ghost predicate LastWithName(lower: string -> string, fs: Fields, i: int, q: string) {
    && 0 <= i < |fs| && Appears(fs[i]) && CamelToSnake(lower, fs[i].0) == q
    && forall j :: i < j < |fs| && Appears(fs[j]) ==> CamelToSnake(lower, fs[j].0) != q
  }

  lemma LastWithNameSnoc(lower: string -> string, front: Fields, last: (string, Value), i: int, q: string)
    ensures LastWithName(lower, front + [last], i, q) <==>
            if i == |front| then Appears(last) && CamelToSnake(lower, last.0) == q
            else LastWithName(lower, front, i, q) && !(Appears(last) && CamelToSnake(lower, last.0) == q)
  {
    var fs := front + [last];
    assert fs[|front|] == last;
    assert forall j :: 0 <= j < |front| ==> fs[j] == front[j];
  }

  lemma {:induction false} LastNamedAppears(lower: string -> string, fs: Fields, includeEmpty: bool, q: string)
    ensures var r := LastNamed(AminoValues(lower, fs, includeEmpty), SnakeNames(lower), Survives, q);
            && (r.Some? ==> exists i :: LastWithName(lower, fs, i, q))
            && (forall i :: LastWithName(lower, fs, i, q) ==> r == Some(ValueToAmino(lower, fs[i].1, includeEmpty)))
  {
    var m := AminoValues(lower, fs, includeEmpty);
    if fs != [] {
      var n := |fs| - 1;
      var front, last := fs[..n], fs[n];
      assert fs == front + [last] && m[..n] == AminoValues(lower, front, includeEmpty);
      OnlyNullishVanish(lower, last.1, includeEmpty);
      LastNamedAppears(lower, front, includeEmpty, q);
      forall i | LastWithName(lower, fs, i, q) ensures i == n || LastWithName(lower, front, i, q) {
        LastWithNameSnoc(lower, front, last, i, q);
      }
      LastWithNameSnoc(lower, front, last, n, q);
      if !LastWithName(lower, fs, n, q) {
        if i :| LastWithName(lower, front, i, q) {
          LastWithNameSnoc(lower, front, last, i, q);
        }
      } else {
        forall i | LastWithName(lower, fs, i, q) ensures i == n {
          LastWithNameSnoc(lower, front, last, i, q);
        }
      }
    }
  }

  /** Where properties share a snake name, the last of them that appears has it. */
  lemma ObjectLookup(lower: string -> string, fs: Fields, includeEmpty: bool, q: string)
    ensures Distinct(ObjectToAmino(lower, fs, includeEmpty))
    ensures Has(ObjectToAmino(lower, fs, includeEmpty), q) <==> exists i :: LastWithName(lower, fs, i, q)
    ensures forall i :: LastWithName(lower, fs, i, q) ==>
                          Get(ObjectToAmino(lower, fs, includeEmpty), q) == Some(ValueToAmino(lower, fs[i].1, includeEmpty))
  {
    AminoFieldsStored(lower, AminoValues(lower, fs, includeEmpty));
    LastNamedAppears(lower, fs, includeEmpty, q);
    assert Get(ObjectToAmino(lower, fs, includeEmpty), q) ==
           LastNamed(AminoValues(lower, fs, includeEmpty), SnakeNames(lower), Survives, q);
  }

  // ---------- the way back ----------

  /** A leaf comes back as it is; null as an empty array. */
  lemma LeafToProtoIs(x: Scalar)
    ensures FieldToProto(Leaf(x)) == ElementToProto(Leaf(x)) == if x == Null then Arr([]) else Leaf(x)
  {
  }

  lemma ArrayToProto(xs: seq<Value>)
    ensures FieldToProto(Arr(xs)).Arr? && |FieldToProto(Arr(xs)).items| == |xs|
    ensures forall i :: 0 <= i < |xs| ==> FieldToProto(Arr(xs)).items[i] == ElementToProto(xs[i])
  {
  }

  predicate NotProto(p: (string, Value)) {
    SnakeToCamel(p.0) != PROTO
  }

  lemma {:induction false} ProtoFieldsStored(m: Fields)
    ensures Stored(ProtoFields(m), m, SnakeToCamel, NotProto)
  {
    if m != [] {
      var front, last := m[..|m| - 1], m[|m| - 1];
      ProtoFieldsStored(front);
      assert m == front + [last];
      if NotProto(last) {
        StoredNext(ProtoFields(front), front, SnakeToCamel, NotProto, last);
      } else {
        StoredSkip(ProtoFields(front), front, SnakeToCamel, NotProto, last);
      }
    }
  }

  /** The properties under their camel names with their values converted, but for `__proto__`. */
  ghost function ProtoForm(fs: Fields): (m: Fields)
    ensures |m| == |Filter(fs, NotProto)|
    ensures forall i :: 0 <= i < |m| ==>
              m[i] == (SnakeToCamel(Filter(fs, NotProto)[i].0), FieldToProto(Filter(fs, NotProto)[i].1))
  {
    var kept := Filter(fs, NotProto);
    seq(|kept|, i requires 0 <= i < |kept| => (SnakeToCamel(kept[i].0), FieldToProto(kept[i].1)))
  }

  lemma ProtoFormSnoc(front: Fields, last: (string, Value))
    ensures ProtoForm(front + [last]) ==
            ProtoForm(front) + (if NotProto(last) then [(SnakeToCamel(last.0), FieldToProto(last.1))] else [])
  {
    assert (front + [last])[..|front|] == front;
  }

  lemma {:induction false} RenamedIsProtoForm(fs: Fields)
    ensures Renamed(ProtoValues(fs), SnakeToCamel, NotProto) == ProtoForm(fs)
  {
    var m := ProtoValues(fs);
    if fs != [] {
      var front, last := fs[..|fs| - 1], fs[|fs| - 1];
      assert fs == front + [last];
      assert m[..|m| - 1] == ProtoValues(front);
      RenamedIsProtoForm(front);
      ProtoFormSnoc(front, last);
    }
  }

  /** Where no two properties share a camel name, the object that comes back has all of them, in order,
      each what its own value comes back as; `__proto__` is lost. */
  lemma ObjectComesBack(fs: Fields)
    requires Distinct(ProtoForm(fs))
    ensures SnakeToCamelObject(fs) == ProtoForm(fs)
  {
    ProtoFieldsStored(ProtoValues(fs));
    RenamedIsProtoForm(fs);
  }

  /** An object nested in a property or an array comes back as `snakeToCamelObject` makes it, an array
      inside an array as the object of its elements under their indices. */
  lemma NestedComesBack(v: Value)
    ensures v.Obj? ==> FieldToProto(v) == ElementToProto(v) == Obj(SnakeToCamelObject(v.fields))
    ensures v.Arr? ==> ElementToProto(v) == Obj(SnakeToCamelObject(Indexed(v.items)))
  {
    if v.Obj? {
      assert ProtoValues(v.fields) == seq(|v.fields|, i requires 0 <= i < |v.fields| => (v.fields[i].0, FieldToProto(v.fields[i].1)));
    } else if v.Arr? {
      assert ProtoValues(Indexed(v.items)) ==
             seq(|v.items|, i requires 0 <= i < |v.items| => (NatText(i), FieldToProto(v.items[i])));
    }
  }

  /** `Object.entries` of an array */
  function Indexed(xs: seq<Value>): (fs: Fields)
    ensures |fs| == |xs| && forall i :: 0 <= i < |xs| ==> fs[i] == (NatText(i), xs[i])
  {
    seq(|xs|, i requires 0 <= i < |xs| => (NatText(i), xs[i]))
  }

  // ---------- names ----------

  /** A leading capital is lowered like one inside the name, without the underscore. */
  lemma LeadingCapital(lower: string -> string, s: string)
    requires LowersCase(lower) && s != [] && IsUpper(s[0])
    requires forall c :: c in s ==> IsUpper(c) || Stays(lower, c)
    ensures CamelToSnake(lower, s) == CamelToSnake(lower, [ToLower(s[0])] + s[1..])
  {
    var t := [ToLower(s[0])] + s[1..];
    assert t[1..] == s[1..];
    forall c | c in t ensures IsUpper(c) || Stays(lower, c) {
      assert c == ToLower(s[0]) || c in s;
    }
    LowerMarked(lower, s);
    LowerMarked(lower, t);
    LeadingCapitalMarked(s, t);
  }

  lemma LeadingCapitalMarked(s: string, t: string)
    requires s != [] && IsUpper(s[0]) && t != [] && t[0] == ToLower(s[0]) && t[1..] == s[1..]
    ensures DropUnderscore(Lower(MarkCapitals(s))) == DropUnderscore(Lower(MarkCapitals(t)))
  {
    LowerCons(s);
    LowerCons(t);
    var rest := Lower(MarkCapitals(s[1..]));
    assert (['_', ToLower(s[0])] + rest)[1..] == [t[0]] + rest;
  }
}
