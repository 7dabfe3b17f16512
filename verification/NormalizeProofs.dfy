/** The normal form of init objects. */
module NormalizeProofs {
  import opened Bytes
  import opened Decimal
  import opened Hex
  import opened JsTree
  import opened Normalize
  import opened OrderedMap

  // ---------- the normal form ----------

  /** A checked proto Coin. */
  predicate IsProtoCoin(v: Value) {
    && v.Obj? && |v.fields| == 3
    && v.fields[0] == ("$typeName", Leaf(Str(COIN)))
    && v.fields[1].0 == "denom" && IsStr(v.fields[1].1) && v.fields[1].1.leaf.s != ""
    && v.fields[2].0 == "amount" && IsStr(v.fields[2].1) && v.fields[2].1.leaf.s != "" && AllDigits(v.fields[2].1.leaf.s)
  }

  predicate Is64Bit(t: ScalarType) {
    t != BYTES && t != OTHER_SCALAR
  }

  /** No string in a bytes field, no JavaScript number in a 64-bit field. */
  predicate IsNormalScalar(t: ScalarType, v: Value) {
    !(t == BYTES && IsStr(v)) && !(Is64Bit(t) && IsNumber(v))
  }

  predicate IsAnyShape(v: Value) {
    v.Obj? && Has(v.fields, "typeUrl") && Has(v.fields, "value")
  }

  predicate IsTimestampShape(v: Value) {
    v.Obj? && Has(v.fields, "seconds")
  }

  /** An object of known fields only, each in normal form, at every depth. */
  ghost predicate NormalForm(types: Types, name: string, v: Value)
    decreases v, 0
  {
    && v.Obj? && Distinct(v.fields)
    && forall i :: 0 <= i < |v.fields| ==> NormalProperty(types, name, v.fields[i].0, v.fields[i].1)
  }

  ghost predicate NormalProperty(types: Types, name: string, key: string, v: Value)
    decreases v, 3
  {
    && !IsMeta(key)
    && FieldNamed(FieldsOf(types, name), key).Some?
    && NormalField(types, FieldNamed(FieldsOf(types, name), key).value, v)
  }

  ghost predicate NormalField(types: Types, f: Field, v: Value)
    decreases v, 2
  {
    || IsNullish(v)
    || match f.kind
       case Map =>
         && v.Obj? && Distinct(v.fields)
         && forall i :: 0 <= i < |v.fields| ==> v.fields[i].0 != PROTO && NormalMapValue(types, f, v.fields[i].1)
       case List => v.Arr? && forall i :: 0 <= i < |v.items| ==> NormalElement(types, f, v.items[i])
       case Singular => NormalElement(types, f, v)
  }

  ghost predicate NormalElement(types: Types, f: Field, v: Value)
    decreases v, 1
  {
    match f.content
    case ScalarContent(t) => IsNormalScalar(t, v)
    case EnumContent => true
    case MessageContent(name) =>
      if name == COIN then IsProtoCoin(v)
      else if name == ANY then IsAnyShape(v)
      else if name == TIMESTAMP then IsTimestampShape(v)
      else NormalForm(types, name, v)
  }

  ghost predicate NormalMapValue(types: Types, f: Field, v: Value)
    decreases v, 1
  {
    || IsNullish(v)
    || match f.content
       case ScalarContent(t) => IsNormalScalar(t, v)
       case EnumContent => true
       case MessageContent(name) =>
         if name == COIN then IsProtoCoin(v)
         else if name == ANY then !(v.Leaf? && v.leaf.Message?)
         else if name == TIMESTAMP then !(v.Leaf? && v.leaf.Date?)
         else NormalForm(types, name, v)
  }

  // ---------- conversions of leaves ----------

  lemma ScalarNormalizes(t: ScalarType, v: Value)
    ensures NormalizeScalar(t, v).Some? ==> IsNormalScalar(t, NormalizeScalar(t, v).value)
    ensures NormalizeScalar(t, v) == Some(v) <==> IsNormalScalar(t, v)
  {
  }

  lemma CoinNormalizes(v: Value)
    ensures ToProtoCoin(v).Some? ==> IsProtoCoin(ToProtoCoin(v).value)
    ensures ToProtoCoin(v) == Some(v) <==> IsProtoCoin(v)
  {
    assert "$typeName"[0] == '$' && "denom"[0] == 'd' && "amount"[0] == 'a';
    if IsProtoCoin(v) {
      var fs := v.fields;
      assert fs == [fs[0], fs[1], fs[2]];
      assert fs[1..] == [fs[1], fs[2]] && fs[2..] == [fs[2]];
      assert fs[1..][1..] == fs[2..];
      assert Get(fs[1..], "amount") == Get(fs[2..], "amount") == Some(fs[2].1);
      assert Get(fs, "denom") == Some(fs[1].1) && Get(fs, "amount") == Some(fs[2].1);
    }
  }

  lemma AnyNormalizes(v: Value)
    ensures NormalizeAny(v).Some? ==> IsAnyShape(NormalizeAny(v).value)
    ensures NormalizeAny(v) == Some(v) <==> IsAnyShape(v)
  {
    if v.Leaf? && v.leaf.Message? {
      var fs := ToAny(v.leaf.typeUrl, v.leaf.packed).fields;
      assert fs[1].0 == "typeUrl" && fs[2].0 == "value";
    }
  }

  lemma TimestampNormalizes(v: Value)
    ensures NormalizeTimestamp(v).Some? ==> IsTimestampShape(NormalizeTimestamp(v).value)
    ensures NormalizeTimestamp(v) == Some(v) <==> IsTimestampShape(v)
  {
    if v.Leaf? && v.leaf.Date? {
      assert FromDate(v.leaf.ms).fields[1].0 == "seconds";
    }
  }

  // ---------- all or nothing ----------

  lemma {:induction false} SequenceHolds(rs: seq<Option<Value>>)
    ensures Sequence(rs).Some? <==> forall i :: 0 <= i < |rs| ==> rs[i].Some?
    ensures Sequence(rs).Some? ==>
              |Sequence(rs).value| == |rs| && forall i :: 0 <= i < |rs| ==> rs[i] == Some(Sequence(rs).value[i])
  {
    if rs != [] {
      SequenceHolds(rs[..|rs| - 1]);
      assert rs == rs[..|rs| - 1] + [rs[|rs| - 1]];
    }
  }

  lemma {:induction false} AssembleHolds(keys: seq<string>, rs: seq<Option<Value>>)
    requires |keys| == |rs| && Assemble(keys, rs).Some?
    ensures var m := Assemble(keys, rs).value;
            && Distinct(m)
            && forall p :: p in m ==> p.0 != PROTO && exists i :: 0 <= i < |rs| && keys[i] == p.0 && rs[i] == Some(p.1)
  {
    if rs != [] {
      var n := |rs| - 1;
      var front := Assemble(keys[..n], rs[..n]).value;
      AssembleHolds(keys[..n], rs[..n]);
      PutDistinct(front, keys[n], rs[n].value);
      PutHolds(front, keys[n], rs[n].value);
      forall p | p in Assemble(keys, rs).value
        ensures p.0 != PROTO && exists i :: 0 <= i < |rs| && keys[i] == p.0 && rs[i] == Some(p.1)
      {
        if p in front {
          var i :| 0 <= i < n && keys[..n][i] == p.0 && rs[..n][i] == Some(p.1);
          assert keys[i] == p.0 && rs[i] == Some(p.1);
        } else {
          assert keys[n] == p.0 && rs[n] == Some(p.1);
        }
      }
    }
  }

  lemma {:induction false} SlotsHold(keys: seq<string>, slots: seq<Slot>)
    requires |keys| == |slots| && CollectSlots(keys, slots).Some?
    ensures var m := CollectSlots(keys, slots).value;
            && Distinct(m)
            && forall p :: p in m ==> exists i :: 0 <= i < |slots| && keys[i] == p.0 && slots[i] == Keep(p.1)
  {
    if slots != [] {
      var n := |slots| - 1;
      var front := CollectSlots(keys[..n], slots[..n]).value;
      SlotsHold(keys[..n], slots[..n]);
      forall p | p in front ensures exists i :: 0 <= i < |slots| && keys[i] == p.0 && slots[i] == Keep(p.1) {
        var i :| 0 <= i < n && keys[..n][i] == p.0 && slots[..n][i] == Keep(p.1);
        assert keys[i] == p.0 && slots[i] == Keep(p.1);
      }
      if slots[n].Keep? {
        PutDistinct(front, keys[n], slots[n].value);
        PutHolds(front, keys[n], slots[n].value);
      }
    }
  }

  // ---------- results are normal ----------

  lemma {:induction false} InitIsNormal(types: Types, name: string, v: Value)
    requires NormalizeInit(types, name, v).Some?
    ensures NormalForm(types, name, NormalizeInit(types, name, v).value)
    decreases v, 0
  {
    if v.Obj? {
      var fs := v.fields;
      var slots := seq(|fs|, i requires 0 <= i < |fs| => NormalizeProperty(types, name, fs[i].0, fs[i].1));
      var m := CollectSlots(KeysOf(fs), slots).value;
      SlotsHold(KeysOf(fs), slots);
      forall j | 0 <= j < |m| ensures NormalProperty(types, name, m[j].0, m[j].1) {
        assert m[j] in m;
        var i :| 0 <= i < |slots| && KeysOf(fs)[i] == m[j].0 && slots[i] == Keep(m[j].1);
        assert fs[i].1 < v;
        FieldIsNormal(types, FieldNamed(FieldsOf(types, name), fs[i].0).value, fs[i].1);
      }
    }
  }

  lemma {:induction false} FieldIsNormal(types: Types, f: Field, v: Value)
    requires NormalizeField(types, f, v).Some?
    ensures NormalField(types, f, NormalizeField(types, f, v).value)
    decreases v, 2
  {
    if IsNullish(v) {
    } else if f.kind == Map {
      if v.Leaf? {
        MapLeafIsNormal(types, f, v.leaf);
      } else {
        MapIsNormal(types, f, v);
      }
    } else if f.kind == List {
      if v.Arr? {
        var xs := v.items;
        var rs := seq(|xs|, i requires 0 <= i < |xs| => NormalizeElement(types, f, xs[i]));
        SequenceHolds(rs);
        assert Sequence(rs).Some?;
        forall i | 0 <= i < |xs| ensures NormalElement(types, f, Sequence(rs).value[i]) {
          assert rs[i] == NormalizeElement(types, f, xs[i]);
          ElementIsNormal(types, f, xs[i]);
        }
      } else {
        CoinNormalizes(v);
      }
    } else {
      ElementIsNormal(types, f, v);
    }
  }

  lemma {:induction false} MapIsNormal(types: Types, f: Field, v: Value)
    requires v.Obj? && f.kind == Map && NormalizeField(types, f, v).Some?
    ensures NormalField(types, f, NormalizeField(types, f, v).value)
    decreases v, 1, 1
  {
    var es := v.fields;
    var rs := seq(|es|, i requires 0 <= i < |es| => NormalizeMapValue(types, f, es[i].1));
    var m := Assemble(KeysOf(es), rs).value;
    AssembleHolds(KeysOf(es), rs);
    forall j | 0 <= j < |m| ensures m[j].0 != PROTO && NormalMapValue(types, f, m[j].1) {
      assert m[j] in m;
      var i :| 0 <= i < |rs| && KeysOf(es)[i] == m[j].0 && rs[i] == Some(m[j].1);
      assert es[i].1 < v;
      MapValueIsNormal(types, f, es[i].1);
    }
  }

  lemma MapLeafIsNormal(types: Types, f: Field, x: Atom)
    requires f.kind == Map && NormalizeMapLeaf(types, f, x).Some?
    ensures NormalField(types, f, NormalizeMapLeaf(types, f, x).value)
  {
    var es := OwnProperties(x).value;
    var rs := seq(|es|, i requires 0 <= i < |es| => NormalizeMapAtom(f, es[i].1));
    var m := Assemble(KeysOf(es), rs).value;
    AssembleHolds(KeysOf(es), rs);
    forall j | 0 <= j < |m| ensures m[j].0 != PROTO && NormalMapValue(types, f, m[j].1) {
      assert m[j] in m;
      var i :| 0 <= i < |rs| && KeysOf(es)[i] == m[j].0 && rs[i] == Some(m[j].1);
      assert es[i].1.Int? || es[i].1.Str?;
      if f.content.ScalarContent? {
        ScalarNormalizes(f.content.scalar, Leaf(es[i].1));
      }
    }
  }

  lemma {:induction false} ElementIsNormal(types: Types, f: Field, v: Value)
    requires NormalizeElement(types, f, v).Some?
    ensures NormalElement(types, f, NormalizeElement(types, f, v).value)
    decreases v, 1
  {
    match f.content
    case ScalarContent(t) => ScalarNormalizes(t, v);
    case EnumContent =>
    case MessageContent(name) =>
      if name == COIN {
        CoinNormalizes(v);
      } else if name == ANY {
        AnyNormalizes(v);
      } else if name == TIMESTAMP {
        TimestampNormalizes(v);
      } else {
        InitIsNormal(types, name, v);
      }
  }

  lemma {:induction false} MapValueIsNormal(types: Types, f: Field, v: Value)
    requires NormalizeMapValue(types, f, v).Some?
    ensures NormalMapValue(types, f, NormalizeMapValue(types, f, v).value)
    decreases v, 1
  {
    if !IsNullish(v) {
      match f.content
      case ScalarContent(t) => ScalarNormalizes(t, v);
      case EnumContent =>
      case MessageContent(name) =>
        if name == COIN {
          CoinNormalizes(v);
        } else if name != ANY && name != TIMESTAMP {
          InitIsNormal(types, name, v);
        }
    }
  }

  // ---------- normal values are fixed points ----------

  /** With every value there, the entries are assigned in order. */
  lemma {:induction false} AssembleAssigns(ps: Fields, rs: seq<Option<Value>>)
    requires |rs| == |ps| && forall i :: 0 <= i < |ps| ==> rs[i] == Some(ps[i].1)
    ensures Assemble(KeysOf(ps), rs) == Some(AssignAll(ps))
  {
    if ps != [] {
      var n := |ps| - 1;
      assert KeysOf(ps)[..n] == KeysOf(ps[..n]);
      AssembleAssigns(ps[..n], rs[..n]);
    }
  }

  lemma AssembleAll(es: Fields, rs: seq<Option<Value>>)
    requires |rs| == |es| && Distinct(es)
    requires forall i :: 0 <= i < |es| ==> es[i].0 != PROTO && rs[i] == Some(es[i].1)
    ensures Assemble(KeysOf(es), rs) == Some(es)
  {
    AssembleAssigns(es, rs);
    AssignAllHolds(es);
    WithoutProtoHolds(es);
  }

  lemma {:induction false} CollectAll(fs: Fields, slots: seq<Slot>)
    requires |slots| == |fs| && Distinct(fs)
    requires forall i :: 0 <= i < |fs| ==> slots[i] == Keep(fs[i].1)
    ensures CollectSlots(KeysOf(fs), slots) == Some(fs)
  {
    if fs != [] {
      var n := |fs| - 1;
      assert KeysOf(fs)[..n] == KeysOf(fs[..n]);
      CollectAll(fs[..n], slots[..n]);
      PutNew(fs[..n], fs[n].0, fs[n].1);
      assert fs == fs[..n] + [fs[n]] && KeysOf(fs)[n] == fs[n].0;
    }
  }

  lemma {:induction false} NormalInitStays(types: Types, name: string, v: Value)
    requires NormalForm(types, name, v)
    ensures NormalizeInit(types, name, v) == Some(v)
    decreases v, 0
  {
    var fs := v.fields;
    var slots := seq(|fs|, i requires 0 <= i < |fs| => NormalizeProperty(types, name, fs[i].0, fs[i].1));
    forall i | 0 <= i < |fs| ensures slots[i] == Keep(fs[i].1) {
      assert NormalProperty(types, name, fs[i].0, fs[i].1);
      NormalFieldStays(types, FieldNamed(FieldsOf(types, name), fs[i].0).value, fs[i].1);
    }
    CollectAll(fs, slots);
  }

  lemma {:induction false} NormalFieldStays(types: Types, f: Field, v: Value)
    requires NormalField(types, f, v)
    ensures NormalizeField(types, f, v) == Some(v)
    decreases v, 2
  {
    if !IsNullish(v) {
      match f.kind
      case Map =>
        var es := v.fields;
        var rs := seq(|es|, i requires 0 <= i < |es| => NormalizeMapValue(types, f, es[i].1));
        forall i | 0 <= i < |es| ensures rs[i] == Some(es[i].1) {
          NormalMapValueStays(types, f, es[i].1);
        }
        AssembleAll(es, rs);
      case List =>
        var xs := v.items;
        var rs := seq(|xs|, i requires 0 <= i < |xs| => NormalizeElement(types, f, xs[i]));
        forall i | 0 <= i < |xs| ensures rs[i] == Some(xs[i]) {
          NormalElementStays(types, f, xs[i]);
        }
        SequenceHolds(rs);
        assert Sequence(rs).value == xs;
      case Singular => NormalElementStays(types, f, v);
    }
  }

  lemma {:induction false} NormalElementStays(types: Types, f: Field, v: Value)
    requires NormalElement(types, f, v)
    ensures NormalizeElement(types, f, v) == Some(v)
    decreases v, 1
  {
    match f.content
    case ScalarContent(t) => ScalarNormalizes(t, v);
    case EnumContent =>
    case MessageContent(name) =>
      if name == COIN {
        CoinNormalizes(v);
      } else if name == ANY {
        AnyNormalizes(v);
      } else if name == TIMESTAMP {
        TimestampNormalizes(v);
      } else {
        NormalInitStays(types, name, v);
      }
  }

  lemma {:induction false} NormalMapValueStays(types: Types, f: Field, v: Value)
    requires NormalMapValue(types, f, v)
    ensures NormalizeMapValue(types, f, v) == Some(v)
    decreases v, 1
  {
    if !IsNullish(v) {
      match f.content
      case ScalarContent(t) => ScalarNormalizes(t, v);
      case EnumContent =>
      case MessageContent(name) =>
        if name == COIN {
          CoinNormalizes(v);
        } else if name != ANY && name != TIMESTAMP {
          NormalInitStays(types, name, v);
        }
    }
  }

  /** The normal forms are exactly the init objects that normalisation accepts and leaves as they are. */
  lemma FixedPointsAreNormal(types: Types, name: string, v: Value)
    ensures NormalizeInit(types, name, v) == Some(v) <==> NormalForm(types, name, v)
  {
    if NormalForm(types, name, v) {
      NormalInitStays(types, name, v);
    } else if NormalizeInit(types, name, v) == Some(v) {
      InitIsNormal(types, name, v);
    }
  }

  /** Normalising what is normalised changes nothing. */
  lemma NormalizeIdempotent(types: Types, name: string, v: Value)
    requires NormalizeInit(types, name, v).Some?
    ensures NormalizeInit(types, name, NormalizeInit(types, name, v).value) == NormalizeInit(types, name, v)
  {
    InitIsNormal(types, name, v);
    NormalInitStays(types, name, NormalizeInit(types, name, v).value);
  }

  // ---------- nothing is lost ----------

  function WithoutMeta(fs: Fields): Fields {
    if fs == [] then []
    else
      var rest, last := WithoutMeta(fs[..|fs| - 1]), fs[|fs| - 1];
      if last.0 == "$typeName" || last.0 == "$unknown" then rest else rest + [last]
  }

  /** w is v in the form its field wants. */
  ghost predicate FieldBecomes(types: Types, name: string, key: string, v: Value, w: Value) {
    var f := FieldNamed(FieldsOf(types, name), key);
    f.Some? && NormalizeField(types, f.value, v) == Some(w)
  }

  /** Property by property, m is what `kept` becomes. */
  ghost predicate Mirrors(types: Types, name: string, m: Fields, kept: Fields) {
    && |m| == |kept|
    && forall i :: 0 <= i < |m| ==> m[i].0 == kept[i].0 && FieldBecomes(types, name, kept[i].0, kept[i].1, m[i].1)
  }

  lemma MirrorsNext(types: Types, name: string, m: Fields, kept: Fields, key: string, v: Value, w: Value)
    requires Mirrors(types, name, m, kept) && !Has(kept, key) && FieldBecomes(types, name, key, v, w)
    ensures Mirrors(types, name, Put(m, key, w), kept + [(key, v)])
  {
    forall i | 0 <= i < |m| ensures m[i].0 != key {
      assert kept[i].0 != key;
    }
    PutNew(m, key, w);
  }

  lemma {:induction false} WithoutMetaHas(fs: Fields)
    ensures forall k :: Has(WithoutMeta(fs), k) ==> Has(fs, k)
  {
    if fs != [] {
      var front, last := fs[..|fs| - 1], fs[|fs| - 1];
      WithoutMetaHas(front);
      HasSnoc(front, last);
      HasSnoc(WithoutMeta(front), last);
      assert fs == front + [last];
    }
  }

  lemma {:induction false} SlotsKeepOrder(types: Types, name: string, fs: Fields, slots: seq<Slot>)
    requires Distinct(fs) && |slots| == |fs|
    requires forall i :: 0 <= i < |fs| ==> slots[i] == NormalizeProperty(types, name, fs[i].0, fs[i].1)
    requires CollectSlots(KeysOf(fs), slots).Some?
    ensures Mirrors(types, name, CollectSlots(KeysOf(fs), slots).value, WithoutMeta(fs))
  {
    if fs != [] {
      var n := |fs| - 1;
      var (key, v) := fs[n];
      assert KeysOf(fs)[..n] == KeysOf(fs[..n]);
      SlotsKeepOrder(types, name, fs[..n], slots[..n]);
      if slots[n].Keep? {
        WithoutMetaHas(fs[..n]);
        assert !Has(fs[..n], key);
        MirrorsNext(types, name, CollectSlots(KeysOf(fs[..n]), slots[..n]).value, WithoutMeta(fs[..n]), key, v, slots[n].value);
      }
    }
  }

  /** An accepted object keeps every property but the two metadata keys, in order, each becoming what
      its own field makes of it whatever the others are. */
  lemma PropertiesKept(types: Types, name: string, fs: Fields)
    requires Distinct(fs) && NormalizeInit(types, name, Obj(fs)).Some?
    ensures NormalizeInit(types, name, Obj(fs)).value.Obj?
    ensures Mirrors(types, name, NormalizeInit(types, name, Obj(fs)).value.fields, WithoutMeta(fs))
  {
    SlotsKeepOrder(types, name, fs,
                   seq(|fs|, i requires 0 <= i < |fs| => NormalizeProperty(types, name, fs[i].0, fs[i].1)));
  }

  lemma {:induction false} NoSlotFails(keys: seq<string>, slots: seq<Slot>)
    requires |keys| == |slots|
    ensures CollectSlots(keys, slots).Some? <==> forall i :: 0 <= i < |slots| ==> !slots[i].Fail?
  {
    if slots != [] {
      var n := |slots| - 1;
      NoSlotFails(keys[..n], slots[..n]);
      assert slots == slots[..n] + [slots[n]];
    }
  }

  ghost predicate FieldAccepts(types: Types, name: string, key: string, v: Value) {
    exists w :: FieldBecomes(types, name, key, v, w)
  }

  /** An object is accepted exactly when each of its properties is metadata or a known field that
      accepts the value, whatever the others are. */
  lemma AcceptedExactly(types: Types, name: string, fs: Fields)
    ensures NormalizeInit(types, name, Obj(fs)).Some? <==>
            forall i :: 0 <= i < |fs| ==> IsMeta(fs[i].0) || FieldAccepts(types, name, fs[i].0, fs[i].1)
  {
    var slots := seq(|fs|, i requires 0 <= i < |fs| => NormalizeProperty(types, name, fs[i].0, fs[i].1));
    NoSlotFails(KeysOf(fs), slots);
    forall i | 0 <= i < |fs|
      ensures slots[i].Fail? <==> !IsMeta(fs[i].0) && !FieldAccepts(types, name, fs[i].0, fs[i].1)
    {
      if slots[i].Keep? {
        assert FieldBecomes(types, name, fs[i].0, fs[i].1, slots[i].value);
      }
    }
  }

  /** A list becomes the list of its elements converted, in order, when every one can be. */
  lemma ListConverted(types: Types, f: Field, xs: seq<Value>, ys: seq<Value>)
    requires f.kind == List
    ensures NormalizeField(types, f, Arr(xs)) == Some(Arr(ys)) <==>
            |ys| == |xs| && forall i :: 0 <= i < |xs| ==> NormalizeElement(types, f, xs[i]) == Some(ys[i])
  {
    var rs := seq(|xs|, i requires 0 <= i < |xs| => NormalizeElement(types, f, xs[i]));
    SequenceHolds(rs);
    if |ys| == |xs| && forall i :: 0 <= i < |xs| ==> NormalizeElement(types, f, xs[i]) == Some(ys[i]) {
      assert forall i :: 0 <= i < |rs| ==> rs[i] == Some(ys[i]);
      assert Sequence(rs).value == ys;
    }
    if NormalizeField(types, f, Arr(xs)) == Some(Arr(ys)) {
      assert Sequence(rs) == Some(ys);
      forall i | 0 <= i < |xs| ensures NormalizeElement(types, f, xs[i]) == Some(ys[i]) {
        assert rs[i] == NormalizeElement(types, f, xs[i]);
      }
    }
  }

  lemma {:induction false} AssembleSome(keys: seq<string>, rs: seq<Option<Value>>)
    requires |keys| == |rs| && Assemble(keys, rs).Some?
    ensures forall i :: 0 <= i < |rs| ==> rs[i].Some?
  {
    if rs != [] {
      var n := |rs| - 1;
      AssembleSome(keys[..n], rs[..n]);
      assert rs == rs[..n] + [rs[n]];
    }
  }

  /** The entries of a map, each value converted. */
  ghost function ConvertedEntries(types: Types, f: Field, es: Fields): (m: Fields)
    requires forall i :: 0 <= i < |es| ==> NormalizeMapValue(types, f, es[i].1).Some?
    ensures |m| == |es|
    ensures forall i :: 0 <= i < |es| ==> m[i].0 == es[i].0 && NormalizeMapValue(types, f, es[i].1) == Some(m[i].1)
  {
    seq(|es|, i requires 0 <= i < |es| => (es[i].0, NormalizeMapValue(types, f, es[i].1).value))
  }

  ghost function MapResults(types: Types, f: Field, es: Fields): (rs: seq<Option<Value>>)
    ensures |rs| == |es| && forall i :: 0 <= i < |es| ==> rs[i] == NormalizeMapValue(types, f, es[i].1)
  {
    seq(|es|, i requires 0 <= i < |es| => NormalizeMapValue(types, f, es[i].1))
  }

  lemma MapFieldIs(types: Types, f: Field, es: Fields)
    requires f.kind == Map
    ensures NormalizeField(types, f, Obj(es)) ==
            match Assemble(KeysOf(es), MapResults(types, f, es)) case None => None case Some(m) => Some(Obj(m))
  {
    assert MapResults(types, f, es) == seq(|es|, i requires 0 <= i < |es| => NormalizeMapValue(types, f, es[i].1));
  }

  lemma ConvertedAssemble(types: Types, f: Field, es: Fields)
    requires Distinct(es) && forall i :: 0 <= i < |es| ==> NormalizeMapValue(types, f, es[i].1).Some?
    ensures Assemble(KeysOf(es), MapResults(types, f, es)) == Some(WithoutProto(ConvertedEntries(types, f, es)))
  {
    var all := ConvertedEntries(types, f, es);
    assert KeysOf(all) == KeysOf(es);
    AssembleAssigns(all, MapResults(types, f, es));
    AssignAllHolds(all);
  }

  /** A map is accepted exactly when every value converts. It becomes the map with the same keys in
      the same order and each value converted, but for an entry called `__proto__`, which is lost. */
  lemma MapConverted(types: Types, f: Field, es: Fields)
    requires f.kind == Map && Distinct(es)
    ensures NormalizeField(types, f, Obj(es)).Some? <==>
            forall i :: 0 <= i < |es| ==> NormalizeMapValue(types, f, es[i].1).Some?
    ensures NormalizeField(types, f, Obj(es)).Some? ==>
              var all := ConvertedEntries(types, f, es);
              && NormalizeField(types, f, Obj(es)) == Some(Obj(WithoutProto(all)))
              && (WithoutProto(all) == all <==> !Has(es, PROTO))
  {
    MapFieldIs(types, f, es);
    if forall i :: 0 <= i < |es| ==> NormalizeMapValue(types, f, es[i].1).Some? {
      ConvertedAssemble(types, f, es);
      WithoutProtoHolds(ConvertedEntries(types, f, es));
      assert KeysOf(ConvertedEntries(types, f, es)) == KeysOf(es);
      SameKeysHave(ConvertedEntries(types, f, es), es, PROTO);
    } else if Assemble(KeysOf(es), MapResults(types, f, es)).Some? {
      AssembleSome(KeysOf(es), MapResults(types, f, es));
    }
  }

  lemma SameKeysHave(m: Fields, n: Fields, k: string)
    requires KeysOf(m) == KeysOf(n)
    ensures Has(m, k) <==> Has(n, k)
  {
    assert forall i :: 0 <= i < |m| ==> m[i].0 == KeysOf(m)[i] == KeysOf(n)[i] == n[i].0;
    if Has(m, k) {
      var i :| 0 <= i < |m| && m[i].0 == k;
      assert n[i].0 == k;
    }
    if Has(n, k) {
      var i :| 0 <= i < |n| && n[i].0 == k;
      assert m[i].0 == k;
    }
  }

  // ---------- what conversions mean ----------

  /** The whole number an amount stands for, if it is one `toProtoCoin` takes. */
  function AmountGiven(v: Value): Option<nat> {
    match v
    case Leaf(Str(s)) => if s != "" && AllDigits(s) then Some(NatValue(s)) else None
    case Leaf(BigInt(n)) => if n >= 0 then Some(n) else None
    case Leaf(Int(n)) => if 0 <= n < 0x20_0000_0000_0000 then Some(n) else None
    case Leaf(Bytes(bs)) => if |bs| == 1 then Some(bs[0]) else None
    case _ => None
  }

  function CoinGiven(v: Value): Option<(string, nat)> {
    match v
    case Leaf(SdkCoin(d, a)) => if d != "" && a != "" && AllDigits(a) then Some((d, NatValue(a))) else None
    case Obj(fs) =>
      var denom: Option<Value>, amount: Option<Value> := Get(fs, "denom"), Get(fs, "amount");
      if denom.None? || !IsStr(denom.value) || denom.value.leaf.s == "" || amount.None? || AmountGiven(amount.value).None? then None
      else Some((denom.value.leaf.s, AmountGiven(amount.value).value))
    case _ => None
  }

  lemma AmountConverts(v: Value)
    ensures AmountGiven(v).Some? <==> AmountText(v).Some? && AmountText(v).value != "" && AllDigits(AmountText(v).value)
    ensures AmountGiven(v).Some? ==> NatValue(AmountText(v).value) == AmountGiven(v).value
  {
    match v
    case Leaf(BigInt(n)) => IntDigits(n);
    case Leaf(Int(n)) => IntDigits(n);
    case Leaf(Bytes(bs)) => BytesDigits(bs);
    case _ =>
  }

  /** Only a single byte reads as a number: more have commas between them. */
  lemma BytesDigits(bs: seq<byte>)
    ensures BytesText(bs) != "" && AllDigits(BytesText(bs)) <==> |bs| == 1
    ensures |bs| == 1 ==> NatValue(BytesText(bs)) == bs[0]
  {
    if |bs| == 1 {
      NatTextReads(bs[0]);
    } else if |bs| > 1 {
      assert BytesText(bs)[|NatText(bs[0])|] == ',';
    }
  }

  lemma IntDigits(n: int)
    ensures AllDigits(IntText(n)) <==> n >= 0
    ensures IntText(n) != "" && (n >= 0 ==> NatValue(IntText(n)) == n)
  {
    if n >= 0 {
      NatTextReads(n);
    } else {
      assert IntText(n)[0] == '-';
    }
  }

  /** A coin is accepted exactly when it names a denom and a non-negative whole amount, and the proto
      coin has that denom and that amount. */
  lemma CoinConverts(v: Value)
    ensures ToProtoCoin(v).Some? <==> CoinGiven(v).Some?
    ensures ToProtoCoin(v).Some? ==>
              && IsProtoCoin(ToProtoCoin(v).value)
              && var fs := ToProtoCoin(v).value.fields;
                 (fs[1].1.leaf.s, NatValue(fs[2].1.leaf.s)) == CoinGiven(v).value
  {
    match v
    case Leaf(SdkCoin(d, a)) => AmountConverts(Leaf(Str(a)));
    case Obj(fs) =>
      if Get(fs, "amount").Some? {
        AmountConverts(Get(fs, "amount").value);
      }
    case _ =>
  }

  // ---------- bytes ----------

  /** Two lower-case hexadecimal digits for each byte. */
  function BytesToHex(bs: seq<byte>): string
  {
    if bs == [] then [] else [HexDigit(bs[0] / 16), HexDigit(bs[0] % 16)] + BytesToHex(bs[1..])
  }

  lemma {:induction false} HexReadsBack(bs: seq<byte>)
    ensures var h := BytesToHex(bs);
            && |h| == 2 * |bs| && (forall i :: 0 <= i < |h| ==> IsHexDigit(h[i]))
            && PairsToBytes(h) == bs
  {
    if bs != [] {
      HexReadsBack(bs[1..]);
      assert BytesToHex(bs)[2..] == BytesToHex(bs[1..]);
      assert bs == [bs[0]] + bs[1..];
    }
  }

  /** Hexadecimal digits are read the same with and without the prefix. */
  lemma PrefixIgnored(h: string)
    requires |h| % 2 == 0 && forall i :: 0 <= i < |h| ==> IsHexDigit(h[i])
    ensures HexToBytes(h) == Some(PairsToBytes(h)) && HexToBytes("0x" + h) == Some(PairsToBytes(h))
  {
    assert ("0x" + h)[2..] == h;
    assert !("0x" <= h) by {
      if |h| >= 2 {
        assert IsHexDigit(h[1]) && "0x"[1] == 'x';
      }
    }
  }

  lemma HexRead(bs: seq<byte>)
    ensures HexToBytes(BytesToHex(bs)) == HexToBytes("0x" + BytesToHex(bs)) == Some(bs)
  {
    HexReadsBack(bs);
    PrefixIgnored(BytesToHex(bs));
  }

  lemma ScalarHex(s: string, bs: seq<byte>)
    requires HexToBytes(s) == Some(bs)
    ensures NormalizeScalar(BYTES, Leaf(Str(s))) == Some(Leaf(Bytes(bs)))
  {
  }

  lemma {:induction false} PairsLength(h: string)
    requires |h| % 2 == 0 && forall i :: 0 <= i < |h| ==> IsHexDigit(h[i])
    ensures 2 * |PairsToBytes(h)| == |h|
  {
    if h != [] {
      PairsLength(h[2..]);
    }
  }

  lemma {:induction false} PairAt(h: string, i: nat)
    requires |h| % 2 == 0 && forall i :: 0 <= i < |h| ==> IsHexDigit(h[i])
    requires i < |PairsToBytes(h)| && 2 * i + 1 < |h|
    ensures PairsToBytes(h)[i] == 16 * HexDigitValue(h[2 * i]) + HexDigitValue(h[2 * i + 1])
  {
    if i > 0 {
      assert PairsToBytes(h)[i] == PairsToBytes(h[2..])[i - 1];
      PairAt(h[2..], i - 1);
    }
  }

  lemma PairsHold(h: string)
    requires |h| % 2 == 0 && forall i :: 0 <= i < |h| ==> IsHexDigit(h[i])
    ensures 2 * |PairsToBytes(h)| == |h|
    ensures forall i :: 0 <= i < |PairsToBytes(h)| ==>
              PairsToBytes(h)[i] == 16 * HexDigitValue(h[2 * i]) + HexDigitValue(h[2 * i + 1])
  {
    PairsLength(h);
    forall i | 0 <= i < |PairsToBytes(h)|
      ensures PairsToBytes(h)[i] == 16 * HexDigitValue(h[2 * i]) + HexDigitValue(h[2 * i + 1])
    {
      PairAt(h, i);
    }
  }

  /** A text is accepted for a bytes field exactly when it has evenly many hexadecimal digits, of
      either case, after an optional `0x`; each pair of digits is one byte, the first digit counting
      sixteens. */
  lemma HexExactly(s: string)
    ensures var h, r := Unprefixed(s), NormalizeScalar(BYTES, Leaf(Str(s)));
            && (r.Some? <==> |h| % 2 == 0 && forall i :: 0 <= i < |h| ==> IsHexDigit(h[i]))
            && (r.Some? ==>
                && r.value.Leaf? && r.value.leaf.Bytes?
                && 2 * |r.value.leaf.bytes| == |h|
                && forall i :: 0 <= i < |r.value.leaf.bytes| ==>
                     r.value.leaf.bytes[i] == 16 * HexDigitValue(h[2 * i]) + HexDigitValue(h[2 * i + 1]))
  {
    var h := Unprefixed(s);
    assert NormalizeScalar(BYTES, Leaf(Str(s))) == ConvertHex(s);
    if HexToBytes(s).Some? {
      PairsHold(h);
      ScalarHex(s, PairsToBytes(h));
    }
  }

  /** A bytes field given in hexadecimal, prefixed or not, holds exactly the bytes written. */
  lemma HexField(bs: seq<byte>)
    ensures NormalizeScalar(BYTES, Leaf(Str("0x" + BytesToHex(bs)))) == Some(Leaf(Bytes(bs)))
    ensures NormalizeScalar(BYTES, Leaf(Str(BytesToHex(bs)))) == Some(Leaf(Bytes(bs)))
  {
    HexRead(bs);
    ScalarHex("0x" + BytesToHex(bs), bs);
    ScalarHex(BytesToHex(bs), bs);
  }
}
