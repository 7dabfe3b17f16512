/** `normalizeInit`: friendly init objects to what the protobuf schema expects. */
module Normalize {
  import opened Bytes
  import opened Decimal
  import opened Hex
  import opened JsTree
  import opened OrderedMap

  // ---------- init values ----------

  /** A leaf of an init object. `Int` is a number for which `Number.isInteger` holds, `Float` any
      other. The last four are class instances: a Uint8Array, a Date, an SDK Message with what
      `toAny` packs, and an SDK Coin. */
  datatype Atom =
    | Undefined
    | Null
    | Bool(b: bool)
    | Int(n: int)
    | Float(text: string)
    | BigInt(n: int)
    | Str(s: string)
    | Bytes(bytes: seq<byte>)
    | Date(ms: int)
    | Message(typeUrl: string, packed: seq<byte>)
    | SdkCoin(denom: string, amount: string)

  type Value = Tree<Atom>
  type Fields = seq<(string, Value)>

  predicate IsNullish(v: Value) {
    v == Leaf(Null) || v == Leaf(Undefined)
  }

  /** `typeof v === 'object' && v !== null` */
  predicate IsObject(v: Value) {
    match v
    case Leaf(x) => x.Bytes? || x.Date? || x.Message? || x.SdkCoin?
    case _ => true
  }

  predicate IsNumber(v: Value) {
    v.Leaf? && (v.leaf.Int? || v.leaf.Float?)
  }

  predicate IsStr(v: Value) {
    v.Leaf? && v.leaf.Str?
  }

  // ---------- schemas ----------

  datatype ScalarType = BYTES | INT64 | UINT64 | SINT64 | FIXED64 | SFIXED64 | OTHER_SCALAR

  datatype Content = ScalarContent(scalar: ScalarType) | EnumContent | MessageContent(typeName: string)

  datatype FieldKind = Singular | List | Map

  datatype Field = Field(localName: string, kind: FieldKind, content: Content)

  /** The fields of each message type, by type name. A type may contain itself. */
  type Types = map<string, seq<Field>>

  const COIN := "cosmos.base.v1beta1.Coin"
  const ANY := "google.protobuf.Any"
  const TIMESTAMP := "google.protobuf.Timestamp"

  predicate IsBigintScalar(t: ScalarType) {
    t == INT64 || t == UINT64 || t == SINT64 || t == FIXED64 || t == SFIXED64
  }

  function FieldsOf(types: Types, name: string): seq<Field> {
    if name in types then types[name] else []
  }

  function FieldNamed(fields: seq<Field>, key: string): Option<Field> {
    if fields == [] then None
    else if fields[|fields| - 1].localName == key then Some(fields[|fields| - 1])
    else FieldNamed(fields[..|fields| - 1], key)
  }

  /** `$typeName` and `$unknown` */
  predicate IsMeta(key: string) {
    key == "$typeName" || key == "$unknown"
  }

  // ---------- leaf conversions ----------

  const MAX_SAFE_INTEGER := 0x1F_FFFF_FFFF_FFFF

  /** `String(bytes)`: the numbers, with commas between. */
  function BytesText(bs: seq<byte>): string {
    if bs == [] then [] else if |bs| == 1 then NatText(bs[0]) else NatText(bs[0]) + ([','] + BytesText(bs[1..]))
  }

  /** The amount text `toProtoCoin` takes. */
  function AmountText(v: Value): Option<string> {
    match v
    case Leaf(Str(s)) => Some(s)
    case Leaf(BigInt(n)) => Some(IntText(n))
    case Leaf(Int(n)) => if 0 <= n <= MAX_SAFE_INTEGER then Some(IntText(n)) else None
    case Leaf(Bytes(bs)) => Some(BytesText(bs))
    case _ => None
  }

  function ProtoCoin(denom: string, amount: string): Value {
    Obj([("$typeName", Leaf(Str(COIN))), ("denom", Leaf(Str(denom))), ("amount", Leaf(Str(amount)))])
  }

  function CheckedCoin(denom: Option<Value>, amount: Option<Value>): Option<Value> {
    match (denom, amount)
    case (Some(Leaf(Str(d))), Some(a)) =>
      if d == "" || AmountText(a).None? || AmountText(a).value == "" || !AllDigits(AmountText(a).value) then None
      else Some(ProtoCoin(d, AmountText(a).value))
    case _ => None
  }

  /** `toProtoCoin` */
  function ToProtoCoin(v: Value): Option<Value> {
    match v
    case Leaf(SdkCoin(d, a)) => CheckedCoin(Some(Leaf(Str(d))), Some(Leaf(Str(a))))
    case Obj(fs) => CheckedCoin(Get(fs, "denom"), Get(fs, "amount"))
    case _ => None
  }

  function ToAny(typeUrl: string, packed: seq<byte>): Value {
    Obj([("$typeName", Leaf(Str(ANY))), ("typeUrl", Leaf(Str(typeUrl))), ("value", Leaf(Bytes(packed)))])
  }

  /** `timestampFromDate` */
  function FromDate(ms: int): Value {
    Obj([("$typeName", Leaf(Str(TIMESTAMP))), ("seconds", Leaf(BigInt(ms / 1000))), ("nanos", Leaf(Int(ms % 1000 * 1_000_000)))])
  }

  function PairsToBytes(h: string): seq<byte>
    requires |h| % 2 == 0 && forall i :: 0 <= i < |h| ==> IsHexDigit(h[i])
  {
    if h == [] then [] else [16 * HexDigitValue(h[0]) + HexDigitValue(h[1])] + PairsToBytes(h[2..])
  }

  /** The text after an optional `0x`. */
  function Unprefixed(s: string): string {
    if "0x" <= s then s[2..] else s
  }

  /** `hexToBytes` */
  function HexToBytes(s: string): Option<seq<byte>> {
    var h := Unprefixed(s);
    if |h| % 2 != 0 || !(forall i :: 0 <= i < |h| ==> IsHexDigit(h[i])) then None else Some(PairsToBytes(h))
  }

  function ConvertHex(s: string): Option<Value> {
    match HexToBytes(s)
    case None => None
    case Some(b) => Some(Leaf(Bytes(b)))
  }

  /** A value of a scalar of type t: hex to bytes, integers to bigint, anything else as it is. */
  function NormalizeScalar(t: ScalarType, v: Value): Option<Value> {
    match v
    case Leaf(Str(s)) => if t == BYTES then ConvertHex(s) else Some(v)
    case Leaf(Int(n)) => if IsBigintScalar(t) then Some(Leaf(BigInt(n))) else Some(v)
    case Leaf(Float(_)) => if IsBigintScalar(t) then None else Some(v)
    case _ => Some(v)
  }

  /** A singular or repeated value of type Any. */
  function NormalizeAny(v: Value): Option<Value> {
    match v
    case Leaf(Message(typeUrl, packed)) => Some(ToAny(typeUrl, packed))
    case Obj(fs) => if Has(fs, "typeUrl") && Has(fs, "value") then Some(v) else None
    case _ => None
  }

  function NormalizeTimestamp(v: Value): Option<Value> {
    match v
    case Leaf(Date(ms)) => Some(FromDate(ms))
    case Obj(fs) => if Has(fs, "seconds") then Some(v) else None
    case _ => None
  }

  // ---------- all or nothing ----------

  /** The values, if every one is there. */
  function Sequence(rs: seq<Option<Value>>): Option<seq<Value>> {
    if rs == [] then Some([])
    else
      match (Sequence(rs[..|rs| - 1]), rs[|rs| - 1])
      case (Some(vs), Some(v)) => Some(vs + [v])
      case _ => None
  }

  /** The object with these keys and values, if every value is there. */
  function Assemble(keys: seq<string>, rs: seq<Option<Value>>): Option<Fields>
    requires |keys| == |rs|
  {
    if rs == [] then Some([])
    else
      var n := |rs| - 1;
      match (Assemble(keys[..n], rs[..n]), rs[n])
      case (Some(m), Some(v)) => Some(Assign(m, keys[n], v))
      case _ => None
  }

  // ---------- normalizeInit ----------

  /** What `normalizeInit` makes of one property: left out, refused, or kept with a value. */
  datatype Slot = Skip | Fail | Keep(value: Value)

  function CollectSlots(keys: seq<string>, slots: seq<Slot>): Option<Fields>
    requires |keys| == |slots|
  {
    if slots == [] then Some([])
    else
      var n := |slots| - 1;
      match CollectSlots(keys[..n], slots[..n])
      case None => None
      case Some(m) =>
        match slots[n]
        case Skip => Some(m)
        case Fail => None
        case Keep(v) => Some(Put(m, keys[n], v))
  }

  /** An init object for type `name`. Class instances and arrays are objects too: they pass only if
      they have no properties of their own, since no field is called like an index or `_x`. */
  function NormalizeInit(types: Types, name: string, v: Value): Option<Value>
    decreases v, 0
  {
    match v
    case Leaf(x) => if x.Date? || x == Bytes([]) then Some(Obj([])) else None
    case Arr(xs) => if xs == [] then Some(Obj([])) else None
    case Obj(fs) =>
      match CollectSlots(KeysOf(fs), seq(|fs|, i requires 0 <= i < |fs| => NormalizeProperty(types, name, fs[i].0, fs[i].1)))
      case None => None
      case Some(m) => Some(Obj(m))
  }

  function NormalizeProperty(types: Types, name: string, key: string, v: Value): Slot
    decreases v, 3
  {
    if IsMeta(key) then Skip
    else
      match FieldNamed(FieldsOf(types, name), key)
      case None => Fail
      case Some(f) =>
        match NormalizeField(types, f, v)
        case None => Fail
        case Some(w) => Keep(w)
  }

  function NormalizeField(types: Types, f: Field, v: Value): Option<Value>
    decreases v, 2
  {
    if IsNullish(v) then Some(v)
    else if f.kind == Map then
      match v
      case Leaf(x) => NormalizeMapLeaf(types, f, x)
      case Arr(_) => None
      case Obj(es) =>
        (match Assemble(KeysOf(es), seq(|es|, i requires 0 <= i < |es| => NormalizeMapValue(types, f, es[i].1)))
         case None => None
         case Some(m) => Some(Obj(m)))
    else if f.kind == List then
      match v
      case Arr(xs) =>
        (match Sequence(seq(|xs|, i requires 0 <= i < |xs| => NormalizeElement(types, f, xs[i])))
         case None => None
         case Some(ys) => Some(Arr(ys)))
      case _ =>
        // a single coin stands for a list of one
        if f.content == MessageContent(COIN) && ToProtoCoin(v).Some? then Some(Arr([ToProtoCoin(v).value])) else None
    else NormalizeElement(types, f, v)
  }

  /** A singular value, or an element of a list. */
  function NormalizeElement(types: Types, f: Field, v: Value): Option<Value>
    decreases v, 1
  {
    match f.content
    case ScalarContent(t) => NormalizeScalar(t, v)
    case EnumContent => Some(v)
    case MessageContent(name) =>
      if name == COIN then ToProtoCoin(v)
      else if name == ANY then NormalizeAny(v)
      else if name == TIMESTAMP then NormalizeTimestamp(v)
      else if IsObject(v) then NormalizeInit(types, name, v)
      else None
  }

  /** A value of a map field. Values of type Any and Timestamp are not checked. */
  function NormalizeMapValue(types: Types, f: Field, v: Value): Option<Value>
    decreases v, 1
  {
    if IsNullish(v) then Some(v)
    else
      match f.content
      case ScalarContent(t) => NormalizeScalar(t, v)
      case EnumContent => Some(v)
      case MessageContent(name) =>
        if name == COIN then ToProtoCoin(v)
        else if name == ANY then (if v.Leaf? && v.leaf.Message? then Some(ToAny(v.leaf.typeUrl, v.leaf.packed)) else Some(v))
        else if name == TIMESTAMP then (if v.Leaf? && v.leaf.Date? then Some(FromDate(v.leaf.ms)) else Some(v))
        else if IsObject(v) then NormalizeInit(types, name, v)
        else None
  }

  /** A class instance given for a map: its own properties are the entries. Those of a Message are
      not part of this model. */
  function OwnProperties(x: Atom): Option<seq<(string, Atom)>> {
    match x
    case Bytes(bs) => Some(seq(|bs|, i requires 0 <= i < |bs| => (NatText(i), Int(bs[i]))))
    case Date(_) => Some([])
    case SdkCoin(d, a) => Some([("denom", Str(d)), ("_amount", Str(a))])
    case _ => None
  }

  function NormalizeMapLeaf(types: Types, f: Field, x: Atom): Option<Value>
    decreases Leaf(x), 2
  {
    match OwnProperties(x)
    case None => None
    case Some(es) =>
      match Assemble(KeysOf(es), seq(|es|, i requires 0 <= i < |es| => NormalizeMapAtom(f, es[i].1)))
      case None => None
      case Some(m) => Some(Obj(m))
  }

  /** A number or a string as a map value. */
  function NormalizeMapAtom(f: Field, x: Atom): Option<Value> {
    match f.content
    case ScalarContent(t) => NormalizeScalar(t, Leaf(x))
    case EnumContent => Some(Leaf(x))
    case MessageContent(name) => if name == ANY || name == TIMESTAMP then Some(Leaf(x)) else None
  }

  // ---------- analyzeFields ----------

  datatype FieldAnalysis = FieldAnalysis(
    coinListFields: set<string>,
    coinSingularFields: set<string>,
    bytesFields: set<string>,
    bigintFields: set<string>,
    fieldMap: map<string, Field>)

  predicate IsCoinField(f: Field) {
    f.kind != Map && f.content == MessageContent(COIN)
  }

  /** No two fields of a type share a name. */
  ghost predicate DistinctFields(fields: seq<Field>) {
    forall i, j :: 0 <= i < j < |fields| ==> fields[i].localName != fields[j].localName
  }

  ghost predicate WellNamed(types: Types) {
    forall name :: name in types ==> DistinctFields(types[name])
  }

  /** The analysis files a key as that of this field, or of none. */
  ghost predicate Files(a: FieldAnalysis, key: string, f: Option<Field>) {
    && (key in a.fieldMap <==> f.Some?)
    && (f.Some? ==> a.fieldMap[key] == f.value)
    && (key in a.coinListFields <==> f.Some? && IsCoinField(f.value) && f.value.kind == List)
    && (key in a.coinSingularFields <==> f.Some? && IsCoinField(f.value) && f.value.kind == Singular)
    && (key in a.bytesFields <==> f.Some? && f.value.kind == Singular && f.value.content == ScalarContent(BYTES))
    && (key in a.bigintFields <==>
        f.Some? && f.value.kind == Singular && f.value.content.ScalarContent? && IsBigintScalar(f.value.content.scalar))
  }

  /** The analysis puts a key in each set exactly when the field of that name belongs there. */
  ghost predicate Analyzes(a: FieldAnalysis, fields: seq<Field>) {
    forall key :: Files(a, key, FieldNamed(fields, key))
  }

  lemma {:induction false} NamedIn(fields: seq<Field>, key: string)
    ensures FieldNamed(fields, key).Some? <==> exists i :: 0 <= i < |fields| && fields[i].localName == key
    ensures FieldNamed(fields, key).Some? ==> FieldNamed(fields, key).value.localName == key
  {
    if fields != [] {
      NamedIn(fields[..|fields| - 1], key);
      assert fields == fields[..|fields| - 1] + [fields[|fields| - 1]];
    }
  }

  lemma FieldNamedSnoc(fields: seq<Field>, f: Field, key: string)
    ensures FieldNamed(fields + [f], key) == if f.localName == key then Some(f) else FieldNamed(fields, key)
  {
    assert (fields + [f])[..|fields|] == fields;
  }

  /** `normalizeInit` with its per-schema cache. */
  class Normalizer {
    const types: Types
    var cache: map<string, FieldAnalysis>

    ghost predicate Valid()
      reads this
    {
      WellNamed(types) && forall name :: name in cache ==> Analyzes(cache[name], FieldsOf(types, name))
    }

    constructor (types: Types)
      requires WellNamed(types)
      ensures this.types == types && Valid()
    {
      this.types, cache := types, map[];
    }

    method AnalyzeFields(name: string) returns (a: FieldAnalysis)
      requires Valid()
      modifies this
      ensures Valid() && Analyzes(a, FieldsOf(types, name))
    {
      if name in cache {
        return cache[name];
      }
      var fields := FieldsOf(types, name);
      a := FieldAnalysis({}, {}, {}, {}, map[]);
      for i := 0 to |fields|
        invariant Valid() && Analyzes(a, fields[..i])
      {
        assert fields[..i + 1] == fields[..i] + [fields[i]];
        NamedIn(fields[..i], fields[i].localName);
        a := AnalyzeField(a, fields[i], fields[..i]);
      }
      assert fields[..|fields|] == fields;
      cache := cache[name := a];
    }

    /** One field, after those in `before`. */
    method AnalyzeField(a: FieldAnalysis, f: Field, ghost before: seq<Field>) returns (a': FieldAnalysis)
      requires Analyzes(a, before) && FieldNamed(before, f.localName).None?
      ensures Analyzes(a', before + [f])
    {
      assert Files(a, f.localName, None);
      a' := a.(fieldMap := a.fieldMap[f.localName := f]);
      if f.kind != Map && f.content == MessageContent(COIN) {
        if f.kind == List {
          a' := a'.(coinListFields := a.coinListFields + {f.localName});
        } else {
          a' := a'.(coinSingularFields := a.coinSingularFields + {f.localName});
        }
      } else if f.kind == Singular && f.content.ScalarContent? {
        if f.content.scalar == BYTES {
          a' := a'.(bytesFields := a.bytesFields + {f.localName});
        } else if IsBigintScalar(f.content.scalar) {
          a' := a'.(bigintFields := a.bigintFields + {f.localName});
        }
      }
      assert Files(a', f.localName, Some(f));
      forall key ensures Files(a', key, FieldNamed(before + [f], key)) {
        FieldNamedSnoc(before, f, key);
        assert Files(a, key, FieldNamed(before, key));
      }
    }

    /** The loop over the properties of an init object. */
    method Init(name: string, init: Value) returns (r: Option<Value>)
      requires Valid()
      modifies this
      ensures Valid() && r == NormalizeInit(types, name, init)
      decreases init, 0
    {
      if !IsObject(init) {
        return None;
      }
      var a := AnalyzeFields(name);
      match init
      case Leaf(x) =>
        r := if x.Date? || x == Bytes([]) then Some(Obj([])) else None;
      case Arr(xs) =>
        r := if xs == [] then Some(Obj([])) else None;
      case Obj(fs) =>
        r := Properties(a, name, init, fs);
    }

    method Properties(a: FieldAnalysis, name: string, ghost init: Value, fs: Fields) returns (r: Option<Value>)
      requires Valid() && Analyzes(a, FieldsOf(types, name)) && init == Obj(fs)
      modifies this
      ensures Valid() && r == NormalizeInit(types, name, init)
      decreases init, 0, 0
    {
      ghost var slots := seq(|fs|, i requires 0 <= i < |fs| => NormalizeProperty(types, name, fs[i].0, fs[i].1));
      ghost var keys := KeysOf(fs);
      var result := [];
      for i := 0 to |fs|
        invariant Valid()
        invariant CollectSlots(keys[..i], slots[..i]) == Some(result)
      {
        var (key, value) := fs[i];
        SlotsStep(keys, slots, i);
        assert value < init by { assert value == init.fields[i].1; }
        if IsMeta(key) {
          continue;
        }
        assert Files(a, key, FieldNamed(FieldsOf(types, name), key));
        if key !in a.fieldMap {
          SlotsFail(keys, slots, i + 1);
          return None;
        }
        var w := FieldValue(a, name, key, value);
        if w.None? {
          SlotsFail(keys, slots, i + 1);
          return None;
        }
        result := Put(result, key, w.value);
      }
      assert keys[..|fs|] == keys && slots[..|fs|] == slots;
      r := Some(Obj(result));
    }

    /** The branches on the field sets, and the rest on the field's descriptor. */
    method FieldValue(a: FieldAnalysis, ghost name: string, key: string, value: Value) returns (r: Option<Value>)
      requires Valid() && Analyzes(a, FieldsOf(types, name)) && key in a.fieldMap
      modifies this
      ensures Valid() && r == NormalizeField(types, a.fieldMap[key], value)
      decreases value, 3
    {
      assert Files(a, key, FieldNamed(FieldsOf(types, name), key));
      var f := a.fieldMap[key];
      if IsNullish(value) {
        return Some(value);
      }
      if key in a.coinListFields {
        if value.Arr? {
          r := Elements(f, value, value.items);
        } else {
          var c := ToProtoCoin(value);
          r := if c.Some? then Some(Arr([c.value])) else None;
        }
      } else if key in a.coinSingularFields {
        r := ToProtoCoin(value);
      } else if key in a.bytesFields && IsStr(value) {
        r := ConvertHex(value.leaf.s);
      } else if key in a.bigintFields && IsNumber(value) {
        r := if value.leaf.Int? then Some(Leaf(BigInt(value.leaf.n))) else None;
      } else if f.kind == Map {
        match value
        case Leaf(x) => r := NormalizeMapLeaf(types, f, x);
        case Arr(_) => r := None;
        case Obj(es) => r := Entries(f, value, es);
      } else if f.kind == List {
        if value.Arr? {
          r := Elements(f, value, value.items);
        } else {
          r := None;
        }
      } else {
        r := Element(f, value);
      }
    }

    method Element(f: Field, v: Value) returns (r: Option<Value>)
      requires Valid()
      modifies this
      ensures Valid() && r == NormalizeElement(types, f, v)
      decreases v, 1
    {
      match f.content
      case ScalarContent(t) => r := NormalizeScalar(t, v);
      case EnumContent => r := Some(v);
      case MessageContent(name) =>
        if name == COIN {
          r := ToProtoCoin(v);
        } else if name == ANY {
          r := NormalizeAny(v);
        } else if name == TIMESTAMP {
          r := NormalizeTimestamp(v);
        } else if IsObject(v) {
          r := Init(name, v);
        } else {
          r := None;
        }
    }

    method Elements(f: Field, ghost owner: Value, xs: seq<Value>) returns (r: Option<Value>)
      requires Valid() && owner == Arr(xs)
      modifies this
      ensures Valid()
      ensures r == match Sequence(seq(|xs|, i requires 0 <= i < |xs| => NormalizeElement(types, f, xs[i])))
                   case None => None
                   case Some(ys) => Some(Arr(ys))
      decreases owner, 2
    {
      ghost var results := seq(|xs|, i requires 0 <= i < |xs| => NormalizeElement(types, f, xs[i]));
      var items := [];
      for i := 0 to |xs|
        invariant Valid()
        invariant Sequence(results[..i]) == Some(items)
      {
        assert results[..i + 1][..i] == results[..i];
        assert xs[i] < owner by { assert xs[i] == owner.items[i]; }
        var y := Element(f, xs[i]);
        if y.None? {
          SequenceFails(results, i + 1);
          return None;
        }
        items := items + [y.value];
      }
      assert results[..|xs|] == results;
      r := Some(Arr(items));
    }

    /** The loop over the entries of a map. */
    method Entries(f: Field, ghost owner: Value, es: Fields) returns (r: Option<Value>)
      requires Valid() && owner == Obj(es)
      modifies this
      ensures Valid()
      ensures r == match Assemble(KeysOf(es), seq(|es|, i requires 0 <= i < |es| => NormalizeMapValue(types, f, es[i].1)))
                   case None => None
                   case Some(m) => Some(Obj(m))
      decreases owner, 2
    {
      ghost var results := seq(|es|, i requires 0 <= i < |es| => NormalizeMapValue(types, f, es[i].1));
      ghost var keys := KeysOf(es);
      var transformed := [];
      for i := 0 to |es|
        invariant Valid()
        invariant Assemble(keys[..i], results[..i]) == Some(transformed)
      {
        var (mk, mv) := es[i];
        assert keys[..i + 1][..i] == keys[..i] && results[..i + 1][..i] == results[..i];
        assert mv < owner by { assert mv == owner.fields[i].1; }
        var w := MapValue(f, mv);
        if w.None? {
          AssembleFails(keys, results, i + 1);
          return None;
        }
        transformed := Assign(transformed, mk, w.value);
      }
      assert keys[..|es|] == keys && results[..|es|] == results;
      r := Some(Obj(transformed));
    }

    method MapValue(f: Field, v: Value) returns (r: Option<Value>)
      requires Valid()
      modifies this
      ensures Valid() && r == NormalizeMapValue(types, f, v)
      decreases v, 1
    {
      if f.content.MessageContent? && f.content.typeName != COIN && f.content.typeName != ANY &&
         f.content.typeName != TIMESTAMP && IsObject(v)
      {
        r := Init(f.content.typeName, v);
      } else {
        r := NormalizeMapValue(types, f, v);
      }
    }
  }

  lemma SlotsStep(keys: seq<string>, slots: seq<Slot>, i: nat)
    requires i < |keys| == |slots|
    ensures CollectSlots(keys[..i + 1], slots[..i + 1]) ==
            match CollectSlots(keys[..i], slots[..i])
            case None => None
            case Some(m) =>
              match slots[i]
              case Skip => Some(m)
              case Fail => None
              case Keep(v) => Some(Put(m, keys[i], v))
  {
    assert keys[..i + 1][..i] == keys[..i] && slots[..i + 1][..i] == slots[..i];
  }

  lemma {:induction false} SlotsFail(keys: seq<string>, slots: seq<Slot>, n: nat)
    requires n <= |keys| == |slots| && CollectSlots(keys[..n], slots[..n]).None?
    ensures CollectSlots(keys, slots).None?
    decreases |keys| - n
  {
    if n < |keys| {
      assert keys[..n + 1][..n] == keys[..n] && slots[..n + 1][..n] == slots[..n];
      SlotsFail(keys, slots, n + 1);
    } else {
      assert keys[..n] == keys && slots[..n] == slots;
    }
  }

  lemma {:induction false} SequenceFails(rs: seq<Option<Value>>, n: nat)
    requires n <= |rs| && Sequence(rs[..n]).None?
    ensures Sequence(rs).None?
    decreases |rs| - n
  {
    if n < |rs| {
      assert rs[..n + 1][..n] == rs[..n];
      SequenceFails(rs, n + 1);
    } else {
      assert rs[..n] == rs;
    }
  }

  lemma {:induction false} AssembleFails(keys: seq<string>, rs: seq<Option<Value>>, n: nat)
    requires n <= |rs| == |keys| && Assemble(keys[..n], rs[..n]).None?
    ensures Assemble(keys, rs).None?
    decreases |rs| - n
  {
    if n < |rs| {
      assert rs[..n + 1][..n] == rs[..n] && keys[..n + 1][..n] == keys[..n];
      AssembleFails(keys, rs, n + 1);
    } else {
      assert rs[..n] == rs && keys[..n] == keys;
    }
  }
}
