/** What normalisation makes of an init object: the normal form that means the same. */
module NormalizeMeaning {
  import opened Bytes
  import opened Decimal
  import opened Hex
  import opened JsTree
  import opened Normalize
  import opened NormalizeProofs
  import opened OrderedMap

  // ---------- the meaning of leaves ----------

  /** The integer a number or a bigint stands for. */
  function IntegerOf(v: Value): Option<int> {
    match v
    case Leaf(Int(n)) => Some(n)
    case Leaf(BigInt(n)) => Some(n)
    case _ => None
  }

  /** Two hexadecimal digits for each byte, the first counting sixteens. */
  predicate SpellsBytes(h: string, bs: seq<byte>) {
    && |h| == 2 * |bs|
    && (forall i :: 0 <= i < |h| ==> IsHexDigit(h[i]))
    && forall i :: 0 <= i < |bs| ==> bs[i] == 16 * HexDigitValue(h[2 * i]) + HexDigitValue(h[2 * i + 1])
  }

  /** A text for a bytes field means the bytes it spells, a number for a 64-bit field its integer, and
      anything else itself. */
  predicate MeansScalar(t: ScalarType, v: Value, w: Value) {
    if t == BYTES && IsStr(v) then w.Leaf? && w.leaf.Bytes? && SpellsBytes(Unprefixed(v.leaf.s), w.leaf.bytes)
    else if Is64Bit(t) && IntegerOf(v).Some? then IntegerOf(w) == IntegerOf(v)
    else w == v
  }

  /** The denom and the amount of a coin, as given. */
  function CoinOf(v: Value): Option<(string, Value)> {
    match v
    case Leaf(SdkCoin(d, a)) => Some((d, Leaf(Str(a))))
    case Obj(fs) =>
      var denom: Option<Value>, amount: Option<Value> := Get(fs, "denom"), Get(fs, "amount");
      if denom.Some? && IsStr(denom.value) && amount.Some? then Some((denom.value.leaf.s, amount.value)) else None
    case _ => None
  }

  /** The numeral of n without needless zeros. */
  predicate IsPlainNumeral(text: string, n: nat) {
    text != "" && AllDigits(text) && NatValue(text) == n && (|text| > 1 ==> text[0] != '0')
  }

  /** The text an amount is written as: a text as it is, a number by its plain numeral. */
  predicate WritesAmount(amount: Value, text: string) {
    if IsStr(amount) then text == amount.leaf.s
    else AmountGiven(amount).Some? && IsPlainNumeral(text, AmountGiven(amount).value)
  }

  /** A coin means the proto coin of its denom and its amount. */
  predicate MeansCoin(v: Value, w: Value) {
    && CoinOf(v).Some? && w.Obj? && |w.fields| == 3 && IsStr(w.fields[2].1)
    && w.fields == [("$typeName", Leaf(Str("cosmos.base.v1beta1.Coin"))), ("denom", Leaf(Str(CoinOf(v).value.0))), ("amount", w.fields[2].1)]
    && WritesAmount(CoinOf(v).value.1, w.fields[2].1.leaf.s)
  }

  /** A Message means the Any of its type and its bytes. */
  predicate MeansAny(v: Value, w: Value) {
    if v.Leaf? && v.leaf.Message? then
      w == Obj([("$typeName", Leaf(Str("google.protobuf.Any"))), ("typeUrl", Leaf(Str(v.leaf.typeUrl))), ("value", Leaf(Bytes(v.leaf.packed)))])
    else w == v
  }

  /** The Timestamp of so many seconds and nanoseconds. */
  function TimestampOf(seconds: int, nanos: int): Value {
    Obj([("$typeName", Leaf(Str("google.protobuf.Timestamp"))), ("seconds", Leaf(BigInt(seconds))), ("nanos", Leaf(Int(nanos)))])
  }

  /** A Date means the Timestamp of the same instant. */
  ghost predicate MeansTimestamp(v: Value, w: Value) {
    if v.Leaf? && v.leaf.Date? then
      exists seconds, nanos ::
        w == TimestampOf(seconds, nanos) && 0 <= nanos < 1_000_000_000 &&
        seconds * 1_000_000_000 + nanos == v.leaf.ms * 1_000_000
    else w == v
  }

  // ---------- the meaning of objects, lists and maps ----------

  /** An object means its properties but the two metadata keys, in order, each what its field means. */
  ghost predicate MeansInit(types: Types, name: string, v: Value, w: Value)
    decreases v, 0
  {
    && w.Obj?
    && match v
       case Leaf(x) => (x.Date? || x == Bytes([])) && w.fields == []
       case Arr(xs) => xs == [] && w.fields == []
       case Obj(fs) =>
         && KeysOf(w.fields) == KeysOf(WithoutMeta(fs))
         && forall i, j :: 0 <= i < |fs| && 0 <= j < |w.fields| && fs[i].0 == w.fields[j].0 ==>
              MeansProperty(types, name, fs[i].0, fs[i].1, w.fields[j].1)
  }

  ghost predicate MeansProperty(types: Types, name: string, key: string, v: Value, w: Value)
    decreases v, 3
  {
    var f := FieldNamed(FieldsOf(types, name), key);
    f.Some? ==> MeansField(types, f.value, v, w)
  }

  ghost predicate MeansField(types: Types, f: Field, v: Value, w: Value)
    decreases v, 2
  {
    if IsNullish(v) then w == v
    else
      match f.kind
      case Map =>
        (match v
         case Leaf(x) => MeansOwn(f, x, w)
         case Arr(_) => false
         case Obj(es) => exists ws :: |ws| == |es| && w == Obj(WithoutProto(Zip(es, ws))) &&
                                      forall i :: 0 <= i < |es| ==> NormalMapValue(types, f, ws[i]) && MeansMapValue(types, f, es[i].1, ws[i]))
      case List =>
        (match v
         case Arr(xs) => w.Arr? && |w.items| == |xs| && forall i :: 0 <= i < |xs| ==> MeansElement(types, f, xs[i], w.items[i])
         case _ => f.content == MessageContent(COIN) && w.Arr? && |w.items| == 1 && MeansCoin(v, w.items[0]))
      case Singular => MeansElement(types, f, v, w)
  }

  /** The entries with other values. */
  function Zip<V, W>(es: seq<(string, V)>, ws: seq<W>): (m: seq<(string, W)>)
    requires |ws| == |es|
    ensures |m| == |es| && forall i :: 0 <= i < |es| ==> m[i] == (es[i].0, ws[i])
  {
    seq(|es|, i requires 0 <= i < |es| => (es[i].0, ws[i]))
  }

  ghost predicate MeansElement(types: Types, f: Field, v: Value, w: Value)
    decreases v, 1
  {
    match f.content
    case ScalarContent(t) => MeansScalar(t, v, w)
    case EnumContent => w == v
    case MessageContent(name) =>
      if name == COIN then MeansCoin(v, w)
      else if name == ANY then MeansAny(v, w)
      else if name == TIMESTAMP then MeansTimestamp(v, w)
      else MeansInit(types, name, v, w)
  }

  ghost predicate MeansMapValue(types: Types, f: Field, v: Value, w: Value)
    decreases v, 2
  {
    if IsNullish(v) then w == v else MeansElement(types, f, v, w)
  }

  /** A class instance given for a map means the map of its own properties. */
  ghost predicate MeansOwn(f: Field, x: Atom, w: Value) {
    && OwnProperties(x).Some?
    && var es := OwnProperties(x).value;
       exists ws :: |ws| == |es| && w == Obj(WithoutProto(Zip(es, ws))) &&
                    forall i :: 0 <= i < |es| ==> MeansAtom(f, es[i].1, ws[i])
  }

  predicate MeansAtom(f: Field, x: Atom, w: Value) {
    match f.content
    case ScalarContent(t) => MeansScalar(t, Leaf(x), w) && IsNormalScalar(t, w)
    case EnumContent => w == Leaf(x)
    case MessageContent(name) => (name == ANY || name == TIMESTAMP) && w == Leaf(x)
  }

  // ---------- leaves ----------

  lemma {:induction false} SpellsUnique(h: string, bs: seq<byte>)
    requires SpellsBytes(h, bs)
    ensures PairsToBytes(h) == bs
  {
    PairsHold(h);
  }

  lemma ScalarMeans(t: ScalarType, v: Value, w: Value)
    ensures NormalizeScalar(t, v) == Some(w) <==> IsNormalScalar(t, w) && MeansScalar(t, v, w)
  {
    if t == BYTES && IsStr(v) {
      HexMeans(v.leaf.s, w);
    }
  }

  lemma HexMeans(s: string, w: Value)
    ensures NormalizeScalar(BYTES, Leaf(Str(s))) == Some(w) <==>
            w.Leaf? && w.leaf.Bytes? && SpellsBytes(Unprefixed(s), w.leaf.bytes)
  {
    var h := Unprefixed(s);
    HexExactly(s);
    if |h| % 2 == 0 && forall i :: 0 <= i < |h| ==> IsHexDigit(h[i]) {
      PairsHold(h);
      ScalarHex(s, PairsToBytes(h));
      assert SpellsBytes(h, PairsToBytes(h));
    }
    if w.Leaf? && w.leaf.Bytes? && SpellsBytes(h, w.leaf.bytes) {
      SpellsUnique(h, w.leaf.bytes);
    }
  }

  /** Plain numerals are what integers are printed as. */
  lemma {:induction false} PlainNumeralUnique(text: string, n: nat)
    requires IsPlainNumeral(text, n)
    ensures text == NatText(n)
  {
    var front, last := text[..|text| - 1], text[|text| - 1];
    if |text| == 1 {
      assert NatValue(front) == 0 && text == [last];
    } else {
      assert text[0] == front[0];
      PositiveNumeral(front);
      assert n == 10 * NatValue(front) + DigitOf(last);
      assert n / 10 == NatValue(front) && n % 10 == DigitOf(last);
      PlainNumeralUnique(front, n / 10);
      assert text == front + [last];
    }
  }

  lemma {:induction false} PositiveNumeral(s: string)
    requires s != "" && AllDigits(s) && s[0] != '0'
    ensures NatValue(s) > 0
  {
    if |s| > 1 {
      PositiveNumeral(s[..|s| - 1]);
    } else {
      assert s[..0] == [];
    }
  }

  lemma PlainNumeralOf(n: nat)
    ensures IsPlainNumeral(NatText(n), n)
  {
    NatTextReads(n);
    if n > 0 {
      NatTextNoLeadingZero(n);
    }
  }

  lemma AmountWrites(amount: Value, text: string)
    ensures (text != "" && AllDigits(text) && WritesAmount(amount, text)) <==>
            AmountText(amount) == Some(text) && text != "" && AllDigits(text)
  {
    AmountConverts(amount);
    if !IsStr(amount) && AmountGiven(amount).Some? {
      var n := AmountGiven(amount).value;
      PlainNumeralOf(n);
      if IsPlainNumeral(text, n) {
        PlainNumeralUnique(text, n);
      }
      AmountTextIs(amount);
    }
  }

  lemma AmountTextIs(amount: Value)
    requires !IsStr(amount) && AmountGiven(amount).Some?
    ensures AmountText(amount) == Some(NatText(AmountGiven(amount).value))
  {
  }

  lemma CheckedCoinIs(d: string, amount: Value)
    ensures CheckedCoin(Some(Leaf(Str(d))), Some(amount)) ==
            (var text := AmountText(amount);
             if d == "" || text.None? || text.value == "" || !AllDigits(text.value) then None else Some(ProtoCoin(d, text.value)))
  {
  }

  lemma CoinMeans(v: Value, w: Value)
    ensures ToProtoCoin(v) == Some(w) <==> IsProtoCoin(w) && MeansCoin(v, w)
  {
    if CoinOf(v).Some? {
      var (d, amount) := CoinOf(v).value;
      CheckedCoinIs(d, amount);
      assert ToProtoCoin(v) == CheckedCoin(Some(Leaf(Str(d))), Some(amount));
      if AmountText(amount).Some? {
        AmountWrites(amount, AmountText(amount).value);
      }
      if IsProtoCoin(w) && MeansCoin(v, w) {
        AmountWrites(amount, w.fields[2].1.leaf.s);
      }
    } else {
      CoinConverts(v);
    }
  }

  lemma AnyMeans(v: Value, w: Value)
    ensures NormalizeAny(v) == Some(w) <==> IsAnyShape(w) && MeansAny(v, w)
  {
    AnyNormalizes(v);
    AnyNormalizes(w);
  }

  lemma TimestampUnique(ms: int, seconds: int, nanos: int)
    requires 0 <= nanos < 1_000_000_000 && seconds * 1_000_000_000 + nanos == ms * 1_000_000
    ensures seconds == ms / 1000 && nanos == ms % 1000 * 1_000_000
  {
  }

  lemma DateMeans(ms: int, w: Value)
    ensures w == FromDate(ms) <==> MeansTimestamp(Leaf(Date(ms)), w)
  {
    assert ms / 1000 * 1_000_000_000 + ms % 1000 * 1_000_000 == ms * 1_000_000;
    assert FromDate(ms) == TimestampOf(ms / 1000, ms % 1000 * 1_000_000);
    forall seconds, nanos |
      w == TimestampOf(seconds, nanos) && 0 <= nanos < 1_000_000_000 && seconds * 1_000_000_000 + nanos == ms * 1_000_000
      ensures w == FromDate(ms)
    {
      TimestampUnique(ms, seconds, nanos);
    }
  }

  lemma TimestampMeans(v: Value, w: Value)
    ensures NormalizeTimestamp(v) == Some(w) <==> IsTimestampShape(w) && MeansTimestamp(v, w)
  {
    TimestampNormalizes(v);
    TimestampNormalizes(w);
    if v.Leaf? && v.leaf.Date? {
      DateMeans(v.leaf.ms, w);
    }
  }

  // ---------- everything else ----------

  lemma {:induction false} InitMeans(types: Types, name: string, v: Value, w: Value)
    requires WellFormed(v)
    ensures NormalizeInit(types, name, v) == Some(w) <==> NormalForm(types, name, w) && MeansInit(types, name, v, w)
    decreases v, 0
  {
    if v.Obj? {
      forall i, u, f | 0 <= i < |v.fields|
        ensures NormalizeField(types, f, v.fields[i].1) == Some(u) <==> NormalField(types, f, u) && MeansField(types, f, v.fields[i].1, u)
      {
        FieldMeans(types, f, v.fields[i].1, u);
      }
      ObjectMeans(types, name, v.fields, w);
    }
  }

  /** The properties of one object, given what their values mean. */
  lemma ObjectMeans(types: Types, name: string, fs: Fields, w: Value)
    requires Distinct(fs)
    requires forall i, u, f :: 0 <= i < |fs| ==>
               (NormalizeField(types, f, fs[i].1) == Some(u) <==> NormalField(types, f, u) && MeansField(types, f, fs[i].1, u))
    ensures NormalizeInit(types, name, Obj(fs)) == Some(w) <==> NormalForm(types, name, w) && MeansInit(types, name, Obj(fs), w)
  {
    if NormalizeInit(types, name, Obj(fs)) == Some(w) {
      InitIsNormal(types, name, Obj(fs));
      PropertiesKept(types, name, fs);
      MirrorsMean(types, name, fs, w);
    }
    if NormalForm(types, name, w) && MeansInit(types, name, Obj(fs), w) {
      MeaningAccepted(types, name, fs, w);
    }
  }

  lemma {:induction false} KeptIn(fs: Fields)
    ensures forall p :: p in WithoutMeta(fs) <==> p in fs && !IsMeta(p.0)
  {
    if fs != [] {
      var front, last := fs[..|fs| - 1], fs[|fs| - 1];
      KeptIn(front);
      assert fs == front + [last];
    }
  }

  lemma SameKeySame(fs: Fields, i: nat, p: (string, Value))
    requires Distinct(fs) && i < |fs| && p in fs && p.0 == fs[i].0
    ensures p == fs[i]
  {
    var j :| 0 <= j < |fs| && fs[j] == p;
  }

  lemma PropertyMeans(types: Types, name: string, key: string, v: Value, w: Value)
    requires FieldBecomes(types, name, key, v, w)
    requires forall u, f ::
               (NormalizeField(types, f, v) == Some(u) <==> NormalField(types, f, u) && MeansField(types, f, v, u))
    ensures MeansProperty(types, name, key, v, w)
  {
  }

  lemma MirrorsMean(types: Types, name: string, fs: Fields, w: Value)
    requires Distinct(fs) && w.Obj? && Mirrors(types, name, w.fields, WithoutMeta(fs))
    requires forall i, u, f :: 0 <= i < |fs| ==>
               (NormalizeField(types, f, fs[i].1) == Some(u) <==> NormalField(types, f, u) && MeansField(types, f, fs[i].1, u))
    ensures MeansInit(types, name, Obj(fs), w)
  {
    var kept := WithoutMeta(fs);
    assert KeysOf(w.fields) == KeysOf(kept);
    KeptIn(fs);
    forall i, j | 0 <= i < |fs| && 0 <= j < |w.fields| && fs[i].0 == w.fields[j].0
      ensures MeansProperty(types, name, fs[i].0, fs[i].1, w.fields[j].1)
    {
      assert kept[j] in kept && kept[j].0 == w.fields[j].0;
      SameKeySame(fs, i, kept[j]);
      assert FieldBecomes(types, name, fs[i].0, fs[i].1, w.fields[j].1);
      PropertyMeans(types, name, fs[i].0, fs[i].1, w.fields[j].1);
    }
  }

  /** A property of an object whose meaning w is normal becomes what stands in its place. */
  lemma PropertyAccepted(types: Types, name: string, fs: Fields, w: Value, i: nat) returns (j: nat)
    requires Distinct(fs) && i < |fs| && !IsMeta(fs[i].0)
    requires NormalForm(types, name, w) && MeansInit(types, name, Obj(fs), w)
    requires forall u, f ::
               (NormalizeField(types, f, fs[i].1) == Some(u) <==> NormalField(types, f, u) && MeansField(types, f, fs[i].1, u))
    ensures j < |w.fields| && w.fields[j].0 == fs[i].0
    ensures FieldBecomes(types, name, fs[i].0, fs[i].1, w.fields[j].1)
  {
    var kept := WithoutMeta(fs);
    KeptIn(fs);
    assert fs[i] in kept;
    j :| 0 <= j < |kept| && kept[j] == fs[i];
    assert KeysOf(w.fields)[j] == KeysOf(kept)[j];
    assert NormalProperty(types, name, w.fields[j].0, w.fields[j].1);
    assert MeansProperty(types, name, fs[i].0, fs[i].1, w.fields[j].1);
  }

  lemma MeaningAccepted(types: Types, name: string, fs: Fields, w: Value)
    requires Distinct(fs) && NormalForm(types, name, w) && MeansInit(types, name, Obj(fs), w)
    requires forall i, u, f :: 0 <= i < |fs| ==>
               (NormalizeField(types, f, fs[i].1) == Some(u) <==> NormalField(types, f, u) && MeansField(types, f, fs[i].1, u))
    ensures NormalizeInit(types, name, Obj(fs)) == Some(w)
  {
    forall i | 0 <= i < |fs| ensures IsMeta(fs[i].0) || FieldAccepts(types, name, fs[i].0, fs[i].1) {
      if !IsMeta(fs[i].0) {
        var j := PropertyAccepted(types, name, fs, w, i);
      }
    }
    AcceptedExactly(types, name, fs);
    PropertiesKept(types, name, fs);
    var m, kept := NormalizeInit(types, name, Obj(fs)).value.fields, WithoutMeta(fs);
    KeptIn(fs);
    assert |m| == |w.fields| by { assert |KeysOf(w.fields)| == |KeysOf(kept)|; }
    forall j | 0 <= j < |m| ensures m[j] == w.fields[j] {
      assert KeysOf(w.fields)[j] == KeysOf(kept)[j];
      assert kept[j] in kept;
      var i :| 0 <= i < |fs| && fs[i] == kept[j];
      var k := PropertyAccepted(types, name, fs, w, i);
      assert k == j;
    }
    assert m == w.fields;
  }

  lemma {:induction false} FieldMeans(types: Types, f: Field, v: Value, w: Value)
    requires WellFormed(v)
    ensures NormalizeField(types, f, v) == Some(w) <==> NormalField(types, f, w) && MeansField(types, f, v, w)
    decreases v, 2
  {
    if IsNullish(v) {
    } else {
      match f.kind
      case Map => if v.Obj? { MapMeans(types, f, v, w); } else if v.Leaf? { OwnMeans(types, f, v.leaf, w); }
      case List => if v.Arr? { ListMeans(types, f, v, w); } else { OneCoinMeans(types, f, v, w); }
      case Singular =>
        ElementMeans(types, f, v, w);
        if MeansElement(types, f, v, w) { NotNullish(types, f, v, w); }
    }
  }

  /** What is not null means nothing that is. */
  lemma NotNullish(types: Types, f: Field, v: Value, w: Value)
    requires !IsNullish(v) && MeansElement(types, f, v, w)
    ensures !IsNullish(w)
  {
  }

  lemma OneCoinMeans(types: Types, f: Field, v: Value, w: Value)
    requires f.kind == List && !IsNullish(v) && !v.Arr?
    ensures NormalizeField(types, f, v) == Some(w) <==> NormalField(types, f, w) && MeansField(types, f, v, w)
  {
    if ToProtoCoin(v).Some? {
      CoinMeans(v, ToProtoCoin(v).value);
    }
    if w.Arr? && |w.items| == 1 {
      CoinMeans(v, w.items[0]);
      assert w == Arr([w.items[0]]);
    }
  }

  lemma {:induction false} ListMeans(types: Types, f: Field, v: Value, w: Value)
    requires v.Arr? && WellFormed(v) && f.kind == List
    ensures NormalizeField(types, f, v) == Some(w) <==> NormalField(types, f, w) && MeansField(types, f, v, w)
    decreases v, 1, 1
  {
    var xs := v.items;
    if w.Arr? {
      ListConverted(types, f, xs, w.items);
      forall i | 0 <= i < |xs| && i < |w.items|
        ensures NormalizeElement(types, f, xs[i]) == Some(w.items[i]) <==>
                NormalElement(types, f, w.items[i]) && MeansElement(types, f, xs[i], w.items[i])
      {
        ElementMeans(types, f, xs[i], w.items[i]);
      }
    }
  }

  lemma {:induction false} MapMeans(types: Types, f: Field, v: Value, w: Value)
    requires v.Obj? && WellFormed(v) && f.kind == Map
    ensures NormalizeField(types, f, v) == Some(w) <==> NormalField(types, f, w) && MeansField(types, f, v, w)
    decreases v, 1, 1
  {
    forall i, u | 0 <= i < |v.fields|
      ensures NormalizeMapValue(types, f, v.fields[i].1) == Some(u) <==>
              NormalMapValue(types, f, u) && MeansMapValue(types, f, v.fields[i].1, u)
    {
      MapValueMeans(types, f, v.fields[i].1, u);
    }
    if NormalizeField(types, f, v) == Some(w) {
      FieldIsNormal(types, f, v);
      MapResultMeans(types, f, v.fields, w);
    }
    if NormalField(types, f, w) && MeansField(types, f, v, w) {
      MapMeaningAccepted(types, f, v.fields, w);
    }
  }

  lemma MapResultMeans(types: Types, f: Field, es: Fields, w: Value)
    requires f.kind == Map && Distinct(es) && NormalizeField(types, f, Obj(es)) == Some(w)
    requires forall i, u :: 0 <= i < |es| ==>
               (NormalizeMapValue(types, f, es[i].1) == Some(u) <==> NormalMapValue(types, f, u) && MeansMapValue(types, f, es[i].1, u))
    ensures MeansField(types, f, Obj(es), w)
  {
    MapConverted(types, f, es);
    var all := ConvertedEntries(types, f, es);
    var ws := seq(|es|, i requires 0 <= i < |es| => all[i].1);
    assert all == Zip(es, ws);
    forall i | 0 <= i < |es| ensures NormalMapValue(types, f, ws[i]) && MeansMapValue(types, f, es[i].1, ws[i]) {
      assert NormalizeMapValue(types, f, es[i].1) == Some(ws[i]);
    }
  }

  lemma MapMeaningAccepted(types: Types, f: Field, es: Fields, w: Value)
    requires f.kind == Map && Distinct(es) && MeansField(types, f, Obj(es), w)
    requires forall i, u :: 0 <= i < |es| ==>
               (NormalizeMapValue(types, f, es[i].1) == Some(u) <==> NormalMapValue(types, f, u) && MeansMapValue(types, f, es[i].1, u))
    ensures NormalizeField(types, f, Obj(es)) == Some(w)
  {
    var ws :| |ws| == |es| && w == Obj(WithoutProto(Zip(es, ws))) &&
              forall i :: 0 <= i < |es| ==> NormalMapValue(types, f, ws[i]) && MeansMapValue(types, f, es[i].1, ws[i]);
    forall i | 0 <= i < |es| ensures NormalizeMapValue(types, f, es[i].1) == Some(ws[i]) {
      assert NormalMapValue(types, f, ws[i]) && MeansMapValue(types, f, es[i].1, ws[i]);
    }
    EntriesAccepted(types, f, es, ws);
  }

  lemma EntriesAccepted(types: Types, f: Field, es: Fields, ws: seq<Value>)
    requires f.kind == Map && Distinct(es) && |ws| == |es|
    requires forall i :: 0 <= i < |es| ==> NormalizeMapValue(types, f, es[i].1) == Some(ws[i])
    ensures NormalizeField(types, f, Obj(es)) == Some(Obj(WithoutProto(Zip(es, ws))))
  {
    MapConverted(types, f, es);
    assert ConvertedEntries(types, f, es) == Zip(es, ws);
  }

  lemma OwnDistinct(x: Atom)
    requires OwnProperties(x).Some?
    ensures Distinct(OwnProperties(x).value)
  {
    var es := OwnProperties(x).value;
    if x.Bytes? {
      forall i, j | 0 <= i < j < |es| ensures es[i].0 != es[j].0 {
        if NatText(i) == NatText(j) { NatTextInjective(i, j); }
      }
    } else if x.SdkCoin? {
      assert "denom"[0] != "_amount"[0];
    }
  }

  lemma AtomMeans(f: Field, x: Atom, w: Value)
    ensures NormalizeMapAtom(f, x) == Some(w) <==> MeansAtom(f, x, w)
  {
    if f.content.ScalarContent? {
      ScalarMeans(f.content.scalar, Leaf(x), w);
    }
  }

  ghost function AtomResults(f: Field, es: seq<(string, Atom)>): (rs: seq<Option<Value>>)
    ensures |rs| == |es| && forall i :: 0 <= i < |es| ==> rs[i] == NormalizeMapAtom(f, es[i].1)
  {
    seq(|es|, i requires 0 <= i < |es| => NormalizeMapAtom(f, es[i].1))
  }

  lemma OwnAssemble(f: Field, es: seq<(string, Atom)>, ws: seq<Value>)
    requires Distinct(es) && |ws| == |es| && forall i :: 0 <= i < |es| ==> NormalizeMapAtom(f, es[i].1) == Some(ws[i])
    ensures Assemble(KeysOf(es), AtomResults(f, es)) == Some(WithoutProto(Zip(es, ws)))
  {
    var all := Zip(es, ws);
    assert KeysOf(all) == KeysOf(es);
    AssembleAssigns(all, AtomResults(f, es));
    AssignAllHolds(all);
  }

  lemma OwnMeans(types: Types, f: Field, x: Atom, w: Value)
    requires f.kind == Map && !IsNullish(Leaf(x))
    ensures NormalizeField(types, f, Leaf(x)) == Some(w) <==> NormalField(types, f, w) && MeansField(types, f, Leaf(x), w)
  {
    if OwnProperties(x).Some? {
      var es := OwnProperties(x).value;
      OwnFieldIs(types, f, x);
      if Assemble(KeysOf(es), AtomResults(f, es)).Some? {
        OwnResultMeans(f, x);
        MapLeafIsNormal(types, f, x);
      }
      if MeansOwn(f, x, w) {
        OwnMeaningAccepted(f, x, w);
        MapLeafIsNormal(types, f, x);
      }
    }
  }

  lemma OwnFieldIs(types: Types, f: Field, x: Atom)
    requires f.kind == Map && !IsNullish(Leaf(x)) && OwnProperties(x).Some?
    ensures var es := OwnProperties(x).value;
            NormalizeField(types, f, Leaf(x)) == NormalizeMapLeaf(types, f, x) ==
            match Assemble(KeysOf(es), AtomResults(f, es)) case None => None case Some(m) => Some(Obj(m))
  {
    var es := OwnProperties(x).value;
    assert AtomResults(f, es) == seq(|es|, i requires 0 <= i < |es| => NormalizeMapAtom(f, es[i].1));
  }

  lemma OwnResultMeans(f: Field, x: Atom)
    requires OwnProperties(x).Some?
    requires Assemble(KeysOf(OwnProperties(x).value), AtomResults(f, OwnProperties(x).value)).Some?
    ensures MeansOwn(f, x, Obj(Assemble(KeysOf(OwnProperties(x).value), AtomResults(f, OwnProperties(x).value)).value))
  {
    var es := OwnProperties(x).value;
    var rs := AtomResults(f, es);
    AssembleSome(KeysOf(es), rs);
    var ws := seq(|es|, i requires 0 <= i < |es| => rs[i].value);
    forall i | 0 <= i < |es| ensures MeansAtom(f, es[i].1, ws[i]) {
      AtomMeans(f, es[i].1, ws[i]);
    }
    OwnDistinct(x);
    OwnAssemble(f, es, ws);
  }

  lemma OwnMeaningAccepted(f: Field, x: Atom, w: Value)
    requires MeansOwn(f, x, w)
    ensures w.Obj? && Assemble(KeysOf(OwnProperties(x).value), AtomResults(f, OwnProperties(x).value)) == Some(w.fields)
  {
    var es := OwnProperties(x).value;
    var ws :| |ws| == |es| && w == Obj(WithoutProto(Zip(es, ws))) && forall i :: 0 <= i < |es| ==> MeansAtom(f, es[i].1, ws[i]);
    forall i | 0 <= i < |es| ensures NormalizeMapAtom(f, es[i].1) == Some(ws[i]) {
      AtomMeans(f, es[i].1, ws[i]);
    }
    OwnDistinct(x);
    OwnAssemble(f, es, ws);
  }

  lemma {:induction false} ElementMeans(types: Types, f: Field, v: Value, w: Value)
    requires WellFormed(v)
    ensures NormalizeElement(types, f, v) == Some(w) <==> NormalElement(types, f, w) && MeansElement(types, f, v, w)
    decreases v, 1
  {
    match f.content
    case ScalarContent(t) => ScalarMeans(t, v, w);
    case EnumContent =>
    case MessageContent(name) =>
      if name == COIN {
        CoinMeans(v, w);
      } else if name == ANY {
        AnyMeans(v, w);
      } else if name == TIMESTAMP {
        TimestampMeans(v, w);
      } else {
        InitMeans(types, name, v, w);
      }
  }

  lemma {:induction false} MapValueMeans(types: Types, f: Field, v: Value, w: Value)
    requires WellFormed(v)
    ensures NormalizeMapValue(types, f, v) == Some(w) <==> NormalMapValue(types, f, w) && MeansMapValue(types, f, v, w)
    decreases v, 1
  {
    if !IsNullish(v) {
      match f.content
      case ScalarContent(t) => ScalarMeans(t, v, w);
      case EnumContent =>
      case MessageContent(name) =>
        if name == COIN {
          CoinMeans(v, w);
        } else if name == TIMESTAMP && v.Leaf? && v.leaf.Date? {
          DateMeans(v.leaf.ms, w);
        } else if name != ANY && name != TIMESTAMP {
          InitMeans(types, name, v, w);
        }
      if MeansMapValue(types, f, v, w) { NotNullish(types, f, v, w); }
    }
  }

  /** Normalisation of any init object is the normal form that means the same: where there is one it is
      the result, and where there is none the object is refused. */
  lemma NormalizesToMeaning(types: Types, name: string, v: Value, w: Value)
    requires WellFormed(v)
    ensures NormalizeInit(types, name, v) == Some(w) <==> NormalForm(types, name, w) && MeansInit(types, name, v, w)
  {
    InitMeans(types, name, v, w);
  }

  /** In particular a number given for a 64-bit field, list element or map value becomes the bigint of
      the same integer, and a bigint stays as it is. */
  lemma IntegersKept(types: Types, f: Field, t: ScalarType, v: Value)
    requires f.content == ScalarContent(t) && Is64Bit(t) && IntegerOf(v).Some?
    ensures var w := Some(Leaf(BigInt(IntegerOf(v).value)));
            && NormalizeElement(types, f, v) == NormalizeMapValue(types, f, v) == w
            && (f.kind == Singular ==> NormalizeField(types, f, v) == w)
  {
    ScalarMeans(t, v, Leaf(BigInt(IntegerOf(v).value)));
  }
}
