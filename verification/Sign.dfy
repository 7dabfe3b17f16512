/** Sign bytes: canonical JSON for Amino, and the EIP-191 (version 0x45) wrapping of them. */
module Sign {
  import opened Amino
  import opened Bytes
  import opened CanonicalSort
  import opened Collections
  import opened Decimal
  import opened JsTree
  import opened JsonReader
  import opened JsonText
  import opened OrderedMap
  import opened TextEncoding

  /** A sign document: JSON data with distinct property names. */
  ghost predicate IsSignDoc(doc: Value) {
    WellFormed(doc) && IsDocument(doc)
  }

  /** The arguments of `makeStdSignDoc`. */
  datatype StdSignDoc = StdSignDoc(msgs: Value, fee: Value, chainId: string, memo: string, accountNumber: int, sequence: int)
  {
    ghost predicate Valid() {
      IsSignDoc(msgs) && IsSignDoc(fee)
    }

    /** The document object, its properties in the order `makeStdSignDoc` writes them. */
    function Fields(): Fields {
      [("account_number", Leaf(Str(IntText(accountNumber)))),
       ("chain_id", Leaf(Str(chainId))),
       ("fee", fee),
       ("memo", Leaf(Str(memo))),
       ("msgs", msgs),
       ("sequence", Leaf(Str(IntText(sequence))))]
    }
  }

  lemma {:induction false} SortedIsDocument(t: Value)
    requires IsSignDoc(t)
    ensures IsDocument(SortObject(t))
  {
    match t
    case Leaf(_) =>
    case Arr(xs) =>
      forall i | 0 <= i < |xs| ensures IsDocument(SortObject(xs[i])) { SortedIsDocument(xs[i]); }
    case Obj(fs) =>
      SortedFields(fs);
      var m := SortFields(SortValues(fs));
      AscendingDistinct(m);
      forall i | 0 <= i < |m| ensures IsDocument(m[i].1) {
        GetDistinct(m, i);
        var j := IndexOf(fs, m[i].0);
        SortedIsDocument(fs[j].1);
      }
  }

  /** `makeAminoSignBytes`; `Key.signAmino` signs the same bytes. */
  ghost function AminoSignBytes(doc: Value): seq<byte>
    requires IsSignDoc(doc)
  {
    SortedIsDocument(doc);
    Utf8(Print(SortObject(doc)))
  }

  /** Amino sign bytes stand for the data signed: they agree exactly when the documents hold the
      same data, whatever order the properties were inserted in. */
  lemma AminoSignBytesCanonical(a: Value, b: Value)
    requires IsSignDoc(a) && IsSignDoc(b)
    ensures AminoSignBytes(a) == AminoSignBytes(b) <==> SameData(a, b)
  {
    SortedIsDocument(a);
    SortedIsDocument(b);
    SortObjectCanonical(a, b);
    if AminoSignBytes(a) == AminoSignBytes(b) {
      Utf8Injective(Print(SortObject(a)), Print(SortObject(b)));
      PrintInjective(SortObject(a), SortObject(b));
    }
  }

  /** The JSON value that sign bytes hold, read as UTF-8 and as JSON. */
  function ReadBytes(bs: seq<byte>): Option<Value> {
    match Decode(bs)
    case None => None
    case Some(text) => Read(text)
  }

  /** Sign bytes are the UTF-8 of a JSON text, and read as the document with its keys sorted. */
  lemma SignBytesRead(doc: Value)
    requires IsSignDoc(doc)
    ensures ReadBytes(AminoSignBytes(doc)) == Some(SortObject(doc))
  {
    SortedIsDocument(doc);
    Utf8Decodes(Print(SortObject(doc)));
    ReadBack(SortObject(doc));
  }

  /** For documents without a property called `__proto__`, sign bytes agree exactly when the
      documents are equal up to the order of properties, nothing aside. */
  lemma AminoSignBytesExact(a: Value, b: Value)
    requires IsSignDoc(a) && IsSignDoc(b) && !HasProtoKey(a) && !HasProtoKey(b)
    ensures AminoSignBytes(a) == AminoSignBytes(b) <==> SameTree(a, b)
  {
    AminoSignBytesCanonical(a, b);
    SameDataIsSameTree(a, b);
  }

  lemma StdSignDocKeys(doc: StdSignDoc)
    ensures Distinct(doc.Fields()) && forall i :: 0 <= i < 6 ==> doc.Fields()[i].0 != PROTO
  {
    var fs := doc.Fields();
    assert fs[0].0[0] == 'a' && fs[1].0[0] == 'c' && fs[2].0[0] == 'f';
    assert fs[3].0[..2] == "me" && fs[4].0[..2] == "ms" && fs[5].0[0] == 's';
  }

  lemma StdSignDocValid(doc: StdSignDoc)
    requires doc.Valid()
    ensures IsSignDoc(Obj(doc.Fields()))
  {
    StdSignDocKeys(doc);
    var fs := doc.Fields();
    forall i | 0 <= i < |fs| ensures WellFormed(fs[i].1) && IsDocument(fs[i].1) {
      assert i == 2 || i == 4 || fs[i].1.Leaf?;
    }
  }

  ghost predicate SameArguments(a: StdSignDoc, b: StdSignDoc) {
    && SameData(a.msgs, b.msgs) && SameData(a.fee, b.fee)
    && a.chainId == b.chainId && a.memo == b.memo
    && a.accountNumber == b.accountNumber && a.sequence == b.sequence
  }

  lemma SameIntText(m: int, n: int)
    ensures SameData<Scalar>(Leaf(Str(IntText(m))), Leaf(Str(IntText(n)))) <==> m == n
  {
    if IntText(m) == IntText(n) {
      IntTextInjective(m, n);
    }
  }

  lemma StdSignDocSameData(a: StdSignDoc, b: StdSignDoc)
    ensures SameData(Obj(a.Fields()), Obj(b.Fields())) <==> SameArguments(a, b)
  {
    StdSignDocKeys(a);
    var fs, gs := a.Fields(), b.Fields();
    assert forall i :: 0 <= i < 6 ==> fs[i].0 == gs[i].0;
    SameDataAligned(fs, gs);
    AllSix(fs, gs);
    SameIntText(a.accountNumber, b.accountNumber);
    SameIntText(a.sequence, b.sequence);
  }

  lemma AllSix(fs: Fields, gs: Fields)
    requires |fs| == |gs| == 6
    ensures (forall i :: 0 <= i < 6 ==> SameData(fs[i].1, gs[i].1)) <==>
            && SameData(fs[0].1, gs[0].1) && SameData(fs[1].1, gs[1].1) && SameData(fs[2].1, gs[2].1)
            && SameData(fs[3].1, gs[3].1) && SameData(fs[4].1, gs[4].1) && SameData(fs[5].1, gs[5].1)
  {
  }

  /** The sign bytes of a standard document commit to every argument of `makeStdSignDoc`. */
  lemma StdSignDocCommits(a: StdSignDoc, b: StdSignDoc)
    requires a.Valid() && b.Valid()
    ensures IsSignDoc(Obj(a.Fields())) && IsSignDoc(Obj(b.Fields()))
    ensures AminoSignBytes(Obj(a.Fields())) == AminoSignBytes(Obj(b.Fields())) <==> SameArguments(a, b)
  {
    StdSignDocValid(a);
    StdSignDocValid(b);
    AminoSignBytesCanonical(Obj(a.Fields()), Obj(b.Fields()));
    StdSignDocSameData(a, b);
  }

  lemma StdSignDocLookups(doc: StdSignDoc)
    ensures var fs := doc.Fields();
            && Get(fs, "account_number") == Some(Leaf(Str(IntText(doc.accountNumber))))
            && Get(fs, "chain_id") == Some(Leaf(Str(doc.chainId)))
            && Get(fs, "fee") == Some(doc.fee)
            && Get(fs, "memo") == Some(Leaf(Str(doc.memo)))
            && Get(fs, "msgs") == Some(doc.msgs)
            && Get(fs, "sequence") == Some(Leaf(Str(IntText(doc.sequence))))
  {
    var fs := doc.Fields();
    StdSignDocKeys(doc);
    GetDistinct(fs, 0);
    GetDistinct(fs, 1);
    GetDistinct(fs, 2);
    GetDistinct(fs, 3);
    GetDistinct(fs, 4);
    GetDistinct(fs, 5);
  }

  lemma StdSignDocNames(doc: StdSignDoc, k: string)
    requires Has(doc.Fields(), k)
    ensures k in ["account_number", "chain_id", "fee", "memo", "msgs", "sequence"] && k != PROTO
  {
    StdSignDocKeys(doc);
    var i :| 0 <= i < |doc.Fields()| && doc.Fields()[i].0 == k;
  }

  /** One property of the sorted document. */
  lemma SortedLookup(fs: Fields, k: string, v: Value)
    requires Distinct(fs) && k != PROTO && Get(fs, k) == Some(v)
    ensures SortObject(Obj(fs)).Obj? && Get(SortObject(Obj(fs)).fields, k) == Some(SortObject(v))
  {
    SortedFields(fs);
  }

  /** What the sign bytes of a standard document say, read as JSON: each argument under its own name,
      the numbers as decimal text, messages and fee with their keys sorted, and nothing else. */
  lemma StdSignDocReads(doc: StdSignDoc)
    requires doc.Valid()
    ensures IsSignDoc(Obj(doc.Fields()))
    ensures var r := ReadBytes(AminoSignBytes(Obj(doc.Fields())));
            && r.Some? && r.value.Obj?
            && SaysNumber(r.value.fields, "account_number", doc.accountNumber)
            && SaysNumber(r.value.fields, "sequence", doc.sequence)
            && Get(r.value.fields, "chain_id") == Some(Leaf(Str(doc.chainId)))
            && Get(r.value.fields, "memo") == Some(Leaf(Str(doc.memo)))
            && Get(r.value.fields, "fee") == Some(SortObject(doc.fee))
            && Get(r.value.fields, "msgs") == Some(SortObject(doc.msgs))
            && forall k :: Has(r.value.fields, k) ==> k in ["account_number", "chain_id", "fee", "memo", "msgs", "sequence"]
  {
    StdSignDocValid(doc);
    StdSignDocKeys(doc);
    SignBytesRead(Obj(doc.Fields()));
    SortedDocument(doc, SortObject(Obj(doc.Fields())));
  }

  lemma SortedDocument(doc: StdSignDoc, sorted: Value)
    requires sorted == SortObject(Obj(doc.Fields())) && Distinct(doc.Fields())
    ensures sorted.Obj?
    ensures SaysNumber(sorted.fields, "account_number", doc.accountNumber)
    ensures SaysNumber(sorted.fields, "sequence", doc.sequence)
    ensures Get(sorted.fields, "chain_id") == Some(Leaf(Str(doc.chainId)))
    ensures Get(sorted.fields, "memo") == Some(Leaf(Str(doc.memo)))
    ensures Get(sorted.fields, "fee") == Some(SortObject(doc.fee))
    ensures Get(sorted.fields, "msgs") == Some(SortObject(doc.msgs))
    ensures forall k :: Has(sorted.fields, k) ==> k in ["account_number", "chain_id", "fee", "memo", "msgs", "sequence"]
  {
    var fs := doc.Fields();
    StdSignDocLookups(doc);
    StdSignDocNames(doc, "account_number");
    StdSignDocNames(doc, "sequence");
    StdSignDocNames(doc, "chain_id");
    StdSignDocNames(doc, "memo");
    StdSignDocNames(doc, "fee");
    StdSignDocNames(doc, "msgs");
    SortedLookup(fs, "account_number", Leaf(Str(IntText(doc.accountNumber))));
    SortedLookup(fs, "sequence", Leaf(Str(IntText(doc.sequence))));
    SortedLookup(fs, "chain_id", Leaf(Str(doc.chainId)));
    SortedLookup(fs, "memo", Leaf(Str(doc.memo)));
    SortedLookup(fs, "fee", doc.fee);
    SortedLookup(fs, "msgs", doc.msgs);
    IntTextReads(doc.accountNumber);
    IntTextReads(doc.sequence);
    SortedFields(fs);
    forall k | Has(sorted.fields, k) ensures k in ["account_number", "chain_id", "fee", "memo", "msgs", "sequence"] {
      assert Get(sorted.fields, k).Some?;
      StdSignDocNames(doc, k);
    }
  }

  /** The property is a decimal text for n. */
  predicate SaysNumber(fs: Fields, key: string, n: int) {
    var v: Option<Value> := Get(fs, key);
    v.Some? && v.value.Leaf? && v.value.leaf.Str? && ReadInt(v.value.leaf.s) == Some(n)
  }

  // ---------- EIP-191 ----------

  /** The text put before a message of n bytes. */
  function Eip191Prefix(n: nat): string {
    [0x19 as char] + "Ethereum Signed Message:\n" + NatText(n)
  }

  function Eip191(data: seq<byte>): seq<byte> {
    Utf8(Eip191Prefix(|data|)) + data
  }

  ghost function Eip191SignBytes(doc: Value): seq<byte>
    requires IsSignDoc(doc)
  {
    Eip191(AminoSignBytes(doc))
  }

  /** The buffer `makeEIP191SignBytes` fills with two `set` calls. */
  method WrapAminoBytes(aminoBytes: array<byte>) returns (result: array<byte>)
    ensures fresh(result)
    ensures result[..] == Eip191(aminoBytes[..])
  {
    var prefixBytes := Utf8(Eip191Prefix(aminoBytes.Length));
    result := new byte[|prefixBytes| + aminoBytes.Length];
    Set(result, prefixBytes, 0);
    Set(result, aminoBytes[..], |prefixBytes|);
    assert result[..] == result[..|prefixBytes|] + result[|prefixBytes|..];
  }

  /** The bytes `Key.signPersonal` hands to keccak256, built by its own buffer code. */
  method SignPersonalBytes(data: array<byte>) returns (prefixed: array<byte>)
    ensures fresh(prefixed)
    ensures prefixed[..] == Eip191(data[..])
  {
    var prefix := [0x19 as char] + "Ethereum Signed Message:\n" + NatText(data.Length);
    var prefixBytes := Utf8(prefix);
    prefixed := new byte[|prefixBytes| + data.Length];
    Set(prefixed, prefixBytes, 0);
    Set(prefixed, data[..], |prefixBytes|);
    assert prefixed[..] == prefixed[..|prefixBytes|] + prefixed[|prefixBytes|..];
  }

  lemma {:induction false} Utf8Ascii(s: string)
    requires forall i :: 0 <= i < |s| ==> s[i] as int < 0x80
    ensures |Utf8(s)| == |s|
  {
    if s != [] {
      Utf8Ascii(s[1..]);
    }
  }

  /** No separator follows the decimal length, yet the wrapping is injective: the total length
      grows with the length of the data, so it fixes it. */
  lemma Eip191Injective(a: seq<byte>, b: seq<byte>)
    requires Eip191(a) == Eip191(b)
    ensures a == b
  {
    Eip191Length(a);
    Eip191Length(b);
    if |a| < |b| {
      NatTextLengthMonotone(|a|, |b|);
    } else if |b| < |a| {
      NatTextLengthMonotone(|b|, |a|);
    }
    Cancel(Utf8(Eip191Prefix(|a|)), a, Utf8(Eip191Prefix(|b|)), b);
  }

  lemma Eip191Length(a: seq<byte>)
    ensures |Eip191(a)| == 26 + |NatText(|a|)| + |a|
  {
    var p := Eip191Prefix(|a|);
    assert |p| == 26 + |NatText(|a|)|;
    Utf8Ascii(p);
  }

  /** The layout of EIP-191, version 0x45: the byte 0x19, `Ethereum Signed Message:` and a line feed,
      the length of the data in decimal, the data. */
  lemma Eip191Layout(data: seq<byte>)
    ensures var bs, n := Eip191(data), 26 + |NatText(|data|)|;
            && |bs| == n + |data| && bs[n..] == data
            && bs[0] == 0x19 && bs[1] == 0x45
            && Decode(bs[1..26]) == Some("Ethereum Signed Message:\n")
            && Decode(bs[26..n]).Some? && ReadInt(Decode(bs[26..n]).value) == Some(|data|)
  {
    Eip191Length(data);
    Eip191Parts(data);
    Eip191Text();
    Utf8Ascii(NatText(|data|));
    Utf8Decodes(NatText(|data|));
    IntTextReads(|data|);
    FourParts(Eip191(data), Utf8("Ethereum Signed Message:\n"), Utf8(NatText(|data|)), data);
  }

  lemma Eip191Text()
    ensures var text := Utf8("Ethereum Signed Message:\n");
            |text| == 25 && text[0] == 0x45 && Decode(text) == Some("Ethereum Signed Message:\n")
  {
    Utf8Ascii("Ethereum Signed Message:\n");
    Utf8Decodes("Ethereum Signed Message:\n");
  }

  lemma Eip191Parts(data: seq<byte>)
    ensures Eip191(data) == (([0x19] + Utf8("Ethereum Signed Message:\n")) + Utf8(NatText(|data|))) + data
  {
    var mark := [0x19 as char];
    assert Utf8(mark) == [0x19];
    Utf8Concat(mark, "Ethereum Signed Message:\n");
    Utf8Concat(mark + "Ethereum Signed Message:\n", NatText(|data|));
  }

  lemma FourParts(bs: seq<byte>, text: seq<byte>, digits: seq<byte>, data: seq<byte>)
    requires bs == (([0x19] + text) + digits) + data && |text| == 25
    ensures var n := 26 + |digits|;
            && |bs| == n + |data| && bs[0] == 0x19 && bs[1] == text[0]
            && bs[1..26] == text && bs[26..n] == digits && bs[n..] == data
  {
  }

  /** EIP-191 sign bytes commit to the data signed just as the Amino bytes do. */
  lemma Eip191SignBytesCanonical(a: Value, b: Value)
    requires IsSignDoc(a) && IsSignDoc(b)
    ensures Eip191SignBytes(a) == Eip191SignBytes(b) <==> SameData(a, b)
  {
    AminoSignBytesCanonical(a, b);
    if Eip191SignBytes(a) == Eip191SignBytes(b) {
      Eip191Injective(AminoSignBytes(a), AminoSignBytes(b));
    }
  }
}
