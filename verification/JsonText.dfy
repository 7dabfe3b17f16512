/** `JSON.stringify` without indentation on JSON documents. */
module JsonText {
  import opened Amino
  import opened Decimal
  import opened Hex
  import opened JsTree
  import opened OrderedMap
  import opened Text

  // ---------- strings ----------

  /** How `JSON.stringify` writes one character inside a string. */
  function EscapeChar(c: char): string {
    if c == '"' then ['\\', '"']
    else if c == '\\' then ['\\', '\\']
    else if c as int == 8 then ['\\', 'b']
    else if c as int == 9 then ['\\', 't']
    else if c as int == 10 then ['\\', 'n']
    else if c as int == 12 then ['\\', 'f']
    else if c as int == 13 then ['\\', 'r']
    else if c as int < 32 then ['\\', 'u', '0', '0', HexDigit(c as int / 16), HexDigit(c as int % 16)]
    else [c]
  }

  function Escape(s: string): string {
    if s == [] then [] else EscapeChar(s[0]) + Escape(s[1..])
  }

  function Quote(s: string): string {
    ['"'] + Escape(s) + ['"']
  }

  // ---------- documents ----------

  predicate IsNumberChar(c: char) {
    IsDigit(c) || c == '-' || c == '+' || c == '.' || c == 'e' || c == 'E'
  }

  /** What follows the integer part of a numeral: one digit 0, or digits that start otherwise. */
  function AfterInteger(s: string): Option<string> {
    var n := Span(s, IsDigit);
    if n == 0 || (n > 1 && s[0] == '0') then None else Some(s[n..])
  }

  /** What follows an optional fraction. */
  function AfterFraction(s: string): Option<string> {
    if s == [] || s[0] != '.' then Some(s)
    else
      var n := Span(s[1..], IsDigit);
      if n == 0 then None else Some(s[1..][n..])
  }

  /** What follows an optional exponent. */
  function AfterExponent(s: string): Option<string> {
    if s == [] || (s[0] != 'e' && s[0] != 'E') then Some(s)
    else
      var t := if |s| > 1 && (s[1] == '-' || s[1] == '+') then s[2..] else s[1..];
      var n := Span(t, IsDigit);
      if n == 0 then None else Some(t[n..])
  }

  /** A number as RFC 8259, section 6, writes it. */
  predicate IsNumeral(s: string) {
    var afterInteger := AfterInteger(if s != [] && s[0] == '-' then s[1..] else s);
    && afterInteger.Some?
    && AfterFraction(afterInteger.value).Some?
    && AfterExponent(AfterFraction(afterInteger.value).value) == Some([])
  }

  /** A text that goes on with digits and then with characters of numbers is made of such characters. */
  lemma DigitsThen(s: string)
    requires forall c :: c in s[Span(s, IsDigit)..] ==> IsNumberChar(c)
    ensures forall c :: c in s ==> IsNumberChar(c)
  {
    SpanHolds(s, IsDigit);
    assert s == s[..Span(s, IsDigit)] + s[Span(s, IsDigit)..];
  }

  lemma ExponentChars(s: string)
    requires AfterExponent(s) == Some([])
    ensures forall c :: c in s ==> IsNumberChar(c)
  {
    if s != [] {
      var t := if |s| > 1 && (s[1] == '-' || s[1] == '+') then s[2..] else s[1..];
      DigitsThen(t);
      assert s == s[..|s| - |t|] + t;
    }
  }

  lemma FractionChars(s: string)
    requires AfterFraction(s).Some? && forall c :: c in AfterFraction(s).value ==> IsNumberChar(c)
    ensures forall c :: c in s ==> IsNumberChar(c)
  {
    if s != [] && s[0] == '.' {
      DigitsThen(s[1..]);
      assert s == [s[0]] + s[1..];
    }
  }

  /** A numeral is made of characters of numbers and starts with a minus or a digit. */
  lemma NumeralChars(s: string)
    requires IsNumeral(s)
    ensures s != [] && (s[0] == '-' || IsDigit(s[0])) && forall i :: 0 <= i < |s| ==> IsNumberChar(s[i])
  {
    var t := if s != [] && s[0] == '-' then s[1..] else s;
    ExponentChars(AfterFraction(AfterInteger(t).value).value);
    FractionChars(AfterInteger(t).value);
    DigitsThen(t);
    SpanHolds(t, IsDigit);
    if s[0] == '-' {
      assert s == ['-'] + t;
    }
  }

  /** A JSON document: no `undefined`, and none of the values that have no JSON form. */
  predicate IsDocument(t: Value) {
    match t
    case Leaf(x) => x.Null? || x.Bool? || x.Str? || (x.Num? && IsNumeral(x.text))
    case Arr(xs) => forall i :: 0 <= i < |xs| ==> IsDocument(xs[i])
    case Obj(fs) => forall i :: 0 <= i < |fs| ==> IsDocument(fs[i].1)
  }

  function PrintScalar(x: Scalar): string
    requires IsDocument(Leaf(x))
  {
    match x
    case Null => "null"
    case Bool(b) => if b then "true" else "false"
    case Str(s) => Quote(s)
    case Num(text) => text
  }

  function Print(t: Value): string
    requires IsDocument(t)
    decreases t
  {
    match t
    case Leaf(x) => PrintScalar(x)
    case Arr(xs) => ['['] + PrintItems(xs)
    case Obj(fs) => ['{'] + PrintMembers(fs, 0)
  }

  function PrintItems(xs: seq<Value>): string
    requires forall i :: 0 <= i < |xs| ==> IsDocument(xs[i])
    decreases xs, 1
  {
    if xs == [] then [']'] else Print(xs[0]) + ItemsAfter(xs)
  }

  /** What follows the first element of an array: its end, or a comma and the other elements. */
  function ItemsAfter(xs: seq<Value>): string
    requires xs != []
    requires forall i :: 0 <= i < |xs| ==> IsDocument(xs[i])
    decreases xs, 0
  {
    if |xs| == 1 then [']'] else [','] + PrintItems(xs[1..])
  }

  /** The properties from index i on. */
  function PrintMembers(fs: Fields, i: nat): string
    requires i <= |fs| && IsDocument(Obj(fs))
    decreases Obj(fs), |fs| - i, 1
  {
    if i == |fs| then ['}']
    else
      assert fs[i].1 < Obj(fs);
      Quote(fs[i].0) + ([':'] + (Print(fs[i].1) + MembersAfter(fs, i)))
  }

  function MembersAfter(fs: Fields, i: nat): string
    requires i < |fs| && IsDocument(Obj(fs))
    decreases Obj(fs), |fs| - i, 0
  {
    if i + 1 == |fs| then ['}'] else [','] + PrintMembers(fs, i + 1)
  }

  // ---------- the text of a value ----------

  /** What may follow a value inside a document. */
  predicate Delimited(s: string) {
    s == [] || s[0] == ',' || s[0] == ']' || s[0] == '}'
  }

  /** The first character of a printed value tells its kind. */
  predicate Starts(t: Value, c: char) {
    match t
    case Arr(_) => c == '['
    case Obj(_) => c == '{'
    case Leaf(x) =>
      match x
      case Null => c == 'n'
      case Bool(b) => c == if b then 't' else 'f'
      case Str(_) => c == '"'
      case _ => c == '-' || '0' <= c <= '9'
  }

  lemma PrintStarts(t: Value)
    requires IsDocument(t)
    ensures Print(t) != [] && Starts(t, Print(t)[0])
  {
    if t.Leaf? && t.leaf.Num? {
      NumeralChars(t.leaf.text);
    }
  }
}
