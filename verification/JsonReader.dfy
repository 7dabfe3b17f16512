/** A reader of JSON texts after RFC 8259, sections 2 to 7, and what it makes of printed documents. */
module JsonReader {
  import opened Amino
  import opened Collections
  import opened Decimal
  import opened Hex
  import opened JsTree
  import opened JsonText
  import opened OrderedMap
  import opened Text

  // ---------- the reader ----------

  /** Section 2. */
  predicate IsSpace(c: char) {
    c == ' ' || c == '\t' || c == '\n' || c == '\r'
  }

  function SkipSpace(s: string): (r: string)
    ensures |r| <= |s|
  {
    if s != [] && IsSpace(s[0]) then SkipSpace(s[1..]) else s
  }

  /** Section 3: the literal names. */
  function ReadWord(s: string, word: string, x: Scalar): (r: Option<(Value, string)>)
    requires word != []
    ensures r.Some? ==> |r.value.1| < |s|
  {
    if word <= s then Some((Leaf(x), s[|word|..])) else None
  }

  /** Section 6: the numeral that goes on as far as it can. */
  function ReadNumber(s: string): (r: Option<(Value, string)>)
    ensures r.Some? ==> |r.value.1| < |s|
  {
    var n := Span(s, IsNumberChar);
    if n > 0 && IsNumeral(s[..n]) then Some((Leaf(Num(s[..n])), s[n..])) else None
  }

  /** Section 7: the escapes of one character. */
  function Unescape(c: char): Option<char> {
    if c == '"' || c == '\\' || c == '/' then Some(c)
    else if c == 'b' then Some(8 as char) else if c == 'f' then Some(12 as char)
    else if c == 'n' then Some('\n') else if c == 'r' then Some('\r') else if c == 't' then Some('\t')
    else None
  }

  /** The number four hexadecimal digits stand for. */
  function ReadHex4(s: string): Option<nat> {
    if |s| < 4 || !(forall i :: 0 <= i < 4 ==> IsHexDigit(s[i])) then None
    else Some(0x1000 * HexDigitValue(s[0]) + 0x100 * HexDigitValue(s[1]) + 0x10 * HexDigitValue(s[2]) + HexDigitValue(s[3]))
  }

  /** A `\u` escape, the text after the `u` given: one character, or a surrogate pair in two. */
  function ReadUnicode(s: string): (r: Option<(char, string)>)
    ensures r.Some? ==> |r.value.1| < |s|
  {
    match ReadHex4(s)
    case None => None
    case Some(n) =>
      if n < 0xD800 || 0xE000 <= n < 0x1_0000 then Some((n as char, s[4..]))
      else if n < 0xDC00 && |s| >= 6 && s[4] == '\\' && s[5] == 'u' then
        match ReadHex4(s[6..])
        case Some(m) =>
          if 0xDC00 <= m < 0xE000 then Some(((0x1_0000 + 0x400 * (n - 0xD800) + (m - 0xDC00)) as char, s[10..])) else None
        case None => None
      else None
  }

  /** The rest of a string after its opening quote, and after `acc` of it. */
  function ReadString(s: string, acc: string): (r: Option<(string, string)>)
    ensures r.Some? ==> |r.value.1| < |s|
    decreases |s|
  {
    if s == [] || s[0] as int < 0x20 then None
    else if s[0] == '"' then Some((acc, s[1..]))
    else if s[0] != '\\' then ReadString(s[1..], acc + [s[0]])
    else if |s| == 1 then None
    else if s[1] == 'u' then
      match ReadUnicode(s[2..])
      case None => None
      case Some((c, rest)) => ReadString(rest, acc + [c])
    else
      match Unescape(s[1])
      case None => None
      case Some(c) => ReadString(s[2..], acc + [c])
  }

  function ReadValue(text: string): (r: Option<(Value, string)>)
    ensures r.Some? ==> |r.value.1| < |text|
    decreases |text|, 0
  {
    var s := SkipSpace(text);
    if s == [] then None
    else if s[0] == '[' then ReadArray(s[1..])
    else if s[0] == '{' then ReadObject(s[1..])
    else if s[0] == '"' then
      match ReadString(s[1..], [])
      case None => None
      case Some((x, rest)) => Some((Leaf(Str(x)), rest))
    else if s[0] == 'n' then ReadWord(s, "null", Null)
    else if s[0] == 't' then ReadWord(s, "true", Bool(true))
    else if s[0] == 'f' then ReadWord(s, "false", Bool(false))
    else ReadNumber(s)
  }

  /** Section 5: an array after its opening bracket. */
  function ReadArray(text: string): (r: Option<(Value, string)>)
    ensures r.Some? ==> |r.value.1| < |text|
    decreases |text|, 2
  {
    var s := SkipSpace(text);
    if s != [] && s[0] == ']' then Some((Arr([]), s[1..])) else ReadItems(text, [])
  }

  /** One element at least, after the elements `acc`. */
  function ReadItems(text: string, acc: seq<Value>): (r: Option<(Value, string)>)
    ensures r.Some? ==> |r.value.1| < |text|
    decreases |text|, 1
  {
    match ReadValue(text)
    case None => None
    case Some((x, rest)) =>
      var t := SkipSpace(rest);
      if t != [] && t[0] == ',' then ReadItems(t[1..], acc + [x])
      else if t != [] && t[0] == ']' then Some((Arr(acc + [x]), t[1..]))
      else None
  }

  /** Section 4: an object after its opening brace. */
  function ReadObject(text: string): (r: Option<(Value, string)>)
    ensures r.Some? ==> |r.value.1| < |text|
    decreases |text|, 2
  {
    var s := SkipSpace(text);
    if s != [] && s[0] == '}' then Some((Obj([]), s[1..])) else ReadMembers(text, [])
  }

  /** One member at least, after the members `acc`. */
  function ReadMembers(text: string, acc: Fields): (r: Option<(Value, string)>)
    ensures r.Some? ==> |r.value.1| < |text|
    decreases |text|, 1
  {
    var s := SkipSpace(text);
    if s == [] || s[0] != '"' then None
    else
      match ReadString(s[1..], [])
      case None => None
      case Some((k, afterName)) =>
        var colon := SkipSpace(afterName);
        if colon == [] || colon[0] != ':' then None
        else
          match ReadValue(colon[1..])
          case None => None
          case Some((x, rest)) =>
            var t := SkipSpace(rest);
            if t != [] && t[0] == ',' then ReadMembers(t[1..], acc + [(k, x)])
            else if t != [] && t[0] == '}' then Some((Obj(acc + [(k, x)]), t[1..]))
            else None
  }

  /** The value of a whole text. */
  function Read(text: string): Option<Value> {
    match ReadValue(text)
    case Some((v, rest)) => if SkipSpace(rest) == [] then Some(v) else None
    case None => None
  }

  // ---------- strings ----------

  /** One character read back, the rest of the text following. */
  lemma ReadEscapedChar(c: char, tail: string, acc: string)
    ensures ReadString(EscapeChar(c) + tail, acc) == ReadString(tail, acc + [c])
  {
    var e := EscapeChar(c);
    var s := e + tail;
    if |e| == 1 {
      assert s[1..] == tail;
    } else if |e| == 2 {
      assert s[2..] == tail;
    } else {
      ReadControl(c, tail);
      assert s[2..] == e[2..] + tail;
    }
  }

  lemma ReadControl(c: char, tail: string)
    requires |EscapeChar(c)| == 6
    ensures ReadUnicode(EscapeChar(c)[2..] + tail) == Some((c, tail))
  {
    var n := c as int;
    var e := EscapeChar(c);
    var s := e[2..] + tail;
    assert s[0] == s[1] == '0' && s[2] == HexDigit(n / 16) && s[3] == HexDigit(n % 16);
    assert forall i :: 0 <= i < 4 ==> IsHexDigit(s[i]);
    assert ReadHex4(s) == Some(16 * (n / 16) + n % 16);
    assert s[4..] == tail;
  }

  lemma {:induction false} ReadEscaped(s: string, rest: string, acc: string)
    ensures ReadString(Escape(s) + (['"'] + rest), acc) == Some((acc + s, rest))
  {
    if s == [] {
      ReadClosingQuote(rest, acc);
      assert Escape(s) + (['"'] + rest) == ['"'] + rest && acc + s == acc;
    } else {
      Associate(EscapeChar(s[0]), Escape(s[1..]), ['"'] + rest);
      ReadEscapedChar(s[0], Escape(s[1..]) + (['"'] + rest), acc);
      ReadEscaped(s[1..], rest, acc + [s[0]]);
      TakeOne(acc, s, 0);
      assert s[0..] == s;
    }
  }

  lemma ReadClosingQuote(rest: string, acc: string)
    ensures ReadString(['"'] + rest, acc) == Some((acc, rest))
  {
    assert (['"'] + rest)[1..] == rest;
  }

  lemma ReadQuoted(s: string, rest: string)
    ensures var text := Quote(s) + rest; text[0] == '"' && ReadString(text[1..], []) == Some((s, rest))
  {
    var text := Quote(s) + rest;
    assert text == ['"'] + (Escape(s) + (['"'] + rest));
    assert text[1..] == Escape(s) + (['"'] + rest);
    ReadEscaped(s, rest, []);
    assert [] + s == s;
  }

  // ---------- values ----------

  lemma ReadNumeral(text: string, rest: string)
    requires IsNumeral(text) && Delimited(rest)
    ensures ReadNumber(text + rest) == Some((Leaf(Num(text)), rest))
  {
    NumeralChars(text);
    SpanOf(text, rest, IsNumberChar);
    assert (text + rest)[..|text|] == text && (text + rest)[|text|..] == rest;
  }

  lemma ReadWordThen(word: string, x: Scalar, rest: string)
    requires word != []
    ensures ReadWord(word + rest, word, x) == Some((Leaf(x), rest))
  {
    assert (word + rest)[..|word|] == word && (word + rest)[|word|..] == rest;
  }

  /** What a value is read by: its first character. */
  lemma ReadByHead(text: string)
    requires text != [] && !IsSpace(text[0])
    ensures text[0] == '[' ==> ReadValue(text) == ReadArray(text[1..])
    ensures text[0] == '{' ==> ReadValue(text) == ReadObject(text[1..])
    ensures text[0] == 'n' ==> ReadValue(text) == ReadWord(text, "null", Null)
    ensures text[0] == 't' ==> ReadValue(text) == ReadWord(text, "true", Bool(true))
    ensures text[0] == 'f' ==> ReadValue(text) == ReadWord(text, "false", Bool(false))
    ensures text[0] == '-' || IsDigit(text[0]) ==> ReadValue(text) == ReadNumber(text)
  {
    assert SkipSpace(text) == text;
  }

  lemma ReadStringValue(s: string, rest: string)
    ensures ReadValue(Quote(s) + rest) == Some((Leaf(Str(s)), rest))
  {
    var text := Quote(s) + rest;
    ReadQuoted(s, rest);
    assert SkipSpace(text) == text;
  }

  lemma ReadScalar(x: Scalar, rest: string)
    requires IsDocument(Leaf(x)) && Delimited(rest)
    ensures ReadValue(PrintScalar(x) + rest) == Some((Leaf(x), rest))
  {
    var text := PrintScalar(x) + rest;
    PrintStarts(Leaf(x));
    assert text[0] == PrintScalar(x)[0];
    match x
    case Null => ReadByHead(text); ReadWordThen("null", x, rest);
    case Bool(b) => ReadByHead(text); ReadWordThen(if b then "true" else "false", x, rest);
    case Str(s) => ReadStringValue(s, rest);
    case Num(t) => ReadByHead(text); ReadNumeral(t, rest);
  }

  /** What is known of the text after a value: it is no white space and holds no part of the value. */
  lemma DelimitedStays(s: string)
    requires Delimited(s)
    ensures SkipSpace(s) == s
  {
  }

  lemma ReadItemsStep(text: string, x: Value, more: string, acc: seq<Value>)
    requires Delimited(more) && ReadValue(text) == Some((x, more))
    ensures more != [] && more[0] == ',' ==> ReadItems(text, acc) == ReadItems(more[1..], acc + [x])
    ensures more != [] && more[0] == ']' ==> ReadItems(text, acc) == Some((Arr(acc + [x]), more[1..]))
  {
    DelimitedStays(more);
  }

  lemma ReadMembersStep(text: string, k: string, afterColon: string, x: Value, more: string, acc: Fields)
    requires text == Quote(k) + ([':'] + afterColon)
    requires Delimited(more) && ReadValue(afterColon) == Some((x, more))
    ensures more != [] && more[0] == ',' ==> ReadMembers(text, acc) == ReadMembers(more[1..], acc + [(k, x)])
    ensures more != [] && more[0] == '}' ==> ReadMembers(text, acc) == Some((Obj(acc + [(k, x)]), more[1..]))
  {
    ReadQuoted(k, [':'] + afterColon);
    DelimitedStays(more);
    assert SkipSpace(text) == text;
    assert ([':'] + afterColon)[1..] == afterColon;
    assert SkipSpace([':'] + afterColon) == [':'] + afterColon;
  }

  /** A printed value reads back as itself, and what follows it is left. */
  lemma {:induction false} ReadPrinted(t: Value, rest: string)
    requires IsDocument(t) && Delimited(rest)
    ensures ReadValue(Print(t) + rest) == Some((t, rest))
    decreases t, 1, 0
  {
    match t
    case Leaf(x) => ReadScalar(x, rest);
    case Arr(xs) =>
      OpenBracket('[', PrintItems(xs), rest);
      ReadByHead(Print(t) + rest);
      ReadPrintedArray(xs, rest);
    case Obj(fs) =>
      OpenBracket('{', PrintMembers(fs, 0), rest);
      ReadByHead(Print(t) + rest);
      ReadPrintedObject(fs, rest);
  }

  lemma OpenBracket(c: char, body: string, rest: string)
    ensures (([c] + body) + rest)[0] == c && (([c] + body) + rest)[1..] == body + rest
  {
  }

  lemma {:induction false} ReadPrintedArray(xs: seq<Value>, rest: string)
    requires IsDocument(Arr(xs))
    ensures ReadArray(PrintItems(xs) + rest) == Some((Arr(xs), rest))
    decreases Arr(xs), 0, |xs| + 1
  {
    var text := PrintItems(xs) + rest;
    if xs == [] {
      assert text[1..] == rest;
    } else {
      PrintStarts(xs[0]);
      assert text[0] == Print(xs[0])[0];
      assert xs[0..] == xs && [] + xs == xs;
      ReadPrintedItems(xs, 0, rest, []);
    }
  }

  /** One element read: the rest is read with one element more, or was the end. */
  lemma ReadPrintedItem(xs: seq<Value>, i: nat, rest: string, acc: seq<Value>)
    requires i < |xs| && IsDocument(Arr(xs))
    requires var more := ItemsAfter(xs[i..]) + rest; ReadValue(Print(xs[i]) + more) == Some((xs[i], more))
    ensures ReadItems(PrintItems(xs[i..]) + rest, acc) ==
            if i + 1 == |xs| then Some((Arr(acc + [xs[i]]), rest))
            else ReadItems(PrintItems(xs[i + 1..]) + rest, acc + [xs[i]])
  {
    var more := ItemsAfter(xs[i..]) + rest;
    assert xs[i..][1..] == xs[i + 1..];
    Associate(Print(xs[i]), ItemsAfter(xs[i..]), rest);
    ReadItemsStep(PrintItems(xs[i..]) + rest, xs[i], more, acc);
    if i + 1 == |xs| {
      assert more == [']'] + rest && more[1..] == rest;
    } else {
      Associate([','], PrintItems(xs[i + 1..]), rest);
      assert more[1..] == PrintItems(xs[i + 1..]) + rest;
    }
  }

  lemma {:induction false} ReadPrintedItems(xs: seq<Value>, i: nat, rest: string, acc: seq<Value>)
    requires i < |xs| && IsDocument(Arr(xs))
    ensures ReadItems(PrintItems(xs[i..]) + rest, acc) == Some((Arr(acc + xs[i..]), rest))
    decreases Arr(xs), 0, |xs| - i
  {
    assert xs[i] < Arr(xs);
    ReadPrinted(xs[i], ItemsAfter(xs[i..]) + rest);
    ReadPrintedItem(xs, i, rest, acc);
    TakeOne(acc, xs, i);
    if i + 1 < |xs| {
      ReadPrintedItems(xs, i + 1, rest, acc + [xs[i]]);
    }
  }

  lemma {:induction false} ReadPrintedObject(fs: Fields, rest: string)
    requires IsDocument(Obj(fs))
    ensures ReadObject(PrintMembers(fs, 0) + rest) == Some((Obj(fs), rest))
    decreases Obj(fs), 0, |fs| + 1
  {
    var text := PrintMembers(fs, 0) + rest;
    if fs == [] {
      assert PrintMembers(fs, 0) == ['}'];
      assert text[0] == '}' && text[1..] == rest;
    } else {
      QuoteHead(fs[0].0, [':'] + (Print(fs[0].1) + MembersAfter(fs, 0)));
      assert text[0] == '"' && SkipSpace(text) == text;
      assert fs[0..] == fs && [] + fs == fs;
      ReadPrintedMembers(fs, 0, rest, []);
    }
  }

  lemma QuoteHead(k: string, after: string)
    ensures Quote(k) + after != [] && (Quote(k) + after)[0] == '"'
  {
  }

  /** One member read: the rest is read with one member more, or was the end. */
  lemma ReadPrintedMember(fs: Fields, i: nat, rest: string, acc: Fields)
    requires i < |fs| && IsDocument(Obj(fs))
    requires var more := MembersAfter(fs, i) + rest; ReadValue(Print(fs[i].1) + more) == Some((fs[i].1, more))
    ensures ReadMembers(PrintMembers(fs, i) + rest, acc) ==
            if i + 1 == |fs| then Some((Obj(acc + [fs[i]]), rest))
            else ReadMembers(PrintMembers(fs, i + 1) + rest, acc + [fs[i]])
  {
    var (k, x) := fs[i];
    var more := MembersAfter(fs, i) + rest;
    MemberText(Quote(k), Print(fs[i].1), MembersAfter(fs, i), rest);
    ReadMembersStep(PrintMembers(fs, i) + rest, k, Print(fs[i].1) + more, x, more, acc);
    if i + 1 == |fs| {
      assert more == ['}'] + rest && more[1..] == rest;
    } else {
      Associate([','], PrintMembers(fs, i + 1), rest);
      assert more[1..] == PrintMembers(fs, i + 1) + rest;
    }
  }

  lemma {:induction false} ReadPrintedMembers(fs: Fields, i: nat, rest: string, acc: Fields)
    requires i < |fs| && IsDocument(Obj(fs))
    ensures ReadMembers(PrintMembers(fs, i) + rest, acc) == Some((Obj(acc + fs[i..]), rest))
    decreases Obj(fs), 0, |fs| - i
  {
    assert fs[i].1 < Obj(fs);
    ReadPrinted(fs[i].1, MembersAfter(fs, i) + rest);
    ReadPrintedMember(fs, i, rest, acc);
    TakeOne(acc, fs, i);
    if i + 1 < |fs| {
      ReadPrintedMembers(fs, i + 1, rest, acc + [fs[i]]);
    }
  }

  lemma MemberText(name: string, value: string, after: string, rest: string)
    ensures (name + ([':'] + (value + after))) + rest == name + ([':'] + (value + (after + rest)))
  {
    Associate(name, [':'] + (value + after), rest);
    Associate([':'], value + after, rest);
    Associate(value, after, rest);
  }

  /** Every document reads back from its text. */
  lemma ReadBack(t: Value)
    requires IsDocument(t)
    ensures Read(Print(t)) == Some(t)
  {
    assert Print(t) + [] == Print(t);
    ReadPrinted(t, []);
  }

  /** Before a comma, a closing bracket or the end, one text is the text of one document. */
  lemma PrintUnique(a: Value, u: string, b: Value, v: string)
    requires IsDocument(a) && IsDocument(b)
    requires Print(a) + u == Print(b) + v
    requires Delimited(u) && Delimited(v)
    ensures a == b && u == v
  {
    ReadPrinted(a, u);
    ReadPrinted(b, v);
  }

  /** Two documents have the same text only if they are the same, property order included. */
  lemma PrintInjective(a: Value, b: Value)
    requires IsDocument(a) && IsDocument(b) && Print(a) == Print(b)
    ensures a == b
  {
    ReadBack(a);
    ReadBack(b);
  }
}
