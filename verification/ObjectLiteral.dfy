/** `formatObjectLiteral`, and a reader of the literals it prints. */
module ObjectLiteral {
  import opened Collections
  import opened Decimal
  import opened JsTree
  import opened OrderedMap
  import opened Text

  /** The leaves of the data printed; a number is an integer below 10^21 in magnitude. `Other` is a
      value of a type the printer refuses: undefined, bigint, a function or a symbol. */
  datatype Atom = Null | Bool(b: bool) | Num(n: int) | Str(s: string) | Other

  type Value = Tree<Atom>
  type Fields = seq<(string, Value)>

  // ---------- the printer ----------

  predicate Supported(v: Value) {
    match v
    case Leaf(x) => !x.Other?
    case Arr(xs) => forall i :: 0 <= i < |xs| ==> Supported(xs[i])
    case Obj(fs) => forall i :: 0 <= i < |fs| ==> Supported(fs[i].1)
  }

  /** Two spaces for each level. */
  function Pad(level: nat): string {
    seq(2 * level, _ => ' ')
  }

  /** `value.replace(/\\/g, '\\\\')` */
  function EscapeBackslashes(s: string): string {
    if s == [] then [] else (if s[0] == '\\' then ['\\', '\\'] else [s[0]]) + EscapeBackslashes(s[1..])
  }

  /** `value.replace(/'/g, "\\'")` */
  function EscapeQuotes(s: string): string {
    if s == [] then [] else (if s[0] == '\'' then ['\\', '\''] else [s[0]]) + EscapeQuotes(s[1..])
  }

  function FormatAtom(x: Atom): string
    requires !x.Other?
  {
    match x
    case Null => "null"
    case Bool(b) => if b then "true" else "false"
    case Num(n) => IntText(n)
    case Str(s) => ['\''] + (EscapeQuotes(EscapeBackslashes(s)) + ['\''])
  }

  function Join(lines: seq<string>): string {
    if lines == [] then []
    else if |lines| == 1 then lines[0]
    else lines[0] + (['\n'] + Join(lines[1..]))
  }

  function Format(v: Value, level: nat): string
    requires Supported(v)
  {
    match v
    case Leaf(x) => FormatAtom(x)
    case Arr(xs) =>
      if xs == [] then "[]"
      else
        var lines := seq(|xs|, i requires 0 <= i < |xs| => Pad(level + 1) + (Format(xs[i], level + 1) + [',']));
        "[\n" + (Join(lines) + (['\n'] + (Pad(level) + [']'])))
    case Obj(fs) =>
      if fs == [] then "{}"
      else
        var lines := seq(|fs|, i requires 0 <= i < |fs| =>
          Pad(level + 1) + (fs[i].0 + ([':', ' '] + (Format(fs[i].1, level + 1) + [',']))));
        "{\n" + (Join(lines) + (['\n'] + (Pad(level) + ['}'])))
  }

  /** The printer throws on a value holding one of the types it refuses. */
  function FormatObjectLiteral(v: Value, indent: nat): Option<string> {
    if Supported(v) then Some(Format(v, indent)) else None
  }

  // ---------- the reader: ECMA-262, sections 12.9.3, 12.9.4, 13.2.4 and 13.2.5 ----------

  predicate IsSpace(c: char) {
    c == ' ' || c == '\t' || c == '\n' || c == '\r'
  }

  function SkipSpace(s: string): (r: string)
    ensures |r| <= |s|
  {
    if s != [] && IsSpace(s[0]) then SkipSpace(s[1..]) else s
  }

  predicate IsNameChar(c: char) {
    'a' <= c <= 'z' || 'A' <= c <= 'Z' || c == '_' || c == '$' || IsDigit(c)
  }

  /** An identifier name written in ASCII. */
  predicate IsName(s: string) {
    s != [] && !IsDigit(s[0]) && forall i :: 0 <= i < |s| ==> IsNameChar(s[i])
  }

  /** The character a backslash and c stand for; none for the escapes that take more characters. */
  function Unescape(c: char): Option<char> {
    if c == 'n' then Some('\n') else if c == 't' then Some('\t') else if c == 'r' then Some('\r')
    else if c == 'b' then Some(8 as char) else if c == 'v' then Some(11 as char) else if c == 'f' then Some(12 as char)
    else if c == 'x' || c == 'u' || IsDigit(c) || IsLineTerminator(c) || c as int == 0x2028 || c as int == 0x2029 then None
    else Some(c)
  }

  /** The characters a string literal may not hold unescaped. */
  predicate IsLineTerminator(c: char) {
    c == '\n' || c == '\r'
  }

  /** The rest of a single-quoted string, after `acc` of it. */
  function ReadString(s: string, acc: string): (r: Option<(string, string)>)
    ensures r.Some? ==> |r.value.1| < |s|
  {
    if s == [] || IsLineTerminator(s[0]) then None
    else if s[0] == '\'' then Some((acc, s[1..]))
    else if s[0] == '\\' then
      if |s| == 1 || Unescape(s[1]).None? then None else ReadString(s[2..], acc + [Unescape(s[1]).value])
    else ReadString(s[1..], acc + [s[0]])
  }

  /** A decimal integer. What follows may not be a digit, the start of a name or a fraction. */
  function ReadNat(s: string): (r: Option<(int, string)>)
    ensures r.Some? ==> |r.value.1| < |s|
  {
    var n := Span(s, IsDigit);
    SpanHolds(s, IsDigit);
    if n == 0 || (n > 1 && s[0] == '0') then None
    else if n < |s| && (IsNameChar(s[n]) || s[n] == '.') then None
    else Some((NatValue(s[..n]), s[n..]))
  }

  /** A literal word, if s starts with it and it ends there. */
  function ReadWord(s: string, word: string, x: Atom): (r: Option<(Value, string)>)
    requires word != []
    ensures r.Some? ==> |r.value.1| < |s|
  {
    if word <= s && (|s| == |word| || !IsNameChar(s[|word|])) then Some((Leaf(x), s[|word|..])) else None
  }

  function ReadValue(text: string): (r: Option<(Value, string)>)
    ensures r.Some? ==> |r.value.1| < |text|
    decreases |text|, 0
  {
    var s := SkipSpace(text);
    if s == [] then None
    else if s[0] == '[' then ReadItems(s[1..], [])
    else if s[0] == '{' then ReadMembers(s[1..], [])
    else if s[0] == '\'' then
      match ReadString(s[1..], [])
      case None => None
      case Some((x, rest)) => Some((Leaf(Str(x)), rest))
    else if s[0] == '-' then
      match ReadNat(s[1..])
      case None => None
      case Some((n, rest)) => Some((Leaf(Num(-n)), rest))
    else if IsDigit(s[0]) then
      match ReadNat(s)
      case None => None
      case Some((n, rest)) => Some((Leaf(Num(n)), rest))
    else if s[0] == 'n' then ReadWord(s, "null", Null)
    else if s[0] == 't' then ReadWord(s, "true", Bool(true))
    else if s[0] == 'f' then ReadWord(s, "false", Bool(false))
    else None
  }

  /** The elements of an array after `acc`, a comma allowed after the last. */
  function ReadItems(text: string, acc: seq<Value>): (r: Option<(Value, string)>)
    ensures r.Some? ==> |r.value.1| < |text|
    decreases |text|, 1
  {
    var s := SkipSpace(text);
    if s == [] then None
    else if s[0] == ']' then Some((Arr(acc), s[1..]))
    else
      match ReadValue(s)
      case None => None
      case Some((x, rest)) =>
        var t := SkipSpace(rest);
        if t != [] && t[0] == ',' then ReadItems(t[1..], acc + [x])
        else if t != [] && t[0] == ']' then Some((Arr(acc + [x]), t[1..]))
        else None
  }

  /** The properties of an object after `acc`. `__proto__: v` sets the prototype and adds none. */
  function ReadMembers(text: string, acc: Fields): (r: Option<(Value, string)>)
    ensures r.Some? ==> |r.value.1| < |text|
    decreases |text|, 1
  {
    var s := SkipSpace(text);
    var n := Span(s, IsNameChar);
    if s == [] then None
    else if s[0] == '}' then Some((Obj(acc), s[1..]))
    else if !IsName(s[..n]) then None
    else
      var colon := SkipSpace(s[n..]);
      if colon == [] || colon[0] != ':' then None
      else
        match ReadValue(colon[1..])
        case None => None
        case Some((x, rest)) =>
          var t := SkipSpace(rest);
          if t != [] && t[0] == ',' then ReadMembers(t[1..], Assign(acc, s[..n], x))
          else if t != [] && t[0] == '}' then Some((Obj(Assign(acc, s[..n], x)), t[1..]))
          else None
  }

  /** The value of a whole text. */
  function Read(text: string): Option<Value> {
    match ReadValue(text)
    case Some((v, rest)) => if SkipSpace(rest) == [] then Some(v) else None
    case None => None
  }

  // ---------- reading the parts ----------

  lemma {:induction false} SkipPad(spaces: string, t: string)
    requires forall i :: 0 <= i < |spaces| ==> IsSpace(spaces[i])
    ensures SkipSpace(spaces + t) == SkipSpace(t)
  {
    if spaces == [] {
      assert spaces + t == t;
    } else {
      assert (spaces + t)[1..] == spaces[1..] + t;
      SkipPad(spaces[1..], t);
    }
  }

  ghost predicate HasLineTerminator(s: string) {
    exists i :: 0 <= i < |s| && IsLineTerminator(s[i])
  }

  function Escaped(s: string): string {
    EscapeQuotes(EscapeBackslashes(s))
  }

  lemma EscapedCons(s: string)
    requires s != []
    ensures Escaped(s) == (if s[0] == '\\' || s[0] == '\'' then ['\\', s[0]] else [s[0]]) + Escaped(s[1..])
  {
    var b := EscapeBackslashes(s[1..]);
    if s[0] == '\\' {
      var t := ['\\', '\\'] + b;
      assert t[1..] == ['\\'] + b && t[1..][1..] == b;
      assert EscapeQuotes(t) == ['\\'] + EscapeQuotes(t[1..]);
    } else {
      assert ([s[0]] + b)[1..] == b;
    }
  }

  /** One character read, escaped or not; `tail` is the rest of the printed string. */
  lemma ReadEscapedStep(c: char, tail: string, acc: string)
    ensures ReadString((if c == '\\' || c == '\'' then ['\\', c] else [c]) + tail, acc) ==
            if IsLineTerminator(c) then None else ReadString(tail, acc + [c])
  {
    if c == '\\' || c == '\'' {
      assert (['\\', c] + tail)[2..] == tail;
    } else {
      assert ([c] + tail)[1..] == tail;
    }
  }

  lemma LineTerminatorCons(s: string)
    requires s != []
    ensures HasLineTerminator(s) <==> IsLineTerminator(s[0]) || HasLineTerminator(s[1..])
  {
    assert s == [s[0]] + s[1..];
  }

  /** A printed string reads back, unless it holds a line terminator: then it does not read at all. */
  lemma {:induction false} ReadEscaped(s: string, rest: string, acc: string)
    ensures ReadString(Escaped(s) + (['\''] + rest), acc) ==
            if HasLineTerminator(s) then None else Some((acc + s, rest))
  {
    if s == [] {
      assert (['\''] + rest)[1..] == rest;
      assert Escaped(s) + (['\''] + rest) == ['\''] + rest && acc + s == acc;
    } else {
      var head := if s[0] == '\\' || s[0] == '\'' then ['\\', s[0]] else [s[0]];
      EscapedCons(s);
      LineTerminatorCons(s);
      Associate(head, Escaped(s[1..]), ['\''] + rest);
      ReadEscapedStep(s[0], Escaped(s[1..]) + (['\''] + rest), acc);
      ReadEscaped(s[1..], rest, acc + [s[0]]);
      assert acc + [s[0]] + s[1..] == acc + s;
    }
  }

  /** What may follow a value in printed text. */
  predicate Ends(rest: string) {
    rest == [] || rest[0] == ','
  }

  lemma ReadNatText(n: nat, rest: string)
    requires Ends(rest)
    ensures ReadNat(NatText(n) + rest) == Some((n, rest))
  {
    var a := NatText(n);
    SpanOf(a, rest, IsDigit);
    assert (a + rest)[..|a|] == a && (a + rest)[|a|..] == rest;
    NatTextReads(n);
    if n > 0 {
      NatTextNoLeadingZero(n);
    }
  }

  // ---------- reading a printed value ----------

  /** Property names at every depth are distinct names. */
  ghost predicate HasNames(v: Value) {
    match v
    case Leaf(_) => true
    case Arr(xs) => forall i :: 0 <= i < |xs| ==> HasNames(xs[i])
    case Obj(fs) => Distinct(fs) && forall i :: 0 <= i < |fs| ==> IsName(fs[i].0) && HasNames(fs[i].1)
  }

  /** Some string holds a line terminator, which the printer does not escape. */
  ghost predicate Broken(v: Value) {
    match v
    case Leaf(x) => x.Str? && HasLineTerminator(x.s)
    case Arr(xs) => exists i :: 0 <= i < |xs| && Broken(xs[i])
    case Obj(fs) => exists i :: 0 <= i < |fs| && Broken(fs[i].1)
  }

  /** The value a printed text denotes: `__proto__` properties are not read as properties. */
  function Denoted(v: Value): Value {
    match v
    case Leaf(_) => v
    case Arr(xs) => Arr(seq(|xs|, i requires 0 <= i < |xs| => Denoted(xs[i])))
    case Obj(fs) => Obj(AssignAll(seq(|fs|, i requires 0 <= i < |fs| => (fs[i].0, Denoted(fs[i].1)))))
  }

  function ItemLine(xs: seq<Value>, level: nat, i: nat): string
    requires i < |xs| && Supported(Arr(xs))
  {
    Pad(level + 1) + (Format(xs[i], level + 1) + [','])
  }

  function MemberLine(fs: Fields, level: nat, i: nat): string
    requires i < |fs| && Supported(Obj(fs))
  {
    Pad(level + 1) + (fs[i].0 + ([':', ' '] + (Format(fs[i].1, level + 1) + [','])))
  }

  /** Lines and then a closing text, each after a line break. */
  function Stack(lines: seq<string>, close: string): string {
    if lines == [] then ['\n'] + close else ['\n'] + (lines[0] + Stack(lines[1..], close))
  }

  lemma {:induction false} StackJoin(lines: seq<string>, close: string)
    requires lines != []
    ensures Stack(lines, close) == ['\n'] + (Join(lines) + (['\n'] + close))
  {
    if |lines| == 1 {
      assert Stack(lines[1..], close) == ['\n'] + close;
    } else {
      StackJoin(lines[1..], close);
      var rest := ['\n'] + close;
      assert lines[0] + (['\n'] + (Join(lines[1..]) + rest)) == (lines[0] + (['\n'] + Join(lines[1..]))) + rest;
    }
  }

  function ItemLines(xs: seq<Value>, level: nat): (lines: seq<string>)
    requires Supported(Arr(xs))
    ensures |lines| == |xs| && forall i :: 0 <= i < |xs| ==> lines[i] == ItemLine(xs, level, i)
  {
    seq(|xs|, i requires 0 <= i < |xs| => ItemLine(xs, level, i))
  }

  function MemberLines(fs: Fields, level: nat): (lines: seq<string>)
    requires Supported(Obj(fs))
    ensures |lines| == |fs| && forall i :: 0 <= i < |fs| ==> lines[i] == MemberLine(fs, level, i)
  {
    seq(|fs|, i requires 0 <= i < |fs| => MemberLine(fs, level, i))
  }

  lemma Opening(c: char, body: string)
    ensures [c, '\n'] + body == [c] + (['\n'] + body)
  {
  }

  lemma FormatItems(xs: seq<Value>, level: nat)
    requires xs != [] && Supported(Arr(xs))
    ensures Format(Arr(xs), level) == ['['] + Stack(ItemLines(xs, level), Pad(level) + [']'])
  {
    var lines, close := ItemLines(xs, level), Pad(level) + [']'];
    FormatAsItemLines(xs, level);
    StackJoin(lines, close);
    Opening('[', Join(lines) + (['\n'] + close));
  }

  lemma FormatAsItemLines(xs: seq<Value>, level: nat)
    requires xs != [] && Supported(Arr(xs))
    ensures Format(Arr(xs), level) == ['[', '\n'] + (Join(ItemLines(xs, level)) + (['\n'] + (Pad(level) + [']'])))
  {
    assert ItemLines(xs, level) ==
           seq(|xs|, i requires 0 <= i < |xs| => Pad(level + 1) + (Format(xs[i], level + 1) + [',']));
  }

  lemma FormatMembers(fs: Fields, level: nat)
    requires fs != [] && Supported(Obj(fs))
    ensures Format(Obj(fs), level) == ['{'] + Stack(MemberLines(fs, level), Pad(level) + ['}'])
  {
    var lines, close := MemberLines(fs, level), Pad(level) + ['}'];
    FormatAsMemberLines(fs, level);
    StackJoin(lines, close);
    Opening('{', Join(lines) + (['\n'] + close));
  }

  lemma FormatAsMemberLines(fs: Fields, level: nat)
    requires fs != [] && Supported(Obj(fs))
    ensures Format(Obj(fs), level) == ['{', '\n'] + (Join(MemberLines(fs, level)) + (['\n'] + (Pad(level) + ['}'])))
  {
    assert MemberLines(fs, level) ==
           seq(|fs|, i requires 0 <= i < |fs| =>
             Pad(level + 1) + (fs[i].0 + ([':', ' '] + (Format(fs[i].1, level + 1) + [',']))));
  }

  lemma FormatStarts(v: Value, level: nat)
    requires Supported(v)
    ensures Format(v, level) != [] && !IsSpace(Format(v, level)[0]) && Format(v, level)[0] != ']'
  {
    match v
    case Leaf(_) =>
    case Arr(xs) => if xs != [] { FormatItems(xs, level); }
    case Obj(fs) => if fs != [] { FormatMembers(fs, level); }
  }

  lemma SpacesThen(level: nat, t: string)
    ensures SkipSpace((['\n'] + Pad(level)) + t) == SkipSpace(t)
  {
    SkipPad(['\n'] + Pad(level), t);
  }

  /** Text grouped as printed, regrouped as read: white space, then a value, a comma and the rest. */
  lemma RegroupItem(p: string, f: string, t: string, rest: string)
    ensures (['\n'] + ((p + (f + [','])) + t)) + rest == (['\n'] + p) + (f + ([','] + (t + rest)))
  {
    Associate(['\n'], (p + (f + [','])) + t, rest);
    Associate(p + (f + [',']), t, rest);
    Associate(p, f + [','], t + rest);
    Associate(f, [','], t + rest);
    Associate(['\n'], p, f + ([','] + (t + rest)));
  }

  lemma RegroupMember(p: string, k: string, f: string, t: string, rest: string)
    ensures (['\n'] + ((p + (k + ([':', ' '] + (f + [','])))) + t)) + rest ==
            (['\n'] + p) + (k + ([':'] + ([' '] + (f + ([','] + (t + rest))))))
  {
    var value := f + ([','] + (t + rest));
    Associate(['\n'], (p + (k + ([':', ' '] + (f + [','])))) + t, rest);
    Associate(p + (k + ([':', ' '] + (f + [',']))), t, rest);
    Associate(p, k + ([':', ' '] + (f + [','])), t + rest);
    Associate(k, [':', ' '] + (f + [',']), t + rest);
    Associate([':', ' '], f + [','], t + rest);
    Associate(f, [','], t + rest);
    assert [':', ' '] + value == [':'] + ([' '] + value);
    Associate(['\n'], p, k + ([':'] + ([' '] + value)));
  }

  lemma StackFrom(lines: seq<string>, i: nat, close: string)
    requires i < |lines|
    ensures Stack(lines[i..], close) == ['\n'] + (lines[i] + Stack(lines[i + 1..], close))
  {
    assert lines[i..][1..] == lines[i + 1..];
  }

  lemma FormattedIsNotSpace(v: Value, level: nat, tail: string)
    requires Supported(v)
    ensures SkipSpace(Format(v, level) + tail) == Format(v, level) + tail
    ensures (Format(v, level) + tail)[0] == Format(v, level)[0] != ']'
  {
    FormatStarts(v, level);
  }

  function DenotedItems(xs: seq<Value>): (ds: seq<Value>)
    ensures |ds| == |xs| && forall i :: 0 <= i < |xs| ==> ds[i] == Denoted(xs[i])
  {
    seq(|xs|, i requires 0 <= i < |xs| => Denoted(xs[i]))
  }

  function DenotedPairs(fs: Fields): (ds: Fields)
    ensures |ds| == |fs| && forall i :: 0 <= i < |fs| ==> ds[i] == (fs[i].0, Denoted(fs[i].1))
  {
    seq(|fs|, i requires 0 <= i < |fs| => (fs[i].0, Denoted(fs[i].1)))
  }

  /** One element read: `value` is what `ReadValue` makes of the element and what follows it. */
  lemma ReadItemsStep(text: string, s: string, more: string, acc: seq<Value>, value: Option<Value>)
    requires SkipSpace(text) == s && s != [] && s[0] != ']'
    requires ReadValue(s) == match value case None => None case Some(x) => Some((x, [','] + more))
    ensures ReadItems(text, acc) == match value case None => None case Some(x) => ReadItems(more, acc + [x])
  {
    assert ([','] + more)[1..] == more;
  }

  lemma ReadMembersStep(text: string, k: string, afterColon: string, more: string, acc: Fields, value: Option<Value>)
    requires IsName(k) && SkipSpace(text) == k + ([':'] + afterColon)
    requires ReadValue(afterColon) == match value case None => None case Some(x) => Some((x, [','] + more))
    ensures ReadMembers(text, acc) == match value case None => None case Some(x) => ReadMembers(more, Assign(acc, k, x))
  {
    ReadName(k, [':'] + afterColon);
    assert ([':'] + afterColon)[1..] == afterColon;
    assert ([','] + more)[1..] == more;
  }

  /** What reading a printed value gives. */
  ghost function Shown(v: Value): Option<Value> {
    if Broken(v) then None else Some(Denoted(v))
  }

  lemma CloseText(level: nat, c: char, rest: string)
    requires !IsSpace(c)
    ensures SkipSpace((['\n'] + (Pad(level) + [c])) + rest) == [c] + rest
    ensures ([c] + rest)[1..] == rest
  {
    assert (['\n'] + (Pad(level) + [c])) + rest == (['\n'] + Pad(level)) + ([c] + rest);
    SpacesThen(level, [c] + rest);
  }

  /** The result of reading v, with what follows it. */
  ghost function Then(shown: Option<Value>, rest: string): Option<(Value, string)> {
    match shown
    case None => None
    case Some(x) => Some((x, rest))
  }

  lemma ReadStackedItem(x: Value, level: nat, t: string, rest: string, acc: seq<Value>)
    requires Supported(x)
    requires var more := [','] + (t + rest); ReadValue(Format(x, level) + more) == Then(Shown(x), more)
    ensures ReadItems((['\n'] + ((Pad(level) + (Format(x, level) + [','])) + t)) + rest, acc) ==
            match Shown(x) case None => None case Some(y) => ReadItems(t + rest, acc + [y])
  {
    var f, more := Format(x, level), t + rest;
    RegroupItem(Pad(level), f, t, rest);
    SpacesThen(level, f + ([','] + more));
    FormattedIsNotSpace(x, level, [','] + more);
    ReadItemsStep((['\n'] + ((Pad(level) + (f + [','])) + t)) + rest, f + ([','] + more), more, acc, Shown(x));
  }

  lemma ReadStackedMember(k: string, x: Value, level: nat, t: string, rest: string, acc: Fields)
    requires IsName(k) && Supported(x)
    requires var more := [','] + (t + rest); ReadValue(Format(x, level) + more) == Then(Shown(x), more)
    ensures ReadMembers((['\n'] + ((Pad(level) + (k + ([':', ' '] + (Format(x, level) + [','])))) + t)) + rest, acc) ==
            match Shown(x) case None => None case Some(y) => ReadMembers(t + rest, Assign(acc, k, y))
  {
    var f, more := Format(x, level), t + rest;
    var value := [' '] + (f + ([','] + more));
    RegroupMember(Pad(level), k, f, t, rest);
    SpacesThen(level, k + ([':'] + value));
    ReadName(k, [':'] + value);
    ReadValueSkips(f + ([','] + more));
    ReadMembersStep((['\n'] + ((Pad(level) + (k + ([':', ' '] + (f + [','])))) + t)) + rest, k, value, more, acc, Shown(x));
  }

  ghost predicate BrokenFrom(xs: seq<Value>, i: nat) {
    exists j :: i <= j < |xs| && Broken(xs[j])
  }

  ghost predicate BrokenMemberFrom(fs: Fields, i: nat) {
    exists j :: i <= j < |fs| && Broken(fs[j].1)
  }

  lemma DenotedItemsNext(xs: seq<Value>, i: nat)
    requires i < |xs|
    ensures DenotedItems(xs)[..i] + [Denoted(xs[i])] == DenotedItems(xs)[..i + 1]
  {
  }

  lemma BrokenFromNext(xs: seq<Value>, i: nat)
    requires i < |xs|
    ensures BrokenFrom(xs, i) <==> Broken(xs[i]) || BrokenFrom(xs, i + 1)
  {
  }

  lemma BrokenMemberFromNext(fs: Fields, i: nat)
    requires i < |fs|
    ensures BrokenMemberFrom(fs, i) <==> Broken(fs[i].1) || BrokenMemberFrom(fs, i + 1)
  {
  }

  lemma {:induction false} ReadStackedItems(xs: seq<Value>, level: nat, i: nat, rest: string)
    requires i <= |xs| && Supported(Arr(xs)) && HasNames(Arr(xs))
    ensures ReadItems(Stack(ItemLines(xs, level)[i..], Pad(level) + [']']) + rest, DenotedItems(xs)[..i]) ==
            if BrokenFrom(xs, i) then None else Some((Arr(DenotedItems(xs)), rest))
    decreases Arr(xs), 0, |xs| - i
  {
    var lines, close, acc := ItemLines(xs, level), Pad(level) + [']'], DenotedItems(xs)[..i];
    if i == |xs| {
      CloseText(level, ']', rest);
      assert acc == DenotedItems(xs);
    } else {
      var t := Stack(lines[i + 1..], close);
      StackFrom(lines, i, close);
      assert xs[i] < Arr(xs);
      ReadFormatted(xs[i], level + 1, [','] + (t + rest));
      ReadStackedItem(xs[i], level + 1, t, rest, acc);
      DenotedItemsNext(xs, i);
      BrokenFromNext(xs, i);
      ReadStackedItems(xs, level, i + 1, rest);
    }
  }

  /** One line read: what follows is read with one property more. */
  lemma ReadNextMember(fs: Fields, level: nat, i: nat, rest: string, ds: Fields)
    requires i < |fs| == |ds| && Supported(Obj(fs)) && IsName(fs[i].0) && ds[i] == (fs[i].0, Denoted(fs[i].1))
    requires var more := [','] + (Stack(MemberLines(fs, level)[i + 1..], Pad(level) + ['}']) + rest);
             ReadValue(Format(fs[i].1, level + 1) + more) == Then(Shown(fs[i].1), more)
    ensures ReadMembers(Stack(MemberLines(fs, level)[i..], Pad(level) + ['}']) + rest, AssignAll(ds[..i])) ==
            if Broken(fs[i].1) then None
            else ReadMembers(Stack(MemberLines(fs, level)[i + 1..], Pad(level) + ['}']) + rest, AssignAll(ds[..i + 1]))
  {
    var lines, close := MemberLines(fs, level), Pad(level) + ['}'];
    StackFrom(lines, i, close);
    AssignAllNext(ds, i);
    ReadStackedMember(fs[i].0, fs[i].1, level + 1, Stack(lines[i + 1..], close), rest, AssignAll(ds[..i]));
  }

  lemma ReadLastMember(fs: Fields, level: nat, rest: string, acc: Fields)
    requires Supported(Obj(fs))
    ensures ReadMembers(Stack(MemberLines(fs, level)[|fs|..], Pad(level) + ['}']) + rest, acc) == Some((Obj(acc), rest))
  {
    CloseText(level, '}', rest);
  }

  lemma {:induction false} ReadStackedMembers(fs: Fields, level: nat, i: nat, rest: string, ds: Fields)
    requires i <= |fs| && Supported(Obj(fs)) && HasNames(Obj(fs)) && ds == DenotedPairs(fs)
    ensures ReadMembers(Stack(MemberLines(fs, level)[i..], Pad(level) + ['}']) + rest, AssignAll(ds[..i])) ==
            if BrokenMemberFrom(fs, i) then None else Some((Obj(AssignAll(ds)), rest))
    decreases Obj(fs), 0, |fs| - i
  {
    if i == |fs| {
      ReadLastMember(fs, level, rest, AssignAll(ds));
      assert ds[..i] == ds;
    } else {
      assert fs[i].1 < Obj(fs);
      ReadFormatted(fs[i].1, level + 1, [','] + (Stack(MemberLines(fs, level)[i + 1..], Pad(level) + ['}']) + rest));
      ReadNextMember(fs, level, i, rest, ds);
      BrokenMemberFromNext(fs, i);
      ReadStackedMembers(fs, level, i + 1, rest, ds);
    }
  }

  lemma ReadValueSkips(text: string)
    ensures ReadValue([' '] + text) == ReadValue(text)
  {
    SkipPad([' '], text);
  }

  lemma ReadName(k: string, rest: string)
    requires IsName(k) && rest != [] && rest[0] == ':'
    ensures var s := k + rest;
            SkipSpace(s) == s && s[0] != '}' && Span(s, IsNameChar) == |k| && s[..|k|] == k && s[|k|..] == rest
    ensures SkipSpace(rest) == rest
  {
    SpanOf(k, rest, IsNameChar);
    assert (k + rest)[0] == k[0];
  }

  lemma ReadFormattedWord(word: string, x: Atom, rest: string)
    requires word != [] && Ends(rest)
    ensures ReadWord(word + rest, word, x) == Some((Leaf(x), rest))
  {
    assert (word + rest)[..|word|] == word && (word + rest)[|word|..] == rest;
  }

  lemma ReadNegative(text: string, n: int, rest: string)
    requires text != [] && text[0] == '-' && ReadNat(text[1..]) == Some((-n, rest))
    ensures ReadValue(text) == Some((Leaf(Num(n)), rest))
  {
  }

  lemma ReadNatural(text: string, n: int, rest: string)
    requires text != [] && IsDigit(text[0]) && ReadNat(text) == Some((n, rest))
    ensures ReadValue(text) == Some((Leaf(Num(n)), rest))
  {
    var c := text[0];
    assert !IsSpace(c) && c != '[' && c != '{' && c != '\'' && c != '-';
    assert SkipSpace(text) == text;
  }

  lemma ReadFormattedNum(n: int, rest: string)
    requires Ends(rest)
    ensures ReadValue(IntText(n) + rest) == Some((Leaf(Num(n)), rest))
  {
    var text := IntText(n) + rest;
    if n < 0 {
      NegativeText(n, rest);
      ReadNatText(-n, rest);
      ReadNegative(text, n, rest);
    } else {
      NaturalText(n, rest);
      ReadNatText(n, rest);
      ReadNatural(text, n, rest);
    }
  }

  lemma NegativeText(n: int, rest: string)
    requires n < 0
    ensures var text := IntText(n) + rest; text[0] == '-' && text[1..] == NatText(-n) + rest
  {
  }

  lemma NaturalText(n: nat, rest: string)
    ensures var text := IntText(n) + rest; text == NatText(n) + rest && IsDigit(text[0])
  {
  }

  lemma ReadFormattedStr(s: string, rest: string)
    ensures ReadValue(FormatAtom(Str(s)) + rest) ==
            if HasLineTerminator(s) then None else Some((Leaf(Str(s)), rest))
  {
    var text := FormatAtom(Str(s)) + rest;
    assert text == ['\''] + (Escaped(s) + (['\''] + rest));
    assert text[1..] == Escaped(s) + (['\''] + rest);
    ReadEscaped(s, rest, []);
    assert [] + s == s;
  }

  lemma ReadFormattedAtom(x: Atom, rest: string)
    requires !x.Other? && Ends(rest)
    ensures ReadValue(FormatAtom(x) + rest) ==
            if x.Str? && HasLineTerminator(x.s) then None else Some((Leaf(x), rest))
  {
    match x
    case Null => ReadFormattedWord("null", x, rest);
    case Bool(b) => ReadFormattedWord(if b then "true" else "false", x, rest);
    case Num(n) => ReadFormattedNum(n, rest);
    case Str(s) => ReadFormattedStr(s, rest);
  }

  lemma ReadFormattedArray(xs: seq<Value>, level: nat, rest: string)
    requires Supported(Arr(xs))
    ensures ReadValue(Format(Arr(xs), level) + rest) ==
            if xs == [] then Some((Arr([]), rest))
            else ReadItems(Stack(ItemLines(xs, level)[0..], Pad(level) + [']']) + rest, DenotedItems(xs)[..0])
  {
    var text := Format(Arr(xs), level) + rest;
    if xs == [] {
      assert text[1..] == [']'] + rest && text[1..][1..] == rest;
    } else {
      FormatItems(xs, level);
      var lines := ItemLines(xs, level);
      assert lines[0..] == lines;
      Associate(['['], Stack(lines, Pad(level) + [']']), rest);
      assert text[1..] == Stack(lines, Pad(level) + [']']) + rest;
      assert DenotedItems(xs)[..0] == [];
    }
  }

  lemma ReadFormattedObject(fs: Fields, level: nat, rest: string)
    requires Supported(Obj(fs))
    ensures ReadValue(Format(Obj(fs), level) + rest) ==
            if fs == [] then Some((Obj([]), rest))
            else ReadMembers(Stack(MemberLines(fs, level)[0..], Pad(level) + ['}']) + rest, AssignAll(DenotedPairs(fs)[..0]))
  {
    var text := Format(Obj(fs), level) + rest;
    if fs == [] {
      assert text[1..] == ['}'] + rest && text[1..][1..] == rest;
    } else {
      FormatMembers(fs, level);
      var lines := MemberLines(fs, level);
      assert lines[0..] == lines;
      Associate(['{'], Stack(lines, Pad(level) + ['}']), rest);
      assert text[1..] == Stack(lines, Pad(level) + ['}']) + rest;
      assert DenotedPairs(fs)[..0] == [];
    }
  }

  lemma DenotedIs(v: Value)
    ensures v.Arr? ==> Denoted(v) == Arr(DenotedItems(v.items)) && (Broken(v) <==> BrokenFrom(v.items, 0))
    ensures v.Obj? ==> Denoted(v) == Obj(AssignAll(DenotedPairs(v.fields))) && (Broken(v) <==> BrokenMemberFrom(v.fields, 0))
  {
  }

  /** A printed value reads back as the value it denotes, unless it is broken: then it does not read. */
  lemma {:induction false} ReadFormatted(v: Value, level: nat, rest: string)
    requires Supported(v) && HasNames(v) && Ends(rest)
    ensures ReadValue(Format(v, level) + rest) == if Broken(v) then None else Some((Denoted(v), rest))
    decreases v, 1, 0
  {
    DenotedIs(v);
    match v
    case Leaf(x) =>
      ReadFormattedAtom(x, rest);
    case Arr(xs) =>
      ReadFormattedArray(xs, level, rest);
      if xs != [] {
        ReadStackedItems(xs, level, 0, rest);
      }
    case Obj(fs) =>
      ReadFormattedObject(fs, level, rest);
      if fs != [] {
        ReadStackedMembers(fs, level, 0, rest, DenotedPairs(fs));
      }
  }

  // ---------- the round trip ----------

  ghost predicate HasProto(v: Value) {
    match v
    case Leaf(_) => false
    case Arr(xs) => exists i :: 0 <= i < |xs| && HasProto(xs[i])
    case Obj(fs) => exists i :: 0 <= i < |fs| && (fs[i].0 == PROTO || HasProto(fs[i].1))
  }

  lemma DenotedObject(fs: Fields)
    requires Distinct(fs)
    requires forall i :: 0 <= i < |fs| ==> (Denoted(fs[i].1) == fs[i].1 <==> !HasProto(fs[i].1))
    ensures Denoted(Obj(fs)) == Obj(fs) <==> !HasProto(Obj(fs))
  {
    var ds := DenotedPairs(fs);
    assert Denoted(Obj(fs)) == Obj(AssignAll(ds));
    AssignAllHolds(ds);
    WithoutProtoHolds(ds);
    assert Has(ds, PROTO) <==> exists i :: 0 <= i < |fs| && fs[i].0 == PROTO by {
      if i :| 0 <= i < |fs| && fs[i].0 == PROTO {
        assert ds[i].0 == PROTO;
      }
    }
    if !HasProto(Obj(fs)) {
      assert ds == fs;
    } else if !Has(ds, PROTO) {
      var i :| 0 <= i < |fs| && HasProto(fs[i].1);
      assert ds[i].1 != fs[i].1;
    }
  }

  /** What a text denotes is the value printed exactly when no property is called `__proto__`. */
  lemma {:induction false} DenotedIsValue(v: Value)
    requires HasNames(v)
    ensures Denoted(v) == v <==> !HasProto(v)
  {
    match v
    case Leaf(_) =>
    case Arr(xs) =>
      forall i | 0 <= i < |xs| ensures Denoted(xs[i]) == xs[i] <==> !HasProto(xs[i]) {
        DenotedIsValue(xs[i]);
      }
      assert Denoted(v) == Arr(DenotedItems(xs));
      if Denoted(v) == v {
        assert forall i :: 0 <= i < |xs| ==> DenotedItems(xs)[i] == xs[i];
      }
    case Obj(fs) =>
      forall i | 0 <= i < |fs| ensures Denoted(fs[i].1) == fs[i].1 <==> !HasProto(fs[i].1) {
        DenotedIsValue(fs[i].1);
      }
      DenotedObject(fs);
  }

  /** The printed text reads back as the value, at any indentation, exactly when no string holds a
      line terminator and no property is called `__proto__`. */
  lemma ReadBack(v: Value, indent: nat)
    requires Supported(v) && HasNames(v)
    ensures FormatObjectLiteral(v, indent).Some?
    ensures Read(FormatObjectLiteral(v, indent).value) == Some(v) <==> !Broken(v) && !HasProto(v)
  {
    ReadFormatted(v, indent, []);
    assert Format(v, indent) + [] == Format(v, indent);
    DenotedIsValue(v);
  }

  /** Hence two values that print alike are the same value. */
  lemma FormatInjective(v: Value, w: Value, indent: nat, indent': nat)
    requires Supported(v) && HasNames(v) && !Broken(v) && !HasProto(v)
    requires Supported(w) && HasNames(w) && !Broken(w) && !HasProto(w)
    requires FormatObjectLiteral(v, indent) == FormatObjectLiteral(w, indent')
    ensures v == w
  {
    ReadBack(v, indent);
    ReadBack(w, indent');
  }
}
