/** How printed literals are laid out, and which values are refused. */
module LiteralLayout {
  import opened Collections
  import opened Decimal
  import opened JsTree
  import opened ObjectLiteral
  import opened OrderedMap

  // ---------- the layout ----------

  function Spaces(n: nat): (s: string)
    ensures |s| == n && forall i :: 0 <= i < n ==> s[i] == ' '
  {
    seq(n, _ => ' ')
  }

  /** The text with every line after the first moved n columns to the right. */
  function Shift(text: string, n: nat): string {
    if text == [] then []
    else if text[0] == '\n' then ['\n'] + Spaces(n) + Shift(text[1..], n)
    else [text[0]] + Shift(text[1..], n)
  }

  lemma {:induction false} ShiftConcat(a: string, b: string, n: nat)
    ensures Shift(a + b, n) == Shift(a, n) + Shift(b, n)
  {
    if a == [] {
      assert a + b == b;
    } else {
      assert (a + b)[1..] == a[1..] + b;
      ShiftConcat(a[1..], b, n);
    }
  }

  lemma {:induction false} ShiftPlain(a: string, n: nat)
    requires '\n' !in a
    ensures Shift(a, n) == a
  {
    if a != [] {
      ShiftPlain(a[1..], n);
    }
  }

  lemma ShiftBreak(a: string, n: nat)
    ensures Shift(['\n'] + a, n) == ['\n'] + (Spaces(n) + Shift(a, n))
  {
    assert (['\n'] + a)[1..] == a;
  }

  lemma PadShifts(level: nat, n: nat)
    ensures Pad(level + n) == Spaces(2 * n) + Pad(level) && '\n' !in Pad(level)
  {
  }

  /** Lines and a closing text, each moved to the right. */
  lemma {:induction false} StackShifts(lines: seq<string>, moved: seq<string>, close: string, movedClose: string, n: nat)
    requires |moved| == |lines| && forall i :: 0 <= i < |lines| ==> moved[i] == Spaces(n) + Shift(lines[i], n)
    requires movedClose == Spaces(n) + Shift(close, n)
    ensures Stack(moved, movedClose) == Shift(Stack(lines, close), n)
  {
    if lines == [] {
      ShiftBreak(close, n);
    } else {
      StackShifts(lines[1..], moved[1..], close, movedClose, n);
      ShiftBreak(lines[0] + Stack(lines[1..], close), n);
      ShiftConcat(lines[0], Stack(lines[1..], close), n);
      Associate(Spaces(n), Shift(lines[0], n), Shift(Stack(lines[1..], close), n));
    }
  }

  lemma ClosingShifts(c: char, level: nat, n: nat)
    requires c != '\n'
    ensures Pad(level + n) + [c] == Spaces(2 * n) + Shift(Pad(level) + [c], 2 * n)
  {
    PadShifts(level, n);
    ShiftPlain(Pad(level) + [c], 2 * n);
    Associate(Spaces(2 * n), Pad(level), [c]);
  }

  /** One line of an array or an object: its name, if any, its value and a comma. */
  lemma LineShifts(level: nat, n: nat, name: string, value: string, moved: string)
    requires '\n' !in name && moved == Shift(value, 2 * n)
    ensures Pad(level + n) + (name + (moved + [','])) == Spaces(2 * n) + Shift(Pad(level) + (name + (value + [','])), 2 * n)
  {
    PadShifts(level, n);
    ShiftPlain(Pad(level), 2 * n);
    ShiftPlain(name, 2 * n);
    ShiftPlain([','], 2 * n);
    ShiftConcat(Pad(level), name + (value + [',']), 2 * n);
    ShiftConcat(name, value + [','], 2 * n);
    ShiftConcat(value, [','], 2 * n);
    Associate(Spaces(2 * n), Pad(level), name + (moved + [',']));
  }

  lemma PlainLineShifts(level: nat, n: nat, value: string, moved: string)
    requires moved == Shift(value, 2 * n)
    ensures Pad(level + n) + (moved + [',']) == Spaces(2 * n) + Shift(Pad(level) + (value + [',']), 2 * n)
  {
    LineShifts(level, n, [], value, moved);
    assert [] + (value + [',']) == value + [','] && [] + (moved + [',']) == moved + [','];
  }

  lemma {:induction false} EscapedNoBreak(s: string)
    requires !HasLineTerminator(s)
    ensures '\n' !in Escaped(s)
  {
    if s != [] {
      EscapedCons(s);
      LineTerminatorCons(s);
      EscapedNoBreak(s[1..]);
    }
  }

  lemma AtomNoBreak(x: Atom)
    requires !x.Other? && !Broken(Leaf(x))
    ensures '\n' !in FormatAtom(x)
  {
    match x
    case Str(s) => EscapedNoBreak(s);
    case Num(n) => assert forall c :: c in IntText(n) ==> IsDigit(c) || c == '-';
    case _ =>
  }

  lemma NameNoBreak(k: string)
    requires IsName(k)
    ensures '\n' !in k + [':', ' ']
  {
  }

  lemma EmptyShifts(v: Value, level: nat, n: nat)
    requires v == Arr([]) || v == Obj([])
    ensures Format(v, level + n) == Shift(Format(v, level), 2 * n)
  {
    ShiftPlain(Format(v, level), 2 * n);
  }

  /** Printed n levels deeper, a value is the same text with every line but the first moved 2n columns
      to the right. */
  lemma {:induction false} FormatShifts(v: Value, level: nat, n: nat)
    requires Supported(v) && HasNames(v) && !Broken(v)
    ensures Format(v, level + n) == Shift(Format(v, level), 2 * n)
    decreases v, 3
  {
    if v.Leaf? {
      AtomNoBreak(v.leaf);
      ShiftPlain(FormatAtom(v.leaf), 2 * n);
    } else if v == Arr([]) || v == Obj([]) {
      EmptyShifts(v, level, n);
    } else if v.Arr? {
      ArrayShifts(v.items, level, n);
    } else {
      ObjectShifts(v.fields, level, n);
    }
  }

  lemma BracketShifts(c: char, text: string, moved: string, n: nat)
    requires c != '\n' && moved == Shift(text, n)
    ensures [c] + moved == Shift([c] + text, n)
  {
    ShiftPlain([c], n);
    ShiftConcat([c], text, n);
  }

  lemma {:induction false} ItemShifts(xs: seq<Value>, level: nat, n: nat, i: nat)
    requires i < |xs| && Supported(Arr(xs)) && HasNames(Arr(xs)) && !Broken(Arr(xs))
    ensures ItemLine(xs, level + n, i) == Spaces(2 * n) + Shift(ItemLine(xs, level, i), 2 * n)
    decreases Arr(xs), 0
  {
    var value, moved := Format(xs[i], level + 1), Format(xs[i], level + 1 + n);
    FormatShifts(xs[i], level + 1, n);
    PlainLineShifts(level + 1, n, value, moved);
  }

  /** Brackets around lines that are all moved. */
  lemma BlockShifts(open: char, close: char, level: nat, n: nat, lines: seq<string>, moved: seq<string>)
    requires open != '\n' && close != '\n' && |moved| == |lines|
    requires forall i :: 0 <= i < |lines| ==> moved[i] == Spaces(2 * n) + Shift(lines[i], 2 * n)
    ensures [open] + Stack(moved, Pad(level + n) + [close]) == Shift([open] + Stack(lines, Pad(level) + [close]), 2 * n)
  {
    var text, movedText := Stack(lines, Pad(level) + [close]), Stack(moved, Pad(level + n) + [close]);
    ClosingShifts(close, level, n);
    StackShifts(lines, moved, Pad(level) + [close], Pad(level + n) + [close], 2 * n);
    BracketShifts(open, text, movedText, 2 * n);
  }

  lemma {:induction false} ItemsShift(xs: seq<Value>, level: nat, n: nat)
    requires Supported(Arr(xs)) && HasNames(Arr(xs)) && !Broken(Arr(xs))
    ensures forall i :: 0 <= i < |xs| ==> ItemLines(xs, level + n)[i] == Spaces(2 * n) + Shift(ItemLines(xs, level)[i], 2 * n)
    decreases Arr(xs), 1
  {
    forall i | 0 <= i < |xs| ensures ItemLines(xs, level + n)[i] == Spaces(2 * n) + Shift(ItemLines(xs, level)[i], 2 * n) {
      ItemShifts(xs, level, n, i);
    }
  }

  lemma {:induction false} ArrayShifts(xs: seq<Value>, level: nat, n: nat)
    requires xs != [] && Supported(Arr(xs)) && HasNames(Arr(xs)) && !Broken(Arr(xs))
    ensures Format(Arr(xs), level + n) == Shift(Format(Arr(xs), level), 2 * n)
    decreases Arr(xs), 2
  {
    ItemsShift(xs, level, n);
    BlockShifts('[', ']', level, n, ItemLines(xs, level), ItemLines(xs, level + n));
    FormatItems(xs, level);
    FormatItems(xs, level + n);
  }

  lemma {:induction false} MemberShifts(fs: Fields, level: nat, n: nat, i: nat)
    requires i < |fs| && Supported(Obj(fs)) && HasNames(Obj(fs)) && !Broken(Obj(fs))
    ensures MemberLine(fs, level + n, i) == Spaces(2 * n) + Shift(MemberLine(fs, level, i), 2 * n)
    decreases Obj(fs), 0
  {
    assert fs[i].1 < Obj(fs);
    var value, moved := Format(fs[i].1, level + 1), Format(fs[i].1, level + 1 + n);
    FormatShifts(fs[i].1, level + 1, n);
    NameNoBreak(fs[i].0);
    LineShifts(level + 1, n, fs[i].0 + [':', ' '], value, moved);
    Associate(fs[i].0, [':', ' '], value + [',']);
    Associate(fs[i].0, [':', ' '], moved + [',']);
  }

  lemma {:induction false} MembersShift(fs: Fields, level: nat, n: nat)
    requires Supported(Obj(fs)) && HasNames(Obj(fs)) && !Broken(Obj(fs))
    ensures forall i :: 0 <= i < |fs| ==> MemberLines(fs, level + n)[i] == Spaces(2 * n) + Shift(MemberLines(fs, level)[i], 2 * n)
    decreases Obj(fs), 1
  {
    forall i | 0 <= i < |fs| ensures MemberLines(fs, level + n)[i] == Spaces(2 * n) + Shift(MemberLines(fs, level)[i], 2 * n) {
      MemberShifts(fs, level, n, i);
    }
  }

  lemma {:induction false} ObjectShifts(fs: Fields, level: nat, n: nat)
    requires fs != [] && Supported(Obj(fs)) && HasNames(Obj(fs)) && !Broken(Obj(fs))
    ensures Format(Obj(fs), level + n) == Shift(Format(Obj(fs), level), 2 * n)
    decreases Obj(fs), 2
  {
    MembersShift(fs, level, n);
    BlockShifts('{', '}', level, n, MemberLines(fs, level), MemberLines(fs, level + n));
    FormatMembers(fs, level);
    FormatMembers(fs, level + n);
  }

  /** At the outermost level an array or an object that is not empty begins and ends like this: its
      first line two columns in, its closing bracket in the first column. */
  lemma OutermostLayout(v: Value)
    requires Supported(v) && (v.Arr? ==> v.items != []) && (v.Obj? ==> v.fields != []) && !v.Leaf?
    ensures var text, open, close := Format(v, 0), if v.Arr? then '[' else '{', if v.Arr? then ']' else '}';
            && |text| >= 7
            && text[..4] == [open, '\n', ' ', ' '] && text[|text| - 3..] == [',', '\n', close]
  {
    if v.Arr? {
      FormatItems(v.items, 0);
      ItemsLayout(v.items);
    } else {
      FormatMembers(v.fields, 0);
      MembersLayout(v.fields);
    }
  }

  /** What stands before the last comma, the line break and the closing text. */
  lemma {:induction false} BeforeClose(lines: seq<string>, close: string) returns (front: string)
    requires lines != [] && forall i :: 0 <= i < |lines| ==> |lines[i]| > 0 && lines[i][|lines[i]| - 1] == ','
    ensures Stack(lines, close) == front + ([',', '\n'] + close)
  {
    var line := lines[0];
    if |lines| == 1 {
      front := ['\n'] + line[..|line| - 1];
      CommaBreak(line[..|line| - 1], close);
      assert line == line[..|line| - 1] + [','];
    } else {
      var rest := BeforeClose(lines[1..], close);
      front := ['\n'] + (line + rest);
      Associate(line, rest, [',', '\n'] + close);
      Associate(['\n'], line + rest, [',', '\n'] + close);
    }
  }

  lemma CommaBreak(p: string, close: string)
    ensures ['\n'] + ((p + [',']) + (['\n'] + close)) == (['\n'] + p) + ([',', '\n'] + close)
  {
  }

  lemma StackEnds(lines: seq<string>, close: string)
    requires lines != [] && forall i :: 0 <= i < |lines| ==> |lines[i]| > 0 && lines[i][|lines[i]| - 1] == ','
    ensures var s := Stack(lines, close);
            && |s| >= |lines[0]| + 2 + |close| && s[..1 + |lines[0]|] == ['\n'] + lines[0]
            && s[|s| - |close| - 2..] == [',', '\n'] + close
  {
    var front := BeforeClose(lines, close);
    StackLonger(lines, close);
    Associate(['\n'], lines[0], Stack(lines[1..], close));
  }

  lemma {:induction false} StackLonger(lines: seq<string>, close: string)
    requires lines != []
    ensures |Stack(lines, close)| >= |lines[0]| + 2 + |close|
  {
    if |lines| > 1 {
      StackLonger(lines[1..], close);
    }
  }

  lemma ItemsLayout(xs: seq<Value>)
    requires xs != [] && Supported(Arr(xs))
    ensures var s := Stack(ItemLines(xs, 0), Pad(0) + [']']);
            |s| >= 6 && s[..3] == ['\n', ' ', ' '] && s[|s| - 3..] == [',', '\n', ']']
  {
    var lines := ItemLines(xs, 0);
    FormatStarts(xs[0], 1);
    forall i | 0 <= i < |lines| ensures |lines[i]| > 2 && lines[i][|lines[i]| - 1] == ',' {
    }
    StackEnds(lines, Pad(0) + [']']);
    assert lines[0][..2] == Pad(1);
  }

  lemma MembersLayout(fs: Fields)
    requires fs != [] && Supported(Obj(fs))
    ensures var s := Stack(MemberLines(fs, 0), Pad(0) + ['}']);
            |s| >= 6 && s[..3] == ['\n', ' ', ' '] && s[|s| - 3..] == [',', '\n', '}']
  {
    var lines := MemberLines(fs, 0);
    forall i | 0 <= i < |lines| ensures |lines[i]| > 2 && lines[i][|lines[i]| - 1] == ',' {
    }
    StackEnds(lines, Pad(0) + ['}']);
    assert lines[0][..2] == Pad(1);
  }

  // ---------- refusal ----------

  /** The atom is at some place in the value. */
  ghost predicate Contains(v: Value, x: Atom) {
    match v
    case Leaf(y) => x == y
    case Arr(xs) => exists i :: 0 <= i < |xs| && Contains(xs[i], x)
    case Obj(fs) => exists i :: 0 <= i < |fs| && Contains(fs[i].1, x)
  }

  /** The printer refuses exactly the values that hold, anywhere, one of a type it has no text for. */
  lemma {:induction false} RefusedExactly(v: Value, indent: nat)
    ensures FormatObjectLiteral(v, indent).None? <==> Contains(v, Other)
  {
    match v
    case Leaf(_) =>
    case Arr(xs) =>
      forall i | 0 <= i < |xs| ensures Supported(xs[i]) <==> !Contains(xs[i], Other) {
        RefusedExactly(xs[i], indent);
      }
    case Obj(fs) =>
      forall i | 0 <= i < |fs| ensures Supported(fs[i].1) <==> !Contains(fs[i].1, Other) {
        RefusedExactly(fs[i].1, indent);
      }
  }
}
